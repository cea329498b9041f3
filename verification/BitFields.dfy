/** The packed piece set of a peer, high bit first. */
module BitFields {
  import opened Bytes

  type Raw = seq<bv8>

  const WORD_BITS := 8

  function Mask(i: nat): bv8
    requires i < 8
  {
    1 << (7 - i)
  }

  /** Reference reading: bit `i` is the one shifted down to the lowest place. */
  predicate BitAt(raw: Raw, i: nat) {
    i / 8 < |raw| && (raw[i / 8] >> (7 - i % 8)) & 1 == 1
  }

  function Get(raw: Raw, i: nat): bool {
    i / 8 < |raw| && (Mask(i % 8) & raw[i / 8]) > 0
  }

  function Resized(raw: Raw, size: nat): Raw
    requires |raw| <= size
  {
    raw + seq(size - |raw|, _ => 0)
  }

  function Grown(raw: Raw, i: nat): (r: Raw)
    ensures |raw| <= |r| && i / 8 < |r|
  {
    if i / 8 >= |raw| then Resized(raw, i / 8 + 1) else raw
  }

  function Marked(raw: Raw, i: nat, value: bool): Raw {
    var g := Grown(raw, i);
    var word := g[i / 8];
    g[i / 8 := if value then word | Mask(i % 8) else word & !Mask(i % 8)]
  }

  /** A field with nothing but index 0 marked. */
  function OnlyFirst(): Raw {
    Marked([], 0, true)
  }

  lemma MaskReadsBit(w: bv8, i: nat)
    requires i < 8
    ensures (Mask(i) & w) > 0 <==> (w >> (7 - i)) & 1 == 1
  {
    if i == 0 {} else if i == 1 {} else if i == 2 {} else if i == 3 {}
    else if i == 4 {} else if i == 5 {} else if i == 6 {} else {}
  }

  /** `get` reads exactly the high-bit-first bit, and false beyond the end. */
  lemma GetReadsBit(raw: Raw, i: nat)
    ensures Get(raw, i) <==> BitAt(raw, i)
  {
    if i / 8 < |raw| {
      MaskReadsBit(raw[i / 8], i % 8);
    }
  }

  lemma MaskSetsOne(w: bv8, i: nat, value: bool, j: nat)
    requires i < 8 && j < 8
    ensures
      var w' := if value then w | Mask(i) else w & !Mask(i);
      (Mask(j) & w') > 0 <==> if j == i then value else (Mask(j) & w) > 0
  {
    MaskValues(i);
    MaskValues(j);
    hide Mask;
    MaskSetsOneAt(w, Mask(i), j);
  }

  lemma MaskValues(i: nat)
    requires i < 8
    ensures Mask(i) == [0x80 as bv8, 0x40, 0x20, 0x10, 0x08, 0x04, 0x02, 0x01][i]
  {
    if i == 0 {} else if i == 1 {} else if i == 2 {} else if i == 3 {}
    else if i == 4 {} else if i == 5 {} else if i == 6 {} else {}
  }

  lemma MaskSetsOneAt(w: bv8, m: bv8, j: nat)
    requires j < 8
    requires m in {0x80, 0x40, 0x20, 0x10, 0x08, 0x04, 0x02, 0x01}
    ensures (Mask(j) & (w | m)) > 0 <==> Mask(j) == m || (Mask(j) & w) > 0
    ensures (Mask(j) & (w & !m)) > 0 <==> Mask(j) != m && (Mask(j) & w) > 0
  {
    MaskValues(j);
    SingleBits(w, m, Mask(j));
  }

  lemma SingleBits(w: bv8, m: bv8, k: bv8)
    requires m in {0x80, 0x40, 0x20, 0x10, 0x08, 0x04, 0x02, 0x01}
    requires k in {0x80, 0x40, 0x20, 0x10, 0x08, 0x04, 0x02, 0x01}
    ensures (k & (w | m)) > 0 <==> k == m || (k & w) > 0
    ensures (k & (w & !m)) > 0 <==> k != m && (k & w) > 0
  {
  }

  /** One mark changes the marked index and nothing else, also when the vector has to grow. */
  lemma MarkChangesOneBit(raw: Raw, i: nat, value: bool, j: nat)
    ensures Get(Marked(raw, i, value), j) == if j == i then value else Get(raw, j)
  {
    var g := Grown(raw, i);
    if j / 8 == i / 8 {
      MaskSetsOne(g[i / 8], i % 8, value, j % 8);
    }
    assert Get(g, j) == Get(raw, j);
  }

  datatype MarkCall = MarkCall(index: nat, value: bool)

  function MarkAll(raw: Raw, calls: seq<MarkCall>): Raw
    decreases |calls|
  {
    if calls == [] then raw
    else MarkAll(Marked(raw, calls[0].index, calls[0].value), calls[1..])
  }

  /** The last mark of `i` in a list of calls. */
  function LastMark(calls: seq<MarkCall>, i: nat): Option<bool> {
    if calls == [] then None
    else if calls[|calls| - 1].index == i then Some(calls[|calls| - 1].value)
    else LastMark(calls[..|calls| - 1], i)
  }

  lemma {:induction false} LastMarkFromFront(calls: seq<MarkCall>, i: nat)
    requires calls != []
    ensures LastMark(calls, i) ==
      if LastMark(calls[1..], i).Some? then LastMark(calls[1..], i)
      else if calls[0].index == i then Some(calls[0].value) else None
  {
    var front := calls[..|calls| - 1];
    if |calls| > 1 {
      LastMarkFromFront(front, i);
      assert front[1..] == calls[1..][..|calls| - 2];
    }
  }

  /** The field refines a set: after any calls, an index reads its last mark, or else its original bit. */
  lemma {:induction false} MarksRefineSet(raw: Raw, calls: seq<MarkCall>, i: nat)
    ensures Get(MarkAll(raw, calls), i) ==
      match LastMark(calls, i) case Some(v) => v case None => BitAt(raw, i)
    decreases |calls|
  {
    if calls == [] {
      GetReadsBit(raw, i);
    } else {
      var next := Marked(raw, calls[0].index, calls[0].value);
      MarksRefineSet(next, calls[1..], i);
      MarkChangesOneBit(raw, calls[0].index, calls[0].value, i);
      GetReadsBit(raw, i);
      GetReadsBit(next, i);
      LastMarkFromFront(calls, i);
    }
  }

  lemma ZeroWord(w: bv8)
    ensures w == 0 <==> forall i: nat :: i < 8 ==> !((Mask(i) & w) > 0)
  {
    if forall i: nat :: i < 8 ==> !((Mask(i) & w) > 0) {
      assert !((Mask(0) & w) > 0) && !((Mask(1) & w) > 0) && !((Mask(2) & w) > 0) && !((Mask(3) & w) > 0);
      assert !((Mask(4) & w) > 0) && !((Mask(5) & w) > 0) && !((Mask(6) & w) > 0) && !((Mask(7) & w) > 0);
    }
  }

  lemma ZeroWords(raw: Raw)
    ensures (forall j :: 0 <= j < |raw| ==> raw[j] == 0) <==> forall i: nat :: !Get(raw, i)
  {
    if forall i: nat :: !Get(raw, i) {
      forall j | 0 <= j < |raw| ensures raw[j] == 0 {
        NoBitInWord(raw, j);
      }
    } else {
      var i: nat :| Get(raw, i);
      ZeroWord(raw[i / 8]);
    }
  }

  lemma NoBitInWord(raw: Raw, j: nat)
    requires j < |raw| && forall i: nat :: !Get(raw, i)
    ensures raw[j] == 0
  {
    ZeroWord(raw[j]);
    forall i: nat | i < 8 ensures !((Mask(i) & raw[j]) > 0) {
      assert !Get(raw, 8 * j + i) && (8 * j + i) / 8 == j && (8 * j + i) % 8 == i;
    }
  }

  class BitField {
    var words: Raw

    /** An empty field of `size` zero bytes. */
    constructor Sized(size: nat)
      ensures words == seq(size, _ => 0)
    {
      words := seq(size, _ => 0);
    }

    constructor FromRaw(raw: Raw)
      ensures words == raw
    {
      words := raw;
    }

    method Mark(index: nat, value: bool)
      modifies this
      ensures words == Marked(old(words), index, value)
    {
      var container := index / WORD_BITS;
      if container >= |words| {
        words := Resized(words, container + 1);
      }
      assert words == Grown(old(words), index);
      var mask, word := Mask(index % WORD_BITS), words[container];
      words := words[container := if value then word | mask else word & !mask];
    }

    method IsEmpty() returns (empty: bool)
      ensures empty <==> forall i: nat :: !Get(words, i)
    {
      var indicator: bv8 := 0;
      for k := 0 to |words|
        invariant indicator == 0 <==> forall j :: 0 <= j < k ==> words[j] == 0
      {
        indicator := indicator | words[k];
      }
      empty := indicator == 0;
      ZeroWords(words);
    }
  }
}
