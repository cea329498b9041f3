/** The main results about the bencode codec. */
module BencodeTheorems {
  import opened Bytes
  import opened Decimal
  import opened Bencode
  import opened BencodeGrammar

  // ---------- the order of keys ----------

  lemma {:induction false} LessTransitive(a: seq<byte>, b: seq<byte>, c: seq<byte>)
    requires Less(a, b) && Less(b, c)
    ensures Less(a, c)
    decreases |a|
  {
    if a != [] && a[0] == b[0] == c[0] {
      LessTransitive(a[1..], b[1..], c[1..]);
    }
  }

  lemma {:induction false} LessTotal(a: seq<byte>, b: seq<byte>)
    ensures Less(a, b) || a == b || Less(b, a)
    ensures !Less(a, a)
    ensures !(Less(a, b) && Less(b, a))
    decreases |a| + |b|
  {
    if a != [] {
      LessIrreflexive(a);
      if b != [] && a[0] == b[0] {
        LessTotal(a[1..], b[1..]);
        assert a == [a[0]] + a[1..] && b == [b[0]] + b[1..];
      }
    }
  }

  lemma {:induction false} LessIrreflexive(a: seq<byte>)
    ensures !Less(a, a)
    decreases |a|
  {
    if a != [] {
      LessIrreflexive(a[1..]);
    }
  }

  // ---------- the ordered map ----------

  lemma AscendingTail(es: seq<Entry>)
    requires Ascending(es) && es != []
    ensures Ascending(es[1..]) && forall e :: e in es[1..] ==> Less(es[0].key, e.key)
  {
  }

  lemma AscendingCons(e: Entry, es: seq<Entry>)
    requires Ascending(es) && forall x :: x in es ==> Less(e.key, x.key)
    ensures Ascending([e] + es)
  {
  }

  /** Assigning keeps the order and adds no other key. */
  lemma {:induction false} AssignKeepsOrder(es: seq<Entry>, e: Entry)
    requires Ascending(es)
    ensures Ascending(Assign(es, e))
    ensures forall x :: x in Assign(es, e) ==> x == e || x in es
  {
    if es != [] {
      AscendingTail(es);
      if es[0].key == e.key {
        AscendingCons(e, es[1..]);
      } else if Less(e.key, es[0].key) {
        forall x | x in es ensures Less(e.key, x.key) {
          if x != es[0] {
            assert x in es[1..];
            LessTransitive(e.key, es[0].key, x.key);
          }
        }
        AscendingCons(e, es);
      } else {
        LessTotal(e.key, es[0].key);
        AssignKeepsOrder(es[1..], e);
        AscendingCons(es[0], Assign(es[1..], e));
      }
    }
  }

  /** The entries are a map: a key looks up what was assigned last. */
  lemma {:induction false} AssignLooksUp(es: seq<Entry>, e: Entry, key: seq<byte>)
    requires Ascending(es)
    ensures Lookup(Assign(es, e), key) == if key == e.key then Some(e.value) else Lookup(es, key)
  {
    if es != [] {
      AscendingTail(es);
      LessTotal(e.key, es[0].key);
      var later := es[1..];
      assert ([e] + later)[1..] == later && ([e] + es)[1..] == es;
      if es[0].key != e.key && !Less(e.key, es[0].key) {
        AssignLooksUp(later, e, key);
        assert ([es[0]] + Assign(later, e))[1..] == Assign(later, e);
      }
    }
  }

  lemma {:induction false} AssignAllKeepsOrder(es: seq<Entry>, more: seq<Entry>)
    requires Ascending(es)
    ensures Ascending(AssignAll(es, more))
    ensures forall x :: x in AssignAll(es, more) ==> x in es || x in more
    decreases |more|
  {
    if more != [] {
      AssignKeepsOrder(es, more[0]);
      AssignAllKeepsOrder(Assign(es, more[0]), more[1..]);
    }
  }

  /** Of several entries with a key, the last one in the input wins. */
  lemma {:induction false} LastAssignmentWins(es: seq<Entry>, more: seq<Entry>, j: nat)
    requires Ascending(es) && j < |more| && forall i :: j < i < |more| ==> more[i].key != more[j].key
    ensures Lookup(AssignAll(es, more), more[j].key) == Some(more[j].value)
    decreases |more|
  {
    AssignKeepsOrder(es, more[0]);
    if j == 0 {
      AssignLooksUp(es, more[0], more[0].key);
      OthersKeepKey(Assign(es, more[0]), more[1..], more[0].key);
    } else {
      LastAssignmentWins(Assign(es, more[0]), more[1..], j - 1);
    }
  }

  lemma {:induction false} OthersKeepKey(es: seq<Entry>, more: seq<Entry>, key: seq<byte>)
    requires Ascending(es) && forall i :: 0 <= i < |more| ==> more[i].key != key
    ensures Lookup(AssignAll(es, more), key) == Lookup(es, key)
    decreases |more|
  {
    if more != [] {
      AssignKeepsOrder(es, more[0]);
      AssignLooksUp(es, more[0], key);
      OthersKeepKey(Assign(es, more[0]), more[1..], key);
    }
  }

  /** Appending in order is all that assigning in order does. */
  lemma {:induction false} AssignAtEnd(es: seq<Entry>, e: Entry)
    requires forall x :: x in es ==> Less(x.key, e.key)
    ensures Assign(es, e) == es + [e]
  {
    if es != [] {
      LessTotal(es[0].key, e.key);
      AssignAtEnd(es[1..], e);
      assert es + [e] == [es[0]] + (es[1..] + [e]);
    }
  }

  lemma {:induction false} AssignAscending(es: seq<Entry>, more: seq<Entry>)
    requires Ascending(es + more)
    ensures AssignAll(es, more) == es + more
    decreases |more|
  {
    if more != [] {
      forall x | x in es ensures Less(x.key, more[0].key) {
        var i :| 0 <= i < |es| && es[i] == x;
        assert (es + more)[i] == x && (es + more)[|es|] == more[0];
      }
      AssignAtEnd(es, more[0]);
      assert (es + [more[0]]) + more[1..] == es + more;
      AssignAscending(es + [more[0]], more[1..]);
    }
  }

  // ---------- the canonical text of a value ----------

  function TextOf(s: seq<byte>): Text {
    Text(Print(|s|), s)
  }

  function Magnitude(n: int): nat {
    if n < 0 then -n else n
  }

  function Tree(v: BeValue): Syntax
    decreases v, 0
  {
    match v
    case Int(n) => IntLit(n < 0, Print(Magnitude(n)))
    case Str(s) => StrLit(TextOf(s))
    case List(vs) => ListLit(TreeItems(vs))
    case Dict(es) => DictLit(TreeMembers(es))
  }

  function TreeItems(vs: seq<BeValue>): seq<Syntax>
    decreases vs, 0
  {
    if vs == [] then [] else [Tree(vs[0])] + TreeItems(vs[1..])
  }

  function TreeMembers(es: seq<Entry>): seq<Member>
    decreases es, 0
  {
    if es == [] then [] else [Member(TextOf(es[0].key), Tree(es[0].value))] + TreeMembers(es[1..])
  }

  /** The nesting depth of a value. */
  function Nesting(v: BeValue): nat
    decreases v, 0
  {
    match v
    case Int(_) => 1
    case Str(_) => 1
    case List(vs) => 1 + ItemsNesting(vs)
    case Dict(es) => 1 + EntriesNesting(es)
  }

  function ItemsNesting(vs: seq<BeValue>): nat
    decreases vs, 0
  {
    if vs == [] then 0 else
      var first, rest := Nesting(vs[0]), ItemsNesting(vs[1..]);
      if first >= rest then first else rest
  }

  function EntriesNesting(es: seq<Entry>): nat
    decreases es, 0
  {
    if es == [] then 0 else
      var first, rest := Nesting(es[0].value), EntriesNesting(es[1..]);
      if first >= rest then first else rest
  }

  lemma TextOfIsCanonical(s: seq<byte>)
    ensures TextOk(TextOf(s)) && CanonicalText(TextOf(s)) && TextBytes(TextOf(s)) == EncodeString(s)
  {
    PrintIsMinimal(|s|);
  }

  lemma IntTree(n: int64)
    ensures WellFormed(Tree(Int(n))) && Canonical(Tree(Int(n))) && Meaning(Tree(Int(n))) == Int(n)
    ensures Spell(Tree(Int(n))) == Encode(Int(n))
  {
    PrintIsMinimal(Magnitude(n));
    hide Print, Value, Minimal;
    assert [] + Print(Magnitude(n)) == Print(Magnitude(n));
  }

  /** The printer spells the value's tree, which is well formed and as deep as the value. */
  lemma {:induction false} TreeSpells(v: BeValue)
    ensures WellFormed(Tree(v)) && Spell(Tree(v)) == Encode(v) && Height(Tree(v)) == Nesting(v)
    decreases v, 1
  {
    match v
    case Int(n) => IntTree(n);
    case Str(s) => TextOfIsCanonical(s);
    case List(vs) =>
      ItemsSpell(vs);
    case Dict(es) =>
      MembersSpell(es);
  }

  lemma {:induction false} ItemsSpell(vs: seq<BeValue>)
    ensures
      var xs := TreeItems(vs);
      ItemsOk(xs) && SpellItems(xs) == EncodeItems(vs) && ItemsHeight(xs) == ItemsNesting(vs)
    decreases vs, 0
  {
    hide Tree, Spell, Encode, WellFormed, Height, Nesting;
    if vs != [] {
      TreeSpells(vs[0]);
      ItemsSpell(vs[1..]);
      assert TreeItems(vs)[1..] == TreeItems(vs[1..]);
    }
  }

  lemma {:induction false} MembersSpell(es: seq<Entry>)
    ensures
      var ms := TreeMembers(es);
      MembersOk(ms) && SpellMembers(ms) == EncodeEntries(es) && MembersHeight(ms) == EntriesNesting(es)
    decreases es, 0
  {
    hide Tree, Spell, Encode, WellFormed, Height, Nesting, TextOk, TextBytes, EncodeString;
    if es != [] {
      assert es[0].value < es[0];
      TreeSpells(es[0].value);
      TextOfIsCanonical(es[0].key);
      MembersSpell(es[1..]);
      var ms := TreeMembers(es);
      assert ms[1..] == TreeMembers(es[1..]);
      assert TextBytes(ms[0].key) + (Spell(ms[0].value) + SpellMembers(ms[1..]))
          == TextBytes(ms[0].key) + Spell(ms[0].value) + SpellMembers(ms[1..]);
    }
  }

  /** The tree of an ordered value is canonical and means that value. */
  lemma {:induction false} TreeMeans(v: BeValue)
    requires Ordered(v)
    ensures WellFormed(Tree(v)) && Canonical(Tree(v)) && Meaning(Tree(v)) == v
    decreases v, 1
  {
    TreeSpells(v);
    match v
    case Int(n) => IntTree(n);
    case Str(s) => TextOfIsCanonical(s);
    case List(vs) => ItemsMean(vs);
    case Dict(es) =>
      MembersMean(es);
      assert [] + es == es;
      AssignAscending([], es);
  }

  lemma ItemsCons(x: Syntax, xs: seq<Syntax>)
    requires WellFormed(x) && Canonical(x) && ItemsOk(xs) && CanonicalItems(xs)
    ensures ItemsOk([x] + xs) && CanonicalItems([x] + xs)
    ensures ItemMeanings([x] + xs) == [Meaning(x)] + ItemMeanings(xs)
  {
    hide WellFormed, Meaning, Canonical;
    assert ([x] + xs)[1..] == xs;
  }

  lemma {:induction false} ItemsMean(vs: seq<BeValue>)
    requires forall x :: x in vs ==> Ordered(x)
    ensures ItemsOk(TreeItems(vs)) && CanonicalItems(TreeItems(vs)) && ItemMeanings(TreeItems(vs)) == vs
    decreases vs, 0
  {
    hide Tree, WellFormed, Meaning, Canonical, Ordered;
    if vs != [] {
      assert vs == [vs[0]] + vs[1..];
      TreeMeans(vs[0]);
      ItemsMean(vs[1..]);
      ItemsCons(Tree(vs[0]), TreeItems(vs[1..]));
    }
  }

  lemma MembersCons(m: Member, ms: seq<Member>)
    requires TextOk(m.key) && CanonicalText(m.key) && WellFormed(m.value) && Canonical(m.value)
    requires MembersOk(ms) && CanonicalMembers(ms)
    requires ms != [] ==> Less(m.key.payload, ms[0].key.payload)
    ensures MembersOk([m] + ms) && CanonicalMembers([m] + ms)
    ensures MemberMeanings([m] + ms) == [Entry(m.key.payload, Meaning(m.value))] + MemberMeanings(ms)
  {
    hide WellFormed, Meaning, Canonical, Less, TextOk, CanonicalText;
    assert ([m] + ms)[1..] == ms;
  }

  lemma {:induction false} MembersMean(es: seq<Entry>)
    requires Ascending(es) && forall e :: e in es ==> Ordered(e.value)
    ensures MembersOk(TreeMembers(es)) && CanonicalMembers(TreeMembers(es)) && MemberMeanings(TreeMembers(es)) == es
    decreases es, 0
  {
    hide Tree, WellFormed, Meaning, Canonical, Ordered, Less, TextOk, CanonicalText, CanonicalMembers, MemberMeanings;
    if es == [] {
      NoMembers();
    } else {
      var e, later := es[0], es[1..];
      assert es == [e] + later && e.value < e;
      TreeMeans(e.value);
      TextOfIsCanonical(e.key);
      MembersMean(later);
      if later != [] {
        assert later[0] == es[1] && Less(e.key, es[1].key);
      }
      MembersCons(Member(TextOf(e.key), Tree(e.value)), TreeMembers(later));
    }
  }

  lemma NoMembers()
    ensures CanonicalMembers([]) && MemberMeanings([]) == []
  {
  }

  // ---------- round trip ----------

  /**
   * Round trip. For every value, whatever follows and whatever the limit: reading the printed value
   * gives it back and stops at its end exactly when its nesting fits the limit, and fails on depth
   * otherwise.
   */
  lemma RoundTrip(v: BeValue, rest: seq<byte>, maxDepth: int)
    requires Ordered(v) && |Encode(v) + rest| <= MAX_SIZE
    ensures Decode(Encode(v) + rest, maxDepth) ==
      if Nesting(v) <= maxDepth then Ok(Decoded(v, |Encode(v)|)) else Err(DepthReached)
  {
    TreeSpells(v);
    TreeMeans(v);
    ReadsSyntax(Tree(v), rest, maxDepth);
  }

  /** Concatenated printed values split in only one way. */
  lemma {:induction false} EncodingsSplitOneWay(vs: seq<BeValue>, ws: seq<BeValue>)
    requires forall v :: v in vs ==> Ordered(v)
    requires forall w :: w in ws ==> Ordered(w)
    requires EncodeItems(vs) == EncodeItems(ws) && |EncodeItems(vs)| <= MAX_SIZE
    ensures vs == ws
    decreases |vs|
  {
    if vs != [] && ws != [] {
      var v, w := vs[0], ws[0];
      var m := Nesting(v) + Nesting(w);
      RoundTrip(v, EncodeItems(vs[1..]), m);
      RoundTrip(w, EncodeItems(ws[1..]), m);
      assert EncodeItems(vs)[|Encode(v)|..] == EncodeItems(vs[1..]);
      assert EncodeItems(ws)[|Encode(w)|..] == EncodeItems(ws[1..]);
      EncodingsSplitOneWay(vs[1..], ws[1..]);
      assert vs == [v] + vs[1..] && ws == [w] + ws[1..];
    } else if vs != [] {
      EncodedNotEmpty(vs[0]);
    } else if ws != [] {
      EncodedNotEmpty(ws[0]);
    }
  }

  lemma EncodedNotEmpty(v: BeValue)
    ensures Encode(v) != []
  {
    TreeSpells(v);
    SpellStart(Tree(v));
  }

  // ---------- locality ----------

  /** An accepting read looks at the bytes it uses and at no others. */
  lemma Local(s: View, maxDepth: int, rest: seq<byte>)
    requires Decode(s, maxDepth).Ok?
    requires |s[..Decode(s, maxDepth).value.used] + rest| <= MAX_SIZE
    ensures Decode(s[..Decode(s, maxDepth).value.used] + rest, maxDepth) == Decode(s, maxDepth)
  {
    var x := SyntaxRead(s, maxDepth);
    ReadsSyntax(x, rest, maxDepth);
  }

  /** No proper prefix of an accepted text is accepted. */
  lemma NoAcceptedPrefix(s: View, maxDepth: int, k: nat)
    requires Decode(s, maxDepth).Ok? && k < Decode(s, maxDepth).value.used
    ensures Decode(s[..k], maxDepth).Err?
  {
    if Decode(s[..k], maxDepth).Ok? {
      var used := Decode(s[..k], maxDepth).value.used;
      assert s[..k][..used] + s[used..] == s;
      Local(s[..k], maxDepth, s[used..]);
    }
  }

  // ---------- exactness ----------

  /** The bytes are a text without leading zeros or minus zero, and with ascending keys throughout. */
  ghost predicate CanonicalBytes(b: seq<byte>) {
    exists x :: WellFormed(x) && Canonical(x) && Spell(x) == b
  }

  /** A canonical text is the tree of its meaning. */
  lemma {:induction false} CanonicalIsTree(x: Syntax)
    requires WellFormed(x) && Canonical(x)
    ensures Tree(Meaning(x)) == x
    decreases x, 1
  {
    match x
    case IntLit(negative, digits) =>
      CanonicalInt(negative, digits);
    case StrLit(t) =>
      PrintValue(t.digits);
    case ListLit(xs) =>
      CanonicalItemsAreTrees(xs);
    case DictLit(ms) =>
      CanonicalMembersAreTrees(ms);
      assert [] + MemberMeanings(ms) == MemberMeanings(ms);
      AssignAscending([], MemberMeanings(ms));
  }

  lemma CanonicalInt(negative: bool, digits: seq<byte>)
    requires WellFormed(IntLit(negative, digits)) && Canonical(IntLit(negative, digits))
    ensures Tree(Meaning(IntLit(negative, digits))) == IntLit(negative, digits)
  {
    PrintValue(digits);
    if digits[0] == ZERO {
      assert digits == [ZERO];
    } else {
      MinimalIsPositive(digits);
    }
  }

  lemma {:induction false} CanonicalItemsAreTrees(xs: seq<Syntax>)
    requires ItemsOk(xs) && CanonicalItems(xs)
    ensures TreeItems(ItemMeanings(xs)) == xs
    decreases xs, 0
  {
    hide Tree, WellFormed, Meaning, Canonical;
    if xs != [] {
      CanonicalIsTree(xs[0]);
      CanonicalItemsAreTrees(xs[1..]);
      assert xs == [xs[0]] + xs[1..];
      TreeItemsCons(Meaning(xs[0]), ItemMeanings(xs[1..]));
      hide TreeItems;
    }
  }

  lemma TreeItemsCons(v: BeValue, vs: seq<BeValue>)
    ensures TreeItems([v] + vs) == [Tree(v)] + TreeItems(vs)
  {
    hide Tree;
    assert ([v] + vs)[1..] == vs;
  }

  lemma {:induction false} CanonicalMembersAreTrees(ms: seq<Member>)
    requires MembersOk(ms) && CanonicalMembers(ms)
    ensures TreeMembers(MemberMeanings(ms)) == ms && Ascending(MemberMeanings(ms))
    decreases ms, 0
  {
    hide Tree, WellFormed, Meaning, Canonical, Less;
    if ms != [] {
      assert ms[0].value < ms[0];
      CanonicalIsTree(ms[0].value);
      CanonicalMembersAreTrees(ms[1..]);
      PrintValue(ms[0].key.digits);
      var es, later := MemberMeanings(ms), MemberMeanings(ms[1..]);
      assert es[1..] == later;
      assert ms == [ms[0]] + ms[1..];
      if |ms| > 1 {
        assert later[0].key == ms[1].key.payload;
      }
      AscendingFromFirst(es[0], later);
    }
  }

  lemma AscendingFromFirst(e: Entry, es: seq<Entry>)
    requires Ascending(es) && (es != [] ==> Less(e.key, es[0].key))
    ensures Ascending([e] + es)
  {
    forall x | x in es ensures Less(e.key, x.key) {
      var i :| 0 <= i < |es| && es[i] == x;
      if i > 0 {
        LessTransitive(e.key, es[0].key, x.key);
      }
    }
    AscendingCons(e, es);
  }

  /** What is read is an ordered value: its dictionaries are maps. */
  lemma {:induction false} MeaningOrdered(x: Syntax)
    requires WellFormed(x)
    ensures Ordered(Meaning(x))
    decreases x, 1
  {
    match x
    case IntLit(_, _) =>
    case StrLit(_) =>
    case ListLit(xs) => ItemsOrdered(xs);
    case DictLit(ms) =>
      MembersOrdered(ms);
      AssignAllKeepsOrder([], MemberMeanings(ms));
  }

  lemma {:induction false} ItemsOrdered(xs: seq<Syntax>)
    requires ItemsOk(xs)
    ensures forall v :: v in ItemMeanings(xs) ==> Ordered(v)
    decreases xs, 0
  {
    if xs != [] {
      MeaningOrdered(xs[0]);
      ItemsOrdered(xs[1..]);
    }
  }

  lemma {:induction false} MembersOrdered(ms: seq<Member>)
    requires MembersOk(ms)
    ensures forall e :: e in MemberMeanings(ms) ==> Ordered(e.value)
    decreases ms, 0
  {
    if ms != [] {
      assert ms[0].value < ms[0];
      MeaningOrdered(ms[0].value);
      MembersOrdered(ms[1..]);
    }
  }

  /** What an accepted text means prints as that text exactly when the text is canonical. */
  lemma SpellingExact(x: Syntax)
    requires WellFormed(x) && |Spell(x)| <= MAX_SIZE
    ensures Encode(Meaning(x)) == Spell(x) <==> CanonicalBytes(Spell(x))
  {
    var v := Meaning(x);
    MeaningOrdered(x);
    TreeSpells(v);
    TreeMeans(v);
    if CanonicalBytes(Spell(x)) {
      var y :| WellFormed(y) && Canonical(y) && Spell(y) == Spell(x);
      var m := Height(x) + Height(y);
      assert Spell(x) + [] == Spell(x);
      ReadsSyntax(x, [], m);
      ReadsSyntax(y, [], m);
      CanonicalIsTree(y);
    }
  }

  /**
   * Canonical exactness. Re-encoding what the reader accepted gives back exactly the bytes it used
   * if and only if these are canonical.
   */
  lemma CanonicalExact(s: View, maxDepth: int)
    requires Decode(s, maxDepth).Ok?
    ensures
      var d := Decode(s, maxDepth).value;
      Encode(d.result) == s[..d.used] <==> CanonicalBytes(s[..d.used])
  {
    var x := SyntaxRead(s, maxDepth);
    SpellingExact(x);
  }

  // ---------- normalising ----------

  lemma {:induction false} ValueBound(ds: seq<byte>)
    requires Numeral(ds)
    ensures |Print(Value(ds))| <= |ds|
  {
    if |ds| > 1 {
      var front := ds[..|ds| - 1];
      ValueBound(front);
      if 0 < Value(front) {
        PrintAppends(Value(front), ds[|ds| - 1]);
      }
    }
  }

  ghost function EntrySize(e: Entry): nat {
    |EncodeString(e.key)| + |Encode(e.value)|
  }

  lemma {:induction false} AssignSize(es: seq<Entry>, e: Entry)
    ensures |EncodeEntries(Assign(es, e))| <= |EncodeEntries(es)| + EntrySize(e)
    ensures EntriesNesting(Assign(es, e)) <=
      if Nesting(e.value) >= EntriesNesting(es) then Nesting(e.value) else EntriesNesting(es)
  {
    hide Encode, Nesting, Less, EncodeString;
    if es != [] {
      var later := es[1..];
      AssignSize(later, e);
      assert ([e] + later)[1..] == later && ([e] + es)[1..] == es;
      assert ([es[0]] + Assign(later, e))[1..] == Assign(later, e);
    }
  }

  lemma {:induction false} AssignAllSize(es: seq<Entry>, more: seq<Entry>)
    ensures |EncodeEntries(AssignAll(es, more))| <= |EncodeEntries(es)| + |EncodeEntries(more)|
    ensures EntriesNesting(AssignAll(es, more)) <=
      if EntriesNesting(more) >= EntriesNesting(es) then EntriesNesting(more) else EntriesNesting(es)
    decreases |more|
  {
    hide Encode, Nesting, Assign, EncodeString;
    if more != [] {
      AssignSize(es, more[0]);
      AssignAllSize(Assign(es, more[0]), more[1..]);
    }
  }

  /** A text is never shorter, nor less deep, than what its meaning prints as. */
  lemma {:induction false} MeaningSize(x: Syntax)
    requires WellFormed(x)
    ensures |Encode(Meaning(x))| <= |Spell(x)| && Nesting(Meaning(x)) <= Height(x)
    decreases x, 1
  {
    match x
    case IntLit(negative, digits) => ValueBound(digits);
    case StrLit(t) => ValueBound(t.digits);
    case ListLit(xs) => ItemsSize(xs);
    case DictLit(ms) =>
      MembersSize(ms);
      AssignAllSize([], MemberMeanings(ms));
  }

  lemma {:induction false} ItemsSize(xs: seq<Syntax>)
    requires ItemsOk(xs)
    ensures |EncodeItems(ItemMeanings(xs))| <= |SpellItems(xs)| && ItemsNesting(ItemMeanings(xs)) <= ItemsHeight(xs)
    decreases xs, 0
  {
    hide Encode, Spell, Meaning, WellFormed, Nesting, Height;
    if xs != [] {
      MeaningSize(xs[0]);
      ItemsSize(xs[1..]);
      assert ItemMeanings(xs)[1..] == ItemMeanings(xs[1..]);
    }
  }

  lemma {:induction false} MembersSize(ms: seq<Member>)
    requires MembersOk(ms)
    ensures |EncodeEntries(MemberMeanings(ms))| <= |SpellMembers(ms)|
    ensures EntriesNesting(MemberMeanings(ms)) <= MembersHeight(ms)
    decreases ms, 0
  {
    hide Encode, Spell, Meaning, WellFormed, Nesting, Height;
    if ms != [] {
      assert ms[0].value < ms[0];
      MeaningSize(ms[0].value);
      ValueBound(ms[0].key.digits);
      MembersSize(ms[1..]);
      assert MemberMeanings(ms)[1..] == MemberMeanings(ms[1..]);
    }
  }

  /** Normalising once is enough: the re-encoded value reads back as itself, under the same limit. */
  lemma NormalisingTwice(s: View, maxDepth: int)
    requires Decode(s, maxDepth).Ok?
    ensures
      var d := Decode(s, maxDepth).value;
      var b := Encode(d.result);
      |b| <= d.used && Decode(b, maxDepth) == Ok(Decoded(d.result, |b|))
  {
    var d := Decode(s, maxDepth).value;
    var x := SyntaxRead(s, maxDepth);
    MeaningSize(x);
    MeaningOrdered(x);
    RoundTrip(d.result, [], maxDepth);
    assert Encode(d.result) + [] == Encode(d.result);
  }

  // ---------- the value of a key, as the info hash uses it ----------

  lemma {:induction false} MemberMeaningAt(ms: seq<Member>, j: nat)
    requires MembersOk(ms) && j < |ms|
    ensures |MemberMeanings(ms)| == |ms| && WellFormed(ms[j].value)
    ensures MemberMeanings(ms)[j] == Entry(ms[j].key.payload, Meaning(ms[j].value))
  {
    hide WellFormed, Meaning;
    if j > 0 {
      MemberMeaningAt(ms[1..], j - 1);
    } else if |ms| > 1 {
      MemberMeaningAt(ms[1..], 0);
    }
  }

  lemma {:induction false} SpellMembersSplit(ms: seq<Member>, j: nat)
    requires j < |ms|
    ensures SpellMembers(ms) ==
      SpellMembers(ms[..j]) + (TextBytes(ms[j].key) + (Spell(ms[j].value) + SpellMembers(ms[j + 1..])))
  {
    hide Spell, TextBytes;
    if j > 0 {
      SpellMembersSplit(ms[1..], j - 1);
      assert ms[..j] == [ms[0]] + ms[1..][..j - 1];
      assert ms[1..][j..] == ms[j + 1..];
    }
  }

  /**
   * `b` is the text of a dictionary, and from `from` to `to` lies the value of the last of its
   * members with this key.
   */
  ghost predicate LastMemberAt(b: seq<byte>, from: nat, to: nat, key: seq<byte>) {
    exists ms, j :: LastMemberOf(b, ms, j, from, to, key)
  }

  ghost predicate LastMemberOf(b: seq<byte>, ms: seq<Member>, j: nat, from: nat, to: nat, key: seq<byte>) {
    && MembersOk(ms) && b == Spell(DictLit(ms))
    && j < |ms| && ms[j].key.payload == key
    && (forall i :: j < i < |ms| ==> ms[i].key.payload != key)
    && from == 1 + |SpellMembers(ms[..j])| + |TextBytes(ms[j].key)|
    && to == from + |Spell(ms[j].value)|
  }

  /** There is at most one such place, since a text can be read in one way only. */
  lemma LastMemberUnique(b: seq<byte>, from: nat, to: nat, from': nat, to': nat, key: seq<byte>)
    requires LastMemberAt(b, from, to, key) && LastMemberAt(b, from', to', key)
    ensures from == from' && to == to'
  {
    var ms, j :| LastMemberOf(b, ms, j, from, to, key);
    var ms', j' :| LastMemberOf(b, ms', j', from', to', key);
    hide Spell, SpellMembers, TextBytes;
    assert Spell(DictLit(ms)) + [] == Spell(DictLit(ms')) + [];
    SyntaxUnique(DictLit(ms), [], DictLit(ms'), []);
    assert j == j';
  }

  /**
   * The info hash is taken over the re-encoded value of a key. For every accepted dictionary, the last
   * member with the key has one place in the input, and the hashed bytes are those that lie there if
   * and only if these are canonical.
   */
  lemma HashedBytes(s: View, maxDepth: int, key: seq<byte>)
    requires Decode(s, maxDepth).Ok? && Decode(s, maxDepth).value.result.Dict?
    requires Lookup(Decode(s, maxDepth).value.result.entries, key).Some?
    ensures exists from: nat, to: nat :: LastMemberAt(s[..Decode(s, maxDepth).value.used], from, to, key)
    ensures
      var d := Decode(s, maxDepth).value;
      forall from: nat, to: nat :: LastMemberAt(s[..d.used], from, to, key) ==>
        && 0 <= from <= to <= d.used
        && (Encode(Lookup(d.result.entries, key).value) == s[from..to] <==> CanonicalBytes(s[from..to]))
  {
    hide Decode;
    var d := Decode(s, maxDepth).value;
    var x := SyntaxRead(s, maxDepth);
    MeaningIsDict(x);
    var j := LastMember(x.members, key);
    var from, to := MemberPlace(x.members, j, s, d.used);
    SpellingExact(x.members[j].value);
    assert Lookup(d.result.entries, key).value == Meaning(x.members[j].value);
    assert LastMemberOf(s[..d.used], x.members, j, from, to, key);
    assert LastMemberAt(s[..d.used], from, to, key);
    hide Spell, Encode, CanonicalBytes, LastMemberOf;
    forall from': nat, to': nat | LastMemberAt(s[..d.used], from', to', key) ensures from' == from && to' == to {
      LastMemberUnique(s[..d.used], from, to, from', to', key);
    }
  }

  lemma MemberPlace(ms: seq<Member>, j: nat, s: seq<byte>, used: nat) returns (from: nat, to: nat)
    requires MembersOk(ms) && j < |ms|
    requires used <= |s| && s[..used] == Spell(DictLit(ms))
    ensures from == 1 + |SpellMembers(ms[..j])| + |TextBytes(ms[j].key)|
    ensures to == from + |Spell(ms[j].value)|
    ensures from <= to <= used && s[from..to] == Spell(ms[j].value)
  {
    SpellMembersSplit(ms, j);
    hide SpellMembers, TextBytes;
    var before := [DICT_PREFIX] + SpellMembers(ms[..j]);
    var key, text := TextBytes(ms[j].key), Spell(ms[j].value);
    var after := SpellMembers(ms[j + 1..]) + [SUFFIX];
    from, to := |before| + |key|, |before| + |key| + |text|;
    Regroups([DICT_PREFIX], SpellMembers(ms[..j]), key, text, SpellMembers(ms[j + 1..]), [SUFFIX]);
    hide Spell;
    Placed(s, used, before, key, text, after);
  }

  lemma Regroups(a: seq<byte>, b: seq<byte>, c: seq<byte>, d: seq<byte>, e: seq<byte>, f: seq<byte>)
    ensures a + ((b + (c + (d + e))) + f) == (a + b) + (c + (d + (e + f)))
  {
  }

  lemma Placed(s: seq<byte>, used: nat, before: seq<byte>, key: seq<byte>, text: seq<byte>, after: seq<byte>)
    requires used <= |s| && s[..used] == before + (key + (text + after))
    ensures |before| + |key| + |text| <= used
    ensures s[|before| + |key|..|before| + |key| + |text|] == text
  {
    var from, to := |before| + |key|, |before| + |key| + |text|;
    var all := s[..used];
    assert all == (before + key) + text + after;
    assert all[from..to] == text;
    assert all[from..to] == s[from..to];
  }

  lemma MeaningIsDict(x: Syntax)
    requires WellFormed(x) && Meaning(x).Dict?
    ensures x.DictLit?
  {
  }

  lemma LastMember(ms: seq<Member>, key: seq<byte>) returns (j: nat)
    requires MembersOk(ms) && Lookup(AssignAll([], MemberMeanings(ms)), key).Some?
    ensures j < |ms| && ms[j].key.payload == key && WellFormed(ms[j].value)
    ensures forall i :: j < i < |ms| ==> ms[i].key.payload != key
    ensures Lookup(AssignAll([], MemberMeanings(ms)), key) == Some(Meaning(ms[j].value))
  {
    var es := MemberMeanings(ms);
    j := LastEntry(es, key);
    if |ms| > 0 {
      MemberMeaningAt(ms, 0);
    }
    MemberMeaningAt(ms, j);
    forall i | j < i < |ms| ensures ms[i].key.payload != key {
      MemberMeaningAt(ms, i);
    }
    LastAssignmentWins([], es, j);
  }

  lemma LastEntry(es: seq<Entry>, key: seq<byte>) returns (j: nat)
    requires Lookup(AssignAll([], es), key).Some?
    ensures j < |es| && es[j].key == key && forall i :: j < i < |es| ==> es[i].key != key
  {
    if forall i :: 0 <= i < |es| ==> es[i].key != key {
      OthersKeepKey([], es, key);
    }
    j := |es| - 1;
    while es[j].key != key
      invariant 0 <= j < |es|
      invariant exists i :: 0 <= i < |es| && es[i].key == key
      invariant forall i :: j < i < |es| ==> es[i].key != key
      decreases j
    {
      j := j - 1;
    }
  }
}
