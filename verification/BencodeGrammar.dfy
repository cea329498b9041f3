/**
 * Bencoding as a grammar: what a text says, independent of how it is read. The reader accepts
 * exactly the grammar's texts (up to the depth limit), and the printer makes its canonical ones.
 */
module BencodeGrammar {
  import opened Bytes
  import opened Decimal
  import opened Bencode

  datatype Syntax =
    | IntLit(negative: bool, digits: seq<byte>)
    | StrLit(text: Text)
    | ListLit(items: seq<Syntax>)
    | DictLit(members: seq<Member>)

  datatype Text = Text(digits: seq<byte>, payload: seq<byte>)

  datatype Member = Member(key: Text, value: Syntax)

  // ---------- what a syntax tree looks like ----------

  function Sign(negative: bool): seq<byte> {
    if negative then [MINUS] else []
  }

  function TextBytes(t: Text): seq<byte> {
    t.digits + [STRING_LENGTH_DELIMITER] + t.payload
  }

  function Spell(x: Syntax): seq<byte>
    decreases x, 0
  {
    match x
    case IntLit(negative, digits) => [INT_PREFIX] + (Sign(negative) + digits) + [SUFFIX]
    case StrLit(t) => TextBytes(t)
    case ListLit(xs) => [LIST_PREFIX] + (SpellItems(xs) + [SUFFIX])
    case DictLit(ms) => [DICT_PREFIX] + (SpellMembers(ms) + [SUFFIX])
  }

  function SpellItems(xs: seq<Syntax>): seq<byte>
    decreases xs, 0
  {
    if xs == [] then [] else Spell(xs[0]) + SpellItems(xs[1..])
  }

  function SpellMembers(ms: seq<Member>): seq<byte>
    decreases ms, 0
  {
    if ms == [] then [] else
      assert ms[0].value < ms[0];
      TextBytes(ms[0].key) + (Spell(ms[0].value) + SpellMembers(ms[1..]))
  }

  // ---------- which trees are texts of the format, and what they mean ----------

  predicate TextOk(t: Text) {
    Numeral(t.digits) && Value(t.digits) == |t.payload|
  }

  function IntOf(negative: bool, digits: seq<byte>): int
    requires AllDigits(digits)
  {
    (if negative then -1 else 1) * Value(digits)
  }

  predicate WellFormed(x: Syntax)
    decreases x, 0
  {
    match x
    case IntLit(negative, digits) => Numeral(digits) && INT64_MIN <= IntOf(negative, digits) <= INT64_MAX
    case StrLit(t) => TextOk(t)
    case ListLit(xs) => ItemsOk(xs)
    case DictLit(ms) => MembersOk(ms)
  }

  predicate ItemsOk(xs: seq<Syntax>)
    decreases xs, 0
  {
    xs == [] || (WellFormed(xs[0]) && ItemsOk(xs[1..]))
  }

  predicate MembersOk(ms: seq<Member>)
    decreases ms, 0
  {
    ms == [] ||
    (assert ms[0].value < ms[0];
     TextOk(ms[0].key) && WellFormed(ms[0].value) && MembersOk(ms[1..]))
  }

  function Meaning(x: Syntax): BeValue
    requires WellFormed(x)
    decreases x, 0
  {
    match x
    case IntLit(negative, digits) =>
      assert INT64_MIN <= IntOf(negative, digits) <= INT64_MAX;
      Int(IntOf(negative, digits))
    case StrLit(t) => Str(t.payload)
    case ListLit(xs) => List(ItemMeanings(xs))
    case DictLit(ms) => Dict(AssignAll([], MemberMeanings(ms)))
  }

  function ItemMeanings(xs: seq<Syntax>): seq<BeValue>
    requires ItemsOk(xs)
    decreases xs, 0
  {
    if xs == [] then [] else [Meaning(xs[0])] + ItemMeanings(xs[1..])
  }

  function MemberMeanings(ms: seq<Member>): seq<Entry>
    requires MembersOk(ms)
    decreases ms, 0
  {
    if ms == [] then [] else
      assert ms[0].value < ms[0];
      [Entry(ms[0].key.payload, Meaning(ms[0].value))] + MemberMeanings(ms[1..])
  }

  /** Nesting depth: one for a number or a string. */
  function Height(x: Syntax): (h: nat)
    ensures 1 <= h
    decreases x, 0
  {
    match x
    case IntLit(_, _) => 1
    case StrLit(_) => 1
    case ListLit(xs) => 1 + ItemsHeight(xs)
    case DictLit(ms) => 1 + MembersHeight(ms)
  }

  function ItemsHeight(xs: seq<Syntax>): nat
    decreases xs, 0
  {
    if xs == [] then 0 else
      var first, rest := Height(xs[0]), ItemsHeight(xs[1..]);
      if first >= rest then first else rest
  }

  function MembersHeight(ms: seq<Member>): nat
    decreases ms, 0
  {
    if ms == [] then 0 else
      assert ms[0].value < ms[0];
      var first, rest := Height(ms[0].value), MembersHeight(ms[1..]);
      if first >= rest then first else rest
  }

  // ---------- canonical texts ----------

  predicate CanonicalText(t: Text) {
    t.digits != [] && Minimal(t.digits)
  }

  /** No leading zeros, no minus zero, keys strictly ascending, all the way down. */
  predicate Canonical(x: Syntax)
    decreases x, 0
  {
    match x
    case IntLit(negative, digits) => digits != [] && Minimal(digits) && !(negative && digits == [ZERO])
    case StrLit(t) => CanonicalText(t)
    case ListLit(xs) => CanonicalItems(xs)
    case DictLit(ms) => CanonicalMembers(ms)
  }

  predicate CanonicalItems(xs: seq<Syntax>)
    decreases xs, 0
  {
    xs == [] || (Canonical(xs[0]) && CanonicalItems(xs[1..]))
  }

  predicate CanonicalMembers(ms: seq<Member>)
    decreases ms, 0
  {
    ms == [] ||
    (assert ms[0].value < ms[0];
     && CanonicalText(ms[0].key) && Canonical(ms[0].value) && CanonicalMembers(ms[1..])
     && (|ms| > 1 ==> Less(ms[0].key.payload, ms[1].key.payload)))
  }

  // ---------- finding delimiters ----------

  lemma {:induction false} FindAfter(front: seq<byte>, b: byte, rest: seq<byte>)
    requires forall i :: 0 <= i < |front| ==> front[i] != b
    ensures Find(front + [b] + rest, b) == |front|
  {
    var s := front + [b] + rest;
    var i := Find(s, b);
    assert s[|front|] == b;
    assert forall j :: 0 <= j < |front| ==> s[j] == front[j];
  }

  /** The reader of strings accepts every length-prefixed text and stops at its end. */
  lemma ReadsText(t: Text, rest: seq<byte>)
    requires TextOk(t) && |TextBytes(t) + rest| <= MAX_SIZE
    ensures DecodeString(TextBytes(t) + rest) == Ok(Decoded(t.payload, |TextBytes(t)|))
  {
    var s := TextBytes(t) + rest;
    assert s == t.digits + [STRING_LENGTH_DELIMITER] + (t.payload + rest);
    FindAfter(t.digits, STRING_LENGTH_DELIMITER, t.payload + rest);
    assert s[..|t.digits|] == t.digits;
    assert t.digits[0..] == t.digits;
    ReadsWhole(t.digits, false, 0, U64 - 1, |t.payload|);
    assert s[|t.digits| + 1..][..|t.payload|] == t.payload;
  }

  lemma ReadsInt(negative: bool, digits: seq<byte>, rest: seq<byte>)
    requires WellFormed(IntLit(negative, digits)) && |Spell(IntLit(negative, digits)) + rest| <= MAX_SIZE
    ensures
      DecodeInt(Spell(IntLit(negative, digits)) + rest)
      == Ok(Decoded(Meaning(IntLit(negative, digits)), |Spell(IntLit(negative, digits))|))
  {
    var body := Sign(negative) + digits;
    var s := Spell(IntLit(negative, digits)) + rest;
    var front := [INT_PREFIX] + body;
    assert s == front + [SUFFIX] + rest;
    FindAfter(front, SUFFIX, rest);
    assert s[1..|front|] == body;
    SignedNumeral(negative, digits);
    ReadsWhole(body, true, INT64_MIN, INT64_MAX, IntOf(negative, digits));
  }

  lemma SignedNumeral(negative: bool, digits: seq<byte>)
    requires Numeral(digits)
    ensures
      var body := Sign(negative) + digits;
      var sign := if body[0] == MINUS then 1 else 0;
      (sign == 1 <==> negative) && body[sign..] == digits
  {
  }

  // ---------- completeness ----------

  lemma SpellStart(x: Syntax)
    requires WellFormed(x)
    ensures 2 <= |Spell(x)| && Spell(x)[0] != SUFFIX
    ensures x.IntLit? <==> Spell(x)[0] == INT_PREFIX
    ensures x.ListLit? <==> Spell(x)[0] == LIST_PREFIX
    ensures x.DictLit? <==> Spell(x)[0] == DICT_PREFIX
    ensures x.StrLit? <==> IsDigit(Spell(x)[0])
  {
    if x.StrLit? {
      assert Spell(x)[0] == x.text.digits[0];
    }
  }

  /** Going past the front part of what is left of the input. */
  lemma Advance(s: seq<byte>, index: nat, front: seq<byte>, more: seq<byte>)
    requires index <= |s| && s[index..] == front + more
    ensures index + |front| <= |s| && s[index + |front|..] == more
    ensures front != [] ==> s[index] == front[0]
  {
    assert s[index + |front|..] == s[index..][|front|..];
    if front != [] {
      assert s[index] == s[index..][0];
    }
  }

  ghost function Answer<T>(fits: bool, result: T, used: nat): Result<Decoded<T>> {
    if fits then Ok(Decoded(result, used)) else Err(DepthReached)
  }

  /**
   * Completeness. On every text of the grammar, whatever follows it, the reader gives the text's
   * meaning and length if the depth limit allows its height, and otherwise fails on depth.
   */
  lemma {:induction false} ReadsSyntax(x: Syntax, rest: seq<byte>, maxDepth: int)
    requires WellFormed(x) && |Spell(x) + rest| <= MAX_SIZE
    ensures Decode(Spell(x) + rest, maxDepth) == Answer(Height(x) <= maxDepth, Meaning(x), |Spell(x)|)
    decreases x, 1
  {
    hide DecodeInt, DecodeString, DecodeItems, DecodeEntries;
    hide SpellItems, SpellMembers, ItemMeanings, MemberMeanings, ItemsHeight, MembersHeight, AssignAll;
    var s := Spell(x) + rest;
    SpellStart(x);
    if 1 <= maxDepth {
      match x
      case IntLit(negative, digits) => ReadsInt(negative, digits, rest);
      case StrLit(t) => ReadsText(t, rest);
      case ListLit(xs) =>
        assert s[1..] == SpellItems(xs) + [SUFFIX] + rest;
        ReadsItems(xs, s, 1, rest, maxDepth);
      case DictLit(ms) =>
        assert s[1..] == SpellMembers(ms) + [SUFFIX] + rest;
        ReadsMembers(ms, s, 1, rest, maxDepth);
    }
  }

  lemma {:induction false} ReadsItems(xs: seq<Syntax>, s: View, index: nat, rest: seq<byte>, maxDepth: int)
    requires ItemsOk(xs) && 1 <= maxDepth && index <= |s| && s[index..] == SpellItems(xs) + [SUFFIX] + rest
    ensures
      DecodeItems(s, index, maxDepth)
      == Answer(ItemsHeight(xs) < maxDepth, ItemMeanings(xs), index + |SpellItems(xs)| + 1)
    decreases xs, 0
  {
    hide Decode, Spell, Meaning, Height, WellFormed;
    if xs == [] {
      assert s[index] == s[index..][0];
    } else {
      var x, more := xs[0], SpellItems(xs[1..]) + [SUFFIX] + rest;
      SpellStart(x);
      assert SpellItems(xs) + [SUFFIX] + rest == Spell(x) + more;
      Advance(s, index, Spell(x), more);
      ReadsSyntax(x, more, maxDepth - 1);
      if Height(x) < maxDepth {
        ReadsItems(xs[1..], s, index + |Spell(x)|, rest, maxDepth);
      }
    }
  }

  lemma MemberPlaces(key: Text, value: seq<byte>, s: View, index: nat, more: seq<byte>)
    requires TextOk(key) && index <= |s| && s[index..] == TextBytes(key) + (value + more)
    ensures index < |s| && s[index] != SUFFIX
    ensures DecodeString(s[index..]) == Ok(Decoded(key.payload, |TextBytes(key)|))
    ensures
      var middle := index + |TextBytes(key)|;
      && middle + |value| <= |s| && s[middle..] == value + more && s[middle + |value|..] == more
  {
    hide DecodeString;
    assert TextBytes(key)[0] == key.digits[0];
    Advance(s, index, TextBytes(key), value + more);
    ReadsText(key, value + more);
    Advance(s, index + |TextBytes(key)|, value, more);
  }

  lemma EntriesStop(s: View, index: nat, maxDepth: int)
    requires index < |s| && s[index] == SUFFIX && 1 <= maxDepth
    ensures DecodeEntries(s, index, maxDepth) == Ok(Decoded([], index + 1))
  {
  }

  lemma EntriesGoOn(s: View, index: nat, maxDepth: int, key: Decoded<seq<byte>>)
    requires index < |s| && s[index] != SUFFIX && 1 <= maxDepth && DecodeString(s[index..]) == Ok(key)
    ensures
      DecodeEntries(s, index, maxDepth) ==
        match Decode(s[index + key.used..], maxDepth - 1)
        case Err(e) => Err(e)
        case Ok(d) =>
          match DecodeEntries(s, index + key.used + d.used, maxDepth)
          case Err(e) => Err(e)
          case Ok(rest) => Ok(Decoded([Entry(key.result, d.result)] + rest.result, rest.used))
  {
    hide DecodeString, Decode;
  }

  lemma {:induction false} ReadsMembers(ms: seq<Member>, s: View, index: nat, rest: seq<byte>, maxDepth: int)
    requires MembersOk(ms) && 1 <= maxDepth && index <= |s| && s[index..] == SpellMembers(ms) + [SUFFIX] + rest
    ensures
      DecodeEntries(s, index, maxDepth)
      == Answer(MembersHeight(ms) < maxDepth, MemberMeanings(ms), index + |SpellMembers(ms)| + 1)
    decreases ms, 0
  {
    hide Decode, DecodeString, DecodeEntries, Spell, Meaning, Height, WellFormed, TextBytes;
    if ms == [] {
      assert s[index] == s[index..][0];
      EntriesStop(s, index, maxDepth);
    } else {
      var key, x := ms[0].key, ms[0].value;
      var more := SpellMembers(ms[1..]) + [SUFFIX] + rest;
      assert SpellMembers(ms) + [SUFFIX] + rest == TextBytes(key) + (Spell(x) + more);
      MemberPlaces(key, Spell(x), s, index, more);
      EntriesGoOn(s, index, maxDepth, Decoded(key.payload, |TextBytes(key)|));
      var middle := index + |TextBytes(key)|;
      assert x < ms[0];
      ReadsSyntax(x, more, maxDepth - 1);
      if Height(x) < maxDepth {
        ReadsMembers(ms[1..], s, middle + |Spell(x)|, rest, maxDepth);
      }
    }
  }

  // ---------- soundness ----------

  ghost predicate Describes(x: Syntax, s: seq<byte>, maxDepth: int, d: Decoded<BeValue>)
    requires d.used <= |s|
  {
    WellFormed(x) && Spell(x) == s[..d.used] && Meaning(x) == d.result && Height(x) <= maxDepth
  }

  lemma TextRead(s: View) returns (t: Text)
    requires DecodeString(s).Ok?
    ensures TextOk(t) && TextBytes(t) == s[..DecodeString(s).value.used] && t.payload == DecodeString(s).value.result
  {
    var colon := Find(s, STRING_LENGTH_DELIMITER);
    var length := |DecodeString(s).value.result|;
    t := Text(s[..colon], DecodeString(s).value.result);
    assert t.digits[0..] == t.digits;
    ReadsWhole(t.digits, false, 0, U64 - 1, length);
    assert TextBytes(t) == s[..colon + 1 + length];
  }

  lemma IntRead(s: View) returns (x: Syntax)
    requires s != [] && s[0] == INT_PREFIX && DecodeInt(s).Ok?
    ensures Describes(x, s, 1, DecodeInt(s).value)
  {
    hide DecodeInt, FromChars, Find, WellFormed, Meaning;
    var end, n := IntParts(s);
    x := IntSpelled(s[1..end], n);
    assert s[..end + 1] == [INT_PREFIX] + s[1..end] + [SUFFIX];
  }

  lemma IntParts(s: View) returns (end: nat, n: int64)
    requires s != [] && s[0] == INT_PREFIX && DecodeInt(s).Ok?
    ensures 1 <= end < |s| && s[end] == SUFFIX && DecodeInt(s).value == Decoded(Int(n), end + 1)
    ensures FromChars(s[1..end], true, INT64_MIN, INT64_MAX) == Number(n, end - 1)
  {
    hide FromChars;
    end := Find(s, SUFFIX);
    n := DecodeInt(s).value.result.n;
  }

  lemma IntSpelled(body: seq<byte>, n: int64) returns (x: Syntax)
    requires FromChars(body, true, INT64_MIN, INT64_MAX) == Number(n, |body|)
    ensures x.IntLit? && WellFormed(x) && Meaning(x) == Int(n) && Sign(x.negative) + x.digits == body
  {
    ReadsWhole(body, true, INT64_MIN, INT64_MAX, n);
    if body != [] && body[0] == MINUS {
      x := IntLit(true, body[1..]);
      assert [MINUS] + body[1..] == body;
    } else {
      x := IntLit(false, body);
      assert body[0..] == body && [] + body == body;
    }
  }

  /** Soundness. Whatever the reader accepts is a text of the grammar with that meaning, within the depth. */
  lemma {:induction false} SyntaxRead(s: View, maxDepth: int) returns (x: Syntax)
    requires Decode(s, maxDepth).Ok?
    ensures Describes(x, s, maxDepth, Decode(s, maxDepth).value)
    decreases maxDepth, |s| + 1
  {
    hide DecodeInt, DecodeString, DecodeItems, DecodeEntries;
    hide SpellItems, SpellMembers, ItemMeanings, MemberMeanings, ItemsHeight, MembersHeight, AssignAll;
    if s[0] == INT_PREFIX {
      x := IntRead(s);
    } else if s[0] == DICT_PREFIX {
      var ms := MembersRead(s, 1, maxDepth);
      x := DictLit(ms);
      var used := Decode(s, maxDepth).value.used;
      assert s[..used] == [DICT_PREFIX] + s[1..used];
    } else if s[0] == LIST_PREFIX {
      var xs := ItemsRead(s, 1, maxDepth);
      x := ListLit(xs);
      var used := Decode(s, maxDepth).value.used;
      assert s[..used] == [LIST_PREFIX] + s[1..used];
    } else {
      var t := TextRead(s);
      x := StrLit(t);
    }
  }

  lemma {:induction false} ItemsRead(s: View, index: nat, maxDepth: int) returns (xs: seq<Syntax>)
    requires index <= |s| && 1 <= maxDepth && DecodeItems(s, index, maxDepth).Ok?
    ensures
      var d := DecodeItems(s, index, maxDepth).value;
      && ItemsOk(xs) && SpellItems(xs) + [SUFFIX] == s[index..d.used]
      && ItemMeanings(xs) == d.result && ItemsHeight(xs) < maxDepth
    decreases maxDepth, |s| - index
  {
    hide Decode, Spell, Meaning, Height, WellFormed;
    if s[index] == SUFFIX {
      xs := [];
    } else {
      var d := Decode(s[index..], maxDepth - 1).value;
      var x := SyntaxRead(s[index..], maxDepth - 1);
      var rest := ItemsRead(s, index + d.used, maxDepth);
      xs := [x] + rest;
      var used := DecodeItems(s, index, maxDepth).value.used;
      assert s[index..used] == s[index..][..d.used] + s[index + d.used..used];
      assert Spell(x) + SpellItems(rest) + [SUFFIX] == Spell(x) + (SpellItems(rest) + [SUFFIX]);
    }
  }

  /** How an accepted dictionary goes on from an index. */
  lemma EntriesTaken(s: View, index: nat, maxDepth: int)
    requires index <= |s| && 1 <= maxDepth && DecodeEntries(s, index, maxDepth).Ok?
    ensures index < |s|
    ensures s[index] == SUFFIX ==> DecodeEntries(s, index, maxDepth).value == Decoded([], index + 1)
    ensures s[index] != SUFFIX ==>
      && DecodeString(s[index..]).Ok?
      && var middle := index + DecodeString(s[index..]).value.used;
      && Decode(s[middle..], maxDepth - 1).Ok?
      && var d := Decode(s[middle..], maxDepth - 1).value;
      && DecodeEntries(s, middle + d.used, maxDepth).Ok?
      && var rest := DecodeEntries(s, middle + d.used, maxDepth).value;
      DecodeEntries(s, index, maxDepth).value
      == Decoded([Entry(DecodeString(s[index..]).value.result, d.result)] + rest.result, rest.used)
  {
    hide Decode, DecodeString;
  }

  lemma Assembles(s: seq<byte>, index: nat, first: nat, second: nat, end: nat)
    requires index + first + second <= end <= |s|
    ensures
      var middle := index + first;
      s[index..end] == s[index..][..first] + (s[middle..][..second] + s[middle + second..end])
  {
  }

  lemma {:induction false} MembersRead(s: View, index: nat, maxDepth: int) returns (ms: seq<Member>)
    requires index <= |s| && 1 <= maxDepth && DecodeEntries(s, index, maxDepth).Ok?
    ensures
      var d := DecodeEntries(s, index, maxDepth).value;
      && MembersOk(ms) && SpellMembers(ms) + [SUFFIX] == s[index..d.used]
      && MemberMeanings(ms) == d.result && MembersHeight(ms) < maxDepth
    decreases maxDepth, |s| - index
  {
    hide Decode, DecodeString, DecodeEntries, Spell, Meaning, Height, WellFormed;
    EntriesTaken(s, index, maxDepth);
    if s[index] == SUFFIX {
      ms := [];
    } else {
      var k := DecodeString(s[index..]).value;
      var key := TextRead(s[index..]);
      var middle := index + k.used;
      var d := Decode(s[middle..], maxDepth - 1).value;
      var x := SyntaxRead(s[middle..], maxDepth - 1);
      var rest := MembersRead(s, middle + d.used, maxDepth);
      ms := [Member(key, x)] + rest;
      var used := DecodeEntries(s, index, maxDepth).value.used;
      Assembles(s, index, k.used, d.used, used);
      assert SpellMembers(ms) + [SUFFIX] == TextBytes(key) + (Spell(x) + (SpellMembers(rest) + [SUFFIX]));
    }
  }

  // ---------- one reading ----------

  /** What comes before the first occurrence of a byte, and after it, is determined. */
  lemma FirstSplit(a: seq<byte>, r: seq<byte>, b: seq<byte>, t: seq<byte>, mark: byte)
    requires a + [mark] + r == b + [mark] + t
    requires forall i :: 0 <= i < |a| ==> a[i] != mark
    requires forall i :: 0 <= i < |b| ==> b[i] != mark
    ensures a == b && r == t
  {
    FindAfter(a, mark, r);
    FindAfter(b, mark, t);
    var s := a + [mark] + r;
    assert a == s[..|a|] && b == s[..|b|];
    assert r == s[|a| + 1..] && t == s[|b| + 1..];
  }

  lemma FrontSplit(a: seq<byte>, r: seq<byte>, b: seq<byte>, t: seq<byte>)
    requires a + r == b + t && |a| == |b|
    ensures a == b && r == t
  {
    assert a == (a + r)[..|a|] && b == (b + t)[..|b|];
    assert r == (a + r)[|a|..] && t == (b + t)[|b|..];
  }

  lemma TextUnique(a: Text, r: seq<byte>, b: Text, t: seq<byte>)
    requires TextOk(a) && TextOk(b) && TextBytes(a) + r == TextBytes(b) + t
    ensures a == b && r == t
  {
    assert TextBytes(a) + r == a.digits + [STRING_LENGTH_DELIMITER] + (a.payload + r);
    assert TextBytes(b) + t == b.digits + [STRING_LENGTH_DELIMITER] + (b.payload + t);
    FirstSplit(a.digits, a.payload + r, b.digits, b.payload + t, STRING_LENGTH_DELIMITER);
    FrontSplit(a.payload, r, b.payload, t);
  }

  lemma IntUnique(a: Syntax, r: seq<byte>, b: Syntax, t: seq<byte>)
    requires a.IntLit? && b.IntLit? && WellFormed(a) && WellFormed(b) && Spell(a) + r == Spell(b) + t
    ensures a == b && r == t
  {
    var x, y := Sign(a.negative) + a.digits, Sign(b.negative) + b.digits;
    assert Spell(a) + r == ([INT_PREFIX] + x) + [SUFFIX] + r;
    assert Spell(b) + t == ([INT_PREFIX] + y) + [SUFFIX] + t;
    FirstSplit([INT_PREFIX] + x, r, [INT_PREFIX] + y, t, SUFFIX);
    FrontSplit([INT_PREFIX], x, [INT_PREFIX], y);
    SignedNumeral(a.negative, a.digits);
    SignedNumeral(b.negative, b.digits);
  }

  /** The format can be read in one way only: two texts that start alike are the same text. */
  lemma {:induction false} SyntaxUnique(x: Syntax, r: seq<byte>, y: Syntax, t: seq<byte>)
    requires WellFormed(x) && WellFormed(y) && Spell(x) + r == Spell(y) + t
    ensures x == y && r == t
    decreases x, 1
  {
    SpellStart(x);
    SpellStart(y);
    assert Spell(x)[0] == (Spell(x) + r)[0] && Spell(y)[0] == (Spell(y) + t)[0];
    match x
    case IntLit(_, _) => IntUnique(x, r, y, t);
    case StrLit(a) => TextUnique(a, r, y.text, t);
    case ListLit(xs) =>
      var a, b := SpellItems(xs) + [SUFFIX] + r, SpellItems(y.items) + [SUFFIX] + t;
      assert Spell(x) + r == [LIST_PREFIX] + a && Spell(y) + t == [LIST_PREFIX] + b;
      FrontSplit([LIST_PREFIX], a, [LIST_PREFIX], b);
      ItemsUnique(xs, r, y.items, t);
    case DictLit(ms) =>
      var a, b := SpellMembers(ms) + [SUFFIX] + r, SpellMembers(y.members) + [SUFFIX] + t;
      assert Spell(x) + r == [DICT_PREFIX] + a && Spell(y) + t == [DICT_PREFIX] + b;
      FrontSplit([DICT_PREFIX], a, [DICT_PREFIX], b);
      MembersUnique(ms, r, y.members, t);
  }

  lemma {:induction false} ItemsUnique(xs: seq<Syntax>, r: seq<byte>, ys: seq<Syntax>, t: seq<byte>)
    requires ItemsOk(xs) && ItemsOk(ys) && SpellItems(xs) + [SUFFIX] + r == SpellItems(ys) + [SUFFIX] + t
    ensures xs == ys && r == t
    decreases xs, 0
  {
    hide Spell, WellFormed;
    ItemsFirst(xs, r);
    ItemsFirst(ys, t);
    if xs != [] && ys != [] {
      var a, b := SpellItems(xs[1..]) + [SUFFIX] + r, SpellItems(ys[1..]) + [SUFFIX] + t;
      SyntaxUnique(xs[0], a, ys[0], b);
      ItemsUnique(xs[1..], r, ys[1..], t);
      assert xs == [xs[0]] + xs[1..] && ys == [ys[0]] + ys[1..];
    } else {
      FrontSplit([SUFFIX], r, [SUFFIX], t);
    }
  }

  /** A list's text goes on with its suffix exactly at its end. */
  lemma ItemsFirst(xs: seq<Syntax>, r: seq<byte>)
    requires ItemsOk(xs)
    ensures
      var s := SpellItems(xs) + [SUFFIX] + r;
      && s != [] && (s[0] == SUFFIX <==> xs == [])
      && (xs == [] ==> s == [SUFFIX] + r)
      && (xs != [] ==> s == Spell(xs[0]) + (SpellItems(xs[1..]) + [SUFFIX] + r))
  {
    if xs != [] {
      SpellStart(xs[0]);
    }
  }

  lemma {:induction false} MembersUnique(ms: seq<Member>, r: seq<byte>, ns: seq<Member>, t: seq<byte>)
    requires MembersOk(ms) && MembersOk(ns) && SpellMembers(ms) + [SUFFIX] + r == SpellMembers(ns) + [SUFFIX] + t
    ensures ms == ns && r == t
    decreases ms, 0
  {
    hide Spell, WellFormed, TextBytes;
    MembersFirst(ms, r);
    MembersFirst(ns, t);
    if ms != [] && ns != [] {
      var a, b := SpellMembers(ms[1..]) + [SUFFIX] + r, SpellMembers(ns[1..]) + [SUFFIX] + t;
      TextUnique(ms[0].key, Spell(ms[0].value) + a, ns[0].key, Spell(ns[0].value) + b);
      assert ms[0].value < ms[0];
      SyntaxUnique(ms[0].value, a, ns[0].value, b);
      MembersUnique(ms[1..], r, ns[1..], t);
      assert ms == [ms[0]] + ms[1..] && ns == [ns[0]] + ns[1..];
    } else {
      FrontSplit([SUFFIX], r, [SUFFIX], t);
    }
  }

  lemma MembersFirst(ms: seq<Member>, r: seq<byte>)
    requires MembersOk(ms)
    ensures
      var s := SpellMembers(ms) + [SUFFIX] + r;
      && s != [] && (s[0] == SUFFIX <==> ms == [])
      && (ms == [] ==> s == [SUFFIX] + r)
      && (ms != [] ==>
            s == TextBytes(ms[0].key) + (Spell(ms[0].value) + (SpellMembers(ms[1..]) + [SUFFIX] + r)))
  {
    if ms != [] {
      assert TextBytes(ms[0].key)[0] == ms[0].key.digits[0];
    }
  }
}
