/** The bencode codec: values, the printer and the depth-limited reader. */
module Bencode {
  import opened Bytes
  import opened Decimal

  const INT_PREFIX: byte := 105
  const LIST_PREFIX: byte := 108
  const DICT_PREFIX: byte := 100
  const SUFFIX: byte := 101
  const STRING_LENGTH_DELIMITER: byte := 58
  const MINIMUM_BEVALUE_ENCODED_SIZE := 2

  const INT64_MIN := -0x8000_0000_0000_0000
  const INT64_MAX := 0x7fff_ffff_ffff_ffff

  /** No object is larger than this many bytes. */
  const MAX_SIZE := 0x7fff_ffff_ffff_ffff

  type View = s: seq<byte> | |s| <= MAX_SIZE

  /** A dictionary is an ordered map: its entries in ascending order of keys. */
  datatype BeValue =
    | Int(n: int64)
    | Str(s: seq<byte>)
    | Dict(entries: seq<Entry>)
    | List(items: seq<BeValue>)

  datatype Entry = Entry(key: seq<byte>, value: BeValue)

  // ---------- ordered maps ----------

  predicate Less(a: seq<byte>, b: seq<byte>)
    decreases |a|
  {
    b != [] && (a == [] || a[0] < b[0] || (a[0] == b[0] && Less(a[1..], b[1..])))
  }

  predicate Ascending(es: seq<Entry>) {
    forall i, j :: 0 <= i < j < |es| ==> Less(es[i].key, es[j].key)
  }

  /** `values[key] = value` */
  function Assign(es: seq<Entry>, e: Entry): seq<Entry> {
    if es == [] then [e]
    else if es[0].key == e.key then [e] + es[1..]
    else if Less(e.key, es[0].key) then [e] + es
    else [es[0]] + Assign(es[1..], e)
  }

  function AssignAll(es: seq<Entry>, more: seq<Entry>): seq<Entry>
    decreases |more|
  {
    if more == [] then es else AssignAll(Assign(es, more[0]), more[1..])
  }

  /** The value of a key, if the dictionary contains it. */
  function Lookup(es: seq<Entry>, key: seq<byte>): Option<BeValue> {
    if es == [] then None
    else if es[0].key == key then Some(es[0].value)
    else Lookup(es[1..], key)
  }

  /** Every dictionary inside is in order. */
  predicate Ordered(v: BeValue)
    decreases v
  {
    match v
    case Int(_) => true
    case Str(_) => true
    case Dict(es) => Ascending(es) && forall e :: e in es ==> Ordered(e.value)
    case List(vs) => forall x :: x in vs ==> Ordered(x)
  }

  // ---------- printing ----------

  function EncodeString(s: seq<byte>): seq<byte> {
    ToString(|s|) + [STRING_LENGTH_DELIMITER] + s
  }

  function Encode(v: BeValue): seq<byte>
    decreases v, 0
  {
    match v
    case Int(n) => [INT_PREFIX] + ToString(n) + [SUFFIX]
    case Str(s) => EncodeString(s)
    case Dict(es) => [DICT_PREFIX] + EncodeEntries(es) + [SUFFIX]
    case List(vs) => [LIST_PREFIX] + EncodeItems(vs) + [SUFFIX]
  }

  function EncodeItems(vs: seq<BeValue>): seq<byte>
    decreases vs, 0
  {
    if vs == [] then [] else Encode(vs[0]) + EncodeItems(vs[1..])
  }

  function EncodeEntries(es: seq<Entry>): seq<byte>
    decreases es, 0
  {
    if es == [] then [] else EncodeString(es[0].key) + Encode(es[0].value) + EncodeEntries(es[1..])
  }

  // ---------- reading ----------

  datatype Error = InvalidArgument | DepthReached | TooLong

  datatype Result<+T> = Ok(value: T) | Err(error: Error)

  datatype Decoded<+T> = Decoded(result: T, used: nat)

  /** The first index of `b`, or the length if there is none. */
  function Find(s: seq<byte>, b: byte): (i: nat)
    ensures i <= |s| && (i < |s| ==> s[i] == b) && forall j :: 0 <= j < i ==> s[j] != b
  {
    if s == [] then 0 else if s[0] == b then 0 else 1 + Find(s[1..], b)
  }

  function DecodeInt(s: View): (r: Result<Decoded<BeValue>>)
    requires s != [] && s[0] == INT_PREFIX
    ensures r.Ok? ==> 2 <= r.value.used <= |s|
  {
    var end := Find(s, SUFFIX);
    if end == |s| then Err(InvalidArgument)
    else
      match FromChars(s[1..end], true, INT64_MIN, INT64_MAX)
      case NoNumber => Err(InvalidArgument)
      case OutOfRange => Err(InvalidArgument)
      case Number(n, used) =>
        if used != end - 1 then Err(InvalidArgument)
        else
          assert INT64_MIN <= n <= INT64_MAX;
          Ok(Decoded(Int(n), end + 1))
  }

  /** The length check is done in 64-bit arithmetic; making a string of a wrapped length fails. */
  function DecodeString(s: View): (r: Result<Decoded<seq<byte>>>)
    ensures r.Ok? ==> 2 <= r.value.used <= |s|
  {
    var colon := Find(s, STRING_LENGTH_DELIMITER);
    if colon == |s| then Err(InvalidArgument)
    else
      match FromChars(s[..colon], false, 0, U64 - 1)
      case NoNumber => Err(InvalidArgument)
      case OutOfRange => Err(InvalidArgument)
      case Number(length, used) =>
        if used != colon then Err(InvalidArgument)
        else if (length + colon + 1) % U64 > |s| then Err(InvalidArgument)
        else if length > MAX_SIZE then Err(TooLong)
        else Ok(Decoded(s[colon + 1..][..length], colon + 1 + length))
  }

  function Decode(s: View, maxDepth: int): (r: Result<Decoded<BeValue>>)
    ensures r.Ok? ==> 2 <= r.value.used <= |s|
    decreases maxDepth, |s| + 1
  {
    if maxDepth < 1 then Err(DepthReached)
    else if |s| < MINIMUM_BEVALUE_ENCODED_SIZE then Err(InvalidArgument)
    else if s[0] == INT_PREFIX then DecodeInt(s)
    else if s[0] == DICT_PREFIX then
      match DecodeEntries(s, 1, maxDepth)
      case Err(e) => Err(e)
      case Ok(d) => Ok(Decoded(Dict(AssignAll([], d.result)), d.used))
    else if s[0] == LIST_PREFIX then
      match DecodeItems(s, 1, maxDepth)
      case Err(e) => Err(e)
      case Ok(d) => Ok(Decoded(List(d.result), d.used))
    else if IsDigit(s[0]) then
      match DecodeString(s)
      case Err(e) => Err(e)
      case Ok(d) => Ok(Decoded(Str(d.result), d.used))
    else Err(InvalidArgument)
  }

  /** The rest of a list from `index` on. */
  function DecodeItems(s: View, index: nat, maxDepth: int): (r: Result<Decoded<seq<BeValue>>>)
    requires index <= |s| && 1 <= maxDepth
    ensures r.Ok? ==> index < r.value.used <= |s|
    decreases maxDepth, |s| - index
  {
    if index == |s| then Err(InvalidArgument)
    else if s[index] == SUFFIX then Ok(Decoded([], index + 1))
    else
      match Decode(s[index..], maxDepth - 1)
      case Err(e) => Err(e)
      case Ok(d) =>
        match DecodeItems(s, index + d.used, maxDepth)
        case Err(e) => Err(e)
        case Ok(rest) => Ok(Decoded([d.result] + rest.result, rest.used))
  }

  /** The rest of a dictionary from `index` on, in the order of the input. */
  function DecodeEntries(s: View, index: nat, maxDepth: int): (r: Result<Decoded<seq<Entry>>>)
    requires index <= |s| && 1 <= maxDepth
    ensures r.Ok? ==> index < r.value.used <= |s|
    decreases maxDepth, |s| - index
  {
    if index == |s| then Err(InvalidArgument)
    else if s[index] == SUFFIX then Ok(Decoded([], index + 1))
    else
      match DecodeString(s[index..])
      case Err(e) => Err(e)
      case Ok(key) =>
        match Decode(s[index + key.used..], maxDepth - 1)
        case Err(e) => Err(e)
        case Ok(d) =>
          match DecodeEntries(s, index + key.used + d.used, maxDepth)
          case Err(e) => Err(e)
          case Ok(rest) => Ok(Decoded([Entry(key.result, d.result)] + rest.result, rest.used))
  }

  // ---------- the loops ----------

  method EncodeValue(v: BeValue) returns (out: seq<byte>)
    ensures out == Encode(v)
    decreases v, 0
  {
    match v
    case Int(n) => out := [INT_PREFIX] + ToString(n) + [SUFFIX];
    case Str(s) => out := EncodeString(s);
    case Dict(es) => out := EncodeDict(es);
    case List(vs) => out := EncodeList(vs);
  }

  method EncodeList(vs: seq<BeValue>) returns (stream: seq<byte>)
    ensures stream == [LIST_PREFIX] + EncodeItems(vs) + [SUFFIX]
    decreases vs, 1
  {
    stream := [LIST_PREFIX];
    var i := 0;
    while i < |vs|
      invariant i <= |vs| && stream + EncodeItems(vs[i..]) == [LIST_PREFIX] + EncodeItems(vs)
    {
      var item := EncodeValue(vs[i]);
      assert vs[i..][0] == vs[i] && vs[i..][1..] == vs[i + 1..];
      assert stream + (item + EncodeItems(vs[i + 1..])) == (stream + item) + EncodeItems(vs[i + 1..]);
      stream := stream + item;
      i := i + 1;
    }
    assert stream + EncodeItems(vs[i..]) == stream;
    stream := stream + [SUFFIX];
  }

  method EncodeDict(es: seq<Entry>) returns (stream: seq<byte>)
    ensures stream == [DICT_PREFIX] + EncodeEntries(es) + [SUFFIX]
    decreases es, 1
  {
    stream := [DICT_PREFIX];
    var i := 0;
    while i < |es|
      invariant i <= |es| && stream + EncodeEntries(es[i..]) == [DICT_PREFIX] + EncodeEntries(es)
    {
      var value := EncodeValue(es[i].value);
      var entry := EncodeString(es[i].key) + value;
      assert es[i..][0] == es[i] && es[i..][1..] == es[i + 1..];
      assert stream + (entry + EncodeEntries(es[i + 1..])) == (stream + entry) + EncodeEntries(es[i + 1..]);
      stream := stream + entry;
      i := i + 1;
    }
    assert stream + EncodeEntries(es[i..]) == stream;
    stream := stream + [SUFFIX];
  }

  method DecodeValue(s: View, maxDepth: int) returns (r: Result<Decoded<BeValue>>)
    ensures r == Decode(s, maxDepth)
    decreases maxDepth, 1
  {
    if maxDepth < 1 {
      return Err(DepthReached);
    }
    if |s| < MINIMUM_BEVALUE_ENCODED_SIZE {
      return Err(InvalidArgument);
    }
    if s[0] == INT_PREFIX {
      r := DecodeInt(s);
    } else if s[0] == DICT_PREFIX {
      r := DecodeDict(s, maxDepth);
    } else if s[0] == LIST_PREFIX {
      r := DecodeList(s, maxDepth);
    } else if IsDigit(s[0]) {
      var d := DecodeString(s);
      r := if d.Ok? then Ok(Decoded(Str(d.value.result), d.value.used)) else Err(d.error);
    } else {
      r := Err(InvalidArgument);
    }
  }

  ghost function Prepended(values: seq<BeValue>, r: Result<Decoded<seq<BeValue>>>): Result<Decoded<BeValue>> {
    match r
    case Err(e) => Err(e)
    case Ok(d) => Ok(Decoded(List(values + d.result), d.used))
  }

  ghost function AssignedTo(values: seq<Entry>, r: Result<Decoded<seq<Entry>>>): Result<Decoded<BeValue>> {
    match r
    case Err(e) => Err(e)
    case Ok(d) => Ok(Decoded(Dict(AssignAll(values, d.result)), d.used))
  }

  lemma NextItem(s: View, index: nat, maxDepth: int, values: seq<BeValue>, d: Decoded<BeValue>)
    requires index < |s| && s[index] != SUFFIX && 1 <= maxDepth && Decode(s[index..], maxDepth - 1) == Ok(d)
    ensures index + d.used <= |s|
    ensures
      Prepended(values, DecodeItems(s, index, maxDepth))
      == Prepended(values + [d.result], DecodeItems(s, index + d.used, maxDepth))
  {
    var rest := DecodeItems(s, index + d.used, maxDepth);
    if rest.Ok? {
      assert values + ([d.result] + rest.value.result) == (values + [d.result]) + rest.value.result;
    }
  }

  lemma NextEntry(s: View, index: nat, maxDepth: int, values: seq<Entry>, key: Decoded<seq<byte>>, d: Decoded<BeValue>)
    requires index < |s| && s[index] != SUFFIX && 1 <= maxDepth
    requires DecodeString(s[index..]) == Ok(key) && Decode(s[index + key.used..], maxDepth - 1) == Ok(d)
    ensures index + key.used + d.used <= |s|
    ensures
      AssignedTo(values, DecodeEntries(s, index, maxDepth))
      == AssignedTo(Assign(values, Entry(key.result, d.result)), DecodeEntries(s, index + key.used + d.used, maxDepth))
  {
    hide DecodeString, Decode;
    var rest := DecodeEntries(s, index + key.used + d.used, maxDepth);
    if rest.Ok? {
      assert ([Entry(key.result, d.result)] + rest.value.result)[1..] == rest.value.result;
    }
  }

  lemma ItemsStart(s: View, maxDepth: int)
    requires 2 <= |s| && s[0] == LIST_PREFIX && 1 <= maxDepth
    ensures Decode(s, maxDepth) == Prepended([], DecodeItems(s, 1, maxDepth))
  {
    hide DecodeItems;
    var r := DecodeItems(s, 1, maxDepth);
    if r.Ok? {
      assert [] + r.value.result == r.value.result;
    }
  }

  /** How the loop over a list can end. */
  lemma ItemsEnd(s: View, index: nat, maxDepth: int, values: seq<BeValue>)
    requires index <= |s| && 1 <= maxDepth
    ensures
      var r := Prepended(values, DecodeItems(s, index, maxDepth));
      && (index == |s| ==> r == Err(InvalidArgument))
      && (index < |s| && s[index] == SUFFIX ==> r == Ok(Decoded(List(values), index + 1)))
      && (index < |s| && s[index] != SUFFIX ==>
            var item := Decode(s[index..], maxDepth - 1);
            item.Err? ==> r == Err(item.error))
  {
    hide Decode;
    assert values + [] == values;
  }

  method DecodeList(s: View, maxDepth: int) returns (r: Result<Decoded<BeValue>>)
    requires 2 <= |s| && s[0] == LIST_PREFIX && 1 <= maxDepth
    ensures r == Decode(s, maxDepth)
    decreases maxDepth, 0
  {
    hide Decode, DecodeItems, Prepended;
    var values: seq<BeValue>, index := [], 1;
    ItemsStart(s, maxDepth);
    while index < |s| && s[index] != SUFFIX
      invariant 1 <= index <= |s|
      invariant Decode(s, maxDepth) == Prepended(values, DecodeItems(s, index, maxDepth))
    {
      ItemsEnd(s, index, maxDepth, values);
      var item := DecodeValue(s[index..], maxDepth - 1);
      if item.Err? {
        return Err(item.error);
      }
      NextItem(s, index, maxDepth, values, item.value);
      values := values + [item.value.result];
      index := index + item.value.used;
    }
    ItemsEnd(s, index, maxDepth, values);
    r := if index == |s| then Err(InvalidArgument) else Ok(Decoded(List(values), index + 1));
  }

  lemma EntriesStart(s: View, maxDepth: int)
    requires 2 <= |s| && s[0] == DICT_PREFIX && 1 <= maxDepth
    ensures Decode(s, maxDepth) == AssignedTo([], DecodeEntries(s, 1, maxDepth))
  {
    hide DecodeString, DecodeEntries, Assign, AssignAll;
  }

  /** How the loop over a dictionary can end. */
  lemma EntriesEnd(s: View, index: nat, maxDepth: int, values: seq<Entry>)
    requires index <= |s| && 1 <= maxDepth
    ensures
      var r := AssignedTo(values, DecodeEntries(s, index, maxDepth));
      && (index == |s| ==> r == Err(InvalidArgument))
      && (index < |s| && s[index] == SUFFIX ==> r == Ok(Decoded(Dict(values), index + 1)))
      && (index < |s| && s[index] != SUFFIX ==>
            var key := DecodeString(s[index..]);
            && (key.Err? ==> r == Err(key.error))
            && (key.Ok? ==>
                  var item := Decode(s[index + key.value.used..], maxDepth - 1);
                  item.Err? ==> r == Err(item.error)))
  {
    hide DecodeString, Decode;
  }

  method DecodeDict(s: View, maxDepth: int) returns (r: Result<Decoded<BeValue>>)
    requires 2 <= |s| && s[0] == DICT_PREFIX && 1 <= maxDepth
    ensures r == Decode(s, maxDepth)
    decreases maxDepth, 0
  {
    hide DecodeString, Decode, DecodeEntries, Assign, AssignAll, AssignedTo;
    var values: seq<Entry>, index := [], 1;
    EntriesStart(s, maxDepth);
    while index < |s| && s[index] != SUFFIX
      invariant 1 <= index <= |s|
      invariant Decode(s, maxDepth) == AssignedTo(values, DecodeEntries(s, index, maxDepth))
    {
      EntriesEnd(s, index, maxDepth, values);
      var key := DecodeString(s[index..]);
      if key.Err? {
        return Err(key.error);
      }
      var item := DecodeValue(s[index + key.value.used..], maxDepth - 1);
      if item.Err? {
        return Err(item.error);
      }
      NextEntry(s, index, maxDepth, values, key.value, item.value);
      values := Assign(values, Entry(key.value.result, item.value.result));
      index := index + key.value.used + item.value.used;
    }
    EntriesEnd(s, index, maxDepth, values);
    r := if index == |s| then Err(InvalidArgument) else Ok(Decoded(Dict(values), index + 1));
  }
}
