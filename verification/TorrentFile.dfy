/** A torrent file's contents out of its bencoded form. */
module TorrentFile {
  import opened Bytes
  import opened TorrentContext
  import B = Bencode
  import T = BencodeTheorems

  datatype ParseError = MissingField | InvalidField

  datatype Parsed<+T> = Ok(value: T) | Err(error: ParseError)

  datatype FileItem = FileItem(path: seq<byte>, size: uint64, offset: uint64)

  /** Without the optional comment, creator, date and encoding. */
  datatype Torrent = Torrent(
    name: seq<byte>,
    infoHash: seq<byte>,
    files: seq<FileItem>,
    trackers: seq<seq<byte>>,
    pieceHashes: seq<seq<byte>>,
    fileLength: uint64,
    pieceLength: uint32)

  type Dict = seq<B.Entry>

  const SHA1_HASH_SIZE := 20

  function Ascii(text: string): seq<byte> {
    seq(|text|, i requires 0 <= i < |text| => text[i] as int % 0x100)
  }

  // ---------- fields ----------

  function Field(dict: Dict, name: string): Option<B.BeValue> {
    B.Lookup(dict, Ascii(name))
  }

  function StringField(dict: Dict, name: string): Parsed<seq<byte>> {
    match Field(dict, name)
    case None => Err(MissingField)
    case Some(v) => if v.Str? then Ok(v.s) else Err(InvalidField)
  }

  function IntField(dict: Dict, name: string): Parsed<int64> {
    match Field(dict, name)
    case None => Err(MissingField)
    case Some(v) => if v.Int? then Ok(v.n) else Err(InvalidField)
  }

  function ListField(dict: Dict, name: string): Parsed<seq<B.BeValue>> {
    match Field(dict, name)
    case None => Err(MissingField)
    case Some(v) => if v.List? then Ok(v.items) else Err(InvalidField)
  }

  function DictField(dict: Dict, name: string): Parsed<Dict> {
    match Field(dict, name)
    case None => Err(MissingField)
    case Some(v) => if v.Dict? then Ok(v.entries) else Err(InvalidField)
  }

  // ---------- trackers ----------

  function Strings(items: seq<B.BeValue>): Parsed<seq<seq<byte>>> {
    if items == [] then Ok([])
    else if !items[0].Str? then Err(InvalidField)
    else
      match Strings(items[1..])
      case Err(e) => Err(e)
      case Ok(rest) => Ok([items[0].s] + rest)
  }

  function TrackerLists(items: seq<B.BeValue>): Parsed<seq<seq<byte>>> {
    if items == [] then Ok([])
    else if !items[0].List? then Err(InvalidField)
    else
      match Strings(items[0].items)
      case Err(e) => Err(e)
      case Ok(first) =>
        match TrackerLists(items[1..])
        case Err(e) => Err(e)
        case Ok(rest) => Ok(first + rest)
  }

  /** A list of the wrong kind is ignored, a list with wrong contents is an error. */
  function Trackers(top: Dict): Parsed<seq<seq<byte>>> {
    match StringField(top, "announce")
    case Err(e) => Err(e)
    case Ok(announce) =>
      match ListField(top, "announce-list")
      case Err(_) => Ok([announce])
      case Ok(lists) =>
        match TrackerLists(lists)
        case Err(e) => Err(e)
        case Ok(more) => Ok([announce] + more)
  }

  /** A list of nothing but strings gives these strings, in order. */
  lemma {:induction false} StringsAre(items: seq<B.BeValue>)
    ensures Strings(items).Ok? <==> forall x :: x in items ==> x.Str?
    ensures Strings(items).Ok? ==>
      |Strings(items).value| == |items| && forall i :: 0 <= i < |items| ==> items[i] == B.Str(Strings(items).value[i])
    ensures Strings(items).Err? ==> Strings(items).error == InvalidField
  {
    if items != [] {
      StringsAre(items[1..]);
      assert items == [items[0]] + items[1..];
    }
  }

  /** The lists' own strings, one list after the other. */
  function Joined(lists: seq<seq<seq<byte>>>): seq<seq<byte>> {
    if lists == [] then [] else lists[0] + Joined(lists[1..])
  }

  ghost predicate ListOf(v: B.BeValue, strings: seq<seq<byte>>) {
    v.List? && |v.items| == |strings| && forall i :: 0 <= i < |strings| ==> v.items[i] == B.Str(strings[i])
  }

  lemma {:induction false} TrackerListsAre(items: seq<B.BeValue>) returns (lists: seq<seq<seq<byte>>>)
    ensures TrackerLists(items).Ok? <==>
      forall x :: x in items ==> x.List? && forall y :: y in x.items ==> y.Str?
    ensures TrackerLists(items).Ok? ==>
      && |lists| == |items| && (forall i :: 0 <= i < |items| ==> ListOf(items[i], lists[i]))
      && TrackerLists(items).value == Joined(lists)
    ensures TrackerLists(items).Err? ==> TrackerLists(items).error == InvalidField
  {
    lists := [];
    if items != [] {
      assert items == [items[0]] + items[1..];
      var rest := TrackerListsAre(items[1..]);
      if items[0].List? {
        StringsAre(items[0].items);
        if TrackerLists(items).Ok? {
          lists := [Strings(items[0].items).value] + rest;
          assert lists[1..] == rest;
        }
      }
    }
  }

  /**
   * The trackers are the announce string and then, if there is an announce list, the strings of its lists in
   * order. Anything else but a list of lists of strings there is an error; no list at all is none.
   */
  lemma TrackersAre(top: Dict) returns (lists: seq<seq<seq<byte>>>)
    ensures StringField(top, "announce").Err? ==> Trackers(top) == Err(StringField(top, "announce").error)
    ensures StringField(top, "announce").Ok? && ListField(top, "announce-list").Err? ==>
      Trackers(top) == Ok([StringField(top, "announce").value])
    ensures StringField(top, "announce").Ok? && ListField(top, "announce-list").Ok? ==>
      var items := ListField(top, "announce-list").value;
      && (Trackers(top).Ok? <==> forall x :: x in items ==> x.List? && forall y :: y in x.items ==> y.Str?)
      && (Trackers(top).Err? ==> Trackers(top).error == InvalidField)
      && (Trackers(top).Ok? ==>
            && |lists| == |items| && (forall i :: 0 <= i < |items| ==> ListOf(items[i], lists[i]))
            && Trackers(top).value == [StringField(top, "announce").value] + Joined(lists))
  {
    lists := [];
    if ListField(top, "announce-list").Ok? {
      lists := TrackerListsAre(ListField(top, "announce-list").value);
    }
  }

  // ---------- piece hashes ----------

  function Hashes(pieces: seq<byte>): Parsed<seq<seq<byte>>> {
    if pieces == [] then Ok([])
    else if SHA1_HASH_SIZE > |pieces| then Err(InvalidField)
    else
      match Hashes(pieces[SHA1_HASH_SIZE..])
      case Err(e) => Err(e)
      case Ok(rest) => Ok([pieces[..SHA1_HASH_SIZE]] + rest)
  }

  method ReadHashes(pieces: seq<byte>) returns (r: Parsed<seq<seq<byte>>>)
    ensures r == Hashes(pieces)
  {
    var hashes: seq<seq<byte>>, i := [], 0;
    assert pieces[0..] == pieces;
    if Hashes(pieces).Ok? {
      assert [] + Hashes(pieces).value == Hashes(pieces).value;
    }
    while i < |pieces|
      invariant i <= |pieces|
      invariant Hashes(pieces) ==
        match Hashes(pieces[i..]) case Err(e) => Err(e) case Ok(rest) => Ok(hashes + rest)
      decreases |pieces| - i
    {
      if i + SHA1_HASH_SIZE > |pieces| {
        return Err(InvalidField);
      }
      assert pieces[i..][SHA1_HASH_SIZE..] == pieces[i + SHA1_HASH_SIZE..];
      assert pieces[i..][..SHA1_HASH_SIZE] == pieces[i..i + SHA1_HASH_SIZE];
      ghost var rest := Hashes(pieces[i + SHA1_HASH_SIZE..]);
      if rest.Ok? {
        assert hashes + ([pieces[i..i + SHA1_HASH_SIZE]] + rest.value)
            == (hashes + [pieces[i..i + SHA1_HASH_SIZE]]) + rest.value;
      }
      hashes := hashes + [pieces[i..i + SHA1_HASH_SIZE]];
      i := i + SHA1_HASH_SIZE;
    }
    assert hashes + [] == hashes;
    r := Ok(hashes);
  }

  /** The hashes are 20 bytes each and together the whole string; a ragged string is refused. */
  lemma {:induction false} HashesPartition(pieces: seq<byte>)
    ensures Hashes(pieces).Ok? <==> |pieces| % SHA1_HASH_SIZE == 0
    ensures Hashes(pieces).Ok? ==>
      var hs := Hashes(pieces).value;
      Concat(hs) == pieces && |hs| * SHA1_HASH_SIZE == |pieces| && forall h :: h in hs ==> |h| == SHA1_HASH_SIZE
    ensures Hashes(pieces).Err? ==> Hashes(pieces).error == InvalidField
    decreases |pieces|
  {
    if SHA1_HASH_SIZE <= |pieces| {
      HashesPartition(pieces[SHA1_HASH_SIZE..]);
      if Hashes(pieces).Ok? {
        assert Hashes(pieces).value[1..] == Hashes(pieces[SHA1_HASH_SIZE..]).value;
        assert pieces == pieces[..SHA1_HASH_SIZE] + pieces[SHA1_HASH_SIZE..];
      }
    }
  }

  /** Hash `i` is the string's bytes from 20 * i on. */
  lemma {:induction false} HashAt(pieces: seq<byte>, i: nat)
    requires Hashes(pieces).Ok? && i < |Hashes(pieces).value|
    ensures SHA1_HASH_SIZE * i + SHA1_HASH_SIZE <= |pieces|
    ensures Hashes(pieces).value[i] == pieces[SHA1_HASH_SIZE * i..SHA1_HASH_SIZE * i + SHA1_HASH_SIZE]
  {
    if 0 < i {
      HashAt(pieces[SHA1_HASH_SIZE..], i - 1);
      var from := SHA1_HASH_SIZE * (i - 1);
      assert pieces[SHA1_HASH_SIZE..][from..from + SHA1_HASH_SIZE]
          == pieces[from + SHA1_HASH_SIZE..from + SHA1_HASH_SIZE + SHA1_HASH_SIZE];
    }
  }

  // ---------- files ----------

  datatype Layout = Layout(files: seq<FileItem>, total: uint64)

  function Path(parts: seq<B.BeValue>): Parsed<seq<byte>> {
    if parts == [] then Ok([])
    else if !parts[0].Str? then Err(InvalidField)
    else
      match Path(parts[1..])
      case Err(e) => Err(e)
      case Ok(rest) => Ok(Ascii("/") + parts[0].s + rest)
  }

  /** One entry of the file list, placed at `offset`; negative lengths become large ones. */
  function FileAt(entry: B.BeValue, offset: uint64): (r: Parsed<FileItem>)
    ensures r.Ok? ==> r.value.offset == offset
  {
    if !entry.Dict? then Err(InvalidField)
    else
      var length, path := IntField(entry.entries, "length"), ListField(entry.entries, "path");
      if length.Err? || path.Err? then Err(InvalidField)
      else
        match Path(path.value)
        case Err(e) => Err(e)
        case Ok(full) => Ok(FileItem(full, length.value % U64, offset))
  }

  /** Offsets and the total are running sums in 64 bits. */
  function Files(entries: seq<B.BeValue>, offset: uint64): Parsed<Layout> {
    if entries == [] then Ok(Layout([], offset))
    else
      match FileAt(entries[0], offset)
      case Err(e) => Err(e)
      case Ok(file) =>
        match Files(entries[1..], (offset + file.size) % U64)
        case Err(e) => Err(e)
        case Ok(rest) => Ok(Layout([file] + rest.files, rest.total))
  }

  method ReadFiles(entries: seq<B.BeValue>) returns (r: Parsed<Layout>)
    ensures r == Files(entries, 0)
  {
    var files: seq<FileItem>, offset: uint64, total: uint64, i := [], 0, 0, 0;
    if Files(entries, 0).Ok? {
      assert [] + Files(entries, 0).value.files == Files(entries, 0).value.files;
    }
    while i < |entries|
      invariant i <= |entries| && total == offset
      invariant Files(entries, 0) == AfterFiles(files, Files(entries[i..], offset))
    {
      assert entries[i..][0] == entries[i] && entries[i..][1..] == entries[i + 1..];
      var file := FileAt(entries[i], offset);
      if file.Err? {
        return Err(file.error);
      }
      ghost var rest := Files(entries[i + 1..], (offset + file.value.size) % U64);
      if rest.Ok? {
        assert files + ([file.value] + rest.value.files) == (files + [file.value]) + rest.value.files;
      }
      files := files + [file.value];
      offset := (offset + file.value.size) % U64;
      total := (total + file.value.size) % U64;
      i := i + 1;
    }
    assert files + [] == files;
    r := Ok(Layout(files, total));
  }

  ghost function AfterFiles(files: seq<FileItem>, r: Parsed<Layout>): Parsed<Layout> {
    match r
    case Err(e) => Err(e)
    case Ok(l) => Ok(Layout(files + l.files, l.total))
  }

  function LayoutOf(info: Dict, name: seq<byte>): Parsed<Layout> {
    if Field(info, "files").Some? then
      match ListField(info, "files")
      case Err(e) => Err(e)
      case Ok(entries) => Files(entries, 0)
    else if Field(info, "length").Some? then
      match IntField(info, "length")
      case Err(_) => Err(MissingField)
      case Ok(length) => Ok(Layout([FileItem(name, length % U64, 0)], length % U64))
    else Err(MissingField)
  }

  // ---------- the whole file ----------

  /** The fields of the info dictionary, all reported as missing when they are wrong. */
  function Load(v: B.BeValue, sha1: seq<byte> -> seq<byte>): Parsed<Torrent> {
    if !v.Dict? then Err(InvalidField)
    else
      match Trackers(v.entries)
      case Err(e) => Err(e)
      case Ok(trackers) =>
        match DictField(v.entries, "info")
        case Err(e) => Err(e)
        case Ok(info) => LoadInfo(info, trackers, sha1)
  }

  function LoadInfo(info: Dict, trackers: seq<seq<byte>>, sha1: seq<byte> -> seq<byte>): Parsed<Torrent> {
    var name, pieceLength := StringField(info, "name"), IntField(info, "piece length");
    var pieces := StringField(info, "pieces");
    if name.Err? || pieceLength.Err? || pieces.Err? then Err(MissingField)
    else
      match Hashes(pieces.value)
      case Err(e) => Err(e)
      case Ok(hashes) =>
        match LayoutOf(info, name.value)
        case Err(e) => Err(e)
        case Ok(layout) =>
          Ok(Torrent(name.value, sha1(B.Encode(B.Dict(info))), layout.files, trackers, hashes,
                     layout.total, pieceLength.value % U32))
  }

  method LoadTorrentFile(v: B.BeValue, sha1: seq<byte> -> seq<byte>) returns (r: Parsed<Torrent>)
    ensures r == Load(v, sha1)
  {
    if !v.Dict? {
      return Err(InvalidField);
    }
    var trackers := Trackers(v.entries);
    if trackers.Err? {
      return Err(trackers.error);
    }
    var info := DictField(v.entries, "info");
    if info.Err? {
      return Err(info.error);
    }
    var encodedInfo := B.EncodeValue(B.Dict(info.value));
    var name := StringField(info.value, "name");
    if name.Err? {
      return Err(MissingField);
    }
    var pieceLength := IntField(info.value, "piece length");
    if pieceLength.Err? {
      return Err(MissingField);
    }
    var pieces := StringField(info.value, "pieces");
    if pieces.Err? {
      return Err(MissingField);
    }
    var hashes := ReadHashes(pieces.value);
    if hashes.Err? {
      return Err(hashes.error);
    }
    var layout := ReadLayout(info.value, name.value);
    if layout.Err? {
      return Err(layout.error);
    }
    r := Ok(Torrent(name.value, sha1(encodedInfo), layout.value.files, trackers.value, hashes.value,
                    layout.value.total, pieceLength.value % U32));
  }

  method ReadLayout(info: Dict, name: seq<byte>) returns (r: Parsed<Layout>)
    ensures r == LayoutOf(info, name)
  {
    if Field(info, "files").Some? {
      var entries := ListField(info, "files");
      if entries.Err? {
        return Err(entries.error);
      }
      r := ReadFiles(entries.value);
    } else if Field(info, "length").Some? {
      var length := IntField(info, "length");
      if length.Err? {
        return Err(MissingField);
      }
      r := Ok(Layout([FileItem(name, length.value % U64, 0)], length.value % U64));
    } else {
      r := Err(MissingField);
    }
  }

  // ---------- which layouts are accepted ----------

  /** A dictionary with an integer length and a path of strings. */
  ghost predicate FileEntryOk(entry: B.BeValue) {
    && entry.Dict?
    && IntField(entry.entries, "length").Ok? && ListField(entry.entries, "path").Ok?
    && forall part :: part in ListField(entry.entries, "path").value ==> part.Str?
  }

  lemma {:induction false} PathAccepted(parts: seq<B.BeValue>)
    ensures Path(parts).Ok? <==> forall part :: part in parts ==> part.Str?
    ensures Path(parts).Err? ==> Path(parts).error == InvalidField
  {
    if parts != [] {
      PathAccepted(parts[1..]);
      assert parts == [parts[0]] + parts[1..];
    }
  }

  /** A file's path: a slash before each part. */
  function PathText(parts: seq<seq<byte>>): seq<byte> {
    if parts == [] then [] else [47] + parts[0] + PathText(parts[1..])
  }

  lemma {:induction false} PathIs(parts: seq<B.BeValue>, texts: seq<seq<byte>>)
    requires ListOf(B.List(parts), texts)
    ensures Path(parts) == Ok(PathText(texts))
  {
    if parts != [] {
      assert Ascii("/") == [47];
      PathIs(parts[1..], texts[1..]);
      assert [47] + parts[0].s + PathText(texts[1..]) == PathText(texts);
    }
  }

  /** A file's path in the layout is that of its entry's path parts. */
  lemma EntryPath(entry: B.BeValue, offset: uint64, texts: seq<seq<byte>>)
    requires FileEntryOk(entry) && ListOf(B.List(ListField(entry.entries, "path").value), texts)
    ensures FileAt(entry, offset).Ok? && FileAt(entry, offset).value.path == PathText(texts)
  {
    EntryAccepted(entry, offset);
    PathIs(ListField(entry.entries, "path").value, texts);
  }

  lemma EntryAccepted(entry: B.BeValue, offset: uint64)
    ensures FileAt(entry, offset).Ok? <==> FileEntryOk(entry)
    ensures FileAt(entry, offset).Err? ==> FileAt(entry, offset).error == InvalidField
    ensures FileEntryOk(entry) ==>
      FileAt(entry, offset).value.size == IntField(entry.entries, "length").value % U64
  {
    if entry.Dict? && ListField(entry.entries, "path").Ok? {
      PathAccepted(ListField(entry.entries, "path").value);
    }
  }

  lemma FilesNext(entries: seq<B.BeValue>, offset: uint64)
    requires entries != []
    ensures
      var first := FileAt(entries[0], offset);
      && (first.Err? ==> Files(entries, offset) == Err(first.error))
      && (first.Ok? ==>
            var rest := Files(entries[1..], (offset + first.value.size) % U64);
            && (rest.Err? ==> Files(entries, offset) == Err(rest.error))
            && (rest.Ok? ==>
                  Files(entries, offset) == Ok(Layout([first.value] + rest.value.files, rest.value.total))))
  {
    hide FileAt;
  }

  /** A file list is accepted whole or not at all. */
  lemma {:induction false} FilesAccepted(entries: seq<B.BeValue>, offset: uint64)
    ensures Files(entries, offset).Ok? <==> forall e :: e in entries ==> FileEntryOk(e)
    ensures Files(entries, offset).Err? ==> Files(entries, offset).error == InvalidField
    decreases |entries|
  {
    if entries != [] {
      EntryAccepted(entries[0], offset);
      assert entries == [entries[0]] + entries[1..];
      FilesNext(entries, offset);
      hide FileAt, Files, FileEntryOk;
      if FileAt(entries[0], offset).Ok? {
        FilesAccepted(entries[1..], (offset + FileAt(entries[0], offset).value.size) % U64);
      }
    }
  }

  /** It gives one file for each entry, with its size. */
  lemma {:induction false} FilesSized(entries: seq<B.BeValue>, offset: uint64)
    requires Files(entries, offset).Ok?
    ensures SizesOf(Files(entries, offset).value.files, entries)
    decreases |entries|
  {
    if entries != [] {
      var first := FileAt(entries[0], offset).value;
      EntryAccepted(entries[0], offset);
      FilesNext(entries, offset);
      assert SizeOf(first, entries[0]);
      hide FileAt, Files, FileEntryOk, SizeOf;
      FilesSized(entries[1..], (offset + first.size) % U64);
    }
  }

  ghost predicate SizesOf(files: seq<FileItem>, entries: seq<B.BeValue>) {
    && |files| == |entries|
    && forall i :: 0 <= i < |files| ==> SizeOf(files[i], entries[i])
  }

  ghost predicate SizeOf(file: FileItem, entry: B.BeValue) {
    entry.Dict? && IntField(entry.entries, "length").Ok? && file.size == IntField(entry.entries, "length").value % U64
  }

  /**
   * A file list that is there decides alone, also when it is wrong; without one a single length is
   * needed. Wrong lists are invalid fields, a missing or wrong length is a missing one.
   */
  lemma LayoutAccepted(info: Dict, name: seq<byte>)
    ensures Field(info, "files").Some? ==>
      var list := ListField(info, "files");
      && (LayoutOf(info, name).Ok? <==> list.Ok? && forall e :: e in list.value ==> FileEntryOk(e))
      && (LayoutOf(info, name).Err? ==> LayoutOf(info, name).error == InvalidField)
      && (LayoutOf(info, name).Ok? ==> SizesOf(LayoutOf(info, name).value.files, list.value))
    ensures Field(info, "files").None? ==>
      var length := IntField(info, "length");
      && (LayoutOf(info, name).Ok? <==> length.Ok?)
      && (LayoutOf(info, name).Err? ==> LayoutOf(info, name).error == MissingField)
      && (length.Ok? ==>
            LayoutOf(info, name) == Ok(Layout([FileItem(name, length.value % U64, 0)], length.value % U64)))
  {
    if Field(info, "files").Some? {
      if ListField(info, "files").Ok? {
        FilesAccepted(ListField(info, "files").value, 0);
        if LayoutOf(info, name).Ok? {
          FilesSized(ListField(info, "files").value, 0);
        }
      }
    }
  }

  // ---------- the layout tiles the torrent ----------

  function SizeBefore(files: seq<FileItem>, n: nat): nat
    requires n <= |files|
  {
    if n == 0 then 0 else SizeBefore(files, n - 1) + files[n - 1].size
  }

  lemma {:induction false} SizeBeforeCons(file: FileItem, rest: seq<FileItem>, n: nat)
    requires n <= |rest|
    ensures SizeBefore([file] + rest, n + 1) == file.size + SizeBefore(rest, n)
  {
    if n > 0 {
      SizeBeforeCons(file, rest, n - 1);
    }
  }

  lemma {:induction false} SizeBeforeGrows(files: seq<FileItem>, m: nat, n: nat)
    requires m <= n <= |files|
    ensures SizeBefore(files, m) <= SizeBefore(files, n)
    decreases n
  {
    if m < n {
      SizeBeforeGrows(files, m, n - 1);
    }
  }

  /** Where file `i` starts; the end of the last file for the index after it. */
  function Place(l: Layout, i: nat): uint64
    requires i <= |l.files|
  {
    if i < |l.files| then l.files[i].offset else l.total
  }

  /** Every offset is the sum of the sizes before it, modulo 2^64; so is the total. */
  lemma {:induction false} PlaceIsSum(entries: seq<B.BeValue>, offset: uint64, i: nat)
    requires Files(entries, offset).Ok? && i <= |Files(entries, offset).value.files|
    ensures
      var l := Files(entries, offset).value;
      Place(l, i) == (offset + SizeBefore(l.files, i)) % U64
    decreases |entries|
  {
    hide FileAt;
    if i > 0 {
      var file := FileAt(entries[0], offset).value;
      var next: uint64 := (offset + file.size) % U64;
      var l, rest := Files(entries, offset).value, Files(entries[1..], next).value;
      PlaceIsSum(entries[1..], next, i - 1);
      assert l.files == [file] + rest.files;
      SizeBeforeCons(file, rest.files, i - 1);
      ModInside(offset + file.size, SizeBefore(rest.files, i - 1));
      assert Place(l, i) == Place(rest, i - 1);
    } else {
      assert offset % U64 == offset;
    }
  }

  lemma ModInside(a: nat, b: nat)
    ensures (a % U64 + b) % U64 == (a + b) % U64
  {
  }

  /** Each file lies inside the torrent, and each byte of the torrent in exactly one file. */
  ghost predicate Tiles(l: Layout) {
    && (forall i :: 0 <= i < |l.files| ==> l.files[i].offset + l.files[i].size <= l.total)
    && (forall b :: 0 <= b < l.total ==> InSomeFile(l.files, b))
    && (forall b, i, j :: Contains(l.files, i, b) && Contains(l.files, j, b) ==> i == j)
  }

  ghost predicate Contains(files: seq<FileItem>, i: int, b: int) {
    0 <= i < |files| && files[i].offset <= b < files[i].offset + files[i].size
  }

  ghost predicate InSomeFile(files: seq<FileItem>, b: int) {
    exists i :: Contains(files, i, b)
  }

  /** The file list tiles the torrent if and only if its sizes, as 64-bit numbers, do not overflow in sum. */
  lemma FilesTileExactly(entries: seq<B.BeValue>)
    requires Files(entries, 0).Ok?
    ensures
      var l := Files(entries, 0).value;
      Tiles(l) <==> SizeBefore(l.files, |l.files|) < U64
  {
    hide Files;
    var l := Files(entries, 0).value;
    var n := |l.files|;
    if SizeBefore(l.files, n) < U64 {
      forall i | 0 <= i <= n ensures Place(l, i) == SizeBefore(l.files, i) {
        PlaceIsSum(entries, 0, i);
        SizeBeforeGrows(l.files, i, n);
      }
      ExactPlacesTile(l);
    } else {
      var k := FirstOverflow(l.files, n);
      PlaceIsSum(entries, 0, k);
      assert l.files[k].offset == SizeBefore(l.files, k);
    }
  }

  lemma {:induction false} FirstOverflow(files: seq<FileItem>, n: nat) returns (k: nat)
    requires n <= |files| && U64 <= SizeBefore(files, n)
    ensures k < n && SizeBefore(files, k) < U64 <= SizeBefore(files, k) + files[k].size
  {
    if SizeBefore(files, n - 1) < U64 {
      k := n - 1;
    } else {
      k := FirstOverflow(files, n - 1);
    }
  }

  lemma FileEnds(l: Layout, i: nat, j: nat)
    requires forall k :: 0 <= k <= |l.files| ==> Place(l, k) == SizeBefore(l.files, k)
    requires i < j <= |l.files|
    ensures l.files[i].offset + l.files[i].size <= Place(l, j)
  {
    assert Place(l, i) == SizeBefore(l.files, i);
    SizeBeforeGrows(l.files, i + 1, j);
  }

  lemma ExactPlacesTile(l: Layout)
    requires forall i :: 0 <= i <= |l.files| ==> Place(l, i) == SizeBefore(l.files, i)
    ensures Tiles(l)
  {
    forall i | 0 <= i < |l.files| ensures l.files[i].offset + l.files[i].size <= l.total {
      FileEnds(l, i, |l.files|);
    }
    forall b | 0 <= b < l.total ensures InSomeFile(l.files, b) {
      assert Place(l, |l.files|) == l.total;
      var i := FileOf(l.files, |l.files|, b);
      assert Place(l, i) == l.files[i].offset;
      assert Contains(l.files, i, b);
    }
    forall b, i, j | Contains(l.files, i, b) && Contains(l.files, j, b) ensures i == j {
      if i < j {
        FileEnds(l, i, j);
      } else if j < i {
        FileEnds(l, j, i);
      }
    }
  }

  lemma {:induction false} FileOf(files: seq<FileItem>, n: nat, b: nat) returns (i: nat)
    requires n <= |files| && b < SizeBefore(files, n)
    ensures i < n && SizeBefore(files, i) <= b < SizeBefore(files, i) + files[i].size
  {
    if SizeBefore(files, n - 1) <= b {
      i := n - 1;
    } else {
      i := FileOf(files, n - 1, b);
    }
  }

  // ---------- the info hash, and the download's context ----------

  /**
   * For every torrent file that decodes and loads: the info hash is taken over the re-encoded info
   * dictionary, which has one place in the file (its last one), and these bytes are those that lie there
   * if and only if these are canonical.
   */
  lemma InfoHashOfFile(s: B.View, maxDepth: int, sha1: seq<byte> -> seq<byte>)
    requires B.Decode(s, maxDepth).Ok? && Load(B.Decode(s, maxDepth).value.result, sha1).Ok?
    ensures
      var d := B.Decode(s, maxDepth).value;
      && d.result.Dict? && B.Lookup(d.result.entries, Ascii("info")).Some?
      && var hashed := B.Encode(B.Lookup(d.result.entries, Ascii("info")).value);
      && Load(d.result, sha1).value.infoHash == sha1(hashed)
      && (exists from: nat, to: nat :: T.LastMemberAt(s[..d.used], from, to, Ascii("info")))
      && forall from: nat, to: nat :: T.LastMemberAt(s[..d.used], from, to, Ascii("info")) ==>
           0 <= from <= to <= d.used && (hashed == s[from..to] <==> T.CanonicalBytes(s[from..to]))
  {
    T.HashedBytes(s, maxDepth, Ascii("info"));
  }

  lemma {:induction false} OneFileTiles(file: FileItem)
    requires file.offset == 0
    ensures Tiles(Layout([file], file.size)) && SizeBefore([file], 1) == file.size
  {
    assert SizeBefore([file], 0) == 0;
    forall b | 0 <= b < file.size ensures InSomeFile([file], b) {
      assert Contains([file], 0, b);
    }
  }

  lemma LayoutTiles(info: Dict, name: seq<byte>)
    requires LayoutOf(info, name).Ok?
    ensures
      var l := LayoutOf(info, name).value;
      Tiles(l) <==> SizeBefore(l.files, |l.files|) < U64
  {
    hide Tiles, Files;
    LayoutAccepted(info, name);
    if Field(info, "files").Some? {
      FilesTileExactly(ListField(info, "files").value);
    } else {
      OneFileTiles(LayoutOf(info, name).value.files[0]);
    }
  }

  /**
   * Each field of a loaded torrent comes from its own field of the file: trackers from the top, the rest from
   * the info dictionary. A length in 64 bits, the piece length in 32.
   */
  lemma LoadedParts(v: B.BeValue, sha1: seq<byte> -> seq<byte>)
    requires Load(v, sha1).Ok?
    ensures v.Dict? && DictField(v.entries, "info").Ok?
    ensures
      var t, info := Load(v, sha1).value, DictField(v.entries, "info").value;
      && Trackers(v.entries) == Ok(t.trackers)
      && StringField(info, "name") == Ok(t.name)
      && IntField(info, "piece length").Ok? && t.pieceLength == IntField(info, "piece length").value % U32
      && StringField(info, "pieces").Ok? && Hashes(StringField(info, "pieces").value) == Ok(t.pieceHashes)
      && LayoutOf(info, t.name) == Ok(Layout(t.files, t.fileLength))
      && t.infoHash == sha1(B.Encode(B.Dict(info)))
  {
    hide Hashes, LayoutOf, Trackers, Field;
  }

  /** Exactly these torrents load; a wrong name, piece length or hash string is reported as missing. */
  lemma LoadAccepted(v: B.BeValue, sha1: seq<byte> -> seq<byte>)
    ensures !v.Dict? ==> Load(v, sha1) == Err(InvalidField)
    ensures v.Dict? && Trackers(v.entries).Err? ==> Load(v, sha1) == Err(Trackers(v.entries).error)
    ensures v.Dict? && Trackers(v.entries).Ok? && DictField(v.entries, "info").Err? ==>
      Load(v, sha1) == Err(DictField(v.entries, "info").error)
    ensures v.Dict? && Trackers(v.entries).Ok? && DictField(v.entries, "info").Ok? ==>
      var info := DictField(v.entries, "info").value;
      var named :=
        StringField(info, "name").Ok? && IntField(info, "piece length").Ok? && StringField(info, "pieces").Ok?;
      && (!named ==> Load(v, sha1) == Err(MissingField))
      && (named && |StringField(info, "pieces").value| % SHA1_HASH_SIZE != 0 ==> Load(v, sha1) == Err(InvalidField))
      && (named && |StringField(info, "pieces").value| % SHA1_HASH_SIZE == 0 ==>
            var layout := LayoutOf(info, StringField(info, "name").value);
            (Load(v, sha1).Ok? <==> layout.Ok?) && (layout.Err? ==> Load(v, sha1) == Err(layout.error)))
  {
    if v.Dict? && DictField(v.entries, "info").Ok? && StringField(DictField(v.entries, "info").value, "pieces").Ok? {
      HashesPartition(StringField(DictField(v.entries, "info").value, "pieces").value);
    }
    hide Hashes, LayoutOf, Trackers, Field;
  }

  /**
   * A loaded torrent: its piece hashes are 20 bytes each and together the `pieces` string, and its
   * files tile it if and only if their sizes do not overflow 64 bits in sum. A single file always does.
   */
  lemma LoadedLayout(v: B.BeValue, sha1: seq<byte> -> seq<byte>)
    requires Load(v, sha1).Ok?
    ensures v.Dict? && DictField(v.entries, "info").Ok?
    ensures
      var t, info := Load(v, sha1).value, DictField(v.entries, "info").value;
      && (Tiles(Layout(t.files, t.fileLength)) <==> SizeBefore(t.files, |t.files|) < U64)
      && StringField(info, "pieces") == Ok(Concat(t.pieceHashes))
      && forall h :: h in t.pieceHashes ==> |h| == SHA1_HASH_SIZE
  {
    LoadedParts(v, sha1);
    var t, info := Load(v, sha1).value, DictField(v.entries, "info").value;
    HashesPartition(StringField(info, "pieces").value);
    LayoutTiles(info, t.name);
    hide Load, LayoutOf, Hashes, Tiles;
  }

  function ContextOf(t: Torrent, sha1: seq<byte> -> seq<byte>): Context {
    Context(t.fileLength, t.pieceLength, |t.pieceHashes| % U32, t.pieceHashes, sha1)
  }

  lemma HashCount(t: Torrent, sha1: seq<byte> -> seq<byte>, length: nat)
    requires t.pieceLength != 0 && |t.pieceHashes| * SHA1_HASH_SIZE == length
    ensures
      var ctx, needed := ContextOf(t, sha1), CeilDiv(t.fileLength, t.pieceLength);
      && ctx.Valid()
      && ctx.pieceCount == length / SHA1_HASH_SIZE % U32
      && (ctx.CoversFile() <==> length / SHA1_HASH_SIZE % U32 == needed)
      && (t.fileLength % t.pieceLength == 0 ==> ctx.PieceSize(needed) == 0)
  {
    assert length / SHA1_HASH_SIZE == |t.pieceHashes|;
    BeyondLast(ContextOf(t, sha1), CeilDiv(t.fileLength, t.pieceLength));
  }

  lemma HashesAre(pieces: seq<byte>, hashes: seq<seq<byte>>)
    requires Hashes(pieces) == Ok(hashes)
    ensures |hashes| * SHA1_HASH_SIZE == |pieces|
    ensures forall i :: 0 <= i < |hashes| ==>
      hashes[i] == pieces[SHA1_HASH_SIZE * i..SHA1_HASH_SIZE * i + SHA1_HASH_SIZE]
  {
    HashesPartition(pieces);
    forall i | 0 <= i < |hashes| ensures hashes[i] == pieces[SHA1_HASH_SIZE * i..SHA1_HASH_SIZE * i + SHA1_HASH_SIZE] {
      HashAt(pieces, i);
    }
  }

  /** The total length is the sum of the files' sizes in 64 bits. */
  lemma TotalIsSum(info: Dict, name: seq<byte>)
    requires LayoutOf(info, name).Ok?
    ensures
      var l := LayoutOf(info, name).value;
      l.total == SizeBefore(l.files, |l.files|) % U64
  {
    LayoutAccepted(info, name);
    if Field(info, "files").Some? {
      var entries := ListField(info, "files").value;
      PlaceIsSum(entries, 0, |Files(entries, 0).value.files|);
    } else {
      OneFileTiles(LayoutOf(info, name).value.files[0]);
      hide SizeBefore;
    }
  }

  /**
   * The context a torrent is downloaded in. The piece size is the torrent's `piece length` in 32 bits, the
   * file size the sum of its files' lengths in 64 bits, and hash `i` the bytes of `pieces` from 20 * i on.
   */
  lemma ContextFields(v: B.BeValue, sha1: seq<byte> -> seq<byte>)
    requires Load(v, sha1).Ok?
    ensures v.Dict? && DictField(v.entries, "info").Ok?
    ensures
      var t, info := Load(v, sha1).value, DictField(v.entries, "info").value;
      var ctx := ContextOf(t, sha1);
      && IntField(info, "piece length").Ok? && ctx.pieceSize == IntField(info, "piece length").value % U32
      && ctx.fileSize == SizeBefore(t.files, |t.files|) % U64
      && StringField(info, "pieces").Ok? && ctx.sha1 == sha1
      && var pieces := StringField(info, "pieces").value;
      && |ctx.pieceHashes| == |pieces| / SHA1_HASH_SIZE && ctx.pieceCount == |pieces| / SHA1_HASH_SIZE % U32
      && |pieces| % SHA1_HASH_SIZE == 0
      && forall i :: 0 <= i < |ctx.pieceHashes| ==>
           ctx.pieceHashes[i] == pieces[SHA1_HASH_SIZE * i..SHA1_HASH_SIZE * i + SHA1_HASH_SIZE]
  {
    LoadedParts(v, sha1);
    var t, info := Load(v, sha1).value, DictField(v.entries, "info").value;
    HashesAre(StringField(info, "pieces").value, t.pieceHashes);
    TotalIsSum(info, t.name);
    hide Load, LayoutOf, Hashes, Field, SizeBefore;
  }

  /**
   * A loaded torrent gives a context with a hash for every index unless its piece length is a multiple of
   * 2^32. Nothing compares the number of hashes with the lengths: the pieces cover the file exactly if and
   * only if the `pieces` string, 20 bytes to a hash and counted in 32 bits, has just the right length.
   * With a hash too many after a whole last piece, the extra piece is empty.
   */
  lemma LoadedContext(v: B.BeValue, sha1: seq<byte> -> seq<byte>)
    requires Load(v, sha1).Ok?
    ensures v.Dict? && DictField(v.entries, "info").Ok?
    ensures IntField(DictField(v.entries, "info").value, "piece length").Ok?
    ensures StringField(DictField(v.entries, "info").value, "pieces").Ok?
    ensures
      var t, info := Load(v, sha1).value, DictField(v.entries, "info").value;
      var ctx, pieces := ContextOf(t, sha1), StringField(info, "pieces").value;
      var pieceLength := IntField(info, "piece length").value % U32;
      && ctx.pieceSize == pieceLength && (ctx.Valid() <==> pieceLength != 0)
      && (pieceLength != 0 ==>
            var needed := CeilDiv(t.fileLength, pieceLength);
            && ctx.pieceCount == |pieces| / SHA1_HASH_SIZE % U32
            && (ctx.CoversFile() <==> |pieces| / SHA1_HASH_SIZE % U32 == needed)
            && (t.fileLength % pieceLength == 0 ==> ctx.PieceSize(needed) == 0))
  {
    LoadedParts(v, sha1);
    hide Load, LayoutOf, Hashes, Field;
    var t, pieces := Load(v, sha1).value, StringField(DictField(v.entries, "info").value, "pieces").value;
    HashesPartition(pieces);
    if t.pieceLength != 0 {
      HashCount(t, sha1, |pieces|);
    }
  }
}
