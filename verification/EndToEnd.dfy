/** From the swarm to the output file. */
module EndToEnd {
  import opened Bytes
  import opened TorrentContext
  import opened Storage
  import Download
  import Swarm
  import SwarmProofs
  import SwarmTheorems
  import Runs = DownloadProofs
  import B = Bencode
  import TorrentFile

  /** The pieces of a file. */
  ghost function Cut(ctx: Context, file: seq<byte>): (pieces: seq<seq<byte>>)
    requires Runs.Setting(ctx, Download.DEFAULT_POLICY) && ctx.CoversFile() && |file| == ctx.fileSize
    ensures Runs.PiecesOf(ctx, pieces)
  {
    seq(ctx.pieceCount, p requires 0 <= p < ctx.pieceCount => PieceOf(ctx, file, p))
  }

  ghost function PieceOf(ctx: Context, file: seq<byte>, p: nat): (piece: seq<byte>)
    requires ctx.CoversFile() && |file| == ctx.fileSize && p < ctx.pieceCount
    ensures |piece| == ctx.PieceSize(p)
  {
    PieceRange(ctx, p);
    file[p * ctx.pieceSize..p * ctx.pieceSize + ctx.PieceSize(p)]
  }

  ghost predicate HoldsPieces(ctx: Context, file: seq<byte>, files: map<nat, seq<byte>>)
    requires ctx.CoversFile() && |file| == ctx.fileSize
  {
    forall p :: 0 <= p < ctx.pieceCount ==> p in files && files[p] == PieceOf(ctx, file, p)
  }

  lemma ByteIndex(ctx: Context, i: nat)
    requires ctx.CoversFile() && i < ctx.fileSize
    ensures i / ctx.pieceSize < ctx.pieceCount
    ensures i / ctx.pieceSize * ctx.pieceSize + i % ctx.pieceSize == i
  {
    CountCovers(ctx);
    QuotientLess(i, ctx.pieceCount, ctx.pieceSize);
    QuotientAndRemainder(i, ctx.pieceSize);
  }

  lemma ByteInPiece(ctx: Context, file: seq<byte>, p: nat, k: nat)
    requires ctx.CoversFile() && |file| == ctx.fileSize && p < ctx.pieceCount && k < ctx.PieceSize(p)
    ensures p * ctx.pieceSize + k < |file| && PieceOf(ctx, file, p)[k] == file[p * ctx.pieceSize + k]
  {
    PieceRange(ctx, p);
  }

  /** A vault that holds the pieces of a file joins to that file. */
  lemma JoinedIsFile(ctx: Context, file: seq<byte>, files: map<nat, seq<byte>>)
    requires ctx.CoversFile() && |file| == ctx.fileSize && HoldsPieces(ctx, file, files)
    ensures Stocked(ctx, files)
    ensures Joined(ctx, files, ctx.pieceCount) == file
  {
    MergeIsFile(ctx, files);
    var out := Joined(ctx, files, ctx.pieceCount);
    forall i | 0 <= i < ctx.fileSize ensures out[i] == file[i] {
      assert ByteOfPiece(ctx, files, i, out[i]);
      ByteIndex(ctx, i);
      ByteInPiece(ctx, file, i / ctx.pieceSize, i % ctx.pieceSize);
    }
  }

  /** The torrent describes the file, and the pieces found in the vault at the start are the file's. */
  ghost predicate Describes(ctx: Context, file: seq<byte>, vault: map<nat, seq<byte>>) {
    && Runs.Setting(ctx, Download.DEFAULT_POLICY) && ctx.CoversFile() && |file| == ctx.fileSize
    && (forall p :: 0 <= p < ctx.pieceCount ==> ctx.sha1(PieceOf(ctx, file, p)) == ctx.pieceHashes[p])
    && (forall p :: p in vault && p < ctx.pieceCount ==> vault[p] == PieceOf(ctx, file, p))
  }

  /** The stored piece is not the file's, although it has the same size and the same hash. */
  ghost predicate Forged(ctx: Context, file: seq<byte>, files: map<nat, seq<byte>>, p: nat)
    requires ctx.CoversFile() && |file| == ctx.fileSize && p < ctx.pieceCount
  {
    && p in files && files[p] != PieceOf(ctx, file, p)
    && |files[p]| == ctx.PieceSize(p) && ctx.sha1(files[p]) == ctx.sha1(PieceOf(ctx, file, p))
  }

  ghost predicate AnyForged(ctx: Context, file: seq<byte>, files: map<nat, seq<byte>>)
    requires ctx.CoversFile() && |file| == ctx.fileSize
  {
    exists p: nat :: p < ctx.pieceCount && Forged(ctx, file, files, p)
  }

  /** What the vault holds at the end of a run whose last `is_done` answered true. */
  lemma FinalVault(
    env: Runs.Environment, ctx: Context, file: seq<byte>, vault: map<nat, seq<byte>>,
    events: seq<SwarmProofs.Event>, t: Swarm.State, p: nat)
    requires Describes(ctx, file, vault) && SwarmProofs.HashesMatch(env, ctx)
    requires SwarmTheorems.Reaches(env, ctx, Download.DEFAULT_POLICY, Swarm.Initial(ctx, vault), events, t)
    requires t.missing == {}
    ensures p in t.vault <==> p < ctx.pieceCount || p in vault
    ensures p < ctx.pieceCount ==>
      || t.vault[p] == PieceOf(ctx, file, p)
      || (|t.vault[p]| == ctx.PieceSize(p) && ctx.sha1(t.vault[p]) == ctx.pieceHashes[p])
    ensures p < ctx.pieceCount && env.Authentic? && t.vault[p] != PieceOf(ctx, file, p) ==>
      p < |env.pieces| && t.vault[p] == env.pieces[p]
  {
    SwarmTheorems.Reachable(env, ctx, Download.DEFAULT_POLICY, vault, events, t);
    SwarmTheorems.MissingNothing(ctx, t);
    if p in t.vault && p !in vault {
      assert SwarmProofs.GoodPiece(env, ctx, p, t.vault[p]);
    }
  }

  /** Cutting what was joined gives the stored pieces back. */
  lemma PieceOfJoined(ctx: Context, files: map<nat, seq<byte>>, p: nat)
    requires Stocked(ctx, files) && p < ctx.pieceCount
    ensures |Joined(ctx, files, ctx.pieceCount)| == ctx.fileSize
    ensures PieceOf(ctx, Joined(ctx, files, ctx.pieceCount), p) == files[p]
  {
    MergeIsFile(ctx, files);
    var out := Joined(ctx, files, ctx.pieceCount);
    forall k | 0 <= k < ctx.PieceSize(p) ensures PieceOf(ctx, out, p)[k] == files[p][k] {
      ByteInPiece(ctx, out, p, k);
      PieceRange(ctx, p);
      var i := p * ctx.pieceSize + k;
      QuotientIs(i, p, ctx.pieceSize);
      assert ByteOfPiece(ctx, files, i, out[i]);
    }
  }

  /** With every stored piece the file's or forged, the joined pieces go wrong only where one is forged. */
  lemma JoinedOrForged(ctx: Context, file: seq<byte>, files: map<nat, seq<byte>>)
    requires Stocked(ctx, files) && |file| == ctx.fileSize
    requires forall p: nat :: p < ctx.pieceCount ==> files[p] == PieceOf(ctx, file, p) || Forged(ctx, file, files, p)
    ensures
      var out := Joined(ctx, files, ctx.pieceCount);
      && |out| == ctx.fileSize
      && (forall p: nat :: p < ctx.pieceCount ==>
            (PieceOf(ctx, out, p) == PieceOf(ctx, file, p) <==> !Forged(ctx, file, files, p)))
      && (out == file <==> !AnyForged(ctx, file, files))
  {
    var out := Joined(ctx, files, ctx.pieceCount);
    MergeIsFile(ctx, files);
    forall p: nat | p < ctx.pieceCount
      ensures PieceOf(ctx, out, p) == PieceOf(ctx, file, p) <==> !Forged(ctx, file, files, p)
    {
      PieceOfJoined(ctx, files, p);
    }
    if !AnyForged(ctx, file, files) {
      JoinedIsFile(ctx, file, files);
    }
  }

  // ---------- how much a finished run writes ----------

  /** The pieces found in the vault at the start have their sizes; files past the last index may be any. */
  ghost predicate Sized(ctx: Context, vault: map<nat, seq<byte>>)
    requires 0 < ctx.pieceSize
  {
    forall p :: p in vault && p < ctx.pieceCount ==> |vault[p]| == ctx.PieceSize(p)
  }

  lemma FinalFiles(
    ctx: Context, vault: map<nat, seq<byte>>, events: seq<SwarmProofs.Event>, t: Swarm.State, p: nat)
    requires Runs.Setting(ctx, Download.DEFAULT_POLICY) && Sized(ctx, vault) && t.missing == {}
    requires SwarmTheorems.Reaches(Runs.InBounds, ctx, Download.DEFAULT_POLICY, Swarm.Initial(ctx, vault), events, t)
    ensures p < ctx.pieceCount ==> p in t.vault && |t.vault[p]| == ctx.PieceSize(p)
    ensures ctx.pieceCount <= p ==> (p in t.vault <==> p in vault) && (p in vault ==> t.vault[p] == vault[p])
  {
    SwarmTheorems.Reachable(Runs.InBounds, ctx, Download.DEFAULT_POLICY, vault, events, t);
    SwarmTheorems.MissingNothing(ctx, t);
    if p in t.vault && p !in vault {
      assert SwarmProofs.GoodPiece(Runs.InBounds, ctx, p, t.vault[p]);
    }
  }

  /** Where the merge stops, from the files found past the last index at the start. */
  ghost predicate StopsAt(ctx: Context, vault: map<nat, seq<byte>>, count: nat, completed: bool)
    requires 0 < ctx.pieceSize
  {
    && ctx.pieceCount <= count
    && (forall i :: ctx.pieceCount <= i < count ==> i in vault && ctx.PieceSize(i) <= |vault[i]|)
    && (completed <==> count !in vault)
    && (!completed ==> |vault[count]| < ctx.PieceSize(count))
  }

  lemma MergeStopsAt(
    ctx: Context, vault: map<nat, seq<byte>>, events: seq<SwarmProofs.Event>, t: Swarm.State,
    count: nat, completed: bool)
    requires Runs.Setting(ctx, Download.DEFAULT_POLICY) && Sized(ctx, vault) && t.missing == {}
    requires SwarmTheorems.Reaches(Runs.InBounds, ctx, Download.DEFAULT_POLICY, Swarm.Initial(ctx, vault), events, t)
    requires forall i :: 0 <= i < count ==> i in t.vault && ctx.PieceSize(i) <= |t.vault[i]|
    requires completed ==> count !in t.vault
    requires !completed ==> count in t.vault && |t.vault[count]| < ctx.PieceSize(count)
    ensures StopsAt(ctx, vault, count, completed)
  {
    hide SwarmTheorems.Reaches;
    forall i: nat
      ensures i < ctx.pieceCount ==> i in t.vault && |t.vault[i]| == ctx.PieceSize(i)
      ensures ctx.pieceCount <= i ==> (i in t.vault <==> i in vault) && (i in vault ==> t.vault[i] == vault[i])
    {
      FinalFiles(ctx, vault, events, t, i);
    }
  }

  /**
   * However many hashes the torrent has and whatever in-bounds blocks come: if a run ends with `is_done`
   * true, the merge writes the pieces over the output, up to the first index past the last that it finds
   * no file or too short a one for. It writes as many bytes as the file has if and only if it joins as
   * many pieces as the file needs, or more of them after a whole last one.
   */
  method MergeAnyRun(
    ctx: Context, ghost vault: map<nat, seq<byte>>, ghost events: seq<SwarmProofs.Event>, ghost t: Swarm.State,
    stored: Vault, existing: seq<byte>, ghost last: uint32)
    returns (output: seq<byte>, count: nat, completed: bool)
    requires Runs.Setting(ctx, Download.DEFAULT_POLICY) && Sized(ctx, vault)
    requires SwarmTheorems.Reaches(Runs.InBounds, ctx, Download.DEFAULT_POLICY, Swarm.Initial(ctx, vault), events, t)
    requires t.missing == {} && stored.files == t.vault && ctx.pieceCount <= last && last !in vault
    ensures StopsAt(ctx, vault, count, completed)
    ensures forall i :: 0 <= i < count ==> i in t.vault && ctx.PieceSize(i) <= |t.vault[i]|
    ensures output == WrittenOver(existing, Joined(ctx, t.vault, count))
    ensures
      var needed := CeilDiv(ctx.fileSize, ctx.pieceSize);
      |Joined(ctx, t.vault, count)| == ctx.fileSize <==>
        count == needed || (needed <= count && ctx.fileSize % ctx.pieceSize == 0)
    ensures ctx.pieceCount !in vault ==> completed && count == ctx.pieceCount
  {
    hide SwarmTheorems.Reaches, Joined, WrittenOver;
    FinalFiles(ctx, vault, events, t, last);
    output, count, completed := Merge(ctx, stored, existing, last);
    MergeStopsAt(ctx, vault, events, t, count, completed);
    LengthExact(ctx, t.vault, count);
  }

  /**
   * A loaded torrent whose run ends, started without stale files: the bytes written are as many as the
   * torrent's files have if and only if its `pieces` string has just the right length, 20 bytes to a
   * hash and counted in 32 bits, or is too long after a whole last piece.
   */
  lemma LoadedRunWrites(
    v: B.BeValue, sha1: seq<byte> -> seq<byte>, vault: map<nat, seq<byte>>,
    events: seq<SwarmProofs.Event>, t: Swarm.State)
    requires TorrentFile.Load(v, sha1).Ok?
    requires
      var ctx := TorrentFile.ContextOf(TorrentFile.Load(v, sha1).value, sha1);
      && Runs.Setting(ctx, Download.DEFAULT_POLICY) && Sized(ctx, vault) && t.missing == {}
      && SwarmTheorems.Reaches(
           Runs.InBounds, ctx, Download.DEFAULT_POLICY, Swarm.Initial(ctx, vault), events, t)
    ensures v.Dict? && TorrentFile.DictField(v.entries, "info").Ok?
    ensures TorrentFile.StringField(TorrentFile.DictField(v.entries, "info").value, "pieces").Ok?
    ensures TorrentFile.IntField(TorrentFile.DictField(v.entries, "info").value, "piece length").Ok?
    ensures
      var torrent := TorrentFile.Load(v, sha1).value;
      var ctx := TorrentFile.ContextOf(torrent, sha1);
      forall p :: 0 <= p < ctx.pieceCount ==> p in t.vault && |t.vault[p]| == ctx.PieceSize(p)
    ensures
      var torrent := TorrentFile.Load(v, sha1).value;
      var ctx := TorrentFile.ContextOf(torrent, sha1);
      var info := TorrentFile.DictField(v.entries, "info").value;
      var pieces := TorrentFile.StringField(info, "pieces").value;
      var pieceLength := TorrentFile.IntField(info, "piece length").value % U32;
      var needed := CeilDiv(torrent.fileLength, pieceLength);
      var hashes := |pieces| / TorrentFile.SHA1_HASH_SIZE % U32;
      |Joined(ctx, t.vault, ctx.pieceCount)| == torrent.fileLength <==>
        hashes == needed || (needed <= hashes && torrent.fileLength % pieceLength == 0)
  {
    var torrent := TorrentFile.Load(v, sha1).value;
    var ctx := TorrentFile.ContextOf(torrent, sha1);
    TorrentFile.LoadedContext(v, sha1);
    hide TorrentFile.Load, SwarmTheorems.Reaches, Joined;
    hide TorrentFile.StringField, TorrentFile.IntField, TorrentFile.DictField;
    forall p: nat | p < ctx.pieceCount ensures p in t.vault && |t.vault[p]| == ctx.PieceSize(p) {
      FinalFiles(ctx, vault, events, t, p);
    }
    LengthExact(ctx, t.vault, ctx.pieceCount);
  }

  // ---------- what it writes ----------

  lemma StoredOrForged(
    ctx: Context, file: seq<byte>, vault: map<nat, seq<byte>>, events: seq<SwarmProofs.Event>, t: Swarm.State)
    requires Describes(ctx, file, vault) && t.missing == {}
    requires SwarmTheorems.Reaches(Runs.InBounds, ctx, Download.DEFAULT_POLICY, Swarm.Initial(ctx, vault), events, t)
    ensures Stocked(ctx, t.vault) && Sized(ctx, vault)
    ensures forall p: nat :: p < ctx.pieceCount ==>
      t.vault[p] == PieceOf(ctx, file, p) || Forged(ctx, file, t.vault, p)
  {
    forall p: nat | p < ctx.pieceCount
      ensures p in t.vault && |t.vault[p]| == ctx.PieceSize(p)
      ensures t.vault[p] == PieceOf(ctx, file, p) || Forged(ctx, file, t.vault, p)
    {
      FinalVault(Runs.InBounds, ctx, file, vault, events, t, p);
    }
  }

  /** The files found past the last index at the start do not add to the output. */
  ghost predicate NothingAdded(ctx: Context, vault: map<nat, seq<byte>>)
    requires 0 < ctx.pieceSize
  {
    || ctx.pieceCount !in vault || ctx.fileSize % ctx.pieceSize == 0
    || |vault[ctx.pieceCount]| < ctx.PieceSize(ctx.pieceCount)
  }

  lemma AddedExactly(ctx: Context, files: map<nat, seq<byte>>, vault: map<nat, seq<byte>>, count: nat, completed: bool)
    requires Stocked(ctx, files) && StopsAt(ctx, vault, count, completed)
    requires forall i :: 0 <= i < count ==> i in files && ctx.PieceSize(i) <= |files[i]|
    ensures
      var all, file := Joined(ctx, files, count), Joined(ctx, files, ctx.pieceCount);
      && file <= all
      && (|all| == |file| <==> NothingAdded(ctx, vault))
  {
    JoinedPrefix(ctx, files, ctx.pieceCount, count);
    LengthExact(ctx, files, count);
    LengthExact(ctx, files, ctx.pieceCount);
    hide Joined;
    BeyondLast(ctx, ctx.pieceCount);
  }

  lemma OutputIsFile(existing: seq<byte>, all: seq<byte>, prefix: seq<byte>, file: seq<byte>)
    requires prefix <= all && |prefix| == |file|
    ensures |file| <= |WrittenOver(existing, all)| && WrittenOver(existing, all)[..|file|] == prefix
    ensures WrittenOver(existing, all) == file <==> prefix == file && |all| == |file| && |existing| <= |file|
  {
    var output := WrittenOver(existing, all);
    assert output[..|all|] == all;
    assert output[..|file|] == all[..|file|];
  }

  /**
   * Whatever in-bounds blocks the peers send, whatever the output file held and whatever files the vault
   * had past the last index: if the run ends with `is_done` true, the output begins with as many bytes as
   * the file has, and each piece of them is the file's, unless the piece stored for it is another byte
   * string with the same hash. So the output is the file if and only if no such piece is stored, no
   * stale file adds to it, and the output file was no longer before.
   */
  method MergeAfterRun(
    ctx: Context, ghost file: seq<byte>, ghost vault: map<nat, seq<byte>>,
    ghost events: seq<SwarmProofs.Event>, ghost t: Swarm.State, stored: Vault, existing: seq<byte>, ghost last: uint32)
    returns (output: seq<byte>, completed: bool)
    requires Describes(ctx, file, vault)
    requires SwarmTheorems.Reaches(Runs.InBounds, ctx, Download.DEFAULT_POLICY, Swarm.Initial(ctx, vault), events, t)
    requires t.missing == {} && stored.files == t.vault && ctx.pieceCount <= last && last !in vault
    ensures ctx.pieceCount !in vault ==> completed
    ensures ctx.fileSize <= |output|
    ensures forall p: nat :: p < ctx.pieceCount ==>
      (PieceOf(ctx, output[..ctx.fileSize], p) == PieceOf(ctx, file, p) <==> !Forged(ctx, file, t.vault, p))
    ensures output == file <==>
      !AnyForged(ctx, file, t.vault) && NothingAdded(ctx, vault) && |existing| <= ctx.fileSize
  {
    assert Runs.Setting(ctx, Download.DEFAULT_POLICY) && |file| == ctx.fileSize;
    StoredOrForged(ctx, file, vault, events, t);
    hide Describes, Forged, AnyForged, SwarmTheorems.Reaches, Joined, WrittenOver, NothingAdded, StopsAt, Sized;
    var count;
    output, count, completed := MergeAnyRun(ctx, vault, events, t, stored, existing, last);
    AddedExactly(ctx, t.vault, vault, count, completed);
    JoinedOrForged(ctx, file, t.vault);
    OutputIsFile(existing, Joined(ctx, t.vault, count), Joined(ctx, t.vault, ctx.pieceCount), file);
  }

  /**
   * If every block answers a request with the file's bytes, then in every run no piece is ever
   * judged corrupt, and once `is_done` is true the stored pieces join to the file.
   */
  lemma HonestSwarmGivesFile(
    ctx: Context, file: seq<byte>, vault: map<nat, seq<byte>>, events: seq<SwarmProofs.Event>, t: Swarm.State)
    requires Describes(ctx, file, vault)
    requires SwarmTheorems.Reaches(
      Runs.Authentic(Cut(ctx, file)), ctx, Download.DEFAULT_POLICY, Swarm.Initial(ctx, vault), events, t)
    ensures forall i :: 0 <= i < |t.history| && t.history[i].Judged? ==> !t.history[i].corrupt
    ensures t.missing == {} ==>
      && (forall p :: p in t.vault <==> 0 <= p < ctx.pieceCount || p in vault)
      && HoldsPieces(ctx, file, t.vault) && Stocked(ctx, t.vault)
      && Joined(ctx, t.vault, ctx.pieceCount) == file
  {
    var env := Runs.Authentic(Cut(ctx, file));
    forall i | 0 <= i < |t.history| && t.history[i].Judged? ensures !t.history[i].corrupt {
      SwarmTheorems.Composition(env, ctx, Download.DEFAULT_POLICY, vault, events, t, i);
    }
    if t.missing == {} {
      forall p: nat
        ensures p in t.vault <==> p < ctx.pieceCount || p in vault
        ensures p < ctx.pieceCount ==> t.vault[p] == PieceOf(ctx, file, p)
      {
        FinalVault(env, ctx, file, vault, events, t, p);
      }
      JoinedIsFile(ctx, file, t.vault);
    }
  }

  /**
   * With a hash too many after a whole last piece, no run whose blocks answer requests ever ends with
   * `is_done` true, unless the vault had a file for the extra piece from the start.
   */
  lemma ExtraHashNeverDone(
    ctx: Context, vault: map<nat, seq<byte>>, events: seq<SwarmProofs.Event>, t: Swarm.State)
    requires Runs.Setting(ctx, Download.DEFAULT_POLICY) && ctx.fileSize % ctx.pieceSize == 0
    requires CeilDiv(ctx.fileSize, ctx.pieceSize) < ctx.pieceCount && CeilDiv(ctx.fileSize, ctx.pieceSize) !in vault
    requires SwarmTheorems.Reaches(Runs.Matching, ctx, Download.DEFAULT_POLICY, Swarm.Initial(ctx, vault), events, t)
    ensures t.missing != {}
  {
    var extra := CeilDiv(ctx.fileSize, ctx.pieceSize);
    BeyondLast(ctx, extra);
    SwarmTheorems.EmptyPieceStaysMissing(Runs.Matching, ctx, Download.DEFAULT_POLICY, vault, events, t, extra);
  }
}
