/** What every run of a downloader keeps: conservation of blocks, content, the request window. */
module DownloadProofs {
  import opened Bytes
  import opened TorrentContext
  import opened Download
  import Wire

  // ---------- runs ----------

  datatype Event =
    | Begin(piece: uint32)
    | Continue(piece: uint32)
    | Turn
    | Arrive(message: Wire.Message)
    | Collect(piece: uint32)

  /**
   * What the remote side may do: send any block that stays inside its piece, only answer requests
   * that are active, or also answer them with the bytes of one file.
   */
  datatype Environment = InBounds | Matching | Authentic(pieces: seq<seq<byte>>)

  ghost predicate Admits(env: Environment, s: State, m: Wire.Message) {
    m.Piece? ==>
      match env
      case InBounds => Fits(s, m)
      case Matching => Answers(s, m)
      case Authentic(pieces) => Answers(s, m) && Carries(pieces, m)
  }

  ghost predicate Answers(s: State, m: Wire.Message)
    requires m.Piece?
  {
    |m.payload| < U32 && Block(m.piece, m.offset, |m.payload|) in s.active
  }

  ghost predicate Carries(pieces: seq<seq<byte>>, m: Wire.Message)
    requires m.Piece?
  {
    && m.piece < |pieces|
    && m.offset + |m.payload| <= |pieces[m.piece]|
    && m.payload == pieces[m.piece][m.offset..m.offset + |m.payload|]
  }

  /** The byte strings the torrent's pieces should be: right in number and in size. */
  ghost predicate PiecesOf(ctx: Context, pieces: seq<seq<byte>>)
    requires ctx.Valid()
  {
    |pieces| == ctx.pieceCount && forall p :: 0 <= p < |pieces| ==> |pieces[p]| == ctx.PieceSize(p)
  }

  ghost predicate Fresh(s: State, p: nat) {
    p !in s.pieces && p !in s.starting && forall b :: b in Outstanding(s) ==> b.piece != p
  }

  ghost predicate Enabled(env: Environment, ctx: Context, s: State, e: Event) {
    match e
    case Begin(p) => p < ctx.pieceCount && (env.InBounds? || Fresh(s, p))
    case Continue(p) => p in s.starting
    case Turn => 0 < s.senders
    case Arrive(m) => Admits(env, s, m) && Fits(s, m)
    case Collect(p) => p < ctx.pieceCount
  }

  /** The torrent has hashes for its pieces, and the blocks of each piece fit into 32 bits (SettingIsPerPiece). */
  ghost predicate Setting(ctx: Context, policy: Policy) {
    && ctx.Valid() && 0 < policy.maxBlockBytes
    && (0 < ctx.pieceCount ==> SplitFits(ctx.PieceSize(0), policy.maxBlockBytes))
  }

  ghost function Next(ctx: Context, policy: Policy, s: State, e: Event): State
    requires Setting(ctx, policy)
    requires e.Turn? ==> 0 < s.senders
    requires e.Arrive? ==> Fits(s, e.message)
    requires e.Collect? ==> e.piece < ctx.pieceCount
  {
    match e
    case Begin(p) => Start(ctx, policy, s, p).1
    case Continue(p) => Resume(ctx, policy, s, p)
    case Turn => SendTurn(policy, s)
    case Arrive(m) => Receive(s, m)
    case Collect(p) => Retrieve(ctx, s, p).1
  }

  /** `t` is reached from `s` by the events, each enabled when it happens. */
  ghost predicate Reaches(env: Environment, ctx: Context, policy: Policy, s: State, events: seq<Event>, t: State)
    requires Setting(ctx, policy)
    decreases |events|
  {
    if events == [] then t == s
    else
      && Enabled(env, ctx, s, events[0])
      && Reaches(env, ctx, policy, Next(ctx, policy, s, events[0]), events[1..], t)
  }

  /** A run goes on with any step that is enabled at its end. */
  lemma {:induction false} ReachesMore(
    env: Environment, ctx: Context, policy: Policy, s: State, events: seq<Event>, t: State, e: Event)
    requires Setting(ctx, policy) && Reaches(env, ctx, policy, s, events, t) && Enabled(env, ctx, t, e)
    ensures Reaches(env, ctx, policy, s, events + [e], Next(ctx, policy, t, e))
    decreases |events|
  {
    hide Admits, Fits, Fresh, Next, Setting;
    if events == [] {
      assert Enabled(env, ctx, t, e);
      assert ([] + [e])[1..] == [];
    } else {
      ReachesMore(env, ctx, policy, Next(ctx, policy, s, events[0]), events[1..], t, e);
      assert (events + [e])[1..] == events[1..] + [e];
    }
  }

  // ---------- the invariant ----------

  ghost function Elements(xs: seq<Block>): set<Block> {
    set b | b in xs
  }

  ghost function Outstanding(s: State): set<Block> {
    Elements(s.pending) + s.active
  }

  ghost function Count(s: State, b: Block): nat {
    multiset(s.pending)[b] + if b in s.active then 1 else 0
  }

  /** The positions of a piece that some block in `out` still has to bring. */
  ghost function Awaited(out: set<Block>, p: nat, size: nat): set<nat> {
    set i: nat | i < size && AwaitedAt(out, p, i)
  }

  ghost predicate AwaitedAt(out: set<Block>, p: nat, i: nat) {
    exists b :: b in out && Covers(b, p, i)
  }

  ghost predicate Apart(a: Block, b: Block) {
    a.piece == b.piece ==> a.offset + a.length <= b.offset || b.offset + b.length <= a.offset
  }

  ghost predicate WellPlaced(s: State, b: Block) {
    b.piece in s.pieces && b.piece !in s.starting && 0 < b.length && b.offset + b.length <= |s.pieces[b.piece].data|
  }

  /** Holds whatever in-bounds blocks arrive. */
  ghost predicate Shape(ctx: Context, policy: Policy, s: State)
    requires ctx.Valid()
  {
    && (forall p :: p in s.pieces ==> PieceShape(ctx, p, s.pieces[p]))
    && Window(policy, s)
  }

  ghost predicate PieceShape(ctx: Context, p: nat, fp: FilePiece)
    requires ctx.Valid()
  {
    && p < ctx.pieceCount && fp.index == p && |fp.data| == ctx.PieceSize(p) && fp.status != Corrupt
    && (fp.status == Complete ==> fp.bytesDownloaded == |fp.data|)
    && (fp.status == Active ==> fp.bytesDownloaded != |fp.data|)
    && (fp.status == Pending ==> fp.bytesDownloaded == 0)
  }

  /** At most the policy's number of requests are active, none while choked, and nobody idles. */
  ghost predicate Window(policy: Policy, s: State) {
    && |s.active| <= policy.maxRequests
    && (s.peer.selfChoked ==> s.active == {})
    && (s.senders == 0 ==> !CanSend(policy, s))
  }

  /** Holds when every block answers an active request. */
  ghost predicate Conserved(s: State) {
    && (forall b :: Count(s, b) <= 1)
    && (forall b :: b in Outstanding(s) ==> WellPlaced(s, b))
    && (forall a, b :: a in Outstanding(s) && b in Outstanding(s) && a != b ==> Apart(a, b))
    && (forall p :: p in s.pieces && p !in s.starting ==> Balanced(s, p))
    && (forall p :: p in s.starting ==> s.starting[p] == 1 && p in s.pieces && s.pieces[p].status == Pending)
  }

  ghost function AwaitedIn(s: State, p: nat): set<nat>
    requires p in s.pieces
  {
    Awaited(Outstanding(s), p, |s.pieces[p].data|)
  }

  /** Bytes received plus positions still awaited make up the piece. */
  ghost predicate Balanced(s: State, p: nat)
    requires p in s.pieces
  {
    s.pieces[p].bytesDownloaded + |AwaitedIn(s, p)| == |s.pieces[p].data|
  }

  /** A piece of no bytes has no request, so no block that answers one ever changes it. */
  ghost predicate EmptyWaits(s: State) {
    forall p :: p in s.pieces && s.pieces[p].data == [] ==> s.pieces[p].status == Pending
  }

  /** Outside the awaited positions, every piece holds the bytes it should. */
  ghost predicate Faithful(pieces: seq<seq<byte>>, s: State) {
    forall p :: p in s.pieces && p !in s.starting ==>
      p < |pieces| && Agrees(s.pieces[p].data, pieces[p], AwaitedIn(s, p))
  }

  ghost predicate Agrees(data: seq<byte>, wanted: seq<byte>, awaited: set<nat>) {
    |data| == |wanted| && forall i :: 0 <= i < |data| && i !in awaited ==> data[i] == wanted[i]
  }

  ghost predicate Invariant(env: Environment, ctx: Context, policy: Policy, s: State)
    requires ctx.Valid()
  {
    && Shape(ctx, policy, s)
    && (!env.InBounds? ==> Conserved(s) && EmptyWaits(s))
    && (env.Authentic? ==> PiecesOf(ctx, env.pieces) && Faithful(env.pieces, s))
  }

  // ---------- ranges of positions ----------

  ghost function Range(lo: nat, hi: nat): set<nat> {
    set i: nat | i < hi && Within(lo, hi, i)
  }

  predicate Within(lo: nat, hi: nat, i: nat) {
    lo <= i < hi
  }

  lemma {:induction false} RangeSize(lo: nat, hi: nat)
    requires lo <= hi
    ensures |Range(lo, hi)| == hi - lo
    decreases hi - lo
  {
    if lo < hi {
      RangeSize(lo + 1, hi);
      assert Range(lo, hi) == {lo} + Range(lo + 1, hi);
    } else {
      assert Range(lo, hi) == {};
    }
  }

  ghost predicate Covers(b: Block, p: nat, i: nat) {
    b.piece == p && b.offset <= i < b.offset + b.length
  }

  /** A position of `b` is awaited through `b` alone. */
  lemma AwaitedThroughOne(out: set<Block>, b: Block, i: nat)
    requires b in out
    requires forall a :: a in out && a != b ==> Apart(a, b)
    ensures AwaitedAt(out - {b}, b.piece, i) <==> AwaitedAt(out, b.piece, i) && !Covers(b, b.piece, i)
    ensures Covers(b, b.piece, i) ==> AwaitedAt(out, b.piece, i)
  {
    if AwaitedAt(out - {b}, b.piece, i) {
      var a :| a in out - {b} && Covers(a, b.piece, i);
      assert a in out && Apart(a, b);
    }
  }

  /** Taking away one of several disjoint blocks takes away exactly its own positions. */
  lemma AwaitedWithout(out: set<Block>, b: Block, size: nat)
    requires b in out && b.offset + b.length <= size
    requires forall a :: a in out && a != b ==> Apart(a, b)
    ensures Awaited(out - {b}, b.piece, size) == Awaited(out, b.piece, size) - Range(b.offset, b.offset + b.length)
    ensures |Awaited(out - {b}, b.piece, size)| + b.length == |Awaited(out, b.piece, size)|
  {
    var before, after, range := Awaited(out, b.piece, size), Awaited(out - {b}, b.piece, size),
                                Range(b.offset, b.offset + b.length);
    forall i: nat
      ensures i in after <==> i in before && i !in range
      ensures i in range ==> i in before
    {
      AwaitedThroughOne(out, b, i);
    }
    assert before == after + range;
    RangeSize(b.offset, b.offset + b.length);
  }

  lemma AwaitedOther(out: set<Block>, more: set<Block>, p: nat, size: nat)
    requires forall b :: b in more ==> b.piece != p
    ensures Awaited(out + more, p, size) == Awaited(out, p, size)
    ensures Awaited(out - more, p, size) == Awaited(out, p, size)
  {
    forall i | i in Awaited(out, p, size) ensures i in Awaited(out - more, p, size) {
      var b :| b in out && Covers(b, p, i);
      assert b in out - more;
    }
  }

  // ---------- the split ----------

  /** The requests of a piece cut its positions into disjoint blocks, none longer than a step. */
  lemma {:induction false} SplitIsPartition(p: uint32, offset: nat, length: uint32, step: uint32)
    requires 0 < step
    ensures
      var blocks := SplitFrom(p, offset, length, step);
      && (forall i :: 0 <= i < |blocks| ==>
            && blocks[i].piece == p && offset <= blocks[i].offset && 0 < blocks[i].length <= step
            && blocks[i].offset + blocks[i].length <= length)
      && (forall i, j :: 0 <= i < j < |blocks| ==> blocks[i].offset + blocks[i].length <= blocks[j].offset)
      && Awaited(Elements(blocks), p, length) == Range(offset, length)
    decreases length - offset
  {
    if offset < length {
      var first := Block(p, offset, Min(length - offset, step));
      SplitIsPartition(p, offset + step, length, step);
      AwaitedCons(first, SplitFrom(p, offset + step, length, step), p, offset + step, length);
      hide Awaited, Range, Elements;
    }
  }

  lemma AwaitedCons(first: Block, rest: seq<Block>, p: uint32, next: nat, length: nat)
    requires first.piece == p && first.offset + first.length == Min(next, length)
    requires Awaited(Elements(rest), p, length) == Range(next, length)
    ensures Awaited(Elements([first] + rest), p, length) == Range(first.offset, length)
  {
    var all := Elements([first] + rest);
    assert all == {first} + Elements(rest);
    forall i: nat | i < length ensures AwaitedAt(all, p, i) <==> first.offset <= i {
      assert i in Awaited(Elements(rest), p, length) <==> i in Range(next, length);
      if AwaitedAt(Elements(rest), p, i) {
        var b :| b in Elements(rest) && Covers(b, p, i);
        assert b in all;
      }
      if Covers(first, p, i) {
        assert first in all;
      }
    }
  }

  /** A piece of `length` bytes takes ceil(length / step) requests. */
  lemma {:induction false} SplitCount(p: uint32, offset: nat, length: uint32, step: uint32)
    requires 0 < step
    ensures |SplitFrom(p, offset, length, step)| == if offset >= length then 0 else CeilDiv(length - offset, step)
    decreases length - offset
  {
    if offset < length {
      SplitCount(p, offset + step, length, step);
      if offset + step < length {
        assert length - offset + step - 1 == (length - (offset + step) + step - 1) + step;
        DivPlusOne(length - (offset + step) + step - 1, step);
      } else {
        DivPlusOne(length - offset - 1, step);
        DivBounds(length - offset - 1, step);
        if (length - offset - 1) / step >= 1 {
          MulMonotone(1, (length - offset - 1) / step, step);
        }
      }
    }
  }

  lemma DivPlusOne(a: nat, b: nat)
    requires 0 < b
    ensures (a + b) / b == a / b + 1
  {
    DivBounds(a, b);
    Distributes(a / b, 1, b);
    QuotientIs(a + b, a / b + 1, b);
  }
}
