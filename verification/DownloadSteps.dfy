/** Each step of a downloader keeps the invariant; so does every run. */
module DownloadSteps {
  import opened Bytes
  import opened TorrentContext
  import opened Download
  import opened DownloadProofs
  import BitFields
  import Wire

  lemma OutstandingByCount(s: State, b: Block)
    ensures b in Outstanding(s) <==> Count(s, b) > 0
  {
  }

  /** Moving blocks between the queue and the active set changes nothing that conservation sees. */
  lemma SameBlocks(s: State, t: State)
    requires forall b :: Count(t, b) == Count(s, b)
    requires t.pieces == s.pieces && t.starting == s.starting
    ensures Outstanding(t) == Outstanding(s)
    ensures Conserved(s) ==> Conserved(t)
    ensures forall pieces :: Faithful(pieces, s) ==> Faithful(pieces, t)
  {
    forall b ensures b in Outstanding(t) <==> b in Outstanding(s) {
      OutstandingByCount(s, b);
      OutstandingByCount(t, b);
      assert Count(t, b) == Count(s, b);
    }
    if Conserved(s) {
      forall b | b in Outstanding(t) ensures WellPlaced(t, b) {
        assert WellPlaced(s, b);
      }
      forall p | p in t.pieces && p !in t.starting ensures Balanced(t, p) {
        assert Balanced(s, p);
        assert AwaitedIn(t, p) == AwaitedIn(s, p);
      }
      forall b ensures Count(t, b) <= 1 {
        assert Count(s, b) <= 1;
      }
    }
  }

  // ---------- the send loop ----------

  lemma TurnKeeps(env: Environment, ctx: Context, policy: Policy, s: State)
    requires ctx.Valid() && Invariant(env, ctx, policy, s) && 0 < s.senders
    ensures Invariant(env, ctx, policy, SendTurn(policy, s))
  {
    TurnKeepsShape(ctx, policy, s);
    assert SendTurn(policy, s).pieces == s.pieces;
    if Conserved(s) {
      if CanSend(policy, s) {
        SendMovesOne(policy, s);
      }
      SameBlocks(s, SendTurn(policy, s));
    }
    hide Shape, Conserved, Faithful, SendTurn;
  }

  lemma TurnKeepsShape(ctx: Context, policy: Policy, s: State)
    requires ctx.Valid() && Shape(ctx, policy, s) && 0 < s.senders
    ensures Shape(ctx, policy, SendTurn(policy, s))
  {
    hide PieceShape;
  }

  /** A sent request was not active before, and moves from the queue to the active set. */
  lemma SendMovesOne(policy: Policy, s: State)
    requires Conserved(s) && CanSend(policy, s) && 0 < s.senders
    ensures forall b :: Count(SendTurn(policy, s), b) == Count(s, b)
  {
    var t := SendTurn(policy, s);
    var b := s.pending[0];
    assert Count(s, b) <= 1;
    hide Conserved;
    assert s.pending == [b] + t.pending;
    assert b !in s.active;
  }

  // ---------- messages other than a block ----------

  /** A choke puts every active request back in the queue and loses none. */
  lemma ChokeLosesNothing(s: State, b: Block)
    ensures Count(Choked(s), b) == Count(s, b)
    ensures Choked(s).active == {}
  {
    assert multiset(Choked(s).pending) == multiset(Reversed(Ascending(s.active))) + multiset(s.pending);
  }

  lemma MessageKeeps(env: Environment, ctx: Context, policy: Policy, s: State, m: Wire.Message)
    requires ctx.Valid() && Invariant(env, ctx, policy, s) && !m.Piece?
    ensures Invariant(env, ctx, policy, Receive(s, m))
  {
    MessageKeepsShape(ctx, policy, s, m);
    MessageMovesBlocks(s, m);
    SameBlocks(s, Receive(s, m));
    hide Shape, Conserved, Faithful, Receive;
  }

  lemma MessageKeepsShape(ctx: Context, policy: Policy, s: State, m: Wire.Message)
    requires ctx.Valid() && Shape(ctx, policy, s) && !m.Piece?
    ensures Shape(ctx, policy, Receive(s, m))
  {
    hide PieceShape;
  }

  lemma MessageMovesBlocks(s: State, m: Wire.Message)
    requires !m.Piece?
    ensures Receive(s, m).pieces == s.pieces && Receive(s, m).starting == s.starting
    ensures forall b :: Count(Receive(s, m), b) == Count(s, b)
  {
    hide HandledByPeer;
    if m.Choke? {
      forall b ensures Count(Receive(s, m), b) == Count(s, b) {
        ChokeLosesNothing(s.(peer := HandledByPeer(s.peer, m)), b);
      }
    }
  }

  // ---------- a block ----------

  lemma AnswerLeavesEmpty(s: State, m: Wire.Message)
    requires Conserved(s) && EmptyWaits(s) && m.Piece? && Answers(s, m) && Fits(s, m)
    ensures EmptyWaits(Receive(s, m))
  {
    AnswerFits(s, m);
    AnswerEffect(s, m);
    hide Receive, Conserved;
  }

  /** Any in-bounds block leaves shape and request window as they should be. */
  lemma BlockKeepsShape(ctx: Context, policy: Policy, s: State, m: Wire.Message)
    requires ctx.Valid() && Shape(ctx, policy, s) && m.Piece? && Fits(s, m)
    ensures Shape(ctx, policy, Receive(s, m))
  {
  }

  lemma AnswerFits(s: State, m: Wire.Message)
    requires Conserved(s) && m.Piece? && Answers(s, m)
    ensures Fits(s, m)
    ensures WellPlaced(s, Block(m.piece, m.offset, |m.payload|))
    ensures Block(m.piece, m.offset, |m.payload|) in Outstanding(s)
  {
    assert WellPlaced(s, Block(m.piece, m.offset, |m.payload|));
  }

  /** What an answered block does, field by field. */
  lemma AnswerEffect(s: State, m: Wire.Message)
    requires Conserved(s) && m.Piece? && Answers(s, m) && Fits(s, m)
    ensures
      var b, t := Block(m.piece, m.offset, |m.payload|), Receive(s, m);
      && t.pending == s.pending && t.active == s.active - {b} && t.starting == s.starting
      && b.piece in s.pieces
      && t.pieces == s.pieces[b.piece := WithBlock(s.pieces[b.piece], m.offset, m.payload)]
  {
    AnswerFits(s, m);
  }

  lemma RemovesOne(s: State, t: State, b: Block)
    requires Conserved(s) && b in s.active && t.pending == s.pending && t.active == s.active - {b}
    ensures Outstanding(t) == Outstanding(s) - {b}
    ensures forall c :: Count(t, c) <= Count(s, c)
  {
    assert Count(s, b) <= 1;
    assert b !in s.pending;
  }

  /** An answered block leaves the outstanding blocks, and every other one stays. */
  lemma AnswerRemovesOne(s: State, m: Wire.Message)
    requires Conserved(s) && m.Piece? && Answers(s, m) && Fits(s, m)
    ensures Outstanding(Receive(s, m)) == Outstanding(s) - {Block(m.piece, m.offset, |m.payload|)}
    ensures forall c :: Count(Receive(s, m), c) <= Count(s, c)
  {
    AnswerEffect(s, m);
    RemovesOne(s, Receive(s, m), Block(m.piece, m.offset, |m.payload|));
  }

  lemma AnswerAwaits(s: State, b: Block)
    requires Conserved(s) && b in Outstanding(s)
    ensures b.piece in s.pieces
    ensures
      var out, size := Outstanding(s), |s.pieces[b.piece].data|;
      && Awaited(out - {b}, b.piece, size) == AwaitedIn(s, b.piece) - Range(b.offset, b.offset + b.length)
      && s.pieces[b.piece].bytesDownloaded + b.length + |Awaited(out - {b}, b.piece, size)| == size
  {
    assert WellPlaced(s, b);
    AwaitedWithout(Outstanding(s), b, |s.pieces[b.piece].data|);
    assert Balanced(s, b.piece);
  }

  lemma AnswerBalances(s: State, m: Wire.Message)
    requires Conserved(s) && m.Piece? && Answers(s, m) && Fits(s, m)
    requires m.piece in s.pieces ==> |s.pieces[m.piece].data| < U32
    ensures
      var t := Receive(s, m);
      && m.piece in s.pieces && m.piece in t.pieces && Balanced(t, m.piece)
      && t.pieces[m.piece].bytesDownloaded == s.pieces[m.piece].bytesDownloaded + |m.payload|
      && AwaitedIn(t, m.piece) == AwaitedIn(s, m.piece) - Range(m.offset, m.offset + |m.payload|)
  {
    AnswerFits(s, m);
    AnswerAwaits(s, Block(m.piece, m.offset, |m.payload|));
    AnswerRemovesOne(s, m);
    AnswerEffect(s, m);
    hide Receive, Conserved, Awaited, Range, Outstanding;
  }

  lemma AnswerConserves(s: State, m: Wire.Message)
    requires Conserved(s) && m.Piece? && Answers(s, m) && Fits(s, m)
    requires m.piece in s.pieces ==> |s.pieces[m.piece].data| < U32
    ensures Conserved(Receive(s, m))
  {
    var b, t := Block(m.piece, m.offset, |m.payload|), Receive(s, m);
    AnswerFits(s, m);
    AnswerRemovesOne(s, m);
    AnswerBalances(s, m);
    forall c | c in Outstanding(t) ensures WellPlaced(t, c) {
      assert WellPlaced(s, c);
    }
    forall p | p in t.pieces && p !in t.starting && p != b.piece ensures Balanced(t, p) {
      assert Balanced(s, p);
      AwaitedOther(Outstanding(s), {b}, p, |s.pieces[p].data|);
    }
    forall c ensures Count(t, c) <= 1 {
      assert Count(s, c) <= 1;
    }
  }

  /** Bytes copied from the wanted place make up for the positions that are no longer awaited. */
  lemma OverwrittenAgrees(data: seq<byte>, wanted: seq<byte>, lo: nat, hi: nat, before: set<nat>)
    requires Agrees(data, wanted, before) && lo <= hi <= |data|
    ensures Agrees(Overwritten(data, lo, wanted[lo..hi]), wanted, before - Range(lo, hi))
  {
    var after := before - Range(lo, hi);
    forall i | 0 <= i < |data| && i !in after ensures Overwritten(data, lo, wanted[lo..hi])[i] == wanted[i] {
      if lo <= i < hi {
        assert Overwritten(data, lo, wanted[lo..hi])[i] == wanted[lo..hi][i - lo];
      } else {
        assert i !in Range(lo, hi);
      }
    }
  }

  lemma AnswerAgrees(wanted: seq<byte>, s: State, m: Wire.Message)
    requires Conserved(s) && m.Piece? && Answers(s, m) && Fits(s, m)
    requires m.piece in s.pieces && |s.pieces[m.piece].data| < U32
    requires Agrees(s.pieces[m.piece].data, wanted, AwaitedIn(s, m.piece))
    requires m.offset + |m.payload| <= |wanted| && m.payload == wanted[m.offset..m.offset + |m.payload|]
    ensures
      var t := Receive(s, m);
      m.piece in t.pieces && Agrees(t.pieces[m.piece].data, wanted, AwaitedIn(t, m.piece))
  {
    hide Receive, Conserved, AwaitedIn, Agrees, Range, Overwritten, Balanced, Answers;
    AnswerEffect(s, m);
    AnswerBalances(s, m);
    OverwrittenAgrees(s.pieces[m.piece].data, wanted, m.offset, m.offset + |m.payload|, AwaitedIn(s, m.piece));
  }

  lemma AnswerLeaves(s: State, m: Wire.Message, p: nat)
    requires Conserved(s) && m.Piece? && Answers(s, m) && Fits(s, m)
    requires p in s.pieces && p != m.piece
    ensures
      var t := Receive(s, m);
      p in t.pieces && t.pieces[p].data == s.pieces[p].data && AwaitedIn(t, p) == AwaitedIn(s, p)
  {
    AnswerRemovesOne(s, m);
    AwaitedOther(Outstanding(s), {Block(m.piece, m.offset, |m.payload|)}, p, |s.pieces[p].data|);
  }

  lemma AnswerKeepsContent(pieces: seq<seq<byte>>, s: State, m: Wire.Message)
    requires Conserved(s) && m.Piece? && Answers(s, m) && Fits(s, m)
    requires m.piece in s.pieces ==> |s.pieces[m.piece].data| < U32
    requires Faithful(pieces, s) && Carries(pieces, m)
    ensures Faithful(pieces, Receive(s, m))
  {
    var t := Receive(s, m);
    AnswerFits(s, m);
    AnswerEffect(s, m);
    hide Receive, Conserved, AwaitedIn, Answers;
    forall p | p in t.pieces && p !in t.starting
      ensures p < |pieces| && Agrees(t.pieces[p].data, pieces[p], AwaitedIn(t, p))
    {
      assert Agrees(s.pieces[p].data, pieces[p], AwaitedIn(s, p));
      if p == m.piece {
        AnswerAgrees(pieces[p], s, m);
      } else {
        AnswerLeaves(s, m, p);
      }
    }
  }

  // ---------- download_piece ----------

  /** Conserved, but for the balance of a piece whose requests are still to be queued. */
  ghost predicate AwaitingSplit(s: State, p: nat) {
    && p in s.pieces && p !in s.starting
    && s.pieces[p].status == Pending && s.pieces[p].bytesDownloaded == 0
    && (forall b :: Count(s, b) <= 1)
    && (forall b :: b in Outstanding(s) ==> WellPlaced(s, b) && b.piece != p)
    && (forall a, b :: a in Outstanding(s) && b in Outstanding(s) && a != b ==> Apart(a, b))
    && (forall q :: q in s.pieces && q !in s.starting && q != p ==> Balanced(s, q))
    && (forall q :: q in s.starting ==> s.starting[q] == 1 && q in s.pieces && s.pieces[q].status == Pending)
  }

  ghost predicate FaithfulBut(pieces: seq<seq<byte>>, s: State, p: nat) {
    forall q :: q in s.pieces && q !in s.starting && q != p ==>
      q < |pieces| && Agrees(s.pieces[q].data, pieces[q], AwaitedIn(s, q))
  }

  lemma RegisterAwaitsSplit(ctx: Context, s: State, p: uint32)
    requires ctx.Valid() && Conserved(s) && Fresh(s, p)
    ensures AwaitingSplit(Registered(ctx, s, p), p)
    ensures forall pieces :: Faithful(pieces, s) ==> FaithfulBut(pieces, Registered(ctx, s, p), p)
  {
    var r := Registered(ctx, s, p);
    assert Outstanding(r) == Outstanding(s);
    forall b ensures Count(r, b) <= 1 {
      assert Count(s, b) <= 1;
    }
    forall b | b in Outstanding(r) ensures WellPlaced(r, b) && b.piece != p {
      assert WellPlaced(s, b);
    }
    forall q | q in r.pieces && q !in r.starting && q != p ensures Balanced(r, q) {
      assert Balanced(s, q);
    }
  }

  lemma WaitingConserves(s: State, p: nat)
    requires AwaitingSplit(s, p)
    ensures Conserved(s.(starting := s.starting + multiset{p}))
    ensures forall pieces :: FaithfulBut(pieces, s, p) ==> Faithful(pieces, s.(starting := s.starting + multiset{p}))
  {
    var t := s.(starting := s.starting + multiset{p});
    assert Outstanding(t) == Outstanding(s);
    forall b ensures Count(t, b) <= 1 {
      assert Count(s, b) <= 1;
    }
    forall b | b in Outstanding(t) ensures WellPlaced(t, b) {
      assert WellPlaced(s, b);
    }
    forall q | q in t.pieces && q !in t.starting ensures Balanced(t, q) {
      assert Balanced(s, q);
    }
  }

  lemma WakingAwaitsSplit(s: State, p: nat)
    requires Conserved(s) && p in s.starting && s.pieces[p].bytesDownloaded == 0
    ensures AwaitingSplit(s.(starting := s.starting - multiset{p}), p)
    ensures forall pieces :: Faithful(pieces, s) ==> FaithfulBut(pieces, s.(starting := s.starting - multiset{p}), p)
  {
    var t := s.(starting := s.starting - multiset{p});
    assert Outstanding(t) == Outstanding(s);
    forall b ensures Count(t, b) <= 1 {
      assert Count(s, b) <= 1;
    }
    forall b | b in Outstanding(t) ensures WellPlaced(t, b) && b.piece != p {
      assert WellPlaced(s, b);
    }
    forall q | q in t.pieces && q !in t.starting && q != p ensures Balanced(t, q) {
      assert Balanced(s, q);
    }
  }

  /** The blocks a piece's requests add. */
  lemma EnqueueAddsSplit(ctx: Context, policy: Policy, s: State, p: uint32)
    requires Setting(ctx, policy)
    ensures
      var t, blocks := Enqueued(ctx, policy, s, p), SplitFrom(p, 0, ctx.PieceSize(p), policy.maxBlockBytes);
      && Outstanding(t) == Outstanding(s) + Elements(blocks)
      && (forall b :: Count(t, b) == Count(s, b) + multiset(blocks)[b])
  {
  }

  lemma {:induction false} AscendingOccursOnce(blocks: seq<Block>, b: Block)
    requires forall i, j :: 0 <= i < j < |blocks| ==> blocks[i] != blocks[j]
    ensures multiset(blocks)[b] <= 1
    ensures multiset(blocks)[b] == 1 <==> b in blocks
  {
    if blocks != [] {
      assert blocks == [blocks[0]] + blocks[1..];
      AscendingOccursOnce(blocks[1..], b);
    }
  }

  lemma SplitOccursOnce(p: uint32, length: uint32, step: uint32, b: Block)
    requires 0 < step
    ensures
      var blocks := SplitFrom(p, 0, length, step);
      multiset(blocks)[b] <= 1 && (multiset(blocks)[b] == 1 <==> b in blocks)
  {
    SplitIsPartition(p, 0, length, step);
    AscendingOccursOnce(SplitFrom(p, 0, length, step), b);
  }

  lemma EnqueuedBlock(ctx: Context, policy: Policy, s: State, p: uint32, b: Block)
    requires Setting(ctx, policy) && AwaitingSplit(s, p) && |s.pieces[p].data| == ctx.PieceSize(p)
    ensures
      var t := Enqueued(ctx, policy, s, p);
      && Count(t, b) <= 1
      && (b in Outstanding(t) ==> WellPlaced(t, b))
  {
    var length := ctx.PieceSize(p);
    SplitIsPartition(p, 0, length, policy.maxBlockBytes);
    SplitOccursOnce(p, length, policy.maxBlockBytes, b);
    EnqueueAddsSplit(ctx, policy, s, p);
    OutstandingByCount(s, b);
    assert Count(s, b) <= 1;
    if b in Outstanding(s) {
      assert WellPlaced(s, b);
    }
  }

  lemma EnqueuedApart(ctx: Context, policy: Policy, s: State, p: uint32, a: Block, b: Block)
    requires Setting(ctx, policy) && AwaitingSplit(s, p)
    requires a in Outstanding(Enqueued(ctx, policy, s, p)) && b in Outstanding(Enqueued(ctx, policy, s, p)) && a != b
    ensures Apart(a, b)
  {
    var blocks := SplitFrom(p, 0, ctx.PieceSize(p), policy.maxBlockBytes);
    SplitIsPartition(p, 0, ctx.PieceSize(p), policy.maxBlockBytes);
    EnqueueAddsSplit(ctx, policy, s, p);
    if a in Elements(blocks) && b in Elements(blocks) {
      var i :| 0 <= i < |blocks| && blocks[i] == a;
      var j :| 0 <= j < |blocks| && blocks[j] == b;
    }
  }

  lemma EnqueuedAwaits(ctx: Context, policy: Policy, s: State, p: uint32, q: nat)
    requires Setting(ctx, policy) && AwaitingSplit(s, p) && |s.pieces[p].data| == ctx.PieceSize(p)
    requires q in s.pieces
    ensures
      var t := Enqueued(ctx, policy, s, p);
      AwaitedIn(t, q) == if q == p then Range(0, |s.pieces[p].data|) else AwaitedIn(s, q)
  {
    var length := ctx.PieceSize(p);
    var blocks := Elements(SplitFrom(p, 0, length, policy.maxBlockBytes));
    SplitIsPartition(p, 0, length, policy.maxBlockBytes);
    EnqueueAddsSplit(ctx, policy, s, p);
    if q == p {
      assert Outstanding(s) + blocks == blocks + Outstanding(s);
      AwaitedOther(blocks, Outstanding(s), p, length);
    } else {
      AwaitedOther(Outstanding(s), blocks, q, |s.pieces[q].data|);
    }
  }

  lemma EnqueueConserves(ctx: Context, policy: Policy, s: State, p: uint32)
    requires Setting(ctx, policy) && AwaitingSplit(s, p) && |s.pieces[p].data| == ctx.PieceSize(p)
    ensures Conserved(Enqueued(ctx, policy, s, p))
  {
    var t := Enqueued(ctx, policy, s, p);
    forall b ensures Count(t, b) <= 1 && (b in Outstanding(t) ==> WellPlaced(t, b)) {
      EnqueuedBlock(ctx, policy, s, p, b);
    }
    forall a, b | a in Outstanding(t) && b in Outstanding(t) && a != b ensures Apart(a, b) {
      EnqueuedApart(ctx, policy, s, p, a, b);
    }
    forall q | q in t.pieces && q !in t.starting ensures Balanced(t, q) {
      EnqueuedAwaits(ctx, policy, s, p, q);
      if q == p {
        RangeSize(0, |s.pieces[p].data|);
      } else {
        assert Balanced(s, q);
      }
    }
  }

  lemma EnqueueKeepsContent(ctx: Context, policy: Policy, pieces: seq<seq<byte>>, s: State, p: uint32)
    requires Setting(ctx, policy) && AwaitingSplit(s, p) && |s.pieces[p].data| == ctx.PieceSize(p)
    requires p < ctx.pieceCount && PiecesOf(ctx, pieces) && FaithfulBut(pieces, s, p)
    ensures Faithful(pieces, Enqueued(ctx, policy, s, p))
  {
    var t := Enqueued(ctx, policy, s, p);
    forall q | q in t.pieces && q !in t.starting
      ensures q < |pieces| && Agrees(t.pieces[q].data, pieces[q], AwaitedIn(t, q))
    {
      EnqueuedAwaits(ctx, policy, s, p, q);
    }
  }

  lemma BeginKeeps(env: Environment, ctx: Context, policy: Policy, s: State, p: uint32)
    requires Setting(ctx, policy) && Invariant(env, ctx, policy, s)
    requires p < ctx.pieceCount && (!env.InBounds? ==> Fresh(s, p))
    ensures Invariant(env, ctx, policy, Start(ctx, policy, s, p).1)
  {
    if BitFields.Get(s.peer.remoteBitfield, p) && !env.InBounds? {
      var r := Registered(ctx, s, p);
      RegisterAwaitsSplit(ctx, s, p);
      if s.peer.selfChoked {
        WaitingConserves(r, p);
      } else {
        EnqueueConserves(ctx, policy, r, p);
        if env.Authentic? {
          EnqueueKeepsContent(ctx, policy, env.pieces, r, p);
        }
      }
    }
  }

  lemma ContinueKeeps(env: Environment, ctx: Context, policy: Policy, s: State, p: uint32)
    requires Setting(ctx, policy) && Invariant(env, ctx, policy, s) && p in s.starting
    ensures Invariant(env, ctx, policy, Resume(ctx, policy, s, p))
  {
    if !env.InBounds? {
      var t := s.(starting := s.starting - multiset{p});
      WakingAwaitsSplit(s, p);
      EnqueueConserves(ctx, policy, t, p);
      if env.Authentic? {
        EnqueueKeepsContent(ctx, policy, env.pieces, t, p);
      }
    }
  }

  // ---------- retrieve_piece ----------

  /** A complete piece has nothing outstanding, so taking it away leaves nothing behind. */
  lemma CompleteIsSettled(ctx: Context, policy: Policy, s: State, p: nat)
    requires ctx.Valid() && Shape(ctx, policy, s) && Conserved(s)
    requires p in s.pieces && s.pieces[p].status == Complete
    ensures p !in s.starting && AwaitedIn(s, p) == {}
    ensures forall b :: b in Outstanding(s) ==> b.piece != p
  {
    assert PieceShape(ctx, p, s.pieces[p]);
    assert Balanced(s, p);
    forall b | b in Outstanding(s) ensures b.piece != p {
      assert WellPlaced(s, b);
      assert Covers(b, b.piece, b.offset);
      assert b.offset in AwaitedIn(s, b.piece);
    }
  }

  lemma ExtractConserves(s: State, p: nat)
    requires Conserved(s) && p in s.pieces && Fresh(s.(pieces := s.pieces - {p}), p)
    ensures Conserved(s.(pieces := s.pieces - {p}))
    ensures forall pieces :: Faithful(pieces, s) ==> Faithful(pieces, s.(pieces := s.pieces - {p}))
  {
    var t := s.(pieces := s.pieces - {p});
    assert Outstanding(t) == Outstanding(s);
    forall b ensures Count(t, b) <= 1 {
      assert Count(s, b) <= 1;
    }
    forall b | b in Outstanding(t) ensures WellPlaced(t, b) {
      assert WellPlaced(s, b);
    }
    forall q | q in t.pieces && q !in t.starting ensures Balanced(t, q) {
      assert Balanced(s, q);
    }
  }

  lemma CollectKeeps(env: Environment, ctx: Context, policy: Policy, s: State, p: nat)
    requires ctx.Valid() && Invariant(env, ctx, policy, s) && p < ctx.pieceCount
    ensures Invariant(env, ctx, policy, Retrieve(ctx, s, p).1)
    ensures !env.InBounds? && p in s.pieces && s.pieces[p].status == Complete ==> Fresh(Retrieve(ctx, s, p).1, p)
  {
    if p in s.pieces && s.pieces[p].status == Complete && !env.InBounds? {
      CompleteIsSettled(ctx, policy, s, p);
      assert Outstanding(s.(pieces := s.pieces - {p})) == Outstanding(s);
      ExtractConserves(s, p);
    }
  }

  // ---------- all steps, all runs ----------

  lemma ArriveKeeps(env: Environment, ctx: Context, policy: Policy, s: State, m: Wire.Message)
    requires ctx.Valid() && Invariant(env, ctx, policy, s) && Admits(env, s, m) && Fits(s, m)
    ensures Invariant(env, ctx, policy, Receive(s, m))
  {
    if m.Piece? {
      BlockKeepsShape(ctx, policy, s, m);
      if !env.InBounds? {
        assert m.piece in s.pieces ==> PieceShape(ctx, m.piece, s.pieces[m.piece]);
        AnswerConserves(s, m);
        AnswerLeavesEmpty(s, m);
        if env.Authentic? {
          AnswerKeepsContent(env.pieces, s, m);
        }
      }
    } else {
      MessageKeeps(env, ctx, policy, s, m);
    }
  }

  lemma StepKeeps(env: Environment, ctx: Context, policy: Policy, s: State, e: Event)
    requires Setting(ctx, policy) && Invariant(env, ctx, policy, s) && Enabled(env, ctx, s, e)
    ensures Invariant(env, ctx, policy, Next(ctx, policy, s, e))
  {
    match e
    case Begin(p) => BeginKeeps(env, ctx, policy, s, p);
    case Continue(p) => ContinueKeeps(env, ctx, policy, s, p);
    case Turn => TurnKeeps(env, ctx, policy, s);
    case Arrive(m) => ArriveKeeps(env, ctx, policy, s, m);
    case Collect(p) => CollectKeeps(env, ctx, policy, s, p);
  }

  lemma {:induction false} RunKeeps(
    env: Environment, ctx: Context, policy: Policy, s: State, events: seq<Event>, t: State)
    requires Setting(ctx, policy) && Invariant(env, ctx, policy, s) && Reaches(env, ctx, policy, s, events, t)
    ensures Invariant(env, ctx, policy, t)
    decreases |events|
  {
    if events != [] {
      StepKeeps(env, ctx, policy, s, events[0]);
      RunKeeps(env, ctx, policy, Next(ctx, policy, s, events[0]), events[1..], t);
    }
  }
}
