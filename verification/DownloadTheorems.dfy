/** The main results about one downloader, over all its runs. */
module DownloadTheorems {
  import opened Bytes
  import opened TorrentContext
  import opened Download
  import opened DownloadProofs
  import opened DownloadSteps
  import BitFields
  import Wire

  lemma InitialHolds(env: Environment, ctx: Context, policy: Policy)
    requires ctx.Valid() && (env.Authentic? ==> PiecesOf(ctx, env.pieces))
    ensures Invariant(env, ctx, policy, INITIAL)
  {
    assert forall b :: Count(INITIAL, b) == 0;
    assert Outstanding(INITIAL) == {};
  }

  // ---------- the sum of the outstanding lengths ----------

  ghost function OutstandingFor(s: State, p: nat): set<Block> {
    set b | b in Outstanding(s) && b.piece == p
  }

  ghost function Pick(s: set<Block>): (b: Block)
    requires s != {}
    ensures b in s
  {
    var b :| b in s;
    b
  }

  ghost function TotalLength(s: set<Block>): nat {
    if s == {} then 0 else Pick(s).length + TotalLength(s - {Pick(s)})
  }

  lemma {:induction false} TotalIsAwaited(out: set<Block>, p: nat, size: nat)
    requires forall b :: b in out ==> b.piece == p && b.offset + b.length <= size
    requires forall a, b :: a in out && b in out && a != b ==> Apart(a, b)
    ensures TotalLength(out) == |Awaited(out, p, size)|
    decreases |out|
  {
    if out == {} {
      assert Awaited(out, p, size) == {};
    } else {
      var b := Pick(out);
      TotalIsAwaited(out - {b}, p, size);
      AwaitedWithout(out, b, size);
    }
  }

  lemma AwaitedByPiece(out: set<Block>, p: nat, size: nat)
    ensures Awaited((set b | b in out && b.piece == p), p, size) == Awaited(out, p, size)
  {
    var own := set b | b in out && b.piece == p;
    assert out == own + (out - own);
    AwaitedOther(own, out - own, p, size);
  }

  /**
   * Conservation. In every state of every run whose blocks answer active requests: no request is
   * in the queue twice, in the active set twice, or in both; the outstanding blocks are disjoint,
   * nonempty and inside their pieces; and for every piece past its set-up the bytes received plus
   * the outstanding lengths are the piece's size.
   */
  lemma Conservation(ctx: Context, policy: Policy, events: seq<Event>, t: State)
    requires Setting(ctx, policy) && Reaches(Matching, ctx, policy, INITIAL, events, t)
    ensures forall b :: multiset(t.pending)[b] + (if b in t.active then 1 else 0) <= 1
    ensures forall b :: b in Outstanding(t) ==>
      b.piece in t.pieces && 0 < b.length && b.offset + b.length <= ctx.PieceSize(b.piece)
    ensures forall a, b :: a in Outstanding(t) && b in Outstanding(t) && a != b ==> Apart(a, b)
    ensures forall p :: p in t.pieces && p !in t.starting ==>
      t.pieces[p].bytesDownloaded + TotalLength(OutstandingFor(t, p)) == ctx.PieceSize(p)
  {
    InitialHolds(Matching, ctx, policy);
    RunKeeps(Matching, ctx, policy, INITIAL, events, t);
    forall b ensures multiset(t.pending)[b] + (if b in t.active then 1 else 0) <= 1 {
      assert Count(t, b) <= 1;
    }
    forall b | b in Outstanding(t)
      ensures b.piece in t.pieces && 0 < b.length && b.offset + b.length <= ctx.PieceSize(b.piece)
    {
      assert WellPlaced(t, b);
      assert PieceShape(ctx, b.piece, t.pieces[b.piece]);
    }
    forall p | p in t.pieces && p !in t.starting
      ensures t.pieces[p].bytesDownloaded + TotalLength(OutstandingFor(t, p)) == ctx.PieceSize(p)
    {
      assert PieceShape(ctx, p, t.pieces[p]) && Balanced(t, p);
      forall b | b in OutstandingFor(t, p) ensures b.offset + b.length <= ctx.PieceSize(p) {
        assert WellPlaced(t, b);
      }
      TotalIsAwaited(OutstandingFor(t, p), p, ctx.PieceSize(p));
      AwaitedByPiece(Outstanding(t), p, ctx.PieceSize(p));
    }
  }

  /**
   * The code counts a block's bytes whether or not it answered a request. So an arriving block keeps
   * the books balanced if and only if it answers an active request, or is for a piece that is not
   * there, or is empty and for a piece past its set-up.
   */
  lemma ConservationExact(s: State, m: Wire.Message)
    requires Conserved(s) && m.Piece? && Fits(s, m)
    requires m.piece in s.pieces ==> |s.pieces[m.piece].data| < U32
    ensures Conserved(Receive(s, m)) <==>
      Answers(s, m) || m.piece !in s.pieces || (m.payload == [] && m.piece !in s.starting)
  {
    if Answers(s, m) {
      AnswerConserves(s, m);
    } else if m.piece !in s.pieces {
      IgnoredBlockConserves(s, m);
    } else if m.payload == [] && m.piece !in s.starting {
      EmptyBlockConserves(s, m);
    } else {
      UnaskedBlockBreaks(s, m);
    }
  }

  lemma IgnoredBlockConserves(s: State, m: Wire.Message)
    requires Conserved(s) && m.Piece? && m.piece !in s.pieces
    ensures Conserved(Receive(s, m))
  {
    var t := Receive(s, m);
    assert forall b :: Count(t, b) == Count(s, b);
    SameBlocks(s, t);
  }

  lemma EmptyBlockConserves(s: State, m: Wire.Message)
    requires Conserved(s) && m.Piece? && Fits(s, m) && !Answers(s, m)
    requires m.piece in s.pieces && m.piece !in s.starting && m.payload == [] && |s.pieces[m.piece].data| < U32
    ensures Conserved(Receive(s, m))
  {
    UnaskedBlockEffect(s, m);
    assert Balanced(s, m.piece);
    hide Receive, Conserved;
    SameBalance(s, Receive(s, m), m.piece);
  }

  lemma SameBalance(s: State, t: State, p: nat)
    requires Conserved(s) && p in s.pieces && p !in s.starting
    requires t.pending == s.pending && t.active == s.active && t.starting == s.starting
    requires p in t.pieces && t.pieces == s.pieces[p := t.pieces[p]]
    requires |t.pieces[p].data| == |s.pieces[p].data| && t.pieces[p].bytesDownloaded == s.pieces[p].bytesDownloaded
    ensures Conserved(t)
  {
    assert Outstanding(t) == Outstanding(s);
    forall b ensures Count(t, b) <= 1 {
      assert Count(s, b) <= 1;
    }
    forall b | b in Outstanding(t) ensures WellPlaced(t, b) {
      assert WellPlaced(s, b);
    }
    forall q | q in t.pieces && q !in t.starting ensures Balanced(t, q) {
      assert Balanced(s, q);
      assert AwaitedIn(t, q) == AwaitedIn(s, q);
    }
  }

  lemma UnaskedBlockBreaks(s: State, m: Wire.Message)
    requires Conserved(s) && m.Piece? && Fits(s, m) && !Answers(s, m)
    requires m.piece in s.pieces && |s.pieces[m.piece].data| < U32
    requires m.payload != [] || m.piece in s.starting
    ensures !Conserved(Receive(s, m))
  {
    UnaskedBlockEffect(s, m);
    hide Receive, Answers, Fits;
    UnaskedBlockUnbalances(s, Receive(s, m), m.piece, |m.payload|);
  }

  lemma UnaskedBlockEffect(s: State, m: Wire.Message)
    requires m.Piece? && Fits(s, m) && m.piece in s.pieces && !Answers(s, m)
    requires |s.pieces[m.piece].data| < U32
    ensures
      var t := Receive(s, m);
      && t.pending == s.pending && t.active == s.active && t.starting == s.starting
      && m.piece in t.pieces && t.pieces == s.pieces[m.piece := t.pieces[m.piece]]
      && t.pieces[m.piece].status != Pending
      && |t.pieces[m.piece].data| == |s.pieces[m.piece].data|
      && t.pieces[m.piece].bytesDownloaded == (s.pieces[m.piece].bytesDownloaded + |m.payload|) % U32
  {
    SmallMod(|m.payload|, U32);
  }

  lemma UnaskedBlockUnbalances(s: State, t: State, p: nat, length: nat)
    requires Conserved(s) && p in s.pieces && p in t.pieces
    requires t.pending == s.pending && t.active == s.active && t.starting == s.starting
    requires t.pieces[p].status != Pending && |t.pieces[p].data| == |s.pieces[p].data|
    requires (0 < length || p in s.starting) && length <= |s.pieces[p].data| < U32
    requires t.pieces[p].bytesDownloaded == (s.pieces[p].bytesDownloaded + length) % U32
    ensures !Conserved(t)
  {
    assert Outstanding(t) == Outstanding(s);
    if p !in s.starting {
      assert Balanced(s, p);
      assert AwaitedIn(t, p) == AwaitedIn(s, p);
      assert !Balanced(t, p);
    }
  }

  /** The request window, in every state of every run, whatever in-bounds blocks arrive. */
  lemma RequestWindow(ctx: Context, policy: Policy, events: seq<Event>, t: State)
    requires Setting(ctx, policy) && Reaches(InBounds, ctx, policy, INITIAL, events, t)
    ensures |t.active| <= policy.maxRequests
    ensures t.peer.selfChoked ==> t.active == {}
    ensures t.senders == 0 && !t.peer.selfChoked ==> t.pending == [] || |t.active| == policy.maxRequests
  {
    InitialHolds(InBounds, ctx, policy);
    RunKeeps(InBounds, ctx, policy, INITIAL, events, t);
  }

  // ---------- content ----------

  /**
   * Content. If every block answers a request with the right bytes, then in every state of every
   * run a complete piece is the right byte string, and retrieving it never calls it corrupt.
   */
  lemma CompleteIsRight(ctx: Context, policy: Policy, pieces: seq<seq<byte>>, events: seq<Event>, t: State, p: nat)
    requires Setting(ctx, policy) && PiecesOf(ctx, pieces)
    requires forall q :: 0 <= q < |pieces| ==> ctx.sha1(pieces[q]) == ctx.pieceHashes[q]
    requires Reaches(Authentic(pieces), ctx, policy, INITIAL, events, t)
    requires p in t.pieces
    ensures p < |pieces|
    ensures t.pieces[p].status == Complete ==> t.pieces[p].data == pieces[p]
    ensures
      var got := Retrieve(ctx, t, p).0.value;
      got.status != Corrupt && (got.status == Complete ==> got.data == pieces[p])
  {
    InitialHolds(Authentic(pieces), ctx, policy);
    RunKeeps(Authentic(pieces), ctx, policy, INITIAL, events, t);
    assert PieceShape(ctx, p, t.pieces[p]);
    if t.pieces[p].status == Complete {
      CompleteIsSettled(ctx, policy, t, p);
      assert Agrees(t.pieces[p].data, pieces[p], AwaitedIn(t, p));
    }
  }

  /** Whatever in-bounds blocks came, a piece handed out as complete has the right size and hash. */
  lemma RetrievedIsHashed(ctx: Context, policy: Policy, s: State, p: nat)
    requires ctx.Valid() && Shape(ctx, policy, s) && p < ctx.pieceCount
    ensures
      var (got, t) := Retrieve(ctx, s, p);
      && (got.Some? <==> p in s.pieces)
      && (got.Some? && got.value.status == Complete ==>
            |got.value.data| == ctx.PieceSize(p) && ctx.sha1(got.value.data) == ctx.pieceHashes[p])
      && (got.Some? && got.value.status in {Complete, Corrupt} <==>
            p in s.pieces && s.pieces[p].status == Complete && t.pieces == s.pieces - {p})
  {
    if p in s.pieces {
      assert PieceShape(ctx, p, s.pieces[p]);
      assert p in s.pieces && p !in s.pieces - {p};
    }
  }

  // ---------- progress ----------

  ghost function Receipts(events: seq<Event>, p: nat): nat
    decreases |events|
  {
    if events == [] then 0
    else Receipts(events[1..], p) +
         if events[0].Arrive? && events[0].message.Piece? && events[0].message.piece == p then 1 else 0
  }

  /** In a conserved state, a nonempty piece is complete exactly when no request for it is out. */
  lemma CompleteExactly(ctx: Context, policy: Policy, s: State, p: nat)
    requires ctx.Valid() && Shape(ctx, policy, s) && Conserved(s)
    requires p in s.pieces && p !in s.starting && 0 < ctx.PieceSize(p)
    ensures s.pieces[p].status == Complete <==> OutstandingFor(s, p) == {}
  {
    assert PieceShape(ctx, p, s.pieces[p]) && Balanced(s, p);
    AwaitedByPiece(Outstanding(s), p, |s.pieces[p].data|);
    assert OutstandingFor(s, p) == {} ==> AwaitedIn(s, p) == {};
    if s.pieces[p].status == Complete {
      CompleteIsSettled(ctx, policy, s, p);
    }
  }

  lemma EnqueueOther(ctx: Context, policy: Policy, s: State, q: uint32, p: nat)
    requires Setting(ctx, policy) && q != p
    ensures OutstandingFor(Enqueued(ctx, policy, s, q), p) == OutstandingFor(s, p)
  {
    SplitIsPartition(q, 0, ctx.PieceSize(q), policy.maxBlockBytes);
    EnqueueAddsSplit(ctx, policy, s, q);
  }

  lemma BeginOther(ctx: Context, policy: Policy, s: State, q: uint32, p: nat)
    requires Setting(ctx, policy) && q != p && p in s.pieces && p !in s.starting
    ensures Counted(s, Start(ctx, policy, s, q).1, p, 0)
  {
    var r := Registered(ctx, s, q);
    assert OutstandingFor(r, p) == OutstandingFor(s, p);
    EnqueueOther(ctx, policy, r, q, p);
  }

  lemma TurnCounts(policy: Policy, s: State, p: nat)
    requires 0 < s.senders && p in s.pieces && p !in s.starting
    ensures Counted(s, SendTurn(policy, s), p, 0)
  {
    if CanSend(policy, s) {
      assert s.pending == [s.pending[0]] + s.pending[1..];
    }
    assert OutstandingFor(SendTurn(policy, s), p) == OutstandingFor(s, p);
  }

  lemma ContinueOther(ctx: Context, policy: Policy, s: State, q: uint32, p: nat)
    requires Setting(ctx, policy) && q != p && p in s.pieces && p !in s.starting
    ensures Counted(s, Resume(ctx, policy, s, q), p, 0)
  {
    EnqueueOther(ctx, policy, s.(starting := s.starting - multiset{q}), q, p);
  }

  ghost predicate Counted(s: State, t: State, p: nat, received: nat) {
    p in t.pieces && p !in t.starting && |OutstandingFor(t, p)| + received == |OutstandingFor(s, p)|
  }

  lemma StepCounts(ctx: Context, policy: Policy, s: State, e: Event, p: nat)
    requires Setting(ctx, policy) && Conserved(s) && Enabled(Matching, ctx, s, e)
    requires p in s.pieces && p !in s.starting && (e.Collect? ==> e.piece != p)
    ensures Counted(s, Next(ctx, policy, s, e), p, Receipts([e], p))
  {
    hide Conserved, Counted;
    assert [e][1..] == [];
    match e
    case Begin(q) => BeginOther(ctx, policy, s, q, p);
    case Continue(q) => ContinueOther(ctx, policy, s, q, p);
    case Turn => TurnCounts(policy, s, p);
    case Collect(q) => CollectOther(ctx, s, q, p);
    case Arrive(m) =>
      if m.Piece? {
        BlockCounts(s, m, p);
      } else {
        MessageCounts(s, m, p);
      }
  }

  lemma CollectOther(ctx: Context, s: State, q: nat, p: nat)
    requires q < |ctx.pieceHashes| && p in s.pieces && p !in s.starting && q != p
    ensures Counted(s, Retrieve(ctx, s, q).1, p, 0)
  {
  }

  lemma BlockCounts(s: State, m: Wire.Message, p: nat)
    requires Conserved(s) && m.Piece? && Answers(s, m) && Fits(s, m) && p in s.pieces && p !in s.starting
    ensures Counted(s, Receive(s, m), p, if m.piece == p then 1 else 0)
  {
    var b := Block(m.piece, m.offset, |m.payload|);
    AnswerFits(s, m);
    AnswerRemovesOne(s, m);
    AnswerEffect(s, m);
    RemovedFor(s, Receive(s, m), b, p);
  }

  lemma RemovedFor(s: State, t: State, b: Block, p: nat)
    requires b in Outstanding(s) && Outstanding(t) == Outstanding(s) - {b}
    ensures |OutstandingFor(t, p)| + (if b.piece == p then 1 else 0) == |OutstandingFor(s, p)|
  {
    if b.piece == p {
      assert b in OutstandingFor(s, p);
      assert OutstandingFor(t, p) == OutstandingFor(s, p) - {b};
    } else {
      assert OutstandingFor(t, p) == OutstandingFor(s, p);
    }
  }

  lemma MessageCounts(s: State, m: Wire.Message, p: nat)
    requires !m.Piece? && p in s.pieces && p !in s.starting
    ensures Counted(s, Receive(s, m), p, 0)
  {
    if m.Choke? {
      ChokeOutstanding(s.(peer := HandledByPeer(s.peer, m)));
    }
  }

  lemma ChokeOutstanding(s: State)
    ensures Outstanding(Choked(s)) == Outstanding(s)
  {
    forall b ensures b in Outstanding(Choked(s)) <==> b in Outstanding(s) {
      ChokeLosesNothing(s, b);
      OutstandingByCount(s, b);
      OutstandingByCount(Choked(s), b);
    }
  }

  /**
   * Progress. As long as a piece is not collected, every block for it lowers its outstanding
   * requests by one and nothing else changes their number; so it is complete exactly when as many
   * blocks have come as there were requests.
   */
  lemma {:induction false} ReceiptsComplete(
    ctx: Context, policy: Policy, s: State, events: seq<Event>, t: State, p: nat)
    requires Setting(ctx, policy) && Invariant(Matching, ctx, policy, s)
    requires Reaches(Matching, ctx, policy, s, events, t)
    requires p in s.pieces && p !in s.starting && 0 < ctx.PieceSize(p)
    requires forall i :: 0 <= i < |events| && events[i].Collect? ==> events[i].piece != p
    ensures p in t.pieces && |OutstandingFor(t, p)| + Receipts(events, p) == |OutstandingFor(s, p)|
    ensures t.pieces[p].status == Complete <==> Receipts(events, p) == |OutstandingFor(s, p)|
    decreases |events|
  {
    hide Shape, Conserved, OutstandingFor;
    if events == [] {
      CompleteExactly(ctx, policy, s, p);
    } else {
      var next := Next(ctx, policy, s, events[0]);
      StepCounts(ctx, policy, s, events[0], p);
      StepKeeps(Matching, ctx, policy, s, events[0]);
      ReceiptsComplete(ctx, policy, next, events[1..], t, p);
      assert Receipts([events[0]], p) + Receipts(events[1..], p) == Receipts(events, p) by {
        assert [events[0]][1..] == [];
      }
    }
  }

  // ---------- no dead ends ----------

  /** Bytes the environment may bring for an active request. */
  ghost function Supply(env: Environment, b: Block): (payload: seq<byte>)
    ensures |payload| == b.length
  {
    if env.Authentic? && b.piece < |env.pieces| && b.offset + b.length <= |env.pieces[b.piece]|
    then env.pieces[b.piece][b.offset..b.offset + b.length]
    else Zeros(b.length)
  }

  ghost function ReplyTo(env: Environment, b: Block): Wire.Message {
    Wire.Piece(b.piece, b.offset, Supply(env, b))
  }

  lemma ActiveFits(env: Environment, ctx: Context, policy: Policy, s: State, b: Block)
    requires ctx.Valid() && Invariant(env, ctx, policy, s) && !env.InBounds? && b in s.active
    ensures b.piece in s.pieces && b.offset + b.length <= |s.pieces[b.piece].data|
    ensures env.Authentic? ==> b.piece < |env.pieces| && b.offset + b.length <= |env.pieces[b.piece]|
  {
    assert b in Outstanding(s);
    assert WellPlaced(s, b);
    assert PieceShape(ctx, b.piece, s.pieces[b.piece]);
    hide Conserved, Shape, Faithful;
  }

  lemma ReplyAnswers(env: Environment, ctx: Context, policy: Policy, s: State, b: Block)
    requires ctx.Valid() && Invariant(env, ctx, policy, s) && !env.InBounds? && b in s.active
    ensures ReplyTo(env, b).Piece? && Answers(s, ReplyTo(env, b))
    ensures Admits(env, s, ReplyTo(env, b)) && Fits(s, ReplyTo(env, b))
  {
    hide Invariant, Answers, Admits, Fits;
    ActiveFits(env, ctx, policy, s, b);
    Answering(env, s, b, Supply(env, b));
  }

  lemma Answering(env: Environment, s: State, b: Block, payload: seq<byte>)
    requires b in s.active && |payload| == b.length && !env.InBounds?
    requires b.piece in s.pieces && b.offset + b.length <= |s.pieces[b.piece].data|
    requires env.Authentic? ==>
      && b.piece < |env.pieces| && b.offset + b.length <= |env.pieces[b.piece]|
      && payload == env.pieces[b.piece][b.offset..b.offset + b.length]
    ensures
      var m := Wire.Piece(b.piece, b.offset, payload);
      Answers(s, m) && Admits(env, s, m) && Fits(s, m)
  {
  }

  /** The piece is still there, and less is to be done: fewer requests, fewer of them unsent, or nobody to wake. */
  ghost predicate Advances(s: State, t: State, p: nat) {
    && p in t.pieces && p !in t.starting
    && (|Outstanding(t)| < |Outstanding(s)|
        || (Outstanding(t) == Outstanding(s) && |t.pending| < |s.pending|)
        || (Outstanding(t) == Outstanding(s) && t.pending == s.pending && Asleep(s) && !Asleep(t)))
  }

  ghost predicate Asleep(s: State) {
    s.peer.selfChoked || s.senders == 0
  }

  lemma ReplyAdvances(s: State, m: Wire.Message, p: nat)
    requires Conserved(s) && m.Piece? && Answers(s, m) && Fits(s, m) && p in s.pieces && p !in s.starting
    ensures Advances(s, Receive(s, m), p)
  {
    AnswerFits(s, m);
    AnswerEffect(s, m);
    AnswerRemovesOne(s, m);
    hide Conserved, Outstanding, Receive;
  }

  lemma TurnAdvances(policy: Policy, s: State, p: nat)
    requires Conserved(s) && p in s.pieces && p !in s.starting && 0 < s.senders && CanSend(policy, s)
    ensures Advances(s, SendTurn(policy, s), p)
  {
    SendMovesOne(policy, s);
    SameBlocks(s, SendTurn(policy, s));
  }

  lemma WakeAdvances(s: State, p: nat)
    requires p in s.pieces && p !in s.starting && Asleep(s)
    ensures Advances(s, Receive(s, Wire.Unchoke), p)
  {
  }

  lemma UnfinishedHasWork(ctx: Context, policy: Policy, s: State, p: nat)
    requires ctx.Valid() && Shape(ctx, policy, s) && Conserved(s)
    requires p in s.pieces && p !in s.starting && 0 < ctx.PieceSize(p) && s.pieces[p].status != Complete
    ensures s.active != {} || s.pending != []
  {
    CompleteExactly(ctx, policy, s, p);
    hide Shape, Conserved;
    assert s.active == {} && s.pending == [] ==> OutstandingFor(s, p) == {};
  }

  lemma ArriveMove(env: Environment, ctx: Context, policy: Policy, s: State, p: nat, m: Wire.Message)
    requires Setting(ctx, policy) && Admits(env, s, m) && Fits(s, m) && Advances(s, Receive(s, m), p)
    ensures Enabled(env, ctx, s, Arrive(m)) && Advances(s, Next(ctx, policy, s, Arrive(m)), p)
  {
    hide Setting, Admits, Fits, Advances, Receive;
  }

  lemma ReplyMove(env: Environment, ctx: Context, policy: Policy, s: State, p: nat, b: Block)
    requires Setting(ctx, policy) && Invariant(env, ctx, policy, s) && !env.InBounds?
    requires p in s.pieces && p !in s.starting && b in s.active
    ensures ReplyTo(env, b).Piece? && Enabled(env, ctx, s, Arrive(ReplyTo(env, b)))
    ensures Advances(s, Next(ctx, policy, s, Arrive(ReplyTo(env, b))), p)
  {
    ReplyAnswers(env, ctx, policy, s, b);
    ReplyAdvances(s, ReplyTo(env, b), p);
    hide Invariant, Setting, Advances, Answers, Admits, Fits, Enabled, Next, Receive, ReplyTo;
    ArriveMove(env, ctx, policy, s, p, ReplyTo(env, b));
  }

  lemma WakeMove(env: Environment, ctx: Context, policy: Policy, s: State, p: nat)
    requires Setting(ctx, policy) && p in s.pieces && p !in s.starting && Asleep(s)
    ensures Enabled(env, ctx, s, Arrive(Wire.Unchoke)) && Advances(s, Next(ctx, policy, s, Arrive(Wire.Unchoke)), p)
  {
    WakeAdvances(s, p);
    hide Setting, Advances, Receive, Enabled, Next;
    ArriveMove(env, ctx, policy, s, p, Wire.Unchoke);
  }

  lemma TurnMove(env: Environment, ctx: Context, policy: Policy, s: State, p: nat)
    requires Setting(ctx, policy) && Conserved(s) && p in s.pieces && p !in s.starting
    requires 0 < s.senders && CanSend(policy, s)
    ensures Enabled(env, ctx, s, Turn) && Advances(s, Next(ctx, policy, s, Turn), p)
  {
    TurnAdvances(policy, s, p);
    hide Setting, Conserved, Advances, SendTurn;
  }

  /** While a piece is not complete, some step brings it closer. */
  lemma NextMove(env: Environment, ctx: Context, policy: Policy, s: State, p: nat) returns (e: Event)
    requires Setting(ctx, policy) && Invariant(env, ctx, policy, s) && !env.InBounds? && 0 < policy.maxRequests
    requires p in s.pieces && p !in s.starting && 0 < ctx.PieceSize(p) && s.pieces[p].status != Complete
    ensures (e.Turn? || e.Arrive?) && Enabled(env, ctx, s, e) && Advances(s, Next(ctx, policy, s, e), p)
  {
    UnfinishedHasWork(ctx, policy, s, p);
    hide Setting, Shape, Conserved, Faithful, Advances, Enabled, Next, ReplyTo;
    if s.active != {} {
      var b :| b in s.active;
      ReplyMove(env, ctx, policy, s, p, b);
      e := Arrive(ReplyTo(env, b));
    } else if Asleep(s) {
      WakeMove(env, ctx, policy, s, p);
      e := Arrive(Wire.Unchoke);
    } else {
      TurnMove(env, ctx, policy, s, p);
      e := Turn;
    }
  }

  /**
   * No dead ends. From every state that runs can reach, whatever was choked or queued so far, the
   * environment and the downloader can go on so that a piece past its set-up becomes complete.
   */
  lemma {:induction false} CanComplete(env: Environment, ctx: Context, policy: Policy, s: State, p: nat)
    returns (events: seq<Event>, t: State)
    requires Setting(ctx, policy) && Invariant(env, ctx, policy, s) && !env.InBounds? && 0 < policy.maxRequests
    requires p in s.pieces && p !in s.starting && 0 < ctx.PieceSize(p)
    ensures forall i :: 0 <= i < |events| ==> events[i].Turn? || events[i].Arrive?
    ensures Reaches(env, ctx, policy, s, events, t) && p in t.pieces && t.pieces[p].status == Complete
    decreases |Outstanding(s)|, |s.pending|, Asleep(s)
  {
    hide Invariant, Outstanding, Next, Asleep;
    if s.pieces[p].status == Complete {
      return [], s;
    }
    var e := NextMove(env, ctx, policy, s, p);
    StepKeeps(env, ctx, policy, s, e);
    var rest;
    rest, t := CanComplete(env, ctx, policy, Next(ctx, policy, s, e), p);
    events := [e] + rest;
    assert events[1..] == rest;
  }

  lemma {:induction false} DistinctElements(xs: seq<Block>)
    requires forall i, j :: 0 <= i < j < |xs| ==> xs[i] != xs[j]
    ensures |Elements(xs)| == |xs|
  {
    if xs != [] {
      DistinctElements(xs[1..]);
      assert xs == [xs[0]] + xs[1..];
      assert Elements(xs) == {xs[0]} + Elements(xs[1..]);
    }
  }

  lemma SplitElements(p: uint32, length: uint32, step: uint32)
    requires 0 < step
    ensures |Elements(SplitFrom(p, 0, length, step))| == CeilDiv(length, step)
    ensures forall b :: b in Elements(SplitFrom(p, 0, length, step)) ==> b.piece == p
  {
    SplitIsPartition(p, 0, length, step);
    SplitCount(p, 0, length, step);
    DistinctElements(SplitFrom(p, 0, length, step));
    if length == 0 {
      SmallDiv(step - 1, step);
    }
  }

  /** Queueing a fresh piece puts ceil(size / block) requests out. */
  lemma QueuedCount(ctx: Context, policy: Policy, s: State, p: uint32)
    requires Setting(ctx, policy)
    requires forall b :: b in Outstanding(s) ==> b.piece != p
    ensures
      |OutstandingFor(Enqueued(ctx, policy, s, p), p)| == CeilDiv(ctx.PieceSize(p), policy.maxBlockBytes)
  {
    var blocks := SplitFrom(p, 0, ctx.PieceSize(p), policy.maxBlockBytes);
    SplitElements(p, ctx.PieceSize(p), policy.maxBlockBytes);
    EnqueueAddsSplit(ctx, policy, s, p);
    assert OutstandingFor(Enqueued(ctx, policy, s, p), p) == Elements(blocks);
  }

  /** The step queues the requests of `p`: the call goes through at once, or goes on after Interested. */
  ghost predicate Queues(s: State, e: Event, p: uint32) {
    || e == Continue(p)
    || (e == Begin(p) && !s.peer.selfChoked && BitFields.Get(s.peer.remoteBitfield, p))
  }

  lemma QueuesAll(ctx: Context, policy: Policy, s: State, e: Event, p: uint32)
    requires Setting(ctx, policy) && Conserved(s) && Enabled(Matching, ctx, s, e) && Queues(s, e, p)
    ensures
      var t := Next(ctx, policy, s, e);
      && p in t.pieces && p !in t.starting
      && |OutstandingFor(t, p)| == CeilDiv(ctx.PieceSize(p), policy.maxBlockBytes)
  {
    if e.Begin? {
      var r := Registered(ctx, s, p);
      assert Outstanding(r) == Outstanding(s);
      hide Conserved;
      QueuedCount(ctx, policy, r, p);
    } else {
      var r := s.(starting := s.starting - multiset{p});
      assert Outstanding(r) == Outstanding(s);
      forall b | b in Outstanding(r) ensures b.piece != p {
        assert WellPlaced(s, b);
      }
      assert s.starting[p] == 1 && p in s.pieces;
      hide Conserved;
      QueuedCount(ctx, policy, r, p);
    }
  }

  /**
   * A piece from start to end. In every run, from the step that queues its requests on and as long as
   * nobody collects it, a piece of L bytes is complete exactly when ceil(L / block) blocks have come.
   */
  lemma PieceTakesItsBlocks(
    ctx: Context, policy: Policy, before: seq<Event>, s: State, e: Event, after: seq<Event>, t: State, p: uint32)
    requires Setting(ctx, policy) && 0 < ctx.PieceSize(p)
    requires Reaches(Matching, ctx, policy, INITIAL, before, s)
    requires Enabled(Matching, ctx, s, e) && Queues(s, e, p)
    requires Reaches(Matching, ctx, policy, Next(ctx, policy, s, e), after, t)
    requires forall i :: 0 <= i < |after| && after[i].Collect? ==> after[i].piece != p
    ensures p in t.pieces
    ensures t.pieces[p].status == Complete <==>
      Receipts(after, p) == CeilDiv(ctx.PieceSize(p), policy.maxBlockBytes)
  {
    InitialHolds(Matching, ctx, policy);
    RunKeeps(Matching, ctx, policy, INITIAL, before, s);
    StepKeeps(Matching, ctx, policy, s, e);
    QueuesAll(ctx, policy, s, e, p);
    hide Shape, Conserved, Queues, OutstandingFor;
    ReceiptsComplete(ctx, policy, Next(ctx, policy, s, e), after, t, p);
  }
}
