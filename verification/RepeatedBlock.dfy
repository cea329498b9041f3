/** A run that the client's own policy allows, in which a block arrives twice. */
module RepeatedBlock {
  import opened Bytes
  import opened TorrentContext
  import opened Download
  import opened DownloadProofs
  import BitFields
  import Wire

  const HALF: uint32 := 8192
  const FIRST := Block(0, 0, HALF)
  const SECOND := Block(0, HALF, HALF)

  function Reply(): Wire.Message {
    Wire.Piece(0, 0, Zeros(HALF))
  }

  /** The peer has the piece and has unchoked the client. */
  function Ready(): State {
    INITIAL.(peer := PeerStatus(false, false, BitFields.OnlyFirst()), senders := 1)
  }

  function Asked(piece: FilePiece, pending: seq<Block>, active: set<Block>, senders: nat): State {
    Ready().(pieces := map[0 := piece], pending := pending, active := active, senders := senders)
  }

  const EMPTY := FilePiece(0, Pending, Zeros(16384), 0)
  const HALF_FULL := FilePiece(0, Active, Overwritten(Zeros(16384), 0, Zeros(HALF)), HALF)
  const FULL := FilePiece(0, Complete, Overwritten(Overwritten(Zeros(16384), 0, Zeros(HALF)), 0, Zeros(HALF)), 16384)

  ghost predicate Fitting(ctx: Context) {
    Setting(ctx, DEFAULT_POLICY) && 0 < ctx.pieceCount && ctx.PieceSize(0) == 16384
  }

  lemma BecomesReady()
    ensures
      var s := Receive(INITIAL, Wire.Have(0));
      Receive(s, Wire.Unchoke) == Ready()
  {
  }

  lemma SplitInTwo()
    ensures SplitFrom(0, 0, 16384, HALF) == [FIRST, SECOND]
  {
    assert SplitFrom(0, 16384, 16384, HALF) == [];
    assert SplitFrom(0, 8192, 16384, HALF) == [SECOND];
  }

  lemma Begins(ctx: Context)
    requires Fitting(ctx)
    ensures Enabled(Matching, ctx, Ready(), Begin(0))
    ensures Next(ctx, DEFAULT_POLICY, Ready(), Begin(0)) == Asked(EMPTY, [FIRST, SECOND], {}, 2)
  {
    SplitInTwo();
    BitFields.MarkChangesOneBit([], 0, true, 0);
  }

  lemma Sends()
    ensures
      var s := SendTurn(DEFAULT_POLICY, Asked(EMPTY, [FIRST, SECOND], {}, 2));
      && s == Asked(EMPTY, [SECOND], {FIRST}, 2)
      && SendTurn(DEFAULT_POLICY, s) == Asked(EMPTY, [], {FIRST, SECOND}, 2)
  {
    assert {} + {FIRST} == {FIRST} && {FIRST} + {SECOND} == {FIRST, SECOND};
  }

  lemma Answered()
    ensures
      var s := Asked(EMPTY, [], {FIRST, SECOND}, 2);
      Answers(s, Reply()) && Fits(s, Reply()) && Receive(s, Reply()) == Asked(HALF_FULL, [], {SECOND}, 3)
  {
    SmallMod(HALF, U32);
    assert {FIRST, SECOND} - {FIRST} == {SECOND};
    assert map[0 as nat := EMPTY][0 := HALF_FULL] == map[0 := HALF_FULL];
  }

  lemma AnsweredAgain()
    ensures
      var s := Asked(HALF_FULL, [], {SECOND}, 3);
      Fits(s, Reply()) && Receive(s, Reply()) == Asked(FULL, [], {SECOND}, 4)
  {
    SmallMod(HALF, U32);
    SmallMod(HALF + HALF, U32);
    assert {SECOND} - {FIRST} == {SECOND};
    assert map[0 as nat := HALF_FULL][0 := FULL] == map[0 := FULL];
  }

  /** Up to the two requests, and the answer to one of them. */
  function Once(): seq<Event> {
    [Arrive(Wire.Have(0)), Arrive(Wire.Unchoke), Begin(0), Turn, Turn, Arrive(Reply())]
  }

  lemma ReachesReady(env: Environment, ctx: Context) returns (events: seq<Event>)
    requires Fitting(ctx)
    ensures events == [Arrive(Wire.Have(0)), Arrive(Wire.Unchoke)]
    ensures Reaches(env, ctx, DEFAULT_POLICY, INITIAL, events, Ready())
  {
    BecomesReady();
    hide Setting, Receive;
    assert Reaches(env, ctx, DEFAULT_POLICY, INITIAL, [], INITIAL);
    events := Extended(env, ctx, [], INITIAL, Arrive(Wire.Have(0)));
    events := Extended(env, ctx, events, Receive(INITIAL, Wire.Have(0)), Arrive(Wire.Unchoke));
  }

  lemma AnsweredOnce(env: Environment, ctx: Context)
    requires Fitting(ctx) && (env.InBounds? || env.Matching?)
    ensures Reaches(env, ctx, DEFAULT_POLICY, INITIAL, Once(), Asked(HALF_FULL, [], {SECOND}, 3))
  {
    Begins(ctx);
    Sends();
    Answered();
    hide Setting, Receive, SendTurn, Start, Answers, Fresh;
    var events := ReachesReady(env, ctx);
    events := Extended(env, ctx, events, Ready(), Begin(0));
    events := Extended(env, ctx, events, Asked(EMPTY, [FIRST, SECOND], {}, 2), Turn);
    events := Extended(env, ctx, events, Asked(EMPTY, [SECOND], {FIRST}, 2), Turn);
    events := Extended(env, ctx, events, Asked(EMPTY, [], {FIRST, SECOND}, 2), Arrive(Reply()));
    assert events == Once();
  }

  lemma Extended(env: Environment, ctx: Context, events: seq<Event>, t: State, e: Event) returns (more: seq<Event>)
    requires Setting(ctx, DEFAULT_POLICY) && Reaches(env, ctx, DEFAULT_POLICY, INITIAL, events, t)
    requires Enabled(env, ctx, t, e)
    ensures Reaches(env, ctx, DEFAULT_POLICY, INITIAL, more, Next(ctx, DEFAULT_POLICY, t, e))
    ensures more == events + [e]
  {
    ReachesMore(env, ctx, DEFAULT_POLICY, INITIAL, events, t, e);
    more := events + [e];
  }

  lemma StillAwaited()
    ensures !Conserved(Asked(FULL, [], {SECOND}, 4))
  {
    var t := Asked(FULL, [], {SECOND}, 4);
    assert SECOND in Outstanding(t) && Covers(SECOND, 0, HALF);
    assert HALF in AwaitedIn(t, 0);
    assert !Balanced(t, 0);
  }

  /**
   * With the client's own policy and a piece of 16384 bytes there is a run, all of whose blocks answer
   * requests, whose last block only has to arrive once more for the piece to be complete while its
   * other half is still requested.
   */
  lemma RepeatedBlockBreaksConservation(ctx: Context) returns (s: State, t: State)
    requires Fitting(ctx)
    ensures Reaches(Matching, ctx, DEFAULT_POLICY, INITIAL, Once(), s)
    ensures Reaches(InBounds, ctx, DEFAULT_POLICY, INITIAL, Once() + [Arrive(Reply())], t)
    ensures 0 in t.pieces && t.pieces[0].status == Complete && SECOND in t.active && !Conserved(t)
  {
    s, t := Asked(HALF_FULL, [], {SECOND}, 3), Asked(FULL, [], {SECOND}, 4);
    AnsweredOnce(Matching, ctx);
    AnsweredOnce(InBounds, ctx);
    AnsweredAgain();
    StillAwaited();
    hide Once, Conserved, Receive, Setting;
    var events := Extended(InBounds, ctx, Once(), s, Arrive(Reply()));
  }
}
