/** A run in which a bitfield message clears a bit, and the retry after a corrupt piece is refused. */
module LostBit {
  import opened Bytes
  import opened TorrentContext
  import opened Swarm
  import opened SwarmProofs
  import BitFields
  import Download
  import Wire
  import Runs = DownloadProofs
  import Theorems = SwarmTheorems

  const POLICY := Download.DEFAULT_POLICY
  const CONTACT := Contact(1, 6881)
  const ONE := Download.Block(0, 0, 1)

  /** One piece of one byte, which is not the byte 7. */
  ghost predicate OneByte(ctx: Context) {
    Setting(ctx, POLICY) && ctx.pieceCount == 1 && ctx.PieceSize(0) == 1 && ctx.sha1([7]) != ctx.pieceHashes[0]
  }

  // ---------- the states of the one downloader ----------

  function Ready(): Download.State {
    Download.INITIAL.(peer := Download.PeerStatus(false, false, BitFields.OnlyFirst()), senders := 1)
  }

  function Asked(): Download.State {
    Ready().(pieces := map[0 := Download.FilePiece(0, Download.Pending, [0], 0)], pending := [ONE], senders := 2)
  }

  function Sent(): Download.State {
    Asked().(pending := [], active := {ONE})
  }

  function Filled(): Download.State {
    Sent().(pieces := map[0 := Download.FilePiece(0, Download.Complete, [7], 1)], active := {}, senders := 3)
  }

  function Bitless(): Download.State {
    Filled().(peer := Download.PeerStatus(false, false, []))
  }

  function Emptied(): Download.State {
    Bitless().(pieces := map[])
  }

  // ---------- the states of the strategy ----------

  function Joined(ctx: Context, o: Download.State): State {
    Initial(ctx, map[]).(
      connections := map[1 := CONTACT], peerPool := map[0 := []], objects := map[0 := Remote(CONTACT, o)], nextId := 1)
  }

  function Assigned(ctx: Context, o: Download.State, history: seq<Observation>): State {
    Joined(ctx, o).(pieceDownloaders := map[0 := [0]], peerPool := map[0 := [0]], history := history)
  }

  const FIRST := Swarm.Asked(0, 0, false, false)

  // ---------- the steps ----------

  lemma Joins(ctx: Context)
    ensures Swarm.Include(Initial(ctx, map[]), [CONTACT]) == Joined(ctx, Download.INITIAL)
  {
    assert [CONTACT][1..] == [];
  }

  lemma Asks(ctx: Context)
    requires OneByte(ctx)
    ensures Download.Start(ctx, POLICY, Ready(), 0) == (true, Asked())
  {
    BitFields.MarkChangesOneBit([], 0, true, 0);
    assert Download.SplitFrom(0, 8192, 1, 8192) == [];
    assert Download.SplitFrom(0, 0, 1, 8192) == [ONE];
    assert Zeros(1) == [0] && [] + [ONE] == [ONE];
    var r := Download.Registered(ctx, Ready(), 0);
    assert r.pieces == Asked().pieces;
    assert Download.Enqueued(ctx, POLICY, r, 0) == Asked();
  }

  lemma Answers()
    ensures
      var m := Wire.Piece(0, 0, [7]);
      Download.Fits(Sent(), m) && Runs.Answers(Sent(), m) && Download.Receive(Sent(), m) == Filled()
  {
    assert Download.Overwritten([0], 0, [7]) == [7];
    assert {ONE} - {ONE} == {};
  }

  lemma Empties(ctx: Context)
    requires OneByte(ctx)
    ensures
      var (got, t) := Download.Retrieve(ctx, Bitless(), 0);
      && got.Some? && got.value.status == Download.Corrupt && t == Emptied()
      && Download.Start(ctx, POLICY, Emptied(), 0) == (false, Emptied())
  {
    assert map[0 as nat := Download.FilePiece(0, Download.Complete, [7], 1)] - {0} == map[];
  }

  lemma Gives(ctx: Context)
    requires OneByte(ctx)
    ensures Visit(ctx, POLICY, Joined(ctx, Ready()), 0, [0]) == Assigned(ctx, Asked(), [FIRST])
  {
    Asks(ctx);
    BitFields.MarkChangesOneBit([], 0, true, 0);
    hide Download.Start, BitFields.Get;
    var s := Joined(ctx, Ready());
    var t := Touch(s, 0);
    assert Held(t, 0) == [] && Listed(t, 0) == [] && [] + [0] == [0];
    assert !HasRequests(Ready(), 0);
    assert Ask(ctx, POLICY, t, 0, 0).1 == WithState(t, 0, Asked()).(history := [FIRST]);
    assert Offer(ctx, POLICY, t, 0, [0]) == Recorded(Ask(ctx, POLICY, t, 0, 0).1, 0, 0);
  }

  lemma GivesOnce(ctx: Context, s: State)
    requires OneByte(ctx) && s == Assigned(ctx, Asked(), [FIRST])
    ensures Visit(ctx, POLICY, s, 0, [0]) == s
  {
    assert Touch(s, 0) == s;
    assert Offer(ctx, POLICY, s, 0, [0][1..]) == s;
  }

  lemma Assigns(ctx: Context)
    requires OneByte(ctx)
    ensures Swarm.Assign(ctx, POLICY, Joined(ctx, Ready()), [0], [0]) == Assigned(ctx, Asked(), [FIRST])
  {
    var s, t := Joined(ctx, Ready()), Assigned(ctx, Asked(), [FIRST]);
    Gives(ctx);
    GivesOnce(ctx, t);
    hide Visit;
    assert [0][1..] == [];
    assert Pass(ctx, POLICY, s, [0], [0]) == Pass(ctx, POLICY, t, [], [0]) == t;
    assert Pass(ctx, POLICY, t, [0], [0]) == Pass(ctx, POLICY, t, [], [0]) == t;
    hide Pass;
    assert Passes(ctx, POLICY, t, [0], [0], 1) == Passes(ctx, POLICY, t, [0], [0], 0);
  }

  lemma Refused(ctx: Context)
    requires OneByte(ctx)
    ensures
      var s := Assigned(ctx, Bitless(), [FIRST]);
      Swarm.IsDone(ctx, POLICY, s, [0]) ==
        (false, Assigned(ctx, Emptied(), [FIRST, Judged(0, 0, true), Swarm.Asked(0, 0, false, false)]))
  {
    Empties(ctx);
    hide Download.Retrieve, Download.Start;
    var s := Assigned(ctx, Bitless(), [FIRST]);
    var t := Assigned(ctx, Emptied(), [FIRST, Judged(0, 0, true), Swarm.Asked(0, 0, false, false)]);
    assert !HasRequests(Emptied(), 0);
    var judged := Assigned(ctx, Emptied(), [FIRST, Judged(0, 0, true)]);
    assert WithState(s, 0, Emptied()).(history := [FIRST] + [Judged(0, 0, true)]) == judged;
    assert Ask(ctx, POLICY, judged, 0, 0).1 == t;
    assert Collect(ctx, POLICY, s, 0, 0) == (false, t);
    hide Collect;
    assert [0][1..] == [];
    assert CollectFrom(ctx, POLICY, s, 0, [0]) == (false, t);
    hide CollectFrom;
    assert CollectAll(ctx, POLICY, t, []) == ({}, t);
    var none: set<uint32> := {};
    assert none + none == none;
    assert CollectAll(ctx, POLICY, s, [0]) == ({}, t);
    assert t.pieceDownloaders - {} == t.pieceDownloaders;
  }

  // ---------- the run ----------

  lemma Moves(ctx: Context, history: seq<Observation>, events: seq<Event>, o: Download.State, e: Runs.Event)
    returns (more: seq<Event>)
    requires OneByte(ctx) && OwnStep(e) && Runs.Enabled(Runs.Matching, ctx, o, e)
    requires Theorems.Reaches(Runs.Matching, ctx, POLICY, Initial(ctx, map[]), events, Assigned(ctx, o, history))
    ensures Theorems.Reaches(
      Runs.Matching, ctx, POLICY, Initial(ctx, map[]), more, Assigned(ctx, Runs.Next(ctx, POLICY, o, e), history))
  {
    hide Runs.Next, Theorems.Reaches;
    var s := Assigned(ctx, o, history);
    Theorems.ReachesMore(Runs.Matching, ctx, POLICY, Initial(ctx, map[]), events, s, Move(0, e));
    more := events + [Move(0, e)];
    assert Theorems.Next(ctx, POLICY, s, Move(0, e)) == Assigned(ctx, Runs.Next(ctx, POLICY, o, e), history);
  }

  lemma MovesBefore(ctx: Context, events: seq<Event>, o: Download.State, e: Runs.Event) returns (more: seq<Event>)
    requires OneByte(ctx) && OwnStep(e) && Runs.Enabled(Runs.Matching, ctx, o, e)
    requires Theorems.Reaches(Runs.Matching, ctx, POLICY, Initial(ctx, map[]), events, Joined(ctx, o))
    ensures Theorems.Reaches(
      Runs.Matching, ctx, POLICY, Initial(ctx, map[]), more, Joined(ctx, Runs.Next(ctx, POLICY, o, e)))
  {
    hide Runs.Next, Theorems.Reaches;
    var s := Joined(ctx, o);
    Theorems.ReachesMore(Runs.Matching, ctx, POLICY, Initial(ctx, map[]), events, s, Move(0, e));
    more := events + [Move(0, e)];
    assert Theorems.Next(ctx, POLICY, s, Move(0, e)) == Joined(ctx, Runs.Next(ctx, POLICY, o, e));
  }

  lemma ReachesReady(ctx: Context) returns (events: seq<Event>)
    requires OneByte(ctx)
    ensures Theorems.Reaches(Runs.Matching, ctx, POLICY, Initial(ctx, map[]), events, Joined(ctx, Ready()))
  {
    var s := Initial(ctx, map[]);
    Joins(ctx);
    events := [];
    assert Theorems.Reaches(Runs.Matching, ctx, POLICY, s, events, s);
    hide Theorems.Reaches, BitFields.Marked;
    Theorems.ReachesMore(Runs.Matching, ctx, POLICY, s, events, s, Include([CONTACT]));
    events := events + [Include([CONTACT])];
    var o := Download.INITIAL;
    events := MovesBefore(ctx, events, o, Runs.Arrive(Wire.Have(0)));
    o := Runs.Next(ctx, POLICY, o, Runs.Arrive(Wire.Have(0)));
    events := MovesBefore(ctx, events, o, Runs.Arrive(Wire.Unchoke));
    assert Runs.Next(ctx, POLICY, o, Runs.Arrive(Wire.Unchoke)) == Ready();
  }

  lemma ReachesAssigned(ctx: Context) returns (events: seq<Event>)
    requires OneByte(ctx)
    ensures Theorems.Reaches(
      Runs.Matching, ctx, POLICY, Initial(ctx, map[]), events, Assigned(ctx, Asked(), [FIRST]))
  {
    events := ReachesReady(ctx);
    Assigns(ctx);
    AssignMayHappen(ctx);
    hide Theorems.Reaches, Theorems.Callable, Enabled, Swarm.Assign, Joined, Assigned;
    Theorems.ReachesMore(
      Runs.Matching, ctx, POLICY, Initial(ctx, map[]), events, Joined(ctx, Ready()), Assign([0], [0]));
    events := events + [Assign([0], [0])];
  }

  lemma AssignMayHappen(ctx: Context)
    requires OneByte(ctx)
    ensures Enabled(Runs.Matching, ctx, Joined(ctx, Ready()), Assign([0], [0]))
    ensures Theorems.Callable(ctx, Joined(ctx, Ready()), Assign([0], [0]))
  {
    hide Ready;
    var s := Joined(ctx, Ready());
    assert Enumerates([0 as uint32], s.missing) && Enumerates([0 as Id], s.peerPool.Keys);
  }

  lemma ReachesBitless(ctx: Context) returns (events: seq<Event>)
    requires OneByte(ctx)
    ensures Theorems.Reaches(
      Runs.Matching, ctx, POLICY, Initial(ctx, map[]), events, Assigned(ctx, Bitless(), [FIRST]))
  {
    events := ReachesAssigned(ctx);
    Answers();
    assert {} + {ONE} == {ONE} && [ONE][1..] == [];
    assert Runs.Next(ctx, POLICY, Asked(), Runs.Turn) == Sent();
    assert Runs.Next(ctx, POLICY, Filled(), Runs.Arrive(Wire.BitField([]))) == Bitless();
    hide Theorems.Reaches, Download.Receive, Download.SendTurn, Runs.Answers, BitFields.Marked;
    events := Moves(ctx, [FIRST], events, Asked(), Runs.Turn);
    events := Moves(ctx, [FIRST], events, Sent(), Runs.Arrive(Wire.Piece(0, 0, [7])));
    events := Moves(ctx, [FIRST], events, Filled(), Runs.Arrive(Wire.BitField([])));
  }

  /**
   * There is a run, all of whose blocks answer requests, that ends in `is_done` with a downloader that
   * is listed under a missing piece and holds it, but has no entry and no request for it: its piece was
   * corrupt, and the retry was refused because its bitfield had lost the bit.
   */
  lemma RetryIsRefused(ctx: Context) returns (events: seq<Event>, t: State)
    requires OneByte(ctx)
    ensures Theorems.Reaches(Runs.Matching, ctx, POLICY, Initial(ctx, map[]), events, t)
    ensures 0 in t.missing && 0 in Listed(t, 0) && 0 in Held(t, 0) && 0 in t.objects
    ensures t.objects[0].state.pieces == map[] && !HasRequests(t.objects[0].state, 0)
  {
    events := ReachesBitless(ctx);
    Refused(ctx);
    hide Theorems.Reaches, Swarm.IsDone, Bitless;
    var s, e := Assigned(ctx, Bitless(), [FIRST]), IsDone([0]);
    assert Enumerates([0 as uint32], s.pieceDownloaders.Keys);
    Theorems.ReachesMore(Runs.Matching, ctx, POLICY, Initial(ctx, map[]), events, s, e);
    events := events + [e];
    t := Theorems.Next(ctx, POLICY, s, e);
  }
}
