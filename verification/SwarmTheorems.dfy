/** The main results about the scheduler, over all its runs. */
module SwarmTheorems {
  import opened Bytes
  import opened TorrentContext
  import opened Swarm
  import opened SwarmProofs
  import A = SwarmAssign
  import R = SwarmRevoke
  import D = SwarmDone
  import Download
  import Runs = DownloadProofs
  import Steps = DownloadSteps

  // ---------- steps ----------

  /** What the step functions need; EnabledIsCallable shows that it always holds. */
  ghost predicate Callable(ctx: Context, s: State, e: Event) {
    match e
    case Include(_) => true
    case Assign(_, pool) => Live(s, pool)
    case Revoke(_, pool) => Live(s, pool)
    case IsDone(keys) => Grounded(ctx, s, keys)
    case Move(d, event) =>
      d in s.objects && OwnStep(event)
      && (event.Turn? ==> 0 < s.objects[d].state.senders)
      && (event.Arrive? ==> Download.Fits(s.objects[d].state, event.message))
  }

  ghost function Next(ctx: Context, policy: Download.Policy, s: State, e: Event): State
    requires Setting(ctx, policy) && Callable(ctx, s, e)
  {
    match e
    case Include(contacts) => Swarm.Include(s, contacts)
    case Assign(order, pool) => Swarm.Assign(ctx, policy, s, order, pool)
    case Revoke(inactive, pool) => Swarm.Revoke(s, inactive, pool)
    case IsDone(keys) => Swarm.IsDone(ctx, policy, s, keys).1
    case Move(d, event) => WithState(s, d, Runs.Next(ctx, policy, s.objects[d].state, event))
  }

  ghost predicate Reaches(
    env: Runs.Environment, ctx: Context, policy: Download.Policy, s: State, events: seq<Event>, t: State)
    requires Setting(ctx, policy)
    decreases |events|
  {
    if events == [] then t == s
    else
      && Enabled(env, ctx, s, events[0]) && Callable(ctx, s, events[0])
      && Reaches(env, ctx, policy, Next(ctx, policy, s, events[0]), events[1..], t)
  }

  /** A run goes on with any event that may happen at its end. */
  lemma {:induction false} ReachesMore(
    env: Runs.Environment, ctx: Context, policy: Download.Policy, s: State, events: seq<Event>, t: State, e: Event)
    requires Setting(ctx, policy) && Reaches(env, ctx, policy, s, events, t)
    requires Enabled(env, ctx, t, e) && Callable(ctx, t, e)
    ensures Reaches(env, ctx, policy, s, events + [e], Next(ctx, policy, t, e))
    decreases |events|
  {
    hide Enabled, Callable, Next, Setting;
    if events == [] {
      assert ([] + [e])[1..] == [];
      assert Reaches(env, ctx, policy, Next(ctx, policy, t, e), [], Next(ctx, policy, t, e));
    } else {
      ReachesMore(env, ctx, policy, Next(ctx, policy, s, events[0]), events[1..], t, e);
      assert (events + [e])[1..] == events[1..] + [e];
    }
  }

  /** An event that may happen never breaks a requirement of the code it runs. */
  lemma EnabledIsCallable(
    env: Runs.Environment, ctx: Context, policy: Download.Policy, vault: map<nat, seq<byte>>, s: State, e: Event)
    requires Setting(ctx, policy) && HashesMatch(env, ctx) && Invariant(env, ctx, policy, vault, s)
    requires Enabled(env, ctx, s, e)
    ensures Callable(ctx, s, e)
  {
    hide OnePerAddress, Bounded, HolderListed, EntriesHeld, Goods, ListedHolds, ListedMissing;
    match e
    case Include(_) =>
    case Assign(order, pool) => PoolIsLive(s, pool);
    case Revoke(inactive, pool) => PoolIsLive(s, pool);
    case IsDone(keys) => D.IsDoneKeeps(env, ctx, policy, vault, s, keys);
    case Move(_, _) =>
  }

  lemma PoolIsLive(s: State, pool: seq<Id>)
    requires Identities(s) && Enumerates(pool, s.peerPool.Keys)
    ensures Live(s, pool)
  {
    assert forall d :: d in pool ==> d in s.peerPool.Keys;
  }

  // ---------- a downloader's own step ----------

  lemma OwnStepEntries(ctx: Context, policy: Download.Policy, o: Download.State, e: Runs.Event)
    requires Setting(ctx, policy) && OwnStep(e)
    requires e.Turn? ==> 0 < o.senders
    requires e.Arrive? ==> Download.Fits(o, e.message)
    ensures Runs.Next(ctx, policy, o, e).pieces.Keys == o.pieces.Keys
  {
  }

  lemma MoveBooks(ctx: Context, s: State, d: Id, o: Download.State)
    requires Books(ctx, s) && d in s.objects && o.pieces.Keys == s.objects[d].state.pieces.Keys
    ensures Books(ctx, WithState(s, d, o))
  {
    D.SameLists(ctx, s, WithState(s, d, o));
    A.SameAddresses(s, WithState(s, d, o));
    MoveEntries(s, d, o);
  }

  lemma MoveEntries(s: State, d: Id, o: Download.State)
    requires EntriesHeld(s) && d in s.objects && o.pieces.Keys == s.objects[d].state.pieces.Keys
    ensures EntriesHeld(WithState(s, d, o))
  {
    var t := WithState(s, d, o);
    forall e, q | e in t.objects && q in t.objects[e].state.pieces ensures q < U32 && q in Held(t, e) {
      assert q in s.objects[e].state.pieces;
    }
  }

  lemma MoveKeeps(
    env: Runs.Environment, ctx: Context, policy: Download.Policy, vault: map<nat, seq<byte>>,
    s: State, d: Id, e: Runs.Event)
    requires Setting(ctx, policy) && Invariant(env, ctx, policy, vault, s)
    requires Callable(ctx, s, Move(d, e)) && Enabled(env, ctx, s, Move(d, e))
    ensures Invariant(env, ctx, policy, vault, Next(ctx, policy, s, Move(d, e)))
  {
    hide Runs.Invariant, Runs.Enabled, Runs.Next, Download.Fits;
    var o := s.objects[d].state;
    var next := Runs.Next(ctx, policy, o, e);
    assert Runs.Invariant(env, ctx, policy, o);
    OwnStepEntries(ctx, policy, o, e);
    Steps.StepKeeps(env, ctx, policy, o, e);
    MoveBooks(ctx, s, d, next);
    MoveLists(s, d, next);
    D.MoveGoods(env, ctx, policy, vault, s, d, next);
  }

  lemma MoveLists(s: State, d: Id, o: Download.State)
    requires ListedHolds(s) && ListedMissing(s) && d in s.objects
    ensures ListedHolds(WithState(s, d, o)) && ListedMissing(WithState(s, d, o))
  {
    var t := WithState(s, d, o);
    assert forall q :: Listed(t, q) == Listed(s, q);
    assert forall e :: Held(t, e) == Held(s, e);
  }

  // ---------- every step, every run ----------

  lemma StepKeeps(
    env: Runs.Environment, ctx: Context, policy: Download.Policy, vault: map<nat, seq<byte>>, s: State, e: Event)
    requires Setting(ctx, policy) && HashesMatch(env, ctx) && Invariant(env, ctx, policy, vault, s)
    requires Enabled(env, ctx, s, e) && Callable(ctx, s, e)
    ensures Invariant(env, ctx, policy, vault, Next(ctx, policy, s, e))
    ensures Next(ctx, policy, s, e).missing <= s.missing
  {
    match e
    case Include(contacts) =>
      IncludeKeeps(env, ctx, policy, vault, s, contacts);
      IncludeMissing(s, contacts);
    case Assign(order, pool) => A.AssignKeeps(env, ctx, policy, vault, s, order, pool);
    case Revoke(inactive, pool) =>
      R.RevokeKeeps(env, ctx, policy, vault, s, inactive, pool);
      R.RevokeResult(s, inactive, pool);
    case IsDone(keys) => D.IsDoneKeeps(env, ctx, policy, vault, s, keys);
    case Move(d, event) => MoveKeeps(env, ctx, policy, vault, s, d, event);
  }

  lemma {:induction false} IncludeMissing(s: State, contacts: seq<Contact>)
    ensures Swarm.Include(s, contacts).missing == s.missing
    decreases |contacts|
  {
    if contacts != [] {
      IncludeMissing(Admit(s, contacts[0]), contacts[1..]);
    }
  }

  lemma {:induction false} RunKeeps(
    env: Runs.Environment, ctx: Context, policy: Download.Policy, vault: map<nat, seq<byte>>,
    s: State, events: seq<Event>, t: State)
    requires Setting(ctx, policy) && HashesMatch(env, ctx) && Invariant(env, ctx, policy, vault, s)
    requires Reaches(env, ctx, policy, s, events, t)
    ensures Invariant(env, ctx, policy, vault, t)
    ensures t.missing <= s.missing
    decreases |events|
  {
    hide Invariant;
    if events != [] {
      StepKeeps(env, ctx, policy, vault, s, events[0]);
      RunKeeps(env, ctx, policy, vault, Next(ctx, policy, s, events[0]), events[1..], t);
    }
  }

  /** Every reachable state satisfies the invariant, relative to the vault the client started with. */
  lemma Reachable(
    env: Runs.Environment, ctx: Context, policy: Download.Policy, vault: map<nat, seq<byte>>,
    events: seq<Event>, t: State)
    requires Setting(ctx, policy) && HashesMatch(env, ctx)
    requires Reaches(env, ctx, policy, Initial(ctx, vault), events, t)
    ensures Invariant(env, ctx, policy, vault, t)
  {
    InitialHolds(env, ctx, policy, vault);
    RunKeeps(env, ctx, policy, vault, Initial(ctx, vault), events, t);
  }

  /**
   * Composition. Over every run in which blocks answer requests, `download_piece` was only ever
   * called on a downloader with no entry and no request for that piece: by `assign`, and again
   * after a corrupt piece, also when another downloader had finished it. Without that assumption
   * on the blocks there was still never an entry. And the erase in `is_done` always found its element.
   */
  lemma Composition(
    env: Runs.Environment, ctx: Context, policy: Download.Policy, vault: map<nat, seq<byte>>,
    events: seq<Event>, t: State, i: nat)
    requires Setting(ctx, policy) && HashesMatch(env, ctx) && i < |t.history|
    requires Reaches(env, ctx, policy, Initial(ctx, vault), events, t)
    ensures t.history[i].Asked? ==> !t.history[i].hadEntry && (!env.InBounds? ==> !t.history[i].hadRequests)
    ensures t.history[i].Erased? ==> t.history[i].found
    ensures t.history[i].Judged? && env.Authentic? ==> !t.history[i].corrupt
  {
    Reachable(env, ctx, policy, vault, events, t);
    assert Safe(env, t.history[i]);
  }

  /** The assignment relation, in every reachable state, whatever in-bounds blocks arrive. */
  lemma AssignmentRelation(
    ctx: Context, policy: Download.Policy, vault: map<nat, seq<byte>>, events: seq<Event>, t: State, p: uint32, d: Id)
    requires Setting(ctx, policy) && Reaches(Runs.InBounds, ctx, policy, Initial(ctx, vault), events, t)
    ensures |Listed(t, p)| <= 2 && NoDuplicates(Listed(t, p))
    ensures |Held(t, d)| <= 2 && NoDuplicates(Held(t, d))
    ensures d in Listed(t, p) ==> d in t.peerPool && p in Held(t, d)
    ensures p in t.missing ==> (d in Listed(t, p) <==> p in Held(t, d))
    ensures Listed(t, p) != [] ==> p in t.missing
    ensures d in t.objects && p in t.objects[d].state.pieces ==> p in Held(t, d)
  {
    Reachable(Runs.InBounds, ctx, policy, vault, events, t);
    assert p in t.pieceDownloaders ==> Listed(t, p) == t.pieceDownloaders[p];
    assert d in t.peerPool ==> Held(t, d) == t.peerPool[d];
  }

  /**
   * Storage. From any reachable state `s`, later states keep every stored piece as it is, the
   * missing set never grows and is always exactly the unstored indices, and each piece stored
   * since has its size and its hash, whatever in-bounds blocks the peers sent.
   */
  lemma StorageAgreement(
    ctx: Context, policy: Download.Policy, vault: map<nat, seq<byte>>,
    before: seq<Event>, s: State, after: seq<Event>, t: State, p: uint32)
    requires Setting(ctx, policy) && Reaches(Runs.InBounds, ctx, policy, Initial(ctx, vault), before, s)
    requires Reaches(Runs.InBounds, ctx, policy, s, after, t)
    ensures p in t.missing <==> p < ctx.pieceCount && p !in t.vault
    ensures t.missing <= s.missing
    ensures p in s.vault ==> p in t.vault && t.vault[p] == s.vault[p]
    ensures p in t.vault && p !in s.vault ==>
      p < ctx.pieceCount && |t.vault[p]| == ctx.PieceSize(p) && ctx.sha1(t.vault[p]) == ctx.pieceHashes[p]
  {
    Reachable(Runs.InBounds, ctx, policy, vault, before, s);
    RebaseVault(Runs.InBounds, ctx, policy, vault, s);
    RunKeeps(Runs.InBounds, ctx, policy, s.vault, s, after, t);
    assert p in t.vault && p !in s.vault ==> GoodPiece(Runs.InBounds, ctx, p, t.vault[p]);
  }

  lemma RebaseVault(
    env: Runs.Environment, ctx: Context, policy: Download.Policy, vault: map<nat, seq<byte>>, s: State)
    requires ctx.Valid() && Invariant(env, ctx, policy, vault, s)
    ensures Invariant(env, ctx, policy, s.vault, s)
  {
  }

  /** `is_done` answers true exactly when, with its own work done, every piece is stored. */
  lemma DoneExactly(
    ctx: Context, policy: Download.Policy, vault: map<nat, seq<byte>>, events: seq<Event>, s: State, keys: seq<uint32>)
    requires Setting(ctx, policy) && Reaches(Runs.InBounds, ctx, policy, Initial(ctx, vault), events, s)
    requires Enumerates(keys, s.pieceDownloaders.Keys)
    ensures Grounded(ctx, s, keys)
    ensures
      var (done, t) := Swarm.IsDone(ctx, policy, s, keys);
      done <==> forall p :: 0 <= p < ctx.pieceCount ==> p in t.vault
  {
    Reachable(Runs.InBounds, ctx, policy, vault, events, s);
    D.IsDoneKeeps(Runs.InBounds, ctx, policy, vault, s, keys);
    var (done, t) := Swarm.IsDone(ctx, policy, s, keys);
    MissingNothing(ctx, t);
  }

  lemma MissingNothing(ctx: Context, t: State)
    requires MissingExact(ctx, t)
    ensures t.missing == {} <==> forall p :: 0 <= p < ctx.pieceCount ==> p in t.vault
  {
    if t.missing == {} {
      forall p | 0 <= p < ctx.pieceCount ensures p in t.vault {
        assert p !in t.missing;
      }
    }
  }

  /**
   * A piece of no bytes that is not in the vault is never stored in a run whose blocks answer requests,
   * since there is nothing to request: it stays missing, and `is_done` stays false.
   */
  lemma EmptyPieceStaysMissing(
    env: Runs.Environment, ctx: Context, policy: Download.Policy, vault: map<nat, seq<byte>>,
    events: seq<Event>, t: State, p: uint32)
    requires Setting(ctx, policy) && HashesMatch(env, ctx) && !env.InBounds?
    requires Reaches(env, ctx, policy, Initial(ctx, vault), events, t)
    requires p < ctx.pieceCount && ctx.PieceSize(p) == 0 && p !in vault
    ensures p in t.missing && p !in t.vault
  {
    Reachable(env, ctx, policy, vault, events, t);
    assert p in t.vault ==> GoodPiece(env, ctx, p, t.vault[p]);
  }

  /**
   * The request window of every live downloader, in every run of the swarm with in-bounds blocks, also
   * where a corrupt piece is asked for again while requests of its first download are outstanding.
   */
  lemma WindowInSwarm(
    ctx: Context, policy: Download.Policy, vault: map<nat, seq<byte>>, events: seq<Event>, t: State, d: Id)
    requires Setting(ctx, policy) && Reaches(Runs.InBounds, ctx, policy, Initial(ctx, vault), events, t)
    requires d in t.objects
    ensures
      var o := t.objects[d].state;
      && |o.active| <= policy.maxRequests
      && (o.peer.selfChoked ==> o.active == {})
      && (o.senders == 0 && !o.peer.selfChoked ==> o.pending == [] || |o.active| == policy.maxRequests)
  {
    Reachable(Runs.InBounds, ctx, policy, vault, events, t);
    assert Runs.Invariant(Runs.InBounds, ctx, policy, t.objects[d].state);
  }

  /** No address has two downloaders, in any reachable state, however often a candidate list repeats it. */
  lemma ConnectionUniqueness(
    ctx: Context, policy: Download.Policy, vault: map<nat, seq<byte>>, events: seq<Event>, t: State)
    requires Setting(ctx, policy) && Reaches(Runs.InBounds, ctx, policy, Initial(ctx, vault), events, t)
    ensures t.peerPool.Keys == t.objects.Keys
    ensures forall d, e :: d in t.peerPool && e in t.peerPool && AddressOf(t, d) == AddressOf(t, e) ==> d == e
    ensures forall a :: a in t.connections <==> exists d :: d in t.objects && AddressOf(t, d) == a
  {
    Reachable(Runs.InBounds, ctx, policy, vault, events, t);
  }
}
