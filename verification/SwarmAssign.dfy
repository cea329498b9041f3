/** `assign`: it keeps the invariant, and it leaves no piece that could still be handed out. */
module SwarmAssign {
  import opened Bytes
  import opened TorrentContext
  import opened Swarm
  import opened SwarmProofs
  import Download
  import Runs = DownloadProofs
  import Steps = DownloadSteps

  lemma TouchKeeps(
    env: Runs.Environment, ctx: Context, policy: Download.Policy, vault: map<nat, seq<byte>>, s: State, p: uint32)
    requires ctx.Valid() && Invariant(env, ctx, policy, vault, s) && p < ctx.pieceCount
    ensures Invariant(env, ctx, policy, vault, Touch(s, p))
    ensures forall q :: Listed(Touch(s, p), q) == Listed(s, q)
  {
    TouchedBooks(s, p);
    SameAddresses(s, Touch(s, p));
    TouchedGoods(env, ctx, policy, vault, s, p);
    TouchedBounds(ctx, s, p);
    hide Goods, Identities, OnePerAddress, Bounded, HolderListed, EntriesHeld, ListedHolds, ListedMissing;
  }

  lemma TouchedBounds(ctx: Context, s: State, p: uint32)
    requires Identities(s) && Bounded(ctx, s) && EntriesHeld(s) && p < ctx.pieceCount
    ensures Identities(Touch(s, p)) && Bounded(ctx, Touch(s, p)) && EntriesHeld(Touch(s, p))
  {
    assert p in s.pieceDownloaders ==> Listed(s, p) == s.pieceDownloaders[p];
  }

  lemma TouchedGoods(
    env: Runs.Environment, ctx: Context, policy: Download.Policy, vault: map<nat, seq<byte>>, s: State, p: uint32)
    requires ctx.Valid() && Goods(env, ctx, policy, vault, s)
    ensures Goods(env, ctx, policy, vault, Touch(s, p))
  {
    hide Runs.Invariant, GoodPiece, Safe;
  }

  lemma TouchedBooks(s: State, p: uint32)
    ensures forall q :: Listed(Touch(s, p), q) == Listed(s, q)
    ensures forall d :: Held(Touch(s, p), d) == Held(s, d)
    ensures HolderListed(s) ==> HolderListed(Touch(s, p))
    ensures ListedHolds(s) ==> ListedHolds(Touch(s, p))
    ensures ListedMissing(s) ==> ListedMissing(Touch(s, p))
  {
  }

  // ---------- handing a piece to a downloader ----------

  /** A piece is given to a pooled downloader that is not on it yet and has room. */
  ghost predicate Eligible(s: State, d: Id, p: uint32) {
    d in s.objects && d !in Listed(s, p) && HasBit(s, d, p) && |Held(s, d)| < MAX_PIECES
  }

  ghost function Given(ctx: Context, policy: Download.Policy, s: State, d: Id, p: uint32): State
    requires Setting(ctx, policy) && d in s.objects
  {
    Recorded(Ask(ctx, policy, s, d, p).1, d, p)
  }

  lemma GivenFields(ctx: Context, policy: Download.Policy, s: State, d: Id, p: uint32)
    requires Setting(ctx, policy) && d in s.objects
    ensures
      var t := Given(ctx, policy, s, d, p);
      && t.pieceDownloaders == s.pieceDownloaders[p := Listed(s, p) + [d]]
      && t.peerPool == s.peerPool[d := Held(s, d) + [p]]
      && t.connections == s.connections && t.missing == s.missing && t.vault == s.vault && t.nextId == s.nextId
      && t.objects == s.objects[d := Remote(s.objects[d].contact,
                                            Download.Start(ctx, policy, s.objects[d].state, p).1)]
  {
  }

  lemma GivenKeepsAddresses(ctx: Context, policy: Download.Policy, s: State, d: Id, p: uint32)
    requires Setting(ctx, policy) && d in s.objects && Identities(s) && OnePerAddress(s)
    ensures Identities(Given(ctx, policy, s, d, p)) && OnePerAddress(Given(ctx, policy, s, d, p))
  {
    GivenFields(ctx, policy, s, d, p);
    SameAddresses(s, Given(ctx, policy, s, d, p));
  }

  lemma SameAddresses(s: State, t: State)
    requires Identities(s) && OnePerAddress(s)
    requires t.connections == s.connections && t.nextId == s.nextId
    requires t.objects.Keys == s.objects.Keys && t.peerPool.Keys == s.peerPool.Keys
    requires forall d :: d in s.objects ==> t.objects[d].contact == s.objects[d].contact
    ensures Identities(t) && OnePerAddress(t)
  {
    forall a | a in t.connections ensures exists d :: d in t.objects && AddressOf(t, d) == a {
      var d :| d in s.objects && AddressOf(s, d) == a;
      assert AddressOf(t, d) == a;
    }
    forall d | d in t.objects ensures AddressOf(t, d) in t.connections && AddressOf(t, d) == AddressOf(s, d) {
      assert AddressOf(s, d) in s.connections;
    }
  }

  lemma AppendDistinct<T>(xs: seq<T>, x: T)
    requires NoDuplicates(xs) && x !in xs
    ensures NoDuplicates(xs + [x])
  {
  }

  /** One more link between a piece and a downloader. */
  ghost predicate Linked(s: State, t: State, d: Id, p: uint32) {
    && t.pieceDownloaders == s.pieceDownloaders[p := Listed(s, p) + [d]]
    && t.peerPool == s.peerPool[d := Held(s, d) + [p]]
    && t.missing == s.missing
  }

  lemma LinkedBooks(s: State, t: State, d: Id, p: uint32)
    requires Linked(s, t, d, p)
    ensures forall q :: Listed(t, q) == if q == p then Listed(s, p) + [d] else Listed(s, q)
    ensures forall e :: Held(t, e) == if e == d then Held(s, d) + [p] else Held(s, e)
  {
  }

  lemma LinkKeepsBounds(ctx: Context, s: State, t: State, d: Id, p: uint32)
    requires Linked(s, t, d, p) && Bounded(ctx, s) && d in s.peerPool && p < ctx.pieceCount
    requires d !in Listed(s, p) && p !in Held(s, d)
    requires |Listed(s, p)| < MAX_DOWNLOADERS && |Held(s, d)| < MAX_PIECES
    ensures Bounded(ctx, t)
  {
    AppendDistinct(Listed(s, p), d);
    AppendDistinct(Held(s, d), p);
  }

  lemma LinkKeepsLinks(s: State, t: State, d: Id, p: uint32)
    requires Linked(s, t, d, p) && d in s.peerPool && p in s.missing
    requires HolderListed(s) && ListedHolds(s) && ListedMissing(s)
    ensures HolderListed(t) && ListedHolds(t) && ListedMissing(t)
  {
    LinkedBooks(s, t, d, p);
    forall q, e | e in Listed(t, q) ensures e in t.peerPool && q in Held(t, e) {
      assert e in Listed(s, q) || (q == p && e == d);
    }
    forall q, e | q in Held(t, e) && q in t.missing ensures e in Listed(t, q) {
      assert q in Held(s, e) || (q == p && e == d);
    }
  }

  /** The holder of a missing piece is listed, so one that is not listed does not hold it. */
  lemma GivenKeepsLists(ctx: Context, policy: Download.Policy, s: State, d: Id, p: uint32)
    requires Setting(ctx, policy) && Eligible(s, d, p) && p in s.missing && p < ctx.pieceCount
    requires |Listed(s, p)| < MAX_DOWNLOADERS && Identities(s)
    requires Bounded(ctx, s) && HolderListed(s) && ListedHolds(s) && ListedMissing(s)
    ensures p !in Held(s, d)
    ensures
      var t := Given(ctx, policy, s, d, p);
      Bounded(ctx, t) && HolderListed(t) && ListedHolds(t) && ListedMissing(t)
  {
    var t := Given(ctx, policy, s, d, p);
    GivenFields(ctx, policy, s, d, p);
    LinkKeepsBounds(ctx, s, t, d, p);
    LinkKeepsLinks(s, t, d, p);
  }

  /** The scheduler's books show that the downloader has nothing to do with the piece yet. */
  lemma EligibleIsFresh(
    env: Runs.Environment, ctx: Context, policy: Download.Policy, vault: map<nat, seq<byte>>,
    s: State, d: Id, p: uint32)
    requires ctx.Valid() && Core(env, ctx, policy, vault, s)
    requires d in s.objects && p !in Held(s, d)
    ensures p !in s.objects[d].state.pieces
    ensures !env.InBounds? ==> Runs.Fresh(s.objects[d].state, p) && !HasRequests(s.objects[d].state, p)
  {
    var o := s.objects[d].state;
    assert Runs.Invariant(env, ctx, policy, o);
    if !env.InBounds? {
      assert forall b :: b in Runs.Outstanding(o) ==> Runs.WellPlaced(o, b);
    }
  }

  lemma StartedEntries(ctx: Context, policy: Download.Policy, o: Download.State, p: uint32)
    requires Setting(ctx, policy)
    ensures Download.Start(ctx, policy, o, p).1.pieces.Keys <= o.pieces.Keys + {p as nat}
  {
  }

  lemma GivenKeepsObjects(
    env: Runs.Environment, ctx: Context, policy: Download.Policy, vault: map<nat, seq<byte>>,
    s: State, d: Id, p: uint32)
    requires Setting(ctx, policy) && Core(env, ctx, policy, vault, s)
    requires d in s.objects && p < ctx.pieceCount && p !in Held(s, d)
    ensures
      var t := Given(ctx, policy, s, d, p);
      EntriesHeld(t) && Healthy(env, ctx, policy, t) && HistorySafe(env, t)
  {
    hide Runs.Invariant, Identities, OnePerAddress, Bounded, HolderListed, MissingExact, VaultGood;
    GivenFields(ctx, policy, s, d, p);
    EligibleIsFresh(env, ctx, policy, vault, s, d, p);
    GivenEntries(ctx, policy, s, d, p);
    Steps.BeginKeeps(env, ctx, policy, s.objects[d].state, p);
  }

  lemma GivenEntries(ctx: Context, policy: Download.Policy, s: State, d: Id, p: uint32)
    requires Setting(ctx, policy) && EntriesHeld(s) && d in s.objects
    ensures EntriesHeld(Given(ctx, policy, s, d, p))
  {
    var t := Given(ctx, policy, s, d, p);
    GivenFields(ctx, policy, s, d, p);
    StartedEntries(ctx, policy, s.objects[d].state, p);
    forall e, q | e in t.objects && q in t.objects[e].state.pieces ensures q < U32 && q in Held(t, e) {
      if e == d {
        assert q in s.objects[d].state.pieces || q == p;
      }
    }
  }

  lemma GivenKeeps(
    env: Runs.Environment, ctx: Context, policy: Download.Policy, vault: map<nat, seq<byte>>,
    s: State, d: Id, p: uint32)
    requires Setting(ctx, policy) && Invariant(env, ctx, policy, vault, s)
    requires Eligible(s, d, p) && p in s.missing && p < ctx.pieceCount && |Listed(s, p)| < MAX_DOWNLOADERS
    ensures Invariant(env, ctx, policy, vault, Given(ctx, policy, s, d, p))
  {
    GivenFields(ctx, policy, s, d, p);
    GivenKeepsAddresses(ctx, policy, s, d, p);
    GivenKeepsLists(ctx, policy, s, d, p);
    GivenKeepsObjects(env, ctx, policy, vault, s, d, p);
  }

  // ---------- the loops ----------

  /** The inner loop gives the piece to the first eligible downloader, if there is one. */
  lemma {:induction false} OfferFindsFirst(
    ctx: Context, policy: Download.Policy, s: State, p: uint32, pool: seq<Id>) returns (k: nat)
    requires Setting(ctx, policy) && Live(s, pool)
    ensures k <= |pool| && forall j :: 0 <= j < k ==> !Eligible(s, pool[j], p)
    ensures k < |pool| ==> Eligible(s, pool[k], p)
    ensures Offer(ctx, policy, s, p, pool) == if k < |pool| then Given(ctx, policy, s, pool[k], p) else s
    decreases |pool|
  {
    if pool == [] {
      k := 0;
    } else if Eligible(s, pool[0], p) {
      k := 0;
    } else {
      k := OfferFindsFirst(ctx, policy, s, p, pool[1..]);
      assert forall j :: 0 <= j < k ==> pool[1..][j] == pool[j + 1];
      k := k + 1;
    }
  }

  lemma VisitKeeps(
    env: Runs.Environment, ctx: Context, policy: Download.Policy, vault: map<nat, seq<byte>>,
    s: State, p: uint32, pool: seq<Id>)
    requires Setting(ctx, policy) && Invariant(env, ctx, policy, vault, s) && Live(s, pool)
    requires p in s.missing && p < ctx.pieceCount
    ensures Invariant(env, ctx, policy, vault, Visit(ctx, policy, s, p, pool))
    ensures Visit(ctx, policy, s, p, pool).missing == s.missing
  {
    hide Invariant, Given;
    TouchKeeps(env, ctx, policy, vault, s, p);
    var t := Touch(s, p);
    if |Listed(t, p)| < MAX_DOWNLOADERS {
      var k := OfferFindsFirst(ctx, policy, t, p, pool);
      if k < |pool| {
        GivenKeeps(env, ctx, policy, vault, t, pool[k], p);
      }
    }
  }

  lemma {:induction false} PassKeeps(
    env: Runs.Environment, ctx: Context, policy: Download.Policy, vault: map<nat, seq<byte>>,
    s: State, order: seq<uint32>, pool: seq<Id>)
    requires Setting(ctx, policy) && Invariant(env, ctx, policy, vault, s) && Live(s, pool)
    requires forall p :: p in order ==> p in s.missing && p < ctx.pieceCount
    ensures Invariant(env, ctx, policy, vault, Pass(ctx, policy, s, order, pool))
    ensures Pass(ctx, policy, s, order, pool).missing == s.missing
    decreases |order|
  {
    if order != [] {
      assert order[0] in order && forall p :: p in order[1..] ==> p in order;
      VisitKeeps(env, ctx, policy, vault, s, order[0], pool);
      PassKeeps(env, ctx, policy, vault, Visit(ctx, policy, s, order[0], pool), order[1..], pool);
    }
  }

  lemma AssignKeeps(
    env: Runs.Environment, ctx: Context, policy: Download.Policy, vault: map<nat, seq<byte>>,
    s: State, order: seq<uint32>, pool: seq<Id>)
    requires Setting(ctx, policy) && Invariant(env, ctx, policy, vault, s)
    requires Enumerates(order, s.missing) && Enumerates(pool, s.peerPool.Keys)
    ensures Live(s, pool)
    ensures Invariant(env, ctx, policy, vault, Swarm.Assign(ctx, policy, s, order, pool))
    ensures Swarm.Assign(ctx, policy, s, order, pool).missing == s.missing
  {
    PassKeeps(env, ctx, policy, vault, s, order, pool);
    var t := Pass(ctx, policy, s, order, pool);
    PassKeeps(env, ctx, policy, vault, t, order, pool);
    AssignIsTwoPasses(ctx, policy, s, order, pool);
  }

  lemma AssignIsTwoPasses(ctx: Context, policy: Download.Policy, s: State, order: seq<uint32>, pool: seq<Id>)
    requires Setting(ctx, policy) && Live(s, pool)
    ensures
      Swarm.Assign(ctx, policy, s, order, pool)
      == Pass(ctx, policy, Pass(ctx, policy, s, order, pool), order, pool)
  {
    var u := Pass(ctx, policy, s, order, pool);
    assert Passes(ctx, policy, u, order, pool, 1)
        == Passes(ctx, policy, Pass(ctx, policy, u, order, pool), order, pool, 0);
  }

  // ---------- maximality ----------

  /** Later in an `assign`: bits stay, loads and lists only grow. */
  ghost predicate Later(s: State, t: State) {
    && t.objects.Keys == s.objects.Keys
    && (forall d :: d in s.objects ==>
          && t.objects[d].state.peer == s.objects[d].state.peer
          && |Held(s, d)| <= |Held(t, d)|)
    && (forall p, d :: d in Listed(s, p) ==> d in Listed(t, p))
    && (forall p :: |Listed(s, p)| <= |Listed(t, p)|)
  }

  lemma LaterIsEligibleBefore(s: State, t: State, d: Id, p: uint32)
    requires Later(s, t) && Eligible(t, d, p)
    ensures Eligible(s, d, p)
  {
  }

  lemma LaterTransitive(s: State, t: State, u: State)
    requires Later(s, t) && Later(t, u)
    ensures Later(s, u)
  {
    forall p, d | d in Listed(s, p) ensures d in Listed(u, p) {
      assert d in Listed(t, p);
    }
    forall p ensures |Listed(s, p)| <= |Listed(u, p)| {
      assert |Listed(s, p)| <= |Listed(t, p)|;
    }
  }

  lemma GivenIsLater(ctx: Context, policy: Download.Policy, s: State, d: Id, p: uint32)
    requires Setting(ctx, policy) && d in s.objects
    ensures Later(s, Given(ctx, policy, s, d, p))
    ensures |Listed(Given(ctx, policy, s, d, p), p)| == |Listed(s, p)| + 1
  {
    var t := Given(ctx, policy, s, d, p);
    GivenFields(ctx, policy, s, d, p);
    assert forall q :: Listed(t, q) == if q == p then Listed(s, p) + [d] else Listed(s, q);
    assert forall e :: Held(t, e) == if e == d then Held(s, d) + [p] else Held(s, e);
  }

  /** Nobody in the pool can take the piece. */
  ghost predicate Exhausted(s: State, p: uint32, pool: seq<Id>) {
    forall d :: d in pool ==> !Eligible(s, d, p)
  }

  lemma VisitIsLater(ctx: Context, policy: Download.Policy, s: State, p: uint32, pool: seq<Id>)
    requires Setting(ctx, policy) && Live(s, pool)
    ensures
      var t := Visit(ctx, policy, s, p, pool);
      && Later(s, t)
      && (|Listed(s, p)| >= MAX_DOWNLOADERS || |Listed(t, p)| == |Listed(s, p)| + 1 || Exhausted(t, p, pool))
  {
    var t := Touch(s, p);
    assert forall q :: Listed(t, q) == Listed(s, q);
    assert forall d :: Held(t, d) == Held(s, d);
    if |Listed(t, p)| < MAX_DOWNLOADERS {
      var k := OfferFindsFirst(ctx, policy, t, p, pool);
      if k < |pool| {
        GivenIsLater(ctx, policy, t, pool[k], p);
        LaterTransitive(s, t, Given(ctx, policy, t, pool[k], p));
      }
    }
  }

  lemma {:induction false} PassServes(
    ctx: Context, policy: Download.Policy, s: State, order: seq<uint32>, pool: seq<Id>, p: uint32)
    requires Setting(ctx, policy) && Live(s, pool)
    ensures
      var t := Pass(ctx, policy, s, order, pool);
      && Later(s, t)
      && (p in order ==>
            || |Listed(t, p)| >= MAX_DOWNLOADERS
            || |Listed(t, p)| >= |Listed(s, p)| + 1
            || Exhausted(t, p, pool))
    decreases |order|
  {
    if order != [] {
      var v, t := Visit(ctx, policy, s, order[0], pool), Pass(ctx, policy, s, order, pool);
      VisitIsLater(ctx, policy, s, order[0], pool);
      PassServes(ctx, policy, v, order[1..], pool, p);
      LaterTransitive(s, v, t);
      if order[0] == p {
        if Exhausted(v, p, pool) {
          StaysExhausted(v, t, p, pool);
        }
      }
    }
  }

  /**
   * Maximality. For any shuffle and any pool order, after `assign` every missing piece has two
   * downloaders, or each pooled downloader lacks its bit, is on it already, or holds two pieces.
   */
  lemma AssignIsMaximal(
    env: Runs.Environment, ctx: Context, policy: Download.Policy, vault: map<nat, seq<byte>>,
    s: State, order: seq<uint32>, pool: seq<Id>, p: uint32)
    requires Setting(ctx, policy) && Invariant(env, ctx, policy, vault, s)
    requires Enumerates(order, s.missing) && Enumerates(pool, s.peerPool.Keys)
    requires p in s.missing
    ensures Live(s, pool)
    ensures
      var t := Swarm.Assign(ctx, policy, s, order, pool);
      || |Listed(t, p)| == 2
      || forall d :: d in t.peerPool ==>
           d in t.objects && (d in Listed(t, p) || !HasBit(t, d, p) || |Held(t, d)| >= 2)
  {
    AssignKeeps(env, ctx, policy, vault, s, order, pool);
    AssignIsTwoPasses(ctx, policy, s, order, pool);
    TwoPassesServe(ctx, policy, s, order, pool, p);
  }

  lemma StaysExhausted(s: State, t: State, p: uint32, pool: seq<Id>)
    requires Later(s, t) && Exhausted(s, p, pool)
    ensures Exhausted(t, p, pool)
  {
    forall d | d in pool && Eligible(t, d, p) ensures false {
      LaterIsEligibleBefore(s, t, d, p);
    }
  }

  lemma TwoPassesServe(ctx: Context, policy: Download.Policy, s: State, order: seq<uint32>, pool: seq<Id>, p: uint32)
    requires Setting(ctx, policy) && Live(s, pool) && p in order
    ensures
      var t := Pass(ctx, policy, Pass(ctx, policy, s, order, pool), order, pool);
      && t.objects.Keys == s.objects.Keys
      && (|Listed(t, p)| >= MAX_DOWNLOADERS || Exhausted(t, p, pool))
  {
    var u := Pass(ctx, policy, s, order, pool);
    PassServes(ctx, policy, s, order, pool, p);
    PassServes(ctx, policy, u, order, pool, p);
    if Exhausted(u, p, pool) {
      StaysExhausted(u, Pass(ctx, policy, u, order, pool), p, pool);
    }
  }
}
