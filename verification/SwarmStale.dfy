/** Slots that are never freed: pieces in a downloader's load that are not missing any more. */
module SwarmStale {
  import opened Bytes
  import opened TorrentContext
  import opened Swarm
  import opened SwarmProofs
  import Download
  import Runs = DownloadProofs
  import A = SwarmAssign
  import D = SwarmDone
  import R = SwarmRevoke
  import Retry = SwarmRetry
  import Theorems = SwarmTheorems

  /** The load of a downloader has a piece that is stored already. */
  ghost predicate Stale(s: State, d: Id, p: uint32) {
    p in Held(s, d) && p !in s.missing
  }

  lemma {:induction false} IncludeHolds(s: State, contacts: seq<Contact>, d: Id, p: uint32)
    requires Identities(s) && p in Held(s, d)
    ensures p in Held(Swarm.Include(s, contacts), d)
    decreases |contacts|
  {
    if contacts != [] {
      var t := Admit(s, contacts[0]);
      assert d in s.peerPool.Keys;
      assert p in Held(t, d);
      IncludeHolds(t, contacts[1..], d, p);
    }
  }

  lemma VisitHolds(
    ctx: Context, policy: Download.Policy, s: State, q: uint32, pool: seq<Id>, d: Id, p: uint32)
    requires Setting(ctx, policy) && Live(s, pool) && p in Held(s, d)
    ensures p in Held(Visit(ctx, policy, s, q, pool), d)
  {
    var t := Touch(s, q);
    assert p in Held(t, d);
    if |Listed(t, q)| < MAX_DOWNLOADERS {
      var k := A.OfferFindsFirst(ctx, policy, t, q, pool);
      if k < |pool| {
        A.GivenFields(ctx, policy, t, pool[k], q);
        hide A.Given;
      }
    }
  }

  lemma {:induction false} PassHolds(
    ctx: Context, policy: Download.Policy, s: State, order: seq<uint32>, pool: seq<Id>, d: Id, p: uint32)
    requires Setting(ctx, policy) && Live(s, pool) && p in Held(s, d)
    ensures p in Held(Pass(ctx, policy, s, order, pool), d)
    decreases |order|
  {
    hide Visit;
    if order != [] {
      VisitHolds(ctx, policy, s, order[0], pool, d, p);
      PassHolds(ctx, policy, Visit(ctx, policy, s, order[0], pool), order[1..], pool, d, p);
    }
  }

  lemma AssignHolds(
    ctx: Context, policy: Download.Policy, s: State, order: seq<uint32>, pool: seq<Id>, d: Id, p: uint32)
    requires Setting(ctx, policy) && Live(s, pool) && p in Held(s, d)
    ensures p in Held(Swarm.Assign(ctx, policy, s, order, pool), d)
  {
    A.AssignIsTwoPasses(ctx, policy, s, order, pool);
    hide Pass;
    PassHolds(ctx, policy, s, order, pool, d, p);
    PassHolds(ctx, policy, Pass(ctx, policy, s, order, pool), order, pool, d, p);
  }

  /** Erasing one piece from a load leaves every other piece in it. */
  lemma EraseOneKeeps(list: seq<uint32>, q: uint32, p: uint32)
    requires p in list && p != q
    ensures p in EraseOne(list, q)
  {
    WithoutElements(list, q);
  }

  lemma CollectHolds(ctx: Context, policy: Download.Policy, s: State, q: uint32, e: Id, d: Id, p: uint32)
    requires Setting(ctx, policy) && e in s.objects && q < |ctx.pieceHashes| && p in Held(s, d) && p != q
    ensures p in Held(Collect(ctx, policy, s, q, e).1, d)
  {
    EraseOneKeeps(if p in Held(s, e) then Held(s, e) else [p], q, p);
    hide EraseOne, Download.Retrieve, Download.Start;
  }

  lemma {:induction false} CollectFromHolds(
    ctx: Context, policy: Download.Policy, s: State, q: uint32, ds: seq<Id>, d: Id, p: uint32)
    requires Setting(ctx, policy) && q < |ctx.pieceHashes| && forall e :: e in ds ==> e in s.objects
    requires p in Held(s, d) && p != q
    ensures p in Held(CollectFrom(ctx, policy, s, q, ds).1, d)
    decreases |ds|
  {
    if ds != [] {
      CollectHolds(ctx, policy, s, q, ds[0], d, p);
      var t := Collect(ctx, policy, s, q, ds[0]).1;
      assert t.objects.Keys == s.objects.Keys;
      hide Collect;
      CollectFromHolds(ctx, policy, t, q, ds[1..], d, p);
    }
  }

  lemma {:induction false} CollectAllHolds(
    ctx: Context, policy: Download.Policy, s: State, keys: seq<uint32>, d: Id, p: uint32)
    requires Setting(ctx, policy) && Grounded(ctx, s, keys)
    requires p in Held(s, d) && Listed(s, p) == []
    ensures p in Held(CollectAll(ctx, policy, s, keys).1, d)
    decreases |keys|
  {
    CollectAllNext(ctx, policy, s, keys);
    hide CollectAll;
    if keys != [] {
      var q := keys[0];
      if q != p {
        CollectFromHolds(ctx, policy, s, q, Listed(s, q), d, p);
      }
      var t := CollectFrom(ctx, policy, s, q, Listed(s, q)).1;
      assert p in Held(t, d) && Listed(t, p) == [];
      CollectAllHolds(ctx, policy, t, keys[1..], d, p);
    }
  }

  /** No event frees a stale slot, short of dropping the downloader. */
  lemma StepHolds(
    env: Runs.Environment, ctx: Context, policy: Download.Policy, vault: map<nat, seq<byte>>,
    s: State, e: Event, d: Id, p: uint32)
    requires Setting(ctx, policy) && HashesMatch(env, ctx) && Invariant(env, ctx, policy, vault, s)
    requires Enabled(env, ctx, s, e) && Theorems.Callable(ctx, s, e) && Stale(s, d, p)
    ensures
      var t := Theorems.Next(ctx, policy, s, e);
      d in t.peerPool ==> Stale(t, d, p)
  {
    assert Identities(s) && Listed(s, p) == [];
    hide Invariant;
    Theorems.StepKeeps(env, ctx, policy, vault, s, e);
    NextHolds(ctx, policy, s, e, d, p);
    hide Theorems.Next, Theorems.Callable, Enabled;
  }

  lemma NextHolds(ctx: Context, policy: Download.Policy, s: State, e: Event, d: Id, p: uint32)
    requires Setting(ctx, policy) && Theorems.Callable(ctx, s, e)
    requires Identities(s) && Listed(s, p) == [] && p in Held(s, d)
    ensures
      var t := Theorems.Next(ctx, policy, s, e);
      d in t.peerPool ==> p in Held(t, d)
  {
    hide Swarm.Include, Swarm.Assign, Swarm.Revoke, CollectAll, Runs.Next;
    match e
    case Include(contacts) => IncludeHolds(s, contacts, d, p);
    case Assign(order, pool) => AssignHolds(ctx, policy, s, order, pool, d, p);
    case Revoke(inactive, pool) => R.RevokeResult(s, inactive, pool);
    case IsDone(keys) => CollectAllHolds(ctx, policy, s, keys, d, p);
    case Move(_, _) =>
  }

  /** The downloader is in the pool in every state along the run. */
  ghost predicate Pooled(
    env: Runs.Environment, ctx: Context, policy: Download.Policy, s: State, events: seq<Event>, t: State, d: Id)
    requires Setting(ctx, policy) && Theorems.Reaches(env, ctx, policy, s, events, t)
    decreases |events|
  {
    && d in s.peerPool
    && (events == [] || Pooled(env, ctx, policy, Theorems.Next(ctx, policy, s, events[0]), events[1..], t, d))
  }

  lemma {:induction false} RunHolds(
    env: Runs.Environment, ctx: Context, policy: Download.Policy, vault: map<nat, seq<byte>>,
    s: State, events: seq<Event>, t: State, d: Id, p: uint32)
    requires Setting(ctx, policy) && HashesMatch(env, ctx) && Invariant(env, ctx, policy, vault, s)
    requires Theorems.Reaches(env, ctx, policy, s, events, t) && Pooled(env, ctx, policy, s, events, t, d)
    requires Stale(s, d, p)
    ensures Stale(t, d, p)
    decreases |events|
  {
    hide Invariant, Stale;
    if events != [] {
      StepHolds(env, ctx, policy, vault, s, events[0], d, p);
      Theorems.StepKeeps(env, ctx, policy, vault, s, events[0]);
      var next := Theorems.Next(ctx, policy, s, events[0]);
      assert Pooled(env, ctx, policy, next, events[1..], t, d);
      RunHolds(env, ctx, policy, vault, next, events[1..], t, d, p);
    }
  }

  /**
   * A slot that holds a stored piece stays taken for as long as its downloader is pooled, whatever
   * in-bounds blocks arrive. A downloader with two of them is never eligible for any piece again.
   */
  lemma StaleSlotsStay(
    ctx: Context, policy: Download.Policy, vault: map<nat, seq<byte>>,
    before: seq<Event>, s: State, after: seq<Event>, t: State, d: Id, p: uint32, q: uint32, r: uint32)
    requires Setting(ctx, policy)
    requires Theorems.Reaches(Runs.InBounds, ctx, policy, Initial(ctx, vault), before, s)
    requires Theorems.Reaches(Runs.InBounds, ctx, policy, s, after, t)
    requires Pooled(Runs.InBounds, ctx, policy, s, after, t, d) && Stale(s, d, p)
    ensures Stale(t, d, p)
    ensures p != q && Stale(s, d, q) ==> !A.Eligible(t, d, r)
  {
    Theorems.Reachable(Runs.InBounds, ctx, policy, vault, before, s);
    RunHolds(Runs.InBounds, ctx, policy, vault, s, after, t, d, p);
    hide Invariant, Theorems.Reaches;
    if p != q && Stale(s, d, q) {
      RunHolds(Runs.InBounds, ctx, policy, vault, s, after, t, d, q);
      TwoFill(t, d, p, q, r);
    }
  }

  lemma TwoFill(t: State, d: Id, p: uint32, q: uint32, r: uint32)
    requires p != q && Stale(t, d, p) && Stale(t, d, q)
    ensures !A.Eligible(t, d, r)
  {
    var i :| 0 <= i < |Held(t, d)| && Held(t, d)[i] == p;
    var j :| 0 <= j < |Held(t, d)| && Held(t, d)[j] == q;
    assert i != j;
  }

  // ---------- how a slot becomes stale ----------

  /** Collecting from one downloader changes the load of that one only, and only if it delivers. */
  lemma CollectHoldsOthers(ctx: Context, policy: Download.Policy, s: State, p: uint32, e: Id, d: Id)
    requires Setting(ctx, policy) && e in s.objects && p < |ctx.pieceHashes|
    requires e != d || !Collect(ctx, policy, s, p, e).0
    ensures Held(Collect(ctx, policy, s, p, e).1, d) == Held(s, d)
  {
    hide EraseOne, Download.Retrieve, Download.Start;
  }

  lemma {:induction false} LoserHolds(
    ctx: Context, policy: Download.Policy, s: State, p: uint32, ds: seq<Id>, d: Id)
    requires Setting(ctx, policy) && p < |ctx.pieceHashes| && Retry.Sound(s, p, ds)
    requires d in ds ==> !Retry.RightAt(ctx, s, d, p)
    ensures Held(CollectFrom(ctx, policy, s, p, ds).1, d) == Held(s, d)
    decreases |ds|
  {
    if ds != [] {
      var e, more := ds[0], ds[1..];
      assert ds == [e] + more;
      Retry.CollectDecides(ctx, policy, s, p, e);
      CollectHoldsOthers(ctx, policy, s, p, e, d);
      var t := Collect(ctx, policy, s, p, e).1;
      hide Collect, Retry.RightAt, Retry.SameAt, Retry.NotCorrupt;
      forall f | f in more
        ensures f in t.objects && Retry.NotCorrupt(t.objects[f].state, p)
        ensures Retry.RightAt(ctx, t, f, p) == Retry.RightAt(ctx, s, f, p)
      {
        assert f in ds && f != e;
        Retry.SameVerdicts(ctx, s, t, f, p);
      }
      assert d in more ==> d in ds;
      LoserHolds(ctx, policy, t, p, more, d);
    }
  }

  lemma {:induction false} LoserHoldsInAll(
    ctx: Context, policy: Download.Policy, s: State, keys: seq<uint32>, d: Id, p: uint32)
    requires Setting(ctx, policy) && Retry.AllSound(ctx, s, keys) && Grounded(ctx, s, keys)
    requires p in Held(s, d) && d in s.objects && (d in Listed(s, p) ==> !Retry.RightAt(ctx, s, d, p))
    ensures p in keys ==> p in Held(CollectAll(ctx, policy, s, keys).1, d)
    decreases |keys|
  {
    CollectAllNext(ctx, policy, s, keys);
    if keys != [] {
      var q, more := keys[0], keys[1..];
      assert keys == [q] + more && q !in more;
      var t := CollectFrom(ctx, policy, s, q, Listed(s, q)).1;
      if q == p {
        LoserHolds(ctx, policy, s, p, Listed(s, p), d);
        OthersHold(ctx, policy, t, more, d, p);
      } else {
        CollectFromHolds(ctx, policy, s, q, Listed(s, q), d, p);
        Retry.CollectFromDecides(ctx, policy, s, q, Listed(s, q));
        hide CollectAll, CollectFrom, Retry.RightAt, Retry.SameAt, Retry.Sound;
        assert Listed(t, p) == Listed(s, p);
        Retry.SameVerdicts(ctx, s, t, d, p);
        forall r | r in more ensures Retry.Sound(t, r, Listed(t, r)) {
          Retry.SoundStays(ctx, s, t, r);
        }
        LoserHoldsInAll(ctx, policy, t, more, d, p);
      }
    }
  }

  lemma {:induction false} OthersHold(
    ctx: Context, policy: Download.Policy, s: State, keys: seq<uint32>, d: Id, p: uint32)
    requires Setting(ctx, policy) && Grounded(ctx, s, keys) && p in Held(s, d) && p !in keys
    ensures p in Held(CollectAll(ctx, policy, s, keys).1, d)
    decreases |keys|
  {
    CollectAllNext(ctx, policy, s, keys);
    hide CollectAll;
    if keys != [] {
      assert keys == [keys[0]] + keys[1..];
      CollectFromHolds(ctx, policy, s, keys[0], Listed(s, keys[0]), d, p);
      OthersHold(ctx, policy, CollectFrom(ctx, policy, s, keys[0], Listed(s, keys[0])).1, keys[1..], d, p);
    }
  }

  /** When another downloader delivers a piece, one that is listed but cannot deliver it is left with a stale slot. */
  lemma RaceLeavesStale(
    env: Runs.Environment, ctx: Context, policy: Download.Policy, vault: map<nat, seq<byte>>,
    s: State, keys: seq<uint32>, d: Id, p: uint32)
    requires Setting(ctx, policy) && HashesMatch(env, ctx) && Invariant(env, ctx, policy, vault, s)
    requires Enumerates(keys, s.pieceDownloaders.Keys) && Grounded(ctx, s, keys)
    requires d in Listed(s, p) && !Retry.RightAt(ctx, s, d, p) && Retry.Delivered(ctx, s, p, Listed(s, p))
    ensures Stale(Swarm.IsDone(ctx, policy, s, keys).1, d, p)
  {
    Retry.ListsSound(env, ctx, policy, vault, s, keys);
    assert ListedHolds(s) && Identities(s) && p in s.pieceDownloaders.Keys;
    DeliveredIsStored(env, ctx, policy, vault, s, keys, p);
    hide Invariant, Retry.AllSound, Retry.RightAt, Retry.Delivered, CollectAll;
    LoserHoldsInAll(ctx, policy, s, keys, d, p);
  }

  lemma DeliveredIsStored(
    env: Runs.Environment, ctx: Context, policy: Download.Policy, vault: map<nat, seq<byte>>,
    s: State, keys: seq<uint32>, p: uint32)
    requires Setting(ctx, policy) && HashesMatch(env, ctx) && Invariant(env, ctx, policy, vault, s)
    requires Enumerates(keys, s.pieceDownloaders.Keys) && Grounded(ctx, s, keys)
    requires p in keys && Retry.Delivered(ctx, s, p, Listed(s, p))
    ensures p !in CollectAll(ctx, policy, s, keys).1.missing
  {
    Retry.ListsSound(env, ctx, policy, vault, s, keys);
    D.ListsAreLive(s);
    hide Invariant, Retry.AllSound, Retry.Delivered, D.Settled, CollectAll;
    Retry.CollectAllDecides(ctx, policy, s, keys);
    StoredAreKnown(env, ctx, policy, vault, s, keys);
  }

  lemma StoredAreKnown(
    env: Runs.Environment, ctx: Context, policy: Download.Policy, vault: map<nat, seq<byte>>,
    s: State, keys: seq<uint32>)
    requires Setting(ctx, policy) && HashesMatch(env, ctx) && Invariant(env, ctx, policy, vault, s)
    requires Enumerates(keys, s.pieceDownloaders.Keys) && Grounded(ctx, s, keys) && D.Settled(s, {})
    ensures
      var (completed, t) := CollectAll(ctx, policy, s, keys);
      t.missing == s.missing - completed
  {
    hide CollectAll, D.Settled;
    D.CollectAllKeeps(env, ctx, policy, vault, s, {}, keys);
  }
}
