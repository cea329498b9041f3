/** `revoke`: inactive downloaders leave every list, the pool, the connections, and nothing else does. */
module SwarmRevoke {
  import opened Bytes
  import opened TorrentContext
  import opened Swarm
  import opened SwarmProofs
  import Download
  import Runs = DownloadProofs

  // ---------- taking a downloader off its pieces' lists ----------

  lemma {:induction false} UnlistResult(s: State, d: Id, ps: seq<uint32>)
    ensures
      var t := Unlist(s, d, ps);
      && t.pieceDownloaders.Keys == s.pieceDownloaders.Keys + (set p | p in ps)
      && forall q :: Listed(t, q) == if q in ps then Without(Listed(s, q), d) else Listed(s, q)
    decreases |ps|
  {
    hide Without;
    if ps != [] {
      var p := ps[0];
      var u := s.(pieceDownloaders := s.pieceDownloaders[p := Without(Listed(s, p), d)]);
      UnlistResult(u, d, ps[1..]);
      assert ps == [p] + ps[1..];
      assert forall q :: Listed(u, q) == if q == p then Without(Listed(s, p), d) else Listed(s, q);
      WithoutElements(Listed(s, p), d);
      WithoutElements(Listed(u, p), d);
    }
  }

  /** Some downloaders are on no list any more; the books still agree about the others. */
  ghost predicate Scanned(ctx: Context, s: State, gone: set<Id>) {
    && Bounded(ctx, s) && ListedHolds(s) && ListedMissing(s)
    && (forall q, d :: d in Listed(s, q) ==> d !in gone)
    && (forall q, d :: q in Held(s, d) && q in s.missing && d !in gone ==> d in Listed(s, q))
  }

  /** Taken off the lists of all it holds, a downloader is on no list, as lists only name holders. */
  lemma UnlistedBooks(s: State, d: Id, q: uint32, e: Id)
    requires ListedHolds(s)
    ensures
      e in Listed(Unlist(s, d, Held(s, d)), q) <==> e in Listed(s, q) && e != d
  {
    UnlistResult(s, d, Held(s, d));
    WithoutElements(Listed(s, q), d);
  }

  lemma UnlistedBounds(ctx: Context, s: State, d: Id)
    requires Bounded(ctx, s) && d in s.peerPool
    ensures Bounded(ctx, Unlist(s, d, Held(s, d)))
  {
    var t := Unlist(s, d, Held(s, d));
    UnlistResult(s, d, Held(s, d));
    forall q | q in t.pieceDownloaders
      ensures q < ctx.pieceCount
      ensures NoDuplicates(t.pieceDownloaders[q]) && |t.pieceDownloaders[q]| <= MAX_DOWNLOADERS
    {
      assert t.pieceDownloaders[q] == Listed(t, q);
      WithoutElements(Listed(s, q), d);
      assert q in s.pieceDownloaders || q in Held(s, d);
    }
  }

  lemma UnlistScans(ctx: Context, s: State, gone: set<Id>, d: Id)
    requires Scanned(ctx, s, gone) && d in s.peerPool
    ensures Scanned(ctx, Unlist(s, d, Held(s, d)), gone + {d})
  {
    var t := Unlist(s, d, Held(s, d));
    UnlistedBounds(ctx, s, d);
    forall q, e ensures e in Listed(t, q) <==> e in Listed(s, q) && e != d {
      UnlistedBooks(s, d, q, e);
    }
    assert forall e :: Held(t, e) == Held(s, e);
    forall q | Listed(t, q) != [] ensures q in t.missing {
      assert Listed(t, q)[0] in Listed(t, q);
      assert Listed(s, q) != [];
    }
  }

  lemma {:induction false} ScanScans(ctx: Context, s: State, gone: set<Id>, inactive: set<Id>, pool: seq<Id>)
    requires Scanned(ctx, s, gone) && forall d :: d in pool ==> d in s.peerPool
    ensures Scanned(ctx, Scan(s, inactive, pool), gone + (set d | d in pool && d in inactive))
    decreases |pool|
  {
    var all := set d | d in pool && d in inactive;
    var later := set d | d in pool[if pool == [] then 0 else 1..] && d in inactive;
    if pool == [] {
      assert gone + all == gone;
    } else {
      var d := pool[0];
      assert pool == [d] + pool[1..];
      if d in inactive {
        UnlistScans(ctx, s, gone, d);
        ScanScans(ctx, Unlist(s, d, Held(s, d)), gone + {d}, inactive, pool[1..]);
        assert gone + {d} + later == gone + all;
      } else {
        ScanScans(ctx, s, gone, inactive, pool[1..]);
        assert later == all;
      }
    }
  }

  // ---------- removing from the pool ----------

  ghost function Elements(ds: seq<Id>): set<Id> {
    set d | d in ds
  }

  ghost function Addresses(s: State, ds: set<Id>): set<nat> {
    set d | d in ds && d in s.objects :: AddressOf(s, d)
  }

  lemma AddressesSplit(s: State, d: Id, ds: set<Id>)
    requires d in s.objects
    ensures Addresses(s, {d} + ds) == {AddressOf(s, d)} + Addresses(s, ds)
  {
    var all, split := Addresses(s, {d} + ds), {AddressOf(s, d)} + Addresses(s, ds);
    forall a | a in all ensures a in split {
      var e :| e in {d} + ds && e in s.objects && AddressOf(s, e) == a;
      assert e == d || e in ds;
    }
    forall a | a in split ensures a in all {
      if a == AddressOf(s, d) {
        assert d in {d} + ds;
      } else {
        var e :| e in ds && e in s.objects && AddressOf(s, e) == a;
        assert e in {d} + ds;
      }
    }
  }

  /** A downloader named twice is removed once; the second removal finds nothing and changes nothing. */
  lemma {:induction false} DropAllResult(s: State, ds: seq<Id>)
    requires forall d :: d in ds ==> d in s.objects
    ensures
      var t := DropAll(s, ds);
      && t.peerPool == s.peerPool - Elements(ds)
      && t.connections == s.connections - Addresses(s, Elements(ds))
      && t == s.(peerPool := t.peerPool, connections := t.connections)
    decreases |ds|
  {
    if ds != [] {
      var u := Drop(s, ds[0]);
      DropAllResult(u, ds[1..]);
      assert Elements(ds) == {ds[0]} + Elements(ds[1..]) by {
        assert ds == [ds[0]] + ds[1..];
      }
      AddressesSplit(s, ds[0], Elements(ds[1..]));
      assert Addresses(u, Elements(ds[1..])) == Addresses(s, Elements(ds[1..]));
    }
  }

  lemma ForgetResult(s: State, removed: set<Id>)
    requires s.peerPool.Keys == s.objects.Keys - removed
    ensures Forget(s) == s.(objects := s.objects - removed)
  {
    assert Forget(s).objects == s.objects - removed;
  }

  ghost function Removed(s: State, inactive: set<Id>, pool: seq<Id>): set<Id> {
    set d | d in pool && d in inactive && Held(s, d) != []
  }

  /** The state after `revoke`, in terms of the removed downloaders. */
  lemma RevokeResult(s: State, inactive: set<Id>, pool: seq<Id>)
    requires Live(s, pool) && Identities(s)
    ensures
      var removed := Removed(s, inactive, pool);
      Swarm.Revoke(s, inactive, pool) ==
        s.(pieceDownloaders := Scan(s, inactive, pool).pieceDownloaders,
           peerPool := s.peerPool - removed,
           connections := s.connections - Addresses(s, removed),
           objects := s.objects - removed)
  {
    var u, ds := Scan(s, inactive, pool), ToRemove(s, inactive, pool);
    ToRemoveFromPool(s, inactive, pool);
    DropAllResult(u, ds);
    assert Elements(ds) == Removed(s, inactive, pool);
    assert Addresses(u, Elements(ds)) == Addresses(s, Elements(ds));
    ForgetResult(DropAll(u, ds), Elements(ds));
  }

  lemma RemoveKeepsAddresses(s: State, t: State, removed: set<Id>)
    requires Identities(s) && OnePerAddress(s) && removed <= s.objects.Keys
    requires t.peerPool == s.peerPool - removed && t.objects == s.objects - removed && t.nextId == s.nextId
    requires t.connections == s.connections - Addresses(s, removed)
    ensures Identities(t) && OnePerAddress(t)
  {
    forall d | d in t.objects ensures AddressOf(t, d) in t.connections {
      assert AddressOf(t, d) == AddressOf(s, d);
      assert AddressOf(s, d) !in Addresses(s, removed);
    }
    forall a | a in t.connections ensures exists d :: d in t.objects && AddressOf(t, d) == a {
      var d :| d in s.objects && AddressOf(s, d) == a;
      assert d in removed ==> a in Addresses(s, removed);
      assert AddressOf(t, d) == a;
    }
    assert forall d :: d in t.objects ==> AddressOf(t, d) == AddressOf(s, d);
  }

  lemma RemoveKeepsLists(ctx: Context, s: State, t: State, gone: set<Id>, removed: set<Id>)
    requires Scanned(ctx, s, gone) && t.pieceDownloaders == s.pieceDownloaders && t.missing == s.missing
    requires t.peerPool == s.peerPool - removed && removed <= gone
    requires forall d :: d in gone && d !in removed ==> Held(s, d) == []
    ensures Bounded(ctx, t) && ListedHolds(t) && HolderListed(t) && ListedMissing(t)
  {
    assert forall q :: Listed(t, q) == Listed(s, q);
    assert forall d :: Held(t, d) == if d in removed then [] else Held(s, d);
  }

  lemma RevokeKeeps(
    env: Runs.Environment, ctx: Context, policy: Download.Policy, vault: map<nat, seq<byte>>,
    s: State, inactive: set<Id>, pool: seq<Id>)
    requires ctx.Valid() && Invariant(env, ctx, policy, vault, s) && Enumerates(pool, s.peerPool.Keys)
    ensures Live(s, pool)
    ensures Invariant(env, ctx, policy, vault, Swarm.Revoke(s, inactive, pool))
  {
    var t, u := Swarm.Revoke(s, inactive, pool), Scan(s, inactive, pool);
    var gone := set d | d in pool && d in inactive;
    var removed := Removed(s, inactive, pool);
    ScanScans(ctx, s, {}, inactive, pool);
    assert {} + gone == gone;
    RevokeResult(s, inactive, pool);
    RemoveKeepsAddresses(s, t, removed);
    RemoveKeepsLists(ctx, u, t, gone, removed);
    RemoveKeepsObjects(env, ctx, policy, s, t, removed);
  }

  lemma RemoveKeepsObjects(
    env: Runs.Environment, ctx: Context, policy: Download.Policy, s: State, t: State, removed: set<Id>)
    requires ctx.Valid() && Healthy(env, ctx, policy, s) && EntriesHeld(s)
    requires t.peerPool == s.peerPool - removed && t.objects == s.objects - removed
    ensures Healthy(env, ctx, policy, t) && EntriesHeld(t)
  {
    forall d, p | d in t.objects && p in t.objects[d].state.pieces ensures p < U32 && p in Held(t, d) {
      assert p in s.objects[d].state.pieces;
    }
  }

  /** After `revoke` no piece lists an inactive downloader; every other listing stays. */
  lemma RevokeForgets(
    env: Runs.Environment, ctx: Context, policy: Download.Policy, vault: map<nat, seq<byte>>,
    s: State, inactive: set<Id>, pool: seq<Id>, p: uint32, d: Id)
    requires ctx.Valid() && Invariant(env, ctx, policy, vault, s) && Enumerates(pool, s.peerPool.Keys)
    ensures Live(s, pool)
    ensures d in Listed(Swarm.Revoke(s, inactive, pool), p) <==> d in Listed(s, p) && d !in inactive
    ensures d in Swarm.Revoke(s, inactive, pool).peerPool <==>
      d in s.peerPool && (d !in inactive || Held(s, d) == [])
  {
    RevokeResult(s, inactive, pool);
    ScanForgets(ctx, s, inactive, pool, p, d);
    assert d in s.peerPool <==> d in pool;
  }

  lemma ScanForgets(ctx: Context, s: State, inactive: set<Id>, pool: seq<Id>, p: uint32, d: Id)
    requires Scanned(ctx, s, {}) && forall e :: e in pool <==> e in s.peerPool
    ensures d in Listed(Scan(s, inactive, pool), p) <==> d in Listed(s, p) && d !in inactive
  {
    var gone := set e | e in pool && e in inactive;
    ScanScans(ctx, s, {}, inactive, pool);
    assert {} + gone == gone;
    ScanKeepsOthers(s, inactive, pool, p, d);
    assert d in Listed(s, p) ==> d in s.peerPool;
    assert d in pool && d in inactive ==> d in gone;
    assert d in Listed(Scan(s, inactive, pool), p) ==> d !in gone;
  }

  lemma {:induction false} ScanKeepsOthers(s: State, inactive: set<Id>, pool: seq<Id>, p: uint32, d: Id)
    ensures d in Listed(Scan(s, inactive, pool), p) ==> d in Listed(s, p)
    ensures d in Listed(s, p) && d !in inactive ==> d in Listed(Scan(s, inactive, pool), p)
    decreases |pool|
  {
    if pool != [] {
      var e := pool[0];
      UnlistResult(s, e, Held(s, e));
      WithoutElements(Listed(s, p), e);
      ScanKeepsOthers(if e in inactive then Unlist(s, e, Held(s, e)) else s, inactive, pool[1..], p, d);
    }
  }
}
