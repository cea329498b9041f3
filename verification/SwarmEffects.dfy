/** What the strategy's operations do to each part of its state. */
module SwarmEffects {
  import opened Bytes
  import opened TorrentContext
  import opened Swarm
  import opened SwarmProofs
  import A = SwarmAssign
  import BitFields
  import Download
  import Effects = DownloadEffects
  import R = SwarmRevoke

  // ---------- include ----------

  /** A downloader as its constructor leaves it. */
  ghost predicate IsNew(o: Download.State) {
    && o.pieces == map[] && o.pending == [] && o.active == {} && o.starting == multiset{} && o.senders == 0
    && o.peer.selfChoked && !o.peer.remoteInterested && o.peer.remoteBitfield == []
  }

  /** The first candidate with an address. */
  ghost predicate FirstWith(contacts: seq<Contact>, a: nat, c: Contact) {
    exists i :: 0 <= i < |contacts| && contacts[i] == c && IsFirst(contacts, i, a)
  }

  ghost predicate IsFirst(contacts: seq<Contact>, i: nat, a: nat)
    requires i < |contacts|
  {
    contacts[i].address == a && forall j :: 0 <= j < i ==> contacts[j].address != a
  }

  ghost predicate Offered(contacts: seq<Contact>, a: nat) {
    exists i :: 0 <= i < |contacts| && contacts[i].address == a
  }

  /** What was there stays, and nothing but connections, downloaders and their loads is touched. */
  ghost predicate Kept(s: State, t: State) {
    && (forall a :: a in s.connections ==> a in t.connections && t.connections[a] == s.connections[a])
    && (forall d :: d in s.objects ==> d in t.objects && t.objects[d] == s.objects[d])
    && (forall d :: d in s.peerPool ==> d in t.peerPool && t.peerPool[d] == s.peerPool[d])
    && t.pieceDownloaders == s.pieceDownloaders && t.missing == s.missing && t.vault == s.vault
    && t.history == s.history && s.nextId <= t.nextId
  }

  ghost predicate Newcomer(s: State, t: State, d: Id) {
    d in t.objects && d !in s.objects
  }

  /** The connected addresses are the old ones and those of the candidates. */
  ghost predicate AddressesAre(s: State, t: State, contacts: seq<Contact>) {
    forall a :: a in t.connections <==> a in s.connections || Offered(contacts, a)
  }

  /** Each new connection is the first candidate's with that address, and has a new downloader. */
  ghost predicate FirstsConnected(s: State, t: State, contacts: seq<Contact>) {
    forall a :: a in t.connections && a !in s.connections ==>
      FirstWith(contacts, a, t.connections[a]) && HasNewcomer(s, t, a)
  }

  /** A new downloader is empty, holds nothing, and is the one of a new connection. */
  ghost predicate Fits(s: State, t: State, d: Id)
    requires d in t.objects
  {
    && s.nextId <= d && IsNew(t.objects[d].state) && d in t.peerPool && t.peerPool[d] == []
    && AddressOf(t, d) in t.connections && AddressOf(t, d) !in s.connections
    && t.objects[d].contact == t.connections[AddressOf(t, d)]
  }

  ghost predicate NewcomersFit(s: State, t: State) {
    && (forall d :: Newcomer(s, t, d) ==> Fits(s, t, d))
    && (forall d, e :: Newcomer(s, t, d) && Newcomer(s, t, e) && AddressOf(t, d) == AddressOf(t, e) ==> d == e)
    && (forall d :: d in t.peerPool <==> d in s.peerPool || Newcomer(s, t, d))
  }

  ghost predicate HasNewcomer(s: State, t: State, a: nat) {
    exists d :: Newcomer(s, t, d) && AddressOf(t, d) == a
  }

  lemma OfferedCons(contacts: seq<Contact>, a: nat)
    requires contacts != []
    ensures Offered(contacts, a) <==> contacts[0].address == a || Offered(contacts[1..], a)
  {
    assert contacts == [contacts[0]] + contacts[1..];
    if Offered(contacts[1..], a) {
      var i :| 0 <= i < |contacts[1..]| && contacts[1..][i].address == a;
      assert contacts[i + 1].address == a;
    }
    if Offered(contacts, a) && contacts[0].address != a {
      var i :| 0 <= i < |contacts| && contacts[i].address == a;
      assert contacts[1..][i - 1].address == a;
    }
  }

  lemma FirstWithCons(contacts: seq<Contact>, a: nat, c: Contact)
    requires contacts != [] && contacts[0].address != a && FirstWith(contacts[1..], a, c)
    ensures FirstWith(contacts, a, c)
  {
    var i :| 0 <= i < |contacts[1..]| && contacts[1..][i] == c && IsFirst(contacts[1..], i, a);
    forall j | 0 <= j < i + 1 ensures contacts[j].address != a {
      if 0 < j {
        assert contacts[1..][j - 1] == contacts[j];
      }
    }
    assert contacts[i + 1] == c && IsFirst(contacts, i + 1, a);
  }

  lemma AdmitEffect(s: State, c: Contact)
    requires Identities(s)
    ensures
      var t := Admit(s, c);
      && Identities(t) && Kept(s, t)
      && (c.address in s.connections ==> t == s)
      && (c.address !in s.connections ==> Admitted(s, t, c))
  {
  }

  /**
   * `include` connects to every candidate whose address is not connected yet: one new, empty downloader
   * for each such address, with the first candidate that has it, port included. Nothing else changes.
   */
  lemma {:induction false} IncludeEffect(s: State, contacts: seq<Contact>)
    requires Identities(s)
    ensures
      var t := Swarm.Include(s, contacts);
      && Kept(s, t) && AddressesAre(s, t, contacts) && FirstsConnected(s, t, contacts) && NewcomersFit(s, t)
    decreases |contacts|
  {
    var t := Swarm.Include(s, contacts);
    if contacts != [] {
      var c, rest := contacts[0], contacts[1..];
      var u := Admit(s, c);
      AdmitEffect(s, c);
      IncludeEffect(u, rest);
      hide Admit, IsNew, Swarm.Include, AddressesAre, FirstsConnected, NewcomersFit;
      KeptChains(s, u, t);
      if c.address in s.connections {
        SkippedStep(s, t, contacts);
      } else {
        AdmittedStep(s, u, t, contacts);
      }
    }
  }

  lemma KeptChains(s: State, u: State, t: State)
    requires Kept(s, u) && Kept(u, t)
    ensures Kept(s, t)
  {
  }

  lemma SkippedStep(s: State, t: State, contacts: seq<Contact>)
    requires contacts != [] && contacts[0].address in s.connections && Kept(s, t)
    requires AddressesAre(s, t, contacts[1..]) && FirstsConnected(s, t, contacts[1..])
    ensures AddressesAre(s, t, contacts) && FirstsConnected(s, t, contacts)
  {
    hide Offered, FirstWith, HasNewcomer;
    forall a ensures Offered(contacts, a) <==> contacts[0].address == a || Offered(contacts[1..], a) {
      OfferedCons(contacts, a);
    }
    forall a | a in t.connections && a !in s.connections ensures FirstWith(contacts, a, t.connections[a]) {
      FirstWithCons(contacts, a, t.connections[a]);
    }
  }

  /** What `Admit` does for a new address. */
  ghost predicate Admitted(s: State, u: State, c: Contact) {
    && c.address !in s.connections && u.connections == s.connections[c.address := c]
    && u.objects.Keys == s.objects.Keys + {s.nextId} && u.peerPool.Keys == s.peerPool.Keys + {s.nextId}
    && s.nextId !in s.objects && s.nextId !in s.peerPool && s.nextId < u.nextId
    && u.objects[s.nextId].contact == c && IsNew(u.objects[s.nextId].state) && u.peerPool[s.nextId] == []
  }

  lemma AdmittedStep(s: State, u: State, t: State, contacts: seq<Contact>)
    requires contacts != [] && Admitted(s, u, contacts[0]) && Kept(u, t) && Kept(s, t)
    requires AddressesAre(u, t, contacts[1..]) && FirstsConnected(u, t, contacts[1..]) && NewcomersFit(u, t)
    ensures AddressesAre(s, t, contacts) && FirstsConnected(s, t, contacts) && NewcomersFit(s, t)
  {
    hide Offered, FirstWith, IsNew, Kept;
    var c, rest := contacts[0], contacts[1..];
    forall a ensures Offered(contacts, a) <==> c.address == a || Offered(rest, a) {
      OfferedCons(contacts, a);
    }
    FirstStays(u, t, s.nextId);
    forall d ensures Newcomer(s, t, d) <==> Newcomer(u, t, d) || d == s.nextId {
      OldStays(u, t, d);
    }
    ConnectionStays(u, t, c.address);
    assert AddressesAre(s, t, contacts);
    AdmittedFirsts(s, u, t, contacts);
    AdmittedNewcomers(s, u, t, c);
  }

  lemma FirstStays(u: State, t: State, d: Id)
    requires Kept(u, t) && d in u.objects && d in u.peerPool
    ensures d in t.objects && t.objects[d] == u.objects[d] && d in t.peerPool && t.peerPool[d] == u.peerPool[d]
  {
  }

  lemma OldStays(u: State, t: State, d: Id)
    requires Kept(u, t)
    ensures d in u.objects ==> d in t.objects
  {
  }

  lemma ConnectionStays(u: State, t: State, a: nat)
    requires Kept(u, t) && a in u.connections
    ensures a in t.connections && t.connections[a] == u.connections[a]
  {
  }

  lemma AdmittedFirsts(s: State, u: State, t: State, contacts: seq<Contact>)
    requires contacts != [] && Admitted(s, u, contacts[0]) && FirstsConnected(u, t, contacts[1..])
    requires forall d :: Newcomer(s, t, d) <==> Newcomer(u, t, d) || d == s.nextId
    requires s.nextId in t.objects && t.objects[s.nextId] == u.objects[s.nextId]
    requires contacts[0].address in t.connections && t.connections[contacts[0].address] == contacts[0]
    ensures FirstsConnected(s, t, contacts)
  {
    hide FirstWith, IsNew;
    forall a | a in t.connections && a !in s.connections
      ensures FirstWith(contacts, a, t.connections[a]) && HasNewcomer(s, t, a)
    {
      if a == contacts[0].address {
        assert Newcomer(s, t, s.nextId) && AddressOf(t, s.nextId) == a;
        FirstIsFirst(contacts);
      } else {
        FirstWithCons(contacts, a, t.connections[a]);
        var d :| Newcomer(u, t, d) && AddressOf(t, d) == a;
        assert Newcomer(s, t, d);
      }
    }
  }

  lemma AdmittedNewcomers(s: State, u: State, t: State, c: Contact)
    requires Admitted(s, u, c) && NewcomersFit(u, t)
    requires forall d :: Newcomer(s, t, d) <==> Newcomer(u, t, d) || d == s.nextId
    requires s.nextId in t.objects && t.objects[s.nextId] == u.objects[s.nextId]
    requires s.nextId in t.peerPool && t.peerPool[s.nextId] == u.peerPool[s.nextId]
    requires c.address in t.connections && t.connections[c.address] == c
    ensures NewcomersFit(s, t)
  {
    hide IsNew;
    forall d | Newcomer(s, t, d) ensures Fits(s, t, d) {
      assert Newcomer(u, t, d) ==> Fits(u, t, d);
    }
    forall d | Newcomer(s, t, d) && d != s.nextId ensures AddressOf(t, d) != c.address {
      assert Newcomer(u, t, d) && Fits(u, t, d);
    }
  }

  lemma FirstIsFirst(contacts: seq<Contact>)
    requires contacts != []
    ensures FirstWith(contacts, contacts[0].address, contacts[0])
  {
    assert IsFirst(contacts, 0, contacts[0].address);
  }

  // ---------- assign ----------

  /** A downloader was listed under a piece since. */
  ghost predicate Given(s: State, t: State, d: Id, p: uint32) {
    d in Listed(t, p) && d !in Listed(s, p)
  }

  /** What no visit changes, and what it only adds to. */
  ghost predicate Grown(s: State, t: State) {
    && t.connections == s.connections && t.missing == s.missing && t.vault == s.vault && t.nextId == s.nextId
    && t.objects.Keys == s.objects.Keys
    && (forall p :: Listed(s, p) <= Listed(t, p)) && (forall d :: Held(s, d) <= Held(t, d))
    && (forall d :: d in s.objects ==>
          t.objects[d].contact == s.objects[d].contact && t.objects[d].state.peer == s.objects[d].state.peer)
  }

  /** A downloader's load grows by just the pieces it is given, each of which it was offering. */
  ghost predicate LoadsMatch(s: State, t: State) {
    forall d, p: uint32 ::
      && (p in Held(t, d) <==> p in Held(s, d) || Given(s, t, d, p))
      && (Given(s, t, d, p) ==> d in s.objects && HasBit(s, d, p))
  }

  /** A given piece is registered blank, and every other entry is as it was. */
  ghost predicate EntriesMatch(ctx: Context, s: State, t: State)
    requires 0 < ctx.pieceSize
  {
    forall d, p: uint32 :: d in s.objects && d in t.objects ==>
      if Given(s, t, d, p)
      then p in t.objects[d].state.pieces && Effects.Blank(ctx, t.objects[d].state.pieces[p], p)
      else SameEntry(s.objects[d].state, t.objects[d].state, p)
  }

  ghost predicate SameEntry(o: Download.State, q: Download.State, p: nat) {
    (p in q.pieces <==> p in o.pieces) && (p in o.pieces ==> q.pieces[p] == o.pieces[p])
  }

  lemma GivenGrows(ctx: Context, policy: Download.Policy, s: State, d: Id, p: uint32)
    requires Setting(ctx, policy) && A.Eligible(s, d, p)
    ensures
      var t := A.Given(ctx, policy, s, d, p);
      Grown(s, t) && LoadsMatch(s, t) && EntriesMatch(ctx, s, t)
  {
    var t := A.Given(ctx, policy, s, d, p);
    A.GivenFields(ctx, policy, s, d, p);
    Effects.StartEffect(ctx, policy, s.objects[d].state, p);
    hide A.Given, Download.Start, BitFields.Get, Effects.Blank, Effects.CutsPiece;
    OneGiven(ctx, s, t, d, p);
  }

  lemma OneGiven(ctx: Context, s: State, t: State, d: Id, p: uint32)
    requires 0 < ctx.pieceSize && A.Eligible(s, d, p)
    requires t.pieceDownloaders == s.pieceDownloaders[p := Listed(s, p) + [d]]
    requires t.peerPool == s.peerPool[d := Held(s, d) + [p]]
    requires t.connections == s.connections && t.missing == s.missing && t.vault == s.vault && t.nextId == s.nextId
    requires d in t.objects && t.objects == s.objects[d := t.objects[d]]
    requires t.objects[d].contact == s.objects[d].contact && t.objects[d].state.peer == s.objects[d].state.peer
    requires p in t.objects[d].state.pieces && Effects.Blank(ctx, t.objects[d].state.pieces[p], p)
    requires Effects.SameBut(s.objects[d].state, t.objects[d].state, p)
    ensures Grown(s, t) && LoadsMatch(s, t) && EntriesMatch(ctx, s, t)
  {
    hide BitFields.Get, Effects.Blank;
    forall q ensures Listed(t, q) == if q == p then Listed(s, p) + [d] else Listed(s, q) {
    }
    forall e ensures Held(t, e) == if e == d then Held(s, d) + [p] else Held(s, e) {
    }
    forall e, q: uint32 ensures Given(s, t, e, q) <==> e == d && q == p {
    }
    hide Listed, Held, Given;
    assert LoadsMatch(s, t);
    assert EntriesMatch(ctx, s, t);
  }

  lemma Unchanged(ctx: Context, s: State, t: State)
    requires 0 < ctx.pieceSize && t.objects == s.objects && t.connections == s.connections
    requires t.missing == s.missing && t.vault == s.vault && t.nextId == s.nextId
    requires (forall q :: Listed(t, q) == Listed(s, q)) && (forall e :: Held(t, e) == Held(s, e))
    ensures Grown(s, t) && LoadsMatch(s, t) && EntriesMatch(ctx, s, t)
  {
  }

  lemma GrownChains(ctx: Context, s: State, u: State, t: State)
    requires 0 < ctx.pieceSize
    requires Grown(s, u) && LoadsMatch(s, u) && EntriesMatch(ctx, s, u)
    requires Grown(u, t) && LoadsMatch(u, t) && EntriesMatch(ctx, u, t)
    ensures Grown(s, t) && LoadsMatch(s, t) && EntriesMatch(ctx, s, t)
  {
    GrowthChains(s, u, t);
    hide Effects.Blank, BitFields.Get, Listed, Held;
    forall d, p: uint32 ensures Given(s, t, d, p) <==> Given(s, u, d, p) || Given(u, t, d, p) {
      assert Listed(s, p) <= Listed(u, p) <= Listed(t, p);
    }
    hide Given;
    LoadsChain(s, u, t);
    EntriesChain(ctx, s, u, t);
  }

  lemma GrowthChains(s: State, u: State, t: State)
    requires Grown(s, u) && Grown(u, t)
    ensures Grown(s, t)
  {
    hide Listed, Held;
    forall p ensures Listed(s, p) <= Listed(t, p) {
      assert Listed(s, p) <= Listed(u, p) <= Listed(t, p);
    }
    forall d ensures Held(s, d) <= Held(t, d) {
      assert Held(s, d) <= Held(u, d) <= Held(t, d);
    }
  }

  lemma LoadsChain(s: State, u: State, t: State)
    requires Grown(s, u) && LoadsMatch(s, u) && LoadsMatch(u, t)
    requires forall d, p: uint32 :: Given(s, t, d, p) <==> Given(s, u, d, p) || Given(u, t, d, p)
    ensures LoadsMatch(s, t)
  {
    hide BitFields.Get, Listed, Held, Given;
  }

  lemma EntriesChain(ctx: Context, s: State, u: State, t: State)
    requires 0 < ctx.pieceSize && Grown(s, u) && EntriesMatch(ctx, s, u) && EntriesMatch(ctx, u, t)
    requires forall d, p: uint32 :: Given(s, t, d, p) <==> Given(s, u, d, p) || Given(u, t, d, p)
    ensures EntriesMatch(ctx, s, t)
  {
    hide Effects.Blank, Given, Listed, Held;
  }

  lemma VisitGrows(ctx: Context, policy: Download.Policy, s: State, p: uint32, pool: seq<Id>)
    requires Setting(ctx, policy) && Live(s, pool)
    ensures
      var t := Visit(ctx, policy, s, p, pool);
      && Grown(s, t) && LoadsMatch(s, t) && EntriesMatch(ctx, s, t)
      && forall d, q: uint32 :: Given(s, t, d, q) ==> q == p && d in pool
  {
    var u := Touch(s, p);
    assert forall q :: Listed(u, q) == Listed(s, q);
    Unchanged(ctx, s, u);
    if |Listed(u, p)| < MAX_DOWNLOADERS {
      var k := A.OfferFindsFirst(ctx, policy, u, p, pool);
      if k < |pool| {
        GivenGrows(ctx, policy, u, pool[k], p);
        A.GivenFields(ctx, policy, u, pool[k], p);
        hide A.Given, Download.Start, Grown, LoadsMatch, EntriesMatch, BitFields.Get;
        var t := A.Given(ctx, policy, u, pool[k], p);
        assert forall q :: Listed(t, q) == if q == p then Listed(u, p) + [pool[k]] else Listed(u, q);
        GrownChains(ctx, s, u, t);
      }
    }
  }

  lemma {:induction false} PassGrows(
    ctx: Context, policy: Download.Policy, s: State, order: seq<uint32>, pool: seq<Id>)
    requires Setting(ctx, policy) && Live(s, pool)
    ensures
      var t := Pass(ctx, policy, s, order, pool);
      && Grown(s, t) && LoadsMatch(s, t) && EntriesMatch(ctx, s, t)
      && forall d, q: uint32 :: Given(s, t, d, q) ==> q in order && d in pool
    decreases |order|
  {
    if order == [] {
      Unchanged(ctx, s, s);
    } else {
      hide Grown, LoadsMatch, EntriesMatch, Visit;
      var u := Visit(ctx, policy, s, order[0], pool);
      VisitGrows(ctx, policy, s, order[0], pool);
      PassGrows(ctx, policy, u, order[1..], pool);
      GrownChains(ctx, s, u, Pass(ctx, policy, u, order[1..], pool));
    }
  }

  /**
   * `assign` only adds: pool, connections, missing pieces, vault, and peers stay; lists and loads keep what
   * they have, in order. A downloader it lists under a piece is pooled and offers that piece, gets it into
   * its load and as a blank entry; the piece was missing. No other entry and no other load changes.
   */
  lemma AssignEffect(ctx: Context, policy: Download.Policy, s: State, order: seq<uint32>, pool: seq<Id>)
    requires Setting(ctx, policy) && Live(s, pool)
    ensures
      var t := Swarm.Assign(ctx, policy, s, order, pool);
      && Grown(s, t) && LoadsMatch(s, t) && EntriesMatch(ctx, s, t)
      && forall d, p: uint32 :: Given(s, t, d, p) ==> p in order && d in pool
  {
    A.AssignIsTwoPasses(ctx, policy, s, order, pool);
    hide Grown, LoadsMatch, EntriesMatch, Pass;
    var u := Pass(ctx, policy, s, order, pool);
    PassGrows(ctx, policy, s, order, pool);
    PassGrows(ctx, policy, u, order, pool);
    GrownChains(ctx, s, u, Pass(ctx, policy, u, order, pool));
  }

  // ---------- revoke ----------

  /** A list without some downloaders, in its order. */
  function Filtered(ds: seq<Id>, gone: set<Id>): seq<Id> {
    if ds == [] then []
    else (if ds[0] in gone then [] else [ds[0]]) + Filtered(ds[1..], gone)
  }

  lemma {:induction false} FilteredOnce(ds: seq<Id>, d: Id)
    ensures Without(ds, d) == Filtered(ds, {d})
  {
    if ds != [] {
      FilteredOnce(ds[1..], d);
    }
  }

  lemma {:induction false} FilteredTwice(ds: seq<Id>, a: set<Id>, b: set<Id>)
    ensures Filtered(Filtered(ds, a), b) == Filtered(ds, a + b)
  {
    if ds != [] {
      FilteredTwice(ds[1..], a, b);
      var rest := Filtered(ds[1..], a);
      if ds[0] in a {
        assert Filtered(ds, a) == rest;
      } else {
        assert ([ds[0]] + rest)[1..] == rest;
      }
    }
  }

  lemma {:induction false} FilteredByNone(ds: seq<Id>)
    ensures Filtered(ds, {}) == ds
  {
    if ds != [] {
      FilteredByNone(ds[1..]);
    }
  }

  lemma UnlistFilters(s: State, d: Id, p: uint32)
    requires ListedHolds(s)
    ensures
      var t := Unlist(s, d, Held(s, d));
      Listed(t, p) == Filtered(Listed(s, p), {d}) && ListedHolds(t) && forall e :: Held(t, e) == Held(s, e)
  {
    R.UnlistResult(s, d, Held(s, d));
    FilteredOnce(Listed(s, p), d);
    WithoutElements(Listed(s, p), d);
    hide Without, Filtered;
    var t := Unlist(s, d, Held(s, d));
    assert forall e :: Held(t, e) == Held(s, e);
    forall q, e | e in Listed(t, q) ensures e in t.peerPool && q in Held(t, e) {
      WithoutElements(Listed(s, q), d);
      assert e in Listed(s, q);
    }
  }

  ghost function Among(pool: seq<Id>, inactive: set<Id>): set<Id> {
    set d | d in pool && d in inactive
  }

  lemma {:induction false} ScanFilters(s: State, inactive: set<Id>, pool: seq<Id>, p: uint32)
    requires ListedHolds(s)
    ensures Listed(Scan(s, inactive, pool), p) == Filtered(Listed(s, p), Among(pool, inactive))
    decreases |pool|
  {
    var gone := Among(pool, inactive);
    if pool == [] {
      assert gone == {};
      FilteredByNone(Listed(s, p));
      assert Scan(s, inactive, pool) == s;
    } else {
      var d, more := pool[0], pool[1..];
      var later := Among(more, inactive);
      assert pool == [d] + more;
      if d in inactive {
        UnlistFilters(s, d, p);
        hide Unlist, Filtered;
        ScanFilters(Unlist(s, d, Held(s, d)), inactive, more, p);
        FilteredTwice(Listed(s, p), {d}, later);
        assert gone == {d} + later;
      } else {
        ScanFilters(s, inactive, more, p);
        assert gone == later;
      }
    }
  }

  /**
   * `revoke`: each list loses the inactive downloaders and keeps its order. Those of them that hold a piece
   * leave the pool, with their connections; every other downloader keeps its load, its state and its
   * connection. Missing pieces and vault stay.
   */
  lemma RevokeEffect(
    ctx: Context, s: State, inactive: set<Id>, pool: seq<Id>, p: uint32)
    requires Books(ctx, s) && ListedHolds(s) && Enumerates(pool, s.peerPool.Keys) && Live(s, pool)
    ensures
      var t := Swarm.Revoke(s, inactive, pool);
      && Listed(t, p) == Filtered(Listed(s, p), inactive)
      && t.missing == s.missing && t.vault == s.vault && t.history == s.history && t.nextId == s.nextId
      && (forall d :: d in t.peerPool <==> d in s.peerPool && (d in inactive ==> Held(s, d) == []))
      && (forall d :: d in t.objects <==> d in t.peerPool)
      && (forall d :: d in t.peerPool ==>
            && t.peerPool[d] == s.peerPool[d] && t.objects[d] == s.objects[d]
            && AddressOf(s, d) in t.connections && t.connections[AddressOf(s, d)] == s.connections[AddressOf(s, d)])
      && (forall d :: d in s.objects && d !in t.objects ==> AddressOf(s, d) !in t.connections)
  {
    var t := Swarm.Revoke(s, inactive, pool);
    R.RevokeResult(s, inactive, pool);
    ScanFilters(s, inactive, pool, p);
    hide Swarm.Revoke, Scan, Filtered, Bounded, HolderListed, EntriesHeld;
    FilteredPooled(s, inactive, pool, p);
    var removed := R.Removed(s, inactive, pool);
    forall d | d in s.objects && d !in removed
      ensures AddressOf(s, d) !in R.Addresses(s, removed)
    {
    }
  }

  lemma {:induction false} FilteredSame(ds: seq<Id>, a: set<Id>, b: set<Id>)
    requires forall d :: d in ds ==> (d in a <==> d in b)
    ensures Filtered(ds, a) == Filtered(ds, b)
  {
    if ds != [] {
      assert ds[0] in ds && forall d :: d in ds[1..] ==> d in ds;
      FilteredSame(ds[1..], a, b);
    }
  }

  lemma FilteredPooled(s: State, inactive: set<Id>, pool: seq<Id>, p: uint32)
    requires ListedHolds(s) && forall d :: d in s.peerPool ==> d in pool
    ensures
      Filtered(Listed(s, p), Among(pool, inactive)) == Filtered(Listed(s, p), inactive)
  {
    FilteredSame(Listed(s, p), Among(pool, inactive), inactive);
  }
}
