/** `is_done`: finished pieces are stored and released, corrupt ones are asked for again. */
module SwarmDone {
  import opened Bytes
  import opened TorrentContext
  import opened Swarm
  import opened SwarmProofs
  import Assign = SwarmAssign
  import Download
  import Runs = DownloadProofs
  import Steps = DownloadSteps

  /** The books agree about every piece outside `open`; lists only name live downloaders. */
  ghost predicate Settled(s: State, open: set<uint32>) {
    && (forall q, d :: d in Listed(s, q) ==> d in s.objects)
    && (forall q, d :: q !in open && d in Listed(s, q) ==> q in Held(s, d))
    && (forall q :: q !in open && Listed(s, q) != [] ==> q in s.missing)
  }

  lemma EraseOneRemoves(list: seq<uint32>, p: uint32)
    requires NoDuplicates(list)
    ensures EraseOne(list, p) == Without(list, p)
  {
    WithoutElements(list, p);
  }

  // ---------- taking a finished piece out of a downloader ----------

  ghost function Taken(s: State, d: Id, p: uint32): State
    requires d in s.objects && p in s.objects[d].state.pieces
  {
    var o := s.objects[d].state;
    WithState(s, d, o.(pieces := o.pieces - {p}))
  }

  ghost predicate Finished(s: State, d: Id, p: uint32) {
    && d in s.objects && p in s.objects[d].state.pieces
    && s.objects[d].state.pieces[p].status == Download.Complete
  }

  /** A finished piece has the right size, and in an honest swarm the right bytes. */
  lemma FinishedData(env: Runs.Environment, ctx: Context, policy: Download.Policy, s: State, d: Id, p: uint32)
    requires ctx.Valid() && HashesMatch(env, ctx) && Healthy(env, ctx, policy, s) && Finished(s, d, p)
    ensures
      var data := s.objects[d].state.pieces[p].data;
      && p < ctx.pieceCount && |data| == ctx.PieceSize(p) && (!env.InBounds? ==> data != [])
      && (env.Authentic? ==> p < |env.pieces| && data == env.pieces[p] && ctx.sha1(data) == ctx.pieceHashes[p])
  {
    CompleteData(env, ctx, policy, s.objects[d].state, p);
  }

  lemma CompleteData(env: Runs.Environment, ctx: Context, policy: Download.Policy, o: Download.State, p: nat)
    requires ctx.Valid() && Runs.Invariant(env, ctx, policy, o)
    requires p in o.pieces && o.pieces[p].status == Download.Complete
    ensures p < ctx.pieceCount && |o.pieces[p].data| == ctx.PieceSize(p)
    ensures !env.InBounds? ==> o.pieces[p].data != []
    ensures env.Authentic? ==> p < |env.pieces| && o.pieces[p].data == env.pieces[p]
  {
    assert Runs.PieceShape(ctx, p, o.pieces[p]);
    if env.Authentic? {
      Steps.CompleteIsSettled(ctx, policy, o, p);
      assert Runs.Agrees(o.pieces[p].data, env.pieces[p], Runs.AwaitedIn(o, p));
    }
  }

  lemma TakenState(
    env: Runs.Environment, ctx: Context, policy: Download.Policy, o: Download.State, p: uint32)
    requires ctx.Valid() && Runs.Invariant(env, ctx, policy, o) && p < ctx.pieceCount
    requires p in o.pieces && o.pieces[p].status == Download.Complete
    ensures Runs.Invariant(env, ctx, policy, o.(pieces := o.pieces - {p}))
    ensures !env.InBounds? ==> Runs.Fresh(o.(pieces := o.pieces - {p}), p)
  {
    Steps.CollectKeeps(env, ctx, policy, o, p);
    assert Download.Retrieve(ctx, o, p).1 == o.(pieces := o.pieces - {p as nat});
  }

  lemma TakenGoods(
    env: Runs.Environment, ctx: Context, policy: Download.Policy, vault: map<nat, seq<byte>>,
    s: State, d: Id, p: uint32)
    requires ctx.Valid() && Goods(env, ctx, policy, vault, s) && Finished(s, d, p) && p < ctx.pieceCount
    ensures Goods(env, ctx, policy, vault, Taken(s, d, p))
    ensures p !in Taken(s, d, p).objects[d].state.pieces
    ensures !env.InBounds? ==> Runs.Fresh(Taken(s, d, p).objects[d].state, p)
  {
    TakenState(env, ctx, policy, s.objects[d].state, p);
    hide Runs.Invariant;
    MoveGoods(env, ctx, policy, vault, s, d, s.objects[d].state.(pieces := s.objects[d].state.pieces - {p}));
  }

  /** Replacing a downloader's state by a sound one leaves storage and history as they are. */
  lemma MoveGoods(
    env: Runs.Environment, ctx: Context, policy: Download.Policy, vault: map<nat, seq<byte>>,
    s: State, d: Id, o: Download.State)
    requires ctx.Valid() && Goods(env, ctx, policy, vault, s) && d in s.objects && Runs.Invariant(env, ctx, policy, o)
    ensures Goods(env, ctx, policy, vault, WithState(s, d, o))
  {
    hide Runs.Invariant;
  }

  lemma TakenBooks(ctx: Context, s: State, d: Id, p: uint32)
    requires Books(ctx, s) && Finished(s, d, p)
    ensures Books(ctx, Taken(s, d, p))
  {
    Assign.SameAddresses(s, Taken(s, d, p));
    TakenEntries(s, d, p);
  }

  lemma TakenEntries(s: State, d: Id, p: uint32)
    requires EntriesHeld(s) && HolderListed(s) && Finished(s, d, p)
    ensures EntriesHeld(Taken(s, d, p)) && HolderListed(Taken(s, d, p))
  {
    var t := Taken(s, d, p);
    forall e, q | e in t.objects && q in t.objects[e].state.pieces ensures q < U32 && q in Held(t, e) {
      assert q in s.objects[e].state.pieces;
    }
    assert forall e :: Held(t, e) == Held(s, e);
    assert forall q :: Listed(t, q) == Listed(s, q);
  }

  // ---------- storing it ----------

  lemma StoredBooks(s: State, d: Id, p: uint32, data: seq<byte>)
    requires d in s.peerPool && NoDuplicates(s.peerPool[d])
    ensures
      var t := Stored(s, d, p, data);
      && (forall e :: Held(t, e) == if e == d then Without(Held(s, d), p) else Held(s, e))
      && (forall q :: Listed(t, q) == Listed(s, q))
      && (forall e, q :: q in Held(t, e) <==> q in Held(s, e) && !(e == d && q == p))
  {
    EraseOneRemoves(Held(s, d), p);
    WithoutElements(Held(s, d), p);
  }

  lemma StoredKeepsLists(ctx: Context, s: State, d: Id, p: uint32, data: seq<byte>)
    requires Bounded(ctx, s) && HolderListed(s) && d in s.peerPool
    ensures Bounded(ctx, Stored(s, d, p, data)) && HolderListed(Stored(s, d, p, data))
  {
    StoredBooks(s, d, p, data);
    WithoutElements(Held(s, d), p);
    var t := Stored(s, d, p, data);
    forall e | e in t.peerPool ensures NoDuplicates(t.peerPool[e]) && |t.peerPool[e]| <= MAX_PIECES {
      assert t.peerPool[e] == Held(t, e);
    }
    forall e, q | e in t.peerPool && q in t.peerPool[e] ensures q < ctx.pieceCount {
      assert q in Held(t, e);
      assert q in Held(s, e);
    }
  }

  lemma StoredKeepsEntries(s: State, d: Id, p: uint32, data: seq<byte>)
    requires EntriesHeld(s) && d in s.peerPool && NoDuplicates(s.peerPool[d])
    requires d in s.objects && p !in s.objects[d].state.pieces
    ensures EntriesHeld(Stored(s, d, p, data))
  {
    StoredBooks(s, d, p, data);
    var t := Stored(s, d, p, data);
    forall e, q | e in t.objects && q in t.objects[e].state.pieces ensures q < U32 && q in Held(t, e) {
      assert q in Held(s, e);
    }
  }

  lemma StoredKeepsBooks(ctx: Context, s: State, d: Id, p: uint32, data: seq<byte>)
    requires Books(ctx, s) && d in s.objects && p !in s.objects[d].state.pieces
    ensures Books(ctx, Stored(s, d, p, data))
  {
    StoredKeepsLists(ctx, s, d, p, data);
    StoredKeepsEntries(s, d, p, data);
    Assign.SameAddresses(s, Stored(s, d, p, data));
  }

  lemma StoredKeepsGoods(
    env: Runs.Environment, ctx: Context, policy: Download.Policy, vault: map<nat, seq<byte>>,
    s: State, d: Id, p: uint32, data: seq<byte>)
    requires ctx.Valid() && Goods(env, ctx, policy, vault, s) && p in Held(s, d) && GoodPiece(env, ctx, p, data)
    ensures Goods(env, ctx, policy, vault, Stored(s, d, p, data))
  {
  }

  // ---------- asking again ----------

  lemma AskFields(ctx: Context, policy: Download.Policy, s: State, d: Id, p: uint32)
    requires Setting(ctx, policy) && d in s.objects
    ensures
      var t, o := Ask(ctx, policy, s, d, p).1, s.objects[d].state;
      t == s.(objects := s.objects[d := Remote(s.objects[d].contact, Download.Start(ctx, policy, o, p).1)],
              history := s.history + [Asked(d, p, p in o.pieces, HasRequests(o, p))])
  {
  }

  lemma AskAgainBooks(ctx: Context, policy: Download.Policy, s: State, d: Id, p: uint32)
    requires Setting(ctx, policy) && Books(ctx, s) && d in s.objects && p in Held(s, d)
    ensures Books(ctx, Ask(ctx, policy, s, d, p).1)
  {
    var t := Ask(ctx, policy, s, d, p).1;
    AskFields(ctx, policy, s, d, p);
    Assign.SameAddresses(s, t);
    SameLists(ctx, s, t);
    AskAgainEntries(ctx, policy, s, d, p);
  }

  lemma AskAgainEntries(ctx: Context, policy: Download.Policy, s: State, d: Id, p: uint32)
    requires Setting(ctx, policy) && EntriesHeld(s) && d in s.objects && p in Held(s, d)
    ensures EntriesHeld(Ask(ctx, policy, s, d, p).1)
  {
    var t := Ask(ctx, policy, s, d, p).1;
    AskFields(ctx, policy, s, d, p);
    Assign.StartedEntries(ctx, policy, s.objects[d].state, p);
    forall e, q | e in t.objects && q in t.objects[e].state.pieces ensures q < U32 && q in Held(t, e) {
      assert q in s.objects[e].state.pieces || (e == d && q == p);
    }
  }

  lemma SameLists(ctx: Context, s: State, t: State)
    requires t.pieceDownloaders == s.pieceDownloaders && t.peerPool == s.peerPool && t.missing == s.missing
    ensures forall q :: Listed(t, q) == Listed(s, q)
    ensures forall e :: Held(t, e) == Held(s, e)
    ensures Bounded(ctx, s) ==> Bounded(ctx, t)
    ensures HolderListed(s) ==> HolderListed(t)
  {
  }

  lemma AskAgainGoods(
    env: Runs.Environment, ctx: Context, policy: Download.Policy, vault: map<nat, seq<byte>>,
    s: State, d: Id, p: uint32)
    requires Setting(ctx, policy) && Goods(env, ctx, policy, vault, s) && p < ctx.pieceCount
    requires d in s.objects && p !in s.objects[d].state.pieces
    requires !env.InBounds? ==> Runs.Fresh(s.objects[d].state, p)
    ensures Goods(env, ctx, policy, vault, Ask(ctx, policy, s, d, p).1)
  {
    AskFields(ctx, policy, s, d, p);
    Steps.BeginKeeps(env, ctx, policy, s.objects[d].state, p);
  }

  // ---------- one downloader of one piece ----------

  ghost function WithObservation(s: State, o: Observation): State {
    s.(history := s.history + [o])
  }

  lemma ObservedBooks(ctx: Context, s: State, o: Observation)
    requires Books(ctx, s)
    ensures Books(ctx, WithObservation(s, o))
  {
    SameLists(ctx, s, WithObservation(s, o));
    Assign.SameAddresses(s, WithObservation(s, o));
  }

  lemma ObservedGoods(
    env: Runs.Environment, ctx: Context, policy: Download.Policy, vault: map<nat, seq<byte>>, s: State, o: Observation)
    requires ctx.Valid() && Goods(env, ctx, policy, vault, s) && Safe(env, o)
    ensures Goods(env, ctx, policy, vault, WithObservation(s, o))
  {
  }

  ghost predicate HashRight(ctx: Context, s: State, d: Id, p: uint32)
    requires ctx.Valid() && p < ctx.pieceCount && Finished(s, d, p)
  {
    ctx.sha1(s.objects[d].state.pieces[p].data) == ctx.pieceHashes[p]
  }

  /** The three outcomes of looking at one downloader. */
  lemma CollectCases(ctx: Context, policy: Download.Policy, s: State, p: uint32, d: Id)
    requires Setting(ctx, policy) && d in s.objects && p < ctx.pieceCount
    requires forall q :: q in s.objects[d].state.pieces ==> s.objects[d].state.pieces[q].status != Download.Corrupt
    ensures
      Collect(ctx, policy, s, p, d) ==
        if !Finished(s, d, p) then (false, s)
        else if HashRight(ctx, s, d, p) then
          (true, Stored(WithObservation(Taken(s, d, p), Judged(d, p, false)), d, p, s.objects[d].state.pieces[p].data))
        else
          (false, Ask(ctx, policy, WithObservation(Taken(s, d, p), Judged(d, p, true)), d, p).1)
  {
    var o := s.objects[d].state;
    if !Finished(s, d, p) {
      assert WithState(s, d, o) == s;
    }
  }

  lemma CollectBooks(
    ctx: Context, policy: Download.Policy, s: State, p: uint32, d: Id)
    requires Setting(ctx, policy) && Books(ctx, s) && p < ctx.pieceCount && Finished(s, d, p) && p in Held(s, d)
    ensures
      var u, data := Taken(s, d, p), s.objects[d].state.pieces[p].data;
      var good, bad := WithObservation(u, Judged(d, p, false)), WithObservation(u, Judged(d, p, true));
      && Books(ctx, Stored(good, d, p, data)) && Books(ctx, Ask(ctx, policy, bad, d, p).1)
  {
    hide OnePerAddress, Bounded, HolderListed, EntriesHeld;
    var u := Taken(s, d, p);
    TakenBooks(ctx, s, d, p);
    ObservedBooks(ctx, u, Judged(d, p, false));
    ObservedBooks(ctx, u, Judged(d, p, true));
    StoredKeepsBooks(ctx, WithObservation(u, Judged(d, p, false)), d, p, s.objects[d].state.pieces[p].data);
    AskAgainBooks(ctx, policy, WithObservation(u, Judged(d, p, true)), d, p);
  }

  lemma CollectGoods(
    env: Runs.Environment, ctx: Context, policy: Download.Policy, vault: map<nat, seq<byte>>,
    s: State, p: uint32, d: Id)
    requires Setting(ctx, policy) && HashesMatch(env, ctx) && Goods(env, ctx, policy, vault, s)
    requires p < ctx.pieceCount && Finished(s, d, p) && p in Held(s, d)
    ensures
      var u, data := Taken(s, d, p), s.objects[d].state.pieces[p].data;
      if HashRight(ctx, s, d, p) then
        Goods(env, ctx, policy, vault, Stored(WithObservation(u, Judged(d, p, false)), d, p, data))
      else
        Goods(env, ctx, policy, vault, Ask(ctx, policy, WithObservation(u, Judged(d, p, true)), d, p).1)
  {
    var u := Taken(s, d, p);
    FinishedData(env, ctx, policy, s, d, p);
    TakenGoods(env, ctx, policy, vault, s, d, p);
    if HashRight(ctx, s, d, p) {
      var good := WithObservation(u, Judged(d, p, false));
      ObservedGoods(env, ctx, policy, vault, u, Judged(d, p, false));
      StoredKeepsGoods(env, ctx, policy, vault, good, d, p, s.objects[d].state.pieces[p].data);
    } else {
      ObservedGoods(env, ctx, policy, vault, u, Judged(d, p, true));
      AskAgainGoods(env, ctx, policy, vault, WithObservation(u, Judged(d, p, true)), d, p);
    }
  }

  /** What collecting changes in the lists: at most the delivered piece leaves its deliverer's list. */
  ghost predicate ListsAfter(s: State, t: State, done: bool, p: uint32, d: Id) {
    && t.objects.Keys == s.objects.Keys && t.pieceDownloaders == s.pieceDownloaders
    && (forall e, q :: q in Held(t, e) <==> q in Held(s, e) && !(done && e == d && q == p))
    && t.missing == if done then s.missing - {p} else s.missing
  }

  lemma CollectLists(ctx: Context, policy: Download.Policy, s: State, p: uint32, d: Id)
    requires Setting(ctx, policy) && Bounded(ctx, s) && Identities(s) && p < ctx.pieceCount && Finished(s, d, p)
    ensures
      var u, data := Taken(s, d, p), s.objects[d].state.pieces[p].data;
      && ListsAfter(s, Stored(WithObservation(u, Judged(d, p, false)), d, p, data), true, p, d)
      && ListsAfter(s, Ask(ctx, policy, WithObservation(u, Judged(d, p, true)), d, p).1, false, p, d)
  {
    var u := Taken(s, d, p);
    StoredBooks(WithObservation(u, Judged(d, p, false)), d, p, s.objects[d].state.pieces[p].data);
    AskFields(ctx, policy, WithObservation(u, Judged(d, p, true)), d, p);
    assert forall e :: Held(WithObservation(u, Judged(d, p, false)), e) == Held(s, e);
  }

  lemma NeverKeptCorrupt(
    env: Runs.Environment, ctx: Context, policy: Download.Policy, vault: map<nat, seq<byte>>, s: State, d: Id)
    requires ctx.Valid() && Goods(env, ctx, policy, vault, s) && d in s.objects
    ensures forall q :: q in s.objects[d].state.pieces ==> s.objects[d].state.pieces[q].status != Download.Corrupt
  {
    assert Runs.Invariant(env, ctx, policy, s.objects[d].state);
  }

  lemma CollectKeeps(
    env: Runs.Environment, ctx: Context, policy: Download.Policy, vault: map<nat, seq<byte>>,
    s: State, p: uint32, d: Id)
    requires Setting(ctx, policy) && HashesMatch(env, ctx) && Core(env, ctx, policy, vault, s)
    requires d in s.objects && p in Held(s, d) && p < ctx.pieceCount
    ensures
      var (done, t) := Collect(ctx, policy, s, p, d);
      Core(env, ctx, policy, vault, t) && ListsAfter(s, t, done, p, d)
  {
    hide Identities, OnePerAddress, Bounded, HolderListed, EntriesHeld, MissingExact, VaultGood, Healthy, HistorySafe;
    NeverKeptCorrupt(env, ctx, policy, vault, s, d);
    CollectCases(ctx, policy, s, p, d);
    if Finished(s, d, p) {
      CollectBooks(ctx, policy, s, p, d);
      CollectGoods(env, ctx, policy, vault, s, p, d);
      CollectLists(ctx, policy, s, p, d);
    }
  }

  // ---------- all downloaders of one piece ----------

  lemma {:induction false} CollectFromKeeps(
    env: Runs.Environment, ctx: Context, policy: Download.Policy, vault: map<nat, seq<byte>>,
    s: State, p: uint32, ds: seq<Id>)
    requires Setting(ctx, policy) && HashesMatch(env, ctx) && Core(env, ctx, policy, vault, s) && p < ctx.pieceCount
    requires NoDuplicates(ds) && forall d :: d in ds ==> d in s.objects && p in Held(s, d)
    ensures
      var (done, t) := CollectFrom(ctx, policy, s, p, ds);
      && Core(env, ctx, policy, vault, t)
      && (forall e, q :: q != p || !done ==> (q in Held(t, e) <==> q in Held(s, e)))
      && t.missing == if done then s.missing - {p} else s.missing
    decreases |ds|
  {
    hide Identities, OnePerAddress, Bounded, HolderListed, EntriesHeld, MissingExact, VaultGood, Healthy, HistorySafe;
    if ds != [] {
      var d := ds[0];
      var (first, u) := Collect(ctx, policy, s, p, d);
      CollectKeeps(env, ctx, policy, vault, s, p, d);
      forall e | e in ds[1..] ensures e in u.objects && p in Held(u, e) && e != d {
        assert e in ds;
      }
      CollectFromKeeps(env, ctx, policy, vault, u, p, ds[1..]);
    }
  }

  lemma PieceSettles(
    env: Runs.Environment, ctx: Context, policy: Download.Policy, vault: map<nat, seq<byte>>,
    s: State, open: set<uint32>, p: uint32)
    requires Setting(ctx, policy) && HashesMatch(env, ctx) && Core(env, ctx, policy, vault, s)
    requires Settled(s, open) && p !in open && p in s.pieceDownloaders
    ensures p < ctx.pieceCount && forall d :: d in Listed(s, p) ==> d in s.objects
    ensures
      var (done, t) := CollectFrom(ctx, policy, s, p, Listed(s, p));
      && Core(env, ctx, policy, vault, t) && t.pieceDownloaders == s.pieceDownloaders
      && Settled(t, if done then open + {p} else open)
      && t.missing == if done then s.missing - {p} else s.missing
  {
    hide Goods, Identities, OnePerAddress, HolderListed, EntriesHeld;
    assert p < ctx.pieceCount && NoDuplicates(Listed(s, p));
    hide Bounded, Books;
    CollectFromKeeps(env, ctx, policy, vault, s, p, Listed(s, p));
    hide Core;
    var (done, t) := CollectFrom(ctx, policy, s, p, Listed(s, p));
    StaysSettled(s, t, open, p, done);
  }

  lemma StaysSettled(s: State, t: State, open: set<uint32>, p: uint32, done: bool)
    requires Settled(s, open)
    requires t.pieceDownloaders == s.pieceDownloaders && t.objects.Keys == s.objects.Keys
    requires t.missing == if done then s.missing - {p} else s.missing
    requires forall e, q :: q != p || !done ==> (q in Held(t, e) <==> q in Held(s, e))
    ensures Settled(t, if done then open + {p} else open)
  {
    hide Held;
    assert forall q :: Listed(t, q) == Listed(s, q);
  }

  // ---------- all pieces ----------

  lemma {:induction false} CollectAllKeeps(
    env: Runs.Environment, ctx: Context, policy: Download.Policy, vault: map<nat, seq<byte>>,
    s: State, open: set<uint32>, keys: seq<uint32>)
    requires Setting(ctx, policy) && HashesMatch(env, ctx) && Core(env, ctx, policy, vault, s)
    requires Settled(s, open) && NoDuplicates(keys)
    requires forall p :: p in keys ==> p in s.pieceDownloaders && p !in open
    ensures Grounded(ctx, s, keys)
    ensures
      var (completed, t) := CollectAll(ctx, policy, s, keys);
      && Core(env, ctx, policy, vault, t) && t.pieceDownloaders == s.pieceDownloaders
      && Settled(t, open + completed)
      && t.missing == s.missing - completed
    decreases |keys|
  {
    hide Identities, OnePerAddress, HolderListed, EntriesHeld, MissingExact, VaultGood, Healthy, HistorySafe;
    if keys == [] {
      assert open + {} == open;
    } else {
      var p := keys[0];
      assert forall q :: q in keys ==> q < ctx.pieceCount;
      PieceSettles(env, ctx, policy, vault, s, open, p);
      var (done, u) := CollectFrom(ctx, policy, s, p, Listed(s, p));
      var next := if done then open + {p} else open;
      forall q | q in keys[1..] ensures q in u.pieceDownloaders && q !in next {
        assert q in keys;
      }
      CollectAllKeeps(env, ctx, policy, vault, u, next, keys[1..]);
      var (rest, t) := CollectAll(ctx, policy, u, keys[1..]);
      var first: set<uint32> := if done then {p} else {};
      assert open + (first + rest) == next + rest;
      assert s.missing - (first + rest) == u.missing - rest;
    }
  }

  lemma IsDoneKeeps(
    env: Runs.Environment, ctx: Context, policy: Download.Policy, vault: map<nat, seq<byte>>,
    s: State, keys: seq<uint32>)
    requires Setting(ctx, policy) && HashesMatch(env, ctx) && Invariant(env, ctx, policy, vault, s)
    requires Enumerates(keys, s.pieceDownloaders.Keys)
    ensures Grounded(ctx, s, keys)
    ensures
      var (done, t) := Swarm.IsDone(ctx, policy, s, keys);
      && Invariant(env, ctx, policy, vault, t)
      && t.missing <= s.missing
      && (done <==> t.missing == {})
  {
    ListsAreLive(s);
    CollectAllKeeps(env, ctx, policy, vault, s, {}, keys);
    var (completed, u) := CollectAll(ctx, policy, s, keys);
    assert {} + completed == completed;
    ReleaseKeeps(env, ctx, policy, vault, u, completed);
  }

  lemma ListsAreLive(s: State)
    requires Identities(s) && ListedHolds(s) && ListedMissing(s)
    ensures Settled(s, {})
  {
  }

  lemma ReleaseBooks(ctx: Context, s: State, completed: set<uint32>)
    requires Books(ctx, s) && Settled(s, completed) && completed !! s.missing
    ensures
      var t := s.(pieceDownloaders := s.pieceDownloaders - completed);
      Books(ctx, t) && ListedHolds(t) && ListedMissing(t)
  {
    var t := s.(pieceDownloaders := s.pieceDownloaders - completed);
    ReleaseLists(ctx, s, completed);
    hide Bounded, HolderListed, ListedHolds, ListedMissing;
    Assign.SameAddresses(s, t);
    hide OnePerAddress;
    assert forall e :: Held(t, e) == Held(s, e);
  }

  lemma ReleaseLists(ctx: Context, s: State, completed: set<uint32>)
    requires Bounded(ctx, s) && HolderListed(s) && Settled(s, completed) && completed !! s.missing
    requires Identities(s)
    ensures
      var t := s.(pieceDownloaders := s.pieceDownloaders - completed);
      Bounded(ctx, t) && HolderListed(t) && ListedHolds(t) && ListedMissing(t)
  {
    var t := s.(pieceDownloaders := s.pieceDownloaders - completed);
    assert forall q :: Listed(t, q) == if q in completed then [] else Listed(s, q);
    assert forall e :: Held(t, e) == Held(s, e);
  }

  lemma ReleaseKeeps(
    env: Runs.Environment, ctx: Context, policy: Download.Policy, vault: map<nat, seq<byte>>,
    s: State, completed: set<uint32>)
    requires ctx.Valid() && Core(env, ctx, policy, vault, s) && Settled(s, completed) && completed !! s.missing
    ensures Invariant(env, ctx, policy, vault, s.(pieceDownloaders := s.pieceDownloaders - completed))
  {
    hide Books, ListedHolds, ListedMissing;
    ReleaseBooks(ctx, s, completed);
  }
}
