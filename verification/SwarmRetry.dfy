/**
 * Exactly when a listed downloader loses its entry: in `is_done`, when the retry of a corrupt piece is
 * refused for want of its bit and nobody else delivers the piece.
 */
module SwarmRetry {
  import opened Bytes
  import opened TorrentContext
  import opened Swarm
  import opened SwarmProofs
  import BitFields
  import Download
  import Runs = DownloadProofs
  import D = SwarmDone
  import E = SwarmEntries
  import Effects = DownloadEffects
  import Theorems = SwarmTheorems

  // ---------- one downloader and one piece ----------

  /** The downloader has the whole piece, and its hash is the torrent's. */
  ghost predicate Right(ctx: Context, o: Download.State, p: nat)
    requires p < |ctx.pieceHashes|
  {
    p in o.pieces && o.pieces[p].status == Download.Complete && ctx.sha1(o.pieces[p].data) == ctx.pieceHashes[p]
  }

  /** It has the whole piece with another hash, and its peer does not offer the piece any more. */
  ghost predicate Doomed(ctx: Context, o: Download.State, p: nat)
    requires p < |ctx.pieceHashes|
  {
    && p in o.pieces && o.pieces[p].status == Download.Complete && ctx.sha1(o.pieces[p].data) != ctx.pieceHashes[p]
    && !BitFields.Get(o.peer.remoteBitfield, p)
  }

  ghost predicate Keeps(ctx: Context, o: Download.State, p: nat)
    requires p < |ctx.pieceHashes|
  {
    p in o.pieces && !Right(ctx, o, p) && !Doomed(ctx, o, p)
  }

  /**
   * What is left of a piece that was collected: nothing of a right or doomed one, a blank entry of a
   * corrupt one that could be asked for again, and everything of an unfinished one.
   */
  ghost predicate Outcome(ctx: Context, o: Download.State, t: Download.State, p: nat)
    requires 0 < ctx.pieceSize && p < |ctx.pieceHashes|
  {
    && (p in t.pieces <==> Keeps(ctx, o, p))
    && (p in t.pieces && p in o.pieces ==>
          if o.pieces[p].status == Download.Complete then Effects.Blank(ctx, t.pieces[p], p)
          else t.pieces[p] == o.pieces[p])
  }

  /** Nothing that concerns the piece has changed. */
  ghost predicate SamePiece(o: Download.State, t: Download.State, p: nat) {
    && t.peer == o.peer && (p in t.pieces <==> p in o.pieces)
    && (p in o.pieces ==> t.pieces[p] == o.pieces[p])
  }

  ghost predicate NotCorrupt(o: Download.State, p: nat) {
    p in o.pieces ==> o.pieces[p].status != Download.Corrupt
  }

  lemma StartTouchesOne(ctx: Context, policy: Download.Policy, o: Download.State, p: uint32, q: nat)
    requires Setting(ctx, policy) && q != p
    ensures SamePiece(o, Download.Start(ctx, policy, o, p).1, q)
  {
  }

  lemma AfterCollectOther(ctx: Context, policy: Download.Policy, o: Download.State, p: uint32, q: nat)
    requires Setting(ctx, policy) && p < |ctx.pieceHashes| && q != p
    ensures SamePiece(o, E.AfterCollect(ctx, policy, o, p).1, q)
  {
    StartTouchesOne(ctx, policy, Download.Retrieve(ctx, o, p).1, p, q);
    hide Download.Start;
  }

  lemma AfterCollectOwn(ctx: Context, policy: Download.Policy, o: Download.State, p: uint32)
    requires Setting(ctx, policy) && p < |ctx.pieceHashes| && NotCorrupt(o, p)
    ensures
      var (done, t) := E.AfterCollect(ctx, policy, o, p);
      (done <==> Right(ctx, o, p)) && Outcome(ctx, o, t, p)
  {
    Effects.StartEffect(ctx, policy, Download.Retrieve(ctx, o, p).1, p);
    hide Download.Start, BitFields.Get, Effects.Blank, Effects.CutsPiece;
  }

  // ---------- one piece, all its downloaders ----------

  ghost predicate SameAt(s: State, t: State, d: Id, p: nat) {
    d in s.objects && d in t.objects && SamePiece(s.objects[d].state, t.objects[d].state, p)
  }

  ghost predicate HasEntry(s: State, d: Id, p: nat) {
    d in s.objects && p in s.objects[d].state.pieces
  }

  ghost predicate RightAt(ctx: Context, s: State, d: Id, p: nat) {
    d in s.objects && p < |ctx.pieceHashes| && Right(ctx, s.objects[d].state, p)
  }

  ghost predicate DoomedAt(ctx: Context, s: State, d: Id, p: nat) {
    d in s.objects && p < |ctx.pieceHashes| && Doomed(ctx, s.objects[d].state, p)
  }

  ghost predicate KeepsAt(ctx: Context, s: State, d: Id, p: nat) {
    d in s.objects && p < |ctx.pieceHashes| && Keeps(ctx, s.objects[d].state, p)
  }

  ghost predicate OutcomeAt(ctx: Context, s: State, t: State, d: Id, p: nat)
    requires 0 < ctx.pieceSize
  {
    && d in s.objects && d in t.objects && p < |ctx.pieceHashes|
    && Outcome(ctx, s.objects[d].state, t.objects[d].state, p)
  }

  /** The outcome does not depend on what happens to other pieces and downloaders before or after. */
  lemma OutcomeStays(ctx: Context, s: State, u: State, t: State, d: Id, p: nat)
    requires 0 < ctx.pieceSize
    ensures OutcomeAt(ctx, s, u, d, p) && SameAt(u, t, d, p) ==> OutcomeAt(ctx, s, t, d, p)
    ensures SameAt(s, u, d, p) && OutcomeAt(ctx, u, t, d, p) ==> OutcomeAt(ctx, s, t, d, p)
  {
    hide BitFields.Get, Effects.Blank;
  }

  lemma OutcomeEntry(ctx: Context, s: State, t: State, d: Id, p: nat)
    requires 0 < ctx.pieceSize && OutcomeAt(ctx, s, t, d, p)
    ensures HasEntry(t, d, p) <==> KeepsAt(ctx, s, d, p)
  {
    hide BitFields.Get, Effects.Blank;
  }

  ghost predicate Delivered(ctx: Context, s: State, p: nat, ds: seq<Id>) {
    exists d :: d in ds && RightAt(ctx, s, d, p)
  }

  ghost predicate Sound(s: State, p: nat, ds: seq<Id>) {
    NoDuplicates(ds) && forall d :: d in ds ==> d in s.objects && NotCorrupt(s.objects[d].state, p)
  }

  lemma SameVerdicts(ctx: Context, s: State, t: State, d: Id, p: nat)
    requires SameAt(s, t, d, p)
    ensures d in s.objects && d in t.objects
    ensures RightAt(ctx, t, d, p) == RightAt(ctx, s, d, p) && KeepsAt(ctx, t, d, p) == KeepsAt(ctx, s, d, p)
    ensures HasEntry(t, d, p) == HasEntry(s, d, p)
    ensures NotCorrupt(t.objects[d].state, p) == NotCorrupt(s.objects[d].state, p)
  {
    hide BitFields.Get;
  }

  /** Collecting one piece from one downloader decides about that pair and changes no other. */
  lemma CollectDecides(ctx: Context, policy: Download.Policy, s: State, p: uint32, d: Id)
    requires Setting(ctx, policy) && d in s.objects && p < |ctx.pieceHashes| && NotCorrupt(s.objects[d].state, p)
    ensures
      var (done, t) := Collect(ctx, policy, s, p, d);
      && t.objects.Keys == s.objects.Keys && t.pieceDownloaders == s.pieceDownloaders
      && (done <==> RightAt(ctx, s, d, p)) && OutcomeAt(ctx, s, t, d, p)
      && forall e, q :: e in s.objects && (e != d || q != p) ==> SameAt(s, t, e, q)
  {
    E.CollectFields(ctx, policy, s, p, d);
    AfterCollectOwn(ctx, policy, s.objects[d].state, p);
    hide Collect, E.AfterCollect, Right, Outcome;
    var (done, t) := Collect(ctx, policy, s, p, d);
    forall e, q: nat | e in s.objects && (e != d || q != p) ensures SameAt(s, t, e, q) {
      if e == d {
        AfterCollectOther(ctx, policy, s.objects[d].state, p, q);
      }
    }
  }

  lemma {:induction false} CollectFromDecides(
    ctx: Context, policy: Download.Policy, s: State, p: uint32, ds: seq<Id>)
    requires Setting(ctx, policy) && p < |ctx.pieceHashes| && Sound(s, p, ds)
    ensures
      var (done, t) := CollectFrom(ctx, policy, s, p, ds);
      && t.objects.Keys == s.objects.Keys
      && (done <==> Delivered(ctx, s, p, ds))
      && (forall d :: d in ds ==> OutcomeAt(ctx, s, t, d, p))
      && forall e, q :: e in s.objects && (e !in ds || q != p) ==> SameAt(s, t, e, q)
    decreases |ds|
  {
    hide Collect, RightAt, OutcomeAt, NotCorrupt, SamePiece;
    if ds == [] {
      forall e, q: nat | e in s.objects ensures SameAt(s, s, e, q) {
        SameItself(s, e, q);
      }
    } else {
      var d, more := ds[0], ds[1..];
      assert ds == [d] + more;
      CollectDecides(ctx, policy, s, p, d);
      var (first, u) := Collect(ctx, policy, s, p, d);
      forall e | e in more
        ensures e in u.objects && NotCorrupt(u.objects[e].state, p)
        ensures RightAt(ctx, u, e, p) == RightAt(ctx, s, e, p) && SameAt(s, u, e, p)
      {
        assert e in ds && e != d;
        SameVerdicts(ctx, s, u, e, p);
      }
      CollectFromDecides(ctx, policy, u, p, more);
      var (rest, t) := CollectFrom(ctx, policy, u, p, more);
      assert d !in more;
      forall e | e in ds ensures OutcomeAt(ctx, s, t, e, p) {
        OutcomeStays(ctx, s, u, t, e, p);
      }
      DeliveredCons(ctx, s, u, p, ds);
      forall e, q: nat | e in s.objects && (e !in ds || q != p) ensures SameAt(s, t, e, q) {
        SameChains(s, u, t, e, q);
      }
    }
  }

  lemma SameItself(s: State, d: Id, p: nat)
    requires d in s.objects
    ensures SameAt(s, s, d, p)
  {
  }

  lemma SameChains(s: State, u: State, t: State, d: Id, p: nat)
    requires SameAt(s, u, d, p) && SameAt(u, t, d, p)
    ensures SameAt(s, t, d, p)
  {
  }

  lemma DeliveredCons(ctx: Context, s: State, u: State, p: nat, ds: seq<Id>)
    requires ds != [] && forall e :: e in ds[1..] ==> RightAt(ctx, u, e, p) == RightAt(ctx, s, e, p)
    ensures Delivered(ctx, s, p, ds) <==> RightAt(ctx, s, ds[0], p) || Delivered(ctx, u, p, ds[1..])
  {
    hide RightAt;
    assert ds == [ds[0]] + ds[1..];
  }

  // ---------- all pieces ----------

  ghost predicate AllSound(ctx: Context, s: State, keys: seq<uint32>) {
    && NoDuplicates(keys)
    && forall p :: p in keys ==> p < |ctx.pieceHashes| && Sound(s, p, Listed(s, p))
  }

  lemma SoundStays(ctx: Context, s: State, u: State, p: uint32)
    requires u.pieceDownloaders == s.pieceDownloaders && Sound(s, p, Listed(s, p))
    requires forall d :: d in s.objects ==> SameAt(s, u, d, p)
    ensures Sound(u, p, Listed(u, p))
    ensures Delivered(ctx, u, p, Listed(u, p)) == Delivered(ctx, s, p, Listed(s, p))
  {
    hide RightAt, NotCorrupt, SameAt;
    var ds := Listed(s, p);
    assert Listed(u, p) == ds;
    forall d | d in ds
      ensures d in u.objects && NotCorrupt(u.objects[d].state, p)
      ensures RightAt(ctx, u, d, p) == RightAt(ctx, s, d, p)
    {
      SameVerdicts(ctx, s, u, d, p);
    }
  }

  ghost predicate Decided(ctx: Context, s: State, t: State, p: uint32)
    requires 0 < ctx.pieceSize
  {
    forall d :: d in Listed(s, p) ==> OutcomeAt(ctx, s, t, d, p)
  }

  lemma {:induction false} CollectAllDecides(ctx: Context, policy: Download.Policy, s: State, keys: seq<uint32>)
    requires Setting(ctx, policy) && AllSound(ctx, s, keys) && Grounded(ctx, s, keys)
    ensures
      var (completed, t) := CollectAll(ctx, policy, s, keys);
      && t.objects.Keys == s.objects.Keys && t.pieceDownloaders == s.pieceDownloaders
      && (forall p :: p in completed <==> p in keys && Delivered(ctx, s, p, Listed(s, p)))
      && (forall p :: p in keys ==> Decided(ctx, s, t, p))
      && forall e, q: uint32 :: e in s.objects && q !in keys ==> SameAt(s, t, e, q)
    decreases |keys|
  {
    hide CollectFrom, RightAt, OutcomeAt, SamePiece, Delivered, Sound, Decided;
    CollectAllNext(ctx, policy, s, keys);
    hide CollectAll;
    if keys == [] {
      forall e, q: uint32 | e in s.objects ensures SameAt(s, s, e, q) {
        SameItself(s, e, q);
      }
    } else {
      var p, more := keys[0], keys[1..];
      assert keys == [p] + more && p !in more;
      CollectFromDecides(ctx, policy, s, p, Listed(s, p));
      var (done, u) := CollectFrom(ctx, policy, s, p, Listed(s, p));
      forall q | q in more
        ensures Listed(u, q) == Listed(s, q) && Sound(u, q, Listed(u, q))
        ensures Delivered(ctx, u, q, Listed(u, q)) == Delivered(ctx, s, q, Listed(s, q))
      {
        SoundStays(ctx, s, u, q);
      }
      CollectAllDecides(ctx, policy, u, more);
      var (rest, t) := CollectAll(ctx, policy, u, more);
      forall q | q in keys ensures Decided(ctx, s, t, q) {
        if q == p {
          DecidedStays(ctx, s, u, t, p);
        } else {
          DecidedBefore(ctx, s, u, t, q);
        }
      }
      forall e, q: uint32 | e in s.objects && q !in keys ensures SameAt(s, t, e, q) {
        SameChains(s, u, t, e, q);
      }
    }
  }

  lemma DecidedStays(ctx: Context, s: State, u: State, t: State, p: uint32)
    requires 0 < ctx.pieceSize
    requires forall d :: d in Listed(s, p) ==> d in u.objects && OutcomeAt(ctx, s, u, d, p)
    requires forall d :: d in u.objects ==> SameAt(u, t, d, p)
    ensures Decided(ctx, s, t, p)
  {
    hide OutcomeAt, SameAt;
    forall d | d in Listed(s, p) ensures OutcomeAt(ctx, s, t, d, p) {
      OutcomeStays(ctx, s, u, t, d, p);
    }
  }

  lemma DecidedBefore(ctx: Context, s: State, u: State, t: State, p: uint32)
    requires 0 < ctx.pieceSize && u.pieceDownloaders == s.pieceDownloaders && Decided(ctx, u, t, p)
    requires forall d :: d in s.objects ==> SameAt(s, u, d, p)
    requires forall d :: d in Listed(s, p) ==> d in s.objects
    ensures Decided(ctx, s, t, p)
  {
    hide OutcomeAt, SameAt;
    assert Listed(u, p) == Listed(s, p);
    forall d | d in Listed(s, p) ensures OutcomeAt(ctx, s, t, d, p) {
      OutcomeStays(ctx, s, u, t, d, p);
    }
  }

  // ---------- is_done ----------

  /** Every piece with a doomed downloader is also delivered by another one. */
  ghost predicate Harmless(ctx: Context, s: State) {
    forall p: uint32, d :: d in Listed(s, p) && DoomedAt(ctx, s, d, p) ==> Delivered(ctx, s, p, Listed(s, p))
  }

  lemma EveryListSound(
    env: Runs.Environment, ctx: Context, policy: Download.Policy, vault: map<nat, seq<byte>>, s: State, p: uint32)
    requires ctx.Valid() && Invariant(env, ctx, policy, vault, s) && p in s.pieceDownloaders
    ensures p < |ctx.pieceHashes| && Sound(s, p, Listed(s, p))
  {
    assert NoDuplicates(Listed(s, p)) && p < ctx.pieceCount;
    forall d | d in Listed(s, p) ensures d in s.objects && NotCorrupt(s.objects[d].state, p) {
      assert d in s.peerPool.Keys;
      D.NeverKeptCorrupt(env, ctx, policy, vault, s, d);
    }
  }

  lemma ListsSound(
    env: Runs.Environment, ctx: Context, policy: Download.Policy, vault: map<nat, seq<byte>>,
    s: State, keys: seq<uint32>)
    requires ctx.Valid() && Invariant(env, ctx, policy, vault, s) && Enumerates(keys, s.pieceDownloaders.Keys)
    ensures AllSound(ctx, s, keys)
  {
    hide Invariant, Sound;
    forall p | p in keys ensures p < |ctx.pieceHashes| && Sound(s, p, Listed(s, p)) {
      EveryListSound(env, ctx, policy, vault, s, p);
    }
  }

  /** After `is_done`, the listed downloaders without an entry are the doomed ones of undelivered pieces. */
  lemma LosesExactly(
    env: Runs.Environment, ctx: Context, policy: Download.Policy, vault: map<nat, seq<byte>>,
    s: State, keys: seq<uint32>, p: uint32, d: Id)
    requires Setting(ctx, policy) && Invariant(env, ctx, policy, vault, s) && E.Entered(s, {}, false)
    requires Enumerates(keys, s.pieceDownloaders.Keys) && Grounded(ctx, s, keys)
    ensures
      var t := Swarm.IsDone(ctx, policy, s, keys).1;
      && (d in Listed(t, p) <==> d in Listed(s, p) && !Delivered(ctx, s, p, Listed(s, p)))
      && (d in Listed(t, p) ==> (!HasEntry(t, d, p) <==> DoomedAt(ctx, s, d, p)))
  {
    ListsSound(env, ctx, policy, vault, s, keys);
    hide Invariant, AllSound;
    CollectAllDecides(ctx, policy, s, keys);
    var (completed, u) := CollectAll(ctx, policy, s, keys);
    hide CollectAll;
    var t := u.(pieceDownloaders := u.pieceDownloaders - completed);
    assert Listed(t, p) == if p in completed then [] else Listed(s, p);
    assert Listed(s, p) != [] ==> p in s.pieceDownloaders.Keys;
    if d in Listed(s, p) {
      assert p in keys && Decided(ctx, s, u, p) && E.InHand(s, d, p, false);
      if !Delivered(ctx, s, p, Listed(s, p)) {
        assert !RightAt(ctx, s, d, p);
        hide BitFields.Get;
        OutcomeEntry(ctx, s, u, d, p);
      }
    }
  }

  /**
   * The retry. If every listed downloader has its piece in hand, then after `is_done` every listed
   * downloader still has, if and only if each piece that one of its downloaders has complete but
   * corrupt and without the bit is delivered by another of them.
   */
  lemma EntriesKeptExactly(
    env: Runs.Environment, ctx: Context, policy: Download.Policy, vault: map<nat, seq<byte>>,
    s: State, keys: seq<uint32>)
    requires Setting(ctx, policy) && Invariant(env, ctx, policy, vault, s) && E.Entered(s, {}, false)
    requires Enumerates(keys, s.pieceDownloaders.Keys) && Grounded(ctx, s, keys)
    ensures E.Entered(Swarm.IsDone(ctx, policy, s, keys).1, {}, false) <==> Harmless(ctx, s)
  {
    var t := Swarm.IsDone(ctx, policy, s, keys).1;
    hide Invariant, Swarm.IsDone, DoomedAt, Delivered;
    forall p: uint32, d
      ensures d in Listed(t, p) <==> d in Listed(s, p) && !Delivered(ctx, s, p, Listed(s, p))
      ensures d in Listed(t, p) ==> (!E.InHand(t, d, p, false) <==> DoomedAt(ctx, s, d, p))
    {
      LosesExactly(env, ctx, policy, vault, s, keys, p, d);
    }
    hide E.InHand;
  }

  // ---------- runs ----------

  /** In every state along the run, whoever is listed has the piece in hand. */
  ghost predicate EnteredThroughout(
    env: Runs.Environment, ctx: Context, policy: Download.Policy, s: State, events: seq<Event>, t: State)
    requires Setting(ctx, policy) && Theorems.Reaches(env, ctx, policy, s, events, t)
    decreases |events|
  {
    && E.Entered(s, {}, false)
    && (events == [] || EnteredThroughout(env, ctx, policy, Theorems.Next(ctx, policy, s, events[0]), events[1..], t))
  }

  /** Each `is_done` of the run meets no doomed downloader of a piece that nobody delivers. */
  ghost predicate HarmlessThroughout(
    env: Runs.Environment, ctx: Context, policy: Download.Policy, s: State, events: seq<Event>, t: State)
    requires Setting(ctx, policy) && Theorems.Reaches(env, ctx, policy, s, events, t)
    decreases |events|
  {
    events == [] ||
    (&& (events[0].IsDone? ==> Harmless(ctx, s))
     && HarmlessThroughout(env, ctx, policy, Theorems.Next(ctx, policy, s, events[0]), events[1..], t))
  }

  lemma {:induction false} RunKeepsEntries(
    env: Runs.Environment, ctx: Context, policy: Download.Policy, vault: map<nat, seq<byte>>,
    s: State, events: seq<Event>, t: State)
    requires Setting(ctx, policy) && HashesMatch(env, ctx) && Invariant(env, ctx, policy, vault, s)
    requires E.Entered(s, {}, false) && Theorems.Reaches(env, ctx, policy, s, events, t)
    ensures
      EnteredThroughout(env, ctx, policy, s, events, t) <==> HarmlessThroughout(env, ctx, policy, s, events, t)
    decreases |events|
  {
    hide Invariant, E.Entered, Harmless;
    if events != [] {
      var e := events[0];
      var next := Theorems.Next(ctx, policy, s, e);
      if e.IsDone? {
        EntriesKeptExactly(env, ctx, policy, vault, s, e.keys);
      } else {
        E.OthersEnter(env, ctx, policy, vault, s, e, false);
      }
      if E.Entered(next, {}, false) {
        Theorems.StepKeeps(env, ctx, policy, vault, s, e);
        RunKeepsEntries(env, ctx, policy, vault, next, events[1..], t);
      }
    }
  }

  /**
   * Over every run with in-bounds blocks, whatever the other messages: the listed downloaders have
   * their pieces in hand throughout if and only if no `is_done` meets a doomed downloader of a piece
   * that nobody delivers.
   */
  lemma EntriesKeptThroughout(
    ctx: Context, policy: Download.Policy, vault: map<nat, seq<byte>>, events: seq<Event>, t: State)
    requires Setting(ctx, policy)
    requires Theorems.Reaches(Runs.InBounds, ctx, policy, Initial(ctx, vault), events, t)
    ensures
      EnteredThroughout(Runs.InBounds, ctx, policy, Initial(ctx, vault), events, t)
      <==> HarmlessThroughout(Runs.InBounds, ctx, policy, Initial(ctx, vault), events, t)
  {
    InitialHolds(Runs.InBounds, ctx, policy, vault);
    RunKeepsEntries(Runs.InBounds, ctx, policy, vault, Initial(ctx, vault), events, t);
  }
}
