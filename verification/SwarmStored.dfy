/** What `is_done` does to each part of the strategy's state. */
module SwarmStored {
  import opened Bytes
  import opened TorrentContext
  import opened Swarm
  import opened SwarmProofs
  import BitFields
  import D = SwarmDone
  import Download
  import E = SwarmEntries
  import Effects = DownloadEffects
  import Retry = SwarmRetry
  import Runs = DownloadProofs

  // ---------- one piece of one downloader ----------

  /**
   * What collecting does to the downloader's queue. A corrupt piece whose bit is still set is asked for
   * again: a choked downloader waits for it, another one queues its blocks and has one more sender.
   * In every other case nothing is queued, and nothing ever leaves the queue or the active set.
   */
  lemma CollectAsksAgain(ctx: Context, policy: Download.Policy, s: State, p: uint32, d: Id)
    requires Setting(ctx, policy) && d in s.objects && p < |ctx.pieceHashes|
    requires Retry.NotCorrupt(s.objects[d].state, p)
    ensures
      var (done, t) := Collect(ctx, policy, s, p, d);
      var o := s.objects[d].state;
      var again := p in o.pieces && o.pieces[p].status == Download.Complete && !Retry.Right(ctx, o, p)
        && HasBit(s, d, p);
      && d in t.objects
      && var q := t.objects[d].state;
      && q.active == o.active && q.peer == o.peer
      && (!again ==> q.pending == o.pending && q.senders == o.senders && q.starting == o.starting)
      && (again && o.peer.selfChoked ==>
            q.pending == o.pending && q.senders == o.senders && q.starting == o.starting + multiset{p})
      && (again && !o.peer.selfChoked ==>
            && q.senders == o.senders + 1 && q.starting == o.starting && o.pending <= q.pending
            && Effects.CutsPiece(policy, q.pending[|o.pending|..], p, ctx.PieceSize(p)))
  {
    E.CollectFields(ctx, policy, s, p, d);
    AsksAgain(ctx, policy, s.objects[d].state, p);
    hide Collect, E.AfterCollect, Effects.CutsPiece, BitFields.Get;
  }

  lemma AsksAgain(ctx: Context, policy: Download.Policy, o: Download.State, p: uint32)
    requires Setting(ctx, policy) && p < |ctx.pieceHashes| && Retry.NotCorrupt(o, p)
    ensures
      var q := E.AfterCollect(ctx, policy, o, p).1;
      var again := p in o.pieces && o.pieces[p].status == Download.Complete && !Retry.Right(ctx, o, p)
        && BitFields.Get(o.peer.remoteBitfield, p);
      && q.active == o.active && q.peer == o.peer
      && (!again ==> q.pending == o.pending && q.senders == o.senders && q.starting == o.starting)
      && (again && o.peer.selfChoked ==>
            q.pending == o.pending && q.senders == o.senders && q.starting == o.starting + multiset{p})
      && (again && !o.peer.selfChoked ==>
            && q.senders == o.senders + 1 && q.starting == o.starting && o.pending <= q.pending
            && Effects.CutsPiece(policy, q.pending[|o.pending|..], p, ctx.PieceSize(p)))
  {
    Effects.RetrieveEffect(ctx, o, p);
    Effects.StartEffect(ctx, policy, Download.Retrieve(ctx, o, p).1, p);
    hide Download.Start, Download.Retrieve, BitFields.Get, Effects.CutsPiece, Effects.Blank;
  }

  // ---------- loads, vault and missing pieces ----------

  /** No load names a piece twice. */
  ghost predicate LoadsFine(s: State) {
    forall d :: NoDuplicates(Held(s, d))
  }

  /** Only loads, missing pieces, vault, downloader states and history change. */
  ghost predicate SameFrame(s: State, t: State) {
    && t.connections == s.connections && t.nextId == s.nextId && t.pieceDownloaders == s.pieceDownloaders
    && t.objects.Keys == s.objects.Keys
    && forall d :: d in s.objects ==>
         t.objects[d].contact == s.objects[d].contact && t.objects[d].state.peer == s.objects[d].state.peer
  }

  lemma CollectParts(ctx: Context, policy: Download.Policy, s: State, p: uint32, d: Id)
    requires Setting(ctx, policy) && d in s.objects && p < |ctx.pieceHashes|
    ensures
      var (done, t) := Collect(ctx, policy, s, p, d);
      var got := Download.Retrieve(ctx, s.objects[d].state, p).0;
      && t.connections == s.connections && t.nextId == s.nextId
      && (done ==>
            && got.Some? && t.peerPool == s.peerPool[d := EraseOne(Held(s, d), p)]
            && t.missing == s.missing - {p} && t.vault == Pushed(s.vault, p, got.value.data))
      && (!done ==> t.peerPool == s.peerPool && t.missing == s.missing && t.vault == s.vault)
  {
    hide Download.Start, Download.Retrieve, EraseOne, Pushed;
  }

  lemma CollectBooks(ctx: Context, policy: Download.Policy, s: State, p: uint32, d: Id)
    requires Setting(ctx, policy) && d in s.objects && p < |ctx.pieceHashes| && LoadsFine(s)
    requires Retry.NotCorrupt(s.objects[d].state, p)
    ensures
      var t := Collect(ctx, policy, s, p, d).1;
      && LoadsFine(t) && SameFrame(s, t)
      && (forall e: Id, q: uint32 :: q in Held(t, e) <==>
            q in Held(s, e) && !(q == p && e == d && Retry.RightAt(ctx, s, d, p)))
      && if Retry.RightAt(ctx, s, d, p)
         then RightData(ctx, s, d, p)
           && t.missing == s.missing - {p} && t.vault == Pushed(s.vault, p, s.objects[d].state.pieces[p].data)
         else t.missing == s.missing && t.vault == s.vault
  {
    CollectParts(ctx, policy, s, p, d);
    Effects.RetrieveEffect(ctx, s.objects[d].state, p);
    Retry.CollectDecides(ctx, policy, s, p, d);
    E.CollectFields(ctx, policy, s, p, d);
    AsksAgain(ctx, policy, s.objects[d].state, p);
    hide Collect, E.AfterCollect, Download.Retrieve, Effects.CutsPiece, BitFields.Get, Pushed, EraseOne;
    hide Retry.SameAt, Retry.OutcomeAt;
    var t := Collect(ctx, policy, s, p, d).1;
    if Retry.RightAt(ctx, s, d, p) {
      ErasedLoads(s, t, d, p);
    } else {
      assert forall e :: Held(t, e) == Held(s, e);
    }
  }

  lemma ErasedLoads(s: State, t: State, d: Id, p: uint32)
    requires LoadsFine(s) && t.peerPool == s.peerPool[d := EraseOne(Held(s, d), p)]
    ensures LoadsFine(t)
    ensures forall e: Id, q: uint32 :: q in Held(t, e) <==> q in Held(s, e) && !(q == p && e == d)
  {
    D.EraseOneRemoves(Held(s, d), p);
    WithoutElements(Held(s, d), p);
    hide EraseOne, Without;
    assert forall e :: Held(t, e) == if e == d then EraseOne(Held(s, d), p) else Held(s, e);
  }

  ghost predicate RightData(ctx: Context, s: State, d: Id, p: uint32) {
    d in s.objects && p in s.objects[d].state.pieces
  }

  /** The data of the first downloader in the list that has the piece right. */
  ghost predicate Brings(ctx: Context, s: State, p: uint32, ds: seq<Id>, data: seq<byte>) {
    exists i :: 0 <= i < |ds| && BringsFirst(ctx, s, p, ds, i)
      && s.objects[ds[i]].state.pieces[p].data == data
  }

  ghost predicate BringsFirst(ctx: Context, s: State, p: uint32, ds: seq<Id>, i: nat)
    requires i < |ds|
  {
    Retry.RightAt(ctx, s, ds[i], p) && forall j :: 0 <= j < i ==> !Retry.RightAt(ctx, s, ds[j], p)
  }

  /** A delivered piece that was not stored is stored now, as the first deliverer has it; nothing else is. */
  ghost predicate VaultAfter(ctx: Context, s: State, t: State, p: uint32, ds: seq<Id>) {
    && (forall q :: q in s.vault ==> q in t.vault && t.vault[q] == s.vault[q])
    && (forall q :: q in t.vault ==> q in s.vault || (q == p && Retry.Delivered(ctx, s, p, ds)))
    && (Retry.Delivered(ctx, s, p, ds) && p !in s.vault ==> p in t.vault && Brings(ctx, s, p, ds, t.vault[p]))
  }

  ghost predicate LoadsAfter(ctx: Context, s: State, t: State, p: uint32, ds: seq<Id>) {
    && LoadsFine(t)
    && (forall e: Id, q: uint32 :: q in Held(t, e) <==>
          q in Held(s, e) && !(q == p && e in ds && Retry.RightAt(ctx, s, e, p)))
    && t.missing == if Retry.Delivered(ctx, s, p, ds) then s.missing - {p} else s.missing
  }

  lemma {:induction false} CollectFromBooks(
    ctx: Context, policy: Download.Policy, s: State, p: uint32, ds: seq<Id>)
    requires Setting(ctx, policy) && p < |ctx.pieceHashes| && Retry.Sound(s, p, ds) && LoadsFine(s)
    ensures
      var t := CollectFrom(ctx, policy, s, p, ds).1;
      SameFrame(s, t) && VaultAfter(ctx, s, t, p, ds) && LoadsAfter(ctx, s, t, p, ds)
    decreases |ds|
  {
    if ds == [] {
      assert !Retry.Delivered(ctx, s, p, ds);
    } else {
      CollectBooks(ctx, policy, s, p, ds[0]);
      OthersSame(ctx, policy, s, p, ds);
      CollectFromNext(ctx, policy, s, p, ds);
      var u := Collect(ctx, policy, s, p, ds[0]).1;
      hide Collect, CollectFrom, LoadsFine, VaultAfter, LoadsAfter, SameFrame, RightData, SamePieceData, Pushed, Held;
      hide Retry.RightAt, Retry.Sound, Retry.Delivered, Setting;
      CollectFromBooks(ctx, policy, u, p, ds[1..]);
      Retry.DeliveredCons(ctx, s, u, p, ds);
      var t := CollectFrom(ctx, policy, u, p, ds[1..]).1;
      FrameChains(s, u, t);
      VaultStep(ctx, s, u, t, p, ds);
      LoadsStep(ctx, s, u, t, p, ds);
    }
  }

  lemma CollectFromNext(ctx: Context, policy: Download.Policy, s: State, p: uint32, ds: seq<Id>)
    requires Setting(ctx, policy) && p < |ctx.pieceHashes| && ds != [] && forall d :: d in ds ==> d in s.objects
    ensures
      var u := Collect(ctx, policy, s, p, ds[0]).1;
      && (forall d :: d in ds[1..] ==> d in u.objects)
      && CollectFrom(ctx, policy, s, p, ds).1 == CollectFrom(ctx, policy, u, p, ds[1..]).1
  {
    E.CollectFields(ctx, policy, s, p, ds[0]);
    hide Collect, E.AfterCollect;
  }

  /** Collecting from the first downloader of a list changes nothing for the others. */
  lemma OthersSame(ctx: Context, policy: Download.Policy, s: State, p: uint32, ds: seq<Id>)
    requires Setting(ctx, policy) && p < |ctx.pieceHashes| && ds != [] && Retry.Sound(s, p, ds)
    ensures
      var u := Collect(ctx, policy, s, p, ds[0]).1;
      && ds[0] !in ds[1..] && Retry.Sound(u, p, ds[1..])
      && forall f :: f in ds[1..] ==>
           Retry.RightAt(ctx, u, f, p) == Retry.RightAt(ctx, s, f, p) && SamePieceData(s, u, f, p)
  {
    var d, more := ds[0], ds[1..];
    assert ds == [d] + more;
    Retry.CollectDecides(ctx, policy, s, p, d);
    var u := Collect(ctx, policy, s, p, d).1;
    hide Collect, Retry.RightAt, Retry.SameAt, Retry.OutcomeAt, Retry.NotCorrupt, SamePieceData;
    forall f | f in more
      ensures f in u.objects && Retry.NotCorrupt(u.objects[f].state, p)
      ensures Retry.RightAt(ctx, u, f, p) == Retry.RightAt(ctx, s, f, p) && SamePieceData(s, u, f, p)
    {
      assert f in ds && f != d;
      Retry.SameVerdicts(ctx, s, u, f, p);
      SameData(s, u, f, p);
    }
  }

  lemma LoadsStep(ctx: Context, s: State, u: State, t: State, p: uint32, ds: seq<Id>)
    requires ds != [] && ds[0] !in ds[1..] && LoadsAfter(ctx, u, t, p, ds[1..])
    requires forall e: Id, q: uint32 :: q in Held(u, e) <==>
      q in Held(s, e) && !(q == p && e == ds[0] && Retry.RightAt(ctx, s, ds[0], p))
    requires u.missing == if Retry.RightAt(ctx, s, ds[0], p) then s.missing - {p} else s.missing
    requires Retry.Delivered(ctx, s, p, ds) <==>
      Retry.RightAt(ctx, s, ds[0], p) || Retry.Delivered(ctx, u, p, ds[1..])
    requires forall f :: f in ds[1..] ==> Retry.RightAt(ctx, u, f, p) == Retry.RightAt(ctx, s, f, p)
    ensures LoadsAfter(ctx, s, t, p, ds)
  {
    hide Retry.RightAt, Retry.Delivered, LoadsFine, Held;
    assert ds == [ds[0]] + ds[1..];
    assert forall e :: e in ds <==> e == ds[0] || e in ds[1..];
  }

  ghost predicate SamePieceData(s: State, u: State, d: Id, p: nat) {
    && d in s.objects && d in u.objects && (p in s.objects[d].state.pieces <==> p in u.objects[d].state.pieces)
    && (p in s.objects[d].state.pieces ==>
          u.objects[d].state.pieces[p].data == s.objects[d].state.pieces[p].data)
  }

  lemma SameData(s: State, u: State, d: Id, p: nat)
    requires Retry.SameAt(s, u, d, p)
    ensures SamePieceData(s, u, d, p)
  {
  }

  lemma FrameChains(s: State, u: State, t: State)
    requires SameFrame(s, u) && SameFrame(u, t)
    ensures SameFrame(s, t)
  {
  }

  lemma RightHasPiece(ctx: Context, s: State, d: Id, p: uint32)
    requires Retry.RightAt(ctx, s, d, p)
    ensures d in s.objects && p in s.objects[d].state.pieces
  {
  }

  lemma BringsCons(ctx: Context, s: State, u: State, p: uint32, ds: seq<Id>, data: seq<byte>)
    requires ds != [] && !Retry.RightAt(ctx, s, ds[0], p) && Brings(ctx, u, p, ds[1..], data)
    requires forall f :: f in ds[1..] ==>
      Retry.RightAt(ctx, u, f, p) == Retry.RightAt(ctx, s, f, p) && SamePieceData(s, u, f, p)
    ensures Brings(ctx, s, p, ds, data)
  {
    var more := ds[1..];
    var i :| 0 <= i < |more| && BringsFirst(ctx, u, p, more, i) && u.objects[more[i]].state.pieces[p].data == data;
    RightHasPiece(ctx, u, more[i], p);
    hide Retry.RightAt;
    assert more[i] in more && ds[i + 1] == more[i];
    forall j | 0 <= j < i + 1 ensures !Retry.RightAt(ctx, s, ds[j], p) {
      if 0 < j {
        assert ds[j] == more[j - 1] && more[j - 1] in more;
      }
    }
    assert BringsFirst(ctx, s, p, ds, i + 1);
  }

  lemma VaultStep(ctx: Context, s: State, u: State, t: State, p: uint32, ds: seq<Id>)
    requires ds != [] && VaultAfter(ctx, u, t, p, ds[1..])
    requires if Retry.RightAt(ctx, s, ds[0], p)
             then RightData(ctx, s, ds[0], p) && u.vault == Pushed(s.vault, p, s.objects[ds[0]].state.pieces[p].data)
             else u.vault == s.vault
    requires Retry.Delivered(ctx, s, p, ds) <==>
      Retry.RightAt(ctx, s, ds[0], p) || Retry.Delivered(ctx, u, p, ds[1..])
    requires forall f :: f in ds[1..] ==>
      Retry.RightAt(ctx, u, f, p) == Retry.RightAt(ctx, s, f, p) && SamePieceData(s, u, f, p)
    ensures VaultAfter(ctx, s, t, p, ds)
  {
    hide Retry.RightAt, Retry.Delivered, Brings;
    if Retry.RightAt(ctx, s, ds[0], p) {
      FirstBrings(ctx, s, p, ds);
    } else if Retry.Delivered(ctx, s, p, ds) && p !in s.vault {
      BringsCons(ctx, s, u, p, ds, t.vault[p]);
    }
  }

  lemma FirstBrings(ctx: Context, s: State, p: uint32, ds: seq<Id>)
    requires ds != [] && Retry.RightAt(ctx, s, ds[0], p) && RightData(ctx, s, ds[0], p)
    ensures Brings(ctx, s, p, ds, s.objects[ds[0]].state.pieces[p].data)
  {
    assert BringsFirst(ctx, s, p, ds, 0);
  }

  // ---------- all pieces ----------

  /** A load loses the pieces that its downloader delivered, and no others. */
  ghost predicate SlotAfter(ctx: Context, s: State, t: State, keys: seq<uint32>, e: Id, q: uint32) {
    q in Held(t, e) <==> q in Held(s, e) && !(q in keys && e in Listed(s, q) && Retry.RightAt(ctx, s, e, q))
  }

  /** After the pieces of `keys`: who holds what, what is missing, and what is stored. */
  ghost predicate LoadsAfterAll(ctx: Context, s: State, t: State, keys: seq<uint32>) {
    && LoadsFine(t)
    && (forall e: Id, q: uint32 :: SlotAfter(ctx, s, t, keys, e, q))
    && (forall q: uint32 :: q in t.missing <==>
          q in s.missing && !(q in keys && Retry.Delivered(ctx, s, q, Listed(s, q))))
  }

  ghost predicate StoredNow(ctx: Context, s: State, q: uint32, keys: seq<uint32>, data: seq<byte>) {
    q in keys && Retry.Delivered(ctx, s, q, Listed(s, q)) && Brings(ctx, s, q, Listed(s, q), data)
  }

  ghost predicate VaultAfterAll(ctx: Context, s: State, t: State, keys: seq<uint32>) {
    && (forall q :: q in s.vault ==> q in t.vault && t.vault[q] == s.vault[q])
    && (forall q :: q in t.vault && q !in s.vault ==> 0 <= q < U32 && StoredNow(ctx, s, q, keys, t.vault[q]))
    && (forall q: uint32 :: q in keys && Retry.Delivered(ctx, s, q, Listed(s, q)) ==> q in t.vault)
  }

  /** Nothing about a piece has changed. */
  ghost predicate Undisturbed(ctx: Context, s: State, u: State, q: uint32) {
    && u.objects.Keys == s.objects.Keys && Listed(u, q) == Listed(s, q)
    && forall e :: Retry.RightAt(ctx, u, e, q) == Retry.RightAt(ctx, s, e, q)
         && (e in s.objects ==> SamePieceData(s, u, e, q))
  }

  lemma OtherPiece(ctx: Context, policy: Download.Policy, s: State, p: uint32, q: uint32)
    requires Setting(ctx, policy) && p < |ctx.pieceHashes| && Retry.Sound(s, p, Listed(s, p)) && q != p
    ensures Undisturbed(ctx, s, CollectFrom(ctx, policy, s, p, Listed(s, p)).1, q)
  {
    Retry.CollectFromDecides(ctx, policy, s, p, Listed(s, p));
    var u := CollectFrom(ctx, policy, s, p, Listed(s, p)).1;
    hide CollectFrom, Retry.SameAt, Retry.Right, SamePieceData, Retry.OutcomeAt;
    forall e
      ensures Retry.RightAt(ctx, u, e, q) == Retry.RightAt(ctx, s, e, q)
      ensures e in s.objects ==> SamePieceData(s, u, e, q)
    {
      if e in s.objects {
        Retry.SameVerdicts(ctx, s, u, e, q);
        SameData(s, u, e, q);
      }
    }
  }

  lemma DeliveredSame(ctx: Context, s: State, u: State, q: uint32, ds: seq<Id>)
    requires Undisturbed(ctx, s, u, q)
    ensures Retry.Delivered(ctx, u, q, ds) == Retry.Delivered(ctx, s, q, ds)
  {
    hide Retry.RightAt, SamePieceData;
  }

  lemma BringsSame(ctx: Context, s: State, u: State, q: uint32, ds: seq<Id>, data: seq<byte>)
    requires Undisturbed(ctx, s, u, q) && Brings(ctx, u, q, ds, data)
    ensures Brings(ctx, s, q, ds, data)
  {
    var i :| 0 <= i < |ds| && BringsFirst(ctx, u, q, ds, i) && u.objects[ds[i]].state.pieces[q].data == data;
    RightHasPiece(ctx, u, ds[i], q);
    hide Retry.RightAt;
    assert SamePieceData(s, u, ds[i], q);
    assert BringsFirst(ctx, s, q, ds, i);
  }

  lemma LoadsAllStep(ctx: Context, s: State, u: State, t: State, keys: seq<uint32>)
    requires keys != [] && keys[0] !in keys[1..]
    requires LoadsAfter(ctx, s, u, keys[0], Listed(s, keys[0])) && LoadsAfterAll(ctx, u, t, keys[1..])
    requires forall q :: q in keys[1..] ==> Undisturbed(ctx, s, u, q)
    ensures LoadsAfterAll(ctx, s, t, keys)
  {
    hide Retry.RightAt, Retry.Delivered, LoadsFine, Held, Listed;
    var p, more := keys[0], keys[1..];
    assert keys == [p] + more;
    forall q | q in more
      ensures Retry.Delivered(ctx, u, q, Listed(u, q)) == Retry.Delivered(ctx, s, q, Listed(s, q))
    {
      DeliveredSame(ctx, s, u, q, Listed(s, q));
    }
    forall e: Id, q: uint32 ensures SlotAfter(ctx, s, t, keys, e, q) {
      assert SlotAfter(ctx, u, t, more, e, q);
      if q in more {
        assert Undisturbed(ctx, s, u, q);
        assert Retry.RightAt(ctx, u, e, q) == Retry.RightAt(ctx, s, e, q);
      }
    }
  }

  lemma VaultAllStep(ctx: Context, s: State, u: State, t: State, keys: seq<uint32>)
    requires keys != [] && keys[0] !in keys[1..]
    requires VaultAfter(ctx, s, u, keys[0], Listed(s, keys[0])) && VaultAfterAll(ctx, u, t, keys[1..])
    requires forall q :: q in keys[1..] ==> Undisturbed(ctx, s, u, q)
    ensures VaultAfterAll(ctx, s, t, keys)
  {
    hide Retry.RightAt, Retry.Delivered, Brings, Listed, Undisturbed;
    var p, more := keys[0], keys[1..];
    assert keys == [p] + more;
    forall q | q in t.vault && q !in s.vault ensures 0 <= q < U32 && StoredNow(ctx, s, q, keys, t.vault[q]) {
      if q !in u.vault {
        assert StoredNow(ctx, u, q, more, t.vault[q]);
        ListedSame(ctx, s, u, q);
        DeliveredSame(ctx, s, u, q, Listed(s, q));
        BringsSame(ctx, s, u, q, Listed(s, q), t.vault[q]);
      }
    }
    forall q: uint32 | q in keys && Retry.Delivered(ctx, s, q, Listed(s, q)) ensures q in t.vault {
      if q != p {
        ListedSame(ctx, s, u, q);
        DeliveredSame(ctx, s, u, q, Listed(s, q));
      } else {
        assert p in u.vault;
      }
    }
  }

  lemma ListedSame(ctx: Context, s: State, u: State, q: uint32)
    requires Undisturbed(ctx, s, u, q)
    ensures Listed(u, q) == Listed(s, q)
  {
  }

  lemma {:induction false} CollectAllBooks(ctx: Context, policy: Download.Policy, s: State, keys: seq<uint32>)
    requires Setting(ctx, policy) && Retry.AllSound(ctx, s, keys) && Grounded(ctx, s, keys) && LoadsFine(s)
    ensures
      var t := CollectAll(ctx, policy, s, keys).1;
      SameFrame(s, t) && LoadsAfterAll(ctx, s, t, keys) && VaultAfterAll(ctx, s, t, keys)
    decreases |keys|
  {
    CollectAllNext(ctx, policy, s, keys);
    hide CollectAll;
    if keys != [] {
      var p, more := keys[0], keys[1..];
      assert keys == [p] + more && p !in more;
      var u := CollectFrom(ctx, policy, s, p, Listed(s, p)).1;
      CollectFromBooks(ctx, policy, s, p, Listed(s, p));
      StaysAllSound(ctx, policy, s, keys);
      hide CollectFrom, Retry.AllSound, LoadsFine, VaultAfter, SameFrame, LoadsAfterAll, VaultAfterAll, Grounded;
      forall q | q in more ensures Undisturbed(ctx, s, u, q) {
        OtherPiece(ctx, policy, s, p, q);
      }
      hide Undisturbed;
      LoadsAreFine(ctx, s, u, p);
      hide LoadsAfter;
      CollectAllBooks(ctx, policy, u, more);
      var t := CollectAll(ctx, policy, u, more).1;
      FrameChains(s, u, t);
      LoadsAllStep(ctx, s, u, t, keys);
      VaultAllStep(ctx, s, u, t, keys);
    }
  }

  lemma LoadsAreFine(ctx: Context, s: State, u: State, p: uint32)
    requires LoadsAfter(ctx, s, u, p, Listed(s, p))
    ensures LoadsFine(u)
  {
  }

  lemma StaysAllSound(ctx: Context, policy: Download.Policy, s: State, keys: seq<uint32>)
    requires Setting(ctx, policy) && Retry.AllSound(ctx, s, keys) && keys != []
    ensures keys[0] < |ctx.pieceHashes| && Retry.Sound(s, keys[0], Listed(s, keys[0])) && keys[0] !in keys[1..]
    ensures Retry.AllSound(ctx, CollectFrom(ctx, policy, s, keys[0], Listed(s, keys[0])).1, keys[1..])
  {
    var p, more := keys[0], keys[1..];
    assert keys == [p] + more;
    Retry.CollectFromDecides(ctx, policy, s, p, Listed(s, p));
    var u := CollectFrom(ctx, policy, s, p, Listed(s, p)).1;
    assert u.pieceDownloaders == s.pieceDownloaders;
    hide CollectFrom, Retry.Sound, Retry.SameAt, Retry.RightAt, Retry.Delivered, Retry.OutcomeAt;
    forall q | q in more ensures q < |ctx.pieceHashes| && Retry.Sound(u, q, Listed(u, q)) {
      assert q in keys;
      Retry.SoundStays(ctx, s, u, q);
    }
  }

  // ---------- is_done ----------

  /**
   * `is_done`. A piece is delivered if one of its downloaders has it whole with the right hash. Each delivered
   * piece leaves the missing ones, the lists, and its deliverers' loads; the first deliverer's bytes are
   * stored, unless the piece was stored before. Nothing else leaves a list, a load or the missing ones, and
   * nothing else is stored. Connections, pool, and what peers offer stay.
   */
  lemma IsDoneEffect(
    env: Runs.Environment, ctx: Context, policy: Download.Policy, vault: map<nat, seq<byte>>,
    s: State, keys: seq<uint32>)
    requires Setting(ctx, policy) && Invariant(env, ctx, policy, vault, s)
    requires Enumerates(keys, s.pieceDownloaders.Keys) && Grounded(ctx, s, keys)
    ensures
      var (done, t) := Swarm.IsDone(ctx, policy, s, keys);
      && (done <==> t.missing == {})
      && t.connections == s.connections && t.nextId == s.nextId && t.objects.Keys == s.objects.Keys
      && (forall p: uint32 ::
            Listed(t, p) == if Retry.Delivered(ctx, s, p, Listed(s, p)) then [] else Listed(s, p))
      && LoadsAfterAll(ctx, s, t, keys) && VaultAfterAll(ctx, s, t, keys)
      && (forall d :: d in s.objects ==>
            t.objects[d].contact == s.objects[d].contact && t.objects[d].state.peer == s.objects[d].state.peer)
  {
    Retry.ListsSound(env, ctx, policy, vault, s, keys);
    assert LoadsFine(s);
    hide Invariant, LoadsFine;
    CollectAllBooks(ctx, policy, s, keys);
    Retry.CollectAllDecides(ctx, policy, s, keys);
    var (completed, u) := CollectAll(ctx, policy, s, keys);
    hide CollectAll, Retry.AllSound, Retry.Delivered, Retry.RightAt, Retry.Decided, Retry.SameAt, VaultAfterAll;
    var t := u.(pieceDownloaders := u.pieceDownloaders - completed);
    forall p: uint32
      ensures Listed(t, p) == if Retry.Delivered(ctx, s, p, Listed(s, p)) then [] else Listed(s, p)
    {
      if p !in s.pieceDownloaders.Keys {
        NobodyDelivers(ctx, s, p);
      }
    }
    ReleasedLoads(ctx, s, u, t, keys);
  }

  lemma NobodyDelivers(ctx: Context, s: State, p: uint32)
    requires p !in s.pieceDownloaders
    ensures Listed(s, p) == [] && !Retry.Delivered(ctx, s, p, Listed(s, p))
  {
  }

  lemma ReleasedLoads(ctx: Context, s: State, u: State, t: State, keys: seq<uint32>)
    requires LoadsAfterAll(ctx, s, u, keys) && VaultAfterAll(ctx, s, u, keys)
    requires t.peerPool == u.peerPool && t.missing == u.missing && t.vault == u.vault
    ensures LoadsAfterAll(ctx, s, t, keys) && VaultAfterAll(ctx, s, t, keys)
  {
    hide Retry.RightAt, Retry.Delivered, StoredNow;
    forall e: Id, q: uint32 ensures SlotAfter(ctx, s, t, keys, e, q) {
      assert SlotAfter(ctx, s, u, keys, e, q) && Held(t, e) == Held(u, e);
    }
    forall e ensures NoDuplicates(Held(t, e)) {
      assert Held(t, e) == Held(u, e);
    }
  }
}
