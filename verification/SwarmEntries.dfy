/** When a listed downloader really has the piece in hand, and when a retry is refused. */
module SwarmEntries {
  import opened Bytes
  import opened TorrentContext
  import opened Swarm
  import opened SwarmProofs
  import BitFields
  import Download
  import Runs = DownloadProofs
  import A = SwarmAssign
  import R = SwarmRevoke
  import Theorems = SwarmTheorems

  /** A downloader has an entry for a piece and, where `bits` is set, its bit too. */
  ghost predicate InHand(s: State, d: Id, p: uint32, bits: bool) {
    d in s.objects && p in s.objects[d].state.pieces && (bits ==> HasBit(s, d, p))
  }

  /** Outside `open`, whoever is listed under a piece has it in hand. */
  ghost predicate Entered(s: State, open: set<uint32>, bits: bool) {
    forall p, d :: d in Listed(s, p) && p !in open ==> InHand(s, d, p, bits)
  }

  /** A bitfield message repeats at least the bits its downloader already has. */
  ghost predicate KeepsBits(s: State, e: Event) {
    e.Move? && e.downloader in s.objects && e.event.Arrive? && e.event.message.BitField? ==>
      forall i: nat :: BitFields.Get(s.objects[e.downloader].state.peer.remoteBitfield, i)
        ==> BitFields.Get(Download.RawBits(e.event.message.payload), i)
  }

  /** A run without a message that clears a bit. */
  ghost predicate Reaches(
    env: Runs.Environment, ctx: Context, policy: Download.Policy, s: State, events: seq<Event>, t: State)
    requires Setting(ctx, policy)
    decreases |events|
  {
    if events == [] then t == s
    else
      && Enabled(env, ctx, s, events[0]) && Theorems.Callable(ctx, s, events[0]) && KeepsBits(s, events[0])
      && Reaches(env, ctx, policy, Theorems.Next(ctx, policy, s, events[0]), events[1..], t)
  }

  // ---------- include ----------

  lemma {:induction false} IncludeEnters(s: State, contacts: seq<Contact>, bits: bool)
    requires Entered(s, {}, bits) && Identities(s)
    ensures Entered(Swarm.Include(s, contacts), {}, bits)
    decreases |contacts|
  {
    if contacts != [] {
      var t := Admit(s, contacts[0]);
      forall p, d | d in Listed(t, p) ensures InHand(t, d, p, bits) {
        assert d in Listed(s, p) && InHand(s, d, p, bits);
      }
      IncludeEnters(t, contacts[1..], bits);
    }
  }

  // ---------- assign ----------

  lemma StartEnters(ctx: Context, policy: Download.Policy, o: Download.State, p: uint32)
    requires Setting(ctx, policy)
    ensures
      var (ok, t) := Download.Start(ctx, policy, o, p);
      && (ok <==> BitFields.Get(o.peer.remoteBitfield, p))
      && t.peer == o.peer && t.pieces.Keys == if ok then o.pieces.Keys + {p} else o.pieces.Keys
  {
  }

  lemma GivenEnters(ctx: Context, policy: Download.Policy, s: State, d: Id, p: uint32, bits: bool)
    requires Setting(ctx, policy) && Entered(s, {}, bits) && A.Eligible(s, d, p)
    ensures Entered(A.Given(ctx, policy, s, d, p), {}, bits)
  {
    var t := A.Given(ctx, policy, s, d, p);
    A.GivenFields(ctx, policy, s, d, p);
    StartEnters(ctx, policy, s.objects[d].state, p);
    hide Download.Start, A.Given, BitFields.Get;
    assert forall q :: Listed(t, q) == if q == p then Listed(s, p) + [d] else Listed(s, q);
    forall q, e | e in Listed(t, q) ensures InHand(t, e, q, bits) {
      assert e in Listed(s, q) || (e == d && q == p);
      assert e in Listed(s, q) ==> InHand(s, e, q, bits);
    }
  }

  lemma VisitEnters(ctx: Context, policy: Download.Policy, s: State, p: uint32, pool: seq<Id>, bits: bool)
    requires Setting(ctx, policy) && Live(s, pool) && Entered(s, {}, bits)
    ensures Entered(Visit(ctx, policy, s, p, pool), {}, bits)
  {
    var t := Touch(s, p);
    forall q, d | d in Listed(t, q) ensures InHand(t, d, q, bits) {
      assert d in Listed(s, q) && InHand(s, d, q, bits);
    }
    hide Entered;
    if |Listed(t, p)| < MAX_DOWNLOADERS {
      var k := A.OfferFindsFirst(ctx, policy, t, p, pool);
      if k < |pool| {
        GivenEnters(ctx, policy, t, pool[k], p, bits);
      }
    }
  }

  lemma {:induction false} PassEnters(
    ctx: Context, policy: Download.Policy, s: State, order: seq<uint32>, pool: seq<Id>, bits: bool)
    requires Setting(ctx, policy) && Live(s, pool) && Entered(s, {}, bits)
    ensures Entered(Pass(ctx, policy, s, order, pool), {}, bits)
    decreases |order|
  {
    hide Entered, Visit;
    if order != [] {
      VisitEnters(ctx, policy, s, order[0], pool, bits);
      PassEnters(ctx, policy, Visit(ctx, policy, s, order[0], pool), order[1..], pool, bits);
    }
  }

  lemma AssignEnters(
    ctx: Context, policy: Download.Policy, s: State, order: seq<uint32>, pool: seq<Id>, bits: bool)
    requires Setting(ctx, policy) && Live(s, pool) && Entered(s, {}, bits)
    ensures Entered(Swarm.Assign(ctx, policy, s, order, pool), {}, bits)
  {
    hide Entered, Pass;
    A.AssignIsTwoPasses(ctx, policy, s, order, pool);
    PassEnters(ctx, policy, s, order, pool, bits);
    PassEnters(ctx, policy, Pass(ctx, policy, s, order, pool), order, pool, bits);
  }

  // ---------- revoke ----------

  lemma RevokeEnters(
    env: Runs.Environment, ctx: Context, policy: Download.Policy, vault: map<nat, seq<byte>>,
    s: State, inactive: set<Id>, pool: seq<Id>, bits: bool)
    requires ctx.Valid() && Invariant(env, ctx, policy, vault, s) && Enumerates(pool, s.peerPool.Keys)
    requires Live(s, pool) && Entered(s, {}, bits)
    ensures Entered(Swarm.Revoke(s, inactive, pool), {}, bits)
  {
    assert Identities(s);
    R.RevokeResult(s, inactive, pool);
    hide Invariant, Swarm.Revoke;
    var t := Swarm.Revoke(s, inactive, pool);
    forall p, d | d in Listed(t, p) ensures InHand(t, d, p, bits) {
      R.RevokeForgets(env, ctx, policy, vault, s, inactive, pool, p, d);
      assert d in Listed(s, p) && InHand(s, d, p, bits);
      assert d !in R.Removed(s, inactive, pool);
    }
  }

  // ---------- is_done ----------

  /** What becomes of the one downloader, and whether it delivered. */
  ghost function AfterCollect(
    ctx: Context, policy: Download.Policy, o: Download.State, p: uint32): (bool, Download.State)
    requires Setting(ctx, policy) && p < |ctx.pieceHashes|
  {
    var (got, t) := Download.Retrieve(ctx, o, p);
    if got.Some? && got.value.status == Download.Complete then (true, t)
    else if got.Some? && got.value.status == Download.Corrupt then (false, Download.Start(ctx, policy, t, p).1)
    else (false, t)
  }

  lemma CollectFields(ctx: Context, policy: Download.Policy, s: State, p: uint32, d: Id)
    requires Setting(ctx, policy) && d in s.objects && p < |ctx.pieceHashes|
    ensures
      var (done, t) := Collect(ctx, policy, s, p, d);
      var after := AfterCollect(ctx, policy, s.objects[d].state, p);
      && done == after.0 && t.pieceDownloaders == s.pieceDownloaders
      && t.objects == s.objects[d := Remote(s.objects[d].contact, after.1)]
  {
    hide Download.Start, Download.Retrieve, EraseOne;
  }

  /** Only the piece at hand can lose its entry, by being delivered or for want of its bit. */
  lemma CollectEntry(ctx: Context, policy: Download.Policy, o: Download.State, p: uint32, q: nat)
    requires Setting(ctx, policy) && p < |ctx.pieceHashes| && q in o.pieces
    ensures
      var (done, t) := AfterCollect(ctx, policy, o, p);
      && t.peer == o.peer
      && (q != p || (!done && BitFields.Get(o.peer.remoteBitfield, p)) ==> q in t.pieces)
  {
    StartEnters(ctx, policy, Download.Retrieve(ctx, o, p).1, p);
    hide Download.Start, BitFields.Get;
  }

  lemma CollectEnters(ctx: Context, policy: Download.Policy, s: State, open: set<uint32>, p: uint32, d: Id)
    requires Setting(ctx, policy) && d in s.objects && p < |ctx.pieceHashes| && Entered(s, open, true)
    ensures
      var (done, t) := Collect(ctx, policy, s, p, d);
      t.objects.Keys == s.objects.Keys && Entered(t, if done then open + {p} else open, true)
  {
    CollectFields(ctx, policy, s, p, d);
    hide Collect, AfterCollect, BitFields.Get;
    var (done, t) := Collect(ctx, policy, s, p, d);
    forall q: uint32, e | e in Listed(t, q) && q !in open && !(done && q == p) ensures InHand(t, e, q, true) {
      assert e in Listed(s, q) && InHand(s, e, q, true);
      if e == d {
        CollectEntry(ctx, policy, s.objects[d].state, p, q);
      }
    }
  }

  lemma {:induction false} CollectFromEnters(
    ctx: Context, policy: Download.Policy, s: State, open: set<uint32>, p: uint32, ds: seq<Id>)
    requires Setting(ctx, policy) && p < |ctx.pieceHashes| && Entered(s, open, true)
    requires forall d :: d in ds ==> d in s.objects
    ensures
      var (done, t) := CollectFrom(ctx, policy, s, p, ds);
      Entered(t, if done then open + {p} else open, true)
    decreases |ds|
  {
    hide Entered, Collect;
    if ds != [] {
      CollectEnters(ctx, policy, s, open, p, ds[0]);
      var (first, t) := Collect(ctx, policy, s, p, ds[0]);
      var next := if first then open + {p} else open;
      CollectFromEnters(ctx, policy, t, next, p, ds[1..]);
      assert next + {p} == open + {p};
    }
  }

  lemma {:induction false} CollectAllEnters(
    ctx: Context, policy: Download.Policy, s: State, open: set<uint32>, keys: seq<uint32>)
    requires Setting(ctx, policy) && Grounded(ctx, s, keys) && Entered(s, open, true)
    ensures
      var (completed, t) := CollectAll(ctx, policy, s, keys);
      Entered(t, open + completed, true)
    decreases |keys|
  {
    hide Entered, CollectFrom;
    if keys == [] {
      assert open + {} == open;
    } else {
      var p := keys[0];
      CollectFromEnters(ctx, policy, s, open, p, Listed(s, p));
      var (done, t) := CollectFrom(ctx, policy, s, p, Listed(s, p));
      var next := if done then open + {p} else open;
      assert forall q :: q in keys[1..] ==> q in keys && Listed(t, q) == Listed(s, q);
      CollectAllEnters(ctx, policy, t, next, keys[1..]);
      var (rest, u) := CollectAll(ctx, policy, t, keys[1..]);
      assert next + rest == open + ((if done then {p} else {}) + rest);
    }
  }

  lemma IsDoneEnters(ctx: Context, policy: Download.Policy, s: State, keys: seq<uint32>)
    requires Setting(ctx, policy) && Grounded(ctx, s, keys) && Entered(s, {}, true)
    ensures Entered(Swarm.IsDone(ctx, policy, s, keys).1, {}, true)
  {
    CollectAllEnters(ctx, policy, s, {}, keys);
    var (completed, t) := CollectAll(ctx, policy, s, keys);
    assert {} + completed == completed;
    hide CollectAll, BitFields.Get;
    var u := t.(pieceDownloaders := t.pieceDownloaders - completed);
    forall q, d | d in Listed(u, q) ensures InHand(u, d, q, true) {
      assert d in Listed(t, q) && q !in completed && InHand(t, d, q, true);
    }
  }

  // ---------- a downloader's own step ----------

  lemma OwnStepKeepsBits(ctx: Context, policy: Download.Policy, o: Download.State, e: Runs.Event, i: nat)
    requires Setting(ctx, policy) && OwnStep(e)
    requires e.Turn? ==> 0 < o.senders
    requires e.Arrive? ==> Download.Fits(o, e.message)
    requires e.Arrive? && e.message.BitField? && BitFields.Get(o.peer.remoteBitfield, i) ==>
      BitFields.Get(Download.RawBits(e.message.payload), i)
    ensures BitFields.Get(o.peer.remoteBitfield, i) ==>
      BitFields.Get(Runs.Next(ctx, policy, o, e).peer.remoteBitfield, i)
  {
    if e.Arrive? && e.message.Have? {
      BitFields.MarkChangesOneBit(o.peer.remoteBitfield, e.message.pieceIndex, true, i);
    }
    hide BitFields.Get, BitFields.Marked;
  }

  lemma MoveEnters(ctx: Context, policy: Download.Policy, s: State, d: Id, e: Runs.Event, bits: bool)
    requires Setting(ctx, policy) && Entered(s, {}, bits) && Theorems.Callable(ctx, s, Move(d, e))
    requires bits ==> KeepsBits(s, Move(d, e))
    ensures Entered(Theorems.Next(ctx, policy, s, Move(d, e)), {}, bits)
  {
    var o := s.objects[d].state;
    Theorems.OwnStepEntries(ctx, policy, o, e);
    forall i: nat | bits
      ensures BitFields.Get(o.peer.remoteBitfield, i) ==>
        BitFields.Get(Runs.Next(ctx, policy, o, e).peer.remoteBitfield, i)
    {
      OwnStepKeepsBits(ctx, policy, o, e, i);
    }
    var t := Theorems.Next(ctx, policy, s, Move(d, e));
    hide Runs.Next, BitFields.Get;
    forall q, f | f in Listed(t, q) ensures InHand(t, f, q, bits) {
      assert f in Listed(s, q) && InHand(s, f, q, bits);
    }
  }

  // ---------- every step, every run ----------

  /** Everything but `is_done` keeps entries, whatever the messages; and bits, if no message clears one. */
  lemma OthersEnter(
    env: Runs.Environment, ctx: Context, policy: Download.Policy, vault: map<nat, seq<byte>>,
    s: State, e: Event, bits: bool)
    requires Setting(ctx, policy) && Invariant(env, ctx, policy, vault, s) && Entered(s, {}, bits)
    requires Enabled(env, ctx, s, e) && Theorems.Callable(ctx, s, e) && !e.IsDone? && (bits ==> KeepsBits(s, e))
    ensures Entered(Theorems.Next(ctx, policy, s, e), {}, bits)
  {
    hide Entered;
    match e
    case Include(contacts) => IncludeEnters(s, contacts, bits);
    case Assign(order, pool) => AssignEnters(ctx, policy, s, order, pool, bits);
    case Revoke(inactive, pool) => RevokeEnters(env, ctx, policy, vault, s, inactive, pool, bits);
    case Move(d, event) => MoveEnters(ctx, policy, s, d, event, bits);
  }

  lemma {:induction false} RunEnters(
    env: Runs.Environment, ctx: Context, policy: Download.Policy, vault: map<nat, seq<byte>>,
    s: State, events: seq<Event>, t: State)
    requires Setting(ctx, policy) && HashesMatch(env, ctx) && Invariant(env, ctx, policy, vault, s)
    requires Entered(s, {}, true)
    requires Reaches(env, ctx, policy, s, events, t)
    ensures Invariant(env, ctx, policy, vault, t) && Entered(t, {}, true)
    decreases |events|
  {
    hide Invariant, Entered, KeepsBits;
    if events != [] {
      if events[0].IsDone? {
        IsDoneEnters(ctx, policy, s, events[0].keys);
      } else {
        OthersEnter(env, ctx, policy, vault, s, events[0], true);
      }
      Theorems.StepKeeps(env, ctx, policy, vault, s, events[0]);
      RunEnters(env, ctx, policy, vault, Theorems.Next(ctx, policy, s, events[0]), events[1..], t);
    }
  }

  /**
   * In every run whose messages clear no bit, whatever in-bounds blocks arrive: the downloaders listed
   * under a missing piece are exactly those that have it in hand, and they have its bit.
   */
  lemma ListedHaveEntries(
    ctx: Context, policy: Download.Policy, vault: map<nat, seq<byte>>, events: seq<Event>, t: State, p: uint32, d: Id)
    requires Setting(ctx, policy) && Reaches(Runs.InBounds, ctx, policy, Initial(ctx, vault), events, t)
    requires d in t.objects
    ensures p in t.missing ==> (d in Listed(t, p) <==> p in t.objects[d].state.pieces)
    ensures d in Listed(t, p) ==> p in t.objects[d].state.pieces && HasBit(t, d, p)
  {
    InitialHolds(Runs.InBounds, ctx, policy, vault);
    RunEnters(Runs.InBounds, ctx, policy, vault, Initial(ctx, vault), events, t);
    hide Goods, Reaches, BitFields.Get;
    assert d in Listed(t, p) ==> InHand(t, d, p, true);
  }
}
