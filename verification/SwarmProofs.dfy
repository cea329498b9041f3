/** What every run of the scheduler keeps. */
module SwarmProofs {
  import opened Bytes
  import opened TorrentContext
  import opened Swarm
  import Download
  import Runs = DownloadProofs

  // ---------- runs ----------

  datatype Event =
    | Include(contacts: seq<Contact>)
    | Assign(order: seq<uint32>, pool: seq<Id>)
    | Revoke(inactive: set<Id>, pool: seq<Id>)
    | IsDone(keys: seq<uint32>)
    | Move(downloader: Id, event: Runs.Event)

  /** The downloader steps the strategy does not make itself. */
  ghost predicate OwnStep(e: Runs.Event) {
    e.Continue? || e.Turn? || e.Arrive?
  }

  ghost predicate Enabled(env: Runs.Environment, ctx: Context, s: State, e: Event)
    requires ctx.Valid()
  {
    match e
    case Include(_) => true
    case Assign(order, pool) => Enumerates(order, s.missing) && Enumerates(pool, s.peerPool.Keys)
    case Revoke(_, pool) => Enumerates(pool, s.peerPool.Keys)
    case IsDone(keys) => Enumerates(keys, s.pieceDownloaders.Keys)
    case Move(d, event) =>
      d in s.objects && OwnStep(event) && Runs.Enabled(env, ctx, s.objects[d].state, event)
  }

  // ---------- the invariant, part by part ----------

  ghost predicate Identities(s: State) {
    && s.peerPool.Keys == s.objects.Keys
    && forall d :: d in s.objects ==> d < s.nextId
  }

  function AddressOf(s: State, d: Id): nat
    requires d in s.objects
  {
    s.objects[d].contact.address
  }

  /** Live downloaders and connections correspond one to one, by address. */
  ghost predicate OnePerAddress(s: State) {
    && (forall d :: d in s.objects ==> AddressOf(s, d) in s.connections)
    && (forall a :: a in s.connections ==> exists d :: d in s.objects && AddressOf(s, d) == a)
    && (forall d, e :: d in s.objects && e in s.objects && AddressOf(s, d) == AddressOf(s, e) ==> d == e)
  }

  ghost predicate Bounded(ctx: Context, s: State) {
    && (forall p :: p in s.pieceDownloaders ==>
          p < ctx.pieceCount && NoDuplicates(s.pieceDownloaders[p]) && |s.pieceDownloaders[p]| <= MAX_DOWNLOADERS)
    && (forall d :: d in s.peerPool ==> NoDuplicates(s.peerPool[d]) && |s.peerPool[d]| <= MAX_PIECES)
    && (forall d, p :: d in s.peerPool && p in s.peerPool[d] ==> p < ctx.pieceCount)
  }

  /** A listed downloader is pooled and holds the piece. */
  ghost predicate ListedHolds(s: State) {
    forall p, d :: d in Listed(s, p) ==> d in s.peerPool && p in Held(s, d)
  }

  /** A downloader holding a missing piece is listed under it. */
  ghost predicate HolderListed(s: State) {
    forall p, d :: p in Held(s, d) && p in s.missing ==> d in Listed(s, p)
  }

  ghost predicate ListedMissing(s: State) {
    forall p :: Listed(s, p) != [] ==> p in s.missing
  }

  /** A downloader only has pieces that the pool says it holds. */
  ghost predicate EntriesHeld(s: State) {
    forall d, p :: d in s.objects && p in s.objects[d].state.pieces ==> p < U32 && p in Held(s, d)
  }

  ghost predicate MissingExact(ctx: Context, s: State) {
    forall p :: 0 <= p < U32 ==> (p in s.missing <==> p < ctx.pieceCount && p !in s.vault)
  }

  ghost predicate GoodPiece(env: Runs.Environment, ctx: Context, p: nat, data: seq<byte>)
    requires ctx.Valid()
  {
    && p < ctx.pieceCount && |data| == ctx.PieceSize(p) && ctx.sha1(data) == ctx.pieceHashes[p]
    && (!env.InBounds? ==> data != [])
    && (env.Authentic? ==> p < |env.pieces| && data == env.pieces[p])
  }

  /** Stored pieces stay as they are, and the new ones are right. */
  ghost predicate VaultGood(env: Runs.Environment, ctx: Context, vault: map<nat, seq<byte>>, s: State)
    requires ctx.Valid()
  {
    && (forall p :: p in vault ==> p in s.vault && s.vault[p] == vault[p])
    && (forall p :: p in s.vault && p !in vault ==> GoodPiece(env, ctx, p, s.vault[p]))
  }

  ghost predicate Healthy(env: Runs.Environment, ctx: Context, policy: Download.Policy, s: State)
    requires ctx.Valid()
  {
    forall d :: d in s.objects ==> Runs.Invariant(env, ctx, policy, s.objects[d].state)
  }

  /** What must be true of the calls made so far. */
  ghost predicate Safe(env: Runs.Environment, o: Observation) {
    match o
    case Asked(_, _, hadEntry, hadRequests) => !hadEntry && (!env.InBounds? ==> !hadRequests)
    case Judged(_, _, corrupt) => env.Authentic? ==> !corrupt
    case Erased(_, _, found) => found
  }

  ghost predicate HistorySafe(env: Runs.Environment, s: State) {
    forall i :: 0 <= i < |s.history| ==> Safe(env, s.history[i])
  }

  /** The hashes are those of the right pieces. */
  ghost predicate HashesMatch(env: Runs.Environment, ctx: Context)
    requires ctx.Valid()
  {
    env.Authentic? ==>
      Runs.PiecesOf(ctx, env.pieces) &&
      forall p :: 0 <= p < |env.pieces| ==> ctx.sha1(env.pieces[p]) == ctx.pieceHashes[p]
  }

  /** The parts that hold all along, also inside `is_done`: the books, and what they are about. */
  ghost predicate Books(ctx: Context, s: State) {
    Identities(s) && OnePerAddress(s) && Bounded(ctx, s) && HolderListed(s) && EntriesHeld(s)
  }

  ghost predicate Goods(
    env: Runs.Environment, ctx: Context, policy: Download.Policy, vault: map<nat, seq<byte>>, s: State)
    requires ctx.Valid()
  {
    MissingExact(ctx, s) && VaultGood(env, ctx, vault, s) && Healthy(env, ctx, policy, s) && HistorySafe(env, s)
  }

  ghost predicate Core(
    env: Runs.Environment, ctx: Context, policy: Download.Policy, vault: map<nat, seq<byte>>, s: State)
    requires ctx.Valid()
  {
    Books(ctx, s) && Goods(env, ctx, policy, vault, s)
  }

  ghost predicate Invariant(
    env: Runs.Environment, ctx: Context, policy: Download.Policy, vault: map<nat, seq<byte>>, s: State)
    requires ctx.Valid()
  {
    Core(env, ctx, policy, vault, s) && ListedHolds(s) && ListedMissing(s)
  }

  lemma InitialHolds(env: Runs.Environment, ctx: Context, policy: Download.Policy, vault: map<nat, seq<byte>>)
    requires ctx.Valid()
    ensures Invariant(env, ctx, policy, vault, Initial(ctx, vault))
  {
  }

  // ---------- include ----------

  lemma AdmitKeepsAddresses(s: State, c: Contact)
    requires Identities(s) && OnePerAddress(s)
    ensures Identities(Admit(s, c)) && OnePerAddress(Admit(s, c))
  {
    if c.address !in s.connections {
      var t := Admit(s, c);
      forall a | a in t.connections ensures exists d :: d in t.objects && AddressOf(t, d) == a {
        if a == c.address {
          assert AddressOf(t, s.nextId) == a;
        } else {
          var d :| d in s.objects && AddressOf(s, d) == a;
          assert AddressOf(t, d) == a;
        }
      }
      forall d | d in t.objects ensures AddressOf(t, d) in t.connections {
        assert d != s.nextId ==> AddressOf(t, d) == AddressOf(s, d);
      }
    }
  }

  lemma AdmitKeepsLists(ctx: Context, s: State, c: Contact)
    requires Identities(s) && Bounded(ctx, s)
    requires HolderListed(s) && EntriesHeld(s) && ListedHolds(s) && ListedMissing(s)
    ensures
      var t := Admit(s, c);
      Bounded(ctx, t) && HolderListed(t) && EntriesHeld(t) && ListedHolds(t) && ListedMissing(t)
  {
    if c.address !in s.connections {
      var t := Admit(s, c);
      assert s.nextId !in s.peerPool;
      assert forall d :: Held(t, d) == Held(s, d);
      assert forall p :: Listed(t, p) == Listed(s, p);
    }
  }

  lemma AdmitKeeps(
    env: Runs.Environment, ctx: Context, policy: Download.Policy, vault: map<nat, seq<byte>>, s: State, c: Contact)
    requires ctx.Valid() && HashesMatch(env, ctx) && Invariant(env, ctx, policy, vault, s)
    ensures Invariant(env, ctx, policy, vault, Admit(s, c))
  {
    hide Runs.Invariant, Identities, OnePerAddress, Bounded, HolderListed, EntriesHeld, ListedHolds, ListedMissing;
    AdmitKeepsAddresses(s, c);
    AdmitKeepsLists(ctx, s, c);
    InitialDownloaderHolds(env, ctx, policy);
    assert Healthy(env, ctx, policy, Admit(s, c));
  }

  lemma InitialDownloaderHolds(env: Runs.Environment, ctx: Context, policy: Download.Policy)
    requires ctx.Valid() && HashesMatch(env, ctx)
    ensures Runs.Invariant(env, ctx, policy, Download.INITIAL)
  {
    assert forall b :: Runs.Count(Download.INITIAL, b) == 0;
    assert Runs.Outstanding(Download.INITIAL) == {};
  }

  lemma {:induction false} IncludeKeeps(
    env: Runs.Environment, ctx: Context, policy: Download.Policy, vault: map<nat, seq<byte>>,
    s: State, contacts: seq<Contact>)
    requires ctx.Valid() && HashesMatch(env, ctx) && Invariant(env, ctx, policy, vault, s)
    ensures Invariant(env, ctx, policy, vault, Swarm.Include(s, contacts))
    decreases |contacts|
  {
    if contacts != [] {
      AdmitKeeps(env, ctx, policy, vault, s, contacts[0]);
      IncludeKeeps(env, ctx, policy, vault, Admit(s, contacts[0]), contacts[1..]);
    }
  }
}
