/**
 * The scheduler over all downloaders: which piece is asked of whom, which pieces are still missing,
 * and what is stored. Each operation of the strategy is one step.
 */
module Swarm {
  import opened Bytes
  import opened TorrentContext
  import BitFields
  import Download
  import Runs = DownloadProofs

  /** The identity of a downloader object. */
  type Id = nat

  datatype Contact = Contact(address: nat, port: uint16)

  datatype Remote = Remote(contact: Contact, state: Download.State)

  /** What the history records of the calls whose safety is at stake. */
  datatype Observation =
    | Asked(downloader: Id, piece: uint32, hadEntry: bool, hadRequests: bool)
    | Judged(downloader: Id, piece: uint32, corrupt: bool)
    | Erased(downloader: Id, piece: uint32, found: bool)

  /**
   * `connections` is ordered by address alone, hence a map from addresses. `objects` are the live
   * downloaders, `vault` the stored pieces of this torrent, `history` an auxiliary record.
   */
  datatype State = State(
    pieceDownloaders: map<uint32, seq<Id>>,
    peerPool: map<Id, seq<uint32>>,
    connections: map<nat, Contact>,
    missing: set<uint32>,
    vault: map<nat, seq<byte>>,
    objects: map<Id, Remote>,
    nextId: Id,
    history: seq<Observation>)

  const MAX_DOWNLOADERS := 2
  const MAX_PIECES := 2
  const PASSES := 2

  /** What is asked of a torrent and a policy: hashes for all pieces, and blocks that fit into 32 bits. */
  ghost predicate Setting(ctx: Context, policy: Download.Policy) {
    Runs.Setting(ctx, policy)
  }

  function Initial(ctx: Context, vault: map<nat, seq<byte>>): State {
    State(map[], map[], map[], (set i: uint32 | i < ctx.pieceCount && i !in vault), vault, map[], 0, [])
  }

  // ---------- lookups that insert, as the maps' index operator does ----------

  function Listed(s: State, p: uint32): seq<Id> {
    if p in s.pieceDownloaders then s.pieceDownloaders[p] else []
  }

  function Held(s: State, d: Id): seq<uint32> {
    if d in s.peerPool then s.peerPool[d] else []
  }

  function Touch(s: State, p: uint32): State {
    s.(pieceDownloaders := s.pieceDownloaders[p := Listed(s, p)])
  }

  // ---------- include ----------

  function Admit(s: State, contact: Contact): State {
    if contact.address in s.connections then s
    else
      s.(connections := s.connections[contact.address := contact],
         objects := s.objects[s.nextId := Remote(contact, Download.INITIAL)],
         peerPool := s.peerPool[s.nextId := []],
         nextId := s.nextId + 1)
  }

  function Include(s: State, contacts: seq<Contact>): State
    decreases |contacts|
  {
    if contacts == [] then s else Include(Admit(s, contacts[0]), contacts[1..])
  }

  // ---------- assign ----------

  ghost predicate HasRequests(o: Download.State, p: uint32) {
    p in o.starting || exists b :: b in Runs.Outstanding(o) && b.piece == p
  }

  function WithState(s: State, d: Id, o: Download.State): State
    requires d in s.objects
  {
    s.(objects := s.objects[d := Remote(s.objects[d].contact, o)])
  }

  /** `downloader->download_piece(p)`, up to its first suspension, with its answer. */
  ghost function Ask(ctx: Context, policy: Download.Policy, s: State, d: Id, p: uint32): (bool, State)
    requires Setting(ctx, policy) && d in s.objects
  {
    var o := s.objects[d].state;
    var (ok, next) := Download.Start(ctx, policy, o, p);
    (ok, WithState(s, d, next).(history := s.history + [Asked(d, p, p in o.pieces, HasRequests(o, p))]))
  }

  lemma AskAccepts(ctx: Context, policy: Download.Policy, s: State, d: Id, p: uint32)
    requires Setting(ctx, policy) && d in s.objects
    ensures Ask(ctx, policy, s, d, p).0 <==> HasBit(s, d, p)
  {
  }

  function Recorded(s: State, d: Id, p: uint32): State {
    s.(peerPool := s.peerPool[d := Held(s, d) + [p]],
       pieceDownloaders := s.pieceDownloaders[p := Listed(s, p) + [d]])
  }

  function HasBit(s: State, d: Id, p: uint32): bool
    requires d in s.objects
  {
    BitFields.Get(s.objects[d].state.peer.remoteBitfield, p)
  }

  ghost predicate Live(s: State, pool: seq<Id>) {
    forall d :: d in pool ==> d in s.objects && d in s.peerPool
  }

  /** The inner loop: the first pooled downloader that can take the piece gets it. */
  ghost function Offer(ctx: Context, policy: Download.Policy, s: State, p: uint32, pool: seq<Id>): (t: State)
    requires Setting(ctx, policy) && Live(s, pool)
    ensures t.objects.Keys == s.objects.Keys && t.missing == s.missing
    ensures s.peerPool.Keys <= t.peerPool.Keys
    decreases |pool|
  {
    if pool == [] then s
    else
      var d := pool[0];
      if d in Listed(s, p) then Offer(ctx, policy, s, p, pool[1..])
      else if HasBit(s, d, p) && |s.peerPool[d]| < MAX_PIECES then
        Recorded(Ask(ctx, policy, s, d, p).1, d, p)  // AskAccepts: the call looks at the same bit
      else Offer(ctx, policy, s, p, pool[1..])
  }

  ghost function Visit(ctx: Context, policy: Download.Policy, s: State, p: uint32, pool: seq<Id>): (t: State)
    requires Setting(ctx, policy) && Live(s, pool)
    ensures Live(t, pool)
  {
    var t := Touch(s, p);
    if |Listed(t, p)| < MAX_DOWNLOADERS then Offer(ctx, policy, t, p, pool) else t
  }

  ghost function Pass(ctx: Context, policy: Download.Policy, s: State, order: seq<uint32>, pool: seq<Id>): (t: State)
    requires Setting(ctx, policy) && Live(s, pool)
    ensures Live(t, pool)
    decreases |order|
  {
    if order == [] then s else Pass(ctx, policy, Visit(ctx, policy, s, order[0], pool), order[1..], pool)
  }

  ghost function Passes(
    ctx: Context, policy: Download.Policy, s: State, order: seq<uint32>, pool: seq<Id>, count: nat): (t: State)
    requires Setting(ctx, policy) && Live(s, pool)
    decreases count
  {
    if count == 0 then s else Passes(ctx, policy, Pass(ctx, policy, s, order, pool), order, pool, count - 1)
  }

  /** `order` is the shuffled list of missing pieces, `pool` the order of the pool's pointers. */
  ghost function Assign(ctx: Context, policy: Download.Policy, s: State, order: seq<uint32>, pool: seq<Id>): State
    requires Setting(ctx, policy) && Live(s, pool)
  {
    Passes(ctx, policy, s, order, pool, PASSES)
  }

  // ---------- revoke ----------

  function Unlist(s: State, d: Id, ps: seq<uint32>): (t: State)
    ensures t == s.(pieceDownloaders := t.pieceDownloaders)
    decreases |ps|
  {
    if ps == [] then s
    else
      Unlist(s.(pieceDownloaders := s.pieceDownloaders[ps[0] := Without(Listed(s, ps[0]), d)]), d, ps[1..])
  }

  function Scan(s: State, inactive: set<Id>, pool: seq<Id>): (t: State)
    ensures t == s.(pieceDownloaders := t.pieceDownloaders)
    decreases |pool|
  {
    if pool == [] then s
    else Scan(if pool[0] in inactive then Unlist(s, pool[0], Held(s, pool[0])) else s, inactive, pool[1..])
  }

  /** One entry for each piece a downloader holds: none for an idle one, two for a busy one. */
  function ToRemove(s: State, inactive: set<Id>, pool: seq<Id>): seq<Id> {
    if pool == [] then []
    else
      (if pool[0] in inactive then seq(|Held(s, pool[0])|, _ => pool[0]) else [])
      + ToRemove(s, inactive, pool[1..])
  }

  function Drop(s: State, d: Id): State
    requires d in s.objects
  {
    s.(peerPool := s.peerPool - {d}, connections := s.connections - {s.objects[d].contact.address})
  }

  function DropAll(s: State, ds: seq<Id>): (t: State)
    requires forall d :: d in ds ==> d in s.objects
    ensures t.objects == s.objects
    decreases |ds|
  {
    if ds == [] then s else DropAll(Drop(s, ds[0]), ds[1..])
  }

  /** The downloaders that nothing refers to any more are destroyed. */
  function Forget(s: State): State {
    s.(objects := map d | d in s.objects && d in s.peerPool :: s.objects[d])
  }

  lemma {:induction false} ToRemoveFromPool(s: State, inactive: set<Id>, pool: seq<Id>)
    ensures forall d :: d in ToRemove(s, inactive, pool) <==> d in pool && d in inactive && Held(s, d) != []
  {
    if pool != [] {
      ToRemoveFromPool(s, inactive, pool[1..]);
      var first := if pool[0] in inactive then seq(|Held(s, pool[0])|, _ => pool[0]) else [];
      assert forall d :: d in first ==> d == pool[0];
      assert pool[0] in inactive && Held(s, pool[0]) != [] ==> first[0] == pool[0];
    }
  }

  function Revoke(s: State, inactive: set<Id>, pool: seq<Id>): State
    requires Live(s, pool)
  {
    ToRemoveFromPool(s, inactive, pool);
    Forget(DropAll(Scan(s, inactive, pool), ToRemove(s, inactive, pool)))
  }

  // ---------- is_done ----------

  /** First writer wins. */
  function Pushed(vault: map<nat, seq<byte>>, p: nat, data: seq<byte>): map<nat, seq<byte>> {
    if p in vault then vault else vault[p := data]
  }

  /** `list.erase(std::remove(list.begin(), list.end(), p))`: one element goes, whatever the matches. */
  function EraseOne(list: seq<uint32>, p: uint32): seq<uint32> {
    WithoutElements(list, p);
    var kept := Without(list, p);
    if |kept| == |list| then list else kept + list[|kept| + 1..]
  }

  function Stored(s: State, d: Id, p: uint32, data: seq<byte>): State {
    s.(vault := Pushed(s.vault, p, data),
       peerPool := s.peerPool[d := EraseOne(Held(s, d), p)],
       missing := s.missing - {p},
       history := s.history + [Erased(d, p, p in Held(s, d))])
  }

  /** One downloader of one piece; the flag says whether it delivered the piece. */
  ghost function Collect(ctx: Context, policy: Download.Policy, s: State, p: uint32, d: Id): (bool, State)
    requires Setting(ctx, policy) && d in s.objects && p < |ctx.pieceHashes|
  {
    var (got, o) := Download.Retrieve(ctx, s.objects[d].state, p);
    var t := WithState(s, d, o);
    if got.Some? && got.value.status == Download.Complete then
      (true, Stored(t.(history := t.history + [Judged(d, p, false)]), d, p, got.value.data))
    else if got.Some? && got.value.status == Download.Corrupt then
      (false, Ask(ctx, policy, t.(history := t.history + [Judged(d, p, true)]), d, p).1)
    else (false, t)
  }

  ghost function CollectFrom(
    ctx: Context, policy: Download.Policy, s: State, p: uint32, ds: seq<Id>): (r: (bool, State))
    requires Setting(ctx, policy) && p < |ctx.pieceHashes|
    requires forall d :: d in ds ==> d in s.objects
    ensures r.1.objects.Keys == s.objects.Keys && r.1.pieceDownloaders == s.pieceDownloaders
    decreases |ds|
  {
    if ds == [] then (false, s)
    else
      var (first, t) := Collect(ctx, policy, s, p, ds[0]);
      var (rest, u) := CollectFrom(ctx, policy, t, p, ds[1..]);
      (first || rest, u)
  }

  ghost predicate Grounded(ctx: Context, s: State, keys: seq<uint32>) {
    forall p :: p in keys ==> p < |ctx.pieceHashes| && forall d :: d in Listed(s, p) ==> d in s.objects
  }

  /** All listed pieces; the set is that of the pieces some downloader delivered. */
  ghost function CollectAll(
    ctx: Context, policy: Download.Policy, s: State, keys: seq<uint32>): (r: (set<uint32>, State))
    requires Setting(ctx, policy) && Grounded(ctx, s, keys)
    decreases |keys|
  {
    if keys == [] then ({}, s)
    else
      var (completed, t) := CollectFrom(ctx, policy, s, keys[0], Listed(s, keys[0]));
      assert forall p :: p in keys[1..] ==> p in keys && Listed(t, p) == Listed(s, p);
      var (rest, u) := CollectAll(ctx, policy, t, keys[1..]);
      ((if completed then {keys[0]} else {}) + rest, u)
  }

  lemma CollectAllNext(ctx: Context, policy: Download.Policy, s: State, keys: seq<uint32>)
    requires Setting(ctx, policy) && Grounded(ctx, s, keys)
    ensures keys == [] ==> CollectAll(ctx, policy, s, keys) == ({}, s)
    ensures keys != [] ==>
      var (completed, t) := CollectFrom(ctx, policy, s, keys[0], Listed(s, keys[0]));
      && Grounded(ctx, t, keys[1..])
      && var rest := CollectAll(ctx, policy, t, keys[1..]);
      CollectAll(ctx, policy, s, keys) == ((if completed then {keys[0]} else {}) + rest.0, rest.1)
  {
    hide CollectFrom;
    if keys != [] {
      var t := CollectFrom(ctx, policy, s, keys[0], Listed(s, keys[0])).1;
      assert forall p :: p in keys[1..] ==> p in keys && Listed(t, p) == Listed(s, p);
    }
  }

  /** `keys` is the order of the index map. */
  ghost function IsDone(ctx: Context, policy: Download.Policy, s: State, keys: seq<uint32>): (bool, State)
    requires Setting(ctx, policy) && Grounded(ctx, s, keys)
  {
    var (completed, t) := CollectAll(ctx, policy, s, keys);
    (t.missing == {}, t.(pieceDownloaders := t.pieceDownloaders - completed))
  }
}
