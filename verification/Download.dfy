/**
 * The state of one downloader and what each uninterrupted stretch of its coroutines does to it.
 *
 * A stretch runs from one suspension point to the next: the suspension points are the sends to the
 * peer's queue. Coroutines that are waiting at one are part of the state.
 */
module Download {
  import opened Bytes
  import opened TorrentContext
  import BitFields
  import Wire

  /** A block of a piece: the key of an active request, and the public fields of a pending one. */
  datatype Block = Block(piece: uint32, offset: uint32, length: uint32)

  datatype PieceStatus = Pending | Active | Complete | Corrupt

  datatype FilePiece = FilePiece(index: nat, status: PieceStatus, data: seq<byte>, bytesDownloaded: uint32)

  datatype Policy = Policy(maxBlockBytes: uint32, maxRequests: uint16)

  const DEFAULT_POLICY := Policy(8 * 1024, 7)

  datatype PeerStatus = PeerStatus(
    selfChoked: bool,
    remoteInterested: bool,
    remoteBitfield: BitFields.Raw)

  const INITIAL_STATUS := PeerStatus(true, false, [])

  /**
   * `starting` holds the pieces whose `download_piece` waits for its Interested message to be queued;
   * `senders` counts the coroutines inside the send loop.
   */
  datatype State = State(
    pieces: map<nat, FilePiece>,
    pending: seq<Block>,
    active: set<Block>,
    starting: multiset<nat>,
    senders: nat,
    peer: PeerStatus)

  const INITIAL := State(map[], [], {}, multiset{}, 0, INITIAL_STATUS)

  // ---------- splitting a piece into requests ----------

  /** The loop variable leaves its 32-bit range only if the last block's end does. */
  ghost predicate SplitFits(length: nat, step: nat) {
    0 < step && CeilDiv(length, step) * step < U32
  }

  function SplitFrom(piece: uint32, offset: nat, length: uint32, step: uint32): seq<Block>
    requires 0 < step
    decreases length - offset
  {
    if offset >= length then []
    else [Block(piece, offset, Min(length - offset, step))] + SplitFrom(piece, offset + step, length, step)
  }

  // ---------- the order of the active set ----------

  predicate Before(a: Block, b: Block) {
    || a.piece < b.piece
    || (a.piece == b.piece && a.offset < b.offset)
    || (a.piece == b.piece && a.offset == b.offset && a.length <= b.length)
  }

  lemma FirstExists(s: set<Block>)
    requires s != {}
    ensures exists x :: x in s && forall y :: y in s ==> Before(x, y)
  {
    var x :| x in s;
    if s != {x} {
      FirstExists(s - {x});
      var m :| m in s - {x} && forall y :: y in s - {x} ==> Before(m, y);
      var first := if Before(x, m) then x else m;
      forall y | y in s ensures Before(first, y) {
        assert y == x || y in s - {x};
      }
    }
  }

  ghost function First(s: set<Block>): (x: Block)
    requires s != {}
    ensures x in s && forall y :: y in s ==> Before(x, y)
  {
    FirstExists(s);
    var x :| x in s && forall y :: y in s ==> Before(x, y);
    x
  }

  ghost function Ascending(s: set<Block>): (r: seq<Block>)
    ensures multiset(r) == multiset(s)
  {
    if s == {} then [] else
      assert multiset(s) == multiset{First(s)} + multiset(s - {First(s)});
      [First(s)] + Ascending(s - {First(s)})
  }

  function Reversed(s: seq<Block>): (r: seq<Block>)
    ensures multiset(r) == multiset(s)
  {
    if s == [] then [] else
      assert s == [s[0]] + s[1..];
      Reversed(s[1..]) + [s[0]]
  }

  // ---------- download_piece ----------

  function Registered(ctx: Context, s: State, p: uint32): State
    requires ctx.Valid()
  {
    s.(pieces := s.pieces[p := FilePiece(p, Pending, Zeros(ctx.PieceSize(p)), 0)])
  }

  function Enqueued(ctx: Context, policy: Policy, s: State, p: uint32): State
    requires ctx.Valid() && 0 < policy.maxBlockBytes
  {
    s.(pending := s.pending + SplitFrom(p, 0, ctx.PieceSize(p), policy.maxBlockBytes),
       senders := s.senders + 1)
  }

  /** From the call to its first suspension; the flag is the coroutine's eventual answer. */
  function Start(ctx: Context, policy: Policy, s: State, p: uint32): (bool, State)
    requires ctx.Valid() && 0 < policy.maxBlockBytes
  {
    if !BitFields.Get(s.peer.remoteBitfield, p) then (false, s)
    else
      var r := Registered(ctx, s, p);
      if s.peer.selfChoked then (true, r.(starting := r.starting + multiset{p}))
      else (true, Enqueued(ctx, policy, r, p))
  }

  /** The waiting call goes on after its Interested message was queued. */
  function Resume(ctx: Context, policy: Policy, s: State, p: uint32): State
    requires ctx.Valid() && 0 < policy.maxBlockBytes
  {
    Enqueued(ctx, policy, s.(starting := s.starting - multiset{p}), p)
  }

  // ---------- the send loop ----------

  predicate CanSend(policy: Policy, s: State) {
    !s.peer.selfChoked && s.pending != [] && |s.active| < policy.maxRequests
  }

  /** One look at the loop's guard: send a request and wait, or leave the loop. */
  function SendTurn(policy: Policy, s: State): State
    requires 0 < s.senders
  {
    if CanSend(policy, s) then s.(active := s.active + {s.pending[0]}, pending := s.pending[1..])
    else s.(senders := s.senders - 1)
  }

  /** The rest of a coroutine's send loop, when nothing happens in between. */
  function Drained(policy: Policy, s: State): State
    requires 0 < s.senders
    decreases |s.pending|
  {
    if CanSend(policy, s) then Drained(policy, SendTurn(policy, s)) else SendTurn(policy, s)
  }

  // ---------- receiving ----------

  /** The peer's own handling of a message, which comes before the downloader's. */
  function HandledByPeer(st: PeerStatus, m: Wire.Message): PeerStatus {
    match m
    case Choke => st.(selfChoked := true)
    case Unchoke => st.(selfChoked := false)
    case Interested => st.(remoteInterested := true)
    case NotInterested => st.(remoteInterested := false)
    case Have(i) => st.(remoteBitfield := BitFields.Marked(st.remoteBitfield, i, true))
    case BitField(payload) => st.(remoteBitfield := RawBits(payload))
    case _ => st
  }

  function RawBits(payload: seq<byte>): BitFields.Raw {
    seq(|payload|, i requires 0 <= i < |payload| => payload[i] as bv8)
  }

  /** A received block lies inside the piece it is for, if that piece is registered. */
  predicate Fits(s: State, m: Wire.Message) {
    m.Piece? && m.piece in s.pieces ==> m.offset + |m.payload| <= |s.pieces[m.piece].data|
  }

  function Overwritten(data: seq<byte>, offset: nat, payload: seq<byte>): (r: seq<byte>)
    requires offset + |payload| <= |data|
    ensures |r| == |data|
  {
    data[..offset] + payload + data[offset + |payload|..]
  }

  function WithBlock(fp: FilePiece, offset: nat, payload: seq<byte>): FilePiece
    requires offset + |payload| <= |fp.data|
  {
    var bytes := (fp.bytesDownloaded + |payload|) % U32;
    FilePiece(fp.index, if bytes == |fp.data| then Complete else Active,
              Overwritten(fp.data, offset, payload), bytes)
  }

  function HandlePiece(s: State, p: uint32, offset: uint32, payload: seq<byte>): State
    requires Fits(s, Wire.Piece(p, offset, payload))
  {
    if p !in s.pieces then s
    else
      s.(active := s.active - {Block(p, offset, |payload| % U32)},
         pieces := s.pieces[p := WithBlock(s.pieces[p], offset, payload)])
  }

  ghost function Choked(s: State): State {
    s.(pending := Reversed(Ascending(s.active)) + s.pending, active := {})
  }

  /** A message, from its arrival to the callback's first suspension. */
  ghost function Receive(s: State, m: Wire.Message): State
    requires Fits(s, m)
  {
    var t := s.(peer := HandledByPeer(s.peer, m));
    match m
    case Unchoke => t.(senders := t.senders + 1)
    case Choke => Choked(t).(senders := t.senders + 1)
    case Piece(p, offset, payload) => HandlePiece(t, p, offset, payload).(senders := t.senders + 1)
    case _ => t
  }

  /** A message with all that its callback does, when nothing happens in between. */
  ghost function Served(policy: Policy, s: State, m: Wire.Message): State
    requires Fits(s, m)
  {
    var t := Receive(s, m);
    if s.senders < t.senders then Drained(policy, t) else t
  }

  // ---------- retrieve_piece ----------

  function Retrieve(ctx: Context, s: State, p: nat): (Option<FilePiece>, State)
    requires p < |ctx.pieceHashes|
  {
    if p !in s.pieces then (None, s)
    else
      var fp := s.pieces[p];
      if fp.status == Complete then
        (Some(if ctx.sha1(fp.data) != ctx.pieceHashes[p] then fp.(status := Corrupt) else fp),
         s.(pieces := s.pieces - {p}))
      else
        (Some(FilePiece(p, fp.status, [], fp.bytesDownloaded)), s)
  }
}
