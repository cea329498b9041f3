/** The peer's status and the downloader as objects whose methods update them in place. */
module Downloader {
  import opened Bytes
  import opened TorrentContext
  import opened Download
  import BitFields
  import SplitLoop
  import Wire

  class Peer {
    var selfChoked: bool
    var remoteInterested: bool
    var remoteBitfield: BitFields.BitField

    ghost function Status(): PeerStatus
      reads this, remoteBitfield
    {
      PeerStatus(selfChoked, remoteInterested, remoteBitfield.words)
    }

    constructor ()
      ensures Status() == INITIAL_STATUS && fresh(remoteBitfield)
    {
      selfChoked, remoteInterested := true, false;
      remoteBitfield := new BitFields.BitField.FromRaw([]);
    }

    method AssignBitfield(payload: seq<byte>)
      modifies `remoteBitfield
      ensures fresh(remoteBitfield) && remoteBitfield.words == RawBits(payload)
    {
      remoteBitfield := new BitFields.BitField.FromRaw(RawBits(payload));
    }

    method HandleMessage(m: Wire.Message)
      modifies this, remoteBitfield
      ensures Status() == HandledByPeer(old(Status()), m)
      ensures remoteBitfield == old(remoteBitfield) || fresh(remoteBitfield)
    {
      match m
      case Choke => selfChoked := true;
      case Unchoke => selfChoked := false;
      case Interested => remoteInterested := true;
      case NotInterested => remoteInterested := false;
      case Have(i) => remoteBitfield.Mark(i, true);
      case BitField(payload) => AssignBitfield(payload);
      case _ =>
    }
  }

  class Downloader {
    const ctx: Context
    const policy: Policy
    const peer: Peer
    var pieces: map<nat, FilePiece>
    var pending: seq<Block>
    var active: set<Block>
    ghost var starting: multiset<nat>
    ghost var senders: nat

    ghost function State(): Download.State
      reads this, peer, peer.remoteBitfield
    {
      Download.State(pieces, pending, active, starting, senders, peer.Status())
    }

    constructor (ctx: Context, peer: Peer, policy: Policy)
      ensures this.ctx == ctx && this.peer == peer && this.policy == policy
      ensures State() == INITIAL.(peer := peer.Status())
    {
      this.ctx, this.peer, this.policy := ctx, peer, policy;
      pieces, pending, active, starting, senders := map[], [], {}, multiset{}, 0;
    }

    /** The torrent has a hash for each piece, and this one's blocks fit into 32 bits. */
    ghost predicate Splits(p: uint32) {
      ctx.Valid() && SplitFits(ctx.PieceSize(p), policy.maxBlockBytes)
    }

    /** Up to the call's first suspension, with the message it sends before its requests, if any. */
    method DownloadPiece(p: uint32) returns (accepted: bool, sent: seq<Wire.Message>)
      requires Splits(p)
      modifies this
      ensures (accepted, State()) == Start(ctx, policy, old(State()), p)
      ensures sent == if accepted && peer.selfChoked then [Wire.Interested] else []
    {
      sent := [];
      if !BitFields.Get(peer.remoteBitfield.words, p) {
        return false, sent;
      }
      pieces := pieces[p := FilePiece(p, Pending, Zeros(ctx.PieceSize(p)), 0)];
      if peer.selfChoked {
        sent := [Wire.Interested];
        starting := starting + multiset{p};
      } else {
        SplitLoop.RequestsAreSplit(p, ctx.PieceSize(p), policy.maxBlockBytes);
        QueueRequests(p);
      }
      accepted := true;
    }

    /** The rest of a call that waited for its Interested message to be queued. */
    method ContinueDownload(p: uint32)
      requires Splits(p) && p in starting
      modifies this
      ensures State() == Resume(ctx, policy, old(State()), p)
    {
      starting := starting - multiset{p};
      SplitLoop.RequestsAreSplit(p, ctx.PieceSize(p), policy.maxBlockBytes);
      QueueRequests(p);
    }

    /** The loop with its wrapping offset, for any block size with which it ends. */
    method QueueRequests(p: uint32)
      requires ctx.Valid() && SplitLoop.Ends(ctx.PieceSize(p), policy.maxBlockBytes)
      modifies `pending, `senders
      ensures pending == old(pending) + SplitLoop.LoopRequests(p, ctx.PieceSize(p), policy.maxBlockBytes)
      ensures senders == old(senders) + 1
      ensures SplitFits(ctx.PieceSize(p), policy.maxBlockBytes) ==> State() == Enqueued(ctx, policy, old(State()), p)
    {
      var length: uint32, step := ctx.PieceSize(p), policy.maxBlockBytes;
      ghost var requests, rounds := SplitLoop.LoopRequests(p, length, step), 0;
      if SplitFits(length, step) {
        SplitLoop.RequestsAreSplit(p, length, step);
      }
      hide SplitFits, SplitFrom;
      var offset: uint32 := 0;
      while offset < length
        invariant rounds <= |requests| == SplitLoop.Rounds(length, step) && offset == SplitLoop.LoopOffset(rounds, step)
        invariant pending == old(pending) + requests[..rounds] && senders == old(senders)
        decreases |requests| - rounds
      {
        SplitLoop.NextOffset(rounds, step);
        assert requests[rounds] == Block(p, offset, Min(length - offset, step));
        pending := pending + [Block(p, offset, Min(length - offset, step))];
        offset := (offset + step) % U32;
        rounds := rounds + 1;
      }
      assert requests[..rounds] == requests;
      senders := senders + 1;
    }

    /** One look at the send loop's guard, with the request that goes out, if one does. */
    method SendTurnOnce() returns (sent: Option<Block>)
      requires 0 < senders
      modifies this
      ensures State() == SendTurn(policy, old(State()))
      ensures sent == if old(CanSend(policy, State())) then Some(old(pending)[0]) else None
    {
      if !peer.selfChoked && pending != [] && |active| < policy.maxRequests {
        sent := Some(pending[0]);
        active := active + {pending[0]};
        pending := pending[1..];
      } else {
        sent := None;
        senders := senders - 1;
      }
    }

    /** The whole loop of one coroutine, with the requests that go out. */
    method SendBuffered() returns (sent: seq<Block>)
      requires 0 < senders
      modifies this
      ensures State() == Drained(policy, old(State()))
      ensures sent + pending == old(pending)
    {
      sent := [];
      while !peer.selfChoked && pending != [] && |active| < policy.maxRequests
        invariant 0 < senders && Drained(policy, State()) == Drained(policy, old(State()))
        invariant sent + pending == old(pending)
        decreases |pending|
      {
        var request := SendTurnOnce();
        sent := sent + [request.value];
      }
      var last := SendTurnOnce();
    }

    method HandleBlock(p: uint32, offset: uint32, payload: seq<byte>)
      requires Fits(State(), Wire.Piece(p, offset, payload))
      modifies `pieces, `active
      ensures State() == HandlePiece(old(State()), p, offset, payload)
    {
      if p !in pieces {
        return;
      }
      active := active - {Block(p, offset, |payload| % U32)};
      var current := pieces[p];
      var data := Overwritten(current.data, offset, payload);
      var bytes: uint32 := (current.bytesDownloaded + |payload|) % U32;
      var status := if bytes == |data| then Complete else PieceStatus.Active;
      pieces := pieces[p := FilePiece(current.index, status, data, bytes)];
    }

    /** Every active request goes back to the front of the queue, in the set's order. */
    method ChokeActive()
      modifies `pending, `active
      ensures State() == Choked(old(State()))
    {
      var rest := active;
      ghost var queue := Reversed(Ascending(active)) + pending;
      while rest != {}
        invariant Reversed(Ascending(rest)) + pending == queue
        invariant active == old(active)
        decreases rest
      {
        FirstExists(rest);
        var x :| x in rest && forall y :: y in rest ==> Before(x, y);
        ChokeRound(rest, x, pending);
        pending := [x] + pending;
        rest := rest - {x};
      }
      assert Reversed(Ascending({})) + pending == pending;
      active := {};
    }

    lemma FirstIsUnique(s: set<Block>, x: Block)
      requires x in s && forall y :: y in s ==> Before(x, y)
      ensures x == First(s)
    {
      assert Before(x, First(s)) && Before(First(s), x);
    }

    lemma ReversedCons(x: Block, later: seq<Block>)
      ensures Reversed([x] + later) == Reversed(later) + [x]
    {
      assert ([x] + later)[1..] == later;
    }

    lemma AscendingStep(s: set<Block>)
      requires s != {}
      ensures Ascending(s) == [First(s)] + Ascending(s - {First(s)})
    {
    }

    lemma ChokeRound(rest: set<Block>, x: Block, queue: seq<Block>)
      requires x in rest && forall y :: y in rest ==> Before(x, y)
      ensures Reversed(Ascending(rest)) + queue == Reversed(Ascending(rest - {x})) + ([x] + queue)
    {
      FirstIsUnique(rest, x);
      AscendingStep(rest);
      hide Before, Ascending, First;
      ReversedCons(x, Ascending(rest - {x}));
    }

    /** A received message: the peer's handling, then the downloader's callback. */
    method OnMessage(m: Wire.Message)
      requires Fits(State(), m)
      modifies this, peer, peer.remoteBitfield
      ensures State() == Receive(old(State()), m)
      ensures peer.remoteBitfield == old(peer.remoteBitfield) || fresh(peer.remoteBitfield)
    {
      hide HandledByPeer, HandlePiece, Choked;
      peer.HandleMessage(m);
      match m
      case Unchoke =>
        senders := senders + 1;
      case Choke =>
        ChokeActive();
        senders := senders + 1;
      case Piece(p, offset, payload) =>
        HandleBlock(p, offset, payload);
        senders := senders + 1;
      case _ =>
    }

    /** The same, and the callback's send loop after it, as the receive loop awaits them. */
    method Serve(m: Wire.Message) returns (sent: seq<Block>)
      requires Fits(State(), m)
      modifies this, peer, peer.remoteBitfield
      ensures State() == Served(policy, old(State()), m)
      ensures sent + pending == Receive(old(State()), m).pending
      ensures peer.remoteBitfield == old(peer.remoteBitfield) || fresh(peer.remoteBitfield)
    {
      hide Receive, Drained;
      SendsAfter(State(), m);
      OnMessage(m);
      sent := [];
      if m.Unchoke? || m.Choke? || m.Piece? {
        sent := SendBuffered();
      }
    }

    lemma SendsAfter(s: Download.State, m: Wire.Message)
      requires Fits(s, m)
      ensures Receive(s, m).senders == s.senders + if m.Unchoke? || m.Choke? || m.Piece? then 1 else 0
    {
      hide HandledByPeer;
    }

    method RetrievePiece(p: nat) returns (result: Option<FilePiece>)
      requires p < |ctx.pieceHashes|
      modifies `pieces
      ensures (result, State()) == Retrieve(ctx, old(State()), p)
    {
      if p !in pieces {
        return None;
      }
      var piece := pieces[p];
      if piece.status != Complete {
        return Some(FilePiece(p, piece.status, [], piece.bytesDownloaded));
      }
      pieces := pieces - {p};
      if ctx.sha1(piece.data) != ctx.pieceHashes[p] {
        piece := piece.(status := Corrupt);
      }
      return Some(piece);
    }
  }
}
