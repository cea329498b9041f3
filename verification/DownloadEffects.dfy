/** What each step of a downloader does to each part of its state. */
module DownloadEffects {
  import opened Bytes
  import opened TorrentContext
  import opened Download
  import opened DownloadProofs
  import opened DownloadSteps
  import opened DownloadTheorems
  import BitFields
  import PeerHistory
  import Wire

  /** Everything but the pieces' own entries. */
  ghost predicate SameBut(s: State, t: State, p: nat) {
    forall q :: q != p ==> (q in t.pieces <==> q in s.pieces) && (q in s.pieces ==> t.pieces[q] == s.pieces[q])
  }

  // ---------- a new downloader ----------

  /** A new downloader has nothing, is choked, and its peer has announced nothing. */
  lemma NewIsEmpty(i: nat)
    ensures
      var s := INITIAL;
      && s.pieces == map[] && s.pending == [] && s.active == {} && s.starting == multiset{} && s.senders == 0
      && s.peer.selfChoked && !s.peer.remoteInterested && !BitFields.Get(s.peer.remoteBitfield, i)
  {
  }

  /** The client's own policy: blocks of 8192 bytes, seven requests at a time. */
  lemma DefaultPolicy()
    ensures DEFAULT_POLICY.maxBlockBytes == 8192 && DEFAULT_POLICY.maxRequests == 7
  {
  }

  // ---------- download_piece ----------

  /** The piece has an entry for it with all bytes zero and none counted. */
  ghost predicate Blank(ctx: Context, fp: FilePiece, p: nat)
    requires 0 < ctx.pieceSize
  {
    && fp.index == p && fp.status == Pending && fp.bytesDownloaded == 0 && |fp.data| == ctx.PieceSize(p)
    && forall i :: 0 <= i < |fp.data| ==> fp.data[i] == 0
  }

  /** The blocks cut the whole piece, in order, each as long as the policy allows. */
  ghost predicate CutsPiece(policy: Policy, blocks: seq<Block>, p: nat, size: nat) {
    && (forall i :: 0 <= i < |blocks| ==> blocks[i].piece == p)
    && (blocks == [] <==> size == 0)
    && (blocks != [] ==> blocks[0].offset == 0 && blocks[|blocks| - 1].offset + blocks[|blocks| - 1].length == size)
    && (forall i :: 0 <= i < |blocks| - 1 ==>
          blocks[i].length == policy.maxBlockBytes && blocks[i + 1].offset == blocks[i].offset + blocks[i].length)
    && (blocks != [] ==> 0 < blocks[|blocks| - 1].length <= policy.maxBlockBytes)
  }

  lemma {:induction false} SplitCuts(p: uint32, offset: nat, length: uint32, step: uint32)
    requires 0 < step && offset < length
    ensures
      var blocks := SplitFrom(p, offset, length, step);
      && blocks != [] && (forall i :: 0 <= i < |blocks| ==> blocks[i].piece == p)
      && blocks[0].offset == offset && blocks[|blocks| - 1].offset + blocks[|blocks| - 1].length == length
      && (forall i :: 0 <= i < |blocks| - 1 ==>
            blocks[i].length == step && blocks[i + 1].offset == blocks[i].offset + blocks[i].length)
      && 0 < blocks[|blocks| - 1].length <= step
    decreases length - offset
  {
    if offset + step < length {
      SplitCuts(p, offset + step, length, step);
    } else {
      assert SplitFrom(p, offset + step, length, step) == [];
    }
  }

  lemma SplitCutsPiece(policy: Policy, p: uint32, size: uint32)
    requires 0 < policy.maxBlockBytes
    ensures CutsPiece(policy, SplitFrom(p, 0, size, policy.maxBlockBytes), p, size)
  {
    if 0 < size {
      SplitCuts(p, 0, size, policy.maxBlockBytes);
    }
  }

  /**
   * `download_piece` up to its first suspension. Without the bit it does nothing. Otherwise the piece gets
   * a blank entry. A choked call then waits for its Interested message and has queued nothing; another
   * one has queued its blocks behind all others and is in the send loop, and never waited.
   */
  lemma StartEffect(ctx: Context, policy: Policy, s: State, p: uint32)
    requires ctx.Valid() && 0 < policy.maxBlockBytes
    ensures
      var (ok, t) := Start(ctx, policy, s, p);
      && (ok <==> BitFields.Get(s.peer.remoteBitfield, p))
      && (!ok ==> t == s)
      && (ok ==> p in t.pieces && Blank(ctx, t.pieces[p], p))
      && SameBut(s, t, p) && t.active == s.active && t.peer == s.peer
    ensures
      var (ok, t) := Start(ctx, policy, s, p);
      ok && s.peer.selfChoked ==>
        t.pending == s.pending && t.senders == s.senders && t.starting == s.starting + multiset{p}
    ensures
      var (ok, t) := Start(ctx, policy, s, p);
      ok && !s.peer.selfChoked ==>
        && t.starting == s.starting && t.senders == s.senders + 1
        && s.pending <= t.pending && CutsPiece(policy, t.pending[|s.pending|..], p, ctx.PieceSize(p))
  {
    SplitCutsPiece(policy, p, ctx.PieceSize(p));
    hide SplitFrom, CutsPiece;
    var t := Start(ctx, policy, s, p).1;
    if BitFields.Get(s.peer.remoteBitfield, p) && !s.peer.selfChoked {
      assert t.pending[|s.pending|..] == SplitFrom(p, 0, ctx.PieceSize(p), policy.maxBlockBytes);
    }
  }

  /** A waiting call goes on: one wait ends, the piece's blocks go behind all others, nothing else changes. */
  lemma ResumeEffect(ctx: Context, policy: Policy, s: State, p: uint32)
    requires ctx.Valid() && 0 < policy.maxBlockBytes && p in s.starting
    ensures
      var t := Resume(ctx, policy, s, p);
      && t.pieces == s.pieces && t.active == s.active && t.peer == s.peer
      && t.starting + multiset{p} == s.starting && t.senders == s.senders + 1
      && s.pending <= t.pending && CutsPiece(policy, t.pending[|s.pending|..], p, ctx.PieceSize(p))
  {
    SplitCutsPiece(policy, p, ctx.PieceSize(p));
    hide SplitFrom, CutsPiece;
    var t := Resume(ctx, policy, s, p);
    assert t.pending[|s.pending|..] == SplitFrom(p, 0, ctx.PieceSize(p), policy.maxBlockBytes);
  }

  /**
   * Over every run: a call for a piece of some bytes queues requests right away if and only if the bit is
   * set and the peer has not choked the client, and makes the piece wait if and only if it has.
   */
  lemma BeginQueuesExactly(
    env: Environment, ctx: Context, policy: Policy, before: seq<Event>, s: State, p: uint32)
    requires Setting(ctx, policy) && Reaches(env, ctx, policy, INITIAL, before, s)
    requires Enabled(env, ctx, s, Begin(p)) && 0 < ctx.PieceSize(p)
    ensures
      var t, bit := Next(ctx, policy, s, Begin(p)), BitFields.Get(s.peer.remoteBitfield, p);
      && (|t.pending| > |s.pending| <==> bit && !s.peer.selfChoked)
      && (t.starting == s.starting + multiset{p} <==> bit && s.peer.selfChoked)
      && (t.pending == s.pending || t.starting == s.starting)
      && (!env.InBounds? ==> (OutstandingFor(t, p) != {} <==> bit && !s.peer.selfChoked))
  {
    StartEffect(ctx, policy, s, p);
    hide Start, Setting, Blank, SameBut;
    var t := Next(ctx, policy, s, Begin(p));
    assert (s.starting + multiset{p})[p] == s.starting[p] + 1;
    if |t.pending| > |s.pending| {
      assert t.pending[|s.pending|] == t.pending[|s.pending|..][0];
      assert t.pending[|s.pending|] in OutstandingFor(t, p);
    } else {
      assert t.pending == s.pending;
    }
  }

  // ---------- the send loop ----------

  /** While the guard holds, the front request moves from the queue to the active set; else one sender leaves. */
  lemma TurnEffect(policy: Policy, s: State)
    requires 0 < s.senders
    ensures
      var t := SendTurn(policy, s);
      && t.pieces == s.pieces && t.starting == s.starting && t.peer == s.peer
      && if !s.peer.selfChoked && s.pending != [] && |s.active| < policy.maxRequests
         then s.pending == [s.pending[0]] + t.pending && t.active == s.active + {s.pending[0]} && t.senders == s.senders
         else t.pending == s.pending && t.active == s.active && t.senders == s.senders - 1
  {
  }

  /** A whole send loop: requests leave the front of the queue, all of them become active, until the guard fails. */
  lemma {:induction false} DrainEffect(policy: Policy, s: State) returns (sent: seq<Block>)
    requires 0 < s.senders
    ensures
      var t := Drained(policy, s);
      && t.pieces == s.pieces && t.starting == s.starting && t.peer == s.peer && t.senders == s.senders - 1
      && !CanSend(policy, t)
      && s.pending == sent + t.pending && t.active == s.active + Elements(sent)
    decreases |s.pending|
  {
    if CanSend(policy, s) {
      var first, u := s.pending[0], SendTurn(policy, s);
      TurnEffect(policy, s);
      var later := DrainEffect(policy, u);
      var t := Drained(policy, u);
      assert Drained(policy, s) == t;
      hide SendTurn, CanSend, Drained, Elements;
      sent := [first] + later;
      ElementsCons(first, later);
      assert s.pending == [first] + (later + t.pending);
    } else {
      sent := [];
      assert Elements(sent) == {};
    }
  }

  lemma ElementsCons(first: Block, later: seq<Block>)
    ensures Elements([first] + later) == {first} + Elements(later)
  {
  }

  // ---------- a message ----------

  /**
   * A block: ignored without an entry. Otherwise its payload lies at its offset, all else in the piece is
   * as it was, the bytes are counted in 32 bits, the piece is complete when they come to its size, and
   * the request with just that place and length is not active any more.
   */
  lemma BlockEffect(s: State, m: Wire.Message)
    requires m.Piece? && Fits(s, m)
    ensures
      var t := Receive(s, m);
      && t.pending == s.pending && t.starting == s.starting && t.peer == s.peer && t.senders == s.senders + 1
      && SameBut(s, t, m.piece) && (m.piece in t.pieces <==> m.piece in s.pieces)
      && (m.piece !in s.pieces ==> t.active == s.active)
    ensures
      var t := Receive(s, m);
      m.piece in s.pieces ==>
        var old_, new_ := s.pieces[m.piece], t.pieces[m.piece];
        && |new_.data| == |old_.data| && new_.index == old_.index
        && (forall i :: 0 <= i < |m.payload| ==> new_.data[m.offset + i] == m.payload[i])
        && (forall i :: 0 <= i < |old_.data| && !(m.offset <= i < m.offset + |m.payload|) ==>
              new_.data[i] == old_.data[i])
        && new_.bytesDownloaded == (old_.bytesDownloaded + |m.payload|) % U32
        && new_.status == (if new_.bytesDownloaded == |new_.data| then Complete else Active)
        && forall b :: b in t.active <==>
             b in s.active && !(b.piece == m.piece && b.offset == m.offset && b.length == |m.payload| % U32)
  {
  }

  /** Two blocks in the order of the active set: by piece, then by offset, then by length. */
  ghost predicate Precedes(a: Block, b: Block) {
    || a.piece < b.piece
    || (a.piece == b.piece && (a.offset < b.offset || (a.offset == b.offset && a.length < b.length)))
  }

  lemma FirstPrecedes(s: set<Block>, b: Block)
    requires b in s && b != First(s)
    ensures Precedes(First(s), b)
  {
  }

  lemma {:induction false} AscendingOrder(s: set<Block>)
    ensures |Ascending(s)| == |s| && (forall b :: b in Ascending(s) <==> b in s)
    ensures forall i, j :: 0 <= i < j < |Ascending(s)| ==> Precedes(Ascending(s)[i], Ascending(s)[j])
    decreases s
  {
    hide Precedes;
    if s != {} {
      var first, rest := First(s), Ascending(s - {First(s)});
      AscendingOrder(s - {first});
      assert Ascending(s) == [first] + rest;
      hide Ascending;
      forall k | 0 <= k < |rest| ensures Precedes(first, rest[k]) {
        assert rest[k] in s - {first};
        FirstPrecedes(s, rest[k]);
      }
    }
  }

  lemma {:induction false} ReversedAt(s: seq<Block>, k: nat)
    requires k < |s|
    ensures |Reversed(s)| == |s| && Reversed(s)[k] == s[|s| - 1 - k]
  {
    if |s| > 1 {
      ReversedAt(s[1..], if k < |s| - 1 then k else 0);
    }
  }

  /** A choke puts exactly the active requests before the queue, the last one of the set's order first. */
  lemma ChokeEffect(s: State)
    ensures
      var t := Receive(s, Wire.Choke);
      && t.pieces == s.pieces && t.starting == s.starting && t.senders == s.senders + 1
      && t.peer == s.peer.(selfChoked := true)
      && t.active == {} && |t.pending| == |s.active| + |s.pending| && t.pending[|s.active|..] == s.pending
      && (forall b :: b in t.pending[..|s.active|] <==> b in s.active)
      && forall i, j :: 0 <= i < j < |s.active| ==> Precedes(t.pending[j], t.pending[i])
  {
    var a := Ascending(s.active);
    var front := Reversed(a);
    AscendingOrder(s.active);
    hide Precedes, Ascending, Reversed;
    assert multiset(front) == multiset(a);
    if a != [] {
      ReversedAt(a, 0);
    }
    assert |front| == |a|;
    forall k | 0 <= k < |a| ensures front[k] == a[|a| - 1 - k] {
      ReversedAt(a, k);
    }
    forall b ensures b in front <==> b in s.active {
      assert b in front <==> b in multiset(front);
      assert b in a <==> b in multiset(a);
    }
    assert Receive(s, Wire.Choke).pending[..|a|] == front;
  }

  /** An unchoke starts a sender; every other message changes the peer's status and nothing else. */
  lemma OtherEffect(s: State, m: Wire.Message)
    requires !m.Piece? && !m.Choke?
    ensures
      var t := Receive(s, m);
      && t.pieces == s.pieces && t.pending == s.pending && t.active == s.active && t.starting == s.starting
      && t.peer == PeerHistory.HandledInOrder(s.peer, [m])
      && t.senders == s.senders + if m.Unchoke? then 1 else 0
  {
    assert [m][..0] == [];
  }

  // ---------- retrieve_piece ----------

  /**
   * Nothing for a piece without an entry. An unfinished one stays, and its status and byte count are
   * reported without its data. A complete one leaves with all it has, as corrupt if the hash is wrong.
   */
  lemma RetrieveEffect(ctx: Context, s: State, p: nat)
    requires p < |ctx.pieceHashes|
    ensures
      var (got, t) := Retrieve(ctx, s, p);
      && t.pending == s.pending && t.active == s.active && t.starting == s.starting && t.senders == s.senders
      && t.peer == s.peer && SameBut(s, t, p)
      && (got.None? <==> p !in s.pieces)
      && (p in t.pieces <==> p in s.pieces && s.pieces[p].status != Complete)
      && (p in t.pieces ==>
            && t.pieces[p] == s.pieces[p] && got.value.index == p && got.value.status == s.pieces[p].status
            && got.value.bytesDownloaded == s.pieces[p].bytesDownloaded && got.value.data == [])
      && (p in s.pieces && p !in t.pieces ==>
            && got.value.index == s.pieces[p].index && got.value.data == s.pieces[p].data
            && got.value.bytesDownloaded == s.pieces[p].bytesDownloaded
            && got.value.status == if ctx.sha1(s.pieces[p].data) == ctx.pieceHashes[p] then Complete else Corrupt)
  {
  }

  // ---------- a message with its callback ----------

  /**
   * A served message has the effect of its arrival, and then the send loop's, if it starts a sender:
   * pieces, waiting calls and the peer are as after its arrival, and the requests only move forward.
   */
  lemma ServedEffect(policy: Policy, s: State, m: Wire.Message) returns (sent: seq<Block>)
    requires Fits(s, m)
    ensures
      var u, t := Receive(s, m), Served(policy, s, m);
      && t.pieces == u.pieces && t.starting == u.starting && t.peer == u.peer && t.senders == s.senders
      && (if m.Piece? || m.Choke? || m.Unchoke? then !CanSend(policy, t) else t == u)
      && u.pending == sent + t.pending && t.active == u.active + Elements(sent)
  {
    var u := Receive(s, m);
    assert u.senders == s.senders + if m.Piece? || m.Choke? || m.Unchoke? then 1 else 0;
    hide Receive, Drained, CanSend, Fits;
    if s.senders < u.senders {
      sent := DrainEffect(policy, u);
    } else {
      sent := [];
      assert Elements(sent) == {};
    }
  }
}
