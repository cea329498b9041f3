/** Messages through a socket: the sender, the reader, and the loop that feeds the peer. */
module Transmit {
  import opened Bytes
  import opened TorrentContext
  import opened Wire
  import Download
  import Downloader
  import PeerHistory
  import Runs = DownloadProofs
  import Theorems = DownloadTheorems

  /** What the remote side will still send before it closes, and what has been sent to it. */
  class Socket {
    var incoming: seq<byte>
    var outgoing: seq<byte>

    constructor (incoming: seq<byte>)
      ensures this.incoming == incoming && outgoing == []
    {
      this.incoming, outgoing := incoming, [];
    }

    method Write(data: seq<byte>)
      modifies `outgoing
      ensures outgoing == old(outgoing) + data
    {
      outgoing := outgoing + data;
    }

    /** Fills the buffer from `from` on, or takes what is left and fails at the end of the stream. */
    method ReadInto(buffer: array<byte>, from: nat) returns (ok: bool)
      requires from <= buffer.Length
      modifies `incoming, buffer
      ensures ok <==> buffer.Length - from <= |old(incoming)|
      ensures ok ==>
        && buffer[..] == old(buffer[..from]) + old(incoming)[..buffer.Length - from]
        && incoming == old(incoming)[buffer.Length - from..]
      ensures !ok ==> incoming == []
    {
      var i := from;
      while i < buffer.Length && incoming != []
        invariant from <= i <= buffer.Length && i - from <= |old(incoming)|
        invariant incoming == old(incoming)[i - from..]
        invariant buffer[..i] == old(buffer[..from]) + old(incoming)[..i - from]
      {
        buffer[i] := incoming[0];
        incoming := incoming[1..];
        i := i + 1;
      }
      ok := i == buffer.Length;
    }
  }

  /** Header and payload go out as one write; a keepalive matches no case of the switch. */
  method SendMessage(socket: Socket, m: Message)
    modifies socket`outgoing
    ensures socket.outgoing == old(socket.outgoing) + Send(m)
  {
    if m != Keepalive {
      socket.Write(Send(m));
    }
  }

  /** Reads the length, then the rest of the frame behind it. */
  method ReceiveMessage(host: Endian, socket: Socket) returns (r: Read)
    modifies socket`incoming
    ensures r == ReadMessage(host, old(socket.incoming))
    ensures r.Got? ==> 0 < r.consumed <= |old(socket.incoming)|
    ensures socket.incoming == if r.Got? then old(socket.incoming)[r.consumed..] else []
  {
    ghost var stream := socket.incoming;
    var word := new byte[4](_ => 0);
    var ok := socket.ReadInto(word, 0);
    if !ok {
      return EndOfStream;
    }
    assert word[..] == stream[0..4];
    var length: nat := FromBigEndian32(word[..]);
    if length == 0 {
      return Got(Ok(Keepalive), 4);
    }
    var slot := InMemory(host, length);
    var buffer := new byte[4 + length](i requires 0 <= i < 4 + length => if i < 4 then slot[i] else 0);
    assert buffer[..4] == slot;
    ok := socket.ReadInto(buffer, 4);
    if !ok {
      return EndOfStream;
    }
    assert stream[4..][..length] == stream[4..4 + length];
    assert stream[4..][length..] == stream[4 + length..];
    r := Got(ParseMessage(buffer[4], buffer[..]), 4 + length);
  }

  // ---------- the receive loop ----------

  /** Each accepted block lies inside its piece when its turn comes. */
  ghost predicate AllFit(policy: Download.Policy, s: Download.State, parsed: seq<Parsed>)
    decreases |parsed|
  {
    parsed == [] ||
    (if parsed[0].Ok? then
       && Download.Fits(s, parsed[0].message)
       && AllFit(policy, Download.Served(policy, s, parsed[0].message), parsed[1..])
     else AllFit(policy, s, parsed[1..]))
  }

  /** The downloader after handling the accepted messages in order, each with its callback. */
  ghost function AfterAll(policy: Download.Policy, s: Download.State, parsed: seq<Parsed>): Download.State
    requires AllFit(policy, s, parsed)
    decreases |parsed|
  {
    if parsed == [] then s
    else if parsed[0].Ok? then AfterAll(policy, Download.Served(policy, s, parsed[0].message), parsed[1..])
    else AfterAll(policy, s, parsed[1..])
  }

  function Errors(parsed: seq<Parsed>): seq<ParseError> {
    if parsed == [] then []
    else (if parsed[0].Rejected? then [parsed[0].error] else []) + Errors(parsed[1..])
  }

  const NOTED_ERRORS := 3

  /** A ring of the latest errors. */
  function Latest(errors: seq<ParseError>): seq<ParseError> {
    if |errors| <= NOTED_ERRORS then errors else errors[|errors| - NOTED_ERRORS..]
  }

  /** The ring keeps the last three errors, or all if there are fewer. */
  lemma LatestAreLast(errors: seq<ParseError>)
    ensures |Latest(errors)| == Min(3, |errors|) && Latest(errors) == errors[|errors| - |Latest(errors)|..]
  {
  }

  /** Each rejected frame is one error, in order. */
  lemma {:induction false} ErrorsInOrder(a: seq<Parsed>, p: Parsed)
    ensures Errors(a + [p]) == Errors(a) + if p.Rejected? then [p.error] else []
    decreases |a|
  {
    if a == [] {
      assert a + [p] == [p] + [];
      NextErrors(p, []);
    } else {
      var rest := a[1..];
      assert a == [a[0]] + rest && a + [p] == [a[0]] + (rest + [p]);
      NextErrors(a[0], rest);
      NextErrors(a[0], rest + [p]);
      ErrorsInOrder(rest, p);
      hide Errors;
    }
  }

  lemma LatestOfNone()
    ensures Latest([]) == []
  {
  }

  lemma LatestOfMore(errors: seq<ParseError>, e: ParseError)
    ensures
      var kept := Latest(errors);
      Latest(errors + [e]) == (if |kept| == NOTED_ERRORS then kept[1..] else kept) + [e]
  {
  }

  lemma NextRead(host: Endian, stream: seq<byte>)
    ensures
      var r := ReadMessage(host, stream);
      && (r.Got? ==> 0 < r.consumed <= |stream|)
      && ReadAll(host, stream) == if r.Got? then [r.parsed] + ReadAll(host, stream[r.consumed..]) else []
  {
  }

  lemma NextHandled(policy: Download.Policy, s: Download.State, parsed: Parsed, rest: seq<Parsed>)
    requires AllFit(policy, s, [parsed] + rest)
    ensures parsed.Ok? ==>
      && Download.Fits(s, parsed.message)
      && var t := Download.Served(policy, s, parsed.message);
      AllFit(policy, t, rest) && AfterAll(policy, s, [parsed] + rest) == AfterAll(policy, t, rest)
    ensures parsed.Rejected? ==>
      AllFit(policy, s, rest) && AfterAll(policy, s, [parsed] + rest) == AfterAll(policy, s, rest)
  {
    hide Download.Served, Download.Fits;
    assert ([parsed] + rest)[1..] == rest;
  }

  lemma NextPushed(parsed: Parsed, rest: seq<Parsed>, pushed: seq<ParseError>)
    ensures pushed + Errors([parsed] + rest) ==
      (if parsed.Rejected? then pushed + [parsed.error] else pushed) + Errors(rest)
  {
    NextErrors(parsed, rest);
    hide Errors;
  }

  lemma NextErrors(parsed: Parsed, rest: seq<Parsed>)
    ensures Errors([parsed] + rest) == if parsed.Rejected? then [parsed.error] + Errors(rest) else Errors(rest)
  {
    assert ([parsed] + rest)[1..] == rest;
  }

  /**
   * Runs until the stream ends: every message goes to the peer and then to the downloader's callback,
   * which is awaited; the latest rejections are noted.
   */
  method ReceiveLoop(host: Endian, socket: Socket, d: Downloader.Downloader) returns (errors: seq<ParseError>)
    requires AllFit(d.policy, d.State(), ReadAll(host, socket.incoming))
    modifies socket`incoming, d, d.peer, d.peer.remoteBitfield
    ensures d.State() == old(AfterAll(d.policy, d.State(), ReadAll(host, socket.incoming)))
    ensures errors == Latest(Errors(ReadAll(host, old(socket.incoming))))
    ensures socket.incoming == []
  {
    hide ReadMessage, ReadAll, AllFit, AfterAll, Errors, Latest, Download.Served, Download.Fits;
    errors := [];
    ghost var pushed: seq<ParseError> := [];
    LatestOfNone();
    ghost var all, end := ReadAll(host, socket.incoming), AfterAll(d.policy, d.State(), ReadAll(host, socket.incoming));
    while true
      invariant d.peer.remoteBitfield == old(d.peer.remoteBitfield) || fresh(d.peer.remoteBitfield)
      invariant AllFit(d.policy, d.State(), ReadAll(host, socket.incoming))
      invariant AfterAll(d.policy, d.State(), ReadAll(host, socket.incoming)) == end
      invariant errors == Latest(pushed) && pushed + Errors(ReadAll(host, socket.incoming)) == Errors(all)
      decreases |socket.incoming|
    {
      NextRead(host, socket.incoming);
      var r := ReceiveMessage(host, socket);
      if r.EndOfStream? {
        break;
      }
      ghost var rest := ReadAll(host, socket.incoming);
      NextHandled(d.policy, d.State(), r.parsed, rest);
      NextPushed(r.parsed, rest, pushed);
      match r.parsed
      case Ok(m) =>
        var sent := d.Serve(m);
      case Rejected(e) =>
        LatestOfMore(pushed, e);
        errors := (if |errors| == NOTED_ERRORS then errors[1..] else errors) + [e];
        pushed := pushed + [e];
    }
    NothingLeft(d.policy, d.State(), pushed);
  }

  lemma NothingLeft(policy: Download.Policy, s: Download.State, pushed: seq<ParseError>)
    ensures AllFit(policy, s, []) && AfterAll(policy, s, []) == s && pushed + Errors([]) == pushed
  {
  }

  // ---------- the loop is a run ----------

  function Turns(n: nat): seq<Runs.Event> {
    seq(n, _ => Runs.Turn)
  }

  lemma {:induction false} DrainRuns(
    env: Runs.Environment, ctx: Context, policy: Download.Policy, first: Download.State, before: seq<Runs.Event>,
    s: Download.State)
    returns (turns: nat)
    requires Runs.Setting(ctx, policy) && Runs.Reaches(env, ctx, policy, first, before, s) && 0 < s.senders
    ensures Runs.Reaches(env, ctx, policy, first, before + Turns(turns), Download.Drained(policy, s))
    ensures 0 < turns && Download.Drained(policy, s).senders == s.senders - 1
    ensures !Download.CanSend(policy, Download.Drained(policy, s))
    decreases |s.pending|
  {
    hide Runs.Reaches, Runs.Setting;
    Runs.ReachesMore(env, ctx, policy, first, before, s, Runs.Turn);
    if Download.CanSend(policy, s) {
      turns := DrainRuns(env, ctx, policy, first, before + [Runs.Turn], Download.SendTurn(policy, s));
      assert before + [Runs.Turn] + Turns(turns) == before + Turns(turns + 1);
      turns := turns + 1;
    } else {
      turns := 1;
      assert Turns(1) == [Runs.Turn];
    }
  }

  /**
   * Serving a message is a run: the message arrives, and then, if it starts a sender, that sender takes
   * turns until its guard fails and it leaves.
   */
  lemma ServeRuns(
    ctx: Context, policy: Download.Policy, first: Download.State, before: seq<Runs.Event>,
    s: Download.State, m: Message)
    returns (turns: nat)
    requires Runs.Setting(ctx, policy) && Runs.Reaches(Runs.InBounds, ctx, policy, first, before, s)
    requires Download.Fits(s, m)
    ensures
      var t := Download.Served(policy, s, m);
      && Runs.Reaches(Runs.InBounds, ctx, policy, first, before + [Runs.Arrive(m)] + Turns(turns), t)
      && t.senders == s.senders
      && (0 < turns <==> m.Unchoke? || m.Choke? || m.Piece?) && (0 < turns ==> !Download.CanSend(policy, t))
  {
    Runs.ReachesMore(Runs.InBounds, ctx, policy, first, before, s, Runs.Arrive(m));
    var t := Download.Receive(s, m);
    assert t.senders == s.senders + if m.Unchoke? || m.Choke? || m.Piece? then 1 else 0;
    hide Runs.Reaches, Runs.Setting, Download.Receive, Download.Drained, Download.Fits, Download.CanSend;
    if s.senders < t.senders {
      turns := DrainRuns(Runs.InBounds, ctx, policy, first, before + [Runs.Arrive(m)], t);
    } else {
      turns := 0;
      assert before + [Runs.Arrive(m)] + Turns(0) == before + [Runs.Arrive(m)];
    }
  }

  /** The messages that arrive in a run. */
  function Arrivals(events: seq<Runs.Event>): seq<Message> {
    if events == [] then []
    else (if events[0].Arrive? then [events[0].message] else []) + Arrivals(events[1..])
  }

  /** The messages of the frames that were not rejected. */
  function Messages(parsed: seq<Parsed>): seq<Message> {
    if parsed == [] then []
    else (if parsed[0].Ok? then [parsed[0].message] else []) + Messages(parsed[1..])
  }

  lemma {:induction false} ArrivalsOfTurns(n: nat, more: seq<Runs.Event>)
    ensures Arrivals(Turns(n) + more) == Arrivals(more)
  {
    if n == 0 {
      assert Turns(0) + more == more;
    } else {
      assert (Turns(n) + more)[1..] == Turns(n - 1) + more;
      ArrivalsOfTurns(n - 1, more);
    }
  }

  lemma ArrivalsCons(m: Message, turns: nat, more: seq<Runs.Event>)
    ensures Arrivals([Runs.Arrive(m)] + Turns(turns) + more) == [m] + Arrivals(more)
  {
    var events := [Runs.Arrive(m)] + Turns(turns) + more;
    assert events[1..] == Turns(turns) + more;
    ArrivalsOfTurns(turns, more);
  }

  /**
   * The loop over frames is a run of the downloader in which exactly the accepted messages arrive, in
   * their order, and nothing else happens but senders' turns.
   */
  lemma {:induction false} LoopRuns(
    ctx: Context, policy: Download.Policy, first: Download.State, before: seq<Runs.Event>,
    s: Download.State, parsed: seq<Parsed>)
    returns (more: seq<Runs.Event>)
    requires Runs.Setting(ctx, policy) && Runs.Reaches(Runs.InBounds, ctx, policy, first, before, s)
    requires AllFit(policy, s, parsed)
    ensures Runs.Reaches(Runs.InBounds, ctx, policy, first, before + more, AfterAll(policy, s, parsed))
    ensures Arrivals(more) == Messages(parsed)
    ensures forall i :: 0 <= i < |more| ==> more[i].Arrive? || more[i].Turn?
    ensures AfterAll(policy, s, parsed).senders == s.senders
    decreases |parsed|
  {
    hide Runs.Reaches, Runs.Setting, Download.Served, Download.Fits;
    if parsed == [] {
      more := [];
      assert before + more == before;
    } else if parsed[0].Ok? {
      var m := parsed[0].message;
      var turns := ServeRuns(ctx, policy, first, before, s, m);
      var head := [Runs.Arrive(m)] + Turns(turns);
      assert before + [Runs.Arrive(m)] + Turns(turns) == before + head;
      var tail := LoopRuns(ctx, policy, first, before + head, Download.Served(policy, s, m), parsed[1..]);
      ArrivalsCons(m, turns, tail);
      more := head + tail;
      assert before + head + tail == before + more;
    } else {
      more := LoopRuns(ctx, policy, first, before, s, parsed[1..]);
    }
  }

  /**
   * Whatever bytes a remote side sends, as long as its blocks stay inside their pieces: the loop over
   * them is a run of the downloader. So after it no coroutine is sending that was not before, at most the
   * policy's number of requests are active, and an unchoked downloader that nobody else is sending for
   * has an empty queue or a full window.
   */
  lemma LoopKeepsWindow(
    host: Endian, ctx: Context, policy: Download.Policy, before: seq<Runs.Event>, s: Download.State, stream: seq<byte>)
    requires Runs.Setting(ctx, policy)
    requires Runs.Reaches(Runs.InBounds, ctx, policy, Download.INITIAL, before, s)
    requires AllFit(policy, s, ReadAll(host, stream))
    ensures
      var t := AfterAll(policy, s, ReadAll(host, stream));
      && t.senders == s.senders && |t.active| <= policy.maxRequests
      && (t.peer.selfChoked ==> t.active == {})
      && (s.senders == 0 && !t.peer.selfChoked ==> t.pending == [] || |t.active| == policy.maxRequests)
  {
    var more := LoopRuns(ctx, policy, Download.INITIAL, before, s, ReadAll(host, stream));
    hide Runs.Reaches, AfterAll, AllFit, ReadAll;
    Theorems.RequestWindow(ctx, policy, before + more, AfterAll(policy, s, ReadAll(host, stream)));
  }

  // ---------- the peer's status ----------

  lemma {:induction false} DrainedPeer(policy: Download.Policy, s: Download.State)
    requires 0 < s.senders
    ensures Download.Drained(policy, s).peer == s.peer
    decreases |s.pending|
  {
    if Download.CanSend(policy, s) {
      DrainedPeer(policy, Download.SendTurn(policy, s));
    }
  }

  lemma ServedPeer(policy: Download.Policy, s: Download.State, m: Message)
    requires Download.Fits(s, m)
    ensures Download.Served(policy, s, m).peer == Download.HandledByPeer(s.peer, m)
  {
    var t := Download.Receive(s, m);
    assert t.peer == Download.HandledByPeer(s.peer, m);
    hide Download.HandledByPeer, Download.Receive, Download.Drained;
    if s.senders < t.senders {
      DrainedPeer(policy, t);
    }
  }

  function Accepted(ms: seq<Message>): seq<Parsed> {
    seq(|ms|, i requires 0 <= i < |ms| => Ok(ms[i]))
  }

  lemma {:induction false} AllAccepted(policy: Download.Policy, s: Download.State, ms: seq<Message>)
    requires AllFit(policy, s, Accepted(ms))
    ensures AfterAll(policy, s, Accepted(ms)).peer == PeerHistory.HandledInOrder(s.peer, ms)
    ensures Errors(Accepted(ms)) == [] && Messages(Accepted(ms)) == ms
    decreases |ms|
  {
    hide Download.Served, Download.Fits, Download.HandledByPeer;
    if ms != [] {
      var m, rest := ms[0], Accepted(ms[1..]);
      assert Accepted(ms) == [Ok(m)] + rest;
      NextHandled(policy, s, Ok(m), rest);
      NextErrors(Ok(m), rest);
      ServedPeer(policy, s, m);
      AllAccepted(policy, Download.Served(policy, s, m), ms[1..]);
      PeerHistory.HandledFirst(s.peer, ms);
    }
  }

  /** What a remote client sends is what the peer handles: the stream loses, adds and reorders nothing. */
  lemma HandledAsSent(host: Endian, policy: Download.Policy, s: Download.State, ms: seq<Message>)
    requires forall i :: 0 <= i < |ms| ==> Sendable(ms[i])
    requires AllFit(policy, s, Accepted(ms))
    ensures
      var parsed := ReadAll(host, SendAll(ms));
      && Errors(parsed) == [] && Messages(parsed) == ms && AllFit(policy, s, parsed)
      && AfterAll(policy, s, parsed) == AfterAll(policy, s, Accepted(ms))
      && AfterAll(policy, s, parsed).peer == PeerHistory.HandledInOrder(s.peer, ms)
  {
    StreamRoundTrip(host, ms);
    AllAccepted(policy, s, ms);
  }
}
