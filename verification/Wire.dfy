/** Peer messages as bytes on a stream: layouts, framing, parsing. */
module Wire {
  import opened Bytes
  import opened TorrentContext

  const ID_CHOKE: byte := 0
  const ID_UNCHOKE: byte := 1
  const ID_INTERESTED: byte := 2
  const ID_NOT_INTERESTED: byte := 3
  const ID_HAVE: byte := 4
  const ID_BITFIELD: byte := 5
  const ID_REQUEST: byte := 6
  const ID_PIECE: byte := 7
  const ID_CANCEL: byte := 8
  const ID_PORT: byte := 9

  /** The public fields of each message; the private length field is not part of the value. */
  datatype Message =
    | Keepalive
    | Choke
    | Unchoke
    | Interested
    | NotInterested
    | Have(pieceIndex: uint32)
    | BitField(payload: seq<byte>)
    | Request(piece: uint32, offset: uint32, length: uint32)
    | Piece(piece: uint32, offset: uint32, payload: seq<byte>)
    | Cancel(piece: uint32, offset: uint32, length: uint32)
    | Port(port: uint16)

  // ---------- byte order ----------

  datatype Endian = Little | Big

  function BigEndian32(x: uint32): seq<byte> {
    [x / 0x100_0000, x / 0x1_0000 % 0x100, x / 0x100 % 0x100, x % 0x100]
  }

  function BigEndian16(x: uint16): seq<byte> {
    [x / 0x100, x % 0x100]
  }

  function FromBigEndian32(b: seq<byte>): uint32
    requires |b| == 4
  {
    var b0: int, b1: int, b2: int, b3: int := b[0], b[1], b[2], b[3];
    b0 * 0x100_0000 + b1 * 0x1_0000 + b2 * 0x100 + b3
  }

  function FromBigEndian16(b: seq<byte>): uint16
    requires |b| == 2
  {
    var b0: int, b1: int := b[0], b[1];
    b0 * 0x100 + b1
  }

  /** The bytes a machine keeps in memory for an integer. */
  function InMemory(host: Endian, x: uint32): seq<byte> {
    if host.Big? then BigEndian32(x)
    else [x % 0x100, x / 0x100 % 0x100, x / 0x1_0000 % 0x100, x / 0x100_0000]
  }

  function ByteSwap(x: uint32): uint32 {
    x % 0x100 * 0x100_0000 + x / 0x100 % 0x100 * 0x1_0000 + x / 0x1_0000 % 0x100 * 0x100 + x / 0x100_0000
  }

  function SwitchEndian(host: Endian, x: uint32): uint32 {
    if host.Little? then ByteSwap(x) else x
  }

  lemma Digits256(x: uint32)
    ensures FromBigEndian32(BigEndian32(x)) == x
  {
    assert x / 0x1_0000 == (x / 0x100_0000) * 0x100 + x / 0x1_0000 % 0x100;
    assert x / 0x100 == (x / 0x1_0000) * 0x100 + x / 0x100 % 0x100;
  }

  lemma DigitsUnique(x: uint32, a: byte, b: byte, c: byte, d: byte)
    requires x == a * 0x100_0000 + b * 0x1_0000 + c * 0x100 + d
    ensures BigEndian32(x) == [a, b, c, d]
  {
    QuotientIs(x, a * 0x1_0000 + b * 0x100 + c, 0x100);
    QuotientIs(x, a * 0x100 + b, 0x1_0000);
    QuotientIs(x, a, 0x100_0000);
    QuotientIs(a * 0x1_0000 + b * 0x100 + c, a * 0x100 + b, 0x100);
    QuotientIs(a * 0x100 + b, a, 0x100);
  }

  /** On either kind of machine a stored big-endian integer lies high byte first, and reads back. */
  lemma StoredHighByteFirst(host: Endian, x: uint32)
    ensures InMemory(host, SwitchEndian(host, x)) == BigEndian32(x)
    ensures SwitchEndian(host, SwitchEndian(host, x)) == x
    ensures FromBigEndian32(BigEndian32(x)) == x
  {
    Digits256(x);
    var b := BigEndian32(x);
    DigitsUnique(ByteSwap(x), b[3], b[2], b[1], b[0]);
  }

  // ---------- sending ----------

  function Header(length: nat, id: byte): seq<byte> {
    BigEndian32(length % U32) + [id]
  }

  /** What a freshly made message puts on the socket; a keepalive puts nothing. */
  function Send(m: Message): seq<byte> {
    match m
    case Keepalive => []
    case Choke => Header(1, ID_CHOKE)
    case Unchoke => Header(1, ID_UNCHOKE)
    case Interested => Header(1, ID_INTERESTED)
    case NotInterested => Header(1, ID_NOT_INTERESTED)
    case Have(i) => Header(5, ID_HAVE) + BigEndian32(i)
    case BitField(p) => Header(1 + |p|, ID_BITFIELD) + p
    case Request(i, o, l) => Header(13, ID_REQUEST) + BigEndian32(i) + BigEndian32(o) + BigEndian32(l)
    case Piece(i, o, p) => Header(9 + |p|, ID_PIECE) + BigEndian32(i) + BigEndian32(o) + p
    case Cancel(i, o, l) => Header(13, ID_CANCEL) + BigEndian32(i) + BigEndian32(o) + BigEndian32(l)
    case Port(p) => Header(3, ID_PORT) + BigEndian16(p)
  }

  // ---------- receiving ----------

  datatype ParseError = LengthMismatch | UnknownId

  datatype Parsed = Ok(message: Message) | Rejected(error: ParseError)

  datatype Read = Got(parsed: Parsed, consumed: nat) | EndOfStream

  function Word(data: seq<byte>, at: nat): uint32
    requires at + 4 <= |data|
  {
    FromBigEndian32(data[at..at + 4])
  }

  /** `data` is the whole frame, its first four bytes being the length slot. */
  function ParseMessage(id: byte, data: seq<byte>): Parsed
    requires 5 <= |data|
  {
    if id == ID_CHOKE then Ok(Choke)
    else if id == ID_UNCHOKE then Ok(Unchoke)
    else if id == ID_INTERESTED then Ok(Interested)
    else if id == ID_NOT_INTERESTED then Ok(NotInterested)
    else if id == ID_HAVE then
      if 9 > |data| then Rejected(LengthMismatch) else Ok(Have(Word(data, 5)))
    else if id == ID_BITFIELD then Ok(BitField(data[5..]))
    else if id == ID_REQUEST then
      if 17 > |data| then Rejected(LengthMismatch)
      else Ok(Request(Word(data, 5), Word(data, 9), Word(data, 13)))
    else if id == ID_PIECE then
      if 13 > |data| then Rejected(LengthMismatch)
      else Ok(Piece(Word(data, 5), Word(data, 9), data[13..]))
    else if id == ID_CANCEL then
      if 17 > |data| then Rejected(LengthMismatch)
      else Ok(Cancel(Word(data, 5), Word(data, 9), Word(data, 13)))
    else if id == ID_PORT then
      if 7 > |data| then Rejected(LengthMismatch) else Ok(Port(FromBigEndian16(data[5..7])))
    else Rejected(UnknownId)
  }

  /** The length is put back into the buffer in the machine's own order. */
  function ReadMessage(host: Endian, stream: seq<byte>): Read {
    if |stream| < 4 then EndOfStream
    else
      var length := Word(stream, 0);
      if length == 0 then Got(Ok(Keepalive), 4)
      else if |stream| < 4 + length then EndOfStream
      else
        var buffer := InMemory(host, length) + stream[4..4 + length];
        Got(ParseMessage(buffer[4], buffer), 4 + length)
  }

  function ReadAll(host: Endian, stream: seq<byte>): seq<Parsed>
    decreases |stream|
  {
    match ReadMessage(host, stream)
    case EndOfStream => []
    case Got(parsed, consumed) => [parsed] + ReadAll(host, stream[consumed..])
  }

  // ---------- reference: frames and their meaning ----------

  type Body = b: seq<byte> | |b| < U32

  function Frame(body: Body): seq<byte> {
    BigEndian32(|body|) + body
  }

  /** The minimal body length for a message id, or none for an unknown id. */
  function MinimalBody(id: byte): Option<nat> {
    if id in {ID_CHOKE, ID_UNCHOKE, ID_INTERESTED, ID_NOT_INTERESTED, ID_BITFIELD} then Some(1)
    else if id == ID_HAVE then Some(5)
    else if id in {ID_REQUEST, ID_CANCEL} then Some(13)
    else if id == ID_PIECE then Some(9)
    else if id == ID_PORT then Some(3)
    else None
  }

  /** The result a frame body stands for: a function of the body alone. */
  ghost function Meaning(body: Body): Parsed {
    if body == [] then Ok(Keepalive) else ParseMessage(body[0], [0, 0, 0, 0] + body)
  }

  /** A body is rejected exactly when its id is unknown or it is shorter than the id's layout. */
  lemma RejectedExactly(body: Body)
    requires body != []
    ensures Meaning(body) == Rejected(UnknownId) <==> MinimalBody(body[0]) == None
    ensures Meaning(body) == Rejected(LengthMismatch) <==>
      MinimalBody(body[0]).Some? && |body| < MinimalBody(body[0]).value
  {
  }

  lemma ParseIgnoresLengthSlot(id: byte, slot: seq<byte>, body: seq<byte>)
    requires |slot| == 4 && body != []
    ensures ParseMessage(id, slot + body) == ParseMessage(id, [0, 0, 0, 0] + body)
  {
    var a, b := slot + body, [0, 0, 0, 0] + body;
    assert a[4..] == body == b[4..];
    assert a[5..] == b[5..];
    if |body| >= 9 {
      assert a[13..] == b[13..];
      assert a[9..13] == b[9..13];
    }
    if |body| >= 5 { assert a[5..9] == b[5..9]; }
    if |body| >= 13 { assert a[13..17] == b[13..17]; }
    if |body| >= 3 { assert a[5..7] == b[5..7]; }
  }

  /** Reading takes exactly one frame off the stream, whatever its body and whatever follows. */
  lemma ReadsOneFrame(host: Endian, body: Body, rest: seq<byte>)
    ensures ReadMessage(host, Frame(body) + rest) == Got(Meaning(body), 4 + |body|)
    ensures (Frame(body) + rest)[4 + |body|..] == rest
  {
    var stream := Frame(body) + rest;
    Digits256(|body|);
    assert stream[0..4] == BigEndian32(|body|);
    if body != [] {
      assert stream[4..4 + |body|] == body;
      ParseIgnoresLengthSlot(body[0], InMemory(host, |body|), body);
    }
  }

  ghost function Frames(bodies: seq<Body>): seq<byte> {
    if bodies == [] then [] else Frame(bodies[0]) + Frames(bodies[1..])
  }

  /** A stream of frames is read frame by frame: a rejected one does not disturb those after it. */
  lemma {:induction false} ReadsEveryFrame(host: Endian, bodies: seq<Body>, tail: seq<byte>)
    requires ReadMessage(host, tail) == EndOfStream
    ensures ReadAll(host, Frames(bodies) + tail) == seq(|bodies|, i requires 0 <= i < |bodies| => Meaning(bodies[i]))
  {
    hide Frame, Meaning, ReadMessage;
    if bodies == [] {
      assert Frames(bodies) + tail == tail;
    } else {
      var rest := Frames(bodies[1..]) + tail;
      assert Frames(bodies) + tail == Frame(bodies[0]) + rest;
      ReadsOneFrame(host, bodies[0], rest);
      ReadsEveryFrame(host, bodies[1..], tail);
    }
  }

  /** The length a message needs in its length field. */
  function BodyLength(m: Message): nat {
    match m
    case Keepalive => 0
    case Choke | Unchoke | Interested | NotInterested => 1
    case Have(_) => 5
    case BitField(p) => 1 + |p|
    case Request(_, _, _) => 13
    case Piece(_, _, p) => 9 + |p|
    case Cancel(_, _, _) => 13
    case Port(_) => 3
  }

  lemma SentIsFramed(m: Message)
    requires m != Keepalive
    ensures |Send(m)| == 4 + BodyLength(m)
    ensures Send(m) == BigEndian32(BodyLength(m) % U32) + Send(m)[4..]
  {
  }

  lemma WordsInBody(head: seq<byte>, x: uint32, tail: seq<byte>)
    ensures Word(head + BigEndian32(x) + tail, |head|) == x
  {
    var all := head + BigEndian32(x) + tail;
    assert all[|head|..|head| + 4] == BigEndian32(x);
    Digits256(x);
  }

  /** Parsing the body of a sent message gives the message back. */
  lemma BodyMeansMessage(m: Message)
    requires m != Keepalive && BodyLength(m) < U32
    ensures Meaning(Send(m)[4..]) == Ok(m)
  {
    match m
    case Have(i) => HaveBody(i);
    case BitField(p) => BitFieldBody(p);
    case Request(i, o, l) => RequestBody(i, o, l);
    case Cancel(i, o, l) => CancelBody(i, o, l);
    case Piece(i, o, p) => PieceBody(i, o, p);
    case Port(p) => PortBody(p);
    case _ =>
  }

  lemma HaveBody(i: uint32)
    ensures Meaning(Send(Have(i))[4..]) == Ok(Have(i))
  {
    hide Word;
    var head: seq<byte> := [0, 0, 0, 0, ID_HAVE];
    assert [0, 0, 0, 0] + Send(Have(i))[4..] == head + BigEndian32(i) + [];
    WordsInBody(head, i, []);
  }

  lemma BitFieldBody(p: seq<byte>)
    requires 1 + |p| < U32
    ensures Meaning(Send(BitField(p))[4..]) == Ok(BitField(p))
  {
    var data: seq<byte> := [0, 0, 0, 0] + Send(BitField(p))[4..];
    assert data[5..] == p;
  }

  lemma RequestBody(i: uint32, o: uint32, l: uint32)
    ensures Meaning(Send(Request(i, o, l))[4..]) == Ok(Request(i, o, l))
  {
    ThreeWords([0, 0, 0, 0] + Send(Request(i, o, l))[4..], ID_REQUEST, i, o, l);
  }

  lemma CancelBody(i: uint32, o: uint32, l: uint32)
    ensures Meaning(Send(Cancel(i, o, l))[4..]) == Ok(Cancel(i, o, l))
  {
    ThreeWords([0, 0, 0, 0] + Send(Cancel(i, o, l))[4..], ID_CANCEL, i, o, l);
  }

  lemma PieceBody(i: uint32, o: uint32, p: seq<byte>)
    requires 9 + |p| < U32
    ensures Meaning(Send(Piece(i, o, p))[4..]) == Ok(Piece(i, o, p))
  {
    hide Word;
    var head: seq<byte> := [0, 0, 0, 0, ID_PIECE];
    PieceLayout(i, o, p);
    WordsInBody(head, i, BigEndian32(o) + p);
    WordsInBody(head + BigEndian32(i), o, p);
  }

  lemma PieceLayout(i: uint32, o: uint32, p: seq<byte>)
    ensures
      var head: seq<byte> := [0, 0, 0, 0, ID_PIECE];
      var data := [0, 0, 0, 0] + Send(Piece(i, o, p))[4..];
      && data == head + BigEndian32(i) + (BigEndian32(o) + p)
      && data == (head + BigEndian32(i)) + BigEndian32(o) + p
      && data[13..] == p
  {
  }

  lemma PortBody(p: uint16)
    ensures Meaning(Send(Port(p))[4..]) == Ok(Port(p))
  {
    var data: seq<byte> := [0, 0, 0, 0] + Send(Port(p))[4..];
    assert data == [0, 0, 0, 0, ID_PORT] + BigEndian16(p);
    assert data[5..7] == BigEndian16(p);
  }

  lemma ThreeWords(data: seq<byte>, id: byte, a: uint32, b: uint32, c: uint32)
    requires data == [0, 0, 0, 0, id] + BigEndian32(a) + BigEndian32(b) + BigEndian32(c)
    ensures |data| == 17 && Word(data, 5) == a && Word(data, 9) == b && Word(data, 13) == c
  {
    hide Word;
    var head: seq<byte> := [0, 0, 0, 0, id];
    assert data == head + BigEndian32(a) + (BigEndian32(b) + BigEndian32(c));
    WordsInBody(head, a, BigEndian32(b) + BigEndian32(c));
    assert data == (head + BigEndian32(a)) + BigEndian32(b) + BigEndian32(c);
    WordsInBody(head + BigEndian32(a), b, BigEndian32(c));
    assert data == (head + BigEndian32(a) + BigEndian32(b)) + BigEndian32(c) + [];
    WordsInBody(head + BigEndian32(a) + BigEndian32(b), c, []);
  }

  ghost predicate Sendable(m: Message) {
    m != Keepalive && BodyLength(m) < U32
  }

  lemma SentIsFrame(m: Message)
    requires Sendable(m)
    ensures 4 <= |Send(m)| && |Send(m)[4..]| < U32
    ensures Frame(Send(m)[4..]) == Send(m) && Meaning(Send(m)[4..]) == Ok(m)
  {
    SentIsFramed(m);
    BodyMeansMessage(m);
    SmallMod(BodyLength(m), U32);
    hide Send, Meaning;
  }

  ghost function BodyOf(m: Message): (body: Body)
    requires Sendable(m)
    ensures Frame(body) == Send(m) && Meaning(body) == Ok(m)
  {
    SentIsFrame(m);
    Send(m)[4..]
  }

  /**
   * A sent message is read back whole, leaving what follows, exactly when it is not a keepalive
   * and its length field did not wrap.
   */
  lemma SendReadExact(host: Endian, m: Message, rest: seq<byte>)
    ensures ReadMessage(host, Send(m) + rest) == Got(Ok(m), |Send(m)|)
      <==> m != Keepalive && BodyLength(m) < U32
  {
    if Sendable(m) {
      ReadsOneFrame(host, BodyOf(m), rest);
    } else if m != Keepalive {
      WrappedLengthMisreads(host, m, rest);
    }
  }

  lemma WrappedLengthMisreads(host: Endian, m: Message, rest: seq<byte>)
    requires m != Keepalive && U32 <= BodyLength(m)
    ensures
      var r := ReadMessage(host, Send(m) + rest);
      r.Got? ==> r.consumed != |Send(m)|
  {
    SentIsFramed(m);
    var body := Send(m)[4..];
    ConsumesLengthField(host, BodyLength(m) % U32, body + rest);
    assert Send(m) + rest == BigEndian32(BodyLength(m) % U32) + (body + rest);
  }

  lemma ConsumesLengthField(host: Endian, length: uint32, tail: seq<byte>)
    ensures
      var r := ReadMessage(host, BigEndian32(length) + tail);
      r.Got? ==> r.consumed == 4 + length
  {
    WordsInBody([], length, tail);
    assert [] + BigEndian32(length) + tail == BigEndian32(length) + tail;
  }

  /** The concatenation of any sent messages is read back as the same messages in order. */
  lemma StreamRoundTrip(host: Endian, ms: seq<Message>)
    requires forall i :: 0 <= i < |ms| ==> Sendable(ms[i])
    ensures ReadAll(host, SendAll(ms)) == seq(|ms|, i requires 0 <= i < |ms| => Ok(ms[i]))
  {
    var bodies := Bodies(ms);
    ReadsEveryFrame(host, bodies, []);
    assert Frames(bodies) + [] == SendAll(ms);
  }

  ghost function SendAll(ms: seq<Message>): seq<byte> {
    if ms == [] then [] else Send(ms[0]) + SendAll(ms[1..])
  }

  ghost function Bodies(ms: seq<Message>): (bodies: seq<Body>)
    requires forall i :: 0 <= i < |ms| ==> Sendable(ms[i])
    ensures |bodies| == |ms| && Frames(bodies) == SendAll(ms)
    ensures forall i :: 0 <= i < |ms| ==> Meaning(bodies[i]) == Ok(ms[i])
  {
    if ms == [] then []
    else
      assert Sendable(ms[0]);
      [BodyOf(ms[0])] + Bodies(ms[1..])
  }
}
