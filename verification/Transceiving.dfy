/** Messages on buffers (src/comms/Message.cc) and the receive loop that cuts them out of a socket
    (include/crisp/comms/bits/BasicNode.tcc). */
module Transceiving {
  import opened Bytes
  import opened Register
  import opened ErrorDetection
  import opened Messages
  import opened Dispatching
  import opened Receiving
  import opened Emission
  import opened Outcomes
  import opened ControlCodec
  import opened ControlObjects
  import Buffers
  import Crc32

  method ComputeMessageChecksum(m: Message) returns (r: Outcome<Word>)
    ensures r == ComputeChecksum(m)
  {
    if m.header.typ >= TYPE_COUNT { return AssertionFailed; }
    if !Info(m.header.typ).hasChecksum { return Done(0); }
    if m.body.NoBody? { return OutOfBounds; }
    var covered := EncodeHeader(m.header) + m.body.bytes;
    var data := new byte[|covered|](i requires 0 <= i < |covered| => covered[i]);
    assert data[..|covered|] == covered;
    var c := Crc32.ComputeCrc32(data, data.Length);
    r := Done(c);
  }

  /** Each part is written if it fits, and success is reported regardless; the assertions fail as they do
      at value level. */
  method EncodeTo(m: Message, buf: Buffers.MemoryEncodeBuffer) returns (r: Outcome<Buffers.EncodeResult>)
    requires buf.Valid()
    modifies buf`offset, buf.data
    ensures buf.Valid()
    ensures match EncodeMessage(m)
      case Done(_) => r == Done(Buffers.SUCCESS) && buf.Written() == old(buf.Written()) + EmitMessage(m, old(buf.Room()))
      case AssertionFailed => r == AssertionFailed
      case OutOfBounds => r == OutOfBounds
  {
    hide EncodeHeader, LE32, Crc32.Checksum;
    ghost var start, room := buf.Written(), buf.Room();
    var _ := buf.Write(EncodeHeader(m.header));
    ghost var header := Fit(EncodeHeader(m.header), room);
    assert buf.Written() == start + header;
    if m.header.typ >= TYPE_COUNT { return AssertionFailed; }
    var info := Info(m.header.typ);
    if info.hasBody {
      if m.body.Data? {
        if info.fixed.Data? { return AssertionFailed; }
        var _ := buf.Write(m.body.bytes);
      } else {
        if info.fixed.NoBody? { return AssertionFailed; }
        var _ := buf.Write(info.fixed.bytes);
      }
    }
    ghost var body := Fit(EffectiveBody(m), Left(room, header));
    assert start + header + [] == start + header;
    Regroup(start, header, body);
    assert buf.Written() == start + (header + body);
    if info.hasChecksum {
      var c := ComputeMessageChecksum(m);
      if c.AssertionFailed? { return AssertionFailed; }
      if c.OutOfBounds? { return OutOfBounds; }
      ghost var trailer := Fit(LE32(c.value), Left(room, header + body));
      Regroup(start, header + body, trailer);
      assert start + (header + body) + [] == start + (header + body);
      var _ := buf.Write(LE32(c.value));
    } else {
      assert header + body + [] == header + body;
    }
    r := Done(Buffers.SUCCESS);
  }

  /** Whatever bytes arrive, the message is the one the value-level decoder gives. */
  method DecodeFrom(buf: Buffers.DecodeBuffer) returns (r: Outcome<Message>)
    requires buf.Valid()
    modifies buf`offset
    ensures buf.Valid()
    ensures match DecodeMessage(old(buf.Rest()))
      case Done((m, rest)) => r == Done(m) && buf.Rest() == rest
      case AssertionFailed => r == AssertionFailed
      case OutOfBounds => r == OutOfBounds
  {
    hide DecodeHeader, Join;
    var header := Header(0, HANDSHAKE);
    var rr, bytes := buf.Read(HEADER_SIZE);
    if rr == Buffers.READ { header := Messages.DecodeHeader(bytes); }
    if header.typ >= TYPE_COUNT { return AssertionFailed; }
    var info := Info(header.typ);
    if !info.hasBody { return Done(Message(header, NoBody, 0)); }
    if header.length < ChecksumSize(header.typ) { return AssertionFailed; }
    var size := header.length - ChecksumSize(header.typ);
    var rb, body := buf.Read(size);
    if rb != Buffers.READ { body := Fill(size); }
    var checksum: Word := 0;
    if info.hasChecksum {
      var rc, c := buf.Read(CHECKSUM_SIZE);
      if rc == Buffers.READ { checksum := Join(c[0], c[1], c[2], c[3]); }
    }
    r := Done(Message(header, Data(body), checksum));
  }

  /** What lies behind the frame in the read buffer, left there by longer messages, is never read. */
  lemma StaleBytesIgnored(frame: seq<byte>, stale: seq<byte>)
    requires |frame| >= HEADER_SIZE
    requires var h := Messages.DecodeHeader(frame[..HEADER_SIZE]); h.typ < TYPE_COUNT && |frame| == FrameLength(h)
    ensures match DecodeMessage(frame)
      case Done((m, _)) => DecodeMessage(frame + stale) == Done((m, stale))
      case AssertionFailed => DecodeMessage(frame + stale) == AssertionFailed
      case OutOfBounds => DecodeMessage(frame + stale) == OutOfBounds
  {
    hide Messages.DecodeHeader, Join;
    var s := frame + stale;
    assert s[..HEADER_SIZE] == frame[..HEADER_SIZE];
    assert s[HEADER_SIZE..] == frame[HEADER_SIZE..] + stale;
    var h := Messages.DecodeHeader(frame[..HEADER_SIZE]);
    if Info(h.typ).hasBody && h.length >= ChecksumSize(h.typ) {
      var body, k := frame[HEADER_SIZE..], h.length - ChecksumSize(h.typ);
      assert (body + stale)[..k] == body[..k];
      assert (body + stale)[k..] == body[k..] + stale;
      if Info(h.typ).hasChecksum {
        assert (body[k..] + stale)[CHECKSUM_SIZE..] == stale;
      }
    }
  }

  /** Copies a frame to the front of the read buffer and decodes it from there. */
  method DecodeFrameIn(rdbuf: array<byte>, front: seq<byte>, payload: seq<byte>) returns (r: Outcome<Message>)
    requires |front| == HEADER_SIZE && HEADER_SIZE + |payload| <= rdbuf.Length
    requires var h := Messages.DecodeHeader(front); h.typ < TYPE_COUNT && HEADER_SIZE + |payload| == FrameLength(h)
    modifies rdbuf
    ensures match DecodeMessage(front + payload)
      case Done((m, _)) => r == Done(m)
      case AssertionFailed => r == AssertionFailed
      case OutOfBounds => r == OutOfBounds
  {
    hide Messages.DecodeHeader, DecodeMessage;
    ghost var frame := front + payload;
    forall i | 0 <= i < HEADER_SIZE { rdbuf[i] := front[i]; }
    forall i | 0 <= i < |payload| { rdbuf[HEADER_SIZE + i] := payload[i]; }
    assert rdbuf[..|frame|] == frame;
    assert rdbuf[..] == frame + rdbuf[|frame|..];
    assert frame[..HEADER_SIZE] == front;
    StaleBytesIgnored(frame, rdbuf[|frame|..]);
    var db := new Buffers.DecodeBuffer(rdbuf);
    assert db.Rest() == rdbuf[..];
    r := DecodeFrom(db);
  }

  /** The first half of a turn: reads a header, makes room, reads the rest and decodes the message. */
  method CutFrom(socket: Buffers.DecodeBuffer, buffer: array<byte>) returns (turn: Outcome<Message>, why: Why, rdbuf: array<byte>)
    requires socket.Valid() && socket.data != buffer
    modifies socket`offset, buffer
    ensures socket.Valid() && (rdbuf == buffer || fresh(rdbuf)) && socket.data != rdbuf
    ensures match Cut(old(socket.Rest()), buffer.Length)
      case Took(m, rest, c) => turn == Done(m) && socket.Rest() == rest && rdbuf.Length == c
      case Stopped(w) => !turn.Done? && why == w
  {
    hide Messages.DecodeHeader, DecodeMessage, ChecksumOk;
    ghost var s := socket.Rest();
    turn, rdbuf := AssertionFailed, buffer;
    var rh, front := socket.Read(HEADER_SIZE);
    if rh != Buffers.READ { why := EndOfStream; return; }
    why := AssertFailed;
    var h := Messages.DecodeHeader(front);
    if h.typ >= TYPE_COUNT { return; }
    var size := EncodedSize(Message(h, NoBody, 0)).value;
    if rdbuf.Length < size { rdbuf := new byte[size](_ => 0); }
    assert rdbuf.Length == Grow(buffer.Length, h);
    hide Grow;
    var payload: seq<byte> := [];
    if Info(h.typ).hasBody {
      if rdbuf.Length < HEADER_SIZE + h.length { why := Overrun; return; }
      var rb;
      rb, payload := socket.Read(h.length);
      if rb != Buffers.READ { why := EndOfStream; return; }
    }
    assert front + payload == s[..FrameLength(h)] && socket.Rest() == s[FrameLength(h)..];
    turn := DecodeFrameIn(rdbuf, front, payload);
    if !turn.Done? { return; }
    if !ChecksumOk(turn.value) { turn, why := AssertionFailed, BadChecksum; return; }
  }

  /** Dispatching a message: a control is decoded from its body into a fresh control object. */
  method DispatchTo(config: Countable, m: Message) returns (d: Dispatch)
    ensures d == DispatchOf(config, m)
  {
    if m.header.typ == ERROR || m.header.typ == SENSOR_DATA { return Fails(Thrown); }
    if TakesBody(m.header.typ) && m.body.NoBody? { return Fails(Thrown); }
    if m.header.typ != MODULE_CONTROL { return Handled; }
    var body := m.body.bytes;
    var data := new byte[|body|](i requires 0 <= i < |body| => body[i]);
    var db := new Buffers.DecodeBuffer(data);
    assert db.Rest() == body;
    var control := new ControlObject.Blank();
    var r := control.Decode(db, config);
    d := if r.Done? then Handled else if r.AssertionFailed? then Fails(AssertFailed) else Fails(OutOfRange);
  }

  /** The receive loop on a socket that delivers the given bytes and then closes: one read buffer,
      grown as headers demand, and a message cut off and dispatched per turn. */
  method ReceiveLoop(config: Countable, socket: Buffers.DecodeBuffer) returns (dispatched: seq<Message>, why: Why)
    requires socket.Valid()
    modifies socket`offset
    ensures socket.Valid()
    ensures var r := Receive(config, old(socket.Rest()), BUFSIZ); dispatched == r.messages && why == r.why
  {
    hide Cut, DispatchOf;
    dispatched := [];
    ghost var stream := socket.Rest();
    var rdbuf := new byte[BUFSIZ](_ => 0);
    while true
      invariant socket.Valid() && fresh(rdbuf) && socket.data != rdbuf
      invariant Receive(config, stream, BUFSIZ).messages == dispatched + Receive(config, socket.Rest(), rdbuf.Length).messages
      invariant Receive(config, stream, BUFSIZ).why == Receive(config, socket.Rest(), rdbuf.Length).why
      decreases |socket.Rest()|
    {
      ghost var s, capacity := socket.Rest(), rdbuf.Length;
      var turn, w;
      turn, w, rdbuf := CutFrom(socket, rdbuf);
      if !turn.Done? { return dispatched, w; }
      var d := DispatchTo(config, turn.value);
      if d.Fails? { return dispatched, d.why; }
      NextTakesBytes(config, s, capacity);
      Regroup(dispatched, [turn.value], Receive(config, socket.Rest(), rdbuf.Length).messages);
      dispatched := dispatched + [turn.value];
    }
  }
}
