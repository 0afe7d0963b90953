/** The receive loop (include/crisp/comms/bits/BasicNode.tcc): cutting a byte stream back into
    messages. The stream ends where the peer closed it; stopping the node and resynchronization are
    not part of this model. */
module Receiving {
  import opened Bytes
  import opened Register
  import opened Crc32
  import opened ErrorDetection
  import opened Messages
  import opened Outcomes
  import opened Configurations
  import opened ControlCodec
  import opened Dispatching

  const BUFSIZ := 8192

  datatype Turn = Stopped(why: Why) | Took(m: Message, rest: seq<byte>, capacity: nat)

  /** The read buffer grows to the encoded size that the header announces. */
  function Grow(capacity: nat, h: Header): nat
    requires h.typ < TYPE_COUNT
  {
    var size := EncodedSize(Message(h, NoBody, 0)).value;
    if capacity < size then size else capacity
  }

  function FrameLength(h: Header): nat
    requires h.typ < TYPE_COUNT
  {
    if Info(h.typ).hasBody then HEADER_SIZE + h.length else HEADER_SIZE
  }

  /** The first half of a turn: cutting a message off what is left of the stream. */
  function Cut(s: seq<byte>, capacity: nat): Turn {
    if |s| < HEADER_SIZE then Stopped(EndOfStream)
    else
      var h := DecodeHeader(s[..HEADER_SIZE]);
      if h.typ >= TYPE_COUNT then Stopped(AssertFailed)
      else
        var c, n := Grow(capacity, h), FrameLength(h);
        if n > c then Stopped(Overrun)
        else if |s| < n then Stopped(EndOfStream)
        else
          match DecodeMessage(s[..n])
          case Done((m, _)) =>
            if !ChecksumOk(m) then Stopped(BadChecksum) else Took(m, s[n..], c)
          case AssertionFailed => Stopped(AssertFailed)
          case OutOfBounds => Stopped(AssertFailed)
  }

  /** One turn of the loop: cut a message off and dispatch it. */
  function Next(config: Countable, s: seq<byte>, capacity: nat): Turn {
    match Cut(s, capacity)
    case Stopped(why) => Stopped(why)
    case Took(m, rest, c) => if DispatchOf(config, m) == Handled then Took(m, rest, c) else Stopped(DispatchOf(config, m).why)
  }

  datatype Reception = Reception(messages: seq<Message>, why: Why, rest: seq<byte>, capacity: nat)

  /** Everything dispatched from a stream, why the loop ended, and the bytes it did not turn into
      dispatched messages. */
  function Receive(config: Countable, s: seq<byte>, capacity: nat): Reception
    decreases |s|
  {
    match Next(config, s, capacity)
    case Stopped(why) => Reception([], why, s, capacity)
    case Took(m, rest, c) =>
      var r := Receive(config, rest, c);
      r.(messages := [m] + r.messages)
  }

  /** Why nothing is cut off a stream, byte by byte: fewer than three bytes are no header; then there is a type
      that there is not, or a SYNC (2) that is longer than the buffer; then bytes are missing; and then there is
      a protected type with a length below four, or a checksum that does not hold. A type other than
      CONFIGURATION_QUERY (4) is followed by as many bytes as its length says. */
  lemma CutReasons(s: seq<byte>, capacity: nat)
    ensures var h := if |s| < 3 then Header(0, 0) else DecodeHeader(s[..3]);
      var n := if h.typ == 4 then 3 else 3 + h.length;
      var c := Cut(s, capacity); var stopped := c.Stopped?;
      && (c == Stopped(EndOfStream) <==> |s| < 3 || (h.typ < 8 && |s| < n && !(h.typ == 2 && n > capacity && n > 7)))
      && (c == Stopped(Overrun) <==> |s| >= 3 && h.typ == 2 && n > capacity && n > 7)
      && (c == Stopped(AssertFailed) <==> |s| >= 3 && (h.typ >= 8 || (Protected(h.typ) && h.length < 4 && |s| >= n)))
      && (stopped ==> c.why == EndOfStream || c.why == Overrun || c.why == AssertFailed || (c.why == BadChecksum && Protected(h.typ)))
      && (c.Took? ==> |c.rest| == |s| - n && c.capacity == (if h.typ == 2 then (if capacity < 7 then 7 else capacity)
                                                            else if capacity < 3 + h.length then 3 + h.length else capacity))
  {
    if |s| >= 3 {
      var h := DecodeHeader(s[..3]);
      if h.typ < 8 && |s| >= FrameLength(h) {
        DecodingFails(s[..FrameLength(h)]);
        assert s[..FrameLength(h)][..3] == s[..3];
      }
    }
    hide ChecksumOk, Checksum;
  }

  /** With the buffer of 8192 bytes that the loop starts with, a SYNC overruns it from a length of 8190 on. */
  lemma LongestSync(s: seq<byte>)
    requires |s| >= 3 && DecodeHeader(s[..3]).typ == 2
    ensures Cut(s, BUFSIZ) == Stopped(Overrun) <==> DecodeHeader(s[..3]).length >= 8190
  {
    CutReasons(s, BUFSIZ);
    hide Cut, DecodeHeader;
  }

  // ----- Frames -----

  /** The bytes a message was read from. */
  function Frame(m: Message): seq<byte>
    requires m.header.typ < TYPE_COUNT
  {
    EncodeHeader(m.header)
    + if Info(m.header.typ).hasBody && m.body.Data? then m.body.bytes + Trailer(m.header.typ, m.checksum) else []
  }

  /** What can be cut off: a known type, a length field that counts body and checksum, a checksum that
      holds, and, for SYNC, a body that fits the buffer. */
  predicate Framed(m: Message, capacity: nat) {
    && m.header.typ < TYPE_COUNT && m.header.length < 65536
    && (if Info(m.header.typ).hasBody
        then m.body.Data? && m.header.length == |m.body.bytes| + ChecksumSize(m.header.typ)
        else m.body.NoBody?)
    && (if Info(m.header.typ).hasChecksum then ChecksumOk(m) else m.checksum == 0)
    && FrameLength(m.header) <= Grow(capacity, m.header)
  }

  /** What the loop lets through: framed and dispatchable. */
  predicate AllAccepted(config: Countable, ms: seq<Message>, capacity: nat)
    decreases |ms|
  {
    ms == [] || (Framed(ms[0], capacity) && Dispatchable(config, ms[0])
                 && AllAccepted(config, ms[1..], Grow(capacity, ms[0].header)))
  }

  function Frames(ms: seq<Message>): seq<byte>
    requires forall m :: m in ms ==> m.header.typ < TYPE_COUNT
  {
    if ms == [] then [] else Frame(ms[0]) + Frames(ms[1..])
  }

  lemma FramedType(m: Message, capacity: nat)
    requires Framed(m, capacity)
    ensures m.header.typ < TYPE_COUNT
  {}

  /** Every three bytes are the encoding of the header they decode to. */
  lemma HeaderBytes(b: seq<byte>)
    requires |b| == HEADER_SIZE
    ensures EncodeHeader(DecodeHeader(b)) == b
  {
    hide ToByte, ByteValue;
    ValueRoundTrip(b[0]); ValueRoundTrip(b[1]); ValueRoundTrip(b[2]);
    var lo, hi := ByteValue(b[0]), ByteValue(b[1]);
    assert (lo + 256 * hi) % 256 == lo && (lo + 256 * hi) / 256 == hi;
  }

  lemma TrailerLength(t: nat, c: Word)
    requires t < TYPE_COUNT
    ensures |Trailer(t, c)| == ChecksumSize(t)
  {}

  /** A frame is taken apart into the message it came from. */
  lemma DecodeFramed(m: Message, capacity: nat)
    requires Framed(m, capacity)
    ensures DecodeMessage(Frame(m)) == Done((m, [])) && ChecksumOk(m)
    ensures |Frame(m)| == FrameLength(m.header)
  {
    var h := m.header;
    HeaderRoundTrip(h);
    if Info(h.typ).hasBody {
      DecodeFrame(h, m.body.bytes, m.checksum, []);
      TrailerLength(h.typ, m.checksum);
      hide EncodeHeader, DecodeMessage, Trailer, Grow, Checksum;
      assert Trailer(h.typ, m.checksum) + [] == Trailer(h.typ, m.checksum);
    } else {
      hide EncodeHeader, DecodeHeader, Grow;
      assert EncodeHeader(h) + [] == EncodeHeader(h);
    }
  }

  /** What is cut off a stream that starts with a frame is that frame's message ... */
  lemma CutFrame(m: Message, tail: seq<byte>, capacity: nat)
    requires Framed(m, capacity)
    ensures Cut(Frame(m) + tail, capacity) == Took(m, tail, Grow(capacity, m.header))
  {
    DecodeFramed(m, capacity);
    HeaderRoundTrip(m.header);
    FrameHeader(m);
    hide Frame, EncodeHeader, DecodeHeader, DecodeMessage, ChecksumOk, Grow;
    Split(Frame(m), tail);
    assert (Frame(m) + tail)[..HEADER_SIZE] == Frame(m)[..HEADER_SIZE];
  }

  lemma FrameHeader(m: Message)
    requires m.header.typ < TYPE_COUNT
    ensures |Frame(m)| >= HEADER_SIZE && Frame(m)[..HEADER_SIZE] == EncodeHeader(m.header)
  {
    hide EncodeHeader, Trailer;
  }

  /** ... and whatever is cut off a stream, the bytes taken are that message's frame. */
  lemma CutGivesFrame(s: seq<byte>, capacity: nat)
    requires Cut(s, capacity).Took?
    ensures var t := Cut(s, capacity);
      Framed(t.m, capacity) && s == Frame(t.m) + t.rest && t.capacity == Grow(capacity, t.m.header)
  {
    var h := DecodeHeader(s[..HEADER_SIZE]);
    HeaderBytes(s[..HEADER_SIZE]);
    var n := FrameLength(h);
    DecodedFrame(s[..n], h);
    hide DecodeMessage, DecodeHeader, EncodeHeader, Frame, Grow, Trailer, Checksum;
    assert s == s[..n] + s[n..];
    assert s[..n][..HEADER_SIZE] == s[..HEADER_SIZE];
  }

  lemma DecodedFrame(f: seq<byte>, h: Header)
    requires |f| >= HEADER_SIZE && h == DecodeHeader(f[..HEADER_SIZE])
    requires h.typ < TYPE_COUNT && |f| == FrameLength(h) && DecodeMessage(f).Done?
    ensures var m := DecodeMessage(f).value.0;
      && m.header == h && f == Frame(m)
      && (if Info(h.typ).hasBody then m.body.Data? && h.length == |m.body.bytes| + ChecksumSize(h.typ) else m.body.NoBody?)
      && (!Info(h.typ).hasChecksum ==> m.checksum == 0)
  {
    HeaderBytes(f[..HEADER_SIZE]);
    if Info(h.typ).hasBody {
      hide Frame, DecodeMessage, DecodeHeader, EncodeHeader, Info;
      DecodedBody(f, h);
    } else {
      hide DecodeHeader, EncodeHeader;
      assert f == f[..HEADER_SIZE] + [];
    }
  }

  lemma DecodedBody(f: seq<byte>, h: Header)
    requires |f| >= HEADER_SIZE && h == DecodeHeader(f[..HEADER_SIZE]) && EncodeHeader(h) == f[..HEADER_SIZE]
    requires h.typ < TYPE_COUNT && Info(h.typ).hasBody && |f| == FrameLength(h) && DecodeMessage(f).Done?
    ensures var m := DecodeMessage(f).value.0;
      && m.header == h && f == Frame(m)
      && m.body.Data? && h.length == |m.body.bytes| + ChecksumSize(h.typ)
      && (!Info(h.typ).hasChecksum ==> m.checksum == 0)
  {
    hide DecodeHeader, EncodeHeader, Trailer, ReadChecksum, Info;
    var s1 := f[HEADER_SIZE..];
    assert f == f[..HEADER_SIZE] + s1;
    var k := h.length - ChecksumSize(h.typ);
    assert s1 == s1[..k] + s1[k..];
    if Info(h.typ).hasChecksum {
      TrailerBytes(h.typ, s1[k..]);
    } else {
      NoTrailer(h.typ, 0, []);
      assert s1[k..] == [];
    }
  }

  lemma TrailerBytes(t: nat, s: seq<byte>)
    requires t < TYPE_COUNT && Info(t).hasChecksum && |s| == CHECKSUM_SIZE
    ensures var (c, rest) := ReadChecksum(s); rest == [] && s == Trailer(t, c)
  {
    LE32OfJoin(s[0], s[1], s[2], s[3]);
    hide LE32, Join;
    assert s == [s[0], s[1], s[2], s[3]];
  }

  /** Frames at the head of a stream are dispatched first, whatever follows them. */
  lemma {:induction false} ReceiveFrames(config: Countable, ms: seq<Message>, tail: seq<byte>, capacity: nat)
    requires AllAccepted(config, ms, capacity) && forall m :: m in ms ==> m.header.typ < TYPE_COUNT
    ensures exists c :: var after := Receive(config, tail, c);
      Receive(config, Frames(ms) + tail, capacity) == after.(messages := ms + after.messages)
    decreases |ms|
  {
    hide Cut, Frame, Framed, DispatchOf, Dispatchable;
    if ms == [] {
      assert Frames(ms) + tail == tail;
      var after := Receive(config, tail, capacity);
      assert ms + after.messages == after.messages;
    } else {
      var c := Grow(capacity, ms[0].header);
      Regroup(Frame(ms[0]), Frames(ms[1..]), tail);
      CutFrame(ms[0], Frames(ms[1..]) + tail, capacity);
      HandledIff(config, ms[0]);
      ReceiveFrames(config, ms[1..], tail, c);
      var c' :| var after := Receive(config, tail, c');
        Receive(config, Frames(ms[1..]) + tail, c) == after.(messages := ms[1..] + after.messages);
      var after := Receive(config, tail, c');
      Regroup([ms[0]], ms[1..], after.messages);
      assert ms == [ms[0]] + ms[1..];
    }
  }

  /** Nothing is invented and nothing is lost: on every byte stream, good or bad, the messages
      dispatched are exactly the frames of the bytes consumed. */
  lemma {:induction false} ReceivedIsTheStream(config: Countable, s: seq<byte>, capacity: nat)
    ensures var r := Receive(config, s, capacity);
      AllAccepted(config, r.messages, capacity)
      && (forall m :: m in r.messages ==> m.header.typ < TYPE_COUNT) && s == Frames(r.messages) + r.rest
    decreases |s|
  {
    hide Cut, Frame, Framed, DispatchOf, Dispatchable;
    match Next(config, s, capacity)
    case Stopped(_) =>
    case Took(m, rest, c) =>
      CutGivesFrame(s, capacity);
      HandledIff(config, m);
      FramedType(m, capacity);
      FrameHeader(m);
      ReceivedIsTheStream(config, rest, c);
      var r := Receive(config, rest, c);
      assert ([m] + r.messages)[1..] == r.messages;
      Regroup(Frame(m), Frames(r.messages), r.rest);
  }

  /** A stream is received whole as a list of messages exactly when it is that list's frames and every
      one of them is accepted. */
  lemma ReceiveInvertsFrames(config: Countable, s: seq<byte>, ms: seq<Message>, capacity: nat)
    requires forall m :: m in ms ==> m.header.typ < TYPE_COUNT
    ensures var r := Receive(config, s, capacity);
      r.messages == ms && r.rest == [] <==> AllAccepted(config, ms, capacity) && s == Frames(ms)
  {
    hide Frames, AllAccepted;
    ReceivedIsTheStream(config, s, capacity);
    assert Frames(ms) + [] == Frames(ms);
    if AllAccepted(config, ms, capacity) && s == Frames(ms) {
      ReceiveFrames(config, ms, [], capacity);
    }
  }

  // ----- What a peer sends -----

  /** Lists of messages that a program can construct. */
  predicate Sendable(ms: seq<Message>) { forall i :: 0 <= i < |ms| ==> Constructible(ms[i]) }

  /** The encodings of a list of messages, one after the other. */
  function Wire(ms: seq<Message>): seq<byte>
    requires Sendable(ms)
  {
    if ms == [] then [] else WireForm(ms[0]) + Wire(ms[1..])
  }

  function ReceivedAll(ms: seq<Message>): (r: seq<Message>)
    requires Sendable(ms)
    ensures |r| == |ms| && forall i :: 0 <= i < |ms| ==> r[i] == Received(ms[i])
  {
    if ms == [] then [] else [Received(ms[0])] + ReceivedAll(ms[1..])
  }

  lemma ReceivedIsFramed(m: Message, capacity: nat)
    requires Constructible(m)
    ensures Framed(Received(m), capacity) && Frame(Received(m)) == WireForm(m)
  {
    LengthField(m);
    MessageRoundTrip(m, []);
    ReceivedFits(m, capacity);
    ReceivedFrame(m);
    hide Frame, WireForm, EncodeHeader, Checksum, DecodeMessage, ChecksumOk, Grow, FrameLength;
  }

  lemma ReceivedFits(m: Message, capacity: nat)
    requires Constructible(m)
    ensures m.header.typ < TYPE_COUNT && FrameLength(m.header) <= Grow(capacity, m.header)
  {
    hide Checksum, EncodeHeader;
  }

  lemma ReceivedFrame(m: Message)
    requires Constructible(m)
    ensures Frame(Received(m)) == WireForm(m)
  {
    LengthField(m);
    hide EncodeHeader, Checksum, LE32, Constructible;
    var h, body := EncodeHeader(m.header), EffectiveBody(m);
    assert h + [] == h && body + [] == body;
    if Info(m.header.typ).hasBody { Regroup(h, body, Trailer(m.header.typ, Received(m).checksum)); }
  }

  /** What this node dispatches of what a peer sends, as the peer can tell: any message but ERROR and
      SENSOR_DATA, and of the controls those whose bytes decode against this node's configuration. */
  predicate Welcome(config: Configuration, m: Message) {
    && m.header.typ != ERROR && m.header.typ != SENSOR_DATA
    && (m.header.typ == MODULE_CONTROL ==> Decodes(config, EffectiveBody(m)))
  }

  lemma ReceivedBody(m: Message)
    requires Constructible(m) && Info(m.header.typ).hasBody
    ensures Received(m).header == m.header && Received(m).body == Data(EffectiveBody(m))
  {
    hide EncodeHeader;
  }

  lemma WelcomeIff(config: Countable, m: Message)
    requires Constructible(m)
    ensures Dispatchable(config, Received(m)) <==> Welcome(config, m)
    ensures DispatchOf(config, Received(m)) == Handled <==> Welcome(config, m)
  {
    hide EncodeHeader, Checksum, Decodes, DispatchOf;
    HandledIff(config, Received(m));
  }

  /** Why the loop ends on a message that is not welcome. */
  function Objection(config: Countable, m: Message): Why
    requires Constructible(m) && !Welcome(config, m)
  {
    hide *;
    WelcomeIff(config, m);
    DispatchOf(config, Received(m)).why
  }

  /** The reason, as the sender can tell: ERROR (3) and SENSOR_DATA (6) throw, and a MODULE_CONTROL (7) fails the
      assertion or reads outside as its body says. */
  lemma ObjectionOf(config: Countable, m: Message)
    requires Constructible(m) && !Welcome(config, m)
    ensures m.header.typ == 3 || m.header.typ == 6 || m.header.typ == 7
    ensures Objection(config, m)
      == if m.header.typ != 7 then Thrown else if Asserts(config, EffectiveBody(m)) then AssertFailed else OutOfRange
  {
    hide DispatchOf, Decodes, Asserts, EncodeHeader, Checksum;
    DispatchReasons(config, Received(m));
    WelcomeIff(config, m);
  }

  /** How many messages at the head of a list are welcome. */
  function Handling(config: Configuration, ms: seq<Message>): (k: nat)
    ensures k <= |ms| && (forall i :: 0 <= i < k ==> Welcome(config, ms[i]))
    ensures k < |ms| ==> !Welcome(config, ms[k])
  {
    if ms == [] || !Welcome(config, ms[0]) then 0 else 1 + Handling(config, ms[1..])
  }

  lemma {:induction false} WireIsFrames(config: Countable, ms: seq<Message>, capacity: nat)
    requires Sendable(ms) && Handling(config, ms) == |ms|
    ensures AllAccepted(config, ReceivedAll(ms), capacity)
    ensures (forall m :: m in ReceivedAll(ms) ==> m.header.typ < TYPE_COUNT) && Frames(ReceivedAll(ms)) == Wire(ms)
    decreases |ms|
  {
    hide Framed, Frame, Received, WireForm, Constructible, Welcome, Dispatchable;
    if ms != [] {
      WelcomeIff(config, ms[0]);
      ReceivedIsFramed(ms[0], capacity);
      FramedType(Received(ms[0]), capacity);
      WireIsFrames(config, ms[1..], Grow(capacity, Received(ms[0]).header));
      assert ReceivedAll(ms)[1..] == ReceivedAll(ms[1..]);
    }
  }

  lemma {:induction false} WireSplit(ms: seq<Message>, k: nat)
    requires Sendable(ms) && k <= |ms|
    ensures Wire(ms) == Wire(ms[..k]) + Wire(ms[k..])
    decreases k
  {
    hide WireForm, Constructible;
    if k == 0 {
      assert ms[k..] == ms && Wire(ms[..k]) + Wire(ms) == Wire(ms);
    } else {
      WireSplit(ms[1..], k - 1);
      assert ms[1..][k - 1..] == ms[k..] && ms[1..][..k - 1] == ms[..k][1..];
      Regroup(WireForm(ms[0]), Wire(ms[..k][1..]), Wire(ms[k..]));
    }
  }

  lemma {:induction false} HandlingOfPrefix(config: Configuration, ms: seq<Message>)
    ensures var k := Handling(config, ms); Handling(config, ms[..k]) == k
    decreases |ms|
  {
    hide Welcome;
    var k := Handling(config, ms);
    if k > 0 {
      HandlingOfPrefix(config, ms[1..]);
      assert ms[..k][1..] == ms[1..][..k - 1];
    }
  }

  /** When a stream starts with messages that are all handled and goes on with bytes on which the next
      turn stops, exactly those messages are dispatched. */
  lemma StopAfterWire(config: Countable, ms: seq<Message>, bad: seq<byte>, why: Why)
    requires Sendable(ms) && Handling(config, ms) == |ms|
    requires forall c :: Next(config, bad, c) == Stopped(why)
    ensures var r := Receive(config, Wire(ms) + bad, BUFSIZ); r.messages == ReceivedAll(ms) && r.why == why && r.rest == bad
  {
    hide Frames, Wire, ReceivedAll, AllAccepted, Next, Handling;
    WireIsFrames(config, ms, BUFSIZ);
    ReceiveFrames(config, ReceivedAll(ms), bad, BUFSIZ);
    var c :| var after := Receive(config, bad, c);
      Receive(config, Wire(ms) + bad, BUFSIZ) == after.(messages := ReceivedAll(ms) + after.messages);
    assert Next(config, bad, c) == Stopped(why);
  }

  lemma NextOnUnhandled(config: Countable, m: Message, tail: seq<byte>, capacity: nat)
    requires Constructible(m) && !Welcome(config, m)
    ensures Next(config, WireForm(m) + tail, capacity) == Stopped(Objection(config, m))
  {
    hide Cut, Frame, Framed, DispatchOf, Dispatchable, Welcome, WireForm, Received;
    WelcomeIff(config, m);
    ReceivedIsFramed(m, capacity);
    FramedType(Received(m), capacity);
    CutFrame(Received(m), tail, capacity);
  }

  /** Messages followed by bytes on which the loop stops: exactly the messages before the first that is not
      welcome are dispatched, in order, and everything from that one on is left. */
  lemma StreamThenStop(config: Countable, ms: seq<Message>, bad: seq<byte>, why: Why)
    requires Sendable(ms) && forall c :: Next(config, bad, c) == Stopped(why)
    ensures var r := Receive(config, Wire(ms) + bad, BUFSIZ); var k := Handling(config, ms);
      && r.messages == ReceivedAll(ms[..k]) && r.rest == Wire(ms[k..]) + bad
      && r.why == (if k == |ms| then why else Objection(config, ms[k]))
  {
    hide Constructible, Objection, Welcome, Next, ReceivedAll, WireForm;
    var k := Handling(config, ms);
    HandlingOfPrefix(config, ms);
    WireSplit(ms, k);
    Regroup(Wire(ms[..k]), Wire(ms[k..]), bad);
    if k == |ms| {
      assert Wire(ms[k..]) == [] && [] + bad == bad;
      StopAfterWire(config, ms[..k], bad, why);
    } else {
      var why' := Objection(config, ms[k]);
      Regroup(WireForm(ms[k]), Wire(ms[k..][1..]), bad);
      forall c ensures Next(config, Wire(ms[k..]) + bad, c) == Stopped(why') {
        NextOnUnhandled(config, ms[k], Wire(ms[k..][1..]) + bad, c);
      }
      StopAfterWire(config, ms[..k], Wire(ms[k..]) + bad, why');
    }
  }

  /** Of any list of messages that a peer can send, exactly those before the first that is not welcome here
      are dispatched, in order, and the bytes from that one on are left. So the whole list is dispatched, with
      nothing left over, if and only if every one of its messages is welcome: which the sender can tell. */
  lemma StreamFraming(config: Countable, ms: seq<Message>)
    requires Sendable(ms)
    ensures var r := Receive(config, Wire(ms), BUFSIZ); var k := Handling(config, ms);
      && r.messages == ReceivedAll(ms[..k]) && r.rest == Wire(ms[k..])
      && r.why == (if k == |ms| then EndOfStream else Objection(config, ms[k]))
      && (r.messages == ReceivedAll(ms) && r.rest == []
          <==> forall i :: 0 <= i < |ms| ==> Welcome(config, ms[i]))
  {
    hide Constructible, Objection, Welcome, Next, ReceivedAll, WireForm;
    forall c ensures Next(config, [], c) == Stopped(EndOfStream) { NextOnNothing(config, c); }
    StreamThenStop(config, ms, [], EndOfStream);
    var k := Handling(config, ms);
    assert Wire(ms) + [] == Wire(ms) && Wire(ms[k..]) + [] == Wire(ms[k..]);
    assert k == |ms| ==> ms[..k] == ms;
  }

  lemma NextOnNothing(config: Countable, capacity: nat)
    ensures Next(config, [], capacity) == Stopped(EndOfStream)
  {}

  lemma NextTakesBytes(config: Countable, s: seq<byte>, capacity: nat)
    requires Next(config, s, capacity).Took?
    ensures |Next(config, s, capacity).rest| < |s|
  {
    hide DispatchOf;
  }

  lemma NextOnDamage(config: Countable, m: Message, damaged: seq<byte>, k: nat, tail: seq<byte>, capacity: nat)
    requires Constructible(m) && Protected(m.header.typ)
    requires damaged != WireForm(m)[HEADER_SIZE..] && AgreeOutside(WireForm(m)[HEADER_SIZE..], damaged, k, 32)
    ensures Next(config, WireForm(m)[..HEADER_SIZE] + damaged + tail, capacity) == Stopped(BadChecksum)
  {
    LengthField(m);
    ProtectedIff(m.header.typ);
    EncodeGivesWireForm(m);
    ChecksummedForm(m);
    HeaderRoundTrip(m.header);
    FrameProtection(m, damaged, k, []);
    hide EncodeHeader, Messages.DecodeHeader, DecodeMessage, WireForm, Constructible, AgreeOutside, ChecksumOk, EffectiveBody,
      Cut;
    var front := WireForm(m)[..HEADER_SIZE];
    assert front + damaged + [] == front + damaged;
    CutBadFrame(front, damaged, m.header, tail, capacity);
  }

  lemma CutBadFrame(front: seq<byte>, payload: seq<byte>, h: Header, tail: seq<byte>, capacity: nat)
    requires |front| == HEADER_SIZE && Messages.DecodeHeader(front) == h && h.typ < TYPE_COUNT
    requires Info(h.typ).hasBody && Info(h.typ).hasChecksum && |payload| == h.length
    requires var r := DecodeMessage(front + payload); r.Done? && !ChecksumOk(r.value.0)
    ensures Cut(front + payload + tail, capacity) == Stopped(BadChecksum)
  {
    hide Messages.DecodeHeader, DecodeMessage, ChecksumOk;
    Split(front + payload, tail);
    assert (front + payload + tail)[..HEADER_SIZE] == front;
  }

  /** A frame damaged within any 32 consecutive bits of its body and checksum is not dispatched, and
      neither is anything behind it; what was sent before it fares as it does on its own. */
  lemma DamageStopsReception(config: Countable, ms: seq<Message>, m: Message, damaged: seq<byte>, k: nat, tail: seq<byte>)
    requires Sendable(ms) && Constructible(m) && Protected(m.header.typ)
    requires damaged != WireForm(m)[HEADER_SIZE..] && AgreeOutside(WireForm(m)[HEADER_SIZE..], damaged, k, 32)
    ensures var r := Receive(config, Wire(ms) + (WireForm(m)[..HEADER_SIZE] + damaged + tail), BUFSIZ);
      var alone := Receive(config, Wire(ms), BUFSIZ);
      r.messages == alone.messages && r.why == (if alone.rest == [] then BadChecksum else alone.why)
  {
    hide Wire, ReceivedAll, WireForm, AgreeOutside, Next, Constructible, Handling;
    var bad := WireForm(m)[..HEADER_SIZE] + damaged + tail;
    forall c ensures Next(config, bad, c) == Stopped(BadChecksum) { NextOnDamage(config, m, damaged, k, tail, c); }
    StreamThenStop(config, ms, bad, BadChecksum);
    StreamFraming(config, ms);
    WireNonempty(ms[Handling(config, ms)..]);
  }

  lemma WireNonempty(ms: seq<Message>)
    requires Sendable(ms)
    ensures Wire(ms) == [] <==> ms == []
  {
    hide Constructible;
  }

  // ----- Arrival in pieces -----

  lemma CutWithMore(a: seq<byte>, b: seq<byte>, capacity: nat)
    ensures match Cut(a, capacity)
      case Took(m, rest, c) => Cut(a + b, capacity) == Took(m, rest + b, c)
      case Stopped(why) => why == EndOfStream || Cut(a + b, capacity) == Stopped(why)
  {
    if Cut(a, capacity).Took? {
      var t := Cut(a, capacity);
      CutGivesFrame(a, capacity);
      hide Cut, Frame, Framed;
      FramedType(t.m, capacity);
      Regroup(Frame(t.m), t.rest, b);
      CutFrame(t.m, t.rest + b, capacity);
    } else {
      hide DecodeMessage, Messages.DecodeHeader, ChecksumOk, Grow;
      if |a| >= HEADER_SIZE {
        assert (a + b)[..HEADER_SIZE] == a[..HEADER_SIZE];
        var h := Messages.DecodeHeader(a[..HEADER_SIZE]);
        if h.typ < TYPE_COUNT && |a| >= FrameLength(h) {
          assert (a + b)[..FrameLength(h)] == a[..FrameLength(h)];
        }
      }
    }
  }

  lemma NextWithMore(config: Countable, a: seq<byte>, b: seq<byte>, capacity: nat)
    ensures match Next(config, a, capacity)
      case Took(m, rest, c) => Next(config, a + b, capacity) == Took(m, rest + b, c)
      case Stopped(why) => why == EndOfStream || Next(config, a + b, capacity) == Stopped(why)
  {
    hide Cut, DispatchOf;
    CutWithMore(a, b, capacity);
  }

  /** It makes no difference how the bytes arrive: what a first piece leaves unread is read with the
      next, and a loop that stopped for any other reason reads no further. */
  lemma {:induction false} ArrivalInPieces(config: Countable, a: seq<byte>, b: seq<byte>, capacity: nat)
    ensures var first := Receive(config, a, capacity);
      if first.why == EndOfStream then
        var second := Receive(config, first.rest + b, first.capacity);
        Receive(config, a + b, capacity) == second.(messages := first.messages + second.messages)
      else
        Receive(config, a + b, capacity) == first.(rest := first.rest + b)
    decreases |a|
  {
    NextWithMore(config, a, b, capacity);
    match Next(config, a, capacity)
    case Stopped(why) =>
      hide Next;
      if why == EndOfStream {
        var second := Receive(config, a + b, capacity);
        assert [] + second.messages == second.messages;
      }
    case Took(m, rest, c) =>
      NextTakesBytes(config, a, capacity);
      ArrivalInPieces(config, rest, b, c);
      hide Next;
      var first := Receive(config, rest, c);
      var second := Receive(config, first.rest + b, first.capacity);
      Regroup([m], first.messages, second.messages);
  }
}
