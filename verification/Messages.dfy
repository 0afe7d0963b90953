/** The message layer (src/comms/Message.cc): a three-byte header, a body, and a CRC-32 over both
    for the types that carry one. */
module Messages {
  import opened Bytes
  import opened Register
  import opened Crc32
  import opened ErrorDetection
  import opened Outcomes

  const HANDSHAKE := 0
  const HANDSHAKE_RESPONSE := 1
  const SYNC := 2
  const ERROR := 3
  const CONFIGURATION_QUERY := 4
  const CONFIGURATION_RESPONSE := 5
  const SENSOR_DATA := 6
  const MODULE_CONTROL := 7
  const TYPE_COUNT := 8

  datatype Body = NoBody | Data(bytes: seq<byte>)

  datatype TypeInfo = TypeInfo(hasBody: bool, hasChecksum: bool, fixed: Body)

  /** The letters of the fixed SYNC body. */
  const SYNC_BODY: seq<byte> := [0x53, 0x59, 0x4e, 0x43]

  function Info(t: nat): TypeInfo
    requires t < TYPE_COUNT
  {
    if t == HANDSHAKE || t == HANDSHAKE_RESPONSE then TypeInfo(true, false, NoBody)
    else if t == SYNC then TypeInfo(true, false, Data(SYNC_BODY))
    else if t == CONFIGURATION_QUERY then TypeInfo(false, false, NoBody)
    else TypeInfo(true, true, NoBody)
  }

  datatype Header = Header(length: nat, typ: nat)

  datatype Message = Message(header: Header, body: Body, checksum: Word)

  const HEADER_SIZE := 3
  const CHECKSUM_SIZE := 4

  function ChecksumSize(t: nat): nat
    requires t < TYPE_COUNT
  {
    if Info(t).hasChecksum then CHECKSUM_SIZE else 0
  }

  function EncodeHeader(h: Header): (r: seq<byte>)
    ensures |r| == HEADER_SIZE
  {
    [ToByte(h.length % 256), ToByte(h.length / 256), ToByte(h.typ)]
  }

  function DecodeHeader(s: seq<byte>): (h: Header)
    requires |s| == HEADER_SIZE
    ensures h.length < 65536 && h.typ < 256
  {
    Header(ByteValue(s[0]) + 256 * ByteValue(s[1]), ByteValue(s[2]))
  }

  lemma HeaderRoundTrip(h: Header)
    requires h.length < 65536 && h.typ < 256
    ensures DecodeHeader(EncodeHeader(h)) == h
  {
    hide ToByte, ByteValue;
    ByteRoundTrip(h.length % 256);
    ByteRoundTrip(h.length / 256);
    ByteRoundTrip(h.typ);
  }

  /** The body that goes on the wire: the explicit one, or the type's fixed one. */
  function EffectiveBody(m: Message): seq<byte>
    requires m.header.typ < TYPE_COUNT
  {
    if !Info(m.header.typ).hasBody then []
    else if m.body.Data? then m.body.bytes
    else if Info(m.header.typ).fixed.Data? then Info(m.header.typ).fixed.bytes
    else []
  }

  function EncodedSize(m: Message): Outcome<nat> {
    if m.header.typ >= TYPE_COUNT then AssertionFailed
    else if Info(m.header.typ).fixed.NoBody? && m.body.NoBody? then Done(HEADER_SIZE + m.header.length)
    else Done(HEADER_SIZE + |EffectiveBody(m)| + ChecksumSize(m.header.typ))
  }

  /** The checksum covers the header as encoded and the explicit body; without one there is no string
      to measure. */
  function ComputeChecksum(m: Message): Outcome<Word> {
    if m.header.typ >= TYPE_COUNT then AssertionFailed
    else if !Info(m.header.typ).hasChecksum then Done(0)
    else if m.body.NoBody? then OutOfBounds
    else Done(Checksum(EncodeHeader(m.header) + m.body.bytes))
  }

  /** `Message::encode` into a buffer of sufficient size: an explicit body on a type with a fixed one,
      or no body where one is needed, fails an assertion. */
  function EncodeMessage(m: Message): Outcome<seq<byte>> {
    if m.header.typ >= TYPE_COUNT then AssertionFailed
    else
      var info := Info(m.header.typ);
      if info.hasBody && m.body.Data? && info.fixed.Data? then AssertionFailed
      else if info.hasBody && m.body.NoBody? && info.fixed.NoBody? then AssertionFailed
      else
        var front := EncodeHeader(m.header) + EffectiveBody(m);
        if !info.hasChecksum then Done(front)
        else
          match ComputeChecksum(m)
          case Done(c) => Done(front + LE32(c))
          case AssertionFailed => AssertionFailed
          case OutOfBounds => OutOfBounds
  }

  function ReadBody(n: nat, s: seq<byte>): (seq<byte>, seq<byte>) {
    if |s| < n then (Fill(n), s) else (s[..n], s[n..])
  }

  function ReadChecksum(s: seq<byte>): (Word, seq<byte>) {
    if |s| < CHECKSUM_SIZE then (0, s) else (Join(s[0], s[1], s[2], s[3]), s[CHECKSUM_SIZE..])
  }

  /** `Message::decode`: failed reads leave zeros; a length too small for the checksum asks for a
      body buffer of nearly the whole address space, which fails an assertion. */
  function DecodeMessage(s: seq<byte>): (r: Outcome<(Message, seq<byte>)>)
    ensures r.Done? ==> r.value.0.header.typ < TYPE_COUNT
  {
    var header := if |s| < HEADER_SIZE then Header(0, HANDSHAKE) else DecodeHeader(s[..HEADER_SIZE]);
    var s1 := if |s| < HEADER_SIZE then s else s[HEADER_SIZE..];
    if header.typ >= TYPE_COUNT then AssertionFailed
    else
      var info := Info(header.typ);
      if !info.hasBody then Done((Message(header, NoBody, 0), s1))
      else if header.length < ChecksumSize(header.typ) then AssertionFailed
      else
        var (body, s2) := ReadBody(header.length - ChecksumSize(header.typ), s1);
        var (checksum, s3) := if info.hasChecksum then ReadChecksum(s2) else (0, s2);
        Done((Message(header, Data(body), checksum), s3))
  }

  predicate ChecksumOk(m: Message)
    requires m.header.typ < TYPE_COUNT
  {
    Info(m.header.typ).hasChecksum ==> ComputeChecksum(m) == Done(m.checksum)
  }

  // ----- Construction -----

  /** `Message(MessageType)`. */
  function OfType(t: nat): Message
    requires t < TYPE_COUNT
  {
    var m := Message(Header(0, t), NoBody, 0);
    m.(header := Header(EncodedSize(m).value - HEADER_SIZE, t))
  }

  /** The body-wrapping constructor; the length field keeps 16 bits. */
  function OfBody(t: nat, body: seq<byte>): Message
    requires t < TYPE_COUNT
  {
    var m := Message(Header((|body| + ChecksumSize(t)) % 65536, t), Data(body), 0);
    m.(checksum := ComputeChecksum(m).value)
  }

  predicate Wraps(t: nat) { t < TYPE_COUNT && t != SYNC && t != CONFIGURATION_QUERY }

  /** What a program can send: the two bodiless constructors, and any body that fits the length field. */
  predicate Constructible(m: Message) {
    || m == OfType(SYNC) || m == OfType(CONFIGURATION_QUERY)
    || (Wraps(m.header.typ) && m.body.Data? && |m.body.bytes| + ChecksumSize(m.header.typ) < 65536
        && m == OfBody(m.header.typ, m.body.bytes))
  }

  /** The length field counts the body and the checksum. */
  lemma LengthField(m: Message)
    requires Constructible(m)
    ensures m.header.typ < TYPE_COUNT && m.header.length < 65536
    ensures m.header.length == |EffectiveBody(m)| + ChecksumSize(m.header.typ)
    ensures EncodedSize(m) == Done(HEADER_SIZE + m.header.length)
  {
    hide Checksum, EncodeHeader;
  }

  /** The bytes of a constructible message. */
  function WireForm(m: Message): (r: seq<byte>)
    requires Constructible(m)
    ensures |r| >= HEADER_SIZE
  {
    var front := EncodeHeader(m.header) + EffectiveBody(m);
    if Info(m.header.typ).hasChecksum then front + LE32(Checksum(front)) else front
  }

  lemma EncodeGivesWireForm(m: Message)
    requires Constructible(m)
    ensures EncodeMessage(m) == Done(WireForm(m)) && |WireForm(m)| == HEADER_SIZE + m.header.length
  {
    hide Checksum, LE32, EncodeHeader;
  }

  /** The message as the receiver holds it, always with an explicit body. */
  function Received(m: Message): Message
    requires Constructible(m)
  {
    var info := Info(m.header.typ);
    Message(m.header, if info.hasBody then Data(EffectiveBody(m)) else NoBody,
            if info.hasChecksum then Checksum(EncodeHeader(m.header) + EffectiveBody(m)) else 0)
  }

  function Trailer(t: nat, c: Word): seq<byte>
    requires t < TYPE_COUNT
  {
    if Info(t).hasChecksum then LE32(c) else []
  }

  lemma TrailerRead(t: nat, c: Word, rest: seq<byte>)
    requires t < TYPE_COUNT && Info(t).hasChecksum
    ensures ReadChecksum(Trailer(t, c) + rest) == (c, rest)
  {
    hide LE32, Join;
    JoinOfLE32(c);
    Split(LE32(c), rest);
  }

  /** A frame whose length field is right is taken apart exactly. */
  lemma DecodeFrame(h: Header, body: seq<byte>, c: Word, rest: seq<byte>)
    requires h.typ < TYPE_COUNT && h.length < 65536 && Info(h.typ).hasBody
    requires h.length == |body| + ChecksumSize(h.typ)
    ensures DecodeMessage(EncodeHeader(h) + (body + (Trailer(h.typ, c) + rest)))
      == Done((Message(h, Data(body), if Info(h.typ).hasChecksum then c else 0), rest))
  {
    HeaderRoundTrip(h);
    hide EncodeHeader, DecodeHeader, Info, ReadChecksum, Trailer;
    var after := Trailer(h.typ, c) + rest;
    Split(EncodeHeader(h), body + after);
    Split(body, after);
    if Info(h.typ).hasChecksum { TrailerRead(h.typ, c, rest); } else { NoTrailer(h.typ, c, rest); }
  }

  lemma NoTrailer(t: nat, c: Word, rest: seq<byte>)
    requires t < TYPE_COUNT && !Info(t).hasChecksum
    ensures Trailer(t, c) + rest == rest && Trailer(t, c) == []
  {}

  lemma WireFormParts(m: Message, rest: seq<byte>)
    requires Constructible(m)
    ensures var c := Checksum(EncodeHeader(m.header) + EffectiveBody(m));
      WireForm(m) + rest == EncodeHeader(m.header) + (EffectiveBody(m) + (Trailer(m.header.typ, c) + rest))
  {
    hide EncodeHeader, Checksum, LE32;
    var h, body := EncodeHeader(m.header), EffectiveBody(m);
    var tail := Trailer(m.header.typ, Checksum(h + body));
    assert h + body + [] == h + body;
    assert WireForm(m) == h + body + tail;
    Regroup(h + body, tail, rest);
    Regroup(h, body, tail + rest);
  }

  lemma WireFormOfBare(m: Message, rest: seq<byte>)
    requires Constructible(m) && !Info(m.header.typ).hasBody
    ensures WireForm(m) == EncodeHeader(m.header)
    ensures DecodeMessage(WireForm(m) + rest) == Done((Message(m.header, NoBody, 0), rest))
  {
    HeaderRoundTrip(m.header);
    hide EncodeHeader, DecodeHeader;
    assert WireForm(m) == EncodeHeader(m.header) + [];
    Split(EncodeHeader(m.header), rest);
  }

  /** Decoding a sent message gives its header, effective body and a checksum that holds, and stops
      where the message ends. */
  lemma MessageRoundTrip(m: Message, rest: seq<byte>)
    requires Constructible(m)
    ensures DecodeMessage(WireForm(m) + rest) == Done((Received(m), rest))
    ensures ChecksumOk(Received(m)) && EffectiveBody(Received(m)) == EffectiveBody(m)
  {
    LengthField(m);
    hide EncodeHeader, Checksum, LE32, DecodeMessage, WireForm, Trailer;
    if Info(m.header.typ).hasBody {
      WireFormParts(m, rest);
      DecodeFrame(m.header, EffectiveBody(m), Checksum(EncodeHeader(m.header) + EffectiveBody(m)), rest);
    } else {
      WireFormOfBare(m, rest);
    }
  }

  /** A received SYNC carries its body explicitly and can no longer be encoded; every other received
      message encodes to the bytes it came from. */
  lemma ReencodeReceived(m: Message)
    requires Constructible(m)
    ensures EncodeMessage(Received(m)) == EncodeMessage(m) <==> m.header.typ != SYNC
    ensures m.header.typ == SYNC ==> EncodeMessage(Received(m)) == AssertionFailed
  {
    EncodeGivesWireForm(m);
    hide EncodeHeader, Checksum, LE32;
  }

  /** The 16-bit length field is exact as far as it goes: a wrapped body is cut where it ends exactly
      when body and checksum fit the field. */
  lemma LengthFieldLimit(t: nat, body: seq<byte>)
    requires Wraps(t)
    ensures var r := DecodeMessage(EncodeMessage(OfBody(t, body)).value);
      (r.Done? && r.value.1 == []) <==> |body| + ChecksumSize(t) < 65536
  {
    var m := OfBody(t, body);
    if |body| + ChecksumSize(t) < 65536 {
      WrappedBodyIsConstructible(t, body);
      MessageRoundTrip(m, []);
      EncodeGivesWireForm(m);
      assert WireForm(m) + [] == WireForm(m);
    } else {
      HeaderRoundTrip(m.header);
      hide EncodeHeader, DecodeHeader, Checksum, LE32, ToByte, ByteValue;
      var h, tail := EncodeHeader(m.header), Trailer(t, ComputeChecksum(m).value);
      assert h + body + [] == h + body;
      assert EncodeMessage(m) == Done(h + body + tail);
      Regroup(h, body, tail);
      Split(h, body + tail);
      DecodeLength(h + body + tail, m.header);
    }
  }

  lemma WrappedBodyIsConstructible(t: nat, body: seq<byte>)
    requires Wraps(t) && |body| + ChecksumSize(t) < 65536
    ensures Constructible(OfBody(t, body))
  {
    hide Checksum, EncodeHeader;
  }

  /** When all the bytes are there, decoding takes the header and what its length field says. */
  lemma DecodeLength(s: seq<byte>, h: Header)
    requires |s| >= HEADER_SIZE && DecodeHeader(s[..HEADER_SIZE]) == h && Wraps(h.typ)
    requires HEADER_SIZE + h.length <= |s|
    ensures DecodeMessage(s).Done? ==> |DecodeMessage(s).value.1| == |s| - HEADER_SIZE - h.length
  {
    hide DecodeHeader, Join;
  }

  // ----- The wire, byte by byte -----

  /** The types that carry a checksum: ERROR, CONFIGURATION_RESPONSE, SENSOR_DATA and MODULE_CONTROL. */
  predicate Protected(t: nat) { t == 3 || t == 5 || t == 6 || t == 7 }

  lemma ProtectedIff(t: nat)
    requires t < TYPE_COUNT
    ensures TYPE_COUNT == 8 && (Protected(t) <==> Info(t).hasChecksum)
    ensures t == 4 <==> !Info(t).hasBody
  {}

  /** A checksum goes out low byte first. */
  lemma ChecksumBytes(c: Word)
    ensures LE32(c) == [(c & 0xff) as byte, ((c >> 8) & 0xff) as byte, ((c >> 16) & 0xff) as byte, (c >> 24) as byte]
  {}

  /** What a wrapped body looks like on the wire: its length with the checksum's, low byte first, the type
      number, the body, and for the four protected types the CRC-32 of all that; a handshake and its response,
      types 0 and 1, have none. */
  lemma WrappedBytes(t: nat, body: seq<byte>)
    ensures t == 0 || t == 1 ==>
      EncodeMessage(OfBody(t, body)) == Done([ToByte(|body| % 256), ToByte(|body| % 65536 / 256), ToByte(t)] + body)
    ensures Protected(t) ==>
      var front := [ToByte((|body| + 4) % 256), ToByte((|body| + 4) % 65536 / 256), ToByte(t)] + body;
      EncodeMessage(OfBody(t, body)) == Done(front + LE32(Checksum(front)))
  {
    hide Checksum, LE32, ToByte;
    if t < TYPE_COUNT {
      ProtectedIff(t);
      var h := Header((|body| + ChecksumSize(t)) % 65536, t);
      assert EncodeHeader(h) == [ToByte((|body| + ChecksumSize(t)) % 65536 % 256), ToByte((|body| + ChecksumSize(t)) % 65536 / 256), ToByte(t)];
      LowByteOfLength(|body| + ChecksumSize(t));
      hide EncodeHeader;
    }
  }

  lemma LowByteOfLength(n: nat)
    ensures n % 65536 % 256 == n % 256
  {}

  /** Which messages cannot be encoded: of a type that there is not, a SYNC (2) with a body of its own, or of a
      type that needs a body, which is any but SYNC and CONFIGURATION_QUERY (4), without one. */
  lemma EncodingFails(m: Message)
    ensures var t := m.header.typ;
      EncodeMessage(m) == AssertionFailed <==> t >= 8 || (t == 2 && m.body.Data?) || (t != 2 && t != 4 && m.body.NoBody?)
    ensures EncodeMessage(m) != OutOfBounds
    ensures ComputeChecksum(m) == AssertionFailed <==> m.header.typ >= 8
    ensures ComputeChecksum(m) == OutOfBounds <==> Protected(m.header.typ) && m.body.NoBody?
    ensures m.header.typ < 8 && !Protected(m.header.typ) ==> ComputeChecksum(m) == Done(0)
  {
    hide Checksum, EncodeHeader, LE32;
  }

  /** The announced size: three bytes, and what the length field says when there is no body to measure, or else
      the body and four bytes more for a protected type. */
  lemma AnnouncedSize(m: Message)
    ensures EncodedSize(m) == AssertionFailed <==> m.header.typ >= 8
    ensures var t := m.header.typ; t < 8 ==>
      EncodedSize(m) == Done(3 + if t == 4 then (if m.body.NoBody? then m.header.length else 0)
                                 else match m.body
                                      case NoBody => if t == 2 then 4 else m.header.length
                                      case Data(bytes) => |bytes| + if Protected(t) then 4 else 0)
  {
    hide EncodeHeader;
  }

  /** Which bytes fail to decode: a type that there is not, or a protected one with a length below four. Fewer
      than three bytes are no header, and read as a handshake without anything in it. */
  lemma DecodingFails(s: seq<byte>)
    ensures var length, t := if |s| < 3 then 0 else ByteValue(s[0]) + 256 * ByteValue(s[1]), if |s| < 3 then 0 else ByteValue(s[2]);
      && (DecodeMessage(s) == AssertionFailed <==> t >= 8 || (Protected(t) && length < 4))
      && DecodeMessage(s) != OutOfBounds
    ensures |s| < 3 ==> DecodeMessage(s) == Done((Message(Header(0, 0), Data([]), 0), s))
  {
    hide ByteValue, Join;
  }

  /** A body that is cut short is read as zeros, and its bytes are taken for the checksum if there are four. */
  lemma CutShort(t: nat, length: nat, s: seq<byte>)
    requires Protected(t) && 4 <= length < 65536 && |s| < length - 4
    ensures DecodeMessage(EncodeHeader(Header(length, t)) + s)
      == Done((Message(Header(length, t), Data(Fill(length - 4)), if |s| < 4 then 0 else Join(s[0], s[1], s[2], s[3])),
               if |s| < 4 then s else s[4..]))
  {
    HeaderRoundTrip(Header(length, t));
    ProtectedIff(t);
    hide EncodeHeader, DecodeHeader, Join, Info;
    Split(EncodeHeader(Header(length, t)), s);
  }

  /** The two messages without a body of their own, whole. */
  lemma BareBytes()
    ensures EncodeMessage(OfType(2)) == Done([0x04, 0x00, 0x02, 0x53, 0x59, 0x4e, 0x43])
    ensures EncodeMessage(OfType(4)) == Done([0x00, 0x00, 0x04])
  {
    LiteralBytes();
    hide ToByte;
    assert OfType(2) == Message(Header(4, 2), NoBody, 0) && OfType(4) == Message(Header(0, 4), NoBody, 0);
    assert EncodeHeader(Header(4, 2)) == [0x04, 0x00, 0x02] && EncodeHeader(Header(0, 4)) == [0x00, 0x00, 0x04];
    assert [0x04, 0x00, 0x02] + SYNC_BODY == [0x04, 0x00, 0x02, 0x53, 0x59, 0x4e, 0x43];
    assert EncodeHeader(Header(0, 4)) + [] == EncodeHeader(Header(0, 4));
  }

  lemma LiteralBytes()
    ensures ToByte(0) == 0 && ToByte(2) == 2 && ToByte(4) == 4
  {}

  // ----- Frame protection -----

  lemma BitsConcat(a: seq<byte>, b: seq<byte>)
    ensures Bits(a + b) == Bits(a) + Bits(b)
    decreases a
  {
    hide ByteBits;
    if a == [] {
      assert a + b == b;
    } else {
      assert (a + b)[1..] == a[1..] + b;
      BitsConcat(a[1..], b);
    }
  }

  lemma AgreeUnderPrefix(p: seq<byte>, a: seq<byte>, b: seq<byte>, k: nat, n: nat)
    requires AgreeOutside(a, b, k, n)
    ensures AgreeOutside(p + a, p + b, 8 * |p| + k, n)
  {
    hide Bits;
    BitsConcat(p, a);
    BitsConcat(p, b);
  }

  lemma ChecksummedForm(m: Message)
    requires Constructible(m) && Info(m.header.typ).hasChecksum
    ensures WireForm(m)[..HEADER_SIZE] == EncodeHeader(m.header)
    ensures var front := EncodeHeader(m.header) + EffectiveBody(m);
      WireForm(m)[HEADER_SIZE..] == EffectiveBody(m) + LE32(Checksum(front))
  {
    hide EncodeHeader, Checksum, LE32;
    var h, body := EncodeHeader(m.header), EffectiveBody(m);
    Regroup(h, body, LE32(Checksum(h + body)));
    Split(h, body + LE32(Checksum(h + body)));
  }

  /** A damaged body and trailer do not fit each other. */
  lemma DamageDetected(h: seq<byte>, body: seq<byte>, damaged: seq<byte>, k: nat)
    requires damaged != body + LE32(Checksum(h + body))
    requires AgreeOutside(body + LE32(Checksum(h + body)), damaged, k, 32)
    ensures |damaged| == |body| + 4
    ensures var t := damaged[|body|..]; Checksum(h + damaged[..|body|]) != Join(t[0], t[1], t[2], t[3])
  {
    hide Checksum, Join, LE32, Bits;
    var payload, n := body + LE32(Checksum(h + body)), |body|;
    var body', t := damaged[..n], damaged[n..];
    LE32OfJoin(t[0], t[1], t[2], t[3]);
    var c' := Join(t[0], t[1], t[2], t[3]);
    assert t == LE32(c') && damaged == body' + t;
    AgreeUnderPrefix(h, payload, damaged, k, 32);
    Regroup(h, body, LE32(Checksum(h + body)));
    Regroup(h, body', t);
    Split(h, payload);
    Split(h, damaged);
    TrailerDetectsBurst(h + body, h + body', c', 8 * |h| + k);
  }

  /** Any change to the body and checksum of a checksummed message that stays within 32 consecutive
      bits is caught by the receiver. */
  lemma FrameProtection(m: Message, damaged: seq<byte>, k: nat, rest: seq<byte>)
    requires Constructible(m) && Protected(m.header.typ)
    requires damaged != WireForm(m)[HEADER_SIZE..]
    requires AgreeOutside(WireForm(m)[HEADER_SIZE..], damaged, k, 32)
    ensures var r := DecodeMessage(WireForm(m)[..HEADER_SIZE] + damaged + rest);
      r.Done? && r.value.1 == rest && r.value.0.header == m.header && !ChecksumOk(r.value.0)
  {
    LengthField(m);
    ProtectedIff(m.header.typ);
    ChecksummedForm(m);
    hide EncodeHeader, Checksum, Join, LE32, AgreeOutside, DecodeMessage, WireForm, Constructible, Info, EffectiveBody, ChecksumOk,
      EncodedSize;
    DamageDetected(EncodeHeader(m.header), EffectiveBody(m), damaged, k);
    DecodeDamaged(m.header, damaged, rest);
    var n := |damaged| - 4;
    WrongChecksum(m.header, damaged[..n], Join(damaged[n], damaged[n + 1], damaged[n + 2], damaged[n + 3]));
  }

  lemma DecodeDamaged(h: Header, damaged: seq<byte>, rest: seq<byte>)
    requires h.typ < TYPE_COUNT && Info(h.typ).hasBody && Info(h.typ).hasChecksum
    requires CHECKSUM_SIZE <= |damaged| == h.length < 65536
    ensures var n := |damaged| - 4; var c := Join(damaged[n], damaged[n + 1], damaged[n + 2], damaged[n + 3]);
      DecodeMessage(EncodeHeader(h) + damaged + rest) == Done((Message(h, Data(damaged[..n]), c), rest))
  {
    hide EncodeHeader, Checksum, Join, LE32, DecodeMessage;
    var n := |damaged| - 4;
    var body, t := damaged[..n], damaged[n..];
    LE32OfJoin(t[0], t[1], t[2], t[3]);
    assert t == LE32(Join(t[0], t[1], t[2], t[3])) && damaged == body + t;
    Regroup(EncodeHeader(h), damaged, rest);
    Regroup(body, t, rest);
    DecodeFrame(h, body, Join(t[0], t[1], t[2], t[3]), rest);
  }

  lemma WrongChecksum(h: Header, body: seq<byte>, c: Word)
    requires h.typ < TYPE_COUNT && Info(h.typ).hasChecksum && Checksum(EncodeHeader(h) + body) != c
    ensures !ChecksumOk(Message(h, Data(body), c))
  {
    hide EncodeHeader, Checksum;
  }
}
