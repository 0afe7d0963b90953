/** Name strings, module inputs and sensors: a fixed header, the declaration's tail, then the
    name (include/crisp/comms/decl-defn-macros.hh). Failed reads are ignored, as in the source:
    what they would have filled keeps its initial value. */
module NamedRecords {
  import opened Bytes
  import Declarations

  type Decl = Declarations.Decl

  /** `Unfilled` is a name buffer that was allocated but whose bytes never arrived. */
  datatype Name = NoName | Text(chars: seq<byte>) | Unfilled

  /** The length field and the string agree; a zero length may go with no string or an empty one. */
  predicate GoodName(length: nat, name: Name) {
    length < 256 && if length == 0 then name == NoName || name == Text([]) else name.Text? && |name.chars| == length
  }

  function EncodeName(length: nat, name: Name): seq<byte> {
    if length > 0 && name.Text? then name.chars else []
  }

  function DecodeName(length: nat, s: seq<byte>): (Name, seq<byte>) {
    if length == 0 then (NoName, s)
    else if |s| < length then (Unfilled, s)
    else (Text(s[..length]), s[length..])
  }

  function CanonicalName(length: nat, name: Name): Name {
    if length == 0 then NoName else name
  }

  lemma NameRoundTrip(length: nat, name: Name, rest: seq<byte>)
    requires GoodName(length, name)
    ensures DecodeName(length, EncodeName(length, name) + rest) == (CanonicalName(length, name), rest)
  {
    Split(EncodeName(length, name), rest);
    if length == 0 { assert EncodeName(length, name) + rest == rest; }
  }

  predicate SameName(length: nat, a: Name, b: Name) {
    length == 0 || (a.Text? && b.Text? && a.chars == b.chars)
  }

  // ----- Module inputs -----

  datatype Input = Input(id: nat, nameLength: nat, decl: Decl, name: Name)

  predicate GoodInput(i: Input) {
    i.id < 256 && GoodName(i.nameLength, i.name) && Declarations.WellFormed(i.decl)
  }

  function InputHeader(i: Input): (r: seq<byte>)
    ensures |r| == 5
  {
    [ToByte(i.id), ToByte(i.nameLength)] + Declarations.EncodeHeader(i.decl)
  }

  function EncodeInput(i: Input): seq<byte> {
    InputHeader(i) + (Declarations.EncodeTail(i.decl) + EncodeName(i.nameLength, i.name))
  }

  function InputSize(i: Input): nat {
    5 + (i.nameLength + Declarations.TailSize(i.decl))
  }

  function DecodeInputHeader(s: seq<byte>): (Input, seq<byte>) {
    if |s| < 5 then (Input(0, 0, Declarations.BLANK, NoName), s)
    else (Input(ByteValue(s[0]), ByteValue(s[1]), Declarations.DecodeHeader(s[2..5]), NoName), s[5..])
  }

  function DecodeInput(s: seq<byte>): (Input, seq<byte>) {
    var (i, s1) := DecodeInputHeader(s);
    var (d, s2) := Declarations.DecodeTail(i.decl, s1);
    var (name, s3) := DecodeName(i.nameLength, s2);
    (i.(decl := d, name := name), s3)
  }

  function CanonicalInput(i: Input): Input {
    i.(decl := Declarations.Canonical(i.decl), name := CanonicalName(i.nameLength, i.name))
  }

  lemma InputHeaderRoundTrip(i: Input, rest: seq<byte>)
    requires i.id < 256 && i.nameLength < 256
    ensures DecodeInputHeader(InputHeader(i) + rest)
      == (i.(decl := Declarations.DecodeHeader(Declarations.EncodeHeader(i.decl)), name := NoName), rest)
  {
    hide ToByte, ByteValue, Declarations.EncodeHeader, Declarations.DecodeHeader;
    ByteRoundTrip(i.id);
    ByteRoundTrip(i.nameLength);
    var h := InputHeader(i);
    Split(h, rest);
    assert (h + rest)[2..5] == h[2..] == Declarations.EncodeHeader(i.decl);
  }

  /** Decoding an encoded input gives it back and stops where it ends. */
  lemma InputRoundTrip(i: Input, rest: seq<byte>)
    requires GoodInput(i)
    ensures DecodeInput(EncodeInput(i) + rest) == (CanonicalInput(i), rest)
    ensures |EncodeInput(i)| == InputSize(i)
  {
    hide Declarations.EncodeHeader, Declarations.DecodeHeader, Declarations.EncodeTail, Declarations.DecodeTail,
      Declarations.Canonical, InputHeader, DecodeInputHeader, EncodeName, DecodeName, CanonicalName, Declarations.TailSize;
    var tail, nm := Declarations.EncodeTail(i.decl), EncodeName(i.nameLength, i.name);
    InputHeaderRoundTrip(i, tail + (nm + rest));
    Regroup(tail, nm, rest);
    Regroup(InputHeader(i), tail + nm, rest);
    Declarations.TailRoundTrip(i.decl, nm + rest);
    NameRoundTrip(i.nameLength, i.name, rest);
    Declarations.TailLength(i.decl);
    NameLength(i.nameLength, i.name);
  }

  lemma NameLength(length: nat, name: Name)
    requires GoodName(length, name)
    ensures |EncodeName(length, name)| == length
  {}

  /** `ModuleInput::operator ==`. */
  predicate SameInput(a: Input, b: Input) {
    && a.id == b.id && a.nameLength == b.nameLength
    && Declarations.Same(a.decl, b.decl) && SameName(a.nameLength, a.name, b.name)
  }

  lemma CanonicalInputDetermines(a: Input, b: Input)
    requires GoodInput(a) && GoodInput(b) && CanonicalInput(a) == CanonicalInput(b)
    ensures SameInput(a, b)
  {
    hide Declarations.Canonical, Declarations.Same;
    Declarations.CanonicalDetermines(a.decl, b.decl);
  }

  lemma CanonicalInputIsSame(i: Input)
    requires GoodInput(i)
    ensures SameInput(i, CanonicalInput(i)) && GoodInput(CanonicalInput(i))
    ensures CanonicalInput(CanonicalInput(i)) == CanonicalInput(i)
  {
    hide Declarations.Canonical, Declarations.Same;
    Declarations.CanonicalIsSame(i.decl);
  }

  // ----- Sensors -----

  datatype Sensor = Sensor(id: nat, typ: bv5, async: bool, nameLength: nat, decl: Decl, name: Name)

  predicate GoodSensor(x: Sensor) {
    x.id < 1024 && GoodName(x.nameLength, x.name) && Declarations.WellFormed(x.decl)
  }

  /** The first two bytes hold a 10-bit id, a 5-bit sensor type and a 1-bit reporting mode. */
  function PackSensorLow(id: bv10): byte { (id & 0xff) as bv8 }

  function PackSensorHigh(id: bv10, typ: bv5, async: bool): byte {
    ((id >> 8) as bv8) | ((typ as bv8) << 2) | (if async then 128 else 0)
  }

  function UnpackSensorId(low: byte, high: byte): bv10 { (low as bv10) | (((high & 3) as bv10) << 8) }

  function UnpackSensorType(high: byte): bv5 { ((high >> 2) & 0x1f) as bv5 }

  function UnpackSensorMode(high: byte): bool { high & 128 != 0 }

  function ToId(n: nat): bv10 { (n % 1024) as bv10 }

  function IdValue(b: bv10): nat { b as nat }

  lemma IdRoundTrip(n: nat)
    requires n < 1024
    ensures IdValue(ToId(n)) == n
  {}

  lemma UnpackPackSensor(id: bv10, typ: bv5, async: bool)
    ensures var l, h := PackSensorLow(id), PackSensorHigh(id, typ, async);
      UnpackSensorId(l, h) == id && UnpackSensorType(h) == typ && UnpackSensorMode(h) == async
  {}

  lemma PackedSensorWord(id: bv10, typ: bv5, async: bool)
    ensures (PackSensorLow(id) as bv16) | ((PackSensorHigh(id, typ, async) as bv16) << 8)
      == (id as bv16) | ((typ as bv16) << 10) | (if async then 0x8000 else 0)
  {}

  /** The first two bytes, least significant first, are id, sensor type and mode from the lowest bit. */
  lemma SensorLayout(x: Sensor)
    ensures var h := SensorHeader(x);
      (h[0] as bv16) | ((h[1] as bv16) << 8)
      == (ToId(x.id) as bv16) | ((x.typ as bv16) << 10) | (if x.async then 0x8000 else 0)
  {
    hide PackSensorLow, PackSensorHigh, ToId, Declarations.EncodeHeader;
    PackedSensorWord(ToId(x.id), x.typ, x.async);
  }

  function SensorHeader(x: Sensor): (r: seq<byte>)
    ensures |r| == 6
  {
    [PackSensorLow(ToId(x.id)), PackSensorHigh(ToId(x.id), x.typ, x.async), ToByte(x.nameLength)]
    + Declarations.EncodeHeader(x.decl)
  }

  function EncodeSensor(x: Sensor): seq<byte> {
    SensorHeader(x) + (Declarations.EncodeTail(x.decl) + EncodeName(x.nameLength, x.name))
  }

  function SensorSize(x: Sensor): nat {
    6 + ((if x.name == NoName then 0 else x.nameLength) + Declarations.TailSize(x.decl))
  }

  function DecodeSensorHeader(s: seq<byte>): (Sensor, seq<byte>) {
    if |s| < 6 then (Sensor(0, 0, false, 0, Declarations.BLANK, NoName), s)
    else (Sensor(IdValue(UnpackSensorId(s[0], s[1])), UnpackSensorType(s[1]), UnpackSensorMode(s[1]), ByteValue(s[2]),
                 Declarations.DecodeHeader(s[3..6]), NoName), s[6..])
  }

  function DecodeSensor(s: seq<byte>): (Sensor, seq<byte>) {
    var (x, s1) := DecodeSensorHeader(s);
    var (d, s2) := Declarations.DecodeTail(x.decl, s1);
    var (name, s3) := DecodeName(x.nameLength, s2);
    (x.(decl := d, name := name), s3)
  }

  function CanonicalSensor(x: Sensor): Sensor {
    x.(decl := Declarations.Canonical(x.decl), name := CanonicalName(x.nameLength, x.name))
  }

  /** Without a name there are no letters to write, whatever the length says: the announced size of a sensor
      allows for that, and that of an input does not. */
  lemma SizesWithoutName(x: Sensor, i: Input)
    requires x.name == NoName && i.name == NoName && Declarations.WellFormed(x.decl) && Declarations.WellFormed(i.decl)
    ensures |EncodeSensor(x)| == SensorSize(x) && |EncodeInput(i)| + i.nameLength == InputSize(i)
  {
    hide Declarations.EncodeHeader, Declarations.EncodeTail, Declarations.TailSize, PackSensorLow, PackSensorHigh;
    Declarations.TailLength(x.decl);
    Declarations.TailLength(i.decl);
  }

  lemma SensorHeaderRoundTrip(x: Sensor, rest: seq<byte>)
    requires x.id < 1024 && x.nameLength < 256
    ensures DecodeSensorHeader(SensorHeader(x) + rest)
      == (x.(decl := Declarations.DecodeHeader(Declarations.EncodeHeader(x.decl)), name := NoName), rest)
  {
    hide ToByte, ByteValue, ToId, IdValue, PackSensorLow, PackSensorHigh, UnpackSensorId, UnpackSensorType,
      UnpackSensorMode, Declarations.EncodeHeader, Declarations.DecodeHeader;
    IdRoundTrip(x.id);
    ByteRoundTrip(x.nameLength);
    UnpackPackSensor(ToId(x.id), x.typ, x.async);
    var h := SensorHeader(x);
    Split(h, rest);
    assert (h + rest)[3..6] == h[3..] == Declarations.EncodeHeader(x.decl);
  }

  /** Decoding an encoded sensor gives it back and stops where it ends. */
  lemma SensorRoundTrip(x: Sensor, rest: seq<byte>)
    requires GoodSensor(x)
    ensures DecodeSensor(EncodeSensor(x) + rest) == (CanonicalSensor(x), rest)
    ensures |EncodeSensor(x)| == SensorSize(x)
  {
    hide Declarations.EncodeHeader, Declarations.DecodeHeader, Declarations.EncodeTail, Declarations.DecodeTail,
      Declarations.Canonical, SensorHeader, DecodeSensorHeader, EncodeName, DecodeName, CanonicalName, Declarations.TailSize;
    var tail, nm := Declarations.EncodeTail(x.decl), EncodeName(x.nameLength, x.name);
    SensorHeaderRoundTrip(x, tail + (nm + rest));
    Regroup(tail, nm, rest);
    Regroup(SensorHeader(x), tail + nm, rest);
    Declarations.TailRoundTrip(x.decl, nm + rest);
    NameRoundTrip(x.nameLength, x.name, rest);
    Declarations.TailLength(x.decl);
    NameLength(x.nameLength, x.name);
  }

  /** `Sensor::operator ==`. */
  predicate SameSensor(a: Sensor, b: Sensor) {
    && a.id == b.id && a.typ == b.typ && a.async == b.async && a.nameLength == b.nameLength
    && Declarations.Same(a.decl, b.decl) && SameName(a.nameLength, a.name, b.name)
  }

  lemma CanonicalSensorDetermines(a: Sensor, b: Sensor)
    requires GoodSensor(a) && GoodSensor(b) && CanonicalSensor(a) == CanonicalSensor(b)
    ensures SameSensor(a, b)
  {
    hide Declarations.Canonical, Declarations.Same;
    Declarations.CanonicalDetermines(a.decl, b.decl);
  }

  lemma CanonicalSensorIsSame(x: Sensor)
    requires GoodSensor(x)
    ensures SameSensor(x, CanonicalSensor(x)) && GoodSensor(CanonicalSensor(x))
    ensures CanonicalSensor(CanonicalSensor(x)) == CanonicalSensor(x)
  {
    hide Declarations.Canonical, Declarations.Same;
    Declarations.CanonicalIsSame(x.decl);
  }
}
