/** The decoders as inverses: bytes on which no read falls short and no bound is wider than its array are
    exactly the encodings of well-formed records, and encoding what was decoded gives the bytes back. */
module Reencoding {
  import opened Bytes
  import opened Records
  import opened NamedRecords
  import opened Configurations
  import D = Declarations

  // ----- Declarations and names -----

  lemma PackUnpack(low: byte, high: byte)
    ensures D.PackLow(D.UnpackType(low), D.UnpackWidth(low, high)) == low
    ensures D.PackHigh(D.UnpackWidth(low, high), D.UnpackFlag(high, 8), D.UnpackFlag(high, 16), D.UnpackFlag(high, 32),
                       D.UnpackFlag(high, 64), D.UnpackFlag(high, 128)) == high
  {}

  lemma DeclHeaderBytes(h: seq<byte>)
    requires |h| == 3
    ensures D.EncodeHeader(D.DecodeHeader(h)) == h
  {
    hide D.PackLow, D.PackHigh, D.UnpackType, D.UnpackWidth, D.UnpackFlag;
    PackUnpack(h[0], h[1]);
  }

  lemma BoundBytes(present: bool, width: nat, s: seq<byte>)
    requires width <= 16 && (present ==> width <= |s|)
    ensures var (value, rest) := D.ReadBound(present, Fill(16), width, s);
      |value| == 16 && s == D.Bound(present, value, width) + rest
  {
    if present {
      assert s == s[..width] + s[width..];
      assert (s[..width] + Fill(16)[width..])[..width] == s[..width];
    } else {
      assert [] + s == s;
    }
  }

  /** A tail that is there is the encoding of what it decodes to. */
  lemma TailBytes(d: D.Decl, s: seq<byte>)
    requires D.Width(d) <= 16 && d.neutral == d.minimum == d.maximum == Fill(16) && D.TailSize(d) <= |s|
    ensures var (d', rest) := D.DecodeTail(d, s);
      s == D.EncodeTail(d') + rest && D.WellFormed(d') && D.EncodeHeader(d') == D.EncodeHeader(d) && D.Width(d') == D.Width(d)
  {
    hide D.EncodeHeader, D.ReadBound, D.Bound, D.Width;
    var w := D.Width(d);
    var (n, s1) := D.ReadBound(d.hasNeutral, d.neutral, w, s);
    BoundBytes(d.hasNeutral, w, s);
    BoundSize(d.hasNeutral, n, w);
    var (lo, s2) := D.ReadBound(d.hasMinimum, d.minimum, w, s1);
    BoundBytes(d.hasMinimum, w, s1);
    BoundSize(d.hasMinimum, lo, w);
    var (hi, s3) := D.ReadBound(d.hasMaximum, d.maximum, w, s2);
    BoundBytes(d.hasMaximum, w, s2);
    SameHeader(d, d.(neutral := n, minimum := lo, maximum := hi));
    Regroup(D.Bound(d.hasNeutral, n, w), D.Bound(d.hasMinimum, lo, w), D.Bound(d.hasMaximum, hi, w) + s3);
    Regroup(D.Bound(d.hasNeutral, n, w) + D.Bound(d.hasMinimum, lo, w), D.Bound(d.hasMaximum, hi, w), s3);
  }

  lemma BoundSize(present: bool, value: seq<byte>, width: nat)
    requires width <= |value|
    ensures |D.Bound(present, value, width)| == if present then width else 0
  {}

  lemma SameHeader(d: D.Decl, e: D.Decl)
    requires e == d.(neutral := e.neutral, minimum := e.minimum, maximum := e.maximum)
    ensures D.EncodeHeader(e) == D.EncodeHeader(d) && D.Width(e) == D.Width(d)
  {
    hide D.PackLow, D.PackHigh;
  }

  lemma NameBytes(length: nat, s: seq<byte>)
    requires length <= |s| && length < 256
    ensures var (name, rest) := DecodeName(length, s); s == EncodeName(length, name) + rest && GoodName(length, name)
  {
    if length == 0 { assert [] + s == s; } else { assert s == s[..length] + s[length..]; }
  }

  /** The tail and the name that a header announces are there, and no bound is wider than its array. */
  predicate TailComplete(d: D.Decl, nameLength: nat, s: seq<byte>) {
    D.Width(d) <= 16 && D.TailSize(d) + nameLength <= |s|
  }

  lemma TailTaken(d: D.Decl, s: seq<byte>)
    requires D.Width(d) <= 16 && d.neutral == d.minimum == d.maximum == Fill(16) && D.TailSize(d) <= |s|
    ensures |D.DecodeTail(d, s).1| == |s| - D.TailSize(d)
  {}

  lemma TailSizeKept(d: D.Decl)
    ensures var e := D.DecodeHeader(D.EncodeHeader(d)); D.TailSize(e) == D.TailSize(d) && D.Width(e) == D.Width(d)
  {
    D.HeaderRoundTrip(d);
    hide D.EncodeHeader, D.DecodeHeader;
  }

  // ----- Inputs -----

  predicate InputComplete(s: seq<byte>) {
    |s| >= 5 && var (i, s1) := DecodeInputHeader(s); TailComplete(i.decl, i.nameLength, s1)
  }

  lemma InputHeaderBytes(s: seq<byte>)
    requires |s| >= 5
    ensures var (i, s1) := DecodeInputHeader(s);
      && s == [ToByte(i.id), ToByte(i.nameLength)] + D.EncodeHeader(i.decl) + s1 && i.id < 256 && i.nameLength < 256
      && i.decl.neutral == i.decl.minimum == i.decl.maximum == Fill(16)
  {
    hide ToByte, ByteValue, D.EncodeHeader, D.UnpackType, D.UnpackWidth, D.UnpackFlag;
    ValueRoundTrip(s[0]);
    ValueRoundTrip(s[1]);
    DeclHeaderBytes(s[2..5]);
    assert s == [s[0], s[1]] + s[2..5] + s[5..];
  }

  /** A complete input is the encoding of what it decodes to. */
  lemma InputBytes(s: seq<byte>)
    requires InputComplete(s)
    ensures var (i, rest) := DecodeInput(s); s == EncodeInput(i) + rest && GoodInput(i)
  {
    InputHeaderBytes(s);
    var (i, s1) := DecodeInputHeader(s);
    TailBytes(i.decl, s1);
    TailTaken(i.decl, s1);
    hide DecodeInputHeader, D.DecodeTail, D.EncodeTail, D.EncodeHeader, EncodeName, DecodeName, ToByte, D.TailSize, D.Width, GoodName;
    var (d, s2) := D.DecodeTail(i.decl, s1);
    NameBytes(i.nameLength, s2);
    var (name, s3) := DecodeName(i.nameLength, s2);
    var h := [ToByte(i.id), ToByte(i.nameLength)] + D.EncodeHeader(d);
    Regroup(D.EncodeTail(d), EncodeName(i.nameLength, name), s3);
    Regroup(h, D.EncodeTail(d) + EncodeName(i.nameLength, name), s3);
  }

  lemma EncodedInputIsComplete(i: Input, rest: seq<byte>)
    requires GoodInput(i)
    ensures InputComplete(EncodeInput(i) + rest)
  {
    TailSizeKept(i.decl);
    hide D.EncodeHeader, D.DecodeHeader, D.EncodeTail, EncodeName, InputHeader, DecodeInputHeader, D.TailSize, D.Width;
    var tail, nm := D.EncodeTail(i.decl), EncodeName(i.nameLength, i.name);
    InputHeaderRoundTrip(i, tail + (nm + rest));
    Regroup(tail, nm, rest);
    Regroup(InputHeader(i), tail + nm, rest);
    D.TailLength(i.decl);
    NameLength(i.nameLength, i.name);
  }

  // ----- Sensors -----

  predicate SensorComplete(s: seq<byte>) {
    |s| >= 6 && var (x, s1) := DecodeSensorHeader(s); TailComplete(x.decl, x.nameLength, s1)
  }

  lemma PackUnpackSensor(low: byte, high: byte)
    ensures PackSensorLow(UnpackSensorId(low, high)) == low
    ensures PackSensorHigh(UnpackSensorId(low, high), UnpackSensorType(high), UnpackSensorMode(high)) == high
  {}

  lemma SameId(a: bv10, b: bv10)
    requires IdValue(a) == IdValue(b)
    ensures a == b
  {}

  lemma IdBound(b: bv10)
    ensures IdValue(b) < 1024
  {}

  lemma SensorHeaderBytes(s: seq<byte>)
    requires |s| >= 6
    ensures var (x, s1) := DecodeSensorHeader(s);
      && s == SensorHeader(x) + s1 && x.id < 1024 && x.nameLength < 256
      && x.decl.neutral == x.decl.minimum == x.decl.maximum == Fill(16)
  {
    hide ToByte, ByteValue, ToId, IdValue, PackSensorLow, PackSensorHigh, UnpackSensorId, UnpackSensorType, UnpackSensorMode,
      D.EncodeHeader, D.UnpackType, D.UnpackWidth, D.UnpackFlag;
    var id := UnpackSensorId(s[0], s[1]);
    IdBound(id);
    IdRoundTrip(IdValue(id));
    SameId(ToId(IdValue(id)), id);
    PackUnpackSensor(s[0], s[1]);
    ValueRoundTrip(s[2]);
    DeclHeaderBytes(s[3..6]);
    assert s == [s[0], s[1], s[2]] + s[3..6] + s[6..];
  }

  lemma SensorHeaderOf(x: Sensor, d: D.Decl, name: Name)
    requires D.EncodeHeader(d) == D.EncodeHeader(x.decl)
    ensures SensorHeader(x.(decl := d, name := name)) == SensorHeader(x)
  {
    hide D.EncodeHeader, PackSensorLow, PackSensorHigh, ToId, ToByte;
  }

  /** A complete sensor is the encoding of what it decodes to. */
  lemma SensorBytes(s: seq<byte>)
    requires SensorComplete(s)
    ensures var (x, rest) := DecodeSensor(s); s == EncodeSensor(x) + rest && GoodSensor(x)
  {
    SensorHeaderBytes(s);
    var (x, s1) := DecodeSensorHeader(s);
    TailBytes(x.decl, s1);
    TailTaken(x.decl, s1);
    hide DecodeSensorHeader, SensorHeader, D.DecodeTail, D.EncodeTail, D.EncodeHeader, EncodeName, DecodeName, D.TailSize, D.Width, GoodName;
    var (d, s2) := D.DecodeTail(x.decl, s1);
    NameBytes(x.nameLength, s2);
    var (name, s3) := DecodeName(x.nameLength, s2);
    SensorHeaderOf(x, d, name);
    Regroup(D.EncodeTail(d), EncodeName(x.nameLength, name), s3);
    Regroup(SensorHeader(x), D.EncodeTail(d) + EncodeName(x.nameLength, name), s3);
  }

  lemma EncodedSensorIsComplete(x: Sensor, rest: seq<byte>)
    requires GoodSensor(x)
    ensures SensorComplete(EncodeSensor(x) + rest)
  {
    TailSizeKept(x.decl);
    hide D.EncodeHeader, D.DecodeHeader, D.EncodeTail, EncodeName, SensorHeader, DecodeSensorHeader, D.TailSize, D.Width;
    var tail, nm := D.EncodeTail(x.decl), EncodeName(x.nameLength, x.name);
    SensorHeaderRoundTrip(x, tail + (nm + rest));
    Regroup(tail, nm, rest);
    Regroup(SensorHeader(x), tail + nm, rest);
    D.TailLength(x.decl);
    NameLength(x.nameLength, x.name);
  }

  // ----- Lists of records -----

  predicate AllComplete<T>(complete: seq<byte> -> bool, dec: seq<byte> -> (T, seq<byte>), n: nat, s: seq<byte>) {
    n == 0 || (complete(s) && AllComplete(complete, dec, n - 1, dec(s).1))
  }

  lemma {:induction false} ListBytes<T(!new)>(complete: seq<byte> -> bool, enc: T -> seq<byte>, dec: seq<byte> -> (T, seq<byte>),
                                        good: T -> bool, n: nat, s: seq<byte>)
    requires AllComplete(complete, dec, n, s)
    requires forall t :: complete(t) ==> t == enc(dec(t).0) + dec(t).1 && good(dec(t).0)
    ensures var (xs, rest) := DecodeAll(dec, n, s); s == EncodeAll(enc, xs) + rest && forall x :: x in xs ==> good(x)
    decreases n
  {
    if n == 0 {
      assert [] + s == s;
    } else {
      var (x, s') := dec(s);
      ListBytes(complete, enc, dec, good, n - 1, s');
      var (xs, rest) := DecodeAll(dec, n - 1, s');
      assert ([x] + xs)[1..] == xs;
      Regroup(enc(x), EncodeAll(enc, xs), rest);
    }
  }

  lemma {:induction false} EncodedListIsComplete<T(!new)>(complete: seq<byte> -> bool, enc: T -> seq<byte>,
                                                    dec: seq<byte> -> (T, seq<byte>), xs: seq<T>, rest: seq<byte>)
    requires forall x, r: seq<byte> :: x in xs ==> complete(enc(x) + r) && dec(enc(x) + r).1 == r
    ensures AllComplete(complete, dec, |xs|, EncodeAll(enc, xs) + rest)
    decreases xs
  {
    if xs != [] {
      var tail := EncodeAll(enc, xs[1..]) + rest;
      Regroup(enc(xs[0]), EncodeAll(enc, xs[1..]), rest);
      assert xs[0] in xs && complete(enc(xs[0]) + tail) && dec(enc(xs[0]) + tail).1 == tail;
      EncodedListIsComplete(complete, enc, dec, xs[1..], rest);
    }
  }

  lemma InputListBytes(n: nat, s: seq<byte>)
    requires AllComplete(InputComplete, DecodeInput, n, s)
    ensures var (xs, rest) := DecodeAll(DecodeInput, n, s); s == EncodeAll(EncodeInput, xs) + rest && forall x :: x in xs ==> GoodInput(x)
  {
    hide InputComplete, EncodeInput, DecodeInput, GoodInput;
    forall t: seq<byte> | InputComplete(t) ensures t == EncodeInput(DecodeInput(t).0) + DecodeInput(t).1 && GoodInput(DecodeInput(t).0) {
      InputBytes(t);
    }
    ListBytes(InputComplete, EncodeInput, DecodeInput, GoodInput, n, s);
  }

  lemma SensorListBytes(n: nat, s: seq<byte>)
    requires AllComplete(SensorComplete, DecodeSensor, n, s)
    ensures var (xs, rest) := DecodeAll(DecodeSensor, n, s); s == EncodeAll(EncodeSensor, xs) + rest && forall x :: x in xs ==> GoodSensor(x)
  {
    hide SensorComplete, EncodeSensor, DecodeSensor, GoodSensor;
    forall t: seq<byte> | SensorComplete(t) ensures t == EncodeSensor(DecodeSensor(t).0) + DecodeSensor(t).1 && GoodSensor(DecodeSensor(t).0) {
      SensorBytes(t);
    }
    ListBytes(SensorComplete, EncodeSensor, DecodeSensor, GoodSensor, n, s);
  }

  // ----- Modules -----

  /** No read of `Module::decode` falls short, and no bound is wider than its array. */
  predicate ModuleComplete(s: seq<byte>) {
    |s| >= 4 && ModuleBodyComplete(ReadModuleHeader(BLANK, s).0, ReadModuleHeader(BLANK, s).1)
  }

  /** Name, inputs and sensors as the header announces them. */
  predicate ModuleBodyComplete(m: Module, s: seq<byte>) {
    m.nameLength <= |s|
    && var named := DecodeName(m.nameLength, s).1;
       var read := DecodeAll(DecodeInput, m.numInputs, named).1;
       AllComplete(InputComplete, DecodeInput, m.numInputs, named) && AllComplete(SensorComplete, DecodeSensor, m.numSensors, read)
  }

  lemma ModuleHeaderBytes(s: seq<byte>)
    requires |s| >= 4
    ensures var (m, s1) := ReadModuleHeader(BLANK, s);
      s == ModuleHeader(m) + s1 && m.id < 256 && m.numInputs < 256 && m.numSensors < 256 && m.nameLength < 256
  {
    hide ToByte, ByteValue;
    ValueRoundTrip(s[0]); ValueRoundTrip(s[1]); ValueRoundTrip(s[2]); ValueRoundTrip(s[3]);
    assert s == [s[0], s[1], s[2], s[3]] + s[4..];
  }

  /** A complete module is the encoding of what it decodes to. */
  lemma ModuleBytes(s: seq<byte>)
    requires ModuleComplete(s)
    ensures var (m, rest) := DecodeModule(s); s == EncodeModule(m) + rest && GoodModule(m)
  {
    hide ReadModuleHeader, EncodeName, DecodeName, EncodeInput, DecodeInput, EncodeSensor, DecodeSensor, GoodInput, GoodSensor,
      InputComplete, SensorComplete, AllComplete, GoodName, ByteValue, ToByte;
    ModuleHeaderBytes(s);
    var (m, s1) := ReadModuleHeader(BLANK, s);
    NameBytes(m.nameLength, s1);
    var (name, s2) := DecodeName(m.nameLength, s1);
    InputListBytes(m.numInputs, s2);
    var (ins, s3) := DecodeAll(DecodeInput, m.numInputs, s2);
    SensorListBytes(m.numSensors, s3);
    var (ses, s4) := DecodeAll(DecodeSensor, m.numSensors, s3);
    var h, nm, is', ss := ModuleHeader(m), EncodeName(m.nameLength, name), EncodeAll(EncodeInput, ins), EncodeAll(EncodeSensor, ses);
    var d := DecodeModule(s).0;
    assert EncodeModule(d) == h + (nm + (is' + ss));
    Regroup(is', ss, s4);
    Regroup(nm, is' + ss, s4);
    Regroup(h, nm + (is' + ss), s4);
  }

  lemma EncodedModuleIsComplete(m: Module, rest: seq<byte>)
    requires GoodModule(m)
    ensures ModuleComplete(EncodeModule(m) + rest)
  {
    hide ModuleHeader, ReadModuleHeader, EncodeName, DecodeName, CanonicalName, GoodInput, GoodSensor, InputComplete, SensorComplete,
      EncodeInput, EncodeSensor, DecodeInput, DecodeSensor, CanonicalInput, CanonicalSensor;
    var nm, ins, ses := EncodeName(m.nameLength, m.name), EncodeAll(EncodeInput, m.inputs), EncodeAll(EncodeSensor, m.sensors);
    assert EncodeModule(m) == ModuleHeader(m) + (nm + (ins + ses));
    hide EncodeModule;
    Regroup(ModuleHeader(m), nm + (ins + ses), rest);
    Regroup(nm, ins + ses, rest);
    Regroup(ins, ses, rest);
    ModuleHeaderRoundTrip(m, BLANK, nm + (ins + (ses + rest)));
    NameRoundTrip(m.nameLength, m.name, ins + (ses + rest));
    NameLength(m.nameLength, m.name);
    InputsDelimit(m.inputs, ses + rest);
    forall i, r: seq<byte> | i in m.inputs ensures InputComplete(EncodeInput(i) + r) && DecodeInput(EncodeInput(i) + r).1 == r {
      EncodedInputIsComplete(i, r);
      InputRoundTrip(i, r);
    }
    EncodedListIsComplete(InputComplete, EncodeInput, DecodeInput, m.inputs, ses + rest);
    forall x, r: seq<byte> | x in m.sensors ensures SensorComplete(EncodeSensor(x) + r) && DecodeSensor(EncodeSensor(x) + r).1 == r {
      EncodedSensorIsComplete(x, r);
      SensorRoundTrip(x, r);
    }
    EncodedListIsComplete(SensorComplete, EncodeSensor, DecodeSensor, m.sensors, rest);
  }

  // ----- Configurations -----

  /** No read of `Configuration::decode`, at any level, falls short, and no bound is wider than its array. */
  predicate ConfigurationComplete(s: seq<byte>) {
    s != [] && AllComplete(ModuleComplete, DecodeModule, ByteValue(s[0]), s[1..])
  }

  /** Encoding the configuration decoded from complete bytes gives back the bytes that were consumed. */
  lemma ReencodeDecoded(s: seq<byte>)
    requires ConfigurationComplete(s)
    ensures var (r, c, rest) := DecodeConfiguration(s);
      r == SUCCESS && GoodConfiguration(c) && s == EncodeConfiguration(c) + rest
  {
    hide ModuleComplete, EncodeModule, DecodeModule, GoodModule, ToByte, ByteValue;
    ValueRoundTrip(s[0]);
    forall t: seq<byte> | ModuleComplete(t) ensures t == EncodeModule(DecodeModule(t).0) + DecodeModule(t).1 && GoodModule(DecodeModule(t).0) {
      ModuleBytes(t);
    }
    var n := ByteValue(s[0]);
    ListBytes(ModuleComplete, EncodeModule, DecodeModule, GoodModule, n, s[1..]);
    var (ms, rest) := DecodeAll(DecodeModule, n, s[1..]);
    Regroup([s[0]], EncodeAll(EncodeModule, ms), rest);
    assert s == [s[0]] + s[1..];
  }

  lemma EncodedIsComplete(c: Configuration, rest: seq<byte>)
    requires GoodConfiguration(c)
    ensures ConfigurationComplete(EncodeConfiguration(c) + rest)
  {
    hide ModuleComplete, EncodeModule, DecodeModuleInto, CanonicalModule, GoodModule, ToByte, ByteValue;
    ByteRoundTrip(c.numModules);
    forall m, r: seq<byte> | m in c.modules ensures ModuleComplete(EncodeModule(m) + r) && DecodeModule(EncodeModule(m) + r).1 == r {
      EncodedModuleIsComplete(m, r);
      ModuleRoundTrip(m, BLANK, r);
    }
    EncodedListIsComplete(ModuleComplete, EncodeModule, DecodeModule, c.modules, rest);
    assert (EncodeConfiguration(c) + rest)[1..] == EncodeAll(EncodeModule, c.modules) + rest;
  }

  /** The complete byte streams are exactly those that start with the encoding of a well-formed configuration. */
  lemma CompleteIffEncoding(s: seq<byte>)
    ensures ConfigurationComplete(s)
      <==> exists c: Configuration, rest: seq<byte> :: GoodConfiguration(c) && s == EncodeConfiguration(c) + rest
  {
    hide ConfigurationComplete, GoodConfiguration, EncodeConfiguration, DecodeConfiguration;
    if ConfigurationComplete(s) {
      ReencodeDecoded(s);
      var (r, c, rest) := DecodeConfiguration(s);
      assert GoodConfiguration(c) && s == EncodeConfiguration(c) + rest;
    }
    forall c: Configuration, rest: seq<byte> | GoodConfiguration(c) && s == EncodeConfiguration(c) + rest
      ensures ConfigurationComplete(s)
    {
      EncodedIsComplete(c, rest);
    }
  }
}
