/** Where everything is on the wire: for each record, what stands at which offset of its encoding. */
module Layouts {
  import opened Bytes
  import opened Records
  import opened InputMasks
  import opened NamedRecords
  import opened Configurations
  import opened ModuleControls
  import opened ControlCodec
  import D = Declarations

  /** The part of a byte string at an offset. */
  predicate StandsAt(part: seq<byte>, s: seq<byte>, offset: nat) {
    offset + |part| <= |s| && s[offset..offset + |part|] == part
  }

  lemma Inside(a: seq<byte>, b: seq<byte>, c: seq<byte>)
    ensures StandsAt(b, a + (b + c), |a|)
  {}

  lemma Deeper(part: seq<byte>, s: seq<byte>, offset: nat, before: seq<byte>, after: seq<byte>)
    requires StandsAt(part, s, offset)
    ensures StandsAt(part, before + (s + after), |before| + offset)
  {
    var whole := before + (s + after);
    assert whole[|before| + offset..|before| + offset + |part|] == s[offset..offset + |part|];
  }

  lemma InThird(part: seq<byte>, offset: nat, a: seq<byte>, b: seq<byte>, c: seq<byte>, d: seq<byte>)
    requires StandsAt(part, c, offset)
    ensures StandsAt(part, a + (b + (c + d)), |a| + |b| + offset)
  {
    hide StandsAt;
    Deeper(part, c, offset, b, d);
    Deeper(part, b + (c + d), |b| + offset, a, []);
    assert b + (c + d) + [] == b + (c + d);
  }

  lemma InFourth(part: seq<byte>, offset: nat, a: seq<byte>, b: seq<byte>, c: seq<byte>, d: seq<byte>)
    requires StandsAt(part, d, offset)
    ensures StandsAt(part, a + (b + (c + d)), |a| + |b| + |c| + offset)
  {
    hide StandsAt;
    Deeper(part, d, offset, c, []);
    assert d + [] == d;
    Deeper(part, c + d, |c| + offset, b, []);
    assert c + d + [] == c + d;
    Deeper(part, b + (c + d), |b| + |c| + offset, a, []);
    assert b + (c + d) + [] == b + (c + d);
  }

  /** The bytes of a name, when there are any. */
  function Letters(nameLength: nat, name: Name): seq<byte> { if nameLength > 0 && name.Text? then name.chars else [] }

  lemma NameIsLetters(nameLength: nat, name: Name)
    requires GoodName(nameLength, name)
    ensures EncodeName(nameLength, name) == Letters(nameLength, name) && |Letters(nameLength, name)| == nameLength
  {}

  // ----- Declarations: neutral value, minimum, maximum -----

  /** The bounds that are present stand one after the other, each as wide as the type. */
  lemma TailLayout(d: D.Decl)
    requires D.WellFormed(d)
    ensures var w, t := D.Width(d), D.EncodeTail(d);
      var lo := if d.hasNeutral then w else 0; var hi := lo + if d.hasMinimum then w else 0;
      && (d.hasNeutral ==> StandsAt(d.neutral[..w], t, 0))
      && (d.hasMinimum ==> StandsAt(d.minimum[..w], t, lo))
      && (d.hasMaximum ==> StandsAt(d.maximum[..w], t, hi))
      && |t| == hi + if d.hasMaximum then w else 0
  {
    var w := D.Width(d);
    var n, lo, hi := D.Bound(d.hasNeutral, d.neutral, w), D.Bound(d.hasMinimum, d.minimum, w), D.Bound(d.hasMaximum, d.maximum, w);
    BoundIs(d.hasNeutral, d.neutral, w);
    BoundIs(d.hasMinimum, d.minimum, w);
    BoundIs(d.hasMaximum, d.maximum, w);
    InThree(n, lo, hi);
    hide D.Bound, D.Width, StandsAt;
  }

  lemma BoundIs(present: bool, value: seq<byte>, w: nat)
    requires w <= 16 && |value| == 16
    ensures D.Bound(present, value, w) == if present then value[..w] else []
  {}

  lemma InThree(a: seq<byte>, b: seq<byte>, c: seq<byte>)
    ensures StandsAt(a, a + b + c, 0) && StandsAt(b, a + b + c, |a|) && StandsAt(c, a + b + c, |a| + |b|)
  {
    Regroup(a, b, c);
    Inside([], a, b + c);
    Inside(a, b, c);
    Inside(a + b, c, []);
    assert [] + (a + (b + c)) == a + b + c && (a + b) + (c + []) == a + b + c;
    hide StandsAt;
  }

  // ----- Inputs and sensors -----

  /** An input: id, name length, the packed declaration, its bounds, and last its name. */
  lemma InputLayout(i: Input)
    requires GoodInput(i)
    ensures var e := EncodeInput(i); var tail := D.EncodeTail(i.decl);
      && |e| == 5 + |tail| + i.nameLength && ByteValue(e[0]) == i.id && ByteValue(e[1]) == i.nameLength
      && StandsAt(D.EncodeHeader(i.decl), e, 2) && StandsAt(tail, e, 5) && StandsAt(Letters(i.nameLength, i.name), e, 5 + |tail|)
  {
    hide ToByte, ByteValue, D.EncodeHeader, D.EncodeTail, Letters, EncodeName;
    ByteRoundTrip(i.id);
    ByteRoundTrip(i.nameLength);
    NameIsLetters(i.nameLength, i.name);
  }

  /** A sensor: id, type and mode packed into two bytes, then as an input. */
  lemma SensorRecordLayout(x: Sensor)
    requires GoodSensor(x)
    ensures var e := EncodeSensor(x); var tail := D.EncodeTail(x.decl);
      && |e| == 6 + |tail| + x.nameLength && ByteValue(e[2]) == x.nameLength
      && (e[0] as bv16) | ((e[1] as bv16) << 8) == (ToId(x.id) as bv16) | ((x.typ as bv16) << 10) | (if x.async then 0x8000 else 0)
      && StandsAt(D.EncodeHeader(x.decl), e, 3) && StandsAt(tail, e, 6) && StandsAt(Letters(x.nameLength, x.name), e, 6 + |tail|)
  {
    SensorLayout(x);
    hide ToByte, ByteValue, ToId, PackSensorLow, PackSensorHigh, D.EncodeHeader, D.EncodeTail, Letters, EncodeName;
    ByteRoundTrip(x.nameLength);
    NameIsLetters(x.nameLength, x.name);
    assert EncodeSensor(x)[0] == SensorHeader(x)[0] && EncodeSensor(x)[1] == SensorHeader(x)[1];
  }

  // ----- Lists, modules and configurations -----

  /** Where the k-th record of a list stands. */
  function Offset<T>(enc: T -> seq<byte>, xs: seq<T>, k: nat): nat
    requires k <= |xs|
    decreases k
  {
    if k == 0 then 0 else Offset(enc, xs, k - 1) + |enc(xs[k - 1])|
  }

  lemma {:induction false} OffsetOfRest<T>(enc: T -> seq<byte>, xs: seq<T>, k: nat)
    requires 0 < k <= |xs|
    ensures Offset(enc, xs, k) == |enc(xs[0])| + Offset(enc, xs[1..], k - 1)
    decreases k
  {
    if k > 1 { OffsetOfRest(enc, xs, k - 1); }
  }

  lemma {:induction false} RecordLayout<T>(enc: T -> seq<byte>, xs: seq<T>, k: nat)
    requires k < |xs|
    ensures StandsAt(enc(xs[k]), EncodeAll(enc, xs), Offset(enc, xs, k))
    ensures |EncodeAll(enc, xs)| == Offset(enc, xs, |xs|)
    decreases xs
  {
    var first, rest := enc(xs[0]), EncodeAll(enc, xs[1..]);
    OffsetOfRest(enc, xs, |xs|);
    if |xs| > 1 { RecordLayout(enc, xs[1..], if k > 0 then k - 1 else 0); }
    if k == 0 {
      Inside([], first, rest);
      assert [] + (first + rest) == EncodeAll(enc, xs);
    } else {
      OffsetOfRest(enc, xs, k);
      Deeper(enc(xs[k]), rest, Offset(enc, xs[1..], k - 1), first, []);
      assert first + (rest + []) == EncodeAll(enc, xs);
    }
  }

  lemma AllLength<T>(enc: T -> seq<byte>, xs: seq<T>)
    ensures |EncodeAll(enc, xs)| == Offset(enc, xs, |xs|)
  {
    if xs != [] { RecordLayout(enc, xs, 0); }
  }

  /** Where a module's inputs and its sensors begin. */
  function InputsAt(m: Module): nat { 4 + m.nameLength }

  function SensorsAt(m: Module): nat { InputsAt(m) + Offset(EncodeInput, m.inputs, |m.inputs|) }

  /** A module: id, number of inputs, number of sensors, name length, the name, the inputs, the sensors. */
  lemma ModuleLayout(m: Module)
    requires GoodModule(m)
    ensures var e := EncodeModule(m);
      && |e| == SensorsAt(m) + Offset(EncodeSensor, m.sensors, |m.sensors|)
      && ByteValue(e[0]) == m.id && ByteValue(e[1]) == |m.inputs| && ByteValue(e[2]) == |m.sensors| && ByteValue(e[3]) == m.nameLength
      && StandsAt(Letters(m.nameLength, m.name), e, 4)
  {
    ModuleParts(m);
    NameIsLetters(m.nameLength, m.name);
    AllLength(EncodeInput, m.inputs);
    AllLength(EncodeSensor, m.sensors);
    hide ToByte, ByteValue, EncodeInput, EncodeSensor, Letters, EncodeName, GoodModule, Offset, EncodeModule, ModuleHeader, StandsAt, EncodeAll;
    var h, nm, ins, ses := ModuleHeader(m), EncodeName(m.nameLength, m.name), EncodeAll(EncodeInput, m.inputs), EncodeAll(EncodeSensor, m.sensors);
    Inside(h, nm, ins + ses);
  }

  lemma NameOfModule(m: Module)
    requires GoodModule(m)
    ensures |EncodeName(m.nameLength, m.name)| == m.nameLength
  {
    NameIsLetters(m.nameLength, m.name);
  }

  /** The k-th input of a module. */
  lemma InputInModule(m: Module, k: nat)
    requires GoodModule(m) && k < |m.inputs|
    ensures StandsAt(EncodeInput(m.inputs[k]), EncodeModule(m), InputsAt(m) + Offset(EncodeInput, m.inputs, k))
  {
    hide GoodModule, EncodeModule, EncodeAll, Offset, ModuleHeader, EncodeName, EncodeInput, EncodeSensor, StandsAt, ByteValue;
    var h, nm, ins, ses := ModuleHeader(m), EncodeName(m.nameLength, m.name), EncodeAll(EncodeInput, m.inputs), EncodeAll(EncodeSensor, m.sensors);
    RecordLayout(EncodeInput, m.inputs, k);
    InThird(EncodeInput(m.inputs[k]), Offset(EncodeInput, m.inputs, k), h, nm, ins, ses);
    ModuleParts(m);
    NameOfModule(m);
  }

  /** The k-th sensor. */
  lemma SensorInModule(m: Module, k: nat)
    requires GoodModule(m) && k < |m.sensors|
    ensures StandsAt(EncodeSensor(m.sensors[k]), EncodeModule(m), SensorsAt(m) + Offset(EncodeSensor, m.sensors, k))
  {
    hide GoodModule, EncodeModule, EncodeAll, Offset, ModuleHeader, EncodeName, EncodeInput, EncodeSensor, StandsAt, ByteValue;
    var h, nm, ins, ses := ModuleHeader(m), EncodeName(m.nameLength, m.name), EncodeAll(EncodeInput, m.inputs), EncodeAll(EncodeSensor, m.sensors);
    RecordLayout(EncodeSensor, m.sensors, k);
    InFourth(EncodeSensor(m.sensors[k]), Offset(EncodeSensor, m.sensors, k), h, nm, ins, ses);
    ModuleParts(m);
    NameOfModule(m);
    AllLength(EncodeInput, m.inputs);
  }

  lemma ModuleParts(m: Module)
    requires GoodModule(m)
    ensures EncodeModule(m)
      == ModuleHeader(m) + (EncodeName(m.nameLength, m.name) + (EncodeAll(EncodeInput, m.inputs) + EncodeAll(EncodeSensor, m.sensors)))
    ensures var e := EncodeModule(m);
      |e| >= 4 && ByteValue(e[0]) == m.id && ByteValue(e[1]) == |m.inputs| && ByteValue(e[2]) == |m.sensors| && ByteValue(e[3]) == m.nameLength
  {
    hide ToByte, ByteValue, EncodeInput, EncodeSensor, EncodeName, GoodInput, GoodSensor;
    ByteRoundTrip(m.id);
    ByteRoundTrip(m.numInputs);
    ByteRoundTrip(m.numSensors);
    ByteRoundTrip(m.nameLength);
  }

  /** A configuration: the number of modules, then the modules in order. */
  lemma ConfigurationLayout(c: Configuration, k: nat)
    requires GoodConfiguration(c)
    ensures var e := EncodeConfiguration(c);
      && |e| == 1 + Offset(EncodeModule, c.modules, |c.modules|) && ByteValue(e[0]) == |c.modules|
      && (k < |c.modules| ==> StandsAt(EncodeModule(c.modules[k]), e, 1 + Offset(EncodeModule, c.modules, k)))
  {
    hide ToByte, ByteValue, EncodeModule, GoodModule, Offset;
    ByteRoundTrip(c.numModules);
    AllLength(EncodeModule, c.modules);
    if k < |c.modules| {
      RecordLayout(EncodeModule, c.modules, k);
      var all := EncodeAll(EncodeModule, c.modules);
      Deeper(EncodeModule(c.modules[k]), all, Offset(EncodeModule, c.modules, k), [ToByte(c.numModules)], []);
      assert all + [] == all;
    }
  }

  // ----- Controls -----

  predicate BitOf(b: byte, i: nat) { Has(b as bv16, i) }

  /** A control: the module's id, the mask with inputs 0 to 7 in its first byte and 8 to 15 in its second, and
      unless it is the clear form, the values' bytes in order of their inputs. */
  lemma ControlLayout(c: Control, m: Module, i: nat)
    requires Valid(c, m) && m.id < 256 && i < 8
    ensures var e := EncodeControl(c);
      && |e| >= 3 && ByteValue(e[0]) == m.id && (Has(c.inputIds, i) <==> BitOf(e[1], i)) && (Has(c.inputIds, i + 8) <==> BitOf(e[2], i))
      && (IsClear(c) ==> |e| == 3)
  {
    hide Has, ByteValue, BitOf, ControlHeader, EncodeValue, Valid, IsClear;
    ValidOn(c, m);
    ControlHeaderLayout(c, i);
  }

  /** The k-th value of a control. */
  lemma ValueInControl(c: Control, m: Module, k: nat)
    requires Valid(c, m) && !IsClear(c) && k < |c.values|
    ensures StandsAt(c.values[k].value.bytes, EncodeControl(c), 3 + Offset(EncodeValue, c.values, k))
  {
    hide EncodeValue, Offset, Valid, ControlHeader, StandsAt, IsClear;
    PairsEncodeWhole(c, m);
    RecordLayout(EncodeValue, c.values, k);
    var all := EncodeAll(EncodeValue, c.values);
    Deeper(EncodeValue(c.values[k]), all, Offset(EncodeValue, c.values, k), ControlHeader(c), []);
    assert all + [] == all;
  }

  lemma ValidOn(c: Control, m: Module)
    requires Valid(c, m)
    ensures c.moduleId == m.id
  {}

  lemma ControlHeaderLayout(c: Control, i: nat)
    requires c.moduleId < 256 && i < 8
    ensures var e := ControlHeader(c);
      && ByteValue(e[0]) == c.moduleId
      && (Has(c.inputIds, i) <==> BitOf(e[1], i)) && (Has(c.inputIds, i + 8) <==> BitOf(e[2], i))
  {
    hide ToByte, ByteValue, MaskLow, MaskHigh, Has;
    MaskBytes(c.inputIds, i);
    ByteRoundTrip(c.moduleId);
  }
}
