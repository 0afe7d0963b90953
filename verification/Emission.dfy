/** What encoding leaves in a buffer of any size. Inputs, sensors and values are written whole or end the
    encoding with a failure, but the failed writes of headers, names and message parts go unnoticed. */
module Emission {
  import opened Bytes
  import opened Records
  import opened NamedRecords
  import opened Configurations
  import opened InputMasks
  import opened ModuleControls
  import opened ControlCodec
  import opened Outcomes
  import Declarations
  import Messages
  import ErrorDetection

  /** A write whose result is ignored. */
  function Fit(part: seq<byte>, room: nat): (r: seq<byte>)
    ensures |r| <= room
  {
    if |part| <= room then part else []
  }

  /** Success, and the bytes written. */
  type Emitted = (bool, seq<byte>)

  function Left(room: nat, used: seq<byte>): nat { if |used| <= room then room - |used| else 0 }

  /** A loop over records that ends at the first failure. */
  function EmitAll<T>(emit: (T, nat) -> Emitted, xs: seq<T>, room: nat): Emitted
    decreases xs
  {
    if xs == [] then (true, [])
    else
      var (ok, b) := emit(xs[0], room);
      if !ok then (false, b)
      else
        var (ok', rest) := EmitAll(emit, xs[1..], Left(room, b));
        (ok', b + rest)
  }

  function EmitWhole(part: seq<byte>, room: nat): Emitted {
    if |part| <= room then (true, part) else (false, [])
  }

  /** The bounds of a declaration, until one does not fit. */
  function EmitTail(d: Decl, room: nat): Emitted {
    var w := Declarations.Width(d);
    EmitAll(EmitWhole, [Declarations.Bound(d.hasNeutral, d.neutral, w), Declarations.Bound(d.hasMinimum, d.minimum, w),
                        Declarations.Bound(d.hasMaximum, d.maximum, w)], room)
  }

  function EmitInput(i: Input, room: nat): Emitted { EmitWhole(EncodeInput(i), room) }

  function EmitSensor(x: Sensor, room: nat): Emitted { EmitWhole(EncodeSensor(x), room) }

  function EmitValue(p: Pair, room: nat): Emitted { EmitWhole(EncodeValue(p), room) }

  function EmitFront(m: Module, room: nat): (r: seq<byte>)
    ensures |r| <= room
  {
    var header := Fit(ModuleHeader(m), room);
    header + Fit(EncodeName(m.nameLength, m.name), Left(room, header))
  }

  function EmitModule(m: Module, room: nat): Emitted {
    var front := EmitFront(m, room);
    var left := Left(room, front);
    var (ok, ins) := if m.numInputs > 0 then EmitAll(EmitInput, m.inputs, left) else (true, []);
    if !ok then (false, front + ins)
    else
      var (ok', ses) := if m.numSensors > 0 then EmitAll(EmitSensor, m.sensors, Left(left, ins)) else (true, []);
      (ok', front + ins + ses)
  }

  function EmitConfiguration(c: Configuration, room: nat): Emitted {
    if room < 1 then (false, [])
    else
      var (ok, b) := EmitAll(EmitModule, c.modules, room - 1);
      (ok, [ToByte(c.numModules)] + b)
  }

  /** A control writes as many values as its mask counts. */
  function EmitControl(c: Control, room: nat): Emitted
    requires NumValues(c) <= |c.values|
  {
    var header := Fit(ControlHeader(c), room);
    if IsClear(c) then (true, header)
    else
      var (ok, b) := EmitAll(EmitValue, c.values[..NumValues(c)], Left(room, header));
      (ok, header + b)
  }

  /** A message: header, body and checksum, each written if it fits; success in any case. */
  function EmitMessage(m: Messages.Message, room: nat): seq<byte>
    requires Messages.EncodeMessage(m).Done?
  {
    var header := Fit(Messages.EncodeHeader(m.header), room);
    var body := Fit(Messages.EffectiveBody(m), Left(room, header));
    var trailer := if Messages.Info(m.header.typ).hasChecksum
      then Fit(ErrorDetection.LE32(Messages.ComputeChecksum(m).value), Left(room, header + body)) else [];
    header + body + trailer
  }

  /** The loop seen from its i-th turn, with what is written so far in front of what is still to come. */
  predicate Emitting<T>(emit: (T, nat) -> Emitted, xs: seq<T>, i: nat, room: nat, written: seq<byte>, all: Emitted) {
    i <= |xs| && var rest := EmitAll(emit, xs[i..], room); all == (rest.0, written + rest.1)
  }

  lemma EmitStart<T>(emit: (T, nat) -> Emitted, xs: seq<T>, room: nat)
    ensures Emitting(emit, xs, 0, room, [], EmitAll(emit, xs, room))
  {
    assert xs[0..] == xs && [] + EmitAll(emit, xs, room).1 == EmitAll(emit, xs, room).1;
  }

  lemma EmitStep<T>(emit: (T, nat) -> Emitted, xs: seq<T>, i: nat, room: nat, written: seq<byte>, all: Emitted)
    requires i < |xs| && Emitting(emit, xs, i, room, written, all)
    ensures var (ok, b) := emit(xs[i], room);
      if ok then Emitting(emit, xs, i + 1, Left(room, b), written + b, all) else all == (false, written + b)
  {
    assert xs[i..][1..] == xs[i + 1..];
    var (ok, b) := emit(xs[i], room);
    Regroup(written, b, EmitAll(emit, xs[i + 1..], Left(room, b)).1);
  }

  lemma EmitEnd<T>(emit: (T, nat) -> Emitted, xs: seq<T>, room: nat, written: seq<byte>, all: Emitted)
    requires Emitting(emit, xs, |xs|, room, written, all)
    ensures all == (true, written)
  {
    assert xs[|xs|..] == [] && written + [] == written;
  }

  // ----- Enough room, and too little -----

  /** Records written whole: with room for all of them all are written; otherwise the loop fails. */
  lemma {:induction false} AllOrFailure<T>(enc: T -> seq<byte>, emit: (T, nat) -> Emitted, xs: seq<T>, room: nat)
    requires forall x, n :: emit(x, n) == EmitWhole(enc(x), n)
    ensures var (ok, b) := EmitAll(emit, xs, room);
      && (ok <==> |EncodeAll(enc, xs)| <= room) && (ok ==> b == EncodeAll(enc, xs)) && |b| <= room
    decreases xs
  {
    if xs != [] {
      assert emit(xs[0], room) == EmitWhole(enc(xs[0]), room);
      if |enc(xs[0])| <= room { AllOrFailure(enc, emit, xs[1..], room - |enc(xs[0])|); }
    }
  }

  /** How many records fit one after the other. */
  function Fitting<T>(enc: T -> seq<byte>, xs: seq<T>, room: nat): (k: nat)
    ensures k <= |xs|
    decreases xs
  {
    if xs == [] || |enc(xs[0])| > room then 0 else 1 + Fitting(enc, xs[1..], room - |enc(xs[0])|)
  }

  /** What is written in any case: the records before the first that does not fit, whole and in order; the loop
      succeeds exactly when that is all of them. */
  lemma {:induction false} UpToTheFirstThatDoesNotFit<T>(enc: T -> seq<byte>, emit: (T, nat) -> Emitted, xs: seq<T>, room: nat)
    requires forall x, n :: emit(x, n) == EmitWhole(enc(x), n)
    ensures var k := Fitting(enc, xs, room);
      && EmitAll(emit, xs, room) == (k == |xs|, EncodeAll(enc, xs[..k])) && |EncodeAll(enc, xs[..k])| <= room
      && (k < |xs| ==> |EncodeAll(enc, xs[..k + 1])| > room)
    decreases xs
  {
    if xs != [] {
      assert emit(xs[0], room) == EmitWhole(enc(xs[0]), room);
      if |enc(xs[0])| <= room {
        UpToTheFirstThatDoesNotFit(enc, emit, xs[1..], room - |enc(xs[0])|);
        var k := Fitting(enc, xs[1..], room - |enc(xs[0])|);
        assert xs[..k + 1][1..] == xs[1..][..k];
        if k < |xs[1..]| { assert xs[..k + 2][1..] == xs[1..][..k + 1]; }
      } else {
        assert xs[..1][1..] == [] && enc(xs[0]) + [] == enc(xs[0]);
      }
    }
  }

  lemma EmitThree(a: seq<byte>, b: seq<byte>, c: seq<byte>, room: nat)
    ensures EmitAll(EmitWhole, [a, b, c], room)
      == if |a| > room then (false, []) else if |a + b| > room then (false, a)
         else if |a + b + c| > room then (false, a + b) else (true, a + b + c)
  {
    assert [a, b, c][1..] == [b, c] && [b, c][1..] == [c] && [c][1..] == [];
    assert a + [] == a && b + [] == b && c + [] == c;
    Regroup(a, b, c);
    if |a + b| <= room { EmitLast(c, room - |a| - |b|); }
    if |a| <= room { assert EmitAll(EmitWhole, [b, c], room - |a|).0 <==> |b + c| <= room - |a|; }
  }

  lemma EmitLast(c: seq<byte>, room: nat)
    ensures EmitAll(EmitWhole, [c], room) == EmitWhole(c, room)
  {
    assert [c][1..] == [] && c + [] == c;
  }

  /** With room for the tail, the whole tail is written; without it, encoding fails. */
  lemma TailSuccess(d: Decl, room: nat)
    ensures EmitTail(d, room).0 <==> |Declarations.EncodeTail(d)| <= room
    ensures EmitTail(d, room).0 ==> EmitTail(d, room).1 == Declarations.EncodeTail(d)
  {
    var w := Declarations.Width(d);
    var n, lo, hi := Declarations.Bound(d.hasNeutral, d.neutral, w), Declarations.Bound(d.hasMinimum, d.minimum, w),
      Declarations.Bound(d.hasMaximum, d.maximum, w);
    EmitThree(n, lo, hi, room);
    hide EmitAll, Declarations.Bound;
  }

  lemma InputsEmitted(xs: seq<Input>, room: nat)
    ensures var (ok, b) := EmitAll(EmitInput, xs, room);
      && (ok <==> |EncodeAll(EncodeInput, xs)| <= room) && (ok ==> b == EncodeAll(EncodeInput, xs)) && |b| <= room
  {
    forall x: Input, n: nat ensures EmitInput(x, n) == EmitWhole(EncodeInput(x), n) {}
    hide EncodeInput, EmitInput;
    AllOrFailure(EncodeInput, EmitInput, xs, room);
  }

  lemma SensorsEmitted(xs: seq<Sensor>, room: nat)
    ensures var (ok, b) := EmitAll(EmitSensor, xs, room);
      && (ok <==> |EncodeAll(EncodeSensor, xs)| <= room) && (ok ==> b == EncodeAll(EncodeSensor, xs)) && |b| <= room
  {
    forall x: Sensor, n: nat ensures EmitSensor(x, n) == EmitWhole(EncodeSensor(x), n) {}
    hide EncodeSensor, EmitSensor;
    AllOrFailure(EncodeSensor, EmitSensor, xs, room);
  }

  /** The inputs and sensors of a module, which must all fit for success. */
  function RecordBytes(m: Module): nat { |EncodeAll(EncodeInput, m.inputs)| + |EncodeAll(EncodeSensor, m.sensors)| }

  /** Encoding a module reports success although bytes are missing exactly when there is too little room
      for the module but enough for its inputs and sensors behind what fits of header and name. */
  lemma ModuleSuccess(m: Module, room: nat)
    requires GoodModule(m)
    ensures var (ok, b) := EmitModule(m, room);
      && (ok <==> |EmitFront(m, room)| + RecordBytes(m) <= room)
      && (b == EncodeModule(m) <==> |EncodeModule(m)| <= room)
      && (|EncodeModule(m)| <= room ==> ok) && |b| <= room
  {
    hide EncodeInput, EncodeSensor, ModuleHeader, EncodeName, GoodInput, GoodSensor;
    var left := Left(room, EmitFront(m, room));
    InputsEmitted(m.inputs, left);
    var (ok, ins) := EmitAll(EmitInput, m.inputs, left);
    SensorsEmitted(m.sensors, Left(left, ins));
    var nm, ins', ses := EncodeName(m.nameLength, m.name), EncodeAll(EncodeInput, m.inputs), EncodeAll(EncodeSensor, m.sensors);
    assert EncodeModule(m) == ModuleHeader(m) + (nm + (ins' + ses));
    Regroup(ModuleHeader(m) + nm, ins', ses);
    Regroup(ModuleHeader(m), nm, ins' + ses);
  }

  /** The inputs that fit, and those sensors that do. */
  function InputsThatFit(m: Module, room: nat): seq<byte> { EncodeAll(EncodeInput, m.inputs[..Fitting(EncodeInput, m.inputs, room)]) }

  function SensorsThatFit(m: Module, room: nat): seq<byte> { EncodeAll(EncodeSensor, m.sensors[..Fitting(EncodeSensor, m.sensors, room)]) }

  lemma InputsPart(m: Module, room: nat)
    requires |m.inputs| == m.numInputs
    ensures (if m.numInputs > 0 then EmitAll(EmitInput, m.inputs, room) else (true, []))
      == (Fitting(EncodeInput, m.inputs, room) == |m.inputs|, InputsThatFit(m, room))
  {
    forall x: Input, n: nat ensures EmitInput(x, n) == EmitWhole(EncodeInput(x), n) {}
    hide EncodeInput, EmitInput, EmitWhole;
    UpToTheFirstThatDoesNotFit(EncodeInput, EmitInput, m.inputs, room);
  }

  lemma SensorsPart(m: Module, room: nat)
    requires |m.sensors| == m.numSensors
    ensures (if m.numSensors > 0 then EmitAll(EmitSensor, m.sensors, room) else (true, []))
      == (Fitting(EncodeSensor, m.sensors, room) == |m.sensors|, SensorsThatFit(m, room))
  {
    forall x: Sensor, n: nat ensures EmitSensor(x, n) == EmitWhole(EncodeSensor(x), n) {}
    hide EncodeSensor, EmitSensor, EmitWhole;
    UpToTheFirstThatDoesNotFit(EncodeSensor, EmitSensor, m.sensors, room);
  }

  /** The inputs come after what fitted of header and name, and only if they all fit, the sensors. */
  lemma ModuleOrder(m: Module, room: nat)
    requires GoodModule(m)
    ensures var front := EmitFront(m, room); var left := room - |front|;
      var ins := InputsThatFit(m, left); var ses := SensorsThatFit(m, Left(left, ins));
      EmitModule(m, room).1 == if Fitting(EncodeInput, m.inputs, left) == |m.inputs| then front + ins + ses else front + ins
  {
    var left := room - |EmitFront(m, room)|;
    InputsPart(m, left);
    SensorsPart(m, Left(left, InputsThatFit(m, left)));
    hide EmitInput, EmitSensor, EmitAll, EmitFront, GoodInput, GoodSensor, Fitting, InputsThatFit, SensorsThatFit;
  }

  /** A name without its header: with fewer than four bytes the header is left out, and a short name is not. */
  lemma HeaderLostUnnoticed(m: Module, room: nat)
    requires GoodModule(m) && m.nameLength <= room < 4
    ensures EmitFront(m, room) == EncodeName(m.nameLength, m.name)
  {
    hide ModuleHeader, EncodeName;
    NameLength(m.nameLength, m.name);
    assert [] + EncodeName(m.nameLength, m.name) == EncodeName(m.nameLength, m.name);
  }

  /** Such a module: without inputs and sensors, any name that does not fit is left out unnoticed. */
  lemma NameLostUnnoticed(m: Module, room: nat)
    requires GoodModule(m) && m.inputs == [] && m.sensors == [] && 4 <= room < 4 + m.nameLength
    ensures EmitModule(m, room) == (true, ModuleHeader(m)) && EncodeModule(m) != ModuleHeader(m)
  {
    hide ModuleHeader;
    NameLength(m.nameLength, m.name);
    assert |EncodeModule(m)| > 4;
    assert ModuleHeader(m) + [] == ModuleHeader(m);
  }

  /** Module by module, the inputs and sensors fit behind what fitted of everything before them. */
  predicate RecordsFit(ms: seq<Module>, room: nat)
    decreases ms
  {
    ms == []
    || (var used := |EmitFront(ms[0], room)| + RecordBytes(ms[0]); used <= room && RecordsFit(ms[1..], room - used))
  }

  lemma {:induction false} EmittedLength<T>(enc: T -> seq<byte>, emit: (T, nat) -> Emitted, xs: seq<T>, room: nat)
    requires forall x, n | x in xs :: |emit(x, n).1| <= |enc(x)|
    ensures |EmitAll(emit, xs, room).1| <= |EncodeAll(enc, xs)|
    decreases xs
  {
    if xs != [] {
      assert xs[0] in xs && |emit(xs[0], room).1| <= |enc(xs[0])|;
      EmittedLength(enc, emit, xs[1..], Left(room, emit(xs[0], room).1));
    }
  }

  /** No module writes more than its encoding, and a module that is written without failing uses what fits of
      header and name, and its records. */
  lemma ModuleLength(m: Module, room: nat)
    requires GoodModule(m)
    ensures var (ok, b) := EmitModule(m, room);
      |b| <= |EncodeModule(m)| && (ok ==> |b| == |EmitFront(m, room)| + RecordBytes(m) <= room)
  {
    hide EncodeInput, EncodeSensor, ModuleHeader, EncodeName, GoodInput, GoodSensor;
    var left := Left(room, EmitFront(m, room));
    InputsEmitted(m.inputs, left);
    var (ok, ins) := EmitAll(EmitInput, m.inputs, left);
    SensorsEmitted(m.sensors, Left(left, ins));
    InputsLength(m.inputs, left);
    SensorsLength(m.sensors, Left(left, ins));
  }

  lemma InputsLength(xs: seq<Input>, room: nat)
    ensures |EmitAll(EmitInput, xs, room).1| <= |EncodeAll(EncodeInput, xs)|
  {
    forall x: Input, n: nat ensures |EmitInput(x, n).1| <= |EncodeInput(x)| {}
    hide EncodeInput, EmitInput;
    EmittedLength(EncodeInput, EmitInput, xs, room);
  }

  lemma SensorsLength(xs: seq<Sensor>, room: nat)
    ensures |EmitAll(EmitSensor, xs, room).1| <= |EncodeAll(EncodeSensor, xs)|
  {
    forall x: Sensor, n: nat ensures |EmitSensor(x, n).1| <= |EncodeSensor(x)| {}
    hide EncodeSensor, EmitSensor;
    EmittedLength(EncodeSensor, EmitSensor, xs, room);
  }

  lemma {:induction false} ModulesEmitted(ms: seq<Module>, room: nat)
    requires forall m :: m in ms ==> GoodModule(m)
    ensures var (ok, b) := EmitAll(EmitModule, ms, room);
      && (ok <==> RecordsFit(ms, room))
      && (b == EncodeAll(EncodeModule, ms) <==> |EncodeAll(EncodeModule, ms)| <= room)
      && (|EncodeAll(EncodeModule, ms)| <= room ==> ok) && |b| <= room
    decreases ms
  {
    hide EncodeModule, EmitModule, GoodModule, EmitFront, RecordBytes;
    if ms != [] {
      var m := ms[0];
      ModuleSuccess(m, room);
      ModuleLength(m, room);
      var (ok, b) := EmitModule(m, room);
      if ok {
        ModulesEmitted(ms[1..], room - |b|);
        ModulesLength(ms[1..], room - |b|);
        var rest := EmitAll(EmitModule, ms[1..], room - |b|).1;
        PartsOfWhole(b, rest, EncodeModule(m), EncodeAll(EncodeModule, ms[1..]));
      } else {
        assert |b| < |EncodeModule(m)|;
      }
    }
  }

  lemma ModulesLength(ms: seq<Module>, room: nat)
    requires forall m :: m in ms ==> GoodModule(m)
    ensures |EmitAll(EmitModule, ms, room).1| <= |EncodeAll(EncodeModule, ms)|
  {
    forall m: Module, n: nat | m in ms ensures |EmitModule(m, n).1| <= |EncodeModule(m)| { ModuleLength(m, n); }
    hide EncodeModule, EmitModule;
    EmittedLength(EncodeModule, EmitModule, ms, room);
  }

  lemma PartsOfWhole(a: seq<byte>, b: seq<byte>, a': seq<byte>, b': seq<byte>)
    requires |a| <= |a'| && |b| <= |b'|
    ensures a + b == a' + b' <==> a == a' && b == b'
  {
    if a + b == a' + b' {
      assert |a| == |a'|;
      assert a == (a + b)[..|a|] && a' == (a' + b')[..|a'|];
      assert b == (a + b)[|a|..] && b' == (a' + b')[|a'|..];
    }
  }

  /** A configuration is written whole exactly when there is room for it, and success is reported exactly when
      the count fits and, module by module, the inputs and sensors fit behind what fitted of what is before. */
  lemma ConfigurationSuccess(c: Configuration, room: nat)
    requires GoodConfiguration(c)
    ensures var (ok, b) := EmitConfiguration(c, room);
      && (ok <==> 1 <= room && RecordsFit(c.modules, room - 1))
      && (b == EncodeConfiguration(c) <==> |EncodeConfiguration(c)| <= room)
      && (|EncodeConfiguration(c)| <= room ==> ok) && |b| <= room
  {
    hide EncodeModule, EmitModule, GoodModule, ToByte, RecordsFit;
    if room >= 1 { ModulesEmitted(c.modules, room - 1); }
  }

  /** So modules without inputs and sensors are left out unnoticed, however many. */
  lemma {:induction false} ModulesLostUnnoticed(ms: seq<Module>)
    requires forall m :: m in ms ==> m.inputs == [] && m.sensors == []
    ensures RecordsFit(ms, 0)
    decreases ms
  {
    hide EncodeInput, EncodeSensor, ModuleHeader, EncodeName;
    if ms != [] {
      assert ms[0] in ms;
      ModulesLostUnnoticed(ms[1..]);
    }
  }

  /** A control whose mask counts its values is written whole exactly when there is room for it; without
      room for its header alone, success may be reported for the values on their own. */
  lemma ControlSuccess(c: Control, room: nat)
    requires IsClear(c) || NumValues(c) == |c.values|
    ensures var (ok, b) := EmitControl(c, room);
      var values := if IsClear(c) then 0 else |EncodeAll(EncodeValue, c.values)|;
      && (ok <==> IsClear(c) || |Fit(ControlHeader(c), room)| + values <= room)
      && (b == EncodeControl(c) <==> |EncodeControl(c)| <= room)
      && (|EncodeControl(c)| <= room ==> ok) && |b| <= room
  {
    hide ControlHeader, EncodeValue, Has;
    var header := Fit(ControlHeader(c), room);
    if !IsClear(c) {
      assert c.values[..NumValues(c)] == c.values;
      forall x: Pair, n: nat ensures EmitValue(x, n) == EmitWhole(EncodeValue(x), n) {}
      hide EmitValue;
      AllOrFailure(EncodeValue, EmitValue, c.values, Left(room, header));
    }
  }

  /** So a body may be lost and the checksum written straight behind the header, or the header lost alone. */
  lemma PartsLostUnnoticed(m: Messages.Message, room: nat)
    requires Messages.EncodeMessage(m).Done?
    ensures var h, body := Messages.EncodeHeader(m.header), Messages.EffectiveBody(m);
      var c := Messages.ComputeChecksum(m); var protected := Messages.Protected(m.header.typ);
      && (room < 3 ==> EmitMessage(m, room) == Fit(body, room))
      && (3 <= room < 3 + |body| ==> EmitMessage(m, room) == h + if protected && 7 <= room then ErrorDetection.LE32(c.value) else [])
      && (3 + |body| <= room ==> EmitMessage(m, room) == h + body
                                   + if protected && 7 + |body| <= room then ErrorDetection.LE32(c.value) else [])
  {
    Messages.ProtectedIff(m.header.typ);
    hide Messages.EncodeHeader, Messages.EffectiveBody, ErrorDetection.LE32, Messages.ComputeChecksum;
    var h := Messages.EncodeHeader(m.header);
    assert h + [] == h && forall b: seq<byte> :: [] + b + [] == b;
  }

  /** A message is written whole exactly when there is room for it, and success is reported regardless. */
  lemma MessageEmitted(m: Messages.Message, room: nat)
    requires Messages.EncodeMessage(m).Done?
    ensures EmitMessage(m, room) == Messages.EncodeMessage(m).value <==> |Messages.EncodeMessage(m).value| <= room
    ensures |EmitMessage(m, room)| <= room
  {
    hide Messages.EncodeHeader, ErrorDetection.LE32, Messages.ComputeChecksum;
  }
}
