/** Modules and configurations (src/comms/Module.cc, src/comms/Configuration.cc): their wire form,
    what the peer rebuilds from it, and the ids they hand out. */
module Configurations {
  import opened Bytes
  import opened Records
  import opened NamedRecords

  datatype Module = Module(
    id: nat,
    numInputs: nat,
    numSensors: nat,
    nameLength: nat,
    name: Name,
    inputs: seq<Input>,
    sensors: seq<Sensor>,
    nextInputId: nat,
    nextSensorId: nat,
    ownsName: bool)

  /** The null-constructed module. */
  const BLANK := Module(0, 0, 0, 0, NoName, [], [], 0, 0, false)

  predicate GoodModule(m: Module) {
    && m.id < 256 && GoodName(m.nameLength, m.name)
    && |m.inputs| == m.numInputs < 256 && |m.sensors| == m.numSensors < 256
    && (forall i :: i in m.inputs ==> GoodInput(i)) && (forall x :: x in m.sensors ==> GoodSensor(x))
  }

  function ModuleHeader(m: Module): (r: seq<byte>)
    ensures |r| == 4
  {
    [ToByte(m.id), ToByte(m.numInputs), ToByte(m.numSensors), ToByte(m.nameLength)]
  }

  function EncodeModule(m: Module): seq<byte> {
    ModuleHeader(m) + (EncodeName(m.nameLength, m.name)
    + ((if m.numInputs > 0 then EncodeAll(EncodeInput, m.inputs) else [])
       + (if m.numSensors > 0 then EncodeAll(EncodeSensor, m.sensors) else [])))
  }

  /** `Module::reset`: the name length goes to zero only when the module owned its name; the id stays. */
  function ResetModule(m: Module): Module {
    var freed := m.ownsName && m.name != NoName;
    m.(nameLength := if freed then 0 else m.nameLength, name := if freed then NoName else m.name,
       numInputs := 0, numSensors := 0, inputs := [], sensors := [],
       nextInputId := 0, nextSensorId := 0, ownsName := false)
  }

  function ReadModuleHeader(m: Module, s: seq<byte>): (Module, seq<byte>) {
    if |s| < 4 then (m, s)
    else (m.(id := ByteValue(s[0]), numInputs := ByteValue(s[1]), numSensors := ByteValue(s[2]),
             nameLength := ByteValue(s[3])), s[4..])
  }

  function NextInputId(inputs: seq<Input>): nat {
    if inputs == [] then 0 else (inputs[|inputs| - 1].id + 1) % 256
  }

  function NextSensorId(sensors: seq<Sensor>): nat {
    if sensors == [] then 0 else (sensors[|sensors| - 1].id + 1) % 256
  }

  /** Name, inputs and sensors as the header announces them, and the counters they leave. */
  function FillModule(m: Module, s: seq<byte>): (Module, seq<byte>) {
    var (name, s1) := DecodeName(m.nameLength, s);
    var (inputs, s2) := DecodeAll(DecodeInput, m.numInputs, s1);
    var (sensors, s3) := DecodeAll(DecodeSensor, m.numSensors, s2);
    (m.(name := name, ownsName := m.nameLength > 0, inputs := inputs, sensors := sensors,
        nextInputId := NextInputId(inputs), nextSensorId := NextSensorId(sensors)), s3)
  }

  /** `Module::decode` into an existing module. */
  function DecodeModuleInto(m: Module, s: seq<byte>): (Module, seq<byte>) {
    var (m1, s1) := ReadModuleHeader(ResetModule(m), s);
    FillModule(m1, s1)
  }

  function DecodeModule(s: seq<byte>): (Module, seq<byte>) { DecodeModuleInto(BLANK, s) }

  function CanonicalModule(m: Module): Module {
    var inputs, sensors := MapAll(CanonicalInput, m.inputs), MapAll(CanonicalSensor, m.sensors);
    m.(name := CanonicalName(m.nameLength, m.name), ownsName := m.nameLength > 0, inputs := inputs, sensors := sensors,
       nextInputId := NextInputId(inputs), nextSensorId := NextSensorId(sensors))
  }

  lemma ModuleHeaderRoundTrip(m: Module, m0: Module, rest: seq<byte>)
    requires GoodModule(m)
    ensures ReadModuleHeader(m0, ModuleHeader(m) + rest)
      == (m0.(id := m.id, numInputs := m.numInputs, numSensors := m.numSensors, nameLength := m.nameLength), rest)
  {
    hide ToByte, ByteValue;
    ByteRoundTrip(m.id); ByteRoundTrip(m.numInputs); ByteRoundTrip(m.numSensors); ByteRoundTrip(m.nameLength);
    Split(ModuleHeader(m), rest);
  }

  lemma InputsDelimit(inputs: seq<Input>, rest: seq<byte>)
    requires forall i :: i in inputs ==> GoodInput(i)
    ensures DecodeAll(DecodeInput, |inputs|, EncodeAll(EncodeInput, inputs) + rest) == (MapAll(CanonicalInput, inputs), rest)
  {
    hide EncodeInput, DecodeInput, CanonicalInput, GoodInput;
    forall i | i in inputs ensures SelfDelimiting(EncodeInput, DecodeInput, CanonicalInput, i) {
      forall r: seq<byte> ensures DecodeInput(EncodeInput(i) + r) == (CanonicalInput(i), r) { InputRoundTrip(i, r); }
    }
    ListsDelimit(EncodeInput, DecodeInput, CanonicalInput, inputs, rest);
  }

  lemma SensorsDelimit(sensors: seq<Sensor>, rest: seq<byte>)
    requires forall x :: x in sensors ==> GoodSensor(x)
    ensures DecodeAll(DecodeSensor, |sensors|, EncodeAll(EncodeSensor, sensors) + rest) == (MapAll(CanonicalSensor, sensors), rest)
  {
    hide EncodeSensor, DecodeSensor, CanonicalSensor, GoodSensor;
    forall x | x in sensors ensures SelfDelimiting(EncodeSensor, DecodeSensor, CanonicalSensor, x) {
      forall r: seq<byte> ensures DecodeSensor(EncodeSensor(x) + r) == (CanonicalSensor(x), r) { SensorRoundTrip(x, r); }
    }
    ListsDelimit(EncodeSensor, DecodeSensor, CanonicalSensor, sensors, rest);
  }

  /** Decoding an encoded module, into any module at all, rebuilds it and stops where it ends. */
  lemma ModuleRoundTrip(m: Module, m0: Module, rest: seq<byte>)
    requires GoodModule(m)
    ensures DecodeModuleInto(m0, EncodeModule(m) + rest) == (CanonicalModule(m), rest)
  {
    hide ModuleHeader, ReadModuleHeader, EncodeName, DecodeName, CanonicalName, GoodInput, GoodSensor, NextInputId, NextSensorId,
      EncodeInput, EncodeSensor, DecodeInput, DecodeSensor, CanonicalInput, CanonicalSensor;
    var nm, ins, ses := EncodeName(m.nameLength, m.name), EncodeAll(EncodeInput, m.inputs), EncodeAll(EncodeSensor, m.sensors);
    assert EncodeModule(m) == ModuleHeader(m) + (nm + (ins + ses));
    hide EncodeModule;
    Regroup(ModuleHeader(m), nm + (ins + ses), rest);
    Regroup(nm, ins + ses, rest);
    Regroup(ins, ses, rest);
    ModuleHeaderRoundTrip(m, ResetModule(m0), nm + (ins + (ses + rest)));
    NameRoundTrip(m.nameLength, m.name, ins + (ses + rest));
    InputsDelimit(m.inputs, ses + rest);
    SensorsDelimit(m.sensors, rest);
  }

  // ----- Configurations -----

  datatype Configuration = Configuration(numModules: nat, modules: seq<Module>, nextModuleId: nat)

  const EMPTY := Configuration(0, [], 0)

  predicate GoodConfiguration(c: Configuration) {
    |c.modules| == c.numModules < 256 && forall m :: m in c.modules ==> GoodModule(m)
  }

  function EncodeConfiguration(c: Configuration): seq<byte> {
    [ToByte(c.numModules)] + EncodeAll(EncodeModule, c.modules)
  }

  datatype DecodeResult = SUCCESS | BUFFER_UNDERFLOW

  /** `Configuration::decode`: only the count can report an underflow. */
  function DecodeConfiguration(s: seq<byte>): (DecodeResult, Configuration, seq<byte>) {
    if s == [] then (BUFFER_UNDERFLOW, EMPTY, s)
    else
      var (modules, rest) := DecodeAll(DecodeModule, ByteValue(s[0]), s[1..]);
      (SUCCESS, Configuration(ByteValue(s[0]), modules, 0), rest)
  }

  function CanonicalConfiguration(c: Configuration): Configuration {
    Configuration(c.numModules, MapAll(CanonicalModule, c.modules), 0)
  }

  lemma ModulesDelimit(modules: seq<Module>, rest: seq<byte>)
    requires forall m :: m in modules ==> GoodModule(m)
    ensures DecodeAll(DecodeModule, |modules|, EncodeAll(EncodeModule, modules) + rest) == (MapAll(CanonicalModule, modules), rest)
  {
    hide EncodeModule, DecodeModuleInto, CanonicalModule, GoodModule;
    forall m | m in modules ensures SelfDelimiting(EncodeModule, DecodeModule, CanonicalModule, m) {
      forall r: seq<byte> ensures DecodeModule(EncodeModule(m) + r) == (CanonicalModule(m), r) { ModuleRoundTrip(m, BLANK, r); }
    }
    ListsDelimit(EncodeModule, DecodeModule, CanonicalModule, modules, rest);
  }

  /** The whole configuration comes back, and decoding stops exactly at what follows it. */
  lemma ConfigurationRoundTrip(c: Configuration, rest: seq<byte>)
    requires GoodConfiguration(c)
    ensures DecodeConfiguration(EncodeConfiguration(c) + rest) == (SUCCESS, CanonicalConfiguration(c), rest)
    ensures SameConfiguration(c, CanonicalConfiguration(c))
  {
    hide ToByte, ByteValue, EncodeModule, DecodeModule, CanonicalModule, GoodModule, SameModule;
    ByteRoundTrip(c.numModules);
    ModulesDelimit(c.modules, rest);
    assert (EncodeConfiguration(c) + rest)[1..] == EncodeAll(EncodeModule, c.modules) + rest;
    forall i | 0 <= i < |c.modules| ensures SameModule(c.modules[i], CanonicalModule(c.modules[i])) {
      CanonicalModuleIsSame(c.modules[i]);
    }
  }

  /** `Module::operator ==`: the four header bytes, the name, the sensors and the inputs. */
  predicate SameModule(a: Module, b: Module) {
    && a.id == b.id && a.numInputs == b.numInputs && a.numSensors == b.numSensors && a.nameLength == b.nameLength
    && SameName(a.nameLength, a.name, b.name)
    && (forall i :: 0 <= i < |a.sensors| && i < |b.sensors| && i < a.numSensors ==> SameSensor(a.sensors[i], b.sensors[i]))
    && (forall i :: 0 <= i < |a.inputs| && i < |b.inputs| && i < a.numInputs ==> SameInput(a.inputs[i], b.inputs[i]))
  }

  /** `Configuration::operator ==`: counts and modules; `next_module_id` is not compared. */
  predicate SameConfiguration(a: Configuration, b: Configuration) {
    a.numModules == b.numModules
    && forall i :: 0 <= i < |a.modules| && i < |b.modules| && i < a.numModules ==> SameModule(a.modules[i], b.modules[i])
  }

  lemma CanonicalModuleIsSame(m: Module)
    requires GoodModule(m)
    ensures SameModule(m, CanonicalModule(m)) && GoodModule(CanonicalModule(m))
  {
    hide CanonicalInput, CanonicalSensor, SameInput, SameSensor, GoodInput, GoodSensor, NextInputId, NextSensorId;
    forall i | 0 <= i < |m.inputs|
      ensures SameInput(m.inputs[i], CanonicalInput(m.inputs[i])) && GoodInput(CanonicalInput(m.inputs[i]))
    {
      CanonicalInputIsSame(m.inputs[i]);
    }
    forall i | 0 <= i < |m.sensors|
      ensures SameSensor(m.sensors[i], CanonicalSensor(m.sensors[i])) && GoodSensor(CanonicalSensor(m.sensors[i]))
    {
      CanonicalSensorIsSame(m.sensors[i]);
    }
  }

  lemma CanonicalModuleDetermines(a: Module, b: Module)
    requires GoodModule(a) && GoodModule(b) && CanonicalModule(a) == CanonicalModule(b)
    ensures SameModule(a, b)
  {
    hide CanonicalInput, CanonicalSensor, SameInput, SameSensor, GoodInput, GoodSensor, NextInputId, NextSensorId;
    forall i | 0 <= i < |a.inputs| ensures SameInput(a.inputs[i], b.inputs[i]) {
      assert MapAll(CanonicalInput, a.inputs)[i] == MapAll(CanonicalInput, b.inputs)[i];
      CanonicalInputDetermines(a.inputs[i], b.inputs[i]);
    }
    forall i | 0 <= i < |a.sensors| ensures SameSensor(a.sensors[i], b.sensors[i]) {
      assert MapAll(CanonicalSensor, a.sensors)[i] == MapAll(CanonicalSensor, b.sensors)[i];
      CanonicalSensorDetermines(a.sensors[i], b.sensors[i]);
    }
  }

  /** The code is injective up to equality and prefix-free: equal byte streams that start with two
      encodings start with equal configurations and continue with equal bytes. */
  lemma ConfigurationCodeIsPrefixFree(a: Configuration, b: Configuration, r: seq<byte>, r': seq<byte>)
    requires GoodConfiguration(a) && GoodConfiguration(b)
    requires EncodeConfiguration(a) + r == EncodeConfiguration(b) + r'
    ensures SameConfiguration(a, b) && r == r'
  {
    hide EncodeConfiguration, DecodeConfiguration, CanonicalModule, SameModule, GoodModule;
    ConfigurationRoundTrip(a, r);
    ConfigurationRoundTrip(b, r');
    forall i | 0 <= i < |a.modules| ensures SameModule(a.modules[i], b.modules[i]) {
      assert CanonicalConfiguration(a).modules[i] == CanonicalConfiguration(b).modules[i];
      CanonicalModuleDetermines(a.modules[i], b.modules[i]);
    }
  }
}
