/** Building a configuration by adding modules, inputs and sensors, and the dense ids this gives
    (include/crisp/comms/Module.hh, include/crisp/comms/Configuration.hh). Every counter is a
    `uint8_t` and wraps. */
module Building {
  import opened NamedRecords
  import opened Configurations
  import opened Outcomes
  import Declarations

  function Next(n: nat): nat { (n + 1) % 256 }

  /** `Module::Module(name)`. */
  function NewModule(nameLength: nat, name: Name): Module { BLANK.(nameLength := nameLength, name := name) }

  function AddInput(m: Module, i: Input): Module {
    m.(numInputs := Next(m.numInputs), inputs := m.inputs + [i.(id := m.nextInputId)], nextInputId := Next(m.nextInputId))
  }

  /** The id is stored in the element that the incremented counter points at; a counter that has
      wrapped to zero, or that has run ahead of the array, points outside. */
  function AddSensor(m: Module, x: Sensor): Outcome<Module> {
    var n, sensors := Next(m.numSensors), m.sensors + [x];
    if n == 0 || n > |sensors| then OutOfBounds
    else
      Done(m.(numSensors := n, sensors := sensors[n - 1 := sensors[n - 1].(id := m.nextSensorId)],
              nextSensorId := Next(m.nextSensorId)))
  }

  function AddModule(c: Configuration, m: Module): Configuration {
    Configuration(Next(c.numModules), c.modules + [m.(id := c.nextModuleId)], Next(c.nextModuleId))
  }

  /** Counters equal array sizes and every id is its index. */
  predicate DenseInputs(m: Module) {
    |m.inputs| == m.numInputs == m.nextInputId < 256 && forall i :: 0 <= i < |m.inputs| ==> m.inputs[i].id == i
  }

  predicate DenseSensors(m: Module) {
    |m.sensors| == m.numSensors == m.nextSensorId < 256 && forall i :: 0 <= i < |m.sensors| ==> m.sensors[i].id == i
  }

  predicate DenseModules(c: Configuration) {
    |c.modules| == c.numModules == c.nextModuleId < 256 && forall i :: 0 <= i < |c.modules| ==> c.modules[i].id == i
  }

  /** The id and the name. */
  predicate SameFace(m: Module, m': Module) { m'.id == m.id && m'.nameLength == m.nameLength && m'.name == m.name }

  /** Adding an input keeps ids dense exactly until the byte-sized counter wraps. */
  lemma AddInputDense(m: Module, i: Input)
    requires DenseInputs(m)
    ensures DenseInputs(AddInput(m, i)) <==> |m.inputs| < 255
    ensures var m' := AddInput(m, i); m'.inputs == m.inputs + [i.(id := |m.inputs|)] && m'.sensors == m.sensors && SameFace(m, m')
  {
    assert AddInput(m, i).inputs[|m.inputs|].id == |m.inputs|;
  }

  /** Adding a sensor succeeds and keeps ids dense exactly until the counter wraps. */
  lemma AddSensorDense(m: Module, x: Sensor)
    requires DenseSensors(m)
    ensures AddSensor(m, x).Done? <==> |m.sensors| < 255
    ensures |m.sensors| == 255 ==> AddSensor(m, x) == OutOfBounds
    ensures AddSensor(m, x).Done? ==> var m' := AddSensor(m, x).value;
      DenseSensors(m') && m'.sensors == m.sensors + [x.(id := |m.sensors|)] && m'.inputs == m.inputs && SameFace(m, m')
  {}

  lemma AddModuleDense(c: Configuration, m: Module)
    requires DenseModules(c)
    ensures DenseModules(AddModule(c, m)) <==> |c.modules| < 255
    ensures AddModule(c, m).modules == c.modules + [m.(id := |c.modules|)]
  {
    assert AddModule(c, m).modules[|c.modules|].id == |c.modules|;
  }

  // ----- Runs of adds -----

  /** `add_module` hands out a reference, through which inputs and sensors are added later. */
  datatype Add =
    | NewModuleNamed(nameLength: nat, name: Name)
    | InputTo(k: nat, input: Input)
    | SensorTo(k: nat, sensor: Sensor)

  /** The arrays stay within the byte-sized counters and what is added is well formed. */
  predicate Allowed(c: Configuration, a: Add) {
    match a
    case NewModuleNamed(n, name) => |c.modules| < 255 && GoodName(n, name)
    case InputTo(k, i) => k < |c.modules| && |c.modules[k].inputs| < 255 && GoodInput(i)
    case SensorTo(k, x) => k < |c.modules| && AddSensor(c.modules[k], x).Done? && GoodSensor(x)
  }

  function Apply(c: Configuration, a: Add): Configuration
    requires Allowed(c, a)
  {
    match a
    case NewModuleNamed(n, name) => AddModule(c, NewModule(n, name))
    case InputTo(k, i) => c.(modules := c.modules[k := AddInput(c.modules[k], i)])
    case SensorTo(k, x) => c.(modules := c.modules[k := AddSensor(c.modules[k], x).value])
  }

  ghost predicate AllowedRun(c: Configuration, adds: seq<Add>)
    decreases adds
  {
    adds == [] || (Allowed(c, adds[0]) && AllowedRun(Apply(c, adds[0]), adds[1..]))
  }

  ghost function Run(c: Configuration, adds: seq<Add>): Configuration
    requires AllowedRun(c, adds)
    decreases adds
  {
    if adds == [] then c else Run(Apply(c, adds[0]), adds[1..])
  }

  /** Well formed for the wire, with dense ids at every level. */
  predicate Sound(c: Configuration) {
    GoodConfiguration(c) && DenseModules(c) && forall m :: m in c.modules ==> DenseInputs(m) && DenseSensors(m)
  }

  lemma GoodAfterInput(m: Module, i: Input)
    requires GoodModule(m) && DenseInputs(m) && DenseSensors(m) && |m.inputs| < 255 && GoodInput(i)
    ensures var m' := AddInput(m, i); GoodModule(m') && DenseInputs(m') && DenseSensors(m') && m'.id == m.id
  {
    AddInputDense(m, i);
    hide Declarations.WellFormed, GoodName;
  }

  lemma GoodAfterSensor(m: Module, x: Sensor)
    requires GoodModule(m) && DenseInputs(m) && DenseSensors(m) && |m.sensors| < 255 && GoodSensor(x)
    ensures var m' := AddSensor(m, x).value; GoodModule(m') && DenseInputs(m') && DenseSensors(m') && m'.id == m.id
  {
    hide Declarations.WellFormed, GoodName;
  }

  lemma ApplyKeepsSound(c: Configuration, a: Add)
    requires Sound(c) && Allowed(c, a)
    ensures Sound(Apply(c, a))
  {
    hide GoodModule, DenseInputs, DenseSensors, GoodName, GoodInput, GoodSensor;
    var c' := Apply(c, a);
    match a
    case NewModuleNamed(n, name) =>
      NamedModuleIsGood(n, name, c.nextModuleId);
      forall m | m in c'.modules ensures GoodModule(m) && DenseInputs(m) && DenseSensors(m) {}
    case InputTo(k, i) =>
      assert c.modules[k] in c.modules;
      InputsAreDense(c.modules[k]);
      GoodAfterInput(c.modules[k], i);
      forall m | m in c'.modules ensures GoodModule(m) && DenseInputs(m) && DenseSensors(m) {
        assert m == c'.modules[k] || m in c.modules;
      }
    case SensorTo(k, x) =>
      assert c.modules[k] in c.modules;
      AddSensorDense(c.modules[k], x);
      GoodAfterSensor(c.modules[k], x);
      forall m | m in c'.modules ensures GoodModule(m) && DenseInputs(m) && DenseSensors(m) {
        assert m == c'.modules[k] || m in c.modules;
      }
  }

  lemma InputsAreDense(m: Module)
    requires DenseInputs(m)
    ensures |m.inputs| == m.nextInputId
  {}

  lemma NamedModuleIsGood(n: nat, name: Name, id: nat)
    requires GoodName(n, name) && id < 256
    ensures var m := NewModule(n, name).(id := id); GoodModule(m) && DenseInputs(m) && DenseSensors(m)
  {
    hide GoodName;
  }

  /** Whatever is added, in whatever order, the configuration stays well formed with dense ids. */
  lemma {:induction false} RunKeepsSound(c: Configuration, adds: seq<Add>)
    requires Sound(c) && AllowedRun(c, adds)
    ensures Sound(Run(c, adds))
    decreases adds
  {
    hide Sound, Allowed, Apply;
    if adds != [] {
      ApplyKeepsSound(c, adds[0]);
      RunKeepsSound(Apply(c, adds[0]), adds[1..]);
    }
  }

  /** So whatever is built from nothing is well formed, with dense ids. */
  lemma BuiltIsSound(adds: seq<Add>)
    requires AllowedRun(EMPTY, adds)
    ensures Sound(Run(EMPTY, adds))
  {
    RunKeepsSound(EMPTY, adds);
  }

  /** What was there stays: the module with its id and name, and its inputs and sensors in their places. */
  predicate Kept(m: Module, m': Module) { SameFace(m, m') && m.inputs <= m'.inputs && m.sensors <= m'.sensors }

  ghost predicate OnlyAdds(c: Configuration, c': Configuration) {
    |c.modules| <= |c'.modules| && forall k :: 0 <= k < |c.modules| ==> Kept(c.modules[k], c'.modules[k])
  }

  /** One addition: a module with its name and nothing in it, or the input or sensor given, with its index as
      id, at the end of its module. */
  lemma ApplyAdds(c: Configuration, a: Add)
    requires Sound(c) && Allowed(c, a)
    ensures OnlyAdds(c, Apply(c, a))
    ensures var n, n' := |c.modules|, |Apply(c, a).modules|; match a
      case NewModuleNamed(length, name) => n' == n + 1 && var m := Apply(c, a).modules[n];
        m.id == n && m.nameLength == length && m.name == name && !m.ownsName && m.inputs == [] && m.sensors == []
      case InputTo(k, i) => n' == n && var m, m' := c.modules[k], Apply(c, a).modules[k];
        m'.inputs == m.inputs + [i.(id := |m.inputs|)] && m'.sensors == m.sensors
      case SensorTo(k, x) => n' == n && var m, m' := c.modules[k], Apply(c, a).modules[k];
        m'.sensors == m.sensors + [x.(id := |m.sensors|)] && m'.inputs == m.inputs
  {
    hide GoodModule, GoodInput, GoodSensor, GoodName;
    match a
    case NewModuleNamed(n, name) => AddModuleDense(c, NewModule(n, name));
    case InputTo(k, i) => AddInputDense(c.modules[k], i);
    case SensorTo(k, x) => AddSensorDense(c.modules[k], x);
  }

  lemma OnlyAddsOn(a: Configuration, b: Configuration, c: Configuration)
    requires OnlyAdds(a, b) && OnlyAdds(b, c)
    ensures OnlyAdds(a, c)
  {
    forall k | 0 <= k < |a.modules| ensures Kept(a.modules[k], c.modules[k]) {
      assert Kept(a.modules[k], b.modules[k]) && Kept(b.modules[k], c.modules[k]);
    }
  }

  /** Over any run of additions nothing that is there changes: names, ids, inputs and sensors stay. */
  lemma {:induction false} RunOnlyAdds(c: Configuration, adds: seq<Add>)
    requires Sound(c) && AllowedRun(c, adds)
    ensures OnlyAdds(c, Run(c, adds))
    decreases adds
  {
    if adds != [] {
      ApplyKeepsSound(c, adds[0]);
      ApplyAdds(c, adds[0]);
      hide Sound, Allowed, Apply, OnlyAdds;
      RunOnlyAdds(Apply(c, adds[0]), adds[1..]);
      OnlyAddsOn(c, Apply(c, adds[0]), Run(c, adds));
    }
  }

  // ----- Ids after decoding -----

  /** Decoding a module restores its counters, so that adding goes on with fresh ids. */
  lemma DecodedModuleStaysDense(m: Module)
    requires GoodModule(m) && DenseInputs(m) && DenseSensors(m)
    ensures DenseInputs(CanonicalModule(m)) && DenseSensors(CanonicalModule(m))
  {
    hide Declarations.Canonical, CanonicalName, Declarations.WellFormed, GoodName;
    var m' := CanonicalModule(m);
    assert |m'.inputs| == |m.inputs| && |m'.sensors| == |m.sensors|;
    if m.inputs != [] { assert m'.inputs[|m.inputs| - 1].id == |m.inputs| - 1; }
    if m.sensors != [] { assert m'.sensors[|m.sensors| - 1].id == |m.sensors| - 1; }
  }

  /** Decoding a configuration does not restore its module counter: a module added afterwards gets
      id 0, which is free exactly when there were no modules. */
  lemma AddAfterDecode(c: Configuration, m: Module)
    requires Sound(c)
    ensures var d := CanonicalConfiguration(c); var e := AddModule(d, m);
      && (forall i :: 0 <= i < |c.modules| ==> d.modules[i].id == i)
      && ((forall i, j :: 0 <= i < j < |e.modules| ==> e.modules[i].id != e.modules[j].id) <==> c.modules == [])
  {
    hide CanonicalInput, CanonicalSensor, CanonicalName, NextInputId, NextSensorId, GoodModule;
    var d := CanonicalConfiguration(c);
    var e := AddModule(d, m);
    if c.modules != [] {
      assert e.modules[0].id == 0 && e.modules[|c.modules|].id == 0;
    }
  }
}
