/** Modules and configurations as the objects the program updates in place (src/comms/Module.cc,
    src/comms/Configuration.cc). Each method is tied to the value-level code of `Configurations`. */
module Objects {
  import opened Bytes
  import opened Records
  import opened NamedRecords
  import opened Configurations
  import opened Outcomes
  import opened RecordTranscoding
  import opened Emission
  import Buffers
  import Building

  type EncodeBuffer = Buffers.MemoryEncodeBuffer
  type DecodeBuffer = Buffers.DecodeBuffer

  class ModuleObject {
    var id: nat
    var numInputs: nat
    var numSensors: nat
    var nameLength: nat
    var name: Name
    var inputs: seq<Input>
    var sensors: seq<Sensor>
    var nextInputId: nat
    var nextSensorId: nat
    var ownsName: bool

    ghost function Val(): Module reads this {
      Module(id, numInputs, numSensors, nameLength, name, inputs, sensors, nextInputId, nextSensorId, ownsName)
    }

    constructor ()
      ensures Val() == BLANK
    {
      id, numInputs, numSensors, nameLength, name := 0, 0, 0, 0, NoName;
      inputs, sensors, nextInputId, nextSensorId, ownsName := [], [], 0, 0, false;
    }

    constructor Named(nameLength: nat, name: Name)
      ensures Val() == Building.NewModule(nameLength, name)
    {
      id, numInputs, numSensors, this.nameLength, this.name := 0, 0, 0, nameLength, name;
      inputs, sensors, nextInputId, nextSensorId, ownsName := [], [], 0, 0, false;
    }

    method Reset()
      modifies this
      ensures Val() == ResetModule(old(Val()))
    {
      if ownsName && name != NoName { name, nameLength := NoName, 0; }
      numInputs, numSensors := 0, 0;
      inputs, sensors := [], [];
      nextInputId, nextSensorId, ownsName := 0, 0, false;
    }

    method AddInput(i: Input)
      modifies this
      ensures Val() == Building.AddInput(old(Val()), i)
    {
      numInputs := Building.Next(numInputs);
      inputs := inputs + [i];
      inputs := inputs[|inputs| - 1 := i.(id := nextInputId)];
      nextInputId := Building.Next(nextInputId);
    }

    /** The id goes to the element that the counter points at, which must be in the array. */
    method AddSensor(x: Sensor) returns (r: Outcome<()>)
      modifies this
      ensures match Building.AddSensor(old(Val()), x)
        case Done(m) => r == Done(()) && Val() == m
        case AssertionFailed => r == AssertionFailed
        case OutOfBounds => r == OutOfBounds
    {
      numSensors := Building.Next(numSensors);
      sensors := sensors + [x];
      if numSensors == 0 || numSensors > |sensors| { return OutOfBounds; }
      sensors := sensors[numSensors - 1 := sensors[numSensors - 1].(id := nextSensorId)];
      nextSensorId := Building.Next(nextSensorId);
      r := Done(());
    }

    predicate Named?(k: nat, chars: seq<byte>)
      requires k < |inputs|
      reads this
    {
      inputs[k].nameLength == |chars| && (chars == [] || inputs[k].name == Text(chars))
    }

    /** The first input of that name, or none. */
    method FindInput(chars: seq<byte>) returns (k: nat)
      requires GoodModule(Val())
      ensures k <= numInputs
      ensures k < numInputs ==> Named?(k, chars)
      ensures forall j :: 0 <= j < k ==> !Named?(j, chars)
    {
      k := 0;
      while k < numInputs
        invariant k <= numInputs && forall j :: 0 <= j < k ==> !Named?(j, chars)
      {
        if inputs[k].nameLength == |chars| && (chars == [] || inputs[k].name == Text(chars)) { return; }
        k := k + 1;
      }
    }

    method EncodedSize() returns (n: nat)
      requires GoodModule(Val())
      ensures n == |EncodeModule(Val())|
    {
      hide InputSize, SensorSize, EncodeInput, EncodeSensor, GoodInput, GoodSensor;
      n := 4 + nameLength;
      NameLength(nameLength, name);
      var i := 0;
      while i < |inputs|
        invariant i <= |inputs| && n == 4 + nameLength + |EncodeAll(EncodeInput, inputs[..i])|
      {
        InputRoundTrip(inputs[i], []);
        EncodeAllStep(EncodeInput, inputs, i);
        n := n + InputSize(inputs[i]);
        i := i + 1;
      }
      assert inputs[..i] == inputs;
      i := 0;
      while i < |sensors|
        invariant i <= |sensors|
        invariant n == 4 + nameLength + |EncodeAll(EncodeInput, inputs)| + |EncodeAll(EncodeSensor, sensors[..i])|
      {
        SensorRoundTrip(sensors[i], []);
        EncodeAllStep(EncodeSensor, sensors, i);
        n := n + SensorSize(sensors[i]);
        i := i + 1;
      }
      assert sensors[..i] == sensors;
    }

    /** Header and name, either of which is left out unnoticed when it does not fit. */
    method EncodeFront(buf: EncodeBuffer)
      requires buf.Valid()
      modifies buf`offset, buf.data
      ensures buf.Valid() && buf.Written() == old(buf.Written()) + EmitFront(Val(), old(buf.Room()))
    {
      hide ToByte;
      ghost var start, room := buf.Written(), buf.Room();
      ghost var header := Fit(ModuleHeader(Val()), room);
      var _ := buf.Write([ToByte(id), ToByte(numInputs), ToByte(numSensors), ToByte(nameLength)]);
      assert buf.Written() == start + header;
      Regroup(start, header, Fit(EncodeName(nameLength, name), Left(room, header)));
      if nameLength > 0 && name.Text? { var _ := buf.Write(name.chars); }
      assert start + header + [] == start + header;
    }

    /** Whatever the room, what is written and reported is what the value-level emission says. */
    method Encode(buf: EncodeBuffer) returns (r: Buffers.EncodeResult)
      requires GoodModule(Val()) && buf.Valid()
      modifies buf`offset, buf.data
      ensures buf.Valid()
      ensures (r == Buffers.SUCCESS, buf.Written())
        == (EmitModule(Val(), old(buf.Room())).0, old(buf.Written()) + EmitModule(Val(), old(buf.Room())).1)
    {
      hide GoodModule, EmitAll, EmitInput, EmitSensor, EmitFront;
      ghost var start, front := buf.Written(), EmitFront(Val(), buf.Room());
      ghost var left := Left(buf.Room(), front);
      EncodeFront(buf);
      r := Buffers.SUCCESS;
      ghost var ins := if numInputs > 0 then EmitAll(EmitInput, inputs, left) else (true, []);
      if numInputs > 0 { r := EncodeInputs(buf); }
      Regroup(start, front, ins.1);
      assert buf.Written() == start + (front + ins.1) by { assert start + front + [] == start + front; }
      if r != Buffers.SUCCESS { return; }
      ghost var ses := if numSensors > 0 then EmitAll(EmitSensor, sensors, Left(left, ins.1)) else (true, []);
      if numSensors > 0 { r := EncodeSensors(buf); }
      Regroup(start, front + ins.1, ses.1);
      assert start + (front + ins.1) + [] == start + (front + ins.1);
    }

    method EncodeInputs(buf: EncodeBuffer) returns (r: Buffers.EncodeResult)
      requires GoodModule(Val()) && buf.Valid()
      modifies buf`offset, buf.data
      ensures buf.Valid()
      ensures (r == Buffers.SUCCESS, buf.Written()) == (EmitAll(EmitInput, inputs, old(buf.Room())).0,
                                                        old(buf.Written()) + EmitAll(EmitInput, inputs, old(buf.Room())).1)
    {
      hide EncodeInput, GoodInput, EmitAll, Emitting;
      ghost var base, all := buf.Written(), EmitAll(EmitInput, inputs, buf.Room());
      ghost var written: seq<byte> := [];
      EmitStart(EmitInput, inputs, buf.Room());
      r := Buffers.SUCCESS;
      var i := 0;
      while i < |inputs|
        invariant i <= |inputs| && buf.Valid() && r == Buffers.SUCCESS && buf.Written() == base + written
        invariant Emitting(EmitInput, inputs, i, buf.Room(), written, all)
      {
        ghost var bytes := EmitInput(inputs[i], buf.Room()).1;
        EmitStep(EmitInput, inputs, i, buf.Room(), written, all);
        Regroup(base, written, bytes);
        r := EncodeInputTo(inputs[i], buf);
        written := written + bytes;
        if r != Buffers.SUCCESS { return; }
        i := i + 1;
      }
      EmitEnd(EmitInput, inputs, buf.Room(), written, all);
    }

    method EncodeSensors(buf: EncodeBuffer) returns (r: Buffers.EncodeResult)
      requires GoodModule(Val()) && buf.Valid()
      modifies buf`offset, buf.data
      ensures buf.Valid()
      ensures (r == Buffers.SUCCESS, buf.Written()) == (EmitAll(EmitSensor, sensors, old(buf.Room())).0,
                                                        old(buf.Written()) + EmitAll(EmitSensor, sensors, old(buf.Room())).1)
    {
      hide EncodeSensor, GoodSensor, EmitAll, Emitting;
      ghost var base, all := buf.Written(), EmitAll(EmitSensor, sensors, buf.Room());
      ghost var written: seq<byte> := [];
      EmitStart(EmitSensor, sensors, buf.Room());
      r := Buffers.SUCCESS;
      var i := 0;
      while i < |sensors|
        invariant i <= |sensors| && buf.Valid() && r == Buffers.SUCCESS && buf.Written() == base + written
        invariant Emitting(EmitSensor, sensors, i, buf.Room(), written, all)
      {
        ghost var bytes := EmitSensor(sensors[i], buf.Room()).1;
        EmitStep(EmitSensor, sensors, i, buf.Room(), written, all);
        Regroup(base, written, bytes);
        r := EncodeSensorTo(sensors[i], buf);
        written := written + bytes;
        if r != Buffers.SUCCESS { return; }
        i := i + 1;
      }
      EmitEnd(EmitSensor, sensors, buf.Room(), written, all);
    }

    method DecodeInputs(buf: DecodeBuffer)
      requires buf.Valid() && inputs == []
      modifies this`inputs, buf`offset
      ensures buf.Valid() && (inputs, buf.Rest()) == DecodeAll(DecodeInput, numInputs, old(buf.Rest()))
    {
      hide DecodeInput;
      ghost var s := buf.Rest();
      var i := 0;
      while i < numInputs
        invariant i <= numInputs && buf.Valid() && (inputs, buf.Rest()) == DecodeAll(DecodeInput, i, s)
      {
        DecodeAllStep(DecodeInput, i, s);
        var x := DecodeInputFrom(buf);
        inputs := inputs + [x];
        i := i + 1;
      }
    }

    method DecodeSensors(buf: DecodeBuffer)
      requires buf.Valid() && sensors == []
      modifies this`sensors, buf`offset
      ensures buf.Valid() && (sensors, buf.Rest()) == DecodeAll(DecodeSensor, numSensors, old(buf.Rest()))
    {
      hide DecodeSensor;
      ghost var s := buf.Rest();
      var i := 0;
      while i < numSensors
        invariant i <= numSensors && buf.Valid() && (sensors, buf.Rest()) == DecodeAll(DecodeSensor, i, s)
      {
        DecodeAllStep(DecodeSensor, i, s);
        var x := DecodeSensorFrom(buf);
        sensors := sensors + [x];
        i := i + 1;
      }
    }

    method DecodeHeader(buf: DecodeBuffer)
      requires buf.Valid()
      modifies this, buf`offset
      ensures buf.Valid() && (Val(), buf.Rest()) == ReadModuleHeader(old(Val()), old(buf.Rest()))
    {
      var r, h := buf.Read(4);
      if r == Buffers.READ {
        id, numInputs, numSensors, nameLength := ByteValue(h[0]), ByteValue(h[1]), ByteValue(h[2]), ByteValue(h[3]);
      }
    }

    method RestoreCounters()
      requires |inputs| == numInputs && |sensors| == numSensors && nextInputId == nextSensorId == 0
      modifies this`nextInputId, this`nextSensorId
      ensures nextInputId == NextInputId(inputs) && nextSensorId == NextSensorId(sensors)
    {
      if numInputs > 0 { nextInputId := (inputs[|inputs| - 1].id + 1) % 256; }
      if numSensors > 0 { nextSensorId := (sensors[|sensors| - 1].id + 1) % 256; }
    }

    /** Whatever bytes arrive: the module is refilled exactly as the value-level decoder says. */
    method Decode(buf: DecodeBuffer)
      requires buf.Valid()
      modifies this, buf`offset
      ensures buf.Valid() && (Val(), buf.Rest()) == DecodeModuleInto(old(Val()), old(buf.Rest()))
    {
      hide DecodeInput, DecodeSensor, DecodeName, ByteValue, DecodeAll;
      Reset();
      DecodeHeader(buf);
      assert inputs == [] && sensors == [] && nextInputId == nextSensorId == 0;
      hide ResetModule, ReadModuleHeader, FillModule;
      DecodeRest(buf);
    }

    method DecodeRest(buf: DecodeBuffer)
      requires buf.Valid() && inputs == [] && sensors == [] && nextInputId == nextSensorId == 0
      modifies this, buf`offset
      ensures buf.Valid() && (Val(), buf.Rest()) == FillModule(old(Val()), old(buf.Rest()))
    {
      hide DecodeInput, DecodeSensor, DecodeName, DecodeAll, NextInputId, NextSensorId;
      name := DecodeNameFrom(nameLength, buf);
      ownsName := nameLength > 0;
      DecodeInputs(buf);
      DecodeSensors(buf);
      RestoreCounters();
    }
  }

  ghost function Vals(ms: seq<ModuleObject>): (r: seq<Module>)
    reads ms
    ensures |r| == |ms| && forall i :: 0 <= i < |ms| ==> r[i] == ms[i].Val()
  {
    seq(|ms|, i requires 0 <= i < |ms| reads ms => ms[i].Val())
  }

  class ConfigurationObject {
    var numModules: nat
    var modules: seq<ModuleObject>
    var nextModuleId: nat

    ghost function Val(): Configuration reads this, modules {
      Configuration(numModules, Vals(modules), nextModuleId)
    }

    constructor ()
      ensures Val() == EMPTY && modules == []
    {
      numModules, modules, nextModuleId := 0, [], 0;
    }

    /** The new module is returned for building up; the modules already there stay as they are. */
    method AddModule(nameLength: nat, name: Name) returns (m: ModuleObject)
      modifies this
      ensures Val() == Building.AddModule(old(Val()), Building.NewModule(nameLength, name))
      ensures fresh(m) && modules == old(modules) + [m]
    {
      numModules := Building.Next(numModules);
      m := new ModuleObject.Named(nameLength, name);
      m.id := nextModuleId;
      modules := modules + [m];
      nextModuleId := Building.Next(nextModuleId);
    }

    method EncodedSize() returns (n: nat)
      requires GoodConfiguration(Val())
      ensures n == |EncodeConfiguration(Val())|
    {
      hide EncodeModule, GoodModule;
      n := 1;
      var i := 0;
      ghost var vals := Vals(modules);
      while i < numModules
        invariant i <= |modules| && n == 1 + |EncodeAll(EncodeModule, vals[..i])|
      {
        EncodeAllStep(EncodeModule, vals, i);
        assert vals[i] in vals;
        var k := modules[i].EncodedSize();
        n := n + k;
        i := i + 1;
      }
      assert vals[..i] == vals;
    }

    method EncodeModules(buf: EncodeBuffer) returns (r: Buffers.EncodeResult)
      requires GoodConfiguration(Val()) && buf.Valid()
      modifies buf`offset, buf.data
      ensures buf.Valid()
      ensures (r == Buffers.SUCCESS, buf.Written()) == (EmitAll(EmitModule, Val().modules, old(buf.Room())).0,
                                                        old(buf.Written()) + EmitAll(EmitModule, Val().modules, old(buf.Room())).1)
    {
      hide EmitModule, GoodModule, EmitAll, Emitting;
      ghost var vals := Vals(modules);
      ghost var base, all := buf.Written(), EmitAll(EmitModule, vals, buf.Room());
      ghost var written: seq<byte> := [];
      EmitStart(EmitModule, vals, buf.Room());
      r := Buffers.SUCCESS;
      var i := 0;
      while i < |modules|
        invariant i <= |modules| && buf.Valid() && r == Buffers.SUCCESS && buf.Written() == base + written && vals == Vals(modules)
        invariant Emitting(EmitModule, vals, i, buf.Room(), written, all)
      {
        assert vals[i] in vals;
        ghost var bytes := EmitModule(vals[i], buf.Room()).1;
        EmitStep(EmitModule, vals, i, buf.Room(), written, all);
        Regroup(base, written, bytes);
        r := modules[i].Encode(buf);
        written := written + bytes;
        if r != Buffers.SUCCESS { return; }
        i := i + 1;
      }
      EmitEnd(EmitModule, vals, buf.Room(), written, all);
    }

    /** Whatever the room, what is written and reported is what the value-level emission says. */
    method Encode(buf: EncodeBuffer) returns (r: Buffers.EncodeResult)
      requires GoodConfiguration(Val()) && buf.Valid()
      modifies buf`offset, buf.data
      ensures buf.Valid()
      ensures (r == Buffers.SUCCESS, buf.Written())
        == (EmitConfiguration(Val(), old(buf.Room())).0, old(buf.Written()) + EmitConfiguration(Val(), old(buf.Room())).1)
    {
      hide EmitModule, EmitAll, GoodConfiguration, ToByte;
      ghost var start, count, vals := buf.Written(), [ToByte(numModules)], Val().modules;
      r := buf.Write([ToByte(numModules)]);
      assert start + [] == start;
      if r != Buffers.SUCCESS { return; }
      ghost var all := EmitAll(EmitModule, vals, buf.Room());
      r := EncodeModules(buf);
      Regroup(start, count, all.1);
    }

    method DecodeModules(buf: DecodeBuffer)
      requires buf.Valid() && modules == []
      modifies this`modules, buf`offset
      ensures buf.Valid() && fresh(modules) && (Vals(modules), buf.Rest()) == DecodeAll(DecodeModule, numModules, old(buf.Rest()))
    {
      hide DecodeModuleInto;
      ghost var s := buf.Rest();
      var i := 0;
      while i < numModules
        invariant i <= numModules && buf.Valid() && fresh(modules)
        invariant (Vals(modules), buf.Rest()) == DecodeAll(DecodeModule, i, s)
      {
        DecodeAllStep(DecodeModule, i, s);
        ghost var before := Vals(modules);
        var m := new ModuleObject();
        m.Decode(buf);
        modules := modules + [m];
        assert Vals(modules) == before + [m.Val()];
        i := i + 1;
      }
    }

    /** Whatever bytes arrive: the configuration is refilled exactly as the value-level decoder says. */
    method Decode(buf: DecodeBuffer) returns (r: DecodeResult)
      requires buf.Valid()
      modifies this, buf`offset
      ensures buf.Valid() && fresh(modules) && (r, Val(), buf.Rest()) == DecodeConfiguration(old(buf.Rest()))
    {
      hide DecodeAll, ByteValue;
      numModules, modules, nextModuleId := 0, [], 0;
      var rr, h := buf.Read(1);
      if rr != Buffers.READ { return BUFFER_UNDERFLOW; }
      numModules := ByteValue(h[0]);
      DecodeModules(buf);
      r := SUCCESS;
    }
  }
}
