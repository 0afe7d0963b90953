/** The comparison operators against the wire: records compare equal exactly when their encodings are equal,
    but for the two fields of a declaration that `DataDeclarationBase<>::operator ==` leaves out. */
module Comparing {
  import opened Bytes
  import opened Records
  import opened NamedRecords
  import opened Configurations
  import opened ModuleControls
  import opened ControlCodec
  import D = Declarations

  // ----- Declarations -----

  /** The array flag and the array-size width, which are not compared. */
  predicate Alike(a: D.Decl, b: D.Decl) { a.isArray == b.isArray && a.arraySizeWidth == b.arraySizeWidth }

  function DeclBytes(d: D.Decl): seq<byte> { D.EncodeHeader(d) + D.EncodeTail(d) }

  lemma BoundOfCanonical(present: bool, value: seq<byte>, width: nat)
    requires width <= 16 && |value| == 16
    ensures D.Bound(present, D.CanonicalBound(present, value, width), width) == D.Bound(present, value, width)
  {
    if present { D.CanonicalBoundKeeps(true, value, width); }
  }

  lemma CanonicalDeclBytes(d: D.Decl)
    requires D.WellFormed(d)
    ensures D.EncodeHeader(D.Canonical(d)) == D.EncodeHeader(d) && D.EncodeTail(D.Canonical(d)) == D.EncodeTail(d)
  {
    BoundOfCanonical(d.hasNeutral, d.neutral, D.Width(d));
    BoundOfCanonical(d.hasMinimum, d.minimum, D.Width(d));
    BoundOfCanonical(d.hasMaximum, d.maximum, D.Width(d));
    hide D.Bound, D.CanonicalBound, D.PackLow, D.PackHigh;
  }

  lemma CanonicalBoundIff(present: bool, a: seq<byte>, b: seq<byte>, width: nat)
    requires width <= 16 && |a| == |b| == 16
    ensures D.CanonicalBound(present, a, width) == D.CanonicalBound(present, b, width) <==> D.SameBound(present, a, b, width)
  {
    if present { D.CanonicalBoundKeeps(true, a, width); D.CanonicalBoundKeeps(true, b, width); }
  }

  /** The peer holds the same declaration exactly when the two compare equal and the skipped fields agree. */
  lemma SameDeclIff(a: D.Decl, b: D.Decl)
    requires D.WellFormed(a) && D.WellFormed(b)
    ensures D.Canonical(a) == D.Canonical(b) <==> D.Same(a, b) && Alike(a, b)
  {
    hide D.CanonicalBound, D.SameBound;
    if a.width == b.width {
      CanonicalBoundIff(a.hasNeutral, a.neutral, b.neutral, D.Width(a));
      CanonicalBoundIff(a.hasMinimum, a.minimum, b.minimum, D.Width(a));
      CanonicalBoundIff(a.hasMaximum, a.maximum, b.maximum, D.Width(a));
    }
  }

  /** Declarations have equal encodings exactly when they compare equal and agree in the skipped fields. */
  lemma DeclComparison(a: D.Decl, b: D.Decl)
    requires D.WellFormed(a) && D.WellFormed(b)
    ensures DeclBytes(a) == DeclBytes(b) <==> D.Same(a, b) && Alike(a, b)
  {
    SameDeclIff(a, b);
    CanonicalDeclBytes(a);
    CanonicalDeclBytes(b);
    D.TailRoundTrip(a, []);
    D.TailRoundTrip(b, []);
    hide D.EncodeHeader, D.EncodeTail, D.DecodeHeader, D.DecodeTail, D.Canonical, D.Same;
    Split(D.EncodeHeader(a), D.EncodeTail(a));
    Split(D.EncodeHeader(b), D.EncodeTail(b));
    assert D.EncodeTail(a) + [] == D.EncodeTail(a) && D.EncodeTail(b) + [] == D.EncodeTail(b);
  }

  // ----- Inputs and sensors -----

  lemma SameInputIff(a: Input, b: Input)
    requires GoodInput(a) && GoodInput(b)
    ensures CanonicalInput(a) == CanonicalInput(b) <==> SameInput(a, b) && Alike(a.decl, b.decl)
  {
    hide D.Canonical, D.Same, D.WellFormed;
    SameDeclIff(a.decl, b.decl);
  }

  lemma CanonicalInputBytes(i: Input)
    requires GoodInput(i)
    ensures EncodeInput(CanonicalInput(i)) == EncodeInput(i)
  {
    CanonicalDeclBytes(i.decl);
    hide D.Canonical, D.EncodeHeader, D.EncodeTail, D.WellFormed;
  }

  /** Inputs have equal encodings exactly when they compare equal and their declarations agree in the
      skipped fields. */
  lemma InputComparison(a: Input, b: Input)
    requires GoodInput(a) && GoodInput(b)
    ensures EncodeInput(a) == EncodeInput(b) <==> SameInput(a, b) && Alike(a.decl, b.decl)
  {
    SameInputIff(a, b);
    CanonicalInputBytes(a);
    CanonicalInputBytes(b);
    hide EncodeInput, DecodeInput, CanonicalInput, SameInput, GoodInput;
    InputRoundTrip(a, []);
    InputRoundTrip(b, []);
  }

  lemma SameSensorIff(a: Sensor, b: Sensor)
    requires GoodSensor(a) && GoodSensor(b)
    ensures CanonicalSensor(a) == CanonicalSensor(b) <==> SameSensor(a, b) && Alike(a.decl, b.decl)
  {
    hide D.Canonical, D.Same, D.WellFormed;
    SameDeclIff(a.decl, b.decl);
  }

  lemma CanonicalSensorBytes(x: Sensor)
    requires GoodSensor(x)
    ensures EncodeSensor(CanonicalSensor(x)) == EncodeSensor(x)
  {
    CanonicalDeclBytes(x.decl);
    hide D.Canonical, D.EncodeHeader, D.EncodeTail, D.WellFormed, PackSensorLow, PackSensorHigh;
  }

  lemma SensorComparison(a: Sensor, b: Sensor)
    requires GoodSensor(a) && GoodSensor(b)
    ensures EncodeSensor(a) == EncodeSensor(b) <==> SameSensor(a, b) && Alike(a.decl, b.decl)
  {
    SameSensorIff(a, b);
    CanonicalSensorBytes(a);
    CanonicalSensorBytes(b);
    hide EncodeSensor, DecodeSensor, CanonicalSensor, SameSensor, GoodSensor;
    SensorRoundTrip(a, []);
    SensorRoundTrip(b, []);
  }

  // ----- Modules and configurations -----

  /** The declarations of two modules, input by input and sensor by sensor as far as both go, agree in the skipped
      fields. */
  predicate AlikeModules(a: Module, b: Module) {
    && (forall i :: 0 <= i < |a.inputs| && i < |b.inputs| ==> Alike(a.inputs[i].decl, b.inputs[i].decl))
    && (forall i :: 0 <= i < |a.sensors| && i < |b.sensors| ==> Alike(a.sensors[i].decl, b.sensors[i].decl))
  }

  lemma {:induction false} SameMap<T(!new)>(enc: T -> seq<byte>, canon: T -> T, xs: seq<T>)
    requires forall x :: x in xs ==> enc(canon(x)) == enc(x)
    ensures EncodeAll(enc, MapAll(canon, xs)) == EncodeAll(enc, xs)
    decreases xs
  {
    if xs != [] {
      assert xs[0] in xs;
      SameMap(enc, canon, xs[1..]);
    }
  }

  lemma SameInputsIff(a: seq<Input>, b: seq<Input>)
    requires |a| == |b| && (forall i :: i in a ==> GoodInput(i)) && (forall i :: i in b ==> GoodInput(i))
    ensures MapAll(CanonicalInput, a) == MapAll(CanonicalInput, b)
      <==> forall k :: 0 <= k < |a| ==> SameInput(a[k], b[k]) && Alike(a[k].decl, b[k].decl)
  {
    hide CanonicalInput, SameInput, GoodInput, Alike;
    forall k | 0 <= k < |a|
      ensures CanonicalInput(a[k]) == CanonicalInput(b[k]) <==> SameInput(a[k], b[k]) && Alike(a[k].decl, b[k].decl)
    {
      SameInputIff(a[k], b[k]);
    }
    var ca, cb := MapAll(CanonicalInput, a), MapAll(CanonicalInput, b);
    assert forall k :: 0 <= k < |a| ==> ca[k] == CanonicalInput(a[k]) && cb[k] == CanonicalInput(b[k]);
  }

  lemma SameSensorsIff(a: seq<Sensor>, b: seq<Sensor>)
    requires |a| == |b| && (forall x :: x in a ==> GoodSensor(x)) && (forall x :: x in b ==> GoodSensor(x))
    ensures MapAll(CanonicalSensor, a) == MapAll(CanonicalSensor, b)
      <==> forall k :: 0 <= k < |a| ==> SameSensor(a[k], b[k]) && Alike(a[k].decl, b[k].decl)
  {
    hide CanonicalSensor, SameSensor, GoodSensor, Alike;
    forall k | 0 <= k < |a|
      ensures CanonicalSensor(a[k]) == CanonicalSensor(b[k]) <==> SameSensor(a[k], b[k]) && Alike(a[k].decl, b[k].decl)
    {
      SameSensorIff(a[k], b[k]);
    }
    var ca, cb := MapAll(CanonicalSensor, a), MapAll(CanonicalSensor, b);
    assert forall k :: 0 <= k < |a| ==> ca[k] == CanonicalSensor(a[k]) && cb[k] == CanonicalSensor(b[k]);
  }

  lemma SameModuleIff(a: Module, b: Module)
    requires GoodModule(a) && GoodModule(b)
    ensures CanonicalModule(a) == CanonicalModule(b) <==> SameModule(a, b) && AlikeModules(a, b)
  {
    hide CanonicalInput, CanonicalSensor, SameInput, SameSensor, GoodInput, GoodSensor, NextInputId, NextSensorId, Alike;
    if |a.inputs| == |b.inputs| && |a.sensors| == |b.sensors| {
      SameInputsIff(a.inputs, b.inputs);
      SameSensorsIff(a.sensors, b.sensors);
    }
  }

  lemma CanonicalModuleBytes(m: Module)
    requires GoodModule(m)
    ensures EncodeModule(CanonicalModule(m)) == EncodeModule(m)
  {
    hide EncodeInput, EncodeSensor, CanonicalInput, CanonicalSensor, GoodInput, GoodSensor, NextInputId, NextSensorId, ToByte;
    forall i | i in m.inputs ensures EncodeInput(CanonicalInput(i)) == EncodeInput(i) { CanonicalInputBytes(i); }
    forall x | x in m.sensors ensures EncodeSensor(CanonicalSensor(x)) == EncodeSensor(x) { CanonicalSensorBytes(x); }
    SameMap(EncodeInput, CanonicalInput, m.inputs);
    SameMap(EncodeSensor, CanonicalSensor, m.sensors);
  }

  /** Modules have equal encodings exactly when they compare equal and their declarations agree in the
      skipped fields. */
  lemma ModuleComparison(a: Module, b: Module)
    requires GoodModule(a) && GoodModule(b)
    ensures EncodeModule(a) == EncodeModule(b) <==> SameModule(a, b) && AlikeModules(a, b)
  {
    SameModuleIff(a, b);
    CanonicalModuleBytes(a);
    CanonicalModuleBytes(b);
    hide EncodeModule, DecodeModuleInto, CanonicalModule, SameModule, GoodModule, AlikeModules;
    ModuleRoundTrip(a, BLANK, []);
    ModuleRoundTrip(b, BLANK, []);
  }

  predicate AlikeConfigurations(a: Configuration, b: Configuration) {
    forall k :: 0 <= k < |a.modules| && k < |b.modules| ==> AlikeModules(a.modules[k], b.modules[k])
  }

  lemma SameConfigurationIff(a: Configuration, b: Configuration)
    requires GoodConfiguration(a) && GoodConfiguration(b)
    ensures CanonicalConfiguration(a) == CanonicalConfiguration(b) <==> SameConfiguration(a, b) && AlikeConfigurations(a, b)
  {
    hide CanonicalModule, SameModule, GoodModule, AlikeModules;
    if |a.modules| == |b.modules| {
      forall k | 0 <= k < |a.modules|
        ensures CanonicalModule(a.modules[k]) == CanonicalModule(b.modules[k])
          <==> SameModule(a.modules[k], b.modules[k]) && AlikeModules(a.modules[k], b.modules[k])
      {
        SameModuleIff(a.modules[k], b.modules[k]);
      }
      var ca, cb := MapAll(CanonicalModule, a.modules), MapAll(CanonicalModule, b.modules);
      assert forall k :: 0 <= k < |a.modules| ==> ca[k] == CanonicalModule(a.modules[k]) && cb[k] == CanonicalModule(b.modules[k]);
    }
  }

  /** Configurations have equal encodings exactly when they compare equal and their declarations agree in the
      two skipped fields: where those agree, comparing equal and going out as the same bytes are one and the
      same; where they differ, configurations can compare equal and still be told apart on the wire. */
  lemma ConfigurationComparison(a: Configuration, b: Configuration)
    requires GoodConfiguration(a) && GoodConfiguration(b)
    ensures EncodeConfiguration(a) == EncodeConfiguration(b) <==> SameConfiguration(a, b) && AlikeConfigurations(a, b)
  {
    SameConfigurationIff(a, b);
    hide EncodeModule, CanonicalModule, SameConfiguration, GoodModule, AlikeConfigurations, DecodeConfiguration;
    forall m | m in a.modules || m in b.modules ensures EncodeModule(CanonicalModule(m)) == EncodeModule(m) { CanonicalModuleBytes(m); }
    SameMap(EncodeModule, CanonicalModule, a.modules);
    SameMap(EncodeModule, CanonicalModule, b.modules);
    assert EncodeConfiguration(CanonicalConfiguration(a)) == EncodeConfiguration(a);
    assert EncodeConfiguration(CanonicalConfiguration(b)) == EncodeConfiguration(b);
    hide EncodeConfiguration, CanonicalConfiguration;
    ConfigurationRoundTrip(a, []);
    ConfigurationRoundTrip(b, []);
  }

  // ----- Control values -----

  /** Two values of controls, on whichever modules, compare equal exactly when inputs, types and bytes go out the
      same, again but for the skipped fields. */
  lemma PairComparison(p: Pair, q: Pair)
    requires GoodInput(p.input) && GoodInput(q.input) && D.WellFormed(p.value.decl) && D.WellFormed(q.value.decl)
    ensures SamePair(p, q) && Alike(p.input.decl, q.input.decl) && Alike(p.value.decl, q.value.decl)
      <==> EncodeInput(p.input) == EncodeInput(q.input) && DeclBytes(p.value.decl) == DeclBytes(q.value.decl)
           && EncodeValue(p) == EncodeValue(q)
  {
    hide EncodeInput, EncodeValue, DeclBytes, SameInput, D.Same, GoodInput, D.WellFormed, Alike;
    InputComparison(p.input, q.input);
    DeclComparison(p.value.decl, q.value.decl);
  }
}
