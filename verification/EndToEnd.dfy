/** The two nodes together: a configuration travels to the peer, and a control message the peer builds
    on its copy comes back with its meaning intact. */
module EndToEnd {
  import opened Bytes
  import opened Records
  import opened InputMasks
  import opened NamedRecords
  import opened Configurations
  import opened ModuleControls
  import opened ControlCodec
  import opened Building
  import opened Messages
  import opened Dispatching
  import opened Receiving
  import opened Outcomes
  import Declarations
  import ControlObjects

  /** Dense ids throughout, and modules that a control message can address. */
  predicate Usable(c: Configuration) {
    Sound(c) && forall m :: m in c.modules ==> Controllable(m)
  }

  // ----- The peer's copy -----

  /** The copy of a module lays out control values as the original does. */
  lemma CopyKeepsLayout(m: Module)
    requires GoodModule(m) && Controllable(m)
    ensures Controllable(CanonicalModule(m)) && SameLayout(CanonicalModule(m), m) && GoodModule(CanonicalModule(m))
  {
    hide CanonicalSensor, CanonicalName, NextInputId, NextSensorId, Declarations.CanonicalBound, Declarations.WellFormed, GoodName;
    CanonicalModuleIsSame(m);
  }

  lemma CopyIsUsable(c: Configuration, k: nat)
    requires Usable(c) && k < |c.modules|
    ensures var d := CanonicalConfiguration(c);
      && |d.modules| == |c.modules| && d.modules[k] == CanonicalModule(c.modules[k])
      && Controllable(d.modules[k]) && Controllable(c.modules[k]) && d.modules[k].id == c.modules[k].id == k
      && SameLayout(d.modules[k], c.modules[k])
  {
    hide CanonicalModule, GoodModule, DenseInputs, DenseSensors, Controllable, SameLayout;
    assert c.modules[k] in c.modules;
    CopyKeepsLayout(c.modules[k]);
    CopyKeepsId(c.modules[k]);
  }

  lemma CopyKeepsId(m: Module)
    ensures CanonicalModule(m).id == m.id && |CanonicalModule(m).inputs| == |m.inputs|
  {}

  lemma InRangeOnCopy(a: Module, b: Module, ops: seq<Op>)
    requires SameLayout(a, b) && InRange(ops, b)
    ensures InRange(ops, a)
  {}

  /** A history means the same on modules of the same layout. */
  lemma {:induction false} MeaningOnCopy(before: map<nat, seq<byte>>, a: Module, b: Module, ops: seq<Op>)
    requires SameLayout(a, b) && InRange(ops, a) && InRange(ops, b)
    ensures Meaning(before, a, ops) == Meaning(before, b, ops)
    decreases ops
  {
    hide Declarations.Overlay, Fill, Declarations.Width;
    if ops != [] {
      var i := ops[0].input;
      var was := if i in before then before[i] else Fill(Declarations.Width(a.inputs[i].decl));
      MeaningOnCopy(before[i := Declarations.Overlay(was, ops[0].bytes)], a, b, ops[1..]);
    }
  }

  // ----- Without the message layer -----

  /** Set any values on the decoded copy, in any order; encode; decode against the original: the same
      inputs of the same module get the same values. */
  lemma ValuesSurvive(c: Countable, k: nat, ops: seq<Op>, r1: seq<byte>, r2: seq<byte>)
    requires Usable(c) && k < |c.modules| && InRange(ops, c.modules[k])
    ensures var d := DecodeConfiguration(EncodeConfiguration(c) + r1);
      && d.0 == SUCCESS && d.2 == r1 && k < |d.1.modules| && InRange(ops, d.1.modules[k])
      && var control := Build(New(d.1.modules[k]), d.1.modules[k], ops);
         var r := DecodeControl(c, EncodeControl(control) + r2);
      && r.Done? && r.value.1 == r2
      && r.value.0.moduleId == k && !IsClear(r.value.0) && Valid(r.value.0, c.modules[k])
      && ValueMap(r.value.0.values) == Meaning(map[], c.modules[k], ops)
  {
    hide Sound, CanonicalModule, EncodeConfiguration, DecodeConfiguration, SameLayout, Controllable, Build, Meaning, EncodeControl,
      DecodeControl, Valid, ValueMap, IsClear, New, SameConfiguration;
    assert GoodConfiguration(c) by { SoundIsGood(c); }
    ConfigurationRoundTrip(c, r1);
    CopyIsUsable(c, k);
    CopyKeepsId(c.modules[k]);
    var m, m' := CanonicalConfiguration(c).modules[k], c.modules[k];
    InRangeOnCopy(m, m', ops);
    hide InRange;
    NewIsValid(m);
    HistoryKeepsValid(New(m), m, ops);
    MeaningOnCopy(map[], m, m', ops);
    ControlArrives(Build(New(m), m, ops), m, c, r2);
  }

  lemma SoundIsGood(c: Configuration)
    requires Sound(c)
    ensures GoodConfiguration(c)
  {}

  lemma CopiedInputIsSame(m: Module, i: nat)
    requires GoodModule(m) && i < |m.inputs|
    ensures SameInput(CanonicalModule(m).inputs[i], m.inputs[i])
    ensures Declarations.Same(CanonicalModule(m).inputs[i].decl, m.inputs[i].decl)
  {
    hide Declarations.CanonicalBound, CanonicalSensor, NextInputId, NextSensorId;
    assert m.inputs[i] in m.inputs;
    CanonicalInputIsSame(m.inputs[i]);
    assert CanonicalModule(m).inputs[i] == CanonicalInput(m.inputs[i]);
  }

  /** The control that arrives compares equal to the one that was sent, although its inputs and types
      are those of the other node. */
  lemma ArrivalComparesEqual(c: Countable, k: nat, control: Control, rest: seq<byte>)
    requires Usable(c) && k < |c.modules|
    requires Valid(control, CanonicalConfiguration(c).modules[k]) && !IsClear(control)
    ensures var r := DecodeControl(c, EncodeControl(control) + rest);
      r.Done? && SameControl(control, r.value.0) == Done(true)
  {
    var m, m' := CanonicalConfiguration(c).modules[k], c.modules[k];
    CopyIsUsable(c, k);
    SoundIsGood(c);
    assert m' in c.modules;
    hide Sound, CanonicalModule, EncodeControl, DecodeControl, Has, Valid, SameLayout, GoodModule, Sorted, IsClear, NumValues,
      SamePair, Controllable, CountsFit;
    ControlRoundTrip(control, m, c, rest);
    NumValuesIsLength(control, m);
    var sent := control.values;
    var got := Retarget(sent, m');
    forall j | 0 <= j < |sent| ensures SamePair(sent[j], got[j]) { CopiedPairIsSame(control, m', j); }
    SameByPosition(sent, got);
  }

  /** Moved to the original's input, a pair of the copy compares equal. */
  lemma CopiedPairIsSame(control: Control, m: Module, j: nat)
    requires GoodModule(m) && Controllable(m) && Valid(control, CanonicalModule(m)) && j < |control.values|
    ensures Fits(control.values, m)
    ensures SamePair(control.values[j], Retarget(control.values, m)[j])
  {
    var copy, p := CanonicalModule(m), control.values[j];
    CopyKeepsLayout(m);
    ValidFits(control, copy, m);
    ValidParts(control, copy);
    assert p in control.values && GoodPair(p, copy) && FitsIn(p, m);
    CopiedInputIsSame(m, p.input.id);
    var q := Retarget(control.values, m)[j];
    EncodedWhole(p);
    EncodedWhole(q);
    hide CanonicalModule, Valid, Sorted, GoodModule, SameInput, Declarations.Same, EncodeValue;
  }

  /** Clearing a list of inputs, one after the other. */
  function ClearAll(c: Control, ids: seq<nat>): Control
    decreases ids
  {
    if ids == [] then c
    else
      match ControlObjects.ClearInput(c, ids[0])
      case Done(c') => ClearAll(c', ids[1..])
      case AssertionFailed => c
      case OutOfBounds => c
  }

  lemma {:induction false} ClearedBits(c: Control, ids: seq<nat>)
    requires NumValues(c) == 0 && forall i :: i in ids ==> i < 15
    ensures var u := ClearAll(c, ids);
      && u == c.(inputIds := u.inputIds)
      && forall j: nat :: j < 16 ==> (Has(u.inputIds, j) <==> Has(c.inputIds, j) || j in ids || (j == 15 && ids != []))
    decreases ids
  {
    hide Has, With;
    if ids != [] {
      var c' := ControlObjects.ClearInput(c, ids[0]).value;
      assert ids[0] in ids;
      forall j: nat | j < 16 ensures Has(c'.inputIds, j) <==> Has(c.inputIds, j) || j == 15 || j == ids[0] {
        WithBit(c.inputIds, 15, j);
        WithBit(With(c.inputIds, 15), ids[0], j);
      }
      assert Has(c'.inputIds, 15);
      forall i | i in ids[1..] ensures i in ids {}
      ClearedBits(c', ids[1..]);
      assert forall j :: j in ids <==> j == ids[0] || j in ids[1..];
    }
  }

  /** The clear form: the same inputs of the same module are cleared, and no values arrive. */
  lemma ClearsSurvive(c: Countable, k: nat, ids: seq<nat>, r1: seq<byte>, r2: seq<byte>)
    requires Usable(c) && k < |c.modules| && ids != [] && forall i :: i in ids ==> i < |c.modules[k].inputs|
    ensures var d := DecodeConfiguration(EncodeConfiguration(c) + r1);
      && d.0 == SUCCESS && d.2 == r1 && k < |d.1.modules|
      && var r := DecodeControl(c, EncodeControl(ClearAll(New(d.1.modules[k]), ids)) + r2);
      && r.Done? && r.value.1 == r2
      && r.value.0.moduleId == k && r.value.0.target == On(c.modules[k]) && r.value.0.values == []
      && (forall j: nat :: j < 16 ==> (Has(r.value.0.inputIds, j) <==> j in ids || j == 15))
  {
    hide Sound, CanonicalModule, EncodeConfiguration, DecodeConfiguration, SameLayout, EncodeControl, DecodeControl, ClearAll,
      SameConfiguration, Has;
    assert GoodConfiguration(c) by { SoundIsGood(c); }
    ConfigurationRoundTrip(c, r1);
    CopyIsUsable(c, k);
    CopyKeepsId(c.modules[k]);
    var m := CanonicalConfiguration(c).modules[k];
    forall j ensures !Has(0, j) { NoBits(j); }
    ControlObjects.NothingCounted(15);
    ClearedBits(New(m), ids);
    ClearRoundTrip(ClearAll(New(m), ids), m, c, r2);
  }

  // ----- Through the message layer -----

  /** Messages that a program can send and that are welcome at this node. */
  predicate Traffic(config: Configuration, ms: seq<Message>) {
    Sendable(ms) && forall i :: 0 <= i < |ms| ==> Welcome(config, ms[i])
  }

  /** A body that can be wrapped whole and makes a welcome message: for a control, one that decodes against
      the node's configuration. */
  predicate Deliverable(config: Configuration, t: nat, body: seq<byte>) {
    && Wraps(t) && t != ERROR && t != SENSOR_DATA && |body| + ChecksumSize(t) < 65536
    && (t == MODULE_CONTROL ==> Decodes(config, body))
  }

  /** Between messages that the node dispatches and any others, a wrapped body arrives whole and in its place. */
  lemma BodyArrives(config: Countable, before: seq<Message>, t: nat, body: seq<byte>, after: seq<Message>)
    requires Traffic(config, before) && Sendable(after) && Deliverable(config, t, body)
    ensures var ms := before + [OfBody(t, body)] + after;
      && Sendable(ms)
      && var received := Receive(config, Wire(ms), BUFSIZ).messages;
      && |before| < |received| && received[|before|].header.typ == t && received[|before|].body == Data(body)
  {
    WrappedBodyIsConstructible(t, body);
    WrappedBody(t, body);
    var m := OfBody(t, body);
    ReceivedBody(m);
    assert Welcome(config, m);
    hide Constructible, OfBody, Receive, Wire, Received, Frame, EffectiveBody, Welcome;
    var ms := before + [m] + after;
    StreamFraming(config, ms);
    var k := Handling(config, ms);
    forall i | 0 <= i <= |before| ensures Welcome(config, ms[i]) {
      assert ms[i] == if i < |before| then before[i] else m;
    }
    assert k > |before| && ms[..k][|before|] == m;
  }

  lemma WrappedBody(t: nat, body: seq<byte>)
    requires Wraps(t)
    ensures OfBody(t, body).header.typ == t && EffectiveBody(OfBody(t, body)) == body
  {
    hide ComputeChecksum;
  }

  lemma {:induction false} ShortValues(values: seq<Pair>, m: Module)
    requires Sorted(values) && forall p :: p in values ==> GoodPair(p, m)
    ensures |EncodeAll(EncodeValue, values)| <= 31 * |values|
    decreases values
  {
    hide Sorted;
    if values != [] {
      assert values[0] in values;
      assert Sorted(values[1..]) by { TailSorted(values); }
      ShortValues(values[1..], m);
    }
  }

  lemma TailSorted(values: seq<Pair>)
    requires Sorted(values) && values != []
    ensures Sorted(values[1..])
  {}

  lemma ControlFits(c: Control, m: Module)
    requires Valid(c, m) && Controllable(m) && !IsClear(c)
    ensures |EncodeControl(c)| <= 468
  {
    hide Has;
    NumValuesIsLength(c, m);
    AtMost(c.inputIds, 15);
    ValidParts(c, m);
    ShortValues(c.values, m);
  }

  lemma {:induction false} AtMost(mask: bv16, n: nat)
    ensures Count(mask, n) <= n
  {
    hide Has;
    if n != 0 { AtMost(mask, n - 1); }
  }

  /** A body is wrapped and sent among other messages; the receiver's loop cuts the stream and dispatches;
      this is the message in its place. */
  function Deliver(config: Countable, before: seq<Message>, t: nat, body: seq<byte>, after: seq<Message>): (m: Message)
    requires Traffic(config, before) && Sendable(after) && Deliverable(config, t, body)
    ensures m.header.typ == t && m.body == Data(body)
  {
    BodyArrives(config, before, t, body, after);
    Receive(config, Wire(before + [OfBody(t, body)] + after), BUFSIZ).messages[|before|]
  }

  /** The configuration a message carries, as the handlers decode it. */
  function CopyIn(m: Message): Configuration
    requires m.body.Data?
  {
    DecodeConfiguration(m.body.bytes).1
  }

  /** What the peer builds on its copy of a module. */
  function PeerControl(copy: Configuration, k: nat, ops: seq<Op>): Control
    requires k < |copy.modules| && InRange(ops, copy.modules[k])
  {
    Build(New(copy.modules[k]), copy.modules[k], ops)
  }

  /** A decoded control is on the module, keeps the invariant, and says what the history says. */
  ghost predicate Conveys(r: Outcome<(Control, seq<byte>)>, m: Module, ops: seq<Op>) {
    && r.Done? && r.value.1 == [] && InRange(ops, m)
    && r.value.0.moduleId == m.id && !IsClear(r.value.0) && Valid(r.value.0, m)
    && ValueMap(r.value.0.values) == Meaning(map[], m, ops)
  }

  /** The peer's copy is the decoded configuration. */
  lemma CopyArrives(c: Countable, peer: Countable, k: nat, ops: seq<Op>, before: seq<Message>, after: seq<Message>)
    requires Usable(c) && k < |c.modules| && InRange(ops, c.modules[k]) && |EncodeConfiguration(c)| + CHECKSUM_SIZE < 65536
    requires Traffic(peer, before) && Sendable(after)
    ensures Deliverable(peer, CONFIGURATION_RESPONSE, EncodeConfiguration(c))
    ensures var copy := CopyIn(Deliver(peer, before, CONFIGURATION_RESPONSE, EncodeConfiguration(c), after));
      copy == CanonicalConfiguration(c) && k < |copy.modules| && InRange(ops, copy.modules[k])
  {
    hide Sound, EncodeConfiguration, DecodeConfiguration, CanonicalModule, Controllable, Deliver, Traffic, Sendable, DecodeControl,
      SameLayout, SameConfiguration;
    assert EncodeConfiguration(c) + [] == EncodeConfiguration(c);
    CopyIsUsable(c, k);
    ConfigurationRoundTrip(c, []) by { SoundIsGood(c); }
    InRangeOnCopy(CanonicalConfiguration(c).modules[k], c.modules[k], ops);
  }

  /** What the peer builds on its copy decodes against the original, and conveys the history. */
  lemma ControlComesBack(c: Countable, k: nat, ops: seq<Op>)
    requires Usable(c) && k < |c.modules| && InRange(ops, c.modules[k])
    ensures var copy := CanonicalConfiguration(c); k < |copy.modules| && InRange(ops, copy.modules[k])
    ensures var control := EncodeControl(PeerControl(CanonicalConfiguration(c), k, ops));
      c.modules[k].id == k && Deliverable(c, MODULE_CONTROL, control) && Conveys(DecodeControl(c, control), c.modules[k], ops)
  {
    CopyIsUsable(c, k);
    SoundIsGood(c);
    var copy := CanonicalConfiguration(c);
    var m := copy.modules[k];
    hide Usable, GoodConfiguration, EncodeConfiguration, DecodeConfiguration, CanonicalConfiguration, Build, Meaning, EncodeControl,
      DecodeControl, ValueMap, IsClear, New, Controllable, Valid, SameLayout, SameConfiguration, InRange;
    InRangeOnCopy(m, c.modules[k], ops);
    ConfigurationRoundTrip(c, []);
    ValuesSurvive(c, k, ops, [], []);
    NewIsValid(m);
    HistoryKeepsValid(New(m), m, ops);
    var control := Build(New(m), m, ops);
    ControlFits(control, m);
    var bytes := EncodeControl(control);
    assert bytes + [] == bytes;
    hide Deliverable;
    ShortControlIsDeliverable(c, bytes);
  }

  lemma ShortControlIsDeliverable(c: Countable, bytes: seq<byte>)
    requires |bytes| <= 468 && DecodeControl(c, bytes).Done?
    ensures Deliverable(c, MODULE_CONTROL, bytes)
  {
    hide DecodeControl, Decodes;
    DecodesIff(c, bytes);
  }

  /** The whole way: the node sends its configuration among other messages; the peer, whatever its own
      configuration, cuts the stream, decodes its copy, sets values on it by any history and sends the
      control among other messages; the node cuts that stream, and dispatching decodes the control against
      its own configuration. The control arrives on the same module, keeps the invariant and means exactly
      what the history says. */
  lemma ControlReachesHome(c: Countable, peer: Countable, k: nat, ops: seq<Op>,
                           before: seq<Message>, after: seq<Message>, before': seq<Message>, after': seq<Message>)
    requires Usable(c) && k < |c.modules| && InRange(ops, c.modules[k]) && |EncodeConfiguration(c)| + CHECKSUM_SIZE < 65536
    requires Traffic(peer, before) && Sendable(after) && Traffic(c, before') && Sendable(after')
    ensures Deliverable(peer, CONFIGURATION_RESPONSE, EncodeConfiguration(c))
    ensures var copy := CopyIn(Deliver(peer, before, CONFIGURATION_RESPONSE, EncodeConfiguration(c), after));
      && k < |copy.modules| && InRange(ops, copy.modules[k])
      && var control := EncodeControl(PeerControl(copy, k, ops));
      && c.modules[k].id == k && Deliverable(c, MODULE_CONTROL, control)
      && Conveys(DecodeControl(c, Deliver(c, before', MODULE_CONTROL, control, after').body.bytes), c.modules[k], ops)
  {
    hide Usable, EncodeConfiguration, CanonicalConfiguration, PeerControl, EncodeControl, DecodeControl, Deliver, Deliverable,
      CopyIn, Traffic, Sendable, InRange, Conveys;
    CopyArrives(c, peer, k, ops, before, after);
    ControlComesBack(c, k, ops);
  }

  /** A decoded control is the clear form, on the module and for exactly the listed inputs. */
  ghost predicate ConveysClear(r: Outcome<(Control, seq<byte>)>, m: Module, ids: seq<nat>) {
    && r.Done? && r.value.1 == []
    && r.value.0.moduleId == m.id && r.value.0.target == On(m) && r.value.0.values == []
    && forall j: nat :: j < 16 ==> (Has(r.value.0.inputIds, j) <==> j in ids || j == 15)
  }

  lemma ClearComesBack(c: Countable, k: nat, ids: seq<nat>)
    requires Usable(c) && k < |c.modules| && ids != [] && forall i :: i in ids ==> i < |c.modules[k].inputs|
    ensures k < |CanonicalConfiguration(c).modules| && c.modules[k].id == k
    ensures var control := EncodeControl(ClearAll(New(CanonicalConfiguration(c).modules[k]), ids));
      Deliverable(c, MODULE_CONTROL, control) && ConveysClear(DecodeControl(c, control), c.modules[k], ids)
  {
    CopyIsUsable(c, k);
    SoundIsGood(c);
    hide Usable, GoodConfiguration, EncodeConfiguration, DecodeConfiguration, CanonicalConfiguration, ClearAll, DecodeControl,
      New, Controllable, SameLayout, SameConfiguration, Deliverable, Has, ControlHeader;
    ConfigurationRoundTrip(c, []);
    ClearsSurvive(c, k, ids, [], []);
    var control := ClearAll(New(CanonicalConfiguration(c).modules[k]), ids);
    ClearIsShort(c, k, ids);
    var bytes := EncodeControl(control);
    hide EncodeControl;
    assert bytes + [] == bytes;
    ShortControlIsDeliverable(c, bytes);
  }

  lemma ClearIsShort(c: Configuration, k: nat, ids: seq<nat>)
    requires Usable(c) && k < |c.modules| && ids != [] && forall i :: i in ids ==> i < |c.modules[k].inputs|
    ensures k < |CanonicalConfiguration(c).modules|
    ensures |EncodeControl(ClearAll(New(CanonicalConfiguration(c).modules[k]), ids))| == 3
  {
    CopyIsUsable(c, k);
    hide Sound, CanonicalModule, ClearAll, Has, ControlHeader;
    ControlObjects.NothingCounted(15);
    forall j ensures !Has(0, j) { NoBits(j); }
    ClearedBits(New(CanonicalConfiguration(c).modules[k]), ids);
  }

  /** The clear form goes the whole way too: exactly the inputs that the peer clears on its copy are cleared
      on the module, and no values come with it. */
  lemma ClearReachesHome(c: Countable, peer: Countable, k: nat, ids: seq<nat>,
                         before: seq<Message>, after: seq<Message>, before': seq<Message>, after': seq<Message>)
    requires Usable(c) && k < |c.modules| && ids != [] && forall i :: i in ids ==> i < |c.modules[k].inputs|
    requires |EncodeConfiguration(c)| + CHECKSUM_SIZE < 65536
    requires Traffic(peer, before) && Sendable(after) && Traffic(c, before') && Sendable(after')
    ensures Deliverable(peer, CONFIGURATION_RESPONSE, EncodeConfiguration(c))
    ensures var copy := CopyIn(Deliver(peer, before, CONFIGURATION_RESPONSE, EncodeConfiguration(c), after));
      && k < |copy.modules| && c.modules[k].id == k
      && var control := EncodeControl(ClearAll(New(copy.modules[k]), ids));
      && Deliverable(c, MODULE_CONTROL, control)
      && ConveysClear(DecodeControl(c, Deliver(c, before', MODULE_CONTROL, control, after').body.bytes), c.modules[k], ids)
  {
    hide Usable, EncodeConfiguration, CanonicalConfiguration, ClearAll, New, EncodeControl, DecodeControl, Deliver, Deliverable,
      CopyIn, Traffic, Sendable, ConveysClear;
    CopyArrives(c, peer, k, [], before, after);
    ClearComesBack(c, k, ids);
  }
}
