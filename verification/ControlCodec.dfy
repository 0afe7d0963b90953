/** The wire form of module-control messages, read back relative to a configuration. */
module ControlCodec {
  import opened Bytes
  import opened Records
  import opened InputMasks
  import opened NamedRecords
  import opened Configurations
  import opened ModuleControls
  import opened Outcomes
  import Declarations

  /** `DataValue::encode` writes as many bytes as the type is wide. */
  function EncodeValue(p: Pair): seq<byte> {
    var w := Declarations.Width(p.value.decl);
    if |p.value.bytes| >= w then p.value.bytes[..w] else p.value.bytes
  }

  function ControlHeader(c: Control): (r: seq<byte>)
    ensures |r| == 3
  {
    [ToByte(c.moduleId), MaskLow(c.inputIds), MaskHigh(c.inputIds)]
  }

  function EncodeControl(c: Control): seq<byte> {
    ControlHeader(c) + if IsClear(c) then [] else EncodeAll(EncodeValue, c.values)
  }

  /** A number of elements, low byte first. */
  function Elements(s: seq<byte>): nat { if s == [] then 0 else ByteValue(s[0]) + 256 * Elements(s[1..]) }

  /** `size_t` has eight bytes. */
  const SIZE_LIMIT := 0x1_0000_0000_0000_0000

  /** The bytes of n elements, as `size_t` keeps them. */
  function ArraySize(n: nat, w: nat): nat { n * w % SIZE_LIMIT }

  /** The element count of an array is read into a `size_t` and is as wide as an element. */
  predicate CountFits(decl: Decl) { decl.isArray ==> Declarations.Width(decl) <= 8 }

  /** The decode constructor of `DataValue<>`: for an array, first the element count, one if it is not
      there; then the elements, zeros when not even one of them is there. */
  function DecodeValue(decl: Decl, s: seq<byte>): (r: (Value, seq<byte>))
    requires CountFits(decl)
  {
    var w := Declarations.Width(decl);
    var counted := decl.isArray && 0 < w <= |s|;
    var size := if counted then ArraySize(Elements(s[..w]), w) else w;
    var s1 := if counted then s[w..] else s;
    if w <= |s1| && size <= |s1| then (Value(decl, s1[..size]), s1[size..]) else (Value(decl, Fill(size)), s1)
  }

  predicate CountsFit(m: Module) { forall i :: 0 <= i < |m.inputs| ==> CountFits(m.inputs[i].decl) }

  /** Configurations whose arrays have counts that fit. */
  type Countable = c: Configuration | forall m :: m in c.modules ==> CountsFit(m) witness EMPTY

  /** The address of a module, which is formed whether or not the module is there. */
  function Addressed(config: Configuration, index: nat): Target {
    if index < |config.modules| then On(config.modules[index]) else Beyond(index)
  }

  /** The loop over the mask bits from i on: reads the module, asserts that it has the input, and reads a value. */
  function DecodeValues(t: Target, mask: bv16, i: nat, s: seq<byte>): Outcome<(seq<Pair>, seq<byte>)>
    requires t.On? ==> CountsFit(t.m)
    decreases 16 - i
  {
    if i >= 16 then Done(([], s))
    else if !Has(mask, i) then DecodeValues(t, mask, i + 1, s)
    else if !t.On? then OutOfBounds
    else if i >= t.m.numInputs then AssertionFailed
    else if i >= |t.m.inputs| then OutOfBounds
    else
      var (v, s1) := DecodeValue(t.m.inputs[i].decl, s);
      match DecodeValues(t, mask, i + 1, s1)
      case Done((ps, s2)) => Done(([Pair(t.m.inputs[i], v)] + ps, s2))
      case AssertionFailed => AssertionFailed
      case OutOfBounds => OutOfBounds
  }

  /** `ModuleControl::decode`: the first byte is read and the module addressed before anything is checked; a
      short header then leaves an empty control on that module, and only values make it read the module. */
  function DecodeControl(config: Countable, s: seq<byte>): Outcome<(Control, seq<byte>)> {
    if s == [] then OutOfBounds
    else
      var t := Addressed(config, ByteValue(s[0]));
      if |s| < 3 then Done((Control(0, 0, t, []), s))
      else
        var c := Control(ByteValue(s[0]), JoinMask(s[1], s[2]), t, []);
        if IsClear(c) then Done((c, s[3..]))
        else
          assert t.On? ==> t.m in config.modules;
          match DecodeValues(t, c.inputIds, 0, s[3..])
          case Done((ps, rest)) => Done((c.(values := ps), rest))
          case AssertionFailed => AssertionFailed
          case OutOfBounds => OutOfBounds
  }

  // ----- Which bytes decode -----

  /** The module has every input that the mask names from i on. */
  predicate HasInputs(m: Module, mask: bv16, i: nat) {
    forall j :: i <= j < 16 && Has(mask, j) ==> j < m.numInputs && j < |m.inputs|
  }

  /** What a sender can see of a control's bytes: a short header, the clear form, no inputs at all, or inputs
      that a module which is there has. */
  predicate Decodes(config: Configuration, s: seq<byte>) {
    && s != []
    && (|s| < 3 || (var mask, index := JoinMask(s[1], s[2]), ByteValue(s[0]);
        Has(mask, 15) || mask == 0 || (index < |config.modules| && HasInputs(config.modules[index], mask, 0))))
  }

  /** Among the inputs named from i on there is one that the module does not count, and all before it are in
      its array: the assertion comes before anything outside the array is read. */
  predicate Uncounted(m: Module, mask: bv16, i: nat) {
    exists j :: i <= j < 16 && Has(mask, j) && j >= m.numInputs && NamedAreThere(m, mask, i, j)
  }

  predicate NamedAreThere(m: Module, mask: bv16, i: nat, j: nat) {
    forall k :: i <= k < j && Has(mask, k) ==> k < |m.inputs|
  }

  /** Bytes on which decoding fails the assertion. */
  predicate Asserts(config: Configuration, s: seq<byte>) {
    |s| >= 3 && !Has(JoinMask(s[1], s[2]), 15) && ByteValue(s[0]) < |config.modules|
    && Uncounted(config.modules[ByteValue(s[0])], JoinMask(s[1], s[2]), 0)
  }

  predicate NoBitFrom(mask: bv16, i: nat) { forall j :: i <= j < 16 ==> !Has(mask, j) }

  lemma {:induction false} ValuesDecodeIff(t: Target, mask: bv16, i: nat, s: seq<byte>)
    requires t.On? ==> CountsFit(t.m)
    ensures DecodeValues(t, mask, i, s).Done?
      <==> NoBitFrom(mask, i) || (t.On? && HasInputs(t.m, mask, i))
    ensures DecodeValues(t, mask, i, s) == AssertionFailed <==> t.On? && Uncounted(t.m, mask, i)
    ensures DecodeValues(t, mask, i, s) == OutOfBounds ==> !t.On? || |t.m.inputs| < t.m.numInputs
    decreases 16 - i
  {
    hide Has, DecodeValue, CountFits, Uncounted;
    if t.On? { UncountedFrom(t.m, mask, i); }
    if i < 16 {
      if !Has(mask, i) {
        ValuesDecodeIff(t, mask, i + 1, s);
      } else if t.On? && i < t.m.numInputs && i < |t.m.inputs| {
        ValuesDecodeIff(t, mask, i + 1, DecodeValue(t.m.inputs[i].decl, s).1);
      }
    }
  }

  lemma UncountedFrom(m: Module, mask: bv16, i: nat)
    ensures Uncounted(m, mask, i) <==> (i < 16
      && if !Has(mask, i) then Uncounted(m, mask, i + 1) else i >= m.numInputs || (i < |m.inputs| && Uncounted(m, mask, i + 1)))
  {
    hide Has;
    if Uncounted(m, mask, i) {
      var j :| i <= j < 16 && Has(mask, j) && j >= m.numInputs && NamedAreThere(m, mask, i, j);
      if j > i { assert NamedAreThere(m, mask, i + 1, j); }
    }
    if Uncounted(m, mask, i + 1) {
      var j :| i + 1 <= j < 16 && Has(mask, j) && j >= m.numInputs && NamedAreThere(m, mask, i + 1, j);
      if !Has(mask, i) || i < |m.inputs| { assert NamedAreThere(m, mask, i, j); }
    }
    if i < 16 && Has(mask, i) && i >= m.numInputs { assert NamedAreThere(m, mask, i, i); }
  }

  lemma NoBitsIsZero(mask: bv16)
    ensures mask == 0 <==> NoBitFrom(mask, 0)
  {
    hide Has;
    forall j ensures !Has(0, j) { NoBits(j); }
    if NoBitFrom(mask, 0) { SameBits(mask, 0); }
  }

  /** Exactly those bytes decode. Otherwise the assertion fails, exactly when an input that the module does not
      count comes before any that its array lacks; or else memory outside is read, because there is no byte, no
      such module, or an array shorter than its count. */
  lemma DecodesIff(config: Countable, s: seq<byte>)
    ensures var r := DecodeControl(config, s);
      && (r.Done? <==> Decodes(config, s))
      && (r == AssertionFailed <==> Asserts(config, s))
      && (r == OutOfBounds ==> s == [] || ByteValue(s[0]) >= |config.modules| || config.modules[ByteValue(s[0])].numInputs
                                                                            > |config.modules[ByteValue(s[0])].inputs|)
  {
    hide Has, ByteValue, JoinMask, DecodeValues, CountsFit, HasInputs, NoBitFrom, Uncounted;
    if |s| >= 3 {
      var mask, t := JoinMask(s[1], s[2]), Addressed(config, ByteValue(s[0]));
      NoBitsIsZero(mask);
      assert t.On? ==> t.m in config.modules;
      ValuesDecodeIff(t, mask, 0, s[3..]);
      assert DecodeControl(config, s).Done? <==> Has(mask, 15) || DecodeValues(t, mask, 0, s[3..]).Done?;
    }
  }

  // ----- Array-typed values -----

  lemma {:induction false} NoElements(n: nat)
    ensures Elements(Fill(n)) == 0
  {
    if n != 0 {
      NoElements(n - 1);
      assert Fill(n)[1..] == Fill(n - 1);
    }
  }

  /** Encoding writes no element count, and decoding takes the value itself for one: what is encoded comes
      back with nothing else touched exactly when its type is no array, or an array of empty elements. */
  lemma ValueArrivesIff(p: Pair, rest: seq<byte>)
    requires CountFits(p.value.decl) && |p.value.bytes| == Declarations.Width(p.value.decl)
    ensures DecodeValue(p.value.decl, EncodeValue(p) + rest) == (p.value, rest)
      <==> !p.value.decl.isArray || Declarations.Width(p.value.decl) == 0
  {
    var decl, v := p.value.decl, p.value.bytes;
    EncodedWhole(p);
    hide EncodeValue, Elements;
    Split(v, rest);
    if decl.isArray && v != [] {
      NoElements(|v|);
      var (value, left) := DecodeValue(decl, v + rest);
      assert |value.bytes| == ArraySize(Elements(v), |v|);
      if left == rest { assert value.bytes == Fill(|value.bytes|); }
    }
  }

  /** A number in so many bytes, low byte first. */
  function CountBytes(n: nat, width: nat): (r: seq<byte>)
    ensures |r| == width
    decreases width
  {
    if width == 0 then [] else [ToByte(n % 256)] + CountBytes(n / 256, width - 1)
  }

  /** How many numbers there are in so many bytes. */
  function Numbers(width: nat): nat { if width == 0 then 1 else 256 * Numbers(width - 1) }

  lemma {:induction false} CountArrives(n: nat, width: nat)
    requires n < Numbers(width)
    ensures Elements(CountBytes(n, width)) == n
    decreases width
  {
    hide ToByte, ByteValue;
    if width != 0 {
      ByteRoundTrip(n % 256);
      CountArrives(n / 256, width - 1);
      assert CountBytes(n, width)[1..] == CountBytes(n / 256, width - 1);
    }
  }

  /** What decoding an array expects: its number of elements, in as many bytes as an element has, low byte first,
      and then the elements, and it reads exactly these. When they are not all there, or less than one element
      is, nothing more is read. */
  lemma ArrayArrives(decl: Decl, n: nat, size: nat, s: seq<byte>)
    requires decl.isArray && 0 < Declarations.Width(decl) <= 8 && n < Numbers(Declarations.Width(decl))
    requires size == n * Declarations.Width(decl) && size < SIZE_LIMIT
    ensures DecodeValue(decl, CountBytes(n, Declarations.Width(decl)) + s)
      == if Declarations.Width(decl) <= |s| && size <= |s| then (Value(decl, s[..size]), s[size..]) else (Value(decl, Fill(size)), s)
  {
    hide Elements, CountBytes, Numbers, ArraySize;
    var w := Declarations.Width(decl);
    CountArrives(n, w);
    Split(CountBytes(n, w), s);
    SizeIsProduct(n, w);
  }

  /** Past that, sizes wrap: elements of eight bytes that come to the whole address space take no bytes at all. */
  lemma SizesWrap(n: nat)
    ensures ArraySize(n + 0x2000_0000_0000_0000, 8) == ArraySize(n, 8)
  {}

  lemma SizeIsProduct(n: nat, w: nat)
    requires n * w < SIZE_LIMIT
    ensures ArraySize(n, w) == n * w
  {}

  /** Other values are as wide as their type, and zeros without being read when the bytes are not there. */
  lemma PlainValueArrives(decl: Decl, bytes: seq<byte>, rest: seq<byte>)
    requires !decl.isArray
    ensures |bytes| == Declarations.Width(decl) ==> DecodeValue(decl, bytes + rest) == (Value(decl, bytes), rest)
    ensures |rest| < Declarations.Width(decl) ==> DecodeValue(decl, rest) == (Value(decl, Fill(Declarations.Width(decl))), rest)
  {
    Split(bytes, rest);
  }

  /** A header cut short leaves an empty control on the module that its first byte addresses. */
  lemma ShortControl(config: Countable, s: seq<byte>)
    requires 0 < |s| < 3
    ensures var r := DecodeControl(config, s); var k := ByteValue(s[0]);
      r.Done? && r.value.1 == s && r.value.0.moduleId == 0 && r.value.0.inputIds == 0 && r.value.0.values == []
      && (k < |config.modules| ==> r.value.0.target == On(config.modules[k])) && (k >= |config.modules| ==> r.value.0.target.Beyond?)
  {
    hide ByteValue;
  }

  // ----- The round trip -----

  /** Two modules lay out control values alike: same id, input count, input widths and array flags. */
  predicate SameLayout(a: Module, b: Module) {
    && a.id == b.id && a.numInputs == b.numInputs && |a.inputs| == |b.inputs|
    && forall i :: 0 <= i < |a.inputs| ==>
      Declarations.Width(a.inputs[i].decl) == Declarations.Width(b.inputs[i].decl) && a.inputs[i].decl.isArray == b.inputs[i].decl.isArray
  }

  /** A value list carried over to another module's inputs, bytes unchanged. */
  function Retarget(values: seq<Pair>, m: Module): (r: seq<Pair>)
    requires forall p :: p in values ==> p.input.id < |m.inputs|
    ensures |r| == |values|
    ensures forall k :: 0 <= k < |values| ==>
      r[k] == (assert values[k] in values; var input := m.inputs[values[k].input.id]; Pair(input, Value(input.decl, values[k].value.bytes)))
  {
    if values == [] then []
    else
      assert values[0] in values;
      var input := m.inputs[values[0].input.id];
      [Pair(input, Value(input.decl, values[0].value.bytes))] + Retarget(values[1..], m)
  }

  ghost predicate Fits(values: seq<Pair>, m: Module) {
    forall p :: p in values ==> FitsIn(p, m)
  }

  predicate FitsIn(p: Pair, m: Module) {
    && p.input.id < |m.inputs|
    && |p.value.bytes| == Declarations.Width(p.value.decl) == Declarations.Width(m.inputs[p.input.id].decl)
  }

  predicate NoArrays(m: Module) { forall i :: 0 <= i < |m.inputs| ==> !m.inputs[i].decl.isArray }

  lemma DecodeValueOfEncoded(p: Pair, m: Module, rest: seq<byte>)
    requires FitsIn(p, m) && NoArrays(m)
    ensures var decl := m.inputs[p.input.id].decl; DecodeValue(decl, EncodeValue(p) + rest) == (Value(decl, p.value.bytes), rest)
  {
    EncodedWhole(p);
    Split(p.value.bytes, rest);
  }

  lemma EncodedWhole(p: Pair)
    requires |p.value.bytes| == Declarations.Width(p.value.decl)
    ensures EncodeValue(p) == p.value.bytes
  {}

  /** The values come back in order, whatever follows them. */
  lemma {:induction false} ValuesRoundTrip(values: seq<Pair>, m: Module, mask: bv16, i: nat, rest: seq<byte>)
    requires i <= 16 && |m.inputs| == m.numInputs <= 15 && NoArrays(m)
    requires Sorted(values) && Fits(values, m) && (values != [] ==> i <= values[0].input.id)
    requires forall j :: i <= j < 16 ==> (Has(mask, j) <==> HasId(values, j))
    ensures DecodeValues(On(m), mask, i, EncodeAll(EncodeValue, values) + rest) == Done((Retarget(values, m), rest))
    decreases 16 - i
  {
    hide Has, DecodeValue, HasId;
    var s := EncodeAll(EncodeValue, values) + rest;
    if i == 16 {
      if values != [] { FirstInRange(values, m); assert false; }
      assert s == rest;
    } else if Has(mask, i) {
      IdFirst(values, i);
      var p, tail := values[0], values[1..];
      assert p in values;
      forall x | x in tail ensures x in values { var k :| 0 <= k < |tail| && tail[k] == x; assert values[k + 1] == x; }
      forall j | i + 1 <= j < 16 ensures Has(mask, j) <==> HasId(tail, j) { HasIdOfTail(values, j); }
      var s1 := EncodeAll(EncodeValue, tail) + rest;
      Regroup(EncodeValue(p), EncodeAll(EncodeValue, tail), rest);
      DecodeValueOfEncoded(p, m, s1);
      ValuesRoundTrip(tail, m, mask, i + 1, rest);
    } else {
      if values != [] { HasIdOfMemberAt(values, 0); }
      ValuesRoundTrip(values, m, mask, i + 1, rest);
    }
  }

  lemma FirstInRange(values: seq<Pair>, m: Module)
    requires values != [] && Fits(values, m)
    ensures values[0].input.id < |m.inputs|
  {
    assert values[0] in values;
  }

  lemma HasIdOfMemberAt(values: seq<Pair>, k: nat)
    requires k < |values|
    ensures HasId(values, values[k].input.id)
  {}

  lemma IdFirst(values: seq<Pair>, i: nat)
    requires Sorted(values) && HasId(values, i) && (values != [] ==> i <= values[0].input.id)
    ensures values != [] && values[0].input.id == i && (|values| > 1 ==> i < values[1].input.id)
  {
    var k :| 0 <= k < |values| && values[k].input.id == i;
  }

  lemma ControlHeaderRoundTrip(c: Control, rest: seq<byte>)
    requires c.moduleId < 256
    ensures var s := ControlHeader(c) + rest;
      && |s| >= 3 && ByteValue(s[0]) == c.moduleId && JoinMask(s[1], s[2]) == c.inputIds && s[3..] == rest
  {
    ByteRoundTrip(c.moduleId);
    MaskRoundTrip(c.inputIds);
    hide ToByte, ByteValue, MaskLow, MaskHigh, JoinMask;
    Split(ControlHeader(c), rest);
  }

  lemma ValidFits(c: Control, m: Module, m': Module)
    requires Valid(c, m) && SameLayout(m, m')
    ensures Fits(c.values, m') && Sorted(c.values)
  {
    assert forall p :: p in c.values ==> GoodPair(p, m);
  }

  lemma ExactBits(c: Control, m: Module)
    requires Valid(c, m) && Controllable(m) && !IsClear(c)
    ensures forall j :: 0 <= j < 16 ==> (Has(c.inputIds, j) <==> HasId(c.values, j))
  {
    hide Has;
    forall j | 0 <= j < 16 ensures Has(c.inputIds, j) <==> HasId(c.values, j) {
      if HasId(c.values, j) {
        var k :| 0 <= k < |c.values| && c.values[k].input.id == j;
        assert c.values[k] in c.values;
      }
    }
  }

  /** A control built on one module, encoded and decoded where another module of the same layout has
      its id, arrives on that module with every value, and decoding stops where the encoding does. */
  lemma ControlRoundTrip(c: Control, m: Module, config: Countable, rest: seq<byte>)
    requires Valid(c, m) && Controllable(m) && !IsClear(c) && m.id < 256 && m.id < |config.modules|
    requires SameLayout(m, config.modules[m.id])
    ensures var m' := config.modules[m.id];
      && Fits(c.values, m')
      && DecodeControl(config, EncodeControl(c) + rest)
         == Done((Control(m.id, c.inputIds, On(m'), Retarget(c.values, m')), rest))
  {
    var m' := config.modules[m.id];
    assert m' in config.modules;
    assert NoArrays(m');
    ValidFits(c, m, m');
    hide Has, ToByte, ByteValue, MaskLow, MaskHigh, JoinMask, ControlHeader, NoArrays, CountsFit, HasId, GoodPair;
    ExactBits(c, m);
    hide Sorted, Fits;
    var body := EncodeAll(EncodeValue, c.values);
    Regroup(ControlHeader(c), body, rest);
    ControlHeaderRoundTrip(c, body + rest);
    ValuesRoundTrip(c.values, m', c.inputIds, 0, rest);
  }

  /** A clear control carries its mask and nothing else, whether or not the receiver has its module: values
      set beside it do not travel. */
  lemma ClearRoundTrip(c: Control, m: Module, config: Countable, rest: seq<byte>)
    requires Valid(c, m) && IsClear(c) && m.id < 256
    ensures DecodeControl(config, EncodeControl(c) + rest)
      == Done((Control(m.id, c.inputIds, Addressed(config, m.id), []), rest))
  {
    hide Has, ToByte, ByteValue, MaskLow, MaskHigh, JoinMask, ControlHeader;
    assert EncodeControl(c) == ControlHeader(c);
    ControlHeaderRoundTrip(c, rest);
  }

  lemma RetargetedIds(values: seq<Pair>, m: Module)
    requires Fits(values, m) && Sorted(values) && forall i :: 0 <= i < |m.inputs| ==> m.inputs[i].id == i
    ensures var r := Retarget(values, m);
      && (forall k :: 0 <= k < |values| ==> r[k].input.id == values[k].input.id && r[k].value.bytes == values[k].value.bytes)
      && (forall p :: p in r ==> GoodPair(p, m)) && Sorted(r)
  {
    var r := Retarget(values, m);
    forall k | 0 <= k < |r| ensures r[k].input.id == values[k].input.id && GoodPair(r[k], m) { assert values[k] in values; }
  }

  /** Lists with the same ids and bytes, position by position, mean the same. */
  lemma MeaningByPosition(values: seq<Pair>, r: seq<Pair>)
    requires Sorted(values) && Sorted(r) && |r| == |values|
    requires forall k :: 0 <= k < |values| ==> r[k].input.id == values[k].input.id && r[k].value.bytes == values[k].value.bytes
    ensures ValueMap(r) == ValueMap(values)
    ensures forall j :: HasId(values, j) <==> HasId(r, j)
  {
    hide ValueMap;
    forall j ensures HasId(values, j) <==> HasId(r, j) {
      if HasId(values, j) { var k :| 0 <= k < |values| && values[k].input.id == j; assert r[k].input.id == j; }
      if HasId(r, j) { var k :| 0 <= k < |r| && r[k].input.id == j; assert values[k].input.id == j; }
    }
    forall j: nat ensures j in ValueMap(r) <==> j in ValueMap(values) { MapDomain(values, j); MapDomain(r, j); }
    forall j: nat | j in ValueMap(values) ensures ValueMap(r)[j] == ValueMap(values)[j] {
      MapDomain(values, j);
      FoundIsMember(values, j);
      var k := Find(values, j);
      assert values[k] in values && r[k] in r;
      MapOfMember(values, values[k]);
      MapOfMember(r, r[k]);
    }
  }

  /** The receiver's control obeys the same invariant and means the same. */
  lemma ControlArrives(c: Control, m: Module, config: Countable, rest: seq<byte>)
    requires Valid(c, m) && Controllable(m) && !IsClear(c) && m.id < |config.modules| && m.id < 256
    requires SameLayout(m, config.modules[m.id]) && Controllable(config.modules[m.id])
    ensures var r := DecodeControl(config, EncodeControl(c) + rest);
      && r.Done? && r.value.1 == rest && Valid(r.value.0, config.modules[m.id]) && !IsClear(r.value.0)
      && r.value.0.moduleId == m.id && ValueMap(r.value.0.values) == ValueMap(c.values)
  {
    var m' := config.modules[m.id];
    hide Has, EncodeControl, DecodeControl, ValueMap, NoArrays, Retarget, Sorted, Fits, HasId;
    ControlRoundTrip(c, m, config, rest);
    ValidFits(c, m, m');
    ExactBits(c, m);
    var r := Retarget(c.values, m');
    RetargetedIds(c.values, m');
    MeaningByPosition(c.values, r);
  }

  // ----- Canonical form -----

  /** Two histories encode to the same bytes exactly when they leave the same last value on every
      input, in whatever order they set them. */
  lemma HistoriesEncodeAlike(m: Module, a: seq<Op>, b: seq<Op>)
    requires Controllable(m) && m.id < 256 && InRange(a, m) && InRange(b, m)
    ensures EncodeControl(Build(New(m), m, a)) == EncodeControl(Build(New(m), m, b))
      <==> Meaning(map[], m, a) == Meaning(map[], m, b)
  {
    hide Build, Meaning, Valid, EncodeControl, DecodeControl, New, ValueMap, IsClear;
    NewIsValid(m);
    HistoryKeepsValid(New(m), m, a);
    HistoryKeepsValid(New(m), m, b);
    var ca, cb := Build(New(m), m, a), Build(New(m), m, b);
    if ValueMap(ca.values) == ValueMap(cb.values) {
      MeaningDetermines(ca, cb, m);
    }
    if EncodeControl(ca) == EncodeControl(cb) {
      var config := Configuration(m.id + 1, seq(m.id + 1, _ => m), 0);
      ControlArrives(ca, m, config, []);
      ControlArrives(cb, m, config, []);
    }
  }

  // ----- Comparing controls -----

  /** `ValuePair::operator ==`: inputs and declarations as they compare, and the bytes. */
  predicate SamePair(a: Pair, b: Pair) {
    SameInput(a.input, b.input) && Declarations.Same(a.value.decl, b.value.decl) && EncodeValue(a) == EncodeValue(b)
  }

  function SameValues(xs: seq<Pair>, ys: seq<Pair>): Outcome<bool> {
    if xs == [] then Done(true)
    else if ys == [] then OutOfBounds
    else if !SamePair(xs[0], ys[0]) then Done(false)
    else SameValues(xs[1..], ys[1..])
  }

  /** `ModuleControl::operator ==`: asserts that the mask counts the values before it compares them. */
  function SameControl(a: Control, b: Control): Outcome<bool> {
    if a.moduleId != b.moduleId || a.inputIds != b.inputIds then Done(false)
    else if NumValues(a) != |a.values| then AssertionFailed
    else SameValues(a.values, b.values)
  }

  lemma {:induction false} SameByPosition(xs: seq<Pair>, ys: seq<Pair>)
    requires |xs| == |ys|
    ensures SameValues(xs, ys) == Done(forall k :: 0 <= k < |xs| ==> SamePair(xs[k], ys[k]))
    decreases xs
  {
    hide SamePair;
    if xs != [] {
      SameByPosition(xs[1..], ys[1..]);
      assert forall k :: 0 <= k < |xs[1..]| ==> xs[1..][k] == xs[k + 1] && ys[1..][k] == ys[k + 1];
      if SamePair(xs[0], ys[0]) && forall k :: 0 <= k < |xs[1..]| ==> SamePair(xs[1..][k], ys[1..][k]) {
        forall k | 0 <= k < |xs| ensures SamePair(xs[k], ys[k]) {
          if k > 0 { assert SamePair(xs[1..][k - 1], ys[1..][k - 1]); }
        }
      }
    }
  }

  /** How a comparison comes out: it is false when id or mask differ or a pair of values does; it fails the
      assertion when the mask does not count the values; and it reads past the other's values when they are fewer
      and agree as far as they go. */
  lemma ComparisonOutcome(a: Control, b: Control)
    ensures var heads := a.moduleId == b.moduleId && a.inputIds == b.inputIds; var counted := NumValues(a) == |a.values|;
      && (SameControl(a, b) == AssertionFailed <==> heads && !counted)
      && (SameControl(a, b) == OutOfBounds <==> heads && counted && |b.values| < |a.values| && AgreeUpTo(a.values, b.values, |b.values|))
      && (SameControl(a, b) == Done(true) <==> heads && counted && |a.values| <= |b.values| && AgreeUpTo(a.values, b.values, |a.values|))
  {
    hide SamePair, Has;
    ValuesOutcome(a.values, b.values);
  }

  predicate AgreeUpTo(xs: seq<Pair>, ys: seq<Pair>, n: nat)
    requires n <= |xs| && n <= |ys|
  {
    forall k :: 0 <= k < n ==> SamePair(xs[k], ys[k])
  }

  lemma {:induction false} ValuesOutcome(xs: seq<Pair>, ys: seq<Pair>)
    ensures SameValues(xs, ys) != AssertionFailed
    ensures SameValues(xs, ys) == OutOfBounds <==> |ys| < |xs| && AgreeUpTo(xs, ys, |ys|)
    ensures SameValues(xs, ys) == Done(true) <==> |xs| <= |ys| && AgreeUpTo(xs, ys, |xs|)
    decreases xs
  {
    hide SamePair;
    if xs != [] && ys != [] {
      ValuesOutcome(xs[1..], ys[1..]);
      var n := if |xs| <= |ys| then |xs| else |ys|;
      AgreeFrom(xs, ys, n);
    }
  }

  lemma AgreeFrom(xs: seq<Pair>, ys: seq<Pair>, n: nat)
    requires 0 < n <= |xs| && n <= |ys|
    ensures AgreeUpTo(xs, ys, n) <==> SamePair(xs[0], ys[0]) && AgreeUpTo(xs[1..], ys[1..], n - 1)
  {
    hide SamePair;
    if SamePair(xs[0], ys[0]) && AgreeUpTo(xs[1..], ys[1..], n - 1) {
      forall k | 0 <= k < n ensures SamePair(xs[k], ys[k]) {
        if k > 0 { assert SamePair(xs[1..][k - 1], ys[1..][k - 1]); }
      }
    }
    if AgreeUpTo(xs, ys, n) {
      forall k | 0 <= k < n - 1 ensures SamePair(xs[1..][k], ys[1..][k]) { assert SamePair(xs[k + 1], ys[k + 1]); }
    }
  }

  lemma SameAsItself(values: seq<Pair>, m: Module)
    requires GoodModule(m) && forall p :: p in values ==> GoodPair(p, m)
    ensures forall k :: 0 <= k < |values| ==> SamePair(values[k], values[k])
  {
    hide Declarations.WellFormed;
    forall k | 0 <= k < |values| ensures SamePair(values[k], values[k]) {
      assert values[k] in values && values[k].input in m.inputs && GoodInput(values[k].input);
    }
  }

  lemma PairsEncodeWhole(c: Control, m: Module)
    requires Valid(c, m)
    ensures forall k :: 0 <= k < |c.values| ==> EncodeValue(c.values[k]) == c.values[k].value.bytes
  {
    ValidParts(c, m);
    hide Valid, Sorted;
    forall k | 0 <= k < |c.values| ensures EncodeValue(c.values[k]) == c.values[k].value.bytes {
      assert GoodPair(c.values[k], m);
      EncodedWhole(c.values[k]);
    }
  }

  /** Controls with values on one module compare equal exactly when they say the same. */
  lemma SameControlIffSameMeaning(a: Control, b: Control, m: Module)
    requires Valid(a, m) && Valid(b, m) && Controllable(m) && GoodModule(m) && !IsClear(a) && !IsClear(b)
    ensures SameControl(a, b) == Done(ValueMap(a.values) == ValueMap(b.values))
  {
    NumValuesIsLength(a, m);
    NumValuesIsLength(b, m);
    ValidParts(a, m);
    ValidParts(b, m);
    PairsEncodeWhole(a, m);
    PairsEncodeWhole(b, m);
    hide ValueMap, Has, Sorted, Valid, GoodModule, GoodPair, Controllable, IsClear, NumValues, Declarations.Same, EncodeValue;
    if ValueMap(a.values) == ValueMap(b.values) {
      MeaningDetermines(a, b, m);
      SameByPosition(a.values, b.values);
      SameAsItself(a.values, m);
    } else if a.inputIds == b.inputIds {
      SameByPosition(a.values, b.values);
      if forall k :: 0 <= k < |a.values| ==> SamePair(a.values[k], b.values[k]) {
        MeaningByPosition(a.values, b.values);
      }
    }
  }

  /** A clear control can be compared with itself exactly when it carries no values. */
  lemma ClearControlComparison(c: Control)
    requires IsClear(c)
    ensures SameControl(c, c) == if c.values == [] then Done(true) else AssertionFailed
  {}
}
