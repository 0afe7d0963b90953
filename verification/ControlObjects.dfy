/** Module-control messages as the objects the program updates in place (src/comms/ModuleControl.cc).
    Each method is tied to the value-level code of `ModuleControls` and `ControlCodec`. */
module ControlObjects {
  import opened Bytes
  import opened Records
  import opened InputMasks
  import opened NamedRecords
  import opened Configurations
  import opened ModuleControls
  import opened ControlCodec
  import opened Emission
  import opened Outcomes
  import Buffers
  import Declarations

  /** `clear(input)`: refused while values are set; else bit 15 and the input's bit. */
  function ClearInput(c: Control, id: nat): Outcome<Control> {
    if NumValues(c) != 0 then AssertionFailed
    else Done(c.(inputIds := With(With(c.inputIds, 15), id)))
  }

  /** A control in order can be cleared exactly when it has no values or is a clear one already; then exactly
      bit 15 and the input's bit are added to its mask, and nothing else changes. */
  lemma ClearedIff(c: Control, m: Module, i: nat)
    requires Valid(c, m) && Controllable(m) && i < 15
    ensures ClearInput(c, i) == AssertionFailed <==> !IsClear(c) && c.values != []
    ensures ClearInput(c, i) != OutOfBounds
    ensures ClearInput(c, i).Done? ==> var c' := ClearInput(c, i).value;
      && c' == c.(inputIds := c'.inputIds)
      && forall j: nat :: j < 16 ==> (Has(c'.inputIds, j) <==> Has(c.inputIds, j) || j == i || j == 15)
  {
    hide Has, With, Valid, Controllable;
    if !IsClear(c) { NumValuesIsLength(c, m); }
    forall j: nat | j < 16 ensures Has(With(With(c.inputIds, 15), i), j) <==> Has(c.inputIds, j) || j == i || j == 15 {
      WithBit(c.inputIds, 15, j);
      WithBit(With(c.inputIds, 15), i, j);
    }
  }

  /** Nothing keeps a value from being set on a clear control: setting an input other than the one just
      cleared leaves a value that is not encoded and with which the control cannot be compared, even to
      itself; setting the cleared input changes nothing. */
  lemma SetAfterClear(m: Module, i: nat, j: nat, bytes: seq<byte>)
    requires Controllable(m) && i < |m.inputs| && j < |m.inputs|
    ensures ClearInput(New(m), i).Done?
    ensures var cleared := ClearInput(New(m), i).value; var c := ModuleControls.Set(cleared, m.inputs[j], bytes);
      && IsClear(c) && (if i == j then c == cleared else |c.values| == 1)
      && EncodeControl(c) == ControlHeader(c)
      && SameControl(c, c) == (if i == j then Done(true) else AssertionFailed)
  {
    hide Has, With, ControlHeader, Write;
    NothingCounted(15);
    var cleared := ClearInput(New(m), i).value;
    WithBit(0, 15, 15); WithBit(With(0, 15), i, 15);
    WithBit(0, 15, j); WithBit(With(0, 15), i, j); WithBit(cleared.inputIds, j, 15);
    NoBits(j);
    ClearControlComparison(ModuleControls.Set(cleared, m.inputs[j], bytes));
  }

  lemma {:induction false} NothingCounted(n: nat)
    ensures Count(0, n) == 0 && !Has(0, n)
  {
    hide Has;
    NoBits(n);
    if n != 0 { NothingCounted(n - 1); }
  }

  lemma {:induction false} InsertMultiset(values: seq<Pair>, p: Pair)
    ensures multiset(InsertSorted(values, p)) == multiset(values) + multiset{p}
  {
    if values == [] || p.input.id < values[0].input.id {
    } else {
      InsertMultiset(values[1..], p);
      assert values == [values[0]] + values[1..];
    }
  }

  predicate Ordered(values: seq<Pair>) {
    forall i, j :: 0 <= i < j < |values| ==> values[i].input.id <= values[j].input.id
  }

  lemma {:induction false} InsertKeepsOrdered(values: seq<Pair>, p: Pair)
    requires Ordered(values)
    ensures Ordered(InsertSorted(values, p))
  {
    if values == [] || p.input.id < values[0].input.id {
    } else {
      var t := InsertSorted(values[1..], p);
      InsertKeepsOrdered(values[1..], p);
      forall j | 0 <= j < |t| ensures values[0].input.id <= t[j].input.id {
        InsertMembers(values[1..], p, t[j]);
        if t[j] in values[1..] {
          var k :| 0 <= k < |values[1..]| && values[1..][k] == t[j];
          assert values[k + 1] == t[j];
        }
      }
    }
  }

  /** The library sort by input id. */
  method SortById(values: seq<Pair>) returns (r: seq<Pair>)
    ensures Ordered(r) && multiset(r) == multiset(values)
  {
    r := [];
    var i := 0;
    while i < |values|
      invariant i <= |values| && Ordered(r) && multiset(r) == multiset(values[..i])
    {
      InsertKeepsOrdered(r, values[i]);
      InsertMultiset(r, values[i]);
      assert values[..i + 1] == values[..i] + [values[i]];
      r := InsertSorted(r, values[i]);
      i := i + 1;
    }
    assert values[..i] == values;
  }

  /** Sorting a strictly sorted list with one new id appended is inserting. */
  lemma SortedAppend(values: seq<Pair>, p: Pair, r: seq<Pair>)
    requires Sorted(values) && !HasId(values, p.input.id)
    requires Ordered(r) && multiset(r) == multiset(values + [p])
    ensures r == InsertSorted(values, p)
  {
    OrderedIsSorted(values, p, r);
    SortingAppendedIsInserting(values, p, r);
  }

  /** Two places of an ordered permutation cannot hold the same id. */
  lemma OrderedIsSorted(values: seq<Pair>, p: Pair, r: seq<Pair>)
    requires Sorted(values) && !HasId(values, p.input.id)
    requires Ordered(r) && multiset(r) == multiset(values + [p])
    ensures Sorted(r)
  {
    forall i: nat, j: nat | i < j < |r| ensures r[i].input.id != r[j].input.id {
      var all := values + [p];
      assert r[i] in multiset(r) && r[j] in multiset(r);
      var a: nat :| a < |all| && all[a] == r[i];
      var b: nat :| b < |all| && all[b] == r[j];
      OnceIn(values, p, a);
      if r[i] == r[j] { TwiceIn(r, i, j); }
      if a != b { IdElsewhere(values, p, a, b); }
    }
  }

  lemma TwiceIn(r: seq<Pair>, i: nat, j: nat)
    requires i < j < |r| && r[i] == r[j]
    ensures multiset(r)[r[i]] >= 2
  {
    assert r == r[..j] + ([r[j]] + r[j + 1..]);
    assert r[..j][i] == r[i];
    assert r[i] in multiset(r[..j]);
  }

  lemma DistinctOnce(xs: seq<Pair>, a: nat)
    requires a < |xs| && forall b :: 0 <= b < |xs| && b != a ==> xs[b] != xs[a]
    ensures multiset(xs)[xs[a]] == 1
  {
    var front, back := xs[..a], xs[a + 1..];
    assert xs == front + ([xs[a]] + back);
    assert forall b :: 0 <= b < |front| ==> front[b] == xs[b];
    assert forall b :: 0 <= b < |back| ==> back[b] == xs[a + 1 + b];
    assert xs[a] !in front && xs[a] !in back;
  }

  lemma OnceIn(values: seq<Pair>, p: Pair, a: nat)
    requires Sorted(values) && !HasId(values, p.input.id) && a <= |values|
    ensures var all := values + [p]; multiset(all)[all[a]] == 1
  {
    var all := values + [p];
    forall b: nat | b < |all| && b != a ensures all[b] != all[a] { IdElsewhere(values, p, a, b); }
    DistinctOnce(all, a);
  }

  lemma IdElsewhere(values: seq<Pair>, p: Pair, a: nat, b: nat)
    requires Sorted(values) && !HasId(values, p.input.id) && a <= |values| && b <= |values| && a != b
    ensures (values + [p])[a].input.id != (values + [p])[b].input.id
  {
    if a < |values| { HasIdOfMemberAt(values, a); }
    if b < |values| { HasIdOfMemberAt(values, b); }
  }

  /** Values read so far, in front of what the rest of the bits give. */
  function Prepend(ps: seq<Pair>, o: Outcome<(seq<Pair>, seq<byte>)>): Outcome<(seq<Pair>, seq<byte>)> {
    match o
    case Done((qs, s)) => Done((ps + qs, s))
    case AssertionFailed => AssertionFailed
    case OutOfBounds => OutOfBounds
  }

  lemma PrependNothing(o: Outcome<(seq<Pair>, seq<byte>)>)
    ensures Prepend([], o) == o
  {
    if o.Done? { assert [] + o.value.0 == o.value.0; }
  }

  lemma PrependFailure(ps: seq<Pair>)
    ensures Prepend(ps, AssertionFailed) == AssertionFailed && Prepend(ps, OutOfBounds) == OutOfBounds
  {}

  lemma PrependEnd(ps: seq<Pair>, t: Target, mask: bv16, s: seq<byte>)
    requires t.On? ==> CountsFit(t.m)
    ensures Prepend(ps, DecodeValues(t, mask, 16, s)) == Done((ps, s))
  {
    assert ps + [] == ps;
  }

  lemma PrependStep(ps: seq<Pair>, p: Pair, o: Outcome<(seq<Pair>, seq<byte>)>)
    ensures Prepend(ps, Prepend([p], o)) == Prepend(ps + [p], o)
  {
    if o.Done? { Regroup(ps, [p], o.value.0); }
  }

  lemma ValuesStep(t: Target, mask: bv16, i: nat, s: seq<byte>)
    requires (t.On? ==> CountsFit(t.m)) && i < 16
    ensures DecodeValues(t, mask, i, s)
      == if !Has(mask, i) then DecodeValues(t, mask, i + 1, s)
         else if !t.On? then OutOfBounds
         else if i >= t.m.numInputs then AssertionFailed
         else if i >= |t.m.inputs| then OutOfBounds
         else
           var (v, rest) := DecodeValue(t.m.inputs[i].decl, s);
           Prepend([Pair(t.m.inputs[i], v)], DecodeValues(t, mask, i + 1, rest))
  {
    hide Has, DecodeValue;
  }

  /** What `value_for` asserts: a module, which it then reads, and an input among its inputs. An input from 16 on has no bit
      to remember it by, and the recursion that looks for its value never ends. */
  function Admits(c: Control, input: Input): Outcome<()> {
    if c.target.NoModule? then AssertionFailed
    else if c.target.Beyond? then OutOfBounds
    else if input.id >= c.target.m.numInputs then AssertionFailed
    else if input.id >= 16 then OutOfBounds
    else Done(())
  }

  /** What `value_for` leaves behind: nothing new when the bit is set; otherwise the bit, and the values
      with a zero value appended and sorted by input, in some order where ids are equal. */
  ghost predicate Touches(c: Control, t: Control, input: Input) {
    if Has(c.inputIds, input.id) then t == c
    else
      && t == c.(inputIds := With(c.inputIds, input.id), values := t.values)
      && Ordered(t.values) && multiset(t.values) == multiset(c.values + [Blank(input)])
  }

  /** With mask and sorted list in step there is only one such order, and `value_for` is `Touch`. */
  lemma TouchesIsTouch(c: Control, t: Control, input: Input)
    requires Sorted(c.values) && (!Has(c.inputIds, input.id) ==> !HasId(c.values, input.id))
    ensures Touches(c, t, input) <==> t == Touch(c, input)
  {
    hide Has, With;
    if !Has(c.inputIds, input.id) {
      if Touches(c, t, input) { SortedAppend(c.values, Blank(input), t.values); }
      InsertKeepsSorted(c.values, Blank(input));
      InsertMultiset(c.values, Blank(input));
    }
  }

  /** A write that would go past the value it overwrites. */
  predicate Overruns(t: Control, id: nat, bytes: seq<byte>) {
    var k := Find(t.values, id);
    k < |t.values| && |bytes| > |t.values[k].value.bytes|
  }

  /** A control in order and not clear, on a module with the given input. */
  ghost predicate Addresses(c: Control, input: Input) {
    && c.target.On? && Valid(c, c.target.m) && Controllable(c.target.m) && !IsClear(c)
    && input.id < |c.target.m.inputs| && input == c.target.m.inputs[input.id]
  }

  /** There is no module, or it counts no such input: the assertions of `value_for`. */
  predicate Refused(t: Target, input: Input) { t.NoModule? || (t.On? && input.id >= t.m.numInputs) }

  /** The control is still in order, and means what it meant but for the input, which now gets the bytes. */
  ghost predicate Assigns(c: Control, c': Control, input: Input, bytes: seq<byte>) {
    Addresses(c', input) && c'.target == c.target && ValueMap(c'.values) == ValueMap(c.values)[input.id := bytes]
  }

  /** What an input means: what was set last, or zeros. */
  ghost function Reading(c: Control, input: Input): seq<byte> {
    if input.id in ValueMap(c.values) then ValueMap(c.values)[input.id] else Fill(Declarations.Width(input.decl))
  }

  lemma AddressedIsAdmitted(c: Control, input: Input)
    ensures Addresses(c, input) ==> Admits(c, input) == Done(())
  {
    hide Valid;
  }

  lemma AddressedInput(c: Control, t: Control, input: Input)
    requires Addresses(c, input) && Touches(c, t, input)
    ensures t == Touch(c, input)
    ensures var k := Find(t.values, input.id); k < |t.values| && t.values[k].value.bytes == Reading(c, input)
    ensures Assigns(c, t, input, Reading(c, input)) && |Reading(c, input)| == Declarations.Width(input.decl)
  {
    var m := c.target.m;
    TouchIsUnique(c, t, m, input);
    TouchedValue(c, m, input.id);
    ValidParts(c, m);
    ValidParts(t, m);
    hide Has, With, InsertSorted, Touch, Valid, ValueMap;
    var p := t.values[Find(t.values, input.id)];
    assert p in t.values && GoodPair(p, m);
    MapUpdate(c.values, t.values, p);
    TargetOfTouch(c, input);
  }

  lemma TouchIsUnique(c: Control, t: Control, m: Module, input: Input)
    requires Valid(c, m) && input.id < 15 && Touches(c, t, input)
    ensures t == Touch(c, input)
  {
    hide Has, With;
    TouchesIsTouch(c, t, input);
  }

  lemma TargetOfTouch(c: Control, input: Input)
    ensures Touch(c, input).target == c.target
  {
    hide Has, With, InsertSorted;
  }

  lemma AddressedSet(c: Control, t: Control, input: Input, bytes: seq<byte>)
    requires Addresses(c, input) && Touches(c, t, input) && |bytes| <= Declarations.Width(input.decl)
    ensures !Overruns(t, input.id, bytes)
    ensures Assigns(c, Written(t, input.id, bytes), input, Declarations.Overlay(Reading(c, input), bytes))
  {
    AddressedInput(c, t, input);
    SetKeepsValid(c, c.target.m, input.id, bytes);
    TargetOfTouch(c, input);
    hide Has, With, InsertSorted, Touch, Valid, ValueMap, Controllable, Declarations.Overlay;
  }

  /** The value holds as many bytes as its type is wide; a decoded array without elements does not. */
  predicate Full(p: Pair) { |p.value.bytes| >= Declarations.Width(p.value.decl) }

  /** How many values at the head of a list, at most n, can be read as wide as their types. */
  function Readable(values: seq<Pair>, n: nat): (k: nat)
    ensures k <= n && k <= |values| && (forall i :: 0 <= i < k ==> Full(values[i]))
    ensures k < n && k < |values| ==> !Full(values[k])
  {
    if n == 0 || values == [] || !Full(values[0]) then 0 else 1 + Readable(values[1..], n - 1)
  }

  lemma OneElement(w: nat)
    requires w < 32
    ensures ArraySize(1, w) == w
  {}

  /** What writing n values comes to: it ends where one does not fit, and else reads outside memory at the
      first that cannot be read. */
  function Writing(values: seq<Pair>, n: nat, room: nat): Outcome<Buffers.EncodeResult> {
    var k := Readable(values, n);
    var (ok, b) := EmitAll(EmitValue, values[..k], room);
    if !ok then Done(Buffers.INSUFFICIENT_SPACE)
    else if k == n then Done(Buffers.SUCCESS)
    else if k < |values| && Left(room, b) < Declarations.Width(values[k].value.decl) then Done(Buffers.INSUFFICIENT_SPACE)
    else OutOfBounds
  }

  function TotalWidth(values: seq<Pair>): nat {
    if values == [] then 0 else Declarations.Width(values[0].value.decl) + TotalWidth(values[1..])
  }

  lemma {:induction false} WidthStep(values: seq<Pair>, i: nat)
    requires i < |values|
    ensures TotalWidth(values[..i + 1]) == TotalWidth(values[..i]) + Declarations.Width(values[i].value.decl)
  {
    if i == 0 {
      assert values[..1][1..] == [] && values[..0] == [];
    } else {
      WidthStep(values[1..], i - 1);
      assert values[..i + 1][1..] == values[1..][..i] && values[..i][1..] == values[1..][..i - 1];
    }
  }

  /** The announced size of full values is the length of their encoding. */
  lemma {:induction false} WidthIsLength(values: seq<Pair>)
    requires forall i :: 0 <= i < |values| ==> Full(values[i])
    ensures TotalWidth(values) == |EncodeAll(EncodeValue, values)|
    decreases values
  {
    if values != [] {
      assert forall i :: 0 <= i < |values[1..]| ==> values[1..][i] == values[i + 1];
      WidthIsLength(values[1..]);
    }
  }

  /** In numbers: with k the values that can be read, writing ends for want of room when their widths, and that of
      the one that cannot be read, if it is there, come to more than the room; otherwise it is done when k values
      were asked for, and outside memory when it was more. */
  lemma WritingInNumbers(values: seq<Pair>, n: nat, room: nat)
    ensures var k := Readable(values, n);
      var needed := TotalWidth(values[..k]) + if k < n && k < |values| then Declarations.Width(values[k].value.decl) else 0;
      Writing(values, n, room)
      == if needed > room then Done(Buffers.INSUFFICIENT_SPACE) else if k == n then Done(Buffers.SUCCESS) else OutOfBounds
  {
    hide EncodeValue, Readable, TotalWidth;
    var k := Readable(values, n);
    WidthIsLength(values[..k]);
    forall x: Pair, r: nat ensures EmitValue(x, r) == EmitWhole(EncodeValue(x), r) {}
    hide EmitValue, EmitAll;
    AllOrFailure(EncodeValue, EmitValue, values[..k], room);
  }

  class ControlObject {
    var moduleId: nat
    var inputIds: bv16
    var target: Target
    var values: seq<Pair>

    ghost function Val(): Control reads this { Control(moduleId, inputIds, target, values) }

    constructor (m: Module)
      ensures Val() == New(m)
    {
      moduleId, inputIds, target, values := m.id, 0, On(m), [];
    }

    constructor Blank()
      ensures Val() == Control(0, 0, NoModule, [])
    {
      moduleId, inputIds, target, values := 0, 0, NoModule, [];
    }

    method GetNumValues() returns (n: nat)
      ensures n == NumValues(Val())
    {
      hide Has;
      n := 0;
      if Has(inputIds, 15) { return; }
      for i := 0 to 15
        invariant n == Count(inputIds, i)
      {
        if Has(inputIds, i) { n := n + 1; }
      }
    }

    /** The first index holding an input's value, or past the end. */
    method IndexOf(id: nat) returns (k: nat)
      ensures k == Find(values, id)
    {
      k := 0;
      while k < |values| && values[k].input.id != id
        invariant k <= |values| && Find(values, id) == k + Find(values[k..], id)
      {
        assert values[k..][1..] == values[k + 1..];
        k := k + 1;
      }
    }

    /** The index of an input's value, made for it when its bit is not set; past the end when there is none. */
    method ValueFor(input: Input) returns (r: Outcome<nat>)
      modifies this
      ensures match Admits(old(Val()), input)
        case Done(_) => Touches(old(Val()), Val(), input) && r == Done(Find(values, input.id))
        case AssertionFailed => r == AssertionFailed && Val() == old(Val())
        case OutOfBounds => r == OutOfBounds
      ensures r == AssertionFailed <==> Refused(old(target), input)
      ensures r == OutOfBounds <==> !Refused(old(target), input) && (old(target).Beyond? || input.id >= 16)
      ensures Addresses(old(Val()), input) ==>
        && r.Done? && r.value < |values| && values[r.value].value.bytes == Reading(old(Val()), input)
        && Assigns(old(Val()), Val(), input, Reading(old(Val()), input))
    {
      AddressedIsAdmitted(Val(), input);
      hide Has, With, Find, Assigns, Reading, Addresses;
      if target.NoModule? { return AssertionFailed; }
      if target.Beyond? { return OutOfBounds; }
      if input.id >= target.m.numInputs { return AssertionFailed; }
      if input.id >= 16 { return OutOfBounds; }
      if !Has(inputIds, input.id) {
        inputIds := With(inputIds, input.id);
        values := values + [ModuleControls.Blank(input)];
        values := SortById(values);
      }
      var k := IndexOf(input.id);
      if Addresses(old(Val()), input) { AddressedInput(old(Val()), Val(), input); }
      r := Done(k);
    }

    /** Writing an input's value: refused as `value_for` is, out of bounds when the value is wider than the
        one it overwrites, and without effect when there is none to overwrite. */
    method Set(input: Input, bytes: seq<byte>) returns (r: Outcome<()>)
      modifies this
      ensures match Admits(old(Val()), input)
        case Done(_) => (exists t :: Touches(old(Val()), t, input) && if Overruns(t, input.id, bytes) then r == OutOfBounds
                                     else r == Done(()) && Val() == Written(t, input.id, bytes))
        case AssertionFailed => r == AssertionFailed && Val() == old(Val())
        case OutOfBounds => r == OutOfBounds
      ensures r == AssertionFailed <==> Refused(old(target), input)
      ensures Addresses(old(Val()), input) && |bytes| <= Declarations.Width(input.decl) ==>
        r == Done(()) && Assigns(old(Val()), Val(), input, Declarations.Overlay(Reading(old(Val()), input), bytes))
    {
      hide Has, Touches, Assigns, Reading, Addresses, Admits;
      var slot := ValueFor(input);
      match slot
      case AssertionFailed => return AssertionFailed;
      case OutOfBounds => return OutOfBounds;
      case Done(k) =>
        ghost var t := Val();
        if Addresses(old(Val()), input) && |bytes| <= Declarations.Width(input.decl) { AddressedSet(old(Val()), t, input, bytes); }
        if k < |values| {
          if |bytes| > |values[k].value.bytes| { return OutOfBounds; }
          values := values[k := Write(values[k], bytes)];
        }
        r := Done(());
    }

    /** Reading an input that was never set leaves a zero value behind. */
    method Get(input: Input) returns (r: Outcome<seq<byte>>)
      modifies this
      ensures match Admits(old(Val()), input)
        case Done(_) => Touches(old(Val()), Val(), input)
          && (var k := Find(values, input.id); r == Done(if k < |values| then values[k].value.bytes else []))
        case AssertionFailed => r == AssertionFailed && Val() == old(Val())
        case OutOfBounds => r == OutOfBounds
      ensures r == AssertionFailed <==> Refused(old(target), input)
      ensures Addresses(old(Val()), input) ==>
        r == Done(Reading(old(Val()), input)) && Assigns(old(Val()), Val(), input, Reading(old(Val()), input))
    {
      hide Has, Touches, Assigns, Reading, Addresses, Admits;
      var slot := ValueFor(input);
      match slot
      case AssertionFailed => return AssertionFailed;
      case OutOfBounds => return OutOfBounds;
      case Done(k) => r := Done(if k < |values| then values[k].value.bytes else []);
    }

    method Clear(input: Input) returns (ok: bool)
      modifies this`inputIds
      ensures ok == ClearInput(old(Val()), input.id).Done?
      ensures Val() == if ok then ClearInput(old(Val()), input.id).value else old(Val())
    {
      var n := GetNumValues();
      if n != 0 { return false; }
      inputIds := With(inputIds, 15);
      inputIds := With(inputIds, input.id);
      ok := true;
    }

    /** Three bytes and the widths of the values that the mask counts: the length of the encoding when these
        values are full. A mask that counts more values than there are reaches past the list. */
    method EncodedSize() returns (r: Outcome<nat>)
      ensures var n := NumValues(Val());
        && r == (if n <= |values| then Done(3 + TotalWidth(values[..n])) else OutOfBounds)
        && (Readable(values, n) == n ==> r == Done(|EncodeControl(Val().(values := values[..n]))|))
    {
      hide Has;
      var n := 3;
      var count := GetNumValues();
      if count > |values| { return OutOfBounds; }
      for i := 0 to count
        invariant n == 3 + TotalWidth(values[..i])
      {
        WidthStep(values, i);
        n := n + Declarations.Width(values[i].value.decl);
      }
      if Readable(values, count) == count { WidthIsLength(values[..count]); }
      r := Done(n);
    }

    /** Whatever the room, what is written and reported is what the value-level emission says, or the values
        end before the mask's count, or one cannot be read. */
    method Encode(buf: Buffers.MemoryEncodeBuffer) returns (r: Outcome<Buffers.EncodeResult>)
      requires buf.Valid()
      modifies buf`offset, buf.data
      ensures buf.Valid()
      ensures var n := NumValues(Val());
        if Readable(values, n) == n then
          r.Done? && (r.value == Buffers.SUCCESS, buf.Written())
            == (EmitControl(Val(), old(buf.Room())).0, old(buf.Written()) + EmitControl(Val(), old(buf.Room())).1)
        else
          r == Writing(values, n, Left(old(buf.Room()), Fit(ControlHeader(Val()), old(buf.Room()))))
    {
      hide Has, ToByte, MaskLow, MaskHigh, EmitAll, Readable, Count;
      ghost var start, header := buf.Written(), Fit(ControlHeader(Val()), buf.Room());
      var _ := buf.Write([ToByte(moduleId), MaskLow(inputIds), MaskHigh(inputIds)]);
      assert buf.Written() == start + header;
      hide ControlHeader;
      if Has(inputIds, 15) { return Done(Buffers.SUCCESS); }
      var count := GetNumValues();
      ghost var left := buf.Room();
      r := EncodeValuesTo(buf, count);
      Regroup(start, header, EmitAll(EmitValue, values[..Readable(values, count)], left).1);
    }

    method EncodeValuesTo(buf: Buffers.MemoryEncodeBuffer, count: nat) returns (r: Outcome<Buffers.EncodeResult>)
      requires buf.Valid()
      modifies buf`offset, buf.data
      ensures buf.Valid()
      ensures r == Writing(values, count, old(buf.Room()))
      ensures var emitted := EmitAll(EmitValue, values[..Readable(values, count)], old(buf.Room())).1;
        r.Done? ==> buf.Written() == old(buf.Written()) + emitted
    {
      hide EmitAll, Emitting, Readable;
      ghost var k := Readable(values, count);
      ghost var todo := values[..k];
      ghost var base, all := buf.Written(), EmitAll(EmitValue, todo, buf.Room());
      ghost var written: seq<byte> := [];
      EmitStart(EmitValue, todo, buf.Room());
      var i := 0;
      while i < count
        invariant i <= k && buf.Valid() && buf.Written() == base + written && buf.Room() == Left(old(buf.Room()), written)
        invariant Emitting(EmitValue, todo, i, buf.Room(), written, all)
      {
        if i == k { EmitEnd(EmitValue, todo, buf.Room(), written, all); }
        if i >= |values| { return OutOfBounds; }
        var width := Declarations.Width(values[i].value.decl);
        if |values[i].value.bytes| < width {
          r := if buf.Room() < width then Done(Buffers.INSUFFICIENT_SPACE) else OutOfBounds;
          return;
        }
        ghost var bytes := EmitValue(values[i], buf.Room()).1;
        EmitStep(EmitValue, todo, i, buf.Room(), written, all);
        Regroup(base, written, bytes);
        var w := buf.Write(values[i].value.bytes[..width]);
        written := written + bytes;
        if w != Buffers.SUCCESS { return Done(w); }
        i := i + 1;
      }
      EmitEnd(EmitValue, todo, buf.Room(), written, all);
      r := Done(Buffers.SUCCESS);
    }

    /** Whatever bytes arrive: the control becomes what the value-level decoder says, or decoding stops
        the same way. */
    method Decode(buf: Buffers.DecodeBuffer, config: Countable) returns (r: Outcome<()>)
      requires buf.Valid()
      modifies this, buf`offset
      ensures buf.Valid()
      ensures match DecodeControl(config, old(buf.Rest()))
        case Done((c, rest)) => r == Done(()) && Val() == c && buf.Rest() == rest
        case AssertionFailed => r == AssertionFailed
        case OutOfBounds => r == OutOfBounds
    {
      hide Has, CountsFit, ByteValue, JoinMask, DecodeValue;
      if buf.offset == buf.data.Length { return OutOfBounds; }
      moduleId, inputIds, target, values := 0, 0, Addressed(config, ByteValue(buf.data[buf.offset])), [];
      assert target.On? ==> target.m in config.modules;
      var rr, h := buf.Read(3);
      if rr == Buffers.READ { moduleId, inputIds := ByteValue(h[0]), JoinMask(h[1], h[2]); }
      if rr != Buffers.READ || Has(inputIds, 15) { NoBits(15); return Done(()); }
      r := DecodeValuesFrom(buf);
    }

    method DecodeValuesFrom(buf: Buffers.DecodeBuffer) returns (r: Outcome<()>)
      requires buf.Valid() && (target.On? ==> CountsFit(target.m)) && values == []
      modifies this`values, buf`offset
      ensures buf.Valid()
      ensures match DecodeValues(target, inputIds, 0, old(buf.Rest()))
        case Done((ps, rest)) => r == Done(()) && values == ps && buf.Rest() == rest
        case AssertionFailed => r == AssertionFailed
        case OutOfBounds => r == OutOfBounds
    {
      hide Has, DecodeValue, Prepend, DecodeValues;
      PrependNothing(DecodeValues(target, inputIds, 0, buf.Rest()));
      ghost var all := DecodeValues(target, inputIds, 0, buf.Rest());
      for i := 0 to 16
        invariant buf.Valid() && all == Prepend(values, DecodeValues(target, inputIds, i, buf.Rest()))
      {
        ValuesStep(target, inputIds, i, buf.Rest());
        PrependFailure(values);
        if Has(inputIds, i) {
          if !target.On? { return OutOfBounds; }
          var m := target.m;
          if m.numInputs <= i { return AssertionFailed; }
          if |m.inputs| <= i { return OutOfBounds; }
          var v := DecodeValueFrom(buf, m.inputs[i].decl);
          var p := Pair(m.inputs[i], v);
          PrependStep(values, p, DecodeValues(target, inputIds, i + 1, buf.Rest()));
          values := values + [p];
        }
      }
      PrependEnd(values, target, inputIds, buf.Rest());
      r := Done(());
    }

    method DecodeValueFrom(buf: Buffers.DecodeBuffer, decl: Declarations.Decl) returns (v: Value)
      requires buf.Valid() && CountFits(decl)
      modifies buf`offset
      ensures buf.Valid() && (v, buf.Rest()) == DecodeValue(decl, old(buf.Rest()))
    {
      hide Elements, ArraySize;
      var w := Declarations.Width(decl);
      OneElement(w);
      var count := 1;
      if decl.isArray {
        var rc, low := buf.Read(w);
        if rc == Buffers.READ && w > 0 { count := Elements(low); }
      }
      var size := ArraySize(count, w);
      v := Value(decl, Fill(size));
      if buf.data.Length - buf.offset >= w {
        var r, bytes := buf.Read(size);
        if r == Buffers.READ { v := Value(decl, bytes); }
      }
    }
  }
}
