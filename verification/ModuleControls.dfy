/** Outcomes of code that can stop on a failed assertion or step outside an array. */
module Outcomes {
  datatype Outcome<+T> = Done(value: T) | AssertionFailed | OutOfBounds
}

/** Module-control messages as values (src/comms/ModuleControl.cc): a bitmask of inputs and a list of
    values kept sorted by input id, decoded relative to a configuration. */
module ModuleControls {
  import opened Bytes
  import opened InputMasks
  import opened NamedRecords
  import opened Configurations
  import Declarations

  /** `DataValue<>`: a type and as many bytes as its width. */
  datatype Value = Value(decl: Decl, bytes: seq<byte>)

  datatype Pair = Pair(input: Input, value: Value)

  /** What a control points at: nothing, a module, or the place of a module that is not there. */
  datatype Target = NoModule | On(m: Module) | Beyond(index: nat)

  datatype Control = Control(moduleId: nat, inputIds: bv16, target: Target, values: seq<Pair>)

  function New(m: Module): Control { Control(m.id, 0, On(m), []) }

  /** Bit 15 marks a control that resets its inputs to neutral instead of carrying values. */
  predicate IsClear(c: Control) { Has(c.inputIds, 15) }

  function NumValues(c: Control): nat { if IsClear(c) then 0 else Count(c.inputIds, 15) }

  // ----- The sorted value list -----

  predicate Sorted(values: seq<Pair>) {
    forall i, j :: 0 <= i < j < |values| ==> values[i].input.id < values[j].input.id
  }

  predicate HasId(values: seq<Pair>, id: nat) {
    exists k :: 0 <= k < |values| && values[k].input.id == id
  }

  /** Index of the first pair for an input, or the length of the list. */
  function Find(values: seq<Pair>, id: nat): (k: nat)
    ensures k <= |values|
    ensures k < |values| ==> values[k].input.id == id
    ensures forall j :: 0 <= j < k ==> values[j].input.id != id
  {
    if values == [] || values[0].input.id == id then 0 else 1 + Find(values[1..], id)
  }

  /** Appending a pair and sorting by input id. */
  function InsertSorted(values: seq<Pair>, p: Pair): (r: seq<Pair>)
    ensures |r| == |values| + 1
  {
    if values == [] || p.input.id < values[0].input.id then [p] + values
    else [values[0]] + InsertSorted(values[1..], p)
  }

  lemma {:induction false} InsertMembers(values: seq<Pair>, p: Pair, x: Pair)
    ensures x in InsertSorted(values, p) <==> x in values || x == p
  {
    if values == [] || p.input.id < values[0].input.id {
    } else {
      InsertMembers(values[1..], p, x);
      assert x in values <==> x == values[0] || x in values[1..];
    }
  }

  lemma HasIdOfTail(values: seq<Pair>, id: nat)
    requires values != []
    ensures HasId(values, id) <==> values[0].input.id == id || HasId(values[1..], id)
  {
    if HasId(values[1..], id) {
      var k :| 0 <= k < |values[1..]| && values[1..][k].input.id == id;
      assert values[k + 1].input.id == id;
    }
    if HasId(values, id) {
      var k :| 0 <= k < |values| && values[k].input.id == id;
      assert k == 0 || values[1..][k - 1].input.id == id;
    }
  }

  lemma {:induction false} InsertKeepsSorted(values: seq<Pair>, p: Pair)
    requires Sorted(values) && !HasId(values, p.input.id)
    ensures Sorted(InsertSorted(values, p))
  {
    if values == [] || p.input.id < values[0].input.id {
    } else {
      var t := InsertSorted(values[1..], p);
      HasIdOfTail(values, p.input.id);
      InsertKeepsSorted(values[1..], p);
      forall j | 0 <= j < |t| ensures values[0].input.id < t[j].input.id {
        InsertMembers(values[1..], p, t[j]);
        if t[j] in values[1..] {
          var k :| 0 <= k < |values[1..]| && values[1..][k] == t[j];
          assert values[k + 1] == t[j];
        }
      }
    }
  }

  lemma FirstIsMember(values: seq<Pair>)
    requires values != []
    ensures exists x :: x in values
  {
    assert values[0] in values;
  }

  /** A strictly sorted list is determined by its members ... */
  lemma {:induction false} SortedUnique(xs: seq<Pair>, ys: seq<Pair>)
    requires Sorted(xs) && Sorted(ys) && forall x :: x in xs <==> x in ys
    ensures xs == ys
    decreases |xs|
  {
    if xs == [] {
      if ys != [] { FirstIsMember(ys); }
    } else {
      assert xs[0] in ys;
      assert ys[0] in xs;
      var k :| 0 <= k < |ys| && ys[k] == xs[0];
      var j :| 0 <= j < |xs| && xs[j] == ys[0];
      assert k == 0 && xs[0] == ys[0];
      forall x ensures x in xs[1..] <==> x in ys[1..] {
        if x in xs[1..] {
          var a :| 0 <= a < |xs[1..]| && xs[1..][a] == x;
          assert xs[a + 1] == x && x in ys;
          var b :| 0 <= b < |ys| && ys[b] == x;
          assert b != 0;
          assert ys[1..][b - 1] == x;
        }
        if x in ys[1..] {
          var a :| 0 <= a < |ys[1..]| && ys[1..][a] == x;
          assert ys[a + 1] == x && x in xs;
          var b :| 0 <= b < |xs| && xs[b] == x;
          assert b != 0;
          assert xs[1..][b - 1] == x;
        }
      }
      SortedUnique(xs[1..], ys[1..]);
    }
  }

  /** ... so every sorted permutation of the list with a pair appended is the insertion. */
  lemma SortingAppendedIsInserting(values: seq<Pair>, p: Pair, result: seq<Pair>)
    requires Sorted(values) && !HasId(values, p.input.id)
    requires Sorted(result) && multiset(result) == multiset(values + [p])
    ensures result == InsertSorted(values, p)
  {
    InsertKeepsSorted(values, p);
    forall x ensures x in result <==> x in InsertSorted(values, p) {
      InsertMembers(values, p, x);
      assert x in result <==> x in multiset(result);
      assert x in multiset(values + [p]) <==> x in values + [p];
    }
    SortedUnique(result, InsertSorted(values, p));
  }

  // ----- Setting values -----

  function Blank(input: Input): Pair { Pair(input, Value(input.decl, Fill(Declarations.Width(input.decl)))) }

  /** `value_for`: find the pair of an input, adding a zero value first when its bit is not set. */
  function Touch(c: Control, input: Input): Control {
    if Has(c.inputIds, input.id) then c
    else c.(inputIds := With(c.inputIds, input.id), values := InsertSorted(c.values, Blank(input)))
  }

  function Write(p: Pair, bytes: seq<byte>): Pair {
    p.(value := p.value.(bytes := Declarations.Overlay(p.value.bytes, bytes)))
  }

  /** Overwriting the value of an input, when there is one; a value narrower than the input's type
      overwrites the low bytes only. */
  function Written(t: Control, id: nat, bytes: seq<byte>): Control {
    var k := Find(t.values, id);
    if k < |t.values| then t.(values := t.values[k := Write(t.values[k], bytes)]) else t
  }

  /** `set`, for a value no wider than the input's type. */
  function Set(c: Control, input: Input, bytes: seq<byte>): Control { Written(Touch(c, input), input.id, bytes) }

  /** What can be controlled: at most 15 inputs, ids dense, no arrays. */
  predicate Controllable(m: Module) {
    && |m.inputs| == m.numInputs <= 15
    && forall i :: 0 <= i < |m.inputs| ==> m.inputs[i].id == i && !m.inputs[i].decl.isArray
  }

  predicate GoodPair(p: Pair, m: Module) {
    && p.input.id < |m.inputs| && p.input == m.inputs[p.input.id]
    && p.value.decl == p.input.decl && |p.value.bytes| == Declarations.Width(p.input.decl)
  }

  /** The invariant tying bitmask, value list and module together. */
  ghost predicate Valid(c: Control, m: Module) {
    && c.target == On(m) && c.moduleId == m.id
    && Sorted(c.values)
    && (forall p :: p in c.values ==> GoodPair(p, m))
    && (forall j :: 0 <= j < 15 && HasId(c.values, j) ==> Has(c.inputIds, j))
    && (!IsClear(c) ==> forall j :: 0 <= j < 15 && Has(c.inputIds, j) ==> HasId(c.values, j))
  }

  /** What a control says: which inputs get which bytes. */
  ghost function ValueMap(values: seq<Pair>): map<nat, seq<byte>> {
    map j: nat | j < 16 && HasId(values, j) :: values[Find(values, j)].value.bytes
  }

  lemma HasIdOfMember(values: seq<Pair>, p: Pair)
    requires p in values
    ensures HasId(values, p.input.id)
  {
    var k :| 0 <= k < |values| && values[k] == p;
  }

  lemma FoundIsMember(values: seq<Pair>, j: nat)
    requires HasId(values, j)
    ensures Find(values, j) < |values|
  {
    var k :| 0 <= k < |values| && values[k].input.id == j;
  }

  lemma MapOfMember(values: seq<Pair>, p: Pair)
    requires Sorted(values) && p in values && p.input.id < 16
    ensures p.input.id in ValueMap(values) && ValueMap(values)[p.input.id] == p.value.bytes
  {
    HasIdOfMember(values, p);
    FoundIsMember(values, p.input.id);
    var k :| 0 <= k < |values| && values[k] == p;
    assert Find(values, p.input.id) == k;
  }

  lemma NewIsValid(m: Module)
    ensures Valid(New(m), m) && !IsClear(New(m)) && ValueMap(New(m).values) == map[]
  {
    forall j ensures !Has(0, j) { NoBits(j); }
  }

  lemma TouchKeepsValid(c: Control, m: Module, i: nat)
    requires Valid(c, m) && Controllable(m) && i < |m.inputs|
    ensures var t := Touch(c, m.inputs[i]);
      && Valid(t, m) && IsClear(t) == IsClear(c) && Has(t.inputIds, i)
      && (!Has(c.inputIds, i) ==> Blank(m.inputs[i]) in t.values)
      && (forall x :: x in c.values ==> x in t.values)
      && (forall x :: x in t.values && x.input.id != i ==> x in c.values)
  {
    hide Has, With, InsertSorted, Find;
    var input := m.inputs[i];
    var t := Touch(c, input);
    if !Has(c.inputIds, i) {
      assert !HasId(c.values, i);
      InsertKeepsSorted(c.values, Blank(input));
      forall x ensures x in t.values <==> x in c.values || x == Blank(input) { InsertMembers(c.values, Blank(input), x); }
      forall j: nat | j < 16 ensures Has(t.inputIds, j) <==> Has(c.inputIds, j) || j == i { WithBit(c.inputIds, i, j); }
      forall j | 0 <= j < 15 ensures HasId(t.values, j) <==> HasId(c.values, j) || j == i {
        if HasId(c.values, j) {
          var k :| 0 <= k < |c.values| && c.values[k].input.id == j;
          HasIdOfMember(t.values, c.values[k]);
        }
        HasIdOfMember(t.values, Blank(input));
        if HasId(t.values, j) && j != i {
          var k :| 0 <= k < |t.values| && t.values[k].input.id == j;
          HasIdOfMember(c.values, t.values[k]);
        }
      }
    }
  }

  lemma WriteKeepsValid(t: Control, m: Module, k: nat, bytes: seq<byte>)
    requires Valid(t, m) && k < |t.values|
    ensures var u := t.(values := t.values[k := Write(t.values[k], bytes)]);
      && Valid(u, m)
      && (forall x :: x in t.values && x != t.values[k] ==> x in u.values)
      && (forall x :: x in u.values && x.input.id != t.values[k].input.id ==> x in t.values)
  {
    hide Has, Write, Declarations.Overlay;
    var u := t.values[k := Write(t.values[k], bytes)];
    assert Write(t.values[k], bytes).input == t.values[k].input by { WriteParts(t.values[k], bytes); }
    forall p | p in u ensures GoodPair(p, m) {
      WriteParts(t.values[k], bytes);
      assert p == u[k] || p in t.values;
      assert t.values[k] in t.values;
    }
    forall x | x in t.values && x != t.values[k] ensures x in u {
      var a :| 0 <= a < |t.values| && t.values[a] == x;
      assert u[a] == x;
    }
    forall j | 0 <= j < 15 ensures HasId(u, j) <==> HasId(t.values, j) {
      if HasId(u, j) {
        var a :| 0 <= a < |u| && u[a].input.id == j;
        assert t.values[a].input.id == j;
      }
      if HasId(t.values, j) {
        var a :| 0 <= a < |t.values| && t.values[a].input.id == j;
        assert u[a].input.id == j;
      }
    }
  }

  lemma WriteParts(p: Pair, bytes: seq<byte>)
    ensures Write(p, bytes).input == p.input && Write(p, bytes).value.decl == p.value.decl
    ensures |Write(p, bytes).value.bytes| == |p.value.bytes|
    ensures Write(p, bytes).value.bytes == Declarations.Overlay(p.value.bytes, bytes)
  {}

  /** The value an input has before a write: what was set last, or zeros. */
  ghost function Before(values: seq<Pair>, m: Module, i: nat): seq<byte>
    requires i < |m.inputs|
  {
    if i in ValueMap(values) then ValueMap(values)[i] else Fill(Declarations.Width(m.inputs[i].decl))
  }

  /** Lists that agree away from one input have maps that agree away from it. */
  lemma MapUpdate(vs: seq<Pair>, us: seq<Pair>, p: Pair)
    requires Sorted(vs) && Sorted(us) && p in us && p.input.id < 16
    requires forall x: Pair :: x.input.id != p.input.id ==> (x in us <==> x in vs)
    ensures ValueMap(us) == ValueMap(vs)[p.input.id := p.value.bytes]
  {
    hide ValueMap, Sorted, HasId;
    MapOfMember(us, p);
    forall j: nat | j < 16 && j != p.input.id
      ensures j in ValueMap(us) <==> j in ValueMap(vs)
      ensures j in ValueMap(vs) ==> ValueMap(us)[j] == ValueMap(vs)[j]
    {
      MapDomain(us, j);
      MapDomain(vs, j);
      if HasId(vs, j) { MapFollows(vs, us, j); }
      if HasId(us, j) { MapFollows(us, vs, j); }
    }
    forall j | 16 <= j ensures j !in ValueMap(us) && j !in ValueMap(vs) { MapDomain(us, j); MapDomain(vs, j); }
  }

  lemma MapDomain(vs: seq<Pair>, j: nat)
    ensures j in ValueMap(vs) <==> j < 16 && HasId(vs, j)
  {}

  lemma MapFollows(vs: seq<Pair>, us: seq<Pair>, j: nat)
    requires Sorted(vs) && Sorted(us) && j < 16 && HasId(vs, j)
    requires forall x: Pair :: x.input.id == j && x in vs ==> x in us
    ensures HasId(us, j) && ValueMap(us)[j] == ValueMap(vs)[j]
  {
    hide ValueMap, Sorted;
    FoundIsMember(vs, j);
    var x := vs[Find(vs, j)];
    assert x in vs && x in us;
    HasIdOfMember(us, x);
    MapOfMember(us, x);
    MapOfMember(vs, x);
  }

  /** The pair `set` writes to holds, before the write, what the control meant for that input. */
  lemma TouchedValue(c: Control, m: Module, i: nat)
    requires Valid(c, m) && Controllable(m) && i < |m.inputs| && !IsClear(c)
    ensures var t := Touch(c, m.inputs[i]); var k := Find(t.values, i);
      && Valid(t, m) && !IsClear(t) && k < |t.values|
      && t.values[k].value.bytes == Before(c.values, m, i)
      && forall x: Pair :: x.input.id != i ==> (x in t.values <==> x in c.values)
  {
    hide Has, With, InsertSorted, Touch, Valid;
    var t := Touch(c, m.inputs[i]);
    TouchKeepsValid(c, m, i);
    ValidParts(c, m); ValidParts(t, m);
    BitHasPair(t, m, i);
    FoundIsMember(t.values, i);
    var p := t.values[Find(t.values, i)];
    assert p in t.values;
    MapOfMember(t.values, p);
    if Has(c.inputIds, i) {
      BitHasPair(c, m, i);
      TouchNothing(c, m.inputs[i]);
    } else {
      MapOfMember(t.values, Blank(m.inputs[i]));
      PairHasBit(c, m, i);
    }
  }

  /** `set` keeps the invariant and changes the meaning at one input only. */
  lemma SetKeepsValid(c: Control, m: Module, i: nat, bytes: seq<byte>)
    requires Valid(c, m) && Controllable(m) && i < |m.inputs| && !IsClear(c)
    ensures var u := Set(c, m.inputs[i], bytes);
      && Valid(u, m) && !IsClear(u)
      && ValueMap(u.values) == ValueMap(c.values)[i := Declarations.Overlay(Before(c.values, m, i), bytes)]
  {
    hide Has, With, InsertSorted, Touch, Write, Declarations.Overlay, Valid, Sorted, ValueMap, Before;
    var t := Touch(c, m.inputs[i]);
    TouchedValue(c, m, i);
    var k := Find(t.values, i);
    WriteKeepsValid(t, m, k, bytes);
    WriteParts(t.values[k], bytes);
    var u := Set(c, m.inputs[i], bytes);
    assert u == t.(values := t.values[k := Write(t.values[k], bytes)]);
    ValidParts(c, m); ValidParts(u, m);
    assert u.values[k] in u.values;
    MapUpdate(c.values, u.values, u.values[k]);
  }

  lemma TouchNothing(c: Control, input: Input)
    requires Has(c.inputIds, input.id)
    ensures Touch(c, input) == c
  {}

  lemma ValidParts(c: Control, m: Module)
    requires Valid(c, m)
    ensures Sorted(c.values) && forall p :: p in c.values ==> GoodPair(p, m)
  {}

  lemma BitHasPair(c: Control, m: Module, i: nat)
    requires Valid(c, m) && i < 15 && Has(c.inputIds, i) && !IsClear(c)
    ensures HasId(c.values, i)
  {}

  lemma PairHasBit(c: Control, m: Module, i: nat)
    requires Valid(c, m) && i < 15 && !Has(c.inputIds, i)
    ensures !HasId(c.values, i)
  {}

  // ----- Histories -----

  datatype Op = Op(input: nat, bytes: seq<byte>)

  /** Inputs of the module, and values no wider than their types. */
  predicate InRange(ops: seq<Op>, m: Module) {
    forall k :: 0 <= k < |ops| ==>
      ops[k].input < |m.inputs| && |ops[k].bytes| <= Declarations.Width(m.inputs[ops[k].input].decl)
  }

  /** A control built by a history of `set`s against a module. */
  function Build(c: Control, m: Module, ops: seq<Op>): Control
    requires InRange(ops, m)
    decreases ops
  {
    if ops == [] then c else Build(Set(c, m.inputs[ops[0].input], ops[0].bytes), m, ops[1..])
  }

  /** The same history on the input-to-bytes map. */
  ghost function Meaning(before: map<nat, seq<byte>>, m: Module, ops: seq<Op>): map<nat, seq<byte>>
    requires InRange(ops, m)
    decreases ops
  {
    if ops == [] then before
    else
      var i := ops[0].input;
      var was := if i in before then before[i] else Fill(Declarations.Width(m.inputs[i].decl));
      Meaning(before[i := Declarations.Overlay(was, ops[0].bytes)], m, ops[1..])
  }

  /** After any history the invariant holds and the control means what the history says. */
  lemma {:induction false} HistoryKeepsValid(c: Control, m: Module, ops: seq<Op>)
    requires Valid(c, m) && Controllable(m) && !IsClear(c) && InRange(ops, m)
    ensures var u := Build(c, m, ops);
      Valid(u, m) && !IsClear(u) && ValueMap(u.values) == Meaning(ValueMap(c.values), m, ops)
    decreases ops
  {
    hide Set, Valid, Controllable, ValueMap, Declarations.Overlay, IsClear;
    if ops != [] {
      SetKeepsValid(c, m, ops[0].input, ops[0].bytes);
      HistoryKeepsValid(Set(c, m.inputs[ops[0].input], ops[0].bytes), m, ops[1..]);
    }
  }

  /** Two valid controls of one module that say the same are the same, byte for byte. */
  lemma MeaningDetermines(a: Control, b: Control, m: Module)
    requires Valid(a, m) && Valid(b, m) && Controllable(m) && !IsClear(a) && !IsClear(b)
    requires ValueMap(a.values) == ValueMap(b.values)
    ensures a == b
  {
    MembersFollowMap(a, b, m);
    MembersFollowMap(b, a, m);
    SortedUnique(a.values, b.values);
    forall j | 0 <= j < 16 ensures Has(a.inputIds, j) == Has(b.inputIds, j) {}
    SameBits(a.inputIds, b.inputIds);
  }

  lemma MembersFollowMap(a: Control, b: Control, m: Module)
    requires Valid(a, m) && Valid(b, m) && Controllable(m) && ValueMap(a.values) == ValueMap(b.values)
    ensures forall x :: x in a.values ==> x in b.values
  {
    hide Has;
    forall x | x in a.values ensures x in b.values {
      MapOfMember(a.values, x);
      var j := x.input.id;
      assert HasId(b.values, j);
      FoundIsMember(b.values, j);
      var y := b.values[Find(b.values, j)];
      assert y in b.values && GoodPair(x, m) && GoodPair(y, m);
      assert x == y;
    }
  }

  /** The value list is as long as the number of value bits. */
  lemma {:induction false} CountOfSorted(values: seq<Pair>, mask: bv16, n: nat)
    requires Sorted(values) && (values != [] ==> values[|values| - 1].input.id < n)
    requires forall j :: 0 <= j < n ==> (Has(mask, j) <==> HasId(values, j))
    ensures |values| == Count(mask, n)
    decreases n
  {
    hide Has;
    if n != 0 {
      var last := |values| - 1;
      if Has(mask, n - 1) {
        var k :| 0 <= k < |values| && values[k].input.id == n - 1;
        assert k == last;
        var front := values[..last];
        forall j | 0 <= j < n - 1 ensures Has(mask, j) <==> HasId(front, j) {
          if HasId(values, j) {
            var a :| 0 <= a < |values| && values[a].input.id == j;
            assert front[a].input.id == j;
          }
          if HasId(front, j) {
            var a :| 0 <= a < |front| && front[a].input.id == j;
            assert values[a].input.id == j;
          }
        }
        CountOfSorted(front, mask, n - 1);
      } else {
        assert values != [] ==> values[last].input.id != n - 1;
        CountOfSorted(values, mask, n - 1);
      }
    }
  }

  lemma NumValuesIsLength(c: Control, m: Module)
    requires Valid(c, m) && Controllable(m) && !IsClear(c)
    ensures NumValues(c) == |c.values|
  {
    hide Has;
    if c.values != [] { assert c.values[|c.values| - 1] in c.values; }
    CountOfSorted(c.values, c.inputIds, 15);
  }
}
