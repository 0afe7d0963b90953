/** The growable array behind the codec (include/crisp/util/SArray.hh), with its growth rule. */
module SArrays {

  /** Twice what is missing is added, except that an array without capacity gets just what is asked for. */
  function Grown(capacity: nat, required: nat): (r: nat)
    ensures r >= required && r >= capacity
  {
    if capacity >= required then capacity
    else if capacity > 0 then capacity + 2 * (required - capacity)
    else required
  }

  /** A request beyond the capacity makes room for itself and for as large a step again, exactly: requests
      that rise in equal steps reallocate every other time. */
  lemma EqualSteps(capacity: nat, step: nat)
    requires 0 < capacity && 0 < step
    ensures var grown := Grown(capacity, capacity + step);
      && Grown(grown, capacity + 2 * step) == grown
      && Grown(grown, capacity + 2 * step + 1) > grown
      && Grown(0, step) == step
  {}

  /** Size, capacity, and the number of elements that reallocations have carried over so far. */
  datatype Shape = Shape(size: nat, capacity: nat, carried: nat)

  function Ensured(s: Shape, required: nat): Shape {
    s.(capacity := Grown(s.capacity, required), carried := s.carried + if s.capacity < required then s.size else 0)
  }

  function Pushed(s: Shape): Shape { Ensured(s, s.size + 1).(size := s.size + 1) }

  function PushedTimes(s: Shape, n: nat): Shape {
    if n == 0 then s else Pushed(PushedTimes(s, n - 1))
  }

  function Square(k: nat): nat { k * k }

  lemma NextSquare(k: nat)
    ensures Square(k + 1) == Square(k) + 2 * k + 1
  {}

  /** Pushing n elements one at a time onto an array without capacity: capacities run through the odd
      numbers, never more than one ahead of the size, and the square of n / 2 elements are carried. */
  lemma {:induction false} PushingFromNothing(n: nat)
    ensures PushedTimes(Shape(0, 0, 0), n) == Shape(n, if n % 2 == 0 && n > 0 then n + 1 else n, Square(n / 2))
  {
    if n != 0 {
      PushingFromNothing(n - 1);
      if n % 2 == 0 { NextSquare(n / 2 - 1); }
      hide Square;
      assert n % 2 == 0 ==> (n - 1) / 2 == n / 2 - 1;
    }
  }

  /** From any starting capacity, pushing keeps the capacity within the larger of that and one more than the size. */
  lemma {:induction false} CapacityStaysClose(s: Shape, n: nat)
    requires s.size <= s.capacity
    ensures var r := PushedTimes(s, n);
      r.size == s.size + n && r.size <= r.capacity && (r.capacity == s.capacity || r.capacity <= r.size + 1)
  {
    if n != 0 { CapacityStaysClose(s, n - 1); }
  }

  class SArray<T> {
    const zero: T
    var data: array<T>
    var size: nat
    ghost var carried: nat

    ghost predicate Valid() reads this { size <= data.Length }

    ghost function Contents(): (s: seq<T>)
      requires Valid()
      reads this, data
      ensures |s| == size
    {
      data[..size]
    }

    ghost function Val(): Shape reads this { Shape(size, data.Length, carried) }

    constructor (zero: T, capacity: nat)
      ensures Valid() && fresh(data) && this.zero == zero && Contents() == [] && Val() == Shape(0, capacity, 0)
    {
      this.zero := zero;
      data := new T[capacity](_ => zero);
      size := 0;
      carried := 0;
    }

    method EnsureCapacity(required: nat)
      requires Valid()
      modifies this`data, this`carried
      ensures Valid() && (data == old(data) || fresh(data))
      ensures Contents() == old(Contents()) && Val() == Ensured(old(Val()), required)
    {
      if data.Length < required {
        var oldCapacity := data.Length;
        var capacity := if oldCapacity > 0 then oldCapacity + 2 * (required - oldCapacity) else required;
        var kept := data[..];
        data := new T[capacity](i requires 0 <= i => if i < |kept| then kept[i] else zero);
        carried := carried + size;
      }
    }

    method Push(v: T)
      requires Valid()
      modifies this, data
      ensures Valid() && (data == old(data) || fresh(data))
      ensures Contents() == old(Contents()) + [v] && Val() == Pushed(old(Val()))
    {
      EnsureCapacity(size + 1);
      data[size] := v;
      size := size + 1;
    }

    method Clear()
      requires Valid()
      modifies this`size
      ensures Valid() && Contents() == [] && Val() == old(Val()).(size := 0)
    {
      size := 0;
    }

    constructor Copy(s: SArray<T>)
      requires s.Valid()
      ensures Valid() && fresh(data) && Contents() == s.Contents() && data.Length == s.size && carried == 0
    {
      zero := s.zero;
      data := new T[s.size](_ => s.zero);
      size := 0;
      carried := 0;
      new;
      var i := 0;
      while i < s.size
        invariant i <= s.size && Valid() && Contents() == s.Contents()[..i] && fresh(data)
        invariant data.Length == s.size && carried == 0
      {
        Push(s.data[i]);
        i := i + 1;
      }
    }

    /** Copy assignment clears first: assigning an array to itself loses its contents, and that is the
        only way to lose them. */
    method Assign(s: SArray<T>)
      requires Valid() && s.Valid() && (s != this ==> s.data != data)
      modifies this, data
      ensures Valid() && (data == old(data) || fresh(data))
      ensures Contents() == if s == this then [] else old(s.Contents())
      ensures Contents() == old(s.Contents()) <==> s != this || old(size) == 0
      ensures data.Length == Grown(old(data.Length), old(s.data.Length))
    {
      Clear();
      EnsureCapacity(s.data.Length);
      var i := 0;
      while i < s.size
        invariant Valid() && (data == old(data) || fresh(data)) && (s != this ==> s.data != data)
        invariant s == this ==> size == 0
        invariant s != this ==> i <= s.size && Contents() == old(s.Contents())[..i]
        invariant data.Length == Grown(old(data.Length), old(s.data.Length))
      {
        Push(s.data[i]);
        i := i + 1;
      }
    }
  }

  /** Building an array element by element, as the decoders do. */
  method PushAll<T>(a: SArray<T>, xs: seq<T>)
    requires a.Valid()
    modifies a, a.data
    ensures a.Valid() && a.Contents() == old(a.Contents()) + xs
    ensures a.Val() == PushedTimes(old(a.Val()), |xs|)
    ensures old(a.Val()) == Shape(0, 0, 0) ==> a.data.Length <= |xs| + 1 && a.carried == Square(|xs| / 2)
  {
    var i := 0;
    while i < |xs|
      invariant i <= |xs| && a.Valid() && (a.data == old(a.data) || fresh(a.data))
      invariant a.Contents() == old(a.Contents()) + xs[..i] && a.Val() == PushedTimes(old(a.Val()), i)
    {
      a.Push(xs[i]);
      assert xs[..i + 1] == xs[..i] + [xs[i]];
      i := i + 1;
    }
    assert xs[..i] == xs;
    PushingFromNothing(|xs|);
  }
}
