/** The 16-bit input bitmask of a module-control message. */
module InputMasks {
  import opened Bytes

  /** `1 << i` in a 16-bit field. */
  function Mask(i: nat): bv16 {
    if i == 0 then 0x1 else if i == 1 then 0x2 else if i == 2 then 0x4 else if i == 3 then 0x8
    else if i == 4 then 0x10 else if i == 5 then 0x20 else if i == 6 then 0x40 else if i == 7 then 0x80
    else if i == 8 then 0x100 else if i == 9 then 0x200 else if i == 10 then 0x400 else if i == 11 then 0x800
    else if i == 12 then 0x1000 else if i == 13 then 0x2000 else if i == 14 then 0x4000 else if i == 15 then 0x8000
    else 0
  }

  function And(a: bv16, b: bv16): bv16 { a & b }

  predicate Meets(a: bv16, b: bv16) { And(a, b) != 0 }

  function Or(a: bv16, b: bv16): bv16 { a | b }

  predicate Has(mask: bv16, i: nat) { Meets(mask, Mask(i)) }

  function With(mask: bv16, i: nat): bv16 { Or(mask, Mask(i)) }

  /** The first input has the lowest bit and each the one above that of the input before; there are sixteen. */
  lemma MaskIsBit(i: nat)
    ensures Mask(0) == 1 && (0 < i < 16 ==> Mask(i) == Mask(i - 1) << 1) && (i >= 16 ==> Mask(i) == 0)
  {}

  lemma NoBits(i: nat)
    ensures !Has(0, i)
  {}

  lemma MasksApart(i: nat, j: nat)
    requires i < 16 && j < 16
    ensures Meets(Mask(i), Mask(j)) <==> i == j
  {}

  lemma OrMeets(m: bv16, p: bv16, q: bv16)
    ensures Meets(Or(m, p), q) <==> Meets(m, q) || Meets(p, q)
  {
    hide And, Or;
    AndOverOr(m, p, q);
    OrZero(And(m, q), And(p, q));
  }

  lemma AndOverOr(m: bv16, p: bv16, q: bv16) ensures And(Or(m, p), q) == Or(And(m, q), And(p, q)) {}

  lemma OrZero(x: bv16, y: bv16) ensures Or(x, y) == 0 <==> x == 0 && y == 0 {}

  lemma WithBit(mask: bv16, i: nat, j: nat)
    requires i < 16 && j < 16
    ensures Has(With(mask, i), j) <==> Has(mask, j) || i == j
  {
    hide Mask, Meets, Or;
    OrMeets(mask, Mask(i), Mask(j));
    MasksApart(i, j);
  }

  lemma SixteenBits(a: bv16, b: bv16)
    requires Meets(a, 0x1) == Meets(b, 0x1) && Meets(a, 0x2) == Meets(b, 0x2)
    requires Meets(a, 0x4) == Meets(b, 0x4) && Meets(a, 0x8) == Meets(b, 0x8)
    requires Meets(a, 0x10) == Meets(b, 0x10) && Meets(a, 0x20) == Meets(b, 0x20)
    requires Meets(a, 0x40) == Meets(b, 0x40) && Meets(a, 0x80) == Meets(b, 0x80)
    requires Meets(a, 0x100) == Meets(b, 0x100) && Meets(a, 0x200) == Meets(b, 0x200)
    requires Meets(a, 0x400) == Meets(b, 0x400) && Meets(a, 0x800) == Meets(b, 0x800)
    requires Meets(a, 0x1000) == Meets(b, 0x1000) && Meets(a, 0x2000) == Meets(b, 0x2000)
    requires Meets(a, 0x4000) == Meets(b, 0x4000) && Meets(a, 0x8000) == Meets(b, 0x8000)
    ensures a == b
  {}

  /** A mask is its sixteen bits. */
  lemma SameBits(a: bv16, b: bv16)
    requires forall i :: 0 <= i < 16 ==> Has(a, i) == Has(b, i)
    ensures a == b
  {
    hide Meets;
    assert Has(a, 0) == Has(b, 0) && Mask(0) == 0x1;
    assert Has(a, 1) == Has(b, 1) && Mask(1) == 0x2;
    assert Has(a, 2) == Has(b, 2) && Mask(2) == 0x4;
    assert Has(a, 3) == Has(b, 3) && Mask(3) == 0x8;
    assert Has(a, 4) == Has(b, 4) && Mask(4) == 0x10;
    assert Has(a, 5) == Has(b, 5) && Mask(5) == 0x20;
    assert Has(a, 6) == Has(b, 6) && Mask(6) == 0x40;
    assert Has(a, 7) == Has(b, 7) && Mask(7) == 0x80;
    assert Has(a, 8) == Has(b, 8) && Mask(8) == 0x100;
    assert Has(a, 9) == Has(b, 9) && Mask(9) == 0x200;
    assert Has(a, 10) == Has(b, 10) && Mask(10) == 0x400;
    assert Has(a, 11) == Has(b, 11) && Mask(11) == 0x800;
    assert Has(a, 12) == Has(b, 12) && Mask(12) == 0x1000;
    assert Has(a, 13) == Has(b, 13) && Mask(13) == 0x2000;
    assert Has(a, 14) == Has(b, 14) && Mask(14) == 0x4000;
    assert Has(a, 15) == Has(b, 15) && Mask(15) == 0x8000;
    SixteenBits(a, b);
  }

  // ----- On the wire: two bytes, least significant first -----

  function MaskLow(m: bv16): byte { (m & 0xff) as bv8 }

  function MaskHigh(m: bv16): byte { (m >> 8) as bv8 }

  function JoinMask(low: byte, high: byte): bv16 { (low as bv16) | ((high as bv16) << 8) }

  lemma MaskRoundTrip(m: bv16)
    ensures JoinMask(MaskLow(m), MaskHigh(m)) == m
  {}

  /** The first byte has inputs 0 to 7, the second 8 to 15, each from its lowest bit. */
  lemma MaskBytes(m: bv16, i: nat)
    requires i < 8
    ensures Has(m, i) <==> Has(MaskLow(m) as bv16, i)
    ensures Has(m, i + 8) <==> Has(MaskHigh(m) as bv16, i)
  {
    LowMasks(i);
    LowBits(m, Mask(i));
    HighBits(m, Mask(i), Mask(i + 8));
    hide Mask, Meets, MaskLow, MaskHigh;
  }

  lemma LowMasks(i: nat)
    requires i < 8
    ensures Mask(i) <= 0xff && Mask(i + 8) == Mask(i) << 8
  {}

  lemma LowBits(m: bv16, p: bv16)
    requires p <= 0xff
    ensures Meets(m, p) <==> Meets(MaskLow(m) as bv16, p)
  {}

  lemma HighBits(m: bv16, p: bv16, q: bv16)
    requires p <= 0xff && q == p << 8
    ensures Meets(m, q) <==> Meets(MaskHigh(m) as bv16, p)
  {}

  // ----- Counting -----

  /** How many of the first n bits are set. */
  function Count(mask: bv16, n: nat): nat {
    if n == 0 then 0 else Count(mask, n - 1) + (if Has(mask, n - 1) then 1 else 0)
  }
}
