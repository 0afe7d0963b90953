/** The CRC-32 of src/util/checksum.cc: the table-driven update loop against bit-serial
    division, and the algebra that makes it an error-detecting code. */
module Crc32 {
  import opened Bytes
  import opened Register

  const ONES: Word := 0xffffffff

  // ----- Bit-serial division by the reflected polynomial -----

  /** The register after the given message bits, first bit first. */
  function Serial(c: Word, bits: seq<bool>): Word
    decreases bits
  {
    if bits == [] then c else Serial(Shift(Xor(c, OfBit(bits[0]))), bits[1..])
  }

  function Bits(s: seq<byte>): (r: seq<bool>)
    ensures |r| == 8 * |s|
  {
    if s == [] then [] else ByteBits(s[0]) + Bits(s[1..])
  }

  // ----- The table-driven form -----

  /** The running register after a byte string. */
  function Update(c: Word, s: seq<byte>): Word
    decreases s
  {
    if s == [] then c else Update(TableStep(c, s[0]), s[1..])
  }

  function Checksum(s: seq<byte>): Word {
    Xor(Update(ONES, s), ONES)
  }

  /** The check value of this CRC-32: the digits 1 to 9 give 0xcbf43926. */
  lemma CheckValue()
    ensures Checksum([0x31, 0x32, 0x33, 0x34, 0x35, 0x36, 0x37, 0x38, 0x39]) == 0xcbf43926
  {
    FirstDigits();
    LastDigits();
    hide TableStep;
    assert [0x31, 0x32, 0x33, 0x34, 0x35, 0x36, 0x37, 0x38, 0x39][1..] == [0x32, 0x33, 0x34, 0x35, 0x36, 0x37, 0x38, 0x39];
    assert [0x32, 0x33, 0x34, 0x35, 0x36, 0x37, 0x38, 0x39][1..] == [0x33, 0x34, 0x35, 0x36, 0x37, 0x38, 0x39];
    assert [0x33, 0x34, 0x35, 0x36, 0x37, 0x38, 0x39][1..] == [0x34, 0x35, 0x36, 0x37, 0x38, 0x39];
    assert [0x34, 0x35, 0x36, 0x37, 0x38, 0x39][1..] == [0x35, 0x36, 0x37, 0x38, 0x39];
    assert [0x35, 0x36, 0x37, 0x38, 0x39][1..] == [0x36, 0x37, 0x38, 0x39];
    assert [0x36, 0x37, 0x38, 0x39][1..] == [0x37, 0x38, 0x39];
    assert [0x37, 0x38, 0x39][1..] == [0x38, 0x39];
    assert [0x38, 0x39][1..] == [0x39];
    assert Update(0x340bc6d9, []) == 0x340bc6d9;
    assert Update(0x651f2550, [0x39]) == 0x340bc6d9;
    assert Update(0xaffc9660, [0x38, 0x39]) == 0x340bc6d9;
    assert Update(0xf68d2c9e, [0x37, 0x38, 0x39]) == 0x340bc6d9;
    assert Update(0x340ac5e3, [0x36, 0x37, 0x38, 0x39]) == 0x340bc6d9;
    assert Update(0x641c1f5c, [0x35, 0x36, 0x37, 0x38, 0x39]) == 0x340bc6d9;
    assert Update(0x77b79c2d, [0x34, 0x35, 0x36, 0x37, 0x38, 0x39]) == 0x340bc6d9;
    assert Update(0xb0acbb32, [0x33, 0x34, 0x35, 0x36, 0x37, 0x38, 0x39]) == 0x340bc6d9;
    assert Update(0x7c231048, [0x32, 0x33, 0x34, 0x35, 0x36, 0x37, 0x38, 0x39]) == 0x340bc6d9;
    assert Update(0xffffffff, [0x31, 0x32, 0x33, 0x34, 0x35, 0x36, 0x37, 0x38, 0x39]) == 0x340bc6d9;
  }

  lemma FirstDigits()
    ensures TableStep(0xffffffff, 0x31) == 0x7c231048
    ensures TableStep(0x7c231048, 0x32) == 0xb0acbb32
    ensures TableStep(0xb0acbb32, 0x33) == 0x77b79c2d
    ensures TableStep(0x77b79c2d, 0x34) == 0x641c1f5c
    ensures TableStep(0x641c1f5c, 0x35) == 0x340ac5e3
  {}

  lemma LastDigits()
    ensures TableStep(0x340ac5e3, 0x36) == 0xf68d2c9e
    ensures TableStep(0xf68d2c9e, 0x37) == 0xaffc9660
    ensures TableStep(0xaffc9660, 0x38) == 0x651f2550
    ensures TableStep(0x651f2550, 0x39) == 0x340bc6d9
  {}

  /** `update_crc32`: the do-while loop over pointer and remaining length. */
  method UpdateCrc32(crc: Word, buf: array<byte>, len: nat) returns (c: Word)
    requires len <= buf.Length
    ensures c == Serial(crc, Bits(buf[..len]))
    ensures c == Update(crc, buf[..len])
  {
    hide TableStep, Shift, Xor, OfBit, ByteBits;
    c := crc;
    var p, n := 0, len;
    if n > 0 {
      while true
        invariant 0 < n && p + n == len
        invariant Update(crc, buf[..len]) == Update(c, buf[p..len])
        decreases n
      {
        assert buf[p..len][1..] == buf[p + 1..len];
        c := TableStep(c, buf[p]);
        p, n := p + 1, n - 1;
        if n == 0 { break; }
      }
    }
    UpdateIsSerial(crc, buf[..len]);
  }

  method ComputeCrc32(data: array<byte>, length: nat) returns (r: Word)
    requires length <= data.Length
    ensures r == Checksum(data[..length])
    ensures r == Xor(Serial(ONES, Bits(data[..length])), ONES)
  {
    hide Update, Serial, Xor;
    var c := UpdateCrc32(ONES, data, length);
    r := Xor(c, ONES);
  }

  // ----- The table form refines the bit-serial form -----

  /** `bits` spells x, least significant first, with nothing of x left over. */
  predicate Spells(x: Word, bits: seq<bool>)
    decreases bits
  {
    if bits == [] then x == 0 else bits[0] == LowBit(x) && Spells(Half(x), bits[1..])
  }

  function Shifts(c: Word, n: nat): Word
    decreases n
  {
    if n == 0 then c else Shifts(Shift(c), n - 1)
  }

  /** Feeding a word bit by bit is adding it to the register first and shifting it through. */
  lemma {:induction false} SerialWord(c: Word, x: Word, bits: seq<bool>)
    requires Spells(x, bits)
    ensures Serial(c, bits) == Shifts(Xor(c, x), |bits|)
    decreases bits
  {
    hide Shift, Xor, OfBit, LowBit, Half;
    if bits == [] {
      XorZero(c);
    } else {
      FeedBit(c, x);
      SerialWord(Shift(Xor(c, OfBit(bits[0]))), Half(x), bits[1..]);
    }
  }

  lemma SpellsCons(x: Word, bits: seq<bool>)
    requires bits != [] && bits[0] == LowBit(x) && Spells(Half(x), bits[1..])
    ensures Spells(x, bits)
  {}

  lemma ByteBitsSpell(b: byte)
    ensures Spells(OfByte(b), ByteBits(b))
  {
    hide ByteBits, OfByte, Half, LowBit;
    ByteBitsAreLowBits(b);
    var w := ByteBits(b);
    var x0 := OfByte(b);
    var x1 := Half(x0); var x2 := Half(x1); var x3 := Half(x2); var x4 := Half(x3);
    var x5 := Half(x4); var x6 := Half(x5); var x7 := Half(x6);
    assert Spells(0, []);
    hide Spells;
    assert w[7..][1..] == [];
    SpellsCons(x7, w[7..]);
    assert w[6..][1..] == w[7..];
    SpellsCons(x6, w[6..]);
    assert w[5..][1..] == w[6..];
    SpellsCons(x5, w[5..]);
    assert w[4..][1..] == w[5..];
    SpellsCons(x4, w[4..]);
    assert w[3..][1..] == w[4..];
    SpellsCons(x3, w[3..]);
    assert w[2..][1..] == w[3..];
    SpellsCons(x2, w[2..]);
    assert w[1..][1..] == w[2..];
    SpellsCons(x1, w[1..]);
    SpellsCons(x0, w);
  }

  lemma Shifts8(c: Word)
    ensures Shifts(c, 8) == Shift8(c)
  {
    hide Shift;
    var d := Shift(Shift(Shift(Shift(c))));
    assert Shifts(c, 8) == Shifts(Shift(Shift(c)), 6) == Shifts(d, 4);
    assert Shifts(d, 4) == Shifts(Shift(Shift(d)), 2) == Shift(Shift(Shift(Shift(d))));
  }

  lemma SerialByte(c: Word, b: byte)
    ensures Serial(c, ByteBits(b)) == TableStep(c, b)
  {
    hide Serial, Shifts, Shift8, TableStep, ByteBits, OfByte, Xor, Spells;
    ByteBitsSpell(b);
    SerialWord(c, OfByte(b), ByteBits(b));
    Shifts8(Xor(c, OfByte(b)));
    TableStepIsShift8(c, b);
  }

  lemma {:induction false} SerialConcat(c: Word, u: seq<bool>, v: seq<bool>)
    ensures Serial(c, u + v) == Serial(Serial(c, u), v)
    decreases u
  {
    hide Shift, Xor, OfBit;
    if u == [] {
      assert u + v == v;
    } else {
      assert (u + v)[1..] == u[1..] + v;
      SerialConcat(Shift(Xor(c, OfBit(u[0]))), u[1..], v);
    }
  }

  /** The table-driven loop is bit-serial division, on every byte string and starting register. */
  lemma {:induction false} UpdateIsSerial(c: Word, s: seq<byte>)
    ensures Update(c, s) == Serial(c, Bits(s))
    decreases s
  {
    hide TableStep, ByteBits, Shift, Xor, OfBit;
    if s != [] {
      SerialConcat(c, ByteBits(s[0]), Bits(s[1..]));
      SerialByte(c, s[0]);
      UpdateIsSerial(TableStep(c, s[0]), s[1..]);
    }
  }

  // ----- Algebra of the running register -----

  lemma {:induction false} UpdateConcat(c: Word, a: seq<byte>, b: seq<byte>)
    ensures Update(c, a + b) == Update(Update(c, a), b)
    decreases a
  {
    hide TableStep;
    if a == [] {
      assert a + b == b;
    } else {
      assert (a + b)[1..] == a[1..] + b;
      UpdateConcat(TableStep(c, a[0]), a[1..], b);
    }
  }

  function XorBytes(a: seq<byte>, b: seq<byte>): (r: seq<byte>)
    requires |a| == |b|
    ensures |r| == |a|
    ensures forall i :: 0 <= i < |a| ==> r[i] == XorByte(a[i], b[i])
  {
    seq(|a|, i requires 0 <= i < |a| => XorByte(a[i], b[i]))
  }

  /** The register is linear in the starting value and the bytes together. */
  lemma {:induction false} UpdateLinear(c: Word, d: Word, a: seq<byte>, b: seq<byte>)
    requires |a| == |b|
    ensures Update(Xor(c, d), XorBytes(a, b)) == Xor(Update(c, a), Update(d, b))
    decreases a
  {
    hide TableStep, Xor, XorByte;
    if a != [] {
      assert XorBytes(a, b)[1..] == XorBytes(a[1..], b[1..]);
      TableStepLinear(c, d, a[0], b[0]);
      UpdateLinear(TableStep(c, a[0]), TableStep(d, b[0]), a[1..], b[1..]);
    }
  }

  lemma ZeroXor(b: byte) ensures XorByte(0, b) == b {}

  lemma XorFill(b: seq<byte>)
    ensures XorBytes(Fill(|b|), b) == b
  {
    forall i | 0 <= i < |b| ensures XorBytes(Fill(|b|), b)[i] == b[i] { ZeroXor(b[i]); }
  }

  /** The checksum of a concatenation, from the two checksums and the second length alone. */
  lemma ChecksumCombine(a: seq<byte>, b: seq<byte>)
    ensures Checksum(a + b) == Xor(Update(Checksum(a), Fill(|b|)), Checksum(b))
  {
    hide Update, Xor, XorBytes, Fill;
    UpdateConcat(ONES, a, b);
    var ra := Update(ONES, a);
    var ca := Xor(ra, ONES);
    UpdateLinear(ca, ONES, Fill(|b|), b);
    XorFill(b);
    XorTwice(ra, ONES);
    XorAssoc(Update(ca, Fill(|b|)), Update(ONES, b), ONES);
  }
}
