/** What the checksum detects: every error burst of at most 32 bits, and, through the residue,
    every such burst in a message together with the checksum that follows it. */
module ErrorDetection {
  import opened Bytes
  import opened Register
  import opened Crc32

  // ----- Four bytes at once -----

  /** The checksum as written to the wire: four bytes, least significant first. */
  function LE32(x: Word): (r: seq<byte>)
    ensures |r| == 4
  {
    [LowByte(x), LowByte(DropByte(x)), LowByte(DropByte(DropByte(x))), LowByte(DropByte(DropByte(DropByte(x))))]
  }

  function Join(b0: byte, b1: byte, b2: byte, b3: byte): Word {
    (b0 as bv32) | ((b1 as bv32) << 8) | ((b2 as bv32) << 16) | ((b3 as bv32) << 24)
  }

  lemma LE32OfJoin(b0: byte, b1: byte, b2: byte, b3: byte)
    ensures LE32(Join(b0, b1, b2, b3)) == [b0, b1, b2, b3]
  {}

  lemma JoinOfLE32(x: Word)
    ensures x == Join(LE32(x)[0], LE32(x)[1], LE32(x)[2], LE32(x)[3])
  {}

  lemma DropFour(x: Word)
    ensures DropByte(DropByte(DropByte(DropByte(x)))) == 0
  {}

  function Shift32(c: Word): Word { Shift8(Shift8(Shift8(Shift8(c)))) }

  lemma FeedByte(c: Word, x: Word)
    ensures Shift8(Xor(c, x)) == Xor(TableStep(c, LowByte(x)), DropByte(x))
  {
    hide Shift8, Xor, OfByte, LowByte, HighBytes, DropByte, TableStep;
    SplitWord(x);
    XorAssoc(c, OfByte(LowByte(x)), HighBytes(x));
    Shift8Linear(Xor(c, OfByte(LowByte(x))), HighBytes(x));
    HighBytesShiftOut(x);
    TableStepIsShift8(c, LowByte(x));
  }

  /** Four table steps over a word's bytes are 32 shifts of the register with the word added. */
  lemma UpdateWord(c: Word, x: Word)
    ensures Update(c, LE32(x)) == Shift32(Xor(c, x))
  {
    hide Shift8, Xor, LowByte, DropByte, TableStep;
    var s := LE32(x);
    var x1 := DropByte(x); var x2 := DropByte(x1); var x3 := DropByte(x2);
    var c1 := TableStep(c, s[0]); var c2 := TableStep(c1, s[1]); var c3 := TableStep(c2, s[2]);
    var c4 := TableStep(c3, s[3]);
    FeedByte(c, x); FeedByte(c1, x1); FeedByte(c2, x2); FeedByte(c3, x3);
    DropFour(x);
    XorZero(c4);
    assert s[1..][1..][1..][1..] == [];
    assert Update(c, s) == Update(c1, s[1..]) == Update(c2, s[1..][1..]);
    assert Update(c2, s[1..][1..]) == Update(c3, s[1..][1..][1..]) == c4;
  }

  lemma Shift32Zero(c: Word)
    ensures Shift32(c) == 0 <==> c == 0
  {
    hide Shift8;
    var c1 := Shift8(c); var c2 := Shift8(c1); var c3 := Shift8(c2);
    Shift8Zero(c); Shift8Zero(c1); Shift8Zero(c2); Shift8Zero(c3);
  }

  lemma Shift32Linear(a: Word, b: Word)
    ensures Shift32(Xor(a, b)) == Xor(Shift32(a), Shift32(b))
  {
    hide Shift8, Xor;
    var a1, b1 := Shift8(a), Shift8(b); Shift8Linear(a, b);
    var a2, b2 := Shift8(a1), Shift8(b1); Shift8Linear(a1, b1);
    var a3, b3 := Shift8(a2), Shift8(b2); Shift8Linear(a2, b2);
    Shift8Linear(a3, b3);
  }

  lemma Shift32Injective(a: Word, b: Word)
    requires Shift32(a) == Shift32(b)
    ensures a == b
  {
    hide Shift32, Xor;
    Shift32Linear(a, b);
    XorSame(Shift32(a), Shift32(b));
    Shift32Zero(Xor(a, b));
    XorSame(a, b);
  }

  // ----- Bursts -----

  /** The two strings have one length and the same bits, except possibly for n bits from bit k on. */
  ghost predicate AgreeOutside(a: seq<byte>, b: seq<byte>, k: nat, n: nat) {
    |a| == |b| && forall i :: 0 <= i < 8 * |a| && !(k <= i < k + n) ==> Bits(a)[i] == Bits(b)[i]
  }

  lemma BitXor(a: byte, b: byte, m: byte)
    ensures m == 1 || m == 2 || m == 4 || m == 8 || m == 16 || m == 32 || m == 64 || m == 128
      ==> Bit(XorByte(a, b), m) == (Bit(a, m) != Bit(b, m))
  {}

  lemma ByteBitsXor(a: byte, b: byte, j: nat)
    requires j < 8
    ensures ByteBits(XorByte(a, b))[j] == (ByteBits(a)[j] != ByteBits(b)[j])
  {
    hide Bit, XorByte;
    var m: byte := [1, 2, 4, 8, 16, 32, 64, 128][j];
    BitXor(a, b, m);
    assert ByteBits(a)[j] == Bit(a, m) && ByteBits(b)[j] == Bit(b, m);
    assert ByteBits(XorByte(a, b))[j] == Bit(XorByte(a, b), m);
  }

  lemma {:induction false} BitsXor(a: seq<byte>, b: seq<byte>, i: nat)
    requires |a| == |b| && i < 8 * |a|
    ensures Bits(XorBytes(a, b))[i] == (Bits(a)[i] != Bits(b)[i])
    decreases a
  {
    hide ByteBits, XorByte;
    assert XorBytes(a, b)[1..] == XorBytes(a[1..], b[1..]);
    if i < 8 {
      ByteBitsXor(a[0], b[0], i);
    } else {
      BitsXor(a[1..], b[1..], i - 8);
    }
  }

  lemma NonzeroByteHasBit(b: byte)
    requires b != 0
    ensures exists j :: 0 <= j < 8 && ByteBits(b)[j]
  {
    var w := ByteBits(b);
    assert w[0] || w[1] || w[2] || w[3] || w[4] || w[5] || w[6] || w[7];
  }

  lemma XorNonzero(a: byte, b: byte)
    requires a != b
    ensures XorByte(a, b) != 0
  {}

  lemma {:induction false} DifferenceHasBit(s: seq<byte>, k: nat) returns (i: nat)
    requires k < |s| && s[k] != 0
    ensures i < 8 * |s| && Bits(s)[i]
    decreases s
  {
    hide ByteBits;
    if k == 0 {
      NonzeroByteHasBit(s[0]);
      i :| 0 <= i < 8 && ByteBits(s[0])[i];
    } else {
      var j := DifferenceHasBit(s[1..], k - 1);
      i := j + 8;
    }
  }

  ghost predicate AllClear(w: seq<bool>) { forall i :: 0 <= i < |w| ==> !w[i] }

  lemma {:induction false} SerialOfClear(c: Word, w: seq<bool>)
    requires AllClear(w)
    ensures Serial(c, w) == 0 <==> c == 0
    decreases w
  {
    hide Shift, Xor;
    if w != [] {
      XorZero(c);
      ShiftZero(c);
      SerialOfClear(Shift(c), w[1..]);
    }
  }

  function ByteOf(w: seq<bool>): byte
    requires |w| == 8
  {
    (if w[0] then 1 else 0) | (if w[1] then 2 else 0) | (if w[2] then 4 else 0) | (if w[3] then 8 else 0)
    | (if w[4] then 16 else 0) | (if w[5] then 32 else 0) | (if w[6] then 64 else 0) | (if w[7] then 128 else 0)
  }

  lemma BitsOfByteOf(w: seq<bool>)
    requires |w| == 8
    ensures ByteBits(ByteOf(w)) == w
  {}

  lemma BitsOfFour(b0: byte, b1: byte, b2: byte, b3: byte)
    ensures Bits([b0, b1, b2, b3]) == ByteBits(b0) + ByteBits(b1) + ByteBits(b2) + ByteBits(b3)
  {
    hide ByteBits;
    var s := [b0, b1, b2, b3];
    assert s[1..] == [b1, b2, b3] && s[1..][1..] == [b2, b3] && s[1..][1..][1..] == [b3];
    assert Bits([b3]) == ByteBits(b3);
    assert Bits([b2, b3]) == ByteBits(b2) + ByteBits(b3);
    assert Bits([b1, b2, b3]) == ByteBits(b1) + (ByteBits(b2) + ByteBits(b3));
  }

  lemma ClearByteBits()
    ensures AllClear(ByteBits(0))
  {}

  /** Thirty-two bit-steps from the zero register lose nothing. */
  lemma SerialOfWord(w: seq<bool>)
    requires |w| == 32 && !AllClear(w)
    ensures Serial(0, w) != 0
  {
    hide ByteBits, ByteOf, Xor, Shift, Shift32, Join, LE32, OfBit, Serial, Update;
    var b0, b1, b2, b3 := ByteOf(w[..8]), ByteOf(w[8..16]), ByteOf(w[16..24]), ByteOf(w[24..]);
    BitsOfByteOf(w[..8]); BitsOfByteOf(w[8..16]); BitsOfByteOf(w[16..24]); BitsOfByteOf(w[24..]);
    BitsOfFour(b0, b1, b2, b3);
    assert Bits([b0, b1, b2, b3]) == w;
    var x := Join(b0, b1, b2, b3);
    LE32OfJoin(b0, b1, b2, b3);
    UpdateIsSerial(0, LE32(x));
    UpdateWord(0, x);
    XorZero(x);
    Shift32Zero(x);
    if x == 0 {
      LE32OfJoin(0, 0, 0, 0);
      ZeroJoin();
      ClearByteBits();
      BitsOfFour(0, 0, 0, 0);
      assert false;
    }
  }

  lemma ZeroJoin()
    ensures Join(0, 0, 0, 0) == 0
  {}

  /** A difference confined to 32 bits leaves a register started from zero away from zero. */
  lemma SerialOfBurst(d: seq<bool>, k: nat)
    requires forall i :: 0 <= i < |d| && !(k <= i < k + 32) ==> !d[i]
    requires !AllClear(d)
    ensures Serial(0, d) != 0
  {
    hide Shift, Xor, OfBit, Serial;
    var from := if k <= |d| then k else |d|;
    var to := if k + 32 <= |d| then k + 32 else |d|;
    var w := d[from..to];
    var pad := seq(32 - |w|, _ => false);
    assert AllClear(pad) && AllClear(d[..from]) && AllClear(d[to..]);
    assert !AllClear(w + pad) by {
      var i :| 0 <= i < |d| && d[i];
      assert (w + pad)[i - from];
    }
    SerialOfWord(w + pad);
    SerialConcat(0, w, pad);
    SerialOfClear(Serial(0, w), pad);
    assert Serial(0, w) != 0;
    SerialOfClear(0, d[..from]);
    SerialConcat(0, d[..from], w);
    SerialConcat(0, d[..from] + w, d[to..]);
    SerialOfClear(Serial(0, w), d[to..]);
    ThreeParts(d, from, to);
  }

  lemma ThreeParts(d: seq<bool>, from: nat, to: nat)
    requires from <= to <= |d|
    ensures d[..from] + d[from..to] + d[to..] == d
  {
    assert d[..from] + d[from..to] == d[..to];
  }

  /** Two different strings of one length that differ within 32 consecutive bits leave any
      common starting register in different states. */
  lemma BurstDetected(c: Word, a: seq<byte>, b: seq<byte>, k: nat)
    requires AgreeOutside(a, b, k, 32) && a != b
    ensures Update(c, a) != Update(c, b)
  {
    hide Update, Serial, Xor, XorByte;
    var x := XorBytes(a, b);
    var d := Bits(x);
    forall i | 0 <= i < |d| ensures d[i] == (Bits(a)[i] != Bits(b)[i]) { BitsXor(a, b, i); }
    var j :| 0 <= j < |a| && a[j] != b[j];
    XorNonzero(a[j], b[j]);
    var i := DifferenceHasBit(x, j);
    assert d[i];
    SerialOfBurst(d, k);
    UpdateIsSerial(0, x);
    XorSame(c, c);
    UpdateLinear(c, c, a, b);
    XorSame(Update(c, a), Update(c, b));
  }

  lemma ChecksumDetectsBurst(a: seq<byte>, b: seq<byte>, k: nat)
    requires AgreeOutside(a, b, k, 32) && a != b
    ensures Checksum(a) != Checksum(b)
  {
    hide Update, Xor;
    BurstDetected(ONES, a, b, k);
    XorTwice(Update(ONES, a), ONES);
    XorTwice(Update(ONES, b), ONES);
  }

  /** The generator itself, as a 33-bit error: the bound of 32 cannot be raised. */
  const GENERATOR: seq<byte> := [0x41, 0x6, 0x71, 0xdb, 0x1]

  lemma GeneratorBits()
    ensures forall i :: 33 <= i < 40 ==> Bits(GENERATOR)[i] == Bits(Fill(5))[i]
  {
    assert ByteBits(1)[1..] == ByteBits(0)[1..];
    hide ByteBits;
    TailBits(GENERATOR);
    TailBits(Fill(5));
  }

  lemma TailBits(s: seq<byte>)
    requires |s| == 5
    ensures Bits(s)[32..] == ByteBits(s[4])
  {
    hide ByteBits;
    assert s == [s[0], s[1], s[2], s[3], s[4]];
    var t := s[1..];
    assert t == [s[1], s[2], s[3], s[4]];
    BitsOfFour(s[1], s[2], s[3], s[4]);
    assert Bits(s) == ByteBits(s[0]) + Bits(t);
  }

  lemma GeneratorVanishes()
    ensures Update(0, GENERATOR) == 0
  {
    assert TableStep(0, 0x41) == 0x1db7106;
    assert TableStep(0x1db7106, 0x06) == 0x1db71;
    assert TableStep(0x1db71, 0x71) == 0x1db;
    assert TableStep(0x1db, 0xdb) == 0x1;
    assert TableStep(0x1, 0x01) == 0;
    hide TableStep;
    var s := GENERATOR;
    assert Update(0, s) == Update(0x1db7106, s[1..]) == Update(0x1db71, s[1..][1..]);
    assert Update(0x1db71, s[1..][1..]) == Update(0x1db, s[1..][1..][1..]) == Update(1, s[1..][1..][1..][1..]);
    assert s[1..][1..][1..][1..][1..] == [];
    assert Update(1, s[1..][1..][1..][1..]) == 0;
  }

  lemma BurstBoundIsSharp(c: Word)
    ensures GENERATOR != Fill(5) && AgreeOutside(GENERATOR, Fill(5), 0, 33)
    ensures Update(c, GENERATOR) == Update(c, Fill(5))
  {
    assert GENERATOR[0] != 0;
    GeneratorBits();
    GeneratorVanishes();
    hide Update, Xor, XorByte;
    XorZero(c);
    XorFill(GENERATOR);
    UpdateLinear(c, 0, Fill(5), GENERATOR);
    XorZero(Update(c, Fill(5)));
  }

  // ----- The residue -----

  /** The register after any message and its own checksum. */
  const RESIDUE: Word := 0xdebb20e3

  lemma ResidueValue()
    ensures Shift32(ONES) == RESIDUE
  {
    assert Shift8(0xffffffff) == 0x2dfd1072;
  }

  /** A four-byte trailer drives the register to the residue exactly when it is the checksum. */
  lemma ResidueIffChecksum(m: seq<byte>, trailer: Word)
    ensures Update(ONES, m + LE32(trailer)) == RESIDUE <==> trailer == Checksum(m)
  {
    hide Update, Xor, Shift32, LE32;
    var r := Update(ONES, m);
    UpdateConcat(ONES, m, LE32(trailer));
    UpdateWord(r, trailer);
    ResidueValue();
    XorComm(r, ONES);
    XorTwice(ONES, r);
    XorComm(r, Xor(ONES, r));
    XorTwice(trailer, r);
    XorComm(trailer, r);
    if Shift32(Xor(r, trailer)) == Shift32(ONES) {
      Shift32Injective(Xor(r, trailer), ONES);
    }
  }

  /** A burst of at most 32 bits over message and trailer together is always noticed. */
  lemma TrailerDetectsBurst(m: seq<byte>, m': seq<byte>, trailer': Word, k: nat)
    requires AgreeOutside(m + LE32(Checksum(m)), m' + LE32(trailer'), k, 32)
    requires m + LE32(Checksum(m)) != m' + LE32(trailer')
    ensures trailer' != Checksum(m')
  {
    hide Update, Checksum, LE32, Bits;
    ResidueIffChecksum(m, Checksum(m));
    ResidueIffChecksum(m', trailer');
    BurstDetected(ONES, m + LE32(Checksum(m)), m' + LE32(trailer'), k);
  }
}
