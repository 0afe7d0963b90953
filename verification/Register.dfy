/** The 32-bit CRC register, one table step of it, and the laws the checksum proofs rest on.
    Other modules hide the bodies below and reason with the laws; each law is one small
    bit-level problem. */
module Register {
  import opened Bytes

  type Word = bv32

  function Xor(a: Word, b: Word): Word { a ^ b }

  function XorByte(a: byte, b: byte): byte { a ^ b }

  function OfByte(b: byte): Word { b as bv32 }

  function OfBit(b: bool): Word { if b then 1 else 0 }

  function LowBit(a: Word): bool { a & 1 == 1 }

  function Half(a: Word): Word { a >> 1 }

  /** One step of the reflected shift register, with no input bit. */
  function Shift(c: Word): Word {
    if c & 1 == 1 then (c >> 1) ^ 0xEDB88320 else c >> 1
  }

  /** The inverse step: the polynomial's top bit tells which branch was taken. */
  function Unshift(c: Word): Word {
    if c & 0x80000000 != 0 then ((c ^ 0xEDB88320) << 1) | 1 else c << 1
  }

  function Shift8(c: Word): Word { Shift(Shift(Shift(Shift(Shift(Shift(Shift(Shift(c)))))))) }

  // ----- The table -----

  function Pick(j: bv8, e0: bv32, e1: bv32, e2: bv32, e3: bv32, e4: bv32, e5: bv32, e6: bv32, e7: bv32): bv32 {
    match j
    case 0 => e0 case 1 => e1 case 2 => e2 case 3 => e3 case 4 => e4 case 5 => e5 case 6 => e6 case _ => e7
  }

  /** The 256 literal entries, eight to a row. */
  function Table(i: bv8): bv32 {
    match i >> 6
    case 0 => FirstRows(i)
    case 1 => SecondRows(i)
    case 2 => ThirdRows(i)
    case _ => FourthRows(i)
  }

  function FirstRows(i: bv8): bv32 {
    match (i >> 3) & 7
    case 0 => Pick(i & 7, 0x00000000, 0x77073096, 0xEE0E612C, 0x990951BA, 0x076DC419, 0x706AF48F, 0xE963A535, 0x9E6495A3)
    case 1 => Pick(i & 7, 0x0EDB8832, 0x79DCB8A4, 0xE0D5E91E, 0x97D2D988, 0x09B64C2B, 0x7EB17CBD, 0xE7B82D07, 0x90BF1D91)
    case 2 => Pick(i & 7, 0x1DB71064, 0x6AB020F2, 0xF3B97148, 0x84BE41DE, 0x1ADAD47D, 0x6DDDE4EB, 0xF4D4B551, 0x83D385C7)
    case 3 => Pick(i & 7, 0x136C9856, 0x646BA8C0, 0xFD62F97A, 0x8A65C9EC, 0x14015C4F, 0x63066CD9, 0xFA0F3D63, 0x8D080DF5)
    case 4 => Pick(i & 7, 0x3B6E20C8, 0x4C69105E, 0xD56041E4, 0xA2677172, 0x3C03E4D1, 0x4B04D447, 0xD20D85FD, 0xA50AB56B)
    case 5 => Pick(i & 7, 0x35B5A8FA, 0x42B2986C, 0xDBBBC9D6, 0xACBCF940, 0x32D86CE3, 0x45DF5C75, 0xDCD60DCF, 0xABD13D59)
    case 6 => Pick(i & 7, 0x26D930AC, 0x51DE003A, 0xC8D75180, 0xBFD06116, 0x21B4F4B5, 0x56B3C423, 0xCFBA9599, 0xB8BDA50F)
    case _ => Pick(i & 7, 0x2802B89E, 0x5F058808, 0xC60CD9B2, 0xB10BE924, 0x2F6F7C87, 0x58684C11, 0xC1611DAB, 0xB6662D3D)
  }

  function SecondRows(i: bv8): bv32 {
    match (i >> 3) & 7
    case 0 => Pick(i & 7, 0x76DC4190, 0x01DB7106, 0x98D220BC, 0xEFD5102A, 0x71B18589, 0x06B6B51F, 0x9FBFE4A5, 0xE8B8D433)
    case 1 => Pick(i & 7, 0x7807C9A2, 0x0F00F934, 0x9609A88E, 0xE10E9818, 0x7F6A0DBB, 0x086D3D2D, 0x91646C97, 0xE6635C01)
    case 2 => Pick(i & 7, 0x6B6B51F4, 0x1C6C6162, 0x856530D8, 0xF262004E, 0x6C0695ED, 0x1B01A57B, 0x8208F4C1, 0xF50FC457)
    case 3 => Pick(i & 7, 0x65B0D9C6, 0x12B7E950, 0x8BBEB8EA, 0xFCB9887C, 0x62DD1DDF, 0x15DA2D49, 0x8CD37CF3, 0xFBD44C65)
    case 4 => Pick(i & 7, 0x4DB26158, 0x3AB551CE, 0xA3BC0074, 0xD4BB30E2, 0x4ADFA541, 0x3DD895D7, 0xA4D1C46D, 0xD3D6F4FB)
    case 5 => Pick(i & 7, 0x4369E96A, 0x346ED9FC, 0xAD678846, 0xDA60B8D0, 0x44042D73, 0x33031DE5, 0xAA0A4C5F, 0xDD0D7CC9)
    case 6 => Pick(i & 7, 0x5005713C, 0x270241AA, 0xBE0B1010, 0xC90C2086, 0x5768B525, 0x206F85B3, 0xB966D409, 0xCE61E49F)
    case _ => Pick(i & 7, 0x5EDEF90E, 0x29D9C998, 0xB0D09822, 0xC7D7A8B4, 0x59B33D17, 0x2EB40D81, 0xB7BD5C3B, 0xC0BA6CAD)
  }

  function ThirdRows(i: bv8): bv32 {
    match (i >> 3) & 7
    case 0 => Pick(i & 7, 0xEDB88320, 0x9ABFB3B6, 0x03B6E20C, 0x74B1D29A, 0xEAD54739, 0x9DD277AF, 0x04DB2615, 0x73DC1683)
    case 1 => Pick(i & 7, 0xE3630B12, 0x94643B84, 0x0D6D6A3E, 0x7A6A5AA8, 0xE40ECF0B, 0x9309FF9D, 0x0A00AE27, 0x7D079EB1)
    case 2 => Pick(i & 7, 0xF00F9344, 0x8708A3D2, 0x1E01F268, 0x6906C2FE, 0xF762575D, 0x806567CB, 0x196C3671, 0x6E6B06E7)
    case 3 => Pick(i & 7, 0xFED41B76, 0x89D32BE0, 0x10DA7A5A, 0x67DD4ACC, 0xF9B9DF6F, 0x8EBEEFF9, 0x17B7BE43, 0x60B08ED5)
    case 4 => Pick(i & 7, 0xD6D6A3E8, 0xA1D1937E, 0x38D8C2C4, 0x4FDFF252, 0xD1BB67F1, 0xA6BC5767, 0x3FB506DD, 0x48B2364B)
    case 5 => Pick(i & 7, 0xD80D2BDA, 0xAF0A1B4C, 0x36034AF6, 0x41047A60, 0xDF60EFC3, 0xA867DF55, 0x316E8EEF, 0x4669BE79)
    case 6 => Pick(i & 7, 0xCB61B38C, 0xBC66831A, 0x256FD2A0, 0x5268E236, 0xCC0C7795, 0xBB0B4703, 0x220216B9, 0x5505262F)
    case _ => Pick(i & 7, 0xC5BA3BBE, 0xB2BD0B28, 0x2BB45A92, 0x5CB36A04, 0xC2D7FFA7, 0xB5D0CF31, 0x2CD99E8B, 0x5BDEAE1D)
  }

  function FourthRows(i: bv8): bv32 {
    match (i >> 3) & 7
    case 0 => Pick(i & 7, 0x9B64C2B0, 0xEC63F226, 0x756AA39C, 0x026D930A, 0x9C0906A9, 0xEB0E363F, 0x72076785, 0x05005713)
    case 1 => Pick(i & 7, 0x95BF4A82, 0xE2B87A14, 0x7BB12BAE, 0x0CB61B38, 0x92D28E9B, 0xE5D5BE0D, 0x7CDCEFB7, 0x0BDBDF21)
    case 2 => Pick(i & 7, 0x86D3D2D4, 0xF1D4E242, 0x68DDB3F8, 0x1FDA836E, 0x81BE16CD, 0xF6B9265B, 0x6FB077E1, 0x18B74777)
    case 3 => Pick(i & 7, 0x88085AE6, 0xFF0F6A70, 0x66063BCA, 0x11010B5C, 0x8F659EFF, 0xF862AE69, 0x616BFFD3, 0x166CCF45)
    case 4 => Pick(i & 7, 0xA00AE278, 0xD70DD2EE, 0x4E048354, 0x3903B3C2, 0xA7672661, 0xD06016F7, 0x4969474D, 0x3E6E77DB)
    case 5 => Pick(i & 7, 0xAED16A4A, 0xD9D65ADC, 0x40DF0B66, 0x37D83BF0, 0xA9BCAE53, 0xDEBB9EC5, 0x47B2CF7F, 0x30B5FFE9)
    case 6 => Pick(i & 7, 0xBDBDF21C, 0xCABAC28A, 0x53B39330, 0x24B4A3A6, 0xBAD03605, 0xCDD70693, 0x54DE5729, 0x23D967BF)
    case _ => Pick(i & 7, 0xB3667A2E, 0xC4614AB8, 0x5D681B02, 0x2A6F2B94, 0xB40BBE37, 0xC30C8EA1, 0x5A05DF1B, 0x2D02EF8D)
  }

  function LowByte(x: Word): bv8 { (x & 0xff) as bv8 }

  function HighBytes(x: Word): Word { x & 0xffffff00 }

  function DropByte(x: Word): Word { x >> 8 }

  /** One pass of the table-driven loop: `crc32_table[(c ^ b) & 0xff] ^ (c >> 8)`. */
  function TableStep(c: Word, b: byte): Word {
    Xor(Table(LowByte(Xor(c, OfByte(b)))), DropByte(c))
  }

  // ----- Exclusive or -----

  lemma XorAssoc(a: Word, b: Word, c: Word) ensures Xor(Xor(a, b), c) == Xor(a, Xor(b, c)) {}

  lemma XorComm(a: Word, b: Word) ensures Xor(a, b) == Xor(b, a) {}

  lemma XorSwap(a: Word, b: Word, c: Word, d: Word)
    ensures Xor(Xor(a, b), Xor(c, d)) == Xor(Xor(a, c), Xor(b, d))
  {
    hide Xor;
    XorAssoc(a, b, Xor(c, d)); XorAssoc(b, c, d); XorComm(b, c); XorAssoc(c, b, d); XorAssoc(a, c, Xor(b, d));
  }

  lemma XorTwice(a: Word, p: Word) ensures Xor(Xor(a, p), p) == a {}

  lemma XorZero(a: Word)
    ensures Xor(a, 0) == a && Xor(0, a) == a
  {}

  lemma XorSame(a: Word, b: Word)
    ensures Xor(a, b) == 0 <==> a == b
  {
    hide Xor;
    XorTwice(a, b); XorZero(b); XorTwice(0, b);
  }

  lemma OfByteXor(a: byte, b: byte) ensures OfByte(XorByte(a, b)) == Xor(OfByte(a), OfByte(b)) {}

  // ----- The step is linear and invertible -----

  lemma ShiftRightXor(a: bv32, b: bv32) ensures (a ^ b) >> 1 == (a >> 1) ^ (b >> 1) {}

  lemma LowBitXor(a: bv32, b: bv32) ensures (a ^ b) & 1 == (a & 1) ^ (b & 1) {}

  lemma LowBitCases(a: bv32) ensures a & 1 == 0 || a & 1 == 1 {}

  lemma MovePoly(a: bv32, b: bv32, p: bv32)
    ensures (a ^ p) ^ (b ^ p) == a ^ b
    ensures (a ^ p) ^ b == (a ^ b) ^ p
    ensures a ^ (b ^ p) == (a ^ b) ^ p
  {}

  lemma ShiftLinear(a: Word, b: Word)
    ensures Shift(Xor(a, b)) == Xor(Shift(a), Shift(b))
  {
    ShiftRightXor(a, b);
    LowBitXor(a, b);
    LowBitCases(a); LowBitCases(b);
    MovePoly(a >> 1, b >> 1, 0xEDB88320);
  }

  lemma PolySetsTop(c: bv32)
    ensures ((c >> 1) ^ 0xEDB88320) & 0x80000000 != 0
    ensures (c >> 1) & 0x80000000 == 0
    ensures ((c >> 1) ^ 0xEDB88320) ^ 0xEDB88320 == c >> 1
  {}

  lemma RestoreLowBit(c: bv32)
    ensures if c & 1 == 1 then ((c >> 1) << 1) | 1 == c else (c >> 1) << 1 == c
  {}

  /** The register step loses nothing: it has a left inverse ... */
  lemma UnshiftShift(c: Word)
    ensures Unshift(Shift(c)) == c
  {
    PolySetsTop(c); RestoreLowBit(c);
  }

  lemma TopSet(c: bv32)
    requires c & 0x80000000 != 0
    ensures Shift(((c ^ 0xEDB88320) << 1) | 1) == c
  {}

  lemma TopClear(c: bv32)
    requires c & 0x80000000 == 0
    ensures Shift(c << 1) == c
  {}

  /** ... and a right inverse. */
  lemma ShiftUnshift(c: Word)
    ensures Shift(Unshift(c)) == c
  {
    hide Shift;
    if c & 0x80000000 != 0 { TopSet(c); } else { TopClear(c); }
  }

  lemma ShiftZero(c: Word)
    ensures Shift(c) == 0 <==> c == 0
  {
    UnshiftShift(c);
  }

  lemma Shift8Linear(a: Word, b: Word)
    ensures Shift8(Xor(a, b)) == Xor(Shift8(a), Shift8(b))
  {
    hide Shift, Xor;
    var a1, b1 := Shift(a), Shift(b); ShiftLinear(a, b);
    var a2, b2 := Shift(a1), Shift(b1); ShiftLinear(a1, b1);
    var a3, b3 := Shift(a2), Shift(b2); ShiftLinear(a2, b2);
    var a4, b4 := Shift(a3), Shift(b3); ShiftLinear(a3, b3);
    var a5, b5 := Shift(a4), Shift(b4); ShiftLinear(a4, b4);
    var a6, b6 := Shift(a5), Shift(b5); ShiftLinear(a5, b5);
    var a7, b7 := Shift(a6), Shift(b6); ShiftLinear(a6, b6);
    ShiftLinear(a7, b7);
  }

  lemma Shift8Zero(c: Word)
    ensures Shift8(c) == 0 <==> c == 0
  {
    hide Shift;
    var c1 := Shift(c); var c2 := Shift(c1); var c3 := Shift(c2); var c4 := Shift(c3);
    var c5 := Shift(c4); var c6 := Shift(c5); var c7 := Shift(c6);
    ShiftZero(c); ShiftZero(c1); ShiftZero(c2); ShiftZero(c3);
    ShiftZero(c4); ShiftZero(c5); ShiftZero(c6); ShiftZero(c7);
  }

  // ----- One table step is eight register steps -----

  lemma FirstRowsA(i: bv8)
    requires 0 <= i && i <= 15
    ensures FirstRows(i) == Shift8(i as bv32)
  {}

  lemma FirstRowsB(i: bv8)
    requires 16 <= i && i <= 31
    ensures FirstRows(i) == Shift8(i as bv32)
  {}

  lemma FirstRowsC(i: bv8)
    requires 32 <= i && i <= 47
    ensures FirstRows(i) == Shift8(i as bv32)
  {}

  lemma FirstRowsD(i: bv8)
    requires 48 <= i && i <= 63
    ensures FirstRows(i) == Shift8(i as bv32)
  {}

  lemma SecondRowsA(i: bv8)
    requires 64 <= i && i <= 79
    ensures SecondRows(i) == Shift8(i as bv32)
  {}

  lemma SecondRowsB(i: bv8)
    requires 80 <= i && i <= 95
    ensures SecondRows(i) == Shift8(i as bv32)
  {}

  lemma SecondRowsC(i: bv8)
    requires 96 <= i && i <= 111
    ensures SecondRows(i) == Shift8(i as bv32)
  {}

  lemma SecondRowsD(i: bv8)
    requires 112 <= i && i <= 127
    ensures SecondRows(i) == Shift8(i as bv32)
  {}

  lemma ThirdRowsA(i: bv8)
    requires 128 <= i && i <= 143
    ensures ThirdRows(i) == Shift8(i as bv32)
  {}

  lemma ThirdRowsB(i: bv8)
    requires 144 <= i && i <= 159
    ensures ThirdRows(i) == Shift8(i as bv32)
  {}

  lemma ThirdRowsC(i: bv8)
    requires 160 <= i && i <= 175
    ensures ThirdRows(i) == Shift8(i as bv32)
  {}

  lemma ThirdRowsD(i: bv8)
    requires 176 <= i && i <= 191
    ensures ThirdRows(i) == Shift8(i as bv32)
  {}

  lemma FourthRowsA(i: bv8)
    requires 192 <= i && i <= 207
    ensures FourthRows(i) == Shift8(i as bv32)
  {}

  lemma FourthRowsB(i: bv8)
    requires 208 <= i && i <= 223
    ensures FourthRows(i) == Shift8(i as bv32)
  {}

  lemma FourthRowsC(i: bv8)
    requires 224 <= i && i <= 239
    ensures FourthRows(i) == Shift8(i as bv32)
  {}

  lemma FourthRowsD(i: bv8)
    requires 240 <= i && i <= 255
    ensures FourthRows(i) == Shift8(i as bv32)
  {}

  /** Every literal entry is eight register steps of its index. */
  lemma TableCorrect(i: bv8)
    ensures Table(i) == Shift8(OfByte(i))
  {
    hide FirstRows, SecondRows, ThirdRows, FourthRows, Shift8;
    if i <= 15 { FirstRowsA(i); }
    else if i <= 31 { FirstRowsB(i); }
    else if i <= 47 { FirstRowsC(i); }
    else if i <= 63 { FirstRowsD(i); }
    else if i <= 79 { SecondRowsA(i); }
    else if i <= 95 { SecondRowsB(i); }
    else if i <= 111 { SecondRowsC(i); }
    else if i <= 127 { SecondRowsD(i); }
    else if i <= 143 { ThirdRowsA(i); }
    else if i <= 159 { ThirdRowsB(i); }
    else if i <= 175 { ThirdRowsC(i); }
    else if i <= 191 { ThirdRowsD(i); }
    else if i <= 207 { FourthRowsA(i); }
    else if i <= 223 { FourthRowsB(i); }
    else if i <= 239 { FourthRowsC(i); }
    else { FourthRowsD(i); }
  }

  lemma SplitWord(x: Word) ensures x == Xor(OfByte(LowByte(x)), HighBytes(x)) {}

  lemma HighBytesShiftOut(x: Word) ensures Shift8(HighBytes(x)) == DropByte(x) {}

  lemma InputIsLow(c: Word, b: byte) ensures DropByte(Xor(c, OfByte(b))) == DropByte(c) {}

  /** One pass of the table loop is eight bit steps of the register with the byte added. */
  lemma TableStepIsShift8(c: Word, b: byte)
    ensures TableStep(c, b) == Shift8(Xor(c, OfByte(b)))
  {
    hide Table, Shift8, Xor, OfByte, LowByte, HighBytes, DropByte;
    var x := Xor(c, OfByte(b));
    SplitWord(x);
    Shift8Linear(OfByte(LowByte(x)), HighBytes(x));
    HighBytesShiftOut(x);
    InputIsLow(c, b);
    TableCorrect(LowByte(x));
  }

  /** The table step is linear in register and byte together. */
  lemma TableStepLinear(c: Word, d: Word, a: byte, b: byte)
    ensures TableStep(Xor(c, d), XorByte(a, b)) == Xor(TableStep(c, a), TableStep(d, b))
  {
    hide TableStep, Shift8, Xor, OfByte, XorByte;
    OfByteXor(a, b);
    XorSwap(c, d, OfByte(a), OfByte(b));
    TableStepIsShift8(c, a);
    TableStepIsShift8(d, b);
    TableStepIsShift8(Xor(c, d), XorByte(a, b));
    Shift8Linear(Xor(c, OfByte(a)), Xor(d, OfByte(b)));
  }

  // ----- Feeding a word one bit at a time -----

  function ClearLowBit(x: Word): Word { x & 0xfffffffe }

  lemma SplitLowBit(x: Word)
    ensures x == Xor(OfBit(LowBit(x)), ClearLowBit(x))
    ensures Shift(ClearLowBit(x)) == Half(x)
  {}

  /** Feeding the low bit and shifting is shifting with the whole word, less the word halved. */
  lemma FeedBit(c: Word, x: Word)
    ensures Shift(Xor(c, x)) == Xor(Shift(Xor(c, OfBit(LowBit(x)))), Half(x))
  {
    hide Shift, Xor, OfBit, LowBit, Half, ClearLowBit;
    SplitLowBit(x);
    XorAssoc(c, OfBit(LowBit(x)), ClearLowBit(x));
    ShiftLinear(Xor(c, OfBit(LowBit(x))), ClearLowBit(x));
  }

  function Bit(b: byte, mask: byte): bool { b & mask != 0 }

  /** The eight bits of a byte, least significant first. */
  function ByteBits(b: byte): (r: seq<bool>)
    ensures |r| == 8
  {
    [Bit(b, 1), Bit(b, 2), Bit(b, 4), Bit(b, 8), Bit(b, 16), Bit(b, 32), Bit(b, 64), Bit(b, 128)]
  }

  lemma ByteBitsAreLowBits(b: byte)
    ensures var w := ByteBits(b); var x0 := OfByte(b);
      var x1 := Half(x0); var x2 := Half(x1); var x3 := Half(x2); var x4 := Half(x3);
      var x5 := Half(x4); var x6 := Half(x5); var x7 := Half(x6);
      && w[0] == LowBit(x0) && w[1] == LowBit(x1) && w[2] == LowBit(x2) && w[3] == LowBit(x3)
      && w[4] == LowBit(x4) && w[5] == LowBit(x5) && w[6] == LowBit(x6) && w[7] == LowBit(x7)
      && Half(x7) == 0
  {}
}
