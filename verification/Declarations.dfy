/** Generic data declarations: a bit-packed three-byte header and an optional tail of bounds
    (include/crisp/comms/DataDeclarationBase.hh). */
module Declarations {
  import opened Bytes

  datatype Decl = Decl(
    typ: bv6,
    width: bv5,
    isArray: bool,
    isSigned: bool,
    hasNeutral: bool,
    hasMinimum: bool,
    hasMaximum: bool,
    arraySizeWidth: byte,
    neutral: seq<byte>,
    minimum: seq<byte>,
    maximum: seq<byte>)

  /** The default-constructed declaration: everything zero. */
  const BLANK := Decl(0, 0, false, false, false, false, false, 0, Fill(16), Fill(16), Fill(16))

  function Width(d: Decl): nat { d.width as nat }

  function Flag(b: bool): nat { if b then 1 else 0 }

  function TailSize(d: Decl): nat {
    Width(d) * (Flag(d.hasNeutral) + Flag(d.hasMinimum) + Flag(d.hasMaximum))
  }

  /** The bounds live in 16-byte arrays, so no declared width may exceed 16. */
  predicate WellFormed(d: Decl) {
    Width(d) <= 16 && |d.neutral| == |d.minimum| == |d.maximum| == 16
  }

  // ----- The packed header: type 6, width 5, five flags, array-size width 8 -----

  function PackLow(typ: bv6, width: bv5): byte {
    (typ as bv8) | (((width & 3) as bv8) << 6)
  }

  function PackHigh(width: bv5, a: bool, s: bool, n: bool, lo: bool, hi: bool): byte {
    ((width >> 2) as bv8) | (if a then 8 else 0) | (if s then 16 else 0) | (if n then 32 else 0)
    | (if lo then 64 else 0) | (if hi then 128 else 0)
  }

  function UnpackType(low: byte): bv6 { (low & 0x3f) as bv6 }

  function UnpackWidth(low: byte, high: byte): bv5 { ((low >> 6) as bv5) | (((high & 7) as bv5) << 2) }

  function UnpackFlag(high: byte, mask: byte): bool { high & mask != 0 }

  lemma UnpackPack(typ: bv6, width: bv5, a: bool, s: bool, n: bool, lo: bool, hi: bool)
    ensures var l, h := PackLow(typ, width), PackHigh(width, a, s, n, lo, hi);
      && UnpackType(l) == typ && UnpackWidth(l, h) == width
      && UnpackFlag(h, 8) == a && UnpackFlag(h, 16) == s && UnpackFlag(h, 32) == n
      && UnpackFlag(h, 64) == lo && UnpackFlag(h, 128) == hi
  {}

  function EncodeHeader(d: Decl): (r: seq<byte>)
    ensures |r| == 3
  {
    [PackLow(d.typ, d.width),
     PackHigh(d.width, d.isArray, d.isSigned, d.hasNeutral, d.hasMinimum, d.hasMaximum),
     d.arraySizeWidth]
  }

  /** A header read over a blank declaration. */
  function DecodeHeader(h: seq<byte>): Decl
    requires |h| == 3
  {
    Decl(UnpackType(h[0]), UnpackWidth(h[0], h[1]), UnpackFlag(h[1], 8), UnpackFlag(h[1], 16), UnpackFlag(h[1], 32),
         UnpackFlag(h[1], 64), UnpackFlag(h[1], 128), h[2], Fill(16), Fill(16), Fill(16))
  }

  function BitAt(b: bool, mask: bv24): bv24 { if b then mask else 0 }

  lemma PackedWord(typ: bv6, width: bv5, a: bool, s: bool, n: bool, lo: bool, hi: bool, size: byte)
    ensures (PackLow(typ, width) as bv24) | ((PackHigh(width, a, s, n, lo, hi) as bv24) << 8) | ((size as bv24) << 16)
      == (typ as bv24) | ((width as bv24) << 6) | BitAt(a, 0x800) | BitAt(s, 0x1000) | BitAt(n, 0x2000) | BitAt(lo, 0x4000)
         | BitAt(hi, 0x8000) | ((size as bv24) << 16)
  {}

  /** The three bytes, least significant first, are the bit fields in order from the lowest bit. */
  lemma HeaderLayout(d: Decl)
    ensures var h := EncodeHeader(d);
      (h[0] as bv24) | ((h[1] as bv24) << 8) | ((h[2] as bv24) << 16)
      == (d.typ as bv24) | ((d.width as bv24) << 6) | BitAt(d.isArray, 0x800) | BitAt(d.isSigned, 0x1000)
         | BitAt(d.hasNeutral, 0x2000) | BitAt(d.hasMinimum, 0x4000) | BitAt(d.hasMaximum, 0x8000)
         | ((d.arraySizeWidth as bv24) << 16)
  {
    hide PackLow, PackHigh, BitAt;
    PackedWord(d.typ, d.width, d.isArray, d.isSigned, d.hasNeutral, d.hasMinimum, d.hasMaximum, d.arraySizeWidth);
  }

  // ----- The tail -----

  function Bound(present: bool, value: seq<byte>, width: nat): seq<byte> {
    if present && width <= |value| then value[..width] else []
  }

  function EncodeTail(d: Decl): seq<byte> {
    Bound(d.hasNeutral, d.neutral, Width(d)) + Bound(d.hasMinimum, d.minimum, Width(d))
    + Bound(d.hasMaximum, d.maximum, Width(d))
  }

  lemma TailLength(d: Decl)
    requires WellFormed(d)
    ensures |EncodeTail(d)| == TailSize(d)
  {}

  /** `memcpy` over the start of an array. */
  function Overlay(dest: seq<byte>, src: seq<byte>): (r: seq<byte>)
    ensures |r| == |dest|
  {
    if |src| <= |dest| then src + dest[|src|..] else src[..|dest|]
  }

  function ReadBound(present: bool, before: seq<byte>, width: nat, s: seq<byte>): (seq<byte>, seq<byte>) {
    if present && width <= |s| then (Overlay(before, s[..width]), s[width..]) else (before, s)
  }

  /** Nothing is read when the whole tail is not there. */
  function DecodeTail(d: Decl, s: seq<byte>): (r: (Decl, seq<byte>)) {
    if |s| < TailSize(d) then (d, s)
    else
      var w := Width(d);
      var (n, s1) := ReadBound(d.hasNeutral, d.neutral, w, s);
      var (lo, s2) := ReadBound(d.hasMinimum, d.minimum, w, s1);
      var (hi, s3) := ReadBound(d.hasMaximum, d.maximum, w, s2);
      (d.(neutral := n, minimum := lo, maximum := hi), s3)
  }

  // ----- What survives the wire -----

  function CanonicalBound(present: bool, value: seq<byte>, width: nat): seq<byte> {
    Overlay(Fill(16), Bound(present, value, width))
  }

  /** The declaration as the peer holds it: bytes beyond the width, and absent bounds, are zero. */
  function Canonical(d: Decl): Decl {
    d.(neutral := CanonicalBound(d.hasNeutral, d.neutral, Width(d)),
       minimum := CanonicalBound(d.hasMinimum, d.minimum, Width(d)),
       maximum := CanonicalBound(d.hasMaximum, d.maximum, Width(d)))
  }

  lemma OverlayNothing(a: seq<byte>)
    ensures Overlay(a, []) == a
  {}

  lemma ReadBoundOfBound(present: bool, value: seq<byte>, width: nat, rest: seq<byte>)
    requires width <= 16 && |value| == 16
    ensures var b := Bound(present, value, width);
      ReadBound(present, Fill(16), width, b + rest) == (CanonicalBound(present, value, width), rest)
  {
    Split(Bound(present, value, width), rest);
    OverlayNothing(Fill(16));
  }

  /** A declaration's header and tail give back the declaration, whatever follows. */
  lemma HeaderRoundTrip(d: Decl)
    ensures DecodeHeader(EncodeHeader(d)) == d.(neutral := Fill(16), minimum := Fill(16), maximum := Fill(16))
  {
    hide PackLow, PackHigh, UnpackType, UnpackWidth, UnpackFlag;
    UnpackPack(d.typ, d.width, d.isArray, d.isSigned, d.hasNeutral, d.hasMinimum, d.hasMaximum);
  }

  lemma TailRoundTrip(d: Decl, rest: seq<byte>)
    requires WellFormed(d)
    ensures DecodeTail(DecodeHeader(EncodeHeader(d)), EncodeTail(d) + rest) == (Canonical(d), rest)
  {
    HeaderRoundTrip(d);
    TailLength(d);
    hide EncodeHeader, DecodeHeader, Overlay;
    var w := Width(d);
    var n, lo, hi := Bound(d.hasNeutral, d.neutral, w), Bound(d.hasMinimum, d.minimum, w), Bound(d.hasMaximum, d.maximum, w);
    Regroup(n, lo, hi);
    Regroup(n, lo + hi, rest);
    Regroup(lo, hi, rest);
    ReadBoundOfBound(d.hasNeutral, d.neutral, w, lo + (hi + rest));
    ReadBoundOfBound(d.hasMinimum, d.minimum, w, hi + rest);
    ReadBoundOfBound(d.hasMaximum, d.maximum, w, rest);
    hide ReadBound, Bound, CanonicalBound;
  }

  /** `DataDeclarationBase<>::operator ==`: array flag and array-size width are not compared. */
  predicate Same(a: Decl, b: Decl) {
    && a.typ == b.typ && a.width == b.width && a.isSigned == b.isSigned
    && a.hasNeutral == b.hasNeutral && SameBound(a.hasNeutral, a.neutral, b.neutral, Width(a))
    && a.hasMinimum == b.hasMinimum && SameBound(a.hasMinimum, a.minimum, b.minimum, Width(a))
    && a.hasMaximum == b.hasMaximum && SameBound(a.hasMaximum, a.maximum, b.maximum, Width(a))
  }

  predicate SameBound(present: bool, a: seq<byte>, b: seq<byte>, width: nat) {
    present && width <= |a| && width <= |b| ==> a[..width] == b[..width]
  }

  lemma CanonicalBoundKeeps(present: bool, value: seq<byte>, width: nat)
    requires present && width <= 16 && |value| == 16
    ensures CanonicalBound(present, value, width)[..width] == value[..width]
  {}

  /** Declarations the peer cannot tell apart are equal. */
  lemma CanonicalDetermines(a: Decl, b: Decl)
    requires WellFormed(a) && WellFormed(b) && Canonical(a) == Canonical(b)
    ensures Same(a, b)
  {
    hide Overlay, CanonicalBound;
    var w := Width(a);
    if a.hasNeutral { CanonicalBoundKeeps(true, a.neutral, w); CanonicalBoundKeeps(true, b.neutral, w); }
    if a.hasMinimum { CanonicalBoundKeeps(true, a.minimum, w); CanonicalBoundKeeps(true, b.minimum, w); }
    if a.hasMaximum { CanonicalBoundKeeps(true, a.maximum, w); CanonicalBoundKeeps(true, b.maximum, w); }
  }

  lemma CanonicalIsSame(d: Decl)
    requires WellFormed(d)
    ensures Same(d, Canonical(d)) && WellFormed(Canonical(d))
    ensures Canonical(Canonical(d)) == Canonical(d)
  {
    var w := Width(d);
    if d.hasNeutral { CanonicalBoundKeeps(true, d.neutral, w); }
    if d.hasMinimum { CanonicalBoundKeeps(true, d.minimum, w); }
    if d.hasMaximum { CanonicalBoundKeeps(true, d.maximum, w); }
  }
}
