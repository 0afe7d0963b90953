/** Bytes as the wire carries them, and the splitting of byte strings. */
module Bytes {
  type byte = bv8

  /** Conversion of a size to `uint8_t`, which keeps the low eight bits. */
  function ToByte(n: nat): byte { (n % 256) as bv8 }

  function ByteValue(b: byte): (n: nat)
    ensures n < 256
  {
    b as nat
  }

  lemma ByteRoundTrip(n: nat)
    requires n < 256
    ensures ByteValue(ToByte(n)) == n
  {}

  /** The low eight bits. */
  lemma LowEightBits(n: nat)
    ensures ByteValue(ToByte(n)) == n % 256
  {
    SameLowBits(n);
    ByteRoundTrip(n % 256);
    hide ToByte, ByteValue;
  }

  lemma SameLowBits(n: nat)
    ensures ToByte(n) == ToByte(n % 256)
  {}

  lemma ValueRoundTrip(b: byte)
    ensures ToByte(ByteValue(b)) == b
  {
    ByteRoundTrip(ByteValue(b));
    SameValue(ToByte(ByteValue(b)), b);
  }

  lemma SameValue(a: byte, b: byte)
    requires ByteValue(a) == ByteValue(b)
    ensures a == b
  {}

  function Fill(n: nat): (r: seq<byte>)
    ensures |r| == n && forall i :: 0 <= i < n ==> r[i] == 0
  {
    seq(n, _ => 0)
  }

  lemma Split<T>(a: seq<T>, b: seq<T>)
    ensures (a + b)[..|a|] == a && (a + b)[|a|..] == b
  {}

  lemma Regroup<T>(a: seq<T>, b: seq<T>, c: seq<T>)
    ensures (a + b) + c == a + (b + c)
  {}
}

/** A counted sequence of records, each of which marks its own end. */
module Records {
  import opened Bytes

  function EncodeAll<T>(enc: T -> seq<byte>, xs: seq<T>): seq<byte> {
    if xs == [] then [] else enc(xs[0]) + EncodeAll(enc, xs[1..])
  }

  function DecodeAll<T>(dec: seq<byte> -> (T, seq<byte>), n: nat, s: seq<byte>): (r: (seq<T>, seq<byte>))
    ensures |r.0| == n
  {
    if n == 0 then ([], s)
    else
      var (x, s') := dec(s);
      var (xs, s'') := DecodeAll(dec, n - 1, s');
      ([x] + xs, s'')
  }

  function MapAll<T>(f: T -> T, xs: seq<T>): (r: seq<T>)
    ensures |r| == |xs| && forall i :: 0 <= i < |xs| ==> r[i] == f(xs[i])
  {
    if xs == [] then [] else [f(xs[0])] + MapAll(f, xs[1..])
  }

  /** Whatever follows the encoding of x, decoding yields x in its decoded form and stops there. */
  ghost predicate SelfDelimiting<T(!new)>(enc: T -> seq<byte>, dec: seq<byte> -> (T, seq<byte>), canon: T -> T, x: T) {
    forall rest: seq<byte> :: dec(enc(x) + rest) == (canon(x), rest)
  }

  /** Self-delimiting records make self-delimiting lists. */
  lemma {:induction false} ListsDelimit<T(!new)>(enc: T -> seq<byte>, dec: seq<byte> -> (T, seq<byte>), canon: T -> T,
                                           xs: seq<T>, rest: seq<byte>)
    requires forall x :: x in xs ==> SelfDelimiting(enc, dec, canon, x)
    ensures DecodeAll(dec, |xs|, EncodeAll(enc, xs) + rest) == (MapAll(canon, xs), rest)
    decreases xs
  {
    if xs == [] {
      assert EncodeAll(enc, xs) + rest == rest;
    } else {
      var tail := EncodeAll(enc, xs[1..]) + rest;
      Regroup(enc(xs[0]), EncodeAll(enc, xs[1..]), rest);
      assert SelfDelimiting(enc, dec, canon, xs[0]);
      assert dec(enc(xs[0]) + tail) == (canon(xs[0]), tail);
      ListsDelimit(enc, dec, canon, xs[1..], rest);
    }
  }

  lemma {:induction false} EncodeAllConcat<T>(enc: T -> seq<byte>, xs: seq<T>, ys: seq<T>)
    ensures EncodeAll(enc, xs + ys) == EncodeAll(enc, xs) + EncodeAll(enc, ys)
    decreases xs
  {
    if xs == [] {
      assert xs + ys == ys;
    } else {
      assert (xs + ys)[1..] == xs[1..] + ys;
      EncodeAllConcat(enc, xs[1..], ys);
    }
  }

  lemma {:induction false} DecodeAllSplit<T>(dec: seq<byte> -> (T, seq<byte>), m: nat, n: nat, s: seq<byte>)
    ensures var (xs, s') := DecodeAll(dec, m, s); var (ys, s'') := DecodeAll(dec, n, s');
            DecodeAll(dec, m + n, s) == (xs + ys, s'')
    decreases m
  {
    if m != 0 {
      var (x, s1) := dec(s);
      DecodeAllSplit(dec, m - 1, n, s1);
      var (xs, s') := DecodeAll(dec, m - 1, s1);
      var (ys, s'') := DecodeAll(dec, n, s');
      assert [x] + (xs + ys) == ([x] + xs) + ys;
    } else {
      var (ys, s'') := DecodeAll(dec, n, s);
      assert [] + ys == ys;
    }
  }

  lemma EncodeAllStep<T>(enc: T -> seq<byte>, xs: seq<T>, i: nat)
    requires i < |xs|
    ensures EncodeAll(enc, xs[..i + 1]) == EncodeAll(enc, xs[..i]) + enc(xs[i])
    ensures |EncodeAll(enc, xs[..i])| + |enc(xs[i])| <= |EncodeAll(enc, xs)|
  {
    assert xs[..i + 1] == xs[..i] + [xs[i]];
    EncodeAllConcat(enc, xs[..i], [xs[i]]);
    assert [xs[i]][1..] == [];
    assert enc(xs[i]) + [] == enc(xs[i]);
    assert xs == xs[..i + 1] + xs[i + 1..];
    EncodeAllConcat(enc, xs[..i + 1], xs[i + 1..]);
  }

  lemma DecodeOne<T>(dec: seq<byte> -> (T, seq<byte>), s: seq<byte>)
    ensures DecodeAll(dec, 1, s) == ([dec(s).0], dec(s).1)
  {
    var (x, s') := dec(s);
    var (xs, s'') := DecodeAll(dec, 0, s');
    assert xs == [] && s'' == s';
    assert [x] + xs == [x];
  }

  lemma DecodeAllStep<T>(dec: seq<byte> -> (T, seq<byte>), i: nat, s: seq<byte>)
    ensures var (xs, s') := DecodeAll(dec, i, s); var (x, s'') := dec(s');
            DecodeAll(dec, i + 1, s) == (xs + [x], s'')
  {
    var (xs, s') := DecodeAll(dec, i, s);
    var (x, s'') := dec(s');
    DecodeOne(dec, s');
    DecodeAllSplit(dec, i, 1, s);
  }
}
