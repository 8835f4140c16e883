/** Integers and strings as bytes: little-endian fixed width, base-128 varints, and
    length-prefixed strings. */
module Coding {
  type byte = b: int | 0 <= b < 256
  type Bytes = seq<byte>
  type uint32 = n: int | 0 <= n < 0x1_0000_0000
  type uint64 = n: int | 0 <= n < 0x1_0000_0000_0000_0000

  function Pow256(n: nat): nat {
    if n == 0 then 1 else 256 * Pow256(n - 1)
  }

  /** The low `n` bytes of a number, least significant first. */
  function Fixed(v: nat, n: nat): (b: Bytes)
    ensures |b| == n
  {
    if n == 0 then [] else [v % 256] + Fixed(v / 256, n - 1)
  }

  function DecodeFixed(b: Bytes): nat {
    if b == [] then 0 else b[0] + 256 * DecodeFixed(b[1..])
  }

  lemma {:induction false} FixedBound(b: Bytes)
    ensures DecodeFixed(b) < Pow256(|b|)
  {
    if b != [] {
      FixedBound(b[1..]);
    }
  }

  lemma {:induction false} FixedRoundTrip(v: nat, n: nat)
    requires v < Pow256(n)
    ensures DecodeFixed(Fixed(v, n)) == v
  {
    if n > 0 {
      FixedRoundTrip(v / 256, n - 1);
      assert Fixed(v, n)[1..] == Fixed(v / 256, n - 1);
    }
  }

  /** Every four bytes are the encoding of what they decode to. */
  lemma {:induction false} FixedOfDecode(b: Bytes)
    ensures Fixed(DecodeFixed(b), |b|) == b
  {
    if b != [] {
      FixedOfDecode(b[1..]);
      assert DecodeFixed(b) % 256 == b[0] && DecodeFixed(b) / 256 == DecodeFixed(b[1..]);
    }
  }

  lemma Widths()
    ensures Pow256(4) == 0x1_0000_0000 && Pow256(8) == 0x1_0000_0000_0000_0000
  {
    assert Pow256(2) == 0x1_0000;
    assert Pow256(4) == 256 * (256 * Pow256(2));
    assert Pow256(6) == 256 * (256 * Pow256(4));
    assert Pow256(8) == 256 * (256 * Pow256(6));
  }

  function Zeros(n: nat): (b: Bytes)
    ensures |b| == n
  {
    seq(n, _ => 0)
  }

  function Fixed32(v: uint32): Bytes { Fixed(v, 4) }

  function Fixed64(v: uint64): Bytes { Fixed(v, 8) }

  function DecodeFixed32(b: Bytes): uint32
    requires |b| == 4
  {
    FixedBound(b);
    Widths();
    DecodeFixed(b)
  }

  function DecodeFixed64(b: Bytes): uint64
    requires |b| == 8
  {
    FixedBound(b);
    Widths();
    DecodeFixed(b)
  }

  lemma Fixed32RoundTrip(v: uint32)
    ensures DecodeFixed(Fixed32(v)) == v
  {
    Widths();
    FixedRoundTrip(v, 4);
  }

  lemma Fixed64RoundTrip(v: uint64)
    ensures DecodeFixed(Fixed64(v)) == v
  {
    Widths();
    FixedRoundTrip(v, 8);
  }

  function Pow2(n: nat): (p: nat)
    ensures p > 0
  {
    if n == 0 then 1 else 2 * Pow2(n - 1)
  }

  // ----- Bits -----------------------------------------------------------------------------------------

  /** The bits that are set in either number. */
  function Or(a: nat, b: nat): nat {
    if a == 0 then b else if b == 0 then a else (if a % 2 == 1 || b % 2 == 1 then 1 else 0) + 2 * Or(a / 2, b / 2)
  }

  /** The bits that are set in both numbers. */
  function And(a: nat, b: nat): nat {
    if a == 0 || b == 0 then 0 else (if a % 2 == 1 && b % 2 == 1 then 1 else 0) + 2 * And(a / 2, b / 2)
  }

  lemma {:induction false} AndIsSmall(a: nat, b: nat)
    ensures And(a, b) <= b
  {
    if a != 0 && b != 0 { AndIsSmall(a / 2, b / 2); }
  }

  ghost predicate IsPow2(n: nat) {
    exists k: nat :: n == Pow2(k)
  }

  /** Masking with the bits below a power of two is the remainder. */
  lemma {:induction false} MaskIsRemainder(a: nat, k: nat)
    ensures And(a, Pow2(k) - 1) == a % Pow2(k)
  {
    if k > 0 {
      var p := Pow2(k - 1);
      MaskIsRemainder(a / 2, k - 1);
      HalfRemainder(a, p);
      assert (2 * p - 1) / 2 == p - 1 && (2 * p - 1) % 2 == 1;
    }
  }

  lemma HalfRemainder(a: nat, p: nat)
    requires p > 0
    ensures a % (2 * p) == 2 * ((a / 2) % p) + a % 2
  {
    var q, r := (a / 2) / p, (a / 2) % p;
    assert a / 2 == q * p + r;
    RemainderIs(a, 2 * p, q, 2 * r + a % 2);
  }

  lemma RemainderIs(a: nat, m: nat, q: nat, r: nat)
    requires r < m && a == q * m + r
    ensures a % m == r
  {
    if q < a / m { ProductGrows(q, a / m, m); }
    if a / m < q { ProductGrows(a / m, q, m); }
  }

  lemma ProductGrows(x: nat, y: nat, m: nat)
    requires x < y
    ensures x * m + m <= y * m
  {
    assert (x + 1) * m <= y * m;
  }

  lemma {:induction false} OrAdds(a: nat, x: nat, k: nat)
    requires a < Pow2(k)
    ensures Or(a, x * Pow2(k)) == a + x * Pow2(k)
  {
    if k > 0 {
      Doubled(x, Pow2(k - 1));
      if a != 0 && x * Pow2(k) != 0 {
        OrAdds(a / 2, x, k - 1);
      }
    }
  }

  lemma Doubled(x: nat, p: nat)
    ensures x * (2 * p) == 2 * (x * p)
  {
  }

  // ----- Varints -------------------------------------------------------------------------------------

  /** Seven bits a byte, low bits first, the high bit set on all but the last byte. */
  function Varint(v: nat): (b: Bytes)
    ensures |b| > 0
  {
    if v < 128 then [v] else [v % 128 + 128] + Varint(v / 128)
  }

  /** The encoder for 32 bits picks the length by comparison and writes the bytes out. */
  function EncodeVarint32(v: uint32): Bytes {
    if v < 0x80 then [v]
    else if v < 0x4000 then [v % 128 + 128, v / 0x80]
    else if v < 0x20_0000 then [v % 128 + 128, v / 0x80 % 128 + 128, v / 0x4000]
    else if v < 0x1000_0000 then [v % 128 + 128, v / 0x80 % 128 + 128, v / 0x4000 % 128 + 128, v / 0x20_0000]
    else [v % 128 + 128, v / 0x80 % 128 + 128, v / 0x4000 % 128 + 128, v / 0x20_0000 % 128 + 128, v / 0x1000_0000]
  }

  lemma EncodeVarint32IsVarint(v: uint32)
    ensures EncodeVarint32(v) == Varint(v)
  {
    var a, b, c, d := v / 0x80, v / 0x4000, v / 0x20_0000, v / 0x1000_0000;
    assert a / 128 == b && b / 128 == c && c / 128 == d;
    VarintUnfold(v);
    VarintUnfold(a);
    VarintUnfold(b);
    VarintUnfold(c);
    VarintUnfold(d);
  }

  lemma VarintUnfold(v: nat)
    ensures Varint(v) == if v < 128 then [v] else [v % 128 + 128] + Varint(v / 128)
  {
  }

  datatype Parsed<+T> = Bad | Good(value: T, rest: Bytes)

  /** The loop of the decoders, which give up after `left` bytes. `scale` is the weight of the
      next byte. */
  function GetVarintFrom(b: Bytes, left: nat, scale: nat, acc: nat): (p: Parsed<nat>)
    ensures p.Good? ==> |p.rest| < |b|
  {
    if left == 0 || b == [] then Bad
    else if b[0] >= 128 then GetVarintFrom(b[1..], left - 1, scale * 128, acc + (b[0] - 128) * scale)
    else Good(acc + b[0] * scale, b[1..])
  }

  /** At most five bytes, of which 32 bits are kept. */
  function GetVarint32(b: Bytes): (p: Parsed<nat>)
    ensures p.Good? ==> p.value < 0x1_0000_0000 && |p.rest| < |b|
  {
    match GetVarintFrom(b, 5, 1, 0)
    case Bad => Bad
    case Good(v, rest) => Good(v % 0x1_0000_0000, rest)
  }

  /** At most ten bytes, of which 64 bits are kept. */
  function GetVarint64(b: Bytes): (p: Parsed<uint64>)
    ensures p.Good? ==> |p.rest| < |b|
  {
    match GetVarintFrom(b, 10, 1, 0)
    case Bad => Bad
    case Good(v, rest) => Good(v % 0x1_0000_0000_0000_0000, rest)
  }

  /** How many bytes a varint may still take before `n` bytes are used up. */
  function Pow128(n: nat): nat {
    if n == 0 then 1 else 128 * Pow128(n - 1)
  }

  lemma {:induction false} VarintLength(v: nat, n: nat)
    requires v < Pow128(n) && n > 0
    ensures |Varint(v)| <= n
  {
    VarintUnfold(v);
    if v >= 128 {
      VarintLength(v / 128, n - 1);
    }
  }

  lemma {:induction false} VarintStep(v: nat, scale: nat)
    ensures (v % 128) * scale + (v / 128) * (scale * 128) == v * scale
  {
    assert v == 128 * (v / 128) + v % 128;
    calc {
      v * scale;
      (128 * (v / 128) + v % 128) * scale;
      128 * (v / 128) * scale + (v % 128) * scale;
      (v / 128) * (scale * 128) + (v % 128) * scale;
    }
  }

  lemma {:induction false} GetVarintReads(v: nat, left: nat, scale: nat, acc: nat, rest: Bytes)
    requires 0 < left && v < Pow128(left)
    ensures GetVarintFrom(Varint(v) + rest, left, scale, acc) == Good(acc + v * scale, rest)
    decreases v
  {
    var b := Varint(v) + rest;
    if v < 128 {
      assert b[1..] == rest;
    } else {
      assert v < 128 * Pow128(left - 1);
      assert Varint(v) == [v % 128 + 128] + Varint(v / 128);
      assert b[1..] == Varint(v / 128) + rest;
      VarintStep(v, scale);
      GetVarintReads(v / 128, left - 1, scale * 128, acc + (v % 128) * scale, rest);
    }
  }

  lemma Varint32RoundTrip(v: uint32, rest: Bytes)
    ensures GetVarint32(EncodeVarint32(v) + rest) == Good(v, rest)
  {
    EncodeVarint32IsVarint(v);
    assert Pow128(3) == 128 * (128 * (128 * Pow128(0)));
    assert Pow128(5) == 128 * (128 * Pow128(3));
    GetVarintReads(v, 5, 1, 0, rest);
  }

  lemma Wraps(b: Bytes, v: uint64, rest: Bytes)
    requires GetVarintFrom(b, 10, 1, 0) == Good(v, rest)
    ensures GetVarint64(b) == Good(v, rest)
  {
  }

  lemma TenBytes(n: nat)
    requires n == 10
    ensures 0x1_0000_0000_0000_0000 <= Pow128(n)
  {
    assert Pow128(3) == 128 * (128 * (128 * Pow128(0)));
    assert Pow128(6) == 128 * (128 * (128 * Pow128(3)));
    assert Pow128(9) == 128 * (128 * (128 * Pow128(6)));
  }

  lemma Varint64RoundTrip(v: uint64, rest: Bytes)
    ensures GetVarint64(Varint(v) + rest) == Good(v, rest)
  {
    var ten, one: nat := 10, 1;
    TenBytes(ten);
    GetVarintReads(v, ten, one, 0, rest);
    Wraps(Varint(v) + rest, v, rest);
  }

  lemma SliceOfSlice(b: Bytes, at: nat, end: nat, i: nat, j: nat)
    requires at <= end <= |b| && i <= j <= end - at
    ensures b[at..end][i..j] == b[at + i..at + j]
  {
    var x, y := b[at..end][i..j], b[at + i..at + j];
    assert |x| == |y|;
    assert forall k | 0 <= k < |x| :: x[k] == b[at..end][i + k] == b[at + i + k] == y[k];
  }

  // ----- Length-prefixed strings -----------------------------------------------------------------

  type Slice = b: Bytes | |b| < 0x1_0000_0000

  function PutLengthPrefixed(s: Slice): Bytes {
    EncodeVarint32(|s|) + s
  }

  function GetLengthPrefixed(b: Bytes): (p: Parsed<Slice>)
    ensures p.Good? ==> |p.rest| < |b|
  {
    match GetVarint32(b)
    case Bad => Bad
    case Good(n, rest) => if n <= |rest| then Good(rest[..n], rest[n..]) else Bad
  }

  lemma LengthPrefixedRoundTrip(s: Slice, rest: Bytes)
    ensures GetLengthPrefixed(PutLengthPrefixed(s) + rest) == Good(s, rest)
  {
    assert PutLengthPrefixed(s) + rest == EncodeVarint32(|s|) + (s + rest);
    Varint32RoundTrip(|s|, s + rest);
    assert (s + rest)[..|s|] == s && (s + rest)[|s|..] == rest;
  }
}
