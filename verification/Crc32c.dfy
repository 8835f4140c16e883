/** CRC32C over four interleaved lanes of words, against the loop over single bytes. A word is
    its 32 bits, the lowest first; the tables are given by what they contain. */
module Crc32c {

  type Word = w: seq<bool> | |w| == 32 witness seq(32, _ => false)
  type Octet = b: seq<bool> | |b| == 8 witness seq(8, _ => false)

  function Xor(x: Word, y: Word): Word {
    seq(32, i requires 0 <= i < 32 => x[i] != y[i])
  }

  function Filled(bit: bool): Word {
    seq(32, i requires 0 <= i < 32 => bit)
  }

  const ZERO: Word := Filled(false)
  const ONES: Word := Filled(true)

  function Down(x: Word, n: nat): Word {
    seq(32, i requires 0 <= i < 32 => i + n < 32 && x[i + n])
  }

  /** A byte in the place of byte `k` of a word. */
  function InPlace(b: Octet, k: nat): Word {
    seq(32, i requires 0 <= i < 32 => 8 * k <= i < 8 * k + 8 && b[i - 8 * k])
  }

  function ByteOf(x: Word, k: nat): Octet
    requires k < 4
  {
    x[8 * k..8 * k + 8]
  }

  // ----- The division ---------------------------------------------------------------------------------

  /** The Castagnoli polynomial 0x82f63b78, in bytes from the lowest on. */
  const POLY: Word := [false, false, false, true, true, true, true, false,
                       true, true, false, true, true, true, false, false,
                       false, true, true, false, true, true, true, true,
                       false, true, false, false, false, false, false, true]

  function ShiftOne(x: Word): Word {
    seq(32, i requires 0 <= i < 32 => (i < 31 && x[i + 1]) != (x[0] && POLY[i]))
  }

  function Shift(x: Word, n: nat): Word {
    if n == 0 then x else ShiftOne(Shift(x, n - 1))
  }

  /** How a checksum moves on by one zero byte. */
  function Advance(x: Word): Word {
    Shift(x, 8)
  }

  type Op = Word -> Word

  ghost predicate LinearAt(a: Op, x: Word, y: Word) {
    a(Xor(x, y)) == Xor(a(x), a(y))
  }

  ghost predicate Linear(a: Op) {
    forall x, y :: LinearAt(a, x, y)
  }

  ghost predicate LowClear(x: Word, n: nat) {
    forall i | 0 <= i < n && i < 32 :: !x[i]
  }

  /** A word without its lowest byte just moves down. */
  ghost predicate Drops(a: Op) {
    forall x :: DropsAt(a, x)
  }

  ghost predicate DropsAt(a: Op, x: Word) {
    LowClear(x, 8) ==> a(x) == Down(x, 8)
  }

  lemma {:induction false} ShiftIsLinear(x: Word, y: Word, n: nat)
    ensures Shift(Xor(x, y), n) == Xor(Shift(x, n), Shift(y, n))
  {
    if n > 0 {
      ShiftIsLinear(x, y, n - 1);
      ShiftOneIsLinear(Shift(x, n - 1), Shift(y, n - 1));
    }
  }

  lemma ShiftOneIsLinear(x: Word, y: Word)
    ensures ShiftOne(Xor(x, y)) == Xor(ShiftOne(x), ShiftOne(y))
  {
  }

  lemma {:induction false} ShiftDrops(x: Word, n: nat)
    requires LowClear(x, n) && n <= 32
    ensures Shift(x, n) == Down(x, n)
  {
    if n == 0 {
      assert Down(x, 0) == x;
    } else {
      ShiftDrops(x, n - 1);
      assert !Down(x, n - 1)[0];
      assert ShiftOne(Down(x, n - 1)) == Down(x, n);
    }
  }

  lemma AdvanceWorks()
    ensures Linear(Advance) && Drops(Advance)
  {
    forall x, y ensures LinearAt(Advance, x, y) {
      ShiftIsLinear(x, y, 8);
    }
    forall x ensures DropsAt(Advance, x) {
      if LowClear(x, 8) { ShiftDrops(x, 8); }
    }
  }

  // ----- Bytes and words ---------------------------------------------------------------------------

  /** The loop over single bytes. */
  function Fold(a: Op, l: Word, data: seq<Octet>): Word {
    if data == [] then l else a(Xor(Fold(a, l, data[..|data| - 1]), InPlace(data[|data| - 1], 0)))
  }

  lemma {:induction false} FoldConcat(a: Op, l: Word, x: seq<Octet>, y: seq<Octet>)
    ensures Fold(a, Fold(a, l, x), y) == Fold(a, l, x + y)
  {
    if y == [] {
      assert x + y == x;
    } else {
      assert (x + y)[..|x + y| - 1] == x + y[..|y| - 1];
      FoldConcat(a, l, x, y[..|y| - 1]);
    }
  }

  function N(a: Op, x: Word, n: nat): Word {
    if n == 0 then x else a(N(a, x, n - 1))
  }

  lemma {:induction false} NIsLinear(a: Op, x: Word, y: Word, n: nat)
    requires Linear(a)
    ensures N(a, Xor(x, y), n) == Xor(N(a, x, n), N(a, y, n))
  {
    if n > 0 {
      NIsLinear(a, x, y, n - 1);
      assert LinearAt(a, N(a, x, n - 1), N(a, y, n - 1));
    }
  }

  lemma {:induction false} NAdds(a: Op, x: Word, n: nat, m: nat)
    ensures N(a, N(a, x, n), m) == N(a, x, n + m)
  {
    if m > 0 {
      NAdds(a, x, n, m - 1);
    }
  }

  /** One byte of the table, and the rest of the word moved down. */
  lemma TableStep(a: Op, x: Word)
    requires Linear(a) && Drops(a)
    ensures Xor(a(InPlace(ByteOf(x, 0), 0)), Down(x, 8)) == a(x)
  {
    var high: Word := seq(32, i requires 0 <= i < 32 => i >= 8 && x[i]);
    assert Xor(InPlace(ByteOf(x, 0), 0), high) == x;
    assert LinearAt(a, InPlace(ByteOf(x, 0), 0), high) && DropsAt(a, high);
    assert Down(high, 8) == Down(x, 8);
  }

  function XorByte(x: Octet, y: Octet): Octet {
    seq(8, i requires 0 <= i < 8 => x[i] != y[i])
  }

  lemma ByteOfXor(x: Word, b: Octet)
    ensures ByteOf(Xor(x, InPlace(b, 0)), 0) == XorByte(ByteOf(x, 0), b)
    ensures Down(Xor(x, InPlace(b, 0)), 8) == Down(x, 8)
  {
  }

  function Join(b0: Octet, b1: Octet, b2: Octet, b3: Octet): Word {
    seq(32, i requires 0 <= i < 32 =>
      if i < 8 then b0[i] else if i < 16 then b1[i - 8] else if i < 24 then b2[i - 16] else b3[i - 24])
  }

  /** Four bytes as a little-endian word. */
  function WordAt(data: seq<Octet>, p: nat): Word
    requires p + 4 <= |data|
  {
    Join(data[p], data[p + 1], data[p + 2], data[p + 3])
  }

  /** A byte that is still to come may be added ahead of its time, higher up in the word. */
  lemma Ahead(a: Op, x: Word, b: Octet, k: nat)
    requires Linear(a) && Drops(a) && k < 3
    ensures a(Xor(x, InPlace(b, k + 1))) == Xor(a(x), InPlace(b, k))
  {
    var y := InPlace(b, k + 1);
    assert LinearAt(a, x, y) && DropsAt(a, y);
    assert Down(y, 8) == InPlace(b, k);
  }

  lemma FourBytes(a: Op, f: Word, b0: Octet, b1: Octet, b2: Octet, b3: Octet)
    requires Linear(a) && Drops(a)
    ensures a(Xor(a(Xor(a(Xor(a(Xor(f, InPlace(b0, 0))), InPlace(b1, 0))), InPlace(b2, 0))), InPlace(b3, 0)))
         == N(a, Xor(f, Join(b0, b1, b2, b3)), 4)
  {
    var x0 := Xor(f, InPlace(b0, 0));
    var x1 := Xor(x0, InPlace(b1, 1));
    var x2 := Xor(x1, InPlace(b2, 2));
    var x3 := Xor(x2, InPlace(b3, 3));
    assert x3 == Xor(f, Join(b0, b1, b2, b3));
    Ahead(a, x0, b1, 0);
    Ahead(a, x1, b2, 1);
    Ahead(a, a(x1), b2, 0);
    Ahead(a, x2, b3, 2);
    Ahead(a, a(x2), b3, 1);
    Ahead(a, a(a(x2)), b3, 0);
    FourTimes(a, x3);
  }

  lemma FourTimes(a: Op, x: Word)
    ensures N(a, x, 4) == a(a(a(a(x))))
  {
    assert N(a, x, 0) == x && N(a, x, 1) == a(N(a, x, 0)) && N(a, x, 2) == a(N(a, x, 1));
    assert N(a, x, 3) == a(N(a, x, 2)) && N(a, x, 4) == a(N(a, x, 3));
  }

  lemma FoldOne(a: Op, l: Word, data: seq<Octet>, p: nat)
    requires p < |data|
    ensures Fold(a, l, data[..p + 1]) == a(Xor(Fold(a, l, data[..p]), InPlace(data[p], 0)))
  {
    assert data[..p + 1][..p] == data[..p];
  }

  /** Four bytes in one go. */
  lemma FoldWord(a: Op, l: Word, data: seq<Octet>, p: nat)
    requires Linear(a) && Drops(a) && p + 4 <= |data|
    ensures Fold(a, l, data[..p + 4]) == N(a, Xor(Fold(a, l, data[..p]), WordAt(data, p)), 4)
  {
    FoldOne(a, l, data, p);
    FoldOne(a, l, data, p + 1);
    FoldOne(a, l, data, p + 2);
    FoldOne(a, l, data, p + 3);
    FourBytes(a, Fold(a, l, data[..p]), data[p], data[p + 1], data[p + 2], data[p + 3]);
  }

  // ----- Lanes -----------------------------------------------------------------------------------------

  /** What the four lanes stand for: each is four bytes further behind. */
  function Lanes(a: Op, c0: Word, c1: Word, c2: Word, c3: Word): Word {
    N(a, Xor(c3, N(a, Xor(c2, N(a, Xor(c1, N(a, c0, 4)), 4)), 4)), 4)
  }

  /** The next word goes to the lane that is furthest behind, which thereby gets ahead. */
  lemma Rotate(a: Op, c0: Word, c1: Word, c2: Word, c3: Word, w: Word)
    requires Linear(a)
    ensures N(a, Xor(Lanes(a, c0, c1, c2, c3), w), 4) == Lanes(a, c1, c2, c3, Xor(w, N(a, c0, 16)))
  {
    LanesAdd(a, c1, c2, c3, c0);
    NAdds(a, c0, 4, 4);
    NAdds(a, c0, 8, 4);
    NAdds(a, c0, 12, 4);
    var rest := N(a, Xor(c3, N(a, Xor(c2, N(a, c1, 4)), 4)), 4);
    assert Lanes(a, c0, c1, c2, c3) == Xor(rest, N(a, c0, 16));
    Regroup(rest, N(a, c0, 16), w);
  }

  lemma Regroup(x: Word, y: Word, z: Word)
    ensures Xor(Xor(x, y), z) == Xor(Xor(z, y), x)
  {
  }

  lemma Swap(x: Word, y: Word, z: Word)
    ensures Xor(x, Xor(y, z)) == Xor(Xor(x, y), z)
  {
  }

  /** The lane furthest behind, taken out of the sum. */
  lemma LanesAdd(a: Op, c1: Word, c2: Word, c3: Word, c0: Word)
    requires Linear(a)
    ensures Lanes(a, c0, c1, c2, c3)
         == Xor(N(a, Xor(c3, N(a, Xor(c2, N(a, c1, 4)), 4)), 4), N(a, N(a, N(a, N(a, c0, 4), 4), 4), 4))
  {
    var x0 := N(a, c0, 4);
    NIsLinear(a, c1, x0, 4);
    var y1, x1 := N(a, c1, 4), N(a, x0, 4);
    Swap(c2, y1, x1);
    NIsLinear(a, Xor(c2, y1), x1, 4);
    var y2, x2 := N(a, Xor(c2, y1), 4), N(a, x1, 4);
    Swap(c3, y2, x2);
    NIsLinear(a, Xor(c3, y2), x2, 4);
  }

  /** A lane moved on by sixteen bytes, by four tables, one for each of its bytes. */
  function Stride(a: Op, x: Word): Word {
    Xor(Xor(Xor(N(a, InPlace(ByteOf(x, 0), 0), 16), N(a, InPlace(ByteOf(x, 1), 1), 16)),
            N(a, InPlace(ByteOf(x, 2), 2), 16)), N(a, InPlace(ByteOf(x, 3), 3), 16))
  }

  lemma StrideAdvances(a: Op, x: Word)
    requires Linear(a)
    ensures Stride(a, x) == N(a, x, 16)
  {
    var b0, b1, b2, b3 := InPlace(ByteOf(x, 0), 0), InPlace(ByteOf(x, 1), 1), InPlace(ByteOf(x, 2), 2),
        InPlace(ByteOf(x, 3), 3);
    assert Xor(Xor(Xor(b0, b1), b2), b3) == x;
    NIsLinear(a, Xor(Xor(b0, b1), b2), b3, 16);
    NIsLinear(a, Xor(b0, b1), b2, 16);
    NIsLinear(a, b0, b1, 16);
  }

  // ----- The fast computation ----------------------------------------------------------------------

  method StepByte(a: Op, l: Word, b: Octet) returns (r: Word)
    requires Linear(a) && Drops(a)
    ensures r == a(Xor(l, InPlace(b, 0)))
  {
    var c := XorByte(ByteOf(l, 0), b);
    r := Xor(a(InPlace(c, 0)), Down(l, 8));
    ByteOfXor(l, b);
    TableStep(a, Xor(l, InPlace(b, 0)));
  }

  /** Four bytes that are in a word already. */
  method StepWord(a: Op, l: Word, c: Word) returns (w: Word)
    requires Linear(a) && Drops(a)
    ensures w == N(a, Xor(c, l), 4)
  {
    w := Xor(c, l);
    for i := 0 to 4
      invariant w == N(a, Xor(c, l), i)
    {
      TableStep(a, w);
      w := Xor(a(InPlace(ByteOf(w, 0), 0)), Down(w, 8));
    }
  }

  /** One word of the data for a lane. */
  method StepLane(a: Op, data: seq<Octet>, p: nat, c: Word) returns (r: Word)
    requires Linear(a) && p + 4 <= |data|
    ensures r == Xor(WordAt(data, p), N(a, c, 16))
  {
    r := Xor(WordAt(data, p), Stride(a, c));
    StrideAdvances(a, c);
  }

  method Combine(a: Op, c0: Word, c1: Word, c2: Word, c3: Word) returns (l: Word)
    requires Linear(a) && Drops(a)
    ensures l == Lanes(a, c0, c1, c2, c3)
  {
    l := ZERO;
    assert Xor(c0, ZERO) == c0;
    l := StepWord(a, l, c0);
    l := StepWord(a, l, c1);
    l := StepWord(a, l, c2);
    l := StepWord(a, l, c3);
  }

  /** The lanes stand for the checksum of the first `p` bytes. */
  ghost predicate Reached(a: Op, l: Word, data: seq<Octet>, p: nat, c0: Word, c1: Word, c2: Word, c3: Word) {
    p <= |data| && Fold(a, l, data[..p]) == Lanes(a, c0, c1, c2, c3)
  }

  lemma LanesStart(a: Op, l: Word, data: seq<Octet>, p: nat)
    requires Linear(a) && Drops(a) && p + 16 <= |data|
    ensures Reached(a, l, data, p + 16, Xor(WordAt(data, p), Fold(a, l, data[..p])),
                    WordAt(data, p + 4), WordAt(data, p + 8), WordAt(data, p + 12))
  {
    FoldWord(a, l, data, p);
    FoldWord(a, l, data, p + 4);
    FoldWord(a, l, data, p + 8);
    FoldWord(a, l, data, p + 12);
    Turn(Fold(a, l, data[..p]), WordAt(data, p));
    Turn(Fold(a, l, data[..p + 4]), WordAt(data, p + 4));
    Turn(Fold(a, l, data[..p + 8]), WordAt(data, p + 8));
    Turn(Fold(a, l, data[..p + 12]), WordAt(data, p + 12));
  }

  lemma Turn(x: Word, y: Word)
    ensures Xor(x, y) == Xor(y, x)
  {
  }

  lemma LanesMove(a: Op, l: Word, data: seq<Octet>, p: nat, c0: Word, c1: Word, c2: Word, c3: Word)
    requires Linear(a) && Drops(a) && p + 4 <= |data| && Reached(a, l, data, p, c0, c1, c2, c3)
    ensures Reached(a, l, data, p + 4, c1, c2, c3, Xor(WordAt(data, p), N(a, c0, 16)))
  {
    FoldWord(a, l, data, p);
    Rotate(a, c0, c1, c2, c3, WordAt(data, p));
  }

  /** One swath: every lane takes its own word. */
  method StepSwath(a: Op, ghost l: Word, data: seq<Octet>, p: nat, c0: Word, c1: Word, c2: Word, c3: Word)
      returns (d0: Word, d1: Word, d2: Word, d3: Word)
    requires Linear(a) && Drops(a) && p + 16 <= |data| && Reached(a, l, data, p, c0, c1, c2, c3)
    ensures Reached(a, l, data, p + 16, d0, d1, d2, d3)
  {
    d0 := StepLane(a, data, p, c0);
    d1 := StepLane(a, data, p + 4, c1);
    d2 := StepLane(a, data, p + 8, c2);
    d3 := StepLane(a, data, p + 12, c3);
    LanesMove(a, l, data, p, c0, c1, c2, c3);
    LanesMove(a, l, data, p + 4, c1, c2, c3, d0);
    LanesMove(a, l, data, p + 8, c2, c3, d0, d1);
    LanesMove(a, l, data, p + 12, c3, d0, d1, d2);
  }

  /** The part that works on words, from byte `from` on. */
  method Stripes(a: Op, ghost l0: Word, l: Word, data: seq<Octet>, from: nat) returns (r: Word, p: nat)
    requires Linear(a) && Drops(a) && from + 16 <= |data| && l == Fold(a, l0, data[..from])
    ensures p <= |data| < p + 4 && r == Fold(a, l0, data[..p])
  {
    p := from;
    var c0, c1, c2, c3 := Xor(WordAt(data, p), l), WordAt(data, p + 4), WordAt(data, p + 8), WordAt(data, p + 12);
    LanesStart(a, l0, data, p);
    p := p + 16;
    while |data| - p >= 16
      invariant p <= |data|
      invariant Reached(a, l0, data, p, c0, c1, c2, c3)
    {
      c0, c1, c2, c3 := StepSwath(a, l0, data, p, c0, c1, c2, c3);
      p := p + 16;
    }
    while |data| - p >= 4
      invariant p <= |data|
      invariant Reached(a, l0, data, p, c0, c1, c2, c3)
    {
      var next := StepLane(a, data, p, c0);
      LanesMove(a, l0, data, p, c0, c1, c2, c3);
      c0, c1, c2, c3 := c1, c2, c3, next;
      p := p + 4;
    }
    r := Combine(a, c0, c1, c2, c3);
  }

  /** The checksum of more data, whatever the buffer's alignment. */
  method ExtendWith(a: Op, crc: Word, data: seq<Octet>, misalignment: nat) returns (r: Word)
    requires Linear(a) && Drops(a)
    ensures r == Extended(a, crc, data)
  {
    var l := Xor(crc, ONES);
    ghost var l0 := l;
    var p := 0;
    var x := (4 - misalignment % 4) % 4;
    assert data[..0] == [];
    if x <= |data| {
      while p != x
        invariant p <= x && l == Fold(a, l0, data[..p])
      {
        FoldOne(a, l0, data, p);
        l := StepByte(a, l, data[p]);
        p := p + 1;
      }
    }
    if |data| - p >= 16 {
      l, p := Stripes(a, l0, l, data, p);
    }
    while p != |data|
      invariant p <= |data| && l == Fold(a, l0, data[..p])
    {
      FoldOne(a, l0, data, p);
      l := StepByte(a, l, data[p]);
      p := p + 1;
    }
    assert data[..p] == data;
    r := Xor(l, ONES);
  }

  /** The checksum by single bytes. */
  function Extended(a: Op, crc: Word, data: seq<Octet>): Word {
    Xor(Fold(a, Xor(crc, ONES), data), ONES)
  }

  method Extend(crc: Word, data: seq<Octet>, misalignment: nat) returns (r: Word)
    ensures r == Extended(Advance, crc, data)
  {
    AdvanceWorks();
    r := ExtendWith(Advance, crc, data, misalignment);
  }

  /** A checksum may be taken piece by piece. */
  lemma ExtendConcat(a: Op, crc: Word, x: seq<Octet>, y: seq<Octet>)
    ensures Extended(a, Extended(a, crc, x), y) == Extended(a, crc, x + y)
  {
    var f := Fold(a, Xor(crc, ONES), x);
    assert Xor(Xor(f, ONES), ONES) == f;
    FoldConcat(a, Xor(crc, ONES), x, y);
  }
}
