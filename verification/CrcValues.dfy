/** Values of CRC32C that tell its polynomial and its complements. */
module CrcValues {
  import opened Coding
  import Log
  import opened Crc32c
  import opened CrcLogs

  // ----- Words in hexadecimal digits -----------------------------------------------------------------

  /** The bits of a digit, the lowest first. */
  function Digit(n: nat): (b: seq<bool>)
    ensures |b| == 4
  {
    [n % 2 == 1, n / 2 % 2 == 1, n / 4 % 2 == 1, n / 8 % 2 == 1]
  }

  lemma Halves(n: nat, d: nat, high: nat)
    requires n == d + 16 * high && d < 16
    ensures var a := n / 2; var b := a / 2; var c := b / 2;
            c / 2 == high && n % 2 == d % 2 && a % 2 == d / 2 % 2 && b % 2 == d / 4 % 2 && c % 2 == d / 8 % 2
  {
    assert n / 2 == d / 2 + 8 * high;
    assert n / 2 / 2 == d / 4 + 4 * high;
    assert n / 2 / 2 / 2 == d / 8 + 2 * high;
  }

  lemma DigitBits(n: nat, d: nat, high: nat, count: nat)
    requires n == d + 16 * high && d < 16
    ensures Bits(n, count + 4) == Digit(d) + Bits(high, count)
  {
    var a := n / 2;
    var b := a / 2;
    var c := b / 2;
    Halves(n, d, high);
    assert Bits(n, count + 4) == [n % 2 == 1] + Bits(a, count + 3);
    assert Bits(a, count + 3) == [a % 2 == 1] + Bits(b, count + 2);
    assert Bits(b, count + 2) == [b % 2 == 1] + Bits(c, count + 1);
    assert Bits(c, count + 1) == [c % 2 == 1] + Bits(high, count);
  }

  lemma FourDigits(n: nat, d: seq<nat>, high: nat, count: nat)
    requires |d| == 4 && forall i | 0 <= i < 4 :: d[i] < 16
    requires n == d[0] + 16 * (d[1] + 16 * (d[2] + 16 * (d[3] + 16 * high)))
    ensures Bits(n, count + 16) == Digit(d[0]) + Digit(d[1]) + Digit(d[2]) + Digit(d[3]) + Bits(high, count)
  {
    var c := d[3] + 16 * high;
    var b := d[2] + 16 * c;
    var a := d[1] + 16 * b;
    DigitBits(n, d[0], a, count + 12);
    DigitBits(a, d[1], b, count + 8);
    DigitBits(b, d[2], c, count + 4);
    DigitBits(c, d[3], high, count);
  }

  /** Eight digits, the lowest first. */
  lemma EightDigits(n: uint32, low: seq<nat>, high: seq<nat>)
    requires |low| == |high| == 4 && forall i | 0 <= i < 4 :: low[i] < 16 && high[i] < 16
    requires n == low[0] + 16 * (low[1] + 16 * (low[2] + 16 * (low[3] + 16 * (n / 0x1_0000))))
    requires n / 0x1_0000 == high[0] + 16 * (high[1] + 16 * (high[2] + 16 * high[3]))
    ensures ToWord(n) == (Digit(low[0]) + Digit(low[1]) + Digit(low[2]) + Digit(low[3]))
                       + (Digit(high[0]) + Digit(high[1]) + Digit(high[2]) + Digit(high[3]))
  {
    FourDigits(n, low, n / 0x1_0000, 16);
    FourDigits(n / 0x1_0000, high, 0, 0);
  }

  const DIGIT_2: seq<bool> := [false, true, false, false]
  const DIGIT_3: seq<bool> := [true, true, false, false]
  const DIGIT_6: seq<bool> := [false, true, true, false]
  const DIGIT_7: seq<bool> := [true, true, true, false]
  const DIGIT_8: seq<bool> := [false, false, false, true]
  const DIGIT_B: seq<bool> := [true, true, false, true]
  const DIGIT_D: seq<bool> := [true, false, true, true]
  const DIGIT_F: seq<bool> := [true, true, true, true]

  lemma DigitsAre()
    ensures Digit(2) == DIGIT_2 && Digit(3) == DIGIT_3 && Digit(6) == DIGIT_6 && Digit(7) == DIGIT_7
    ensures Digit(8) == DIGIT_8 && Digit(0xb) == DIGIT_B && Digit(0xd) == DIGIT_D && Digit(0xf) == DIGIT_F
  {
  }

  lemma PolynomialDigits()
    ensures POLY == (DIGIT_8 + DIGIT_7 + DIGIT_B + DIGIT_3) + (DIGIT_6 + DIGIT_F + DIGIT_2 + DIGIT_8)
  {
  }

  lemma NumberInDigits(n: uint32, low: seq<nat>, high: seq<nat>)
    requires |low| == |high| == 4 && low == [8, 7, 0xb, 3]
    requires (n == 0x82f6_3b78 && high == [6, 0xf, 2, 8]) || (n == 0x7df6_3b78 && high == [6, 0xf, 0xd, 7])
    ensures ToWord(n) == (Digit(low[0]) + Digit(low[1]) + Digit(low[2]) + Digit(low[3]))
                          + (Digit(high[0]) + Digit(high[1]) + Digit(high[2]) + Digit(high[3]))
  {
    EightDigits(n, low, high);
  }

  /** The polynomial is 0x82f63b78. */
  lemma PolynomialIs(poly: uint32)
    requires poly == 0x82f6_3b78
    ensures ToWord(poly) == POLY
  {
    NumberInDigits(poly, [8, 7, 0xb, 3], [6, 0xf, 2, 8]);
    DigitsAre();
    PolynomialDigits();
  }

  // ----- One octet -------------------------------------------------------------------------------------

  /** The last bit of an octet is the last to fall out, and then the polynomial comes in. */
  lemma LastBitAdvances(x: Word)
    requires LowClear(x, 7) && x[7]
    ensures Advance(x) == Xor(Down(x, 8), POLY)
  {
    ShiftDrops(x, 7);
    assert Shift(x, 8) == ShiftOne(Shift(x, 7));
  }

  lemma OneOctet(o: Octet, x: Word)
    requires x == Xor(ONES, InPlace(o, 0))
    ensures Extended(Advance, ZERO, [o]) == Xor(Advance(x), ONES)
  {
    assert Xor(ZERO, ONES) == ONES;
    assert [o][..0] == [] && Fold(Advance, ONES, []) == ONES;
  }

  lemma CheckBits(o: Octet, x: Word)
    requires o == DIGIT_F + DIGIT_7 && x == Xor(ONES, InPlace(o, 0))
    ensures LowClear(x, 7) && x[7] && forall i | 0 <= i < 32 :: Down(x, 8)[i] == (i < 24)
  {
    forall i | 0 <= i < 8 ensures x[i] == (i == 7) {
      assert o[i] == (i < 7);
    }
  }

  lemma CheckDigits(w: Word)
    requires forall i | 0 <= i < 32 :: w[i] == (POLY[i] == (i < 24))
    ensures w == (DIGIT_8 + DIGIT_7 + DIGIT_B + DIGIT_3) + (DIGIT_6 + DIGIT_F + DIGIT_D + DIGIT_7)
  {
    PolynomialDigits();
    var front := (DIGIT_8 + DIGIT_7 + DIGIT_B + DIGIT_3) + (DIGIT_6 + DIGIT_F);
    assert POLY == front + (DIGIT_2 + DIGIT_8);
    assert (DIGIT_8 + DIGIT_7 + DIGIT_B + DIGIT_3) + (DIGIT_6 + DIGIT_F + DIGIT_D + DIGIT_7)
        == front + (DIGIT_D + DIGIT_7);
    assert |front| == 24;
    forall i | 0 <= i < 8 ensures (DIGIT_D + DIGIT_7)[i] != (DIGIT_2 + DIGIT_8)[i] {}
    forall i | 0 <= i < 32 ensures w[i] == (front + (DIGIT_D + DIGIT_7))[i] {
      if i >= 24 { assert POLY[i] == (DIGIT_2 + DIGIT_8)[i - 24]; }
    }
  }

  /** The checksum of the octet 0x7f is 0x7df63b78. */
  lemma CheckValue(o: Octet, crc: uint32)
    requires o == DIGIT_F + DIGIT_7 && crc == 0x7df6_3b78
    ensures Extended(Advance, ZERO, [o]) == ToWord(crc)
  {
    var x := Xor(ONES, InPlace(o, 0));
    OneOctet(o, x);
    CheckBits(o, x);
    LastBitAdvances(x);
    CheckDigits(Xor(Xor(Down(x, 8), POLY), ONES));
    NumberInDigits(crc, [8, 7, 0xb, 3], [6, 0xf, 0xd, 7]);
    DigitsAre();
  }

  /** So it is in the logs. */
  lemma LogCheckValue(b: byte, crc: uint32)
    requires b == 0x7f && crc == 0x7df6_3b78
    ensures Log.Extend(StepOf(Advance), 0, [b]) == crc
  {
    DigitBits(b, 0xf, 7, 4);
    DigitBits(7, 7, 0, 0);
    DigitsAre();
    CheckValue(Bits(b, 8), crc);
    StepsExtend(Advance, 0, [b]);
    assert Octets([b]) == [Bits(b, 8)];
    NoBits(32);
    assert ToWord(0) == ZERO;
    WordsAreNumbers(crc, ZERO);
  }

  lemma {:induction false} NoBits(count: nat)
    ensures forall i | 0 <= i < count :: !Bits(0, count)[i]
  {
    if count > 0 { NoBits(count - 1); }
  }
}
