/** The checksum of the log is CRC32C: numbers as words of bits, and the fast computation in the
    place of the loop over bytes. */
module CrcLogs {
  import opened Coding
  import Log
  import opened Crc32c

  /** The lowest bits of a number. */
  function Bits(n: nat, count: nat): (b: seq<bool>)
    ensures |b| == count
  {
    if count == 0 then [] else [n % 2 == 1] + Bits(n / 2, count - 1)
  }

  function Number(b: seq<bool>): nat {
    if b == [] then 0 else (if b[0] then 1 else 0) + 2 * Number(b[1..])
  }

  lemma {:induction false} NumberBound(b: seq<bool>)
    ensures Number(b) < Pow2(|b|)
  {
    if b != [] { NumberBound(b[1..]); }
  }

  lemma {:induction false} NumberOfBits(n: nat, count: nat)
    requires n < Pow2(count)
    ensures Number(Bits(n, count)) == n
  {
    if count > 0 {
      NumberOfBits(n / 2, count - 1);
      assert Bits(n, count)[1..] == Bits(n / 2, count - 1);
    }
  }

  lemma {:induction false} BitsOfNumber(b: seq<bool>)
    ensures Bits(Number(b), |b|) == b
  {
    if b != [] {
      BitsOfNumber(b[1..]);
      assert Number(b) / 2 == Number(b[1..]) && (Number(b) % 2 == 1 <==> b[0]);
    }
  }

  lemma WordSize()
    ensures Pow2(32) == 0x1_0000_0000
  {
    assert Pow2(4) == 2 * (2 * (2 * (2 * Pow2(0))));
    assert Pow2(8) == 2 * (2 * (2 * (2 * Pow2(4))));
    assert Pow2(12) == 2 * (2 * (2 * (2 * Pow2(8))));
    assert Pow2(16) == 2 * (2 * (2 * (2 * Pow2(12))));
    assert Pow2(20) == 2 * (2 * (2 * (2 * Pow2(16))));
    assert Pow2(24) == 2 * (2 * (2 * (2 * Pow2(20))));
    assert Pow2(28) == 2 * (2 * (2 * (2 * Pow2(24))));
    assert Pow2(32) == 2 * (2 * (2 * (2 * Pow2(28))));
  }

  function ToWord(n: uint32): Word {
    Bits(n, 32)
  }

  function FromWord(w: Word): uint32 {
    NumberBound(w);
    WordSize();
    Number(w)
  }

  lemma WordsAreNumbers(n: uint32, w: Word)
    ensures FromWord(ToWord(n)) == n && ToWord(FromWord(w)) == w
  {
    WordSize();
    NumberOfBits(n, 32);
    BitsOfNumber(w);
  }

  function Octets(data: Bytes): (o: seq<Octet>)
    ensures |o| == |data|
  {
    seq(|data|, i requires 0 <= i < |data| => Bits(data[i], 8))
  }

  /** One byte of a checksum, as the log format takes it. */
  function StepOf(a: Op): Log.Step {
    (crc: uint32, b: byte) => FromWord(Extended(a, ToWord(crc), [Bits(b, 8)]))
  }

  /** Byte by byte it is the checksum of the whole. */
  lemma {:induction false} StepsExtend(a: Op, crc: uint32, data: Bytes)
    ensures Log.Extend(StepOf(a), crc, data) == FromWord(Extended(a, ToWord(crc), Octets(data)))
  {
    if data == [] {
      NothingExtends(a, ToWord(crc));
      WordsAreNumbers(crc, ToWord(crc));
    } else {
      var n := |data| - 1;
      var front, last := data[..n], Bits(data[n], 8);
      StepsExtend(a, crc, front);
      var w := Extended(a, ToWord(crc), Octets(front));
      WordsAreNumbers(0, w);
      ExtendConcat(a, ToWord(crc), Octets(front), [last]);
      assert Octets(front) + [last] == Octets(data);
    }
  }

  lemma NothingExtends(a: Op, w: Word)
    ensures Extended(a, w, []) == w
  {
    assert Xor(Xor(w, ONES), ONES) == w;
  }

  /** The lanes compute the checksum that the log is written with and read with. */
  method ExtendCrc(crc: uint32, data: Bytes, misalignment: nat) returns (r: uint32)
    ensures r == Log.Extend(StepOf(Advance), crc, data)
  {
    var w := Extend(ToWord(crc), Octets(data), misalignment);
    r := FromWord(w);
    StepsExtend(Advance, crc, data);
  }
}
