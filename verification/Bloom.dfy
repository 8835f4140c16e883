/** The Bloom filter policy. The hash function is a parameter. */
module Bloom {
  import opened Coding
  import Blocks
  import FilterBlocks

  type Hash = Bytes -> uint32

  datatype BloomPolicy = BloomPolicy(hash: Hash, bitsPerKey: nat, k: byte)

  /** Rotated right by 17 bits. */
  function Delta(h: uint32): uint32 {
    h / 0x2_0000 + h % 0x2_0000 * 0x8000
  }

  /** The hash after `j` steps of the double hashing. */
  function Step(h: uint32, delta: uint32, j: nat): uint32 {
    if j == 0 then h else (Step(h, delta, j - 1) + delta) % 0x1_0000_0000
  }

  /** The remainder of the division, by subtraction. */
  function Reduce(h: nat, bits: nat): (pos: nat)
    requires bits > 0
    ensures pos < bits
  {
    if h < bits then h else Reduce(h - bits, bits)
  }

  /** The bit for the probe after `j` others. */
  function Probe(h: uint32, j: nat, bits: nat): (pos: nat)
    requires bits > 0
    ensures pos < bits
  {
    Reduce(Step(h, Delta(h), j), bits)
  }

  /** The bits of a filter for these keys, at least 64 and in whole bytes. */
  function BytesFor(p: BloomPolicy, n: nat): (bytes: nat)
    ensures bytes >= 8
  {
    var bits := if n * p.bitsPerKey < 64 then 64 else n * p.bitsPerKey;
    (bits + 7) / 8
  }

  // ----- Bits in bytes -------------------------------------------------------------------------------

  predicate Bit(v: nat, b: nat) {
    if b == 0 then v % 2 == 1 else Bit(v / 2, b - 1)
  }

  /** With a bit or-ed in. */
  function WithBit(v: nat, b: nat): nat {
    if b == 0 then v / 2 * 2 + 1 else v % 2 + 2 * WithBit(v / 2, b - 1)
  }

  /** The number with these binary digits, the lowest first. */
  function Number(digits: seq<bool>): nat {
    if digits == [] then 0 else (if digits[0] then 1 else 0) + 2 * Number(digits[1..])
  }

  lemma {:induction false} BitOfNumber(digits: seq<bool>, b: nat)
    requires b < |digits|
    ensures Bit(Number(digits), b) == digits[b]
  {
    if b > 0 {
      BitOfNumber(digits[1..], b - 1);
    }
  }

  lemma {:induction false} WithBitOfNumber(digits: seq<bool>, b: nat)
    requires b < |digits|
    ensures WithBit(Number(digits), b) == Number(digits[b := true])
  {
    if b > 0 {
      WithBitOfNumber(digits[1..], b - 1);
      assert digits[b := true][1..] == digits[1..][b - 1 := true];
    } else {
      assert digits[0 := true][1..] == digits[1..];
    }
  }

  lemma {:induction false} NumberBound(digits: seq<bool>)
    ensures Number(digits) < Pow2(|digits|)
  {
    if digits != [] {
      NumberBound(digits[1..]);
    }
  }

  /** Eight bits of a bit array. */
  function Digits(on: set<nat>, i: nat): (d: seq<bool>)
    ensures |d| == 8
  {
    seq(8, b requires 0 <= b < 8 => 8 * i + b in on)
  }

  function ByteAt(on: set<nat>, i: nat): byte {
    NumberBound(Digits(on, i));
    assert Pow2(4) == 16;
    assert Pow2(8) == 2 * (2 * (2 * (2 * Pow2(4))));
    Number(Digits(on, i))
  }

  lemma BitOfByte(on: set<nat>, i: nat, b: nat)
    requires b < 8
    ensures Bit(ByteAt(on, i), b) <==> 8 * i + b in on
  {
    BitOfNumber(Digits(on, i), b);
  }

  lemma WithBitAt(on: set<nat>, i: nat, b: nat)
    requires b < 8
    ensures WithBit(ByteAt(on, i), b) == ByteAt(on + {8 * i + b}, i)
  {
    WithBitOfNumber(Digits(on, i), b);
    assert Digits(on, i)[b := true] == Digits(on + {8 * i + b}, i);
  }

  // ----- Making and testing filters --------------------------------------------------------------------

  function Array(on: set<nat>, bytes: nat): (a: Bytes)
    ensures |a| == bytes
  {
    seq(bytes, i requires 0 <= i < bytes => ByteAt(on, i))
  }

  /** The bits for the first `n` keys and the first `m` probes of the next. */
  ghost function BitsOn(p: BloomPolicy, keys: seq<Bytes>, n: nat, m: nat, bits: nat): set<nat>
    requires n <= |keys| && bits > 0
  {
    (set i, j | 0 <= i < n && 0 <= j < p.k as int :: Probe(p.hash(keys[i]), j, bits))
    + if n < |keys| then (set j | 0 <= j < m :: Probe(p.hash(keys[n]), j, bits)) else {}
  }

  ghost function Create(p: BloomPolicy, keys: seq<Bytes>): Bytes {
    var bytes := BytesFor(p, |keys|);
    Array(BitsOn(p, keys, |keys|, 0, 8 * bytes), bytes) + [p.k]
  }

  predicate MayMatch(hash: Hash, key: Bytes, filter: Bytes) {
    |filter| >= 2 &&
    var k: int, bits := filter[|filter| - 1], 8 * (|filter| - 1);
    k > 30 || forall j | 0 <= j < k :: BitIsOn(filter, Probe(hash(key), j, bits))
  }

  predicate BitIsOn(filter: Bytes, pos: nat) {
    pos / 8 < |filter| && Bit(filter[pos / 8], pos % 8)
  }

  lemma ArrayHasBit(on: set<nat>, bytes: nat, pos: nat, rest: Bytes)
    requires pos < 8 * bytes
    ensures BitIsOn(Array(on, bytes) + rest, pos) <==> pos in on
  {
    BitOfByte(on, pos / 8, pos % 8);
  }

  /** A filter matches every key that it was made of. */
  lemma NoFalseNegatives(p: BloomPolicy, keys: seq<Bytes>, key: Bytes)
    requires key in keys && p.k <= 30
    ensures MayMatch(p.hash, key, Create(p, keys))
  {
    var bytes := BytesFor(p, |keys|);
    var on := BitsOn(p, keys, |keys|, 0, 8 * bytes);
    var i :| 0 <= i < |keys| && keys[i] == key;
    forall j | 0 <= j < p.k as int
      ensures BitIsOn(Create(p, keys), Probe(p.hash(key), j, 8 * bytes))
    {
      ArrayHasBit(on, bytes, Probe(p.hash(key), j, 8 * bytes), [p.k]);
    }
  }

  ghost function AsPolicy(p: BloomPolicy): FilterBlocks.Policy {
    FilterBlocks.Policy(keys => Create(p, keys), (key, filter) => MayMatch(p.hash, key, filter))
  }

  lemma IsPolicy(p: BloomPolicy)
    requires p.k <= 30
    ensures FilterBlocks.NoFalseNegatives(AsPolicy(p))
  {
    forall keys: seq<Bytes>, k: Bytes | k in keys ensures AsPolicy(p).mayMatch(k, AsPolicy(p).create(keys)) {
      NoFalseNegatives(p, keys, k);
    }
  }

  /** A filter takes some bytes for each key. */
  lemma FiltersAreLinear(p: BloomPolicy)
    ensures FilterBlocks.Linear(AsPolicy(p), p.bitsPerKey + 10)
  {
    var rate := p.bitsPerKey + 10;
    forall keys ensures FilterBlocks.FilterIsShort(AsPolicy(p), rate, keys) {
      if keys != [] {
        BytesAreFew(p, |keys|);
        FilterBlocks.TimesIsProduct(rate, |keys|);
      }
    }
  }

  lemma BytesAreFew(p: BloomPolicy, n: nat)
    requires n > 0
    ensures BytesFor(p, n) + 1 <= (p.bitsPerKey + 10) * n
  {
    assert (p.bitsPerKey + 10) * n == p.bitsPerKey * n + 10 * n;
  }

  /** A filter has the bits that are asked for, at least 64, and fewer than eight more. */
  lemma FiltersGrow(p: BloomPolicy, keys: seq<Bytes>)
    ensures var bits := 8 * (|Create(p, keys)| - 1);
            && |keys| * p.bitsPerKey <= bits && 64 <= bits
            && (bits < 64 + 8 || bits < |keys| * p.bitsPerKey + 8)
  {
  }

  // ----- Probes --------------------------------------------------------------------------------------

  /** Moved up by 15 bits, with those that fall out put in below: so turning back gives the hash. */
  lemma DeltaTurnsBack(h: uint32)
    ensures Delta(h) % 0x8000 * 0x2_0000 + Delta(h) / 0x8000 == h
  {
  }

  lemma {:induction false} StepIsSum(h: uint32, delta: uint32, j: nat)
    ensures Step(h, delta, j) == (h + FilterBlocks.Times(delta, j)) % 0x1_0000_0000
  {
    if j > 0 {
      StepIsSum(h, delta, j - 1);
      WrappedSum(h + FilterBlocks.Times(delta, j - 1), delta);
    }
  }

  lemma WrappedSum(a: nat, b: nat)
    ensures (a % 0x1_0000_0000 + b) % 0x1_0000_0000 == (a + b) % 0x1_0000_0000
  {
  }

  lemma {:induction false} ReduceIsRemainder(h: nat, bits: nat)
    requires bits > 0
    ensures Reduce(h, bits) == h % bits
  {
    if h >= bits {
      ReduceIsRemainder(h - bits, bits);
      OneLess(h, bits);
    }
  }

  lemma OneLess(h: nat, bits: nat)
    requires 0 < bits <= h
    ensures h % bits == (h - bits) % bits
  {
    var q, r := (h - bits) / bits, (h - bits) % bits;
    assert h == (q + 1) * bits + r;
    RemainderIs(h, bits, q + 1, r);
  }

  lemma RemainderIs(h: nat, bits: nat, q: nat, r: nat)
    requires bits > 0 && h == q * bits + r && r < bits
    ensures h % bits == r
  {
    var d, m := h / bits, h % bits;
    assert h == d * bits + m;
    if d < q {
      Apart(d, q - d, bits);
    } else if q < d {
      Apart(q, d - q, bits);
    }
  }

  lemma Apart(a: nat, more: nat, bits: nat)
    requires more > 0
    ensures (a + more) * bits >= a * bits + bits
  {
    assert (a + more) * bits == a * bits + more * bits;
  }

  /** The probes go on by the turned hash, in 32 bits, and then to the remainder. */
  lemma ProbesAre(h: uint32, j: nat, bits: nat)
    requires bits > 0
    ensures Probe(h, j, bits) == (h + FilterBlocks.Times(Delta(h), j)) % 0x1_0000_0000 % bits
  {
    StepIsSum(h, Delta(h), j);
    ReduceIsRemainder(Step(h, Delta(h), j), bits);
  }

  ghost predicate IsProbed(p: BloomPolicy, keys: seq<Bytes>, pos: nat, bits: nat)
    requires bits > 0
  {
    exists i, m | 0 <= i < |keys| && 0 <= m < p.k as int :: Probe(p.hash(keys[i]), m, bits) == pos
  }

  /** A filter matches no more than it must: only keys all of whose probes are probes of keys that
      it was made of. */
  lemma MatchesExactly(p: BloomPolicy, keys: seq<Bytes>, key: Bytes)
    requires p.k <= 30
    ensures MayMatch(p.hash, key, Create(p, keys)) <==>
            forall j | 0 <= j < p.k as int ::
              IsProbed(p, keys, Probe(p.hash(key), j, 8 * BytesFor(p, |keys|)), 8 * BytesFor(p, |keys|))
  {
    var bytes := BytesFor(p, |keys|);
    var bits := 8 * bytes;
    var on := BitsOn(p, keys, |keys|, 0, bits);
    forall j | 0 <= j < p.k as int
      ensures BitIsOn(Create(p, keys), Probe(p.hash(key), j, bits))
              <==> IsProbed(p, keys, Probe(p.hash(key), j, bits), bits)
    {
      ArrayHasBit(on, bytes, Probe(p.hash(key), j, bits), [p.k]);
    }
  }

  /** So a filter block made of these filters excludes no key from the block it was added for. */
  lemma FilterBlockAdmits(p: BloomPolicy, result: Bytes, offsets: seq<nat>, windows: seq<seq<Bytes>>, contents: Bytes,
                          a: FilterBlocks.Added)
    requires p.k <= 30 && FilterBlocks.Filters(AsPolicy(p), result, offsets, windows) && |contents| < 0x1_0000_0000
    requires contents == result + Blocks.OffsetsOf(offsets) + Fixed(|result|, 4) + [FilterBlocks.FILTER_BASE_LG]
    requires a.offset / FilterBlocks.FILTER_BASE < |windows| && a.key in windows[a.offset / FilterBlocks.FILTER_BASE]
    ensures FilterBlocks.MayMatch(AsPolicy(p), contents, a.offset, a.key)
  {
    IsPolicy(p);
    FilterBlocks.AddedMayMatch(AsPolicy(p), result, offsets, windows, contents, a);
  }

  /** Sets the bits of all probes of all keys, behind what `dst` holds already. */
  method CreateFilter(p: BloomPolicy, keys: seq<Bytes>, dst: Bytes) returns (out: Bytes)
    ensures out == dst + Create(p, keys)
  {
    var bytes := BytesFor(p, |keys|);
    var bits := 8 * bytes;
    var a := seq(bytes, _ => 0);
    NothingOn(bytes);
    assert BitsOn(p, keys, 0, 0, bits) == {};
    for i := 0 to |keys|
      invariant a == Array(BitsOn(p, keys, i, 0, bits), bytes)
    {
      a := AddKey(p, keys, i, bytes, a);
    }
    out := dst + a;
    out := out + [p.k];
    assert out == dst + (a + [p.k]);
  }

  /** Sets the bits of the probes of one key. */
  method AddKey(p: BloomPolicy, keys: seq<Bytes>, i: nat, bytes: nat, a0: Bytes) returns (a: Bytes)
    requires i < |keys| && bytes > 0 && a0 == Array(BitsOn(p, keys, i, 0, 8 * bytes), bytes)
    ensures a == Array(BitsOn(p, keys, i + 1, 0, 8 * bytes), bytes)
  {
    a := a0;
    var h: nat := p.hash(keys[i]);
    var delta: nat := Delta(h);
    var g := h;
    for j := 0 to p.k
      invariant g == Step(h, delta, j)
      invariant a == Array(BitsOn(p, keys, i, j, 8 * bytes), bytes)
    {
      BitsOnNext(p, keys, i, j, 8 * bytes);
      a := SetBit(BitsOn(p, keys, i, j, 8 * bytes), bytes, Reduce(g, 8 * bytes), a);
      g := (g + delta) % 0x1_0000_0000;
    }
    BitsOnDone(p, keys, i, 8 * bytes);
  }

  lemma {:induction false} NumberOfNothing(digits: seq<bool>)
    requires forall i | 0 <= i < |digits| :: !digits[i]
    ensures Number(digits) == 0
  {
    if digits != [] {
      NumberOfNothing(digits[1..]);
    }
  }

  lemma NothingOn(bytes: nat)
    ensures Array({}, bytes) == seq(bytes, _ => 0)
  {
    forall i: nat ensures ByteAt({}, i) == 0 {
      NumberOfNothing(Digits({}, i));
    }
  }

  method SetBit(ghost on: set<nat>, bytes: nat, pos: nat, a0: Bytes) returns (a: Bytes)
    requires pos < 8 * bytes && a0 == Array(on, bytes)
    ensures a == Array(on + {pos}, bytes)
  {
    WithBitAt(on, pos / 8, pos % 8);
    forall i | 0 <= i < bytes && i != pos / 8 ensures ByteAt(on + {pos}, i) == ByteAt(on, i) {
      assert Digits(on + {pos}, i) == Digits(on, i);
    }
    a := a0[pos / 8 := WithBit(a0[pos / 8], pos % 8)];
  }

  lemma BitsOnNext(p: BloomPolicy, keys: seq<Bytes>, i: nat, j: nat, bits: nat)
    requires i < |keys| && bits > 0
    ensures BitsOn(p, keys, i, j + 1, bits) == BitsOn(p, keys, i, j, bits) + {Probe(p.hash(keys[i]), j, bits)}
  {
  }

  lemma BitsOnDone(p: BloomPolicy, keys: seq<Bytes>, i: nat, bits: nat)
    requires i < |keys| && bits > 0
    ensures BitsOn(p, keys, i + 1, 0, bits) == BitsOn(p, keys, i, p.k, bits)
  {
  }

  /** Probes the filter, with the number of probes that it was made with. */
  method KeyMayMatch(hash: Hash, key: Bytes, filter: Bytes) returns (may: bool)
    ensures may == MayMatch(hash, key, filter)
  {
    if |filter| < 2 {
      return false;
    }
    var bits := 8 * (|filter| - 1);
    var k: nat := filter[|filter| - 1];
    if k > 30 {
      return true;
    }
    may := AllOn(filter, hash(key), k, bits);
  }

  method AllOn(filter: Bytes, h: uint32, k: nat, bits: nat) returns (all: bool)
    requires 0 < bits
    ensures all <==> forall j | 0 <= j < k :: BitIsOn(filter, Probe(h, j, bits))
  {
    var delta: nat := Delta(h);
    var g: nat := h;
    for j := 0 to k
      invariant g == Step(h, delta, j)
      invariant forall i | 0 <= i < j :: BitIsOn(filter, Probe(h, i, bits))
    {
      if !BitIsOn(filter, Reduce(g, bits)) {
        assert !BitIsOn(filter, Probe(h, j, bits));
        return false;
      }
      g := (g + delta) % 0x1_0000_0000;
    }
    all := true;
  }
}
