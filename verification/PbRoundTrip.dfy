/** Decoding what was encoded. */
module PbRoundTrip {
  import opened Coding
  import opened PbMessages
  import opened PbEncoding
  import opened PbDecoding
  import opened PbViews

  // ----- Varints, tags and lengths -------------------------------------------------------------------

  lemma BitWeights()
    ensures Pow2(7) == 0x80 && Pow2(14) == 0x4000 && Pow2(21) == 0x20_0000 && Pow2(28) == 0x1000_0000
  {
    assert Pow2(7) == 2 * (2 * (2 * (2 * (2 * (2 * (2 * Pow2(0)))))));
    assert Pow2(14) == 2 * (2 * (2 * (2 * (2 * (2 * (2 * Pow2(7)))))));
    assert Pow2(21) == 2 * (2 * (2 * (2 * (2 * (2 * (2 * Pow2(14)))))));
    assert Pow2(28) == 2 * (2 * (2 * (2 * (2 * (2 * (2 * Pow2(21)))))));
  }

  type Loop = (Bytes, nat, nat) -> Parsed<nat>

  /** What a byte at a position below 32 does, when the bits from there on are free. */
  ghost predicate Steps(more: Loop, b: Bytes, bitpos: nat, result: nat, w: nat) {
    b != [] && bitpos < 32 && w == Pow2(bitpos) && result < w && result + b[0] % 128 * w < 0x1_0000_0000 ==>
      && (b[0] >= 128 ==> more(b, bitpos, result) == more(b[1..], bitpos + 7, result + b[0] % 128 * w))
      && (b[0] < 128 && (bitpos == 28 ==> b[0] < 16) ==> more(b, bitpos, result) == Good(result + b[0] * w, b[1..]))
  }

  lemma MoreSteps()
    ensures forall b, bitpos, result, w :: Steps(MoreVarint32, b, bitpos, result, w)
  {
    forall b: Bytes, bitpos: nat, result: nat, w: nat ensures Steps(MoreVarint32, b, bitpos, result, w) {
      if b != [] && bitpos < 32 && w == Pow2(bitpos) && result < w && result + b[0] % 128 * w < 0x1_0000_0000 {
        var low := b[0] % 128;
        var sum := result + low * w;
        AddsBits(result, low, bitpos);
        StepIs(b, bitpos, result, low, sum);
      }
    }
  }

  lemma StepIs(b: Bytes, bitpos: nat, result: nat, low: nat, sum: nat)
    requires b != [] && bitpos < 32 && low == b[0] % 128 && AddBits(result, low, bitpos) == sum
    ensures b[0] >= 128 ==> MoreVarint32(b, bitpos, result) == MoreVarint32(b[1..], bitpos + 7, sum)
    ensures b[0] < 128 && (bitpos == 28 ==> b[0] < 16) ==> MoreVarint32(b, bitpos, result) == Good(sum, b[1..])
  {
    if b[0] >= 128 {
      MoreStep(b, bitpos, result, low, sum);
    } else {
      LastStep(b, bitpos, result, sum);
    }
  }

  lemma MoreStep(b: Bytes, bitpos: nat, result: nat, low: nat, sum: nat)
    requires b != [] && b[0] >= 128 && bitpos < 32 && low == b[0] % 128 && AddBits(result, low, bitpos) == sum
    ensures MoreVarint32(b, bitpos, result) == MoreVarint32(b[1..], bitpos + 7, sum)
  {
    assert (bitpos + 7) % 256 == bitpos + 7;
  }

  lemma LastStep(b: Bytes, bitpos: nat, result: nat, sum: nat)
    requires b != [] && b[0] < 128 && bitpos < 32 && AddBits(result, b[0], bitpos) == sum
    ensures (bitpos == 28 ==> b[0] < 16) ==> MoreVarint32(b, bitpos, result) == Good(sum, b[1..])
  {
  }

  lemma AddsBits(result: nat, low: nat, bitpos: nat)
    requires bitpos < 32 && result < Pow2(bitpos) && result + low * Pow2(bitpos) < 0x1_0000_0000
    ensures AddBits(result, low, bitpos) == result + low * Pow2(bitpos)
  {
    OrAdds(result, low, bitpos);
    ShiftedIs(low, bitpos);
  }

  lemma {:induction false} ShiftedIs(v: nat, n: nat)
    requires v * Pow2(n) < 0x1_0000_0000
    ensures Shifted(v, n) == v * Pow2(n)
  {
    if n > 0 {
      Doubled(v, Pow2(n - 1));
      ShiftedIs(v, n - 1);
    }
  }

  /** Where the positions lead. */
  predicate NextWeight(bitpos: nat, w: nat) {
    (bitpos == 7 && w == 0x80) || (bitpos == 14 && w == 0x4000) || (bitpos == 21 && w == 0x20_0000)
        || (bitpos == 28 && w == 0x1000_0000)
  }

  lemma {:induction false} LoopReads(more: Loop, v: nat, bitpos: nat, result: nat, w: nat, rest: Bytes)
    requires forall b, bitpos, result, w :: Steps(more, b, bitpos, result, w)
    requires NextWeight(bitpos, w) && w == Pow2(bitpos) && result < w && result + v * w < 0x1_0000_0000
    ensures more(Varint(v) + rest, bitpos, result) == Good(result + v * w, rest)
    decreases v
  {
    var b := Varint(v) + rest;
    assert Steps(more, b, bitpos, result, w);
    if v < 128 {
      assert b[0] == v && b[1..] == rest;
    } else {
      assert Varint(v) == [v % 128 + 128] + Varint(v / 128);
      assert b[0] == v % 128 + 128 && b[1..] == Varint(v / 128) + rest;
      NextBits(v, w, result);
      BitWeights();
      LoopReads(more, v / 128, bitpos + 7, result + v % 128 * w, w * 128, rest);
    }
  }

  lemma NextBits(v: nat, w: nat, result: nat)
    requires result < w
    ensures result + v % 128 * w < 128 * w
    ensures result + v % 128 * w + v / 128 * (w * 128) == result + v * w
  {
    VarintStep(v, w);
    AtMost(v % 128, w);
  }

  lemma AtMost(d: nat, w: nat)
    requires d < 128
    ensures 0 <= d * w <= 127 * w
  {
  }

  lemma DecodeVarint32Reads(v: uint32, rest: Bytes)
    ensures DecodeVarint32(Varint(v) + rest) == Good(v, rest)
  {
    var b := Varint(v) + rest;
    if v < 128 {
      assert b[1..] == rest;
    } else {
      FirstByte(v, rest);
      MoreSteps();
      BitWeights();
      LoopReads(MoreVarint32, v / 128, 7, v % 128, 0x80, rest);
    }
  }

  lemma FirstByte(v: nat, rest: Bytes)
    requires v >= 128
    ensures DecodeVarint32(Varint(v) + rest) == MoreVarint32(Varint(v / 128) + rest, 7, v % 128)
  {
    assert (Varint(v) + rest)[1..] == Varint(v / 128) + rest;
  }

  function Padding(n: nat): Bytes {
    if n == 0 then [] else [0x80] + Padding(n - 1)
  }

  /** A byte without bits moves the position only. */
  ghost predicate Pads(more: Loop, b: Bytes, bitpos: nat) {
    b != [] && b[0] == 0x80 && bitpos < 256 ==> more(b, bitpos, 0) == more(b[1..], (bitpos + 7) % 256, 0)
  }

  lemma MorePads()
    ensures forall b, bitpos :: Pads(MoreVarint32, b, bitpos)
  {
    forall b: Bytes, bitpos: nat ensures Pads(MoreVarint32, b, bitpos) {
      NoBits(bitpos);
    }
  }

  lemma NoBits(bitpos: nat)
    ensures AddBits(0, 0, bitpos) == 0
  {
    NothingShifted(bitpos);
  }

  lemma {:induction false} NothingShifted(n: nat)
    ensures Shifted(0, n) == 0
  {
    if n > 0 { NothingShifted(n - 1); }
  }

  lemma {:induction false} PaddingMoves(more: Loop, n: nat, bitpos: nat, rest: Bytes)
    requires bitpos + 7 * n < 256 && forall b, p :: Pads(more, b, p)
    ensures more(Padding(n) + rest, bitpos, 0) == more(rest, bitpos + 7 * n, 0)
  {
    var b := Padding(n) + rest;
    if n == 0 {
      assert b == rest;
    } else {
      assert b[1..] == Padding(n - 1) + rest && Pads(more, b, bitpos);
      PaddingMoves(more, n - 1, bitpos + 7, rest);
    }
  }

  /** So many bytes of padding, and one more, bring the position of the bits around to 3. */
  const BYTES_BEFORE_WRAP: nat := 36

  lemma PaddingComesAround(rest: Bytes)
    ensures DecodeVarint32(Padding(BYTES_BEFORE_WRAP) + ([0x80] + ([0x01] + rest))) == Good(8, rest)
  {
    var n: nat := BYTES_BEFORE_WRAP - 1;
    var last := [0x01] + rest;
    var b := [0x80] + last;
    MorePads();
    PaddedFirst(n, b);
    PaddingMoves(MoreVarint32, n, 7, b);
    assert Pads(MoreVarint32, b, 252) && b[1..] == last && last[1..] == rest;
    AtThree(last);
  }

  lemma PaddedFirst(n: nat, rest: Bytes)
    ensures DecodeVarint32(Padding(n + 1) + rest) == MoreVarint32(Padding(n) + rest, 7, 0)
  {
    assert (Padding(n + 1) + rest)[1..] == Padding(n) + rest;
  }

  lemma AtThree(b: Bytes)
    requires b != [] && b[0] == 1
    ensures MoreVarint32(b, 3, 0) == Good(8, b[1..])
  {
    assert Shifted(1, 0) == 1 && Shifted(1, 1) == 2 && Shifted(1, 2) == 4 && Shifted(1, 3) == 8;
  }

  lemma DecodeTagReads(tag: nat, wireType: nat, rest: Bytes)
    requires 0 < tag < 0x2000_0000 && wireType < 8
    ensures DecodeTag(Tag(tag, wireType) + rest) == Tagged(tag, wireType, rest)
  {
    TagSplits(tag, wireType, tag * 8 + wireType);
    DecodeVarint32Reads(tag * 8 + wireType, rest);
  }

  lemma TagSplits(tag: nat, wireType: nat, v: nat)
    requires wireType < 8 && v == tag * 8 + wireType
    ensures v / 8 == tag && v % 8 == wireType
  {
  }

  lemma TakePrefixedReads(b: Bytes, rest: Bytes)
    requires |b| < 0x1_0000_0000
    ensures TakePrefixed(Prefixed(b) + rest) == Good(b, rest)
  {
    assert Prefixed(b) + rest == Varint(|b|) + (b + rest);
    DecodeVarint32Reads(|b|, b + rest);
    assert (b + rest)[..|b|] == b && (b + rest)[|b|..] == rest;
  }

  // ----- Values ----------------------------------------------------------------------------------------

  lemma SignedReads(n: int, size: nat)
    requires size == 4 || size == 8
    requires -Range(size) <= 2 * n < Range(size)
    ensures Signed(n % 0x1_0000_0000_0000_0000, size) == n
  {
    if size == 4 {
      var m := n % 0x1_0000_0000_0000_0000;
      assert m % 0x1_0000_0000 == if n < 0 then n + 0x1_0000_0000 else n;
    }
  }

  lemma FixedReads(n: nat, size: nat, rest: Bytes)
    requires (size == 4 || size == 8) && n < Range(size)
    ensures Take(Fixed(n, size) + rest, size) == Good(Fixed(n, size), rest) && DecodeFixed(Fixed(n, size)) == n
  {
    var b := Fixed(n, size);
    assert (b + rest)[..size] == b && (b + rest)[size..] == rest;
    Widths();
    FixedRoundTrip(n, size);
  }

  lemma IntReads(size: nat, n: int, rest: Bytes)
    requires IsSize(size) && -Range(size) <= 2 * n < Range(size)
    ensures DecodeNumber(Int(size), EncodeNumber(Int(size), n) + rest) == Good(Number(n), rest)
  {
    Varint64RoundTrip(n % 0x1_0000_0000_0000_0000, rest);
    SignedReads(n, if size == 8 then 8 else 4);
  }

  lemma SIntReads(size: nat, n: int, rest: Bytes)
    requires IsSize(size) && -Range(size) <= 2 * n < Range(size)
    ensures DecodeNumber(SInt(size), EncodeNumber(SInt(size), n) + rest) == Good(Number(n), rest)
  {
    Varint64RoundTrip(ZigZag(n), rest);
  }

  lemma UIntReads(size: nat, n: nat, rest: Bytes)
    requires IsSize(size) && n < Range(size)
    ensures DecodeNumber(UInt(size), EncodeNumber(UInt(size), n) + rest) == Good(Number(n), rest)
  {
    Varint64RoundTrip(n, rest);
  }

  lemma NumberReads(k: Kind, n: int, rest: Bytes)
    requires KindOk(k) && Typed(k, Number(n))
    ensures DecodeNumber(k, EncodeNumber(k, n) + rest) == Good(Number(n), rest)
  {
    if k.Int? {
      IntReads(k.size, n, rest);
    } else if k.SInt? {
      SIntReads(k.size, n, rest);
    } else if k.UInt? {
      UIntReads(k.size, n, rest);
    } else if k.Bool? {
      BoolReads(n, rest);
    } else {
      FixedKindReads(k, n, if k.Fixed32? then 4 else 8, rest);
    }
  }

  lemma BoolReads(n: nat, rest: Bytes)
    requires n <= 1
    ensures DecodeNumber(Bool, EncodeNumber(Bool, n) + rest) == Good(Number(n), rest)
  {
    BoolEncodes(n);
    DecodeVarint32Reads(n, rest);
    BoolIs(EncodeNumber(Bool, n) + rest, n, rest);
  }

  lemma BoolEncodes(n: nat)
    requires n <= 1
    ensures EncodeNumber(Bool, n) == Varint(n)
  {
  }

  lemma BoolIs(b: Bytes, n: nat, rest: Bytes)
    requires DecodeVarint32(b) == Good(n, rest) && n <= 1
    ensures DecodeNumber(Bool, b) == Good(Number(n), rest)
  {
  }

  lemma FixedIs(k: Kind, b: Bytes, f: Bytes, rest: Bytes)
    requires k.Fixed32? || k.Fixed64?
    requires Take(b, if k.Fixed32? then 4 else 8) == Good(f, rest)
    ensures DecodeNumber(k, b) == Good(Number(DecodeFixed(f)), rest)
  {
  }

  lemma FixedKindReads(k: Kind, n: nat, size: nat, rest: Bytes)
    requires (k.Fixed32? && size == 4) || (k.Fixed64? && size == 8)
    requires n < Range(size)
    ensures DecodeNumber(k, EncodeNumber(k, n) + rest) == Good(Number(n), rest)
  {
    assert EncodeNumber(k, n) == LowBytes(n, size);
    LowBytesOfSmall(n, size);
    FixedNumberReads(k, n, size, rest, EncodeNumber(k, n));
  }

  lemma LowBytesOfSmall(n: nat, size: nat)
    requires n < Range(size)
    ensures LowBytes(n, size) == Fixed(n, size)
  {
    SmallRemainder(n, Range(size));
  }

  lemma SmallRemainder(n: nat, m: nat)
    requires n < m
    ensures n % m == n
  {
  }

  lemma FixedNumberReads(k: Kind, n: nat, size: nat, rest: Bytes, b: Bytes)
    requires (k.Fixed32? && size == 4) || (k.Fixed64? && size == 8)
    requires n < Range(size) && b == Fixed(n, size)
    ensures DecodeNumber(k, b + rest) == Good(Number(n), rest)
  {
    FixedReads(n, size, rest);
    FixedIs(k, b + rest, b, rest);
  }

  lemma {:induction false} UpToZeroIsAll(b: Bytes)
    requires NoZero(b)
    ensures UpToZero(b) == b
  {
    if b != [] {
      assert b == [b[0]] + b[1..];
      UpToZeroIsAll(b[1..]);
    }
  }

  lemma DataReads(k: Kind, b: Bytes, rest: Bytes)
    requires k.Blob? || k.Text? || k.FixedBlob?
    requires Typed(k, Data(b)) && Within(k, Data(b)) && |b| < 0x1_0000_0000
    ensures DecodeData(k, Prefixed(b) + rest) == Good(Data(b), rest)
  {
    assert Prefixed(b) + rest == Varint(|b|) + (b + rest);
    DecodeVarint32Reads(|b|, b + rest);
    assert (b + rest)[..|b|] == b && (b + rest)[|b|..] == rest;
    if k.Text? { UpToZeroIsAll(b); }
    assert |b| == 0 ==> b == Zeros(0);
  }

  lemma ValueReads(ours: Kind, theirs: Kind, v: Val, rest: Bytes)
    requires KindOk(ours) && KindFollows(ours, theirs)
    requires KindOk(theirs) && Typed(theirs, v) && Within(theirs, v) && |EncodeValue(theirs, v)| < 0x1_0000_0000
    ensures DecodeValue(ours, Zero(ours), EncodeValue(theirs, v) + rest) == Good(ViewVal(ours, theirs, v), rest)
    decreases theirs
  {
    match v {
      case Number(n) => NumberReads(theirs, n, rest);
      case Data(b) => DataReads(theirs, b, rest);
      case Message(slots) =>
        MessageIsViewed(ours.fields, theirs.fields, slots);
        SubReads(ours, View(ours.fields, theirs.fields, slots), EncodeMessage(theirs.fields, slots), rest);
    }
  }

  lemma SubReads(k: Kind, slots: seq<Slot>, inner: Bytes, rest: Bytes)
    requires k.Sub? && |inner| < 0x1_0000_0000
    requires DecodeMessage(k.fields, inner) == Done(slots)
    ensures DecodeValue(k, Zero(k), Prefixed(inner) + rest) == Good(Message(slots), rest)
  {
    TakePrefixedReads(inner, rest);
  }

  /** A value that fits a field of the writer, and of the reader. */
  ghost predicate Fits(ours: Field, theirs: Field, v: Val) {
    && FieldOk(ours) && FieldOk(theirs) && ours.tag == theirs.tag && FieldFollows(ours, theirs)
    && Typed(theirs.kind, v) && Within(theirs.kind, v) && |EncodeValue(theirs.kind, v)| < 0x1_0000_0000
  }

  lemma FieldValueReads(ours: Field, theirs: Field, v: Val, rest: Bytes)
    requires Fits(ours, theirs, v)
    ensures DecodeValue(ours.kind, Zero(ours.kind), EncodeValue(theirs.kind, v) + rest)
         == Good(ViewVal(ours.kind, theirs.kind, v), rest)
    decreases theirs, 0
  {
    ValueReads(ours.kind, theirs.kind, v, rest);
  }

  lemma {:induction false} PackedReads(k: Kind, max: nat, vs: seq<Val>, n: nat)
    requires KindOk(k) && Packable(k) && n <= |vs| <= max && forall i: nat | i < |vs| :: Typed(k, vs[i])
    ensures DecodePacked(k, max, vs[..n], EncodeAll(k, vs[n..])) == Good(vs, [])
    decreases |vs| - n
  {
    if n == |vs| {
      assert vs[..n] == vs;
    } else {
      var rest := EncodeAll(k, vs[n + 1..]);
      assert vs[n..][0] == vs[n] && vs[n..][1..] == vs[n + 1..] && vs[..n] + [vs[n]] == vs[..n + 1];
      assert vs[n].Number?;
      NumberReads(k, vs[n].n, rest);
      PackedReads(k, max, vs, n + 1);
    }
  }

  // ----- Values that are skipped ---------------------------------------------------------------------

  lemma {:induction false} SkipsVarint(v: nat, rest: Bytes)
    ensures SkipVarint(Varint(v) + rest) == Good([], rest)
  {
    var b := Varint(v) + rest;
    if v < 128 {
      assert b[1..] == rest;
    } else {
      assert b[0] == v % 128 + 128 && b[1..] == Varint(v / 128) + rest;
      SkipsVarint(v / 128, rest);
    }
  }

  /** What is skipped ends where `rest` begins. */
  ghost predicate Skips(wireType: nat, b: Bytes, rest: Bytes) {
    Skip(wireType, b).Good? && Skip(wireType, b).rest == rest
  }

  lemma SkipsBytes(wireType: nat, b: Bytes, rest: Bytes)
    requires (wireType == 1 && |b| == 8) || (wireType == 5 && |b| == 4)
    ensures Skips(wireType, b + rest, rest)
  {
    assert (b + rest)[|b|..] == rest;
  }

  lemma SkipsPrefixed(b: Bytes, rest: Bytes)
    requires |b| < 0x1_0000_0000
    ensures Skips(2, Prefixed(b) + rest, rest)
  {
    TakePrefixedReads(b, rest);
  }

  /** Skipping an encoded value takes exactly that value. */
  lemma SkipsValue(k: Kind, v: Val, rest: Bytes)
    requires Typed(k, v) && |EncodeValue(k, v)| < 0x1_0000_0000
    ensures Skips(WireType(k), EncodeValue(k, v) + rest, rest)
  {
    match v {
      case Number(n) =>
        if k.Fixed32? || k.Fixed64? {
          SkipsBytes(WireType(k), EncodeNumber(k, n), rest);
        } else {
          SkipsVarint(if k.SInt? then ZigZag(n) else n % 0x1_0000_0000_0000_0000, rest);
        }
      case Data(b) => SkipsPrefixed(b, rest);
      case Message(slots) => SkipsPrefixed(EncodeMessage(k.fields, slots), rest);
    }
  }

  // ----- Fields ----------------------------------------------------------------------------------------

  /** The decoder's loop over the fields of a description. */
  type FieldLoop = (seq<Slot>, set<nat>, Bytes) -> Decoding

  function LoopOf(fields: seq<Field>): FieldLoop {
    (slots, seen, b) => DecodeLoop(fields, slots, seen, b)
  }

  /** A field that can be read into its slot is. */
  ghost predicate Takes(ours: seq<Field>, loop: FieldLoop, slots: seq<Slot>, seen: set<nat>, i: nat, wireType: nat,
                        b: Bytes, s: Slot, rest: Bytes)
  {
    i < |ours| == |slots| && wireType < 8 && DecodeSlot(ours[i], slots[i], wireType, b) == Good(s, rest) ==>
      loop(slots, seen, Tag(ours[i].tag, wireType) + b)
          == loop(SetSlot(ours, slots, i, s), See(ours, i, seen), rest)
  }

  /** A field that the reader does not have is left out. */
  ghost predicate Omits(ours: seq<Field>, loop: FieldLoop, slots: seq<Slot>, seen: set<nat>, tag: nat, wireType: nat,
                        b: Bytes, rest: Bytes)
  {
    IndexOf(ours, tag, 0) == |ours| && 0 < tag < 0x2000_0000 && wireType < 8 && Skips(wireType, b, rest) ==>
      loop(slots, seen, Tag(tag, wireType) + b) == loop(slots, seen, rest)
  }

  ghost predicate TakesAll(ours: seq<Field>, loop: FieldLoop) {
    && (forall slots, seen, i, wireType, b, s, rest :: Takes(ours, loop, slots, seen, i, wireType, b, s, rest))
    && forall slots, seen, tag, wireType, b, rest :: Omits(ours, loop, slots, seen, tag, wireType, b, rest)
  }

  lemma LoopTakes(ours: seq<Field>)
    requires FieldsOk(ours)
    ensures TakesAll(ours, LoopOf(ours))
  {
    forall slots: seq<Slot>, seen: set<nat>, i: nat, wireType: nat, b: Bytes, s: Slot, rest: Bytes
      ensures Takes(ours, LoopOf(ours), slots, seen, i, wireType, b, s, rest) {
      if i < |ours| == |slots| && wireType < 8 && DecodeSlot(ours[i], slots[i], wireType, b) == Good(s, rest) {
        LoopTakesOne(ours, slots, seen, i, wireType, b, s, rest);
      }
    }
    forall slots: seq<Slot>, seen: set<nat>, tag: nat, wireType: nat, b: Bytes, rest: Bytes
      ensures Omits(ours, LoopOf(ours), slots, seen, tag, wireType, b, rest) {
      if IndexOf(ours, tag, 0) == |ours| && 0 < tag < 0x2000_0000 && wireType < 8 && Skips(wireType, b, rest) {
        DecodeTagReads(tag, wireType, b);
      }
    }
  }

  lemma LoopTakesOne(ours: seq<Field>, slots: seq<Slot>, seen: set<nat>, i: nat, wireType: nat, b: Bytes, s: Slot,
                     rest: Bytes)
    requires FieldsOk(ours) && i < |ours| == |slots| && wireType < 8
    requires DecodeSlot(ours[i], slots[i], wireType, b) == Good(s, rest)
    ensures DecodeLoop(ours, slots, seen, Tag(ours[i].tag, wireType) + b)
         == DecodeLoop(ours, SetSlot(ours, slots, i, s), See(ours, i, seen), rest)
  {
    assert FieldOk(ours[i]);
    DecodeTagReads(ours[i].tag, wireType, b);
    IndexOfIs(ours, ours[i].tag, i, 0);
  }

  // ----- Required fields -----------------------------------------------------------------------------

  /** The required fields that have been seen after the first `i` fields of the writer. */
  function SeenBefore(ours: seq<Field>, theirs: seq<Field>, i: nat): set<nat>
    requires i <= |theirs|
  {
    if i == 0 then {}
    else
      var j := IndexOf(ours, theirs[i - 1].tag, 0);
      if j < |ours| then See(ours, j, SeenBefore(ours, theirs, i - 1)) else SeenBefore(ours, theirs, i - 1)
  }

  ghost predicate SeenAs(ours: seq<Field>, theirs: seq<Field>, i: nat, j: nat, r: nat) {
    j < |ours| && Tracked(ours, j) && RequiredBefore(ours, j) == r && IndexOf(theirs, ours[j].tag, 0) < i
  }

  lemma {:induction false} SeenIs(ours: seq<Field>, theirs: seq<Field>, i: nat, r: nat)
    requires FieldsOk(ours) && FieldsOk(theirs) && i <= |theirs|
    ensures r in SeenBefore(ours, theirs, i) <==> exists j: nat :: SeenAs(ours, theirs, i, j, r)
  {
    if i > 0 {
      var tag := theirs[i - 1].tag;
      var at := IndexOf(ours, tag, 0);
      IndexOfIs(theirs, tag, i - 1, 0);
      SeenIs(ours, theirs, i - 1, r);
      forall j: nat | j < |ours| && IndexOf(theirs, ours[j].tag, 0) == i - 1 ensures j == at {
        IndexOfIs(ours, tag, j, 0);
      }
      forall j: nat ensures SeenAs(ours, theirs, i, j, r) <==>
                            SeenAs(ours, theirs, i - 1, j, r)
                            || (j == at && at < |ours| && Tracked(ours, at) && RequiredBefore(ours, at) == r) {
      }
      if at < |ours| && Tracked(ours, at) && RequiredBefore(ours, at) == r {
        assert SeenAs(ours, theirs, i, at, r);
      }
      if r in SeenBefore(ours, theirs, i - 1) {
        var j: nat :| SeenAs(ours, theirs, i - 1, j, r);
        assert SeenAs(ours, theirs, i, j, r);
      }
    }
  }

  lemma {:induction false} RequiredGrows(fields: seq<Field>, i: nat, n: nat)
    requires i <= n <= |fields|
    ensures RequiredBefore(fields, i) <= RequiredBefore(fields, n)
    ensures i < n && fields[i].rule.Required? ==> RequiredBefore(fields, i) < RequiredBefore(fields, n)
    decreases n - i
  {
    if i < n { RequiredGrows(fields, i, n - 1); }
  }

  lemma {:induction false} RequiredAt(fields: seq<Field>, n: nat, r: nat) returns (j: nat)
    requires n <= |fields| && r < RequiredBefore(fields, n)
    ensures j < n && fields[j].rule.Required? && RequiredBefore(fields, j) == r
  {
    if fields[n - 1].rule.Required? && RequiredBefore(fields, n - 1) == r {
      j := n - 1;
    } else {
      j := RequiredAt(fields, n - 1, r);
    }
  }

  /** All are seen exactly when the writer has all that the reader keeps track of. */
  lemma SeenAreAll(ours: seq<Field>, theirs: seq<Field>)
    requires FieldsOk(ours) && FieldsOk(theirs)
    ensures AllSeen(ours, SeenBefore(ours, theirs, |theirs|)) <==> SuppliedAll(ours, theirs)
  {
    var seen := SeenBefore(ours, theirs, |theirs|);
    if SuppliedAll(ours, theirs) {
      forall r: nat | r < RequiredBefore(ours, |ours|) && r < MAX_REQUIRED_FIELDS ensures r in seen {
        var j := RequiredAt(ours, |ours|, r);
        assert Supplied(ours, theirs, j) && SeenAs(ours, theirs, |theirs|, j, r);
        SeenIs(ours, theirs, |theirs|, r);
      }
    }
    if AllSeen(ours, seen) {
      forall j: nat | j < |ours| ensures Supplied(ours, theirs, j) {
        if Tracked(ours, j) { TrackedIsSupplied(ours, theirs, j); }
      }
    }
  }

  lemma TrackedIsSupplied(ours: seq<Field>, theirs: seq<Field>, j: nat)
    requires FieldsOk(ours) && FieldsOk(theirs) && j < |ours| && Tracked(ours, j)
    requires AllSeen(ours, SeenBefore(ours, theirs, |theirs|))
    ensures IndexOf(theirs, ours[j].tag, 0) < |theirs|
  {
    var r := RequiredBefore(ours, j);
    RequiredGrows(ours, j, |ours|);
    SeenIs(ours, theirs, |theirs|, r);
    var at: nat :| SeenAs(ours, theirs, |theirs|, at, r);
    if at < j {
      RequiredGrows(ours, at, j);
    } else if j < at {
      RequiredGrows(ours, j, at);
    }
  }

  // ----- One field -----------------------------------------------------------------------------------

  ghost predicate Encodable(fields: seq<Field>, slots: seq<Slot>) {
    FieldsOk(fields) && TypedAll(fields, slots) && WithinAll(fields, slots)
  }

  lemma SlotOk(fields: seq<Field>, slots: seq<Slot>, i: nat)
    requires Encodable(fields, slots) && i < |fields|
    ensures KindOk(fields[i].kind) && TypedSlot(fields[i], slots[i]) && WithinSlot(fields[i], slots[i])
    ensures slots[i].One? ==> Typed(fields[i].kind, slots[i].v) && Within(fields[i].kind, slots[i].v)
                              && !fields[i].rule.Repeated?
    ensures slots[i].Many? ==> fields[i].rule.Repeated? && |slots[i].vs| <= fields[i].rule.max
    ensures slots[i].Many? ==> forall j: nat | j < |slots[i].vs| :: Typed(fields[i].kind, slots[i].vs[j])
                                                                    && Within(fields[i].kind, slots[i].vs[j])
  {
    var f, s := fields[i], slots[i];
    assert FieldOk(f) && TypedAt(fields, slots, i) && WithinAt(fields, slots, i);
    assert TypedSlot(f, s) && WithinSlot(f, s);
    if s.Many? {
      forall j: nat | j < |s.vs| ensures Typed(f.kind, s.vs[j]) && Within(f.kind, s.vs[j]) {
        assert TypedItem(f, s.vs, j) && WithinItem(f, s.vs, j);
      }
    }
  }

  /** A reader's loop, and a message that a writer has. */
  ghost predicate Meet(ours: seq<Field>, loop: FieldLoop, theirs: seq<Field>, slots: seq<Slot>) {
    FieldsOk(ours) && TakesAll(ours, loop) && Encodable(theirs, slots) && Agree(ours, theirs)
  }

  /** The field of the reader that has the tag of one of the writer's fields. */
  ghost predicate Same(ours: seq<Field>, theirs: seq<Field>, i: nat, j: nat) {
    i < |theirs| && j < |ours| && ours[j].tag == theirs[i].tag
  }

  lemma SameFields(ours: seq<Field>, theirs: seq<Field>, i: nat, j: nat)
    requires FieldsOk(ours) && FieldsOk(theirs) && Agree(ours, theirs) && Same(ours, theirs, i, j)
    ensures FieldOk(ours[j]) && FieldOk(theirs[i]) && FieldFollows(ours[j], theirs[i])
    ensures IndexOf(ours, theirs[i].tag, 0) == j && IndexOf(theirs, ours[j].tag, 0) == i
  {
    assert FollowsAt(ours, theirs, j, i);
    IndexOfIs(ours, theirs[i].tag, j, 0);
    IndexOfIs(theirs, ours[j].tag, i, 0);
  }

  /** The slots of a union that are not there. */
  lemma UnionIsEmpty(ours: seq<Field>, theirs: seq<Field>, slots: seq<Slot>, i: nat, j: nat, n: nat)
    requires FieldsOk(theirs) && Agree(ours, theirs) && TypedAll(theirs, slots) && Same(ours, theirs, i, j)
    requires slots[i].One? && n < |ours| && n != j && SameUnion(ours[j], ours[n])
    ensures Partly(ours, theirs, slots, i)[n] == Absent
  {
    var at := IndexOf(theirs, ours[n].tag, 0);
    if at < i {
      assert FollowsAt(ours, theirs, n, at) && FollowsAt(ours, theirs, j, i) && Shares(theirs, slots, at, i);
      assert FieldFollows(ours[n], theirs[at]) && FieldFollows(ours[j], theirs[i]);
    }
  }

  lemma OneIsSet(ours: seq<Field>, theirs: seq<Field>, slots: seq<Slot>, i: nat, j: nat)
    requires FieldsOk(ours) && FieldsOk(theirs) && Agree(ours, theirs) && TypedAll(theirs, slots)
    requires Same(ours, theirs, i, j) && slots[i].One?
    ensures SetSlot(ours, Partly(ours, theirs, slots, i), j, ViewSlot(ours[j], theirs[i], slots[i]))
         == Partly(ours, theirs, slots, i + 1)
  {
    var before, after := Partly(ours, theirs, slots, i), Partly(ours, theirs, slots, i + 1);
    SameFields(ours, theirs, i, j);
    forall n: nat | n < |ours| && n != j
      ensures after[n] == if SameUnion(ours[j], ours[n]) then Absent else before[n] {
      OthersStay(ours, theirs, slots, i, j, n);
      if SameUnion(ours[j], ours[n]) { UnionIsEmpty(ours, theirs, slots, i, j, n); }
    }
  }

  lemma OthersStay(ours: seq<Field>, theirs: seq<Field>, slots: seq<Slot>, i: nat, j: nat, n: nat)
    requires FieldsOk(ours) && FieldsOk(theirs) && n < |ours| && i < |theirs|
    requires ours[n].tag != theirs[i].tag || (Same(ours, theirs, i, j) && n != j)
    ensures Partly(ours, theirs, slots, i + 1)[n] == Partly(ours, theirs, slots, i)[n]
  {
    if ours[n].tag == theirs[i].tag {
      IndexOfIs(ours, theirs[i].tag, j, 0);
      IndexOfIs(ours, theirs[i].tag, n, 0);
    }
  }

  /** A value is read into a slot that is as at first. */
  lemma OneSlotReads(ours: Field, theirs: Field, v: Val, rest: Bytes)
    requires Fits(ours, theirs, v) && !ours.rule.Repeated?
    ensures DecodeSlot(ours, DefaultSlot(ours), WireType(theirs.kind), EncodeValue(theirs.kind, v) + rest)
         == Good(One(ViewVal(ours.kind, theirs.kind, v)), rest)
    decreases theirs, 1
  {
    FieldValueReads(ours, theirs, v, rest);
  }

  lemma ItemReads(ours: Field, theirs: Field, vs: seq<Val>, v: Val, rest: Bytes)
    requires Fits(ours, theirs, v) && ours.rule.Repeated? && |vs| < ours.rule.max && !Packable(ours.kind)
    ensures DecodeSlot(ours, Many(vs), WireType(theirs.kind), EncodeValue(theirs.kind, v) + rest)
         == Good(Many(vs + [ViewVal(ours.kind, theirs.kind, v)]), rest)
    decreases theirs, 1
  {
    FieldValueReads(ours, theirs, v, rest);
  }

  lemma PackedSlotReads(f: Field, vs: seq<Val>, rest: Bytes)
    requires KindOk(f.kind) && Packable(f.kind) && f.rule.Repeated? && |vs| <= f.rule.max
    requires (forall i: nat | i < |vs| :: Typed(f.kind, vs[i])) && |EncodeAll(f.kind, vs)| < 0x1_0000_0000
    ensures DecodeSlot(f, Many([]), 2, Prefixed(EncodeAll(f.kind, vs)) + rest) == Good(Many(vs), rest)
  {
    assert vs[..0] == [] && vs[0..] == vs;
    PackedReads(f.kind, f.rule.max, vs, 0);
    TakePrefixedReads(EncodeAll(f.kind, vs), rest);
  }

  lemma OneSplits(f: Field, v: Val, rest: Bytes)
    ensures EncodeTagged(f, v) + rest == Tag(f.tag, WireType(f.kind)) + (EncodeValue(f.kind, v) + rest)
    ensures |EncodeValue(f.kind, v)| <= |EncodeTagged(f, v)|
  {
    Associates(Tag(f.tag, WireType(f.kind)), EncodeValue(f.kind, v), rest);
  }

  lemma PackedSplits(f: Field, vs: seq<Val>, rest: Bytes)
    requires vs != [] && Packable(f.kind)
    ensures EncodeSlot(f, Many(vs)) + rest == Tag(f.tag, 2) + (Prefixed(EncodeAll(f.kind, vs)) + rest)
    ensures |EncodeAll(f.kind, vs)| <= |EncodeSlot(f, Many(vs))|
  {
    Associates(Tag(f.tag, 2), Prefixed(EncodeAll(f.kind, vs)), rest);
  }

  lemma Associates(a: Bytes, b: Bytes, c: Bytes)
    ensures (a + b) + c == a + (b + c)
  {
  }

  /** A field that is not repeated. */
  lemma OneReads(ours: seq<Field>, loop: FieldLoop, theirs: seq<Field>, slots: seq<Slot>, i: nat, j: nat, rest: Bytes)
    requires Meet(ours, loop, theirs, slots) && Same(ours, theirs, i, j) && slots[i].One?
    requires |EncodeTagged(theirs[i], slots[i].v)| < 0x1_0000_0000
    ensures loop(Partly(ours, theirs, slots, i), SeenBefore(ours, theirs, i),
                 EncodeTagged(theirs[i], slots[i].v) + rest)
         == loop(Partly(ours, theirs, slots, i + 1), SeenBefore(ours, theirs, i + 1), rest)
    decreases theirs, 0
  {
    var f, v := theirs[i], slots[i].v;
    SlotOk(theirs, slots, i);
    SameFields(ours, theirs, i, j);
    OneSplits(f, v, rest);
    OneSlotReads(ours[j], f, v, rest);
    var before, seen := Partly(ours, theirs, slots, i), SeenBefore(ours, theirs, i);
    assert before[j] == DefaultSlot(ours[j]);
    OneIsSet(ours, theirs, slots, i, j);
    assert Takes(ours, loop, before, seen, j, WireType(f.kind), EncodeValue(f.kind, v) + rest,
                 ViewSlot(ours[j], f, slots[i]), rest);
  }

  /** A message in which an array has its first elements. */
  function Filled(ours: seq<Field>, theirs: seq<Field>, slots: seq<Slot>, i: nat, j: nat, vs: seq<Val>)
      : (out: seq<Slot>)
    requires j < |ours|
    ensures |out| == |ours|
  {
    Partly(ours, theirs, slots, i)[j := Many(vs)]
  }

  lemma FillMore(ours: seq<Field>, theirs: seq<Field>, slots: seq<Slot>, i: nat, j: nat, vs: seq<Val>, more: seq<Val>)
    requires FieldsOk(ours) && FieldsOk(theirs) && Agree(ours, theirs) && |slots| == |theirs|
    requires Same(ours, theirs, i, j) && ours[j].rule.Repeated?
    ensures SetSlot(ours, Filled(ours, theirs, slots, i, j, vs), j, Many(more))
         == Filled(ours, theirs, slots, i, j, more)
    ensures Partly(ours, theirs, slots, i) == Filled(ours, theirs, slots, i, j, [])
    ensures ViewSlot(ours[j], theirs[i], slots[i]) == Many(more) ==>
              Filled(ours, theirs, slots, i, j, more) == Partly(ours, theirs, slots, i + 1)
    ensures SeenBefore(ours, theirs, i + 1) == SeenBefore(ours, theirs, i)
            && See(ours, j, SeenBefore(ours, theirs, i)) == SeenBefore(ours, theirs, i)
  {
    SameFields(ours, theirs, i, j);
    forall n: nat | n < |ours| && n != j
      ensures Partly(ours, theirs, slots, i + 1)[n] == Partly(ours, theirs, slots, i)[n] {
      OthersStay(ours, theirs, slots, i, j, n);
    }
  }

  lemma EachSplits(f: Field, vs: seq<Val>, n: nat, rest: Bytes)
    requires n < |vs|
    ensures EncodeEach(f, vs[n..]) + rest
         == Tag(f.tag, WireType(f.kind)) + (EncodeValue(f.kind, vs[n]) + (EncodeEach(f, vs[n + 1..]) + rest))
    ensures |EncodeEach(f, vs[n + 1..])| <= |EncodeEach(f, vs[n..])|
    ensures |EncodeValue(f.kind, vs[n])| <= |EncodeEach(f, vs[n..])|
  {
    assert vs[n..][0] == vs[n] && vs[n..][1..] == vs[n + 1..];
  }

  lemma ViewMore(ours: Field, theirs: Field, vs: seq<Val>, n: nat)
    requires n < |vs|
    ensures ViewAll(ours, theirs, vs[..n]) + [ViewVal(ours.kind, theirs.kind, vs[n])]
         == ViewAll(ours, theirs, vs[..n + 1])
  {
  }

  /** Elements that have a tag each. */
  lemma {:induction false} EachReads(ours: seq<Field>, loop: FieldLoop, theirs: seq<Field>, slots: seq<Slot>, i: nat,
                                     j: nat, n: nat, rest: Bytes)
    requires Meet(ours, loop, theirs, slots) && Same(ours, theirs, i, j) && slots[i].Many?
    requires !Packable(theirs[i].kind) && n <= |slots[i].vs|
             && |EncodeEach(theirs[i], slots[i].vs[n..])| < 0x1_0000_0000
    ensures loop(Filled(ours, theirs, slots, i, j, ViewAll(ours[j], theirs[i], slots[i].vs[..n])),
                 SeenBefore(ours, theirs, i), EncodeEach(theirs[i], slots[i].vs[n..]) + rest)
         == loop(Filled(ours, theirs, slots, i, j, ViewAll(ours[j], theirs[i], slots[i].vs)),
                 SeenBefore(ours, theirs, i), rest)
    decreases theirs, 0, |slots[i].vs| - n
  {
    var f, vs := theirs[i], slots[i].vs;
    SlotOk(theirs, slots, i);
    SameFields(ours, theirs, i, j);
    if n == |vs| {
      assert vs[..n] == vs && EncodeEach(f, vs[n..]) + rest == rest;
    } else {
      var was, now := ViewAll(ours[j], f, vs[..n]), ViewAll(ours[j], f, vs[..n + 1]);
      var after := EncodeEach(f, vs[n + 1..]) + rest;
      EachSplits(f, vs, n, rest);
      ViewMore(ours[j], f, vs, n);
      ItemReads(ours[j], f, was, vs[n], after);
      assert Takes(ours, loop, Filled(ours, theirs, slots, i, j, was), SeenBefore(ours, theirs, i), j,
                   WireType(f.kind), EncodeValue(f.kind, vs[n]) + after, Many(now), after);
      FillMore(ours, theirs, slots, i, j, was, now);
      EachReads(ours, loop, theirs, slots, i, j, n + 1, rest);
    }
  }

  lemma ManyReads(ours: seq<Field>, loop: FieldLoop, theirs: seq<Field>, slots: seq<Slot>, i: nat, j: nat, rest: Bytes)
    requires Meet(ours, loop, theirs, slots) && Same(ours, theirs, i, j) && slots[i].Many?
    requires |EncodeSlot(theirs[i], slots[i])| < 0x1_0000_0000
    ensures loop(Partly(ours, theirs, slots, i), SeenBefore(ours, theirs, i), EncodeSlot(theirs[i], slots[i]) + rest)
         == loop(Partly(ours, theirs, slots, i + 1), SeenBefore(ours, theirs, i + 1), rest)
    decreases theirs, 1
  {
    var f, vs := theirs[i], slots[i].vs;
    SlotOk(theirs, slots, i);
    SameFields(ours, theirs, i, j);
    FillMore(ours, theirs, slots, i, j, [], ViewAll(ours[j], f, vs));
    if vs == [] {
      assert EncodeSlot(f, slots[i]) + rest == rest;
    } else if Packable(f.kind) {
      var b := Prefixed(EncodeAll(f.kind, vs));
      PackedSplits(f, vs, rest);
      PackedSlotReads(ours[j], vs, rest);
      assert ViewAll(ours[j], f, vs) == vs && Partly(ours, theirs, slots, i)[j] == Many([]);
      assert Takes(ours, loop, Partly(ours, theirs, slots, i), SeenBefore(ours, theirs, i), j, 2, b + rest, slots[i],
                   rest);
    } else {
      assert vs[..0] == [] && vs[0..] == vs && ViewAll(ours[j], f, []) == [];
      EachReads(ours, loop, theirs, slots, i, j, 0, rest);
    }
  }

  /** A field that is not written is as at first. */
  lemma NoneReads(ours: seq<Field>, theirs: seq<Field>, slots: seq<Slot>, i: nat, j: nat)
    requires FieldsOk(ours) && FieldsOk(theirs) && Agree(ours, theirs) && |slots| == |theirs|
    requires Same(ours, theirs, i, j) && TypedSlot(theirs[i], slots[i])
    requires slots[i].Absent? || (slots[i].One? && theirs[i].rule.Singular? && IsZero(theirs[i].kind, slots[i].v))
    ensures EncodeSlot(theirs[i], slots[i]) == []
    ensures Partly(ours, theirs, slots, i) == Partly(ours, theirs, slots, i + 1)
            && SeenBefore(ours, theirs, i) == SeenBefore(ours, theirs, i + 1)
  {
    SameFields(ours, theirs, i, j);
    DefaultsAgree(theirs[i], slots[i]);
    DefaultIsSeen(ours[j], theirs[i]);
    forall n: nat | n < |ours|
      ensures Partly(ours, theirs, slots, i + 1)[n] == Partly(ours, theirs, slots, i)[n] {
      if n != j { OthersStay(ours, theirs, slots, i, j, n); }
    }
  }

  /** A field that both have. */
  lemma KnownSlotReads(ours: seq<Field>, loop: FieldLoop, theirs: seq<Field>, slots: seq<Slot>, i: nat, j: nat,
                       rest: Bytes)
    requires Meet(ours, loop, theirs, slots) && Same(ours, theirs, i, j)
    requires |EncodeSlot(theirs[i], slots[i])| < 0x1_0000_0000
    ensures loop(Partly(ours, theirs, slots, i), SeenBefore(ours, theirs, i), EncodeSlot(theirs[i], slots[i]) + rest)
         == loop(Partly(ours, theirs, slots, i + 1), SeenBefore(ours, theirs, i + 1), rest)
    decreases theirs, 2
  {
    var f, s := theirs[i], slots[i];
    SlotOk(theirs, slots, i);
    if s.Many? {
      ManyReads(ours, loop, theirs, slots, i, j, rest);
    } else if s.Absent? || (f.rule.Singular? && IsZero(f.kind, s.v)) {
      NoneReads(ours, theirs, slots, i, j);
      assert EncodeSlot(f, s) + rest == rest;
    } else {
      OneReads(ours, loop, theirs, slots, i, j, rest);
    }
  }

  // ----- Fields that the reader does not have --------------------------------------------------------

  lemma {:induction false} EachIsOmitted(ours: seq<Field>, loop: FieldLoop, f: Field, now: seq<Slot>, seen: set<nat>,
                                         vs: seq<Val>, n: nat, rest: Bytes)
    requires TakesAll(ours, loop) && FieldOk(f) && IndexOf(ours, f.tag, 0) == |ours| && n <= |vs|
    requires (forall i: nat | i < |vs| :: TypedItem(f, vs, i)) && |EncodeEach(f, vs[n..])| < 0x1_0000_0000
    ensures loop(now, seen, EncodeEach(f, vs[n..]) + rest) == loop(now, seen, rest)
    decreases |vs| - n
  {
    if n == |vs| {
      assert EncodeEach(f, vs[n..]) + rest == rest;
    } else {
      var after := EncodeEach(f, vs[n + 1..]) + rest;
      EachSplits(f, vs, n, rest);
      assert TypedItem(f, vs, n);
      SkipsValue(f.kind, vs[n], after);
      assert Omits(ours, loop, now, seen, f.tag, WireType(f.kind), EncodeValue(f.kind, vs[n]) + after, after);
      EachIsOmitted(ours, loop, f, now, seen, vs, n + 1, rest);
    }
  }

  lemma OneIsOmitted(ours: seq<Field>, loop: FieldLoop, f: Field, now: seq<Slot>, seen: set<nat>, v: Val, rest: Bytes)
    requires TakesAll(ours, loop) && FieldOk(f) && IndexOf(ours, f.tag, 0) == |ours| && Typed(f.kind, v)
    requires |EncodeTagged(f, v)| < 0x1_0000_0000
    ensures loop(now, seen, EncodeTagged(f, v) + rest) == loop(now, seen, rest)
  {
    OneSplits(f, v, rest);
    SkipsValue(f.kind, v, rest);
    assert Omits(ours, loop, now, seen, f.tag, WireType(f.kind), EncodeValue(f.kind, v) + rest, rest);
  }

  lemma PackedIsOmitted(ours: seq<Field>, loop: FieldLoop, f: Field, now: seq<Slot>, seen: set<nat>, vs: seq<Val>,
                        rest: Bytes)
    requires TakesAll(ours, loop) && FieldOk(f) && IndexOf(ours, f.tag, 0) == |ours|
    requires vs != [] && Packable(f.kind) && |EncodeSlot(f, Many(vs))| < 0x1_0000_0000
    ensures loop(now, seen, EncodeSlot(f, Many(vs)) + rest) == loop(now, seen, rest)
  {
    PackedSplits(f, vs, rest);
    SkipsPrefixed(EncodeAll(f.kind, vs), rest);
    assert Omits(ours, loop, now, seen, f.tag, 2, Prefixed(EncodeAll(f.kind, vs)) + rest, rest);
  }

  /** Whatever the field holds, it is left out as a whole. */
  lemma SlotIsOmitted(ours: seq<Field>, loop: FieldLoop, f: Field, s: Slot, now: seq<Slot>, seen: set<nat>,
                      rest: Bytes)
    requires TakesAll(ours, loop) && FieldOk(f) && IndexOf(ours, f.tag, 0) == |ours|
    requires TypedSlot(f, s) && |EncodeSlot(f, s)| < 0x1_0000_0000
    ensures loop(now, seen, EncodeSlot(f, s) + rest) == loop(now, seen, rest)
  {
    match s {
      case Absent => assert EncodeSlot(f, s) + rest == rest;
      case One(v) =>
        if f.rule.Singular? && IsZero(f.kind, v) {
          assert EncodeSlot(f, s) + rest == rest;
        } else {
          OneIsOmitted(ours, loop, f, now, seen, v, rest);
        }
      case Many(vs) => ManyAreOmitted(ours, loop, f, now, seen, vs, rest);
    }
  }

  lemma ManyAreOmitted(ours: seq<Field>, loop: FieldLoop, f: Field, now: seq<Slot>, seen: set<nat>, vs: seq<Val>,
                       rest: Bytes)
    requires TakesAll(ours, loop) && FieldOk(f) && IndexOf(ours, f.tag, 0) == |ours|
    requires TypedSlot(f, Many(vs)) && |EncodeSlot(f, Many(vs))| < 0x1_0000_0000
    ensures loop(now, seen, EncodeSlot(f, Many(vs)) + rest) == loop(now, seen, rest)
  {
    if vs == [] {
      assert EncodeSlot(f, Many(vs)) + rest == rest;
    } else if Packable(f.kind) {
      PackedIsOmitted(ours, loop, f, now, seen, vs, rest);
    } else {
      assert vs[0..] == vs;
      EachIsOmitted(ours, loop, f, now, seen, vs, 0, rest);
    }
  }

  lemma OmittedStays(ours: seq<Field>, theirs: seq<Field>, slots: seq<Slot>, i: nat)
    requires FieldsOk(ours) && FieldsOk(theirs) && i < |theirs| && IndexOf(ours, theirs[i].tag, 0) == |ours|
    ensures Partly(ours, theirs, slots, i) == Partly(ours, theirs, slots, i + 1)
            && SeenBefore(ours, theirs, i) == SeenBefore(ours, theirs, i + 1)
  {
    forall n: nat | n < |ours|
      ensures Partly(ours, theirs, slots, i + 1)[n] == Partly(ours, theirs, slots, i)[n] {
      OthersStay(ours, theirs, slots, i, 0, n);
    }
  }

  // ----- Messages ------------------------------------------------------------------------------------

  lemma SlotReads(ours: seq<Field>, loop: FieldLoop, theirs: seq<Field>, slots: seq<Slot>, i: nat, rest: Bytes)
    requires Meet(ours, loop, theirs, slots) && i < |theirs|
    requires |EncodeSlot(theirs[i], slots[i])| < 0x1_0000_0000
    ensures loop(Partly(ours, theirs, slots, i), SeenBefore(ours, theirs, i), EncodeSlot(theirs[i], slots[i]) + rest)
         == loop(Partly(ours, theirs, slots, i + 1), SeenBefore(ours, theirs, i + 1), rest)
    decreases theirs, 3
  {
    var j := IndexOf(ours, theirs[i].tag, 0);
    if j < |ours| {
      KnownSlotReads(ours, loop, theirs, slots, i, j, rest);
    } else {
      OmittedStays(ours, theirs, slots, i);
      SlotOk(theirs, slots, i);
      assert FieldOk(theirs[i]);
      SlotIsOmitted(ours, loop, theirs[i], slots[i], Partly(ours, theirs, slots, i), SeenBefore(ours, theirs, i), rest);
    }
  }

  lemma {:induction false} FieldsRead(ours: seq<Field>, loop: FieldLoop, theirs: seq<Field>, slots: seq<Slot>, i: nat)
    requires Meet(ours, loop, theirs, slots) && i <= |theirs|
    requires |EncodeFields(theirs, slots, i)| < 0x1_0000_0000
    ensures loop(Partly(ours, theirs, slots, i), SeenBefore(ours, theirs, i), EncodeFields(theirs, slots, i))
         == loop(View(ours, theirs, slots), SeenBefore(ours, theirs, |theirs|), [])
    decreases theirs, 4, |theirs| - i
  {
    if i < |theirs| {
      SlotReads(ours, loop, theirs, slots, i, EncodeFields(theirs, slots, i + 1));
      FieldsRead(ours, loop, theirs, slots, i + 1);
    }
  }

  /** A message decoded with another description is what that description shows of it, unless the
      reader asks for a field that the writer does not have. */
  lemma MessageIsViewed(ours: seq<Field>, theirs: seq<Field>, slots: seq<Slot>)
    requires FieldsOk(ours) && FieldsOk(theirs) && Agree(ours, theirs)
    requires TypedAll(theirs, slots) && WithinAll(theirs, slots) && |EncodeMessage(theirs, slots)| < 0x1_0000_0000
    ensures DecodeMessage(ours, EncodeMessage(theirs, slots))
         == if SuppliedAll(ours, theirs) then Done(View(ours, theirs, slots)) else Error
    decreases theirs, 5
  {
    LoopTakes(ours);
    FieldsRead(ours, LoopOf(ours), theirs, slots, 0);
    assert Partly(ours, theirs, slots, 0) == Defaults(ours);
    SeenAreAll(ours, theirs);
  }

  /** Whatever the description and the message, decoding gives back what was encoded. */
  lemma MessageReads(fields: seq<Field>, slots: seq<Slot>)
    requires FieldsOk(fields) && TypedAll(fields, slots) && WithinAll(fields, slots)
    requires |EncodeMessage(fields, slots)| < 0x1_0000_0000
    ensures DecodeMessage(fields, EncodeMessage(fields, slots)) == Done(slots)
  {
    FollowsItself(fields);
    MessageIsViewed(fields, fields, slots);
    AllIsSeen(fields, slots);
  }
}
