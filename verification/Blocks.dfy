/** The layout of a table block: prefix-compressed entries, restart points, and a trailer. */
module Blocks {
  import opened Coding

  /** An entry as it is stored; `shared` bytes of its key are those of the key before it. */
  datatype Slot = Slot(shared: nat, key: Bytes, value: Bytes)

  function Delta(s: Slot): Bytes {
    if s.shared <= |s.key| then s.key[s.shared..] else []
  }

  function Encode(s: Slot): Bytes {
    Varint(s.shared) + Varint(|Delta(s)|) + Varint(|s.value|) + Delta(s) + s.value
  }

  // ----- One entry ------------------------------------------------------------------------------------

  datatype Decoded = Malformed | Decoded(shared: nat, nonShared: nat, valueLength: nat, header: nat)

  /** The three lengths in front of an entry, with a short cut for small ones. */
  function DecodeLengths(b: Bytes): (d: Decoded)
    ensures d.Decoded? ==> 3 <= d.header <= |b|
  {
    if |b| < 3 then Malformed
    else if b[0] < 128 && b[1] < 128 && b[2] < 128 then Decoded(b[0], b[1], b[2], 3)
    else
      match GetVarint32(b)
      case Bad => Malformed
      case Good(shared, rest) =>
        match GetVarint32(rest)
        case Bad => Malformed
        case Good(nonShared, rest') =>
          match GetVarint32(rest')
          case Bad => Malformed
          case Good(valueLength, rest'') => Decoded(shared, nonShared, valueLength, |b| - |rest''|)
  }

  /** The bytes that are left are compared with the sum of two lengths, both in 32 bits. */
  function DecodeEntry(b: Bytes): (d: Decoded)
    ensures d.Decoded? ==> 3 <= d.header <= |b|
  {
    var d := DecodeLengths(b);
    if d.Malformed? || (|b| - d.header) % 0x1_0000_0000 < (d.nonShared + d.valueLength) % 0x1_0000_0000 then Malformed
        else d
  }

  /** The entry is accepted, but it does not end inside `b`. */
  predicate Leaves(b: Bytes) {
    var d := DecodeEntry(b);
    d.Decoded? && d.header + d.nonShared + d.valueLength > |b|
  }

  predicate SumFits(d: Decoded) {
    d.Decoded? ==> d.nonShared + d.valueLength < 0x1_0000_0000
  }

  /** The comparison keeps an entry inside a region of less than 4 GB exactly when the sum of the
      lengths does not wrap. */
  lemma LeavesExactly(b: Bytes)
    requires |b| < 0x1_0000_0000 && DecodeEntry(b).Decoded?
    ensures Leaves(b) <==> DecodeEntry(b).nonShared + DecodeEntry(b).valueLength >= 0x1_0000_0000
  {
  }

  /** Eight bytes that pass for an entry with a key of four gigabytes. */
  lemma SmallEntryLeaves()
    ensures var b: Bytes := [0x00, 0xff, 0xff, 0xff, 0xff, 0x0f, 0x02, 0x41];
            DecodeEntry(b) == Decoded(0, 0xffff_ffff, 2, 7) && Leaves(b)
  {
    var b: Bytes := [0x00, 0xff, 0xff, 0xff, 0xff, 0x0f, 0x02, 0x41];
    LargestVarint();
    AllLengthsRead(0, 0xffff_ffff, 2, [0x41]);
    assert Varint(0) + (Varint(0xffff_ffff) + (Varint(2) + [0x41])) == b;
    assert DecodeLengths(b) == Decoded(0, 0xffff_ffff, 2, 7);
  }

  lemma LargestVarint()
    ensures Varint(0xffff_ffff) == [0xff, 0xff, 0xff, 0xff, 0x0f] && Varint(0) == [0] && Varint(2) == [2]
  {
    EncodeVarint32IsVarint(0xffff_ffff);
  }

  lemma VarintReads(v: uint32, rest: Bytes)
    ensures GetVarint32(Varint(v) + rest) == Good(v, rest)
    ensures Varint(v)[0] < 128 ==> Varint(v) == [v]
  {
    EncodeVarint32IsVarint(v);
    Varint32RoundTrip(v, rest);
  }

  /** The short cut reads what the long way reads. */
  lemma LengthsRead(a: Bytes, b: Bytes, c: Bytes, x: nat, y: nat, z: nat, rest: Bytes)
    requires a != [] && b != [] && c != []
    requires GetVarint32(a + (b + (c + rest))) == Good(x, b + (c + rest)) && (a[0] < 128 ==> a == [x])
    requires GetVarint32(b + (c + rest)) == Good(y, c + rest) && (b[0] < 128 ==> b == [y])
    requires GetVarint32(c + rest) == Good(z, rest) && (c[0] < 128 ==> c == [z])
    ensures DecodeLengths(a + (b + (c + rest))) == Decoded(x, y, z, |a| + |b| + |c|)
  {
    var all := a + (b + (c + rest));
    if all[0] < 128 {
      assert all[1..] == b + (c + rest);
      assert all[1] == b[0];
      if b[0] < 128 {
        assert all[2] == (b + (c + rest))[1] == c[0];
      }
    }
  }

  ghost predicate Small(s: Slot) {
    s.shared <= |s.key| < 0x1_0000_0000 && |s.value| < 0x1_0000_0000
  }

  /** What decoding gives for an entry, wherever it starts. */
  ghost predicate Decodes(b: Bytes, s: Slot, size: nat) {
    var d := DecodeEntry(b);
    && d.Decoded? && d.shared == s.shared && d.nonShared == |Delta(s)| && d.valueLength == |s.value|
    && d.header + d.nonShared + d.valueLength == size <= |b|
    && b[d.header..d.header + d.nonShared] == Delta(s)
    && b[d.header + d.nonShared..d.header + d.nonShared + d.valueLength] == s.value
  }

  lemma DecodeLaid(b: Bytes, s: Slot, h: nat)
    requires DecodeLengths(b) == Decoded(s.shared, |Delta(s)|, |s.value|, h)
             && h + |Delta(s)| + |s.value| <= |b| < 0x1_0000_0000
    requires b[h..h + |Delta(s)|] == Delta(s) && b[h + |Delta(s)|..h + |Delta(s)| + |s.value|] == s.value
    ensures Decodes(b, s, h + |Delta(s)| + |s.value|)
  {
  }

  lemma AllLengthsRead(x: nat, y: nat, z: nat, tail: Bytes)
    requires x < 0x1_0000_0000 && y < 0x1_0000_0000 && z < 0x1_0000_0000
    ensures DecodeLengths(Varint(x) + (Varint(y) + (Varint(z) + tail)))
            == Decoded(x, y, z, |Varint(x)| + |Varint(y)| + |Varint(z)|)
  {
    VarintReads(x, Varint(y) + (Varint(z) + tail));
    VarintReads(y, Varint(z) + tail);
    VarintReads(z, tail);
    LengthsRead(Varint(x), Varint(y), Varint(z), x, y, z, tail);
  }

  lemma Parts(x: Bytes, y: Bytes, z: Bytes, delta: Bytes, value: Bytes, rest: Bytes)
    ensures var b, h := x + y + z + delta + value + rest, |x| + |y| + |z|;
            && b == x + (y + (z + (delta + value + rest)))
            && b[h..h + |delta|] == delta && b[h + |delta|..h + |delta| + |value|] == value
  {
  }

  lemma DecodeEncoded(s: Slot, rest: Bytes)
    requires Small(s) && |Encode(s) + rest| < 0x1_0000_0000
    ensures Decodes(Encode(s) + rest, s, |Encode(s)|)
  {
    DecodeParts(Varint(s.shared), Varint(|Delta(s)|), Varint(|s.value|), s, rest);
  }

  lemma DecodeParts(x: Bytes, y: Bytes, z: Bytes, s: Slot, rest: Bytes)
    requires x == Varint(s.shared) && y == Varint(|Delta(s)|) && z == Varint(|s.value|) && Small(s)
    requires |x + y + z + Delta(s) + s.value + rest| < 0x1_0000_0000
    ensures Decodes(x + y + z + Delta(s) + s.value + rest, s, |x| + |y| + |z| + |Delta(s)| + |s.value|)
  {
    var b := x + y + z + Delta(s) + s.value + rest;
    AllLengthsRead(s.shared, |Delta(s)|, |s.value|, Delta(s) + s.value + rest);
    Parts(x, y, z, Delta(s), s.value, rest);
    DecodeLaid(b, s, |x| + |y| + |z|);
  }

  // ----- All entries ----------------------------------------------------------------------------------

  /** The entry at an index lies between two offsets of the data. */
  ghost predicate Stored(data: Bytes, slots: seq<Slot>, offsets: seq<nat>, i: nat)
    requires |offsets| == |slots| + 1 && i < |slots|
  {
    offsets[i] <= offsets[i + 1] <= |data| && data[offsets[i]..offsets[i + 1]] == Encode(slots[i])
  }

  /** Each entry shares no more than the key before it has. */
  ghost predicate Chained(slots: seq<Slot>, i: nat)
    requires i < |slots|
  {
    && Small(slots[i])
    && if i == 0 then slots[i].shared == 0
       else slots[i].shared <= |slots[i - 1].key|
            && slots[i].key[..slots[i].shared] == slots[i - 1].key[..slots[i].shared]
  }

  /** The data are these entries, one after the other. */
  ghost predicate Entries(data: Bytes, slots: seq<Slot>, offsets: seq<nat>) {
    && |offsets| == |slots| + 1 && offsets[0] == 0 && offsets[|slots|] == |data|
    && forall i | 0 <= i < |slots| :: Stored(data, slots, offsets, i) && Chained(slots, i)
  }

  lemma EncodeIsShort(s: Slot)
    requires Small(s)
    ensures |Encode(s)| <= 15 + |s.key| + |s.value|
  {
    assert Pow128(5) == 128 * (128 * (128 * (128 * (128 * Pow128(0)))));
    VarintLength(s.shared, 5);
    VarintLength(|Delta(s)|, 5);
    VarintLength(|s.value|, 5);
  }

  lemma EncodeIsLong(s: Slot)
    ensures |Encode(s)| >= 3
  {
  }

  /** Offsets grow with the index. */
  lemma {:induction false} OffsetsGrow(data: Bytes, slots: seq<Slot>, offsets: seq<nat>, i: nat, j: nat)
    requires Entries(data, slots, offsets) && i < j <= |slots|
    ensures offsets[i] < offsets[j]
    decreases j
  {
    assert Stored(data, slots, offsets, j - 1);
    EncodeIsLong(slots[j - 1]);
    if i < j - 1 {
      OffsetsGrow(data, slots, offsets, i, j - 1);
    }
  }

  lemma OffsetOrder(data: Bytes, slots: seq<Slot>, offsets: seq<nat>, i: nat, j: nat)
    requires Entries(data, slots, offsets) && i <= |slots| && j <= |slots|
    ensures offsets[i] < offsets[j] <==> i < j
  {
    if i < j { OffsetsGrow(data, slots, offsets, i, j); }
    if j < i { OffsetsGrow(data, slots, offsets, j, i); }
  }

  /** Restart points are indices of entries that share nothing, the first of them 0. */
  ghost predicate Restarts(slots: seq<Slot>, rs: seq<nat>) {
    && rs != [] && rs[0] == 0
    && (forall k | 0 < k < |rs| :: rs[k] < |slots| && slots[rs[k]].shared == 0)
    && (forall k | 0 < k < |rs| :: rs[k - 1] < rs[k])
  }

  ghost predicate PointTo(restarts: seq<nat>, slots: seq<Slot>, offsets: seq<nat>, rs: seq<nat>) {
    && Restarts(slots, rs) && |restarts| == |rs| && |offsets| == |slots| + 1
    && forall k | 0 <= k < |rs| :: restarts[k] == offsets[rs[k]]
  }

  /** The restart array of the trailer. */
  function OffsetsOf(restarts: seq<nat>): (b: Bytes)
    ensures |b| == 4 * |restarts|
  {
    if restarts == [] then [] else OffsetsOf(restarts[..|restarts| - 1]) + Fixed(restarts[|restarts| - 1], 4)
  }

  lemma {:induction false} OffsetAt(restarts: seq<nat>, k: nat)
    requires k < |restarts|
    ensures OffsetsOf(restarts)[4 * k..4 * k + 4] == Fixed(restarts[k], 4)
  {
    if k < |restarts| - 1 {
      var front := restarts[..|restarts| - 1];
      OffsetAt(front, k);
      assert OffsetsOf(restarts)[4 * k..4 * k + 4] == OffsetsOf(front)[4 * k..4 * k + 4];
    }
  }

  /** What a block is made of; of interest to proofs only. */
  datatype Layout = Layout(data: Bytes, slots: seq<Slot>, offsets: seq<nat>, rs: seq<nat>, restarts: seq<nat>)

  ghost predicate Laid(block: Bytes, l: Layout) {
    |block| < 0x1_0000_0000 && LaidOut(block, l)
  }

  ghost predicate LaidOut(block: Bytes, l: Layout) {
    && Entries(l.data, l.slots, l.offsets) && PointTo(l.restarts, l.slots, l.offsets, l.rs)
    && block == l.data + OffsetsOf(l.restarts) + Fixed(|l.restarts|, 4)
  }

  lemma FourBytes(v: nat)
    requires v < 0x1_0000_0000
    ensures DecodeFixed(Fixed(v, 4)) == v
  {
    Widths();
    FixedRoundTrip(v, 4);
  }

  lemma TrailerRead(block: Bytes, l: Layout)
    requires Laid(block, l)
    ensures |block| == |l.data| + 4 * |l.rs| + 4
    ensures DecodeFixed(block[|block| - 4..]) == |l.rs|
  {
    assert block[|block| - 4..] == Fixed(|l.rs|, 4);
    FourBytes(|l.rs|);
  }

  lemma RestartRead(block: Bytes, l: Layout, k: nat)
    requires Laid(block, l) && k < |l.rs|
    ensures var at := |l.data| + 4 * k;
            at + 4 <= |block| && l.rs[k] <= |l.slots| && DecodeFixed(block[at..at + 4]) == l.offsets[l.rs[k]]
  {
    var at := |l.data| + 4 * k;
    assert block[at..at + 4] == OffsetsOf(l.restarts)[4 * k..4 * k + 4];
    OffsetAt(l.restarts, k);
    OffsetOrder(l.data, l.slots, l.offsets, |l.slots|, l.rs[k]);
    FourBytes(l.restarts[k]);
  }

  /** The entry that begins at `at`, in front of `end`, is this one. */
  ghost predicate ReadsAt(block: Bytes, at: nat, end: nat, s: Slot, next: nat)
    requires at <= end <= |block|
  {
    var d := DecodeEntry(block[at..end]);
    && d.Decoded? && d.shared == s.shared && d.nonShared == |Delta(s)| && d.valueLength == |s.value|
    && at + d.header + d.nonShared + d.valueLength == next <= end
    && block[at + d.header..at + d.header + d.nonShared] == Delta(s)
    && block[at + d.header + d.nonShared..at + d.header + d.nonShared + d.valueLength] == s.value
  }

  lemma DecodesInPlace(block: Bytes, at: nat, end: nat, s: Slot, next: nat)
    requires at <= end <= |block| && at <= next && Decodes(block[at..end], s, next - at)
    ensures ReadsAt(block, at, end, s, next)
  {
    var d := DecodeEntry(block[at..end]);
    var v := d.header + d.nonShared;
    SliceOfSlice(block, at, end, d.header, v);
    SliceOfSlice(block, at, end, v, v + d.valueLength);
  }

  lemma EntryRead(block: Bytes, l: Layout, i: nat)
    requires Laid(block, l) && i < |l.slots|
    ensures l.offsets[i] < |l.data| <= |block| && ReadsAt(block, l.offsets[i], |l.data|, l.slots[i], l.offsets[i + 1])
  {
    var at, next, end := l.offsets[i], l.offsets[i + 1], |l.data|;
    assert Stored(l.data, l.slots, l.offsets, i) && Chained(l.slots, i);
    EncodeIsLong(l.slots[i]);
    assert block[at..end] == l.data[at..next] + l.data[next..];
    DecodeEncoded(l.slots[i], l.data[next..]);
    DecodesInPlace(block, at, end, l.slots[i], next);
  }
}
