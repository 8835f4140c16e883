/** Messages one behind the other are decoded as one: the second is decoded on top of the first. */
module PbConcat {
  import opened Coding
  import opened PbMessages
  import opened PbEncoding
  import opened PbDecoding
  import opened PbViews
  import opened PbRoundTrip

  // ----- What was read stays when more follows ---------------------------------------------------------

  /** The parser reads the same when more follows, and leaves that. */
  ghost predicate Stays<T(!new)>(p: Parsed<T>, q: Parsed<T>, more: Bytes) {
    p.Good? ==> q == Good(p.value, p.rest + more)
  }

  lemma {:induction false} MoreVarintStays(b: Bytes, bitpos: nat, result: nat, more: Bytes)
    ensures Stays(MoreVarint32(b, bitpos, result), MoreVarint32(b + more, bitpos, result), more)
    decreases |b|
  {
    if b != [] {
      assert (b + more)[1..] == b[1..] + more;
      if MayFollow(b[0], bitpos, result) && b[0] >= 128 {
        MoreVarintStays(b[1..], (bitpos + 7) % 256, AddBits(result, b[0] % 128, bitpos), more);
      }
    }
  }

  lemma Varint32Stays(b: Bytes, more: Bytes)
    ensures Stays(DecodeVarint32(b), DecodeVarint32(b + more), more)
  {
    if b != [] {
      assert (b + more)[1..] == b[1..] + more;
      MoreVarintStays(b[1..], 7, b[0] - if b[0] < 128 then 0 else 128, more);
    }
  }

  lemma {:induction false} VarintFromStays(b: Bytes, left: nat, scale: nat, acc: nat, more: Bytes)
    ensures Stays(GetVarintFrom(b, left, scale, acc), GetVarintFrom(b + more, left, scale, acc), more)
    decreases |b|
  {
    if b != [] {
      assert (b + more)[1..] == b[1..] + more;
      if left > 0 && b[0] >= 128 {
        VarintFromStays(b[1..], left - 1, scale * 128, acc + (b[0] - 128) * scale, more);
      }
    }
  }

  lemma Varint64Stays(b: Bytes, more: Bytes)
    ensures Stays(GetVarint64(b), GetVarint64(b + more), more)
  {
    VarintFromStays(b, 10, 1, 0, more);
  }

  lemma TakeStays(b: Bytes, n: nat, more: Bytes)
    ensures Stays(Take(b, n), Take(b + more, n), more)
  {
    if n <= |b| {
      assert (b + more)[..n] == b[..n] && (b + more)[n..] == b[n..] + more;
    }
  }

  lemma PrefixedStays(b: Bytes, more: Bytes)
    ensures Stays(TakePrefixed(b), TakePrefixed(b + more), more)
  {
    Varint32Stays(b, more);
    if DecodeVarint32(b).Good? { TakeStays(DecodeVarint32(b).rest, DecodeVarint32(b).value, more); }
  }

  lemma {:induction false} SkipVarintStays(b: Bytes, more: Bytes)
    ensures Stays(SkipVarint(b), SkipVarint(b + more), more)
  {
    if b != [] {
      assert (b + more)[1..] == b[1..] + more;
      SkipVarintStays(b[1..], more);
    }
  }

  lemma SkipStays(wireType: nat, b: Bytes, more: Bytes)
    ensures Stays(Skip(wireType, b), Skip(wireType, b + more), more)
  {
    SkipVarintStays(b, more);
    TakeStays(b, 8, more);
    TakeStays(b, 4, more);
    PrefixedStays(b, more);
  }

  lemma NumberStays(k: Kind, b: Bytes, more: Bytes)
    ensures Stays(DecodeNumber(k, b), DecodeNumber(k, b + more), more)
  {
    Varint32Stays(b, more);
    Varint64Stays(b, more);
    TakeStays(b, 4, more);
    TakeStays(b, 8, more);
  }

  lemma DataStays(k: Kind, b: Bytes, more: Bytes)
    ensures Stays(DecodeData(k, b), DecodeData(k, b + more), more)
  {
    Varint32Stays(b, more);
    if DecodeVarint32(b).Good? { TakeStays(DecodeVarint32(b).rest, DecodeVarint32(b).value, more); }
  }

  lemma ValueStays(k: Kind, was: Val, b: Bytes, more: Bytes)
    ensures Stays(DecodeValue(k, was, b), DecodeValue(k, was, b + more), more)
  {
    if k.Sub? {
      PrefixedStays(b, more);
    } else if k.Blob? || k.Text? || k.FixedBlob? {
      DataStays(k, b, more);
    } else {
      NumberStays(k, b, more);
    }
  }

  lemma SlotStays(f: Field, s: Slot, wireType: nat, b: Bytes, more: Bytes)
    ensures Stays(DecodeSlot(f, s, wireType, b), DecodeSlot(f, s, wireType, b + more), more)
  {
    PrefixedStays(b, more);
    ValueStays(f.kind, if s.One? then s.v else Zero(f.kind), b, more);
    ValueStays(f.kind, Zero(f.kind), b, more);
  }

  lemma TagStays(b: Bytes, more: Bytes)
    requires DecodeTag(b).Tagged?
    ensures DecodeTag(b + more) == DecodeTag(b).(rest := DecodeTag(b).rest + more)
  {
    Varint32Stays(b, more);
  }

  // ----- The loop goes on ------------------------------------------------------------------------------

  /** The bytes are read to their end; no zero ends them early. */
  ghost predicate Through(fields: seq<Field>, slots: seq<Slot>, seen: set<nat>, b: Bytes)
    decreases |b|
  {
    b == [] ||
    match DecodeTag(b)
    case Tagged(tag, wireType, rest) =>
      var i := IndexOf(fields, tag, 0);
      if IsTerminator(fields, tag) then
        (match DecodeVarint32(rest)
         case Bad => false
         case Good(_, after) => Through(fields, slots, seen + {0}, after))
      else if i == |fields| || i >= |slots| then
        (match Skip(wireType, rest)
         case Bad => false
         case Good(_, after) => Through(fields, slots, seen, after))
      else
        (match DecodeSlot(fields[i], slots[i], wireType, rest)
         case Bad => false
         case Good(s, after) => Through(fields, SetSlot(fields, slots, i, s), See(fields, i, seen), after))
    case _ => false
  }

  /** What follows is decoded on top of what was decoded before it. */
  lemma {:induction false} LoopGoesOn(fields: seq<Field>, slots: seq<Slot>, seen: set<nat>, b: Bytes, more: Bytes)
    requires Through(fields, slots, seen, b)
    ensures var d := DecodeLoop(fields, slots, seen, b);
            d.Decoded? && DecodeLoop(fields, slots, seen, b + more) == DecodeLoop(fields, d.slots, d.seen, more)
    decreases |b|
  {
    if b == [] {
      assert b + more == more;
    } else {
      var tag, wireType, rest := DecodeTag(b).tag, DecodeTag(b).wireType, DecodeTag(b).rest;
      var i := IndexOf(fields, tag, 0);
      TagStays(b, more);
      if IsTerminator(fields, tag) {
        Varint32Stays(rest, more);
        LoopGoesOn(fields, slots, seen + {0}, DecodeVarint32(rest).rest, more);
      } else if i == |fields| || i >= |slots| {
        SkipStays(wireType, rest, more);
        LoopGoesOn(fields, slots, seen, Skip(wireType, rest).rest, more);
      } else {
        var p := DecodeSlot(fields[i], slots[i], wireType, rest);
        SlotStays(fields[i], slots[i], wireType, rest, more);
        LoopGoesOn(fields, SetSlot(fields, slots, i, p.value), See(fields, i, seen), p.rest, more);
      }
    }
  }

  /** What was seen before changes nothing but what is seen in the end. */
  lemma {:induction false} SeenGrows(fields: seq<Field>, slots: seq<Slot>, seen: set<nat>, less: set<nat>, b: Bytes)
    requires less <= seen
    ensures var d, e := DecodeLoop(fields, slots, seen, b), DecodeLoop(fields, slots, less, b);
            && (d.Decoded? <==> e.Decoded?)
            && (d.Decoded? ==> e.slots == d.slots && e.seen <= d.seen && seen <= d.seen)
    decreases |b|
  {
    if b != [] && DecodeTag(b).Tagged? {
      var tag, wireType, rest := DecodeTag(b).tag, DecodeTag(b).wireType, DecodeTag(b).rest;
      var i := IndexOf(fields, tag, 0);
      if IsTerminator(fields, tag) {
        if DecodeVarint32(rest).Good? {
          SeenGrows(fields, slots, seen + {0}, less + {0}, DecodeVarint32(rest).rest);
        }
      } else if i == |fields| || i >= |slots| {
        if Skip(wireType, rest).Good? { SeenGrows(fields, slots, seen, less, Skip(wireType, rest).rest); }
      } else {
        var p := DecodeSlot(fields[i], slots[i], wireType, rest);
        if p.Good? {
          SeenGrows(fields, SetSlot(fields, slots, i, p.value), See(fields, i, seen), See(fields, i, less), p.rest);
        }
      }
    }
  }

  /** Two messages one behind the other: the second goes on top of the first. */
  lemma DecodesOnTop(fields: seq<Field>, slots: seq<Slot>, a: Bytes, b: Bytes)
    requires Through(fields, slots, {}, a) && DecodeOnto(fields, slots, a).Done?
    requires DecodeOnto(fields, DecodeOnto(fields, slots, a).slots, b).Done?
    ensures DecodeOnto(fields, slots, a + b) == DecodeOnto(fields, DecodeOnto(fields, slots, a).slots, b)
  {
    LoopGoesOn(fields, slots, {}, a, b);
    var d := DecodeLoop(fields, slots, {}, a);
    SeenGrows(fields, d.slots, d.seen, {}, b);
  }

  /** A submessage that comes twice is merged: it is as if its bytes had come at once. */
  lemma SubmessagesMerge(k: Kind, was: Val, a: Bytes, b: Bytes, rest: Bytes)
    requires k.Sub? && |a| + |b| < 0x1_0000_0000
    requires Through(k.fields, if was.Message? then was.slots else [], {}, a)
    requires DecodeValue(k, was, Prefixed(a) + rest).Good?
    requires DecodeValue(k, DecodeValue(k, was, Prefixed(a) + rest).value, Prefixed(b) + rest).Good?
    ensures DecodeValue(k, was, Prefixed(a + b) + rest)
         == DecodeValue(k, DecodeValue(k, was, Prefixed(a) + rest).value, Prefixed(b) + rest)
  {
    TakePrefixedReads(a, rest);
    TakePrefixedReads(b, rest);
    TakePrefixedReads(a + b, rest);
    DecodesOnTop(k.fields, if was.Message? then was.slots else [], a, b);
  }

  // ----- Encoded messages are read to their end --------------------------------------------------------

  ghost function ThroughLoop(fields: seq<Field>): FieldLoop {
    (slots, seen, b) => if Through(fields, slots, seen, b) then DecodeLoop(fields, slots, seen, b) else Failed
  }

  lemma StepThrough(fields: seq<Field>, slots: seq<Slot>, seen: set<nat>, i: nat, wireType: nat, b: Bytes, s: Slot,
                    rest: Bytes)
    requires FieldsOk(fields) && i < |fields| == |slots| && wireType < 8
    requires DecodeSlot(fields[i], slots[i], wireType, b) == Good(s, rest)
    ensures Through(fields, slots, seen, Tag(fields[i].tag, wireType) + b)
       <==> Through(fields, SetSlot(fields, slots, i, s), See(fields, i, seen), rest)
  {
    assert FieldOk(fields[i]);
    DecodeTagReads(fields[i].tag, wireType, b);
    IndexOfIs(fields, fields[i].tag, i, 0);
  }

  lemma LoopTakesThrough(fields: seq<Field>)
    requires FieldsOk(fields)
    ensures TakesAll(fields, ThroughLoop(fields))
  {
    forall slots: seq<Slot>, seen: set<nat>, i: nat, wireType: nat, b: Bytes, s: Slot, rest: Bytes
      ensures Takes(fields, ThroughLoop(fields), slots, seen, i, wireType, b, s, rest) {
      if i < |fields| == |slots| && wireType < 8 && DecodeSlot(fields[i], slots[i], wireType, b) == Good(s, rest) {
        StepThrough(fields, slots, seen, i, wireType, b, s, rest);
        LoopTakesOne(fields, slots, seen, i, wireType, b, s, rest);
      }
    }
    forall slots: seq<Slot>, seen: set<nat>, tag: nat, wireType: nat, b: Bytes, rest: Bytes
      ensures Omits(fields, ThroughLoop(fields), slots, seen, tag, wireType, b, rest) {
      if IndexOf(fields, tag, 0) == |fields| && 0 < tag < 0x2000_0000 && wireType < 8 && Skips(wireType, b, rest) {
        DecodeTagReads(tag, wireType, b);
      }
    }
  }

  /** Whatever the reader's description, an encoded message has no end before its end. */
  lemma EncodedIsThrough(ours: seq<Field>, theirs: seq<Field>, slots: seq<Slot>)
    requires FieldsOk(ours) && FieldsOk(theirs) && Agree(ours, theirs)
    requires TypedAll(theirs, slots) && WithinAll(theirs, slots) && |EncodeMessage(theirs, slots)| < 0x1_0000_0000
    ensures Through(ours, Defaults(ours), {}, EncodeMessage(theirs, slots))
  {
    LoopTakesThrough(ours);
    FieldsRead(ours, ThroughLoop(ours), theirs, slots, 0);
    assert Partly(ours, theirs, slots, 0) == Defaults(ours);
    assert Through(ours, View(ours, theirs, slots), SeenBefore(ours, theirs, |theirs|), []);
  }
}
