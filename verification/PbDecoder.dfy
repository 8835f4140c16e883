/** The decoder's loop over the fields of a message, and the iterator that it finds them with. */
module PbDecoder {
  import opened Coding
  import opened PbMessages
  import opened PbDecoding
  import opened PbEncoding
  import opened PbViews
  import opened PbRoundTrip
  import opened PbResults

  lemma {:induction false} IndexOfNone(fields: seq<Field>, tag: nat, j: nat)
    requires j <= |fields| && forall i: nat | i < |fields| :: fields[i].tag != tag
    ensures IndexOf(fields, tag, j) == |fields|
    decreases |fields| - j
  {
    if j < |fields| {
      IndexOfNone(fields, tag, j + 1);
    }
  }

  /** The position has been passed on the way from `start` to `pos`, around the end. */
  predicate Passed(start: nat, pos: nat, wrapped: bool, i: nat) {
    if wrapped then start <= i || i < pos else start <= i < pos
  }

  class FieldIter {
    const fields: seq<Field>
    var pos: nat
    var requiredFieldIndex: nat

    ghost predicate Valid()
      reads this
    {
      (if fields == [] then pos == 0 else pos < |fields|) && requiredFieldIndex == RequiredBefore(fields, pos)
    }

    constructor (fields: seq<Field>)
      ensures Valid() && this.fields == fields && pos == 0
    {
      this.fields := fields;
      pos, requiredFieldIndex := 0, 0;
    }

    /** The next field, or the first one again after the last; then the result is false. */
    method Next() returns (more: bool)
      requires Valid()
      modifies this
      ensures Valid() && more == (old(pos) + 1 < |fields|) && pos == if more then old(pos) + 1 else 0
    {
      if fields == [] { return false; }
      var prev := fields[pos];
      pos := pos + 1;
      if pos == |fields| {
        pos, requiredFieldIndex := 0, 0;
        more := false;
      } else {
        if prev.rule.Required? {
          requiredFieldIndex := requiredFieldIndex + 1;
        }
        more := true;
      }
    }

    /** Goes around from where it is, until it is at the field with the tag or back again. */
    method Find(tag: nat) returns (found: bool)
      requires Valid() && FieldsOk(fields)
      modifies this
      ensures Valid() && found == (IndexOf(fields, tag, 0) < |fields| || IsTerminator(fields, tag))
      ensures pos == if found then IndexOf(fields, tag, 0) else old(pos)
    {
      if fields == [] { return tag == 0; }
      var start := pos;
      ghost var wrapped := false;
      var more := true;
      found := false;
      while more
        invariant Valid() && !found && start < |fields|
        invariant wrapped ==> pos <= start
        invariant more ==> (wrapped ==> pos < start) && (!wrapped ==> start <= pos)
        invariant !more ==> wrapped && pos == start
        invariant forall i: nat | i < |fields| && Passed(start, pos, wrapped, i) :: fields[i].tag != tag
        decreases more, if wrapped then start - pos else |fields| + start - pos
      {
        if fields[pos].tag == tag {
          IndexOfIs(fields, tag, pos, 0);
          return true;
        }
        var inside := Next();
        wrapped := wrapped || !inside;
        more := pos != start;
      }
      IndexOfNone(fields, tag, 0);
    }

    /** How many fields are required: goes on to the end. */
    method CountRequired() returns (count: nat)
      requires Valid()
      modifies this
      ensures Valid() && count == RequiredBefore(fields, |fields|)
    {
      if fields == [] { return 0; }
      var more := true;
      var last := fields[pos].rule;
      count := 0;
      while more
        invariant Valid()
        invariant !more ==> count == RequiredBefore(fields, |fields| - 1) && last == fields[|fields| - 1].rule
        decreases more, |fields| - pos
      {
        count, last := requiredFieldIndex, fields[pos].rule;
        more := Next();
      }
      if last.Required? {
        count := count + 1;
      }
    }
  }

  /** The set of required fields that have been seen, as bits in words of 32. */
  ghost predicate Bits(fieldsSeen: seq<bool>, seen: set<nat>) {
    |fieldsSeen| == MAX_REQUIRED_FIELDS && forall r: nat :: r in seen <==> r < MAX_REQUIRED_FIELDS && fieldsSeen[r]
  }

  ghost predicate SeenInRange(seen: set<nat>, fields: seq<Field>) {
    fields != [] ==> forall r | r in seen :: r < RequiredBefore(fields, |fields|)
  }

  /** A word of which the lowest `n` bits are set. */
  function LowBits(n: nat): seq<bool> {
    seq(32, j => j < n)
  }

  lemma WordIsLow(fieldsSeen: seq<bool>, at: nat, n: nat)
    requires at + 32 <= |fieldsSeen|
    ensures fieldsSeen[at..at + 32] == LowBits(n) <==> forall r: nat | at <= r < at + 32 ::
            fieldsSeen[r] == (r < at + n)
  {
    var word := fieldsSeen[at..at + 32];
    if word == LowBits(n) {
      forall r: nat | at <= r < at + 32 ensures fieldsSeen[r] == (r < at + n) {
        assert word[r - at] == LowBits(n)[r - at];
      }
    }
  }

  method CheckRequired(fieldsSeen: seq<bool>, required: nat, ghost fields: seq<Field>, ghost seen: set<nat>)
      returns (ok: bool)
    requires required == RequiredBefore(fields, |fields|) && Bits(fieldsSeen, seen) && SeenInRange(seen, fields)
    ensures ok == AllSeen(fields, seen)
  {
    var count := if required > MAX_REQUIRED_FIELDS then MAX_REQUIRED_FIELDS else required;
    assert AllSeen(fields, seen) <==> forall r: nat | r < count :: fieldsSeen[r];
    for i := 0 to count / 32
      invariant forall r: nat | r < 32 * i :: fieldsSeen[r]
    {
      WordIsLow(fieldsSeen, 32 * i, 32);
      if fieldsSeen[32 * i..32 * i + 32] != LowBits(32) { return false; }
    }
    var whole := 32 * (count / 32);
    if count % 32 != 0 {
      WordIsLow(fieldsSeen, whole, count % 32);
      return fieldsSeen[whole..whole + 32] == LowBits(count % 32);
    }
    ok := true;
  }

  /** The decoder proper. Unknown fields are skipped. */
  method DecodeNoinit(fields: seq<Field>, slots0: seq<Slot>, b0: Bytes) returns (result: Outcome)
    requires FieldsOk(fields) && |slots0| == |fields|
    ensures result == DecodeOnto(fields, slots0, b0)
    ensures Sound(fields, slots0) && result.Done? ==> Sound(fields, result.slots)
  {
    if Sound(fields, slots0) && DecodeOnto(fields, slots0, b0).Done? { OntoIsSound(fields, slots0, b0); }
    var iter := new FieldIter(fields);
    var fieldsSeen := seq(MAX_REQUIRED_FIELDS, _ => false);
    var slots, b, more := slots0, b0, true;
    ghost var seen: set<nat> := {};
    while more && b != []
      invariant iter.Valid() && iter.fields == fields && |slots| == |fields|
      invariant Bits(fieldsSeen, seen) && SeenInRange(seen, fields)
      invariant DecodeLoop(fields, slots0, {}, b0) == if more then DecodeLoop(fields, slots, seen, b)
                else Decoded(slots, seen)
      decreases |b|, more
    {
      match DecodeTag(b) {
        case End => more := false;
        case BadTag => return Error;
        case Tagged(tag, wireType, rest) =>
          var found := iter.Find(tag);
          if !found {
            match Skip(wireType, rest) {
              case Bad => return Error;
              case Good(_, after) => b := after;
            }
          } else if fields == [] {
            fieldsSeen := fieldsSeen[iter.requiredFieldIndex := true];
            seen := seen + {0};
            match DecodeVarint32(rest) {
              case Bad => return Error;
              case Good(_, after) => b := after;
            }
          } else {
            var i := iter.pos;
            RequiredGrows(fields, i, |fields|);
            if fields[i].rule.Required? && iter.requiredFieldIndex < MAX_REQUIRED_FIELDS {
              fieldsSeen := fieldsSeen[iter.requiredFieldIndex := true];
            }
            seen := See(fields, i, seen);
            match DecodeSlot(fields[i], slots[i], wireType, rest) {
              case Bad => return Error;
              case Good(s, after) =>
                slots, b := SetSlot(fields, slots, i, s), after;
            }
          }
      }
    }
    var required := iter.CountRequired();
    var ok := CheckRequired(fieldsSeen, required, fields, seen);
    result := if ok then Done(slots) else Error;
  }

  /** Decodes from defaults. Whatever message was encoded, what comes out is what this description
      shows of it; with the writer's own description that is the message. */
  method Decode(fields: seq<Field>, b: Bytes) returns (result: Outcome)
    requires FieldsOk(fields)
    ensures result == DecodeMessage(fields, b) && (result.Done? ==> Sound(fields, result.slots))
    ensures forall slots | Encodes(fields, slots, b) :: result == Done(slots)
    ensures forall theirs, slots | FieldsOk(theirs) && Agree(fields, theirs) && Encodes(theirs, slots, b) ::
              result == if SuppliedAll(fields, theirs) then Done(View(fields, theirs, slots)) else Error
  {
    DefaultsAreSound(fields);
    result := DecodeNoinit(fields, Defaults(fields), b);
    forall slots | Encodes(fields, slots, b) ensures result == Done(slots) {
      MessageReads(fields, slots);
    }
    forall theirs, slots | FieldsOk(theirs) && Agree(fields, theirs) && Encodes(theirs, slots, b)
      ensures result == if SuppliedAll(fields, theirs) then Done(View(fields, theirs, slots)) else Error {
      MessageIsViewed(fields, theirs, slots);
    }
  }

  ghost predicate Encodes(fields: seq<Field>, slots: seq<Slot>, b: Bytes) {
    TypedAll(fields, slots) && WithinAll(fields, slots) && b == EncodeMessage(fields, slots) && |b| < 0x1_0000_0000
  }
}
