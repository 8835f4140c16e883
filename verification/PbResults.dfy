/** What comes out of the decoder, whatever goes in. */
module PbResults {
  import opened Coding
  import opened PbMessages
  import opened PbEncoding
  import opened PbDecoding
  import opened PbRoundTrip

  /** A message that fits the memory of its description. */
  ghost predicate Sound(fields: seq<Field>, slots: seq<Slot>) {
    TypedAll(fields, slots) && WithinAll(fields, slots)
  }

  ghost predicate SoundValue(k: Kind, v: Val) {
    Typed(k, v) && Within(k, v)
  }

  ghost predicate SoundSlot(f: Field, s: Slot) {
    TypedSlot(f, s) && WithinSlot(f, s)
  }

  // ----- Zeros -----------------------------------------------------------------------------------------

  lemma {:induction false} ZeroIsSound(k: Kind)
    requires KindOk(k)
    ensures SoundValue(k, Zero(k))
    decreases k
  {
    if k.Sub? { DefaultsAreSound(k.fields); }
  }

  lemma DefaultIsSound(f: Field)
    requires FieldOk(f)
    ensures SoundSlot(f, DefaultSlot(f))
    decreases f
  {
    ZeroIsSound(f.kind);
  }

  lemma {:induction false} DefaultsAreSound(fields: seq<Field>)
    requires FieldsOk(fields)
    ensures Sound(fields, Defaults(fields))
    decreases fields
  {
    var slots := Defaults(fields);
    forall i: nat | i < |fields| ensures TypedAt(fields, slots, i) && WithinAt(fields, slots, i) {
      assert FieldOk(fields[i]);
      DefaultIsSound(fields[i]);
    }
    forall i: nat, j: nat | i < j < |fields| ensures Shares(fields, slots, i, j) {
      if SameUnion(fields[i], fields[j]) { assert slots[i] == DefaultSlot(fields[i]); }
    }
  }

  // ----- Values ----------------------------------------------------------------------------------------

  lemma {:induction false} UpToZeroHasNone(b: Bytes)
    ensures NoZero(UpToZero(b)) && |UpToZero(b)| <= |b|
  {
    if b != [] && b[0] != 0 {
      UpToZeroHasNone(b[1..]);
    }
  }

  lemma DataIsSound(k: Kind, b: Bytes)
    requires KindOk(k) && (k.Blob? || k.Text? || k.FixedBlob?) && DecodeData(k, b).Good?
    ensures SoundValue(k, DecodeData(k, b).value)
  {
    var n, rest := DecodeVarint32(b).value, DecodeVarint32(b).rest;
    if Take(rest, n).Good? { UpToZeroHasNone(rest[..n]); }
  }

  lemma FixedIsSmall(b: Bytes, size: nat)
    requires |b| == size && (size == 4 || size == 8)
    ensures 0 <= DecodeFixed(b) < Range(size)
  {
    FixedBound(b);
    Widths();
  }

  lemma NumberIsSound(k: Kind, b: Bytes)
    requires KindOk(k) && Packable(k) && DecodeNumber(k, b).Good?
    ensures SoundValue(k, DecodeNumber(k, b).value)
  {
    if k.Fixed32? {
      FixedIsSmall(b[..4], 4);
    } else if k.Fixed64? {
      FixedIsSmall(b[..8], 8);
    }
  }

  lemma {:induction false} ValueIsSound(k: Kind, was: Val, b: Bytes)
    requires KindOk(k) && SoundValue(k, was) && DecodeValue(k, was, b).Good?
    ensures SoundValue(k, DecodeValue(k, was, b).value)
    decreases k, 0
  {
    if k.Sub? {
      var inner := TakePrefixed(b).value;
      OntoIsSound(k.fields, was.slots, inner);
    } else if k.Blob? || k.Text? || k.FixedBlob? {
      DataIsSound(k, b);
    } else {
      NumberIsSound(k, b);
    }
  }

  // ----- Fields ----------------------------------------------------------------------------------------

  lemma {:induction false} PackedIsSound(f: Field, max: nat, vs: seq<Val>, b: Bytes)
    requires KindOk(f.kind) && Packable(f.kind) && f.rule == Repeated(max) && SoundSlot(f, Many(vs))
    requires DecodePacked(f.kind, max, vs, b).Good?
    ensures SoundSlot(f, Many(DecodePacked(f.kind, max, vs, b).value))
    decreases f, |b|
  {
    if b != [] {
      var v := DecodeValue(f.kind, Zero(f.kind), b).value;
      ItemIsSound(f, vs, b);
      PackedIsSound(f, max, vs + [v], DecodeValue(f.kind, Zero(f.kind), b).rest);
    }
  }

  /** One more element. */
  lemma ItemIsSound(f: Field, vs: seq<Val>, b: Bytes)
    requires KindOk(f.kind) && f.rule.Repeated? && SoundSlot(f, Many(vs)) && |vs| < f.rule.max
    requires DecodeValue(f.kind, Zero(f.kind), b).Good?
    ensures SoundSlot(f, Many(vs + [DecodeValue(f.kind, Zero(f.kind), b).value]))
    decreases f, 0
  {
    var v := DecodeValue(f.kind, Zero(f.kind), b).value;
    ZeroIsSound(f.kind);
    ValueIsSound(f.kind, Zero(f.kind), b);
    forall i: nat | i < |vs + [v]| ensures TypedItem(f, vs + [v], i) && WithinItem(f, vs + [v], i) {
      if i < |vs| {
        assert TypedItem(f, vs, i) && WithinItem(f, vs, i);
      }
    }
  }

  lemma SlotIsSound(f: Field, s: Slot, wireType: nat, b: Bytes)
    requires FieldOk(f) && SoundSlot(f, s) && DecodeSlot(f, s, wireType, b).Good?
    ensures SoundSlot(f, DecodeSlot(f, s, wireType, b).value)
    decreases f, |b| + 1
  {
    if !f.rule.Repeated? {
      var was := if s.One? then s.v else Zero(f.kind);
      ZeroIsSound(f.kind);
      ValueIsSound(f.kind, was, b);
    } else if wireType == 2 && Packable(f.kind) {
      PackedIsSound(f, f.rule.max, s.vs, TakePrefixed(b).value);
    } else {
      ItemIsSound(f, s.vs, b);
    }
  }

  /** Setting a field that shares a union leaves no other field of the union. */
  lemma SetIsSound(fields: seq<Field>, slots: seq<Slot>, i: nat, s: Slot)
    requires Sound(fields, slots) && i < |fields| && SoundSlot(fields[i], s)
    ensures Sound(fields, SetSlot(fields, slots, i, s))
  {
    var out := SetSlot(fields, slots, i, s);
    forall j: nat | j < |fields| ensures TypedAt(fields, out, j) && WithinAt(fields, out, j) {
      assert TypedAt(fields, slots, j) && WithinAt(fields, slots, j);
    }
    forall j: nat, n: nat | j < n < |fields| ensures Shares(fields, out, j, n) {
      assert Shares(fields, slots, j, n);
    }
  }

  lemma {:induction false} LoopIsSound(fields: seq<Field>, slots: seq<Slot>, seen: set<nat>, b: Bytes)
    requires FieldsOk(fields) && Sound(fields, slots) && DecodeLoop(fields, slots, seen, b).Decoded?
    ensures Sound(fields, DecodeLoop(fields, slots, seen, b).slots)
    decreases fields, |b|
  {
    if b != [] && DecodeTag(b).Tagged? {
      var tag, wireType, rest := DecodeTag(b).tag, DecodeTag(b).wireType, DecodeTag(b).rest;
      var i := IndexOf(fields, tag, 0);
      if IsTerminator(fields, tag) {
        LoopIsSound(fields, slots, seen + {0}, DecodeVarint32(rest).rest);
      } else if i == |fields| {
        LoopIsSound(fields, slots, seen, Skip(wireType, rest).rest);
      } else {
        var p := DecodeSlot(fields[i], slots[i], wireType, rest);
        assert FieldOk(fields[i]) && TypedAt(fields, slots, i) && WithinAt(fields, slots, i);
        SlotIsSound(fields[i], slots[i], wireType, rest);
        SetIsSound(fields, slots, i, p.value);
        LoopIsSound(fields, SetSlot(fields, slots, i, p.value), See(fields, i, seen), p.rest);
      }
    }
  }

  lemma OntoIsSound(fields: seq<Field>, slots: seq<Slot>, b: Bytes)
    requires FieldsOk(fields) && Sound(fields, slots) && DecodeOnto(fields, slots, b).Done?
    ensures Sound(fields, DecodeOnto(fields, slots, b).slots)
    decreases fields, |b| + 1
  {
    LoopIsSound(fields, slots, {}, b);
  }

  /** Whatever the bytes are, what they are decoded to fits its description: no number is out of
      range, nothing is too long, and of a union there is at most one field. */
  lemma DecodedIsSound(fields: seq<Field>, b: Bytes)
    requires FieldsOk(fields) && DecodeMessage(fields, b).Done?
    ensures Sound(fields, DecodeMessage(fields, b).slots)
  {
    DefaultsAreSound(fields);
    OntoIsSound(fields, Defaults(fields), b);
  }

  /** Encoding again what was decoded, and decoding it again, gives the same. */
  lemma DecodedAgain(fields: seq<Field>, b: Bytes)
    requires FieldsOk(fields) && DecodeMessage(fields, b).Done?
    requires |EncodeMessage(fields, DecodeMessage(fields, b).slots)| < 0x1_0000_0000
    ensures DecodeMessage(fields, EncodeMessage(fields, DecodeMessage(fields, b).slots)) == DecodeMessage(fields, b)
  {
    DecodedIsSound(fields, b);
    MessageReads(fields, DecodeMessage(fields, b).slots);
  }
}
