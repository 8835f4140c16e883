/** The encoder. A stream writes, or only counts what it would write; a submessage is counted
    first, because its length stands before it. */
module PbEncoder {
  import opened Coding
  import opened PbMessages
  import opened PbEncoding

  datatype Status = Ok | Full | ArraySize | BytesSize | SizeChanged

  /** How far a stream has come. */
  datatype Place = Place(written: nat, data: Bytes)

  /** What writing `b` to a stream has led to: it succeeds when there is room and nothing is
      longer than its description allows. A count never turns out wrong. */
  ghost predicate Outcome(writing: bool, max: nat, from: Place, to: Place, b: Bytes, within: bool, st: Status) {
    && st != SizeChanged
    && (writing ==> to.written <= max)
    && (st == Ok <==> within && (writing ==> from.written + |b| <= max))
    && (st == Ok ==> to == Place(from.written + |b|, if writing then from.data + b else from.data))
  }

  lemma OutcomeThen(writing: bool, max: nat, a: Place, b: Place, c: Place, x: Bytes, y: Bytes, within: bool, st: Status)
    requires Outcome(writing, max, a, b, x, true, Ok) && Outcome(writing, max, b, c, y, within, st)
    ensures Outcome(writing, max, a, c, x + y, within, st)
  {
    assert (a.data + x) + y == a.data + (x + y);
  }

  lemma OutcomeStops(writing: bool, max: nat, a: Place, b: Place, x: Bytes, y: Bytes, within: bool, all: bool,
                     st: Status)
    requires Outcome(writing, max, a, b, x, within, st) && st != Ok && (all ==> within)
    ensures Outcome(writing, max, a, b, x + y, all, st)
  {
  }

  // ----- Varints -----------------------------------------------------------------------------------------

  /** Seven bits a byte, all with the high bit set. */
  function Continued(v: nat): Bytes {
    if v == 0 then [] else [v % 128 + 128] + Continued(v / 128)
  }

  lemma {:induction false} ContinuedIsVarint(v: nat)
    requires v > 0
    ensures var c := Continued(v);
            |c| > 0 && c[|c| - 1] >= 128 && c[|c| - 1 := c[|c| - 1] - 128] == Varint(v)
  {
    if v >= 128 {
      ContinuedIsVarint(v / 128);
      var c, d := Continued(v), Continued(v / 128);
      assert c[|c| - 1 := c[|c| - 1] - 128] == [v % 128 + 128] + d[|d| - 1 := d[|d| - 1] - 128];
    } else {
      assert Continued(v / 128) == [];
    }
  }

  lemma {:induction false} EncodeAllSize(k: Kind, vs: seq<Val>)
    requires k.Fixed32? || k.Fixed64?
    requires forall i: nat | i < |vs| :: vs[i].Number?
    ensures |EncodeAll(k, vs)| == (if k.Fixed32? then 4 else 8) * |vs|
  {
    if vs != [] { EncodeAllSize(k, vs[1..]); }
  }

  ghost predicate WithinEach(f: Field, vs: seq<Val>) {
    forall i: nat | i < |vs| :: WithinItem(f, vs, i)
  }

  lemma NumberItem(f: Field, vs: seq<Val>, i: nat)
    requires i < |vs| && Packable(f.kind) && TypedItem(f, vs, i)
    ensures vs[i].Number? && WithinItem(f, vs, i)
  {
    assert Typed(f.kind, vs[i]);
  }

  lemma AllUnfold(k: Kind, vs: seq<Val>, i: nat, done: Bytes)
    requires i < |vs|
    ensures done + EncodeAll(k, vs[i..]) == (done + PbEncoding.EncodeValue(k, vs[i])) + EncodeAll(k, vs[i + 1..])
  {
    assert vs[i..][0] == vs[i] && vs[i..][1..] == vs[i + 1..];
  }

  lemma EachUnfold(f: Field, vs: seq<Val>, i: nat, done: Bytes)
    requires i < |vs|
    ensures done + EncodeEach(f, vs[i..]) == (done + EncodeTagged(f, vs[i])) + EncodeEach(f, vs[i + 1..])
  {
    assert vs[i..][0] == vs[i] && vs[i..][1..] == vs[i + 1..];
  }

  lemma NothingLeft(f: Field, vs: seq<Val>, done: Bytes)
    ensures done + EncodeEach(f, vs[|vs|..]) == done
  {
    assert vs[|vs|..] == [];
  }

  class OStream {
    const writing: bool
    const maxSize: nat
    var written: nat
    var data: Bytes

    ghost predicate Valid()
      reads this
    {
      writing ==> written <= maxSize
    }

    ghost function At(): Place
      reads this
    {
      Place(written, data)
    }

    constructor (writing: bool, maxSize: nat, data: Bytes)
      ensures Valid() && this.writing == writing && this.maxSize == maxSize && At() == Place(0, data)
    {
      this.writing, this.maxSize := writing, maxSize;
      this.written, this.data := 0, data;
    }

    method Write(b: Bytes) returns (st: Status)
      requires Valid()
      modifies this
      ensures Valid() && Outcome(writing, maxSize, old(At()), At(), b, true, st)
    {
      if |b| > 0 && writing {
        if written + |b| > maxSize { return Full; }
        data := data + b;
      }
      written := written + |b|;
      st := Ok;
    }

    /** For a stream that only counts. */
    method Count(size: nat, ghost b: Bytes)
      requires Valid() && !writing && |b| == size
      modifies this
      ensures Valid() && Outcome(writing, maxSize, old(At()), At(), b, true, Ok)
    {
      written := written + size;
    }

    method EncodeVarint(v: nat) returns (st: Status)
      requires Valid()
      modifies this
      ensures Valid() && Outcome(writing, maxSize, old(At()), At(), Varint(v), true, st)
    {
      if v <= 0x7f {
        st := Write([v]);
        return;
      }
      var buffer: Bytes, value := [], v;
      while value > 0
        invariant buffer + Continued(value) == Continued(v)
      {
        buffer := buffer + [value % 128 + 128];
        value := value / 128;
      }
      ContinuedIsVarint(v);
      assert buffer == Continued(v);
      st := Write(buffer[|buffer| - 1 := buffer[|buffer| - 1] - 128]);
    }

    method EncodeTag(wireType: nat, number: nat) returns (st: Status)
      requires Valid()
      modifies this
      ensures Valid() && Outcome(writing, maxSize, old(At()), At(), Tag(number, wireType), true, st)
    {
      st := EncodeVarint(number * 8 + wireType);
    }

    method EncodeString(b: Bytes) returns (st: Status)
      requires Valid()
      modifies this
      ensures Valid() && Outcome(writing, maxSize, old(At()), At(), Prefixed(b), true, st)
    {
      ghost var a := At();
      st := EncodeVarint(|b|);
      if st != Ok {
        OutcomeStops(writing, maxSize, a, At(), Varint(|b|), b, true, true, st);
        return;
      }
      ghost var m := At();
      st := Write(b);
      OutcomeThen(writing, maxSize, a, m, At(), Varint(|b|), b, true, st);
    }

    /** Counts the message, writes the length, then writes the message to a stream that has
        just that much room. */
    method EncodeSubmessage(fields: seq<Field>, slots: seq<Slot>) returns (st: Status)
      requires Valid() && TypedAll(fields, slots)
      modifies this
      ensures Valid()
      ensures Outcome(writing, maxSize, old(At()), At(), Prefixed(EncodeMessage(fields, slots)),
              WithinAll(fields, slots), st)
      decreases fields, 1
    {
      ghost var a, b, within := At(), EncodeMessage(fields, slots), WithinAll(fields, slots);
      var sizing := new OStream(false, 0, []);
      st := sizing.Encode(fields, slots);
      if st != Ok { return; }
      var size := sizing.written;
      st := EncodeVarint(size);
      if st != Ok {
        OutcomeStops(writing, maxSize, a, At(), Varint(size), b, true, true, st);
        return;
      }
      ghost var m := At();
      if !writing {
        Count(size, b);
        OutcomeThen(writing, maxSize, a, m, At(), Varint(size), b, true, Ok);
        return;
      }
      if written + size > maxSize { return Full; }
      var substream := new OStream(true, size, data);
      st := substream.Encode(fields, slots);
      written, data := written + substream.written, substream.data;
      if substream.written != size { return SizeChanged; }
      OutcomeThen(writing, maxSize, a, m, At(), Varint(size), b, true, st);
    }

    method EncodeValue(k: Kind, v: Val) returns (st: Status)
      requires Valid() && Typed(k, v)
      modifies this
      ensures Valid() && Outcome(writing, maxSize, old(At()), At(), PbEncoding.EncodeValue(k, v), Within(k, v), st)
      decreases k
    {
      match v {
        case Number(n) => st := EncodeNumberValue(k, n);
        case Data(b) =>
          if k.Blob? && |b| > k.max { return BytesSize; }
          st := EncodeString(b);
        case Message(slots) => st := EncodeSubmessage(k.fields, slots);
      }
    }

    method EncodeNumberValue(k: Kind, n: int) returns (st: Status)
      requires Valid()
      modifies this
      ensures Valid() && Outcome(writing, maxSize, old(At()), At(), EncodeNumber(k, n), true, st)
    {
      match k {
        case SInt(_) => st := EncodeVarint(ZigZag(n));
        case Fixed32 => st := Write(LowBytes(n, 4));
        case Fixed64 => st := Write(LowBytes(n, 8));
        case _ => st := EncodeVarint(n % 0x1_0000_0000_0000_0000);
      }
    }

    method Encode(fields: seq<Field>, slots: seq<Slot>) returns (st: Status)
      requires Valid() && TypedAll(fields, slots)
      modifies this
      ensures Valid() && Outcome(writing, maxSize, old(At()), At(), EncodeMessage(fields, slots),
              WithinAll(fields, slots), st)
      decreases fields, 0
    {
      ghost var a, all := At(), EncodeMessage(fields, slots);
      ghost var done: Bytes := [];
      st := Ok;
      for i := 0 to |fields|
        invariant Valid() && st == Ok && Outcome(writing, maxSize, a, At(), done, true, Ok)
        invariant all == done + EncodeFields(fields, slots, i)
        invariant forall j: nat | j < i :: WithinAt(fields, slots, j)
      {
        ghost var m, b := At(), EncodeSlot(fields[i], slots[i]);
        assert TypedAt(fields, slots, i);
        st := EncodeField(fields[i], slots[i]);
        OutcomeThen(writing, maxSize, a, m, At(), done, b, WithinAt(fields, slots, i), st);
        if st != Ok {
          OutcomeStops(writing, maxSize, a, At(), done + b, EncodeFields(fields, slots, i + 1),
              WithinAt(fields, slots, i),
                       WithinAll(fields, slots), st);
          return;
        }
        done := done + b;
      }
    }

    method EncodeField(f: Field, s: Slot) returns (st: Status)
      requires Valid() && TypedSlot(f, s)
      modifies this
      ensures Valid() && Outcome(writing, maxSize, old(At()), At(), EncodeSlot(f, s), WithinSlot(f, s), st)
      decreases f, 2, 0
    {
      match s {
        case Absent => st := Ok;
        case One(v) =>
          if f.rule.Singular? && IsZero(f.kind, v) {
            ZerosWithin(f.kind, v);
            return Ok;
          }
          st := EncodeTaggedValue(f, v);
        case Many(vs) => st := EncodeArray(f, vs);
      }
    }

    method EncodeArray(f: Field, vs: seq<Val>) returns (st: Status)
      requires Valid() && f.rule.Repeated? && TypedSlot(f, Many(vs))
      modifies this
      ensures Valid() && Outcome(writing, maxSize, old(At()), At(), EncodeSlot(f, Many(vs)), WithinSlot(f, Many(vs)),
              st)
      decreases f, 1, 0
    {
      if vs == [] { return Ok; }
      if |vs| > f.rule.max { return ArraySize; }
      if Packable(f.kind) {
        forall i: nat | i < |vs| ensures WithinItem(f, vs, i) {
          assert TypedItem(f, vs, i);
          NumberItem(f, vs, i);
        }
        st := EncodePacked(f, vs);
      } else {
        st := EncodeUnpacked(f, vs);
      }
    }

    /** The length of a packed array is counted first, too. */
    method EncodePacked(f: Field, vs: seq<Val>) returns (st: Status)
      requires Valid() && Packable(f.kind) && forall i: nat | i < |vs| :: TypedItem(f, vs, i)
      modifies this
      ensures Valid()
      ensures Outcome(writing, maxSize, old(At()), At(), Tag(f.tag, 2) + Prefixed(EncodeAll(f.kind, vs)), true, st)
      decreases f, 0, 0
    {
      ghost var a, tag, all := At(), Tag(f.tag, 2), EncodeAll(f.kind, vs);
      ghost var length := Varint(|all|);
      assert tag + (length + all) == (tag + length) + all;
      st := EncodeTag(2, f.tag);
      if st != Ok {
        OutcomeStops(writing, maxSize, a, At(), tag, Prefixed(all), true, true, st);
        return;
      }
      var size := PackedSize(f, vs);
      ghost var m := At();
      st := EncodeVarint(size);
      OutcomeThen(writing, maxSize, a, m, At(), tag, length, true, st);
      if st != Ok {
        OutcomeStops(writing, maxSize, a, At(), tag + length, all, true, true, st);
        return;
      }
      m := At();
      if writing {
        st := EncodeNumbers(f, vs);
      } else {
        Count(size, all);
      }
      OutcomeThen(writing, maxSize, a, m, At(), tag + length, all, true, st);
    }

    static method PackedSize(f: Field, vs: seq<Val>) returns (size: nat)
      requires Packable(f.kind) && forall i: nat | i < |vs| :: TypedItem(f, vs, i)
      ensures size == |EncodeAll(f.kind, vs)|
    {
      if f.kind.Fixed32? || f.kind.Fixed64? {
        forall i: nat | i < |vs| ensures vs[i].Number? { NumberItem(f, vs, i); }
        EncodeAllSize(f.kind, vs);
        size := (if f.kind.Fixed32? then 4 else 8) * |vs|;
      } else {
        var sizing := new OStream(false, 0, []);
        var st := sizing.EncodeNumbers(f, vs);
        size := sizing.written;
      }
    }

    method EncodeNumbers(f: Field, vs: seq<Val>) returns (st: Status)
      requires Valid() && Packable(f.kind) && forall i: nat | i < |vs| :: TypedItem(f, vs, i)
      modifies this
      ensures Valid() && Outcome(writing, maxSize, old(At()), At(), EncodeAll(f.kind, vs), true, st)
    {
      ghost var a, all := At(), EncodeAll(f.kind, vs);
      ghost var done: Bytes := [];
      st := Ok;
      for i := 0 to |vs|
        invariant Valid() && st == Ok && Outcome(writing, maxSize, a, At(), done, true, Ok)
        invariant all == done + EncodeAll(f.kind, vs[i..])
      {
        NumberItem(f, vs, i);
        ghost var m, b := At(), EncodeNumber(f.kind, vs[i].n);
        AllUnfold(f.kind, vs, i, done);
        st := EncodeNumberValue(f.kind, vs[i].n);
        OutcomeThen(writing, maxSize, a, m, At(), done, b, true, st);
        if st != Ok {
          OutcomeStops(writing, maxSize, a, At(), done + b, EncodeAll(f.kind, vs[i + 1..]), true, true, st);
          return;
        }
        done := done + b;
      }
    }

    method EncodeUnpacked(f: Field, vs: seq<Val>) returns (st: Status)
      requires Valid() && forall i: nat | i < |vs| :: TypedItem(f, vs, i)
      modifies this
      ensures Valid()
      ensures Outcome(writing, maxSize, old(At()), At(), EncodeEach(f, vs), WithinEach(f, vs), st)
      decreases f, 0, 2
    {
      ghost var a, all := At(), EncodeEach(f, vs);
      ghost var done: Bytes := [];
      st := Ok;
      assert vs[0..] == vs;
      for i := 0 to |vs|
        invariant Valid() && st == Ok && Outcome(writing, maxSize, a, At(), done, true, Ok)
        invariant all == done + EncodeEach(f, vs[i..])
        invariant forall j: nat | j < i :: WithinItem(f, vs, j)
      {
        st := EncodeItem(f, vs, i, a, done, all);
        if st != Ok { return; }
        EachUnfold(f, vs, i, done);
        done := done + EncodeTagged(f, vs[i]);
      }
      NothingLeft(f, vs, done);
    }

    /** One element, with its tag. */
    method EncodeItem(f: Field, vs: seq<Val>, i: nat, ghost a: Place, ghost done: Bytes, ghost all: Bytes)
        returns (st: Status)
      requires Valid() && i < |vs| && TypedItem(f, vs, i) && Outcome(writing, maxSize, a, At(), done, true, Ok)
      requires all == done + EncodeEach(f, vs[i..])
      modifies this
      ensures Valid() && (st != Ok ==> Outcome(writing, maxSize, a, At(), all, WithinEach(f, vs), st))
      ensures st == Ok ==>
                WithinItem(f, vs, i) && Outcome(writing, maxSize, a, At(), done + EncodeTagged(f, vs[i]), true, Ok)
      decreases f, 0, 1
    {
      ghost var m, b := At(), EncodeTagged(f, vs[i]);
      st := EncodeTaggedValue(f, vs[i]);
      OutcomeThen(writing, maxSize, a, m, At(), done, b, WithinItem(f, vs, i), st);
      if st != Ok {
        EachUnfold(f, vs, i, done);
        OutcomeStops(writing, maxSize, a, At(), done + b, EncodeEach(f, vs[i + 1..]), WithinItem(f, vs, i),
            WithinEach(f, vs), st);
      }
    }

    method EncodeTaggedValue(f: Field, v: Val) returns (st: Status)
      requires Valid() && Typed(f.kind, v)
      modifies this
      ensures Valid() && Outcome(writing, maxSize, old(At()), At(), EncodeTagged(f, v), Within(f.kind, v), st)
      decreases f, 0, 0
    {
      ghost var a, b := At(), PbEncoding.EncodeValue(f.kind, v);
      st := EncodeTag(WireType(f.kind), f.tag);
      if st != Ok {
        OutcomeStops(writing, maxSize, a, At(), Tag(f.tag, WireType(f.kind)), b, true, Within(f.kind, v), st);
        return;
      }
      ghost var m := At();
      st := EncodeValue(f.kind, v);
      OutcomeThen(writing, maxSize, a, m, At(), Tag(f.tag, WireType(f.kind)), b, Within(f.kind, v), st);
    }
  }
}
