/** What bytes are decoded to, given a message to start with. */
module PbDecoding {
  import opened Coding
  import opened PbMessages

  // ----- Varints of 32 bits ------------------------------------------------------------------------

  /** A number moved up in a word of 32 bits. */
  function Shifted(v: nat, n: nat): nat {
    if n == 0 then v % 0x1_0000_0000 else (2 * Shifted(v, n - 1)) % 0x1_0000_0000
  }

  /** Seven more bits at a position; from 32 on there is no room for them. */
  function AddBits(result: nat, low: nat, bitpos: nat): nat {
    if bitpos >= 32 then result else Or(result, Shifted(low, bitpos))
  }

  /** Beyond 32 bits only the extension of a sign may follow. */
  predicate MayFollow(b: byte, bitpos: nat, result: nat) {
    bitpos < 32 || b % 128 == 0 || (result >= 0x8000_0000 && b == if bitpos < 63 then 0xff else 0x01)
  }

  /** The bytes after the first. The position of the bits is itself a number of 8 bits. */
  function MoreVarint32(b: Bytes, bitpos: nat, result: nat): (p: Parsed<nat>)
    ensures p.Good? ==> |p.rest| < |b|
    decreases |b|
  {
    if b == [] || !MayFollow(b[0], bitpos, result) then Bad
    else if b[0] >= 128 then MoreVarint32(b[1..], (bitpos + 7) % 256, AddBits(result, b[0] % 128, bitpos))
    else if bitpos == 28 && b[0] >= 16 then Bad
    else Good(AddBits(result, b[0], bitpos), b[1..])
  }

  function DecodeVarint32(b: Bytes): (p: Parsed<nat>)
    ensures p.Good? ==> |p.rest| < |b|
  {
    if b == [] then Bad
    else if b[0] < 128 then Good(b[0], b[1..])
    else MoreVarint32(b[1..], 7, b[0] - 128)
  }

  // ----- Tags ----------------------------------------------------------------------------------------------

  /** A zero ends a message early. */
  datatype TagRead = End | BadTag | Tagged(tag: nat, wireType: nat, rest: Bytes)

  function DecodeTag(b: Bytes): (t: TagRead)
    ensures t.Tagged? ==> |t.rest| < |b|
  {
    match DecodeVarint32(b)
    case Bad => BadTag
    case Good(v, rest) => if v == 0 then End else Tagged(v / 8, v % 8, rest)
  }

  function Take(b: Bytes, n: nat): (p: Parsed<Bytes>)
    ensures p.Good? ==> n <= |b| && p.value == b[..n] && p.rest == b[n..]
  {
    if n <= |b| then Good(b[..n], b[n..]) else Bad
  }

  function TakePrefixed(b: Bytes): (p: Parsed<Bytes>)
    ensures p.Good? ==> |p.rest| + |p.value| < |b|
  {
    match DecodeVarint32(b)
    case Bad => Bad
    case Good(n, rest) => Take(rest, n)
  }

  function SkipVarint(b: Bytes): (p: Parsed<Bytes>)
    ensures p.Good? ==> |p.rest| < |b|
  {
    if b == [] then Bad else if b[0] >= 128 then SkipVarint(b[1..]) else Good([], b[1..])
  }

  /** A field that is not known. */
  function Skip(wireType: nat, b: Bytes): (p: Parsed<Bytes>)
    ensures p.Good? ==> |p.rest| <= |b|
  {
    if wireType == 0 then SkipVarint(b)
    else if wireType == 1 then Take(b, 8)
    else if wireType == 2 then TakePrefixed(b)
    else if wireType == 5 then Take(b, 4)
    else Bad
  }

  // ----- Values ----------------------------------------------------------------------------------------

  function Signed(v: nat, size: nat): int {
    var m := v % Range(size);
    if 2 * m >= Range(size) then m - Range(size) else m
  }

  function UnZigZag(v: nat): int {
    if v % 2 == 1 then -(v / 2) - 1 else v / 2
  }

  /** A number, cast to the size of its field; the cast must not change it. */
  function CastSigned(n: int, size: nat, rest: Bytes): Parsed<Val> {
    if IsSize(size) && -Range(size) <= 2 * n < Range(size) then Good(Number(n), rest) else Bad
  }

  function DecodeNumber(k: Kind, b: Bytes): (p: Parsed<Val>)
    ensures p.Good? ==> |p.rest| < |b|
  {
    match k
    case Bool =>
      (match DecodeVarint32(b) case Bad => Bad case Good(v, rest) => Good(Number(if v != 0 then 1 else 0), rest))
    case Int(size) =>
      (match GetVarint64(b) case Bad => Bad
       case Good(v, rest) => CastSigned(if size == 8 then Signed(v, 8) else Signed(v, 4), size, rest))
    case UInt(size) =>
      (match GetVarint64(b) case Bad => Bad
       case Good(v, rest) => if IsSize(size) && v < Range(size) then Good(Number(v), rest) else Bad)
    case SInt(size) =>
      (match GetVarint64(b) case Bad => Bad case Good(v, rest) => CastSigned(UnZigZag(v), size, rest))
    case Fixed32 => (match Take(b, 4) case Bad => Bad case Good(v, rest) => Good(Number(DecodeFixed(v)), rest))
    case Fixed64 => (match Take(b, 8) case Bad => Bad case Good(v, rest) => Good(Number(DecodeFixed(v)), rest))
    case _ => Bad
  }

  /** A string ends at its first zero. */
  function UpToZero(b: Bytes): Bytes {
    if b == [] || b[0] == 0 then [] else [b[0]] + UpToZero(b[1..])
  }

  function DecodeData(k: Kind, b: Bytes): (p: Parsed<Val>)
    ensures p.Good? ==> |p.rest| < |b|
  {
    match DecodeVarint32(b)
    case Bad => Bad
    case Good(n, rest) =>
      if k.Blob? && n > k.max then Bad
      else if k.Text? && n + 1 > k.size then Bad
      else if k.FixedBlob? && n == 0 then Good(Data(Zeros(k.size)), rest)
      else if k.FixedBlob? && n != k.size then Bad
      else match Take(rest, n)
        case Bad => Bad
        case Good(v, after) => Good(Data(if k.Text? then UpToZero(v) else v), after)
  }

  /** `was` is what the value's memory holds; only a submessage is decoded on top of it. */
  function DecodeValue(k: Kind, was: Val, b: Bytes): (p: Parsed<Val>)
    ensures p.Good? ==> |p.rest| < |b|
    decreases k, 0
  {
    if k.Sub? then
      match TakePrefixed(b)
      case Bad => Bad
      case Good(inner, rest) =>
        match DecodeOnto(k.fields, if was.Message? then was.slots else [], inner)
        case Error => Bad
        case Done(slots) => Good(Message(slots), rest)
    else if k.Blob? || k.Text? || k.FixedBlob? then DecodeData(k, b)
    else DecodeNumber(k, b)
  }

  // ----- Fields ----------------------------------------------------------------------------------------

  /** The elements of a packed array; it must be used up, and not be too long. */
  function DecodePacked(k: Kind, max: nat, vs: seq<Val>, b: Bytes): Parsed<seq<Val>>
    decreases k, |b| + 1
  {
    if b == [] then Good(vs, b)
    else if |vs| >= max then Bad
    else match DecodeValue(k, Zero(k), b)
      case Bad => Bad
      case Good(v, rest) => DecodePacked(k, max, vs + [v], rest)
  }

  function DecodeSlot(f: Field, s: Slot, wireType: nat, b: Bytes): (p: Parsed<Slot>)
    ensures p.Good? ==> |p.rest| < |b|
    decreases f
  {
    if f.rule.Repeated? then
      var vs := if s.Many? then s.vs else [];
      if wireType == 2 && Packable(f.kind) then
        match TakePrefixed(b)
        case Bad => Bad
        case Good(inner, rest) =>
          (match DecodePacked(f.kind, f.rule.max, vs, inner)
           case Bad => Bad
           case Good(more, _) => Good(Many(more), rest))
      else if |vs| >= f.rule.max then Bad
      else match DecodeValue(f.kind, Zero(f.kind), b)
        case Bad => Bad
        case Good(v, rest) => Good(Many(vs + [v]), rest)
    else match DecodeValue(f.kind, if s.One? then s.v else Zero(f.kind), b)
      case Bad => Bad
      case Good(v, rest) => Good(One(v), rest)
  }

  /** Fields that share a union with this one are gone. */
  function SetSlot(fields: seq<Field>, slots: seq<Slot>, i: nat, s: Slot): (out: seq<Slot>)
    requires i < |fields|
    ensures |out| == |slots|
  {
    seq(|slots|, j requires 0 <= j < |slots| =>
      if j == i then s else if j < |fields| && SameUnion(fields[i], fields[j]) then Absent else slots[j])
  }

  /** The field with the tag, or the number of fields. */
  function IndexOf(fields: seq<Field>, tag: nat, i: nat): (r: nat)
    requires i <= |fields|
    ensures i <= r <= |fields|
    ensures r < |fields| ==> fields[r].tag == tag
    ensures forall n: nat | i <= n < r :: fields[n].tag != tag
    decreases |fields| - i
  {
    if i == |fields| || fields[i].tag == tag then i else IndexOf(fields, tag, i + 1)
  }

  lemma {:induction false} IndexOfIs(fields: seq<Field>, tag: nat, i: nat, j: nat)
    requires FieldsOk(fields) && j <= i < |fields| && fields[i].tag == tag
    ensures IndexOf(fields, tag, j) == i
    decreases i - j
  {
    if j < i {
      assert TagsDiffer(fields, j, i);
      IndexOfIs(fields, tag, i, j + 1);
    }
  }

  const MAX_REQUIRED_FIELDS: nat := 64

  /** How many of the first `i` fields are required. */
  function RequiredBefore(fields: seq<Field>, i: nat): nat
    requires i <= |fields|
  {
    if i == 0 then 0 else RequiredBefore(fields, i - 1) + if fields[i - 1].rule.Required? then 1 else 0
  }

  function See(fields: seq<Field>, i: nat, seen: set<nat>): set<nat>
    requires i < |fields|
  {
    if fields[i].rule.Required? && RequiredBefore(fields, i) < MAX_REQUIRED_FIELDS
        then seen + {RequiredBefore(fields, i)} else seen
  }

  /** The first required fields, as many as are kept track of, have been seen. */
  predicate AllSeen(fields: seq<Field>, seen: set<nat>) {
    forall r: nat | r < RequiredBefore(fields, |fields|) && r < MAX_REQUIRED_FIELDS :: r in seen
  }

  datatype Decoding = Failed | Decoded(slots: seq<Slot>, seen: set<nat>)

  datatype Outcome = Error | Done(slots: seq<Slot>)

  /** The end of a description has the tag 0. It is found where no field is, and then taken for a
      required bool, which nothing asks for. */
  predicate IsTerminator(fields: seq<Field>, tag: nat) {
    fields == [] && tag == 0
  }

  function DecodeLoop(fields: seq<Field>, slots: seq<Slot>, seen: set<nat>, b: Bytes): Decoding
    decreases fields, |b|
  {
    if b == [] then Decoded(slots, seen)
    else match DecodeTag(b)
      case End => Decoded(slots, seen)
      case BadTag => Failed
      case Tagged(tag, wireType, rest) =>
        var i := IndexOf(fields, tag, 0);
        if IsTerminator(fields, tag) then
          match DecodeVarint32(rest)
          case Bad => Failed
          case Good(_, after) => DecodeLoop(fields, slots, seen + {0}, after)
        else if i == |fields| || i >= |slots| then
          match Skip(wireType, rest)
          case Bad => Failed
          case Good(_, after) => DecodeLoop(fields, slots, seen, after)
        else
          match DecodeSlot(fields[i], slots[i], wireType, rest)
          case Bad => Failed
          case Good(s, after) => DecodeLoop(fields, SetSlot(fields, slots, i, s), See(fields, i, seen), after)
  }

  /** Decodes without setting defaults first. */
  function DecodeOnto(fields: seq<Field>, slots: seq<Slot>, b: Bytes): Outcome
    decreases fields, |b| + 1
  {
    match DecodeLoop(fields, slots, {}, b)
    case Failed => Error
    case Decoded(out, seen) => if AllSeen(fields, seen) then Done(out) else Error
  }

  function DecodeMessage(fields: seq<Field>, b: Bytes): Outcome {
    DecodeOnto(fields, Defaults(fields), b)
  }

  /** Two bytes that a message without fields accepts, as a bool with tag 0 and the wire type of
      64 bits. */
  lemma TerminatorIsDecoded(fields: seq<Field>, b: Bytes)
    requires fields == [] && b == [0x01, 0x05]
    ensures DecodeMessage(fields, b) == Done([])
  {
    assert DecodeVarint32(b) == Good(1, [0x05]) by { assert b[1..] == [0x05]; }
    assert DecodeVarint32([0x05]) == Good(5, []) by { assert [0x05][1..] == []; }
    assert DecodeTag(b) == Tagged(0, 1, [0x05]);
    var none: set<nat> := {};
    assert Defaults(fields) == [] && none + {0} == {0};
    assert DecodeLoop(fields, [], none, b) == DecodeLoop(fields, [], none + {0}, []);
    assert RequiredBefore(fields, 0) == 0 && AllSeen(fields, {0});
  }
}
