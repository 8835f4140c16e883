/** What a message is encoded as. */
module PbEncoding {
  import opened Coding
  import opened PbMessages

  /** The number of a wire type. */
  function WireType(k: Kind): nat {
    match k
    case Fixed32 => 5
    case Fixed64 => 1
    case Blob(_) => 2
    case Text(_) => 2
    case Sub(_) => 2
    case FixedBlob(_) => 2
    case _ => 0
  }

  function ZigZag(n: int): nat {
    if n < 0 then -2 * n - 1 else 2 * n
  }

  function Tag(number: nat, wireType: nat): Bytes {
    Varint(number * 8 + wireType)
  }

  function Prefixed(b: Bytes): Bytes {
    Varint(|b|) + b
  }

  /** A number in memory of this size. */
  function LowBytes(n: int, size: nat): Bytes {
    Fixed(n % Range(size), size)
  }

  /** Numbers are extended to 64 bits. */
  function EncodeNumber(k: Kind, n: int): Bytes {
    match k
    case SInt(_) => Varint(ZigZag(n))
    case Fixed32 => LowBytes(n, 4)
    case Fixed64 => LowBytes(n, 8)
    case _ => Varint(n % 0x1_0000_0000_0000_0000)
  }

  function EncodeValue(k: Kind, v: Val): Bytes
    decreases k, 0
  {
    match v
    case Number(n) => EncodeNumber(k, n)
    case Data(b) => Prefixed(b)
    case Message(slots) => if k.Sub? then Prefixed(EncodeFields(k.fields, slots, 0)) else []
  }

  function EncodeAll(k: Kind, vs: seq<Val>): Bytes
    decreases k, |vs|
  {
    if vs == [] then [] else EncodeValue(k, vs[0]) + EncodeAll(k, vs[1..])
  }

  function EncodeTagged(f: Field, v: Val): Bytes
    decreases f, 0
  {
    Tag(f.tag, WireType(f.kind)) + EncodeValue(f.kind, v)
  }

  function EncodeEach(f: Field, vs: seq<Val>): Bytes
    decreases f, |vs|
  {
    if vs == [] then [] else EncodeTagged(f, vs[0]) + EncodeEach(f, vs[1..])
  }

  /** Arrays are packed where their elements allow it. */
  function EncodeSlot(f: Field, s: Slot): Bytes
    decreases f, (if s.Many? then |s.vs| else 0) + 1
  {
    match s
    case Absent => []
    case One(v) => if f.rule.Singular? && IsZero(f.kind, v) then [] else EncodeTagged(f, v)
    case Many(vs) =>
      if vs == [] then []
      else if Packable(f.kind) then Tag(f.tag, 2) + Prefixed(EncodeAll(f.kind, vs))
      else EncodeEach(f, vs)
  }

  /** The fields from `i` on. */
  function EncodeFields(fields: seq<Field>, slots: seq<Slot>, i: nat): Bytes
    decreases fields, |fields| - i
  {
    if i >= |fields| || i >= |slots| then [] else EncodeSlot(fields[i], slots[i]) + EncodeFields(fields, slots, i + 1)
  }

  function EncodeMessage(fields: seq<Field>, slots: seq<Slot>): Bytes {
    EncodeFields(fields, slots, 0)
  }

  /** A field is left out exactly when a reader starts with what it holds. */
  lemma WrittenUnlessDefault(f: Field, s: Slot)
    requires TypedSlot(f, s)
    ensures EncodeSlot(f, s) == [] <==> IsDefault(f, s)
  {
    if s.Many? && s.vs != [] && !Packable(f.kind) {
      assert |EncodeEach(f, s.vs)| >= |EncodeTagged(f, s.vs[0])|;
    }
  }
}
