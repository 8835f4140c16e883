/** Static message descriptions and the messages they describe. */
module PbMessages {
  import opened Coding

  /** Optional fields have a flag that says whether they are there; Singular ones do not, and are
      there unless they are zero. */
  datatype Rule = Required | Optional | Singular | Repeated(max: nat) | Oneof(group: nat)

  /** Sizes are in bytes; a Text of some size has room for its terminator in it. */
  datatype Kind =
    | Bool
    | Int(size: nat)
    | UInt(size: nat)
    | SInt(size: nat)
    | Fixed32
    | Fixed64
    | Blob(max: nat)
    | Text(size: nat)
    | Sub(fields: seq<Field>)
    | FixedBlob(size: nat)

  datatype Field = Field(tag: nat, rule: Rule, kind: Kind)

  datatype Val = Number(n: int) | Data(bytes: Bytes) | Message(slots: seq<Slot>)

  datatype Slot = Absent | One(v: Val) | Many(vs: seq<Val>)

  function Range(size: nat): int {
    if size == 1 then 0x100 else if size == 2 then 0x1_0000 else if size == 4 then 0x1_0000_0000
    else 0x1_0000_0000_0000_0000
  }

  predicate IsSize(size: nat) {
    size == 1 || size == 2 || size == 4 || size == 8
  }

  predicate Packable(k: Kind) {
    !k.Blob? && !k.Text? && !k.Sub? && !k.FixedBlob?
  }

  // ----- Well-formed descriptions --------------------------------------------------------------------

  ghost predicate KindOk(k: Kind)
    decreases k
  {
    match k
    case Int(size) => IsSize(size)
    case UInt(size) => IsSize(size)
    case SInt(size) => IsSize(size)
    case Text(size) => size > 0
    case Sub(fields) => FieldsOk(fields)
    case _ => true
  }

  ghost predicate TagsDiffer(fields: seq<Field>, i: nat, j: nat)
    requires i < |fields| && j < |fields|
  {
    fields[i].tag != fields[j].tag
  }

  ghost predicate FieldsOk(fields: seq<Field>)
    decreases fields
  {
    && (forall i: nat | i < |fields| :: FieldOk(fields[i]))
    && forall i: nat, j: nat | i < j < |fields| :: TagsDiffer(fields, i, j)
  }

  ghost predicate FieldOk(f: Field)
    decreases f
  {
    0 < f.tag < 0x2000_0000 && KindOk(f.kind)
  }

  // ----- Messages of a description -------------------------------------------------------------------

  ghost predicate NoZero(b: Bytes) {
    forall i | 0 <= i < |b| :: b[i] != 0
  }

  /** The value is one that the memory of a field can hold. */
  ghost predicate Typed(k: Kind, v: Val)
    decreases k
  {
    match k
    case Bool => v.Number? && 0 <= v.n <= 1
    case Int(size) => v.Number? && -Range(size) <= 2 * v.n < Range(size)
    case UInt(size) => v.Number? && 0 <= v.n < Range(size)
    case SInt(size) => v.Number? && -Range(size) <= 2 * v.n < Range(size)
    case Fixed32 => v.Number? && 0 <= v.n < Range(4)
    case Fixed64 => v.Number? && 0 <= v.n < Range(8)
    case Blob(_) => v.Data?
    case Text(size) => v.Data? && |v.bytes| < size && NoZero(v.bytes)
    case FixedBlob(size) => v.Data? && |v.bytes| == size
    case Sub(fields) => v.Message? && TypedAll(fields, v.slots)
  }

  ghost predicate TypedSlot(f: Field, s: Slot)
    decreases f
  {
    match f.rule
    case Required => s.One? && Typed(f.kind, s.v)
    case Singular => s.One? && Typed(f.kind, s.v)
    case Optional => s.Absent? || (s.One? && Typed(f.kind, s.v))
    case Oneof(_) => s.Absent? || (s.One? && Typed(f.kind, s.v))
    case Repeated(_) => s.Many? && forall i: nat | i < |s.vs| :: TypedItem(f, s.vs, i)
  }

  ghost predicate TypedItem(f: Field, vs: seq<Val>, i: nat)
    requires i < |vs|
    decreases f, 0
  {
    Typed(f.kind, vs[i])
  }

  predicate SameUnion(f: Field, g: Field) {
    f.rule.Oneof? && f.rule == g.rule
  }

  /** At most one of the fields that share a union is there. */
  ghost predicate Shares(fields: seq<Field>, slots: seq<Slot>, i: nat, j: nat)
    requires i < |fields| == |slots| && j < |fields|
  {
    SameUnion(fields[i], fields[j]) ==> slots[i].Absent? || slots[j].Absent?
  }

  ghost predicate TypedAll(fields: seq<Field>, slots: seq<Slot>)
    decreases fields
  {
    && |slots| == |fields|
    && (forall i: nat | i < |fields| :: TypedAt(fields, slots, i))
    && forall i: nat, j: nat | i < j < |fields| :: Shares(fields, slots, i, j)
  }

  ghost predicate TypedAt(fields: seq<Field>, slots: seq<Slot>, i: nat)
    requires i < |fields| == |slots|
    decreases fields, 0
  {
    TypedSlot(fields[i], slots[i])
  }

  /** Nothing is longer than the description allows. */
  ghost predicate Within(k: Kind, v: Val)
    decreases k
  {
    match k
    case Blob(max) => v.Data? ==> |v.bytes| <= max
    case Sub(fields) => v.Message? ==> WithinAll(fields, v.slots)
    case _ => true
  }

  ghost predicate WithinSlot(f: Field, s: Slot)
    decreases f
  {
    match s
    case Absent => true
    case One(v) => Within(f.kind, v)
    case Many(vs) => (f.rule.Repeated? ==> |vs| <= f.rule.max) && forall i: nat | i < |vs| :: WithinItem(f, vs, i)
  }

  ghost predicate WithinItem(f: Field, vs: seq<Val>, i: nat)
    requires i < |vs|
    decreases f, 0
  {
    Within(f.kind, vs[i])
  }

  ghost predicate WithinAll(fields: seq<Field>, slots: seq<Slot>)
    decreases fields
  {
    |slots| == |fields| ==> forall i: nat | i < |fields| :: WithinAt(fields, slots, i)
  }

  ghost predicate WithinAt(fields: seq<Field>, slots: seq<Slot>, i: nat)
    requires i < |fields| == |slots|
    decreases fields, 0
  {
    WithinSlot(fields[i], slots[i])
  }

  // ----- Defaults -----------------------------------------------------------------------------------------

  function Zero(k: Kind): Val
    decreases k
  {
    match k
    case Blob(_) => Data([])
    case Text(_) => Data([])
    case FixedBlob(size) => Data(Zeros(size))
    case Sub(fields) => Message(Defaults(fields))
    case _ => Number(0)
  }

  function DefaultSlot(f: Field): Slot
    decreases f
  {
    match f.rule
    case Required => One(Zero(f.kind))
    case Singular => One(Zero(f.kind))
    case Optional => Absent
    case Oneof(_) => Absent
    case Repeated(_) => Many([])
  }

  function Defaults(fields: seq<Field>): (slots: seq<Slot>)
    ensures |slots| == |fields|
    decreases fields
  {
    seq(|fields|, i requires 0 <= i < |fields| => DefaultSlot(fields[i]))
  }

  /** The test that keeps a Singular field from being written. */
  predicate IsDefault(f: Field, s: Slot)
    decreases f
  {
    match f.rule
    case Required => false
    case Repeated(_) => s == Many([])
    case Oneof(_) => s == Absent
    case Optional => s == Absent
    case Singular => s.One? && IsZero(f.kind, s.v)
  }

  predicate IsZero(k: Kind, v: Val)
    decreases k
  {
    match k
    case Blob(_) => v == Data([])
    case Text(_) => v == Data([])
    case FixedBlob(size) => size == 0
    case Sub(fields) => v.Message? && |v.slots| == |fields| && forall i: nat | i < |fields| ::
        IsDefaultAt(fields, v.slots, i)
    case _ => v == Number(0)
  }

  predicate IsDefaultAt(fields: seq<Field>, slots: seq<Slot>, i: nat)
    requires i < |fields| == |slots|
    decreases fields, 0
  {
    IsDefault(fields[i], slots[i])
  }

  /** What is not written is what a reader starts with. */
  lemma {:induction false} DefaultsAgree(f: Field, s: Slot)
    requires TypedSlot(f, s) && IsDefault(f, s)
    ensures s == DefaultSlot(f)
    decreases f
  {
    if f.rule.Singular? {
      ZerosAgree(f.kind, s.v);
    }
  }

  lemma {:induction false} ZerosAgree(k: Kind, v: Val)
    requires Typed(k, v) && IsZero(k, v)
    ensures v == Zero(k)
    decreases k
  {
    if k.Sub? {
      forall i: nat | i < |k.fields| ensures v.slots[i] == DefaultSlot(k.fields[i]) {
        assert TypedAt(k.fields, v.slots, i) && IsDefaultAt(k.fields, v.slots, i);
        DefaultsAgree(k.fields[i], v.slots[i]);
      }
      assert v.slots == Defaults(k.fields);
    }
  }

  lemma {:induction false} DefaultsWithin(f: Field, s: Slot)
    requires IsDefault(f, s)
    ensures WithinSlot(f, s)
    decreases f
  {
    if f.rule.Singular? {
      ZerosWithin(f.kind, s.v);
    }
  }

  lemma {:induction false} ZerosWithin(k: Kind, v: Val)
    requires IsZero(k, v)
    ensures Within(k, v)
    decreases k
  {
    if k.Sub? {
      forall i: nat | i < |k.fields| ensures WithinAt(k.fields, v.slots, i) {
        assert IsDefaultAt(k.fields, v.slots, i);
        DefaultsWithin(k.fields[i], v.slots[i]);
      }
    }
  }
}
