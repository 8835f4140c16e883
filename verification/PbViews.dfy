/** Two descriptions of one message, of which the reader's need not have all fields of the writer's. */
module PbViews {
  import opened Coding
  import opened PbMessages
  import opened PbEncoding
  import opened PbDecoding

  // ----- What the reader's description must keep -----------------------------------------------------

  ghost predicate KindFollows(ours: Kind, theirs: Kind)
    decreases ours
  {
    if ours.Sub? && theirs.Sub? then Follows(ours.fields, theirs.fields) else ours == theirs
  }

  ghost predicate FieldFollows(ours: Field, theirs: Field)
    decreases ours
  {
    ours.tag == theirs.tag ==> ours.rule == theirs.rule && KindFollows(ours.kind, theirs.kind)
  }

  ghost predicate FollowsAt(ours: seq<Field>, theirs: seq<Field>, j: nat, i: nat)
    requires j < |ours| && i < |theirs|
    decreases ours, 0
  {
    FieldFollows(ours[j], theirs[i])
  }

  /** Fields with the same tag are alike, up to the fields of submessages. Either description may
      have fields that the other has not, in any order. */
  ghost predicate Agree(ours: seq<Field>, theirs: seq<Field>)
    decreases ours, 1
  {
    forall j: nat, i: nat | j < |ours| && i < |theirs| :: FollowsAt(ours, theirs, j, i)
  }

  predicate Tracked(fields: seq<Field>, j: nat)
    requires j < |fields|
  {
    fields[j].rule.Required? && RequiredBefore(fields, j) < MAX_REQUIRED_FIELDS
  }

  /** The writer has a field that the reader asks for. */
  predicate Supplied(ours: seq<Field>, theirs: seq<Field>, j: nat)
    requires j < |ours|
  {
    Tracked(ours, j) ==> IndexOf(theirs, ours[j].tag, 0) < |theirs|
  }

  ghost predicate SuppliedAll(ours: seq<Field>, theirs: seq<Field>) {
    forall j: nat | j < |ours| :: Supplied(ours, theirs, j)
  }

  ghost predicate Follows(ours: seq<Field>, theirs: seq<Field>)
    decreases ours, 2
  {
    Agree(ours, theirs) && SuppliedAll(ours, theirs)
  }

  // ----- What the reader sees ------------------------------------------------------------------------

  function ViewVal(ours: Kind, theirs: Kind, v: Val): Val
    decreases ours
  {
    if ours.Sub? && theirs.Sub? && v.Message? then Message(View(ours.fields, theirs.fields, v.slots)) else v
  }

  function ViewAll(ours: Field, theirs: Field, vs: seq<Val>): (out: seq<Val>)
    ensures |out| == |vs|
    decreases ours, 0
  {
    seq(|vs|, i requires 0 <= i < |vs| => ViewVal(ours.kind, theirs.kind, vs[i]))
  }

  function ViewSlot(ours: Field, theirs: Field, s: Slot): Slot
    decreases ours, 1
  {
    match s
    case Absent => Absent
    case One(v) => One(ViewVal(ours.kind, theirs.kind, v))
    case Many(vs) => Many(ViewAll(ours, theirs, vs))
  }

  /** The first `i` fields of the writer, where the reader has them; its other fields are as at first. */
  function Partly(ours: seq<Field>, theirs: seq<Field>, slots: seq<Slot>, i: nat): (out: seq<Slot>)
    ensures |out| == |ours|
    decreases ours, 0
  {
    seq(|ours|, j requires 0 <= j < |ours| =>
      var at := IndexOf(theirs, ours[j].tag, 0);
      if at < i && at < |theirs| && at < |slots| then ViewSlot(ours[j], theirs[at], slots[at])
      else DefaultSlot(ours[j]))
  }

  /** The message as the reader knows it. */
  function View(ours: seq<Field>, theirs: seq<Field>, slots: seq<Slot>): (out: seq<Slot>)
    ensures |out| == |ours|
    decreases ours, 1
  {
    Partly(ours, theirs, slots, |theirs|)
  }

  // ----- With one description everything is seen -------------------------------------------------------

  lemma {:induction false} ValueIsSeen(k: Kind, v: Val)
    requires KindOk(k) && Typed(k, v)
    ensures ViewVal(k, k, v) == v
    decreases k
  {
    if k.Sub? { AllIsSeen(k.fields, v.slots); }
  }

  lemma SlotIsSeen(f: Field, s: Slot)
    requires FieldOk(f) && TypedSlot(f, s)
    ensures ViewSlot(f, f, s) == s
    decreases f
  {
    if s.One? {
      ValueIsSeen(f.kind, s.v);
    } else if s.Many? {
      forall i: nat | i < |s.vs| ensures ViewVal(f.kind, f.kind, s.vs[i]) == s.vs[i] {
        assert TypedItem(f, s.vs, i);
        ValueIsSeen(f.kind, s.vs[i]);
      }
      assert ViewAll(f, f, s.vs) == s.vs;
    }
  }

  lemma {:induction false} AllIsSeen(fields: seq<Field>, slots: seq<Slot>)
    requires FieldsOk(fields) && TypedAll(fields, slots)
    ensures View(fields, fields, slots) == slots
    decreases fields
  {
    forall i: nat | i < |fields| ensures View(fields, fields, slots)[i] == slots[i] {
      IndexOfIs(fields, fields[i].tag, i, 0);
      assert FieldOk(fields[i]) && TypedAt(fields, slots, i);
      SlotIsSeen(fields[i], slots[i]);
    }
  }

  lemma {:induction false} KindFollowsItself(k: Kind)
    requires KindOk(k)
    ensures KindFollows(k, k)
    decreases k
  {
    if k.Sub? { FollowsItself(k.fields); }
  }

  lemma {:induction false} FollowsItself(fields: seq<Field>)
    requires FieldsOk(fields)
    ensures Follows(fields, fields)
    decreases fields
  {
    forall j: nat | j < |fields| ensures Supplied(fields, fields, j) {
      IndexOfIs(fields, fields[j].tag, j, 0);
    }
    forall j: nat, i: nat | j < |fields| && i < |fields| ensures FollowsAt(fields, fields, j, i) {
      assert FieldOk(fields[j]);
      if j < i {
        assert TagsDiffer(fields, j, i);
      } else if i < j {
        assert TagsDiffer(fields, i, j);
      } else {
        FieldFollowsItself(fields[j]);
      }
    }
  }

  lemma FieldFollowsItself(f: Field)
    requires FieldOk(f)
    ensures FieldFollows(f, f)
    decreases f
  {
    KindFollowsItself(f.kind);
  }

  // ----- Zeros are seen as zeros ---------------------------------------------------------------------

  lemma {:induction false} ZeroIsSeen(ours: Kind, theirs: Kind)
    requires KindFollows(ours, theirs)
    ensures ViewVal(ours, theirs, Zero(theirs)) == Zero(ours)
    decreases ours
  {
    if ours.Sub? && theirs.Sub? { DefaultsAreSeen(ours.fields, theirs.fields); }
  }

  lemma {:induction false} DefaultsAreSeen(ours: seq<Field>, theirs: seq<Field>)
    requires Agree(ours, theirs)
    ensures View(ours, theirs, Defaults(theirs)) == Defaults(ours)
    decreases ours
  {
    forall j: nat | j < |ours| ensures View(ours, theirs, Defaults(theirs))[j] == DefaultSlot(ours[j]) {
      var i := IndexOf(theirs, ours[j].tag, 0);
      if i < |theirs| {
        assert FollowsAt(ours, theirs, j, i);
        DefaultIsSeen(ours[j], theirs[i]);
      }
    }
  }

  lemma {:induction false} DefaultIsSeen(ours: Field, theirs: Field)
    requires FieldFollows(ours, theirs) && ours.tag == theirs.tag
    ensures ViewSlot(ours, theirs, DefaultSlot(theirs)) == DefaultSlot(ours)
    decreases ours
  {
    if ours.rule.Repeated? {
      assert ViewAll(ours, theirs, []) == [];
    } else {
      ZeroIsSeen(ours.kind, theirs.kind);
    }
  }
}
