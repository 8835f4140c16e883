/** From the edits that the steps of the store log to the versions they produce. */
module Edits {
  import opened Files
  import opened Versions
  import opened Install
  import opened Placement
  import opened VersionBuilder
  import opened Replay

  const NO_EDIT := LevelEdit({}, [])

  ghost predicate Applied(v: Version, w: Version, edit: Edit)
    requires |edit.levels| == NUM_LEVELS
  {
    forall l | 0 <= l < NUM_LEVELS :: w[l] == Save(v[l], ApplyLevel(NOTHING, edit.levels[l]))
  }

  /** The edit of a compaction: delete the inputs at both levels, add the outputs. */
  function CompactionEdit(level: nat, base: seq<File>, next: seq<File>, outputs: seq<File>): Edit {
    Edit(seq(NUM_LEVELS, l =>
      if l == level then LevelEdit(Numbers(base), [])
      else if l == level + 1 then LevelEdit(Numbers(next), outputs)
      else NO_EDIT))
  }

  function AddEdit(level: nat, f: File): Edit {
    Edit(seq(NUM_LEVELS, l => if l == level then LevelEdit({}, [f]) else NO_EDIT))
  }

  lemma LevelListedAt(v: Version, l: nat)
    requires Ordered(v) && l < NUM_LEVELS
    ensures FilesSorted(v[l]) && SameNumberSameFile(v[l], v[l])
  {
    if l > 0 {
      LevelIsSorted(v, l);
      LevelListed(v[l]);
    }
    assert NumbersApart(v, l, l);
  }

  lemma UntouchedLevel(files: seq<File>)
    ensures Save(files, ApplyLevel(NOTHING, NO_EDIT)) == files
  {
    assert ApplyLevel(NOTHING, NO_EDIT) == NOTHING;
    SaveNothing(files);
  }

  lemma LevelAfterDelete(files: seq<File>, base: seq<File>)
    requires FilesSorted(files) && SameNumberSameFile(files, files) && forall f | f in base :: f in files
    ensures var out := Save(files, ApplyLevel(NOTHING, LevelEdit(Numbers(base), [])));
            FilesSorted(out) && forall f :: f in out <==> f in files && f !in base
  {
    var st := ApplyLevel(NOTHING, LevelEdit(Numbers(base), []));
    assert st.deleted == Numbers(base) && st.added == [];
    SavedSorted(files, [], Numbers(base));
    forall f ensures f in Save(files, st) <==> f in files && f !in base {
      InSaved(files, [], Numbers(base), f);
    }
  }

  lemma LevelAfterReplace(files: seq<File>, next: seq<File>, outputs: seq<File>)
    requires FilesSorted(files) && SameNumberSameFile(files, files) && forall f | f in next :: f in files
    requires SameNumberSameFile(outputs, outputs) && forall f, o | f in files && o in outputs :: f.number != o.number
    ensures var out := Save(files, ApplyLevel(NOTHING, LevelEdit(Numbers(next), outputs)));
            FilesSorted(out) && forall f :: f in out <==> (f in files && f !in next) || f in outputs
  {
    var st := ApplyLevel(NOTHING, LevelEdit(Numbers(next), outputs));
    InsertAllKeepsOrder([], outputs);
    SavedSorted(files, st.added, st.deleted);
    forall f ensures f in Save(files, st) <==> (f in files && f !in next) || f in outputs {
      InSaved(files, st.added, st.deleted, f);
      if f in outputs { assert f.number in Numbers(outputs); }
      assert f in next ==> f.number in Numbers(next);
    }
  }

  lemma CompactionEditInstalls(v: Version, w: Version, level: nat, base: seq<File>, next: seq<File>, outputs: seq<File>)
    requires level + 1 < NUM_LEVELS && Ordered(v) && Applied(v, w, CompactionEdit(level, base, next, outputs))
    requires (forall f | f in base :: f in v[level]) && (forall f | f in next :: f in v[level + 1])
    requires SameNumberSameFile(outputs, outputs) && forall f, o | f in v[level + 1] && o in outputs ::
             f.number != o.number
    ensures Installed(v, w, level, base, next, outputs)
  {
    LevelListedAt(v, level);
    LevelListedAt(v, level + 1);
    LevelAfterDelete(v[level], base);
    LevelAfterReplace(v[level + 1], next, outputs);
    forall l | 0 <= l < NUM_LEVELS && l != level && l != level + 1 ensures w[l] == v[l] && FilesSorted(w[l]) {
      UntouchedLevel(v[l]);
      LevelListedAt(v, l);
    }
  }

  lemma AddEditAdds(v: Version, w: Version, level: nat, f: File)
    requires level < NUM_LEVELS && Ordered(v) && FreshNumber(v, f.number) && Applied(v, w, AddEdit(level, f))
    ensures Added(v, w, level, f)
  {
    LevelListedAt(v, level);
    assert Numbers([]) == {};
    LevelAfterReplace(v[level], [], [f]);
    forall l | 0 <= l < NUM_LEVELS && l != level ensures w[l] == v[l] {
      UntouchedLevel(v[l]);
    }
  }

  /** Builds the next version from the current one and one edit. */
  method LogAndApply(v: Version, edit: Edit) returns (w: Version)
    requires |edit.levels| == NUM_LEVELS
    ensures Applied(v, w, edit)
  {
    var builder := new Builder(v);
    builder.Apply(edit);
    w := builder.SaveTo();
  }
}
