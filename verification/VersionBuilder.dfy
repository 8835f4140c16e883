/** Applying version edits: the builder that accumulates edits over a base version and
    saves the result level by level. */
module VersionBuilder {
  import opened Files
  import opened Versions

  ghost predicate FileBelowAll(f: File, files: seq<File>) {
    forall g | g in files :: FileLess(f, g)
  }

  lemma SortedCons(f: File, files: seq<File>)
    ensures FilesSorted([f] + files) <==> FileBelowAll(f, files) && FilesSorted(files)
  {
    var all := [f] + files;
    if FilesSorted(all) {
      forall g | g in files ensures FileLess(f, g) {
        var j :| 0 <= j < |files| && files[j] == g;
        assert FileInOrder(all, 0, j + 1);
      }
      forall i, j | 0 <= i < j < |files| ensures FileInOrder(files, i, j) { assert FileInOrder(all, i + 1, j + 1); }
    }
    if FileBelowAll(f, files) && FilesSorted(files) {
      forall i, j | 0 <= i < j < |all| ensures FileInOrder(all, i, j) {
        if i > 0 { assert FileInOrder(files, i - 1, j - 1); } else { assert all[j] in files; }
      }
    }
  }

  lemma HeadTail(files: seq<File>)
    requires files != []
    ensures files == [files[0]] + files[1..]
  {
  }

  /** Insertion into the set of added files; an equivalent element is kept. */
  function InsertFile(files: seq<File>, f: File): seq<File> {
    if files == [] then [f]
    else if FileLess(files[0], f) then [files[0]] + InsertFile(files[1..], f)
    else if FileLess(f, files[0]) then [f] + files
    else files
  }

  function InsertFiles(files: seq<File>, more: seq<File>): seq<File>
    decreases more
  {
    if more == [] then files else InsertFiles(InsertFile(files, more[0]), more[1..])
  }

  function Numbers(files: seq<File>): set<nat> {
    set f | f in files :: f.number
  }

  /** The base files and the added files in one order; on ties the base file comes first. */
  function MergeFiles(base: seq<File>, added: seq<File>): seq<File> {
    if added == [] then base
    else if base != [] && !FileLess(added[0], base[0]) then [base[0]] + MergeFiles(base[1..], added)
    else [added[0]] + MergeFiles(base, added[1..])
  }

  function Keep(files: seq<File>, deleted: set<nat>): seq<File> {
    if files == [] then []
    else (if files[0].number in deleted then [] else [files[0]]) + Keep(files[1..], deleted)
  }

  function SaveLevel(base: seq<File>, added: seq<File>, deleted: set<nat>): seq<File> {
    Keep(MergeFiles(base, added), deleted)
  }

  /** What one level of one edit says: numbers to delete and files to add. */
  datatype LevelEdit = LevelEdit(deleted: set<nat>, added: seq<File>)

  /** What the builder has accumulated for one level. */
  datatype LevelState = LevelState(deleted: set<nat>, added: seq<File>)

  function ApplyLevel(st: LevelState, e: LevelEdit): LevelState {
    LevelState(st.deleted + e.deleted - Numbers(e.added), InsertFiles(st.added, e.added))
  }

  const NOTHING := LevelState({}, [])

  datatype Edit = Edit(levels: seq<LevelEdit>)

  class Builder {
    const base: Version
    var levels: seq<LevelState>

    ghost predicate Valid()
      reads this
    {
      |levels| == NUM_LEVELS
    }

    constructor (base: Version)
      ensures Valid() && this.base == base && forall l | 0 <= l < NUM_LEVELS :: levels[l] == NOTHING
    {
      this.base := base;
      levels := seq(NUM_LEVELS, _ => NOTHING);
    }

    /** Deletions first; an addition cancels a pending deletion of the same number. */
    method Apply(edit: Edit)
      requires Valid() && |edit.levels| == NUM_LEVELS
      modifies this
      ensures Valid()
      ensures forall l | 0 <= l < NUM_LEVELS :: levels[l] == ApplyLevel(old(levels)[l], edit.levels[l])
    {
      for l := 0 to NUM_LEVELS
        invariant Valid()
        invariant forall m | 0 <= m < l :: levels[m] == ApplyLevel(old(levels)[m], edit.levels[m])
        invariant forall m | l <= m < NUM_LEVELS :: levels[m] == old(levels)[m]
      {
        var e := edit.levels[l];
        var deleted, added := levels[l].deleted + e.deleted, levels[l].added;
        for i := 0 to |e.added|
          invariant deleted == levels[l].deleted + e.deleted - Numbers(e.added[..i])
          invariant InsertFiles(added, e.added[i..]) == InsertFiles(levels[l].added, e.added)
        {
          assert e.added[..i + 1] == e.added[..i] + [e.added[i]];
          assert e.added[i..] == [e.added[i]] + e.added[i + 1..];
          deleted := deleted - {e.added[i].number};
          added := InsertFile(added, e.added[i]);
        }
        assert e.added[..|e.added|] == e.added;
        levels := levels[l := LevelState(deleted, added)];
      }
    }

    /** Interleaves the base files with the added ones and leaves the deleted ones out. */
    method SaveTo() returns (v: Version)
      requires Valid()
      ensures forall l | 0 <= l < NUM_LEVELS :: v[l] == SaveLevel(base[l], levels[l].added, levels[l].deleted)
    {
      var out: seq<seq<File>> := [];
      for l := 0 to NUM_LEVELS
        invariant |out| == l
        invariant forall m | 0 <= m < l :: out[m] == SaveLevel(base[m], levels[m].added, levels[m].deleted)
      {
        var files := SaveOneLevel(base[l], levels[l].added, levels[l].deleted);
        out := out + [files];
      }
      v := out;
    }

    static method SaveOneLevel(base: seq<File>, added: seq<File>, deleted: set<nat>) returns (files: seq<File>)
      ensures files == SaveLevel(base, added, deleted)
    {
      files := [];
      var b := 0;
      SavingStarts(base, added, deleted);
      for a := 0 to |added|
        invariant Saving(files, base, b, added, a, deleted)
      {
        while b < |base| && !FileLess(added[a], base[b])
          invariant Saving(files, base, b, added, a, deleted)
        {
          TakeBase(files, base, b, added, a, deleted);
          files := MaybeAddFile(files, base[b], deleted);
          b := b + 1;
        }
        TakeAdded(files, base, b, added, a, deleted);
        files := MaybeAddFile(files, added[a], deleted);
      }
      while b < |base|
        invariant Saving(files, base, b, added, |added|, deleted)
      {
        TakeBase(files, base, b, added, |added|, deleted);
        files := MaybeAddFile(files, base[b], deleted);
        b := b + 1;
      }
      SavingEnds(files, base, added, deleted);
    }

  }

  function MaybeAddFile(files: seq<File>, f: File, deleted: set<nat>): seq<File> {
    if f.number in deleted then files else files + [f]
  }

  lemma KeepCons(f: File, files: seq<File>, deleted: set<nat>)
    ensures Keep([f] + files, deleted) == (if f.number in deleted then [] else [f]) + Keep(files, deleted)
  {
    assert ([f] + files)[1..] == files;
  }

  /** `files` is what has been saved when `b` base files and `a` added ones are consumed. */
  ghost predicate Saving(files: seq<File>, base: seq<File>, b: nat, added: seq<File>, a: nat, deleted: set<nat>) {
    b <= |base| && a <= |added| && files + SaveLevel(base[b..], added[a..], deleted) == SaveLevel(base, added, deleted)
  }

  lemma SavingStarts(base: seq<File>, added: seq<File>, deleted: set<nat>)
    ensures Saving([], base, 0, added, 0, deleted)
  {
    assert base[0..] == base && added[0..] == added;
  }

  lemma SavingEnds(files: seq<File>, base: seq<File>, added: seq<File>, deleted: set<nat>)
    requires Saving(files, base, |base|, added, |added|, deleted)
    ensures files == SaveLevel(base, added, deleted)
  {
    assert base[|base|..] == [] && added[|added|..] == [];
  }

  lemma TakeBase(files: seq<File>, base: seq<File>, b: nat, added: seq<File>, a: nat, deleted: set<nat>)
    requires b < |base| && Saving(files, base, b, added, a, deleted)
    requires a < |added| ==> !FileLess(added[a], base[b])
    ensures Saving(MaybeAddFile(files, base[b], deleted), base, b + 1, added, a, deleted)
  {
    assert base[b..][1..] == base[b + 1..];
    HeadTail(base[b..]);
    assert a < |added| ==> added[a..][0] == added[a];
    KeepCons(base[b], MergeFiles(base[b + 1..], added[a..]), deleted);
    assert MergeFiles(base[b..], added[a..]) == [base[b]] + MergeFiles(base[b + 1..], added[a..]);
  }

  lemma TakeAdded(files: seq<File>, base: seq<File>, b: nat, added: seq<File>, a: nat, deleted: set<nat>)
    requires a < |added| && Saving(files, base, b, added, a, deleted)
    requires b < |base| ==> FileLess(added[a], base[b])
    ensures Saving(MaybeAddFile(files, added[a], deleted), base, b, added, a + 1, deleted)
  {
    assert added[a..][1..] == added[a + 1..];
    KeepCons(added[a], MergeFiles(base[b..], added[a + 1..]), deleted);
  }
}
