/** What a saved level holds, and why replaying a manifest rebuilds the version. */
module Replay {
  import opened Files
  import opened VersionBuilder

  // ----- Contents and order of a saved level --------------------------------------------------

  lemma {:induction false} InMerge(base: seq<File>, added: seq<File>, f: File)
    ensures f in MergeFiles(base, added) <==> f in base || f in added
  {
    if added == [] {
    } else if base != [] && !FileLess(added[0], base[0]) {
      HeadTail(base);
      InMerge(base[1..], added, f);
    } else {
      HeadTail(added);
      InMerge(base, added[1..], f);
    }
  }

  lemma {:induction false} InKeep(files: seq<File>, deleted: set<nat>, f: File)
    ensures f in Keep(files, deleted) <==> f in files && f.number !in deleted
  {
    if files != [] {
      HeadTail(files);
      InKeep(files[1..], deleted, f);
    }
  }

  /** A level holds the base files and the added files that are not deleted. */
  lemma InSaved(base: seq<File>, added: seq<File>, deleted: set<nat>, f: File)
    ensures f in SaveLevel(base, added, deleted) <==> (f in base || f in added) && f.number !in deleted
  {
    InMerge(base, added, f);
    InKeep(MergeFiles(base, added), deleted, f);
  }

  ghost predicate NoneShared(a: seq<File>, b: seq<File>) {
    forall f | f in a :: f !in b
  }

  lemma FileLessTotal(f: File, g: File)
    ensures FileLess(f, g) || FileLess(g, f) || (f.smallest == g.smallest && f.number == g.number)
    ensures !(FileLess(f, g) && FileLess(g, f))
  {
  }

  /** Files that agree on their number are the same file. */
  ghost predicate SameNumberSameFile(a: seq<File>, b: seq<File>) {
    forall f, g | f in a && g in b && f.number == g.number :: f == g
  }

  lemma {:induction false} MergeSorted(base: seq<File>, added: seq<File>)
    requires FilesSorted(base) && FilesSorted(added)
    requires NoneShared(base, added) && SameNumberSameFile(base, added)
    ensures FilesSorted(MergeFiles(base, added))
  {
    if added == [] {
    } else if base != [] && !FileLess(added[0], base[0]) {
      HeadTail(base);
      HeadTail(added);
      SortedCons(base[0], base[1..]);
      SortedCons(added[0], added[1..]);
      MergeSorted(base[1..], added);
      BelowMerge(base[0], base[1..], added);
      SortedCons(base[0], MergeFiles(base[1..], added));
    } else {
      HeadTail(added);
      SortedCons(added[0], added[1..]);
      if base != [] {
        HeadTail(base);
        SortedCons(base[0], base[1..]);
      }
      MergeSorted(base, added[1..]);
      BelowMerge(added[0], base, added[1..]);
      SortedCons(added[0], MergeFiles(base, added[1..]));
    }
  }

  lemma BelowMerge(f: File, base: seq<File>, added: seq<File>)
    requires forall g | g in base ::
      FileLess(f, g) || (base != [] && FileLess(f, base[0]) && (g == base[0] || FileLess(base[0], g)))
    requires forall g | g in added ::
      FileLess(f, g) || (added != [] && FileLess(f, added[0]) && (g == added[0] || FileLess(added[0], g)))
    ensures FileBelowAll(f, MergeFiles(base, added))
  {
    forall g | g in MergeFiles(base, added) ensures FileLess(f, g) { InMerge(base, added, g); }
  }

  lemma {:induction false} KeepSorted(files: seq<File>, deleted: set<nat>)
    requires FilesSorted(files)
    ensures FilesSorted(Keep(files, deleted))
  {
    if files != [] {
      HeadTail(files);
      SortedCons(files[0], files[1..]);
      KeepSorted(files[1..], deleted);
      forall g | g in Keep(files[1..], deleted) ensures FileLess(files[0], g) { InKeep(files[1..], deleted, g); }
      SortedCons(files[0], Keep(files[1..], deleted));
      assert [] + Keep(files[1..], deleted) == Keep(files[1..], deleted);
    }
  }

  lemma SavedSorted(base: seq<File>, added: seq<File>, deleted: set<nat>)
    requires FilesSorted(base) && FilesSorted(added)
    requires NoneShared(base, added) && SameNumberSameFile(base, added)
    ensures FilesSorted(SaveLevel(base, added, deleted))
  {
    MergeSorted(base, added);
    KeepSorted(MergeFiles(base, added), deleted);
  }

  // ----- The set of added files ---------------------------------------------------------------

  lemma {:induction false} InsertKeepsOrder(files: seq<File>, f: File)
    requires FilesSorted(files) && SameNumberSameFile(files, [f])
    ensures FilesSorted(InsertFile(files, f))
    ensures forall g :: g in InsertFile(files, f) <==> g in files || g == f
  {
    if files == [] {
    } else {
      HeadTail(files);
      SortedCons(files[0], files[1..]);
      if FileLess(files[0], f) {
        InsertKeepsOrder(files[1..], f);
        SortedCons(files[0], InsertFile(files[1..], f));
      } else if FileLess(f, files[0]) {
        SortedCons(f, files);
      } else {
        FileLessTotal(files[0], f);
        assert files[0] in files && f in [f];
      }
    }
  }

  lemma {:induction false} InsertAllKeepsOrder(files: seq<File>, more: seq<File>)
    requires FilesSorted(files) && SameNumberSameFile(files, more) && SameNumberSameFile(more, more)
    ensures FilesSorted(InsertFiles(files, more))
    ensures forall g :: g in InsertFiles(files, more) <==> g in files || g in more
    decreases more
  {
    if more != [] {
      HeadTail(more);
      InsertKeepsOrder(files, more[0]);
      InsertAllKeepsOrder(InsertFile(files, more[0]), more[1..]);
    }
  }

  lemma HasElement(files: seq<File>)
    ensures files == [] || exists f :: f in files
  {
    if files != [] { assert files[0] in files; }
  }

  /** A strictly sorted list is determined by its elements. */
  lemma {:induction false} SortedIsUnique(a: seq<File>, b: seq<File>)
    requires FilesSorted(a) && FilesSorted(b)
    requires forall f :: f in a <==> f in b
    ensures a == b
  {
    if a == [] {
      HasElement(b);
    } else {
      assert a[0] in b;
      HeadTail(a);
      HeadTail(b);
      SortedCons(a[0], a[1..]);
      SortedCons(b[0], b[1..]);
      assert b[0] in a;
      FileLessTotal(a[0], b[0]);
      assert a[0] == b[0];
      forall f ensures f in a[1..] <==> f in b[1..] {
        assert f in a <==> f in b;
        FileLessTotal(f, a[0]);
      }
      SortedIsUnique(a[1..], b[1..]);
    }
  }

  // ----- Replay ---------------------------------------------------------------------------------

  /** One builder fed with all edits. */
  function ApplyAll(st: LevelState, edits: seq<LevelEdit>): LevelState
    decreases edits
  {
    if edits == [] then st else ApplyAll(ApplyLevel(st, edits[0]), edits[1..])
  }

  function Save(base: seq<File>, st: LevelState): seq<File> {
    SaveLevel(base, st.added, st.deleted)
  }

  /** A new builder, and a new version, per edit. */
  function ApplyEach(files: seq<File>, edits: seq<LevelEdit>): seq<File>
    decreases edits
  {
    if edits == [] then files else ApplyEach(Save(files, ApplyLevel(NOTHING, edits[0])), edits[1..])
  }

  /** No edit adds a number that the level has already used. */
  ghost predicate FreshNumbers(used: set<nat>, edits: seq<LevelEdit>)
    decreases edits
  {
    edits == [] ||
    (&& Numbers(edits[0].added) !! used
     && SameNumberSameFile(edits[0].added, edits[0].added)
     && FreshNumbers(used + Numbers(edits[0].added), edits[1..]))
  }

  ghost predicate ReadyState(base: seq<File>, st: LevelState, used: set<nat>) {
    && FilesSorted(base) && FilesSorted(st.added)
    && Numbers(base) !! Numbers(st.added)
    && Numbers(base) + Numbers(st.added) <= used
  }

  lemma ReadySaves(base: seq<File>, st: LevelState, used: set<nat>)
    requires ReadyState(base, st, used)
    ensures FilesSorted(Save(base, st))
    ensures forall f :: f in Save(base, st) <==> (f in base || f in st.added) && f.number !in st.deleted
    ensures Numbers(Save(base, st)) <= used
  {
    forall f | f in base ensures f.number in Numbers(base) {}
    forall f | f in st.added ensures f.number in Numbers(st.added) {}
    SavedSorted(base, st.added, st.deleted);
    forall f ensures f in Save(base, st) <==> (f in base || f in st.added) && f.number !in st.deleted {
      InSaved(base, st.added, st.deleted, f);
    }
  }

  lemma ReadyAfter(base: seq<File>, st: LevelState, used: set<nat>, e: LevelEdit)
    requires ReadyState(base, st, used)
    requires Numbers(e.added) !! used && SameNumberSameFile(e.added, e.added)
    ensures ReadyState(base, ApplyLevel(st, e), used + Numbers(e.added))
    ensures forall f :: f in ApplyLevel(st, e).added <==> f in st.added || f in e.added
  {
    forall f | f in st.added ensures f.number in Numbers(st.added) {}
    forall f | f in e.added ensures f.number in Numbers(e.added) {}
    InsertAllKeepsOrder(st.added, e.added);
  }

  /** Saving after one more edit is saving, then applying the edit to what was saved. */
  lemma OneMoreEdit(base: seq<File>, st: LevelState, used: set<nat>, e: LevelEdit)
    requires ReadyState(base, st, used)
    requires Numbers(e.added) !! used && SameNumberSameFile(e.added, e.added)
    ensures Save(base, ApplyLevel(st, e)) == Save(Save(base, st), ApplyLevel(NOTHING, e))
  {
    ReadySaves(base, st, used);
    ReadyAfter(base, st, used, e);
    ReadySaves(base, ApplyLevel(st, e), used + Numbers(e.added));
    var mid := Save(base, st);
    assert ReadyState(mid, NOTHING, used);
    ReadyAfter(mid, NOTHING, used, e);
    ReadySaves(mid, ApplyLevel(NOTHING, e), used + Numbers(e.added));
    forall f ensures f in Save(base, ApplyLevel(st, e)) <==> f in Save(mid, ApplyLevel(NOTHING, e)) {
      if f in e.added { assert f.number in Numbers(e.added); }
      if f in base { assert f.number in Numbers(base); }
      if f in st.added { assert f.number in Numbers(st.added); }
    }
    SortedIsUnique(Save(base, ApplyLevel(st, e)), Save(mid, ApplyLevel(NOTHING, e)));
  }

  lemma {:induction false} ReplayFrom(base: seq<File>, st: LevelState, used: set<nat>, edits: seq<LevelEdit>)
    requires ReadyState(base, st, used) && FreshNumbers(used, edits)
    ensures Save(base, ApplyAll(st, edits)) == ApplyEach(Save(base, st), edits)
    decreases edits
  {
    if edits != [] {
      OneMoreEdit(base, st, used, edits[0]);
      ReadyAfter(base, st, used, edits[0]);
      ReplayFrom(base, ApplyLevel(st, edits[0]), used + Numbers(edits[0].added), edits[1..]);
    }
  }

  lemma {:induction false} SaveNothing(files: seq<File>)
    ensures Save(files, NOTHING) == files
  {
    if files != [] {
      SaveNothing(files[1..]);
      HeadTail(files);
    }
  }

  /** The edit that a manifest starts with: every file of the level. */
  function Snapshot(files: seq<File>): LevelEdit {
    LevelEdit({}, files)
  }

  /** Recovery feeds one builder, over the empty version, with the snapshot and all later
      edits; it arrives at the level that installing the edits one by one arrived at. */
  lemma RecoverRebuilds(files: seq<File>, edits: seq<LevelEdit>)
    requires FilesSorted(files) && SameNumberSameFile(files, files)
    requires FreshNumbers(Numbers(files), edits)
    ensures Save([], ApplyAll(NOTHING, [Snapshot(files)] + edits)) == ApplyEach(files, edits)
  {
    var all := [Snapshot(files)] + edits;
    assert all[1..] == edits;
    assert {} + Numbers(files) == Numbers(files);
    ReplayFrom([], NOTHING, {}, all);
    ReadyAfter([], NOTHING, {}, Snapshot(files));
    ReadySaves([], ApplyLevel(NOTHING, Snapshot(files)), Numbers(files));
    SaveNothing([]);
    SortedIsUnique(Save([], ApplyLevel(NOTHING, Snapshot(files))), files);
  }

  /** The freshness of numbers matters: a file that is deleted and later added again to the
      same level is saved twice by the single builder. */
  lemma ReusedNumberDuplicates(f: File)
    ensures var edits := [LevelEdit({f.number}, []), LevelEdit({}, [f])];
            && ApplyEach([f], edits) == [f]
            && Save([f], ApplyAll(NOTHING, edits)) == [f, f]
  {
    var e1, e2 := LevelEdit({f.number}, []), LevelEdit({}, [f]);
    var edits := [e1, e2];
    assert edits[1..] == [e2] && [e2][1..] == [] && [f][1..] == [] && [f, f][1..] == [f];
    assert Numbers([]) == {} && Numbers([f]) == {f.number};
    assert InsertFiles([], [f]) == InsertFiles([f], []);
    var deleted := LevelState({f.number}, []);
    var added := LevelState({}, [f]);
    assert ApplyLevel(NOTHING, e1) == deleted && ApplyLevel(NOTHING, e2) == added && ApplyLevel(deleted, e2) == added;
    assert Keep([f], {f.number}) == [] + Keep([], {f.number});
    assert Keep([f], {}) == [f] + Keep([], {});
    assert Keep([f, f], {}) == [f] + Keep([f], {});
    assert MergeFiles([], [f]) == [f] + MergeFiles([], []);
    assert MergeFiles([f], [f]) == [f] + MergeFiles([], [f]);
    assert Save([f], deleted) == [] && Save([], added) == [f] && Save([f], added) == [f, f];
    calc {
      ApplyEach([f], edits);
      ApplyEach(Save([f], deleted), [e2]);
      ApplyEach(Save([], added), []);
      [f];
    }
    calc {
      ApplyAll(NOTHING, edits);
      ApplyAll(deleted, [e2]);
      ApplyAll(added, []);
      added;
    }
  }
}
