/** How a store gets to the version of Resurrection, and what the compaction there leaves: a run
    of flushes and merges from the empty store, each as the steps of the store allow it. */
module UncoveringRun {
  import opened Keys
  import opened Files
  import opened Versions
  import opened Inputs
  import opened Picking
  import opened Compact
  import opened CompactionWork
  import opened Install
  import opened Preserve
  import opened Placement
  import opened History
  import opened Steps
  import opened Resurrection

  // A value of key 1 is flushed to level 2, and a snapshot is taken. A value of key 0 and a deletion
  // of key 1 are flushed to level 1 and merged into level 2, where the output is cut between the
  // two entries of key 1, which the snapshot keeps. The snapshot is released. Another value
  // of key 0 is flushed to level 1.

  const OPS: seq<Op> := [Put(1, []), Put(0, []), Delete(1), Put(0, [])]

  // The tables may have any sizes within these: that of the first merge is full with its second
  // entry and not before, and what a flush meets two levels down is no more than the limit. (A
  // rank stands for a user key of any length.)

  ghost predicate CutsThere(z: Sizes, maxFileSize: nat) {
    && z.written([OLDER]) < maxFileSize <= z.written([OLDER, DELETED])
    && z.finished([OLDER, DELETED]) + z.finished([BURIED]) <= MaxGrandParentOverlapBytes(maxFileSize)
  }

  function Oldest(z: Sizes): File { Built(2, z.finished([BURIED]), [BURIED]) }

  function Middle(z: Sizes): File { Built(3, z.finished([OLDER, DELETED]), [OLDER, DELETED]) }

  function Last(z: Sizes): File { Built(7, z.finished([NEWER]), [NEWER]) }

  const NOTHING: Version := [[], [], [], [], [], [], []]

  function Flushed1(z: Sizes): Version { [[], [], [Oldest(z)], [], [], [], []] }

  function Flushed2(z: Sizes): Version { [[], [Middle(z)], [Oldest(z)], [], [], [], []] }

  function Merged1(z: Sizes): Version { [[], [], [Left(z), Right(z)], [], [], [], []] }

  function Merged2(z: Sizes): Version { [[], [], [Last(z), Right(z)], [], [], [], []] }

  lemma Written()
    ensures EntriesOf(OPS[..1]) == {BURIED} && EntriesOf(OPS[..3]) == {BURIED, OLDER, DELETED}
    ensures EntriesOf(OPS) == {BURIED, OLDER, DELETED, NEWER}
  {
    var es := [BURIED, OLDER, DELETED, NEWER];
    assert forall i | 0 <= i < 4 :: EntryOf(OPS, i) == es[i];
    Prefix(es, 1);
    Prefix(es, 3);
    Prefix(es, 4);
    assert OPS[..4] == OPS;
    assert (set i | 0 <= i < 1 :: es[i]) == {es[0]};
    assert (set i | 0 <= i < 3 :: es[i]) == {es[0], es[1], es[2]};
    assert (set i | 0 <= i < 4 :: es[i]) == {es[0], es[1], es[2], es[3]};
  }

  lemma Prefix(es: seq<Entry>, n: nat)
    requires |es| == 4 && n <= 4 && forall i | 0 <= i < 4 :: EntryOf(OPS, i) == es[i]
    ensures EntriesOf(OPS[..n]) == set i | 0 <= i < n :: es[i]
  {
    assert forall i | 0 <= i < n :: EntryOf(OPS[..n], i) == EntryOf(OPS, i);
  }

  lemma TablesValid(z: Sizes)
    ensures Oldest(z).Valid() && Middle(z).Valid() && Last(z).Valid() && Top(z).Valid() && Left(z).Valid()
            && Right(z).Valid()
  {
    TablesAreValid(z);
    OneEntryValid(2, z.finished([BURIED]), BURIED);
    OneEntryValid(7, z.finished([NEWER]), NEWER);
    assert Middle(z).entries == Left(z).entries;
  }

  // ----- Flushes --------------------------------------------------------------------------------------

  lemma NothingIsOrdered()
    ensures Ordered(NOTHING) && Entries(NOTHING) == {}
  {
  }

  /** A table is placed at a level, given what overlaps it. */
  lemma FlushStep(z: Sizes, v: Version, w: Version, f: File, level: nat, maxFileSize: nat)
    requires Ordered(v) && f.entries != [] && f == Built(f.number, z.finished(f.entries), f.entries)
    requires level < NUM_LEVELS && Added(v, w, level, f) && FitsAt(v, level, f)
    requires IsOutputLevel(v, Between(f.smallest.user, f.largest.user), maxFileSize, level)
    ensures Flushed(v, w, f.entries, f.number, maxFileSize, z) && Ordered(w)
            && Entries(w) == Entries(v) + Elements(f.entries)
  {
    AddKeepsOrder(v, w, level, f);
  }

  lemma AloneAtLevel(v: Version, w: Version, level: nat, f: File)
    requires level < NUM_LEVELS && v[level] == [] && w == v[level := [f]]
    ensures Added(v, w, level, f)
  {
  }

  lemma NoBytes(v: Version, l: nat, r: Range)
    requires Ordered(v) && l + 2 < NUM_LEVELS && v[l + 2] == []
    ensures GrandParentBytes(v, l, r) == 0
  {
  }

  lemma DeepestPlace(z: Sizes, maxFileSize: nat)
    requires Ordered(NOTHING)
    ensures IsOutputLevel(NOTHING, Between(1, 1), maxFileSize, 2)
  {
    NoBytes(NOTHING, 0, Between(1, 1));
    NoBytes(NOTHING, 1, Between(1, 1));
  }

  lemma FitsNowhere(z: Sizes)
    requires Ordered(NOTHING) && Oldest(z).Valid() && Entries(NOTHING) == {}
    ensures FitsAt(NOTHING, 2, Oldest(z))
  {
  }

  lemma FirstFlush(z: Sizes, maxFileSize: nat)
    ensures Ordered(NOTHING) && Flushed(NOTHING, Flushed1(z), [BURIED], 2, maxFileSize, z) && Ordered(Flushed1(z))
    ensures Entries(Flushed1(z)) == {BURIED}
  {
    TablesValid(z);
    NothingIsOrdered();
    AloneAtLevel(NOTHING, Flushed1(z), 2, Oldest(z));
    DeepestPlace(z, maxFileSize);
    FitsNowhere(z);
    FlushStep(z, NOTHING, Flushed1(z), Oldest(z), 2, maxFileSize);
  }

  /** What a range meets of one or two files is no more than both. */
  lemma FewBytes(v: Version, l: nat, r: Range, files: seq<File>, bytes: nat)
    requires Ordered(v) && l + 2 < NUM_LEVELS && v[l + 2] == files && 1 <= |files| <= 2
    requires files[0].size + (if |files| == 2 then files[1].size else 0) <= bytes
    ensures GrandParentBytes(v, l, r) <= bytes
  {
    if |files| == 1 {
      assert files == [files[0]];
      MetOne(files[0], r);
    } else {
      assert files == [files[0], files[1]];
      MetTwo(files[0], files[1], r);
    }
  }

  lemma MetOne(f: File, r: Range)
    ensures Meeting([f], r) == (if r.Meets(f) then [f] else []) && TotalFileSize(Meeting([f], r)) <= f.size
  {
    assert [f][..0] == [] && [f][1..] == [];
    assert Meeting([f], r) == Meeting([], r) + (if r.Meets(f) then [f] else []);
  }

  lemma MetTwo(f: File, g: File, r: Range)
    ensures TotalFileSize(Meeting([f, g], r)) <= f.size + g.size
  {
    MetOne(f, r);
    MetOne(g, r);
    assert [f, g][..1] == [f] && [f, g][1..] == [g] && [g][1..] == [] && [f][1..] == [];
    assert Meeting([f, g], r) == Meeting([f], r) + (if r.Meets(g) then [g] else []);
    if r.Meets(f) && r.Meets(g) {
      assert Meeting([f, g], r) == [f, g];
    } else {
      assert Meeting([f, g], r) == if r.Meets(f) then [f] else if r.Meets(g) then [g] else [];
    }
  }

  /** A version with tables at level 2 only. */
  ghost predicate OnlyLevel2(v: Version, files: seq<File>) {
    v == [[], [], files, [], [], [], []]
  }

  ghost predicate NewerTable(f: File, files: seq<File>) {
    forall g | g in files :: g.number < f.number && NewerThan(f, g)
  }

  lemma EntriesAtLevel2(v: Version, files: seq<File>, e: Entry)
    requires OnlyLevel2(v, files)
    ensures e in Entries(v) <==> InFiles(files, e)
  {
    if InFiles(files, e) {
      var f :| f in files && e in f.entries;
      assert f in v[2];
    }
  }

  lemma FitsAboveLevel2(v: Version, files: seq<File>, f: File)
    requires OnlyLevel2(v, files) && Ordered(v) && f.Valid() && UniqueSeqs(Elements(f.entries)) && NewerTable(f, files)
    ensures FitsAt(v, 1, f)
  {
    forall l, g | 0 <= l < NUM_LEVELS && g in v[l] ensures g in files {}
    var es := Entries(v) + Elements(f.entries);
    forall a, b | a in es && b in es && a.key.user == b.key.user && a.key.seqno == b.key.seqno ensures a == b {
      EntriesAtLevel2(v, files, a);
      EntriesAtLevel2(v, files, b);
    }
  }

  lemma PlacedAboveLevel2(v: Version, files: seq<File>, r: Range, maxFileSize: nat)
    requires OnlyLevel2(v, files) && Ordered(v)
    requires GrandParentBytes(v, 0, r) <= MaxGrandParentOverlapBytes(maxFileSize)
    requires exists g :: g in files && r.Meets(g)
    ensures IsOutputLevel(v, r, maxFileSize, 1)
  {
    var g :| g in files && r.Meets(g);
    assert g in v[2];
    assert OverlapInLevel(v, 2, r);
  }

  /** A table that is newer than all of level 2 and overlaps it goes to level 1. */
  lemma FlushAboveLevel2(z: Sizes, v: Version, w: Version, files: seq<File>, f: File, maxFileSize: nat)
    requires OnlyLevel2(v, files) && Ordered(v) && w == v[1 := [f]]
    requires 1 <= |files| <= 2
    requires files[0].size + (if |files| == 2 then files[1].size else 0) <= MaxGrandParentOverlapBytes(maxFileSize)
    requires f.Valid() && UniqueSeqs(Elements(f.entries)) && NewerTable(f, files)
    requires f.entries != [] && f == Built(f.number, z.finished(f.entries), f.entries)
    requires exists g :: g in files && Between(f.smallest.user, f.largest.user).Meets(g)
    ensures Flushed(v, w, f.entries, f.number, maxFileSize, z) && Ordered(w)
            && Entries(w) == Entries(v) + Elements(f.entries)
  {
    var r := Between(f.smallest.user, f.largest.user);
    FitsAboveLevel2(v, files, f);
    FewBytes(v, 0, r, files, MaxGrandParentOverlapBytes(maxFileSize));
    PlacedAboveLevel2(v, files, r, maxFileSize);
    AloneAtLevel(v, w, 1, f);
    FlushStep(z, v, w, f, 1, maxFileSize);
  }

  lemma SecondFlush(z: Sizes, maxFileSize: nat)
    requires CutsThere(z, maxFileSize)
    ensures Ordered(Flushed1(z)) && Flushed(Flushed1(z), Flushed2(z), [OLDER, DELETED], 3, maxFileSize, z)
            && Ordered(Flushed2(z))
    ensures Entries(Flushed2(z)) == {BURIED, OLDER, DELETED}
  {
    FirstFlush(z, maxFileSize);
    SecondShape(z);
    MiddleIsNewer(z);
    SecondFlushAt(z, Middle(z), [Oldest(z)], maxFileSize);
  }

  lemma SecondShape(z: Sizes)
    ensures OnlyLevel2(Flushed1(z), [Oldest(z)]) && Flushed2(z) == Flushed1(z)[1 := [Middle(z)]] && Middle(z).Valid()
    ensures UniqueSeqs({OLDER, DELETED}) && {BURIED} + {OLDER, DELETED} == {BURIED, OLDER, DELETED}
  {
    TablesValid(z);
  }

  lemma SecondFlushAt(z: Sizes, f: File, files: seq<File>, maxFileSize: nat)
    requires f == Middle(z) && files == [Oldest(z)] && CutsThere(z, maxFileSize) && Ordered(Flushed1(z))
             && Entries(Flushed1(z)) == {BURIED}
    requires OnlyLevel2(Flushed1(z), files) && Flushed2(z) == Flushed1(z)[1 := [f]] && f.Valid()
             && UniqueSeqs({OLDER, DELETED})
    requires NewerTable(f, files) && Elements(f.entries) == {OLDER, DELETED}
    requires exists g :: g in files && Between(f.smallest.user, f.largest.user).Meets(g)
    ensures Flushed(Flushed1(z), Flushed2(z), f.entries, f.number, maxFileSize, z) && Ordered(Flushed2(z))
    ensures Entries(Flushed2(z)) == {BURIED} + {OLDER, DELETED}
  {
    FlushAboveLevel2(z, Flushed1(z), Flushed2(z), files, f, maxFileSize);
  }

  lemma MiddleIsNewer(z: Sizes)
    ensures NewerTable(Middle(z), [Oldest(z)]) && Elements(Middle(z).entries) == {OLDER, DELETED}
    ensures exists g :: g in [Oldest(z)] && Between(Middle(z).smallest.user, Middle(z).largest.user).Meets(g)
  {
    assert forall g | g in [Oldest(z)] :: g == Oldest(z);
    assert Oldest(z) in [Oldest(z)] && Between(0, 1).Meets(Oldest(z));
  }

  lemma ThirdFlush(z: Sizes, maxFileSize: nat)
    requires CutsThere(z, maxFileSize) && Ordered(Merged1(z))
    ensures Flushed(Merged1(z), Covering(z), [NEWER], 6, maxFileSize, z)
  {
    TablesValid(z);
    TopIsNewer(z);
    ThirdFlushAt(z, Top(z), [Left(z), Right(z)], maxFileSize);
  }

  lemma TopIsNewer(z: Sizes)
    ensures NewerTable(Top(z), [Left(z), Right(z)])
    ensures exists g :: g in [Left(z), Right(z)] && Between(Top(z).smallest.user, Top(z).largest.user).Meets(g)
  {
    assert forall g | g in [Left(z), Right(z)] :: g == Left(z) || g == Right(z);
    assert Left(z) in [Left(z), Right(z)] && Between(0, 0).Meets(Left(z));
  }

  lemma ThirdFlushAt(z: Sizes, f: File, files: seq<File>, maxFileSize: nat)
    requires f == Top(z) && files == [Left(z), Right(z)] && CutsThere(z, maxFileSize) && Ordered(Merged1(z))
             && f.Valid()
    requires NewerTable(f, files) && exists g :: g in files && Between(f.smallest.user, f.largest.user).Meets(g)
    ensures Flushed(Merged1(z), Covering(z), f.entries, f.number, maxFileSize, z)
  {
    FlushAboveLevel2(z, Merged1(z), Covering(z), files, f, maxFileSize);
  }

  // ----- Merges ---------------------------------------------------------------------------------------

  lemma FirstPlan(z: Sizes, maxFileSize: nat)
    requires CanPick(Flushed2(z), 1)
    ensures var plan := Setup(Flushed2(z), 1, [Middle(z)], maxFileSize); plan.base == [Middle(z)]
                                                                         && plan.next == [Oldest(z)]
  {
    assert Flushed2(z)[1] == [Middle(z)] && Flushed2(z)[2] == [Oldest(z)];
    assert [Middle(z)][..0] == [] && [Oldest(z)][..0] == [];
    assert BoundaryFile([Middle(z)], Middle(z).largest)
        == None by { assert BoundaryFile([], Middle(z).largest) == None; }
    assert WithBoundary([Middle(z)], [Middle(z)], Middle(z).largest) == [Middle(z)];
    assert AddBoundary([Middle(z)], [Middle(z)]) == [Middle(z)];
    var r := Hull([Middle(z)]);
    assert Meeting([Oldest(z)], r) == Meeting([], r) + [Oldest(z)];
    assert NextInputs(Flushed2(z), 1, [Middle(z)]) == [Oldest(z)];
    var wide := Hull([Middle(z)] + [Oldest(z)]);
    assert Meeting([Middle(z)], wide) == Meeting([], wide) + (if wide.Meets(Middle(z)) then [Middle(z)] else []);
    assert |AddBoundary([Middle(z)], Meeting([Middle(z)], wide))| <= 1;
  }

  const FIRST_INPUT := [OLDER, DELETED, BURIED]
  const SECOND_INPUT := [NEWER, OLDER, DELETED]

  lemma KeptThree(all: seq<Entry>, floor: nat, v: Version, level: nat)
    requires |all| == 3
    ensures Kept(all, 3, floor, v, level)
         == (if Dropped(all, 0, floor, v, level) then [] else [all[0]])
          + (if Dropped(all, 1, floor, v, level) then [] else [all[1]])
          + (if Dropped(all, 2, floor, v, level) then [] else [all[2]])
  {
    assert Kept(all, 0, floor, v, level) == [];
    assert Kept(all, 1, floor, v, level) == Kept(all, 0, floor, v, level)
        + (if Dropped(all, 0, floor, v, level) then [] else [all[0]]);
    assert Kept(all, 2, floor, v, level) == Kept(all, 1, floor, v, level)
        + (if Dropped(all, 1, floor, v, level) then [] else [all[1]]);
  }

  lemma FirstKept(z: Sizes)
    ensures Kept(FIRST_INPUT, 3, 1, Flushed2(z), 1) == Flatten([Left(z), Right(z)])
  {
    KeptThree(FIRST_INPUT, 1, Flushed2(z), 1);
    FlattenTwo(Left(z), Right(z));
  }

  lemma FlattenTwo(f: File, g: File)
    ensures Flatten([f, g]) == f.entries + g.entries && Flatten([f]) == f.entries
  {
    assert [f, g][..1] == [f] && [f][..0] == [];
    assert Flatten([f]) == Flatten([]) + f.entries;
    assert Flatten([f, g]) == Flatten([f]) + g.entries;
  }

  /** Everything that a merge is, but for the version that it is installed in. */
  lemma FirstMerge(z: Sizes, maxFileSize: nat)
    requires Ordered(Flushed2(z)) && CanPick(Flushed2(z), 1)
    ensures Merge(Flushed2(z), Merged1(z), 1, [Middle(z)], [Oldest(z)], FIRST_INPUT, 1, [Left(z), Right(z)])
  {
    assert [Middle(z)] == Flushed2(z)[1][0..1];
    SetupIsClosed(Flushed2(z), 1, [Middle(z)], maxFileSize);
    FirstPlan(z, maxFileSize);
    FirstKept(z);
    FirstInput(z);
    FirstOutputs(z);
    FirstInstalled(z);
  }

  lemma FirstOutputs(z: Sizes)
    ensures GoodOutputs(Flushed2(z), 1, [Middle(z)], [Oldest(z)], [Left(z), Right(z)])
  {
    TablesValid(z);
    assert forall f | f in [Left(z), Right(z)] :: f == Left(z) || f == Right(z);
    assert Middle(z) in [Middle(z)] && Oldest(z) in [Oldest(z)];
    forall l, g | 0 <= l < NUM_LEVELS && g in Flushed2(z)[l] ensures g == Middle(z) || g == Oldest(z) {}
  }

  lemma FirstInstalled(z: Sizes)
    ensures Installed(Flushed2(z), Merged1(z), 1, [Middle(z)], [Oldest(z)], [Left(z), Right(z)])
  {
    assert FileInOrder(Merged1(z)[2], 0, 1);
    forall l | 0 <= l < NUM_LEVELS ensures FilesSorted(Merged1(z)[l]) {
      forall i, j | 0 <= i < j < |Merged1(z)[l]| ensures FileInOrder(Merged1(z)[l], i, j) {}
    }
  }

  lemma FirstInput(z: Sizes)
    ensures IsInputOf(FIRST_INPUT, [Middle(z)], [Oldest(z)])
  {
    forall i, j | 0 <= i < j < 3 ensures InOrder(FIRST_INPUT, i, j) {}
    assert Middle(z) in [Middle(z)] && Oldest(z) in [Oldest(z)];
    assert BURIED in Oldest(z).entries && OLDER in Middle(z).entries && DELETED in Middle(z).entries;
  }

  lemma SecondKept(z: Sizes)
    ensures Kept(SECOND_INPUT, 3, 4, Covering(z), 1) == Flatten([Last(z)])
  {
    KeptThree(SECOND_INPUT, 4, Covering(z), 1);
    FlattenTwo(Last(z), Last(z));
    assert IsBase(Covering(z), 1, 1);
    assert Obsolete(SECOND_INPUT, 2, 4, Covering(z), 1);
    assert Hidden(SECOND_INPUT, 1, 4);
  }

  lemma SecondInput(z: Sizes)
    ensures IsInputOf(SECOND_INPUT, [Top(z)], [Left(z)])
  {
    forall i, j | 0 <= i < j < 3 ensures InOrder(SECOND_INPUT, i, j) {}
    assert Top(z) in [Top(z)] && Left(z) in [Left(z)];
    assert NEWER in Top(z).entries && OLDER in Left(z).entries && DELETED in Left(z).entries;
  }

  lemma SecondOutputs(z: Sizes)
    ensures GoodOutputs(Covering(z), 1, [Top(z)], [Left(z)], [Last(z)])
  {
    TablesValid(z);
    assert forall f | f in [Last(z)] :: f == Last(z);
    assert Top(z) in [Top(z)] && Left(z) in [Left(z)] && NEWER in Top(z).entries;
    forall l, g | 0 <= l < NUM_LEVELS && g in Covering(z)[l] ensures g == Top(z) || g == Left(z) || g == Right(z) {}
  }

  lemma SecondInstalled(z: Sizes)
    ensures Installed(Covering(z), Merged2(z), 1, [Top(z)], [Left(z)], [Last(z)])
  {
    assert FileInOrder(Merged2(z)[2], 0, 1);
    forall l | 0 <= l < NUM_LEVELS ensures FilesSorted(Merged2(z)[l]) {
      forall i, j | 0 <= i < j < |Merged2(z)[l]| ensures FileInOrder(Merged2(z)[l], i, j) {}
    }
  }

  lemma SecondMerge(z: Sizes, maxFileSize: nat)
    requires Ordered(Covering(z)) && CanPick(Covering(z), 1)
    ensures Merge(Covering(z), Merged2(z), 1, [Top(z)], [Left(z)], SECOND_INPUT, 4, [Last(z)])
  {
    assert [Top(z)] == Covering(z)[1][0..1];
    SetupIsClosed(Covering(z), 1, [Top(z)], maxFileSize);
    InputsOfVersion(z, maxFileSize);
    SecondKept(z);
    SecondInput(z);
    SecondOutputs(z);
    SecondInstalled(z);
  }

  lemma CutIsOrdered(z: Sizes, maxFileSize: nat)
    requires Ordered(Flushed2(z)) && CanPick(Flushed2(z), 1)
    ensures Ordered(Merged1(z))
  {
    FirstMerge(z, maxFileSize);
    InstallKeepsOrder(Flushed2(z), Merged1(z), 1, [Middle(z)], [Oldest(z)], [Left(z), Right(z)]);
  }

  // ----- The run ----------------------------------------------------------------------------------------

  /** A merge of a plan that starts from the only table of level 1. */
  ghost predicate MergesLevel1(v: Version, w: Version, floor: nat, first: nat, maxFileSize: nat, z: Sizes) {
    && Ordered(v) && CanPick(v, 1) && |v[1]| == 1
    && var plan := Setup(v, 1, PickedFrom(v, 1, 0), maxFileSize);
       !IsTrivialMove(plan, maxFileSize) && MergedInto(v, w, 1, plan, floor, first, maxFileSize, z)
  }

  /** The plan merges these, and so the version becomes that. */
  lemma StepMerges(v: Version, w: Version, f: File, next: seq<File>, all: seq<Entry>, floor: nat, outputs: seq<File>,
                   first: nat, maxFileSize: nat, z: Sizes)
    requires Ordered(v) && v[1] == [f] && next != [] && CanPick(v, 1) && v[3] == []
    requires var plan := Setup(v, 1, [f], maxFileSize); plan.base == [f] && plan.next == next
    requires Merge(v, w, 1, [f], next, all, floor, outputs)
    requires AreOutputs(FreeWork(v, all, floor, maxFileSize, z), outputs, first)
    ensures MergesLevel1(v, w, floor, first, maxFileSize, z)
    ensures Setup(v, 1, PickedFrom(v, 1, 0), maxFileSize).next == next
  {
    var plan := Setup(v, 1, [f], maxFileSize);
    assert PickedFrom(v, 1, 0) == [f];
    assert plan.grandparents == [];
    assert WorkOf(v, 1, plan, all, floor, maxFileSize, z) == FreeWork(v, all, floor, maxFileSize, z);
  }

  /** A merge of level 1 that meets no grandparents. */
  function FreeWork(v: Version, all: seq<Entry>, floor: nat, maxFileSize: nat, z: Sizes): Work {
    Work(all, floor, v, 1, [], MaxGrandParentOverlapBytes(maxFileSize), maxFileSize, z)
  }

  lemma {:induction false} NothingPassed(w: Work, n: nat)
    requires w.grandparents == [] && n <= |w.all|
    ensures ScanAfter(w, n).bytes == 0
  {
    if n > 0 { NothingPassed(w, n - 1); }
  }

  lemma FreeStep(w: Work, n: nat, t: Tables)
    requires w.grandparents == [] && n < |w.all|
    ensures Step(w, n, t) == if Dropped(w.all, n, w.floor, w.version, w.level) then t else WithEntry(w, t, w.all[n])
  {
    NothingPassed(w, n);
    assert !StopsBefore(w, n);
  }

  lemma ThreeSteps(w: Work)
    requires w.grandparents == [] && |w.all| == 3
    ensures TablesAfter(w, 3) == Step(w, 2, Step(w, 1, Step(w, 0, Tables([], []))))
  {
    assert TablesAfter(w, 1) == Step(w, 0, TablesAfter(w, 0));
    assert TablesAfter(w, 2) == Step(w, 1, TablesAfter(w, 1));
  }

  ghost predicate DropsAt(w: Work, n: nat) {
    n < |w.all| && Dropped(w.all, n, w.floor, w.version, w.level)
  }

  /** The second entry fills the table. */
  lemma CutInTwo(w: Work, a: Entry, b: Entry, c: Entry)
    requires w.grandparents == [] && w.all == [a, b, c] && !DropsAt(w, 0) && !DropsAt(w, 1) && !DropsAt(w, 2)
    requires w.sizes.written([a]) < w.maxOutput <= w.sizes.written([a, b])
    ensures Close(TablesAfter(w, 3)) == Tables([[a, b], [c]], [])
  {
    ThreeSteps(w);
    FreeStep(w, 0, Tables([], []));
    assert [] + [a] == [a] && [a] + [b] == [a, b] && [] + [c] == [c];
    FreeStep(w, 1, Tables([], [a]));
    FreeStep(w, 2, Tables([[a, b]], []));
    assert [] + [[a, b]] == [[a, b]] && [[a, b]] + [[c]] == [[a, b], [c]];
  }

  lemma OnlyFirstLeft(w: Work, a: Entry)
    requires w.grandparents == [] && |w.all| == 3 && w.all[0] == a && !DropsAt(w, 0) && DropsAt(w, 1) && DropsAt(w, 2)
    ensures Close(TablesAfter(w, 3)) == Tables([[a]], [])
  {
    ThreeSteps(w);
    var t := WithEntry(w, Tables([], []), a);
    FreeStep(w, 0, Tables([], []));
    FreeStep(w, 1, t);
    FreeStep(w, 2, t);
    assert [] + [a] == [a] && [] + [[a]] == [[a]];
  }

  lemma FirstOutputsCut(z: Sizes, maxFileSize: nat)
    requires CutsThere(z, maxFileSize)
    ensures AreOutputs(FreeWork(Flushed2(z), FIRST_INPUT, 1, maxFileSize, z), [Left(z), Right(z)], 4)
  {
    var w := FreeWork(Flushed2(z), FIRST_INPUT, 1, maxFileSize, z);
    CutInTwo(w, OLDER, DELETED, BURIED);
    assert FilesOf([[OLDER, DELETED], [BURIED]], 4, z) == [Left(z), Right(z)];
  }

  lemma SecondOutputsCut(z: Sizes, maxFileSize: nat)
    ensures AreOutputs(FreeWork(Covering(z), SECOND_INPUT, 4, maxFileSize, z), [Last(z)], 7)
  {
    var w := FreeWork(Covering(z), SECOND_INPUT, 4, maxFileSize, z);
    assert IsBase(Covering(z), 1, 1);
    assert Obsolete(SECOND_INPUT, 2, 4, Covering(z), 1) && Hidden(SECOND_INPUT, 1, 4);
    OnlyFirstLeft(w, NEWER);
    assert FilesOf([[NEWER]], 7, z) == [Last(z)];
  }

  lemma FirstStepMerges(z: Sizes, maxFileSize: nat)
    requires Ordered(Flushed2(z)) && CutsThere(z, maxFileSize)
    ensures MergesLevel1(Flushed2(z), Merged1(z), 1, 4, maxFileSize, z) && Ordered(Merged1(z))
    ensures !Resurrects(Flushed2(z), 1, Setup(Flushed2(z), 1, PickedFrom(Flushed2(z), 1, 0), maxFileSize).next, 1)
  {
    LevelsListed(Flushed2(z), 1);
    FirstPlan(z, maxFileSize);
    FirstMerge(z, maxFileSize);
    CutIsOrdered(z, maxFileSize);
    FirstOutputsCut(z, maxFileSize);
    StepMerges(Flushed2(z), Merged1(z), Middle(z), [Oldest(z)], FIRST_INPUT, 1, [Left(z), Right(z)], 4, maxFileSize, z);
    NothingFollows(z);
  }

  /** Behind the inputs of the first merge there is no file. */
  lemma NothingFollows(z: Sizes)
    requires Ordered(Flushed2(z))
    ensures !Resurrects(Flushed2(z), 1, [Oldest(z)], 1)
  {
    assert Flushed2(z)[2] == [Oldest(z)];
  }

  lemma LastStepMerges(z: Sizes, maxFileSize: nat)
    requires Ordered(Covering(z))
    ensures MergesLevel1(Covering(z), Merged2(z), 4, 7, maxFileSize, z)
    ensures Resurrects(Covering(z), 1, Setup(Covering(z), 1, PickedFrom(Covering(z), 1, 0), maxFileSize).next, 4)
  {
    LevelsListed(Covering(z), 1);
    InputsOfVersion(z, maxFileSize);
    SecondMerge(z, maxFileSize);
    SecondOutputsCut(z, maxFileSize);
    StepMerges(Covering(z), Merged2(z), Top(z), [Left(z)], SECOND_INPUT, 4, [Last(z)], 7, maxFileSize, z);
    DeletionIsUncovered(z);
  }

  /** There are such sizes for every limit. */
  lemma SomeSizesCut(maxFileSize: nat) returns (z: Sizes)
    requires maxFileSize > 0
    ensures CutsThere(z, maxFileSize)
  {
    z := Sizes((es: seq<Entry>) => if |es| < 2 then 0 else maxFileSize, (es: seq<Entry>) => |es| * maxFileSize);
  }

  /** From the empty store: three flushes of what was written, and two merges, the first for a
      snapshot at the first write and harmless, the second for the present. It uncovers a
      value, so that key 1 can be read again although its last write is a deletion. */
  lemma RunUncovers(z: Sizes, maxFileSize: nat)
    requires CutsThere(z, maxFileSize)
    ensures EntriesOf(OPS[..1]) == {BURIED} && EntriesOf(OPS[..3]) == {BURIED, OLDER, DELETED}
    ensures EntriesOf(OPS) == {BURIED, OLDER, DELETED, NEWER}
    ensures Ordered(NOTHING) && Flushed(NOTHING, Flushed1(z), [BURIED], 2, maxFileSize, z)
    ensures Ordered(Flushed1(z)) && Flushed(Flushed1(z), Flushed2(z), [OLDER, DELETED], 3, maxFileSize, z)
    ensures MergesLevel1(Flushed2(z), Merged1(z), 1, 4, maxFileSize, z)
    ensures !Resurrects(Flushed2(z), 1, Setup(Flushed2(z), 1, PickedFrom(Flushed2(z), 1, 0), maxFileSize).next, 1)
    ensures Ordered(Merged1(z)) && Flushed(Merged1(z), Covering(z), [NEWER], 6, maxFileSize, z)
    ensures MergesLevel1(Covering(z), Merged2(z), 4, 7, maxFileSize, z)
    ensures Resurrects(Covering(z), 1, Setup(Covering(z), 1, PickedFrom(Covering(z), 1, 0), maxFileSize).next, 4)
    ensures Latest(OPS, 1) == None && Answers(Entries(Covering(z)), 1, 4, None)
            && Answers(Entries(Merged2(z)), 1, 4, Some([]))
  {
    Written();
    FirstFlush(z, maxFileSize);
    SecondFlush(z, maxFileSize);
    FirstStepMerges(z, maxFileSize);
    ThirdFlush(z, maxFileSize);
    VersionIsOrdered(z);
    LastStepMerges(z, maxFileSize);
    ReadsDiffer(z);
  }

  lemma ReadsDiffer(z: Sizes)
    ensures Latest(OPS, 1) == None && Answers(Entries(Covering(z)), 1, 4, None)
            && Answers(Entries(Merged2(z)), 1, 4, Some([]))
  {
    EntriesOfVersion(z);
    assert IsNewest(Entries(Covering(z)), 1, 4, DELETED);
    forall e ensures e in Entries(Merged2(z)) <==> e == NEWER || e == BURIED {
      EntriesAtLevel2(Merged2(z), [Last(z), Right(z)], e);
      assert Last(z) in [Last(z), Right(z)] && Right(z) in [Last(z), Right(z)] && NEWER in Last(z).entries
          && BURIED in Right(z).entries;
      assert forall f | f in [Last(z), Right(z)] :: f == Last(z) || f == Right(z);
    }
    assert IsNewest(Entries(Merged2(z)), 1, 4, BURIED);
    assert OPS[..3][..2] == OPS[..2];
    assert Latest(OPS[..3], 1) == None && OPS[..|OPS| - 1] == OPS[..3];
  }
}
