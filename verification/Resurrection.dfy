/** A version in order whose ordinary compaction brings a deleted key back. */
module Resurrection {
  import opened Keys
  import opened Files
  import opened Versions
  import opened Inputs
  import opened Picking
  import opened Compact
  import opened CompactionWork
  import opened Preserve

  // Level 1 holds a value of key 0. Level 2 holds an older value of key 0 and a deletion of
  // key 1 in one table, and the deleted value of key 1 in the next: an earlier merge cut its
  // output between the two entries of key 1 while a snapshot still needed both.

  const NEWER := Entry(Key(0, 4, Value), [])
  const OLDER := Entry(Key(0, 2, Value), [])
  const DELETED := Entry(Key(1, 3, Deletion), [])
  const BURIED := Entry(Key(1, 1, Value), [])

  // The tables may have any sizes.

  function Top(z: Sizes): File { Built(6, z.finished([NEWER]), [NEWER]) }

  function Left(z: Sizes): File { Built(4, z.finished([OLDER, DELETED]), [OLDER, DELETED]) }

  function Right(z: Sizes): File { Built(5, z.finished([BURIED]), [BURIED]) }

  function Covering(z: Sizes): Version { [[], [Top(z)], [Left(z), Right(z)], [], [], [], []] }

  lemma OneEntryValid(number: nat, size: nat, e: Entry)
    requires e.key.seqno <= MAX_SEQUENCE
    ensures Built(number, size, [e]).Valid()
  {
  }

  lemma FilesOfVersion(z: Sizes, l: nat, f: File, e: Entry)
    requires l < NUM_LEVELS && f in Covering(z)[l] && e in f.entries
    ensures (l == 1 && f == Top(z) && e == NEWER) || (l == 2 && f == Left(z) && (e == OLDER || e == DELETED))
            || (l == 2 && f == Right(z) && e == BURIED)
  {
  }

  lemma TablesAreValid(z: Sizes)
    ensures Top(z).Valid() && Left(z).Valid() && Right(z).Valid()
  {
    OneEntryValid(6, z.finished([NEWER]), NEWER);
    OneEntryValid(5, z.finished([BURIED]), BURIED);
    assert InOrder([OLDER, DELETED], 0, 1);
    assert Sorted(Left(z).entries);
  }

  lemma VersionIsOrdered(z: Sizes)
    ensures Ordered(Covering(z))
  {
    TablesAreValid(z);
    forall l | 1 <= l < NUM_LEVELS ensures SortedAt(Covering(z), l) {
      if l == 2 {
        assert Before(Covering(z)[2], 0, 1);
      }
    }
    forall l, m | 0 <= l < m < NUM_LEVELS ensures NewerAbove(Covering(z), l, m) {
      forall f, g | f in Covering(z)[l] && g in Covering(z)[m] ensures NewerThan(f, g) {
        forall a, b | a in f.entries && b in g.entries && a.key.user == b.key.user ensures a.key.seqno > b.key.seqno {
          FilesOfVersion(z, l, f, a);
          FilesOfVersion(z, m, g, b);
        }
      }
    }
    EntriesOfVersion(z);
    forall l, m | 0 <= l < NUM_LEVELS && 0 <= m < NUM_LEVELS ensures NumbersApart(Covering(z), l, m) {
    }
    assert Covering(z)[0] == [];
  }

  lemma EntriesOfVersion(z: Sizes)
    ensures Entries(Covering(z)) == {NEWER, OLDER, DELETED, BURIED}
  {
    forall e | e in Entries(Covering(z)) ensures e in {NEWER, OLDER, DELETED, BURIED} {
      var l, f :| 0 <= l < NUM_LEVELS && f in Covering(z)[l] && e in f.entries;
      FilesOfVersion(z, l, f, e);
    }
    assert Top(z) in Covering(z)[1] && Left(z) in Covering(z)[2] && Right(z) in Covering(z)[2];
    assert NEWER in Top(z).entries && OLDER in Left(z).entries && DELETED in Left(z).entries
        && BURIED in Right(z).entries;
  }

  lemma InputsOfVersion(z: Sizes, maxFileSize: nat)
    requires CanPick(Covering(z), 1)
    ensures Setup(Covering(z), 1, [Top(z)], maxFileSize).base == [Top(z)]
            && Setup(Covering(z), 1, [Top(z)], maxFileSize).next == [Left(z)]
  {
    assert Covering(z)[1] == [Top(z)] && Covering(z)[2] == [Left(z), Right(z)];
    assert [Top(z)][..0] == [] && [Left(z), Right(z)][..1] == [Left(z)] && [Left(z)][..0] == [];
    assert BoundaryFile([Top(z)], Top(z).largest) == None by { assert BoundaryFile([], Top(z).largest) == None; }
    assert WithBoundary([Top(z)], [Top(z)], Top(z).largest) == [Top(z)];
    assert AddBoundary([Top(z)], [Top(z)]) == [Top(z)];
    var r := Hull([Top(z)]);
    assert Meeting([Left(z)], r) == Meeting([], r) + [Left(z)];
    assert Meeting([Left(z), Right(z)], r) == Meeting([Left(z)], r) + [];
    assert NextInputs(Covering(z), 1, [Top(z)]) == [Left(z)];
    var wide := Hull([Top(z)] + [Left(z)]);
    assert Meeting([Top(z)], wide) == Meeting([], wide) + (if wide.Meets(Top(z)) then [Top(z)] else []);
    assert |AddBoundary([Top(z)], Meeting([Top(z)], wide))| <= 1;
  }

  lemma DeletionIsUncovered(z: Sizes)
    ensures Resurrects(Covering(z), 1, [Left(z)], 4)
  {
    EntriesOfVersion(z);
    assert Covering(z)[2] == [Left(z), Right(z)];
    assert Left(z) in [Left(z)] && DELETED in Left(z).entries && Right(z) !in [Left(z)];
    assert IsNewest(Entries(Covering(z)), 1, 4, DELETED);
    assert IsBase(Covering(z), 1, 1);
    assert Uncovered(Covering(z), 1, [Left(z)], 4, DELETED, 1);
  }

  /** Compacting the only file of level 1, with any file size limit, uncovers the deleted
      value: whatever merge of the inputs is installed, some read changes. */
  lemma OrdinaryCompactionResurrects(z: Sizes, maxFileSize: nat, w: Version, all: seq<Entry>, outputs: seq<File>)
    ensures Ordered(Covering(z)) && CanPick(Covering(z), 1) && Pickable(Covering(z), 1, [Top(z)])
    ensures var plan := Setup(Covering(z), 1, [Top(z)], maxFileSize);
            && ClosedPlan(Covering(z), 1, plan)
            && Resurrects(Covering(z), 1, plan.next, 4)
            && (Merge(Covering(z), w, 1, plan.base, plan.next, all, 4, outputs) ==>
                !SameReads(Entries(Covering(z)), Entries(w), 4))
  {
    TablesAreValid(z);
    VersionIsOrdered(z);
    assert [Top(z)] == Covering(z)[1][0..1];
    SetupIsClosed(Covering(z), 1, [Top(z)], maxFileSize);
    InputsOfVersion(z, maxFileSize);
    DeletionIsUncovered(z);
    var plan := Setup(Covering(z), 1, [Top(z)], maxFileSize);
    if Merge(Covering(z), w, 1, plan.base, plan.next, all, 4, outputs) {
      CompactionPreservesReadsIff(Covering(z), w, 1, plan.base, plan.next, all, 4, outputs);
    }
  }
}
