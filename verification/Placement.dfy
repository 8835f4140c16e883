/** Where a flushed memtable goes, and what a move of one table changes. */
module Placement {
  import opened Keys
  import opened Files
  import opened Versions
  import opened Inputs
  import opened Picking
  import opened Install

  const MAX_MEM_COMPACT_LEVEL: nat := 2

  ghost predicate OverlapInLevel(v: Version, l: nat, r: Range)
    requires l < NUM_LEVELS
  {
    exists f :: f in v[l] && r.Meets(f)
  }

  /** How many bytes of the level two further down the file would overlap. */
  ghost function GrandParentBytes(v: Version, l: nat, r: Range): nat
    requires Ordered(v) && l + 2 < NUM_LEVELS
  {
    LevelIsSorted(v, l + 2);
    TotalFileSize(OverlappingInputs(l + 2, v[l + 2], r))
  }

  /** As deep as level 2, as long as nothing on the way overlaps and the grandparents stay
      small, and no less deep than that. */
  ghost predicate IsOutputLevel(v: Version, r: Range, maxFileSize: nat, level: nat)
    requires Ordered(v)
  {
    && level <= MAX_MEM_COMPACT_LEVEL
    && (0 < level ==> forall l | 0 <= l <= level :: !OverlapInLevel(v, l, r))
    && (forall l: nat | l < level && l + 2 < NUM_LEVELS ::
        GrandParentBytes(v, l, r) <= MaxGrandParentOverlapBytes(maxFileSize))
    && (level < MAX_MEM_COMPACT_LEVEL ==>
          || OverlapInLevel(v, 0, r)
          || OverlapInLevel(v, level + 1, r)
          || GrandParentBytes(v, level, r) > MaxGrandParentOverlapBytes(maxFileSize))
  }

  method PickLevelForMemTableOutput(v: Version, lo: UserKey, hi: UserKey, maxFileSize: nat) returns (level: nat)
    requires Ordered(v) && lo <= hi
    ensures IsOutputLevel(v, Between(lo, hi), maxFileSize, level)
  {
    level := 0;
    var r := Between(lo, hi);
    var overlap := SomeFileOverlapsRange(false, v[0], r);
    if !overlap {
      while level < MAX_MEM_COMPACT_LEVEL
        invariant level <= MAX_MEM_COMPACT_LEVEL
        invariant forall l | 0 <= l <= level :: !OverlapInLevel(v, l, r)
        invariant forall l: nat | l < level && l + 2 < NUM_LEVELS ::
          GrandParentBytes(v, l, r) <= MaxGrandParentOverlapBytes(maxFileSize)
      {
        LevelIsSorted(v, level + 1);
        LevelIsSorted(v, level + 2);
        overlap := SomeFileOverlapsRange(true, v[level + 1], r);
        if overlap {
          break;
        }
        var overlaps := GetOverlappingInputs(level + 2, v[level + 2], r);
        if TotalFileSize(overlaps) > MaxGrandParentOverlapBytes(maxFileSize) {
          break;
        }
        level := level + 1;
      }
    }
  }

  // ----- Adding a file -----------------------------------------------------------------------------

  /** `w` is `v` with the file added at the level. */
  ghost predicate Added(v: Version, w: Version, level: nat, f: File)
    requires level < NUM_LEVELS
  {
    && (forall l | 0 <= l < NUM_LEVELS && l != level :: w[l] == v[l])
    && FilesSorted(w[level])
    && (forall g :: g in w[level] <==> g in v[level] || g == f)
  }

  ghost predicate FreshNumber(v: Version, n: nat) {
    forall l, g | 0 <= l < NUM_LEVELS && g in v[l] :: g.number < n
  }

  /** The file is newer than everything in the version, and above its level nothing shares
      a key with it. */
  ghost predicate FitsAt(v: Version, level: nat, f: File)
    requires level < NUM_LEVELS
  {
    && f.Valid() && FreshNumber(v, f.number)
    && (forall l, g | 0 <= l < NUM_LEVELS && g in v[l] :: NewerThan(f, g))
    && (level > 0 ==> forall l | 0 <= l <= level :: !OverlapInLevel(v, l, Between(f.smallest.user, f.largest.user)))
    && UniqueSeqs(Entries(v) + Elements(f.entries))
  }

  lemma NoOverlapNewer(v: Version, l: nat, g: File, f: File)
    requires Ordered(v) && l < NUM_LEVELS && g in v[l] && f.Valid()
    requires !OverlapInLevel(v, l, Between(f.smallest.user, f.largest.user))
    ensures NewerThan(g, f) && (g.largest.user < f.smallest.user || f.largest.user < g.smallest.user)
  {
    FilesAreValid(v, l, g);
    assert !Between(f.smallest.user, f.largest.user).Meets(g);
    NoShared(g, f);
  }

  lemma AddedLevelSorted(v: Version, w: Version, level: nat, f: File)
    requires 0 < level < NUM_LEVELS && Ordered(v) && Added(v, w, level, f) && FitsAt(v, level, f)
    ensures LevelSorted(w[level])
  {
    LevelIsSorted(v, level);
    SortedIsApart(v[level]);
    forall g | g in v[level] ensures Apart(g, f) && Apart(f, g) {
      NoOverlapNewer(v, level, g, f);
    }
    ApartIsSorted(w[level]);
  }

  lemma AddedLevel0(v: Version, w: Version, f: File)
    requires Ordered(v) && Added(v, w, 0, f) && FitsAt(v, 0, f)
    ensures Level0Ordered(w[0])
  {
    assert NumbersApart(v, 0, 0);
    NumbersDistinct(w[0]);
  }

  lemma AddedNewer(v: Version, w: Version, level: nat, f: File, l: nat, m: nat)
    requires level < NUM_LEVELS && Ordered(v) && Added(v, w, level, f) && FitsAt(v, level, f) && l < m < NUM_LEVELS
    ensures NewerAbove(w, l, m)
  {
    forall g, h | g in w[l] && h in w[m] ensures NewerThan(g, h) {
      if m == level && h == f {
        NoOverlapNewer(v, l, g, f);
      } else if l == level && g == f {
      } else {
        UpperIsNewer(v, l, m, g, h);
      }
    }
  }

  lemma AddedNumbers(v: Version, w: Version, level: nat, f: File, l: nat, m: nat)
    requires level < NUM_LEVELS && Ordered(v) && Added(v, w, level, f) && FreshNumber(v, f.number)
    requires l < NUM_LEVELS && m < NUM_LEVELS
    ensures NumbersApart(w, l, m)
  {
    assert NumbersApart(v, l, m);
  }

  lemma AddedEntries(v: Version, w: Version, level: nat, f: File)
    requires level < NUM_LEVELS && Added(v, w, level, f)
    ensures Entries(w) == Entries(v) + Elements(f.entries)
  {
    forall e ensures e in Entries(w) <==> e in Entries(v) + Elements(f.entries) {
      if e in Entries(v) {
        var l, g :| 0 <= l < NUM_LEVELS && g in v[l] && e in g.entries;
        assert g in w[l];
      }
      if e in f.entries { assert f in w[level]; }
      if e in Entries(w) {
        var l, g :| 0 <= l < NUM_LEVELS && g in w[l] && e in g.entries;
        assert g in v[l] || g == f;
      }
    }
  }

  /** A flushed memtable placed where it fits keeps the version in order. */
  lemma AddKeepsOrder(v: Version, w: Version, level: nat, f: File)
    requires level < NUM_LEVELS && Ordered(v) && Added(v, w, level, f) && FitsAt(v, level, f)
    ensures Ordered(w) && Entries(w) == Entries(v) + Elements(f.entries)
  {
    AddedEntries(v, w, level, f);
    forall l | 1 <= l < NUM_LEVELS ensures SortedAt(w, l) {
      if l == level { AddedLevelSorted(v, w, level, f); } else { LevelIsSorted(v, l); }
    }
    forall l, m | 0 <= l < m < NUM_LEVELS ensures NewerAbove(w, l, m) { AddedNewer(v, w, level, f, l, m); }
    forall l, m | 0 <= l < NUM_LEVELS && 0 <= m < NUM_LEVELS
        ensures NumbersApart(w, l, m) { AddedNumbers(v, w, level, f, l, m); }
    if level == 0 { AddedLevel0(v, w, f); }
  }

  // ----- Moving a file one level down -----------------------------------------------------------

  /** A trivial move is a compaction whose only input is its only output; no entry is lost. */
  lemma MoveKeepsOrder(v: Version, w: Version, level: nat, f: File)
    requires level + 1 < NUM_LEVELS && Ordered(v) && ClosedBase(v[level], [f]) && Meeting(v[level + 1], Hull([f])) == []
    requires Installed(v, w, level, [f], [], [f])
    ensures Ordered(w) && Entries(w) == Entries(v)
  {
    assert f in [f];
    FilesAreValid(v, level, f);
    forall l, g | 0 <= l < NUM_LEVELS && g in v[l] && g.number == f.number ensures l == level && g == f {
      assert NumbersApart(v, l, level);
    }
    forall e | e in f.entries ensures InFiles([f], e) {}
    InstallKeepsOrder(v, w, level, [f], [], [f]);
    forall e | e in Entries(v) ensures e in Entries(w) {
      var l, g :| 0 <= l < NUM_LEVELS && g in v[l] && e in g.entries;
      assert g in w[l] || (g == f && f in w[level + 1]);
    }
  }
}
