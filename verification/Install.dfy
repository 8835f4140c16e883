/** Replacing the inputs of a compaction by its outputs: the version that results is in
    order again. */
module Install {
  import opened Keys
  import opened Files
  import opened Versions
  import opened Inputs
  import opened Picking

  /** `w` is `v` with `base` taken from the level, `next` from the one below, and `outputs`
      put there. */
  ghost predicate Installed(v: Version, w: Version, level: nat, base: seq<File>, next: seq<File>, outputs: seq<File>)
    requires level + 1 < NUM_LEVELS
  {
    && (forall l | 0 <= l < NUM_LEVELS :: FilesSorted(w[l]))
    && (forall l | 0 <= l < NUM_LEVELS && l != level && l != level + 1 :: w[l] == v[l])
    && (forall f :: f in w[level] <==> f in v[level] && f !in base)
    && (forall f :: f in w[level + 1] <==> (f in v[level + 1] && f !in next) || f in outputs)
  }

  ghost predicate Apart(f: File, g: File) {
    Less(f.largest, g.smallest) || Less(g.largest, f.smallest)
  }

  ghost predicate AllApart(files: seq<File>) {
    forall f, g | f in files && g in files && f != g :: Apart(f, g)
  }

  lemma SortedIsApart(files: seq<File>)
    requires LevelSorted(files)
    ensures AllApart(files)
  {
    forall f, g | f in files && g in files && f != g ensures Apart(f, g) {
      var i :| 0 <= i < |files| && files[i] == f;
      var j :| 0 <= j < |files| && files[j] == g;
      LevelOrder(files, i, j);
      LevelOrder(files, j, i);
    }
  }

  /** Files that never overlap are in level order as soon as they are listed by smallest key. */
  lemma ApartIsSorted(files: seq<File>)
    requires ValidFiles(files) && FilesSorted(files) && AllApart(files)
    ensures LevelSorted(files)
  {
    forall i, j | 0 <= i < j < |files| ensures Before(files, i, j) {
      assert FileInOrder(files, i, j);
      assert files[i] in files && files[j] in files;
      BoundsInOrder(files[i]);
      BoundsInOrder(files[j]);
      assert Apart(files[i], files[j]);
    }
  }

  lemma LevelListed(files: seq<File>)
    requires LevelSorted(files)
    ensures FilesSorted(files)
  {
    forall i, j | 0 <= i < j < |files| ensures FileInOrder(files, i, j) { LevelOrder(files, i, j); }
  }

  /** What the outputs of a compaction are. */
  ghost predicate GoodOutputs(v: Version, level: nat, base: seq<File>, next: seq<File>, outputs: seq<File>)
    requires level + 1 < NUM_LEVELS
  {
    && ValidFiles(outputs)
    && AllApart(outputs)
    && (forall o, e | o in outputs && e in o.entries :: InFiles(base, e) || InFiles(next, e))
    && (forall o, p | o in outputs && p in outputs && o.number == p.number :: o == p)
    && (forall o, l, g | o in outputs && 0 <= l < NUM_LEVELS && g in v[l] && g.number == o.number ::
          (l == level && g in base) || (l == level + 1 && g in next))
  }

  // ----- The level that receives the outputs -----------------------------------------------------

  /** `g` lies on one side of every input entry. */
  ghost predicate OneSide(g: File, base: seq<File>, next: seq<File>) {
    || (forall e | InFiles(base, e) || InFiles(next, e) :: Less(g.largest, e.key))
    || (forall e | InFiles(base, e) || InFiles(next, e) :: Less(e.key, g.smallest))
  }

  lemma InputInHull(base: seq<File>, e: Entry)
    requires ValidFiles(base) && base != [] && InFiles(base, e)
    ensures Hull(base).Has(e.key.user)
  {
    var f :| f in base && e in f.entries;
    HullCovers(base, f);
    EntryInBounds(f, e);
  }

  lemma EntryOfRun(files: seq<File>, i: nat, j: nat, b: nat, e: Entry)
    requires LevelSorted(files) && i <= j <= |files| && b < |files| && InFiles(files[i..j], e)
    ensures b < i ==> Less(files[b].largest, e.key)
    ensures j <= b ==> Less(e.key, files[b].smallest)
  {
    var f :| f in files[i..j] && e in f.entries;
    var a :| 0 <= a < |files| && files[a] == f;
    InRun(files, i, j, a);
    LevelOrder(files, a, b);
    LevelOrder(files, b, a);
    EntryInBounds(f, e);
  }

  /** A file of the next level that is no input lies on one side of all inputs. */
  lemma NonInputOnOneSide(files: seq<File>, base: seq<File>, g: File)
    requires LevelSorted(files) && ValidFiles(base) && base != []
    requires g in files && g !in Meeting(files, Hull(base))
    ensures OneSide(g, base, Meeting(files, Hull(base)))
  {
    var h := Hull(base);
    var next := Meeting(files, h);
    InMeeting(files, h, g);
    BoundsInOrder(g);
    var i, j := MeetingIsRun(files, h);
    var b :| 0 <= b < |files| && files[b] == g;
    InRun(files, i, j, b);
    forall e | InFiles(base, e) ensures h.Has(e.key.user) { InputInHull(base, e); }
    forall e | InFiles(next, e)
      ensures b < i ==> Less(g.largest, e.key)
      ensures j <= b ==> Less(e.key, g.smallest)
    {
      EntryOfRun(files, i, j, b, e);
    }
    if i < j {
      InRun(files, i, j, i);
      InRun(files, i, j, j - 1);
      InMeeting(files, h, files[i]);
      InMeeting(files, h, files[j - 1]);
      LevelOrder(files, b, i);
      LevelOrder(files, j - 1, b);
    }
  }

  lemma OutputApart(g: File, base: seq<File>, next: seq<File>, o: File)
    requires OneSide(g, base, next) && o.Valid()
    requires forall e | e in o.entries :: InFiles(base, e) || InFiles(next, e)
    ensures Apart(g, o) && Apart(o, g)
  {
    assert o.entries[0] in o.entries && o.entries[|o.entries| - 1] in o.entries;
  }

  lemma NextLevelSorted(v: Version, w: Version, level: nat, base: seq<File>, next: seq<File>, outputs: seq<File>)
    requires level + 1 < NUM_LEVELS && Ordered(v) && Installed(v, w, level, base, next, outputs)
    requires ClosedBase(v[level], base) && next == Meeting(v[level + 1], Hull(base))
    requires GoodOutputs(v, level, base, next, outputs)
    ensures LevelSorted(w[level + 1])
  {
    var files := v[level + 1];
    LevelIsSorted(v, level + 1);
    SortedIsApart(files);
    forall f | f in base ensures f.Valid() { FilesAreValid(v, level, f); }
    forall f, g | f in w[level + 1] && g in w[level + 1] && f != g ensures Apart(f, g) {
      if f in outputs && g !in outputs {
        NonInputOnOneSide(files, base, g);
        OutputApart(g, base, next, f);
      } else if f !in outputs && g in outputs {
        NonInputOnOneSide(files, base, f);
        OutputApart(f, base, next, g);
      }
    }
    ApartIsSorted(w[level + 1]);
  }

  lemma LevelWithout(files: seq<File>, rest: seq<File>)
    requires LevelSorted(files) && FilesSorted(rest) && forall f | f in rest :: f in files
    ensures LevelSorted(rest)
  {
    SortedIsApart(files);
    ApartIsSorted(rest);
  }

  lemma NumbersDistinct(files: seq<File>)
    requires FilesSorted(files) && forall f, g | f in files && g in files && f.number == g.number :: f == g
    ensures DistinctFiles(files)
  {
    forall i, j | 0 <= i < j < |files| ensures Differ(files, i, j) {
      assert FileInOrder(files, i, j) && files[i] in files && files[j] in files;
    }
  }

  // ----- Newer above older ----------------------------------------------------------------------

  lemma NewerThanOutput(f: File, base: seq<File>, next: seq<File>, o: File)
    requires forall h | h in base || h in next :: NewerThan(f, h)
    requires forall e | e in o.entries :: InFiles(base, e) || InFiles(next, e)
    ensures NewerThan(f, o)
  {
    forall a, b | a in f.entries && b in o.entries && a.key.user == b.key.user ensures a.key.seqno > b.key.seqno {
      var h :| (h in base || h in next) && b in h.entries;
      assert NewerThan(f, h);
    }
  }

  lemma OutputNewerThan(g: File, base: seq<File>, next: seq<File>, o: File)
    requires forall h | h in base || h in next :: NewerThan(h, g)
    requires forall e | e in o.entries :: InFiles(base, e) || InFiles(next, e)
    ensures NewerThan(o, g)
  {
    forall a, b | a in o.entries && b in g.entries && a.key.user == b.key.user ensures a.key.seqno > b.key.seqno {
      var h :| (h in base || h in next) && a in h.entries;
      assert NewerThan(h, g);
    }
  }

  lemma StillNewer(v: Version, w: Version, level: nat, base: seq<File>, next: seq<File>, outputs: seq<File>, l: nat,
                   m: nat)
    requires level + 1 < NUM_LEVELS && Ordered(v) && Installed(v, w, level, base, next, outputs)
    requires ClosedBase(v[level], base) && next == Meeting(v[level + 1], Hull(base))
    requires GoodOutputs(v, level, base, next, outputs)
    requires l < m < NUM_LEVELS
    ensures NewerAbove(w, l, m)
  {
    forall h | h in next ensures h in v[level + 1] { InMeeting(v[level + 1], Hull(base), h); }
    forall f, g | f in w[l] && g in w[m] ensures NewerThan(f, g) {
      if m == level + 1 && g in outputs {
        assert f in v[l];
        forall h | h in base || h in next ensures NewerThan(f, h) {
          if h in next { UpperIsNewer(v, l, level + 1, f, h); } else if l < level { UpperIsNewer(v, l, level, f, h); }
        }
        NewerThanOutput(f, base, next, g);
      } else if l == level + 1 && f in outputs {
        forall h | h in base || h in next ensures NewerThan(h, g) {
          if h in next { UpperIsNewer(v, level + 1, m, h, g); } else { UpperIsNewer(v, level, m, h, g); }
        }
        OutputNewerThan(g, base, next, f);
      } else {
        UpperIsNewer(v, l, m, f, g);
      }
    }
  }

  // ----- The invariant -----------------------------------------------------------------------------

  lemma EntriesShrink(v: Version, w: Version, level: nat, base: seq<File>, next: seq<File>, outputs: seq<File>)
    requires level + 1 < NUM_LEVELS && Installed(v, w, level, base, next, outputs)
    requires (forall f | f in base :: f in v[level]) && (forall f | f in next :: f in v[level + 1])
    requires GoodOutputs(v, level, base, next, outputs)
    ensures Entries(w) <= Entries(v)
  {
    forall e | e in Entries(w) ensures e in Entries(v) {
      var l, f :| 0 <= l < NUM_LEVELS && f in w[l] && e in f.entries;
      if l == level + 1 && f in outputs {
        if InFiles(base, e) {
          var h :| h in base && e in h.entries;
          assert h in v[level];
        } else {
          var h :| h in next && e in h.entries;
          assert h in v[level + 1];
        }
      } else {
        assert f in v[l];
      }
    }
  }

  lemma StillDistinct(v: Version, w: Version, level: nat, base: seq<File>, next: seq<File>, outputs: seq<File>)
    requires level + 1 < NUM_LEVELS && DistinctNumbers(v) && Installed(v, w, level, base, next, outputs)
    requires GoodOutputs(v, level, base, next, outputs)
    ensures DistinctNumbers(w)
  {
    forall l, m | 0 <= l < NUM_LEVELS && 0 <= m < NUM_LEVELS ensures NumbersApart(w, l, m) {
      NumbersStillApart(v, w, level, base, next, outputs, l, m);
    }
  }

  lemma NumbersStillApart(v: Version, w: Version, level: nat, base: seq<File>, next: seq<File>, outputs: seq<File>,
                          l: nat, m: nat)
    requires level + 1 < NUM_LEVELS && DistinctNumbers(v) && Installed(v, w, level, base, next, outputs)
    requires GoodOutputs(v, level, base, next, outputs)
    requires l < NUM_LEVELS && m < NUM_LEVELS
    ensures NumbersApart(w, l, m)
  {
    assert NumbersApart(v, l, m);
    forall f, g | f in w[l] && g in w[m] && f.number == g.number ensures l == m && f == g {
      var fOut := l == level + 1 && f in outputs;
      var gOut := m == level + 1 && g in outputs;
      assert !fOut ==> f in v[l];
      assert !gOut ==> g in v[m];
    }
  }

  lemma LevelsStillSorted(v: Version, w: Version, level: nat, base: seq<File>, next: seq<File>, outputs: seq<File>,
                          l: nat)
    requires level + 1 < NUM_LEVELS && Ordered(v) && Installed(v, w, level, base, next, outputs)
    requires ClosedBase(v[level], base) && next == Meeting(v[level + 1], Hull(base))
    requires GoodOutputs(v, level, base, next, outputs)
    requires 1 <= l < NUM_LEVELS
    ensures LevelSorted(w[l])
  {
    LevelIsSorted(v, l);
    if l == level {
      LevelWithout(v[l], w[l]);
    } else if l == level + 1 {
      NextLevelSorted(v, w, level, base, next, outputs);
    }
  }

  lemma Level0StillOrdered(v: Version, w: Version, level: nat, base: seq<File>, next: seq<File>, outputs: seq<File>)
    requires level + 1 < NUM_LEVELS && Level0Ordered(v[0]) && Installed(v, w, level, base, next, outputs)
    requires DistinctNumbers(w)
    ensures Level0Ordered(w[0])
  {
    if level == 0 {
      forall f, g | f in w[0] && g in w[0] && f.number == g.number ensures f == g {
        assert NumbersApart(w, 0, 0);
      }
      NumbersDistinct(w[0]);
    }
  }

  lemma Assemble(v: Version, w: Version)
    requires Level0Ordered(w[0])
    requires forall l | 1 <= l < NUM_LEVELS :: SortedAt(w, l)
    requires forall l, m | 0 <= l < m < NUM_LEVELS :: NewerAbove(w, l, m)
    requires DistinctNumbers(w) && UniqueSeqs(Entries(v)) && Entries(w) <= Entries(v)
    ensures Ordered(w)
  {
  }

  /** Closed inputs replaced by good outputs leave every invariant of the version in place. */
  lemma InstallKeepsOrder(v: Version, w: Version, level: nat, base: seq<File>, next: seq<File>, outputs: seq<File>)
    requires level + 1 < NUM_LEVELS && Ordered(v) && Installed(v, w, level, base, next, outputs)
    requires ClosedBase(v[level], base) && next == Meeting(v[level + 1], Hull(base))
    requires GoodOutputs(v, level, base, next, outputs)
    ensures Ordered(w) && Entries(w) <= Entries(v)
  {
    assert Entries(w) <= Entries(v) by {
      forall h | h in next ensures h in v[level + 1] { InMeeting(v[level + 1], Hull(base), h); }
      EntriesShrink(v, w, level, base, next, outputs);
    }
    StillDistinct(v, w, level, base, next, outputs);
    forall l, m | 0 <= l < m < NUM_LEVELS ensures NewerAbove(w, l, m) {
      StillNewer(v, w, level, base, next, outputs, l, m);
    }
    forall l | 1 <= l < NUM_LEVELS ensures SortedAt(w, l) {
      LevelsStillSorted(v, w, level, base, next, outputs, l);
    }
    Level0StillOrdered(v, w, level, base, next, outputs);
    Assemble(v, w);
  }
}
