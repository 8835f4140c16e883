/** Choosing the inputs of a compaction, and what the choice guarantees. */
module Picking {
  import opened Keys
  import opened Files
  import opened Versions
  import opened Inputs

  /** The files of the compacted level, those of the level below, and the files two levels
      down that the outputs will overlap. */
  datatype Plan = Plan(base: seq<File>, next: seq<File>, grandparents: seq<File>)

  function ExpandedCompactionByteSizeLimit(maxFileSize: nat): nat { 25 * maxFileSize }

  function MaxGrandParentOverlapBytes(maxFileSize: nat): nat { 10 * maxFileSize }

  /** One file, nothing to merge it with, and not too many bytes two levels down. */
  predicate IsTrivialMove(c: Plan, maxFileSize: nat) {
    |c.base| == 1 && |c.next| == 0 && TotalFileSize(c.grandparents) <= MaxGrandParentOverlapBytes(maxFileSize)
  }

  ghost predicate CanPick(v: Version, level: nat) {
    level + 1 < NUM_LEVELS && ValidFiles(v[level]) && ValidFiles(v[level + 1])
    && (level + 2 < NUM_LEVELS ==> ValidFiles(v[level + 2]))
  }

  ghost function NextInputs(v: Version, level: nat, base: seq<File>): seq<File>
    requires CanPick(v, level) && base != []
  {
    OverlappingInputs(level + 1, v[level + 1], Hull(base))
  }

  ghost function ExpandedBase(v: Version, level: nat, base: seq<File>, next: seq<File>): seq<File>
    requires CanPick(v, level) && base != []
  {
    AddBoundary(v[level], OverlappingInputs(level, v[level], Hull(base + next)))
  }

  /** Taking more files of the level is worth it if it stays small and drags in nothing new
      from the level below. */
  ghost predicate WorthExpanding(v: Version, level: nat, base: seq<File>, next: seq<File>, maxFileSize: nat)
    requires CanPick(v, level) && base != []
  {
    var expanded := ExpandedBase(v, level, base, next);
    && next != []
    && |expanded| > |base|
    && TotalFileSize(next) + TotalFileSize(expanded) < ExpandedCompactionByteSizeLimit(maxFileSize)
    && |NextInputs(v, level, expanded)| == |next|
  }

  ghost function ChosenBase(v: Version, level: nat, base: seq<File>, maxFileSize: nat): (out: seq<File>)
    requires CanPick(v, level) && base != []
    ensures out != []
  {
    var next := NextInputs(v, level, base);
    if WorthExpanding(v, level, base, next, maxFileSize) then ExpandedBase(v, level, base, next) else base
  }

  ghost function Setup(v: Version, level: nat, picked: seq<File>, maxFileSize: nat): Plan
    requires CanPick(v, level) && picked != []
  {
    BoundaryKeeps(v[level], picked);
    var base := ChosenBase(v, level, AddBoundary(v[level], picked), maxFileSize);
    var next := NextInputs(v, level, base);
    Plan(base, next, if level + 2 < NUM_LEVELS then OverlappingInputs(level + 2, v[level + 2], Hull(base + next))
        else [])
  }

  lemma BoundaryKeeps(level: seq<File>, inputs: seq<File>)
    requires ValidFiles(level)
    ensures inputs <= AddBoundary(level, inputs)
  {
    if inputs != [] {
      NoBoundaryLeft(level, inputs, LargestOf(inputs));
    }
  }

  method SetupOtherInputs(v: Version, level: nat, picked: seq<File>, maxFileSize: nat) returns (c: Plan)
    requires CanPick(v, level) && picked != []
    ensures c == Setup(v, level, picked, maxFileSize)
    ensures Ordered(v) && Pickable(v, level, picked) ==> GrownForFree(v, level, picked, maxFileSize, c)
  {
    if Ordered(v) && Pickable(v, level, picked) { SetupGrowsExactly(v, level, picked, maxFileSize); }
    BoundaryKeeps(v[level], picked);
    var base := AddBoundaryInputs(v[level], picked);
    var smallest, largest := GetRange(base);
    var next := GetOverlappingInputs(level + 1, v[level + 1], Between(smallest.user, largest.user));
    if next != [] {
      base, next := GrowInputs(v, level, base, next, maxFileSize);
    }
    var grandparents := [];
    if level + 2 < NUM_LEVELS {
      var allStart, allLimit := GetRange(base + next);
      grandparents := GetOverlappingInputs(level + 2, v[level + 2], Between(allStart.user, allLimit.user));
    }
    c := Plan(base, next, grandparents);
  }

  /** Tries to take more files of the level without taking more of the level below. */
  method GrowInputs(v: Version, level: nat, base: seq<File>, next: seq<File>, maxFileSize: nat)
    returns (base': seq<File>, next': seq<File>)
    requires CanPick(v, level) && base != [] && next != [] && next == NextInputs(v, level, base)
    ensures base' == ChosenBase(v, level, base, maxFileSize) && next' == NextInputs(v, level, base')
  {
    base', next' := base, next;
    var allStart, allLimit := GetRange(base + next);
    var expanded0 := GetOverlappingInputs(level, v[level], Between(allStart.user, allLimit.user));
    expanded0 := AddBoundaryInputs(v[level], expanded0);
    if |expanded0| > |base|
       && TotalFileSize(next) + TotalFileSize(expanded0) < ExpandedCompactionByteSizeLimit(maxFileSize) {
      var newStart, newLimit := GetRange(expanded0);
      var expanded1 := GetOverlappingInputs(level + 1, v[level + 1], Between(newStart.user, newLimit.user));
      if |expanded1| == |next| {
        base', next' := expanded0, expanded1;
      }
    }
  }

  // ----- What the inputs guarantee -------------------------------------------------------

  /** The files a compaction may start from: at level 0 the files of a closed range, below
      it neighbouring files. */
  ghost predicate Pickable(v: Version, level: nat, picked: seq<File>)
    requires level < NUM_LEVELS && ValidFiles(v[level])
  {
    && picked != []
    && if level == 0 then exists r :: picked == OverlappingInputs(0, v[0], r)
       else exists i: nat, j: nat :: i < j <= |v[level]| && picked == v[level][i..j]
  }

  /** A file left behind at the level is newer than every input wherever they share a key. */
  ghost predicate LeftBehindIsNewer(files: seq<File>, base: seq<File>) {
    forall g, f | g in files && g !in base && f in base :: NewerThan(g, f)
  }

  ghost predicate ClosedBase(files: seq<File>, base: seq<File>) {
    && base != []
    && (forall f | f in base :: f in files)
    && FilesSorted(base)
    && LeftBehindIsNewer(files, base)
  }

  /** What the merge relies on: no older entry of an input's key stays at the level, and the
      inputs from the level below are exactly the files that meet the range of the others. */
  ghost predicate ClosedPlan(v: Version, level: nat, c: Plan)
    requires level + 1 < NUM_LEVELS
  {
    ClosedBase(v[level], c.base) && c.next == Meeting(v[level + 1], Hull(c.base))
  }

  lemma NoShared(g: File, f: File)
    requires g.Valid() && f.Valid()
    requires g.largest.user < f.smallest.user || f.largest.user < g.smallest.user
    ensures NewerThan(g, f)
  {
    forall a, b | a in g.entries && b in f.entries ensures a.key.user != b.key.user {
      EntryInBounds(g, a);
      EntryInBounds(f, b);
    }
  }

  lemma {:induction false} MeetingStaysListed(files: seq<File>, r: Range)
    requires FilesSorted(files)
    ensures FilesSorted(Meeting(files, r))
  {
    if files != [] {
      var n := |files| - 1;
      forall i, j | 0 <= i < j < n ensures FileInOrder(files[..n], i, j) { assert FileInOrder(files, i, j); }
      MeetingStaysListed(files[..n], r);
      var before, out := Meeting(files[..n], r), Meeting(files, r);
      forall i, j | 0 <= i < j < |out| ensures FileInOrder(out, i, j) {
        if j < |before| {
          assert FileInOrder(before, i, j);
        } else {
          InMeeting(files[..n], r, before[i]);
          var k :| 0 <= k < n && files[k] == before[i];
          assert FileInOrder(files, k, n);
        }
      }
    }
  }

  lemma SliceListed(files: seq<File>, i: nat, k: nat)
    requires LevelSorted(files) && i <= k <= |files|
    ensures FilesSorted(files[i..k])
  {
    forall a, b | 0 <= a < b < k - i ensures FileInOrder(files[i..k], a, b) { LevelOrder(files, i + a, i + b); }
  }

  lemma ClosedBaseAt0(files: seq<File>, r: Range)
    requires Level0Ordered(files) && OverlappingInputs(0, files, r) != []
    ensures AddBoundary(files, OverlappingInputs(0, files, r)) == OverlappingInputs(0, files, r)
    ensures ClosedBase(files, OverlappingInputs(0, files, r))
  {
    var c := Closure(files, r);
    var base := Meeting(files, c);
    var w := LargestIsGreatest(base);
    InMeeting(files, c, w);
    var b := BoundaryFile(files, LargestOf(base));
    if b.Some? {
      BoundsInOrder(b.value);
      InMeeting(files, c, b.value);
    }
    MeetingStaysListed(files, c);
    forall f | f in base ensures f in files { InMeeting(files, c, f); }
    forall g, f | g in files && g !in base && f in base ensures NewerThan(g, f) {
      InMeeting(files, c, g);
      InMeeting(files, c, f);
      NoShared(g, f);
    }
  }

  lemma ClosedBaseBelow(files: seq<File>, i: nat, j: nat)
    requires LevelSorted(files) && UniqueSeqs(LevelEntries(files))
    requires i < j <= |files|
    ensures ClosedBase(files, AddBoundary(files, files[i..j]))
  {
    RunBounds(files, i, j);
    var k := BoundaryOfRun(files, i, j);
    SliceListed(files, i, k);
    forall g, f | g in files && g !in files[i..k] && f in files[i..k] ensures NewerThan(g, f) {
      var x :| 0 <= x < |files| && files[x] == g;
      var y :| 0 <= y < |files| && files[y] == f;
      OutsideRunIsNewer(files, i, k, x, y);
    }
  }

  lemma OutsideRunIsNewer(files: seq<File>, i: nat, k: nat, x: nat, y: nat)
    requires LevelSorted(files) && UniqueSeqs(LevelEntries(files))
    requires i < k <= |files| && x < |files| && y < |files|
    requires k < |files| ==> files[k - 1].largest.user < files[k].smallest.user
    requires files[x] !in files[i..k] && files[y] in files[i..k]
    ensures NewerThan(files[x], files[y])
  {
    InRun(files, i, k, x);
    InRun(files, i, k, y);
    if x < i {
      EarlierIsNewer(files, x, y);
    } else {
      AfterRun(files, k, y, x);
      NoShared(files[x], files[y]);
    }
  }

  lemma AfterRun(files: seq<File>, k: nat, y: nat, x: nat)
    requires LevelSorted(files) && y < k <= x < |files|
    requires files[k - 1].largest.user < files[k].smallest.user
    ensures files[y].largest.user < files[x].smallest.user
  {
    LevelOrder(files, y, k - 1);
    LevelOrder(files, k, x);
  }

  lemma BaseIsClosed(v: Version, level: nat, picked: seq<File>)
    requires Ordered(v) && CanPick(v, level) && Pickable(v, level, picked)
    ensures ClosedBase(v[level], AddBoundary(v[level], picked))
  {
    if level == 0 {
      var r :| picked == OverlappingInputs(0, v[0], r);
      ClosedBaseAt0(v[0], r);
    } else {
      var i: nat, j: nat :| i < j <= |v[level]| && picked == v[level][i..j];
      LevelIsSorted(v, level);
      LevelUnique(v, level);
      ClosedBaseBelow(v[level], i, j);
    }
  }

  lemma OverlappingIsPickable(v: Version, level: nat, r: Range)
    requires Ordered(v) && level < NUM_LEVELS && ValidFiles(v[level])
    requires OverlappingInputs(level, v[level], r) != []
    ensures Pickable(v, level, OverlappingInputs(level, v[level], r))
  {
    if level > 0 {
      LevelIsSorted(v, level);
      var i, j := MeetingIsRun(v[level], r);
    }
  }

  /** Whatever is picked and however it expands, the inputs are closed, and nothing picked
      is lost. */
  lemma SetupIsClosed(v: Version, level: nat, picked: seq<File>, maxFileSize: nat)
    requires Ordered(v) && CanPick(v, level) && Pickable(v, level, picked)
    ensures ClosedPlan(v, level, Setup(v, level, picked, maxFileSize))
    ensures forall f | f in picked :: f in Setup(v, level, picked, maxFileSize).base
  {
    BoundaryKeeps(v[level], picked);
    BaseIsClosed(v, level, picked);
    ChosenIsClosed(v, level, AddBoundary(v[level], picked), maxFileSize);
  }

  lemma ChosenIsClosed(v: Version, level: nat, base: seq<File>, maxFileSize: nat)
    requires Ordered(v) && CanPick(v, level) && ClosedBase(v[level], base)
    ensures var chosen := ChosenBase(v, level, base, maxFileSize);
            && ClosedBase(v[level], chosen) && (forall f | f in base :: f in chosen)
            && NextInputs(v, level, chosen) == Meeting(v[level + 1], Hull(chosen))
  {
    if WorthExpanding(v, level, base, NextInputs(v, level, base), maxFileSize) {
      ExpansionIsClosed(v, level, base);
    }
  }

  lemma ExpansionIsClosed(v: Version, level: nat, base: seq<File>)
    requires Ordered(v) && CanPick(v, level) && ClosedBase(v[level], base)
    ensures ClosedBase(v[level], ExpandedBase(v, level, base, NextInputs(v, level, base)))
    ensures forall f | f in base :: f in ExpandedBase(v, level, base, NextInputs(v, level, base))
  {
    var next := NextInputs(v, level, base);
    var expanded := OverlappingInputs(level, v[level], Hull(base + next));
    forall f | f in base ensures f in expanded {
      BaseMeets(v, level, base, next, f);
    }
    assert base[0] in expanded;
    OverlappingIsPickable(v, level, Hull(base + next));
    BoundaryKeeps(v[level], expanded);
    BaseIsClosed(v, level, expanded);
  }

  lemma BaseMeets(v: Version, level: nat, base: seq<File>, next: seq<File>, f: File)
    requires CanPick(v, level) && base != [] && f in base
    requires (forall g | g in base :: g in v[level]) && next == NextInputs(v, level, base)
    ensures f in OverlappingInputs(level, v[level], Hull(base + next))
  {
    forall g | g in base + next ensures g.Valid() {
      if g in next { InMeeting(v[level + 1], Hull(base), g); }
    }
    HullCovers(base + next, f);
    InMeeting(v[level], InputRange(level, v[level], Hull(base + next)), f);
  }

  // ----- When the inputs grow ------------------------------------------------------------------------

  lemma {:induction false} WiderMeetsMore(files: seq<File>, r: Range, wide: Range)
    requires wide.Includes(r)
    ensures |Meeting(files, r)| <= |Meeting(files, wide)|
    ensures |Meeting(files, r)| == |Meeting(files, wide)| ==> Meeting(files, r) == Meeting(files, wide)
  {
    if files != [] {
      WiderMeetsMore(files[..|files| - 1], r, wide);
    }
  }

  lemma HullGrows(files: seq<File>, more: seq<File>)
    requires files != [] && more != [] && forall f | f in files :: f in more
    ensures Hull(more).Includes(Hull(files))
  {
    var a := SmallestIsLeast(files);
    var b := LargestIsGreatest(files);
    var _ := SmallestIsLeast(more);
    var _ := LargestIsGreatest(more);
  }

  lemma TailSorted(files: seq<File>)
    requires FilesSorted(files) && files != []
    ensures FilesSorted(files[1..]) && forall f | f in files[1..] :: FileLess(files[0], f)
  {
    forall i, j | 0 <= i < j < |files| - 1 ensures FileInOrder(files[1..], i, j) {
      assert FileInOrder(files, i + 1, j + 1);
    }
    forall f | f in files[1..] ensures FileLess(files[0], f) {
      var i :| 0 <= i < |files| - 1 && files[1..][i] == f;
      assert FileInOrder(files, 0, i + 1);
    }
  }

  /** Of two sorted lists the one that has the files of the other is no shorter, and as long only
      if they are the same. */
  lemma {:induction false} SortedPart(a: seq<File>, b: seq<File>)
    requires FilesSorted(a) && FilesSorted(b) && forall f | f in a :: f in b
    ensures |a| <= |b| && (|a| == |b| <==> a == b)
  {
    if a != [] {
      assert a[0] in b;
      TailSorted(a);
      TailSorted(b);
      if a[0] == b[0] {
        PartOfTail(a, b);
        SortedPart(a[1..], b[1..]);
        assert a == [a[0]] + a[1..] && b == [b[0]] + b[1..];
      } else {
        NotFirst(a, b);
        SortedPart(a, b[1..]);
      }
    }
  }

  lemma PartOfTail(a: seq<File>, b: seq<File>)
    requires a != [] && b != [] && a[0] == b[0]
    requires (forall f | f in a :: f in b) && forall f | f in a[1..] :: FileLess(a[0], f)
    ensures forall f | f in a[1..] :: f in b[1..]
  {
    forall f | f in a[1..] ensures f in b[1..] {
      assert f in a && f in b && f != b[0];
    }
  }

  lemma NotFirst(a: seq<File>, b: seq<File>)
    requires a != [] && b != [] && a[0] != b[0]
    requires (forall f | f in a :: f in b) && (forall f | f in a[1..] :: FileLess(a[0], f))
    requires forall f | f in b[1..] :: FileLess(b[0], f)
    ensures forall f | f in a :: f in b[1..]
  {
    assert a[0] in b && a[0] in b[1..];
    forall f | f in a ensures f in b[1..] {
      assert f in b && (f == a[0] || f in a[1..]);
      assert f == b[0] ==> FileLess(b[0], a[0]) && FileLess(a[0], b[0]);
    }
  }

  /** All files of the level that meet the inputs of both levels may be taken: there are some below,
      it stays small, and no other file below meets what is then taken. */
  ghost predicate MayGrow(v: Version, level: nat, next: seq<File>, wider: seq<File>, maxFileSize: nat)
    requires CanPick(v, level) && wider != []
  {
    && next != [] && TotalFileSize(next) + TotalFileSize(wider) < 25 * maxFileSize
    && forall g | g in v[level + 1] && Hull(wider).Meets(g) :: g in next
  }

  /** The inputs below are those that meet what was picked, also when more was taken; and more is
      taken exactly when it may be. */
  ghost predicate GrownForFree(v: Version, level: nat, picked: seq<File>, maxFileSize: nat, c: Plan)
    requires CanPick(v, level) && picked != []
  {
    var base := AddBoundary(v[level], picked);
    && base != [] && c.base != [] && c.next == Meeting(v[level + 1], Hull(base))
    && c.grandparents == (if level + 2 < NUM_LEVELS then Meeting(v[level + 2], Hull(c.base + c.next)) else [])
    && var wider := ExpandedBase(v, level, base, c.next);
       && wider != [] && (forall f | f in base || (f in v[level] && Hull(base + c.next).Meets(f)) :: f in wider)
       && c.base == if MayGrow(v, level, c.next, wider, maxFileSize) then wider else base
  }

  lemma MeetsWider(v: Version, level: nat, base: seq<File>, next: seq<File>)
    requires CanPick(v, level) && base != []
    ensures forall f | f in v[level] && Hull(base + next).Meets(f) :: f in ExpandedBase(v, level, base, next)
  {
    var hull := Hull(base + next);
    var expanded := OverlappingInputs(level, v[level], hull);
    BoundaryKeeps(v[level], expanded);
    forall f | f in v[level] && hull.Meets(f) ensures f in AddBoundary(v[level], expanded) {
      InMeeting(v[level], InputRange(level, v[level], hull), f);
    }
  }

  /** The two counts of the source compare files. */
  lemma CountsTell(v: Version, level: nat, base: seq<File>, wider: seq<File>)
    requires CanPick(v, level) && ClosedBase(v[level], base) && ClosedBase(v[level], wider)
    requires forall f | f in base :: f in wider
    ensures |base| <= |wider| && (|base| == |wider| <==> base == wider)
    ensures var next, more := NextInputs(v, level, base), NextInputs(v, level, wider);
            |more| == |next| <==> (forall g | g in v[level + 1] && Hull(wider).Meets(g) :: g in next)
    ensures |NextInputs(v, level, wider)| == |NextInputs(v, level, base)| ==>
              NextInputs(v, level, wider) == NextInputs(v, level, base)
  {
    SortedPart(base, wider);
    HullGrows(base, wider);
    MeetingsTell(v[level + 1], Hull(base), Hull(wider));
  }

  lemma {:induction false} MeetingsTell(files: seq<File>, r: Range, wide: Range)
    requires wide.Includes(r)
    ensures |Meeting(files, wide)| == |Meeting(files, r)| <==>
              (forall g | g in files && wide.Meets(g) :: g in Meeting(files, r))
    ensures |Meeting(files, wide)| == |Meeting(files, r)| ==> Meeting(files, wide) == Meeting(files, r)
  {
    WiderMeetsMore(files, r, wide);
    forall g | g in files ensures (g in Meeting(files, r) <==> r.Meets(g))
                                  && (g in Meeting(files, wide) <==> wide.Meets(g)) {
      InMeeting(files, r, g);
      InMeeting(files, wide, g);
    }
    if forall g | g in files && wide.Meets(g) :: g in Meeting(files, r) {
      SameMeet(files, r, wide);
    }
  }

  lemma {:induction false} SameMeet(files: seq<File>, r: Range, wide: Range)
    requires wide.Includes(r) && forall g | g in files && wide.Meets(g) :: r.Meets(g)
    ensures Meeting(files, wide) == Meeting(files, r)
  {
    if files != [] {
      SameMeet(files[..|files| - 1], r, wide);
    }
  }

  /** However the inputs grow, it is for free; and they do when they may. */
  lemma SetupGrowsExactly(v: Version, level: nat, picked: seq<File>, maxFileSize: nat)
    requires Ordered(v) && CanPick(v, level) && Pickable(v, level, picked)
    ensures GrownForFree(v, level, picked, maxFileSize, Setup(v, level, picked, maxFileSize))
  {
    BoundaryKeeps(v[level], picked);
    BaseIsClosed(v, level, picked);
    var base := AddBoundary(v[level], picked);
    ExpansionIsClosed(v, level, base);
    MeetsWider(v, level, base, NextInputs(v, level, base));
    ChoosesExactly(v, level, base, maxFileSize);
  }

  lemma ChoosesExactly(v: Version, level: nat, base: seq<File>, maxFileSize: nat)
    requires CanPick(v, level) && ClosedBase(v[level], base)
    requires ClosedBase(v[level], ExpandedBase(v, level, base, NextInputs(v, level, base)))
    requires forall f | f in base :: f in ExpandedBase(v, level, base, NextInputs(v, level, base))
    ensures var next := NextInputs(v, level, base);
            var wider, chosen := ExpandedBase(v, level, base, next), ChosenBase(v, level, base, maxFileSize);
            && chosen == (if MayGrow(v, level, next, wider, maxFileSize) then wider else base)
            && NextInputs(v, level, chosen) == next
  {
    CountsTell(v, level, base, ExpandedBase(v, level, base, NextInputs(v, level, base)));
  }
}
