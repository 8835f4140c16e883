/** Which files a compaction reads: boundary files, the files of the next level, and the
    attempt to widen the inputs for free. */
module Inputs {
  import opened Keys
  import opened Files

  // ----- Smallest and largest key of a list of files ---------------------------------------

  function SmallestOf(files: seq<File>): Key
    requires files != []
  {
    var last := files[|files| - 1];
    if |files| == 1 then last.smallest
    else
      var k := SmallestOf(files[..|files| - 1]);
      if Less(last.smallest, k) then last.smallest else k
  }

  function LargestOf(files: seq<File>): Key
    requires files != []
  {
    var last := files[|files| - 1];
    if |files| == 1 then last.largest
    else
      var k := LargestOf(files[..|files| - 1]);
      if Less(k, last.largest) then last.largest else k
  }

  lemma {:induction false} SmallestIsLeast(files: seq<File>) returns (w: File)
    requires files != []
    ensures w in files && w.smallest == SmallestOf(files)
    ensures forall f | f in files :: !Less(f.smallest, SmallestOf(files))
  {
    var n := |files| - 1;
    w := files[n];
    if n > 0 {
      assert files == files[..n] + [files[n]];
      var w' := SmallestIsLeast(files[..n]);
      if !Less(w.smallest, w'.smallest) { w := w'; }
    }
  }

  lemma {:induction false} LargestIsGreatest(files: seq<File>) returns (w: File)
    requires files != []
    ensures w in files && w.largest == LargestOf(files)
    ensures forall f | f in files :: !Less(LargestOf(files), f.largest)
  {
    var n := |files| - 1;
    w := files[n];
    if n > 0 {
      assert files == files[..n] + [files[n]];
      var w' := LargestIsGreatest(files[..n]);
      if !Less(w'.largest, w.largest) { w := w'; }
    }
  }

  method GetRange(files: seq<File>) returns (smallest: Key, largest: Key)
    requires files != []
    ensures smallest == SmallestOf(files) && largest == LargestOf(files)
  {
    smallest, largest := files[0].smallest, files[0].largest;
    assert files[..1] == [files[0]];
    for i := 1 to |files|
      invariant smallest == SmallestOf(files[..i]) && largest == LargestOf(files[..i])
    {
      PrefixStep(files, i);
      if Less(files[i].smallest, smallest) {
        smallest := files[i].smallest;
      }
      if Less(largest, files[i].largest) {
        largest := files[i].largest;
      }
    }
    assert files[..|files|] == files;
  }

  lemma PrefixStep(files: seq<File>, i: nat)
    requires i < |files|
    ensures files[..i + 1][..i] == files[..i] && files[..i + 1][i] == files[i]
  {
  }

  /** The user keys from the smallest to the largest key of the files. */
  function Hull(files: seq<File>): Range
    requires files != []
  {
    Between(SmallestOf(files).user, LargestOf(files).user)
  }

  lemma HullCovers(files: seq<File>, f: File)
    requires ValidFiles(files) && f in files
    ensures Hull(files).Covers(f) && Hull(files).Meets(f)
  {
    BoundsInOrder(f);
    var _ := SmallestIsLeast(files);
    var _ := LargestIsGreatest(files);
  }

  // ----- Boundary files ------------------------------------------------------------------

  /** `f` continues, at the same user key, the run that ends at `k`. */
  predicate Continues(f: File, k: Key) {
    Less(k, f.smallest) && f.smallest.user == k.user
  }

  function BoundaryFile(files: seq<File>, k: Key): (r: Option<File>)
    ensures r.Some? ==> r.value in files && Continues(r.value, k)
  {
    if files == [] then None
    else
      var n := |files| - 1;
      assert files == files[..n] + [files[n]];
      var r := BoundaryFile(files[..n], k);
      if Continues(files[n], k) && (r.None? || Less(files[n].smallest, r.value.smallest)) then Some(files[n]) else r
  }

  /** The boundary file found is the one that starts first. */
  lemma {:induction false} BoundaryFileIsFirst(files: seq<File>, k: Key, f: File)
    requires f in files && Continues(f, k)
    ensures BoundaryFile(files, k).Some? && !Less(f.smallest, BoundaryFile(files, k).value.smallest)
  {
    var n := |files| - 1;
    assert files == files[..n] + [files[n]];
    if f in files[..n] {
      BoundaryFileIsFirst(files[..n], k, f);
    }
  }

  method FindSmallestBoundaryFile(files: seq<File>, k: Key) returns (r: Option<File>)
    ensures r == BoundaryFile(files, k)
  {
    r := None;
    for i := 0 to |files|
      invariant r == BoundaryFile(files[..i], k)
    {
      assert files[..i + 1][..i] == files[..i];
      var f := files[i];
      if Less(k, f.smallest) && f.smallest.user == k.user {
        if r.None? || Less(f.smallest, r.value.smallest) {
          r := Some(f);
        }
      }
    }
    assert files[..|files|] == files;
  }

  function StartingAfter(files: seq<File>, k: Key): nat {
    if files == [] then 0
    else StartingAfter(files[1..], k) + (if Less(k, files[0].smallest) then 1 else 0)
  }

  lemma {:induction false} FewerStartAfter(files: seq<File>, k: Key, f: File)
    requires f.Valid() && Less(k, f.smallest)
    ensures StartingAfter(files, f.largest) <= StartingAfter(files, k)
    ensures f in files ==> StartingAfter(files, f.largest) < StartingAfter(files, k)
  {
    BoundsInOrder(f);
    if files != [] {
      assert files == [files[0]] + files[1..];
      FewerStartAfter(files[1..], k, f);
    }
  }

  /** The inputs with every boundary file of the level appended. */
  function WithBoundary(level: seq<File>, inputs: seq<File>, largest: Key): seq<File>
    requires ValidFiles(level)
    decreases StartingAfter(level, largest)
  {
    var next := BoundaryFile(level, largest);
    if next.None? then inputs
    else
      FewerStartAfter(level, largest, next.value);
      WithBoundary(level, inputs + [next.value], next.value.largest)
  }

  function AddBoundary(level: seq<File>, inputs: seq<File>): seq<File>
    requires ValidFiles(level)
  {
    if inputs == [] then inputs else WithBoundary(level, inputs, LargestOf(inputs))
  }

  method AddBoundaryInputs(level: seq<File>, inputs: seq<File>) returns (out: seq<File>)
    requires ValidFiles(level)
    ensures out == AddBoundary(level, inputs)
  {
    out := inputs;
    if inputs == [] {
      return;
    }
    var _, largest := GetRange(inputs);
    var searching := true;
    while searching
      invariant searching ==> WithBoundary(level, out, largest) == AddBoundary(level, inputs)
      invariant !searching ==> out == AddBoundary(level, inputs)
      decreases searching, StartingAfter(level, largest)
    {
      var boundary := FindSmallestBoundaryFile(level, largest);
      if boundary.Some? {
        FewerStartAfter(level, largest, boundary.value);
        out := out + [boundary.value];
        largest := boundary.value.largest;
      } else {
        searching := false;
      }
    }
  }

  /** Nothing at the level continues the extended inputs, which start with the given ones. */
  lemma {:induction false} NoBoundaryLeft(level: seq<File>, inputs: seq<File>, largest: Key)
    requires ValidFiles(level) && inputs != [] && largest == LargestOf(inputs)
    ensures var out := WithBoundary(level, inputs, largest);
            && inputs <= out
            && (forall f | f in out :: f in inputs || f in level)
            && forall f | f in level :: !Continues(f, LargestOf(out))
    decreases StartingAfter(level, largest)
  {
    var next := BoundaryFile(level, largest);
    if next.Some? {
      FewerStartAfter(level, largest, next.value);
      LargestAfterAppend(inputs, next.value);
      NoBoundaryLeft(level, inputs + [next.value], next.value.largest);
    } else {
      forall f | f in level ensures !Continues(f, largest) {
        if Continues(f, largest) { BoundaryFileIsFirst(level, largest, f); }
      }
    }
  }

  lemma LargestAfterAppend(inputs: seq<File>, f: File)
    requires f.Valid() && inputs != [] && Less(LargestOf(inputs), f.smallest)
    ensures LargestOf(inputs + [f]) == f.largest
  {
    BoundsInOrder(f);
    assert (inputs + [f])[..|inputs|] == inputs;
  }

  // ----- Runs of a sorted level -------------------------------------------------------------

  lemma {:induction false} RunBounds(files: seq<File>, i: nat, j: nat)
    requires LevelSorted(files) && i < j <= |files|
    ensures SmallestOf(files[i..j]) == files[i].smallest
    ensures LargestOf(files[i..j]) == files[j - 1].largest
  {
    var run := files[i..j];
    if j == i + 1 {
      assert run == [files[i]];
    } else {
      assert run[..|run| - 1] == files[i..j - 1];
      RunBounds(files, i, j - 1);
      LevelOrder(files, i, j - 1);
      LevelOrder(files, j - 2, j - 1);
    }
  }

  /** Files of a sorted level are pairwise different. */
  lemma InRun(files: seq<File>, i: nat, j: nat, k: nat)
    requires LevelSorted(files) && i <= j <= |files| && k < |files|
    ensures files[k] in files[i..j] <==> i <= k < j
  {
    if files[k] in files[i..j] {
      var m :| 0 <= m < |files[i..j]| && files[i..j][m] == files[k];
      LevelOrder(files, i + m, k);
      LevelOrder(files, k, i + m);
    }
    if i <= k < j { assert files[i..j][k - i] == files[k]; }
  }

  lemma LevelPrefix(files: seq<File>, n: nat)
    requires LevelSorted(files) && n <= |files|
    ensures LevelSorted(files[..n])
  {
    forall i, j | 0 <= i < j < n ensures Before(files[..n], i, j) { assert Before(files, i, j); }
  }

  /** The files of a sorted level that meet a range stand next to each other. */
  lemma {:induction false} MeetingIsRun(files: seq<File>, r: Range) returns (i: nat, j: nat)
    requires LevelSorted(files)
    ensures i <= j <= |files| && Meeting(files, r) == files[i..j]
  {
    if files == [] {
      i, j := 0, 0;
    } else {
      var n := |files| - 1;
      LevelPrefix(files, n);
      i, j := MeetingIsRun(files[..n], r);
      i, j := OneMoreMeets(files, r, i, j);
    }
  }

  lemma OneMoreMeets(files: seq<File>, r: Range, i0: nat, j0: nat) returns (i: nat, j: nat)
    requires LevelSorted(files) && files != [] && i0 <= j0 <= |files| - 1
    requires Meeting(files[..|files| - 1], r) == files[..|files| - 1][i0..j0]
    ensures i <= j <= |files| && Meeting(files, r) == files[i..j]
  {
    var n := |files| - 1;
    i, j := i0, j0;
    assert files[..n][i..j] == files[i..j];
    if r.Meets(files[n]) {
      if i < j {
        MeetsBetween(files, i, j, r);
        assert files[i..n] + [files[n]] == files[i..n + 1];
        j := n + 1;
      } else {
        i, j := n, n + 1;
        assert files[i..j] == [files[n]];
      }
    }
  }

  /** A file between two that meet a range meets it too, so a run cannot stop short. */
  lemma MeetsBetween(files: seq<File>, i: nat, j: nat, r: Range)
    requires LevelSorted(files) && i < j <= |files| - 1
    requires Meeting(files[..|files| - 1], r) == files[i..j] && r.Meets(files[|files| - 1])
    ensures j == |files| - 1
  {
    var n := |files| - 1;
    if j < n {
      InRun(files, i, j, i);
      assert files[..n][j] in files[..n];
      InMeeting(files[..n], r, files[i]);
      InMeeting(files[..n], r, files[j]);
      LevelOrder(files, i, j);
      LevelOrder(files, j, n);
      InRun(files, i, j, j);
    }
  }

  /** The file starts with the user key at which the one before it ends. */
  predicate Adjoins(files: seq<File>, m: nat)
    requires m < |files|
  {
    0 < m && files[m - 1].largest.user == files[m].smallest.user
  }

  /** Closing a run of a sorted level over its boundary files gives a longer run: each file that is
      added starts with the user key at which the one before ends, and the next one does not. */
  lemma {:induction false} BoundaryOfRun(files: seq<File>, i: nat, j: nat) returns (k: nat)
    requires LevelSorted(files) && i < j <= |files|
    ensures j <= k <= |files| && WithBoundary(files, files[i..j], files[j - 1].largest) == files[i..k]
    ensures k < |files| ==> files[k - 1].largest.user < files[k].smallest.user
    ensures forall m | j <= m < k :: Adjoins(files, m)
    decreases |files| - j
  {
    if j < |files| {
      LevelOrder(files, j - 1, j);
    }
    if j < |files| && files[j - 1].largest.user == files[j].smallest.user {
      NextInRun(files, j);
      assert files[i..j] + [files[j]] == files[i..j + 1];
      k := BoundaryOfRun(files, i, j + 1);
    } else {
      NoNextInRun(files, j);
      k := j;
    }
  }

  lemma NextInRun(files: seq<File>, j: nat)
    requires LevelSorted(files) && 0 < j < |files|
    requires files[j - 1].largest.user == files[j].smallest.user
    ensures BoundaryFile(files, files[j - 1].largest) == Some(files[j])
  {
    assert Continues(files[j], files[j - 1].largest) by { LevelOrder(files, j - 1, j); }
    BoundaryFileIsFirst(files, files[j - 1].largest, files[j]);
    var f := BoundaryFile(files, files[j - 1].largest).value;
    var m :| 0 <= m < |files| && files[m] == f;
    ContinuationIsLater(files, j - 1, m);
    NotBehind(files, j, m);
  }

  lemma NotBehind(files: seq<File>, j: nat, m: nat)
    requires LevelSorted(files) && j <= m < |files| && !Less(files[j].smallest, files[m].smallest)
    ensures m == j
  {
    LevelOrder(files, j, m);
  }

  lemma ContinuationIsLater(files: seq<File>, i: nat, m: nat)
    requires LevelSorted(files) && i < |files| && m < |files|
    requires Less(files[i].largest, files[m].smallest)
    ensures i < m
  {
    LevelOrder(files, m, i);
    BoundsInOrder(files[m]);
  }

  lemma NoNextInRun(files: seq<File>, j: nat)
    requires LevelSorted(files) && 0 < j <= |files|
    requires j < |files| ==> files[j - 1].largest.user < files[j].smallest.user
    ensures BoundaryFile(files, files[j - 1].largest).None?
  {
    var r := BoundaryFile(files, files[j - 1].largest);
    if r.Some? {
      var m :| 0 <= m < |files| && files[m] == r.value;
      ContinuationIsLater(files, j - 1, m);
      LevelOrder(files, j, m);
    }
  }
}
