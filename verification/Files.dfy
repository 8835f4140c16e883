/** Table files of one level and the searches over them. */
module Files {
  import opened Keys

  /** A table with its metadata: its number, its size in bytes, the smallest and the largest
      key, and the entries it holds. */
  datatype File = File(number: nat, size: nat, smallest: Key, largest: Key, entries: seq<Entry>) {
    /** Only tables with entries are installed; the entries were added in key order and the
        metadata records the first and the last of them. */
    ghost predicate Valid() {
      && |entries| > 0
      && smallest == entries[0].key
      && largest == entries[|entries| - 1].key
      && Sorted(entries)
      && forall e | e in entries :: e.key.seqno <= MAX_SEQUENCE
    }
  }

  ghost predicate ValidFiles(files: seq<File>) {
    forall f | f in files :: f.Valid()
  }

  lemma BoundsInOrder(f: File)
    requires f.Valid()
    ensures f.smallest.user <= f.largest.user
    ensures f.smallest == f.largest || Less(f.smallest, f.largest)
  {
    if 1 < |f.entries| { assert InOrder(f.entries, 0, |f.entries| - 1); }
  }

  ghost predicate Before(files: seq<File>, i: nat, j: nat)
    requires i < |files| && j < |files|
  {
    Less(files[i].largest, files[j].smallest)
  }

  /** A level below 0: files in key order, no two of them overlapping as internal keys. */
  ghost predicate LevelSorted(files: seq<File>) {
    && ValidFiles(files)
    && forall i, j | 0 <= i < j < |files| :: Before(files, i, j)
  }

  /** How the bounds of two files of a sorted level compare. */
  lemma LevelOrder(files: seq<File>, a: nat, b: nat)
    requires LevelSorted(files) && a < |files| && b < |files|
    ensures a < b ==> Less(files[a].largest, files[b].smallest)
    ensures a < b ==> Less(files[a].largest, files[b].largest) && Less(files[a].smallest, files[b].smallest)
    ensures a <= b ==> !Less(files[b].smallest, files[a].smallest) && !Less(files[b].largest, files[a].largest)
    ensures files[a].Valid() && files[a].smallest.user <= files[a].largest.user
    ensures a < b ==> files[a] != files[b]
  {
    BoundsInOrder(files[a]);
    BoundsInOrder(files[b]);
    if a < b { assert Before(files, a, b); }
  }

  /** The order in which every level lists its files: by smallest key, ties by number. */
  predicate FileLess(f: File, g: File) {
    Less(f.smallest, g.smallest) || (f.smallest == g.smallest && f.number < g.number)
  }

  ghost predicate FileInOrder(files: seq<File>, i: nat, j: nat)
    requires i < |files| && j < |files|
  {
    FileLess(files[i], files[j])
  }

  ghost predicate FilesSorted(files: seq<File>) {
    forall i, j | 0 <= i < j < |files| :: FileInOrder(files, i, j)
  }

  ghost predicate InFiles(files: seq<File>, e: Entry) {
    exists f :: f in files && e in f.entries
  }

  function TotalFileSize(files: seq<File>): nat {
    if files == [] then 0 else files[0].size + TotalFileSize(files[1..])
  }

  // ----- Ranges of user keys ----------------------------------------------------------

  /** A range of user keys; a missing bound is infinite. */
  datatype Range = Range(lo: Option<UserKey>, hi: Option<UserKey>) {
    predicate Has(u: UserKey) {
      (lo.Some? ==> lo.value <= u) && (hi.Some? ==> u <= hi.value)
    }

    /** The user keys of `f` meet the range. */
    predicate Meets(f: File)
    {
      (lo.Some? ==> lo.value <= f.largest.user) && (hi.Some? ==> f.smallest.user <= hi.value)
    }

    predicate Covers(f: File)
    {
      Has(f.smallest.user) && Has(f.largest.user)
    }

    predicate Includes(r: Range) {
      && (lo.Some? ==> r.lo.Some? && lo.value <= r.lo.value)
      && (hi.Some? ==> r.hi.Some? && r.hi.value <= hi.value)
    }
  }

  function Between(lo: UserKey, hi: UserKey): Range {
    Range(Some(lo), Some(hi))
  }

  /** The entries of a valid file lie between its smallest and largest key. */
  lemma EntryInBounds(f: File, e: Entry)
    requires f.Valid() && e in f.entries
    ensures f.smallest.user <= e.key.user <= f.largest.user
    ensures e.key == f.smallest || Less(f.smallest, e.key)
    ensures e.key == f.largest || Less(e.key, f.largest)
  {
    var i :| 0 <= i < |f.entries| && f.entries[i] == e;
    if 0 < i { assert InOrder(f.entries, 0, i); }
    if i < |f.entries| - 1 { assert InOrder(f.entries, i, |f.entries| - 1); }
  }

  // ----- Binary search over a level -----------------------------------------------------

  method FindFile(files: seq<File>, key: Key) returns (right: nat)
    requires LevelSorted(files)
    ensures right <= |files|
    ensures forall i | 0 <= i < right :: Less(files[i].largest, key)
    ensures forall i | right <= i < |files| :: !Less(files[i].largest, key)
  {
    var left := 0;
    right := |files|;
    while left < right
      invariant 0 <= left <= right <= |files|
      invariant forall i | 0 <= i < left :: Less(files[i].largest, key)
      invariant forall i | right <= i < |files| :: !Less(files[i].largest, key)
    {
      var mid := (left + right) / 2;
      LargestAscend(files, mid);
      if Less(files[mid].largest, key) {
        left := mid + 1;
      } else {
        right := mid;
      }
    }
  }

  lemma LargestAscend(files: seq<File>, m: nat)
    requires LevelSorted(files) && m < |files|
    ensures forall i | 0 <= i < m :: Less(files[i].largest, files[m].largest)
    ensures forall i | m < i < |files| :: Less(files[m].largest, files[i].largest)
  {
    forall i | 0 <= i < |files|
      ensures i < m ==> Less(files[i].largest, files[m].largest)
      ensures m < i ==> Less(files[m].largest, files[i].largest)
    {
      LevelOrder(files, i, m);
      LevelOrder(files, m, i);
    }
  }

  predicate AfterFile(u: Option<UserKey>, f: File)
  {
    u.Some? && u.value > f.largest.user
  }

  predicate BeforeFile(u: Option<UserKey>, f: File)
  {
    u.Some? && u.value < f.smallest.user
  }

  /** Linear for level 0, one binary search for the sorted levels; both decide whether
      any file has a user key range that meets the given one. */
  method SomeFileOverlapsRange(disjoint: bool, files: seq<File>, r: Range) returns (overlap: bool)
    requires disjoint ==> LevelSorted(files)
    ensures overlap <==> exists f :: f in files && r.Meets(f)
  {
    if !disjoint {
      for i := 0 to |files|
        invariant forall j | 0 <= j < i :: !r.Meets(files[j])
      {
        if AfterFile(r.lo, files[i]) || BeforeFile(r.hi, files[i]) {
        } else {
          assert r.Meets(files[i]);
          return true;
        }
      }
      return false;
    }
    var index := 0;
    if r.lo.Some? {
      index := FindFile(files, SeekKey(r.lo.value, MAX_SEQUENCE));
    }
    forall i | 0 <= i < index ensures !r.Meets(files[i]) {
      assert files[i] in files && files[i].entries[|files[i].entries| - 1] in files[i].entries;
    }
    if index >= |files| {
      return false;
    }
    overlap := !BeforeFile(r.hi, files[index]);
    if overlap {
      assert r.Meets(files[index]);
    } else {
      forall i | index < i < |files| ensures !r.Meets(files[i]) {
        LevelOrder(files, index, i);
      }
    }
  }

  // ----- Overlapping inputs -------------------------------------------------------------

  /** The files that meet a range, in their order. */
  function Meeting(files: seq<File>, r: Range): seq<File> {
    if files == [] then []
    else
      var f := files[|files| - 1];
      Meeting(files[..|files| - 1], r) + (if r.Meets(f) then [f] else [])
  }

  lemma {:induction false} InMeeting(files: seq<File>, r: Range, f: File)
    ensures f in Meeting(files, r) <==> f in files && r.Meets(f)
  {
    if files != [] {
      var n := |files| - 1;
      assert files == files[..n] + [files[n]];
      InMeeting(files[..n], r, f);
    }
  }

  /** No file meets the range without lying inside it. */
  ghost predicate Closed(files: seq<File>, r: Range)
  {
    forall f | f in files && r.Meets(f) :: r.Covers(f)
  }

  /** Every closed range around `r` includes `c`. */
  ghost predicate Forced(files: seq<File>, r: Range, c: Range) {
    forall d: Range | d.Includes(r) && Closed(files, d) :: d.Includes(c)
  }

  /** `c` is the least range that includes `r` and is closed. */
  ghost predicate IsClosure(files: seq<File>, r: Range, c: Range) {
    c.Includes(r) && Closed(files, c) && Forced(files, r, c)
  }

  function Outside(files: seq<File>, r: Range): nat
  {
    if files == [] then 0
    else
      Outside(files[1..], r)
      + (if r.lo.Some? && files[0].smallest.user < r.lo.value then 1 else 0)
      + (if r.hi.Some? && r.hi.value < files[0].largest.user then 1 else 0)
  }

  lemma {:induction false} OutsideShrinks(files: seq<File>, r: Range, r': Range)
    requires r'.Includes(r)
    ensures Outside(files, r') <= Outside(files, r)
  {
    if files != [] {
      OutsideShrinks(files[1..], r, r');
    }
  }

  function ExtendLo(r: Range, f: File): Range
  {
    if r.lo.Some? && f.smallest.user < r.lo.value then r.(lo := Some(f.smallest.user)) else r
  }

  function ExtendHi(r: Range, f: File): Range
  {
    if r.hi.Some? && f.largest.user > r.hi.value then r.(hi := Some(f.largest.user)) else r
  }

  /** A closed range around `r` swallows each file that meets a range it is forced to include. */
  lemma ExtensionIsForced(files: seq<File>, r: Range, c: Range, f: File)
    requires f in files && c.Meets(f) && Forced(files, r, c)
    ensures Forced(files, r, ExtendLo(c, f))
    ensures Forced(files, r, ExtendHi(c, f))
  {
    forall d: Range | d.Includes(r) && Closed(files, d)
      ensures d.Includes(ExtendLo(c, f)) && d.Includes(ExtendHi(c, f))
    {
      assert d.Includes(c) && d.Meets(f);
    }
  }

  ghost function Closure(files: seq<File>, r: Range): (c: Range)
    ensures IsClosure(files, r, c)
    decreases Outside(files, r)
  {
    if f :| f in files && r.Meets(f) && !r.Covers(f) then
      var r' := if ExtendLo(r, f) != r then ExtendLo(r, f) else ExtendHi(r, f);
      Widen(files, r, r, f);
      ForcedIsTransitive(files, r, r', Closure(files, r'));
      Closure(files, r')
    else r
  }

  lemma ForcedIsTransitive(files: seq<File>, r: Range, r': Range, c: Range)
    requires r'.Includes(r) && Forced(files, r, r') && c.Includes(r') && Forced(files, r', c)
    ensures c.Includes(r) && Forced(files, r, c)
  {
    forall d: Range | d.Includes(r) && Closed(files, d) ensures d.Includes(c) {
      assert d.Includes(r');
    }
  }

  lemma ClosureIsUnique(files: seq<File>, r: Range, c: Range)
    requires IsClosure(files, r, c)
    ensures c == Closure(files, r)
  {
    var d := Closure(files, r);
    assert c.Includes(d) && d.Includes(c);
  }

  /** The range whose files a level hands to a compaction of `r`. */
  ghost function InputRange(level: nat, files: seq<File>, r: Range): Range {
    if level == 0 then Closure(files, r) else r
  }

  ghost function OverlappingInputs(level: nat, files: seq<File>, r: Range): seq<File> {
    Meeting(files, InputRange(level, files, r))
  }

  /** Level 0 restarts its scan whenever a file widens the range; the scan ends, and ends
      with the files of the least closed range, whatever the order of the files. */
  method GetOverlappingInputs(level: nat, files: seq<File>, r: Range) returns (inputs: seq<File>)
    ensures inputs == OverlappingInputs(level, files, r)
  {
    inputs := [];
    var range := r;
    var i := 0;
    while i < |files|
      invariant 0 <= i <= |files|
      invariant range.Includes(r) && Forced(files, r, range)
      invariant level > 0 ==> range == r
      invariant inputs == Meeting(files[..i], range)
      invariant level == 0 ==> Closed(files[..i], range)
      decreases Outside(files, range), |files| - i
    {
      var f := files[i];
      ScanStep(files, i, range);
      i := i + 1;
      if AfterFile(range.lo, f) {
      } else if BeforeFile(range.hi, f) {
      } else {
        inputs := inputs + [f];
        if level == 0 {
          if range.lo.Some? && f.smallest.user < range.lo.value {
            Widen(files, r, range, f);
            range := range.(lo := Some(f.smallest.user));
            inputs, i := [], 0;
          } else if range.hi.Some? && f.largest.user > range.hi.value {
            Widen(files, r, range, f);
            range := range.(hi := Some(f.largest.user));
            inputs, i := [], 0;
          }
        }
      }
    }
    assert files[..i] == files;
    if level == 0 {
      ClosureIsUnique(files, r, range);
    }
  }

  lemma ScanStep(files: seq<File>, i: nat, r: Range)
    requires i < |files|
    ensures Meeting(files[..i + 1], r) == Meeting(files[..i], r) + (if r.Meets(files[i]) then [files[i]] else [])
    ensures Closed(files[..i + 1], r) <==> Closed(files[..i], r) && (r.Meets(files[i]) ==> r.Covers(files[i]))
  {
    assert files[..i + 1][..i] == files[..i];
    assert files[..i + 1] == files[..i] + [files[i]];
  }

  /** One widening step: it is forced, and strictly less remains outside. */
  lemma Widen(files: seq<File>, r: Range, c: Range, f: File)
    requires f in files && c.Meets(f) && Forced(files, r, c)
    ensures Forced(files, r, ExtendLo(c, f)) && Forced(files, r, ExtendHi(c, f))
    ensures ExtendLo(c, f) != c ==> Outside(files, ExtendLo(c, f)) < Outside(files, c)
    ensures ExtendHi(c, f) != c ==> Outside(files, ExtendHi(c, f)) < Outside(files, c)
  {
    ExtensionIsForced(files, r, c, f);
    WideningShrinks(files, c, ExtendLo(c, f), f);
    WideningShrinks(files, c, ExtendHi(c, f), f);
  }

  lemma {:induction false} WideningShrinks(files: seq<File>, r: Range, r': Range, f: File)
    requires f in files
    requires r' == ExtendLo(r, f) || r' == ExtendHi(r, f)
    ensures r' != r ==> Outside(files, r') < Outside(files, r)
  {
    OutsideShrinks(files[1..], r, r');
    if f != files[0] {
      assert f in files[1..];
      WideningShrinks(files[1..], r, r', f);
    }
  }
}
