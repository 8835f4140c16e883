/** What a merging compaction does to reads: nothing, unless it uncovers an entry of the
    last input's largest user key in the file that follows it. */
module Preserve {
  import opened Keys
  import opened Files
  import opened Versions
  import opened Inputs
  import opened Picking
  import opened Compact
  import opened Install

  // ----- The outputs of the merge -----------------------------------------------------------------

  ghost predicate IsInputOf(all: seq<Entry>, base: seq<File>, next: seq<File>) {
    Sorted(all) && forall e :: e in all <==> InFiles(base, e) || InFiles(next, e)
  }

  lemma {:induction false} InFlatten(files: seq<File>, e: Entry)
    ensures e in Flatten(files) <==> InFiles(files, e)
  {
    if files != [] {
      var n := |files| - 1;
      assert files == files[..n] + [files[n]];
      InFlatten(files[..n], e);
      if e in files[n].entries { assert files[n] in files; }
      if InFiles(files[..n], e) {
        var f :| f in files[..n] && e in f.entries;
        assert f in files;
      }
    }
  }

  lemma SortedSplit(a: seq<Entry>, b: seq<Entry>)
    requires Sorted(a + b)
    ensures Sorted(a) && Sorted(b)
    ensures forall x, y | x in a && y in b :: Less(x.key, y.key)
  {
    forall i, j | 0 <= i < j < |a| ensures InOrder(a, i, j) { assert InOrder(a + b, i, j); }
    forall i, j | 0 <= i < j < |b| ensures InOrder(b, i, j) { assert InOrder(a + b, |a| + i, |a| + j); }
    forall x, y | x in a && y in b ensures Less(x.key, y.key) {
      var i :| 0 <= i < |a| && a[i] == x;
      var j :| 0 <= j < |b| && b[j] == y;
      assert InOrder(a + b, i, |a| + j);
    }
  }

  /** Cutting a sorted run into tables gives tables that never overlap. */
  lemma {:induction false} PiecesAreTables(files: seq<File>)
    requires Sorted(Flatten(files)) && forall f | f in files :: WellBuilt(f)
    requires forall e | e in Flatten(files) :: e.key.seqno <= MAX_SEQUENCE
    ensures ValidFiles(files) && AllApart(files)
  {
    if files != [] {
      var n := |files| - 1;
      var last := files[n];
      assert files == files[..n] + [last] && last in files;
      SortedSplit(Flatten(files[..n]), last.entries);
      PiecesAreTables(files[..n]);
      forall f | f in files[..n] ensures Apart(f, last) && Apart(last, f) {
        var e := f.entries[|f.entries| - 1];
        assert WellBuilt(f) && WellBuilt(last);
        assert e in f.entries && last.entries[0] in last.entries;
        InFlatten(files[..n], e);
      }
    }
  }

  lemma MergeOutputsGood(v: Version, level: nat, base: seq<File>, next: seq<File>, all: seq<Entry>, floor: nat,
                         outputs: seq<File>, first: nat)
    requires level + 1 < NUM_LEVELS && Ordered(v) && IsInputOf(all, base, next)
    requires (forall f | f in base :: f in v[level]) && (forall f | f in next :: f in v[level + 1])
    requires Flatten(outputs) == Kept(all, |all|, floor, v, level) && WellNumbered(outputs, first)
    requires forall l, g | 0 <= l < NUM_LEVELS && g in v[l] :: g.number < first
    ensures GoodOutputs(v, level, base, next, outputs)
  {
    KeptSorted(all, |all|, floor, v, level);
    forall e | e in Flatten(outputs) ensures (InFiles(base, e) || InFiles(next, e)) && e.key.seqno <= MAX_SEQUENCE {
      InKept(all, |all|, floor, v, level, e);
      InputIsBounded(v, level, base, next, e);
    }
    PiecesAreTables(outputs);
    forall o, e | o in outputs && e in o.entries ensures InFiles(base, e) || InFiles(next, e) {
      InFlatten(outputs, e);
    }
    OutputNumbers(v, outputs, first);
  }

  lemma OutputNumbers(v: Version, outputs: seq<File>, first: nat)
    requires NumberedFrom(outputs, first)
    requires forall l, g | 0 <= l < NUM_LEVELS && g in v[l] :: g.number < first
    ensures forall o, p | o in outputs && p in outputs && o.number == p.number :: o == p
    ensures forall o, l, g | o in outputs && 0 <= l < NUM_LEVELS && g in v[l] :: g.number != o.number
  {
    forall o | o in outputs ensures first <= o.number {
      var i :| 0 <= i < |outputs| && outputs[i] == o;
    }
  }

  lemma InputIsBounded(v: Version, level: nat, base: seq<File>, next: seq<File>, e: Entry)
    requires level + 1 < NUM_LEVELS && Ordered(v)
    requires (forall f | f in base :: f in v[level]) && (forall f | f in next :: f in v[level + 1])
    requires InFiles(base, e) || InFiles(next, e)
    ensures e.key.seqno <= MAX_SEQUENCE
  {
    if InFiles(base, e) {
      var f :| f in base && e in f.entries;
      FilesAreValid(v, level, f);
    } else {
      var f :| f in next && e in f.entries;
      FilesAreValid(v, level + 1, f);
    }
  }

  // ----- A merge, all in one ------------------------------------------------------------------------

  /** `w` is what installing the merge of a closed plan leaves. */
  ghost predicate Merge(v: Version, w: Version, level: nat, base: seq<File>, next: seq<File>, all: seq<Entry>,
                        floor: nat, outputs: seq<File>)
    requires level + 1 < NUM_LEVELS
  {
    && Ordered(v)
    && ClosedBase(v[level], base)
    && next == Meeting(v[level + 1], Hull(base))
    && IsInputOf(all, base, next)
    && Flatten(outputs) == Kept(all, |all|, floor, v, level)
    && GoodOutputs(v, level, base, next, outputs)
    && Installed(v, w, level, base, next, outputs)
  }

  /** The file that follows the inputs at the next level continues the largest user key of
      the inputs with a value, and the merge drops the deletion that covers it. */
  ghost predicate Resurrects(v: Version, level: nat, next: seq<File>, floor: nat)
    requires level + 1 < NUM_LEVELS
  {
    exists n, k :: Uncovered(v, level, next, floor, n, k)
  }

  ghost predicate Uncovered(v: Version, level: nat, next: seq<File>, floor: nat, n: Entry, k: nat)
    requires level + 1 < NUM_LEVELS
  {
    var files := v[level + 1];
    && InFiles(next, n) && n.key.kind == Deletion
    && IsNewest(Entries(v), n.key.user, floor, n)
    && IsBase(v, level, n.key.user)
    && 0 < k < |files| && files[k - 1] in next && files[k] !in next
    && files[k].entries != []
    && files[k].entries[0].key.user == n.key.user
    && files[k].entries[0].key.kind == Value
  }

  // ----- Where the entries are after the merge --------------------------------------------------

  /** An input entry that the merge keeps is in the new version. */
  lemma KeptSurvives(v: Version, w: Version, level: nat, base: seq<File>, next: seq<File>, all: seq<Entry>, floor: nat,
                     outputs: seq<File>, i: nat)
    requires level + 1 < NUM_LEVELS && i < |all| && Installed(v, w, level, base, next, outputs)
    requires Flatten(outputs) == Kept(all, |all|, floor, v, level)
    ensures Dropped(all, i, floor, v, level) || all[i] in Entries(w)
  {
    if !Dropped(all, i, floor, v, level) {
      InKept(all, |all|, floor, v, level, all[i]);
      InFlatten(outputs, all[i]);
      var o :| o in outputs && all[i] in o.entries;
      assert o in w[level + 1];
    }
  }

  lemma InputIndex(v: Version, w: Version, level: nat, base: seq<File>, next: seq<File>, all: seq<Entry>, floor: nat,
                   outputs: seq<File>, e: Entry) returns (i: nat)
    requires level + 1 < NUM_LEVELS && Merge(v, w, level, base, next, all, floor, outputs)
    requires e in Entries(v) && e !in Entries(w)
    ensures i < |all| && all[i] == e && Dropped(all, i, floor, v, level)
  {
    var l, f :| 0 <= l < NUM_LEVELS && f in v[l] && e in f.entries;
    assert f !in w[l];
    assert InFiles(base, e) || InFiles(next, e);
    i :| 0 <= i < |all| && all[i] == e;
    KeptSurvives(v, w, level, base, next, all, floor, outputs, i);
  }

  /** Below a dropped position of the same key nothing is kept. */
  lemma NothingKeptBelow(all: seq<Entry>, floor: nat, v: Version, level: nat, i: nat, e: Entry)
    requires Sorted(all) && i < |all| && all[i].key.seqno <= floor
    requires e in Kept(all, |all|, floor, v, level) && e.key.user == all[i].key.user
    ensures all[i].key.seqno <= e.key.seqno
  {
    InKept(all, |all|, floor, v, level, e);
    var k: nat :| k < |all| && all[k] == e && !Dropped(all, k, floor, v, level);
    IndexOrder(all, i, k);
    IndexOrder(all, k, i);
    if i < k {
      IndexOrder(all, i, k - 1);
      IndexOrder(all, k - 1, k);
    }
  }

  lemma SharedKeyIsInput(v: Version, level: nat, base: seq<File>, h: File, n: Entry, g: File, y: Entry)
    requires level + 1 < NUM_LEVELS && Ordered(v) && ClosedBase(v[level], base)
    requires h in base && n in h.entries && g in v[level + 1] && y in g.entries && y.key.user == n.key.user
    ensures g in Meeting(v[level + 1], Hull(base))
  {
    forall f | f in base ensures f.Valid() { FilesAreValid(v, level, f); }
    InputInHull(base, n);
    FilesAreValid(v, level + 1, g);
    EntryInBounds(g, y);
    InMeeting(v[level + 1], Hull(base), g);
  }

  lemma AboveIsNewer(v: Version, level: nat, base: seq<File>, next: seq<File>, m: nat, g: File, n: Entry, y: Entry)
    requires level + 1 < NUM_LEVELS && Ordered(v) && ClosedBase(v[level], base)
    requires next == Meeting(v[level + 1], Hull(base))
    requires m <= level && g in v[m] && (m == level ==> g !in base) && y in g.entries
    requires (InFiles(base, n) || InFiles(next, n)) && y.key.user == n.key.user
    ensures n.key.seqno < y.key.seqno
  {
    var h :| (h in base || h in next) && n in h.entries;
    InMeeting(v[level + 1], Hull(base), h);
    if h in next { UpperIsNewer(v, m, level + 1, g, h); } else if m < level { UpperIsNewer(v, m, level, g, h); }
  }

  lemma DeeperIsOther(v: Version, level: nat, m: nat, g: File, y: Entry)
    requires Ordered(v) && level + 2 <= m < NUM_LEVELS && g in v[m] && y in g.entries
    ensures !IsBase(v, level, y.key.user)
  {
    FilesAreValid(v, m, g);
    EntryInBounds(g, y);
    assert RangeHas(g, y.key.user);
  }

  /** An older entry of a key that survives the merge of a visible base-level entry `n` of
      it can only be in a file of the next level that was left out, and then `n` came from
      an input of that level. */
  lemma OlderSurvivor(v: Version, w: Version, level: nat, base: seq<File>, next: seq<File>, all: seq<Entry>, floor: nat,
                      outputs: seq<File>, i: nat, y: Entry) returns (g: File)
    requires level + 1 < NUM_LEVELS && Merge(v, w, level, base, next, all, floor, outputs)
    requires i < |all| && all[i].key.seqno <= floor && IsBase(v, level, all[i].key.user)
    requires y in Entries(w) && y.key.user == all[i].key.user && y.key.seqno < all[i].key.seqno
    ensures InFiles(next, all[i])
    ensures g in v[level + 1] && g !in next && y in g.entries
  {
    var m;
    m, g :| 0 <= m < NUM_LEVELS && g in w[m] && y in g.entries;
    assert InFiles(base, all[i]) || InFiles(next, all[i]);
    if m <= level {
      AboveIsNewer(v, level, base, next, m, g, all[i], y);
    } else if m >= level + 2 {
      DeeperIsOther(v, level, m, g, y);
    } else if g in outputs {
      InFlatten(outputs, y);
      NothingKeptBelow(all, floor, v, level, i, y);
    } else if h :| h in base && all[i] in h.entries {
      SharedKeyIsInput(v, level, base, h, all[i], g, y);
    }
  }

  lemma LeftOutIsAfter(files: seq<File>, a: nat, b: nat, n: Entry, y: Entry)
    requires LevelSorted(files) && UniqueSeqs(LevelEntries(files)) && a < |files| && b < |files| && a != b
    requires n in files[a].entries && y in files[b].entries
    requires y.key.user == n.key.user && y.key.seqno < n.key.seqno
    ensures a < b
  {
    if b < a { EarlierIsNewer(files, b, a); }
  }

  /** Between two files that hold the same user key, a file holds nothing else. */
  lemma BetweenSameKey(files: seq<File>, a: nat, j: nat, b: nat, n: Entry, y: Entry)
    requires LevelSorted(files) && a < j <= b < |files|
    requires n in files[a].entries && y in files[b].entries && y.key.user == n.key.user
    ensures files[j].entries != [] && files[j].smallest == files[j].entries[0].key
    ensures files[j].smallest.user == n.key.user
  {
    LevelOrder(files, a, j);
    LevelOrder(files, j, b);
    EntryInBounds(files[a], n);
    EntryInBounds(files[b], y);
  }

  lemma FirstIsNewest(files: seq<File>, j: nat, b: nat, y: Entry)
    requires LevelSorted(files) && UniqueSeqs(LevelEntries(files)) && j <= b < |files| && y in files[b].entries
    requires files[j].entries != [] && files[j].entries[0].key.user == y.key.user
    ensures y.key.seqno <= files[j].entries[0].key.seqno
  {
    if j < b {
      EarlierIsNewer(files, j, b);
    } else {
      var p :| 0 <= p < |files[j].entries| && files[j].entries[p] == y;
      LevelOrder(files, j, j);
      IndexOrder(files[j].entries, 0, p);
    }
  }

  /** If a left-out file of the next level holds an older entry of a key of an input, then the
      file after the inputs starts with that key, with its newest left-out entry. */
  lemma FollowingFile(files: seq<File>, r: Range, n: Entry, g: File, y: Entry) returns (k: nat)
    requires LevelSorted(files) && UniqueSeqs(LevelEntries(files))
    requires InFiles(Meeting(files, r), n) && g in files && g !in Meeting(files, r) && y in g.entries
    requires y.key.user == n.key.user && y.key.seqno < n.key.seqno
    ensures 0 < k < |files| && files[k - 1] in Meeting(files, r) && files[k] !in Meeting(files, r)
    ensures files[k].entries != [] && files[k].entries[0].key.user == n.key.user
    ensures y.key.seqno <= files[k].entries[0].key.seqno < n.key.seqno
  {
    var i, j := MeetingIsRun(files, r);
    var a, b := InAndOut(files, i, j, n, g);
    LeftOutIsAfter(files, a, b, n, y);
    k := j;
    BetweenSameKey(files, a, k, b, n, y);
    FirstIsNewest(files, k, b, y);
    EarlierIsNewer(files, a, k);
    assert files[k].entries[0] in files[k].entries;
    InRun(files, i, j, k - 1);
    InRun(files, i, j, k);
  }

  lemma InAndOut(files: seq<File>, i: nat, j: nat, n: Entry, g: File) returns (a: nat, b: nat)
    requires LevelSorted(files) && i <= j <= |files| && InFiles(files[i..j], n) && g in files && g !in files[i..j]
    ensures i <= a < j && n in files[a].entries
    ensures b < |files| && files[b] == g && (b < i || j <= b)
  {
    var h :| h in files[i..j] && n in h.entries;
    a :| i <= a < j && files[a] == h;
    b :| 0 <= b < |files| && files[b] == g;
    InRun(files, i, j, b);
  }

  // ----- Reads ---------------------------------------------------------------------------------------

  lemma UniqueSubset(es: set<Entry>, fs: set<Entry>)
    requires UniqueSeqs(es) && fs <= es
    ensures UniqueSeqs(fs)
  {
  }

  /** If a read loses the entry that answered it, that entry was a deletion that every reader
      sees, and nothing below it may answer in its place except an uncovered value. */
  lemma LostEntryWasObsolete(v: Version, w: Version, level: nat, base: seq<File>, next: seq<File>, all: seq<Entry>,
                             floor: nat, outputs: seq<File>, u: UserKey, s: nat, n: Entry) returns (i: nat)
    requires level + 1 < NUM_LEVELS && Merge(v, w, level, base, next, all, floor, outputs) && Entries(w) <= Entries(v)
    requires floor <= s && IsNewest(Entries(v), u, s, n) && n !in Entries(w)
    ensures i < |all| && all[i] == n && n.key.kind == Deletion && n.key.seqno <= floor && IsBase(v, level, u)
  {
    i := InputIndex(v, w, level, base, next, all, floor, outputs, n);
    NewestIsNotHidden(v, level, base, next, all, floor, u, s, i);
  }

  lemma NewestIsNotHidden(v: Version, level: nat, base: seq<File>, next: seq<File>, all: seq<Entry>, floor: nat,
                          u: UserKey, s: nat, i: nat)
    requires level + 1 < NUM_LEVELS && UniqueSeqs(Entries(v)) && IsInputOf(all, base, next)
    requires ClosedBase(v[level], base) && next == Meeting(v[level + 1], Hull(base))
    requires floor <= s && i < |all| && IsNewest(Entries(v), u, s, all[i])
    ensures !Hidden(all, i, floor)
  {
    if 0 < i {
      IndexOrder(all, i - 1, i);
      assert all[i - 1] in all;
      InputIsEntry(v, level, base, next, all[i - 1]);
    }
  }

  lemma InputIsEntry(v: Version, level: nat, base: seq<File>, next: seq<File>, e: Entry)
    requires level + 1 < NUM_LEVELS && ClosedBase(v[level], base) && next == Meeting(v[level + 1], Hull(base))
    requires InFiles(base, e) || InFiles(next, e)
    ensures e in Entries(v)
  {
    if InFiles(base, e) {
      var f :| f in base && e in f.entries;
      assert f in v[level];
    } else {
      var f :| f in next && e in f.entries;
      InMeeting(v[level + 1], Hull(base), f);
    }
  }

  /** The newest entry that survives in place of a lost one is the first entry of the file
      that follows the inputs at the next level. */
  lemma SuccessorFollowsInputs(v: Version, w: Version, level: nat, base: seq<File>, next: seq<File>, all: seq<Entry>,
                               floor: nat, outputs: seq<File>, u: UserKey, s: nat, n: Entry, i: nat,
                               y: Entry) returns (k: nat)
    requires level + 1 < NUM_LEVELS && Merge(v, w, level, base, next, all, floor, outputs) && Entries(w) <= Entries(v)
    requires floor <= s && IsNewest(Entries(v), u, s, n) && n !in Entries(w)
    requires i < |all| && all[i] == n && n.key.seqno <= floor && IsBase(v, level, u)
    requires IsNewest(Entries(w), u, s, y)
    ensures InFiles(next, n)
    ensures var files := v[level + 1];
            0 < k < |files| && files[k - 1] in next && files[k] !in next && files[k].entries != []
                && files[k].entries[0] == y
  {
    assert y.key.seqno <= n.key.seqno && y != n;
    var g := OlderSurvivor(v, w, level, base, next, all, floor, outputs, i, y);
    LevelIsSorted(v, level + 1);
    LevelUnique(v, level + 1);
    k := FollowingFile(v[level + 1], Hull(base), n, g, y);
    var f := v[level + 1][k];
    assert f in w[level + 1] && f.entries[0] in f.entries;
    assert f.entries[0] in Entries(w) && Visible(f.entries[0], u, s);
    assert f.entries[0].key.seqno == y.key.seqno;
    UniqueSubset(Entries(v), Entries(w));
  }

  lemma SameNewestSameReads(a: set<Entry>, b: set<Entry>, floor: nat)
    requires UniqueSeqs(a) && b <= a
    requires forall u, s, n | floor <= s && IsNewest(a, u, s, n) && n !in b ::
               n.key.kind == Deletion && forall y | IsNewest(b, u, s, y) :: y.key.kind == Deletion
    ensures SameReads(a, b, floor)
  {
    UniqueSubset(a, b);
    forall u, s, r | floor <= s ensures Answers(a, u, s, r) <==> Answers(b, u, s, r) {
      if w :| w in a && Visible(w, u, s) {
        var n := NewestExists(a, u, s, w);
        AnswerFromNewest(a, u, s, n);
        if n in b {
          assert IsNewest(b, u, s, n);
          AnswerFromNewest(b, u, s, n);
          SameAnswer(a, b, u, s, if n.key.kind == Value then Some(n.value) else None, r);
        } else {
          assert Answers(b, u, s, None);
          SameAnswer(a, b, u, s, None, r);
        }
      } else {
        assert Answers(a, u, s, None) && Answers(b, u, s, None);
        SameAnswer(a, b, u, s, None, r);
      }
    }
  }

  lemma SameAnswer(a: set<Entry>, b: set<Entry>, u: UserKey, s: nat, r: Option<Blob>, r': Option<Blob>)
    requires UniqueSeqs(a) && UniqueSeqs(b) && Answers(a, u, s, r) && Answers(b, u, s, r)
    ensures Answers(a, u, s, r') <==> Answers(b, u, s, r')
  {
    if Answers(a, u, s, r') { AnswerIsUnique(a, u, s, r, r'); }
    if Answers(b, u, s, r') { AnswerIsUnique(b, u, s, r, r'); }
  }

  /** Without an uncovered value every read at the smallest snapshot or later is preserved. */
  lemma ReadsArePreserved(v: Version, w: Version, level: nat, base: seq<File>, next: seq<File>, all: seq<Entry>,
                          floor: nat, outputs: seq<File>)
    requires level + 1 < NUM_LEVELS && Merge(v, w, level, base, next, all, floor, outputs)
    requires !Resurrects(v, level, next, floor)
    ensures SameReads(Entries(v), Entries(w), floor)
  {
    InstallKeepsOrder(v, w, level, base, next, outputs);
    forall u, s, n | floor <= s && IsNewest(Entries(v), u, s, n) && n !in Entries(w)
      ensures n.key.kind == Deletion && forall y | IsNewest(Entries(w), u, s, y) :: y.key.kind == Deletion
    {
      var i := LostEntryWasObsolete(v, w, level, base, next, all, floor, outputs, u, s, n);
      forall y | IsNewest(Entries(w), u, s, y) ensures y.key.kind == Deletion {
        var k := SuccessorFollowsInputs(v, w, level, base, next, all, floor, outputs, u, s, n, i, y);
        assert IsNewest(Entries(v), u, floor, n);
        assert !Uncovered(v, level, next, floor, n, k);
      }
    }
    SameNewestSameReads(Entries(v), Entries(w), floor);
  }

  // ----- When reads do change ---------------------------------------------------------------------

  /** An entry of an ordered version lies in one file. */
  lemma EntryInOneFile(v: Version, l: nat, f: File, m: nat, g: File, e: Entry)
    requires Ordered(v) && l < NUM_LEVELS && m < NUM_LEVELS && f in v[l] && g in v[m] && e in f.entries
             && e in g.entries
    ensures l == m && f == g
  {
    if l < m {
      UpperIsNewer(v, l, m, f, g);
    } else if m < l {
      UpperIsNewer(v, m, l, g, f);
    } else if l == 0 {
      assert NumbersApart(v, 0, 0);
      assert f.number > g.number ==> NewerThan(f, g);
      assert g.number > f.number ==> NewerThan(g, f);
    } else {
      LevelIsSorted(v, l);
      SortedIsApart(v[l]);
      EntryInBounds(f, e);
      EntryInBounds(g, e);
      assert f != g ==> Apart(f, g);
    }
  }

  lemma ObsoleteIsGone(v: Version, w: Version, level: nat, base: seq<File>, next: seq<File>, all: seq<Entry>,
                       floor: nat, outputs: seq<File>, i: nat)
    requires level + 1 < NUM_LEVELS && Merge(v, w, level, base, next, all, floor, outputs)
    requires i < |all| && Obsolete(all, i, floor, v, level) && InFiles(next, all[i])
    ensures all[i] !in Entries(w)
  {
    forall m, g | 0 <= m < NUM_LEVELS && g in w[m] ensures all[i] !in g.entries {
      if m == level + 1 && g in outputs {
        DroppedNotWritten(all, floor, v, level, outputs, i, g);
      } else {
        NotElsewhere(v, w, level, base, next, outputs, all[i], m, g);
      }
    }
  }

  lemma NotElsewhere(v: Version, w: Version, level: nat, base: seq<File>, next: seq<File>, outputs: seq<File>, e: Entry,
                     m: nat, g: File)
    requires level + 1 < NUM_LEVELS && Ordered(v) && Installed(v, w, level, base, next, outputs) && base != []
    requires next == Meeting(v[level + 1], Hull(base)) && InFiles(next, e)
    requires m < NUM_LEVELS && g in w[m] && (m == level + 1 ==> g !in outputs)
    ensures e !in g.entries
  {
    var h :| h in next && e in h.entries;
    InMeeting(v[level + 1], Hull(base), h);
    assert g in v[m] && (m == level + 1 ==> g !in next);
    if e in g.entries {
      EntryInOneFile(v, level + 1, h, m, g, e);
    }
  }

  lemma DroppedNotWritten(all: seq<Entry>, floor: nat, v: Version, level: nat, outputs: seq<File>, i: nat, o: File)
    requires Sorted(all) && Flatten(outputs) == Kept(all, |all|, floor, v, level)
    requires i < |all| && Dropped(all, i, floor, v, level) && o in outputs
    ensures all[i] !in o.entries
  {
    InFlatten(outputs, all[i]);
    InKept(all, |all|, floor, v, level, all[i]);
    forall k: nat | k < |all| && all[k] == all[i] ensures k == i { IndexOrder(all, k, i); }
  }

  lemma FollowingIndexIsUnique(files: seq<File>, r: Range, j: nat, k: nat)
    requires LevelSorted(files) && 0 < j < |files| && 0 < k < |files|
    requires files[j - 1] in Meeting(files, r) && files[j] !in Meeting(files, r)
    requires files[k - 1] in Meeting(files, r) && files[k] !in Meeting(files, r)
    ensures j == k
  {
    var a, b := MeetingIsRun(files, r);
    InRun(files, a, b, j - 1);
    InRun(files, a, b, j);
    InRun(files, a, b, k - 1);
    InRun(files, a, b, k);
  }

  lemma FollowingIsOlder(files: seq<File>, r: Range, n: Entry, k: nat)
    requires LevelSorted(files) && UniqueSeqs(LevelEntries(files)) && InFiles(Meeting(files, r), n)
    requires 0 < k < |files| && files[k - 1] in Meeting(files, r) && files[k] !in Meeting(files, r)
    requires files[k].entries != [] && files[k].entries[0].key.user == n.key.user
    ensures files[k].entries[0].key.seqno < n.key.seqno
  {
    var i, j := MeetingIsRun(files, r);
    var a, b := InAndOut(files, i, j, n, files[k]);
    InRun(files, i, j, k - 1);
    InRun(files, i, j, k);
    EarlierIsNewer(files, a, k);
    assert files[k].entries[0] in files[k].entries;
  }

  /** The uncovered value is what the new version answers at the smallest snapshot. */
  lemma UncoveredAnswers(v: Version, w: Version, level: nat, base: seq<File>, next: seq<File>, all: seq<Entry>,
                         floor: nat, outputs: seq<File>, n: Entry, k: nat)
    requires level + 1 < NUM_LEVELS && Merge(v, w, level, base, next, all, floor, outputs) && Entries(w) <= Entries(v)
    requires Uncovered(v, level, next, floor, n, k)
    ensures IsNewest(Entries(w), n.key.user, floor, v[level + 1][k].entries[0])
  {
    var files, x := v[level + 1], v[level + 1][k].entries[0];
    LevelIsSorted(v, level + 1);
    LevelUnique(v, level + 1);
    FollowingIsOlder(files, Hull(base), n, k);
    assert files[k] in w[level + 1] && x in files[k].entries;
    var i: nat :| i < |all| && all[i] == n;
    ObsoleteIsGone(v, w, level, base, next, all, floor, outputs, i);
    forall y | y in Entries(w) && Visible(y, n.key.user, floor) ensures y.key.seqno <= x.key.seqno {
      assert y in Entries(v) && n in Entries(v) && y != n;
      var g := OlderSurvivor(v, w, level, base, next, all, floor, outputs, i, y);
      var j := FollowingFile(files, Hull(base), n, g, y);
      FollowingIndexIsUnique(files, Hull(base), j, k);
    }
  }

  lemma ReadsChange(v: Version, w: Version, level: nat, base: seq<File>, next: seq<File>, all: seq<Entry>, floor: nat,
                    outputs: seq<File>, n: Entry, k: nat)
    requires level + 1 < NUM_LEVELS && Merge(v, w, level, base, next, all, floor, outputs) && Entries(w) <= Entries(v)
    requires Uncovered(v, level, next, floor, n, k)
    ensures !SameReads(Entries(v), Entries(w), floor)
  {
    UncoveredAnswers(v, w, level, base, next, all, floor, outputs, n, k);
    DifferentAnswers(Entries(v), Entries(w), n.key.user, floor, n, v[level + 1][k].entries[0]);
  }

  lemma DifferentAnswers(a: set<Entry>, b: set<Entry>, u: UserKey, floor: nat, n: Entry, x: Entry)
    requires UniqueSeqs(a) && b <= a
    requires IsNewest(a, u, floor, n) && n.key.kind == Deletion
    requires IsNewest(b, u, floor, x) && x.key.kind == Value
    ensures !SameReads(a, b, floor)
  {
    UniqueSubset(a, b);
    AnswerFromNewest(a, u, floor, n);
    AnswerFromNewest(b, u, floor, x);
    assert !Answers(b, u, floor, None);
  }

  /** A merging compaction preserves every read at or after the smallest snapshot exactly when
      it uncovers no value in the file that follows its inputs at the next level. */
  lemma CompactionPreservesReadsIff(v: Version, w: Version, level: nat, base: seq<File>, next: seq<File>,
                                    all: seq<Entry>, floor: nat, outputs: seq<File>)
    requires level + 1 < NUM_LEVELS && Merge(v, w, level, base, next, all, floor, outputs)
    ensures SameReads(Entries(v), Entries(w), floor) <==> !Resurrects(v, level, next, floor)
  {
    if Resurrects(v, level, next, floor) {
      InstallKeepsOrder(v, w, level, base, next, outputs);
      var n, k :| Uncovered(v, level, next, floor, n, k);
      ReadsChange(v, w, level, base, next, all, floor, outputs, n, k);
    } else {
      ReadsArePreserved(v, w, level, base, next, all, floor, outputs);
    }
  }
}
