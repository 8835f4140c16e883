/** A version: the table files of every level, what keeps its levels in order, and the
    lookup that stops at the first level that knows the key. */
module Versions {
  import opened Keys
  import opened Files

  const NUM_LEVELS: nat := 7

  type Version = v: seq<seq<File>> | |v| == NUM_LEVELS witness [[], [], [], [], [], [], []]

  /** All entries of the files of one level. */
  ghost function LevelEntries(files: seq<File>): set<Entry> {
    set f, e | f in files && e in f.entries :: e
  }

  ghost function EntriesFrom(v: Version, l: nat): set<Entry> {
    set m, f, e | l <= m < NUM_LEVELS && f in v[m] && e in f.entries :: e
  }

  ghost function Entries(v: Version): set<Entry> {
    EntriesFrom(v, 0)
  }

  /** Wherever the two files share a user key, `f` holds the newer entries. */
  ghost predicate NewerThan(f: File, g: File) {
    forall a, b | a in f.entries && b in g.entries && a.key.user == b.key.user :: a.key.seqno > b.key.seqno
  }

  ghost predicate AllNewer(fs: seq<File>, gs: seq<File>) {
    forall f, g | f in fs && g in gs :: NewerThan(f, g)
  }

  ghost predicate SortedAt(v: Version, l: nat)
    requires l < NUM_LEVELS
  {
    LevelSorted(v[l])
  }

  ghost predicate NewerAbove(v: Version, l: nat, m: nat)
    requires l < NUM_LEVELS && m < NUM_LEVELS
  {
    AllNewer(v[l], v[m])
  }

  ghost predicate Differ(files: seq<File>, i: nat, j: nat)
    requires i < |files| && j < |files|
  {
    files[i].number != files[j].number
  }

  ghost predicate DistinctFiles(files: seq<File>) {
    forall i, j | 0 <= i < j < |files| :: Differ(files, i, j)
  }

  lemma DistinctSlice(files: seq<File>, i: nat, j: nat)
    requires DistinctFiles(files) && i <= j <= |files|
    ensures DistinctFiles(files[i..j])
  {
    forall a, b | 0 <= a < b < j - i ensures Differ(files[i..j], a, b) { assert Differ(files, i + a, i + b); }
  }

  /** Files of level 0 may overlap; their numbers tell their age. */
  ghost predicate Level0Ordered(files: seq<File>) {
    && ValidFiles(files)
    && FilesSorted(files)
    && DistinctFiles(files)
    && (forall f, g | f in files && g in files && f.number > g.number :: NewerThan(f, g))
  }

  ghost predicate NumbersApart(v: Version, l: nat, m: nat)
    requires l < NUM_LEVELS && m < NUM_LEVELS
  {
    forall f, g | f in v[l] && g in v[m] && f.number == g.number :: l == m && f == g
  }

  /** No file number is used twice in a version. */
  ghost predicate DistinctNumbers(v: Version) {
    forall l, m | 0 <= l < NUM_LEVELS && 0 <= m < NUM_LEVELS :: NumbersApart(v, l, m)
  }

  /** The invariant of every installed version. */
  ghost predicate Ordered(v: Version) {
    && Level0Ordered(v[0])
    && (forall l | 1 <= l < NUM_LEVELS :: SortedAt(v, l))
    && (forall l, m | 0 <= l < m < NUM_LEVELS :: NewerAbove(v, l, m))
    && UniqueSeqs(Entries(v))
    && DistinctNumbers(v)
  }

  lemma LevelIsSorted(v: Version, l: nat)
    requires Ordered(v) && 1 <= l < NUM_LEVELS
    ensures LevelSorted(v[l])
  {
    assert SortedAt(v, l);
  }

  lemma FilesAreValid(v: Version, l: nat, f: File)
    requires Ordered(v) && l < NUM_LEVELS && f in v[l]
    ensures f.Valid()
  {
    if l > 0 { LevelIsSorted(v, l); }
  }

  lemma UpperIsNewer(v: Version, l: nat, m: nat, f: File, g: File)
    requires Ordered(v) && l < m < NUM_LEVELS && f in v[l] && g in v[m]
    ensures NewerThan(f, g)
  {
    assert NewerAbove(v, l, m);
  }

  // ----- Lookup -----------------------------------------------------------------------------

  predicate RangeHas(f: File, u: UserKey) {
    f.smallest.user <= u <= f.largest.user
  }

  ghost predicate NoneVisible(f: File, u: UserKey, s: nat) {
    forall e | e in f.entries :: !Visible(e, u, s)
  }

  datatype SaverState = NotFound | Found(value: Blob) | Deleted

  /** Seek in one sorted run and keep the entry under the cursor if it is for the sought key. */
  function RunGet(es: seq<Entry>, u: UserKey, s: nat): SaverState
    requires Sorted(es)
  {
    var i := LowerBound(es, SeekKey(u, s));
    if i < |es| && es[i].key.user == u then
      if es[i].key.kind == Value then Found(es[i].value) else Deleted
    else NotFound
  }

  function TableGet(f: File, u: UserKey, s: nat): SaverState
    requires Sorted(f.entries)
  {
    RunGet(f.entries, u, s)
  }

  lemma TableMiss(f: File, u: UserKey, s: nat)
    requires Sorted(f.entries) && TableGet(f, u, s).NotFound?
    ensures NoneVisible(f, u, s)
  {
    SeekFindsNewest(f.entries, u, s);
  }

  lemma OutOfRange(f: File, u: UserKey, s: nat)
    requires f.Valid() && !RangeHas(f, u)
    ensures NoneVisible(f, u, s)
  {
    forall e | e in f.entries ensures !Visible(e, u, s) { EntryInBounds(f, e); }
  }

  ghost predicate Younger(files: seq<File>, i: nat, j: nat)
    requires i < |files| && j < |files|
  {
    files[i].number > files[j].number
  }

  ghost predicate Descending(files: seq<File>) {
    forall i, j | 0 <= i < j < |files| :: Younger(files, i, j)
  }

  function InsertByAge(files: seq<File>, f: File): (out: seq<File>)
    requires Descending(files)
    requires forall g | g in files :: g.number != f.number
    ensures Descending(out)
    ensures forall g :: g in out <==> g == f || g in files
    ensures out != [] && (out[0] == f || (files != [] && out[0] == files[0]))
  {
    if files == [] then [f]
    else if files[0].number < f.number then
      DescendingCons(f, files);
      [f] + files
    else
      DescendingRest(files);
      var rest := InsertByAge(files[1..], f);
      DescendingCons(files[0], rest);
      [files[0]] + rest
  }

  lemma DescendingCons(f: File, files: seq<File>)
    requires Descending(files) && files != [] && f.number > files[0].number
    ensures Descending([f] + files)
  {
    forall i, j | 0 <= i < j < |files| + 1 ensures Younger([f] + files, i, j) {
      if j > 1 { assert Younger(files, 0, j - 1); }
      if i > 0 { assert Younger(files, i - 1, j - 1); }
    }
  }

  lemma DescendingRest(files: seq<File>)
    requires Descending(files) && files != []
    ensures Descending(files[1..]) && files == [files[0]] + files[1..]
    ensures |files| > 1 ==> files[0].number > files[1].number
  {
    forall i, j | 0 <= i < j < |files| - 1 ensures Younger(files[1..], i, j) { assert Younger(files, i + 1, j + 1); }
    if |files| > 1 { assert Younger(files, 0, 1); }
  }

  lemma DistinctRest(files: seq<File>)
    requires DistinctFiles(files) && files != []
    ensures DistinctFiles(files[1..]) && files == [files[0]] + files[1..]
    ensures forall g | g in files[1..] :: g.number != files[0].number
  {
    DistinctSlice(files, 1, |files|);
    assert files[1..|files|] == files[1..];
    assert files == [files[0]] + files[1..];
    forall g | g in files[1..] ensures g.number != files[0].number {
      var j :| 1 <= j < |files| && files[j] == g;
      assert Differ(files, 0, j);
    }
  }

  /** The order in which level 0 is searched. */
  function NewestFirst(files: seq<File>): (out: seq<File>)
    requires DistinctFiles(files)
    ensures Descending(out)
    ensures forall g :: g in out <==> g in files
  {
    if files == [] then []
    else
      DistinctRest(files);
      InsertByAge(NewestFirst(files[1..]), files[0])
  }

  /** In a sorted level, an earlier file is newer wherever it shares a user key. */
  lemma EarlierIsNewer(files: seq<File>, i: nat, j: nat)
    requires LevelSorted(files) && UniqueSeqs(LevelEntries(files))
    requires i < j < |files|
    ensures NewerThan(files[i], files[j])
  {
    forall a, b | a in files[i].entries && b in files[j].entries && a.key.user == b.key.user
      ensures a.key.seqno > b.key.seqno
    {
      EntryInBounds(files[i], a);
      EntryInBounds(files[j], b);
      LevelOrder(files, i, j);
      assert a in LevelEntries(files) && b in LevelEntries(files);
    }
  }

  /** A file of the level that a lookup may leave unopened. */
  ghost predicate Skippable(f: File, looked: seq<File>, u: UserKey, s: nat) {
    NoneVisible(f, u, s) || exists g :: g in looked && !NoneVisible(g, u, s) && NewerThan(g, f)
  }

  ghost predicate NewerAt(files: seq<File>, i: nat, j: nat)
    requires i < |files| && j < |files|
  {
    NewerThan(files[i], files[j])
  }

  ghost predicate EarlierNewer(files: seq<File>) {
    forall i, j | 0 <= i < j < |files| :: NewerAt(files, i, j)
  }

  /** The files of level 0 whose range has the key, newest first. */
  method Level0ToSearch(files: seq<File>, u: UserKey, s: nat) returns (out: seq<File>)
    requires Level0Ordered(files)
    ensures forall f | f in out :: f in files
    ensures forall f | f in files && f !in out :: Skippable(f, out, u, s)
    ensures EarlierNewer(out)
  {
    var tmp := [];
    for i := 0 to |files|
      invariant tmp == Meeting(files[..i], Between(u, u))
    {
      assert files[..i + 1][..i] == files[..i];
      if u >= files[i].smallest.user && u <= files[i].largest.user {
        tmp := tmp + [files[i]];
      }
    }
    assert files[..|files|] == files;
    MeetingStaysDistinct(files, Between(u, u));
    out := NewestFirst(tmp);
    forall f ensures f in out <==> f in files && RangeHas(f, u) {
      InMeeting(files, Between(u, u), f);
    }
    forall i, j | 0 <= i < j < |out| ensures NewerAt(out, i, j) {
      assert Younger(out, i, j);
    }
    forall f | f in files && f !in out ensures Skippable(f, out, u, s) {
      OutOfRange(f, u, s);
    }
  }

  lemma {:induction false} MeetingStaysDistinct(files: seq<File>, r: Range)
    requires DistinctFiles(files)
    ensures DistinctFiles(Meeting(files, r))
  {
    if files != [] {
      var n := |files| - 1;
      DistinctSlice(files, 0, n);
      MeetingStaysDistinct(files[..n], r);
      forall f | f in Meeting(files[..n], r) ensures f.number != files[n].number {
        InMeeting(files[..n], r, f);
        var i :| 0 <= i < n && files[i] == f;
        assert Differ(files, i, n);
      }
      var out := Meeting(files, r);
      forall a, b | 0 <= a < b < |out| ensures Differ(out, a, b) {
        if b < |Meeting(files[..n], r)| { assert Differ(Meeting(files[..n], r), a, b); }
      }
    }
  }

  /** The one file of a sorted level that can hold the newest visible entry of the key. */
  method LevelToSearch(files: seq<File>, u: UserKey, s: nat) returns (out: seq<File>)
    requires LevelSorted(files) && UniqueSeqs(LevelEntries(files))
    ensures |out| <= 1 && forall f | f in out :: f in files
    ensures forall f | f in files && f !in out :: Skippable(f, out, u, s)
  {
    out := [];
    var index := FindFile(files, SeekKey(u, s));
    if index < |files| {
      if u < files[index].smallest.user {
      } else {
        out := [files[index]];
      }
    }
    forall f | f in files && f !in out ensures Skippable(f, out, u, s) {
      var i :| 0 <= i < |files| && files[i] == f;
      if i < index {
        BeforeSought(f, u, s);
      } else if out == [] {
        if i == index { OutOfRange(f, u, s); } else { BeyondSought(files, index, i, u, s); }
      } else {
        BeyondSought(files, index, i, u, s);
        assert NoneVisible(f, u, s) || Skippable(f, [files[index]], u, s);
      }
    }
  }

  lemma BeforeSought(f: File, u: UserKey, s: nat)
    requires f.Valid() && Less(f.largest, SeekKey(u, s))
    ensures NoneVisible(f, u, s)
  {
    forall e | e in f.entries ensures !Visible(e, u, s) { EntryInBounds(f, e); }
  }

  /** Past the file that a seek to (u, s) selects, `u` has no entries, or older ones than
      a visible entry of that file. */
  lemma BeyondSought(files: seq<File>, index: nat, i: nat, u: UserKey, s: nat)
    requires LevelSorted(files) && UniqueSeqs(LevelEntries(files))
    requires index < i < |files|
    requires !Less(files[index].largest, SeekKey(u, s))
    ensures Skippable(files[i], [files[index]], u, s)
    ensures u < files[index].smallest.user ==> NoneVisible(files[i], u, s)
  {
    var f := files[index];
    LevelOrder(files, index, i);
    if f.largest.user == u {
      assert Visible(f.entries[|f.entries| - 1], u, s);
      EarlierIsNewer(files, index, i);
      assert f in [f] && !NoneVisible(f, u, s);
    } else {
      forall e | e in files[i].entries ensures !Visible(e, u, s) { EntryInBounds(files[i], e); }
    }
  }

  // ----- The level-by-level search ------------------------------------------------------

  ghost predicate Missed(fs: seq<File>, u: UserKey, s: nat) {
    forall f | f in fs :: NoneVisible(f, u, s)
  }

  /** The first level that knows the key decides: its newest visible entry is the newest of
      the version. */
  method Get(v: Version, u: UserKey, s: nat) returns (r: Option<Blob>)
    requires Ordered(v)
    ensures Answers(Entries(v), u, s, r)
  {
    for level := 0 to NUM_LEVELS
      invariant forall l | 0 <= l < level :: Missed(v[l], u, s)
    {
      LevelUnique(v, level);
      var files;
      if level == 0 {
        files := Level0ToSearch(v[level], u, s);
      } else {
        LevelIsSorted(v, level);
        files := LevelToSearch(v[level], u, s);
      }
      forall f | f in files ensures f.Valid() { FilesAreValid(v, level, f); }
      var state, i := SearchFiles(files, u, s);
      match state {
        case NotFound => LevelMissed(v[level], files, u, s);
        case Found(value) =>
          HitDecides(v, level, files, i, u, s);
          return Some(value);
        case Deleted =>
          HitDecides(v, level, files, i, u, s);
          return None;
      }
    }
    NothingVisible(v, u, s);
    r := None;
  }

  /** Opens the selected files one by one until one of them has an entry for the key. */
  method SearchFiles(files: seq<File>, u: UserKey, s: nat) returns (state: SaverState, ghost i: nat)
    requires ValidFiles(files)
    ensures state.NotFound? ==> Missed(files, u, s)
    ensures !state.NotFound? ==> i < |files| && files[i].Valid() && state == TableGet(files[i], u, s)
    ensures !state.NotFound? ==> forall j | 0 <= j < i :: NoneVisible(files[j], u, s)
  {
    i := 0;
    for k := 0 to |files|
      invariant forall j | 0 <= j < k :: NoneVisible(files[j], u, s)
    {
      assert files[k] in files;
      state := TableGet(files[k], u, s);
      if !state.NotFound? {
        i := k;
        return;
      }
      TableMiss(files[k], u, s);
    }
    state := NotFound;
  }

  lemma LevelMissed(files: seq<File>, looked: seq<File>, u: UserKey, s: nat)
    requires Missed(looked, u, s)
    requires forall f | f in files && f !in looked :: Skippable(f, looked, u, s)
    ensures Missed(files, u, s)
  {
  }

  lemma NothingVisible(v: Version, u: UserKey, s: nat)
    requires forall l | 0 <= l < NUM_LEVELS :: Missed(v[l], u, s)
    ensures Answers(Entries(v), u, s, None)
  {
    forall e | e in Entries(v) ensures !Visible(e, u, s) {
      var l, f :| 0 <= l < NUM_LEVELS && f in v[l] && e in f.entries;
      assert Missed(v[l], u, s) && NoneVisible(f, u, s);
    }
  }

  lemma LevelUnique(v: Version, l: nat)
    requires l < NUM_LEVELS && UniqueSeqs(Entries(v))
    ensures UniqueSeqs(LevelEntries(v[l]))
  {
    assert LevelEntries(v[l]) <= Entries(v);
  }

  lemma HitDecides(v: Version, l: nat, looked: seq<File>, i: nat, u: UserKey, s: nat)
    requires Ordered(v) && l < NUM_LEVELS && i < |looked|
    requires forall m | 0 <= m < l :: Missed(v[m], u, s)
    requires forall f | f in looked :: f in v[l]
    requires forall f | f in v[l] && f !in looked :: Skippable(f, looked, u, s)
    requires EarlierNewer(looked)
    requires forall j | 0 <= j < i :: NoneVisible(looked[j], u, s)
    requires looked[i].Valid() && !TableGet(looked[i], u, s).NotFound?
    ensures Answers(Entries(v), u, s, if TableGet(looked[i], u, s).Found? then Some(TableGet(looked[i], u, s).value)
            else None)
  {
    var f := looked[i];
    SeekFindsNewest(f.entries, u, s);
    var hit := f.entries[LowerBound(f.entries, SeekKey(u, s))];
    assert f in looked && hit in f.entries && hit in Entries(v);
    forall m, g, e | 0 <= m < NUM_LEVELS && g in v[m] && e in g.entries && Visible(e, u, s)
      ensures e.key.seqno <= hit.key.seqno
    {
      if m == l {
        HitBeatsLevel(v[l], looked, i, u, s, hit, g, e);
      } else if l < m {
        UpperIsNewer(v, l, m, f, g);
      }
    }
    assert IsNewest(Entries(v), u, s, hit);
    AnswerFromNewest(Entries(v), u, s, hit);
  }

  lemma HitBeatsLevel(files: seq<File>, looked: seq<File>, i: nat, u: UserKey, s: nat, hit: Entry, g: File, e: Entry)
    requires i < |looked| && g in files && e in g.entries && Visible(e, u, s)
    requires IsNewest(Elements(looked[i].entries), u, s, hit)
    requires forall f | f in files && f !in looked :: Skippable(f, looked, u, s)
    requires EarlierNewer(looked)
    requires forall j | 0 <= j < i :: NoneVisible(looked[j], u, s)
    ensures e.key.seqno <= hit.key.seqno
  {
    if g in looked {
      HitBeatsLooked(looked, i, u, s, hit, g, e);
    } else {
      var h :| h in looked && !NoneVisible(h, u, s) && NewerThan(h, g);
      var x :| x in h.entries && Visible(x, u, s);
      HitBeatsLooked(looked, i, u, s, hit, h, x);
    }
  }

  lemma HitBeatsLooked(looked: seq<File>, i: nat, u: UserKey, s: nat, hit: Entry, g: File, e: Entry)
    requires i < |looked| && g in looked && e in g.entries && Visible(e, u, s)
    requires IsNewest(Elements(looked[i].entries), u, s, hit)
    requires EarlierNewer(looked)
    requires forall j | 0 <= j < i :: NoneVisible(looked[j], u, s)
    ensures e.key.seqno <= hit.key.seqno
  {
    var k :| 0 <= k < |looked| && looked[k] == g;
    if k == i {
      assert e in Elements(looked[i].entries);
    } else {
      assert i < k && NewerAt(looked, i, k);
    }
  }
}
