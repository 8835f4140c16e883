/** The loop of a compaction: where one output table ends and the next begins. */
module CompactionWork {
  import opened Keys
  import opened Files
  import opened Versions
  import opened Merging
  import opened Compact

  /** The bytes in the file of an open table with these entries, and of the finished table. */
  datatype Sizes = Sizes(written: seq<Entry> -> nat, finished: seq<Entry> -> nat)

  /** What the loop works with. */
  datatype Work = Work(all: seq<Entry>, floor: nat, version: Version, level: nat,
                       grandparents: seq<File>, maxOverlap: nat, maxOutput: nat, sizes: Sizes)

  /** The tables so far: those that are finished, and the entries of the one that is open. */
  datatype Tables = Tables(done: seq<seq<Entry>>, current: seq<Entry>)

  function Close(t: Tables): Tables {
    if t.current == [] then t else Tables(t.done + [t.current], [])
  }

  /** The scan of the grandparents after the first `n` keys. */
  function ScanAfter(w: Work, n: nat): (s: Scan)
    requires n <= |w.all|
    ensures s.index <= |w.grandparents|
  {
    if n == 0 then Scan(0, false, 0) else ScanTo(w.grandparents, w.maxOverlap, ScanAfter(w, n - 1), w.all[n - 1].key)
  }

  predicate StopsBefore(w: Work, n: nat)
    requires n < |w.all|
  {
    BytesTo(w.grandparents, ScanAfter(w, n), w.all[n].key) > w.maxOverlap
  }

  function StoppedBefore(w: Work, n: nat, t: Tables): Tables
    requires n < |w.all|
  {
    if StopsBefore(w, n) then Close(t) else t
  }

  /** A table that has become large enough is closed. */
  function WithEntry(w: Work, t: Tables, e: Entry): Tables {
    var u := Tables(t.done, t.current + [e]);
    if w.sizes.written(u.current) >= w.maxOutput then Close(u) else u
  }

  ghost function Step(w: Work, n: nat, t: Tables): Tables
    requires n < |w.all|
  {
    var s := StoppedBefore(w, n, t);
    if Dropped(w.all, n, w.floor, w.version, w.level) then s else WithEntry(w, s, w.all[n])
  }

  ghost function TablesAfter(w: Work, n: nat): Tables
    requires n <= |w.all|
  {
    if n == 0 then Tables([], []) else Step(w, n - 1, TablesAfter(w, n - 1))
  }

  ghost function OutputTables(w: Work): seq<seq<Entry>> {
    Close(TablesAfter(w, |w.all|)).done
  }

  // ----- What the tables hold -----------------------------------------------------------------------

  function Concat(tables: seq<seq<Entry>>): seq<Entry> {
    if tables == [] then [] else Concat(tables[..|tables| - 1]) + tables[|tables| - 1]
  }

  function Contents(t: Tables): seq<Entry> {
    Concat(t.done) + t.current
  }

  lemma ConcatMore(tables: seq<seq<Entry>>, table: seq<Entry>)
    ensures Concat(tables + [table]) == Concat(tables) + table
  {
    assert (tables + [table])[..|tables|] == tables;
  }

  lemma CloseKeeps(t: Tables)
    ensures Contents(Close(t)) == Contents(t)
  {
    ConcatMore(t.done, t.current);
  }

  lemma WithEntryAdds(w: Work, t: Tables, e: Entry)
    ensures Contents(WithEntry(w, t, e)) == Contents(t) + [e]
  {
    CloseKeeps(Tables(t.done, t.current + [e]));
    assert Concat(t.done) + (t.current + [e]) == Contents(t) + [e];
  }

  /** However the output is cut, the tables hold what is kept, in order. */
  lemma {:induction false} TablesHoldKept(w: Work, n: nat)
    requires n <= |w.all|
    ensures Contents(TablesAfter(w, n)) == Kept(w.all, n, w.floor, w.version, w.level)
  {
    if n > 0 {
      TablesHoldKept(w, n - 1);
      StepHolds(w, n, TablesAfter(w, n - 1), TablesAfter(w, n));
    }
  }

  lemma StepHolds(w: Work, n: nat, t: Tables, u: Tables)
    requires 0 < n <= |w.all| && u == Step(w, n - 1, t)
    requires Contents(t) == Kept(w.all, n - 1, w.floor, w.version, w.level)
    ensures Contents(u) == Kept(w.all, n, w.floor, w.version, w.level)
  {
    CloseKeeps(t);
    WithEntryAdds(w, StoppedBefore(w, n - 1, t), w.all[n - 1]);
  }

  // ----- How large they are --------------------------------------------------------------------------

  /** The bytes of the grandparents that end between two keys. */
  function Spanned(files: seq<File>, a: Key, b: Key): nat {
    var i, j := Skip(files, 0, a), Skip(files, 0, b);
    if i <= j then TotalFileSize(files[i..j]) else 0
  }

  predicate AtMost(a: Key, b: Key) {
    a == b || Less(a, b)
  }

  lemma {:induction false} SkipIsExact(files: seq<File>, i: nat, k: Key, x: nat)
    requires LevelSorted(files) && i <= x < |files|
    ensures x < Skip(files, i, k) <==> Less(files[x].largest, k)
    decreases |files| - i
  {
    if i < x { LevelOrder(files, i, x); }
    if Less(files[i].largest, k) && i < x { SkipIsExact(files, i + 1, k, x); }
  }

  /** In a sorted level these are the files whose last keys are at or after the one and before
      the other. */
  lemma SpannedAre(files: seq<File>, a: Key, b: Key, x: nat)
    requires LevelSorted(files) && x < |files|
    ensures Skip(files, 0, a) <= x < Skip(files, 0, b) <==> !Less(files[x].largest, a) && Less(files[x].largest, b)
  {
    SkipIsExact(files, 0, a, x);
    SkipIsExact(files, 0, b, x);
  }

  /** The scan goes on from where it was. */
  lemma {:induction false} SkipsOn(files: seq<File>, i: nat, a: Key, b: Key)
    requires i <= |files| && AtMost(a, b)
    ensures Skip(files, i, a) <= Skip(files, i, b) == Skip(files, Skip(files, i, a), b)
    decreases |files| - i
  {
    if i < |files| && Less(files[i].largest, a) { SkipsOn(files, i + 1, a, b); }
  }

  lemma SpannedGrows(files: seq<File>, a: Key, b: Key, c: Key)
    requires AtMost(a, b) && AtMost(b, c)
    ensures Spanned(files, a, c) == Spanned(files, a, b) + Spanned(files, b, c)
  {
    SkipsOn(files, 0, a, b);
    SkipsOn(files, 0, b, c);
    TotalOfTwo(files, Skip(files, 0, a), Skip(files, 0, b), Skip(files, 0, c));
  }

  lemma NothingSpanned(files: seq<File>, a: Key)
    ensures Spanned(files, a, a) == 0
  {
    var i := Skip(files, 0, a);
    assert files[i..i] == [];
  }

  lemma KeysAscend(all: seq<Entry>, i: nat, j: nat)
    requires Sorted(all) && i <= j < |all|
    ensures AtMost(all[i].key, all[j].key)
  {
    if i < j { IndexOrder(all, i, j); }
  }

  lemma {:induction false} ScanIsAt(w: Work, n: nat)
    requires Sorted(w.all) && 0 < n <= |w.all|
    ensures var s := ScanAfter(w, n); s.seen && s.index == Skip(w.grandparents, 0, w.all[n - 1].key)
                                      && s.bytes <= w.maxOverlap
  {
    if n > 1 {
      ScanIsAt(w, n - 1);
      KeysAscend(w.all, n - 2, n - 1);
      SkipsOn(w.grandparents, 0, w.all[n - 2].key, w.all[n - 1].key);
    }
  }

  /** Keys on the way add the files that they pass. */
  lemma BytesOnTheWay(w: Work, n: nat)
    requires Sorted(w.all) && 0 < n < |w.all|
    ensures BytesTo(w.grandparents, ScanAfter(w, n), w.all[n].key)
         == ScanAfter(w, n).bytes + Spanned(w.grandparents, w.all[n - 1].key, w.all[n].key)
  {
    ScanIsAt(w, n);
    KeysAscend(w.all, n - 1, n);
    SkipsOn(w.grandparents, 0, w.all[n - 1].key, w.all[n].key);
  }

  /** A table passes no more of the grandparents than the limit, and was not large enough before
      its last entry. */
  ghost predicate Bounded(w: Work, t: seq<Entry>) {
    && t != [] && Spanned(w.grandparents, t[0].key, t[|t| - 1].key) <= w.maxOverlap
    && forall m | 0 < m < |t| :: w.sizes.written(t[..m]) < w.maxOutput
  }

  /** The open table, after the first `n` keys. */
  ghost predicate OpenWithin(w: Work, n: nat, t: seq<Entry>)
    requires n <= |w.all|
  {
    t != [] ==>
      && n > 0 && AtMost(t[0].key, t[|t| - 1].key) && AtMost(t[|t| - 1].key, w.all[n - 1].key)
      && Spanned(w.grandparents, t[0].key, w.all[n - 1].key) <= ScanAfter(w, n).bytes
      && forall m | 0 < m <= |t| :: w.sizes.written(t[..m]) < w.maxOutput
  }

  ghost predicate AllBounded(w: Work, tables: seq<seq<Entry>>) {
    forall t | t in tables :: Bounded(w, t)
  }

  lemma OpenIsBounded(w: Work, n: nat, t: seq<Entry>)
    requires Sorted(w.all) && n <= |w.all| && OpenWithin(w, n, t) && t != []
    ensures Bounded(w, t)
  {
    ScanIsAt(w, n);
    SpannedGrows(w.grandparents, t[0].key, t[|t| - 1].key, w.all[n - 1].key);
  }

  /** The next key, when the open table does not stop before it. */
  lemma OpenGoesOn(w: Work, n: nat, t: seq<Entry>)
    requires Sorted(w.all) && n < |w.all| && OpenWithin(w, n, t) && (StopsBefore(w, n) ==> t == [])
    ensures OpenWithin(w, n + 1, t)
  {
    if t != [] {
      BytesOnTheWay(w, n);
      KeysAscend(w.all, n - 1, n);
      SpannedGrows(w.grandparents, t[0].key, w.all[n - 1].key, w.all[n].key);
    }
  }

  /** An entry is added, and the table is not large enough to be closed. */
  lemma OpenWithMore(w: Work, n: nat, t: seq<Entry>)
    requires n < |w.all| && OpenWithin(w, n + 1, t) && w.sizes.written(t + [w.all[n]]) < w.maxOutput
    ensures OpenWithin(w, n + 1, t + [w.all[n]])
  {
    var e := w.all[n];
    var u := t + [e];
    NothingSpanned(w.grandparents, e.key);
    forall m | 0 < m <= |u| ensures w.sizes.written(u[..m]) < w.maxOutput {
      assert u[..m] == if m <= |t| then t[..m] else u;
    }
  }

  /** An entry is added, and the table is large enough. */
  lemma FullIsBounded(w: Work, n: nat, t: seq<Entry>)
    requires Sorted(w.all) && n < |w.all| && OpenWithin(w, n + 1, t)
    ensures Bounded(w, t + [w.all[n]])
  {
    var e := w.all[n];
    var u := t + [e];
    ScanIsAt(w, n + 1);
    NothingSpanned(w.grandparents, e.key);
    forall m | 0 < m < |u| ensures w.sizes.written(u[..m]) < w.maxOutput {
      assert u[..m] == t[..m];
    }
  }

  ghost predicate Within(w: Work, n: nat, t: Tables)
    requires n <= |w.all|
  {
    AllBounded(w, t.done) && OpenWithin(w, n, t.current)
  }

  lemma StopStaysWithin(w: Work, n: nat, t: Tables)
    requires Sorted(w.all) && n < |w.all| && Within(w, n, t)
    ensures Within(w, n + 1, StoppedBefore(w, n, t))
  {
    if t.current != [] { OpenIsBounded(w, n, t.current); }
    OpenGoesOn(w, n, StoppedBefore(w, n, t).current);
  }

  lemma EntryStaysWithin(w: Work, n: nat, t: Tables)
    requires Sorted(w.all) && n < |w.all| && Within(w, n + 1, t)
    ensures Within(w, n + 1, WithEntry(w, t, w.all[n]))
  {
    if w.sizes.written(t.current + [w.all[n]]) < w.maxOutput {
      OpenWithMore(w, n, t.current);
    } else {
      FullIsBounded(w, n, t.current);
    }
  }

  lemma {:induction false} TablesAreBounded(w: Work, n: nat)
    requires Sorted(w.all) && n <= |w.all|
    ensures Within(w, n, TablesAfter(w, n))
  {
    if n > 0 {
      TablesAreBounded(w, n - 1);
      StepStaysWithin(w, n - 1, TablesAfter(w, n - 1));
    }
  }

  lemma StepStaysWithin(w: Work, n: nat, t: Tables)
    requires Sorted(w.all) && n < |w.all| && Within(w, n, t)
    ensures Within(w, n + 1, Step(w, n, t))
  {
    StopStaysWithin(w, n, t);
    EntryStaysWithin(w, n, StoppedBefore(w, n, t));
  }

  /** No output passes more bytes of the grandparents than the limit, so that it overlaps at most
      one file more; and none has reached the size for an output before its last entry. */
  lemma OutputsAreBounded(w: Work)
    requires Sorted(w.all)
    ensures AllBounded(w, OutputTables(w))
  {
    var t := TablesAfter(w, |w.all|);
    TablesAreBounded(w, |w.all|);
    if t.current != [] { OpenIsBounded(w, |w.all|, t.current); }
  }

  // ----- When they end -------------------------------------------------------------------------------

  /** The scan has not stopped between the two keys. */
  ghost predicate NoStopBetween(w: Work, m: nat, n: nat)
    requires n <= |w.all|
  {
    forall i: nat | m < i < n :: !StopsBefore(w, i)
  }

  lemma {:induction false} BytesSinceStop(w: Work, m: nat, n: nat)
    requires Sorted(w.all) && m < n <= |w.all| && (m == 0 || StopsBefore(w, m)) && NoStopBetween(w, m, n)
    ensures ScanAfter(w, n).bytes == Spanned(w.grandparents, w.all[m].key, w.all[n - 1].key)
  {
    if n == m + 1 {
      NothingSpanned(w.grandparents, w.all[m].key);
    } else {
      BytesSinceStop(w, m, n - 1);
      assert !StopsBefore(w, n - 1);
      BytesOnTheWay(w, n - 1);
      KeysAscend(w.all, m, n - 2);
      KeysAscend(w.all, n - 2, n - 1);
      SpannedGrows(w.grandparents, w.all[m].key, w.all[n - 2].key, w.all[n - 1].key);
    }
  }

  /** The scan stops exactly before the first key that passes too many bytes of the grandparents
      since the key of the last stop, or since the first key of all. */
  lemma StopsExactly(w: Work, m: nat, n: nat)
    requires Sorted(w.all) && m < n < |w.all| && (m == 0 || StopsBefore(w, m)) && NoStopBetween(w, m, n)
    ensures StopsBefore(w, n) <==> Spanned(w.grandparents, w.all[m].key, w.all[n].key) > w.maxOverlap
  {
    BytesSinceStop(w, m, n);
    BytesOnTheWay(w, n);
    KeysAscend(w.all, m, n - 1);
    KeysAscend(w.all, n - 1, n);
    SpannedGrows(w.grandparents, w.all[m].key, w.all[n - 1].key, w.all[n].key);
  }

  /** The scan stops after the one table, and before the other if there is one. */
  ghost predicate StopsBetween(w: Work, t: seq<Entry>, u: seq<Entry>, m: nat) {
    && m < |w.all| && StopsBefore(w, m) && t != [] && Less(t[|t| - 1].key, w.all[m].key)
    && (u != [] ==> AtMost(w.all[m].key, u[0].key))
  }

  /** Why a table is not continued by the next one. */
  ghost predicate Ends(w: Work, n: nat, t: seq<Entry>, u: seq<Entry>) {
    w.sizes.written(t) >= w.maxOutput || exists m: nat :: m < n && StopsBetween(w, t, u, m)
  }

  function NextTable(t: Tables, i: nat): seq<Entry> {
    if i + 1 < |t.done| then t.done[i + 1] else t.current
  }

  ghost predicate EndsAt(w: Work, n: nat, t: Tables, i: nat)
    requires i < |t.done|
  {
    Ends(w, n, t.done[i], NextTable(t, i))
  }

  ghost predicate AllEnd(w: Work, n: nat, t: Tables) {
    forall i: nat | i < |t.done| :: EndsAt(w, n, t, i)
  }

  lemma ClosingEnds(w: Work, n: nat, t: Tables)
    requires AllEnd(w, n, t) && (t.current != [] ==> Ends(w, n, t.current, []))
    ensures AllEnd(w, n, Close(t))
  {
    var u := Close(t);
    forall i: nat | i < |u.done| ensures EndsAt(w, n, u, i) {
      if i < |t.done| { assert EndsAt(w, n, t, i) && NextTable(u, i) == NextTable(t, i); }
    }
  }

  lemma StopEnds(w: Work, n: nat, t: Tables)
    requires Sorted(w.all) && n < |w.all| && OpenWithin(w, n, t.current) && AllEnd(w, n, t)
    ensures AllEnd(w, n + 1, StoppedBefore(w, n, t))
  {
    var k := n + 1;
    forall i: nat | i < |t.done| ensures EndsAt(w, k, t, i) { assert EndsAt(w, n, t, i); }
    if StopsBefore(w, n) {
      if t.current != [] {
        IndexOrder(w.all, n - 1, n);
        assert StopsBetween(w, t.current, [], n);
      }
      ClosingEnds(w, k, t);
    }
  }

  lemma EntryEnds(w: Work, n: nat, t: Tables)
    requires Sorted(w.all) && n < |w.all| && AllEnd(w, n + 1, t)
    ensures AllEnd(w, n + 1, WithEntry(w, t, w.all[n]))
  {
    var u := Tables(t.done, t.current + [w.all[n]]);
    var k := n + 1;
    forall i: nat | i < |u.done| ensures EndsAt(w, k, u, i) {
      assert EndsAt(w, k, t, i);
      if w.sizes.written(t.done[i]) < w.maxOutput {
        var m: nat :| m < k && StopsBetween(w, t.done[i], NextTable(t, i), m);
        KeysAscend(w.all, m, n);
        assert StopsBetween(w, u.done[i], NextTable(u, i), m);
      }
    }
    if w.sizes.written(u.current) >= w.maxOutput { ClosingEnds(w, k, u); }
  }

  lemma {:induction false} TablesEnd(w: Work, n: nat)
    requires Sorted(w.all) && n <= |w.all|
    ensures AllEnd(w, n, TablesAfter(w, n))
  {
    if n > 0 {
      TablesEnd(w, n - 1);
      TablesAreBounded(w, n - 1);
      StepEnds(w, n - 1, TablesAfter(w, n - 1));
    }
  }

  lemma StepEnds(w: Work, n: nat, t: Tables)
    requires Sorted(w.all) && n < |w.all| && OpenWithin(w, n, t.current) && AllEnd(w, n, t)
    ensures AllEnd(w, n + 1, Step(w, n, t))
  {
    StopEnds(w, n, t);
    EntryEnds(w, n, StoppedBefore(w, n, t));
  }

  /** An output ends before the next one begins only because it has reached the size for an output,
      or because the scan stops between them. */
  lemma OutputsEndForCause(w: Work, i: nat)
    requires Sorted(w.all) && i + 1 < |OutputTables(w)|
    ensures Ends(w, |w.all|, OutputTables(w)[i], OutputTables(w)[i + 1])
  {
    var t := TablesAfter(w, |w.all|);
    TablesEnd(w, |w.all|);
    assert EndsAt(w, |w.all|, t, i) && OutputTables(w)[i + 1] == NextTable(t, i);
  }

  // ----- The loop -------------------------------------------------------------------------------------

  /** The files made of these tables, numbered from `first` on. */
  function FilesOf(tables: seq<seq<Entry>>, first: nat, sizes: Sizes): seq<File>
    requires forall i | 0 <= i < |tables| :: tables[i] != []
  {
    seq(|tables|, i requires 0 <= i < |tables| => Built(first + i, sizes.finished(tables[i]), tables[i]))
  }

  /** The finished tables are files, the open one is a list of entries. */
  ghost predicate Holds(outputs: seq<File>, current: seq<Entry>, t: Tables, first: nat, sizes: Sizes) {
    (forall i | 0 <= i < |t.done| :: t.done[i] != []) && outputs == FilesOf(t.done, first, sizes)
        && current == t.current
  }

  lemma {:induction false} FilesHoldTables(tables: seq<seq<Entry>>, first: nat, sizes: Sizes)
    requires forall i | 0 <= i < |tables| :: tables[i] != []
    ensures Flatten(FilesOf(tables, first, sizes)) == Concat(tables)
  {
    var n := |tables|;
    if n > 0 {
      var files := FilesOf(tables, first, sizes);
      FilesHoldTables(tables[..n - 1], first, sizes);
      assert files[..n - 1] == FilesOf(tables[..n - 1], first, sizes);
    }
  }

  /** The files that the loop writes, numbered from `first` on. */
  ghost predicate AreOutputs(w: Work, outputs: seq<File>, first: nat) {
    Holds(outputs, [], Close(TablesAfter(w, |w.all|)), first, w.sizes)
  }

  /** Together the output files hold what is kept. */
  lemma OutputsHoldKept(w: Work, outputs: seq<File>, first: nat)
    requires AreOutputs(w, outputs, first)
    ensures Flatten(outputs) == Kept(w.all, |w.all|, w.floor, w.version, w.level) && WellNumbered(outputs, first)
  {
    TablesHoldKept(w, |w.all|);
    ClosedAreFiles(TablesAfter(w, |w.all|), outputs, first, w.sizes);
  }

  lemma ClosedAreFiles(t: Tables, outputs: seq<File>, first: nat, sizes: Sizes)
    requires Holds(outputs, [], Close(t), first, sizes)
    ensures Flatten(outputs) == Contents(t) && WellNumbered(outputs, first)
  {
    CloseKeeps(t);
    FilesHoldTables(Close(t).done, first, sizes);
    FilesAreBuilt(Close(t).done, first, sizes);
  }

  lemma FilesAreBuilt(tables: seq<seq<Entry>>, first: nat, sizes: Sizes)
    requires forall i | 0 <= i < |tables| :: tables[i] != []
    ensures WellNumbered(FilesOf(tables, first, sizes), first)
  {
    var files := FilesOf(tables, first, sizes);
    forall f | f in files ensures WellBuilt(f) {
      var i :| 0 <= i < |files| && files[i] == f;
    }
  }

  method FinishOutput(outputs: seq<File>, current: seq<Entry>, first: nat, sizes: Sizes, ghost t: Tables)
    returns (outputs': seq<File>)
    requires Holds(outputs, current, t, first, sizes) && current != []
    ensures Holds(outputs', [], Close(t), first, sizes)
  {
    outputs' := outputs + [Built(first + |outputs|, sizes.finished(current), current)];
  }

  /** Adds an entry and closes the table if it is large enough. */
  method AddEntry(outputs: seq<File>, current: seq<Entry>, e: Entry, first: nat, ghost w: Work, ghost t: Tables,
                  maxOutput: nat, sizes: Sizes)
    returns (outputs': seq<File>, current': seq<Entry>)
    requires Holds(outputs, current, t, first, sizes) && w.sizes == sizes && w.maxOutput == maxOutput
    ensures Holds(outputs', current', WithEntry(w, t, e), first, sizes)
  {
    outputs', current' := outputs, current + [e];
    if sizes.written(current') >= maxOutput {
      outputs' := FinishOutput(outputs', current', first, sizes, Tables(t.done, current'));
      current' := [];
    }
  }

  /** Ends the open table if the scan of the grandparents says so. */
  method StopOutput(stop: bool, outputs: seq<File>, current: seq<Entry>, first: nat, sizes: Sizes, ghost t: Tables)
    returns (outputs': seq<File>, current': seq<Entry>)
    requires Holds(outputs, current, t, first, sizes)
    ensures Holds(outputs', current', if stop then Close(t) else t, first, sizes)
  {
    outputs', current' := outputs, current;
    if stop && current != [] {
      outputs' := FinishOutput(outputs, current, first, sizes, t);
      current' := [];
    }
  }

  /** What the loop remembers, has scanned and has written after `n` entries. */
  ghost predicate Done(w: Work, n: nat, user: Option<UserKey>, last: nat, asked: Option<UserKey>, scanned: Scan,
                       outputs: seq<File>, current: seq<Entry>, first: nat)
    requires n <= |w.all|
  {
    && Remembers(w.all, n, user, last, asked) && scanned == ScanAfter(w, n)
    && Holds(outputs, current, TablesAfter(w, n), first, w.sizes)
  }

  /** The loop over the merged input. Whatever is kept is written in order; the next table is
      begun when the grandparents or the size ask for it. */
  method DoCompactionWork(input: MergingIterator, c: Compaction, floor: nat, maxOutput: nat, sizes: Sizes, first: nat)
    returns (outputs: seq<File>)
    requires input.Valid() && c.Valid() && c.asked == None && c.Scanned() == Scan(0, false, 0) && floor < MAX_SEQUENCE
    modifies input, input.children, c
    ensures var w := Work(input.all, floor, c.version, c.level, c.grandparents, c.maxOverlap, maxOutput, sizes);
            AreOutputs(w, outputs, first)
  {
    ghost var w := Work(input.all, floor, c.version, c.level, c.grandparents, c.maxOverlap, maxOutput, sizes);
    outputs := [];
    var current: seq<Entry> := [];
    var currentUser: Option<UserKey> := None;
    var lastSequence := MAX_SEQUENCE;
    input.SeekToFirst();
    while input.OnEntry()
      invariant input.Valid() && c.Valid()
      invariant Done(w, input.at, currentUser, lastSequence, c.asked, c.Scanned(), outputs, current, first)
      decreases |w.all| - input.at
    {
      outputs, current, currentUser, lastSequence :=
        TakeEntry(c, input.Current(), outputs, current, currentUser, lastSequence, floor, maxOutput, sizes, first, w,
            input.at);
      input.Next();
    }
    if current != [] {
      outputs := FinishOutput(outputs, current, first, sizes, TablesAfter(w, |w.all|));
    }
  }

  /** One entry of the input. */
  method TakeEntry(c: Compaction, e: Entry, outputs: seq<File>, current: seq<Entry>, user: Option<UserKey>, last: nat,
                   floor: nat, maxOutput: nat, sizes: Sizes, first: nat, ghost w: Work, ghost n: nat)
    returns (outputs': seq<File>, current': seq<Entry>, user': Option<UserKey>, last': nat)
    requires c.Valid() && Sorted(w.all) && n < |w.all| && e == w.all[n] && floor < MAX_SEQUENCE
    requires w == Work(w.all, floor, c.version, c.level, c.grandparents, c.maxOverlap, maxOutput, sizes)
    requires Done(w, n, user, last, c.asked, c.Scanned(), outputs, current, first)
    modifies c
    ensures c.Valid() && Done(w, n + 1, user', last', c.asked, c.Scanned(), outputs', current', first)
  {
    ghost var t := TablesAfter(w, n);
    var stop := c.ShouldStopBefore(e.key);
    outputs', current' := StopOutput(stop, outputs, current, first, sizes, t);
    var drop;
    drop, user', last' := DropEntry(c, floor, e, user, last, w.all, n);
    if !drop {
      outputs', current' := AddEntry(outputs', current', e, first, w, StoppedBefore(w, n, t), maxOutput, sizes);
    }
  }
}
