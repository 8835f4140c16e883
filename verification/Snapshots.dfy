/** The iterator over the whole store: its runs, and the map that it shows. */
module Snapshots {
  import opened Keys
  import opened Versions
  import opened Compact
  import opened Preserve
  import opened Runs
  import opened DbIter

  // ----- The map shown is the map read ----------------------------------------------------------

  /** The key-value pairs that the user-level iterator shows are the answers of the reads. */
  lemma ShownIsRead(all: seq<Entry>, s: nat, u: UserKey, v: Blob)
    requires Sorted(all) && UniqueSeqs(Elements(all))
    ensures Maps(all, s, u, v) <==> Answers(Elements(all), u, s, Some(v))
  {
    if Maps(all, s, u, v) {
      var i :| Shown(all, s, i) && all[i].key.user == u && all[i].value == v;
      ShownIsNewest(all, s, i);
      AnswerFromNewest(Elements(all), u, s, all[i]);
    }
    if Answers(Elements(all), u, s, Some(v)) {
      var e :| IsNewest(Elements(all), u, s, e) && e.key.kind == Value && e.value == v;
      var i :| 0 <= i < |all| && all[i] == e;
      NewestIsShown(all, u, s, i);
    }
  }

  lemma ShownIsNewest(all: seq<Entry>, s: nat, i: nat)
    requires Sorted(all) && Shown(all, s, i)
    ensures IsNewest(Elements(all), all[i].key.user, s, all[i])
  {
    forall x | x in Elements(all) && Visible(x, all[i].key.user, s) ensures x.key.seqno <= all[i].key.seqno {
      var j :| 0 <= j < |all| && all[j] == x;
      IndexOrder(all, i, j);
    }
  }

  lemma NewestIsShown(all: seq<Entry>, u: UserKey, s: nat, i: nat)
    requires Sorted(all) && UniqueSeqs(Elements(all)) && i < |all|
    requires IsNewest(Elements(all), u, s, all[i]) && all[i].key.kind == Value
    ensures Shown(all, s, i)
  {
    forall j | 0 <= j < i && Seen(all, s, j) ensures all[j].key.user != u {
      IndexOrder(all, j, i);
      assert all[j] in Elements(all) && all[i] in Elements(all);
    }
  }

  /** Entries written after the iterator was made are newer than its sequence number, so the map
      of the memtable that has grown in the meantime is the map that it was made for. */
  lemma LaterWritesUnseen(all: seq<Entry>, grown: seq<Entry>, s: nat, u: UserKey, v: Blob)
    requires Sorted(all) && UniqueSeqs(Elements(all)) && Sorted(grown) && UniqueSeqs(Elements(grown))
    requires Elements(all) <= Elements(grown) && forall e | e in Elements(grown) - Elements(all) :: e.key.seqno > s
    ensures Maps(all, s, u, v) <==> Maps(grown, s, u, v)
  {
    ShownIsRead(all, s, u, v);
    ShownIsRead(grown, s, u, v);
    if Answers(Elements(all), u, s, Some(v)) {
      var e :| IsNewest(Elements(all), u, s, e) && e.key.kind == Value && e.value == v;
      assert IsNewest(Elements(grown), u, s, e);
    }
    if Answers(Elements(grown), u, s, Some(v)) {
      var e :| IsNewest(Elements(grown), u, s, e) && e.key.kind == Value && e.value == v;
      assert IsNewest(Elements(all), u, s, e);
    }
  }

  // ----- The runs of a store ------------------------------------------------------------------------

  /** One more run that holds none of the entries collected so far. */
  lemma AddRun(runs: seq<seq<Entry>>, run: seq<Entry>)
    requires DisjointRuns(runs) && Sorted(run) && Elements(run) !! UnionOf(runs)
    ensures DisjointRuns(runs + [run]) && UnionOf(runs + [run]) == UnionOf(runs) + Elements(run)
  {
    var more := runs + [run];
    forall i, j | 0 <= i < j < |more| ensures RunsDiffer(more, i, j) {
      if j < |runs| {
        assert RunsDiffer(runs, i, j);
      } else {
        assert forall e | e in runs[i] :: e in UnionOf(runs);
        assert forall e | e in run :: e in Elements(run);
      }
    }
    assert more[|runs|] == run;
    assert forall i | 0 <= i < |runs| :: more[i] == runs[i];
    forall e ensures e in UnionOf(more) <==> e in UnionOf(runs) + Elements(run) {
      if e in UnionOf(runs) {
        var i :| 0 <= i < |runs| && e in runs[i];
        assert e in more[i];
      }
    }
  }

  ghost function EntriesBelow(v: Version, l: nat): set<Entry>
    requires l <= NUM_LEVELS
  {
    set m, f, e | 0 <= m < l && f in v[m] && e in f.entries :: e
  }

  lemma OneMoreLevel(v: Version, l: nat)
    requires Ordered(v) && l < NUM_LEVELS
    ensures EntriesBelow(v, l + 1) == EntriesBelow(v, l) + LevelEntries(v[l])
    ensures EntriesBelow(v, l) !! LevelEntries(v[l])
  {
    forall e | e in EntriesBelow(v, l) ensures e !in LevelEntries(v[l]) {
      var m, f :| 0 <= m < l && f in v[m] && e in f.entries;
      if e in LevelEntries(v[l]) {
        var g :| g in v[l] && e in g.entries;
        EntryInOneFile(v, m, f, l, g, e);
      }
    }
  }

  lemma OneMoreFile(v: Version, i: nat)
    requires Ordered(v) && i < |v[0]|
    ensures LevelEntries(v[0][..i + 1]) == LevelEntries(v[0][..i]) + Elements(v[0][i].entries)
    ensures LevelEntries(v[0][..i]) !! Elements(v[0][i].entries)
  {
    var f := v[0][i];
    assert v[0][..i + 1] == v[0][..i] + [f];
    forall e | e in LevelEntries(v[0][..i]) ensures e !in Elements(f.entries) {
      var g :| g in v[0][..i] && e in g.entries;
      var j :| 0 <= j < i && v[0][j] == g;
      if e in f.entries {
        assert Differ(v[0], j, i);
        EntryInOneFile(v, 0, f, 0, g, e);
      }
    }
  }

  lemma DiskRunApart(upper: set<Entry>, disk: set<Entry>, seen: set<Entry>, run: set<Entry>)
    requires upper !! disk && run <= disk && seen !! run
    ensures upper + seen !! run
  {
  }

  /** The tables of level 0 one by one, then every deeper level end to end, each unless empty. */
  method AddIterators(v: Version, runs: seq<seq<Entry>>) returns (out: seq<seq<Entry>>)
    requires Ordered(v) && DisjointRuns(runs) && UnionOf(runs) !! Entries(v)
    ensures DisjointRuns(out) && UnionOf(out) == UnionOf(runs) + Entries(v)
  {
    ghost var upper := UnionOf(runs);
    out := runs;
    assert LevelEntries(v[0][..0]) == {};
    for i := 0 to |v[0]|
      invariant DisjointRuns(out) && UnionOf(out) == upper + LevelEntries(v[0][..i])
    {
      OneMoreFile(v, i);
      FilesAreValid(v, 0, v[0][i]);
      assert Elements(v[0][i].entries) <= Entries(v);
      DiskRunApart(upper, Entries(v), LevelEntries(v[0][..i]), Elements(v[0][i].entries));
      AddRun(out, v[0][i].entries);
      out := out + [v[0][i].entries];
    }
    assert v[0][..|v[0]|] == v[0] && EntriesBelow(v, 1) == LevelEntries(v[0]);
    for l := 1 to NUM_LEVELS
      invariant DisjointRuns(out) && UnionOf(out) == upper + EntriesBelow(v, l)
    {
      OneMoreLevel(v, l);
      if v[l] != [] {
        LevelIsSorted(v, l);
        FlattenSorted(v[l]);
        FlattenEntries(v[l]);
        assert LevelEntries(v[l]) <= Entries(v);
        DiskRunApart(upper, Entries(v), EntriesBelow(v, l), LevelEntries(v[l]));
        AddRun(out, Flatten(v[l]));
        out := out + [Flatten(v[l])];
      }
    }
    assert EntriesBelow(v, NUM_LEVELS) == Entries(v);
  }
}
