/** Sorted runs of entries: insertion into a memtable, the tables of a level end to end, and
    a merging iterator over any disjoint runs. */
module Runs {
  import opened Keys
  import opened Files
  import opened Versions
  import opened Merging
  import opened Compact

  // ----- The memtable ------------------------------------------------------------------------------

  /** Insertion at the place of the key, as the ordered set under a memtable does it. */
  function InsertEntry(es: seq<Entry>, e: Entry): seq<Entry>
    requires Sorted(es)
  {
    var p := LowerBound(es, e.key);
    es[..p] + [e] + es[p..]
  }

  lemma InsertEntrySorted(es: seq<Entry>, e: Entry)
    requires Sorted(es) && forall x | x in es :: x.key != e.key
    ensures Sorted(InsertEntry(es, e))
    ensures Elements(InsertEntry(es, e)) == Elements(es) + {e}
  {
    var p := LowerBound(es, e.key);
    assert es == es[..p] + es[p..];
    SortedPrefix(es, p);
    SortedSuffix(es, p);
    forall y | y in es[p..] ensures Less(e.key, y.key) {
      assert y in es;
    }
    SortedJoin(es[..p], [e]);
    SortedJoin(es[..p] + [e], es[p..]);
  }

  lemma SortedSuffix(es: seq<Entry>, p: nat)
    requires Sorted(es) && p <= |es|
    ensures Sorted(es[p..])
    ensures forall x, y | x in es[..p] && y in es[p..] :: Less(x.key, y.key)
  {
    forall i, j | 0 <= i < j < |es| - p ensures InOrder(es[p..], i, j) { assert InOrder(es, p + i, p + j); }
    forall x, y | x in es[..p] && y in es[p..] ensures Less(x.key, y.key) {
      var i :| 0 <= i < p && es[i] == x;
      var j :| p <= j < |es| && es[j] == y;
      assert InOrder(es, i, j);
    }
  }

  lemma SortedJoin(a: seq<Entry>, b: seq<Entry>)
    requires Sorted(a) && Sorted(b) && forall x, y | x in a && y in b :: Less(x.key, y.key)
    ensures Sorted(a + b)
  {
    forall i, j | 0 <= i < j < |a + b| ensures InOrder(a + b, i, j) {
      if j < |a| {
        assert InOrder(a, i, j);
      } else if |a| <= i {
        assert InOrder(b, i - |a|, j - |a|);
      } else {
        assert a[i] in a && b[j - |a|] in b;
      }
    }
  }

  /** Entries with different keys can be listed in key order. */
  lemma {:induction false} SortSet(es: set<Entry>) returns (all: seq<Entry>)
    requires UniqueSeqs(es)
    ensures Sorted(all) && Elements(all) == es
    decreases es
  {
    if e :| e in es {
      var rest := es - {e};
      all := SortSet(rest);
      forall x | x in all ensures x.key != e.key {
        assert x in Elements(all);
      }
      InsertEntrySorted(all, e);
      all := InsertEntry(all, e);
      assert rest + {e} == es;
    } else {
      all := [];
    }
  }

  // ----- The tables of a level, end to end --------------------------------------------------------

  lemma {:induction false} FlattenEntries(files: seq<File>)
    ensures Elements(Flatten(files)) == LevelEntries(files)
  {
    if files != [] {
      var n := |files| - 1;
      assert files == files[..n] + [files[n]];
      FlattenEntries(files[..n]);
      forall e ensures e in Flatten(files) <==> e in LevelEntries(files) {
        assert e in Flatten(files[..n]) <==> e in Elements(Flatten(files[..n]));
      }
    }
  }

  /** The tables of a sorted level, one after the other, are one sorted run. */
  lemma {:induction false} FlattenSorted(files: seq<File>)
    requires LevelSorted(files)
    ensures Sorted(Flatten(files))
  {
    if files != [] {
      var n := |files| - 1;
      forall i, j | 0 <= i < j < n ensures Before(files[..n], i, j) { assert Before(files, i, j); }
      FlattenSorted(files[..n]);
      FlattenEntries(files[..n]);
      LevelOrder(files, n, n);
      forall x, y | x in Flatten(files[..n]) && y in files[n].entries ensures Less(x.key, y.key) {
        assert x in Elements(Flatten(files[..n]));
        var f :| f in files[..n] && x in f.entries;
        var i :| 0 <= i < n && files[i] == f;
        LevelOrder(files, i, n);
        EntryInBounds(f, x);
        EntryInBounds(files[n], y);
      }
      SortedJoin(Flatten(files[..n]), files[n].entries);
    }
  }

  // ----- A merging iterator over disjoint runs ---------------------------------------------------

  ghost function UnionOf(runs: seq<seq<Entry>>): set<Entry> {
    set i, e | 0 <= i < |runs| && e in runs[i] :: e
  }

  ghost predicate RunsDiffer(runs: seq<seq<Entry>>, i: nat, j: nat)
    requires i < |runs| && j < |runs|
  {
    forall e | e in runs[i] :: e !in runs[j]
  }

  ghost predicate DisjointRuns(runs: seq<seq<Entry>>) {
    && (forall i | 0 <= i < |runs| :: Sorted(runs[i]))
    && (forall i, j | 0 <= i < j < |runs| :: RunsDiffer(runs, i, j))
  }

  method NewMergingIterator(runs: seq<seq<Entry>>) returns (it: MergingIterator)
    requires DisjointRuns(runs) && UniqueSeqs(UnionOf(runs))
    ensures fresh(it) && fresh(it.children) && it.Valid() && Elements(it.all) == UnionOf(runs)
  {
    var children: seq<Cursor> := [];
    for i := 0 to |runs|
      invariant |children| == i && fresh(children)
      invariant forall j | 0 <= j < i :: children[j].items == runs[j]
      invariant forall j, k | 0 <= j < k < i :: children[j] != children[k]
    {
      var c := new Cursor(runs[i]);
      children := children + [c];
    }
    ghost var all := SortSet(UnionOf(runs));
    forall e ensures e in all <==> e in UnionOf(runs) { assert e in Elements(all) <==> e in all; }
    forall i, j, e | 0 <= i < |children| && 0 <= j < |children| && e in children[i].items && e in children[j].items
      ensures i == j
    {
      assert i < j ==> RunsDiffer(runs, i, j);
      assert j < i ==> RunsDiffer(runs, j, i);
    }
    it := new MergingIterator(children, all);
  }
}
