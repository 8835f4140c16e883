/** The merging iterator: a cursor over the union of several sorted runs that can turn
    around at any entry. */
module Merging {
  import opened Keys

  // ----- One run --------------------------------------------------------------------------

  /** A cursor over one sorted run (a memtable, a table, or the tables of one level). It is
      off its run exactly when `pos` is the length of the run. */
  class Cursor {
    const items: seq<Entry>
    var pos: nat

    constructor (items: seq<Entry>)
      ensures this.items == items && pos == |items|
    {
      this.items := items;
      pos := |items|;
    }

    predicate OnEntry()
      reads this
    {
      pos < |items|
    }

    function Current(): Entry
      requires OnEntry()
      reads this
    {
      items[pos]
    }

    method SeekToFirst()
      modifies this
      ensures pos == 0
    {
      pos := 0;
    }

    method SeekToLast()
      modifies this
      ensures pos == if items == [] then 0 else |items| - 1
    {
      pos := if items == [] then 0 else |items| - 1;
    }

    /** To the first entry at or after the target. */
    method Seek(target: Key)
      requires Sorted(items)
      modifies this
      ensures pos == LowerBound(items, target)
    {
      pos := LowerBound(items, target);
    }

    method Next()
      requires OnEntry()
      modifies this
      ensures pos == old(pos) + 1
    {
      pos := pos + 1;
    }

    method Prev()
      requires OnEntry()
      modifies this
      ensures pos == if old(pos) == 0 then |items| else old(pos) - 1
    {
      pos := if pos == 0 then |items| else pos - 1;
    }
  }

  // ----- The union of the runs ---------------------------------------------------------------

  /** Place of an entry in a sorted run that holds it. */
  ghost function Place(all: seq<Entry>, e: Entry): nat
    requires Sorted(all)
  {
    LowerBound(all, e.key)
  }

  lemma PlaceIsIndex(all: seq<Entry>, e: Entry)
    requires Sorted(all) && e in all
    ensures Place(all, e) < |all| && all[Place(all, e)] == e
  {
    var i :| 0 <= i < |all| && all[i] == e;
    var p := Place(all, e);
    if p < |all| { IndexOrder(all, p, i); }
  }

  lemma PlaceOrder(all: seq<Entry>, a: Entry, b: Entry)
    requires Sorted(all) && a in all && b in all
    ensures Less(a.key, b.key) <==> Place(all, a) < Place(all, b)
    ensures a.key == b.key ==> a == b
  {
    PlaceIsIndex(all, a);
    PlaceIsIndex(all, b);
    var i, j := Place(all, a), Place(all, b);
    IndexOrder(all, i, j);
    IndexOrder(all, j, i);
  }

  lemma PlaceOfIndex(all: seq<Entry>, i: nat)
    requires Sorted(all) && i < |all|
    ensures Place(all, all[i]) == i
  {
    PlaceIsIndex(all, all[i]);
    var j := Place(all, all[i]);
    IndexOrder(all, i, j);
    IndexOrder(all, j, i);
  }

  /** `p` is where `run` passes from the first `n` entries of `all` to the others. */
  ghost predicate Cut(all: seq<Entry>, n: nat, run: seq<Entry>, p: nat)
    requires Sorted(all)
  {
    p <= |run| && forall j | 0 <= j < |run| :: Place(all, run[j]) < n <==> j < p
  }

  /** The position just before `p`, or off the run. */
  function StepBack(run: seq<Entry>, p: nat): nat {
    if p == 0 then |run| else p - 1
  }

  ghost predicate SubRun(run: seq<Entry>, all: seq<Entry>) {
    Sorted(run) && forall e | e in run :: e in all
  }

  /** A seek in a run and the same seek in the whole agree. */
  lemma SeekCuts(all: seq<Entry>, run: seq<Entry>, target: Key)
    requires Sorted(all) && SubRun(run, all)
    ensures Cut(all, LowerBound(all, target), run, LowerBound(run, target))
  {
    var n, p := LowerBound(all, target), LowerBound(run, target);
    forall j | 0 <= j < |run| ensures Place(all, run[j]) < n <==> j < p {
      PlaceIsIndex(all, run[j]);
    }
  }

  lemma EndsCut(all: seq<Entry>, run: seq<Entry>)
    requires Sorted(all) && SubRun(run, all)
    ensures Cut(all, 0, run, 0) && Cut(all, |all|, run, |run|)
  {
    forall j | 0 <= j < |run| ensures Place(all, run[j]) < |all| { PlaceIsIndex(all, run[j]); }
  }

  /** Around an entry of the run itself. */
  lemma OwnCut(all: seq<Entry>, run: seq<Entry>, p: nat)
    requires Sorted(all) && SubRun(run, all) && p < |run|
    ensures Cut(all, Place(all, run[p]), run, p)
    ensures Cut(all, Place(all, run[p]) + 1, run, p + 1)
  {
    forall j | 0 <= j < |run|
      ensures Place(all, run[j]) < Place(all, run[p]) <==> j < p
      ensures Place(all, run[j]) < Place(all, run[p]) + 1 <==> j < p + 1
    {
      PlaceOrder(all, run[j], run[p]);
      PlaceOrder(all, run[p], run[j]);
      IndexOrder(run, j, p);
    }
  }

  /** Past an entry that the run does not hold, the cut stays where it is. */
  lemma ForeignCut(all: seq<Entry>, n: nat, run: seq<Entry>, p: nat)
    requires Sorted(all) && SubRun(run, all) && n < |all| && all[n] !in run
    ensures Cut(all, n, run, p) <==> Cut(all, n + 1, run, p)
  {
    forall j | 0 <= j < |run| ensures Place(all, run[j]) != n { PlaceIsIndex(all, run[j]); }
  }

  /** A run that holds entry `n` stands on it when cut there, and on it when cut after it. */
  lemma HeadOfCut(all: seq<Entry>, n: nat, run: seq<Entry>, p: nat)
    requires Sorted(all) && SubRun(run, all) && n < |all| && all[n] in run
    ensures Cut(all, n, run, p) ==> p < |run| && run[p] == all[n]
    ensures Cut(all, n + 1, run, p) ==> 0 < p && run[p - 1] == all[n]
  {
    var q :| 0 <= q < |run| && run[q] == all[n];
    PlaceOfIndex(all, n);
    OwnCut(all, run, q);
    CutIsUnique(all, n, run, p, q);
    CutIsUnique(all, n + 1, run, p, q + 1);
  }

  lemma CutIsUnique(all: seq<Entry>, n: nat, run: seq<Entry>, p: nat, q: nat)
    requires Sorted(all) && Cut(all, n, run, q)
    ensures Cut(all, n, run, p) ==> p == q
  {
    if Cut(all, n, run, p) {
      var j := if p < q then p else q;
      assert j < |run| ==> (Place(all, run[j]) < n <==> j < p);
    }
  }

  datatype Direction = Forward | Reverse

  class MergingIterator {
    const children: seq<Cursor>
    var current: Option<nat>
    var direction: Direction

    /** The sorted union of the children, and the position in it that this iterator shows
        (its length when the iterator is off). */
    ghost const all: seq<Entry>
    ghost var at: nat

    /** The children are different cursors over runs that share no key and make up `all`. */
    ghost predicate Wired() {
      && Sorted(all)
      && (forall i, j | 0 <= i < j < |children| :: children[i] != children[j])
      && (forall i | 0 <= i < |children| :: SubRun(children[i].items, all))
      && (forall i, j, e | 0 <= i < |children| && 0 <= j < |children| && e in children[i].items
          && e in children[j].items :: i == j)
      && (forall n | 0 <= n < |all| :: Held(n))
    }

    ghost predicate Held(n: nat)
      requires n < |all|
    {
      exists i :: 0 <= i < |children| && all[n] in children[i].items
    }

    /** Child `i` stands on its first entry from place `n` on. */
    ghost predicate AheadOf(i: nat, n: nat)
      requires i < |children| && Sorted(all)
      reads children[i]
    {
      Cut(all, n, children[i].items, children[i].pos)
    }

    /** Child `i` stands on its first entry after place `n`. */
    ghost predicate PastOf(i: nat, n: nat)
      requires i < |children| && Sorted(all)
      reads children[i]
    {
      AheadOf(i, n + 1)
    }

    /** Child `i` stands on its last entry before place `n`, or is off. */
    ghost predicate BehindOf(i: nat, n: nat)
      requires i < |children| && Sorted(all)
      reads children[i]
    {
      exists p :: Cut(all, n, children[i].items, p) && children[i].pos == StepBack(children[i].items, p)
    }

    ghost predicate Valid()
      reads this, children
    {
      && Wired()
      && at <= |all|
      && (at == |all| <==> current.None?)
      && (current.Some? ==>
            && current.value < |children|
            && children[current.value].OnEntry()
            && children[current.value].Current() == all[at]
            && forall i | 0 <= i < |children| && i != current.value ::
                 if direction == Forward then PastOf(i, at) else BehindOf(i, at))
    }

    predicate OnEntry()
      reads this
    {
      current.Some?
    }

    function Current(): Entry
      requires Valid() && OnEntry()
      reads this, children
      ensures Current() == all[at]
    {
      children[current.value].Current()
    }

    constructor (children: seq<Cursor>, ghost all: seq<Entry>)
      requires Sorted(all)
      requires forall i, j | 0 <= i < j < |children| :: children[i] != children[j]
      requires forall i | 0 <= i < |children| :: SubRun(children[i].items, all)
      requires forall i, j, e | 0 <= i < |children| && 0 <= j < |children| && e in children[i].items
               && e in children[j].items :: i == j
      requires forall e | e in all :: exists i :: 0 <= i < |children| && e in children[i].items
      ensures Valid() && this.children == children && this.all == all && !OnEntry()
    {
      this.children := children;
      this.all := all;
      current := None;
      direction := Forward;
      at := |all|;
      new;
      forall n | 0 <= n < |all| ensures Held(n) {
        assert all[n] in all;
      }
    }

    /** Of the children that stand from place `n` on, the smallest shows entry `n`. */
    lemma SmallestShows(n: nat, c: nat)
      requires Wired() && n < |all| && c < |children|
      requires forall i | 0 <= i < |children| :: AheadOf(i, n)
      requires children[c].OnEntry()
      requires forall i | 0 <= i < |children| && children[i].OnEntry() ::
                 !Less(children[i].Current().key, children[c].Current().key)
      ensures children[c].Current() == all[n]
      ensures forall i | 0 <= i < |children| && i != c :: PastOf(i, n)
    {
      assert Held(n);
      var w :| 0 <= w < |children| && all[n] in children[w].items;
      assert AheadOf(w, n) && AheadOf(c, n);
      HeadOfCut(all, n, children[w].items, children[w].pos);
      assert SubRun(children[c].items, all);
      PlaceOrder(all, all[n], children[c].Current());
      PlaceOfIndex(all, n);
      PlaceIsIndex(all, children[c].Current());
      forall i | 0 <= i < |children| && i != c ensures PastOf(i, n) {
        assert AheadOf(i, n) && all[n] !in children[i].items;
        ForeignCut(all, n, children[i].items, children[i].pos);
      }
    }

    lemma SomeChildAhead(n: nat)
      requires Wired() && n <= |all|
      requires forall i | 0 <= i < |children| :: AheadOf(i, n)
      ensures n < |all| <==> exists i :: 0 <= i < |children| && children[i].OnEntry()
    {
      if n < |all| {
        assert Held(n);
        var w :| 0 <= w < |children| && all[n] in children[w].items;
        assert AheadOf(w, n);
        HeadOfCut(all, n, children[w].items, children[w].pos);
        assert children[w].OnEntry();
      }
      if i :| 0 <= i < |children| && children[i].OnEntry() {
        assert AheadOf(i, n) && SubRun(children[i].items, all);
        PlaceIsIndex(all, children[i].Current());
      }
    }

    method FindSmallest(ghost n: nat)
      requires Wired() && n <= |all|
      requires forall i | 0 <= i < |children| :: AheadOf(i, n)
      modifies this`current, this`at
      ensures at == n && (at == |all| <==> current.None?)
      ensures current.Some? ==> current.value < |children| && children[current.value].OnEntry()
                                && children[current.value].Current() == all[n]
      ensures current.Some? ==> forall i | 0 <= i < |children| && i != current.value :: PastOf(i, n)
    {
      var smallest: Option<nat> := None;
      for i := 0 to |children|
        invariant smallest.None? ==> forall j | 0 <= j < i :: !children[j].OnEntry()
        invariant smallest.Some? ==> smallest.value < i && children[smallest.value].OnEntry()
        invariant smallest.Some? ==> forall j | 0 <= j < i && children[j].OnEntry() ::
          !Less(children[j].Current().key, children[smallest.value].Current().key)
      {
        if children[i].OnEntry() {
          if smallest.None? {
            smallest := Some(i);
          } else if Less(children[i].Current().key, children[smallest.value].Current().key) {
            smallest := Some(i);
          }
        }
      }
      SomeChildAhead(n);
      if smallest.Some? {
        SmallestShows(n, smallest.value);
      }
      current := smallest;
      at := n;
    }

    /** Of the children that stand before place `n`, the largest shows entry `n - 1`. */
    lemma LargestShows(n: nat, m: nat, c: nat)
      requires Wired() && n == m + 1 && n <= |all| && c < |children|
      requires forall i | 0 <= i < |children| :: BehindOf(i, n)
      requires children[c].OnEntry()
      requires forall i | 0 <= i < |children| && children[i].OnEntry() ::
                 !Less(children[c].Current().key, children[i].Current().key)
      ensures children[c].Current() == all[m]
      ensures forall i | 0 <= i < |children| && i != c :: BehindOf(i, m)
    {
      assert Held(m);
      var w :| 0 <= w < |children| && all[m] in children[w].items;
      assert BehindOf(w, n) && BehindOf(c, n);
      var p :| Cut(all, n, children[w].items, p) && children[w].pos == StepBack(children[w].items, p);
      HeadOfCut(all, m, children[w].items, p);
      var q :| Cut(all, n, children[c].items, q) && children[c].pos == StepBack(children[c].items, q);
      assert SubRun(children[c].items, all);
      PlaceOrder(all, children[c].Current(), all[m]);
      PlaceOfIndex(all, m);
      PlaceIsIndex(all, children[c].Current());
      forall i | 0 <= i < |children| && i != c ensures BehindOf(i, m) {
        assert BehindOf(i, n) && all[m] !in children[i].items;
        var r :| Cut(all, n, children[i].items, r) && children[i].pos == StepBack(children[i].items, r);
        ForeignCut(all, m, children[i].items, r);
      }
    }

    lemma SomeChildBehind(n: nat)
      requires Wired() && n <= |all|
      requires forall i | 0 <= i < |children| :: BehindOf(i, n)
      ensures 0 < n <==> exists i :: 0 <= i < |children| && children[i].OnEntry()
    {
      if 0 < n {
        assert Held(n - 1);
        var w :| 0 <= w < |children| && all[n - 1] in children[w].items;
        assert BehindOf(w, n);
        var p :| Cut(all, n, children[w].items, p) && children[w].pos == StepBack(children[w].items, p);
        HeadOfCut(all, n - 1, children[w].items, p);
        assert children[w].OnEntry();
      }
      if i :| 0 <= i < |children| && children[i].OnEntry() {
        assert BehindOf(i, n);
        var p :| Cut(all, n, children[i].items, p) && children[i].pos == StepBack(children[i].items, p);
        assert Place(all, children[i].items[p - 1]) < n;
      }
    }

    method FindLargest(ghost n: nat)
      requires Wired() && n <= |all|
      requires forall i | 0 <= i < |children| :: BehindOf(i, n)
      modifies this`current, this`at
      ensures at == StepBack(all, n) && (at == |all| <==> current.None?)
      ensures current.Some? ==> current.value < |children| && children[current.value].OnEntry()
                                && children[current.value].Current() == all[at]
      ensures current.Some? ==> forall i | 0 <= i < |children| && i != current.value :: BehindOf(i, at)
    {
      var largest: Option<nat> := None;
      for i := |children| downto 0
        invariant largest.None? ==> forall j | i <= j < |children| :: !children[j].OnEntry()
        invariant largest.Some? ==> i <= largest.value < |children| && children[largest.value].OnEntry()
        invariant largest.Some? ==> forall j | i <= j < |children| && children[j].OnEntry() ::
          !Less(children[largest.value].Current().key, children[j].Current().key)
      {
        if children[i].OnEntry() {
          if largest.None? {
            largest := Some(i);
          } else if Less(children[largest.value].Current().key, children[i].Current().key) {
            largest := Some(i);
          }
        }
      }
      SomeChildBehind(n);
      if largest.Some? {
        LargestShows(n, n - 1, largest.value);
      }
      current := largest;
      at := StepBack(all, n);
    }

    method SeekToFirst()
      requires Valid()
      modifies this, children
      ensures Valid() && at == 0
    {
      for i := 0 to |children|
        invariant forall j | 0 <= j < i :: AheadOf(j, 0)
      {
        children[i].SeekToFirst();
        EndsCut(all, children[i].items);
      }
      FindSmallest(0);
      direction := Forward;
    }

    method SeekToLast()
      requires Valid()
      modifies this, children
      ensures Valid() && at == StepBack(all, |all|)
    {
      for i := 0 to |children|
        invariant forall j | 0 <= j < i :: BehindOf(j, |all|)
      {
        children[i].SeekToLast();
        EndsCut(all, children[i].items);
        assert BehindOf(i, |all|);
      }
      FindLargest(|all|);
      direction := Reverse;
    }

    method Seek(target: Key)
      requires Valid()
      modifies this, children
      ensures Valid() && at == LowerBound(all, target)
    {
      ghost var n := LowerBound(all, target);
      for i := 0 to |children|
        invariant forall j | 0 <= j < i :: AheadOf(j, n)
      {
        assert SubRun(children[i].items, all);
        children[i].Seek(target);
        SeekCuts(all, children[i].items, target);
        assert AheadOf(i, n);
      }
      FindSmallest(n);
      direction := Forward;
    }

    /** The target of a turn is the current key, which only the current child holds. */
    lemma TurnCuts(i: nat)
      requires Wired() && at < |all| && i < |children|
      requires all[at] !in children[i].items
      ensures Cut(all, at, children[i].items, LowerBound(children[i].items, all[at].key))
      ensures Cut(all, at + 1, children[i].items, LowerBound(children[i].items, all[at].key))
      ensures var p := LowerBound(children[i].items, all[at].key);
              p < |children[i].items| ==> children[i].items[p].key != all[at].key
    {
      var run := children[i].items;
      assert SubRun(run, all);
      PlaceOfIndex(all, at);
      SeekCuts(all, run, all[at].key);
      var p := LowerBound(run, all[at].key);
      ForeignCut(all, at, run, p);
      if p < |run| { PlaceOrder(all, run[p], all[at]); }
    }

    method Next()
      requires Valid() && OnEntry()
      modifies this, children
      ensures Valid() && at == old(at) + 1
    {
      var c := current.value;
      var key := children[c].Current().key;
      if direction != Forward {
        TurnForward(c, key);
        direction := Forward;
      }
      assert SubRun(children[c].items, all);
      OwnCut(all, children[c].items, children[c].pos);
      PlaceOfIndex(all, at);
      children[c].Next();
      ghost var n := at + 1;
      forall i | 0 <= i < |children| ensures AheadOf(i, n) {
        if i != c { assert PastOf(i, at); }
      }
      FindSmallest(n);
    }

    method TurnForward(c: nat, key: Key)
      requires Wired() && c < |children| && at < |all| && key == all[at].key && all[at] in children[c].items
      modifies set i | 0 <= i < |children| && i != c :: children[i]
      ensures forall i | 0 <= i < |children| && i != c :: PastOf(i, at)
    {
      for i := 0 to |children|
        invariant forall j | 0 <= j < i && j != c :: PastOf(j, at)
      {
        if i != c {
          assert SubRun(children[i].items, all);
          children[i].Seek(key);
          var same := children[i].OnEntry() && children[i].Current().key == key;
          if same {
            children[i].Next();
          }
          TurnCuts(i);
          assert PastOf(i, at);
        }
      }
    }

    method Prev()
      requires Valid() && OnEntry()
      modifies this, children
      ensures Valid() && at == StepBack(all, old(at))
    {
      var c := current.value;
      var key := children[c].Current().key;
      if direction != Reverse {
        TurnBack(c, key);
        direction := Reverse;
      }
      assert SubRun(children[c].items, all);
      OwnCut(all, children[c].items, children[c].pos);
      PlaceOfIndex(all, at);
      children[c].Prev();
      assert BehindOf(c, at);
      FindLargest(at);
    }

    method TurnBack(c: nat, key: Key)
      requires Wired() && c < |children| && at < |all| && key == all[at].key && all[at] in children[c].items
      modifies set i | 0 <= i < |children| && i != c :: children[i]
      ensures forall i | 0 <= i < |children| && i != c :: BehindOf(i, at)
    {
      for i := 0 to |children|
        invariant forall j | 0 <= j < i && j != c :: BehindOf(j, at)
      {
        if i != c {
          assert SubRun(children[i].items, all);
          children[i].Seek(key);
          TurnCuts(i);
          if children[i].OnEntry() {
            children[i].Prev();
          } else {
            children[i].SeekToLast();
          }
          assert BehindOf(i, at);
        }
      }
    }
  }
}
