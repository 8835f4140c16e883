/** The skip list of a memtable. Nodes live in an arena and are never freed, so a pointer is an
    index into it; node 0 is the head, and as a successor 0 stands for null. */
module SkipLists {

  const MAX_HEIGHT: nat := 12
  const HEAD: nat := 0
  const NULL: nat := 0

  /** The nodes, and the lists that they form, one for each level. */
  datatype Shape = Shape(keys: seq<int>, next: seq<seq<nat>>, levels: seq<seq<nat>>)

  ghost predicate Ascending(s: Shape, list: seq<nat>) {
    forall i, j | 0 <= i < j < |list| :: Before(s, list, i, j)
  }

  ghost predicate Before(s: Shape, list: seq<nat>, i: nat, j: nat)
    requires i < |list| && j < |list|
  {
    list[i] < |s.keys| && list[j] < |s.keys| && s.keys[list[i]] < s.keys[list[j]]
  }

  /** The node at an index of a level that has its head in front. */
  function NodeAt(list: seq<nat>, i: nat): nat
    requires i <= |list|
  {
    if i == 0 then HEAD else list[i - 1]
  }

  function SuccessorOf(list: seq<nat>, i: nat): nat
    requires i <= |list|
  {
    if i < |list| then list[i] else NULL
  }

  /** A node is tall enough for the level and points to the one that follows it there. */
  ghost predicate LinkAt(s: Shape, l: nat, i: nat)
    requires l < |s.levels| && i <= |s.levels[l]|
  {
    var x := NodeAt(s.levels[l], i);
    x < |s.next| && l < |s.next[x]| && s.next[x][l] == SuccessorOf(s.levels[l], i)
  }

  ghost predicate LevelOk(s: Shape, l: nat)
    requires l < |s.levels|
  {
    && (forall i | 0 <= i < |s.levels[l]| :: 0 < s.levels[l][i] < |s.keys|)
    && Ascending(s, s.levels[l])
    && (forall i | 0 <= i <= |s.levels[l]| :: LinkAt(s, l, i))
  }

  /** Each level is a sorted list, and a part of the level below it. */
  ghost predicate Linked(s: Shape) {
    && |s.keys| == |s.next| > 0 && |s.levels| == MAX_HEIGHT
    && (forall l | 0 <= l < MAX_HEIGHT :: LevelOk(s, l))
    && (forall l | 0 <= l < MAX_HEIGHT - 1 :: Contained(s, l))
  }

  ghost predicate Contained(s: Shape, l: nat)
    requires l + 1 < |s.levels|
  {
    forall x | x in s.levels[l + 1] :: x in s.levels[l]
  }

  // ----- Searching ----------------------------------------------------------------------------------

  /** How many nodes of a list are before the key: a linear scan. */
  ghost function Rank(s: Shape, list: seq<nat>, key: int): (r: nat)
    ensures r <= |list|
    ensures forall i | 0 <= i < r :: list[i] < |s.keys| && s.keys[list[i]] < key
    ensures r < |list| ==> !(list[r] < |s.keys| && s.keys[list[r]] < key)
  {
    if list == [] then 0
    else if list[0] < |s.keys| && s.keys[list[0]] < key then 1 + Rank(s, list[1..], key)
    else 0
  }

  lemma RankIs(s: Shape, list: seq<nat>, key: int, r: nat)
    requires Ascending(s, list) && (forall i | 0 <= i < |list| :: list[i] < |s.keys|) && r <= |list|
    requires (r > 0 ==> s.keys[list[r - 1]] < key) && (r < |list| ==> s.keys[list[r]] >= key)
    ensures Rank(s, list, key) == r
  {
    var q := Rank(s, list, key);
    assert q < r - 1 ==> Before(s, list, q, r - 1);
  }

  /** A search stands on the head or on a node before the key. */
  ghost predicate Stands(s: Shape, x: nat, l: nat, key: int) {
    l < |s.levels| && exists i: nat :: StandsAt(s, x, l, key, i)
  }

  ghost predicate StandsAt(s: Shape, x: nat, l: nat, key: int, i: nat)
    requires l < |s.levels|
  {
    && i <= |s.levels[l]| && x == NodeAt(s.levels[l], i)
    && (i > 0 ==> x < |s.keys| && s.keys[x] < key)
  }

  lemma StandsBelow(s: Shape, x: nat, l: nat, key: int, i: nat) returns (j: nat)
    requires Linked(s) && 0 < l < MAX_HEIGHT && StandsAt(s, x, l, key, i)
    ensures StandsAt(s, x, l - 1, key, j)
  {
    if i == 0 {
      j := 0;
    } else {
      var lower := s.levels[l - 1];
      assert Contained(s, l - 1) && x in s.levels[l];
      assert x in lower;
      var k :| 0 <= k < |lower| && lower[k] == x;
      j := k + 1;
    }
  }

  /** One look at the successor: it is before the key, or the search has come to the place of
      the key in this list. */
  lemma LookAhead(s: Shape, x: nat, l: nat, key: int, i: nat)
    requires Linked(s) && l < MAX_HEIGHT && StandsAt(s, x, l, key, i)
    ensures x < |s.next| && l < |s.next[x]| && s.next[x][l] < |s.keys|
    ensures var n, list := s.next[x][l], s.levels[l];
            && (n == NULL <==> i == |list|)
            && if n != NULL && s.keys[n] < key then i < |list| && StandsAt(s, n, l, key, i + 1)
               else x == NodeAt(list, Rank(s, list, key)) && n == SuccessorOf(list, Rank(s, list, key))
  {
    assert LevelOk(s, l) && LinkAt(s, l, i);
    var n := s.next[x][l];
    if n == NULL || s.keys[n] >= key {
      RankIs(s, s.levels[l], key, i);
    }
  }

  // ----- Inserting ------------------------------------------------------------------------------------

  function InsertAt(list: seq<nat>, r: nat, x: nat): (out: seq<nat>)
    requires r <= |list|
    ensures |out| == |list| + 1
  {
    list[..r] + [x] + list[r..]
  }

  /** A node is linked into one level: its own pointer first, then the one before it. */
  function LinkedInto(s: Shape, x: nat, l: nat, p: nat, r: nat): Shape
    requires l < |s.levels| && r <= |s.levels[l]| && x < |s.next| && p < |s.next| && x != p
    requires l < |s.next[x]| && l < |s.next[p]|
  {
    var own := s.next[x := s.next[x][l := s.next[p][l]]];
    Shape(s.keys, own[p := own[p][l := x]], s.levels[l := InsertAt(s.levels[l], r, x)])
  }

  /** The node may go into this level: it is new there, it is in the level below, and its key
      is new. */
  ghost predicate MayLink(s: Shape, x: nat, l: nat) {
    && l < MAX_HEIGHT && |s.levels| == MAX_HEIGHT && 0 < x < |s.keys| == |s.next| && l < |s.next[x]|
    && x !in s.levels[l] && (l > 0 ==> x in s.levels[l - 1]) && (l + 1 < MAX_HEIGHT ==> x !in s.levels[l + 1])
    && forall i | 0 <= i < |s.levels[l]| :: s.levels[l][i] < |s.keys| && s.keys[s.levels[l][i]] != s.keys[x]
  }

  lemma InsertedAscends(s: Shape, list: seq<nat>, x: nat)
    requires Ascending(s, list) && x < |s.keys|
    requires forall i | 0 <= i < |list| :: list[i] < |s.keys| && s.keys[list[i]] != s.keys[x]
    ensures Ascending(s, InsertAt(list, Rank(s, list, s.keys[x]), x))
  {
    var r := Rank(s, list, s.keys[x]);
    var out := InsertAt(list, r, x);
    assert r < |list| ==> s.keys[list[r]] > s.keys[x];
    forall i, j | 0 <= i < j < |out| ensures Before(s, out, i, j) {
      InsertedBefore(s, list, x, r, i, j);
    }
  }

  lemma InsertedBefore(s: Shape, list: seq<nat>, x: nat, r: nat, i: nat, j: nat)
    requires Ascending(s, list) && x < |s.keys| && i < j <= |list| && r <= |list|
    requires forall k | 0 <= k < |list| :: list[k] < |s.keys|
    requires (forall k | 0 <= k < r :: s.keys[list[k]] < s.keys[x]) && (r < |list| ==> s.keys[list[r]] > s.keys[x])
    ensures Before(s, InsertAt(list, r, x), i, j)
  {
    if j < r {
      assert Before(s, list, i, j);
    } else if r < i {
      assert Before(s, list, i - 1, j - 1);
    } else if r < j - 1 {
      assert Before(s, list, r, j - 1);
    }
  }

  /** Every step of the insertion leaves a skip list. */
  lemma LinkKeepsShape(s: Shape, x: nat, l: nat)
    requires Linked(s) && MayLink(s, x, l)
    ensures var r := Rank(s, s.levels[l], s.keys[x]);
            var p := NodeAt(s.levels[l], r);
            && p < |s.next| && p != x && l < |s.next[p]|
            && Linked(LinkedInto(s, x, l, p, r))
  {
    var r := Rank(s, s.levels[l], s.keys[x]);
    var p := NodeAt(s.levels[l], r);
    assert LevelOk(s, l) && LinkAt(s, l, r);
    var t := LinkedInto(s, x, l, p, r);
    LinkedLevel(s, x, l, p, r);
    forall m | 0 <= m < MAX_HEIGHT && m != l ensures LevelOk(t, m) {
      OtherLevel(s, t, x, l, p, r, m);
    }
    forall m | 0 <= m < MAX_HEIGHT - 1 ensures Contained(t, m) {
      StillContained(s, t, x, l, r, m);
    }
  }

  lemma StillContained(s: Shape, t: Shape, x: nat, l: nat, r: nat, m: nat)
    requires Linked(s) && MayLink(s, x, l) && r <= |s.levels[l]| && m < MAX_HEIGHT - 1
    requires t.levels == s.levels[l := InsertAt(s.levels[l], r, x)]
    ensures Contained(t, m)
  {
    assert Contained(s, m);
    InInserted(s.levels[l], r, x);
  }

  lemma InInserted(list: seq<nat>, r: nat, x: nat)
    requires r <= |list|
    ensures forall y :: y in InsertAt(list, r, x) <==> y == x || y in list
  {
    var out := InsertAt(list, r, x);
    assert out[r] == x;
    forall y | y in list ensures y in out {
      var i :| 0 <= i < |list| && list[i] == y;
      assert out[if i < r then i else i + 1] == y;
    }
  }

  lemma LinkedLevel(s: Shape, x: nat, l: nat, p: nat, r: nat)
    requires Linked(s) && MayLink(s, x, l) && r == Rank(s, s.levels[l], s.keys[x]) && p == NodeAt(s.levels[l], r)
    requires p < |s.next| && l < |s.next[p]|
    ensures p != x && LevelOk(LinkedInto(s, x, l, p, r), l)
  {
    var list := s.levels[l];
    assert LevelOk(s, l);
    LinkedIndex(s, x, l, p, r, 0);
    var t := LinkedInto(s, x, l, p, r);
    InsertedAscends(s, list, x);
    SameKeysAscend(s, t, InsertAt(list, r, x));
    forall i | 0 <= i <= |t.levels[l]| ensures LinkAt(t, l, i) {
      LinkedIndex(s, x, l, p, r, i);
    }
    forall i | 0 <= i < |t.levels[l]| ensures 0 < t.levels[l][i] < |t.keys| {}
  }

  lemma SameKeysAscend(s: Shape, t: Shape, list: seq<nat>)
    requires Ascending(s, list) && s.keys <= t.keys
    ensures Ascending(t, list)
  {
    forall i, j | 0 <= i < j < |list| ensures Before(t, list, i, j) {
      assert Before(s, list, i, j);
    }
  }

  lemma LinkedIndex(s: Shape, x: nat, l: nat, p: nat, r: nat, i: nat)
    requires l < |s.levels| && LevelOk(s, l) && x != HEAD && x !in s.levels[l] && x < |s.next| && l < |s.next[x]|
    requires r <= |s.levels[l]| && p == NodeAt(s.levels[l], r) && p < |s.next| && l < |s.next[p]|
             && i <= |s.levels[l]| + 1
    ensures p != x && LinkAt(LinkedInto(s, x, l, p, r), l, i)
  {
    var list := s.levels[l];
    assert LinkAt(s, l, r);
    if i < r {
      assert LinkAt(s, l, i);
      OneNode(s, l, i, r);
      assert NodeAt(InsertAt(list, r, x), i) == NodeAt(list, i);
    } else if i > r + 1 {
      assert LinkAt(s, l, i - 1);
      OneNode(s, l, i - 1, r);
      assert NodeAt(InsertAt(list, r, x), i) == NodeAt(list, i - 1);
    }
  }

  /** A level has each node once. */
  lemma OneNode(s: Shape, l: nat, i: nat, j: nat)
    requires l < |s.levels| && LevelOk(s, l) && i <= |s.levels[l]| && j <= |s.levels[l]|
    ensures NodeAt(s.levels[l], i) == NodeAt(s.levels[l], j) ==> i == j
  {
    assert 0 < i < j ==> Before(s, s.levels[l], i - 1, j - 1);
    assert 0 < j < i ==> Before(s, s.levels[l], j - 1, i - 1);
  }

  lemma OtherLevel(s: Shape, t: Shape, x: nat, l: nat, p: nat, r: nat, m: nat)
    requires l < |s.levels| && r <= |s.levels[l]| && x < |s.next| && p < |s.next| && x != p && l < |s.next[x]|
             && l < |s.next[p]|
    requires t == LinkedInto(s, x, l, p, r) && m < |s.levels| && m != l && LevelOk(s, m)
    ensures LevelOk(t, m)
  {
    forall i, j | 0 <= i < j < |t.levels[m]| ensures Before(t, t.levels[m], i, j) {
      assert Before(s, s.levels[m], i, j);
    }
    forall i | 0 <= i <= |t.levels[m]| ensures LinkAt(t, m, i) {
      assert LinkAt(s, m, i);
    }
  }

  /** A search that a link comes in between still stands in its list. */
  lemma SearchSurvives(s: Shape, x: nat, l: nat, key: int, y: nat, m: nat, p: nat, r: nat)
    requires Stands(s, x, l, key)
    requires m < |s.levels| && r <= |s.levels[m]| && y < |s.next| && p < |s.next| && y != p && m < |s.next[y]|
             && m < |s.next[p]|
    ensures Stands(LinkedInto(s, y, m, p, r), x, l, key)
  {
    StandsAfterInsert(s, LinkedInto(s, y, m, p, r), x, l, key, y, m, r);
  }

  lemma StandsAfterInsert(s: Shape, t: Shape, x: nat, l: nat, key: int, y: nat, m: nat, r: nat)
    requires Stands(s, x, l, key) && m < |s.levels| && r <= |s.levels[m]|
    requires t.keys == s.keys && t.levels == s.levels[m := InsertAt(s.levels[m], r, y)]
    ensures Stands(t, x, l, key)
  {
    var i: nat :| StandsAt(s, x, l, key, i);
    if l == m && i > r {
      assert t.levels[m][i] == s.levels[m][i - 1];
      assert StandsAt(t, x, l, key, i + 1);
    } else {
      assert StandsAt(t, x, l, key, i);
    }
  }

  class SkipList {
    var keys: seq<int>
    var next: seq<seq<nat>>
    var maxHeight: nat
    ghost var levels: seq<seq<nat>>

    ghost function Nodes(): Shape
      reads this
    {
      Shape(keys, next, levels)
    }

    ghost predicate Valid()
      reads this
    {
      && Linked(Nodes()) && 1 <= maxHeight <= MAX_HEIGHT
      && forall l | maxHeight <= l < MAX_HEIGHT :: levels[l] == []
    }

    /** The node before which a level has its last key that is below this one. */
    ghost function Place(l: nat, key: int): (r: nat)
      requires l < |levels|
      reads this
      ensures r <= |levels[l]|
    {
      Rank(Nodes(), levels[l], key)
    }

    constructor ()
      ensures Valid() && levels[0] == []
    {
      keys, next, maxHeight := [0], [seq(MAX_HEIGHT, _ => NULL)], 1;
      levels := seq(MAX_HEIGHT, _ => []);
      new;
      forall l | 0 <= l < MAX_HEIGHT ensures LevelOk(Nodes(), l) {
        assert LinkAt(Nodes(), l, 0);
      }
    }

    /** The first node that is not before the key, and at each level the node in front of the
        key's place. */
    method FindGreaterOrEqual(key: int) returns (node: nat, prev: seq<nat>)
      requires Valid()
      ensures node == SuccessorOf(levels[0], Place(0, key)) && node < |keys|
      ensures |prev| == MAX_HEIGHT && forall l | 0 <= l < MAX_HEIGHT :: prev[l] == NodeAt(levels[l], Place(l, key))
    {
      var x: nat, level: nat := HEAD, maxHeight - 1;
      prev := seq(MAX_HEIGHT, _ => HEAD);
      ghost var i := 0;
      while true
        invariant level < maxHeight && StandsAt(Nodes(), x, level, key, i)
        invariant |prev| == MAX_HEIGHT && forall l | level < l < MAX_HEIGHT ::
                  prev[l] == NodeAt(levels[l], Place(l, key))
        decreases level, |levels[level]| - i
      {
        LookAhead(Nodes(), x, level, key, i);
        var n := next[x][level];
        if n != NULL && keys[n] < key {
          x := n;
          i := i + 1;
        } else {
          prev := prev[level := x];
          if level == 0 {
            return n, prev;
          }
          i := StandsBelow(Nodes(), x, level, key, i);
          level := level - 1;
        }
      }
    }

    /** The last node before the key, or the head. */
    method FindLessThan(key: int) returns (node: nat)
      requires Valid()
      ensures node == NodeAt(levels[0], Place(0, key))
    {
      var x: nat, level: nat := HEAD, maxHeight - 1;
      ghost var i := 0;
      while true
        invariant level < maxHeight && StandsAt(Nodes(), x, level, key, i)
        decreases level, |levels[level]| - i
      {
        LookAhead(Nodes(), x, level, key, i);
        var n := next[x][level];
        if n == NULL || keys[n] >= key {
          if level == 0 {
            return x;
          }
          i := StandsBelow(Nodes(), x, level, key, i);
          level := level - 1;
        } else {
          x := n;
          i := i + 1;
        }
      }
    }

    /** The last node, or the head. */
    method FindLast() returns (node: nat)
      requires Valid()
      ensures node == NodeAt(levels[0], |levels[0]|)
    {
      var x: nat, level: nat := HEAD, maxHeight - 1;
      ghost var i, key := 0, 0;
      while true
        invariant level < maxHeight && StandsAt(Nodes(), x, level, key, i)
        decreases level, |levels[level]| - i
      {
        LookAhead(Nodes(), x, level, key, i);
        var n := next[x][level];
        if n == NULL {
          if level == 0 {
            return x;
          }
          i := StandsBelow(Nodes(), x, level, key, i);
          level := level - 1;
        } else {
          assert LevelOk(Nodes(), level) && LinkAt(Nodes(), level, i);
          x := n;
          i := i + 1;
          key := keys[n] + 1;
        }
      }
    }

    ghost predicate HasKey(key: int)
      reads this
      requires |levels| == MAX_HEIGHT
    {
      exists i :: 0 <= i < |levels[0]| && levels[0][i] < |keys| && keys[levels[0][i]] == key
    }

    method Contains(key: int) returns (found: bool)
      requires Valid()
      ensures found <==> HasKey(key)
    {
      var x, _ := FindGreaterOrEqual(key);
      assert LevelOk(Nodes(), 0);
      ghost var r := Place(0, key);
      found := x != NULL && keys[x] == key;
      forall i | 0 <= i < |levels[0]| && keys[levels[0][i]] == key ensures i == r {
        assert r < i ==> Before(Nodes(), levels[0], r, i);
      }
    }

    /** Adds a key under any height. */
    method Insert(key: int, height: nat)
      requires Valid() && 1 <= height <= MAX_HEIGHT && !HasKey(key)
      modifies this
      ensures Valid() && keys == old(keys) + [key] && levels == LevelsWith(old(Nodes()), key, |old(keys)|, height)
    {
      var _, prev := FindGreaterOrEqual(key);
      NewNode(Nodes(), key, height);
      ghost var before := Nodes();
      if height > maxHeight {
        maxHeight := height;
      }
      var x: nat := |keys|;
      keys := keys + [key];
      next := next + [seq(height, _ => NULL)];
      LinkLevels(key, x, height, prev, before);
    }

    /** Links the new node from the lowest level up. Each step leaves a skip list in which every
        level is a sorted part of the one below. */
    method LinkLevels(key: int, x: nat, height: nat, prev: seq<nat>, ghost before: Shape)
      requires Valid() && height <= maxHeight && |next| == |keys| == x + 1 && |next[x]| == height
      requires Linked(before) && Absent(before, key) && x == |before.keys|
      requires keys == before.keys + [key] && levels == before.levels
      requires |prev| == MAX_HEIGHT
      requires forall l | 0 <= l < MAX_HEIGHT ::
               prev[l] == NodeAt(before.levels[l], Rank(before, before.levels[l], key))
      modifies this`next, this`levels
      ensures Valid() && levels == LevelsWith(before, key, x, height)
    {
      for i := 0 to height
        invariant Valid() && |next[x]| == height && levels == LevelsWith(before, key, x, i)
      {
        LinkNext(key, x, height, prev, i, before);
      }
    }

    /** The next level. */
    method LinkNext(key: int, x: nat, height: nat, prev: seq<nat>, l: nat, ghost before: Shape)
      requires Valid() && l < height <= maxHeight && |next| == |keys| == x + 1 && |next[x]| == height
      requires Linked(before) && Absent(before, key) && x == |before.keys|
      requires keys == before.keys + [key] && levels == LevelsWith(before, key, x, l)
      requires |prev| == MAX_HEIGHT && prev[l] == NodeAt(before.levels[l], Rank(before, before.levels[l], key))
      modifies this`next, this`levels
      ensures Valid() && |next| == |keys| && |next[x]| == height && levels == LevelsWith(before, key, x, l + 1)
      ensures levels == old(levels)[l := InsertAt(old(levels)[l], old(Place(l, key)), x)]
    {
      NewIsBelow(before, key, x, l);
      NewToLevel(before, Nodes(), key, x, l);
      Link(x, l, prev[l]);
      OneMoreLevel(before, key, x, l);
    }

    /** One step of the insertion. */
    method Link(x: nat, l: nat, p: nat)
      requires Valid() && MayLink(Nodes(), x, l) && p == NodeAt(levels[l], Place(l, keys[x])) && l < maxHeight
      modifies this`next, this`levels
      ensures Valid() && levels == old(levels)[l := InsertAt(old(levels)[l], old(Place(l, keys[x])), x)]
      ensures forall y | 0 <= y < |next| :: |next[y]| == |old(next)[y]|
    {
      ghost var r := Place(l, keys[x]);
      LinkKeepsShape(Nodes(), x, l);
      var own: seq<nat> := next[x][l := next[p][l]];
      next := next[x := own];
      var other: seq<nat> := next[p][l := x];
      next := next[p := other];
      levels := levels[l := InsertAt(levels[l], r, x)];
    }
  }

  /** A node that is in no list changes nothing. */
  lemma NewNode(s: Shape, key: int, height: nat)
    requires Linked(s)
    ensures Linked(Shape(s.keys + [key], s.next + [seq(height, _ => NULL)], s.levels))
  {
    var t := Shape(s.keys + [key], s.next + [seq(height, _ => NULL)], s.levels);
    forall l | 0 <= l < MAX_HEIGHT ensures LevelOk(t, l) {
      assert LevelOk(s, l);
      SameKeysAscend(s, t, s.levels[l]);
      forall i | 0 <= i <= |s.levels[l]| ensures LinkAt(t, l, i) {
        assert LinkAt(s, l, i);
      }
    }
    forall l | 0 <= l < MAX_HEIGHT - 1 ensures Contained(t, l) {
      assert Contained(s, l);
    }
  }

  ghost predicate Absent(s: Shape, key: int) {
    |s.levels| == MAX_HEIGHT && forall i | 0 <= i < |s.levels[0]| && s.levels[0][i] < |s.keys| ::
        s.keys[s.levels[0][i]] != key
  }

  /** The levels with a node inserted into the lowest ones. */
  ghost function LevelsWith(s: Shape, key: int, x: nat, height: nat): (levels: seq<seq<nat>>)
    ensures |levels| == |s.levels|
  {
    seq(|s.levels|, l requires 0 <= l < |s.levels| =>
      if l < height then InsertAt(s.levels[l], Rank(s, s.levels[l], key), x) else s.levels[l])
  }

  lemma NewIsBelow(s: Shape, key: int, x: nat, l: nat)
    requires l < |s.levels|
    ensures l > 0 ==> x in LevelsWith(s, key, x, l)[l - 1]
  {
    if l > 0 {
      var r := Rank(s, s.levels[l - 1], key);
      assert InsertAt(s.levels[l - 1], r, x)[r] == x;
    }
  }

  lemma OneMoreLevel(s: Shape, key: int, x: nat, l: nat)
    requires l < |s.levels|
    ensures LevelsWith(s, key, x, l)[l := InsertAt(s.levels[l], Rank(s, s.levels[l], key), x)]
            == LevelsWith(s, key, x, l + 1)
  {
  }

  lemma {:induction false} InBottom(s: Shape, l: nat, x: nat)
    requires Linked(s) && l < MAX_HEIGHT && x in s.levels[l]
    ensures x in s.levels[0]
  {
    if l > 0 {
      assert Contained(s, l - 1);
      InBottom(s, l - 1, x);
    }
  }

  /** The new node may be linked into the level that comes next, at the place that was found. */
  lemma NewToLevel(before: Shape, s: Shape, key: int, x: nat, l: nat)
    requires Linked(before) && Linked(s) && x == |before.keys| && s.keys == before.keys + [key] && l < MAX_HEIGHT
             && l < |s.next[x]|
    requires Absent(before, key)
    requires forall m | l <= m < MAX_HEIGHT :: s.levels[m] == before.levels[m]
    requires l > 0 ==> x in s.levels[l - 1]
    ensures MayLink(s, x, l) && Rank(s, s.levels[l], key) == Rank(before, before.levels[l], key)
  {
    var list := before.levels[l];
    assert LevelOk(before, l);
    if l + 1 < MAX_HEIGHT { assert LevelOk(before, l + 1); }
    forall i | 0 <= i < |list| ensures list[i] < |before.keys| && before.keys[list[i]] != key {
      assert list[i] in list;
      InBottom(before, l, list[i]);
    }
    SameRank(before, s, list, key);
  }

  lemma {:induction false} SameRank(a: Shape, b: Shape, list: seq<nat>, key: int)
    requires (forall i | 0 <= i < |list| :: list[i] < |a.keys|) && a.keys <= b.keys
    ensures Rank(a, list, key) == Rank(b, list, key)
  {
    if list != [] {
      SameRank(a, b, list[1..], key);
    }
  }

  datatype Result = Searching | Found(node: nat)

  /** A reader's search, one look at a time; the writer may link nodes in between. */
  class Search {
    const key: int
    var x: nat
    var level: nat
    var result: Result

    ghost predicate Valid(s: Shape)
      reads this
    {
      result.Searching? ==> level < MAX_HEIGHT && Stands(s, x, level, key)
    }

    constructor (list: SkipList, key: int)
      requires list.Valid()
      ensures Valid(list.Nodes()) && this.key == key && result.Searching?
    {
      this.key, x, level, result := key, HEAD, list.maxHeight - 1, Searching;
      new;
      assert StandsAt(list.Nodes(), x, level, key, 0);
    }

    /** The search ends at the first node that is not before the key, among those that are in
        the list by then. */
    method Step(list: SkipList)
      requires list.Valid() && Valid(list.Nodes()) && result.Searching?
      modifies this
      ensures Valid(list.Nodes())
      ensures result.Found? ==> result.node == SuccessorOf(list.levels[0], list.Place(0, key))
    {
      ghost var s := list.Nodes();
      ghost var i: nat :| StandsAt(s, x, level, key, i);
      LookAhead(s, x, level, key, i);
      var n := list.next[x][level];
      if n != NULL && list.keys[n] < key {
        x := n;
      } else if level == 0 {
        result := Found(n);
      } else {
        ghost var j := StandsBelow(s, x, level, key, i);
        level := level - 1;
        assert StandsAt(s, x, level, key, j);
      }
    }
  }

  /** A new node, in no list yet, leaves a search where it is. */
  lemma SearchSurvivesNode(s: Shape, x: nat, l: nat, key: int, newKey: int, height: nat)
    requires Stands(s, x, l, key)
    ensures Stands(Shape(s.keys + [newKey], s.next + [seq(height, _ => NULL)], s.levels), x, l, key)
  {
    var i: nat :| StandsAt(s, x, l, key, i);
    assert StandsAt(Shape(s.keys + [newKey], s.next + [seq(height, _ => NULL)], s.levels), x, l, key, i);
  }

  // ----- Searching while keys are inserted -----------------------------------------------------------

  /** An insertion, one level at a time. */
  class Insertion {
    const list: SkipList
    const key: int
    const height: nat
    const x: nat
    const prev: seq<nat>
    var level: nat
    ghost const before: Shape

    ghost predicate Valid()
      reads this, list
    {
      && list.Valid() && level <= height <= list.maxHeight
      && |list.next| == |list.keys| == x + 1 && |list.next[x]| == height
      && Linked(before) && Absent(before, key) && x == |before.keys| && list.keys == before.keys + [key]
      && list.levels == LevelsWith(before, key, x, level)
      && |prev| == MAX_HEIGHT
      && forall l | 0 <= l < MAX_HEIGHT :: prev[l] == NodeAt(before.levels[l], Rank(before, before.levels[l], key))
    }

    /** Finds the places and makes the node. */
    constructor (list: SkipList, key: int, height: nat)
      requires list.Valid() && 1 <= height <= MAX_HEIGHT && !list.HasKey(key)
      modifies list
      ensures Valid() && this.list == list && level == 0 && this.height == height
      ensures list.Nodes() == Shape(old(list.keys) + [key], old(list.next) + [seq(height, _ => NULL)], old(list.levels))
    {
      var _, prev := list.FindGreaterOrEqual(key);
      NewNode(list.Nodes(), key, height);
      this.list, this.key, this.height, this.x, this.prev, this.before := list, key, height, |list.keys|, prev,
          list.Nodes();
      level := 0;
      new;
      if height > list.maxHeight {
        list.maxHeight := height;
      }
      list.keys := list.keys + [key];
      list.next := list.next + [seq(height, _ => NULL)];
    }

    /** Links the node into the next level. */
    method Step(ghost l: nat, ghost at: nat, ghost k: int)
      requires Valid() && level < height && Stands(list.Nodes(), at, l, k)
      modifies this, list
      ensures Valid() && Stands(list.Nodes(), at, l, k)
      ensures list.keys == old(list.keys) && forall y | y in old(list.levels)[0] :: y in list.levels[0]
    {
      ghost var s, r := list.Nodes(), list.Place(level, key);
      list.LinkNext(key, x, height, prev, level, before);
      StandsAfterInsert(s, list.Nodes(), at, l, k, x, level, r);
      InInserted(s.levels[level], r, x);
      level := level + 1;
    }
  }

  /** What a search may answer, given the keys that were there when it began: the node is in the
      list and not before the key, and no old key lies between. */
  ghost predicate Answers(s: Shape, from: Shape, key: int, node: nat) {
    && |s.levels| == |from.levels| == MAX_HEIGHT && from.keys <= s.keys
    && (node != NULL ==> node in s.levels[0] && node < |s.keys| && s.keys[node] >= key)
    && forall y | y in from.levels[0] && y < |from.keys| && from.keys[y] >= key :: node != NULL
        && s.keys[node] <= from.keys[y]
  }

  /** The list has grown. */
  ghost predicate Grown(from: Shape, s: Shape) {
    && |s.levels| == |from.levels| == MAX_HEIGHT && from.keys <= s.keys
    && forall y | y in from.levels[0] :: y in s.levels[0]
  }

  lemma ScanAnswers(s: Shape, from: Shape, key: int)
    requires Linked(s) && Grown(from, s)
    ensures Answers(s, from, key, SuccessorOf(s.levels[0], Rank(s, s.levels[0], key)))
  {
    var list, r := s.levels[0], Rank(s, s.levels[0], key);
    assert LevelOk(s, 0);
    forall y | y in from.levels[0] && y < |from.keys| && from.keys[y] >= key
      ensures r < |list| && s.keys[list[r]] <= from.keys[y]
    {
      var i :| 0 <= i < |list| && list[i] == y;
      assert i >= r;
      if i > r { assert Before(s, list, r, i); }
    }
  }

  lemma AnswersLater(s: Shape, t: Shape, from: Shape, key: int, node: nat)
    requires Answers(s, from, key, node) && Grown(s, t)
    ensures Answers(t, from, key, node)
  {
  }

  /** What the search knows or has answered. */
  ghost predicate Goes(search: Search, list: SkipList, from: Shape)
    reads search, list
  {
    && search.Valid(list.Nodes())
    && (search.result.Found? ==> Answers(list.Nodes(), from, search.key, search.result.node))
  }

  /** A reader and a writer take turns in any order. The reader's steps and the writer's, which
      make a node or link it into one level, may come in any mixture; keys that are there
      already are not inserted again. */
  method TakeTurns(list: SkipList, search: Search, inserts: seq<(int, nat)>, readerTurns: seq<bool>)
    requires list.Valid() && search.Valid(list.Nodes()) && search.result.Searching?
    requires forall i | 0 <= i < |inserts| :: 1 <= inserts[i].1 <= MAX_HEIGHT
    modifies list, search
    ensures list.Valid() && Grown(old(list.Nodes()), list.Nodes())
    ensures search.result.Found? ==> Answers(list.Nodes(), old(list.Nodes()), search.key, search.result.node)
  {
    ghost var start := list.Nodes();
    var writer: Insertion? := null;
    var n := 0;
    for i := 0 to |readerTurns|
      invariant list.Valid() && Grown(start, list.Nodes()) && Goes(search, list, start) && n <= |inserts|
      invariant writer != null ==> fresh(writer) && writer.list == list && writer.Valid()
    {
      if readerTurns[i] {
        if search.result.Searching? {
          ReaderTurn(list, search, start);
        }
      } else if writer != null && writer.level < writer.height {
        WriterTurn(list, search, writer, start);
      } else if n < |inserts| {
        var present := list.Contains(inserts[n].0);
        if !present {
          writer := NodeTurn(list, search, inserts[n].0, inserts[n].1, start);
        }
        n := n + 1;
      }
    }
  }

  method ReaderTurn(list: SkipList, search: Search, ghost start: Shape)
    requires list.Valid() && Grown(start, list.Nodes()) && Goes(search, list, start) && search.result.Searching?
    modifies search
    ensures Goes(search, list, start)
  {
    search.Step(list);
    ScanAnswers(list.Nodes(), start, search.key);
  }

  method WriterTurn(list: SkipList, search: Search, writer: Insertion, ghost start: Shape)
    requires writer.list == list && writer.Valid() && writer.level < writer.height
    requires Grown(start, list.Nodes()) && Goes(search, list, start)
    modifies writer, list
    ensures writer.Valid() && Grown(start, list.Nodes()) && Goes(search, list, start)
  {
    ghost var before := list.Nodes();
    if search.result.Searching? {
      writer.Step(search.level, search.x, search.key);
    } else {
      AtHead(before, search.key);
      writer.Step(0, HEAD, search.key);
      AnswersLater(before, list.Nodes(), start, search.key, search.result.node);
    }
  }

  lemma AtHead(s: Shape, key: int)
    requires Linked(s)
    ensures Stands(s, HEAD, 0, key)
  {
    assert StandsAt(s, HEAD, 0, key, 0);
  }

  method NodeTurn(list: SkipList, search: Search, key: int, height: nat, ghost start: Shape) returns (writer: Insertion)
    requires list.Valid() && 1 <= height <= MAX_HEIGHT && !list.HasKey(key)
    requires Grown(start, list.Nodes()) && Goes(search, list, start)
    modifies list
    ensures fresh(writer) && writer.list == list && writer.Valid() && Grown(start, list.Nodes())
            && Goes(search, list, start)
  {
    ghost var before := list.Nodes();
    if search.result.Searching? {
      SearchSurvivesNode(before, search.x, search.level, search.key, key, height);
    }
    writer := new Insertion(list, key, height);
    if search.result.Found? {
      AnswersLater(before, list.Nodes(), start, search.key, search.result.node);
    }
  }
}
