/** The two circular doubly linked lists of the cache. Their heads are the nodes 0 and 1. */
module LruLists {

  ghost predicate Distinct(list: seq<nat>) {
    forall i: nat, j: nat | i < j < |list| :: Unlike(list, i, j)
  }

  ghost predicate Unlike(list: seq<nat>, i: nat, j: nat)
    requires i < |list| && j < |list|
  {
    list[i] != list[j]
  }

  /** The list without the element. */
  function Remove(list: seq<nat>, e: nat): seq<nat> {
    if list == [] then [] else if list[0] == e then list[1..] else [list[0]] + Remove(list[1..], e)
  }

  lemma {:induction false} RemoveAbsent(list: seq<nat>, e: nat)
    requires e !in list
    ensures Remove(list, e) == list
  {
    if list != [] {
      RemoveAbsent(list[1..], e);
    }
  }

  lemma TailDistinct(list: seq<nat>)
    requires Distinct(list) && list != []
    ensures Distinct(list[1..]) && list[0] !in list[1..]
  {
    forall i: nat, j: nat | i < j < |list| - 1 ensures Unlike(list[1..], i, j) { assert Unlike(list, i + 1, j + 1); }
    forall j: nat | 0 < j < |list| ensures list[j] != list[0] { assert Unlike(list, 0, j); }
  }

  lemma {:induction false} RemoveAt(list: seq<nat>, k: nat)
    requires Distinct(list) && k < |list|
    ensures Remove(list, list[k]) == list[..k] + list[k + 1..]
  {
    TailDistinct(list);
    if k > 0 {
      assert list[k] == list[1..][k - 1];
      RemoveAt(list[1..], k - 1);
    }
  }

  lemma RemoveKeepsDistinct(list: seq<nat>, e: nat)
    requires Distinct(list)
    ensures Distinct(Remove(list, e)) && forall x :: x in Remove(list, e) <==> x in list && x != e
  {
    if e !in list {
      RemoveAbsent(list, e);
    } else {
      var k: nat :| k < |list| && list[k] == e;
      RemoveAt(list, k);
      var out := list[..k] + list[k + 1..];
      forall i: nat, j: nat | i < j < |out| ensures Unlike(out, i, j) {
        assert Unlike(list, if i < k then i else i + 1, if j < k then j else j + 1);
      }
      forall x | x in list && x != e ensures x in out {
        var i: nat :| i < |list| && list[i] == x;
        assert out[if i < k then i else i - 1] == x;
      }
      forall x | x in out ensures x != e {
        var i: nat :| i < |out| && out[i] == x;
        assert if i < k then Unlike(list, i, k) else Unlike(list, k, i + 1);
      }
    }
  }

  lemma AppendDistinct(list: seq<nat>, e: nat)
    requires Distinct(list) && e !in list
    ensures Distinct(list + [e]) && forall x :: x in list + [e] <==> x in list || x == e
  {
    forall i: nat, j: nat | i < j < |list| + 1 ensures Unlike(list + [e], i, j) {
      if j < |list| { assert Unlike(list, i, j); }
    }
  }

  // ----- Rings ------------------------------------------------------------------------------------------

  /** The nodes of a ring: the head, the list from the oldest on, and the head again. */
  function NodeAt(head: nat, list: seq<nat>, i: nat): nat {
    if 0 < i <= |list| then list[i - 1] else head
  }

  ghost predicate LinkedAt(next: seq<nat>, prev: seq<nat>, head: nat, list: seq<nat>, i: nat) {
    var a, b := NodeAt(head, list, i), NodeAt(head, list, i + 1);
    a < |next| && b < |prev| && next[a] == b && prev[b] == a
  }

  ghost predicate Ring(next: seq<nat>, prev: seq<nat>, head: nat, list: seq<nat>) {
    && |next| == |prev| && Distinct(list) && head !in list
    && forall i: nat | i <= |list| :: LinkedAt(next, prev, head, list, i)
  }

  lemma RingNodes(next: seq<nat>, prev: seq<nat>, head: nat, list: seq<nat>, i: nat, j: nat)
    requires Ring(next, prev, head, list) && i <= |list| && j <= |list| && i != j
    ensures NodeAt(head, list, i) != NodeAt(head, list, j)
    ensures NodeAt(head, list, i) < |next| && NodeAt(head, list, j) < |next|
  {
    assert LinkedAt(next, prev, head, list, i) && LinkedAt(next, prev, head, list, j);
    assert 0 < i < j ==> Unlike(list, i - 1, j - 1);
    assert 0 < j < i ==> Unlike(list, j - 1, i - 1);
  }

  /** Taking a node out: what is next to it is joined. */
  lemma TakeOut(next: seq<nat>, prev: seq<nat>, head: nat, list: seq<nat>, k: nat)
    requires Ring(next, prev, head, list) && k < |list|
    ensures var e := list[k];
            && e < |next| && next[e] < |prev| && prev[e] < |next| && next[e] != e
            && Ring(next[prev[e] := next[e]], prev[next[e] := prev[e]], head, Remove(list, e))
  {
    var e, out := list[k], list[..k] + list[k + 1..];
    assert LinkedAt(next, prev, head, list, k) && LinkedAt(next, prev, head, list, k + 1);
    var next', prev' := next[prev[e] := next[e]], prev[next[e] := prev[e]];
    RingNodes(next, prev, head, list, k + 1, if k + 2 > |list| then 0 else k + 2);
    RemoveAt(list, k);
    RemoveKeepsDistinct(list, e);
    forall i: nat | i <= |out| ensures LinkedAt(next', prev', head, out, i) {
      JoinedAt(next, prev, head, list, k, i);
    }
  }

  lemma JoinedAt(next: seq<nat>, prev: seq<nat>, head: nat, list: seq<nat>, k: nat, i: nat)
    requires Ring(next, prev, head, list) && k < |list| && i < |list|
    requires LinkedAt(next, prev, head, list, k) && LinkedAt(next, prev, head, list, k + 1)
    ensures var e := list[k];
            LinkedAt(next[prev[e] := next[e]], prev[next[e] := prev[e]], head, list[..k] + list[k + 1..], i)
  {
    var out := list[..k] + list[k + 1..];
    var was := if i <= k then i else i + 1;
    assert NodeAt(head, out, i) == NodeAt(head, list, was);
    assert LinkedAt(next, prev, head, list, was);
    if i == k {
      assert NodeAt(head, out, i + 1) == NodeAt(head, list, k + 2);
    } else {
      assert NodeAt(head, out, i + 1) == NodeAt(head, list, was + 1);
      RingNodes(next, prev, head, list, was, k);
      var after, joint := if was + 1 > |list| then 0 else was + 1, if k + 2 > |list| then 0 else k + 2;
      RingNodes(next, prev, head, list, after, joint);
    }
  }

  /** Putting a node in as the newest. */
  lemma PutLast(next: seq<nat>, prev: seq<nat>, head: nat, list: seq<nat>, e: nat)
    requires Ring(next, prev, head, list) && e !in list && e != head && e < |next|
    ensures head < |prev| && prev[head] < |next| && prev[head] == NodeAt(head, list, |list|)
    ensures Ring(next[e := head][prev[head] := e], prev[e := prev[head]][head := e], head, list + [e])
  {
    var n, out := |list|, list + [e];
    assert LinkedAt(next, prev, head, list, n);
    var next', prev' := next[e := head][prev[head] := e], prev[e := prev[head]][head := e];
    AppendDistinct(list, e);
    forall i: nat | i <= |out| ensures LinkedAt(next', prev', head, out, i) {
      assert i <= n ==> NodeAt(head, out, i) == NodeAt(head, list, i);
      if i < n {
        assert LinkedAt(next, prev, head, list, i);
        RingNodes(next, prev, head, list, i, n);
        assert NodeAt(head, out, i + 1) == NodeAt(head, list, i + 1);
        RingNodes(next, prev, head, list, i + 1, 0);
      }
    }
  }

  /** A ring stays when its own nodes do. */
  lemma RingStays(next: seq<nat>, prev: seq<nat>, head: nat, list: seq<nat>, next': seq<nat>, prev': seq<nat>)
    requires Ring(next, prev, head, list) && |next| <= |next'| == |prev'|
    requires forall x: nat | x < |next| && (x == head || x in list) :: next'[x] == next[x] && prev'[x] == prev[x]
    ensures Ring(next', prev', head, list)
  {
    forall i: nat | i <= |list| ensures LinkedAt(next', prev', head, list, i) {
      assert LinkedAt(next, prev, head, list, i);
      var a, b := NodeAt(head, list, i), NodeAt(head, list, i + 1);
      assert a == head || a in list;
      assert b == head || b in list;
    }
  }
}
