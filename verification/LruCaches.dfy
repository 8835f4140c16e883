/** One shard of the cache: a hash table of handles, reference counts and the two lists. */
module LruCaches {
  import opened HandleTables
  import opened LruLists
  import opened LruStates
  import opened LruRuns

  /** Both lists; their heads are the nodes 0 and 1, and no handle is on both. */
  ghost predicate Rings(next: seq<nat>, prev: seq<nat>, lru: seq<nat>, inUse: seq<nat>) {
    && Ring(next, prev, 0, lru) && Ring(next, prev, 1, inUse)
    && (forall x | x in lru :: 2 <= x && x !in inUse) && (forall x | x in inUse :: 2 <= x)
  }

  lemma RingBounds(next: seq<nat>, prev: seq<nat>, head: nat, list: seq<nat>, x: nat)
    requires Ring(next, prev, head, list) && x in list
    ensures x < |next| && next[x] < |prev| && prev[x] < |next|
    ensures next[x] == head || next[x] in list
    ensures prev[x] == head || prev[x] in list
  {
    var i: nat :| i < |list| && list[i] == x;
    assert LinkedAt(next, prev, head, list, i) && LinkedAt(next, prev, head, list, i + 1);
  }

  lemma RingHead(next: seq<nat>, prev: seq<nat>, head: nat, list: seq<nat>)
    requires Ring(next, prev, head, list)
    ensures head < |next| && next[head] == (if list == [] then head else list[0])
    ensures prev[head] == (if list == [] then head else list[|list| - 1])
  {
    assert LinkedAt(next, prev, head, list, 0) && LinkedAt(next, prev, head, list, |list|);
  }

  /** What taking a handle out of its list does to both lists. */
  lemma TakenOut(next: seq<nat>, prev: seq<nat>, lru: seq<nat>, inUse: seq<nat>, e: nat)
    requires Rings(next, prev, lru, inUse) && (e in lru || e in inUse)
    ensures e < |next| && next[e] < |prev| && prev[e] < |next| && next[e] != e
    ensures Rings(next[prev[e] := next[e]], prev[next[e] := prev[e]], Remove(lru, e), Remove(inUse, e))
  {
    if e in lru {
      TakenFrom(next, prev, 0, lru, 1, inUse, e);
    } else {
      TakenFrom(next, prev, 1, inUse, 0, lru, e);
    }
    RemoveKeepsDistinct(lru, e);
    RemoveKeepsDistinct(inUse, e);
  }

  lemma TakenFrom(next: seq<nat>, prev: seq<nat>, head: nat, list: seq<nat>, head2: nat, list2: seq<nat>, e: nat)
    requires Ring(next, prev, head, list) && Ring(next, prev, head2, list2) && e in list && e !in list2
    requires head != head2 && head !in list2 && head2 !in list && forall x | x in list :: x !in list2
    ensures e < |next| && next[e] < |prev| && prev[e] < |next| && next[e] != e
    ensures Ring(next[prev[e] := next[e]], prev[next[e] := prev[e]], head, Remove(list, e))
    ensures Ring(next[prev[e] := next[e]], prev[next[e] := prev[e]], head2, Remove(list2, e))
  {
    var k: nat :| k < |list| && list[k] == e;
    TakeOut(next, prev, head, list, k);
    RingBounds(next, prev, head, list, e);
    RemoveAbsent(list2, e);
    RingStays(next, prev, head2, list2, next[prev[e] := next[e]], prev[next[e] := prev[e]]);
  }

  lemma PutIntoOne(next: seq<nat>, prev: seq<nat>, head: nat, list: seq<nat>, head2: nat, list2: seq<nat>, e: nat)
    requires Ring(next, prev, head, list) && Ring(next, prev, head2, list2) && e !in list && e !in list2
    requires head != head2 && head !in list2 && head2 !in list && e != head && e != head2 && e < |next|
    requires forall x | x in list :: x !in list2
    ensures head < |prev| && prev[head] < |next|
    ensures Ring(next[e := head][prev[head] := e], prev[e := prev[head]][head := e], head, list + [e])
    ensures Ring(next[e := head][prev[head] := e], prev[e := prev[head]][head := e], head2, list2)
  {
    PutLast(next, prev, head, list, e);
    RingHead(next, prev, head, list);
    RingStays(next, prev, head2, list2, next[e := head][prev[head] := e], prev[e := prev[head]][head := e]);
  }

  lemma EmptyRing(next: seq<nat>, prev: seq<nat>, head: nat)
    requires head < |next| == |prev| && next[head] == head && prev[head] == head
    ensures Ring(next, prev, head, [])
  {
    assert LinkedAt(next, prev, head, [], 0);
  }

  /** References: one of the cache for what it holds, and those of the clients. */
  ghost predicate Counted(refs: seq<nat>, held: seq<nat>, cached: seq<bool>) {
    |refs| == |held| == |cached| && forall h: nat | h < |refs| :: refs[h] == held[h] + if cached[h] then 1 else 0
  }

  class LRUCache {
    var capacity: nat
    var usage: nat
    const table: HandleTable
    var ids: seq<Id>
    var charges: seq<nat>
    var inCache: seq<bool>
    var refs: seq<nat>
    var next: seq<nat>
    var prev: seq<nat>
    /** The handles whose deleter has been called. */
    var deleted: seq<nat>
    ghost var held: seq<nat>
    ghost var lru: seq<nat>
    ghost var inUse: seq<nat>

    ghost function Abs(): State
      reads this
    {
      State(capacity, usage, ids, charges, inCache, held, lru, inUse, deleted)
    }

    ghost predicate Ringed()
      reads this
    {
      2 <= |ids| == |charges| == |inCache| == |refs| == |held| == |next| && Rings(next, prev, lru, inUse)
    }

    ghost predicate Linked()
      reads this
    {
      Ringed() && Counted(refs, held, inCache)
    }

    /** The table holds what the cache holds. */
    ghost predicate Tabled()
      reads this, table
    {
      table.Valid(ids) && forall h: nat :: table.In(ids, h) <==> 2 <= h < |inCache| && inCache[h]
    }

    ghost predicate Valid()
      reads this, table
    {
      Linked() && Tabled() && Consistent(Abs())
    }

    constructor (capacity: nat)
      ensures Valid() && fresh(table) && this.capacity == capacity && usage == 0 && deleted == []
      ensures forall h: nat :: !IsCached(Abs(), h) && !IsHeld(Abs(), h)
    {
      var heads := seq(2, _ => Id([], 0));
      table := new HandleTable(heads);
      this.capacity, usage, ids := capacity, 0, heads;
      charges, inCache, refs, held := [0, 0], [false, false], [0, 0], [0, 0];
      next, prev := [0, 1], [0, 1];
      deleted, lru, inUse := [], [], [];
      new;
      EmptyRing(next, prev, 0);
      EmptyRing(next, prev, 1);
      assert Charges(charges, inCache) == 0 by {
        assert charges[..1] == [0] && inCache[..1] == [false] && [0][..0] == [];
        assert Charges([0], [false]) == 0;
      }
    }

    method LruRemove(e: nat)
      requires Ringed() && (e in lru || e in inUse)
      modifies this`next, this`prev, this`lru, this`inUse
      ensures Ringed() && lru == Remove(old(lru), e) && inUse == Remove(old(inUse), e)
    {
      TakenOut(next, prev, lru, inUse, e);
      prev := prev[next[e] := prev[e]];
      next := next[prev[e] := next[e]];
      lru, inUse := Remove(lru, e), Remove(inUse, e);
    }

    /** Puts a handle in as the newest of a list. */
    method LruAppend(head: nat, e: nat)
      requires Ringed() && head <= 1 && 2 <= e < |ids| && e !in lru && e !in inUse
      modifies this`next, this`prev, this`lru, this`inUse
      ensures Ringed()
      ensures lru == (if head == 0 then old(lru) + [e] else old(lru))
              && inUse == (if head == 1 then old(inUse) + [e] else old(inUse))
    {
      if head == 0 {
        PutIntoOne(next, prev, 0, lru, 1, inUse, e);
      } else {
        PutIntoOne(next, prev, 1, inUse, 0, lru, e);
      }
      next := next[e := head];
      prev := prev[e := prev[head]];
      next := next[prev[e] := e];
      prev := prev[head := e];
      if head == 0 { lru := lru + [e]; } else { inUse := inUse + [e]; }
    }

    /** From one list to the other, as the newest there. */
    method Move(head: nat, e: nat)
      requires Ringed() && head <= 1 && if head == 0 then e in inUse else e in lru
      modifies this`next, this`prev, this`lru, this`inUse
      ensures Ringed()
      ensures if head == 0 then inUse == Remove(old(inUse), e) && lru == old(lru) + [e]
              else lru == Remove(old(lru), e) && inUse == old(inUse) + [e]
    {
      RingBounds(next, prev, 1 - head, if head == 0 then inUse else lru, e);
      if head == 0 { RemoveAbsent(lru, e); } else { RemoveAbsent(inUse, e); }
      RemoveKeepsDistinct(lru, e);
      RemoveKeepsDistinct(inUse, e);
      LruRemove(e);
      LruAppend(head, e);
    }

    method AddRef(e: nat)
      requires Valid() && 2 <= e < |ids| && (IsCached(Abs(), e) || IsHeld(Abs(), e))
      modifies this
      ensures Valid() && Abs() == Ref(old(Abs()), e)
    {
      RefKeeps(Abs(), e);
      assert HandleOk(Abs(), e);
      RefHandle(e);
    }

    /** A reference more; `e` is moved when it was the first. */
    method RefHandle(e: nat)
      requires Linked() && 2 <= e < |ids| && HandleOk(Abs(), e)
      modifies this`refs, this`held, this`next, this`prev, this`lru, this`inUse
      ensures Linked() && Abs() == Ref(old(Abs()), e)
    {
      if refs[e] == 1 && inCache[e] {
        Move(1, e);
      }
      CountRef(e);
    }

    method CountRef(e: nat)
      requires e < |refs| && e < |held|
      modifies this`refs, this`held
      ensures refs == old(refs)[e := old(refs)[e] + 1] && held == old(held)[e := old(held)[e] + 1]
    {
      refs := refs[e := refs[e] + 1];
      held := held[e := held[e] + 1];
    }

    /** A reference less; `e` is moved or deleted when that was the last of its kind. */
    method UnrefHandle(e: nat)
      requires Ringed() && 2 <= e < |ids| && refs[e] > 0
      requires inCache[e] && refs[e] == 2 ==> e in inUse
      modifies this`refs, this`next, this`prev, this`lru, this`inUse, this`deleted
      ensures Ringed() && refs == old(refs)[e := old(refs)[e] - 1]
      ensures deleted == old(deleted) + if refs[e] == 0 then [e] else []
      ensures if inCache[e] && refs[e] == 1 then inUse == Remove(old(inUse), e) && lru == old(lru) + [e]
              else inUse == old(inUse) && lru == old(lru)
    {
      if inCache[e] && refs[e] == 2 {
        Move(0, e);
      }
      refs := refs[e := refs[e] - 1];
      if refs[e] == 0 {
        deleted := deleted + [e];
      }
    }

    /** A client is done with a handle. */
    method Release(h: nat)
      requires Valid() && 2 <= h < |ids| && IsHeld(Abs(), h)
      modifies this
      ensures Valid() && Abs() == Unref(old(Abs()), h)
      ensures GivenBack(old(Abs()), h, Abs())
    {
      GivesBack(Abs(), h);
      UnrefKeeps(Abs(), h);
      assert HandleOk(Abs(), h);
      UnrefHandle(h);
      held := held[h := held[h] - 1];
      assert Abs() == Unref(old(Abs()), h);
    }

    method Lookup(id: Id) returns (h: nat)
      requires Valid()
      modifies this
      ensures Valid() && h == old(Find(Abs(), id))
      ensures Abs() == if h == NULL then old(Abs()) else Ref(old(Abs()), h)
      ensures LookedUp(old(Abs()), id, h, Abs())
    {
      h := table.Lookup(ids, id);
      FindIs(Abs(), id, h);
      LooksUp(Abs(), id, h);
      if h != NULL {
        AddRef(h);
      }
    }

    /** The rest of dropping a handle that the table has given up. */
    method FinishErase(e: nat)
      requires Linked() && IsCached(Abs(), e) && (e in lru || e in inUse) && charges[e] <= usage
      modifies this`refs, this`next, this`prev, this`lru, this`inUse, this`deleted, this`inCache, this`usage
      ensures Linked() && Abs() == Drop(old(Abs()), e)
    {
      LruRemove(e);
      inCache := inCache[e := false];
      usage := usage - charges[e];
      UnrefHandle(e);
    }

    method Erase(id: Id)
      requires Valid()
      modifies this, table
      ensures Valid() && Abs() == DropFound(old(Abs()), id) && Erased(old(Abs()), id, Abs())
    {
      ghost var was := Abs();
      Erases(was, id);
      var e := table.Remove(ids, id);
      ErasedIs(was, id, e);
      if e != NULL {
        FinishErase(e);
      }
    }

    /** Drops the handle that was unused the longest. */
    method EraseOldest()
      requires Valid() && lru != []
      modifies this, table
      ensures Valid() && Abs() == Drop(old(Abs()), old(lru)[0]) && |lru| < |old(lru)|
    {
      RingHead(next, prev, 0, lru);
      EvictOne(Abs());
      FindIs(Abs(), ids[lru[0]], lru[0]);
      var e := next[0];
      Erase(ids[e]);
    }

    /** Drops all handles that nobody uses. */
    method Prune()
      requires Valid()
      modifies this, table
      ensures Valid() && Abs() == old(Evict(Abs(), true))
      ensures Pruned(old(Abs()), Abs())
    {
      ghost var goal := Evict(Abs(), true);
      Prunes(Abs());
      RingHead(next, prev, 0, lru);
      while next[0] != 0
        invariant Valid() && goal == Evict(Abs(), true) && (next[0] != 0 <==> lru != [])
        decreases |lru|
      {
        EraseOldest();
        RingHead(next, prev, 0, lru);
      }
    }

    /** A new handle, which its client holds. */
    method Allocate(id: Id, charge: nat) returns (e: nat)
      requires Valid()
      modifies this, table
      ensures Valid() && e == |old(ids)| && Abs() == New(old(Abs()), id, charge, false)
    {
      NewKeeps(Abs(), id, charge, false);
      e := |ids|;
      table.Grow(ids, id);
      GrownRings(next, prev, lru, inUse);
      AppendHandle(id, charge);
    }

    method AppendHandle(id: Id, charge: nat)
      modifies this`ids, this`charges, this`inCache, this`refs, this`next, this`prev, this`held
      ensures ids == old(ids) + [id] && charges == old(charges) + [charge] && inCache == old(inCache) + [false]
      ensures refs == old(refs) + [1] && held == old(held) + [1]
      ensures next == old(next) + [0] && prev == old(prev) + [0]
    {
      ids, charges, inCache := ids + [id], charges + [charge], inCache + [false];
      refs, next, prev, held := refs + [1], next + [0], prev + [0], held + [1];
    }

    /** The cache takes a reference to a new handle and drops the one that it replaces. */
    method Keep(e: nat, ghost was: State)
      requires Valid() && Consistent(was) && 2 <= e < |ids| && e == |was.ids|
               && Abs() == New(was, ids[e], charges[e], false)
      modifies this, table
      ensures Valid() && Abs() == Put(was, old(ids[e]), old(charges[e]))
    {
      ghost var id, charge := ids[e], charges[e];
      assert HandleOk(Abs(), e);
      TakeIn(e);
      forall h: nat ensures IsCached(was, h) <==> table.In(ids, h) {
        assert IsCached(was, h) <==> old(IsCached(Abs(), h));
      }
      assert Abs() == New(was, id, charge, true);
      PutInTable(e, was);
    }

    method PutInTable(e: nat, ghost was: State)
      requires Linked() && Consistent(was) && 2 <= e < |ids| && e == |was.ids|
               && Abs() == New(was, ids[e], charges[e], true)
      requires table.Valid(ids) && forall h: nat :: IsCached(was, h) <==> table.In(ids, h)
      modifies this, table
      ensures Valid() && Abs() == Put(was, old(ids[e]), old(charges[e]))
    {
      ghost var id, charge := ids[e], charges[e];
      var replaced := Replace(e, was);
      ReplacedIs(was, id, charge, replaced);
      if replaced != NULL {
        FinishErase(replaced);
      }
    }

    /** The table takes the handle; what it had under the id is given up. */
    method Replace(e: nat, ghost was: State) returns (replaced: nat)
      requires Consistent(was) && 2 <= e < |ids| && e == |was.ids| && ids == was.ids + [ids[e]]
      requires table.Valid(ids) && forall h: nat :: IsCached(was, h) <==> table.In(ids, h)
      modifies table
      ensures table.Valid(ids) && IsUnder(was, ids[e], replaced)
      ensures forall h: nat :: table.In(ids, h) <==> h == e || (IsCached(was, h) && was.ids[h] != ids[e])
    {
      assert IsCached(was, e) <==> table.In(ids, e);
      replaced := table.Insert(ids, e);
    }

    method TakeIn(e: nat)
      requires Linked() && 2 <= e < |ids| && !inCache[e] && e !in lru && e !in inUse
      modifies this`refs, this`inCache, this`usage, this`next, this`prev, this`lru, this`inUse
      ensures Linked() && inCache == old(inCache)[e := true] && usage == old(usage) + charges[e]
      ensures inUse == old(inUse) + [e] && lru == old(lru)
    {
      LruAppend(1, e);
      refs := refs[e := refs[e] + 1];
      inCache := inCache[e := true];
      usage := usage + charges[e];
    }

    /** A new handle, held by its client, and cached unless caching is off. What it replaces is
        dropped, and then what was unused the longest. */
    method Insert(id: Id, charge: nat) returns (e: nat)
      requires Valid()
      modifies this, table
      ensures Valid() && e == |old(ids)| && Abs() == LruStates.Insert(old(Abs()), id, charge)
      ensures Inserted(old(Abs()), id, Abs())
    {
      ghost var was := Abs();
      Inserts(was, id, charge);
      ghost var goal := LruStates.Insert(was, id, charge);
      e := Allocate(id, charge);
      if capacity > 0 {
        Keep(e, was);
      }
      RingHead(next, prev, 0, lru);
      while usage > capacity && next[0] != 0
        invariant Valid() && goal == Evict(Abs(), false) && (next[0] != 0 <==> lru != [])
        decreases |lru|
      {
        EraseOldest();
        RingHead(next, prev, 0, lru);
      }
    }
  }

  lemma GrownRings(next: seq<nat>, prev: seq<nat>, lru: seq<nat>, inUse: seq<nat>)
    requires Rings(next, prev, lru, inUse)
    ensures Rings(next + [0], prev + [0], lru, inUse)
  {
    RingStays(next, prev, 0, lru, next + [0], prev + [0]);
    RingStays(next, prev, 1, inUse, next + [0], prev + [0]);
  }

  /** The handle that is erased from the table. */
  lemma ErasedIs(s: State, id: Id, g: nat)
    requires Consistent(s)
    requires IsUnder(s, id, g)
    ensures var t := DropFound(s, id);
            && Consistent(t) && (forall h: nat :: IsCached(t, h) <==> IsCached(s, h) && s.ids[h] != id)
            && if g == NULL then t == s else t == Drop(s, g) && s.charges[g] <= s.usage && (g in s.lru || g in s.inUse)
  {
    FindIs(s, id, g);
    if g != NULL {
      DropKeeps(s, g);
      assert HandleOk(s, g);
      forall h: nat ensures IsCached(Drop(s, g), h) <==> IsCached(s, h) && s.ids[h] != id {
        if IsCached(s, h) && s.ids[h] == id { assert SameId(s, g, h); }
      }
    }
  }

  /** The handle that a new one replaces. */
  lemma ReplacedIs(s: State, id: Id, charge: nat, g: nat)
    requires Consistent(s)
    requires IsUnder(s, id, g)
    ensures var t, p := New(s, id, charge, true), Put(s, id, charge);
            && Consistent(p) && |p.ids| == |s.ids| + 1
            && (forall h: nat :: IsCached(p, h) <==> h == |s.ids| || (IsCached(s, h) && s.ids[h] != id))
            && if g == NULL then p == t
               else p == Drop(t, g) && IsCached(t, g) && t.charges[g] <= t.usage && (g in t.lru || g in t.inUse)
  {
    FindIs(s, id, g);
    PutKeeps(s, id, charge);
    PutCaches(s, id, charge);
    if g != NULL {
      DropAfterNew(s, id, charge, g);
      DropKeeps(s, g);
      assert HandleOk(s, g);
    }
  }
}
