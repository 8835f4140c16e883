/** What the operations of the cache do, apart from the links: which handles it holds, who else
    holds them, and in what order they were last used. */
module LruStates {
  import opened HandleTables
  import opened LruLists

  /** Handles count from 2 on. `held` says how many references the clients have; `deleted` lists
      the calls of deleters. */
  datatype State = State(capacity: nat, usage: nat, ids: seq<Id>, charges: seq<nat>, cached: seq<bool>, held: seq<nat>,
                         lru: seq<nat>, inUse: seq<nat>, deleted: seq<nat>)

  function Charges(charges: seq<nat>, cached: seq<bool>): nat
    requires |charges| == |cached|
  {
    if charges == [] then 0
    else
      var n := |charges| - 1;
      Charges(charges[..n], cached[..n]) + if cached[n] then charges[n] else 0
  }

  predicate IsCached(s: State, h: nat) {
    2 <= h < |s.cached| && s.cached[h]
  }

  predicate IsHeld(s: State, h: nat) {
    h < |s.held| && s.held[h] > 0
  }

  /** A cached handle is on one list, as its references say; any other is deleted once nobody
      holds it. */
  ghost predicate HandleOk(s: State, h: nat) {
    && (h in s.lru <==> IsCached(s, h) && !IsHeld(s, h))
    && (h in s.inUse <==> IsCached(s, h) && IsHeld(s, h))
    && (h in s.deleted <==> 2 <= h < |s.cached| && !IsCached(s, h) && !IsHeld(s, h))
  }

  ghost predicate SameId(s: State, g: nat, h: nat) {
    IsCached(s, g) && IsCached(s, h) && g < |s.ids| && h < |s.ids| && s.ids[g] == s.ids[h]
  }

  ghost predicate Consistent(s: State) {
    && 2 <= |s.ids| == |s.charges| == |s.cached| == |s.held|
    && s.held[0] == 0 && s.held[1] == 0 && !s.cached[0] && !s.cached[1]
    && (forall h: nat :: HandleOk(s, h))
    && Distinct(s.lru) && Distinct(s.inUse) && Distinct(s.deleted)
    && (forall g: nat, h: nat | SameId(s, g, h) :: g == h)
    && s.usage == Charges(s.charges, s.cached)
  }

  // ----- Operations ------------------------------------------------------------------------------------

  /** A client takes a reference. */
  function Ref(s: State, h: nat): State {
    if h >= |s.held| then s
    else
      var first := IsCached(s, h) && s.held[h] == 0;
      s.(held := s.held[h := s.held[h] + 1],
         lru := if first then Remove(s.lru, h) else s.lru,
         inUse := if first then s.inUse + [h] else s.inUse)
  }

  /** A client gives a reference back. */
  function Unref(s: State, h: nat): State {
    if !IsHeld(s, h) then s
    else
      var last := s.held[h] == 1;
      s.(held := s.held[h := s.held[h] - 1],
         inUse := if last && IsCached(s, h) then Remove(s.inUse, h) else s.inUse,
         lru := if last && IsCached(s, h) then s.lru + [h] else s.lru,
         deleted := if last && !IsCached(s, h) then s.deleted + [h] else s.deleted)
  }

  /** The cache gives its own reference up. */
  function Drop(s: State, h: nat): State {
    if h >= |s.cached| || h >= |s.held| || h >= |s.charges| then s
    else s.(cached := s.cached[h := false], usage := if s.usage >= s.charges[h] then s.usage - s.charges[h] else 0,
       lru := Remove(s.lru, h), inUse := Remove(s.inUse, h),
       deleted := if s.held[h] == 0 then s.deleted + [h] else s.deleted)
  }

  /** The handle that is cached under the id, if there is one, is dropped. */
  function DropFound(s: State, id: Id): State {
    if Find(s, id) == NULL then s else Drop(s, Find(s, id))
  }

  /** A handle that its client holds. */
  function New(s: State, id: Id, charge: nat, cache: bool): State {
    var h := |s.ids|;
    s.(ids := s.ids + [id], charges := s.charges + [charge], cached := s.cached + [cache], held := s.held + [1],
       inUse := if cache then s.inUse + [h] else s.inUse, usage := if cache then s.usage + charge else s.usage)
  }

  /** The handle that is cached under the id, or NULL; handles from `n` on are not looked at. */
  function FindBelow(s: State, id: Id, n: nat): nat
    requires n <= |s.ids|
  {
    if n == 0 then NULL else if IsCached(s, n - 1) && s.ids[n - 1] == id then n - 1 else FindBelow(s, id, n - 1)
  }

  function Find(s: State, id: Id): nat {
    FindBelow(s, id, |s.ids|)
  }

  lemma {:induction false} FindBelowFinds(s: State, id: Id, n: nat)
    requires n <= |s.ids|
    ensures var g := FindBelow(s, id, n);
            if g == NULL then forall h: nat | h < n && IsCached(s, h) :: s.ids[h] != id
            else g < n && IsCached(s, g) && s.ids[g] == id
  {
    if n > 0 { FindBelowFinds(s, id, n - 1); }
  }

  /** The handle, or NULL, is what is cached under the id. */
  ghost predicate IsUnder(s: State, id: Id, g: nat)
    requires Consistent(s)
  {
    if g == NULL then forall h: nat | IsCached(s, h) :: s.ids[h] != id else IsCached(s, g) && s.ids[g] == id
  }

  lemma FindIs(s: State, id: Id, g: nat)
    requires Consistent(s)
    requires IsUnder(s, id, g)
    ensures Find(s, id) == g
  {
    FindBelowFinds(s, id, |s.ids|);
    assert g != NULL && Find(s, id) != NULL ==> SameId(s, g, Find(s, id));
  }

  // ----- Consistency -----------------------------------------------------------------------------------

  lemma {:induction false} ChargesUpdate(charges: seq<nat>, cached: seq<bool>, h: nat)
    requires h < |charges| == |cached| && cached[h]
    ensures Charges(charges, cached) >= charges[h]
    ensures Charges(charges, cached[h := false]) == Charges(charges, cached) - charges[h]
  {
    var n := |charges| - 1;
    if h < n {
      assert cached[h := false][..n] == cached[..n][h := false];
      ChargesUpdate(charges[..n], cached[..n], h);
    } else {
      assert cached[h := false][..n] == cached[..n];
    }
  }

  lemma ChargesAppend(charges: seq<nat>, cached: seq<bool>, charge: nat, cache: bool)
    requires |charges| == |cached|
    ensures Charges(charges + [charge], cached + [cache]) == Charges(charges, cached) + if cache then charge else 0
  {
    assert (charges + [charge])[..|charges|] == charges && (cached + [cache])[..|charges|] == cached;
  }

  lemma RefKeeps(s: State, h: nat)
    requires Consistent(s) && 2 <= h < |s.ids| && (IsCached(s, h) || IsHeld(s, h))
    ensures Consistent(Ref(s, h))
  {
    var t := Ref(s, h);
    assert HandleOk(s, h);
    RemoveKeepsDistinct(s.lru, h);
    if t.inUse != s.inUse { AppendDistinct(s.inUse, h); }
    forall g: nat ensures HandleOk(t, g) { assert HandleOk(s, g); }
    forall g: nat, k: nat | SameId(t, g, k) ensures g == k { assert SameId(s, g, k); }
  }

  lemma UnrefKeeps(s: State, h: nat)
    requires Consistent(s) && 2 <= h < |s.ids| && IsHeld(s, h)
    ensures Consistent(Unref(s, h))
  {
    var t := Unref(s, h);
    assert HandleOk(s, h);
    RemoveKeepsDistinct(s.inUse, h);
    if t.lru != s.lru { AppendDistinct(s.lru, h); }
    if t.deleted != s.deleted { AppendDistinct(s.deleted, h); }
    forall g: nat ensures HandleOk(t, g) { assert HandleOk(s, g); }
    forall g: nat, k: nat | SameId(t, g, k) ensures g == k { assert SameId(s, g, k); }
  }

  lemma DropKeeps(s: State, h: nat)
    requires Consistent(s) && IsCached(s, h)
    ensures s.usage >= s.charges[h] && Consistent(Drop(s, h))
  {
    var t := Drop(s, h);
    assert HandleOk(s, h);
    ChargesUpdate(s.charges, s.cached, h);
    RemoveKeepsDistinct(s.lru, h);
    RemoveKeepsDistinct(s.inUse, h);
    if t.deleted != s.deleted { AppendDistinct(s.deleted, h); }
    forall g: nat ensures HandleOk(t, g) { assert HandleOk(s, g); }
    forall g: nat, k: nat | SameId(t, g, k) ensures g == k { assert SameId(s, g, k); }
  }

  lemma NewKeeps(s: State, id: Id, charge: nat, cache: bool)
    requires Consistent(s) && (cache ==> Find(s, id) == NULL)
    ensures Consistent(New(s, id, charge, cache))
  {
    var t, h := New(s, id, charge, cache), |s.ids|;
    FindBelowFinds(s, id, h);
    assert HandleOk(s, h);
    ChargesAppend(s.charges, s.cached, charge, cache);
    if cache { AppendDistinct(s.inUse, h); }
    forall g: nat ensures HandleOk(t, g) { assert HandleOk(s, g); }
    forall g: nat, k: nat | SameId(t, g, k) ensures g == k {
      if g < h && k < h { assert SameId(s, g, k); }
    }
  }

  // ----- Insertion and eviction ------------------------------------------------------------------------

  /** Drops the least recently used handles, as long as there is too much in the cache or until
      nothing unused is left. */
  ghost function Evict(s: State, all: bool): State
    requires Consistent(s)
    decreases |s.lru|
  {
    if s.lru != [] && (all || s.usage > s.capacity) then
      OldestIsCached(s);
      DropKeeps(s, s.lru[0]);
      Evict(Drop(s, s.lru[0]), all)
    else s
  }

  lemma OldestIsCached(s: State)
    requires Consistent(s) && s.lru != []
    ensures IsCached(s, s.lru[0]) && !IsHeld(s, s.lru[0]) && s.lru[0] !in s.inUse
  {
    assert HandleOk(s, s.lru[0]);
  }

  /** The new handle takes the place of the one that is cached under its id. */
  ghost function Insert(s: State, id: Id, charge: nat): State
    requires Consistent(s)
  {
    if s.capacity == 0 then
      NewKeeps(s, id, charge, false);
      Evict(New(s, id, charge, false), false)
    else
      PutKeeps(s, id, charge);
      Evict(Put(s, id, charge), false)
  }

  function Put(s: State, id: Id, charge: nat): State {
    New(DropFound(s, id), id, charge, true)
  }

  lemma PutKeeps(s: State, id: Id, charge: nat)
    requires Consistent(s)
    ensures Consistent(Put(s, id, charge))
  {
    var g := Find(s, id);
    FindBelowFinds(s, id, |s.ids|);
    if g != NULL {
      DropKeeps(s, g);
      var t := Drop(s, g);
      forall h: nat | IsCached(t, h) ensures t.ids[h] != id { assert s.ids[h] == id ==> SameId(s, g, h); }
      FindIs(t, id, NULL);
      NewKeeps(t, id, charge, true);
    } else {
      NewKeeps(s, id, charge, true);
    }
  }

  /** The order of the source: the new handle first, then the old one out. */
  lemma DropAfterNew(s: State, id: Id, charge: nat, g: nat)
    requires Consistent(s) && IsCached(s, g)
    ensures Drop(New(s, id, charge, true), g) == New(Drop(s, g), id, charge, true)
  {
    ChargesUpdate(s.charges, s.cached, g);
    RemoveFromAppended(s.inUse, |s.ids|, g);
    assert (s.cached + [true])[g := false] == s.cached[g := false] + [true];
  }

  lemma {:induction false} RemoveFromAppended(list: seq<nat>, h: nat, g: nat)
    requires g != h
    ensures Remove(list + [h], g) == Remove(list, g) + [h]
  {
    if list == [] {
      assert [h][1..] == [] && Remove([h], g) == [h] + Remove([h][1..], g);
    } else {
      assert (list + [h])[1..] == list[1..] + [h];
      RemoveFromAppended(list[1..], h, g);
    }
  }

  /** `t` is `s` without the first `k` unused handles; `LruRuns` shows that those were unused the longest. */
  ghost predicate Evicted(s: State, t: State, k: nat) {
    && k <= |s.lru| && t.lru == s.lru[k..] && t.deleted == s.deleted + s.lru[..k]
    && t == s.(usage := t.usage, cached := t.cached, lru := t.lru, deleted := t.deleted)
    && |t.cached| == |s.cached| && forall h: nat :: IsCached(t, h) <==> IsCached(s, h) && h !in s.lru[..k]
  }

  lemma EvictOne(s: State)
    requires Consistent(s) && s.lru != []
    ensures var t := Drop(s, s.lru[0]);
            && IsCached(s, s.lru[0]) && s.lru[0] < |s.charges| && Consistent(t) && t.lru == s.lru[1..]
            && t.usage + s.charges[s.lru[0]] == s.usage
            && t == s.(usage := t.usage, cached := t.cached, lru := t.lru, deleted := s.deleted + [s.lru[0]])
            && |t.cached| == |s.cached| && forall g: nat :: IsCached(t, g) <==> IsCached(s, g) && g != s.lru[0]
  {
    OldestIsCached(s);
    DropKeeps(s, s.lru[0]);
    RemoveAbsent(s.inUse, s.lru[0]);
  }

  lemma EvictMore(s: State, t: State, u: State, j: nat)
    requires Consistent(s) && s.lru != [] && t == Drop(s, s.lru[0]) && Evicted(t, u, j)
    ensures Evicted(s, u, j + 1)
  {
    EvictOne(s);
    var first := s.lru[..j + 1];
    assert first == [s.lru[0]] + t.lru[..j] && s.deleted + first == (s.deleted + [s.lru[0]]) + t.lru[..j];
    assert s.lru[1..][j..] == s.lru[j + 1..];
    forall g: nat ensures IsCached(u, g) <==> IsCached(s, g) && g !in first {}
  }

  lemma EvictNone(s: State)
    ensures Evicted(s, s, 0)
  {
    assert s.lru[..0] == [] && s.deleted + [] == s.deleted && s.lru[0..] == s.lru;
  }

  /** The handle evicted last was too much. */
  ghost predicate NeededLast(s: State, t: State, k: nat) {
    0 < k <= |s.lru| ==> s.lru[k - 1] < |s.charges| && t.usage + s.charges[s.lru[k - 1]] > s.capacity
  }

  /** The first `k` unused handles are gone, and no more of them than must be. */
  ghost predicate EvictsOldest(s: State, all: bool, t: State, k: nat) {
    && Consistent(t) && Evicted(s, t, k) && (t.lru == [] || (!all && t.usage <= s.capacity))
    && (!all ==> NeededLast(s, t, k))
  }

  lemma EvictsOneMore(s: State, all: bool, t: State, u: State, j: nat)
    requires Consistent(s) && s.lru != [] && (all || s.usage > s.capacity)
    requires t == Drop(s, s.lru[0]) && EvictsOldest(t, all, u, j)
    ensures EvictsOldest(s, all, u, j + 1)
  {
    EvictOne(s);
    EvictMore(s, t, u, j);
    if j == 0 { EvictedNone(t, u); } else { assert s.lru[j] == t.lru[j - 1]; }
  }

  /** What eviction does. */
  lemma {:induction false} EvictTakesOldest(s: State, all: bool) returns (k: nat)
    requires Consistent(s)
    ensures EvictsOldest(s, all, Evict(s, all), k)
    decreases |s.lru|
  {
    if s.lru != [] && (all || s.usage > s.capacity) {
      EvictOne(s);
      var t := Drop(s, s.lru[0]);
      var j := EvictTakesOldest(t, all);
      EvictsOneMore(s, all, t, Evict(t, all), j);
      k := j + 1;
    } else {
      k := 0;
      EvictNone(s);
    }
  }

  lemma EvictedNone(s: State, t: State)
    requires Consistent(s) && Consistent(t) && Evicted(s, t, 0)
    ensures t.usage == s.usage
  {
    assert t.cached == s.cached by {
      forall h: nat | h < |s.cached| ensures t.cached[h] == s.cached[h] {
        assert IsCached(t, h) <==> IsCached(s, h);
      }
    }
  }

  lemma PutCaches(s: State, id: Id, charge: nat)
    requires Consistent(s)
    ensures var p := Put(s, id, charge);
            && |p.ids| == |s.ids| + 1 && p.ids == s.ids + [id] && IsHeld(p, |s.ids|)
            && forall h: nat :: IsCached(p, h) <==> h == |s.ids| || (IsCached(s, h) && s.ids[h] != id)
  {
    var p, g := Put(s, id, charge), Find(s, id);
    FindBelowFinds(s, id, |s.ids|);
    forall h: nat ensures IsCached(p, h) <==> h == |s.ids| || (IsCached(s, h) && s.ids[h] != id) {
      if g != NULL && IsCached(s, h) && s.ids[h] == id { assert SameId(s, g, h); }
    }
  }

  /** A cache that may hold something holds the new handle, whatever its charge, because its
      client does; what else it held is there still, or was unused the longest. */
  lemma InsertFinds(s: State, id: Id, charge: nat, other: Id) returns (k: nat)
    requires Consistent(s) && s.capacity > 0
    ensures Consistent(Insert(s, id, charge)) && Evicted(Put(s, id, charge), Insert(s, id, charge), k)
    ensures Find(Insert(s, id, charge), id) == |s.ids|
    ensures other != id ==>
      var g := Find(s, other);
      Find(Insert(s, id, charge), other) == if g in Put(s, id, charge).lru[..k] then NULL else g
  {
    var p, t, h := Put(s, id, charge), Insert(s, id, charge), |s.ids|;
    PutKeeps(s, id, charge);
    PutCaches(s, id, charge);
    k := EvictTakesOldest(p, false);
    assert HandleOk(p, h);
    FindIs(t, id, h);
    if other != id {
      OtherFound(s, p, t, id, other, k);
    }
  }

  lemma OtherFound(s: State, p: State, t: State, id: Id, other: Id, k: nat)
    requires Consistent(s) && Consistent(t) && Evicted(p, t, k) && p.ids == s.ids + [id] && other != id
    requires forall h: nat :: IsCached(p, h) <==> h == |s.ids| || (IsCached(s, h) && s.ids[h] != id)
    ensures var g := Find(s, other); Find(t, other) == if g in p.lru[..k] then NULL else g
  {
    var g := Find(s, other);
    FindBelowFinds(s, other, |s.ids|);
    forall h: nat | IsCached(t, h) && t.ids[h] == other ensures h == g && h !in p.lru[..k] {
      assert IsCached(p, h) && h < |s.ids|;
      assert g != NULL ==> SameId(s, g, h);
    }
    FindIs(t, other, if g in p.lru[..k] then NULL else g);
  }
}
