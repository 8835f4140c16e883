/** What holds over every run of the cache: who holds a handle, and since when nobody does. */
module LruRuns {
  import opened HandleTables
  import opened LruLists
  import opened LruStates

  /** The calls, with the handles that they return. */
  datatype Event =
    | Inserting(id: Id, charge: nat, h: nat)
    | LookingUp(id: Id, h: nat)
    | Releasing(h: nat)
    | Erasing(id: Id)
    | Pruning

  /** A client releases what it holds; what it gets is what the cache finds or makes. */
  ghost predicate Allowed(s: State, e: Event) {
    match e
    case Inserting(_, _, h) => h == |s.ids|
    case LookingUp(id, h) => h == Find(s, id)
    case Releasing(h) => 2 <= h < |s.ids| && IsHeld(s, h)
    case _ => true
  }

  ghost function Step(s: State, e: Event): State
    requires Consistent(s)
  {
    match e
    case Inserting(id, charge, _) => Insert(s, id, charge)
    case LookingUp(id, h) => if h == NULL then s else Ref(s, h)
    case Releasing(h) => Unref(s, h)
    case Erasing(id) => DropFound(s, id)
    case Pruning => Evict(s, true)
  }

  predicate Gives(e: Event, h: nat) {
    h != NULL && (e.Inserting? || e.LookingUp?) && e.h == h
  }

  /** How often the handle has been given to a client. */
  function Given(events: seq<Event>, h: nat): nat {
    if events == [] then 0
    else
      var n := |events| - 1;
      Given(events[..n], h) + if Gives(events[n], h) then 1 else 0
  }

  function Released(events: seq<Event>, h: nat): nat {
    if events == [] then 0
    else
      var n := |events| - 1;
      Released(events[..n], h) + if events[n] == Releasing(h) then 1 else 0
  }

  /** The time of the last release, or 0. */
  function LastReleased(events: seq<Event>, h: nat): (n: nat)
    ensures n <= |events| && (n > 0 ==> events[n - 1] == Releasing(h))
    ensures forall k: nat | n <= k < |events| :: events[k] != Releasing(h)
  {
    if events == [] then 0
    else
      var n := |events| - 1;
      if events[n] == Releasing(h) then n + 1 else LastReleased(events[..n], h)
  }

  // ----- What every run keeps ------------------------------------------------------------------------

  /** The clients hold what they were given and have not given back. */
  ghost predicate HeldAt(events: seq<Event>, s: State, h: nat) {
    Given(events, h) == Released(events, h) + if h < |s.held| then s.held[h] else 0
  }

  /** Nobody has been given the handle since its last release. */
  ghost predicate UnusedSince(events: seq<Event>, h: nat) {
    0 < LastReleased(events, h)
    && forall k: nat | LastReleased(events, h) <= k < |events| :: !Gives(events[k], h)
  }

  ghost predicate Earlier(events: seq<Event>, g: nat, h: nat) {
    LastReleased(events, g) < LastReleased(events, h)
  }

  ghost predicate ListedAt(events: seq<Event>, list: seq<nat>, i: nat, j: nat)
    requires i < |list| && j < |list|
  {
    Earlier(events, list[i], list[j])
  }

  /** The unused handles, those that have been unused the longest first. */
  ghost predicate Listed(events: seq<Event>, list: seq<nat>) {
    && (forall h | h in list :: UnusedSince(events, h))
    && forall i: nat, j: nat | i < j < |list| :: ListedAt(events, list, i, j)
  }

  ghost predicate Sound(events: seq<Event>, s: State) {
    Consistent(s) && (forall h: nat :: HeldAt(events, s, h)) && Listed(events, s.lru)
  }

  // ----- What one call does to the references --------------------------------------------------------

  /** Who holds what after a call. */
  ghost predicate HeldAfter(s: State, e: Event, t: State, h: nat) {
    (if h < |t.held| then t.held[h] else 0) + (if e == Releasing(h) then 1 else 0)
        == (if h < |s.held| then s.held[h] else 0) + if Gives(e, h) then 1 else 0
  }

  ghost predicate IdsStay(s: State, t: State) {
    |s.ids| <= |t.ids| && t.ids[..|s.ids|] == s.ids && t.capacity == s.capacity
  }

  lemma {:induction false} EvictStays(s: State, all: bool)
    requires Consistent(s)
    ensures var t := Evict(s, all); Consistent(t) && t.held == s.held && t.ids == s.ids && t.capacity == s.capacity
    decreases |s.lru|
  {
    if s.lru != [] && (all || s.usage > s.capacity) {
      EvictOne(s);
      EvictStays(Drop(s, s.lru[0]), all);
    }
  }

  lemma InsertStays(s: State, id: Id, charge: nat)
    requires Consistent(s)
    ensures var t := Insert(s, id, charge);
            Consistent(t) && t.held == s.held + [1] && t.ids == s.ids + [id] && t.capacity == s.capacity
  {
    if s.capacity == 0 {
      NewKeeps(s, id, charge, false);
      EvictStays(New(s, id, charge, false), false);
    } else {
      PutKeeps(s, id, charge);
      EvictStays(Put(s, id, charge), false);
    }
  }

  lemma DropFoundKeeps(s: State, id: Id)
    requires Consistent(s)
    ensures Consistent(DropFound(s, id))
  {
    FindBelowFinds(s, id, |s.ids|);
    if Find(s, id) != NULL { DropKeeps(s, Find(s, id)); }
  }

  lemma StepHolds(s: State, e: Event)
    requires Consistent(s) && Allowed(s, e)
    ensures Consistent(Step(s, e)) && IdsStay(s, Step(s, e))
    ensures forall h: nat :: HeldAfter(s, e, Step(s, e), h)
  {
    match e {
      case Inserting(id, charge, _) => InsertStays(s, id, charge);
      case LookingUp(id, h) =>
        FindBelowFinds(s, id, |s.ids|);
        if h != NULL { RefKeeps(s, h); }
      case Releasing(h) => UnrefKeeps(s, h);
      case Erasing(id) => DropFoundKeeps(s, id);
      case Pruning => EvictStays(s, true);
    }
  }

  // ----- What one call does to the order -------------------------------------------------------------

  lemma RemoveStaysListed(events: seq<Event>, list: seq<nat>, e: nat)
    requires Listed(events, list) && Distinct(list)
    ensures Listed(events, Remove(list, e))
  {
    RemoveKeepsDistinct(list, e);
    if e !in list {
      RemoveAbsent(list, e);
    } else {
      var k: nat :| k < |list| && list[k] == e;
      RemoveAt(list, k);
      var out := list[..k] + list[k + 1..];
      forall i: nat, j: nat | i < j < |out| ensures ListedAt(events, out, i, j) {
        assert ListedAt(events, list, if i < k then i else i + 1, if j < k then j else j + 1);
      }
    }
  }

  lemma RestStaysListed(events: seq<Event>, list: seq<nat>, k: nat)
    requires Listed(events, list) && k <= |list|
    ensures Listed(events, list[k..])
  {
    forall i: nat, j: nat | i < j < |list[k..]| ensures ListedAt(events, list[k..], i, j) {
      assert ListedAt(events, list, k + i, k + j);
    }
  }

  /** Nothing happened to the handles of the list. */
  lemma OthersStayListed(events: seq<Event>, e: Event, list: seq<nat>)
    requires Listed(events, list) && forall h | h in list :: e != Releasing(h) && !Gives(e, h)
    ensures Listed(events + [e], list)
  {
    forall h | h in list ensures LastReleased(events + [e], h) == LastReleased(events, h) {
      assert (events + [e])[..|events|] == events;
    }
    forall h | h in list ensures UnusedSince(events + [e], h) { assert UnusedSince(events, h); }
    forall i: nat, j: nat | i < j < |list| ensures ListedAt(events + [e], list, i, j) {
      assert ListedAt(events, list, i, j);
    }
  }

  lemma ReleasedIsLast(events: seq<Event>, list: seq<nat>, h: nat)
    requires Listed(events, list) && h !in list
    ensures Listed(events + [Releasing(h)], list + [h])
  {
    var more, out := events + [Releasing(h)], list + [h];
    OthersStayListed(events, Releasing(h), list);
    assert LastReleased(more, h) == |events| + 1;
    forall i: nat, j: nat | i < j < |out| ensures ListedAt(more, out, i, j) {
      if j < |list| {
        assert ListedAt(more, list, i, j);
      } else {
        assert list[i] != h && (more)[..|events|] == events;
      }
    }
  }

  lemma EvictStaysListed(events: seq<Event>, s: State, all: bool)
    requires Consistent(s) && Listed(events, s.lru)
    ensures Listed(events, Evict(s, all).lru)
  {
    var k := EvictTakesOldest(s, all);
    RestStaysListed(events, s.lru, k);
  }

  lemma InsertStaysListed(events: seq<Event>, s: State, id: Id, charge: nat)
    requires Consistent(s) && Listed(events, s.lru)
    ensures Listed(events, Insert(s, id, charge).lru) && (s.capacity > 0 ==> Listed(events, Put(s, id, charge).lru))
  {
    if s.capacity == 0 {
      NewKeeps(s, id, charge, false);
      EvictStaysListed(events, New(s, id, charge, false), false);
    } else {
      PutKeeps(s, id, charge);
      RemoveStaysListed(events, s.lru, Find(s, id));
      EvictStaysListed(events, Put(s, id, charge), false);
    }
  }

  /** No handle of the list is given to somebody by the call. */
  lemma StepStaysListed(events: seq<Event>, s: State, e: Event)
    requires Consistent(s) && Allowed(s, e) && Listed(events, s.lru) && !e.Releasing?
    ensures Listed(events, Step(s, e).lru) && forall h | h in Step(s, e).lru :: !Gives(e, h)
  {
    var t := Step(s, e);
    StepHolds(s, e);
    forall h | h in t.lru ensures !Gives(e, h) {
      assert HandleOk(t, h) && HeldAfter(s, e, t, h);
    }
    match e {
      case Inserting(id, charge, _) => InsertStaysListed(events, s, id, charge);
      case LookingUp(id, h) => RemoveStaysListed(events, s.lru, h);
      case Erasing(id) => RemoveStaysListed(events, s.lru, Find(s, id));
      case Pruning => EvictStaysListed(events, s, true);
    }
  }

  lemma ReleaseStaysListed(events: seq<Event>, s: State, h: nat)
    requires Consistent(s) && IsHeld(s, h) && Listed(events, s.lru)
    ensures Listed(events + [Releasing(h)], Unref(s, h).lru)
  {
    assert HandleOk(s, h);
    OthersStayListed(events, Releasing(h), s.lru);
    ReleasedIsLast(events, s.lru, h);
  }

  lemma StepIsSound(events: seq<Event>, s: State, e: Event)
    requires Sound(events, s) && Allowed(s, e)
    ensures Sound(events + [e], Step(s, e))
  {
    var t := Step(s, e);
    StepHolds(s, e);
    forall h: nat ensures HeldAt(events + [e], t, h) {
      assert HeldAt(events, s, h) && HeldAfter(s, e, t, h) && (events + [e])[..|events|] == events;
    }
    if e.Releasing? {
      ReleaseStaysListed(events, s, e.h);
    } else {
      StepStaysListed(events, s, e);
      OthersStayListed(events, e, t.lru);
    }
  }

  // ----- Runs ------------------------------------------------------------------------------------------

  ghost predicate IsEmpty(s: State) {
    && Consistent(s) && |s.ids| == 2 && s.lru == [] && s.inUse == [] && s.deleted == []
  }

  ghost predicate StepsAt(states: seq<State>, events: seq<Event>, n: nat)
    requires |states| == |events| + 1 && n < |events|
  {
    Consistent(states[n]) ==> Allowed(states[n], events[n]) && states[n + 1] == Step(states[n], events[n])
  }

  ghost predicate IsRun(states: seq<State>, events: seq<Event>) {
    |states| == |events| + 1 && IsEmpty(states[0]) && forall n: nat | n < |events| :: StepsAt(states, events, n)
  }

  lemma EmptyIsSound(s: State)
    requires IsEmpty(s)
    ensures Sound([], s)
  {
    forall h: nat ensures HeldAt([], s, h) {}
  }

  /** At every moment of every run the clients hold what they were given and have not released, and
      the handles that nobody holds are listed in the order of their last release. */
  lemma {:induction false} RunIsSound(states: seq<State>, events: seq<Event>, n: nat)
    requires IsRun(states, events) && n <= |events|
    ensures Sound(events[..n], states[n])
  {
    if n == 0 {
      EmptyIsSound(states[0]);
    } else {
      RunIsSound(states, events, n - 1);
      assert StepsAt(states, events, n - 1) && events[..n] == events[..n - 1] + [events[n - 1]];
      StepIsSound(events[..n - 1], states[n - 1], events[n - 1]);
    }
  }

  // ----- What eviction spares and takes --------------------------------------------------------------

  /** The call is about the id itself. */
  predicate Concerns(e: Event, id: Id) {
    (e.Inserting? || e.Erasing?) && e.id == id
  }

  lemma EvictSpares(s: State, all: bool, h: nat)
    requires Consistent(s) && IsCached(s, h) && IsHeld(s, h)
    ensures IsCached(Evict(s, all), h)
  {
    var k := EvictTakesOldest(s, all);
    assert HandleOk(s, h);
    assert h !in s.lru[..k];
  }

  lemma InsertSpares(s: State, id: Id, charge: nat, h: nat)
    requires Consistent(s) && IsCached(s, h) && IsHeld(s, h) && s.ids[h] != id
    ensures IsCached(Insert(s, id, charge), h)
  {
    if s.capacity == 0 {
      NewKeeps(s, id, charge, false);
      EvictSpares(New(s, id, charge, false), false, h);
    } else {
      PutKeeps(s, id, charge);
      PutCaches(s, id, charge);
      EvictSpares(Put(s, id, charge), false, h);
    }
  }

  /** What somebody holds is not deleted by any call, and it stays cached and is found unless its
      id is inserted again or erased. */
  lemma HeldStays(s: State, e: Event, h: nat)
    requires Consistent(s) && Allowed(s, e) && 2 <= h < |s.ids| && IsHeld(s, h)
    ensures e != Releasing(h) ==> IsHeld(Step(s, e), h)
    ensures IsHeld(Step(s, e), h) ==> h !in Step(s, e).deleted
    ensures IsCached(s, h) && !Concerns(e, s.ids[h]) ==> IsCached(Step(s, e), h) && Find(Step(s, e), s.ids[h]) == h
  {
    var t := Step(s, e);
    StepHolds(s, e);
    assert HeldAfter(s, e, t, h) && HandleOk(t, h) && t.ids[h] == s.ids[h];
    if IsCached(s, h) && !Concerns(e, s.ids[h]) {
      match e {
        case Inserting(id, charge, _) => InsertSpares(s, id, charge, h);
        case Erasing(id) => FindBelowFinds(s, id, |s.ids|);
        case Pruning => EvictSpares(s, true, h);
        case _ =>
      }
      FindIs(t, s.ids[h], h);
    }
  }

  lemma EvictTakesUnused(events: seq<Event>, s: State, all: bool, g: nat, h: nat)
    requires Consistent(s) && Listed(events, s.lru) && IsCached(s, g)
    requires !IsCached(Evict(s, all), g) && h in Evict(s, all).lru
    ensures UnusedSince(events, g) && Earlier(events, g, h)
  {
    var k := EvictTakesOldest(s, all);
    var i: nat :| i < k && s.lru[..k][i] == g;
    var j: nat :| j < |s.lru| - k && s.lru[k..][j] == h;
    assert s.lru[i] == g && s.lru[k + j] == h && ListedAt(events, s.lru, i, k + j);
  }

  /** What a call evicts has been unused for longer than what it leaves unused. */
  lemma EvictsUnusedLongest(events: seq<Event>, s: State, e: Event, g: nat, h: nat)
    requires Sound(events, s) && Allowed(s, e) && IsCached(s, g) && !Concerns(e, s.ids[g])
    requires !IsCached(Step(s, e), g) && h in Step(s, e).lru
    ensures UnusedSince(events, g) && Earlier(events, g, h)
  {
    match e {
      case Inserting(id, charge, _) =>
        InsertStaysListed(events, s, id, charge);
        if s.capacity == 0 {
          NewKeeps(s, id, charge, false);
          EvictTakesUnused(events, New(s, id, charge, false), false, g, h);
        } else {
          PutKeeps(s, id, charge);
          PutCaches(s, id, charge);
          EvictTakesUnused(events, Put(s, id, charge), false, g, h);
        }
      case Pruning => EvictTakesUnused(events, s, true, g, h);
      case Erasing(id) => FindBelowFinds(s, id, |s.ids|);
      case _ =>
    }
  }

  // ----- What each call does -------------------------------------------------------------------------

  /** The handle that is cached under the id has one reference more, and is on no list of unused ones. */
  ghost predicate LookedUp(s: State, id: Id, h: nat, t: State) {
    if h == NULL then t == s && forall g: nat | g < |s.ids| && IsCached(s, g) :: s.ids[g] != id
    else
      && h < |s.ids| && h < |s.held| && IsCached(s, h) && s.ids[h] == id && h in t.inUse
      && t == s.(held := s.held[h := s.held[h] + 1], lru := Remove(s.lru, h), inUse := t.inUse)
  }

  lemma LooksUp(s: State, id: Id, h: nat)
    requires Consistent(s) && h == Find(s, id)
    ensures LookedUp(s, id, h, if h == NULL then s else Ref(s, h))
  {
    FindBelowFinds(s, id, |s.ids|);
    if h != NULL {
      RefKeeps(s, h);
      assert HandleOk(s, h) && HandleOk(Ref(s, h), h);
      RemoveAbsent(if h in s.lru then s.inUse else s.lru, h);
    }
  }

  /** The handle has one reference less. With the last one it becomes the newest unused handle, or is
      deleted. */
  ghost predicate GivenBack(s: State, h: nat, t: State) {
    && h < |s.held| && s.held[h] > 0
    && t == s.(held := s.held[h := s.held[h] - 1], inUse := t.inUse,
               lru := s.lru + (if s.held[h] == 1 && IsCached(s, h) then [h] else []),
               deleted := s.deleted + if s.held[h] == 1 && !IsCached(s, h) then [h] else [])
  }

  lemma GivesBack(s: State, h: nat)
    requires Consistent(s) && IsHeld(s, h)
    ensures GivenBack(s, h, Unref(s, h))
  {
  }

  /** The new handle is held. What clients hold under other ids stays cached, and unused handles
      only when there is room. */
  ghost predicate Inserted(s: State, id: Id, t: State) {
    && t.ids == s.ids + [id] && t.held == s.held + [1] && (s.capacity > 0 ==> IsCached(t, |s.ids|))
    && (t.usage <= t.capacity || t.lru == [])
    && forall h: nat | h < |s.ids| && IsCached(s, h) && IsHeld(s, h) && s.ids[h] != id :: IsCached(t, h)
  }

  lemma Inserts(s: State, id: Id, charge: nat)
    requires Consistent(s)
    ensures Inserted(s, id, Insert(s, id, charge))
  {
    InsertStays(s, id, charge);
    if s.capacity > 0 { InsertCaches(s, id, charge); }
    EvictsEnough(s, id, charge);
    var t := Insert(s, id, charge);
    forall h: nat | h < |s.ids| && IsCached(s, h) && IsHeld(s, h) && s.ids[h] != id ensures IsCached(t, h) {
      InsertSpares(s, id, charge, h);
    }
  }

  lemma InsertCaches(s: State, id: Id, charge: nat)
    requires Consistent(s) && s.capacity > 0
    ensures IsCached(Insert(s, id, charge), |s.ids|)
  {
    PutKeeps(s, id, charge);
    PutCaches(s, id, charge);
    EvictSpares(Put(s, id, charge), false, |s.ids|);
  }

  lemma EvictsEnough(s: State, id: Id, charge: nat)
    requires Consistent(s)
    ensures var t := Insert(s, id, charge); t.usage <= t.capacity || t.lru == []
  {
    if s.capacity == 0 {
      NewKeeps(s, id, charge, false);
      var k := EvictTakesOldest(New(s, id, charge, false), false);
    } else {
      PutKeeps(s, id, charge);
      var k := EvictTakesOldest(Put(s, id, charge), false);
    }
  }

  /** Nothing is cached under the id, the rest is, and whoever holds a handle keeps it. */
  ghost predicate Erased(s: State, id: Id, t: State) {
    && t.held == s.held && t.ids == s.ids && |t.cached| == |s.cached|
    && forall h: nat | h < |s.ids| :: IsCached(t, h) <==> IsCached(s, h) && s.ids[h] != id
  }

  lemma Erases(s: State, id: Id)
    requires Consistent(s)
    ensures Erased(s, id, DropFound(s, id))
  {
    var g := Find(s, id);
    FindBelowFinds(s, id, |s.ids|);
    forall h: nat | h < |s.ids| ensures IsCached(DropFound(s, id), h) <==> IsCached(s, h) && s.ids[h] != id {
      if g != NULL && IsCached(s, h) && s.ids[h] == id { assert SameId(s, g, h); }
    }
  }

  /** All that nobody holds is gone, and nothing else. */
  ghost predicate Pruned(s: State, t: State) {
    && t.lru == [] && t.held == s.held && t.inUse == s.inUse
    && forall h: nat :: IsCached(t, h) <==> IsCached(s, h) && IsHeld(s, h)
  }

  lemma Prunes(s: State)
    requires Consistent(s)
    ensures Pruned(s, Evict(s, true))
  {
    var k := EvictTakesOldest(s, true);
    assert s.lru[..k] == s.lru;
    forall h: nat ensures IsCached(Evict(s, true), h) <==> IsCached(s, h) && IsHeld(s, h) {
      assert HandleOk(s, h);
    }
  }
}
