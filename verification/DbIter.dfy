/** The user-level iterator: one key at a time, its newest visible value, in both directions,
    on top of the merging iterator. */
module DbIter {
  import opened Keys
  import opened Merging

  // ----- The map that a reader at sequence number `s` must see -----------------------------

  ghost predicate Seen(all: seq<Entry>, s: nat, i: int) {
    0 <= i < |all| && all[i].key.seqno <= s
  }

  /** Entry `i` is the newest visible one of its user key, and a value. */
  ghost predicate Shown(all: seq<Entry>, s: nat, i: int) {
    && Seen(all, s, i)
    && all[i].key.kind == Value
    && forall j | 0 <= j < i && Seen(all, s, j) :: all[j].key.user != all[i].key.user
  }

  ghost predicate Maps(all: seq<Entry>, s: nat, u: UserKey, v: Blob) {
    exists i :: Shown(all, s, i) && all[i].key.user == u && all[i].value == v
  }

  ghost predicate Has(all: seq<Entry>, s: nat, u: UserKey) {
    exists v :: Maps(all, s, u, v)
  }

  datatype Bound = Any | From(key: UserKey) | After(key: UserKey) | Below(key: UserKey) {
    predicate Admits(u: UserKey) {
      match this
      case Any => true
      case From(k) => k <= u
      case After(k) => k < u
      case Below(k) => u < k
    }
  }

  /** `r` is the least key of the map within the bound. */
  ghost predicate LeastKey(all: seq<Entry>, s: nat, b: Bound, r: Option<UserKey>) {
    match r
    case None => forall u | Has(all, s, u) :: !b.Admits(u)
    case Some(k) => Has(all, s, k) && b.Admits(k) && forall u | Has(all, s, u) && b.Admits(u) :: k <= u
  }

  /** `r` is the greatest key of the map within the bound. */
  ghost predicate GreatestKey(all: seq<Entry>, s: nat, b: Bound, r: Option<UserKey>) {
    match r
    case None => forall u | Has(all, s, u) :: !b.Admits(u)
    case Some(k) => Has(all, s, k) && b.Admits(k) && forall u | Has(all, s, u) && b.Admits(u) :: u <= k
  }

  lemma UsersAscend(all: seq<Entry>, i: nat, j: nat)
    requires Sorted(all) && i <= j < |all|
    ensures all[i].key.user <= all[j].key.user
  {
    if i < j { IndexOrder(all, i, j); }
  }

  lemma ShownHas(all: seq<Entry>, s: nat, i: nat)
    requires Shown(all, s, i)
    ensures Has(all, s, all[i].key.user)
  {
    assert Maps(all, s, all[i].key.user, all[i].value);
  }

  ghost predicate NoneSeen(all: seq<Entry>, s: nat, from: nat, to: nat) {
    forall i | from <= i < to :: !Seen(all, s, i)
  }

  // ----- Scanning forward ------------------------------------------------------------------

  /** Nothing visible before `p` shares a user key with anything visible from `p` on, except
      the key being skipped, which no visible entry from `p` on precedes. */
  ghost predicate Clean(all: seq<Entry>, s: nat, p: nat, skip: Option<UserKey>) {
    && (forall i | p <= i && Seen(all, s, i) :: skip.Some? ==> skip.value <= all[i].key.user)
    && (forall j, i | 0 <= j < p <= i && Seen(all, s, j) && Seen(all, s, i) && all[j].key.user == all[i].key.user ::
          skip == Some(all[i].key.user))
  }

  ghost predicate KnownHidden(all: seq<Entry>, s: nat, p: nat, skip0: Option<UserKey>, skip: Option<UserKey>) {
    skip == skip0 || (skip.Some? && (skip0.Some? ==> skip0.value <= skip.value)
                      && exists j :: 0 <= j < p && Seen(all, s, j) && all[j].key.user == skip.value)
  }

  /** No key of the map starts in [from, to), apart from `skip`. */
  ghost predicate NothingShown(all: seq<Entry>, s: nat, from: nat, to: nat, skip: Option<UserKey>) {
    forall i | from <= i < to && Shown(all, s, i) :: skip == Some(all[i].key.user)
  }

  /** The state of a forward scan that started at `p0` skipping `skip0` and has reached `p`. */
  ghost predicate Scanned(all: seq<Entry>, s: nat, p0: nat, skip0: Option<UserKey>, p: nat, skip: Option<UserKey>) {
    && p0 <= p
    && Clean(all, s, p, skip)
    && KnownHidden(all, s, p, skip0, skip)
    && NothingShown(all, s, p0, p, skip0)
  }

  lemma PassInvisible(all: seq<Entry>, s: nat, p0: nat, skip0: Option<UserKey>, p: nat, skip: Option<UserKey>)
    requires p < |all| && Scanned(all, s, p0, skip0, p, skip) && !Seen(all, s, p)
    ensures Scanned(all, s, p0, skip0, p + 1, skip)
  {
  }

  lemma CleanAfter(all: seq<Entry>, s: nat, p: nat, skip: Option<UserKey>)
    requires Sorted(all) && Clean(all, s, p, skip) && Seen(all, s, p)
    ensures Clean(all, s, p + 1, Some(all[p].key.user))
  {
    forall i | p + 1 <= i && Seen(all, s, i) ensures all[p].key.user <= all[i].key.user { UsersAscend(all, p, i); }
    forall j, i | 0 <= j < p + 1 <= i && Seen(all, s, j) && Seen(all, s, i) && all[j].key.user == all[i].key.user
      ensures all[i].key.user == all[p].key.user
    {
      UsersAscend(all, j, p);
      UsersAscend(all, p, i);
    }
  }

  lemma PassDeletion(all: seq<Entry>, s: nat, p0: nat, skip0: Option<UserKey>, p: nat, skip: Option<UserKey>)
    requires Sorted(all) && Scanned(all, s, p0, skip0, p, skip) && Seen(all, s, p) && all[p].key.kind == Deletion
    ensures Scanned(all, s, p0, skip0, p + 1, Some(all[p].key.user))
  {
    CleanAfter(all, s, p, skip);
  }

  lemma PassHidden(all: seq<Entry>, s: nat, p0: nat, skip0: Option<UserKey>, p: nat, skip: Option<UserKey>)
    requires Sorted(all) && Scanned(all, s, p0, skip0, p, skip) && Seen(all, s, p)
    requires skip.Some? && all[p].key.user <= skip.value
    ensures Scanned(all, s, p0, skip0, p + 1, skip)
  {
    CleanAfter(all, s, p, skip);
    assert skip == Some(all[p].key.user);
  }

  /** A visible value that is not being skipped is the newest visible entry of its key. */
  lemma StopShows(all: seq<Entry>, s: nat, p0: nat, skip0: Option<UserKey>, p: nat, skip: Option<UserKey>)
    requires Scanned(all, s, p0, skip0, p, skip) && Seen(all, s, p) && all[p].key.kind == Value
    requires skip.Some? ==> skip.value < all[p].key.user
    ensures Shown(all, s, p) && (skip0.Some? ==> skip0.value < all[p].key.user)
  {
  }

  /** Where a forward scan ends is the least key within the bound, if every key within the
      bound starts inside the scanned part and is not the skipped one. */
  lemma LeastAfterScan(all: seq<Entry>, s: nat, p0: nat, p: nat, skip0: Option<UserKey>, b: Bound, r: Option<UserKey>)
    requires Sorted(all) && p0 <= p <= |all| && NothingShown(all, s, p0, p, skip0)
    requires forall i | Shown(all, s, i) && b.Admits(all[i].key.user) :: p0 <= i && skip0 != Some(all[i].key.user)
    requires if p < |all| && Shown(all, s, p) then r == Some(all[p].key.user) && b.Admits(all[p].key.user)
             else p == |all| && r == None
    ensures LeastKey(all, s, b, r)
  {
    if r.Some? { ShownHas(all, s, p); }
    forall u | Has(all, s, u) && b.Admits(u) ensures r.Some? && r.value <= u {
      var v :| Maps(all, s, u, v);
      var i :| Shown(all, s, i) && all[i].key.user == u && all[i].value == v;
      UsersAscend(all, p, i);
    }
  }

  lemma CleanFromShown(all: seq<Entry>, s: nat, x: nat)
    requires Sorted(all) && Shown(all, s, x)
    ensures Clean(all, s, x, Some(all[x].key.user))
    ensures forall j | 0 <= j < x && Seen(all, s, j) :: all[j].key.user < all[x].key.user
  {
    forall i | x <= i && Seen(all, s, i) ensures all[x].key.user <= all[i].key.user { UsersAscend(all, x, i); }
    forall j | 0 <= j < x && Seen(all, s, j) ensures all[j].key.user < all[x].key.user { UsersAscend(all, j, x); }
  }

  /** From any point with nothing visible up to the entry `x`, as from `x` itself. */
  lemma CleanFromSaved(all: seq<Entry>, s: nat, q: nat, x: nat)
    requires Sorted(all) && Shown(all, s, x) && q <= x && NoneSeen(all, s, q, x)
    ensures Clean(all, s, q, Some(all[x].key.user))
  {
    CleanFromShown(all, s, x);
    forall i | q <= i && Seen(all, s, i) ensures all[x].key.user <= all[i].key.user && x <= i {
      if x <= i { UsersAscend(all, x, i); }
    }
  }

  lemma LaterKeysStartLater(all: seq<Entry>, s: nat, x: nat)
    requires Sorted(all) && Shown(all, s, x)
    ensures forall i | Shown(all, s, i) && all[x].key.user < all[i].key.user :: x < i
  {
    forall i | Shown(all, s, i) && all[x].key.user < all[i].key.user ensures x < i {
      if i <= x { UsersAscend(all, i, x); }
    }
  }

  // ----- Scanning backward --------------------------------------------------------------------

  /** The state of a backward scan that started before `q` and has consumed all entries from
      `m` on: the earliest visible entry `x` so far decides what is saved. */
  ghost predicate Unwound(all: seq<Entry>, s: nat, m: nat, q: nat, x: nat, kind: Kind, key: Option<UserKey>,
                          value: Blob) {
    && m <= x <= q <= |all|
    && NoneSeen(all, s, m, x)
    && (forall i | x < i < q :: !Shown(all, s, i))
    && (if x == q then kind == Deletion
        else Seen(all, s, x) && kind == all[x].key.kind
             && (kind == Value ==> key == Some(all[x].key.user) && value == all[x].value))
  }

  /** One step back onto a visible entry that does not end the scan. */
  lemma UnwindSeen(all: seq<Entry>, s: nat, m: nat, q: nat, x: nat, kind: Kind, key: Option<UserKey>, value: Blob,
                   key': Option<UserKey>, value': Blob)
    requires Sorted(all) && 0 < m && Unwound(all, s, m, q, x, kind, key, value)
    requires Seen(all, s, m - 1)
    requires kind == Value ==> key.value <= all[m - 1].key.user
    requires all[m - 1].key.kind == Value ==> key' == Some(all[m - 1].key.user) && value' == all[m - 1].value
    ensures Unwound(all, s, m - 1, q, m - 1, all[m - 1].key.kind, key', value')
  {
    if x < q {
      UsersAscend(all, m - 1, x);
      assert !Shown(all, s, x);
    }
  }

  lemma UnwindUnseen(all: seq<Entry>, s: nat, m: nat, q: nat, x: nat, kind: Kind, key: Option<UserKey>, value: Blob)
    requires 0 < m && Unwound(all, s, m, q, x, kind, key, value) && !Seen(all, s, m - 1)
    ensures Unwound(all, s, m - 1, q, x, kind, key, value)
  {
  }

  /** Where a backward scan ends is the greatest key below the bound. */
  lemma GreatestAfterScan(all: seq<Entry>, s: nat, m: nat, q: nat, x: nat, kind: Kind, key: Option<UserKey>,
                          value: Blob, b: Bound)
    requires Sorted(all) && Unwound(all, s, m, q, x, kind, key, value)
    requires forall i | Shown(all, s, i) :: b.Admits(all[i].key.user) <==> i < q
    requires kind == Deletion ==> m == 0
    requires kind == Value ==> Shown(all, s, x)
    ensures GreatestKey(all, s, b, if kind == Value then key else None)
  {
    if kind == Value { ShownHas(all, s, x); }
    forall u | Has(all, s, u) && b.Admits(u) ensures kind == Value && u <= key.value {
      var v :| Maps(all, s, u, v);
      var i :| Shown(all, s, i) && all[i].key.user == u && all[i].value == v;
      UsersAscend(all, i, x);
    }
  }

  /** The saved value is the newest one of its key once the scan has met a smaller visible
      key or run out of entries. */
  lemma SavedIsShown(all: seq<Entry>, s: nat, m: nat, q: nat, x: nat, key: Option<UserKey>, value: Blob)
    requires Sorted(all) && Unwound(all, s, m, q, x, Value, key, value)
    requires 0 < m ==> Seen(all, s, m - 1) && all[m - 1].key.user < all[x].key.user
    ensures Shown(all, s, x)
  {
    forall j | 0 <= j < x && Seen(all, s, j) ensures all[j].key.user != all[x].key.user {
      UsersAscend(all, j, m - 1);
    }
  }

  /** If the last entry before `q` has a key below `u` and no visible entry from `q` on has,
      then the keys below `u` are those that start before `q`. */
  lemma KeysBelow(all: seq<Entry>, s: nat, q: nat, u: UserKey)
    requires Sorted(all) && q <= |all|
    requires 0 < q ==> all[q - 1].key.user < u
    requires forall i | q <= i && Seen(all, s, i) :: u <= all[i].key.user
    ensures forall i | Shown(all, s, i) :: Below(u).Admits(all[i].key.user) <==> i < q
  {
    forall i | Shown(all, s, i) ensures all[i].key.user < u <==> i < q {
      if i < q { UsersAscend(all, i, q - 1); }
    }
  }

  lemma NothingBelow(all: seq<Entry>, s: nat, u: UserKey)
    requires forall i | Shown(all, s, i) :: !Below(u).Admits(all[i].key.user)
    ensures GreatestKey(all, s, Below(u), None)
  {
    forall w | Has(all, s, w) ensures !Below(u).Admits(w) {
      var v :| Maps(all, s, w, v);
      var i :| Shown(all, s, i) && all[i].key.user == w && all[i].value == v;
    }
  }

  /** A seek to (t, s) leaves behind exactly the keys below `t`. */
  lemma SeekIsClean(all: seq<Entry>, s: nat, t: UserKey)
    requires Sorted(all)
    ensures Clean(all, s, LowerBound(all, SeekKey(t, s)), None)
    ensures forall i | Shown(all, s, i) && t <= all[i].key.user :: LowerBound(all, SeekKey(t, s)) <= i
    ensures var p := LowerBound(all, SeekKey(t, s)); forall i | p <= i < |all| :: t <= all[i].key.user
  {
  }

  class DBIter {
    const iter: MergingIterator
    const sequence: nat
    var direction: Direction
    var valid: bool
    var savedKey: Option<UserKey>
    var savedValue: Blob

    /** How many entries lie up to and including the one under the inner iterator. */
    ghost function Upto(): nat
      reads this, iter
    {
      if iter.at < |iter.all| then iter.at + 1 else 0
    }

    /** In reverse the inner iterator stands before every entry of the saved key, with
        nothing visible in between. */
    ghost predicate Saved(x: nat)
      reads this, iter
    {
      && Shown(iter.all, sequence, x)
      && savedKey == Some(iter.all[x].key.user)
      && savedValue == iter.all[x].value
      && Upto() <= x
      && NoneSeen(iter.all, sequence, Upto(), x)
      && (0 < Upto() ==> iter.all[Upto() - 1].key.user < iter.all[x].key.user)
    }

    ghost predicate Valid()
      reads this, iter, iter.children
    {
      && iter.Valid()
      && (valid ==>
            if direction == Forward then Shown(iter.all, sequence, iter.at)
            else exists x :: Saved(x))
    }

    function Key(): UserKey
      requires Valid() && valid
      reads this, iter, iter.children
    {
      if direction == Forward then iter.Current().key.user else savedKey.value
    }

    function CurrentValue(): Blob
      requires Valid() && valid
      reads this, iter, iter.children
    {
      if direction == Forward then iter.Current().value else savedValue
    }

    ghost function At(): Option<UserKey>
      requires Valid()
      reads this, iter, iter.children
    {
      if valid then Some(Key()) else None
    }

    /** Whatever it shows is in the map, with its value. */
    lemma ShowsTheMap()
      requires Valid() && valid
      ensures Maps(iter.all, sequence, Key(), CurrentValue())
    {
      if direction == Forward {
        assert Shown(iter.all, sequence, iter.at);
      } else {
        var x :| Saved(x);
      }
    }

    constructor (iter: MergingIterator, s: nat)
      requires iter.Valid()
      ensures Valid() && !valid && this.iter == iter && sequence == s
    {
      this.iter := iter;
      sequence := s;
      direction := Forward;
      valid := false;
      savedKey := None;
      savedValue := [];
    }

    method FindNextUserEntry(skipping: bool)
      requires iter.Valid() && iter.OnEntry() && direction == Forward
      requires skipping ==> savedKey.Some?
      requires Clean(iter.all, sequence, iter.at, if skipping then savedKey else None)
      modifies this`valid, this`savedKey, iter, iter.children
      ensures Valid() && iter.at >= old(iter.at)
      ensures NothingShown(iter.all, sequence, old(iter.at), iter.at, if skipping then old(savedKey) else None)
      ensures valid ==> skipping ==> old(savedKey).value < Key()
      ensures !valid ==> iter.at == |iter.all|
    {
      ghost var all := iter.all;
      ghost var skip0 := if skipping then savedKey else None;
      ghost var p0 := iter.at;
      var hiding := skipping;
      while iter.OnEntry()
        invariant iter.Valid()
        invariant hiding ==> savedKey.Some?
        invariant Scanned(all, sequence, p0, skip0, iter.at, if hiding then savedKey else None)
        decreases |all| - iter.at
      {
        ghost var p := iter.at;
        ghost var skip := if hiding then savedKey else None;
        var e := iter.Current();
        if e.key.seqno <= sequence {
          match e.key.kind {
            case Deletion =>
              PassDeletion(all, sequence, p0, skip0, p, skip);
              savedKey := Some(e.key.user);
              hiding := true;
            case Value =>
              if hiding && e.key.user <= savedKey.value {
                PassHidden(all, sequence, p0, skip0, p, skip);
              } else {
                StopShows(all, sequence, p0, skip0, p, skip);
                valid := true;
                savedKey := None;
                return;
              }
          }
        } else {
          PassInvisible(all, sequence, p0, skip0, p, skip);
        }
        iter.Next();
      }
      savedKey := None;
      valid := false;
    }

    /** In reverse, the inner iterator stands on the last entry before `q`, or is off when
        there is none; visible entries on both sides of `q` have different keys. */
    method FindPrevUserEntry(ghost q: nat, ghost b: Bound)
      requires iter.Valid() && direction == Reverse && q <= |iter.all| && iter.at == StepBack(iter.all, q)
      requires forall i | Shown(iter.all, sequence, i) :: b.Admits(iter.all[i].key.user) <==> i < q
      modifies this, iter, iter.children
      ensures Valid() && GreatestKey(iter.all, sequence, b, At())
    {
      ghost var all := iter.all;
      ghost var m: nat, x: nat := q, q;
      var kind := Deletion;
      while iter.OnEntry()
        invariant iter.Valid() && m <= q && iter.at == StepBack(all, m)
        invariant direction == Reverse && (kind == Value ==> savedKey.Some?)
        invariant Unwound(all, sequence, m, q, x, kind, savedKey, savedValue)
        decreases m
      {
        var e := iter.Current();
        if e.key.seqno <= sequence {
          if kind == Value && e.key.user < savedKey.value {
            break;
          }
          ghost var kind0, key0, value0 := kind, savedKey, savedValue;
          kind := e.key.kind;
          if kind == Deletion {
            savedKey := None;
            savedValue := [];
          } else {
            savedKey := Some(e.key.user);
            savedValue := e.value;
          }
          UnwindSeen(all, sequence, m, q, x, kind0, key0, value0, savedKey, savedValue);
          x := m - 1;
        } else {
          UnwindUnseen(all, sequence, m, q, x, kind, savedKey, savedValue);
        }
        m := m - 1;
        iter.Prev();
      }
      if kind == Deletion {
        GreatestAfterScan(all, sequence, m, q, x, kind, savedKey, savedValue, b);
        valid := false;
        savedKey := None;
        savedValue := [];
        direction := Forward;
      } else {
        SavedIsShown(all, sequence, m, q, x, savedKey, savedValue);
        GreatestAfterScan(all, sequence, m, q, x, kind, savedKey, savedValue, b);
        valid := true;
        assert Saved(x);
      }
    }

    // ----- The iterator's operations ----------------------------------------------------

    /** From a reverse position the inner iterator moves into the entries of the saved key;
        no later key starts before the place it stops at. */
    method TurnForward()
      requires Valid() && valid && direction == Reverse
      modifies this`direction, iter, iter.children
      ensures iter.Valid() && direction == Forward
      ensures savedKey == old(Some(Key())) && Clean(iter.all, sequence, iter.at, savedKey)
      ensures forall i | Shown(iter.all, sequence, i) && old(Key()) < iter.all[i].key.user :: iter.at <= i
    {
      ghost var x :| Saved(x);
      CleanFromSaved(iter.all, sequence, Upto(), x);
      LaterKeysStartLater(iter.all, sequence, x);
      direction := Forward;
      if !iter.OnEntry() {
        iter.SeekToFirst();
      } else {
        iter.Next();
      }
    }

    method Next()
      requires Valid() && valid
      modifies this, iter, iter.children
      ensures Valid() && LeastKey(iter.all, sequence, After(old(Key())), At())
    {
      ghost var all, u := iter.all, Key();
      if direction == Reverse {
        TurnForward();
        if !iter.OnEntry() {
          valid := false;
          savedKey := None;
          LeastAfterScan(all, sequence, iter.at, iter.at, Some(u), After(u), None);
          return;
        }
      } else {
        CleanFromShown(all, sequence, iter.at);
        LaterKeysStartLater(all, sequence, iter.at);
        savedKey := Some(iter.Current().key.user);
      }
      ghost var p0 := iter.at;
      FindNextUserEntry(true);
      LeastAfterScan(all, sequence, p0, iter.at, Some(u), After(u), At());
    }

    method Prev()
      requires Valid() && valid
      modifies this, iter, iter.children
      ensures Valid() && GreatestKey(iter.all, sequence, Below(old(Key())), At())
    {
      ghost var all, u := iter.all, Key();
      if direction == Forward {
        var before := BackToPreviousKey();
        if !before {
          NothingBelow(all, sequence, u);
          valid := false;
          savedKey := None;
          savedValue := [];
          return;
        }
        direction := Reverse;
      } else {
        ghost var x :| Saved(x);
        CleanFromShown(all, sequence, x);
        KeysBelow(all, sequence, Upto(), u);
      }
      FindPrevUserEntry(Upto(), Below(u));
    }

    /** Back from the entry shown to the last one with a smaller user key. */
    method BackToPreviousKey() returns (before: bool)
      requires Valid() && valid && direction == Forward
      modifies this`savedKey, iter, iter.children
      ensures iter.Valid() && before == iter.OnEntry()
      ensures forall i | Shown(iter.all, sequence, i) :: Below(old(Key())).Admits(iter.all[i].key.user) <==> i < Upto()
    {
      ghost var all, p, u := iter.all, iter.at, Key();
      CleanFromShown(all, sequence, p);
      savedKey := Some(iter.Current().key.user);
      iter.Prev();
      while iter.OnEntry() && !(iter.Current().key.user < savedKey.value)
        invariant iter.Valid() && Upto() <= p && savedKey == Some(u)
        invariant forall i | Upto() <= i < p :: u <= all[i].key.user
        decreases Upto()
      {
        iter.Prev();
      }
      before := iter.OnEntry();
      KeysBelow(all, sequence, Upto(), u);
    }

    method SeekToFirst()
      requires Valid()
      modifies this, iter, iter.children
      ensures Valid() && LeastKey(iter.all, sequence, Any, At())
    {
      direction := Forward;
      savedValue := [];
      iter.SeekToFirst();
      if iter.OnEntry() {
        FindNextUserEntry(false);
      } else {
        valid := false;
      }
      LeastAfterScan(iter.all, sequence, 0, iter.at, None, Any, At());
    }

    method Seek(target: UserKey)
      requires Valid()
      modifies this, iter, iter.children
      ensures Valid() && LeastKey(iter.all, sequence, From(target), At())
    {
      ghost var all := iter.all;
      direction := Forward;
      savedValue := [];
      savedKey := None;
      iter.Seek(SeekKey(target, sequence));
      ghost var p0 := iter.at;
      SeekIsClean(all, sequence, target);
      if iter.OnEntry() {
        FindNextUserEntry(false);
      } else {
        valid := false;
      }
      LeastAfterScan(all, sequence, p0, iter.at, None, From(target), At());
    }

    method SeekToLast()
      requires Valid()
      modifies this, iter, iter.children
      ensures Valid() && GreatestKey(iter.all, sequence, Any, At())
    {
      direction := Reverse;
      savedValue := [];
      iter.SeekToLast();
      FindPrevUserEntry(|iter.all|, Any);
    }
  }
}
