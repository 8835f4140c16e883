/** The merge of a compaction: which entries it drops, and the tables it writes. */
module Compact {
  import opened Keys
  import opened Files
  import opened Versions

  /** No file two or more levels below the compacted one can hold the key. */
  ghost predicate IsBase(v: Version, level: nat, u: UserKey) {
    forall l, f | level + 2 <= l < NUM_LEVELS && f in v[l] :: !RangeHas(f, u)
  }

  // ----- The drop rule ----------------------------------------------------------------------

  /** An entry below a newer one of the same key that every reader already sees. */
  ghost predicate Hidden(all: seq<Entry>, i: nat, floor: nat)
    requires i < |all|
  {
    0 < i && all[i - 1].key.user == all[i].key.user && all[i - 1].key.seqno <= floor
  }

  /** A deletion marker that every reader sees and that has nothing left to delete. */
  ghost predicate Obsolete(all: seq<Entry>, i: nat, floor: nat, v: Version, level: nat)
    requires i < |all|
  {
    all[i].key.kind == Deletion && all[i].key.seqno <= floor && IsBase(v, level, all[i].key.user)
  }

  ghost predicate Dropped(all: seq<Entry>, i: nat, floor: nat, v: Version, level: nat)
    requires i < |all|
  {
    Hidden(all, i, floor) || Obsolete(all, i, floor, v, level)
  }

  /** What the merge keeps of the first `n` entries of its input. */
  ghost function Kept(all: seq<Entry>, n: nat, floor: nat, v: Version, level: nat): seq<Entry>
    requires n <= |all|
  {
    if n == 0 then []
    else Kept(all, n - 1, floor, v, level) + (if Dropped(all, n - 1, floor, v, level) then [] else [all[n - 1]])
  }

  lemma {:induction false} InKept(all: seq<Entry>, n: nat, floor: nat, v: Version, level: nat, e: Entry)
    requires n <= |all|
    ensures e in Kept(all, n, floor, v, level) <==> exists i: nat :: i < n && all[i] == e
                                                                     && !Dropped(all, i, floor, v, level)
  {
    if n > 0 {
      InKept(all, n - 1, floor, v, level, e);
    }
  }

  lemma {:induction false} KeptSorted(all: seq<Entry>, n: nat, floor: nat, v: Version, level: nat)
    requires Sorted(all) && n <= |all|
    ensures Sorted(Kept(all, n, floor, v, level))
  {
    if n > 0 {
      KeptSorted(all, n - 1, floor, v, level);
      var before := Kept(all, n - 1, floor, v, level);
      var out := Kept(all, n, floor, v, level);
      forall i, j | 0 <= i < j < |out| ensures InOrder(out, i, j) {
        if j < |before| {
          assert InOrder(before, i, j);
        } else {
          assert before[i] in before;
          InKept(all, n - 1, floor, v, level, before[i]);
          var k: nat :| k < n - 1 && all[k] == before[i];
          assert InOrder(all, k, n - 1);
        }
      }
    }
  }

  /** Of what the smallest snapshot sees of a key, a merge keeps the newest entry at most: an entry
      that is kept behind another of its key lies behind one that some reader does not see. */
  ghost predicate LeanAt(kept: seq<Entry>, i: nat, j: nat, floor: nat)
    requires i < |kept| && j < |kept|
  {
    kept[i].key.user == kept[j].key.user ==> kept[i].key.seqno > floor
  }

  lemma LeanOfTwo(all: seq<Entry>, i: nat, j: nat, floor: nat)
    requires Sorted(all) && i < j < |all| && !Hidden(all, j, floor) && all[i].key.user == all[j].key.user
    ensures all[i].key.seqno > floor
  {
    IndexOrder(all, i, j);
    IndexOrder(all, j - 1, j);
    if i < j - 1 { IndexOrder(all, i, j - 1); }
  }

  lemma {:induction false} KeptIsLean(all: seq<Entry>, n: nat, floor: nat, v: Version, level: nat)
    requires Sorted(all) && n <= |all|
    ensures forall i, j | 0 <= i < j < |Kept(all, n, floor, v, level)| ::
              LeanAt(Kept(all, n, floor, v, level), i, j, floor)
  {
    if n > 0 {
      KeptIsLean(all, n - 1, floor, v, level);
      var before := Kept(all, n - 1, floor, v, level);
      var out := Kept(all, n, floor, v, level);
      forall i, j | 0 <= i < j < |out| ensures LeanAt(out, i, j, floor) {
        if j < |before| {
          assert LeanAt(before, i, j, floor);
        } else {
          InKept(all, n - 1, floor, v, level, before[i]);
          var k: nat :| k < n - 1 && all[k] == before[i];
          if before[i].key.user == all[n - 1].key.user { LeanOfTwo(all, k, n - 1, floor); }
        }
      }
    }
  }

  /** No deletion is kept that every reader sees and that has nothing left to delete. */
  lemma NoneObsolete(all: seq<Entry>, n: nat, floor: nat, v: Version, level: nat, e: Entry)
    requires n <= |all| && e in Kept(all, n, floor, v, level)
    ensures e.key.kind == Deletion && e.key.seqno <= floor ==> !IsBase(v, level, e.key.user)
  {
    InKept(all, n, floor, v, level, e);
  }

  // ----- Overlap with the level below the output --------------------------------------------------

  /** How far the files two levels down have been passed, whether any key has, and the bytes of
      the files passed since the output was last cut for their sake. */
  datatype Scan = Scan(index: nat, seen: bool, bytes: nat)

  /** The first file from `i` on that does not lie below the key. */
  function Skip(files: seq<File>, i: nat, k: Key): (j: nat)
    requires i <= |files|
    ensures i <= j <= |files|
    decreases |files| - i
  {
    if i < |files| && Less(files[i].largest, k) then Skip(files, i + 1, k) else i
  }

  /** The bytes of the files passed on the way to a key. */
  function BytesTo(files: seq<File>, s: Scan, k: Key): nat
    requires s.index <= |files|
  {
    s.bytes + if s.seen then TotalFileSize(files[s.index..Skip(files, s.index, k)]) else 0
  }

  function ScanTo(files: seq<File>, limit: nat, s: Scan, k: Key): (t: Scan)
    requires s.index <= |files|
    ensures t.index <= |files|
  {
    var bytes := BytesTo(files, s, k);
    Scan(Skip(files, s.index, k), true, if bytes > limit then 0 else bytes)
  }

  lemma {:induction false} TotalOfTwo(files: seq<File>, i: nat, j: nat, k: nat)
    requires i <= j <= k <= |files|
    ensures TotalFileSize(files[i..k]) == TotalFileSize(files[i..j]) + TotalFileSize(files[j..k])
    decreases j - i
  {
    if i < j {
      assert files[i..k][1..] == files[i + 1..k] && files[i..j][1..] == files[i + 1..j];
      TotalOfTwo(files, i + 1, j, k);
    }
  }

  lemma OneMoreSize(files: seq<File>, i: nat, j: nat)
    requires i <= j < |files|
    ensures TotalFileSize(files[i..j + 1]) == TotalFileSize(files[i..j]) + files[j].size
  {
    TotalOfTwo(files, i, j, j + 1);
    assert files[j..j + 1][1..] == [];
  }

  class Compaction {
    const version: Version
    const level: nat
    /** The files two levels down that the outputs may overlap, and by how many bytes. */
    const grandparents: seq<File>
    const maxOverlap: nat
    var grandparentIndex: nat
    var seenKey: bool
    var overlappedBytes: nat
    /** For each level, how many files the scan of IsBaseLevelForKey has left behind. */
    var levelPtrs: seq<nat>
    /** No key below this one may be asked again. */
    ghost var asked: Option<UserKey>

    ghost predicate Valid()
      reads this`levelPtrs, this`asked, this`grandparentIndex
    {
      && level + 1 < NUM_LEVELS && grandparentIndex <= |grandparents|
      && |levelPtrs| == NUM_LEVELS
      && forall l | level + 2 <= l < NUM_LEVELS ::
           LevelSorted(version[l]) && levelPtrs[l] <= |version[l]| && Passed(l, levelPtrs[l])
    }

    ghost predicate Passed(l: nat, n: nat)
      requires l < NUM_LEVELS
      reads this`asked
    {
      n <= |version[l]| && forall i | 0 <= i < n :: asked.Some? && version[l][i].largest.user < asked.value
    }

    constructor (version: Version, level: nat, grandparents: seq<File>, maxOverlap: nat)
      requires level + 1 < NUM_LEVELS
      requires forall l | level + 2 <= l < NUM_LEVELS :: LevelSorted(version[l])
      ensures Valid() && this.version == version && this.level == level && asked == None
      ensures this.grandparents == grandparents && this.maxOverlap == maxOverlap && Scanned() == Scan(0, false, 0)
    {
      this.version := version;
      this.level := level;
      this.grandparents, this.maxOverlap := grandparents, maxOverlap;
      grandparentIndex, seenKey, overlappedBytes := 0, false, 0;
      levelPtrs := seq(NUM_LEVELS, _ => 0);
      asked := None;
    }

    /** One monotone scan over each deeper level, shared by all keys of the merge, answers
        what a search of the whole level would. */
    method IsBaseLevelForKey(u: UserKey) returns (base: bool)
      requires Valid() && (asked.Some? ==> asked.value <= u)
      modifies this`levelPtrs, this`asked
      ensures Valid() && asked == Some(u)
      ensures base <==> IsBase(version, level, u)
    {
      asked := Some(u);
      for l := level + 2 to NUM_LEVELS
        invariant Valid() && asked == Some(u)
        invariant forall m, f | level + 2 <= m < l && f in version[m] :: !RangeHas(f, u)
      {
        var files := version[l];
        while levelPtrs[l] < |files|
          invariant Valid() && asked == Some(u)
        {
          var f := files[levelPtrs[l]];
          if u <= f.largest.user {
            if u >= f.smallest.user {
              assert f in version[l] && RangeHas(f, u);
              return false;
            }
            break;
          }
          levelPtrs := levelPtrs[l := levelPtrs[l] + 1];
        }
        forall f | f in files ensures !RangeHas(f, u) {
          OutsideScan(files, levelPtrs[l], u, f);
        }
      }
      base := true;
    }

    function Scanned(): Scan
      reads this
    {
      Scan(grandparentIndex, seenKey, overlappedBytes)
    }

    /** Passes the files that lie below the key. The output should stop before it when those passed
        have too many bytes. */
    method ShouldStopBefore(key: Key) returns (stop: bool)
      requires Valid()
      modifies this`grandparentIndex, this`seenKey, this`overlappedBytes
      ensures Valid() && Scanned() == ScanTo(grandparents, maxOverlap, old(Scanned()), key)
      ensures stop <==> BytesTo(grandparents, old(Scanned()), key) > maxOverlap
    {
      assert grandparents[grandparentIndex..grandparentIndex] == [];
      while grandparentIndex < |grandparents| && Less(grandparents[grandparentIndex].largest, key)
        invariant Valid() && old(grandparentIndex) <= grandparentIndex && seenKey == old(seenKey)
        invariant Skip(grandparents, old(grandparentIndex), key) == Skip(grandparents, grandparentIndex, key)
        invariant overlappedBytes == old(overlappedBytes)
                    + (if seenKey then TotalFileSize(grandparents[old(grandparentIndex)..grandparentIndex]) else 0)
        decreases |grandparents| - grandparentIndex
      {
        OneMoreSize(grandparents, old(grandparentIndex), grandparentIndex);
        if seenKey {
          overlappedBytes := overlappedBytes + grandparents[grandparentIndex].size;
        }
        grandparentIndex := grandparentIndex + 1;
      }
      seenKey := true;
      stop := overlappedBytes > maxOverlap;
      if stop {
        overlappedBytes := 0;
      }
    }

    lemma OutsideScan(files: seq<File>, p: nat, u: UserKey, f: File)
      requires LevelSorted(files) && f in files && p <= |files|
      requires forall i | 0 <= i < p :: files[i].largest.user < u
      requires p < |files| ==> u < files[p].smallest.user
      ensures !RangeHas(f, u)
    {
      var i :| 0 <= i < |files| && files[i] == f;
      if p <= i {
        LevelOrder(files, p, i);
      }
    }
  }

  // ----- The merge loop ------------------------------------------------------------------------

  /** The entries of a list of tables, in order. */
  function Flatten(files: seq<File>): seq<Entry> {
    if files == [] then [] else Flatten(files[..|files| - 1]) + files[|files| - 1].entries
  }

  /** A table's metadata are the first and last entry of what was added to it. */
  ghost predicate WellBuilt(f: File) {
    && f.entries != []
    && f.smallest == f.entries[0].key
    && f.largest == f.entries[|f.entries| - 1].key
  }

  function Built(number: nat, size: nat, entries: seq<Entry>): File
    requires entries != []
  {
    File(number, size, entries[0].key, entries[|entries| - 1].key, entries)
  }

  ghost predicate NumberedFrom(files: seq<File>, first: nat) {
    forall i | 0 <= i < |files| :: files[i].number == first + i
  }

  /** What the loop remembers after the first `i` entries of its input. */
  ghost predicate Remembers(all: seq<Entry>, i: nat, user: Option<UserKey>, last: nat, asked: Option<UserKey>)
    requires i <= |all|
  {
    && (if i == 0 then user == None else user == Some(all[i - 1].key.user) && last == all[i - 1].key.seqno)
    && (asked.Some? ==> user.Some? && asked.value <= user.value)
  }

  /** The decision on one entry, from the key and the sequence number of the one before. */
  method DropEntry(c: Compaction, floor: nat, e: Entry, user: Option<UserKey>, last: nat, ghost all: seq<Entry>,
                   ghost i: nat)
    returns (drop: bool, user': Option<UserKey>, last': nat)
    requires c.Valid() && Sorted(all) && i < |all| && e == all[i] && floor < MAX_SEQUENCE
    requires Remembers(all, i, user, last, c.asked)
    modifies c`levelPtrs, c`asked
    ensures c.Valid() && Remembers(all, i + 1, user', last', c.asked)
    ensures drop <==> Dropped(all, i, floor, c.version, c.level)
  {
    if 0 < i { IndexOrder(all, i - 1, i); }
    user', last' := user, last;
    if user'.None? || e.key.user != user'.value {
      user' := Some(e.key.user);
      last' := MAX_SEQUENCE;
    }
    drop := false;
    if last' <= floor {
      drop := true;
    } else if e.key.kind == Deletion && e.key.seqno <= floor {
      drop := c.IsBaseLevelForKey(e.key.user);
    }
    last' := e.key.seqno;
  }

  ghost predicate WellNumbered(files: seq<File>, first: nat) {
    NumberedFrom(files, first) && forall f | f in files :: WellBuilt(f)
  }
}
