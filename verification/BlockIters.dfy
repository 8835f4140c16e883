/** The iterator over a block. On a block that was laid out from entries it is a cursor over
    them. Other bytes may hold entries that are accepted but leave the block; the iterator is
    followed up to the first of them that it reads. */
module BlockIters {
  import opened Coding
  import opened Blocks

  type Order = (Bytes, Bytes) -> bool

  ghost predicate Transitive(less: Order) {
    forall a, b, c | less(a, b) && less(b, c) :: less(a, c)
  }

  ghost predicate Ascending(less: Order, slots: seq<Slot>) {
    forall i, j | 0 <= i < j < |slots| :: less(slots[i].key, slots[j].key)
  }

  /** The key so far gives the entry's key its shared part. */
  ghost predicate SharesWith(key: Bytes, s: Slot) {
    s.shared <= |key| && s.shared <= |s.key| && key[..s.shared] == s.key[..s.shared]
  }

  datatype WholeKey = Damaged | Behind | WholeKey(key: Bytes)

  class BlockIter {
    const less: Order
    const block: Bytes
    /** Where the restart array begins, and its length. */
    const restarts: nat
    const numRestarts: nat
    /** The offset of the current entry, `restarts` when there is none, and where the next one
        begins. */
    var current: nat
    var next: nat
    var restartIndex: nat
    var key: Bytes
    var value: Bytes
    var corrupted: bool
    /** Bytes behind the block were read. What they are, and all that follows, is unknown. */
    var outside: bool

    ghost const l: Layout

    ghost predicate Valid()
      reads this
    {
      && numRestarts > 0 && restarts + 4 * numRestarts <= |block|
      && current <= restarts && (current < restarts ==> restartIndex < numRestarts)
    }

    ghost predicate WellFormed() {
      Laid(block, l) && restarts == |l.data| && numRestarts == |l.rs|
    }

    /** Before the entry at `i`, with as much of the last key as it shares. */
    ghost predicate Ready(i: nat)
      requires WellFormed()
      reads this
    {
      && i <= |l.slots| && next == l.offsets[i] && restartIndex < |l.rs| && l.rs[restartIndex] <= i && !corrupted
      && !outside
      && (i < |l.slots| ==> SharesWith(key, l.slots[i]))
    }

    /** On the entry at `i`, or on none when `i` is the number of entries. */
    ghost predicate At(i: nat)
      requires WellFormed()
      reads this
    {
      && i <= |l.slots| && !corrupted && !outside && (current < restarts <==> i < |l.slots|)
      && (i < |l.slots| ==>
            && current == l.offsets[i] && next == l.offsets[i + 1]
            && key == l.slots[i].key && value == l.slots[i].value
            && restartIndex < |l.rs| && l.rs[restartIndex] <= i
            && (restartIndex + 1 < |l.rs| ==> i <= l.rs[restartIndex + 1]))
    }

    constructor (less: Order, block: Bytes, restarts: nat, numRestarts: nat, ghost l: Layout)
      requires numRestarts > 0 && restarts + 4 * numRestarts <= |block|
      ensures Valid() && this.block == block && this.less == less && this.l == l
      ensures this.restarts == restarts && this.numRestarts == numRestarts
      ensures WellFormed() ==> At(|l.slots|)
      ensures !outside
    {
      this.less, this.block, this.restarts, this.numRestarts, this.l := less, block, restarts, numRestarts, l;
      current, next, restartIndex, key, value := restarts, restarts, numRestarts, [], [];
      corrupted, outside := false, false;
    }

    /** The entry at an offset is accepted and leaves the block. */
    predicate LeavesAt(at: nat)
      requires restarts <= |block|
    {
      at < restarts && Leaves(block[at..restarts])
    }

    /** Nowhere in the block is such an entry. */
    ghost predicate EntriesStay()
      requires restarts <= |block|
    {
      forall at: nat :: !LeavesAt(at)
    }

    /** That can be told from the lengths: no sum of two of them wraps. */
    lemma EntriesStayExactly()
      requires restarts <= |block| < 0x1_0000_0000
      ensures EntriesStay() <==> forall at: nat | at < restarts :: SumFits(DecodeEntry(block[at..restarts]))
    {
      forall at: nat | at < restarts ensures LeavesAt(at) <==> !SumFits(DecodeEntry(block[at..restarts])) {
        if DecodeEntry(block[at..restarts]).Decoded? { LeavesExactly(block[at..restarts]); }
      }
    }

    predicate OnEntry()
      reads this
    {
      current < restarts
    }

    function RestartPoint(k: nat): nat
      requires restarts + 4 * numRestarts <= |block| && k < numRestarts
    {
      DecodeFixed(block[restarts + 4 * k..restarts + 4 * k + 4])
    }

    method SeekToRestartPoint(k: nat)
      requires Valid() && k < numRestarts
      modifies this`next, this`restartIndex, this`key, this`value
      ensures Valid() && next == RestartPoint(k) && restartIndex == k && key == []
      ensures WellFormed() && !corrupted && !outside ==> Ready(l.rs[k])
    {
      key, restartIndex, next, value := [], k, RestartPoint(k), [];
      if WellFormed() {
        RestartRead(block, l, k);
        if l.rs[k] < |l.slots| { assert Chained(l.slots, l.rs[k]); }
      }
    }

    method CorruptionError()
      modifies this`current, this`restartIndex, this`corrupted, this`key, this`value
      ensures current == restarts && restartIndex == numRestarts && corrupted
    {
      current, restartIndex, corrupted, key, value := restarts, numRestarts, true, [], [];
    }

    /** Parses the entry at `next`, if there is one. The iterator gets outside exactly when that
        entry is accepted and leaves the block. */
    method ParseNextKey(ghost i: nat) returns (ok: bool)
      requires Valid() && restartIndex < numRestarts
      modifies this
      ensures Valid() && ok == OnEntry()
      ensures ok ==> old(next) < next <= restarts && current == old(next) && |value| <= next
                     && value == block[next - |value|..next]
      ensures outside == (old(outside) || (LeavesAt(old(next))
              && DecodeEntry(block[old(next)..restarts]).shared <= |old(key)|))
      ensures WellFormed() && old(Ready(i)) ==> At(i)
    {
      ghost var good := WellFormed() && Ready(i);
      if good {
        OffsetOrder(l.data, l.slots, l.offsets, i, |l.slots|);
        if i < |l.slots| { EntryRead(block, l, i); }
      }
      current := next;
      if current >= restarts {
        current, restartIndex := restarts, numRestarts;
        return false;
      }
      var d := DecodeEntry(block[current..restarts]);
      if d.Malformed? || |key| < d.shared {
        CorruptionError();
        return false;
      }
      if LeavesAt(current) {
        current, restartIndex, outside := restarts, numRestarts, true;
        return false;
      }
      TakeEntry(d, if good then l.slots[i] else Slot(0, [], []), if good then l.offsets[i + 1] else 0);
      SkipRestarts(i);
      ok := true;
    }

    method TakeEntry(d: Decoded, ghost s: Slot, ghost end: nat)
      requires Valid() && current < restarts && restartIndex < numRestarts
      requires d == DecodeEntry(block[current..restarts]) && d.Decoded? && d.shared <= |key| && !LeavesAt(current)
      modifies this`next, this`key, this`value
      ensures current < next <= restarts && |value| <= next && value == block[next - |value|..next]
      ensures ReadsAt(block, current, restarts, s, end) && SharesWith(old(key), s) ==> next == end && key == s.key
                                                                                       && value == s.value
    {
      var p := current + d.header;
      if SharesWith(key, s) { assert s.key == s.key[..s.shared] + s.key[s.shared..]; }
      key := key[..d.shared] + block[p..p + d.nonShared];
      next := p + d.nonShared + d.valueLength;
      value := block[p + d.nonShared..next];
    }

    /** Moves on to the restart block of the current entry. */
    method SkipRestarts(ghost i: nat)
      requires Valid() && restartIndex < numRestarts
      modifies this`restartIndex
      ensures restartIndex < numRestarts
      ensures WellFormed() && i < |l.slots| && current == l.offsets[i] && l.rs[old(restartIndex)] <= i ==>
                l.rs[restartIndex] <= i && (restartIndex + 1 < |l.rs| ==> i <= l.rs[restartIndex + 1])
    {
      ghost var good := WellFormed() && i < |l.slots| && current == l.offsets[i] && l.rs[restartIndex] <= i;
      while restartIndex + 1 < numRestarts && RestartPoint(restartIndex + 1) < current
        invariant restartIndex < numRestarts
        invariant good ==> l.rs[restartIndex] <= i
      {
        if good { RestartOrder(restartIndex + 1, i); }
        restartIndex := restartIndex + 1;
      }
      if good && restartIndex + 1 < numRestarts { RestartOrder(restartIndex + 1, i); }
    }

    lemma RestartOrder(k: nat, i: nat)
      requires WellFormed() && restarts + 4 * numRestarts <= |block| && k < numRestarts && i <= |l.slots|
      ensures RestartPoint(k) < l.offsets[i] <==> l.rs[k] < i
    {
      RestartRead(block, l, k);
      OffsetOrder(l.data, l.slots, l.offsets, l.rs[k], i);
    }

    /** After an entry the iterator is ready for the one that follows. */
    lemma ReadyForNext(i: nat)
      requires WellFormed() && At(i) && i < |l.slots|
      ensures Ready(i + 1)
    {
      if i + 1 < |l.slots| { assert Chained(l.slots, i + 1); }
    }

    method Next(ghost i: nat)
      requires Valid() && OnEntry()
      modifies this
      ensures Valid() && (WellFormed() && old(At(i)) ==> At(i + 1))
      ensures EntriesStay() ==> outside == old(outside)
    {
      if WellFormed() && At(i) { ReadyForNext(i); }
      var ok := ParseNextKey(i + 1);
    }

    /** Goes back to a restart point before the entry and parses on from there. */
    method Prev(ghost i: nat)
      requires Valid() && OnEntry()
      modifies this
      ensures Valid() && (WellFormed() && old(At(i)) ==> At(if i == 0 then |l.slots| else i - 1))
      ensures EntriesStay() ==> outside == old(outside)
    {
      ghost var good := WellFormed() && At(i);
      var original := current;
      while RestartPoint(restartIndex) >= original
        invariant Valid() && restartIndex < numRestarts && (good ==> !corrupted && !outside) && outside == old(outside)
        decreases restartIndex
      {
        if restartIndex == 0 {
          if good { RestartOrder(0, i); }
          current, restartIndex := restarts, numRestarts;
          return;
        }
        restartIndex := restartIndex - 1;
      }
      if good { RestartOrder(restartIndex, i); }
      SeekToRestartPoint(restartIndex);
      ParseUntil(original, if good then l.rs[restartIndex] else 0, i);
    }

    /** There is an entry between the two, or `i` is the end and there is none at all. */
    ghost predicate Ahead(from: nat, i: nat) {
      from <= i <= |l.slots| && (from == i ==> i == |l.slots|)
    }

    /** Parses entries until one ends at `original` or later. */
    method ParseUntil(original: nat, ghost from: nat, ghost i: nat)
      requires Valid() && restartIndex < numRestarts
      modifies this
      ensures Valid() && (EntriesStay() ==> outside == old(outside))
      ensures WellFormed() && Ahead(from, i) && original == l.offsets[i] && old(Ready(from)) ==>
              At(if from < i then i - 1 else i)
    {
      ghost var good := WellFormed() && Ahead(from, i) && original == l.offsets[i] && Ready(from);
      ghost var j := from;
      var more := true;
      while more
        invariant Valid() && (more ==> restartIndex < numRestarts) && (EntriesStay() ==> outside == old(outside))
        invariant from <= j
        invariant good ==> if more then Ready(j) && (if from < i then j < i else j == i)
                  else At(if from < i then i - 1 else i)
        decreases more, restarts - next
      {
        var ok := ParseNextKey(j);
        if good && j < i {
          OffsetOrder(l.data, l.slots, l.offsets, j + 1, i);
          ReadyForNext(j);
        }
        more := ok && next < original;
        j := j + 1;
      }
    }

    method SeekToFirst()
      requires Valid()
      modifies this
      ensures Valid() && (WellFormed() && !old(corrupted) && !old(outside) ==> At(0))
      ensures outside == (old(outside) || (LeavesAt(RestartPoint(0))
              && DecodeEntry(block[RestartPoint(0)..restarts]).shared == 0))
    {
      SeekToRestartPoint(0);
      var ok := ParseNextKey(0);
    }

    method SeekToLast()
      requires Valid()
      modifies this
      ensures Valid() && (WellFormed() && !old(corrupted) && !old(outside) ==>
              At(if l.slots == [] then 0 else |l.slots| - 1))
      ensures EntriesStay() ==> outside == old(outside)
    {
      ghost var good := WellFormed() && !corrupted && !outside;
      SeekToRestartPoint(numRestarts - 1);
      ParseUntil(restarts, if good then l.rs[numRestarts - 1] else 0, if good then |l.slots| else 0);
    }

    /** Binary search for a restart point before the target, then a scan. */
    method Seek(target: Bytes)
      requires Valid()
      modifies this
      ensures Valid() && (EntriesStay() ==> outside == old(outside))
      ensures WellFormed() && Transitive(less) && Ascending(less, l.slots) && !old(corrupted) && !old(outside) ==>
                At(FirstNotBelow(less, l.slots, target))
    {
      ghost var good := WellFormed() && Transitive(less) && Ascending(less, l.slots) && !corrupted && !outside;
      var left, ok := FindRestart(target);
      if !ok { return; }
      SeekToRestartPoint(left);
      Scan(target, if good then l.rs[left] else 0);
    }

    /** Goes on to the first entry that is not below the target. */
    method Scan(target: Bytes, ghost from: nat)
      requires Valid() && restartIndex < numRestarts
      modifies this
      ensures Valid() && (EntriesStay() ==> outside == old(outside))
      ensures WellFormed() && old(Ready(from)) && AllBelow(less, l.slots, from, target) ==>
              At(FirstNotBelow(less, l.slots, target))
    {
      ghost var good := WellFormed() && Ready(from) && AllBelow(less, l.slots, from, target);
      ghost var stay, goal := EntriesStay(), FirstNotBelow(less, l.slots, target);
      ghost var j: nat := from;
      var more := true;
      while more
        invariant Valid() && (more ==> restartIndex < numRestarts) && (stay ==> outside == old(outside))
        invariant good && more ==> j <= |l.slots| && Ready(j) && AllBelow(less, l.slots, j, target)
        invariant good && !more ==> At(goal)
        decreases more, restarts - next
      {
        var ok := ParseNextKey(j);
        more := ok && less(key, target);
        if good { Looked(j, target, more); }
        j := j + 1;
      }
    }

    /** The scan goes on past an entry below the target, or is where it should end. */
    lemma Looked(j: nat, target: Bytes, more: bool)
      requires Valid() && WellFormed() && At(j) && AllBelow(less, l.slots, j, target)
               && more == (OnEntry() && less(key, target))
      ensures if more then j < |l.slots| && Ready(j + 1) && AllBelow(less, l.slots, j + 1, target)
              else At(FirstNotBelow(less, l.slots, target))
    {
      if more { ReadyForNext(j); } else { FirstIs(less, l.slots, j, target); }
    }

    /** The key that is stored whole at a restart point. */
    function KeyAt(region: nat): (k: WholeKey)
      requires restarts <= |block|
      ensures k.Behind? ==> LeavesAt(region)
    {
      var d := if region <= restarts then DecodeEntry(block[region..restarts]) else Malformed;
      if d.Malformed? || d.shared != 0 then Damaged
      else if d.header + d.nonShared > restarts - region then Behind
      else WholeKey(block[region + d.header..region + d.header + d.nonShared])
    }

    method GetOutside()
      modifies this`current, this`restartIndex, this`outside
      ensures current == restarts && restartIndex == numRestarts && outside
    {
      current, restartIndex, outside := restarts, numRestarts, true;
    }

    /** The last restart point whose key is below the target, if the search meets no damage and
        no key that leaves the block. */
    method FindRestart(target: Bytes) returns (left: nat, ok: bool)
      requires Valid()
      modifies this
      ensures Valid() && left < numRestarts
      ensures ok ==> unchanged(this)
      ensures EntriesStay() ==> outside == old(outside)
      ensures WellFormed() && Transitive(less) && Ascending(less, l.slots) ==>
                ok && l.rs[left] <= |l.slots| && AllBelow(less, l.slots, l.rs[left], target)
    {
      ghost var good := WellFormed() && Transitive(less) && Ascending(less, l.slots);
      left := 0;
      var right := numRestarts - 1;
      while left < right
        invariant 0 <= left <= right < numRestarts && unchanged(this)
        invariant good ==> l.rs[left] <= |l.slots| && AllBelow(less, l.slots, l.rs[left], target)
      {
        var mid := (left + right + 1) / 2;
        if good { RestartKey(mid); }
        var midKey := KeyAt(RestartPoint(mid));
        if midKey.Damaged? {
          CorruptionError();
          return left, false;
        }
        if midKey.Behind? {
          GetOutside();
          return left, false;
        }
        if less(midKey.key, target) {
          left := mid;
          if good { AllBelowKey(less, l.slots, l.rs[mid], target); }
        } else {
          right := mid - 1;
        }
      }
      ok := true;
    }

    /** The whole key of the entry at a restart point is stored there. */
    lemma RestartKey(k: nat)
      requires WellFormed() && restarts + 4 * numRestarts <= |block| && 0 < k < numRestarts
      ensures l.rs[k] < |l.slots| && KeyAt(RestartPoint(k)) == WholeKey(l.slots[l.rs[k]].key)
    {
      var i := l.rs[k];
      var at := l.offsets[i];
      assert RestartPoint(k) == at by { RestartRead(block, l, k); }
      EntryRead(block, l, i);
      KeyIsWhole(block, at, restarts, l.slots[i], l.offsets[i + 1]);
    }
  }

  lemma KeyIsWhole(block: Bytes, at: nat, end: nat, s: Slot, next: nat)
    requires at <= end <= |block| && ReadsAt(block, at, end, s, next) && s.shared == 0
    ensures var d := DecodeEntry(block[at..end]);
            && d.Decoded? && d.shared == 0 && at + d.header + d.nonShared <= end
            && block[at + d.header..at + d.header + d.nonShared] == s.key
  {
    assert s.key[0..] == s.key && Delta(s) == s.key;
  }

  ghost predicate AllBelow(less: Order, slots: seq<Slot>, n: nat, target: Bytes)
    requires n <= |slots|
  {
    forall i | 0 <= i < n :: less(slots[i].key, target)
  }

  /** The index of the first entry that is not below the target. */
  function FirstNotBelow(less: Order, slots: seq<Slot>, target: Bytes): (r: nat)
    ensures r <= |slots| && (forall i | 0 <= i < r :: less(slots[i].key, target))
    ensures r < |slots| ==> !less(slots[r].key, target)
  {
    if slots == [] then 0
    else if less(slots[0].key, target) then 1 + FirstNotBelow(less, slots[1..], target)
    else 0
  }

  lemma FirstIs(less: Order, slots: seq<Slot>, j: nat, target: Bytes)
    requires j <= |slots| && AllBelow(less, slots, j, target) && (j < |slots| ==> !less(slots[j].key, target))
    ensures FirstNotBelow(less, slots, target) == j
  {
  }

  lemma AllBelowKey(less: Order, slots: seq<Slot>, n: nat, target: Bytes)
    requires Transitive(less) && Ascending(less, slots) && n < |slots| && less(slots[n].key, target)
    ensures AllBelow(less, slots, n, target)
  {
  }

  function NumRestarts(contents: Bytes): nat {
    if |contents| < 4 then 0 else DecodeFixed(contents[|contents| - 4..])
  }

  predicate RoomForRestarts(contents: Bytes) {
    |contents| >= 4 && NumRestarts(contents) <= (|contents| - 4) / 4
  }

  /** Opens a block. There is no iterator for bytes that cannot be a block, nor for a block
      without restart points. */
  method NewIterator(less: Order, contents: Bytes, ghost l: Layout) returns (it: BlockIter?, error: bool)
    ensures it != null ==> fresh(it) && it.Valid() && it.block == contents && it.less == less && it.l == l
                           && !it.outside
    ensures Laid(contents, l) ==> it != null && !error && it.WellFormed() && it.At(|l.slots|)
    ensures error == !RoomForRestarts(contents) && (it == null <==> error || NumRestarts(contents) == 0)
    ensures it != null ==> it.numRestarts == NumRestarts(contents) && it.restarts + 4 * it.numRestarts + 4 == |contents|
  {
    it, error := null, false;
    if |contents| < 4 {
      return null, true;
    }
    var numRestarts := DecodeFixed(contents[|contents| - 4..]);
    if Laid(contents, l) { TrailerRead(contents, l); }
    if numRestarts > (|contents| - 4) / 4 {
      return null, true;
    }
    if numRestarts > 0 {
      it := new BlockIter(less, contents, |contents| - (1 + numRestarts) * 4, numRestarts, l);
    }
  }

  /** Sixteen bytes that are opened as a block and lead outside at once. */
  method SmallBlockLeaves(less: Order) returns (it: BlockIter?)
    ensures it != null && it.outside
    ensures it.block == [0x00, 0xff, 0xff, 0xff, 0xff, 0x0f, 0x02, 0x41] + [0, 0, 0, 0] + [1, 0, 0, 0]
  {
    var entry: Bytes := [0x00, 0xff, 0xff, 0xff, 0xff, 0x0f, 0x02, 0x41];
    var block := entry + Fixed(0, 4) + Fixed(1, 4);
    assert block[|block| - 4..] == Fixed(1, 4) && block[8..12] == Fixed(0, 4) && block[0..8] == entry;
    FourBytes(0);
    FourBytes(1);
    var error;
    it, error := NewIterator(less, block, Layout([], [], [], [], []));
    SmallEntryLeaves();
    assert it.RestartPoint(0) == 0 && it.LeavesAt(0);
    it.SeekToFirst();
    SmallNumbers();
  }

  lemma SmallNumbers()
    ensures Fixed(0, 4) == [0, 0, 0, 0] && Fixed(1, 4) == [1, 0, 0, 0]
  {
  }
}
