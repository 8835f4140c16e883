/** The builder of table blocks. */
module BlockBuilders {
  import opened Coding
  import opened Blocks

  /** The buffer has the entries so far, the last `counter` of them since the last restart. */
  ghost predicate Building(buffer: Bytes, restarts: seq<nat>, counter: nat, slots: seq<Slot>, offsets: seq<nat>,
                           rs: seq<nat>) {
    Entries(buffer, slots, offsets) && PointTo(restarts, slots, offsets, rs) && rs[|rs| - 1] + counter == |slots|
  }

  class BlockBuilder {
    const restartInterval: nat
    var buffer: Bytes
    var restarts: seq<nat>
    var counter: nat
    var lastKey: Bytes
    ghost var slots: seq<Slot>
    ghost var offsets: seq<nat>
    ghost var rs: seq<nat>

    ghost predicate Valid()
      reads this
    {
      restartInterval >= 1 && counter <= restartInterval && Building(buffer, restarts, counter, slots, offsets, rs)
          && lastKey == LastKey(slots)
    }

    constructor (restartInterval: nat)
      requires restartInterval >= 1
      ensures Valid() && slots == [] && this.restartInterval == restartInterval
      ensures IsEmpty() && CurrentSizeEstimate() == 8
    {
      this.restartInterval := restartInterval;
      buffer, restarts, counter, lastKey := [], [0], 0, [];
      slots, offsets, rs := [], [0], [0];
    }

    /** Adds an entry. Its key shares its longest common prefix with the key before it, unless a
        restart is due. */
    method Add(key: Bytes, value: Bytes) returns (ghost s: Slot)
      requires Valid() && |key| < 0x1_0000_0000 && |value| < 0x1_0000_0000
      modifies this
      ensures Valid() && slots == old(slots) + [s] && s.key == key && s.value == value
      ensures rs == if old(counter) == restartInterval then old(rs) + [|old(slots)|] else old(rs)
      ensures if old(counter) == restartInterval then s.shared == 0
              else IsCommonPrefix(LastKey(old(slots)), key, s.shared)
      ensures CurrentSizeEstimate() <= old(CurrentSizeEstimate()) + |key| + |value| + 19
    {
      var shared: nat, due := 0, counter == restartInterval;
      if !due {
        shared := CommonPrefix(lastKey, key);
      }
      s := Slot(shared, key, value);
      AddSlot(shared, key, value, due);
    }

    method AddSlot(shared: nat, key: Bytes, value: Bytes, due: bool)
      requires Valid() && |key| < 0x1_0000_0000 && |value| < 0x1_0000_0000 && due == (counter == restartInterval)
      requires shared <= |lastKey| && shared <= |key| && key[..shared] == lastKey[..shared] && (due ==> shared == 0)
      modifies this
      ensures Valid() && slots == old(slots) + [Slot(shared, key, value)]
      ensures CurrentSizeEstimate() <= old(CurrentSizeEstimate()) + |key| + |value| + 19
      ensures rs == if due then old(rs) + [|old(slots)|] else old(rs)
    {
      var entry := EntryBytes(shared, key, value);
      ghost var s := Slot(shared, key, value);
      EncodeIsShort(s);
      BuiltMore(buffer, restarts, counter, slots, offsets, rs, s, entry, due);
      Rejoined(lastKey, key, shared);
      Append(lastKey[..shared] + key[shared..], entry, due);
      Note(s, due);
    }

    method Append(key: Bytes, entry: Bytes, restart: bool)
      modifies this`restarts, this`buffer, this`lastKey, this`counter
      ensures restarts == (if restart then old(restarts) + [|old(buffer)|] else old(restarts))
              && buffer == old(buffer) + entry
      ensures lastKey == key && counter == (if restart then 1 else old(counter) + 1)
    {
      restarts := if restart then restarts + [|buffer|] else restarts;
      buffer := buffer + entry;
      lastKey := key;
      counter := (if restart then 0 else counter) + 1;
    }

    ghost method Note(s: Slot, due: bool)
      modifies this`slots, this`offsets, this`rs
      ensures slots == old(slots) + [s] && offsets == old(offsets) + [|buffer|]
      ensures rs == if due then old(rs) + [|old(slots)|] else old(rs)
    {
      if due { rs := rs + [|slots|]; }
      slots, offsets := slots + [s], offsets + [|buffer|];
    }

    /** Starts the next block. */
    method Reset()
      requires Valid()
      modifies this
      ensures Valid() && slots == [] && IsEmpty() && CurrentSizeEstimate() == 8
    {
      buffer, restarts, counter, lastKey := [], [0], 0, [];
      slots, offsets, rs := [], [0], [0];
    }

    function CurrentSizeEstimate(): nat
      reads this
    {
      |buffer| + 4 * |restarts| + 4
    }

    predicate IsEmpty()
      reads this
    {
      buffer == []
    }

    /** The buffer is empty when no entry was added, and only then. */
    lemma EmptyMeansNoSlots()
      requires Valid()
      ensures IsEmpty() <==> slots == []
    {
      if slots != [] { OffsetsGrow(buffer, slots, offsets, 0, |slots|); }
    }

    /** The finished block. */
    method Finish() returns (block: Bytes)
      requires Valid()
      ensures LaidOut(block, Layout(buffer, slots, offsets, rs, restarts)) && |block| == CurrentSizeEstimate()
    {
      block := buffer;
      assert OffsetsOf(restarts[..0]) == [];
      for i := 0 to |restarts|
        invariant block == buffer + OffsetsOf(restarts[..i])
      {
        assert restarts[..i + 1][..i] == restarts[..i];
        block := block + Fixed(restarts[i], 4);
      }
      assert restarts[..|restarts|] == restarts;
      block := block + Fixed(|restarts|, 4);
    }
  }

  function LastKey(slots: seq<Slot>): Bytes {
    if slots == [] then [] else slots[|slots| - 1].key
  }

  /** The longest common prefix has `n` bytes. */
  predicate IsCommonPrefix(a: Bytes, b: Bytes, n: nat) {
    && n <= |a| && n <= |b| && a[..n] == b[..n]
    && (n < |a| && n < |b| ==> a[n] != b[n])
  }

  method CommonPrefix(a: Bytes, b: Bytes) returns (n: nat)
    ensures IsCommonPrefix(a, b, n)
  {
    n := 0;
    while n < |a| && n < |b| && a[n] == b[n]
      invariant n <= |a| && n <= |b| && a[..n] == b[..n]
    {
      n := n + 1;
    }
  }

  lemma BuiltMore(buffer: Bytes, restarts: seq<nat>, counter: nat, slots: seq<Slot>, offsets: seq<nat>, rs: seq<nat>,
                  s: Slot, entry: Bytes, due: bool)
    requires Building(buffer, restarts, counter, slots, offsets, rs) && entry == Encode(s) && Small(s)
             && (due ==> s.shared == 0 && counter > 0)
    requires s.shared <= |LastKey(slots)| && s.key[..s.shared] == LastKey(slots)[..s.shared]
    ensures Building(buffer + entry, if due then restarts + [|buffer|] else restarts, if due then 1 else counter + 1,
                     slots + [s], offsets + [|buffer + entry|], if due then rs + [|slots|] else rs)
  {
    AddedEntry(buffer, slots, offsets, s, entry);
    AddedPoint(restarts, slots, offsets, rs, s, |buffer + entry|, due);
  }

  lemma Rejoined(last: Bytes, key: Bytes, shared: nat)
    requires shared <= |last| && shared <= |key| && key[..shared] == last[..shared]
    ensures last[..shared] + key[shared..] == key
  {
  }

  /** What an entry adds to the buffer. */
  method EntryBytes(shared: nat, key: Bytes, value: Bytes) returns (b: Bytes)
    requires shared <= |key|
    ensures b == Encode(Slot(shared, key, value))
  {
    var nonShared := |key| - shared;
    b := Varint(shared) + Varint(nonShared) + Varint(|value|);
    b := b + key[shared..];
    b := b + value;
  }

  lemma AddedEntry(data: Bytes, slots: seq<Slot>, offsets: seq<nat>, s: Slot, entry: Bytes)
    requires Entries(data, slots, offsets) && entry == Encode(s) && Small(s)
    requires s.shared <= |LastKey(slots)| && s.key[..s.shared] == LastKey(slots)[..s.shared]
    ensures Entries(data + entry, slots + [s], offsets + [|data + entry|])
  {
    var d, ss, os := data + entry, slots + [s], offsets + [|data + entry|];
    forall i | 0 <= i < |ss| ensures Stored(d, ss, os, i) && Chained(ss, i) {
      if i < |slots| {
        assert Stored(data, slots, offsets, i) && Chained(slots, i);
        assert d[os[i]..os[i + 1]] == data[offsets[i]..offsets[i + 1]];
      }
    }
  }

  lemma AddedPoint(restarts: seq<nat>, slots: seq<Slot>, offsets: seq<nat>, rs: seq<nat>, s: Slot, end: nat, due: bool)
    requires PointTo(restarts, slots, offsets, rs) && (due ==> s.shared == 0 && rs[|rs| - 1] < |slots|)
    ensures PointTo(if due then restarts + [offsets[|slots|]] else restarts, slots + [s], offsets + [end],
                    if due then rs + [|slots|] else rs)
  {
  }
}
