/** The log writer. */
module LogWriter {
  import opened Coding
  import opened Log

  /** What the record still adds to the file, if anything, completes the goal. */
  ghost predicate Owed(step: Step, goal: Bytes, dest: Bytes, at: Offset, data: Bytes, begin: bool, more: bool) {
    goal == dest + if more then Frame(step, at, data, begin) else []
  }

  lemma OwedAtFirst(step: Step, dest: Bytes, at: Offset, record: Bytes)
    requires InBlock(at) == InBlock(|dest|)
    ensures Owed(step, dest + Frame(step, InBlock(|dest|), record, true), dest, at, record, true, true)
  {
    SameOffset(at, |dest|);
    FrameAtBoundary(step, record, true);
    assert Frame(step, at, record, true) == Frame(step, InBlock(|dest|), record, true);
  }

  lemma SameOffset(at: Offset, off: nat)
    requires InBlock(at) == InBlock(off)
    ensures InBlock(off) == if at == BLOCK_SIZE then 0 else at
  {
  }

  lemma OwedStep(step: Step, goal: Bytes, dest: Bytes, at: Offset, data: Bytes, begin: bool)
    requires Owed(step, goal, dest, at, data, begin, true)
    ensures var n := FragmentLength(at, |data|);
            Owed(step, goal, dest + Fragment(step, at, data, begin), After(at, n), data[n..], false, n < |data|)
  {
    var n, b := FragmentLength(at, |data|), Fragment(step, at, data, begin);
    FrameUnfold(step, at, data, begin);
    var rest := if n < |data| then Frame(step, After(at, n), data[n..], false) else [];
    assert dest + (b + rest) == (dest + b) + rest;
  }

  class Writer {
    const step: Step
    /** The file so far, and the position in its last block. */
    var dest: Bytes
    var blockOffset: Offset

    ghost predicate Valid()
      reads this
    {
      InBlock(blockOffset) == InBlock(|dest|)
    }

    /** A writer for a new file or, at its length, for an old one. */
    constructor (step: Step, dest: Bytes)
      ensures Valid() && this.step == step && this.dest == dest
    {
      this.step := step;
      this.dest := dest;
      blockOffset := InBlock(|dest|);
    }

    /** Cuts the record into fragments, each as long as its block allows. */
    method AddRecord(record: Bytes)
      requires Valid()
      modifies this
      ensures Valid() && dest == old(dest) + Frame(step, InBlock(|old(dest)|), record, true)
    {
      var left, begin, more := record, true, true;
      ghost var goal := dest + Frame(step, InBlock(|dest|), record, true);
      OwedAtFirst(step, dest, blockOffset, record);
      while more
        invariant Valid() && Owed(step, goal, dest, blockOffset, left, begin, more)
        decreases more, |left|, Avail(blockOffset) == 0
      {
        var n := AddFragment(left, begin, goal);
        left := left[n..];
        begin := false;
        more := left != [];
      }
    }

    /** The same, for a file that holds the given records. */
    method AppendRecord(record: Bytes, ghost records: seq<Bytes>)
      requires Valid() && dest == Stream(step, records)
      modifies this
      ensures Valid() && dest == Stream(step, records + [record])
    {
      StreamAppend(step, records, record);
      AddRecord(record);
    }

    /** As much of the data as fits in the current block, or in the next one when not even a
        header fits in this. */
    method AddFragment(data: Bytes, begin: bool, ghost goal: Bytes) returns (n: nat)
      requires Valid() && Owed(step, goal, dest, blockOffset, data, begin, true)
      modifies this
      ensures Valid() && n == FragmentLength(old(blockOffset), |data|)
      ensures dest == old(dest) + Fragment(step, old(blockOffset), data, begin)
              && blockOffset == After(old(blockOffset), n)
      ensures Owed(step, goal, dest, blockOffset, data[n..], false, n < |data|)
    {
      OwedStep(step, goal, dest, blockOffset, data, begin);
      SwitchBlock();
      var avail := BLOCK_SIZE - blockOffset - HEADER_SIZE;
      n := if |data| < avail then |data| else avail;
      var end := |data| == n;
      var t := if begin && end then FULL_TYPE else if begin then FIRST_TYPE else if end then LAST_TYPE else MIDDLE_TYPE;
      EmitPhysicalRecord(t, data[..n]);
      assert dest == old(dest) + Fragment(step, old(blockOffset), data, begin);
    }

    /** Fills up a block that has no room for a header. */
    method SwitchBlock()
      requires Valid()
      modifies this
      ensures Valid() && dest == old(dest) + Zeros(Padding(old(blockOffset)))
      ensures blockOffset == HeaderAt(old(blockOffset))
    {
      NextBlock(|dest|, BLOCK_SIZE - blockOffset);
      var leftover := BLOCK_SIZE - blockOffset;
      if leftover < HEADER_SIZE {
        if leftover > 0 {
          dest := dest + Zeros(leftover);
        }
        blockOffset := 0;
      }
    }

    method EmitPhysicalRecord(t: byte, payload: Bytes)
      requires Valid() && blockOffset + HEADER_SIZE + |payload| <= BLOCK_SIZE
      modifies this
      ensures Valid() && dest == old(dest) + Physical(step, t, payload)
      ensures blockOffset == old(blockOffset) + HEADER_SIZE + |payload|
    {
      ExtendConcat(step, 0, [t], payload);
      var crc := Extend(step, Checksum(step, [t]), payload);
      var header := Fixed32(Mask(crc)) + [|payload| % 256, |payload| / 256, t];
      assert header + payload == Physical(step, t, payload);
      AddInBlock(blockOffset, |dest|, HEADER_SIZE + |payload|);
      dest := dest + header;
      dest := dest + payload;
      blockOffset := blockOffset + HEADER_SIZE + |payload|;
    }
  }

  lemma NextBlock(off: nat, n: nat)
    requires n <= BLOCK_SIZE && InBlock(off) == InBlock(BLOCK_SIZE - n)
    ensures InBlock(off + n) == 0
  {
  }
}
