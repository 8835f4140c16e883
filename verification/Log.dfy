/** The log format: how a writer cuts records into physical fragments that fit the blocks of
    a file, and how a reader puts them together again. */
module Log {
  import opened Coding

  const BLOCK_SIZE: nat := 32768

  /** Where in its block an offset of the file falls. */
  function InBlock(off: nat): nat { off % 32768 }

  const HEADER_SIZE: nat := 7

  const FULL_TYPE: byte := 1
  const FIRST_TYPE: byte := 2
  const MIDDLE_TYPE: byte := 3
  const LAST_TYPE: byte := 4

  lemma AddInBlock(a: nat, b: nat, n: nat)
    requires InBlock(a) == InBlock(b)
    ensures InBlock(a + n) == InBlock(b + n)
  {
  }

  // ----- Checksums ------------------------------------------------------------------------------------

  /** One byte of a checksum computation. The format works for any of them. */
  type Step = (uint32, byte) -> uint32

  function Extend(step: Step, crc: uint32, data: Bytes): uint32 {
    if data == [] then crc else step(Extend(step, crc, data[..|data| - 1]), data[|data| - 1])
  }

  function Checksum(step: Step, data: Bytes): uint32 {
    Extend(step, 0, data)
  }

  /** The writer extends a stored checksum of the type byte; the reader starts afresh. */
  lemma {:induction false} ExtendConcat(step: Step, crc: uint32, a: Bytes, b: Bytes)
    ensures Extend(step, Extend(step, crc, a), b) == Extend(step, crc, a + b)
  {
    if b == [] {
      assert a + b == a;
    } else {
      assert (a + b)[..|a + b| - 1] == a + b[..|b| - 1];
      ExtendConcat(step, crc, a, b[..|b| - 1]);
    }
  }

  const MASK_DELTA: uint32 := 0xa282ead8

  /** Rotated right by 15 bits, plus a constant. */
  function Mask(crc: uint32): uint32 {
    (crc / 0x8000 + crc % 0x8000 * 0x2_0000 + MASK_DELTA) % 0x1_0000_0000
  }

  function Unmask(masked: uint32): uint32 {
    var rot := (masked - MASK_DELTA) % 0x1_0000_0000;
    rot / 0x2_0000 + rot % 0x2_0000 * 0x8000
  }

  lemma UnmaskMask(crc: uint32)
    ensures Unmask(Mask(crc)) == crc
  {
    var rot := crc / 0x8000 + crc % 0x8000 * 0x2_0000;
    assert 0 <= crc / 0x8000 < 0x2_0000;
    assert (Mask(crc) - MASK_DELTA) % 0x1_0000_0000 == rot;
    assert rot / 0x2_0000 == crc % 0x8000 && rot % 0x2_0000 == crc / 0x8000;
  }

  // ----- Physical records ------------------------------------------------------------------------------

  /** Checksum, length and type, then the payload. */
  function Physical(step: Step, t: byte, payload: Bytes): (b: Bytes)
    requires |payload| <= 0xffff
    ensures |b| == HEADER_SIZE + |payload|
  {
    Fixed32(Mask(Checksum(step, [t] + payload))) + [|payload| % 256, |payload| / 256, t] + payload
  }

  lemma PhysicalParts(step: Step, t: byte, payload: Bytes)
    requires |payload| <= 0xffff
    ensures var b := Physical(step, t, payload);
            && DecodeFixed(b[..4]) == Mask(Checksum(step, [t] + payload))
            && b[4] == |payload| % 256 && b[5] == |payload| / 256 && b[6] == t && b[6..] == [t] + payload
            && b[7..] == payload
  {
    var b := Physical(step, t, payload);
    assert b[..4] == Fixed32(Mask(Checksum(step, [t] + payload)));
    Fixed32RoundTrip(Mask(Checksum(step, [t] + payload)));
  }

  /** Writers and readers keep the offset in the current block; a block that is used up counts
      like a block that has not begun. */
  type Offset = o: nat | o <= 32768

  /** The filler that the writer leaves when a header no longer fits in the block. */
  function Padding(at: Offset): nat {
    if BLOCK_SIZE - at < HEADER_SIZE then BLOCK_SIZE - at else 0
  }

  /** Where the next header goes. */
  function HeaderAt(at: Offset): Offset {
    if BLOCK_SIZE - at < HEADER_SIZE then 0 else at
  }

  function Avail(at: Offset): nat {
    BLOCK_SIZE - HeaderAt(at) - HEADER_SIZE
  }

  function FragmentLength(at: Offset, size: nat): (n: nat)
    ensures n <= size && n <= Avail(at)
  {
    if size < Avail(at) then size else Avail(at)
  }

  function TypeOf(begin: bool, end: bool): byte {
    if begin && end then FULL_TYPE else if begin then FIRST_TYPE else if end then LAST_TYPE else MIDDLE_TYPE
  }

  /** The first fragment, with its padding, of data that goes to this offset. */
  function Fragment(step: Step, at: Offset, data: Bytes, begin: bool): (b: Bytes)
    ensures |b| == Padding(at) + HEADER_SIZE + FragmentLength(at, |data|)
  {
    var n := FragmentLength(at, |data|);
    Zeros(Padding(at)) + Physical(step, TypeOf(begin, n == |data|), data[..n])
  }

  function After(at: Offset, n: nat): Offset
    requires n <= Avail(at)
  {
    HeaderAt(at) + HEADER_SIZE + n
  }

  /** All bytes that a record adds to the log. A block with just room for a header takes an
      empty fragment. */
  function Frame(step: Step, at: Offset, data: Bytes, begin: bool): Bytes
    decreases |data|, Avail(at) == 0
  {
    var n := FragmentLength(at, |data|);
    var b := Fragment(step, at, data, begin);
    if n == |data| then b else b + Frame(step, After(at, n), data[n..], false)
  }

  lemma FrameUnfold(step: Step, at: Offset, data: Bytes, begin: bool)
    ensures var n, b := FragmentLength(at, |data|), Fragment(step, at, data, begin);
            Frame(step, at, data, begin) == if n == |data| then b else b + Frame(step, After(at, n), data[n..], false)
  {
  }

  /** Where in its block a record of this size ends. */
  function FrameEnd(at: Offset, size: nat): Offset
    decreases size, Avail(at) == 0
  {
    var n := FragmentLength(at, size);
    if n == size then After(at, n) else FrameEnd(After(at, n), size - n)
  }

  /** How many bytes it takes. */
  function FrameSize(at: Offset, size: nat): nat
    decreases size, Avail(at) == 0
  {
    var n := FragmentLength(at, size);
    Padding(at) + HEADER_SIZE + n + if n == size then 0 else FrameSize(After(at, n), size - n)
  }

  lemma {:induction false} FrameHasSize(step: Step, at: Offset, data: Bytes, begin: bool)
    ensures |Frame(step, at, data, begin)| == FrameSize(at, |data|)
    decreases |data|, Avail(at) == 0
  {
    var n := FragmentLength(at, |data|);
    FrameUnfold(step, at, data, begin);
    if n < |data| {
      FrameHasSize(step, After(at, n), data[n..], false);
    }
  }

  /** It does not matter by which end a block boundary is called. */
  lemma FrameAtBoundary(step: Step, data: Bytes, begin: bool)
    ensures Frame(step, BLOCK_SIZE, data, begin) == Frame(step, 0, data, begin)
  {
    FrameUnfold(step, BLOCK_SIZE, data, begin);
    FrameUnfold(step, 0, data, begin);
  }

  /** How a record is laid down at an offset of a block. */
  type Framer = (Offset, Bytes) -> Bytes

  function Framing(step: Step): Framer {
    (at: Offset, data: Bytes) => Frame(step, at, data, true)
  }

  ghost predicate Sized(frame: Framer) {
    forall at: Offset, data: Bytes :: |frame(at, data)| == FrameSize(at, |data|)
  }

  lemma FramingIsSized(step: Step)
    ensures Sized(Framing(step))
  {
    forall at: Offset, data: Bytes
      ensures |Framing(step)(at, data)| == FrameSize(at, |data|)
    {
      FrameHasSize(step, at, data, true);
    }
  }

  /** What these records add to a log of length `off`. */
  function StreamFrom(frame: Framer, off: nat, records: seq<Bytes>): Bytes
    decreases |records|
  {
    if records == [] then []
    else
      var first := frame(InBlock(off), records[0]);
      first + StreamFrom(frame, off + |first|, records[1..])
  }

  /** A log file with the given records. */
  function Stream(step: Step, records: seq<Bytes>): Bytes {
    StreamFrom(Framing(step), 0, records)
  }

  function StreamSize(off: nat, records: seq<Bytes>): nat
    decreases |records|
  {
    if records == [] then 0
    else
      var size := FrameSize(InBlock(off), |records[0]|);
      size + StreamSize(off + size, records[1..])
  }

  lemma {:induction false} StreamHasSize(frame: Framer, off: nat, records: seq<Bytes>)
    requires Sized(frame)
    ensures |StreamFrom(frame, off, records)| == StreamSize(off, records)
    decreases |records|
  {
    if records != [] {
      StreamHasSize(frame, off + |frame(InBlock(off), records[0])|, records[1..]);
    }
  }

  lemma {:induction false} StreamFromAppend(frame: Framer, off: nat, records: seq<Bytes>, record: Bytes)
    ensures var before := StreamFrom(frame, off, records);
            StreamFrom(frame, off, records + [record]) == before + frame(InBlock(off + |before|), record)
    decreases |records|
  {
    if records == [] {
      assert [record][1..] == [] && records + [record] == [record];
      assert StreamFrom(frame, off + |frame(InBlock(off), record)|, []) == [];
    } else {
      var first := frame(InBlock(off), records[0]);
      StreamFromAppend(frame, off + |first|, records[1..], record);
      assert (records + [record])[1..] == records[1..] + [record];
    }
  }

  /** The writer makes such a log one record at a time, and what a record adds depends only on
      the length; so the log may be closed and opened again in between. */
  lemma StreamAppend(step: Step, records: seq<Bytes>, record: Bytes)
    ensures var before := Stream(step, records);
            Stream(step, records + [record]) == before + Frame(step, InBlock(|before|), record, true)
  {
    StreamFromAppend(Framing(step), 0, records, record);
  }
}
