/** The physical records of a log as its reader finds them: a function of the file and of how
    far the reader has come in it; and what it finds in a log that a crash cut short. */
module LogFragments {
  import opened Coding
  import opened Log

  /** A log file as its reader sees it. */
  datatype Input = Input(step: Step, checksum: bool, file: Bytes)

  /** `file[pos..end]` is buffered; `eof` says that the last block came out short. */
  datatype Scan = Scan(pos: nat, end: nat, eof: bool)

  const START := Scan(0, 0, false)

  /** Two codes past the record types of the format. A damaged file may hold them as types. */
  const EOF: nat := 5
  const BAD_RECORD: nat := 6

  datatype Fragment = Fragment(code: nat, payload: Bytes, scan: Scan, drops: seq<nat>)

  predicate InFile(log: Input, s: Scan) {
    s.pos <= s.end <= |log.file|
  }

  /** The next block, or what is left of the file. */
  function Refill(log: Input, s: Scan): (t: Scan)
    requires InFile(log, s)
    ensures InFile(log, t) && t.pos == s.end
    ensures !t.eof ==> t.end > s.end
  {
    var end := if s.end + BLOCK_SIZE <= |log.file| then s.end + BLOCK_SIZE else |log.file|;
    Scan(s.end, end, end - s.end < BLOCK_SIZE)
  }

  /** The next physical record. `drops` lists the sizes that get reported as corrupt. */
  function NextFragment(log: Input, s: Scan): (f: Fragment)
    requires InFile(log, s)
    ensures InFile(log, f.scan) && s.pos <= f.scan.pos && (f.code != EOF ==> s.pos < f.scan.pos)
    decreases |log.file| - s.end, !s.eof
  {
    if s.end - s.pos >= HEADER_SIZE then ParseFragment(log, s)
    else if s.eof then Fragment(EOF, [], s.(pos := s.end), [])
    else NextFragment(log, Refill(log, s))
  }

  function PayloadLength(header: Bytes): nat
    requires |header| >= HEADER_SIZE
  {
    header[4] as int + 256 * (header[5] as int)
  }

  function ParseFragment(log: Input, s: Scan): (f: Fragment)
    requires InFile(log, s) && s.end - s.pos >= HEADER_SIZE
    ensures InFile(log, f.scan) && s.pos < f.scan.pos
  {
    var b := log.file[s.pos..s.end];
    var length := PayloadLength(b);
    var rest := s.(pos := s.end);
    if HEADER_SIZE + length > |b| then
      if s.eof then Fragment(EOF, [], rest, []) else Fragment(BAD_RECORD, [], rest, [|b|])
    else if b[6] == 0 && length == 0 then Fragment(BAD_RECORD, [], rest, [])
    else if log.checksum && Unmask(DecodeFixed32(b[..4])) != Checksum(log.step, b[6..HEADER_SIZE + length]) then
      Fragment(BAD_RECORD, [], rest, [|b|])
    else Fragment(b[6], b[HEADER_SIZE..HEADER_SIZE + length], s.(pos := s.pos + HEADER_SIZE + length), [])
  }

  // ----- Logs that were cut short ----------------------------------------------------------------

  /** A reader at offset `at` of a block: its buffer ends with the block, or with the file. */
  predicate Placed(log: Input, s: Scan, at: Offset) {
    && InFile(log, s)
    && if s.eof then s.end == |log.file| && at + (s.end - s.pos) < BLOCK_SIZE
       else at + (s.end - s.pos) == BLOCK_SIZE || (at == 0 && s.pos == s.end)
  }

  /** At `off` the file continues with `b`, as far as it goes. */
  predicate Continues(log: Input, off: nat, b: Bytes) {
    off <= |log.file| && forall i :: off <= i < |log.file| && i < off + |b| ==> log.file[i] == b[i - off]
  }

  lemma ContinuesIn(log: Input, off: nat, b: Bytes, c: Bytes)
    requires Continues(log, off, b + c)
    ensures Continues(log, off, b)
    ensures off + |b| <= |log.file| ==> Continues(log, off + |b|, c)
  {
    assert forall i :: off <= i < |log.file| && i < off + |b| ==> log.file[i] == (b + c)[i - off];
    if off + |b| <= |log.file| {
      assert forall i :: off + |b| <= i < |log.file| && i < off + |b| + |c| ==>
          log.file[i] == (b + c)[i - off] == c[i - off - |b|];
    }
  }

  lemma BufferAgrees(log: Input, s: Scan, p: Bytes)
    requires InFile(log, s) && Continues(log, s.pos, p)
    ensures var b := log.file[s.pos..s.end];
            (forall i :: 0 <= i < |b| && i < |p| ==> b[i] == p[i]) && (|p| <= |b| ==> b[..|p|] == p)
  {
  }

  /** A physical record at the reader's position, with its header in the buffer. */
  lemma ParsesFragment(log: Input, s: Scan, at: Offset, t: byte, payload: Bytes)
    requires Placed(log, s, at) && s.end - s.pos >= HEADER_SIZE
    requires t > 0 && at + HEADER_SIZE + |payload| <= BLOCK_SIZE
    requires Continues(log, s.pos, Physical(log.step, t, payload))
    ensures var next := s.pos + HEADER_SIZE + |payload|;
            ParseFragment(log, s) ==
              if next <= |log.file| then Fragment(t, payload, s.(pos := next), [])
                  else Fragment(EOF, [], s.(pos := s.end), [])
  {
    var p := Physical(log.step, t, payload);
    var b := log.file[s.pos..s.end];
    BufferAgrees(log, s, p);
    PhysicalParts(log.step, t, payload);
    assert b[4] == p[4] && b[5] == p[5] && b[6] == p[6];
    assert PayloadLength(b) == |payload|;
    if s.pos + |p| <= |log.file| {
      assert b[..4] == b[..|p|][..4] && b[6..|p|] == b[..|p|][6..] && b[7..|p|] == b[..|p|][7..];
      UnmaskMask(Checksum(log.step, [t] + payload));
    }
  }

  /** The `size` bytes at `pos` come out as this fragment and leave the reader at offset
      `after`; or the file ends inside them, which ends the reading. */
  ghost predicate Reads(log: Input, pos: nat, f: Fragment, size: nat, after: Offset, t: byte, payload: Bytes) {
    && f.drops == []
    && if pos + size <= |log.file| then f.code == t && f.payload == payload && f.scan.pos == pos + size
    && Placed(log, f.scan, after)
       else f.code == EOF && f.scan.pos == |log.file| && Placed(log, f.scan, 0)
  }

  lemma ParsesIfBuffered(log: Input, s: Scan, at: Offset, t: byte, payload: Bytes)
    requires Placed(log, s, at) && (s.end - s.pos >= HEADER_SIZE || s.eof)
    requires t > 0 && at + HEADER_SIZE + |payload| <= BLOCK_SIZE
    requires Continues(log, s.pos, Physical(log.step, t, payload))
    ensures Reads(log, s.pos, NextFragment(log, s), HEADER_SIZE + |payload|, at + HEADER_SIZE + |payload|, t, payload)
  {
    if s.end - s.pos >= HEADER_SIZE {
      ParsesFragment(log, s, at, t, payload);
    }
  }

  lemma SkipsPadding(log: Input, s: Scan, at: Offset, p: Bytes)
    requires Placed(log, s, at) && s.end - s.pos < HEADER_SIZE && !s.eof
    requires Continues(log, s.pos, Zeros(Padding(at)) + p)
    ensures var t := Refill(log, s);
            && Placed(log, t, HeaderAt(at)) && (t.end - t.pos >= HEADER_SIZE || t.eof) && t.pos == s.pos + Padding(at)
            && Continues(log, t.pos, p) && NextFragment(log, s) == NextFragment(log, t)
  {
    ContinuesIn(log, s.pos, Zeros(Padding(at)), p);
  }

  /** A fragment that was written at this offset, after its padding. */
  lemma ReadsFragment(log: Input, s: Scan, at: Offset, data: Bytes, begin: bool)
    requires Placed(log, s, at) && Continues(log, s.pos, Log.Fragment(log.step, at, data, begin))
    ensures var n := FragmentLength(at, |data|);
            Reads(log, s.pos, NextFragment(log, s), Padding(at) + HEADER_SIZE + n, After(at, n),
                TypeOf(begin, n == |data|), data[..n])
  {
    var n, pad := FragmentLength(at, |data|), Padding(at);
    var t := TypeOf(begin, n == |data|);
    var p := Physical(log.step, t, data[..n]);
    if s.end - s.pos < HEADER_SIZE && !s.eof {
      SkipsPadding(log, s, at, p);
      ParsesIfBuffered(log, Refill(log, s), HeaderAt(at), t, data[..n]);
    } else if s.end - s.pos >= HEADER_SIZE {
      assert Zeros(pad) + p == p;
      ParsesIfBuffered(log, s, at, t, data[..n]);
    }
  }
}
