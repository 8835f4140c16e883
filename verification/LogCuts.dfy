/** A log that a crash cut short at any byte, and a log whose writer was opened again. */
module LogCuts {
  import opened Coding
  import opened Keys
  import opened Log
  import opened LogFragments
  import opened LogRecords

  lemma {:induction false} FrameEndInBlock(at: Offset, size: nat)
    ensures InBlock(FrameEnd(at, size)) == InBlock(at + FrameSize(at, size))
    decreases size, Avail(at) == 0
  {
    var n := FragmentLength(at, size);
    var first := Padding(at) + HEADER_SIZE + n;
    assert InBlock(After(at, n)) == InBlock(at + first);
    if n < size {
      FrameEndInBlock(After(at, n), size - n);
      AddInBlock(After(at, n), at + first, FrameSize(After(at, n), size - n));
    }
  }

  lemma SettledOffset(pos: nat, size: nat)
    ensures InBlock(FrameEnd(InBlock(pos), size)) == InBlock(pos + FrameSize(InBlock(pos), size))
  {
    FrameEndInBlock(InBlock(pos), size);
    AddInBlock(InBlock(pos), pos, FrameSize(InBlock(pos), size));
  }

  lemma Renamed(log: Input, s: Scan, at: Offset)
    requires Placed(log, s, at)
    ensures Placed(log, s, InBlock(at))
  {
  }

  /** What the reader gets for one record, in whose place it stands; after it, it stands in
      the place of the next. */
  ghost predicate Gets(log: Input, pos: nat, data: Bytes, r: Record) {
    var end := pos + FrameSize(InBlock(pos), |data|);
    && r.drops == []
    && if end <= |log.file| then r.record == Some(data) && r.scan.pos == end && Placed(log, r.scan, InBlock(end))
       else r.record == None
  }

  lemma OneRecord(log: Input, s: Scan, data: Bytes)
    requires Placed(log, s, InBlock(s.pos)) && Continues(log, s.pos, Frame(log.step, InBlock(s.pos), data, true))
    ensures Gets(log, s.pos, data, NextRecord(log, s, [], false))
  {
    ReadsFrame(log, s, InBlock(s.pos), data);
    Settles(log, s.pos, data, NextRecord(log, s, [], false));
  }

  lemma Settles(log: Input, pos: nat, data: Bytes, r: Record)
    requires ReadsRecord(log, pos, FrameSize(InBlock(pos), |data|), FrameEnd(InBlock(pos), |data|), data, r)
    ensures Gets(log, pos, data, r)
  {
    SettledOffset(pos, |data|);
    if pos + FrameSize(InBlock(pos), |data|) <= |log.file| {
      Renamed(log, r.scan, FrameEnd(InBlock(pos), |data|));
    }
  }

  lemma ReadsEnd(log: Input, s: Scan)
    requires InFile(log, s) && s.pos == |log.file|
    ensures NextRecord(log, s, [], false).record == None && NextRecord(log, s, [], false).drops == []
  {
    if !s.eof {
      var t := Refill(log, s);
      assert t.eof && NextFragment(log, t).code == EOF;
    }
  }

  /** From `off` on the file holds these records, as far as it goes. */
  ghost predicate Holds(log: Input, frame: Framer, records: seq<Bytes>, off: nat) {
    if records == [] then off == |log.file|
    else
      var end := off + FrameSize(InBlock(off), |records[0]|);
      && Continues(log, off, frame(InBlock(off), records[0]))
      && (end <= |log.file| ==> Holds(log, frame, records[1..], end))
  }

  /** How many of the records fit in a file of this size, from `off` on. */
  function Fits(records: seq<Bytes>, off: nat, cut: nat): (k: nat)
    ensures k <= |records|
  {
    if records == [] then 0
    else
      var end := off + FrameSize(InBlock(off), |records[0]|);
      if end <= cut then 1 + Fits(records[1..], end, cut) else 0
  }

  lemma ReadAllUnfold(log: Input, s: Scan)
    requires InFile(log, s)
    ensures var r := NextRecord(log, s, [], false);
            ReadAll(log, s) ==
              if r.record == None then Reading([], r.drops)
              else var rest := ReadAll(log, r.scan); Reading([r.record.value] + rest.records, r.drops + rest.drops)
  {
  }

  /** The reader gets these records, until the file ends inside one. */
  ghost predicate Finds(log: Input, s: Scan, records: seq<Bytes>)
    requires InFile(log, s)
    decreases |records|
  {
    var r := NextRecord(log, s, [], false);
    if records == [] then r.record == None && r.drops == []
    else Gets(log, s.pos, records[0], r) && (r.record.Some? ==> Finds(log, r.scan, records[1..]))
  }

  lemma {:induction false} HeldIsFound(log: Input, s: Scan, records: seq<Bytes>)
    requires Placed(log, s, InBlock(s.pos)) && Holds(log, Framing(log.step), records, s.pos)
    ensures Finds(log, s, records)
    decreases |records|
  {
    if records == [] {
      ReadsEnd(log, s);
    } else {
      OneRecord(log, s, records[0]);
      if s.pos + FrameSize(InBlock(s.pos), |records[0]|) <= |log.file| {
        HeldIsFound(log, NextRecord(log, s, [], false).scan, records[1..]);
      }
    }
  }

  lemma Prepend(records: seq<Bytes>, k: nat)
    requires k < |records|
    ensures [records[0]] + records[1..][..k] == records[..1 + k]
  {
  }

  lemma {:induction false} FoundIsRead(log: Input, s: Scan, records: seq<Bytes>)
    requires InFile(log, s) && Finds(log, s, records)
    ensures ReadAll(log, s) == Reading(records[..Fits(records, s.pos, |log.file|)], [])
    decreases |records|
  {
    ReadAllUnfold(log, s);
    if records != [] {
      var end := s.pos + FrameSize(InBlock(s.pos), |records[0]|);
      if end <= |log.file| {
        var r := NextRecord(log, s, [], false);
        FoundIsRead(log, r.scan, records[1..]);
        var k := Fits(records[1..], end, |log.file|);
        assert Fits(records, s.pos, |log.file|) == 1 + k;
        Prepend(records, k);
      }
    }
  }

  lemma {:induction false} StreamHolds(log: Input, frame: Framer, records: seq<Bytes>, off: nat)
    requires Sized(frame) && Continues(log, off, StreamFrom(frame, off, records))
    requires |log.file| <= off + |StreamFrom(frame, off, records)|
    ensures Holds(log, frame, records, off)
    decreases |records|
  {
    if records != [] {
      var first := frame(InBlock(off), records[0]);
      var end := off + |first|;
      ContinuesIn(log, off, first, StreamFrom(frame, end, records[1..]));
      if end <= |log.file| {
        StreamHolds(log, frame, records[1..], end);
      }
    }
  }

  /** `Fits` counts the records that end before the cut. */
  lemma {:induction false} FitsCounts(records: seq<Bytes>, off: nat, cut: nat)
    requires off <= cut
    ensures var k := Fits(records, off, cut);
            && off + StreamSize(off, records[..k]) <= cut
            && (k < |records| ==> cut < off + StreamSize(off, records[..k + 1]))
    decreases |records|
  {
    if records != [] {
      var end := off + FrameSize(InBlock(off), |records[0]|);
      if end <= cut {
        var k := Fits(records[1..], end, cut);
        FitsCounts(records[1..], end, cut);
        assert records[..k + 1][1..] == records[1..][..k];
        assert k + 1 < |records| ==> records[..k + 2][1..] == records[1..][..k + 1];
      } else {
        assert records[..1][1..] == [];
      }
    }
  }

  /** A log that is not cut holds all of its records. */
  lemma {:induction false} FitsAll(records: seq<Bytes>, off: nat, cut: nat)
    requires off + StreamSize(off, records) <= cut
    ensures Fits(records, off, cut) == |records|
    decreases |records|
  {
    if records != [] {
      FitsAll(records[1..], off + FrameSize(InBlock(off), |records[0]|), cut);
    }
  }

  /** Whatever the byte at which a log is cut off, reading it gives the records that are
      complete, in order, and reports no corruption. */
  lemma CutLogReads(step: Step, checksum: bool, records: seq<Bytes>, cut: nat)
    requires cut <= |Stream(step, records)|
    ensures var k := Fits(records, 0, cut);
            && ReadAll(Input(step, checksum, Stream(step, records)[..cut]), START) == Reading(records[..k], [])
            && |Stream(step, records[..k])| <= cut
            && (k < |records| ==> cut < |Stream(step, records[..k + 1])|)
  {
    var log := Input(step, checksum, Stream(step, records)[..cut]);
    var k := Fits(records, 0, cut);
    FramingIsSized(step);
    StreamHolds(log, Framing(step), records, 0);
    HeldIsFound(log, START, records);
    FoundIsRead(log, START, records);
    FitsCounts(records, 0, cut);
    StreamHasSize(Framing(step), 0, records[..k]);
    if k < |records| {
      StreamHasSize(Framing(step), 0, records[..k + 1]);
    }
  }
}
