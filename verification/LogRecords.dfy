/** Records out of fragments, whatever those come from; and what is read from a log that a
    crash cut short. */
module LogRecords {
  import opened Coding
  import opened Keys
  import opened Log
  import opened LogFragments

  datatype Record = Record(record: Option<Bytes>, scan: Scan, drops: seq<nat>)

  datatype Outcome = Done(record: Option<Bytes>, drops: seq<nat>) | More(scratch: Bytes, fragmented: bool,
      drops: seq<nat>)

  /** What a fragment does to the record that is being put together. */
  function Handle(code: nat, payload: Bytes, scratch: Bytes, fragmented: bool): Outcome {
    var unfinished := if fragmented && scratch != [] then [|scratch|] else [];
    if code == FULL_TYPE then Done(Some(payload), unfinished)
    else if code == FIRST_TYPE then More(payload, true, unfinished)
    else if code == MIDDLE_TYPE then
      if fragmented then More(scratch + payload, true, []) else More(scratch, false, [|payload|])
    else if code == LAST_TYPE then
      if fragmented then Done(Some(scratch + payload), []) else More(scratch, false, [|payload|])
    else if code == EOF then Done(None, [])
    else if code == BAD_RECORD then
      if fragmented then More([], false, [|scratch|]) else More(scratch, false, [])
    else More([], false, [|payload| + if fragmented then |scratch| else 0])
  }

  /** The next record; `scratch` holds the fragments of it that were already read. */
  function NextRecord(log: Input, s: Scan, scratch: Bytes, fragmented: bool): (r: Record)
    requires InFile(log, s)
    ensures InFile(log, r.scan) && (r.record.Some? ==> s.pos < r.scan.pos)
    decreases |log.file| - s.pos
  {
    var f := NextFragment(log, s);
    match Handle(f.code, f.payload, scratch, fragmented)
    case Done(record, drops) => Record(record, f.scan, f.drops + drops)
    case More(kept, inside, drops) =>
      var r := NextRecord(log, f.scan, kept, inside);
      r.(drops := f.drops + drops + r.drops)
  }

  datatype Reading = Reading(records: seq<Bytes>, drops: seq<nat>)

  /** Everything that the reader returns until it gives up. */
  function ReadAll(log: Input, s: Scan): Reading
    requires InFile(log, s)
    decreases |log.file| - s.pos
  {
    var r := NextRecord(log, s, [], false);
    match r.record
    case None => Reading([], r.drops)
    case Some(record) =>
      var rest := ReadAll(log, r.scan);
      Reading([record] + rest.records, r.drops + rest.drops)
  }

  // ----- Logs that were cut short ----------------------------------------------------------------

  lemma HandleWritten(scratch: Bytes, begin: bool, end: bool, payload: Bytes)
    requires begin ==> scratch == []
    ensures Handle(TypeOf(begin, end), payload, scratch, !begin)
         == if end then Done(Some(scratch + payload), []) else More(scratch + payload, true, [])
  {
    assert scratch == [] ==> scratch + payload == payload;
  }

  /** What is read for a record of `size` bytes at `pos`: the record, or, when the file ends
      inside it, nothing, and without a report. */
  ghost predicate ReadsRecord(log: Input, pos: nat, size: nat, after: Offset, data: Bytes, r: Record) {
    && r.drops == []
    && if pos + size <= |log.file| then r.record == Some(data) && r.scan.pos == pos + size && Placed(log, r.scan, after)
       else r.record == None && r.scan.pos == |log.file| && Placed(log, r.scan, 0)
  }

  lemma FrameSplits(log: Input, off: nat, at: Offset, data: Bytes, begin: bool)
    requires Continues(log, off, Frame(log.step, at, data, begin))
    ensures var n := FragmentLength(at, |data|);
            var end := off + Padding(at) + HEADER_SIZE + n;
            && Continues(log, off, Log.Fragment(log.step, at, data, begin))
            && (n < |data| && end <= |log.file| ==>
                Continues(log, end, Frame(log.step, After(at, n), data[n..], false)))
  {
    var n := FragmentLength(at, |data|);
    FrameUnfold(log.step, at, data, begin);
    if n < |data| {
      var first, rest := Log.Fragment(log.step, at, data, begin), Frame(log.step, After(at, n), data[n..], false);
      PartsContinue(log, off, Frame(log.step, at, data, begin), first, rest, Padding(at) + HEADER_SIZE + n);
    } else {
      assert Frame(log.step, at, data, begin) == Log.Fragment(log.step, at, data, begin);
    }
  }

  lemma PartsContinue(log: Input, off: nat, frame: Bytes, first: Bytes, rest: Bytes, size: nat)
    requires Continues(log, off, frame) && frame == first + rest && |first| == size
    ensures Continues(log, off, first) && (off + size <= |log.file| ==> Continues(log, off + size, rest))
  {
    ContinuesIn(log, off, first, rest);
  }

  /** At `off` the file holds the fragments of a record, as far as it goes. */
  ghost predicate Framed(log: Input, off: nat, at: Offset, data: Bytes, begin: bool)
    decreases |data|, Avail(at) == 0
  {
    var n := FragmentLength(at, |data|);
    var end := off + Padding(at) + HEADER_SIZE + n;
    && Continues(log, off, Log.Fragment(log.step, at, data, begin))
    && (n < |data| && end <= |log.file| ==> Framed(log, end, After(at, n), data[n..], false))
  }

  lemma {:induction false} FrameIsFramed(log: Input, off: nat, at: Offset, data: Bytes, begin: bool)
    requires Continues(log, off, Frame(log.step, at, data, begin))
    ensures Framed(log, off, at, data, begin)
    decreases |data|, Avail(at) == 0
  {
    var n := FragmentLength(at, |data|);
    var end := off + Padding(at) + HEADER_SIZE + n;
    FrameSplits(log, off, at, data, begin);
    if n < |data| && end <= |log.file| {
      FrameIsFramed(log, end, After(at, n), data[n..], false);
    }
  }

  /** The fragments of a record come out one after the other, until the file ends. */
  ghost predicate Parses(log: Input, s: Scan, at: Offset, data: Bytes, begin: bool)
    requires InFile(log, s)
    decreases |data|, Avail(at) == 0
  {
    var n, f := FragmentLength(at, |data|), NextFragment(log, s);
    var size := Padding(at) + HEADER_SIZE + n;
    && Reads(log, s.pos, f, size, After(at, n), TypeOf(begin, n == |data|), data[..n])
    && (n < |data| && s.pos + size <= |log.file| ==> Parses(log, f.scan, After(at, n), data[n..], false))
  }

  lemma {:induction false} FramedParses(log: Input, s: Scan, at: Offset, data: Bytes, begin: bool)
    requires Placed(log, s, at) && Framed(log, s.pos, at, data, begin)
    ensures Parses(log, s, at, data, begin)
    decreases |data|, Avail(at) == 0
  {
    var n, f := FragmentLength(at, |data|), NextFragment(log, s);
    ReadsFragment(log, s, at, data, begin);
    if n < |data| && s.pos + Padding(at) + HEADER_SIZE + n <= |log.file| {
      FramedParses(log, f.scan, After(at, n), data[n..], false);
    }
  }

  lemma RoundEnds(log: Input, s: Scan, scratch: Bytes, begin: bool, size: nat, after: Offset, data: Bytes)
    requires InFile(log, s) && (begin ==> scratch == [])
    requires Reads(log, s.pos, NextFragment(log, s), size, after, TypeOf(begin, true), data)
    ensures ReadsRecord(log, s.pos, size, after, scratch + data, NextRecord(log, s, scratch, !begin))
  {
    HandleWritten(scratch, begin, true, data);
  }

  lemma RoundGoesOn(log: Input, s: Scan, scratch: Bytes, begin: bool, size: nat, after: Offset, payload: Bytes,
                    more: nat, end: Offset, all: Bytes)
    requires InFile(log, s) && (begin ==> scratch == [])
    requires Reads(log, s.pos, NextFragment(log, s), size, after, TypeOf(begin, false), payload)
    requires var next := NextFragment(log, s).scan;
             s.pos + size <= |log.file| ==> ReadsRecord(log, next.pos, more, end, all,
                 NextRecord(log, next, scratch + payload, true))
    ensures ReadsRecord(log, s.pos, size + more, end, all, NextRecord(log, s, scratch, !begin))
  {
    HandleWritten(scratch, begin, false, payload);
  }

  lemma Regroup(scratch: Bytes, data: Bytes, n: nat)
    requires n <= |data|
    ensures scratch + data == (scratch + data[..n]) + data[n..]
  {
  }

  lemma TakeAll(data: Bytes)
    ensures data[..|data|] == data
  {
  }

  /** The fragments make up the record, with those that are in `scratch` already. */
  lemma {:induction false} ParsedIsRecord(log: Input, s: Scan, at: Offset, data: Bytes, begin: bool, scratch: Bytes,
                                          all: Bytes)
    requires InFile(log, s) && Parses(log, s, at, data, begin) && (begin ==> scratch == []) && all == scratch + data
    ensures ReadsRecord(log, s.pos, FrameSize(at, |data|), FrameEnd(at, |data|), all,
            NextRecord(log, s, scratch, !begin))
    decreases |data|, Avail(at) == 0
  {
    var n := FragmentLength(at, |data|);
    var size, after := Padding(at) + HEADER_SIZE + n, After(at, n);
    if n == |data| {
      TakeAll(data);
      RoundEnds(log, s, scratch, begin, size, after, data);
    } else {
      Regroup(scratch, data, n);
      if s.pos + size <= |log.file| {
        ParsedIsRecord(log, NextFragment(log, s).scan, after, data[n..], false, scratch + data[..n], all);
      }
      RoundGoesOn(log, s, scratch, begin, size, after, data[..n], FrameSize(after, |data| - n),
          FrameEnd(after, |data| - n), all);
      SizeUnfolds(at, |data|);
    }
  }

  lemma SizeUnfolds(at: Offset, size: nat)
    requires FragmentLength(at, size) < size
    ensures var n := FragmentLength(at, size);
            && FrameSize(at, size) == Padding(at) + HEADER_SIZE + n + FrameSize(After(at, n), size - n)
            && FrameEnd(at, size) == FrameEnd(After(at, n), size - n)
  {
  }

  /** A record at the reader's position. */
  lemma ReadsFrame(log: Input, s: Scan, at: Offset, data: Bytes)
    requires Placed(log, s, at) && Continues(log, s.pos, Frame(log.step, at, data, true))
    ensures ReadsRecord(log, s.pos, FrameSize(at, |data|), FrameEnd(at, |data|), data, NextRecord(log, s, [], false))
  {
    FrameIsFramed(log, s.pos, at, data, true);
    FramedParses(log, s, at, data, true);
    ParsedIsRecord(log, s, at, data, true, [], data);
  }
}
