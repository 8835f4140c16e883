/** The log reader. It works on any file; what it returns is what the functions of LogRecords
    say of the file. */
module LogReader {
  import opened Coding
  import opened Keys
  import opened Log
  import opened LogFragments
  import opened LogRecords

  /** What the rest of the loop still gives completes the goal. */
  ghost predicate Awaits(r: Record, reports: seq<nat>, goal: Record, all: seq<nat>) {
    r.record == goal.record && r.scan == goal.scan && reports + r.drops == all
  }

  /** One round of the loop; `rest` is what the rounds after it give. */
  ghost function Combine(f: LogFragments.Fragment, o: Outcome, rest: Record): Record {
    if o.Done? then Record(o.record, f.scan, f.drops + o.drops) else rest.(drops := f.drops + o.drops + rest.drops)
  }

  lemma CombineAwaits(f: LogFragments.Fragment, o: Outcome, rest: Record, reports: seq<nat>, goal: Record,
                      all: seq<nat>)
    requires Awaits(Combine(f, o, rest), reports, goal, all)
    ensures o.Done? ==> o.record == goal.record && f.scan == goal.scan && reports + f.drops + o.drops == all
    ensures o.More? ==> Awaits(rest, reports + f.drops + o.drops, goal, all)
  {
    if o.Done? {
      assert reports + (f.drops + o.drops) == reports + f.drops + o.drops;
    } else {
      assert reports + (f.drops + o.drops + rest.drops) == reports + f.drops + o.drops + rest.drops;
    }
  }

  lemma NextRecordUnfold(log: Input, s: Scan, scratch: Bytes, fragmented: bool)
    requires InFile(log, s)
    ensures var f := NextFragment(log, s);
            var o := Handle(f.code, f.payload, scratch, fragmented);
            var rest := if o.More? then NextRecord(log, f.scan, o.scratch, o.fragmented) else Record(None, s, []);
            NextRecord(log, s, scratch, fragmented) == Combine(f, o, rest)
  {
  }

  lemma Round(log: Input, s: Scan, scratch: Bytes, fragmented: bool, reports: seq<nat>, goal: Record, all: seq<nat>)
    requires InFile(log, s) && Awaits(NextRecord(log, s, scratch, fragmented), reports, goal, all)
    ensures var f := NextFragment(log, s);
            var o := Handle(f.code, f.payload, scratch, fragmented);
            && (o.Done? ==> o.record == goal.record && f.scan == goal.scan && reports + f.drops + o.drops == all)
            && (o.More? ==> s.pos < f.scan.pos
                            && Awaits(NextRecord(log, f.scan, o.scratch, o.fragmented), reports + f.drops + o.drops,
                                goal, all))
  {
    var f := NextFragment(log, s);
    var o := Handle(f.code, f.payload, scratch, fragmented);
    NextRecordUnfold(log, s, scratch, fragmented);
    CombineAwaits(f, o, if o.More? then NextRecord(log, f.scan, o.scratch, o.fragmented)
        else Record(None, s, []), reports, goal, all);
  }

  class Reader {
    const log: Input
    /** The unread part of the last block, and how much of the file has been read. */
    var buffer: Bytes
    var position: nat
    var eof: bool
    /** The sizes of what was dropped as corrupt. */
    var reports: seq<nat>

    ghost predicate Valid()
      reads this
    {
      |buffer| <= position <= |log.file| && buffer == log.file[position - |buffer|..position]
    }

    ghost function State(): (s: Scan)
      requires Valid()
      reads this
      ensures InFile(log, s)
    {
      Scan(position - |buffer|, position, eof)
    }

    constructor (log: Input)
      ensures Valid() && this.log == log && State() == START && reports == []
    {
      this.log := log;
      buffer, position, eof, reports := [], 0, false, [];
    }

    /** The record, or none at the end of the file. */
    method ReadRecord() returns (record: Option<Bytes>)
      requires Valid()
      modifies this
      ensures Valid()
      ensures var r := NextRecord(log, old(State()), [], false);
              record == r.record && State() == r.scan && reports == old(reports) + r.drops
    {
      var scratch: Bytes, inFragmentedRecord, more := [], false, true;
      record := None;
      ghost var goal := NextRecord(log, State(), [], false);
      ghost var s, all := State(), reports + goal.drops;
      while more
        invariant Valid() && s == State()
        invariant if more then Awaits(NextRecord(log, s, scratch, inFragmentedRecord), reports, goal, all)
                  else record == goal.record && s == goal.scan && reports == all
        decreases more, |log.file| - s.pos
      {
        Round(log, s, scratch, inFragmentedRecord, reports, goal, all);
        var code, fragment := ReadPhysicalRecord();
        s := State();
        record, scratch, inFragmentedRecord, more := AddFragment(code, fragment, scratch, inFragmentedRecord);
      }
    }

    /** What a physical record does to the record that is being read; `more` when that is not
        done with it. */
    method AddFragment(code: nat, fragment: Bytes, scratch0: Bytes, inside0: bool)
      returns (record: Option<Bytes>, scratch: Bytes, inside: bool, more: bool)
      modifies this`reports
      ensures var o := Handle(code, fragment, scratch0, inside0);
              && reports == old(reports) + o.drops
              && (if more then o == More(scratch, inside, o.drops) else o == Done(record, o.drops))
    {
      record, scratch, inside, more := None, scratch0, inside0, true;
      match code {
        case 1 =>
          if inside && scratch != [] { reports := reports + [|scratch|]; }
          record, more := Some(fragment), false;
        case 2 =>
          if inside && scratch != [] { reports := reports + [|scratch|]; }
          scratch, inside := fragment, true;
        case 3 =>
          if !inside { reports := reports + [|fragment|]; } else { scratch := scratch + fragment; }
        case 4 =>
          if !inside { reports := reports + [|fragment|]; } else { record, more := Some(scratch + fragment), false; }
        case 5 =>
          more := false;
        case 6 =>
          if inside {
            reports := reports + [|scratch|];
            scratch, inside := [], false;
          }
        case _ =>
          reports := reports + [|fragment| + if inside then |scratch| else 0];
          scratch, inside := [], false;
      }
    }

    /** What the reporter notes when a user of the reader drops a record. */
    method Report(size: nat)
      requires Valid()
      modifies this`reports
      ensures Valid() && reports == old(reports) + [size]
    {
      reports := reports + [size];
    }

    method ReadPhysicalRecord() returns (code: nat, fragment: Bytes)
      requires Valid()
      modifies this
      ensures Valid()
      ensures var f := NextFragment(log, old(State()));
              code == f.code && fragment == f.payload && State() == f.scan && reports == old(reports) + f.drops
    {
      fragment := [];
      while |buffer| < HEADER_SIZE
        invariant Valid() && reports == old(reports)
        invariant NextFragment(log, State()) == NextFragment(log, old(State()))
        decreases |log.file| - position, !eof
      {
        if eof {
          buffer := [];
          return EOF, fragment;
        }
        ReadBlock();
      }
      code, fragment := ParseHeader();
    }

    /** Drops what is buffered and reads a block. */
    method ReadBlock()
      requires Valid()
      modifies this
      ensures Valid() && State() == Refill(log, old(State())) && reports == old(reports)
    {
      var end := if position + BLOCK_SIZE <= |log.file| then position + BLOCK_SIZE else |log.file|;
      buffer := log.file[position..end];
      position := end;
      eof := |buffer| < BLOCK_SIZE;
    }

    method ParseHeader() returns (code: nat, fragment: Bytes)
      requires Valid() && |buffer| >= HEADER_SIZE
      modifies this
      ensures Valid()
      ensures var f := ParseFragment(log, old(State()));
              code == f.code && fragment == f.payload && State() == f.scan && reports == old(reports) + f.drops
    {
      var length := buffer[4] as int + 256 * (buffer[5] as int);
      var t := buffer[6];
      if HEADER_SIZE + length > |buffer| {
        var dropSize := |buffer|;
        buffer := [];
        if !eof {
          reports := reports + [dropSize];
          return BAD_RECORD, [];
        }
        return EOF, [];
      }
      if t == 0 && length == 0 {
        buffer := [];
        return BAD_RECORD, [];
      }
      if log.checksum {
        var expected := Unmask(DecodeFixed32(buffer[..4]));
        var actual := Checksum(log.step, buffer[6..HEADER_SIZE + length]);
        if actual != expected {
          var dropSize := |buffer|;
          buffer := [];
          reports := reports + [dropSize];
          return BAD_RECORD, [];
        }
      }
      fragment := buffer[HEADER_SIZE..HEADER_SIZE + length];
      buffer := buffer[HEADER_SIZE + length..];
      code := t;
    }
  }
}
