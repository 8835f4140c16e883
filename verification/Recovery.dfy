/** Recovery of a write-ahead log: what a crash leaves of the write groups. */
module Recovery {
  import opened Coding
  import opened Keys
  import Log
  import opened LogFragments
  import opened LogRecords
  import LogCuts
  import LogReader
  import opened WriteBatches

  /** What the memtable is given for an update. */
  datatype Added = Added(seqno: nat, update: Update)

  /** A batch counts its sequence number up, in 64 bits. */
  function AddedBy(first: nat, us: seq<Update>): (added: seq<Added>)
    ensures |added| == |us|
  {
    seq(|us|, i requires 0 <= i < |us| => Added((first + i) % 0x1_0000_0000_0000_0000, us[i]))
  }

  function LastOf(rep: Bytes): nat
    requires |rep| >= HEADER
  {
    (SequenceOf(rep) + CountOf(rep) - 1) % 0x1_0000_0000_0000_0000
  }

  datatype Recovered = Recovered(ok: bool, added: seq<Added>, maxSequence: nat, reports: seq<nat>)

  /** What one record does to the recovery, and whether that ends it. A batch that turns out to
      be malformed has added its first updates by then; only paranoid checks end on it. */
  function Apply(paranoid: bool, rep: Bytes, acc: Recovered): (Recovered, bool) {
    if |rep| < HEADER then (acc.(ok := !paranoid, reports := acc.reports + [|rep|]), false)
    else
      var it := IterationOf(rep);
      var added := acc.added + AddedBy(SequenceOf(rep), it.updates);
      if !it.ok && paranoid then (acc.(ok := false, added := added), true)
      else (acc.(added := added, maxSequence := if LastOf(rep) > acc.maxSequence then LastOf(rep) else acc.maxSequence),
          false)
  }

  /** What was reported while the next record was read. */
  function Note(paranoid: bool, drops: seq<nat>, acc: Recovered): Recovered {
    acc.(ok := acc.ok && !(paranoid && drops != []), reports := acc.reports + drops)
  }

  function Recover(log: Input, paranoid: bool, s: Scan, acc: Recovered): Recovered
    requires InFile(log, s)
    decreases |log.file| - s.pos
  {
    var r := NextRecord(log, s, [], false);
    var noted := Note(paranoid, r.drops, acc);
    if r.record == None || !noted.ok then noted
    else
      var (next, stop) := Apply(paranoid, r.record.value, noted);
      if stop then next else Recover(log, paranoid, r.scan, next)
  }

  function Joined(tables: seq<seq<Added>>): seq<Added> {
    if tables == [] then [] else Joined(tables[..|tables| - 1]) + tables[|tables| - 1]
  }

  lemma RecoverUnfold(log: Input, paranoid: bool, s: Scan, acc: Recovered)
    requires InFile(log, s)
    ensures var r := NextRecord(log, s, [], false);
            var noted := Note(paranoid, r.drops, acc);
            Recover(log, paranoid, s, acc) ==
              if r.record == None || !noted.ok then noted
              else if Apply(paranoid, r.record.value, noted).1 then Apply(paranoid, r.record.value, noted).0
              else Recover(log, paranoid, r.scan, Apply(paranoid, r.record.value, noted).0)
  {
  }

  // ----- Paranoid checks -----------------------------------------------------------------------------

  /** Nothing is dropped or damaged in the rest of the log. */
  ghost predicate Clean(log: Input, s: Scan)
    requires InFile(log, s)
    decreases |log.file| - s.pos
  {
    var r := NextRecord(log, s, [], false);
    && r.drops == []
    && (r.record.Some? ==> |r.record.value| >= HEADER && IterationOf(r.record.value).ok && Clean(log, r.scan))
  }

  /** Paranoid checks fail exactly if something is dropped or damaged, and change nothing
      otherwise; without them recovery does not fail. */
  lemma {:induction false} ParanoidFailsExactly(log: Input, s: Scan, acc: Recovered)
    requires InFile(log, s) && acc.ok
    ensures Recover(log, false, s, acc).ok
    ensures Recover(log, true, s, acc).ok <==> Clean(log, s)
    ensures Clean(log, s) ==> Recover(log, true, s, acc) == Recover(log, false, s, acc)
    ensures Clean(log, s) ==> Recover(log, true, s, acc).reports == acc.reports
    decreases |log.file| - s.pos
  {
    var r := NextRecord(log, s, [], false);
    RecoverUnfold(log, true, s, acc);
    RecoverUnfold(log, false, s, acc);
    if r.record.Some? {
      var rep := r.record.value;
      ParanoidFailsExactly(log, r.scan, Apply(false, rep, Note(false, r.drops, acc)).0);
      if r.drops == [] {
        assert Note(true, r.drops, acc) == Note(false, r.drops, acc) == acc;
        if |rep| < HEADER { FailedStays(log, r.scan, Apply(true, rep, acc).0); }
      }
    }
  }

  lemma FailedStays(log: Input, s: Scan, acc: Recovered)
    requires InFile(log, s) && !acc.ok
    ensures !Recover(log, true, s, acc).ok
  {
    RecoverUnfold(log, true, s, acc);
  }

  /** Reads a record; with paranoid checks any report spoils the status. */
  method NextLogRecord(reader: LogReader.Reader, paranoid: bool, ok0: bool, ghost acc: Recovered)
    returns (record: Option<Bytes>, ok: bool, ghost noted: Recovered)
    requires reader.Valid() && acc.ok == ok0 && acc.reports == reader.reports
    modifies reader
    ensures reader.Valid()
    ensures var r := NextRecord(reader.log, old(reader.State()), [], false);
            record == r.record && reader.State() == r.scan && noted == Note(paranoid, r.drops, acc)
    ensures ok == noted.ok && reader.reports == noted.reports
  {
    var before := |reader.reports|;
    ghost var drops := NextRecord(reader.log, reader.State(), [], false).drops;
    record := reader.ReadRecord();
    assert |reader.reports| == before + |drops|;
    ok := ok0 && !(paranoid && |reader.reports| > before);
    noted := Note(paranoid, drops, acc);
  }

  /** Adds the updates of a batch to a memtable. */
  method InsertInto(rep: Bytes, mem0: seq<Added>) returns (mem: seq<Added>, ok: bool)
    requires |rep| >= HEADER
    ensures var it := IterationOf(rep);
            mem == mem0 + AddedBy(SequenceOf(rep), it.updates) && ok == it.ok
  {
    var handled;
    handled, ok := Iterate(rep);
    mem := mem0 + AddedBy(SequenceOf(rep), handled);
  }

  /** One record into the memtable; `stop` when it is malformed and that matters. */
  method RecoverRecord(reader: LogReader.Reader, rep: Bytes, paranoid: bool, mem0: seq<Added>, max0: nat,
                       ghost tables: seq<seq<Added>>, ghost acc: Recovered)
    returns (mem: seq<Added>, max: nat, ok: bool, stop: bool)
    requires reader.Valid() && acc.ok && acc.reports == reader.reports && acc.maxSequence == max0
    requires acc.added == Joined(tables) + mem0
    modifies reader`reports
    ensures reader.Valid() && Apply(paranoid, rep, acc)
            == (Recovered(ok, Joined(tables) + mem, max, reader.reports), stop)
  {
    mem, max, ok, stop := mem0, max0, true, false;
    if |rep| < HEADER {
      reader.Report(|rep|);
      ok := !paranoid;
    } else {
      var good;
      mem, good := InsertInto(rep, mem0);
      Regroup(Joined(tables), mem0, AddedBy(SequenceOf(rep), IterationOf(rep).updates));
      if !good && paranoid {
        ok, stop := false, true;
      } else if LastOf(rep) > max0 {
        max := LastOf(rep);
      }
    }
  }

  lemma Regroup(a: seq<Added>, b: seq<Added>, c: seq<Added>)
    ensures (a + b) + c == a + (b + c)
  {
  }

  /** A memtable that is full goes to a table. */
  method FlushIfFull(tables0: seq<seq<Added>>, mem0: seq<Added>, full: seq<Added> -> bool)
    returns (tables: seq<seq<Added>>, mem: seq<Added>)
    ensures if full(mem0) then tables == tables0 + [mem0] && mem == [] else tables == tables0 && mem == mem0
    ensures Joined(tables) + mem == Joined(tables0) + mem0
  {
    tables, mem := tables0, mem0;
    if full(mem) {
      JoinedMore(tables, mem);
      tables, mem := tables + [mem], [];
    }
  }

  /** Reads a log into memtables, which are written to tables when they are full. */
  method RecoverLogFile(step: Log.Step, file: Bytes, paranoid: bool, full: seq<Added> -> bool, maxSequence0: nat)
    returns (ok: bool, tables: seq<seq<Added>>, maxSequence: nat, reports: seq<nat>)
    ensures var r := Recover(Input(step, true, file), paranoid, START, Recovered(true, [], maxSequence0, []));
            && ok == r.ok && maxSequence == r.maxSequence && reports == r.reports
            && (if ok then Joined(tables) == r.added else Joined(tables) <= r.added)
  {
    var log := Input(step, true, file);
    var reader := new LogReader.Reader(log);
    var mem: seq<Added>, more := [], true;
    ok, tables, maxSequence := true, [], maxSequence0;
    ghost var acc := Recovered(true, [], maxSequence0, []);
    ghost var goal, s := Recover(log, paranoid, START, acc), START;
    while more
      invariant reader.Valid() && reader.log == log && fresh(reader) && s == reader.State()
      invariant acc == Recovered(ok, Joined(tables) + mem, maxSequence, reader.reports)
      invariant goal == if more then Recover(log, paranoid, s, acc) else acc
      decreases more, |file| - s.pos
    {
      RecoverUnfold(log, paranoid, s, acc);
      var record;
      record, ok, acc := NextLogRecord(reader, paranoid, ok, acc);
      s := reader.State();
      more := record.Some? && ok;
      if more {
        var stop;
        mem, maxSequence, ok, stop := RecoverRecord(reader, record.value, paranoid, mem, maxSequence, tables, acc);
        acc := Recovered(ok, Joined(tables) + mem, maxSequence, reader.reports);
        more := !stop;
        if more && |record.value| >= HEADER {
          tables, mem := FlushIfFull(tables, mem, full);
        }
      }
    }
    reports := reader.reports;
    if ok {
      JoinedMore(tables, mem);
      tables := tables + [mem];
    }
  }

  lemma JoinedMore(tables: seq<seq<Added>>, table: seq<Added>)
    ensures Joined(tables + [table]) == Joined(tables) + table
  {
    assert (tables + [table])[..|tables|] == tables;
  }
}
