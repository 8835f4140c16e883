/** The version set: it logs edits to its manifest and recovers from one. */
module VersionSets {
  import opened Coding
  import opened Keys
  import opened Files
  import opened Versions
  import opened VersionBuilder
  import opened Replay
  import Log
  import opened LogFragments
  import LogCuts
  import LogReader
  import LogWriter
  import opened VersionEdits
  import opened Manifests

  /** The file numbers that a level has used. */
  function Used(used: set<nat>, edits: seq<LevelEdit>): set<nat>
    decreases |edits|
  {
    if edits == [] then used else Used(used + Numbers(edits[0].added), edits[1..])
  }

  lemma {:induction false} FreshAppend(used: set<nat>, edits: seq<LevelEdit>, e: LevelEdit)
    requires FreshNumbers(used, edits) && Numbers(e.added) !! Used(used, edits) && SameNumberSameFile(e.added, e.added)
    ensures FreshNumbers(used, edits + [e])
    decreases |edits|
  {
    if edits == [] {
      assert [e][1..] == [];
    } else {
      assert (edits + [e])[1..] == edits[1..] + [e];
      FreshAppend(used + Numbers(edits[0].added), edits[1..], e);
    }
  }

  lemma {:induction false} ApplyEachAppend(files: seq<File>, edits: seq<LevelEdit>, e: LevelEdit)
    ensures ApplyEach(files, edits + [e]) == Save(ApplyEach(files, edits), ApplyLevel(NOTHING, e))
    decreases |edits|
  {
    if edits == [] {
      assert [e][1..] == [];
    } else {
      assert (edits + [e])[1..] == edits[1..] + [e];
      ApplyEachAppend(Save(files, ApplyLevel(NOTHING, edits[0])), edits[1..], e);
    }
  }

  /** No level is given a file number that it has used. */
  ghost predicate AddsFresh(dir: Directory, v: Version, edits: seq<Fields>, f: Fields) {
    forall l: nat | l < NUM_LEVELS :: LevelAddsFresh(v[l], LevelEdits(dir, edits, l), LevelOf(dir, f, l))
  }

  ghost predicate LevelAddsFresh(files: seq<File>, edits: seq<LevelEdit>, e: LevelEdit) {
    Numbers(e.added) !! Used(Numbers(files), edits) && SameNumberSameFile(e.added, e.added)
  }

  lemma ReplaysAppend(dir: Directory, name: Slice, v: Version, edits: seq<Fields>, f: Fields)
    requires Replays(dir, name, v, edits) && Loggable(name, f) && Complete(f) && AddsFresh(dir, v, edits, f)
    ensures Replays(dir, name, v, edits + [f])
  {
    var all := edits + [f];
    forall i | 0 <= i < |all| ensures Loggable(name, all[i]) && Complete(all[i]) {
      assert i < |edits| ==> Loggable(name, edits[i]) && Complete(edits[i]);
    }
    forall l: nat | l < NUM_LEVELS ensures LevelReplays(dir, v[l], LevelEdits(dir, all, l)) {
      assert LevelReplays(dir, v[l], LevelEdits(dir, edits, l));
      assert LevelAddsFresh(v[l], LevelEdits(dir, edits, l), LevelOf(dir, f, l));
      FreshAppend(Numbers(v[l]), LevelEdits(dir, edits, l), LevelOf(dir, f, l));
      assert LevelEdits(dir, all, l) == LevelEdits(dir, edits, l) + [LevelOf(dir, f, l)];
    }
  }

  /** The counters of an edit have no part in it. */
  lemma CompletedAddsFresh(dir: Directory, v: Version, edits: seq<Fields>, f: Fields, g: Fields)
    requires AddsFresh(dir, v, edits, f) && g.added == f.added && g.deleted == f.deleted
    ensures AddsFresh(dir, v, edits, g)
  {
    forall l: nat | l < NUM_LEVELS ensures LevelAddsFresh(v[l], LevelEdits(dir, edits, l), LevelOf(dir, g, l)) {
      assert LevelAddsFresh(v[l], LevelEdits(dir, edits, l), LevelOf(dir, f, l));
    }
  }

  /** The version after one more edit. */
  function Edited(dir: Directory, v: Version, f: Fields): Version {
    seq(NUM_LEVELS, l requires 0 <= l < NUM_LEVELS => Save(v[l], ApplyLevel(NOTHING, LevelOf(dir, f, l))))
  }

  lemma CurrentAppend(dir: Directory, v: Version, edits: seq<Fields>, f: Fields)
    ensures Current(dir, v, edits + [f]) == Edited(dir, Current(dir, v, edits), f)
  {
    forall l: nat | l < NUM_LEVELS ensures Current(dir, v, edits + [f])[l]
        == Edited(dir, Current(dir, v, edits), f)[l] {
      assert LevelEdits(dir, edits + [f], l) == LevelEdits(dir, edits, l) + [LevelOf(dir, f, l)];
      ApplyEachAppend(v[l], LevelEdits(dir, edits, l), LevelOf(dir, f, l));
    }
  }

  /** A version whose files are known and listed in order. */
  ghost predicate Listable(dir: Directory, v: Version) {
    forall l: nat | l < NUM_LEVELS :: LevelReplays(dir, v[l], [])
  }

  lemma NothingIsListable(dir: Directory, v: Version)
    requires forall l | 0 <= l < NUM_LEVELS :: v[l] == []
    ensures Listable(dir, v)
  {
  }

  /** A manifest: the version and the compaction pointers it started with, the edits it has. */
  datatype History = History(start: Version, pointers: seq<Pointer>, edits: seq<Fields>)

  function RecordsIn(dir: Directory, name: Slice, h: History): seq<Bytes> {
    Manifest(dir, name, h.pointers, h.start, h.edits)
  }

  /** The compaction pointers that the manifest leads to. */
  function PointersAfter(h: History): seq<Slice> {
    AllAfter(Begun(h.pointers), h.edits).pointers
  }

  lemma {:induction false} AfterAppend(c: Counters, edits: seq<Fields>, f: Fields)
    ensures AllAfter(c, edits + [f]) == After(AllAfter(c, edits), f)
    decreases |edits|
  {
    if edits == [] {
      assert ([] + [f])[1..] == [];
    } else {
      assert (edits + [f])[1..] == edits[1..] + [f];
      AfterAppend(After(c, edits[0]), edits[1..], f);
    }
  }

  /** The edits of the manifest make this version. */
  ghost predicate Makes(dir: Directory, name: Slice, h: History, v: Version) {
    LevelsExist(h.pointers) && Replays(dir, name, h.start, h.edits) && v == Current(dir, h.start, h.edits)
  }

  lemma MakesAppend(dir: Directory, name: Slice, h: History, v: Version, f: Fields)
    requires Makes(dir, name, h, v) && Loggable(name, f) && Complete(f) && AddsFresh(dir, h.start, h.edits, f)
    ensures Makes(dir, name, h.(edits := h.edits + [f]), Edited(dir, v, f))
  {
    ReplaysAppend(dir, name, h.start, h.edits, f);
    CurrentAppend(dir, h.start, h.edits, f);
  }

  lemma OneMoreRecord(dir: Directory, name: Slice, h: History, f: Fields)
    ensures RecordsIn(dir, name, h.(edits := h.edits + [f])) == RecordsIn(dir, name, h) + [Encoded(f)]
  {
    var first := [SnapshotOf(dir, name, h.pointers, h.start)];
    assert first + (h.edits + [f]) == (first + h.edits) + [f];
    RecordsAppend(Encoded, first + h.edits, f);
  }

  lemma RecordsAppend(encode: Fields -> Bytes, edits: seq<Fields>, f: Fields)
    ensures RecordsOf(encode, edits + [f]) == RecordsOf(encode, edits) + [encode(f)]
  {
  }

  /** A manifest that is complete recovers the version that its edits make. */
  lemma MadeIsRecovered(step: Log.Step, dir: Directory, name: Slice, h: History, v: Version)
    requires Makes(dir, name, h, v) && h.edits != []
    ensures var file := Log.Stream(step, RecordsIn(dir, name, h));
            var r := Settled(ReadBack(step, dir, name, file));
            var last := h.edits[|h.edits| - 1];
            && r.Some? && r.value.version == v && Some(r.value.logNumber) == last.logNumber
            && Some(r.value.prevLogNumber) == last.prevLogNumber && Some(r.value.manifestFile) == last.nextFile
            && Some(r.value.lastSequence) == last.lastSequence && r.value.pointers == PointersAfter(h)
  {
    var records := RecordsIn(dir, name, h);
    var file := Log.Stream(step, records);
    Log.FramingIsSized(step);
    Log.StreamHasSize(Log.Framing(step), 0, records);
    LogCuts.FitsAll(records, 0, |file|);
    CutManifestRecovers(step, dir, name, h.pointers, h.start, h.edits, |file|);
    assert file[..|file|] == file && h.edits[..|h.edits|] == h.edits;
  }

  lemma MakesSnapshot(dir: Directory, name: Slice, pointers: seq<Pointer>, v: Version)
    requires Listable(dir, v) && LevelsExist(pointers)
    ensures Makes(dir, name, History(v, pointers, []), v)
    ensures RecordsIn(dir, name, History(v, pointers, [])) == [Encoded(SnapshotOf(dir, name, pointers, v))]
  {
    forall l: nat | l < NUM_LEVELS ensures LevelReplays(dir, v[l], LevelEdits(dir, [], l)) {
      assert LevelReplays(dir, v[l], []) && LevelEdits(dir, [], l) == [];
    }
    forall l: nat | l < NUM_LEVELS ensures Current(dir, v, [])[l] == v[l] {
      assert LevelEdits(dir, [], l) == [];
    }
    RecordsAppend(Encoded, [], SnapshotOf(dir, name, pointers, v));
    assert [] + [SnapshotOf(dir, name, pointers, v)] == [SnapshotOf(dir, name, pointers, v)] + [];
  }

  /** What edits have made can be listed again, so a set that has recovered it may go on. */
  lemma MadeIsListable(dir: Directory, name: Slice, h: History, v: Version)
    requires Makes(dir, name, h, v) && dir.Consistent()
    ensures Listable(dir, v)
  {
    forall l: nat | l < NUM_LEVELS ensures LevelReplays(dir, v[l], []) {
      var edits := LevelEdits(dir, h.edits, l);
      assert LevelReplays(dir, h.start[l], edits);
      forall i | 0 <= i < |edits| ensures dir.Knows(edits[i].added) { FilesAtKnown(dir, h.edits[i].added, l); }
      EachIsListable(dir, h.start[l], Numbers(h.start[l]), edits);
    }
  }

  class VersionSet {
    const step: Log.Step
    const dir: Directory
    const name: Slice
    var current: Version
    var logNumber: uint64
    var prevLogNumber: uint64
    var nextFileNumber: uint64
    var lastSequence: uint64
    /** Where the next compaction of each level begins; empty for the front of the level. */
    var compactPointers: seq<Slice>
    var descriptorLog: LogWriter.Writer?
    ghost var history: History

    /** The manifest holds the snapshot and the edits, and they make the current version. */
    ghost predicate Valid()
      reads this, descriptorLog
    {
      && |compactPointers| == NUM_LEVELS
      && if descriptorLog == null then Listable(dir, current) else Keeps() && compactPointers == PointersAfter(history)
    }

    ghost predicate Keeps()
      reads this, descriptorLog
    {
      && descriptorLog != null && descriptorLog.Valid() && descriptorLog.step == step
      && Makes(dir, name, history, current)
      && descriptorLog.dest == Log.Stream(step, RecordsIn(dir, name, history))
    }

    constructor (step: Log.Step, dir: Directory, name: Slice)
      ensures Valid() && this.step == step && this.dir == dir && this.name == name
      ensures descriptorLog == null && compactPointers == NoPointers()
      ensures forall l | 0 <= l < NUM_LEVELS :: current[l] == []
    {
      this.step, this.dir, this.name := step, dir, name;
      current, compactPointers, descriptorLog := [[], [], [], [], [], [], []], NoPointers(), null;
      logNumber, prevLogNumber, nextFileNumber, lastSequence := 0, 0, 2, 0;
      new;
      NothingIsListable(dir, current);
    }

    /** The edit as it is logged, with all counters. */
    function Completed(edit: Fields): Fields
      reads this
    {
      edit.(logNumber := if edit.logNumber.Some? then edit.logNumber else Some(logNumber),
            prevLogNumber := if edit.prevLogNumber.Some? then edit.prevLogNumber else Some(prevLogNumber),
            nextFile := Some(nextFileNumber), lastSequence := Some(lastSequence))
    }

    /** The manifest that an edit with these pointers is going to be appended to. */
    ghost function Past(ps: seq<Pointer>): History
      requires |compactPointers| == NUM_LEVELS
      reads this
    {
      if descriptorLog == null then History(current, PointersOf(WithPointers(compactPointers, ps), NUM_LEVELS), [])
          else history
    }

    /** Completes the edit, logs it and installs the version that it makes. */
    method LogAndApply(edit: VersionEdit)
      requires Valid() && Loggable(name, edit.fields)
      requires AddsFresh(dir, Past(edit.fields.pointers).start, Past(edit.fields.pointers).edits, edit.fields)
      modifies this, descriptorLog, edit
      ensures Valid() && descriptorLog != null && (old(descriptorLog) == null ==> fresh(descriptorLog))
      ensures edit.fields == old(Completed(edit.fields)) && current == Edited(dir, old(current), edit.fields)
      ensures history == var past := old(Past(edit.fields.pointers)); past.(edits := past.edits + [edit.fields])
      ensures compactPointers == WithPointers(old(compactPointers), edit.fields.pointers)
      ensures Some(logNumber) == edit.fields.logNumber && Some(prevLogNumber) == edit.fields.prevLogNumber
      ensures nextFileNumber == old(nextFileNumber) && lastSequence == old(lastSequence)
    {
      ghost var past := Past(edit.fields.pointers);
      ghost var partial := edit.fields;
      edit.fields := Completed(edit.fields);
      CompletedAddsFresh(dir, past.start, past.edits, partial, edit.fields);
      var record := edit.EncodeTo([]);
      ApplyAndLog(edit.fields, record, past);
    }

    /** A builder applies the edit; then a manifest that is missing is begun. */
    method ApplyAndLog(edit: Fields, record: Bytes, ghost past: History)
      requires Valid() && past == Past(edit.pointers) && AddsFresh(dir, past.start, past.edits, edit)
      requires Loggable(name, edit) && Complete(edit) && record == [] + Encoded(edit)
      modifies this, descriptorLog
      ensures Valid() && descriptorLog != null && (old(descriptorLog) == null ==> fresh(descriptorLog))
      ensures current == Edited(dir, old(current), edit)
              && compactPointers == WithPointers(old(compactPointers), edit.pointers)
      ensures history == past.(edits := past.edits + [edit])
      ensures Some(logNumber) == edit.logNumber && Some(prevLogNumber) == edit.prevLogNumber
      ensures nextFileNumber == old(nextFileNumber) && lastSequence == old(lastSequence)
    {
      var v := Next(edit);
      BeginManifest(edit.pointers, past);
      WriteRecord(edit, record, v);
    }

    /** Takes the pointers over and begins a manifest unless there is one; nothing is added to it yet. */
    method BeginManifest(ps: seq<Pointer>, ghost past: History)
      requires Valid() && past == Past(ps)
      modifies this`compactPointers, this`descriptorLog, this`history
      ensures if old(descriptorLog) == null then fresh(descriptorLog) else descriptorLog == old(descriptorLog)
      ensures Keeps() && history == past
      ensures |compactPointers| == NUM_LEVELS && compactPointers == WithPointers(old(compactPointers), ps)
      ensures compactPointers == WithPointers(PointersAfter(history), ps)
    {
      PlacedTwice(compactPointers, ps);
      compactPointers := WithPointers(compactPointers, ps);
      if descriptorLog == null {
        NewManifest();
      }
    }

    /** Appends the edit to the manifest and installs the version. */
    method WriteRecord(edit: Fields, record: Bytes, v: Version)
      requires Keeps() && |compactPointers| == NUM_LEVELS && Loggable(name, edit) && Complete(edit)
      requires compactPointers == WithPointers(PointersAfter(history), edit.pointers)
      requires AddsFresh(dir, history.start, history.edits, edit)
      requires record == [] + Encoded(edit) && v == Edited(dir, current, edit)
      modifies this`current, this`logNumber, this`prevLogNumber, this`history, descriptorLog
      ensures Valid() && current == v && history == old(history).(edits := old(history).edits + [edit])
      ensures Some(logNumber) == edit.logNumber && Some(prevLogNumber) == edit.prevLogNumber
    {
      MakesAppend(dir, name, history, current, edit);
      OneMoreRecord(dir, name, history, edit);
      AfterAppend(Begun(history.pointers), history.edits, edit);
      assert record == Encoded(edit);
      descriptorLog.AppendRecord(record, RecordsIn(dir, name, history));
      Install(v, edit);
    }

    /** The current version with the edit applied. */
    method Next(edit: Fields) returns (v: Version)
      ensures v == Edited(dir, current, edit)
    {
      var builder := new Builder(current);
      builder.Apply(EditOf(dir, edit));
      v := builder.SaveTo();
      assert forall l | 0 <= l < NUM_LEVELS :: v[l] == Edited(dir, current, edit)[l];
    }

    method Install(v: Version, edit: Fields)
      requires Complete(edit)
      modifies this`current, this`logNumber, this`prevLogNumber, this`history
      ensures current == v && history == old(history).(edits := old(history).edits + [edit])
      ensures Some(logNumber) == edit.logNumber && Some(prevLogNumber) == edit.prevLogNumber
    {
      current := v;
      logNumber, prevLogNumber := edit.logNumber.value, edit.prevLogNumber.value;
      history := history.(edits := history.edits + [edit]);
    }

    /** Starts a manifest with a snapshot of the current version. */
    method NewManifest()
      requires Valid() && descriptorLog == null
      modifies this`descriptorLog, this`history
      ensures Valid() && fresh(descriptorLog)
              && history == History(current, PointersOf(compactPointers, NUM_LEVELS), [])
    {
      var pointers := PointersOf(compactPointers, NUM_LEVELS);
      PointersExist(compactPointers, NUM_LEVELS);
      forall l: nat | l < NUM_LEVELS ensures WithPointers(NoPointers(), pointers)[l] == compactPointers[l] {
        ListedArePlaced(NoPointers(), compactPointers, NUM_LEVELS, l);
      }
      assert WithPointers(NoPointers(), pointers) == compactPointers;
      MakesSnapshot(dir, name, pointers, current);
      descriptorLog := new LogWriter.Writer(step, []);
      var record := Encoded(SnapshotOf(dir, name, pointers, current));
      assert [] + [record] == [record];
      descriptorLog.AppendRecord(record, []);
      history := History(current, pointers, []);
    }

    function MarkUsed(next: uint64, number: uint64): uint64 {
      if next <= number then (number + 1) % 0x1_0000_0000_0000_0000 else next
    }

    method MarkFileNumberUsed(number: uint64)
      modifies this`nextFileNumber
      ensures nextFileNumber == MarkUsed(old(nextFileNumber), number)
    {
      if nextFileNumber <= number {
        nextFileNumber := (number + 1) % 0x1_0000_0000_0000_0000;
      }
    }

    /** Recovers the state from the bytes of a manifest, if that is possible. If it is not, the
        pointers are taken over all the same, and where only counters are missing, the numbers
        of the logs count as used. */
    method Recover(file: Bytes) returns (ok: bool)
      requires descriptorLog == null && compactPointers == NoPointers() && forall l | 0 <= l < NUM_LEVELS ::
               current[l] == []
      modifies this
      ensures var g := ReadBack(step, dir, name, file);
              && ok == Settled(g).Some?
              && compactPointers == g.counters.pointers
              && if ok then Has(Settled(g).value)
                 else && current == old(current) && lastSequence == old(lastSequence) && logNumber == old(logNumber)
                      && prevLogNumber == old(prevLogNumber)
                      && nextFileNumber == if g.ok then Beyond(old(nextFileNumber), g.counters) else old(nextFileNumber)
      ensures descriptorLog == null && (Valid() <==> Listable(dir, current)) && (!ok ==> Valid())
    {
      NothingIsListable(dir, current);
      var builder := new Builder(current);
      var counters;
      ghost var g;
      ok, counters, g := ReadManifest(file, builder);
      compactPointers := counters.pointers;
      if ok {
        MarkFileNumberUsed(OrZero(counters.prevLogNumber));
        MarkFileNumberUsed(OrZero(counters.logNumber));
        ok := counters.nextFile.Some? && counters.logNumber.Some? && counters.lastSequence.Some?;
      }
      if ok {
        var v := builder.SaveTo();
        assert forall l | 0 <= l < NUM_LEVELS :: v[l] == Saved(g.levels)[l];
        Adopt(Recovered(v, counters.logNumber.value, OrZero(counters.prevLogNumber), counters.nextFile.value,
                        counters.lastSequence.value, counters.pointers));
      }
    }

    /** The next number for a file when those of the logs are used. */
    function Beyond(next: uint64, c: Counters): uint64 {
      MarkUsed(MarkUsed(next, OrZero(c.prevLogNumber)), OrZero(c.logNumber))
    }

    ghost predicate Has(r: Recovered)
      reads this
    {
      && current == r.version && logNumber == r.logNumber && prevLogNumber == r.prevLogNumber
      && nextFileNumber == (r.manifestFile + 1) % 0x1_0000_0000_0000_0000 && lastSequence == r.lastSequence
    }

    method Adopt(r: Recovered)
      modifies this`current, this`logNumber, this`prevLogNumber, this`nextFileNumber, this`lastSequence
      ensures Has(r)
    {
      current := r.version;
      logNumber, prevLogNumber := r.logNumber, r.prevLogNumber;
      nextFileNumber := (r.manifestFile + 1) % 0x1_0000_0000_0000_0000;
      lastSequence := r.lastSequence;
    }

    method ReadManifest(file: Bytes, builder: Builder) returns (ok: bool, counters: Counters, ghost g: Gathered)
      requires builder.Valid() && forall l | 0 <= l < NUM_LEVELS :: builder.levels[l] == NOTHING
      modifies builder
      ensures builder.Valid() && g == ReadBack(step, dir, name, file)
      ensures g == Gathered(ok, builder.levels, counters) && |counters.pointers| == NUM_LEVELS
    {
      var log := Input(step, true, file);
      var reader := new LogReader.Reader(log);
      var more := true;
      ok, counters, g := true, NO_COUNTERS, FRESH;
      assert builder.levels == FRESH.levels;
      ghost var goal, s := Scanned(dir, name, log, START, g), START;
      while more
        invariant reader.Valid() && reader.log == log && fresh(reader) && s == reader.State()
        invariant builder.Valid() && g == Gathered(ok, builder.levels, counters) && |counters.pointers| == NUM_LEVELS
        invariant goal == if more then Scanned(dir, name, log, s, g) else g
        decreases more, |file| - s.pos
      {
        ScannedUnfold(dir, name, log, s, g);
        var before := |reader.reports|;
        var record := reader.ReadRecord();
        s := reader.State();
        ok := ok && |reader.reports| == before;
        g := g.(ok := ok);
        more := record.Some? && ok;
        if more {
          ok, counters, g := ReadEdit(record.value, builder, counters, g);
        }
      }
    }

    method ReadEdit(record: Bytes, builder: Builder, counters0: Counters, ghost g0: Gathered)
      returns (ok: bool, counters: Counters, ghost g: Gathered)
      requires builder.Valid() && g0 == Gathered(true, builder.levels, counters0)
      modifies builder
      ensures builder.Valid() && g == GatherRecord(dir, name, record, g0) && g == Gathered(ok, builder.levels, counters)
      ensures |counters.pointers| == |counters0.pointers|
    {
      var edit := new VersionEdit();
      ok := edit.DecodeFrom(record);
      ok := ok && Accepts(name, edit.fields);
      if ok {
        builder.Apply(EditOf(dir, edit.fields));
        assert forall l | 0 <= l < NUM_LEVELS :: builder.levels[l] == ApplyLevels(dir, g0.levels, edit.fields)[l];
      }
      counters := After(counters0, edit.fields);
      if !ok {
        counters := counters.(pointers := counters0.pointers);
      }
      g := Gathered(ok, builder.levels, counters);
    }
  }
}
