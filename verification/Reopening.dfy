/** A store that is opened again after a crash: what the manifest and the log are cut down to
    reads like a prefix of everything that was written. */
module Reopening {
  import opened Coding
  import opened Keys
  import opened Versions
  import opened History
  import opened Durability
  import opened DbImpl
  import Log
  import LogFragments
  import LogCuts
  import WriteBatches
  import Recovery
  import Crash
  import VersionEdits
  import Manifests

  // ----- What is in the log -----------------------------------------------------------------------------

  /** The log has byte strings where the store has ranks and values. */
  datatype Names = Names(keyOf: Bytes -> UserKey, blobOf: Bytes -> Blob)

  function OpOf(names: Names, u: WriteBatches.Update): Op {
    match u
    case Put(k, v) => Put(names.keyOf(k), names.blobOf(v))
    case Delete(k) => Delete(names.keyOf(k))
  }

  function OpsOf(names: Names, us: seq<WriteBatches.Update>): (ops: seq<Op>)
    ensures |ops| == |us|
  {
    seq(|us|, i requires 0 <= i < |us| => OpOf(names, us[i]))
  }

  /** What the recovery puts into memtables. */
  ghost function Recovered(names: Names, added: seq<Recovery.Added>): set<Entry> {
    set i | 0 <= i < |added| :: Record(OpOf(names, added[i].update), added[i].seqno)
  }

  lemma RecoveredIsLater(names: Names, base: seq<Op>, us: seq<WriteBatches.Update>)
    requires |base| + 1 + |us| < 0x1_0000_0000_0000_0000
    ensures Recovered(names, Recovery.AddedBy(|base| + 1, us)) == WrittenFrom(base + OpsOf(names, us), |base|)
  {
    var n, ops, added := |base|, base + OpsOf(names, us), Recovery.AddedBy(|base| + 1, us);
    forall i | 0 <= i < |us| ensures Record(OpOf(names, added[i].update), added[i].seqno) == EntryOf(ops, n + i) {
      assert added[i] == Recovery.Added(n + 1 + i, us[i]);
      assert ops[n + i] == OpOf(names, us[i]);
    }
    forall e | e in WrittenFrom(ops, n) ensures e in Recovered(names, added) {
      var i :| n <= i < |ops| && EntryOf(ops, i) == e;
      assert Record(OpOf(names, added[i - n].update), added[i - n].seqno) == EntryOf(ops, n + (i - n));
    }
  }

  // ----- Opening ----------------------------------------------------------------------------------------

  /** Beyond the last write every sequence number reads alike. */
  lemma AnswersAll(ops: seq<Op>, s: nat, u: UserKey, r: Option<Blob>)
    requires s >= |ops|
    ensures Answers(EntriesOf(ops), u, s, r) <==> r == Latest(ops, u)
  {
    AnswersLatest(ops, |ops|, u);
    assert ops[..|ops|] == ops;
    forall x | x in EntriesOf(ops) ensures Visible(x, u, s) <==> Visible(x, u, |ops|) {}
    SameVisible(EntriesOf(ops), u, s, |ops|, Latest(ops, u));
    HistoryIsUnique(ops);
    if Answers(EntriesOf(ops), u, s, r) { AnswerIsUnique(EntriesOf(ops), u, s, r, Latest(ops, u)); }
  }

  /** What the recovery of a log gives, from no sequence number on. */
  function Replayed(step: Log.Step, paranoid: bool, log: Bytes): Recovery.Recovered {
    Recovery.Recover(LogFragments.Input(step, true, log), paranoid, LogFragments.START,
                     Recovery.Recovered(true, [], 0, []))
  }

  /** These are the writes of `base` and of some groups from the first on. */
  ghost predicate WithGroups(base: seq<Op>, names: Names, groups: seq<seq<WriteBatches.Update>>, ops: seq<Op>) {
    exists g: nat :: g <= |groups| && ops == base + OpsOf(names, Crash.UpdatesOf(groups[..g]))
  }

  /** At this sequence number each key has the last write to it. */
  ghost predicate ReadsAs(es: set<Entry>, s: nat, ops: seq<Op>) {
    forall u, x :: Answers(es, u, s, x) <==> x == Latest(ops, u)
  }

  /** The last sequence number of the manifest, unless the log has gone beyond it. */
  function LastAfter(last: nat, recovered: nat): nat {
    if last < recovered then recovered else last
  }

  lemma LogSurvives(step: Log.Step, paranoid: bool, names: Names, base: seq<Op>, groups: seq<seq<WriteBatches.Update>>,
                    cut: nat, v: Version, floor: nat)
    requires Crash.Numbered(|base| + 1, groups) && cut <= |Log.Stream(step, Crash.RecordsOf(|base| + 1, groups))|
    requires Durable(base, v, floor) && |base| < MAX_SEQUENCE
    ensures var records := Crash.RecordsOf(|base| + 1, groups);
            var us := Crash.UpdatesOf(groups[..LogCuts.Fits(records, 0, cut)]);
            var r := Replayed(step, paranoid, Log.Stream(step, records)[..cut]);
            && r.ok && r.reports == [] && (if us == [] then r.maxSequence <= |base| else r.maxSequence == |base| + |us|)
            && SameReads(EntriesOf(base + OpsOf(names, us)), Recovered(names, r.added) + Entries(v), floor)
  {
    var first := |base| + 1;
    var records := Crash.RecordsOf(first, groups);
    var k := LogCuts.Fits(records, 0, cut);
    Crash.CrashKeepsPrefix(step, paranoid, first, groups, cut, 0);
    Crash.RecordsOfPrefix(first, groups, k);
    var us := Crash.UpdatesOf(groups[..k]);
    if k > 0 { Crash.NumberedFits(first, groups[..k]); } else { assert us == []; }
    var ops := base + OpsOf(names, us);
    assert ops[..|base|] == base;
    RecoveredIsLater(names, base, us);
    DurableWithLater(ops, |base|, v, floor);
  }

  lemma ManifestReads(step: Log.Step, dir: Manifests.Directory, name: Slice, pointers: seq<VersionEdits.Pointer>,
                      start: Version, edits: seq<VersionEdits.Fields>, cut: nat, records: seq<Bytes>)
    returns (r: Manifests.Recovered)
    requires Manifests.LevelsExist(pointers) && Manifests.Replays(dir, name, start, edits)
    requires records == Manifests.Manifest(dir, name, pointers, start, edits)
    requires cut <= |Log.Stream(step, records)| && LogCuts.Fits(records, 0, cut) >= 2
    ensures Manifests.Settled(Manifests.ReadBack(step, dir, name, Log.Stream(step, records)[..cut])) == Some(r)
    ensures var k := LogCuts.Fits(records, 0, cut) - 1;
            k <= |edits| && r.version == Manifests.Current(dir, start, edits[..k])
            && Some(r.lastSequence) == edits[k - 1].lastSequence
  {
    Manifests.CutManifestRecovers(step, dir, name, pointers, start, edits, cut);
    r := Manifests.SettledAt(dir, pointers, start, edits, LogCuts.Fits(records, 0, cut) - 1).value;
  }

  /** The manifest and the log of a store, as they may be found. */
  datatype Disk = Disk(step: Log.Step, dir: Manifests.Directory, name: Slice, pointers: seq<VersionEdits.Pointer>,
                       start: Version, edits: seq<VersionEdits.Fields>, manifestCut: nat, first: nat,
                       groups: seq<seq<WriteBatches.Update>>, logCut: nat)
  {
    function Records(): seq<Bytes> {
      Manifests.Manifest(dir, name, pointers, start, edits)
    }

    function Manifest(): Bytes
      requires manifestCut <= |Log.Stream(step, Records())|
    {
      Log.Stream(step, Records())[..manifestCut]
    }

    function LogFile(): Bytes
      requires Crash.Numbered(first, groups) && logCut <= |Log.Stream(step, Crash.RecordsOf(first, groups))|
    {
      Log.Stream(step, Crash.RecordsOf(first, groups))[..logCut]
    }

    ghost predicate Valid() {
      && Manifests.LevelsExist(pointers) && Manifests.Replays(dir, name, start, edits)
      && manifestCut <= |Log.Stream(step, Records())| && Crash.Numbered(first, groups)
      && logCut <= |Log.Stream(step, Crash.RecordsOf(first, groups))|
    }

    /** How many edits of the manifest are complete. */
    ghost function Complete(): int {
      LogCuts.Fits(Records(), 0, manifestCut) - 1
    }

    /** The last complete edit made this version when this was the last sequence number, and the
        log begins behind so many writes. */
    ghost predicate Has(v: Version, last: nat, flushed: nat)
      requires Valid()
    {
      && 0 < Complete() <= |edits| && Manifests.Current(dir, start, edits[..Complete()]) == v
      && edits[Complete() - 1].lastSequence == Some(last) && first == flushed + 1
    }

    /** This is so for a version of the store, and the log has what was written after the writes
        that the version covers. */
    ghost predicate Keeps(p: Point, ops: seq<Op>, names: Names)
      requires Valid()
    {
      && Has(p.version, p.last, p.flushed) && p.flushed <= |ops|
      && OpsOf(names, Crash.UpdatesOf(groups)) == ops[p.flushed..]
    }
  }

  /** The manifest and the log may both be cut anywhere, as long as the first edit behind the
      snapshot is complete. Let the version of the edits that are complete be durable for the
      first writes, `base`, let their last sequence number cover those and the merges, and let
      the log begin behind `base`. Then recovery makes that version and memtables of whole
      groups, and the store that has been opened answers each key with the last write to it
      among `base` and those groups. */
  lemma CrashedStoreReads(disk: Disk, paranoid: bool, names: Names, base: seq<Op>, v: Version, last: nat, floor: nat)
    returns (r: Manifests.Recovered, log: Recovery.Recovered, ops: seq<Op>)
    requires disk.Valid() && disk.Has(v, last, |base|) && Durable(base, v, floor)
    requires |base| < MAX_SEQUENCE && |base| <= last && floor <= last
    ensures Manifests.Settled(Manifests.ReadBack(disk.step, disk.dir, disk.name, disk.Manifest())) == Some(r)
    ensures log == Replayed(disk.step, paranoid, disk.LogFile()) && log.ok && log.reports == []
    ensures WithGroups(base, names, disk.groups, ops)
    ensures ReadsAs(Recovered(names, log.added) + Entries(r.version), LastAfter(r.lastSequence, log.maxSequence), ops)
  {
    r := ManifestReads(disk.step, disk.dir, disk.name, disk.pointers, disk.start, disk.edits, disk.manifestCut,
        disk.Records());
    log, ops := LogReads(disk.step, paranoid, names, base, disk.groups, disk.logCut, v, floor, last);
  }

  lemma LogReads(step: Log.Step, paranoid: bool, names: Names, base: seq<Op>, groups: seq<seq<WriteBatches.Update>>,
                 cut: nat, v: Version, floor: nat, last: nat)
    returns (log: Recovery.Recovered, ops: seq<Op>)
    requires Crash.Numbered(|base| + 1, groups) && cut <= |Log.Stream(step, Crash.RecordsOf(|base| + 1, groups))|
    requires Durable(base, v, floor) && |base| < MAX_SEQUENCE && |base| <= last && floor <= last
    ensures log == Replayed(step, paranoid, Log.Stream(step, Crash.RecordsOf(|base| + 1, groups))[..cut])
    ensures log.ok && log.reports == []
    ensures WithGroups(base, names, groups, ops)
    ensures ReadsAs(Recovered(names, log.added) + Entries(v), LastAfter(last, log.maxSequence), ops)
  {
    var records := Crash.RecordsOf(|base| + 1, groups);
    var g := LogCuts.Fits(records, 0, cut);
    LogSurvives(step, paranoid, names, base, groups, cut, v, floor);
    log := Replayed(step, paranoid, Log.Stream(step, records)[..cut]);
    ops := base + OpsOf(names, Crash.UpdatesOf(groups[..g]));
    var s := LastAfter(last, log.maxSequence);
    forall u, x ensures Answers(Recovered(names, log.added) + Entries(v), u, s, x) <==> x == Latest(ops, u) {
      AnswersAll(ops, s, u, x);
    }
  }

  /** In every reachable state of a store that is intact: whichever of its versions the manifest
      has kept, and wherever the log is cut off, the store that is opened again answers each
      key with the last write to it in a prefix of the history, and that prefix has all
      writes that the version covers. */
  lemma StoreSurvives(db: Db, i: nat, disk: Disk, paranoid: bool, names: Names)
    returns (r: Manifests.Recovered, log: Recovery.Recovered, n: nat)
    requires db.Valid() && db.Survives() && db.intact && i < |db.past|
    requires disk.Valid() && disk.Keeps(db.past[i], db.ops, names)
    ensures Manifests.Settled(Manifests.ReadBack(disk.step, disk.dir, disk.name, disk.Manifest())) == Some(r)
    ensures log == Replayed(disk.step, paranoid, disk.LogFile()) && log.ok && log.reports == []
    ensures db.past[i].flushed <= n <= |db.ops|
    ensures ReadsAs(Recovered(names, log.added) + Entries(r.version), LastAfter(r.lastSequence, log.maxSequence),
                    db.ops[..n])
  {
    assert IsDurable(db.past[i], db.ops);
    r, log, n := PointSurvives(db.past[i], db.ops, disk, paranoid, names);
  }

  lemma PointSurvives(p: Point, ops: seq<Op>, disk: Disk, paranoid: bool, names: Names)
    returns (r: Manifests.Recovered, log: Recovery.Recovered, n: nat)
    requires IsDurable(p, ops) && |ops| < MAX_SEQUENCE && disk.Valid() && disk.Keeps(p, ops, names)
    ensures Manifests.Settled(Manifests.ReadBack(disk.step, disk.dir, disk.name, disk.Manifest())) == Some(r)
    ensures log == Replayed(disk.step, paranoid, disk.LogFile()) && log.ok && log.reports == []
    ensures p.flushed <= n <= |ops|
    ensures ReadsAs(Recovered(names, log.added) + Entries(r.version), LastAfter(r.lastSequence, log.maxSequence),
                    ops[..n])
  {
    var base, found := ops[..p.flushed], [];
    r, log, found := CrashedStoreReads(disk, paranoid, names, base, p.version, p.last, p.floor);
    n := |found|;
    FoundIsWritten(ops, p.flushed, names, disk.groups, found);
  }

  lemma FoundIsWritten(ops: seq<Op>, n: nat, names: Names, groups: seq<seq<WriteBatches.Update>>, found: seq<Op>)
    requires n <= |ops| && OpsOf(names, Crash.UpdatesOf(groups)) == ops[n..]
    requires WithGroups(ops[..n], names, groups, found)
    ensures n <= |found| <= |ops| && found == ops[..|found|]
  {
    var g: nat :| g <= |groups| && found == ops[..n] + OpsOf(names, Crash.UpdatesOf(groups[..g]));
    GroupsAreWritten(ops, n, names, groups, g);
  }

  /** The groups so far are the writes from `n` on, as far as they go. */
  lemma GroupsAreWritten(ops: seq<Op>, n: nat, names: Names, groups: seq<seq<WriteBatches.Update>>, g: nat)
    requires n <= |ops| && g <= |groups| && OpsOf(names, Crash.UpdatesOf(groups)) == ops[n..]
    ensures var some := ops[..n] + OpsOf(names, Crash.UpdatesOf(groups[..g]));
            |some| <= |ops| && some == ops[..|some|]
  {
    UpdatesOfPrefix(groups, g);
    var some, all := OpsOf(names, Crash.UpdatesOf(groups[..g])), OpsOf(names, Crash.UpdatesOf(groups));
    assert some == all[..|some|];
    assert ops == ops[..n] + all;
  }

  lemma {:induction false} UpdatesOfPrefix(groups: seq<seq<WriteBatches.Update>>, g: nat)
    requires g <= |groups|
    ensures Crash.UpdatesOf(groups[..g]) <= Crash.UpdatesOf(groups)
  {
    if g > 0 {
      UpdatesOfPrefix(groups[1..], g - 1);
      assert groups[..g][1..] == groups[1..][..g - 1];
    }
  }
}
