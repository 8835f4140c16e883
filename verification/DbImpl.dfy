/** The store: writes, memtable switches, flushes, compactions, snapshots and reads. */
module DbImpl {
  import opened Keys
  import opened Files
  import opened Versions
  import opened Picking
  import opened CompactionWork
  import opened Install
  import opened Preserve
  import opened Placement
  import opened Runs
  import opened History
  import opened Layers
  import opened Durability
  import opened Steps
  import opened Snapshots
  import DbIter

  class Db {
    const maxFileSize: nat
    /** The bytes that tables take. */
    const sizes: Sizes
    var mem: seq<Entry>
    var imm: Option<seq<Entry>>
    var current: Version
    var lastSequence: nat
    var nextFile: nat
    /** Sequence numbers of the live snapshots, oldest first. */
    var snapshots: seq<nat>

    /** Every write ever made, in order. */
    ghost var ops: seq<Op>
    /** No merge so far ran with a larger smallest snapshot. */
    ghost var floor: nat
    /** No merge so far uncovered a value (Preserve.Resurrects). */
    ghost var intact: bool

    /** How many of the writes tables hold, and how many those and the immutable memtable. */
    ghost var flushed: nat
    ghost var switched: nat
    /** The versions so far, the current one last. */
    ghost var past: seq<Point>

    ghost function ImmEntries(): set<Entry>
      reads this`imm
    {
      if imm.Some? then Elements(imm.value) else {}
    }

    ghost function All(): set<Entry>
      reads this
    {
      Elements(mem) + ImmEntries() + Entries(current)
    }

    ghost predicate Valid()
      reads this`mem, this`imm, this`current, this`lastSequence, this`nextFile, this`snapshots, this`ops, this`floor,
            this`intact
    {
      && (imm.Some? ==> Sorted(imm.value))
      && Ordered(current) && FreshNumber(current, nextFile)
      && lastSequence == |ops| < MAX_SEQUENCE
      && floor <= lastSequence
      && SnapshotsInOrder(snapshots, floor, lastSequence)
      && Stacked(mem, ImmEntries(), Entries(current), ops, floor, intact)
    }

    /** Every version so far reads like the writes that it covers, and the memtables have those
        that the current one does not cover. */
    ghost predicate Survives()
      reads this`mem, this`imm, this`current, this`ops, this`floor, this`intact, this`flushed, this`switched, this`past
    {
      SurvivesAs(current, floor)
    }

    /** With this version as the last. */
    ghost predicate SurvivesAs(v: Version, floor: nat)
      reads this`mem, this`imm, this`ops, this`intact, this`flushed, this`switched, this`past
    {
      && Buffered(Elements(mem), ImmEntries(), ops, flushed, switched) && (imm.None? ==> switched == flushed)
      && past != [] && Tip() == Point(v, flushed, floor, Tip().last)
      && (intact ==> AllDurable(past, ops))
    }

    ghost function Tip(): Point
      requires past != []
      reads this`past
    {
      past[|past| - 1]
    }

    /** A sequence number that a reader may hold. */
    predicate Servable(s: nat)
      reads this
    {
      s == lastSequence || s in snapshots
    }

    constructor (maxFileSize: nat, sizes: Sizes)
      ensures Valid() && Survives() && ops == [] && intact && snapshots == []
    {
      this.maxFileSize, this.sizes := maxFileSize, sizes;
      mem, imm := [], None;
      current := [[], [], [], [], [], [], []];
      lastSequence, nextFile, snapshots := 0, 2, [];
      ops, floor, intact := [], 0, true;
      flushed, switched, past := 0, 0, [Point(current, 0, 0, 0)];
      new;
      assert Entries(current) == {};
      assert All() == {} && EntriesOf(ops) == {} && ops[..0] == ops;
    }

    lemma AllIsUnique()
      requires Valid()
      ensures UniqueSeqs(All())
    {
      HistoryIsUnique(ops);
    }

    // ----- Reading --------------------------------------------------------------------------------

    /** The memtable, then the immutable memtable, then the version. */
    method Lookup(u: UserKey, s: nat) returns (r: Option<Blob>)
      requires Valid()
      ensures Answers(All(), u, s, r)
    {
      AllIsUnique();
      ghost var disk := Entries(current);
      assert All() == Elements(mem) + (ImmEntries() + disk);
      var state := RunGet(mem, u, s);
      if !state.NotFound? {
        HitInRun(mem, ImmEntries() + disk, u, s);
        return Verdict(state);
      }
      if imm.Some? {
        state := RunGet(imm.value, u, s);
        if !state.NotFound? {
          HitInRun(imm.value, disk, u, s);
          MissInRun(mem, ImmEntries() + disk, u, s, Verdict(state));
          return Verdict(state);
        }
      }
      r := Versions.Get(current, u, s);
      if imm.Some? {
        MissInRun(imm.value, disk, u, s, r);
      }
      assert ImmEntries() + disk == (if imm.Some? then Elements(imm.value) + disk else disk);
      MissInRun(mem, ImmEntries() + disk, u, s, r);
    }

    /** What the entries answer at a servable sequence number is the latest of the writes up
        to it. */
    lemma ServesHistory(u: UserKey, s: nat, r: Option<Blob>)
      requires Valid() && intact && Servable(s)
      ensures Answers(All(), u, s, r) <==> r == Latest(ops[..s], u)
    {
      AllIsUnique();
      AnswersLatest(ops, s, u);
      var latest := Latest(ops[..s], u);
      assert Answers(All(), u, s, latest);
      if Answers(All(), u, s, r) { AnswerIsUnique(All(), u, s, r, latest); }
    }

    /** A read at the present or at a live snapshot returns the last write to the key among
        those that the sequence number covers. */
    method Get(u: UserKey, snapshot: Option<nat>) returns (r: Option<Blob>)
      requires Valid() && (snapshot.Some? ==> snapshot.value in snapshots)
      ensures intact ==> r == Latest(ops[..if snapshot.Some? then snapshot.value else lastSequence], u)
    {
      var s := if snapshot.Some? then snapshot.value else lastSequence;
      r := Lookup(u, s);
      if intact { ServesHistory(u, s, r); }
    }

    /** An iterator at the present or at a live snapshot shows exactly the last values of the
        writes that the sequence number covers. */
    method NewIterator(snapshot: Option<nat>) returns (it: DbIter.DBIter)
      requires Valid() && (snapshot.Some? ==> snapshot.value in snapshots)
      ensures fresh(it) && fresh(it.iter) && fresh(it.iter.children) && it.Valid() && !it.valid
      ensures it.sequence == if snapshot.Some? then snapshot.value else lastSequence
      ensures intact ==> forall u, v :: DbIter.Maps(it.iter.all, it.sequence, u, v) <==>
              Latest(ops[..it.sequence], u) == Some(v)
    {
      var s := if snapshot.Some? then snapshot.value else lastSequence;
      AllIsUnique();
      var runs: seq<seq<Entry>> := [];
      AddRun(runs, mem);
      runs := runs + [mem];
      if imm.Some? {
        AddRun(runs, imm.value);
        runs := runs + [imm.value];
      }
      assert UnionOf(runs) == Elements(mem) + ImmEntries();
      runs := AddIterators(current, runs);
      var iter := NewMergingIterator(runs);
      it := new DbIter.DBIter(iter, s);
      if intact {
        forall u, v ensures DbIter.Maps(iter.all, s, u, v) <==> Latest(ops[..s], u) == Some(v) {
          ShownIsRead(iter.all, s, u, v);
          ServesHistory(u, s, Some(v));
        }
      }
    }

    method GetSnapshot() returns (s: nat)
      requires Valid()
      modifies this`snapshots
      ensures Valid() && s == lastSequence && snapshots == old(snapshots) + [s]
    {
      s := lastSequence;
      snapshots := snapshots + [s];
    }

    method ReleaseSnapshot(i: nat)
      requires Valid() && i < |snapshots|
      modifies this`snapshots
      ensures Valid() && snapshots == old(snapshots)[..i] + old(snapshots)[i + 1..]
    {
      snapshots := snapshots[..i] + snapshots[i + 1..];
    }

    // ----- Writing --------------------------------------------------------------------------------

    /** Applies a batch to the memtable under consecutive sequence numbers. */
    method Write(batch: seq<Op>)
      requires Valid() && lastSequence + |batch| < MAX_SEQUENCE
      modifies this`mem, this`lastSequence, this`ops
      ensures Valid() && ops == old(ops) + batch && (old(Survives()) ==> Survives())
    {
      if Survives() {
        BufferedWrites(Elements(mem), ImmEntries(), ops, flushed, switched, batch);
        if intact { MoreWrites(past, ops, batch); }
      }
      mem := InsertBatch(mem, lastSequence + 1, batch, ImmEntries(), Entries(current), ops, floor, intact);
      lastSequence := lastSequence + |batch|;
      ops := ops + batch;
    }

    /** The full memtable becomes the immutable one. */
    method SwitchMemTable()
      requires Valid() && imm.None?
      modifies this`mem, this`imm, this`switched
      ensures Valid() && imm == Some(old(mem)) && mem == [] && All() == old(All())
      ensures switched == |ops| && (old(Survives()) ==> Survives())
    {
      if Survives() { BufferedSwitch(Elements(mem), ops, flushed); }
      SwitchStep(mem, Entries(current), ops, floor, intact);
      imm := Some(mem);
      mem := [];
      switched := |ops|;
    }

    // ----- Flushing -------------------------------------------------------------------------------

    /** Writes the immutable memtable to a table. */
    method CompactMemTable()
      requires Valid() && imm.Some?
      modifies this`imm, this`current, this`nextFile, this`flushed, this`past
      ensures Valid() && imm.None? && All() == old(All())
      ensures flushed == switched && Installs() && (old(Survives()) ==> Survives())
      ensures if old(imm).value == [] then current == old(current)
              else Flushed(old(current), current, old(imm).value, old(nextFile), maxFileSize, sizes)
    {
      ghost var v, es, survives := current, ImmEntries(), Survives();
      FlushImm();
      NoteFlush(v, es, survives);
    }

    method FlushImm()
      requires Valid() && imm.Some?
      modifies this`imm, this`current, this`nextFile
      ensures Valid() && imm.None? && All() == old(All())
              && Entries(current) == Entries(old(current)) + old(ImmEntries())
      ensures if old(imm).value == [] then current == old(current)
              else Flushed(old(current), current, old(imm).value, old(nextFile), maxFileSize, sizes)
    {
      FlushLayers(Elements(mem), ImmEntries(), Entries(current), ops);
      current := WriteLevel0Table(current, mem, imm.value, nextFile, ops, maxFileSize, sizes);
      nextFile := nextFile + 1;
      imm := None;
    }

    /** The current version, `v` and the flushed entries, joins those so far. */
    ghost method NoteFlush(v: Version, es: set<Entry>, survived: bool)
      requires survived ==> FlushedAs(v, es)
      requires imm.None? && Entries(current) == Entries(v) + es && floor <= |ops|
      modifies this`past, this`flushed
      ensures flushed == switched && past == old(past) + [Point(current, flushed, floor, |ops|)]
      ensures survived ==> Survives()
    {
      if survived {
        BufferedFlush(Elements(mem), es, ops, flushed, switched);
        if intact {
          FlushedPoint(Tip(), current, Elements(mem), es, ops, switched);
          OneMorePoint(past, Point(current, switched, floor, |ops|), ops);
        }
      }
      past := past + [Point(current, switched, floor, |ops|)];
      flushed := switched;
    }

    /** These entries were in the immutable memtable, and this was the version. */
    ghost predicate FlushedAs(v: Version, es: set<Entry>)
      reads this`mem, this`ops, this`intact, this`floor, this`flushed, this`switched, this`past
    {
      && Buffered(Elements(mem), es, ops, flushed, switched)
      && past != [] && Tip() == Point(v, flushed, floor, Tip().last)
      && (intact ==> AllDurable(past, ops))
    }

    /** The new version joins those so far. */
    twostate predicate Installs()
      reads this
    {
      past == old(past) + [Point(current, flushed, floor, |ops|)]
    }

    // ----- Compacting ------------------------------------------------------------------------------

    /** The smallest sequence number that a reader may still ask for. */
    function SmallestSnapshot(): nat
      reads this
    {
      if snapshots == [] then lastSequence else snapshots[0]
    }

    /** The plan is carried out by moving its only file down, entries and reads untouched. */
    twostate predicate Moved(level: nat, plan: Plan)
      reads this
      requires level + 1 < NUM_LEVELS
    {
      && Installed(old(current), current, level, plan.base, [], plan.base)
      && floor == old(floor) && intact == old(intact) && nextFile == old(nextFile)
    }

    /** The plan is carried out by a merge for the smallest live snapshot; the reads stay as
        they were unless the merge uncovers a value. */
    twostate predicate Merged(level: nat, plan: Plan)
      reads this
      requires level + 1 < NUM_LEVELS
    {
      && MergedInto(old(current), current, level, plan, SmallestSnapshot(), old(nextFile), maxFileSize, sizes)
      && floor == SmallestSnapshot()
      && (intact <==> old(intact) && !Resurrects(old(current), level, plan.next, SmallestSnapshot()))
    }

    /** An automatic compaction of a level that starts from any of its files: one file that
        meets nothing below it, and not too much below that, moves down; anything else is
        merged. */
    method BackgroundCompaction(level: nat, i: nat) returns (ghost plan: Plan)
      requires Valid() && level + 1 < NUM_LEVELS && i < |current[level]|
      modifies this`current, this`nextFile, this`floor, this`intact, this`past
      ensures Valid() && CanPick(old(current), level) && (old(Survives()) ==> Survives())
      ensures PickedFrom(old(current), level, i) != []
      ensures plan == Setup(old(current), level, PickedFrom(old(current), level, i), maxFileSize)
      ensures if IsTrivialMove(plan, maxFileSize) then Moved(level, plan) else Merged(level, plan)
    {
      LevelsListed(current, level);
      var picked := PickCompaction(current, level, i);
      var c := PlanCompaction(current, level, picked, maxFileSize);
      plan := c;
      if IsTrivialMove(c, maxFileSize) {
        MoveDown(level, c);
      } else {
        MergeInputs(level, c);
      }
    }

    /** One round of a manual compaction: the files of the level in the range, or the first of
        them if they are many, are merged into the next level. */
    method CompactRange(level: nat, r: Range) returns (done: bool, ghost plan: Plan)
      requires Valid() && level + 1 < NUM_LEVELS
      modifies this`current, this`nextFile, this`floor, this`intact, this`past
      ensures Valid() && CanPick(old(current), level) && (old(Survives()) ==> Survives())
      ensures done <==> RangeInputs(old(current), level, r, maxFileSize) == []
      ensures if done then unchanged(this)
              else plan == Setup(old(current), level, RangeInputs(old(current), level, r, maxFileSize), maxFileSize)
                   && Merged(level, plan)
    {
      LevelsListed(current, level);
      var picked := PickRange(current, level, r, maxFileSize);
      done := picked == [];
      plan := Plan([], [], []);
      if !done {
        var c := PlanCompaction(current, level, picked, maxFileSize);
        plan := c;
        MergeInputs(level, c);
      }
    }

    method MoveDown(level: nat, plan: Plan)
      requires Valid() && level + 1 < NUM_LEVELS && ClosedPlan(current, level, plan)
      requires |plan.base| == 1 && |plan.next| == 0
      modifies this`current, this`past
      ensures Valid() && Moved(level, plan) && (old(Survives()) ==> Survives())
    {
      ghost var v, survives := current, Survives();
      current := MoveFile(current, level, plan, nextFile);
      NotePoint(v, floor, survives);
    }

    method MergeInputs(level: nat, plan: Plan)
      requires Valid() && level + 1 < NUM_LEVELS && ClosedPlan(current, level, plan)
      modifies this`current, this`nextFile, this`floor, this`intact, this`past
      ensures Valid() && Merged(level, plan) && (old(Survives()) ==> Survives())
    {
      ghost var v, floor0, survives := current, floor, Survives();
      MergeCurrent(level, plan);
      NotePoint(v, floor0, survives);
    }

    method MergeCurrent(level: nat, plan: Plan)
      requires Valid() && level + 1 < NUM_LEVELS && ClosedPlan(current, level, plan)
      modifies this`current, this`nextFile, this`floor, this`intact
      ensures Valid() && Merged(level, plan) && old(floor) <= floor <= |ops| && (intact ==> old(intact))
      ensures KeepsReads(old(current), current, floor, intact)
    {
      var s := SmallestSnapshot();
      SmallestIsLive(snapshots, floor, lastSequence);
      var w, n;
      ghost var keeps;
      w, n, keeps := MergeStep(current, level, plan, s, nextFile, maxFileSize, sizes, mem, ImmEntries(), ops, floor,
          intact);
      Install(w, n, s, keeps);
    }

    /** The result of a merge becomes the current version. */
    method Install(w: Version, n: nat, ghost s: nat, ghost keeps: bool)
      modifies this`current, this`nextFile, this`floor, this`intact
      ensures current == w && nextFile == n && floor == s && intact == keeps
    {
      current, nextFile, floor, intact := w, n, s, keeps;
    }

    /** The current version, made of `v`, joins those so far. */
    ghost method NotePoint(v: Version, floor0: nat, survived: bool)
      requires survived ==> SurvivesAs(v, floor0)
      requires floor0 <= floor <= |ops| && KeepsReads(v, current, floor, intact)
      modifies this`past
      ensures past == old(past) + [Point(current, flushed, floor, |ops|)] && (survived ==> Survives())
    {
      if survived && intact {
        MergedPoint(Tip(), current, ops, floor);
        OneMorePoint(past, Point(current, flushed, floor, |ops|), ops);
      }
      past := past + [Point(current, flushed, floor, |ops|)];
    }
  }
}
