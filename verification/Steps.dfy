/** The steps of the store on values: a batch into a memtable, a memtable into a version, and
    a version into the next one. */
module Steps {
  import opened Keys
  import opened Files
  import opened Versions
  import opened Inputs
  import opened Picking
  import opened Merging
  import opened Compact
  import opened CompactionWork
  import opened Install
  import opened Preserve
  import opened Placement
  import opened Edits
  import opened Runs
  import opened History
  import opened Layers
  import opened Durability

  /** The memtable is a sorted run on top of the other layers, and as long as no merge has
      uncovered a value, the layers read like the history from `floor` on. */
  ghost predicate Stacked(mem: seq<Entry>, imm: set<Entry>, disk: set<Entry>, ops: seq<Op>, floor: nat, intact: bool) {
    && Sorted(mem)
    && Layered(Elements(mem), imm, disk, ops)
    && (intact ==> SameReads(EntriesOf(ops), Elements(mem) + imm + disk, floor))
  }

  /** One write: the memtable, the history and the reads move together. */
  lemma AddStep(mem: seq<Entry>, imm: set<Entry>, disk: set<Entry>, written: seq<Op>, op: Op, floor: nat, intact: bool)
    requires Stacked(mem, imm, disk, written, floor, intact)
    ensures Stacked(InsertEntry(mem, Record(op, |written| + 1)), imm, disk, written + [op], floor, intact)
    ensures Elements(InsertEntry(mem, Record(op, |written| + 1))) == Elements(mem) + {Record(op, |written| + 1)}
  {
    var e := Record(op, |written| + 1);
    var all := Elements(mem) + imm + disk;
    WriteKeepsLayers(Elements(mem), imm, disk, written, op);
    assert EntryOf(written + [op], |written|) == e;
    forall x | x in mem ensures x.key != e.key { assert x in Elements(mem); }
    InsertEntrySorted(mem, e);
    assert Elements(mem) + {e} + imm + disk == all + {e};
    if intact { WriteKeepsReads(EntriesOf(written), all, e, floor); }
  }

  method AddToMemTable(mem: seq<Entry>, seqno: nat, op: Op, ghost imm: set<Entry>, ghost disk: set<Entry>,
                       ghost written: seq<Op>, ghost floor: nat, ghost intact: bool)
    returns (mem': seq<Entry>)
    requires seqno == |written| + 1 && Stacked(mem, imm, disk, written, floor, intact)
    ensures Stacked(mem', imm, disk, written + [op], floor, intact)
    ensures Elements(mem') == Elements(mem) + {Record(op, seqno)}
  {
    mem' := InsertEntry(mem, Record(op, seqno));
    AddStep(mem, imm, disk, written, op, floor, intact);
  }

  /** The records of a batch enter the memtable one by one, under consecutive sequence
      numbers. */
  method InsertBatch(mem: seq<Entry>, first: nat, batch: seq<Op>, ghost imm: set<Entry>, ghost disk: set<Entry>,
                     ghost ops: seq<Op>, ghost floor: nat, ghost intact: bool)
    returns (mem': seq<Entry>)
    requires first == |ops| + 1 && Stacked(mem, imm, disk, ops, floor, intact)
    ensures Stacked(mem', imm, disk, ops + batch, floor, intact)
    ensures Elements(mem') == Elements(mem) + WrittenFrom(ops + batch, |ops|)
  {
    mem' := mem;
    ghost var written := ops;
    for i := 0 to |batch|
      invariant written == ops + batch[..i] && Stacked(mem', imm, disk, written, floor, intact)
      invariant Elements(mem') == Elements(mem) + WrittenFrom(written, |ops|)
    {
      OneMoreWritten(written, batch[i], |ops|);
      assert ops + batch[..i + 1] == written + [batch[i]];
      mem' := AddToMemTable(mem', first + i, batch[i], imm, disk, written, floor, intact);
      written := written + [batch[i]];
    }
    assert batch[..|batch|] == batch;
  }

  /** The full memtable becomes the immutable one. */
  lemma SwitchStep(mem: seq<Entry>, disk: set<Entry>, ops: seq<Op>, floor: nat, intact: bool)
    requires Stacked(mem, {}, disk, ops, floor, intact)
    ensures Stacked([], Elements(mem), disk, ops, floor, intact)
    ensures Elements([]) + Elements(mem) + disk == Elements(mem) + {} + disk
  {
    assert Elements([]) + Elements(mem) + disk == Elements(mem) + {} + disk;
  }

  ghost predicate SnapshotsInOrder(snapshots: seq<nat>, floor: nat, last: nat) {
    && (forall i | 0 <= i < |snapshots| :: floor <= snapshots[i] <= last)
    && (forall i, j | 0 <= i < j < |snapshots| :: snapshots[i] <= snapshots[j])
  }

  lemma SmallestIsLive(snapshots: seq<nat>, floor: nat, last: nat)
    requires floor <= last && SnapshotsInOrder(snapshots, floor, last)
    ensures var s := if snapshots == [] then last else snapshots[0];
            floor <= s <= last && SnapshotsInOrder(snapshots, s, last)
  {
  }

  // ----- The steps on versions ----------------------------------------------------------------------

  /** `w` is `v` with one table that holds the entries, at the level that the placement rule
      picks for its range. */
  ghost predicate Flushed(v: Version, w: Version, es: seq<Entry>, n: nat, maxFileSize: nat, sizes: Sizes)
    requires Ordered(v) && es != []
  {
    var f := Built(n, sizes.finished(es), es);
    exists level: nat :: level <= MAX_MEM_COMPACT_LEVEL && Added(v, w, level, f)
      && IsOutputLevel(v, Between(f.smallest.user, f.largest.user), maxFileSize, level)
  }

  /** A memtable becomes a table at the level where it fits; an empty one leaves nothing. */
  method WriteLevel0Table(v: Version, ghost mem: seq<Entry>, es: seq<Entry>, n: nat, ghost ops: seq<Op>,
                          maxFileSize: nat, sizes: Sizes)
    returns (w: Version)
    requires Ordered(v) && FreshNumber(v, n) && Sorted(es)
    requires Layered(Elements(mem), Elements(es), Entries(v), ops) && |ops| < MAX_SEQUENCE
    ensures Ordered(w) && FreshNumber(w, n + 1) && Entries(w) == Entries(v) + Elements(es)
    ensures if es == [] then w == v else Flushed(v, w, es, n, maxFileSize, sizes)
  {
    w := v;
    if es != [] {
      var f := Built(n, sizes.finished(es), es);
      TableOfMemTable(f, mem, es, v, n, ops);
      BoundsInOrder(f);
      var level := PickLevelForMemTableOutput(v, f.smallest.user, f.largest.user, maxFileSize);
      w := LogAndApply(v, AddEdit(level, f));
      AddEditAdds(v, w, level, f);
      AddKeepsOrder(v, w, level, f);
    }
  }

  lemma FlushLayers(mem: set<Entry>, imm: set<Entry>, disk: set<Entry>, ops: seq<Op>)
    requires Layered(mem, imm, disk, ops)
    ensures Layered(mem, {}, disk + imm, ops)
    ensures mem + imm + disk == mem + {} + (disk + imm)
  {
  }

  lemma MergeLayers(mem: set<Entry>, imm: set<Entry>, disk: set<Entry>, disk': set<Entry>, ops: seq<Op>, floor: nat,
                    floor': nat, intact: bool)
    requires Layered(mem, imm, disk, ops) && disk' <= disk && floor <= floor'
    requires intact ==> SameReads(EntriesOf(ops), mem + imm + disk, floor) && SameReads(disk, disk', floor')
    ensures Layered(mem, imm, disk', ops)
    ensures intact ==> SameReads(EntriesOf(ops), mem + imm + disk', floor')
  {
    if intact {
      HistoryIsUnique(ops);
      UniqueSubset(EntriesOf(ops), mem + imm + disk);
      ReplaceOldest(mem + imm, disk, disk', floor');
      SameReadsTransitive(EntriesOf(ops), mem + imm + disk, mem + imm + disk', floor, floor');
    }
  }

  /** What the merge of a plan works with. */
  function WorkOf(v: Version, level: nat, plan: Plan, all: seq<Entry>, floor: nat, maxFileSize: nat,
                  sizes: Sizes): Work {
    Work(all, floor, v, level, plan.grandparents, MaxGrandParentOverlapBytes(maxFileSize), maxFileSize, sizes)
  }

  /** `w` is what the merge of the plan under the drop rule leaves of `v`, its output cut where the
      sizes ask for it and numbered from `first` on. */
  ghost predicate MergedInto(v: Version, w: Version, level: nat, plan: Plan, floor: nat, first: nat, maxFileSize: nat,
                             sizes: Sizes)
    requires level + 1 < NUM_LEVELS
  {
    exists all, outputs ::
      && Merge(v, w, level, plan.base, plan.next, all, floor, outputs)
      && AreOutputs(WorkOf(v, level, plan, all, floor, maxFileSize, sizes), outputs, first)
  }

  /** `w` has no more entries than `v`, and reads alike if nothing was uncovered. */
  ghost predicate KeepsReads(v: Version, w: Version, floor: nat, keeps: bool) {
    Entries(w) <= Entries(v) && (keeps ==> SameReads(Entries(v), Entries(w), floor))
  }

  method MergeStep(v: Version, level: nat, plan: Plan, s: nat, first: nat, maxFileSize: nat, sizes: Sizes,
                   ghost mem: seq<Entry>, ghost imm: set<Entry>, ghost ops: seq<Op>, ghost floor: nat,
                   ghost intact: bool)
    returns (w: Version, n: nat, ghost keeps: bool)
    requires Ordered(v) && FreshNumber(v, first) && level + 1 < NUM_LEVELS && ClosedPlan(v, level, plan)
    requires floor <= s < MAX_SEQUENCE && Stacked(mem, imm, Entries(v), ops, floor, intact)
    ensures Ordered(w) && FreshNumber(w, n) && Stacked(mem, imm, Entries(w), ops, s, keeps)
    ensures MergedInto(v, w, level, plan, s, first, maxFileSize, sizes)
    ensures KeepsReads(v, w, s, keeps)
    ensures keeps <==> intact && !Resurrects(v, level, plan.next, s)
  {
    w, n := MergeLevel(v, level, plan, s, first, maxFileSize, sizes);
    keeps := intact && !Resurrects(v, level, plan.next, s);
    MergeLayers(Elements(mem), imm, Entries(v), Entries(w), ops, floor, s, keeps);
  }

  lemma LevelsListed(v: Version, level: nat)
    requires Ordered(v) && level + 1 < NUM_LEVELS
    ensures CanPick(v, level)
  {
    if level > 0 { LevelIsSorted(v, level); }
    LevelIsSorted(v, level + 1);
    if level + 2 < NUM_LEVELS { LevelIsSorted(v, level + 2); }
  }

  /** The files that an automatic compaction starts from when it starts from file `i`. */
  ghost function PickedFrom(v: Version, level: nat, i: nat): seq<File>
    requires CanPick(v, level) && i < |v[level]|
  {
    if level == 0 then OverlappingInputs(0, v[0], Hull([v[0][i]])) else [v[level][i]]
  }

  method PickCompaction(v: Version, level: nat, i: nat) returns (picked: seq<File>)
    requires Ordered(v) && level + 1 < NUM_LEVELS && i < |v[level]| && CanPick(v, level)
    ensures picked == PickedFrom(v, level, i) && Pickable(v, level, picked) && v[level][i] in picked
  {
    var f := v[level][i];
    picked := [f];
    if level == 0 {
      var smallest, largest := GetRange(picked);
      var r := Between(smallest.user, largest.user);
      picked := GetOverlappingInputs(0, v[0], r);
      BoundsInOrder(f);
      InMeeting(v[0], InputRange(0, v[0], r), f);
    } else {
      assert picked == v[level][i..i + 1];
    }
  }

  /** The first files of a list, up to the one with which they reach the limit. */
  function TakeUpTo(files: seq<File>, limit: int): seq<File> {
    if files == [] then []
    else if files[0].size >= limit then [files[0]]
    else [files[0]] + TakeUpTo(files[1..], limit - files[0].size)
  }

  /** They are as many as it takes to reach the limit, or all. */
  lemma {:induction false} TakesEnough(files: seq<File>, limit: nat)
    ensures UpToSize(files, TakeUpTo(files, limit), limit)
  {
    if files != [] && files[0].size < limit {
      var rest, out := TakeUpTo(files[1..], limit - files[0].size), TakeUpTo(files, limit);
      TakesEnough(files[1..], limit - files[0].size);
      assert out[1..] == rest && out[0] == files[0];
      forall k: nat | 0 < k < |out| ensures TotalFileSize(out[..k]) < limit {
        assert out[..k][0] == files[0] && out[..k][1..] == rest[..k - 1];
      }
    }
  }

  lemma {:induction false} TakeUpToStep(files: seq<File>, k: nat, total: nat, limit: nat)
    requires k < |files| && files[..k] + TakeUpTo(files[k..], limit - total) == TakeUpTo(files, limit)
    ensures total + files[k].size >= limit ==> files[..k + 1] == TakeUpTo(files, limit)
    ensures total + files[k].size < limit ==>
              files[..k + 1] + TakeUpTo(files[k + 1..], limit - (total + files[k].size)) == TakeUpTo(files, limit)
  {
    assert files[k..][1..] == files[k + 1..] && files[k..][0] == files[k];
    assert files[..k + 1] == files[..k] + [files[k]];
  }

  /** The first of the files, no more of them than reach the limit. */
  ghost predicate UpToSize(files: seq<File>, picked: seq<File>, limit: nat) {
    && picked <= files && (picked == files || TotalFileSize(picked) >= limit)
    && forall k: nat | 0 < k < |picked| :: TotalFileSize(picked[..k]) < limit
  }

  ghost function RangeInputs(v: Version, level: nat, r: Range, maxFileSize: nat): seq<File>
    requires CanPick(v, level)
  {
    var inputs := OverlappingInputs(level, v[level], r);
    if level > 0 then TakeUpTo(inputs, maxFileSize) else inputs
  }

  method PickRange(v: Version, level: nat, r: Range, maxFileSize: nat) returns (picked: seq<File>)
    requires Ordered(v) && level + 1 < NUM_LEVELS && CanPick(v, level)
    ensures picked == RangeInputs(v, level, r, maxFileSize)
    ensures picked != [] ==> Pickable(v, level, picked)
    ensures picked == [] <==> OverlappingInputs(level, v[level], r) == []
    ensures level > 0 ==> UpToSize(Meeting(v[level], r), picked, maxFileSize)
  {
    picked := GetOverlappingInputs(level, v[level], r);
    if picked != [] {
      OverlappingIsPickable(v, level, r);
      if level > 0 {
        ghost var i: nat, j: nat :| i < j <= |v[level]| && picked == v[level][i..j];
        TakesEnough(picked, maxFileSize);
        picked := LimitInputs(picked, maxFileSize);
        assert picked == v[level][i..i + |picked|];
      }
    }
  }

  /** Stops at the file with which the total reaches the limit. */
  method LimitInputs(inputs: seq<File>, limit: nat) returns (picked: seq<File>)
    requires inputs != []
    ensures picked == TakeUpTo(inputs, limit) && picked != [] && picked <= inputs
  {
    var total: nat := 0;
    assert inputs[..0] == [] && inputs[0..] == inputs;
    for k := 0 to |inputs|
      invariant inputs[..k] + TakeUpTo(inputs[k..], limit - total) == TakeUpTo(inputs, limit)
    {
      TakeUpToStep(inputs, k, total, limit);
      total := total + inputs[k].size;
      if total >= limit {
        return inputs[..k + 1];
      }
    }
    assert inputs[|inputs|..] == [] && inputs[..|inputs|] == inputs;
    picked := inputs;
  }

  method PlanCompaction(v: Version, level: nat, picked: seq<File>, maxFileSize: nat) returns (plan: Plan)
    requires Ordered(v) && level + 1 < NUM_LEVELS && CanPick(v, level) && Pickable(v, level, picked)
    ensures plan == Setup(v, level, picked, maxFileSize) && ClosedPlan(v, level, plan)
  {
    plan := SetupOtherInputs(v, level, picked, maxFileSize);
    SetupIsClosed(v, level, picked, maxFileSize);
  }

  method MoveFile(v: Version, level: nat, plan: Plan, n: nat) returns (w: Version)
    requires Ordered(v) && FreshNumber(v, n) && level + 1 < NUM_LEVELS && ClosedPlan(v, level, plan)
    requires |plan.base| == 1 && |plan.next| == 0
    ensures Ordered(w) && FreshNumber(w, n) && Entries(w) == Entries(v)
    ensures Installed(v, w, level, plan.base, [], plan.base)
  {
    var f := plan.base[0];
    w := LogAndApply(v, CompactionEdit(level, [f], [], [f]));
    assert plan.base == [f] && f in [f];
    assert NumbersApart(v, level, level + 1);
    CompactionEditInstalls(v, w, level, [f], [], [f]);
    MoveKeepsOrder(v, w, level, f);
  }

  method MergeLevel(v: Version, level: nat, plan: Plan, floor: nat, first: nat, maxFileSize: nat, sizes: Sizes)
    returns (w: Version, n: nat)
    requires Ordered(v) && FreshNumber(v, first) && level + 1 < NUM_LEVELS && ClosedPlan(v, level, plan)
             && floor < MAX_SEQUENCE
    ensures Ordered(w) && FreshNumber(w, n) && Entries(w) <= Entries(v)
    ensures MergedInto(v, w, level, plan, floor, first, maxFileSize, sizes)
    ensures SameReads(Entries(v), Entries(w), floor) <==> !Resurrects(v, level, plan.next, floor)
  {
    forall l | level + 2 <= l < NUM_LEVELS ensures LevelSorted(v[l]) { LevelIsSorted(v, l); }
    var c := new Compaction(v, level, plan.grandparents, MaxGrandParentOverlapBytes(maxFileSize));
    var input := MakeInputIterator(v, level, plan);
    var outputs := DoCompactionWork(input, c, floor, maxFileSize, sizes, first);
    OutputsHoldKept(WorkOf(v, level, plan, input.all, floor, maxFileSize, sizes), outputs, first);
    w := LogAndApply(v, CompactionEdit(level, plan.base, plan.next, outputs));
    n := first + |outputs|;
    InstallMerge(v, w, level, plan, input.all, floor, outputs, first);
  }

  /** The runs that a compaction merges: the files of level 0 one by one, the files of a
      deeper level end to end. */
  function InputRuns(level: nat, plan: Plan): seq<seq<Entry>> {
    (if level == 0 then seq(|plan.base|, i requires 0 <= i < |plan.base| => plan.base[i].entries)
     else [Flatten(plan.base)])
    + (if plan.next == [] then [] else [Flatten(plan.next)])
  }

  method MakeInputIterator(v: Version, level: nat, plan: Plan) returns (it: MergingIterator)
    requires Ordered(v) && level + 1 < NUM_LEVELS && ClosedPlan(v, level, plan)
    ensures fresh(it) && fresh(it.children) && it.Valid() && IsInputOf(it.all, plan.base, plan.next)
  {
    InputRunsDisjoint(v, level, plan);
    it := NewMergingIterator(InputRuns(level, plan));
    forall e ensures e in it.all <==> InFiles(plan.base, e) || InFiles(plan.next, e) {
      assert e in it.all <==> e in Elements(it.all);
      InInputRuns(level, plan, e);
    }
  }

  lemma InInputRuns(level: nat, plan: Plan, e: Entry)
    ensures e in UnionOf(InputRuns(level, plan)) <==> InFiles(plan.base, e) || InFiles(plan.next, e)
  {
    var runs := InputRuns(level, plan);
    InFlatten(plan.base, e);
    InFlatten(plan.next, e);
    if level == 0 {
      if InFiles(plan.base, e) {
        var f :| f in plan.base && e in f.entries;
        var i :| 0 <= i < |plan.base| && plan.base[i] == f;
        assert e in runs[i];
      }
    } else {
      assert runs[0] == Flatten(plan.base);
    }
    if plan.next != [] { assert runs[|runs| - 1] == Flatten(plan.next); }
  }

  lemma BaseInLevelOrder(v: Version, level: nat, base: seq<File>)
    requires Ordered(v) && 0 < level < NUM_LEVELS && ClosedBase(v[level], base)
    ensures LevelSorted(base)
  {
    LevelIsSorted(v, level);
    LevelWithout(v[level], base);
  }

  lemma NextInLevelOrder(v: Version, level: nat, r: Range)
    requires Ordered(v) && 0 < level < NUM_LEVELS
    ensures LevelSorted(Meeting(v[level], r))
  {
    LevelIsSorted(v, level);
    LevelListed(v[level]);
    MeetingStaysListed(v[level], r);
    forall f | f in Meeting(v[level], r) ensures f in v[level] { InMeeting(v[level], r, f); }
    LevelWithout(v[level], Meeting(v[level], r));
  }

  lemma InputRunsDisjoint(v: Version, level: nat, plan: Plan)
    requires Ordered(v) && level + 1 < NUM_LEVELS && ClosedPlan(v, level, plan)
    ensures DisjointRuns(InputRuns(level, plan)) && UniqueSeqs(UnionOf(InputRuns(level, plan)))
  {
    var runs := InputRuns(level, plan);
    forall i | 0 <= i < |runs| ensures Sorted(runs[i]) {
      if level == 0 && i < |plan.base| {
        FilesAreValid(v, 0, plan.base[i]);
      } else if i == 0 {
        BaseInLevelOrder(v, level, plan.base);
        FlattenSorted(plan.base);
      } else {
        NextInLevelOrder(v, level + 1, Hull(plan.base));
        FlattenSorted(plan.next);
      }
    }
    forall i, j | 0 <= i < j < |runs| ensures RunsDiffer(runs, i, j) {
      forall e | e in runs[i] ensures e !in runs[j] {
        EntryInOneRun(v, level, plan, i, j, e);
      }
    }
    forall e | e in UnionOf(runs) ensures e in Entries(v) {
      InInputRuns(level, plan, e);
      InputIsEntry(v, level, plan.base, plan.next, e);
    }
    UniqueSubset(Entries(v), UnionOf(runs));
  }

  lemma EntryInOneRun(v: Version, level: nat, plan: Plan, i: nat, j: nat, e: Entry)
    requires Ordered(v) && level + 1 < NUM_LEVELS && ClosedPlan(v, level, plan)
    requires i < j < |InputRuns(level, plan)| && e in InputRuns(level, plan)[i]
    ensures e !in InputRuns(level, plan)[j]
  {
    var runs := InputRuns(level, plan);
    if e in runs[j] {
      InFlatten(plan.base, e);
      InFlatten(plan.next, e);
      if level == 0 && j < |plan.base| {
        var f, g := plan.base[i], plan.base[j];
        assert FileInOrder(plan.base, i, j);
        EntryInOneFile(v, 0, f, 0, g, e);
      } else {
        var f :| f in plan.base && e in f.entries;
        var g :| g in plan.next && e in g.entries;
        InMeeting(v[level + 1], Hull(plan.base), g);
        EntryInOneFile(v, level, f, level + 1, g, e);
      }
    }
  }

  /** The installed merge: in order, numbered freshly, and reading as the drop rule allows. */
  lemma InstallMerge(v: Version, w: Version, level: nat, plan: Plan, all: seq<Entry>, floor: nat, outputs: seq<File>,
                     first: nat)
    requires Ordered(v) && FreshNumber(v, first) && level + 1 < NUM_LEVELS && ClosedPlan(v, level, plan)
    requires IsInputOf(all, plan.base, plan.next)
    requires Flatten(outputs) == Kept(all, |all|, floor, v, level) && WellNumbered(outputs, first)
    requires Applied(v, w, CompactionEdit(level, plan.base, plan.next, outputs))
    ensures Ordered(w) && FreshNumber(w, first + |outputs|) && Entries(w) <= Entries(v)
    ensures Merge(v, w, level, plan.base, plan.next, all, floor, outputs)
    ensures SameReads(Entries(v), Entries(w), floor) <==> !Resurrects(v, level, plan.next, floor)
  {
    forall f | f in plan.next ensures f in v[level + 1] { InMeeting(v[level + 1], Hull(plan.base), f); }
    MergeOutputsGood(v, level, plan.base, plan.next, all, floor, outputs, first);
    OutputNumbers(v, outputs, first);
    CompactionEditInstalls(v, w, level, plan.base, plan.next, outputs);
    InstallKeepsOrder(v, w, level, plan.base, plan.next, outputs);
    assert Merge(v, w, level, plan.base, plan.next, all, floor, outputs);
    CompactionPreservesReadsIff(v, w, level, plan.base, plan.next, all, floor, outputs);
    MergeNumbers(v, w, level, plan, outputs, first);
  }

  lemma MergeNumbers(v: Version, w: Version, level: nat, plan: Plan, outputs: seq<File>, first: nat)
    requires level + 1 < NUM_LEVELS && FreshNumber(v, first) && NumberedFrom(outputs, first)
    requires Installed(v, w, level, plan.base, plan.next, outputs)
    ensures FreshNumber(w, first + |outputs|)
  {
    forall l, g | 0 <= l < NUM_LEVELS && g in w[l] ensures g.number < first + |outputs| {
      if l == level + 1 && g in outputs {
        var i :| 0 <= i < |outputs| && outputs[i] == g;
      } else {
        assert g in v[l];
      }
    }
  }

  lemma TableOfMemTable(f: File, mem: seq<Entry>, es: seq<Entry>, v: Version, n: nat, ops: seq<Op>)
    requires Sorted(es) && es != [] && f == Built(n, f.size, es) && FreshNumber(v, n)
    requires Ordered(v) && Layered(Elements(mem), Elements(es), Entries(v), ops) && |ops| < MAX_SEQUENCE
    ensures f.Valid() && FitsAt(v, 0, f)
  {
    forall e | e in es ensures e.key.seqno <= MAX_SEQUENCE {
      assert e in Elements(es) && e in EntriesOf(ops);
    }
    forall l, g | 0 <= l < NUM_LEVELS && g in v[l] ensures NewerThan(f, g) {
      forall a, b | a in f.entries && b in g.entries && a.key.user == b.key.user ensures a.key.seqno > b.key.seqno {
        assert a in Elements(es) && b in Entries(v);
      }
    }
    HistoryIsUnique(ops);
    UniqueSubset(EntriesOf(ops), Entries(v) + Elements(es));
  }
}
