/** The manifest: a log of version edits, and the version that recovery makes of it. */
module Manifests {
  import opened Coding
  import opened Keys
  import opened Files
  import opened Versions
  import opened VersionBuilder
  import opened Replay
  import Log
  import opened LogFragments
  import opened LogRecords
  import LogCuts
  import opened VersionEdits

  /** The tables of a directory: what the manifest says of a table, and the table that it
      says it of. */
  datatype Directory = Directory(metaOf: File -> Meta, fileOf: Meta -> File) {
    ghost predicate Knows(files: seq<File>) {
      forall f | f in files :: fileOf(metaOf(f)) == f
    }

    /** A table that a manifest names has metadata that name the same table. */
    ghost predicate Consistent() {
      forall m :: fileOf(metaOf(fileOf(m))) == fileOf(m)
    }

    ghost predicate KnowsAll(v: Version) {
      forall l: nat | l < NUM_LEVELS :: Knows(v[l])
    }
  }

  // ----- What an edit does to a level --------------------------------------------------------------

  function FilesAt(dir: Directory, added: seq<Added>, l: nat): seq<File> {
    if added == [] then []
    else
      var last := added[|added| - 1];
      FilesAt(dir, added[..|added| - 1], l) + if last.level == l then [dir.fileOf(last.meta)] else []
  }

  function LevelOf(dir: Directory, f: Fields, l: nat): LevelEdit {
    LevelEdit(set d | d in f.deleted && d.level == l :: d.number, FilesAt(dir, f.added, l))
  }

  function EditOf(dir: Directory, f: Fields): Edit {
    Edit(seq(NUM_LEVELS, l requires 0 <= l < NUM_LEVELS => LevelOf(dir, f, l)))
  }

  function LevelEdits(dir: Directory, edits: seq<Fields>, l: nat): seq<LevelEdit> {
    seq(|edits|, i requires 0 <= i < |edits| => LevelOf(dir, edits[i], l))
  }

  lemma {:induction false} FilesAtConcat(dir: Directory, a: seq<Added>, b: seq<Added>, l: nat)
    ensures FilesAt(dir, a + b, l) == FilesAt(dir, a, l) + FilesAt(dir, b, l)
  {
    if b == [] {
      assert a + b == a;
    } else {
      assert (a + b)[..|a + b| - 1] == a + b[..|b| - 1];
      FilesAtConcat(dir, a, b[..|b| - 1], l);
    }
  }

  // ----- The snapshot at the start of a manifest ---------------------------------------------------

  function Listed(dir: Directory, l: uint32, files: seq<File>): seq<Added> {
    seq(|files|, i requires 0 <= i < |files| => Added(l, dir.metaOf(files[i])))
  }

  function AllListed(dir: Directory, v: Version, n: nat): seq<Added>
    requires n <= NUM_LEVELS
  {
    if n == 0 then [] else AllListed(dir, v, n - 1) + Listed(dir, n - 1, v[n - 1])
  }

  function SnapshotOf(dir: Directory, name: Slice, pointers: seq<Pointer>, v: Version): Fields {
    EMPTY.(comparator := Some(name), pointers := pointers, added := AllListed(dir, v, NUM_LEVELS))
  }

  lemma {:induction false} ListedFiles(dir: Directory, l: uint32, files: seq<File>, m: nat)
    requires dir.Knows(files)
    ensures FilesAt(dir, Listed(dir, l, files), m) == if l == m then files else []
  {
    if files != [] {
      var front := files[..|files| - 1];
      assert Listed(dir, l, files)[..|files| - 1] == Listed(dir, l, front);
      ListedFiles(dir, l, front, m);
      assert files == front + [files[|files| - 1]];
    }
  }

  lemma {:induction false} AllListedFiles(dir: Directory, v: Version, n: nat, m: nat)
    requires n <= NUM_LEVELS && m < NUM_LEVELS && dir.KnowsAll(v)
    ensures FilesAt(dir, AllListed(dir, v, n), m) == if m < n then v[m] else []
  {
    if n > 0 {
      AllListedFiles(dir, v, n - 1, m);
      assert dir.Knows(v[n - 1]);
      NextListed(dir, v, n, m, AllListed(dir, v, n - 1), AllListed(dir, v, n));
    }
  }

  lemma NothingJoins(files: seq<File>)
    ensures files + [] == files == [] + files
  {
  }

  lemma NextListed(dir: Directory, v: Version, n: nat, m: nat, before: seq<Added>, listed: seq<Added>)
    requires 0 < n <= NUM_LEVELS && m < NUM_LEVELS && dir.Knows(v[n - 1])
    requires listed == before + Listed(dir, n - 1, v[n - 1]) && FilesAt(dir, before, m) == if m < n - 1 then v[m]
             else []
    ensures FilesAt(dir, listed, m) == if m < n then v[m] else []
  {
    OneMoreLevel(dir, before, n - 1, v[n - 1], m);
    NothingJoins(v[m]);
  }

  lemma OneMoreLevel(dir: Directory, before: seq<Added>, l: uint32, files: seq<File>, m: nat)
    requires dir.Knows(files)
    ensures FilesAt(dir, before + Listed(dir, l, files), m) == FilesAt(dir, before, m) + if l == m then files else []
  {
    FilesAtConcat(dir, before, Listed(dir, l, files), m);
    ListedFiles(dir, l, files, m);
  }

  lemma SnapshotLevel(dir: Directory, name: Slice, pointers: seq<Pointer>, v: Version, l: nat)
    requires l < NUM_LEVELS && dir.KnowsAll(v)
    ensures LevelOf(dir, SnapshotOf(dir, name, pointers, v), l) == Snapshot(v[l])
  {
    AllListedFiles(dir, v, NUM_LEVELS, l);
  }

  lemma {:induction false} AllListedFits(dir: Directory, v: Version, n: nat)
    requires n <= NUM_LEVELS
    ensures forall a | a in AllListed(dir, v, n) :: a.level < NUM_LEVELS
  {
    if n > 0 { AllListedFits(dir, v, n - 1); }
  }

  // ----- Recovery ------------------------------------------------------------------------------------

  /** Edits put compaction pointers in the places of their levels. */
  function WithPointers(places: seq<Slice>, ps: seq<Pointer>): (out: seq<Slice>)
    ensures |out| == |places|
  {
    if ps == [] then places
    else
      var last, before := ps[|ps| - 1], WithPointers(places, ps[..|ps| - 1]);
      if last.level < |places| then before[last.level := last.key] else before
  }

  /** The pointers that there are, level by level. */
  function PointersOf(places: seq<Slice>, n: nat): seq<Pointer>
    requires n <= |places| <= NUM_LEVELS
  {
    if n == 0 then []
    else PointersOf(places, n - 1) + if places[n - 1] == [] then [] else [Pointer(n - 1, places[n - 1])]
  }

  function NoPointers(): (places: seq<Slice>)
    ensures |places| == NUM_LEVELS
  {
    seq(NUM_LEVELS, _ => [])
  }

  lemma {:induction false} PointersExist(places: seq<Slice>, n: nat)
    requires n <= |places| <= NUM_LEVELS
    ensures LevelsExist(PointersOf(places, n))
  {
    if n > 0 { PointersExist(places, n - 1); }
  }

  /** Putting the listed pointers back in their places. */
  lemma {:induction false} ListedArePlaced(none: seq<Slice>, places: seq<Slice>, n: nat, l: nat)
    requires n <= |places| == |none| <= NUM_LEVELS && l < |none| && none[l] == []
    ensures WithPointers(none, PointersOf(places, n))[l] == if l < n then places[l] else []
  {
    if n > 0 {
      var before := PointersOf(places, n - 1);
      ListedArePlaced(none, places, n - 1, l);
      if places[n - 1] == [] {
        assert PointersOf(places, n) == before;
      } else {
        OneMorePointer(none, before, Pointer(n - 1, places[n - 1]));
      }
    }
  }

  lemma OneMorePointer(places: seq<Slice>, ps: seq<Pointer>, p: Pointer)
    requires p.level < |places|
    ensures WithPointers(places, ps + [p]) == WithPointers(places, ps)[p.level := p.key]
  {
    assert (ps + [p])[..|ps|] == ps;
  }

  /** Only the last pointer for a level matters, and whether there is one. */
  lemma {:induction false} PlacedAt(places: seq<Slice>, others: seq<Slice>, ps: seq<Pointer>, l: nat)
    requires l < |places| == |others|
    requires (exists p :: p in ps && p.level == l) || places[l] == others[l]
    ensures WithPointers(places, ps)[l] == WithPointers(others, ps)[l]
  {
    if ps != [] {
      var front := ps[..|ps| - 1];
      if ps[|ps| - 1].level != l {
        if p :| p in ps && p.level == l { assert p in front; }
        PlacedAt(places, others, front, l);
      }
    }
  }

  lemma {:induction false} NotPlaced(places: seq<Slice>, ps: seq<Pointer>, l: nat)
    requires l < |places| && forall p | p in ps :: p.level != l
    ensures WithPointers(places, ps)[l] == places[l]
  {
    if ps != [] { NotPlaced(places, ps[..|ps| - 1], l); }
  }

  lemma PlacedTwice(places: seq<Slice>, ps: seq<Pointer>)
    ensures WithPointers(WithPointers(places, ps), ps) == WithPointers(places, ps)
  {
    var once := WithPointers(places, ps);
    forall l: nat | l < |places| ensures WithPointers(once, ps)[l] == once[l] {
      if !exists p :: p in ps && p.level == l {
        NotPlaced(places, ps, l);
      }
      PlacedAt(once, places, ps, l);
    }
  }

  /** What the edits say apart from files. */
  datatype Counters = Counters(logNumber: Option<uint64>, prevLogNumber: Option<uint64>, nextFile: Option<uint64>,
                               lastSequence: Option<uint64>, pointers: seq<Slice>)

  const NO_COUNTERS := Counters(None, None, None, None, NoPointers())

  /** After a snapshot, which has pointers only. */
  function Begun(ps: seq<Pointer>): Counters {
    NO_COUNTERS.(pointers := WithPointers(NoPointers(), ps))
  }

  function Later(a: Option<uint64>, b: Option<uint64>): Option<uint64> {
    if b.Some? then b else a
  }

  function After(c: Counters, f: Fields): Counters {
    Counters(Later(c.logNumber, f.logNumber), Later(c.prevLogNumber, f.prevLogNumber),
             Later(c.nextFile, f.nextFile), Later(c.lastSequence, f.lastSequence), WithPointers(c.pointers, f.pointers))
  }

  /** What recovery has gathered: the levels of its builder and the counters. */
  datatype Gathered = Gathered(ok: bool, levels: seq<LevelState>, counters: Counters)

  function NothingYet(): seq<LevelState> {
    seq(NUM_LEVELS, _ => NOTHING)
  }

  const FRESH := Gathered(true, NothingYet(), NO_COUNTERS)

  predicate Accepts(name: Slice, f: Fields) {
    f.comparator.Some? ==> f.comparator.value == name
  }

  function ApplyLevels(dir: Directory, levels: seq<LevelState>, f: Fields): seq<LevelState> {
    seq(|levels|, l requires 0 <= l < |levels| => ApplyLevel(levels[l], LevelOf(dir, f, l)))
  }

  /** A decoded edit; its counters, but not its pointers, are noted even when it is refused. */
  function Gather(dir: Directory, name: Slice, f: Fields, decoded: bool, acc: Gathered): (g: Gathered)
    ensures |g.levels| == |acc.levels|
  {
    var ok := decoded && Accepts(name, f);
    var c := After(acc.counters, f);
    Gathered(ok, if ok then ApplyLevels(dir, acc.levels, f) else acc.levels,
             if ok then c else c.(pointers := acc.counters.pointers))
  }

  function GatherRecord(dir: Directory, name: Slice, record: Bytes, acc: Gathered): (g: Gathered)
    ensures |g.levels| == |acc.levels|
  {
    var (f, decoded) := Read(record, EMPTY);
    Gather(dir, name, f, decoded, acc)
  }

  /** Any corruption that the log reader reports ends the recovery. */
  function Scanned(dir: Directory, name: Slice, log: Input, s: Scan, acc: Gathered): (g: Gathered)
    requires InFile(log, s)
    ensures |g.levels| == |acc.levels|
    decreases |log.file| - s.pos
  {
    var r := NextRecord(log, s, [], false);
    var noted := acc.(ok := acc.ok && r.drops == []);
    if r.record == None || !noted.ok then noted
    else Scanned(dir, name, log, r.scan, GatherRecord(dir, name, r.record.value, noted))
  }

  /** What recovery gathers from the bytes of a manifest. */
  function ReadBack(step: Log.Step, dir: Directory, name: Slice, file: Bytes): (g: Gathered)
    ensures |g.levels| == NUM_LEVELS
  {
    Scanned(dir, name, Input(step, true, file), START, FRESH)
  }

  datatype Recovered = Recovered(version: Version, logNumber: uint64, prevLogNumber: uint64, manifestFile: uint64,
                                 lastSequence: uint64, pointers: seq<Slice>)

  function Saved(levels: seq<LevelState>): Version
    requires |levels| == NUM_LEVELS
  {
    seq(NUM_LEVELS, l requires 0 <= l < NUM_LEVELS => Save([], levels[l]))
  }

  function OrZero(n: Option<uint64>): uint64 {
    if n.Some? then n.value else 0
  }

  /** A version can be made only when every counter but one has been found. */
  function Settled(g: Gathered): Option<Recovered>
    requires |g.levels| == NUM_LEVELS
  {
    var c := g.counters;
    if g.ok && c.nextFile.Some? && c.logNumber.Some? && c.lastSequence.Some? then
      Some(Recovered(Saved(g.levels), c.logNumber.value, OrZero(c.prevLogNumber), c.nextFile.value,
          c.lastSequence.value, c.pointers))
    else None
  }

  /** The records of a manifest that is read without a report. */
  function GatherAll(dir: Directory, name: Slice, records: seq<Bytes>, acc: Gathered): Gathered
    decreases |records|
  {
    if records == [] || !acc.ok then acc
        else GatherAll(dir, name, records[1..], GatherRecord(dir, name, records[0], acc))
  }

  lemma ScannedUnfold(dir: Directory, name: Slice, log: Input, s: Scan, acc: Gathered)
    requires InFile(log, s)
    ensures var r := NextRecord(log, s, [], false);
            var noted := acc.(ok := acc.ok && r.drops == []);
            Scanned(dir, name, log, s, acc) ==
              if r.record == None || !noted.ok then noted
              else Scanned(dir, name, log, r.scan, GatherRecord(dir, name, r.record.value, noted))
  {
  }

  lemma {:induction false} ScannedGathers(dir: Directory, name: Slice, log: Input, s: Scan, records: seq<Bytes>,
                                          acc: Gathered)
    requires InFile(log, s) && ReadAll(log, s) == Reading(records, [])
    ensures Scanned(dir, name, log, s, acc) == GatherAll(dir, name, records, acc)
    decreases |records|
  {
    var r := NextRecord(log, s, [], false);
    LogCuts.ReadAllUnfold(log, s);
    ScannedUnfold(dir, name, log, s, acc);
    assert r.drops == [];
    if r.record.Some? && acc.ok {
      assert records[1..] == ReadAll(log, r.scan).records;
      ScannedGathers(dir, name, log, r.scan, records[1..], GatherRecord(dir, name, r.record.value, acc));
    }
  }

  // ----- Replay of logged edits --------------------------------------------------------------------

  /** The edit may be logged under this comparator. */
  ghost predicate Loggable(name: Slice, f: Fields) {
    f.Valid() && Accepts(name, f)
  }

  ghost predicate AllLoggable(name: Slice, edits: seq<Fields>) {
    forall i | 0 <= i < |edits| :: Loggable(name, edits[i])
  }

  function RecordsOf(encode: Fields -> Bytes, edits: seq<Fields>): (records: seq<Bytes>)
    ensures |records| == |edits|
  {
    seq(|edits|, i requires 0 <= i < |edits| => encode(edits[i]))
  }

  function AllAfter(c: Counters, edits: seq<Fields>): Counters
    decreases |edits|
  {
    if edits == [] then c else AllAfter(After(c, edits[0]), edits[1..])
  }

  lemma EncodedIsGathered(dir: Directory, name: Slice, f: Fields, acc: Gathered)
    requires Loggable(name, f)
    ensures GatherRecord(dir, name, Encoded(f), acc)
            == Gathered(true, ApplyLevels(dir, acc.levels, f), After(acc.counters, f))
  {
    RoundTrip(f, EMPTY);
    assert EMPTY.pointers + f.pointers == f.pointers;
  }

  /** The builder has, for every level, the edits of that level. */
  ghost predicate Builds(dir: Directory, from: seq<LevelState>, edits: seq<Fields>, to: seq<LevelState>) {
    |from| == |to| && forall l: nat | l < |from| :: to[l] == ApplyAll(from[l], LevelEdits(dir, edits, l))
  }

  lemma GatherStep(dir: Directory, name: Slice, record: Bytes, records: seq<Bytes>, acc: Gathered)
    requires acc.ok
    ensures GatherAll(dir, name, [record] + records, acc)
            == GatherAll(dir, name, records, GatherRecord(dir, name, record, acc))
  {
    assert ([record] + records)[1..] == records;
  }

  lemma BuildsStep(dir: Directory, from: seq<LevelState>, edits: seq<Fields>, to: seq<LevelState>)
    requires edits != [] && Builds(dir, ApplyLevels(dir, from, edits[0]), edits[1..], to)
    ensures Builds(dir, from, edits, to)
  {
    forall l: nat | l < |from| ensures to[l] == ApplyAll(from[l], LevelEdits(dir, edits, l)) {
      assert LevelEdits(dir, edits, l)[1..] == LevelEdits(dir, edits[1..], l);
    }
  }

  lemma RecordsUnfold(encode: Fields -> Bytes, edits: seq<Fields>)
    requires edits != []
    ensures RecordsOf(encode, edits) == [encode(edits[0])] + RecordsOf(encode, edits[1..])
  {
  }

  lemma RestLoggable(name: Slice, edits: seq<Fields>)
    requires edits != [] && AllLoggable(name, edits)
    ensures Loggable(name, edits[0]) && AllLoggable(name, edits[1..])
  {
    forall i | 0 <= i < |edits| - 1 ensures Loggable(name, edits[1..][i]) {
      assert Loggable(name, edits[i + 1]);
    }
  }

  /** What gathering the records of the edits must come to. */
  ghost predicate GathersTo(dir: Directory, edits: seq<Fields>, acc: Gathered, g: Gathered) {
    g.ok && g.counters == AllAfter(acc.counters, edits) && Builds(dir, acc.levels, edits, g.levels)
  }

  lemma {:induction false} EditsAreGathered(dir: Directory, name: Slice, edits: seq<Fields>, acc: Gathered)
    requires AllLoggable(name, edits) && acc.ok
    ensures GathersTo(dir, edits, acc, GatherAll(dir, name, RecordsOf(Encoded, edits), acc))
    decreases |edits|
  {
    if edits != [] {
      var f, rest := edits[0], edits[1..];
      RestLoggable(name, edits);
      EncodedIsGathered(dir, name, f, acc);
      RecordsUnfold(Encoded, edits);
      GatherStep(dir, name, Encoded(f), RecordsOf(Encoded, rest), acc);
      var next := Gathered(true, ApplyLevels(dir, acc.levels, f), After(acc.counters, f));
      EditsAreGathered(dir, name, rest, next);
      BuildsStep(dir, acc.levels, edits, GatherAll(dir, name, RecordsOf(Encoded, rest), next).levels);
    }
  }

  // ----- The manifest of a version set --------------------------------------------------------------

  /** Every edit that is logged sets all of the counters. */
  predicate Complete(f: Fields) {
    f.logNumber.Some? && f.prevLogNumber.Some? && f.nextFile.Some? && f.lastSequence.Some?
  }

  ghost predicate LevelReplays(dir: Directory, files: seq<File>, edits: seq<LevelEdit>) {
    && dir.Knows(files) && FilesSorted(files) && SameNumberSameFile(files, files)
    && FreshNumbers(Numbers(files), edits)
  }

  /** A version whose files are known and edits that may be logged after it. */
  ghost predicate Replays(dir: Directory, name: Slice, v: Version, edits: seq<Fields>) {
    && AllLoggable(name, edits) && (forall i | 0 <= i < |edits| :: Complete(edits[i]))
    && forall l: nat | l < NUM_LEVELS :: LevelReplays(dir, v[l], LevelEdits(dir, edits, l))
  }

  lemma {:induction false} FilesAtKnown(dir: Directory, added: seq<Added>, l: nat)
    requires dir.Consistent()
    ensures dir.Knows(FilesAt(dir, added, l))
  {
    if added != [] { FilesAtKnown(dir, added[..|added| - 1], l); }
  }

  /** Every level that edits have made can be listed in a new manifest. */
  lemma {:induction false} EachIsListable(dir: Directory, files: seq<File>, used: set<nat>, edits: seq<LevelEdit>)
    requires LevelReplays(dir, files, []) && Numbers(files) <= used && FreshNumbers(used, edits)
    requires forall i | 0 <= i < |edits| :: dir.Knows(edits[i].added)
    ensures LevelReplays(dir, ApplyEach(files, edits), [])
    decreases |edits|
  {
    if edits != [] {
      var e := edits[0];
      SavedIsListable(dir, files, used, e);
      EachIsListable(dir, Save(files, ApplyLevel(NOTHING, e)), used + Numbers(e.added), edits[1..]);
    }
  }

  lemma SavedIsListable(dir: Directory, files: seq<File>, used: set<nat>, e: LevelEdit)
    requires LevelReplays(dir, files, []) && Numbers(files) <= used && dir.Knows(e.added)
    requires Numbers(e.added) !! used && SameNumberSameFile(e.added, e.added)
    ensures var saved := Save(files, ApplyLevel(NOTHING, e));
            LevelReplays(dir, saved, []) && Numbers(saved) <= used + Numbers(e.added)
  {
    ReadyAfter(files, NOTHING, used, e);
    ReadySaves(files, ApplyLevel(NOTHING, e), used + Numbers(e.added));
    var saved := Save(files, ApplyLevel(NOTHING, e));
    forall f, g | f in saved && g in saved && f.number == g.number ensures f == g {
      assert f in files ==> f.number in Numbers(files);
      assert g in files ==> g.number in Numbers(files);
      assert f in e.added ==> f.number in Numbers(e.added);
      assert g in e.added ==> g.number in Numbers(e.added);
    }
  }

  lemma {:induction false} AllAfterLast(c: Counters, edits: seq<Fields>)
    requires edits != [] && Complete(edits[|edits| - 1])
    ensures var f := edits[|edits| - 1];
            AllAfter(c, edits) == Counters(f.logNumber, f.prevLogNumber, f.nextFile, f.lastSequence,
                AllAfter(c, edits).pointers)
    decreases |edits|
  {
    if |edits| == 1 {
      assert edits[1..] == [];
    } else {
      AllAfterLast(After(c, edits[0]), edits[1..]);
    }
  }

  lemma {:induction false} FreshPrefix(used: set<nat>, edits: seq<LevelEdit>, n: nat)
    requires FreshNumbers(used, edits) && n <= |edits|
    ensures FreshNumbers(used, edits[..n])
    decreases edits
  {
    if n > 0 {
      FreshPrefix(used + Numbers(edits[0].added), edits[1..], n - 1);
      assert edits[..n][1..] == edits[1..][..n - 1];
    }
  }

  lemma ReplaysPrefix(dir: Directory, name: Slice, v: Version, edits: seq<Fields>, n: nat)
    requires Replays(dir, name, v, edits) && n <= |edits|
    ensures Replays(dir, name, v, edits[..n])
  {
    forall i | 0 <= i < n ensures Loggable(name, edits[..n][i]) && Complete(edits[..n][i]) {
      assert Loggable(name, edits[i]) && Complete(edits[i]);
    }
    forall l: nat | l < NUM_LEVELS ensures LevelReplays(dir, v[l], LevelEdits(dir, edits[..n], l)) {
      assert LevelReplays(dir, v[l], LevelEdits(dir, edits, l));
      FreshPrefix(Numbers(v[l]), LevelEdits(dir, edits, l), n);
      assert LevelEdits(dir, edits[..n], l) == LevelEdits(dir, edits, l)[..n];
    }
  }

  /** The version after each of the edits has been installed on its own. */
  function Current(dir: Directory, v: Version, edits: seq<Fields>): Version {
    seq(NUM_LEVELS, l requires 0 <= l < NUM_LEVELS => ApplyEach(v[l], LevelEdits(dir, edits, l)))
  }

  function Manifest(dir: Directory, name: Slice, pointers: seq<Pointer>, v: Version, edits: seq<Fields>): seq<Bytes> {
    RecordsOf(Encoded, [SnapshotOf(dir, name, pointers, v)] + edits)
  }

  ghost predicate LevelsExist(pointers: seq<Pointer>) {
    forall p | p in pointers :: p.level < NUM_LEVELS
  }

  lemma LevelRebuilt(dir: Directory, name: Slice, pointers: seq<Pointer>, v: Version, edits: seq<Fields>, l: nat)
    requires Replays(dir, name, v, edits) && l < NUM_LEVELS
    ensures Save([], ApplyAll(NOTHING, LevelEdits(dir, [SnapshotOf(dir, name, pointers, v)] + edits, l)))
         == ApplyEach(v[l], LevelEdits(dir, edits, l))
  {
    forall m: nat | m < NUM_LEVELS ensures dir.Knows(v[m]) { assert LevelReplays(dir, v[m],
        LevelEdits(dir, edits, m)); }
    SnapshotLevel(dir, name, pointers, v, l);
    assert LevelEdits(dir, [SnapshotOf(dir, name, pointers, v)] + edits, l) == [Snapshot(v[l])]
        + LevelEdits(dir, edits, l);
    assert LevelReplays(dir, v[l], LevelEdits(dir, edits, l));
    RecoverRebuilds(v[l], LevelEdits(dir, edits, l));
  }

  lemma SnapshotThenEdits(dir: Directory, name: Slice, pointers: seq<Pointer>, v: Version, edits: seq<Fields>)
    requires LevelsExist(pointers) && Replays(dir, name, v, edits)
    ensures var all := [SnapshotOf(dir, name, pointers, v)] + edits;
            AllLoggable(name, all) && AllAfter(NO_COUNTERS, all) == AllAfter(Begun(pointers), edits)
  {
    var snapshot := SnapshotOf(dir, name, pointers, v);
    var all := [snapshot] + edits;
    AllListedFits(dir, v, NUM_LEVELS);
    forall i | 0 <= i < |all| ensures Loggable(name, all[i]) {
      assert i > 0 ==> Loggable(name, edits[i - 1]);
    }
    assert all[1..] == edits && After(NO_COUNTERS, snapshot) == Begun(pointers);
  }

  /** The records of a whole manifest. */
  lemma ManifestIsGathered(dir: Directory, name: Slice, pointers: seq<Pointer>, v: Version, edits: seq<Fields>)
    requires LevelsExist(pointers) && Replays(dir, name, v, edits)
    ensures var g := GatherAll(dir, name, Manifest(dir, name, pointers, v, edits), FRESH);
            && g.ok && g.counters == AllAfter(Begun(pointers), edits) && |g.levels| == NUM_LEVELS
            && Saved(g.levels) == Current(dir, v, edits)
  {
    var all := [SnapshotOf(dir, name, pointers, v)] + edits;
    SnapshotThenEdits(dir, name, pointers, v, edits);
    EditsAreGathered(dir, name, all, FRESH);
    BuiltIsCurrent(dir, name, pointers, v, edits, GatherAll(dir, name, RecordsOf(Encoded, all), FRESH).levels);
  }

  lemma BuiltIsCurrent(dir: Directory, name: Slice, pointers: seq<Pointer>, v: Version, edits: seq<Fields>,
                       levels: seq<LevelState>)
    requires Replays(dir, name, v, edits)
             && Builds(dir, FRESH.levels, [SnapshotOf(dir, name, pointers, v)] + edits, levels)
    ensures |levels| == NUM_LEVELS && Saved(levels) == Current(dir, v, edits)
  {
    forall l: nat | l < NUM_LEVELS ensures Saved(levels)[l] == ApplyEach(v[l], LevelEdits(dir, edits, l)) {
      LevelRebuilt(dir, name, pointers, v, edits, l);
    }
  }

  /** The state of a version set after the first `n` edits. */
  function SettledAt(dir: Directory, pointers: seq<Pointer>, v: Version, edits: seq<Fields>, n: nat): Option<Recovered>
    requires 0 < n <= |edits| && Complete(edits[n - 1])
  {
    var f := edits[n - 1];
    Some(Recovered(Current(dir, v, edits[..n]), f.logNumber.value, f.prevLogNumber.value, f.nextFile.value,
        f.lastSequence.value,
                   AllAfter(Begun(pointers), edits[..n]).pointers))
  }

  /** Whatever the byte at which a manifest is cut off, recovery makes the version of the edits
      whose records are complete, with the counters of the last of them; it fails when not
      even the first edit after the snapshot is complete. */
  lemma CutManifestRecovers(step: Log.Step, dir: Directory, name: Slice, pointers: seq<Pointer>, v: Version,
                            edits: seq<Fields>, cut: nat)
    requires LevelsExist(pointers) && Replays(dir, name, v, edits)
    requires cut <= |Log.Stream(step, Manifest(dir, name, pointers, v, edits))|
    ensures var records := Manifest(dir, name, pointers, v, edits);
            var k := LogCuts.Fits(records, 0, cut);
            var g := ReadBack(step, dir, name, Log.Stream(step, records)[..cut]);
            && g.ok
            && Settled(g) == (if k < 2 then None else SettledAt(dir, pointers, v, edits, k - 1))
            && |Log.Stream(step, records[..k])| <= cut
            && (k <= |edits| ==> cut < |Log.Stream(step, records[..k + 1])|)
  {
    var records := Manifest(dir, name, pointers, v, edits);
    var k := LogCuts.Fits(records, 0, cut);
    CutIsGathered(step, dir, name, records, cut);
    CompleteSettle(dir, name, pointers, v, edits, k);
  }

  lemma CompleteSettle(dir: Directory, name: Slice, pointers: seq<Pointer>, v: Version, edits: seq<Fields>, k: nat)
    requires LevelsExist(pointers) && Replays(dir, name, v, edits) && k <= |edits| + 1
    ensures var g := GatherAll(dir, name, Manifest(dir, name, pointers, v, edits)[..k], FRESH);
            && g.ok && |g.levels| == NUM_LEVELS
            && Settled(g) == (if k < 2 then None else SettledAt(dir, pointers, v, edits, k - 1))
  {
    if k > 0 {
      PrefixSettles(dir, name, pointers, v, edits, k - 1);
    }
  }

  lemma CutIsGathered(step: Log.Step, dir: Directory, name: Slice, records: seq<Bytes>, cut: nat)
    requires cut <= |Log.Stream(step, records)|
    ensures var k := LogCuts.Fits(records, 0, cut);
            && ReadBack(step, dir, name, Log.Stream(step, records)[..cut])
               == GatherAll(dir, name, records[..k], FRESH)
            && |Log.Stream(step, records[..k])| <= cut
            && (k < |records| ==> cut < |Log.Stream(step, records[..k + 1])|)
  {
    LogCuts.CutLogReads(step, true, records, cut);
    ScannedGathers(dir, name, Input(step, true, Log.Stream(step, records)[..cut]), START,
                   records[..LogCuts.Fits(records, 0, cut)], FRESH);
  }

  lemma PrefixSettles(dir: Directory, name: Slice, pointers: seq<Pointer>, v: Version, edits: seq<Fields>, n: nat)
    requires LevelsExist(pointers) && Replays(dir, name, v, edits) && n <= |edits|
    ensures var g := GatherAll(dir, name, Manifest(dir, name, pointers, v, edits)[..n + 1], FRESH);
            && |g.levels| == NUM_LEVELS && g.ok
            && Settled(g) == (if n == 0 then None else SettledAt(dir, pointers, v, edits, n))
  {
    var done := edits[..n];
    ReplaysPrefix(dir, name, v, edits, n);
    ManifestPrefix(dir, name, pointers, v, edits, n);
    ManifestIsGathered(dir, name, pointers, v, done);
    if n > 0 {
      AllAfterLast(Begun(pointers), done);
    }
  }

  lemma ManifestPrefix(dir: Directory, name: Slice, pointers: seq<Pointer>, v: Version, edits: seq<Fields>, n: nat)
    requires n <= |edits|
    ensures Manifest(dir, name, pointers, v, edits)[..n + 1] == Manifest(dir, name, pointers, v, edits[..n])
  {
    assert ([SnapshotOf(dir, name, pointers, v)] + edits)[..n + 1] == [SnapshotOf(dir, name, pointers, v)] + edits[..n];
  }
}
