/** What is read from a log that is damaged: any bytes. */
module LogDamage {
  import opened Coding
  import opened Keys
  import opened Log
  import opened LogFragments
  import opened LogRecords

  /** All fragments that a reader gets, up to the end of the file or to a fragment that says it is. */
  function FragmentsFrom(log: Input, s: Scan): seq<Fragment>
    requires InFile(log, s)
    decreases |log.file| - s.pos
  {
    var f := NextFragment(log, s);
    if f.code == EOF then [] else [f] + FragmentsFrom(log, f.scan)
  }

  function PayloadOf(fs: seq<Fragment>): Bytes {
    if fs == [] then [] else fs[0].payload + PayloadOf(fs[1..])
  }

  // ----- Which records there are -----------------------------------------------------------------------

  /** How many of the fragments are the rest of a record: those up to the last one, if there are
      only middle ones before it; or none. */
  function RestLength(fs: seq<Fragment>): (n: nat)
    ensures n <= |fs|
  {
    if fs == [] then 0
    else if fs[0].code == LAST_TYPE then 1
    else if fs[0].code == MIDDLE_TYPE && RestLength(fs[1..]) > 0 then 1 + RestLength(fs[1..])
    else 0
  }

  /** How many of the fragments are a record: one, or a first one and the rest; or none. */
  function RunLength(fs: seq<Fragment>): (n: nat)
    ensures n <= |fs|
  {
    if fs == [] then 0
    else if fs[0].code == FULL_TYPE then 1
    else if fs[0].code == FIRST_TYPE && RestLength(fs[1..]) > 0 then 1 + RestLength(fs[1..])
    else 0
  }

  /** The records that are whole. */
  function WholeRecords(fs: seq<Fragment>): seq<Bytes> {
    if fs == [] then []
    else (if RunLength(fs) > 0 then [PayloadOf(fs[..RunLength(fs)])] else []) + WholeRecords(fs[1..])
  }

  /** What is still to come of a record that has begun. */
  function Unfinished(fs: seq<Fragment>, scratch: Bytes, fragmented: bool): seq<Bytes> {
    if fragmented && RestLength(fs) > 0 then [scratch + PayloadOf(fs[..RestLength(fs)])] else []
  }

  function Collect(fs: seq<Fragment>, scratch: Bytes, fragmented: bool): seq<Bytes> {
    if fs == [] then []
    else match Handle(fs[0].code, fs[0].payload, scratch, fragmented)
      case Done(None, _) => []
      case Done(Some(record), _) => [record] + Collect(fs[1..], [], false)
      case More(kept, inside, _) => Collect(fs[1..], kept, inside)
  }

  ghost predicate NoneEnds(fs: seq<Fragment>) {
    forall f | f in fs :: f.code != EOF
  }

  lemma OneMorePayload(fs: seq<Fragment>, n: nat)
    requires fs != [] && n < |fs|
    ensures PayloadOf(fs[..n + 1]) == fs[0].payload + PayloadOf(fs[1..][..n])
  {
    assert fs[..n + 1][1..] == fs[1..][..n];
  }

  /** What is whole after a fragment. */
  function Whole(o: Outcome, rest: seq<Fragment>): seq<Bytes> {
    match o
    case Done(None, _) => []
    case Done(Some(record), _) => [record] + WholeRecords(rest)
    case More(kept, inside, _) => Unfinished(rest, kept, inside) + WholeRecords(rest)
  }

  function Collected(o: Outcome, rest: seq<Fragment>): seq<Bytes> {
    match o
    case Done(None, _) => []
    case Done(Some(record), _) => [record] + Collect(rest, [], false)
    case More(kept, inside, _) => Collect(rest, kept, inside)
  }

  lemma CollectStep(fs: seq<Fragment>, f: Fragment, rest: seq<Fragment>, scratch: Bytes, fragmented: bool)
    requires fs == [f] + rest && (!fragmented ==> scratch == [])
    ensures var o := Handle(f.code, f.payload, scratch, fragmented);
            && Collect(fs, scratch, fragmented) == Collected(o, rest)
            && (o.More? && !o.fragmented ==> o.scratch == [])
  {
    assert fs[1..] == rest;
  }

  /** One fragment, in terms of what is whole. */
  lemma WholeStep(fs: seq<Fragment>, f: Fragment, rest: seq<Fragment>, scratch: Bytes, fragmented: bool)
    requires fs == [f] + rest && f.code != EOF && (!fragmented ==> scratch == [])
    ensures Unfinished(fs, scratch, fragmented) + WholeRecords(fs)
         == Whole(Handle(f.code, f.payload, scratch, fragmented), rest)
  {
    assert fs[1..] == rest && rest[..0] == [];
    OneMorePayload(fs, 0);
    OneMorePayload(fs, RestLength(rest));
    var more := PayloadOf(rest[..RestLength(rest)]);
    assert f.payload + [] == f.payload && scratch + (f.payload + more) == (scratch + f.payload) + more;
  }

  lemma {:induction false} CollectsWhole(fs: seq<Fragment>, scratch: Bytes, fragmented: bool)
    requires NoneEnds(fs) && (!fragmented ==> scratch == [])
    ensures Collect(fs, scratch, fragmented) == Unfinished(fs, scratch, fragmented) + WholeRecords(fs)
  {
    if fs != [] {
      var f, rest := fs[0], fs[1..];
      assert f in fs && forall g | g in rest :: g in fs;
      WholeStep(fs, f, rest, scratch, fragmented);
      CollectStep(fs, f, rest, scratch, fragmented);
      match Handle(f.code, f.payload, scratch, fragmented)
      case Done(_, _) => CollectsWhole(rest, [], false);
      case More(kept, inside, _) => CollectsWhole(rest, kept, inside);
    }
  }

  // ----- The reader collects ---------------------------------------------------------------------------

  lemma {:induction false} FragmentsDoNotEnd(log: Input, s: Scan)
    requires InFile(log, s)
    ensures NoneEnds(FragmentsFrom(log, s))
    decreases |log.file| - s.pos
  {
    var f := NextFragment(log, s);
    if f.code != EOF { FragmentsDoNotEnd(log, f.scan); }
  }

  lemma {:induction false} NextCollects(log: Input, s: Scan, scratch: Bytes, fragmented: bool)
    requires InFile(log, s)
    ensures Collect(FragmentsFrom(log, s), scratch, fragmented)
         == (var r := NextRecord(log, s, scratch, fragmented);
             if r.record.Some? then [r.record.value] + Collect(FragmentsFrom(log, r.scan), [], false) else [])
    decreases |log.file| - s.pos
  {
    var f := NextFragment(log, s);
    match Handle(f.code, f.payload, scratch, fragmented)
    case Done(_, _) =>
    case More(kept, inside, _) => NextCollects(log, f.scan, kept, inside);
  }

  lemma {:induction false} ReaderCollects(log: Input, s: Scan)
    requires InFile(log, s)
    ensures ReadAll(log, s).records == Collect(FragmentsFrom(log, s), [], false)
    decreases |log.file| - s.pos
  {
    NextCollects(log, s, [], false);
    var r := NextRecord(log, s, [], false);
    if r.record.Some? { ReaderCollects(log, r.scan); }
  }

  /** Whatever the bytes are, the records that are read are those whose fragments follow each other,
      all of them and in order. */
  lemma ReadsWholeRecords(log: Input, s: Scan)
    requires InFile(log, s)
    ensures ReadAll(log, s).records == WholeRecords(FragmentsFrom(log, s))
  {
    ReaderCollects(log, s);
    FragmentsDoNotEnd(log, s);
    CollectsWhole(FragmentsFrom(log, s), [], false);
  }

  // ----- Nothing but what was written ------------------------------------------------------------------

  /** The fragment stands in the file with its length and its checksum. */
  ghost predicate Genuine(log: Input, f: Fragment) {
    var pos := f.scan.pos - HEADER_SIZE - |f.payload|;
    && 0 <= pos && f.scan.pos <= |log.file| && f.payload == log.file[pos + HEADER_SIZE..f.scan.pos]
    && log.file[pos + 6] == f.code && PayloadLength(log.file[pos..pos + HEADER_SIZE]) == |f.payload|
    && (log.checksum ==> Unmask(DecodeFixed32(log.file[pos..pos + 4]))
                         == Checksum(log.step, [log.file[pos + 6]] + f.payload))
  }

  /** A fragment that fits into the buffer and is not refused. */
  ghost predicate Accepted(log: Input, s: Scan)
    requires InFile(log, s) && s.end - s.pos >= HEADER_SIZE
  {
    var b := log.file[s.pos..s.end];
    var length := PayloadLength(b);
    && HEADER_SIZE + length <= |b| && (b[6] != 0 || length != 0)
    && (log.checksum ==> Unmask(DecodeFixed32(b[..4])) == Checksum(log.step, b[6..HEADER_SIZE + length]))
  }

  lemma AcceptedIsGenuine(log: Input, s: Scan)
    requires InFile(log, s) && s.end - s.pos >= HEADER_SIZE && Accepted(log, s)
    ensures Genuine(log, ParseFragment(log, s))
  {
    var b, pos, n := log.file[s.pos..s.end], s.pos, HEADER_SIZE + PayloadLength(log.file[s.pos..s.end]);
    SliceOfSlice(log.file, pos, s.end, HEADER_SIZE, n);
    SliceOfSlice(log.file, pos, s.end, 0, 4);
    assert b[6..n] == [b[6]] + b[HEADER_SIZE..n];
    var header := log.file[pos..pos + HEADER_SIZE];
    assert header[4] == b[4] && header[5] == b[5] && log.file[pos + 6] == b[6];
  }

  lemma ParsedIsGenuine(log: Input, s: Scan)
    requires InFile(log, s) && s.end - s.pos >= HEADER_SIZE
    ensures var f := ParseFragment(log, s); f.payload != [] || f.code !in {EOF, BAD_RECORD} ==> Genuine(log, f)
    ensures var f := ParseFragment(log, s); f.code == EOF ==> f.scan.eof || Genuine(log, f)
  {
    if Accepted(log, s) { AcceptedIsGenuine(log, s); }
  }

  lemma {:induction false} NextIsGenuine(log: Input, s: Scan)
    requires InFile(log, s)
    ensures var f := NextFragment(log, s); f.payload != [] || f.code !in {EOF, BAD_RECORD} ==> Genuine(log, f)
    decreases |log.file| - s.end, !s.eof
  {
    if s.end - s.pos >= HEADER_SIZE {
      ParsedIsGenuine(log, s);
    } else if !s.eof {
      NextIsGenuine(log, Refill(log, s));
    }
  }

  /** No record has a byte that does not come from a fragment with the right checksum. */
  lemma {:induction false} FragmentsAreGenuine(log: Input, s: Scan, f: Fragment)
    requires InFile(log, s) && f in FragmentsFrom(log, s)
    ensures f.payload != [] || f.code != BAD_RECORD ==> Genuine(log, f)
    decreases |log.file| - s.pos
  {
    var next := NextFragment(log, s);
    NextIsGenuine(log, s);
    if f != next { FragmentsAreGenuine(log, next.scan, f); }
  }

  // ----- Reports ---------------------------------------------------------------------------------------

  function Sum(ns: seq<nat>): nat {
    if ns == [] then 0 else ns[0] + Sum(ns[1..])
  }

  lemma {:induction false} SumOfTwo(a: seq<nat>, b: seq<nat>)
    ensures Sum(a + b) == Sum(a) + Sum(b)
  {
    if a == [] {
      assert a + b == b;
    } else {
      assert (a + b)[1..] == a[1..] + b;
      SumOfTwo(a[1..], b);
    }
  }

  function Lengths(records: seq<Bytes>): nat {
    if records == [] then 0 else |records[0]| + Lengths(records[1..])
  }

  /** The bytes of the fragments, and those that they report themselves. */
  function BytesRead(fs: seq<Fragment>): nat {
    if fs == [] then 0 else |fs[0].payload| + Sum(fs[0].drops) + BytesRead(fs[1..])
  }

  /** The bytes that go unreported: of a record that has no end when the log ends, and of fragments
      that look like reports of damage themselves. */
  function Silent(fs: seq<Fragment>, scratch: Bytes, fragmented: bool): nat {
    if fs == [] then |scratch|
    else match Handle(fs[0].code, fs[0].payload, scratch, fragmented)
      case Done(_, _) => Silent(fs[1..], [], false)
      case More(kept, inside, _) =>
        Silent(fs[1..], kept, inside) + if fs[0].code == BAD_RECORD then |fs[0].payload| else 0
  }

  lemma EndReportsNothing(log: Input, s: Scan)
    requires InFile(log, s) && NextFragment(log, s).code == EOF
    ensures NextFragment(log, s).drops == []
    decreases |log.file| - s.end, !s.eof
  {
    if s.end - s.pos < HEADER_SIZE && !s.eof { EndReportsNothing(log, Refill(log, s)); }
  }

  /** What is left to account for behind a record. */
  function Left(log: Input, r: Record): int
    requires InFile(log, r.scan)
  {
    if r.record == None then 0
    else
      var fs := FragmentsFrom(log, r.scan);
      |r.record.value| + BytesRead(fs) - Silent(fs, [], false)
  }

  /** The bytes that are in play when the record `r` is put together from `scratch` and `fs`. */
  ghost predicate Accounted(log: Input, fs: seq<Fragment>, scratch: Bytes, fragmented: bool, r: Record)
    requires InFile(log, r.scan)
  {
    |scratch| + BytesRead(fs) == Sum(r.drops) + Silent(fs, scratch, fragmented) + Left(log, r)
  }

  lemma {:induction false} NextAccounts(log: Input, s: Scan, scratch: Bytes, fragmented: bool)
    requires InFile(log, s) && (!fragmented ==> scratch == [])
    ensures Accounted(log, FragmentsFrom(log, s), scratch, fragmented, NextRecord(log, s, scratch, fragmented))
    decreases |log.file| - s.pos
  {
    var f := NextFragment(log, s);
    HandleAccounts(f.code, f.payload, scratch, fragmented);
    match Handle(f.code, f.payload, scratch, fragmented)
    case Done(record, drops) =>
      if f.code == EOF { EndReportsNothing(log, s); }
      DoneAccounts(log, f, FragmentsFrom(log, f.scan), record, drops, scratch, fragmented);
    case More(kept, inside, drops) =>
      var r := NextRecord(log, f.scan, kept, inside);
      NextAccounts(log, f.scan, kept, inside);
      MoreAccounts(log, f, FragmentsFrom(log, f.scan), kept, inside, drops, r, scratch, fragmented);
  }

  lemma DoneAccounts(log: Input, f: Fragment, rest: seq<Fragment>, record: Option<Bytes>, drops: seq<nat>,
                     scratch: Bytes, fragmented: bool)
    requires InFile(log, f.scan) && rest == FragmentsFrom(log, f.scan)
    requires Handle(f.code, f.payload, scratch, fragmented) == Done(record, drops)
    requires if f.code == EOF then f.drops == []
             else record.Some? && |scratch| + |f.payload| == |record.value| + Sum(drops)
    ensures Accounted(log, if f.code == EOF then [] else [f] + rest, scratch, fragmented,
                      Record(record, f.scan, f.drops + drops))
  {
    SumOfTwo(f.drops, drops);
    if f.code != EOF { assert ([f] + rest)[1..] == rest; }
  }

  lemma MoreAccounts(log: Input, f: Fragment, rest: seq<Fragment>, kept: Bytes, inside: bool, drops: seq<nat>,
                     r: Record, scratch: Bytes, fragmented: bool)
    requires InFile(log, r.scan) && Accounted(log, rest, kept, inside, r)
    requires Handle(f.code, f.payload, scratch, fragmented) == More(kept, inside, drops)
    requires |scratch| + |f.payload| == |kept| + Sum(drops) + if f.code == BAD_RECORD then |f.payload| else 0
    ensures Accounted(log, [f] + rest, scratch, fragmented, r.(drops := f.drops + drops + r.drops))
  {
    SumOfThree(f.drops, drops, r.drops);
    assert ([f] + rest)[1..] == rest;
  }

  lemma SumOfThree(a: seq<nat>, b: seq<nat>, c: seq<nat>)
    ensures Sum(a + b + c) == Sum(a) + Sum(b) + Sum(c)
  {
    SumOfTwo(a, b);
    SumOfTwo(a + b, c);
  }

  /** A fragment's bytes and those before it are kept or reported, or the fragment is silent. */
  lemma HandleAccounts(code: nat, payload: Bytes, scratch: Bytes, fragmented: bool)
    requires !fragmented ==> scratch == []
    ensures match Handle(code, payload, scratch, fragmented)
            case Done(record, drops) =>
              code != EOF ==> record.Some? && |scratch| + |payload| == |record.value| + Sum(drops)
            case More(kept, inside, drops) =>
              (!inside ==> kept == [])
              && |scratch| + |payload| == |kept| + Sum(drops) + if code == BAD_RECORD then |payload| else 0
  {
    assert Sum([|scratch|]) == |scratch| && Sum([|payload|]) == |payload|;
  }

  /** Every byte of the fragments is in a record or is reported, but for those that are silent. */
  lemma {:induction false} BytesAreAccountedFor(log: Input, s: Scan)
    requires InFile(log, s)
    ensures var all := ReadAll(log, s); var fs := FragmentsFrom(log, s);
            BytesRead(fs) == Lengths(all.records) + Sum(all.drops) + Silent(fs, [], false)
    decreases |log.file| - s.pos
  {
    NextAccounts(log, s, [], false);
    var r := NextRecord(log, s, [], false);
    if r.record.Some? {
      BytesAreAccountedFor(log, r.scan);
      SumOfTwo(r.drops, ReadAll(log, r.scan).drops);
    }
  }

  // ----- Damage stays in its block ---------------------------------------------------------------------

  /** The reader gives up in the last block only, or at a fragment whose type says so. */
  lemma GivesUpAtEnd(log: Input, s: Scan)
    requires InFile(log, s) && NextFragment(log, s).code == EOF
    ensures NextFragment(log, s).scan.eof || Genuine(log, NextFragment(log, s))
    decreases |log.file| - s.end, !s.eof
  {
    if s.end - s.pos >= HEADER_SIZE {
      ParsedIsGenuine(log, s);
    } else if !s.eof {
      GivesUpAtEnd(log, Refill(log, s));
    }
  }

  /** The reader comes as far as the end of the block at `e`. */
  ghost predicate Reaches(log: Input, s: Scan, e: nat)
    requires InFile(log, s)
    decreases |log.file| - s.pos
  {
    if s.end == e && e - s.pos < HEADER_SIZE then !s.eof
    else NextFragment(log, s).code != EOF && Reaches(log, NextFragment(log, s).scan, e)
  }

  /** Where the blocks end, up to `e`. */
  predicate Aligned(log: Input, s: Scan, e: nat) {
    InFile(log, s) && !s.eof && s.end <= e <= |log.file| && (e - s.end) % BLOCK_SIZE == 0
  }

  lemma NextStaysAligned(log: Input, s: Scan, e: nat)
    requires Aligned(log, s, e) && (s.end < e || e - s.pos >= HEADER_SIZE)
    ensures Aligned(log, NextFragment(log, s).scan, e)
    decreases |log.file| - s.end
  {
    if s.end - s.pos < HEADER_SIZE {
      var t := Refill(log, s);
      assert (e - s.end) % BLOCK_SIZE == (e - s.end - BLOCK_SIZE) % BLOCK_SIZE;
      assert t == Scan(s.end, s.end + BLOCK_SIZE, false);
    }
  }

  /** Only a fragment that says that it is the end keeps the reader from getting there. */
  lemma {:induction false} ReachesUnlessEnd(log: Input, s: Scan, e: nat) returns (f: Fragment)
    requires Aligned(log, s, e) && !Reaches(log, s, e)
    ensures f.code == EOF && Genuine(log, f) && f.scan.end <= e
    decreases |log.file| - s.pos
  {
    f := NextFragment(log, s);
    NextStaysAligned(log, s, e);
    if f.code == EOF {
      GivesUpAtEnd(log, s);
    } else {
      f := ReachesUnlessEnd(log, f.scan, e);
    }
  }

  lemma MoreIsWhole(fs: seq<Fragment>, f: Fragment) returns (front: seq<Bytes>)
    ensures WholeRecords([f] + fs) == front + WholeRecords(fs)
  {
    var all := [f] + fs;
    assert all[1..] == fs;
    front := if RunLength(all) > 0 then [PayloadOf(all[..RunLength(all)])] else [];
  }

  /** What begins behind the block is read as if nothing stood before it. */
  lemma {:induction false} ReadingResumes(log: Input, s: Scan, e: nat) returns (front: seq<Bytes>)
    requires InFile(log, s) && e <= |log.file| && Reaches(log, s, e)
    ensures WholeRecords(FragmentsFrom(log, s)) == front + WholeRecords(FragmentsFrom(log, Scan(e, e, false)))
    decreases |log.file| - s.pos
  {
    if s.end == e && e - s.pos < HEADER_SIZE {
      front := [];
      assert NextFragment(log, s) == NextFragment(log, Scan(e, e, false));
    } else {
      var f := NextFragment(log, s);
      var more := ReadingResumes(log, f.scan, e);
      var first := MoreIsWhole(FragmentsFrom(log, f.scan), f);
      front := first + more;
    }
  }

  /** The files are the same from `e` on. */
  ghost predicate SameFrom(a: Input, b: Input, e: nat) {
    a.step == b.step && a.checksum == b.checksum && e <= |a.file| == |b.file| && a.file[e..] == b.file[e..]
  }

  lemma SameSlice(a: Bytes, b: Bytes, e: nat, i: nat, j: nat)
    requires e <= i <= j <= |a| == |b| && a[e..] == b[e..]
    ensures a[i..j] == b[i..j]
  {
    assert a[e..|a|] == a[e..] && b[e..|b|] == b[e..];
    SliceOfSlice(a, e, |a|, i - e, j - e);
    SliceOfSlice(b, e, |b|, i - e, j - e);
  }

  lemma {:induction false} SameNext(a: Input, b: Input, e: nat, s: Scan)
    requires SameFrom(a, b, e) && InFile(a, s) && e <= s.pos
    ensures NextFragment(a, s) == NextFragment(b, s)
    decreases |a.file| - s.end, !s.eof
  {
    if s.end - s.pos >= HEADER_SIZE {
      SameSlice(a.file, b.file, e, s.pos, s.end);
    } else if !s.eof {
      SameNext(a, b, e, Refill(a, s));
    }
  }

  lemma {:induction false} SameFragments(a: Input, b: Input, e: nat, s: Scan)
    requires SameFrom(a, b, e) && InFile(a, s) && e <= s.pos
    ensures FragmentsFrom(a, s) == FragmentsFrom(b, s)
    decreases |a.file| - s.pos
  {
    SameNext(a, b, e, s);
    var f := NextFragment(a, s);
    if f.code != EOF { SameFragments(a, b, e, f.scan); }
  }

  /** Whatever stands in the blocks up to `e`, if the reader gets there, it reads the same records
      from there on. */
  lemma DamageStaysInBlock(a: Input, b: Input, e: nat) returns (before: seq<Bytes>, before': seq<Bytes>,
                                                                after: seq<Bytes>)
    requires SameFrom(a, b, e) && Reaches(a, START, e) && Reaches(b, START, e)
    ensures ReadAll(a, START).records == before + after && ReadAll(b, START).records == before' + after
    ensures after == WholeRecords(FragmentsFrom(a, Scan(e, e, false)))
  {
    ReadsWholeRecords(a, START);
    ReadsWholeRecords(b, START);
    before := ReadingResumes(a, START, e);
    before' := ReadingResumes(b, START, e);
    after := WholeRecords(FragmentsFrom(a, Scan(e, e, false)));
    SameFragments(a, b, e, Scan(e, e, false));
  }
}
