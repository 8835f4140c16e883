/** What is on disk at every moment: versions that read like the writes that they cover. */
module Durability {
  import opened Keys
  import opened Versions
  import opened History
  import opened Layers

  /** The version reads like the writes, from the smallest sequence number on that its merges ran
      for. */
  ghost predicate Durable(ops: seq<Op>, v: Version, floor: nat) {
    Entries(v) <= EntriesOf(ops) && SameReads(EntriesOf(ops), Entries(v), floor)
  }

  /** What is written after the first `n` operations. */
  ghost function WrittenFrom(ops: seq<Op>, n: nat): set<Entry> {
    set i | n <= i < |ops| :: EntryOf(ops, i)
  }

  lemma EntriesSplit(ops: seq<Op>, n: nat)
    requires n <= |ops|
    ensures EntriesOf(ops) == EntriesOf(ops[..n]) + WrittenFrom(ops, n)
    ensures NewerSet(WrittenFrom(ops, n), EntriesOf(ops[..n]))
  {
    assert forall i | 0 <= i < n :: EntryOf(ops[..n], i) == EntryOf(ops, i);
    forall e ensures e in EntriesOf(ops) <==> e in EntriesOf(ops[..n]) + WrittenFrom(ops, n) {
      if i :| 0 <= i < |ops| && EntryOf(ops, i) == e {
        if i < n { assert EntryOf(ops[..n], i) == e; }
      }
    }
  }

  lemma OneMoreWritten(ops: seq<Op>, op: Op, n: nat)
    requires n <= |ops|
    ensures WrittenFrom(ops + [op], n) == WrittenFrom(ops, n) + {Record(op, |ops| + 1)}
  {
    var more := ops + [op];
    assert forall i | n <= i < |ops| :: EntryOf(more, i) == EntryOf(ops, i);
    assert EntryOf(more, |ops|) == Record(op, |ops| + 1);
    forall e ensures e in WrittenFrom(more, n) <==> e in WrittenFrom(ops, n) + {Record(op, |ops| + 1)} {
      if e in WrittenFrom(ops, n) {
        var i :| n <= i < |ops| && EntryOf(ops, i) == e;
        assert EntryOf(more, i) == e;
      }
    }
  }

  /** Later entries on top, of a version that reads like the earlier writes. */
  lemma DurableWithLater(ops: seq<Op>, n: nat, v: Version, floor: nat)
    requires n <= |ops| && Durable(ops[..n], v, floor)
    ensures SameReads(EntriesOf(ops), WrittenFrom(ops, n) + Entries(v), floor)
  {
    var base, later := EntriesOf(ops[..n]), WrittenFrom(ops, n);
    EntriesSplit(ops, n);
    HistoryIsUnique(ops);
    assert later + base == EntriesOf(ops);
    ReplaceOldest(later, base, Entries(v), floor);
  }

  /** A flush of what was written since keeps the version durable, for all writes up to then. */
  lemma FlushIsDurable(ops: seq<Op>, n: nat, v: Version, w: Version, floor: nat)
    requires n <= |ops| && Durable(ops[..n], v, floor) && Entries(w) == Entries(v) + WrittenFrom(ops, n)
    ensures Durable(ops, w, floor)
  {
    EntriesSplit(ops, n);
    DurableWithLater(ops, n, v, floor);
    assert WrittenFrom(ops, n) + Entries(v) == Entries(w);
  }

  /** So does a merge that uncovers nothing. */
  lemma MergeIsDurable(ops: seq<Op>, v: Version, w: Version, floor: nat, floor': nat)
    requires Durable(ops, v, floor) && floor <= floor' && Entries(w) <= Entries(v)
             && SameReads(Entries(v), Entries(w), floor')
    ensures Durable(ops, w, floor')
  {
    SameReadsTransitive(EntriesOf(ops), Entries(v), Entries(w), floor, floor');
  }

  // ----- Over a run of the store -------------------------------------------------------------------------

  /** A version that was installed: how many writes it covers, the smallest sequence number that
      its merges ran for, and the last one when it was installed. */
  datatype Point = Point(version: Version, flushed: nat, floor: nat, last: nat)

  ghost predicate IsDurable(p: Point, ops: seq<Op>) {
    p.flushed <= p.last <= |ops| && p.floor <= p.last && Durable(ops[..p.flushed], p.version, p.floor)
  }

  ghost predicate AllDurable(past: seq<Point>, ops: seq<Op>) {
    forall p | p in past :: IsDurable(p, ops)
  }

  lemma MoreWrites(past: seq<Point>, ops: seq<Op>, more: seq<Op>)
    requires AllDurable(past, ops)
    ensures AllDurable(past, ops + more)
  {
    forall p | p in past ensures IsDurable(p, ops + more) {
      assert IsDurable(p, ops);
      assert (ops + more)[..p.flushed] == ops[..p.flushed];
    }
  }

  lemma OneMorePoint(past: seq<Point>, p: Point, ops: seq<Op>)
    requires AllDurable(past, ops) && IsDurable(p, ops)
    ensures AllDurable(past + [p], ops)
  {
  }

  /** The memtables hold what no table has: the immutable one the writes from `flushed` to
      `switched`, the other one those from there on. */
  ghost predicate Buffered(mem: set<Entry>, imm: set<Entry>, ops: seq<Op>, flushed: nat, switched: nat) {
    flushed <= switched <= |ops| && imm == WrittenFrom(ops[..switched], flushed) && mem == WrittenFrom(ops, switched)
  }

  lemma BufferedWrites(mem: set<Entry>, imm: set<Entry>, ops: seq<Op>, flushed: nat, switched: nat, more: seq<Op>)
    requires Buffered(mem, imm, ops, flushed, switched)
    ensures Buffered(mem + WrittenFrom(ops + more, |ops|), imm, ops + more, flushed, switched)
  {
    assert (ops + more)[..switched] == ops[..switched];
    assert forall i | switched <= i < |ops| :: EntryOf(ops + more, i) == EntryOf(ops, i);
    forall e ensures e in WrittenFrom(ops + more, switched) <==> e in mem + WrittenFrom(ops + more, |ops|) {
      if e in WrittenFrom(ops + more, switched) {
        var i :| switched <= i < |ops + more| && EntryOf(ops + more, i) == e;
        if i < |ops| { assert EntryOf(ops, i) == e; }
      }
      if e in mem {
        var i :| switched <= i < |ops| && EntryOf(ops, i) == e;
        assert EntryOf(ops + more, i) == e;
      }
    }
  }

  lemma BufferedSwitch(mem: set<Entry>, ops: seq<Op>, flushed: nat)
    requires Buffered(mem, {}, ops, flushed, flushed)
    ensures Buffered({}, mem, ops, flushed, |ops|)
  {
    assert ops[..|ops|] == ops;
  }

  lemma BufferedFlush(mem: set<Entry>, imm: set<Entry>, ops: seq<Op>, flushed: nat, switched: nat)
    requires Buffered(mem, imm, ops, flushed, switched)
    ensures Buffered(mem, {}, ops, switched, switched)
  {
  }

  /** A flushed table makes the version cover what the immutable memtable had. */
  lemma FlushedPoint(p: Point, w: Version, mem: set<Entry>, imm: set<Entry>, ops: seq<Op>, switched: nat)
    requires IsDurable(p, ops) && Buffered(mem, imm, ops, p.flushed, switched) && Entries(w) == Entries(p.version) + imm
    ensures IsDurable(Point(w, switched, p.floor, |ops|), ops)
  {
    assert ops[..switched][..p.flushed] == ops[..p.flushed];
    FlushIsDurable(ops[..switched], p.flushed, p.version, w, p.floor);
  }

  lemma MergedPoint(p: Point, w: Version, ops: seq<Op>, floor: nat)
    requires IsDurable(p, ops) && p.floor <= floor <= |ops| && Entries(w) <= Entries(p.version)
             && SameReads(Entries(p.version), Entries(w), floor)
    ensures IsDurable(Point(w, p.flushed, floor, |ops|), ops)
  {
    MergeIsDurable(ops[..p.flushed], p.version, w, p.floor, floor);
  }
}
