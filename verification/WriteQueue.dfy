/** The queue of writers. The writer in front logs and applies a group of batches for itself
    and for some of those that wait behind it. */
module WriteQueue {
  import opened Coding
  import opened Log
  import LogFragments
  import LogCuts
  import LogWriter
  import opened WriteBatches
  import opened Recovery
  import opened Crash

  /** A call of Write that waits; without a batch it only wants room in the memtable. */
  datatype Waiting = Waiting(id: nat, batch: WriteBatch?, sync: bool)

  /** The same as a value. */
  datatype Offer = Offer(batch: bool, updates: seq<Update>, size: nat, sync: bool)

  ghost predicate Offers(w: Waiting, o: Offer)
    reads w.batch
  {
    && o.sync == w.sync && o.batch == (w.batch != null)
    && if w.batch != null then w.batch.Valid() && o.updates == w.batch.updates && o.size == |w.batch.rep|
       else o.updates == [] && o.size == 0
  }

  ghost predicate AllOffer(ws: seq<Waiting>, os: seq<Offer>)
    reads set w | w in ws && w.batch != null :: w.batch
  {
    |os| == |ws| && forall i | 0 <= i < |ws| :: Offers(ws[i], os[i])
  }

  function UpdatesIn(os: seq<Offer>): seq<Update> {
    if os == [] then [] else UpdatesIn(os[..|os| - 1]) + os[|os| - 1].updates
  }

  function SizeOf(os: seq<Offer>): nat {
    if os == [] then 0 else SizeOf(os[..|os| - 1]) + os[|os| - 1].size
  }

  /** A small write does not wait for a large group. */
  function MaxSize(size: nat): nat {
    if size <= 0x2_0000 then size + 0x2_0000 else 0x10_0000
  }

  /** May the writer at `n` join those before it? */
  predicate Joins(os: seq<Offer>, n: nat)
    requires n < |os|
  {
    && (os[n].sync ==> os[0].sync)
    && (os[n].batch ==> SizeOf(os[..n + 1]) <= MaxSize(os[0].size))
  }

  ghost predicate AllJoin(os: seq<Offer>, n: nat)
    requires n <= |os|
  {
    forall i: nat | 0 < i < n :: Joins(os, i)
  }

  /** The group that the writer in front takes care of. */
  ghost predicate IsGroup(os: seq<Offer>, n: nat) {
    && 0 < n <= |os|
    && AllJoin(os, n)
    && (n < |os| ==> !Joins(os, n))
  }

  lemma Grow(os: seq<Offer>, n: nat)
    requires n < |os|
    ensures UpdatesIn(os[..n + 1]) == UpdatesIn(os[..n]) + os[n].updates
    ensures SizeOf(os[..n + 1]) == SizeOf(os[..n]) + os[n].size
  {
    assert os[..n + 1][..n] == os[..n];
  }

  /** The loop keeps the size of the group as it goes. */
  lemma OneMoreJoins(os: seq<Offer>, n: nat, size: nat)
    requires 0 < n < |os| && AllJoin(os, n) && size == SizeOf(os[..n])
    ensures Joins(os, n) <==> (os[n].sync ==> os[0].sync) && (os[n].batch ==> size + os[n].size <= MaxSize(os[0].size))
    ensures Joins(os, n) ==> AllJoin(os, n + 1)
  {
    Grow(os, n);
  }

  // ----- How large a group may be --------------------------------------------------------------------

  /** The size is that of the batch. */
  ghost predicate Fair(o: Offer) {
    if o.batch then o.size == HEADER + |EncodeAll(o.updates)| else o.size == 0 && o.updates == []
  }

  ghost predicate AllFair(os: seq<Offer>) {
    forall i | 0 <= i < |os| :: Fair(os[i])
  }

  function Batches(os: seq<Offer>): nat {
    if os == [] then 0 else Batches(os[..|os| - 1]) + if os[|os| - 1].batch then 1 else 0
  }

  /** One batch for the group is no larger than its batches together. */
  lemma {:induction false} OneBatchIsSmaller(os: seq<Offer>)
    requires AllFair(os)
    ensures |EncodeAll(UpdatesIn(os))| + HEADER * Batches(os) == SizeOf(os)
  {
    if os != [] {
      var front, last := os[..|os| - 1], os[|os| - 1];
      OneBatchIsSmaller(front);
      assert Fair(last);
      FlatAppend(EncodeUpdate, UpdatesIn(front), last.updates);
    }
  }

  /** With one more batch in it, the group was admitted. */
  lemma {:induction false} SeveralFit(os: seq<Offer>, n: nat)
    requires 0 < n <= |os| && AllJoin(os, n) && AllFair(os) && os[0].batch
    ensures Batches(os[..n]) >= 1
    ensures if Batches(os[..n]) > 1 then SizeOf(os[..n]) <= MaxSize(os[0].size) else SizeOf(os[..n]) == os[0].size
  {
    if n == 1 {
      assert os[..1][..0] == [];
    } else {
      SeveralFit(os, n - 1);
      assert os[..n][..n - 1] == os[..n - 1] && Joins(os, n - 1) && Fair(os[n - 1]);
    }
  }

  /** More than one batch make a group of one megabyte at most, and of no more than 128 kilobytes
      beyond the leader when that brings no more itself. Who is left out brings a sync that the
      leader does not have, or would make the group too large. */
  ghost predicate InBounds(os: seq<Offer>, n: nat) {
    && 0 < n <= |os|
    && (Batches(os[..n]) > 1 ==>
          && SizeOf(os[..n]) <= 1048576
          && (os[0].size <= 131072 ==> SizeOf(os[..n]) <= os[0].size + 131072))
    && (n < |os| ==>
          || (os[n].sync && !os[0].sync)
          || (os[n].batch && SizeOf(os[..n]) + os[n].size > if os[0].size <= 131072 then os[0].size + 131072
                                                            else 1048576))
  }

  lemma GroupIsInBounds(os: seq<Offer>, n: nat)
    requires IsGroup(os, n) && AllFair(os) && os[0].batch
    ensures InBounds(os, n) && |EncodeAll(UpdatesIn(os[..n]))| + HEADER <= SizeOf(os[..n])
  {
    SeveralFit(os, n);
    OneBatchIsSmaller(os[..n]);
    if n < |os| { Grow(os, n); }
  }

  lemma {:induction false} FewerUpdates(os: seq<Offer>, n: nat)
    requires n <= |os|
    ensures |UpdatesIn(os[..n])| <= |UpdatesIn(os)|
  {
    if n == |os| {
      assert os[..n] == os;
    } else {
      var front := os[..|os| - 1];
      FewerUpdates(front, n);
      assert front[..n] == os[..n];
    }
  }

  /** What the loop knows after `n` writers: the group is in the caller's batch while that is
      the only one, and in the temporary batch otherwise. */
  ghost predicate Grouped(first: WriteBatch, tmp: WriteBatch, os: seq<Offer>, n: nat, size: nat, result: WriteBatch)
    requires n <= |os|
    reads first, tmp, result
  {
    && first != tmp && first.Valid() && tmp.Valid() && result.Valid()
    && size == SizeOf(os[..n]) && result.updates == UpdatesIn(os[..n])
    && (result == first || result == tmp) && (result == first ==> tmp.updates == [])
  }

  method AddToGroup(first: WriteBatch, w: Waiting, tmp: WriteBatch, size0: nat, result0: WriteBatch,
                    ghost os: seq<Offer>, ghost n: nat)
    returns (size: nat, result: WriteBatch)
    requires n < |os| && Grouped(first, tmp, os, n, size0, result0) && Offers(w, os[n]) && w.batch != tmp
    requires |UpdatesIn(os)| < 0x8000_0000
    modifies tmp
    ensures Grouped(first, tmp, os, n + 1, size, result)
  {
    size, result := size0, result0;
    Grow(os, n);
    FewerUpdates(os, n + 1);
    if w.batch != null {
      size := size + |w.batch.rep|;
      if result == first {
        result := tmp;
        result.Append(first);
      }
      result.Append(w.batch);
    }
  }

  /** The batches of the writers in front, as many as may join. */
  method BuildBatchGroup(ws: seq<Waiting>, tmp: WriteBatch, ghost os: seq<Offer>) returns (result: WriteBatch, n: nat)
    requires ws != [] && ws[0].batch != null && AllOffer(ws, os) && |UpdatesIn(os)| < 0x8000_0000
    requires tmp.Valid() && tmp.updates == [] && NoneIs(ws, tmp)
    modifies tmp
    ensures IsGroup(os, n) && result.Valid() && result.updates == UpdatesIn(os[..n])
    ensures result == ws[0].batch || result == tmp
    ensures result == ws[0].batch ==> tmp.Valid() && tmp.updates == []
    ensures AllOffer(ws, os)
    ensures InBounds(os, n) && |result.rep| <= SizeOf(os[..n])
  {
    var first := ws[0];
    result := first.batch;
    var size: nat := |first.batch.rep|;
    n := 1;
    assert Offers(first, os[0]);
    Grow(os, 0);
    while n < |ws| && (ws[n].sync ==> first.sync)
        && (ws[n].batch != null ==> size + |ws[n].batch.rep| <= MaxSize(|first.batch.rep|))
      invariant 0 < n <= |ws| && AllOffer(ws, os) && AllJoin(os, n)
      invariant Grouped(first.batch, tmp, os, n, size, result)
    {
      assert Offers(ws[n], os[n]) && Offers(first, os[0]);
      OneMoreJoins(os, n, size);
      size, result := AddToGroup(first.batch, ws[n], tmp, size, result, os, n);
      n := n + 1;
    }
    if n < |ws| {
      assert Offers(ws[n], os[n]) && Offers(first, os[0]);
      OneMoreJoins(os, n, size);
    }
    BuiltInBounds(ws, os, n, result);
  }

  lemma BuiltInBounds(ws: seq<Waiting>, os: seq<Offer>, n: nat, result: WriteBatch)
    requires IsGroup(os, n) && AllOffer(ws, os) && ws[0].batch != null
    requires result.Valid() && result.updates == UpdatesIn(os[..n])
    ensures InBounds(os, n) && |result.rep| <= SizeOf(os[..n])
  {
    OffersAreFair(ws, os);
    assert Offers(ws[0], os[0]);
    GroupIsInBounds(os, n);
    assert |result.rep| == HEADER + |EncodeAll(result.updates)|;
  }

  lemma OffersAreFair(ws: seq<Waiting>, os: seq<Offer>)
    requires AllOffer(ws, os)
    ensures AllFair(os)
  {
    forall i | 0 <= i < |os| ensures Fair(os[i]) { assert Offers(ws[i], os[i]); }
  }

  // ----- The queue ----------------------------------------------------------------------------------

  class Queue {
    const writer: LogWriter.Writer
    const tmp: WriteBatch
    /** The last sequence number when the log began. */
    const base: nat
    var writers: seq<Waiting>
    var mem: seq<Added>
    var lastSequence: nat
    /** For how many of the writers the one in front is at work, and with how many updates;
        meanwhile more writers may come, and readers read. */
    var working: nat
    var pending: nat

    /** Who came and who was released; what those brought who were released and those who wait;
        and the groups that went to the log. */
    ghost var arrived: seq<nat>
    ghost var released: seq<nat>
    ghost var past: seq<Offer>
    ghost var waiting: seq<Offer>
    ghost var groups: seq<seq<Update>>

    ghost predicate Valid()
      reads this, writer, tmp
    {
      && writer.Valid() && tmp.Valid() && tmp.updates == [] && NoneIs(writers, tmp)
      && arrived == released + Ids(writers) && |past| == |released| && |waiting| == |writers|
      && Holds(writer.step, writer.dest, mem, base, groups)
      && Tally(base, groups, past, waiting, working, lastSequence, pending)
    }

    /** Those who wait leave their batches alone. */
    ghost predicate BatchesKept()
      reads this`writers, this`waiting, set w | w in writers && w.batch != null :: w.batch
    {
      AllOffer(writers, waiting)
    }

    constructor (writer: LogWriter.Writer, base: nat)
      requires writer.Valid() && writer.dest == []
      ensures Valid() && this.writer == writer && this.base == base && groups == [] && writers == [] && fresh(tmp)
    {
      this.writer := writer;
      this.tmp := new WriteBatch();
      this.base := base;
      writers, mem, lastSequence, working, pending := [], [], base, 0, 0;
      arrived, released, past, waiting, groups := [], [], [], [], [];
    }

    /** A call of Write comes in. */
    method Enqueue(w: Waiting, ghost o: Offer)
      requires Valid() && w.batch != tmp
      modifies this`writers, this`arrived, this`waiting
      ensures Valid() && writers == old(writers) + [w] && waiting == old(waiting) + [o]
              && arrived == old(arrived) + [w.id]
    {
      IdsMore(released, writers, w);
      assert (waiting + [o])[..working] == waiting[..working];
      writers, arrived, waiting := writers + [w], arrived + [w.id], waiting + [o];
    }

    /** The writer in front takes over: the group goes to the log and to the memtable as one
        batch. Readers do not see it yet. */
    method StartWrite()
      requires Valid() && working == 0 && writers != [] && writers[0].batch != null && BatchesKept()
      requires |UpdatesIn(waiting)| < 0x8000_0000 && lastSequence + |UpdatesIn(waiting)| + 1 < 0x1_0000_0000_0000_0000
      modifies this`mem, this`working, this`pending, this`groups, writer, tmp, writers[0].batch
      ensures Valid() && BatchesKept()
      ensures IsGroup(waiting, working) && groups == old(groups) + [UpdatesIn(waiting[..working])]
    {
      ghost var us, os := [], waiting;
      var m, n, count;
      m, n, count, us := WriteGroup(writers, tmp, writer, lastSequence + 1, mem, os, base, groups);
      TallyGroup(base, groups, past, os, n, lastSequence, us);
      Remember(m, n, count, us);
    }

    /** What the writer in front keeps in mind while it is at work. */
    method Remember(m: seq<Added>, n: nat, count: nat, ghost us: seq<Update>)
      modifies this`mem, this`working, this`pending, this`groups
      ensures mem == m && working == n && pending == count && groups == old(groups) + [us]
    {
      mem, working, pending, groups := m, n, count, groups + [us];
    }

    /** A writer without a batch works for itself alone, and adds nothing. */
    method StartWithoutBatch()
      requires Valid() && working == 0 && writers != [] && writers[0].batch == null && BatchesKept()
      modifies this`working
      ensures Valid() && BatchesKept() && working == 1
    {
      assert Offers(writers[0], waiting[0]);
      Grow(waiting, 0);
      working := 1;
    }

    /** The writer in front is done: readers get to see the whole group, and everybody it worked
        for is released, in order. */
    method FinishWrite()
      requires Valid() && working > 0
      modifies this`lastSequence, this`writers, this`working, this`pending, this`released, this`past, this`waiting
      ensures Valid() && working == 0 && lastSequence == base + |UpdatesOf(groups)|
      ensures writers == old(writers)[old(working)..] && waiting == old(waiting)[old(working)..]
      ensures released == old(released) + Ids(old(writers)[..old(working)])
      ensures past == old(past) + old(waiting)[..old(working)]
    {
      IdsSplit(released, writers, working);
      TallyDone(base, groups, past, waiting, working, lastSequence, pending);
      lastSequence := lastSequence + pending;
      released, past := released + Ids(writers[..working]), past + waiting[..working];
      writers, waiting := writers[working..], waiting[working..];
      working, pending := 0, 0;
    }

    /** A reader at the last sequence number sees all of a group or nothing of it: what it sees
        are the updates of the writers that were released, in the order of the queue. */
    lemma ReadersSeeGroups(i: nat)
      requires Valid() && i < |mem|
      ensures mem[i].seqno == base + 1 + i && mem[i].update == UpdatesOf(groups)[i]
      ensures mem[i].seqno <= lastSequence <==> i < |UpdatesIn(past)|
      ensures UpdatesIn(past) <= UpdatesOf(groups)
    {
      EntryInGroups(writer.step, writer.dest, mem, base, groups, i);
    }

    /** Cut off at any byte, the log gives back a prefix of the groups; whole, all of them. */
    lemma SurvivesCrash(cut: nat, paranoid: bool)
      requires Valid() && cut <= |writer.dest|
      ensures exists k: nat :: k <= |groups| && (cut == |writer.dest| ==> k == |groups|)
                && Recover(LogFragments.Input(writer.step, true, writer.dest[..cut]), paranoid, LogFragments.START,
                    Recovered(true, [], base, []))
                   == Recovered(true, AddedBy(base + 1, UpdatesOf(groups[..k])),
                       LastSequence(base, base + 1, groups[..k]), [])
    {
      var records := RecordsOf(base + 1, groups);
      var k := LogCuts.Fits(records, 0, cut);
      CrashKeepsPrefix(writer.step, paranoid, base + 1, groups, cut, base);
      if k < |groups| {
        StreamMonotone(writer.step, records, k + 1);
      }
    }
  }

  ghost predicate NoneIs(ws: seq<Waiting>, tmp: WriteBatch) {
    forall i | 0 <= i < |ws| :: ws[i].batch != tmp
  }

  function Ids(ws: seq<Waiting>): (ids: seq<nat>)
    ensures |ids| == |ws|
  {
    seq(|ws|, i requires 0 <= i < |ws| => ws[i].id)
  }

  lemma IdsMore(released: seq<nat>, ws: seq<Waiting>, w: Waiting)
    ensures released + Ids(ws + [w]) == released + Ids(ws) + [w.id]
  {
    assert Ids(ws + [w]) == Ids(ws) + [w.id];
  }

  lemma IdsSplit(released: seq<nat>, ws: seq<Waiting>, n: nat)
    requires n <= |ws|
    ensures released + Ids(ws) == (released + Ids(ws[..n])) + Ids(ws[n..])
  {
    assert Ids(ws) == Ids(ws[..n]) + Ids(ws[n..]);
  }

  // ----- Numbers ---------------------------------------------------------------------------------

  /** The log and the memtable hold these groups, numbered from `base + 1` on. */
  ghost predicate Holds(step: Step, dest: Bytes, mem: seq<Added>, base: nat, groups: seq<seq<Update>>) {
    && Numbered(base + 1, groups) && dest == Stream(step, RecordsOf(base + 1, groups))
    && mem == AddedBy(base + 1, UpdatesOf(groups))
  }

  lemma EntryInGroups(step: Step, dest: Bytes, mem: seq<Added>, base: nat, groups: seq<seq<Update>>, i: nat)
    requires Holds(step, dest, mem, base, groups) && i < |mem|
    ensures |mem| == |UpdatesOf(groups)| && mem[i].seqno == base + 1 + i && mem[i].update == UpdatesOf(groups)[i]
  {
    assert groups == [] ==> UpdatesOf(groups) == [];
    NumberedFits(base + 1, groups);
    AddedAt(base + 1, UpdatesOf(groups), i);
  }

  lemma AddedAt(first: nat, us: seq<Update>, i: nat)
    requires i < |us| && first + |us| < 0x1_0000_0000_0000_0000
    ensures AddedBy(first, us)[i] == Added(first + i, us[i])
  {
  }

  /** Readers read at `lastSequence`, behind which are the updates of those who were released;
      the log and the memtable also have those that are being worked for. */
  ghost predicate Tally(base: nat, groups: seq<seq<Update>>, past: seq<Offer>, waiting: seq<Offer>, working: nat,
                        lastSequence: nat, pending: nat) {
    && working <= |waiting| && (working == 0 ==> pending == 0)
    && lastSequence == base + |UpdatesIn(past)|
    && lastSequence + pending == base + |UpdatesOf(groups)|
    && UpdatesOf(groups) == UpdatesIn(past) + UpdatesIn(waiting[..working])
  }

  lemma TallyGroup(base: nat, groups: seq<seq<Update>>, past: seq<Offer>, waiting: seq<Offer>, n: nat,
                   lastSequence: nat, us: seq<Update>)
    requires Tally(base, groups, past, waiting, 0, lastSequence, 0) && 0 < n <= |waiting|
             && us == UpdatesIn(waiting[..n])
    ensures Tally(base, groups + [us], past, waiting, n, lastSequence, |us|)
  {
    UpdatesOfAppend(groups, us);
  }

  lemma TallyDone(base: nat, groups: seq<seq<Update>>, past: seq<Offer>, waiting: seq<Offer>, working: nat,
                  lastSequence: nat, pending: nat)
    requires Tally(base, groups, past, waiting, working, lastSequence, pending)
    ensures Tally(base, groups, past + waiting[..working], waiting[working..], 0, lastSequence + pending, 0)
  {
    UpdatesInConcat(past, waiting[..working]);
  }

  lemma {:induction false} UpdatesInConcat(os: seq<Offer>, more: seq<Offer>)
    ensures UpdatesIn(os + more) == UpdatesIn(os) + UpdatesIn(more)
  {
    if more == [] {
      assert os + more == os;
    } else {
      var front := more[..|more| - 1];
      UpdatesInConcat(os, front);
      assert (os + more)[..|os + more| - 1] == os + front && (os + more)[|os + more| - 1] == more[|more| - 1];
      var last := more[|more| - 1].updates;
      assert UpdatesIn(os) + (UpdatesIn(front) + last) == (UpdatesIn(os) + UpdatesIn(front)) + last;
    }
  }

  // ----- What the writer in front does --------------------------------------------------------------

  lemma StreamMonotone(step: Step, records: seq<Bytes>, k: nat)
    requires k <= |records|
    ensures |Stream(step, records[..k])| <= |Stream(step, records)|
    decreases |records| - k
  {
    if k == |records| {
      assert records[..k] == records;
    } else {
      StreamMonotone(step, records, k + 1);
      assert records[..k + 1] == records[..k] + [records[k]];
      StreamAppend(step, records[..k], records[k]);
    }
  }

  lemma RecordAdded(step: Step, base: nat, groups: seq<seq<Update>>, us: seq<Update>, dest: Bytes)
    requires Numbered(base + 1, groups) && |us| < 0x8000_0000
    requires base + 1 + |UpdatesOf(groups)| + |us| < 0x1_0000_0000_0000_0000
    requires dest == Stream(step, RecordsOf(base + 1, groups) + [Rep(base + 1 + |UpdatesOf(groups)|, us)])
    ensures Numbered(base + 1, groups + [us]) && dest == Stream(step, RecordsOf(base + 1, groups + [us]))
  {
    RecordsOfAppend(base + 1, groups, us);
  }

  /** A group goes to the log as one record, then its updates go to the memtable. */
  method LogAndInsert(writer: LogWriter.Writer, batch: WriteBatch, first: nat, mem0: seq<Added>, ghost base: nat,
                      ghost groups: seq<seq<Update>>)
    returns (mem: seq<Added>)
    requires writer.Valid() && Holds(writer.step, writer.dest, mem0, base, groups) && batch.Valid()
    requires first == base + 1 + |UpdatesOf(groups)| && first + |batch.updates| < 0x1_0000_0000_0000_0000
    modifies writer, batch
    ensures batch.Valid() && batch.updates == old(batch.updates) && |batch.rep| == |old(batch.rep)|
    ensures writer.Valid() && Holds(writer.step, writer.dest, mem, base, groups + [batch.updates])
  {
    batch.SetSequence(first);
    writer.AppendRecord(batch.rep, RecordsOf(base + 1, groups));
    mem := AddEntries(batch.rep, first, mem0, batch.updates, base, groups);
    RecordAdded(writer.step, base, groups, batch.updates, writer.dest);
  }

  method AddEntries(rep: Bytes, first: nat, mem0: seq<Added>, ghost us: seq<Update>, ghost base: nat,
                    ghost groups: seq<seq<Update>>)
    returns (mem: seq<Added>)
    requires |us| < 0x8000_0000 && first == base + 1 + |UpdatesOf(groups)| && first + |us| < 0x1_0000_0000_0000_0000
    requires rep == Rep(first, us) && mem0 == AddedBy(base + 1, UpdatesOf(groups))
    ensures mem == AddedBy(base + 1, UpdatesOf(groups + [us]))
  {
    UpdatesOfAppend(groups, us);
    AddedByConcat(base + 1, UpdatesOf(groups), us);
    mem := AddBatch(rep, first, mem0, us);
  }

  method AddBatch(rep: Bytes, first: nat, mem0: seq<Added>, ghost us: seq<Update>) returns (mem: seq<Added>)
    requires |us| < 0x8000_0000 && first + |us| < 0x1_0000_0000_0000_0000 && rep == Rep(first, us)
    ensures mem == mem0 + AddedBy(first, us)
  {
    RepRoundTrip(first, us);
    var ok;
    mem, ok := InsertInto(rep, mem0);
  }

  /** The work of the writer in front, while the others wait. */
  method WriteGroup(ws: seq<Waiting>, tmp: WriteBatch, writer: LogWriter.Writer, first: nat, mem0: seq<Added>,
                    ghost os: seq<Offer>, ghost base: nat, ghost groups: seq<seq<Update>>)
    returns (mem: seq<Added>, n: nat, count: nat, ghost us: seq<Update>)
    requires ws != [] && ws[0].batch != null && AllOffer(ws, os) && |UpdatesIn(os)| < 0x8000_0000
    requires tmp.Valid() && tmp.updates == [] && NoneIs(ws, tmp)
    requires writer.Valid() && Holds(writer.step, writer.dest, mem0, base, groups)
    requires first == base + 1 + |UpdatesOf(groups)| && first + |UpdatesIn(os)| < 0x1_0000_0000_0000_0000
    modifies writer, tmp, ws[0].batch
    ensures IsGroup(os, n) && us == UpdatesIn(os[..n]) && count == |us|
    ensures writer.Valid() && Holds(writer.step, writer.dest, mem, base, groups + [us])
    ensures tmp.Valid() && tmp.updates == [] && AllOffer(ws, os)
  {
    var result;
    result, n := BuildBatchGroup(ws, tmp, os);
    FewerUpdates(os, n);
    label logging:
    mem := LogAndInsert(writer, result, first, mem0, base, groups);
    forall i | 0 <= i < |ws|
      ensures Offers(ws[i], os[i])
    {
      assert old@logging(Offers(ws[i], os[i]));
    }
    count, us := result.Count(), result.updates;
    if result == tmp {
      tmp.Clear();
    }
  }
}
