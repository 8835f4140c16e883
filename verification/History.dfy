/** The simple store that the engine implements: a list of writes, read at any prefix. */
module History {
  import opened Keys

  datatype Op = Put(user: UserKey, value: Blob) | Delete(user: UserKey)

  /** The last of the writes to `u`, if it is not a deletion. */
  function Latest(ops: seq<Op>, u: UserKey): Option<Blob> {
    if ops == [] then None
    else
      var last := ops[|ops| - 1];
      if last.user == u then (if last.Put? then Some(last.value) else None)
      else Latest(ops[..|ops| - 1], u)
  }

  /** What a write adds to the memtable at a sequence number. */
  function Record(op: Op, s: nat): Entry {
    match op
    case Put(u, v) => Entry(Key(u, s, Value), v)
    case Delete(u) => Entry(Key(u, s, Deletion), [])
  }

  /** The write at index `i` carries sequence number `i + 1`. */
  function EntryOf(ops: seq<Op>, i: nat): Entry
    requires i < |ops|
  {
    Record(ops[i], i + 1)
  }

  ghost function EntriesOf(ops: seq<Op>): set<Entry> {
    set i | 0 <= i < |ops| :: EntryOf(ops, i)
  }

  lemma HistoryIsUnique(ops: seq<Op>)
    ensures UniqueSeqs(EntriesOf(ops))
  {
  }

  lemma AppendOne(ops: seq<Op>, op: Op)
    ensures EntriesOf(ops + [op]) == EntriesOf(ops) + {Record(op, |ops| + 1)}
  {
    var more := ops + [op];
    forall e | e in EntriesOf(ops) ensures e in EntriesOf(more) {
      var i :| 0 <= i < |ops| && EntryOf(ops, i) == e;
      assert EntryOf(more, i) == e;
    }
    assert EntryOf(more, |ops|) == Record(op, |ops| + 1);
    forall e | e in EntriesOf(more) ensures e in EntriesOf(ops) + {EntryOf(more, |ops|)} {
      var i :| 0 <= i < |more| && EntryOf(more, i) == e;
      if i < |ops| { assert EntryOf(ops, i) == e; }
    }
  }

  /** Reading the entries of all writes at sequence number `s` is reading the first `s` writes. */
  lemma {:induction false} AnswersLatest(ops: seq<Op>, s: nat, u: UserKey)
    requires s <= |ops|
    ensures Answers(EntriesOf(ops), u, s, Latest(ops[..s], u))
    decreases s
  {
    var es := EntriesOf(ops);
    if s > 0 {
      assert ops[..s][..s - 1] == ops[..s - 1] && ops[..s][s - 1] == ops[s - 1];
      var e := EntryOf(ops, s - 1);
      assert e in es;
      if e.key.user == u {
        assert IsNewest(es, u, s, e);
        HistoryIsUnique(ops);
        AnswerFromNewest(es, u, s, e);
      } else {
        AnswersLatest(ops, s - 1, u);
        forall x | x in es ensures Visible(x, u, s) <==> Visible(x, u, s - 1) {
          var i :| 0 <= i < |ops| && EntryOf(ops, i) == x;
        }
        SameVisible(es, u, s, s - 1, Latest(ops[..s], u));
      }
    }
  }

  lemma SameVisible(es: set<Entry>, u: UserKey, s: nat, t: nat, r: Option<Blob>)
    requires forall x | x in es :: Visible(x, u, s) <==> Visible(x, u, t)
    requires Answers(es, u, t, r)
    ensures Answers(es, u, s, r)
  {
    forall x ensures IsNewest(es, u, s, x) <==> IsNewest(es, u, t, x) {}
  }
}
