/** Internal keys, table entries and what a read at a sequence number returns.

    The engine touches a user key only by copying it and by handing it to the
    user comparator, so a user key is represented here by its rank in that order
    (ByteKeys.RankPreservesOrder turns any finite set of byte strings into such
    ranks). Sequence numbers are unbounded naturals; the bound 2^56 - 1 is the
    constant MAX_SEQUENCE and appears wherever the code compares against it. */
module Keys {

  /** A stored value; the engine only copies it. */
  type Blob = seq<bv8>
  type UserKey = int

  datatype Option<+T> = None | Some(value: T)

  datatype Kind = Deletion | Value

  datatype Key = Key(user: UserKey, seqno: nat, kind: Kind)

  datatype Entry = Entry(key: Key, value: Blob)

  const MAX_SEQUENCE: nat := 0xff_ffff_ffff_ffff

  /** The 64-bit trailer of an internal key: the sequence number above one byte of type. */
  function Pack(k: Key): nat {
    k.seqno * 256 + (if k.kind == Value then 1 else 0)
  }

  /** Increasing user key, then decreasing sequence number, then decreasing type. */
  predicate Less(a: Key, b: Key) {
    || a.user < b.user
    || (a.user == b.user && (a.seqno > b.seqno || (a.seqno == b.seqno && a.kind == Value && b.kind == Deletion)))
  }

  /** Among keys of one user key the order is the decreasing order of the packed trailers,
      which is how the comparator decides it. */
  lemma LessByTrailer(a: Key, b: Key)
    requires a.user == b.user
    ensures Less(a, b) <==> Pack(a) > Pack(b)
    ensures a == b <==> Pack(a) == Pack(b)
  {
  }

  /** The key a reader at sequence number `s` seeks to. */
  function SeekKey(u: UserKey, s: nat): Key {
    Key(u, s, Value)
  }

  ghost predicate InOrder(es: seq<Entry>, i: nat, j: nat)
    requires i < |es| && j < |es|
  {
    Less(es[i].key, es[j].key)
  }

  ghost predicate Sorted(es: seq<Entry>) {
    forall i, j | 0 <= i < j < |es| :: InOrder(es, i, j)
  }

  lemma IndexOrder(es: seq<Entry>, i: nat, j: nat)
    requires Sorted(es) && i < |es| && j < |es|
    ensures i < j <==> Less(es[i].key, es[j].key)
    ensures i == j <==> es[i].key == es[j].key
  {
    if i < j { assert InOrder(es, i, j); }
    if j < i { assert InOrder(es, j, i); }
  }

  lemma SortedPrefix(es: seq<Entry>, n: nat)
    requires Sorted(es) && n <= |es|
    ensures Sorted(es[..n])
  {
    forall i, j | 0 <= i < j < n ensures InOrder(es[..n], i, j) { assert InOrder(es, i, j); }
  }

  lemma LastIsGreatest(es: seq<Entry>)
    requires Sorted(es) && es != []
    ensures forall i | 0 <= i < |es| - 1 :: Less(es[i].key, es[|es| - 1].key)
  {
    forall i | 0 <= i < |es| - 1 ensures Less(es[i].key, es[|es| - 1].key) { assert InOrder(es, i, |es| - 1); }
  }

  function Elements(es: seq<Entry>): set<Entry> {
    set e | e in es
  }

  // ----- What a read returns, for a set of entries ------------------------------

  ghost predicate Visible(e: Entry, u: UserKey, s: nat) {
    e.key.user == u && e.key.seqno <= s
  }

  ghost predicate IsNewest(es: set<Entry>, u: UserKey, s: nat, e: Entry) {
    && e in es
    && Visible(e, u, s)
    && forall x | x in es && Visible(x, u, s) :: x.key.seqno <= e.key.seqno
  }

  /** No two different entries of one user key carry the same sequence number. */
  ghost predicate UniqueSeqs(es: set<Entry>) {
    forall a, b | a in es && b in es && a.key.user == b.key.user && a.key.seqno == b.key.seqno :: a == b
  }

  /** `r` is what a reader of `u` at `s` must get: the newest visible value, or
      nothing when there is no visible entry or the newest one is a deletion. */
  ghost predicate Answers(es: set<Entry>, u: UserKey, s: nat, r: Option<Blob>) {
    match r
    case None => forall e | IsNewest(es, u, s, e) :: e.key.kind == Deletion
    case Some(v) => exists e :: IsNewest(es, u, s, e) && e.key.kind == Value && e.value == v
  }

  ghost predicate SameReads(a: set<Entry>, b: set<Entry>, floor: nat) {
    forall u, s, r | floor <= s :: Answers(a, u, s, r) <==> Answers(b, u, s, r)
  }

  /** A finite set with a visible entry has a newest one. */
  lemma {:induction false} NewestExists(es: set<Entry>, u: UserKey, s: nat, w: Entry) returns (e: Entry)
    requires w in es && Visible(w, u, s)
    ensures IsNewest(es, u, s, e)
    decreases es
  {
    var rest := es - {w};
    if x :| x in rest && Visible(x, u, s) {
      var y := NewestExists(rest, u, s, x);
      e := if y.key.seqno >= w.key.seqno then y else w;
    } else {
      e := w;
    }
  }

  /** A read has exactly one answer. */
  lemma AnswerIsUnique(es: set<Entry>, u: UserKey, s: nat, r: Option<Blob>, r': Option<Blob>)
    requires UniqueSeqs(es)
    requires Answers(es, u, s, r) && Answers(es, u, s, r')
    ensures r == r'
  {
    if r.Some? && r'.Some? {
      var e :| IsNewest(es, u, s, e) && e.key.kind == Value && e.value == r.value;
      var e' :| IsNewest(es, u, s, e') && e'.key.kind == Value && e'.value == r'.value;
      assert e.key.seqno == e'.key.seqno;
    }
  }

  lemma AnswerFromNewest(es: set<Entry>, u: UserKey, s: nat, e: Entry)
    requires UniqueSeqs(es) && IsNewest(es, u, s, e)
    ensures Answers(es, u, s, if e.key.kind == Value then Some(e.value) else None)
  {
    forall x | IsNewest(es, u, s, x) ensures x == e {
      assert x.key.seqno == e.key.seqno;
    }
  }

  // ----- Searching a sorted run ----------------------------------------------------

  /** Index of the first entry at or after `target`. */
  function LowerBound(es: seq<Entry>, target: Key): (r: nat)
    requires Sorted(es)
    ensures r <= |es|
    ensures forall i | 0 <= i < r :: Less(es[i].key, target)
    ensures forall i | r <= i < |es| :: !Less(es[i].key, target)
  {
    if |es| == 0 then 0
    else if Less(es[|es| - 1].key, target) then
      LastIsGreatest(es);
      |es|
    else
      SortedPrefix(es, |es| - 1);
      LowerBound(es[..|es| - 1], target)
  }

  /** A seek to (u, s) in a sorted run stops at the newest entry of `u` visible at
      `s`, or at an entry of another user key when there is none. */
  lemma SeekFindsNewest(es: seq<Entry>, u: UserKey, s: nat)
    requires Sorted(es)
    ensures var i := LowerBound(es, SeekKey(u, s));
            if i < |es| && es[i].key.user == u
            then IsNewest(Elements(es), u, s, es[i])
            else forall e | e in es :: !Visible(e, u, s)
  {
    var i := LowerBound(es, SeekKey(u, s));
    forall j | 0 <= j < |es| && Visible(es[j], u, s)
      ensures i <= j && es[i].key.user == u && es[j].key.seqno <= es[i].key.seqno
    {
      assert !Less(es[j].key, SeekKey(u, s));
      if i < j { assert InOrder(es, i, j); }
    }
  }
}
