/** The two-level iterator: a cursor over the blocks that an index lists, some of which may be
    empty. */
module TwoLevel {
  import opened Coding
  import opened Separators

  datatype Row<+V> = Row(key: InternalKey, value: V)

  ghost predicate AllBelow<V>(rows: seq<Row<V>>, n: nat, target: InternalKey)
    requires n <= |rows|
  {
    forall i | 0 <= i < n :: Less(rows[i].key, target)
  }

  /** The index of the first row that is not below the target. */
  function LowerBound<V>(rows: seq<Row<V>>, target: InternalKey): (r: nat)
    ensures r <= |rows| && AllBelow(rows, r, target)
    ensures r < |rows| ==> !Less(rows[r].key, target)
  {
    if rows == [] then 0
    else if Less(rows[0].key, target) then 1 + LowerBound(rows[1..], target)
    else 0
  }

  lemma LowerBoundIs<V>(rows: seq<Row<V>>, n: nat, target: InternalKey)
    requires n <= |rows| && AllBelow(rows, n, target) && (n < |rows| ==> !Less(rows[n].key, target))
    ensures LowerBound(rows, target) == n
  {
  }

  /** A cursor over the rows of a block, off them when `pos` is their number. */
  class RowIter<V> {
    const rows: seq<Row<V>>
    var pos: nat

    constructor (rows: seq<Row<V>>)
      ensures this.rows == rows && pos == |rows|
    {
      this.rows, pos := rows, |rows|;
    }

    predicate OnRow()
      reads this
    {
      pos < |rows|
    }

    method SeekToFirst()
      modifies this
      ensures pos == 0
    {
      pos := 0;
    }

    method SeekToLast()
      modifies this
      ensures pos == if rows == [] then 0 else |rows| - 1
    {
      pos := if rows == [] then 0 else |rows| - 1;
    }

    method Seek(target: InternalKey)
      modifies this
      ensures pos == LowerBound(rows, target)
    {
      pos := LowerBound(rows, target);
    }

    method Next()
      requires OnRow()
      modifies this
      ensures pos == old(pos) + 1
    {
      pos := pos + 1;
    }

    method Prev()
      requires OnRow()
      modifies this
      ensures pos == if old(pos) == 0 then |rows| else old(pos) - 1
    {
      pos := if pos == 0 then |rows| else pos - 1;
    }
  }

  // ----- The rows of all blocks -----------------------------------------------------------------

  type Index = seq<Row<nat>>
  type Reader = nat -> seq<Row<Bytes>>

  /** The rows of the first `n` blocks. */
  function Joined(index: Index, read: Reader, n: nat): seq<Row<Bytes>>
    requires n <= |index|
  {
    if n == 0 then [] else Joined(index, read, n - 1) + read(index[n - 1].value)
  }

  function All(index: Index, read: Reader): seq<Row<Bytes>> {
    Joined(index, read, |index|)
  }

  function Start(index: Index, read: Reader, n: nat): nat
    requires n <= |index|
  {
    |Joined(index, read, n)|
  }

  /** A block and those before it are a prefix of all rows. */
  lemma {:induction false} JoinedPrefix(index: Index, read: Reader, n: nat, m: nat)
    requires n <= m <= |index|
    ensures Joined(index, read, n) <= Joined(index, read, m)
  {
    if n < m {
      JoinedPrefix(index, read, n, m - 1);
    }
  }

  lemma BlockIsPart(index: Index, read: Reader, b: nat, p: nat)
    requires b < |index| && p < |read(index[b].value)|
    ensures Start(index, read, b) + p < Start(index, read, b + 1) <= |All(index, read)|
    ensures All(index, read)[Start(index, read, b) + p] == read(index[b].value)[p]
  {
    JoinedPrefix(index, read, b + 1, |index|);
  }

  lemma {:induction false} RowInBlock(index: Index, read: Reader, n: nat, i: nat) returns (b: nat, p: nat)
    requires n <= |index| && i < |Joined(index, read, n)|
    ensures b < n && p < |read(index[b].value)| && i == Start(index, read, b) + p
    ensures Joined(index, read, n)[i] == read(index[b].value)[p]
  {
    if i < Start(index, read, n - 1) {
      b, p := RowInBlock(index, read, n - 1, i);
    } else {
      b, p := n - 1, i - Start(index, read, n - 1);
    }
  }

  /** An index key is at or after the rows of its block. */
  ghost predicate Covers(index: Index, read: Reader, b: nat)
    requires b < |index|
  {
    forall p | 0 <= p < |read(index[b].value)| :: !Less(index[b].key, read(index[b].value)[p].key)
  }

  /** An index key is before the rows of later blocks. */
  ghost predicate Precedes(index: Index, read: Reader, b: nat, c: nat)
    requires b < |index| && c < |index|
  {
    forall p | 0 <= p < |read(index[c].value)| :: Less(index[b].key, read(index[c].value)[p].key)
  }

  ghost predicate Separated(index: Index, read: Reader) {
    && (forall b | 0 <= b < |index| :: Covers(index, read, b))
    && (forall b, c | 0 <= b < c < |index| :: Precedes(index, read, b, c))
  }

  lemma NotLess(a: InternalKey, b: InternalKey, c: InternalKey)
    ensures !Less(b, a) && Less(b, c) ==> Less(a, c)
    ensures Less(a, b) && !Less(a, c) ==> !Less(b, c)
  {
    LessIsTotal(a, b);
    if Less(a, b) && Less(b, c) { LessIsTransitive(a, b, c); }
  }

  /** The search in the index and then in the block finds the place among all rows; or the
      place is the beginning of the next block. */
  lemma SoughtBlock(index: Index, read: Reader, target: InternalKey)
    requires Separated(index, read)
    ensures var b := LowerBound(index, target);
            if b == |index| then LowerBound(All(index, read), target) == |All(index, read)|
            else LowerBound(All(index, read), target) == Start(index, read, b)
                 + LowerBound(read(index[b].value), target)
  {
    var b, all := LowerBound(index, target), All(index, read);
    var block := if b == |index| then [] else read(index[b].value);
    var q := LowerBound(block, target);
    if b < |index| { JoinedPrefix(index, read, b + 1, |index|); }
    forall i | 0 <= i < Start(index, read, b) + q ensures Less(all[i].key, target) {
      var c, p := RowInBlock(index, read, |index|, i);
      if c < b {
        assert Covers(index, read, c);
        NotLess(all[i].key, index[c].key, target);
      } else {
        StartsGrow(index, read, b, c);
      }
    }
    var n := Start(index, read, b) + q;
    if n < |all| {
      var c, p := RowInBlock(index, read, |index|, n);
      StartsGrow(index, read, c, b);
      if b < c {
        assert Precedes(index, read, b, c);
        NotLess(index[b].key, all[n].key, target);
      } else {
        StartsGrow(index, read, c + 1, b);
      }
    }
    LowerBoundIs(all, n, target);
  }

  lemma StartsGrow(index: Index, read: Reader, b: nat, c: nat)
    requires b <= |index| && c <= |index|
    ensures b <= c ==> Start(index, read, b) <= Start(index, read, c)
    ensures b < c ==> Start(index, read, b) + |read(index[b].value)| <= Start(index, read, c)
  {
    if b <= c { JoinedPrefix(index, read, b, c); }
    if b < c { JoinedPrefix(index, read, b + 1, c); }
  }

  // ----- The iterator ----------------------------------------------------------------------------

  class TwoLevelIterator {
    const index: RowIter<nat>
    const read: Reader
    var data: RowIter?<Bytes>
    /** What `data` was made for. */
    var handle: nat

    ghost function Rows(): seq<Row<Bytes>> {
      All(index.rows, read)
    }

    /** The data iterator, if there is one, is over the block that the index shows. */
    ghost predicate Loaded()
      reads this, index, data
    {
      && (data != null <==> index.OnRow())
      && (data != null ==> handle == index.rows[index.pos].value && data.rows == read(handle)
                           && data.pos <= |data.rows|)
    }

    ghost predicate Valid()
      reads this, index, data
    {
      (data != null ==> data.rows == read(handle)) && (data == null || (Loaded() && data.OnRow()))
    }

    /** The place among all rows, their number when the iterator is off. */
    ghost function At(): nat
      reads this, index, data
    {
      if data != null && index.OnRow() then Start(index.rows, read, index.pos) + data.pos else |Rows()|
    }

    constructor (index: RowIter<nat>, read: Reader)
      ensures Valid() && this.index == index && this.read == read && data == null && At() == |Rows()|
    {
      this.index, this.read, data, handle := index, read, null, 0;
    }

    predicate OnRow()
      reads this, data
    {
      data != null && data.OnRow()
    }

    lemma ShowsTheRow()
      requires Valid() && OnRow()
      ensures At() < |Rows()| && Rows()[At()] == data.rows[data.pos]
    {
      BlockIsPart(index.rows, read, index.pos, data.pos);
    }

    /** Opens the block that the index shows, unless it is open already. */
    method InitDataBlock()
      requires data != null ==> data.rows == read(handle) && data.pos <= |data.rows|
      modifies this`data, this`handle
      ensures Loaded() && (data == null || data == old(data) || fresh(data))
    {
      if !index.OnRow() {
        data := null;
      } else {
        var h := index.rows[index.pos].value;
        if data == null || h != handle {
          data := new RowIter(read(h));
          handle := h;
        }
      }
    }

    method SkipEmptyDataBlocksForward(ghost n: nat)
      requires Loaded() && n == At()
      modifies this`data, this`handle, index, data
      ensures Valid() && At() == n && (data == null || data == old(data) || fresh(data))
    {
      while data == null || !data.OnRow()
        invariant Loaded() && At() == n && (data == null || data == old(data) || fresh(data))
        decreases |index.rows| - index.pos, data != null
      {
        if !index.OnRow() {
          data := null;
          return;
        }
        StartsGrow(index.rows, read, index.pos, index.pos + 1);
        index.Next();
        InitDataBlock();
        if data != null { data.SeekToFirst(); }
      }
    }

    /** Goes back to the last row before place `n`. */
    method SkipEmptyDataBlocksBackward(ghost n: nat)
      requires Loaded() && Before(n)
      modifies this`data, this`handle, index, data
      ensures Valid() && At() == (if n == 0 then |Rows()| else n - 1)
              && (data == null || data == old(data) || fresh(data))
    {
      while data == null || !data.OnRow()
        invariant Loaded() && Before(n) && (data == null || data == old(data) || fresh(data))
        decreases if index.OnRow() then index.pos + 1 else 0
      {
        if !index.OnRow() {
          data := null;
          return;
        }
        index.Prev();
        InitDataBlock();
        if data != null { data.SeekToLast(); }
      }
    }

    /** The last row before place `n` is the one shown or lies in an earlier block. */
    ghost predicate Before(n: nat)
      reads this, index, data
    {
      if data == null || !index.OnRow() then n == 0
      else if data.OnRow() then n == Start(index.rows, read, index.pos) + data.pos + 1
      else n == Start(index.rows, read, index.pos)
    }

    method Seek(target: InternalKey)
      requires Valid() && Separated(index.rows, read)
      modifies this`data, this`handle, index, data
      ensures Valid() && At() == LowerBound(Rows(), target) && (data == null || data == old(data) || fresh(data))
    {
      index.Seek(target);
      InitDataBlock();
      if data != null { data.Seek(target); }
      SoughtBlock(index.rows, read, target);
      SkipEmptyDataBlocksForward(At());
    }

    method SeekToFirst()
      requires Valid()
      modifies this`data, this`handle, index, data
      ensures Valid() && At() == 0 && (data == null || data == old(data) || fresh(data))
    {
      index.SeekToFirst();
      InitDataBlock();
      if data != null { data.SeekToFirst(); }
      SkipEmptyDataBlocksForward(0);
    }

    method SeekToLast()
      requires Valid()
      modifies this`data, this`handle, index, data
      ensures Valid() && At() == (if Rows() == [] then 0 else |Rows()| - 1)
              && (data == null || data == old(data) || fresh(data))
    {
      index.SeekToLast();
      InitDataBlock();
      if data != null { data.SeekToLast(); }
      SkipEmptyDataBlocksBackward(|Rows()|);
    }

    method Next()
      requires Valid() && OnRow()
      modifies this`data, this`handle, index, data
      ensures Valid() && At() == old(At()) + 1 && (data == null || data == old(data) || fresh(data))
    {
      data.Next();
      SkipEmptyDataBlocksForward(At());
    }

    method Prev()
      requires Valid() && OnRow()
      modifies this`data, this`handle, index, data
      ensures Valid() && At() == (if old(At()) == 0 then |Rows()| else old(At()) - 1)
      ensures data == null || data == old(data) || fresh(data)
    {
      ghost var n := At();
      data.Prev();
      SkipEmptyDataBlocksBackward(n);
    }
  }
}
