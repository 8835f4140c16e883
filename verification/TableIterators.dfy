/** The iterator over the bytes of a table file: a cursor over its rows. */
module TableIterators {
  import opened Coding
  import Keys
  import opened Blocks
  import opened BlockIters
  import opened Separators
  import TwoLevel
  import Tables
  import opened TableFormat
  import opened TableImages
  import opened TableReaders

  // ----- Blocks of a file -------------------------------------------------------------------------------

  /** Two layouts of one block begin with the same key. */
  lemma SameFirstKey(block: Bytes, l: Layout, m: Layout)
    requires Laid(block, l) && Laid(block, m) && l.slots != [] && m.slots != []
    ensures l.slots[0].key == m.slots[0].key
  {
    TrailerRead(block, l);
    TrailerRead(block, m);
    EntryRead(block, l, 0);
    EntryRead(block, m, 0);
    assert Chained(l.slots, 0) && Chained(m.slots, 0);
    KeyIsWhole(block, 0, |l.data|, l.slots[0], l.offsets[1]);
    KeyIsWhole(block, 0, |m.data|, m.slots[0], m.offsets[1]);
  }

  /** A finished file, as it was opened, and what it was built from. */
  ghost predicate Built(o: Options, table: OpenTable, filterKey: Bytes, t: Tables.Table, image: Image,
                        rows: Tables.Rows, cuts: seq<nat>) {
    OpenedFrom(o, table, filterKey, t, image) && Tables.BuiltFrom(t, rows, cuts)
  }

  /** A block and its layout in the file. */
  ghost predicate Stores(o: Options, file: Bytes, s: Stored, rows: Tables.Rows) {
    Reads(o.format, file, s.handle, s.contents) && Laid(s.contents, s.layout) && Holds(s.layout.slots, rows)
  }

  lemma BlockIsLaid(o: Options, table: OpenTable, filterKey: Bytes, t: Tables.Table, image: Image, rows: Tables.Rows,
                    cuts: seq<nat>, b: nat)
    requires Built(o, table, filterKey, t, image, rows, cuts) && b < |t.blocks|
    ensures |image.stored| == |t.blocks| && Stores(o, table.file, image.stored[b], t.blocks[b])
    ensures t.blocks[b] != [] && cuts[b] + |t.blocks[b]| == cuts[b + 1] <= |rows|
  {
    BlockIsStored(o, table, filterKey, t, image, b);
    assert Tables.CutAt(rows, cuts, t.blocks, b);
  }

  lemma SameHandleSameFirst(o: Options, file: Bytes, s: Stored, u: Stored, first: Tables.Rows, second: Tables.Rows)
    requires Stores(o, file, s, first) && Stores(o, file, u, second) && s.handle == u.handle
    requires first != [] && second != []
    ensures first[0].key == second[0].key
  {
    ReadsGive(o.format, file, true, s.handle, s.contents);
    ReadsGive(o.format, file, true, u.handle, u.contents);
    SameFirstKey(s.contents, s.layout, u.layout);
    assert HoldsAt(s.layout.slots, first, 0) && HoldsAt(u.layout.slots, second, 0);
    KeyRoundTrip(first[0].key);
    KeyRoundTrip(second[0].key);
  }

  /** No two blocks have the same handle. */
  lemma HandlesDiffer(o: Options, table: OpenTable, filterKey: Bytes, t: Tables.Table, image: Image, rows: Tables.Rows,
                      cuts: seq<nat>, b: nat, c: nat)
    requires Built(o, table, filterKey, t, image, rows, cuts) && b < |t.blocks| == |image.stored| && c < |t.blocks|
    requires image.stored[b].handle == image.stored[c].handle
    ensures b == c
  {
    BlockIsLaid(o, table, filterKey, t, image, rows, cuts, b);
    BlockIsLaid(o, table, filterKey, t, image, rows, cuts, c);
    SameHandleSameFirst(o, table.file, image.stored[b], image.stored[c], t.blocks[b], t.blocks[c]);
    FirstRow(t, rows, cuts, b);
    FirstRow(t, rows, cuts, c);
    if b != c { FirstRowsDiffer(t, rows, cuts, if b < c then b else c, if b < c then c else b); }
  }

  lemma FirstRow(t: Tables.Table, rows: Tables.Rows, cuts: seq<nat>, b: nat)
    requires Tables.BuiltFrom(t, rows, cuts) && b < |t.blocks|
    ensures cuts[b] < |rows| && t.blocks[b] != [] && t.blocks[b][0] == rows[cuts[b]]
  {
    assert Tables.CutAt(rows, cuts, t.blocks, b);
  }

  lemma FirstRowsDiffer(t: Tables.Table, rows: Tables.Rows, cuts: seq<nat>, b: nat, c: nat)
    requires Tables.BuiltFrom(t, rows, cuts) && b < c < |t.blocks|
    ensures cuts[b] < cuts[c] < |rows| && rows[cuts[b]].key != rows[cuts[c]].key
  {
    Tables.CutsGrow(rows, cuts, t.blocks, b + 1, c);
    assert Tables.CutAt(rows, cuts, t.blocks, b) && Tables.CutAt(rows, cuts, t.blocks, c);
    assert Tables.RowsInOrder(rows, cuts[b], cuts[c]);
    LessIsTotal(rows[cuts[b]].key, rows[cuts[c]].key);
  }

  /** Opens the block that an index entry points to. */
  method OpenBlock(o: Options, file: Bytes, verify: bool, value: Bytes, ghost s: Stored, ghost rows: Tables.Rows)
    returns (it: BlockIter?)
    requires Stores(o, file, s, rows) && value == EncodeHandle(s.handle)
    ensures it != null && fresh(it) && it.Valid() && IterOver(it, s) && it.At(|s.layout.slots|)
  {
    HandleIsRead(s.handle, value);
    var handle := DecodeHandle(value).value;
    ReadsGive(o.format, file, verify, handle, s.contents);
    var block := ReadBlock(o.format, file, verify, handle);
    var error;
    it, error := BlockIters.NewIterator(LessBytes, block.data, s.layout);
  }

  ghost predicate IterOver(it: BlockIter, s: Stored) {
    it.less == LessBytes && it.l == s.layout && it.WellFormed()
  }

  // ----- The iterator -----------------------------------------------------------------------------------

  class TableIterator {
    const o: Options
    const table: OpenTable
    const verify: bool
    const index: BlockIter
    var data: BlockIter?
    /** The index value that `data` was made for. */
    var dataHandle: Bytes

    ghost const filterKey: Bytes
    ghost const t: Tables.Table
    ghost const image: Image
    ghost const rows: Tables.Rows
    ghost const cuts: seq<nat>
    /** The blocks that the index shows and that `data` is over, and the row of it. */
    ghost var b: nat
    ghost var d: nat
    ghost var p: nat

    /** What does not change: where the blocks are, and that their rows are all rows. */
    ghost predicate Fixed() {
      && IterOver(index, image.index) && |image.stored| == |t.blocks| == |image.index.layout.slots|
      && |cuts| == |t.blocks| + 1 && cuts[0] == 0 && cuts[|t.blocks|] == |rows|
      && (forall c: nat | c < |t.blocks| :: BlockFixed(c))
      && (forall c: nat, e: nat | c < |t.blocks| && e < |t.blocks| :: Distinct(c, e))
    }

    ghost predicate BlockFixed(c: nat)
      requires c < |t.blocks| == |image.stored| == |image.index.layout.slots| && |cuts| == |t.blocks| + 1
    {
      && Stores(o, table.file, image.stored[c], t.blocks[c])
      && |image.stored[c].layout.slots| == |t.blocks[c]| > 0 && cuts[c] + |t.blocks[c]| == cuts[c + 1] <= |rows|
      && image.index.layout.slots[c].value == EncodeHandle(image.stored[c].handle)
    }

    ghost predicate Distinct(c: nat, e: nat)
      requires c < |t.blocks| == |image.stored| && e < |t.blocks|
    {
      EncodeHandle(image.stored[c].handle) == EncodeHandle(image.stored[e].handle) ==> c == e
    }

    ghost predicate Searchable() {
      Built(o, table, filterKey, t, image, rows, cuts)
    }

    ghost predicate OnIndex()
      reads this`b, index
    {
      Fixed() && index.Valid() && index.At(b) && b <= |t.blocks|
    }

    ghost predicate DataOk()
      reads this`data, this`dataHandle, this`d, this`p, data
    {
      Fixed() && (data != null ==>
        && d < |t.blocks| && data.Valid() && IterOver(data, image.stored[d]) && data.At(p)
        && p <= |t.blocks[d]| && dataHandle == EncodeHandle(image.stored[d].handle))
    }

    ghost predicate Apart()
      reads this`data
    {
      data != index
    }

    /** The data iterator, if there is one, is over the block that the index shows. */
    ghost predicate Loaded()
      reads this, index, data
    {
      OnIndex() && DataOk() && Apart() && (data == null <==> b == |t.blocks|) && (data != null ==> d == b)
    }

    ghost predicate Valid()
      reads this, index, data
    {
      OnIndex() && DataOk() && Apart() && (data != null ==> d == b && p < |t.blocks[d]|)
    }

    /** The place among all rows, their number when the iterator is off. */
    ghost function At(): nat
      requires Fixed()
      reads this`data, this`d, this`p
    {
      if data == null || d >= |t.blocks| then |rows| else cuts[d] + p
    }

    constructor (o: Options, table: OpenTable, verify: bool, index: BlockIter, ghost filterKey: Bytes,
                 ghost t: Tables.Table, ghost image: Image, ghost rows: Tables.Rows, ghost cuts: seq<nat>)
      requires Built(o, table, filterKey, t, image, rows, cuts)
      requires index.Valid() && IterOver(index, image.index) && index.At(|t.blocks|)
      ensures Valid() && Searchable() && At() == |rows| && data == null && this.index == index && this.rows == rows
    {
      this.o, this.table, this.verify, this.index := o, table, verify, index;
      this.filterKey, this.t, this.image, this.rows, this.cuts := filterKey, t, image, rows, cuts;
      data, dataHandle, b, d, p := null, [], |t.blocks|, 0, 0;
      new;
      MakesFixed();
    }

    lemma MakesFixed()
      requires Searchable() && IterOver(index, image.index)
      ensures Fixed()
    {
      assert |image.stored| == |t.blocks| == |image.index.layout.slots|;
      forall c: nat | c < |t.blocks| ensures BlockFixed(c) {
        BlockIsLaid(o, table, filterKey, t, image, rows, cuts, c);
        assert HoldsAt(image.index.layout.slots, IndexRows(t.index, image.stored), c);
      }
      forall c: nat, e: nat | c < |t.blocks| && e < |t.blocks| ensures Distinct(c, e) {
        if EncodeHandle(image.stored[c].handle) == EncodeHandle(image.stored[e].handle) {
          HandleIsRead(image.stored[c].handle, EncodeHandle(image.stored[e].handle));
          HandleIsRead(image.stored[e].handle, EncodeHandle(image.stored[e].handle));
          HandlesDiffer(o, table, filterKey, t, image, rows, cuts, c, e);
        }
      }
    }

    predicate OnRow()
      reads this`data, data
    {
      data != null && data.OnEntry()
    }

    /** Key and value are those of the row. */
    lemma ShowsTheRow()
      requires Valid() && Searchable() && OnRow()
      ensures At() < |rows| && (data.key, data.value) == RowBytes(rows[At()])
    {
      assert BlockFixed(d);
      assert HoldsAt(image.stored[d].layout.slots, t.blocks[d], p);
      assert Tables.CutAt(rows, cuts, t.blocks, d);
    }

    lemma OnEntries()
      requires OnIndex() && DataOk()
      ensures index.OnEntry() <==> b < |t.blocks|
      ensures b < |t.blocks| ==> BlockFixed(b) && index.value == EncodeHandle(image.stored[b].handle)
      ensures data != null ==> BlockFixed(d) && (data.OnEntry() <==> p < |t.blocks[d]|)
    {
    }

    /** Opens the block that the index shows, unless it is open already. */
    method InitDataBlock()
      requires OnIndex() && DataOk() && Apart()
      modifies this`data, this`dataHandle, this`d, this`p
      ensures Loaded() && (data == null || data == old(data) || fresh(data))
    {
      OnEntries();
      if !index.OnEntry() {
        data := null;
      } else if data == null || index.value != dataHandle {
        data := OpenBlock(o, table.file, verify, index.value, image.stored[b], t.blocks[b]);
        dataHandle := index.value;
        d, p := b, |t.blocks[b]|;
      } else {
        assert Distinct(b, d);
      }
    }

    method SkipEmptyDataBlocksForward(ghost n: nat)
      requires Loaded() && n == At()
      modifies this`data, this`dataHandle, this`b, this`d, this`p, index, data
      ensures Valid() && At() == n && (data == null || data == old(data) || fresh(data))
    {
      OnEntries();
      while data == null || !data.OnEntry()
        invariant Loaded() && At() == n && (data == null || data == old(data) || fresh(data))
        decreases |t.blocks| - b, data != null
      {
        OnEntries();
        if !index.OnEntry() {
          data := null;
          return;
        }
        NextBlock();
      }
      OnEntries();
    }

    /** From the end of a block to the first row of the next one. */
    method NextBlock()
      requires Loaded() && data != null && p == |t.blocks[b]|
      modifies this`data, this`dataHandle, this`b, this`d, this`p, index, data
      ensures Loaded() && At() == old(At()) && b == old(b) + 1
      ensures data == null || data == old(data) || fresh(data)
    {
      OnEntries();
      NextIndex();
      InitDataBlock();
      ToFirst();
    }

    method NextIndex()
      requires OnIndex() && DataOk() && Apart() && b < |t.blocks|
      modifies this`b, index
      ensures OnIndex() && DataOk() && Apart() && b == old(b) + 1
    {
      OnEntries();
      index.Next(b);
      b := b + 1;
    }

    method ToFirst()
      requires Loaded()
      modifies this`p, data
      ensures Loaded() && (data != null ==> p == 0)
    {
      if data != null {
        data.SeekToFirst();
        p := 0;
      }
    }

    /** Goes back to the last row before place `n`. */
    method SkipEmptyDataBlocksBackward(ghost n: nat)
      requires Loaded() && Before(n)
      modifies this`data, this`dataHandle, this`b, this`d, this`p, index, data
      ensures Valid() && At() == (if n == 0 then |rows| else n - 1)
              && (data == null || data == old(data) || fresh(data))
    {
      OnEntries();
      while data == null || !data.OnEntry()
        invariant Loaded() && Before(n) && (data == null || data == old(data) || fresh(data))
        decreases if b < |t.blocks| then b + 1 else 0
      {
        OnEntries();
        if !index.OnEntry() {
          data := null;
          return;
        }
        PrevBlock(n);
      }
      OnEntries();
    }

    /** The last row before place `n` is the one shown, or lies in an earlier block. */
    ghost predicate Before(n: nat)
      requires Fixed()
      reads this`data, this`b, this`p
    {
      if data == null || b >= |t.blocks| then n == 0
      else if p < |t.blocks[b]| then n == cuts[b] + p + 1
      else n == cuts[b]
    }

    /** From the front of a block to the last row of the one before. */
    method PrevBlock(ghost n: nat)
      requires Loaded() && data != null && p == |t.blocks[b]| && Before(n)
      modifies this`data, this`dataHandle, this`b, this`d, this`p, index, data
      ensures Loaded() && Before(n) && (if old(b) == 0 then b == |t.blocks| else b == old(b) - 1)
      ensures data == null || data == old(data) || fresh(data)
    {
      if b > 0 { assert BlockFixed(b - 1); }
      PrevIndex();
      InitDataBlock();
      ToLast();
    }

    method PrevIndex()
      requires OnIndex() && DataOk() && Apart() && b < |t.blocks|
      modifies this`b, index
      ensures OnIndex() && DataOk() && Apart() && (if old(b) == 0 then b == |t.blocks| else b == old(b) - 1)
    {
      OnEntries();
      index.Prev(b);
      b := if b == 0 then |t.blocks| else b - 1;
    }

    method ToLast()
      requires Loaded()
      modifies this`p, data
      ensures Loaded() && (data != null ==> p == |t.blocks[b]| - 1 && t.blocks[b] != [])
    {
      OnEntries();
      if data != null {
        data.SeekToLast();
        p := |t.blocks[d]| - 1;
      }
    }

    // ----- The iterator's operations --------------------------------------------------------------------

    /** The search for a key among these entries ends at the one with this index. */
    ghost predicate Sought(slots: seq<Slot>, k: InternalKey, n: nat) {
      && Transitive(LessBytes) && Ascending(LessBytes, slots) && FirstNotBelow(LessBytes, slots, EncodeKey(k)) == n
    }

    lemma SoughtIs(k: InternalKey)
      requires Fixed() && Searchable() && KeyOk(k)
      ensures var n := TwoLevel.LowerBound(t.index, k);
              && n <= |t.blocks| && Sought(image.index.layout.slots, k, n)
              && if n == |t.blocks| then TwoLevel.LowerBound(rows, k) == |rows|
                 else Sought(image.stored[n].layout.slots, k, TwoLevel.LowerBound(t.blocks[n], k))
                      && TwoLevel.LowerBound(rows, k) == cuts[n] + TwoLevel.LowerBound(t.blocks[n], k)
    {
      var n := TwoLevel.LowerBound(t.index, k);
      IndexIsSought(t, rows, cuts, image.index, image.stored, k);
      Tables.PlaceOf(t, rows, cuts, k);
      if n < |t.blocks| {
        assert BlockFixed(n);
        BlockIsSought(t, rows, cuts, n, image.stored[n], k);
      }
    }

    method Seek(k: InternalKey)
      requires Valid() && Searchable() && KeyOk(k)
      modifies this`data, this`dataHandle, this`b, this`d, this`p, index, data
      ensures Valid() && At() == TwoLevel.LowerBound(rows, k) && (data == null || data == old(data) || fresh(data))
    {
      SoughtIs(k);
      ghost var n := TwoLevel.LowerBound(t.index, k);
      ghost var q: nat := if n < |t.blocks| then TwoLevel.LowerBound(t.blocks[n], k) else 0;
      SeekBlocks(k, n, q);
      SkipEmptyDataBlocksForward(At());
    }

    method SeekBlocks(k: InternalKey, ghost n: nat, ghost q: nat)
      requires OnIndex() && DataOk() && Apart() && n <= |t.blocks| && Sought(image.index.layout.slots, k, n)
      requires n < |t.blocks| ==> q <= |t.blocks[n]| && Sought(image.stored[n].layout.slots, k, q)
      modifies this`data, this`dataHandle, this`b, this`d, this`p, index, data
      ensures Loaded() && b == n && (data != null ==> p == q) && (data == null || data == old(data) || fresh(data))
    {
      SeekIndex(k, n);
      InitDataBlock();
      SeekData(k, q);
    }

    method SeekIndex(k: InternalKey, ghost n: nat)
      requires OnIndex() && DataOk() && Apart() && n <= |t.blocks| && Sought(image.index.layout.slots, k, n)
      modifies this`b, index
      ensures OnIndex() && DataOk() && Apart() && b == n
    {
      index.Seek(EncodeKey(k));
      b := n;
    }

    method SeekData(k: InternalKey, ghost q: nat)
      requires Loaded() && (data != null ==> q <= |t.blocks[b]| && Sought(image.stored[b].layout.slots, k, q))
      modifies this`p, data
      ensures Loaded() && (data != null ==> p == q)
    {
      if data != null {
        data.Seek(EncodeKey(k));
        p := q;
      }
    }

    method SeekToFirst()
      requires Valid()
      modifies this`data, this`dataHandle, this`b, this`d, this`p, index, data
      ensures Valid() && At() == 0 && (data == null || data == old(data) || fresh(data))
    {
      FirstIndex();
      InitDataBlock();
      ToFirst();
      SkipEmptyDataBlocksForward(0);
    }

    method FirstIndex()
      requires OnIndex() && DataOk() && Apart()
      modifies this`b, index
      ensures OnIndex() && DataOk() && Apart() && b == 0
    {
      index.SeekToFirst();
      b := 0;
    }

    method SeekToLast()
      requires Valid()
      modifies this`data, this`dataHandle, this`b, this`d, this`p, index, data
      ensures Valid() && At() == (if rows == [] then 0 else |rows| - 1)
      ensures data == null || data == old(data) || fresh(data)
    {
      LastBlock();
      BeforeTheEnd();
      SkipEmptyDataBlocksBackward(|rows|);
    }

    method LastBlock()
      requires OnIndex() && DataOk() && Apart()
      modifies this`data, this`dataHandle, this`b, this`d, this`p, index, data
      ensures Loaded() && (data == null || data == old(data) || fresh(data))
      ensures data == null <==> t.blocks == []
      ensures data != null ==> b == |t.blocks| - 1 && p == |t.blocks[b]| - 1
    {
      LastIndex();
      InitDataBlock();
      ToLast();
    }

    lemma BeforeTheEnd()
      requires Loaded() && (data == null <==> t.blocks == [])
      requires data != null ==> b == |t.blocks| - 1 && p == |t.blocks[b]| - 1
      ensures Before(|rows|)
    {
      if t.blocks != [] { assert BlockFixed(|t.blocks| - 1); }
    }

    method LastIndex()
      requires OnIndex() && DataOk() && Apart()
      modifies this`b, index
      ensures OnIndex() && DataOk() && Apart() && b == if t.blocks == [] then 0 else |t.blocks| - 1
    {
      index.SeekToLast();
      b := if t.blocks == [] then 0 else |t.blocks| - 1;
    }

    method Next()
      requires Valid() && OnRow()
      modifies this`data, this`dataHandle, this`b, this`d, this`p, index, data
      ensures Valid() && At() == old(At()) + 1 && (data == null || data == old(data) || fresh(data))
    {
      OnEntries();
      data.Next(p);
      p := p + 1;
      SkipEmptyDataBlocksForward(At());
    }

    method Prev()
      requires Valid() && OnRow()
      modifies this`data, this`dataHandle, this`b, this`d, this`p, index, data
      ensures Valid() && At() == (if old(At()) == 0 then |rows| else old(At()) - 1)
      ensures data == null || data == old(data) || fresh(data)
    {
      OnEntries();
      ghost var n := At();
      data.Prev(p);
      p := if p == 0 then |t.blocks[d]| else p - 1;
      SkipEmptyDataBlocksBackward(n);
    }
  }

  /** An iterator over an opened table; it is off the rows at first. */
  method NewIterator(o: Options, table: OpenTable, verify: bool, ghost filterKey: Bytes, ghost t: Tables.Table,
                     ghost image: Image, ghost rows: Tables.Rows, ghost cuts: seq<nat>)
    returns (it: TableIterator)
    requires Built(o, table, filterKey, t, image, rows, cuts)
    ensures fresh(it) && fresh(it.index) && it.data == null && it.Valid() && it.Searchable()
    ensures it.rows == rows && it.At() == |rows|
  {
    var index, error := BlockIters.NewIterator(LessBytes, table.index, image.index.layout);
    assert |image.index.layout.slots| == |t.index|;
    it := new TableIterator(o, table, verify, index, filterKey, t, image, rows, cuts);
  }
}
