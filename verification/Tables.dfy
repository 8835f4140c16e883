/** Tables: how the builder cuts a sorted list into blocks and indexes them, and how a lookup
    finds an entry again. */
module Tables {
  import opened Coding
  import ByteKeys
  import opened Separators
  import opened TwoLevel
  import FilterBlocks
  import opened Blocks

  type Rows = seq<Row<Bytes>>

  ghost predicate RowsInOrder(rows: Rows, i: nat, j: nat)
    requires i < |rows| && j < |rows|
  {
    Separators.Less(rows[i].key, rows[j].key)
  }

  ghost predicate Ascending(rows: Rows) {
    forall i, j | 0 <= i < j < |rows| :: RowsInOrder(rows, i, j)
  }

  /** Reading by block number. */
  function BlockReader(blocks: seq<Rows>): Reader {
    (n: nat) => if n < |blocks| then blocks[n] else []
  }

  /** An index key for a block that ends at `e`: its last key, or one whose user key lies between
      those of that key and of the rows to come. */
  ghost predicate Divides(k: InternalKey, rows: Rows, e: nat) {
    && 0 < e <= |rows|
    && (k == rows[e - 1].key
        || (ByteKeys.Less(rows[e - 1].key.user, k.user)
            && forall j | e <= j < |rows| :: ByteKeys.Less(k.user, rows[j].key.user)))
  }

  /** The rows are cut into blocks. */
  ghost predicate CutInto(rows: Rows, cuts: seq<nat>, blocks: seq<Rows>) {
    && |cuts| == |blocks| + 1 && cuts[0] == 0
    && forall b | 0 <= b < |blocks| :: CutAt(rows, cuts, blocks, b)
  }

  ghost predicate CutAt(rows: Rows, cuts: seq<nat>, blocks: seq<Rows>, b: nat)
    requires |cuts| == |blocks| + 1 && b < |blocks|
  {
    cuts[b] < cuts[b + 1] <= |rows| && blocks[b] == rows[cuts[b]..cuts[b + 1]]
  }

  ghost predicate Indexes(rows: Rows, cuts: seq<nat>, index: Index) {
    && |index| < |cuts|
    && forall b | 0 <= b < |index| :: IndexAt(rows, cuts, index, b)
  }

  ghost predicate IndexAt(rows: Rows, cuts: seq<nat>, index: Index, b: nat)
    requires |index| < |cuts| && b < |index|
  {
    index[b].value == b && Divides(index[b].key, rows, cuts[b + 1])
  }

  lemma {:induction false} CutsGrow(rows: Rows, cuts: seq<nat>, blocks: seq<Rows>, b: nat, c: nat)
    requires CutInto(rows, cuts, blocks) && b <= c <= |blocks|
    ensures cuts[b] <= cuts[c]
    decreases c
  {
    if b < c {
      CutsGrow(rows, cuts, blocks, b, c - 1);
      assert CutAt(rows, cuts, blocks, c - 1);
    }
  }

  lemma {:induction false} JoinedIsPrefix(rows: Rows, cuts: seq<nat>, blocks: seq<Rows>, index: Index, n: nat)
    requires CutInto(rows, cuts, blocks) && n <= |index| <= |blocks|
    requires forall b | 0 <= b < |index| :: index[b].value == b
    ensures cuts[n] <= |rows| && Joined(index, BlockReader(blocks), n) == rows[..cuts[n]]
  {
    if n > 0 {
      JoinedIsPrefix(rows, cuts, blocks, index, n - 1);
      assert CutAt(rows, cuts, blocks, n - 1);
    }
  }

  lemma IndexIsNumbered(rows: Rows, cuts: seq<nat>, index: Index)
    requires Indexes(rows, cuts, index)
    ensures forall b | 0 <= b < |index| :: index[b].value == b
  {
    forall b | 0 <= b < |index| ensures index[b].value == b { assert IndexAt(rows, cuts, index, b); }
  }

  lemma DividesInOrder(k: InternalKey, rows: Rows, e: nat, i: nat)
    requires Ascending(rows) && Divides(k, rows, e) && i < |rows|
    ensures if i < e then !Separators.Less(k, rows[i].key) else Separators.Less(k, rows[i].key)
  {
    LessIsTotal(k, rows[e - 1].key);
    if i < e - 1 {
      assert RowsInOrder(rows, i, e - 1);
      NotLess(rows[i].key, rows[e - 1].key, k);
      LessIsTotal(rows[i].key, k);
      if Separators.Less(rows[e - 1].key, k) {
        LessIsTransitive(rows[i].key, rows[e - 1].key, k);
      }
    } else if e <= i {
      assert RowsInOrder(rows, e - 1, i);
    }
  }

  lemma BlockCovered(rows: Rows, cuts: seq<nat>, blocks: seq<Rows>, index: Index, b: nat)
    requires Ascending(rows) && CutInto(rows, cuts, blocks) && Indexes(rows, cuts, index) && b < |index| <= |blocks|
    ensures Covers(index, BlockReader(blocks), b)
  {
    assert CutAt(rows, cuts, blocks, b) && IndexAt(rows, cuts, index, b);
    forall p | 0 <= p < |blocks[b]| ensures !Separators.Less(index[b].key, blocks[b][p].key) {
      DividesInOrder(index[b].key, rows, cuts[b + 1], cuts[b] + p);
    }
  }

  lemma BlockPrecedes(rows: Rows, cuts: seq<nat>, blocks: seq<Rows>, index: Index, b: nat, c: nat)
    requires Ascending(rows) && CutInto(rows, cuts, blocks) && Indexes(rows, cuts, index) && b < c < |index| <= |blocks|
    ensures Precedes(index, BlockReader(blocks), b, c)
  {
    assert CutAt(rows, cuts, blocks, c) && IndexAt(rows, cuts, index, b) && IndexAt(rows, cuts, index, c);
    CutsGrow(rows, cuts, blocks, b + 1, c);
    forall p | 0 <= p < |blocks[c]| ensures Separators.Less(index[b].key, blocks[c][p].key) {
      DividesInOrder(index[b].key, rows, cuts[b + 1], cuts[c] + p);
    }
  }

  /** A finished index separates the blocks, and the blocks are the rows. */
  lemma BuiltIsSeparated(rows: Rows, cuts: seq<nat>, blocks: seq<Rows>, index: Index)
    requires Ascending(rows) && CutInto(rows, cuts, blocks) && Indexes(rows, cuts, index)
    requires |index| == |blocks| && cuts[|blocks|] == |rows|
    ensures Separated(index, BlockReader(blocks)) && All(index, BlockReader(blocks)) == rows
  {
    IndexIsNumbered(rows, cuts, index);
    JoinedIsPrefix(rows, cuts, blocks, index, |index|);
    forall b | 0 <= b < |index| ensures Covers(index, BlockReader(blocks), b) {
      BlockCovered(rows, cuts, blocks, index, b);
    }
    forall b, c | 0 <= b < c < |index| ensures Precedes(index, BlockReader(blocks), b, c) {
      BlockPrecedes(rows, cuts, blocks, index, b, c);
    }
  }

  /** An upper bound for what a row takes in the file: its entry, the end of a block behind it, and
      the entry of that block in the index. */
  function Cost(row: Row<Bytes>): nat {
    2 * |row.key.user| + |row.value| + 87
  }

  function TotalCost(rows: Rows): nat {
    if rows == [] then 0 else TotalCost(rows[..|rows| - 1]) + Cost(rows[|rows| - 1])
  }

  lemma OneMoreCost(rows: Rows, row: Row<Bytes>)
    ensures TotalCost(rows + [row]) == TotalCost(rows) + Cost(row)
  {
    assert (rows + [row])[..|rows|] == rows;
  }

  /** And for the whole file, with a filter that takes so many bytes for each key. */
  function FileBound(rows: Rows, filterKey: Bytes, rate: nat): nat {
    2 * TotalCost(rows) + rate * |rows| + |filterKey| + 160
  }

  // ----- Looking up --------------------------------------------------------------------------------

  datatype Filter = NoFilter | Filter(policy: FilterBlocks.Policy, contents: Bytes)

  datatype Table = Table(blocks: seq<Rows>, offsets: seq<nat>, index: Index, filter: Filter)

  /** The filter excludes no row. */
  ghost predicate FilterAdmits(filter: Filter, offsets: seq<nat>, blocks: seq<Rows>) {
    filter.Filter? ==> forall b, p :: RowAdmitted(filter, offsets, blocks, b, p)
  }

  ghost predicate RowAdmitted(filter: Filter, offsets: seq<nat>, blocks: seq<Rows>, b: nat, p: nat)
    requires filter.Filter?
  {
    b < |blocks| && b < |offsets| && p < |blocks[b]| ==>
      FilterBlocks.MayMatch(filter.policy, filter.contents, offsets[b], blocks[b][p].key.user)
  }

  /** The table was built from these rows. */
  ghost predicate BuiltFrom(t: Table, rows: Rows, cuts: seq<nat>) {
    && Ascending(rows) && CutInto(rows, cuts, t.blocks) && Indexes(rows, cuts, t.index)
    && |t.index| == |t.blocks| == |t.offsets| && cuts[|t.blocks|] == |rows|
    && FilterAdmits(t.filter, t.offsets, t.blocks)
  }

  /** The search in the index and then in the block finds the place among all rows. */
  lemma PlaceOf(t: Table, rows: Rows, cuts: seq<nat>, k: InternalKey)
    requires BuiltFrom(t, rows, cuts)
    ensures var b := LowerBound(t.index, k);
            if b == |t.index| then LowerBound(rows, k) == |rows|
            else CutAt(rows, cuts, t.blocks, b) && LowerBound(rows, k) == cuts[b] + LowerBound(t.blocks[b], k)
  {
    var b := LowerBound(t.index, k);
    BuiltIsSeparated(rows, cuts, t.blocks, t.index);
    IndexIsNumbered(rows, cuts, t.index);
    SoughtBlock(t.index, BlockReader(t.blocks), k);
    if b < |t.index| {
      JoinedIsPrefix(rows, cuts, t.blocks, t.index, b);
      assert CutAt(rows, cuts, t.blocks, b);
    }
  }

  /** When the block that the index finds has nothing at or after the key, the next row is of
      another user key. */
  lemma NextIsOther(t: Table, rows: Rows, cuts: seq<nat>, k: InternalKey)
    requires BuiltFrom(t, rows, cuts)
    requires var b := LowerBound(t.index, k);
             b < |t.index| && LowerBound(t.blocks[b], k) == |t.blocks[b]|
    ensures var i := LowerBound(rows, k);
            i < |rows| ==> rows[i].key.user != k.user
  {
    var b, i := LowerBound(t.index, k), LowerBound(rows, k);
    PlaceOf(t, rows, cuts, k);
    var d := t.index[b].key;
    assert IndexAt(rows, cuts, t.index, b);
    assert Divides(d, rows, i);
    if i < |rows| && d != rows[i - 1].key {
      ByteKeys.LessIsTotal(d.user, k.user);
      ByteKeys.LessIsTotal(d.user, d.user);
    }
  }

  /** What the index and the block say of a key. */
  ghost predicate SoughtIn(t: Table, rows: Rows, k: InternalKey, b: nat, i: nat) {
    if b >= |t.index| then i == |rows|
    else
      && b < |t.blocks| && t.index[b].value == b
      && var p := LowerBound(t.blocks[b], k);
         if p < |t.blocks[b]| then i < |rows| && rows[i] == t.blocks[b][p]
         else i == |rows| || (i < |rows| && rows[i].key.user != k.user)
  }

  lemma SoughtRow(t: Table, rows: Rows, cuts: seq<nat>, k: InternalKey)
    requires BuiltFrom(t, rows, cuts)
    ensures SoughtIn(t, rows, k, LowerBound(t.index, k), LowerBound(rows, k))
  {
    var b := LowerBound(t.index, k);
    PlaceOf(t, rows, cuts, k);
    IndexIsNumbered(rows, cuts, t.index);
    if b < |t.index| && LowerBound(t.blocks[b], k) == |t.blocks[b]| {
      NextIsOther(t, rows, cuts, k);
    }
  }

  /** The first row at or after (user, trailer) is the newest entry of the user key that is not
      newer than the trailer, if there is one. */
  lemma FirstIsNewest(rows: Rows, k: InternalKey, j: nat)
    requires Ascending(rows) && j < |rows| && rows[j].key.user == k.user && rows[j].key.trailer <= k.trailer
    ensures var i := LowerBound(rows, k);
            i <= j && rows[i].key.user == k.user && rows[j].key.trailer <= rows[i].key.trailer <= k.trailer
  {
    var i := LowerBound(rows, k);
    ByteKeys.LessIsTotal(k.user, k.user);
    if i < j {
      assert RowsInOrder(rows, i, j);
      ByteKeys.LessIsTotal(rows[i].key.user, k.user);
    }
  }

  // ----- Building ----------------------------------------------------------------------------------

  /** The rows so far: blocks that are written, and one in the making. The index entry of the
      last written block may be pending until the next row is known. */
  ghost predicate Shaped(rows: Rows, cuts: seq<nat>, blocks: seq<Rows>, block: Rows, index: Index, pending: bool) {
    && Ascending(rows) && CutInto(rows, cuts, blocks) && cuts[|blocks|] <= |rows| && block == rows[cuts[|blocks|]..]
    && Indexes(rows, cuts, index) && |blocks| == |index| + (if pending then 1 else 0)
    && (blocks != [] ==> pending == (block == []))
  }

  /** Every row's user key was added to the filter for its block. */
  ghost predicate Filtered(blocks: seq<Rows>, offsets: seq<nat>, block: Rows, offset: nat,
                           added: seq<FilterBlocks.Added>) {
    && |offsets| == |blocks|
    && (forall b, p | 0 <= b < |blocks| && 0 <= p < |blocks[b]| ::
        FilterBlocks.Added(offsets[b], blocks[b][p].key.user) in added)
    && (forall p | 0 <= p < |block| :: FilterBlocks.Added(offset, block[p].key.user) in added)
  }

  lemma FilteredMore(blocks: seq<Rows>, offsets: seq<nat>, block: Rows, offset: nat, added: seq<FilterBlocks.Added>,
                     row: Row<Bytes>)
    requires Filtered(blocks, offsets, block, offset, added)
    ensures Filtered(blocks, offsets, block + [row], offset, added + [FilterBlocks.Added(offset, row.key.user)])
  {
  }

  lemma FilteredBlock(blocks: seq<Rows>, offsets: seq<nat>, block: Rows, offset: nat, added: seq<FilterBlocks.Added>)
    requires Filtered(blocks, offsets, block, offset, added)
    ensures Filtered(blocks + [block], offsets + [offset], [], offset, added)
  {
  }

  lemma FilterIsComplete(t: Table, block: Rows, offset: nat, added: seq<FilterBlocks.Added>, result: Bytes,
                         filterOffsets: seq<nat>, windows: seq<seq<Bytes>>)
    requires t.filter.Filter? && Filtered(t.blocks, t.offsets, block, offset, added)
    requires FilterBlocks.NoFalseNegatives(t.filter.policy)
             && FilterBlocks.Filters(t.filter.policy, result, filterOffsets, windows)
    requires t.filter.contents == result + OffsetsOf(filterOffsets) + Fixed(|result|, 4) + [FilterBlocks.FILTER_BASE_LG]
    requires |t.filter.contents| < 0x1_0000_0000
    requires forall a | a in added :: a.offset / FilterBlocks.FILTER_BASE < |windows|
                                      && a.key in windows[a.offset / FilterBlocks.FILTER_BASE]
    ensures FilterAdmits(t.filter, t.offsets, t.blocks)
  {
    forall b: nat, p: nat ensures RowAdmitted(t.filter, t.offsets, t.blocks, b, p) {
      if b < |t.blocks| && b < |t.offsets| && p < |t.blocks[b]| {
        FilterBlocks.AddedMayMatch(t.filter.policy, result, filterOffsets, windows, t.filter.contents,
                                   FilterBlocks.Added(t.offsets[b], t.blocks[b][p].key.user));
      }
    }
  }

  lemma LastSeparator(rows: Rows, cuts: seq<nat>, blocks: seq<Rows>, index: Index, separator: InternalKey)
    requires Shaped(rows, cuts, blocks, [], index, true) && blocks != [] && rows != []
    requires separator == rows[|rows| - 1].key || ByteKeys.Less(rows[|rows| - 1].key.user, separator.user)
    ensures Indexes(rows, cuts, index + [Row(separator, |blocks| - 1)])
  {
    var more := index + [Row(separator, |blocks| - 1)];
    forall b | 0 <= b < |more| ensures IndexAt(rows, cuts, more, b) {
      if b < |index| { assert IndexAt(rows, cuts, index, b); }
    }
  }

  lemma BlockShapes(rows: Rows, cuts: seq<nat>, blocks: seq<Rows>, block: Rows, index: Index, pending: bool)
    requires Shaped(rows, cuts, blocks, block, index, pending) && block != []
    ensures !pending && |index| == |blocks|
    ensures Shaped(rows, cuts + [|rows|], blocks + [block], [], index, true)
  {
    forall b | 0 <= b < |blocks| + 1 ensures CutAt(rows, cuts + [|rows|], blocks + [block], b) {
      if b < |blocks| { assert CutAt(rows, cuts, blocks, b); }
    }
    forall b | 0 <= b < |index| ensures IndexAt(rows, cuts + [|rows|], index, b) {
      assert IndexAt(rows, cuts, index, b);
    }
  }

  lemma OldSeparators(rows: Rows, row: Row<Bytes>, cuts: seq<nat>, blocks: seq<Rows>, block: Rows, index: Index)
    requires Shaped(rows, cuts, blocks, block, index, false)
    requires rows != [] ==> Separators.Less(rows[|rows| - 1].key, row.key)
    ensures Shaped(rows + [row], cuts, blocks, block + [row], index, false)
  {
    forall b | 0 <= b < |index| ensures StaysBefore(index[b].key, rows, cuts[b + 1], row) {
      assert IndexAt(rows, cuts, index, b);
      CutsGrow(rows, cuts, blocks, b + 1, |blocks|);
    }
    RowAdded(rows, row, cuts, blocks, index);
  }

  lemma NewSeparator(rows: Rows, row: Row<Bytes>, cuts: seq<nat>, blocks: seq<Rows>, index: Index,
                     separator: InternalKey)
    requires Shaped(rows, cuts, blocks, [], index, true) && blocks != [] && rows != []
    requires var last := rows[|rows| - 1].key;
             && Separators.Less(last, row.key)
             && (separator == last || (ByteKeys.Less(last.user, separator.user)
                 && ByteKeys.Less(separator.user, row.key.user)))
    ensures Shaped(rows + [row], cuts, blocks, [row], index + [Row(separator, |blocks| - 1)], false)
  {
    var more := index + [Row(separator, |blocks| - 1)];
    forall b | 0 <= b < |more| ensures IndexAt(rows, cuts, more, b)
        && StaysBefore(more[b].key, rows, cuts[b + 1], row) {
      if b < |index| {
        assert IndexAt(rows, cuts, index, b);
        CutsGrow(rows, cuts, blocks, b + 1, |blocks| - 1);
        assert CutAt(rows, cuts, blocks, |blocks| - 1);
      }
    }
    RowAdded(rows, row, cuts, blocks, more);
  }

  /** Separators stay separators when a row is added. */
  lemma RowAdded(rows: Rows, row: Row<Bytes>, cuts: seq<nat>, blocks: seq<Rows>, index: Index)
    requires Ascending(rows) && CutInto(rows, cuts, blocks) && Indexes(rows, cuts, index)
    requires rows != [] ==> Separators.Less(rows[|rows| - 1].key, row.key)
    requires forall b | 0 <= b < |index| :: StaysBefore(index[b].key, rows, cuts[b + 1], row)
    ensures Ascending(rows + [row]) && CutInto(rows + [row], cuts, blocks) && Indexes(rows + [row], cuts, index)
  {
    var more := rows + [row];
    RowsAscend(rows, row);
    forall b | 0 <= b < |blocks| ensures CutAt(more, cuts, blocks, b) {
      assert CutAt(rows, cuts, blocks, b);
    }
    forall b | 0 <= b < |index| ensures IndexAt(more, cuts, index, b) {
      assert IndexAt(rows, cuts, index, b) && StaysBefore(index[b].key, rows, cuts[b + 1], row);
      if cuts[b + 1] < |rows| {
        assert RowsInOrder(more, cuts[b + 1], |rows|);
        FollowsUser(index[b].key, rows[cuts[b + 1]].key, row.key);
      }
    }
  }

  lemma RowsAscend(rows: Rows, row: Row<Bytes>)
    requires Ascending(rows) && (rows != [] ==> Separators.Less(rows[|rows| - 1].key, row.key))
    ensures Ascending(rows + [row])
  {
    var more := rows + [row];
    forall i, j | 0 <= i < j < |more| ensures RowsInOrder(more, i, j) {
      if j < |rows| {
        assert RowsInOrder(rows, i, j);
      } else if i < |rows| - 1 {
        assert RowsInOrder(rows, i, |rows| - 1);
        LessIsTransitive(rows[i].key, rows[|rows| - 1].key, row.key);
      }
    }
  }

  ghost predicate StaysBefore(k: InternalKey, rows: Rows, e: nat, row: Row<Bytes>) {
    e < |rows| || (e == |rows| > 0 && (k == rows[e - 1].key || ByteKeys.Less(k.user, row.key.user)))
  }

  lemma FollowsUser(k: InternalKey, a: InternalKey, b: InternalKey)
    requires Separators.Less(a, b)
    ensures ByteKeys.Less(k.user, a.user) ==> ByteKeys.Less(k.user, b.user)
  {
    if ByteKeys.Less(k.user, a.user) && ByteKeys.Less(a.user, b.user) {
      ByteKeys.LessIsTransitive(k.user, a.user, b.user);
    }
  }
}
