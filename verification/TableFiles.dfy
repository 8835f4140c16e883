/** A table file from end to end: rows are written to a file, and what is looked up in its bytes
    is what a lookup in the rows finds. */
module TableFiles {
  import opened Coding
  import Keys
  import opened Separators
  import opened TwoLevel
  import FilterBlocks
  import opened Tables
  import opened TableFormat
  import opened TableImages
  import opened TableBuilders
  import opened TableReaders

  ghost predicate Storable(row: Row<Bytes>) {
    KeyOk(row.key) && |row.value| < 0x1_0000_0000
  }

  /** Options under which files are written and read. */
  ghost predicate OptionsOk(o: Options, restartInterval: nat) {
    && Lossless(o.format) && restartInterval >= 1 && |o.filterKey| < 0x1_0000_0000
    && (o.policy.Some? ==> FilterBlocks.NoFalseNegatives(o.policy.value))
  }

  /** The decompressor gives no block of four gigabytes; the format keeps that length in 32 bits. */
  ghost predicate ShortBlocks(f: Format) {
    forall c | f.uncompress(c).Some? :: |f.uncompress(c).value| < 0x1_0000_0000
  }

  /** In a file of less than four gigabytes there is no such block at all. */
  lemma SmallFileReads(f: Format, file: Bytes, h: Handle, data: Bytes)
    requires |file| < 0x1_0000_0000 && ShortBlocks(f) && Reads(f, file, h, data)
    ensures |data| < 0x1_0000_0000
  {
    assert Unpacked(f, true, file[h.offset..h.offset + h.size + TRAILER_SIZE]) == Contents(data);
  }

  lemma SmallFileFits(f: Format, filterKey: Bytes, file: Bytes, t: Table, image: Image)
    requires |file| < 0x1_0000_0000 && ShortBlocks(f) && IsImage(f, filterKey, file, t, image)
    ensures SmallBlocks(image) && (t.filter.Filter? ==> |t.filter.contents| < 0x1_0000_0000)
  {
    forall s | s in image.stored ensures |s.contents| < 0x1_0000_0000 {
      var b :| 0 <= b < |image.stored| && image.stored[b] == s;
      assert BlockAt(f, file, image.stored, t.offsets, t.blocks, b);
      SmallFileReads(f, file, s.handle, s.contents);
    }
    SmallFileReads(f, file, image.index.handle, image.index.contents);
    SmallFileReads(f, file, image.meta.handle, image.meta.contents);
    if t.filter.Filter? { SmallFileReads(f, file, image.filter, t.filter.contents); }
  }

  /** Filters take no more than `rate` bytes for each key, if there are any. */
  ghost predicate FiltersAreLinear(o: Options, rate: nat) {
    o.policy.Some? ==> FilterBlocks.Linear(o.policy.value, rate)
  }

  method NewFilter(o: Options) returns (filter: FilterBlocks.FilterBlockBuilder?)
    ensures filter == null <==> o.policy.None?
    ensures filter != null ==> fresh(filter) && filter.Valid() && filter.block == 0 && filter.added == []
                               && filter.policy == o.policy.value && forall rate :: filter.Short(rate)
  {
    filter := null;
    if o.policy.Some? {
      filter := new FilterBlocks.FilterBlockBuilder(o.policy.value);
    }
  }

  /** Writes a file with the rows; it is no longer than they ask for. */
  method Build(o: Options, blockSize: nat, restartInterval: nat, rows: Rows, ghost rate: nat)
    returns (file: Bytes, ghost t: Table, ghost image: Image, ghost cuts: seq<nat>)
    requires OptionsOk(o, restartInterval) && Ascending(rows) && forall i | 0 <= i < |rows| :: Storable(rows[i])
    ensures if o.policy.Some? then t.filter.Filter? && t.filter.policy == o.policy.value else t.filter.NoFilter?
    ensures FiltersAreLinear(o, rate) ==> |file| <= FileBound(rows, o.filterKey, rate)
    ensures |file| < 0x1_0000_0000_0000_0000 ==> IsImage(o.format, o.filterKey, file, t, image)
    ensures (t.filter.Filter? ==> |t.filter.contents| < 0x1_0000_0000) ==> BuiltFrom(t, rows, cuts)
  {
    var filter := NewFilter(o);
    var builder := new TableBuilder(o.format, blockSize, restartInterval, o.filterKey, filter);
    assert rows[..0] == [];
    for i := 0 to |rows|
      invariant builder.Valid() && builder.Sized() && builder.rows == rows[..i]
      invariant fresh(builder) && fresh(builder.dataBlock) && fresh(builder.indexBlock)
      invariant builder.filter == filter && (filter != null ==> fresh(filter)) && builder.format == o.format
                && builder.filterKey == o.filterKey
      invariant filter != null ==> filter.policy == o.policy.value
    {
      AddNext(builder, rows, i);
    }
    assert rows[..|rows|] == rows;
    t, image := builder.Finish(rate);
    file, cuts := builder.file, builder.cuts;
  }

  method AddNext(builder: TableBuilder, rows: Rows, i: nat)
    requires builder.Valid() && builder.Sized() && i < |rows| && builder.rows == rows[..i] && Ascending(rows)
             && Storable(rows[i])
    modifies builder, builder.filter, builder.dataBlock, builder.indexBlock
    ensures builder.Valid() && builder.Sized() && builder.rows == rows[..i + 1]
  {
    LastIsBelow(rows, i);
    assert rows[..i + 1] == rows[..i] + [Row(rows[i].key, rows[i].value)];
    builder.LastKey();
    builder.Add(rows[i].key, rows[i].value);
  }

  lemma LastIsBelow(rows: Rows, i: nat)
    requires Ascending(rows) && i < |rows|
    ensures rows[..i] != [] ==> Separators.Less(rows[..i][|rows[..i]| - 1].key, rows[i].key)
  {
    if i > 0 { assert RowsInOrder(rows, i - 1, i); }
  }

  /** Whatever the rows, the block size, the compression and the filter policy: the file opens
      if it has less than four gigabytes, and a lookup hands on the first row at or after the
      key, or nothing when that row is of another user key. That it has less can be told from
      the sizes of the rows. */
  method BuildAndGet(o: Options, blockSize: nat, restartInterval: nat, rows: Rows, verify: bool, k: InternalKey,
                     ghost rate: nat)
    returns (file: Bytes, r: Keys.Option<(Bytes, Bytes)>, status: Status)
    requires OptionsOk(o, restartInterval) && Ascending(rows) && (forall i | 0 <= i < |rows| :: Storable(rows[i]))
             && KeyOk(k)
    ensures FiltersAreLinear(o, rate) ==> |file| <= FileBound(rows, o.filterKey, rate)
    ensures |file| < 0x1_0000_0000 && ShortBlocks(o.format) ==> status == Fine && HandedOn(rows, k, r)
  {
    ghost var t, image, cuts;
    file, t, image, cuts := Build(o, blockSize, restartInterval, rows, rate);
    if |file| < 0x1_0000_0000 && ShortBlocks(o.format) {
      SmallFileFits(o.format, o.filterKey, file, t, image);
    }
    var table;
    table, status := Open(o, file, o.filterKey, t, image);
    if table.None? { return file, Keys.None, status; }
    r, status := InternalGet(o, table.value, verify, k, o.filterKey, t, image, rows, cuts);
  }
}
