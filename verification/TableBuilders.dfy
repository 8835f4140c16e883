/** The builder of table files. */
module TableBuilders {
  import opened Coding
  import Log
  import opened Blocks
  import opened BlockBuilders
  import opened Separators
  import opened TwoLevel
  import FilterBlocks
  import opened Tables
  import opened TableFormat
  import opened TableImages

  class TableBuilder {
    const format: Format
    const blockSize: nat
    const restartInterval: nat
    /** The key under which the block of filters is found, and its builder. */
    const filterKey: Bytes
    const filter: FilterBlocks.FilterBlockBuilder?

    const dataBlock: BlockBuilder
    const indexBlock: BlockBuilder
    var file: Bytes
    var lastKey: InternalKey
    /** The last block is written, but its index entry waits for the key that follows. */
    var pendingIndexEntry: bool
    var pendingHandle: Handle

    ghost var rows: Rows
    ghost var cuts: seq<nat>
    ghost var blocks: seq<Rows>
    ghost var block: Rows
    ghost var index: Index
    ghost var offsets: seq<nat>
    ghost var stored: seq<Stored>

    ghost predicate Valid()
      reads this, filter, dataBlock, indexBlock
    {
      && Cut() && InFile() && FilterValid() && Building() && Holds(dataBlock.slots, block)
    }

    /** No part is the builder itself. */
    ghost predicate Apart() {
      var me: object, filters: object? := this, filter;
      me != filters && me != dataBlock && me != indexBlock
    }

    ghost predicate Cut()
      reads this`rows, this`cuts, this`blocks, this`block, this`index, this`pendingIndexEntry, this`lastKey
    {
      && Shaped(rows, cuts, blocks, block, index, pendingIndexEntry) && KeyOk(lastKey)
      && (rows != [] ==> lastKey == rows[|rows| - 1].key)
    }

    ghost predicate InFile()
      reads this`file, this`stored, this`offsets, this`blocks, this`pendingIndexEntry, this`pendingHandle
    {
      && Written(format, file, stored, offsets, blocks)
      && (pendingIndexEntry ==> stored != [] && pendingHandle == stored[|stored| - 1].handle)
    }

    /** Both blocks in the making. */
    ghost predicate Building()
      reads this`index, this`stored, dataBlock, indexBlock
    {
      && Lossless(format) && restartInterval >= 1
      && dataBlock != indexBlock && dataBlock.Valid() && indexBlock.Valid()
      && |index| <= |stored| && Holds(indexBlock.slots, IndexRows(index, stored))
    }

    ghost predicate FilterValid()
      reads this`file, this`blocks, this`offsets, this`block, filter
    {
      FilterValidWith(block)
    }

    ghost predicate FilterValidWith(block: Rows)
      reads this`file, this`blocks, this`offsets, filter
    {
      filter != null ==> filter.Valid() && filter.block == |file|
                         && Filtered(blocks, offsets, block, |file|, filter.added)
    }

    // ----- How large the file is --------------------------------------------------------------------

    function SizeNow(): nat
      reads this`file, dataBlock, indexBlock
    {
      |file| + dataBlock.CurrentSizeEstimate() + indexBlock.CurrentSizeEstimate()
    }

    /** What the block in the making, or the pending entry, still adds. */
    function Reserve(): nat
      reads this`pendingIndexEntry, this`lastKey, dataBlock
    {
      if !dataBlock.IsEmpty() then |lastKey.user| + 60 else if pendingIndexEntry then |lastKey.user| + 47 else 0
    }

    ghost predicate Sized()
      reads this, filter, dataBlock, indexBlock
    {
      SizeNow() + Reserve() <= 16 + TotalCost(rows) && FilterCounts(|rows|)
    }

    ghost predicate Linear(rate: nat) {
      filter != null ==> FilterBlocks.Linear(filter.policy, rate)
    }

    ghost predicate FilterCounts(n: nat)
      reads filter
    {
      filter != null ==> |filter.added| == n && forall rate :: filter.Short(rate)
    }

    constructor (format: Format, blockSize: nat, restartInterval: nat, filterKey: Bytes,
                 filter: FilterBlocks.FilterBlockBuilder?)
      requires Lossless(format) && restartInterval >= 1
      requires filter != null ==> filter.Valid() && filter.block == 0 && filter.added == []
      ensures Valid() && rows == [] && file == [] && fresh(dataBlock) && fresh(indexBlock)
      ensures FilterCounts(0) ==> Sized()
      ensures this.format == format && this.filter == filter && this.filterKey == filterKey
    {
      this.format, this.blockSize, this.restartInterval, this.filterKey, this.filter := format, blockSize,
          restartInterval, filterKey, filter;
      dataBlock := new BlockBuilder(restartInterval);
      indexBlock := new BlockBuilder(1);
      file, lastKey, pendingIndexEntry, pendingHandle := [], InternalKey([], 0), false, Handle(0, 0);
      rows, cuts, blocks, block, index, offsets, stored := [], [0], [], [], [], [], [];
    }

    lemma LastKey()
      requires Valid()
      ensures rows != [] ==> lastKey == rows[|rows| - 1].key
    {
    }

    /** Adds a row; a block that has become large enough is written. */
    method Add(key: InternalKey, value: Bytes)
      requires Valid() && (rows != [] ==> Separators.Less(lastKey, key))
      requires KeyOk(key) && |value| < 0x1_0000_0000
      modifies this, filter, dataBlock, indexBlock
      ensures Valid() && rows == old(rows) + [Row(key, value)] && (old(Sized()) ==> Sized())
      ensures if blocks == old(blocks) then block == old(block) + [Row(key, value)]
              && dataBlock.CurrentSizeEstimate() < blockSize
              else BlockAdded(old(blocks), old(block) + [Row(key, value)]) && LastSize() >= blockSize
    {
      OneMoreCost(rows, Row(key, value));
      AddEntries(Row(key, value));
      if dataBlock.CurrentSizeEstimate() >= blockSize {
        Flush();
      }
    }

    /** The last block has these rows, and nothing is in the making. */
    ghost predicate BlockAdded(before: seq<Rows>, rows: Rows)
      reads this`blocks, this`block
    {
      blocks == before + [rows] && block == []
    }

    /** The bytes of the last block before it was compressed. */
    ghost function LastSize(): nat
      reads this`stored
    {
      if stored == [] then 0 else |stored[|stored| - 1].contents|
    }

    method AddEntries(row: Row<Bytes>)
      requires Valid() && (rows != [] ==> Separators.Less(lastKey, row.key))
      requires KeyOk(row.key) && |row.value| < 0x1_0000_0000
      modifies this`lastKey, this`pendingIndexEntry, this`index, this`rows, this`block, filter, dataBlock, indexBlock
      ensures Valid() && rows == old(rows) + [row] && (old(FilterCounts(|rows|)) ==> FilterCounts(|rows|))
      ensures SizeNow() + Reserve() <= old(SizeNow() + Reserve()) + Cost(row)
      ensures block == old(block) + [row] && !dataBlock.IsEmpty()
    {
      AddIndexEntry(row);
      AddRow(row);
    }

    /** The separator of the last block is made only when the key that follows it is known. */
    method AddIndexEntry(row: Row<Bytes>)
      requires Valid() && (rows != [] ==> Separators.Less(lastKey, row.key))
      modifies this`lastKey, this`pendingIndexEntry, this`index, indexBlock
      ensures !pendingIndexEntry && InFile() && FilterValid() && Building()
      ensures Shaped(rows + [row], cuts, blocks, block + [row], index, false)
      ensures SizeNow() <= old(SizeNow()) + if old(pendingIndexEntry) then |old(lastKey).user| + 47 else 0
    {
      if pendingIndexEntry {
        assert CutAt(rows, cuts, blocks, |blocks| - 1);
        var separator := FindShortestSeparator(lastKey, row.key);
        NewSeparator(rows, row, cuts, blocks, index, separator);
        PutEntry(separator);
      } else {
        OldSeparators(rows, row, cuts, blocks, block, index);
      }
    }

    /** The index entry of the last block. */
    method PutEntry(key: InternalKey)
      requires Building() && pendingIndexEntry && |index| + 1 == |stored|
               && pendingHandle == stored[|stored| - 1].handle && KeyOk(key)
      modifies this`lastKey, this`pendingIndexEntry, this`index, indexBlock
      ensures Building() && !pendingIndexEntry && lastKey == key && index == old(index) + [Row(key, |old(index)|)]
      ensures SizeNow() <= old(SizeNow()) + |key.user| + 47
    {
      HandleLength(pendingHandle);
      var s := indexBlock.Add(EncodeKey(key), EncodeHandle(pendingHandle));
      IndexGrows(index, stored, Row(key, |index|), stored[|index|]);
      HoldsMore(old(indexBlock.slots), IndexRows(index, stored), s, Row(key, EncodeHandle(pendingHandle)));
      lastKey, pendingIndexEntry := key, false;
      index := index + [Row(key, |index|)];
    }

    method AddRow(row: Row<Bytes>)
      requires !pendingIndexEntry && InFile() && FilterValid() && Building() && Holds(dataBlock.slots, block)
      requires Shaped(rows + [row], cuts, blocks, block + [row], index, false)
      requires KeyOk(row.key) && |row.value| < 0x1_0000_0000
      modifies this`lastKey, this`rows, this`block, filter, dataBlock
      ensures Valid() && rows == old(rows) + [row]
      ensures SizeNow() <= old(SizeNow()) + |row.key.user| + |row.value| + 27 && Reserve() == |row.key.user| + 60
      ensures block == old(block) + [row] && !dataBlock.IsEmpty()
      ensures old(FilterCounts(|rows|)) ==> FilterCounts(|rows|)
    {
      AddToFilter(row);
      AddToBlock(row);
      TakeRow(row);
    }

    method TakeRow(row: Row<Bytes>)
      modifies this`lastKey, this`rows
      ensures lastKey == row.key && rows == old(rows) + [row]
    {
      lastKey := row.key;
      rows := rows + [row];
    }

    method AddToFilter(row: Row<Bytes>)
      requires FilterValid()
      modifies filter
      ensures FilterValidWith(block + [row]) && (old(FilterCounts(|rows|)) ==> FilterCounts(|rows| + 1))
    {
      if filter != null {
        FilteredMore(blocks, offsets, block, |file|, filter.added, row);
        filter.AddKey(row.key.user);
      }
    }

    method AddToBlock(row: Row<Bytes>)
      requires Building() && Holds(dataBlock.slots, block) && KeyOk(row.key) && |row.value| < 0x1_0000_0000
      modifies this`block, dataBlock
      ensures Building() && Holds(dataBlock.slots, block) && block == old(block) + [row] && !dataBlock.IsEmpty()
      ensures SizeNow() <= old(SizeNow()) + |row.key.user| + |row.value| + 27
    {
      var s := dataBlock.Add(EncodeKey(row.key), row.value);
      HoldsMore(old(dataBlock.slots), block, s, row);
      dataBlock.EmptyMeansNoSlots();
      block := block + [row];
    }

    /** Writes the block in the making, unless it is empty. */
    method Flush()
      requires Valid()
      modifies this, filter, dataBlock
      ensures Valid() && rows == old(rows) && block == [] && SizeNow() + Reserve() <= old(SizeNow() + Reserve())
      ensures lastKey == old(lastKey) && (old(FilterCounts(|rows|)) ==> FilterCounts(|rows|))
      ensures !old(dataBlock.IsEmpty()) ==> BlockAdded(old(blocks), old(block))
                                            && LastSize() == old(dataBlock.CurrentSizeEstimate())
    {
      dataBlock.EmptyMeansNoSlots();
      if dataBlock.IsEmpty() { return; }
      FlushRows();
    }

    method FlushRows()
      requires Valid() && block != [] && !dataBlock.IsEmpty()
      modifies this, filter, dataBlock
      ensures Valid() && rows == old(rows) && block == [] && SizeNow() + Reserve() <= old(SizeNow() + Reserve())
      ensures lastKey == old(lastKey) && (old(FilterCounts(|rows|)) ==> FilterCounts(|rows|))
      ensures !old(dataBlock.IsEmpty()) ==> BlockAdded(old(blocks), old(block))
                                            && LastSize() == old(dataBlock.CurrentSizeEstimate())
    {
      BlockShapes(rows, cuts, blocks, block, index, pendingIndexEntry);
      assert Apart();
      FlushBlock();
      cuts := cuts + [|rows|];
    }

    method FlushBlock()
      requires InFile() && FilterValid() && Building() && Holds(dataBlock.slots, block) && !pendingIndexEntry
               && |index| == |stored|
      modifies this`file, this`pendingHandle, this`pendingIndexEntry, this`blocks, this`block, this`offsets,
          this`stored, filter, dataBlock
      ensures InFile() && FilterValid() && Building() && pendingIndexEntry && dataBlock.slots == []
      ensures blocks == old(blocks) + [old(block)] && block == []
      ensures dataBlock.IsEmpty() && SizeNow() <= old(SizeNow()) + 13
      ensures LastSize() == old(dataBlock.CurrentSizeEstimate())
      ensures old(FilterCounts(|rows|)) ==> FilterCounts(|rows|)
    {
      if filter != null { FilteredBlock(blocks, offsets, block, |file|, filter.added); }
      WriteDataBlock();
      StartFilter();
    }

    /** The keys that follow go to a block that begins here. */
    method StartFilter()
      requires filter != null ==> filter.Valid() && filter.block <= |file|
                                  && Filtered(blocks, offsets, [], filter.block, filter.added)
      modifies filter
      ensures FilterValidWith([]) && (old(FilterCounts(|rows|)) ==> FilterCounts(|rows|))
    {
      if filter != null {
        filter.StartBlock(|file|);
      }
    }

    method WriteDataBlock()
      requires InFile() && Building() && !pendingIndexEntry && |index| == |stored| && Holds(dataBlock.slots, block)
      modifies this`file, this`pendingHandle, this`pendingIndexEntry, this`blocks, this`block, this`offsets,
          this`stored, dataBlock
      ensures InFile() && Building() && pendingIndexEntry && dataBlock.slots == [] && old(file) <= file
      ensures blocks == old(blocks) + [old(block)] && offsets == old(offsets) + [|old(file)|] && block == []
      ensures dataBlock.IsEmpty() && SizeNow() <= old(SizeNow()) + 13
      ensures LastSize() == old(dataBlock.CurrentSizeEstimate())
    {
      ghost var s;
      pendingHandle, s := WriteBlock(dataBlock);
      Extended(format, old(file), file, stored, offsets, blocks, s, block);
      IndexGrows(index, stored, Row(InternalKey([], 0), 0), s);
      pendingIndexEntry := true;
      TakeBlock(s, |old(file)|);
    }

    ghost method TakeBlock(s: Stored, offset: nat)
      modifies this`blocks, this`block, this`offsets, this`stored
      ensures blocks == old(blocks) + [old(block)] && offsets == old(offsets) + [offset] && stored == old(stored) + [s]
              && block == []
    {
      blocks, offsets, stored, block := blocks + [block], offsets + [offset], stored + [s], [];
    }

    /** Appends a block, compressed if that pays, with its type and checksum. */
    method WriteBlock(b: BlockBuilder) returns (h: Handle, ghost s: Stored)
      requires b.Valid() && Lossless(format)
      modifies this`file, b
      ensures b.Valid() && b.slots == [] && old(file) <= file && s.handle == h && s.layout.slots == old(b.slots)
      ensures b.IsEmpty() && b.CurrentSizeEstimate() == 8 && |file| <= |old(file)| + old(b.CurrentSizeEstimate()) + 5
      ensures |file| < 0x1_0000_0000_0000_0000 ==> IsStored(format, file, s) && h.offset == |old(file)|
      ensures |s.contents| == old(b.CurrentSizeEstimate())
    {
      var raw := b.Finish();
      var contents, kind := Packed(format, raw).0, Packed(format, raw).1;
      h := WriteRawBlock(contents, kind);
      s := Stored(h, raw, Layout(b.buffer, b.slots, b.offsets, b.rs, b.restarts));
      b.Reset();
      if |file| < 0x1_0000_0000_0000_0000 {
        PackedIsUnpacked(format, raw);
        AppendedReads(format, old(file), RawBlock(format, contents, kind), |contents|, raw);
      }
    }

    /** Offset and size are kept as numbers of 64 bits. */
    method WriteRawBlock(contents: Bytes, kind: byte) returns (h: Handle)
      modifies this`file
      ensures file == old(file) + RawBlock(format, contents, kind)
      ensures |file| < 0x1_0000_0000_0000_0000 ==> h == Handle(|old(file)|, |contents|)
    {
      h := Handle(|file| % 0x1_0000_0000_0000_0000, |contents| % 0x1_0000_0000_0000_0000);
      file := file + contents;
      var kindOnly := [kind];
      var crc := Log.Extend(format.step, Log.Checksum(format.step, contents), kindOnly);
      Log.ExtendConcat(format.step, 0, contents, kindOnly);
      file := file + (kindOnly + Fixed32(Log.Mask(crc)));
    }

    // ----- The end of the file ------------------------------------------------------------------------

    /** Writes what is left: the last block, the filters, the block that names them, the index
        and the footer. */
    method Finish(ghost rate: nat) returns (ghost t: Table, ghost image: Image)
      requires Valid() && (filter != null ==> FilterBlocks.NoFalseNegatives(filter.policy))
               && |filterKey| < 0x1_0000_0000
      modifies this, filter, dataBlock, indexBlock
      ensures rows == old(rows) && FilterMade(t.filter)
      ensures |file| < 0x1_0000_0000_0000_0000 ==> IsImage(format, filterKey, file, t, image)
      ensures (t.filter.Filter? ==> |t.filter.contents| < 0x1_0000_0000) ==> BuiltFrom(t, rows, cuts)
      ensures old(Sized()) && Linear(rate) ==> |file| <= FileBound(rows, filterKey, rate)
    {
      ghost var short, offset, size, filters := FlushLast(rate);
      ghost var length;
      t, image, length := FinishFile(size, rate, filters, short);
      if short {
        WholeIsBound(rows, filterKey, rate, offset, size, length, |file|);
      }
    }

    /** Writes what follows the last block. */
    method FinishFile(ghost size: nat, ghost rate: nat, ghost filters: nat, ghost counted: bool)
      returns (ghost t: Table, ghost image: Image, ghost length: nat)
      requires Cut() && block == [] && InFile() && FilterValid() && Building() && |filterKey| < 0x1_0000_0000
      requires filter != null ==> FilterBlocks.NoFalseNegatives(filter.policy)
      requires SizeNow() + Reserve() == size
      requires counted ==> Linear(rate) && FilterCounts(|rows|) && filters == FilterBlocks.Times(rate, |rows|)
      modifies this`lastKey, this`pendingIndexEntry, this`index, this`file, filter, indexBlock
      ensures rows == old(rows) && FilterMade(t.filter)
      ensures |file| < 0x1_0000_0000_0000_0000 ==> IsImage(format, filterKey, file, t, image)
      ensures (t.filter.Filter? ==> |t.filter.contents| < 0x1_0000_0000) ==> BuiltFrom(t, rows, cuts)
      ensures |file| <= size + length + |filterKey| + 110
      ensures counted ==> length <= FilterBound(filters, |old(file)|)
    {
      assert Apart();
      ghost var f, meta, filtered;
      var filterHandle, metaHandle;
      filterHandle, metaHandle, f, meta, filtered := WriteMetaBlocks(size, rate, filters, counted);
      length := LengthOf(f);
      t, image := WriteIndexAndFooter(filterHandle, metaHandle, f, meta, filtered, size + length + |filterKey| + 57,
          f.Filter? ==> |f.contents| < 0x1_0000_0000);
    }

    /** There is a filter of the policy, if there is a policy. */
    ghost predicate FilterMade(f: Filter) {
      if filter == null then f.NoFilter? else f.Filter? && f.policy == filter.policy
    }

    /** Writes the last block and notes how long the file is, and what is in the making. */
    method FlushLast(ghost rate: nat) returns (ghost short: bool, ghost offset: nat, ghost size: nat,
                                               ghost filters: nat)
      requires Valid()
      modifies this, filter, dataBlock
      ensures Cut() && block == [] && InFile() && FilterValid() && Building() && rows == old(rows)
      ensures short == (old(Sized()) && Linear(rate)) && offset == |file| <= size == SizeNow() + Reserve()
      ensures short ==> FilterCounts(|rows|) && filters == FilterBlocks.Times(rate, |rows|)
      ensures short ==> size <= 16 + TotalCost(rows)
    {
      short := Sized() && Linear(rate);
      Flush();
      offset, size, filters := |file|, SizeNow() + Reserve(), FilterBlocks.Times(rate, |rows|);
    }

    method WriteMetaBlocks(ghost size: nat, ghost rate: nat, ghost filters: nat, ghost counted: bool)
      returns (filterHandle: Handle, metaHandle: Handle, ghost f: Filter, ghost meta: Stored, ghost filtered: Bytes)
      requires Cut() && InFile() && FilterValid() && Building() && |filterKey| < 0x1_0000_0000
      requires counted ==> Linear(rate) && FilterCounts(|rows|) && filters == FilterBlocks.Times(rate, |rows|)
      requires SizeNow() + Reserve() <= size
      requires filter != null ==> FilterBlocks.NoFalseNegatives(filter.policy)
      modifies this`file, filter
      ensures Cut() && InFile() && Building() && filtered <= file && meta.handle == metaHandle
      ensures rows == old(rows) && block == old(block)
      ensures FilterMade(f)
      ensures f.Filter? && |file| < 0x1_0000_0000_0000_0000 ==> Reads(format, filtered, filterHandle, f.contents)
      ensures (f.Filter? ==> |f.contents| < 0x1_0000_0000) ==> FilterAdmits(f, offsets, blocks)
      ensures meta.layout.slots == MetaSlots(filterKey, f, filterHandle)
      ensures |file| < 0x1_0000_0000_0000_0000 ==> IsStored(format, file, meta)
      ensures SizeNow() + Reserve() <= size + LengthOf(f) + |filterKey| + 57
      ensures counted ==> LengthOf(f) <= FilterBound(filters, |old(file)|)
    {
      ghost var before := file;
      filterHandle, f := WriteFilter(rate, filters, counted);
      filtered := file;
      metaHandle, meta := WriteMeta(filterHandle, f);
      WrittenLonger(format, before, file, stored, offsets, blocks);
    }

    method WriteIndexAndFooter(filterHandle: Handle, metaHandle: Handle, ghost f: Filter, ghost meta: Stored,
                               ghost filtered: Bytes, ghost size: nat, ghost admits: bool)
      returns (ghost t: Table, ghost image: Image)
      requires SizeNow() + Reserve() <= size && (admits ==> FilterAdmits(f, offsets, blocks))
      requires Cut() && block == [] && InFile() && Building()
      requires filtered <= file && meta.handle == metaHandle
               && meta.layout.slots == MetaSlots(filterKey, f, filterHandle)
      requires f.Filter? && |file| < 0x1_0000_0000_0000_0000 ==> Reads(format, filtered, filterHandle, f.contents)
      requires |file| < 0x1_0000_0000_0000_0000 ==> IsStored(format, file, meta)
      modifies this`lastKey, this`pendingIndexEntry, this`index, this`file, indexBlock
      ensures t.filter == f && rows == old(rows)
      ensures |file| < 0x1_0000_0000_0000_0000 ==> IsImage(format, filterKey, file, t, image)
      ensures admits ==> BuiltFrom(t, rows, cuts)
      ensures |file| <= size + 53
    {
      ghost var named, indexed := file, meta;
      var indexHandle;
      indexHandle, indexed := WriteIndex(size);
      t := Table(blocks, offsets, index, f);
      image := Image(stored, indexed, meta, filterHandle);
      AppendFooter(metaHandle, indexHandle, named, filtered, t, image);
    }

    method AppendFooter(metaHandle: Handle, indexHandle: Handle, ghost named: Bytes, ghost filtered: Bytes,
                        ghost t: Table, ghost image: Image)
      requires filtered <= named <= file && image.meta.handle == metaHandle && image.index.handle == indexHandle
      requires Written(format, named, image.stored, t.offsets, t.blocks) && |t.index| == |t.blocks|
      requires image.meta.layout.slots == MetaSlots(filterKey, t.filter, image.filter)
      requires |file| < 0x1_0000_0000_0000_0000 ==>
                 && (t.filter.Filter? ==> Reads(format, filtered, image.filter, t.filter.contents))
                 && IsStored(format, named, image.meta)
                 && StoresRows(format, file, image.index, IndexRows(t.index, image.stored))
      modifies this`file
      ensures |file| < 0x1_0000_0000_0000_0000 ==> IsImage(format, filterKey, file, t, image)
      ensures |file| == |old(file)| + 48
    {
      ghost var before := file;
      file := file + EncodeFooter(metaHandle, indexHandle);
      if |file| < 0x1_0000_0000_0000_0000 {
        PartsMakeImage(format, filterKey, named, filtered, before, file, t, image);
      }
    }

    method WriteIndex(ghost size: nat) returns (h: Handle, ghost s: Stored)
      requires SizeNow() + Reserve() <= size
      requires Cut() && block == [] && InFile() && Building()
      modifies this`lastKey, this`pendingIndexEntry, this`index, this`file, indexBlock
      ensures Ascending(rows) && CutInto(rows, cuts, blocks) && cuts[|blocks|] == |rows|
      ensures Indexes(rows, cuts, index) && |index| == |blocks| == |offsets| == |stored|
      ensures old(file) <= file && s.handle == h && Holds(s.layout.slots, IndexRows(index, stored))
      ensures |file| < 0x1_0000_0000_0000_0000 ==> IsStored(format, file, s)
      ensures |file| <= size + 5
    {
      FinishIndex();
      h, s := WriteBlock(indexBlock);
    }

    /** The filters are stored as they are. */
    method WriteFilter(ghost rate: nat, ghost filters: nat, ghost counted: bool) returns (h: Handle, ghost f: Filter)
      requires counted ==> Linear(rate) && FilterCounts(|rows|) && filters == FilterBlocks.Times(rate, |rows|)
      requires FilterValid() && (filter != null ==> FilterBlocks.NoFalseNegatives(filter.policy))
      modifies this`file, filter
      ensures old(file) <= file
      ensures FilterMade(f)
      ensures f.Filter? && |file| < 0x1_0000_0000_0000_0000 ==> Reads(format, file, h, f.contents)
      ensures (f.Filter? ==> |f.contents| < 0x1_0000_0000) ==> FilterAdmits(f, offsets, blocks)
      ensures |file| <= |old(file)| + LengthOf(f) + 5
      ensures counted ==> LengthOf(f) <= FilterBound(filters, |old(file)|)
    {
      h, f := Handle(0, 0), NoFilter;
      if filter != null {
        ghost var added := filter.added;
        var contents := filter.Finish();
        f := Filter(filter.policy, contents);
        if |contents| < 0x1_0000_0000 {
          FilterIsComplete(Table(blocks, offsets, index, f), block, |file|, added, filter.result, filter.filterOffsets,
              filter.windows);
        }
        h := WritePlain(contents);
      }
    }

    method WritePlain(contents: Bytes) returns (h: Handle)
      modifies this`file
      ensures old(file) <= file && (|file| < 0x1_0000_0000_0000_0000 ==> Reads(format, file, h, contents))
      ensures |file| == |old(file)| + |contents| + 5
    {
      h := WriteRawBlock(contents, NO_COMPRESSION);
      if |file| < 0x1_0000_0000_0000_0000 {
        PlainIsUnpacked(format, contents);
        AppendedReads(format, old(file), RawBlock(format, contents, NO_COMPRESSION), |contents|, contents);
      }
    }

    /** A block with the name and the handle of the filters. */
    method WriteMeta(filterHandle: Handle, ghost f: Filter) returns (h: Handle, ghost s: Stored)
      requires Lossless(format) && restartInterval >= 1 && f.NoFilter? == (filter == null)
               && |filterKey| < 0x1_0000_0000
      modifies this`file
      ensures old(file) <= file && s.handle == h && s.layout.slots == MetaSlots(filterKey, f, filterHandle)
      ensures |file| < 0x1_0000_0000_0000_0000 ==> IsStored(format, file, s)
      ensures |file| <= |old(file)| + |filterKey| + 52
    {
      var metaIndexBlock := new BlockBuilder(restartInterval);
      if filter != null {
        HandleLength(filterHandle);
        var entry := metaIndexBlock.Add(filterKey, EncodeHandle(filterHandle));
      }
      h, s := WriteBlock(metaIndexBlock);
    }

    /** The last index entry has no key to separate from. */
    method FinishIndex()
      requires Cut() && block == [] && InFile() && Building()
      modifies this`lastKey, this`pendingIndexEntry, this`index, indexBlock
      ensures Ascending(rows) && CutInto(rows, cuts, blocks) && cuts[|blocks|] == |rows|
      ensures Indexes(rows, cuts, index) && |index| == |blocks| == |offsets| && InFile() && Building()
      ensures SizeNow() <= old(SizeNow() + Reserve())
    {
      if pendingIndexEntry {
        assert CutAt(rows, cuts, blocks, |blocks| - 1);
        var separator := FindShortSuccessor(lastKey);
        LastSeparator(rows, cuts, blocks, index, separator);
        PutEntry(separator);
      }
    }
  }

  function LengthOf(f: Filter): nat {
    if f.Filter? then |f.contents| else 0
  }

  lemma WholeIsBound(rows: Rows, filterKey: Bytes, rate: nat, offset: nat, size: nat, length: nat, whole: nat)
    requires offset <= size <= 16 + TotalCost(rows) && length <= FilterBound(FilterBlocks.Times(rate, |rows|), offset)
             && whole <= size + length + |filterKey| + 110
    ensures whole <= FileBound(rows, filterKey, rate)
  {
    FilterBlocks.TimesIsProduct(rate, |rows|);
  }

  /** What filters that take so many bytes and the offsets of their windows amount to. */
  function FilterBound(filters: nat, offset: nat): nat {
    filters + offset / 512 + 9
  }
}
