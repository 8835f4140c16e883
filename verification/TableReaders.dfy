/** Opening a table file and looking a key up in its bytes. */
module TableReaders {
  import opened Coding
  import Keys
  import ByteKeys
  import opened Blocks
  import BlockIters
  import opened Separators
  import opened TwoLevel
  import FilterBlocks
  import opened Tables
  import opened TableFormat
  import opened TableImages

  // ----- Searching blocks of internal keys ------------------------------------------------------------

  lemma BytewiseIsTransitive()
    ensures BlockIters.Transitive(ByteKeys.Less) && BlockIters.Transitive(LessBytes)
  {
    forall a, b, c | ByteKeys.Less(a, b) && ByteKeys.Less(b, c) ensures ByteKeys.Less(a, c) {
      ByteKeys.LessIsTransitive(a, b, c);
    }
    forall a, b, c | LessBytes(a, b) && LessBytes(b, c) ensures LessBytes(a, c) {
      LessBytesIsTransitive(a, b, c);
    }
  }

  lemma SlotsAscend(slots: seq<Slot>, rows: Rows)
    requires Holds(slots, rows) && Ascending(rows)
    ensures BlockIters.Ascending(LessBytes, slots)
  {
    forall i, j | 0 <= i < j < |slots| ensures LessBytes(slots[i].key, slots[j].key) {
      assert HoldsAt(slots, rows, i) && HoldsAt(slots, rows, j) && RowsInOrder(rows, i, j);
      OrderIsKept(rows[i].key, rows[j].key);
    }
  }

  /** The search in the bytes ends where the search in the rows does. */
  lemma SoughtSlot(slots: seq<Slot>, rows: Rows, k: InternalKey)
    requires Holds(slots, rows) && KeyOk(k)
    ensures BlockIters.FirstNotBelow(LessBytes, slots, EncodeKey(k)) == LowerBound(rows, k)
  {
    var n := LowerBound(rows, k);
    forall i | 0 <= i < n ensures LessBytes(slots[i].key, EncodeKey(k)) {
      assert HoldsAt(slots, rows, i);
      OrderIsKept(rows[i].key, k);
    }
    if n < |rows| {
      assert HoldsAt(slots, rows, n);
      OrderIsKept(rows[n].key, k);
    }
    BlockIters.FirstIs(LessBytes, slots, n, EncodeKey(k));
  }

  /** Index keys are in order, since each lies before all rows of the blocks that follow. */
  lemma IndexAscends(t: Table, rows: Rows, cuts: seq<nat>, stored: seq<Stored>)
    requires BuiltFrom(t, rows, cuts) && |t.index| <= |stored|
    ensures Ascending(IndexRows(t.index, stored))
  {
    var keys := IndexRows(t.index, stored);
    forall b, c | 0 <= b < c < |keys| ensures RowsInOrder(keys, b, c) {
      BlockPrecedes(rows, cuts, t.blocks, t.index, b, c);
      BlockCovered(rows, cuts, t.blocks, t.index, c);
      IndexIsNumbered(rows, cuts, t.index);
      assert CutAt(rows, cuts, t.blocks, c);
      var first := BlockReader(t.blocks)(t.index[c].value)[0].key;
      assert Separators.Less(t.index[b].key, first) && !Separators.Less(t.index[c].key, first);
      LessIsTotal(first, t.index[c].key);
      if first != t.index[c].key { LessIsTransitive(t.index[b].key, first, t.index[c].key); }
    }
  }

  lemma SameKeysSought<V, W>(a: seq<Row<V>>, b: seq<Row<W>>, k: InternalKey)
    requires |a| == |b| && forall i | 0 <= i < |a| :: a[i].key == b[i].key
    ensures LowerBound(a, k) == LowerBound(b, k)
  {
    LowerBoundIs(a, LowerBound(b, k), k);
  }

  lemma BlockAscends(t: Table, rows: Rows, cuts: seq<nat>, b: nat)
    requires BuiltFrom(t, rows, cuts) && b < |t.blocks|
    ensures Ascending(t.blocks[b])
  {
    assert CutAt(rows, cuts, t.blocks, b);
    forall i, j | 0 <= i < j < |t.blocks[b]| ensures RowsInOrder(t.blocks[b], i, j) {
      assert RowsInOrder(rows, cuts[b] + i, cuts[b] + j);
    }
  }

  // ----- Opening ------------------------------------------------------------------------------------------

  /** What went wrong: nothing; damage that was found; or bytes were read outside the block or
      buffer that they should be in, and what follows is unknown. */
  datatype Status = Fine | Corrupted | Unknown

  datatype Options = Options(format: Format, paranoidChecks: bool, filterKey: Bytes,
      policy: Keys.Option<FilterBlocks.Policy>)

  datatype OpenTable = OpenTable(file: Bytes, index: Bytes, filter: Filter)

  /** The filter of a file that is opened with these options, when it was written with a policy
      of this name. */
  ghost predicate FilterOpened(o: Options, filterKey: Bytes, written: Filter, found: Filter) {
    if o.policy.Some? && written.Filter? && o.filterKey == filterKey then
      found == Filter(o.policy.value, written.contents)
    else found.NoFilter?
  }

  /** There is a footer, and the index that it points to has not been damaged. */
  predicate Opens(o: Options, file: Bytes) {
    && |file| >= FOOTER_LENGTH
    && var footer := DecodeFooter(file[|file| - FOOTER_LENGTH..]);
       footer.Some? && !ReadBlock(o.format, file, o.paranoidChecks, footer.value.index).Corruption?
  }

  /** And what it points to cannot be read inside the file. */
  predicate IndexOutside(o: Options, file: Bytes)
    requires Opens(o, file)
  {
    ReadBlock(o.format, file, o.paranoidChecks, DecodeFooter(file[|file| - FOOTER_LENGTH..]).value.index).Outside?
  }

  /** Reads footer, index and filter. */
  method Open(o: Options, file: Bytes, ghost filterKey: Bytes, ghost t: Table, ghost image: Image)
    returns (table: Keys.Option<OpenTable>, status: Status)
    ensures status == Fine <==> table.Some?
    ensures table.Some? ==> table.value.file == file
    ensures status == Corrupted <==> !Opens(o, file)
    ensures Opens(o, file) && IndexOutside(o, file) ==> status == Unknown
    ensures IsImage(o.format, filterKey, file, t, image) && SmallBlocks(image) ==>
              && status == Fine && table.value.index == image.index.contents
              && FilterOpened(o, filterKey, t.filter, table.value.filter)
  {
    table, status := Keys.None, Corrupted;
    if |file| < FOOTER_LENGTH { return; }
    ghost var good := IsImage(o.format, filterKey, file, t, image) && SmallBlocks(image);
    var footer := DecodeFooter(file[|file| - FOOTER_LENGTH..]);
    if good {
      FooterRoundTrip(image.meta.handle, image.index.handle);
      ReadsGive(o.format, file, o.paranoidChecks, image.index.handle, image.index.contents);
    }
    if footer.None? { return; }
    var index := ReadBlock(o.format, file, o.paranoidChecks, footer.value.index);
    if !index.Contents? {
      status := if index.Outside? then Unknown else Corrupted;
      return;
    }
    var filter, metaStatus := ReadMeta(o, file, footer.value.meta, filterKey, t.filter, image, good);
    if metaStatus == Unknown {
      status := Unknown;
      return;
    }
    table, status := Keys.Some(OpenTable(file, index.data, filter)), Fine;
  }

  /** Forty-eight bytes, the footer alone, whose index handle makes opening look outside. */
  method SmallFileLeaves(o: Options) returns (file: Bytes, table: Keys.Option<OpenTable>, status: Status)
    ensures |file| == 48 && DecodeFooter(file) == Keys.Some(Footer(Handle(0, 0), Handle(0, 0xffff_ffff_ffff_fffb)))
    ensures status == Unknown && table.None?
  {
    var meta, index := Handle(0, 0), Handle(0, 0xffff_ffff_ffff_fffb);
    file := EncodeFooter(meta, index);
    FooterRoundTrip(meta, index);
    assert file[|file| - FOOTER_LENGTH..] == file;
    OutsideExactly(o.format, file, o.paranoidChecks, index);
    ghost var nothing := Stored(meta, [], Layout([], [], [], [], []));
    table, status := Open(o, file, [], Table([], [], [], NoFilter), Image([], nothing, nothing, meta));
  }

  /** Looks for the block that the filter policy has filled. Damage means that there is none. */
  method ReadMeta(o: Options, file: Bytes, h: Handle, ghost filterKey: Bytes, ghost written: Filter, ghost image: Image,
                  ghost good: bool)
    returns (filter: Filter, status: Status)
    requires good ==> h == image.meta.handle && NamesFilter(o.format, file, filterKey, written, image)
    ensures status != Corrupted
    ensures good ==> status == Fine && FilterOpened(o, filterKey, written, filter)
  {
    filter, status := NoFilter, Fine;
    if o.policy.None? { return; }
    if good { ReadsGive(o.format, file, o.paranoidChecks, h, image.meta.contents); }
    var meta := ReadBlock(o.format, file, o.paranoidChecks, h);
    if !meta.Contents? {
      status := if meta.Outside? then Unknown else Fine;
      return;
    }
    var value;
    value, status := FindValue(ByteKeys.Less, meta.data, o.filterKey, image.meta.layout, good);
    if good { MetaIsSought(o.filterKey, filterKey, written, image); }
    if value.Some? && value.value.0 == o.filterKey && status == Fine {
      filter, status := ReadFilter(o, file, value.value.1, written, image.filter, good);
    }
    if status == Corrupted { status := Fine; }
  }

  /** The block that names the filter can be read. */
  ghost predicate NamesFilter(f: Format, file: Bytes, filterKey: Bytes, written: Filter, image: Image) {
    && IsStored(f, file, image.meta) && |image.meta.contents| < 0x1_0000_0000
    && image.meta.layout.slots == MetaSlots(filterKey, written, image.filter)
    && (written.Filter? ==> Reads(f, file, image.filter, written.contents))
  }

  method ReadFilter(o: Options, file: Bytes, value: Bytes, ghost written: Filter, ghost h: Handle, ghost good: bool)
    returns (filter: Filter, status: Status)
    requires o.policy.Some?
    requires good ==> written.Filter? && value == EncodeHandle(h) && Reads(o.format, file, h, written.contents)
    ensures status != Corrupted
    ensures good ==> status == Fine && filter == Filter(o.policy.value, written.contents)
  {
    filter, status := NoFilter, Fine;
    var d := DecodeHandle(value);
    if good {
      HandleRoundTrip(h, []);
      assert EncodeHandle(h) + [] == value;
      ReadsGive(o.format, file, o.paranoidChecks, h, written.contents);
    }
    if d.Bad? { return; }
    var contents := ReadBlock(o.format, file, o.paranoidChecks, d.value);
    if contents.Contents? {
      filter := Filter(o.policy.value, contents.data);
    } else if contents.Outside? {
      status := Unknown;
    }
  }

  lemma MetaIsSought(key: Bytes, filterKey: Bytes, written: Filter, image: Image)
    requires image.meta.layout.slots == MetaSlots(filterKey, written, image.filter)
    ensures BlockIters.Transitive(ByteKeys.Less) && BlockIters.Ascending(ByteKeys.Less, image.meta.layout.slots)
    ensures key == filterKey ==> BlockIters.FirstNotBelow(ByteKeys.Less, image.meta.layout.slots, key) == 0
  {
    BytewiseIsTransitive();
    ByteKeys.LessIsTotal(key, key);
  }

  /** The key and the value of the first entry of a block that is not below the target. */
  method FindValue(less: BlockIters.Order, contents: Bytes, target: Bytes, ghost l: Layout, ghost good: bool)
    returns (r: Keys.Option<(Bytes, Bytes)>, status: Status)
    requires good ==> Laid(contents, l)
    ensures good && BlockIters.Transitive(less) && BlockIters.Ascending(less, l.slots) ==>
              && status == Fine
              && var i := BlockIters.FirstNotBelow(less, l.slots, target);
                 r == if i < |l.slots| then Keys.Some((l.slots[i].key, l.slots[i].value)) else Keys.None
  {
    r := Keys.None;
    var it, error := BlockIters.NewIterator(less, contents, l);
    if it == null {
      status := if error then Corrupted else Fine;
      return;
    }
    it.Seek(target);
    if it.outside {
      status := Unknown;
      return;
    }
    if it.OnEntry() {
      r := Keys.Some((it.key, it.value));
    }
    status := if it.corrupted then Corrupted else Fine;
  }

  // ----- Looking up -----------------------------------------------------------------------------------------

  /** The table was opened from this file, with a policy that is the same if its name is. */
  ghost predicate OpenedFrom(o: Options, table: OpenTable, filterKey: Bytes, t: Table, image: Image) {
    && IsImage(o.format, filterKey, table.file, t, image) && SmallBlocks(image) && table.index == image.index.contents
    && FilterOpened(o, filterKey, t.filter, table.filter)
    && (o.policy.Some? && t.filter.Filter? && o.filterKey == filterKey ==> o.policy.value == t.filter.policy)
  }

  /** The index entry that a key is sought under, as bytes. */
  lemma IndexIsSought(t: Table, rows: Rows, cuts: seq<nat>, s: Stored, stored: seq<Stored>, k: InternalKey)
    requires BuiltFrom(t, rows, cuts) && |t.index| <= |stored| && Holds(s.layout.slots, IndexRows(t.index, stored))
             && KeyOk(k)
    ensures BlockIters.Transitive(LessBytes) && BlockIters.Ascending(LessBytes, s.layout.slots)
    ensures |s.layout.slots| == |t.index|
    ensures var b := LowerBound(t.index, k);
            && BlockIters.FirstNotBelow(LessBytes, s.layout.slots, EncodeKey(k)) == b
            && (b < |t.index| ==> s.layout.slots[b].value == EncodeHandle(stored[b].handle))
  {
    BytewiseIsTransitive();
    IndexAscends(t, rows, cuts, stored);
    SlotsAscend(s.layout.slots, IndexRows(t.index, stored));
    SoughtSlot(s.layout.slots, IndexRows(t.index, stored), k);
    SameKeysSought(IndexRows(t.index, stored), t.index, k);
    var b := LowerBound(t.index, k);
    if b < |t.index| { assert HoldsAt(s.layout.slots, IndexRows(t.index, stored), b); }
  }

  /** And the row in its block. */
  lemma BlockIsSought(t: Table, rows: Rows, cuts: seq<nat>, b: nat, s: Stored, k: InternalKey)
    requires BuiltFrom(t, rows, cuts) && b < |t.blocks| && Holds(s.layout.slots, t.blocks[b]) && KeyOk(k)
    ensures BlockIters.Transitive(LessBytes) && BlockIters.Ascending(LessBytes, s.layout.slots)
    ensures |s.layout.slots| == |t.blocks[b]|
    ensures var p := LowerBound(t.blocks[b], k);
            && BlockIters.FirstNotBelow(LessBytes, s.layout.slots, EncodeKey(k)) == p
            && (p < |t.blocks[b]| ==> HoldsRow(s.layout.slots[p], t.blocks[b][p]))
  {
    BytewiseIsTransitive();
    BlockAscends(t, rows, cuts, b);
    SlotsAscend(s.layout.slots, t.blocks[b]);
    SoughtSlot(s.layout.slots, t.blocks[b], k);
    var p := LowerBound(t.blocks[b], k);
    if p < |t.blocks[b]| { assert HoldsAt(s.layout.slots, t.blocks[b], p); }
  }

  /** Key and value of a row, as they are in the file. */
  function RowBytes(row: Row<Bytes>): (Bytes, Bytes) {
    (EncodeKey(row.key), row.value)
  }

  /** What is handed on for a key: the first row at or after it; or nothing, and then that row is
      of another user key. */
  ghost predicate HandedOn(rows: Rows, k: InternalKey, r: Keys.Option<(Bytes, Bytes)>) {
    var i := LowerBound(rows, k);
    if r.Some? then i < |rows| && r.value == RowBytes(rows[i]) else i == |rows| || rows[i].key.user != k.user
  }

  /** Looks in the index for the one block that may have the key, then in that block, unless the
      filter excludes the key. */
  method InternalGet(o: Options, table: OpenTable, verify: bool, k: InternalKey, ghost filterKey: Bytes, ghost t: Table,
                     ghost image: Image, ghost rows: Rows, ghost cuts: seq<nat>)
    returns (r: Keys.Option<(Bytes, Bytes)>, status: Status)
    requires KeyOk(k)
    ensures OpenedFrom(o, table, filterKey, t, image) && BuiltFrom(t, rows, cuts) ==> status == Fine
                                                                                      && HandedOn(rows, k, r)
  {
    ghost var good := OpenedFrom(o, table, filterKey, t, image) && BuiltFrom(t, rows, cuts);
    ghost var b := LowerBound(t.index, k);
    var handle, indexStatus := FindHandle(o, table, k, b, filterKey, t, image, rows, cuts, good);
    if good { EndOfIndex(t, rows, cuts, k); }
    if indexStatus == Unknown || handle.None? {
      return Keys.None, indexStatus;
    }
    if table.filter.Filter? && handle.value.Good? && ExcludedBy(table.filter, handle.value.value.offset, k) {
      if good { FilteredOut(o, table, filterKey, t, image, rows, cuts, k, b); }
      return Keys.None, indexStatus;
    }
    if good { BlockIsStored(o, table, filterKey, t, image, b); }
    r, status := GetFromBlock(o, table.file, verify, handle.value, k, b, t, image, rows, cuts, good);
    if status == Fine { status := indexStatus; }
  }

  predicate ExcludedBy(f: Filter, offset: nat, k: InternalKey)
    requires f.Filter?
  {
    !FilterBlocks.MayMatch(f.policy, f.contents, offset, k.user)
  }

  /** The handle that the index has for a key, if the key is not behind all blocks. */
  method FindHandle(o: Options, table: OpenTable, k: InternalKey, ghost b: nat, ghost filterKey: Bytes, ghost t: Table,
                    ghost image: Image, ghost rows: Rows, ghost cuts: seq<nat>, ghost good: bool)
    returns (handle: Keys.Option<Parsed<Handle>>, status: Status)
    requires KeyOk(k) && b == LowerBound(t.index, k)
    requires good ==> OpenedFrom(o, table, filterKey, t, image) && BuiltFrom(t, rows, cuts)
    ensures handle.None? || status != Unknown
    ensures good ==> status == Fine && handle == if b < |t.index| then Keys.Some(Good(image.stored[b].handle, []))
            else Keys.None
  {
    if good { IndexIsSought(t, rows, cuts, image.index, image.stored, k); }
    var entry;
    entry, status := FindValue(LessBytes, table.index, EncodeKey(k), image.index.layout, good);
    if entry.None? || status == Unknown { return Keys.None, status; }
    handle := Keys.Some(DecodeHandle(entry.value.1));
    if good { HandleIsRead(image.stored[b].handle, entry.value.1); }
  }

  lemma EndOfIndex(t: Table, rows: Rows, cuts: seq<nat>, k: InternalKey)
    requires BuiltFrom(t, rows, cuts)
    ensures LowerBound(t.index, k) == |t.index| ==> HandedOn(rows, k, Keys.None)
  {
    SoughtRow(t, rows, cuts, k);
  }

  lemma BlockIsStored(o: Options, table: OpenTable, filterKey: Bytes, t: Table, image: Image, b: nat)
    requires OpenedFrom(o, table, filterKey, t, image) && b < |t.index|
    ensures |t.blocks| == |image.stored| && StoresRows(o.format, table.file, image.stored[b], t.blocks[b])
    ensures |image.stored[b].contents| < 0x1_0000_0000
  {
    assert BlockAt(o.format, table.file, image.stored, t.offsets, t.blocks, b);
  }

  lemma HandleIsRead(h: Handle, b: Bytes)
    requires b == EncodeHandle(h)
    ensures DecodeHandle(b) == Good(h, [])
  {
    HandleRoundTrip(h, []);
    assert EncodeHandle(h) + [] == b;
  }

  /** The filter excludes a key only from a block that does not have it. */
  lemma FilteredOut(o: Options, table: OpenTable, filterKey: Bytes, t: Table, image: Image, rows: Rows, cuts: seq<nat>,
                    k: InternalKey, b: nat)
    requires OpenedFrom(o, table, filterKey, t, image) && BuiltFrom(t, rows, cuts) && table.filter.Filter?
    requires b < |t.index| && b == LowerBound(t.index, k) && ExcludedBy(table.filter, image.stored[b].handle.offset, k)
    ensures HandedOn(rows, k, Keys.None)
  {
    SoughtRow(t, rows, cuts, k);
    assert RowAdmitted(t.filter, t.offsets, t.blocks, b, LowerBound(t.blocks[b], k));
    assert BlockAt(o.format, table.file, image.stored, t.offsets, t.blocks, b);
  }

  /** Reads the block and looks in it. */
  method GetFromBlock(o: Options, file: Bytes, verify: bool, handle: Parsed<Handle>, k: InternalKey, ghost b: nat,
                      ghost t: Table, ghost image: Image, ghost rows: Rows, ghost cuts: seq<nat>, ghost good: bool)
    returns (r: Keys.Option<(Bytes, Bytes)>, status: Status)
    requires KeyOk(k)
    requires good ==> b < |t.blocks| == |image.stored| && BuiltFrom(t, rows, cuts)
    requires good ==> handle == Good(image.stored[b].handle, [])
                      && StoresRows(o.format, file, image.stored[b], t.blocks[b])
    requires good ==> |image.stored[b].contents| < 0x1_0000_0000 && b == LowerBound(t.index, k)
    ensures good ==> status == Fine && HandedOn(rows, k, r)
  {
    if handle.Bad? { return Keys.None, Corrupted; }
    if good { ReadsGive(o.format, file, verify, handle.value, image.stored[b].contents); }
    var block := ReadBlock(o.format, file, verify, handle.value);
    if !block.Contents? {
      return Keys.None, if block.Outside? then Unknown else Corrupted;
    }
    if good {
      BlockIsSought(t, rows, cuts, b, image.stored[b], k);
      SoughtRow(t, rows, cuts, k);
    }
    r, status := FindValue(LessBytes, block.data, EncodeKey(k), if good then image.stored[b].layout
        else image.index.layout, good);
  }
}
