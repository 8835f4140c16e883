/** What the bytes of a table file hold: internal keys as bytes, and where the blocks are. */
module TableImages {
  import opened Coding
  import opened Blocks
  import opened Separators
  import opened TwoLevel
  import opened Tables
  import opened TableFormat

  // ----- Internal keys as bytes ---------------------------------------------------------------------

  ghost predicate KeyOk(k: InternalKey) {
    k.trailer < 0x1_0000_0000_0000_0000 && |k.user| + 8 < 0x1_0000_0000
  }

  /** The user key and eight bytes of sequence number and type. */
  function EncodeKey(k: InternalKey): Bytes {
    k.user + Fixed(k.trailer, 8)
  }

  function DecodeKey(b: Bytes): InternalKey
    requires |b| >= 8
  {
    InternalKey(b[..|b| - 8], DecodeFixed(b[|b| - 8..]))
  }

  lemma KeyRoundTrip(k: InternalKey)
    requires KeyOk(k)
    ensures DecodeKey(EncodeKey(k)) == k
  {
    var b := EncodeKey(k);
    assert b[..|b| - 8] == k.user && b[|b| - 8..] == Fixed(k.trailer, 8);
    Widths();
    FixedRoundTrip(k.trailer, 8);
  }

  /** The order in which a block of internal keys is searched. */
  predicate LessBytes(a: Bytes, b: Bytes) {
    |a| >= 8 && |b| >= 8 && Separators.Less(DecodeKey(a), DecodeKey(b))
  }

  lemma LessBytesIsTransitive(a: Bytes, b: Bytes, c: Bytes)
    requires LessBytes(a, b) && LessBytes(b, c)
    ensures LessBytes(a, c)
  {
    LessIsTransitive(DecodeKey(a), DecodeKey(b), DecodeKey(c));
  }

  lemma OrderIsKept(a: InternalKey, b: InternalKey)
    requires KeyOk(a) && KeyOk(b)
    ensures LessBytes(EncodeKey(a), EncodeKey(b)) <==> Separators.Less(a, b)
  {
    KeyRoundTrip(a);
    KeyRoundTrip(b);
  }

  // ----- Blocks in the file ---------------------------------------------------------------------------

  ghost predicate HoldsRow(slot: Slot, row: Row<Bytes>) {
    KeyOk(row.key) && slot.key == EncodeKey(row.key) && slot.value == row.value
  }

  ghost predicate HoldsAt(slots: seq<Slot>, rows: Rows, i: nat)
    requires i < |slots| && i < |rows|
  {
    HoldsRow(slots[i], rows[i])
  }

  /** The entries of a block are these rows. */
  ghost predicate Holds(slots: seq<Slot>, rows: Rows) {
    |slots| == |rows| && forall i | 0 <= i < |rows| :: HoldsAt(slots, rows, i)
  }

  /** The rows of the index block: for each block a key and its handle. */
  function IndexRows(index: Index, stored: seq<Stored>): Rows
    requires |index| <= |stored|
  {
    seq(|index|, i requires 0 <= i < |index| => Row(index[i].key, EncodeHandle(stored[i].handle)))
  }

  /** A block in the file: where it is, what it contains, and how that is laid out. */
  datatype Stored = Stored(handle: Handle, contents: Bytes, layout: Layout)

  ghost predicate IsStored(f: Format, file: Bytes, s: Stored) {
    Reads(f, file, s.handle, s.contents) && LaidOut(s.contents, s.layout)
  }

  ghost predicate StoresRows(f: Format, file: Bytes, s: Stored, rows: Rows) {
    IsStored(f, file, s) && Holds(s.layout.slots, rows)
  }

  /** The blocks are in the file, if its offsets do not overflow. */
  ghost predicate Written(f: Format, file: Bytes, stored: seq<Stored>, offsets: seq<nat>, blocks: seq<Rows>) {
    && |stored| == |offsets| == |blocks|
    && (|file| < 0x1_0000_0000_0000_0000 ==>
          forall b | 0 <= b < |blocks| :: BlockAt(f, file, stored, offsets, blocks, b))
  }

  ghost predicate BlockAt(f: Format, file: Bytes, stored: seq<Stored>, offsets: seq<nat>, blocks: seq<Rows>, b: nat)
    requires |stored| == |offsets| == |blocks| && b < |blocks|
  {
    StoresRows(f, file, stored[b], blocks[b]) && stored[b].handle.offset == offsets[b]
  }

  lemma WrittenGrows(f: Format, file: Bytes, more: Bytes, stored: seq<Stored>, offsets: seq<nat>, blocks: seq<Rows>)
    requires Written(f, file, stored, offsets, blocks)
    ensures Written(f, file + more, stored, offsets, blocks)
  {
    if |file + more| < 0x1_0000_0000_0000_0000 {
      forall b | 0 <= b < |blocks| ensures BlockAt(f, file + more, stored, offsets, blocks, b) {
        assert BlockAt(f, file, stored, offsets, blocks, b);
        ReadsGrow(f, file, more, stored[b].handle, stored[b].contents);
      }
    }
  }

  lemma OneMoreBlock(f: Format, file: Bytes, more: Bytes, stored: seq<Stored>, offsets: seq<nat>, blocks: seq<Rows>,
                     s: Stored, rows: Rows)
    requires Written(f, file, stored, offsets, blocks) && Holds(s.layout.slots, rows)
    requires |file + more| < 0x1_0000_0000_0000_0000 ==> IsStored(f, file + more, s) && s.handle.offset == |file|
    ensures Written(f, file + more, stored + [s], offsets + [|file|], blocks + [rows])
  {
    WrittenGrows(f, file, more, stored, offsets, blocks);
    if |file + more| < 0x1_0000_0000_0000_0000 {
      forall b | 0 <= b < |blocks| + 1
        ensures BlockAt(f, file + more, stored + [s], offsets + [|file|], blocks + [rows], b)
      {
        if b < |blocks| { assert BlockAt(f, file + more, stored, offsets, blocks, b); }
      }
    }
  }

  lemma Extended(f: Format, file: Bytes, longer: Bytes, stored: seq<Stored>, offsets: seq<nat>, blocks: seq<Rows>,
                 s: Stored, rows: Rows)
    requires Written(f, file, stored, offsets, blocks) && Holds(s.layout.slots, rows) && file <= longer
    requires |longer| < 0x1_0000_0000_0000_0000 ==> IsStored(f, longer, s) && s.handle.offset == |file|
    ensures Written(f, longer, stored + [s], offsets + [|file|], blocks + [rows])
  {
    assert file + longer[|file|..] == longer;
    OneMoreBlock(f, file, longer[|file|..], stored, offsets, blocks, s, rows);
  }

  lemma HoldsMore(slots: seq<Slot>, rows: Rows, s: Slot, row: Row<Bytes>)
    requires Holds(slots, rows) && HoldsRow(s, row)
    ensures Holds(slots + [s], rows + [row])
  {
    forall i | 0 <= i < |rows| + 1 ensures HoldsAt(slots + [s], rows + [row], i) {
      if i < |rows| { assert HoldsAt(slots, rows, i); }
    }
  }

  /** Blocks that are written later are not in the index yet. */
  lemma IndexGrows(index: Index, stored: seq<Stored>, entry: Row<nat>, s: Stored)
    requires |index| <= |stored|
    ensures IndexRows(index, stored + [s]) == IndexRows(index, stored)
    ensures |index| < |stored| ==> IndexRows(index + [entry], stored) == IndexRows(index, stored)
                                   + [Row(entry.key, EncodeHandle(stored[|index|].handle))]
  {
  }

  // ----- The file ---------------------------------------------------------------------------------------

  datatype Image = Image(stored: seq<Stored>, index: Stored, meta: Stored, filter: Handle)

  /** A finished file: blocks, filter, the block that names the filter, index and footer. */
  ghost predicate IsImage(f: Format, filterKey: Bytes, file: Bytes, t: Table, image: Image) {
    && Written(f, file, image.stored, t.offsets, t.blocks) && |file| < 0x1_0000_0000_0000_0000
    && |t.index| == |t.blocks|
    && StoresRows(f, file, image.index, IndexRows(t.index, image.stored))
    && IsStored(f, file, image.meta) && image.meta.layout.slots == MetaSlots(filterKey, t.filter, image.filter)
    && (t.filter.Filter? ==> Reads(f, file, image.filter, t.filter.contents))
    && |file| >= FOOTER_LENGTH && file[|file| - FOOTER_LENGTH..] == EncodeFooter(image.meta.handle, image.index.handle)
  }

  /** The block that names the filter, if there is one. */
  function MetaSlots(filterKey: Bytes, filter: Filter, h: Handle): seq<Slot> {
    if filter.NoFilter? then [] else [Slot(0, filterKey, EncodeHandle(h))]
  }

  lemma ReadsLonger(f: Format, file: Bytes, longer: Bytes, h: Handle, data: Bytes)
    requires file <= longer && Reads(f, file, h, data)
    ensures Reads(f, longer, h, data)
  {
    assert file + longer[|file|..] == longer;
    ReadsGrow(f, file, longer[|file|..], h, data);
  }

  lemma WrittenLonger(f: Format, file: Bytes, longer: Bytes, stored: seq<Stored>, offsets: seq<nat>, blocks: seq<Rows>)
    requires file <= longer && Written(f, file, stored, offsets, blocks)
    ensures Written(f, longer, stored, offsets, blocks)
  {
    assert file + longer[|file|..] == longer;
    WrittenGrows(f, file, longer[|file|..], stored, offsets, blocks);
  }

  /** The parts of a finished file, each read back when it was written. */
  lemma PartsMakeImage(f: Format, filterKey: Bytes, named: Bytes, filtered: Bytes, indexed: Bytes, file: Bytes,
                       t: Table, image: Image)
    requires filtered <= named <= indexed <= file && |file| < 0x1_0000_0000_0000_0000
    requires Written(f, named, image.stored, t.offsets, t.blocks) && |t.index| == |t.blocks|
    requires t.filter.Filter? ==> Reads(f, filtered, image.filter, t.filter.contents)
    requires IsStored(f, named, image.meta) && image.meta.layout.slots == MetaSlots(filterKey, t.filter, image.filter)
    requires StoresRows(f, indexed, image.index, IndexRows(t.index, image.stored))
    requires file == indexed + EncodeFooter(image.meta.handle, image.index.handle)
    ensures IsImage(f, filterKey, file, t, image)
  {
    WrittenLonger(f, named, file, image.stored, t.offsets, t.blocks);
    ReadsLonger(f, named, file, image.meta.handle, image.meta.contents);
    ReadsLonger(f, indexed, file, image.index.handle, image.index.contents);
    if t.filter.Filter? { ReadsLonger(f, filtered, file, image.filter, t.filter.contents); }
  }

  /** No block of the table has four gigabytes. */
  ghost predicate SmallBlocks(image: Image) {
    && |image.index.contents| < 0x1_0000_0000 && |image.meta.contents| < 0x1_0000_0000
    && forall s | s in image.stored :: |s.contents| < 0x1_0000_0000
  }
}
