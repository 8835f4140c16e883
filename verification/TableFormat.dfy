/** The format of a table file: handles of blocks, blocks with their trailers, and the footer. */
module TableFormat {
  import opened Coding
  import opened Keys
  import Log

  // ----- Handles ----------------------------------------------------------------------------------------

  /** Where a block begins and how long it is, without its trailer. */
  datatype Handle = Handle(offset: uint64, size: uint64)

  function EncodeHandle(h: Handle): Bytes {
    Varint(h.offset) + Varint(h.size)
  }

  function DecodeHandle(b: Bytes): Parsed<Handle> {
    match GetVarint64(b)
    case Bad => Bad
    case Good(offset, rest) =>
      match GetVarint64(rest)
      case Bad => Bad
      case Good(size, rest') => Good(Handle(offset, size), rest')
  }

  lemma HandleRoundTrip(h: Handle, rest: Bytes)
    ensures DecodeHandle(EncodeHandle(h) + rest) == Good(h, rest)
  {
    assert EncodeHandle(h) + rest == Varint(h.offset) + (Varint(h.size) + rest);
    Varint64RoundTrip(h.offset, Varint(h.size) + rest);
    Varint64RoundTrip(h.size, rest);
  }

  lemma HandleLength(h: Handle)
    ensures |EncodeHandle(h)| <= 20
  {
    assert Pow128(5) == 128 * (128 * (128 * (128 * (128 * Pow128(0)))));
    assert Pow128(10) == 128 * (128 * (128 * (128 * (128 * Pow128(5)))));
    VarintLength(h.offset, 10);
    VarintLength(h.size, 10);
  }

  // ----- The footer -------------------------------------------------------------------------------------

  const FOOTER_LENGTH := 48
  const MAGIC_LOW: uint32 := 0x8b80_fb57
  const MAGIC_HIGH: uint32 := 0xdb47_7524

  /** Both handles, filled up to their greatest length, and the magic number. */
  function EncodeFooter(meta: Handle, index: Handle): (b: Bytes)
    ensures |b| == FOOTER_LENGTH
  {
    HandleLength(meta);
    HandleLength(index);
    var handles := EncodeHandle(meta) + EncodeHandle(index);
    Ended(handles + Zeros(40 - |handles|), MAGIC_LOW, MAGIC_HIGH)
  }

  function Ended(b: Bytes, low: uint32, high: uint32): (r: Bytes)
    ensures |r| == |b| + 8
  {
    b + Fixed32(low) + Fixed32(high)
  }

  datatype Footer = Footer(meta: Handle, index: Handle)

  function DecodeFooter(b: Bytes): Option<Footer>
    requires |b| == FOOTER_LENGTH
  {
    if DecodeFixed(b[40..44]) != MAGIC_LOW || DecodeFixed(b[44..]) != MAGIC_HIGH then None
    else
      match DecodeHandle(b)
      case Bad => None
      case Good(meta, rest) =>
        match DecodeHandle(rest)
        case Bad => None
        case Good(index, _) => Some(Footer(meta, index))
  }

  lemma FooterRoundTrip(meta: Handle, index: Handle)
    ensures DecodeFooter(EncodeFooter(meta, index)) == Some(Footer(meta, index))
  {
    HandleLength(meta);
    HandleLength(index);
    var x, y := EncodeHandle(meta), EncodeHandle(index);
    FooterIsRead(meta, index, x, y, Zeros(40 - |x + y|), MAGIC_LOW, MAGIC_HIGH, EncodeFooter(meta, index));
  }

  lemma FooterIsRead(meta: Handle, index: Handle, x: Bytes, y: Bytes, zeros: Bytes, low: uint32, high: uint32, b: Bytes)
    requires x == EncodeHandle(meta) && y == EncodeHandle(index) && |x + y + zeros| == 40
    requires low == MAGIC_LOW && high == MAGIC_HIGH && b == Ended((x + y) + zeros, low, high)
    ensures DecodeFooter(b) == Some(Footer(meta, index))
  {
    EndIsRead((x + y) + zeros, low, high);
    Regrouped(x, y, zeros, Fixed32(low), Fixed32(high));
    HandleRoundTrip(meta, y + (zeros + Fixed32(low) + Fixed32(high)));
    HandleRoundTrip(index, zeros + Fixed32(low) + Fixed32(high));
  }

  lemma Regrouped(x: Bytes, y: Bytes, z: Bytes, low: Bytes, high: Bytes)
    ensures (x + y) + z + low + high == x + (y + (z + low + high))
  {
  }

  lemma EndIsRead(b: Bytes, low: uint32, high: uint32)
    ensures var e, n := Ended(b, low, high), |b|; DecodeFixed(e[n..n + 4]) == low && DecodeFixed(e[n + 4..]) == high
  {
    var e, n := Ended(b, low, high), |b|;
    assert e[n..n + 4] == Fixed32(low) && e[n + 4..] == Fixed32(high);
    Fixed32RoundTrip(low);
    Fixed32RoundTrip(high);
  }

  // ----- Blocks -----------------------------------------------------------------------------------------

  const TRAILER_SIZE := 5
  const NO_COMPRESSION: byte := 0
  const SNAPPY: byte := 1

  /** What the format leaves open: the checksum and the compression, which may give nothing. */
  datatype Format = Format(step: Log.Step, compress: Bytes -> Option<Bytes>, uncompress: Bytes -> Option<Bytes>)

  ghost predicate Lossless(f: Format) {
    forall b: Bytes, c: Bytes | f.compress(b) == Some(c) :: f.uncompress(c) == Some(b)
  }

  /** What is stored for a block, followed by its type: the block compressed, if that saves an
      eighth. */
  function Packed(f: Format, raw: Bytes): (p: (Bytes, byte)) {
    match f.compress(raw)
    case Some(c) => if |c| < |raw| - |raw| / 8 then (c, SNAPPY) else (raw, NO_COMPRESSION)
    case None => (raw, NO_COMPRESSION)
  }

  /** Type and checksum behind the contents. */
  function RawBlock(f: Format, contents: Bytes, kind: byte): (b: Bytes)
    ensures |b| == |contents| + TRAILER_SIZE
  {
    contents + [kind] + Fixed32(Log.Mask(Log.Checksum(f.step, contents + [kind])))
  }

  datatype Contents = Corruption | Outside | Contents(data: Bytes)

  /** A block read from a file. The number of bytes to read is a sum in 64 bits; when it wraps,
      the trailer is looked for outside what was read. Only the greatest size lets a checksum be
      compared first, that of no bytes with four bytes that were read. */
  function ReadBlock(f: Format, file: Bytes, verify: bool, h: Handle): Contents {
    var size := (h.size + TRAILER_SIZE) % 0x1_0000_0000_0000_0000;
    if h.offset + size > |file| then Corruption
    else if size >= TRAILER_SIZE then Unpacked(f, verify, file[h.offset..h.offset + size])
    else if verify && size == 4 && !SumOfNothing(f, file[h.offset..h.offset + 4]) then Corruption
    else Outside
  }

  predicate SumOfNothing(f: Format, b: Bytes)
    requires |b| == 4
  {
    Log.Unmask(DecodeFixed32(b)) == Log.Checksum(f.step, [])
  }

  function Unpacked(f: Format, verify: bool, b: Bytes): (c: Contents)
    requires |b| >= TRAILER_SIZE
    ensures !c.Outside?
  {
    var n := |b| - TRAILER_SIZE;
    if verify && Log.Checksum(f.step, b[..n + 1]) != Log.Unmask(DecodeFixed32(b[|b| - 4..])) then Corruption
    else if b[n] == NO_COMPRESSION then Contents(b[..n])
    else if b[n] == SNAPPY then (match f.uncompress(b[..n]) case Some(raw) => Contents(raw) case None => Corruption)
    else Corruption
  }

  lemma RawParts(f: Format, contents: Bytes, kind: byte)
    ensures var b, n := RawBlock(f, contents, kind), |contents|;
            b[..n] == contents && b[n] == kind && b[..n + 1] == contents + [kind]
            && Log.Unmask(DecodeFixed32(b[|b| - 4..])) == Log.Checksum(f.step, contents + [kind])
  {
    var b, sum := RawBlock(f, contents, kind), Log.Checksum(f.step, contents + [kind]);
    assert b[|b| - 4..] == Fixed32(Log.Mask(sum));
    Fixed32RoundTrip(Log.Mask(sum));
    Log.UnmaskMask(sum);
  }

  /** What was packed is unpacked, checksum and all. */
  lemma PackedIsUnpacked(f: Format, raw: Bytes)
    requires Lossless(f)
    ensures var p := Packed(f, raw); UnpacksTo(f, RawBlock(f, p.0, p.1), raw)
  {
    var p := Packed(f, raw);
    RawParts(f, p.0, p.1);
  }

  lemma PlainIsUnpacked(f: Format, raw: Bytes)
    ensures UnpacksTo(f, RawBlock(f, raw, NO_COMPRESSION), raw)
  {
    RawParts(f, raw, NO_COMPRESSION);
  }

  /** The file has these contents at the handle, whether checksums are verified or not. */
  ghost predicate Reads(f: Format, file: Bytes, h: Handle, data: Bytes) {
    h.size < 0xffff_ffff_ffff_fffb && h.offset + h.size + TRAILER_SIZE <= |file|
    && UnpacksTo(f, file[h.offset..h.offset + h.size + TRAILER_SIZE], data)
  }

  ghost predicate UnpacksTo(f: Format, b: Bytes, data: Bytes)
    requires |b| >= TRAILER_SIZE
  {
    forall verify :: Unpacked(f, verify, b) == Contents(data)
  }

  lemma ReadsGive(f: Format, file: Bytes, verify: bool, h: Handle, data: Bytes)
    requires Reads(f, file, h, data)
    ensures ReadBlock(f, file, verify, h) == Contents(data)
  {
  }

  lemma AppendedReads(f: Format, file: Bytes, raw: Bytes, size: nat, data: Bytes)
    requires |raw| == size + TRAILER_SIZE && |file| + |raw| < 0x1_0000_0000_0000_0000
    requires UnpacksTo(f, raw, data)
    ensures Reads(f, file + raw, Handle(|file|, size), data)
  {
    assert (file + raw)[|file|..|file| + |raw|] == raw;
  }

  /** What is appended does not change what can be read. */
  lemma ReadsGrow(f: Format, file: Bytes, more: Bytes, h: Handle, data: Bytes)
    requires Reads(f, file, h, data)
    ensures Reads(f, file + more, h, data)
  {
    var end := h.offset + h.size + TRAILER_SIZE;
    assert (file + more)[h.offset..end] == file[h.offset..end];
  }

  /** The handles whose sizes lead outside what is read. */
  lemma OutsideExactly(f: Format, file: Bytes, verify: bool, h: Handle)
    ensures ReadBlock(f, file, verify, h) == Outside <==>
              && h.size >= 0xffff_ffff_ffff_fffb
              && h.offset + (h.size - 0xffff_ffff_ffff_fffb) <= |file|
              && (verify && h.size == 0xffff_ffff_ffff_ffff ==> SumOfNothing(f, file[h.offset..h.offset + 4]))
  {
  }
}
