/** Version edits as records of a manifest. */
module VersionEdits {
  import opened Coding
  import opened Keys
  import Versions

  /** What a manifest says of a table file; the bounds are encoded internal keys. */
  datatype Meta = Meta(number: uint64, size: uint64, smallest: Slice, largest: Slice)

  datatype Pointer = Pointer(level: uint32, key: Slice)

  datatype Deleted = Deleted(level: uint32, number: uint64)

  datatype Added = Added(level: uint32, meta: Meta)

  datatype Fields = Fields(comparator: Option<Slice>, logNumber: Option<uint64>, prevLogNumber: Option<uint64>,
                           nextFile: Option<uint64>, lastSequence: Option<uint64>,
                           pointers: seq<Pointer>, deleted: seq<Deleted>, added: seq<Added>) {
    /** The levels exist, and the deleted files are listed as the ordered set that they are. */
    ghost predicate Valid() {
      && (forall p | p in pointers :: p.level < Versions.NUM_LEVELS)
      && (forall d | d in deleted :: d.level < Versions.NUM_LEVELS)
      && (forall a | a in added :: a.level < Versions.NUM_LEVELS)
      && Ascending(deleted)
    }
  }

  const EMPTY := Fields(None, None, None, None, None, [], [], [])

  predicate DeletedLess(a: Deleted, b: Deleted) {
    a.level < b.level || (a.level == b.level && a.number < b.number)
  }

  ghost predicate InOrder(ds: seq<Deleted>, i: nat, j: nat)
    requires i < |ds| && j < |ds|
  {
    DeletedLess(ds[i], ds[j])
  }

  ghost predicate Ascending(ds: seq<Deleted>) {
    forall i, j | 0 <= i < j < |ds| :: InOrder(ds, i, j)
  }

  /** Insertion into an ordered set. */
  function InsertDeleted(ds: seq<Deleted>, d: Deleted): seq<Deleted> {
    if ds == [] then [d]
    else if DeletedLess(ds[0], d) then [ds[0]] + InsertDeleted(ds[1..], d)
    else if DeletedLess(d, ds[0]) then [d] + ds
    else ds
  }

  // ----- One tag and what follows it ---------------------------------------------------------------

  datatype Item =
    | Comparator(name: Slice)
    | LogNumber(n: uint64)
    | PrevLogNumber(n: uint64)
    | NextFile(n: uint64)
    | LastSequence(n: uint64)
    | CompactPointer(pointer: Pointer)
    | DeletedFile(deleted: Deleted)
    | NewFile(added: Added)
  {
    predicate LevelFits() {
      match this
      case CompactPointer(p) => p.level < Versions.NUM_LEVELS
      case DeletedFile(d) => d.level < Versions.NUM_LEVELS
      case NewFile(a) => a.level < Versions.NUM_LEVELS
      case _ => true
    }

    function Tag(): uint32 {
      match this
      case Comparator(_) => 1
      case LogNumber(_) => 2
      case NextFile(_) => 3
      case LastSequence(_) => 4
      case CompactPointer(_) => 5
      case DeletedFile(_) => 6
      case NewFile(_) => 7
      case PrevLogNumber(_) => 9
    }
  }

  function PutMeta(m: Meta): Bytes {
    Varint(m.number) + (Varint(m.size) + (PutLengthPrefixed(m.smallest) + PutLengthPrefixed(m.largest)))
  }

  function PutValue(i: Item): Bytes
  {
    match i
    case Comparator(name) => PutLengthPrefixed(name)
    case LogNumber(n) => Varint(n)
    case PrevLogNumber(n) => Varint(n)
    case NextFile(n) => Varint(n)
    case LastSequence(n) => Varint(n)
    case CompactPointer(p) => EncodeVarint32(p.level) + PutLengthPrefixed(p.key)
    case DeletedFile(d) => EncodeVarint32(d.level) + Varint(d.number)
    case NewFile(a) => EncodeVarint32(a.level) + PutMeta(a.meta)
  }

  function Put(i: Item): (b: Bytes)
    ensures b != []
  {
    EncodeVarint32(i.Tag()) + PutValue(i)
  }

  function GetLevel(b: Bytes): (p: Parsed<nat>)
    ensures p.Good? ==> p.value < Versions.NUM_LEVELS && |p.rest| < |b|
  {
    match GetVarint32(b)
    case Bad => Bad
    case Good(v, rest) => if v < Versions.NUM_LEVELS then Good(v, rest) else Bad
  }

  function GetMeta(b: Bytes): (p: Parsed<Meta>)
    ensures p.Good? ==> |p.rest| < |b|
  {
    match GetVarint64(b) case Bad => Bad case Good(number, b1) =>
    match GetVarint64(b1) case Bad => Bad case Good(size, b2) =>
    match GetLengthPrefixed(b2) case Bad => Bad case Good(smallest, b3) =>
    match GetLengthPrefixed(b3) case Bad => Bad case Good(largest, b4) =>
    Good(Meta(number, size, smallest, largest), b4)
  }

  function GetValue(tag: nat, b: Bytes): (p: Parsed<Item>)
    ensures p.Good? ==> |p.rest| < |b| && p.value.LevelFits()
  {
    if tag == 1 then (match GetLengthPrefixed(b) case Bad => Bad case Good(v, rest) => Good(Comparator(v), rest))
    else if tag == 2 then (match GetVarint64(b) case Bad => Bad case Good(v, rest) => Good(LogNumber(v), rest))
    else if tag == 9 then (match GetVarint64(b) case Bad => Bad case Good(v, rest) => Good(PrevLogNumber(v), rest))
    else if tag == 3 then (match GetVarint64(b) case Bad => Bad case Good(v, rest) => Good(NextFile(v), rest))
    else if tag == 4 then (match GetVarint64(b) case Bad => Bad case Good(v, rest) => Good(LastSequence(v), rest))
    else if tag == 5 then
      (match GetLevel(b) case Bad => Bad case Good(level, b1) =>
       match GetLengthPrefixed(b1) case Bad => Bad case Good(key, rest) => Good(CompactPointer(Pointer(level, key)),
           rest))
    else if tag == 6 then
      (match GetLevel(b) case Bad => Bad case Good(level, b1) =>
       match GetVarint64(b1) case Bad => Bad case Good(n, rest) => Good(DeletedFile(Deleted(level, n)), rest))
    else if tag == 7 then
      (match GetLevel(b) case Bad => Bad case Good(level, b1) =>
       match GetMeta(b1) case Bad => Bad case Good(m, rest) => Good(NewFile(Added(level, m)), rest))
    else Bad
  }

  function Get(b: Bytes): (p: Parsed<Item>)
    ensures p.Good? ==> |p.rest| < |b| && p.value.LevelFits()
  {
    match GetVarint32(b)
    case Bad => Bad
    case Good(tag, rest) => GetValue(tag, rest)
  }

  lemma GetMetaReads(m: Meta, rest: Bytes)
    ensures GetMeta(PutMeta(m) + rest) == Good(m, rest)
  {
    var b3 := PutLengthPrefixed(m.largest) + rest;
    var b2 := PutLengthPrefixed(m.smallest) + b3;
    var b1 := Varint(m.size) + b2;
    assert PutMeta(m) + rest == Varint(m.number) + b1;
    Varint64RoundTrip(m.number, b1);
    Varint64RoundTrip(m.size, b2);
    LengthPrefixedRoundTrip(m.smallest, b3);
    LengthPrefixedRoundTrip(m.largest, rest);
  }

  lemma LevelThen(level: uint32, b: Bytes, rest: Bytes)
    requires level < Versions.NUM_LEVELS
    ensures GetLevel((EncodeVarint32(level) + b) + rest) == Good(level, b + rest)
  {
    assert (EncodeVarint32(level) + b) + rest == EncodeVarint32(level) + (b + rest);
    Varint32RoundTrip(level, b + rest);
  }

  lemma GetValueReads(i: Item, rest: Bytes)
    requires i.LevelFits()
    ensures GetValue(i.Tag(), PutValue(i) + rest) == Good(i, rest)
  {
    match i
    case Comparator(name) => LengthPrefixedRoundTrip(name, rest);
    case LogNumber(n) => Varint64RoundTrip(n, rest);
    case PrevLogNumber(n) => Varint64RoundTrip(n, rest);
    case NextFile(n) => Varint64RoundTrip(n, rest);
    case LastSequence(n) => Varint64RoundTrip(n, rest);
    case CompactPointer(p) =>
      LevelThen(p.level, PutLengthPrefixed(p.key), rest);
      LengthPrefixedRoundTrip(p.key, rest);
    case DeletedFile(d) =>
      LevelThen(d.level, Varint(d.number), rest);
      Varint64RoundTrip(d.number, rest);
    case NewFile(a) =>
      LevelThen(a.level, PutMeta(a.meta), rest);
      GetMetaReads(a.meta, rest);
  }

  lemma GetReads(i: Item, rest: Bytes)
    requires i.LevelFits()
    ensures Get(Put(i) + rest) == Good(i, rest)
  {
    assert Put(i) + rest == EncodeVarint32(i.Tag()) + (PutValue(i) + rest);
    Varint32RoundTrip(i.Tag(), PutValue(i) + rest);
    GetValueReads(i, rest);
  }

  // ----- Whole edits ---------------------------------------------------------------------------------

  function Take(f: Fields, i: Item): Fields {
    match i
    case Comparator(name) => f.(comparator := Some(name))
    case LogNumber(n) => f.(logNumber := Some(n))
    case PrevLogNumber(n) => f.(prevLogNumber := Some(n))
    case NextFile(n) => f.(nextFile := Some(n))
    case LastSequence(n) => f.(lastSequence := Some(n))
    case CompactPointer(p) => f.(pointers := f.pointers + [p])
    case DeletedFile(d) => f.(deleted := InsertDeleted(f.deleted, d))
    case NewFile(a) => f.(added := f.added + [a])
  }

  function TakeAll(f: Fields, items: seq<Item>): Fields
    decreases |items|
  {
    if items == [] then f else TakeAll(Take(f, items[0]), items[1..])
  }

  /** Reads tags up to the end or to the first that is malformed. */
  function Read(b: Bytes, f: Fields): (Fields, bool)
    decreases |b|
  {
    if b == [] then (f, true)
    else match Get(b)
      case Bad => (f, false)
      case Good(i, rest) => Read(rest, Take(f, i))
  }

  ghost predicate LevelsFit(items: seq<Item>) {
    forall i | i in items :: i.LevelFits()
  }

  function PutAll(put: Item -> Bytes, items: seq<Item>): Bytes {
    if items == [] then [] else put(items[0]) + PutAll(put, items[1..])
  }

  lemma {:induction false} PutAllAppend(put: Item -> Bytes, items: seq<Item>, i: Item)
    ensures PutAll(put, items + [i]) == PutAll(put, items) + put(i)
  {
    if items == [] {
      assert ([] + [i])[1..] == [];
    } else {
      PutAllAppend(put, items[1..], i);
      assert (items + [i])[1..] == items[1..] + [i];
      assert put(items[0]) + (PutAll(put, items[1..]) + put(i)) == (put(items[0]) + PutAll(put, items[1..])) + put(i);
    }
  }

  lemma {:induction false} PutsAreRead(items: seq<Item>, f: Fields)
    requires LevelsFit(items)
    ensures Read(PutAll(Put, items), f) == (TakeAll(f, items), true)
    decreases |items|
  {
    if items != [] {
      GetReads(items[0], PutAll(Put, items[1..]));
      PutsAreRead(items[1..], Take(f, items[0]));
    }
  }

  function Scalars(f: Fields): seq<Item> {
    (if f.comparator.Some? then [Comparator(f.comparator.value)] else [])
    + (if f.logNumber.Some? then [LogNumber(f.logNumber.value)] else [])
    + (if f.prevLogNumber.Some? then [PrevLogNumber(f.prevLogNumber.value)] else [])
    + (if f.nextFile.Some? then [NextFile(f.nextFile.value)] else [])
    + (if f.lastSequence.Some? then [LastSequence(f.lastSequence.value)] else [])
  }

  function PointerItems(ps: seq<Pointer>): seq<Item> {
    seq(|ps|, i requires 0 <= i < |ps| => CompactPointer(ps[i]))
  }

  function DeletedItems(ds: seq<Deleted>): seq<Item> {
    seq(|ds|, i requires 0 <= i < |ds| => DeletedFile(ds[i]))
  }

  function AddedItems(xs: seq<Added>): seq<Item> {
    seq(|xs|, i requires 0 <= i < |xs| => NewFile(xs[i]))
  }

  /** The tags of an edit, in the order in which they are written. */
  function ItemsOf(f: Fields): seq<Item> {
    Scalars(f) + PointerItems(f.pointers) + DeletedItems(f.deleted) + AddedItems(f.added)
  }

  lemma ItemsFit(f: Fields)
    requires f.Valid()
    ensures LevelsFit(ItemsOf(f))
  {
  }

  function Encoded(f: Fields): Bytes {
    PutAll(Put, ItemsOf(f))
  }

  lemma {:induction false} TakeAllConcat(f: Fields, a: seq<Item>, b: seq<Item>)
    ensures TakeAll(f, a + b) == TakeAll(TakeAll(f, a), b)
    decreases |a|
  {
    if a == [] {
      assert a + b == b;
    } else {
      assert (a + b)[1..] == a[1..] + b;
      TakeAllConcat(Take(f, a[0]), a[1..], b);
    }
  }

  lemma TakeOne(f: Fields, i: Item)
    ensures TakeAll(f, [i]) == Take(f, i)
  {
    assert [i][1..] == [];
  }

  lemma TakeScalars(f: Fields, g: Fields)
    requires g.comparator == None && g.logNumber == None && g.prevLogNumber == None
    requires g.nextFile == None && g.lastSequence == None
    ensures TakeAll(g, Scalars(f)) == f.(pointers := g.pointers, deleted := g.deleted, added := g.added)
  {
    var a := if f.comparator.Some? then [Comparator(f.comparator.value)] else [];
    var b := if f.logNumber.Some? then [LogNumber(f.logNumber.value)] else [];
    var c := if f.prevLogNumber.Some? then [PrevLogNumber(f.prevLogNumber.value)] else [];
    var d := if f.nextFile.Some? then [NextFile(f.nextFile.value)] else [];
    var e := if f.lastSequence.Some? then [LastSequence(f.lastSequence.value)] else [];
    var ga := g.(comparator := f.comparator);
    var gb := ga.(logNumber := f.logNumber);
    var gc := gb.(prevLogNumber := f.prevLogNumber);
    var gd := gc.(nextFile := f.nextFile);
    assert TakeAll(g, a) == ga by { if a != [] { TakeOne(g, a[0]); } }
    assert TakeAll(ga, b) == gb by { if b != [] { TakeOne(ga, b[0]); } }
    assert TakeAll(gb, c) == gc by { if c != [] { TakeOne(gb, c[0]); } }
    assert TakeAll(gc, d) == gd by { if d != [] { TakeOne(gc, d[0]); } }
    assert TakeAll(gd, e) == gd.(lastSequence := f.lastSequence) by { if e != [] { TakeOne(gd, e[0]); } }
    TakeAllConcat(g, a, b);
    TakeAllConcat(g, a + b, c);
    TakeAllConcat(g, a + b + c, d);
    TakeAllConcat(g, a + b + c + d, e);
  }

  lemma {:induction false} TakePointers(f: Fields, ps: seq<Pointer>)
    ensures TakeAll(f, PointerItems(ps)) == f.(pointers := f.pointers + ps)
    decreases |ps|
  {
    if ps == [] {
      assert f.pointers + ps == f.pointers;
    } else {
      assert PointerItems(ps)[1..] == PointerItems(ps[1..]);
      assert (f.pointers + [ps[0]]) + ps[1..] == f.pointers + ps;
      TakePointers(Take(f, CompactPointer(ps[0])), ps[1..]);
    }
  }

  lemma {:induction false} TakeAdded(f: Fields, xs: seq<Added>)
    ensures TakeAll(f, AddedItems(xs)) == f.(added := f.added + xs)
    decreases |xs|
  {
    if xs == [] {
      assert f.added + xs == f.added;
    } else {
      assert AddedItems(xs)[1..] == AddedItems(xs[1..]);
      assert (f.added + [xs[0]]) + xs[1..] == f.added + xs;
      TakeAdded(Take(f, NewFile(xs[0])), xs[1..]);
    }
  }

  lemma {:induction false} InsertLast(ds: seq<Deleted>, d: Deleted)
    requires forall x | x in ds :: DeletedLess(x, d)
    ensures InsertDeleted(ds, d) == ds + [d]
  {
    if ds != [] {
      InsertLast(ds[1..], d);
      assert ds == [ds[0]] + ds[1..];
    }
  }

  /** Inserting what was listed in order lists it in the same order. */
  lemma {:induction false} TakeDeleted(f: Fields, ds: seq<Deleted>, n: nat)
    requires Ascending(ds) && n <= |ds| && f.deleted == ds[..n]
    ensures TakeAll(f, DeletedItems(ds[n..])) == f.(deleted := ds)
    decreases |ds| - n
  {
    if n == |ds| {
      assert ds[..n] == ds;
    } else {
      forall x | x in ds[..n] ensures DeletedLess(x, ds[n]) {
        var i :| 0 <= i < n && ds[i] == x;
        assert InOrder(ds, i, n);
      }
      InsertLast(ds[..n], ds[n]);
      assert ds[..n] + [ds[n]] == ds[..n + 1];
      assert DeletedItems(ds[n..])[1..] == DeletedItems(ds[n + 1..]);
      TakeDeleted(Take(f, DeletedFile(ds[n])), ds, n + 1);
    }
  }

  /** What is cleared before decoding; the compaction pointers are not. */
  function Cleared(f: Fields): Fields {
    EMPTY.(pointers := f.pointers)
  }

  lemma TakeItems(f: Fields, g: Fields)
    requires f.Valid()
    ensures TakeAll(Cleared(g), ItemsOf(f)) == f.(pointers := g.pointers + f.pointers)
  {
    var g0 := Cleared(g);
    var a, b, c, d := Scalars(f), PointerItems(f.pointers), DeletedItems(f.deleted), AddedItems(f.added);
    TakeAllConcat(g0, a, b);
    TakeAllConcat(g0, a + b, c);
    TakeAllConcat(g0, a + b + c, d);
    TakeScalars(f, g0);
    var g1 := TakeAll(g0, a);
    TakePointers(g1, f.pointers);
    var g2 := TakeAll(g1, b);
    assert f.deleted[0..] == f.deleted;
    TakeDeleted(g2, f.deleted, 0);
    TakeAdded(TakeAll(g2, c), f.added);
    assert [] + f.added == f.added;
  }

  /** Decoding an encoded edit gives the edit, on top of the compaction pointers that were
      there. */
  lemma RoundTrip(f: Fields, g: Fields)
    requires f.Valid()
    ensures Read(Encoded(f), Cleared(g)) == (f.(pointers := g.pointers + f.pointers), true)
  {
    ItemsFit(f);
    PutsAreRead(ItemsOf(f), Cleared(g));
    TakeItems(f, g);
  }

  // ----- The edit as an object -----------------------------------------------------------------------

  class VersionEdit {
    var fields: Fields

    constructor ()
      ensures fields == EMPTY
    {
      fields := EMPTY;
    }

    method Clear()
      modifies this
      ensures fields == Cleared(old(fields))
    {
      fields := EMPTY.(pointers := fields.pointers);
    }

    method DecodeFrom(src: Bytes) returns (ok: bool)
      modifies this
      ensures (fields, ok) == Read(src, Cleared(old(fields)))
    {
      ghost var goal := Read(src, Cleared(fields));
      Clear();
      var input := src;
      ok := true;
      while ok && input != []
        invariant goal == if ok then Read(input, fields) else (fields, false)
        decreases |input|, ok
      {
        match Get(input) {
          case Bad => ok := false;
          case Good(i, rest) =>
            fields := Take(fields, i);
            input := rest;
        }
      }
    }

    /** Appends the fields that are set, then the lists. */
    method EncodeTo(dst: Bytes) returns (out: Bytes)
      ensures out == dst + Encoded(fields)
    {
      out := EncodeWith(Put, dst);
    }

    method EncodeWith(put: Item -> Bytes, dst: Bytes) returns (out: Bytes)
      ensures out == dst + PutAll(put, ItemsOf(fields))
    {
      ghost var done;
      out, done := EncodeScalars(put, dst);
      for i := 0 to |fields.pointers|
        invariant done == Scalars(fields) + PointerItems(fields.pointers[..i]) && Wrote(put, dst, out, done)
      {
        out, done := PutItem(put, dst, out, CompactPointer(fields.pointers[i]), done);
      }
      assert fields.pointers[..|fields.pointers|] == fields.pointers;
      for i := 0 to |fields.deleted|
        invariant done == Scalars(fields) + PointerItems(fields.pointers) + DeletedItems(fields.deleted[..i])
        invariant Wrote(put, dst, out, done)
      {
        out, done := PutItem(put, dst, out, DeletedFile(fields.deleted[i]), done);
      }
      assert fields.deleted[..|fields.deleted|] == fields.deleted;
      for i := 0 to |fields.added|
        invariant done == Scalars(fields) + PointerItems(fields.pointers) + DeletedItems(fields.deleted)
                  + AddedItems(fields.added[..i])
        invariant Wrote(put, dst, out, done)
      {
        out, done := PutItem(put, dst, out, NewFile(fields.added[i]), done);
      }
      assert fields.added[..|fields.added|] == fields.added;
    }

    method EncodeScalars(put: Item -> Bytes, dst: Bytes) returns (out: Bytes, ghost done: seq<Item>)
      ensures done == Scalars(fields) && Wrote(put, dst, out, done)
    {
      out, done := dst, [];
      if fields.comparator.Some? { out, done := PutItem(put, dst, out, Comparator(fields.comparator.value), done); }
      if fields.logNumber.Some? { out, done := PutItem(put, dst, out, LogNumber(fields.logNumber.value), done); }
      if fields.prevLogNumber.Some? { out, done :=
          PutItem(put, dst, out, PrevLogNumber(fields.prevLogNumber.value), done); }
      if fields.nextFile.Some? { out, done := PutItem(put, dst, out, NextFile(fields.nextFile.value), done); }
      if fields.lastSequence.Some? { out, done :=
          PutItem(put, dst, out, LastSequence(fields.lastSequence.value), done); }
    }
  }

  ghost predicate Wrote(put: Item -> Bytes, dst: Bytes, out: Bytes, done: seq<Item>) {
    out == dst + PutAll(put, done)
  }

  method PutItem(put: Item -> Bytes, ghost dst: Bytes, out0: Bytes, i: Item, ghost done0: seq<Item>)
    returns (out: Bytes, ghost done: seq<Item>)
    requires Wrote(put, dst, out0, done0)
    ensures done == done0 + [i] && Wrote(put, dst, out, done)
  {
    PutAllAppend(put, done0, i);
    out, done := out0 + put(i), done0 + [i];
  }
}
