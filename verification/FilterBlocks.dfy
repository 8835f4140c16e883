/** The filter block of a table: one filter for every two kilobytes of the file. */
module FilterBlocks {
  import opened Coding
  import opened Blocks

  /** A filter policy makes filters of keys and tests keys against them. */
  datatype Policy = Policy(create: seq<Bytes> -> Bytes, mayMatch: (Bytes, Bytes) -> bool)

  ghost predicate NoFalseNegatives(p: Policy) {
    forall keys, k | k in keys :: p.mayMatch(k, p.create(keys))
  }

  const FILTER_BASE: nat := 2048
  const FILTER_BASE_LG: byte := 11

  /** The filters so far: filter `i` is for `windows[i]`, and empty if there are no keys. */
  ghost predicate Filters(p: Policy, result: Bytes, offsets: seq<nat>, windows: seq<seq<Bytes>>) {
    && |offsets| == |windows|
    && forall i | 0 <= i < |windows| :: FilterAt(p, result, offsets, windows, i)
  }

  function LimitOf(result: Bytes, offsets: seq<nat>, i: nat): nat
    requires i < |offsets|
  {
    if i + 1 < |offsets| then offsets[i + 1] else |result|
  }

  ghost predicate FilterAt(p: Policy, result: Bytes, offsets: seq<nat>, windows: seq<seq<Bytes>>, i: nat)
    requires |offsets| == |windows| && i < |windows|
  {
    var limit := LimitOf(result, offsets, i);
    offsets[i] <= limit <= |result| && result[offsets[i]..limit] == if windows[i] == [] then []
        else p.create(windows[i])
  }

  /** A key and the offset of the block that it is in. */
  datatype Added = Added(offset: nat, key: Bytes)

  /** Every key is in the window of its block, or still waits for its filter. */
  ghost predicate Placed(a: Added, windows: seq<seq<Bytes>>, keys: seq<Bytes>) {
    var i := a.offset / FILTER_BASE;
    if i < |windows| then a.key in windows[i] else i == |windows| && a.key in keys
  }

  /** A filter takes no more than so many bytes for each of its keys. */
  ghost predicate Linear(p: Policy, rate: nat) {
    forall keys :: FilterIsShort(p, rate, keys)
  }

  ghost predicate FilterIsShort(p: Policy, rate: nat, keys: seq<Bytes>) {
    keys != [] ==> |p.create(keys)| <= Times(rate, |keys|)
  }

  function Times(rate: nat, n: nat): nat {
    if n == 0 then 0 else rate + Times(rate, n - 1)
  }

  lemma {:induction false} TimesIsProduct(rate: nat, n: nat)
    ensures Times(rate, n) == rate * n
  {
    if n > 0 { TimesIsProduct(rate, n - 1); }
  }

  class FilterBlockBuilder {
    const policy: Policy
    var keys: seq<Bytes>
    var result: Bytes
    var filterOffsets: seq<nat>

    ghost var windows: seq<seq<Bytes>>
    ghost var added: seq<Added>
    ghost var block: nat

    ghost predicate Valid()
      reads this
    {
      && Filters(policy, result, filterOffsets, windows)
      && (forall a | a in added :: Placed(a, windows, keys))
      && block / FILTER_BASE == |windows|
    }

    /** The filters so far and those of the keys that wait take no more than that. */
    ghost predicate Short(rate: nat)
      reads this`result, this`keys, this`added
    {
      Linear(policy, rate) ==> |result| + Times(rate, |keys|) <= Times(rate, |added|)
    }

    constructor (policy: Policy)
      ensures Valid() && this.policy == policy && added == [] && block == 0 && forall rate :: Short(rate)
    {
      this.policy := policy;
      keys, result, filterOffsets := [], [], [];
      windows, added, block := [], [], 0;
    }

    /** The keys that follow belong to the block at this offset. */
    method StartBlock(blockOffset: nat)
      requires Valid() && blockOffset >= block
      modifies this
      ensures Valid() && block == blockOffset && added == old(added)
      ensures forall rate | old(Short(rate)) :: Short(rate)
    {
      var filterIndex := blockOffset / FILTER_BASE;
      while filterIndex > |filterOffsets|
        invariant Filters(policy, result, filterOffsets, windows) && |windows| <= filterIndex
        invariant forall a | a in added :: Placed(a, windows, keys)
        invariant added == old(added) && forall rate | old(Short(rate)) :: Short(rate)
        decreases filterIndex - |filterOffsets|
      {
        GenerateFilter();
      }
      block := blockOffset;
    }

    method AddKey(key: Bytes)
      requires Valid()
      modifies this`keys, this`added
      ensures Valid() && added == old(added) + [Added(block, key)]
      ensures forall rate | old(Short(rate)) :: Short(rate)
    {
      keys := keys + [key];
      added := added + [Added(block, key)];
    }

    method GenerateFilter()
      requires Filters(policy, result, filterOffsets, windows)
      modifies this`keys, this`result, this`filterOffsets, this`windows
      ensures Filters(policy, result, filterOffsets, windows) && keys == [] && windows == old(windows) + [old(keys)]
      ensures forall rate | old(Short(rate)) :: Short(rate)
    {
      forall rate: nat | Short(rate) && Linear(policy, rate)
        ensures |result| + (if keys == [] then 0 else |policy.create(keys)|) <= Times(rate, |added|)
      {
        assert FilterIsShort(policy, rate, keys);
      }
      var more := if keys == [] then [] else policy.create(keys);
      OneMoreFilter(policy, result, filterOffsets, windows, keys);
      filterOffsets := filterOffsets + [|result|];
      result := result + more;
      windows := windows + [keys];
      keys := [];
    }

    /** The filters, their offsets, where those begin, and the size of a window. */
    method Finish() returns (contents: Bytes)
      requires Valid()
      modifies this
      ensures added == old(added) && Filters(policy, result, filterOffsets, windows)
      ensures forall a | a in added :: a.offset / FILTER_BASE < |windows| && a.key in windows[a.offset / FILTER_BASE]
      ensures contents == result + OffsetsOf(filterOffsets) + Fixed(|result|, 4) + [FILTER_BASE_LG]
      ensures forall rate: nat | Linear(policy, rate) && old(Short(rate)) ::
                |contents| <= Times(rate, |added|) + 4 * (old(block) / FILTER_BASE + 1) + 5
    {
      if keys != [] {
        GenerateFilter();
      }
      contents := result;
      assert OffsetsOf(filterOffsets[..0]) == [];
      for i := 0 to |filterOffsets|
        invariant contents == result + OffsetsOf(filterOffsets[..i])
      {
        assert filterOffsets[..i + 1][..i] == filterOffsets[..i];
        contents := contents + Fixed(filterOffsets[i], 4);
      }
      assert filterOffsets[..|filterOffsets|] == filterOffsets;
      contents := contents + Fixed(|result|, 4);
      contents := contents + [FILTER_BASE_LG];
    }
  }

  lemma OneMoreFilter(p: Policy, result: Bytes, offsets: seq<nat>, windows: seq<seq<Bytes>>, keys: seq<Bytes>)
    requires Filters(p, result, offsets, windows)
    ensures Filters(p, result + (if keys == [] then [] else p.create(keys)), offsets + [|result|], windows + [keys])
  {
    var more := if keys == [] then [] else p.create(keys);
    var r, os, ws := result + more, offsets + [|result|], windows + [keys];
    forall i | 0 <= i < |ws| ensures FilterAt(p, r, os, ws, i) {
      if i < |windows| {
        assert FilterAt(p, result, offsets, windows, i);
        assert r[os[i]..LimitOf(r, os, i)] == result[offsets[i]..LimitOf(result, offsets, i)];
      }
    }
  }

  // ----- Reading ----------------------------------------------------------------------------------------

  /** The test of a reader. A trailer or an offset that makes no sense lets the key match, except
      that a filter of no bytes matches nothing, wherever it is. */
  function MayMatch(policy: Policy, contents: Bytes, blockOffset: nat, key: Bytes): bool {
    |contents| < 5 || MayMatchAt(policy, contents, blockOffset / Pow2(contents[|contents| - 1]), key)
  }

  function MayMatchAt(policy: Policy, contents: Bytes, index: nat, key: Bytes): bool
    requires |contents| >= 5
  {
    var n := |contents|;
    var lastWord := DecodeFixed(contents[n - 5..n - 1]);
    lastWord > n - 5 || index >= (n - 5 - lastWord) / 4
        || FilterMatches(policy, contents, lastWord, lastWord + 4 * index, key)
  }

  /** The filter whose offset is at `at`, and whose limit is the word after that. */
  function FilterMatches(policy: Policy, contents: Bytes, lastWord: nat, at: nat, key: Bytes): bool
    requires lastWord <= at && at + 8 <= |contents|
  {
    var start, limit := DecodeFixed(contents[at..at + 4]), DecodeFixed(contents[at + 4..at + 8]);
    if start <= limit <= lastWord then policy.mayMatch(key, contents[start..limit]) else start != limit
  }

  /** What a reader takes from the trailer: the offsets, where they begin, and the window. */
  ghost predicate Trailer(contents: Bytes, result: Bytes, offsets: seq<nat>) {
    && |contents| == |result| + 4 * |offsets| + 5 && result <= contents
    && contents[|contents| - 1] == FILTER_BASE_LG
    && forall k: nat | k <= |offsets| :: WordOf(contents, result, offsets, k)
  }

  ghost predicate WordOf(contents: Bytes, result: Bytes, offsets: seq<nat>, k: nat)
    requires k <= |offsets|
  {
    WordAt(contents, |result| + 4 * k, if k < |offsets| then offsets[k] else |result|)
  }

  ghost predicate WordAt(contents: Bytes, at: nat, v: nat) {
    at + 4 <= |contents| && DecodeFixed(contents[at..at + 4]) == v
  }

  lemma WordWithin(a: Bytes, b: Bytes, c: Bytes, i: nat, v: nat)
    requires WordAt(b, i, v)
    ensures WordAt(a + b + c, |a| + i, v)
  {
    assert (a + b + c)[|a|..|a| + |b|] == b;
    SliceOfSlice(a + b + c, |a|, |a| + |b|, i, i + 4);
  }

  lemma WordIsRead(before: Bytes, v: nat, rest: Bytes)
    requires v < 0x1_0000_0000
    ensures WordAt(before + Fixed(v, 4) + rest, |before|, v)
  {
    FixedIsWord(v, Fixed(v, 4));
    WordWithin(before, Fixed(v, 4), rest, 0, v);
  }

  lemma FixedIsWord(v: nat, w: Bytes)
    requires v < 0x1_0000_0000 && w == Fixed(v, 4)
    ensures WordAt(w, 0, v)
  {
    assert w[0..4] == w;
    FourBytes(v);
  }

  lemma TrailerIsRead(p: Policy, contents: Bytes, result: Bytes, offsets: seq<nat>, windows: seq<seq<Bytes>>)
    requires Filters(p, result, offsets, windows)
    requires contents == result + OffsetsOf(offsets) + Fixed(|result|, 4) + [FILTER_BASE_LG]
             && |contents| < 0x1_0000_0000
    ensures Trailer(contents, result, offsets)
  {
    var rest := Fixed(|result|, 4) + [FILTER_BASE_LG];
    assert contents == result + OffsetsOf(offsets) + rest;
    forall k: nat | k <= |offsets| ensures WordOf(contents, result, offsets, k) {
      if k < |offsets| {
        assert FilterAt(p, result, offsets, windows, k);
        OffsetIsWord(offsets, k);
        WordWithin(result, OffsetsOf(offsets), rest, 4 * k, offsets[k]);
      } else {
        WordIsRead(result + OffsetsOf(offsets), |result|, [FILTER_BASE_LG]);
      }
    }
  }

  lemma OffsetIsWord(offsets: seq<nat>, k: nat)
    requires k < |offsets| && offsets[k] < 0x1_0000_0000
    ensures WordAt(OffsetsOf(offsets), 4 * k, offsets[k])
  {
    OffsetAt(offsets, k);
    FourBytes(offsets[k]);
  }

  /** A finished filter block answers what the filter of the keys in the block's window answers; what
      lies behind all windows may match. */
  lemma BuiltMatchesExactly(p: Policy, result: Bytes, offsets: seq<nat>, windows: seq<seq<Bytes>>, contents: Bytes,
                            blockOffset: nat, key: Bytes)
    requires Filters(p, result, offsets, windows)
    requires contents == result + OffsetsOf(offsets) + Fixed(|result|, 4) + [FILTER_BASE_LG]
             && |contents| < 0x1_0000_0000
    ensures MayMatch(p, contents, blockOffset, key) <==>
            var i := blockOffset / FILTER_BASE;
            i < |windows| ==> p.mayMatch(key, if windows[i] == [] then [] else p.create(windows[i]))
  {
    TrailerIsRead(p, contents, result, offsets, windows);
    WindowSize();
    WindowMatchesExactly(p, result, offsets, windows, contents, blockOffset / FILTER_BASE, key);
    assert blockOffset / Pow2(contents[|contents| - 1]) == blockOffset / FILTER_BASE;
  }

  /** So it never excludes a key from the block it was added to. */
  lemma AddedMayMatch(p: Policy, result: Bytes, offsets: seq<nat>, windows: seq<seq<Bytes>>, contents: Bytes, a: Added)
    requires NoFalseNegatives(p) && Filters(p, result, offsets, windows)
    requires contents == result + OffsetsOf(offsets) + Fixed(|result|, 4) + [FILTER_BASE_LG]
             && |contents| < 0x1_0000_0000
    requires a.offset / FILTER_BASE < |windows| && a.key in windows[a.offset / FILTER_BASE]
    ensures MayMatch(p, contents, a.offset, a.key)
  {
    BuiltMatchesExactly(p, result, offsets, windows, contents, a.offset, a.key);
  }

  lemma WindowSize()
    ensures Pow2(FILTER_BASE_LG) == FILTER_BASE
  {
    assert Pow2(4) == 16;
    assert Pow2(8) == 2 * (2 * (2 * (2 * Pow2(4))));
    assert Pow2(11) == 2 * (2 * (2 * Pow2(8)));
  }

  lemma WindowMatchesExactly(p: Policy, result: Bytes, offsets: seq<nat>, windows: seq<seq<Bytes>>, contents: Bytes,
                             i: nat, key: Bytes)
    requires Filters(p, result, offsets, windows) && Trailer(contents, result, offsets)
    ensures |contents| >= 5 && (MayMatchAt(p, contents, i, key) <==>
            (i < |windows| ==> p.mayMatch(key, if windows[i] == [] then [] else p.create(windows[i]))))
  {
    assert WordOf(contents, result, offsets, |offsets|);
    if i < |windows| {
      assert FilterAt(p, result, offsets, windows, i);
      assert WordOf(contents, result, offsets, i) && WordOf(contents, result, offsets, i + 1);
      var limit := LimitOf(result, offsets, i);
      SliceOfSlice(contents, 0, |result|, offsets[i], limit);
      assert contents[offsets[i]..limit] == if windows[i] == [] then [] else p.create(windows[i]);
    }
  }
}
