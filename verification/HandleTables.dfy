/** The hash table of the cache: buckets of handles chained by a field of the handle. A handle is
    an index, and nothing is chained after NULL. */
module HandleTables {
  import opened Coding

  /** What a handle is found by. */
  datatype Id = Id(key: Bytes, hash: uint32)

  const NULL: nat := 0

  function At(chain: seq<nat>, i: nat): nat {
    if i < |chain| then chain[i] else NULL
  }

  function BucketOf(id: Id, length: nat): (b: nat)
    requires length > 0
    ensures b < length
  {
    AndIsSmall(id.hash, length - 1);
    And(id.hash, length - 1)
  }

  /** The mask is the remainder, because the lengths are powers of two. */
  lemma BucketIsRemainder(id: Id, length: nat)
    requires IsPow2(length)
    ensures length > 0 && BucketOf(id, length) == id.hash % length
  {
    var k: nat :| length == Pow2(k);
    MaskIsRemainder(id.hash, k);
  }

  ghost predicate NodeOk(ids: seq<Id>, next: seq<nat>, length: nat, b: nat, chain: seq<nat>, i: nat)
    requires i < |chain| && length > 0
  {
    && 0 < chain[i] < |ids| && |ids| == |next| && BucketOf(ids[chain[i]], length) == b
    && next[chain[i]] == At(chain, i + 1)
  }

  ghost predicate Apart(ids: seq<Id>, chain: seq<nat>, i: nat, j: nat)
    requires i < |chain| && j < |chain|
  {
    chain[i] < |ids| && chain[j] < |ids| && ids[chain[i]] != ids[chain[j]]
  }

  /** A bucket's chain: linked, of handles that belong there, no two of the same id. */
  ghost predicate ChainOk(ids: seq<Id>, next: seq<nat>, length: nat, b: nat, chain: seq<nat>)
    requires length > 0
  {
    && (forall i: nat | i < |chain| :: NodeOk(ids, next, length, b, chain, i))
    && forall i: nat, j: nat | i < j < |chain| :: Apart(ids, chain, i, j)
  }

  ghost predicate BucketOk(ids: seq<Id>, next: seq<nat>, list: seq<nat>, chains: seq<seq<nat>>, b: nat)
    requires b < |list| == |chains|
  {
    list[b] == At(chains[b], 0) && ChainOk(ids, next, |list|, b, chains[b])
  }

  ghost predicate TableOk(ids: seq<Id>, next: seq<nat>, list: seq<nat>, chains: seq<seq<nat>>) {
    && |list| == |chains| > 0 && |next| == |ids|
    && forall b: nat | b < |list| :: BucketOk(ids, next, list, chains, b)
  }

  /** The handle is in the table. */
  ghost predicate Has(ids: seq<Id>, chains: seq<seq<nat>>, h: nat) {
    0 < h < |ids| && |chains| > 0 && h in chains[BucketOf(ids[h], |chains|)]
  }

  function Total(chains: seq<seq<nat>>): nat {
    if chains == [] then 0 else |chains[0]| + Total(chains[1..])
  }

  lemma {:induction false} TotalUpdate(chains: seq<seq<nat>>, b: nat, chain: seq<nat>)
    requires b < |chains|
    ensures Total(chains[b := chain]) == Total(chains) - |chains[b]| + |chain|
  {
    if b == 0 {
      assert chains[0 := chain][1..] == chains[1..];
    } else {
      assert chains[b := chain][1..] == chains[1..][b - 1 := chain];
      TotalUpdate(chains[1..], b - 1, chain);
    }
  }

  /** Where the pointer to a handle is stored. */
  datatype Slot = Bucket(b: nat) | NextOf(h: nat)

  function SlotAt(b: nat, chain: seq<nat>, i: nat): Slot
    requires i <= |chain|
  {
    if i == 0 then Bucket(b) else NextOf(chain[i - 1])
  }

  /** Two handles of the table with one id are one handle. */
  lemma SameIdSameHandle(ids: seq<Id>, next: seq<nat>, list: seq<nat>, chains: seq<seq<nat>>, g: nat, h: nat)
    requires TableOk(ids, next, list, chains) && Has(ids, chains, g) && Has(ids, chains, h) && ids[g] == ids[h]
    ensures g == h
  {
    var b := BucketOf(ids[g], |chains|);
    assert BucketOk(ids, next, list, chains, b);
    var i: nat :| i < |chains[b]| && chains[b][i] == g;
    var j: nat :| j < |chains[b]| && chains[b][j] == h;
    if i < j {
      IdsDiffer(ids, next, |list|, b, chains[b], i, j);
    } else if j < i {
      IdsDiffer(ids, next, |list|, b, chains[b], j, i);
    }
  }

  lemma IdsDiffer(ids: seq<Id>, next: seq<nat>, length: nat, b: nat, chain: seq<nat>, i: nat, j: nat)
    requires length > 0 && ChainOk(ids, next, length, b, chain) && i < j < |chain|
    ensures Apart(ids, chain, i, j)
  {
  }

  /** The place of an id: the first handle with it in its bucket, or the end. */
  ghost predicate Place(ids: seq<Id>, chains: seq<seq<nat>>, id: Id, i: nat) {
    |chains| > 0 && PlaceIn(ids, chains[BucketOf(id, |chains|)], id, i)
  }

  ghost predicate PlaceIn(ids: seq<Id>, chain: seq<nat>, id: Id, i: nat) {
    && i <= |chain|
    && (forall k: nat | k < i :: chain[k] < |ids| && ids[chain[k]] != id)
    && (i < |chain| ==> chain[i] < |ids| && ids[chain[i]] == id)
  }

  /** The table after a handle has come to stand in its place. */
  function PutIn(chain: seq<nat>, i: nat, h: nat): seq<nat>
    requires i <= |chain|
  {
    if i < |chain| then chain[i := h] else chain + [h]
  }

  function CutOut(chain: seq<nat>, i: nat): seq<nat>
    requires i < |chain|
  {
    chain[..i] + chain[i + 1..]
  }

  function StoreNext(next: seq<nat>, slot: Slot, h: nat): seq<nat> {
    if slot.NextOf? && slot.h < |next| then next[slot.h := h] else next
  }

  function StoreList(list: seq<nat>, slot: Slot, h: nat): seq<nat> {
    if slot.Bucket? && slot.b < |list| then list[slot.b := h] else list
  }

  /** Other buckets are not touched by what happens to the handles of one. */
  lemma OtherBucket(ids: seq<Id>, next: seq<nat>, list: seq<nat>, chains: seq<seq<nat>>, b: nat, next': seq<nat>,
                    list': seq<nat>, chains': seq<seq<nat>>, c: nat)
    requires TableOk(ids, next, list, chains) && b < |list| && c < |list| && b != c
    requires |next'| == |next| && |list'| == |list| && |chains'| == |chains|
    requires list'[c] == list[c] && chains'[c] == chains[c]
    requires forall h: nat | h < |ids| && BucketOf(ids[h], |list|) != b :: next'[h] == next[h]
    ensures BucketOk(ids, next', list', chains', c)
  {
    assert BucketOk(ids, next, list, chains, c);
    var chain := chains[c];
    forall i: nat | i < |chain| ensures NodeOk(ids, next', |list|, c, chain, i) {
      assert NodeOk(ids, next, |list|, c, chain, i);
    }
    forall i: nat, j: nat | i < j < |chain| ensures Apart(ids, chain, i, j) {
      assert Apart(ids, chain, i, j);
    }
  }

  lemma PutInKeeps(ids: seq<Id>, next: seq<nat>, length: nat, b: nat, chain: seq<nat>, i: nat, h: nat)
    requires length > 0 && ChainOk(ids, next, length, b, chain) && |next| == |ids|
    requires 0 < h < |ids| && h !in chain && BucketOf(ids[h], length) == b && PlaceIn(ids, chain, ids[h], i)
    ensures ChainOk(ids, StoreNext(next[h := At(chain, i + 1)], SlotAt(b, chain, i), h), length, b, PutIn(chain, i, h))
  {
    var out, slot := PutIn(chain, i, h), SlotAt(b, chain, i);
    var next' := StoreNext(next[h := At(chain, i + 1)], slot, h);
    forall k: nat | k < |out| ensures NodeOk(ids, next', length, b, out, k) {
      if k != i {
        assert NodeOk(ids, next, length, b, chain, k);
        if i > 0 {
          assert k != i - 1 ==> Apart(ids, chain, if k < i - 1 then k else i - 1, if k < i - 1 then i - 1 else k);
        }
      }
    }
    forall k: nat, j: nat | k < j < |out| ensures Apart(ids, out, k, j) {
      OtherPlace(ids, next, length, b, chain, i, h, if k == i then j else k);
      if k != i && j != i { assert Apart(ids, chain, k, j); }
    }
  }

  lemma OtherPlace(ids: seq<Id>, next: seq<nat>, length: nat, b: nat, chain: seq<nat>, i: nat, h: nat, k: nat)
    requires length > 0 && ChainOk(ids, next, length, b, chain) && |next| == |ids|
    requires 0 < h < |ids| && PlaceIn(ids, chain, ids[h], i) && k != i && k < |chain|
    ensures chain[k] < |ids| && ids[chain[k]] != ids[h]
  {
    if k > i { assert Apart(ids, chain, i, k); }
  }

  lemma CutOutKeeps(ids: seq<Id>, next: seq<nat>, length: nat, b: nat, chain: seq<nat>, i: nat)
    requires length > 0 && ChainOk(ids, next, length, b, chain) && |next| == |ids| && i < |chain|
    ensures ChainOk(ids, StoreNext(next, SlotAt(b, chain, i), At(chain, i + 1)), length, b, CutOut(chain, i))
  {
    var out, slot := CutOut(chain, i), SlotAt(b, chain, i);
    var next' := StoreNext(next, slot, At(chain, i + 1));
    forall k: nat | k < |out| ensures NodeOk(ids, next', length, b, out, k) {
      var was := if k < i then k else k + 1;
      assert NodeOk(ids, next, length, b, chain, was);
      if i > 0 && was != i - 1 {
        assert Apart(ids, chain, if was < i - 1 then was else i - 1, if was < i - 1 then i - 1 else was);
      }
    }
    forall k: nat, j: nat | k < j < |out| ensures Apart(ids, out, k, j) {
      assert Apart(ids, chain, if k < i then k else k + 1, if j < i then j else j + 1);
    }
  }

  lemma InPutIn(chain: seq<nat>, i: nat, h: nat, g: nat)
    requires i <= |chain|
    ensures g in PutIn(chain, i, h) <==> g == h || exists k: nat :: k < |chain| && k != i && chain[k] == g
  {
    var out := PutIn(chain, i, h);
    if k: nat :| k < |chain| && k != i && chain[k] == g { assert out[k] == g; }
    assert out[i] == h;
  }

  lemma InCutOut(chain: seq<nat>, i: nat, g: nat)
    requires i < |chain|
    ensures g in CutOut(chain, i) <==> exists k: nat :: k < |chain| && k != i && chain[k] == g
  {
    var out := CutOut(chain, i);
    if k: nat :| k < |chain| && k != i && chain[k] == g { assert out[if k < i then k else k - 1] == g; }
    if g in out {
      var k: nat :| k < |out| && out[k] == g;
      assert chain[if k < i then k else k + 1] == g;
    }
  }

  /** Which handles of a chain have another id than that of its place `i`. */
  lemma OthersInChain(ids: seq<Id>, next: seq<nat>, length: nat, b: nat, chain: seq<nat>, id: Id, i: nat, g: nat)
    requires length > 0 && ChainOk(ids, next, length, b, chain) && PlaceIn(ids, chain, id, i) && g < |ids|
    ensures (exists k: nat :: k < |chain| && k != i && chain[k] == g) <==> g in chain && ids[g] != id
  {
    if k: nat :| k < |chain| && k != i && chain[k] == g {
      if k > i { assert Apart(ids, chain, i, k); }
    }
    if g in chain && ids[g] != id {
      var k: nat :| k < |chain| && chain[k] == g;
    }
  }

  /** The table with a handle put in, in place of the one with its id if there is one. */
  lemma PutInTable(ids: seq<Id>, next: seq<nat>, list: seq<nat>, chains: seq<seq<nat>>, i: nat, h: nat)
    requires TableOk(ids, next, list, chains) && 0 < h < |ids| && !Has(ids, chains, h) && Place(ids, chains, ids[h], i)
    ensures var b := BucketOf(ids[h], |chains|);
            var slot := SlotAt(b, chains[b], i);
            var next', list' := StoreNext(next[h := At(chains[b], i + 1)], slot, h), StoreList(list, slot, h);
            var chains' := chains[b := PutIn(chains[b], i, h)];
            && TableOk(ids, next', list', chains')
            && Total(chains') == Total(chains) + (if i < |chains[b]| then 0 else 1)
            && forall g: nat :: Has(ids, chains', g) <==> g == h || (Has(ids, chains, g) && ids[g] != ids[h])
  {
    var b := BucketOf(ids[h], |chains|);
    var chain := chains[b];
    var slot := SlotAt(b, chain, i);
    var next', list' := StoreNext(next[h := At(chain, i + 1)], slot, h), StoreList(list, slot, h);
    var chains' := chains[b := PutIn(chain, i, h)];
    assert BucketOk(ids, next, list, chains, b);
    assert i > 0 ==> NodeOk(ids, next, |list|, b, chain, i - 1);
    forall c: nat | c < |list| ensures BucketOk(ids, next', list', chains', c) {
      if c == b {
        PutInKeeps(ids, next, |list|, b, chain, i, h);
      } else {
        OtherBucket(ids, next, list, chains, b, next', list', chains', c);
      }
    }
    TotalUpdate(chains, b, PutIn(chain, i, h));
    forall g: nat ensures Has(ids, chains', g) <==> g == h || (Has(ids, chains, g) && ids[g] != ids[h]) {
      if 0 < g < |ids| && BucketOf(ids[g], |chains|) == b {
        InPutIn(chain, i, h, g);
        OthersInChain(ids, next, |list|, b, chain, ids[h], i, g);
      }
    }
  }

  /** The table with the handle in a place cut out. */
  lemma CutOutTable(ids: seq<Id>, next: seq<nat>, list: seq<nat>, chains: seq<seq<nat>>, id: Id, i: nat)
    requires TableOk(ids, next, list, chains) && Place(ids, chains, id, i) && i < |chains[BucketOf(id, |chains|)]|
    ensures var b := BucketOf(id, |chains|);
            var slot := SlotAt(b, chains[b], i);
            var after := At(chains[b], i + 1);
            var chains' := chains[b := CutOut(chains[b], i)];
            && TableOk(ids, StoreNext(next, slot, after), StoreList(list, slot, after), chains')
            && Total(chains') == Total(chains) - 1
            && forall g: nat :: Has(ids, chains', g) <==> Has(ids, chains, g) && ids[g] != id
  {
    var b := BucketOf(id, |chains|);
    var chain := chains[b];
    var slot, after := SlotAt(b, chain, i), At(chain, i + 1);
    var next', list' := StoreNext(next, slot, after), StoreList(list, slot, after);
    var chains' := chains[b := CutOut(chain, i)];
    assert BucketOk(ids, next, list, chains, b);
    assert i > 0 ==> NodeOk(ids, next, |list|, b, chain, i - 1);
    forall c: nat | c < |list| ensures BucketOk(ids, next', list', chains', c) {
      if c == b {
        CutOutKeeps(ids, next, |list|, b, chain, i);
      } else {
        OtherBucket(ids, next, list, chains, b, next', list', chains', c);
      }
    }
    TotalUpdate(chains, b, CutOut(chain, i));
    forall g: nat ensures Has(ids, chains', g) <==> Has(ids, chains, g) && ids[g] != id {
      if 0 < g < |ids| && BucketOf(ids[g], |chains|) == b {
        InCutOut(chain, i, g);
        OthersInChain(ids, next, |list|, b, chain, id, i, g);
      }
    }
  }

  // ----- Resizing --------------------------------------------------------------------------------------

  /** The handle has been moved when buckets before `c`, and `k` handles of that, have been. */
  ghost predicate Moved(ids: seq<Id>, chains: seq<seq<nat>>, c: nat, k: nat, h: nat) {
    && Has(ids, chains, h)
    && var b := BucketOf(ids[h], |chains|);
       b < c || (b == c && k <= |chains[c]| && h in chains[c][..k])
  }

  /** What is still to be moved is chained as it was. */
  ghost predicate Remaining(next: seq<nat>, chains: seq<seq<nat>>, c: nat, k: nat) {
    forall b: nat, j: nat | Ahead(chains, c, k, b, j) :: Link(next, chains, b, j)
  }

  ghost predicate Ahead(chains: seq<seq<nat>>, c: nat, k: nat, b: nat, j: nat) {
    b < |chains| && j < |chains[b]| && (b > c || (b == c && j >= k))
  }

  ghost predicate Link(next: seq<nat>, chains: seq<seq<nat>>, b: nat, j: nat)
    requires b < |chains| && j < |chains[b]|
  {
    chains[b][j] < |next| && next[chains[b][j]] == At(chains[b], j + 1)
  }

  /** A table that is being moved into another. */
  ghost predicate Resizing(ids: seq<Id>, was: seq<nat>, next: seq<nat>, list: seq<nat>, chains: seq<seq<nat>>,
                           newList: seq<nat>, newChains: seq<seq<nat>>, c: nat, k: nat) {
    && TableOk(ids, was, list, chains) && TableOk(ids, next, newList, newChains)
    && Remaining(next, chains, c, k)
    && forall g: nat :: Has(ids, newChains, g) <==> Moved(ids, chains, c, k, g)
  }

  lemma InChainHas(ids: seq<Id>, next: seq<nat>, list: seq<nat>, chains: seq<seq<nat>>, b: nat, g: nat)
    requires TableOk(ids, next, list, chains) && b < |chains| && g in chains[b]
    ensures Has(ids, chains, g) && BucketOf(ids[g], |chains|) == b
  {
    assert BucketOk(ids, next, list, chains, b);
    var i: nat :| i < |chains[b]| && chains[b][i] == g;
    assert NodeOk(ids, next, |list|, b, chains[b], i);
  }

  lemma PrependTable(ids: seq<Id>, next: seq<nat>, list: seq<nat>, chains: seq<seq<nat>>, h: nat)
    requires TableOk(ids, next, list, chains) && 0 < h < |ids|
    requires forall g: nat | Has(ids, chains, g) :: ids[g] != ids[h]
    ensures var b := BucketOf(ids[h], |chains|);
            var chains' := chains[b := [h] + chains[b]];
            && TableOk(ids, next[h := list[b]], list[b := h], chains')
            && Total(chains') == Total(chains) + 1
            && forall g: nat :: Has(ids, chains', g) <==> g == h || Has(ids, chains, g)
  {
    var b := BucketOf(ids[h], |chains|);
    var chain := chains[b];
    var next', list', chains' := next[h := list[b]], list[b := h], chains[b := [h] + chain];
    assert BucketOk(ids, next, list, chains, b);
    forall g: nat | g in chain ensures Has(ids, chains, g) { InChainHas(ids, next, list, chains, b, g); }
    forall c: nat | c < |list| ensures BucketOk(ids, next', list', chains', c) {
      if c == b {
        PrependKeeps(ids, next, |list|, b, chain, h);
      } else {
        OtherBucket(ids, next, list, chains, b, next', list', chains', c);
      }
    }
    TotalUpdate(chains, b, [h] + chain);
  }

  lemma PrependKeeps(ids: seq<Id>, next: seq<nat>, length: nat, b: nat, chain: seq<nat>, h: nat)
    requires length > 0 && ChainOk(ids, next, length, b, chain) && |next| == |ids| && 0 < h < |ids|
    requires BucketOf(ids[h], length) == b && forall g: nat | g in chain && g < |ids| :: ids[g] != ids[h]
    ensures ChainOk(ids, next[h := At(chain, 0)], length, b, [h] + chain)
  {
    var out, next' := [h] + chain, next[h := At(chain, 0)];
    forall k: nat | k < |out| ensures NodeOk(ids, next', length, b, out, k) {
      if k > 0 {
        assert NodeOk(ids, next, length, b, chain, k - 1);
        assert chain[k - 1] in chain;
      }
    }
    forall k: nat, j: nat | k < j < |out| ensures Apart(ids, out, k, j) {
      assert NodeOk(ids, next, length, b, chain, j - 1) && chain[j - 1] in chain;
      if k > 0 { assert Apart(ids, chain, k - 1, j - 1); }
    }
  }

  /** Handles in different places of a table are different. */
  lemma PlacesDiffer(ids: seq<Id>, next: seq<nat>, list: seq<nat>, chains: seq<seq<nat>>, b: nat, j: nat, c: nat,
                     k: nat)
    requires TableOk(ids, next, list, chains) && b < |chains| && c < |chains| && j < |chains[b]| && k < |chains[c]|
    requires b != c || j != k
    ensures chains[b][j] != chains[c][k]
  {
    assert BucketOk(ids, next, list, chains, b) && BucketOk(ids, next, list, chains, c);
    assert NodeOk(ids, next, |list|, b, chains[b], j) && NodeOk(ids, next, |list|, c, chains[c], k);
    assert b == c && j < k ==> Apart(ids, chains[b], j, k);
    assert b == c && k < j ==> Apart(ids, chains[b], k, j);
  }

  lemma MoveOne(ids: seq<Id>, was: seq<nat>, next: seq<nat>, list: seq<nat>, chains: seq<seq<nat>>, newList: seq<nat>,
                newChains: seq<seq<nat>>, c: nat, k: nat)
    requires Resizing(ids, was, next, list, chains, newList, newChains, c, k) && c < |chains| && k < |chains[c]|
    ensures var h := chains[c][k];
            0 < h < |ids| &&
            var b := BucketOf(ids[h], |newChains|);
            && next[h] == At(chains[c], k + 1)
            && Resizing(ids, was, next[h := newList[b]], list, chains, newList[b := h],
                newChains[b := [h] + newChains[b]], c, k + 1)
            && Total(newChains[b := [h] + newChains[b]]) == Total(newChains) + 1
  {
    var h := chains[c][k];
    assert BucketOk(ids, was, list, chains, c);
    assert NodeOk(ids, was, |list|, c, chains[c], k);
    assert Ahead(chains, c, k, c, k) && Link(next, chains, c, k);
    forall g: nat | Has(ids, newChains, g) ensures ids[g] != ids[h] {
      assert Moved(ids, chains, c, k, g);
      NotYetMoved(ids, was, list, chains, c, k, g);
    }
    PrependTable(ids, next, newList, newChains, h);
    var b, past := BucketOf(ids[h], |newChains|), k + 1;
    forall d: nat, j: nat | Ahead(chains, c, past, d, j)
      ensures Link(next[h := newList[b]], chains, d, j)
    {
      assert Ahead(chains, c, k, d, j) && Link(next, chains, d, j);
      PlacesDiffer(ids, was, list, chains, d, j, c, k);
    }
    assert chains[c][..k + 1] == chains[c][..k] + [h];
  }

  lemma NotYetMoved(ids: seq<Id>, next: seq<nat>, list: seq<nat>, chains: seq<seq<nat>>, c: nat, k: nat, g: nat)
    requires TableOk(ids, next, list, chains) && c < |chains| && k < |chains[c]| && Moved(ids, chains, c, k, g)
    ensures chains[c][k] < |ids| && ids[g] != ids[chains[c][k]]
  {
    var h := chains[c][k];
    assert BucketOk(ids, next, list, chains, c) && NodeOk(ids, next, |list|, c, chains[c], k);
    if ids[g] == ids[h] {
      SameIdSameHandle(ids, next, list, chains, g, h);
      var j: nat :| j < k && chains[c][j] == h;
      PlacesDiffer(ids, next, list, chains, c, j, c, k);
    }
  }

  lemma BucketDone(ids: seq<Id>, was: seq<nat>, next: seq<nat>, list: seq<nat>, chains: seq<seq<nat>>,
                   newList: seq<nat>, newChains: seq<seq<nat>>, c: nat)
    requires c < |chains| && Resizing(ids, was, next, list, chains, newList, newChains, c, |chains[c]|)
    ensures Resizing(ids, was, next, list, chains, newList, newChains, c + 1, 0)
    ensures Total(chains[..c + 1]) == Total(chains[..c]) + |chains[c]|
  {
    assert chains[c][..|chains[c]|] == chains[c];
    forall d: nat, j: nat | Ahead(chains, c + 1, 0, d, j) ensures Link(next, chains, d, j) {
      assert Ahead(chains, c, |chains[c]|, d, j);
    }
    forall g: nat ensures Moved(ids, chains, c, |chains[c]|, g) <==> Moved(ids, chains, c + 1, 0, g) {}
    TotalSnoc(chains, c);
  }

  lemma {:induction false} TotalSnoc(chains: seq<seq<nat>>, c: nat)
    requires c < |chains|
    ensures Total(chains[..c + 1]) == Total(chains[..c]) + |chains[c]|
  {
    assert chains[..c + 1][1..] == chains[1..][..c];
    if c > 0 {
      assert chains[..c][1..] == chains[1..][..c - 1];
      TotalSnoc(chains[1..], c - 1);
    } else {
      assert chains[..1][1..] == [];
    }
  }

  lemma {:induction false} TotalOfEmpty(chains: seq<seq<nat>>)
    requires forall b: nat | b < |chains| :: chains[b] == []
    ensures Total(chains) == 0
  {
    if chains != [] { TotalOfEmpty(chains[1..]); }
  }

  lemma NothingMoved(ids: seq<Id>, next: seq<nat>, list: seq<nat>, chains: seq<seq<nat>>, newList: seq<nat>,
                     newChains: seq<seq<nat>>)
    requires TableOk(ids, next, list, chains) && |newList| == |newChains| > 0
    requires forall b: nat | b < |newList| :: newList[b] == NULL && newChains[b] == []
    ensures Resizing(ids, next, next, list, chains, newList, newChains, 0, 0)
            && Total(newChains) == 0 == Total(chains[..0])
  {
    forall b: nat, j: nat | Ahead(chains, 0, 0, b, j) ensures Link(next, chains, b, j) {
      assert BucketOk(ids, next, list, chains, b) && NodeOk(ids, next, |list|, b, chains[b], j);
    }
    TotalOfEmpty(newChains);
  }

  class HandleTable {
    var elems: nat
    var list: seq<nat>
    var next: seq<nat>
    ghost var chains: seq<seq<nat>>

    ghost predicate Hashed(ids: seq<Id>)
      reads this
    {
      TableOk(ids, next, list, chains) && elems == Total(chains) && IsPow2(|list|)
    }

    /** There are no more elements than buckets. */
    ghost predicate Valid(ids: seq<Id>)
      reads this
    {
      Hashed(ids) && elems <= |list|
    }

    ghost predicate In(ids: seq<Id>, h: nat)
      reads this
    {
      Has(ids, chains, h)
    }

    /** An empty table, for the given handles. */
    constructor (ids: seq<Id>)
      ensures Valid(ids) && forall h: nat :: !In(ids, h)
    {
      elems, list, next := 0, seq(4, _ => NULL), seq(|ids|, _ => NULL);
      chains := seq(4, _ => []);
      new;
      TotalOfEmpty(chains);
      Doubles(2);
      assert forall b: nat | b < 4 :: BucketOk(ids, next, list, chains, b);
    }

    /** Makes room for the chain field of a new handle. */
    method Grow(ids: seq<Id>, id: Id)
      requires Valid(ids)
      modifies this`next
      ensures Valid(ids + [id])
      ensures forall h: nat :: In(ids + [id], h) <==> old(In(ids, h))
    {
      ghost var was := next;
      next := next + [NULL];
      GrowKeeps(ids, was, list, chains, id);
    }

    function Deref(slot: Slot): nat
      reads this
    {
      match slot
      case Bucket(b) => if b < |list| then list[b] else NULL
      case NextOf(h) => if h < |next| then next[h] else NULL
    }

    method Store(slot: Slot, h: nat)
      modifies this`list, this`next
      ensures next == StoreNext(old(next), slot, h) && list == StoreList(old(list), slot, h)
    {
      match slot {
        case Bucket(b) => if b < |list| { list := list[b := h]; }
        case NextOf(g) => if g < |next| { next := next[g := h]; }
      }
    }

    /** Finds the slot that points to the handle with the id, or the slot at the end of its
        bucket. */
    method FindPointer(ids: seq<Id>, id: Id) returns (slot: Slot, ghost i: nat)
      requires Valid(ids)
      ensures Place(ids, chains, id, i)
      ensures var b := BucketOf(id, |chains|); slot == SlotAt(b, chains[b], i) && Deref(slot) == At(chains[b], i)
    {
      var b := BucketOf(id, |list|);
      slot, i := Bucket(b), 0;
      assert BucketOk(ids, next, list, chains, b);
      ghost var chain := chains[b];
      assert chain != [] ==> NodeOk(ids, next, |list|, b, chain, 0);
      while Deref(slot) != NULL && ids[Deref(slot)] != id
        invariant i <= |chain| && slot == SlotAt(b, chain, i) && Deref(slot) == At(chain, i)
        invariant forall k: nat | k < i :: chain[k] < |ids| && ids[chain[k]] != id
        invariant i < |chain| ==> 0 < chain[i] < |ids|
        decreases |chain| - i
      {
        assert NodeOk(ids, next, |list|, b, chain, i);
        slot, i := NextOf(Deref(slot)), i + 1;
        assert i < |chain| ==> NodeOk(ids, next, |list|, b, chain, i);
      }
    }

    method Lookup(ids: seq<Id>, id: Id) returns (h: nat)
      requires Valid(ids)
      ensures if h == NULL then forall g: nat :: In(ids, g) ==> ids[g] != id else In(ids, h) && ids[h] == id
    {
      var slot;
      ghost var i;
      slot, i := FindPointer(ids, id);
      h := Deref(slot);
      PlaceIsId(ids, next, list, chains, id, i);
    }

    /** Puts a new handle in; returns the one whose place it took, if any. */
    method Insert(ids: seq<Id>, h: nat) returns (replaced: nat)
      requires Valid(ids) && 0 < h < |ids| && !In(ids, h)
      modifies this
      ensures Valid(ids)
      ensures forall g: nat :: In(ids, g) <==> g == h || (old(In(ids, g)) && ids[g] != ids[h])
      ensures if replaced == NULL then forall g: nat :: old(In(ids, g)) ==> ids[g] != ids[h]
              else old(In(ids, replaced)) && ids[replaced] == ids[h]
    {
      var slot;
      ghost var i;
      slot, i := FindPointer(ids, ids[h]);
      replaced := Deref(slot);
      PlaceIsId(ids, next, list, chains, ids[h], i);
      PutInTable(ids, next, list, chains, i, h);
      ghost var b := BucketOf(ids[h], |chains|);
      next := next[h := if replaced == NULL then NULL else next[replaced]];
      Store(slot, h);
      chains := chains[b := PutIn(chains[b], i, h)];
      if replaced == NULL {
        elems := elems + 1;
        if elems > |list| {
          Resize(ids);
        }
      }
    }

    method Remove(ids: seq<Id>, id: Id) returns (removed: nat)
      requires Valid(ids)
      modifies this
      ensures Valid(ids)
      ensures forall g: nat :: In(ids, g) <==> old(In(ids, g)) && ids[g] != id
      ensures if removed == NULL then forall g: nat :: old(In(ids, g)) ==> ids[g] != id
              else old(In(ids, removed)) && ids[removed] == id
    {
      var slot;
      ghost var i;
      slot, i := FindPointer(ids, id);
      removed := Deref(slot);
      PlaceIsId(ids, next, list, chains, id, i);
      if removed != NULL {
        CutOutTable(ids, next, list, chains, id, i);
        ghost var b := BucketOf(id, |chains|);
        Store(slot, next[removed]);
        chains := chains[b := CutOut(chains[b], i)];
        elems := elems - 1;
      }
    }

    /** Moves the handles of one bucket to the front of their new buckets. */
    method MoveBucket(ids: seq<Id>, ghost was: seq<nat>, c: nat, newList0: seq<nat>, ghost newChains0: seq<seq<nat>>,
                      count0: nat)
      returns (newList: seq<nat>, ghost newChains: seq<seq<nat>>, count: nat)
      requires c < |list| && Resizing(ids, was, next, list, chains, newList0, newChains0, c, 0)
      requires count0 == Total(newChains0) == Total(chains[..c])
      modifies this`next
      ensures Resizing(ids, was, next, list, chains, newList, newChains, c + 1, 0)
      ensures count == Total(newChains) == Total(chains[..c + 1]) && |newList| == |newList0|
    {
      newList, newChains, count := newList0, newChains0, count0;
      var h := list[c];
      ghost var k := 0;
      assert BucketOk(ids, was, list, chains, c);
      while h != NULL
        invariant k <= |chains[c]| && h == At(chains[c], k)
        invariant Resizing(ids, was, next, list, chains, newList, newChains, c, k)
        invariant count == Total(newChains) == Total(chains[..c]) + k && |newList| == |newList0|
        decreases |chains[c]| - k
      {
        MoveOne(ids, was, next, list, chains, newList, newChains, c, k);
        var after := next[h];
        var b := BucketOf(ids[h], |newList|);
        next := next[h := newList[b]];
        newList, newChains := newList[b := h], newChains[b := [h] + newChains[b]];
        h, k, count := after, k + 1, count + 1;
      }
      assert k < |chains[c]| ==> NodeOk(ids, was, |list|, c, chains[c], k);
      assert k == |chains[c]|;
      BucketDone(ids, was, next, list, chains, newList, newChains, c);
    }

    /** The least power of two from 4 on with room for the elements. */
    static method RoomFor(elems: nat) returns (length: nat)
      ensures length >= 4 && length >= elems && IsPow2(length) && (length > 4 ==> length < 2 * elems)
    {
      length := 4;
      Doubles(2);
      while length < elems
        invariant length >= 4 && IsPow2(length) && (length > 4 ==> length < 2 * elems)
        decreases elems - length
      {
        MorePow2(length);
        length := length * 2;
      }
    }

    method Resize(ids: seq<Id>)
      requires Hashed(ids)
      modifies this
      ensures Valid(ids) && forall g: nat :: In(ids, g) <==> old(In(ids, g))
    {
      var newLength := RoomFor(elems);
      var newList: seq<nat> := seq(newLength, _ => NULL);
      ghost var newChains: seq<seq<nat>>, was := seq(newLength, _ => []), next;
      var count := 0;
      NothingMoved(ids, next, list, chains, newList, newChains);
      for c := 0 to |list|
        invariant list == old(list) && chains == old(chains) && elems == old(elems)
        invariant Resizing(ids, was, next, list, chains, newList, newChains, c, 0)
        invariant count == Total(newChains) == Total(chains[..c]) && |newList| == newLength
      {
        newList, newChains, count := MoveBucket(ids, was, c, newList, newChains, count);
      }
      assert chains[..|list|] == chains;
      assert elems == count;
      list, chains := newList, newChains;
    }
  }

  lemma Doubles(k: nat)
    requires k == 2
    ensures Pow2(k) == 4 && IsPow2(4)
  {
    assert Pow2(0) == 1 && Pow2(1) == 2 * Pow2(0) && Pow2(2) == 2 * Pow2(1);
  }

  lemma MorePow2(n: nat)
    requires IsPow2(n)
    ensures IsPow2(2 * n)
  {
    var k: nat :| n == Pow2(k);
    assert Pow2(k + 1) == 2 * n;
  }

  lemma GrowKeeps(ids: seq<Id>, next: seq<nat>, list: seq<nat>, chains: seq<seq<nat>>, id: Id)
    requires TableOk(ids, next, list, chains)
    ensures TableOk(ids + [id], next + [NULL], list, chains)
    ensures forall h: nat :: Has(ids + [id], chains, h) <==> Has(ids, chains, h)
  {
    forall b: nat | b < |list| ensures BucketOk(ids + [id], next + [NULL], list, chains, b) {
      assert BucketOk(ids, next, list, chains, b);
      var chain := chains[b];
      forall i: nat | i < |chain| ensures NodeOk(ids + [id], next + [NULL], |list|, b, chain, i) {
        assert NodeOk(ids, next, |list|, b, chain, i);
      }
      forall i: nat, j: nat | i < j < |chain| ensures Apart(ids + [id], chain, i, j) { assert Apart(ids, chain, i, j); }
    }
    forall h: nat ensures Has(ids + [id], chains, h) <==> Has(ids, chains, h) {
      if h == |ids| && Has(ids + [id], chains, h) {
        var b := BucketOf(id, |chains|);
        InChainHas(ids, next, list, chains, b, h);
      }
    }
  }

  /** What stands in a place. */
  lemma PlaceIsId(ids: seq<Id>, next: seq<nat>, list: seq<nat>, chains: seq<seq<nat>>, id: Id, i: nat)
    requires TableOk(ids, next, list, chains) && Place(ids, chains, id, i)
    ensures var b := BucketOf(id, |chains|);
            var h := At(chains[b], i);
            && (if i < |chains[b]| then Has(ids, chains, h) && ids[h] == id && next[h] == At(chains[b], i + 1)
                else forall g: nat :: Has(ids, chains, g) ==> ids[g] != id)
  {
    var b := BucketOf(id, |chains|);
    assert BucketOk(ids, next, list, chains, b);
    assert i < |chains[b]| ==> NodeOk(ids, next, |list|, b, chains[b], i);
  }
}
