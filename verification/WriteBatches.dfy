/** Write batches: a sequence number, a count, and one record for each update. */
module WriteBatches {
  import opened Coding

  datatype Update = Put(key: Slice, value: Slice) | Delete(key: Slice)

  const HEADER: nat := 12

  function EncodeUpdate(u: Update): (b: Bytes)
    ensures b != []
  {
    match u
    case Put(k, v) => [1] + PutLengthPrefixed(k) + PutLengthPrefixed(v)
    case Delete(k) => [0] + PutLengthPrefixed(k)
  }

  function Flat(encode: Update -> Bytes, us: seq<Update>): Bytes {
    if us == [] then [] else encode(us[0]) + Flat(encode, us[1..])
  }

  function EncodeAll(us: seq<Update>): Bytes {
    Flat(EncodeUpdate, us)
  }

  lemma {:induction false} FlatAppend(encode: Update -> Bytes, us: seq<Update>, vs: seq<Update>)
    ensures Flat(encode, us + vs) == Flat(encode, us) + Flat(encode, vs)
  {
    if us == [] {
      assert us + vs == vs;
    } else {
      FlatAppend(encode, us[1..], vs);
      assert (us + vs)[1..] == us[1..] + vs;
    }
  }

  lemma FlatOne(encode: Update -> Bytes, u: Update)
    ensures Flat(encode, [u]) == encode(u)
  {
    assert Flat(encode, [u][1..]) == [];
  }

  /** The updates in front of the first error, if there is one. */
  datatype Iteration = Iteration(updates: seq<Update>, ok: bool)

  datatype Parse = Got(update: Update, rest: Bytes) | Malformed

  function ParseUpdate(b: Bytes): (s: Parse)
    requires b != []
    ensures s.Got? ==> |s.rest| < |b|
  {
    if b[0] == 1 then
      match GetLengthPrefixed(b[1..])
      case Bad => Malformed
      case Good(k, rest) =>
        match GetLengthPrefixed(rest)
        case Bad => Malformed
        case Good(v, end) => Got(Put(k, v), end)
    else if b[0] == 0 then
      match GetLengthPrefixed(b[1..])
      case Bad => Malformed
      case Good(k, end) => Got(Delete(k), end)
    else Malformed
  }

  function ParseAll(b: Bytes): Iteration
    decreases |b|
  {
    if b == [] then Iteration([], true)
    else
      match ParseUpdate(b)
      case Malformed => Iteration([], false)
      case Got(u, rest) => var r := ParseAll(rest); Iteration([u] + r.updates, r.ok)
  }

  lemma Behind(tag: byte, k: Bytes, v: Bytes, rest: Bytes)
    ensures ([tag] + k + v + rest)[0] == tag && ([tag] + k + v + rest)[1..] == k + (v + rest)
  {
    assert [tag] + k + v + rest == [tag] + (k + (v + rest));
  }

  lemma ParsePut(k: Bytes, v: Bytes, key: Slice, value: Slice, rest: Bytes)
    requires GetLengthPrefixed(k + (v + rest)) == Good(key, v + rest)
             && GetLengthPrefixed(v + rest) == Good(value, rest)
    ensures ParseUpdate([1] + k + v + rest) == Got(Put(key, value), rest)
  {
    Behind(1, k, v, rest);
    ParsePutAt([1] + k + v + rest, key, v + rest, value, rest);
  }

  lemma ParsePutAt(b: Bytes, key: Slice, middle: Bytes, value: Slice, rest: Bytes)
    requires b != [] && b[0] == 1 && GetLengthPrefixed(b[1..]) == Good(key, middle)
             && GetLengthPrefixed(middle) == Good(value, rest)
    ensures ParseUpdate(b) == Got(Put(key, value), rest)
  {
  }

  lemma ParseDelete(k: Bytes, key: Slice, rest: Bytes)
    requires GetLengthPrefixed(k + rest) == Good(key, rest)
    ensures ParseUpdate([0] + k + rest) == Got(Delete(key), rest)
  {
    assert ([0] + k + rest)[1..] == k + rest;
  }

  lemma ParseEncoded(u: Update, rest: Bytes)
    ensures ParseUpdate(EncodeUpdate(u) + rest) == Got(u, rest)
  {
    match u
    case Put(k, v) =>
      LengthPrefixedRoundTrip(k, PutLengthPrefixed(v) + rest);
      LengthPrefixedRoundTrip(v, rest);
      ParsePut(PutLengthPrefixed(k), PutLengthPrefixed(v), k, v, rest);
    case Delete(k) =>
      LengthPrefixedRoundTrip(k, rest);
      ParseDelete(PutLengthPrefixed(k), k, rest);
  }

  ghost predicate Parses(encode: Update -> Bytes, u: Update, rest: Bytes) {
    encode(u) + rest != [] && ParseUpdate(encode(u) + rest) == Got(u, rest)
  }

  /** Any encoding that the parser undoes one at a time, it undoes altogether. */
  lemma {:induction false} ParseFlat(encode: Update -> Bytes, us: seq<Update>, more: Bytes)
    requires forall u, rest :: Parses(encode, u, rest)
    ensures ParseAll(Flat(encode, us) + more) == Iteration(us + ParseAll(more).updates, ParseAll(more).ok)
  {
    var tail := ParseAll(more).updates;
    if us == [] {
      assert Flat(encode, us) + more == more && us + tail == tail;
    } else {
      var rest := Flat(encode, us[1..]) + more;
      assert Parses(encode, us[0], rest);
      ParseFlat(encode, us[1..], more);
      ParseOne(encode(us[0]) + rest, us[0], rest);
      Associate(encode(us[0]), Flat(encode, us[1..]), more);
      Associate([us[0]], us[1..], tail);
      assert [us[0]] + us[1..] == us;
    }
  }

  lemma Associate<T>(a: seq<T>, b: seq<T>, c: seq<T>)
    ensures (a + b) + c == a + (b + c)
  {
  }

  lemma ParseOne(b: Bytes, u: Update, rest: Bytes)
    requires b != [] && ParseUpdate(b) == Got(u, rest)
    ensures ParseAll(b) == Iteration([u] + ParseAll(rest).updates, ParseAll(rest).ok)
  {
  }

  /** Whatever follows the encoded updates, they are parsed first. */
  lemma EncodedComeFirst(us: seq<Update>, more: Bytes)
    ensures ParseAll(EncodeAll(us) + more) == Iteration(us + ParseAll(more).updates, ParseAll(more).ok)
  {
    forall u, rest ensures Parses(EncodeUpdate, u, rest) {
      assert (EncodeUpdate(u) + rest)[0] == EncodeUpdate(u)[0];
      ParseEncoded(u, rest);
    }
    ParseFlat(EncodeUpdate, us, more);
  }

  lemma ParseAllEncoded(us: seq<Update>)
    ensures ParseAll(EncodeAll(us)) == Iteration(us, true)
  {
    EncodedComeFirst(us, []);
    assert EncodeAll(us) + [] == EncodeAll(us) && us + [] == us;
  }

  // ----- The representation --------------------------------------------------------------------

  /** The count is a signed number of 32 bits. */
  function Signed(n: uint32): int {
    if n < 0x8000_0000 then n else n - 0x1_0000_0000
  }

  function SequenceOf(rep: Bytes): uint64
    requires |rep| >= HEADER
  {
    DecodeFixed64(rep[..8])
  }

  function CountOf(rep: Bytes): int
    requires |rep| >= HEADER
  {
    Signed(DecodeFixed32(rep[8..12]))
  }

  /** What iterating over a batch gives. The count is compared at the end, after the updates
      went to the handler. */
  function IterationOf(rep: Bytes): Iteration {
    if |rep| < HEADER then Iteration([], false)
    else
      var it := ParseAll(rep[HEADER..]);
      it.(ok := it.ok && |it.updates| == CountOf(rep))
  }

  /** The bytes of a batch. */
  function Rep(first: uint64, us: seq<Update>): Bytes
    requires |us| < 0x8000_0000
  {
    Fixed64(first) + Fixed32(|us|) + EncodeAll(us)
  }

  lemma RepRoundTrip(first: uint64, us: seq<Update>)
    requires |us| < 0x8000_0000
    ensures var rep := Rep(first, us);
            && |rep| >= HEADER && SequenceOf(rep) == first && CountOf(rep) == |us|
            && IterationOf(rep) == Iteration(us, true)
  {
    var rep := Rep(first, us);
    assert rep[..8] == Fixed64(first) && rep[8..12] == Fixed32(|us|) && rep[12..] == EncodeAll(us);
    Fixed64RoundTrip(first);
    Fixed32RoundTrip(|us|);
    ParseAllEncoded(us);
  }

  /** A batch that tells another count than it has is an error, and so is one with a byte behind its
      updates that begins none; all updates have gone to the handler by then. */
  lemma DamageIsNoticed(first: uint64, count: uint32, us: seq<Update>, more: Bytes)
    requires if more == [] then Signed(count) != |us| else more[0] > 1
    ensures IterationOf(Fixed64(first) + Fixed32(count) + (EncodeAll(us) + more)) == Iteration(us, false)
  {
    var rep := Fixed64(first) + Fixed32(count) + (EncodeAll(us) + more);
    assert rep[8..12] == Fixed32(count) && rep[12..] == EncodeAll(us) + more;
    Fixed32RoundTrip(count);
    EncodedComeFirst(us, more);
    assert us + [] == us;
  }

  /** Calls the handler for each update, in order, and stops at the first error. */
  method Iterate(rep: Bytes) returns (handled: seq<Update>, ok: bool)
    ensures Iteration(handled, ok) == IterationOf(rep)
  {
    handled, ok := [], false;
    if |rep| < HEADER { return; }
    var input := rep[HEADER..];
    ghost var all := ParseAll(input);
    while input != []
      invariant all.updates == handled + ParseAll(input).updates && all.ok == ParseAll(input).ok
      decreases |input|
    {
      var s := ParseUpdate(input);
      if s.Malformed? {
        assert handled + [] == handled;
        return;
      }
      handled := handled + [s.update];
      input := s.rest;
    }
    assert handled + [] == handled;
    ok := |handled| == CountOf(rep);
  }

  class WriteBatch {
    var rep: Bytes
    ghost var updates: seq<Update>

    ghost predicate Valid()
      reads this
    {
      && |updates| < 0x8000_0000 && |rep| >= HEADER
      && CountOf(rep) == |updates| && rep[HEADER..] == EncodeAll(updates)
    }

    constructor ()
      ensures Valid() && updates == []
    {
      rep, updates := Fixed64(0) + Fixed32(0), [];
      new;
      assert rep[8..12] == Fixed32(0);
      Fixed32RoundTrip(0);
    }

    method Clear()
      modifies this
      ensures Valid() && updates == []
    {
      rep, updates := Fixed64(0) + Fixed32(0), [];
      assert rep[8..12] == Fixed32(0);
      Fixed32RoundTrip(0);
    }

    function Count(): int
      requires |rep| >= HEADER
      reads this
    {
      CountOf(rep)
    }

    method SetCount(n: nat)
      requires |rep| >= HEADER && n < 0x8000_0000
      modifies this`rep
      ensures |rep| == |old(rep)| && rep[..8] == old(rep)[..8] && rep[HEADER..] == old(rep)[HEADER..]
              && CountOf(rep) == n
    {
      rep := rep[..8] + Fixed32(n) + rep[12..];
      assert rep[8..12] == Fixed32(n);
      Fixed32RoundTrip(n);
    }

    method SetSequence(s: uint64)
      requires Valid()
      modifies this`rep
      ensures Valid() && rep == Rep(s, updates) && |rep| == |old(rep)|
    {
      assert DecodeFixed32(rep[8..12]) == |updates|;
      FixedOfDecode(rep[8..12]);
      rep := Fixed64(s) + rep[8..];
      assert rep == Rep(s, updates);
      assert rep[8..12] == Fixed32(|updates|) && rep[HEADER..] == EncodeAll(updates);
      Fixed32RoundTrip(|updates|);
    }

    method PutUpdate(key: Slice, value: Slice)
      requires Valid() && |updates| + 1 < 0x8000_0000
      modifies this
      ensures Valid() && updates == old(updates) + [Put(key, value)] && rep[..8] == old(rep)[..8]
    {
      SetCount(Count() + 1);
      ghost var counted := rep;
      rep := rep + [1];
      rep := rep + PutLengthPrefixed(key);
      rep := rep + PutLengthPrefixed(value);
      assert rep == counted + ([1] + PutLengthPrefixed(key) + PutLengthPrefixed(value));
      OneMore(counted, updates, Put(key, value));
      updates := updates + [Put(key, value)];
    }

    method DeleteUpdate(key: Slice)
      requires Valid() && |updates| + 1 < 0x8000_0000
      modifies this
      ensures Valid() && updates == old(updates) + [Delete(key)] && rep[..8] == old(rep)[..8]
    {
      SetCount(Count() + 1);
      ghost var counted := rep;
      rep := rep + [0];
      rep := rep + PutLengthPrefixed(key);
      assert rep == counted + ([0] + PutLengthPrefixed(key));
      OneMore(counted, updates, Delete(key));
      updates := updates + [Delete(key)];
    }

    method Append(source: WriteBatch)
      requires Valid() && source.Valid() && |updates| + |source.updates| < 0x8000_0000
      modifies this
      ensures Valid() && updates == old(updates) + old(source.updates) && rep[..8] == old(rep)[..8]
    {
      ghost var us, vs := updates, source.updates;
      var more := source.rep[HEADER..];
      SetCount(Count() + source.Count());
      LongerRep(rep, more);
      FlatAppend(EncodeUpdate, us, vs);
      rep := rep + more;
      updates := us + vs;
    }
  }

  lemma LongerRep(rep: Bytes, more: Bytes)
    requires |rep| >= HEADER
    ensures var r := rep + more;
            r[..8] == rep[..8] && CountOf(r) == CountOf(rep) && r[HEADER..] == rep[HEADER..] + more
  {
    assert (rep + more)[8..12] == rep[8..12];
  }

  lemma OneMore(rep: Bytes, us: seq<Update>, u: Update)
    requires |rep| >= HEADER && rep[HEADER..] == EncodeAll(us)
    ensures var r := rep + EncodeUpdate(u);
            r[..8] == rep[..8] && CountOf(r) == CountOf(rep) && r[HEADER..] == EncodeAll(us + [u])
  {
    LongerRep(rep, EncodeUpdate(u));
    FlatAppend(EncodeUpdate, us, [u]);
    FlatOne(EncodeUpdate, u);
  }
}
