/** The bytewise order of user keys, and why a rank can stand for a key. */
module ByteKeys {
  import opened Coding

  /** Less by the first byte that differs, or by being shorter. */
  predicate Less(a: Bytes, b: Bytes) {
    if a == [] || b == [] then a == [] && b != []
    else a[0] < b[0] || (a[0] == b[0] && Less(a[1..], b[1..]))
  }

  /** The comparator looks for the common prefix first, then at the lengths. */
  method Compare(a: Bytes, b: Bytes) returns (r: int)
    ensures r < 0 <==> Less(a, b)
    ensures r > 0 <==> Less(b, a)
    ensures r == 0 <==> a == b
  {
    var minLen := if |a| < |b| then |a| else |b|;
    var i := 0;
    while i < minLen && a[i] == b[i]
      invariant 0 <= i <= minLen && a[..i] == b[..i]
    {
      i := i + 1;
    }
    LessAfterPrefix(a, b, i);
    LessAfterPrefix(b, a, i);
    if i < minLen {
      r := if a[i] < b[i] then -1 else 1;
      assert a[i..][0] == a[i] && b[i..][0] == b[i];
    } else {
      assert |a| == |b| ==> a == a[..i] && b == b[..i];
      r := if |a| < |b| then -1 else if |a| > |b| then 1 else 0;
    }
  }

  lemma {:induction false} LessAfterPrefix(a: Bytes, b: Bytes, n: nat)
    requires n <= |a| && n <= |b| && a[..n] == b[..n]
    ensures Less(a, b) <==> Less(a[n..], b[n..])
  {
    if n > 0 {
      assert a[0] == a[..n][0] == b[..n][0] == b[0];
      assert a[1..][..n - 1] == a[..n][1..] && b[1..][..n - 1] == b[..n][1..];
      LessAfterPrefix(a[1..], b[1..], n - 1);
      assert a[1..][n - 1..] == a[n..] && b[1..][n - 1..] == b[n..];
    } else {
      assert a[0..] == a && b[0..] == b;
    }
  }

  lemma {:induction false} LessIsTransitive(a: Bytes, b: Bytes, c: Bytes)
    requires Less(a, b) && Less(b, c)
    ensures Less(a, c)
  {
    if a != [] && a[0] == b[0] == c[0] {
      LessIsTransitive(a[1..], b[1..], c[1..]);
    }
  }

  lemma {:induction false} LessIsTotal(a: Bytes, b: Bytes)
    ensures !(Less(a, b) && Less(b, a))
    ensures Less(a, b) || a == b || Less(b, a)
    ensures !Less(a, a)
    decreases |a|
  {
    if a != [] {
      LessIsTotal(a[1..], a[1..]);
      if b != [] {
        LessIsTotal(a[1..], b[1..]);
        assert a == [a[0]] + a[1..] && b == [b[0]] + b[1..];
      }
    }
  }

  ghost function Below(keys: set<Bytes>, k: Bytes): set<Bytes> {
    set x | x in keys && Less(x, k)
  }

  ghost function Rank(keys: set<Bytes>, k: Bytes): nat {
    |Below(keys, k)|
  }

  lemma {:induction false} ProperSubsetIsSmaller(a: set<Bytes>, b: set<Bytes>, x: Bytes)
    requires a <= b && x in b && x !in a
    ensures |a| < |b|
  {
    var rest := b - {x};
    assert a <= rest;
    SubsetIsNoLarger(a, rest);
  }

  lemma {:induction false} SubsetIsNoLarger(a: set<Bytes>, b: set<Bytes>)
    requires a <= b
    ensures |a| <= |b|
    decreases a
  {
    if x :| x in a {
      SubsetIsNoLarger(a - {x}, b - {x});
    }
  }

  lemma RankGrows(keys: set<Bytes>, a: Bytes, b: Bytes)
    requires a in keys && Less(a, b)
    ensures Rank(keys, a) < Rank(keys, b)
  {
    forall x | x in Below(keys, a) ensures x in Below(keys, b) {
      LessIsTransitive(x, a, b);
    }
    LessIsTotal(a, a);
    ProperSubsetIsSmaller(Below(keys, a), Below(keys, b), a);
  }

  /** Among the keys of a finite set, ranks are ordered as the keys are. */
  lemma RankPreservesOrder(keys: set<Bytes>, a: Bytes, b: Bytes)
    requires a in keys && b in keys
    ensures Rank(keys, a) < Rank(keys, b) <==> Less(a, b)
    ensures Rank(keys, a) == Rank(keys, b) <==> a == b
  {
    LessIsTotal(a, b);
    if Less(a, b) { RankGrows(keys, a, b); }
    if Less(b, a) { RankGrows(keys, b, a); }
  }
}
