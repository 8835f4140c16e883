/** Internal keys as bytes, and the short keys that separate the blocks of a table. */
module Separators {
  import opened Coding
  import ByteKeys

  /** A user key and the packed sequence number and type. */
  datatype InternalKey = InternalKey(user: Bytes, trailer: nat)

  /** The largest sequence number, as a value: the first of the internal keys of a user key. */
  const SEEK_TRAILER: nat := 0xff_ffff_ffff_ffff * 256 + 1

  predicate Less(a: InternalKey, b: InternalKey) {
    ByteKeys.Less(a.user, b.user) || (a.user == b.user && a.trailer > b.trailer)
  }

  lemma LessIsTransitive(a: InternalKey, b: InternalKey, c: InternalKey)
    requires Less(a, b) && Less(b, c)
    ensures Less(a, c)
  {
    if ByteKeys.Less(a.user, b.user) && ByteKeys.Less(b.user, c.user) {
      ByteKeys.LessIsTransitive(a.user, b.user, c.user);
    }
  }

  lemma LessIsTotal(a: InternalKey, b: InternalKey)
    ensures !(Less(a, b) && Less(b, a)) && (Less(a, b) || a == b || Less(b, a))
  {
    ByteKeys.LessIsTotal(a.user, b.user);
    ByteKeys.LessIsTotal(a.user, a.user);
  }

  predicate RoomBetween(a: int, b: int) {
    a + 1 < b
  }

  /** The first bytes that differ leave room for one between them. */
  ghost predicate Parts(start: Bytes, limit: Bytes, n: nat) {
    n < |start| && n < |limit| && start[..n] == limit[..n] && RoomBetween(start[n], limit[n])
  }

  /** The first byte that can be raised. */
  ghost predicate Rises(key: Bytes, n: nat) {
    n < |key| && key[n] != 0xff && forall i | 0 <= i < n :: key[i] == 0xff
  }

  lemma PartsOnce(start: Bytes, limit: Bytes, m: nat, n: nat)
    requires Parts(start, limit, n) && m <= |start| && m <= |limit| && start[..m] == limit[..m]
    ensures m <= n && (m < |start| && m < |limit| && start[m] != limit[m] ==> m == n)
  {
    SamePrefix(start, limit, m);
    SamePrefix(start, limit, n);
  }

  lemma SamePrefix(a: Bytes, b: Bytes, n: nat)
    requires n <= |a| && n <= |b| && a[..n] == b[..n]
    ensures forall i | 0 <= i < n :: a[i] == b[i]
  {
    forall i | 0 <= i < n ensures a[i] == b[i] { assert a[i] == a[..n][i] == b[..n][i]; }
  }

  /** A byte string from `start` on and below `limit`; it ends where the two part, when they do. */
  method ShortestSeparator(start: Bytes, limit: Bytes) returns (out: Bytes)
    ensures out == start || (ByteKeys.Less(start, out) && ByteKeys.Less(out, limit) && |out| <= |start|)
    ensures out == start <==> !exists n: nat :: Parts(start, limit, n)
    ensures forall n: nat | Parts(start, limit, n) :: |out| == n + 1
  {
    out := start;
    var minLength := if |start| < |limit| then |start| else |limit|;
    var diffIndex := 0;
    while diffIndex < minLength && start[diffIndex] == limit[diffIndex]
      invariant diffIndex <= minLength && start[..diffIndex] == limit[..diffIndex]
    {
      diffIndex := diffIndex + 1;
    }
    forall n: nat | Parts(start, limit, n) ensures n == diffIndex { PartsOnce(start, limit, diffIndex, n); }
    if diffIndex < minLength {
      var diffByte: int := start[diffIndex];
      if diffByte < 0xff && diffByte + 1 < limit[diffIndex] {
        out := out[diffIndex := diffByte + 1];
        out := out[..diffIndex + 1];
        assert Parts(start, limit, diffIndex);
        DiffersAt(start, out, diffIndex);
        DiffersAt(out, limit, diffIndex);
      }
    }
  }

  lemma DiffersAt(a: Bytes, b: Bytes, n: nat)
    requires n < |a| && n < |b| && a[..n] == b[..n] && a[n] < b[n]
    ensures ByteKeys.Less(a, b)
  {
    ByteKeys.LessAfterPrefix(a, b, n);
    assert a[n..][0] == a[n] && b[n..][0] == b[n];
  }

  /** A byte string that is no less; it ends at the byte that is raised, if there is one. */
  method ShortSuccessor(key: Bytes) returns (out: Bytes)
    ensures out == key || (ByteKeys.Less(key, out) && |out| <= |key|)
    ensures out == key <==> forall i | 0 <= i < |key| :: key[i] == 0xff
    ensures forall n: nat | Rises(key, n) :: |out| == n + 1
    ensures out != key ==> |out| > 0 && Rises(key, |out| - 1)
  {
    out := key;
    for i := 0 to |key|
      invariant forall j | 0 <= j < i :: key[j] == 0xff
    {
      var b: int := key[i];
      if b != 0xff {
        out := out[i := b + 1];
        out := out[..i + 1];
        DiffersAt(key, out, i);
        return;
      }
    }
  }

  /** Between two internal keys: the first key itself, or the first internal key of a user key
      that lies strictly between theirs. */
  method FindShortestSeparator(start: InternalKey, limit: InternalKey) returns (out: InternalKey)
    ensures out == start || (ByteKeys.Less(start.user, out.user) && ByteKeys.Less(out.user, limit.user)
            && out.trailer == SEEK_TRAILER)
    ensures out == start <==> !exists n: nat :: Parts(start.user, limit.user, n) && n + 1 < |start.user|
    ensures |out.user| <= |start.user|
  {
    var tmp := ShortestSeparator(start.user, limit.user);
    var c := ByteKeys.Compare(start.user, tmp);
    out := if |tmp| < |start.user| && c < 0 then InternalKey(tmp, SEEK_TRAILER) else start;
    ByteKeys.LessIsTotal(start.user, start.user);
  }

  method FindShortSuccessor(key: InternalKey) returns (out: InternalKey)
    ensures out == key || (ByteKeys.Less(key.user, out.user) && out.trailer == SEEK_TRAILER)
    ensures out == key <==> !exists n: nat :: Rises(key.user, n) && n + 1 < |key.user|
    ensures |out.user| <= |key.user|
  {
    var tmp := ShortSuccessor(key.user);
    var c := ByteKeys.Compare(key.user, tmp);
    out := if |tmp| < |key.user| && c < 0 then InternalKey(tmp, SEEK_TRAILER) else key;
  }
}
