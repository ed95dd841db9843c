/** Shortened index keys (util/comparator.cc, and InternalKeyComparator in db/dbformat.cc) over
    byte-string user keys. */
module Separators {
  import opened Keys
  import opened ByteOrder

  /** An internal key: user key and the packed sequence number and type. */
  datatype TableKey = TableKey(user: Bytes, tag: nat)

  /** PackSequenceAndType(kMaxSequenceNumber, kValueTypeForSeek). */
  const MAX_TAG: nat := 256 * MAX_SEQUENCE + 1

  /** InternalKeyComparator::Compare(a, b) < 0. */
  predicate KeyLess(a: TableKey, b: TableKey) {
    BytesLess(a.user, b.user) || (a.user == b.user && a.tag > b.tag)
  }

  lemma BytesOrder(a: Bytes, b: Bytes, c: Bytes)
    ensures !BytesLess(a, a)
    ensures BytesLess(a, b) || a == b || BytesLess(b, a)
    ensures BytesLess(a, b) ==> !BytesLess(b, a)
    ensures BytesLess(a, b) && BytesLess(b, c) ==> BytesLess(a, c)
  {
    RankEmbedsByteOrder(a, a);
    RankEmbedsByteOrder(a, b);
    RankEmbedsByteOrder(b, a);
    RankEmbedsByteOrder(b, c);
    RankEmbedsByteOrder(a, c);
  }

  lemma KeyOrder(a: TableKey, b: TableKey, c: TableKey)
    ensures !KeyLess(a, a)
    ensures KeyLess(a, b) || a == b || KeyLess(b, a)
    ensures KeyLess(a, b) ==> !KeyLess(b, a)
    ensures KeyLess(a, b) && KeyLess(b, c) ==> KeyLess(a, c)
    ensures !KeyLess(b, a) && !KeyLess(c, b) ==> !KeyLess(c, a)
  {
    BytesOrder(a.user, b.user, c.user);
    BytesOrder(b.user, c.user, a.user);
    BytesOrder(c.user, a.user, b.user);
  }

  /** The first difference decides. */
  lemma {:induction false} FirstDifference(a: Bytes, b: Bytes, d: nat)
    requires d < |a| && d < |b| && a[..d] == b[..d] && a[d] < b[d]
    ensures BytesLess(a, b)
  {
    if d > 0 {
      assert a[0] == a[..d][0] == b[..d][0] == b[0];
      assert a[1..][..d - 1] == a[..d][1..] && b[1..][..d - 1] == b[..d][1..];
      FirstDifference(a[1..], b[1..], d - 1);
    }
  }

  /** The first d bytes are shared and the next ones differ. */
  predicate DifferFirstAt(a: Bytes, b: Bytes, d: nat) {
    d < |a| && d < |b| && a[..d] == b[..d] && a[d] != b[d]
  }

  lemma PrefixesAgree(a: Bytes, b: Bytes, n: nat, i: nat)
    requires i < n <= |a| && n <= |b| && a[..n] == b[..n]
    ensures a[i] == b[i]
  {
    assert a[..n][i] == a[i] && b[..n][i] == b[i];
  }

  lemma SharedUpTo(a: Bytes, b: Bytes, n: nat, d: nat)
    requires n <= |a| && n <= |b| && a[..n] == b[..n] && DifferFirstAt(a, b, d)
    requires n < |a| && n < |b| ==> a[n] != b[n]
    ensures d == n
  {
    if d < n {
      PrefixesAgree(a, b, n, d);
    } else if n < d {
      PrefixesAgree(a, b, d, n);
    }
  }

  /** BytewiseComparatorImpl::FindShortestSeparator: no longer than start, at or after it, and
      before limit if start is. */
  method FindShortestSeparator(start: Bytes, limit: Bytes) returns (r: Bytes)
    ensures |r| <= |start| && !BytesLess(r, start)
    ensures BytesLess(start, limit) ==> BytesLess(r, limit)
    ensures r == start || (BytesLess(start, r) && start != limit)
    ensures forall d: nat :: DifferFirstAt(start, limit, d) ==>
      r == if start[d] as int + 1 < limit[d] as int then start[..d] + [start[d] + 1] else start
    ensures start <= limit || limit <= start ==> r == start
  {
    var minLength := if |start| < |limit| then |start| else |limit|;
    var diffIndex := 0;
    while diffIndex < minLength && start[diffIndex] == limit[diffIndex]
      invariant diffIndex <= minLength && start[..diffIndex] == limit[..diffIndex]
    {
      diffIndex := diffIndex + 1;
    }
    r := start;
    BytesOrder(start, start, start);
    forall d: nat | DifferFirstAt(start, limit, d) ensures d == diffIndex {
      SharedUpTo(start, limit, diffIndex, d);
    }
    if diffIndex < minLength {
      var diffByte := start[diffIndex];
      assert DifferFirstAt(start, limit, diffIndex);
      if diffByte < 0xff && diffByte + 1 < limit[diffIndex] {
        r := start[..diffIndex] + [diffByte + 1];
        FirstDifference(start, r, diffIndex);
        FirstDifference(r, limit, diffIndex);
        BytesOrder(start, r, start);
      }
    }
  }

  /** BytewiseComparatorImpl::FindShortSuccessor: no longer than the key and at or after it. */
  method FindShortSuccessor(key: Bytes) returns (r: Bytes)
    ensures |r| <= |key| && !BytesLess(r, key)
    ensures r == key <==> forall b :: b in key ==> b == 0xff
    ensures forall i :: 0 <= i < |key| && key[i] != 0xff && (forall m :: 0 <= m < i ==> key[m] == 0xff) ==>
      r == key[..i] + [key[i] + 1]
    ensures r == key || BytesLess(key, r)
  {
    BytesOrder(key, key, key);
    for i := 0 to |key|
      invariant forall m :: 0 <= m < i ==> key[m] == 0xff
    {
      var byte := key[i];
      if byte != 0xff {
        r := key[..i] + [byte + 1];
        assert key[i] in key && r[i] != key[i];
        FirstDifference(key, r, i);
        BytesOrder(key, r, key);
        return;
      }
    }
    return key;
  }

  /** A key that closes a block: at or after its last key; if it is another key, its user key lies
      strictly beyond, so no entry of a user key is ever cut off from its block by it. */
  ghost predicate Closes(sep: TableKey, last: TableKey) {
    sep == last || (BytesLess(last.user, sep.user) && sep.tag == MAX_TAG)
  }

  /** InternalKeyComparator::FindShortestSeparator. */
  method InternalSeparator(start: TableKey, limit: TableKey) returns (r: TableKey)
    ensures Closes(r, start)
    ensures KeyLess(start, limit) ==> KeyLess(r, limit) && (r == start || BytesLess(r.user, limit.user))
    ensures |r.user| <= |start.user|
  {
    var tmp := FindShortestSeparator(start.user, limit.user);
    if |tmp| < |start.user| && BytesLess(start.user, tmp) {
      r := TableKey(tmp, MAX_TAG);
    } else {
      r := start;
    }
  }

  /** InternalKeyComparator::FindShortSuccessor. */
  method InternalSuccessor(key: TableKey) returns (r: TableKey)
    ensures Closes(r, key) && |r.user| <= |key.user|
  {
    var tmp := FindShortSuccessor(key.user);
    r := if |tmp| < |key.user| && BytesLess(key.user, tmp) then TableKey(tmp, MAX_TAG) else key;
  }
}
