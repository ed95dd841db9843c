/** The default user comparator (util/comparator.cc) and its embedding in the reals. */
module ByteOrder {
  import opened Keys

  /** BytewiseComparatorImpl::Compare(a, b) < 0. */
  predicate BytesLess(a: Bytes, b: Bytes) {
    if b == [] then false
    else if a == [] then true
    else a[0] < b[0] || (a[0] == b[0] && BytesLess(a[1..], b[1..]))
  }

  /** A byte string read as a fraction in base 257, digit 0 standing for end of string. */
  function Rank(a: Bytes): (r: real)
    ensures 0.0 <= r < 1.0
  {
    if a == [] then 0.0 else (a[0] as real + 1.0 + Rank(a[1..])) / 257.0
  }

  /** Comparing ranks is comparing byte strings, so a `real` user key loses nothing. */
  lemma {:induction false} RankEmbedsByteOrder(a: Bytes, b: Bytes)
    ensures BytesLess(a, b) <==> Rank(a) < Rank(b)
    ensures a == b <==> Rank(a) == Rank(b)
  {
    if a != [] && b != [] {
      RankEmbedsByteOrder(a[1..], b[1..]);
      assert a == [a[0]] + a[1..] && b == [b[0]] + b[1..];
    }
  }
}
