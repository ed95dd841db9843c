/** The Bloom filter (util/bloom.cc) over user keys (InternalFilterPolicy in db/dbformat.cc). */
module Bloom {
  import opened Keys
  import opened LogFormat

  /** The key hash; any function of the bytes will do. */
  type Hash = Bytes -> Word

  predicate HasBit(b: nat, j: nat) {
    if j == 0 then b % 2 == 1 else HasBit(b / 2, j - 1)
  }

  /** b | (1 << j). */
  function SetBit(b: nat, j: nat): nat {
    if j == 0 then b / 2 * 2 + 1 else SetBit(b / 2, j - 1) * 2 + b % 2
  }

  lemma {:induction false} SetBitOnly(b: nat, i: nat, j: nat)
    ensures HasBit(SetBit(b, j), i) <==> i == j || HasBit(b, i)
  {
    if i > 0 && j > 0 {
      SetBitOnly(b / 2, i - 1, j - 1);
    }
  }

  function Pow2(m: nat): nat { if m == 0 then 1 else 2 * Pow2(m - 1) }

  lemma {:induction false} SetBitFits(b: nat, j: nat, m: nat)
    requires j < m && b < Pow2(m)
    ensures SetBit(b, j) < Pow2(m)
  {
    if j > 0 {
      SetBitFits(b / 2, j - 1, m - 1);
    }
  }

  lemma SetBitInByte(b: Byte, j: nat)
    requires j < 8
    ensures SetBit(b, j) < 256
  {
    assert Pow2(4) == 16 && Pow2(8) == 16 * Pow2(4);
    SetBitFits(b, j, 8);
  }

  /** Bit `pos` of a byte array. */
  predicate Bit(a: Bytes, pos: nat)
    requires pos < 8 * |a|
  {
    HasBit(a[pos / 8], pos % 8)
  }

  /** array[bitpos / 8] |= 1 << (bitpos % 8). */
  function WithBit(a: Bytes, pos: nat): (r: Bytes)
    requires pos < 8 * |a|
    ensures |r| == |a|
  {
    SetBitInByte(a[pos / 8], pos % 8);
    a[pos / 8 := SetBit(a[pos / 8], pos % 8)]
  }

  lemma WithBitOnly(a: Bytes, pos: nat, other: nat)
    requires pos < 8 * |a| && other < 8 * |a|
    ensures Bit(WithBit(a, pos), other) <==> other == pos || Bit(a, other)
  {
    SetBitOnly(a[pos / 8], other % 8, pos % 8);
    assert pos == pos / 8 * 8 + pos % 8 && other == other / 8 * 8 + other % 8;
  }

  /** Rotate right by 17 bits. */
  function Delta(h: Word): Word {
    h / 0x2_0000 + h % 0x2_0000 * 0x8000
  }

  lemma KnownDeltas()
    ensures Delta(1) == 0x8000 && Delta(0x2_0000) == 1 && Delta(0x8000_0001) == 0xc000
  {}

  /** h plus j times d, in 32 bits. */
  function Stepped(h: Word, d: Word, j: nat): Word {
    if j == 0 then h else (Stepped(h, d, j - 1) + d) % 0x1_0000_0000
  }

  /** The hash used by probe j. */
  function Probe(h: Word, j: nat): Word { Stepped(h, Delta(h), j) }

  lemma {:induction false} ProbeSteps(h: Word, d: Word, j: nat)
    ensures Stepped(h, d, j) == (h + j * d) % 0x1_0000_0000
  {
    if j > 0 {
      ProbeSteps(h, d, j - 1);
      Distributes(j, d);
      AddInWord(h + (j - 1) * d, d);
    } else {
      Distributes(1, d);
    }
  }

  lemma Distributes(j: nat, d: nat)
    requires j > 0
    ensures j * d == (j - 1) * d + d && 0 * d == 0
  {}

  lemma AddInWord(a: nat, d: nat)
    ensures (a % 0x1_0000_0000 + d) % 0x1_0000_0000 == (a + d) % 0x1_0000_0000
  {}

  /** The first k probes of the hash find their bits set. */
  ghost predicate Probed(a: Bytes, h: Word, k: nat)
    requires a != []
  {
    forall j :: 0 <= j < k ==> Bit(a, Probe(h, j) % (8 * |a|))
  }

  /** KeyMayMatch's loop reads exactly the first k probes. */
  method AllBitsSet(a: Bytes, h: Word, k: nat) returns (r: bool)
    requires a != []
    ensures r <==> Probed(a, h, k)
  {
    var bits := 8 * |a|;
    var hash, delta := h, Delta(h);
    for j := 0 to k
      invariant hash == Probe(h, j) && Probed(a, h, j)
    {
      var bitpos := hash % bits;
      if !Bit(a, bitpos) {
        return false;
      }
      hash := (hash + delta) % 0x1_0000_0000;
    }
    return true;
  }

  /** BloomFilterPolicy::KeyMayMatch. */
  ghost predicate MayMatch(hash: Hash, key: Bytes, filter: Bytes) {
    |filter| >= 2 && (filter[|filter| - 1] > 30 || Probed(filter[..|filter| - 1], hash(key), filter[|filter| - 1]))
  }

  method KeyMayMatch(hash: Hash, key: Bytes, filter: Bytes) returns (r: bool)
    ensures r <==> MayMatch(hash, key, filter)
  {
    var len := |filter|;
    if len < 2 {
      return false;
    }
    var k := filter[len - 1];
    if k > 30 {
      return true;
    }
    r := AllBitsSet(filter[..len - 1], hash(key), k);
  }

  /** The size of a filter for n keys: at least 64 bits, in whole bytes. */
  function FilterBytes(n: nat, bitsPerKey: nat): (r: nat)
    ensures r >= 8
  {
    var bits := n * bitsPerKey;
    ((if bits < 64 then 64 else bits) + 7) / 8
  }

  /** Room for the bits asked for and for 64, and not a byte more than that takes. */
  lemma FilterBits(n: nat, bitsPerKey: nat)
    ensures var r, bits := FilterBytes(n, bitsPerKey), n * bitsPerKey;
      && 8 * r >= bits && 8 * r >= 64 && (8 * (r - 1) < bits || r == 8)
  {}

  ghost predicate OnlyMoreBits(a: Bytes, b: Bytes) {
    |a| == |b| && forall p :: 0 <= p < 8 * |a| && Bit(a, p) ==> Bit(b, p)
  }

  lemma StillProbed(a: Bytes, b: Bytes, h: Word, k: nat)
    requires a != [] && OnlyMoreBits(a, b) && Probed(a, h, k)
    ensures Probed(b, h, k)
  {}

  /** Setting the bit of one more probe. */
  lemma ProbeSet(a: Bytes, was: Bytes, h: Word, j: nat)
    requires a != [] && OnlyMoreBits(a, was) && Probed(was, h, j)
    ensures var r := WithBit(was, Probe(h, j) % (8 * |a|)); OnlyMoreBits(a, r) && Probed(r, h, j + 1)
  {
    var bitpos := Probe(h, j) % (8 * |a|);
    var r := WithBit(was, bitpos);
    forall p | 0 <= p < 8 * |a| ensures Bit(r, p) <==> p == bitpos || Bit(was, p) {
      WithBitOnly(was, bitpos, p);
    }
    StillProbed(was, r, h, j);
  }

  /** The inner loop of CreateFilter. */
  method AddProbes(a: Bytes, h: Word, k: nat) returns (r: Bytes)
    requires a != []
    ensures OnlyMoreBits(a, r) && Probed(r, h, k)
  {
    r := a;
    var hash, delta := h, Delta(h);
    for j := 0 to k
      invariant hash == Probe(h, j) && OnlyMoreBits(a, r) && Probed(r, h, j)
    {
      var bitpos := hash % (8 * |a|);
      ProbeSet(a, r, h, j);
      r := WithBit(r, bitpos);
      hash := (hash + delta) % 0x1_0000_0000;
    }
  }

  /** BloomFilterPolicy::CreateFilter: the filter appended to dst matches every one of its keys. */
  method CreateFilter(hash: Hash, bitsPerKey: nat, probes: Byte, keys: seq<Bytes>, dst: Bytes) returns (r: Bytes)
    requires 1 <= probes <= 30
    ensures dst <= r && |r| == |dst| + FilterBytes(|keys|, bitsPerKey) + 1
    ensures forall key :: key in keys ==> MayMatch(hash, key, r[|dst|..])
  {
    var bytes := FilterBytes(|keys|, bitsPerKey);
    var bitmap := Zeros(bytes);
    for i := 0 to |keys|
      invariant |bitmap| == bytes
      invariant forall m :: 0 <= m < i ==> Probed(bitmap, hash(keys[m]), probes)
    {
      ghost var was := bitmap;
      bitmap := AddProbes(bitmap, hash(keys[i]), probes);
      forall m | 0 <= m < i ensures Probed(bitmap, hash(keys[m]), probes) {
        StillProbed(was, bitmap, hash(keys[m]), probes);
      }
    }
    r := dst + bitmap + [probes];
    assert r[|dst|..] == bitmap + [probes];
    assert (bitmap + [probes])[..bytes] == bitmap;
  }
}
