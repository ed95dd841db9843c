/** The filter block of a table: one Bloom filter for the keys of the data blocks that start in the
    same 2048 bytes of the file (table/filter_block.cc). */
module FilterBlock {
  import opened Keys
  import opened LogFormat
  import opened Bloom

  const FILTER_BASE_LG: Byte := 11
  const FILTER_BASE: nat := 2048

  /** ExtractUserKey: an encoded internal key without its eight-byte tag. */
  function ExtractUserKey(k: Bytes): Bytes {
    if |k| >= 8 then k[..|k| - 8] else []
  }

  function Flatten(keys: seq<Bytes>): Bytes {
    if keys == [] then [] else Flatten(keys[..|keys| - 1]) + keys[|keys| - 1]
  }

  /** start_ and keys_ together represent a list of keys. */
  ghost predicate Represents(start: seq<nat>, flat: Bytes, keys: seq<Bytes>) {
    && |start| == |keys| && flat == Flatten(keys)
    && forall i :: 0 <= i < |keys| ==> start[i] == |Flatten(keys[..i])|
  }

  lemma FlattenSnoc(keys: seq<Bytes>, i: nat)
    requires i < |keys|
    ensures Flatten(keys[..i + 1]) == Flatten(keys[..i]) + keys[i]
  {
    assert keys[..i + 1][..i] == keys[..i];
  }

  lemma {:induction false} FlattenPrefix(keys: seq<Bytes>, i: nat)
    requires i <= |keys|
    ensures |Flatten(keys[..i])| <= |Flatten(keys)| && Flatten(keys)[..|Flatten(keys[..i])|] == Flatten(keys[..i])
    decreases |keys| - i
  {
    if i == |keys| {
      assert keys[..i] == keys;
    } else {
      FlattenPrefix(keys, i + 1);
      FlattenSnoc(keys, i);
      assert Flatten(keys[..i + 1])[..|Flatten(keys[..i])|] == Flatten(keys[..i]);
    }
  }

  /** Key i lies between its start and the next. */
  lemma KeyInFlat(start: seq<nat>, flat: Bytes, keys: seq<Bytes>, i: nat)
    requires Represents(start, flat, keys) && i < |keys|
    ensures var limit := if i + 1 < |keys| then start[i + 1] else |flat|;
      start[i] <= limit <= |flat| && flat[start[i]..limit] == keys[i]
  {
    FlattenPrefix(keys, i + 1);
    FlattenSnoc(keys, i);
    assert i + 1 == |keys| ==> keys[..i + 1] == keys;
  }

  ghost function UsersOf(keys: seq<Bytes>): set<Bytes> {
    set k | k in keys :: ExtractUserKey(k)
  }

  /** Where filter i ends. */
  function Limit(offsets: seq<nat>, size: nat, i: nat): nat
    requires i < |offsets|
  {
    if i + 1 < |offsets| then offsets[i + 1] else size
  }

  ghost predicate Covers(hash: Hash, result: Bytes, offsets: seq<nat>, covered: seq<set<Bytes>>) {
    && |offsets| == |covered|
    && (forall i :: 0 <= i < |offsets| ==> offsets[i] <= Limit(offsets, |result|, i) <= |result|)
    && (forall i, u :: 0 <= i < |offsets| && u in covered[i] ==>
          MayMatch(hash, u, result[offsets[i]..Limit(offsets, |result|, i)]))
  }

  /** The filters of n keys never take more bytes: nine and the bits per key for each. */
  function MostBytes(n: nat, bitsPerKey: nat): nat {
    if n == 0 then 0 else MostBytes(n - 1, bitsPerKey) + 9 + bitsPerKey
  }

  lemma {:induction false} MostBytesIs(n: nat, bitsPerKey: nat)
    ensures MostBytes(n, bitsPerKey) == 9 * n + n * bitsPerKey
  {
    if n > 0 {
      MostBytesIs(n - 1, bitsPerKey);
      assert n * bitsPerKey == (n - 1) * bitsPerKey + bitsPerKey;
    }
  }

  lemma MostBytesAdd(n: nat, m: nat, bitsPerKey: nat)
    ensures MostBytes(n + m, bitsPerKey) == MostBytes(n, bitsPerKey) + MostBytes(m, bitsPerKey)
    ensures m > 0 ==> FilterBytes(m, bitsPerKey) + 1 <= MostBytes(m, bitsPerKey)
  {
    MostBytesIs(n, bitsPerKey);
    MostBytesIs(m, bitsPerKey);
    MostBytesIs(n + m, bitsPerKey);
    assert (n + m) * bitsPerKey == n * bitsPerKey + m * bitsPerKey;
  }

  class FilterBlockBuilder {
    const hash: Hash
    const bitsPerKey: nat
    const probes: Byte
    var keys: Bytes
    var start: seq<nat>
    var result: Bytes
    var filterOffsets: seq<nat>
    /** The keys not yet in a filter, and the user keys each finished filter must match. */
    ghost var pending: seq<Bytes>
    ghost var covered: seq<set<Bytes>>
    /** How many keys the finished filters hold. */
    ghost var filtered: nat

    ghost predicate Valid()
      reads this
    {
      && 1 <= probes <= 30
      && Represents(start, keys, pending)
      && Covers(hash, result, filterOffsets, covered)
      && |result| <= MostBytes(filtered, bitsPerKey) && (covered == [] ==> filtered == 0)
    }

    constructor (hash: Hash, bitsPerKey: nat, probes: Byte)
      requires 1 <= probes <= 30
      ensures Valid() && pending == [] && covered == [] && this.hash == hash
    {
      this.hash, this.bitsPerKey, this.probes := hash, bitsPerKey, probes;
      keys, start, result, filterOffsets, pending, covered, filtered := [], [], [], [], [], [], 0;
    }

    method AddKey(key: Bytes)
      requires Valid()
      modifies this`keys, this`start, this`pending
      ensures Valid() && pending == old(pending) + [key]
    {
      start := start + [|keys|];
      keys := keys + key;
      ghost var was := pending;
      pending := pending + [key];
      FlattenSnoc(pending, |was|);
      assert pending[..|was|] == was && pending[..|was| + 1] == pending;
      assert forall i :: 0 <= i < |was| ==> pending[..i] == was[..i];
    }

    /** The list of keys rebuilt from the flattened form, as user keys. */
    method UnflattenedUsers() returns (users: seq<Bytes>)
      requires Valid()
      ensures |users| == |pending| && forall i :: 0 <= i < |pending| ==> users[i] == ExtractUserKey(pending[i])
    {
      var bounds := start + [|keys|];
      users := [];
      for i := 0 to |start|
        invariant |users| == i && forall m :: 0 <= m < i ==> users[m] == ExtractUserKey(pending[m])
      {
        KeyInFlat(start, keys, pending, i);
        var key := keys[bounds[i]..bounds[i + 1]];
        users := users + [ExtractUserKey(key)];
      }
    }

    method GenerateFilter()
      requires Valid()
      modifies this`keys, this`start, this`pending, this`result, this`filterOffsets, this`covered, this`filtered
      ensures Valid() && pending == [] && covered == old(covered) + [UsersOf(old(pending))]
      ensures filtered == old(filtered) + |old(pending)|
    {
      var size := |result|;
      ghost var was := result;
      if start == [] {
        filterOffsets := filterOffsets + [size];
        covered := covered + [{}];
        assert UsersOf(pending) == {};
        return;
      }
      var users := UnflattenedUsers();
      filterOffsets := filterOffsets + [size];
      result := CreateFilter(hash, bitsPerKey, probes, users, result);
      covered := covered + [UsersOf(pending)];
      AppendCovers(hash, was, result, old(filterOffsets), old(covered), UsersOf(pending), users, pending);
      MostBytesAdd(filtered, |pending|, bitsPerKey);
      filtered := filtered + |pending|;
      keys, start, pending := [], [], [];
    }

    /** Called with the file offset of the block whose keys come next. */
    method StartBlock(blockOffset: nat)
      requires Valid() && blockOffset / FILTER_BASE >= |filterOffsets|
      modifies this`keys, this`start, this`pending, this`result, this`filterOffsets, this`covered, this`filtered
      ensures filtered + |pending| == old(filtered) + |old(pending)|
      ensures Valid() && |covered| == blockOffset / FILTER_BASE && old(covered) <= covered
      ensures if |covered| == |old(covered)| then pending == old(pending)
        else pending == [] && covered[|old(covered)|] == UsersOf(old(pending))
    {
      var filterIndex := blockOffset / FILTER_BASE;
      while filterIndex > |filterOffsets|
        invariant Valid() && |filterOffsets| <= filterIndex && old(covered) <= covered
        invariant filtered + |pending| == old(filtered) + |old(pending)|
        invariant if |covered| == |old(covered)| then pending == old(pending)
          else pending == [] && covered[|old(covered)|] == UsersOf(old(pending))
      {
        GenerateFilter();
      }
    }

    /** The finished block: filters, their offsets, where the offsets start, and the base. */
    method Finish() returns (contents: Bytes)
      requires Valid()
      modifies this`keys, this`start, this`pending, this`result, this`filterOffsets, this`covered, this`filtered
      ensures Valid() && pending == [] && filtered == old(filtered) + |old(pending)|
      ensures covered == if old(pending) == [] then old(covered) else old(covered) + [UsersOf(old(pending))]
      ensures contents == result + Words(filterOffsets) + Fixed32(Truncate(|result|)) + [FILTER_BASE_LG]
      ensures contents == FinishedBlock(result, filterOffsets)
    {
      if start != [] {
        GenerateFilter();
      }
      contents := result;
      for i := 0 to |filterOffsets|
        invariant contents == result + Words(filterOffsets[..i])
      {
        contents := contents + Fixed32(Truncate(filterOffsets[i]));
        assert filterOffsets[..i + 1][..i] == filterOffsets[..i];
      }
      assert filterOffsets[..|filterOffsets|] == filterOffsets;
      contents := contents + Fixed32(Truncate(|result|));
      contents := contents + [FILTER_BASE_LG];
      Regrouped(result, filterOffsets);
    }
  }

  function Truncate(n: nat): Word { n % 0x1_0000_0000 }

  function Words(ws: seq<nat>): (r: Bytes)
    ensures |r| == 4 * |ws|
  {
    if ws == [] then [] else Words(ws[..|ws| - 1]) + Fixed32(Truncate(ws[|ws| - 1]))
  }

  lemma AppendCovers(hash: Hash, was: Bytes, result: Bytes, offsets: seq<nat>, covered: seq<set<Bytes>>,
                     next: set<Bytes>, users: seq<Bytes>, pending: seq<Bytes>)
    requires Covers(hash, was, offsets, covered) && was <= result && next == UsersOf(pending)
    requires |users| == |pending| && forall i :: 0 <= i < |pending| ==> users[i] == ExtractUserKey(pending[i])
    requires forall u :: u in users ==> MayMatch(hash, u, result[|was|..])
    ensures Covers(hash, result, offsets + [|was|], covered + [next])
  {
    var o, c, n := offsets + [|was|], covered + [next], |offsets|;
    forall i, u | 0 <= i < |o| && u in c[i] ensures MayMatch(hash, u, result[o[i]..Limit(o, |result|, i)]) {
      if i < n {
        assert result[o[i]..Limit(o, |result|, i)] == was[offsets[i]..Limit(offsets, |was|, i)];
      } else {
        assert result[o[i]..Limit(o, |result|, i)] == result[|was|..];
        var k :| k in pending && ExtractUserKey(k) == u;
        var m :| 0 <= m < |pending| && pending[m] == k;
        assert users[m] == u;
      }
    }
  }

  // ----- Reading -----

  /** n >> lg. */
  function Shr(n: nat, lg: nat): nat {
    if lg == 0 then n else Shr(n, lg - 1) / 2
  }

  lemma ShrByBase(n: nat)
    ensures Shr(n, 11) == n / FILTER_BASE
  {
    assert Shr(n, 1) == n / 2 && Shr(n, 2) == n / 4 && Shr(n, 3) == n / 8;
    assert Shr(n, 4) == n / 16 && Shr(n, 5) == n / 32 && Shr(n, 6) == n / 64;
    assert Shr(n, 7) == n / 128 && Shr(n, 8) == n / 256 && Shr(n, 9) == n / 512;
    assert Shr(n, 10) == n / 1024;
  }

  /** The filter of a block says that the key may be in it, or there is no usable filter. */
  ghost predicate Admits(hash: Hash, contents: Bytes, blockOffset: nat, key: Bytes) {
    var n := |contents|;
    if n < 5 || DecodeFixed32(contents[n - 5..]) > n - 5 then true
    else
      var offsetsAt := DecodeFixed32(contents[n - 5..]);
      var index := Shr(blockOffset, contents[n - 1]);
      index >= (n - 5 - offsetsAt) / 4 || FilterAdmits(hash, contents, offsetsAt, index, key)
  }

  ghost predicate FilterAdmits(hash: Hash, contents: Bytes, offsetsAt: nat, index: nat, key: Bytes)
    requires offsetsAt + 4 * index + 9 <= |contents|
  {
    var start := DecodeFixed32(contents[offsetsAt + 4 * index..]);
    var limit := DecodeFixed32(contents[offsetsAt + 4 * index + 4..]);
    if start <= limit <= offsetsAt then MayMatch(hash, ExtractUserKey(key), contents[start..limit])
    else start != limit
  }

  class FilterBlockReader {
    const hash: Hash
    ghost const contents: Bytes
    const data: Bytes
    const arrayOffset: nat
    const num: nat
    const baseLg: nat

    ghost predicate Valid() {
      var n := |contents|;
      if n < 5 || DecodeFixed32(contents[n - 5..]) > n - 5 then num == 0
      else
        && data == contents && arrayOffset == DecodeFixed32(contents[n - 5..]) <= n - 5
        && num == (n - 5 - arrayOffset) / 4 && baseLg == contents[n - 1]
    }

    constructor (hash: Hash, contents: Bytes)
      ensures Valid() && this.hash == hash && this.contents == contents
    {
      this.hash, this.contents := hash, contents;
      data, arrayOffset, num, baseLg := [], 0, 0, 0;
      var n := |contents|;
      if n >= 5 {
        baseLg := contents[n - 1];
        var lastWord := DecodeFixed32(contents[n - 5..]);
        if lastWord <= n - 5 {
          data := contents;
          arrayOffset := lastWord;
          num := (n - 5 - lastWord) / 4;
        }
      }
    }

    method MayContain(blockOffset: nat, key: Bytes) returns (r: bool)
      requires Valid()
      ensures r <==> Admits(hash, contents, blockOffset, key)
    {
      var index := Shr(blockOffset, baseLg);
      if index < num {
        var start := DecodeFixed32(data[arrayOffset + 4 * index..]);
        var limit := DecodeFixed32(data[arrayOffset + 4 * index + 4..]);
        if start <= limit <= arrayOffset {
          r := KeyMayMatch(hash, ExtractUserKey(key), data[start..limit]);
          return;
        } else if start == limit {
          return false;
        }
      }
      return true;
    }
  }

  lemma {:induction false} WordAt(ws: seq<nat>, i: nat, tail: Bytes)
    requires i < |ws|
    ensures |(Words(ws) + tail)[4 * i..]| >= 4
    ensures DecodeFixed32((Words(ws) + tail)[4 * i..]) == Truncate(ws[i])
  {
    var n := |ws| - 1;
    var last := Fixed32(Truncate(ws[n]));
    if i < n {
      WordAt(ws[..n], i, last + tail);
      assert Words(ws) + tail == Words(ws[..n]) + (last + tail);
    } else {
      Fixed32RoundTrip(Truncate(ws[n]));
      assert (Words(ws) + tail)[4 * i..] == last + tail;
    }
  }

  /** The words at the end of a filter block. */
  function WithSize(offsets: seq<nat>, size: nat): (r: seq<nat>)
    ensures |r| == |offsets| + 1 && r[|offsets|] == size && r[..|offsets|] == offsets
    ensures forall i :: 0 <= i < |offsets| ==> r[i] == offsets[i]
  {
    offsets + [size]
  }

  /** A finished block: the start of the offsets is one word more behind them. */
  function FinishedBlock(result: Bytes, offsets: seq<nat>): (r: Bytes)
    ensures |r| == |result| + 4 * |offsets| + 5
  {
    result + (Words(WithSize(offsets, |result|)) + [FILTER_BASE_LG])
  }

  /** Two filters, their offsets, the start of the offsets, and the base. */
  lemma KnownBlock()
    ensures FinishedBlock([7, 8, 9], [0, 2]) == [7, 8, 9, 0, 0, 0, 0, 2, 0, 0, 0, 3, 0, 0, 0, 11]
  {
    var ws := WithSize([0, 2], 3);
    assert ws == [0, 2, 3];
    assert Fixed32(Truncate(0)) == [0, 0, 0, 0] && Fixed32(Truncate(2)) == [2, 0, 0, 0] && Fixed32(Truncate(3)) == [3, 0, 0, 0];
    assert ws[..2] == [0, 2] && ws[..2][..1] == [0] && ws[..2][..1][..0] == [];
    assert Words([0]) == Words([]) + [0, 0, 0, 0];
    assert Words([0, 2]) == Words([0]) + [2, 0, 0, 0];
    assert Words(ws) == Words([0, 2]) + [3, 0, 0, 0];
  }

  lemma Regrouped(result: Bytes, offsets: seq<nat>)
    ensures result + Words(offsets) + Fixed32(Truncate(|result|)) + [FILTER_BASE_LG] == FinishedBlock(result, offsets)
  {
    Assoc(result, Words(offsets), Fixed32(Truncate(|result|)));
    Assoc(result, Words(WithSize(offsets, |result|)), [FILTER_BASE_LG]);
  }

  /** No false negatives: the reader of a finished filter block admits every key that was added
      while its block's part of the file was current. */
  lemma NoFalseNegatives(hash: Hash, result: Bytes, offsets: seq<nat>, covered: seq<set<Bytes>>,
                         contents: Bytes, blockOffset: nat, key: Bytes)
    requires Covers(hash, result, offsets, covered) && |result| < 0x1_0000_0000
    requires contents == FinishedBlock(result, offsets)
    requires blockOffset / FILTER_BASE < |covered| && ExtractUserKey(key) in covered[blockOffset / FILTER_BASE]
    ensures Admits(hash, contents, blockOffset, key)
  {
    var i := blockOffset / FILTER_BASE;
    FinishedTail(contents, result, offsets);
    FinishedWords(contents, result, offsets, i);
    SmallOffsets(hash, result, offsets, covered, i);
    ShrByBase(blockOffset);
    FilterFound(hash, contents, |result|, i, key, offsets[i], Limit(offsets, |result|, i), result);
  }

  /** Where the i-th filter starts and ends, as the reader finds it. */
  lemma FinishedWords(contents: Bytes, result: Bytes, offsets: seq<nat>, i: nat)
    requires contents == FinishedBlock(result, offsets) && i < |offsets|
    ensures |result| + 4 * i + 9 <= |contents|
    ensures DecodeFixed32(contents[|result| + 4 * i..]) == Truncate(offsets[i])
    ensures DecodeFixed32(contents[|result| + 4 * i + 4..]) == Truncate(Limit(offsets, |result|, i))
  {
    var words := WithSize(offsets, |result|);
    ContentsWord(contents, result, words, i, |result| + 4 * i);
    ContentsWord(contents, result, words, i + 1, |result| + 4 * i + 4);
  }

  lemma FilterFound(hash: Hash, contents: Bytes, size: nat, i: nat, key: Bytes, start: nat, limit: nat, result: Bytes)
    requires result <= contents && size == |result| && size + 4 * i + 9 <= |contents|
    requires DecodeFixed32(contents[size + 4 * i..]) == start <= limit <= size
    requires DecodeFixed32(contents[size + 4 * i + 4..]) == limit
    requires MayMatch(hash, ExtractUserKey(key), result[start..limit])
    ensures FilterAdmits(hash, contents, size, i, key)
  {
    assert contents[start..limit] == result[start..limit];
  }

  lemma SmallOffsets(hash: Hash, result: Bytes, offsets: seq<nat>, covered: seq<set<Bytes>>, i: nat)
    requires Covers(hash, result, offsets, covered) && i < |offsets| && |result| < 0x1_0000_0000
    ensures Truncate(offsets[i]) == offsets[i] && Truncate(Limit(offsets, |result|, i)) == Limit(offsets, |result|, i)
    ensures Truncate(|result|) == |result|
  {}

  lemma DropConcat(a: Bytes, b: Bytes, k: nat)
    requires k <= |b|
    ensures (a + b)[|a| + k..] == b[k..]
  {}

  lemma ContentsWord(contents: Bytes, result: Bytes, ws: seq<nat>, i: nat, at: nat)
    requires i < |ws| && at == |result| + 4 * i
    requires contents == result + (Words(ws) + [FILTER_BASE_LG])
    ensures |contents| == |result| + 4 * |ws| + 1 && contents[|contents| - 1] == FILTER_BASE_LG
    ensures at + 4 <= |contents| && DecodeFixed32(contents[at..]) == Truncate(ws[i])
  {
    WordAt(ws, i, [FILTER_BASE_LG]);
    DropConcat(result, Words(ws) + [FILTER_BASE_LG], 4 * i);
  }

  // ----- Filters too large for their offsets -----

  /** With exactly 2^32 bytes of filters the reader takes the first bytes of the first filter for the
      offsets; if they are zero, it rejects every key of the first blocks. */
  lemma OversizedRejects(hash: Hash, result: Bytes, offsets: seq<nat>, contents: Bytes, blockOffset: nat, key: Bytes)
    requires |result| == 0x1_0000_0000 && offsets != [] && blockOffset < FILTER_BASE
    requires forall i :: 0 <= i < 8 ==> result[i] == 0
    requires contents == FinishedBlock(result, offsets)
    ensures !Admits(hash, contents, blockOffset, key)
  {
    FinishedTail(contents, result, offsets);
    ShrByBase(blockOffset);
    FirstBytes(contents, result);
    NothingInEmpty(hash, contents, key);
  }

  /** What a reader finds at the end of a finished filter block. */
  lemma FinishedTail(contents: Bytes, result: Bytes, offsets: seq<nat>)
    requires contents == FinishedBlock(result, offsets)
    ensures |contents| == |result| + 4 * |offsets| + 5 && result <= contents && contents[|contents| - 1] == FILTER_BASE_LG
    ensures DecodeFixed32(contents[|contents| - 5..]) == Truncate(|result|)
  {
    ContentsWord(contents, result, WithSize(offsets, |result|), |offsets|, |contents| - 5);
  }

  lemma FirstBytes(contents: Bytes, result: Bytes)
    requires result <= contents && |result| >= 8 && forall i :: 0 <= i < 8 ==> result[i] == 0
    ensures DecodeFixed32(contents[0..]) == 0 && DecodeFixed32(contents[4..]) == 0
  {
    assert forall i :: 0 <= i < 8 ==> contents[i] == result[i];
  }

  lemma NothingInEmpty(hash: Hash, contents: Bytes, key: Bytes)
    requires |contents| >= 9 && DecodeFixed32(contents[0..]) == 0 && DecodeFixed32(contents[4..]) == 0
    ensures !FilterAdmits(hash, contents, 0, 0, key)
  {
    assert contents[0..0] == [];
  }

  /** Such a filter block exists for every key, built from filters that match it: beyond the offsets' 32
      bits a lookup can miss a key that was added. */
  lemma OversizedFilterLosesKey(key: Bytes) returns (hash: Hash, result: Bytes, contents: Bytes)
    ensures Covers(hash, result, [0], [{ExtractUserKey(key)}]) && |result| == 0x1_0000_0000
    ensures contents == FinishedBlock(result, [0]) && !Admits(hash, contents, 0, key)
  {
    hash := _ => 64;
    var bitmap: Bytes := seq(0xFFFF_FFFF, i => if i < 8 then 0 else 255);
    result := bitmap + [1];
    contents := FinishedBlock(result, [0]);
    assert result[0..|result|] == result && result[..|result| - 1] == bitmap;
    assert HasBit(255, 0);
    assert Bit(bitmap, 64);
    assert Probed(bitmap, 64, 1);
    OversizedRejects(hash, result, [0], contents, 0, key);
  }
}
