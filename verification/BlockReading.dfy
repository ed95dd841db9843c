/** Reading a block: decoding entries, and the iterator over them (table/block.cc). */
module BlockReading {
  import opened Keys
  import opened LogFormat
  import opened Varints
  import opened FilterBlock
  import opened BlockFormat

  // ----- Decoding one entry -----

  lemma SplitPrefix(a: Bytes, b: Bytes, data: Bytes, p: nat, limit: nat)
    requires p <= limit <= |data| && a + b <= data[p..limit]
    ensures p + |a| <= limit && a <= data[p..limit] && b <= data[p + |a|..limit]
  {
    assert data[p..limit][..|a| + |b|] == a + b;
    assert data[p..limit][..|a|] == data[p..limit][..|a| + |b|][..|a|] == a;
    assert data[p + |a|..limit][..|b|] == data[p..limit][..|a| + |b|][|a|..] == b;
  }

  /** A first byte below 128 is the whole number. */
  lemma OneByte(v: nat, data: Bytes, p: nat, limit: nat)
    requires p < limit <= |data| && Varint(v) <= data[p..limit]
    ensures data[p] < 128 ==> data[p] == v && |Varint(v)| == 1
  {
    assert data[p] == data[p..limit][0] == Varint(v)[0];
  }

  /** DecodeEntry: gives back the three lengths and where the rest of the entry begins; None where
      the source returns a null pointer. */
  method DecodeEntry(data: Bytes, p: nat, limit: nat, ghost a: Word, ghost b: Word, ghost c: Word)
    returns (next: Option<nat>, shared: nat, nonShared: nat, valueLength: nat)
    requires p <= limit <= |data| < 0x1_0000_0000
    ensures Lengths(a, b, c) <= data[p..limit] && p + |Lengths(a, b, c)| + b + c <= limit ==>
      next == Some(p + |Lengths(a, b, c)|) && shared == a && nonShared == b && valueLength == c
  {
    ghost var written := Lengths(a, b, c) <= data[p..limit];
    if limit - p < 3 {
      return None, 0, 0, 0;
    }
    if written {
      SplitLengths(data, p, limit, a, b, c);
    }
    var q: nat;
    shared, nonShared, valueLength := data[p], data[p + 1], data[p + 2];
    if shared < 128 && nonShared < 128 && valueLength < 128 {
      q := p + 3;
    } else {
      var r;
      r, shared, nonShared, valueLength := DecodeLengths(data, p, limit, a, b, c);
      if r.None? {
        return None, 0, 0, 0;
      }
      q := r.value;
    }
    if limit - q < (nonShared + valueLength) % 0x1_0000_0000 {
      return None, 0, 0, 0;
    }
    next := Some(q);
  }

  /** A number that was written is read back. */
  method GetLength(data: Bytes, p: nat, limit: nat, ghost v: Word) returns (next: Option<nat>, value: nat)
    requires p <= limit <= |data|
    ensures next.Some? ==> p < next.value <= limit
    ensures Varint(v) <= data[p..limit] ==> next == Some(p + |Varint(v)|) && value == v
  {
    if Varint(v) <= data[p..limit] {
      Varints.MostBytes();
      VarintIsRead(data, p, limit, v, 5);
    }
    next, value := GetVarint32(data, p, limit);
  }

  /** DecodeEntry's slow path: three numbers one after the other. */
  method DecodeLengths(data: Bytes, p: nat, limit: nat, ghost a: Word, ghost b: Word, ghost c: Word)
    returns (next: Option<nat>, x: nat, y: nat, z: nat)
    requires p <= limit <= |data|
    ensures next.Some? ==> next.value <= limit
    ensures var q := p + |Varint(a)|; var r := q + |Varint(b)|;
      q <= r <= limit && Varint(a) <= data[p..limit] && Varint(b) <= data[q..limit] && Varint(c) <= data[r..limit] ==>
      next == Some(r + |Varint(c)|) && x == a && y == b && z == c
  {
    var r1, r2;
    x, y, z := 0, 0, 0;
    r1, x := GetLength(data, p, limit, a);
    if r1.None? {
      return None, 0, 0, 0;
    }
    r2, y := GetLength(data, r1.value, limit, b);
    if r2.None? {
      return None, 0, 0, 0;
    }
    next, z := GetLength(data, r2.value, limit, c);
  }

  lemma SplitLengths(data: Bytes, p: nat, limit: nat, a: nat, b: nat, c: nat)
    requires p + 3 <= limit <= |data| && Lengths(a, b, c) <= data[p..limit]
    ensures var q := p + |Varint(a)|; var r := q + |Varint(b)|;
      && r + |Varint(c)| == p + |Lengths(a, b, c)| <= limit
      && Varint(a) <= data[p..limit] && Varint(b) <= data[q..limit] && Varint(c) <= data[r..limit]
    ensures data[p] < 128 && data[p + 1] < 128 && data[p + 2] < 128 ==>
      data[p] == a && data[p + 1] == b && data[p + 2] == c && |Lengths(a, b, c)| == 3
  {
    var q, r := p + |Varint(a)|, p + |Varint(a)| + |Varint(b)|;
    SplitPrefix(Varint(a), Varint(b) + Varint(c), data, p, limit);
    SplitPrefix(Varint(b), Varint(c), data, q, limit);
    OneByte(a, data, p, limit);
    OneByte(b, data, q, limit);
    OneByte(c, data, r, limit);
  }

  // ----- Entries in a block -----

  ghost predicate Block(contents: Bytes, xs: seq<Item>, marks: seq<nat>, restarts: nat) {
    && |contents| < 0x1_0000_0000 && Encodes(contents, xs, marks) && restarts == Off(Parts(xs), |xs|)
  }

  lemma Cut3(l: Bytes, k: Bytes, v: Bytes)
    ensures var b := l + (k + v);
      b[..|l|] == l && b[|l|..|l| + |k|] == k && b[|l| + |k|..|b|] == v
  {
    var b := l + (k + v);
    assert b[|l|..] == k + v;
    assert b[|l|..|l| + |k|] == (k + v)[..|k|];
    assert b[|l| + |k|..|b|] == (k + v)[|k|..];
  }

  /** The three parts of bytes found at d. */
  lemma ThreeParts(contents: Bytes, l: Bytes, k: Bytes, v: Bytes, d: nat, e: nat, limit: nat)
    requires d <= e <= limit <= |contents| && contents[d..e] == l + (k + v)
    ensures e == d + |l| + |k| + |v| && l <= contents[d..limit]
    ensures contents[d + |l|..d + |l| + |k|] == k && contents[e - |v|..e] == v
  {
    Cut3(l, k, v);
    SliceOfSlice(contents, d, e, 0, |l|);
    SliceOfSlice(contents, d, e, |l|, |l| + |k|);
    SliceOfSlice(contents, d, e, |l| + |k|, e - d);
    SliceOfSlice(contents, d, limit, 0, |l|);
  }

  lemma PrefixWindow(contents: Bytes, data: Bytes, rest: Bytes, d: nat, e: nat)
    requires contents == data + rest && d <= e <= |data|
    ensures contents[d..e] == data[d..e]
  {}

  lemma EntryBytesAt(contents: Bytes, xs: seq<Item>, marks: seq<nat>, restarts: nat, i: nat)
    requires Block(contents, xs, marks, restarts) && i < |xs|
    ensures Off(Parts(xs), i) < Off(Parts(xs), i + 1) <= restarts <= |contents|
    ensures contents[Off(Parts(xs), i)..Off(Parts(xs), i + 1)] == EntryBytes(KeyBefore(xs, i), xs[i])
  {
    var parts := Parts(xs);
    PartIs(xs, i);
    PartAt(parts, i, |xs|);
    PrefixWindow(contents, Data(parts, |xs|), Words(Offsets(parts, marks)) + Fixed32(Truncate(|marks|)), Off(parts, i), Off(parts, i + 1));
  }

  /** What a reader finds at the offset d of an entry x that follows the key prev and ends at e. */
  ghost predicate EntryFound(contents: Bytes, prev: Bytes, x: Item, d: nat, e: nat, limit: nat)
    requires d <= limit <= |contents|
  {
    var n := Shared(prev, x);
    var l := Lengths(n, |x.key| - n, |x.value|);
    var q := d + |l|;
    && e == q + (|x.key| - n) + |x.value| <= limit
    && l <= contents[d..limit]
    && contents[q..q + (|x.key| - n)] == x.key[n..] && contents[e - |x.value|..e] == x.value
  }

  lemma EntrySlices(contents: Bytes, prev: Bytes, x: Item, d: nat, e: nat, limit: nat)
    requires d <= e <= limit <= |contents| && contents[d..e] == EntryBytes(prev, x)
    ensures EntryFound(contents, prev, x, d, e, limit)
  {
    var n := Shared(prev, x);
    ThreeParts(contents, Lengths(n, |x.key| - n, |x.value|), x.key[n..], x.value, d, e, limit);
  }

  lemma EntryInBlock(contents: Bytes, xs: seq<Item>, marks: seq<nat>, restarts: nat, i: nat)
    requires Block(contents, xs, marks, restarts) && i < |xs|
    ensures Off(Parts(xs), i) < Off(Parts(xs), i + 1) <= restarts <= |contents|
    ensures EntryFound(contents, KeyBefore(xs, i), xs[i], Off(Parts(xs), i), Off(Parts(xs), i + 1), restarts)
  {
    EntryBytesAt(contents, xs, marks, restarts, i);
    EntrySlices(contents, KeyBefore(xs, i), xs[i], Off(Parts(xs), i), Off(Parts(xs), i + 1), restarts);
  }

  lemma TruncateSmall(n: nat)
    ensures n < 0x1_0000_0000 ==> Truncate(n) == n
  {}

  lemma WordAfter(contents: Bytes, data: Bytes, ws: seq<nat>, tail: Bytes, k: nat)
    requires contents == data + (Words(ws) + tail) && k < |ws|
    ensures |data| + 4 * k + 4 <= |contents| && DecodeFixed32(contents[|data| + 4 * k..]) == Truncate(ws[k])
  {
    WordAt(ws, k, tail);
    DropConcat(data, Words(ws) + tail, 4 * k);
  }

  lemma LastPart(contents: Bytes, a: Bytes, b: Bytes, t: Bytes)
    requires contents == a + (b + t)
    ensures contents[|contents| - |t|..] == t
  {
    assert contents == (a + b) + t;
  }

  /** The last word is the number of restarts. */
  lemma CountAt(contents: Bytes, data: Bytes, words: Bytes, n: nat)
    requires contents == data + (words + Fixed32(Truncate(n))) && n < 0x1_0000_0000
    ensures |contents| == |data| + |words| + 4 && DecodeFixed32(contents[|contents| - 4..]) == n
  {
    LastPart(contents, data, words, Fixed32(Truncate(n)));
    Fixed32RoundTrip(Truncate(n));
  }

  /** The restart array holds the offsets of the marked entries. */
  lemma RestartAt(contents: Bytes, xs: seq<Item>, marks: seq<nat>, restarts: nat, k: nat)
    requires Block(contents, xs, marks, restarts) && k < |marks|
    ensures restarts + 4 * k + 4 <= |contents|
    ensures DecodeFixed32(contents[restarts + 4 * k..]) == Off(Parts(xs), marks[k])
  {
    DataPrefix(Parts(xs), marks[k], |xs|);
    WordAfter(contents, Data(Parts(xs), |xs|), Offsets(Parts(xs), marks), Fixed32(Truncate(|marks|)), k);
    TruncateSmall(Off(Parts(xs), marks[k]));
  }

  lemma OffsetOrder(xs: seq<Item>, i: nat, j: nat)
    requires i <= |xs| && j <= |xs|
    ensures Off(Parts(xs), i) < Off(Parts(xs), j) <==> i < j
  {
    PartsNonEmpty(xs);
    if i < j {
      OffsetsGrow(Parts(xs), i, j);
    } else {
      OffsetsGrow(Parts(xs), j, i);
    }
  }

  lemma PartsNonEmpty(xs: seq<Item>)
    ensures NonEmpty(Parts(xs))
  {
    forall i | 0 <= i < |xs| ensures Parts(xs)[i] != [] {
      PartIs(xs, i);
    }
  }

  /** Decoding an entry that is there never gives a null pointer. */
  method DecodeFound(data: Bytes, d: nat, limit: nat, ghost prev: Bytes, ghost x: Item, ghost e: nat)
    returns (p: nat, shared: nat, nonShared: nat, valueLength: nat)
    requires d <= limit <= |data| < 0x1_0000_0000 && |x.key| < 0x1_0000_0000
    requires EntryFound(data, prev, x, d, e, limit)
    ensures shared == Shared(prev, x) && shared + nonShared == |x.key|
    ensures p + nonShared + valueLength == e
    ensures data[p..p + nonShared] == x.key[shared..] && data[p + nonShared..e] == x.value
  {
    ghost var n := Shared(prev, x);
    assert n <= |x.key| && |x.value| < 0x1_0000_0000;
    var next;
    next, shared, nonShared, valueLength := DecodeEntry(data, d, limit, n, |x.key| - n, |x.value|);
    if next.None? {
      assert false;
    }
    p := next.value;
  }

  // ----- The iterator -----

  /** The first entry whose key is not before the target. */
  ghost predicate IsFirstNotBefore(less: Order, xs: seq<Item>, target: Bytes, p: Option<nat>) {
    match p
    case Some(i) => i < |xs| && !less(xs[i].key, target) && forall j :: 0 <= j < i ==> less(xs[j].key, target)
    case None => forall j :: 0 <= j < |xs| ==> less(xs[j].key, target)
  }

  ghost predicate Increasing(offs: seq<nat>) {
    forall i, j :: 0 <= i < j < |offs| ==> offs[i] < offs[j]
  }

  /** Block::Iter over a block that encodes `xs`. Where the source calls CorruptionError the model
      asserts false: on such a block these branches are never taken. */
  class BlockIter {
    const less: Order
    const data: Bytes
    const restarts: nat
    const numRestarts: nat
    var current: nat
    var restartIndex: nat
    var key: Bytes
    /** value_ is a slice of the block. */
    var valueStart: nat
    var valueEnd: nat
    ghost const xs: seq<Item>
    ghost const marks: seq<nat>

    /** Where each entry begins, and the end of the last. */
    ghost const offs: seq<nat>

    ghost predicate Shape() {
      && |data| < 0x1_0000_0000 && numRestarts == |marks| && Marks(xs, marks)
      && |offs| == |xs| + 1 && Increasing(offs) && restarts == offs[|xs|]
      && Coded()
    }

    /** The bytes encode the entries, the i-th at its offset. */
    ghost predicate CodedAt(i: nat)
      requires i < |offs| == |xs| + 1
    {
      Block(data, xs, marks, restarts) && offs[i] == Off(Parts(xs), i)
    }

    ghost predicate Coded()
      requires |offs| == |xs| + 1
    {
      forall i {:trigger CodedAt(i)} :: 0 <= i <= |xs| ==> CodedAt(i)
    }

    ghost function At(i: nat): nat
      requires i < |offs|
    {
      offs[i]
    }

    /** The iterator stands on entry i. */
    ghost predicate AtEntry(i: nat)
      reads this
    {
      && i < |xs| && |offs| == |xs| + 1 && current == At(i) && key == xs[i].key
      && valueStart <= valueEnd == At(i + 1) <= |data| && data[valueStart..valueEnd] == xs[i].value
      && InRestart(i)
    }

    ghost predicate AtEntryOrEnd(j: nat)
      reads this
    {
      if j < |xs| then AtEntry(j) else AtEnd()
    }

    /** restartIndex is the last restart at or before entry i, or the one before a restart at i. */
    ghost predicate InRestart(i: nat)
      reads this
    {
      && restartIndex < numRestarts == |marks| && marks[restartIndex] <= i
      && (restartIndex + 1 < numRestarts ==> marks[restartIndex + 1] >= i)
    }

    ghost predicate AtEnd()
      reads this
    {
      current == restarts && restartIndex == numRestarts
    }

    ghost predicate Valid(p: Option<nat>)
      reads this
    {
      Shape() && match p
        case Some(i) => AtEntry(i)
        case None => AtEnd()
    }

    /** ParseNextKey will decode entry i. */
    ghost predicate Before(i: nat)
      reads this
    {
      && i <= |xs| && |offs| == |xs| + 1 && valueEnd == At(i) && KeyFits(i)
      && restartIndex < numRestarts == |marks| && marks[restartIndex] <= i
    }

    /** The key buffer holds what entry i shares. */
    ghost predicate KeyFits(i: nat)
      reads this
    {
      i < |xs| && !xs[i].restart ==> key == KeyBefore(xs, i)
    }

    /** Block::Block and NewIterator find the restart array. */
    constructor (less: Order, contents: Bytes, ghost xs: seq<Item>, ghost marks: seq<nat>)
      requires |contents| < 0x1_0000_0000 && Encodes(contents, xs, marks)
      ensures Valid(None) && this.xs == xs && this.less == less
    {
      this.less, this.data, this.xs, this.marks := less, contents, xs, marks;
      this.offs := seq(|xs| + 1, i requires 0 <= i <= |xs| => Off(Parts(xs), i));
      BlockShape(contents, xs, marks);
      var n := DecodeFixed32(contents[|contents| - 4..]);
      numRestarts := n;
      restarts := |contents| - (1 + n) * 4;
      current := |contents| - (1 + n) * 4;
      restartIndex := n;
      key, valueStart, valueEnd := [], 0, 0;
      new;
      forall i, j | 0 <= i < j <= |xs| ensures offs[i] < offs[j] {
        OffsetOrder(xs, i, j);
      }
    }

    method GetRestartPoint(index: nat) returns (offset: nat)
      requires Shape() && index < numRestarts
      ensures marks[index] <= |xs| && offset == At(marks[index])
    {
      assert CodedAt(marks[index]);
      RestartAt(data, xs, marks, restarts, index);
      offset := DecodeFixed32(data[restarts + 4 * index..]);
    }

    /** DecodeEntry at the offset of entry i. */
    method DecodeAt(offset: nat, ghost i: nat) returns (p: nat, shared: nat, nonShared: nat, valueLength: nat)
      requires Shape() && i < |xs| && offset == At(i)
      ensures shared == Shared(KeyBefore(xs, i), xs[i]) && shared + nonShared == |xs[i].key|
      ensures p + nonShared + valueLength == At(i + 1) <= |data|
      ensures data[p..p + nonShared] == xs[i].key[shared..]
      ensures data[p + nonShared..p + nonShared + valueLength] == xs[i].value
    {
      assert CodedAt(i) && CodedAt(i + 1);
      EntryInBlock(data, xs, marks, restarts, i);
      p, shared, nonShared, valueLength := DecodeFound(data, offset, restarts, KeyBefore(xs, i), xs[i], At(i + 1));
    }

    /** Decodes the entry at the end of the current value. */
    method ParseEntry(ghost i: nat)
      requires Shape() && i < |xs| && valueEnd == At(i) && KeyFits(i)
      modifies this`current, this`key, this`valueStart, this`valueEnd
      ensures current == At(i) && key == xs[i].key
      ensures valueStart <= valueEnd == At(i + 1) <= |data| && data[valueStart..valueEnd] == xs[i].value
    {
      current := valueEnd;
      var p, shared, nonShared, valueLength := DecodeAt(current, i);
      PrefixFits(i, shared);
      if |key| < shared {
        assert false;
      }
      Rejoin(xs[i].key, shared, key[..shared], data[p..p + nonShared]);
      key := key[..shared] + data[p..p + nonShared];
      valueStart := p + nonShared;
      valueEnd := valueStart + valueLength;
    }

    /** ParseNextKey: the next entry, or the end. */
    method ParseNextKey(ghost i: nat) returns (ok: bool)
      requires Shape() && Before(i)
      modifies this
      ensures ok <==> i < |xs|
      ensures Valid(if i < |xs| then Some(i) else None)
    {
      current := valueEnd;
      if current >= restarts {
        current := restarts;
        restartIndex := numRestarts;
        return false;
      }
      ParseEntry(i);
      AdvanceRestart(i);
      return true;
    }

    /** GetRestartPoint(index) < offset, for the offset of entry i. */
    method RestartIsBefore(index: nat, offset: nat, ghost i: nat) returns (before: bool)
      requires Shape() && index < numRestarts && i <= |xs| && offset == At(i)
      ensures before <==> marks[index] < i
    {
      var point := GetRestartPoint(index);
      before := point < offset;
    }

    /** The loop at the end of ParseNextKey. */
    method AdvanceRestart(ghost i: nat)
      requires Shape() && i < |xs| && current == At(i)
      requires restartIndex < numRestarts && marks[restartIndex] <= i
      modifies this`restartIndex
      ensures InRestart(i)
    {
      while restartIndex + 1 < numRestarts
        invariant restartIndex < numRestarts && marks[restartIndex] <= i
      {
        var before := RestartIsBefore(restartIndex + 1, current, i);
        if !before {
          return;
        }
        restartIndex := restartIndex + 1;
      }
    }

    method SeekToRestartPoint(index: nat)
      requires Shape() && index < numRestarts
      modifies this
      ensures Before(marks[index]) && restartIndex == index
    {
      key := [];
      restartIndex := index;
      var offset := GetRestartPoint(index);
      valueStart, valueEnd := offset, offset;
    }

    method Next(ghost i: nat)
      requires Valid(Some(i))
      modifies this
      ensures Valid(if i + 1 < |xs| then Some(i + 1) else None)
    {
      var _ := ParseNextKey(i + 1);
    }

    /** ParseNextKey() && NextEntryOffset() < limit, where the limit is the offset of entry i. */
    method ParseBelow(limit: nat, ghost j: nat, ghost i: nat) returns (more: bool)
      requires Shape() && Before(j) && i <= |xs| && limit == At(i)
      modifies this
      ensures AtEntryOrEnd(j)
      ensures more <==> j < |xs| && j + 1 < i
      ensures more ==> Before(j + 1)
    {
      more := ParseNextKey(j);
      if more {
        more := valueEnd < limit;
      }
    }

    /** Reads forward from entry j to the entry before entry i, or to the end of an empty block. */
    method ParseUpTo(limit: nat, ghost start: nat, ghost i: nat)
      requires Shape() && Before(start) && (start < i <= |xs| || start == i == |xs|) && limit == At(i)
      modifies this
      ensures AtEntryOrEnd(if start < i then i - 1 else i)
    {
      ghost var j := start;
      var more := ParseBelow(limit, j, i);
      while more
        invariant AtEntryOrEnd(j)
        invariant start <= j <= i && (j == i ==> start == i)
        invariant more <==> j < |xs| && j + 1 < i
        invariant more ==> Before(j + 1)
        decreases i - j
      {
        j := j + 1;
        more := ParseBelow(limit, j, i);
      }
      assert start < i ==> j == i - 1;
    }

    /** Prev is the inverse of Next, by reading forward again from a restart point. */
    method Prev(ghost i: nat)
      requires Valid(Some(i))
      modifies this
      ensures Valid(if i > 0 then Some(i - 1) else None)
    {
      var original := current;
      var found := RestartBefore(original, i);
      if !found {
        current := restarts;
        restartIndex := numRestarts;
        return;
      }
      SeekToRestartPoint(restartIndex);
      ParseUpTo(original, marks[restartIndex], i);
    }

    /** Prev's scan for a restart point before the current entry. */
    method RestartBefore(original: nat, ghost i: nat) returns (found: bool)
      requires Shape() && i < |xs| && original == At(i) && InRestart(i)
      modifies this`restartIndex
      ensures found <==> i > 0
      ensures found ==> restartIndex < numRestarts && marks[restartIndex] < i
    {
      found := RestartIsBefore(restartIndex, original, i);
      while !found
        invariant restartIndex < numRestarts && marks[restartIndex] <= i
        invariant found <==> marks[restartIndex] < i
        decreases !found, restartIndex
      {
        if restartIndex == 0 {
          return false;
        }
        restartIndex := restartIndex - 1;
        found := RestartIsBefore(restartIndex, original, i);
      }
    }

    method SeekToFirst()
      requires Shape()
      modifies this
      ensures Valid(if xs == [] then None else Some(0))
    {
      SeekToRestartPoint(0);
      var _ := ParseNextKey(0);
    }

    method SeekToLast()
      requires Shape()
      modifies this
      ensures Valid(if xs == [] then None else Some(|xs| - 1))
    {
      SeekToRestartPoint(numRestarts - 1);
      LastMark();
      ParseUpTo(restarts, marks[numRestarts - 1], |xs|);
    }

    /** Seek: a binary search over the restart points, then a scan. */
    method Seek(target: Bytes) returns (ghost p: Option<nat>)
      requires Shape() && Transitive(less) && SortedBy(less, xs)
      modifies this
      ensures Valid(p) && IsFirstNotBefore(less, xs, target, p)
    {
      var left: nat, right: nat := 0, numRestarts - 1;
      while left < right
        invariant left <= right < numRestarts
        invariant left > 0 ==> marks[left] < |xs| && less(xs[marks[left]].key, target)
      {
        var mid := (left + right + 1) / 2;
        var before := RestartKeyBefore(mid, target);
        if before {
          left := mid;
        } else {
          right := mid - 1;
        }
      }
      SeekToRestartPoint(left);
      BeforeMark(left, target);
      p := ScanTo(marks[left], target);
    }

    /** Whether the key at a restart point, which is stored whole, precedes the target. */
    method RestartKeyBefore(mid: nat, target: Bytes) returns (before: bool)
      requires Shape() && 0 < mid < numRestarts
      ensures marks[mid] < |xs| && (before <==> less(xs[marks[mid]].key, target))
    {
      ghost var m := marks[mid];
      assert m != 0;
      var offset := GetRestartPoint(mid);
      var p, shared, nonShared, valueLength := DecodeAt(offset, m);
      if shared != 0 {
        assert false;
      }
      var midKey := data[p..p + nonShared];
      assert midKey == xs[m].key;
      before := less(midKey, target);
    }

    lemma BeforeMark(left: nat, target: Bytes)
      requires Shape() && Transitive(less) && SortedBy(less, xs) && left < numRestarts
      requires left > 0 ==> marks[left] < |xs| && less(xs[marks[left]].key, target)
      ensures forall m :: 0 <= m < marks[left] ==> less(xs[m].key, target)
    {
      if left > 0 {
        forall m | 0 <= m < marks[left] ensures less(xs[m].key, target) {
          assert less(xs[m].key, xs[marks[left]].key);
        }
      }
    }

    /** The linear part of Seek. */
    method ScanTo(ghost start: nat, target: Bytes) returns (ghost p: Option<nat>)
      requires Shape() && Before(start) && start <= |xs|
      requires forall m :: 0 <= m < start ==> less(xs[m].key, target)
      modifies this
      ensures Valid(p) && IsFirstNotBefore(less, xs, target, p)
    {
      ghost var j := start;
      var ok := ParseNextKey(j);
      while ok && less(key, target)
        invariant j <= |xs| && (ok <==> j < |xs|) && AtEntryOrEnd(j)
        invariant forall m :: 0 <= m < j ==> less(xs[m].key, target)
        decreases |xs| - j
      {
        j := j + 1;
        ok := ParseNextKey(j);
      }
      p := if ok then Some(j) else None;
    }

    /** Valid() of the source's iterator: there is an entry exactly when current is before the restarts. */
    lemma StandsOnEntry(n: nat)
      requires n <= |xs| && Valid(if n < |xs| then Some(n) else None) && current < restarts
      ensures n < |xs| && AtEntry(n)
    {}

    lemma EndsAfter(n: nat)
      requires n <= |xs| && Valid(if n < |xs| then Some(n) else None) && current >= restarts
      ensures n == |xs|
    {}

    lemma LastMark()
      requires Shape()
      ensures if xs == [] then marks[numRestarts - 1] == 0 else marks[numRestarts - 1] < |xs|
    {}

    lemma PrefixFits(i: nat, shared: nat)
      requires i < |xs| && KeyFits(i) && shared == Shared(KeyBefore(xs, i), xs[i])
      ensures shared <= |key| && shared <= |xs[i].key| && key[..shared] == xs[i].key[..shared]
    {}
  }

  lemma Rejoin(k: Bytes, n: nat, a: Bytes, b: Bytes)
    requires n <= |k| && a == k[..n] && b == k[n..]
    ensures a + b == k
  {}

  lemma BlockShape(contents: Bytes, xs: seq<Item>, marks: seq<nat>)
    requires |contents| < 0x1_0000_0000 && Encodes(contents, xs, marks)
    ensures |contents| == Off(Parts(xs), |xs|) + 4 * |marks| + 4
    ensures DecodeFixed32(contents[|contents| - 4..]) == |marks|
  {
    CountAt(contents, Data(Parts(xs), |xs|), Words(Offsets(Parts(xs), marks)), |marks|);
  }

  ghost predicate Lists(xs: seq<Item>, keys: seq<Bytes>, values: seq<Bytes>) {
    |xs| == |keys| == |values| && forall i :: 0 <= i < |xs| ==> xs[i].key == keys[i] && xs[i].value == values[i]
  }

  /** The size a finished block has. */
  ghost function BlockSize(xs: seq<Item>, marks: seq<nat>): nat {
    Off(Parts(xs), |xs|) + 4 * |marks| + 4
  }

  ghost predicate Spaced(marks: seq<nat>, interval: nat) {
    forall k :: 0 <= k < |marks| ==> marks[k] == k * interval
  }

  /** Restart points at every `interval`-th entry, and no more than needed. */
  ghost predicate EveryInterval(marks: seq<nat>, interval: nat, n: nat) {
    && marks != [] && Spaced(marks, interval)
    && (n == 0 ==> |marks| == 1) && (n > 0 ==> (|marks| - 1) * interval < n <= |marks| * interval)
  }

  /** The counter says how far the last restart point is behind. */
  ghost predicate Counted(marks: seq<nat>, interval: nat, n: nat, counter: nat) {
    && marks != [] && Spaced(marks, interval) && n == (|marks| - 1) * interval + counter
    && counter <= interval && (n > 0 ==> counter > 0)
  }

  lemma CountedStep(marks: seq<nat>, interval: nat, n: nat, counter: nat)
    requires Counted(marks, interval, n, counter) && interval >= 1
    ensures if counter >= interval then Counted(marks + [n], interval, n + 1, 1) else Counted(marks, interval, n + 1, counter + 1)
  {
    assert (|marks| - 1) * interval + interval == |marks| * interval;
  }

  lemma CountedEnds(marks: seq<nat>, interval: nat, n: nat, counter: nat)
    requires Counted(marks, interval, n, counter) && interval >= 1
    ensures EveryInterval(marks, interval, n)
  {
    assert (|marks| - 1) * interval + interval == |marks| * interval;
    assert |marks| > 1 ==> (|marks| - 1) * interval >= interval;
  }

  lemma OneMoreListed(was: seq<Item>, now: seq<Item>, keys: seq<Bytes>, values: seq<Bytes>, n: nat)
    requires n < |keys| == |values| && Lists(was, keys[..n], values[..n])
    requires |now| == n + 1 && now[..n] == was && now[n].key == keys[n] && now[n].value == values[n]
    ensures Lists(now, keys[..n + 1], values[..n + 1])
  {
    assert forall i :: 0 <= i < n ==> now[i] == now[..n][i];
  }

  method AddNext(builder: BlockBuilder, key: Bytes, value: Bytes)
    requires builder.Valid() && !builder.finished && |key| < 0x1_0000_0000 && |value| < 0x1_0000_0000
    requires Counted(builder.marks, builder.interval, |builder.xs|, builder.counter)
    modifies builder`buffer, builder`restarts, builder`counter, builder`lastKey, builder`xs, builder`marks
    ensures builder.Valid() && !builder.finished
    ensures |builder.xs| == |old(builder.xs)| + 1 && builder.xs[..|old(builder.xs)|] == old(builder.xs)
    ensures builder.xs[|old(builder.xs)|].key == key && builder.xs[|old(builder.xs)|].value == value
    ensures Counted(builder.marks, builder.interval, |builder.xs|, builder.counter)
  {
    CountedStep(builder.marks, builder.interval, |builder.xs|, builder.counter);
    builder.Add(key, value);
  }

  method AddAll(builder: BlockBuilder, keys: seq<Bytes>, values: seq<Bytes>)
    requires builder.Valid() && !builder.finished && builder.xs == [] && builder.marks == [0] && builder.counter == 0
    requires |keys| == |values|
    requires forall i :: 0 <= i < |keys| ==> |keys[i]| < 0x1_0000_0000 && |values[i]| < 0x1_0000_0000
    modifies builder`buffer, builder`restarts, builder`counter, builder`lastKey, builder`xs, builder`marks
    ensures builder.Valid() && !builder.finished && Lists(builder.xs, keys, values)
    ensures EveryInterval(builder.marks, builder.interval, |builder.xs|)
  {
    for n := 0 to |keys|
      invariant builder.Valid() && !builder.finished && |builder.xs| == n
      invariant Lists(builder.xs, keys[..n], values[..n])
      invariant Counted(builder.marks, builder.interval, n, builder.counter)
    {
      ghost var was := builder.xs;
      AddNext(builder, keys[n], values[n]);
      OneMoreListed(was, builder.xs, keys, values, n);
    }
    assert keys[..|keys|] == keys && values[..|keys|] == values;
    CountedEnds(builder.marks, builder.interval, |keys|, builder.counter);
  }

  /** Adds all entries and finishes, unless the block would be too large for 32-bit offsets. */
  method BuildBlock(interval: nat, keys: seq<Bytes>, values: seq<Bytes>)
    returns (contents: Option<Bytes>, ghost xs: seq<Item>, ghost marks: seq<nat>)
    requires interval >= 1 && |keys| == |values|
    requires forall i :: 0 <= i < |keys| ==> |keys[i]| < 0x1_0000_0000 && |values[i]| < 0x1_0000_0000
    ensures Marks(xs, marks) && Lists(xs, keys, values) && EveryInterval(marks, interval, |xs|)
    ensures contents.None? <==> BlockSize(xs, marks) >= 0x1_0000_0000
    ensures contents.Some? ==> |contents.value| == BlockSize(xs, marks) && Encodes(contents.value, xs, marks)
  {
    var builder := new BlockBuilder(interval);
    AddAll(builder, keys, values);
    xs, marks := builder.xs, builder.marks;
    assert builder.CurrentSizeEstimate() == BlockSize(xs, marks);
    if builder.CurrentSizeEstimate() >= 0x1_0000_0000 {
      return None, xs, marks;
    }
    var bytes := builder.Finish();
    contents := Some(bytes);
  }

  /** A full forward scan. */
  method ScanBlock(less: Order, contents: Bytes, ghost xs: seq<Item>, ghost marks: seq<nat>) returns (out: seq<(Bytes, Bytes)>)
    requires |contents| < 0x1_0000_0000 && Encodes(contents, xs, marks)
    ensures |out| == |xs| && forall i :: 0 <= i < |xs| ==> out[i] == (xs[i].key, xs[i].value)
  {
    var iter := new BlockIter(less, contents, xs, marks);
    iter.SeekToFirst();
    out := [];
    while iter.current < iter.restarts
      invariant fresh(iter) && iter.xs == xs && |out| <= |xs|
      invariant iter.Valid(if |out| < |xs| then Some(|out|) else None)
      invariant forall i :: 0 <= i < |out| ==> out[i] == (xs[i].key, xs[i].value)
      decreases |xs| - |out|
    {
      iter.StandsOnEntry(|out|);
      out := out + [(iter.key, iter.data[iter.valueStart..iter.valueEnd])];
      iter.Next(|out| - 1);
    }
    iter.EndsAfter(|out|);
  }

  /** Building a block from any entries and scanning it gives them back, unless their bytes do not
      fit into 32-bit offsets. */
  method RoundTrip(less: Order, interval: nat, keys: seq<Bytes>, values: seq<Bytes>)
    returns (out: Option<seq<(Bytes, Bytes)>>, ghost xs: seq<Item>, ghost marks: seq<nat>)
    requires interval >= 1 && |keys| == |values|
    requires forall i :: 0 <= i < |keys| ==> |keys[i]| < 0x1_0000_0000 && |values[i]| < 0x1_0000_0000
    ensures Marks(xs, marks) && Lists(xs, keys, values) && EveryInterval(marks, interval, |xs|)
    ensures (out.None? <==> BlockSize(xs, marks) >= 0x1_0000_0000)
    ensures out.Some? ==> |out.value| == |keys| && forall i :: 0 <= i < |keys| ==> out.value[i] == (keys[i], values[i])
  {
    var contents;
    contents, xs, marks := BuildBlock(interval, keys, values);
    if contents.None? {
      out := None;
    } else {
      var list := ScanBlock(less, contents.value, xs, marks);
      out := Some(list);
    }
  }
}
