/** The layout of a block: entries that share a prefix with the one before, except at restart points
    (table/block_builder.cc). */
module BlockFormat {
  import opened Keys
  import opened LogFormat
  import opened Varints
  import opened FilterBlock

  /** An entry, and whether the builder restarted its compression there. */
  datatype Item = Item(key: Bytes, value: Bytes, restart: bool)

  /** The length of the longest common prefix. */
  function Common(a: Bytes, b: Bytes): (n: nat)
    ensures n <= |a| && n <= |b| && a[..n] == b[..n]
    ensures n < |a| && n < |b| ==> a[n] != b[n]
  {
    if a == [] || b == [] || a[0] != b[0] then 0
    else
      var n := Common(a[1..], b[1..]) + 1;
      assert a[..n] == [a[0]] + a[1..][..n - 1] && b[..n] == [b[0]] + b[1..][..n - 1];
      n
  }

  lemma CommonUnique(a: Bytes, b: Bytes, n: nat)
    requires n <= |a| && n <= |b| && a[..n] == b[..n]
    requires n < |a| && n < |b| ==> a[n] != b[n]
    ensures n == Common(a, b)
  {
    var m := Common(a, b);
    if n < m {
      AgreeAt(a, b, m, n);
    } else if m < n {
      AgreeAt(a, b, n, m);
    }
  }

  lemma AgreeAt(a: Bytes, b: Bytes, n: nat, k: nat)
    requires k < n <= |a| && n <= |b| && a[..n] == b[..n]
    ensures a[k] == b[k]
  {
    assert a[k] == a[..n][k] && b[k] == b[..n][k];
  }

  /** How much of the previous key an entry reuses. */
  function Shared(prev: Bytes, x: Item): (n: nat)
    ensures n <= |x.key| && n <= |prev| && prev[..n] == x.key[..n]
  {
    if x.restart then 0 else Common(prev, x.key)
  }

  /** Nothing at a restart point, and otherwise as much as the keys agree on. */
  lemma SharedIsLongest(prev: Bytes, x: Item)
    ensures var n := Shared(prev, x); if x.restart then n == 0 else n < |prev| && n < |x.key| ==> prev[n] != x.key[n]
  {}

  /** The three lengths in front of an entry. */
  function Lengths(a: nat, b: nat, c: nat): (r: Bytes)
    ensures |r| >= 3
  {
    Varint(a) + (Varint(b) + Varint(c))
  }

  function EntryBytes(prev: Bytes, x: Item): (r: Bytes)
    ensures |r| >= 3
  {
    var n := Shared(prev, x);
    Lengths(n, |x.key| - n, |x.value|) + (x.key[n..] + x.value)
  }

  /** The key 01 03 with value 09 alone, and behind the key 01 02. */
  lemma KnownEntries()
    ensures EntryBytes([], Item([1, 3], [9], false)) == [0, 2, 1, 1, 3, 9]
    ensures EntryBytes([1, 2], Item([1, 3], [9], false)) == [1, 1, 1, 3, 9]
    ensures EntryBytes([1, 2], Item([1, 3], [9], true)) == [0, 2, 1, 1, 3, 9]
  {
    assert Common([], [1, 3]) == 0;
    CommonUnique([1, 2], [1, 3], 1);
    assert Varint(0) == [0] && Varint(1) == [1] && Varint(2) == [2];
  }

  function KeyBefore(xs: seq<Item>, i: nat): Bytes
    requires i <= |xs|
  {
    if i == 0 then [] else xs[i - 1].key
  }

  /** The bytes of each entry. */
  function Parts(xs: seq<Item>): (r: seq<Bytes>)
    ensures |r| == |xs|
  {
    PartsUpTo(xs, |xs|)
  }

  function PartsUpTo(xs: seq<Item>, n: nat): (r: seq<Bytes>)
    requires n <= |xs|
    ensures |r| == n
  {
    if n == 0 then [] else PartsUpTo(xs, n - 1) + [EntryBytes(KeyBefore(xs, n - 1), xs[n - 1])]
  }

  lemma PartsLast(xs: seq<Item>, n: nat)
    requires 0 < n <= |xs|
    ensures PartsUpTo(xs, n) == PartsUpTo(xs, n - 1) + [EntryBytes(KeyBefore(xs, n - 1), xs[n - 1])]
  {}

  lemma {:induction false} PartUpTo(xs: seq<Item>, n: nat, i: nat)
    requires i < n <= |xs|
    ensures PartsUpTo(xs, n)[i] == EntryBytes(KeyBefore(xs, i), xs[i])
  {
    PartsLast(xs, n);
    if i < n - 1 {
      PartUpTo(xs, n - 1, i);
    }
  }

  lemma PartIs(xs: seq<Item>, i: nat)
    requires i < |xs|
    ensures Parts(xs)[i] == EntryBytes(KeyBefore(xs, i), xs[i])
  {
    PartUpTo(xs, |xs|, i);
  }

  lemma {:induction false} PartsExtend(xs: seq<Item>, x: Item, n: nat)
    requires n <= |xs|
    ensures PartsUpTo(xs + [x], n) == PartsUpTo(xs, n)
  {
    if n > 0 {
      PartsExtend(xs, x, n - 1);
      PartsLast(xs, n);
      PartsLast(xs + [x], n);
      assert KeyBefore(xs + [x], n - 1) == KeyBefore(xs, n - 1) && (xs + [x])[n - 1] == xs[n - 1];
    }
  }

  lemma PartsAppend(xs: seq<Item>, x: Item)
    ensures Parts(xs + [x]) == Parts(xs) + [EntryBytes(KeyBefore(xs, |xs|), x)]
  {
    PartsExtend(xs, x, |xs|);
    PartsLast(xs + [x], |xs| + 1);
  }

  // ----- Parts laid out one after another -----

  function Data(parts: seq<Bytes>, n: nat): Bytes
    requires n <= |parts|
  {
    if n == 0 then [] else Data(parts, n - 1) + parts[n - 1]
  }

  /** Where part n begins. */
  function Off(parts: seq<Bytes>, n: nat): nat
    requires n <= |parts|
  {
    |Data(parts, n)|
  }

  ghost predicate NonEmpty(parts: seq<Bytes>) {
    forall i :: 0 <= i < |parts| ==> parts[i] != []
  }

  lemma {:induction false} OffsetsGrow(parts: seq<Bytes>, i: nat, j: nat)
    requires i <= j <= |parts| && NonEmpty(parts)
    ensures Off(parts, i) + (j - i) <= Off(parts, j)
    decreases j
  {
    if i < j {
      OffsetsGrow(parts, i, j - 1);
    }
  }

  lemma {:induction false} DataPrefix(parts: seq<Bytes>, i: nat, n: nat)
    requires i <= n <= |parts|
    ensures Off(parts, i) <= Off(parts, n) && Data(parts, n)[..Off(parts, i)] == Data(parts, i)
    decreases n
  {
    if i < n {
      DataPrefix(parts, i, n - 1);
      assert Data(parts, n)[..Off(parts, i)] == Data(parts, n - 1)[..Off(parts, i)];
    }
  }

  lemma MiddlePart(s: Bytes, a: Bytes, b: Bytes, e: nat)
    requires e == |a| + |b| <= |s| && s[..e] == a + b
    ensures s[|a|..e] == b
  {
    assert s[|a|..e] == s[..e][|a|..];
  }

  /** The bytes of part i are where its offset says. */
  lemma PartAt(parts: seq<Bytes>, i: nat, n: nat)
    requires i < n <= |parts|
    ensures Off(parts, i) + |parts[i]| == Off(parts, i + 1) <= Off(parts, n)
    ensures Data(parts, n)[Off(parts, i)..Off(parts, i + 1)] == parts[i]
  {
    DataPrefix(parts, i + 1, n);
    MiddlePart(Data(parts, n), Data(parts, i), parts[i], Off(parts, i + 1));
  }

  lemma {:induction false} DataAppend(parts: seq<Bytes>, p: Bytes, n: nat)
    requires n <= |parts|
    ensures Data(parts + [p], n) == Data(parts, n)
  {
    if n > 0 {
      DataAppend(parts, p, n - 1);
    }
  }

  /** marks lists the entries at which a reader can start: the first, and every restart. */
  ghost predicate Marks(xs: seq<Item>, marks: seq<nat>) {
    && |marks| >= 1 && marks[0] == 0
    && (forall j, k :: 0 <= j < k < |marks| ==> marks[j] < marks[k])
    && (forall k :: 0 <= k < |marks| ==> marks[k] == 0 || (marks[k] < |xs| && xs[marks[k]].restart))
  }

  ghost function Offsets(parts: seq<Bytes>, marks: seq<nat>): (r: seq<nat>)
    requires forall k :: 0 <= k < |marks| ==> marks[k] <= |parts|
    ensures |r| == |marks| && forall k :: 0 <= k < |marks| ==> r[k] == Off(parts, marks[k])
  {
    seq(|marks|, k requires 0 <= k < |marks| => Off(parts, marks[k]))
  }

  /** Key lengths fit into 32 bits. */
  ghost predicate SmallKeys(xs: seq<Item>) {
    forall i :: 0 <= i < |xs| ==> |xs[i].key| < 0x1_0000_0000
  }

  /** A whole block. */
  ghost predicate Encodes(contents: Bytes, xs: seq<Item>, marks: seq<nat>) {
    && Marks(xs, marks) && SmallKeys(xs)
    && contents == Data(Parts(xs), |xs|) + (Words(Offsets(Parts(xs), marks)) + Fixed32(Truncate(|marks|)))
  }

  /** The keys of a sorted block, under the comparator's order. */
  type Order = (Bytes, Bytes) -> bool

  ghost predicate Transitive(less: Order) {
    forall a, b, c :: less(a, b) && less(b, c) ==> less(a, c)
  }

  ghost predicate SortedBy(less: Order, xs: seq<Item>) {
    forall i, j :: 0 <= i < j < |xs| ==> less(xs[i].key, xs[j].key)
  }

  lemma OffsetsAppended(parts: seq<Bytes>, p: Bytes, marks: seq<nat>)
    requires forall k :: 0 <= k < |marks| ==> marks[k] <= |parts|
    ensures Offsets(parts + [p], marks) == Offsets(parts, marks)
    ensures Offsets(parts + [p], marks + [|parts|]) == Offsets(parts, marks) + [Off(parts, |parts|)]
  {
    forall k | 0 <= k < |marks| ensures Off(parts + [p], marks[k]) == Off(parts, marks[k]) {
      DataAppend(parts, p, marks[k]);
    }
    DataAppend(parts, p, |parts|);
  }

  lemma DataStep(parts: seq<Bytes>, p: Bytes)
    ensures Data(parts + [p], |parts| + 1) == Data(parts, |parts|) + p
  {
    DataAppend(parts, p, |parts|);
  }

  lemma MarksAppend(xs: seq<Item>, marks: seq<nat>, x: Item)
    requires Marks(xs, marks) && SmallKeys(xs) && (x.restart ==> xs != []) && |x.key| < 0x1_0000_0000
    ensures SmallKeys(xs + [x])
    ensures Marks(xs + [x], if x.restart then marks + [|xs|] else marks)
  {}

  lemma OffsetsAdded(parts: seq<Bytes>, p: Bytes, marks: seq<nat>, restart: bool)
    requires forall k :: 0 <= k < |marks| ==> marks[k] <= |parts|
    ensures var m := if restart then marks + [|parts|] else marks;
      Offsets(parts + [p], m) == Offsets(parts, marks) + (if restart then [Off(parts, |parts|)] else [])
  {
    OffsetsAppended(parts, p, marks);
  }

  /** What Add leaves in the buffer and the restart array. */
  lemma Added(xs: seq<Item>, marks: seq<nat>, x: Item)
    requires Marks(xs, marks) && (x.restart ==> xs != [])
    ensures var t, m := xs + [x], if x.restart then marks + [|xs|] else marks;
      && Data(Parts(t), |t|) == Data(Parts(xs), |xs|) + EntryBytes(KeyBefore(xs, |xs|), x)
      && (forall k :: 0 <= k < |m| ==> m[k] <= |t|)
      && Offsets(Parts(t), m) == Offsets(Parts(xs), marks) + (if x.restart then [Off(Parts(xs), |xs|)] else [])
  {
    PartsAppend(xs, x);
    DataStep(Parts(xs), EntryBytes(KeyBefore(xs, |xs|), x));
    OffsetsAdded(Parts(xs), EntryBytes(KeyBefore(xs, |xs|), x), marks, x.restart);
  }

  /** The builder's buffer and restart array stand for the entries. */
  ghost predicate Holds(buffer: Bytes, restarts: seq<nat>, xs: seq<Item>, marks: seq<nat>) {
    && Marks(xs, marks) && SmallKeys(xs)
    && restarts == Offsets(Parts(xs), marks) && buffer == Data(Parts(xs), |xs|)
  }

  lemma HoldsMore(b: Bytes, r: seq<nat>, xs: seq<Item>, marks: seq<nat>, x: Item, b2: Bytes, r2: seq<nat>)
    requires Holds(b, r, xs, marks) && (x.restart ==> xs != []) && |x.key| < 0x1_0000_0000
    requires b2 == b + EntryBytes(KeyBefore(xs, |xs|), x) && r2 == if x.restart then r + [|b|] else r
    ensures Holds(b2, r2, xs + [x], if x.restart then marks + [|xs|] else marks)
  {
    MarksAppend(xs, marks, x);
    Added(xs, marks, x);
  }

  lemma Regrouped(b: Bytes, l1: Bytes, l2: Bytes, l3: Bytes, k: Bytes, v: Bytes)
    ensures b + l1 + l2 + l3 + k + v == b + ((l1 + (l2 + l3)) + (k + v))
  {
    assert b + l1 + l2 + l3 == b + (l1 + (l2 + l3));
  }

  lemma EntryRegrouped(buffer: Bytes, prev: Bytes, x: Item, shared: nat)
    requires shared == Shared(prev, x)
    ensures buffer + Varint(shared) + Varint(|x.key| - shared) + Varint(|x.value|) + x.key[shared..] + x.value
      == buffer + EntryBytes(prev, x)
  {
    Regrouped(buffer, Varint(shared), Varint(|x.key| - shared), Varint(|x.value|), x.key[shared..], x.value);
  }

  class BlockBuilder {
    const interval: nat
    var buffer: Bytes
    var restarts: seq<nat>
    var counter: nat
    var finished: bool
    var lastKey: Bytes
    ghost var xs: seq<Item>
    ghost var marks: seq<nat>

    ghost predicate Valid()
      reads this
    {
      && interval >= 1 && counter <= interval && (xs == [] ==> counter == 0)
      && (!finished ==> Holds(buffer, restarts, xs, marks) && lastKey == KeyBefore(xs, |xs|))
    }

    constructor (interval: nat)
      requires interval >= 1
      ensures Valid() && !finished && xs == [] && this.interval == interval && counter == 0 && marks == [0]
    {
      this.interval := interval;
      buffer, restarts, counter, finished, lastKey, xs, marks := [], [0], 0, false, [], [], [0];
    }

    method Reset()
      requires interval >= 1
      modifies this
      ensures Valid() && !finished && xs == [] && counter == 0 && marks == [0]
    {
      buffer, restarts, counter, finished, lastKey, xs, marks := [], [0], 0, false, [], [], [0];
    }

    /** CurrentSizeEstimate is the size that Finish will give. */
    function CurrentSizeEstimate(): nat
      reads this
    {
      |buffer| + |restarts| * 4 + 4
    }

    method Add(key: Bytes, value: Bytes)
      requires Valid() && !finished && |key| < 0x1_0000_0000 && |value| < 0x1_0000_0000
      modifies this`buffer, this`restarts, this`counter, this`lastKey, this`xs, this`marks
      ensures Valid() && !finished
      ensures xs == old(xs) + [Item(key, value, old(counter) >= interval)]
      ensures counter == (if old(counter) >= interval then 1 else old(counter) + 1)
      ensures marks == if old(counter) >= interval then old(marks) + [|old(xs)|] else old(marks)
    {
      var restart := counter >= interval;
      ghost var x, b, r := Item(key, value, restart), buffer, restarts;
      if restart {
        restarts := restarts + [|buffer|];
        counter := 0;
      }
      AppendEntry(key, value, restart);
      HoldsMore(b, r, xs, marks, x, buffer, restarts);
      Count(xs + [x], if restart then marks + [|xs|] else marks);
    }

    /** The counter moves on; so does what the buffer stands for. */
    method Count(ghost items: seq<Item>, ghost starts: seq<nat>)
      requires counter < interval && items != [] && !finished
      requires Holds(buffer, restarts, items, starts) && lastKey == items[|items| - 1].key
      modifies this`counter, this`xs, this`marks
      ensures Valid() && xs == items && marks == starts && !finished && counter == old(counter) + 1
    {
      counter := counter + 1;
      xs, marks := items, starts;
    }

    /** The lengths, the part of the key that is not shared, and the value. */
    method AppendEntry(key: Bytes, value: Bytes, restart: bool)
      requires |key| < 0x1_0000_0000 && |value| < 0x1_0000_0000
      modifies this`buffer, this`lastKey
      ensures buffer == old(buffer) + EntryBytes(old(lastKey), Item(key, value, restart))
      ensures lastKey == key
    {
      var shared := 0;
      if !restart {
        shared := SharedPrefix(lastKey, key);
      }
      var nonShared := |key| - shared;
      EntryRegrouped(buffer, lastKey, Item(key, value, restart), shared);
      buffer := PutVarint32(buffer, shared);
      buffer := PutVarint32(buffer, nonShared);
      buffer := PutVarint32(buffer, |value|);
      buffer := buffer + key[shared..];
      buffer := buffer + value;
      lastKey := lastKey[..shared] + key[shared..];
    }

    method Finish() returns (contents: Bytes)
      requires Valid() && !finished
      modifies this`buffer, this`finished
      ensures Valid() && finished
      ensures Encodes(contents, xs, marks) && |contents| == old(CurrentSizeEstimate())
    {
      ghost var data := buffer;
      for i := 0 to |restarts|
        invariant buffer == data + Words(restarts[..i])
      {
        buffer := buffer + Fixed32(Truncate(restarts[i]));
        assert restarts[..i + 1][..i] == restarts[..i];
      }
      assert restarts[..|restarts|] == restarts;
      buffer := buffer + Fixed32(Truncate(|restarts|));
      finished := true;
      return buffer;
    }

    method SharedPrefix(a: Bytes, b: Bytes) returns (shared: nat)
      ensures shared == Common(a, b)
    {
      var minLength := if |a| < |b| then |a| else |b|;
      shared := 0;
      while shared < minLength && a[shared] == b[shared]
        invariant shared <= minLength && a[..shared] == b[..shared]
      {
        shared := shared + 1;
      }
      CommonUnique(a, b, shared);
    }
  }
}
