/** The hash table of a cache shard (util/cache.cc): chains threaded through the handles. */
module HandleTables {
  import opened Keys
  import opened LogFormat

  /** LRUHandle: one object serves the hash chain, the two lists and the reference count. */
  class Handle {
    const key: Bytes
    const hash: Word
    const charge: nat
    var nextHash: Handle?
    var next: Handle?
    var prev: Handle?
    var inCache: bool
    var refs: nat
    /** How many references clients of the cache hold. */
    ghost var clients: nat

    constructor (key: Bytes, hash: Word, charge: nat)
      ensures this.key == key && this.hash == hash && this.charge == charge
      ensures nextHash == null && next == null && prev == null && !inCache && refs == 1 && clients == 1
    {
      this.key, this.hash, this.charge := key, hash, charge;
      nextHash, next, prev, inCache, refs, clients := null, null, null, false, 1, 1;
    }

    predicate Is(key: Bytes, hash: Word) {
      this.hash == hash && this.key == key
    }
  }

  function At(chain: seq<Handle>, i: nat): Handle? {
    if i < |chain| then chain[i] else null
  }

  ghost predicate LinkAt(chain: seq<Handle>, i: nat)
    requires i < |chain|
    reads {chain[i]}`nextHash
  {
    chain[i].nextHash == At(chain, i + 1)
  }

  /** The chain that starts at a slot. */
  ghost predicate Chain(slot: Handle?, chain: seq<Handle>)
    reads chain`nextHash
  {
    slot == At(chain, 0) && forall i {:trigger LinkAt(chain, i)} :: 0 <= i < |chain| ==> LinkAt(chain, i)
  }

  /** No two handles of a chain have the same key and hash. */
  ghost predicate Different(chain: seq<Handle>) {
    forall i, j :: 0 <= i < j < |chain| ==> chain[i] != chain[j] && !chain[i].Is(chain[j].key, chain[j].hash)
  }

  ghost predicate InBucket(chain: seq<Handle>, length: nat, b: nat)
    requires length > 0
  {
    forall i :: 0 <= i < |chain| ==> chain[i].hash % length == b
  }

  /** The chains hold exactly the entries. */
  ghost predicate Partition(chains: seq<seq<Handle>>, entries: set<Handle>) {
    && |chains| > 0
    && (forall b {:trigger InBucket(chains[b], |chains|, b)} :: 0 <= b < |chains| ==>
          InBucket(chains[b], |chains|, b) && Different(chains[b]))
    && (forall b, h :: 0 <= b < |chains| && h in chains[b] ==> h in entries)
    && (forall h :: h in entries ==> h in chains[h.hash % |chains|])
  }

  /** The entry of a key, if there is one. */
  ghost predicate IsEntry(entries: set<Handle>, key: Bytes, hash: Word, h: Handle?) {
    if h == null then forall e :: e in entries ==> !e.Is(key, hash)
    else h in entries && h.Is(key, hash)
  }

  function Without(entries: set<Handle>, h: Handle?): set<Handle> {
    if h == null then entries else entries - {h}
  }

  lemma Exchanged(entries: set<Handle>, previous: Handle?, h: Handle)
    requires h !in entries && (previous != null ==> previous in entries)
    ensures |Without(entries, previous) + {h}| == |entries| + if previous == null then 1 else 0
  {
    if previous != null {
      assert |entries - {previous}| == |entries| - 1;
    }
  }

  /** Bucket counts are powers of two. */
  predicate PowerOfTwo(n: nat) {
    n == 1 || (n > 0 && n % 2 == 0 && PowerOfTwo(n / 2))
  }

  /** Bitwise and. */
  function And(a: nat, b: nat): nat
    decreases a
  {
    if a == 0 || b == 0 then 0 else (a % 2) * (b % 2) + 2 * And(a / 2, b / 2)
  }

  /** Masking with a power of two less one takes the remainder. */
  lemma {:induction false} MaskIsRemainder(a: nat, n: nat)
    requires PowerOfTwo(n)
    decreases a
    ensures And(a, n - 1) == a % n
  {
    if a != 0 && n != 1 {
      assert (n - 1) / 2 == n / 2 - 1 && (n - 1) % 2 == 1;
      if n == 2 {
        assert And(a / 2, 0) == 0;
      } else {
        MaskIsRemainder(a / 2, n / 2);
        HalfRemainder(a, n / 2);
      }
    }
  }

  lemma HalfRemainder(a: nat, m: nat)
    requires m > 0
    ensures a % (2 * m) == a % 2 + 2 * (a / 2 % m)
  {
    var q, r := a / 2 / m, a / 2 % m;
    assert a / 2 == q * m + r;
    assert a == 2 * m * q + (2 * r + a % 2) by {
      assert a == 2 * (a / 2) + a % 2;
    }
    Remainder(a, 2 * m, q, 2 * r + a % 2);
  }

  lemma Remainder(a: nat, n: nat, q: nat, r: nat)
    requires a == n * q + r && r < n
    ensures a % n == r
  {
    var k := q - a / n;
    assert n * k == n * q - n * (a / n);
    AtLeastOnce(n, k);
  }

  lemma AtLeastOnce(n: nat, k: int)
    ensures k >= 1 ==> n * k >= n
    ensures k <= -1 ==> n * k + n <= 0
  {}

  /** Where a handle is referred to: by its bucket or by the handle before it. */
  datatype Slot = Bucket(i: nat) | NextOf(h: Handle)

  /** The first power of two from four on that is enough. */
  method EnoughBuckets(elems: nat) returns (n: nat)
    ensures n >= 4 && PowerOfTwo(n) && elems <= n
  {
    n := 4;
    while n < elems
      invariant n >= 4 && PowerOfTwo(n)
    {
      n := n * 2;
    }
  }

  class HandleTable {
    var length: nat
    var elems: nat
    var list: array<Handle?>
    ghost var chains: seq<seq<Handle>>
    ghost var entries: set<Handle>

    ghost predicate Valid()
      reads this, list, entries`nextHash
    {
      && length == list.Length == |chains| && elems == |entries| && PowerOfTwo(length)
      && Partition(chains, entries)
      && (forall b {:trigger Linked(b)} :: 0 <= b < length ==> Linked(b))
    }

    ghost predicate Linked(b: nat)
      requires b < list.Length && b < |chains|
      reads this`list, this`chains, list, chains[b]`nextHash
    {
      Chain(list[b], chains[b])
    }

    function Deref(slot: Slot): Handle?
      requires slot.Bucket? ==> slot.i < list.Length
      reads this`list, list, if slot.NextOf? then {slot.h} else {}
    {
      match slot
      case Bucket(i) => list[i]
      case NextOf(h) => h.nextHash
    }

    /** FindPointer: the slot that holds the key's entry, or the empty one at the end of its chain. */
    method FindPointer(key: Bytes, hash: Word) returns (slot: Slot, ghost p: nat)
      requires Valid()
      ensures var chain := chains[hash % length];
        && p <= |chain| && slot == SlotAt(hash % length, chain, p)
        && (slot.Bucket? ==> slot.i < list.Length) && Deref(slot) == At(chain, p)
        && (p < |chain| ==> chain[p].Is(key, hash))
        && (forall i :: 0 <= i < p ==> !chain[i].Is(key, hash))
    {
      ghost var chain := chains[hash % length];
      assert Linked(hash % length);
      MaskIsRemainder(hash, length);
      var i := And(hash, length - 1);
      slot, p := Bucket(i), 0;
      var h := list[i];
      while h != null && !h.Is(key, hash)
        invariant p <= |chain| && slot == SlotAt(hash % length, chain, p) && h == At(chain, p) == Deref(slot)
        invariant forall i :: 0 <= i < p ==> !chain[i].Is(key, hash)
        decreases |chain| - p
      {
        assert LinkAt(chain, p);
        slot := NextOf(h);
        h := h.nextHash;
        p := p + 1;
      }
    }

    method Lookup(key: Bytes, hash: Word) returns (h: Handle?)
      requires Valid()
      ensures IsEntry(entries, key, hash, h)
    {
      var slot;
      ghost var p;
      slot, p := FindPointer(key, hash);
      h := Deref(slot);
      FoundIsEntry(chains, entries, key, hash, p);
    }

    /** The stores of Insert: every chain but one stays. */
    method PutLinks(slot: Slot, h: Handle, ghost b: nat, ghost p: nat) returns (previous: Handle?)
      requires Valid() && h !in entries && b < length && p <= |chains[b]|
      requires slot == SlotAt(b, chains[b], p)
      modifies list, h`nextHash, entries`nextHash
      ensures previous == At(chains[b], p)
      ensures forall c :: 0 <= c < length && c != b ==> Chain(list[c], chains[c])
      ensures Chain(list[b], Placed(chains[b], p, h))
    {
      assert Linked(b);
      assert p > 0 ==> LinkAt(chains[b], p - 1);
      assert p < |chains[b]| ==> LinkAt(chains[b], p);
      OtherHandles(chains, entries, b, p);
      previous := Deref(slot);
      h.nextHash := if previous == null then null else previous.nextHash;
      Store(slot, h);
      ghost var put := Placed(chains[b], p, h);
      forall i | 0 <= i < |put| ensures LinkAt(put, i) {
        assert i < |chains[b]| ==> old(LinkAt(chains[b], i));
      }
      forall c | 0 <= c < length && c != b ensures Chain(list[c], chains[c]) {
        assert old(Linked(c));
        forall i | 0 <= i < |chains[c]| ensures LinkAt(chains[c], i) {
          assert old(LinkAt(chains[c], i));
        }
      }
    }

    /** Insert up to the resizing: the handle takes over the slot of its key's entry, or the end of
        the chain. */
    method Link(h: Handle) returns (previous: Handle?)
      requires Valid() && h !in entries
      modifies this`elems, this`chains, this`entries, list, h`nextHash, entries`nextHash
      ensures Valid() && list == old(list) && length == old(length)
      ensures entries == Without(old(entries), previous) + {h}
      ensures IsEntry(old(entries), h.key, h.hash, previous)
    {
      var slot;
      ghost var p;
      slot, p := FindPointer(h.key, h.hash);
      ghost var b := h.hash % length;
      FoundIsEntry(chains, entries, h.key, h.hash, p);
      PutPartition(chains, entries, h, p);
      Exchanged(entries, At(chains[b], p), h);
      previous := PutLinks(slot, h, b, p);
      Count(if previous == null then elems + 1 else elems, b, Placed(chains[b], p, h),
            Without(entries, previous) + {h});
    }

    /** The element count, and what the changed chain now holds. */
    method Count(n: nat, ghost b: nat, ghost chain: seq<Handle>, ghost now: set<Handle>)
      requires length == list.Length == |chains| && b < length && n == |now| && PowerOfTwo(length)
      requires Partition(chains[b := chain], now)
      requires (forall c :: 0 <= c < length && c != b ==> Chain(list[c], chains[c])) && Chain(list[b], chain)
      modifies this`elems, this`chains, this`entries
      ensures Valid() && entries == now
    {
      elems := n;
      chains := chains[b := chain];
      entries := now;
      forall c | 0 <= c < length ensures Linked(c) {}
    }

    /** The stores of Remove. */
    method CutLinks(slot: Slot, result: Handle, ghost b: nat, ghost p: nat)
      requires Valid() && b < length && p < |chains[b]| && slot == SlotAt(b, chains[b], p) && result == chains[b][p]
      modifies list, entries`nextHash
      ensures forall c :: 0 <= c < length && c != b ==> Chain(list[c], chains[c])
      ensures Chain(list[b], Cut(chains[b], p))
    {
      assert Linked(b);
      assert p > 0 ==> LinkAt(chains[b], p - 1);
      assert LinkAt(chains[b], p);
      OtherHandles(chains, entries, b, p);
      Store(slot, result.nextHash);
      ghost var chain, cut := chains[b], Cut(chains[b], p);
      forall i | 0 <= i < |cut| ensures LinkAt(cut, i) {
        assert old(LinkAt(chain, i)) && old(LinkAt(chain, i + 1));
        assert cut[i] == chain[if i < p then i else i + 1];
        assert At(cut, i + 1) == At(chain, if i + 1 < p then i + 1 else i + 2);
      }
      forall c | 0 <= c < length && c != b ensures Chain(list[c], chains[c]) {
        assert old(Linked(c));
        forall i | 0 <= i < |chains[c]| ensures LinkAt(chains[c], i) {
          assert old(LinkAt(chains[c], i));
        }
      }
    }

    method Remove(key: Bytes, hash: Word) returns (result: Handle?)
      requires Valid()
      modifies this`elems, this`chains, this`entries, list, entries`nextHash
      ensures Valid() && list == old(list) && IsEntry(old(entries), key, hash, result)
      ensures entries == Without(old(entries), result)
    {
      var slot;
      ghost var p;
      slot, p := FindPointer(key, hash);
      FoundIsEntry(chains, entries, key, hash, p);
      result := Deref(slot);
      if result != null {
        ghost var b := hash % length;
        CutPartition(chains, entries, b, p);
        CutLinks(slot, result, b, p);
        Count(elems - 1, b, Cut(chains[b], p), entries - {result});
      }
    }

    constructor ()
      ensures Valid() && entries == {} && fresh(list)
    {
      length, elems := 4, 0;
      list := new Handle?[4](_ => null);
      chains, entries := [[], [], [], []], {};
      new;
      forall b | 0 <= b < 4 ensures InBucket(chains[b], 4, b) {}
      forall b | 0 <= b < 4 ensures Linked(b) {}
    }

    /** Insert. */
    method Insert(h: Handle) returns (previous: Handle?)
      requires Valid() && h !in entries
      modifies this, list, h`nextHash, entries`nextHash
      ensures Valid() && (list == old(list) || fresh(list))
      ensures entries == Without(old(entries), previous) + {h}
      ensures IsEntry(old(entries), h.key, h.hash, previous)
      ensures previous == null ==> elems <= length
    {
      previous := Link(h);
      if previous == null && elems > length {
        Resize();
      }
    }

    /** Resize: the handles move over to a new bucket array, one at a time. */
    method Resize()
      requires Valid()
      modifies this`length, this`list, this`chains, entries`nextHash
      ensures Valid() && fresh(list) && elems <= length
    {
      var newLength := EnoughBuckets(elems);
      var newList := new Handle?[newLength](_ => null);
      ghost var newChains := EmptyChains(newLength);
      newChains := MoveAll(newList, newChains);
      Adopt(newList, newChains);
    }

    method Adopt(newList: array<Handle?>, ghost newChains: seq<seq<Handle>>)
      requires elems == |entries| && Moving(newList, newChains, entries)
      modifies this`length, this`list, this`chains
      ensures Valid() && list == newList && length == newList.Length
    {
      list, length, chains := newList, newList.Length, newChains;
      forall b | 0 <= b < length ensures Linked(b) {
        assert Chain(newList[b], newChains[b]);
      }
    }

    /** The outer loop of Resize. */
    method MoveAll(newList: array<Handle?>, ghost newChains: seq<seq<Handle>>) returns (ghost chains2: seq<seq<Handle>>)
      requires Valid() && newList != list && Moving(newList, newChains, {})
      modifies newList, entries`nextHash
      ensures Moving(newList, chains2, entries)
    {
      chains2 := newChains;
      ghost var moved: set<Handle> := {};
      for i := 0 to length
        invariant Moving(newList, chains2, moved) && moved <= entries && Untouched(i, moved)
      {
        chains2, moved := MoveChain(i, newList, chains2, moved);
      }
      assert moved == entries;
    }

    /** The old table, whose chains are being taken apart. */
    ghost predicate OldTable()
      reads this
    {
      length == list.Length == |chains| && elems == |entries| && Partition(chains, entries)
    }

    /** Buckets from i on still have their chains; the handles of those before have moved. */
    ghost predicate Untouched(i: nat, moved: set<Handle>)
      requires OldTable()
      reads this, list, entries`nextHash
    {
      && (forall b {:trigger Linked(b)} :: i <= b < length ==> Linked(b))
      && (forall h :: h in entries ==> (h in moved <==> h.hash % length < i))
    }

    /** The inner loop of Resize: one bucket's handles, each to the front of its new chain. */
    method MoveChain(i: nat, newList: array<Handle?>, ghost newChains: seq<seq<Handle>>, ghost moved: set<Handle>)
      returns (ghost chains2: seq<seq<Handle>>, ghost moved2: set<Handle>)
      requires OldTable() && i < length && newList != list
      requires Moving(newList, newChains, moved) && moved <= entries && Untouched(i, moved)
      modifies newList, entries`nextHash
      ensures Moving(newList, chains2, moved2) && moved2 <= entries && Untouched(i + 1, moved2)
    {
      ghost var chain := chains[i];
      chains2, moved2 := newChains, moved;
      assert Linked(i) && moved == MovedSet(chains, entries, i, 0);
      var h := list[i];
      ghost var q := 0;
      while h != null
        invariant q <= |chain| && h == At(chain, q) && moved2 == MovedSet(chains, entries, i, q)
        invariant forall k {:trigger LinkAt(chain, k)} :: q <= k < |chain| ==> LinkAt(chain, k)
        invariant forall b {:trigger Linked(b)} :: i < b < length ==> Linked(b)
        invariant Moving(newList, chains2, moved2)
        decreases |chain| - q
      {
        assert LinkAt(chain, q);
        var next := h.nextHash;
        OneMoreMoved(chains, entries, i, q);
        chains2 := MoveOneOf(i, h, newList, chains2, moved2);
        q := q + 1;
        moved2 := MovedSet(chains, entries, i, q);
        h := next;
      }
      AllOfChainMoved(chains, entries, i);
    }

    /** Moving a handle of bucket i leaves the later buckets alone. */
    method MoveOneOf(i: nat, h: Handle, newList: array<Handle?>, ghost newChains: seq<seq<Handle>>, ghost moved: set<Handle>)
      returns (ghost chains2: seq<seq<Handle>>)
      requires OldTable() && Moving(newList, newChains, moved) && moved <= entries && h in entries && h !in moved
      requires newList != list && h.hash % length == i
      requires forall b {:trigger Linked(b)} :: i < b < length ==> Linked(b)
      modifies newList, h`nextHash
      ensures Moving(newList, chains2, moved + {h})
      ensures forall b {:trigger Linked(b)} :: i < b < length ==> Linked(b)
    {
      chains2 := MoveOne(h, newList, newChains, moved);
      forall b | i < b < length ensures Linked(b) {
        assert old(Linked(b)) && InBucket(chains[b], length, b);
        forall k | 0 <= k < |chains[b]| ensures LinkAt(chains[b], k) {
          assert old(LinkAt(chains[b], k));
        }
      }
    }

    /** One handle to the front of its new chain. */
    method MoveOne(h: Handle, newList: array<Handle?>, ghost newChains: seq<seq<Handle>>, ghost moved: set<Handle>)
      returns (ghost chains2: seq<seq<Handle>>)
      requires OldTable() && Moving(newList, newChains, moved) && moved <= entries && h in entries && h !in moved
      modifies newList, h`nextHash
      ensures Moving(newList, chains2, moved + {h})
    {
      ghost var b := h.hash % newList.Length;
      OnlyOneOfKey(chains, entries, moved, h);
      PrependPartition(newChains, moved, h);
      MaskIsRemainder(h.hash, newList.Length);
      var i := And(h.hash, newList.Length - 1);
      h.nextHash := newList[i];
      newList[i] := h;
      chains2 := newChains[b := [h] + newChains[b]];
      forall c | 0 <= c < newList.Length ensures Chain(newList[c], chains2[c]) {
        assert old(Chain(newList[c], newChains[c]));
        forall k | 0 <= k < |chains2[c]| ensures LinkAt(chains2[c], k) {
          if c != b {
            assert old(LinkAt(newChains[c], k));
          } else if k > 0 {
            assert old(LinkAt(newChains[c], k - 1));
          }
        }
      }
    }

    method Store(slot: Slot, h: Handle?)
      requires slot.Bucket? ==> slot.i < list.Length
      modifies list, (if slot.NextOf? then {slot.h} else {})`nextHash
      ensures slot.Bucket? ==> list[slot.i] == h && (forall i :: 0 <= i < list.Length && i != slot.i ==> list[i] == old(list[i]))
      ensures slot.NextOf? ==> slot.h.nextHash == h && (forall i :: 0 <= i < list.Length ==> list[i] == old(list[i]))
    {
      match slot
      case Bucket(i) => list[i] := h;
      case NextOf(x) => x.nextHash := h;
    }
  }

  ghost function EmptyChains(n: nat): (r: seq<seq<Handle>>)
    requires n > 0
    ensures |r| == n && Partition(r, {}) && forall b :: 0 <= b < n ==> r[b] == []
  {
    var r: seq<seq<Handle>> := seq(n, _ => []);
    assert forall b :: 0 <= b < n ==> InBucket(r[b], n, b) && Different(r[b]);
    r
  }

  /** The new bucket array while handles move into it. */
  ghost predicate Moving(newList: array<Handle?>, newChains: seq<seq<Handle>>, moved: set<Handle>)
    reads newList, moved`nextHash
  {
    && newList.Length == |newChains| && PowerOfTwo(newList.Length) && Partition(newChains, moved)
    && forall b {:trigger newChains[b]} :: 0 <= b < newList.Length ==> Chain(newList[b], newChains[b])
  }

  /** The handles of the buckets before i, and the first q of bucket i. */
  ghost function MovedSet(chains: seq<seq<Handle>>, entries: set<Handle>, i: nat, q: nat): set<Handle>
    requires i < |chains| && q <= |chains[i]|
  {
    set x | x in entries && (x.hash % |chains| < i || x in chains[i][..q])
  }

  lemma OneMoreMoved(chains: seq<seq<Handle>>, entries: set<Handle>, i: nat, q: nat)
    requires Partition(chains, entries) && i < |chains| && q < |chains[i]|
    ensures var h := chains[i][q];
      && h in entries && h.hash % |chains| == i && h !in MovedSet(chains, entries, i, q)
      && MovedSet(chains, entries, i, q + 1) == MovedSet(chains, entries, i, q) + {h}
      && forall k :: q < k < |chains[i]| ==> chains[i][k] != h
  {
    var chain := chains[i];
    assert InBucket(chain, |chains|, i) && Different(chain);
    assert chain[..q + 1] == chain[..q] + [chain[q]];
    assert chain[q] in chain;
  }

  lemma AllOfChainMoved(chains: seq<seq<Handle>>, entries: set<Handle>, i: nat)
    requires Partition(chains, entries) && i < |chains|
    ensures forall x :: x in entries ==> (x in MovedSet(chains, entries, i, |chains[i]|) <==> x.hash % |chains| < i + 1)
  {
    assert InBucket(chains[i], |chains|, i);
    assert chains[i][..|chains[i]|] == chains[i];
  }

  /** A key and hash have at most one entry. */
  lemma SameEntry(chains: seq<seq<Handle>>, entries: set<Handle>, x: Handle, h: Handle)
    requires Partition(chains, entries) && x in entries && h in entries && x.Is(h.key, h.hash)
    ensures x == h
  {
    OnlyOneOfKey(chains, entries, entries - {h}, h);
  }

  /** No other entry has the same key and hash. */
  lemma OnlyOneOfKey(chains: seq<seq<Handle>>, entries: set<Handle>, some: set<Handle>, h: Handle)
    requires Partition(chains, entries) && some <= entries && h in entries && h !in some
    ensures forall x :: x in some ==> !x.Is(h.key, h.hash)
  {
    forall x | x in some ensures !x.Is(h.key, h.hash) {
      if x.hash == h.hash {
        var b := h.hash % |chains|;
        assert x in chains[b] && h in chains[b];
        var i :| 0 <= i < |chains[b]| && chains[b][i] == x;
        var j :| 0 <= j < |chains[b]| && chains[b][j] == h;
        assert InBucket(chains[b], |chains|, b) && Different(chains[b]);
      }
    }
  }

  lemma PrependDifferent(chain: seq<Handle>, h: Handle)
    requires Different(chain) && h !in chain && forall x :: x in chain ==> !x.Is(h.key, h.hash)
    ensures Different([h] + chain)
    ensures forall x :: x in [h] + chain <==> x == h || x in chain
  {
    var t := [h] + chain;
    assert forall k :: 0 < k < |t| ==> t[k] == chain[k - 1] && t[k] in chain;
  }

  lemma PrependPartition(chains: seq<seq<Handle>>, entries: set<Handle>, h: Handle)
    requires Partition(chains, entries) && h !in entries && forall x :: x in entries ==> !x.Is(h.key, h.hash)
    ensures var b := h.hash % |chains|; Partition(chains[b := [h] + chains[b]], entries + {h})
  {
    var b := h.hash % |chains|;
    var t := chains[b := [h] + chains[b]];
    assert InBucket(chains[b], |chains|, b);
    PrependDifferent(chains[b], h);
    forall c | 0 <= c < |t| ensures InBucket(t[c], |t|, c) && Different(t[c]) {
      assert InBucket(chains[c], |chains|, c);
    }
    forall x | x in entries + {h} ensures x in t[x.hash % |t|] {
      assert x != h ==> x in chains[x.hash % |chains|];
    }
  }

  // ----- Changing one chain -----

  /** The handle before position p of chain b is nowhere else. */
  lemma OtherHandles(chains: seq<seq<Handle>>, entries: set<Handle>, b: nat, p: nat)
    requires Partition(chains, entries) && b < |chains| && p <= |chains[b]|
    ensures forall c, i :: 0 <= c < |chains| && 0 <= i < |chains[c]| && p > 0 && chains[c][i] == chains[b][p - 1] ==> c == b && i == p - 1
  {
    forall c, i | 0 <= c < |chains| && 0 <= i < |chains[c]| && p > 0 && chains[c][i] == chains[b][p - 1] ensures c == b && i == p - 1 {
      assert InBucket(chains[c], |chains|, c) && InBucket(chains[b], |chains|, b);
    }
  }

  /** The chain after Insert put h at position p: over the old entry, or at the end. */
  function Placed(chain: seq<Handle>, p: nat, h: Handle): (r: seq<Handle>)
    requires p <= |chain|
    ensures |r| == if p < |chain| then |chain| else |chain| + 1
  {
    if p < |chain| then chain[p := h] else chain + [h]
  }

  function Cut(chain: seq<Handle>, p: nat): (r: seq<Handle>)
    requires p < |chain|
    ensures |r| == |chain| - 1
  {
    chain[..p] + chain[p + 1..]
  }

  /** What FindPointer establishes about a chain. */
  ghost predicate FoundAt(chain: seq<Handle>, p: nat, key: Bytes, hash: Word) {
    && p <= |chain| && (p < |chain| ==> chain[p].Is(key, hash))
    && (forall i :: 0 <= i < p ==> !chain[i].Is(key, hash))
  }

  lemma PutPartition(chains: seq<seq<Handle>>, entries: set<Handle>, h: Handle, p: nat)
    requires Partition(chains, entries) && h !in entries && FoundAt(chains[h.hash % |chains|], p, h.key, h.hash)
    ensures var b := h.hash % |chains|; var chain := chains[b];
      Partition(chains[b := Placed(chain, p, h)], Without(entries, At(chain, p)) + {h})
  {
    var b := h.hash % |chains|;
    var chain := chains[b];
    var put := Placed(chain, p, h);
    var t, e := chains[b := put], Without(entries, At(chain, p)) + {h};
    assert InBucket(chain, |chains|, b) && Different(chain);
    assert put[p] == h && (forall i :: 0 <= i < |chain| && i != p ==> put[i] == chain[i]);
    PutDifferent(chain, p, h);
    forall c | 0 <= c < |t| ensures InBucket(t[c], |t|, c) && Different(t[c]) {
      assert InBucket(chains[c], |chains|, c);
    }
    forall x | x in e ensures x in t[x.hash % |t|] {
      if x != h {
        assert x in chains[x.hash % |chains|];
        if x.hash % |chains| == b {
          var k :| 0 <= k < |chain| && chain[k] == x;
          assert put[k] == x;
        }
      }
    }
    forall c, x | 0 <= c < |t| && x in t[c] ensures x in e {
      if c == b {
        var k :| 0 <= k < |put| && put[k] == x;
        assert k != p ==> chain[k] == x && x in chain;
      } else {
        assert x in chains[c] && InBucket(chains[c], |chains|, c);
      }
    }
  }

  lemma PutDifferent(chain: seq<Handle>, p: nat, h: Handle)
    requires Different(chain) && FoundAt(chain, p, h.key, h.hash) && h !in chain
    ensures Different(Placed(chain, p, h))
  {}

  lemma CutMembers(chain: seq<Handle>, p: nat)
    requires Different(chain) && p < |chain|
    ensures Different(Cut(chain, p))
    ensures forall x :: x in Cut(chain, p) ==> x in chain && x != chain[p]
    ensures forall x :: x in chain && x != chain[p] ==> x in Cut(chain, p)
  {
    var cut := Cut(chain, p);
    assert forall i {:trigger cut[i]} :: 0 <= i < |cut| ==> cut[i] == chain[if i < p then i else i + 1];
    forall x | x in chain && x != chain[p] ensures x in cut {
      var k :| 0 <= k < |chain| && chain[k] == x;
      assert cut[if k < p then k else k - 1] == x;
    }
  }

  lemma CutPartition(chains: seq<seq<Handle>>, entries: set<Handle>, b: nat, p: nat)
    requires Partition(chains, entries) && b < |chains| && p < |chains[b]|
    ensures Partition(chains[b := Cut(chains[b], p)], entries - {chains[b][p]})
  {
    var chain, gone := chains[b], chains[b][p];
    var cut := Cut(chain, p);
    var t, e := chains[b := cut], entries - {gone};
    assert InBucket(chain, |chains|, b) && Different(chain);
    CutMembers(chain, p);
    forall i | 0 <= i < |cut| ensures cut[i].hash % |chains| == b {
      assert cut[i] in cut;
    }
    forall c | 0 <= c < |t| ensures InBucket(t[c], |t|, c) && Different(t[c]) {
      assert InBucket(chains[c], |chains|, c);
    }
    forall x | x in e ensures x in t[x.hash % |t|] {
      assert x in chains[x.hash % |chains|];
    }
    forall c, x | 0 <= c < |t| && x in t[c] ensures x in e {
      if c != b {
        assert x in chains[c] && InBucket(chains[c], |chains|, c);
      }
    }
  }

  function SlotAt(b: nat, chain: seq<Handle>, p: nat): Slot
    requires p <= |chain|
  {
    if p == 0 then Bucket(b) else NextOf(chain[p - 1])
  }

  /** A key's entry can only be in the chain of its hash. */
  lemma FoundIsEntry(chains: seq<seq<Handle>>, entries: set<Handle>, key: Bytes, hash: Word, p: nat)
    requires Partition(chains, entries) && p <= |chains[hash % |chains|]|
    requires var chain := chains[hash % |chains|];
      && (p < |chain| ==> chain[p].Is(key, hash)) && (forall i :: 0 <= i < p ==> !chain[i].Is(key, hash))
    ensures var chain := chains[hash % |chains|];
      if p < |chain| then chain[p] in entries else forall e :: e in entries ==> !e.Is(key, hash)
  {}
}
