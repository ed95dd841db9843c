/** One shard of the LRU cache (util/cache.cc): two rings of handles, the hash table, and reference
    counts. */
module LruCaches {
  import opened Keys
  import opened LogFormat
  import opened HandleTables

  // ----- Rings -----

  /** The node at position i of a ring: its head after the last. */
  function NodeAt(head: Handle, items: seq<Handle>, i: nat): Handle {
    if i < |items| then items[i] else head
  }

  function NodeBefore(head: Handle, items: seq<Handle>, i: nat): Handle
    requires i <= |items|
  {
    if i == 0 then head else items[i - 1]
  }

  ghost predicate RingAt(head: Handle, items: seq<Handle>, i: nat)
    requires i < |items|
    reads {items[i]}`next, {items[i]}`prev
  {
    items[i].next == NodeAt(head, items, i + 1) && items[i].prev == NodeBefore(head, items, i)
  }

  ghost predicate Once(items: seq<Handle>) {
    forall i, j :: 0 <= i < j < |items| ==> items[i] != items[j]
  }

  /** next and prev form a circle through the head and the items, oldest first. */
  ghost predicate Ring(head: Handle, items: seq<Handle>)
    reads {head}`next, {head}`prev, items`next, items`prev
  {
    && Once(items) && head !in items
    && head.next == NodeAt(head, items, 0) && head.prev == NodeBefore(head, items, |items|)
    && forall i {:trigger RingAt(head, items, i)} :: 0 <= i < |items| ==> RingAt(head, items, i)
  }

  lemma CutOnce(items: seq<Handle>, p: nat)
    requires Once(items) && p < |items|
    ensures Once(Cut(items, p))
    ensures forall x :: x in Cut(items, p) <==> x in items && x != items[p]
  {
    var cut := Cut(items, p);
    assert forall i {:trigger cut[i]} :: 0 <= i < |cut| ==> cut[i] == items[if i < p then i else i + 1];
    forall x | x in items && x != items[p] ensures x in cut {
      var k :| 0 <= k < |items| && items[k] == x;
      assert cut[if k < p then k else k - 1] == x;
    }
  }

  /** Two rings that share nothing. */
  ghost predicate Apart(head: Handle, items: seq<Handle>, otherHead: Handle, other: seq<Handle>) {
    && head != otherHead && head !in other && otherHead !in items
    && forall i :: 0 <= i < |other| ==> other[i] !in items
  }

  lemma ApartCut(head: Handle, items: seq<Handle>, otherHead: Handle, other: seq<Handle>, p: nat)
    requires Once(items) && p < |items| && Apart(head, items, otherHead, other)
    ensures Apart(head, Cut(items, p), otherHead, other) && Apart(otherHead, other, head, Cut(items, p))
    ensures Apart(otherHead, other, head, items)
  {
    CutOnce(items, p);
    var cut := Cut(items, p);
    forall i | 0 <= i < |cut| ensures cut[i] !in other {
      assert cut[i] in cut;
    }
  }

  /** LRU_Remove, which leaves another ring alone. */
  method RingRemove(e: Handle, ghost head: Handle, ghost items: seq<Handle>, ghost p: nat, ghost otherHead: Handle, ghost other: seq<Handle>)
    requires Ring(head, items) && p < |items| && items[p] == e
    requires Ring(otherHead, other) && Apart(head, items, otherHead, other)
    modifies {head}`next, {head}`prev, items`next, items`prev
    ensures Ring(head, Cut(items, p)) && Ring(otherHead, other)
  {
    assert RingAt(head, items, p);
    assert p > 0 ==> RingAt(head, items, p - 1);
    assert p + 1 < |items| ==> RingAt(head, items, p + 1);
    CutOnce(items, p);
    e.next.prev := e.prev;
    e.prev.next := e.next;
    ghost var cut := Cut(items, p);
    forall i | 0 <= i < |cut| ensures RingAt(head, cut, i) {
      ghost var k := if i < p then i else i + 1;
      assert cut[i] == items[k];
      assert old(RingAt(head, items, k));
    }
    forall i | 0 <= i < |other| ensures RingAt(otherHead, other, i) {
      assert old(RingAt(otherHead, other, i));
    }
  }

  /** LRU_Append: just before the head, as the newest. */
  method RingAppend(head: Handle, e: Handle, ghost items: seq<Handle>, ghost otherHead: Handle, ghost other: seq<Handle>)
    requires Ring(head, items) && e !in items && e != head
    requires Ring(otherHead, other) && Apart(head, items, otherHead, other) && e != otherHead && e !in other
    modifies {head, e}`next, {head, e}`prev, items`next, items`prev
    ensures Ring(head, items + [e]) && Ring(otherHead, other)
  {
    ghost var n := |items|;
    assert n > 0 ==> RingAt(head, items, n - 1);
    e.next := head;
    e.prev := head.prev;
    e.prev.next := e;
    e.next.prev := e;
    ghost var more := items + [e];
    forall i | 0 <= i < |more| ensures RingAt(head, more, i) {
      assert i < n ==> old(RingAt(head, items, i));
    }
    forall i | 0 <= i < |other| ensures RingAt(otherHead, other, i) {
      assert old(RingAt(otherHead, other, i));
    }
  }

  /** Position of a handle on a ring. */
  ghost function Place(items: seq<Handle>, e: Handle): (p: nat)
    requires e in items
    ensures p < |items| && items[p] == e
  {
    var k :| 0 <= k < |items| && items[k] == e;
    k
  }

  /** A ring without a handle that may be on it. */
  ghost function Dropped(items: seq<Handle>, e: Handle?): seq<Handle> {
    if e != null && e in items then Cut(items, Place(items, e)) else items
  }

  /** The lists of a cache. */
  datatype Lists = Lists(lru: seq<Handle>, inUse: seq<Handle>, live: set<Handle>, deleted: seq<Handle>, usage: int)

  /** A handle that may be there leaves the cache; if nobody uses it, it is deleted. */
  ghost function Excluding(v: Lists, h: Handle?): Lists {
    if h == null then v
    else Lists(Dropped(v.lru, h), Dropped(v.inUse, h), if h in v.lru then v.live - {h} else v.live,
              if h in v.lru then v.deleted + [h] else v.deleted, v.usage - h.charge)
  }

  /** A new handle; with capacity it becomes the newest in use. */
  function Including(v: Lists, e: Handle, capacity: nat): Lists {
    if capacity > 0 then Lists(v.lru, v.inUse + [e], v.live + {e}, v.deleted, v.usage + e.charge)
    else v.(live := v.live + {e})
  }

  lemma IncludeThenExclude(v: Lists, e: Handle, h: Handle?, capacity: nat)
    requires Once(v.inUse + [e]) && e != h && capacity > 0
    ensures Excluding(Including(v, e, capacity), h) == Including(Excluding(v, h), e, capacity)
  {
    DroppedAppend(v.inUse, e, h);
  }

  lemma DroppedAppend(items: seq<Handle>, e: Handle, h: Handle?)
    requires Once(items + [e]) && e != h
    ensures Dropped(items + [e], h) == Dropped(items, h) + [e]
  {
    if h != null && h in items {
      var p := Place(items, h);
      assert (items + [e])[p] == h;
      assert Place(items + [e], h) == p;
    }
  }

  lemma NotDropped(items: seq<Handle>, h: Handle?, e: Handle)
    requires Once(items) && e !in items
    ensures e !in Dropped(items, h)
  {
    if h != null && h in items {
      CutOnce(items, Place(items, h));
    }
  }

  lemma NotDroppedOther(items: seq<Handle>, h: Handle, e: Handle)
    requires Once(items) && e in items && e != h
    ensures e in Dropped(items, h)
  {
    if h in items {
      CutOnce(items, Place(items, h));
    }
  }

  // ----- Charges -----

  function Charge(items: seq<Handle>, n: nat): nat
    requires n <= |items|
  {
    if n == 0 then 0 else Charge(items, n - 1) + items[n - 1].charge
  }

  function Total(items: seq<Handle>): nat { Charge(items, |items|) }

  lemma {:induction false} ChargePrefix(a: seq<Handle>, b: seq<Handle>, n: nat)
    requires n <= |a| && n <= |b| && forall i :: 0 <= i < n ==> a[i] == b[i]
    ensures Charge(a, n) == Charge(b, n)
  {
    if n > 0 {
      ChargePrefix(a, b, n - 1);
    }
  }

  lemma TotalAppend(items: seq<Handle>, e: Handle)
    ensures Total(items + [e]) == Total(items) + e.charge
  {
    ChargePrefix(items + [e], items, |items|);
  }

  lemma {:induction false} TotalAdds(a: seq<Handle>, b: seq<Handle>)
    ensures Total(a + b) == Total(a) + Total(b)
    ensures |a| == 1 ==> Total(a) == a[0].charge
    decreases b
  {
    assert |a| == 1 ==> Charge(a, 1) == Charge(a, 0) + a[0].charge;
    if b == [] {
      assert a + b == a;
    } else {
      var init, last := b[..|b| - 1], b[|b| - 1];
      TotalAdds(a, init);
      assert a + b == (a + init) + [last] && b == init + [last];
      TotalAppend(a + init, last);
      TotalAppend(init, last);
    }
  }

  lemma {:induction false} TotalCut(items: seq<Handle>, p: nat)
    requires p < |items|
    ensures Total(Cut(items, p)) + items[p].charge == Total(items)
    decreases |items|
  {
    var n := |items| - 1;
    if p == n {
      assert Cut(items, p) == items[..n];
      ChargePrefix(items[..n], items, n);
    } else {
      var front, last := items[..n], items[n];
      TotalCut(front, p);
      assert Cut(items, p) == Cut(front, p) + [last];
      TotalAppend(Cut(front, p), last);
      ChargePrefix(front, items, n);
    }
  }

  // ----- The cache -----

  class LRUCache {
    var capacity: nat
    var usage: nat
    const lruHead: Handle
    const inUseHead: Handle
    const table: HandleTable
    /** The two rings; the handles not yet deleted; and those given to their deleters, in order. */
    ghost var lru: seq<Handle>
    ghost var inUse: seq<Handle>
    ghost var live: set<Handle>
    ghost var deleted: seq<Handle>

    ghost function View(): Lists
      reads this
    {
      Lists(lru, inUse, live, deleted, usage)
    }

    ghost predicate RingsOk()
      reads this, {lruHead, inUseHead}`next, {lruHead, inUseHead}`prev, lru`next, lru`prev, inUse`next, inUse`prev
    {
      Ring(lruHead, lru) && Ring(inUseHead, inUse) && Apart(lruHead, lru, inUseHead, inUse)
    }

    ghost predicate Cached(h: Handle)
      reads this
    {
      h in lru || h in inUse
    }

    /** A handle counts its clients and the cache; those without clients are on the LRU ring. */
    ghost predicate CountOk(h: Handle)
      reads this, {h}`refs, {h}`clients, {h}`inCache
    {
      && h.refs == h.clients + (if h.inCache then 1 else 0) && h.refs >= 1
      && (h.inCache <==> Cached(h)) && (h in lru ==> h.clients == 0) && (h in inUse ==> h.clients >= 1)
    }

    /** Everything but the table. */
    ghost predicate ListsOk()
      reads this, {lruHead, inUseHead}, live, lru`next, lru`prev, inUse`next, inUse`prev
    {
      PlacesOk() && forall h {:trigger CountOk(h)} :: h in live ==> CountOk(h)
    }

    /** The table holds exactly the handles on the two rings, but for one just taken out of it. */
    ghost predicate TableOk(gone: Handle?)
      reads this, table, table.list, live, table.entries`nextHash
    {
      && table.Valid() && table.entries <= live
      && (forall h :: h in live ==> (Cached(h) <==> h in table.entries || h == gone))
      && (gone != null ==> gone in live && gone !in table.entries)
    }

    ghost predicate Valid()
      reads this, {lruHead, inUseHead}, live, table, table.list, lru`next, lru`prev, inUse`next, inUse`prev, table.entries`nextHash
    {
      ListsOk() && TableOk(null)
    }

    constructor (capacity: nat)
      ensures Valid() && this.capacity == capacity && lru == [] && inUse == [] && live == {} && deleted == []
      ensures fresh(lruHead) && fresh(inUseHead) && fresh(table) && fresh(table.list)
    {
      this.capacity, usage := capacity, 0;
      var a := new Handle([], 0, 0);
      var b := new Handle([], 0, 0);
      a.next, a.prev, b.next, b.prev := a, a, b, b;
      lruHead, inUseHead := a, b;
      table := new HandleTable();
      lru, inUse, live, deleted := [], [], {}, [];
    }

    /** From one ring to the end of the other, as Ref and Unref do. */
    method MoveToLru(e: Handle, ghost p: nat)
      requires RingsOk() && p < |inUse| && inUse[p] == e
      modifies this`lru, this`inUse, {lruHead, inUseHead}`next, {lruHead, inUseHead}`prev, lru`next, lru`prev, inUse`next, inUse`prev
      ensures RingsOk() && lru == old(lru) + [e] && inUse == Cut(old(inUse), p)
    {
      CutOnce(inUse, p);
      RingRemove(e, inUseHead, inUse, p, lruHead, lru);
      inUse := Cut(inUse, p);
      RingAppend(lruHead, e, lru, inUseHead, inUse);
      lru := lru + [e];
    }

    method MoveToInUse(e: Handle, ghost p: nat)
      requires RingsOk() && p < |lru| && lru[p] == e
      modifies this`lru, this`inUse, {lruHead, inUseHead}`next, {lruHead, inUseHead}`prev, lru`next, lru`prev, inUse`next, inUse`prev
      ensures RingsOk() && inUse == old(inUse) + [e] && lru == Cut(old(lru), p)
    {
      CutOnce(lru, p);
      RingRemove(e, lruHead, lru, p, inUseHead, inUse);
      lru := Cut(lru, p);
      RingAppend(inUseHead, e, inUse, lruHead, lru);
      inUse := inUse + [e];
    }

    /** Ref's move to the in-use ring, if the handle was on the other. */
    method StartUse(e: Handle)
      requires RingsOk() && usage == Total(lru) + Total(inUse) && Cached(e) && (e in lru <==> e.refs == 1 && e.inCache)
      modifies this`lru, this`inUse, {lruHead, inUseHead}`next, {lruHead, inUseHead}`prev, lru`next, lru`prev, inUse`next, inUse`prev
      ensures RingsOk() && usage == Total(lru) + Total(inUse)
      ensures if e in old(lru) then lru == Cut(old(lru), Place(old(lru), e)) && inUse == old(inUse) + [e]
        else lru == old(lru) && inUse == old(inUse)
      ensures e in inUse && e !in lru
      ensures forall h :: h != e ==> (h in lru <==> h in old(lru)) && (h in inUse <==> h in old(inUse))
    {
      if e.refs == 1 && e.inCache {
        ghost var p := Place(lru, e);
        TotalCut(lru, p);
        TotalAppend(inUse, e);
        CutOnce(lru, p);
        MoveToInUse(e, p);
      }
    }

    /** Everything but the counts. */
    ghost predicate PlacesOk()
      reads this, {lruHead, inUseHead}, lru`next, lru`prev, inUse`next, inUse`prev
    {
      && lruHead !in live && inUseHead !in live
      && (forall h :: h in lru ==> h in live) && (forall h :: h in inUse ==> h in live)
      && RingsOk()
      && usage == Total(lru) + Total(inUse)
      && Once(deleted) && (forall i :: 0 <= i < |deleted| ==> deleted[i] !in live)
    }

    /** The count of a handle changes to what it should be. */
    method SetRefs(e: Handle, refs: nat)
      requires PlacesOk() && e in live && (forall h {:trigger CountOk(h)} :: h in live && h != e ==> CountOk(h))
      requires refs == e.clients + (if e.inCache then 1 else 0) && refs >= 1
      requires (e.inCache <==> Cached(e)) && (e in lru ==> e.clients == 0) && (e in inUse ==> e.clients >= 1)
      modifies e`refs
      ensures ListsOk() && e.refs == refs
    {
      e.refs := refs;
      forall h | h in live ensures CountOk(h) {
        assert h != e ==> old(CountOk(h));
      }
    }

    /** Ref, for one more client. */
    method Ref(e: Handle)
      requires ListsOk() && Cached(e)
      modifies this`lru, this`inUse, e`refs, e`clients
      modifies {lruHead, inUseHead}`next, {lruHead, inUseHead}`prev, live`next, live`prev
      ensures ListsOk() && e.clients == old(e.clients) + 1
      ensures if e in old(lru) then lru == Cut(old(lru), Place(old(lru), e)) && inUse == old(inUse) + [e]
        else lru == old(lru) && inUse == old(inUse)
      ensures forall h :: h in live ==> (Cached(h) <==> old(Cached(h)))
    {
      assert CountOk(e);
      StartUse(e);
      e.clients := e.clients + 1;
      forall h | h in live && h != e ensures CountOk(h) {
        assert old(CountOk(h));
      }
      SetRefs(e, e.refs + 1);
    }
  
    /** The handle's count is one too high: what Unref finds. */
    ghost predicate Overcounted(e: Handle)
      reads this, {lruHead, inUseHead}, live, lru`next, lru`prev, inUse`next, inUse`prev
    {
      && PlacesOk() && e in live && (forall h {:trigger CountOk(h)} :: h in live && h != e ==> CountOk(h))
      && e.refs == e.clients + (if e.inCache then 2 else 1)
      && (e.inCache <==> Cached(e)) && e !in lru
    }

    /** Unref: the last reference gone, the handle goes to its deleter; the last client gone, it
        becomes the newest on the LRU ring. */
    method Unref(e: Handle)
      requires Overcounted(e)
      modifies this`lru, this`inUse, this`live, this`deleted, e`refs
      modifies {lruHead, inUseHead}`next, {lruHead, inUseHead}`prev, live`next, live`prev
      ensures ListsOk()
      ensures if e.clients == 0 && !e.inCache then live == old(live) - {e} && deleted == old(deleted) + [e]
        else live == old(live) && deleted == old(deleted)
      ensures if e.clients == 0 && e in old(inUse) then lru == old(lru) + [e] && inUse == Cut(old(inUse), Place(old(inUse), e))
        else lru == old(lru) && inUse == old(inUse)
      ensures forall h :: h in live ==> (Cached(h) <==> old(Cached(h)))
    {
      var refs := e.refs - 1;
      if refs == 0 {
        Delete(e);
      } else {
        if e.inCache && refs == 1 {
          EndUse(e);
          forall h | h in live && h != e ensures CountOk(h) {
            assert old(CountOk(h));
          }
        }
        SetRefs(e, refs);
      }
    }

    /** The deleter runs. */
    method Delete(e: Handle)
      requires Overcounted(e) && e.refs == 1 && !e.inCache
      modifies this`live, this`deleted, e`refs
      ensures ListsOk() && live == old(live) - {e} && deleted == old(deleted) + [e]
    {
      e.refs := 0;
      live := live - {e};
      deleted := deleted + [e];
      forall h | h in live ensures CountOk(h) {
        assert old(CountOk(h));
      }
    }

    method EndUse(e: Handle)
      requires RingsOk() && usage == Total(lru) + Total(inUse) && e in inUse
      modifies this`lru, this`inUse, {lruHead, inUseHead}`next, {lruHead, inUseHead}`prev, lru`next, lru`prev, inUse`next, inUse`prev
      ensures RingsOk() && usage == Total(lru) + Total(inUse)
      ensures lru == old(lru) + [e] && inUse == Cut(old(inUse), Place(old(inUse), e)) && e !in inUse
      ensures forall h :: h != e ==> (h in lru <==> h in old(lru)) && (h in inUse <==> h in old(inUse))
    {
      ghost var p := Place(inUse, e);
      TotalCut(inUse, p);
      TotalAppend(lru, e);
      CutOnce(inUse, p);
      MoveToLru(e, p);
    }

    method Release(h: Handle)
      requires Valid() && h in live && h.clients >= 1
      modifies this`lru, this`inUse, this`live, this`deleted, h`refs, h`clients
      modifies {lruHead, inUseHead}`next, {lruHead, inUseHead}`prev, live`next, live`prev
      ensures Valid() && h.clients == old(h.clients) - 1
      ensures if h.clients == 0 && !h.inCache then live == old(live) - {h} && deleted == old(deleted) + [h]
        else live == old(live) && deleted == old(deleted)
      ensures if h.clients == 0 && h in old(inUse) then lru == old(lru) + [h] && inUse == Cut(old(inUse), Place(old(inUse), h))
        else lru == old(lru) && inUse == old(inUse)
    {
      assert CountOk(h);
      h.clients := h.clients - 1;
      forall x | x in live && x != h ensures CountOk(x) {
        assert old(CountOk(x));
      }
      Unref(h);
    }
  
    /** LRU_Remove of a handle on either ring. */
    method LeaveRing(e: Handle)
      requires RingsOk() && usage == Total(lru) + Total(inUse) && Cached(e)
      modifies this`lru, this`inUse, this`usage
      modifies {lruHead, inUseHead}`next, {lruHead, inUseHead}`prev, lru`next, lru`prev, inUse`next, inUse`prev
      ensures RingsOk() && usage == Total(lru) + Total(inUse) && usage == old(usage) - e.charge
      ensures lru == (if e in old(lru) then Cut(old(lru), Place(old(lru), e)) else old(lru))
      ensures inUse == (if e in old(lru) then old(inUse) else Cut(old(inUse), Place(old(inUse), e)))
      ensures !Cached(e) && forall h :: h != e ==> (h in lru <==> h in old(lru)) && (h in inUse <==> h in old(inUse))
    {
      ghost var idle := e in lru;
      ghost var items, head := if idle then lru else inUse, if idle then lruHead else inUseHead;
      ghost var other, otherHead := if idle then inUse else lru, if idle then inUseHead else lruHead;
      ghost var p := Place(items, e);
      BothApart();
      ApartCut(head, items, otherHead, other, p);
      CutOnce(items, p);
      TotalCut(items, p);
      RingRemove(e, head, items, p, otherHead, other);
      SetRings(if idle then Cut(items, p) else other, if idle then other else Cut(items, p), usage - e.charge);
    }

    method SetRings(ghost a: seq<Handle>, ghost b: seq<Handle>, n: nat)
      requires Ring(lruHead, a) && Ring(inUseHead, b) && Apart(lruHead, a, inUseHead, b) && n == Total(a) + Total(b)
      modifies this`lru, this`inUse, this`usage
      ensures RingsOk() && lru == a && inUse == b && usage == n
    {
      lru, inUse, usage := a, b, n;
    }

    lemma BothApart()
      requires RingsOk()
      ensures Apart(inUseHead, inUse, lruHead, lru)
    {}

    /** FinishErase of a handle already out of the table. */
    method FinishErase(e: Handle?) returns (erased: bool)
      requires ListsOk() && TableOk(e) && (e != null ==> Cached(e))
      modifies this`lru, this`inUse, this`live, this`deleted, this`usage, live`refs, live`inCache
      modifies {lruHead, inUseHead}`next, {lruHead, inUseHead}`prev, live`next, live`prev
      ensures Valid() && erased == (e != null)
      ensures if e == null then unchanged(this) else Erased(e, old(lru), old(inUse), old(live), old(deleted), old(usage))
    {
      if e != null {
        Finish(e);
      }
      erased := e != null;
    }

    /** The state after a cached handle has left the cache. */
    ghost predicate Erased(e: Handle, lru0: seq<Handle>, inUse0: seq<Handle>, live0: set<Handle>, deleted0: seq<Handle>, usage0: nat)
      reads this, e
    {
      && (e in lru0 || e in inUse0)
      && usage == usage0 - e.charge && !e.inCache
      && lru == (if e in lru0 then Cut(lru0, Place(lru0, e)) else lru0)
      && inUse == (if e in lru0 then inUse0 else Cut(inUse0, Place(inUse0, e)))
      && live == (if e.clients == 0 then live0 - {e} else live0)
      && deleted == (if e.clients == 0 then deleted0 + [e] else deleted0)
    }

    method Finish(e: Handle)
      requires ListsOk() && TableOk(e) && Cached(e)
      modifies this`lru, this`inUse, this`live, this`deleted, this`usage, e`refs, e`inCache
      modifies {lruHead, inUseHead}`next, {lruHead, inUseHead}`prev, live`next, live`prev
      ensures ListsOk() && TableOk(null)
      ensures Erased(e, old(lru), old(inUse), old(live), old(deleted), old(usage))
    {
      FinishLists(e);
    }

    /** What FinishErase does but for the table. */
    method FinishLists(e: Handle)
      requires ListsOk() && Cached(e)
      modifies this`lru, this`inUse, this`live, this`deleted, this`usage, e`refs, e`inCache
      modifies {lruHead, inUseHead}`next, {lruHead, inUseHead}`prev, live`next, live`prev
      ensures ListsOk()
      ensures Erased(e, old(lru), old(inUse), old(live), old(deleted), old(usage))
      ensures forall h :: h in live ==> h in old(live) && (Cached(h) <==> old(Cached(h)) && h != e)
    {
      TakeOut(e);
      Unref(e);
    }

    /** FinishErase up to Unref. */
    method TakeOut(e: Handle)
      requires ListsOk() && Cached(e)
      modifies this`lru, this`inUse, this`usage, e`inCache
      modifies {lruHead, inUseHead}`next, {lruHead, inUseHead}`prev, live`next, live`prev
      ensures Overcounted(e) && !Cached(e) && !e.inCache && usage == old(usage) - e.charge
      ensures lru == (if e in old(lru) then Cut(old(lru), Place(old(lru), e)) else old(lru))
      ensures inUse == (if e in old(lru) then old(inUse) else Cut(old(inUse), Place(old(inUse), e)))
      ensures forall h :: h in live && h != e ==> (Cached(h) <==> old(Cached(h)))
      ensures (forall h :: h in lru ==> h in old(lru)) && (forall h :: h in inUse ==> h in old(inUse))
    {
      assert CountOk(e);
      LeaveRing(e);
      e.inCache := false;
      forall x | x in live && x != e ensures CountOk(x) {
        assert old(CountOk(x));
      }
    }
  
    method Lookup(key: Bytes, hash: Word) returns (e: Handle?)
      requires Valid()
      modifies this`lru, this`inUse, live`refs, live`clients
      modifies {lruHead, inUseHead}`next, {lruHead, inUseHead}`prev, live`next, live`prev
      ensures Valid() && IsEntry(table.entries, key, hash, e)
      ensures e == null ==> lru == old(lru) && inUse == old(inUse)
      ensures e != null ==> e in old(live) && e.clients == old(e.clients) + 1 && e in inUse
      ensures e != null && e in old(lru) ==> lru == Cut(old(lru), Place(old(lru), e)) && inUse == old(inUse) + [e]
      ensures e != null && e !in old(lru) ==> lru == old(lru) && inUse == old(inUse)
    {
      e := table.Lookup(key, hash);
      if e != null {
        Ref(e);
        assert CountOk(e);
      }
    }

    method Erase(key: Bytes, hash: Word) returns (ghost e: Handle?)
      requires Valid()
      modifies this`lru, this`inUse, this`live, this`deleted, this`usage, live`refs, live`inCache, live`nextHash
      modifies {lruHead, inUseHead}`next, {lruHead, inUseHead}`prev, live`next, live`prev
      modifies table, table.list
      ensures Valid() && IsEntry(old(table.entries), key, hash, e)
      ensures forall h :: h in table.entries ==> !h.Is(key, hash)
      ensures if e == null then lru == old(lru) && inUse == old(inUse) && live == old(live) && deleted == old(deleted)
        else Erased(e, old(lru), old(inUse), old(live), old(deleted), old(usage))
      ensures live <= old(live) && table.list == old(table.list)
    {
      var h := TakeFromTable(key, hash);
      e := h;
      var _ := FinishErase(h);
    }

    /** table_.Remove. */
    method TakeFromTable(key: Bytes, hash: Word) returns (e: Handle?)
      requires Valid()
      modifies live`nextHash, table, table.list
      ensures ListsOk() && TableOk(e) && (e != null ==> Cached(e)) && table.list == old(table.list)
      ensures IsEntry(old(table.entries), key, hash, e) && table.entries == Without(old(table.entries), e)
      ensures forall h :: h in table.entries ==> !h.Is(key, hash)
    {
      ghost var chains, entries := table.chains, table.entries;
      e := table.Remove(key, hash);
      forall h | h in live ensures CountOk(h) {
        assert old(CountOk(h));
      }
      forall h | h in table.entries ensures !h.Is(key, hash) {
        if e != null && h.Is(key, hash) {
          SameEntry(chains, entries, h, e);
        }
      }
    }
  
    /** The part of Insert that makes the new handle the newest in use, for the caller and the cache. */
    method AddInUse(e: Handle)
      requires ListsOk() && e !in live && e != lruHead && e != inUseHead && e.clients == 1
      requires forall i :: 0 <= i < |deleted| ==> deleted[i] != e
      modifies this`inUse, this`live, this`usage, e
      modifies {lruHead, inUseHead}`next, {lruHead, inUseHead}`prev, live`next, live`prev
      ensures ListsOk() && inUse == old(inUse) + [e] && live == old(live) + {e} && usage == old(usage) + e.charge
      ensures e.clients == 1
    {
      e.refs := 2;
      e.inCache := true;
      JoinInUse(e);
      live := live + {e};
      forall h | h in live ensures CountOk(h) {
        assert h != e ==> old(CountOk(h));
      }
    }

    method JoinInUse(e: Handle)
      requires RingsOk() && usage == Total(lru) + Total(inUse)
      requires e != lruHead && e != inUseHead && e !in lru && e !in inUse
      modifies this`inUse, this`usage
      modifies {lruHead, inUseHead, e}`next, {lruHead, inUseHead, e}`prev, inUse`next, inUse`prev
      ensures RingsOk() && inUse == old(inUse) + [e] && usage == old(usage) + e.charge == Total(lru) + Total(inUse)
    {
      TotalAppend(inUse, e);
      BothApart();
      RingAppend(inUseHead, e, inUse, lruHead, lru);
      usage := usage + e.charge;
      inUse := inUse + [e];
    }

    /** Insert: the caller gets the new handle; the entry it replaces leaves the cache, and then the
        oldest unused ones while the charges exceed the capacity. */
    method Insert(key: Bytes, hash: Word, charge: nat) returns (e: Handle, ghost previous: Handle?, ghost k: nat)
      requires Valid()
      modifies this`lru, this`inUse, this`live, this`deleted, this`usage, live`refs, live`inCache, live`nextHash
      modifies {lruHead, inUseHead}`next, {lruHead, inUseHead}`prev, live`next, live`prev
      modifies table, table.list
      ensures Valid() && fresh(e) && e.key == key && e.hash == hash && e.charge == charge
      ensures e in live && e.clients == 1 && (capacity > 0 <==> e in table.entries)
      ensures usage <= capacity || lru == []
      ensures if capacity > 0 then IsEntry(old(table.entries), key, hash, previous) else previous == null
      ensures GoneFrom(capacity, View(), Including(Excluding(old(View()), previous), e, capacity), k)
      ensures live <= old(live) + {e} && (table.list == old(table.list) || fresh(table.list))
    {
      e := new Handle(key, hash, charge);
      previous, k := InsertHandle(e);
    }

    method InsertHandle(e: Handle) returns (ghost previous: Handle?, ghost k: nat)
      requires Valid() && e !in live && e != lruHead && e != inUseHead && e.clients == 1 && e.refs == 1 && !e.inCache
      requires e !in lru && e !in inUse && forall i :: 0 <= i < |deleted| ==> deleted[i] != e
      modifies this`lru, this`inUse, this`live, this`deleted, this`usage, live`refs, live`inCache, live`nextHash, e
      modifies {lruHead, inUseHead}`next, {lruHead, inUseHead}`prev, live`next, live`prev
      modifies table, table.list
      ensures Valid() && e in live && e.clients == 1 && (capacity > 0 <==> e in table.entries)
      ensures usage <= capacity || lru == []
      ensures if capacity > 0 then IsEntry(old(table.entries), e.key, e.hash, previous) else previous == null
      ensures GoneFrom(capacity, View(), Including(Excluding(old(View()), previous), e, capacity), k)
      ensures live <= old(live) + {e} && (table.list == old(table.list) || fresh(table.list))
    {
      previous := Admit(e);
      ghost var admitted := View();
      NotDropped(old(lru), previous, e);
      k := Evict();
      StillThere(e, admitted, k);
    }

    /** A handle that was not on the LRU ring is not evicted. */
    lemma StillThere(e: Handle, was: Lists, k: nat)
      requires Valid() && GoneFrom(capacity, View(), was, k) && e in was.live && e !in was.lru
      ensures e in live && (e in was.inUse <==> e in table.entries)
    {
      FirstOfMembers(was.lru, k, e);
    }

    /** Insert up to the evictions. */
    method Admit(e: Handle) returns (ghost previous: Handle?)
      requires Valid() && e !in live && e != lruHead && e != inUseHead && e.clients == 1 && e.refs == 1 && !e.inCache
      requires e !in lru && e !in inUse && forall i :: 0 <= i < |deleted| ==> deleted[i] != e
      modifies this`lru, this`inUse, this`live, this`deleted, this`usage, live`refs, live`inCache, live`nextHash, e
      modifies {lruHead, inUseHead}`next, {lruHead, inUseHead}`prev, live`next, live`prev
      modifies table, table.list
      ensures Valid() && e in live && e.clients == 1 && (capacity > 0 <==> e in inUse)
      ensures live <= old(live) + {e} && (table.list == old(table.list) || fresh(table.list))
      ensures if capacity > 0 then IsEntry(old(table.entries), e.key, e.hash, previous) else previous == null
      ensures View() == Including(Excluding(old(View()), previous), e, capacity)
    {
      if capacity > 0 {
        previous := AdmitCached(e);
      } else {
        AddLoose(e);
        previous := null;
      }
    }

    method AdmitCached(e: Handle) returns (ghost previous: Handle?)
      requires Valid() && e !in live && e != lruHead && e != inUseHead && e.clients == 1 && e.refs == 1 && !e.inCache
      requires e !in lru && e !in inUse && (forall i :: 0 <= i < |deleted| ==> deleted[i] != e) && capacity > 0
      modifies this`lru, this`inUse, this`live, this`deleted, this`usage, live`refs, live`inCache, live`nextHash, e
      modifies {lruHead, inUseHead}`next, {lruHead, inUseHead}`prev, live`next, live`prev
      modifies table, table.list
      ensures Valid() && e in live && e.clients == 1 && e in inUse
      ensures live <= old(live) + {e} && (table.list == old(table.list) || fresh(table.list))
      ensures IsEntry(old(table.entries), e.key, e.hash, previous)
      ensures View() == Including(Excluding(old(View()), previous), e, capacity)
    {
      ghost var before := View();
      var h := AddBoth(e);
      previous := h;
      IncludeThenExclude(before, e, h, capacity);
      LetGo(h, e);
    }

    /** On the in-use ring and in the table. */
    method AddBoth(e: Handle) returns (h: Handle?)
      requires Valid() && e !in live && e != lruHead && e != inUseHead && e.clients == 1
      requires (forall i :: 0 <= i < |deleted| ==> deleted[i] != e) && capacity > 0
      modifies this`inUse, this`live, this`usage, live`nextHash, e
      modifies {lruHead, inUseHead}`next, {lruHead, inUseHead}`prev, live`next, live`prev
      modifies table, table.list
      ensures ListsOk() && TableOk(h) && (h != null ==> Cached(h) && h != e) && e.clients == 1
      ensures (table.list == old(table.list) || fresh(table.list)) && IsEntry(old(table.entries), e.key, e.hash, h)
      ensures View() == Including(old(View()), e, capacity)
    {
      AddInUse(e);
      h := AddToTable(e);
    }

    /** FinishErase of the replaced entry. */
    method LetGo(h: Handle?, ghost e: Handle)
      requires ListsOk() && TableOk(h) && (h != null ==> Cached(h)) && e in inUse && e != h
      modifies this`lru, this`inUse, this`live, this`deleted, this`usage, live`refs, live`inCache
      modifies {lruHead, inUseHead}`next, {lruHead, inUseHead}`prev, live`next, live`prev
      ensures Valid() && View() == Excluding(old(View()), h) && e in inUse && e in live
    {
      ghost var was := View();
      assert h != null ==> CountOk(h);
      var _ := FinishErase(h);
      if h != null {
        ErasedIsExcluded(h, was);
        NotDroppedOther(was.inUse, h, e);
      }
      assert CountOk(e);
    }

    lemma ErasedIsExcluded(h: Handle, was: Lists)
      requires was.usage >= 0 && Erased(h, was.lru, was.inUse, was.live, was.deleted, was.usage)
      requires (h.clients == 0 <==> h in was.lru) && !(h in was.lru && h in was.inUse)
      ensures View() == Excluding(was, h)
    {}

    /** Without capacity the handle belongs to the caller alone. */
    method AddLoose(e: Handle)
      requires Valid() && e !in live && e != lruHead && e != inUseHead && e.clients == 1 && e.refs == 1 && !e.inCache
      requires e !in lru && e !in inUse && forall i :: 0 <= i < |deleted| ==> deleted[i] != e
      modifies this`live
      ensures Valid() && live == old(live) + {e}
    {
      live := live + {e};
      forall h | h in live ensures CountOk(h) {
        assert h != e ==> old(CountOk(h));
      }
    }

    /** table_.Insert of the handle just put on the in-use ring. */
    method AddToTable(e: Handle) returns (previous: Handle?)
      requires ListsOk() && e in inUse && e !in table.entries && table.Valid() && table.entries <= live
      requires forall h :: h in live ==> (Cached(h) <==> h in table.entries || h == e)
      modifies live`nextHash, table, table.list
      ensures ListsOk() && TableOk(previous) && (previous != null ==> Cached(previous) && previous != e)
      ensures IsEntry(old(table.entries), e.key, e.hash, previous)
      ensures table.list == old(table.list) || fresh(table.list)
    {
      previous := InsertInTable(e);
      forall h | h in live ensures CountOk(h) {
        assert old(CountOk(h));
      }
    }

    /** The rings have nothing to do with the table. */
    method InsertInTable(e: Handle) returns (previous: Handle?)
      requires PlacesOk() && e in live && e !in table.entries && table.Valid() && table.entries <= live
      modifies live`nextHash, table, table.list
      ensures PlacesOk()
      ensures table.Valid() && (table.list == old(table.list) || fresh(table.list))
      ensures table.entries == Without(old(table.entries), previous) + {e}
      ensures IsEntry(old(table.entries), e.key, e.hash, previous)
    {
      previous := table.Insert(e);
    }

    /** Takes the oldest handle on the LRU ring out of the cache; nobody uses it, so it is deleted. */
    method EvictOldest()
      requires Valid() && lru != []
      modifies this`lru, this`inUse, this`live, this`deleted, this`usage, live`refs, live`inCache, live`nextHash
      modifies {lruHead, inUseHead}`next, {lruHead, inUseHead}`prev, live`next, live`prev
      modifies table, table.list
      ensures Valid() && live == old(live) - {old(lru)[0]} && inUse == old(inUse)
      ensures lru == old(lru)[1..] && deleted == old(deleted) + [old(lru)[0]] && usage == old(usage) - old(lru)[0].charge
      ensures table.list == old(table.list)
    {
      var oldest := lruHead.next;
      assert oldest == lru[0] && oldest in live && CountOk(oldest);
      ghost var chains, entries := table.chains, table.entries;
      var removed := TakeFromTable(oldest.key, oldest.hash);
      assert removed != null;
      SameEntry(chains, entries, removed, oldest);
      DropOldest(removed);
    }

    /** FinishErase of the oldest unused handle. */
    method DropOldest(e: Handle)
      requires ListsOk() && TableOk(e) && lru != [] && e == lru[0] && e.clients == 0
      modifies this`lru, this`inUse, this`live, this`deleted, this`usage, live`refs, live`inCache
      modifies {lruHead, inUseHead}`next, {lruHead, inUseHead}`prev, live`next, live`prev
      ensures Valid() && live == old(live) - {e} && inUse == old(inUse)
      ensures lru == old(lru)[1..] && deleted == old(deleted) + [e] && usage == old(usage) - e.charge
    {
      ghost var was := lru;
      FirstPlace(was);
      assert Place(was, e) == 0;
      var _ := FinishErase(e);
      assert lru == Cut(was, 0);
    }

    /** The loop of Insert: while there is too much, the oldest unused go. */
    method Evict() returns (ghost k: nat)
      requires Valid()
      modifies this`lru, this`inUse, this`live, this`deleted, this`usage, live`refs, live`inCache, live`nextHash
      modifies {lruHead, inUseHead}`next, {lruHead, inUseHead}`prev, live`next, live`prev
      modifies table, table.list
      ensures Valid() && (usage <= capacity || lru == []) && inUse == old(inUse)
      ensures GoneFrom(capacity, View(), old(View()), k)
      ensures live <= old(live) && table.list == old(table.list)
    {
      k := 0;
      ghost var was := View();
      while usage > capacity && lruHead.next != lruHead
        invariant Valid() && GoneFrom(capacity, View(), was, k)
        invariant live <= old(live) && table.list == old(table.list)
        decreases |was.lru| - k
      {
        EvictNext(was, k);
        k := k + 1;
      }
    }

    method EvictNext(ghost was: Lists, ghost k: nat)
      requires Valid() && GoneFrom(capacity, View(), was, k) && usage > capacity && lruHead.next != lruHead
      modifies this`lru, this`inUse, this`live, this`deleted, this`usage, live`refs, live`inCache, live`nextHash
      modifies {lruHead, inUseHead}`next, {lruHead, inUseHead}`prev, live`next, live`prev
      modifies table, table.list
      ensures Valid() && k < |was.lru| && GoneFrom(capacity, View(), was, k + 1)
      ensures live <= old(live) && table.list == old(table.list)
    {
      NextOldest(was.lru, k);
      OneMoreGone(capacity, View(), was, k);
      EvictOldest();
    }

    /** The ring is not empty, and its first is the next to go. */
    lemma NextOldest(first: seq<Handle>, k: nat)
      requires RingsOk() && lruHead.next != lruHead && k <= |first| && lru == first[k..]
      requires usage == Total(lru) + Total(inUse)
      ensures k < |first| && lru != [] && lru[0] == first[k] && lru[1..] == first[k + 1..]
      ensures first[..k + 1] == first[..k] + [first[k]]
      ensures usage >= first[k].charge
    {
      if lru != [] {
        TotalCut(lru, 0);
      }
    }

    method Prune()
      requires Valid()
      modifies this`lru, this`inUse, this`live, this`deleted, this`usage, live`refs, live`inCache, live`nextHash
      modifies {lruHead, inUseHead}`next, {lruHead, inUseHead}`prev, live`next, live`prev
      modifies table, table.list
      ensures Valid() && lru == [] && inUse == old(inUse) && deleted == old(deleted) + old(lru)
      ensures live <= old(live) && table.list == old(table.list)
    {
      ghost var k, first := 0, lru;
      while lruHead.next != lruHead
        invariant Valid() && k <= |first| && lru == first[k..] && deleted == old(deleted) + first[..k]
        invariant live <= old(live) && inUse == old(inUse) && table.list == old(table.list)
        decreases |first| - k
      {
        NextOldest(first, k);
        EvictOldest();
        k := k + 1;
      }
      assert first[..|first|] == first;
    }
  }

  /** The first k unused are gone; without each of them gone there was still too much. */
  ghost predicate GoneFrom(capacity: nat, now: Lists, was: Lists, k: nat) {
    k <= |was.lru| && now.lru == was.lru[k..] && now.inUse == was.inUse && now.deleted == was.deleted + was.lru[..k]
    && now.live == was.live - FirstOf(was.lru, k) && now.usage == was.usage - Charge(was.lru, k)
    && forall j {:trigger Charge(was.lru, j)} :: 0 <= j < k ==> was.usage - Charge(was.lru, j) > capacity
  }

  lemma OneMoreGone(capacity: nat, now: Lists, was: Lists, k: nat)
    requires k < |was.lru| && GoneFrom(capacity, now, was, k) && now.usage > capacity
    ensures GoneFrom(capacity,
      Lists(now.lru[1..], now.inUse, now.live - {was.lru[k]}, now.deleted + [was.lru[k]], now.usage - was.lru[k].charge), was, k + 1)
    ensures now.live <= was.live
  {
    assert was.lru[..k + 1] == was.lru[..k] + [was.lru[k]];
  }

  ghost function FirstOf(items: seq<Handle>, k: nat): set<Handle>
    requires k <= |items|
  {
    if k == 0 then {} else FirstOf(items, k - 1) + {items[k - 1]}
  }

  lemma {:induction false} FirstOfMembers(items: seq<Handle>, k: nat, h: Handle)
    requires k <= |items|
    ensures h in FirstOf(items, k) <==> h in items[..k]
  {
    if k > 0 {
      FirstOfMembers(items, k - 1, h);
      assert items[..k] == items[..k - 1] + [items[k - 1]];
    }
  }

  lemma FirstPlace(items: seq<Handle>)
    requires Once(items) && items != []
    ensures forall p :: 0 <= p < |items| && items[p] == items[0] ==> p == 0
    ensures Cut(items, 0) == items[1..]
  {}
}
