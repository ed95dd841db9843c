/** The skip list of a memtable (db/skiplist.h). Each SetNext is one step: the list is well formed
    before and after every single one. */
module SkipLists {
  import opened Keys

  const MAX_HEIGHT: nat := 12

  class Node {
    const key: InternalKey
    /** next_[n] for the node's height. */
    var next: seq<Node?>

    constructor (key: InternalKey, height: nat)
      ensures this.key == key && |next| == height && forall l :: 0 <= l < height ==> next[l] == null
    {
      this.key := key;
      next := seq(height, _ => null);
    }
  }

  function At(list: seq<Node>, i: nat): Node? {
    if i < |list| then list[i] else null
  }

  /** The node before position p, the head before the first. */
  function Before(head: Node, list: seq<Node>, p: nat): Node
    requires p <= |list|
  {
    if p == 0 then head else list[p - 1]
  }

  ghost predicate LinkAt(list: seq<Node>, l: nat, i: nat)
    requires i < |list|
    reads list[i]
  {
    |list[i].next| > l && list[i].next[l] == At(list, i + 1)
  }

  /** Following next[l] from the head visits exactly the list. */
  ghost predicate Linked(head: Node, list: seq<Node>, l: nat)
    reads head, list
  {
    && |head.next| > l && head.next[l] == At(list, 0)
    && forall i {:trigger LinkAt(list, l, i)} :: 0 <= i < |list| ==> LinkAt(list, l, i)
  }

  ghost predicate SortedNodes(list: seq<Node>) {
    forall i, j :: 0 <= i < j < |list| ==> Less(list[i].key, list[j].key)
  }

  ghost predicate Within(upper: seq<Node>, lower: seq<Node>) {
    forall i :: 0 <= i < |upper| ==> upper[i] in lower
  }

  /** Position q is where the key belongs. */
  ghost predicate Splits(list: seq<Node>, q: nat, key: InternalKey) {
    && q <= |list|
    && (forall i :: 0 <= i < q ==> Less(list[i].key, key))
    && (forall i :: q <= i < |list| ==> !Less(list[i].key, key))
  }

  function Inserted(list: seq<Node>, q: nat, x: Node): (r: seq<Node>)
    requires q <= |list|
    ensures |r| == |list| + 1
  {
    list[..q] + [x] + list[q..]
  }

  /** One level: sorted, and part of the level below. */
  ghost predicate LevelShape(lists: seq<seq<Node>>, l: nat)
    requires l < |lists|
  {
    SortedNodes(lists[l]) && (l > 0 ==> Within(lists[l], lists[l - 1]))
  }

  ghost predicate Shape(lists: seq<seq<Node>>) {
    |lists| == MAX_HEIGHT && forall l {:trigger LevelShape(lists, l)} :: 0 <= l < MAX_HEIGHT ==> LevelShape(lists, l)
  }

  /** The new node reaches one level more. */
  lemma ShapeInserted(lists: seq<seq<Node>>, l: nat, q: nat, x: Node)
    requires Shape(lists) && l < MAX_HEIGHT && Splits(lists[l], q, x.key) && (l > 0 ==> x in lists[l - 1])
    requires forall i :: q <= i < |lists[l]| ==> Less(x.key, lists[l][i].key)
    ensures Shape(lists[l := Inserted(lists[l], q, x)])
  {
    var t := lists[l := Inserted(lists[l], q, x)];
    assert LevelShape(lists, l);
    InsertedSorted(lists[l], q, x);
    forall m | 0 <= m < MAX_HEIGHT ensures LevelShape(t, m) {
      assert LevelShape(lists, m);
      if m == l {
        forall i | m > 0 && 0 <= i < |t[m]| ensures t[m][i] in t[m - 1] {
          assert t[m][i] in t[m];
        }
      }
    }
  }

  lemma InsertedSorted(list: seq<Node>, q: nat, x: Node)
    requires SortedNodes(list) && Splits(list, q, x.key)
    requires forall i :: q <= i < |list| ==> Less(x.key, list[i].key)
    ensures SortedNodes(Inserted(list, q, x))
    ensures forall n :: n in Inserted(list, q, x) <==> n == x || n in list
  {
    var t := Inserted(list, q, x);
    assert list == list[..q] + list[q..];
    forall i, j | 0 <= i < j < |t| ensures Less(t[i].key, t[j].key) {
      if i < q < j {
        LessOrder(t[i].key, x.key, t[j].key);
      }
    }
  }

  lemma LessOrder(a: InternalKey, b: InternalKey, c: InternalKey)
    ensures !Less(a, a) && (Less(a, b) ==> !Less(b, a))
    ensures Less(a, b) && Less(b, c) ==> Less(a, c)
    ensures !Less(a, b) && Less(a, c) ==> Less(b, c)
  {}

  class SkipList {
    const head: Node
    var maxHeight: nat
    /** The nodes at each level, in order. */
    ghost var lists: seq<seq<Node>>

    ghost predicate Valid()
      reads this, head, if |lists| == MAX_HEIGHT then set l, i | 0 <= l < MAX_HEIGHT && 0 <= i < |lists[l]| :: lists[l][i] else {}
    {
      && Shape(lists) && 1 <= maxHeight <= MAX_HEIGHT && |head.next| == MAX_HEIGHT
      && (forall l {:trigger Linked(head, lists[l], l)} :: 0 <= l < MAX_HEIGHT ==> Linked(head, lists[l], l))
      && (forall l :: maxHeight <= l < MAX_HEIGHT ==> lists[l] == [])
      && head !in lists[0]
    }

    constructor ()
      ensures Valid() && lists[0] == [] && fresh(head)
    {
      head := new Node(InternalKey(0.0, 0, Put), MAX_HEIGHT);
      maxHeight := 1;
      lists := seq(MAX_HEIGHT, _ => []);
      new;
      forall l | 0 <= l < MAX_HEIGHT ensures LevelShape(lists, l) {}
    }

    /** FindGreaterOrEqual: the first node at or after the key, and on every level the node before. */
    method FindGreaterOrEqual(key: InternalKey) returns (node: Node?, prev: seq<Node>, ghost cuts: seq<nat>)
      requires Valid()
      ensures |prev| == |cuts| == maxHeight
      ensures forall l :: 0 <= l < maxHeight ==> Splits(lists[l], cuts[l], key) && prev[l] == Before(head, lists[l], cuts[l])
      ensures node == At(lists[0], cuts[0])
    {
      var x, level := head, maxHeight - 1;
      ghost var p: nat := 0;
      prev := seq(maxHeight, _ => head);
      cuts := seq(maxHeight, _ => 0);
      while true
        invariant 0 <= level < maxHeight && |prev| == |cuts| == maxHeight
        invariant p <= |lists[level]| && x == Before(head, lists[level], p) && AllBefore(lists[level], p, key)
        invariant forall l :: level < l < maxHeight ==> Splits(lists[l], cuts[l], key) && prev[l] == Before(head, lists[l], cuts[l])
        decreases level, |lists[level]| - p
      {
        NextIs(level, p);
        var next := x.next[level];
        if next != null && Less(next.key, key) {
          x := next;
          p := p + 1;
        } else {
          RestNotLess(lists[level], p, key);
          prev := prev[level := x];
          cuts := cuts[level := p];
          if level == 0 {
            return next, prev, cuts;
          }
          p := Descend(level, p, key);
          level := level - 1;
        }
      }
    }

    /** FindLessThan: the last node before the key, or the head. */
    method FindLessThan(key: InternalKey) returns (x: Node, ghost p: nat)
      requires Valid()
      ensures Splits(lists[0], p, key) && x == Before(head, lists[0], p)
    {
      var level := maxHeight - 1;
      x, p := head, 0;
      while true
        invariant 0 <= level < maxHeight
        invariant p <= |lists[level]| && x == Before(head, lists[level], p) && AllBefore(lists[level], p, key)
        decreases level, |lists[level]| - p
      {
        NextIs(level, p);
        var next := x.next[level];
        if next == null || !Less(next.key, key) {
          if level == 0 {
            RestNotLess(lists[0], p, key);
            return;
          }
          p := Descend(level, p, key);
          level := level - 1;
        } else {
          x := next;
          p := p + 1;
        }
      }
    }

    /** FindLast: the last node, or the head. */
    method FindLast() returns (x: Node)
      requires Valid()
      ensures x == Before(head, lists[0], |lists[0]|)
    {
      var level := maxHeight - 1;
      ghost var p: nat := 0;
      x := head;
      while true
        invariant 0 <= level < maxHeight
        invariant p <= |lists[level]| && x == Before(head, lists[level], p)
        decreases level, |lists[level]| - p
      {
        NextIs(level, p);
        var next := x.next[level];
        if next == null {
          if level == 0 {
            return;
          }
          p := Descend(level, p, head.key);
          level := level - 1;
        } else {
          x := next;
          p := p + 1;
        }
      }
    }

    /** Contains: whether an entry compares equal. */
    method Contains(key: InternalKey) returns (found: bool)
      requires Valid()
      ensures found <==> exists n :: n in lists[0] && !Less(n.key, key) && !Less(key, n.key)
    {
      var x, prev;
      ghost var cuts;
      x, prev, cuts := FindGreaterOrEqual(key);
      found := x != null && !Less(key, x.key);
      if found {
        assert x in lists[0];
      } else {
        assert LevelShape(lists, 0);
        EqualIsAtCut(lists[0], cuts[0], key);
      }
    }

    /** The first store of one level of Insert, with NoBarrier_SetNext: the new node's own link. Nobody
        can see it on this level yet. */
    method LinkAhead(l: nat, x: Node, prev: Node, ghost q: nat)
      requires Valid() && l < maxHeight && l < |x.next|
      requires q <= |lists[l]| && prev == Before(head, lists[l], q)
      requires x != head && x !in lists[l]
      modifies x`next
      ensures Valid() && |x.next| == |old(x.next)| && x.next[l] == At(lists[l], q)
    {
      NextIs(l, q);
      x.next := x.next[l := prev.next[l]];
      forall m | 0 <= m < MAX_HEIGHT ensures Linked(head, lists[m], m) {
        assert old(Linked(head, lists[m], m));
        forall i | 0 <= i < |lists[m]| ensures LinkAt(lists[m], m, i) {
          assert old(LinkAt(lists[m], m, i));
        }
      }
    }

    /** The second store, with SetNext: the node is published. */
    method Publish(l: nat, x: Node, prev: Node, ghost q: nat)
      requires Valid() && l < maxHeight && l < |x.next| && x.next[l] == At(lists[l], q)
      requires Splits(lists[l], q, x.key) && prev == Before(head, lists[l], q)
      requires x != head && (forall n :: n in lists[0] ==> n.key != x.key || n == x)
      requires x !in lists[l] && (forall m :: l < m < MAX_HEIGHT ==> x !in lists[m]) && (l > 0 ==> x in lists[l - 1])
      requires forall i :: q <= i < |lists[l]| ==> Less(x.key, lists[l][i].key)
      modifies this`lists, prev`next
      ensures Valid() && lists == old(lists)[l := Inserted(old(lists[l]), q, x)]
      ensures prev != x ==> x.next == old(x.next)
    {
      NextIs(l, q);
      ghost var was := lists;
      PositionsDiffer(l, q);
      ShapeInserted(lists, l, q, x);
      prev.next := prev.next[l := x];
      lists := lists[l := Inserted(lists[l], q, x)];
      forall m | 0 <= m < MAX_HEIGHT ensures Linked(head, lists[m], m) {
        assert old(Linked(head, was[m], m));
        forall i | 0 <= i < |lists[m]| ensures LinkAt(lists[m], m, i) {
          if m != l {
            assert old(LinkAt(was[m], m, i));
          } else if i < q {
            assert old(LinkAt(was[l], l, i));
          } else if i > q {
            assert old(LinkAt(was[l], l, i - 1));
          }
        }
      }
    }

    /** Both stores of one level; the list is well formed between them too. */
    method LinkLevel(l: nat, x: Node, prev: Node, ghost q: nat)
      requires Valid() && l < maxHeight && l < |x.next|
      requires Splits(lists[l], q, x.key) && prev == Before(head, lists[l], q)
      requires x != head && (forall n :: n in lists[0] ==> n.key != x.key || n == x)
      requires x !in lists[l] && (forall m :: l < m < MAX_HEIGHT ==> x !in lists[m]) && (l > 0 ==> x in lists[l - 1])
      requires forall i :: q <= i < |lists[l]| ==> Less(x.key, lists[l][i].key)
      modifies this`lists, x`next, prev`next
      ensures Valid() && lists == old(lists)[l := Inserted(old(lists[l]), q, x)]
      ensures |x.next| == old(|x.next|)
    {
      LinkAhead(l, x, prev, q);
      assert Valid() && lists == old(lists);
      Publish(l, x, prev, q);
    }

    /** The first half of Insert: where the key goes on each of the node's levels. */
    method Prepare(key: InternalKey, height: nat) returns (prev: seq<Node>, ghost cuts: seq<nat>)
      requires Valid() && 1 <= height <= MAX_HEIGHT
      requires forall n :: n in lists[0] ==> Less(n.key, key) || Less(key, n.key)
      modifies this`maxHeight
      ensures Valid() && height <= maxHeight && |prev| == |cuts| >= height
      ensures forall l :: 0 <= l < height ==> ReadyAt(lists, l, prev[l], cuts[l], key)
    {
      var next;
      next, prev, cuts := FindGreaterOrEqual(key);
      if height > maxHeight {
        for i := maxHeight to height
          invariant |prev| == |cuts| == i
          invariant forall l :: 0 <= l < i ==> Splits(lists[l], cuts[l], key) && prev[l] == Before(head, lists[l], cuts[l])
        {
          prev := prev + [head];
          cuts := cuts + [0];
        }
        maxHeight := height;
      }
      forall l | 0 <= l < height ensures ReadyAt(lists, l, prev[l], cuts[l], key) {
        InLowest(l);
      }
    }

    /** Insert with the height RandomHeight chose. The loop invariant says that the list is well
        formed after each level is linked. */
    method Insert(key: InternalKey, height: nat) returns (ghost q: nat, ghost x: Node)
      requires Valid() && 1 <= height <= MAX_HEIGHT
      requires forall n :: n in lists[0] ==> Less(n.key, key) || Less(key, n.key)
      modifies this, head, lists[0]
      ensures Valid() && fresh(x) && x.key == key
      ensures q <= |old(lists[0])| && lists[0] == Inserted(old(lists[0]), q, x)
      ensures forall l :: 0 <= l < MAX_HEIGHT ==> if l < height then x in lists[l] && |lists[l]| == |old(lists)[l]| + 1 else lists[l] == old(lists)[l]
    {
      var prev;
      ghost var cuts;
      prev, cuts := Prepare(key, height);
      q := cuts[0];
      var node := new Node(key, height);
      x := node;
      ghost var was := lists;
      for i := 0 to height
        invariant Valid() && height <= maxHeight && |x.next| == height
        invariant forall l :: i <= l < MAX_HEIGHT ==> lists[l] == was[l]
        invariant forall l :: 0 <= l < i ==> x in lists[l] && |lists[l]| == |was[l]| + 1
        invariant i > 0 ==> lists[0] == Inserted(was[0], q, x)
      {
        assert ReadyAt(was, i, prev[i], cuts[i], key);
        LinkLevel(i, node, prev[i], cuts[i]);
      }
    }

    /** Where the new node goes on level l. */
    ghost predicate ReadyAt(lists: seq<seq<Node>>, l: nat, prev: Node, q: nat, key: InternalKey)
      requires |lists| == MAX_HEIGHT && l < MAX_HEIGHT
    {
      && Splits(lists[l], q, key) && prev == Before(head, lists[l], q)
      && (prev == head || prev in lists[0])
      && (forall i :: q <= i < |lists[l]| ==> Less(key, lists[l][i].key))
    }

    /** Only position q - 1 holds the node before q. */
    lemma PositionsDiffer(l: nat, q: nat)
      requires Valid() && l < MAX_HEIGHT && q <= |lists[l]|
      ensures forall i :: 0 <= i < |lists[l]| && i != q - 1 ==> lists[l][i] != Before(head, lists[l], q)
    {
      InLowest(l);
      assert LevelShape(lists, l);
      forall i | 0 <= i < |lists[l]| && i != q - 1 ensures lists[l][i] != Before(head, lists[l], q) {
        if q > 0 {
          var a, b := lists[l][i].key, lists[l][q - 1].key;
          assert Less(a, b) || Less(b, a);
        }
      }
    }

    lemma {:induction false} InLowest(l: nat)
      requires Valid() && l < MAX_HEIGHT
      ensures Within(lists[l], lists[0])
    {
      assert LevelShape(lists, l);
      if l > 0 {
        InLowest(l - 1);
      }
    }

    /** A node's own key splits the lowest level just before it. */
    lemma OwnPosition(i: nat, p: nat)
      requires Valid() && i < |lists[0]| && Splits(lists[0], p, lists[0][i].key)
      ensures p == i
    {
      assert LevelShape(lists, 0);
      LessOrder(lists[0][i].key, lists[0][i].key, lists[0][i].key);
      assert forall k :: 0 <= k < i ==> Less(lists[0][k].key, lists[0][i].key);
      assert p < |lists[0]| ==> !Less(lists[0][p].key, lists[0][i].key);
    }

    /** What the link of the node at position p says. */
    lemma NextIs(level: nat, p: nat)
      requires Valid() && level < MAX_HEIGHT && p <= |lists[level]|
      ensures var x := Before(head, lists[level], p);
        level < |x.next| && x.next[level] == At(lists[level], p)
      ensures SortedNodes(lists[level])
    {
      assert LevelShape(lists, level) && Linked(head, lists[level], level);
      assert p > 0 ==> LinkAt(lists[level], level, p - 1);
    }

    /** A node on one level is on the level below, and so is everything known to precede the key. */
    lemma Descend(level: nat, p: nat, key: InternalKey) returns (q: nat)
      requires Valid() && 0 < level < MAX_HEIGHT && p <= |lists[level]|
      ensures q <= |lists[level - 1]| && Before(head, lists[level - 1], q) == Before(head, lists[level], p)
      ensures AllBefore(lists[level], p, key) ==> AllBefore(lists[level - 1], q, key)
    {
      assert LevelShape(lists, level) && LevelShape(lists, level - 1);
      if p == 0 {
        q := 0;
      } else {
        var x, lower := lists[level][p - 1], lists[level - 1];
        var k :| 0 <= k < |lower| && lower[k] == x;
        q := k + 1;
        if AllBefore(lists[level], p, key) {
          forall i | 0 <= i < q ensures Less(lower[i].key, key) {
            LessOrder(lower[i].key, x.key, key);
          }
        }
      }
    }
  }

  ghost predicate AllBefore(list: seq<Node>, p: nat, key: InternalKey)
    requires p <= |list|
  {
    forall i :: 0 <= i < p ==> Less(list[i].key, key)
  }

  /** A node with an equal key could only be the first one not before it. */
  lemma EqualIsAtCut(list: seq<Node>, q: nat, key: InternalKey)
    requires SortedNodes(list) && Splits(list, q, key) && (q < |list| ==> Less(key, list[q].key))
    ensures forall n :: n in list ==> Less(n.key, key) || Less(key, n.key)
  {
    forall i | 0 <= i < |list| ensures Less(list[i].key, key) || Less(key, list[i].key) {
      if i > q {
        LessOrder(key, list[q].key, list[i].key);
      }
    }
  }

  lemma RestNotLess(list: seq<Node>, p: nat, key: InternalKey)
    requires SortedNodes(list) && p <= |list| && (p < |list| ==> !Less(list[p].key, key))
    ensures forall i :: p <= i < |list| ==> !Less(list[i].key, key)
  {
    forall i | p <= i < |list| ensures !Less(list[i].key, key) {
      LessOrder(list[p].key, list[i].key, key);
    }
  }

  /** SkipList::Iterator: a cursor over the lowest level. */
  class Iterator {
    const list: SkipList
    var node: Node?

    /** It stands on the node at position i, or on none. */
    ghost predicate IsAt(p: Option<nat>)
      reads this, list
    {
      |list.lists| == MAX_HEIGHT && match p
        case Some(i) => i < |list.lists[0]| && node == list.lists[0][i]
        case None => node == null
    }

    constructor (list: SkipList)
      requires list.Valid()
      ensures this.list == list && IsAt(None)
    {
      this.list := list;
      node := null;
    }

    method Next(ghost i: nat)
      requires list.Valid() && IsAt(Some(i))
      modifies this
      ensures IsAt(if i + 1 < |list.lists[0]| then Some(i + 1) else None)
    {
      list.NextIs(0, i + 1);
      node := node.next[0];
    }

    /** There are no back links: the node before is found by searching for the key. */
    method Prev(ghost i: nat)
      requires list.Valid() && IsAt(Some(i))
      modifies this
      ensures IsAt(if i > 0 then Some(i - 1) else None)
    {
      var x;
      ghost var p;
      x, p := list.FindLessThan(node.key);
      list.OwnPosition(i, p);
      node := if x == list.head then null else x;
    }

    method Seek(target: InternalKey) returns (ghost p: nat)
      requires list.Valid()
      modifies this
      ensures Splits(list.lists[0], p, target)
      ensures IsAt(if p < |list.lists[0]| then Some(p) else None)
    {
      var found, prev;
      ghost var cuts;
      found, prev, cuts := list.FindGreaterOrEqual(target);
      p := cuts[0];
      node := found;
    }

    method SeekToFirst()
      requires list.Valid()
      modifies this
      ensures IsAt(if list.lists[0] == [] then None else Some(0))
    {
      list.NextIs(0, 0);
      node := list.head.next[0];
    }

    method SeekToLast()
      requires list.Valid()
      modifies this
      ensures IsAt(if list.lists[0] == [] then None else Some(|list.lists[0]| - 1))
    {
      var x := list.FindLast();
      node := if x == list.head then null else x;
    }
  }
}
