/** The pointer heap (Libuv-gRPC/src/heap-inl.h) over its one use, the timers of a loop. */
module PointerHeap {
  /** What timer_less_than compares. */
  datatype Key = Key(timeout: nat, startId: nat)

  predicate Less(a: Key, b: Key) {
    a.timeout < b.timeout || (a.timeout == b.timeout && a.startId < b.startId)
  }

  /** A timer handle with its embedded heap node. */
  class Timer {
    var left: Timer?
    var right: Timer?
    var parent: Timer?
    var timeout: nat
    var startId: nat
    var repeat: nat
    var hasCallback: bool
    var active: bool
    var closing: bool

    constructor ()
      ensures !active && !closing && !hasCallback && repeat == 0 && timeout == 0
    {
      left, right, parent, timeout, startId := null, null, null, 0, 0;
      repeat, hasCallback, active, closing := 0, false, false, false;
    }

    function K(): Key
      reads this`timeout, this`startId
    {
      Key(timeout, startId)
    }

    /** timer_less_than. */
    predicate LessThan(other: Timer)
      reads this`timeout, this`startId, other`timeout, other`startId
      ensures LessThan(other) == Less(K(), other.K())
    {
      if timeout < other.timeout then true
      else if other.timeout < timeout then false
      else startId < other.startId
    }
  }

  // ----- The shape -----

  /** The node in slot i of the level order, if there is one. */
  function At(nodes: seq<Timer>, i: nat): Timer? {
    if i < |nodes| then nodes[i] else null
  }

  function Up(i: nat): nat
    requires i > 0
  {
    (i - 1) / 2
  }

  function ParentOf(nodes: seq<Timer>, i: nat): Timer?
    requires i < |nodes|
  {
    if i == 0 then null else nodes[Up(i)]
  }

  ghost predicate LinkedAt(nodes: seq<Timer>, i: nat)
    requires i < |nodes|
    reads nodes`left, nodes`right, nodes`parent
  {
    && nodes[i].left == At(nodes, 2 * i + 1)
    && nodes[i].right == At(nodes, 2 * i + 2)
    && nodes[i].parent == ParentOf(nodes, i)
  }

  /** The pointers form the complete binary tree whose level order is `nodes`. */
  ghost predicate Linked(nodes: seq<Timer>, min: Timer?)
    reads nodes`left, nodes`right, nodes`parent
  {
    && min == At(nodes, 0)
    && Distinct(nodes)
    && (forall i {:trigger LinkedAt(nodes, i)} :: 0 <= i < |nodes| ==> LinkedAt(nodes, i))
  }

  function Exchange<T>(s: seq<T>, i: nat, j: nat): (r: seq<T>)
    requires i < |s| && j < |s|
    ensures |r| == |s|
  {
    s[i := s[j]][j := s[i]]
  }

  // ----- Exchanging a parent and its child -----

  datatype Link = Link(left: Timer?, right: Timer?, parent: Timer?)

  /** The pointers of each node. */
  ghost function Snapshot(nodes: seq<Timer>): (r: seq<Link>)
    reads nodes`left, nodes`right, nodes`parent
    ensures |r| == |nodes|
    ensures forall k {:trigger r[k]} :: 0 <= k < |nodes| ==> r[k] == Link(nodes[k].left, nodes[k].right, nodes[k].parent)
  {
    SnapshotUpTo(nodes, |nodes|)
  }

  ghost function SnapshotUpTo(nodes: seq<Timer>, n: nat): (r: seq<Link>)
    requires n <= |nodes|
    reads nodes`left, nodes`right, nodes`parent
    ensures |r| == n
    ensures forall k {:trigger r[k]} :: 0 <= k < n ==> r[k] == Link(nodes[k].left, nodes[k].right, nodes[k].parent)
  {
    if n == 0 then []
    else SnapshotUpTo(nodes, n - 1) + [Link(nodes[n - 1].left, nodes[n - 1].right, nodes[n - 1].parent)]
  }

  ghost function Members(nodes: seq<Timer>): set<Timer> {
    set n | n in nodes
  }

  ghost predicate Distinct(nodes: seq<Timer>) {
    forall i, j :: 0 <= i < j < |nodes| ==> nodes[i] != nodes[j]
  }

  function LinkFor(nodes: seq<Timer>, k: nat): Link
    requires k < |nodes|
  {
    Link(At(nodes, 2 * k + 1), At(nodes, 2 * k + 2), ParentOf(nodes, k))
  }

  ghost predicate Shape(nodes: seq<Timer>, links: seq<Link>) {
    |links| == |nodes| && forall k {:trigger LinkFor(nodes, k)} :: 0 <= k < |nodes| ==> links[k] == LinkFor(nodes, k)
  }

  function Place(k: nat, i: nat, j: nat): nat { if k == i then j else if k == j then i else k }

  /** The pointers after heap_node_swap, node by node. */
  ghost predicate PointersSwapped(was: seq<Timer>, a: seq<Link>, b: seq<Link>, i: nat, j: nat)
    requires i < j < |was| == |a| == |b|
  {
    && EndsSwapped(was, a, b, i, j)
    && forall k {:trigger b[k]} :: 0 <= k < |was| && k != i && k != j ==> OtherSwapped(was, a[k], b[k], i, j, k)
  }

  ghost predicate EndsSwapped(was: seq<Timer>, a: seq<Link>, b: seq<Link>, i: nat, j: nat)
    requires i < j < |was| == |a| == |b|
  {
    && b[i] == Link(a[j].left, a[j].right, was[j])
    && b[j].parent == a[i].parent
    && b[j].left == (if j == 2 * i + 1 then was[i] else a[i].left)
    && b[j].right == (if j == 2 * i + 1 then a[i].right else was[i])
  }

  ghost predicate OtherSwapped(was: seq<Timer>, a: Link, b: Link, i: nat, j: nat, k: nat)
    requires i < j < |was|
  {
    && b.left == (if 2 * k + 1 == i then was[j] else a.left)
    && b.right == (if 2 * k + 2 == i then was[j] else a.right)
    && b.parent == (if k > 0 && Up(k) == i then was[j] else if k > 0 && Up(k) == j then was[i] else a.parent)
  }

  lemma SwapShape(was: seq<Timer>, a: seq<Link>, b: seq<Link>, i: nat, j: nat, k: nat)
    requires i < j < |was| == |a| == |b| && Up(j) == i && k < |was|
    requires Shape(was, a) && PointersSwapped(was, a, b, i, j)
    ensures b[Place(k, i, j)] == LinkFor(Exchange(was, i, j), k)
  {
    assert a[i] == LinkFor(was, i) && a[j] == LinkFor(was, j) && a[k] == LinkFor(was, k);
    var nodes := Exchange(was, i, j);
    assert forall m: nat :: m < |was| ==> nodes[m] == was[Place(m, i, j)];
    if k != i && k != j {
      assert OtherSwapped(was, a[k], b[k], i, j, k);
    }
  }

  /** A node sits in one slot only. */
  lemma OnlySlot(nodes: seq<Timer>, a: nat)
    requires Distinct(nodes)
    ensures forall k :: 0 <= k < |nodes| ==> (nodes[k] == At(nodes, a) <==> k == a)
  {}

  lemma Neighbours(i: nat, j: nat, k: nat)
    requires i < j && Up(j) == i && k != i && k != j
    ensures k > 0 && Up(k) == i <==> k == if j == 2 * i + 1 then j + 1 else j - 1
    ensures k > 0 && Up(k) == j <==> k == 2 * j + 1 || k == 2 * j + 2
    ensures 2 * k + 1 == i || 2 * k + 2 == i <==> i > 0 && k == Up(i)
  {}

  /** The pointers the assignments touch, and that they touch no others. */
  ghost predicate PointersMoved(was: seq<Timer>, a: seq<Link>, b: seq<Link>, i: nat, j: nat)
    requires i < j < |was| == |a| == |b|
  {
    var sib := if j == 2 * i + 1 then j + 1 else j - 1;
    && (i > 0 ==> b[Up(i)].left == (if a[Up(i)].left == was[i] then was[j] else a[Up(i)].left))
    && (i > 0 ==> b[Up(i)].right == (if a[Up(i)].left == was[i] then a[Up(i)].right else was[j]))
    && (sib < |was| ==> b[sib].parent == was[j])
    && (2 * j + 1 < |was| ==> b[2 * j + 1].parent == was[i])
    && (2 * j + 2 < |was| ==> b[2 * j + 2].parent == was[i])
    && (forall k {:trigger b[k]} :: 0 <= k < |was| && k != i && k != j ==>
          && ((i > 0 && k == Up(i)) || (b[k].left == a[k].left && b[k].right == a[k].right))
          && (k == sib || k == 2 * j + 1 || k == 2 * j + 2 || b[k].parent == a[k].parent))
  }

  lemma MovedIsSwapped(was: seq<Timer>, a: seq<Link>, b: seq<Link>, i: nat, j: nat, k: nat)
    requires Distinct(was) && i < j < |was| == |a| == |b| && Up(j) == i
    requires Shape(was, a) && PointersMoved(was, a, b, i, j) && k < |was| && k != i && k != j
    ensures OtherSwapped(was, a[k], b[k], i, j, k)
  {
    Neighbours(i, j, k);
    assert a[k] == LinkFor(was, k);
  }

  lemma MovedAreSwapped(was: seq<Timer>, a: seq<Link>, b: seq<Link>, i: nat, j: nat)
    requires Distinct(was) && i < j < |was| == |a| == |b| && Up(j) == i
    requires Shape(was, a) && EndsSwapped(was, a, b, i, j) && PointersMoved(was, a, b, i, j)
    ensures PointersSwapped(was, a, b, i, j)
  {
    forall k | 0 <= k < |was| && k != i && k != j ensures OtherSwapped(was, a[k], b[k], i, j, k) {
      MovedIsSwapped(was, a, b, i, j, k);
    }
  }

  lemma ExchangeDistinct(nodes: seq<Timer>, i: nat, j: nat)
    requires Distinct(nodes) && i < |nodes| && j < |nodes|
    ensures Distinct(Exchange(nodes, i, j))
    ensures Members(Exchange(nodes, i, j)) == Members(nodes)
  {
    var t := Exchange(nodes, i, j);
    forall n | n in Members(nodes) ensures n in Members(t) {
      var k :| 0 <= k < |nodes| && nodes[k] == n;
      assert t[Place(k, i, j)] == n;
    }
  }

  // ----- Heap order -----

  ghost function Keys(nodes: seq<Timer>): (r: seq<Key>)
    reads nodes`timeout, nodes`startId
    ensures |r| == |nodes|
    ensures forall k {:trigger r[k]} :: 0 <= k < |nodes| ==> r[k] == nodes[k].K()
  {
    KeysUpTo(nodes, |nodes|)
  }

  ghost function KeysUpTo(nodes: seq<Timer>, n: nat): (r: seq<Key>)
    requires n <= |nodes|
    reads nodes`timeout, nodes`startId
    ensures |r| == n
    ensures forall k {:trigger r[k]} :: 0 <= k < n ==> r[k] == nodes[k].K()
  {
    if n == 0 then [] else KeysUpTo(nodes, n - 1) + [nodes[n - 1].K()]
  }

  ghost predicate OrderedAt(ks: seq<Key>, k: nat)
    requires k < |ks|
  {
    k > 0 ==> !Less(ks[k], ks[Up(k)])
  }

  ghost predicate Ordered(ks: seq<Key>) {
    forall k {:trigger OrderedAt(ks, k)} :: 0 <= k < |ks| ==> OrderedAt(ks, k)
  }

  /** The children of slot i do not precede its parent. */
  ghost predicate BridgedAt(ks: seq<Key>, i: nat, k: nat)
    requires i < |ks| && k < |ks|
  {
    i > 0 && k > 0 && Up(k) == i ==> !Less(ks[k], ks[Up(i)])
  }

  ghost predicate Bridged(ks: seq<Key>, i: nat)
    requires i < |ks|
  {
    forall k {:trigger BridgedAt(ks, i, k)} :: 0 <= k < |ks| ==> BridgedAt(ks, i, k)
  }

  /** In order but for slot i, which may precede its parent. */
  ghost predicate UpAlmost(ks: seq<Key>, i: nat) {
    && i < |ks| && Bridged(ks, i)
    && forall k {:trigger OrderedAt(ks, k)} :: 0 <= k < |ks| && k != i ==> OrderedAt(ks, k)
  }

  /** In order but for slot i, which may be anywhere between its ancestors and descendants. */
  ghost predicate Almost(ks: seq<Key>, i: nat) {
    && i < |ks| && Bridged(ks, i)
    && forall k {:trigger OrderedAt(ks, k)} :: 0 <= k < |ks| && k != i && !(k > 0 && Up(k) == i) ==> OrderedAt(ks, k)
  }

  lemma RiseKeepsOrder(ks: seq<Key>, i: nat)
    requires UpAlmost(ks, i) && i > 0 && Less(ks[i], ks[Up(i)])
    ensures UpAlmost(Exchange(ks, Up(i), i), Up(i))
  {
    var p := Up(i);
    var t := Exchange(ks, p, i);
    forall k | 0 <= k < |t| && k != p ensures OrderedAt(t, k) {
      assert k != i ==> OrderedAt(ks, k);
      assert BridgedAt(ks, i, k);
    }
    forall k | 0 <= k < |t| ensures BridgedAt(t, p, k) {
      if p > 0 && k > 0 && Up(k) == p {
        assert OrderedAt(ks, p) && (k != i ==> OrderedAt(ks, k));
      }
    }
  }

  lemma RisenIsOrdered(ks: seq<Key>, i: nat)
    requires UpAlmost(ks, i) && (i == 0 || !Less(ks[i], ks[Up(i)]))
    ensures Ordered(ks)
  {}

  lemma SinkKeepsOrder(ks: seq<Key>, i: nat, c: nat)
    requires Almost(ks, i) && 0 < c < |ks| && Up(c) == i && Less(ks[c], ks[i])
    requires forall k {:trigger Up(k)} :: 0 < k < |ks| && Up(k) == i ==> !Less(ks[k], ks[c])
    ensures Almost(Exchange(ks, i, c), c)
  {
    var t := Exchange(ks, i, c);
    forall k | 0 <= k < |t| && k != c && !(k > 0 && Up(k) == c) ensures OrderedAt(t, k) {
      assert BridgedAt(ks, i, c);
      if k > 0 && Up(k) == i {
        assert !Less(ks[k], ks[c]);
      } else {
        assert k != i ==> OrderedAt(ks, k);
      }
    }
    forall k | 0 <= k < |t| ensures BridgedAt(t, c, k) {
      if k > 0 && Up(k) == c {
        assert OrderedAt(ks, k);
      }
    }
  }

  lemma SunkIsUpAlmost(ks: seq<Key>, i: nat)
    requires Almost(ks, i)
    requires forall k {:trigger Up(k)} :: 0 < k < |ks| && Up(k) == i ==> !Less(ks[k], ks[i])
    ensures UpAlmost(ks, i)
  {
    forall k | 0 <= k < |ks| && k != i ensures OrderedAt(ks, k) {
      if k > 0 && Up(k) == i {
        assert !Less(ks[k], ks[i]);
      }
    }
  }

  /** The root of an ordered tree precedes or equals every node. */
  lemma {:induction false} RootIsLeast(ks: seq<Key>, k: nat)
    requires Ordered(ks) && k < |ks|
    ensures !Less(ks[k], ks[0])
    decreases k
  {
    if k > 0 {
      RootIsLeast(ks, Up(k));
      assert OrderedAt(ks, k);
    }
  }

  // ----- Finding a slot by the bits of its number -----

  /** n without its low k bits. */
  function Shifted(n: nat, k: nat): (r: nat)
    ensures r <= n
  {
    if k == 0 then n else Shifted(n, k - 1) / 2
  }

  /** The low k bits of n in reverse. */
  function Reversed(n: nat, k: nat): nat {
    if k == 0 then 0 else 2 * Reversed(n, k - 1) + Shifted(n, k - 1) % 2
  }

  /** A pointer to a pointer: &heap->min, &node->left or &node->right. */
  datatype Slot = Root | LeftOf(node: Timer) | RightOf(node: Timer)

  /** The slot with the 1-based number pos. */
  function SlotOf(nodes: seq<Timer>, pos: nat): Slot
    requires 1 <= pos && pos / 2 <= |nodes|
  {
    if pos == 1 then Root
    else if pos % 2 == 0 then LeftOf(nodes[pos / 2 - 1])
    else RightOf(nodes[pos / 2 - 1])
  }

  class Heap {
    var min: Timer?
    var nelts: nat
    ghost var nodes: seq<Timer>

    /** heap_node_swap's assignments on the nodes it touches. */
    method SwapPointers(parent: Timer, child: Timer, ghost grand: Timer?, ghost sibling: Timer?,
                        ghost l: Timer?, ghost r: Timer?, ghost onLeft: bool)
      requires child.parent == parent && parent.parent == grand && child.left == l && child.right == r
      requires if onLeft then parent.left == child && parent.right == sibling else parent.left == sibling && parent.right == child
      requires parent != child && sibling != child && sibling != parent
      requires l != parent && l != child && r != parent && r != child && (l != null ==> l != r)
      requires l != null ==> l != sibling && l != grand
      requires r != null ==> r != sibling && r != grand
      requires grand != null ==> grand != parent && grand != child && grand != sibling
      modifies this`min, {parent, child, grand}`left, {parent, child, grand}`right, {parent, child, sibling, l, r}`parent
      ensures parent.left == l && parent.right == r && parent.parent == child && child.parent == grand
      ensures if onLeft then child.left == parent && child.right == sibling else child.left == sibling && child.right == parent
      ensures sibling != null ==> sibling.parent == child
      ensures l != null ==> l.parent == parent
      ensures r != null ==> r.parent == parent
      ensures if grand == null then min == child else min == old(min)
      ensures grand != null ==> grand.left == if old(grand.left) == parent then child else old(grand.left)
      ensures grand != null ==> grand.right == if old(grand.left) == parent then old(grand.right) else child
    {
      var tl, tr, tp := parent.left, parent.right, parent.parent;
      parent.left, parent.right, parent.parent := child.left, child.right, child.parent;
      child.left, child.right, child.parent := tl, tr, tp;
      parent.parent := child;
      var other;
      if child.left == child {
        child.left := parent;
        other := child.right;
      } else {
        child.right := parent;
        other := child.left;
      }
      if other != null {
        other.parent := child;
      }
      if parent.left != null {
        parent.left.parent := parent;
      }
      if parent.right != null {
        parent.right.parent := parent;
      }
      if child.parent == null {
        min := child;
      } else if child.parent.left == parent {
        child.parent.left := child;
      } else {
        child.parent.right := child;
      }
    }
  
    method SwapNodes(parent: Timer, child: Timer, ghost i: nat, ghost j: nat, ghost before: seq<Link>)
      requires Distinct(nodes) && |before| == |nodes| && before == Snapshot(nodes) && Shape(nodes, before)
      requires i < j < |nodes| && nodes[i] == parent && nodes[j] == child && Up(j) == i
      modifies this`min, Members(nodes)`left, Members(nodes)`right, Members(nodes)`parent
      ensures EndsSwapped(nodes, before, Snapshot(nodes), i, j) && PointersMoved(nodes, before, Snapshot(nodes), i, j)
      ensures min == if i == 0 then child else old(min)
    {
      ghost var sib := if j == 2 * i + 1 then j + 1 else j - 1;
      assert before[i] == LinkFor(nodes, i) && before[j] == LinkFor(nodes, j);
      assert i > 0 ==> before[Up(i)] == LinkFor(nodes, Up(i));
      ghost var grand, sibling, l, r := parent.parent, At(nodes, sib), child.left, child.right;
      OnlySlot(nodes, 2 * j + 1);
      OnlySlot(nodes, 2 * j + 2);
      OnlySlot(nodes, sib);
      OnlySlot(nodes, if i > 0 then Up(i) else |nodes|);
      SwapPointers(parent, child, grand, sibling, l, r, j == 2 * i + 1);
    }

    /** heap_node_swap: the two nodes trade places in the tree. */
    method NodeSwap(parent: Timer, child: Timer, ghost i: nat, ghost j: nat)
      requires Linked(nodes, min)
      requires i < j < |nodes| && nodes[i] == parent && nodes[j] == child && Up(j) == i
      modifies this`min, this`nodes, Members(nodes)`left, Members(nodes)`right, Members(nodes)`parent
      ensures nodes == Exchange(old(nodes), i, j) && SameNodes(nodes, old(nodes))
      ensures Linked(nodes, min) && Keys(nodes) == Exchange(old(Keys(nodes)), i, j)
    {
      ghost var before := Snapshot(nodes);
      LinkedShape(nodes, min);
      SwapNodes(parent, child, i, j, before);
      MovedAreSwapped(nodes, before, Snapshot(nodes), i, j);
      Relinked(nodes, before, i, j, min);
      KeysExchange(nodes, i, j);
      ExchangeDistinct(nodes, i, j);
      nodes := Exchange(nodes, i, j);
    }

    /** The loop that walks up from a node to where it belongs. */
    method WalkUp(node: Timer, ghost start: nat)
      requires Linked(nodes, min) && UpAlmost(Keys(nodes), start) && nodes[start] == node
      modifies this`min, this`nodes, Members(nodes)`left, Members(nodes)`right, Members(nodes)`parent
      ensures Linked(nodes, min) && Ordered(Keys(nodes)) && SameNodes(nodes, old(nodes))
    {
      ghost var i, ks, was := start, Keys(nodes), nodes;
      assert LinkedAt(nodes, i);
      while node.parent != null && node.LessThan(node.parent)
        invariant Linked(nodes, min) && SameNodes(nodes, was)
        invariant ks == Keys(nodes) && UpAlmost(ks, i) && nodes[i] == node
        invariant node.parent == ParentOf(nodes, i)
        decreases i
      {
        assert ks[i] == node.K() && ks[Up(i)] == node.parent.K();
        RiseKeepsOrder(ks, i);
        NodeSwap(node.parent, node, Up(i), i);
        ks := Exchange(ks, Up(i), i);
        i := Up(i);
        assert LinkedAt(nodes, i);
      }
      assert ks[i] == node.K() && (i > 0 ==> ks[Up(i)] == node.parent.K());
      RisenIsOrdered(ks, i);
    }

    /** One round of heap_remove's walk down: picks the smallest of a node and its children, and
        swaps unless that is the node itself. */
    method SinkOnce(node: Timer, ghost i: nat) returns (settled: bool, ghost c: nat)
      requires Linked(nodes, min) && Almost(Keys(nodes), i) && nodes[i] == node
      modifies this`min, this`nodes, Members(nodes)`left, Members(nodes)`right, Members(nodes)`parent
      ensures Linked(nodes, min) && SameNodes(nodes, old(nodes)) && c < |nodes| && nodes[c] == node
      ensures if settled then UpAlmost(Keys(nodes), c) else c > i && Almost(Keys(nodes), c)
    {
      assert LinkedAt(nodes, i);
      ghost var ks := Keys(nodes);
      assert ks[i] == node.K();
      assert 2 * i + 1 < |nodes| ==> ks[2 * i + 1] == nodes[2 * i + 1].K();
      assert 2 * i + 2 < |nodes| ==> ks[2 * i + 2] == nodes[2 * i + 2].K();
      var smallest := node;
      c := i;
      if node.left != null && node.left.LessThan(smallest) {
        smallest, c := node.left, 2 * i + 1;
      }
      if node.right != null && node.right.LessThan(smallest) {
        smallest, c := node.right, 2 * i + 2;
      }
      SmallestChild(ks, i, c);
      settled := smallest == node;
      if settled {
        SunkIsUpAlmost(ks, i);
      } else {
        SinkKeepsOrder(ks, i, c);
        NodeSwap(node, smallest, i, c);
      }
    }

    /** heap_remove's loop that swaps a node with its smallest child until it precedes both. */
    method WalkDown(node: Timer, ghost start: nat) returns (ghost i: nat)
      requires Linked(nodes, min) && Almost(Keys(nodes), start) && nodes[start] == node
      modifies this`min, this`nodes, Members(nodes)`left, Members(nodes)`right, Members(nodes)`parent
      ensures Linked(nodes, min) && UpAlmost(Keys(nodes), i) && nodes[i] == node && SameNodes(nodes, old(nodes))
    {
      i := start;
      ghost var was := nodes;
      var settled := false;
      while !settled
        invariant Linked(nodes, min) && SameNodes(nodes, was) && i < |nodes| && nodes[i] == node
        invariant if settled then UpAlmost(Keys(nodes), i) else Almost(Keys(nodes), i)
        decreases !settled, |nodes| - i
      {
        settled, i := SinkOnce(node, i);
      }
    }

    ghost predicate Valid()
      reads this, nodes`left, nodes`right, nodes`parent, nodes`timeout, nodes`startId
    {
      nelts == |nodes| && Linked(nodes, min) && Ordered(Keys(nodes))
    }

    /** heap_init. */
    constructor ()
      ensures Valid() && nodes == []
    {
      min, nelts, nodes := null, 0, [];
    }

    /** The loop that turns a size into a path. */
    method SlotPath(size: nat) returns (k: nat, path: nat)
      ensures size >= 1 ==> Shifted(size, k) == 1
      ensures path == Reversed(size, k)
    {
      var n := size;
      k, path := 0, 0;
      while n >= 2
        invariant n == Shifted(size, k) && (size >= 1 ==> n >= 1)
        invariant path == Reversed(size, k)
      {
        path := 2 * path + n % 2;
        k, n := k + 1, n / 2;
      }
    }

    function Deref(slot: Slot): Timer?
      reads this`min, if slot.Root? then {} else {slot.node}
    {
      match slot
      case Root => min
      case LeftOf(n) => n.left
      case RightOf(n) => n.right
    }

    lemma DerefSlot(pos: nat)
      requires Linked(nodes, min) && 1 <= pos && pos / 2 <= |nodes|
      ensures Deref(SlotOf(nodes, pos)) == At(nodes, pos - 1)
    {
      if pos > 1 {
        assert LinkedAt(nodes, pos / 2 - 1);
      }
    }

    /** The loop that follows a path from the root; also the slot before the last one. */
    method FollowPath(ghost size: nat, depth: nat, bits: nat) returns (parent: Slot, child: Slot)
      requires Linked(nodes, min) && 1 <= size <= |nodes| + 1
      requires Shifted(size, depth) == 1 && bits == Reversed(size, depth)
      ensures child == SlotOf(nodes, size)
      ensures parent == if size == 1 then Root else SlotOf(nodes, size / 2)
    {
      var k, path := depth, bits;
      ghost var pos: nat := 1;
      parent, child := Root, Root;
      while k > 0
        invariant pos == Shifted(size, k) && 1 <= pos <= size && path == Reversed(size, k)
        invariant child == SlotOf(nodes, pos) && parent == if pos == 1 then Root else SlotOf(nodes, pos / 2)
      {
        DerefSlot(pos);
        parent := child;
        var node := Deref(child);
        child := if path % 2 == 1 then RightOf(node) else LeftOf(node);
        path, k := path / 2, k - 1;
        pos := Shifted(size, k);
      }
    }

    method Store(slot: Slot, t: Timer?)
      modifies this`min, (if slot.Root? then {} else {slot.node})`left, (if slot.Root? then {} else {slot.node})`right
      ensures slot.Root? ==> min == t
      ensures !slot.Root? ==> min == old(min)
      ensures slot.LeftOf? ==> slot.node.left == t && slot.node.right == old(slot.node.right)
      ensures slot.RightOf? ==> slot.node.right == t && slot.node.left == old(slot.node.left)
    {
      match slot
      case Root => min := t;
      case LeftOf(n) => n.left := t;
      case RightOf(n) => n.right := t;
    }

    /** The part of heap_insert that puts the new node into the slot found. */
    method Hang(node: Timer, parent: Slot, child: Slot)
      requires Linked(nodes, min) && node !in nodes && node.left == null && node.right == null
      requires child == SlotOf(nodes, |nodes| + 1)
      requires parent == if |nodes| == 0 then Root else SlotOf(nodes, (|nodes| + 1) / 2)
      modifies this`min, this`nodes, node`parent, Members(nodes)`left, Members(nodes)`right
      ensures nodes == old(nodes) + [node] && Linked(nodes, min)
    {
      ghost var was, before, n := nodes, Snapshot(nodes), |nodes|;
      LinkedShape(nodes, min);
      HangPointers(node, parent, child);
      nodes := nodes + [node];
      forall k | 0 <= k < |nodes| ensures LinkedAt(nodes, k) {
        if k < n {
          assert before[k] == LinkFor(was, k);
          HolderOfLast(n, k);
        }
      }
    }

    /** The two assignments that hang the node under its parent. */
    method HangPointers(node: Timer, parent: Slot, child: Slot)
      requires Linked(nodes, min) && node !in nodes
      requires child == SlotOf(nodes, |nodes| + 1)
      requires parent == if |nodes| == 0 then Root else SlotOf(nodes, (|nodes| + 1) / 2)
      modifies this`min, node`parent, Members(nodes)`left, Members(nodes)`right
      ensures node.parent == ParentOf(nodes + [node], |nodes|) && min == if |nodes| == 0 then node else old(min)
      ensures forall k :: 0 <= k < |nodes| ==>
        && nodes[k].left == (if child == LeftOf(nodes[k]) then node else old(nodes[k].left))
        && nodes[k].right == (if child == RightOf(nodes[k]) then node else old(nodes[k].right))
    {
      if |nodes| > 0 {
        DerefSlot((|nodes| + 1) / 2);
      } else {
        DerefSlot(1);
      }
      node.parent := Deref(parent);
      Store(child, node);
    }

    /** The part of heap_remove that takes the last node off the tree. */
    method Unhang(slot: Slot)
      requires Linked(nodes, min) && nodes != [] && slot == SlotOf(nodes, |nodes|)
      modifies this`min, this`nodes, Members(nodes)`left, Members(nodes)`right
      ensures nodes == old(nodes)[..|old(nodes)| - 1] && Linked(nodes, min)
    {
      ghost var was, before, n: nat := nodes, Snapshot(nodes), |nodes| - 1;
      LinkedShape(nodes, min);
      Store(slot, null);
      nodes := nodes[..n];
      forall k | 0 <= k < |nodes| ensures LinkedAt(nodes, k) {
        assert before[k] == LinkFor(was, k);
        HolderOfLast(n, k);
      }
    }

    /** The assignments that put a node in the place of the removed one. */
    method PlacePointers(node: Timer, child: Timer, ghost grand: Timer?, ghost l: Timer?, ghost r: Timer?)
      requires node.left == l && node.right == r && node.parent == grand && child != node
      requires l != child && l != node && r != child && r != node && grand != child && grand != node
      requires l != null ==> l != r && l != grand
      requires r != null ==> r != grand
      modifies this`min, {child, grand}`left, {child, grand}`right, {child, l, r}`parent
      ensures child.left == l && child.right == r && child.parent == grand
      ensures l != null ==> l.parent == child
      ensures r != null ==> r.parent == child
      ensures if grand == null then min == child else min == old(min)
      ensures grand != null ==> grand.left == if old(grand.left) == node then child else old(grand.left)
      ensures grand != null ==> grand.right == if old(grand.left) == node then old(grand.right) else child
    {
      child.left := node.left;
      child.right := node.right;
      child.parent := node.parent;
      if child.left != null {
        child.left.parent := child;
      }
      if child.right != null {
        child.right.parent := child;
      }
      if node.parent == null {
        min := child;
      } else if node.parent.left == node {
        node.parent.left := child;
      } else {
        node.parent.right := child;
      }
    }

    /** The part of heap_remove that puts another node in the place of the removed one. */
    method Replace(node: Timer, child: Timer, ghost i: nat)
      requires Linked(nodes, min) && i < |nodes| && nodes[i] == node && child !in nodes
      modifies this`min, this`nodes, child`left, child`right, child`parent
      modifies Members(nodes)`left, Members(nodes)`right, Members(nodes)`parent
      ensures nodes == old(nodes)[i := child] && Linked(nodes, min)
    {
      ghost var was, before := nodes, Snapshot(nodes);
      LinkedShape(nodes, min);
      assert before[i] == LinkFor(was, i);
      assert i > 0 ==> before[Up(i)] == LinkFor(was, Up(i));
      OnlySlot(was, 2 * i + 1);
      OnlySlot(was, 2 * i + 2);
      OnlySlot(was, if i > 0 then Up(i) else |was|);
      PlacePointers(node, child, node.parent, node.left, node.right);
      nodes := nodes[i := child];
      assert PointersPlaced(was, before, Snapshot(nodes), i, child);
      PlacedIsLinked(was, before, nodes, i, child, min);
    }

    /** heap_insert up to the walk. */
    method Attach(newnode: Timer)
      requires nelts == |nodes| && Linked(nodes, min) && newnode !in nodes
      modifies this, newnode`left, newnode`right, newnode`parent, Members(nodes)`left, Members(nodes)`right
      ensures nelts == |nodes| && nodes == old(nodes) + [newnode] && Linked(nodes, min)
    {
      newnode.left, newnode.right, newnode.parent := null, null, null;
      var k, path := SlotPath(1 + nelts);
      var parent, child := FollowPath(1 + nelts, k, path);
      Hang(newnode, parent, child);
      nelts := nelts + 1;
    }

    /** heap_insert: adds exactly the node. */
    method Insert(newnode: Timer)
      requires Valid() && newnode !in nodes && nelts + 1 < 0x1_0000_0000
      modifies this, newnode`left, newnode`right, newnode`parent
      modifies Members(nodes)`left, Members(nodes)`right, Members(nodes)`parent
      ensures Valid() && Members(nodes) == old(Members(nodes)) + {newnode} && nelts == old(nelts) + 1
    {
      ghost var was, ks := nodes, Keys(nodes);
      Attach(newnode);
      KeysAppend(was, newnode);
      AppendAlmost(ks, newnode.K());
      MembersAppend(was, newnode);
      WalkUp(newnode, nelts - 1);
    }

    /** heap_remove up to unlinking the last node. */
    method Detach() returns (last: Timer)
      requires nelts == |nodes| > 0 && Linked(nodes, min)
      modifies this, Members(nodes)`left, Members(nodes)`right
      ensures nelts == |nodes| && old(nodes) == nodes + [last] && last !in nodes && Linked(nodes, min)
    {
      var k, path := SlotPath(nelts);
      var _, max := FollowPath(nelts, k, path);
      DerefSlot(nelts);
      nelts := nelts - 1;
      last := Deref(max);
      assert last == nodes[|nodes| - 1];
      Unhang(max);
    }

    /** heap_remove: takes away exactly the node. */
    method Remove(node: Timer)
      requires Valid() && (nelts == 0 || node in nodes)
      modifies this, Members(nodes)`left, Members(nodes)`right, Members(nodes)`parent
      ensures Valid() && Members(nodes) == old(Members(nodes)) - {node}
      ensures nelts == if old(nelts) == 0 then 0 else old(nelts) - 1
    {
      if nelts == 0 {
        return;
      }
      ghost var was, ks := nodes, Keys(nodes);
      var child := Detach();
      KeysAppend(nodes, child);
      MembersAppend(nodes, child);
      if child == node {
        PrefixOrdered(ks);
        assert ks[..nelts] == Keys(nodes);
        // The source tests once more whether the node is the root; min is null by now if it was.
        return;
      }
      ghost var i: nat :| i < |nodes| && nodes[i] == node;
      PutInPlace(node, child, i, ks);
    }

    /** heap_remove once the last node is unlinked and it is not the one to remove. */
    method PutInPlace(node: Timer, child: Timer, ghost i: nat, ghost ks: seq<Key>)
      requires nelts == |nodes| && Linked(nodes, min) && i < |nodes| && nodes[i] == node
      requires child !in nodes && Ordered(ks) && ks == Keys(nodes) + [child.K()]
      modifies this`min, this`nodes, child`left, child`right, child`parent
      modifies Members(nodes)`left, Members(nodes)`right, Members(nodes)`parent
      ensures Valid() && nelts == old(nelts) && Members(nodes) == old(Members(nodes)) - {node} + {child}
    {
      ghost var was := nodes;
      Replace(node, child, i);
      KeysUpdate(was, i, child);
      UpdateAlmost(ks, i);
      MembersUpdate(was, i, child);
      Settle(child, i);
    }

    /** The two walks that end heap_remove. */
    method Settle(node: Timer, ghost i: nat)
      requires nelts == |nodes| && Linked(nodes, min) && Almost(Keys(nodes), i) && nodes[i] == node
      modifies this`min, this`nodes, Members(nodes)`left, Members(nodes)`right, Members(nodes)`parent
      ensures Valid() && nelts == old(nelts) && Members(nodes) == old(Members(nodes))
    {
      ghost var j := WalkDown(node, i);
      WalkUp(node, j);
    }
  }

  /** The pointers the replacement touches, and that it touches no others. */
  ghost predicate PointersPlaced(was: seq<Timer>, a: seq<Link>, b: seq<Link>, i: nat, child: Timer)
    requires i < |was| == |a| == |b|
  {
    && b[i] == a[i]
    && (i > 0 ==> b[Up(i)].left == (if a[Up(i)].left == was[i] then child else a[Up(i)].left))
    && (i > 0 ==> b[Up(i)].right == (if a[Up(i)].left == was[i] then a[Up(i)].right else child))
    && (2 * i + 1 < |was| ==> b[2 * i + 1].parent == child)
    && (2 * i + 2 < |was| ==> b[2 * i + 2].parent == child)
    && (forall k {:trigger b[k]} :: 0 <= k < |was| && k != i ==>
          && ((i > 0 && k == Up(i)) || (b[k].left == a[k].left && b[k].right == a[k].right))
          && (k == 2 * i + 1 || k == 2 * i + 2 || b[k].parent == a[k].parent))
  }

  lemma PlacedIsLinked(was: seq<Timer>, a: seq<Link>, nodes: seq<Timer>, i: nat, child: Timer, min: Timer?)
    requires Distinct(was) && child !in was && i < |was| == |a| && nodes == was[i := child]
    requires Shape(was, a) && PointersPlaced(was, a, Snapshot(nodes), i, child)
    requires min == if i == 0 then child else was[0]
    ensures Linked(nodes, min)
  {
    forall k | 0 <= k < |nodes| ensures LinkedAt(nodes, k) {
      PlacedLink(was, a, Snapshot(nodes), i, child, k);
    }
  }

  lemma PlacedLink(was: seq<Timer>, a: seq<Link>, b: seq<Link>, i: nat, child: Timer, k: nat)
    requires Distinct(was) && i < |was| == |a| == |b| && k < |was|
    requires Shape(was, a) && PointersPlaced(was, a, b, i, child)
    ensures b[k] == LinkFor(was[i := child], k)
  {
    AroundSlot(i, k);
    assert a[k] == LinkFor(was, k);
  }

  lemma KeysAppend(nodes: seq<Timer>, node: Timer)
    ensures Keys(nodes + [node]) == Keys(nodes) + [node.K()]
  {
    assert (nodes + [node])[..|nodes|] == nodes;
  }

  lemma KeysUpdate(nodes: seq<Timer>, i: nat, node: Timer)
    requires i < |nodes|
    ensures Keys(nodes[i := node]) == Keys(nodes)[i := node.K()]
  {
    var a, b := Keys(nodes[i := node]), Keys(nodes)[i := node.K()];
    assert |a| == |b| && forall k :: 0 <= k < |a| ==> a[k] == b[k];
  }

  lemma MembersAppend(nodes: seq<Timer>, node: Timer)
    ensures Members(nodes + [node]) == Members(nodes) + {node}
  {}

  lemma MembersUpdate(nodes: seq<Timer>, i: nat, node: Timer)
    requires Distinct(nodes) && i < |nodes| && node !in nodes
    ensures Members(nodes[i := node]) == Members(nodes) - {nodes[i]} + {node}
  {
    var t := nodes[i := node];
    forall n | n in Members(nodes) && n != nodes[i] ensures n in Members(t) {
      var k :| 0 <= k < |nodes| && nodes[k] == n;
      assert t[k] == n;
    }
    assert t[i] == node;
  }

  lemma AppendAlmost(ks: seq<Key>, key: Key)
    requires Ordered(ks)
    ensures UpAlmost(ks + [key], |ks|)
  {
    forall k | 0 <= k < |ks| ensures OrderedAt(ks + [key], k) {
      assert OrderedAt(ks, k);
    }
  }

  lemma PrefixOrdered(ks: seq<Key>)
    requires Ordered(ks) && ks != []
    ensures Ordered(ks[..|ks| - 1])
  {
    var front := ks[..|ks| - 1];
    forall k | 0 <= k < |front| ensures OrderedAt(front, k) {
      assert OrderedAt(ks, k);
    }
  }

  /** The last key put into slot i. */
  lemma UpdateAlmost(ks: seq<Key>, i: nat)
    requires Ordered(ks) && i < |ks| - 1
    ensures Almost(ks[..|ks| - 1][i := ks[|ks| - 1]], i)
  {
    var t := ks[..|ks| - 1][i := ks[|ks| - 1]];
    forall k | 0 <= k < |t| && k != i && !(k > 0 && Up(k) == i) ensures OrderedAt(t, k) {
      assert OrderedAt(ks, k);
    }
    forall k | 0 <= k < |t| ensures BridgedAt(t, i, k) {
      if i > 0 && k > 0 && Up(k) == i {
        assert OrderedAt(ks, k) && OrderedAt(ks, i);
      }
    }
  }

  lemma HolderOfLast(n: nat, k: nat)
    requires k < n
    ensures 2 * k + 1 == n <==> n % 2 == 1 && k == (n + 1) / 2 - 1
    ensures 2 * k + 2 == n <==> n % 2 == 0 && k == (n + 1) / 2 - 1
  {}

  lemma AroundSlot(i: nat, k: nat)
    ensures k > 0 && Up(k) == i <==> k == 2 * i + 1 || k == 2 * i + 2
    ensures 2 * k + 1 == i || 2 * k + 2 == i <==> i > 0 && k == Up(i)
  {}

  ghost predicate SameNodes(a: seq<Timer>, b: seq<Timer>) {
    |a| == |b| && Members(a) == Members(b)
  }

  lemma SmallestChild(ks: seq<Key>, i: nat, c: nat)
    requires i < |ks| && c < |ks|
    requires
      var c0 := if 2 * i + 1 < |ks| && Less(ks[2 * i + 1], ks[i]) then 2 * i + 1 else i;
      c == if 2 * i + 2 < |ks| && Less(ks[2 * i + 2], ks[c0]) then 2 * i + 2 else c0
    ensures c != i ==> Less(ks[c], ks[i]) && c > 0 && Up(c) == i
    ensures forall k {:trigger Up(k)} :: 0 < k < |ks| && Up(k) == i ==> !Less(ks[k], ks[c])
  {}

  lemma KeysExchange(nodes: seq<Timer>, i: nat, j: nat)
    requires i < |nodes| && j < |nodes|
    ensures Keys(Exchange(nodes, i, j)) == Exchange(Keys(nodes), i, j)
  {
    var a, b := Keys(Exchange(nodes, i, j)), Exchange(Keys(nodes), i, j);
    assert |a| == |b| && forall k :: 0 <= k < |a| ==> a[k] == b[k];
  }

  lemma LinkedShape(nodes: seq<Timer>, min: Timer?)
    requires Linked(nodes, min)
    ensures Shape(nodes, Snapshot(nodes))
  {
    forall k | 0 <= k < |nodes| ensures Snapshot(nodes)[k] == LinkFor(nodes, k) {
      assert LinkedAt(nodes, k);
    }
  }

  lemma Relinked(was: seq<Timer>, before: seq<Link>, i: nat, j: nat, min: Timer?)
    requires Distinct(was) && Shape(was, before) && i < j < |was| && Up(j) == i
    requires PointersSwapped(was, before, Snapshot(was), i, j)
    requires min == if i == 0 then was[j] else was[0]
    ensures Linked(Exchange(was, i, j), min)
  {
    var nodes, after := Exchange(was, i, j), Snapshot(was);
    ExchangeDistinct(was, i, j);
    forall k | 0 <= k < |nodes| ensures LinkedAt(nodes, k) {
      SwapShape(was, before, after, i, j, k);
      assert nodes[k] == was[Place(k, i, j)];
    }
  }
}
