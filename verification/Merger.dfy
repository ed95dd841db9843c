/** MergingIterator (table/merger.cc): several sorted runs read as one, in both directions. */
module Merger {
  import opened Keys

  /** `e` is the least entry with a key after `k`. */
  ghost predicate IsFirstAfter(entries: set<Entry>, k: InternalKey, e: Entry) {
    e in entries && Less(k, e.key) && forall f :: f in entries && Less(k, f.key) ==> !Less(f.key, e.key)
  }

  ghost predicate IsLastBefore(entries: set<Entry>, k: InternalKey, e: Entry) {
    e in entries && Less(e.key, k) && forall f :: f in entries && Less(f.key, k) ==> !Less(e.key, f.key)
  }

  ghost predicate IsFirstNotBefore(entries: set<Entry>, k: InternalKey, e: Entry) {
    e in entries && !Less(e.key, k) && forall f :: f in entries && !Less(f.key, k) ==> !Less(f.key, e.key)
  }

  ghost predicate IsMin(entries: set<Entry>, e: Entry) {
    e in entries && forall f :: f in entries ==> !Less(f.key, e.key)
  }

  ghost predicate IsMax(entries: set<Entry>, e: Entry) {
    e in entries && forall f :: f in entries ==> !Less(e.key, f.key)
  }

  function Union(runs: seq<seq<Entry>>): set<Entry> {
    set i, e | 0 <= i < |runs| && e in runs[i] :: e
  }

  /** A cursor over one sorted run; None is "not valid". */
  type Cursor = Option<nat>

  ghost predicate InRun(run: seq<Entry>, c: Cursor) {
    c.Some? ==> c.value < |run|
  }

  ghost predicate AtFirst(run: seq<Entry>, c: Cursor) {
    c == if run == [] then None else Some(0)
  }

  ghost predicate AtLast(run: seq<Entry>, c: Cursor) {
    c == if run == [] then None else Some(|run| - 1)
  }

  /** The cursor stands on the first entry after `k`, or is invalid if there is none. */
  ghost predicate JustAfter(run: seq<Entry>, c: Cursor, k: InternalKey) {
    InRun(run, c) &&
    match c
    case None => forall q :: 0 <= q < |run| ==> !Less(k, run[q].key)
    case Some(p) => Less(k, run[p].key) && forall q :: 0 <= q < p ==> !Less(k, run[q].key)
  }

  ghost predicate JustBefore(run: seq<Entry>, c: Cursor, k: InternalKey) {
    InRun(run, c) &&
    match c
    case None => forall q :: 0 <= q < |run| ==> !Less(run[q].key, k)
    case Some(p) => Less(run[p].key, k) && forall q :: p < q < |run| ==> !Less(run[q].key, k)
  }

  ghost predicate NotBefore(run: seq<Entry>, c: Cursor, k: InternalKey) {
    InRun(run, c) &&
    match c
    case None => forall q :: 0 <= q < |run| ==> Less(run[q].key, k)
    case Some(p) => !Less(run[p].key, k) && forall q :: 0 <= q < p ==> Less(run[q].key, k)
  }

  method SeekRun(run: seq<Entry>, target: InternalKey) returns (c: Cursor)
    requires Sorted(run)
    ensures NotBefore(run, c, target)
  {
    var i := LowerBound(run, target);
    c := if i < |run| then Some(i) else None;
  }

  function Advance(run: seq<Entry>, c: Cursor): Cursor {
    if c.Some? && c.value + 1 < |run| then Some(c.value + 1) else None
  }

  function Retreat(c: Cursor): Cursor {
    if c.Some? && c.value > 0 then Some(c.value - 1) else None
  }

  /** MergingIterator::Prev's repositioning of a sought child: step back, or to the last entry. */
  function StepBack(run: seq<Entry>, c: Cursor): Cursor {
    if c.Some? then Retreat(c) else if run == [] then None else Some(|run| - 1)
  }

  /** `current` is the child with the least key, if any child is valid. */
  ghost predicate PicksSmallest(runs: seq<seq<Entry>>, children: seq<Cursor>, current: Option<nat>) {
    && |children| == |runs|
    && (forall i :: 0 <= i < |runs| ==> InRun(runs[i], children[i]))
    && (current.None? ==> forall i :: 0 <= i < |runs| ==> children[i].None?)
    && (current.Some? ==> current.value < |runs| && children[current.value].Some?)
    && (current.Some? ==> forall i :: 0 <= i < |runs| && children[i].Some? ==>
          !Less(KeyAt(runs, children, i), KeyAt(runs, children, current.value)))
  }

  ghost predicate PicksLargest(runs: seq<seq<Entry>>, children: seq<Cursor>, current: Option<nat>) {
    && |children| == |runs|
    && (forall i :: 0 <= i < |runs| ==> InRun(runs[i], children[i]))
    && (current.None? ==> forall i :: 0 <= i < |runs| ==> children[i].None?)
    && (current.Some? ==> current.value < |runs| && children[current.value].Some?)
    && (current.Some? ==> forall i :: 0 <= i < |runs| && children[i].Some? ==>
          !Less(KeyAt(runs, children, current.value), KeyAt(runs, children, i)))
  }

  function KeyAt(runs: seq<seq<Entry>>, children: seq<Cursor>, i: nat): InternalKey
    requires i < |runs| && i < |children| && children[i].Some? && children[i].value < |runs[i]|
  {
    runs[i][children[i].value].key
  }

  lemma InUnion(runs: seq<seq<Entry>>, i: nat, q: nat)
    requires i < |runs| && q < |runs[i]|
    ensures runs[i][q] in Union(runs)
  {
    assert runs[i][q] in runs[i];
  }

  ghost predicate HasKey(run: seq<Entry>, k: InternalKey) {
    exists q :: 0 <= q < |run| && run[q].key == k
  }

  lemma KeyNotInOtherRun(runs: seq<seq<Entry>>, c: nat, i: nat, q: nat)
    requires Mergeable(runs) && c < |runs| && i < |runs| && i != c && q < |runs[c]|
    ensures !HasKey(runs[i], runs[c][q].key)
  {
    assert NoSharedKey(runs[i], runs[c]);
  }

  // One run at a time: where a cursor that splits its run at a bound stands relative to the
  // key `k` picked from all the cursors.

  lemma AfterBound(run: seq<Entry>, c: Cursor, bound: InternalKey, k: InternalKey)
    requires Sorted(run) && JustAfter(run, c, bound) && Less(bound, k) && (c.Some? ==> !Less(run[c.value].key, k))
    ensures !HasKey(run, k) ==> JustAfter(run, c, k)
    ensures forall q :: 0 <= q < |run| && Less(bound, run[q].key) ==> !Less(run[q].key, k)
  {
    if !HasKey(run, k) && c.Some? {
      assert run[c.value].key != k;
    }
  }

  lemma BeforeBound(run: seq<Entry>, c: Cursor, bound: InternalKey, k: InternalKey)
    requires Sorted(run) && JustBefore(run, c, bound) && Less(k, bound) && (c.Some? ==> !Less(k, run[c.value].key))
    ensures !HasKey(run, k) ==> JustBefore(run, c, k)
    ensures forall q :: 0 <= q < |run| && Less(run[q].key, bound) ==> !Less(k, run[q].key)
  {
    if !HasKey(run, k) && c.Some? {
      assert run[c.value].key != k;
    }
  }

  lemma AtOrAfterBound(run: seq<Entry>, c: Cursor, bound: InternalKey, k: InternalKey)
    requires Sorted(run) && NotBefore(run, c, bound) && !Less(k, bound) && (c.Some? ==> !Less(run[c.value].key, k))
    ensures !HasKey(run, k) ==> JustAfter(run, c, k)
    ensures forall q :: 0 <= q < |run| && !Less(run[q].key, bound) ==> !Less(run[q].key, k)
  {
    if !HasKey(run, k) && c.Some? {
      assert run[c.value].key != k;
    }
  }

  lemma FromFirst(run: seq<Entry>, c: Cursor, k: InternalKey)
    requires Sorted(run) && AtFirst(run, c) && (c.Some? ==> !Less(run[c.value].key, k))
    ensures !HasKey(run, k) ==> JustAfter(run, c, k)
    ensures forall q :: 0 <= q < |run| ==> !Less(run[q].key, k)
  {
    if !HasKey(run, k) && c.Some? {
      assert run[c.value].key != k;
    }
  }

  lemma FromLast(run: seq<Entry>, c: Cursor, k: InternalKey)
    requires Sorted(run) && AtLast(run, c) && (c.Some? ==> !Less(k, run[c.value].key))
    ensures !HasKey(run, k) ==> JustBefore(run, c, k)
    ensures forall q :: 0 <= q < |run| ==> !Less(k, run[q].key)
  {
    if !HasKey(run, k) && c.Some? {
      assert run[c.value].key != k;
    }
  }

  /** Finding a key's position in a run that does not hold it. */
  lemma SoughtInOtherRun(run: seq<Entry>, c: Cursor, k: InternalKey)
    requires Sorted(run) && NotBefore(run, c, k) && !HasKey(run, k)
    ensures JustAfter(run, c, k)
    ensures c.Some? ==> run[c.value].key != k
    ensures JustBefore(run, StepBack(run, c), k)
  {
    if c.Some? {
      assert run[c.value].key != k;
    }
  }

  /** Among children that each split their run at the bound, the least one follows the bound in
      the union, and the others stand just after it. */
  lemma SmallestAfter(runs: seq<seq<Entry>>, children: seq<Cursor>, current: Option<nat>, bound: InternalKey)
    requires Mergeable(runs) && PicksSmallest(runs, children, current)
    requires forall i :: 0 <= i < |runs| ==> JustAfter(runs[i], children[i], bound)
    ensures current.None? ==> forall e :: e in Union(runs) ==> !Less(bound, e.key)
    ensures current.Some? ==> IsFirstAfter(Union(runs), bound, runs[current.value][children[current.value].value])
    ensures current.Some? ==> forall i :: 0 <= i < |runs| && i != current.value ==>
      JustAfter(runs[i], children[i], KeyAt(runs, children, current.value))
  {
    if current.None? {
      return;
    }
    var c := current.value;
    var e := runs[c][children[c].value];
    InUnion(runs, c, children[c].value);
    forall i | 0 <= i < |runs|
      ensures i != c ==> JustAfter(runs[i], children[i], e.key)
      ensures forall q :: 0 <= q < |runs[i]| && Less(bound, runs[i][q].key) ==> !Less(runs[i][q].key, e.key)
    {
      if i != c {
        KeyNotInOtherRun(runs, c, i, children[c].value);
      }
      AfterBound(runs[i], children[i], bound, e.key);
    }
  }

  lemma LargestBefore(runs: seq<seq<Entry>>, children: seq<Cursor>, current: Option<nat>, bound: InternalKey)
    requires Mergeable(runs) && PicksLargest(runs, children, current)
    requires forall i :: 0 <= i < |runs| ==> JustBefore(runs[i], children[i], bound)
    ensures current.None? ==> forall e :: e in Union(runs) ==> !Less(e.key, bound)
    ensures current.Some? ==> IsLastBefore(Union(runs), bound, runs[current.value][children[current.value].value])
    ensures current.Some? ==> forall i :: 0 <= i < |runs| && i != current.value ==>
      JustBefore(runs[i], children[i], KeyAt(runs, children, current.value))
  {
    if current.None? {
      return;
    }
    var c := current.value;
    var e := runs[c][children[c].value];
    InUnion(runs, c, children[c].value);
    forall i | 0 <= i < |runs|
      ensures i != c ==> JustBefore(runs[i], children[i], e.key)
      ensures forall q :: 0 <= q < |runs[i]| && Less(runs[i][q].key, bound) ==> !Less(e.key, runs[i][q].key)
    {
      if i != c {
        KeyNotInOtherRun(runs, c, i, children[c].value);
      }
      BeforeBound(runs[i], children[i], bound, e.key);
    }
  }

  lemma SmallestNotBefore(runs: seq<seq<Entry>>, children: seq<Cursor>, current: Option<nat>, bound: InternalKey)
    requires Mergeable(runs) && PicksSmallest(runs, children, current)
    requires forall i :: 0 <= i < |runs| ==> NotBefore(runs[i], children[i], bound)
    ensures current.None? ==> forall e :: e in Union(runs) ==> Less(e.key, bound)
    ensures current.Some? ==> IsFirstNotBefore(Union(runs), bound, runs[current.value][children[current.value].value])
    ensures current.Some? ==> forall i :: 0 <= i < |runs| && i != current.value ==>
      JustAfter(runs[i], children[i], KeyAt(runs, children, current.value))
  {
    if current.None? {
      return;
    }
    var c := current.value;
    var e := runs[c][children[c].value];
    InUnion(runs, c, children[c].value);
    forall i | 0 <= i < |runs|
      ensures i != c ==> JustAfter(runs[i], children[i], e.key)
      ensures forall q :: 0 <= q < |runs[i]| && !Less(runs[i][q].key, bound) ==> !Less(runs[i][q].key, e.key)
    {
      if i != c {
        KeyNotInOtherRun(runs, c, i, children[c].value);
      }
      AtOrAfterBound(runs[i], children[i], bound, e.key);
    }
  }

  lemma SmallestOfFirsts(runs: seq<seq<Entry>>, children: seq<Cursor>, current: Option<nat>)
    requires Mergeable(runs) && PicksSmallest(runs, children, current)
    requires forall i :: 0 <= i < |runs| ==> AtFirst(runs[i], children[i])
    ensures current.None? ==> Union(runs) == {}
    ensures current.Some? ==> IsMin(Union(runs), runs[current.value][children[current.value].value])
    ensures current.Some? ==> forall i :: 0 <= i < |runs| && i != current.value ==>
      JustAfter(runs[i], children[i], KeyAt(runs, children, current.value))
  {
    if current.None? {
      return;
    }
    var c := current.value;
    var e := runs[c][children[c].value];
    InUnion(runs, c, children[c].value);
    forall i | 0 <= i < |runs|
      ensures i != c ==> JustAfter(runs[i], children[i], e.key)
      ensures forall q :: 0 <= q < |runs[i]| ==> !Less(runs[i][q].key, e.key)
    {
      if i != c {
        KeyNotInOtherRun(runs, c, i, children[c].value);
      }
      FromFirst(runs[i], children[i], e.key);
    }
  }

  lemma LargestOfLasts(runs: seq<seq<Entry>>, children: seq<Cursor>, current: Option<nat>)
    requires Mergeable(runs) && PicksLargest(runs, children, current)
    requires forall i :: 0 <= i < |runs| ==> AtLast(runs[i], children[i])
    ensures current.None? ==> Union(runs) == {}
    ensures current.Some? ==> IsMax(Union(runs), runs[current.value][children[current.value].value])
    ensures current.Some? ==> forall i :: 0 <= i < |runs| && i != current.value ==>
      JustBefore(runs[i], children[i], KeyAt(runs, children, current.value))
  {
    if current.None? {
      return;
    }
    var c := current.value;
    var e := runs[c][children[c].value];
    InUnion(runs, c, children[c].value);
    forall i | 0 <= i < |runs|
      ensures i != c ==> JustBefore(runs[i], children[i], e.key)
      ensures forall q :: 0 <= q < |runs[i]| ==> !Less(e.key, runs[i][q].key)
    {
      if i != c {
        KeyNotInOtherRun(runs, c, i, children[c].value);
      }
      FromLast(runs[i], children[i], e.key);
    }
  }

  ghost predicate NoSharedKey(a: seq<Entry>, b: seq<Entry>) {
    forall p, q :: 0 <= p < |a| && 0 <= q < |b| ==> a[p].key != b[q].key
  }

  /** The runs a merge reads: each sorted, no key in two of them. */
  ghost predicate Mergeable(runs: seq<seq<Entry>>) {
    && (forall i :: 0 <= i < |runs| ==> Sorted(runs[i]))
    && (forall i, j {:trigger NoSharedKey(runs[i], runs[j])} :: 0 <= i < |runs| && 0 <= j < |runs| && i != j ==>
          NoSharedKey(runs[i], runs[j]))
  }

  class MergingIterator {
    const runs: seq<seq<Entry>>
    var children: seq<Cursor>
    var current: Option<nat>
    var forward: bool

    /** Every other child stands just after (forward) or just before (reverse) the current key. */
    ghost predicate Valid()
      reads this
    {
      && Mergeable(runs)
      && |children| == |runs|
      && (forall i :: 0 <= i < |runs| ==> InRun(runs[i], children[i]))
      && (current.Some? ==> current.value < |runs| && children[current.value].Some?)
      && (current.Some? ==> forall i :: 0 <= i < |runs| && i != current.value ==>
            if forward then JustAfter(runs[i], children[i], Current().key) else JustBefore(runs[i], children[i], Current().key))
    }

    function Current(): Entry
      reads this
      requires |children| == |runs| && current.Some? && current.value < |runs|
      requires children[current.value].Some? && children[current.value].value < |runs[current.value]|
    {
      runs[current.value][children[current.value].value]
    }

    /** The abstract cursor: an entry of the sorted union, or invalid. */
    ghost function At(): Option<Entry>
      reads this
      requires Valid()
    {
      if current.None? then None else Some(Current())
    }

    constructor (runs: seq<seq<Entry>>)
      requires Mergeable(runs)
      ensures Valid() && this.runs == runs && At() == None
    {
      this.runs := runs;
      children := seq(|runs|, i => None);
      current := None;
      forward := true;
    }

    method FindSmallest()
      requires |children| == |runs| && forall i :: 0 <= i < |runs| ==> InRun(runs[i], children[i])
      modifies this`current
      ensures PicksSmallest(runs, children, current)
    {
      current := None;
      for i := 0 to |runs|
        invariant current.None? ==> forall j :: 0 <= j < i ==> children[j].None?
        invariant current.Some? ==> current.value < i && children[current.value].Some?
        invariant current.Some? ==> forall j :: 0 <= j < i && children[j].Some? ==>
          !Less(KeyAt(runs, children, j), KeyAt(runs, children, current.value))
      {
        if children[i].Some? {
          if current.None? || Less(KeyAt(runs, children, i), KeyAt(runs, children, current.value)) {
            current := Some(i);
          }
        }
      }
    }

    method FindLargest()
      requires |children| == |runs| && forall i :: 0 <= i < |runs| ==> InRun(runs[i], children[i])
      modifies this`current
      ensures PicksLargest(runs, children, current)
    {
      current := None;
      for i := |runs| downto 0
        invariant current.None? ==> forall j :: i <= j < |runs| ==> children[j].None?
        invariant current.Some? ==> i <= current.value < |runs| && children[current.value].Some?
        invariant current.Some? ==> forall j :: i <= j < |runs| && children[j].Some? ==>
          !Less(KeyAt(runs, children, current.value), KeyAt(runs, children, j))
      {
        if children[i].Some? {
          if current.None? || Less(KeyAt(runs, children, current.value), KeyAt(runs, children, i)) {
            current := Some(i);
          }
        }
      }
    }

    method SeekToFirst()
      requires Valid()
      modifies this
      ensures Valid()
      ensures match At() case None => Union(runs) == {} case Some(e) => IsMin(Union(runs), e)
    {
      children := seq(|runs|, i requires 0 <= i < |runs| => if runs[i] == [] then None else Some(0));
      forward := true;
      FindSmallest();
      SmallestOfFirsts(runs, children, current);
    }

    method SeekToLast()
      requires Valid()
      modifies this
      ensures Valid()
      ensures match At() case None => Union(runs) == {} case Some(e) => IsMax(Union(runs), e)
    {
      children := seq(|runs|, i requires 0 <= i < |runs| => if runs[i] == [] then None else Some(|runs[i]| - 1));
      forward := false;
      FindLargest();
      LargestOfLasts(runs, children, current);
    }

    method Seek(target: InternalKey)
      requires Valid()
      modifies this
      ensures Valid()
      ensures match At()
        case None => forall e :: e in Union(runs) ==> Less(e.key, target)
        case Some(e) => IsFirstNotBefore(Union(runs), target, e)
    {
      for i := 0 to |runs|
        invariant |children| == |runs|
        invariant forall j :: 0 <= j < |runs| ==> InRun(runs[j], children[j])
        invariant forall j :: 0 <= j < i ==> NotBefore(runs[j], children[j], target)
      {
        var c := SeekRun(runs[i], target);
        children := children[i := c];
      }
      forward := true;
      FindSmallest();
      SmallestNotBefore(runs, children, current, target);
    }

    /** Next: to the successor of the current entry in the sorted union, from either direction. */
    method Next()
      requires Valid() && At().Some?
      modifies this
      ensures Valid()
      ensures match At()
        case None => forall e :: e in Union(runs) ==> !Less(old(At()).value.key, e.key)
        case Some(e) => IsFirstAfter(Union(runs), old(At()).value.key, e)
    {
      var key := Current().key;
      var c := current.value;
      if !forward {
        for i := 0 to |runs|
          invariant |children| == |runs| && children[c] == old(children[c])
          invariant forall j :: 0 <= j < |runs| ==> InRun(runs[j], children[j])
          invariant forall j :: 0 <= j < i && j != c ==> JustAfter(runs[j], children[j], key)
        {
          if i != c {
            var run := runs[i];
            var sought := SeekRun(run, key);
            var child := sought;
            if child.Some? && run[child.value].key == key {
              child := Advance(run, child);
            }
            KeyNotInOtherRun(runs, c, i, children[c].value);
            SoughtInOtherRun(run, sought, key);
            children := children[i := child];
          }
        }
        forward := true;
      }
      children := children[c := Advance(runs[c], children[c])];
      FindSmallest();
      SmallestAfter(runs, children, current, key);
    }

    /** Prev: to the predecessor of the current entry in the sorted union, from either direction. */
    method Prev()
      requires Valid() && At().Some?
      modifies this
      ensures Valid()
      ensures match At()
        case None => forall e :: e in Union(runs) ==> !Less(e.key, old(At()).value.key)
        case Some(e) => IsLastBefore(Union(runs), old(At()).value.key, e)
    {
      var key := Current().key;
      var c := current.value;
      if forward {
        for i := 0 to |runs|
          invariant |children| == |runs| && children[c] == old(children[c])
          invariant forall j :: 0 <= j < |runs| ==> InRun(runs[j], children[j])
          invariant forall j :: 0 <= j < i && j != c ==> JustBefore(runs[j], children[j], key)
        {
          if i != c {
            var sought := SeekRun(runs[i], key);
            KeyNotInOtherRun(runs, c, i, children[c].value);
            SoughtInOtherRun(runs[i], sought, key);
            children := children[i := StepBack(runs[i], sought)];
          }
        }
        forward := false;
      }
      children := children[c := Retreat(children[c])];
      FindLargest();
      LargestBefore(runs, children, current, key);
    }
  }

  /** Reading a merge from the first entry to the end, as the compaction loop and iterators do. */
  method MergeAll(runs: seq<seq<Entry>>) returns (merged: seq<Entry>)
    requires Mergeable(runs)
    ensures Sorted(merged) && EntrySet(merged) == Union(runs)
  {
    merged := [];
    var it := new MergingIterator(runs);
    it.SeekToFirst();
    while it.current.Some?
      invariant it.Valid() && it.runs == runs && fresh(it)
      invariant ReadUpTo(runs, merged, it.At())
      decreases Union(runs) - EntrySet(merged)
    {
      ghost var before := merged;
      var e := it.Current();
      it.Next();
      ReadOneMore(runs, merged, e, it.At());
      merged := merged + [e];
      assert e in EntrySet(merged) && e !in EntrySet(before);
      assert EntrySet(merged) == EntrySet(before) + {e};
    }
  }

  /** `merged` holds, in order, exactly the entries before the cursor. */
  ghost predicate ReadUpTo(runs: seq<seq<Entry>>, merged: seq<Entry>, at: Option<Entry>) {
    && Sorted(merged)
    && match at
       case None => EntrySet(merged) == Union(runs)
       case Some(e) => e in Union(runs) && forall f :: f in merged <==> f in Union(runs) && Less(f.key, e.key)
  }

  lemma ReadOneMore(runs: seq<seq<Entry>>, merged: seq<Entry>, e: Entry, next: Option<Entry>)
    requires Mergeable(runs) && ReadUpTo(runs, merged, Some(e))
    requires match next
      case None => forall f :: f in Union(runs) ==> !Less(e.key, f.key)
      case Some(x) => IsFirstAfter(Union(runs), e.key, x)
    ensures ReadUpTo(runs, merged + [e], next)
    ensures e !in merged
  {
    forall f | f in Union(runs) && !Less(f.key, e.key) && !Less(e.key, f.key) ensures f == e {
      SameKeySameEntry(runs, e, f);
    }
  }

  lemma SameKeySameEntry(runs: seq<seq<Entry>>, e: Entry, f: Entry)
    requires Mergeable(runs) && e in Union(runs) && f in Union(runs)
    requires !Less(f.key, e.key) && !Less(e.key, f.key)
    ensures e == f
  {
    var i, p :| 0 <= i < |runs| && 0 <= p < |runs[i]| && runs[i][p] == e;
    var j, q :| 0 <= j < |runs| && 0 <= q < |runs[j]| && runs[j][q] == f;
    assert e.key == f.key;
    if i != j {
      KeyNotInOtherRun(runs, i, j, p);
    }
  }

  // ----- The union as a sorted list -----

  ghost predicate Comparable(entries: set<Entry>) {
    forall e, f :: e in entries && f in entries && e != f ==> Less(e.key, f.key) || Less(f.key, e.key)
  }

  lemma {:induction false} GreatestExists(entries: set<Entry>) returns (e: Entry)
    requires entries != {} && Comparable(entries)
    ensures e in entries && forall f :: f in entries && f != e ==> Less(f.key, e.key)
    decreases |entries|
  {
    e :| e in entries;
    var rest := entries - {e};
    if rest != {} {
      var g := GreatestExists(rest);
      if Less(e.key, g.key) {
        e := g;
      }
    }
  }

  lemma {:induction false} SortedListOf(entries: set<Entry>) returns (list: seq<Entry>)
    requires Comparable(entries)
    ensures Sorted(list) && EntrySet(list) == entries
    decreases |entries|
  {
    if entries == {} {
      return [];
    }
    var e := GreatestExists(entries);
    var init := SortedListOf(entries - {e});
    list := init + [e];
    assert EntrySet(init + [e]) == EntrySet(init) + {e};
    forall i | 0 <= i < |init| ensures Less(init[i].key, e.key) {
      assert init[i] in EntrySet(init);
    }
  }

  lemma SortedUnion(runs: seq<seq<Entry>>) returns (list: seq<Entry>)
    requires Mergeable(runs)
    ensures Sorted(list) && EntrySet(list) == Union(runs)
  {
    forall e, f | e in Union(runs) && f in Union(runs) && e != f ensures Less(e.key, f.key) || Less(f.key, e.key) {
      if !Less(f.key, e.key) && !Less(e.key, f.key) {
        SameKeySameEntry(runs, e, f);
      }
    }
    list := SortedListOf(Union(runs));
  }
}
