/** DBIter (db/db_iter.cc): the user-key iterator over the multi-version entries. */
module DbIter {
  import opened Keys
  import opened Merger

  /** The internal iterator: a merging iterator over the runs, seen as a cursor over their sorted union. */
  class InternalIterator {
    const merging: MergingIterator
    ghost const list: seq<Entry>
    ghost var pos: Option<nat>

    ghost predicate Ok()
      reads this, merging
    {
      && merging.Valid() && Sorted(list) && EntrySet(list) == Union(merging.runs)
      && (pos.Some? ==> pos.value < |list|)
      && merging.At() == (if pos.Some? then Some(list[pos.value]) else None)
    }

    constructor (runs: seq<seq<Entry>>)
      requires Mergeable(runs)
      ensures Ok() && EntrySet(list) == Union(runs) && pos == None && fresh(merging)
    {
      merging := new MergingIterator(runs);
      ghost var sorted := SortedUnion(runs);
      list := sorted;
      pos := None;
    }

    predicate AtEntry()
      requires Ok()
      reads this, merging
      ensures AtEntry() == pos.Some?
    {
      merging.current.Some?
    }

    function Entry(): (e: Entry)
      requires Ok() && pos.Some?
      reads this, merging
      ensures e == list[pos.value]
    {
      merging.Current()
    }

    method SeekToFirst()
      requires Ok()
      modifies this, merging
      ensures Ok() && pos == if list == [] then None else Some(0)
    {
      merging.SeekToFirst();
      EndsOfList(list, merging.At());
      pos := if list == [] then None else Some(0);
    }

    method SeekToLast()
      requires Ok()
      modifies this, merging
      ensures Ok() && pos == if list == [] then None else Some(|list| - 1)
    {
      merging.SeekToLast();
      EndsOfList(list, merging.At());
      pos := if list == [] then None else Some(|list| - 1);
    }

    method Seek(target: InternalKey)
      requires Ok()
      modifies this, merging
      ensures Ok() && NotBefore(list, pos, target)
    {
      merging.Seek(target);
      ghost var p := SoughtInList(list, target, merging.At());
      pos := p;
    }

    method Next()
      requires Ok() && pos.Some?
      modifies this, merging
      ensures Ok() && pos == Advance(list, old(pos))
    {
      SetCursorIsListCursor(list, pos.value);
      merging.Next();
      pos := Advance(list, pos);
    }

    method Prev()
      requires Ok() && pos.Some?
      modifies this, merging
      ensures Ok() && pos == Retreat(old(pos))
    {
      SetCursorIsListCursor(list, pos.value);
      merging.Prev();
      pos := Retreat(pos);
    }
  }

  /** Moving in the union of the runs and moving in its sorted list are the same thing. */
  lemma SetCursorIsListCursor(list: seq<Entry>, i: nat)
    requires Sorted(list) && i < |list|
    ensures match Advance(list, Some(i))
      case Some(j) => forall e :: IsFirstAfter(EntrySet(list), list[i].key, e) <==> e == list[j]
      case None => forall e :: !IsFirstAfter(EntrySet(list), list[i].key, e)
    ensures match Retreat(Some(i))
      case Some(j) => forall e :: IsLastBefore(EntrySet(list), list[i].key, e) <==> e == list[j]
      case None => forall e :: !IsLastBefore(EntrySet(list), list[i].key, e)
  {
    forall e | e in EntrySet(list) ensures exists q :: 0 <= q < |list| && list[q] == e {}
    if i + 1 < |list| {
      assert list[i + 1] in EntrySet(list);
    }
    if i > 0 {
      assert list[i - 1] in EntrySet(list);
    }
  }

  /** The least and the greatest entry of the union are the ends of its list. */
  lemma EndsOfList(list: seq<Entry>, at: Option<Entry>)
    requires Sorted(list)
    ensures at.Some? && IsMin(EntrySet(list), at.value) ==> list != [] && at.value == list[0]
    ensures at.Some? && IsMax(EntrySet(list), at.value) ==> list != [] && at.value == list[|list| - 1]
    ensures EntrySet(list) == {} <==> list == []
  {
    if list != [] {
      assert list[0] in EntrySet(list) && list[|list| - 1] in EntrySet(list);
    }
  }

  lemma SoughtInList(list: seq<Entry>, target: InternalKey, at: Option<Entry>) returns (p: Option<nat>)
    requires Sorted(list)
    requires match at
      case None => forall e :: e in EntrySet(list) ==> Less(e.key, target)
      case Some(e) => IsFirstNotBefore(EntrySet(list), target, e)
    ensures NotBefore(list, p, target) && (if p.Some? then p.value < |list| && at == Some(list[p.value]) else at == None)
  {
    forall q | 0 <= q < |list| ensures list[q] in EntrySet(list) {}
    if at.None? {
      p := None;
    } else {
      var i :| 0 <= i < |list| && list[i] == at.value;
      p := Some(i);
    }
  }

  // ----- What the iterator should show -----

  ghost predicate Readable(list: seq<Entry>, s: nat, q: nat)
    requires q < |list|
  {
    list[q].key.seqno <= s
  }

  /** Entry q is the newest readable one of its user key, and a value. */
  ghost predicate ShownAt(list: seq<Entry>, s: nat, q: nat)
    requires q < |list|
  {
    && Readable(list, s, q)
    && list[q].key.kind.Put?
    && forall r :: 0 <= r < q && list[r].key.user == list[q].key.user ==> !Readable(list, s, r)
  }

  lemma UsersAscend(list: seq<Entry>, i: nat, j: nat)
    requires Sorted(list) && i <= j < |list|
    ensures list[i].key.user <= list[j].key.user
    ensures list[i].key.user == list[j].key.user ==> list[j].key.seqno <= list[i].key.seqno
  {
    assert i < j ==> Less(list[i].key, list[j].key);
  }

  /** A shown entry is what reading its user key yields. */
  lemma ShownIsView(list: seq<Entry>, s: nat, q: nat)
    requires Sorted(list) && UniqueSeqnos(EntrySet(list)) && q < |list| && ShownAt(list, s, q)
    ensures View(EntrySet(list), list[q].key.user, s) == Some(list[q].value)
  {
    forall e | e in EntrySet(list) && Matches(e, list[q].key.user, s) ensures e.key.seqno <= list[q].key.seqno {
      var r :| 0 <= r < |list| && list[r] == e;
      if q <= r { UsersAscend(list, q, r); }
    }
    NewestUnique(EntrySet(list), list[q].key.user, s, Some(list[q]));
  }

  /** Conversely, a user key that reads as a value is shown somewhere. */
  lemma ViewIsShown(list: seq<Entry>, s: nat, u: UserKey) returns (q: nat)
    requires Sorted(list) && UniqueSeqnos(EntrySet(list)) && View(EntrySet(list), u, s).Some?
    ensures q < |list| && list[q].key.user == u && ShownAt(list, s, q)
  {
    var n := Newest(EntrySet(list), u, s);
    q :| 0 <= q < |list| && list[q] == n.value;
    forall r | 0 <= r < q && list[r].key.user == u ensures !Readable(list, s, r) {
      assert Less(list[r].key, list[q].key);
      assert list[r] in EntrySet(list);
    }
  }

  lemma NotShownIsNone(list: seq<Entry>, s: nat, u: UserKey)
    requires Sorted(list) && UniqueSeqnos(EntrySet(list))
    requires forall q :: 0 <= q < |list| && list[q].key.user == u ==> !ShownAt(list, s, q)
    ensures View(EntrySet(list), u, s) == None
  {
    if View(EntrySet(list), u, s).Some? {
      var q := ViewIsShown(list, s, u);
    }
  }

  /** The iterator stands on user key k with value v. */
  datatype Item = Item(key: UserKey, value: Bytes)

  /** `r` is the first shown item with a user key after `lo` (None: no bound). */
  ghost predicate IsNextItem(list: seq<Entry>, s: nat, lo: Option<UserKey>, r: Option<Item>) {
    match r
    case None => forall u :: (lo.Some? ==> u > lo.value) ==> View(EntrySet(list), u, s) == None
    case Some(i) =>
      && (lo.Some? ==> i.key > lo.value)
      && View(EntrySet(list), i.key, s) == Some(i.value)
      && forall u :: (lo.Some? ==> u > lo.value) && u < i.key ==> View(EntrySet(list), u, s) == None
  }

  ghost predicate IsPrevItem(list: seq<Entry>, s: nat, hi: Option<UserKey>, r: Option<Item>) {
    match r
    case None => forall u :: (hi.Some? ==> u < hi.value) ==> View(EntrySet(list), u, s) == None
    case Some(i) =>
      && (hi.Some? ==> i.key < hi.value)
      && View(EntrySet(list), i.key, s) == Some(i.value)
      && forall u :: (hi.Some? ==> u < hi.value) && u > i.key ==> View(EntrySet(list), u, s) == None
  }

  ghost predicate IsSeekItem(list: seq<Entry>, s: nat, target: UserKey, r: Option<Item>) {
    match r
    case None => forall u :: u >= target ==> View(EntrySet(list), u, s) == None
    case Some(i) =>
      && i.key >= target
      && View(EntrySet(list), i.key, s) == Some(i.value)
      && forall u :: target <= u < i.key ==> View(EntrySet(list), u, s) == None
  }

  // ----- The scans -----

  /** Entry q is one FindNextUserEntry may stop at when entered at p0. */
  ghost predicate Wanted(list: seq<Entry>, s: nat, skipping: bool, skip: UserKey, q: nat)
    requires q < |list|
  {
    ShownAt(list, s, q) && !(skipping && list[q].key.user <= skip)
  }

  /** Readable entries before p hide only entries at or below the skipped key, and no readable
      entry from p on lies before it. */
  ghost predicate SkipCovers(list: seq<Entry>, s: nat, p: nat, skipping: bool, skip: UserKey)
    requires p <= |list|
  {
    && (forall r, q :: 0 <= r < p <= q < |list| && Readable(list, s, r) && list[r].key.user == list[q].key.user ==>
          skipping && list[q].key.user <= skip)
    && (skipping ==> forall q :: p <= q < |list| && Readable(list, s, q) ==> skip <= list[q].key.user)
  }

  /** Restricting the skip to what the caller asked for changes nothing that is wanted. */
  ghost predicate SameWanted(list: seq<Entry>, s: nat, p: nat, skipping0: bool, skip0: UserKey, skipping: bool, skip: UserKey) {
    forall q :: p <= q < |list| ==> (Wanted(list, s, skipping0, skip0, q) <==> Wanted(list, s, skipping, skip, q))
  }

  /** The value cleared strings have: the empty key (ByteOrder.Rank([]) is 0.0). */
  const CLEARED: UserKey := 0.0

  class DBIter {
    const iter: InternalIterator
    const sequence: nat
    var savedKey: UserKey
    var savedValue: Bytes
    var forward: bool
    var valid: bool

    /** Forward: the internal iterator stands on the shown entry. Reverse: the shown item is
        saved, and the internal iterator stands before everything readable of it. */
    ghost predicate Ok()
      reads this, iter, iter.merging
    {
      && iter.Ok() && UniqueSeqnos(EntrySet(iter.list))
      && (valid && forward ==> iter.pos.Some? && ShownAt(iter.list, sequence, iter.pos.value))
      && (valid && !forward ==> SavedAhead(iter.list, sequence, iter.pos, savedKey, savedValue))
    }

    ghost function At(): Option<Item>
      reads this, iter, iter.merging
      requires Ok()
    {
      if !valid then None
      else if forward then Some(Item(iter.list[iter.pos.value].key.user, iter.list[iter.pos.value].value))
      else Some(Item(savedKey, savedValue))
    }

    constructor (runs: seq<seq<Entry>>, sequence: nat)
      requires Mergeable(runs) && UniqueSeqnos(Union(runs))
      ensures Ok() && At() == None && fresh(iter) && fresh(iter.merging) && EntrySet(iter.list) == Union(runs)
      ensures this.sequence == sequence
    {
      iter := new InternalIterator(runs);
      this.sequence := sequence;
      savedKey, savedValue, forward, valid := CLEARED, [], true, false;
    }

    method FindNextUserEntry(skipping0: bool, skip0: UserKey)
      requires iter.Ok() && iter.pos.Some? && UniqueSeqnos(EntrySet(iter.list))
      requires SkipCovers(iter.list, sequence, iter.pos.value, skipping0, skip0) && forward
      modifies this, iter, iter.merging
      ensures iter.Ok() && forward
      ensures valid ==> iter.pos.Some? && old(iter.pos.value) <= iter.pos.value
      ensures valid ==> Wanted(iter.list, sequence, skipping0, skip0, iter.pos.value)
      ensures forall q :: old(iter.pos.value) <= q < (if valid then iter.pos.value else |iter.list|) ==>
        !Wanted(iter.list, sequence, skipping0, skip0, q)
    {
      var skipping, skip := skipping0, skip0;
      ghost var list, s, start := iter.list, sequence, iter.pos.value;
      while true
        invariant iter.Ok() && iter.pos.Some? && forward && start <= iter.pos.value
        invariant Scanning(list, s, start, iter.pos.value, skipping0, skip0, skipping, skip)
        decreases |list| - iter.pos.value
      {
        var found;
        found, skipping, skip := ScanEntry(iter.Entry().key, sequence, skipping, skip, list, start, iter.pos.value, skipping0, skip0);
        if found {
          valid := true;
          savedKey := CLEARED;
          return;
        }
        iter.Next();
        if !iter.AtEntry() {
          break;
        }
      }
      savedKey := CLEARED;
      valid := false;
    }

    /** The loop of FindPrevUserEntry. */
    method ScanBack() returns (valueType: Kind, ghost m: nat)
      requires iter.Ok() && UniqueSeqnos(EntrySet(iter.list))
      modifies this`savedKey, this`savedValue, iter, iter.merging
      ensures iter.Ok() && Passed(old(iter.pos)) >= Passed(iter.pos)
      ensures BackScan(iter.list, sequence, Passed(iter.pos), Passed(old(iter.pos)), m, valueType.Put?)
      ensures valueType.Put? ==> savedKey == iter.list[m].key.user && savedValue == iter.list[m].value
      ensures iter.pos.Some? ==> valueType.Put? && Readable(iter.list, sequence, iter.pos.value)
      ensures iter.pos.Some? ==> iter.list[iter.pos.value].key.user < savedKey
    {
      valueType := Deletion;
      ghost var list, s, start := iter.list, sequence, iter.pos;
      m := 0;
      assert BackScan(list, s, Passed(start), Passed(start), m, false);
      while iter.AtEntry()
        invariant iter.Ok() && Passed(start) >= Passed(iter.pos)
        invariant BackScan(list, s, Passed(iter.pos), Passed(start), m, valueType.Put?)
        invariant valueType.Put? ==> savedKey == list[m].key.user && savedValue == list[m].value
        decreases Passed(iter.pos)
      {
        ghost var p := iter.pos.value;
        var ikey := iter.Entry().key;
        if ikey.seqno <= sequence {
          if valueType.Put? && ikey.user < savedKey {
            return;
          }
          ScanReadable(list, s, p, Passed(start), m, valueType.Put?);
          valueType := ikey.kind;
          if valueType.Deletion? {
            savedKey, savedValue := CLEARED, [];
          } else {
            savedKey, savedValue := ikey.user, iter.Entry().value;
            m := p;
          }
        } else {
          ScanUnreadable(list, s, p, Passed(start), m, valueType.Put?);
        }
        iter.Prev();
      }
    }

    method FindPrevUserEntry(ghost bound: Option<UserKey>)
      requires iter.Ok() && UniqueSeqnos(EntrySet(iter.list)) && !forward
      requires StartFits(iter.list, sequence, iter.pos, bound)
      modifies this, iter, iter.merging
      ensures Ok()
      ensures IsPrevItem(iter.list, sequence, bound, At())
    {
      ghost var start := iter.pos;
      var valueType;
      ghost var m;
      valueType, m := ScanBack();
      if valueType.Deletion? {
        valid, savedKey, savedValue, forward := false, CLEARED, [], true;
        NoPrevItem(iter.list, sequence, start, bound);
      } else {
        valid := true;
        CandidateIsShown(iter.list, sequence, iter.pos, start, m, bound);
      }
    }

    method Next()
      requires Ok() && At().Some?
      modifies this, iter, iter.merging
      ensures Ok() && IsNextItem(iter.list, sequence, Some(old(At()).value.key), At())
    {
      ghost var key := At().value.key;
      ghost var list, s := iter.list, sequence;
      if !forward {
        forward := true;
        ReverseEntersAfter(list, s, iter.pos, key);
        if !iter.AtEntry() {
          iter.SeekToFirst();
        } else {
          iter.Next();
        }
        // The source also handles running off the end here; the saved item still lies ahead,
        // so that never happens.
        SavedItemAhead(list, s, old(iter.pos), key);
      } else {
        savedKey := iter.Entry().key.user;
        ForwardEntersAt(list, s, iter.pos.value);
      }
      ghost var p := iter.pos.value;
      FindNextUserEntry(true, savedKey);
      NextItemFound(list, s, p, key, if valid then iter.pos.value else |list|);
    }

    method Prev()
      requires Ok() && At().Some?
      modifies this, iter, iter.merging
      ensures Ok() && IsPrevItem(iter.list, sequence, Some(old(At()).value.key), At())
    {
      ghost var key := At().value.key;
      ghost var list, s := iter.list, sequence;
      if forward {
        savedKey := iter.Entry().key.user;
        while true
          invariant iter.Ok() && iter.pos.Some? && savedKey == key
          invariant forall q :: iter.pos.value <= q < |list| ==> list[q].key.user >= key
          decreases iter.pos.value
        {
          iter.Prev();
          if !iter.AtEntry() {
            valid, savedKey, savedValue := false, CLEARED, [];
            NothingBefore(list, s, key);
            return;
          }
          UsersAscendFrom(list, iter.pos.value);
          if iter.Entry().key.user < savedKey {
            break;
          }
        }
        forward := false;
      }
      FindPrevUserEntry(Some(key));
    }

    method Seek(target: UserKey)
      requires Ok() && sequence <= MAX_SEQUENCE
      modifies this, iter, iter.merging
      ensures Ok() && IsSeekItem(iter.list, sequence, target, At())
    {
      forward, savedValue, savedKey := true, [], CLEARED;
      valid := false;
      iter.Seek(LookupKey(target, sequence));
      ShowSought(target);
    }

    /** Seek once the internal iterator stands at the first entry not before the lookup key. */
    method ShowSought(target: UserKey)
      requires iter.Ok() && UniqueSeqnos(EntrySet(iter.list)) && sequence <= MAX_SEQUENCE && forward && !valid && savedKey == CLEARED
      requires NotBefore(iter.list, iter.pos, LookupKey(target, sequence))
      modifies this, iter, iter.merging
      ensures Ok() && IsSeekItem(iter.list, sequence, target, At())
    {
      ghost var list, s := iter.list, sequence;
      if iter.AtEntry() {
        ghost var p := iter.pos.value;
        SeekCovers(list, s, p, target);
        FindNextUserEntry(false, savedKey);
        SeekItemFound(list, s, p, target, if valid then iter.pos.value else |list|);
      } else {
        SeekItemFound(list, s, |list|, target, |list|);
      }
    }

    method SeekToFirst()
      requires Ok()
      modifies this, iter, iter.merging
      ensures Ok() && IsNextItem(iter.list, sequence, None, At())
    {
      forward, savedValue := true, [];
      valid := false;
      iter.SeekToFirst();
      ghost var list, s, skip := iter.list, sequence, savedKey;
      if iter.AtEntry() {
        FindNextUserEntry(false, savedKey);
      }
      FirstItemFound(list, s, skip, if valid then iter.pos.value else |list|);
    }

    method SeekToLast()
      requires Ok()
      modifies this, iter, iter.merging
      ensures Ok() && IsPrevItem(iter.list, sequence, None, At())
    {
      forward, savedValue := false, [];
      iter.SeekToLast();
      FindPrevUserEntry(None);
    }
  }

  /** One entry of the forward scan: shown, or passed with a new or the same key to skip. */
  method ScanEntry(ikey: InternalKey, s: nat, skipping: bool, skip: UserKey,
                   ghost list: seq<Entry>, ghost start: nat, ghost p: nat, ghost skipping0: bool, ghost skip0: UserKey)
      returns (found: bool, skipping': bool, skip': UserKey)
    requires Sorted(list) && p < |list| && ikey == list[p].key
    requires Scanning(list, s, start, p, skipping0, skip0, skipping, skip)
    ensures found ==> Wanted(list, s, skipping0, skip0, p)
    ensures !found ==> Scanning(list, s, start, p + 1, skipping0, skip0, skipping', skip')
  {
    if ikey.seqno <= s {
      if ikey.kind.Deletion? {
        ScanPastDeletion(list, s, start, p, skipping0, skip0, skipping, skip);
        return false, true, ikey.user;
      } else if skipping && ikey.user <= skip {
        // entry hidden
        ScanPastHidden(list, s, start, p, skipping0, skip0, skipping, skip);
        return false, skipping, skip;
      }
      FoundIsWanted(list, s, start, p, skipping0, skip0, skipping, skip);
      return true, skipping, skip;
    }
    ScanPastHidden(list, s, start, p, skipping0, skip0, skipping, skip);
    return false, skipping, skip;
  }

  /** How many leading entries lie at or before the cursor. */
  function Passed(c: Option<nat>): nat {
    if c.None? then 0 else c.value + 1
  }

  /** The saved item of reverse mode: it is shown, and past the cursor every entry before its
      user key is unreadable. */
  ghost predicate SavedAhead(list: seq<Entry>, s: nat, pos: Option<nat>, key: UserKey, value: Bytes) {
    && NothingReadableBetween(list, s, pos, key)
    && View(EntrySet(list), key, s) == Some(value)
  }

  ghost predicate NothingReadableBetween(list: seq<Entry>, s: nat, pos: Option<nat>, key: UserKey) {
    && (pos.Some? ==> pos.value < |list| && list[pos.value].key.user < key)
    && forall q :: Passed(pos) <= q < |list| ==> list[q].key.user >= key || !Readable(list, s, q)
  }

  ghost predicate NoneShown(list: seq<Entry>, s: nat, from: nat, to: nat) {
    forall q :: from <= q < to && q < |list| ==> !ShownAt(list, s, q)
  }

  /** Among the entries scanned backwards so far, [from, to), m holds the newest readable entry
      of the last user key met, a value; nothing else there can be shown after it. */
  ghost predicate Candidate(list: seq<Entry>, s: nat, from: nat, to: nat, m: nat) {
    && from <= m < to <= |list|
    && Readable(list, s, m) && list[m].key.kind.Put?
    && (forall q :: from <= q < m ==> !Readable(list, s, q))
    && (forall q :: m < q < to ==> !ShownAt(list, s, q) || list[q].key.user == list[m].key.user)
  }

  // ----- Forward scan -----

  lemma DeletionHides(list: seq<Entry>, s: nat, p: nat, skipping: bool, skip: UserKey)
    requires Sorted(list) && p < |list| && Readable(list, s, p) && list[p].key.kind.Deletion?
    requires SkipCovers(list, s, p, skipping, skip)
    ensures SkipCovers(list, s, p + 1, true, list[p].key.user)
    ensures SameWanted(list, s, p + 1, skipping, skip, true, list[p].key.user)
    ensures !Wanted(list, s, skipping, skip, p)
  {
    forall q | p < q < |list| ensures list[p].key.user <= list[q].key.user {
      UsersAscend(list, p, q);
    }
    forall r | 0 <= r < p ensures list[r].key.user <= list[p].key.user {
      UsersAscend(list, r, p);
    }
  }

  /** The state of the forward scan at p: nothing wanted passed, and the current skip decides
      what is wanted from here on. */
  ghost predicate Scanning(list: seq<Entry>, s: nat, start: nat, p: nat, skipping0: bool, skip0: UserKey, skipping: bool, skip: UserKey) {
    && p <= |list|
    && SkipCovers(list, s, p, skipping, skip)
    && SameWanted(list, s, p, skipping0, skip0, skipping, skip)
    && forall q :: start <= q < p ==> !Wanted(list, s, skipping0, skip0, q)
  }

  lemma ScanPastDeletion(list: seq<Entry>, s: nat, start: nat, p: nat, skipping0: bool, skip0: UserKey, skipping: bool, skip: UserKey)
    requires Sorted(list) && p < |list| && Readable(list, s, p) && list[p].key.kind.Deletion?
    requires Scanning(list, s, start, p, skipping0, skip0, skipping, skip)
    ensures Scanning(list, s, start, p + 1, skipping0, skip0, true, list[p].key.user)
  {
    DeletionHides(list, s, p, skipping, skip);
  }

  lemma ScanPastHidden(list: seq<Entry>, s: nat, start: nat, p: nat, skipping0: bool, skip0: UserKey, skipping: bool, skip: UserKey)
    requires Sorted(list) && p < |list|
    requires !Readable(list, s, p) || (skipping && list[p].key.user <= skip)
    requires Scanning(list, s, start, p, skipping0, skip0, skipping, skip)
    ensures Scanning(list, s, start, p + 1, skipping0, skip0, skipping, skip)
  {}

  lemma FoundIsWanted(list: seq<Entry>, s: nat, start: nat, p: nat, skipping0: bool, skip0: UserKey, skipping: bool, skip: UserKey)
    requires Sorted(list) && p < |list| && Readable(list, s, p) && list[p].key.kind.Put?
    requires !(skipping && list[p].key.user <= skip)
    requires Scanning(list, s, start, p, skipping0, skip0, skipping, skip)
    ensures Wanted(list, s, skipping0, skip0, p)
  {}

  /** The scan may be entered at p to find what follows `key`. */
  ghost predicate EntersFor(list: seq<Entry>, s: nat, p: nat, key: UserKey) {
    && p <= |list|
    && (forall r :: 0 <= r < p ==> list[r].key.user <= key)
    && SkipCovers(list, s, p, true, key)
  }

  /** Forward mode enters at the current item, skipping its key. */
  lemma ForwardEntersAt(list: seq<Entry>, s: nat, p: nat)
    requires Sorted(list) && p < |list|
    ensures EntersFor(list, s, p, list[p].key.user)
  {
    UsersAscendFrom(list, p);
    forall r | 0 <= r < p ensures list[r].key.user <= list[p].key.user {
      UsersAscend(list, r, p);
    }
  }

  /** Reverse mode enters just past the cursor. */
  lemma ReverseEntersAfter(list: seq<Entry>, s: nat, pos: Option<nat>, key: UserKey)
    requires Sorted(list) && NothingReadableBetween(list, s, pos, key)
    ensures EntersFor(list, s, Passed(pos), key)
  {
    if pos.Some? {
      forall r | 0 <= r <= pos.value ensures list[r].key.user <= key {
        UsersAscend(list, r, pos.value);
      }
    }
  }

  /** In reverse mode the saved item's entry lies past the cursor. */
  lemma SavedItemAhead(list: seq<Entry>, s: nat, pos: Option<nat>, key: UserKey)
    requires Sorted(list) && UniqueSeqnos(EntrySet(list)) && NothingReadableBetween(list, s, pos, key)
    requires View(EntrySet(list), key, s).Some?
    ensures Passed(pos) < |list|
  {
    var q := ViewIsShown(list, s, key);
    if pos.Some? && q <= pos.value {
      UsersAscend(list, q, pos.value);
    }
  }

  /** The first wanted entry from p on is the next item after `key`. */
  lemma NextItemFound(list: seq<Entry>, s: nat, p: nat, key: UserKey, found: nat)
    requires Sorted(list) && UniqueSeqnos(EntrySet(list)) && p <= found <= |list| && EntersFor(list, s, p, key)
    requires forall q :: p <= q < found ==> !Wanted(list, s, true, key, q)
    requires found < |list| ==> Wanted(list, s, true, key, found)
    ensures IsNextItem(list, s, Some(key),
      if found < |list| then Some(Item(list[found].key.user, list[found].value)) else None)
  {
    if found < |list| {
      ShownIsView(list, s, found);
    }
    forall u | u > key && (found < |list| ==> u < list[found].key.user) ensures View(EntrySet(list), u, s) == None {
      forall q | 0 <= q < |list| && list[q].key.user == u ensures !ShownAt(list, s, q) {
        if found < |list| && found <= q {
          UsersAscend(list, found, q);
        }
        assert p <= q < found ==> !Wanted(list, s, true, key, q);
      }
      NotShownIsNone(list, s, u);
    }
  }

  lemma FirstItemFound(list: seq<Entry>, s: nat, skip: UserKey, found: nat)
    requires Sorted(list) && UniqueSeqnos(EntrySet(list)) && found <= |list|
    requires forall q :: 0 <= q < found ==> !Wanted(list, s, false, skip, q)
    requires found < |list| ==> Wanted(list, s, false, skip, found)
    ensures IsNextItem(list, s, None, if found < |list| then Some(Item(list[found].key.user, list[found].value)) else None)
  {
    if found < |list| {
      ShownIsView(list, s, found);
    }
    forall u | found < |list| ==> u < list[found].key.user ensures View(EntrySet(list), u, s) == None {
      forall q | 0 <= q < |list| && list[q].key.user == u ensures !ShownAt(list, s, q) {
        if found < |list| && found <= q {
          UsersAscend(list, found, q);
        }
        assert 0 <= q < found ==> !Wanted(list, s, false, skip, q);
      }
      NotShownIsNone(list, s, u);
    }
  }

  /** Seeking to (target, s) passes only entries before the target or too new to read. */
  lemma SeekCovers(list: seq<Entry>, s: nat, p: nat, target: UserKey)
    requires Sorted(list) && p < |list| && NotBefore(list, Some(p), LookupKey(target, s))
    ensures SkipCovers(list, s, p, false, CLEARED)
  {
    forall r, q | 0 <= r < p <= q < |list| && Readable(list, s, r) ensures list[r].key.user != list[q].key.user {
      UsersAscend(list, p, q);
    }
  }

  lemma SeekItemFound(list: seq<Entry>, s: nat, p: nat, target: UserKey, found: nat)
    requires Sorted(list) && UniqueSeqnos(EntrySet(list)) && p <= found <= |list|
    requires NotBefore(list, if p < |list| then Some(p) else None, LookupKey(target, s))
    requires forall q :: p <= q < found ==> !Wanted(list, s, false, CLEARED, q)
    requires found < |list| ==> Wanted(list, s, false, CLEARED, found)
    ensures IsSeekItem(list, s, target, if found < |list| then Some(Item(list[found].key.user, list[found].value)) else None)
  {
    if found < |list| {
      ShownIsView(list, s, found);
      UsersAscend(list, p, found);
    }
    forall u | u >= target && (found < |list| ==> u < list[found].key.user) ensures View(EntrySet(list), u, s) == None {
      forall q | 0 <= q < |list| && list[q].key.user == u ensures !ShownAt(list, s, q) {
        if found < |list| && found <= q {
          UsersAscend(list, found, q);
        }
        assert p <= q < found ==> !Wanted(list, s, false, CLEARED, q);
      }
      NotShownIsNone(list, s, u);
    }
  }

  // ----- Backward scan -----

  lemma UsersAscendFrom(list: seq<Entry>, p: nat)
    requires Sorted(list) && p < |list|
    ensures forall q :: p <= q < |list| ==> list[q].key.user >= list[p].key.user
  {
    forall q | p <= q < |list| ensures list[q].key.user >= list[p].key.user {
      UsersAscend(list, p, q);
    }
  }

  lemma NothingBefore(list: seq<Entry>, s: nat, key: UserKey)
    requires Sorted(list) && UniqueSeqnos(EntrySet(list)) && forall q :: 0 <= q < |list| ==> list[q].key.user >= key
    ensures IsPrevItem(list, s, Some(key), None)
  {
    forall u | u < key ensures View(EntrySet(list), u, s) == None {
      NotShownIsNone(list, s, u);
    }
  }

  ghost predicate BackScan(list: seq<Entry>, s: nat, from: nat, to: nat, m: nat, isPut: bool) {
    if isPut then Candidate(list, s, from, to, m) else NoneShown(list, s, from, to)
  }

  lemma ScanReadable(list: seq<Entry>, s: nat, p: nat, to: nat, m: nat, isPut: bool)
    requires Sorted(list) && p < to <= |list| && Readable(list, s, p)
    requires BackScan(list, s, p + 1, to, m, isPut) && (isPut ==> list[m].key.user <= list[p].key.user)
    ensures BackScan(list, s, p, to, p, list[p].key.kind.Put?)
  {
    if isPut {
      UsersAscend(list, p, m);
    }
  }

  lemma ScanUnreadable(list: seq<Entry>, s: nat, p: nat, to: nat, m: nat, isPut: bool)
    requires p < to <= |list| && !Readable(list, s, p)
    requires BackScan(list, s, p + 1, to, m, isPut)
    ensures BackScan(list, s, p, to, m, isPut)
  {}

  /** Everything from the start of the backward scan on is out of the asked range or unreadable. */
  ghost predicate StartFits(list: seq<Entry>, s: nat, start: Option<nat>, bound: Option<UserKey>) {
    && Passed(start) <= |list|
    && (if bound.Some? then NothingReadableBetween(list, s, start, bound.value) else Passed(start) == |list|)
  }

  lemma NoPrevItem(list: seq<Entry>, s: nat, start: Option<nat>, bound: Option<UserKey>)
    requires Sorted(list) && UniqueSeqnos(EntrySet(list)) && StartFits(list, s, start, bound)
    requires BackScan(list, s, 0, Passed(start), 0, false)
    ensures IsPrevItem(list, s, bound, None)
  {
    forall u | bound.Some? ==> u < bound.value ensures View(EntrySet(list), u, s) == None {
      NotShownIsNone(list, s, u);
    }
  }

  lemma BeforeCursorIsBefore(list: seq<Entry>, pos: Option<nat>, key: UserKey)
    requires Sorted(list) && (pos.Some? ==> pos.value < |list| && list[pos.value].key.user < key)
    ensures Passed(pos) <= |list| && forall r :: 0 <= r < Passed(pos) ==> list[r].key.user < key
  {
    if pos.Some? {
      forall r | 0 <= r <= pos.value ensures list[r].key.user < key {
        UsersAscend(list, r, pos.value);
      }
    }
  }

  lemma CandidateIsSaved(list: seq<Entry>, s: nat, pos: Option<nat>, to: nat, m: nat)
    requires Sorted(list) && UniqueSeqnos(EntrySet(list)) && Candidate(list, s, Passed(pos), to, m)
    requires pos.Some? ==> list[pos.value].key.user < list[m].key.user
    ensures SavedAhead(list, s, pos, list[m].key.user, list[m].value)
  {
    BeforeCursorIsBefore(list, pos, list[m].key.user);
    UsersAscendFrom(list, m);
    ShownIsView(list, s, m);
  }

  lemma CandidateInBound(list: seq<Entry>, s: nat, pos: Option<nat>, start: Option<nat>, m: nat, bound: Option<UserKey>)
    requires Sorted(list) && StartFits(list, s, start, bound) && Candidate(list, s, Passed(pos), Passed(start), m)
    ensures bound.Some? ==> list[m].key.user < bound.value
  {
    if bound.Some? {
      UsersAscend(list, m, start.value);
    }
  }

  /** An entry of a user key between the candidate and the bound is not shown. */
  lemma NotShownPastCandidate(list: seq<Entry>, s: nat, pos: Option<nat>, start: Option<nat>, m: nat, bound: Option<UserKey>, q: nat)
    requires StartFits(list, s, start, bound) && Candidate(list, s, Passed(pos), Passed(start), m)
    requires q < |list| && list[q].key.user > list[m].key.user && (bound.Some? ==> list[q].key.user < bound.value)
    requires forall r :: 0 <= r < Passed(pos) ==> list[r].key.user < list[m].key.user
    ensures !ShownAt(list, s, q)
  {
    if q < Passed(start) {
      assert Passed(pos) <= q && q != m;
    }
  }

  /** The candidate left when the scan stops is the previous item, and the saved state is right. */
  lemma CandidateIsShown(list: seq<Entry>, s: nat, pos: Option<nat>, start: Option<nat>, m: nat, bound: Option<UserKey>)
    requires Sorted(list) && UniqueSeqnos(EntrySet(list)) && StartFits(list, s, start, bound)
    requires BackScan(list, s, Passed(pos), Passed(start), m, true)
    requires pos.Some? ==> list[pos.value].key.user < list[m].key.user
    ensures SavedAhead(list, s, pos, list[m].key.user, list[m].value)
    ensures IsPrevItem(list, s, bound, Some(Item(list[m].key.user, list[m].value)))
  {
    CandidateIsSaved(list, s, pos, Passed(start), m);
    BeforeCursorIsBefore(list, pos, list[m].key.user);
    CandidateInBound(list, s, pos, start, m, bound);
    forall u | (bound.Some? ==> u < bound.value) && u > list[m].key.user ensures View(EntrySet(list), u, s) == None {
      forall q | 0 <= q < |list| && list[q].key.user == u ensures !ShownAt(list, s, q) {
        NotShownPastCandidate(list, s, pos, start, m, bound, q);
      }
      NotShownIsNone(list, s, u);
    }
  }
}
