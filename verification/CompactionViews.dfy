/** Which compactions keep every readable view. SetupOtherInputs extends the upper inputs by
    boundary files but not the lower ones; a deletion marker at the end of the lower inputs may
    then be dropped while an older value stays behind in the next file. */
module CompactionViews {
  import opened Keys
  import opened LsmState
  import opened Compaction

  ghost predicate IsLargestKey(files: set<File>, k: InternalKey) {
    && (exists f :: f in files && f.Largest() == k)
    && (forall f :: f in files ==> !Less(k, f.Largest()))
  }

  /** A file starting after `largest` with the same user key. */
  predicate StartsAtBoundary(f: File, largest: InternalKey) {
    Less(largest, f.Smallest()) && f.Smallest().user == largest.user
  }

  /** What FindSmallestBoundaryFile looks for. */
  ghost predicate IsBoundaryFile(files: set<File>, largest: InternalKey, g: File) {
    && g in files && StartsAtBoundary(g, largest)
    && forall h :: h in files && StartsAtBoundary(h, largest) ==> !Less(h.Smallest(), g.Smallest())
  }

  /** The case the code misses: the newest write readers at the oldest snapshot see for the last
      user key of the lower inputs is a deletion marker this compaction drops, and the file right
      after the lower inputs starts with a value of that user key. */
  ghost predicate Resurrects(s: State, level: nat, in0: set<File>, in1: set<File>)
    requires |s.levels| == NUM_LEVELS && level + 1 < NUM_LEVELS
  {
    exists k, g :: IsLargestKey(in1, k) && IsBoundaryFile(s.levels[level + 1], k, g) && ResurrectsAt(s, level, in0, in1, k.user, g)
  }

  ghost predicate ResurrectsAt(s: State, level: nat, in0: set<File>, in1: set<File>, u: UserKey, g: File)
    requires |s.levels| == NUM_LEVELS && level + 1 < NUM_LEVELS
  {
    var top := Newest(All(s), u, SmallestSnapshot(s));
    && top.Some?
    && top.value in Contents(in0) + Contents(in1)
    && Obsolete(s, level, top.value, SmallestSnapshot(s))
    && g.entries[0].key.kind.Put?
  }

  /** An older entry left behind in the lower level can only sit in a file that starts, right
      after the lower inputs, with the last user key of the lower inputs. */
  lemma LeftBehindIsAtBoundary(s: State, level: nat, in0: set<File>, in1: set<File>, lo: UserKey, hi: UserKey,
                               n: Entry, h: File, x: Entry) returns (k: InternalKey)
    requires |s.levels| == NUM_LEVELS && level + 1 < NUM_LEVELS && FilesOk(s) && LevelDisjoint(s.levels[level + 1])
    requires Selection(s, level, in0, in1, lo, hi)
    requires n in Contents(in0) + Contents(in1)
    requires h in s.levels[level + 1] - in1 && x in h.entries
    requires x.key.user == n.key.user && x.key.seqno < n.key.seqno
    ensures IsLargestKey(in1, k) && StartsAtBoundary(h, k) && k.user == n.key.user
  {
    EntryUserInFileRange(h, x);
    assert OutsideUserRange(h, lo, hi);
    if n in Contents(in0) {
      var f :| f in in0 && n in f.entries;
      EntryUserInFileRange(f, n);
    }
    var f :| f in in1 && n in f.entries;
    EntryUserInFileRange(f, n);
    assert Apart(f, h) && !OutsideUserRange(f, lo, hi);
    assert Less(n.key, x.key);
    assert Less(f.Largest(), h.Smallest());
    k := f.Largest();
    forall f2 | f2 in in1 ensures !Less(k, f2.Largest()) {
      EntryUserInFileRange(f2, f2.entries[0]);
      EntryUserInFileRange(f, f.entries[0]);
      assert !OutsideUserRange(f2, lo, hi);
      assert f2 == f || Apart(f, f2);
    }
  }

  lemma SmallestBoundaryExists(files: set<File>, all: set<File>, k: InternalKey, h: File) returns (g: File)
    requires h in files && files <= all && StartsAtBoundary(h, k)
    ensures g in files && StartsAtBoundary(g, k)
    ensures forall f :: f in files && StartsAtBoundary(f, k) ==> !Less(f.Smallest(), g.Smallest())
    decreases files
  {
    g := h;
    if f :| f in files && f != h && StartsAtBoundary(f, k) {
      var g2 := SmallestBoundaryExists(files - {h}, all, k, f);
      g := if Less(g2.Smallest(), h.Smallest()) then g2 else h;
      assert forall f :: f in files ==> f == h || f in files - {h};
    }
  }

  /** The first entry of the boundary file is the newest one left behind. */
  lemma BoundaryFirstIsNewest(s: State, level: nat, in0: set<File>, in1: set<File>, lo: UserKey, hi: UserKey,
                              n: Entry, h: File, x: Entry, k: InternalKey, g: File)
    requires |s.levels| == NUM_LEVELS && level + 1 < NUM_LEVELS && FilesOk(s) && LevelDisjoint(s.levels[level + 1])
    requires Selection(s, level, in0, in1, lo, hi)
    requires n in Contents(in0) + Contents(in1)
    requires h in s.levels[level + 1] - in1 && x in h.entries
    requires x.key.user == n.key.user == k.user && x.key.seqno < n.key.seqno
    requires IsLargestKey(in1, k) && IsBoundaryFile(s.levels[level + 1], k, g)
    ensures x.key.seqno <= g.entries[0].key.seqno
  {
    var k2 := LeftBehindIsAtBoundary(s, level, in0, in1, lo, hi, n, h, x);
    assert !Less(k, k2) && !Less(k2, k) by {
      var f :| f in in1 && f.Largest() == k;
      var f2 :| f2 in in1 && f2.Largest() == k2;
    }
    assert Tag(k) == Tag(k2) && k.user == k2.user;
    assert StartsAtBoundary(h, k);
    EntryUserInFileRange(h, x);
    assert !Less(h.Smallest(), g.Smallest());
  }

  lemma BoundaryFileNotSelected(s: State, level: nat, in1: set<File>, k: InternalKey, g: File)
    requires |s.levels| == NUM_LEVELS && level + 1 < NUM_LEVELS && FilesOk(s)
    requires IsLargestKey(in1, k) && IsBoundaryFile(s.levels[level + 1], k, g)
    ensures g in s.levels[level + 1] - in1
  {
    EntryUserInFileRange(g, g.entries[|g.entries| - 1]);
  }

  lemma EarlierPlaceIsNewer(s: State, p: nat, q: nat, e: Entry, f: Entry)
    requires |s.levels| == NUM_LEVELS && Recency(s) && p < q < PLACES
    requires e in Place(s, p) && f in Place(s, q) && e.key.user == f.key.user
    ensures e.key.seqno > f.key.seqno
  {
    assert Above(Place(s, p), Place(s, q));
  }

  lemma InputPlace(s: State, level: nat, in0: set<File>, in1: set<File>, e: Entry) returns (q: nat)
    requires |s.levels| == NUM_LEVELS && level + 1 < NUM_LEVELS && in0 <= s.levels[level] && in1 <= s.levels[level + 1]
    requires e in Contents(in0) + Contents(in1)
    ensures q == if e in Contents(in0) then level + 2 else level + 3
    ensures e in Place(s, q)
  {
    if e in Contents(in0) {
      var f :| f in in0 && e in f.entries;
      ContentsMember(s.levels[level], f, e);
      q := level + 2;
    } else {
      var f :| f in in1 && e in f.entries;
      ContentsMember(s.levels[level + 1], f, e);
      q := level + 3;
    }
  }

  lemma BaseLevelHoldsNothingBelow(s: State, level: nat, u: UserKey, p: nat, x: Entry)
    requires |s.levels| == NUM_LEVELS && FilesOk(s) && IsBaseLevel(s, level, u)
    requires level + 3 < p < PLACES && x in Place(s, p)
    ensures x.key.user != u
  {
    var f :| f in s.levels[p - 2] && x in f.entries;
    EntryUserInFileRange(f, x);
    assert !SpansUserKey(f, u);
  }

  /** An entry of a selected user key that is older than a selected entry and survives outside
      the inputs sits in the lower level. */
  lemma OlderOutsideIsBelow(s: State, t: State, level: nat, in0: set<File>, in1: set<File>, outs: set<File>,
                            lo: UserKey, hi: UserKey, n: Entry, x: Entry)
    requires |s.levels| == NUM_LEVELS && level + 1 < NUM_LEVELS && Recency(s) && FilesOk(s)
    requires CompactStep(s, t, level, in0, in1, outs, lo, hi)
    requires |t.levels| == NUM_LEVELS
    requires n in Contents(in0) + Contents(in1) && IsBaseLevel(s, level, n.key.user)
    requires x in All(t) && x !in Contents(outs) && x.key.user == n.key.user && x.key.seqno < n.key.seqno
    ensures x in Contents(s.levels[level + 1] - in1)
  {
    ReplacePlaces(s, t, level, in0, in1, outs);
    var p :| 0 <= p < PLACES && x in Place(t, p);
    var q := InputPlace(s, level, in0, in1, n);
    assert p < q ==> !Above(Place(s, p), Place(s, q));
    if p > level + 3 {
      BaseLevelHoldsNothingBelow(s, level, n.key.user, p, x);
    }
  }

  /** Everything that left the store was an input and did not survive. */
  lemma DroppedWasInput(s: State, t: State, level: nat, in0: set<File>, in1: set<File>, outs: set<File>,
                        lo: UserKey, hi: UserKey, e: Entry)
    requires |s.levels| == NUM_LEVELS && level + 1 < NUM_LEVELS && CompactStep(s, t, level, in0, in1, outs, lo, hi)
    requires |t.levels| == NUM_LEVELS
    requires e in All(s) && e !in All(t)
    ensures e in Contents(in0) + Contents(in1) && e !in Contents(outs)
  {
    ReplacePlaces(s, t, level, in0, in1, outs);
    assert e !in Place(t, level + 2) && e !in Place(t, level + 3);
    var p :| 0 <= p < PLACES && e in Place(s, p);
    assert e !in Place(t, p);
  }

  lemma SurvivorsStay(s: State, t: State, level: nat, in0: set<File>, in1: set<File>, outs: set<File>, e: Entry)
    requires |s.levels| == NUM_LEVELS && level + 1 < NUM_LEVELS && in0 <= s.levels[level] && in1 <= s.levels[level + 1]
    requires Replace(s, t, level, in0, in1, outs) && |t.levels| == NUM_LEVELS
    requires e in Contents(outs) || e in Contents(s.levels[level + 1] - in1)
    ensures e in All(t)
  {
    ReplacePlaces(s, t, level, in0, in1, outs);
    InAll(t, level + 3, e);
  }

  /** If the newest readable entry is kept, the view is unchanged. */
  lemma KeptNewestKeepsView(s: State, t: State, u: UserKey, n: nat)
    requires Inv(s) && Inv(t) && All(t) <= All(s)
    requires Newest(All(s), u, n).Some? ==> Newest(All(s), u, n).value in All(t)
    ensures View(All(t), u, n) == View(All(s), u, n)
  {
    NewestUnique(All(t), u, n, Newest(All(s), u, n));
  }

  /** A dropped newest entry is a deletion marker, and what is read after it was left behind. */
  lemma DroppedNewest(s: State, t: State, level: nat, in0: set<File>, in1: set<File>, outs: set<File>,
                      lo: UserKey, hi: UserKey, u: UserKey, n: nat)
    requires Inv(s) && level + 1 < NUM_LEVELS && CompactStep(s, t, level, in0, in1, outs, lo, hi)
    requires Inv(t) && All(t) <= All(s)
    requires SmallestSnapshot(s) <= n
    requires Newest(All(s), u, n).Some? && Newest(All(s), u, n).value !in All(t)
    ensures var top := Newest(All(s), u, n).value;
      && top in Contents(in0) + Contents(in1)
      && Obsolete(s, level, top, SmallestSnapshot(s))
      && Newest(All(s), u, SmallestSnapshot(s)) == Some(top)
      && forall x :: x in All(t) && Matches(x, u, n) ==>
           x.key.seqno < top.key.seqno && x in Contents(s.levels[level + 1] - in1)
  {
    var top := Newest(All(s), u, n).value;
    var inputs := Contents(in0) + Contents(in1);
    var smallest := SmallestSnapshot(s);
    DroppedWasInput(s, t, level, in0, in1, outs, lo, hi, top);
    InputsInAll(s, level, in0, in1);
    assert !Hidden(inputs, top, smallest);
    assert Obsolete(s, level, top, smallest);
    NewestUnique(All(s), u, smallest, Some(top));
    forall x | x in All(t) && Matches(x, u, n)
      ensures x.key.seqno < top.key.seqno && x in Contents(s.levels[level + 1] - in1)
    {
      assert x in All(s) && x != top;
      assert x.key.seqno != top.key.seqno;
      assert x !in Contents(outs) by {
        assert x.key.seqno < top.key.seqno <= smallest;
        assert x in inputs ==> Hidden(inputs, x, smallest);
      }
      OlderOutsideIsBelow(s, t, level, in0, in1, outs, lo, hi, top, x);
    }
  }

  lemma InputsInAll(s: State, level: nat, in0: set<File>, in1: set<File>)
    requires |s.levels| == NUM_LEVELS && level + 1 < NUM_LEVELS && in0 <= s.levels[level] && in1 <= s.levels[level + 1]
    ensures Contents(in0) + Contents(in1) <= All(s)
  {
    forall e | e in Contents(in0) + Contents(in1) ensures e in All(s) {
      var q := InputPlace(s, level, in0, in1, e);
      InAll(s, q, e);
    }
  }

  /** Unless the missed case arises, a compaction changes no readable view. */
  lemma NoResurrectionKeepsView(s: State, t: State, level: nat, in0: set<File>, in1: set<File>, outs: set<File>,
                                lo: UserKey, hi: UserKey, u: UserKey, n: nat)
    requires Inv(s) && level + 1 < NUM_LEVELS && CompactStep(s, t, level, in0, in1, outs, lo, hi)
    requires Inv(t) && All(t) <= All(s)
    requires !Resurrects(s, level, in0, in1) && SmallestSnapshot(s) <= n
    ensures View(All(t), u, n) == View(All(s), u, n)
  {
    var r := Newest(All(s), u, n);
    if r.None? || r.value in All(t) {
      KeptNewestKeepsView(s, t, u, n);
      return;
    }
    DroppedNewest(s, t, level, in0, in1, outs, lo, hi, u, n);
    var after := Newest(All(t), u, n);
    if after.Some? && after.value.key.kind.Put? {
      LeftBehindValueResurrects(s, t, level, in0, in1, outs, lo, hi, u, n, r.value, after.value);
    }
  }

  /** A value read in place of a dropped deletion marker is the boundary file's first entry. */
  lemma LeftBehindValueResurrects(s: State, t: State, level: nat, in0: set<File>, in1: set<File>, outs: set<File>,
                                  lo: UserKey, hi: UserKey, u: UserKey, n: nat, top: Entry, x: Entry)
    requires |s.levels| == NUM_LEVELS && level + 1 < NUM_LEVELS && FilesOk(s) && LevelDisjoint(s.levels[level + 1])
    requires Recency(s) && UniqueSeqnos(All(s)) && Selection(s, level, in0, in1, lo, hi)
    requires Replace(s, t, level, in0, in1, outs) && |t.levels| == NUM_LEVELS && UniqueSeqnos(All(t))
    requires SmallestSnapshot(s) <= n && top in Contents(in0) + Contents(in1)
    requires Obsolete(s, level, top, SmallestSnapshot(s))
    requires Newest(All(s), u, SmallestSnapshot(s)) == Some(top) && top.key.user == u
    requires x in Contents(s.levels[level + 1] - in1) && x.key.user == u && x.key.seqno < top.key.seqno
    requires IsNewest(All(t), u, n, Some(x)) && x.key.kind.Put?
    ensures Resurrects(s, level, in0, in1)
  {
    var h :| h in s.levels[level + 1] - in1 && x in h.entries;
    var k := LeftBehindIsAtBoundary(s, level, in0, in1, lo, hi, top, h, x);
    var g := SmallestBoundaryExists(s.levels[level + 1], s.levels[level + 1], k, h);
    BoundaryFirstIsNewest(s, level, in0, in1, lo, hi, top, h, x, k, g);
    BoundaryFileNotSelected(s, level, in1, k, g);
    BoundaryFirstStays(s, t, level, in0, in1, outs, g);
    LargestBeforeBoundary(s, level, in0, in1, lo, hi, top, k, g);
    assert Matches(g.entries[0], u, n);
    assert g.entries[0] == x;
    assert ResurrectsAt(s, level, in0, in1, k.user, g);
  }

  lemma BoundaryFirstStays(s: State, t: State, level: nat, in0: set<File>, in1: set<File>, outs: set<File>, g: File)
    requires |s.levels| == NUM_LEVELS && level + 1 < NUM_LEVELS && in0 <= s.levels[level] && in1 <= s.levels[level + 1]
    requires Replace(s, t, level, in0, in1, outs) && |t.levels| == NUM_LEVELS
    requires g in s.levels[level + 1] - in1
    ensures g.entries[0] in All(t)
  {
    ContentsMember(s.levels[level + 1] - in1, g, g.entries[0]);
    SurvivorsStay(s, t, level, in0, in1, outs, g.entries[0]);
  }

  /** A selected entry of the boundary user key is newer than the boundary file's first entry. */
  lemma LargestBeforeBoundary(s: State, level: nat, in0: set<File>, in1: set<File>, lo: UserKey, hi: UserKey,
                              top: Entry, k: InternalKey, g: File)
    requires |s.levels| == NUM_LEVELS && level + 1 < NUM_LEVELS && FilesOk(s) && Recency(s) && UniqueSeqnos(All(s))
    requires Selection(s, level, in0, in1, lo, hi)
    requires top in Contents(in0) + Contents(in1) && top.key.user == k.user
    requires IsLargestKey(in1, k) && IsBoundaryFile(s.levels[level + 1], k, g)
    ensures g.entries[0].key.seqno < top.key.seqno
  {
    BoundaryFileNotSelected(s, level, in1, k, g);
    ContentsMember(s.levels[level + 1], g, g.entries[0]);
    var q := InputPlace(s, level, in0, in1, top);
    if q == level + 2 {
      EarlierPlaceIsNewer(s, q, level + 3, top, g.entries[0]);
    } else {
      LowerInputBeforeBoundary(s, level, in1, top, k, g);
    }
  }

  lemma LowerInputBeforeBoundary(s: State, level: nat, in1: set<File>, top: Entry, k: InternalKey, g: File)
    requires |s.levels| == NUM_LEVELS && level + 1 < NUM_LEVELS && FilesOk(s) && UniqueSeqnos(All(s))
    requires in1 <= s.levels[level + 1] && g in s.levels[level + 1]
    requires top in Contents(in1) && top.key.user == k.user
    requires IsLargestKey(in1, k) && StartsAtBoundary(g, k)
    ensures g.entries[0].key.seqno < top.key.seqno
  {
    assert forall f :: f in in1 ==> Sorted(f.entries);
    BeforeBoundaryEntry(in1, top, k, g);
    InAll(s, level + 3, top);
    ContentsMember(s.levels[level + 1], g, g.entries[0]);
    InAll(s, level + 3, g.entries[0]);
    SeqnosDiffer(All(s), top, g.entries[0]);
  }

  lemma BeforeBoundaryEntry(files: set<File>, e: Entry, k: InternalKey, g: File)
    requires forall f :: f in files ==> Sorted(f.entries)
    requires IsLargestKey(files, k) && e in Contents(files) && StartsAtBoundary(g, k)
    ensures Less(e.key, g.entries[0].key)
  {
    var f :| f in files && e in f.entries;
    EntryUserInFileRange(f, e);
    assert !Less(k, f.Largest());
  }

  lemma SeqnosDiffer(all: set<Entry>, e: Entry, f: Entry)
    requires UniqueSeqnos(all) && e in all && f in all && e.key.user == f.key.user && Less(e.key, f.key)
    ensures e.key.seqno > f.key.seqno
  {}

  /** In the missed case a deleted user key becomes readable again. */
  lemma ResurrectionChangesView(s: State, t: State, level: nat, in0: set<File>, in1: set<File>, outs: set<File>,
                                lo: UserKey, hi: UserKey, u: UserKey, g: File, k: InternalKey)
    requires Inv(s) && level + 1 < NUM_LEVELS && CompactStep(s, t, level, in0, in1, outs, lo, hi)
    requires Inv(t) && All(t) <= All(s)
    requires IsLargestKey(in1, k) && IsBoundaryFile(s.levels[level + 1], k, g) && k.user == u
    requires ResurrectsAt(s, level, in0, in1, u, g)
    ensures View(All(s), u, SmallestSnapshot(s)) == None
    ensures View(All(t), u, SmallestSnapshot(s)) == Some(g.entries[0].value)
  {
    var smallest := SmallestSnapshot(s);
    var top := Newest(All(s), u, smallest).value;
    var inputs := Contents(in0) + Contents(in1);
    assert top !in Contents(outs);
    TopIsGone(s, t, level, in0, in1, outs, top);
    DroppedNewest(s, t, level, in0, in1, outs, lo, hi, u, smallest);
    BoundaryFileNotSelected(s, level, in1, k, g);
    BoundaryFirstStays(s, t, level, in0, in1, outs, g);
    LargestBeforeBoundary(s, level, in0, in1, lo, hi, top, k, g);
    forall x | x in All(t) && Matches(x, u, smallest) ensures x.key.seqno <= g.entries[0].key.seqno {
      var h :| h in s.levels[level + 1] - in1 && x in h.entries;
      BoundaryFirstIsNewest(s, level, in0, in1, lo, hi, top, h, x, k, g);
    }
    NewestUnique(All(t), u, smallest, Some(g.entries[0]));
  }

  /** An input entry that is not an output is nowhere afterwards. */
  lemma TopIsGone(s: State, t: State, level: nat, in0: set<File>, in1: set<File>, outs: set<File>, e: Entry)
    requires |s.levels| == NUM_LEVELS && level + 1 < NUM_LEVELS && FilesOk(s) && LevelDisjoint(s.levels[level + 1]) && Recency(s)
    requires in0 <= s.levels[level] && in1 <= s.levels[level + 1]
    requires Above(Contents(s.levels[level] - in0), Contents(in0))
    requires Replace(s, t, level, in0, in1, outs) && |t.levels| == NUM_LEVELS
    requires e in Contents(in0) + Contents(in1) && e !in Contents(outs)
    ensures e !in All(t)
  {
    ReplacePlaces(s, t, level, in0, in1, outs);
    var q := InputPlace(s, level, in0, in1, e);
    forall p | 0 <= p < PLACES ensures e !in Place(t, p) {
      if p < q {
        OnlyOnePlace(s, p, q, e);
      } else if q < p {
        OnlyOnePlace(s, q, p, e);
      } else if p == level + 3 {
        InOneFileOnly(s, level + 1, in1, e);
      }
    }
  }

  lemma OnlyOnePlace(s: State, p: nat, q: nat, e: Entry)
    requires |s.levels| == NUM_LEVELS && Recency(s) && p < q < PLACES
    ensures e in Place(s, p) ==> e !in Place(s, q)
  {
    assert Above(Place(s, p), Place(s, q));
  }

  lemma InOneFileOnly(s: State, level: nat, chosen: set<File>, e: Entry)
    requires |s.levels| == NUM_LEVELS && FilesOk(s) && level < NUM_LEVELS
    requires LevelDisjoint(s.levels[level]) && chosen <= s.levels[level]
    ensures e in Contents(chosen) ==> e !in Contents(s.levels[level] - chosen)
  {
    forall f, h | f in chosen && h in s.levels[level] - chosen && e in f.entries ensures e !in h.entries {
      assert Apart(f, h);
      EntryUserInFileRange(f, e);
      if e in h.entries {
        EntryUserInFileRange(h, e);
      }
    }
  }

  lemma ResurrectingStep(s: State, t: State, level: nat, in0: set<File>, in1: set<File>, outs: set<File>,
                         lo: UserKey, hi: UserKey, u: UserKey, g: File, k: InternalKey)
    requires Inv(s) && level + 1 < NUM_LEVELS && CompactStep(s, t, level, in0, in1, outs, lo, hi)
    requires IsLargestKey(in1, k) && IsBoundaryFile(s.levels[level + 1], k, g) && k.user == u
    requires ResurrectsAt(s, level, in0, in1, u, g)
    ensures Inv(t)
    ensures View(All(s), u, SmallestSnapshot(s)) == None
    ensures View(All(t), u, SmallestSnapshot(s)) == Some(g.entries[0].value)
  {
    ReplaceKeepsInv(s, t, level, in0, in1, outs, lo, hi);
    ReplaceKeepsRecency(s, t, level, in0, in1, outs, lo, hi);
    ResurrectionChangesView(s, t, level, in0, in1, outs, lo, hi, u, g, k);
  }

  /** A compaction keeps every view readers at or after the oldest snapshot may ask for
      if and only if the missed case does not arise. */
  lemma CompactionKeepsViewsIff(s: State, t: State, level: nat, in0: set<File>, in1: set<File>, outs: set<File>,
                                lo: UserKey, hi: UserKey)
    requires Inv(s) && level + 1 < NUM_LEVELS && CompactStep(s, t, level, in0, in1, outs, lo, hi)
    ensures Inv(t)
    ensures (forall u, n :: SmallestSnapshot(s) <= n ==> View(All(t), u, n) == View(All(s), u, n))
       <==> !Resurrects(s, level, in0, in1)
  {
    ReplaceKeepsInv(s, t, level, in0, in1, outs, lo, hi);
    ReplaceKeepsRecency(s, t, level, in0, in1, outs, lo, hi);
    if Resurrects(s, level, in0, in1) {
      var k, g :| IsLargestKey(in1, k) && IsBoundaryFile(s.levels[level + 1], k, g) && ResurrectsAt(s, level, in0, in1, k.user, g);
      ResurrectionChangesView(s, t, level, in0, in1, outs, lo, hi, k.user, g, k);
    } else {
      forall u, n: nat | SmallestSnapshot(s) <= n ensures View(All(t), u, n) == View(All(s), u, n) {
        NoResurrectionKeepsView(s, t, level, in0, in1, outs, lo, hi, u, n);
      }
    }
  }
}
