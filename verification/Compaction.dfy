/** Compaction of two adjacent levels: what may be dropped, what the store's invariant
    needs of the chosen inputs, and exactly when every readable view survives
    (db/db_impl.cc BackgroundCompaction and DoCompactionWork, db/version_set.cc). */
module Compaction {
  import opened Keys
  import opened LsmState

  /** The drop rule (A): a newer entry of the same user key is already old enough for every reader. */
  ghost predicate Hidden(inputs: set<Entry>, e: Entry, smallest: nat) {
    exists n :: n in inputs && n.key.user == e.key.user && e.key.seqno < n.key.seqno <= smallest
  }

  predicate SpansUserKey(f: File, u: UserKey) {
    f.Smallest().user <= u <= f.Largest().user
  }

  /** What IsBaseLevelForKey decides: no file below the output level spans the user key. */
  predicate IsBaseLevel(s: State, level: nat, u: UserKey)
    requires |s.levels| == NUM_LEVELS
  {
    forall l :: level + 2 <= l < NUM_LEVELS ==> forall f :: f in s.levels[l] ==> !SpansUserKey(f, u)
  }

  ghost predicate Obsolete(s: State, level: nat, e: Entry, smallest: nat)
    requires |s.levels| == NUM_LEVELS
  {
    e.key.kind.Deletion? && e.key.seqno <= smallest && IsBaseLevel(s, level, e.key.user)
  }

  ghost predicate Survives(s: State, level: nat, inputs: set<Entry>, e: Entry, smallest: nat)
    requires |s.levels| == NUM_LEVELS
  {
    e in inputs && !Hidden(inputs, e, smallest) && !Obsolete(s, level, e, smallest)
  }

  /** What SetupOtherInputs guarantees of its choice: the upper inputs leave no older entry of
      theirs behind in their level, lie in the user-key range [lo, hi], and the lower inputs
      are exactly the files of the next level meeting that range. */
  ghost predicate Selection(s: State, level: nat, in0: set<File>, in1: set<File>, lo: UserKey, hi: UserKey)
    requires |s.levels| == NUM_LEVELS && level + 1 < NUM_LEVELS
  {
    && in0 <= s.levels[level]
    && in1 <= s.levels[level + 1]
    && Above(Contents(s.levels[level] - in0), Contents(in0))
    && (forall f :: f in in0 ==> lo <= f.Smallest().user && f.Largest().user <= hi)
    && (forall g :: g in s.levels[level + 1] ==> (g in in1 <==> !OutsideUserRange(g, lo, hi)))
  }

  /** Replacing the inputs by output files holding some of their entries. */
  ghost predicate Replace(s: State, t: State, level: nat, in0: set<File>, in1: set<File>, outs: set<File>)
    requires |s.levels| == NUM_LEVELS && level + 1 < NUM_LEVELS
  {
    && Contents(outs) <= Contents(in0) + Contents(in1)
    && (forall f :: f in outs ==> Sorted(f.entries) && f.number < t.nextFile)
    && LevelDisjoint(outs)
    && s.nextFile <= t.nextFile
    && t == s.(levels := s.levels[level := s.levels[level] - in0][level + 1 := s.levels[level + 1] - in1 + outs],
               nextFile := t.nextFile)
  }

  /** One compaction: the outputs hold exactly the surviving entries. */
  ghost predicate CompactStep(s: State, t: State, level: nat, in0: set<File>, in1: set<File>, outs: set<File>,
                              lo: UserKey, hi: UserKey)
    requires |s.levels| == NUM_LEVELS && level + 1 < NUM_LEVELS
  {
    && Selection(s, level, in0, in1, lo, hi)
    && Replace(s, t, level, in0, in1, outs)
    && HoldSurvivors(s, level, Contents(in0) + Contents(in1), outs)
  }

  ghost predicate HoldSurvivors(s: State, level: nat, inputs: set<Entry>, outs: set<File>)
    requires |s.levels| == NUM_LEVELS
  {
    forall e :: e in Contents(outs) <==> Survives(s, level, inputs, e, SmallestSnapshot(s))
  }

  /** BackgroundCompaction's shortcut: one file without overlap below just changes level. */
  ghost predicate TrivialMoveStep(s: State, t: State, level: nat, f: File)
    requires |s.levels| == NUM_LEVELS && level + 1 < NUM_LEVELS
  {
    && Selection(s, level, {f}, {}, f.Smallest().user, f.Largest().user)
    && t == s.(levels := s.levels[level := s.levels[level] - {f}][level + 1 := s.levels[level + 1] + {f}])
  }

  // ----- The structural invariant -----

  lemma ContentsMember(files: set<File>, f: File, e: Entry)
    requires f in files && e in f.entries
    ensures e in Contents(files)
  {}

  lemma ContentsUnion(a: set<File>, b: set<File>)
    ensures Contents(a + b) == Contents(a) + Contents(b)
  {
    forall e | e in Contents(a + b) ensures e in Contents(a) + Contents(b) {
      var f :| f in a + b && e in f.entries;
      if f in a { ContentsMember(a, f, e); } else { ContentsMember(b, f, e); }
    }
    forall e | e in Contents(a) + Contents(b) ensures e in Contents(a + b) {
      if e in Contents(a) {
        var f :| f in a && e in f.entries;
        ContentsMember(a + b, f, e);
      } else {
        var f :| f in b && e in f.entries;
        ContentsMember(a + b, f, e);
      }
    }
  }

  lemma ReplacePlaces(s: State, t: State, level: nat, in0: set<File>, in1: set<File>, outs: set<File>)
    requires |s.levels| == NUM_LEVELS && level + 1 < NUM_LEVELS && in0 <= s.levels[level] && in1 <= s.levels[level + 1]
    requires Replace(s, t, level, in0, in1, outs)
    ensures |t.levels| == NUM_LEVELS
    ensures forall p :: 0 <= p < PLACES && p != level + 2 && p != level + 3 ==> Place(t, p) == Place(s, p)
    ensures Place(t, level + 2) == Contents(s.levels[level] - in0)
    ensures Place(s, level + 2) == Contents(s.levels[level] - in0) + Contents(in0)
    ensures Place(t, level + 3) == Contents(s.levels[level + 1] - in1) + Contents(outs)
    ensures Place(s, level + 3) == Contents(s.levels[level + 1] - in1) + Contents(in1)
  {
    ContentsUnion(s.levels[level + 1] - in1, outs);
    ContentsUnion(s.levels[level + 1] - in1, in1);
    ContentsUnion(s.levels[level] - in0, in0);
    assert s.levels[level + 1] - in1 + in1 == s.levels[level + 1];
    assert s.levels[level] - in0 + in0 == s.levels[level];
  }

  lemma AboveUnion(upper: set<Entry>, a: set<Entry>, b: set<Entry>, lower: set<Entry>)
    requires Above(upper, a) && Above(upper, b) && lower <= a + b
    ensures Above(upper, lower)
  {}

  lemma UnionAbove(a: set<Entry>, b: set<Entry>, upper: set<Entry>, lower: set<Entry>)
    requires Above(a, lower) && Above(b, lower) && upper <= a + b
    ensures Above(upper, lower)
  {}

  lemma ReplacedPlacesAbove(s: State, t: State, level: nat, in0: set<File>, in1: set<File>, outs: set<File>,
                            lo: UserKey, hi: UserKey, p: nat, q: nat)
    requires |s.levels| == NUM_LEVELS && level + 1 < NUM_LEVELS && Recency(s) && Selection(s, level, in0, in1, lo, hi)
    requires Replace(s, t, level, in0, in1, outs) && p < q < PLACES
    ensures |t.levels| == NUM_LEVELS && Above(Place(t, p), Place(t, q))
  {
    ReplacePlaces(s, t, level, in0, in1, outs);
    var rest0, rest1 := Contents(s.levels[level] - in0), Contents(s.levels[level + 1] - in1);
    assert Above(Place(s, p), Place(s, q));
    if q == level + 3 {
      if p == level + 2 {
        AboveUnion(rest0, Contents(in0), Place(s, q), Place(t, q));
      } else {
        assert Above(Place(s, p), Place(s, level + 2));
        AboveUnion(Place(s, p), Place(s, level + 2), Place(s, q), Place(t, q));
      }
    } else if p == level + 3 {
      assert Above(Place(s, level + 2), Place(s, q));
      UnionAbove(Place(s, level + 2), Place(s, p), Place(t, p), Place(s, q));
    }
  }

  lemma ReplaceKeepsRecency(s: State, t: State, level: nat, in0: set<File>, in1: set<File>, outs: set<File>,
                            lo: UserKey, hi: UserKey)
    requires |s.levels| == NUM_LEVELS && level + 1 < NUM_LEVELS && Recency(s) && Selection(s, level, in0, in1, lo, hi)
    requires Replace(s, t, level, in0, in1, outs)
    ensures |t.levels| == NUM_LEVELS && Recency(t)
    ensures All(t) <= All(s)
  {
    ReplacePlaces(s, t, level, in0, in1, outs);
    forall p, q | 0 <= p < q < PLACES ensures Above(Place(t, p), Place(t, q)) {
      ReplacedPlacesAbove(s, t, level, in0, in1, outs, lo, hi, p, q);
    }
    forall e | e in All(t) ensures e in All(s) {
      var p :| 0 <= p < PLACES && e in Place(t, p);
      InAll(s, if p == level + 3 && e !in Place(s, p) then level + 2 else p, e);
    }
  }

  /** Every input entry lies on the same side of a lower-level file that was not selected. */
  lemma UnselectedApart(s: State, level: nat, in0: set<File>, in1: set<File>, lo: UserKey, hi: UserKey, h: File, e: Entry)
    requires |s.levels| == NUM_LEVELS && level + 1 < NUM_LEVELS && FilesOk(s) && LevelDisjoint(s.levels[level + 1])
    requires Selection(s, level, in0, in1, lo, hi)
    requires h in s.levels[level + 1] - in1 && e in Contents(in0) + Contents(in1)
    ensures OutsideUserRange(h, lo, hi)
    ensures hi < h.Smallest().user ==> Less(e.key, h.Smallest())
    ensures h.Largest().user < lo ==> Less(h.Largest(), e.key)
  {
    EntryUserInFileRange(h, h.entries[0]);
    if e in Contents(in0) {
      var f :| f in in0 && e in f.entries;
      EntryUserInFileRange(f, e);
    } else {
      var f :| f in in1 && e in f.entries;
      EntryUserInFileRange(f, e);
      EntryUserInFileRange(f, f.entries[0]);
      assert Apart(f, h) && !OutsideUserRange(f, lo, hi);
    }
  }

  lemma OutputApart(s: State, level: nat, in0: set<File>, in1: set<File>, lo: UserKey, hi: UserKey, h: File, f: File)
    requires |s.levels| == NUM_LEVELS && level + 1 < NUM_LEVELS && FilesOk(s) && LevelDisjoint(s.levels[level + 1])
    requires Selection(s, level, in0, in1, lo, hi)
    requires h in s.levels[level + 1] - in1
    requires EntrySet(f.entries) <= Contents(in0) + Contents(in1)
    ensures Apart(f, h)
  {
    UnselectedApart(s, level, in0, in1, lo, hi, h, f.entries[0]);
    UnselectedApart(s, level, in0, in1, lo, hi, h, f.entries[|f.entries| - 1]);
  }

  lemma ReplaceKeepsDisjoint(s: State, t: State, level: nat, in0: set<File>, in1: set<File>, outs: set<File>,
                             lo: UserKey, hi: UserKey)
    requires |s.levels| == NUM_LEVELS && level + 1 < NUM_LEVELS && FilesOk(s) && LevelDisjoint(s.levels[level + 1])
    requires Selection(s, level, in0, in1, lo, hi)
    requires Replace(s, t, level, in0, in1, outs)
    ensures LevelDisjoint(t.levels[level + 1])
  {
    forall f, h | f in outs && h in s.levels[level + 1] - in1 ensures Apart(f, h) {
      forall e | e in f.entries ensures e in Contents(in0) + Contents(in1) {
        ContentsMember(outs, f, e);
      }
      OutputApart(s, level, in0, in1, lo, hi, h, f);
    }
    var after := s.levels[level + 1] - in1 + outs;
    assert t.levels[level + 1] == after;
    assert LevelDisjoint(s.levels[level + 1]);
    forall f, g | f in after && g in after && f != g ensures Apart(f, g) {
      if f in outs && g !in outs {
        assert Apart(f, g);
      } else if f !in outs && g in outs {
        assert Apart(g, f);
      } else if f !in outs {
        assert f in s.levels[level + 1] && g in s.levels[level + 1];
      }
    }
  }

  /** Whatever a compaction drops, the store's shape and its newest-first order survive. */
  lemma ReplaceKeepsInv(s: State, t: State, level: nat, in0: set<File>, in1: set<File>, outs: set<File>,
                        lo: UserKey, hi: UserKey)
    requires Inv(s) && level + 1 < NUM_LEVELS && Selection(s, level, in0, in1, lo, hi)
    requires Replace(s, t, level, in0, in1, outs)
    ensures Inv(t)
  {
    ReplaceKeepsRecency(s, t, level, in0, in1, outs, lo, hi);
    ReplaceKeepsDisjoint(s, t, level, in0, in1, outs, lo, hi);
  }

  lemma TrivialMoveKeepsInv(s: State, t: State, level: nat, f: File)
    requires Inv(s) && level + 1 < NUM_LEVELS && TrivialMoveStep(s, t, level, f)
    ensures Inv(t) && All(t) == All(s)
  {
    assert Replace(s, t, level, {f}, {}, {f}) by {
      assert s.levels[level + 1] - {} + {f} == s.levels[level + 1] + {f};
    }
    ReplaceKeepsInv(s, t, level, {f}, {}, {f}, f.Smallest().user, f.Largest().user);
    ReplaceKeepsRecency(s, t, level, {f}, {}, {f}, f.Smallest().user, f.Largest().user);
    ReplacePlaces(s, t, level, {f}, {}, {f});
    forall e | e in All(s) ensures e in All(t) {
      var p :| 0 <= p < PLACES && e in Place(s, p);
      InAll(t, if p == level + 2 && e in Contents({f}) then level + 3 else p, e);
    }
  }
}
