/** The log-structured store as a state machine: what it holds, the invariant every
    step keeps, and the steps themselves (db/db_impl.cc, db/version_set.cc). */
module LsmState {
  import opened Keys

  const NUM_LEVELS: nat := 7
  const MAX_MEM_COMPACT_LEVEL: nat := 2

  /** A table file with its metadata; `entries` is what reading the table yields. */
  datatype TableFile = File(number: nat, size: nat, entries: seq<Entry>) {
    function Smallest(): InternalKey
      requires entries != []
    {
      entries[0].key
    }

    function Largest(): InternalKey
      requires entries != []
    {
      entries[|entries| - 1].key
    }
  }

  /** BuildTable and DoCompactionWork never install a table without entries. */
  type File = f: TableFile | f.entries != []
    witness File(0, 0, [Entry(InternalKey(0.0, 0, Put), [])])

  function Contents(files: set<File>): set<Entry> {
    set f, e | f in files && e in f.entries :: e
  }

  /** Two files lie apart in internal-key order. */
  predicate Apart(f: File, g: File)
  {
    Less(f.Largest(), g.Smallest()) || Less(g.Largest(), f.Smallest())
  }

  datatype State = State(
    mem: seq<Entry>,
    imm: Option<seq<Entry>>,
    levels: seq<set<File>>,
    lastSeq: nat,
    snapshots: seq<nat>,
    nextFile: nat)

  const PLACES: nat := NUM_LEVELS + 2

  /** Where data can be, in the order a read visits it: memtable, immutable memtable, levels. */
  function Place(s: State, p: nat): set<Entry>
    requires |s.levels| == NUM_LEVELS && p < PLACES
  {
    if p == 0 then EntrySet(s.mem)
    else if p == 1 then (if s.imm.Some? then EntrySet(s.imm.value) else {})
    else Contents(s.levels[p - 2])
  }

  function All(s: State): set<Entry>
    requires |s.levels| == NUM_LEVELS
  {
    set p, e | 0 <= p < PLACES && e in Place(s, p) :: e
  }

  /** For every user key, data in `upper` is newer than data in `lower`. */
  ghost predicate Above(upper: set<Entry>, lower: set<Entry>) {
    forall e, f :: e in upper && f in lower && e.key.user == f.key.user ==> e.key.seqno > f.key.seqno
  }

  ghost predicate Recency(s: State)
    requires |s.levels| == NUM_LEVELS
  {
    forall p, q :: 0 <= p < q < PLACES ==> Above(Place(s, p), Place(s, q))
  }

  ghost predicate FilesOk(s: State)
    requires |s.levels| == NUM_LEVELS
  {
    forall l, f :: 0 <= l < NUM_LEVELS && f in s.levels[l] ==> Sorted(f.entries) && f.number < s.nextFile
  }

  ghost predicate LevelDisjoint(files: set<File>)
  {
    forall f, g :: f in files && g in files && f != g ==> Apart(f, g)
  }

  /** Level-0 files may overlap, but a higher number means newer data. */
  ghost predicate Level0Recency(files: set<File>) {
    forall f, g :: f in files && g in files && f != g ==>
      f.number != g.number && (f.number > g.number ==> Above(EntrySet(f.entries), EntrySet(g.entries)))
  }

  /** SnapshotList keeps sequence numbers in ascending order. */
  ghost predicate SnapshotsOk(s: State) {
    && (forall i, j :: 0 <= i < j < |s.snapshots| ==> s.snapshots[i] <= s.snapshots[j])
    && (forall i :: 0 <= i < |s.snapshots| ==> s.snapshots[i] <= s.lastSeq)
  }

  ghost predicate Inv(s: State) {
    && |s.levels| == NUM_LEVELS
    && Sorted(s.mem)
    && (s.imm.Some? ==> Sorted(s.imm.value))
    && FilesOk(s)
    && (forall l :: 1 <= l < NUM_LEVELS ==> LevelDisjoint(s.levels[l]))
    && Level0Recency(s.levels[0])
    && Recency(s)
    && UniqueSeqnos(All(s))
    && (forall e :: e in All(s) ==> e.key.seqno <= s.lastSeq)
    && s.lastSeq < MAX_SEQUENCE
    && SnapshotsOk(s)
  }

  /** DoCompactionWork: the oldest sequence number some reader may still use. */
  function SmallestSnapshot(s: State): nat {
    if s.snapshots == [] then s.lastSeq else s.snapshots[0]
  }

  /** The store answers every permitted read as the full write history would. */
  ghost predicate Faithful(s: State, history: set<Entry>)
    requires |s.levels| == NUM_LEVELS
  {
    && UniqueSeqnos(history)
    && (forall e :: e in history ==> e.key.seqno <= s.lastSeq)
    && forall u, n :: SmallestSnapshot(s) <= n ==> View(All(s), u, n) == View(history, u, n)
  }

  lemma InAll(s: State, p: nat, e: Entry)
    requires |s.levels| == NUM_LEVELS && p < PLACES && e in Place(s, p)
    ensures e in All(s)
  {}

  // ----- Writing -----

  /** One operation of a write batch. */
  datatype Op = Op(user: UserKey, kind: Kind, value: Bytes)

  /** MemTableInserter: operation i of a batch gets sequence number first + i. */
  function Stamp(ops: seq<Op>, first: nat): (r: seq<Entry>)
    ensures |r| == |ops|
    ensures forall i :: 0 <= i < |ops| ==> r[i] == Entry(InternalKey(ops[i].user, first + i, ops[i].kind), ops[i].value)
  {
    seq(|ops|, i requires 0 <= i < |ops| => Entry(InternalKey(ops[i].user, first + i, ops[i].kind), ops[i].value))
  }

  ghost predicate WriteStep(s: State, t: State, ops: seq<Op>) {
    && s.lastSeq + |ops| < MAX_SEQUENCE
    && Sorted(t.mem)
    && EntrySet(t.mem) == EntrySet(s.mem) + EntrySet(Stamp(ops, s.lastSeq + 1))
    && t == s.(mem := t.mem, lastSeq := s.lastSeq + |ops|)
  }

  /** MakeRoomForWrite: the full memtable becomes the immutable one. */
  predicate RotateStep(s: State, t: State) {
    s.imm.None? && t == s.(imm := Some(s.mem), mem := [], nextFile := t.nextFile) && s.nextFile <= t.nextFile
  }

  /** File `f` holds no user key in [lo, hi]. */
  predicate OutsideUserRange(f: File, lo: UserKey, hi: UserKey)
  {
    hi < f.Smallest().user || f.Largest().user < lo
  }

  /** PickLevelForMemTableOutput may answer `level`: every level above the target, and the
      target itself unless it is level 0, is free of the new file's user-key range. */
  ghost predicate LevelAllowed(s: State, level: nat, lo: UserKey, hi: UserKey)
    requires |s.levels| == NUM_LEVELS
  {
    && level <= MAX_MEM_COMPACT_LEVEL
    && (level > 0 ==> forall l, f :: 0 <= l <= level && f in s.levels[l] ==> OutsideUserRange(f, lo, hi))
  }

  /** CompactMemTable with WriteLevel0Table; an empty memtable yields no file. */
  ghost predicate FlushStep(s: State, t: State, level: nat, f: File)
    requires |s.levels| == NUM_LEVELS
  {
    && s.imm.Some?
    && (if s.imm.value == [] then t == s.(imm := None, nextFile := t.nextFile) && s.nextFile <= t.nextFile
        else
          && f.entries == s.imm.value
          && s.nextFile <= f.number < t.nextFile
          && level < NUM_LEVELS
          && LevelAllowed(s, level, f.Smallest().user, f.Largest().user)
          && t == s.(imm := None, levels := s.levels[level := s.levels[level] + {f}], nextFile := t.nextFile))
  }

  ghost predicate SnapshotStep(s: State, t: State) {
    t == s.(snapshots := s.snapshots + [s.lastSeq])
  }

  /** SnapshotList::Delete unlinks one snapshot. */
  ghost predicate ReleaseStep(s: State, t: State, i: nat) {
    i < |s.snapshots| && t == s.(snapshots := s.snapshots[..i] + s.snapshots[i + 1..])
  }

  // ----- The steps above keep the invariant and every readable view -----

  lemma PlaceSeqnoBound(s: State, p: nat, e: Entry)
    requires Inv(s) && p < PLACES && e in Place(s, p)
    ensures e.key.seqno <= s.lastSeq
  {
    InAll(s, p, e);
  }

  lemma WriteAll(s: State, t: State, ops: seq<Op>)
    requires |s.levels| == NUM_LEVELS && WriteStep(s, t, ops)
    ensures All(t) == All(s) + EntrySet(Stamp(ops, s.lastSeq + 1))
  {
    var added := EntrySet(Stamp(ops, s.lastSeq + 1));
    assert forall p :: 0 <= p < PLACES ==> Place(t, p) == if p == 0 then Place(s, 0) + added else Place(s, p);
    forall e | e in All(s) + added ensures e in All(t) {
      if e in added {
        assert e in Place(t, 0);
      } else {
        var p :| 0 <= p < PLACES && e in Place(s, p);
        assert e in Place(t, p);
      }
    }
  }

  lemma StampFresh(s: seq<Entry>, lastSeq: nat, ops: seq<Op>, all: set<Entry>)
    requires s == Stamp(ops, lastSeq + 1)
    requires UniqueSeqnos(all) && forall e :: e in all ==> e.key.seqno <= lastSeq
    ensures UniqueSeqnos(all + EntrySet(s))
    ensures forall e :: e in EntrySet(s) ==> lastSeq < e.key.seqno <= lastSeq + |ops|
  {}

  lemma WriteKeepsInv(s: State, t: State, ops: seq<Op>)
    requires Inv(s) && WriteStep(s, t, ops)
    ensures Inv(t)
  {
    WriteAll(s, t, ops);
    var added := EntrySet(Stamp(ops, s.lastSeq + 1));
    StampFresh(Stamp(ops, s.lastSeq + 1), s.lastSeq, ops, All(s));
    assert forall p :: 0 <= p < PLACES ==> Place(t, p) == if p == 0 then Place(s, 0) + added else Place(s, p);
    forall p, q | 0 <= p < q < PLACES ensures Above(Place(t, p), Place(t, q)) {
      assert Above(Place(s, p), Place(s, q));
      forall e | e in Place(s, q) ensures e.key.seqno <= s.lastSeq { PlaceSeqnoBound(s, q, e); }
    }
  }

  lemma RotateKeepsInv(s: State, t: State)
    requires Inv(s) && RotateStep(s, t)
    ensures Inv(t) && All(t) == All(s)
  {
    assert Place(t, 0) == {} && Place(t, 1) == Place(s, 0) && Place(s, 1) == {};
    assert forall p :: 2 <= p < PLACES ==> Place(t, p) == Place(s, p);
    forall p, q | 0 <= p < q < PLACES ensures Above(Place(t, p), Place(t, q)) {
      assert Above(Place(s, if p == 1 then 0 else p), Place(s, q));
    }
    assert forall e :: e in Place(s, 0) <==> e in Place(t, 1);
  }

  lemma AddFileContents(files: set<File>, f: File)
    ensures Contents(files + {f}) == Contents(files) + EntrySet(f.entries)
  {}

  lemma FlushPlaces(s: State, t: State, level: nat, f: File)
    requires Inv(s) && FlushStep(s, t, level, f) && s.imm.value != []
    ensures |t.levels| == NUM_LEVELS && Place(t, 1) == {}
    ensures forall p :: 0 <= p < PLACES && p != 1 ==>
      Place(t, p) == if p == level + 2 then Place(s, p) + Place(s, 1) else Place(s, p)
    ensures All(t) == All(s)
  {
    AddFileContents(s.levels[level], f);
    forall e | e in All(s) ensures e in All(t) {
      var p :| 0 <= p < PLACES && e in Place(s, p);
      InAll(t, if p == 1 then level + 2 else p, e);
    }
  }

  lemma EntryUserInFileRange(f: File, e: Entry)
    requires Sorted(f.entries) && e in f.entries
    ensures f.Smallest().user <= e.key.user <= f.Largest().user
    ensures !Less(e.key, f.Smallest()) && !Less(f.Largest(), e.key)
  {
    var i :| 0 <= i < |f.entries| && f.entries[i] == e;
    assert i > 0 ==> Less(f.entries[0].key, f.entries[i].key);
    assert i < |f.entries| - 1 ==> Less(f.entries[i].key, f.entries[|f.entries| - 1].key);
  }

  lemma FlushedRangeIsFree(s: State, level: nat, f: File, l: nat, e: Entry, x: Entry)
    requires Inv(s) && Sorted(f.entries) && level < NUM_LEVELS
    requires LevelAllowed(s, level, f.Smallest().user, f.Largest().user)
    requires l < level && e in Contents(s.levels[l]) && x in f.entries
    ensures e.key.user != x.key.user
  {
    var g :| g in s.levels[l] && e in g.entries;
    assert OutsideUserRange(g, f.Smallest().user, f.Largest().user);
    EntryUserInFileRange(g, e);
    EntryUserInFileRange(f, x);
  }

  /** Entries flushed below a place are older than that place, or share no user key with it. */
  lemma FlushedBelow(s: State, level: nat, f: File, p: nat)
    requires Inv(s) && Sorted(f.entries) && level < NUM_LEVELS && s.imm == Some(f.entries)
    requires LevelAllowed(s, level, f.Smallest().user, f.Largest().user)
    requires p < level + 2 && p != 1
    ensures Above(Place(s, p), Place(s, 1))
  {
    if p == 0 {
      assert Above(Place(s, 0), Place(s, 1));
    } else {
      forall e, x | e in Place(s, p) && x in Place(s, 1) ensures e.key.user != x.key.user {
        FlushedRangeIsFree(s, level, f, p - 2, e, x);
      }
    }
  }

  lemma FlushKeepsRecency(s: State, t: State, level: nat, f: File)
    requires Inv(s) && FlushStep(s, t, level, f) && s.imm.value != []
    ensures Recency(t)
  {
    FlushPlaces(s, t, level, f);
    forall p, q | 0 <= p < q < PLACES ensures Above(Place(t, p), Place(t, q)) {
      if p != 1 && q != 1 {
        assert Above(Place(s, p), Place(s, q));
        if q == level + 2 {
          FlushedBelow(s, level, f, p);
        } else if p == level + 2 {
          assert Above(Place(s, 1), Place(s, q));
        }
      }
    }
  }

  lemma FlushKeepsInv(s: State, t: State, level: nat, f: File)
    requires Inv(s) && FlushStep(s, t, level, f)
    ensures Inv(t) && All(t) == All(s)
  {
    if s.imm.value == [] {
      assert forall p :: 0 <= p < PLACES ==> Place(t, p) == Place(s, p);
    } else {
      FlushPlaces(s, t, level, f);
      FlushKeepsRecency(s, t, level, f);
      if level > 0 {
        forall g | g in s.levels[level] ensures Apart(f, g) {
          assert OutsideUserRange(g, f.Smallest().user, f.Largest().user);
        }
      } else {
        forall g | g in s.levels[0] ensures g.number < f.number && Above(EntrySet(f.entries), EntrySet(g.entries)) {
          assert Above(Place(s, 1), Place(s, 2));
          assert forall e :: e in g.entries ==> e in Place(s, 2);
        }
      }
    }
  }

  lemma SnapshotKeepsInv(s: State, t: State)
    requires Inv(s) && SnapshotStep(s, t)
    ensures Inv(t) && All(t) == All(s) && SmallestSnapshot(t) == SmallestSnapshot(s)
  {
    assert forall p :: 0 <= p < PLACES ==> Place(t, p) == Place(s, p);
  }

  lemma ReleaseKeepsInv(s: State, t: State, i: nat)
    requires Inv(s) && ReleaseStep(s, t, i)
    ensures Inv(t) && All(t) == All(s) && SmallestSnapshot(t) >= SmallestSnapshot(s)
  {
    assert forall p :: 0 <= p < PLACES ==> Place(t, p) == Place(s, p);
  }

  // ----- Faithfulness to the history -----

  /** A write is seen by every later read exactly as the history records it. */
  lemma WriteKeepsFaithful(s: State, t: State, ops: seq<Op>, history: set<Entry>)
    requires Inv(s) && Faithful(s, history) && WriteStep(s, t, ops)
    ensures Faithful(t, history + EntrySet(Stamp(ops, s.lastSeq + 1)))
  {
    var added := EntrySet(Stamp(ops, s.lastSeq + 1));
    StampFresh(Stamp(ops, s.lastSeq + 1), s.lastSeq, ops, history);
    StampFresh(Stamp(ops, s.lastSeq + 1), s.lastSeq, ops, All(s));
    WriteAll(s, t, ops);
    forall u, n: nat | SmallestSnapshot(t) <= n ensures View(All(t), u, n) == View(history + added, u, n) {
      ViewAfterAppend(All(s), added, s.lastSeq, u, n);
      ViewAfterAppend(history, added, s.lastSeq, u, n);
      assert SmallestSnapshot(s) <= n;
    }
  }

  /** Newer entries win if any is readable; otherwise the older ones decide. */
  lemma ViewAfterAppend(old_: set<Entry>, added: set<Entry>, bound: nat, u: UserKey, n: nat)
    requires UniqueSeqnos(old_ + added)
    requires forall e :: e in old_ ==> e.key.seqno <= bound
    requires forall e :: e in added ==> bound < e.key.seqno
    ensures View(old_ + added, u, n) == if Newest(added, u, n).Some? then View(added, u, n) else View(old_, u, n)
  {
    var r := if Newest(added, u, n).Some? then Newest(added, u, n) else Newest(old_, u, n);
    NewestUnique(old_ + added, u, n, r);
  }
}
