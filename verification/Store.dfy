/** The database object (db/db_impl.cc DBImpl): its fields, and its operations as steps of the
    state machine. Each method runs under the mutex and counts as one atomic step. */
module Store {
  import opened Keys
  import opened LsmState
  import opened FileLists
  import opened Compaction
  import opened CompactionViews
  import opened CompactionWork
  import opened InputSelection
  import opened Merger
  import opened Reads
  import opened Runs
  import opened TwoLevel
  import opened VersionBuilder
  import DbIter

  /** A file number names one file, at one level. */
  ghost predicate NumbersUnique(levels: seq<set<File>>) {
    forall l, m, f, g :: 0 <= l < |levels| && 0 <= m < |levels| && f in levels[l] && g in levels[m] && f.number == g.number ==>
      l == m && f == g
  }

  ghost predicate ListsOk(levels: seq<seq<File>>) {
    |levels| == NUM_LEVELS && forall l :: 0 <= l < NUM_LEVELS ==> BySmallest(levels[l])
  }

  function SetsOf(levels: seq<seq<File>>): (r: seq<set<File>>)
    ensures |r| == |levels| && forall l :: 0 <= l < |levels| ==> r[l] == FileSet(levels[l])
  {
    seq(|levels|, l requires 0 <= l < |levels| => FileSet(levels[l]))
  }

  lemma BySmallestDistinct(files: seq<File>)
    requires BySmallest(files)
    ensures NoDuplicates(files)
  {}

  /** What the invariant says of the file lists. */
  lemma ListsFromInv(s: State, levels: seq<seq<File>>)
    requires Inv(s) && ListsOk(levels) && s.levels == SetsOf(levels)
    ensures forall l :: 0 <= l < NUM_LEVELS ==> (forall f :: f in levels[l] ==> Sorted(f.entries)) && NoDuplicates(levels[l])
    ensures forall l :: 1 <= l < NUM_LEVELS ==> LevelList(levels[l]) && SeqnosInRange(levels[l])
  {
    forall l | 0 <= l < NUM_LEVELS ensures (forall f :: f in levels[l] ==> Sorted(f.entries)) && NoDuplicates(levels[l]) {
      BySmallestDistinct(levels[l]);
      assert forall f :: f in levels[l] ==> f in s.levels[l];
    }
    forall l | 1 <= l < NUM_LEVELS ensures LevelList(levels[l]) && SeqnosInRange(levels[l]) {
      assert LevelDisjoint(s.levels[l]);
      SortedDisjointIsLevelList(levels[l]);
      ListSeqnos(s, l, levels[l]);
    }
  }

  lemma ListSeqnos(s: State, l: nat, files: seq<File>)
    requires Inv(s) && l < NUM_LEVELS && s.levels[l] == FileSet(files)
    ensures SeqnosInRange(files)
  {
    forall i | 0 <= i < |files| ensures files[i].Largest().seqno <= MAX_SEQUENCE {
      var f := files[i];
      var e := f.entries[|f.entries| - 1];
      ContentsMember(s.levels[l], f, e);
      PlaceSeqnoBound(s, l + 2, e);
    }
  }

  // ----- Memtable insertion -----

  function InsertAt(mem: seq<Entry>, i: nat, e: Entry): (r: seq<Entry>)
    requires i <= |mem|
    ensures |r| == |mem| + 1
    ensures forall j :: 0 <= j < |r| ==> r[j] == if j < i then mem[j] else if j == i then e else mem[j - 1]
  {
    mem[..i] + [e] + mem[i..]
  }

  lemma InsertAtSorted(mem: seq<Entry>, i: nat, e: Entry)
    requires Sorted(mem) && i <= |mem|
    requires forall j :: 0 <= j < i ==> Less(mem[j].key, e.key)
    requires forall j :: i <= j < |mem| ==> Less(e.key, mem[j].key)
    ensures Sorted(InsertAt(mem, i, e))
  {}

  lemma InsertAtMembers(mem: seq<Entry>, i: nat, e: Entry)
    requires i <= |mem|
    ensures EntrySet(InsertAt(mem, i, e)) == EntrySet(mem) + {e}
  {
    var r := InsertAt(mem, i, e);
    assert mem == mem[..i] + mem[i..];
    assert forall x :: x in r <==> x in mem || x == e;
  }

  /** MemTable::Add; the skip list never holds the key already. */
  method AddToMemTable(mem: seq<Entry>, e: Entry) returns (r: seq<Entry>)
    requires Sorted(mem) && forall x :: x in mem ==> x.key.seqno < e.key.seqno
    ensures Sorted(r) && EntrySet(r) == EntrySet(mem) + {e}
  {
    var i := LowerBound(mem, e.key);
    forall j | i <= j < |mem| ensures Less(e.key, mem[j].key) {
      assert mem[j] in mem;
    }
    InsertAtSorted(mem, i, e);
    InsertAtMembers(mem, i, e);
    r := InsertAt(mem, i, e);
  }

  /** WriteBatchInternal::InsertInto: the operations in order, with consecutive sequence numbers. */
  method InsertInto(mem: seq<Entry>, ops: seq<Op>, lastSeq: nat) returns (r: seq<Entry>)
    requires Sorted(mem) && forall x :: x in mem ==> x.key.seqno <= lastSeq
    ensures Sorted(r) && EntrySet(r) == EntrySet(mem) + EntrySet(Stamp(ops, lastSeq + 1))
  {
    r := mem;
    ghost var stamped := Stamp(ops, lastSeq + 1);
    for i := 0 to |ops|
      invariant Sorted(r) && EntrySet(r) == EntrySet(mem) + EntrySet(stamped[..i])
      invariant forall x :: x in r ==> x.key.seqno <= lastSeq + i
    {
      var e := Entry(InternalKey(ops[i].user, lastSeq + 1 + i, ops[i].kind), ops[i].value);
      ghost var before := r;
      r := AddToMemTable(r, e);
      assert stamped[..i + 1] == stamped[..i] + [stamped[i]];
      assert EntrySet(stamped[..i + 1]) == EntrySet(stamped[..i]) + {e};
      forall x | x in r ensures x.key.seqno <= lastSeq + i + 1 {
        assert x in EntrySet(r);
        assert x in EntrySet(before) || x == e;
      }
    }
    assert stamped[..|ops|] == stamped;
  }

  class Db {
    var mem: seq<Entry>
    var imm: Option<seq<Entry>>
    var levels: seq<seq<File>>
    var lastSeq: nat
    var snapshots: seq<nat>
    var nextFile: nat

    function State(): State
      reads this
    {
      LsmState.State(mem, imm, SetsOf(levels), lastSeq, snapshots, nextFile)
    }

    ghost predicate Valid()
      reads this
    {
      ListsOk(levels) && Inv(State()) && NumbersUnique(SetsOf(levels))
    }

    constructor ()
      ensures Valid() && State() == Init()
    {
      mem, imm, levels, lastSeq, snapshots, nextFile := [], None, seq(NUM_LEVELS, i => []), 0, [], 2;
      new;
      assert FileSet([]) == {};
      assert SetsOf(levels) == Init().levels;
      InitOk();
    }

    /** DBImpl::Write for one batch. */
    method Write(ops: seq<Op>)
      requires Valid() && lastSeq + |ops| < MAX_SEQUENCE
      modifies this`mem, this`lastSeq
      ensures Valid() && Next(old(State()), Step.Write(ops), State())
    {
      ghost var s := State();
      forall x | x in mem ensures x.key.seqno <= lastSeq {
        PlaceSeqnoBound(s, 0, x);
      }
      mem := InsertInto(mem, ops, lastSeq);
      lastSeq := lastSeq + |ops|;
      WriteKeepsInv(s, State(), ops);
    }

    /** MakeRoomForWrite's switch to a new memtable; `logNumber` files were numbered meanwhile. */
    method Rotate() returns (done: bool)
      requires Valid()
      modifies this`mem, this`imm, this`nextFile
      ensures Valid() && (done <==> old(imm).None?)
      ensures if done then Next(old(State()), Step.Rotate, State()) else State() == old(State())
    {
      ghost var s := State();
      if imm.Some? {
        return false;
      }
      var newLogNumber := nextFile;
      nextFile := newLogNumber + 1;
      imm, mem := Some(mem), [];
      RotateKeepsInv(s, State());
      done := true;
    }

    method GetSnapshot() returns (n: nat)
      requires Valid()
      modifies this`snapshots
      ensures Valid() && Next(old(State()), Step.TakeSnapshot, State()) && n == lastSeq
    {
      ghost var s := State();
      n := lastSeq;
      snapshots := snapshots + [lastSeq];
      SnapshotKeepsInv(s, State());
    }

    method ReleaseSnapshot(i: nat)
      requires Valid() && i < |snapshots|
      modifies this`snapshots
      ensures Valid() && Next(old(State()), Step.ReleaseSnapshot(i), State())
    {
      ghost var s := State();
      snapshots := snapshots[..i] + snapshots[i + 1..];
      ReleaseKeepsInv(s, State(), i);
    }

    /** DBImpl::Get at the last sequence number, or at a snapshot. */
    method Get(u: UserKey, snapshot: Option<nat>) returns (value: Option<Bytes>)
      requires Valid() && (snapshot.Some? ==> snapshot.value in snapshots)
      ensures var n := if snapshot.Some? then snapshot.value else lastSeq;
        && value == View(All(State()), u, n)
        && forall history :: Faithful(State(), history) ==> value == View(history, u, n)
    {
      var n := if snapshot.Some? then snapshot.value else lastSeq;
      ghost var s := State();
      ListsFromInv(s, levels);
      var r := RunGet(mem, u, n);
      ghost var at := 0;
      if r.None? && imm.Some? {
        r := RunGet(imm.value, u, n);
        at := 1;
      }
      if r.None? {
        assert NoMatchInPlaces(s, 0, 2, u, n);
        r, at := VersionGet(s, levels, u, n);
      }
      if r.Some? {
        FirstHitIsNewest(s, at, u, n, r.value);
      } else {
        NoHitMeansNothing(s, u, n);
      }
      NewestUnique(All(s), u, n, r);
      value := Visible(r);
      SnapshotCovered(s, n, snapshot);
    }

    /** VersionSet::LogAndApply: installs the version the edit leads to. */
    method LogAndApply(edit: Edit)
      requires ListsOk(levels) && DistinctAdditions(edit)
      requires forall a :: a in edit.added ==> a.0 < NUM_LEVELS
      requires forall l :: 0 <= l < NUM_LEVELS ==> Numbers(AddedAt(edit, l)) !! Numbers(FileSet(levels[l]))
      modifies this`levels
      ensures ListsOk(levels)
      ensures forall l :: 0 <= l < NUM_LEVELS ==> FileSet(levels[l]) == ApplyEdit(old(FileSet(levels[l])), edit, l)
    {
      var base := levels;
      var builder := new Builder(base);
      forall l | 0 <= l < NUM_LEVELS ensures Numbers(AddedAt(edit, l)) !! Numbers(FileSet(builder.added[l])) {
        assert FileSet(builder.added[l]) == builder.At(l).added == {};
      }
      builder.Apply(edit);
      var v := base;
      for l := 0 to NUM_LEVELS
        invariant builder.Ok() && builder.base == base && |v| == NUM_LEVELS
        invariant forall k :: 0 <= k < NUM_LEVELS ==> builder.At(k) == Absorb(LevelState({}, {}), edit, k)
        invariant forall k :: 0 <= k < l ==> BySmallest(v[k]) && FileSet(v[k]) == ApplyEdit(FileSet(base[k]), edit, k)
      {
        assert FileSet(builder.added[l]) == builder.At(l).added == AddedAt(edit, l);
        var files := builder.SaveTo(l);
        OneEdit(FileSet(base[l]), edit, l);
        v := v[l := files];
      }
      levels := v;
    }

    /** WriteLevel0Table: the immutable memtable as a table, and the level it goes to. */
    method WriteLevel0Table(number: nat, fileSize: nat, maxOverlap: nat) returns (level: nat, f: File)
      requires Valid() && imm.Some? && imm.value != []
      ensures f.entries == imm.value && f.number == number
      ensures LevelAllowed(State(), level, f.Smallest().user, f.Largest().user)
    {
      ListsFromInv(State(), levels);
      f := TableFile.File(number, fileSize, imm.value);
      level := PickLevelForMemTableOutput(levels, f.Smallest().user, f.Largest().user, maxOverlap);
      PickedLevelAllowed(State(), levels, level, f.Smallest().user, f.Largest().user);
    }

    /** CompactMemTable: writes the immutable memtable to a table and installs it; an empty one
        leaves no table. */
    method CompactMemTable(fileSize: nat, maxOverlap: nat) returns (ghost step: Step)
      requires Valid() && imm.Some?
      modifies this`levels, this`imm, this`nextFile
      ensures Valid() && step.Flush? && Next(old(State()), step, State())
    {
      ghost var s := State();
      var number := nextFile;
      if imm.value == [] {
        step := Step.Flush(0, File(number, 0, [Entry(InternalKey(0.0, 0, Put), [])]));
      } else {
        var level, f := WriteLevel0Table(number, fileSize, maxOverlap);
        step := Step.Flush(level, f);
        InstallFile(level, f);
      }
      nextFile := nextFile + 1;
      imm := None;
      FlushKeepsInv(s, State(), step.level, step.file);
    }

    /** The edit of CompactMemTable: one new file. */
    method InstallFile(level: nat, f: File)
      requires Valid() && level < NUM_LEVELS && nextFile <= f.number
      modifies this`levels
      ensures ListsOk(levels) && NumbersUnique(SetsOf(levels))
      ensures SetsOf(levels) == old(SetsOf(levels))[level := old(SetsOf(levels))[level] + {f}]
    {
      ghost var s := State();
      AddOneFile(s, Edit({}, [(level, f)]), level, f);
      LogAndApply(Edit({}, [(level, f)]));
      assert SetsOf(levels) == s.levels[level := s.levels[level] + {f}];
      NumbersStayUnique(s, State(), level, f);
    }

    /** The compaction itself: merge the inputs, drop what no reader needs, number the outputs. */
    method RunCompaction(level: nat, in0: seq<File>, in1: seq<File>, lo: UserKey, hi: UserKey) returns (outputs: seq<File>)
      requires Valid() && level + 1 < NUM_LEVELS && NoDuplicates(in0) && NoDuplicates(in1)
      requires (level > 0 ==> LevelList(in0)) && LevelList(in1)
      requires Selection(State(), level, FileSet(in0), FileSet(in1), lo, hi)
      ensures HoldSurvivors(State(), level, Contents(FileSet(in0)) + Contents(FileSet(in1)), FileSet(outputs))
      ensures LevelList(outputs) && forall i :: 0 <= i < |outputs| ==> outputs[i].number == nextFile + i
    {
      ghost var s := State();
      ListsFromInv(s, levels);
      var runs := LevelRuns(level, in0) + LevelRuns(level + 1, in1);
      InputsMergeable(s, level, in0, in1);
      var merged := MergeAll(runs);
      var smallest := if snapshots == [] then lastSeq else snapshots[0];
      InputsUnique(s, level, FileSet(in0), FileSet(in1));
      var chunks := DoCompactionWork(s, level, levels, merged, smallest);
      outputs := NumberFiles(chunks, nextFile);
      KeptSorted(s, level, merged, smallest, |merged|);
      KeptMembers(s, level, merged, smallest, |merged|);
      ChunksFormLevel(outputs, chunks);
      assert merged[..|merged|] == merged;
    }

    /** SetupOtherInputs on the current version; what is read as one run is in order. */
    method SelectInputs(level: nat, picked: seq<File>, expandLimit: nat)
        returns (in0: seq<File>, in1: seq<File>, lo: UserKey, hi: UserKey)
      requires Valid() && level + 1 < NUM_LEVELS && picked != [] && NoDuplicates(picked) && (level > 0 ==> LevelList(picked))
      requires PickedRun(level == 0, FileSet(levels[level]), FileSet(picked))
      ensures NoDuplicates(in0) && NoDuplicates(in1) && in0 != []
      ensures (level > 0 ==> LevelList(in0)) && LevelList(in1)
      ensures FileSet(picked) <= FileSet(in0)
      ensures Selection(State(), level, FileSet(in0), FileSet(in1), lo, hi)
    {
      ListsFromInv(State(), levels);
      LevelsAreOk(State(), levels, level);
      in0, in1, lo, hi := SetupOtherInputs(level == 0, levels[level], levels[level + 1], picked, expandLimit);
      SetupIsSelection(State(), level, levels[level], levels[level + 1], in0, in1, lo, hi);
      assert picked[0] in FileSet(picked);
    }

    /** BackgroundCompaction after the inputs were picked: a trivial move or a real compaction. */
    method CompactPicked(level: nat, picked: seq<File>, manual: bool, expandLimit: nat, maxOverlap: nat)
        returns (ghost step: Step)
      requires Valid() && level + 1 < NUM_LEVELS && picked != [] && NoDuplicates(picked) && (level > 0 ==> LevelList(picked))
      requires PickedRun(level == 0, FileSet(levels[level]), FileSet(picked))
      modifies this`levels, this`nextFile
      ensures Valid() && (step.TrivialMove? || step.Compact?) && Next(old(State()), step, State())
      ensures step.TrivialMove? ==> !manual && MoveOverlap(old(levels), level, step.file) <= maxOverlap
      ensures step.Compact? && !manual && step.in1 == {} ==> forall f :: step.in0 == {f} ==> MoveOverlap(old(levels), level, f) > maxOverlap
    {
      ghost var s, was := State(), levels;
      var in0, in1, lo, hi := SelectInputs(level, picked, expandLimit);
      var move := IsTrivialMove(level, in0, in1, maxOverlap);
      if !manual && move {
        var f := in0[0];
        step := Step.TrivialMove(level, f);
        OnlyFile(s, level, in0, in1, f, lo, hi);
        MoveFile(level, f);
      } else {
        step := CompactInputs(level, in0, in1, lo, hi);
        if !manual {
          NotMoved(was, level, in0, in1, maxOverlap);
        }
      }
    }

    /** DoCompactionWork and InstallCompactionResults. */
    method CompactInputs(level: nat, in0: seq<File>, in1: seq<File>, lo: UserKey, hi: UserKey) returns (ghost step: Step)
      requires Valid() && level + 1 < NUM_LEVELS && NoDuplicates(in0) && NoDuplicates(in1)
      requires (level > 0 ==> LevelList(in0)) && LevelList(in1)
      requires Selection(State(), level, FileSet(in0), FileSet(in1), lo, hi)
      modifies this`levels, this`nextFile
      ensures Valid() && step.Compact? && Next(old(State()), step, State())
      ensures step.level == level && step.in0 == FileSet(in0) && step.in1 == FileSet(in1)
    {
      ghost var s := State();
      var outputs := RunCompaction(level, in0, in1, lo, hi);
      step := Step.Compact(level, FileSet(in0), FileSet(in1), FileSet(outputs), lo, hi);
      InstallCompactionResults(level, in0, in1, outputs);
      CompactionInstalled(s, State(), level, in0, in1, outputs, lo, hi);
    }

    /** The version edit of a move or compaction, applied. */
    method ApplyReplacement(level: nat, in0: seq<File>, in1: seq<File>, outputs: seq<File>)
      requires ListsOk(levels) && NumbersUnique(SetsOf(levels)) && level + 1 < NUM_LEVELS
      requires FileSet(in0) <= FileSet(levels[level]) && FileSet(in1) <= FileSet(levels[level + 1])
      requires Applicable(State(), CompactionEdit(level, in0, in1, outputs))
      modifies this`levels
      ensures ListsOk(levels)
      ensures SetsOf(levels) == ReplacedLevels(old(State()), level, FileSet(in0), FileSet(in1), FileSet(outputs))
    {
      EditEffect(State(), level, in0, in1, outputs);
      LogAndApply(CompactionEdit(level, in0, in1, outputs));
    }

    /** Moving one file down a level: delete it here, add it there. */
    method MoveFile(level: nat, f: File)
      requires Valid() && level + 1 < NUM_LEVELS
      requires Selection(State(), level, {f}, {}, f.Smallest().user, f.Largest().user)
      modifies this`levels
      ensures Valid() && TrivialMoveStep(old(State()), State(), level, f)
    {
      ghost var s := State();
      assert FileSet([f]) == {f} && FileSet([]) == {};
      MoveEditApplicable(s, level, f);
      ApplyReplacement(level, [f], [], [f]);
      assert s.levels[level + 1] - {} + {f} == s.levels[level + 1] + {f};
      TrivialMoveKeepsInv(s, State(), level, f);
      MoveKeepsNumbers(s, State(), level, f);
    }

    /** IsTrivialMove: one file, nothing below it, and not too much two levels down. */
    method IsTrivialMove(level: nat, in0: seq<File>, in1: seq<File>, maxOverlap: nat) returns (move: bool)
      requires Valid() && level + 1 < NUM_LEVELS && in0 != []
      ensures move <==> |in0| == 1 && in1 == [] && MoveOverlap(levels, level, in0[0]) <= maxOverlap
    {
      var overlap := GrandparentOverlap(level, in0 + in1);
      move := |in0| == 1 && |in1| == 0 && overlap <= maxOverlap;
      if |in0| == 1 && |in1| == 0 {
        assert in0 + in1 == [in0[0]];
        assert RangeOf(in0 + in1, in0[0].Smallest(), in0[0].Largest()) by {
          OneFileRange(in0[0]);
        }
      }
    }

    /** The size of the files two levels down that meet the user-key range of the inputs. */
    method GrandparentOverlap(level: nat, inputs: seq<File>) returns (total: nat)
      requires Valid() && level + 1 < NUM_LEVELS && inputs != []
      ensures forall start, limit :: RangeOf(inputs, start, limit) ==> total == OverlapBelow(levels, level, start.user, limit.user)
    {
      ListsFromInv(State(), levels);
      total := 0;
      if level + 2 < NUM_LEVELS {
        var start, limit := GetRange(inputs);
        var grandparents, gLo, gHi := GetOverlappingInputs(false, levels[level + 2], Some(start.user), Some(limit.user));
        total := TotalFileSize(grandparents);
        forall a, b | RangeOf(inputs, a, b) ensures a.user == start.user && b.user == limit.user {
          OneRange(inputs, start, limit, a, b);
        }
      }
    }

    /** InstallCompactionResults: delete the inputs, add the outputs one level down. */
    method InstallCompactionResults(level: nat, in0: seq<File>, in1: seq<File>, outputs: seq<File>)
      requires ListsOk(levels) && NumbersUnique(SetsOf(levels)) && FilesOkNumbers(State()) && level + 1 < NUM_LEVELS
      requires FileSet(in0) <= FileSet(levels[level]) && FileSet(in1) <= FileSet(levels[level + 1])
      requires forall i :: 0 <= i < |outputs| ==> outputs[i].number == nextFile + i
      modifies this`levels, this`nextFile
      ensures ListsOk(levels)
      ensures State() == Installed(old(State()), level, in0, in1, outputs)
    {
      CompactionEditApplicable(State(), level, in0, in1, outputs);
      ApplyReplacement(level, in0, in1, outputs);
      nextFile := nextFile + |outputs|;
    }

    /** BackgroundCompaction: pick inputs for an oversized level, an over-seeked file or a manual
        range, then compact them. The choice of level, pointer and limits is left open. */
    method BackgroundCompaction(level: nat, manual: Option<(Option<UserKey>, Option<UserKey>)>, pointer: Option<InternalKey>,
                                seek: Option<File>, sizeLimit: nat, expandLimit: nat, maxOverlap: nat)
        returns (worked: bool, ghost step: Step)
      requires Valid() && level + 1 < NUM_LEVELS && (seek.Some? ==> seek.value in levels[level])
      modifies this`levels, this`nextFile
      ensures Valid()
      ensures if worked then (step.TrivialMove? || step.Compact?) && Next(old(State()), step, State()) else State() == old(State())
      ensures manual.None? ==> (worked <==> old(levels[level]) != [])
      ensures manual.Some? ==>
        (worked <==> exists f :: f in old(levels[level]) && Meets(f, manual.value.0, manual.value.1))
    {
      ListsFromInv(State(), levels);
      LevelsAreOk(State(), levels, level);
      var picked := [];
      if manual.Some? {
        picked := PickRange(level == 0, levels[level], manual.value.0, manual.value.1, sizeLimit);
      } else if levels[level] != [] {
        picked := PickInputs(level == 0, levels[level], pointer, seek);
      }
      worked := picked != [];
      step := Step.Rotate;
      if worked {
        step := CompactPicked(level, picked, manual.Some?, expandLimit, maxOverlap);
      }
    }

    /** NewConcatenatingIterator: one cursor over all the files of a level below level 0. */
    method NewConcatenatingIterator(level: nat) returns (it: TwoLevelIterator)
      requires Valid() && 0 < level < NUM_LEVELS
      ensures fresh(it) && fresh(it.indexIter) && it.Ok() && it.At() == None
      ensures LevelRuns(level, levels[level]) == if levels[level] == [] then [] else [it.List()]
      ensures EntrySet(it.List()) == Place(State(), level + 2)
    {
      ListsFromInv(State(), levels);
      HandlesOfLevel(levels, level);
      it := new TwoLevelIterator(levels[level]);
      JoinedContents(levels[level]);
    }

    /** DBImpl::NewIterator: a DBIter over everything the store holds, at the last sequence
        number or a snapshot. */
    method NewIterator(snapshot: Option<nat>) returns (it: DbIter.DBIter)
      requires Valid() && (snapshot.Some? ==> snapshot.value in snapshots)
      ensures fresh(it) && fresh(it.iter) && fresh(it.iter.merging) && it.Ok() && it.At() == None
      ensures EntrySet(it.iter.list) == All(State())
      ensures it.sequence == if snapshot.Some? then snapshot.value else lastSeq
      ensures forall history, u :: Faithful(State(), history) ==>
        View(EntrySet(it.iter.list), u, it.sequence) == View(history, u, it.sequence)
    {
      ghost var s := State();
      var sequence := if snapshot.Some? then snapshot.value else lastSeq;
      SnapshotCovered(s, sequence, snapshot);
      var runs := [mem] + (if imm.Some? then [imm.value] else []);
      ListsFromInv(s, levels);
      for l := 0 to NUM_LEVELS
        invariant runs == StoreRuns(s, levels, l + 2)
      {
        runs := runs + LevelRuns(l, levels[l]);
      }
      StoreRunsMergeable(s, levels, PLACES);
      it := new DbIter.DBIter(runs, sequence);
    }
  }

  function TableRuns(files: seq<File>): (r: seq<seq<Entry>>)
    ensures |r| == |files| && forall i :: 0 <= i < |files| ==> r[i] == files[i].entries
  {
    seq(|files|, i requires 0 <= i < |files| => files[i].entries)
  }

  /** What a merge reads of a level (AddIterators, MakeInputIterator): each file of level 0, and the files of a
      deeper level end to end. */
  function LevelRuns(level: nat, files: seq<File>): seq<seq<Entry>> {
    if level == 0 then TableRuns(files) else if files == [] then [] else [Joined(files)]
  }

  lemma HandlesOfLevel(levels: seq<seq<File>>, level: nat)
    requires |levels| == NUM_LEVELS && level < NUM_LEVELS && BySmallest(levels[level]) && NumbersUnique(SetsOf(levels))
    ensures HandlesDiffer(levels[level])
  {
    var files := levels[level];
    forall i, j | 0 <= i < j < |files| ensures files[i].number != files[j].number {
      BySmallestDistinct(files);
      assert files[i] in SetsOf(levels)[level] && files[j] in SetsOf(levels)[level];
    }
  }

  /** The size of the files two levels down that meet a user-key range. */
  function OverlapBelow(levels: seq<seq<File>>, level: nat, lo: UserKey, hi: UserKey): nat {
    if level + 2 < |levels| then TotalFileSize(MeetingFiles(levels[level + 2], Some(lo), Some(hi))) else 0
  }

  function MoveOverlap(levels: seq<seq<File>>, level: nat, f: File): nat {
    OverlapBelow(levels, level, f.Smallest().user, f.Largest().user)
  }

  lemma OneFileRange(f: File)
    ensures RangeOf([f], f.Smallest(), f.Largest())
  {
    assert [f][0] == f;
    assert forall g :: g in [f] ==> g == f;
    KeyNotBeforeItself(f.Smallest());
    KeyNotBeforeItself(f.Largest());
  }

  lemma KeyNotBeforeItself(k: InternalKey)
    ensures !Less(k, k)
  {}

  lemma NoFiles(files: seq<File>)
    requires FileSet(files) == {}
    ensures files == []
  {
    ListedFiles(files);
  }

  lemma ListedFiles(files: seq<File>)
    ensures forall i {:trigger files[i]} :: 0 <= i < |files| ==> files[i] in FileSet(files)
    ensures FileSet(files) == {} <==> files == []
  {
    if files != [] {
      assert files[0] in FileSet(files);
    }
  }

  lemma TwoFiles(files: seq<File>)
    requires NoDuplicates(files) && |files| > 1
    ensures exists g, h :: g in FileSet(files) && h in FileSet(files) && g != h
  {
    assert files[0] in FileSet(files) && files[1] in FileSet(files) && files[0] != files[1];
  }

  lemma OneFile(files: seq<File>, f: File)
    requires FileSet(files) == {f} && NoDuplicates(files)
    ensures files == [f]
  {
    if |files| > 1 {
      TwoFiles(files);
    }
    ListedFiles(files);
  }

  /** Why a single input without lower ones was not just moved. */
  lemma NotMoved(levels: seq<seq<File>>, level: nat, in0: seq<File>, in1: seq<File>, maxOverlap: nat)
    requires in0 != [] && NoDuplicates(in0)
    requires !(|in0| == 1 && in1 == [] && MoveOverlap(levels, level, in0[0]) <= maxOverlap)
    ensures FileSet(in1) == {} ==> forall f :: FileSet(in0) == {f} ==> MoveOverlap(levels, level, f) > maxOverlap
  {
    if FileSet(in1) == {} {
      NoFiles(in1);
      forall f | FileSet(in0) == {f} ensures MoveOverlap(levels, level, f) > maxOverlap {
        OneFile(in0, f);
      }
    }
  }

  lemma OneRange(files: seq<File>, a: InternalKey, b: InternalKey, a2: InternalKey, b2: InternalKey)
    requires RangeOf(files, a, b) && RangeOf(files, a2, b2)
    ensures a.user == a2.user && b.user == b2.user
  {}

  function NewFile(number: nat, size: nat, entries: seq<Entry>): (f: File)
    requires entries != []
    ensures f.number == number && f.entries == entries
  {
    TableFile.File(number, size, entries)
  }

  /** The table files for the outputs, numbered consecutively; their sizes are left open. */
  method NumberFiles(chunks: seq<seq<Entry>>, first: nat) returns (files: seq<File>)
    requires AllNonEmpty(chunks)
    ensures Holds(files, chunks) && forall i :: 0 <= i < |files| ==> files[i].number == first + i
  {
    files := [];
    for i := 0 to |chunks|
      invariant Holds(files, chunks[..i]) && forall j :: 0 <= j < i ==> files[j].number == first + j
    {
      var size: nat := *;
      files := files + [NewFile(first + i, size, chunks[i])];
    }
    assert chunks[..|chunks|] == chunks;
  }

  // ----- The runs a merge reads -----

  ghost predicate DisjointKeys(a: set<Entry>, b: set<Entry>) {
    forall e, f :: e in a && f in b ==> e.key != f.key
  }

  lemma RunInUnion(runs: seq<seq<Entry>>, i: nat, e: Entry)
    requires i < |runs| && e in runs[i]
    ensures e in Union(runs)
  {}

  lemma MergeableConcat(a: seq<seq<Entry>>, b: seq<seq<Entry>>)
    requires Mergeable(a) && Mergeable(b) && DisjointKeys(Union(a), Union(b))
    ensures Mergeable(a + b) && Union(a + b) == Union(a) + Union(b)
  {
    var ab := a + b;
    forall i, j | 0 <= i < |ab| && 0 <= j < |ab| && i != j ensures NoSharedKey(ab[i], ab[j]) {
      if i < |a| && j < |a| {
        assert NoSharedKey(a[i], a[j]);
      } else if i >= |a| && j >= |a| {
        assert NoSharedKey(b[i - |a|], b[j - |a|]);
      } else {
        CrossRuns(a, b, if i < |a| then i else j, if i < |a| then j - |a| else i - |a|);
      }
    }
    UnionConcat(a, b);
  }

  lemma CrossRuns(a: seq<seq<Entry>>, b: seq<seq<Entry>>, i: nat, j: nat)
    requires i < |a| && j < |b| && DisjointKeys(Union(a), Union(b))
    ensures NoSharedKey(a[i], b[j]) && NoSharedKey(b[j], a[i])
  {
    forall p, q | 0 <= p < |a[i]| && 0 <= q < |b[j]| ensures a[i][p].key != b[j][q].key {
      RunInUnion(a, i, a[i][p]);
      RunInUnion(b, j, b[j][q]);
    }
  }

  lemma UnionConcat(a: seq<seq<Entry>>, b: seq<seq<Entry>>)
    ensures Union(a + b) == Union(a) + Union(b)
  {
    var ab := a + b;
    forall e | e in Union(ab) ensures e in Union(a) + Union(b) {
      var i :| 0 <= i < |ab| && e in ab[i];
      if i < |a| { RunInUnion(a, i, e); } else { RunInUnion(b, i - |a|, e); }
    }
    forall e | e in Union(a) + Union(b) ensures e in Union(ab) {
      if e in Union(a) {
        var i :| 0 <= i < |a| && e in a[i];
        RunInUnion(ab, i, e);
      } else {
        var i :| 0 <= i < |b| && e in b[i];
        assert ab[|a| + i] == b[i];
        RunInUnion(ab, |a| + i, e);
      }
    }
  }

  lemma TableRunsUnion(files: seq<File>)
    ensures Union(TableRuns(files)) == Contents(FileSet(files))
  {
    var runs := TableRuns(files);
    forall e | e in Union(runs) ensures e in Contents(FileSet(files)) {
      var i :| 0 <= i < |runs| && e in runs[i];
      ContentsMember(FileSet(files), files[i], e);
    }
    forall e | e in Contents(FileSet(files)) ensures e in Union(runs) {
      var f :| f in FileSet(files) && e in f.entries;
      var i :| 0 <= i < |files| && files[i] == f;
      RunInUnion(runs, i, e);
    }
  }

  lemma FilesShareNoKey(s: State, level: nat, f: File, g: File)
    requires Inv(s) && level < NUM_LEVELS && f in s.levels[level] && g in s.levels[level] && f != g
    ensures NoSharedKey(f.entries, g.entries)
  {
    forall p, q | 0 <= p < |f.entries| && 0 <= q < |g.entries| ensures f.entries[p].key != g.entries[q].key {
      var e, x := f.entries[p], g.entries[q];
      if level == 0 {
        assert f.number != g.number;
        assert Above(EntrySet(f.entries), EntrySet(g.entries)) || Above(EntrySet(g.entries), EntrySet(f.entries));
        assert e in EntrySet(f.entries) && x in EntrySet(g.entries);
      } else {
        assert Apart(f, g);
        EntryUserInFileRange(f, e);
        EntryUserInFileRange(g, x);
      }
    }
  }

  lemma TableRunsMergeable(s: State, level: nat, files: seq<File>)
    requires Inv(s) && level < NUM_LEVELS && FileSet(files) <= s.levels[level] && NoDuplicates(files)
    ensures Mergeable(TableRuns(files))
  {
    var runs := TableRuns(files);
    forall i | 0 <= i < |runs| ensures Sorted(runs[i]) {
      assert files[i] in FileSet(files);
    }
    forall i, j | 0 <= i < |runs| && 0 <= j < |runs| && i != j ensures NoSharedKey(runs[i], runs[j]) {
      assert files[i] in FileSet(files) && files[j] in FileSet(files);
      FilesShareNoKey(s, level, files[i], files[j]);
    }
  }

  lemma LevelRunsMergeable(s: State, level: nat, files: seq<File>)
    requires Inv(s) && level < NUM_LEVELS && FileSet(files) <= s.levels[level] && NoDuplicates(files)
    requires level > 0 ==> LevelList(files)
    ensures Mergeable(LevelRuns(level, files)) && Union(LevelRuns(level, files)) == Contents(FileSet(files))
  {
    if level == 0 {
      TableRunsMergeable(s, level, files);
      TableRunsUnion(files);
    } else {
      JoinedContents(files);
      if files != [] {
        JoinedSorted(files);
        OneRun(Joined(files));
      }
    }
  }

  lemma AboveMeansDisjointKeys(a: set<Entry>, b: set<Entry>)
    requires Above(a, b)
    ensures DisjointKeys(a, b)
  {}

  lemma InputsMergeable(s: State, level: nat, in0: seq<File>, in1: seq<File>)
    requires Inv(s) && level + 1 < NUM_LEVELS && NoDuplicates(in0) && NoDuplicates(in1)
    requires FileSet(in0) <= s.levels[level] && FileSet(in1) <= s.levels[level + 1]
    requires (level > 0 ==> LevelList(in0)) && LevelList(in1)
    ensures Mergeable(LevelRuns(level, in0) + LevelRuns(level + 1, in1))
    ensures Union(LevelRuns(level, in0) + LevelRuns(level + 1, in1)) == Contents(FileSet(in0)) + Contents(FileSet(in1))
  {
    LevelRunsMergeable(s, level, in0);
    LevelRunsMergeable(s, level + 1, in1);
    assert Above(Place(s, level + 2), Place(s, level + 3));
    ContentsSubset(FileSet(in0), s.levels[level]);
    ContentsSubset(FileSet(in1), s.levels[level + 1]);
    AboveMeansDisjointKeys(Contents(FileSet(in0)), Contents(FileSet(in1)));
    MergeableConcat(LevelRuns(level, in0), LevelRuns(level + 1, in1));
  }

  lemma ContentsSubset(a: set<File>, b: set<File>)
    requires a <= b
    ensures Contents(a) <= Contents(b)
  {
    forall e | e in Contents(a) ensures e in Contents(b) {
      var f :| f in a && e in f.entries;
      ContentsMember(b, f, e);
    }
  }

  lemma InputsUnique(s: State, level: nat, in0: set<File>, in1: set<File>)
    requires Inv(s) && level + 1 < NUM_LEVELS && in0 <= s.levels[level] && in1 <= s.levels[level + 1]
    ensures UniqueSeqnos(Contents(in0) + Contents(in1))
  {
    InputsInAll(s, level, in0, in1);
  }

  /** The runs of the first p places, in reading order. */
  function StoreRuns(s: State, levels: seq<seq<File>>, p: nat): seq<seq<Entry>>
    requires |levels| == NUM_LEVELS && 2 <= p <= PLACES
  {
    if p == 2 then [s.mem] + (if s.imm.Some? then [s.imm.value] else [])
    else StoreRuns(s, levels, p - 1) + LevelRuns(p - 3, levels[p - 3])
  }

  ghost predicate HoldsFirstPlaces(s: State, p: nat, entries: set<Entry>)
    requires |s.levels| == NUM_LEVELS && p <= PLACES
  {
    && (forall e :: e in entries ==> exists q :: 0 <= q < p && e in Place(s, q))
    && (forall q :: 0 <= q < p ==> Place(s, q) <= entries)
  }

  lemma MemRunsMergeable(s: State)
    requires Inv(s)
    ensures var runs := [s.mem] + (if s.imm.Some? then [s.imm.value] else []);
      Mergeable(runs) && HoldsFirstPlaces(s, 2, Union(runs))
  {
    assert Above(Place(s, 0), Place(s, 1));
    AboveMeansDisjointKeys(Place(s, 0), Place(s, 1));
    OneRun(s.mem);
    if s.imm.Some? {
      OneRun(s.imm.value);
      MergeableConcat([s.mem], [s.imm.value]);
    } else {
      assert [s.mem] + [] == [s.mem];
    }
  }

  lemma OneRun(run: seq<Entry>)
    requires Sorted(run)
    ensures Mergeable([run]) && Union([run]) == EntrySet(run)
  {
    forall e | e in run ensures e in Union([run]) {
      RunInUnion([run], 0, e);
    }
  }

  lemma StoreRunsMergeable(s: State, levels: seq<seq<File>>, p: nat)
    requires Inv(s) && ListsOk(levels) && s.levels == SetsOf(levels) && 2 <= p <= PLACES
    ensures Mergeable(StoreRuns(s, levels, p)) && HoldsFirstPlaces(s, p, Union(StoreRuns(s, levels, p)))
    ensures p == PLACES ==> Union(StoreRuns(s, levels, p)) == All(s)
  {
    if p == 2 {
      MemRunsMergeable(s);
    } else {
      var above, files := StoreRuns(s, levels, p - 1), levels[p - 3];
      StoreRunsMergeable(s, levels, p - 1);
      ListsFromInv(s, levels);
      LevelRunsMergeable(s, p - 3, files);
      assert Union(LevelRuns(p - 3, files)) == Place(s, p - 1);
      PlaceSharesNoKey(s, p, Union(above));
      MergeableConcat(above, LevelRuns(p - 3, files));
      OneMorePlace(s, p, Union(above));
      if p == PLACES {
        AllPlaces(s, Union(StoreRuns(s, levels, p)));
      }
    }
  }

  lemma PlaceSharesNoKey(s: State, p: nat, entries: set<Entry>)
    requires Inv(s) && 1 <= p <= PLACES && HoldsFirstPlaces(s, p - 1, entries)
    ensures DisjointKeys(entries, Place(s, p - 1))
  {
    forall e, f | e in entries && f in Place(s, p - 1) ensures e.key != f.key {
      var q :| 0 <= q < p - 1 && e in Place(s, q);
      assert Above(Place(s, q), Place(s, p - 1));
    }
  }

  lemma OneMorePlace(s: State, p: nat, entries: set<Entry>)
    requires |s.levels| == NUM_LEVELS && 1 <= p <= PLACES && HoldsFirstPlaces(s, p - 1, entries)
    ensures HoldsFirstPlaces(s, p, entries + Place(s, p - 1))
  {
    var more := entries + Place(s, p - 1);
    forall q | 0 <= q < p ensures Place(s, q) <= more {
      assert q < p - 1 || q == p - 1;
    }
  }

  lemma AllPlaces(s: State, entries: set<Entry>)
    requires |s.levels| == NUM_LEVELS && HoldsFirstPlaces(s, PLACES, entries)
    ensures entries == All(s)
  {
    forall e | e in entries ensures e in All(s) {
      var q :| 0 <= q < PLACES && e in Place(s, q);
      InAll(s, q, e);
    }
  }

  // ----- Edits of moves and compactions -----

  function CompactionEdit(level: nat, in0: seq<File>, in1: seq<File>, outputs: seq<File>): Edit {
    Edit((set f | f in in0 :: (level, f.number)) + (set f | f in in1 :: (level + 1, f.number)),
         seq(|outputs|, i requires 0 <= i < |outputs| => (level + 1, outputs[i])))
  }

  function ReplacedLevels(s: State, level: nat, in0: set<File>, in1: set<File>, outs: set<File>): (r: seq<set<File>>)
    requires |s.levels| == NUM_LEVELS && level + 1 < NUM_LEVELS
    ensures |r| == NUM_LEVELS
    ensures forall l :: 0 <= l < NUM_LEVELS ==>
      r[l] == if l == level then s.levels[l] - in0 else if l == level + 1 then s.levels[l] - in1 + outs else s.levels[l]
  {
    s.levels[level := s.levels[level] - in0][level + 1 := s.levels[level + 1] - in1 + outs]
  }

  /** The state after the outputs, numbered from nextFile on, have replaced the inputs. */
  function Installed(s: State, level: nat, in0: seq<File>, in1: seq<File>, outputs: seq<File>): State
    requires |s.levels| == NUM_LEVELS && level + 1 < NUM_LEVELS
  {
    s.(levels := ReplacedLevels(s, level, FileSet(in0), FileSet(in1), FileSet(outputs)), nextFile := s.nextFile + |outputs|)
  }

  lemma DeletedNumbers(level: nat, in0: seq<File>, in1: seq<File>, outputs: seq<File>, l: nat)
    ensures DeletedAt(CompactionEdit(level, in0, in1, outputs), l) ==
      if l == level then Numbers(FileSet(in0)) else if l == level + 1 then Numbers(FileSet(in1)) else {}
  {
    var e := CompactionEdit(level, in0, in1, outputs);
    forall f | f in FileSet(in0) ensures (level, f.number) in e.deleted {}
    forall f | f in FileSet(in1) ensures (level + 1, f.number) in e.deleted {}
    if l == level {
      forall n | n in Numbers(FileSet(in0)) ensures n in DeletedAt(e, l) {
        assert (level, n) in e.deleted;
      }
    } else if l == level + 1 {
      forall n | n in Numbers(FileSet(in1)) ensures n in DeletedAt(e, l) {
        assert (level + 1, n) in e.deleted;
      }
    }
  }

  lemma AddedFiles(level: nat, in0: seq<File>, in1: seq<File>, outputs: seq<File>, l: nat)
    ensures AddedAt(CompactionEdit(level, in0, in1, outputs), l) == if l == level + 1 then FileSet(outputs) else {}
  {
    var e := CompactionEdit(level, in0, in1, outputs);
    if l == level + 1 {
      forall f | f in FileSet(outputs) ensures f in AddedAt(e, l) {
        var i :| 0 <= i < |outputs| && outputs[i] == f;
        assert e.added[i] == (level + 1, f);
        assert (level + 1, f) in e.added;
      }
      forall f | f in AddedAt(e, l) ensures f in FileSet(outputs) {
        var a :| a in e.added && a.0 == l && a.1 == f;
        var i :| 0 <= i < |outputs| && e.added[i] == a;
      }
    } else {
      forall a | a in e.added ensures a.0 == level + 1 {
        var i :| 0 <= i < |outputs| && e.added[i] == a;
      }
    }
  }

  /** Deleting by number deletes exactly the chosen files. */
  lemma DeleteByNumber(levels: seq<set<File>>, l: nat, chosen: set<File>)
    requires NumbersUnique(levels) && l < |levels| && chosen <= levels[l]
    ensures (set f | f in levels[l] && f.number !in Numbers(chosen)) == levels[l] - chosen
  {
    forall f | f in levels[l] ensures f.number in Numbers(chosen) <==> f in chosen {}
  }

  lemma EditEffectAt(s: State, level: nat, in0: seq<File>, in1: seq<File>, outputs: seq<File>, l: nat)
    requires |s.levels| == NUM_LEVELS && NumbersUnique(s.levels) && level + 1 < NUM_LEVELS && l < NUM_LEVELS
    requires l == level ==> FileSet(in0) <= s.levels[l]
    requires l == level + 1 ==> FileSet(in1) <= s.levels[l]
    ensures ApplyEdit(s.levels[l], CompactionEdit(level, in0, in1, outputs), l) ==
      if l == level then s.levels[l] - FileSet(in0)
      else if l == level + 1 then s.levels[l] - FileSet(in1) + FileSet(outputs) else s.levels[l]
  {
    AddedFiles(level, in0, in1, outputs, l);
    DeletedNumbers(level, in0, in1, outputs, l);
    if l == level {
      DeleteByNumber(s.levels, l, FileSet(in0));
    } else if l == level + 1 {
      DeleteByNumber(s.levels, l, FileSet(in1));
    }
  }

  /** LogAndApply turns the compaction's edit into the replacement of its inputs by its outputs. */
  lemma EditEffect(s: State, level: nat, in0: seq<File>, in1: seq<File>, outputs: seq<File>)
    requires |s.levels| == NUM_LEVELS && NumbersUnique(s.levels) && level + 1 < NUM_LEVELS
    requires FileSet(in0) <= s.levels[level] && FileSet(in1) <= s.levels[level + 1]
    ensures forall l :: 0 <= l < NUM_LEVELS ==>
      ApplyEdit(s.levels[l], CompactionEdit(level, in0, in1, outputs), l) == ReplacedLevels(s, level, FileSet(in0), FileSet(in1), FileSet(outputs))[l]
  {
    forall l | 0 <= l < NUM_LEVELS
      ensures ApplyEdit(s.levels[l], CompactionEdit(level, in0, in1, outputs), l) ==
        ReplacedLevels(s, level, FileSet(in0), FileSet(in1), FileSet(outputs))[l]
    {
      EditEffectAt(s, level, in0, in1, outputs, l);
    }
  }

  /** What LogAndApply asks of an edit that adds files with the given numbers to one level. */
  ghost predicate Applicable(s: State, e: Edit)
    requires |s.levels| == NUM_LEVELS
  {
    && DistinctAdditions(e)
    && (forall a :: a in e.added ==> a.0 < NUM_LEVELS)
    && forall l :: 0 <= l < NUM_LEVELS ==> Numbers(AddedAt(e, l)) !! Numbers(s.levels[l])
  }

  lemma CompactionEditApplicable(s: State, level: nat, in0: seq<File>, in1: seq<File>, outputs: seq<File>)
    requires FilesOkNumbers(s) && level + 1 < NUM_LEVELS
    requires forall i :: 0 <= i < |outputs| ==> outputs[i].number == s.nextFile + i
    ensures Applicable(s, CompactionEdit(level, in0, in1, outputs))
  {
    forall l | 0 <= l < NUM_LEVELS
      ensures Numbers(AddedAt(CompactionEdit(level, in0, in1, outputs), l)) !! Numbers(s.levels[l])
    {
      AddedFiles(level, in0, in1, outputs, l);
      forall n | n in Numbers(FileSet(outputs)) ensures n >= s.nextFile {}
    }
  }

  lemma InstallIsReplace(s: State, t: State, level: nat, in0: seq<File>, in1: seq<File>, outputs: seq<File>)
    requires Inv(s) && level + 1 < NUM_LEVELS
    requires FileSet(in0) <= s.levels[level] && FileSet(in1) <= s.levels[level + 1]
    requires HoldSurvivors(s, level, Contents(FileSet(in0)) + Contents(FileSet(in1)), FileSet(outputs))
    requires LevelList(outputs) && forall i :: 0 <= i < |outputs| ==> outputs[i].number == s.nextFile + i
    requires t == Installed(s, level, in0, in1, outputs)
    ensures Replace(s, t, level, FileSet(in0), FileSet(in1), FileSet(outputs))
  {
    LevelListDisjoint(outputs);
    forall f | f in FileSet(outputs) ensures Sorted(f.entries) && f.number < t.nextFile {
      var i :| 0 <= i < |outputs| && outputs[i] == f;
    }
  }

  lemma CompactionInstalled(s: State, t: State, level: nat, in0: seq<File>, in1: seq<File>, outputs: seq<File>, lo: UserKey, hi: UserKey)
    requires Inv(s) && NumbersUnique(s.levels) && level + 1 < NUM_LEVELS
    requires Selection(s, level, FileSet(in0), FileSet(in1), lo, hi)
    requires HoldSurvivors(s, level, Contents(FileSet(in0)) + Contents(FileSet(in1)), FileSet(outputs))
    requires LevelList(outputs) && forall i :: 0 <= i < |outputs| ==> outputs[i].number == s.nextFile + i
    requires t == Installed(s, level, in0, in1, outputs)
    ensures Inv(t) && NumbersUnique(t.levels)
    ensures CompactStep(s, t, level, FileSet(in0), FileSet(in1), FileSet(outputs), lo, hi)
  {
    InstallIsReplace(s, t, level, in0, in1, outputs);
    ReplaceKeepsInv(s, t, level, FileSet(in0), FileSet(in1), FileSet(outputs), lo, hi);
    ReplaceKeepsNumbers(s, t, level, FileSet(in0), FileSet(in1), outputs);
  }

  lemma OnlyFile(s: State, level: nat, in0: seq<File>, in1: seq<File>, f: File, lo: UserKey, hi: UserKey)
    requires |s.levels| == NUM_LEVELS && level + 1 < NUM_LEVELS && in0 == [f] && in1 == []
    requires Selection(s, level, FileSet(in0), FileSet(in1), lo, hi)
    ensures Selection(s, level, {f}, {}, f.Smallest().user, f.Largest().user)
  {
    assert FileSet(in0) == {f} && FileSet(in1) == {};
  }

  lemma ReplaceKeepsNumbers(s: State, t: State, level: nat, in0: set<File>, in1: set<File>, outputs: seq<File>)
    requires FilesOkNumbers(s) && NumbersUnique(s.levels) && level + 1 < NUM_LEVELS
    requires forall i :: 0 <= i < |outputs| ==> outputs[i].number == s.nextFile + i
    requires t.levels == ReplacedLevels(s, level, in0, in1, FileSet(outputs))
    ensures NumbersUnique(t.levels)
  {
    forall l, m, g, h | 0 <= l < NUM_LEVELS && 0 <= m < NUM_LEVELS && g in t.levels[l] && h in t.levels[m] && g.number == h.number
      ensures l == m && g == h
    {
      assert g in s.levels[l] || (l == level + 1 && g in FileSet(outputs));
      assert h in s.levels[m] || (m == level + 1 && h in FileSet(outputs));
    }
  }

  ghost predicate FilesOkNumbers(s: State) {
    |s.levels| == NUM_LEVELS && forall l, f :: 0 <= l < NUM_LEVELS && f in s.levels[l] ==> f.number < s.nextFile
  }

  lemma MoveEditApplicable(s: State, level: nat, f: File)
    requires |s.levels| == NUM_LEVELS && NumbersUnique(s.levels) && level + 1 < NUM_LEVELS && f in s.levels[level]
    ensures Applicable(s, CompactionEdit(level, [f], [], [f]))
  {
    forall l | 0 <= l < NUM_LEVELS
      ensures Numbers(AddedAt(CompactionEdit(level, [f], [], [f]), l)) !! Numbers(s.levels[l])
    {
      AddedFiles(level, [f], [], [f], l);
      if l == level + 1 {
        assert FileSet([f]) == {f} && Numbers({f}) == {f.number};
        forall g | g in s.levels[l] ensures g.number != f.number {}
      }
    }
  }

  lemma MoveKeepsNumbers(s: State, t: State, level: nat, f: File)
    requires NumbersUnique(s.levels) && |s.levels| == NUM_LEVELS && level + 1 < NUM_LEVELS && f in s.levels[level]
    requires t.levels == s.levels[level := s.levels[level] - {f}][level + 1 := s.levels[level + 1] + {f}]
    ensures NumbersUnique(t.levels)
  {
    forall l, m, g, h | 0 <= l < NUM_LEVELS && 0 <= m < NUM_LEVELS && g in t.levels[l] && h in t.levels[m] && g.number == h.number
      ensures l == m && g == h
    {
      assert g in s.levels[l] || (l == level + 1 && g == f);
      assert h in s.levels[m] || (m == level + 1 && h == f);
    }
  }

  lemma LevelsAreOk(s: State, levels: seq<seq<File>>, level: nat)
    requires Inv(s) && ListsOk(levels) && s.levels == SetsOf(levels) && level + 1 < NUM_LEVELS
    ensures LevelOk(level == 0, FileSet(levels[level])) && LevelOk(false, FileSet(levels[level + 1]))
  {
    assert FileSet(levels[level]) == s.levels[level] && FileSet(levels[level + 1]) == s.levels[level + 1];
  }

  /** One edit through an empty builder is one application of the edit. */
  lemma OneEdit(base: set<File>, e: Edit, l: nat)
    requires Numbers(AddedAt(e, l)) !! Numbers(base)
    ensures Result(base, Absorb(LevelState({}, {}), e, l)) == ApplyEdit(base, e, l)
  {
    assert base + {} == base;
    AbsorbOne(base, LevelState({}, {}), e, l);
    assert Result(base, LevelState({}, {})) == base;
  }

  lemma PickedLevelAllowed(s: State, levels: seq<seq<File>>, level: nat, lo: UserKey, hi: UserKey)
    requires |s.levels| == NUM_LEVELS && |levels| == NUM_LEVELS && s.levels == SetsOf(levels)
    requires level <= MAX_MEM_COMPACT_LEVEL
    requires level > 0 ==> forall l :: 0 <= l <= level ==> NoneMeets(levels[l], lo, hi)
    ensures LevelAllowed(s, level, lo, hi)
  {
    forall l, f | level > 0 && 0 <= l <= level && f in s.levels[l] ensures OutsideUserRange(f, lo, hi) {
      assert f in levels[l] && NoneMeets(levels[l], lo, hi);
      assert !Meets(f, Some(lo), Some(hi));
    }
  }

  /** An edit that adds one freshly numbered file. */
  lemma AddOneFile(s: State, edit: Edit, level: nat, f: File)
    requires Inv(s) && edit == Edit({}, [(level, f)]) && level < NUM_LEVELS && s.nextFile <= f.number
    ensures DistinctAdditions(edit)
    ensures forall l :: 0 <= l < NUM_LEVELS ==> Numbers(AddedAt(edit, l)) !! Numbers(s.levels[l])
    ensures forall l :: 0 <= l < NUM_LEVELS ==>
      ApplyEdit(s.levels[l], edit, l) == if l == level then s.levels[l] + {f} else s.levels[l]
  {
    assert edit.added[0] == (level, f);
    forall l | 0 <= l < NUM_LEVELS
      ensures AddedAt(edit, l) == (if l == level then {f} else {}) && DeletedAt(edit, l) == {}
    {
      assert (level, f) in edit.added;
    }
    assert Numbers({f}) == {f.number} && Numbers({}) == {};
  }

  lemma NumbersStayUnique(s: State, t: State, level: nat, f: File)
    requires Inv(s) && NumbersUnique(s.levels) && level < NUM_LEVELS && s.nextFile <= f.number
    requires t.levels == s.levels[level := s.levels[level] + {f}]
    ensures NumbersUnique(t.levels)
  {
    forall l, m, g, h | 0 <= l < NUM_LEVELS && 0 <= m < NUM_LEVELS && g in t.levels[l] && h in t.levels[m] && g.number == h.number
      ensures l == m && g == h
    {
      assert g in s.levels[l] || (l == level && g == f);
      assert h in s.levels[m] || (m == level && h == f);
    }
  }

  lemma SnapshotCovered(s: State, n: nat, snapshot: Option<nat>)
    requires Inv(s) && (snapshot.Some? ==> snapshot.value in s.snapshots)
    requires n == if snapshot.Some? then snapshot.value else s.lastSeq
    ensures SmallestSnapshot(s) <= n
  {}
}
