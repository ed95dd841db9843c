/** A run in which a compaction brings a deleted key back, for any user key, values and file sizes
    (db/version_set.cc SetupOtherInputs, db/db_impl.cc DoCompactionWork). */
module LostDeletions {
  import opened Keys
  import opened LsmState
  import opened FileLists
  import opened Compaction
  import opened CompactionViews
  import opened InputSelection
  import opened Runs

  // ----- What is written: user key u gets the value v, and a smaller one some writes beside it -----

  /** The user key, its value, the value w beside it, and the sizes of the files by number. */
  datatype Scenario = Scenario(u: UserKey, v: Bytes, w: Bytes, size: nat -> nat) {
    function Beside(): UserKey { u - 1.0 }

    function Oldest(): Entry { Entry(InternalKey(Beside(), 1, Put), []) }

    function Low(): Entry { Entry(InternalKey(Beside(), 2, Put), w) }

    function Value(): Entry { Entry(InternalKey(u, 3, Put), v) }

    function Marker(): Entry { Entry(InternalKey(u, 4, Deletion), []) }

    function Again(): Entry { Entry(InternalKey(Beside(), 5, Put), []) }

    /** The file that is there first, the second flush, and the two files a compaction cuts them into: one ends
        with the deletion of u, the other starts with the older value, which a snapshot needs. */
    function Bottom(): File { File(3, size(3), [Oldest()]) }

    function Flushed(): File { File(5, size(5), [Low(), Marker(), Value()]) }

    function Left(): File { File(6, size(6), [Low(), Marker()]) }

    function Right(): File { File(7, size(7), [Value()]) }

    /** The third flush, and what is left of it and the left file. */
    function Upper(): File { File(9, size(9), [Again()]) }

    function Output(): File { File(10, size(10), [Again()]) }
  }

  // ----- The run -----

  function Levels(one: set<File>, two: set<File>): (r: seq<set<File>>)
    ensures |r| == NUM_LEVELS && r[0] == {} && r[1] == one && r[2] == two && forall l :: 3 <= l < NUM_LEVELS ==> r[l] == {}
  {
    [{}, one, two, {}, {}, {}, {}]
  }

  function Steps(c: Scenario): (r: seq<Step>)
    ensures |r| == 14
  {
    [Write([Op(c.Beside(), Put, [])]),
     Rotate,
     Flush(2, c.Bottom()),
     Write([Op(c.Beside(), Put, c.w), Op(c.u, Put, c.v)]),
     TakeSnapshot,
     Write([Op(c.u, Deletion, [])]),
     Rotate,
     Flush(1, c.Flushed()),
     Compact(1, {c.Flushed()}, {c.Bottom()}, {c.Left(), c.Right()}, c.Beside(), c.u),
     Write([Op(c.Beside(), Put, [])]),
     Rotate,
     Flush(1, c.Upper()),
     ReleaseSnapshot(0),
     Compact(1, {c.Upper()}, {c.Left()}, {c.Output()}, c.Beside(), c.Beside())]
  }

  function States(c: Scenario): (r: seq<State>)
    ensures |r| == 15
  {
    var cut := {c.Left(), c.Right()};
    [Init(),
     State([c.Oldest()], None, Levels({}, {}), 1, [], 2),
     State([], Some([c.Oldest()]), Levels({}, {}), 1, [], 3),
     State([], None, Levels({}, {c.Bottom()}), 1, [], 4),
     State([c.Low(), c.Value()], None, Levels({}, {c.Bottom()}), 3, [], 4),
     State([c.Low(), c.Value()], None, Levels({}, {c.Bottom()}), 3, [3], 4),
     State([c.Low(), c.Marker(), c.Value()], None, Levels({}, {c.Bottom()}), 4, [3], 4),
     State([], Some([c.Low(), c.Marker(), c.Value()]), Levels({}, {c.Bottom()}), 4, [3], 5),
     State([], None, Levels({c.Flushed()}, {c.Bottom()}), 4, [3], 6),
     State([], None, Levels({}, cut), 4, [3], 8),
     State([c.Again()], None, Levels({}, cut), 5, [3], 8),
     State([], Some([c.Again()]), Levels({}, cut), 5, [3], 9),
     State([], None, Levels({c.Upper()}, cut), 5, [3], 10),
     Before(c),
     After(c)]
  }

  function Before(c: Scenario): State {
    State([], None, Levels({c.Upper()}, {c.Left(), c.Right()}), 5, [], 10)
  }

  function After(c: Scenario): State {
    State([], None, Levels({}, {c.Output(), c.Right()}), 5, [], 11)
  }

  /** States and steps of the run, one by one. */
  ghost predicate StepHolds(c: Scenario, i: nat)
    requires i < 14
  {
    |States(c)[i].levels| == NUM_LEVELS && Next(States(c)[i], Steps(c)[i], States(c)[i + 1])
  }

  lemma WriteOk(s: State, t: State, ops: seq<Op>, stamped: seq<Entry>)
    requires s.lastSeq + |ops| < MAX_SEQUENCE && stamped == Stamp(ops, s.lastSeq + 1)
    requires Sorted(t.mem) && EntrySet(t.mem) == EntrySet(s.mem) + EntrySet(stamped)
    requires t == s.(mem := t.mem, lastSeq := s.lastSeq + |ops|)
    ensures WriteStep(s, t, ops)
  {}

  lemma FirstWrite(c: Scenario)
    ensures StepHolds(c, 0)
  {
    assert Init().levels == Levels({}, {});
    WriteOk(States(c)[0], States(c)[1], [Op(c.Beside(), Put, [])], [c.Oldest()]);
  }

  lemma ValueWrite(c: Scenario)
    ensures StepHolds(c, 3)
  {
    WriteOk(States(c)[3], States(c)[4], [Op(c.Beside(), Put, c.w), Op(c.u, Put, c.v)], [c.Low(), c.Value()]);
  }

  lemma DeletingWrite(c: Scenario)
    ensures StepHolds(c, 5)
  {
    WriteOk(States(c)[5], States(c)[6], [Op(c.u, Deletion, [])], [c.Marker()]);
  }

  lemma LastWrite(c: Scenario)
    ensures StepHolds(c, 9)
  {
    WriteOk(States(c)[9], States(c)[10], [Op(c.Beside(), Put, [])], [c.Again()]);
  }

  lemma FlushToOne(s: State, t: State, f: File, two: set<File>)
    requires s.levels == Levels({}, two) && s.imm == Some(f.entries) && f.entries != [] && s.nextFile <= f.number < t.nextFile
    requires t == s.(imm := None, levels := Levels({f}, two), nextFile := t.nextFile)
    ensures FlushStep(s, t, 1, f)
  {
    assert {} + {f} == {f};
    assert s.levels[1 := s.levels[1] + {f}] == t.levels;
  }

  lemma FlushToTwo(s: State, t: State, f: File)
    requires s.levels == Levels({}, {}) && s.imm == Some(f.entries) && f.entries != [] && s.nextFile <= f.number < t.nextFile
    requires t == s.(imm := None, levels := Levels({}, {f}), nextFile := t.nextFile)
    ensures FlushStep(s, t, 2, f)
  {
    assert {} + {f} == {f};
    assert s.levels[2 := s.levels[2] + {f}] == t.levels;
  }

  lemma FlushSteps(c: Scenario)
    ensures StepHolds(c, 2) && StepHolds(c, 7) && StepHolds(c, 11)
  {
    FlushToTwo(States(c)[2], States(c)[3], c.Bottom());
    FlushToOne(States(c)[7], States(c)[8], c.Flushed(), {c.Bottom()});
    FlushToOne(States(c)[11], States(c)[12], c.Upper(), {c.Left(), c.Right()});
  }

  lemma Rotations(c: Scenario)
    ensures StepHolds(c, 1) && StepHolds(c, 6) && StepHolds(c, 10)
  {}

  lemma SnapshotSteps(c: Scenario)
    ensures StepHolds(c, 4) && StepHolds(c, 12)
  {}

  lemma ContentsOfOne(f: File)
    ensures Contents({f}) == EntrySet(f.entries)
  {
    forall e | e in EntrySet(f.entries) ensures e in Contents({f}) {
      ContentsMember({f}, f, e);
    }
  }

  lemma ContentsOfTwo(f: File, g: File)
    ensures Contents({f, g}) == EntrySet(f.entries) + EntrySet(g.entries)
  {
    ContentsUnion({f}, {g});
    assert {f} + {g} == {f, g};
    ContentsOfOne(f);
    ContentsOfOne(g);
  }

  lemma ReplaceLevels(s: State, t: State, in0: set<File>, lower: set<File>, in1: set<File>, outs: set<File>, two: set<File>)
    requires s.levels == Levels(in0, lower) && t == s.(levels := Levels({}, two), nextFile := t.nextFile)
    requires lower - in1 + outs == two && s.nextFile <= t.nextFile && LevelDisjoint(outs)
    requires Contents(outs) <= Contents(in0) + Contents(in1)
    requires forall f :: f in outs ==> Sorted(f.entries) && f.number < t.nextFile
    ensures Replace(s, t, 1, in0, in1, outs)
  {
    assert in0 - in0 == {};
    assert s.levels[1 := s.levels[1] - in0][2 := s.levels[2] - in1 + outs] == t.levels;
  }

  lemma CutStep(c: Scenario)
    ensures StepHolds(c, 8)
  {
    CuttingStep(States(c)[8], States(c)[9], c);
  }

  /** The snapshot keeps both versions of u, and the cut falls between them. */
  lemma CuttingStep(s: State, t: State, c: Scenario)
    requires s == State([], None, Levels({c.Flushed()}, {c.Bottom()}), 4, [3], 6)
    requires t == State([], None, Levels({}, {c.Left(), c.Right()}), 4, [3], 8)
    ensures CompactStep(s, t, 1, {c.Flushed()}, {c.Bottom()}, {c.Left(), c.Right()}, c.Beside(), c.u)
  {
    var left, right, bottom := c.Left(), c.Right(), c.Bottom();
    ContentsOfOne(c.Flushed());
    ContentsOfOne(bottom);
    ContentsOfTwo(left, right);
    assert {bottom} - {bottom} + {left, right} == {left, right} && Apart(left, right);
    ReplaceLevels(s, t, {c.Flushed()}, {bottom}, {bottom}, {left, right}, {left, right});
    CutSelects(s, c);
    NewerSurvive(s, c, Contents({c.Flushed()}) + Contents({bottom}), {left, right});
  }

  lemma CutSelects(s: State, c: Scenario)
    requires s.levels == Levels({c.Flushed()}, {c.Bottom()})
    ensures Selection(s, 1, {c.Flushed()}, {c.Bottom()}, c.Beside(), c.u)
  {}

  lemma NewerSurvive(s: State, c: Scenario, inputs: set<Entry>, outs: set<File>)
    requires |s.levels| == NUM_LEVELS && SmallestSnapshot(s) == 3
    requires Contents(outs) == {c.Low(), c.Marker(), c.Value()} && inputs == Contents(outs) + {c.Oldest()}
    ensures HoldSurvivors(s, 1, inputs, outs)
  {
    assert c.Low() in inputs && Hidden(inputs, c.Oldest(), 3);
  }

  /** Without the snapshot the newest versions in the inputs hide or drop all but one entry. */
  lemma LosingStep(c: Scenario)
    ensures CompactStep(Before(c), After(c), 1, {c.Upper()}, {c.Left()}, {c.Output()}, c.Beside(), c.Beside())
  {
    var s, t := Before(c), After(c);
    var left, right, out := c.Left(), c.Right(), c.Output();
    ContentsOfOne(c.Upper());
    ContentsOfOne(left);
    ContentsOfOne(out);
    assert {left, right} - {left} + {out} == {out, right};
    ReplaceLevels(s, t, {c.Upper()}, {left, right}, {left}, {out}, {out, right});
    LossSelects(s, c);
    OneSurvives(s, c, Contents({c.Upper()}) + Contents({left}), {out});
  }

  lemma LossSelects(s: State, c: Scenario)
    requires s.levels == Levels({c.Upper()}, {c.Left(), c.Right()})
    ensures Selection(s, 1, {c.Upper()}, {c.Left()}, c.Beside(), c.Beside())
  {}

  lemma OneSurvives(s: State, c: Scenario, inputs: set<Entry>, outs: set<File>)
    requires s == Before(c) && Contents(outs) == {c.Again()}
    requires inputs == {c.Again(), c.Low(), c.Marker()}
    ensures HoldSurvivors(s, 1, inputs, outs)
  {
    assert Hidden(inputs, c.Low(), 5);
    assert IsBaseLevel(s, 1, c.u);
  }

  lemma LastStep(c: Scenario)
    ensures StepHolds(c, 13)
  {
    LosingStep(c);
  }

  lemma FlushesAndCompactions(c: Scenario, i: nat)
    requires i in {2, 7, 8, 11, 13}
    ensures StepHolds(c, i)
  {
    FlushSteps(c);
    CutStep(c);
    LastStep(c);
  }

  lemma WritesAndOthers(c: Scenario, i: nat)
    requires i in {0, 1, 3, 4, 5, 6, 9, 10, 12}
    ensures StepHolds(c, i)
  {
    FirstWrite(c);
    ValueWrite(c);
    DeletingWrite(c);
    LastWrite(c);
    Rotations(c);
    SnapshotSteps(c);
  }

  lemma TheRun(c: Scenario)
    ensures IsRun(States(c), Steps(c))
  {
    var states, steps := States(c), Steps(c);
    forall i | 0 <= i < |steps| ensures |states[i].levels| == NUM_LEVELS && Next(states[i], steps[i], states[i + 1]) {
      if i in {2, 7, 8, 11, 13} {
        FlushesAndCompactions(c, i);
      } else {
        WritesAndOthers(c, i);
      }
      assert StepHolds(c, i);
    }
  }

  /** The levels of the three flushes are those PickLevelForMemTableOutput picks, as long as the files at level 2
      stay below the overlap it allows. */
  method FlushLevelsArePicked(c: Scenario, maxOverlap: nat) returns (first: nat, second: nat, third: nat)
    requires c.size(3) <= maxOverlap && c.size(6) <= maxOverlap
    ensures Steps(c)[2] == Flush(first, c.Bottom())
    ensures Steps(c)[7] == Flush(second, c.Flushed())
    ensures Steps(c)[11] == Flush(third, c.Upper())
  {
    first := LevelAbove([], c.Beside(), c.Beside(), maxOverlap);
    second := LevelAbove([c.Bottom()], c.Beside(), c.u, maxOverlap);
    third := LevelAbove([c.Left(), c.Right()], c.Beside(), c.Beside(), maxOverlap);
    FlushedTo(c);
  }

  lemma FlushedTo(c: Scenario)
    ensures Steps(c)[2] == Flush(2, c.Bottom()) && Steps(c)[7] == Flush(1, c.Flushed()) && Steps(c)[11] == Flush(1, c.Upper())
  {}

  /** Where a table goes when all files are at level 2. */
  method LevelAbove(two: seq<File>, lo: UserKey, hi: UserKey, maxOverlap: nat) returns (level: nat)
    requires LevelList(two) && SeqnosInRange(two) && (two == [] || (Meets(two[0], Some(lo), Some(hi)) && two[0].size <= maxOverlap))
    requires |two| <= 2 && (|two| == 2 ==> !Meets(two[1], Some(lo), Some(hi)))
    ensures level == if two == [] then 2 else 1
  {
    var levels := Listed(two);
    OnlyFirstMeets(two, lo, hi);
    level := PickLevelForMemTableOutput(levels, lo, hi, maxOverlap);
    assert NoneMeets(levels[0], lo, hi) && NoneMeets(levels[1], lo, hi);
    assert TotalFileSize(MeetingFiles(levels[3], Some(lo), Some(hi))) == 0;
    assert !StopsAt(levels, 0, lo, hi, maxOverlap);
    assert two != [] ==> two[0] in levels[2];
    assert two == [] ==> !StopsAt(levels, 1, lo, hi, maxOverlap);
  }

  lemma OnlyFirstMeets(files: seq<File>, lo: UserKey, hi: UserKey)
    requires |files| <= 2 && (files != [] ==> Meets(files[0], Some(lo), Some(hi)))
    requires |files| == 2 ==> !Meets(files[1], Some(lo), Some(hi))
    ensures TotalFileSize(MeetingFiles(files, Some(lo), Some(hi))) == if files == [] then 0 else files[0].size
  {
    if |files| == 1 {
      OneMeets(files[0], lo, hi);
      TotalOfOne(files[0]);
      assert files == [files[0]];
    } else if |files| == 2 {
      OneMeets(files[0], lo, hi);
      TotalOfOne(files[0]);
      NextDoesNotMeet(files[0], files[1], lo, hi);
      assert files == [files[0], files[1]];
    }
  }

  lemma OneMeets(f: File, lo: UserKey, hi: UserKey)
    requires Meets(f, Some(lo), Some(hi))
    ensures MeetingFiles([f], Some(lo), Some(hi)) == [f]
  {
    assert [f][..0] == [];
  }

  lemma NextDoesNotMeet(f: File, g: File, lo: UserKey, hi: UserKey)
    requires !Meets(g, Some(lo), Some(hi))
    ensures MeetingFiles([f, g], Some(lo), Some(hi)) == MeetingFiles([f], Some(lo), Some(hi))
  {
    assert [f, g][..1] == [f];
  }

  function Listed(two: seq<File>): (r: seq<seq<File>>)
    ensures |r| == NUM_LEVELS && r[2] == two && forall l :: 0 <= l < NUM_LEVELS && l != 2 ==> r[l] == []
  {
    [[], [], two, [], [], [], []]
  }

  /** SetupOtherInputs, given the file of level 1, picks just the inputs of the two compactions, whatever its
      limit. */
  method InputsArePicked(c: Scenario, expandLimit: nat) returns (in0: seq<File>, in1: seq<File>, loss0: seq<File>, loss1: seq<File>)
    ensures FileSet(in0) == {c.Flushed()} && FileSet(in1) == {c.Bottom()}
    ensures FileSet(loss0) == {c.Upper()} && FileSet(loss1) == {c.Left()}
  {
    in0, in1 := InputsFor(c.Flushed(), [c.Bottom()], expandLimit);
    assert Apart(c.Left(), c.Right());
    assert FileSet([c.Left(), c.Right()]) == {c.Left(), c.Right()};
    loss0, loss1 := InputsFor(c.Upper(), [c.Left(), c.Right()], expandLimit);
  }

  method InputsFor(f: File, files1: seq<File>, expandLimit: nat) returns (in0: seq<File>, in1: seq<File>)
    requires Sorted(f.entries) && LevelOk(false, FileSet(files1))
    ensures FileSet(in0) == {f}
    ensures FileSet(in1) == set g | g in files1 && !OutsideUserRange(g, f.Smallest().user, f.Largest().user)
  {
    var lo, hi;
    assert FileSet([f]) == {f};
    in0, in1, lo, hi := SetupOtherInputs(false, [f], files1, [f], expandLimit);
    OnlyInput(f, files1, in0, in1, lo, hi);
  }

  lemma OnlyInput(f: File, files1: seq<File>, in0: seq<File>, in1: seq<File>, lo: UserKey, hi: UserKey)
    requires FileSet(in0) == {f} && Covers([f], files1, in0, in1, lo, hi)
    ensures FileSet(in1) == set g | g in files1 && !OutsideUserRange(g, f.Smallest().user, f.Largest().user)
  {
    var x :| x in in0 && x.Smallest().user == lo;
    var y :| y in in0 && y.Largest().user == hi;
    assert x in FileSet(in0) && y in FileSet(in0);
  }

  // ----- What is read before and after -----

  lemma BeforeAll(c: Scenario)
    ensures All(Before(c)) == {c.Low(), c.Value(), c.Marker(), c.Again()}
  {
    var s := Before(c);
    ContentsOfOne(c.Upper());
    ContentsOfTwo(c.Left(), c.Right());
    assert Place(s, 3) == {c.Again()} && Place(s, 4) == {c.Low(), c.Marker(), c.Value()};
    forall p | 0 <= p < PLACES && p != 3 && p != 4 ensures Place(s, p) == {} {
      assert p >= 2 ==> s.levels[p - 2] == {};
    }
    InAll(s, 3, c.Again());
    InAll(s, 4, c.Low());
    InAll(s, 4, c.Marker());
    InAll(s, 4, c.Value());
  }

  lemma BeforeIsReached(c: Scenario)
    ensures Inv(Before(c))
  {
    TheRun(c);
    var states, steps := States(c), Steps(c);
    RunPrefix(states, steps);
    ReachableInv(states[..14], steps[..13]);
    assert states[..14][13] == states[13] == Before(c);
  }

  lemma MissedCaseArises(c: Scenario)
    ensures ResurrectsAt(Before(c), 1, {c.Upper()}, {c.Left()}, c.u, c.Right())
  {
    var s := Before(c);
    BeforeIsReached(c);
    BeforeAll(c);
    NewestUnique(All(s), c.u, 5, Some(c.Marker()));
    ContentsOfOne(c.Left());
    ContentsMember({c.Left()}, c.Left(), c.Marker());
    assert IsBaseLevel(s, 1, c.u);
  }

  lemma RightIsBoundary(c: Scenario)
    ensures IsLargestKey({c.Left()}, c.Marker().key)
    ensures IsBoundaryFile(Before(c).levels[2], c.Marker().key, c.Right())
  {
    assert Before(c).levels[2] == {c.Left(), c.Right()};
  }

  /** From the empty store: write beside u and flush, write u, take a snapshot, delete u, flush, compact the two
      files into two that are cut between the versions of u, write beside it, flush, release the snapshot. The
      next compaction takes the inputs SetupOtherInputs picks, and u reads as the deleted value. */
  lemma DeletionCanBeLost(c: Scenario) returns (states: seq<State>, steps: seq<Step>)
    ensures IsRun(states, steps) && |steps| == 14
    ensures steps[13] == Compact(1, {c.Upper()}, {c.Left()}, {c.Output()}, c.Beside(), c.Beside())
    ensures |states[13].levels| == NUM_LEVELS && View(All(states[13]), c.u, states[13].lastSeq) == None
    ensures |states[14].levels| == NUM_LEVELS && View(All(states[14]), c.u, states[14].lastSeq) == Some(c.v)
  {
    states, steps := States(c), Steps(c);
    TheRun(c);
    BeforeIsReached(c);
    MissedCaseArises(c);
    RightIsBoundary(c);
    LosingStep(c);
    Lost(Before(c), After(c), 1, c);
  }

  lemma Lost(s: State, t: State, level: nat, c: Scenario)
    requires s == Before(c) && t == After(c) && level == 1 && Inv(s)
    requires CompactStep(s, t, level, {c.Upper()}, {c.Left()}, {c.Output()}, c.Beside(), c.Beside())
    requires ResurrectsAt(s, level, {c.Upper()}, {c.Left()}, c.u, c.Right())
    requires IsLargestKey({c.Left()}, c.Marker().key) && IsBoundaryFile(s.levels[2], c.Marker().key, c.Right())
    ensures View(All(s), c.u, 5) == None && View(All(t), c.u, 5) == Some(c.v)
  {
    assert level + 1 == 2 && SmallestSnapshot(s) == 5;
    ResurrectingStep(s, t, level, {c.Upper()}, {c.Left()}, {c.Output()}, c.Beside(), c.Beside(), c.u, c.Right(), c.Marker().key);
  }
}
