/** Whole runs of the store: what holds in every reachable state, and what readers see. */
module Runs {
  import opened Keys
  import opened LsmState
  import opened Compaction
  import opened CompactionViews

  datatype Step =
    | Write(ops: seq<Op>)
    | Rotate
    | Flush(level: nat, file: File)
    | TrivialMove(level: nat, file: File)
    | Compact(level: nat, in0: set<File>, in1: set<File>, outs: set<File>, lo: UserKey, hi: UserKey)
    | TakeSnapshot
    | ReleaseSnapshot(i: nat)

  ghost predicate Next(s: State, step: Step, t: State)
    requires |s.levels| == NUM_LEVELS
  {
    match step
    case Write(ops) => WriteStep(s, t, ops)
    case Rotate => RotateStep(s, t)
    case Flush(level, f) => FlushStep(s, t, level, f)
    case TrivialMove(level, f) => level + 1 < NUM_LEVELS && TrivialMoveStep(s, t, level, f)
    case Compact(level, in0, in1, outs, lo, hi) =>
      level + 1 < NUM_LEVELS && CompactStep(s, t, level, in0, in1, outs, lo, hi)
    case TakeSnapshot => SnapshotStep(s, t)
    case ReleaseSnapshot(i) => ReleaseStep(s, t, i)
  }

  /** The writes of a step join the history; nothing else does. */
  ghost function Record(history: set<Entry>, s: State, step: Step): set<Entry> {
    if step.Write? then history + EntrySet(Stamp(step.ops, s.lastSeq + 1)) else history
  }

  /** The step is a compaction in the one case that brings a deleted key back. */
  ghost predicate LosesDeletion(s: State, step: Step)
    requires |s.levels| == NUM_LEVELS
  {
    step.Compact? && step.level + 1 < NUM_LEVELS && Resurrects(s, step.level, step.in0, step.in1)
  }

  lemma StepKeepsInv(s: State, step: Step, t: State)
    requires Inv(s) && Next(s, step, t)
    ensures Inv(t)
  {
    match step
    case Write(ops) => WriteKeepsInv(s, t, ops);
    case Rotate => RotateKeepsInv(s, t);
    case Flush(level, f) => FlushKeepsInv(s, t, level, f);
    case TrivialMove(level, f) => TrivialMoveKeepsInv(s, t, level, f);
    case Compact(level, in0, in1, outs, lo, hi) => ReplaceKeepsInv(s, t, level, in0, in1, outs, lo, hi);
    case TakeSnapshot => SnapshotKeepsInv(s, t);
    case ReleaseSnapshot(i) => ReleaseKeepsInv(s, t, i);
  }

  lemma CompactKeepsFaithful(s: State, step: Step, t: State, history: set<Entry>)
    requires Inv(s) && Next(s, step, t) && step.Compact? && Faithful(s, history) && !LosesDeletion(s, step)
    ensures |t.levels| == NUM_LEVELS && Faithful(t, history)
  {
    CompactionKeepsViewsIff(s, t, step.level, step.in0, step.in1, step.outs, step.lo, step.hi);
  }

  lemma SameContentsKeepFaithful(s: State, t: State, history: set<Entry>)
    requires Inv(s) && Inv(t) && Faithful(s, history) && All(t) == All(s)
    requires t.lastSeq == s.lastSeq && SmallestSnapshot(s) <= SmallestSnapshot(t)
    ensures Faithful(t, history)
  {}

  /** One step of any kind keeps the store faithful to its history, unless it is a compaction in
      the missed case. */
  lemma StepKeepsFaithful(s: State, step: Step, t: State, history: set<Entry>)
    requires Inv(s) && Next(s, step, t) && Faithful(s, history) && !LosesDeletion(s, step)
    ensures Inv(t) && Faithful(t, Record(history, s, step))
  {
    StepKeepsInv(s, step, t);
    if step.Write? {
      WriteKeepsFaithful(s, t, step.ops, history);
      assert Record(history, s, step) == history + EntrySet(Stamp(step.ops, s.lastSeq + 1));
    } else if step.Compact? {
      CompactKeepsFaithful(s, step, t, history);
      assert Record(history, s, step) == history;
    } else {
      OtherStepsKeepContents(s, step, t);
      SameContentsKeepFaithful(s, t, history);
      assert Record(history, s, step) == history;
    }
  }

  lemma OtherStepsKeepContents(s: State, step: Step, t: State)
    requires Inv(s) && Next(s, step, t) && !step.Write? && !step.Compact?
    ensures Inv(t) && All(t) == All(s)
    ensures t.lastSeq == s.lastSeq && SmallestSnapshot(s) <= SmallestSnapshot(t)
  {
    match step
    case Rotate => RotateKeepsInv(s, t);
    case Flush(level, f) => FlushKeepsInv(s, t, level, f);
    case TrivialMove(level, f) => TrivialMoveKeepsInv(s, t, level, f);
    case TakeSnapshot => SnapshotKeepsInv(s, t);
    case ReleaseSnapshot(i) => ReleaseKeepsInv(s, t, i);
  }

  /** A freshly created store; file number 1 belongs to its manifest. */
  function Init(): State {
    State([], None, seq(NUM_LEVELS, i => {}), 0, [], 2)
  }

  lemma InitOk()
    ensures Inv(Init()) && All(Init()) == {} && Faithful(Init(), {})
  {
    var s := Init();
    assert forall l :: 0 <= l < NUM_LEVELS ==> s.levels[l] == {};
    assert forall p :: 0 <= p < PLACES ==> Place(s, p) == {};
  }

  ghost predicate IsRun(states: seq<State>, steps: seq<Step>) {
    && |states| == |steps| + 1
    && states[0] == Init()
    && forall i :: 0 <= i < |steps| ==> |states[i].levels| == NUM_LEVELS && Next(states[i], steps[i], states[i + 1])
  }

  ghost function HistoryOf(states: seq<State>, steps: seq<Step>): set<Entry>
    requires |states| == |steps| + 1
  {
    if steps == [] then {}
    else
      var n := |steps| - 1;
      Record(HistoryOf(states[..n + 1], steps[..n]), states[n], steps[n])
  }

  lemma RunPrefix(states: seq<State>, steps: seq<Step>)
    requires IsRun(states, steps) && steps != []
    ensures IsRun(states[..|steps|], steps[..|steps| - 1])
  {
    var ps, pt := states[..|steps|], steps[..|steps| - 1];
    forall i | 0 <= i < |pt| ensures |ps[i].levels| == NUM_LEVELS && Next(ps[i], pt[i], ps[i + 1]) {
      assert ps[i] == states[i] && ps[i + 1] == states[i + 1] && pt[i] == steps[i];
    }
  }

  /** Every reachable state is sorted, disjoint per level and newest-first across places. */
  lemma {:induction false} ReachableInv(states: seq<State>, steps: seq<Step>)
    requires IsRun(states, steps)
    ensures Inv(states[|steps|])
  {
    if steps == [] {
      InitOk();
    } else {
      var n := |steps| - 1;
      RunPrefix(states, steps);
      ReachableInv(states[..n + 1], steps[..n]);
      StepKeepsInv(states[n], steps[n], states[n + 1]);
    }
  }

  /** After any run without the missed case, reading any user key at any sequence number from the
      oldest snapshot on finds the newest write to it at or before that number. */
  lemma {:induction false} RunIsFaithful(states: seq<State>, steps: seq<Step>)
    requires IsRun(states, steps)
    requires forall i :: 0 <= i < |steps| ==> !LosesDeletion(states[i], steps[i])
    ensures Inv(states[|steps|]) && Faithful(states[|steps|], HistoryOf(states, steps))
  {
    if steps == [] {
      InitOk();
    } else {
      var n := |steps| - 1;
      var ps, pt := states[..n + 1], steps[..n];
      RunPrefix(states, steps);
      forall i | 0 <= i < |pt| ensures !LosesDeletion(ps[i], pt[i]) {
        assert ps[i] == states[i] && pt[i] == steps[i];
      }
      RunIsFaithful(ps, pt);
      StepKeepsFaithful(states[n], steps[n], states[n + 1], HistoryOf(ps, pt));
    }
  }
}
