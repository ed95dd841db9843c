/** What the worker pool guarantees over every run, whatever the interleaving. */
module ThreadPoolRuns {
  import opened Keys
  import opened ThreadPool
  import opened ThreadPoolInvariants
  import opened ThreadPoolCompletion

  // ----- Safety -----

  lemma NextKeepsInv(s: State, step: Step)
    requires Inv(s) && Enabled(s, step)
    ensures Inv(Next(s, step))
  {
    match step
    case SubmitStep(r, loop, kind, pick) => SubmitKeepsInv(s, r, loop, kind, pick);
    case LockStep(i, pick) => LockKeepsInv(s, i, pick);
    case FinishStep(i) => FinishKeepsInv(s, i);
    case SpuriousStep(i) => SpuriousKeepsInv(s, i);
    case CancelStep(r, l) => CancelKeepsInv(s, r, l);
    case CancelEndStep(l) => CancelEndKeepsInv(s, l);
    case TakeStep(l) => TakeKeepsInv(s, l);
    case DoneStep(l) => CallDoneKeepsInv(s, l);
    case ExitStep(pick) => ExitKeepsInv(s, pick);
  }

  lemma LockKeepsInv(s: State, i: nat, pick: nat)
    requires Inv(s) && Enabled(s, LockStep(i, pick))
    ensures Inv(Serve(Locked(s, i), i, pick))
  {
    LockedKeepsInv(s, i);
    LockedChoice(s, i, pick);
    ServeKeepsInv(Locked(s, i), i, pick);
  }

  lemma LockedChoice(s: State, i: nat, pick: nat)
    requires i < |s.workers| && !s.workers[i].Waiting? && SignalChoice(s.workers, pick)
    ensures SignalChoice(Locked(s, i).workers, pick)
  {
    SignalStillFits(s.workers, i, Ready, pick);
  }

  lemma {:induction false} NobodyHolds(workers: seq<Worker>, loops: seq<Loop>, r: Req)
    requires forall i :: 0 <= i < |workers| ==> workers[i] == Ready
    requires forall l :: 0 <= l < |loops| ==> IdleLoop(loops[l])
    ensures AtWorkers(workers, r) == 0 && AtLoops(loops, r) == 0
    ensures IdleCount(workers) == 0 && SlowCount(workers) == 0
    decreases |workers| + |loops|
  {
    if workers != [] {
      NobodyHolds(workers[..|workers| - 1], loops, r);
    } else if loops != [] {
      NobodyHolds(workers, loops[..|loops| - 1], r);
    }
  }

  lemma InitInv(s: State)
    requires Init(s)
    ensures Inv(s)
  {
    forall r ensures Places(s, r) == 0 {
      NobodyHolds(s.workers, s.loops, r);
    }
    NobodyHolds(s.workers, s.loops, 0);
  }

  /** A run is a sequence of states, each the next one of its predecessor. */
  ghost predicate IsRun(states: seq<State>, steps: seq<Step>) {
    |states| == |steps| + 1 && forall k {:trigger StepAt(states, steps, k)} :: 0 <= k < |steps| ==> StepAt(states, steps, k)
  }

  ghost predicate StepAt(states: seq<State>, steps: seq<Step>, k: nat)
    requires k < |steps| && k + 1 < |states|
  {
    Enabled(states[k], steps[k]) && states[k + 1] == Next(states[k], steps[k])
  }

  lemma StepKeepsInv(states: seq<State>, steps: seq<Step>, k: nat)
    requires IsRun(states, steps) && k < |steps| && Inv(states[k])
    ensures Inv(states[k + 1])
  {
    assert StepAt(states, steps, k);
    NextKeepsInv(states[k], steps[k]);
  }

  lemma {:induction false} RunKeepsInv(states: seq<State>, steps: seq<Step>, k: nat)
    requires IsRun(states, steps) && Inv(states[0]) && k <= |steps|
    ensures Inv(states[k])
  {
    if k > 0 {
      RunKeepsInv(states, steps, k - 1);
      StepKeepsInv(states, steps, k - 1);
    }
  }

  /** In every reachable state each submitted request is in exactly one place, so its done callback
      has been called at most once; it reports cancellation exactly when uv_cancel succeeded, and
      otherwise the work callback has run exactly once; slow requests never hold more than half the
      threads, pending ones keep the marker queued, and sleeping workers are not forgotten. */
  lemma ReachableSafety(states: seq<State>, steps: seq<Step>, k: nat)
    requires IsRun(states, steps) && Init(states[0]) && k <= |steps|
    ensures var s := states[k];
      && Inv(s)
      && (forall r :: r in s.book.reqs ==> Places(s, r) == 1 && Finished(s.done, r) <= 1)
      && (forall r :: r !in s.book.reqs ==> Places(s, r) == 0)
      && (forall o :: o in s.done ==> (o.status == ECanceled <==> o.r in s.book.cancelled))
      && (forall o :: o in s.done ==> s.book.ran[o.r] == if o.status == ECanceled then 0 else 1)
      && (forall r :: s.book.ran[r] <= 1)
      && s.slowRunning <= (|s.workers| + 1) / 2
      && (s.slow != [] ==> SlowMarker in s.wq)
      && (!MustWait(s) && SomeWaiting(s.workers) ==> SomeActive(s.workers))
  {
    InitInv(states[0]);
    RunKeepsInv(states, steps, k);
    var s := states[k];
    forall o | o in s.done
      ensures o.status == ECanceled <==> o.r in s.book.cancelled
      ensures s.book.ran[o.r] == if o.status == ECanceled then 0 else 1
    {
      assert Reported(s.book, o);
    }
  }

  // ----- Cancelling -----

  ghost predicate WithWorker(s: State, r: Req) {
    exists i :: 0 <= i < |s.workers| && s.workers[i].Busy? && s.workers[i].r == r
  }

  /** uv_cancel succeeds exactly when no worker has taken the request. */
  lemma CancelSucceedsIff(s: State, r: Req, l: nat)
    requires Inv(s) && Enabled(s, CancelStep(r, l))
    ensures Cancellable(s, r) <==> !WithWorker(s, r) && s.book.ran[r] == 0
  {
    if WithWorker(s, r) {
      var i :| 0 <= i < |s.workers| && s.workers[i].Busy? && s.workers[i].r == r;
      assert s.workers[i] in s.workers;
    } else if !Cancellable(s, r) && s.book.ran[r] == 0 {
      UnfitIsNowhere(s, r, l);
    }
  }

  /** A request whose cancellation is complete but not reported can be cancelled again: it moves to the end
      of its completion queue, and nothing else changes. */
  lemma CancelAgain(s: State, r: Req, l: nat)
    requires Inv(s) && Enabled(s, CancelStep(r, l)) && s.book.reqs[r].work == Cancelled
    ensures Cancellable(s, r)
    ensures var u := CancelBegin(s, r, l);
            && l < |u.loops| && u.loops[l].cancelling == Some(r)
            && var t := CancelEnd(u, l);
               && t.book == s.book && t.done == s.done && t.workers == s.workers && |t.loops| == |s.loops|
               && t.loops[l] == Loop(Remove(s.loops[l].completed, r) + [r], None, Remove(s.loops[l].finishing, r))
               && forall k :: 0 <= k < |s.loops| && k != l ==> t.loops[k] == s.loops[k]
  {
    CancelledIsFree(s, r);
    UnfitIsNowhere(s, r, l);
    CancelledIsRecorded(s, r, l);
    assert s.book.cancelled + {r} == s.book.cancelled;
    assert s.book.reqs[r := s.book.reqs[r].(work := Cancelled, linked := true)] == s.book.reqs;
  }

  lemma CancelledIsFree(s: State, r: Req)
    requires Inv(s) && r in s.book.reqs && s.book.reqs[r].work == Cancelled
    ensures !WithWorker(s, r)
  {}

  /** A cancelled request is in its loop, recorded as cancelled. */
  lemma CancelledIsRecorded(s: State, r: Req, l: nat)
    requires Located(s) && Enabled(s, CancelStep(r, l)) && s.book.reqs[r].work == Cancelled
    ensures r in s.book.cancelled
  {
    if r !in s.book.cancelled {
      TimesMember(s.wq, Job(r));
      TimesMember(s.slow, r);
      forall w | w in s.workers && w.Busy? ensures w.r != r {
        var i :| 0 <= i < |s.workers| && s.workers[i] == w;
      }
      NoWorkerHolds(s.workers, r);
      forall k | 0 <= k < |s.loops| ensures NotAtLoop(s.loops[k], r) {
        assert LoopOk(s.book, s.loops[k], k);
      }
      NoLoopHolds(s.loops, r);
    }
  }

  /** One worker, one loop, and a request in the queue, before and after it is cancelled. */
  function Fresh(): State {
    State([], false, [], 0, 0, [Ready], [Loop([], None, [])], Book(map[], {}, multiset{}), [])
  }

  function Submitted(r: Req): State {
    State([Job(r)], false, [], 0, 0, [Ready], [Loop([], None, [])], Book(map[r := Request(0, Cpu, Callback, true)], {}, multiset{}), [])
  }

  function InCancel(r: Req): State {
    State([], false, [], 0, 0, [Ready], [Loop([], Some(r), [])], Book(map[r := Request(0, Cpu, Callback, true)], {r}, multiset{}), [])
  }

  function WasCancelled(r: Req): State {
    State([], false, [], 0, 0, [Ready], [Loop([r], None, [])], Book(map[r := Request(0, Cpu, Cancelled, true)], {r}, multiset{}), [])
  }

  lemma SubmitFirst(r: Req)
    ensures Enabled(Fresh(), SubmitStep(r, 0, Cpu, 0)) && Next(Fresh(), SubmitStep(r, 0, Cpu, 0)) == Submitted(r)
  {
    assert Submitted(r).book.reqs == map[][r := Request(0, Cpu, Callback, true)];
  }

  lemma CancelFirst(r: Req)
    ensures Enabled(Submitted(r), CancelStep(r, 0)) && Cancellable(Submitted(r), r)
    ensures Next(Submitted(r), CancelStep(r, 0)) == InCancel(r)
    ensures Enabled(InCancel(r), CancelEndStep(0)) && Next(InCancel(r), CancelEndStep(0)) == WasCancelled(r)
  {
    var s := Submitted(r);
    assert Remove([Job(r)], Job(r)) == [];
    var u, t := InCancel(r), WasCancelled(r);
    assert u.book.reqs[r := Request(0, Cpu, Cancelled, true)] == t.book.reqs;
    assert u.loops[0 := Loop([r], None, [])] == t.loops;
    assert u.loops[0].completed + [r] == [r];
    assert CancelEnd(u, 0).loops == t.loops && CancelEnd(u, 0).book == t.book;
  }

  /** Any request can see two cancellations that both succeed, one before the other is reported. */
  lemma CancelledTwice(r: Req) returns (states: seq<State>, steps: seq<Step>)
    ensures IsRun(states, steps) && Init(states[0]) && |steps| == 4 && steps[1] == steps[3] == CancelStep(r, 0)
    ensures Cancellable(states[1], r) && Cancellable(states[3], r)
  {
    SubmitFirst(r);
    CancelFirst(r);
    var last := WasCancelled(r);
    assert Enabled(last, CancelStep(r, 0)) && Cancellable(last, r);
    states := [Fresh(), Submitted(r), InCancel(r), last, Next(last, CancelStep(r, 0))];
    steps := [SubmitStep(r, 0, Cpu, 0), CancelStep(r, 0), CancelEndStep(0), CancelStep(r, 0)];
  }

  /** An unlinked request is with a worker. */
  lemma UnfitIsNowhere(s: State, r: Req, l: nat)
    requires Located(s) && Enabled(s, CancelStep(r, l)) && !WithWorker(s, r)
    ensures s.book.reqs[r].linked
  {
    if !s.book.reqs[r].linked {
      TimesMember(s.wq, Job(r));
      TimesMember(s.slow, r);
      forall w | w in s.workers && w.Busy? ensures w.r != r {
        var i :| 0 <= i < |s.workers| && s.workers[i] == w;
      }
      NoWorkerHolds(s.workers, r);
      forall k | 0 <= k < |s.loops| ensures NotAtLoop(s.loops[k], r) {
        assert LoopOk(s.book, s.loops[k], k);
      }
      NoLoopHolds(s.loops, r);
    }
  }

  // ----- Progress -----

  function JobTotal(wq: seq<Item>): nat {
    if wq == [] then 0 else JobTotal(wq[..|wq| - 1]) + JobOne(wq[|wq| - 1])
  }

  function JobOne(x: Item): nat { if x.Job? then 1 else 0 }

  function Weight(w: Worker): nat {
    match w
    case Busy(_, _) => 5
    case Waiting => 1
    case Exited => 0
    case _ => 2
  }

  function WorkerRank(ws: seq<Worker>): nat {
    if ws == [] then 0 else WorkerRank(ws[..|ws| - 1]) + Weight(ws[|ws| - 1])
  }

  function LoopWeight(l: Loop): nat {
    2 * |l.completed| + |l.finishing| + (if l.cancelling.Some? then 3 else 0)
  }

  function LoopRank(ls: seq<Loop>): nat {
    if ls == [] then 0 else LoopRank(ls[..|ls| - 1]) + LoopWeight(ls[|ls| - 1])
  }

  /** How much work is left for the pool and the loops themselves. */
  function Rank(s: State): nat {
    5 * (JobTotal(s.wq) + |s.slow|) + WorkerRank(s.workers) + LoopRank(s.loops)
  }

  /** Steps the threads take on their own, without new submissions, cancellations or spurious wakeups. */
  ghost predicate Internal(s: State, step: Step) {
    match step
    case LockStep(_, _) => true
    case FinishStep(_) => true
    case CancelEndStep(_) => true
    case TakeStep(l) => l < |s.loops| && s.loops[l].completed != []
    case DoneStep(_) => true
    case _ => false
  }

  lemma JobAppend(wq: seq<Item>, x: Item)
    ensures JobTotal(wq + [x]) == JobTotal(wq) + JobOne(x)
  {
    assert (wq + [x])[..|wq|] == wq;
  }

  lemma {:induction false} JobHead(wq: seq<Item>)
    requires wq != []
    ensures JobTotal(wq) == JobTotal(wq[1..]) + JobOne(wq[0])
  {
    var n := |wq| - 1;
    if n > 0 {
      JobHead(wq[..n]);
      assert wq[1..][..n - 1] == wq[..n][1..];
    }
  }

  lemma {:induction false} WorkerRankUpdate(ws: seq<Worker>, i: nat, w: Worker)
    requires i < |ws|
    ensures WorkerRank(ws[i := w]) + Weight(ws[i]) == WorkerRank(ws) + Weight(w)
  {
    var n := |ws| - 1;
    if i == n {
      assert ws[i := w][..n] == ws[..n];
    } else {
      WorkerRankUpdate(ws[..n], i, w);
      assert ws[i := w][..n] == ws[..n][i := w];
    }
  }

  lemma {:induction false} LoopRankUpdate(ls: seq<Loop>, i: nat, l: Loop)
    requires i < |ls|
    ensures LoopRank(ls[i := l]) + LoopWeight(ls[i]) == LoopRank(ls) + LoopWeight(l)
  {
    var n := |ls| - 1;
    if i == n {
      assert ls[i := l][..n] == ls[..n];
    } else {
      LoopRankUpdate(ls[..n], i, l);
      assert ls[i := l][..n] == ls[..n][i := l];
    }
  }

  lemma SignalRank(ws: seq<Worker>, pick: nat)
    ensures WorkerRank(Signal(ws, pick)) <= WorkerRank(ws) + 1
  {
    if pick < |ws| && ws[pick].Waiting? {
      WorkerRankUpdate(ws, pick, Woken);
    }
  }

  lemma TakeSlowRank(s: State, i: nat, pick: nat)
    requires i < |s.workers| && s.workers[i].Ready? && s.slow != []
    ensures Rank(TakeSlow(s, i, pick)) < Rank(s)
  {
    var ws := s.workers[i := Busy(s.slow[0], true)];
    WorkerRankUpdate(s.workers, i, Busy(s.slow[0], true));
    SignalRank(ws, pick);
    JobAppend(s.wq, SlowMarker);
  }

  lemma TakeJobRank(s: State, i: nat, r: Req)
    requires i < |s.workers| && s.workers[i].Ready? && s.wq != [] && s.wq[0] == Job(r)
    ensures Rank(s.(wq := s.wq[1..], book := SetLinked(s.book, r, false), workers := s.workers[i := Busy(r, false)])) < Rank(s)
  {
    JobHead(s.wq);
    WorkerRankUpdate(s.workers, i, Busy(r, false));
  }

  lemma MarkerRank(s: State, i: nat, pick: nat)
    requires i < |s.workers| && s.workers[i].Ready? && !MustWait(s) && s.wq[0] == SlowMarker
    ensures var (t, again) := Round(s, i, pick);
      if again then Rank(t) == Rank(s) && t.workers == s.workers else Rank(t) < Rank(s)
  {
    JobHead(s.wq);
    JobAppend(s.wq[1..], SlowMarker);
    if s.slow != [] {
      TakeSlowRank(s.(wq := s.wq[1..], markerLinked := false), i, pick);
    }
  }

  lemma RoundRank(s: State, i: nat, pick: nat)
    requires i < |s.workers| && s.workers[i].Ready?
    ensures var (t, again) := Round(s, i, pick);
      if again then Rank(t) == Rank(s) && t.workers == s.workers else Rank(t) < Rank(s)
  {
    if MustWait(s) {
      WorkerRankUpdate(s.workers, i, Waiting);
    } else {
      JobHead(s.wq);
      match s.wq[0]
      case ExitMessage =>
        SignalRank(s.workers, pick);
        WorkerRankUpdate(Signal(s.workers, pick), i, Exited);
      case Job(r) => TakeJobRank(s, i, r);
      case SlowMarker => MarkerRank(s, i, pick);
    }
  }

  lemma {:induction false} ServeRank(s: State, i: nat, pick: nat)
    requires i < |s.workers| && s.workers[i].Ready? && MarkersOnce(s.wq)
    ensures Rank(Serve(s, i, pick)) < Rank(s)
    decreases |s.wq|, s.wq != [] && s.wq[0] == SlowMarker
  {
    RoundRank(s, i, pick);
    RoundProgress(s, i, pick);
    var (t, again) := Round(s, i, pick);
    if again {
      TailMarkers(s.wq);
      ServeRank(t, i, pick);
    }
  }

  lemma FinishRank(s: State, i: nat)
    requires Inv(s) && i < |s.workers| && s.workers[i].Busy?
    ensures Rank(FinishWork(s, i)) < Rank(s)
  {
    WorkerRankUpdate(s.workers, i, Returning(s.workers[i].isSlow));
    assert s.workers[i] in s.workers;
    var l := s.book.reqs[s.workers[i].r].loop;
    LoopRankUpdate(s.loops, l, FinishWork(s, i).loops[l]);
  }

  lemma LockRank(s: State, i: nat, pick: nat)
    requires Enabled(s, LockStep(i, pick))
    ensures Rank(Serve(Locked(s, i), i, pick)) < Rank(s)
  {
    WorkerRankUpdate(s.workers, i, Ready);
    ServeRank(Locked(s, i), i, pick);
  }

  /** Every step of the threads themselves uses up some of the remaining work. */
  lemma InternalStepDecreases(s: State, step: Step)
    requires Inv(s) && Enabled(s, step) && Internal(s, step)
    ensures Rank(Next(s, step)) < Rank(s)
  {
    match step
    case LockStep(i, pick) => LockRank(s, i, pick);
    case FinishStep(i) => FinishRank(s, i);
    case CancelEndStep(l) => LoopRankUpdate(s.loops, l, Next(s, step).loops[l]);
    case TakeStep(l) => LoopRankUpdate(s.loops, l, Next(s, step).loops[l]);
    case DoneStep(l) => LoopRankUpdate(s.loops, l, Next(s, step).loops[l]);
  }

  lemma RunTail(states: seq<State>, steps: seq<Step>)
    requires IsRun(states, steps) && steps != []
    ensures IsRun(states[1..], steps[1..])
  {
    forall k | 0 <= k < |steps| - 1 ensures StepAt(states[1..], steps[1..], k) {
      assert StepAt(states, steps, k + 1);
    }
  }

  /** Left alone, the pool makes at most Rank(s) more steps. */
  lemma {:induction false} InternalRunsEnd(states: seq<State>, steps: seq<Step>)
    requires IsRun(states, steps) && Inv(states[0])
    requires forall k :: 0 <= k < |steps| ==> Internal(states[k], steps[k])
    ensures |steps| <= Rank(states[0])
    decreases |steps|
  {
    if steps != [] {
      assert StepAt(states, steps, 0);
      RunTail(states, steps);
      InternalStepDecreases(states[0], steps[0]);
      NextKeepsInv(states[0], steps[0]);
      InternalRunsEnd(states[1..], steps[1..]);
    }
  }

  ghost predicate Quiet(s: State) {
    forall step :: Internal(s, step) ==> !Enabled(s, step)
  }

  /** When no thread can take a step, every worker sleeps or has left and the loops are idle. */
  lemma QuietMeans(s: State)
    requires Inv(s) && Quiet(s)
    ensures forall i :: 0 <= i < |s.workers| ==> s.workers[i].Waiting? || s.workers[i].Exited?
    ensures forall l :: 0 <= l < |s.loops| ==> IdleLoop(s.loops[l])
  {
    var pick := if SomeWaiting(s.workers) then var j :| 0 <= j < |s.workers| && s.workers[j].Waiting?; j else 0;
    assert SignalChoice(s.workers, pick);
    forall i | 0 <= i < |s.workers| ensures s.workers[i].Waiting? || s.workers[i].Exited? {
      var lock, finish := LockStep(i, pick), FinishStep(i);
      assert Internal(s, lock) && Internal(s, finish);
    }
    forall l | 0 <= l < |s.loops| ensures IdleLoop(s.loops[l]) {
      var end, take, call := CancelEndStep(l), TakeStep(l), DoneStep(l);
      assert Internal(s, end) && Internal(s, call);
      assert s.loops[l].completed != [] ==> Internal(s, take);
    }
  }

  lemma {:induction false} QuietCounts(workers: seq<Worker>, loops: seq<Loop>, r: Req)
    requires forall i :: 0 <= i < |workers| ==> workers[i].Waiting? || workers[i].Exited?
    requires forall l :: 0 <= l < |loops| ==> IdleLoop(loops[l])
    ensures AtWorkers(workers, r) == 0 && AtLoops(loops, r) == 0 && SlowCount(workers) == 0
    decreases |workers| + |loops|
  {
    if workers != [] {
      QuietCounts(workers[..|workers| - 1], loops, r);
    } else if loops != [] {
      QuietCounts(workers, loops[..|loops| - 1], r);
    }
  }

  /** Nothing is stranded: when no thread can take a step and the pool is not shutting down, every
      submitted request's done callback has been called exactly once. */
  lemma QuietMeansAllDone(s: State, r: Req)
    requires Inv(s) && Quiet(s) && ExitMessage !in s.wq && r in s.book.reqs
    requires exists i :: 0 <= i < |s.workers| && !s.workers[i].Exited?
    ensures Finished(s.done, r) == 1
  {
    QuietMeans(s);
    QuietCounts(s.workers, s.loops, r);
    var i :| 0 <= i < |s.workers| && !s.workers[i].Exited?;
    assert s.workers[i].Waiting?;
    assert MustWait(s);
    assert Times(s.wq, Job(r)) == 0 by {
      TimesMember(s.wq, Job(r));
    }
    assert Places(s, r) == 1;
  }

  /** After the exit message every worker leaves, so the joins in cleanup return. */
  lemma QuietAfterExit(s: State)
    requires Inv(s) && Quiet(s) && ExitMessage in s.wq
    ensures forall i :: 0 <= i < |s.workers| ==> s.workers[i].Exited?
  {
    QuietMeans(s);
    assert !MustWait(s);
    assert !SomeActive(s.workers);
  }

  // ----- Whole calls -----

  /** uv__work_cancel when nothing comes between its two halves. */
  function CancelBoth(s: State, r: Req, l: nat): State
    requires l < |s.loops|
  {
    var t := CancelBegin(s, r, l);
    if t.loops[l].cancelling.Some? then CancelEnd(t, l) else t
  }

  lemma CancelBothKeepsInv(s: State, r: Req, l: nat)
    requires Inv(s) && Enabled(s, CancelStep(r, l))
    ensures Inv(CancelBoth(s, r, l))
  {
    CancelKeepsInv(s, r, l);
    var t := CancelBegin(s, r, l);
    if t.loops[l].cancelling.Some? {
      CancelEndKeepsInv(t, l);
    }
  }

  /** uv__work_done's loop when nothing comes between its rounds. */
  function DoneAll(s: State, l: nat): State
    requires l < |s.loops|
    decreases |s.loops[l].finishing|
  {
    if s.loops[l].finishing == [] then s else DoneAll(CallDone(s, l), l)
  }

  /** The outcomes reported for a list of requests, in order. */
  function Outcomes(b: Book, q: seq<Req>): seq<Outcome> {
    if q == [] then [] else [Outcome(q[0], StatusOf(b, q[0]))] + Outcomes(b, q[1..])
  }

  lemma {:induction false} DoneAllKeepsInv(s: State, l: nat)
    requires Inv(s) && l < |s.loops| && s.loops[l].cancelling.None?
    ensures Inv(DoneAll(s, l))
    decreases |s.loops[l].finishing|
  {
    if s.loops[l].finishing != [] {
      CallDoneKeepsInv(s, l);
      DoneAllKeepsInv(CallDone(s, l), l);
    }
  }

  /** One pass calls every completed request's callback once, in completion order, with its own
      status, and leaves everything else alone. */
  lemma {:induction false} DoneAllReports(s: State, l: nat)
    requires l < |s.loops|
    ensures var t := DoneAll(s, l);
      && t.done == s.done + Outcomes(s.book, s.loops[l].finishing)
      && t == s.(loops := s.loops[l := s.loops[l].(finishing := [])], done := t.done)
    decreases |s.loops[l].finishing|
  {
    if s.loops[l].finishing != [] {
      DoneAllReports(CallDone(s, l), l);
    } else {
      assert s.loops[l := s.loops[l].(finishing := [])] == s.loops;
    }
  }
}
