/** The functions of Libuv-gRPC/src/threadpool.c on the shared variables themselves, each stretch of
    code under the mutex being one step of the state machine. */
module WorkerPool {
  import opened Keys
  import opened ThreadPool
  import opened ThreadPoolInvariants
  import opened ThreadPoolCompletion
  import opened ThreadPoolRuns

  const MAX_THREADPOOL_SIZE: int := 1024
  const UV_EBUSY: int := -16

  /** init_threads: four threads, or what the environment says, kept between 1 and 1024. The value
      is stored in an unsigned variable, so a negative one is huge. More than four need an array,
      without which there are four. */
  function PoolSize(env: Option<int>, gotArray: bool): (n: int)
    ensures 1 <= n <= MAX_THREADPOOL_SIZE
    ensures env.Some? && 1 <= env.value <= 4 ==> n == env.value
    ensures env.Some? && 4 < env.value <= MAX_THREADPOOL_SIZE ==> n == if gotArray then env.value else 4
    ensures !gotArray ==> n <= 4
    ensures env.None? ==> n == 4
    ensures env == Some(0) ==> n == 1
    ensures env.Some? && (env.value < 0 || env.value > MAX_THREADPOOL_SIZE) ==> n == if gotArray then MAX_THREADPOOL_SIZE else 4
  {
    var n := if env.None? then 4 else env.value;
    var n := if n == 0 then 1 else if n < 0 || n > MAX_THREADPOOL_SIZE then MAX_THREADPOOL_SIZE else n;
    if n > 4 && !gotArray then 4 else n
  }

  class Pool {
    var wq: seq<Item>
    var markerLinked: bool
    var slowIoPending: seq<Req>
    var idleThreads: nat
    var slowIoWorkRunning: nat
    var workers: seq<Worker>
    var loops: seq<Loop>
    var reqs: map<Req, Request>
    /** History: successful cancellations, completed work callbacks, done callbacks. */
    ghost var cancelled: set<Req>
    ghost var ran: multiset<Req>
    ghost var done: seq<Outcome>

    ghost function State(): ThreadPool.State
      reads this
    {
      ThreadPool.State.State(wq, markerLinked, slowIoPending, idleThreads, slowIoWorkRunning, workers, loops,
            Book(reqs, cancelled, ran), done)
    }

    ghost predicate Valid()
      reads this
    {
      Inv(State())
    }

    constructor (env: Option<int>, gotArray: bool, loopCount: nat)
      ensures Valid() && Init(State()) && |workers| == PoolSize(env, gotArray) && |loops| == loopCount
    {
      wq, markerLinked, slowIoPending, idleThreads, slowIoWorkRunning := [], false, [], 0, 0;
      workers := seq(PoolSize(env, gotArray), _ => Ready);
      loops := seq(loopCount, _ => Loop([], None, []));
      reqs, cancelled, ran, done := map[], {}, multiset{}, [];
      new;
      InitInv(State());
    }

    /** Which waiting thread a signal would wake. */
    method AnyWaiting() returns (pick: nat)
      ensures SignalChoice(workers, pick)
    {
      if j :| 0 <= j < |workers| && workers[j].Waiting? {
        pick := j;
      } else {
        pick := 0;
      }
    }

    method SignalIfAnyIdle(pick: nat)
      modifies this`workers
      ensures State() == SignalIfIdle(old(State()), pick)
    {
      if idleThreads > 0 {
        workers := Signal(workers, pick);
      }
    }

    method Post(q: Item, kind: WorkKind, pick: nat)
      requires kind == SlowIo ==> q.Job?
      modifies this`wq, this`markerLinked, this`slowIoPending, this`workers
      ensures kind != SlowIo ==> State() == Enqueue(old(State()), q, pick)
      ensures kind == SlowIo ==>
        var s := old(State()).(slow := old(State()).slow + [q.r]);
        State() == if s.markerLinked then s else Enqueue(s, SlowMarker, pick)
    {
      var item := q;
      if kind == SlowIo {
        slowIoPending := slowIoPending + [q.r];
        if markerLinked {
          return;
        }
        item := SlowMarker;
      }
      wq := wq + [item];
      markerLinked := markerLinked || item.SlowMarker?;
      SignalIfAnyIdle(pick);
    }

    /** uv__work_submit. */
    method WorkSubmit(r: Req, loop: nat, kind: WorkKind) returns (pick: nat)
      requires Valid() && r !in reqs && loop < |loops|
      modifies this`wq, this`markerLinked, this`slowIoPending, this`workers, this`reqs
      ensures Enabled(old(State()), SubmitStep(r, loop, kind, pick))
      ensures State() == Next(old(State()), SubmitStep(r, loop, kind, pick)) && Valid()
    {
      pick := AnyWaiting();
      reqs := reqs[r := Request(loop, kind, Callback, true)];
      Post(Job(r), kind, pick);
      NextKeepsInv(old(State()), SubmitStep(r, loop, kind, pick));
    }

    /** The part of cleanup before the joins. */
    method Cleanup() returns (pick: nat)
      requires Valid()
      modifies this`wq, this`markerLinked, this`slowIoPending, this`workers
      ensures Enabled(old(State()), ExitStep(pick))
      ensures State() == Next(old(State()), ExitStep(pick)) && Valid()
    {
      pick := AnyWaiting();
      Post(ExitMessage, Cpu, pick);
      NextKeepsInv(old(State()), ExitStep(pick));
    }

    /** One stretch of worker under the mutex, from locking it to waiting, leaving or running a request. */
    method WorkerLocked(i: nat) returns (pick: nat)
      requires Valid() && i < |workers| && (workers[i].Ready? || workers[i].Woken? || workers[i].Returning?)
      modifies this`wq, this`markerLinked, this`slowIoPending, this`idleThreads, this`slowIoWorkRunning, this`workers, this`reqs
      ensures Enabled(old(State()), LockStep(i, pick))
      ensures State() == Next(old(State()), LockStep(i, pick)) && Valid()
    {
      pick := AnyWaiting();
      LockKeepsInv(State(), i, pick);
      CountsUpdate(workers, i, Ready);
      Lock(i);
      WorkerRounds(i, pick);
    }

    /** The counters on getting the mutex back. */
    method Lock(i: nat)
      requires i < |workers|
      requires workers[i].Woken? ==> idleThreads > 0
      requires workers[i].Returning? && workers[i].wasSlow ==> slowIoWorkRunning > 0
      modifies this`idleThreads, this`slowIoWorkRunning, this`workers
      ensures State() == Locked(old(State()), i)
    {
      if workers[i].Woken? {
        idleThreads := idleThreads - 1;
      } else if workers[i].Returning? && workers[i].wasSlow {
        slowIoWorkRunning := slowIoWorkRunning - 1;
      }
      workers := workers[i := Ready];
    }

    /** The for loop of worker. */
    method WorkerRounds(i: nat, pick: nat)
      requires i < |workers| && MarkersOnce(wq)
      modifies this`wq, this`markerLinked, this`slowIoPending, this`idleThreads, this`slowIoWorkRunning, this`workers, this`reqs
      ensures State() == Serve(old(State()), i, pick)
    {
      ghost var goal := Serve(State(), i, pick);
      var again := true;
      while again
        invariant i < |workers| && MarkersOnce(wq)
        invariant goal == if again then Serve(State(), i, pick) else State()
        decreases again, |wq|, wq != [] && wq[0] == SlowMarker
      {
        RoundProgress(State(), i, pick);
        MarkersStayOnce(State(), i, pick);
        again := WorkerRound(i, pick);
      }
    }

    /** One round of the for loop in worker; true where it says continue. */
    method WorkerRound(i: nat, pick: nat) returns (again: bool)
      requires i < |workers|
      modifies this`wq, this`markerLinked, this`slowIoPending, this`idleThreads, this`slowIoWorkRunning, this`workers, this`reqs
      ensures (State(), again) == Round(old(State()), i, pick)
    {
      var threshold := (|workers| + 1) / 2;
      if wq == [] || (wq[0] == SlowMarker && |wq| == 1 && slowIoWorkRunning >= threshold) {
        idleThreads := idleThreads + 1;
        workers := workers[i := Waiting];
        return false;
      }
      assert !MustWait(State());
      var q := wq[0];
      if q == ExitMessage {
        workers := Signal(workers, pick)[i := Exited];
        return false;
      }
      wq := wq[1..];
      if q.Job? {
        Unlinked(q.r);
        workers := workers[i := Busy(q.r, false)];
        return false;
      }
      markerLinked := false;
      if slowIoWorkRunning >= threshold {
        wq := wq + [q];
        markerLinked := true;
        return true;
      }
      if slowIoPending == [] {
        return true;
      }
      StartSlow(i, pick);
      return false;
    }

    /** QUEUE_INIT on the request's node. */
    method Unlinked(r: Req)
      modifies this`reqs
      ensures State() == old(State()).(book := SetLinked(old(State()).book, r, false))
    {
      if r in reqs {
        reqs := reqs[r := reqs[r].(linked := false)];
      }
    }

    method StartSlow(i: nat, pick: nat)
      requires i < |workers| && slowIoPending != []
      modifies this`wq, this`markerLinked, this`slowIoPending, this`slowIoWorkRunning, this`workers, this`reqs
      ensures State() == TakeSlow(old(State()), i, pick)
    {
      slowIoWorkRunning := slowIoWorkRunning + 1;
      var r := slowIoPending[0];
      slowIoPending := slowIoPending[1..];
      Unlinked(r);
      workers := workers[i := Busy(r, true)];
      if slowIoPending != [] {
        wq := wq + [SlowMarker];
        markerLinked := true;
        SignalIfAnyIdle(pick);
      }
    }

    /** After the work callback: hand the request to its loop under the loop's mutex. */
    method WorkFinished(i: nat)
      requires Valid() && i < |workers| && workers[i].Busy?
      modifies this`workers, this`loops, this`reqs, this`ran
      ensures State() == Next(old(State()), FinishStep(i)) && Valid()
    {
      NextKeepsInv(State(), FinishStep(i));
      assert workers[i] in workers;
      HandBack(i, workers[i].r);
    }

    method HandBack(i: nat, r: Req)
      requires i < |workers| && workers[i].Busy? && workers[i].r == r && r in reqs && reqs[r].loop < |loops|
      modifies this`workers, this`loops, this`reqs, this`ran
      ensures State() == FinishWork(old(State()), i)
    {
      var l := reqs[r].loop;
      ran := ran + multiset{r};
      reqs := reqs[r := reqs[r].(work := Cleared, linked := true)];
      loops := loops[l := loops[l].(completed := loops[l].completed + [r])];
      workers := workers[i := Returning(workers[i].isSlow)];
    }

    /** uv__work_cancel up to releasing both mutexes. */
    method CancelLocked(r: Req, l: nat) returns (ok: bool)
      requires Valid() && Enabled(State(), CancelStep(r, l))
      modifies this`wq, this`slowIoPending, this`loops, this`cancelled
      ensures ok <==> Cancellable(old(State()), r)
      ensures State() == Next(old(State()), CancelStep(r, l)) && Valid()
    {
      NextKeepsInv(State(), CancelStep(r, l));
      ok := TestAndRemove(r, l);
    }

    method TestAndRemove(r: Req, l: nat) returns (ok: bool)
      requires r in reqs && l < |loops|
      modifies this`wq, this`slowIoPending, this`loops, this`cancelled
      ensures ok <==> Cancellable(old(State()), r)
      ensures State() == CancelBegin(old(State()), r, l)
    {
      ok := reqs[r].linked && reqs[r].work != Cleared;
      if ok {
        wq, slowIoPending := Remove(wq, Job(r)), Remove(slowIoPending, r);
        loops := loops[l := Loop(Remove(loops[l].completed, r), loops[l].cancelling, Remove(loops[l].finishing, r))];
        cancelled := cancelled + {r};
        loops := loops[l := loops[l].(cancelling := Some(r))];
      }
    }

    /** The rest of uv__work_cancel for a request taken off its queue. */
    method CancelFinish(l: nat)
      requires l < |loops| && loops[l].cancelling.Some?
      modifies this`loops, this`reqs
      ensures State() == Next(old(State()), CancelEndStep(l))
    {
      var r := loops[l].cancelling.value;
      if r in reqs {
        reqs := reqs[r := reqs[r].(work := Cancelled, linked := true)];
      }
      loops := loops[l := loops[l].(completed := loops[l].completed + [r], cancelling := None)];
    }

    /** uv__work_cancel when nothing comes between its two halves. */
    method WorkCancel(r: Req, l: nat) returns (err: int)
      requires Valid() && Enabled(State(), CancelStep(r, l))
      modifies this`wq, this`slowIoPending, this`loops, this`reqs, this`cancelled
      ensures State() == CancelBoth(old(State()), r, l) && Valid()
      ensures err == (if Cancellable(old(State()), r) then 0 else UV_EBUSY)
    {
      CancelBothKeepsInv(State(), r, l);
      err := CancelHalves(r, l);
    }

    method CancelHalves(r: Req, l: nat) returns (err: int)
      requires r in reqs && l < |loops| && loops[l].cancelling.None?
      modifies this`wq, this`slowIoPending, this`loops, this`reqs, this`cancelled
      ensures State() == CancelBoth(old(State()), r, l)
      ensures err == (if Cancellable(old(State()), r) then 0 else UV_EBUSY)
    {
      var ok := TestAndRemove(r, l);
      if !ok {
        return UV_EBUSY;
      }
      CancelFinish(l);
      return 0;
    }

    /** uv__work_done when nothing comes between its steps. */
    method WorkDone(l: nat)
      requires Valid() && l < |loops| && loops[l].cancelling.None? && loops[l].finishing == []
      modifies this`loops, this`done
      ensures State() == DoneAll(TakeCompleted(old(State()), l), l) && Valid()
    {
      ghost var taken := TakeCompleted(State(), l);
      NextKeepsInv(State(), TakeStep(l));
      DoneAllKeepsInv(taken, l);
      loops := loops[l := Loop([], None, loops[l].completed)];
      assert State() == taken;
      while loops[l].finishing != []
        invariant l < |loops| && loops[l].cancelling.None?
        invariant DoneAll(State(), l) == DoneAll(taken, l)
        decreases |loops[l].finishing|
      {
        WorkDoneOne(l);
      }
    }

    /** The body of uv__work_done's loop. */
    method WorkDoneOne(l: nat)
      requires l < |loops| && loops[l].finishing != []
      modifies this`loops, this`done
      ensures State() == CallDone(old(State()), l)
    {
      var r := loops[l].finishing[0];
      loops := loops[l := loops[l].(finishing := loops[l].finishing[1..])];
      var err := if r in reqs && reqs[r].work == Cancelled then ECanceled else Success;
      done := done + [Outcome(r, err)];
    }
  }

  lemma MarkersStayOnce(s: State, i: nat, pick: nat)
    requires i < |s.workers| && MarkersOnce(s.wq)
    ensures MarkersOnce(Round(s, i, pick).0.wq)
  {
    if s.wq != [] {
      TailMarkers(s.wq);
    }
  }
}
