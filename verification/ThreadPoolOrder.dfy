/** In what order the worker pool serves requests, over every run: first in, first out in each queue, one slow
    request per pass of the main queue, and nothing queued before the exit message left behind. */
module ThreadPoolOrder {
  import opened Keys
  import opened ThreadPool
  import opened ThreadPoolInvariants
  import opened ThreadPoolCompletion
  import opened ThreadPoolRuns

  // ----- Order in a queue -----

  ghost predicate AheadAt<T>(q: seq<T>, x: T, ys: set<T>, i: nat) {
    i < |q| && q[i] == x && forall y :: y in ys ==> y !in q[..i]
  }

  /** x is in the queue, and none of ys stands before it. */
  ghost predicate Ahead<T>(q: seq<T>, x: T, ys: set<T>) {
    exists i: nat :: AheadAt(q, x, ys, i)
  }

  lemma AheadNew<T>(q: seq<T>, x: T, ys: set<T>)
    requires x in q && forall y :: y in ys ==> y !in q
    ensures Ahead(q, x, ys)
  {
    var i :| 0 <= i < |q| && q[i] == x;
    assert AheadAt(q, x, ys, i);
  }

  lemma FirstBefore<T>(s: seq<T>, x: T, y: T, q: nat) returns (p: nat)
    requires Ahead(s, x, {y}) && q < |s| && s[q] == y && x != y
    ensures p < q && s[p] == x
  {
    p :| AheadAt(s, x, {y}, p);
    if q < p {
      InPrefix(s, q, p);
    }
  }

  lemma InPrefix<T>(s: seq<T>, q: nat, p: nat)
    requires q < p <= |s|
    ensures s[q] in s[..p]
  {
    assert s[..p][q] == s[q];
  }

  lemma AheadAppend<T>(q: seq<T>, x: T, ys: set<T>, more: seq<T>)
    requires Ahead(q, x, ys)
    ensures Ahead(q + more, x, ys)
  {
    var i: nat :| AheadAt(q, x, ys, i);
    assert (q + more)[..i] == q[..i];
    assert AheadAt(q + more, x, ys, i);
  }

  lemma AheadTail<T>(q: seq<T>, x: T, ys: set<T>)
    requires Ahead(q, x, ys) && q[0] != x
    ensures Ahead(q[1..], x, ys) && q[0] !in ys
  {
    var i: nat :| AheadAt(q, x, ys, i);
    assert q[..i][0] == q[0];
    assert forall y :: y in q[1..][..i - 1] ==> y in q[..i];
    assert AheadAt(q[1..], x, ys, i - 1);
  }

  /** Taking another element out of the back part keeps the order. */
  lemma {:induction false} AheadRemove<T>(p: seq<T>, q: seq<T>, x: T, ys: set<T>, z: T)
    requires Ahead(p + q, x, ys) && z != x
    ensures Ahead(p + Remove(q, z), x, ys)
  {
    if q != [] {
      var init, last := q[..|q| - 1], q[|q| - 1];
      assert p + q == (p + init) + [last];
      if Ahead(p + init, x, ys) {
        AheadRemove(p, init, x, ys, z);
        if last != z {
          AheadAppend(p + Remove(init, z), x, ys, [last]);
          assert p + Remove(q, z) == p + Remove(init, z) + [last];
        }
      } else {
        LastAhead(p + init, last, x, ys);
        RemoveMembers(init, z);
        assert p + Remove(q, z) == p + Remove(init, z) + [x];
        var kept := p + Remove(init, z);
        forall y | y in ys ensures y !in kept {
          assert y !in p + init;
        }
        assert (kept + [x])[..|kept|] == kept;
        assert AheadAt(kept + [x], x, ys, |kept|);
      }
    }
  }

  lemma LastAhead<T>(init: seq<T>, last: T, x: T, ys: set<T>)
    requires Ahead(init + [last], x, ys) && !Ahead(init, x, ys)
    ensures last == x && forall y :: y in ys ==> y !in init
  {
    var i: nat :| AheadAt(init + [last], x, ys, i);
    if i < |init| {
      assert (init + [last])[..i] == init[..i];
      assert AheadAt(init, x, ys, i);
    } else {
      assert (init + [last])[..i] == init;
    }
  }

  lemma AheadInsert<T>(p: seq<T>, z: T, q: seq<T>, x: T, ys: set<T>)
    requires Ahead(p + q, x, ys) && z !in ys
    ensures Ahead(p + [z] + q, x, ys)
  {
    var i: nat :| AheadAt(p + q, x, ys, i);
    var r := p + [z] + q;
    if i < |p| {
      assert r[..i] == (p + q)[..i];
      assert AheadAt(r, x, ys, i);
    } else {
      assert r[..i + 1] == p + [z] + q[..i - |p|] && (p + q)[..i] == p + q[..i - |p|];
      assert AheadAt(r, x, ys, i + 1);
    }
  }

  // ----- What a worker takes -----

  predicate Takes(w: Worker, y: Item) {
    match y
    case Job(r) => w == Busy(r, false)
    case SlowMarker => w.Busy? && w.isSlow
    case ExitMessage => w.Exited?
  }

  /** In this step some worker takes the job, slow work or the exit message. */
  ghost predicate Taken(s: State, t: State, y: Item) {
    exists k :: 0 <= k < |s.workers| && k < |t.workers| && t.workers[k] != s.workers[k] && Takes(t.workers[k], y)
  }

  /** Another worker is at most woken up. */
  ghost predicate OnlyWoken(ws: seq<Worker>, vs: seq<Worker>, i: nat) {
    |vs| == |ws| && forall k :: 0 <= k < |ws| && k != i ==> vs[k] == ws[k] || vs[k].Woken?
  }

  lemma {:induction false} ServeWorkers(s: State, i: nat, pick: nat)
    requires i < |s.workers| && MarkersOnce(s.wq)
    ensures OnlyWoken(s.workers, Serve(s, i, pick).workers, i)
    decreases |s.wq|, s.wq != [] && s.wq[0] == SlowMarker
  {
    RoundProgress(s, i, pick);
    var (t, again) := Round(s, i, pick);
    if again {
      TailMarkers(s.wq);
      ServeWorkers(t, i, pick);
    }
  }

  /** One round keeps what is ahead of others in the main queue ahead, unless it is taken. */
  lemma RoundAhead(s: State, i: nat, pick: nat, a: Req, ys: set<Item>)
    requires i < |s.workers| && s.workers[i].Ready? && Ahead(s.wq, Job(a), ys) && Job(a) !in ys
    ensures var (t, again) := Round(s, i, pick);
      && |t.workers| == |s.workers|
      && (again ==> t.workers == s.workers && Ahead(t.wq, Job(a), ys))
      && (!again ==> t.workers[i] == Busy(a, false) || Ahead(t.wq, Job(a), ys))
      && (!again ==> forall y :: y in ys ==> !Takes(t.workers[i], y))
  {
    var q: nat :| AheadAt(s.wq, Job(a), ys, q);
    if !MustWait(s) && s.wq[0] != Job(a) {
      AheadTail(s.wq, Job(a), ys);
      AheadAppend(s.wq[1..], Job(a), ys, [SlowMarker]);
    }
  }

  lemma {:induction false} ServeAhead(s: State, i: nat, pick: nat, a: Req, ys: set<Item>)
    requires i < |s.workers| && s.workers[i].Ready? && MarkersOnce(s.wq)
    requires Ahead(s.wq, Job(a), ys) && Job(a) !in ys
    ensures var t := Serve(s, i, pick);
      && |t.workers| == |s.workers|
      && (t.workers[i] == Busy(a, false) || Ahead(t.wq, Job(a), ys))
      && forall y :: y in ys ==> !Takes(t.workers[i], y)
    decreases |s.wq|, s.wq != [] && s.wq[0] == SlowMarker
  {
    RoundProgress(s, i, pick);
    RoundAhead(s, i, pick, a, ys);
    var (t, again) := Round(s, i, pick);
    if again {
      TailMarkers(s.wq);
      ServeAhead(t, i, pick, a, ys);
    }
  }

  /** The same for the slow queue. */
  lemma {:induction false} ServeSlowAhead(s: State, i: nat, pick: nat, a: Req, bs: set<Req>)
    requires i < |s.workers| && s.workers[i].Ready? && MarkersOnce(s.wq)
    requires Ahead(s.slow, a, bs) && a !in bs
    ensures var t := Serve(s, i, pick);
      && |t.workers| == |s.workers|
      && (t.workers[i] == Busy(a, true) || Ahead(t.slow, a, bs))
      && forall b :: b in bs ==> t.workers[i] != Busy(b, true)
    decreases |s.wq|, s.wq != [] && s.wq[0] == SlowMarker
  {
    RoundProgress(s, i, pick);
    var (t, again) := Round(s, i, pick);
    var q: nat :| AheadAt(s.slow, a, bs, q);
    if s.slow[0] != a {
      AheadTail(s.slow, a, bs);
    }
    if again {
      TailMarkers(s.wq);
      ServeSlowAhead(t, i, pick, a, bs);
    }
  }

  /** Behind a slow request that is taken, the marker is at the end of the main queue or not in it. */
  lemma {:induction false} ServeMarkerLast(s: State, i: nat, pick: nat, x: Item)
    requires i < |s.workers| && s.workers[i].Ready? && MarkersOnce(s.wq)
    ensures var t := Serve(s, i, pick);
      i < |t.workers| && (Takes(t.workers[i], SlowMarker) && x in t.wq && x != SlowMarker ==> Ahead(t.wq, x, {SlowMarker}))
    decreases |s.wq|, s.wq != [] && s.wq[0] == SlowMarker
  {
    RoundProgress(s, i, pick);
    var (t, again) := Round(s, i, pick);
    if again {
      TailMarkers(s.wq);
      ServeMarkerLast(t, i, pick, x);
    } else if Takes(t.workers[i], SlowMarker) && x in t.wq && x != SlowMarker {
      TailMarkers(s.wq);
      var rest := s.wq[1..];
      AheadNew(rest, x, {SlowMarker});
      AheadAppend(rest, x, {SlowMarker}, [SlowMarker]);
    }
  }

  // ----- One step -----

  ghost predicate SlowTaken(s: State, t: State, r: Req) {
    exists k :: 0 <= k < |s.workers| && k < |t.workers| && t.workers[k] != s.workers[k] && t.workers[k] == Busy(r, true)
  }

  lemma LockTakesSlow(s: State, i: nat, pick: nat, r: Req)
    requires Enabled(s, LockStep(i, pick))
    ensures var t := Next(s, LockStep(i, pick));
      |t.workers| == |s.workers| && (SlowTaken(s, t, r) ==> t.workers[i] == Busy(r, true))
  {
    ServeWorkers(Locked(s, i), i, pick);
  }

  lemma LockTakes(s: State, i: nat, pick: nat, y: Item)
    requires Enabled(s, LockStep(i, pick))
    ensures var t := Next(s, LockStep(i, pick));
      && |t.workers| == |s.workers|
      && (Taken(s, t, y) ==> Takes(t.workers[i], y))
  {
    ServeWorkers(Locked(s, i), i, pick);
  }

  /** What the other steps do to the workers is not to take anything. */
  lemma OnlyLocksTake(s: State, step: Step, y: Item)
    requires Enabled(s, step) && !step.LockStep?
    ensures !Taken(s, Next(s, step), y)
  {}

  lemma OnlyLocksStart(s: State, step: Step, r: Req)
    requires Enabled(s, step) && !step.LockStep?
    ensures WithWorker(Next(s, step), r) ==> WithWorker(s, r)
  {
    var t := Next(s, step);
    if WithWorker(t, r) {
      var k :| 0 <= k < |t.workers| && t.workers[k].Busy? && t.workers[k].r == r;
      assert s.workers[k] == t.workers[k];
    }
  }

  lemma CancelledStay(s: State, step: Step)
    requires Enabled(s, step)
    ensures s.book.cancelled <= Next(s, step).book.cancelled
    ensures forall r :: r in s.book.reqs ==> r in Next(s, step).book.reqs
  {
    if step.LockStep? {
      ServeBook(Locked(s, step.i), step.i, step.pick);
    }
  }

  lemma {:induction false} ServeBook(s: State, i: nat, pick: nat)
    requires i < |s.workers| && MarkersOnce(s.wq)
    ensures var b := Serve(s, i, pick).book;
      && b.cancelled == s.book.cancelled && b.reqs.Keys == s.book.reqs.Keys
      && forall r :: r in s.book.reqs ==> b.reqs[r].kind == s.book.reqs[r].kind && b.reqs[r].loop == s.book.reqs[r].loop
    decreases |s.wq|, s.wq != [] && s.wq[0] == SlowMarker
  {
    RoundProgress(s, i, pick);
    var (t, again) := Round(s, i, pick);
    if again {
      TailMarkers(s.wq);
      ServeBook(t, i, pick);
    }
  }

  /** Kind and loop of a request are set once. */
  lemma KindStays(s: State, step: Step, r: Req)
    requires Enabled(s, step) && r in s.book.reqs
    ensures var b := Next(s, step).book;
      r in b.reqs && b.reqs[r].kind == s.book.reqs[r].kind && b.reqs[r].loop == s.book.reqs[r].loop
  {
    if step.LockStep? {
      ServeBook(Locked(s, step.i), step.i, step.pick);
    }
  }

  /** A step takes nothing that stands behind a queued job, which stays there unless it is taken or cancelled. */
  lemma NextAhead(s: State, step: Step, a: Req, ys: set<Item>)
    requires Inv(s) && Enabled(s, step) && Ahead(s.wq, Job(a), ys) && Job(a) !in ys
    ensures var t := Next(s, step);
      && (Ahead(t.wq, Job(a), ys) || WithWorker(t, a) || a in t.book.cancelled)
      && forall y :: y in ys ==> !Taken(s, t, y)
  {
    var t := Next(s, step);
    if step.LockStep? {
      var i := step.i;
      ServeAhead(Locked(s, i), i, step.pick, a, ys);
      forall y | y in ys ensures !Taken(s, t, y) {
        LockTakes(s, i, step.pick, y);
      }
    } else {
      forall y | y in ys ensures !Taken(s, t, y) {
        OnlyLocksTake(s, step, y);
      }
      QueueChanges(s, step, a, ys);
    }
  }

  lemma QueueChanges(s: State, step: Step, a: Req, ys: set<Item>)
    requires Enabled(s, step) && !step.LockStep? && Ahead(s.wq, Job(a), ys)
    ensures var t := Next(s, step); Ahead(t.wq, Job(a), ys) || a in t.book.cancelled
  {
    match step
    case SubmitStep(r, _, _, _) =>
      AheadAppend(s.wq, Job(a), ys, [SlowMarker]);
      AheadAppend(s.wq, Job(a), ys, [Job(r)]);
    case ExitStep(_) => AheadAppend(s.wq, Job(a), ys, [ExitMessage]);
    case CancelStep(r, _) =>
      if r != a {
        assert [] + s.wq == s.wq && [] + Remove(s.wq, Job(r)) == Remove(s.wq, Job(r));
        AheadRemove([], s.wq, Job(a), ys, Job(r));
      }
    case _ =>
  }

  /** The same for the slow queue. */
  lemma NextSlowAhead(s: State, step: Step, a: Req, bs: set<Req>)
    requires Inv(s) && Enabled(s, step) && Ahead(s.slow, a, bs) && a !in bs
    ensures var t := Next(s, step);
      && (Ahead(t.slow, a, bs) || WithWorker(t, a) || a in t.book.cancelled)
      && forall b :: b in bs ==> !SlowTaken(s, t, b)
  {
    var t := Next(s, step);
    if step.LockStep? {
      var i := step.i;
      ServeSlowAhead(Locked(s, i), i, step.pick, a, bs);
      forall b | b in bs ensures !SlowTaken(s, t, b) {
        LockTakesSlow(s, i, step.pick, b);
      }
      assert t.workers[i] == Busy(a, true) ==> WithWorker(t, a);
    } else {
      OnlyLocksTakeSlow(s, step, bs);
      SlowChanges(s, step, a, bs);
    }
  }

  lemma OnlyLocksTakeSlow(s: State, step: Step, bs: set<Req>)
    requires Enabled(s, step) && !step.LockStep?
    ensures forall b :: b in bs ==> !SlowTaken(s, Next(s, step), b)
  {}

  lemma SlowChanges(s: State, step: Step, a: Req, bs: set<Req>)
    requires Enabled(s, step) && !step.LockStep? && Ahead(s.slow, a, bs)
    ensures var t := Next(s, step); Ahead(t.slow, a, bs) || a in t.book.cancelled
  {
    match step
    case SubmitStep(r, _, _, _) => AheadAppend(s.slow, a, bs, [r]);
    case CancelStep(r, _) =>
      if r != a {
        assert [] + s.slow == s.slow && [] + Remove(s.slow, r) == Remove(s.slow, r);
        AheadRemove([], s.slow, a, bs, r);
      }
    case _ =>
  }

  // ----- Runs -----

  /** Some worker runs the request at a state after the k-th, up to the m-th. */
  ghost predicate Started(states: seq<State>, k: nat, m: nat, a: Req) {
    exists n :: k < n <= m && n < |states| && WithWorker(states[n], a)
  }

  lemma StartedLater(states: seq<State>, k: nat, m: nat, a: Req)
    requires m + 1 < |states| && k <= m
    ensures Started(states, k, m, a) ==> Started(states, k, m + 1, a)
    ensures WithWorker(states[m + 1], a) ==> Started(states, k, m + 1, a)
  {}

  lemma StepAhead(states: seq<State>, steps: seq<Step>, m: nat, a: Req, ys: set<Item>)
    requires IsRun(states, steps) && Inv(states[0]) && m < |steps| && Job(a) !in ys
    ensures a in states[m].book.cancelled ==> a in states[m + 1].book.cancelled
    ensures Ahead(states[m].wq, Job(a), ys) ==>
      (Ahead(states[m + 1].wq, Job(a), ys) || WithWorker(states[m + 1], a) || a in states[m + 1].book.cancelled)
      && forall y :: y in ys ==> !Taken(states[m], states[m + 1], y)
  {
    RunKeepsInv(states, steps, m);
    assert StepAt(states, steps, m);
    CancelledStay(states[m], steps[m]);
    if Ahead(states[m].wq, Job(a), ys) {
      NextAhead(states[m], steps[m], a, ys);
    }
  }

  lemma StepSlowAhead(states: seq<State>, steps: seq<Step>, m: nat, a: Req, bs: set<Req>)
    requires IsRun(states, steps) && Inv(states[0]) && m < |steps| && a !in bs
    ensures a in states[m].book.cancelled ==> a in states[m + 1].book.cancelled
    ensures Ahead(states[m].slow, a, bs) ==>
      (Ahead(states[m + 1].slow, a, bs) || WithWorker(states[m + 1], a) || a in states[m + 1].book.cancelled)
      && forall b :: b in bs ==> !SlowTaken(states[m], states[m + 1], b)
  {
    RunKeepsInv(states, steps, m);
    assert StepAt(states, steps, m);
    CancelledStay(states[m], steps[m]);
    if Ahead(states[m].slow, a, bs) {
      NextSlowAhead(states[m], steps[m], a, bs);
    }
  }

  lemma {:induction false} RunAhead(states: seq<State>, steps: seq<Step>, k: nat, m: nat, a: Req, ys: set<Item>)
    requires IsRun(states, steps) && Inv(states[0]) && k <= m <= |steps|
    requires Ahead(states[k].wq, Job(a), ys) && Job(a) !in ys && a !in states[m].book.cancelled
    ensures Ahead(states[m].wq, Job(a), ys) || Started(states, k, m, a)
    decreases m
  {
    if k < m {
      StepAhead(states, steps, m - 1, a, ys);
      RunAhead(states, steps, k, m - 1, a, ys);
      StartedLater(states, k, m - 1, a);
    }
  }

  lemma {:induction false} RunSlowAhead(states: seq<State>, steps: seq<Step>, k: nat, m: nat, a: Req, bs: set<Req>)
    requires IsRun(states, steps) && Inv(states[0]) && k <= m <= |steps|
    requires Ahead(states[k].slow, a, bs) && a !in bs && a !in states[m].book.cancelled
    ensures Ahead(states[m].slow, a, bs) || Started(states, k, m, a)
    decreases m
  {
    if k < m {
      StepSlowAhead(states, steps, m - 1, a, bs);
      RunSlowAhead(states, steps, k, m - 1, a, bs);
      StartedLater(states, k, m - 1, a);
    }
  }

  lemma {:induction false} KnownStays(states: seq<State>, steps: seq<Step>, k: nat, m: nat, r: Req)
    requires IsRun(states, steps) && k <= m <= |steps| && r in states[k].book.reqs
    ensures r in states[m].book.reqs
    ensures states[m].book.reqs[r].kind == states[k].book.reqs[r].kind && states[m].book.reqs[r].loop == states[k].book.reqs[r].loop
    decreases m
  {
    if k < m {
      KnownStays(states, steps, k, m - 1, r);
      assert StepAt(states, steps, m - 1);
      KindStays(states[m - 1], steps[m - 1], r);
    }
  }

  /** The request is submitted in step i. */
  ghost predicate SubmittedAt(steps: seq<Step>, i: nat, r: Req, slow: bool) {
    i < |steps| && steps[i].SubmitStep? && steps[i].r == r && (steps[i].kind == SlowIo <==> slow)
  }

  /** A worker takes the request in step m. */
  ghost predicate StartsAt(states: seq<State>, m: nat, r: Req) {
    m + 1 < |states| && WithWorker(states[m + 1], r) && !WithWorker(states[m], r)
  }

  lemma JustSubmitted(states: seq<State>, steps: seq<Step>, i: nat, r: Req, slow: bool)
    requires IsRun(states, steps) && SubmittedAt(steps, i, r, slow)
    ensures r in states[i + 1].book.reqs && (states[i + 1].book.reqs[r].kind == SlowIo <==> slow)
    ensures r !in states[i].book.reqs
    ensures if slow then r in states[i + 1].slow else states[i + 1].wq == states[i].wq + [Job(r)]
  {
    assert StepAt(states, steps, i);
  }

  lemma UnknownIsNowhere(s: State, b: Req)
    requires Inv(s) && b !in s.book.reqs
    ensures Job(b) !in s.wq && b !in s.slow && !WithWorker(s, b)
  {
    assert forall k :: 0 <= k < |s.workers| ==> s.workers[k] in s.workers;
  }

  /** Nothing is known of a request before it is submitted. */
  lemma NotYetQueued(states: seq<State>, steps: seq<Step>, k: nat, j: nat, b: Req, slow: bool)
    requires IsRun(states, steps) && Inv(states[0]) && SubmittedAt(steps, j, b, slow) && k <= j
    ensures Job(b) !in states[k].wq && b !in states[k].slow && !WithWorker(states[k], b)
  {
    RunKeepsInv(states, steps, k);
    JustSubmitted(states, steps, j, b, slow);
    if b in states[k].book.reqs {
      KnownStays(states, steps, k, j, b);
    } else {
      UnknownIsNowhere(states[k], b);
    }
  }

  /** A request that a worker takes is taken as what it was submitted as. */
  lemma StartTakes(states: seq<State>, steps: seq<Step>, j: nat, m: nat, b: Req, slow: bool)
    requires IsRun(states, steps) && Inv(states[0]) && SubmittedAt(steps, j, b, slow) && StartsAt(states, m, b)
    ensures j < m
    ensures Taken(states[m], states[m + 1], if slow then SlowMarker else Job(b))
    ensures slow ==> SlowTaken(states[m], states[m + 1], b)
  {
    if m < j {
      NotYetQueued(states, steps, m + 1, j, b, slow);
    }
    StartsAfterSubmit(states, steps, j, m, b, slow);
    JustSubmitted(states, steps, j, b, slow);
    KnownStays(states, steps, j + 1, m + 1, b);
    RunKeepsInv(states, steps, m);
    assert StepAt(states, steps, m);
    NewlyBusy(states[m], steps[m], b);
  }

  lemma StartsAfterSubmit(states: seq<State>, steps: seq<Step>, j: nat, m: nat, b: Req, slow: bool)
    requires IsRun(states, steps) && SubmittedAt(steps, j, b, slow) && StartsAt(states, m, b)
    ensures m != j
  {
    if m == j {
      assert StepAt(states, steps, m);
      OnlyLocksStart(states[m], steps[m], b);
    }
  }

  lemma NewlyBusy(s: State, step: Step, b: Req)
    requires Inv(s) && Enabled(s, step) && WithWorker(Next(s, step), b) && !WithWorker(s, b) && b in Next(s, step).book.reqs
    ensures Taken(s, Next(s, step), if Next(s, step).book.reqs[b].kind == SlowIo then SlowMarker else Job(b))
    ensures Next(s, step).book.reqs[b].kind == SlowIo ==> SlowTaken(s, Next(s, step), b)
  {
    var t := Next(s, step);
    NextKeepsInv(s, step);
    SameWorkers(s, step);
    var k :| 0 <= k < |t.workers| && t.workers[k].Busy? && t.workers[k].r == b;
    BusyKind(t, k);
    assert s.workers[k] != t.workers[k];
  }

  lemma BusyKind(t: State, k: nat)
    requires Inv(t) && k < |t.workers| && t.workers[k].Busy?
    ensures var w := t.workers[k]; w.r in t.book.reqs && (w.isSlow <==> t.book.reqs[w.r].kind == SlowIo)
  {
    assert t.workers[k] in t.workers;
  }

  lemma SameWorkers(s: State, step: Step)
    requires Enabled(s, step)
    ensures |Next(s, step).workers| == |s.workers|
  {
    if step.LockStep? {
      ServeWorkers(Locked(s, step.i), step.i, step.pick);
    }
  }

  lemma SubmittedOnce(states: seq<State>, steps: seq<Step>, i: nat, j: nat, a: Req, b: Req, slow: bool)
    requires IsRun(states, steps) && SubmittedAt(steps, i, a, slow) && SubmittedAt(steps, j, b, slow) && i < j
    ensures a != b
  {
    JustSubmitted(states, steps, i, a, slow);
    JustSubmitted(states, steps, j, b, slow);
    KnownStays(states, steps, i + 1, j, a);
  }

  /** First in, first out: of two requests of one queue, the one submitted first is taken first, unless it was
      cancelled. */
  lemma TakenInOrder(states: seq<State>, steps: seq<Step>, i: nat, j: nat, m: nat, a: Req, b: Req, slow: bool)
    requires IsRun(states, steps) && Init(states[0])
    requires SubmittedAt(steps, i, a, slow) && SubmittedAt(steps, j, b, slow) && i < j
    requires StartsAt(states, m, b) && a !in states[m].book.cancelled
    ensures Started(states, i, m, a)
  {
    InitInv(states[0]);
    StartTakes(states, steps, j, m, b, slow);
    JustSubmitted(states, steps, i, a, slow);
    NotYetQueued(states, steps, i + 1, j, b, slow);
    SubmittedOnce(states, steps, i, j, a, b, slow);
    if slow {
      AheadNew(states[i + 1].slow, a, {b});
      RunSlowAhead(states, steps, i + 1, m, a, {b});
      StepSlowAhead(states, steps, m, a, {b});
    } else {
      assert Job(a) in states[i + 1].wq;
      AheadNew(states[i + 1].wq, Job(a), {Job(b)});
      RunAhead(states, steps, i + 1, m, a, {Job(b)});
      StepAhead(states, steps, m, a, {Job(b)});
    }
  }

  /** What is queued before the marker or the exit message comes before slow work or before a worker leaves. */
  lemma QueuedComesFirst(states: seq<State>, steps: seq<Step>, i: nat, m: nat, a: Req, y: Item)
    requires IsRun(states, steps) && Init(states[0])
    requires SubmittedAt(steps, i, a, false) && i < m < |steps| && !y.Job? && y !in states[i].wq
    requires Taken(states[m], states[m + 1], y) && a !in states[m].book.cancelled
    ensures Started(states, i, m, a)
  {
    InitInv(states[0]);
    JustSubmitted(states, steps, i, a, false);
    AheadNew(states[i + 1].wq, Job(a), {y});
    RunAhead(states, steps, i + 1, m, a, {y});
    StepAhead(states, steps, m, a, {y});
  }

  lemma SlowMovesMarker(s: State, step: Step, x: Item)
    requires Inv(s) && Enabled(s, step) && Taken(s, Next(s, step), SlowMarker)
    requires x in Next(s, step).wq && x != SlowMarker
    ensures Ahead(Next(s, step).wq, x, {SlowMarker})
  {
    if step.LockStep? {
      LockTakes(s, step.i, step.pick, SlowMarker);
      ServeMarkerLast(Locked(s, step.i), step.i, step.pick, x);
    } else {
      OnlyLocksTake(s, step, SlowMarker);
    }
  }

  lemma StepMovesMarker(states: seq<State>, steps: seq<Step>, m: nat, x: Item)
    requires IsRun(states, steps) && Inv(states[0]) && m < |steps| && Taken(states[m], states[m + 1], SlowMarker)
    requires x in states[m + 1].wq && x != SlowMarker
    ensures Ahead(states[m + 1].wq, x, {SlowMarker})
  {
    RunKeepsInv(states, steps, m);
    assert StepAt(states, steps, m);
    SlowMovesMarker(states[m], steps[m], x);
  }

  /** One slow request per pass: between two of them, every fast request queued before the first is taken, unless
      it was cancelled. */
  lemma SlowTakesTurns(states: seq<State>, steps: seq<Step>, i: nat, m: nat, n: nat, a: Req)
    requires IsRun(states, steps) && Init(states[0])
    requires SubmittedAt(steps, i, a, false) && i < m < n < |steps|
    requires Taken(states[m], states[m + 1], SlowMarker) && Taken(states[n], states[n + 1], SlowMarker)
    requires a !in states[n].book.cancelled
    ensures Started(states, i, n, a)
  {
    InitInv(states[0]);
    JustSubmitted(states, steps, i, a, false);
    AheadNew(states[i + 1].wq, Job(a), {});
    NotCancelledBefore(states, steps, m + 1, n, a);
    RunAhead(states, steps, i + 1, m + 1, a, {});
    if Ahead(states[m + 1].wq, Job(a), {}) {
      var q: nat :| AheadAt(states[m + 1].wq, Job(a), {}, q);
      StepMovesMarker(states, steps, m, Job(a));
      RunAhead(states, steps, m + 1, n, a, {SlowMarker});
      StepAhead(states, steps, n, a, {SlowMarker});
    }
  }

  lemma {:induction false} NotCancelledBefore(states: seq<State>, steps: seq<Step>, k: nat, m: nat, a: Req)
    requires IsRun(states, steps) && k <= m <= |steps| && a !in states[m].book.cancelled
    ensures a !in states[k].book.cancelled
    decreases m
  {
    if k < m {
      assert StepAt(states, steps, m - 1);
      CancelledStay(states[m - 1], steps[m - 1]);
      NotCancelledBefore(states, steps, k, m - 1, a);
    }
  }

  /** A worker goes to sleep only when nothing is queued, or only slow work that half of the threads already do. */
  lemma SleepsOnlyIf(s: State, i: nat, pick: nat)
    requires Inv(s) && Enabled(s, LockStep(i, pick))
    ensures var t := Next(s, LockStep(i, pick));
      i < |t.workers| && (t.workers[i].Waiting? ==>
        (t.wq == [] && t.slow == []) || (t.wq == [SlowMarker] && 2 * t.slowRunning >= |t.workers|))
  {
    LockKeepsInv(s, i, pick);
    LockTakes(s, i, pick, SlowMarker);
    ServeSleeps(Locked(s, i), i, pick);
  }

  lemma {:induction false} ServeSleeps(s: State, i: nat, pick: nat)
    requires i < |s.workers| && s.workers[i].Ready? && MarkersOnce(s.wq)
    ensures var t := Serve(s, i, pick);
      i < |t.workers| && (t.workers[i].Waiting? ==> t.wq == [] || (t.wq == [SlowMarker] && 2 * t.slowRunning >= |t.workers|))
    decreases |s.wq|, s.wq != [] && s.wq[0] == SlowMarker
  {
    RoundProgress(s, i, pick);
    var (t, again) := Round(s, i, pick);
    if again {
      TailMarkers(s.wq);
      ServeSleeps(t, i, pick);
    }
  }

  // ----- Completion -----

  function Reqs(done: seq<Outcome>): (r: seq<Req>)
    ensures |r| == |done| && forall i :: 0 <= i < |r| ==> r[i] == done[i].r
  {
    seq(|done|, i requires 0 <= i < |done| => done[i].r)
  }

  /** Everything reported so far, and what the loop will report next, in order. */
  function Line(s: State, l: nat): seq<Req>
    requires l < |s.loops|
  {
    Reqs(s.done) + (s.loops[l].finishing + s.loops[l].completed)
  }

  lemma SameLoops(s: State, step: Step)
    requires Enabled(s, step)
    ensures |Next(s, step).loops| == |s.loops|
  {
    if step.LockStep? {
      ServeLoops(Locked(s, step.i), step.i, step.pick);
    }
  }

  lemma {:induction false} ServeLoops(s: State, i: nat, pick: nat)
    requires i < |s.workers| && MarkersOnce(s.wq)
    ensures Serve(s, i, pick).loops == s.loops && Serve(s, i, pick).done == s.done
    decreases |s.wq|, s.wq != [] && s.wq[0] == SlowMarker
  {
    RoundProgress(s, i, pick);
    var (t, again) := Round(s, i, pick);
    if again {
      TailMarkers(s.wq);
      ServeLoops(t, i, pick);
    }
  }

  lemma NextLine(s: State, step: Step, l: nat, a: Req, bs: set<Req>)
    requires Inv(s) && Enabled(s, step) && l < |s.loops| == |Next(s, step).loops| && Ahead(Line(s, l), a, bs)
    requires forall b :: b in bs ==> b in s.book.reqs && s.book.reqs[b].loop == l
    ensures a in Next(s, step).book.cancelled || Ahead(Line(Next(s, step), l), a, bs)
  {
    match step
    case FinishStep(i) => FinishLine(s, i, l, a, bs);
    case CancelStep(r, k) => CancelLine(s, r, k, l, a, bs);
    case CancelEndStep(k) => CancelEndLine(s, k, l, a, bs);
    case DoneStep(k) => DoneLine(s, k, l, a, bs);
    case _ => SameLine(s, step, l);
  }

  lemma SameLine(s: State, step: Step, l: nat)
    requires Enabled(s, step) && l < |s.loops| && (step.SubmitStep? || step.LockStep? || step.SpuriousStep? || step.TakeStep? || step.ExitStep?)
    ensures l < |Next(s, step).loops| && Line(Next(s, step), l) == Line(s, l)
  {
    if step.LockStep? {
      ServeLoops(Locked(s, step.i), step.i, step.pick);
    }
  }

  lemma CancelEndLine(s: State, k: nat, l: nat, a: Req, bs: set<Req>)
    requires Enabled(s, CancelEndStep(k)) && l < |s.loops| && Ahead(Line(s, l), a, bs)
    ensures Ahead(Line(CancelEnd(s, k), l), a, bs)
  {
    if k == l {
      LineAppend(s, CancelEnd(s, k), l, s.loops[l].cancelling.value, a, bs);
    }
  }

  lemma LineAppend(s: State, t: State, l: nat, r: Req, a: Req, bs: set<Req>)
    requires l < |s.loops| && l < |t.loops| && t.done == s.done && t.loops[l].finishing == s.loops[l].finishing
    requires t.loops[l].completed == s.loops[l].completed + [r] && Ahead(Line(s, l), a, bs)
    ensures Ahead(Line(t, l), a, bs)
  {
    AheadAppend(Line(s, l), a, bs, [r]);
    assert Line(t, l) == Line(s, l) + [r];
  }

  lemma FinishLine(s: State, i: nat, l: nat, a: Req, bs: set<Req>)
    requires Enabled(s, FinishStep(i)) && l < |s.loops| && Ahead(Line(s, l), a, bs)
    ensures Ahead(Line(FinishWork(s, i), l), a, bs)
  {
    var r := s.workers[i].r;
    if r in s.book.reqs && s.book.reqs[r].loop == l {
      LineAppend(s, FinishWork(s, i), l, r, a, bs);
    }
  }

  lemma CancelLine(s: State, r: Req, k: nat, l: nat, a: Req, bs: set<Req>)
    requires Enabled(s, CancelStep(r, k)) && l < |s.loops| && Ahead(Line(s, l), a, bs)
    ensures a in CancelBegin(s, r, k).book.cancelled || Ahead(Line(CancelBegin(s, r, k), l), a, bs)
  {
    if Cancellable(s, r) && r != a && k == l {
      var loop := s.loops[l];
      AheadRemove(Reqs(s.done), loop.finishing + loop.completed, a, bs, r);
      RemoveConcat(loop.finishing, loop.completed, r);
    }
  }

  lemma {:induction false} RemoveConcat<T>(p: seq<T>, q: seq<T>, x: T)
    ensures Remove(p + q, x) == Remove(p, x) + Remove(q, x)
  {
    if q == [] {
      assert p + q == p;
    } else {
      assert (p + q)[..|p + q| - 1] == p + q[..|q| - 1];
      RemoveConcat(p, q[..|q| - 1], x);
    }
  }

  lemma DoneLine(s: State, k: nat, l: nat, a: Req, bs: set<Req>)
    requires Inv(s) && Enabled(s, DoneStep(k)) && l < |s.loops| && Ahead(Line(s, l), a, bs)
    requires forall b :: b in bs ==> b in s.book.reqs && s.book.reqs[b].loop == l
    ensures Ahead(Line(CallDone(s, k), l), a, bs)
  {
    var t, r := CallDone(s, k), s.loops[k].finishing[0];
    assert Reqs(t.done) == Reqs(s.done) + [r];
    if k == l {
      assert Line(t, l) == Line(s, l);
    } else {
      assert LoopOk(s.book, s.loops[k], k) && r in s.loops[k].finishing;
      AheadInsert(Reqs(s.done), r, s.loops[l].finishing + s.loops[l].completed, a, bs);
    }
  }

  ghost predicate KnownAt(s: State, l: nat, bs: set<Req>) {
    forall b :: b in bs ==> b in s.book.reqs && s.book.reqs[b].loop == l
  }

  lemma StepLine(states: seq<State>, steps: seq<Step>, m: nat, l: nat, a: Req, bs: set<Req>)
    requires IsRun(states, steps) && Inv(states[0]) && m < |steps| && l < |states[m].loops| && KnownAt(states[m], l, bs)
    ensures a in states[m].book.cancelled ==> a in states[m + 1].book.cancelled
    ensures l < |states[m + 1].loops| && KnownAt(states[m + 1], l, bs)
    ensures Ahead(Line(states[m], l), a, bs) ==> a in states[m + 1].book.cancelled || Ahead(Line(states[m + 1], l), a, bs)
  {
    RunKeepsInv(states, steps, m);
    assert StepAt(states, steps, m);
    CancelledStay(states[m], steps[m]);
    SameLoops(states[m], steps[m]);
    forall b | b in bs ensures b in states[m + 1].book.reqs && states[m + 1].book.reqs[b].loop == l {
      KindStays(states[m], steps[m], b);
    }
    if Ahead(Line(states[m], l), a, bs) {
      NextLine(states[m], steps[m], l, a, bs);
    }
  }

  lemma {:induction false} RunLine(states: seq<State>, steps: seq<Step>, k: nat, m: nat, l: nat, a: Req, bs: set<Req>)
    requires IsRun(states, steps) && Inv(states[0]) && k <= m <= |steps| && l < |states[k].loops| && Ahead(Line(states[k], l), a, bs)
    requires KnownAt(states[k], l, bs) && a !in states[m].book.cancelled
    ensures l < |states[m].loops| && Ahead(Line(states[m], l), a, bs) && KnownAt(states[m], l, bs)
    decreases m
  {
    if k < m {
      NotCancelledBefore(states, steps, m - 1, m, a);
      RunLine(states, steps, k, m - 1, l, a, bs);
      StepLine(states, steps, m - 1, l, a, bs);
    }
  }

  /** A worker hands the request back in step i. */
  ghost predicate FinishedAt(states: seq<State>, steps: seq<Step>, i: nat, r: Req) {
    && i < |steps| && i < |states| && steps[i].FinishStep?
    && steps[i].i < |states[i].workers| && states[i].workers[steps[i].i].Busy? && states[i].workers[steps[i].i].r == r
  }

  /** Of two requests of one loop, the one whose work is done first is reported first, unless it was cancelled. */
  lemma ReportedInOrder(states: seq<State>, steps: seq<Step>, i: nat, j: nat, m: nat, a: Req, b: Req, l: nat, q: nat)
    requires IsRun(states, steps) && Init(states[0]) && FinishedAt(states, steps, i, a) && FinishedAt(states, steps, j, b) && i < j < m <= |steps|
    requires a in states[i].book.reqs && states[i].book.reqs[a].loop == l && b in states[j].book.reqs && states[j].book.reqs[b].loop == l
    requires q < |states[m].done| && states[m].done[q].r == b && a !in states[m].book.cancelled
    ensures exists p :: 0 <= p < q && states[m].done[p].r == a
  {
    InitInv(states[0]);
    NotCancelledBefore(states, steps, j, m, a);
    FirstInLine(states, steps, i, j, a, b, l);
    RunLine(states, steps, j, m, l, a, {b});
    assert Line(states[m], l)[q] == b;
    var p := FirstBefore(Line(states[m], l), a, b, q);
    assert states[m].done[p].r == a;
  }

  lemma FirstInLine(states: seq<State>, steps: seq<Step>, i: nat, j: nat, a: Req, b: Req, l: nat)
    requires IsRun(states, steps) && Inv(states[0]) && FinishedAt(states, steps, i, a) && FinishedAt(states, steps, j, b) && i < j
    requires a in states[i].book.reqs && states[i].book.reqs[a].loop == l && a !in states[j].book.cancelled
    ensures l < |states[j].loops| && Ahead(Line(states[j], l), a, {b}) && a != b
  {
    RunKeepsInv(states, steps, i);
    HandedBack(states, steps, i, a, l);
    RunLine(states, steps, i + 1, j, l, a, {});
    var e: nat :| AheadAt(Line(states[j], l), a, {}, e);
    RunKeepsInv(states, steps, j);
    NotInLine(states[j], steps[j].i, b, l);
    assert Line(states[j], l)[e] == a;
    AheadNew(Line(states[j], l), a, {b});
  }

  lemma HandedBack(states: seq<State>, steps: seq<Step>, i: nat, a: Req, l: nat)
    requires IsRun(states, steps) && FinishedAt(states, steps, i, a) && Inv(states[i])
    requires a in states[i].book.reqs && states[i].book.reqs[a].loop == l
    ensures l < |states[i + 1].loops| && Ahead(Line(states[i + 1], l), a, {})
  {
    var t := states[i + 1];
    assert StepAt(states, steps, i);
    assert a in t.loops[l].completed by {
      assert t.loops[l].completed == states[i].loops[l].completed + [a];
    }
    AheadNew(Line(t, l), a, {});
  }

  /** A request that a worker runs is not among the completed ones. */
  lemma NotInLine(s: State, i: nat, b: Req, l: nat)
    requires Inv(s) && l < |s.loops| && i < |s.workers| && s.workers[i].Busy? && s.workers[i].r == b
    ensures b !in Line(s, l)
  {
    assert s.workers[i] in s.workers && Running(s.book, b);
    assert LoopOk(s.book, s.loops[l], l);
    forall k | 0 <= k < |s.done| ensures s.done[k].r != b {
      assert s.done[k] in s.done && Reported(s.book, s.done[k]);
    }
  }
}
