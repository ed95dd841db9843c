/** Every step of the worker pool keeps the invariant. */
module ThreadPoolInvariants {
  import opened Keys
  import opened ThreadPool

  // ----- Counting places -----

  lemma TimesAppend<T>(q: seq<T>, x: T, y: T)
    ensures Times(q + [x], y) == Times(q, y) + (if x == y then 1 else 0)
  {
    assert (q + [x])[..|q|] == q;
  }

  lemma {:induction false} TimesHead<T>(q: seq<T>, y: T)
    requires q != []
    ensures Times(q, y) == Times(q[1..], y) + (if q[0] == y then 1 else 0)
  {
    var n := |q| - 1;
    if n > 0 {
      TimesHead(q[..n], y);
      assert q[1..][..n - 1] == q[..n][1..];
    }
  }

  lemma {:induction false} TimesMember<T>(q: seq<T>, y: T)
    ensures Times(q, y) > 0 <==> y in q
  {
    if q != [] {
      TimesMember(q[..|q| - 1], y);
      assert q == q[..|q| - 1] + [q[|q| - 1]];
    }
  }

  lemma {:induction false} RemoveMembers<T>(q: seq<T>, x: T)
    ensures forall y :: y in Remove(q, x) <==> y in q && y != x
  {
    if q != [] {
      RemoveMembers(q[..|q| - 1], x);
      assert q == q[..|q| - 1] + [q[|q| - 1]];
    }
  }

  lemma {:induction false} TimesRemove<T>(q: seq<T>, x: T, y: T)
    ensures Times(Remove(q, x), y) == if x == y then 0 else Times(q, y)
  {
    if q != [] {
      var n := |q| - 1;
      TimesRemove(q[..n], x, y);
      if q[n] != x {
        TimesAppend(Remove(q[..n], x), q[n], y);
      }
    }
  }

  lemma {:induction false} AtWorkersUpdate(ws: seq<Worker>, i: nat, w: Worker, r: Req)
    requires i < |ws|
    ensures AtWorkers(ws[i := w], r) + AtWorker(ws[i], r) == AtWorkers(ws, r) + AtWorker(w, r)
    ensures AtWorker(ws[i], r) <= AtWorkers(ws, r)
  {
    var n := |ws| - 1;
    if i == n {
      assert ws[i := w][..n] == ws[..n];
    } else {
      AtWorkersUpdate(ws[..n], i, w, r);
      assert ws[i := w][..n] == ws[..n][i := w];
    }
  }

  lemma {:induction false} AtLoopsUpdate(ls: seq<Loop>, i: nat, l: Loop, r: Req)
    requires i < |ls|
    ensures AtLoops(ls[i := l], r) + AtLoop(ls[i], r) == AtLoops(ls, r) + AtLoop(l, r)
    ensures AtLoop(ls[i], r) <= AtLoops(ls, r)
  {
    var n := |ls| - 1;
    if i == n {
      assert ls[i := l][..n] == ls[..n];
    } else {
      AtLoopsUpdate(ls[..n], i, l, r);
      assert ls[i := l][..n] == ls[..n][i := l];
    }
  }

  lemma {:induction false} CountsUpdate(ws: seq<Worker>, i: nat, w: Worker)
    requires i < |ws|
    ensures IdleCount(ws[i := w]) + IdleOne(ws[i]) == IdleCount(ws) + IdleOne(w)
    ensures SlowCount(ws[i := w]) + SlowOne(ws[i]) == SlowCount(ws) + SlowOne(w)
    ensures IdleOne(ws[i]) <= IdleCount(ws) && SlowOne(ws[i]) <= SlowCount(ws)
  {
    var n := |ws| - 1;
    if i == n {
      assert ws[i := w][..n] == ws[..n];
    } else {
      CountsUpdate(ws[..n], i, w);
      assert ws[i := w][..n] == ws[..n][i := w];
    }
  }

  lemma FinishedAppend(done: seq<Outcome>, o: Outcome, r: Req)
    ensures Finished(done + [o], r) == Finished(done, r) + (if o.r == r then 1 else 0)
  {
    assert (done + [o])[..|done|] == done;
  }

  lemma {:induction false} FinishedMember(done: seq<Outcome>, o: Outcome)
    requires o in done
    ensures Finished(done, o.r) > 0
  {
    var n := |done| - 1;
    if o != done[n] {
      assert done == done[..n] + [done[n]];
      FinishedMember(done[..n], o);
    }
  }

  // ----- A request that is nowhere -----

  lemma NowhereMeans(s: State, r: Req)
    requires Places(s, r) == 0
    ensures Job(r) !in s.wq && r !in s.slow
    ensures forall w :: w in s.workers && w.Busy? ==> w.r != r
    ensures forall l :: 0 <= l < |s.loops| ==> NotAtLoop(s.loops[l], r)
    ensures forall o :: o in s.done ==> o.r != r
  {
    TimesMember(s.wq, Job(r));
    TimesMember(s.slow, r);
    forall w | w in s.workers && w.Busy? ensures w.r != r {
      var i :| 0 <= i < |s.workers| && s.workers[i] == w;
      AtWorkersUpdate(s.workers, i, w, r);
    }
    forall l | 0 <= l < |s.loops| ensures NotAtLoop(s.loops[l], r) {
      AtLoopsUpdate(s.loops, l, s.loops[l], r);
      TimesMember(s.loops[l].completed, r);
      TimesMember(s.loops[l].finishing, r);
    }
    forall o | o in s.done ensures o.r != r {
      FinishedMember(s.done, o);
    }
  }

  ghost predicate NotAtLoop(l: Loop, r: Req) {
    r !in l.completed && r !in l.finishing && l.cancelling != Some(r)
  }

  ghost predicate SameExcept(b: Book, c: Book, r: Req) {
    && (forall x :: x != r ==> (x in b.reqs <==> x in c.reqs) && (x in b.cancelled <==> x in c.cancelled))
    && (forall x :: x != r && x in b.reqs ==> b.reqs[x] == c.reqs[x])
  }

  /** Records about a request that is nowhere may change. */
  lemma NowhereKeepsPlaced(s: State, book: Book, r: Req)
    requires Placed(s) && Places(s, r) == 0 && SameExcept(s.book, book, r)
    ensures Placed(s.(book := book))
  {
    NowhereMeans(s, r);
    forall l | 0 <= l < |s.loops| ensures LoopOk(book, s.loops[l], l) {
      LoopKept(s.book, book, r, s.loops[l], l);
    }
  }

  lemma LoopKept(b: Book, c: Book, r: Req, loop: Loop, l: nat)
    requires LoopOk(b, loop, l) && NotAtLoop(loop, r) && SameExcept(b, c, r)
    ensures LoopOk(c, loop, l)
  {}

  // ----- Signals and enqueueing -----

  lemma SignalCounts(ws: seq<Worker>, pick: nat)
    ensures forall r :: AtWorkers(Signal(ws, pick), r) == AtWorkers(ws, r)
    ensures IdleCount(Signal(ws, pick)) == IdleCount(ws) && SlowCount(Signal(ws, pick)) == SlowCount(ws)
  {
    if pick < |ws| && ws[pick].Waiting? {
      CountsUpdate(ws, pick, Woken);
      forall r ensures AtWorkers(Signal(ws, pick), r) == AtWorkers(ws, r) {
        AtWorkersUpdate(ws, pick, Woken, r);
      }
    }
  }

  lemma SignalWakes(ws: seq<Worker>, pick: nat)
    requires SignalChoice(ws, pick)
    ensures SomeWaiting(ws) ==> SomeActive(Signal(ws, pick))
    ensures SomeActive(ws) ==> SomeActive(Signal(ws, pick))
  {
    if SomeWaiting(ws) {
      assert Active(Signal(ws, pick)[pick]);
    } else if SomeActive(ws) {
      var j :| 0 <= j < |ws| && Active(ws[j]);
      assert Active(Signal(ws, pick)[j]);
    }
  }

  lemma WaitingIsIdle(ws: seq<Worker>)
    ensures SomeWaiting(ws) ==> IdleCount(ws) > 0
  {
    if SomeWaiting(ws) {
      var j :| 0 <= j < |ws| && ws[j].Waiting?;
      CountsUpdate(ws, j, ws[j]);
    }
  }

  /** Appending an item and signalling: nothing else moves, and someone is awake to see it. */
  lemma EnqueueEffect(s: State, item: Item, pick: nat)
    requires Counted(s) && SignalChoice(s.workers, pick)
    ensures var t := Enqueue(s, item, pick);
      && Counted(t) && Awake(t)
      && (forall r :: Places(t, r) == Places(s, r) + (if item == Job(r) then 1 else 0))
      && (forall w :: w in t.workers ==> w in s.workers || w == Woken)
  {
    SignalCounts(s.workers, pick);
    SignalWakes(s.workers, pick);
    WaitingIsIdle(s.workers);
    forall r ensures Times(s.wq + [item], Job(r)) == Times(s.wq, Job(r)) + (if item == Job(r) then 1 else 0) {
      TimesAppend(s.wq, item, Job(r));
    }
  }

  lemma EnqueuePlaced(s: State, item: Item, pick: nat)
    requires Placed(s) && Counted(s) && SignalChoice(s.workers, pick)
    requires item.Job? ==> Queued(s.book, item.r) && s.book.reqs[item.r].kind != SlowIo
    ensures Placed(Enqueue(s, item, pick))
  {
    EnqueueEffect(s, item, pick);
  }

  lemma EnqueueMarker(s: State, item: Item, pick: nat)
    requires MarkersOnce(s.wq) && (s.markerLinked <==> SlowMarker in s.wq)
    requires item == SlowMarker ==> !s.markerLinked
    ensures var t := Enqueue(s, item, pick);
      MarkersOnce(t.wq) && (t.markerLinked <==> SlowMarker in t.wq) && t.slow == s.slow
      && (SlowMarker in s.wq || item == SlowMarker ==> SlowMarker in t.wq)
  {}

  /** A state that lacks only what Enqueue adds. */
  ghost predicate BeforeEnqueue(s: State, item: Item) {
    && Placed(s) && Counted(s) && BookOk(s)
    && (item.Job? ==> Queued(s.book, item.r) && s.book.reqs[item.r].kind != SlowIo)
    && (forall x :: Places(s, x) == if x in s.book.reqs && item != Job(x) then 1 else 0)
    && MarkersOnce(s.wq) && (s.markerLinked <==> SlowMarker in s.wq)
    && (item == SlowMarker ==> !s.markerLinked)
    && (s.slow != [] ==> SlowMarker in s.wq || item == SlowMarker)
  }

  lemma EnqueueKeepsInv(s: State, item: Item, pick: nat)
    requires BeforeEnqueue(s, item) && SignalChoice(s.workers, pick)
    ensures Inv(Enqueue(s, item, pick))
  {
    EnqueueEffect(s, item, pick);
    EnqueuePlaced(s, item, pick);
    EnqueueMarker(s, item, pick);
  }

  // ----- Submitting -----

  /** The state after the request's fields are set, before it is queued. */
  function Registered(s: State, r: Req, loop: nat, kind: WorkKind): State {
    s.(book := s.book.(reqs := s.book.reqs[r := Request(loop, kind, Callback, true)]))
  }

  lemma RegisteredFacts(s: State, r: Req, loop: nat, kind: WorkKind)
    requires Inv(s) && r !in s.book.reqs && loop < |s.loops|
    ensures var t := Registered(s, r, loop, kind);
      && Placed(t) && Counted(t) && MarkerOk(t) && Awake(t) && Queued(t.book, r)
      && (forall x :: Places(t, x) == if x in s.book.reqs then 1 else 0)
      && BookOk(t)
  {
    var t := Registered(s, r, loop, kind);
    assert r !in t.book.ran && r !in t.book.cancelled;
    NowhereKeepsPlaced(s, t.book, r);
    forall x ensures Places(t, x) == Places(s, x) {}
  }

  lemma SubmitKeepsInv(s: State, r: Req, loop: nat, kind: WorkKind, pick: nat)
    requires Inv(s) && Enabled(s, SubmitStep(r, loop, kind, pick))
    ensures Inv(Submit(s, r, loop, kind, pick))
  {
    var t := Registered(s, r, loop, kind);
    RegisteredFacts(s, r, loop, kind);
    if kind == SlowIo {
      SubmitSlow(t, r, pick);
    } else {
      EnqueueKeepsInv(t, Job(r), pick);
    }
  }

  lemma SubmitSlow(t: State, r: Req, pick: nat)
    requires Placed(t) && Counted(t) && MarkerOk(t) && Awake(t) && BookOk(t)
    requires Queued(t.book, r) && t.book.reqs[r].kind == SlowIo && SignalChoice(t.workers, pick)
    requires forall x :: Places(t, x) == if x in t.book.reqs && x != r then 1 else 0
    ensures var u := t.(slow := t.slow + [r]);
      Inv(if u.markerLinked then u else Enqueue(u, SlowMarker, pick))
  {
    var u := t.(slow := t.slow + [r]);
    AppendSlow(t, r);
    if !u.markerLinked {
      EnqueueKeepsInv(u, SlowMarker, pick);
    }
  }

  lemma AppendSlow(t: State, r: Req)
    requires Placed(t) && Queued(t.book, r) && t.book.reqs[r].kind == SlowIo
    requires Counted(t) && Awake(t) && BookOk(t)
    ensures var u := t.(slow := t.slow + [r]);
      && Placed(u) && Counted(u) && Awake(u) && BookOk(u)
      && (forall x :: Places(u, x) == Places(t, x) + (if x == r then 1 else 0))
  {
    var u := t.(slow := t.slow + [r]);
    forall x ensures Places(u, x) == Places(t, x) + (if x == r then 1 else 0) {
      TimesAppend(t.slow, r, x);
    }
  }

  lemma ExitKeepsInv(s: State, pick: nat)
    requires Inv(s) && SignalChoice(s.workers, pick)
    ensures Inv(Enqueue(s, ExitMessage, pick))
  {
    EnqueueKeepsInv(s, ExitMessage, pick);
  }

  // ----- Workers -----

  /** A worker that holds no request changes to another such state, and the counters to any value. */
  lemma WorkerEffect(s: State, i: nat, w: Worker, idle: nat, slowRunning: nat)
    requires Located(s) && i < |s.workers| && !s.workers[i].Busy? && !w.Busy?
    ensures Located(s.(workers := s.workers[i := w], idle := idle, slowRunning := slowRunning))
  {
    var t := s.(workers := s.workers[i := w], idle := idle, slowRunning := slowRunning);
    forall r ensures Places(t, r) == Places(s, r) {
      AtWorkersUpdate(s.workers, i, w, r);
    }
  }

  lemma LockedKeepsInv(s: State, i: nat)
    requires Inv(s) && i < |s.workers|
    requires s.workers[i].Ready? || s.workers[i].Woken? || s.workers[i].Returning?
    ensures Inv(Locked(s, i)) && Locked(s, i).workers == s.workers[i := Ready] && Locked(s, i).wq == s.wq
  {
    CountsUpdate(s.workers, i, Ready);
    WorkerEffect(s, i, Ready, Locked(s, i).idle, Locked(s, i).slowRunning);
    assert Active(Locked(s, i).workers[i]);
  }

  lemma SpuriousKeepsInv(s: State, i: nat)
    requires Inv(s) && i < |s.workers| && s.workers[i].Waiting?
    ensures Inv(s.(workers := s.workers[i := Woken]))
  {
    var t := s.(workers := s.workers[i := Woken]);
    CountsUpdate(s.workers, i, Woken);
    WorkerEffect(s, i, Woken, s.idle, s.slowRunning);
    assert Active(t.workers[i]);
  }

  // ----- One round of a worker's loop -----

  lemma WaitKeepsInv(s: State, i: nat)
    requires Inv(s) && i < |s.workers| && s.workers[i].Ready? && MustWait(s)
    ensures Inv(s.(idle := s.idle + 1, workers := s.workers[i := Waiting]))
  {
    var t := s.(workers := s.workers[i := Waiting], idle := s.idle + 1, slowRunning := s.slowRunning);
    WorkerEffect(s, i, Waiting, s.idle + 1, s.slowRunning);
    WaitScheduled(s, i, t);
    assert t == s.(idle := s.idle + 1, workers := s.workers[i := Waiting]);
  }

  lemma WaitScheduled(s: State, i: nat, t: State)
    requires Scheduled(s) && i < |s.workers| && s.workers[i].Ready? && MustWait(s)
    requires t == s.(idle := s.idle + 1, workers := s.workers[i := Waiting])
    ensures Scheduled(t)
  {
    CountsUpdate(s.workers, i, Waiting);
    assert MustWait(t);
  }

  lemma LeaveKeepsInv(s: State, i: nat, pick: nat)
    requires Inv(s) && i < |s.workers| && s.workers[i].Ready? && SignalChoice(s.workers, pick)
    ensures Inv(s.(workers := Signal(s.workers, pick)[i := Exited]))
  {
    var t := s.(workers := Signal(s.workers, pick));
    SignalKeepsInv(s, i, pick);
    CountsUpdate(t.workers, i, Exited);
    WorkerEffect(t, i, Exited, t.idle, t.slowRunning);
    LastSignal(s.workers, i, pick);
  }

  lemma SignalKeepsInv(s: State, i: nat, pick: nat)
    requires Inv(s) && i < |s.workers| && s.workers[i].Ready?
    ensures Inv(s.(workers := Signal(s.workers, pick)))
  {
    var t := s.(workers := Signal(s.workers, pick));
    SignalCounts(s.workers, pick);
    forall r ensures Places(t, r) == Places(s, r) {}
    assert Active(t.workers[i]);
  }

  lemma LastSignal(workers: seq<Worker>, i: nat, pick: nat)
    requires i < |workers| && workers[i].Ready? && SignalChoice(workers, pick)
    ensures var ws := Signal(workers, pick)[i := Exited]; SomeWaiting(ws) ==> SomeActive(ws)
  {
    var ws := Signal(workers, pick)[i := Exited];
    if SomeWaiting(ws) {
      var j :| 0 <= j < |ws| && ws[j].Waiting?;
      assert workers[j].Waiting?;
      assert Active(ws[pick]);
    }
  }

  /** Marking the request of a list's head as running, now that the list no longer holds it. */
  lemma StartRunning(s: State, r: Req, i: nat, isSlow: bool)
    requires i < |s.workers| && s.workers[i].Ready? && Placed(s) && BookOk(s) && Queued(s.book, r)
    requires forall x :: Places(s, x) == if x in s.book.reqs && x != r then 1 else 0
    requires isSlow <==> s.book.reqs[r].kind == SlowIo
    ensures Located(s.(book := SetLinked(s.book, r, false), workers := s.workers[i := Busy(r, isSlow)]))
  {
    var book := SetLinked(s.book, r, false);
    var u := s.(book := book);
    NowhereKeepsPlaced(s, book, r);
    forall x ensures Places(u, x) == Places(s, x) {}
    GiveToWorker(u, r, i, isSlow);
  }

  lemma GiveToWorker(s: State, r: Req, i: nat, isSlow: bool)
    requires i < |s.workers| && s.workers[i].Ready? && Placed(s) && BookOk(s) && Running(s.book, r)
    requires forall x :: Places(s, x) == if x in s.book.reqs && x != r then 1 else 0
    requires isSlow <==> s.book.reqs[r].kind == SlowIo
    ensures Located(s.(workers := s.workers[i := Busy(r, isSlow)]))
  {
    var t := s.(workers := s.workers[i := Busy(r, isSlow)]);
    forall x ensures Places(t, x) == if x in s.book.reqs then 1 else 0 {
      assert Places(s, x) == if x in s.book.reqs && x != r then 1 else 0;
      AtWorkersUpdate(s.workers, i, Busy(r, isSlow), x);
    }
  }

  lemma TakeJobKeepsInv(s: State, i: nat, r: Req)
    requires Inv(s) && i < |s.workers| && s.workers[i].Ready? && s.wq != [] && s.wq[0] == Job(r)
    ensures Inv(s.(wq := s.wq[1..], book := SetLinked(s.book, r, false), workers := s.workers[i := Busy(r, false)]))
  {
    var t := s.(wq := s.wq[1..]);
    assert s.wq[0] in s.wq;
    forall x ensures Places(t, x) == if x in s.book.reqs && x != r then 1 else 0 {
      assert Places(s, x) == if x in s.book.reqs then 1 else 0;
      TimesHead(s.wq, Job(x));
    }
    StartRunning(t, r, i, false);
    CountsUpdate(s.workers, i, Busy(r, false));
    TailMarkers(s.wq);
    assert Active(s.workers[i := Busy(r, false)][i]);
  }

  lemma TailMarkers(wq: seq<Item>)
    requires wq != [] && MarkersOnce(wq)
    ensures MarkersOnce(wq[1..]) && (SlowMarker in wq[1..] <==> wq[0] != SlowMarker && SlowMarker in wq)
    ensures wq[0] == SlowMarker ==> MarkersOnce(wq[1..] + [SlowMarker])
  {
    assert wq == [wq[0]] + wq[1..];
  }

  /** Taking the marker off the main queue moves no request. */
  lemma PopMarker(s: State)
    requires Inv(s) && s.wq != [] && s.wq[0] == SlowMarker
    ensures var t := s.(wq := s.wq[1..], markerLinked := false);
      && Placed(t) && Counted(t) && BookOk(t) && MarkersOnce(t.wq) && SlowMarker !in t.wq
      && (forall x :: Places(t, x) == Places(s, x))
  {
    var t := s.(wq := s.wq[1..], markerLinked := false);
    TailMarkers(s.wq);
    forall x ensures Places(t, x) == Places(s, x) {
      TimesHead(s.wq, Job(x));
    }
  }

  lemma RequeueKeepsInv(s: State, i: nat)
    requires Inv(s) && s.wq != [] && s.wq[0] == SlowMarker && i < |s.workers| && s.workers[i].Ready?
    ensures Inv(s.(wq := s.wq[1..] + [SlowMarker], markerLinked := true))
  {
    PopMarker(s);
    var u := s.(wq := s.wq[1..], markerLinked := false);
    var t := s.(wq := s.wq[1..] + [SlowMarker], markerLinked := true);
    forall x ensures Places(t, x) == Places(u, x) {
      TimesAppend(u.wq, SlowMarker, Job(x));
    }
    assert Active(t.workers[i]);
  }

  lemma DropMarkerKeepsInv(s: State, i: nat)
    requires Inv(s) && s.wq != [] && s.wq[0] == SlowMarker && s.slow == [] && i < |s.workers| && s.workers[i].Ready?
    ensures Inv(s.(wq := s.wq[1..], markerLinked := false))
  {
    PopMarker(s);
    assert Active(s.workers[i]);
  }

  /** The first pending slow request starts, while the marker is off the queue. */
  function SlowStarted(s: State, i: nat): State
    requires i < |s.workers| && s.slow != []
  {
    s.(slow := s.slow[1..], slowRunning := s.slowRunning + 1, book := SetLinked(s.book, s.slow[0], false),
       workers := s.workers[i := Busy(s.slow[0], true)])
  }

  lemma SlowStartedFacts(s: State, i: nat)
    requires Placed(s) && Counted(s) && OnePlaceEach(s) && s.slow != []
    requires i < |s.workers| && s.workers[i].Ready? && s.slowRunning < Threshold(s)
    ensures var t := SlowStarted(s, i); Located(t) && Counted(t) && Awake(t)
  {
    var r := s.slow[0];
    var u := s.(slow := s.slow[1..]);
    assert r in s.slow;
    forall x ensures Places(u, x) == if x in s.book.reqs && x != r then 1 else 0 {
      assert Places(s, x) == if x in s.book.reqs then 1 else 0;
      TimesHead(s.slow, x);
    }
    StartRunning(u, r, i, true);
    CountsUpdate(s.workers, i, Busy(r, true));
    assert Active(SlowStarted(s, i).workers[i]);
    SameLocation(u, SlowStarted(s, i), r, i);
  }

  lemma SameLocation(u: State, t: State, r: Req, i: nat)
    requires i < |u.workers|
    requires t == u.(slowRunning := t.slowRunning, book := SetLinked(u.book, r, false), workers := u.workers[i := Busy(r, true)])
    requires Located(u.(book := SetLinked(u.book, r, false), workers := u.workers[i := Busy(r, true)]))
    ensures Located(t)
  {
    var v := u.(book := SetLinked(u.book, r, false), workers := u.workers[i := Busy(r, true)]);
    forall x ensures Places(t, x) == Places(v, x) {}
  }

  lemma TakeSlowKeepsInv(s: State, i: nat, pick: nat)
    requires Inv(s) && s.wq != [] && s.wq[0] == SlowMarker && s.slow != []
    requires i < |s.workers| && s.workers[i].Ready? && s.slowRunning < Threshold(s)
    requires SignalChoice(s.workers, pick)
    ensures Inv(TakeSlow(s.(wq := s.wq[1..], markerLinked := false), i, pick))
  {
    var u := s.(wq := s.wq[1..], markerLinked := false);
    PopMarker(s);
    SlowStartedFacts(u, i);
    var t := SlowStarted(u, i);
    if t.slow != [] {
      SignalStillFits(s.workers, i, t.workers[i], pick);
      EnqueueKeepsInv(t, SlowMarker, pick);
    }
  }

  lemma SignalStillFits(ws: seq<Worker>, i: nat, w: Worker, pick: nat)
    requires SignalChoice(ws, pick) && i < |ws| && !ws[i].Waiting? && !w.Waiting?
    ensures SignalChoice(ws[i := w], pick)
  {}

  lemma RoundKeepsInv(s: State, i: nat, pick: nat)
    requires Inv(s) && i < |s.workers| && s.workers[i].Ready? && SignalChoice(s.workers, pick)
    ensures Inv(Round(s, i, pick).0)
    ensures Round(s, i, pick).1 ==> Round(s, i, pick).0.workers == s.workers
  {
    if MustWait(s) {
      WaitKeepsInv(s, i);
    } else {
      match s.wq[0]
      case ExitMessage => LeaveKeepsInv(s, i, pick);
      case Job(r) => TakeJobKeepsInv(s, i, r);
      case SlowMarker =>
        if s.slowRunning >= Threshold(s) {
          RequeueKeepsInv(s, i);
        } else if s.slow == [] {
          DropMarkerKeepsInv(s, i);
        } else {
          TakeSlowKeepsInv(s, i, pick);
        }
    }
  }

  lemma RoundProgress(s: State, i: nat, pick: nat)
    requires i < |s.workers| && MarkersOnce(s.wq)
    ensures var (t, again) := Round(s, i, pick);
      && Serve(s, i, pick) == (if again then Serve(t, i, pick) else t)
      && (again ==> |t.wq| < |s.wq| || (|t.wq| == |s.wq| && s.wq[0] == SlowMarker && t.wq[0] != SlowMarker))
  {}

  lemma {:induction false} ServeKeepsInv(s: State, i: nat, pick: nat)
    requires Inv(s) && i < |s.workers| && s.workers[i].Ready? && SignalChoice(s.workers, pick)
    ensures Inv(Serve(s, i, pick))
    decreases |s.wq|, s.wq != [] && s.wq[0] == SlowMarker
  {
    RoundKeepsInv(s, i, pick);
    RoundProgress(s, i, pick);
    var (t, again) := Round(s, i, pick);
    if again {
      ServeKeepsInv(t, i, pick);
    }
  }
}
