/** The worker pool (Libuv-gRPC/src/threadpool.c) as a state machine whose steps are the stretches
    of code between two points where a thread holds no mutex. */
module ThreadPool {
  import opened Keys

  type Req = nat

  datatype WorkKind = Cpu | FastIo | SlowIo

  /** The field w->work: the callback, NULL once it has run, or the uv__cancelled mark. */
  datatype Work = Callback | Cleared | Cancelled

  /** `linked` is false after QUEUE_INIT on the request's queue node, until it is inserted again. */
  datatype Request = Request(loop: nat, kind: WorkKind, work: Work, linked: bool)

  datatype Item = Job(r: Req) | SlowMarker | ExitMessage

  datatype Worker =
    | Ready                         // about to lock the mutex
    | Waiting                       // blocked on the condition variable
    | Woken                         // unblocked, but without the mutex yet
    | Busy(r: Req, isSlow: bool)    // running a callback
    | Returning(wasSlow: bool)      // request handed back, about to lock the mutex
    | Exited

  /** A loop's completion queue, the request it is cancelling, and the list uv__work_done is walking. */
  datatype Loop = Loop(completed: seq<Req>, cancelling: Option<Req>, finishing: seq<Req>)

  datatype Status = Success | ECanceled

  datatype Outcome = Outcome(r: Req, status: Status)

  /** What is recorded of requests; `cancelled` (uv_cancel returned 0) and `ran` are history. */
  datatype Book = Book(reqs: map<Req, Request>, cancelled: set<Req>, ran: multiset<Req>)

  datatype State = State(
    wq: seq<Item>, markerLinked: bool, slow: seq<Req>, idle: nat, slowRunning: nat,
    workers: seq<Worker>, loops: seq<Loop>, book: Book, done: seq<Outcome>)

  // ----- Where requests are -----

  function Times<T(==)>(q: seq<T>, x: T): nat {
    if q == [] then 0 else Times(q[..|q| - 1], x) + (if q[|q| - 1] == x then 1 else 0)
  }

  function AtWorker(w: Worker, r: Req): nat {
    if w.Busy? && w.r == r then 1 else 0
  }

  function AtWorkers(workers: seq<Worker>, r: Req): nat {
    if workers == [] then 0
    else AtWorkers(workers[..|workers| - 1], r) + AtWorker(workers[|workers| - 1], r)
  }

  function AtLoop(l: Loop, r: Req): nat {
    Times(l.completed, r) + Times(l.finishing, r) + (if l.cancelling == Some(r) then 1 else 0)
  }

  function AtLoops(loops: seq<Loop>, r: Req): nat {
    if loops == [] then 0
    else AtLoops(loops[..|loops| - 1], r) + AtLoop(loops[|loops| - 1], r)
  }

  /** How often the request's done callback has been called. */
  function Finished(done: seq<Outcome>, r: Req): nat {
    if done == [] then 0
    else Finished(done[..|done| - 1], r) + (if done[|done| - 1].r == r then 1 else 0)
  }

  /** In how many places the request is. */
  function Places(s: State, r: Req): nat {
    Times(s.wq, Job(r)) + Times(s.slow, r) + AtWorkers(s.workers, r) + AtLoops(s.loops, r) + Finished(s.done, r)
  }

  function IdleCount(workers: seq<Worker>): nat {
    if workers == [] then 0
    else IdleCount(workers[..|workers| - 1]) + IdleOne(workers[|workers| - 1])
  }

  function IdleOne(w: Worker): nat { if w.Waiting? || w.Woken? then 1 else 0 }

  function SlowCount(workers: seq<Worker>): nat {
    if workers == [] then 0
    else SlowCount(workers[..|workers| - 1]) + SlowOne(workers[|workers| - 1])
  }

  function SlowOne(w: Worker): nat {
    match w
    case Busy(_, isSlow) => if isSlow then 1 else 0
    case Returning(wasSlow) => if wasSlow then 1 else 0
    case _ => 0
  }

  function Threshold(s: State): nat { (|s.workers| + 1) / 2 }

  // ----- Steps -----

  function Signal(workers: seq<Worker>, pick: nat): (r: seq<Worker>)
    ensures |r| == |workers|
  {
    if pick < |workers| && workers[pick].Waiting? then workers[pick := Woken] else workers
  }

  /** uv_cond_signal unblocks a waiting thread if there is one. */
  ghost predicate SignalChoice(workers: seq<Worker>, pick: nat) {
    (exists j :: 0 <= j < |workers| && workers[j].Waiting?) ==> pick < |workers| && workers[pick].Waiting?
  }

  function SignalIfIdle(s: State, pick: nat): State {
    if s.idle > 0 then s.(workers := Signal(s.workers, pick)) else s
  }

  /** The tail of post: append to the main queue and signal. */
  function Enqueue(s: State, item: Item, pick: nat): State {
    SignalIfIdle(s.(wq := s.wq + [item], markerLinked := s.markerLinked || item.SlowMarker?), pick)
  }

  function SetLinked(b: Book, r: Req, linked: bool): Book {
    if r in b.reqs then b.(reqs := b.reqs[r := b.reqs[r].(linked := linked)]) else b
  }

  /** uv__work_submit and post. */
  function Submit(s: State, r: Req, loop: nat, kind: WorkKind, pick: nat): State {
    var s := s.(book := s.book.(reqs := s.book.reqs[r := Request(loop, kind, Callback, true)]));
    if kind == SlowIo then
      var s := s.(slow := s.slow + [r]);
      if s.markerLinked then s else Enqueue(s, SlowMarker, pick)
    else Enqueue(s, Job(r), pick)
  }

  /** The condition under which a worker keeps waiting. */
  predicate MustWait(s: State) {
    s.wq == [] || (s.wq == [SlowMarker] && s.slowRunning >= Threshold(s))
  }

  /** A worker gets the mutex: after start, after the condition wait, or after handing back a request. */
  function Locked(s: State, i: nat): State
    requires i < |s.workers|
  {
    var w := s.workers[i];
    var s := s.(workers := s.workers[i := Ready]);
    if w.Woken? && s.idle > 0 then s.(idle := s.idle - 1)
    else if w.Returning? && w.wasSlow && s.slowRunning > 0 then s.(slowRunning := s.slowRunning - 1)
    else s
  }

  /** One round of the worker's loop, with the mutex held; `again` when it goes round once more. */
  function Round(s: State, i: nat, pick: nat): (State, bool)
    requires i < |s.workers|
  {
    if MustWait(s) then (s.(idle := s.idle + 1, workers := s.workers[i := Waiting]), false)
    else
      match s.wq[0]
      case ExitMessage => (s.(workers := Signal(s.workers, pick)[i := Exited]), false)
      case Job(r) =>
        (s.(wq := s.wq[1..], book := SetLinked(s.book, r, false), workers := s.workers[i := Busy(r, false)]), false)
      case SlowMarker =>
        if s.slowRunning >= Threshold(s) then (s.(wq := s.wq[1..] + [SlowMarker], markerLinked := true), true)
        else if s.slow == [] then (s.(wq := s.wq[1..], markerLinked := false), true)
        else (TakeSlow(s.(wq := s.wq[1..], markerLinked := false), i, pick), false)
  }

  /** A worker that took the marker starts the first pending slow request and requeues the marker
      if there are more. */
  function TakeSlow(s: State, i: nat, pick: nat): State
    requires i < |s.workers| && s.slow != []
  {
    var r := s.slow[0];
    var s := s.(slow := s.slow[1..], slowRunning := s.slowRunning + 1, book := SetLinked(s.book, r, false),
                workers := s.workers[i := Busy(r, true)]);
    if s.slow != [] then Enqueue(s, SlowMarker, pick) else s
  }

  /** The marker is queued at most once. */
  predicate MarkersOnce(wq: seq<Item>) {
    forall j, k :: 0 <= j < k < |wq| && wq[j] == SlowMarker ==> wq[k] != SlowMarker
  }

  /** Rounds until the worker waits, leaves or has a request to run. */
  function Serve(s: State, i: nat, pick: nat): State
    requires i < |s.workers| && MarkersOnce(s.wq)
    decreases |s.wq|, s.wq != [] && s.wq[0] == SlowMarker
  {
    var (s', again) := Round(s, i, pick);
    if again then Serve(s', i, pick) else s'
  }

  /** A worker runs its callback, then hands the request to its loop under the loop's mutex. */
  function FinishWork(s: State, i: nat): State
    requires i < |s.workers| && s.workers[i].Busy?
  {
    var w := s.workers[i];
    var s := s.(workers := s.workers[i := Returning(w.isSlow)]);
    if w.r !in s.book.reqs then s else
    var q := s.book.reqs[w.r];
    if q.loop >= |s.loops| then s else
    var l := s.loops[q.loop];
    s.(book := Book(s.book.reqs[w.r := q.(work := Cleared, linked := true)], s.book.cancelled, s.book.ran + multiset{w.r}),
       loops := s.loops[q.loop := l.(completed := l.completed + [w.r])])
  }

  function Remove<T(==)>(q: seq<T>, x: T): seq<T> {
    if q == [] then []
    else if q[|q| - 1] == x then Remove(q[..|q| - 1], x)
    else Remove(q[..|q| - 1], x) + [q[|q| - 1]]
  }

  /** uv__work_cancel's test, made under both mutexes. */
  predicate Cancellable(s: State, r: Req) {
    r in s.book.reqs && s.book.reqs[r].linked && s.book.reqs[r].work != Cleared
  }

  /** QUEUE_REMOVE takes the node out of whichever list it is linked into. */
  function Unlink(s: State, r: Req, l: nat): State
    requires l < |s.loops|
  {
    var loop := s.loops[l];
    s.(wq := Remove(s.wq, Job(r)), slow := Remove(s.slow, r),
       loops := s.loops[l := loop.(completed := Remove(loop.completed, r), finishing := Remove(loop.finishing, r))])
  }

  /** The first half of uv__work_cancel, on the thread of loop l. */
  function CancelBegin(s: State, r: Req, l: nat): State
    requires l < |s.loops|
  {
    if Cancellable(s, r) then
      var s := Unlink(s, r, l);
      s.(book := s.book.(cancelled := s.book.cancelled + {r}), loops := s.loops[l := s.loops[l].(cancelling := Some(r))])
    else s
  }

  /** The second half: mark the request and put it on the completion queue. */
  function CancelEnd(s: State, l: nat): State
    requires l < |s.loops| && s.loops[l].cancelling.Some?
  {
    var r := s.loops[l].cancelling.value;
    var loop := s.loops[l].(completed := s.loops[l].completed + [r], cancelling := None);
    var s := s.(loops := s.loops[l := loop]);
    if r in s.book.reqs then
      s.(book := s.book.(reqs := s.book.reqs[r := s.book.reqs[r].(work := Cancelled, linked := true)]))
    else s
  }

  /** uv__work_done moves the completion queue to its own list. */
  function TakeCompleted(s: State, l: nat): State
    requires l < |s.loops|
  {
    s.(loops := s.loops[l := s.loops[l].(completed := [], finishing := s.loops[l].completed)])
  }

  function StatusOf(b: Book, r: Req): Status {
    if r in b.reqs && b.reqs[r].work == Cancelled then ECanceled else Success
  }

  /** uv__work_done calls the done callback of the next request on its list. */
  function CallDone(s: State, l: nat): State
    requires l < |s.loops| && s.loops[l].finishing != []
  {
    var r := s.loops[l].finishing[0];
    s.(loops := s.loops[l := s.loops[l].(finishing := s.loops[l].finishing[1..])],
       done := s.done + [Outcome(r, StatusOf(s.book, r))])
  }

  datatype Step =
    | SubmitStep(r: Req, loop: nat, kind: WorkKind, pick: nat)
    | LockStep(i: nat, pick: nat)
    | FinishStep(i: nat)
    | SpuriousStep(i: nat)
    | CancelStep(r: Req, l: nat)
    | CancelEndStep(l: nat)
    | TakeStep(l: nat)
    | DoneStep(l: nat)
    | ExitStep(pick: nat)

  /** When a thread may take the step. A request is submitted once, and cancelled only from its
      loop's thread, before its done callback. */
  ghost predicate Enabled(s: State, step: Step) {
    match step
    case SubmitStep(r, loop, _, pick) => r !in s.book.reqs && loop < |s.loops| && SignalChoice(s.workers, pick)
    case LockStep(i, pick) =>
      && i < |s.workers| && (s.workers[i].Ready? || s.workers[i].Woken? || s.workers[i].Returning?)
      && MarkersOnce(s.wq) && SignalChoice(s.workers, pick)
    case FinishStep(i) => i < |s.workers| && s.workers[i].Busy?
    case SpuriousStep(i) => i < |s.workers| && s.workers[i].Waiting?
    case CancelStep(r, l) =>
      && r in s.book.reqs && Finished(s.done, r) == 0
      && s.book.reqs[r].loop == l < |s.loops| && s.loops[l].cancelling.None?
    case CancelEndStep(l) => l < |s.loops| && s.loops[l].cancelling.Some?
    case TakeStep(l) => l < |s.loops| && s.loops[l].cancelling.None? && s.loops[l].finishing == []
    case DoneStep(l) => l < |s.loops| && s.loops[l].cancelling.None? && s.loops[l].finishing != []
    case ExitStep(pick) => SignalChoice(s.workers, pick)
  }

  ghost function Next(s: State, step: Step): State
    requires Enabled(s, step)
  {
    match step
    case SubmitStep(r, loop, kind, pick) => Submit(s, r, loop, kind, pick)
    case LockStep(i, pick) => Serve(Locked(s, i), i, pick)
    case FinishStep(i) => FinishWork(s, i)
    case SpuriousStep(i) => s.(workers := s.workers[i := Woken])
    case CancelStep(r, l) => CancelBegin(s, r, l)
    case CancelEndStep(l) => CancelEnd(s, l)
    case TakeStep(l) => TakeCompleted(s, l)
    case DoneStep(l) => CallDone(s, l)
    case ExitStep(pick) => Enqueue(s, ExitMessage, pick)
  }

  // ----- The invariant -----

  ghost predicate Queued(b: Book, r: Req) {
    && r in b.reqs && b.reqs[r].work == Callback && b.reqs[r].linked
    && r !in b.cancelled
  }

  ghost predicate Running(b: Book, r: Req) {
    && r in b.reqs && b.reqs[r].work == Callback && !b.reqs[r].linked
    && r !in b.cancelled
  }

  ghost predicate BeingCancelled(b: Book, r: Req, l: nat) {
    && r in b.reqs && b.reqs[r].loop == l && b.reqs[r].work != Cleared && b.reqs[r].linked
    && r in b.cancelled
  }

  ghost predicate Completed(b: Book, r: Req, l: nat) {
    && r in b.reqs && b.reqs[r].loop == l && b.reqs[r].work != Callback && b.reqs[r].linked
    && (b.reqs[r].work == Cancelled <==> r in b.cancelled)
  }

  /** A done callback reports cancellation exactly when uv_cancel succeeded; otherwise the work
      callback has run. */
  ghost predicate Reported(b: Book, o: Outcome) {
    && o.r in b.reqs
    && (o.status == ECanceled <==> o.r in b.cancelled)
    && b.reqs[o.r].work == (if o.r in b.cancelled then Cancelled else Cleared)
  }

  ghost predicate QueueOk(b: Book, wq: seq<Item>) {
    forall x :: x in wq && x.Job? ==> Queued(b, x.r) && b.reqs[x.r].kind != SlowIo
  }

  ghost predicate SlowOk(b: Book, slow: seq<Req>) {
    forall r :: r in slow ==> Queued(b, r) && b.reqs[r].kind == SlowIo
  }

  ghost predicate WorkersOk(b: Book, workers: seq<Worker>, loops: nat) {
    forall w :: w in workers && w.Busy? ==> Running(b, w.r) && b.reqs[w.r].loop < loops && (w.isSlow <==> b.reqs[w.r].kind == SlowIo)
  }

  ghost predicate LoopOk(b: Book, loop: Loop, l: nat) {
    && (forall r :: r in loop.completed ==> Completed(b, r, l))
    && (forall r :: r in loop.finishing ==> Completed(b, r, l))
    && (loop.cancelling.Some? ==> BeingCancelled(b, loop.cancelling.value, l))
  }

  ghost predicate LoopsOk(b: Book, loops: seq<Loop>) {
    forall l :: 0 <= l < |loops| ==> LoopOk(b, loops[l], l)
  }

  ghost predicate DoneOk(b: Book, done: seq<Outcome>) {
    forall o :: o in done ==> Reported(b, o)
  }

  /** What is recorded of each request fits the place it is in. */
  ghost predicate Placed(s: State) {
    && QueueOk(s.book, s.wq) && SlowOk(s.book, s.slow)
    && WorkersOk(s.book, s.workers, |s.loops|) && LoopsOk(s.book, s.loops) && DoneOk(s.book, s.done)
  }

  /** Each submitted request is in exactly one place, and nothing else is anywhere. */
  ghost predicate OnePlaceEach(s: State) {
    && (forall r :: Places(s, r) == if r in s.book.reqs then 1 else 0)
    && BookOk(s)
  }

  ghost predicate BookOk(s: State) {
    && s.book.cancelled <= s.book.reqs.Keys
    && (forall r :: r in s.book.ran ==> r in s.book.reqs)
    && (forall r :: r in s.book.reqs ==> s.book.ran[r] == if s.book.reqs[r].work == Cleared then 1 else 0)
    && (forall r :: r in s.book.reqs ==> s.book.reqs[r].loop < |s.loops|)
  }

  ghost predicate Counted(s: State) {
    && |s.workers| >= 1
    && s.idle == IdleCount(s.workers)
    && s.slowRunning == SlowCount(s.workers) <= Threshold(s)
  }

  ghost predicate MarkerOk(s: State) {
    && MarkersOnce(s.wq)
    && (s.markerLinked <==> SlowMarker in s.wq)
    && (s.slow != [] ==> SlowMarker in s.wq)
  }

  predicate Active(w: Worker) { w.Ready? || w.Woken? || w.Busy? || w.Returning? }

  ghost predicate SomeActive(workers: seq<Worker>) {
    exists j :: 0 <= j < |workers| && Active(workers[j])
  }

  ghost predicate SomeWaiting(workers: seq<Worker>) {
    exists j :: 0 <= j < |workers| && workers[j].Waiting?
  }

  /** No lost wakeup: with work that can run, the workers do not all sleep. */
  ghost predicate Awake(s: State) {
    !MustWait(s) && SomeWaiting(s.workers) ==> SomeActive(s.workers)
  }

  ghost predicate Located(s: State) {
    OnePlaceEach(s) && Placed(s)
  }

  ghost predicate Scheduled(s: State) {
    Counted(s) && MarkerOk(s) && Awake(s)
  }

  ghost predicate Inv(s: State) {
    Located(s) && Scheduled(s)
  }

  predicate IdleLoop(l: Loop) {
    l.completed == [] && l.finishing == [] && l.cancelling.None?
  }

  ghost predicate Init(s: State) {
    && s.wq == [] && s.slow == [] && s.done == [] && !s.markerLinked && s.idle == 0 && s.slowRunning == 0
    && s.book == Book(map[], {}, multiset{})
    && |s.workers| >= 1 && (forall i :: 0 <= i < |s.workers| ==> s.workers[i] == Ready)
    && (forall l :: 0 <= l < |s.loops| ==> IdleLoop(s.loops[l]))
  }
}
