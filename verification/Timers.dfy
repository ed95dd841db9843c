/** The timers of an event loop (Libuv-gRPC/src/timer.c). */
module Timers {
  import opened PointerHeap

  const UINT64_MAX: nat := 0xffff_ffff_ffff_ffff
  const INT_MAX: int := 0x7fff_ffff
  const UV_EINVAL: int := -22

  /** time + timeout in 64 bits, with an overflow turned into the largest value. */
  function Clamped(time: nat, timeout: nat): nat
    requires time <= UINT64_MAX && timeout <= UINT64_MAX
  {
    var sum := (time + timeout) % (UINT64_MAX + 1);
    if sum < timeout then UINT64_MAX else sum
  }

  /** Wrapping around is what the comparison detects. */
  lemma ClampedIsMin(time: nat, timeout: nat)
    requires time <= UINT64_MAX && timeout <= UINT64_MAX
    ensures Clamped(time, timeout) == if time + timeout <= UINT64_MAX then time + timeout else UINT64_MAX
  {
    if time + timeout > UINT64_MAX {
      assert (time + timeout) % (UINT64_MAX + 1) == time + timeout - (UINT64_MAX + 1);
    }
  }

  class TimerLoop {
    var time: nat
    var timerCounter: nat
    const heap: Heap
    ghost var handles: set<Timer>

    ghost predicate Valid()
      reads this, heap, handles
    {
      && time <= UINT64_MAX
      && Members(heap.nodes) <= handles && heap.Valid() && heap.nelts < 0x1_0000_0000
      && (forall t :: t in handles ==> HandleOk(t))
      && (forall a, b :: a in Members(heap.nodes) && b in Members(heap.nodes) && a != b ==> a.startId != b.startId)
    }

    ghost predicate HandleOk(t: Timer)
      reads this, heap, t
    {
      && t.repeat <= UINT64_MAX && t.timeout <= UINT64_MAX
      && (t.active <==> t in Members(heap.nodes))
      && (t.active ==> t.hasCallback && !t.closing && t.startId < timerCounter)
    }

    constructor ()
      ensures Valid() && fresh(heap) && handles == {} && heap.nodes == []
    {
      time, timerCounter, handles := 0, 0, {};
      heap := new Heap();
    }

    /** uv_timer_init. */
    method Init(handle: Timer)
      requires Valid() && handle !in handles && handle.timeout <= UINT64_MAX
      modifies this`handles, handle`active, handle`closing, handle`hasCallback, handle`repeat
      ensures Valid() && handles == old(handles) + {handle} && !handle.active && !handle.closing
      ensures !handle.hasCallback && handle.repeat == 0
    {
      handle.active, handle.closing := false, false;
      handle.hasCallback, handle.repeat := false, 0;
      handles := handles + {handle};
      forall t | t in handles ensures HandleOk(t) {
        assert t != handle ==> old(HandleOk(t));
      }
    }

    /** uv_close of a timer, as far as uv__timer_close. */
    method Close(handle: Timer)
      requires Valid() && handle in handles
      modifies heap, handle, Members(heap.nodes)`left, Members(heap.nodes)`right, Members(heap.nodes)`parent
      ensures Valid() && !handle.active && handle.closing
      ensures Members(heap.nodes) == old(Members(heap.nodes)) - {handle}
    {
      Stop(handle);
      handle.closing := true;
      forall t | t in handles ensures HandleOk(t) {
        assert t != handle ==> HandleOk(t);
      }
    }

    /** uv_timer_stop. */
    method Stop(handle: Timer)
      requires Valid() && handle in handles
      modifies heap, handle, Members(heap.nodes)`left, Members(heap.nodes)`right, Members(heap.nodes)`parent
      ensures Valid() && !handle.active
      ensures Members(heap.nodes) == old(Members(heap.nodes)) - {handle}
      ensures heap.nelts == old(heap.nelts) - if old(handle.active) then 1 else 0
      ensures handle.K() == old(handle.K()) && handle.repeat == old(handle.repeat)
      ensures handle.hasCallback == old(handle.hasCallback) && handle.closing == old(handle.closing)
    {
      if !handle.active {
        return;
      }
      heap.Remove(handle);
      handle.active := false;
    }

    /** uv_timer_start. */
    method Start(handle: Timer, cb: bool, timeout: nat, repeat: nat) returns (err: int)
      requires Valid() && handle in handles && timeout <= UINT64_MAX && repeat <= UINT64_MAX
      requires handle.active || heap.nelts + 1 < 0x1_0000_0000
      modifies this`timerCounter, heap, handle
      modifies Members(heap.nodes)`left, Members(heap.nodes)`right, Members(heap.nodes)`parent
      ensures Valid() && err == if old(handle.closing) || !cb then UV_EINVAL else 0
      ensures err == 0 ==> handle.active && handle.repeat == repeat
      ensures err == 0 ==> handle.timeout == Clamped(time, timeout) && handle.startId == old(timerCounter)
      ensures err == 0 ==> handle.K() == Key(Clamped(time, timeout), old(timerCounter)) && timerCounter == old(timerCounter) + 1
      ensures err == 0 ==> Members(heap.nodes) == old(Members(heap.nodes)) + {handle}
      ensures err == 0 ==> heap.nelts == old(heap.nelts) + if old(handle.active) then 0 else 1
      ensures err != 0 ==> unchanged(this, heap, handle)
    {
      if handle.closing || !cb {
        return UV_EINVAL;
      }
      if handle.active {
        Stop(handle);
      }
      Schedule(handle, Clamped(time, timeout), repeat);
      return 0;
    }

    /** The part of uv_timer_start that sets the fields and inserts the node. */
    method Schedule(handle: Timer, clamped: nat, repeat: nat)
      requires Valid() && handle in handles && clamped <= UINT64_MAX && repeat <= UINT64_MAX
      requires !handle.active && !handle.closing && heap.nelts + 1 < 0x1_0000_0000
      modifies this`timerCounter, heap, handle
      modifies Members(heap.nodes)`left, Members(heap.nodes)`right, Members(heap.nodes)`parent
      ensures Valid() && handle.active && handle.repeat == repeat
      ensures handle.K() == Key(clamped, old(timerCounter)) && timerCounter == old(timerCounter) + 1
      ensures Members(heap.nodes) == old(Members(heap.nodes)) + {handle} && heap.nelts == old(heap.nelts) + 1
    {
      assert HandleOk(handle);
      SetFields(handle, clamped, repeat);
      timerCounter := timerCounter + 1;
      InsertStarted(handle);
      forall t | t in handles ensures HandleOk(t) {
        assert old(HandleOk(t));
        assert t != handle ==> (t in Members(heap.nodes) <==> t in old(Members(heap.nodes)));
      }
    }

    /** heap_insert and uv__handle_start. */
    method InsertStarted(handle: Timer)
      requires heap.Valid() && handle !in Members(heap.nodes) && heap.nelts + 1 < 0x1_0000_0000
      modifies heap, handle`left, handle`right, handle`parent, handle`active
      modifies Members(heap.nodes)`left, Members(heap.nodes)`right, Members(heap.nodes)`parent
      ensures heap.Valid() && handle.active && heap.nelts == old(heap.nelts) + 1
      ensures Members(heap.nodes) == old(Members(heap.nodes)) + {handle}
    {
      heap.Insert(handle);
      handle.active := true;
    }

    method SetFields(handle: Timer, clamped: nat, repeat: nat)
      requires heap.Valid() && handle !in Members(heap.nodes)
      modifies handle`timeout, handle`repeat, handle`startId, handle`hasCallback
      ensures heap.Valid() && handle.K() == Key(clamped, timerCounter) && handle.repeat == repeat && handle.hasCallback
    {
      handle.hasCallback := true;
      handle.timeout := clamped;
      handle.repeat := repeat;
      handle.startId := timerCounter;
    }
  
    /** uv_timer_again. */
    method Again(handle: Timer) returns (err: int)
      requires Valid() && handle in handles && (handle.active || heap.nelts + 1 < 0x1_0000_0000)
      modifies this`timerCounter, heap, handle
      modifies Members(heap.nodes)`left, Members(heap.nodes)`right, Members(heap.nodes)`parent
      ensures Valid() && err == if old(handle.hasCallback) then 0 else UV_EINVAL
      ensures old(handle.hasCallback) && old(handle.repeat) > 0 && !old(handle.closing) ==>
        && handle.active && handle.repeat == old(handle.repeat)
        && handle.K() == Key(Clamped(time, handle.repeat), old(timerCounter))
        && Members(heap.nodes) == old(Members(heap.nodes)) + {handle} && timerCounter == old(timerCounter) + 1
      ensures old(handle.hasCallback) && old(handle.repeat) > 0 && old(handle.closing) ==>
        && !handle.active && Members(heap.nodes) == old(Members(heap.nodes)) - {handle} && timerCounter == old(timerCounter)
      ensures !old(handle.hasCallback) || old(handle.repeat) == 0 ==> unchanged(this, heap, handle)
    {
      if !handle.hasCallback {
        return UV_EINVAL;
      }
      if handle.repeat > 0 {
        var repeat, closing := handle.repeat, handle.closing;
        Stop(handle);
        var _ := Start(handle, true, repeat, repeat);
      }
      return 0;
    }

    /** uv__next_timeout: how long the loop may sleep. */
    method NextTimeout() returns (ms: int)
      requires Valid()
      ensures ms == -1 <==> heap.nodes == []
      ensures forall t :: t in Members(heap.nodes) && t.timeout > time ==> ms <= t.timeout - time
      ensures ms == 0 <==> exists t :: t in Members(heap.nodes) && t.timeout <= time
      ensures 0 < ms < INT_MAX ==> exists t :: t in Members(heap.nodes) && t.timeout == time + ms
      ensures ms <= INT_MAX
    {
      var first := heap.min;
      if first == null {
        return -1;
      }
      MinIsLeast();
      if first.timeout <= time {
        return 0;
      }
      var diff := first.timeout - time;
      ms := if diff > INT_MAX then INT_MAX else diff;
    }

    /** The node at the top of the heap precedes every other. */
    lemma MinIsLeast()
      requires Valid()
      ensures heap.min == null <==> heap.nodes == []
      ensures heap.min != null ==> heap.min in Members(heap.nodes)
      ensures heap.min != null ==>
        forall t :: t in Members(heap.nodes) ==> t == heap.min || Less(heap.min.K(), t.K())
    {
      if heap.min != null {
        forall t | t in Members(heap.nodes) ensures t == heap.min || Less(heap.min.K(), t.K()) {
          var k :| 0 <= k < |heap.nodes| && heap.nodes[k] == t;
          RootIsLeast(Keys(heap.nodes), k);
        }
      }
    }
  
    /** One round of uv__run_timers up to the callback: the timer leaves the heap, and comes back if it
        repeats. */
    method Fire(handle: Timer)
      requires Valid() && handle in Members(heap.nodes)
      modifies this`timerCounter, heap, handle
      modifies Members(heap.nodes)`left, Members(heap.nodes)`right, Members(heap.nodes)`parent
      ensures Valid() && handle.repeat == old(handle.repeat)
      ensures if handle.repeat > 0
        then Members(heap.nodes) == old(Members(heap.nodes)) && handle.K() == Key(Restarted(time, handle.repeat), old(timerCounter))
        else Members(heap.nodes) == old(Members(heap.nodes)) - {handle} && handle.K() == old(handle.K())
      ensures timerCounter == old(timerCounter) + if handle.repeat > 0 then 1 else 0
      ensures forall t :: t in old(Members(heap.nodes)) && t != handle ==> t.K() == old(t.K()) && t.repeat == old(t.repeat)
    {
      assert HandleOk(handle);
      ClampedIsMin(time, handle.repeat);
      Stop(handle);
      var _ := Again(handle);
    }

    /** The timers in the heap, and what running them depends on. */
    ghost function View(): Pending
      requires Members(heap.nodes) <= handles
      reads this, heap, handles
    {
      Pending(time, timerCounter, Before(), map t | t in Members(heap.nodes) :: t.repeat)
    }

    lemma ViewIsWellFormed()
      requires Valid()
      ensures WellFormed(View())
      ensures heap.min != null && heap.min.timeout <= time ==> CanFire(View(), heap.min)
    {
      MinIsLeast();
      forall t | t in Members(heap.nodes) ensures HandleOk(t) {}
    }

    /** Fire is a round of the waiting timers. */
    method FireRound(handle: Timer)
      requires Valid() && handle in Members(heap.nodes)
      modifies this`timerCounter, heap, handle
      modifies Members(heap.nodes)`left, Members(heap.nodes)`right, Members(heap.nodes)`parent
      ensures Valid() && View() == AfterRound(old(View()), handle) && handle.repeat == old(handle.repeat)
    {
      ghost var was, members := View(), Members(heap.nodes);
      Fire(handle);
      RoundOf(was, View(), members, handle);
    }

    /** How a timer that was in the heap at the start stands after timers were run: untouched, or fired
        and then out of the heap or due later than now. */
    ghost predicate Tracked(t: Timer, key: Key, repeat: nat, hasFired: bool)
      reads this, heap, t
    {
      && t.repeat == repeat
      && (!hasFired ==> t in Members(heap.nodes) && t.K() == key)
      && (hasFired ==> key.timeout <= time)
      && (hasFired && repeat > 0 ==> t in Members(heap.nodes) && t.timeout > time && t.timeout == Restarted(time, repeat))
      && (hasFired && repeat == 0 ==> t !in Members(heap.nodes))
    }

    /** uv__run_timers with callbacks that touch no timers, wherever it ends. */
    method RunTimers() returns (fired: seq<Timer>)
      requires Valid() && Ends(View())
      modifies this`timerCounter, heap, handles
      ensures Valid()
      ensures FiredSoFar(old(Before()), fired)
      ensures forall i, j :: 0 <= i < j < |fired| ==>
        old(fired[i].timeout) < old(fired[j].timeout)
        || (old(fired[i].timeout) == old(fired[j].timeout) && old(fired[i].startId) < old(fired[j].startId))
      ensures forall t :: t in old(Before()) ==> (t in fired <==> old(Before())[t].timeout <= time)
      ensures forall t :: t in old(Before()) ==> Tracked(t, old(Before())[t], old(t.repeat), t in fired)
      ensures Members(heap.nodes) <= old(Before()).Keys
      ensures AfterRounds(old(View()), |fired|) == Some(View()) && AfterRounds(old(View()), |fired| + 1).None?
    {
      fired := [];
      ghost var start := View();
      ViewIsWellFormed();
      ProgressStart(start);
      while heap.min != null && heap.min.timeout <= time
        invariant Valid() && Progress(View(), start, fired) && RepeatsKept(start)
        decreases |start.due| - |fired|
      {
        var handle := FireMin(start, fired);
        EachOnce(start.due, fired + [handle]);
        fired := fired + [handle];
      }
      NoneLeft(start, fired);
    }

    /** Of two timers that come due together, the one started first fires first. */
    method FiresInStartOrder(first: Timer, second: Timer, a: nat, b: nat, repeatA: nat, repeatB: nat, later: nat)
      returns (fired: seq<Timer>)
      requires Valid() && first in handles && second in handles && first != second && !first.closing && !second.closing
      requires a <= UINT64_MAX && b <= UINT64_MAX && repeatA <= UINT64_MAX && repeatB <= UINT64_MAX
      requires heap.nelts + 2 < 0x1_0000_0000 && time <= later <= UINT64_MAX
      requires Clamped(time, a) == Clamped(time, b) <= later
      requires later < UINT64_MAX || (repeatA == repeatB == 0 && forall t :: t in handles ==> t.repeat == 0)
      modifies this`time, this`timerCounter, heap, handles
      ensures Valid() && exists i, j :: 0 <= i < j < |fired| && fired[i] == first && fired[j] == second
    {
      StartBoth(first, second, a, b, repeatA, repeatB);
      UpdateTime(later);
      EndsNow();
      fired := RunBoth(first, second);
    }

    method RunBoth(first: Timer, second: Timer) returns (fired: seq<Timer>)
      requires Valid() && Ends(View()) && first in Members(heap.nodes) && second in Members(heap.nodes)
      requires first.timeout == second.timeout <= time && first.startId < second.startId
      modifies this`timerCounter, heap, handles
      ensures Valid() && exists i, j :: 0 <= i < j < |fired| && fired[i] == first && fired[j] == second
    {
      ghost var keys := Before();
      assert keys[first] == first.K() && keys[second] == second.K();
      fired := RunTimers();
      var i := IndexOf(fired, first);
      var j := IndexOf(fired, second);
      EarlierFirst(keys, fired, i, j);
    }

    /** uv__update_time. */
    method UpdateTime(now: nat)
      requires Valid() && now <= UINT64_MAX
      modifies this`time
      ensures Valid() && time == now
    {
      time := now;
      forall t | t in handles ensures HandleOk(t) {
        assert old(HandleOk(t));
      }
    }

    lemma EndsNow()
      requires Valid() && (time < UINT64_MAX || forall t :: t in handles ==> t.repeat == 0)
      ensures Ends(View())
    {}

    method StartBoth(first: Timer, second: Timer, a: nat, b: nat, repeatA: nat, repeatB: nat)
      requires Valid() && first in handles && second in handles && first != second && !first.closing && !second.closing
      requires a <= UINT64_MAX && b <= UINT64_MAX && repeatA <= UINT64_MAX && repeatB <= UINT64_MAX
      requires heap.nelts + 2 < 0x1_0000_0000
      modifies this`timerCounter, heap, first, second
      modifies Members(heap.nodes)`left, Members(heap.nodes)`right, Members(heap.nodes)`parent
      ensures Valid() && first in Members(heap.nodes) && second in Members(heap.nodes)
      ensures first.timeout == Clamped(time, a) && second.timeout == Clamped(time, b) && first.startId < second.startId
      ensures first.repeat == repeatA && second.repeat == repeatB
    {
      var _ := Start(first, true, a, repeatA);
      assert HandleOk(second);
      var _ := Start(second, true, b, repeatB);
    }

    ghost predicate RepeatsKept(start: Pending)
      reads this, handles
    {
      start.due.Keys == start.repeats.Keys && start.due.Keys <= handles
      && forall t :: t in start.due ==> t.repeat == start.repeats[t]
    }

    /** One round of uv__run_timers. */
    method FireMin(ghost start: Pending, ghost fired: seq<Timer>) returns (handle: Timer)
      requires Valid() && Progress(View(), start, fired) && RepeatsKept(start)
      requires heap.min != null && heap.min.timeout <= time
      modifies this`timerCounter, heap, heap.min
      modifies Members(heap.nodes)`left, Members(heap.nodes)`right, Members(heap.nodes)`parent
      ensures Valid() && Progress(View(), start, fired + [handle]) && RepeatsKept(start)
    {
      handle := heap.min;
      ViewIsWellFormed();
      ProgressStep(View(), start, fired, handle);
      FireRound(handle);
    }

    lemma NoneLeft(start: Pending, fired: seq<Timer>)
      requires Valid() && Progress(View(), start, fired) && RepeatsKept(start)
      requires heap.min != null ==> heap.min.timeout > time
      ensures forall t :: t in start.due ==> (t in fired <==> start.due[t].timeout <= time)
      ensures forall t :: t in start.due ==> Tracked(t, start.due[t], start.repeats[t], t in fired)
      ensures AfterRounds(start, |fired| + 1).None?
    {
      MinIsLeast();
      forall t | t in Members(heap.nodes) ensures t.timeout > time {
        assert t == heap.min || Less(heap.min.K(), t.K());
      }
    }

    /** Every timer in the heap with its key. */
    ghost function Before(): map<Timer, Key>
      requires Members(heap.nodes) <= handles
      reads this, heap, handles
    {
      map t | t in Members(heap.nodes) :: t.K()
    }
  }

  lemma IndexOf(fired: seq<Timer>, t: Timer) returns (i: nat)
    requires t in fired
    ensures i < |fired| && fired[i] == t
  {
    i :| 0 <= i < |fired| && fired[i] == t;
  }

  lemma EarlierFirst(keys: map<Timer, Key>, fired: seq<Timer>, i: nat, j: nat)
    requires FiredSoFar(keys, fired) && i < |fired| && j < |fired|
    requires keys[fired[i]].timeout == keys[fired[j]].timeout && keys[fired[i]].startId < keys[fired[j]].startId
    ensures i < j
  {}

  /** The new timeout of a repeating timer. */
  function Restarted(time: nat, repeat: nat): nat {
    if time + repeat <= UINT64_MAX then time + repeat else UINT64_MAX
  }

  datatype Option<T> = None | Some(value: T)

  /** A repeating timer comes back later than now, unless it is the largest time. */
  lemma RestartsLaterIff(time: nat, repeat: nat)
    requires 0 < repeat <= UINT64_MAX && time <= UINT64_MAX
    ensures Clamped(time, repeat) == Restarted(time, repeat)
    ensures Clamped(time, repeat) > time <==> time < UINT64_MAX
  {
    ClampedIsMin(time, repeat);
  }

  // ----- When running the timers ends -----

  datatype Pending = Pending(time: nat, counter: nat, due: map<Timer, Key>, repeats: map<Timer, nat>)

  /** What a round changes, timer by timer. */
  lemma RoundOf(was: Pending, now: Pending, members: set<Timer>, t: Timer)
    requires t in members && was.due.Keys == members == was.repeats.Keys && now.time == was.time
    requires now.due.Keys == now.repeats.Keys == if was.repeats[t] > 0 then members else members - {t}
    requires forall u :: u in now.due && u != t ==> now.due[u] == was.due[u] && now.repeats[u] == was.repeats[u]
    requires t in now.due ==> now.due[t] == Key(Restarted(was.time, was.repeats[t]), was.counter) && now.repeats[t] == was.repeats[t]
    requires now.counter == was.counter + if was.repeats[t] > 0 then 1 else 0
    ensures now == AfterRound(was, t)
  {
    assert now.due == AfterRound(was, t).due;
    assert now.repeats == AfterRound(was, t).repeats;
  }

  ghost predicate WellFormed(p: Pending) {
    && p.time <= UINT64_MAX && p.due.Keys == p.repeats.Keys
    && (forall t :: t in p.due ==> p.due[t].timeout <= UINT64_MAX && p.due[t].startId < p.counter && p.repeats[t] <= UINT64_MAX)
    && forall t, u :: t in p.due && u in p.due && t != u ==> p.due[t].startId != p.due[u].startId
  }

  /** The timer at the top of the heap, and it is due. */
  ghost predicate CanFire(p: Pending, t: Timer) {
    t in p.due && p.due[t].timeout <= p.time && forall u :: u in p.due && u != t ==> Less(p.due[t], p.due[u])
  }

  function AfterRound(p: Pending, t: Timer): Pending {
    if t in p.repeats && p.repeats[t] > 0 then p.(due := p.due[t := Key(Restarted(p.time, p.repeats[t]), p.counter)], counter := p.counter + 1)
    else p.(due := p.due - {t}, repeats := p.repeats - {t})
  }

  /** The timers after n rounds, if the loop goes that far. */
  ghost function AfterRounds(p: Pending, n: nat): Option<Pending>
    requires WellFormed(p)
    ensures AfterRounds(p, n).Some? ==> WellFormed(AfterRounds(p, n).value)
  {
    if n == 0 then Some(p)
    else
      var q := AfterRounds(p, n - 1);
      if q.Some? && exists t :: t in q.value.due && CanFire(q.value, t) then
        var t :| t in q.value.due && CanFire(q.value, t);
        Some(AfterRound(q.value, t))
      else None
  }

  lemma OnlyOneCanFire(p: Pending, t: Timer, u: Timer)
    requires CanFire(p, t) && CanFire(p, u)
    ensures t == u
  {}

  /** How a timer stands after some rounds. */
  ghost predicate Stands(p: Pending, t: Timer, key: Key, repeat: nat, hasFired: bool) {
    if !hasFired then t in p.due && p.due[t] == key && t in p.repeats && p.repeats[t] == repeat
    else
      && key.timeout <= p.time
      && if repeat == 0 then t !in p.due
         else t in p.due && t in p.repeats && p.repeats[t] == repeat && p.time < p.due[t].timeout == Restarted(p.time, repeat)
  }

  ghost predicate Progress(p: Pending, start: Pending, fired: seq<Timer>) {
    && WellFormed(p) && WellFormed(start) && Ends(start) && p.time == start.time && p.due.Keys <= start.due.Keys
    && AfterRounds(start, |fired|) == Some(p) && FiredSoFar(start.due, fired)
    && forall t :: t in start.due ==> Stands(p, t, start.due[t], start.repeats[t], t in fired)
  }

  lemma ProgressStart(p: Pending)
    requires WellFormed(p) && Ends(p)
    ensures Progress(p, p, [])
  {}

  lemma ProgressStep(p: Pending, start: Pending, fired: seq<Timer>, t: Timer)
    requires Progress(p, start, fired) && CanFire(p, t)
    ensures Progress(AfterRound(p, t), start, fired + [t]) && t in start.due && t !in fired
  {
    assert Stands(p, t, start.due[t], start.repeats[t], t in fired);
    forall u | u in start.due && u !in fired && u != t ensures Less(start.due[t], start.due[u]) {
      assert Stands(p, u, start.due[u], start.repeats[u], false);
    }
    FiredNext(start.due, fired, t);
    RoundKeepsWellFormed(p, t);
    NextRound(start, |fired|, t);
    forall u | u in start.due ensures Stands(AfterRound(p, t), u, start.due[u], start.repeats[u], u in fired + [t]) {
      assert Stands(p, u, start.due[u], start.repeats[u], u in fired);
    }
  }

  lemma NextRound(p: Pending, n: nat, t: Timer)
    requires WellFormed(p) && AfterRounds(p, n).Some? && CanFire(AfterRounds(p, n).value, t)
    ensures AfterRounds(p, n + 1) == Some(AfterRound(AfterRounds(p, n).value, t))
  {
    var q := AfterRounds(p, n).value;
    var u :| u in q.due && CanFire(q, u) && AfterRounds(p, n + 1) == Some(AfterRound(q, u));
    OnlyOneCanFire(q, t, u);
  }

  /** The time is not the last, or no timer repeats. */
  ghost predicate Ends(p: Pending) {
    p.time < UINT64_MAX || forall t :: t in p.repeats ==> p.repeats[t] == 0
  }

  ghost function DueNow(p: Pending): set<Timer> {
    set t | t in p.due && p.due[t].timeout <= p.time
  }

  lemma RoundKeepsWellFormed(p: Pending, t: Timer)
    requires WellFormed(p) && CanFire(p, t)
    ensures WellFormed(AfterRound(p, t))
  {}

  /** Where rounds end, each takes one timer off those that are due. */
  lemma RoundUsesOne(p: Pending, t: Timer)
    requires WellFormed(p) && CanFire(p, t) && Ends(p)
    ensures Ends(AfterRound(p, t)) && DueNow(AfterRound(p, t)) == DueNow(p) - {t}
  {
    assert p.repeats[t] > 0 ==> Restarted(p.time, p.repeats[t]) > p.time;
  }

  /** At the largest time a repeating timer is due before and after every round. */
  lemma RepeatingStaysDue(p: Pending, t: Timer, u: Timer)
    requires WellFormed(p) && CanFire(p, t) && p.time == UINT64_MAX && u in p.repeats && p.repeats[u] > 0
    ensures u in DueNow(p) && u in DueNow(AfterRound(p, t)) && AfterRound(p, t).repeats[u] == p.repeats[u]
  {}

  lemma {:induction false} LeastExists(due: map<Timer, Key>) returns (t: Timer)
    requires due != map[]
    requires forall t, u :: t in due && u in due && t != u ==> due[t].startId != due[u].startId
    ensures t in due && forall u :: u in due && u != t ==> Less(due[t], due[u])
    decreases |due.Keys|
  {
    assert due.Keys != {};
    t :| t in due;
    var rest := due - {t};
    assert due.Keys == rest.Keys + {t};
    if rest != map[] {
      var u := LeastExists(rest);
      assert u in due && due[u] == rest[u];
      if Less(due[u], due[t]) {
        t := u;
      }
    }
  }

  lemma {:induction false} RoundsUseUp(p: Pending, n: nat)
    requires WellFormed(p) && Ends(p) && AfterRounds(p, n).Some?
    ensures Ends(AfterRounds(p, n).value) && |DueNow(AfterRounds(p, n).value)| + n == |DueNow(p)|
  {
    if n > 0 {
      RoundsUseUp(p, n - 1);
      var q := AfterRounds(p, n - 1).value;
      var t :| t in q.due && CanFire(q, t) && AfterRounds(p, n).value == AfterRound(q, t);
      RoundUsesOne(q, t);
      assert t in DueNow(q);
    }
  }

  lemma {:induction false} RoundsGoOn(p: Pending, u: Timer, n: nat)
    requires WellFormed(p) && p.time == UINT64_MAX && u in p.repeats && p.repeats[u] > 0
    ensures AfterRounds(p, n).Some?
    ensures var q := AfterRounds(p, n).value; q.time == UINT64_MAX && u in q.repeats && q.repeats[u] > 0
  {
    if n > 0 {
      RoundsGoOn(p, u, n - 1);
      var q := AfterRounds(p, n - 1).value;
      var t := LeastExists(q.due);
      assert t == u || Less(q.due[t], q.due[u]);
      assert CanFire(q, t);
      var t' :| t' in q.due && CanFire(q, t') && AfterRounds(p, n) == Some(AfterRound(q, t'));
      RepeatingStaysDue(q, t', u);
    }
  }

  /** Running the timers ends exactly if the clock is not at its largest value or no timer in the heap
      repeats. */
  lemma RoundsEndIff(p: Pending)
    requires WellFormed(p)
    ensures (exists n :: AfterRounds(p, n).None?) <==> Ends(p)
  {
    if Ends(p) {
      var n := |DueNow(p)| + 1;
      if AfterRounds(p, n).Some? {
        RoundsUseUp(p, n);
      }
      assert AfterRounds(p, n).None?;
    } else {
      var u :| u in p.repeats && p.repeats[u] > 0;
      forall n ensures AfterRounds(p, n).Some? {
        RoundsGoOn(p, u, n);
      }
    }
  }

  /** The timers fired so far: each once, in order, and before all others. */
  ghost predicate FiredSoFar(before: map<Timer, Key>, fired: seq<Timer>) {
    && (forall i :: 0 <= i < |fired| ==> fired[i] in before)
    && (forall i, j :: 0 <= i < j < |fired| ==> fired[i] != fired[j] && Less(before[fired[i]], before[fired[j]]))
    && (forall i, t :: 0 <= i < |fired| && t in before && t !in fired ==> Less(before[fired[i]], before[t]))
  }

  lemma FiredNext(before: map<Timer, Key>, fired: seq<Timer>, t: Timer)
    requires FiredSoFar(before, fired) && t in before && t !in fired
    requires forall u :: u in before && u !in fired && u != t ==> Less(before[t], before[u])
    ensures FiredSoFar(before, fired + [t])
  {}

  lemma {:induction false} EachOnce(before: map<Timer, Key>, fired: seq<Timer>)
    requires forall i :: 0 <= i < |fired| ==> fired[i] in before
    requires forall i, j :: 0 <= i < j < |fired| ==> fired[i] != fired[j]
    ensures |fired| <= |before|
    decreases |fired|
  {
    if fired != [] {
      var n := |fired| - 1;
      var rest := before - {fired[n]};
      assert before.Keys == rest.Keys + {fired[n]};
      assert |before.Keys| == |before| && |rest.Keys| == |rest|;
      EachOnce(rest, fired[..n]);
    }
  }
}
