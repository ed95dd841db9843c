/** The queue of writers (DBImpl::Write and BuildBatchGroup in db/db_impl.cc): whoever reaches the
    front writes for the writers behind it too. Steps are the stretches under the mutex. */
module GroupCommit {
  import opened Keys
  import opened LsmState

  /** A caller of Write; a missing batch asks for a new memtable. */
  datatype Writer = Writer(id: nat, batch: Option<seq<Op>>, sync: bool)

  /** The outcome of a turn at the front of the queue. */
  datatype Group = Group(members: seq<Writer>, ops: seq<Op>, first: nat, synced: bool, ok: bool)

  /** The front writer is either waiting for its turn, or logging a group of the first n writers
      without the mutex. */
  datatype Phase = Waiting | Logging(n: nat, ops: seq<Op>)

  datatype Queue = Queue(
    writers: seq<Writer>,
    phase: Phase,
    lastSeq: nat,
    log: seq<Group>,        // records in the log file
    mem: seq<Entry>,        // entries applied, in order
    arrived: seq<Writer>,   // history: everyone who called
    groups: seq<Group>)     // history: everyone who was released, turn by turn

  function OpsOf(w: Writer): seq<Op> {
    if w.batch.Some? then w.batch.value else []
  }

  /** The members' batches one after the other. */
  function Merged(ws: seq<Writer>, n: nat): seq<Op>
    requires n <= |ws|
  {
    if n == 0 then [] else Merged(ws, n - 1) + OpsOf(ws[n - 1])
  }

  function Members(groups: seq<Group>, n: nat): seq<Writer>
    requires n <= |groups|
  {
    if n == 0 then [] else Members(groups, n - 1) + groups[n - 1].members
  }

  function OpCount(groups: seq<Group>, n: nat): nat
    requires n <= |groups|
  {
    if n == 0 then 0 else OpCount(groups, n - 1) + |groups[n - 1].ops|
  }

  /** The entries of the successful groups. */
  function Applied(groups: seq<Group>, n: nat): seq<Entry>
    requires n <= |groups|
  {
    if n == 0 then [] else Applied(groups, n - 1) + (if groups[n - 1].ok then Stamp(groups[n - 1].ops, groups[n - 1].first) else [])
  }

  // ----- Steps -----

  datatype Step =
    | Arrive(w: Writer)
    | Refuse(ok: bool)                        // no room for the front writer, or it has no batch
    | Start(n: nat)                           // the front writer takes the first n writers
    | Finish(logged: bool, synced: bool)      // the group is logged and applied, or that failed

  /** Which groups BuildBatchGroup may choose: a sync write is never left to a writer that does not
      sync. */
  ghost predicate MayGroup(writers: seq<Writer>, n: nat) {
    && 1 <= n <= |writers| && writers[0].batch.Some?
    && forall i :: 0 <= i < n && writers[i].sync ==> writers[0].sync
  }

  ghost predicate Enabled(s: Queue, step: Step) {
    match step
    case Arrive(w) => w !in s.arrived
    case Refuse(ok) => s.phase.Waiting? && s.writers != [] && (ok ==> s.writers[0].batch.None?)
    case Start(n) => s.phase.Waiting? && MayGroup(s.writers, n)
    case Finish(_, _) => s.phase.Logging? && s.phase.n <= |s.writers|
  }

  /** The front writer's loop over the queue: everyone in the group gets its status. */
  function Release(s: Queue, n: nat, g: Group): Queue
    requires n <= |s.writers|
  {
    s.(writers := s.writers[n..], phase := Waiting, groups := s.groups + [g])
  }

  function Next(s: Queue, step: Step): Queue
    requires Enabled(s, step)
  {
    match step
    case Arrive(w) => s.(writers := s.writers + [w], arrived := s.arrived + [w])
    case Refuse(ok) => Release(s, 1, Group(s.writers[..1], [], s.lastSeq + 1, false, ok))
    case Start(n) => s.(phase := Logging(n, Merged(s.writers, n)))
    case Finish(logged, synced) =>
      var n, ops := s.phase.n, s.phase.ops;
      var ok := logged && (n > 0 && s.writers[0].sync ==> synced);
      var g := Group(s.writers[..n], ops, s.lastSeq + 1, n > 0 && s.writers[0].sync && ok, ok);
      var t := Release(s, n, g);
      t.(lastSeq := s.lastSeq + |ops|,
         log := if logged then s.log + [g] else s.log,
         mem := if ok then s.mem + Stamp(ops, s.lastSeq + 1) else s.mem)
  }

  // ----- The invariant -----

  /** What each released group was. */
  ghost predicate GroupOk(groups: seq<Group>, i: nat)
    requires i < |groups|
  {
    var g := groups[i];
    && g.members != [] && g.first == OpCount(groups, i) + 1
    && (g.ops == Merged(g.members, |g.members|) || (g.ops == [] && |g.members| == 1))
    && (g.ok ==> g.ops == Merged(g.members, |g.members|))
    && (g.ok && (exists w :: w in g.members && w.sync && w.batch.Some?) ==> g.synced)
  }

  ghost predicate QueueInv(s: Queue) {
    && s.arrived == Members(s.groups, |s.groups|) + s.writers
    && NoRepeats(s.arrived)
    && (s.phase.Logging? ==> MayGroup(s.writers, s.phase.n) && s.phase.ops == Merged(s.writers, s.phase.n))
    && s.lastSeq == OpCount(s.groups, |s.groups|)
    && s.mem == Applied(s.groups, |s.groups|)
    && (forall g :: g in s.log ==> g in s.groups)
    && (forall g :: g in s.groups && g.ok && g.ops != [] ==> g in s.log)
    && (forall i {:trigger GroupOk(s.groups, i)} :: 0 <= i < |s.groups| ==> GroupOk(s.groups, i))
  }

  ghost predicate NoRepeats(ws: seq<Writer>) {
    forall i, j :: 0 <= i < j < |ws| ==> ws[i] != ws[j]
  }

  // ----- Every step keeps it -----

  lemma {:induction false} MergedPrefix(a: seq<Writer>, b: seq<Writer>, n: nat)
    requires n <= |a| && n <= |b| && a[..n] == b[..n]
    ensures Merged(a, n) == Merged(b, n)
  {
    if n > 0 {
      assert a[..n][..n - 1] == a[..n - 1] && b[..n][..n - 1] == b[..n - 1];
      assert a[n - 1] == a[..n][n - 1] == b[..n][n - 1] == b[n - 1];
      MergedPrefix(a, b, n - 1);
    }
  }

  /** One more group leaves the sums over the earlier ones alone. */
  lemma {:induction false} GroupsAppend(groups: seq<Group>, g: Group, n: nat)
    requires n <= |groups|
    ensures Members(groups + [g], n) == Members(groups, n) && OpCount(groups + [g], n) == OpCount(groups, n)
    ensures Applied(groups + [g], n) == Applied(groups, n)
  {
    if n > 0 {
      GroupsAppend(groups, g, n - 1);
    }
  }

  lemma GroupsStep(groups: seq<Group>, g: Group)
    ensures var t, n := groups + [g], |groups|;
      && Members(t, n + 1) == Members(groups, n) + g.members && OpCount(t, n + 1) == OpCount(groups, n) + |g.ops|
      && Applied(t, n + 1) == Applied(groups, n) + (if g.ok then Stamp(g.ops, g.first) else [])
  {
    GroupsAppend(groups, g, |groups|);
  }

  lemma GroupsStayOk(groups: seq<Group>, g: Group)
    requires forall i {:trigger GroupOk(groups, i)} :: 0 <= i < |groups| ==> GroupOk(groups, i)
    requires g.members != [] && g.first == OpCount(groups, |groups|) + 1
    requires g.ops == Merged(g.members, |g.members|) || (g.ops == [] && |g.members| == 1 && !g.ok)
    requires g.ok && (exists w :: w in g.members && w.sync && w.batch.Some?) ==> g.synced
    ensures forall i {:trigger GroupOk(groups + [g], i)} :: 0 <= i < |groups + [g]| ==> GroupOk(groups + [g], i)
  {
    var t := groups + [g];
    forall i | 0 <= i < |t| ensures GroupOk(t, i) {
      if i < |groups| {
        assert GroupOk(groups, i);
        GroupsAppend(groups, g, i);
      } else {
        GroupsAppend(groups, g, |groups|);
      }
    }
  }

  /** The released members and the queue stay the arrivals in order. */
  lemma QueueSplits(s: Queue, n: nat, g: Group)
    requires s.arrived == Members(s.groups, |s.groups|) + s.writers && n <= |s.writers| && g.members == s.writers[..n]
    ensures s.arrived == Members(s.groups + [g], |s.groups| + 1) + s.writers[n..]
  {
    GroupsStep(s.groups, g);
    assert s.writers == s.writers[..n] + s.writers[n..];
  }

  lemma ArriveKeepsInv(s: Queue, w: Writer)
    requires QueueInv(s) && w !in s.arrived
    ensures QueueInv(Next(s, Arrive(w)))
  {
    var t := Next(s, Arrive(w));
    if s.phase.Logging? {
      var n := s.phase.n;
      assert t.writers[..n] == s.writers[..n];
      MergedPrefix(t.writers, s.writers, n);
    }
  }

  lemma RefuseKeepsInv(s: Queue, ok: bool)
    requires QueueInv(s) && Enabled(s, Refuse(ok))
    ensures QueueInv(Next(s, Refuse(ok)))
  {
    var g := Group(s.writers[..1], [], s.lastSeq + 1, false, ok);
    var w := s.writers[0];
    assert g.members == [w] && (ok ==> OpsOf(w) == []);
    assert Merged(g.members, 1) == Merged(g.members, 0) + OpsOf(w);
    QueueSplits(s, 1, g);
    GroupsStep(s.groups, g);
    GroupsStayOk(s.groups, g);
  }

  lemma FinishKeepsInv(s: Queue, logged: bool, synced: bool)
    requires QueueInv(s) && Enabled(s, Finish(logged, synced))
    ensures QueueInv(Next(s, Finish(logged, synced)))
  {
    var t := Next(s, Finish(logged, synced));
    var n, g := s.phase.n, t.groups[|s.groups|];
    MergedPrefix(s.writers, g.members, n);
    QueueSplits(s, n, g);
    GroupsStep(s.groups, g);
    GroupsStayOk(s.groups, g);
  }

  lemma NextKeepsInv(s: Queue, step: Step)
    requires QueueInv(s) && Enabled(s, step)
    ensures QueueInv(Next(s, step))
  {
    match step
    case Arrive(w) => ArriveKeepsInv(s, w);
    case Refuse(ok) => RefuseKeepsInv(s, ok);
    case Start(n) =>
    case Finish(logged, synced) => FinishKeepsInv(s, logged, synced);
  }

  // ----- Whole runs -----

  function Init(): Queue {
    Queue([], Waiting, 0, [], [], [], [])
  }

  ghost predicate IsRun(states: seq<Queue>, steps: seq<Step>) {
    && |states| == |steps| + 1
    && forall k :: 0 <= k < |steps| ==> Enabled(states[k], steps[k]) && states[k + 1] == Next(states[k], steps[k])
  }

  lemma {:induction false} RunKeepsInv(states: seq<Queue>, steps: seq<Step>, k: nat)
    requires IsRun(states, steps) && QueueInv(states[0]) && k <= |steps|
    ensures QueueInv(states[k])
  {
    if k > 0 {
      RunKeepsInv(states, steps, k - 1);
      NextKeepsInv(states[k - 1], steps[k - 1]);
    }
  }

  lemma InitInv()
    ensures QueueInv(Init())
  {}

  lemma {:induction false} OpCountGrows(groups: seq<Group>, i: nat, j: nat)
    requires i < j <= |groups|
    ensures OpCount(groups, i) + |groups[i].ops| <= OpCount(groups, j)
    decreases j
  {
    if i < j - 1 {
      OpCountGrows(groups, i, j - 1);
    }
  }

  /** Groups get disjoint, increasing ranges of sequence numbers without gaps, failed ones included. */
  lemma SequenceRanges(s: Queue, i: nat, j: nat)
    requires QueueInv(s) && i < j <= |s.groups|
    ensures s.groups[0].first == 1
    ensures var next := if j < |s.groups| then s.groups[j].first else s.lastSeq + 1;
      && s.groups[i].first + |s.groups[i].ops| <= next
      && (j == i + 1 ==> s.groups[i].first + |s.groups[i].ops| == next)
  {
    assert GroupOk(s.groups, i) && GroupOk(s.groups, 0);
    assert j < |s.groups| ==> GroupOk(s.groups, j);
    OpCountGrows(s.groups, i, j);
  }

  lemma {:induction false} AppliedAscends(groups: seq<Group>, n: nat)
    requires n <= |groups|
    requires forall i {:trigger GroupOk(groups, i)} :: 0 <= i < |groups| ==> GroupOk(groups, i)
    ensures forall k :: 0 <= k < |Applied(groups, n)| ==> 1 <= Applied(groups, n)[k].key.seqno <= OpCount(groups, n)
    ensures forall k, m :: 0 <= k < m < |Applied(groups, n)| ==>
      Applied(groups, n)[k].key.seqno < Applied(groups, n)[m].key.seqno
  {
    if n > 0 {
      AppliedAscends(groups, n - 1);
      assert GroupOk(groups, n - 1);
    }
  }

  /** What reaches the memtable carries strictly increasing sequence numbers up to the last one. */
  lemma MemTableAscends(s: Queue)
    requires QueueInv(s)
    ensures forall k :: 0 <= k < |s.mem| ==> 1 <= s.mem[k].key.seqno <= s.lastSeq
    ensures forall k, m :: 0 <= k < m < |s.mem| ==> s.mem[k].key.seqno < s.mem[m].key.seqno
  {
    AppliedAscends(s.groups, |s.groups|);
  }

  lemma {:induction false} MemberPlace(groups: seq<Group>, n: nat, i: nat, k: nat) returns (at: nat)
    requires i < n <= |groups| && k < |groups[i].members|
    ensures |Members(groups, i)| + k == at < |Members(groups, i)| + |groups[i].members| <= |Members(groups, n)|
    ensures Members(groups, n)[at] == groups[i].members[k]
  {
    if i == n - 1 {
      at := |Members(groups, i)| + k;
    } else {
      at := MemberPlace(groups, n - 1, i, k);
    }
  }

  /** Everyone released was released in one group only, and is no longer in the queue. */
  lemma ReleasedOnce(s: Queue, i: nat, k: nat, j: nat, m: nat)
    requires QueueInv(s) && i < |s.groups| && k < |s.groups[i].members|
    requires j < |s.groups| && m < |s.groups[j].members| && s.groups[i].members[k] == s.groups[j].members[m]
    ensures i == j && k == m
    ensures s.groups[i].members[k] !in s.writers
  {
    var n, released := |s.groups|, Members(s.groups, |s.groups|);
    var a := MemberPlace(s.groups, n, i, k);
    var b := MemberPlace(s.groups, n, j, m);
    assert s.arrived[a] == s.arrived[b];
    if i < j {
      MembersGrow(s.groups, i, j);
    } else if j < i {
      MembersGrow(s.groups, j, i);
    }
    forall q | 0 <= q < |s.writers| ensures s.writers[q] != s.groups[i].members[k] {
      assert s.arrived[|released| + q] == s.writers[q];
    }
  }

  lemma {:induction false} MembersGrow(groups: seq<Group>, i: nat, j: nat)
    requires i < j <= |groups|
    ensures |Members(groups, i)| + |groups[i].members| <= |Members(groups, j)|
    decreases j
  {
    if i < j - 1 {
      MembersGrow(groups, i, j - 1);
    }
  }

  /** Everyone who called is in the queue or was released, in the order of the calls. */
  lemma NobodyLost(s: Queue, w: Writer)
    requires QueueInv(s) && w in s.arrived
    ensures w in s.writers || exists i :: 0 <= i < |s.groups| && w in s.groups[i].members
  {
    if w !in s.writers {
      InSomeGroup(s.groups, |s.groups|, w);
    }
  }

  lemma {:induction false} InSomeGroup(groups: seq<Group>, n: nat, w: Writer)
    requires n <= |groups| && w in Members(groups, n)
    ensures exists i :: 0 <= i < n && w in groups[i].members
  {
    if w !in groups[n - 1].members {
      InSomeGroup(groups, n - 1, w);
    }
  }

  lemma {:induction false} MergedHolds(ws: seq<Writer>, n: nat, k: nat)
    requires k < n <= |ws|
    ensures |Merged(ws, k)| + |OpsOf(ws[k])| <= |Merged(ws, n)|
    ensures Merged(ws, n)[|Merged(ws, k)|..|Merged(ws, k)| + |OpsOf(ws[k])|] == OpsOf(ws[k])
  {
    var a, b := |Merged(ws, k)|, |Merged(ws, k)| + |OpsOf(ws[k])|;
    if k < n - 1 {
      MergedHolds(ws, n - 1, k);
      FrontSlice(Merged(ws, n - 1), OpsOf(ws[n - 1]), a, b);
    } else {
      BackSlice(Merged(ws, k), OpsOf(ws[k]));
    }
  }

  lemma FrontSlice<T>(x: seq<T>, y: seq<T>, a: nat, b: nat)
    requires a <= b <= |x|
    ensures (x + y)[a..b] == x[a..b]
  {}

  lemma BackSlice<T>(x: seq<T>, y: seq<T>)
    ensures (x + y)[|x|..|x| + |y|] == y
  {}

  /** A writer told that its write succeeded has its whole batch in its group's log record, in one
      piece, synced if it asked for that. */
  lemma SuccessMeansLogged(s: Queue, i: nat, k: nat)
    requires QueueInv(s) && i < |s.groups| && k < |s.groups[i].members| && s.groups[i].ok
    ensures var g := s.groups[i]; var w := g.members[k]; var at := |Merged(g.members, k)|;
      && at + |OpsOf(w)| <= |g.ops| && g.ops[at..at + |OpsOf(w)|] == OpsOf(w)
      && (OpsOf(w) != [] ==> g in s.log)
      && (w.sync && w.batch.Some? ==> g.synced)
  {
    var g := s.groups[i];
    assert GroupOk(s.groups, i);
    MergedHolds(g.members, |g.members|, k);
    assert g.members[k] in g.members;
    assert g in s.groups;
  }

  // ----- Progress -----

  function Rank(s: Queue): nat {
    2 * |s.writers| + (if s.phase.Waiting? then 1 else 0)
  }

  /** Every turn brings the queue nearer to empty. */
  lemma TurnsDecrease(s: Queue, step: Step)
    requires QueueInv(s) && Enabled(s, step) && !step.Arrive?
    ensures Rank(Next(s, step)) < Rank(s)
  {}

  /** What ByteSize adds up to for the first n writers. */
  function SizeOf(byteSize: seq<Op> -> nat, ws: seq<Writer>, n: nat): nat
    requires n <= |ws|
  {
    if n == 0 then 0 else SizeOf(byteSize, ws, n - 1) + (if ws[n - 1].batch.Some? then byteSize(ws[n - 1].batch.value) else 0)
  }

  /** The limit depends on the first batch, so that a small write is not slowed down much. */
  function MaxSize(first: nat): nat {
    if first <= 0x2_0000 then first + 0x2_0000 else 0x10_0000
  }

  /** With a size that counts operations, the size of a group is that of its merged batch. */
  lemma {:induction false} SizeCountsMerged(byteSize: seq<Op> -> nat, ws: seq<Writer>, n: nat)
    requires n <= |ws| && forall ops :: byteSize(ops) == |ops|
    ensures SizeOf(byteSize, ws, n) == |Merged(ws, n)|
  {
    if n > 0 {
      SizeCountsMerged(byteSize, ws, n - 1);
    }
  }

  /** A group led by a batch of up to 128 KB holds at most 128 KB more; another one at most 1 MB, or its first
      batch alone; and the next writer does not fit. */
  lemma {:induction false} GroupLimits(byteSize: seq<Op> -> nat, ws: seq<Writer>, n: nat, m: nat)
    requires Chosen(byteSize, ws, n) && 1 <= m <= n && ws[0].batch.Some?
    ensures var first := byteSize(ws[0].batch.value);
      && (first <= 131072 ==> SizeOf(byteSize, ws, m) <= first + 131072)
      && (first > 131072 ==> SizeOf(byteSize, ws, m) <= 1048576 || SizeOf(byteSize, ws, m) == first)
      && (n < |ws| && (ws[0].sync || !ws[n].sync) ==>
            ws[n].batch.Some? && SizeOf(byteSize, ws, n + 1) > if first <= 131072 then first + 131072 else 1048576)
  {
    if m > 1 {
      GroupLimits(byteSize, ws, n, m - 1);
      assert !Stops(byteSize, ws, m - 1);
    } else {
      assert SizeOf(byteSize, ws, 1) == SizeOf(byteSize, ws, 0) + byteSize(ws[0].batch.value);
    }
  }

  /** Why the group does not include the next writer. */
  ghost predicate Stops(byteSize: seq<Op> -> nat, ws: seq<Writer>, n: nat)
    requires 1 <= n < |ws| && ws[0].batch.Some?
  {
    || (ws[n].sync && !ws[0].sync)
    || (ws[n].batch.Some? && SizeOf(byteSize, ws, n + 1) > MaxSize(byteSize(ws[0].batch.value)))
  }

  /** The group BuildBatchGroup takes: nobody in it stops it and the next writer does. */
  ghost predicate Chosen(byteSize: seq<Op> -> nat, ws: seq<Writer>, n: nat) {
    MayGroup(ws, n) && (n < |ws| ==> Stops(byteSize, ws, n)) && forall k :: 1 <= k < n ==> !Stops(byteSize, ws, k)
  }

  lemma {:induction false} GrowGroup(byteSize: seq<Op> -> nat, ws: seq<Writer>, n: nat) returns (m: nat)
    requires MayGroup(ws, n) && forall k :: 1 <= k < n ==> !Stops(byteSize, ws, k)
    decreases |ws| - n
    ensures Chosen(byteSize, ws, m)
  {
    if n == |ws| || Stops(byteSize, ws, n) {
      m := n;
    } else {
      m := GrowGroup(byteSize, ws, n + 1);
    }
  }

  /** As long as someone waits, a turn that need not fail can be taken: the group on its way finishes, the
      front writer's group starts, or its request for a memtable is answered. */
  lemma TurnPossible(s: Queue, byteSize: seq<Op> -> nat)
    requires QueueInv(s) && s.writers != []
    ensures s.phase.Logging? ==> Enabled(s, Finish(true, true))
    ensures s.phase.Waiting? && s.writers[0].batch.Some? ==> exists n :: Chosen(byteSize, s.writers, n) && Enabled(s, Start(n))
    ensures s.phase.Waiting? && s.writers[0].batch.None? ==> Enabled(s, Refuse(true))
  {
    if s.phase.Waiting? && s.writers[0].batch.Some? {
      var n := GrowGroup(byteSize, s.writers, 1);
      assert Enabled(s, Start(n));
    }
  }

  // ----- Requests for a new memtable -----

  /** A request behind a write is answered in that write's turn, whatever comes of it, exactly when nobody
      up to the request stops the group; otherwise it is still queued. `u` is the queue when the mutex is
      taken again, with whoever arrived meanwhile. */
  lemma SwallowedIff(byteSize: seq<Op> -> nat, s: Queue, n: nat, i: nat, u: Queue, logged: bool, synced: bool)
    requires QueueInv(s) && s.phase.Waiting? && s.writers != [] && Chosen(byteSize, s.writers, n)
    requires 0 < i < |s.writers| && s.writers[i].batch.None?
    requires QueueInv(u) && u.phase == Logging(n, Merged(s.writers, n)) && s.writers <= u.writers && u.groups == s.groups
    ensures var t := Next(u, Finish(logged, synced)); var w := s.writers[i];
      && (w in t.groups[|s.groups|].members && w != t.groups[|s.groups|].members[0]
          <==> forall k :: 1 <= k <= i ==> !Stops(byteSize, s.writers, k))
      && (w in t.writers <==> exists k :: 1 <= k <= i && Stops(byteSize, s.writers, k))
  {
    var t, w := Next(u, Finish(logged, synced)), s.writers[i];
    QueueDistinct(u);
    var g := t.groups[|s.groups|];
    assert g.members == u.writers[..n];
    assert w == u.writers[i];
    if i < n {
      assert g.members[i] == w;
      assert forall k :: 1 <= k <= i ==> !Stops(byteSize, s.writers, k);
    } else {
      assert t.writers[i - n] == w;
      assert Stops(byteSize, s.writers, n);
    }
  }

  /** A request for a new memtable that ends up behind another write is answered without a turn of
      its own, so nothing forces the memtable to be switched. */
  lemma RequestSwallowed() returns (s: Queue, g: Group, w: Writer)
    ensures QueueInv(s) && s.groups == [g] && g.ok && g.members != [] && g.members[0].batch.Some?
    ensures w in g.members && w.batch.None? && w != g.members[0]
  {
    var a := Writer(0, Some([Op(0.0, Put, [])]), false);
    w := Writer(1, None, false);
    var s1 := Next(Init(), Arrive(a));
    var s2 := Next(s1, Arrive(w));
    InitInv();
    NextKeepsInv(Init(), Arrive(a));
    NextKeepsInv(s1, Arrive(w));
    assert s2.writers == [a, w];
    var s3 := Next(s2, Start(2));
    NextKeepsInv(s2, Start(2));
    s := Next(s3, Finish(true, true));
    NextKeepsInv(s3, Finish(true, true));
    g := s.groups[0];
    assert g.members == [a, w];
  }

  // ----- The functions themselves -----

  /** BuildBatchGroup: the longest group the rules allow, with its batches in queue order. */
  method BuildBatchGroup(byteSize: seq<Op> -> nat, writers: seq<Writer>) returns (n: nat, result: seq<Op>)
    requires writers != [] && writers[0].batch.Some?
    ensures Chosen(byteSize, writers, n) && result == Merged(writers, n)
  {
    var first := writers[0];
    result := first.batch.value;
    var size := byteSize(first.batch.value);
    var maxSize := 0x10_0000;
    if size <= 0x2_0000 {
      maxSize := size + 0x2_0000;
    }
    assert Merged(writers, 1) == Merged(writers, 0) + OpsOf(writers[0]);
    assert SizeOf(byteSize, writers, 1) == SizeOf(byteSize, writers, 0) + size;
    n := 1;
    while n < |writers|
      invariant MayGroup(writers, n) && result == Merged(writers, n)
      invariant forall k :: 1 <= k < n ==> !Stops(byteSize, writers, k)
      invariant size == SizeOf(byteSize, writers, n) && maxSize == MaxSize(byteSize(first.batch.value))
    {
      var w := writers[n];
      if w.sync && !first.sync {
        return;
      }
      if w.batch.Some? {
        size := size + byteSize(w.batch.value);
        if size > maxSize {
          return;
        }
        result := result + w.batch.value;
      }
      n := n + 1;
    }
  }

  class WriterQueue {
    var writers: seq<Writer>
    var phase: Phase
    var lastSequence: nat
    var log: seq<Group>
    var mem: seq<Entry>
    /** The status a released writer finds. */
    var status: map<Writer, bool>
    ghost var arrived: seq<Writer>
    ghost var groups: seq<Group>

    ghost function State(): Queue
      reads this
    {
      Queue(writers, phase, lastSequence, log, mem, arrived, groups)
    }

    constructor ()
      ensures State() == Init() && QueueInv(State())
    {
      writers, phase, lastSequence, log, mem, status := [], Waiting, 0, [], [], map[];
      arrived, groups := [], [];
    }

    /** The start of Write: join the queue. */
    method Enter(w: Writer)
      requires QueueInv(State()) && w !in arrived
      modifies this`writers, this`arrived
      ensures State() == Next(old(State()), Arrive(w)) && QueueInv(State())
    {
      NextKeepsInv(State(), Arrive(w));
      writers := writers + [w];
      arrived := arrived + [w];
    }

    /** At the front with room made: take a group, then let go of the mutex. */
    method StartGroup(byteSize: seq<Op> -> nat) returns (n: nat)
      requires QueueInv(State()) && phase.Waiting? && writers != [] && writers[0].batch.Some?
      modifies this`phase
      ensures Enabled(old(State()), Start(n)) && State() == Next(old(State()), Start(n)) && QueueInv(State())
      ensures Chosen(byteSize, writers, n)
    {
      var ops;
      n, ops := BuildBatchGroup(byteSize, writers);
      NextKeepsInv(State(), Start(n));
      phase := Logging(n, ops);
    }

    /** At the front without room, or without a batch: only the front writer leaves. */
    method RefuseFront(ok: bool)
      requires QueueInv(State()) && Enabled(State(), Refuse(ok))
      modifies this`writers, this`status, this`groups
      ensures State() == Next(old(State()), Refuse(ok)) && QueueInv(State())
      ensures old(writers)[0] in status && status[old(writers)[0]] == ok
    {
      NextKeepsInv(State(), Refuse(ok));
      QueueDistinct(State());
      ghost var was := writers;
      ghost var g := Group(writers[..1], [], lastSequence + 1, false, ok);
      ReleaseGroup(writers[0], 1, ok);
      assert was[0] in was[..1];
      groups := groups + [g];
    }

    /** With the mutex again after logging and applying. */
    method FinishGroup(logged: bool, synced: bool)
      requires QueueInv(State()) && phase.Logging?
      modifies this`writers, this`phase, this`lastSequence, this`log, this`mem, this`status, this`groups
      ensures State() == Next(old(State()), Finish(logged, synced)) && QueueInv(State())
      ensures forall w :: w in old(writers)[..old(phase).n] ==> w in status && status[w] == groups[|groups| - 1].ok
      ensures forall w :: w in old(status) && w !in old(writers)[..old(phase).n] ==> w in status && status[w] == old(status)[w]
    {
      NextKeepsInv(State(), Finish(logged, synced));
      QueueDistinct(State());
      var n, ops := phase.n, phase.ops;
      var first := writers[0];
      var ok := logged && (first.sync ==> synced);
      var g := Group(writers[..n], ops, lastSequence + 1, first.sync && ok, ok);
      if logged {
        log := log + [g];
      }
      if ok {
        mem := mem + Stamp(ops, lastSequence + 1);
      }
      lastSequence := lastSequence + |ops|;
      ReleaseGroup(writers[n - 1], n, ok);
      phase := Waiting;
      groups := groups + [g];
    }

    /** The loop at the end of Write: everyone up to the last writer gets the status and leaves. */
    method ReleaseGroup(last: Writer, ghost n: nat, ok: bool)
      requires 1 <= n <= |writers| && NoRepeats(writers) && last == writers[n - 1]
      modifies this`writers, this`status
      ensures writers == old(writers)[n..]
      ensures forall w :: w in old(writers)[..n] ==> w in status && status[w] == ok
      ensures forall w :: w in old(status) && w !in old(writers)[..n] ==> w in status && status[w] == old(status)[w]
    {
      ghost var i := 0;
      var more := true;
      while more
        invariant i <= n && writers == old(writers)[i..] && (more <==> i < n)
        invariant forall k :: 0 <= k < i ==> old(writers)[k] in status && status[old(writers)[k]] == ok
        invariant forall w :: w in old(status) && w !in old(writers)[..i] ==> w in status && status[w] == old(status)[w]
        decreases n - i
      {
        var ready := writers[0];
        writers := writers[1..];
        status := status[ready := ok];
        i := i + 1;
        more := ready != last;
      }
    }
  }

  lemma QueueDistinct(s: Queue)
    requires QueueInv(s)
    ensures NoRepeats(s.writers)
  {
    var n := |Members(s.groups, |s.groups|)|;
    forall i, j | 0 <= i < j < |s.writers| ensures s.writers[i] != s.writers[j] {
      assert s.arrived[n + i] == s.writers[i] && s.arrived[n + j] == s.writers[j];
    }
  }
}
