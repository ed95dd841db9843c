/** What the store is for: over any run it reads like a map that the writes were applied to one after the other,
    and a snapshot like the map at the time it was taken. */
module StoreAsMap {
  import opened Keys
  import opened LsmState
  import opened Compaction
  import opened CompactionViews
  import opened Runs

  type KeyMap = map<UserKey, Bytes>

  function AfterOp(m: KeyMap, op: Op): KeyMap {
    if op.kind.Put? then m[op.user := op.value] else m - {op.user}
  }

  function AfterOps(m: KeyMap, ops: seq<Op>): KeyMap {
    if ops == [] then m else AfterOp(AfterOps(m, ops[..|ops| - 1]), ops[|ops| - 1])
  }

  function MapAfter(steps: seq<Step>): KeyMap {
    if steps == [] then map[]
    else
      MapBehind(MapAfter(steps[..|steps| - 1]), steps[|steps| - 1])
  }

  function Lookup(m: KeyMap, u: UserKey): Option<Bytes> {
    if u in m then Some(m[u]) else None
  }

  /** The newest entry of u in a history. */
  ghost predicate Latest(history: set<Entry>, u: UserKey, r: Option<Entry>) {
    match r
    case None => forall e :: e in history ==> e.key.user != u
    case Some(n) => n in history && n.key.user == u && forall e :: e in history && e.key.user == u ==> e.key.seqno <= n.key.seqno
  }

  ghost predicate UpTo(history: set<Entry>, lastSeq: nat) {
    forall e :: e in history ==> e.key.seqno <= lastSeq
  }

  /** One more entry, newer than all others. */
  lemma AddOne(history: set<Entry>, bound: nat, op: Op, e: Entry, all: set<Entry>, u: UserKey, m: KeyMap, r: Option<Entry>)
    returns (r': Option<Entry>)
    requires UpTo(history, bound) && Latest(history, u, r) && Visible(r) == Lookup(m, u)
    requires e == Entry(InternalKey(op.user, bound + 1, op.kind), op.value) && all == history + {e}
    ensures UpTo(all, bound + 1) && Latest(all, u, r') && Visible(r') == Lookup(AfterOp(m, op), u)
  {
    r' := if op.user == u then Some(e) else r;
  }

  /** The entries of a batch, added one by one. */
  ghost function WithBatch(history: set<Entry>, ops: seq<Op>, first: nat): set<Entry> {
    if ops == [] then history
    else
      var n := |ops| - 1;
      WithBatch(history, ops[..n], first) + {Entry(InternalKey(ops[n].user, first + n, ops[n].kind), ops[n].value)}
  }

  lemma {:induction false} WithBatchIsStamped(history: set<Entry>, ops: seq<Op>, first: nat)
    ensures WithBatch(history, ops, first) == history + EntrySet(Stamp(ops, first))
    decreases |ops|
  {
    if ops != [] {
      var n := |ops| - 1;
      WithBatchIsStamped(history, ops[..n], first);
      assert Stamp(ops, first) == Stamp(ops[..n], first) + [Stamp(ops, first)[n]];
    }
  }

  /** The entries of a batch change the newest entries as its operations change the map. */
  lemma {:induction false} BatchIsMap(history: set<Entry>, bound: nat, ops: seq<Op>, u: UserKey, m: KeyMap, r: Option<Entry>)
    returns (r': Option<Entry>)
    requires UpTo(history, bound) && Latest(history, u, r) && Visible(r) == Lookup(m, u)
    ensures var all := WithBatch(history, ops, bound + 1);
      UpTo(all, bound + |ops|) && Latest(all, u, r') && Visible(r') == Lookup(AfterOps(m, ops), u)
    decreases |ops|
  {
    r' := r;
    if ops != [] {
      var n := |ops| - 1;
      var e := Entry(InternalKey(ops[n].user, bound + 1 + n, ops[n].kind), ops[n].value);
      r' := BatchIsMap(history, bound, ops[..n], u, m, r);
      r' := AddOne(WithBatch(history, ops[..n], bound + 1), bound + n, ops[n], e, WithBatch(history, ops, bound + 1), u,
        AfterOps(m, ops[..n]), r');
    }
  }

  lemma {:induction false} LastSeqGrows(states: seq<State>, steps: seq<Step>, i: nat, j: nat)
    requires IsRun(states, steps) && i <= j <= |steps|
    ensures states[i].lastSeq <= states[j].lastSeq
    decreases j
  {
    if i < j {
      LastSeqGrows(states, steps, i, j - 1);
      SeqAfter(states, steps, j - 1);
    }
  }

  lemma SeqAfter(states: seq<State>, steps: seq<Step>, n: nat)
    requires IsRun(states, steps) && n < |steps|
    ensures states[n + 1].lastSeq == states[n].lastSeq + if steps[n].Write? then |steps[n].ops| else 0
  {
    assert Next(states[n], steps[n], states[n + 1]);
  }

  /** The history of a run holds the map. */
  lemma {:induction false} HistoryIsMap(states: seq<State>, steps: seq<Step>, u: UserKey) returns (r: Option<Entry>)
    requires IsRun(states, steps)
    ensures UpTo(HistoryOf(states, steps), states[|steps|].lastSeq)
    ensures Latest(HistoryOf(states, steps), u, r) && Visible(r) == Lookup(MapAfter(steps), u)
    decreases |steps|
  {
    if steps == [] {
      r := None;
    } else {
      var n := |steps| - 1;
      RunPrefix(states, steps);
      r := HistoryIsMap(states[..n + 1], steps[..n], u);
      SeqAfter(states, steps, n);
      r := StepIsMap(HistoryOf(states[..n + 1], steps[..n]), states[n], steps[n], states[n + 1].lastSeq, u, MapAfter(steps[..n]), r);
    }
  }

  function MapBehind(m: KeyMap, step: Step): KeyMap {
    if step.Write? then AfterOps(m, step.ops) else m
  }

  lemma StepIsMap(history: set<Entry>, s: State, step: Step, seqno: nat, u: UserKey, m: KeyMap, r: Option<Entry>) returns (r': Option<Entry>)
    requires UpTo(history, s.lastSeq) && Latest(history, u, r) && Visible(r) == Lookup(m, u)
    requires seqno == s.lastSeq + if step.Write? then |step.ops| else 0
    ensures UpTo(Record(history, s, step), seqno) && Latest(Record(history, s, step), u, r')
    ensures Visible(r') == Lookup(MapBehind(m, step), u)
  {
    r' := r;
    RecordIsBatch(history, s, step);
    if step.Write? {
      r' := BatchIsMap(history, s.lastSeq, step.ops, u, m, r);
    }
  }

  lemma RecordIsBatch(history: set<Entry>, s: State, step: Step)
    ensures Record(history, s, step) == if step.Write? then WithBatch(history, step.ops, s.lastSeq + 1) else history
  {
    if step.Write? {
      WithBatchIsStamped(history, step.ops, s.lastSeq + 1);
    }
  }

  /** Later writes are beyond an earlier sequence number, and what was written before stays. */
  lemma {:induction false} HistoryGrows(states: seq<State>, steps: seq<Step>, k: nat)
    requires IsRun(states, steps) && k <= |steps|
    ensures IsRun(states[..k + 1], steps[..k])
    ensures forall e :: e in HistoryOf(states, steps) && e.key.seqno <= states[k].lastSeq ==> e in HistoryOf(states[..k + 1], steps[..k])
    ensures HistoryOf(states[..k + 1], steps[..k]) <= HistoryOf(states, steps)
    decreases |steps|
  {
    var n := |steps|;
    if k == n {
      assert states[..k + 1] == states && steps[..k] == steps;
    } else {
      var ps, pt := states[..n], steps[..n - 1];
      RunPrefix(states, steps);
      HistoryGrows(ps, pt, k);
      assert ps[..k + 1] == states[..k + 1] && pt[..k] == steps[..k];
      LastSeqGrows(ps, pt, k, n - 1);
      RecordedBeyond(HistoryOf(ps, pt), states[n - 1], steps[n - 1]);
    }
  }

  lemma RecordedBeyond(history: set<Entry>, s: State, step: Step)
    ensures history <= Record(history, s, step)
    ensures forall e :: e in Record(history, s, step) && e !in history ==> e.key.seqno > s.lastSeq
  {}

  /** Over any run without the missed case of a compaction, what is read now is the map of all writes so far, and
      what is read at the last sequence number of an earlier state, such as a snapshot's, is the map at that state. */
  lemma RunIsMap(states: seq<State>, steps: seq<Step>, k: nat, u: UserKey)
    requires IsRun(states, steps) && k <= |steps|
    requires forall i :: 0 <= i < |steps| ==> !LosesDeletion(states[i], steps[i])
    requires SmallestSnapshot(states[|steps|]) <= states[k].lastSeq
    ensures |states[|steps|].levels| == NUM_LEVELS
    ensures View(All(states[|steps|]), u, states[k].lastSeq) == Lookup(MapAfter(steps[..k]), u)
  {
    RunIsFaithful(states, steps);
    HistoryGrows(states, steps, k);
    var r := HistoryIsMap(states[..k + 1], steps[..k], u);
    NewestUnique(HistoryOf(states, steps), u, states[k].lastSeq, r);
  }
}
