/** The compaction loop (db/db_impl.cc DoCompactionWork) and its base-level test
    (db/version_set.cc IsBaseLevelForKey). */
module CompactionWork {
  import opened Keys
  import opened LsmState
  import opened FileLists
  import opened Compaction

  /** The levels below the output level, with the loop's monotone cursors into them. */
  class LevelCursors {
    const levels: seq<seq<File>>
    const level: nat
    var ptrs: seq<nat>

    /** Every file a cursor has passed ends before `u`. */
    ghost predicate Behind(u: UserKey)
      reads this
    {
      && |levels| == NUM_LEVELS && |ptrs| == NUM_LEVELS && level + 1 < NUM_LEVELS
      && (forall l :: 1 <= l < NUM_LEVELS ==> LevelList(levels[l]))
      && forall l :: level + 2 <= l < NUM_LEVELS ==> PassedBefore(levels[l], ptrs[l], u)
    }

    constructor (levels: seq<seq<File>>, level: nat)
      requires |levels| == NUM_LEVELS && level + 1 < NUM_LEVELS
      requires forall l :: 1 <= l < NUM_LEVELS ==> LevelList(levels[l])
      ensures this.levels == levels && this.level == level && forall u :: Behind(u)
    {
      this.levels := levels;
      this.level := level;
      ptrs := seq(NUM_LEVELS, i => 0);
    }

    /** Asked with ascending user keys, the cursors decide whether any deeper file spans the key. */
    method IsBaseLevelForKey(u: UserKey) returns (base: bool)
      requires Behind(u)
      modifies this`ptrs
      ensures Behind(u)
      ensures base <==> NoneSpansBelow(levels, level, u)
    {
      for lvl := level + 2 to NUM_LEVELS
        invariant Behind(u)
        invariant forall l :: level + 2 <= l < lvl ==> NoneSpans(levels[l], u)
      {
        var files := levels[lvl];
        while ptrs[lvl] < |files|
          invariant Behind(u)
          decreases |files| - ptrs[lvl]
        {
          var f := files[ptrs[lvl]];
          if u <= f.Largest().user {
            if u >= f.Smallest().user {
              assert SpansUserKey(f, u) && !NoneSpans(levels[lvl], u);
              return false;
            }
            break;
          }
          ptrs := ptrs[lvl := ptrs[lvl] + 1];
        }
        LaterFilesDoNotSpan(files, ptrs[lvl], u);
      }
      base := true;
    }
  }

  ghost predicate PassedBefore(files: seq<File>, ptr: nat, u: UserKey) {
    ptr <= |files| && forall i :: 0 <= i < ptr ==> files[i].Largest().user < u
  }

  ghost predicate NoneSpans(files: seq<File>, u: UserKey) {
    forall f :: f in files ==> !SpansUserKey(f, u)
  }

  lemma LaterFilesDoNotSpan(files: seq<File>, ptr: nat, u: UserKey)
    requires LevelList(files) && PassedBefore(files, ptr, u)
    requires ptr < |files| ==> u < files[ptr].Smallest().user
    ensures NoneSpans(files, u)
  {
    forall f | f in files ensures !SpansUserKey(f, u) {
      var i :| 0 <= i < |files| && files[i] == f;
      if ptr < i {
        LargestAscending(files, ptr, i);
        FirstNotAfterLast(files[ptr]);
      }
    }
  }

  lemma NewerComesFirst(input: seq<Entry>, i: nat, j: nat)
    requires Sorted(input) && i < |input| && j < |input|
    requires input[j].key.user == input[i].key.user && input[j].key.seqno > input[i].key.seqno
    ensures j < i
  {}

  /** In a sorted input, being hidden shows at the entry just before. */
  lemma HiddenShowsAtPrevious(input: seq<Entry>, i: nat, smallest: nat)
    requires Sorted(input) && UniqueSeqnos(EntrySet(input)) && i < |input|
    ensures Hidden(EntrySet(input), input[i], smallest) <==>
      (i > 0 && input[i - 1].key.user == input[i].key.user && input[i - 1].key.seqno <= smallest)
  {
    if Hidden(EntrySet(input), input[i], smallest) {
      var n :| n in EntrySet(input) && n.key.user == input[i].key.user && input[i].key.seqno < n.key.seqno <= smallest;
      var j :| 0 <= j < |input| && input[j] == n;
      NewerComesFirst(input, i, j);
      assert j < i - 1 ==> Less(input[j].key, input[i - 1].key);
      assert Less(input[i - 1].key, input[i].key);
    }
    if i > 0 && input[i - 1].key.user == input[i].key.user {
      assert Less(input[i - 1].key, input[i].key);
      assert input[i - 1] in EntrySet(input) && input[i] in EntrySet(input);
      assert input[i - 1].key.seqno > input[i].key.seqno;
    }
  }

  /** Rule (A) as the loop applies it: the entry before if it is of the same user key, else
      kMaxSequenceNumber, counts as the newer version. */
  predicate LoopHides(input: seq<Entry>, i: nat, smallest: nat)
    requires i < |input|
  {
    (if i > 0 && input[i - 1].key.user == input[i].key.user then input[i - 1].key.seqno else MAX_SEQUENCE) <= smallest
  }

  /** The loop hides exactly the entries with a newer version at or below the smallest snapshot, unless
      that is kMaxSequenceNumber, which makes it hide the newest version of every user key too. */
  lemma LoopRuleIff(input: seq<Entry>, smallest: nat)
    requires Sorted(input) && UniqueSeqnos(EntrySet(input))
    ensures (forall i :: 0 <= i < |input| ==> (LoopHides(input, i, smallest) <==> Hidden(EntrySet(input), input[i], smallest)))
            <==> smallest < MAX_SEQUENCE || input == []
    ensures smallest >= MAX_SEQUENCE && (forall i :: 0 <= i < |input| ==> input[i].key.seqno <= smallest) ==>
              forall i :: 0 <= i < |input| ==> LoopHides(input, i, smallest)
  {
    forall i | 0 <= i < |input|
      ensures LoopHides(input, i, smallest) <==>
        Hidden(EntrySet(input), input[i], smallest)
        || (smallest >= MAX_SEQUENCE && (i == 0 || input[i - 1].key.user != input[i].key.user))
    {
      HiddenShowsAtPrevious(input, i, smallest);
    }
    if input != [] && smallest >= MAX_SEQUENCE {
      HiddenShowsAtPrevious(input, 0, smallest);
      assert LoopHides(input, 0, smallest) && !Hidden(EntrySet(input), input[0], smallest);
    }
  }

  /** The entries of input[..n] the drop rules keep, in order. */
  ghost function Kept(s: State, level: nat, input: seq<Entry>, smallest: nat, n: nat): seq<Entry>
    requires |s.levels| == NUM_LEVELS && n <= |input|
  {
    if n == 0 then []
    else if Survives(s, level, EntrySet(input), input[n - 1], smallest) then Kept(s, level, input, smallest, n - 1) + [input[n - 1]]
    else Kept(s, level, input, smallest, n - 1)
  }

  function Flatten(chunks: seq<seq<Entry>>): seq<Entry> {
    if chunks == [] then [] else Flatten(chunks[..|chunks| - 1]) + chunks[|chunks| - 1]
  }

  lemma FlattenAppend(chunks: seq<seq<Entry>>, chunk: seq<Entry>)
    ensures Flatten(chunks + [chunk]) == Flatten(chunks) + chunk
  {
    assert (chunks + [chunk])[..|chunks|] == chunks;
  }

  ghost predicate AllNonEmpty(chunks: seq<seq<Entry>>) {
    forall i :: 0 <= i < |chunks| ==> chunks[i] != []
  }

  /** Finished tables and the open one together hold `kept`. */
  ghost predicate Written(outputs: seq<seq<Entry>>, builder: seq<Entry>, kept: seq<Entry>) {
    Flatten(outputs) + builder == kept && AllNonEmpty(outputs)
  }

  lemma FinishOutput(outputs: seq<seq<Entry>>, builder: seq<Entry>, kept: seq<Entry>)
    requires Written(outputs, builder, kept) && builder != []
    ensures Written(outputs + [builder], [], kept)
  {
    FlattenAppend(outputs, builder);
  }

  /** FinishCompactionOutputFile, if it is time and there is an open table. */
  method FinishIf(stop: bool, outputs: seq<seq<Entry>>, builder: seq<Entry>, ghost kept: seq<Entry>)
      returns (finished: seq<seq<Entry>>, rest: seq<Entry>)
    requires Written(outputs, builder, kept)
    ensures Written(finished, rest, kept) && (stop ==> rest == [])
    ensures kept == [] ==> finished == outputs
  {
    finished, rest := outputs, builder;
    if stop && builder != [] {
      FinishOutput(outputs, builder, kept);
      finished, rest := outputs + [builder], [];
    }
  }

  lemma AddToOutput(outputs: seq<seq<Entry>>, builder: seq<Entry>, kept: seq<Entry>, e: Entry)
    requires Written(outputs, builder, kept)
    ensures Written(outputs, builder + [e], kept + [e])
  {
    assert Flatten(outputs) + (builder + [e]) == (Flatten(outputs) + builder) + [e];
  }

  /** Merged input in, tables out. Where the source decides by size when to start a new output
      file, any choice is allowed here. */
  method DoCompactionWork(ghost s: State, level: nat, levels: seq<seq<File>>, input: seq<Entry>, smallest: nat)
      returns (outputs: seq<seq<Entry>>)
    requires |s.levels| == NUM_LEVELS && |levels| == NUM_LEVELS && level + 1 < NUM_LEVELS
    requires forall l :: 0 <= l < NUM_LEVELS ==> s.levels[l] == FileSet(levels[l])
    requires forall l :: 1 <= l < NUM_LEVELS ==> LevelList(levels[l])
    requires Sorted(input) && UniqueSeqnos(EntrySet(input))
    ensures smallest < MAX_SEQUENCE ==> Flatten(outputs) == Kept(s, level, input, smallest, |input|) && AllNonEmpty(outputs)
    ensures smallest >= MAX_SEQUENCE && (forall i :: 0 <= i < |input| ==> input[i].key.seqno <= smallest) ==> outputs == []
  {
    outputs := [];
    var builder: seq<Entry> := [];
    var compaction := new LevelCursors(levels, level);
    var currentUserKey: Option<UserKey> := None;
    var lastSequenceForKey := MAX_SEQUENCE;
    ghost var kept: seq<Entry> := [];
    for i := 0 to |input|
      invariant compaction.levels == levels && compaction.level == level
      invariant i == 0 ==> currentUserKey == None
      invariant i > 0 ==> currentUserKey == Some(input[i - 1].key.user) && lastSequenceForKey == input[i - 1].key.seqno
      invariant i < |input| ==> compaction.Behind(input[i].key.user)
      invariant Written(outputs, builder, kept)
      invariant smallest < MAX_SEQUENCE ==> kept == Kept(s, level, input, smallest, i)
      invariant smallest >= MAX_SEQUENCE && (forall k :: 0 <= k < |input| ==> input[k].key.seqno <= smallest) ==> kept == []
    {
      var shouldStopBefore: bool := *;
      outputs, builder := FinishIf(shouldStopBefore, outputs, builder, kept);
      var drop;
      drop, currentUserKey, lastSequenceForKey := DropEntry(compaction, input[i].key, smallest, currentUserKey, lastSequenceForKey);
      if smallest < MAX_SEQUENCE {
        DropIsNotSurviving(s, level, levels, input, i, smallest, drop);
      }
      if !drop {
        AddToOutput(outputs, builder, kept, input[i]);
        builder, kept := builder + [input[i]], kept + [input[i]];
        var bigEnough: bool := *;
        outputs, builder := FinishIf(bigEnough, outputs, builder, kept);
      }
      if i + 1 < |input| {
        CursorsStayBehind(compaction, input, i);
      }
    }
    outputs, builder := FinishIf(true, outputs, builder, kept);
  }

  /** The drop decision for one entry, with the loop's two variables about the entry before. */
  method DropEntry(compaction: LevelCursors, ikey: InternalKey, smallest: nat, currentUserKey: Option<UserKey>, last: nat)
      returns (drop: bool, newUserKey: Option<UserKey>, newLast: nat)
    requires compaction.Behind(ikey.user)
    modifies compaction`ptrs
    ensures compaction.Behind(ikey.user)
    ensures newUserKey == Some(ikey.user) && newLast == ikey.seqno
    ensures drop <==>
      (if currentUserKey == Some(ikey.user) then last else MAX_SEQUENCE) <= smallest
      || (ikey.kind.Deletion? && ikey.seqno <= smallest && NoneSpansBelow(compaction.levels, compaction.level, ikey.user))
  {
    drop, newUserKey := false, currentUserKey;
    var lastSequenceForKey := last;
    if newUserKey != Some(ikey.user) {
      newUserKey := Some(ikey.user);
      lastSequenceForKey := MAX_SEQUENCE;
    }
    if lastSequenceForKey <= smallest {
      drop := true;
    } else if ikey.kind.Deletion? && ikey.seqno <= smallest {
      drop := compaction.IsBaseLevelForKey(ikey.user);
    }
    newLast := ikey.seqno;
  }

  ghost predicate NoneSpansBelow(levels: seq<seq<File>>, level: nat, u: UserKey)
    requires |levels| == NUM_LEVELS
  {
    forall l :: level + 2 <= l < NUM_LEVELS ==> NoneSpans(levels[l], u)
  }

  lemma DropIsNotSurviving(s: State, level: nat, levels: seq<seq<File>>, input: seq<Entry>, i: nat, smallest: nat, drop: bool)
    requires |s.levels| == NUM_LEVELS && |levels| == NUM_LEVELS
    requires forall l :: 0 <= l < NUM_LEVELS ==> s.levels[l] == FileSet(levels[l])
    requires Sorted(input) && UniqueSeqnos(EntrySet(input)) && i < |input| && smallest < MAX_SEQUENCE
    requires drop <==>
      LoopHides(input, i, smallest)
      || (input[i].key.kind.Deletion? && input[i].key.seqno <= smallest && NoneSpansBelow(levels, level, input[i].key.user))
    ensures drop <==> !Survives(s, level, EntrySet(input), input[i], smallest)
  {
    HiddenShowsAtPrevious(input, i, smallest);
    BaseLevelOfLists(s, level, levels, input[i].key.user);
  }

  lemma CursorsStayBehind(c: LevelCursors, input: seq<Entry>, i: nat)
    requires Sorted(input) && i + 1 < |input| && c.Behind(input[i].key.user)
    ensures c.Behind(input[i + 1].key.user)
  {
    forall l | c.level + 2 <= l < NUM_LEVELS ensures PassedBefore(c.levels[l], c.ptrs[l], input[i + 1].key.user) {
      assert PassedBefore(c.levels[l], c.ptrs[l], input[i].key.user);
    }
  }

  lemma BaseLevelOfLists(s: State, level: nat, levels: seq<seq<File>>, u: UserKey)
    requires |s.levels| == NUM_LEVELS && |levels| == NUM_LEVELS
    requires forall l :: 0 <= l < NUM_LEVELS ==> s.levels[l] == FileSet(levels[l])
    ensures IsBaseLevel(s, level, u) <==> NoneSpansBelow(levels, level, u)
  {
    forall l | level + 2 <= l < NUM_LEVELS
      ensures (forall f :: f in s.levels[l] ==> !SpansUserKey(f, u)) <==> NoneSpans(levels[l], u)
    {
      assert s.levels[l] == FileSet(levels[l]);
      assert forall f :: f in levels[l] <==> f in s.levels[l];
    }
  }

  // ----- The outputs as files -----

  lemma KeptMembers(s: State, level: nat, input: seq<Entry>, smallest: nat, n: nat)
    requires |s.levels| == NUM_LEVELS && n <= |input|
    ensures forall e :: e in Kept(s, level, input, smallest, n) <==>
      e in input[..n] && Survives(s, level, EntrySet(input), e, smallest)
  {
    if n > 0 {
      KeptMembers(s, level, input, smallest, n - 1);
      assert input[..n] == input[..n - 1] + [input[n - 1]];
    }
  }

  lemma KeptSorted(s: State, level: nat, input: seq<Entry>, smallest: nat, n: nat)
    requires |s.levels| == NUM_LEVELS && n <= |input| && Sorted(input)
    ensures Sorted(Kept(s, level, input, smallest, n))
  {
    if n > 0 {
      KeptSorted(s, level, input, smallest, n - 1);
      KeptMembers(s, level, input, smallest, n - 1);
      var prefix := Kept(s, level, input, smallest, n - 1);
      forall i | 0 <= i < |prefix| ensures Less(prefix[i].key, input[n - 1].key) {
        assert prefix[i] in input[..n - 1];
        var j :| 0 <= j < n - 1 && input[j] == prefix[i];
      }
    }
  }

  ghost predicate Holds(files: seq<File>, chunks: seq<seq<Entry>>) {
    |files| == |chunks| && forall i :: 0 <= i < |files| ==> files[i].entries == chunks[i]
  }

  /** Files cut out of one sorted sequence are in ascending, disjoint ranges. */
  lemma ChunksFormLevel(files: seq<File>, chunks: seq<seq<Entry>>)
    requires Holds(files, chunks) && Sorted(Flatten(chunks))
    ensures LevelList(files)
    ensures Contents(FileSet(files)) == EntrySet(Flatten(chunks))
  {
    if files != [] {
      var n := |files| - 1;
      var init, last := chunks[..n], chunks[n];
      var flat := Flatten(chunks);
      assert flat == Flatten(init) + last;
      SortedParts(Flatten(init), last);
      ChunksFormLevel(files[..n], init);
      forall i | 0 <= i < n ensures Less(files[i].Largest(), files[n].Smallest()) {
        var e := files[i].entries[|files[i].entries| - 1];
        assert files[..n][i] in FileSet(files[..n]) && e in files[..n][i].entries;
        assert e in EntrySet(Flatten(init));
      }
      LevelListAppend(files[..n], files[n]);
      assert files == files[..n] + [files[n]];
      assert FileSet(files) == FileSet(files[..n]) + {files[n]};
      AddFileContents(FileSet(files[..n]), files[n]);
      assert EntrySet(flat) == EntrySet(Flatten(init)) + EntrySet(last);
    }
  }

  lemma SortedParts(a: seq<Entry>, b: seq<Entry>)
    requires Sorted(a + b)
    ensures Sorted(a) && Sorted(b)
    ensures forall x, y :: x in EntrySet(a) && y in EntrySet(b) ==> Less(x.key, y.key)
  {
    forall i, j | 0 <= i < j < |a| ensures Less(a[i].key, a[j].key) {
      assert (a + b)[i] == a[i] && (a + b)[j] == a[j];
    }
    forall i, j | 0 <= i < j < |b| ensures Less(b[i].key, b[j].key) {
      assert (a + b)[|a| + i] == b[i] && (a + b)[|a| + j] == b[j];
    }
    forall x, y | x in EntrySet(a) && y in EntrySet(b) ensures Less(x.key, y.key) {
      var i :| 0 <= i < |a| && a[i] == x;
      var j :| 0 <= j < |b| && b[j] == y;
      assert (a + b)[i] == x && (a + b)[|a| + j] == y;
    }
  }

  lemma LevelListDisjoint(files: seq<File>)
    requires LevelList(files)
    ensures LevelDisjoint(FileSet(files))
  {
    forall f, g | f in FileSet(files) && g in FileSet(files) && f != g ensures Apart(f, g) {
      var i :| 0 <= i < |files| && files[i] == f;
      var j :| 0 <= j < |files| && files[j] == g;
      if i < j {
        assert Less(files[i].Largest(), files[j].Smallest());
      } else {
        assert Less(files[j].Largest(), files[i].Smallest());
      }
    }
  }
}
