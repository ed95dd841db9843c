/** Writing the write-ahead log (db/log_writer.cc). */
module LogFiles {
  import opened Keys
  import opened LogFormat

  class Writer {
    const crc: Crc
    var dest: Bytes
    var blockOffset: nat

    ghost predicate Valid()
      reads this
    {
      blockOffset <= BLOCK_SIZE && blockOffset % BLOCK_SIZE == |dest| % BLOCK_SIZE
    }

    /** Opens a new file (no contents) or reopens one at its end. */
    constructor (crc: Crc, contents: Bytes)
      ensures Valid() && dest == contents && this.crc == crc
    {
      this.crc := crc;
      dest := contents;
      blockOffset := |contents| % BLOCK_SIZE;
    }

    method EmitPhysicalRecord(kind: Byte, data: Bytes)
      requires Valid() && blockOffset + HEADER_SIZE + |data| <= BLOCK_SIZE
      modifies this
      ensures Valid() && dest == old(dest) + Header(crc, Chunk(kind, data)) + data
      ensures blockOffset == old(blockOffset) + HEADER_SIZE + |data|
    {
      var masked := Mask(crc([kind] + data));
      var buf := Fixed32(masked) + [|data| % 256, |data| / 256, kind];
      OffsetsAgree(|dest|, blockOffset, HEADER_SIZE + |data|);
      dest := dest + buf;
      dest := dest + data;
      blockOffset := blockOffset + HEADER_SIZE + |data|;
    }

    /** Fills the trailer of a block too full for another header. */
    method SwitchBlockIfFull()
      requires Valid()
      modifies this
      ensures Valid() && dest == old(dest) + Zeros(Pad(|old(dest)|))
      ensures blockOffset + HEADER_SIZE + Avail(|old(dest)|) == BLOCK_SIZE
    {
      var leftover := BLOCK_SIZE - blockOffset;
      LeftoverIsPad(|dest|, blockOffset);
      if leftover < HEADER_SIZE {
        dest := dest + Zeros(leftover);
        blockOffset := 0;
      }
    }

    /** AddRecord appends exactly the record's chunks. */
    method AddRecord(slice: Bytes)
      requires Valid()
      modifies this
      ensures Valid()
      ensures dest == old(dest) + LogBytes(crc, |old(dest)|, [slice])
    {
      ghost var p := |dest|;
      FragmentsFit(p, slice, true);
      ghost var goal := dest + Lay(crc, p, Fragments(p, slice, true));
      var ptr: nat, left, begin := 0, |slice|, true;
      var more := true;
      assert slice[0..] == slice;
      while more
        invariant Valid() && ptr <= |slice| && ptr + left == |slice|
        invariant Writing(crc, dest, goal, slice, ptr, begin, more)
        decreases more, left, Avail(|dest|) == 0
      {
        ghost var before, from, first := dest, ptr, begin;
        var fragmentLength := AddFragment(slice, ptr, begin);
        ptr := ptr + fragmentLength;
        left := left - fragmentLength;
        begin := false;
        more := left > 0;
        KeepsWriting(crc, before, goal, slice, from, first, dest, ptr, more);
      }
      OneRecordLog(crc, p, slice);
    }

    /** One round of AddRecord's loop: the next chunk of the record from byte ptr on. */
    method AddFragment(slice: Bytes, ptr: nat, begin: bool) returns (fragmentLength: nat)
      requires Valid() && ptr <= |slice|
      modifies this
      ensures Valid() && ptr + fragmentLength <= |slice|
      ensures fragmentLength == if |slice| - ptr < Avail(|old(dest)|) then |slice| - ptr else Avail(|old(dest)|)
      ensures var c := Chunk(KindOf(begin, ptr + fragmentLength == |slice|), slice[ptr..ptr + fragmentLength]);
        dest == old(dest) + ChunkBytes(crc, |old(dest)|, c)
    {
      ghost var before := dest;
      var left := |slice| - ptr;
      SwitchBlockIfFull();
      var avail := BLOCK_SIZE - blockOffset - HEADER_SIZE;
      fragmentLength := if left < avail then left else avail;
      var end := left == fragmentLength;
      var kind := if begin && end then FULL else if begin then FIRST else if end then LAST else MIDDLE;
      var data := slice[ptr..ptr + fragmentLength];
      ghost var filled := dest;
      EmitPhysicalRecord(kind, data);
      ChunkWritten(crc, before, filled, Chunk(kind, data), dest);
    }
  }

  /** The file still lacks exactly the chunks of `data` to become `goal`. */
  ghost predicate Remaining(crc: Crc, file: Bytes, goal: Bytes, data: Bytes, begin: bool) {
    AllFit(|file|, Fragments(|file|, data, begin)) && goal == file + Lay(crc, |file|, Fragments(|file|, data, begin))
  }

  ghost predicate Writing(crc: Crc, file: Bytes, goal: Bytes, slice: Bytes, ptr: nat, begin: bool, more: bool)
    requires ptr <= |slice|
  {
    if more then Remaining(crc, file, goal, slice[ptr..], begin) else goal == file
  }

  lemma KeepsWriting(crc: Crc, before: Bytes, goal: Bytes, slice: Bytes, from: nat, begin: bool,
                     after: Bytes, ptr: nat, more: bool)
    requires from <= ptr <= |slice| && more == (ptr < |slice|)
    requires Writing(crc, before, goal, slice, from, begin, true)
    requires ptr - from == if |slice| - from < Avail(|before|) then |slice| - from else Avail(|before|)
    requires after == before + ChunkBytes(crc, |before|, Chunk(KindOf(begin, !more), slice[from..ptr]))
    ensures Writing(crc, after, goal, slice, ptr, false, more)
    ensures more ==> Avail(|after|) > 0
  {
    var rest, n := slice[from..], ptr - from;
    assert slice[from..ptr] == rest[..n] && slice[ptr..] == rest[n..];
    TakeFragment(crc, before, goal, rest, begin, after);
  }

  lemma ChunkWritten(crc: Crc, before: Bytes, filled: Bytes, c: Chunk, after: Bytes)
    requires |c.data| <= Avail(|before|)
    requires filled == before + Zeros(Pad(|before|)) && after == filled + Header(crc, c) + c.data
    ensures after == before + ChunkBytes(crc, |before|, c)
  {}

  lemma TakeFragment(crc: Crc, before: Bytes, goal: Bytes, data: Bytes, begin: bool, after: Bytes)
    requires Remaining(crc, before, goal, data, begin)
    requires var n := if |data| < Avail(|before|) then |data| else Avail(|before|);
      after == before + ChunkBytes(crc, |before|, Chunk(KindOf(begin, n == |data|), data[..n]))
    ensures var n := if |data| < Avail(|before|) then |data| else Avail(|before|);
      if n == |data| then goal == after
      else Remaining(crc, after, goal, data[n..], false) && Avail(|after|) > 0
  {
    var p := |before|;
    var n := if |data| < Avail(p) then |data| else Avail(p);
    var c := Chunk(KindOf(begin, n == |data|), data[..n]);
    if n == |data| {
      assert Fragments(p, data, begin) == [c] == [c] + [];
      LayCons(crc, p, c, []);
      assert ChunkBytes(crc, p, c) + [] == ChunkBytes(crc, p, c);
    } else {
      NextBlockHasRoom(p, n);
      var rest := Fragments(ChunkEnd(p, c), data[n..], false);
      assert Fragments(p, data, begin) == [c] + rest;
      LayCons(crc, p, c, rest);
      Assoc(before, ChunkBytes(crc, p, c), Lay(crc, ChunkEnd(p, c), rest));
    }
  }

  lemma OffsetsAgree(length: nat, blockOffset: nat, n: nat)
    requires blockOffset <= BLOCK_SIZE && blockOffset % BLOCK_SIZE == length % BLOCK_SIZE
    requires blockOffset + n <= BLOCK_SIZE
    ensures (blockOffset + n) % BLOCK_SIZE == (length + n) % BLOCK_SIZE
  {}

  /** The writer's block offset gives the padding and the room at the end of the file. */
  lemma LeftoverIsPad(length: nat, blockOffset: nat)
    requires blockOffset <= BLOCK_SIZE && blockOffset % BLOCK_SIZE == length % BLOCK_SIZE
    ensures var leftover := BLOCK_SIZE - blockOffset;
      && Pad(length) == (if leftover < HEADER_SIZE then leftover else 0)
      && Avail(length) == BLOCK_SIZE - (if leftover < HEADER_SIZE then 0 else blockOffset) - HEADER_SIZE
      && (leftover < HEADER_SIZE ==> (length + leftover) % BLOCK_SIZE == 0)
  {}

  lemma OneRecordLog(crc: Crc, p: nat, record: Bytes)
    ensures AllFit(p, Fragments(p, record, true))
    ensures LogBytes(crc, p, [record]) == Lay(crc, p, Fragments(p, record, true))
  {
    LogBytesStep(crc, p, [record]);
  }

  /** Several sessions, each reopening the file at its end, write one continuous log. */
  method WriteSessions(crc: Crc, sessions: seq<seq<Bytes>>) returns (file: Bytes)
    ensures file == LogBytes(crc, 0, Concat(sessions))
  {
    file := [];
    for i := 0 to |sessions|
      invariant file == LogBytes(crc, 0, Concat(sessions[..i]))
    {
      var w := new Writer(crc, file);
      ghost var before := Concat(sessions[..i]);
      assert before + sessions[i][..0] == before;
      for j := 0 to |sessions[i]|
        invariant w.Valid() && w.crc == crc && fresh(w)
        invariant w.dest == LogBytes(crc, 0, before + sessions[i][..j])
      {
        ghost var done := before + sessions[i][..j];
        w.AddRecord(sessions[i][j]);
        LogBytesAppend(crc, 0, done, [sessions[i][j]]);
        LogBytesLength(crc, 0, done);
        assert before + sessions[i][..j + 1] == done + [sessions[i][j]];
      }
      file := w.dest;
      ConcatSnoc(sessions, i);
      assert sessions[i][..|sessions[i]|] == sessions[i];
    }
    assert sessions[..|sessions|] == sessions;
  }

  function Concat(sessions: seq<seq<Bytes>>): seq<Bytes> {
    if sessions == [] then [] else Concat(sessions[..|sessions| - 1]) + sessions[|sessions| - 1]
  }

  lemma ConcatSnoc(sessions: seq<seq<Bytes>>, i: nat)
    requires i < |sessions|
    ensures Concat(sessions[..i + 1]) == Concat(sessions[..i]) + sessions[i]
  {
    assert sessions[..i + 1][..i] == sessions[..i];
  }
}
