/** Reading the write-ahead log back (db/log_reader.cc, initial offset 0), from any prefix of the
    bytes that were written. */
module LogReading {
  import opened Keys
  import opened LogFormat
  import opened LogFiles

  /** ReadPhysicalRecord's extra results. */
  const EOF: nat := 5
  const BAD_RECORD: nat := 6
  const ZERO_TYPE: nat := 0

  function BlockEnd(p: nat): (r: nat)
    ensures p < r
  {
    p - p % BLOCK_SIZE + BLOCK_SIZE
  }

  ghost predicate KindsOk(cs: seq<Chunk>) {
    forall c :: c in cs ==> FULL <= c.kind <= LAST
  }

  /** `file` is a prefix of the written bytes `w`, which continue at `pos` with the chunks `cs`. */
  ghost predicate Ahead(crc: Crc, w: Bytes, file: Bytes, pos: nat, cs: seq<Chunk>) {
    && file <= w && pos <= |w|
    && AllFit(pos, cs) && KindsOk(cs)
    && w[pos..] == Lay(crc, pos, cs)
  }

  /** What is left to read begins at a record boundary. */
  ghost predicate AheadRecords(crc: Crc, w: Bytes, file: Bytes, pos: nat, records: seq<Bytes>) {
    Ahead(crc, w, file, pos, AllFragments(pos, records))
  }

  lemma AheadEnd(crc: Crc, w: Bytes, file: Bytes, pos: nat, cs: seq<Chunk>)
    requires Ahead(crc, w, file, pos, cs)
    ensures |w| == EndOf(pos, cs)
  {
    LayLength(crc, pos, cs);
  }

  lemma FirstChunkInside(pos: nat, cs: seq<Chunk>)
    requires cs != []
    ensures ChunkEnd(pos, cs[0]) <= EndOf(pos, cs)
  {
    EndMonotone(ChunkEnd(pos, cs[0]), cs[1..]);
  }

  lemma EndMonotone(pos: nat, cs: seq<Chunk>)
    ensures pos <= EndOf(pos, cs)
    decreases cs
  {
    if cs != [] {
      EndMonotone(ChunkEnd(pos, cs[0]), cs[1..]);
    }
  }

  /** The bytes of the next chunk, where they are in the file. */
  lemma ChunkAt(crc: Crc, w: Bytes, file: Bytes, pos: nat, cs: seq<Chunk>)
    requires Ahead(crc, w, file, pos, cs) && cs != []
    ensures |cs[0].data| <= Avail(pos) && ChunkEnd(pos, cs[0]) <= |w|
    ensures w[pos..ChunkEnd(pos, cs[0])] == ChunkBytes(crc, pos, cs[0])
    ensures Ahead(crc, w, file, ChunkEnd(pos, cs[0]), cs[1..])
  {
    var c, q := cs[0], ChunkEnd(pos, cs[0]);
    assert cs == [c] + cs[1..];
    LayCons(crc, pos, c, cs[1..]);
    var tail := Lay(crc, q, cs[1..]);
    assert w[pos..] == ChunkBytes(crc, pos, c) + tail;
    assert |w[pos..]| == (q - pos) + |tail|;
    assert w[pos..q] == w[pos..][..q - pos];
    assert w[q..] == w[pos..][q - pos..];
  }

  /** With room for a header before the block ends there is no filler. */
  lemma NoPadBeforeHeader(pos: nat)
    requires pos + HEADER_SIZE <= BlockEnd(pos)
    ensures Pad(pos) == 0 && pos + HEADER_SIZE + Avail(pos) == BlockEnd(pos)
  {}

  lemma HeaderFields(crc: Crc, c: Chunk)
    requires |c.data| <= 0xffff
    ensures var h := Header(crc, c);
      && h[4] == |c.data| % 256 && h[5] == |c.data| / 256 && h[6] == c.kind
      && h[4] as int + 256 * (h[5] as int) == |c.data|
      && h[..4] == Fixed32(Mask(crc([c.kind] + c.data)))
  {}

  /** What ReadPhysicalRecord parses at `pos` when a chunk lies there. */
  lemma ParsesChunk(crc: Crc, w: Bytes, file: Bytes, pos: nat, cs: seq<Chunk>, end: nat)
    requires Ahead(crc, w, file, pos, cs)
    requires pos + HEADER_SIZE <= end <= |file| && end <= BlockEnd(pos)
    ensures cs != [] && ChunkEnd(pos, cs[0]) == pos + HEADER_SIZE + |cs[0].data| <= BlockEnd(pos)
    ensures FULL <= cs[0].kind <= LAST
    ensures file[pos + 4] as int + 256 * (file[pos + 5] as int) == |cs[0].data| && file[pos + 6] == cs[0].kind
    ensures file[pos..pos + 4] == Fixed32(Mask(crc([cs[0].kind] + cs[0].data)))
    ensures ChunkEnd(pos, cs[0]) <= |file| ==> file[pos + HEADER_SIZE..ChunkEnd(pos, cs[0])] == cs[0].data
    ensures Ahead(crc, w, file, ChunkEnd(pos, cs[0]), cs[1..])
  {
    AheadEnd(crc, w, file, pos, cs);
    assert cs != [];
    var c := cs[0];
    assert c in cs;
    ChunkAt(crc, w, file, pos, cs);
    NoPadBeforeHeader(pos);
    HeaderFields(crc, c);
    var bytes := ChunkBytes(crc, pos, c);
    assert bytes == Header(crc, c) + c.data by {
      assert Zeros(0) == [];
    }
    forall i | 0 <= i < HEADER_SIZE ensures file[pos + i] == Header(crc, c)[i] {
      assert w[pos..ChunkEnd(pos, c)][i] == bytes[i];
    }
    assert file[pos..pos + 4] == Header(crc, c)[..4];
    if ChunkEnd(pos, c) <= |file| {
      assert file[pos + HEADER_SIZE..ChunkEnd(pos, c)] == w[pos..ChunkEnd(pos, c)][HEADER_SIZE..];
    }
  }

  /** Skipping the filler at the end of a block loses nothing. */
  lemma SkipTrailer(crc: Crc, w: Bytes, file: Bytes, pos: nat, cs: seq<Chunk>, end: nat)
    requires Ahead(crc, w, file, pos, cs) && pos <= end <= |file|
    requires end == pos || (end == BlockEnd(pos) && end < pos + HEADER_SIZE)
    ensures Ahead(crc, w, file, end, cs)
  {
    if end != pos {
      AheadEnd(crc, w, file, pos, cs);
      assert cs != [];
      ChunkAt(crc, w, file, pos, cs);
      PadReachesBlockEnd(pos);
      LayFromBlockStart(crc, pos, cs);
      assert w[end..] == w[pos..][end - pos..];
    }
  }

  lemma PadReachesBlockEnd(pos: nat)
    requires BlockEnd(pos) < pos + HEADER_SIZE
    ensures pos + Pad(pos) == BlockEnd(pos) && Pad(BlockEnd(pos)) == 0 && Avail(BlockEnd(pos)) == Avail(pos)
  {
    FillsBlock(pos);
    assert BlockEnd(pos) == pos + (BLOCK_SIZE - pos % BLOCK_SIZE);
  }

  lemma LayFromBlockStart(crc: Crc, pos: nat, cs: seq<Chunk>)
    requires BlockEnd(pos) < pos + HEADER_SIZE && AllFit(pos, cs) && cs != []
    ensures AllFit(BlockEnd(pos), cs)
    ensures Lay(crc, pos, cs) == Zeros(BlockEnd(pos) - pos) + Lay(crc, BlockEnd(pos), cs)
  {
    PadReachesBlockEnd(pos);
    var tail := Lay(crc, ChunkEnd(pos, cs[0]), cs[1..]);
    assert ChunkEnd(pos, cs[0]) == ChunkEnd(BlockEnd(pos), cs[0]);
    assert Zeros(0) == [];
    assert ChunkBytes(crc, BlockEnd(pos), cs[0]) == Header(crc, cs[0]) + cs[0].data;
    assert ChunkBytes(crc, pos, cs[0]) == Zeros(BlockEnd(pos) - pos) + ChunkBytes(crc, BlockEnd(pos), cs[0]);
    Assoc(Zeros(BlockEnd(pos) - pos), ChunkBytes(crc, BlockEnd(pos), cs[0]), tail);
  }

  class Reader {
    const crc: Crc
    const file: Bytes
    const checksum: bool
    var buffer: Bytes
    var eof: bool
    var endOfBufferOffset: nat
    /** How often the reporter was told of corruption. */
    var reports: nat

    /** The file position of the next unread byte. */
    function Pos(): int
      reads this
    {
      endOfBufferOffset - |buffer|
    }

    /** The buffer is the unread rest of the block read last. */
    ghost predicate Valid()
      reads this
    {
      && |buffer| <= endOfBufferOffset <= |file|
      && buffer == file[Pos()..endOfBufferOffset]
      && (buffer != [] ==> endOfBufferOffset <= BlockEnd(Pos()))
      && (if eof then endOfBufferOffset == |file| else endOfBufferOffset % BLOCK_SIZE == 0)
      && (eof && buffer != [] ==> |file| < BlockEnd(Pos()))
    }

    constructor (crc: Crc, file: Bytes, checksum: bool)
      ensures Valid() && Pos() == 0 && reports == 0
      ensures this.crc == crc && this.file == file && this.checksum == checksum
    {
      this.crc, this.file, this.checksum := crc, file, checksum;
      buffer, eof, endOfBufferOffset, reports := [], false, 0, 0;
      new;
      assert file[0..0] == [];
    }

    /** The sequential file's Read of one block, or what is left. */
    method ReadBlock()
      requires Valid() && !eof
      modifies this`buffer, this`eof, this`endOfBufferOffset
      ensures Valid() && Pos() == old(endOfBufferOffset)
      ensures eof || endOfBufferOffset == old(endOfBufferOffset) + BLOCK_SIZE
    {
      var n := if |file| - endOfBufferOffset < BLOCK_SIZE then |file| - endOfBufferOffset else BLOCK_SIZE;
      buffer := file[endOfBufferOffset..endOfBufferOffset + n];
      BlocksStayAligned(endOfBufferOffset);
      endOfBufferOffset := endOfBufferOffset + n;
      eof := n < BLOCK_SIZE;
    }

    /** ReadPhysicalRecord. Whatever the bytes, it returns the chunk behind the next header if that is
        whole and intact, and else uses up the block and says why; on a prefix of a written log it returns
        the next chunk if that lies wholly in the file, and otherwise end of file, without reporting anything. */
    method ReadPhysicalRecord(ghost w: Bytes, ghost cs: seq<Chunk>) returns (kind: nat, fragment: Bytes)
      requires Valid()
      modifies this`buffer, this`eof, this`endOfBufferOffset, this`reports
      ensures Valid() && Judged(crc, checksum, file, NextHeader(old(Pos())), kind, fragment, Pos(), reports - old(reports))
      ensures Ahead(crc, w, file, old(Pos()), cs) ==> reports == old(reports)
      ensures Ahead(crc, w, file, old(Pos()), cs) ==>
        if cs != [] && ChunkEnd(old(Pos()), cs[0]) <= |file|
        then kind == cs[0].kind && fragment == cs[0].data && Pos() == ChunkEnd(old(Pos()), cs[0])
        else kind == EOF
      ensures kind != EOF ==> Pos() > old(Pos())
    {
      Refill(w, cs);
      if |buffer| < HEADER_SIZE {
        TooShortForChunk(|file|, Pos(), cs);
        buffer := [];
        return EOF, [];
      }
      kind, fragment := ParseNext(w, cs);
    }

    /** With a header in the buffer: what lies there, and on a prefix of a written log the next chunk. */
    method ParseNext(ghost w: Bytes, ghost cs: seq<Chunk>) returns (kind: nat, fragment: Bytes)
      requires Valid() && |buffer| >= HEADER_SIZE
      modifies this`buffer, this`reports
      ensures Valid() && Judged(crc, checksum, file, old(Pos()), kind, fragment, Pos(), reports - old(reports)) && Pos() > old(Pos())
      ensures Ahead(crc, w, file, old(Pos()), cs) ==> cs != [] && reports == old(reports)
      ensures Ahead(crc, w, file, old(Pos()), cs) ==>
        if ChunkEnd(old(Pos()), cs[0]) <= |file|
        then kind == cs[0].kind && fragment == cs[0].data && Pos() == ChunkEnd(old(Pos()), cs[0])
        else kind == EOF
    {
      ghost var pos, written := Pos(), Ahead(crc, w, file, Pos(), cs);
      kind, fragment := ParseBuffered();
      if written {
        ParseOfWritten(crc, checksum, w, file, pos, cs, kind, fragment, Pos(), reports - old(reports));
      }
    }

    /** The part of ReadPhysicalRecord that reads blocks until a header is buffered or the file ends. */
    method Refill(ghost w: Bytes, ghost cs: seq<Chunk>)
      requires Valid()
      modifies this`buffer, this`eof, this`endOfBufferOffset
      ensures Valid() && (|buffer| >= HEADER_SIZE || eof) && Pos() >= old(Pos())
      ensures if |buffer| >= HEADER_SIZE then Pos() == NextHeader(old(Pos())) else NextHeader(old(Pos())) + HEADER_SIZE > |file|
      ensures Ahead(crc, w, file, old(Pos()), cs) ==> Ahead(crc, w, file, Pos(), cs)
      ensures Ahead(crc, w, file, old(Pos()), cs) && cs != [] ==> ChunkEnd(Pos(), cs[0]) == ChunkEnd(old(Pos()), cs[0])
    {
      ghost var written := Ahead(crc, w, file, Pos(), cs);
      ghost var start := Pos();
      while |buffer| < HEADER_SIZE && !eof
        invariant Valid() && Pos() >= start && NextHeader(Pos()) == NextHeader(start)
        invariant Pos() == start || Pos() == NextHeader(start)
        invariant written ==> Ahead(crc, w, file, Pos(), cs) && (cs != [] ==> ChunkEnd(Pos(), cs[0]) == ChunkEnd(start, cs[0]))
        decreases |file| - endOfBufferOffset, !eof
      {
        BufferEndsBlock(Pos(), endOfBufferOffset, |buffer|);
        TrailerToHeader(Pos(), endOfBufferOffset, |buffer|);
        if written {
          SkipTrailer(crc, w, file, Pos(), cs, endOfBufferOffset);
          SameChunkEnd(Pos(), endOfBufferOffset, cs);
        }
        ReadBlock();
      }
      if |buffer| >= HEADER_SIZE {
        assert Pos() + HEADER_SIZE <= BlockEnd(Pos());
      }
    }

    /** Slice::remove_prefix on the buffer; all of it when a bad record makes the rest useless. */
    method Consume(n: nat)
      requires Valid() && n <= |buffer|
      modifies this`buffer
      ensures Valid() && Pos() == old(Pos()) + n
    {
      ghost var pos := Pos();
      SliceOfSlice(file, pos, endOfBufferOffset, n, |buffer|);
      StillInBlock(pos, endOfBufferOffset, n, |buffer|);
      buffer := buffer[n..];
    }

    /** The part of ReadPhysicalRecord that takes one chunk out of the buffer. */
    method ParseBuffered() returns (kind: nat, fragment: Bytes)
      requires Valid() && |buffer| >= HEADER_SIZE
      modifies this`buffer, this`reports
      ensures Valid() && Judged(crc, checksum, file, old(Pos()), kind, fragment, Pos(), reports - old(reports))
    {
      var used, dropped;
      kind, fragment, used, dropped := JudgeBuffered();
      Consume(used);
      reports := reports + dropped;
    }

    /** What the chunk at the start of the buffer is, how much of the buffer it uses up and how
        many corruptions it is worth. */
    method JudgeBuffered() returns (kind: nat, fragment: Bytes, used: nat, dropped: nat)
      requires Valid() && |buffer| >= HEADER_SIZE
      ensures used <= |buffer| && Judged(crc, checksum, file, Pos(), kind, fragment, Pos() + used, dropped)
    {
      if !eof {
        BufferEndsBlock(Pos(), endOfBufferOffset, |buffer|);
      }
      ghost var p := Pos();
      assert BlockPart(file, p) == p + |buffer| == endOfBufferOffset && (BlockEnd(p) <= |file| <==> !eof);
      var t, length := HeaderFieldsInBuffer();
      assert length == LengthAt(file, p) && t == file[p + 6];
      if HEADER_SIZE + length > |buffer| {
        if !eof {
          return BAD_RECORD, [], |buffer|, 1;
        }
        return EOF, [], |buffer|, 0;
      }
      if t == ZERO_TYPE && length == 0 {
        return BAD_RECORD, [], |buffer|, 0;
      }
      var payload, good := TakePayload(t, length);
      if checksum && !good {
        return BAD_RECORD, [], |buffer|, 1;
      }
      return t, payload, HEADER_SIZE + length, 0;
    }

    /** ReadRecord. Whatever the bytes, it terminates, and what it returns is spelled by whole, intact chunks
        that lie behind each other in the file; on a prefix of a written log it returns the next record if that
        lies wholly in the file, and otherwise says there is none, without reporting anything. */
    method ReadRecord(ghost w: Bytes, ghost records: seq<Bytes>) returns (ok: bool, record: Bytes, ghost pieces: seq<Placed>)
      requires Valid()
      modifies this`buffer, this`eof, this`endOfBufferOffset, this`reports
      ensures Valid()
      ensures AheadRecords(crc, w, file, old(Pos()), records) ==> reports == old(reports)
      ensures AheadRecords(crc, w, file, old(Pos()), records) ==>
        if records != [] && RecordEnd(old(Pos()), records[0]) <= |file|
        then ok && record == records[0] && Pos() == RecordEnd(old(Pos()), records[0])
             && AheadRecords(crc, w, file, Pos(), records[1..])
        else !ok
      ensures ok ==> Pos() > old(Pos())
      ensures ok ==> Spells(crc, checksum, file, pieces, record)
      ensures ok ==> old(Pos()) <= StartOfPieces(pieces) && EndOfPieces(pieces) == Pos()
    {
      ghost var start, written := Pos(), AheadRecords(crc, w, file, Pos(), records);
      var scratch, inFragmentedRecord := [], false;
      pieces := [];
      if written {
        StartsReading(crc, w, file, start, records);
      }
      while true
        invariant Valid() && Pos() >= start
        invariant written ==> reports == old(reports)
        invariant written ==> Reading(crc, w, file, start, Pos(), records, inFragmentedRecord, scratch)
        invariant inFragmentedRecord ==> Begins(crc, checksum, file, start, pieces, scratch, Pos())
        decreases |file| - Pos()
      {
        var done;
        done, ok, record, scratch, inFragmentedRecord, pieces := NextPiece(w, start, records, inFragmentedRecord, scratch, pieces);
        if done {
          return;
        }
      }
    }

    /** One turn of ReadRecord's loop. */
    method NextPiece(ghost w: Bytes, ghost start: nat, ghost records: seq<Bytes>, fragmented: bool, soFar: Bytes, ghost before: seq<Placed>)
      returns (done: bool, ok: bool, record: Bytes, scratch: Bytes, inFragmentedRecord: bool, ghost pieces: seq<Placed>)
      requires Valid() && start <= Pos() && (fragmented ==> Begins(crc, checksum, file, start, before, soFar, Pos()))
      modifies this`buffer, this`eof, this`endOfBufferOffset, this`reports
      ensures Valid() && (!done || ok ==> Pos() > old(Pos()))
      ensures Reading(crc, w, file, start, old(Pos()), records, fragmented, soFar) ==>
                && reports == old(reports)
                && (!done ==> Reading(crc, w, file, start, Pos(), records, inFragmentedRecord, scratch))
                && (done ==> ok == (records != [] && RecordEnd(start, records[0]) <= |file|))
                && (done && ok ==>
                     record == records[0] && Pos() == RecordEnd(start, records[0]) && AheadRecords(crc, w, file, Pos(), records[1..]))
      ensures done && ok ==> Spells(crc, checksum, file, pieces, record) && start <= StartOfPieces(pieces) && EndOfPieces(pieces) == Pos()
      ensures !done && inFragmentedRecord ==> Begins(crc, checksum, file, start, pieces, scratch, Pos())
    {
      ghost var pos := Pos();
      var kind, fragment := NextChunk(w, start, records, fragmented, soFar);
      ghost var here := Placed(NextHeader(pos), kind, fragment);
      done, ok, record, scratch, inFragmentedRecord := Assemble(kind, fragment, soFar, fragmented);
      pieces := before;
      if kind == 1 || kind == 2 {
        FirstPiece(crc, checksum, file, start, pos, here, Pos());
        pieces := [here];
      } else if (kind == 3 || kind == 4) && fragmented {
        OnePieceMore(crc, checksum, file, start, before, soFar, pos, here, Pos());
        pieces := before + [here];
      }
    }

    /** ReadPhysicalRecord inside a record: on a prefix of a written log the chunk fits what was read so far. */
    method NextChunk(ghost w: Bytes, ghost start: nat, ghost records: seq<Bytes>, ghost fragmented: bool, ghost scratch: Bytes)
      returns (kind: nat, fragment: Bytes)
      requires Valid()
      modifies this`buffer, this`eof, this`endOfBufferOffset, this`reports
      ensures Valid() && (kind != EOF ==> Pos() > old(Pos()))
      ensures kind in {1, 2, 3, 4} ==>
        StoredAt(crc, checksum, file, NextHeader(old(Pos())), kind, fragment) && Pos() == NextHeader(old(Pos())) + HEADER_SIZE + |fragment|
      ensures Reading(crc, w, file, start, old(Pos()), records, fragmented, scratch) ==>
                && reports == old(reports) && kind in {1, 2, 3, 4, 5}
                && (kind == 5 ==> records == [] || RecordEnd(start, records[0]) > |file|)
                && (kind in {1, 2} ==> !fragmented) && (kind in {3, 4} ==> fragmented)
                && (kind in {1, 4} ==> records != [] && scratch + fragment == records[0])
                && (kind in {1, 4} ==> Pos() == RecordEnd(start, records[0]) <= |file| && AheadRecords(crc, w, file, Pos(), records[1..]))
                && (kind in {2, 3} ==> Reading(crc, w, file, start, Pos(), records, true, scratch + fragment))
    {
      ghost var pos := Pos();
      kind, fragment := ReadPhysicalRecord(w, ChunksLeft(pos, records, !fragmented, |scratch|));
      if Reading(crc, w, file, start, pos, records, fragmented, scratch) {
        ReadingStep(crc, w, file, start, pos, records, fragmented, scratch, kind, fragment, Pos());
      }
    }

    /** The switch of ReadRecord: done with a record or at the end, or on to the next chunk. */
    method Assemble(kind: nat, fragment: Bytes, soFar: Bytes, fragmented: bool)
      returns (done: bool, ok: bool, record: Bytes, scratch: Bytes, inFragmentedRecord: bool)
      modifies this`reports
      ensures done ==> kind in {1, 4, 5} && (ok <==> kind != 5) && (kind == 4 ==> fragmented)
      ensures !done && inFragmentedRecord ==> kind == 2 || (kind == 3 && fragmented)
      ensures kind == 1 ==> done && record == fragment
      ensures kind == 2 ==> !done && scratch == fragment && inFragmentedRecord
      ensures kind == 3 && fragmented ==> !done && scratch == soFar + fragment && inFragmentedRecord
      ensures kind == 4 && fragmented ==> done && record == soFar + fragment
      ensures kind == 5 ==> done
      ensures kind == 5 || (kind in {1, 2} && (!fragmented || soFar == [])) || (kind in {3, 4} && fragmented) ==>
                reports == old(reports)
    {
      done, ok, record, scratch, inFragmentedRecord := false, false, [], soFar, fragmented;
      match kind {
        case 1 =>
          if fragmented && soFar != [] {
            reports := reports + 1;
          }
          done, ok, record := true, true, fragment;
        case 2 =>
          if fragmented && soFar != [] {
            reports := reports + 1;
          }
          scratch, inFragmentedRecord := fragment, true;
        case 3 =>
          if !fragmented {
            reports := reports + 1;
          } else {
            scratch := soFar + fragment;
          }
        case 4 =>
          if !fragmented {
            reports := reports + 1;
          } else {
            done, ok, record := true, true, soFar + fragment;
          }
        case 5 =>
          done := true;
        case 6 =>
          if fragmented {
            reports := reports + 1;
            scratch, inFragmentedRecord := [], false;
          }
        case _ =>
          reports := reports + 1;
          scratch, inFragmentedRecord := [], false;
      }
    }

    method HeaderFieldsInBuffer() returns (t: Byte, length: nat)
      requires Valid() && |buffer| >= HEADER_SIZE
      ensures t == file[Pos() + 6] && length == file[Pos() + 4] as int + 256 * (file[Pos() + 5] as int)
    {
      ghost var pos := Pos();
      assert buffer[4] == file[pos + 4] && buffer[5] == file[pos + 5] && buffer[6] == file[pos + 6];
      t := buffer[6];
      length := buffer[4] as int + 256 * (buffer[5] as int);
    }

    /** The payload in the buffer, and whether its checksum is the stored one. */
    method TakePayload(t: Byte, length: nat) returns (payload: Bytes, good: bool)
      requires Valid() && HEADER_SIZE + length <= |buffer|
      ensures payload == file[Pos() + HEADER_SIZE..Pos() + HEADER_SIZE + length]
      ensures good <==> Intact(crc, file, Pos(), t, payload)
    {
      ghost var pos, end := Pos(), endOfBufferOffset;
      SliceOfSlice(file, pos, end, 0, 4);
      SliceOfSlice(file, pos, end, HEADER_SIZE, HEADER_SIZE + length);
      payload := buffer[HEADER_SIZE..HEADER_SIZE + length];
      good := Unmask(DecodeFixed32(buffer[0..4])) == crc([t] + payload);
    }
  }

  /** The chunks still to come when `taken` bytes of the first record have been read. */
  ghost function ChunksLeft(pos: nat, records: seq<Bytes>, begin: bool, taken: nat): seq<Chunk> {
    if records == [] || taken > |records[0]| then []
    else
      var cs := Fragments(pos, records[0][taken..], begin);
      cs + AllFragments(EndOf(pos, cs), records[1..])
  }

  /** Where ReadRecord's loop stands within the first of the remaining records, which began at `start`. */
  ghost predicate Reading(crc: Crc, w: Bytes, file: Bytes, start: nat, pos: nat, records: seq<Bytes>,
                          fragmented: bool, scratch: Bytes)
  {
    && Ahead(crc, w, file, pos, ChunksLeft(pos, records, !fragmented, |scratch|))
    && (fragmented ==> records != [])
    && (!fragmented ==> scratch == [])
    && (records != [] ==>
          && scratch <= records[0]
          && EndOf(pos, Fragments(pos, records[0][|scratch|..], !fragmented)) == RecordEnd(start, records[0]))
  }

  lemma StartsReading(crc: Crc, w: Bytes, file: Bytes, start: nat, records: seq<Bytes>)
    requires AheadRecords(crc, w, file, start, records)
    ensures Reading(crc, w, file, start, start, records, false, [])
  {
    if records != [] {
      assert records[0][0..] == records[0];
    }
  }

  /** One more physical record: what it is, and where the loop then stands. */
  lemma ReadingStep(crc: Crc, w: Bytes, file: Bytes, start: nat, pos: nat, records: seq<Bytes>,
                    fragmented: bool, scratch: Bytes, kind: nat, fragment: Bytes, next: nat)
    requires Reading(crc, w, file, start, pos, records, fragmented, scratch)
    requires var cs := ChunksLeft(pos, records, !fragmented, |scratch|);
      if cs != [] && ChunkEnd(pos, cs[0]) <= |file|
      then kind == cs[0].kind && fragment == cs[0].data && next == ChunkEnd(pos, cs[0])
      else kind == EOF
    ensures kind in {1, 2, 3, 4, 5}
    ensures kind == 5 ==> records == [] || RecordEnd(start, records[0]) > |file|
    ensures kind in {1, 2} ==> !fragmented
    ensures kind in {3, 4} ==> fragmented
    ensures kind in {1, 4} ==> records != [] && scratch + fragment == records[0]
    ensures kind in {1, 4} ==> next == RecordEnd(start, records[0]) <= |file| && AheadRecords(crc, w, file, next, records[1..])
    ensures kind in {2, 3} ==> Reading(crc, w, file, start, next, records, true, scratch + fragment)
  {
    var cs := ChunksLeft(pos, records, !fragmented, |scratch|);
    if records != [] {
      OwnChunkFirst(pos, records, !fragmented, |scratch|);
      if kind == EOF {
        FirstChunkInside(pos, Fragments(pos, records[0][|scratch|..], !fragmented));
      } else {
        ChunkAt(crc, w, file, pos, cs);
        TailStep(pos, next, records, !fragmented, |scratch|, fragment);
        Extended(records[0], scratch, fragment);
      }
    }
  }

  lemma Extended(data: Bytes, taken: Bytes, more: Bytes)
    requires taken <= data && more <= data[|taken|..]
    ensures taken + more <= data
    ensures |more| == |data[|taken|..]| ==> taken + more == data
  {
    assert data == taken + data[|taken|..];
  }

  lemma OwnChunkFirst(pos: nat, records: seq<Bytes>, begin: bool, taken: nat)
    requires records != [] && taken <= |records[0]|
    ensures var cs := ChunksLeft(pos, records, begin, taken);
      cs != [] && cs[0] == Fragments(pos, records[0][taken..], begin)[0] && 1 <= cs[0].kind <= 4
  {
    FragmentStep(pos, records[0][taken..], begin);
  }

  /** The first chunk of a record's data and what is left after it. */
  lemma FragmentStep(pos: nat, data: Bytes, begin: bool)
    ensures var cs := Fragments(pos, data, begin);
      var c, q := cs[0], ChunkEnd(pos, cs[0]);
      && c.data <= data
      && EndOf(pos, cs) == EndOf(q, cs[1..])
      && (if |c.data| < |data|
          then c.kind == KindOf(begin, false) && cs[1..] == Fragments(q, data[|c.data|..], false)
          else c.kind == KindOf(begin, true) && cs == [c] && EndOf(pos, cs) == q)
  {
    var n := if |data| < Avail(pos) then |data| else Avail(pos);
    var c := Chunk(KindOf(begin, n == |data|), data[..n]);
    if n != |data| {
      NextBlockHasRoom(pos, n);
      assert Fragments(pos, data, begin) == [c] + Fragments(ChunkEnd(pos, c), data[n..], false);
    }
  }

  lemma TailStep(pos: nat, next: nat, records: seq<Bytes>, begin: bool, taken: nat, fragment: Bytes)
    requires records != [] && taken <= |records[0]|
    requires var cs := ChunksLeft(pos, records, begin, taken);
      cs != [] && fragment == cs[0].data && next == ChunkEnd(pos, cs[0])
    ensures var cs, rem := ChunksLeft(pos, records, begin, taken), records[0][taken..];
      && fragment <= rem
      && cs[0].kind == KindOf(begin, |fragment| == |rem|)
      && cs[1..] == (if |fragment| < |rem| then ChunksLeft(next, records, false, taken + |fragment|) else AllFragments(next, records[1..]))
      && EndOf(pos, Fragments(pos, rem, begin)) ==
         (if |fragment| < |rem| then EndOf(next, Fragments(next, records[0][taken + |fragment|..], false)) else next)
  {
    var rem := records[0][taken..];
    var own := Fragments(pos, rem, begin);
    var rest := AllFragments(EndOf(pos, own), records[1..]);
    FragmentStep(pos, rem, begin);
    RestOfConcat(own, rest);
    if |fragment| < |rem| {
      DropTwice(records[0], taken, |fragment|);
    }
  }

  lemma RestOfConcat<T>(a: seq<T>, b: seq<T>)
    requires a != []
    ensures (a + b)[0] == a[0] && (a + b)[1..] == a[1..] + b
  {}

  lemma DropTwice(s: Bytes, a: nat, b: nat)
    requires a + b <= |s|
    ensures s[a..][b..] == s[a + b..]
  {}

  /** Where the reader looks for the next header: too little of a block is skipped. */
  function NextHeader(pos: nat): nat {
    if pos + HEADER_SIZE <= BlockEnd(pos) then pos else BlockEnd(pos)
  }

  lemma TrailerToHeader(pos: nat, end: nat, n: nat)
    requires pos + n == end && end % BLOCK_SIZE == 0 && n < HEADER_SIZE && (n > 0 ==> end == BlockEnd(pos))
    ensures end == NextHeader(pos) == NextHeader(end)
  {
    BlocksStayAligned(end);
  }

  /** How far the block of `p` goes in the file. */
  function BlockPart(file: Bytes, p: nat): nat {
    if BlockEnd(p) <= |file| then BlockEnd(p) else |file|
  }

  function LengthAt(file: Bytes, p: nat): nat
    requires p + HEADER_SIZE <= |file|
  {
    file[p + 4] as int + 256 * (file[p + 5] as int)
  }

  /** The checksum stored at `p` is that of the type and payload. */
  predicate Intact(crc: Crc, file: Bytes, p: nat, t: Byte, payload: Bytes)
    requires p + HEADER_SIZE <= |file|
  {
    Unmask(DecodeFixed32(file[p..p + 4])) == crc([t] + payload)
  }

  /** A whole chunk at `p`: kind and length in its header, its data behind it in the same block, and, where
      checksums count, the one stored that of kind and data. */
  ghost predicate StoredAt(crc: Crc, checksum: bool, file: Bytes, p: nat, kind: nat, data: Bytes) {
    && p + HEADER_SIZE + |data| <= BlockPart(file, p)
    && file[p + 6] == kind && LengthAt(file, p) == |data| && file[p + HEADER_SIZE..p + HEADER_SIZE + |data|] == data
    && (checksum ==> Intact(crc, file, p, file[p + 6], data))
  }

  /** What is to be said of the header at `p`, whatever the bytes. */
  ghost predicate Judged(crc: Crc, checksum: bool, file: Bytes, p: nat, kind: nat, fragment: Bytes, next: nat, reports: int) {
    if p + HEADER_SIZE > |file| then
      kind == EOF && fragment == [] && next == |file| && reports == 0
    else if p + HEADER_SIZE + LengthAt(file, p) > BlockPart(file, p) then
      // cut off by the end of the file, or longer than its block
      fragment == [] && next == BlockPart(file, p)
      && if BlockEnd(p) <= |file| then kind == BAD_RECORD && reports == 1 else kind == EOF && reports == 0
    else if file[p + 6] == ZERO_TYPE && LengthAt(file, p) == 0 then
      kind == BAD_RECORD && fragment == [] && next == BlockPart(file, p) && reports == 0
    else if checksum && !Intact(crc, file, p, file[p + 6], file[p + HEADER_SIZE..p + HEADER_SIZE + LengthAt(file, p)]) then
      kind == BAD_RECORD && fragment == [] && next == BlockPart(file, p) && reports == 1
    else
      StoredAt(crc, checksum, file, p, kind, fragment) && next == p + HEADER_SIZE + |fragment| && reports == 0
  }

  datatype Placed = Placed(pos: nat, kind: nat, data: Bytes)

  function EndOfPieces(ps: seq<Placed>): nat {
    if ps == [] then 0 else ps[|ps| - 1].pos + HEADER_SIZE + |ps[|ps| - 1].data|
  }

  function StartOfPieces(ps: seq<Placed>): nat {
    if ps == [] then 0 else ps[0].pos
  }

  function DataOf(ps: seq<Placed>): Bytes {
    if ps == [] then [] else DataOf(ps[..|ps| - 1]) + ps[|ps| - 1].data
  }

  /** Whole, intact chunks, each at the first header after the one before. */
  ghost predicate Chained(crc: Crc, checksum: bool, file: Bytes, ps: seq<Placed>) {
    ps == [] ||
    var init, last := ps[..|ps| - 1], ps[|ps| - 1];
    && Chained(crc, checksum, file, init) && StoredAt(crc, checksum, file, last.pos, last.kind, last.data)
    && (init != [] ==> last.pos == NextHeader(EndOfPieces(init)))
  }

  /** A first chunk and any number in the middle. */
  ghost predicate Unended(ps: seq<Placed>) {
    ps != [] && if |ps| == 1 then ps[0].kind == 2 else Unended(ps[..|ps| - 1]) && ps[|ps| - 1].kind == 3
  }

  /** A full chunk, or a first one, any number in the middle and a last one, with the record's bytes. */
  ghost predicate Spells(crc: Crc, checksum: bool, file: Bytes, ps: seq<Placed>, record: Bytes) {
    && ps != [] && Chained(crc, checksum, file, ps) && DataOf(ps) == record
    && if |ps| == 1 then ps[0].kind == 1 else Unended(ps[..|ps| - 1]) && ps[|ps| - 1].kind == 4
  }

  /** What a record begun and not ended has been read from. */
  ghost predicate Begins(crc: Crc, checksum: bool, file: Bytes, start: int, ps: seq<Placed>, scratch: Bytes, pos: int) {
    && Unended(ps) && Chained(crc, checksum, file, ps) && DataOf(ps) == scratch
    && start <= StartOfPieces(ps) && EndOfPieces(ps) == pos
  }

  lemma FirstPiece(crc: Crc, checksum: bool, file: Bytes, start: int, pos: nat, here: Placed, next: int)
    requires StoredAt(crc, checksum, file, here.pos, here.kind, here.data) && here.pos == NextHeader(pos) && start <= pos
    requires next == here.pos + HEADER_SIZE + |here.data|
    ensures here.kind == 1 ==> Spells(crc, checksum, file, [here], here.data)
    ensures here.kind == 2 ==> Begins(crc, checksum, file, start, [here], here.data, next)
    ensures start <= StartOfPieces([here]) && EndOfPieces([here]) == next
  {
    assert [here][..0] == [] && DataOf([here]) == here.data;
    assert Chained(crc, checksum, file, []);
  }

  lemma OnePieceMore(crc: Crc, checksum: bool, file: Bytes, start: int, ps: seq<Placed>, scratch: Bytes, pos: nat, here: Placed, next: int)
    requires Begins(crc, checksum, file, start, ps, scratch, pos)
    requires StoredAt(crc, checksum, file, here.pos, here.kind, here.data) && here.pos == NextHeader(pos)
    requires next == here.pos + HEADER_SIZE + |here.data|
    ensures here.kind == 3 ==> Begins(crc, checksum, file, start, ps + [here], scratch + here.data, next)
    ensures here.kind == 4 ==> Spells(crc, checksum, file, ps + [here], scratch + here.data)
    ensures start <= StartOfPieces(ps + [here]) && EndOfPieces(ps + [here]) == next
  {
    assert (ps + [here])[..|ps|] == ps;
  }

  /** On a prefix of a written log that is the next chunk if it is whole, else the end of the file. */
  lemma ParseOfWritten(crc: Crc, checksum: bool, w: Bytes, file: Bytes, pos: nat, cs: seq<Chunk>,
                       kind: nat, fragment: Bytes, next: nat, reports: int)
    requires Ahead(crc, w, file, pos, cs) && pos + HEADER_SIZE <= BlockEnd(pos) && pos + HEADER_SIZE <= |file|
    requires Judged(crc, checksum, file, pos, kind, fragment, next, reports)
    ensures cs != [] && reports == 0
    ensures if ChunkEnd(pos, cs[0]) <= |file|
      then kind == cs[0].kind && fragment == cs[0].data && next == ChunkEnd(pos, cs[0])
      else kind == EOF
  {
    ParsesChunk(crc, w, file, pos, cs, BlockPart(file, pos));
    StoredChecksum(crc, cs[0], file, pos);
  }

  lemma BlocksStayAligned(p: nat)
    requires p % BLOCK_SIZE == 0
    ensures (p + BLOCK_SIZE) % BLOCK_SIZE == 0 && BlockEnd(p) == p + BLOCK_SIZE
  {}

  lemma BufferEndsBlock(pos: nat, end: nat, n: nat)
    requires pos + n == end && end % BLOCK_SIZE == 0 && (n > 0 ==> end <= BlockEnd(pos))
    ensures n > 0 ==> end == BlockEnd(pos)
  {
    if n > 0 {
      assert pos - pos % BLOCK_SIZE == pos / BLOCK_SIZE * BLOCK_SIZE;
      assert end == end / BLOCK_SIZE * BLOCK_SIZE;
    }
  }

  lemma SameChunkEnd(pos: nat, end: nat, cs: seq<Chunk>)
    requires end == pos || (end == BlockEnd(pos) && end < pos + HEADER_SIZE)
    ensures cs != [] ==> ChunkEnd(pos, cs[0]) == ChunkEnd(end, cs[0])
  {
    if end != pos {
      PadReachesBlockEnd(pos);
    }
  }

  lemma TooShortForChunk(length: nat, pos: nat, cs: seq<Chunk>)
    ensures length < pos + HEADER_SIZE && cs != [] ==> ChunkEnd(pos, cs[0]) > length
  {}

  lemma StillInBlock(pos: nat, end: nat, n: nat, size: nat)
    requires pos + size == end && n <= size && (size > 0 ==> end <= BlockEnd(pos))
    ensures n < size ==> end <= BlockEnd(pos + n)
  {
    if n < size {
      SameBlock(pos, n);
    }
  }

  lemma SameBlock(pos: nat, n: nat)
    requires pos + n < BlockEnd(pos)
    ensures BlockEnd(pos + n) == BlockEnd(pos)
  {
    assert pos % BLOCK_SIZE + n < BLOCK_SIZE;
    assert (pos + n) % BLOCK_SIZE == pos % BLOCK_SIZE + n by {
      assert pos == pos / BLOCK_SIZE * BLOCK_SIZE + pos % BLOCK_SIZE;
      assert pos + n == pos / BLOCK_SIZE * BLOCK_SIZE + (pos % BLOCK_SIZE + n);
    }
  }

  lemma StoredChecksum(crc: Crc, c: Chunk, file: Bytes, pos: nat)
    requires pos + HEADER_SIZE <= |file|
    ensures file[pos..pos + 4] == Fixed32(Mask(crc([c.kind] + c.data))) ==>
      Unmask(DecodeFixed32(file[pos..pos + 4])) == crc([c.kind] + c.data)
  {
    Fixed32RoundTrip(Mask(crc([c.kind] + c.data)));
    UnmaskInvertsMask(crc([c.kind] + c.data));
  }

  // ----- Whole logs -----

  lemma {:induction false} FragmentKinds(p: nat, data: Bytes, begin: bool)
    ensures KindsOk(Fragments(p, data, begin))
    decreases |data|, Avail(p) == 0
  {
    FragmentStep(p, data, begin);
    var cs := Fragments(p, data, begin);
    if |cs[0].data| < |data| {
      NextBlockHasRoom(p, |cs[0].data|);
      FragmentKinds(ChunkEnd(p, cs[0]), data[|cs[0].data|..], false);
      assert cs == [cs[0]] + cs[1..];
    }
  }

  lemma {:induction false} RecordKinds(p: nat, records: seq<Bytes>)
    ensures KindsOk(AllFragments(p, records))
    decreases records
  {
    if records != [] {
      FragmentKinds(p, records[0], true);
      RecordKinds(RecordEnd(p, records[0]), records[1..]);
    }
  }

  lemma LogStarts(crc: Crc, file: Bytes, records: seq<Bytes>)
    requires file <= LogBytes(crc, 0, records)
    ensures AheadRecords(crc, LogBytes(crc, 0, records), file, 0, records)
  {
    AllFragmentsFit(0, records);
    RecordKinds(0, records);
    assert LogBytes(crc, 0, records)[0..] == LogBytes(crc, 0, records);
  }

  /** `out` is exactly the records of a log that end within its first `size` bytes. */
  ghost predicate WholeRecords(records: seq<Bytes>, size: nat, out: seq<Bytes>) {
    && out <= records
    && EndOfRecords(0, out) <= size
    && (|out| < |records| ==> EndOfRecords(0, records[..|out| + 1]) > size)
  }

  /** The records one after the other, from separate parts of the file up to `end`. */
  ghost predicate AllSpelled(crc: Crc, checksum: bool, file: Bytes, pieces: seq<seq<Placed>>, out: seq<Bytes>, end: int) {
    |pieces| == |out| &&
    if out == [] then 0 <= end
    else
      var n := |out| - 1;
      && Spells(crc, checksum, file, pieces[n], out[n]) && EndOfPieces(pieces[n]) <= end
      && AllSpelled(crc, checksum, file, pieces[..n], out[..n], StartOfPieces(pieces[n]))
  }

  lemma SpelledFurther(crc: Crc, checksum: bool, file: Bytes, pieces: seq<seq<Placed>>, out: seq<Bytes>, end: int, further: int)
    requires AllSpelled(crc, checksum, file, pieces, out, end) && end <= further
    ensures AllSpelled(crc, checksum, file, pieces, out, further)
  {}

  lemma OneRecordMore(crc: Crc, checksum: bool, file: Bytes, pieces: seq<seq<Placed>>, out: seq<Bytes>, end: int,
                      ps: seq<Placed>, record: Bytes, next: int)
    requires AllSpelled(crc, checksum, file, pieces, out, end)
    requires Spells(crc, checksum, file, ps, record) && end <= StartOfPieces(ps) && EndOfPieces(ps) <= next
    ensures AllSpelled(crc, checksum, file, pieces + [ps], out + [record], next)
  {
    assert (pieces + [ps])[..|out|] == pieces && (out + [record])[..|out|] == out;
    SpelledFurther(crc, checksum, file, pieces, out, end, StartOfPieces(ps));
  }

  /** Reads to the end of the file: whatever the bytes, each record is spelled by intact chunks; on any prefix
      of a written log, the records wholly contained in the prefix, in order, and no corruption reported. */
  method ReadLog(crc: Crc, file: Bytes, checksum: bool, ghost records: seq<Bytes>)
    returns (out: seq<Bytes>, reports: nat, ghost pieces: seq<seq<Placed>>)
    ensures AllSpelled(crc, checksum, file, pieces, out, |file|)
    ensures file <= LogBytes(crc, 0, records) ==> WholeRecords(records, |file|, out) && reports == 0
  {
    var reader := new Reader(crc, file, checksum);
    ghost var w, written := LogBytes(crc, 0, records), file <= LogBytes(crc, 0, records);
    out, pieces := [], [];
    if written {
      LogStarts(crc, file, records);
      assert records[0..] == records;
    }
    var more := true;
    while more
      invariant fresh(reader) && reader.Valid()
      invariant reader.crc == crc && reader.file == file && reader.checksum == checksum
      invariant AllSpelled(crc, checksum, file, pieces, out, if more then reader.Pos() else |file|)
      invariant written ==> reader.reports == 0
      invariant written ==>
        if more then BetweenRecords(crc, w, file, reader.Pos(), records, out) else WholeRecords(records, |file|, out)
      decreases more, |file| - reader.Pos()
    {
      more, out, pieces := ReadNext(reader, w, written, records, out, pieces);
    }
    reports := reader.reports;
  }

  /** One more record of the file. */
  method ReadNext(reader: Reader, ghost w: Bytes, ghost written: bool, ghost records: seq<Bytes>, out: seq<Bytes>,
                  ghost pieces: seq<seq<Placed>>)
    returns (more: bool, out': seq<Bytes>, ghost pieces': seq<seq<Placed>>)
    requires reader.Valid() && AllSpelled(reader.crc, reader.checksum, reader.file, pieces, out, reader.Pos())
    requires written ==> BetweenRecords(reader.crc, w, reader.file, reader.Pos(), records, out)
    modifies reader
    ensures reader.Valid() && (more ==> reader.Pos() > old(reader.Pos())) && (written ==> reader.reports == old(reader.reports))
    ensures AllSpelled(reader.crc, reader.checksum, reader.file, pieces', out', if more then reader.Pos() else |reader.file|)
    ensures written ==>
      if more then BetweenRecords(reader.crc, w, reader.file, reader.Pos(), records, out')
      else WholeRecords(records, |reader.file|, out')
  {
    ghost var pos, rest := reader.Pos(), if written then records[|out|..] else [];
    var record;
    ghost var ps;
    more, record, ps := reader.ReadRecord(w, rest);
    if written {
      RecordRead(reader.crc, w, reader.file, pos, records, out, more, record, reader.Pos());
    }
    out', pieces' := out, pieces;
    if more {
      OneRecordMore(reader.crc, reader.checksum, reader.file, pieces, out, pos, ps, record, reader.Pos());
      out', pieces' := out + [record], pieces + [ps];
    } else {
      SpelledFurther(reader.crc, reader.checksum, reader.file, pieces, out, pos, |reader.file|);
    }
  }

  /** The records in `out` have been read and the rest of the log is ahead. */
  ghost predicate BetweenRecords(crc: Crc, w: Bytes, file: Bytes, pos: nat, records: seq<Bytes>, out: seq<Bytes>) {
    && out <= records
    && pos == EndOfRecords(0, out) <= |file|
    && AheadRecords(crc, w, file, pos, records[|out|..])
  }

  lemma RecordRead(crc: Crc, w: Bytes, file: Bytes, pos: nat, records: seq<Bytes>, out: seq<Bytes>,
                   ok: bool, record: Bytes, next: nat)
    requires BetweenRecords(crc, w, file, pos, records, out)
    requires
      if records[|out|..] != [] && RecordEnd(pos, records[|out|..][0]) <= |file|
      then ok && record == records[|out|..][0] && next == RecordEnd(pos, records[|out|..][0])
           && AheadRecords(crc, w, file, next, records[|out|..][1..])
      else !ok
    ensures ok ==> BetweenRecords(crc, w, file, next, records, out + [record])
    ensures !ok ==> WholeRecords(records, |file|, out)
  {
    if |out| < |records| {
      var r := records[|out|];
      LogBytesAppend(crc, 0, out, [r]);
      OneRecordEnd(pos, r);
      assert records[..|out| + 1] == out + [r];
      assert records[|out|..][1..] == records[|out| + 1..];
    }
  }

  lemma OneRecordEnd(pos: nat, record: Bytes)
    ensures EndOfRecords(pos, [record]) == RecordEnd(pos, record)
  {
    assert EndOfRecords(RecordEnd(pos, record), []) == RecordEnd(pos, record);
  }

  /** Writing in any number of sessions, losing any tail of the file, and reading back. */
  method WriteCrashRead(crc: Crc, sessions: seq<seq<Bytes>>, cut: nat, checksum: bool)
    returns (file: Bytes, out: seq<Bytes>, reports: nat)
    ensures reports == 0
    ensures |file| == EndOfRecords(0, Concat(sessions))
    ensures WholeRecords(Concat(sessions), if cut < |file| then cut else |file|, out)
    ensures cut >= |file| ==> out == Concat(sessions)
  {
    file := WriteSessions(crc, sessions);
    LogBytesLength(crc, 0, Concat(sessions));
    var kept := file[..if cut < |file| then cut else |file|];
    ghost var pieces;
    out, reports, pieces := ReadLog(crc, kept, checksum, Concat(sessions));
    if |out| < |Concat(sessions)| {
      var records := Concat(sessions);
      assert records == records[..|out| + 1] + records[|out| + 1..];
      LogBytesAppend(crc, 0, records[..|out| + 1], records[|out| + 1..]);
      EndsGrow(EndOfRecords(0, records[..|out| + 1]), records[|out| + 1..]);
    }
  }

  lemma {:induction false} EndsGrow(p: nat, records: seq<Bytes>)
    ensures p <= EndOfRecords(p, records)
    decreases records
  {
    if records != [] {
      EndMonotone(p, Fragments(p, records[0], true));
      EndsGrow(RecordEnd(p, records[0]), records[1..]);
    }
  }
}
