/** The write-ahead log format (db/log_format.h, db/log_writer.cc): records cut into physical
    chunks that never cross a 32768-byte block. */
module LogFormat {
  import opened Keys

  const BLOCK_SIZE: nat := 32768
  const HEADER_SIZE: nat := 7

  type Word = w: nat | w < 0x1_0000_0000

  /** The checksum function; any function of the bytes will do. */
  type Crc = Bytes -> Word

  /** kFullType, kFirstType, kMiddleType and kLastType. */
  const FULL: Byte := 1
  const FIRST: Byte := 2
  const MIDDLE: Byte := 3
  const LAST: Byte := 4

  datatype Chunk = Chunk(kind: Byte, data: Bytes)

  // ----- Fixed-width and masked numbers -----

  function Fixed32(w: Word): (r: Bytes)
    ensures |r| == 4
  {
    [w % 256, w / 256 % 256, w / 65536 % 256, w / 16777216]
  }

  function DecodeFixed32(b: Bytes): Word
    requires |b| >= 4
  {
    (b[0] as int) + 256 * (b[1] as int) + 65536 * (b[2] as int) + 16777216 * (b[3] as int)
  }

  lemma Fixed32RoundTrip(w: Word)
    ensures DecodeFixed32(Fixed32(w)) == w
  {
    assert w == w % 256 + 256 * (w / 256);
    assert w / 256 == w / 256 % 256 + 256 * (w / 256 / 256);
    assert w / 256 / 256 == w / 65536;
    assert w / 65536 == w / 65536 % 256 + 256 * (w / 65536 / 256);
    assert w / 65536 / 256 == w / 16777216;
  }

  /** Least significant byte first. */
  lemma KnownWord()
    ensures Fixed32(0x0403_0201) == [1, 2, 3, 4]
  {}

  const MASK_DELTA: nat := 0xa282ead8

  /** crc32c::Mask: rotate right by 15 bits and add a constant, modulo 2^32. */
  function Mask(crc: Word): Word {
    (crc / 0x8000 + crc % 0x8000 * 0x2_0000 + MASK_DELTA) % 0x1_0000_0000
  }

  function Unmask(masked: Word): Word {
    var rot := (masked + 0x1_0000_0000 - MASK_DELTA) % 0x1_0000_0000;
    rot / 0x2_0000 + rot % 0x2_0000 * 0x8000
  }

  lemma UnmaskInvertsMask(crc: Word)
    ensures Unmask(Mask(crc)) == crc
  {
    var hi, lo := crc / 0x8000, crc % 0x8000;
    var rot := hi + lo * 0x2_0000;
    assert hi < 0x2_0000 && rot < 0x1_0000_0000;
    assert (Mask(crc) + 0x1_0000_0000 - MASK_DELTA) % 0x1_0000_0000 == rot;
    assert rot / 0x2_0000 == lo && rot % 0x2_0000 == hi;
  }

  lemma KnownMasks()
    ensures Mask(0) == 0xa282_ead8 && Mask(0x8000) == 0xa282_ead9 && Mask(1) == 0xa284_ead8
  {}

  /** EmitPhysicalRecord's header: checksum of type and payload, length, type. */
  function Header(crc: Crc, c: Chunk): (r: Bytes)
    requires |c.data| <= 0xffff
    ensures |r| == HEADER_SIZE
  {
    Fixed32(Mask(crc([c.kind] + c.data))) + [|c.data| % 256, |c.data| / 256, c.kind]
  }

  // ----- Where chunks go -----

  /** Bytes too few for a header at the end of a block are filled with zeros. */
  function Pad(p: nat): (r: nat)
    ensures r < HEADER_SIZE
    ensures (p + r) % BLOCK_SIZE + HEADER_SIZE <= BLOCK_SIZE
  {
    var leftover := BLOCK_SIZE - p % BLOCK_SIZE;
    if leftover < HEADER_SIZE then
      EndOfBlock(p);
      leftover
    else 0
  }

  lemma EndOfBlock(p: nat)
    ensures (p + (BLOCK_SIZE - p % BLOCK_SIZE)) % BLOCK_SIZE == 0
  {}

  function ChunkStart(p: nat): nat { p + Pad(p) }

  /** Payload bytes that still fit into the block after the header. */
  function Avail(p: nat): (r: nat)
    ensures r <= 0xffff
  {
    BLOCK_SIZE - ChunkStart(p) % BLOCK_SIZE - HEADER_SIZE
  }

  function ChunkEnd(p: nat, c: Chunk): nat { ChunkStart(p) + HEADER_SIZE + |c.data| }

  function Zeros(n: nat): (r: Bytes)
    ensures |r| == n
  {
    seq(n, i => 0)
  }

  ghost predicate AllFit(p: nat, cs: seq<Chunk>)
    decreases cs
  {
    cs != [] ==> |cs[0].data| <= Avail(p) && AllFit(ChunkEnd(p, cs[0]), cs[1..])
  }

  /** One chunk written at p: filler, header, payload. */
  function ChunkBytes(crc: Crc, p: nat, c: Chunk): (r: Bytes)
    requires |c.data| <= Avail(p)
    ensures p + |r| == ChunkEnd(p, c)
  {
    Zeros(Pad(p)) + Header(crc, c) + c.data
  }

  lemma Assoc(a: Bytes, b: Bytes, c: Bytes)
    ensures (a + b) + c == a + (b + c)
  {}

  lemma SliceOfSlice(s: Bytes, d: nat, e: nat, i: nat, j: nat)
    requires d <= e <= |s| && i <= j <= e - d
    ensures s[d..e][i..j] == s[d + i..d + j]
  {
    assert |s[d..e][i..j]| == |s[d + i..d + j]|;
    forall k | 0 <= k < j - i ensures s[d..e][i..j][k] == s[d + i..d + j][k] {
      assert s[d..e][i + k] == s[d + i + k];
    }
  }

  /** The bytes of a list of chunks written from file position p on. */
  function Lay(crc: Crc, p: nat, cs: seq<Chunk>): Bytes
    requires AllFit(p, cs)
    decreases cs
  {
    if cs == [] then []
    else ChunkBytes(crc, p, cs[0]) + Lay(crc, ChunkEnd(p, cs[0]), cs[1..])
  }

  lemma LayCons(crc: Crc, p: nat, c: Chunk, rest: seq<Chunk>)
    requires AllFit(p, [c] + rest)
    ensures |c.data| <= Avail(p) && AllFit(ChunkEnd(p, c), rest)
    ensures Lay(crc, p, [c] + rest) == ChunkBytes(crc, p, c) + Lay(crc, ChunkEnd(p, c), rest)
  {
    assert ([c] + rest)[1..] == rest;
  }

  function EndOf(p: nat, cs: seq<Chunk>): nat
    decreases cs
  {
    if cs == [] then p else EndOf(ChunkEnd(p, cs[0]), cs[1..])
  }

  function KindOf(begin: bool, end: bool): Byte {
    if begin && end then FULL else if begin then FIRST else if end then LAST else MIDDLE
  }

  /** AddRecord's loop: the chunks of one record written at p. A record may start with an empty
      chunk when just a header fits into the block. */
  function Fragments(p: nat, data: Bytes, begin: bool): (cs: seq<Chunk>)
    ensures cs != []
    decreases |data|, Avail(p) == 0
  {
    var n := if |data| < Avail(p) then |data| else Avail(p);
    var c := Chunk(KindOf(begin, n == |data|), data[..n]);
    if n == |data| then [c]
    else
      NextBlockHasRoom(p, n);
      [c] + Fragments(ChunkEnd(p, c), data[n..], false)
  }

  lemma OneFragment(p: nat, data: Bytes, begin: bool)
    requires |data| <= Avail(p)
    ensures Fragments(p, data, begin) == [Chunk(if begin then FULL else LAST, data)]
    ensures EndOf(p, Fragments(p, data, begin)) == ChunkStart(p) + HEADER_SIZE + |data|
  {
    assert data[..|data|] == data;
    assert EndOf(p, Fragments(p, data, begin)) == ChunkEnd(p, Fragments(p, data, begin)[0]);
  }

  lemma FirstFragment(p: nat, data: Bytes, begin: bool)
    requires Avail(p) < |data|
    ensures var c := Chunk(if begin then FIRST else MIDDLE, data[..Avail(p)]);
      && Fragments(p, data, begin) == [c] + Fragments(ChunkEnd(p, c), data[Avail(p)..], false)
      && EndOf(p, Fragments(p, data, begin)) == EndOf(ChunkEnd(p, c), Fragments(ChunkEnd(p, c), data[Avail(p)..], false))
  {
    NextBlockHasRoom(p, Avail(p));
  }

  /** A record of 97270 bytes behind one of 1000 takes three chunks, one of them a whole block, and leaves six
      bytes of the third block. */
  lemma LongRecord(b: Bytes)
    requires |b| == 97270
    ensures Fragments(1007, b, true) == [Chunk(FIRST, b[..31754]), Chunk(MIDDLE, b[31754..64515]), Chunk(LAST, b[64515..])]
    ensures RecordEnd(1007, b) == 3 * BLOCK_SIZE - 6
  {
    FirstFragment(1007, b, true);
    var rest := b[31754..];
    FirstFragment(BLOCK_SIZE, rest, false);
    assert rest[..32761] == b[31754..64515] && rest[32761..] == b[64515..];
    OneFragment(2 * BLOCK_SIZE, b[64515..], false);
  }

  lemma OneMoreRecord(p: nat, data: Bytes, rest: seq<Bytes>)
    ensures AllFragments(p, [data] + rest) == Fragments(p, data, true) + AllFragments(RecordEnd(p, data), rest)
  {
    assert ([data] + rest)[1..] == rest;
  }

  /** Three records of 1000, 97270 and 8000 bytes: the third does not fit a header into the six bytes left, and
      starts the fourth block. */
  lemma ThreeRecords(a: Bytes, b: Bytes, c: Bytes)
    requires |a| == 1000 && |b| == 97270 && |c| == 8000
    ensures AllFragments(0, [a, b, c]) == [Chunk(FULL, a),
      Chunk(FIRST, b[..31754]), Chunk(MIDDLE, b[31754..64515]), Chunk(LAST, b[64515..]), Chunk(FULL, c)]
    ensures ChunkStart(RecordEnd(1007, b)) == 3 * BLOCK_SIZE
  {
    OneFragment(0, a, true);
    LongRecord(b);
    OneFragment(3 * BLOCK_SIZE - 6, c, true);
    assert [a, b, c] == [a] + [b, c] && [b, c] == [b] + [c] && [c] == [c] + [];
    OneMoreRecord(0, a, [b, c]);
    OneMoreRecord(1007, b, [c]);
    OneMoreRecord(3 * BLOCK_SIZE - 6, c, []);
  }

  /** After a chunk that fills its block the next chunk has a whole block. */
  lemma NextBlockHasRoom(p: nat, n: nat)
    requires n == Avail(p)
    ensures Avail(ChunkStart(p) + HEADER_SIZE + n) > 0
  {
    var s := ChunkStart(p);
    FillsBlock(s);
  }

  lemma FillsBlock(s: nat)
    ensures (s + (BLOCK_SIZE - s % BLOCK_SIZE)) % BLOCK_SIZE == 0
  {}

  function RecordEnd(p: nat, data: Bytes): nat { EndOf(p, Fragments(p, data, true)) }

  /** All chunks of a list of records. */
  function AllFragments(p: nat, records: seq<Bytes>): seq<Chunk>
    decreases records
  {
    if records == [] then []
    else Fragments(p, records[0], true) + AllFragments(RecordEnd(p, records[0]), records[1..])
  }

  lemma FragmentsFit(p: nat, data: Bytes, begin: bool)
    ensures AllFit(p, Fragments(p, data, begin))
    decreases |data|, Avail(p) == 0
  {
    var n := if |data| < Avail(p) then |data| else Avail(p);
    if n != |data| {
      var c := Chunk(KindOf(begin, false), data[..n]);
      NextBlockHasRoom(p, n);
      FragmentsFit(ChunkEnd(p, c), data[n..], false);
      assert Fragments(p, data, begin) == [c] + Fragments(ChunkEnd(p, c), data[n..], false);
    }
  }

  lemma {:induction false} FitConcat(p: nat, a: seq<Chunk>, b: seq<Chunk>)
    requires AllFit(p, a) && AllFit(EndOf(p, a), b)
    ensures AllFit(p, a + b) && EndOf(p, a + b) == EndOf(EndOf(p, a), b)
    decreases a
  {
    if a == [] {
      assert a + b == b;
    } else {
      FitConcat(ChunkEnd(p, a[0]), a[1..], b);
      assert (a + b)[1..] == a[1..] + b;
    }
  }

  lemma {:induction false} LayConcat(crc: Crc, p: nat, a: seq<Chunk>, b: seq<Chunk>)
    requires AllFit(p, a) && AllFit(EndOf(p, a), b)
    ensures AllFit(p, a + b) && Lay(crc, p, a + b) == Lay(crc, p, a) + Lay(crc, EndOf(p, a), b)
    decreases a
  {
    FitConcat(p, a, b);
    if a == [] {
      assert a + b == b;
    } else {
      var q := ChunkEnd(p, a[0]);
      FitConcat(q, a[1..], b);
      LayConcat(crc, q, a[1..], b);
      assert (a + b)[1..] == a[1..] + b;
      Assoc(ChunkBytes(crc, p, a[0]), Lay(crc, q, a[1..]), Lay(crc, EndOf(q, a[1..]), b));
    }
  }

  lemma LayLength(crc: Crc, p: nat, cs: seq<Chunk>)
    requires AllFit(p, cs)
    ensures p + |Lay(crc, p, cs)| == EndOf(p, cs)
    decreases cs
  {
    if cs != [] {
      LayLength(crc, ChunkEnd(p, cs[0]), cs[1..]);
    }
  }

  lemma AllFragmentsFit(p: nat, records: seq<Bytes>)
    ensures AllFit(p, AllFragments(p, records))
    decreases records
  {
    if records != [] {
      var e := RecordEnd(p, records[0]);
      FragmentsFit(p, records[0], true);
      AllFragmentsFit(e, records[1..]);
      FitConcat(p, Fragments(p, records[0], true), AllFragments(e, records[1..]));
    }
  }

  /** The bytes of a log holding the records, from position p on. */
  function LogBytes(crc: Crc, p: nat, records: seq<Bytes>): Bytes {
    AllFragmentsFit(p, records);
    Lay(crc, p, AllFragments(p, records))
  }

  function EndOfRecords(p: nat, records: seq<Bytes>): nat
    decreases records
  {
    if records == [] then p else EndOfRecords(RecordEnd(p, records[0]), records[1..])
  }

  lemma LogBytesStep(crc: Crc, p: nat, records: seq<Bytes>)
    requires records != []
    ensures AllFit(p, Fragments(p, records[0], true))
    ensures LogBytes(crc, p, records) ==
      Lay(crc, p, Fragments(p, records[0], true)) + LogBytes(crc, RecordEnd(p, records[0]), records[1..])
  {
    var e, f := RecordEnd(p, records[0]), Fragments(p, records[0], true);
    FragmentsFit(p, records[0], true);
    AllFragmentsFit(e, records[1..]);
    LayConcat(crc, p, f, AllFragments(e, records[1..]));
  }

  lemma LogBytesAppend(crc: Crc, p: nat, a: seq<Bytes>, b: seq<Bytes>)
    ensures LogBytes(crc, p, a + b) == LogBytes(crc, p, a) + LogBytes(crc, EndOfRecords(p, a), b)
    ensures EndOfRecords(p, a + b) == EndOfRecords(EndOfRecords(p, a), b)
    decreases a
  {
    if a == [] {
      assert a + b == b;
    } else {
      var e := RecordEnd(p, a[0]);
      assert (a + b)[1..] == a[1..] + b && (a + b)[0] == a[0];
      LogBytesAppend(crc, e, a[1..], b);
      LogBytesStep(crc, p, a + b);
      LogBytesStep(crc, p, a);
      Assoc(Lay(crc, p, Fragments(p, a[0], true)), LogBytes(crc, e, a[1..]), LogBytes(crc, EndOfRecords(e, a[1..]), b));
    }
  }

  lemma LogBytesLength(crc: Crc, p: nat, records: seq<Bytes>)
    ensures p + |LogBytes(crc, p, records)| == EndOfRecords(p, records)
    decreases records
  {
    if records != [] {
      LogBytesLength(crc, RecordEnd(p, records[0]), records[1..]);
      LogBytesStep(crc, p, records);
      LayLength(crc, p, Fragments(p, records[0], true));
    }
  }
}
