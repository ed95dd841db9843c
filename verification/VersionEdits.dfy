/** The records of the manifest (db/version_edit.cc).

    Internal keys are the byte strings the source keeps them as. */
module VersionEdits {
  import opened Verdicts
  import opened Keys
  import opened LogFormat
  import opened Varints

  /** config::kNumLevels. */
  const LEVELS: nat := 7

  type Number = n: nat | n < 0x1_0000_0000_0000_0000

  datatype FileMeta = FileMeta(number: Number, size: Number, smallest: Bytes, largest: Bytes)

  /** One tagged entry of an encoded edit. */
  datatype Record =
    | Comparator(name: Bytes)
    | LogNumber(number: Number)
    | NextFile(number: Number)
    | LastSequence(number: Number)
    | CompactPointer(level: Word, key: Bytes)
    | DeletedFile(level: Word, number: Number)
    | NewFile(level: Word, file: FileMeta)
    | PrevLogNumber(number: Number)

  /** What an edit says. A std::set of pairs is the ascending list of its members. */
  datatype Contents = Contents(
    comparator: Option<Bytes>,
    logNumber: Option<Number>,
    prevLogNumber: Option<Number>,
    nextFile: Option<Number>,
    lastSequence: Option<Number>,
    compactPointers: seq<(Word, Bytes)>,
    deletedFiles: seq<(Word, Number)>,
    newFiles: seq<(Word, FileMeta)>)

  predicate PairLess(a: (Word, Number), b: (Word, Number)) {
    a.0 < b.0 || (a.0 == b.0 && a.1 < b.1)
  }

  ghost predicate Ascending(s: seq<(Word, Number)>) {
    forall i, j :: 0 <= i < j < |s| ==> PairLess(s[i], s[j])
  }

  // ---- the encoding

  /** PutLengthPrefixedSlice: the length is cut to 32 bits. */
  function Slice(b: Bytes): (r: Bytes)
    ensures |r| > |b|
  {
    Varint(|b| % 0x1_0000_0000) + b
  }

  function TagOf(r: Record): (t: Byte)
    ensures 1 <= t <= 9 && t != 8
  {
    match r
    case Comparator(_) => 1
    case LogNumber(_) => 2
    case NextFile(_) => 3
    case LastSequence(_) => 4
    case CompactPointer(_, _) => 5
    case DeletedFile(_, _) => 6
    case NewFile(_, _) => 7
    case PrevLogNumber(_) => 9
  }

  function Body(r: Record): Bytes {
    match r
    case Comparator(name) => Slice(name)
    case LogNumber(number) => Varint(number)
    case NextFile(number) => Varint(number)
    case LastSequence(number) => Varint(number)
    case CompactPointer(level, key) => Varint(level) + Slice(key)
    case DeletedFile(level, number) => Varint(level) + Varint(number)
    case NewFile(level, f) => Varint(level) + Varint(f.number) + Varint(f.size) + Slice(f.smallest) + Slice(f.largest)
    case PrevLogNumber(number) => Varint(number)
  }

  function RecordBytes(r: Record): (b: Bytes)
    ensures |b| >= 1
  {
    Varint(TagOf(r)) + Body(r)
  }

  /** The tags and layouts, on records whose numbers and lengths take one byte. */
  lemma SmallNumbers(level: Word, n: Number)
    requires level < 128 && n < 128
    ensures RecordBytes(LogNumber(n)) == [2, n] && RecordBytes(NextFile(n)) == [3, n]
    ensures RecordBytes(LastSequence(n)) == [4, n] && RecordBytes(PrevLogNumber(n)) == [9, n]
    ensures RecordBytes(DeletedFile(level, n)) == [6, level, n]
  {}

  lemma OneByteSlice(b: Byte)
    ensures Slice([b]) == [1, b]
  {}

  lemma SmallKeys(level: Word, b: Byte)
    requires level < 128
    ensures RecordBytes(Comparator([b])) == [1, 1, b] && RecordBytes(CompactPointer(level, [b])) == [5, level, 1, b]
  {
    OneByteSlice(b);
  }

  lemma SmallFile(level: Word, n: Number, size: Number, x: Byte, y: Byte)
    requires level < 128 && n < 128 && size < 128
    ensures RecordBytes(NewFile(level, FileMeta(n, size, [x], [y]))) == [7, level, n, size, 1, x, 1, y]
  {
    OneByteSlice(x);
    OneByteSlice(y);
    assert Body(NewFile(level, FileMeta(n, size, [x], [y]))) == [level] + [n] + [size] + [1, x] + [1, y];
  }

  function AllBytes(rs: seq<Record>): Bytes {
    if rs == [] then [] else AllBytes(rs[..|rs| - 1]) + RecordBytes(rs[|rs| - 1])
  }

  lemma {:induction false} AllBytesConcat(a: seq<Record>, b: seq<Record>)
    ensures AllBytes(a + b) == AllBytes(a) + AllBytes(b)
  {
    if b == [] {
      assert a + b == a;
    } else {
      assert (a + b)[..|a + b| - 1] == a + b[..|b| - 1];
      AllBytesConcat(a, b[..|b| - 1]);
      Assoc(AllBytes(a), AllBytes(b[..|b| - 1]), RecordBytes(b[|b| - 1]));
    }
  }

  function NumberRecord(tag: Byte, n: Number): (r: Record)
    requires tag == 2 || tag == 3 || tag == 4 || tag == 9
    ensures TagOf(r) == tag && Body(r) == Varint(n)
  {
    if tag == 2 then LogNumber(n) else if tag == 3 then NextFile(n) else if tag == 4 then LastSequence(n)
    else PrevLogNumber(n)
  }

  function OptionalNumber(tag: Byte, n: Option<Number>): seq<Record>
    requires tag == 2 || tag == 3 || tag == 4 || tag == 9
  {
    if n.Some? then [NumberRecord(tag, n.value)] else []
  }

  function OptionalName(name: Option<Bytes>): seq<Record> {
    if name.Some? then [Comparator(name.value)] else []
  }

  function Fields(c: Contents): seq<Record> {
    OptionalName(c.comparator) + OptionalNumber(2, c.logNumber) + OptionalNumber(9, c.prevLogNumber)
    + OptionalNumber(3, c.nextFile) + OptionalNumber(4, c.lastSequence)
  }

  function Pointers(ps: seq<(Word, Bytes)>): (r: seq<Record>)
    ensures |r| == |ps|
  {
    seq(|ps|, i requires 0 <= i < |ps| => CompactPointer(ps[i].0, ps[i].1))
  }

  function Deletions(ds: seq<(Word, Number)>): (r: seq<Record>)
    ensures |r| == |ds|
  {
    seq(|ds|, i requires 0 <= i < |ds| => DeletedFile(ds[i].0, ds[i].1))
  }

  function Additions(fs: seq<(Word, FileMeta)>): (r: seq<Record>)
    ensures |r| == |fs|
  {
    seq(|fs|, i requires 0 <= i < |fs| => NewFile(fs[i].0, fs[i].1))
  }

  /** The order EncodeTo writes in. */
  function Records(c: Contents): seq<Record> {
    Fields(c) + Pointers(c.compactPointers) + Deletions(c.deletedFiles) + Additions(c.newFiles)
  }

  // ---- taking records in

  /** std::set::insert. */
  function Inserted(ds: seq<(Word, Number)>, d: (Word, Number)): seq<(Word, Number)> {
    if ds == [] then [d]
    else if PairLess(ds[|ds| - 1], d) then ds + [d]
    else if ds[|ds| - 1] == d then ds
    else Inserted(ds[..|ds| - 1], d) + [ds[|ds| - 1]]
  }

  lemma {:induction false} InsertedIsSet(ds: seq<(Word, Number)>, d: (Word, Number))
    requires Ascending(ds)
    ensures Ascending(Inserted(ds, d))
    ensures forall x :: x in Inserted(ds, d) <==> x in ds || x == d
  {
    if ds != [] && !PairLess(ds[|ds| - 1], d) && ds[|ds| - 1] != d {
      var init, last := ds[..|ds| - 1], ds[|ds| - 1];
      InsertedIsSet(init, d);
      assert ds == init + [last];
      forall x | x in Inserted(init, d) ensures PairLess(x, last) {
        if x in init {
          var i :| 0 <= i < |init| && init[i] == x;
          assert PairLess(ds[i], ds[|ds| - 1]);
        }
      }
    }
  }

  function Absorb(c: Contents, r: Record): Contents {
    match r
    case Comparator(name) => c.(comparator := Some(name))
    case LogNumber(number) => c.(logNumber := Some(number))
    case NextFile(number) => c.(nextFile := Some(number))
    case LastSequence(number) => c.(lastSequence := Some(number))
    case CompactPointer(level, key) => c.(compactPointers := c.compactPointers + [(level, key)])
    case DeletedFile(level, number) => c.(deletedFiles := Inserted(c.deletedFiles, (level, number)))
    case NewFile(level, file) => c.(newFiles := c.newFiles + [(level, file)])
    case PrevLogNumber(number) => c.(prevLogNumber := Some(number))
  }

  function AbsorbAll(c: Contents, rs: seq<Record>): Contents {
    if rs == [] then c else Absorb(AbsorbAll(c, rs[..|rs| - 1]), rs[|rs| - 1])
  }

  lemma {:induction false} AbsorbConcat(c: Contents, a: seq<Record>, b: seq<Record>)
    ensures AbsorbAll(c, a + b) == AbsorbAll(AbsorbAll(c, a), b)
  {
    if b == [] {
      assert a + b == a;
    } else {
      assert (a + b)[..|a + b| - 1] == a + b[..|b| - 1];
      AbsorbConcat(c, a, b[..|b| - 1]);
    }
  }

  /** Clear leaves the compaction pointers where they are. */
  function Cleared(c: Contents): Contents {
    Contents(None, None, None, None, None, c.compactPointers, [], [])
  }

  lemma {:induction false} AbsorbPointers(c: Contents, ps: seq<(Word, Bytes)>)
    ensures AbsorbAll(c, Pointers(ps)) == c.(compactPointers := c.compactPointers + ps)
  {
    if ps == [] {
      assert c.compactPointers + ps == c.compactPointers;
    } else {
      var init := ps[..|ps| - 1];
      assert Pointers(ps)[..|ps| - 1] == Pointers(init);
      AbsorbPointers(c, init);
      assert c.compactPointers + ps == c.compactPointers + init + [ps[|ps| - 1]];
    }
  }

  lemma {:induction false} AbsorbDeletions(c: Contents, ds: seq<(Word, Number)>)
    requires c.deletedFiles == [] && Ascending(ds)
    ensures AbsorbAll(c, Deletions(ds)) == c.(deletedFiles := ds)
  {
    if ds != [] {
      var init := ds[..|ds| - 1];
      assert Deletions(ds)[..|ds| - 1] == Deletions(init);
      AbsorbDeletions(c, init);
      assert ds == init + [ds[|ds| - 1]];
      assert init != [] ==> PairLess(ds[|ds| - 2], ds[|ds| - 1]);
    }
  }

  lemma {:induction false} AbsorbAdditions(c: Contents, fs: seq<(Word, FileMeta)>)
    ensures AbsorbAll(c, Additions(fs)) == c.(newFiles := c.newFiles + fs)
  {
    if fs == [] {
      assert c.newFiles + fs == c.newFiles;
    } else {
      var init := fs[..|fs| - 1];
      assert Additions(fs)[..|fs| - 1] == Additions(init);
      AbsorbAdditions(c, init);
      assert c.newFiles + fs == c.newFiles + init + [fs[|fs| - 1]];
    }
  }

  /** Taking in the records of an edit gives that edit, behind the compaction pointers already there. */
  lemma RecordsRebuild(c: Contents, e: Contents)
    requires Ascending(e.deletedFiles)
    ensures AbsorbAll(Cleared(c), Records(e)) == e.(compactPointers := c.compactPointers + e.compactPointers)
  {
    var h, p, d, a := Fields(e), Pointers(e.compactPointers), Deletions(e.deletedFiles), Additions(e.newFiles);
    AbsorbConcat(Cleared(c), h + p + d, a);
    AbsorbConcat(Cleared(c), h + p, d);
    AbsorbConcat(Cleared(c), h, p);
    AbsorbHeader(c, e);
    AbsorbPointers(AbsorbAll(Cleared(c), h), e.compactPointers);
    AbsorbDeletions(AbsorbAll(Cleared(c), h + p), e.deletedFiles);
    AbsorbAdditions(AbsorbAll(Cleared(c), h + p + d), e.newFiles);
  }

  lemma AbsorbHeader(c: Contents, e: Contents)
    ensures AbsorbAll(Cleared(c), Fields(e)) ==
            Contents(e.comparator, e.logNumber, e.prevLogNumber, e.nextFile, e.lastSequence, c.compactPointers, [], [])
  {
    var a, b := OptionalName(e.comparator), OptionalNumber(2, e.logNumber);
    var d, f, g := OptionalNumber(9, e.prevLogNumber), OptionalNumber(3, e.nextFile), OptionalNumber(4, e.lastSequence);
    var c0 := Cleared(c);
    var c1 := c0.(comparator := e.comparator);
    var c2 := c1.(logNumber := e.logNumber);
    var c3 := c2.(prevLogNumber := e.prevLogNumber);
    var c4 := c3.(nextFile := e.nextFile);
    AbsorbOptional(c0, a, c1);
    AbsorbMore(c0, a, c1, b, c2);
    AbsorbMore(c0, a + b, c2, d, c3);
    AbsorbMore(c0, a + b + d, c3, f, c4);
    AbsorbMore(c0, a + b + d + f, c4, g, c4.(lastSequence := e.lastSequence));
  }

  lemma AbsorbMore(c: Contents, before: seq<Record>, c': Contents, rs: seq<Record>, c'': Contents)
    requires AbsorbAll(c, before) == c' && |rs| <= 1 && c'' == if rs == [] then c' else Absorb(c', rs[0])
    ensures AbsorbAll(c, before + rs) == c''
  {
    AbsorbConcat(c, before, rs);
    AbsorbOptional(c', rs, c'');
  }

  lemma AbsorbOptional(c: Contents, rs: seq<Record>, c': Contents)
    requires |rs| <= 1 && c' == if rs == [] then c else Absorb(c, rs[0])
    ensures AbsorbAll(c, rs) == c'
  {
    if rs != [] {
      assert rs[..0] == [];
    }
  }

  // ---- what comes back

  /** Levels the store has, and lengths that survive the cut to 32 bits. */
  predicate InRange(r: Record) {
    match r
    case Comparator(name) => |name| < 0x1_0000_0000
    case CompactPointer(level, key) => level < LEVELS && |key| < 0x1_0000_0000
    case DeletedFile(level, _) => level < LEVELS
    case NewFile(level, f) => level < LEVELS && |f.smallest| < 0x1_0000_0000 && |f.largest| < 0x1_0000_0000
    case _ => true
  }

  ghost predicate AllInRange(rs: seq<Record>) {
    forall i :: 0 <= i < |rs| ==> InRange(rs[i])
  }

  ghost predicate EditInRange(e: Contents) {
    AllInRange(Records(e))
  }

  lemma {:induction false} AbsorbedStaysInRange(c: Contents, r: Record)
    requires EditInRange(c) && InRange(r)
    ensures EditInRange(Absorb(c, r))
  {
    PartsInRange(c);
    PartsInRange(Absorb(c, r));
    if r.DeletedFile? {
      InsertedLevels(c.deletedFiles, (r.level, r.number));
    }
  }

  /** An edit is in range when its parts are. */
  lemma PartsInRange(c: Contents)
    ensures EditInRange(c) <==>
              (c.comparator.Some? ==> |c.comparator.value| < 0x1_0000_0000)
              && (forall i :: 0 <= i < |c.compactPointers| ==>
                   c.compactPointers[i].0 < LEVELS && |c.compactPointers[i].1| < 0x1_0000_0000)
              && (forall i :: 0 <= i < |c.deletedFiles| ==> c.deletedFiles[i].0 < LEVELS)
              && forall i :: 0 <= i < |c.newFiles| ==> InRange(NewFile(c.newFiles[i].0, c.newFiles[i].1))
  {
    var h, p, d, a := Fields(c), Pointers(c.compactPointers), Deletions(c.deletedFiles), Additions(c.newFiles);
    InRangeConcat(h + p + d, a);
    InRangeConcat(h + p, d);
    InRangeConcat(h, p);
    assert c.comparator.Some? ==> h[0] == Comparator(c.comparator.value);
    assert forall i :: 0 <= i < |p| ==> p[i] == CompactPointer(c.compactPointers[i].0, c.compactPointers[i].1);
    assert forall i :: 0 <= i < |d| ==> d[i] == DeletedFile(c.deletedFiles[i].0, c.deletedFiles[i].1);
    assert forall i :: 0 <= i < |a| ==> a[i] == NewFile(c.newFiles[i].0, c.newFiles[i].1);
  }

  lemma InRangeConcat(a: seq<Record>, b: seq<Record>)
    ensures AllInRange(a + b) <==> AllInRange(a) && AllInRange(b)
  {
    assert forall i :: 0 <= i < |a| ==> (a + b)[i] == a[i];
    assert forall i :: 0 <= i < |b| ==> (a + b)[|a| + i] == b[i];
  }

  lemma {:induction false} InsertedLevels(ds: seq<(Word, Number)>, d: (Word, Number))
    requires d.0 < LEVELS && forall i :: 0 <= i < |ds| ==> ds[i].0 < LEVELS
    ensures forall i :: 0 <= i < |Inserted(ds, d)| ==> Inserted(ds, d)[i].0 < LEVELS
  {
    if ds != [] && !PairLess(ds[|ds| - 1], d) && ds[|ds| - 1] != d {
      InsertedLevels(ds[..|ds| - 1], d);
    }
  }

  // ---- what bytes say, whoever wrote them

  /** From p to q there is a number of at most so many bytes. */
  ghost function Reads(src: Bytes, p: nat, q: nat, most: nat, values: nat, n: nat): Verdict
    requires values > 0
  {
    if forall k {:trigger Looking(k)} :: Looking(k) ==>
      p <= |src| && NumberEnd(src, p, |src|, most) == Some(q) && n == Groups(src, p, q) % values
    then Holds else Fails
  }

  ghost predicate WordAt(src: Bytes, p: nat, q: nat, w: nat) {
    Reads(src, p, q, 5, 0x1_0000_0000, w) == Holds
  }

  ghost predicate NumberAt(src: Bytes, p: nat, q: nat, n: Number) {
    Reads(src, p, q, 10, 0x1_0000_0000_0000_0000, n) == Holds
  }

  ghost predicate LevelAt(src: Bytes, p: nat, q: nat, level: Word) {
    WordAt(src, p, q, level) && level < LEVELS
  }

  /** A length and as many bytes. */
  ghost predicate SliceAt(src: Bytes, p: nat, q: nat, b: Bytes) {
    exists a: nat :: WordAt(src, p, a, |b|) && a + |b| == q <= |src| && src[a..q] == b
  }

  ghost predicate NumbersAt(src: Bytes, p: nat, q: nat, level: Word, number: Number, size: Number) {
    exists a, b :: LevelAt(src, p, a, level) && NumberAt(src, a, b, number) && NumberAt(src, b, q, size)
  }

  ghost predicate BoundsAt(src: Bytes, p: nat, q: nat, smallest: Bytes, largest: Bytes) {
    exists a :: SliceAt(src, p, a, smallest) && SliceAt(src, a, q, largest)
  }

  /** The bytes from p to q are the fields of the record, in numbers of any spelling. */
  ghost predicate BodyAt(src: Bytes, p: nat, q: nat, r: Record) {
    match r
    case Comparator(name) => SliceAt(src, p, q, name)
    case LogNumber(number) => NumberAt(src, p, q, number)
    case NextFile(number) => NumberAt(src, p, q, number)
    case LastSequence(number) => NumberAt(src, p, q, number)
    case CompactPointer(level, key) => exists a :: LevelAt(src, p, a, level) && SliceAt(src, a, q, key)
    case DeletedFile(level, number) => exists a :: LevelAt(src, p, a, level) && NumberAt(src, a, q, number)
    case NewFile(level, f) =>
      exists a :: NumbersAt(src, p, a, level, f.number, f.size) && BoundsAt(src, a, q, f.smallest, f.largest)
    case PrevLogNumber(number) => NumberAt(src, p, q, number)
  }

  ghost predicate RecordAt(src: Bytes, p: nat, q: nat, r: Record) {
    exists a :: WordAt(src, p, a, TagOf(r)) && BodyAt(src, a, q, r)
  }

  /** From p on the input is these records, one after the other. */
  ghost predicate CutFrom(src: Bytes, p: nat, rs: seq<Record>)
    decreases rs
  {
    if rs == [] then p == |src| else exists q :: RecordAt(src, p, q, rs[0]) && CutFrom(src, q, rs[1..])
  }

  lemma RecordAhead(src: Bytes, p: nat, q: nat, r: Record)
    requires RecordAt(src, p, q, r)
    ensures p < q <= |src| && InRange(r)
  {
    assert Looking(0);
  }

  // ---- reading and writing

  /** PutLengthPrefixedSlice. */
  method PutSlice(dst: Bytes, b: Bytes) returns (r: Bytes)
    ensures r == dst + Slice(b)
  {
    r := PutVarint32(dst, |b| % 0x1_0000_0000);
    r := r + b;
  }

  /** GetLengthPrefixedSlice. */
  method GetSlice(src: Bytes, p: nat) returns (next: Option<nat>, r: Bytes)
    requires p <= |src|
    ensures next.Some? ==> p < next.value <= |src| && SliceAt(src, p, next.value, r)
    ensures forall q: nat, b :: SliceAt(src, p, q, b) ==> next == Some(q) && b == r
  {
    var length;
    next, length := GetVarint32(src, p, |src|);
    assert Looking(0);
    if next.None? || |src| - next.value < length {
      return None, [];
    }
    return Some(next.value + length), src[next.value..next.value + length];
  }

  /** GetLevel. */
  method GetLevel(src: Bytes, p: nat) returns (next: Option<nat>, r: Word)
    requires p <= |src|
    ensures next.Some? ==> p < next.value <= |src| && LevelAt(src, p, next.value, r)
    ensures forall q: nat, level: Word :: LevelAt(src, p, q, level) ==> next == Some(q) && level == r
  {
    var v;
    next, v := GetVarint32(src, p, |src|);
    assert Looking(0);
    if next.None? || v >= LEVELS {
      return None, 0;
    }
    r := v;
  }

  method GetNumber(src: Bytes, p: nat) returns (next: Option<nat>, r: Number)
    requires p <= |src|
    ensures next.Some? ==> p < next.value <= |src| && NumberAt(src, p, next.value, r)
    ensures forall q: nat, n: Number :: NumberAt(src, p, q, n) ==> next == Some(q) && n == r
  {
    var v;
    next, v := GetVarint64(src, p, |src|);
    assert Looking(0);
    r := if next.Some? then v else 0;
  }

  /** One turn of the loop of DecodeFrom: None where it sets an error message. */
  method GetRecord(src: Bytes, p: nat, tag: nat) returns (next: Option<nat>, record: Record)
    requires p <= |src|
    ensures next.Some? ==> p < next.value <= |src| && TagOf(record) == tag && BodyAt(src, p, next.value, record)
    ensures forall q: nat, r :: TagOf(r) == tag && BodyAt(src, p, q, r) ==> next == Some(q) && r == record
  {
    record := LogNumber(0);
    if tag == 1 {
      var name;
      next, name := GetSlice(src, p);
      record := Comparator(name);
    } else if tag == 2 || tag == 3 || tag == 4 || tag == 9 {
      var n;
      next, n := GetNumber(src, p);
      record := NumberRecord(tag, n);
    } else if tag == 5 {
      next, record := GetCompactPointer(src, p);
    } else if tag == 6 {
      next, record := GetDeletedFile(src, p);
    } else if tag == 7 {
      next, record := GetNewFile(src, p);
    } else {
      next := None;
    }
  }

  method GetCompactPointer(src: Bytes, p: nat) returns (next: Option<nat>, record: Record)
    requires p <= |src|
    ensures next.Some? ==> p < next.value <= |src| && record.CompactPointer? && BodyAt(src, p, next.value, record)
    ensures forall q: nat, r: Record :: r.CompactPointer? && BodyAt(src, p, q, r) ==> next == Some(q) && r == record
  {
    record := CompactPointer(0, []);
    var level, key;
    next, level := GetLevel(src, p);
    if next.Some? {
      next, key := GetSlice(src, next.value);
      record := CompactPointer(level, key);
    }
  }

  method GetDeletedFile(src: Bytes, p: nat) returns (next: Option<nat>, record: Record)
    requires p <= |src|
    ensures next.Some? ==> p < next.value <= |src| && record.DeletedFile? && BodyAt(src, p, next.value, record)
    ensures forall q: nat, r: Record :: r.DeletedFile? && BodyAt(src, p, q, r) ==> next == Some(q) && r == record
  {
    record := DeletedFile(0, 0);
    var level, number;
    next, level := GetLevel(src, p);
    if next.Some? {
      next, number := GetNumber(src, next.value);
      record := DeletedFile(level, number);
    }
  }

  method GetNewFile(src: Bytes, p: nat) returns (next: Option<nat>, record: Record)
    requires p <= |src|
    ensures next.Some? ==> p < next.value <= |src| && record.NewFile? && BodyAt(src, p, next.value, record)
    ensures forall q: nat, r: Record :: r.NewFile? && BodyAt(src, p, q, r) ==> next == Some(q) && r == record
  {
    record := NewFile(0, FileMeta(0, 0, [], []));
    var level, number, size, smallest, largest;
    next, level, number, size := GetNumbers(src, p);
    if next.Some? {
      next, smallest, largest := GetBounds(src, next.value);
      record := NewFile(level, FileMeta(number, size, smallest, largest));
    }
  }

  method GetNumbers(src: Bytes, p: nat) returns (next: Option<nat>, level: Word, number: Number, size: Number)
    requires p <= |src|
    ensures next.Some? ==> p < next.value <= |src| && NumbersAt(src, p, next.value, level, number, size)
    ensures forall q: nat, l: Word, n: Number, s: Number :: NumbersAt(src, p, q, l, n, s) ==>
      next == Some(q) && l == level && n == number && s == size
  {
    number, size := 0, 0;
    next, level := GetLevel(src, p);
    if next.Some? {
      next, number := GetNumber(src, next.value);
    }
    if next.Some? {
      next, size := GetNumber(src, next.value);
    }
  }

  method GetBounds(src: Bytes, p: nat) returns (next: Option<nat>, smallest: Bytes, largest: Bytes)
    requires p <= |src|
    ensures next.Some? ==> p < next.value <= |src| && BoundsAt(src, p, next.value, smallest, largest)
    ensures forall q: nat, x, y :: BoundsAt(src, p, q, x, y) ==> next == Some(q) && x == smallest && y == largest
  {
    largest := [];
    next, smallest := GetSlice(src, p);
    if next.Some? {
      next, largest := GetSlice(src, next.value);
    }
  }

  method GetTag(src: Bytes, p: nat) returns (next: Option<nat>, tag: nat)
    requires p <= |src|
    ensures next.Some? ==> p < next.value <= |src| && WordAt(src, p, next.value, tag)
    ensures forall q: nat, w: nat :: WordAt(src, p, q, w) ==> next == Some(q) && w == tag
    ensures p == |src| ==> next.None?
  {
    next, tag := GetVarint32(src, p, |src|);
    assert Looking(0);
  }

  /** The tag and what follows it; not `tagged` where no tag can be read. */
  method GetTagged(src: Bytes, p: nat) returns (tagged: bool, next: Option<nat>, record: Record)
    requires p <= |src|
    ensures tagged && next.Some? ==> p < next.value <= |src| && RecordAt(src, p, next.value, record)
    ensures forall q: nat, r :: RecordAt(src, p, q, r) ==> tagged && next == Some(q) && r == record
    ensures p == |src| ==> !tagged
  {
    record := LogNumber(0);
    var tag;
    next, tag := GetTag(src, p);
    tagged := next.Some?;
    if tagged {
      next, record := GetRecord(src, next.value, tag);
    }
  }

  // ---- what was written is read back

  /** The input goes on with these bytes at p. */
  ghost function GoesOn(src: Bytes, p: nat, b: Bytes): Verdict {
    if forall k {:trigger Looking(k)} :: Looking(k) ==> p + |b| <= |src| && src[p..p + |b|] == b then Holds else Fails
  }

  ghost predicate Ahead(src: Bytes, p: nat, b: Bytes) {
    GoesOn(src, p, b) == Holds
  }

  lemma AheadSplit(src: Bytes, p: nat, a: nat, x: Bytes, y: Bytes)
    requires Ahead(src, p, x + y) && a == p + |x|
    ensures Ahead(src, p, x) && Ahead(src, a, y)
  {
    assert Looking(0);
    var c := src[p..p + |x + y|];
    assert src[p..a] == c[..|x|] == x;
    assert src[a..a + |y|] == c[|x|..] == y;
  }

  lemma WordIsRead(src: Bytes, p: nat, q: nat, w: Word)
    requires Ahead(src, p, Varint(w)) && q == p + |Varint(w)|
    ensures WordAt(src, p, q, w)
  {
    assert Looking(0);
    MostBytes();
    assert src[p..|src|][..|Varint(w)|] == Varint(w);
    VarintIsRead(src, p, |src|, w, 5);
  }

  lemma NumberIsRead(src: Bytes, p: nat, q: nat, n: Number)
    requires Ahead(src, p, Varint(n)) && q == p + |Varint(n)|
    ensures NumberAt(src, p, q, n)
  {
    assert Looking(0);
    MostBytes();
    assert src[p..|src|][..|Varint(n)|] == Varint(n);
    VarintIsRead(src, p, |src|, n, 10);
  }

  lemma SliceIsRead(src: Bytes, p: nat, q: nat, b: Bytes)
    requires |b| < 0x1_0000_0000 && Ahead(src, p, Slice(b)) && q == p + |Slice(b)|
    ensures SliceAt(src, p, q, b)
  {
    var a := p + |Varint(|b|)|;
    AheadSplit(src, p, a, Varint(|b|), b);
    WordIsRead(src, p, a, |b|);
    assert Looking(0);
  }

  lemma NumbersAreRead(src: Bytes, p: nat, a: nat, b: nat, q: nat, level: Word, number: Number, size: Number)
    requires a == p + |Varint(level)| && b == a + |Varint(number)| && q == b + |Varint(size)|
    requires level < LEVELS && Ahead(src, p, Varint(level) + Varint(number) + Varint(size))
    ensures NumbersAt(src, p, q, level, number, size)
  {
    AheadSplit(src, p, b, Varint(level) + Varint(number), Varint(size));
    AheadSplit(src, p, a, Varint(level), Varint(number));
    WordIsRead(src, p, a, level);
    NumberIsRead(src, a, b, number);
    NumberIsRead(src, b, q, size);
  }

  lemma BoundsAreRead(src: Bytes, p: nat, a: nat, q: nat, x: Bytes, y: Bytes)
    requires |x| < 0x1_0000_0000 && |y| < 0x1_0000_0000 && Ahead(src, p, Slice(x) + Slice(y))
    requires a == p + |Slice(x)| && q == a + |Slice(y)|
    ensures BoundsAt(src, p, q, x, y)
  {
    AheadSplit(src, p, a, Slice(x), Slice(y));
    SliceIsRead(src, p, a, x);
    SliceIsRead(src, a, q, y);
  }

  lemma FileIsRead(src: Bytes, p: nat, q: nat, level: Word, f: FileMeta)
    requires InRange(NewFile(level, f)) && Ahead(src, p, Body(NewFile(level, f))) && q == p + |Body(NewFile(level, f))|
    ensures BodyAt(src, p, q, NewFile(level, f))
  {
    var numbers, bounds := Varint(level) + Varint(f.number) + Varint(f.size), Slice(f.smallest) + Slice(f.largest);
    var a := p + |Varint(level)|;
    var b := a + |Varint(f.number)|;
    var c := b + |Varint(f.size)|;
    Assoc(numbers, Slice(f.smallest), Slice(f.largest));
    AheadSplit(src, p, c, numbers, bounds);
    NumbersAreRead(src, p, a, b, c, level, f.number, f.size);
    BoundsAreRead(src, c, c + |Slice(f.smallest)|, q, f.smallest, f.largest);
  }

  lemma PointerIsRead(src: Bytes, p: nat, q: nat, level: Word, key: Bytes)
    requires InRange(CompactPointer(level, key)) && Ahead(src, p, Varint(level) + Slice(key))
    requires q == p + |Varint(level)| + |Slice(key)|
    ensures BodyAt(src, p, q, CompactPointer(level, key))
  {
    var a := p + |Varint(level)|;
    AheadSplit(src, p, a, Varint(level), Slice(key));
    WordIsRead(src, p, a, level);
    SliceIsRead(src, a, q, key);
  }

  lemma DeletionIsRead(src: Bytes, p: nat, q: nat, level: Word, number: Number)
    requires level < LEVELS && Ahead(src, p, Varint(level) + Varint(number))
    requires q == p + |Varint(level)| + |Varint(number)|
    ensures BodyAt(src, p, q, DeletedFile(level, number))
  {
    var a := p + |Varint(level)|;
    AheadSplit(src, p, a, Varint(level), Varint(number));
    WordIsRead(src, p, a, level);
    NumberIsRead(src, a, q, number);
  }

  /** The fields of a record that was written are read back. */
  lemma BodyIsRead(src: Bytes, p: nat, q: nat, r: Record)
    requires InRange(r) && Ahead(src, p, Body(r)) && q == p + |Body(r)|
    ensures BodyAt(src, p, q, r)
  {
    if r.Comparator? {
      SliceIsRead(src, p, q, r.name);
    } else if r.CompactPointer? {
      PointerIsRead(src, p, q, r.level, r.key);
    } else if r.DeletedFile? {
      DeletionIsRead(src, p, q, r.level, r.number);
    } else if r.NewFile? {
      FileIsRead(src, p, q, r.level, r.file);
    } else {
      NumberIsRead(src, p, q, r.number);
    }
  }

  lemma RecordIsRead(src: Bytes, p: nat, q: nat, r: Record)
    requires InRange(r) && Ahead(src, p, RecordBytes(r)) && q == p + |RecordBytes(r)|
    ensures RecordAt(src, p, q, r)
  {
    var a := p + |Varint(TagOf(r))|;
    AheadSplit(src, p, a, Varint(TagOf(r)), Body(r));
    WordIsRead(src, p, a, TagOf(r));
    BodyIsRead(src, a, q, r);
  }

  lemma OneMoreCut(src: Bytes, p: nat, q: nat, r: Record, rs: seq<Record>)
    requires RecordAt(src, p, q, r) && CutFrom(src, q, rs)
    ensures CutFrom(src, p, [r] + rs)
  {
    assert ([r] + rs)[1..] == rs;
  }

  lemma FirstBytes(r: Record, rs: seq<Record>)
    ensures AllBytes([r] + rs) == RecordBytes(r) + AllBytes(rs)
  {
    AllBytesConcat([r], rs);
    OneRecord(r);
  }

  /** Records written one after the other are cut that way. */
  lemma {:induction false} WrittenIsCut(src: Bytes, p: nat, rs: seq<Record>)
    requires Ahead(src, p, AllBytes(rs)) && p + |AllBytes(rs)| == |src| && AllInRange(rs)
    ensures CutFrom(src, p, rs)
    decreases rs
  {
    if rs != [] {
      var r, rest := rs[0], rs[1..];
      var q := p + |RecordBytes(r)|;
      assert rs == [r] + rest && InRange(r);
      FirstBytes(r, rest);
      AheadSplit(src, p, q, RecordBytes(r), AllBytes(rest));
      WrittenIsCut(src, q, rest);
      RecordIsRead(src, p, q, r);
      OneMoreCut(src, p, q, r, rest);
    }
  }

  class VersionEdit {
    var comparator: Option<Bytes>
    var logNumber: Option<Number>
    var prevLogNumber: Option<Number>
    var nextFile: Option<Number>
    var lastSequence: Option<Number>
    var compactPointers: seq<(Word, Bytes)>
    var deletedFiles: seq<(Word, Number)>
    var newFiles: seq<(Word, FileMeta)>

    function View(): Contents
      reads this
    {
      Contents(comparator, logNumber, prevLogNumber, nextFile, lastSequence, compactPointers, deletedFiles, newFiles)
    }

    constructor ()
      ensures View() == Contents(None, None, None, None, None, [], [], [])
    {
      comparator, logNumber, prevLogNumber, nextFile, lastSequence := None, None, None, None, None;
      compactPointers, deletedFiles, newFiles := [], [], [];
    }

    method Clear()
      modifies this
      ensures View() == Cleared(old(View()))
    {
      comparator, logNumber, prevLogNumber, nextFile, lastSequence := None, None, None, None, None;
      deletedFiles, newFiles := [], [];
    }

    method Take(r: Record)
      modifies this
      ensures View() == Absorb(old(View()), r)
    {
      match r
      case Comparator(name) => comparator := Some(name);
      case LogNumber(number) => logNumber := Some(number);
      case NextFile(number) => nextFile := Some(number);
      case LastSequence(number) => lastSequence := Some(number);
      case CompactPointer(level, key) => compactPointers := compactPointers + [(level, key)];
      case DeletedFile(level, number) => deletedFiles := Inserted(deletedFiles, (level, number));
      case NewFile(level, file) => newFiles := newFiles + [(level, file)];
      case PrevLogNumber(number) => prevLogNumber := Some(number);
    }

    /** EncodeTo. */
    method EncodeTo(dst: Bytes) returns (r: Bytes)
      ensures r == dst + AllBytes(Records(View()))
    {
      ghost var f, p, d := Fields(View()), Pointers(compactPointers), Deletions(deletedFiles);
      r := EncodeFields(dst);
      r := EncodePointers(r);
      Joined(dst, f, p);
      r := EncodeDeletions(r);
      Joined(dst, f + p, d);
      r := EncodeAdditions(r);
      Joined(dst, f + p + d, Additions(newFiles));
    }

    method EncodeFields(dst: Bytes) returns (r: Bytes)
      ensures r == dst + AllBytes(Fields(View()))
    {
      ghost var a, b, c := OptionalName(comparator), OptionalNumber(2, logNumber), OptionalNumber(9, prevLogNumber);
      ghost var d := OptionalNumber(3, nextFile);
      r := PutName(dst, comparator);
      r := PutOptional(r, 2, logNumber);
      Joined(dst, a, b);
      r := PutOptional(r, 9, prevLogNumber);
      Joined(dst, a + b, c);
      r := PutOptional(r, 3, nextFile);
      Joined(dst, a + b + c, d);
      r := PutOptional(r, 4, lastSequence);
      Joined(dst, a + b + c + d, OptionalNumber(4, lastSequence));
    }

    method EncodePointers(dst: Bytes) returns (r: Bytes)
      ensures r == dst + AllBytes(Pointers(compactPointers))
    {
      ghost var all := Pointers(compactPointers);
      r := dst;
      for i := 0 to |compactPointers|
        invariant r == dst + AllBytes(all[..i])
      {
        r := PutPointer(r, compactPointers[i].0, compactPointers[i].1);
        OneMore(dst, all, i);
      }
      assert all[..|all|] == all;
    }

    method EncodeDeletions(dst: Bytes) returns (r: Bytes)
      ensures r == dst + AllBytes(Deletions(deletedFiles))
    {
      ghost var all := Deletions(deletedFiles);
      r := dst;
      for i := 0 to |deletedFiles|
        invariant r == dst + AllBytes(all[..i])
      {
        r := PutDeletion(r, deletedFiles[i].0, deletedFiles[i].1);
        OneMore(dst, all, i);
      }
      assert all[..|all|] == all;
    }

    method EncodeAdditions(dst: Bytes) returns (r: Bytes)
      ensures r == dst + AllBytes(Additions(newFiles))
    {
      ghost var all := Additions(newFiles);
      r := dst;
      for i := 0 to |newFiles|
        invariant r == dst + AllBytes(all[..i])
      {
        r := PutAddition(r, newFiles[i].0, newFiles[i].1);
        OneMore(dst, all, i);
      }
      assert all[..|all|] == all;
    }

    /** DecodeFrom: accepts exactly what can be cut into records, and takes them in. Compaction pointers are
        kept from before. */
    method DecodeFrom(src: Bytes) returns (ok: bool)
      modifies this
      ensures ok <==> exists rs :: CutFrom(src, 0, rs)
      ensures forall rs :: CutFrom(src, 0, rs) ==> View() == AbsorbAll(Cleared(old(View())), rs)
      ensures ok && EditInRange(Cleared(old(View()))) ==> EditInRange(View())
    {
      Clear();
      ghost var start, view, rs: seq<Record> := View(), View(), [];
      ghost var bounded := EditInRange(start);
      var p := 0;
      NothingRead(src);
      while true
        invariant p <= |src| && View() == view == AbsorbAll(start, rs) && ReadTo(src, p, rs)
        invariant bounded ==> EditInRange(view)
        decreases |src| - p
      {
        var tagged, next, record := GetTagged(src, p);
        if !tagged || next.None? {
          ok := !tagged && p == |src|;
          ReadAll(src, p, rs);
          assert ok ==> CutFrom(src, 0, rs);
          break;
        }
        ReadOne(src, p, rs, next.value, record);
        if bounded {
          AbsorbedStaysInRange(view, record);
        }
        Take(record);
        assert (rs + [record])[..|rs|] == rs;
        rs, view, p := rs + [record], Absorb(view, record), next.value;
      }
    }
  }

  /** The records read up to p are those that any way to cut the input starts with. */
  ghost predicate ReadTo(src: Bytes, p: nat, taken: seq<Record>) {
    forall rs {:trigger CutFrom(src, 0, rs)} :: CutFrom(src, 0, rs) <==> taken <= rs && CutFrom(src, p, rs[|taken|..])
  }

  lemma NothingRead(src: Bytes)
    ensures ReadTo(src, 0, [])
  {
    forall rs: seq<Record> ensures rs[0..] == rs {}
  }

  /** The record at hand is the next one of every way to cut the input. */
  lemma ReadOne(src: Bytes, p: nat, taken: seq<Record>, q: nat, r: Record)
    requires ReadTo(src, p, taken) && RecordAt(src, p, q, r)
    requires forall q': nat, r' :: RecordAt(src, p, q', r') ==> q' == q && r' == r
    ensures p < q <= |src| && InRange(r) && ReadTo(src, q, taken + [r])
  {
    RecordAhead(src, p, q, r);
    forall rs ensures CutFrom(src, 0, rs) <==> taken + [r] <= rs && CutFrom(src, q, rs[|taken + [r]|..]) {
      if taken <= rs && |taken| < |rs| {
        assert rs[|taken|..][0] == rs[|taken|] && rs[|taken|..][1..] == rs[|taken + [r]|..];
        assert RecordAt(src, p, q, r);
      } else if taken <= rs {
        assert rs[|taken|..] == [];
      }
    }
  }

  /** Where no record follows, the input is cut if and only if it is at its end. */
  lemma ReadAll(src: Bytes, p: nat, taken: seq<Record>)
    requires ReadTo(src, p, taken) && forall q: nat, r :: !RecordAt(src, p, q, r)
    ensures forall rs :: CutFrom(src, 0, rs) <==> rs == taken && p == |src|
  {
    forall rs ensures CutFrom(src, 0, rs) <==> rs == taken && p == |src| {
      assert taken <= rs && |rs| == |taken| ==> rs == taken;
      assert taken[|taken|..] == [];
    }
  }

  lemma OneMore(dst: Bytes, all: seq<Record>, i: nat)
    requires i < |all|
    ensures dst + AllBytes(all[..i + 1]) == dst + AllBytes(all[..i]) + RecordBytes(all[i])
  {
    assert all[..i + 1][..i] == all[..i];
    Assoc(dst, AllBytes(all[..i]), RecordBytes(all[i]));
  }

  lemma Joined(dst: Bytes, a: seq<Record>, b: seq<Record>)
    ensures dst + AllBytes(a) + AllBytes(b) == dst + AllBytes(a + b)
  {
    AllBytesConcat(a, b);
    Assoc(dst, AllBytes(a), AllBytes(b));
  }

  lemma OneRecord(r: Record)
    ensures AllBytes([r]) == RecordBytes(r)
  {
    assert [r][..0] == [];
  }

  method PutName(dst: Bytes, name: Option<Bytes>) returns (r: Bytes)
    ensures r == dst + AllBytes(OptionalName(name))
  {
    r := dst;
    if name.Some? {
      OneRecord(Comparator(name.value));
      r := PutVarint32(r, 1);
      r := PutSlice(r, name.value);
      Assoc(dst, Varint(1), Slice(name.value));
    }
  }

  method PutOptional(dst: Bytes, tag: Byte, n: Option<Number>) returns (r: Bytes)
    requires tag == 2 || tag == 3 || tag == 4 || tag == 9
    ensures r == dst + AllBytes(OptionalNumber(tag, n))
  {
    r := dst;
    if n.Some? {
      OneRecord(NumberRecord(tag, n.value));
      r := PutVarint32(r, tag);
      r := PutVarint64(r, n.value);
      Assoc(dst, Varint(tag), Varint(n.value));
    }
  }

  method PutPointer(dst: Bytes, level: Word, key: Bytes) returns (r: Bytes)
    ensures r == dst + RecordBytes(CompactPointer(level, key))
  {
    r := PutVarint32(dst, 5);
    r := PutVarint32(r, level);
    r := PutSlice(r, key);
    assert r == dst + (Varint(5) + (Varint(level) + Slice(key)));
  }

  method PutDeletion(dst: Bytes, level: Word, number: Number) returns (r: Bytes)
    ensures r == dst + RecordBytes(DeletedFile(level, number))
  {
    r := PutVarint32(dst, 6);
    r := PutVarint32(r, level);
    r := PutVarint64(r, number);
    assert r == dst + (Varint(6) + (Varint(level) + Varint(number)));
  }

  lemma Regroup(h: Bytes, l: Bytes, n: Bytes, s: Bytes, x: Bytes, y: Bytes)
    ensures h + l + n + s + x + y == h + (l + n + s + x + y)
  {
    Assoc(h, l, n);
    Assoc(h, l + n, s);
    Assoc(h, l + n + s, x);
    Assoc(h, l + n + s + x, y);
  }

  method PutAddition(dst: Bytes, level: Word, f: FileMeta) returns (r: Bytes)
    ensures r == dst + RecordBytes(NewFile(level, f))
  {
    var head := PutVarint32(dst, 7);
    r := PutVarint32(head, level);
    r := PutVarint64(r, f.number);
    r := PutVarint64(r, f.size);
    r := PutSlice(r, f.smallest);
    r := PutSlice(r, f.largest);
    Regroup(head, Varint(level), Varint(f.number), Varint(f.size), Slice(f.smallest), Slice(f.largest));
    Assoc(dst, Varint(7), Body(NewFile(level, f)));
  }

  /** DecodeFrom takes in any records in range that were written one after the other. */
  method DecodeWritten(v: VersionEdit, src: Bytes, ghost rs: seq<Record>) returns (ok: bool)
    modifies v
    ensures src == AllBytes(rs) && AllInRange(rs) ==> ok && v.View() == AbsorbAll(Cleared(old(v.View())), rs)
    ensures ok && EditInRange(Cleared(old(v.View()))) ==> EditInRange(v.View())
  {
    if src == AllBytes(rs) && AllInRange(rs) {
      assert src[0..|src|] == src;
      WrittenIsCut(src, 0, rs);
    }
    ok := v.DecodeFrom(src);
    if src == AllBytes(rs) && AllInRange(rs) {
      assert exists x :: CutFrom(src, 0, x);
    }
  }

  /** DecodeFrom of what EncodeTo wrote restores an edit exactly when the levels exist and the lengths fit
      32 bits, and the edit decoded into held no compaction pointers, which Clear does not remove. */
  method RoundTrip(e: VersionEdit, target: VersionEdit) returns (bytes: Bytes, ok: bool)
    requires e != target && Ascending(e.deletedFiles) && EditInRange(Cleared(target.View()))
    modifies target
    ensures bytes == AllBytes(Records(e.View()))
    ensures ok && target.View() == e.View() <==> EditInRange(e.View()) && old(target.compactPointers) == []
    ensures EditInRange(e.View()) ==>
              ok && target.View() == e.View().(compactPointers := old(target.compactPointers) + e.compactPointers)
  {
    ghost var pointers := target.compactPointers;
    bytes := e.EncodeTo([]);
    RecordsRebuild(target.View(), e.View());
    ok := DecodeWritten(target, bytes, Records(e.View()));
    assert pointers != [] ==> |pointers + e.compactPointers| > |e.compactPointers|;
    assert pointers == [] ==> pointers + e.compactPointers == e.compactPointers;
  }
}
