/** Recovering the files of a version from the manifest (db/version_set.cc WriteSnapshot, LogAndApply and
    Recover): edits are encoded, logged, read back after a crash, decoded and replayed. */
module ManifestRecovery {
  import opened Keys
  import opened LsmState
  import opened FileLists
  import opened LogFormat
  import opened LogFiles
  import opened LogReading
  import opened VersionBuilder
  import opened VersionEdits

  /** How internal keys are written down; any way of doing that will do. */
  type KeyEncoder = InternalKey -> Bytes

  const NUMBERS: nat := 0x1_0000_0000_0000_0000

  /** A whole edit: its files, and the fields that are set. */
  datatype Logged = Logged(files: Edit, comparator: Option<Bytes>, logNumber: Option<Number>, prevLogNumber: Option<Number>,
                           nextFile: Option<Number>, lastSequence: Option<Number>, pointers: seq<(Word, Bytes)>)

  /** Levels, numbers, names and keys fit the format. */
  ghost predicate Recordable(enc: KeyEncoder, e: Logged) {
    && (forall d :: d in e.files.deleted ==> d.0 < LEVELS && d.1 < NUMBERS)
    && (forall i :: 0 <= i < |e.files.added| ==> e.files.added[i].0 < LEVELS && FitsMeta(enc, e.files.added[i].1))
    && (e.comparator.Some? ==> |e.comparator.value| < 0x1_0000_0000)
    && (forall i :: 0 <= i < |e.pointers| ==> e.pointers[i].0 < LEVELS && |e.pointers[i].1| < 0x1_0000_0000)
  }

  predicate FitsMeta(enc: KeyEncoder, f: File) {
    f.number < NUMBERS && f.size < NUMBERS && |enc(f.Smallest())| < 0x1_0000_0000 && |enc(f.Largest())| < 0x1_0000_0000
  }

  function MetaOf(enc: KeyEncoder, f: File): FileMeta
    requires FitsMeta(enc, f)
  {
    FileMeta(f.number, f.size, enc(f.Smallest()), enc(f.Largest()))
  }

  function Pairs(ds: seq<(Word, Number)>): set<(nat, nat)> {
    set d | d in ds :: (d.0 as nat, d.1 as nat)
  }

  /** An edit object that says what the entry says. */
  ghost predicate Says(c: Contents, enc: KeyEncoder, e: Logged) {
    && SaysFiles(c, enc, e.files) && EditInRange(c)
    && c.comparator == e.comparator && c.logNumber == e.logNumber && c.prevLogNumber == e.prevLogNumber
    && c.nextFile == e.nextFile && c.lastSequence == e.lastSequence && c.compactPointers == e.pointers
  }

  ghost predicate SaysFiles(c: Contents, enc: KeyEncoder, e: Edit) {
    && Ascending(c.deletedFiles) && Pairs(c.deletedFiles) == e.deleted
    && |c.newFiles| == |e.added|
    && forall i :: 0 <= i < |e.added| ==>
         FitsMeta(enc, e.added[i].1) && e.added[i].0 < LEVELS && c.newFiles[i] == (e.added[i].0, MetaOf(enc, e.added[i].1))
  }

  /** Edits as they are built with the setters, DeleteFile and AddFile. */
  method Describe(enc: KeyEncoder, e: Logged) returns (v: VersionEdit)
    requires Recordable(enc, e)
    ensures fresh(v) && Says(v.View(), enc, e)
  {
    v := new VersionEdit();
    DeleteFiles(v, e.files.deleted);
    AddFiles(enc, v, e.files);
    v.comparator, v.logNumber, v.prevLogNumber := e.comparator, e.logNumber, e.prevLogNumber;
    v.nextFile, v.lastSequence, v.compactPointers := e.nextFile, e.lastSequence, e.pointers;
    DescribedInRange(v.View(), enc, e);
  }

  method DeleteFiles(v: VersionEdit, deleted: set<(nat, nat)>)
    requires v.deletedFiles == [] && forall d :: d in deleted ==> d.0 < LEVELS && d.1 < NUMBERS
    modifies v
    ensures Ascending(v.deletedFiles) && Pairs(v.deletedFiles) == deleted
    ensures v.newFiles == old(v.newFiles) && v.compactPointers == old(v.compactPointers)
  {
    var rest := deleted;
    while rest != {}
      invariant rest <= deleted && Ascending(v.deletedFiles) && Pairs(v.deletedFiles) == deleted - rest
      invariant v.newFiles == old(v.newFiles) && v.compactPointers == old(v.compactPointers)
      decreases rest
    {
      var d :| d in rest;
      InsertedIsSet(v.deletedFiles, (d.0, d.1));
      InsertedPairs(v.deletedFiles, (d.0, d.1));
      v.Take(DeletedFile(d.0, d.1));
      rest := rest - {d};
    }
  }

  method AddFiles(enc: KeyEncoder, v: VersionEdit, e: Edit)
    requires v.newFiles == [] && Ascending(v.deletedFiles) && Pairs(v.deletedFiles) == e.deleted
    requires forall i :: 0 <= i < |e.added| ==> e.added[i].0 < LEVELS && FitsMeta(enc, e.added[i].1)
    modifies v
    ensures SaysFiles(v.View(), enc, e) && v.compactPointers == old(v.compactPointers)
  {
    for i := 0 to |e.added|
      invariant v.deletedFiles == old(v.deletedFiles) && v.compactPointers == old(v.compactPointers) && |v.newFiles| == i
      invariant forall k :: 0 <= k < i ==> v.newFiles[k] == (e.added[k].0, MetaOf(enc, e.added[k].1))
    {
      v.Take(NewFile(e.added[i].0, MetaOf(enc, e.added[i].1)));
    }
  }

  lemma InsertedPairs(ds: seq<(Word, Number)>, d: (Word, Number))
    requires Ascending(ds)
    ensures Pairs(Inserted(ds, d)) == Pairs(ds) + {(d.0 as nat, d.1 as nat)}
  {
    InsertedIsSet(ds, d);
  }

  lemma DescribedInRange(c: Contents, enc: KeyEncoder, e: Logged)
    requires SaysFiles(c, enc, e.files) && Recordable(enc, e) && c.compactPointers == e.pointers && c.comparator == e.comparator
    ensures EditInRange(c)
  {
    PartsInRange(c);
    forall i | 0 <= i < |c.deletedFiles| ensures c.deletedFiles[i].0 < LEVELS {
      var d := c.deletedFiles[i];
      assert d in c.deletedFiles;
      assert (d.0 as nat, d.1 as nat) in Pairs(c.deletedFiles);
    }
  }

  /** The table files, found by what a record says of them. */
  ghost predicate Opens(open: FileMeta -> File, enc: KeyEncoder, e: Edit) {
    forall i :: 0 <= i < |e.added| ==> FitsMeta(enc, e.added[i].1) && open(MetaOf(enc, e.added[i].1)) == e.added[i].1
  }

  /** The additions of a decoded edit, with their table files. */
  function OpenedFiles(c: Contents, open: FileMeta -> File): (r: seq<(nat, File)>)
    ensures |r| == |c.newFiles|
    ensures forall i :: 0 <= i < |r| ==> r[i] == (c.newFiles[i].0 as nat, open(c.newFiles[i].1))
  {
    seq(|c.newFiles|, i requires 0 <= i < |c.newFiles| => (c.newFiles[i].0 as nat, open(c.newFiles[i].1)))
  }

  /** What Recover takes from a decoded edit. */
  function EntryOf(c: Contents, open: FileMeta -> File): Logged {
    Logged(Edit(Pairs(c.deletedFiles), OpenedFiles(c, open)), c.comparator, c.logNumber, c.prevLogNumber,
           c.nextFile, c.lastSequence, c.compactPointers)
  }

  ghost predicate Encodes(bytes: Bytes, enc: KeyEncoder, e: Logged) {
    exists c :: Says(c, enc, e) && bytes == AllBytes(Records(c))
  }

  /** The record LogAndApply and WriteSnapshot write for an edit. */
  method EncodeEntry(enc: KeyEncoder, e: Logged) returns (bytes: Bytes)
    requires Recordable(enc, e)
    ensures Encodes(bytes, enc, e)
  {
    var v := Describe(enc, e);
    bytes := v.EncodeTo([]);
  }

  /** The records an encoded edit consists of. */
  ghost predicate EncodedBy(bytes: Bytes, rs: seq<Record>, enc: KeyEncoder, e: Logged) {
    bytes == AllBytes(rs) && exists c :: Says(c, enc, e) && rs == Records(c)
  }

  /** What Recover reads back from a record. */
  method DecodeEntry(bytes: Bytes, open: FileMeta -> File, ghost enc: KeyEncoder, ghost e: Logged) returns (ok: bool, r: Logged)
    ensures ok ==> forall a :: a in r.files.added ==> a.0 < LEVELS
    ensures Encodes(bytes, enc, e) && Opens(open, enc, e.files) ==> ok && r == e
  {
    ghost var rs, written := [], Encodes(bytes, enc, e) && Opens(open, enc, e.files);
    if written {
      rs := RecordsOf(bytes, enc, e);
    }
    var v := new VersionEdit();
    ghost var start := v.View();
    NothingInRange(start);
    ok := DecodeWritten(v, bytes, rs);
    r := EntryOf(v.View(), open);
    if ok {
      OpenedLevels(v.View(), open);
    }
    if written {
      TakesInEntry(start, v.View(), rs, bytes, enc, e, open);
    }
  }

  lemma RecordsOf(bytes: Bytes, enc: KeyEncoder, e: Logged) returns (rs: seq<Record>)
    requires Encodes(bytes, enc, e)
    ensures EncodedBy(bytes, rs, enc, e) && AllInRange(rs)
  {
    var c :| Says(c, enc, e) && bytes == AllBytes(Records(c));
    rs := Records(c);
  }

  lemma NothingInRange(c: Contents)
    requires c == Contents(None, None, None, None, None, [], [], [])
    ensures EditInRange(Cleared(c))
  {
    PartsInRange(c);
  }

  lemma OpenedLevels(c: Contents, open: FileMeta -> File)
    requires EditInRange(c)
    ensures forall a :: a in OpenedFiles(c, open) ==> a.0 < LEVELS
  {
    PartsInRange(c);
  }

  lemma TakesInEntry(start: Contents, v: Contents, rs: seq<Record>, bytes: Bytes, enc: KeyEncoder, e: Logged, open: FileMeta -> File)
    requires start.compactPointers == [] && EncodedBy(bytes, rs, enc, e) && Opens(open, enc, e.files)
    requires v == VersionEdits.AbsorbAll(Cleared(start), rs)
    ensures EntryOf(v, open) == e
  {
    var c :| Says(c, enc, e) && rs == Records(c);
    RecordsRebuild(start, c);
    assert start.compactPointers + c.compactPointers == c.compactPointers;
    SaysEntry(c, enc, e, open);
  }

  lemma SaysEntry(c: Contents, enc: KeyEncoder, e: Logged, open: FileMeta -> File)
    requires Says(c, enc, e) && Opens(open, enc, e.files)
    ensures EntryOf(c, open) == e
  {
    assert OpenedFiles(c, open) == e.files.added;
  }

  // ----- Replaying -----

  function FilesOf(es: seq<Logged>): (r: seq<Edit>)
    ensures |r| == |es| && forall i :: 0 <= i < |es| ==> r[i] == es[i].files
  {
    seq(|es|, i requires 0 <= i < |es| => es[i].files)
  }

  /** The last value that was set. */
  function Latest(xs: seq<Option<Number>>): Option<Number> {
    if xs == [] then None else if xs[|xs| - 1].Some? then xs[|xs| - 1] else Latest(xs[..|xs| - 1])
  }

  function LogNumbers(es: seq<Logged>): seq<Option<Number>> { seq(|es|, i requires 0 <= i < |es| => es[i].logNumber) }

  function PrevLogNumbers(es: seq<Logged>): seq<Option<Number>> { seq(|es|, i requires 0 <= i < |es| => es[i].prevLogNumber) }

  function NextFiles(es: seq<Logged>): seq<Option<Number>> { seq(|es|, i requires 0 <= i < |es| => es[i].nextFile) }

  function LastSequences(es: seq<Logged>): seq<Option<Number>> { seq(|es|, i requires 0 <= i < |es| => es[i].lastSequence) }

  /** The numbers Recover keeps while it reads. */
  datatype Counters = Counters(log: Option<Number>, prevLog: Option<Number>, nextFile: Option<Number>, last: Option<Number>)

  ghost predicate Carries(c: Counters, es: seq<Logged>) {
    && c.log == Latest(LogNumbers(es)) && c.prevLog == Latest(PrevLogNumbers(es))
    && c.nextFile == Latest(NextFiles(es)) && c.last == Latest(LastSequences(es))
  }

  /** The numbers LogAndApply puts into every edit. */
  predicate Stamped(e: Logged) {
    e.logNumber.Some? && e.prevLogNumber.Some? && e.nextFile.Some? && e.lastSequence.Some?
  }

  /** A later value replaces an earlier one. */
  function Newer(before: Option<Number>, after: Option<Number>): Option<Number> {
    if after.Some? then after else before
  }

  function Updated(c: Counters, e: Logged): Counters {
    Counters(Newer(c.log, e.logNumber), Newer(c.prevLog, e.prevLogNumber), Newer(c.nextFile, e.nextFile), Newer(c.last, e.lastSequence))
  }

  lemma CarriesOneMore(c: Counters, es: seq<Logged>, n: nat)
    requires n < |es| && Carries(c, es[..n])
    ensures Carries(Updated(c, es[n]), es[..n + 1])
  {
    assert LogNumbers(es[..n + 1])[..n] == LogNumbers(es[..n]);
    assert PrevLogNumbers(es[..n + 1])[..n] == PrevLogNumbers(es[..n]);
    assert NextFiles(es[..n + 1])[..n] == NextFiles(es[..n]);
    assert LastSequences(es[..n + 1])[..n] == LastSequences(es[..n]);
  }

  ghost predicate AllEncode(records: seq<Bytes>, enc: KeyEncoder, es: seq<Logged>) {
    |records| == |es| && forall i :: 0 <= i < |es| ==> Encodes(records[i], enc, es[i])
  }

  lemma OneMoreEncoded(records: seq<Bytes>, bytes: Bytes, enc: KeyEncoder, es: seq<Logged>, n: nat)
    requires n < |es| && AllEncode(records, enc, es[..n]) && Encodes(bytes, enc, es[n])
    ensures AllEncode(records + [bytes], enc, es[..n + 1])
  {
    forall i | 0 <= i <= n ensures Encodes((records + [bytes])[i], enc, es[..n + 1][i]) {
      assert i < n ==> es[..n + 1][i] == es[..n][i] && (records + [bytes])[i] == records[i];
    }
  }

  lemma EncodedPrefix(records: seq<Bytes>, enc: KeyEncoder, es: seq<Logged>, n: nat)
    requires n <= |es| && AllEncode(records, enc, es)
    ensures AllEncode(records[..n], enc, es[..n])
  {}

  /** What a manifest records: readable entries of this store, each adding new files only. */
  ghost predicate Journal(records: seq<Bytes>, enc: KeyEncoder, name: Bytes, open: FileMeta -> File, es: seq<Logged>) {
    && AllEncode(records, enc, es)
    && (forall i :: 0 <= i < |es| ==> GoodEntry(enc, name, open, es[i]))
    && forall l :: 0 <= l < LEVELS ==> AddedOnce({}, FilesOf(es), l)
  }

  ghost predicate GoodEntry(enc: KeyEncoder, name: Bytes, open: FileMeta -> File, e: Logged) {
    Opens(open, enc, e.files) && DistinctAdditions(e.files) && (e.comparator.Some? ==> e.comparator.value == name)
  }

  /** The builder has absorbed these edits on every level. */
  ghost predicate Replayed(b: Builder, es: seq<Logged>)
    reads b
  {
    |b.base| == LEVELS && b.Ok() && forall l :: 0 <= l < LEVELS ==> b.At(l) == VersionBuilder.AbsorbAll(FilesOf(es), l)
  }

  lemma NextAddsNew(b: Builder, es: seq<Logged>, n: nat)
    requires n < |es| && Replayed(b, es[..n]) && DistinctAdditions(es[n].files)
    requires forall l :: 0 <= l < LEVELS ==> AddedOnce({}, FilesOf(es), l)
    ensures b.AddsNew(es[n].files)
  {
    assert FilesOf(es)[..n] == FilesOf(es[..n]);
    forall l | 0 <= l < LEVELS ensures Numbers(AddedAt(es[n].files, l)) !! Numbers(FileSet(b.added[l])) {
      var before := VersionBuilder.AbsorbAll(FilesOf(es)[..n], l);
      assert {} + before.added == before.added && b.At(l) == before;
      assert AddedOnce({}, FilesOf(es), l);
      assert NewAt({}, FilesOf(es), n, l);
    }
  }

  /** One record of the manifest. */
  method ReplayRecord(b: Builder, record: Bytes, open: FileMeta -> File, name: Bytes, c: Counters,
                      ghost enc: KeyEncoder, ghost es: seq<Logged>, ghost n: nat)
    returns (ok: bool, c': Counters)
    requires b.Ok() && |b.base| == LEVELS
    modifies b`deleted, b`added
    ensures b.Ok()
    ensures old(Expected(b, record, open, name, c, enc, es, n)) ==> ok && Replayed(b, es[..n + 1]) && Carries(c', es[..n + 1])
  {
    ghost var written := Expected(b, record, open, name, c, enc, es, n);
    var e;
    ok, e := DecodeEntry(record, open, enc, if written then es[n] else Logged(Edit({}, []), None, None, None, None, None, []));
    if ok && e.comparator.Some? && e.comparator.value != name {
      ok := false;
    }
    if ok {
      if written {
        NextAddsNew(b, es, n);
      }
      b.Apply(e.files);
    }
    c' := Updated(c, e);
    if written {
      CarriesOneMore(c, es, n);
      OneMoreReplayed(b, es, n);
    }
  }

  lemma OneMoreReplayed(b: Builder, es: seq<Logged>, n: nat)
    requires n < |es| && b.Ok() && |b.base| == LEVELS
    requires forall l :: 0 <= l < LEVELS ==>
      b.At(l) == VersionBuilder.Absorb(VersionBuilder.AbsorbAll(FilesOf(es[..n]), l), es[n].files, l)
    ensures Replayed(b, es[..n + 1])
  {
    assert FilesOf(es[..n + 1])[..n] == FilesOf(es[..n]);
  }

  /** The record at hand is the n-th of the manifest and the ones before have been replayed. */
  ghost predicate Expected(b: Builder, record: Bytes, open: FileMeta -> File, name: Bytes, c: Counters,
                           enc: KeyEncoder, es: seq<Logged>, n: nat)
    reads b
  {
    && n < |es| && Encodes(record, enc, es[n]) && GoodEntry(enc, name, open, es[n])
    && (forall l :: 0 <= l < LEVELS ==> AddedOnce({}, FilesOf(es), l))
    && Replayed(b, es[..n]) && Carries(c, es[..n])
  }

  method ReplayAll(b: Builder, records: seq<Bytes>, open: FileMeta -> File, name: Bytes, ghost enc: KeyEncoder, ghost es: seq<Logged>)
    returns (ok: bool, c: Counters)
    requires b.Ok() && |b.base| == LEVELS && forall l :: 0 <= l < LEVELS ==> b.At(l) == LevelState({}, {})
    modifies b`deleted, b`added
    ensures b.Ok()
    ensures Journal(records, enc, name, open, es) ==> ok && Replayed(b, es) && Carries(c, es)
  {
    ghost var written := Journal(records, enc, name, open, es);
    ok, c := true, Counters(None, None, None, None);
    var i := 0;
    while i < |records| && ok
      invariant i <= |records| && b.Ok()
      invariant written ==> ok && Replayed(b, es[..i]) && Carries(c, es[..i])
    {
      ok, c := ReplayRecord(b, records[i], open, name, c, enc, es, i);
      i := i + 1;
    }
    if written {
      assert es[..i] == es;
    }
  }

  /** Recover: decodes and replays the records, keeps the latest numbers, and builds the version if there is a
      next file number, a log number and a last sequence number. */
  method Recover(records: seq<Bytes>, open: FileMeta -> File, name: Bytes, ghost enc: KeyEncoder, ghost es: seq<Logged>)
    returns (ok: bool, levels: seq<seq<File>>, c: Counters)
    ensures Journal(records, enc, name, open, es) ==> Carries(c, es) && (ok <==> c.nextFile.Some? && c.log.Some? && c.last.Some?)
    ensures Journal(records, enc, name, open, es) && ok ==> |levels| == LEVELS && forall l :: 0 <= l < LEVELS ==>
              BySmallest(levels[l]) && FileSet(levels[l]) == Result({}, VersionBuilder.AbsorbAll(FilesOf(es), l))
  {
    var b := new Builder(seq(LEVELS, _ => []));
    levels := [];
    ok, c := ReplayAll(b, records, open, name, enc, es);
    ok := ok && c.nextFile.Some? && c.log.Some? && c.last.Some?;
    if ok {
      levels := SaveLevels(b);
    }
  }

  method SaveLevels(b: Builder) returns (levels: seq<seq<File>>)
    requires b.Ok() && b.base == seq(LEVELS, _ => [])
    ensures |levels| == LEVELS
    ensures forall l :: 0 <= l < LEVELS ==> BySmallest(levels[l]) && FileSet(levels[l]) == Result({}, b.At(l))
  {
    levels := [];
    while |levels| < LEVELS
      invariant |levels| <= LEVELS
      invariant forall l :: 0 <= l < |levels| ==> BySmallest(levels[l]) && FileSet(levels[l]) == Result({}, b.At(l))
    {
      assert FileSet(b.base[|levels|]) == {};
      var files := b.SaveTo(|levels|);
      levels := levels + [files];
    }
  }

  // ----- A store and its manifest -----

  /** A manifest of a store whose version was `current`: WriteSnapshot's record, which holds no numbers, and the
      edits of LogAndApply after it, which add new files only. */
  ghost predicate ManifestOf(current: seq<set<File>>, enc: KeyEncoder, name: Bytes, open: FileMeta -> File, snapshot: Logged,
                             later: seq<Logged>) {
    && |current| == LEVELS
    && (forall l :: 0 <= l < LEVELS ==> IsSnapshotOf(snapshot.files, current[l], l) && AddedOnce(current[l], FilesOf(later), l))
    && (forall i {:trigger ([snapshot] + later)[i]} :: 0 <= i <= |later| ==>
         GoodEntry(enc, name, open, ([snapshot] + later)[i]) && Recordable(enc, ([snapshot] + later)[i]))
    && snapshot.logNumber.None? && snapshot.prevLogNumber.None? && snapshot.nextFile.None? && snapshot.lastSequence.None?
    && forall i :: 0 <= i < |later| ==> Stamped(later[i])
  }

  /** The numbers of a stamped edit. */
  function NumbersOf(e: Logged): Counters {
    Counters(e.logNumber, e.prevLogNumber, e.nextFile, e.lastSequence)
  }

  method EncodeEntries(enc: KeyEncoder, es: seq<Logged>) returns (records: seq<Bytes>)
    requires forall i :: 0 <= i < |es| ==> Recordable(enc, es[i])
    ensures AllEncode(records, enc, es)
  {
    records := [];
    for i := 0 to |es|
      invariant AllEncode(records, enc, es[..i])
    {
      var bytes := EncodeEntry(enc, es[i]);
      OneMoreEncoded(records, bytes, enc, es, i);
      records := records + [bytes];
    }
    assert es[..|es|] == es;
  }

  /** The entries that survive are a journal of their own. */
  lemma SurvivingJournal(current: seq<set<File>>, enc: KeyEncoder, name: Bytes, open: FileMeta -> File, snapshot: Logged,
                         later: seq<Logged>, records: seq<Bytes>, n: nat)
    requires ManifestOf(current, enc, name, open, snapshot, later) && n <= |later| + 1 && AllEncode(records, enc, [snapshot] + later)
    ensures Journal(records[..n], enc, name, open, ([snapshot] + later)[..n])
  {
    var all := [snapshot] + later;
    EncodedPrefix(records, enc, all, n);
    forall i | 0 <= i < n ensures GoodEntry(enc, name, open, all[..n][i]) {
      assert all[..n][i] == all[i];
    }
    forall l | 0 <= l < LEVELS ensures AddedOnce({}, FilesOf(all[..n]), l) {
      SurvivingAdditions(current[l], snapshot, later, n, l);
    }
  }

  lemma SurvivingAdditions(current: set<File>, snapshot: Logged, later: seq<Logged>, n: nat, level: nat)
    requires n <= |later| + 1 && IsSnapshotOf(snapshot.files, current, level) && AddedOnce(current, FilesOf(later), level)
    ensures AddedOnce({}, FilesOf(([snapshot] + later)[..n]), level)
  {
    if n > 0 {
      FilesLeft(snapshot, later, n);
      AddedOncePrefix(current, FilesOf(later), n - 1, level);
      AddedAfterSnapshot(current, snapshot.files, FilesOf(later)[..n - 1], level);
    }
  }

  lemma FilesLeft(snapshot: Logged, later: seq<Logged>, n: nat)
    requires 1 <= n <= |later| + 1
    ensures FilesOf(([snapshot] + later)[..n]) == [snapshot.files] + FilesOf(later)[..n - 1]
  {}

  lemma AddedAfterSnapshot(current: set<File>, snapshot: Edit, later: seq<Edit>, level: nat)
    requires IsSnapshotOf(snapshot, current, level) && AddedOnce(current, later, level)
    ensures AddedOnce({}, [snapshot] + later, level)
  {
    var all := [snapshot] + later;
    forall i | 0 <= i < |all| ensures NewAt({}, all, i, level) {
      if i > 0 {
        assert NewAt(current, later, i - 1, level);
        assert all[..i] == [snapshot] + later[..i - 1] && all[i] == later[i - 1];
        SnapshotAdds(current, snapshot, later[..i - 1], level);
        var before := current + VersionBuilder.AbsorbAll(later[..i - 1], level).added;
        assert {} + VersionBuilder.AbsorbAll(all[..i], level).added == before;
      }
    }
  }

  /** After the snapshot alone there are no numbers; after more, those of the last edit. */
  lemma SurvivingNumbers(snapshot: Logged, later: seq<Logged>, n: nat, c: Counters)
    requires n <= |later| + 1 && Carries(c, ([snapshot] + later)[..n]) && NumbersOf(snapshot) == Counters(None, None, None, None)
    requires forall i :: 0 <= i < |later| ==> Stamped(later[i])
    ensures c == if n < 2 then Counters(None, None, None, None) else NumbersOf(later[n - 2])
  {
    var all := [snapshot] + later;
    if n > 0 {
      var es := all[..n - 1];
      var before := Counters(Latest(LogNumbers(es)), Latest(PrevLogNumbers(es)), Latest(NextFiles(es)), Latest(LastSequences(es)));
      CarriesOneMore(before, all, n - 1);
      if n == 1 {
        assert all[0] == snapshot;
      } else {
        assert all[n - 1] == later[n - 2];
      }
    }
  }

  lemma SurvivingFiles(current: set<File>, snapshot: Logged, later: seq<Logged>, n: nat, level: nat)
    requires 1 <= n <= |later| + 1 && IsSnapshotOf(snapshot.files, current, level) && AddedOnce(current, FilesOf(later), level)
    ensures Result({}, VersionBuilder.AbsorbAll(FilesOf(([snapshot] + later)[..n]), level)) ==
            ApplyEdits(current, FilesOf(later)[..n - 1], level)
  {
    FilesLeft(snapshot, later, n);
    AddedOncePrefix(current, FilesOf(later), n - 1, level);
    RecoveryRebuilds(current, snapshot.files, FilesOf(later)[..n - 1], level);
  }

  lemma TwoSessions(records: seq<Bytes>, k: nat)
    requires k <= |records|
    ensures Concat([records[..k], records[k..]]) == records
  {
    var sessions := [records[..k], records[k..]];
    ConcatSnoc(sessions, 0);
    ConcatSnoc(sessions, 1);
    assert sessions[..0] == [] && sessions[..2] == sessions;
    assert records[..k] + records[k..] == records;
  }

  /** A manifest is written, perhaps reopened once on the way (ReuseManifest), loses any tail, and is recovered from:
      that succeeds exactly when an edit after the snapshot is left, and gives the files the store had after the
      edits that are left, in order, and the numbers of the last of them. */
  method CrashRecovery(crc: Crc, cut: nat, reopened: nat, enc: KeyEncoder, name: Bytes, open: FileMeta -> File,
                       snapshot: Logged, later: seq<Logged>, ghost current: seq<set<File>>)
    returns (file: Bytes, records: seq<Bytes>, n: nat, ok: bool, levels: seq<seq<File>>, c: Counters)
    requires ManifestOf(current, enc, name, open, snapshot, later) && reopened <= |later| + 1
    ensures |records| == |later| + 1 && |file| == EndOfRecords(0, records) && n <= |records|
    ensures WholeRecords(records, if cut < |file| then cut else |file|, records[..n]) && (cut >= |file| ==> n == |later| + 1)
    ensures ok <==> n >= 2
    ensures ok ==> |levels| == LEVELS && c == NumbersOf(later[n - 2])
    ensures ok ==> forall l :: 0 <= l < LEVELS ==>
              BySmallest(levels[l]) && FileSet(levels[l]) == ApplyEdits(current[l], FilesOf(later)[..n - 1], l)
  {
    records := EncodeEntries(enc, [snapshot] + later);
    var sessions := [records[..reopened], records[reopened..]];
    TwoSessions(records, reopened);
    var out, reports;
    file, out, reports := WriteCrashRead(crc, sessions, cut, true);
    n := |out|;
    assert out == records[..n];
    SurvivingJournal(current, enc, name, open, snapshot, later, records, n);
    ok, levels, c := Recover(out, open, name, enc, ([snapshot] + later)[..n]);
    SurvivingNumbers(snapshot, later, n, c);
    if ok {
      forall l | 0 <= l < LEVELS ensures FileSet(levels[l]) == ApplyEdits(current[l], FilesOf(later)[..n - 1], l) {
        SurvivingFiles(current[l], snapshot, later, n, l);
      }
    }
  }
}
