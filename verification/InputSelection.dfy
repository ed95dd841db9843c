/** Choosing the files of a compaction, and the level of a flushed memtable (db/version_set.cc). */
module InputSelection {
  import opened Keys
  import opened LsmState
  import opened FileLists
  import opened Compaction
  import opened CompactionViews

  /** The largest key among the files; used on non-empty lists only. */
  method FindLargestKey(files: seq<File>) returns (largest: Option<InternalKey>)
    ensures largest.None? <==> files == []
    ensures largest.Some? ==> IsLargestKey(FileSet(files), largest.value)
  {
    if files == [] {
      return None;
    }
    largest := Some(files[0].Largest());
    for i := 1 to |files|
      invariant largest.Some? && exists j :: 0 <= j < i && files[j].Largest() == largest.value
      invariant forall j :: 0 <= j < i ==> !Less(largest.value, files[j].Largest())
    {
      if Less(largest.value, files[i].Largest()) {
        largest := Some(files[i].Largest());
      }
    }
  }

  /** The earliest file of the level that continues the user key `largest` ends with. */
  method FindSmallestBoundaryFile(levelFiles: seq<File>, largest: InternalKey) returns (found: Option<File>)
    ensures found.None? <==> forall f :: f in levelFiles ==> !StartsAtBoundary(f, largest)
    ensures found.Some? ==> IsBoundaryFile(FileSet(levelFiles), largest, found.value)
  {
    found := None;
    for i := 0 to |levelFiles|
      invariant found.None? <==> forall j :: 0 <= j < i ==> !StartsAtBoundary(levelFiles[j], largest)
      invariant found.Some? ==> found.value in levelFiles && StartsAtBoundary(found.value, largest)
      invariant found.Some? ==> forall j :: 0 <= j < i && StartsAtBoundary(levelFiles[j], largest) ==>
        !Less(levelFiles[j].Smallest(), found.value.Smallest())
    {
      var f := levelFiles[i];
      if Less(largest, f.Smallest()) && f.Smallest().user == largest.user {
        if found.None? || Less(f.Smallest(), found.value.Smallest()) {
          found := Some(f);
        }
      }
    }
  }

  predicate LiesBetween(f: File, g: File, h: File) {
    Less(f.Largest(), g.Smallest()) && Less(g.Largest(), h.Smallest())
  }

  /** No file of the level lies strictly between two chosen ones. */
  ghost predicate Contiguous(files: set<File>, chosen: set<File>) {
    forall f, g, h :: f in chosen && h in chosen && g in files && LiesBetween(f, g, h) ==> g in chosen
  }

  ghost predicate UserRangesMeet(f: File, g: File) {
    f.Smallest().user <= g.Largest().user && g.Smallest().user <= f.Largest().user
  }

  /** Every file sharing part of the user-key range of a chosen one is chosen. */
  ghost predicate OverlapClosed(files: set<File>, chosen: set<File>) {
    forall f, g :: f in chosen && g in files && UserRangesMeet(f, g) ==> g in chosen
  }

  /** What the ways of picking upper inputs have in common: at level 0 they take all overlapping
      files, deeper they take a run of neighbours. */
  ghost predicate PickedRun(levelZero: bool, files: set<File>, chosen: set<File>) {
    && chosen <= files
    && (if levelZero then OverlapClosed(files, chosen) else Contiguous(files, chosen))
  }

  ghost predicate NoBoundaryLeft(files: set<File>, chosen: set<File>) {
    forall k, g :: IsLargestKey(chosen, k) && g in files ==> !StartsAtBoundary(g, k)
  }

  ghost predicate LevelOk(levelZero: bool, files: set<File>) {
    && (forall f :: f in files ==> Sorted(f.entries))
    && (!levelZero ==> LevelDisjoint(files))
  }

  lemma BoundaryExtendsRun(levelZero: bool, files: set<File>, chosen: set<File>, k: InternalKey, b: File)
    requires LevelOk(levelZero, files) && PickedRun(levelZero, files, chosen)
    requires IsLargestKey(chosen, k) && IsBoundaryFile(files, k, b)
    ensures !levelZero
    ensures PickedRun(levelZero, files, chosen + {b}) && IsLargestKey(chosen + {b}, b.Largest())
    ensures Less(k, b.Largest())
  {
    FirstNotAfterLast(b);
    var m :| m in chosen && m.Largest() == k;
    FirstNotAfterLast(m);
    if levelZero {
      assert UserRangesMeet(m, b);
    } else {
      forall f, g, h | f in chosen + {b} && h in chosen + {b} && g in files && LiesBetween(f, g, h)
        ensures g in chosen + {b}
      {
        BetweenRunAndBoundary(files, chosen, k, b, m, f, g, h);
      }
    }
  }

  lemma BetweenRunAndBoundary(files: set<File>, chosen: set<File>, k: InternalKey, b: File, m: File, f: File, g: File, h: File)
    requires LevelOk(false, files) && chosen <= files && Contiguous(files, chosen)
    requires IsLargestKey(chosen, k) && IsBoundaryFile(files, k, b) && m in chosen && m.Largest() == k
    requires f in chosen + {b} && h in chosen + {b} && g in files
    requires LiesBetween(f, g, h)
    ensures g in chosen + {b}
  {
    FirstNotAfterLast(g);
    FirstNotAfterLast(b);
    FirstNotAfterLast(f);
    FirstNotAfterLast(h);
    assert h in chosen ==> !Less(k, h.Largest());
    if f in chosen && h == b && g != m {
      assert Apart(g, m);
      assert Less(g.Largest(), m.Smallest()) ==> LiesBetween(f, g, m);
      assert Less(m.Largest(), g.Smallest()) ==> StartsAtBoundary(g, k);
    } else {
      assert LiesBetween(f, g, h);
    }
  }

  lemma BoundaryFileIsNew(chosen: set<File>, k: InternalKey, b: File)
    requires IsLargestKey(chosen, k) && StartsAtBoundary(b, k) && Sorted(b.entries)
    ensures b !in chosen
  {
    FirstNotAfterLast(b);
  }

  /** The i-th file continues the last user key of those before it, and is the first of the level to do so. */
  ghost predicate ContinuesAt(files: set<File>, extended: seq<File>, i: nat)
    requires i < |extended|
  {
    exists k :: IsLargestKey(FileSet(extended[..i]), k) && IsBoundaryFile(files, k, extended[i])
  }

  /** Behind the chosen files come their boundary files, and nothing else. */
  ghost predicate ExtendedBy(files: set<File>, chosen: seq<File>, extended: seq<File>) {
    chosen <= extended && forall i {:trigger ContinuesAt(files, extended, i)} ::
      |chosen| <= i < |extended| ==> ContinuesAt(files, extended, i)
  }

  lemma OneMoreBoundary(files: set<File>, chosen: seq<File>, extended: seq<File>, k: InternalKey, b: File)
    requires ExtendedBy(files, chosen, extended) && IsLargestKey(FileSet(extended), k) && IsBoundaryFile(files, k, b)
    ensures ExtendedBy(files, chosen, extended + [b])
  {
    var more := extended + [b];
    forall i | |chosen| <= i < |more| ensures ContinuesAt(files, more, i) {
      if i < |extended| {
        assert more[..i] == extended[..i] && more[i] == extended[i];
        assert ContinuesAt(files, extended, i);
      } else {
        assert more[..i] == extended && more[i] == b;
      }
    }
  }

  ghost function EndingAfter(files: seq<File>, k: InternalKey): set<File> {
    set f | f in files && Less(k, f.Largest())
  }

  /** The chosen files with boundary files behind them, up to the key `largest`. */
  ghost predicate Extends(levelZero: bool, levelFiles: seq<File>, chosen: seq<File>, extended: seq<File>, largest: InternalKey) {
    && ExtendedBy(FileSet(levelFiles), chosen, extended) && extended != []
    && PickedRun(levelZero, FileSet(levelFiles), FileSet(extended))
    && IsLargestKey(FileSet(extended), largest)
    && (levelZero ==> extended == chosen)
    && (NoDuplicates(chosen) ==> NoDuplicates(extended))
    && (LevelList(chosen) ==> LevelList(extended))
  }

  lemma ExtendByBoundary(levelZero: bool, levelFiles: seq<File>, chosen: seq<File>, extended: seq<File>, largest: InternalKey, b: File)
    requires LevelOk(levelZero, FileSet(levelFiles)) && Extends(levelZero, levelFiles, chosen, extended, largest)
    requires IsBoundaryFile(FileSet(levelFiles), largest, b)
    ensures Extends(levelZero, levelFiles, chosen, extended + [b], b.Largest())
    ensures EndingAfter(levelFiles, b.Largest()) < EndingAfter(levelFiles, largest)
  {
    BoundaryExtendsRun(levelZero, FileSet(levelFiles), FileSet(extended), largest, b);
    assert FileSet(extended + [b]) == FileSet(extended) + {b};
    BoundaryFileIsNew(FileSet(extended), largest, b);
    assert b !in extended;
    OneMoreBoundary(FileSet(levelFiles), chosen, extended, largest, b);
    assert b in EndingAfter(levelFiles, largest) && b !in EndingAfter(levelFiles, b.Largest());
    if LevelList(chosen) {
      BoundaryKeepsOrder(extended, largest, b);
    }
  }

  /** Extends the chosen files until no file of the level continues their last user key. */
  method AddBoundaryInputs(levelZero: bool, levelFiles: seq<File>, chosen: seq<File>) returns (extended: seq<File>)
    requires LevelOk(levelZero, FileSet(levelFiles)) && PickedRun(levelZero, FileSet(levelFiles), FileSet(chosen))
    ensures ExtendedBy(FileSet(levelFiles), chosen, extended)
    ensures PickedRun(levelZero, FileSet(levelFiles), FileSet(extended))
    ensures NoBoundaryLeft(FileSet(levelFiles), FileSet(extended))
    ensures levelZero ==> extended == chosen
    ensures NoDuplicates(chosen) ==> NoDuplicates(extended)
    ensures LevelList(chosen) ==> LevelList(extended)
  {
    extended := chosen;
    var first := FindLargestKey(chosen);
    if first.None? {
      return;
    }
    var largest := first.value;
    var searching := true;
    while searching
      invariant Extends(levelZero, levelFiles, chosen, extended, largest)
      invariant !searching ==> forall f :: f in levelFiles ==> !StartsAtBoundary(f, largest)
      decreases EndingAfter(levelFiles, largest), searching
    {
      var boundary := FindSmallestBoundaryFile(levelFiles, largest);
      if boundary.Some? {
        ExtendByBoundary(levelZero, levelFiles, chosen, extended, largest, boundary.value);
        extended, largest := extended + [boundary.value], boundary.value.Largest();
      } else {
        searching := false;
      }
    }
    LargestKeyUnique(FileSet(levelFiles), FileSet(extended), largest);
  }

  /** A boundary file goes behind all files it continues. */
  lemma BoundaryKeepsOrder(files: seq<File>, k: InternalKey, b: File)
    requires LevelList(files) && Sorted(b.entries) && IsLargestKey(FileSet(files), k) && StartsAtBoundary(b, k)
    ensures LevelList(files + [b])
  {
    forall i | 0 <= i < |files| ensures Less(files[i].Largest(), b.Smallest()) {
      assert files[i] in FileSet(files);
    }
    LevelListAppend(files, b);
  }

  lemma LargestKeyUnique(files: set<File>, chosen: set<File>, k: InternalKey)
    requires IsLargestKey(chosen, k) && forall f :: f in files ==> !StartsAtBoundary(f, k)
    ensures NoBoundaryLeft(files, chosen)
  {
    forall k2, g | IsLargestKey(chosen, k2) && g in files ensures !StartsAtBoundary(g, k2) {
      var f :| f in chosen && f.Largest() == k;
      var f2 :| f2 in chosen && f2.Largest() == k2;
      assert !Less(k, k2) && !Less(k2, k);
    }
  }

  /** Upper inputs picked and extended this way leave no older entry of theirs in their level. */
  lemma RunLeavesNothingOlder(levelZero: bool, files: set<File>, chosen: set<File>)
    requires LevelOk(levelZero, files) && PickedRun(levelZero, files, chosen) && NoBoundaryLeft(files, chosen)
    requires UniqueSeqnos(Contents(files)) && chosen != {}
    ensures Above(Contents(files - chosen), Contents(chosen))
  {
    forall x, e | x in Contents(files - chosen) && e in Contents(chosen) && x.key.user == e.key.user
      ensures x.key.seqno > e.key.seqno
    {
      var g :| g in files - chosen && x in g.entries;
      var f :| f in chosen && e in f.entries;
      EntryUserInFileRange(g, x);
      EntryUserInFileRange(f, e);
      if levelZero {
        assert UserRangesMeet(f, g);
      } else {
        ContentsMember(files, g, x);
        ContentsMember(files, f, e);
        assert Apart(f, g);
        if Less(f.Largest(), g.Smallest()) {
          NothingAfterRun(files, chosen, f, g);
        }
      }
    }
  }

  lemma LargestKeyExists(chosen: set<File>) returns (m: File)
    requires chosen != {}
    ensures m in chosen && IsLargestKey(chosen, m.Largest())
  {
    m :| m in chosen;
    if chosen != {m} {
      var m2 := LargestKeyExists(chosen - {m});
      m := if Less(m.Largest(), m2.Largest()) then m2 else m;
      assert forall f :: f in chosen ==> f == m || f in chosen - {m} || f == m2;
    }
  }

  lemma NothingAfterRun(files: set<File>, chosen: set<File>, f: File, g: File)
    requires LevelOk(false, files) && chosen <= files && Contiguous(files, chosen) && NoBoundaryLeft(files, chosen)
    requires f in chosen && g in files - chosen && Less(f.Largest(), g.Smallest())
    ensures f.Largest().user < g.Smallest().user
  {
    var m := LargestKeyExists(chosen);
    FirstNotAfterLast(m);
    assert Apart(m, g);
    assert LiesBetween(f, g, m) ==> g in chosen;
    assert !StartsAtBoundary(g, m.Largest());
    assert !Less(m.Largest(), f.Largest());
  }

  // ----- Ranges, picking and SetupOtherInputs -----

  ghost predicate RangeOf(files: seq<File>, smallest: InternalKey, largest: InternalKey) {
    && (exists f :: f in files && f.Smallest() == smallest)
    && (exists f :: f in files && f.Largest() == largest)
    && (forall f :: f in files ==> !Less(f.Smallest(), smallest) && !Less(largest, f.Largest()))
  }

  method GetRange(files: seq<File>) returns (smallest: InternalKey, largest: InternalKey)
    requires files != []
    ensures RangeOf(files, smallest, largest)
  {
    smallest, largest := files[0].Smallest(), files[0].Largest();
    for i := 1 to |files|
      invariant exists j :: 0 <= j < i && files[j].Smallest() == smallest
      invariant exists j :: 0 <= j < i && files[j].Largest() == largest
      invariant forall j :: 0 <= j < i ==> !Less(files[j].Smallest(), smallest) && !Less(largest, files[j].Largest())
    {
      if Less(files[i].Smallest(), smallest) {
        smallest := files[i].Smallest();
      }
      if Less(largest, files[i].Largest()) {
        largest := files[i].Largest();
      }
    }
  }

  /** The files meeting a range, closed at level 0, are a legal pick. */
  lemma MeetingFilesArePicked(levelZero: bool, files: seq<File>, lo: Option<UserKey>, hi: Option<UserKey>, inputs: seq<File>)
    requires LevelOk(levelZero, FileSet(files)) && FilesMeeting(files, lo, hi, inputs)
    requires levelZero ==> RangeClosed(files, lo, hi)
    ensures PickedRun(levelZero, FileSet(files), FileSet(inputs))
  {
    if levelZero {
      forall f, g | f in FileSet(inputs) && g in FileSet(files) && UserRangesMeet(f, g) ensures g in FileSet(inputs) {
        assert InsideRange(f, lo, hi);
        assert Meets(g, lo, hi);
      }
    } else {
      forall f, g, h | f in FileSet(inputs) && h in FileSet(inputs) && g in FileSet(files) && LiesBetween(f, g, h)
        ensures g in FileSet(inputs)
      {
        FirstNotAfterLast(g);
        assert Meets(f, lo, hi) && Meets(h, lo, hi);
      }
    }
  }

  lemma EarlierInList(files: seq<File>, i: nat, j: nat)
    requires LevelList(files) && i < |files| && j < |files| && Less(files[i].Largest(), files[j].Smallest())
    ensures i < j
  {
    FirstNotAfterLast(files[i]);
    FirstNotAfterLast(files[j]);
  }

  /** An ascending prefix of a run is a run. */
  lemma PrefixOfRun(files: set<File>, inputs: seq<File>, n: nat)
    requires LevelOk(false, files) && PickedRun(false, files, FileSet(inputs)) && LevelList(inputs) && n <= |inputs|
    ensures PickedRun(false, files, FileSet(inputs[..n]))
  {
    forall f, g, h | f in FileSet(inputs[..n]) && h in FileSet(inputs[..n]) && g in files && LiesBetween(f, g, h)
      ensures g in FileSet(inputs[..n])
    {
      var i :| 0 <= i < |inputs| && inputs[i] == g;
      var j :| 0 <= j < n && inputs[..n][j] == h;
      EarlierInList(inputs, i, j);
      assert inputs[..n][i] == g;
    }
  }

  /** File i comes next after the compaction pointer, wrapping around to the first file. */
  ghost predicate NextInTurn(files: seq<File>, pointer: Option<InternalKey>, i: nat)
    requires i < |files|
  {
    if pointer.None? || forall j :: 0 <= j < |files| ==> !Less(pointer.value, files[j].Largest()) then i == 0
    else Less(pointer.value, files[i].Largest()) && forall j :: 0 <= j < i ==> !Less(pointer.value, files[j].Largest())
  }

  /** PickCompaction for an oversized level: the first file past the level's compaction pointer,
      or the first file; for a file that cost too many seeks: that file. */
  method PickInputs(levelZero: bool, files: seq<File>, pointer: Option<InternalKey>, seek: Option<File>)
      returns (picked: seq<File>)
    requires LevelOk(levelZero, FileSet(files)) && files != []
    requires seek.Some? ==> seek.value in files
    ensures picked != [] && PickedRun(levelZero, FileSet(files), FileSet(picked))
    ensures NoDuplicates(files) ==> NoDuplicates(picked)
    ensures seek.Some? ==> seek.value in picked
    ensures !levelZero ==> LevelList(picked)
    ensures seek.None? && !levelZero ==> exists i :: 0 <= i < |files| && picked == [files[i]] && NextInTurn(files, pointer, i)
  {
    var f := files[0];
    if seek.Some? {
      f := seek.value;
    } else {
      var i := 0;
      while i < |files| && pointer.Some? && !Less(pointer.value, files[i].Largest())
        invariant 0 <= i <= |files|
        invariant forall j :: 0 <= j < i ==> pointer.Some? && !Less(pointer.value, files[j].Largest())
      {
        i := i + 1;
      }
      if i < |files| {
        f := files[i];
      }
    }
    picked := [f];
    FirstNotAfterLast(f);
    if levelZero {
      var smallest, largest := GetRange(picked);
      ghost var lo, hi;
      picked, lo, hi := GetOverlappingInputs(true, files, Some(smallest.user), Some(largest.user));
      assert Meets(f, lo, hi);
      MeetingFilesArePicked(true, files, lo, hi, picked);
    }
  }

  /** CompactRange: the files meeting the range; deeper than level 0, only so many of them that
      their size reaches the limit. */
  method PickRange(levelZero: bool, files: seq<File>, begin: Option<UserKey>, end: Option<UserKey>, sizeLimit: nat)
      returns (picked: seq<File>)
    requires LevelOk(levelZero, FileSet(files)) && (!levelZero ==> LevelList(files))
    ensures PickedRun(levelZero, FileSet(files), FileSet(picked))
    ensures NoDuplicates(files) ==> NoDuplicates(picked)
    ensures picked == [] <==> forall f :: f in files ==> !Meets(f, begin, end)
    ensures !levelZero ==> LevelList(picked)
    ensures !levelZero ==> CutAtSize(MeetingFiles(files, begin, end), picked, sizeLimit)
  {
    ghost var lo, hi;
    picked, lo, hi := GetOverlappingInputs(levelZero, files, begin, end);
    MeetingFilesArePicked(levelZero, files, lo, hi, picked);
    EmptyIfNothingMeets(levelZero, files, begin, end, lo, hi, picked);
    if !levelZero && picked != [] {
      var n := ReachesSize(picked, sizeLimit);
      PrefixOfRun(FileSet(files), picked, n);
      CutReached(picked, n, sizeLimit);
      picked := picked[..n];
    }
  }

  lemma EmptyIfNothingMeets(levelZero: bool, files: seq<File>, begin: Option<UserKey>, end: Option<UserKey>,
                            lo: Option<UserKey>, hi: Option<UserKey>, inputs: seq<File>)
    requires FilesMeeting(files, lo, hi, inputs) && RangeWithin(begin, end, lo, hi)
    requires if levelZero then InEveryClosedRange(files, begin, end, lo, hi) else lo == begin && hi == end
    ensures inputs == [] <==> forall f :: f in files ==> !Meets(f, begin, end)
  {
    assert forall f :: f in files && Meets(f, begin, end) ==> Meets(f, lo, hi);
    if levelZero {
      ClosedRangeStartsInside(files, begin, end, lo, hi);
    }
    if inputs != [] {
      assert inputs[0] in inputs;
    }
  }

  /** The first files, as few as reach the limit, or all of them if they do not. */
  ghost predicate CutAtSize(files: seq<File>, picked: seq<File>, sizeLimit: nat) {
    && picked <= files && (picked == [] ==> files == [])
    && (|picked| < |files| ==> TotalFileSize(picked) >= sizeLimit)
    && forall m :: 0 < m < |picked| ==> TotalFileSize(files[..m]) < sizeLimit
  }

  lemma {:induction false} TotalIsSum(files: seq<File>, n: nat)
    requires n <= |files|
    ensures TotalFileSize(files[..n]) == SizeOfFirst(files, n)
  {
    if n > 0 {
      TotalIsSum(files, n - 1);
      assert files[..n] == files[..n - 1] + [files[n - 1]];
      TotalFileSizeAdds(files[..n - 1], [files[n - 1]]);
      TotalOfOne(files[n - 1]);
    }
  }

  lemma CutReached(files: seq<File>, n: nat, sizeLimit: nat)
    requires 0 < n <= |files| && (n < |files| ==> SizeOfFirst(files, n) >= sizeLimit)
    requires forall m :: 0 < m < n ==> SizeOfFirst(files, m) < sizeLimit
    ensures CutAtSize(files, files[..n], sizeLimit)
  {
    TotalIsSum(files, n);
    forall m | 0 < m < n ensures TotalFileSize(files[..m]) < sizeLimit {
      TotalIsSum(files, m);
    }
  }

  /** How many files, from the first on, it takes to reach the size limit. */
  method ReachesSize(files: seq<File>, sizeLimit: nat) returns (n: nat)
    requires files != []
    ensures 0 < n <= |files|
    ensures n < |files| ==> SizeOfFirst(files, n) >= sizeLimit
    ensures forall m :: 0 < m < n ==> SizeOfFirst(files, m) < sizeLimit
  {
    var total := 0;
    for i := 0 to |files|
      invariant total == SizeOfFirst(files, i)
      invariant forall m :: 0 < m <= i ==> SizeOfFirst(files, m) < sizeLimit
    {
      total := total + files[i].size;
      if total >= sizeLimit {
        return i + 1;
      }
    }
    return |files|;
  }

  function SizeOfFirst(files: seq<File>, n: nat): nat
    requires n <= |files|
  {
    if n == 0 then 0 else SizeOfFirst(files, n - 1) + files[n - 1].size
  }

  /** A range only grows to meet files that already touch it: if nothing meets [begin, end],
      nothing meets its least closed range. */
  lemma ClosedRangeStartsInside(files: seq<File>, begin: Option<UserKey>, end: Option<UserKey>,
                                lo: Option<UserKey>, hi: Option<UserKey>)
    requires InEveryClosedRange(files, begin, end, lo, hi) && RangeWithin(begin, end, lo, hi)
    ensures (forall f :: f in files ==> !Meets(f, begin, end)) ==> forall f :: f in files ==> !Meets(f, lo, hi)
  {
    if forall f :: f in files ==> !Meets(f, begin, end) {
      assert RangeClosed(files, begin, end);
      assert RangeWithin(lo, hi, begin, end);
    }
  }

  /** The lower inputs are the files meeting the upper inputs' user-key range. */
  ghost predicate Covers(files0: seq<File>, files1: seq<File>, in0: seq<File>, in1: seq<File>, lo: UserKey, hi: UserKey) {
    && (exists f :: f in in0 && f.Smallest().user == lo)
    && (exists f :: f in in0 && f.Largest().user == hi)
    && (forall f :: f in in0 ==> f in files0 && lo <= f.Smallest().user && f.Largest().user <= hi)
    && FilesMeeting(files1, Some(lo), Some(hi), in1)
  }

  /** The lower inputs that go with some upper ones. */
  ghost predicate LowerOf(files0: seq<File>, files1: seq<File>, in0: seq<File>, in1: seq<File>) {
    exists lo, hi :: Covers(files0, files1, in0, in1, lo, hi) && in1 == MeetingFiles(files1, Some(lo), Some(hi))
  }

  /** The files meeting the range, which is the least closed one around [begin, end] at level 0, and their
      boundary files. */
  ghost predicate FilesAround(levelZero: bool, files: seq<File>, begin: UserKey, end: UserKey, wide: seq<File>) {
    exists lo, hi ::
      && (if levelZero then RangeClosed(files, lo, hi) && InEveryClosedRange(files, Some(begin), Some(end), lo, hi)
          else lo == Some(begin) && hi == Some(end))
      && RangeWithin(Some(begin), Some(end), lo, hi)
      && ExtendedBy(FileSet(files), MeetingFiles(files, lo, hi), wide)
  }

  /** All upper files in the range of the inputs. */
  ghost predicate WideOf(levelZero: bool, files0: seq<File>, inputs: seq<File>, wide: seq<File>) {
    exists smallest, largest :: RangeOf(inputs, smallest, largest) && FilesAround(levelZero, files0, smallest.user, largest.user, wide)
  }

  /** The upper inputs grow if that adds a file, takes in no further lower file, and stays below the limit. */
  ghost predicate Grows(files0: seq<File>, files1: seq<File>, own: seq<File>, in1: seq<File>, wide: seq<File>, expandLimit: nat) {
    |wide| > |own| && LowerOf(files0, files1, wide, in1) && TotalFileSize(in1) + TotalFileSize(wide) < expandLimit
  }

  /** The picked files with their boundary files, or all upper files around if the inputs grow, and the lower files
      in their range. */
  ghost predicate Chosen(levelZero: bool, files0: seq<File>, files1: seq<File>, picked: seq<File>, expandLimit: nat,
                         in0: seq<File>, in1: seq<File>)
  {
    exists own, wide :: ChosenFrom(levelZero, files0, files1, picked, expandLimit, in0, in1, own, wide)
  }

  ghost predicate ChosenFrom(levelZero: bool, files0: seq<File>, files1: seq<File>, picked: seq<File>, expandLimit: nat,
                             in0: seq<File>, in1: seq<File>, own: seq<File>, wide: seq<File>)
  {
    && ExtendedBy(FileSet(files0), picked, own) && LowerOf(files0, files1, own, in1)
    && (in1 == [] ==> in0 == own)
    && (in1 != [] ==> WideOf(levelZero, files0, own + in1, wide))
    && (in1 != [] ==> in0 == if Grows(files0, files1, own, in1, wide, expandLimit) then wide else own)
  }

  /** SetupOtherInputs: adds boundary files and the files of the next level, and grows the upper
      inputs when that pulls in no further lower file. */
  method SetupOtherInputs(levelZero: bool, files0: seq<File>, files1: seq<File>, picked: seq<File>, expandLimit: nat)
      returns (in0: seq<File>, in1: seq<File>, lo: UserKey, hi: UserKey)
    requires LevelOk(levelZero, FileSet(files0)) && LevelOk(false, FileSet(files1))
    requires PickedRun(levelZero, FileSet(files0), FileSet(picked)) && picked != []
    ensures FileSet(picked) <= FileSet(in0)
    ensures PickedRun(levelZero, FileSet(files0), FileSet(in0)) && NoBoundaryLeft(FileSet(files0), FileSet(in0))
    ensures Covers(files0, files1, in0, in1, lo, hi)
    ensures NoDuplicates(files0) && NoDuplicates(picked) ==> NoDuplicates(in0)
    ensures NoDuplicates(files1) ==> NoDuplicates(in1)
    ensures LevelList(files1) ==> LevelList(in1)
    ensures !levelZero && LevelList(files0) && LevelList(picked) ==> LevelList(in0)
    ensures in1 == MeetingFiles(files1, Some(lo), Some(hi))
    ensures Chosen(levelZero, files0, files1, picked, expandLimit, in0, in1)
  {
    var own := AddBoundaryInputs(levelZero, files0, picked);
    in0 := own;
    in1, lo, hi := LowerInputs(files0, files1, in0);
    ghost var wide := own;
    if in1 != [] {
      in0, lo, hi, wide := GrowUpper(levelZero, files0, files1, own, in1, lo, hi, expandLimit);
    }
    assert ChosenFrom(levelZero, files0, files1, picked, expandLimit, in0, in1, own, wide);
  }

  /** The second half of SetupOtherInputs: the lower inputs stay, the upper ones may grow. */
  method GrowUpper(levelZero: bool, files0: seq<File>, files1: seq<File>, own: seq<File>, in1: seq<File>,
                   oldLo: UserKey, oldHi: UserKey, expandLimit: nat)
      returns (in0: seq<File>, lo: UserKey, hi: UserKey, ghost wide: seq<File>)
    requires LevelOk(levelZero, FileSet(files0)) && LevelOk(false, FileSet(files1)) && own != []
    requires PickedRun(levelZero, FileSet(files0), FileSet(own)) && NoBoundaryLeft(FileSet(files0), FileSet(own))
    requires Covers(files0, files1, own, in1, oldLo, oldHi) && in1 == MeetingFiles(files1, Some(oldLo), Some(oldHi))
    ensures FileSet(own) <= FileSet(in0)
    ensures PickedRun(levelZero, FileSet(files0), FileSet(in0)) && NoBoundaryLeft(FileSet(files0), FileSet(in0))
    ensures Covers(files0, files1, in0, in1, lo, hi) && in1 == MeetingFiles(files1, Some(lo), Some(hi))
    ensures NoDuplicates(files0) && NoDuplicates(own) ==> NoDuplicates(in0)
    ensures !levelZero && LevelList(files0) && LevelList(own) ==> LevelList(in0)
    ensures WideOf(levelZero, files0, own + in1, wide)
    ensures in0 == if Grows(files0, files1, own, in1, wide, expandLimit) then wide else own
  {
    in0, lo, hi := own, oldLo, oldHi;
    var expanded0 := ExpandUpper(levelZero, files0, own, in1);
    wide := expanded0;
    if |expanded0| > |own| && TotalFileSize(in1) + TotalFileSize(expanded0) < expandLimit {
      var expanded1, newLo, newHi := LowerInputs(files0, files1, expanded0);
      SameLower(files0, files1, own, in1, expanded0, expanded1, lo, hi, newLo, newHi);
      if |expanded1| == |in1| {
        lo, hi, in0 := newLo, newHi, expanded0;
      }
    }
  }

  /** More upper inputs that meet as many lower files meet the same ones. */
  lemma SameLower(files0: seq<File>, files1: seq<File>, in0: seq<File>, in1: seq<File>, wide0: seq<File>, wide1: seq<File>,
                  lo: UserKey, hi: UserKey, newLo: UserKey, newHi: UserKey)
    requires Covers(files0, files1, in0, in1, lo, hi) && Covers(files0, files1, wide0, wide1, newLo, newHi)
    requires FileSet(in0) <= FileSet(wide0)
    requires in1 == MeetingFiles(files1, Some(lo), Some(hi)) && wide1 == MeetingFiles(files1, Some(newLo), Some(newHi))
    ensures |wide1| == |in1| <==> LowerOf(files0, files1, wide0, in1)
    ensures |wide1| == |in1| ==> wide1 == in1
  {
    var f :| f in in0 && f.Smallest().user == lo;
    var g :| g in in0 && g.Largest().user == hi;
    assert f in FileSet(in0) && g in FileSet(in0);
    MeetingGrows(files1, lo, hi, newLo, newHi);
    if LowerOf(files0, files1, wide0, in1) {
      var l, h :| Covers(files0, files1, wide0, in1, l, h) && in1 == MeetingFiles(files1, Some(l), Some(h));
      SameRange(files0, files1, wide0, in1, wide1, l, h, newLo, newHi);
    }
  }

  lemma SameRange(files0: seq<File>, files1: seq<File>, in0: seq<File>, a: seq<File>, b: seq<File>,
                  lo: UserKey, hi: UserKey, lo2: UserKey, hi2: UserKey)
    requires Covers(files0, files1, in0, a, lo, hi) && Covers(files0, files1, in0, b, lo2, hi2)
    ensures lo == lo2 && hi == hi2
  {
    var f, g :| f in in0 && f.Smallest().user == lo && g in in0 && g.Largest().user == hi;
    var f2, g2 :| f2 in in0 && f2.Smallest().user == lo2 && g2 in in0 && g2.Largest().user == hi2;
  }

  lemma {:induction false} MeetingGrows(files: seq<File>, lo: UserKey, hi: UserKey, newLo: UserKey, newHi: UserKey)
    requires newLo <= lo && hi <= newHi
    ensures var small, wide := MeetingFiles(files, Some(lo), Some(hi)), MeetingFiles(files, Some(newLo), Some(newHi));
      |small| <= |wide| && (|small| == |wide| ==> small == wide)
  {
    if files != [] {
      MeetingGrows(files[..|files| - 1], lo, hi, newLo, newHi);
    }
  }

  /** The range of the upper inputs and the lower files meeting it. */
  method LowerInputs(files0: seq<File>, files1: seq<File>, in0: seq<File>)
      returns (in1: seq<File>, lo: UserKey, hi: UserKey)
    requires in0 != [] && FileSet(in0) <= FileSet(files0)
    requires forall f :: f in files1 ==> Sorted(f.entries)
    ensures Covers(files0, files1, in0, in1, lo, hi)
    ensures NoDuplicates(files1) ==> NoDuplicates(in1)
    ensures LevelList(files1) ==> LevelList(in1)
    ensures in1 == MeetingFiles(files1, Some(lo), Some(hi))
  {
    var smallest, largest := GetRange(in0);
    ghost var glo, ghi;
    in1, glo, ghi := GetOverlappingInputs(false, files1, Some(smallest.user), Some(largest.user));
    lo, hi := smallest.user, largest.user;
    forall f | f in in0 ensures f in files0 {
      assert f in FileSet(in0);
    }
  }

  /** The upper files meeting the range of all inputs so far, with their boundary files. */
  method ExpandUpper(levelZero: bool, files0: seq<File>, in0: seq<File>, in1: seq<File>) returns (expanded: seq<File>)
    requires LevelOk(levelZero, FileSet(files0)) && FileSet(in0) <= FileSet(files0) && in0 != []
    ensures FileSet(in0) <= FileSet(expanded)
    ensures PickedRun(levelZero, FileSet(files0), FileSet(expanded)) && NoBoundaryLeft(FileSet(files0), FileSet(expanded))
    ensures NoDuplicates(files0) ==> NoDuplicates(expanded)
    ensures !levelZero && LevelList(files0) ==> LevelList(expanded)
    ensures WideOf(levelZero, files0, in0 + in1, expanded)
  {
    var allStart, allLimit := GetRange(in0 + in1);
    ghost var lo, hi;
    expanded, lo, hi := GetOverlappingInputs(levelZero, files0, Some(allStart.user), Some(allLimit.user));
    MeetingFilesArePicked(levelZero, files0, lo, hi, expanded);
    forall f | f in FileSet(in0) ensures f in expanded {
      assert f in in0 + in1 && f in FileSet(files0);
      FirstNotAfterLast(f);
      assert Meets(f, lo, hi);
    }
    expanded := AddBoundaryInputs(levelZero, files0, expanded);
    assert FilesAround(levelZero, files0, allStart.user, allLimit.user, expanded);
  }

  lemma LevelSeqnosUnique(s: State, level: nat)
    requires |s.levels| == NUM_LEVELS && level < NUM_LEVELS && UniqueSeqnos(All(s))
    ensures UniqueSeqnos(Contents(s.levels[level]))
  {
    forall e | e in Contents(s.levels[level]) ensures e in All(s) {
      InAll(s, level + 2, e);
    }
  }

  /** What SetupOtherInputs chooses is a selection in the sense the compaction proofs need. */
  lemma SetupIsSelection(s: State, level: nat, files0: seq<File>, files1: seq<File>, in0: seq<File>, in1: seq<File>,
                         lo: UserKey, hi: UserKey)
    requires |s.levels| == NUM_LEVELS && level + 1 < NUM_LEVELS && UniqueSeqnos(All(s))
    requires FilesOk(s) && (level > 0 ==> LevelDisjoint(s.levels[level]))
    requires s.levels[level] == FileSet(files0) && s.levels[level + 1] == FileSet(files1)
    requires PickedRun(level == 0, FileSet(files0), FileSet(in0)) && NoBoundaryLeft(FileSet(files0), FileSet(in0))
    requires Covers(files0, files1, in0, in1, lo, hi)
    ensures Selection(s, level, FileSet(in0), FileSet(in1), lo, hi)
  {
    LevelSeqnosUnique(s, level);
    assert FileSet(in0) != {} by {
      var f :| f in in0 && f.Smallest().user == lo;
      assert f in FileSet(in0);
    }
    RunLeavesNothingOlder(level == 0, FileSet(files0), FileSet(in0));
    forall g | g in s.levels[level + 1] ensures g in FileSet(in1) <==> !OutsideUserRange(g, lo, hi) {
      assert Meets(g, Some(lo), Some(hi)) <==> !OutsideUserRange(g, lo, hi);
    }
  }

  /** The lower inputs are closed - no older entry of a selected user key stays behind in the
      lower level - exactly when no file continues the last user key of the lower inputs. */
  lemma LowerInputsClosedIff(s: State, level: nat, in0: set<File>, in1: set<File>, lo: UserKey, hi: UserKey)
    requires Inv(s) && level + 1 < NUM_LEVELS && Selection(s, level, in0, in1, lo, hi)
    ensures Above(Contents(s.levels[level + 1] - in1), Contents(in0) + Contents(in1))
       <==> NoBoundaryLeft(s.levels[level + 1], in1)
  {
    var rest, inputs := Contents(s.levels[level + 1] - in1), Contents(in0) + Contents(in1);
    if NoBoundaryLeft(s.levels[level + 1], in1) {
      InputsInAll(s, level, in0, in1);
      forall x, n | x in rest && n in inputs && x.key.user == n.key.user ensures x.key.seqno > n.key.seqno {
        NoBoundaryMeansNewer(s, level, in0, in1, lo, hi, x, n);
      }
    } else {
      var k, g :| IsLargestKey(in1, k) && g in s.levels[level + 1] && StartsAtBoundary(g, k);
      var f :| f in in1 && f.Largest() == k;
      var last := f.entries[|f.entries| - 1];
      ContentsMember(in1, f, last);
      FirstNotAfterLast(g);
      ContentsMember(s.levels[level + 1] - in1, g, g.entries[0]);
      LowerInputBeforeBoundary(s, level, in1, last, k, g);
    }
  }

  lemma NoBoundaryMeansNewer(s: State, level: nat, in0: set<File>, in1: set<File>, lo: UserKey, hi: UserKey, x: Entry, n: Entry)
    requires |s.levels| == NUM_LEVELS && level + 1 < NUM_LEVELS && FilesOk(s) && LevelDisjoint(s.levels[level + 1])
    requires Recency(s) && UniqueSeqnos(All(s)) && Selection(s, level, in0, in1, lo, hi)
    requires NoBoundaryLeft(s.levels[level + 1], in1)
    requires x in Contents(s.levels[level + 1] - in1) && n in Contents(in0) + Contents(in1) && x.key.user == n.key.user
    ensures x.key.seqno > n.key.seqno
  {
    var h :| h in s.levels[level + 1] - in1 && x in h.entries;
    if x.key.seqno < n.key.seqno {
      var k := LeftBehindIsAtBoundary(s, level, in0, in1, lo, hi, n, h, x);
    }
    if n in Contents(in0) {
      ContentsMember(s.levels[level + 1], h, x);
      var q := InputPlace(s, level, in0, in1, n);
      EarlierPlaceIsNewer(s, level + 2, level + 3, n, x);
    } else {
      InOneFileOnly(s, level + 1, in1, n);
      InputsInAll(s, level, in0, in1);
      ContentsMember(s.levels[level + 1], h, x);
      InAll(s, level + 3, x);
    }
  }

  // ----- Where a flushed memtable goes -----

  /** Why PickLevelForMemTableOutput would not push a new table from `level` one level down. */
  ghost predicate StopsAt(levels: seq<seq<File>>, level: nat, lo: UserKey, hi: UserKey, maxOverlap: nat)
    requires |levels| == NUM_LEVELS && level + 2 < NUM_LEVELS
  {
    || (exists f :: f in levels[level + 1] && Meets(f, Some(lo), Some(hi)))
    || TotalFileSize(MeetingFiles(levels[level + 2], Some(lo), Some(hi))) > maxOverlap
  }

  ghost predicate NoneMeets(files: seq<File>, lo: UserKey, hi: UserKey) {
    forall f :: f in files ==> !Meets(f, Some(lo), Some(hi))
  }

  method PickLevelForMemTableOutput(levels: seq<seq<File>>, lo: UserKey, hi: UserKey, maxOverlap: nat) returns (level: nat)
    requires |levels| == NUM_LEVELS
    requires forall l :: 1 <= l < NUM_LEVELS ==> LevelList(levels[l]) && SeqnosInRange(levels[l])
    requires forall f :: f in levels[0] ==> Sorted(f.entries)
    ensures level <= MAX_MEM_COMPACT_LEVEL
    ensures level > 0 ==> forall l :: 0 <= l <= level ==> NoneMeets(levels[l], lo, hi)
    ensures NoneMeets(levels[0], lo, hi) ==> forall l :: 0 <= l < level ==> !StopsAt(levels, l, lo, hi, maxOverlap)
    ensures NoneMeets(levels[0], lo, hi) && level < MAX_MEM_COMPACT_LEVEL ==> StopsAt(levels, level, lo, hi, maxOverlap)
  {
    level := 0;
    var overlap := SomeFileOverlapsRange(false, levels[0], Some(lo), Some(hi));
    if !overlap {
      assert NoneMeets(levels[0], lo, hi);
      while level < MAX_MEM_COMPACT_LEVEL
        invariant level <= MAX_MEM_COMPACT_LEVEL
        invariant forall l :: 0 <= l <= level ==> NoneMeets(levels[l], lo, hi)
        invariant forall l :: 0 <= l < level ==> !StopsAt(levels, l, lo, hi, maxOverlap)
      {
        overlap := SomeFileOverlapsRange(true, levels[level + 1], Some(lo), Some(hi));
        if overlap {
          break;
        }
        var overlaps, gLo, gHi := GetOverlappingInputs(false, levels[level + 2], Some(lo), Some(hi));
        if TotalFileSize(overlaps) > maxOverlap {
          break;
        }
        assert NoneMeets(levels[level + 1], lo, hi);
        level := level + 1;
      }
    }
  }
}
