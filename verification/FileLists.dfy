/** Questions the store asks of the file list of one level (db/version_set.cc). */
module FileLists {
  import opened Keys
  import opened LsmState

  function FileSet(files: seq<File>): set<File> {
    set f | f in files
  }

  /** A level >= 1: files in ascending, disjoint key ranges. */
  ghost predicate LevelList(files: seq<File>) {
    && (forall i :: 0 <= i < |files| ==> Sorted(files[i].entries))
    && (forall i, j :: 0 <= i < j < |files| ==> Less(files[i].Largest(), files[j].Smallest()))
  }

  lemma LevelListAppend(files: seq<File>, f: File)
    requires LevelList(files) && Sorted(f.entries)
    requires forall i :: 0 <= i < |files| ==> Less(files[i].Largest(), f.Smallest())
    ensures LevelList(files + [f])
  {}

  ghost predicate SeqnosInRange(files: seq<File>) {
    forall i :: 0 <= i < |files| ==> files[i].Largest().seqno <= MAX_SEQUENCE
  }

  lemma FirstNotAfterLast(f: File)
    requires Sorted(f.entries)
    ensures !Less(f.Largest(), f.Smallest())
  {
    assert |f.entries| > 1 ==> Less(f.entries[0].key, f.entries[|f.entries| - 1].key);
  }

  lemma LargestAscending(files: seq<File>, i: nat, j: nat)
    requires LevelList(files) && i < j < |files|
    ensures Less(files[i].Largest(), files[j].Largest())
    ensures files[i].Largest().user <= files[j].Smallest().user <= files[j].Largest().user
  {
    FirstNotAfterLast(files[j]);
  }

  /** Binary search: the first file whose largest key is at or after `key`. */
  method FindFile(files: seq<File>, key: InternalKey) returns (right: nat)
    requires LevelList(files)
    ensures right <= |files|
    ensures forall i :: 0 <= i < right ==> Less(files[i].Largest(), key)
    ensures forall i :: right <= i < |files| ==> !Less(files[i].Largest(), key)
  {
    var left := 0;
    right := |files|;
    while left < right
      invariant left <= right <= |files|
      invariant forall i :: 0 <= i < left ==> Less(files[i].Largest(), key)
      invariant forall i :: right <= i < |files| ==> !Less(files[i].Largest(), key)
    {
      var mid := (left + right) / 2;
      if Less(files[mid].Largest(), key) {
        forall i | 0 <= i < mid ensures Less(files[i].Largest(), key) {
          LargestAscending(files, i, mid);
        }
        left := mid + 1;
      } else {
        forall i | mid < i < |files| ensures !Less(files[i].Largest(), key) {
          LargestAscending(files, mid, i);
        }
        right := mid;
      }
    }
  }

  /** No bound occurs before (as a start) or after (as an end) every key. */
  predicate AfterFile(user: Option<UserKey>, f: File) {
    user.Some? && user.value > f.Largest().user
  }

  predicate BeforeFile(user: Option<UserKey>, f: File) {
    user.Some? && user.value < f.Smallest().user
  }

  predicate Meets(f: File, lo: Option<UserKey>, hi: Option<UserKey>) {
    !AfterFile(lo, f) && !BeforeFile(hi, f)
  }

  /** Whether some file meets the user-key range; one probe suffices on a disjoint level. */
  method SomeFileOverlapsRange(disjointSorted: bool, files: seq<File>, lo: Option<UserKey>, hi: Option<UserKey>)
      returns (overlap: bool)
    requires disjointSorted ==> LevelList(files) && SeqnosInRange(files)
    ensures overlap <==> exists i :: 0 <= i < |files| && Meets(files[i], lo, hi)
  {
    if !disjointSorted {
      for i := 0 to |files|
        invariant forall j :: 0 <= j < i ==> !Meets(files[j], lo, hi)
      {
        if !AfterFile(lo, files[i]) && !BeforeFile(hi, files[i]) {
          return true;
        }
      }
      return false;
    }
    var index := 0;
    if lo.Some? {
      index := FindFile(files, InternalKey(lo.value, MAX_SEQUENCE, Put));
    }
    assert forall i :: 0 <= i < index ==> AfterFile(lo, files[i]);
    if index >= |files| {
      return false;
    }
    overlap := !BeforeFile(hi, files[index]);
    if overlap {
      assert Meets(files[index], lo, hi);
    } else {
      forall i | index < i < |files| ensures BeforeFile(hi, files[i]) {
        LargestAscending(files, index, i);
        FirstNotAfterLast(files[index]);
      }
    }
  }

  function TotalFileSize(files: seq<File>): nat {
    if files == [] then 0 else files[0].size + TotalFileSize(files[1..])
  }

  lemma {:induction false} TotalFileSizeAdds(a: seq<File>, b: seq<File>)
    ensures TotalFileSize(a + b) == TotalFileSize(a) + TotalFileSize(b)
    decreases a
  {
    if a == [] {
      assert a + b == b;
    } else {
      assert (a + b)[1..] == a[1..] + b;
      TotalFileSizeAdds(a[1..], b);
    }
  }

  lemma TotalOfOne(f: File)
    ensures TotalFileSize([f]) == f.size
  {
    assert [f][1..] == [];
  }

  /** The files meeting a range, in list order. */
  ghost predicate FilesMeeting(files: seq<File>, lo: Option<UserKey>, hi: Option<UserKey>, inputs: seq<File>) {
    forall f :: f in inputs <==> f in files && Meets(f, lo, hi)
  }

  function MeetingFiles(files: seq<File>, lo: Option<UserKey>, hi: Option<UserKey>): seq<File> {
    if files == [] then [] else
    var f := files[|files| - 1];
    MeetingFiles(files[..|files| - 1], lo, hi) + (if Meets(f, lo, hi) then [f] else [])
  }

  ghost predicate NoDuplicates(files: seq<File>) {
    forall i, j :: 0 <= i < j < |files| ==> files[i] != files[j]
  }

  lemma MeetingKeepsDistinct(files: seq<File>, lo: Option<UserKey>, hi: Option<UserKey>)
    requires NoDuplicates(files)
    ensures NoDuplicates(MeetingFiles(files, lo, hi))
    ensures forall f :: f in MeetingFiles(files, lo, hi) ==> f in files
  {
    if files != [] {
      var init := files[..|files| - 1];
      MeetingKeepsDistinct(init, lo, hi);
      assert files == init + [files[|files| - 1]];
      assert files[|files| - 1] !in init;
    }
  }

  predicate InsideRange(f: File, lo: Option<UserKey>, hi: Option<UserKey>) {
    (lo.Some? ==> lo.value <= f.Smallest().user) && (hi.Some? ==> f.Largest().user <= hi.value)
  }

  /** The range swallows every file it meets. */
  ghost predicate RangeClosed(files: seq<File>, lo: Option<UserKey>, hi: Option<UserKey>) {
    forall f :: f in files && Meets(f, lo, hi) ==> InsideRange(f, lo, hi)
  }

  /** [lo, hi] lies within [lo2, hi2]; a missing bound is infinite. */
  predicate RangeWithin(lo: Option<UserKey>, hi: Option<UserKey>, lo2: Option<UserKey>, hi2: Option<UserKey>) {
    && (lo2.Some? ==> lo.Some? && lo2.value <= lo.value)
    && (hi2.Some? ==> hi.Some? && hi.value <= hi2.value)
  }

  /** [lo, hi] is contained in every closed range around [begin, end]. */
  ghost predicate InEveryClosedRange(files: seq<File>, begin: Option<UserKey>, end: Option<UserKey>,
                                     lo: Option<UserKey>, hi: Option<UserKey>) {
    forall lo2, hi2 :: RangeWithin(begin, end, lo2, hi2) && RangeClosed(files, lo2, hi2) ==> RangeWithin(lo, hi, lo2, hi2)
  }

  lemma GrowthIsForced(files: seq<File>, begin: Option<UserKey>, end: Option<UserKey>,
                       lo: Option<UserKey>, hi: Option<UserKey>, f: File)
    requires InEveryClosedRange(files, begin, end, lo, hi) && f in files && Sorted(f.entries) && Meets(f, lo, hi)
    ensures lo.Some? && f.Smallest().user < lo.value ==> InEveryClosedRange(files, begin, end, Some(f.Smallest().user), hi)
    ensures hi.Some? && f.Largest().user > hi.value ==> InEveryClosedRange(files, begin, end, lo, Some(f.Largest().user))
  {
    forall lo2, hi2 | RangeWithin(begin, end, lo2, hi2) && RangeClosed(files, lo2, hi2)
      ensures RangeWithin(lo, hi, lo2, hi2) && InsideRange(f, lo2, hi2)
    {
      assert Meets(f, lo2, hi2);
    }
  }

  /** GetOverlappingInputs: the files meeting [begin, end]. At level 0, where files may overlap,
      the range first grows to the least one that contains every file it meets; each growth
      restarts the scan. */
  method GetOverlappingInputs(levelZero: bool, files: seq<File>, begin: Option<UserKey>, end: Option<UserKey>)
      returns (inputs: seq<File>, ghost lo: Option<UserKey>, ghost hi: Option<UserKey>)
    requires forall f :: f in files ==> Sorted(f.entries)
    ensures FilesMeeting(files, lo, hi, inputs) && inputs == MeetingFiles(files, lo, hi)
    ensures |inputs| <= |files|
    ensures !levelZero && LevelList(files) ==> LevelList(inputs)
    ensures NoDuplicates(files) ==> NoDuplicates(inputs)
    ensures !levelZero ==> lo == begin && hi == end
    ensures lo.Some? == begin.Some? && hi.Some? == end.Some? && RangeWithin(begin, end, lo, hi)
    ensures levelZero ==> RangeClosed(files, lo, hi)
    ensures levelZero ==> InEveryClosedRange(files, begin, end, lo, hi)
  {
    inputs := [];
    var userBegin, userEnd := begin, end;
    var i := 0;
    while i < |files|
      invariant 0 <= i <= |files| && |inputs| <= i
      invariant Scanned(files, i, levelZero, userBegin, userEnd, inputs)
      invariant !levelZero ==> userBegin == begin && userEnd == end
      invariant !levelZero && LevelList(files) ==> TakenInOrder(files, i, inputs)
      invariant userBegin.Some? == begin.Some? && userEnd.Some? == end.Some?
      invariant RangeWithin(begin, end, userBegin, userEnd)
      invariant levelZero ==> InEveryClosedRange(files, begin, end, userBegin, userEnd)
      decreases StickingOut(files, userBegin, userEnd), |files| - i
    {
      var f := files[i];
      ScanOneMore(files, i, levelZero, userBegin, userEnd, inputs);
      if !levelZero && LevelList(files) {
        TakeOneMore(files, i, inputs);
      }
      i := i + 1;
      if AfterFile(userBegin, f) || BeforeFile(userEnd, f) {
        // completely outside the range; skip it
      } else {
        inputs := inputs + [f];
        if levelZero {
          if userBegin.Some? && f.Smallest().user < userBegin.value {
            GrowingSwallows(files, userBegin, userEnd, Some(f.Smallest().user), userEnd, f);
            GrowthIsForced(files, begin, end, userBegin, userEnd, f);
            userBegin := Some(f.Smallest().user);
            inputs := [];
            i := 0;
          } else if userEnd.Some? && f.Largest().user > userEnd.value {
            GrowingSwallows(files, userBegin, userEnd, userBegin, Some(f.Largest().user), f);
            GrowthIsForced(files, begin, end, userBegin, userEnd, f);
            userEnd := Some(f.Largest().user);
            inputs := [];
            i := 0;
          }
        }
      }
    }
    assert files[..i] == files;
    lo, hi := userBegin, userEnd;
    if NoDuplicates(files) {
      MeetingKeepsDistinct(files, lo, hi);
    }
  }

  /** The files taken so far are in ascending order and come from the scanned part. */
  ghost predicate TakenInOrder(files: seq<File>, i: nat, inputs: seq<File>)
    requires i <= |files|
  {
    LevelList(inputs) && forall f :: f in inputs ==> f in files[..i]
  }

  lemma TakeOneMore(files: seq<File>, i: nat, inputs: seq<File>)
    requires i < |files| && LevelList(files) && TakenInOrder(files, i, inputs)
    ensures TakenInOrder(files, i + 1, inputs) && TakenInOrder(files, i + 1, inputs + [files[i]])
  {
    forall f | f in inputs ensures f in files[..i + 1] && Less(f.Largest(), files[i].Smallest()) {
      var j :| 0 <= j < i && files[j] == f;
      assert files[..i + 1][j] == f;
    }
    assert files[..i + 1][i] == files[i];
  }

  /** The scan has taken exactly the files meeting the range so far, and none sticks out at level 0. */
  ghost predicate Scanned(files: seq<File>, i: nat, levelZero: bool, lo: Option<UserKey>, hi: Option<UserKey>, inputs: seq<File>)
    requires i <= |files|
  {
    && FilesMeeting(files[..i], lo, hi, inputs)
    && inputs == MeetingFiles(files[..i], lo, hi)
    && (levelZero ==> RangeClosed(files[..i], lo, hi))
  }

  lemma ScanOneMore(files: seq<File>, i: nat, levelZero: bool, lo: Option<UserKey>, hi: Option<UserKey>, inputs: seq<File>)
    requires i < |files| && Scanned(files, i, levelZero, lo, hi, inputs)
    ensures !Meets(files[i], lo, hi) ==> Scanned(files, i + 1, levelZero, lo, hi, inputs)
    ensures Meets(files[i], lo, hi) && (levelZero ==> InsideRange(files[i], lo, hi)) ==>
      Scanned(files, i + 1, levelZero, lo, hi, inputs + [files[i]])
  {
    assert files[..i + 1] == files[..i] + [files[i]];
    assert files[..i + 1][..i] == files[..i];
  }

  /** The files whose start lies before the range, and those whose end lies after it. */
  ghost function StartsBefore(files: seq<File>, lo: Option<UserKey>): set<File> {
    set f | f in files && lo.Some? && f.Smallest().user < lo.value
  }

  ghost function EndsAfter(files: seq<File>, hi: Option<UserKey>): set<File> {
    set f | f in files && hi.Some? && f.Largest().user > hi.value
  }

  ghost function StickingOut(files: seq<File>, lo: Option<UserKey>, hi: Option<UserKey>): nat {
    |StartsBefore(files, lo)| + |EndsAfter(files, hi)|
  }

  lemma SmallerSubset<T>(a: set<T>, b: set<T>)
    requires a < b
    ensures |a| < |b|
  {
    assert !(b <= a);
    var x :| x in b && x !in a;
    assert a <= b - {x};
    Subset(a, b - {x});
  }

  lemma Subset<T>(a: set<T>, b: set<T>)
    requires a <= b
    ensures |a| <= |b|
  {
    if a != {} {
      var x :| x in a;
      Subset(a - {x}, b - {x});
    }
  }

  /** Growing one bound to a file that stuck out on that side leaves fewer files sticking out,
      so the restarted scan ends. */
  lemma GrowingSwallows(files: seq<File>, lo: Option<UserKey>, hi: Option<UserKey>, lo2: Option<UserKey>, hi2: Option<UserKey>, f: File)
    requires f in files && lo.Some? == lo2.Some? && hi.Some? == hi2.Some?
    requires RangeWithin(lo, hi, lo2, hi2)
    requires (lo.Some? && lo2 == Some(f.Smallest().user) && lo2.value < lo.value && hi2 == hi)
          || (hi.Some? && hi2 == Some(f.Largest().user) && hi.value < hi2.value && lo2 == lo)
    ensures StickingOut(files, lo2, hi2) < StickingOut(files, lo, hi)
  {
    if lo2 != lo {
      assert f in StartsBefore(files, lo) && f !in StartsBefore(files, lo2);
      SmallerSubset(StartsBefore(files, lo2), StartsBefore(files, lo));
    } else {
      assert f in EndsAfter(files, hi) && f !in EndsAfter(files, hi2);
      SmallerSubset(EndsAfter(files, hi2), EndsAfter(files, hi));
    }
  }
}
