/** Looking a user key up in the level files (db/version_set.cc Version::Get). */
module Reads {
  import opened Keys
  import opened LsmState
  import opened FileLists
  import opened Compaction

  /** Newest file first. */
  ghost predicate ByNumberDescending(files: seq<File>) {
    forall i, j :: 0 <= i < j < |files| ==> files[i].number >= files[j].number
  }

  method InsertNewestFirst(files: seq<File>, f: File) returns (r: seq<File>)
    requires ByNumberDescending(files)
    ensures ByNumberDescending(r) && multiset(r) == multiset(files) + multiset{f}
  {
    var i := 0;
    while i < |files| && files[i].number >= f.number
      invariant i <= |files| && forall j :: 0 <= j < i ==> files[j].number >= f.number
    {
      i := i + 1;
    }
    assert files == files[..i] + files[i..];
    r := files[..i] + [f] + files[i..];
  }

  /** std::sort with NewestFirst. */
  method SortNewestFirst(files: seq<File>) returns (sorted: seq<File>)
    ensures ByNumberDescending(sorted) && multiset(sorted) == multiset(files)
  {
    sorted := [];
    for k := 0 to |files|
      invariant ByNumberDescending(sorted) && multiset(sorted) == multiset(files[..k])
    {
      sorted := InsertNewestFirst(sorted, files[k]);
      assert files[..k + 1] == files[..k] + [files[k]];
    }
    assert files[..|files|] == files;
  }

  lemma SameMembers(a: seq<File>, b: seq<File>)
    requires multiset(a) == multiset(b)
    ensures forall f :: f in a <==> f in b
  {
    forall f ensures f in a <==> f in b {
      assert f in a <==> f in multiset(a);
      assert f in b <==> f in multiset(b);
    }
  }

  lemma NoMatchOutsideSpan(f: File, u: UserKey, n: nat)
    requires Sorted(f.entries) && !SpansUserKey(f, u)
    ensures forall e :: e in f.entries ==> !Matches(e, u, n)
  {
    forall e | e in f.entries ensures !Matches(e, u, n) {
      EntryUserInFileRange(f, e);
    }
  }

  /** Level 0: all files spanning the user key, newest first, up to the first hit. */
  method SearchLevelZero(files: seq<File>, u: UserKey, n: nat) returns (r: Option<Entry>)
    requires forall f :: f in files ==> Sorted(f.entries)
    requires Level0Recency(FileSet(files))
    ensures IsNewest(Contents(FileSet(files)), u, n, r)
  {
    var tmp := [];
    for i := 0 to |files|
      invariant forall f :: f in tmp <==> f in files[..i] && SpansUserKey(f, u)
    {
      var f := files[i];
      if u >= f.Smallest().user && u <= f.Largest().user {
        tmp := tmp + [f];
      }
      assert files[..i + 1] == files[..i] + [files[i]];
    }
    assert files[..|files|] == files;
    var candidates := SortNewestFirst(tmp);
    SameMembers(candidates, tmp);
    for i := 0 to |candidates|
      invariant NoMatchInFirst(candidates, i, u, n)
    {
      assert candidates[i] in files;
      r := RunGet(candidates[i].entries, u, n);
      if r.Some? {
        HitAtLevelZero(files, candidates, i, u, n, r.value);
        return;
      }
    }
    r := None;
    MissAtLevelZero(files, candidates, u, n);
  }

  ghost predicate NoMatchInFirst(files: seq<File>, k: nat, u: UserKey, n: nat)
    requires k <= |files|
  {
    forall j, e :: 0 <= j < k && e in files[j].entries ==> !Matches(e, u, n)
  }

  ghost predicate SpanningFiles(files: seq<File>, candidates: seq<File>, u: UserKey) {
    forall f :: f in candidates <==> f in files && SpansUserKey(f, u)
  }

  lemma HitAtLevelZero(files: seq<File>, candidates: seq<File>, i: nat, u: UserKey, n: nat, hit: Entry)
    requires (forall f :: f in files ==> Sorted(f.entries)) && Level0Recency(FileSet(files))
    requires SpanningFiles(files, candidates, u) && ByNumberDescending(candidates) && i < |candidates|
    requires NoMatchInFirst(candidates, i, u, n)
    requires IsNewest(EntrySet(candidates[i].entries), u, n, Some(hit))
    ensures IsNewest(Contents(FileSet(files)), u, n, Some(hit))
  {
    var f := candidates[i];
    assert f in candidates && f in FileSet(files) && hit in f.entries;
    ContentsMember(FileSet(files), f, hit);
    forall e | e in Contents(FileSet(files)) && Matches(e, u, n) ensures e.key.seqno <= hit.key.seqno {
      var g :| g in FileSet(files) && e in g.entries;
      if !SpansUserKey(g, u) {
        NoMatchOutsideSpan(g, u, n);
      }
      assert g in candidates;
      var j :| 0 <= j < |candidates| && candidates[j] == g;
      if g != f {
        assert f.number > g.number;
        assert Above(EntrySet(f.entries), EntrySet(g.entries));
      }
    }
  }

  lemma MissAtLevelZero(files: seq<File>, candidates: seq<File>, u: UserKey, n: nat)
    requires forall f :: f in files ==> Sorted(f.entries)
    requires SpanningFiles(files, candidates, u)
    requires NoMatchInFirst(candidates, |candidates|, u, n)
    ensures IsNewest(Contents(FileSet(files)), u, n, None)
  {
    forall e | e in Contents(FileSet(files)) ensures !Matches(e, u, n) {
      var g :| g in FileSet(files) && e in g.entries;
      if SpansUserKey(g, u) {
        assert g in candidates;
        var j :| 0 <= j < |candidates| && candidates[j] == g;
      } else {
        NoMatchOutsideSpan(g, u, n);
      }
    }
  }

  /** A deeper level: the one file whose range can hold the newest readable entry, even when the
      versions of a user key continue in the next file. */
  method SearchLevel(files: seq<File>, u: UserKey, n: nat) returns (r: Option<Entry>)
    requires LevelList(files)
    ensures IsNewest(Contents(FileSet(files)), u, n, r)
  {
    r := None;
    var index := FindFile(files, LookupKey(u, n));
    if index < |files| {
      if u < files[index].Smallest().user {
        NothingAtOrAfter(files, index, u, n);
      } else {
        r := RunGet(files[index].entries, u, n);
        OneFileSuffices(files, index, u, n, r);
      }
    } else {
      NothingAtOrAfter(files, index, u, n);
    }
  }

  lemma EntryInList(files: seq<File>, e: Entry) returns (j: nat)
    requires e in Contents(FileSet(files))
    ensures j < |files| && e in files[j].entries
  {
    var g :| g in FileSet(files) && e in g.entries;
    j :| 0 <= j < |files| && files[j] == g;
  }

  lemma BeforeIndexNoMatch(files: seq<File>, index: nat, j: nat, u: UserKey, n: nat, e: Entry)
    requires LevelList(files) && j < |files| && e in files[j].entries
    requires Less(files[j].Largest(), LookupKey(u, n))
    ensures !Matches(e, u, n)
  {
    EntryUserInFileRange(files[j], e);
  }

  lemma NothingAtOrAfter(files: seq<File>, index: nat, u: UserKey, n: nat)
    requires LevelList(files) && index <= |files|
    requires forall i :: 0 <= i < index ==> Less(files[i].Largest(), LookupKey(u, n))
    requires index < |files| ==> u < files[index].Smallest().user
    ensures IsNewest(Contents(FileSet(files)), u, n, None)
  {
    forall e | e in Contents(FileSet(files)) ensures !Matches(e, u, n) {
      var j := EntryInList(files, e);
      if j < index {
        BeforeIndexNoMatch(files, index, j, u, n, e);
      } else {
        EntryUserInFileRange(files[j], e);
        if index < j {
          LargestAscending(files, index, j);
          FirstNotAfterLast(files[index]);
        }
      }
    }
  }

  lemma OneFileSuffices(files: seq<File>, index: nat, u: UserKey, n: nat, r: Option<Entry>)
    requires LevelList(files) && index < |files|
    requires forall i :: 0 <= i < index ==> Less(files[i].Largest(), LookupKey(u, n))
    requires !Less(files[index].Largest(), LookupKey(u, n)) && files[index].Smallest().user <= u
    requires IsNewest(EntrySet(files[index].entries), u, n, r)
    ensures IsNewest(Contents(FileSet(files)), u, n, r)
  {
    var f := files[index];
    assert f in FileSet(files);
    if r.Some? {
      ContentsMember(FileSet(files), f, r.value);
    }
    forall e | e in Contents(FileSet(files)) && Matches(e, u, n)
      ensures r.Some? && e.key.seqno <= r.value.key.seqno
    {
      var j := EntryInList(files, e);
      if j < index {
        BeforeIndexNoMatch(files, index, j, u, n, e);
      } else if index < j {
        LaterFileIsOlder(files, index, j, u, n, e);
      }
    }
  }

  /** A match in a later file means the probed file ends with the same user key, at or after the
      sought key: its last entry is a match too, and newer. */
  lemma LaterFileIsOlder(files: seq<File>, index: nat, j: nat, u: UserKey, n: nat, e: Entry)
    requires LevelList(files) && index < j < |files| && e in files[j].entries && Matches(e, u, n)
    requires !Less(files[index].Largest(), LookupKey(u, n))
    ensures exists x :: x in files[index].entries && Matches(x, u, n) && e.key.seqno <= x.key.seqno
  {
    var f := files[index];
    EntryUserInFileRange(files[j], e);
    assert Less(f.Largest(), files[j].Smallest());
    var x := f.entries[|f.entries| - 1];
    assert x in f.entries && Matches(x, u, n) && e.key.seqno <= x.key.seqno;
  }

  /** Places first, ..., last - 1 hold nothing readable of the user key. */
  ghost predicate NoMatchInPlaces(s: State, first: nat, last: nat, u: UserKey, n: nat)
    requires |s.levels| == NUM_LEVELS && last <= PLACES
  {
    forall q, e :: first <= q < last && e in Place(s, q) ==> !Matches(e, u, n)
  }

  /** All levels, top down, to the first hit. */
  method VersionGet(ghost s: State, levels: seq<seq<File>>, u: UserKey, n: nat) returns (r: Option<Entry>, ghost at: nat)
    requires |s.levels| == NUM_LEVELS && |levels| == NUM_LEVELS
    requires forall l :: 0 <= l < NUM_LEVELS ==> s.levels[l] == FileSet(levels[l])
    requires FilesOk(s) && Level0Recency(s.levels[0])
    requires forall l :: 1 <= l < NUM_LEVELS ==> LevelList(levels[l])
    ensures r.Some? ==> at < PLACES && IsNewest(Place(s, at), u, n, r)
    ensures r.None? ==> at == PLACES
    ensures 2 <= at && NoMatchInPlaces(s, 2, at, u, n)
  {
    at := 2;
    for level := 0 to NUM_LEVELS
      invariant at == level + 2
      invariant NoMatchInPlaces(s, 2, at, u, n)
    {
      if level == 0 {
        assert forall f :: f in levels[0] ==> f in s.levels[0];
        r := SearchLevelZero(levels[0], u, n);
      } else {
        r := SearchLevel(levels[level], u, n);
      }
      assert Place(s, level + 2) == Contents(FileSet(levels[level]));
      if r.Some? {
        return;
      }
      at := at + 1;
    }
    r := None;
  }

  /** Stopping at the first place with a hit is right because newer data lies higher. */
  lemma FirstHitIsNewest(s: State, p: nat, u: UserKey, n: nat, hit: Entry)
    requires |s.levels| == NUM_LEVELS && Recency(s) && p < PLACES
    requires IsNewest(Place(s, p), u, n, Some(hit))
    requires NoMatchInPlaces(s, 0, p, u, n)
    ensures IsNewest(All(s), u, n, Some(hit))
  {
    InAll(s, p, hit);
    forall e | e in All(s) && Matches(e, u, n) ensures e.key.seqno <= hit.key.seqno {
      var q :| 0 <= q < PLACES && e in Place(s, q);
      if p < q {
        assert Above(Place(s, p), Place(s, q));
      }
    }
  }

  lemma NoHitMeansNothing(s: State, u: UserKey, n: nat)
    requires |s.levels| == NUM_LEVELS
    requires NoMatchInPlaces(s, 0, PLACES, u, n)
    ensures IsNewest(All(s), u, n, None)
  {
  }
}
