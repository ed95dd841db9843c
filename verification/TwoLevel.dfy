/** The files of a level read as one run (table/two_level_iterator.cc over Version::LevelFileNumIterator of
    db/version_set.cc): the iterator behaves as a cursor over the entries of the files put end to end. */
module TwoLevel {
  import opened Keys
  import opened LsmState
  import opened FileLists
  import opened Merger

  /** The entries of the files, one file after the other. */
  function Joined(files: seq<File>): seq<Entry> {
    if files == [] then [] else Joined(files[..|files| - 1]) + files[|files| - 1].entries
  }

  /** Where the entries of file i start. */
  function Offset(files: seq<File>, i: nat): nat
    requires i <= |files|
  {
    |Joined(files[..i])|
  }

  lemma {:induction false} JoinedPrefix(files: seq<File>, i: nat)
    requires i <= |files|
    ensures Joined(files[..i]) <= Joined(files)
  {
    if i == |files| {
      assert files[..i] == files;
    } else {
      var n := |files| - 1;
      JoinedPrefix(files[..n], i);
      assert files[..n][..i] == files[..i];
    }
  }

  /** File i holds the entries from its offset up to that of the next file. */
  lemma JoinedAt(files: seq<File>, i: nat)
    requires i < |files|
    ensures Offset(files, i + 1) == Offset(files, i) + |files[i].entries| <= |Joined(files)|
    ensures Joined(files)[Offset(files, i)..Offset(files, i + 1)] == files[i].entries
  {
    var head := files[..i + 1];
    assert head[..i] == files[..i];
    assert Joined(head) == Joined(files[..i]) + files[i].entries;
    JoinedPrefix(files, i + 1);
    assert Joined(files)[..|Joined(head)|] == Joined(head);
  }

  lemma JoinedEntry(files: seq<File>, i: nat, q: nat)
    requires i < |files| && q < |files[i].entries|
    ensures Offset(files, i) + q < |Joined(files)| && Joined(files)[Offset(files, i) + q] == files[i].entries[q]
  {
    JoinedAt(files, i);
    assert Joined(files)[Offset(files, i)..Offset(files, i + 1)][q] == files[i].entries[q];
  }

  lemma JoinedEnds(files: seq<File>)
    ensures Offset(files, 0) == 0 && Offset(files, |files|) == |Joined(files)|
  {
    assert files[..|files|] == files;
  }

  lemma {:induction false} JoinedContents(files: seq<File>)
    ensures EntrySet(Joined(files)) == Contents(FileSet(files))
  {
    if files != [] {
      var init, last := files[..|files| - 1], files[|files| - 1];
      JoinedContents(init);
      assert files == init + [last];
      assert FileSet(files) == FileSet(init) + {last};
      assert EntrySet(Joined(files)) == EntrySet(Joined(init)) + EntrySet(last.entries);
      AddFileContents(FileSet(init), last);
    }
  }

  /** Files in ascending, disjoint ranges make one sorted run. */
  lemma {:induction false} JoinedSorted(files: seq<File>)
    requires LevelList(files)
    ensures Sorted(Joined(files))
    ensures forall e :: e in Joined(files) ==> !Less(files[|files| - 1].Largest(), e.key)
  {
    if files != [] {
      var init, last := files[..|files| - 1], files[|files| - 1];
      JoinedSorted(init);
      FirstNotAfterLast(last);
      forall e | e in Joined(init) ensures Less(e.key, last.Smallest()) {
        assert Less(files[|files| - 2].Largest(), last.Smallest());
      }
      SortedConcat(Joined(init), last.entries);
      forall e | e in last.entries ensures !Less(last.Largest(), e.key) {
        var q :| 0 <= q < |last.entries| && last.entries[q] == e;
      }
    }
  }

  lemma SortedConcat(a: seq<Entry>, b: seq<Entry>)
    requires Sorted(a) && Sorted(b) && b != [] && forall e :: e in a ==> Less(e.key, b[0].key)
    ensures Sorted(a + b)
  {}

  /** In a sorted run the neighbour decides. */
  lemma SplitsRun(run: seq<Entry>, p: nat, k: InternalKey)
    requires Sorted(run) && p <= |run|
    requires (p < |run| ==> !Less(run[p].key, k)) && (p > 0 ==> Less(run[p - 1].key, k))
    ensures NotBefore(run, if p < |run| then Some(p) else None, k)
  {}

  class LevelFileNumIterator {
    const files: seq<File>
    var index: nat

    constructor (files: seq<File>)
      ensures this.files == files && index == |files|
    {
      this.files, index := files, |files|;
    }

    predicate Valid()
      reads this
    {
      index < |files|
    }

    method Seek(target: InternalKey)
      requires LevelList(files)
      modifies this
      ensures index <= |files| && (forall i :: 0 <= i < index ==> Less(files[i].Largest(), target))
      ensures Valid() ==> !Less(files[index].Largest(), target)
    {
      index := FindFile(files, target);
    }

    method SeekToFirst()
      modifies this
      ensures index == 0
    {
      index := 0;
    }

    method SeekToLast()
      modifies this
      ensures index == if files == [] then 0 else |files| - 1
    {
      index := if files == [] then 0 else |files| - 1;
    }

    method Next()
      requires Valid()
      modifies this
      ensures index == old(index) + 1
    {
      index := index + 1;
    }

    method Prev()
      requires Valid()
      modifies this
      ensures index == if old(index) == 0 then |files| else old(index) - 1
    {
      index := if index == 0 then |files| else index - 1;
    }
  }

  /** Number and size, which the index gives for a file, tell the files apart. */
  ghost predicate HandlesDiffer(files: seq<File>) {
    forall i, j :: 0 <= i < j < |files| ==> files[i].number != files[j].number || files[i].size != files[j].size
  }

  class TwoLevelIterator {
    const indexIter: LevelFileNumIterator
    /** The iterator over the entries of `current`, or None for a null pointer. */
    var data: Option<Cursor>
    var current: File

    ghost function Files(): seq<File> { indexIter.files }

    ghost function List(): seq<Entry> { Joined(Files()) }

    /** The data iterator, if there is one, reads the file of the index; it may be at its end. */
    ghost predicate Reading()
      reads this, indexIter
    {
      && LevelList(Files()) && HandlesDiffer(Files()) && indexIter.index <= |Files()|
      && (data.Some? <==> indexIter.index < |Files()|)
      && (data.Some? ==> current == Files()[indexIter.index] && InRun(current.entries, data.value))
    }

    /** Between calls the iterator is on an entry, or past either end. */
    ghost predicate Ok()
      reads this, indexIter
    {
      Reading() && (data.Some? ==> data.value.Some?)
    }

    /** The position in the whole list. */
    ghost function At(): Cursor
      requires Ok()
      reads this, indexIter
    {
      if data.Some? then Some(Offset(Files(), indexIter.index) + data.value.value) else None
    }

    constructor (files: seq<File>)
      requires LevelList(files) && HandlesDiffer(files)
      ensures Ok() && Files() == files && At() == None && fresh(indexIter)
    {
      indexIter := new LevelFileNumIterator(files);
      data := None;
      current := File(0, 0, [Entry(InternalKey(0.0, 0, Put), [])]);
    }

    method InitDataBlock()
      requires LevelList(Files()) && HandlesDiffer(Files()) && indexIter.index <= |Files()|
      requires data.Some? ==> current in Files() && InRun(current.entries, data.value)
      modifies this
      ensures Reading()
    {
      if !indexIter.Valid() {
        data := None;
      } else {
        var f := indexIter.files[indexIter.index];
        if data.Some? && current.number == f.number && current.size == f.size {
          assert current == f;
        } else {
          data, current := Some(None), f;
        }
      }
    }

    /** The entry the iterator is on, or the one after the file it has finished, is number p. */
    ghost predicate Ahead(p: nat)
      reads this, indexIter
    {
      && Reading()
      && p == if data.None? then |List()|
              else if data.value.Some? then Offset(Files(), indexIter.index) + data.value.value
              else Offset(Files(), indexIter.index + 1)
    }

    /** One turn of SkipEmptyDataBlocksForward. */
    method NextDataBlock(ghost p: nat)
      requires Ahead(p) && indexIter.Valid() && data.value.None?
      modifies this, indexIter
      ensures Ahead(p) && indexIter.index == old(indexIter.index) + 1
    {
      indexIter.Next();
      JoinedEnds(Files());
      InitDataBlock();
      if data.Some? {
        data := Some(if current.entries == [] then None else Some(0));
      }
    }

    method SkipEmptyDataBlocksForward(ghost p: nat)
      requires Ahead(p)
      modifies this, indexIter
      ensures Ok() && At() == if p < |List()| then Some(p) else None
    {
      while data.None? || data.value.None?
        invariant Ahead(p)
        decreases |Files()| - indexIter.index
      {
        if !indexIter.Valid() {
          data := None;
          return;
        }
        NextDataBlock(p);
      }
      JoinedEntry(Files(), indexIter.index, data.value.value);
    }

    /** The entry the iterator is on, or the one before the file it has finished, is number p - 1. */
    ghost predicate Behind(p: nat)
      reads this, indexIter
    {
      && Reading()
      && p == if data.None? then 0
              else if data.value.Some? then Offset(Files(), indexIter.index) + data.value.value + 1
              else Offset(Files(), indexIter.index)
    }

    /** One turn of SkipEmptyDataBlocksBackward. */
    method PrevDataBlock(ghost p: nat)
      requires Behind(p) && indexIter.Valid() && data.value.None?
      modifies this, indexIter
      ensures Behind(p) && indexIter.index == if old(indexIter.index) == 0 then |Files()| else old(indexIter.index) - 1
    {
      JoinedEnds(Files());
      if indexIter.index > 0 {
        JoinedAt(Files(), indexIter.index - 1);
      }
      indexIter.Prev();
      InitDataBlock();
      if data.Some? {
        data := Some(if current.entries == [] then None else Some(|current.entries| - 1));
      }
    }

    method SkipEmptyDataBlocksBackward(ghost p: nat)
      requires Behind(p)
      modifies this, indexIter
      ensures Ok() && At() == if p > 0 then Some(p - 1) else None
    {
      while data.None? || data.value.None?
        invariant Behind(p)
        decreases if indexIter.index < |Files()| then indexIter.index + 1 else 0
      {
        if !indexIter.Valid() {
          data := None;
          return;
        }
        PrevDataBlock(p);
      }
    }

    /** The first entry not before the target, in whichever file it is. */
    method Seek(target: InternalKey)
      requires Ok()
      modifies this, indexIter
      ensures Ok() && NotBefore(List(), At(), target)
    {
      indexIter.Seek(target);
      InitDataBlock();
      var c: Cursor := None;
      if data.Some? {
        c := SeekRun(current.entries, target);
        data := Some(c);
      }
      ghost var found := SoughtAt(Files(), indexIter.index, c, target);
      SkipEmptyDataBlocksForward(if found.Some? then found.value else |List()|);
    }

    method SeekToFirst()
      requires Ok()
      modifies this, indexIter
      ensures Ok() && AtFirst(List(), At())
    {
      indexIter.SeekToFirst();
      InitDataBlock();
      JoinedEnds(Files());
      if data.Some? {
        data := Some(if current.entries == [] then None else Some(0));
      }
      SkipEmptyDataBlocksForward(0);
    }

    method SeekToLast()
      requires Ok()
      modifies this, indexIter
      ensures Ok() && AtLast(List(), At())
    {
      indexIter.SeekToLast();
      InitDataBlock();
      JoinedEnds(Files());
      if data.Some? {
        JoinedAt(Files(), indexIter.index);
        data := Some(if current.entries == [] then None else Some(|current.entries| - 1));
      }
      SkipEmptyDataBlocksBackward(|List()|);
    }

    method Next()
      requires Ok() && At().Some?
      modifies this, indexIter
      ensures Ok() && At() == Advance(List(), old(At()))
    {
      ghost var p := At().value;
      JoinedAt(Files(), indexIter.index);
      data := Some(Advance(current.entries, data.value));
      SkipEmptyDataBlocksForward(p + 1);
    }

    method Prev()
      requires Ok() && At().Some?
      modifies this, indexIter
      ensures Ok() && At() == Retreat(old(At()))
    {
      ghost var p := At().value;
      data := Some(Retreat(data.value));
      SkipEmptyDataBlocksBackward(p);
    }
  }

  /** Seeking the file and then within the file finds the entry in the whole list. */
  lemma SoughtAt(files: seq<File>, i: nat, c: Cursor, target: InternalKey) returns (found: Cursor)
    requires LevelList(files) && i <= |files| && forall j :: 0 <= j < i ==> Less(files[j].Largest(), target)
    requires if i < |files| then !Less(files[i].Largest(), target) && NotBefore(files[i].entries, c, target) else c == None
    ensures InRun(Joined(files), found) && NotBefore(Joined(files), found, target)
    ensures if i < |files| then c.Some? && found == Some(Offset(files, i) + c.value) else found == None
  {
    JoinedSorted(files);
    JoinedEnds(files);
    if i < |files| {
      assert c.Some? by {
        assert files[i].entries[|files[i].entries| - 1].key == files[i].Largest();
      }
      JoinedEntry(files, i, c.value);
      EntryBefore(files, i, c.value, target);
      found := Some(Offset(files, i) + c.value);
      SplitsRun(Joined(files), found.value, target);
    } else {
      EntryBefore(files, i, 0, target);
      found := None;
      SplitsRun(Joined(files), |Joined(files)|, target);
    }
  }

  /** All before entry q of file i is before the target when the files before and the entries before it are. */
  lemma EntryBefore(files: seq<File>, i: nat, q: nat, target: InternalKey)
    requires i <= |files| && (i < |files| ==> q < |files[i].entries|) && (i == |files| ==> q == 0)
    requires forall j :: 0 <= j < i ==> Less(files[j].Largest(), target)
    requires i < |files| ==> forall r :: 0 <= r < q ==> Less(files[i].entries[r].key, target)
    ensures var p := Offset(files, i) + q; p > 0 ==> p <= |Joined(files)| && Less(Joined(files)[p - 1].key, target)
  {
    if q > 0 {
      JoinedEntry(files, i, q - 1);
    } else if i > 0 {
      JoinedAt(files, i - 1);
      JoinedEntry(files, i - 1, |files[i - 1].entries| - 1);
    } else {
      JoinedEnds(files);
    }
  }
}
