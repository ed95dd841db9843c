/** Version edits and the builder that applies a run of them at once (db/version_set.cc
    VersionSet::Builder, LogAndApply and Recover). */
module VersionBuilder {
  import opened Keys
  import opened LsmState
  import opened FileLists

  /** The file changes of a VersionEdit: (level, number) deletions and (level, file) additions. */
  datatype Edit = Edit(deleted: set<(nat, nat)>, added: seq<(nat, File)>)

  /** BySmallestKey: by smallest key, ties broken by file number. */
  predicate FileLess(f: File, g: File) {
    Less(f.Smallest(), g.Smallest()) || (f.Smallest() == g.Smallest() && f.number < g.number)
  }

  ghost predicate BySmallest(files: seq<File>) {
    forall i, j :: 0 <= i < j < |files| ==> FileLess(files[i], files[j])
  }

  function DeletedAt(e: Edit, level: nat): set<nat> {
    set d | d in e.deleted && d.0 == level :: d.1
  }

  function AddedAt(e: Edit, level: nat): set<File> {
    set a | a in e.added && a.0 == level :: a.1
  }

  ghost predicate DistinctAdditions(e: Edit) {
    forall i, j :: 0 <= i < j < |e.added| && e.added[i].0 == e.added[j].0 ==> e.added[i].1.number != e.added[j].1.number
  }

  function Numbers(files: set<File>): set<nat> {
    set f | f in files :: f.number
  }

  /** One edit applied to one level: delete, then add. */
  function ApplyEdit(files: set<File>, e: Edit, level: nat): set<File> {
    (set f | f in files && f.number !in DeletedAt(e, level)) + AddedAt(e, level)
  }

  /** Edits applied one after the other. */
  function ApplyEdits(files: set<File>, edits: seq<Edit>, level: nat): set<File> {
    if edits == [] then files
    else ApplyEdit(ApplyEdits(files, edits[..|edits| - 1], level), edits[|edits| - 1], level)
  }

  /** What the builder remembers of one level. */
  datatype LevelState = LevelState(deleted: set<nat>, added: set<File>)

  function Absorb(b: LevelState, e: Edit, level: nat): LevelState {
    LevelState(b.deleted + DeletedAt(e, level) - Numbers(AddedAt(e, level)), b.added + AddedAt(e, level))
  }

  function AbsorbAll(edits: seq<Edit>, level: nat): LevelState {
    if edits == [] then LevelState({}, {})
    else Absorb(AbsorbAll(edits[..|edits| - 1], level), edits[|edits| - 1], level)
  }

  function Result(base: set<File>, b: LevelState): set<File> {
    set f | f in base + b.added && f.number !in b.deleted
  }

  /** No edit adds a file number the level has had before. */
  ghost predicate AddedOnce(base: set<File>, edits: seq<Edit>, level: nat) {
    forall i {:trigger NewAt(base, edits, i, level)} :: 0 <= i < |edits| ==> NewAt(base, edits, i, level)
  }

  /** The numbers edit i adds are new to the level. */
  ghost predicate NewAt(base: set<File>, edits: seq<Edit>, i: nat, level: nat)
    requires i < |edits|
  {
    Numbers(AddedAt(edits[i], level)) !! Numbers(base + AbsorbAll(edits[..i], level).added)
  }

  lemma AddedOncePrefix(base: set<File>, edits: seq<Edit>, m: nat, level: nat)
    requires m <= |edits| && AddedOnce(base, edits, level)
    ensures AddedOnce(base, edits[..m], level)
  {
    forall i | 0 <= i < m ensures NewAt(base, edits[..m], i, level) {
      assert NewAt(base, edits, i, level);
      assert edits[..m][..i] == edits[..i] && edits[..m][i] == edits[i];
    }
  }

  /** One pass over all edits leaves each level as applying them one by one would. */
  lemma {:induction false} ReplayIsStepwise(base: set<File>, edits: seq<Edit>, level: nat)
    requires AddedOnce(base, edits, level)
    ensures Result(base, AbsorbAll(edits, level)) == ApplyEdits(base, edits, level)
  {
    if edits == [] {
      assert Result(base, LevelState({}, {})) == base;
    } else {
      var init, e := edits[..|edits| - 1], edits[|edits| - 1];
      AddedOncePrefix(base, edits, |init|, level);
      ReplayIsStepwise(base, init, level);
      var b := AbsorbAll(init, level);
      assert NewAt(base, edits, |init|, level);
      AbsorbOne(base, b, e, level);
    }
  }

  lemma AbsorbOne(base: set<File>, b: LevelState, e: Edit, level: nat)
    requires Numbers(AddedAt(e, level)) !! Numbers(base + b.added)
    ensures Result(base, Absorb(b, e, level)) == ApplyEdit(Result(base, b), e, level)
  {
    forall f | f in base + b.added ensures f.number !in Numbers(AddedAt(e, level)) {
      assert f.number in Numbers(base + b.added);
    }
  }

  /** The record WriteSnapshot starts a manifest with: every file of the current version. */
  ghost predicate IsSnapshotOf(e: Edit, files: set<File>, level: nat) {
    DeletedAt(e, level) == {} && AddedAt(e, level) == files
  }

  /** Recovering from a snapshot record and the edits after it rebuilds the version the running
      store reached by applying those edits to the snapshotted one. */
  lemma RecoveryRebuilds(current: set<File>, snapshot: Edit, later: seq<Edit>, level: nat)
    requires IsSnapshotOf(snapshot, current, level) && AddedOnce(current, later, level)
    ensures Result({}, AbsorbAll([snapshot] + later, level)) == ApplyEdits(current, later, level)
  {
    if later == [] {
      assert ([snapshot] + later)[..0] == [];
      assert AbsorbAll([snapshot] + later, level) == Absorb(LevelState({}, {}), snapshot, level);
      assert Result({}, AbsorbAll([snapshot] + later, level)) == current;
    } else {
      var init, e := later[..|later| - 1], later[|later| - 1];
      assert ([snapshot] + later)[..|later|] == [snapshot] + init;
      AddedOncePrefix(current, later, |init|, level);
      RecoveryRebuilds(current, snapshot, init, level);
      SnapshotAdds(current, snapshot, init, level);
      assert NewAt(current, later, |init|, level);
      AbsorbOne({}, AbsorbAll([snapshot] + init, level), e, level);
    }
  }

  lemma SnapshotAdds(current: set<File>, snapshot: Edit, later: seq<Edit>, level: nat)
    requires IsSnapshotOf(snapshot, current, level)
    ensures AbsorbAll([snapshot] + later, level).added == current + AbsorbAll(later, level).added
  {
    if later == [] {
      assert ([snapshot] + later)[..0] == [];
    } else {
      assert ([snapshot] + later)[..|later|] == [snapshot] + later[..|later| - 1];
      SnapshotAdds(current, snapshot, later[..|later| - 1], level);
    }
  }

  /** std::set::insert with BySmallestKey. */
  method InsertBySmallest(files: seq<File>, f: File) returns (r: seq<File>)
    requires BySmallest(files)
    ensures BySmallest(r)
    ensures f.number !in Numbers(FileSet(files)) ==> FileSet(r) == FileSet(files) + {f}
  {
    var i := 0;
    while i < |files| && FileLess(files[i], f)
      invariant i <= |files| && forall j :: 0 <= j < i ==> FileLess(files[j], f)
    {
      i := i + 1;
    }
    if i < |files| && !FileLess(f, files[i]) {
      EquivalentFiles(f, files[i]);
      assert files[i] in FileSet(files);
      return files;
    }
    r := files[..i] + [f] + files[i..];
    assert forall g :: g in r <==> g in files || g == f by {
      assert files == files[..i] + files[i..];
    }
  }

  lemma EquivalentFiles(f: File, g: File)
    requires !FileLess(f, g) && !FileLess(g, f)
    ensures f.number == g.number
  {}

  class Builder {
    const base: seq<seq<File>>
    var deleted: seq<set<nat>>
    var added: seq<seq<File>>

    ghost predicate Ok()
      reads this
    {
      && |base| == |deleted| == |added|
      && forall l :: 0 <= l < |base| ==> BySmallest(base[l]) && BySmallest(added[l])
    }

    ghost function At(l: nat): LevelState
      reads this
      requires l < |deleted| && l < |added|
    {
      LevelState(deleted[l], FileSet(added[l]))
    }

    constructor (base: seq<seq<File>>)
      requires forall l :: 0 <= l < |base| ==> BySmallest(base[l])
      ensures Ok() && this.base == base && forall l :: 0 <= l < |base| ==> At(l) == LevelState({}, {})
    {
      this.base := base;
      deleted := seq(|base|, i => {});
      added := seq(|base|, i => []);
    }

    /** Apply: note the deletions, then take the additions, which cancel earlier deletions. A number added
        twice at a level is beyond what is promised. */
    method Apply(e: Edit)
      requires Ok()
      requires forall a :: a in e.added ==> a.0 < |base|
      modifies this`deleted, this`added
      ensures Ok()
      ensures old(AddsNew(e)) ==> forall l :: 0 <= l < |base| ==> At(l) == old(Absorb(At(l), e, l))
    {
      var oldDeleted := deleted;
      ghost var oldAdded, allNew := added, AddsNew(e);
      ghost var before := seq(|base|, l requires 0 <= l < |oldDeleted| && l < |oldAdded| =>
        LevelState(oldDeleted[l], FileSet(oldAdded[l])));
      deleted := seq(|base|, l requires 0 <= l < |oldDeleted| => oldDeleted[l] + DeletedAt(e, l));
      assert forall l :: 0 <= l < |base| ==> At(l) == Absorb(before[l], Edit(e.deleted, []), l);
      for i := 0 to |e.added|
        invariant Ok()
        invariant allNew ==> forall l :: 0 <= l < |base| ==> At(l) == Absorb(before[l], Edit(e.deleted, e.added[..i]), l)
      {
        assert e.added[i] in e.added;
        AddNewFile(e.added[i].0, e.added[i].1, e, i, before);
      }
      assert e.added[..|e.added|] == e.added;
      assert Edit(e.deleted, e.added) == e;
    }

    /** No file number is added twice at a level. */
    ghost predicate AddsNew(e: Edit)
      requires Ok()
      reads this
    {
      DistinctAdditions(e) && forall l :: 0 <= l < |base| ==> Numbers(AddedAt(e, l)) !! Numbers(FileSet(added[l]))
    }

    /** So far the additions of an edit with new numbers are taken in. */
    ghost predicate NewUpTo(e: Edit, i: nat, before: seq<LevelState>)
      requires Ok() && i <= |e.added| && |before| == |base|
      reads this
    {
      && DistinctAdditions(e) && (forall l :: 0 <= l < |base| ==> Numbers(AddedAt(e, l)) !! Numbers(before[l].added))
      && forall l :: 0 <= l < |base| ==> At(l) == Absorb(before[l], Edit(e.deleted, e.added[..i]), l)
    }

    /** One addition of Apply. */
    method AddNewFile(level: nat, f: File, ghost e: Edit, ghost i: nat, ghost before: seq<LevelState>)
      requires Ok() && level < |base| && i < |e.added| && e.added[i] == (level, f) && |before| == |base|
      modifies this`deleted, this`added
      ensures Ok()
      ensures old(NewUpTo(e, i, before)) ==> forall l :: 0 <= l < |base| ==> At(l) == Absorb(before[l], Edit(e.deleted, e.added[..i + 1]), l)
    {
      ghost var allNew := NewUpTo(e, i, before);
      if allNew {
        NewNumber(e, i, before[level].added);
      }
      var files := InsertBySmallest(added[level], f);
      deleted := deleted[level := deleted[level] - {f.number}];
      added := added[level := files];
      if allNew {
        forall l | 0 <= l < |base| ensures At(l) == Absorb(before[l], Edit(e.deleted, e.added[..i + 1]), l) {
          AbsorbStep(before[l], e, i, l);
        }
      }
    }

    /** SaveTo: merges the added files into the base files, dropping the deleted ones. The source checks
        only in debug builds that no added number is in the base. */
    method SaveTo(level: nat) returns (files: seq<File>)
      requires Ok() && level < |base|
      ensures Numbers(FileSet(base[level])) !! Numbers(FileSet(added[level])) ==>
                FileSet(files) == Result(FileSet(base[level]), At(level)) && BySmallest(files)
    {
      files := [];
      var baseFiles, dead := base[level], deleted[level];
      ghost var apart := Numbers(FileSet(baseFiles)) !! Numbers(FileSet(added[level]));
      var b := 0;
      for a := 0 to |added[level]|
        invariant b <= |baseFiles|
        invariant apart ==> MergedSoFar(baseFiles, b, added[level], a, dead, files)
      {
        var f := added[level][a];
        while b < |baseFiles| && !FileLess(f, baseFiles[b])
          invariant b <= |baseFiles|
          invariant apart ==> MergedSoFar(baseFiles, b, added[level], a, dead, files)
        {
          if apart {
            DifferentNumbersOrdered(baseFiles, b, added[level], a);
            TakeBase(baseFiles, b, added[level], a, dead, files);
          }
          files := MaybeAddFile(files, dead, baseFiles[b]);
          b := b + 1;
        }
        if apart {
          TakeAdded(baseFiles, b, added[level], a, dead, files);
        }
        files := MaybeAddFile(files, dead, f);
      }
      while b < |baseFiles|
        invariant b <= |baseFiles|
        invariant apart ==> MergedSoFar(baseFiles, b, added[level], |added[level]|, dead, files)
      {
        if apart {
          TakeBase(baseFiles, b, added[level], |added[level]|, dead, files);
        }
        files := MaybeAddFile(files, dead, baseFiles[b]);
        b := b + 1;
      }
      if apart {
        MergeComplete(baseFiles, added[level], dead, files);
      }
    }
  }

  function MaybeAddFile(files: seq<File>, dead: set<nat>, f: File): seq<File> {
    if f.number in dead then files else files + [f]
  }

  lemma AbsorbStep(b: LevelState, e: Edit, i: nat, l: nat)
    requires i < |e.added|
    ensures var soFar := Absorb(b, Edit(e.deleted, e.added[..i]), l);
      Absorb(b, Edit(e.deleted, e.added[..i + 1]), l) ==
        if e.added[i].0 == l then LevelState(soFar.deleted - {e.added[i].1.number}, soFar.added + {e.added[i].1}) else soFar
  {
    var f := e.added[i].1;
    var before, after := AddedAt(Edit(e.deleted, e.added[..i]), l), AddedAt(Edit(e.deleted, e.added[..i + 1]), l);
    assert e.added[..i + 1] == e.added[..i] + [e.added[i]];
    assert after == if e.added[i].0 == l then before + {f} else before;
    assert Numbers(before + {f}) == Numbers(before) + {f.number};
  }

  lemma NewNumber(e: Edit, i: nat, before: set<File>)
    requires i < |e.added|
    requires DistinctAdditions(e)
    requires Numbers(AddedAt(e, e.added[i].0)) !! Numbers(before)
    ensures e.added[i].1.number !in Numbers(before + AddedAt(Edit(e.deleted, e.added[..i]), e.added[i].0))
  {
    var level, f := e.added[i].0, e.added[i].1;
    assert e.added[i] in e.added && f in AddedAt(e, level);
    assert f.number in Numbers(AddedAt(e, level));
    forall g | g in AddedAt(Edit(e.deleted, e.added[..i]), level) ensures g.number != f.number {
      var a :| a in e.added[..i] && a.0 == level && a.1 == g;
      var j :| 0 <= j < i && e.added[j] == a;
    }
  }

  /** `files` is the sorted merge of base[..b] and added[..a] without the deleted numbers. */
  ghost predicate MergedSoFar(base: seq<File>, b: nat, added: seq<File>, a: nat, dead: set<nat>, files: seq<File>) {
    && b <= |base| && a <= |added|
    && BySmallest(files)
    && (forall f :: f in files <==> (f in base[..b] || f in added[..a]) && f.number !in dead)
    && (forall i, j :: 0 <= i < b && a <= j < |added| ==> FileLess(base[i], added[j]))
    && (forall i, j :: 0 <= i < a && b <= j < |base| ==> FileLess(added[i], base[j]))
  }

  lemma DifferentNumbersOrdered(base: seq<File>, b: nat, added: seq<File>, a: nat)
    requires b < |base| && a < |added| && Numbers(FileSet(base)) !! Numbers(FileSet(added))
    ensures FileLess(base[b], added[a]) || FileLess(added[a], base[b])
  {
    assert base[b] in FileSet(base) && added[a] in FileSet(added);
    assert base[b].number in Numbers(FileSet(base)) && added[a].number in Numbers(FileSet(added));
  }

  lemma AppendBySmallest(files: seq<File>, f: File)
    requires BySmallest(files) && forall g :: g in files ==> FileLess(g, f)
    ensures BySmallest(files + [f])
  {}

  lemma TakeBase(base: seq<File>, b: nat, added: seq<File>, a: nat, dead: set<nat>, files: seq<File>)
    requires BySmallest(base) && BySmallest(added) && b < |base|
    requires MergedSoFar(base, b, added, a, dead, files)
    requires a < |added| ==> FileLess(base[b], added[a])
    ensures MergedSoFar(base, b + 1, added, a, dead, MaybeAddFile(files, dead, base[b]))
  {
    forall g | g in files ensures FileLess(g, base[b]) {
      if g in base[..b] {
        var i :| 0 <= i < b && base[i] == g;
      } else {
        var i :| 0 <= i < a && added[i] == g;
      }
    }
    AppendBySmallest(files, base[b]);
    assert base[..b + 1] == base[..b] + [base[b]];
  }

  lemma TakeAdded(base: seq<File>, b: nat, added: seq<File>, a: nat, dead: set<nat>, files: seq<File>)
    requires BySmallest(base) && BySmallest(added) && a < |added|
    requires MergedSoFar(base, b, added, a, dead, files)
    requires b < |base| ==> FileLess(added[a], base[b])
    ensures MergedSoFar(base, b, added, a + 1, dead, MaybeAddFile(files, dead, added[a]))
  {
    forall g | g in files ensures FileLess(g, added[a]) {
      if g in base[..b] {
        var i :| 0 <= i < b && base[i] == g;
      } else {
        var i :| 0 <= i < a && added[i] == g;
      }
    }
    AppendBySmallest(files, added[a]);
    assert added[..a + 1] == added[..a] + [added[a]];
  }

  lemma MergeComplete(base: seq<File>, added: seq<File>, dead: set<nat>, files: seq<File>)
    requires MergedSoFar(base, |base|, added, |added|, dead, files)
    ensures FileSet(files) == Result(FileSet(base), LevelState(dead, FileSet(added)))
  {
    assert base[..|base|] == base && added[..|added|] == added;
    forall f ensures f in FileSet(files) <==> f in Result(FileSet(base), LevelState(dead, FileSet(added))) {
      assert f in files <==> (f in base || f in added) && f.number !in dead;
    }
  }

  /** On a level with disjoint files, the order by smallest key is the order of the ranges. */
  lemma SortedDisjointIsLevelList(files: seq<File>)
    requires BySmallest(files) && LevelDisjoint(FileSet(files)) && forall f :: f in files ==> Sorted(f.entries)
    ensures LevelList(files)
  {
    forall i, j | 0 <= i < j < |files| ensures Less(files[i].Largest(), files[j].Smallest()) {
      assert files[i] in FileSet(files) && files[j] in FileSet(files);
      assert FileLess(files[i], files[j]);
      assert Apart(files[i], files[j]);
      FirstNotAfterLast(files[j]);
    }
  }
}
