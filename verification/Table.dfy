/** Building a table and looking a key up in it (table/table_builder.cc, table/table.cc), a data
    block being the list of its entries and the file the map from offsets to blocks. */
module Table {
  import opened Keys
  import opened ByteOrder
  import opened LogFormat
  import opened Separators
  import opened Bloom
  import opened FilterBlock

  datatype TableEntry = TableEntry(key: TableKey, value: Bytes)

  datatype IndexEntry = IndexEntry(key: TableKey, offset: nat)

  datatype TableFile = TableFile(index: seq<IndexEntry>, file: map<nat, seq<TableEntry>>, filter: Option<Bytes>)

  const BLOCK_TRAILER_SIZE: nat := 5

  /** PutFixed64 of the tag after the user key. */
  function Encode(k: TableKey): (r: Bytes)
    ensures ExtractUserKey(r) == k.user
  {
    var r := k.user + Fixed32(Truncate(k.tag)) + Fixed32(Truncate(k.tag / 0x1_0000_0000));
    assert r[..|r| - 8] == k.user;
    r
  }

  /** Sequence number 5 with a value: the tag 0x501 in eight bytes behind the user key. */
  lemma KnownKey()
    ensures Encode(TableKey([0x61], 0x501)) == [0x61, 1, 5, 0, 0, 0, 0, 0, 0]
  {
    assert Fixed32(Truncate(0x501)) == [1, 5, 0, 0] && Fixed32(Truncate(0)) == [0, 0, 0, 0];
  }

  ghost predicate SortedEntries(contents: seq<TableEntry>) {
    forall i, j :: 0 <= i < j < |contents| ==> KeyLess(contents[i].key, contents[j].key)
  }

  /** The first cut is at the start, and every block between two cuts has an entry. */
  ghost predicate Cuts(cuts: seq<nat>, size: nat) {
    && |cuts| >= 1 && cuts[0] == 0
    && (forall i, j :: 0 <= i < j < |cuts| ==> cuts[i] < cuts[j])
    && cuts[|cuts| - 1] <= size
  }

  /** The separator of a block leaves no entry of one user key on both sides without itself being
      the last key of the block. */
  ghost predicate Separates(sep: TableKey, last: TableKey, next: TableKey) {
    KeyLess(sep, next) && (sep == last || BytesLess(sep.user, next.user))
  }

  /** The i-th index entry fits the i-th block. */
  ghost predicate IndexedAt(contents: seq<TableEntry>, cuts: seq<nat>, e: IndexEntry, i: nat)
    requires Cuts(cuts, |contents|) && i + 1 < |cuts|
  {
    var end := cuts[i + 1];
    && Closes(e.key, contents[end - 1].key)
    && (end < |contents| ==> Separates(e.key, contents[end - 1].key, contents[end].key))
  }

  ghost predicate Indexed(contents: seq<TableEntry>, cuts: seq<nat>, index: seq<IndexEntry>) {
    && Cuts(cuts, |contents|) && |index| < |cuts|
    && forall i {:trigger index[i]} :: 0 <= i < |index| ==> IndexedAt(contents, cuts, index[i], i)
  }

  /** The blocks written so far are where their handles say. */
  ghost predicate Written(contents: seq<TableEntry>, cuts: seq<nat>, offs: seq<nat>, file: map<nat, seq<TableEntry>>) {
    && Cuts(cuts, |contents|) && |cuts| == |offs| + 1
    && forall i {:trigger offs[i]} :: 0 <= i < |offs| ==> offs[i] in file && file[offs[i]] == contents[cuts[i]..cuts[i + 1]]
  }

  // ----- Looking up -----

  /** The first index entry whose key is not before k (Block::Iter::Seek on the index block). */
  function SeekIndex(index: seq<IndexEntry>, k: TableKey): (r: nat)
    ensures r <= |index|
    ensures forall i :: 0 <= i < r ==> KeyLess(index[i].key, k)
    ensures r < |index| ==> !KeyLess(index[r].key, k)
  {
    if index == [] || !KeyLess(index[0].key, k) then 0 else SeekIndex(index[1..], k) + 1
  }

  /** The same on a data block. */
  function SeekBlock(block: seq<TableEntry>, k: TableKey): (r: nat)
    ensures r <= |block|
    ensures forall i :: 0 <= i < r ==> KeyLess(block[i].key, k)
    ensures r < |block| ==> !KeyLess(block[r].key, k)
  {
    if block == [] || !KeyLess(block[0].key, k) then 0 else SeekBlock(block[1..], k) + 1
  }

  /** The callback's argument is exactly the newest entry of k's user key that k can see, if the
      table has one; without one, it is nothing or an entry of another user key. */
  ghost predicate Answers(contents: seq<TableEntry>, k: TableKey, r: Option<TableEntry>) {
    && (r.Some? ==> r.value in contents && !KeyLess(r.value.key, k))
    && forall x :: x in contents && x.key.user == k.user && !KeyLess(x.key, k) ==>
         r.Some? && r.value.key.user == k.user && !KeyLess(x.key, r.value.key)
  }

  /** What a table must be for lookups to be right: the index fits the blocks, and the filter
      admits the keys of each block. */
  ghost predicate TableOk(hash: Hash, t: TableFile, contents: seq<TableEntry>, cuts: seq<nat>, offs: seq<nat>) {
    && SortedEntries(contents)
    && Indexed(contents, cuts, t.index) && Written(contents, cuts, offs, t.file)
    && |t.index| == |offs| && cuts[|offs|] == |contents|
    && (forall i {:trigger t.index[i]} :: 0 <= i < |offs| ==> t.index[i].offset == offs[i])
    && (t.filter.Some? ==> FilterOk(hash, t.filter.value, contents, cuts, offs))
  }

  ghost predicate FilterOk(hash: Hash, filter: Bytes, contents: seq<TableEntry>, cuts: seq<nat>, offs: seq<nat>)
    requires Cuts(cuts, |contents|) && |cuts| == |offs| + 1
  {
    forall i, m, k :: 0 <= i < |offs| && cuts[i] <= m < cuts[i + 1] && ExtractUserKey(k) == contents[m].key.user ==>
      Admits(hash, filter, offs[i], k)
  }

  /** Table::InternalGet. */
  method InternalGet(hash: Hash, t: TableFile, k: TableKey, ghost contents: seq<TableEntry>, ghost cuts: seq<nat>, ghost offs: seq<nat>)
    returns (r: Option<TableEntry>)
    requires TableOk(hash, t, contents, cuts, offs)
    ensures Answers(contents, k, r)
  {
    var pos := SeekIndex(t.index, k);
    if pos == |t.index| {
      BeyondTheEnd(hash, t, contents, cuts, offs, k);
      return None;
    }
    SeekAnswers(hash, t, contents, cuts, offs, pos, k);
    var offset := t.index[pos].offset;
    if t.filter.Some? {
      var reader := new FilterBlockReader(hash, t.filter.value);
      var may := reader.MayContain(offset, Encode(k));
      if !may {
        FilteredOut(hash, t, contents, cuts, offs, pos, k);
        return None;
      }
    }
    r := SeekIn(t.file[offset], k);
  }

  /** Positioning a block iterator at the first entry not before k. */
  function SeekIn(block: seq<TableEntry>, k: TableKey): Option<TableEntry> {
    var j := SeekBlock(block, k);
    if j < |block| then Some(block[j]) else None
  }

  lemma BeyondTheEnd(hash: Hash, t: TableFile, contents: seq<TableEntry>, cuts: seq<nat>, offs: seq<nat>, k: TableKey)
    requires TableOk(hash, t, contents, cuts, offs) && SeekIndex(t.index, k) == |t.index|
    ensures Answers(contents, k, None)
  {
    EarlierBlocksPrecede(contents, cuts, t.index, |t.index|, k);
  }

  lemma SeekAnswers(hash: Hash, t: TableFile, contents: seq<TableEntry>, cuts: seq<nat>, offs: seq<nat>, pos: nat, k: TableKey)
    requires TableOk(hash, t, contents, cuts, offs) && pos == SeekIndex(t.index, k) < |t.index|
    ensures t.index[pos].offset == offs[pos] && offs[pos] in t.file
    ensures Answers(contents, k, SeekIn(t.file[offs[pos]], k))
  {
    FoundInBlock(contents, cuts, t.index, pos, k, SeekBlock(contents[cuts[pos]..cuts[pos + 1]], k));
  }

  /** Entries of the blocks before the chosen one precede k. */
  lemma EarlierBlocksPrecede(contents: seq<TableEntry>, cuts: seq<nat>, index: seq<IndexEntry>, pos: nat, k: TableKey)
    requires SortedEntries(contents) && Indexed(contents, cuts, index) && pos == SeekIndex(index, k)
    ensures forall m :: 0 <= m < cuts[pos] ==> KeyLess(contents[m].key, k)
  {
    if pos > 0 {
      var sep, last := index[pos - 1].key, contents[cuts[pos] - 1].key;
      assert IndexedAt(contents, cuts, index[pos - 1], pos - 1);
      KeyOrder(last, sep, k);
      forall m | 0 <= m < cuts[pos] ensures KeyLess(contents[m].key, k) {
        KeyOrder(contents[m].key, last, k);
      }
    }
  }

  /** If all entries of the chosen block precede k, no later entry has k's user key. */
  lemma NextBlocksDiffer(contents: seq<TableEntry>, cuts: seq<nat>, index: seq<IndexEntry>, pos: nat, k: TableKey, m: nat)
    requires SortedEntries(contents) && Indexed(contents, cuts, index) && pos < |index|
    requires !KeyLess(index[pos].key, k) && cuts[pos + 1] <= m < |contents|
    requires KeyLess(contents[cuts[pos + 1] - 1].key, k)
    ensures contents[m].key.user != k.user
  {
    var end := cuts[pos + 1];
    var sep, next, x := index[pos].key, contents[end].key, contents[m].key;
    assert IndexedAt(contents, cuts, index[pos], pos);
    assert sep != contents[end - 1].key;
    BytesOrder(sep.user, next.user, x.user);
    BytesOrder(sep.user, k.user, sep.user);
    BytesOrder(sep.user, sep.user, sep.user);
    assert m == end || KeyLess(next, x);
  }

  lemma FoundInBlock(contents: seq<TableEntry>, cuts: seq<nat>, index: seq<IndexEntry>, pos: nat, k: TableKey, j: nat)
    requires SortedEntries(contents) && Indexed(contents, cuts, index) && pos == SeekIndex(index, k) < |index|
    requires j == SeekBlock(contents[cuts[pos]..cuts[pos + 1]], k)
    ensures Answers(contents, k, if j < cuts[pos + 1] - cuts[pos] then Some(contents[cuts[pos] + j]) else None)
  {
    EarlierBlocksPrecede(contents, cuts, index, pos, k);
    forall x | x in contents && x.key.user == k.user && !KeyLess(x.key, k)
      ensures j < cuts[pos + 1] - cuts[pos]
      ensures contents[cuts[pos] + j].key.user == k.user && !KeyLess(x.key, contents[cuts[pos] + j].key)
    {
      var m :| 0 <= m < |contents| && contents[m] == x;
      FoundBefore(contents, cuts, index, pos, k, j, m);
    }
  }

  lemma FoundBefore(contents: seq<TableEntry>, cuts: seq<nat>, index: seq<IndexEntry>, pos: nat, k: TableKey, j: nat, m: nat)
    requires SortedEntries(contents) && Indexed(contents, cuts, index) && pos < |index| && !KeyLess(index[pos].key, k)
    requires j == SeekBlock(contents[cuts[pos]..cuts[pos + 1]], k)
    requires cuts[pos] <= m < |contents| && contents[m].key.user == k.user && !KeyLess(contents[m].key, k)
    ensures j < cuts[pos + 1] - cuts[pos] && contents[cuts[pos] + j].key.user == k.user
    ensures !KeyLess(contents[m].key, contents[cuts[pos] + j].key)
  {
    var block := contents[cuts[pos]..cuts[pos + 1]];
    var x := contents[m];
    if m < cuts[pos + 1] {
      assert x == block[m - cuts[pos]];
    } else if j == |block| {
      assert block[|block| - 1] == contents[cuts[pos + 1] - 1];
      NextBlocksDiffer(contents, cuts, index, pos, k, m);
    }
    var y := contents[cuts[pos] + j];
    assert y == block[j] && cuts[pos] + j <= m;
    Between(k, y.key, x.key);
    KeyOrder(y.key, x.key, y.key);
  }

  /** A key between two of one user key has that user key. */
  lemma Between(k: TableKey, y: TableKey, x: TableKey)
    requires k.user == x.user && !KeyLess(y, k) && (y == x || KeyLess(y, x))
    ensures y.user == k.user
  {
    BytesOrder(y.user, x.user, y.user);
  }

  /** A key the filter rejects is not in the block, nor anywhere else. */
  lemma FilteredOut(hash: Hash, t: TableFile, contents: seq<TableEntry>, cuts: seq<nat>, offs: seq<nat>, pos: nat, k: TableKey)
    requires TableOk(hash, t, contents, cuts, offs) && t.filter.Some?
    requires pos == SeekIndex(t.index, k) < |t.index| && !Admits(hash, t.filter.value, offs[pos], Encode(k))
    ensures Answers(contents, k, None)
  {
    var j := SeekBlock(contents[cuts[pos]..cuts[pos + 1]], k);
    FoundInBlock(contents, cuts, t.index, pos, k, j);
    if j < cuts[pos + 1] - cuts[pos] {
      var m := cuts[pos] + j;
      assert contents[m].key.user != k.user;
    }
  }
}
