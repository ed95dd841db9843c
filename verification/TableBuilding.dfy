/** TableBuilder (table/table_builder.cc): the index entry of a block waits for the first key of the
    next one. */
module TableBuilding {
  import opened Keys
  import opened ByteOrder
  import opened LogFormat
  import opened Separators
  import opened Bloom
  import opened FilterBlock
  import opened Table

  /** A key whose block starts at `off` is in the filter for that offset, or still among the keys
      of the next filter to be generated. */
  ghost predicate Noted(covered: seq<set<Bytes>>, pending: seq<Bytes>, off: nat, key: TableKey) {
    var i := off / FILTER_BASE;
    i <= |covered| && if i < |covered| then key.user in covered[i] else Encode(key) in pending
  }

  ghost predicate BlocksNoted(contents: seq<TableEntry>, cuts: seq<nat>, offs: seq<nat>, covered: seq<set<Bytes>>, pending: seq<Bytes>)
    requires Cuts(cuts, |contents|) && |cuts| == |offs| + 1
  {
    forall i, m :: 0 <= i < |offs| && cuts[i] <= m < cuts[i + 1] ==> Noted(covered, pending, offs[i], contents[m].key)
  }

  ghost predicate RestNoted(contents: seq<TableEntry>, from: nat, offset: nat, covered: seq<set<Bytes>>, pending: seq<Bytes>) {
    forall m :: from <= m < |contents| ==> Noted(covered, pending, offset, contents[m].key)
  }

  /** StartBlock keeps what is noted. */
  lemma StillNoted(covered: seq<set<Bytes>>, pending: seq<Bytes>, after: seq<set<Bytes>>, left: seq<Bytes>, off: nat, key: TableKey)
    requires Noted(covered, pending, off, key) && covered <= after
    requires if |after| == |covered| then left == pending else after[|covered|] == UsersOf(pending)
    ensures Noted(after, left, off, key)
  {
    if off / FILTER_BASE == |covered| < |after| {
      assert ExtractUserKey(Encode(key)) == key.user;
    }
  }

  lemma CutAtEnd(contents: seq<TableEntry>, cuts: seq<nat>, offs: seq<nat>, file: map<nat, seq<TableEntry>>,
                 index: seq<IndexEntry>, offset: nat)
    requires Written(contents, cuts, offs, file) && Indexed(contents, cuts, index)
    requires cuts[|offs|] < |contents| && offset !in file
    ensures Written(contents, cuts + [|contents|], offs + [offset], file[offset := contents[cuts[|offs|]..]])
    ensures Indexed(contents, cuts + [|contents|], index)
  {
    var c, o, f := cuts + [|contents|], offs + [offset], file[offset := contents[cuts[|offs|]..]];
    assert Cuts(c, |contents|);
    forall i | 0 <= i < |o| ensures o[i] in f && f[o[i]] == contents[c[i]..c[i + 1]] {
      assert i < |offs| ==> offs[i] in file;
    }
    forall i | 0 <= i < |index| ensures IndexedAt(contents, c, index[i], i) {
      assert IndexedAt(contents, cuts, index[i], i);
    }
  }

  lemma AppendEntry(contents: seq<TableEntry>, cuts: seq<nat>, offs: seq<nat>, file: map<nat, seq<TableEntry>>,
                    index: seq<IndexEntry>, e: TableEntry)
    requires SortedEntries(contents) && Written(contents, cuts, offs, file) && Indexed(contents, cuts, index)
    requires contents != [] ==> KeyLess(contents[|contents| - 1].key, e.key)
    requires cuts[|index|] < |contents| || |index| == 0 || Separates(index[|index| - 1].key, contents[|contents| - 1].key, e.key)
    ensures SortedEntries(contents + [e]) && Written(contents + [e], cuts, offs, file) && Indexed(contents + [e], cuts, index)
  {
    var t := contents + [e];
    forall i | 0 <= i < |contents| ensures KeyLess(t[i].key, e.key) {
      KeyOrder(contents[i].key, contents[|contents| - 1].key, e.key);
    }
    assert Cuts(cuts, |t|);
    forall i | 0 <= i < |offs| ensures offs[i] in file && file[offs[i]] == t[cuts[i]..cuts[i + 1]] {
      assert t[cuts[i]..cuts[i + 1]] == contents[cuts[i]..cuts[i + 1]];
    }
    forall i | 0 <= i < |index| ensures IndexedAt(t, cuts, index[i], i) {
      assert IndexedAt(contents, cuts, index[i], i);
    }
  }

  lemma AppendIndex(contents: seq<TableEntry>, cuts: seq<nat>, index: seq<IndexEntry>, e: IndexEntry)
    requires Indexed(contents, cuts, index) && |index| + 1 < |cuts| && IndexedAt(contents, cuts, e, |index|)
    ensures Indexed(contents, cuts, index + [e])
  {}

  lemma NewBlockNoted(contents: seq<TableEntry>, cuts: seq<nat>, offs: seq<nat>, offset: nat,
                      covered: seq<set<Bytes>>, pending: seq<Bytes>)
    requires Cuts(cuts, |contents|) && |cuts| == |offs| + 1 && cuts[|offs|] < |contents|
    requires BlocksNoted(contents, cuts, offs, covered, pending)
    requires RestNoted(contents, cuts[|offs|], offset, covered, pending)
    ensures Cuts(cuts + [|contents|], |contents|)
    ensures BlocksNoted(contents, cuts + [|contents|], offs + [offset], covered, pending)
  {}

  /** One more key for the current block. */
  lemma KeyNoted(contents: seq<TableEntry>, cuts: seq<nat>, offs: seq<nat>, offset: nat,
                 covered: seq<set<Bytes>>, pending: seq<Bytes>, e: TableEntry)
    requires Cuts(cuts, |contents|) && |cuts| == |offs| + 1 && |covered| == offset / FILTER_BASE
    requires BlocksNoted(contents, cuts, offs, covered, pending)
    requires RestNoted(contents, cuts[|offs|], offset, covered, pending)
    ensures Cuts(cuts, |contents| + 1)
    ensures BlocksNoted(contents + [e], cuts, offs, covered, pending + [Encode(e.key)])
    ensures RestNoted(contents + [e], cuts[|offs|], offset, covered, pending + [Encode(e.key)])
  {
    var t, p := contents + [e], pending + [Encode(e.key)];
    forall i, m | 0 <= i < |offs| && cuts[i] <= m < cuts[i + 1] ensures Noted(covered, p, offs[i], t[m].key) {
      assert Noted(covered, pending, offs[i], contents[m].key);
    }
    forall m | cuts[|offs|] <= m < |t| ensures Noted(covered, p, offset, t[m].key) {
      assert m < |contents| ==> Noted(covered, pending, offset, contents[m].key);
    }
  }

  class TableBuilder {
    const hash: Hash
    const filterBlock: FilterBlockBuilder?
    /** The length of a block's bytes in the file; the format of blocks does not matter here. */
    const encodedSize: seq<TableEntry> -> nat
    const blockSize: nat
    var offset: nat
    var dataBlock: seq<TableEntry>
    var indexBlock: seq<IndexEntry>
    var lastKey: TableKey
    var numEntries: nat
    var closed: bool
    var pendingIndexEntry: bool
    var pendingHandle: nat
    var file: map<nat, seq<TableEntry>>
    /** Everything added, where its blocks begin, and their offsets. */
    ghost var contents: seq<TableEntry>
    ghost var cuts: seq<nat>
    ghost var offs: seq<nat>

    ghost predicate BlocksOk()
      reads this
    {
      && SortedEntries(contents) && Written(contents, cuts, offs, file) && Indexed(contents, cuts, indexBlock)
      && dataBlock == contents[cuts[|offs|]..]
      && (forall o :: o in file ==> o < offset)
      && |indexBlock| <= |offs| && (forall i {:trigger indexBlock[i]} :: 0 <= i < |indexBlock| ==> indexBlock[i].offset == offs[i])
    }

    ghost predicate PendingOk()
      reads this
    {
      && |indexBlock| + (if pendingIndexEntry then 1 else 0) == |offs|
      && (pendingIndexEntry ==> dataBlock == [] && pendingHandle == offs[|offs| - 1])
      && (dataBlock == [] && offs != [] ==> pendingIndexEntry || closed)
      && (contents != [] && !closed ==> lastKey == contents[|contents| - 1].key)
      && numEntries == |contents|
    }

    ghost predicate FilterNotes()
      requires Cuts(cuts, |contents|) && |cuts| == |offs| + 1
      reads this, filterBlock
    {
      filterBlock != null ==>
        && filterBlock.Valid() && filterBlock.hash == hash && |filterBlock.covered| == offset / FILTER_BASE
        && filterBlock.filtered + |filterBlock.pending| == |contents|
        && BlocksNoted(contents, cuts, offs, filterBlock.covered, filterBlock.pending)
        && RestNoted(contents, cuts[|offs|], offset, filterBlock.covered, filterBlock.pending)
    }

    ghost predicate Valid()
      reads this, filterBlock
    {
      BlocksOk() && PendingOk() && FilterNotes()
    }

    constructor (hash: Hash, filterBlock: FilterBlockBuilder?, encodedSize: seq<TableEntry> -> nat, blockSize: nat)
      requires filterBlock != null ==>
        filterBlock.Valid() && filterBlock.hash == hash && filterBlock.pending == [] && filterBlock.covered == []
      modifies filterBlock
      ensures Valid() && !closed && contents == [] && this.hash == hash && this.filterBlock == filterBlock
    {
      if filterBlock != null {
        filterBlock.StartBlock(0);
      }
      this.hash, this.filterBlock, this.encodedSize, this.blockSize := hash, filterBlock, encodedSize, blockSize;
      offset, dataBlock, indexBlock, lastKey, numEntries := 0, [], [], TableKey([], 0), 0;
      closed, pendingIndexEntry, pendingHandle, file := false, false, 0, map[];
      contents, cuts, offs := [], [0], [];
      new;
      assert BlocksOk();
      assert PendingOk();
    }

    /** WriteBlock: the data block goes to the file at the current offset. */
    method WriteBlock()
      requires BlocksOk() && dataBlock != []
      modifies this`pendingHandle, this`file, this`offset, this`dataBlock, this`cuts, this`offs
      ensures BlocksOk() && dataBlock == [] && offset > old(offset) && pendingHandle == old(offset)
      ensures cuts == old(cuts) + [|contents|] && offs == old(offs) + [old(offset)]
    {
      CutAtEnd(contents, cuts, offs, file, indexBlock, offset);
      pendingHandle := offset;
      file := file[offset := dataBlock];
      offset := offset + encodedSize(dataBlock) + BLOCK_TRAILER_SIZE;
      dataBlock := [];
      cuts, offs := cuts + [|contents|], offs + [pendingHandle];
    }

    method Flush()
      requires Valid() && !closed
      modifies this, filterBlock
      ensures Valid() && !closed && contents == old(contents) && dataBlock == []
    {
      if dataBlock == [] {
        return;
      }
      if filterBlock != null {
        NewBlockNoted(contents, cuts, offs, offset, filterBlock.covered, filterBlock.pending);
      }
      WriteBlock();
      pendingIndexEntry := true;
      if filterBlock != null {
        StartNextFilter();
      }
    }

    method StartNextFilter()
      requires filterBlock != null && filterBlock.Valid() && |filterBlock.covered| <= offset / FILTER_BASE
      requires Cuts(cuts, |contents|) && |cuts| == |offs| + 1 && cuts[|offs|] == |contents|
      requires BlocksNoted(contents, cuts, offs, filterBlock.covered, filterBlock.pending)
      modifies filterBlock
      ensures filterBlock.Valid() && |filterBlock.covered| == offset / FILTER_BASE
      ensures filterBlock.filtered + |filterBlock.pending| == old(filterBlock.filtered + |filterBlock.pending|)
      ensures BlocksNoted(contents, cuts, offs, filterBlock.covered, filterBlock.pending)
    {
      ghost var covered, pending := filterBlock.covered, filterBlock.pending;
      filterBlock.StartBlock(offset);
      forall i, m | 0 <= i < |offs| && cuts[i] <= m < cuts[i + 1]
        ensures Noted(filterBlock.covered, filterBlock.pending, offs[i], contents[m].key)
      {
        StillNoted(covered, pending, filterBlock.covered, filterBlock.pending, offs[i], contents[m].key);
      }
    }
  
    /** The waiting index entry, shortened now that the next key is known. */
    method AddWaitingIndex(next: TableEntry)
      requires Indexed(contents + [next], cuts, indexBlock) && |cuts| == |offs| + 1 && cuts[|offs|] == |contents| > 0
      requires |indexBlock| + 1 == |offs| && pendingHandle == offs[|offs| - 1]
      requires lastKey == contents[|contents| - 1].key && KeyLess(lastKey, next.key)
      requires forall i {:trigger indexBlock[i]} :: 0 <= i < |indexBlock| ==> indexBlock[i].offset == offs[i]
      modifies this`indexBlock, this`lastKey
      ensures Indexed(contents + [next], cuts, indexBlock) && |indexBlock| == |offs|
      ensures forall i {:trigger indexBlock[i]} :: 0 <= i < |indexBlock| ==> indexBlock[i].offset == offs[i]
    {
      lastKey := InternalSeparator(lastKey, next.key);
      var entry := IndexEntry(lastKey, pendingHandle);
      assert IndexedAt(contents + [next], cuts, entry, |indexBlock|);
      AppendIndex(contents + [next], cuts, indexBlock, entry);
      indexBlock := indexBlock + [entry];
    }

    /** The part of Add that concerns the blocks: the waiting index entry, then the entry itself. */
    method AddToBlocks(e: TableEntry)
      requires BlocksOk() && PendingOk() && !closed
      requires contents != [] ==> KeyLess(contents[|contents| - 1].key, e.key)
      modifies this`indexBlock, this`pendingIndexEntry, this`lastKey, this`numEntries, this`dataBlock, this`contents
      ensures BlocksOk() && PendingOk() && contents == old(contents) + [e]
    {
      AppendEntry(contents, cuts, offs, file, indexBlock, e);
      if pendingIndexEntry {
        AddWaitingIndex(e);
        pendingIndexEntry := false;
      }
      PushEntry(e);
    }

    method PushEntry(e: TableEntry)
      requires SortedEntries(contents + [e]) && Written(contents + [e], cuts, offs, file) && Indexed(contents + [e], cuts, indexBlock)
      requires cuts[|offs|] <= |contents| && dataBlock == contents[cuts[|offs|]..] && (forall o :: o in file ==> o < offset)
      requires |indexBlock| == |offs| && !pendingIndexEntry && !closed && numEntries == |contents|
      requires forall i {:trigger indexBlock[i]} :: 0 <= i < |indexBlock| ==> indexBlock[i].offset == offs[i]
      modifies this`lastKey, this`numEntries, this`dataBlock, this`contents
      ensures BlocksOk() && PendingOk() && contents == old(contents) + [e]
    {
      lastKey := e.key;
      numEntries := numEntries + 1;
      dataBlock := dataBlock + [e];
      contents := contents + [e];
    }

    method Add(key: TableKey, value: Bytes)
      requires Valid() && !closed
      requires contents != [] ==> KeyLess(contents[|contents| - 1].key, key)
      modifies this, filterBlock
      ensures Valid() && !closed && contents == old(contents) + [TableEntry(key, value)]
      ensures dataBlock == NextBlock(encodedSize, blockSize, old(dataBlock) + [TableEntry(key, value)])
    {
      ghost var before, at := contents, cuts[|offs|];
      AddEntry(TableEntry(key, value));
      OneMoreInBlock(before, at, TableEntry(key, value));
      if encodedSize(dataBlock) >= blockSize {
        Flush();
      }
    }

    /** Add up to the test of the block's size. */
    method AddEntry(e: TableEntry)
      requires Valid() && !closed
      requires contents != [] ==> KeyLess(contents[|contents| - 1].key, e.key)
      modifies this`indexBlock, this`pendingIndexEntry, this`lastKey, this`numEntries, this`dataBlock, this`contents, filterBlock
      ensures Valid() && !closed && contents == old(contents) + [e]
    {
      if filterBlock != null {
        KeyNoted(contents, cuts, offs, offset, filterBlock.covered, filterBlock.pending, e);
        filterBlock.AddKey(Encode(e.key));
      }
      AddToBlocks(e);
    }

    /** The finished table answers every lookup, provided its filters fit into 32-bit offsets, as they do
        for fewer than 2^32 / (9 + bits per key) entries. */
    method Finish() returns (t: TableFile)
      requires Valid() && !closed
      modifies this, filterBlock
      ensures closed && contents == old(contents)
      ensures t.filter.Some? <==> filterBlock != null
      ensures filterBlock == null || |filterBlock.result| < 0x1_0000_0000 ==> TableOk(hash, t, contents, cuts, offs)
      ensures filterBlock != null ==> |filterBlock.result| <= MostBytes(|contents|, filterBlock.bitsPerKey)
    {
      FinishBlocks();
      var filter := None;
      if filterBlock != null {
        var bytes := FinishFilter();
        filter := Some(bytes);
      }
      t := TableFile(indexBlock, file, filter);
    }

    /** The last data block and the last index entry. */
    method FinishBlocks()
      requires Valid() && !closed
      modifies this, filterBlock
      ensures BlocksOk() && FilterNotes() && closed && contents == old(contents) && |indexBlock| == |offs| && dataBlock == []
    {
      Flush();
      if pendingIndexEntry {
        AddLastIndex();
        pendingIndexEntry := false;
      }
      closed := true;
    }

    /** The index entry of the last block. (The source adds it after writing the filter block,
        which does not depend on it.) */
    method AddLastIndex()
      requires BlocksOk() && PendingOk() && !closed && pendingIndexEntry
      modifies this`indexBlock, this`lastKey
      ensures BlocksOk() && |indexBlock| == |offs|
    {
      lastKey := InternalSuccessor(lastKey);
      var entry := IndexEntry(lastKey, pendingHandle);
      assert IndexedAt(contents, cuts, entry, |indexBlock|);
      AppendIndex(contents, cuts, indexBlock, entry);
      indexBlock := indexBlock + [entry];
    }

    method FinishFilter() returns (bytes: Bytes)
      requires filterBlock != null && filterBlock.Valid() && filterBlock.hash == hash
      requires Cuts(cuts, |contents|) && |cuts| == |offs| + 1
      requires BlocksNoted(contents, cuts, offs, filterBlock.covered, filterBlock.pending)
      modifies filterBlock
      ensures |filterBlock.result| <= MostBytes(old(filterBlock.filtered + |filterBlock.pending|), filterBlock.bitsPerKey)
      ensures |filterBlock.result| < 0x1_0000_0000 ==> FilterOk(hash, bytes, contents, cuts, offs)
    {
      ghost var covered, pending := filterBlock.covered, filterBlock.pending;
      bytes := filterBlock.Finish();
      if |filterBlock.result| < 0x1_0000_0000 {
        FinishedFilterOk(hash, filterBlock.result, filterBlock.filterOffsets, covered, pending, filterBlock.covered, bytes, contents, cuts, offs);
      }
    }
  }

  /** A block stays open until it has reached its size. */
  function NextBlock(encodedSize: seq<TableEntry> -> nat, blockSize: nat, block: seq<TableEntry>): seq<TableEntry> {
    if encodedSize(block) < blockSize then block else []
  }

  lemma OneMoreInBlock(contents: seq<TableEntry>, at: nat, e: TableEntry)
    requires at <= |contents|
    ensures (contents + [e])[at..] == contents[at..] + [e]
  {}

  /** Keys noted for their blocks are admitted once the last filter is generated. */
  lemma FinishedFilterOk(hash: Hash, result: Bytes, offsets: seq<nat>, covered: seq<set<Bytes>>, pending: seq<Bytes>, after: seq<set<Bytes>>,
                         bytes: Bytes, contents: seq<TableEntry>, cuts: seq<nat>, offs: seq<nat>)
    requires Cuts(cuts, |contents|) && |cuts| == |offs| + 1 && BlocksNoted(contents, cuts, offs, covered, pending)
    requires Covers(hash, result, offsets, after) && |result| < 0x1_0000_0000 && bytes == FinishedBlock(result, offsets)
    requires after == if pending == [] then covered else covered + [UsersOf(pending)]
    ensures FilterOk(hash, bytes, contents, cuts, offs)
  {
    forall i, m, k | 0 <= i < |offs| && cuts[i] <= m < cuts[i + 1] && ExtractUserKey(k) == contents[m].key.user
      ensures Admits(hash, bytes, offs[i], k)
    {
      assert Noted(covered, pending, offs[i], contents[m].key);
      NoFalseNegatives(hash, result, offsets, after, bytes, offs[i], k);
    }
  }

  /** Building a table from any strictly increasing entries and looking a key up in it. */
  method BuildAndGet(hash: Hash, filterBlock: FilterBlockBuilder?, encodedSize: seq<TableEntry> -> nat, blockSize: nat,
                     entries: seq<TableEntry>, k: TableKey)
    returns (r: Option<TableEntry>, fits: bool)
    requires SortedEntries(entries)
    requires filterBlock != null ==>
      filterBlock.Valid() && filterBlock.hash == hash && filterBlock.pending == [] && filterBlock.covered == []
    modifies filterBlock
    ensures fits <==> filterBlock == null || |filterBlock.result| < 0x1_0000_0000
    ensures filterBlock != null && MostBytes(|entries|, filterBlock.bitsPerKey) < 0x1_0000_0000 ==> fits
    ensures fits ==> Answers(entries, k, r)
  {
    var builder := new TableBuilder(hash, filterBlock, encodedSize, blockSize);
    AddAll(builder, entries);
    var t := builder.Finish();
    fits := filterBlock == null || |filterBlock.result| < 0x1_0000_0000;
    if !fits {
      return None, false;
    }
    r := InternalGet(hash, t, k, builder.contents, builder.cuts, builder.offs);
  }

  method AddAll(builder: TableBuilder, entries: seq<TableEntry>)
    requires builder.Valid() && !builder.closed && builder.contents == [] && SortedEntries(entries)
    modifies builder, builder.filterBlock
    ensures builder.Valid() && !builder.closed && builder.contents == entries
  {
    for i := 0 to |entries|
      invariant builder.Valid() && !builder.closed && builder.contents == entries[..i]
    {
      assert i > 0 ==> KeyLess(entries[i - 1].key, entries[i].key);
      assert entries[..i + 1] == entries[..i] + [TableEntry(entries[i].key, entries[i].value)];
      builder.Add(entries[i].key, entries[i].value);
    }
    assert entries[..|entries|] == entries;
  }
}
