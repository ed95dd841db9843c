# A verified model of the storage and event-loop engines

This project models the C and C++ engines that the MinskMetroSchedule app carries in `Pods/`:
LevelDB's log-structured store, its write-ahead log, manifest records, table files, skip list, group
commit and LRU cache; libuv's worker pool, pointer heap and timers; and nanopb's encoder and decoder.
It proves what they promise with Dafny 4.11 (`dafny verify dfyconfig.toml`).

| files | what they hold |
|---|---|
| `Keys`, `ByteOrder` | internal keys, entries, and what a read at a sequence number means |
| `LsmState`, `Compaction`, `CompactionViews`, `Runs` | the store as a state machine: write, rotate, flush, move, compact, snapshot, release; its invariant; views against the full write history over whole runs |
| `StoreAsMap` | over a run the store is a map: reads against the writes applied in order |
| `LostDeletions` | a run from the empty store in which a compaction brings a deleted key back |
| `FileLists`, `InputSelection`, `CompactionWork`, `VersionBuilder`, `Reads` | the algorithms behind the steps: file searches, input selection, the drop loop with its cursors, manifest edits, level-by-level lookup |
| `TwoLevel`, `Merger`, `DbIter` | the iterator over the files of a level, the merging iterator and the user-level iterator, with direction switching |
| `Store` | the `Db` object on its own fields; each of its methods is one step of the state machine |
| `LogFormat`, `LogFiles`, `LogReading` | the block-fragmented log: format, writer, reader, and the crash theorem that joins them |
| `VersionEdits`, `Verdicts` | the tagged records of the manifest: encoder, what a decoder accepts of any bytes, and when one undoes the other; a helper for properties looked into on demand |
| `ManifestRecovery` | from edits to manifest bytes and, after a crash, back to the files and numbers of the store |
| `Separators`, `Bloom`, `FilterBlock`, `Table`, `TableBuilding` | byte-string index separators, Bloom filters on bits, the filter block on bytes, the table index and lookup |
| `Varints`, `BlockFormat`, `BlockReading` | prefix-compressed blocks with restart points: builder, decoder, and the iterator as a cursor over the entries |
| `SkipLists` | the memtable's skip list on its nodes, well formed after every store |
| `GroupCommit` | the queue of writers and its groups, over every interleaving |
| `HandleTables`, `LruCaches` | the cache's hash chains, two rings of handles and reference counts |
| `ThreadPool`, `ThreadPoolInvariants`, `ThreadPoolCompletion`, `ThreadPoolRuns`, `ThreadPoolOrder`, `WorkerPool` | the worker pool as a protocol of atomic stretches, its safety, progress and order of service, and the functions on the shared variables |
| `Heap`, `Timers` | the parent-linked binary heap addressed by the bits of its size, and the timers on it |
| `NanoMessages`, `NanoFields`, `NanoEncoding`, `NanoWire`, `NanoDecoding`, `NanoRoundTrip` | protocol buffer messages and their bytes: the two-pass encoder, the cyclic field iterator, any bytes as a list of records, the decoder with its substreams, and the round trip |

How things are represented:

- A user key of the store is a `real`: the engine only compares keys, and every countable total
  order embeds in the reals; `ByteOrder` gives the embedding for the default comparator. Table files,
  where the bytes matter, use byte strings. Values are byte strings.
- A level is the set of its files in the state machine and the sorted list the source keeps in the
  algorithms; a file is its number, size and sorted entries.
- Checksums and the Bloom hash are arbitrary functions given as parameters; the proofs hold for
  every choice. So do file sizes, the number of filter probes, and every choice of what to compact.
- A condition variable's signal wakes one waiting thread if there is one; spurious wakeups are steps
  of their own, so waking more is covered.

What the proofs found:

- **A compaction can bring a deleted key back.** `SetupOtherInputs` extends the upper inputs by
  boundary files but not the lower ones (`version_set.cc:1407-1411`). If the lower inputs end with a
  version of a user key whose older versions start the next file of the level, a deletion marker of
  that key may be dropped as obsolete while the older value stays. `CompactionKeepsViewsIff` gives the
  exact condition, `LowerInputsClosedIff` says when the lower inputs have such a file, and
  `DeletionCanBeLost` is a run from the empty store, for any user key, values and file sizes, after which
  the deleted value is read again; `FlushLevelsArePicked` and `InputsArePicked` show that the code picks the
  levels and inputs of that run. Its one cut between two versions of a key comes about by size, for
  example uncompressed with the default options: the value `w` beside the key fills the output to just
  below 2 MB, and the key itself fills a block, so that the deletion marker is the entry that reaches
  the limit.
- **The largest sequence number is not usable.** The drop rule starts each user key with
  `kMaxSequenceNumber` as the newer version seen so far. It agrees with its meaning if and only if the
  smallest snapshot is below that number (`LoopRuleIff`); with a smallest snapshot equal to it every
  entry would be dropped (`DoCompactionWork`). Writes are modelled below it.
- **Timers at the end of time.** A repeating timer due when the loop's 64-bit clock is at its largest
  value comes back due at once (`RestartsLaterIff`, `RepeatingStaysDue`); running the timers ends if and
  only if the clock is below that value or no timer in the heap repeats (`RoundsEndIff`).
- **Cancelling twice.** A request whose cancellation is complete but not reported can be cancelled again:
  the call succeeds and moves the request to the end of its completion queue (`CancelAgain`, with the run
  `CancelledTwice`). It is still reported once.
- **A request for a new memtable can be swallowed.** A write without a batch that stands behind another
  write is taken into that write's group and answered, without the turn that would have forced the
  memtable to be switched: if and only if nobody up to it stops the group by the sync or size rule
  (`SwallowedIff`, with the run `RequestSwallowed`).
- **Filters of 4 GB lose keys.** The offsets of a filter block have 32 bits. `BuildAndGet` shows that a
  table of n keys stays within them if n times nine bytes and the bits per key does; with exactly 2^32
  bytes of filters a lookup can reject a key that was added (`OversizedFilterLosesKey`).
- **Clear keeps the compaction pointers.** An edit decoded into an object that holds some gets them in
  front of its own (`VersionEdits.RoundTrip`).
- **What does not survive the protocol buffer round trip.** The encoder accepts a string that fills its
  storage without a terminator; the decoder refuses it. `NanoRoundTrip.RoundTrip` has the exact condition.

## Model

| member | source | states |
|---|---|---|
| ByteOrder.RankEmbedsByteOrder | MinskMetroSchedule/Pods/leveldb-library/util/comparator.cc:25-27 | comparing ranks in the reals is comparing byte strings, so real-valued user keys lose nothing |
| Keys.NewestUnique | MinskMetroSchedule/Pods/leveldb-library/db/memtable.cc:100-134 | at most one entry is the newest version of a user key at or below a sequence number |
| Keys.LookupSplitsHistory | MinskMetroSchedule/Pods/leveldb-library/db/dbformat.cc:121-139 | the seek key of a lookup precedes exactly the versions of its user key with sequence number at most the snapshot |
| Keys.LowerBound | MinskMetroSchedule/Pods/leveldb-library/db/memtable.cc:102-103 | Seek on a sorted run: everything before the result precedes the key and the rest does not |
| Keys.RunGet | MinskMetroSchedule/Pods/leveldb-library/db/memtable.cc:100-134 | the first entry not before the lookup key, if of the same user key, is the newest visible version in the run; otherwise there is none |
| Keys.RunGetIsNewest | MinskMetroSchedule/Pods/leveldb-library/db/memtable.cc:104-132 | why one comparison after the seek decides between hit and miss |
| LsmState.WriteKeepsInv | MinskMetroSchedule/Pods/leveldb-library/db/db_impl.cc:1200-1237 | appending a batch with the next sequence numbers keeps level shape, uniqueness of sequence numbers and newer-above-older across all places |
| LsmState.RotateKeepsInv | MinskMetroSchedule/Pods/leveldb-library/db/db_impl.cc:1345-1366 | turning the full memtable into the immutable one keeps the invariant |
| LsmState.FlushKeepsInv | MinskMetroSchedule/Pods/leveldb-library/db/db_impl.cc:491-533 | writing the immutable memtable as a file at level 0, 1 or 2 keeps levels sorted and disjoint and data newer the earlier its place |
| LsmState.FlushKeepsRecency | MinskMetroSchedule/Pods/leveldb-library/db/version_set.cc:491-516 | the level chosen for a flushed file has nothing newer above it and nothing overlapping beside it |
| LsmState.SnapshotKeepsInv | MinskMetroSchedule/Pods/leveldb-library/db/db_impl.cc:1166-1169 | taking a snapshot keeps the invariant |
| LsmState.ReleaseKeepsInv | MinskMetroSchedule/Pods/leveldb-library/db/db_impl.cc:1171-1174 | releasing any snapshot keeps the invariant |
| LsmState.WriteKeepsFaithful | MinskMetroSchedule/Pods/leveldb-library/db/db_impl.cc:1200-1237 | after a write every view at an old sequence number is unchanged and new ones see the whole history |
| LsmState.ViewAfterAppend | MinskMetroSchedule/Pods/leveldb-library/db/write_batch.cc:116-137 | entries with larger sequence numbers do not change a view at a smaller one |
| Compaction.ReplaceKeepsRecency | MinskMetroSchedule/Pods/leveldb-library/db/version_set.cc:1403-1462 | replacing the selected files by merged ones one level deeper keeps data newer the earlier its place |
| Compaction.ReplaceKeepsDisjoint | MinskMetroSchedule/Pods/leveldb-library/db/version_set.cc:1403-1462 | the outputs are disjoint from every unselected file of the level they join |
| Compaction.ReplaceKeepsInv | MinskMetroSchedule/Pods/leveldb-library/db/db_impl.cc:860-876 | installing the outputs of any legal selection keeps the whole invariant |
| Compaction.TrivialMoveKeepsInv | MinskMetroSchedule/Pods/leveldb-library/db/db_impl.cc:718-733 | moving a lone file one level down without rewriting it keeps the invariant |
| CompactionViews.CompactionKeepsViewsIff | MinskMetroSchedule/Pods/leveldb-library/db/db_impl.cc:890-999 | a compaction keeps every view at every sequence number from the smallest snapshot on if and only if it does not drop a deletion marker whose older value stays behind in the first boundary file of the input range |
| CompactionViews.NoResurrectionKeepsView | MinskMetroSchedule/Pods/leveldb-library/db/db_impl.cc:944-963 | without that case, dropping hidden versions and obsolete deletion markers changes no readable view |
| CompactionViews.ResurrectionChangesView | MinskMetroSchedule/Pods/leveldb-library/db/version_set.cc:1403-1411 | in that case some view does change: the deleted value is readable again |
| CompactionViews.LeftBehindIsAtBoundary | MinskMetroSchedule/Pods/leveldb-library/db/version_set.cc:1364-1401 | an older version of an input user key that is left unselected in the input levels lies in a file that starts at the boundary |
| CompactionViews.ResurrectingStep | MinskMetroSchedule/Pods/leveldb-library/db/version_set.cc:1403-1411 | when the case arises there is a reader who sees a different value afterwards |
| FileLists.FindFile | MinskMetroSchedule/Pods/leveldb-library/db/version_set.cc:88-106 | binary search returns the first file whose largest key is not before the key |
| FileLists.SomeFileOverlapsRange | MinskMetroSchedule/Pods/leveldb-library/db/version_set.cc:122-157 | true exactly when some file meets the user-key range, with open ends, by scan or by binary search |
| FileLists.GetOverlappingInputs | MinskMetroSchedule/Pods/leveldb-library/db/version_set.cc:519-559 | terminates despite restarting; returns the files meeting the range in order; at level 0 the range grown to is closed under overlap and contained in every closed range that covers the request |
| FileLists.GrowthIsForced | MinskMetroSchedule/Pods/leveldb-library/db/version_set.cc:541-556 | each restart widens the range only as far as every closed range must reach |
| FileLists.TotalFileSizeAdds | MinskMetroSchedule/Pods/leveldb-library/db/version_set.cc:60-66 | the total size of files put together is the sum of their total sizes |
| InputSelection.FindLargestKey | MinskMetroSchedule/Pods/leveldb-library/db/version_set.cc:1326-1340 | the largest key of the chosen files, or none |
| InputSelection.FindSmallestBoundaryFile | MinskMetroSchedule/Pods/leveldb-library/db/version_set.cc:1344-1362 | the file with the least smallest key among those that start after the given key with the same user key |
| InputSelection.AddBoundaryInputs | MinskMetroSchedule/Pods/leveldb-library/db/version_set.cc:1378-1401 | terminates; behind the chosen files come just the boundary files, each the first of the level that continues the last user key so far, until there is none; the choice stays a run of the level, in ascending order if it was |
| InputSelection.BoundaryKeepsOrder | MinskMetroSchedule/Pods/leveldb-library/db/version_set.cc:1391-1396 | a boundary file lies behind all chosen files, so appending it keeps them ascending |
| InputSelection.RunLeavesNothingOlder | MinskMetroSchedule/Pods/leveldb-library/db/version_set.cc:1364-1401 | a run of files without a boundary file leaves no older entry of its user keys in the level |
| InputSelection.GetRange | MinskMetroSchedule/Pods/leveldb-library/db/version_set.cc:1205-1224 | the least smallest and greatest largest key of the files |
| InputSelection.PickInputs | MinskMetroSchedule/Pods/leveldb-library/db/version_set.cc:1270-1322 | the picked file, extended at level 0 to all it overlaps, is a run of the level; by size it is the next one past the pointer |
| InputSelection.PickRange | MinskMetroSchedule/Pods/leveldb-library/db/version_set.cc:1464-1495 | a manual compaction picks the files meeting the range, cut to as few as reach the size limit in sum below level 0, again a run of the level |
| InputSelection.ReachesSize | MinskMetroSchedule/Pods/leveldb-library/db/version_set.cc:1476-1487 | how many of the files are kept until the size limit is reached |
| InputSelection.TotalIsSum | MinskMetroSchedule/Pods/leveldb-library/db/version_set.cc:1476-1487 | the running sum of the loop is the total size of the files taken |
| InputSelection.SetupOtherInputs | MinskMetroSchedule/Pods/leveldb-library/db/version_set.cc:1403-1462 | the upper inputs are the picked files and their boundary files, or all around the range of both inputs if and only if that adds a file, takes in no further lower file and stays below the size limit; the lower ones are those meeting their range; both satisfy what the compaction step requires, and each list below level 0 is ascending, as reading it as one run needs |
| InputSelection.SameLower | MinskMetroSchedule/Pods/leveldb-library/db/version_set.cc:1428-1433 | wider upper inputs meet as many lower files exactly when they meet the same ones |
| InputSelection.GrowUpper | MinskMetroSchedule/Pods/leveldb-library/db/version_set.cc:1420-1446 | the upper inputs grow exactly under those conditions, and the lower ones stay |
| InputSelection.OneMoreBoundary | MinskMetroSchedule/Pods/leveldb-library/db/version_set.cc:1388-1398 | a further boundary file behind those found so far |
| InputSelection.SetupIsSelection | MinskMetroSchedule/Pods/leveldb-library/db/version_set.cc:1403-1447 | those inputs form a legal selection: the upper level leaves nothing older behind and both cover the same range |
| InputSelection.LowerInputsClosedIff | MinskMetroSchedule/Pods/leveldb-library/db/version_set.cc:1410-1411 | the lower inputs leave an older entry of a selected user key behind exactly when they have a boundary file, which is not looked for there |
| InputSelection.PickLevelForMemTableOutput | MinskMetroSchedule/Pods/leveldb-library/db/version_set.cc:491-516 | the deepest level not below an overlapping one, within two levels and as long as the sum of the sizes of the overlapping grandparents is within the limit |
| CompactionWork.LevelCursors.IsBaseLevelForKey | MinskMetroSchedule/Pods/leveldb-library/db/version_set.cc:1533-1552 | with user keys asked in ascending order the advancing cursors answer exactly whether a deeper level has a file spanning the key |
| CompactionWork.HiddenShowsAtPrevious | MinskMetroSchedule/Pods/leveldb-library/db/db_impl.cc:937-962 | an input is hidden by a newer version at or below the smallest snapshot exactly when the previous sequence number of its user key is |
| CompactionWork.LoopRuleIff | MinskMetroSchedule/Pods/leveldb-library/db/db_impl.cc:937-955 | the loop hides exactly the inputs with such a newer version if and only if the smallest snapshot is below kMaxSequenceNumber or there is no input; at kMaxSequenceNumber it hides every input |
| CompactionWork.DropEntry | MinskMetroSchedule/Pods/leveldb-library/db/db_impl.cc:937-962 | the drop rule of one entry, for every smallest snapshot |
| CompactionWork.DoCompactionWork | MinskMetroSchedule/Pods/leveldb-library/db/db_impl.cc:899-999 | the loop writes, in order and cut into non-empty files, exactly the entries that are not hidden and not obsolete deletion markers; with a smallest snapshot of kMaxSequenceNumber it writes nothing |
| CompactionWork.KeptMembers | MinskMetroSchedule/Pods/leveldb-library/db/db_impl.cc:944-963 | an input survives exactly when the declarative rule says so |
| CompactionWork.KeptSorted | MinskMetroSchedule/Pods/leveldb-library/db/db_impl.cc:974-998 | what is written is strictly sorted |
| CompactionWork.ChunksFormLevel | MinskMetroSchedule/Pods/leveldb-library/db/db_impl.cc:974-996 | cutting a sorted output anywhere gives files that are sorted and disjoint |
| VersionBuilder.ReplayIsStepwise | MinskMetroSchedule/Pods/leveldb-library/db/version_set.cc:650-739 | absorbing all edits and then saving gives the files that applying delete-then-add edit by edit gives, if each number is added at most once per level |
| VersionBuilder.RecoveryRebuilds | MinskMetroSchedule/Pods/leveldb-library/db/version_set.cc:926-995 | replaying a snapshot record and the later edits rebuilds the current files |
| ManifestRecovery.EncodeEntry | MinskMetroSchedule/Pods/leveldb-library/db/version_edit.cc:41-85 | the bytes written for an edit are the encoding of just its files, numbers, comparator and pointers |
| ManifestRecovery.DecodeEntry | MinskMetroSchedule/Pods/leveldb-library/db/version_set.cc:933-943 | reading the bytes of an edit back gives that edit, with the table files its additions describe; whatever is accepted names only levels that exist |
| ManifestRecovery.CarriesOneMore | MinskMetroSchedule/Pods/leveldb-library/db/version_set.cc:949-967 | of each of the four numbers the latest one that was set is kept |
| ManifestRecovery.ReplayRecord | MinskMetroSchedule/Pods/leveldb-library/db/version_set.cc:933-968 | one more record is replayed on every level, and the numbers are those set last |
| ManifestRecovery.Recover | MinskMetroSchedule/Pods/leveldb-library/db/version_set.cc:926-1000 | for the records of any manifest whose edits add new files only: succeeds exactly when the three numbers were set, and gives each level, sorted, as replaying all edits leaves it |
| ManifestRecovery.SurvivingJournal | MinskMetroSchedule/Pods/leveldb-library/db/version_set.cc:1088-1116 | a snapshot record and any number of the edits after it are again such a manifest |
| ManifestRecovery.CrashRecovery | MinskMetroSchedule/Pods/leveldb-library/db/version_set.cc:801-1011 | a manifest is encoded, logged in one or two sessions, cut anywhere, read, decoded and replayed: recovery succeeds exactly when an edit after the snapshot is left, and then gives the files the running store had after the edits that are left and the numbers of the last of them; without a cut, all of them |
| VersionBuilder.Builder.Apply | MinskMetroSchedule/Pods/leveldb-library/db/version_set.cc:650-692 | any edit keeps the added files sorted; one whose additions have numbers new to the level is absorbed into the deleted and added sets of every level |
| VersionBuilder.Builder.SaveTo | MinskMetroSchedule/Pods/leveldb-library/db/version_set.cc:695-754 | if no added number is in the base, the merge of base and added files is sorted by smallest key and holds exactly the live files |
| VersionBuilder.SortedDisjointIsLevelList | MinskMetroSchedule/Pods/leveldb-library/db/version_set.cc:724-736 | a list sorted by smallest key of disjoint files is ascending in every key |
| Reads.SortNewestFirst | MinskMetroSchedule/Pods/leveldb-library/db/version_set.cc:278-280 | sorting by descending number keeps the files |
| Reads.SearchLevelZero | MinskMetroSchedule/Pods/leveldb-library/db/version_set.cc:349-364 | trying the overlapping level-0 files newest first and stopping at the first hit finds the newest visible version of the level |
| Reads.SearchLevel | MinskMetroSchedule/Pods/leveldb-library/db/version_set.cc:365-382 | one binary-searched file of a deeper level decides, even when the versions of a user key straddle two files |
| Reads.OneFileSuffices | MinskMetroSchedule/Pods/leveldb-library/db/version_set.cc:365-382 | versions in a later file of the level are older than a hit in the found one |
| Reads.VersionGet | MinskMetroSchedule/Pods/leveldb-library/db/version_set.cc:326-421 | the levels in order, stopping at the first hit |
| Reads.FirstHitIsNewest | MinskMetroSchedule/Pods/leveldb-library/db/db_impl.cc:1125-1134 | the first place with a hit holds the newest visible version of the whole store |
| Reads.NoHitMeansNothing | MinskMetroSchedule/Pods/leveldb-library/db/db_impl.cc:1125-1134 | if no place has a hit, no version is visible |
| Runs.StepKeepsInv | MinskMetroSchedule/Pods/leveldb-library/db/db_impl.cc:688-767 | every step of the engine keeps the invariant |
| Runs.StepKeepsFaithful | MinskMetroSchedule/Pods/leveldb-library/db/db_impl.cc:688-767 | every step other than a compaction that loses a deletion keeps all views from the smallest snapshot on equal to those of the full history |
| Runs.ReachableInv | MinskMetroSchedule/Pods/leveldb-library/db/version_set.cc:1403-1462 | the invariant holds in every state of every run |
| Runs.RunIsFaithful | MinskMetroSchedule/Pods/leveldb-library/db/db_impl.cc:890-999 | over every run without a lost deletion, every read at a live sequence number equals the newest write in the full write history |
| StoreAsMap.RunIsMap | MinskMetroSchedule/Pods/leveldb-library/db/db_impl.cc:1113-1150 | over every run without a lost deletion the store is a map: a read gives what the puts and deletions of all writes, applied in order, leave for the key, and a read at the sequence number of an earlier state what they had left then |
| StoreAsMap.HistoryIsMap | MinskMetroSchedule/Pods/leveldb-library/db/db_impl.cc:1200-1237 | the newest entry of the write history for a key is what the map of the writes holds |
| StoreAsMap.BatchIsMap | MinskMetroSchedule/Pods/leveldb-library/db/write_batch.cc:116-137 | the stamped operations of one batch change the map in batch order |
| StoreAsMap.HistoryGrows | MinskMetroSchedule/Pods/leveldb-library/db/db_impl.cc:1200-1237 | what is written after a state lies beyond its sequence number |
| LostDeletions.DeletionCanBeLost | MinskMetroSchedule/Pods/leveldb-library/db/version_set.cc:1410-1411 | for every user key, values and file sizes, a run from the empty store of fourteen steps - writes around a snapshot, three flushes, a compaction cut between the two versions, the release and one more compaction - after which the deleted key reads as the deleted value |
| LostDeletions.TheRun | MinskMetroSchedule/Pods/leveldb-library/db/db_impl.cc:688-767 | each of those steps is one the engine can take |
| LostDeletions.InputsArePicked | MinskMetroSchedule/Pods/leveldb-library/db/version_set.cc:1403-1462 | SetupOtherInputs itself, given the level-1 file, picks the inputs of both compactions, whatever its size limit |
| LostDeletions.FlushLevelsArePicked | MinskMetroSchedule/Pods/leveldb-library/db/version_set.cc:491-516 | PickLevelForMemTableOutput itself picks the levels of the three flushes, if the files at level 2 stay within the overlap it allows |
| Merger.MergingIterator.SeekToFirst | MinskMetroSchedule/Pods/leveldb-library/table/merger.cc:31-37 | positions at the least entry of the union |
| Merger.MergingIterator.SeekToLast | MinskMetroSchedule/Pods/leveldb-library/table/merger.cc:39-45 | positions at the greatest entry of the union |
| Merger.MergingIterator.Seek | MinskMetroSchedule/Pods/leveldb-library/table/merger.cc:47-53 | positions at the first entry of the union not before the target |
| Merger.MergingIterator.Next | MinskMetroSchedule/Pods/leveldb-library/table/merger.cc:55-79 | from either direction, moves to the successor in the union |
| Merger.MergingIterator.Prev | MinskMetroSchedule/Pods/leveldb-library/table/merger.cc:81-108 | from either direction, moves to the predecessor in the union |
| Merger.SmallestAfter | MinskMetroSchedule/Pods/leveldb-library/table/merger.cc:148-161 | the smallest of children that sit just after a key is the successor of that key in the union |
| Merger.LargestBefore | MinskMetroSchedule/Pods/leveldb-library/table/merger.cc:163-176 | the largest of children that sit just before a key is its predecessor in the union |
| Merger.MergeAll | MinskMetroSchedule/Pods/leveldb-library/db/version_set.cc:1237-1268 | reading the merged inputs forward gives the sorted union |
| TwoLevel.JoinedSorted | MinskMetroSchedule/Pods/leveldb-library/db/version_set.cc:236-238 | the files of a level put end to end are one sorted run |
| TwoLevel.JoinedContents | MinskMetroSchedule/Pods/leveldb-library/db/version_set.cc:230-247 | that run holds exactly the entries of the files |
| TwoLevel.JoinedEntry | MinskMetroSchedule/Pods/leveldb-library/db/version_set.cc:164-221 | entry q of file i is in the run where the sizes of the files before put it |
| TwoLevel.SoughtAt | MinskMetroSchedule/Pods/leveldb-library/table/two_level_iterator.cc:82-87 | the file found by its largest key and the entry found in it are the first entry of the run not before the target |
| TwoLevel.TwoLevelIterator.Seek | MinskMetroSchedule/Pods/leveldb-library/table/two_level_iterator.cc:82-87 | moves to the first entry of all files not before the target, or off the end |
| TwoLevel.TwoLevelIterator.SeekToFirst | MinskMetroSchedule/Pods/leveldb-library/table/two_level_iterator.cc:89-94 | moves to the first entry of all files |
| TwoLevel.TwoLevelIterator.SeekToLast | MinskMetroSchedule/Pods/leveldb-library/table/two_level_iterator.cc:96-101 | moves to the last entry of all files |
| TwoLevel.TwoLevelIterator.Next | MinskMetroSchedule/Pods/leveldb-library/table/two_level_iterator.cc:103-107 | moves to the next entry, across the end of a file |
| TwoLevel.TwoLevelIterator.Prev | MinskMetroSchedule/Pods/leveldb-library/table/two_level_iterator.cc:109-113 | moves to the entry before, across the start of a file |
| TwoLevel.TwoLevelIterator.SkipEmptyDataBlocksForward | MinskMetroSchedule/Pods/leveldb-library/table/two_level_iterator.cc:115-126 | terminates on the entry ahead or past the last file |
| TwoLevel.TwoLevelIterator.SkipEmptyDataBlocksBackward | MinskMetroSchedule/Pods/leveldb-library/table/two_level_iterator.cc:128-139 | terminates on the entry behind or before the first file |
| DbIter.InternalIterator.Next | MinskMetroSchedule/Pods/leveldb-library/table/merger.cc:55-79 | the merging iterator moves to the next position of the sorted union |
| DbIter.InternalIterator.Prev | MinskMetroSchedule/Pods/leveldb-library/table/merger.cc:81-108 | the merging iterator moves to the position before |
| DbIter.InternalIterator.Seek | MinskMetroSchedule/Pods/leveldb-library/table/merger.cc:47-53 | the merging iterator moves to the first position not before the target |
| DbIter.SetCursorIsListCursor | MinskMetroSchedule/Pods/leveldb-library/table/merger.cc:31-108 | the successor and predecessor of an entry in the union of the children are its neighbours in one sorted list |
| DbIter.DBIter.Next | MinskMetroSchedule/Pods/leveldb-library/db/db_iter.cc:141-166 | from either direction, moves to the next readable user key, or off the end if there is none |
| DbIter.DBIter.Prev | MinskMetroSchedule/Pods/leveldb-library/db/db_iter.cc:200-225 | from either direction, moves to the previous readable user key, or off the start |
| DbIter.DBIter.Seek | MinskMetroSchedule/Pods/leveldb-library/db/db_iter.cc:269-281 | moves to the first readable user key not before the target |
| DbIter.DBIter.SeekToFirst | MinskMetroSchedule/Pods/leveldb-library/db/db_iter.cc:283-292 | moves to the first readable user key |
| DbIter.DBIter.SeekToLast | MinskMetroSchedule/Pods/leveldb-library/db/db_iter.cc:294-299 | moves to the last readable user key |
| DbIter.DBIter.FindNextUserEntry | MinskMetroSchedule/Pods/leveldb-library/db/db_iter.cc:168-198 | the forward scan stops at the first shown entry past the skipped user key |
| DbIter.DBIter.FindPrevUserEntry | MinskMetroSchedule/Pods/leveldb-library/db/db_iter.cc:227-267 | the backward scan saves the newest visible value of the previous readable user key |
| DbIter.ShownIsView | MinskMetroSchedule/Pods/leveldb-library/db/db_iter.cc:168-198 | an entry shown by the iterator is what a read of its user key returns |
| DbIter.ViewIsShown | MinskMetroSchedule/Pods/leveldb-library/db/db_iter.cc:168-198 | every user key with a readable value is shown by some entry |
| DbIter.NotShownIsNone | MinskMetroSchedule/Pods/leveldb-library/db/db_iter.cc:168-198 | a user key that is not shown reads as absent |
| Store.Db.Write | MinskMetroSchedule/Pods/leveldb-library/db/db_impl.cc:1200-1237 | the batch enters the memtable with the next sequence numbers: a write step of the state machine |
| Store.Db.Rotate | MinskMetroSchedule/Pods/leveldb-library/db/db_impl.cc:1336-1366 | memtable rotation: a rotate step |
| Store.Db.Get | MinskMetroSchedule/Pods/leveldb-library/db/db_impl.cc:1100-1145 | returns the view of the user key at the snapshot or at the last sequence number |
| Store.Db.GetSnapshot | MinskMetroSchedule/Pods/leveldb-library/db/db_impl.cc:1166-1169 | a snapshot step |
| Store.Db.ReleaseSnapshot | MinskMetroSchedule/Pods/leveldb-library/db/db_impl.cc:1171-1174 | a release step |
| Store.Db.LogAndApply | MinskMetroSchedule/Pods/leveldb-library/db/version_set.cc:801-884 | the version after an edit has exactly the files that applying the edit gives |
| Store.Db.CompactMemTable | MinskMetroSchedule/Pods/leveldb-library/db/db_impl.cc:535-566 | a flush step at the level picked |
| Store.Db.WriteLevel0Table | MinskMetroSchedule/Pods/leveldb-library/db/db_impl.cc:491-533 | the flushed file holds exactly the immutable memtable and its level is allowed |
| Store.Db.RunCompaction | MinskMetroSchedule/Pods/leveldb-library/db/version_set.cc:1237-1268 | merging the inputs, below level 0 one run per level, and applying the drop rule produces files that hold exactly the surviving entries |
| Store.Db.CompactPicked | MinskMetroSchedule/Pods/leveldb-library/db/db_impl.cc:718-767 | the picked inputs are moved or compacted: a trivial-move or compaction step; a lone file without lower inputs is moved exactly when the compaction is automatic and its grandparents are within the limit |
| Store.Db.IsTrivialMove | MinskMetroSchedule/Pods/leveldb-library/db/version_set.cc:1514-1522 | one upper input, no lower one, and grandparents within the limit |
| Store.Db.InstallCompactionResults | MinskMetroSchedule/Pods/leveldb-library/db/db_impl.cc:860-876 | deleting the inputs and adding the outputs in one edit is the replacement the state machine allows |
| Store.Db.BackgroundCompaction | MinskMetroSchedule/Pods/leveldb-library/db/db_impl.cc:688-767 | whatever is picked, automatic or manual, the result is nothing or one legal step |
| Store.Db.NewIterator | MinskMetroSchedule/Pods/leveldb-library/db/db_impl.cc:1062-1157 | the iterator over the merging iterator of the memtables, the level-0 files and one run per deeper level shows exactly the views of all user keys at its sequence number |
| Store.Db.NewConcatenatingIterator | MinskMetroSchedule/Pods/leveldb-library/db/version_set.cc:223-228 | a cursor over exactly the entries of the level, in any reachable state |
| Store.InstallIsReplace | MinskMetroSchedule/Pods/leveldb-library/db/db_impl.cc:860-876 | the edit of a compaction has the effect of replacing inputs by outputs on every level |
| Store.StoreRunsMergeable | MinskMetroSchedule/Pods/leveldb-library/db/db_impl.cc:1062-1087 | memtables, level-0 files and deeper levels share no internal key, as the merging iterator needs |
| LogFormat.Fixed32RoundTrip | MinskMetroSchedule/Pods/leveldb-library/util/coding.cc:9-11 | decoding inverts the fixed 32-bit encoding |
| LogFormat.UnmaskInvertsMask | MinskMetroSchedule/Pods/leveldb-library/db/log_writer.cc:95-96 | unmasking inverts the checksum mask |
| LogFormat.FragmentsFit | MinskMetroSchedule/Pods/leveldb-library/db/log_writer.cc:43-78 | every chunk of a record fits into the block it is written to |
| LogFormat.LongRecord | MinskMetroSchedule/Pods/leveldb-library/db/log_writer.cc:47-73 | a record of 97270 bytes behind one of 1000: three chunks, the middle one a whole block, and six bytes left over |
| LogFormat.ThreeRecords | MinskMetroSchedule/Pods/leveldb-library/db/log_writer.cc:37-73 | three records of 1000, 97270 and 8000 bytes: their five chunks, and the third record starting the fourth block |
| LogFormat.KnownWord | MinskMetroSchedule/Pods/leveldb-library/util/coding.cc:10-28 | four bytes, least significant first |
| LogFormat.KnownMasks | MinskMetroSchedule/Pods/leveldb-library/util/crc32c.h:22-31 | the masks of three checksums, in numbers |
| LogFormat.NextBlockHasRoom | MinskMetroSchedule/Pods/leveldb-library/db/log_writer.cc:44-60 | after a chunk that fills its block the next chunk makes progress |
| LogFormat.LogBytesAppend | MinskMetroSchedule/Pods/leveldb-library/db/log_writer.cc:34-108 | the bytes of two lists of records one after the other, including the filler at block ends |
| LogFiles.Writer.constructor | MinskMetroSchedule/Pods/leveldb-library/db/log_writer.cc:27-30 | a reopened log continues in the block where the file ends |
| LogFiles.Writer.AddRecord | MinskMetroSchedule/Pods/leveldb-library/db/log_writer.cc:34-80 | appends exactly the chunks of the record |
| LogFiles.Writer.EmitPhysicalRecord | MinskMetroSchedule/Pods/leveldb-library/db/log_writer.cc:82-108 | appends header and payload |
| LogFiles.WriteSessions | MinskMetroSchedule/Pods/leveldb-library/db/log_writer.cc:27-80 | any number of sessions write one continuous log |
| LogReading.Reader.ReadPhysicalRecord | MinskMetroSchedule/Pods/leveldb-library/db/log_reader.cc:189-271 | on any bytes: what is returned lies behind a header in the consumed range with its kind and length and, if checksums are checked, the unmasked checksum of kind and payload; otherwise the rest of the block is dropped, with one report on a mismatch or a bad length; on a prefix of a written log, the next chunk if it lies wholly in the file, otherwise end of file, with nothing reported |
| LogReading.Reader.NextChunk | MinskMetroSchedule/Pods/leveldb-library/db/log_reader.cc:79-98 | inside a record the next chunk starts it, continues it or completes it, and end of file comes only when the record is not wholly in the file |
| LogReading.Reader.Refill | MinskMetroSchedule/Pods/leveldb-library/db/log_reader.cc:191-214 | skipping the end of a block and reading the next one loses no chunk |
| LogReading.Reader.ReadRecord | MinskMetroSchedule/Pods/leveldb-library/db/log_reader.cc:56-174 | on any bytes terminates, and a record it returns is spelled by consecutive chunks of the file, from a first to a last one or a full one, each stored as its header and checksum say; on a prefix of a written log, the next record if it lies wholly in the file, otherwise none, with nothing reported |
| LogReading.ReadingStep | MinskMetroSchedule/Pods/leveldb-library/db/log_reader.cc:91-169 | each physical record continues the logical one it belongs to, and a last or full one completes it |
| LogReading.ParseOfWritten | MinskMetroSchedule/Pods/leveldb-library/db/log_reader.cc:216-259 | at a written chunk the file holds a header with its length, and the chunk itself if it is not cut |
| LogReading.SkipTrailer | MinskMetroSchedule/Pods/leveldb-library/db/log_reader.cc:191-198 | fewer than seven bytes at the end of a block hold no chunk |
| LogReading.ReadLog | MinskMetroSchedule/Pods/leveldb-library/db/log_reader.cc:56-174 | on any bytes, all records returned are spelled by such chunks, one record after the other; on a prefix of a written log, exactly the records wholly contained in it |
| LogReading.OnePieceMore | MinskMetroSchedule/Pods/leveldb-library/db/log_reader.cc:91-169 | one more intact chunk spells what was assembled so far and its payload |
| LogReading.OneRecordMore | MinskMetroSchedule/Pods/leveldb-library/db/log_reader.cc:56-174 | one more record is spelled behind those read before |
| LogReading.WriteCrashRead | MinskMetroSchedule/Pods/leveldb-library/db/log_reader.cc:56-174 | writing in several sessions, losing any tail and reading back yields exactly the records that end before the cut, in order, with no corruption reported |
| Separators.FirstDifference | MinskMetroSchedule/Pods/leveldb-library/util/comparator.cc:25-27 | the first differing byte decides the order |
| Separators.FindShortestSeparator | MinskMetroSchedule/Pods/leveldb-library/util/comparator.cc:29-50 | the start up to the first difference with that byte raised by one if it stays below the limit there, otherwise the start itself; not before it, no longer, and before limit if start is |
| Separators.FindShortSuccessor | MinskMetroSchedule/Pods/leveldb-library/util/comparator.cc:52-64 | the key up to its first byte below 0xff, raised by one; the key itself exactly for a run of 0xff |
| Separators.InternalSeparator | MinskMetroSchedule/Pods/leveldb-library/db/dbformat.cc:69-86 | lies between the keys in internal-key order; if it is a new key its user key lies strictly between theirs |
| Separators.InternalSuccessor | MinskMetroSchedule/Pods/leveldb-library/db/dbformat.cc:88-101 | not before the key; if it is a new key its user key lies strictly beyond |
| Separators.KeyOrder | MinskMetroSchedule/Pods/leveldb-library/db/dbformat.cc:51-67 | internal keys are totally ordered |
| Bloom.SetBitOnly | MinskMetroSchedule/Pods/leveldb-library/util/bloom.cc:50 | setting a bit sets it and leaves all others |
| Bloom.FilterBits | MinskMetroSchedule/Pods/leveldb-library/util/bloom.cc:30-37 | room for the bits per key of all keys and for at least 64 bits, and not a byte more than that takes |
| Bloom.ProbeSteps | MinskMetroSchedule/Pods/leveldb-library/util/bloom.cc:46-52 | probe j is the hash plus j times its rotation, in 32 bits |
| Bloom.KnownDeltas | MinskMetroSchedule/Pods/leveldb-library/util/bloom.cc:47 | the rotation by 17 bits, in numbers |
| Bloom.AllBitsSet | MinskMetroSchedule/Pods/leveldb-library/util/bloom.cc:72-78 | the probe loop answers whether the first k probes find their bits set |
| Bloom.KeyMayMatch | MinskMetroSchedule/Pods/leveldb-library/util/bloom.cc:56-80 | answers the declarative match of a filter |
| Bloom.CreateFilter | MinskMetroSchedule/Pods/leveldb-library/util/bloom.cc:28-54 | the filter appended matches every one of its keys |
| FilterBlock.KeyInFlat | MinskMetroSchedule/Pods/leveldb-library/table/filter_block.cc:59-66 | a key cut out of the flattened keys by its start and the next is the key added |
| FilterBlock.FilterBlockBuilder.AddKey | MinskMetroSchedule/Pods/leveldb-library/table/filter_block.cc:29-33 | adds the key to those of the next filter |
| FilterBlock.FilterBlockBuilder.GenerateFilter | MinskMetroSchedule/Pods/leveldb-library/table/filter_block.cc:51-75 | the new filter matches the user key of every key added since the last one |
| FilterBlock.FilterBlockBuilder.StartBlock | MinskMetroSchedule/Pods/leveldb-library/table/filter_block.cc:21-27 | there are exactly as many filters as 2048-byte ranges before the block, the keys added being in the first of the new ones |
| FilterBlock.FilterBlockBuilder.Finish | MinskMetroSchedule/Pods/leveldb-library/table/filter_block.cc:35-49 | the finished bytes are the filters, their offsets, where the offsets start, and the base |
| FilterBlock.KnownBlock | MinskMetroSchedule/Pods/leveldb-library/table/filter_block.cc:35-51 | a block with two filters, byte by byte |
| FilterBlock.FilterBlockReader.MayContain | MinskMetroSchedule/Pods/leveldb-library/table/filter_block.cc:90-104 | answers what the bytes say of a key in the block at an offset |
| FilterBlock.NoFalseNegatives | MinskMetroSchedule/Pods/leveldb-library/table/filter_block.cc:77-104 | reading back a finished filter block never rejects a key that was added for the block |
| FilterBlock.MostBytesAdd | MinskMetroSchedule/Pods/leveldb-library/util/bloom.cc:23-40 | the filters of n keys take at most nine bytes and the bits per key for each, however they are grouped |
| FilterBlock.OversizedRejects | MinskMetroSchedule/Pods/leveldb-library/table/filter_block.cc:90-104 | with exactly 2^32 bytes of filters that start with zeros, every key of the first blocks is rejected |
| FilterBlock.OversizedFilterLosesKey | MinskMetroSchedule/Pods/leveldb-library/table/filter_block.cc:35-49 | for every key there is such a filter block built from a filter that matches it |
| Table.InternalGet | MinskMetroSchedule/Pods/leveldb-library/table/table.cc:216-244 | reports the newest entry of the user key that the lookup key can see whenever the table has one |
| Table.KnownKey | MinskMetroSchedule/Pods/leveldb-library/db/dbformat.cc:14-23 | an encoded internal key, byte by byte |
| Table.EarlierBlocksPrecede | MinskMetroSchedule/Pods/leveldb-library/table/table_builder.cc:50-56 | every entry of the blocks before the chosen one precedes the lookup key |
| Table.NextBlocksDiffer | MinskMetroSchedule/Pods/leveldb-library/db/dbformat.cc:69-86 | if the chosen block has no entry at or after the lookup key, later blocks have none of its user key |
| Table.FilteredOut | MinskMetroSchedule/Pods/leveldb-library/table/table.cc:223-228 | a key the filter rejects is nowhere in the table |
| TableBuilding.AppendIndex | MinskMetroSchedule/Pods/leveldb-library/table/table_builder.cc:105-112 | an index entry that closes its block fits behind the others |
| TableBuilding.TableBuilder.Add | MinskMetroSchedule/Pods/leveldb-library/table/table_builder.cc:94-123 | keeps the index, the blocks and the filter keys in step with the entries added; the block gains the entry and is closed exactly when it has reached its size |
| TableBuilding.TableBuilder.AddWaitingIndex | MinskMetroSchedule/Pods/leveldb-library/table/table_builder.cc:105-112 | the waiting index entry gets a key that separates its block from the next |
| TableBuilding.TableBuilder.Flush | MinskMetroSchedule/Pods/leveldb-library/table/table_builder.cc:125-139 | writes the block, leaves its index entry waiting and starts the filter of the next |
| TableBuilding.TableBuilder.Finish | MinskMetroSchedule/Pods/leveldb-library/table/table_builder.cc:198-238 | the finished table has the index, blocks and filter that lookups need, if the filters are below 2^32 bytes; they never exceed nine bytes and the bits per key for each entry |
| TableBuilding.BuildAndGet | MinskMetroSchedule/Pods/leveldb-library/table/table_builder.cc:94-238 | a table built from any strictly increasing entries, with any block sizes, answers any lookup right, if it has no filter or nine bytes and the bits per key for each entry stay below 2^32 |
| ThreadPoolInvariants.SubmitKeepsInv | MinskMetroSchedule/Pods/Libuv-gRPC/src/threadpool.c:142-160 | submitting a request, slow or not, keeps the invariant |
| ThreadPoolInvariants.RoundKeepsInv | MinskMetroSchedule/Pods/Libuv-gRPC/src/threadpool.c:66-119 | every round of the worker loop keeps the invariant |
| ThreadPoolInvariants.ServeKeepsInv | MinskMetroSchedule/Pods/Libuv-gRPC/src/threadpool.c:66-119 | so does a whole stretch under the mutex |
| ThreadPoolInvariants.LockedKeepsInv | MinskMetroSchedule/Pods/Libuv-gRPC/src/threadpool.c:76-77 | waking up and returning with the mutex keep the counters right |
| ThreadPoolInvariants.SubmitSlow | MinskMetroSchedule/Pods/Libuv-gRPC/src/threadpool.c:144-154 | a pending slow request always has the marker queued |
| ThreadPoolInvariants.TakeSlowKeepsInv | MinskMetroSchedule/Pods/Libuv-gRPC/src/threadpool.c:91-117 | taking a slow request requeues the marker if more are pending and never exceeds half the threads |
| ThreadPoolCompletion.FinishKeepsInv | MinskMetroSchedule/Pods/Libuv-gRPC/src/threadpool.c:121-133 | handing a request back to its loop keeps the invariant |
| ThreadPoolCompletion.CancelKeepsInv | MinskMetroSchedule/Pods/Libuv-gRPC/src/threadpool.c:269-280 | taking a request off its queue for cancelling keeps the invariant |
| ThreadPoolCompletion.UnlinkedIsNowhere | MinskMetroSchedule/Pods/Libuv-gRPC/src/threadpool.c:275-277 | a request that passes the test is in one of the queues it is unlinked from |
| ThreadPoolCompletion.CancelEndKeepsInv | MinskMetroSchedule/Pods/Libuv-gRPC/src/threadpool.c:285-291 | marking it and handing it to its loop keeps the invariant |
| ThreadPoolCompletion.CallDoneKeepsInv | MinskMetroSchedule/Pods/Libuv-gRPC/src/threadpool.c:307-314 | calling one done callback keeps the invariant |
| ThreadPoolRuns.ReachableSafety | MinskMetroSchedule/Pods/Libuv-gRPC/src/threadpool.c:57-315 | in every reachable state each request is in exactly one place, reported at most once, as cancelled exactly when uv_cancel returned 0, run at most once; slow work stays within its threshold and no wakeup is lost |
| ThreadPoolRuns.CancelSucceedsIff | MinskMetroSchedule/Pods/Libuv-gRPC/src/threadpool.c:269-283 | uv_cancel succeeds exactly when no worker has taken the request |
| ThreadPoolRuns.CancelAgain | MinskMetroSchedule/Pods/Libuv-gRPC/src/threadpool.c:269-292 | cancelling a request whose cancellation is complete but not reported succeeds again, moves it to the end of its completion queue and changes nothing else |
| ThreadPoolRuns.CancelledTwice | MinskMetroSchedule/Pods/Libuv-gRPC/src/threadpool.c:269-292 | a run in which two cancellations of the same request both succeed |
| ThreadPoolRuns.InternalStepDecreases | MinskMetroSchedule/Pods/Libuv-gRPC/src/threadpool.c:57-315 | every step of the threads themselves uses up work |
| ThreadPoolRuns.InternalRunsEnd | MinskMetroSchedule/Pods/Libuv-gRPC/src/threadpool.c:57-315 | left alone the pool stops after a bounded number of steps |
| ThreadPoolRuns.QuietMeansAllDone | MinskMetroSchedule/Pods/Libuv-gRPC/src/threadpool.c:57-315 | when no thread can move and the pool is not shutting down, every submitted request has been reported exactly once |
| ThreadPoolRuns.QuietAfterExit | MinskMetroSchedule/Pods/Libuv-gRPC/src/threadpool.c:164-174 | after the exit message every worker leaves |
| ThreadPoolRuns.DoneAllReports | MinskMetroSchedule/Pods/Libuv-gRPC/src/threadpool.c:295-315 | one pass calls the callback of every completed request once, in order |
| ThreadPoolOrder.TakenInOrder | MinskMetroSchedule/Pods/Libuv-gRPC/src/threadpool.c:65-160 | over every run, of two requests of the main queue or two of the slow one, the one submitted first is taken first, unless it is cancelled |
| ThreadPoolOrder.QueuedComesFirst | MinskMetroSchedule/Pods/Libuv-gRPC/src/threadpool.c:80-84 | a request queued before the exit message or the slow-work marker is taken before a worker leaves or takes slow work for it, unless it is cancelled |
| ThreadPoolOrder.SlowTakesTurns | MinskMetroSchedule/Pods/Libuv-gRPC/src/threadpool.c:107-116 | between two slow requests every request queued before the first of them is taken, unless it is cancelled |
| ThreadPoolOrder.SleepsOnlyIf | MinskMetroSchedule/Pods/Libuv-gRPC/src/threadpool.c:69-78 | a worker that got the mutex goes to sleep only if nothing is queued, or only slow work while at least half of the threads are at it |
| ThreadPoolOrder.ReportedInOrder | MinskMetroSchedule/Pods/Libuv-gRPC/src/threadpool.c:121-129 | of two requests of one loop, the one finished first is reported first, unless it is cancelled |
| ThreadPoolRuns.CancelBothKeepsInv | MinskMetroSchedule/Pods/Libuv-gRPC/src/threadpool.c:269-292 | a whole cancellation keeps the invariant |
| ThreadPoolRuns.DoneAllKeepsInv | MinskMetroSchedule/Pods/Libuv-gRPC/src/threadpool.c:295-315 | calling all done callbacks keeps the invariant |
| WorkerPool.PoolSize | MinskMetroSchedule/Pods/Libuv-gRPC/src/threadpool.c:193-209 | four threads unless the environment says otherwise; what it says, with 0 taken for 1 and anything beyond 1024 or negative for 1024; four where more are asked for and their array cannot be allocated |
| WorkerPool.Pool.WorkSubmit | MinskMetroSchedule/Pods/Libuv-gRPC/src/threadpool.c:256-266 | is a submit step, which queues behind everything queued before (the order over whole runs is TakenInOrder) |
| WorkerPool.Pool.WorkerLocked | MinskMetroSchedule/Pods/Libuv-gRPC/src/threadpool.c:65-119 | is a lock step: the loop with its waits and restarts computes the step function |
| WorkerPool.Pool.WorkerRound | MinskMetroSchedule/Pods/Libuv-gRPC/src/threadpool.c:66-119 | is one round |
| WorkerPool.Pool.WorkFinished | MinskMetroSchedule/Pods/Libuv-gRPC/src/threadpool.c:121-129 | is a finish step |
| WorkerPool.Pool.WorkCancel | MinskMetroSchedule/Pods/Libuv-gRPC/src/threadpool.c:269-292 | is both halves of a cancellation, keeps the pool valid and returns 0 or UV_EBUSY |
| WorkerPool.Pool.WorkDone | MinskMetroSchedule/Pods/Libuv-gRPC/src/threadpool.c:295-315 | calls the done callbacks of all completed requests and keeps the pool valid |
| PointerHeap.SwapShape | MinskMetroSchedule/Pods/Libuv-gRPC/src/heap-inl.h:72-104 | after the swap every node points where its new slot says |
| PointerHeap.Heap.NodeSwap | MinskMetroSchedule/Pods/Libuv-gRPC/src/heap-inl.h:72-104 | the pointer changes exchange parent and child in the tree and nothing else |
| PointerHeap.RiseKeepsOrder | MinskMetroSchedule/Pods/Libuv-gRPC/src/heap-inl.h:146-147 | swapping a node with a greater parent leaves only the node itself possibly out of order |
| PointerHeap.SinkKeepsOrder | MinskMetroSchedule/Pods/Libuv-gRPC/src/heap-inl.h:220-229 | swapping a node with its smallest child leaves only the node itself possibly out of order |
| PointerHeap.RootIsLeast | MinskMetroSchedule/Pods/Libuv-gRPC/src/heap-inl.h:36-39 | the root precedes or equals every node |
| PointerHeap.Heap.SlotPath | MinskMetroSchedule/Pods/Libuv-gRPC/src/heap-inl.h:119-124 | the loop reverses the low bits of the size |
| PointerHeap.Heap.FollowPath | MinskMetroSchedule/Pods/Libuv-gRPC/src/heap-inl.h:126-136 | following the reversed bits from the root reaches the slot with that number |
| PointerHeap.Heap.Insert | MinskMetroSchedule/Pods/Libuv-gRPC/src/heap-inl.h:106-148 | keeps a linked, ordered, complete tree and adds exactly the node |
| PointerHeap.Heap.Remove | MinskMetroSchedule/Pods/Libuv-gRPC/src/heap-inl.h:150-237 | keeps a linked, ordered, complete tree and takes away exactly the node |
| PointerHeap.Heap.Replace | MinskMetroSchedule/Pods/Libuv-gRPC/src/heap-inl.h:195-214 | the last node takes over the place of the removed one |
| Timers.ClampedIsMin | MinskMetroSchedule/Pods/Libuv-gRPC/src/timer.c:78-80 | the overflow test of the 64-bit sum clamps it |
| Timers.TimerLoop.Start | MinskMetroSchedule/Pods/Libuv-gRPC/src/timer.c:66-94 | the timer is in the heap with its due time and the next start id; refused when closing or without callback |
| Timers.TimerLoop.Stop | MinskMetroSchedule/Pods/Libuv-gRPC/src/timer.c:97-107 | the timer is out of the heap and inactive |
| Timers.TimerLoop.Again | MinskMetroSchedule/Pods/Libuv-gRPC/src/timer.c:110-120 | a repeating timer restarts, or leaves the heap if it is closing; others are left alone |
| Timers.TimerLoop.NextTimeout | MinskMetroSchedule/Pods/Libuv-gRPC/src/timer.c:133-151 | -1 without timers, 0 when one is due, otherwise the time to the first one, at most INT_MAX |
| Timers.TimerLoop.RunTimers | MinskMetroSchedule/Pods/Libuv-gRPC/src/timer.c:154-171 | wherever the loop ends: terminates; fires each due timer exactly once, one with a smaller timeout first and of equal ones the one with the smaller start id; repeating ones come back later than now, others leave the heap, the rest are untouched; takes exactly the rounds there are |
| Timers.TimerLoop.FiresInStartOrder | MinskMetroSchedule/Pods/Libuv-gRPC/src/timer.c:41-55 | two timers that come due at the same time, started one after the other and run later, fire in the order of their starts |
| Timers.TimerLoop.FireRound | MinskMetroSchedule/Pods/Libuv-gRPC/src/timer.c:167-168 | stopping and restarting the timer is one round on the waiting timers |
| Timers.RestartsLaterIff | MinskMetroSchedule/Pods/Libuv-gRPC/src/timer.c:78-80 | a repeating timer comes back later than now if and only if the loop time is below the largest 64-bit value |
| Timers.RepeatingStaysDue | MinskMetroSchedule/Pods/Libuv-gRPC/src/timer.c:158-168 | at the largest time a repeating timer is due before and after every round |
| Timers.RoundsEndIff | MinskMetroSchedule/Pods/Libuv-gRPC/src/timer.c:154-171 | the rounds come to an end if and only if the time is below the largest 64-bit value or no timer in the heap repeats |
| Timers.TimerLoop.Init | MinskMetroSchedule/Pods/Libuv-gRPC/src/timer.c:58-63 | the handle is known to the loop, inactive, without callback and not repeating |
| Varints.PutVarint32 | MinskMetroSchedule/Pods/leveldb-library/util/coding.cc:47-79 | the five cases of the encoder are one recursion |
| Varints.KnownVarints | MinskMetroSchedule/Pods/leveldb-library/util/coding.cc:47-79 | three numbers, byte by byte |
| Varints.GetVarint32 | MinskMetroSchedule/Pods/leveldb-library/util/coding.cc:112-130 | on any bytes, the number that ends behind the first byte without the top bit, if that is among the first five and within the limit: its groups of seven bits, in 32 bits; otherwise none |
| Varints.ReadByte | MinskMetroSchedule/Pods/leveldb-library/util/coding.cc:114-128 | what a byte contributes at its shift, without overflow on encoded input |
| Varints.PutVarint64 | MinskMetroSchedule/Pods/leveldb-library/util/coding.cc:81-96 | the loop appends the bytes of the recursion |
| Varints.GetVarint64 | MinskMetroSchedule/Pods/leveldb-library/util/coding.cc:142-157 | the same with ten bytes and 64 bits |
| Varints.VarintIsRead | MinskMetroSchedule/Pods/leveldb-library/util/coding.cc:47-157 | a number that was written is what its bytes are read as |
| Varints.OneMoreGroup | MinskMetroSchedule/Pods/leveldb-library/util/coding.cc:114-128 | one more byte adds its seven bits at their place, and what does not fit the type is cut off |
| Varints.SumFits | MinskMetroSchedule/Pods/leveldb-library/util/coding.cc:144-149 | shifted bytes never add up to more than the type holds |
| BlockFormat.Common | MinskMetroSchedule/Pods/leveldb-library/table/block_builder.cc:80-84 | the longest common prefix: both keys agree up to it and differ after it |
| BlockFormat.KnownEntries | MinskMetroSchedule/Pods/leveldb-library/table/block_builder.cc:72-106 | an entry alone, behind another and at a restart, byte by byte |
| BlockFormat.PartAt | MinskMetroSchedule/Pods/leveldb-library/table/block.cc:54-75 | the bytes of an entry are where its offset says |
| BlockFormat.HoldsMore | MinskMetroSchedule/Pods/leveldb-library/table/block_builder.cc:72-106 | adding an entry appends its bytes, and a restart appends its offset |
| BlockFormat.BlockBuilder.Add | MinskMetroSchedule/Pods/leveldb-library/table/block_builder.cc:72-106 | the buffer and restart array stand for the entries added, in order, with a restart exactly when the counter has reached the interval, and the counter starts over there |
| BlockFormat.BlockBuilder.Finish | MinskMetroSchedule/Pods/leveldb-library/table/block_builder.cc:62-69 | the contents encode the entries and have the estimated size |
| BlockReading.DecodeEntry | MinskMetroSchedule/Pods/leveldb-library/table/block.cc:54-75 | on the bytes of an entry, fast path and slow path give its three lengths and never a null pointer |
| BlockReading.EntryInBlock | MinskMetroSchedule/Pods/leveldb-library/table/block.cc:224-251 | what a reader finds at the offset of each entry |
| BlockReading.RestartAt | MinskMetroSchedule/Pods/leveldb-library/table/block.cc:99-102 | the restart array holds the offsets of the restart entries |
| BlockReading.BlockIter.ParseNextKey | MinskMetroSchedule/Pods/leveldb-library/table/block.cc:224-251 | from one entry to the next, rebuilding the key from the shared prefix; the restart index follows |
| BlockReading.BlockIter.Next | MinskMetroSchedule/Pods/leveldb-library/table/block.cc:137-140 | moves to the next entry, or to the end |
| BlockReading.BlockIter.Prev | MinskMetroSchedule/Pods/leveldb-library/table/block.cc:142-161 | moves to the entry before, found by reading forward from an earlier restart point |
| BlockReading.BlockIter.Seek | MinskMetroSchedule/Pods/leveldb-library/table/block.cc:163-201 | binary search over restart points and a scan land on the first entry not before the target |
| BlockReading.BlockIter.SeekToFirst | MinskMetroSchedule/Pods/leveldb-library/table/block.cc:203-206 | moves to the first entry, or to the end of an empty block |
| BlockReading.BlockIter.SeekToLast | MinskMetroSchedule/Pods/leveldb-library/table/block.cc:208-213 | moves to the last entry, or to the end of an empty block |
| BlockReading.ScanBlock | MinskMetroSchedule/Pods/leveldb-library/table/block.cc:203-251 | a full scan returns exactly the entries encoded |
| BlockReading.RoundTrip | MinskMetroSchedule/Pods/leveldb-library/table/block_builder.cc:62-106 | building a block from any entries puts a restart at every interval-th one, and scanning it gives them back, exactly when its bytes fit into 32-bit offsets |
| SkipLists.SkipList.FindGreaterOrEqual | MinskMetroSchedule/Pods/leveldb-library/db/skiplist.h:260-281 | the first node not before the key, and on every level the last node before it |
| SkipLists.SkipList.FindLessThan | MinskMetroSchedule/Pods/leveldb-library/db/skiplist.h:283-302 | the last node before the key, or the head |
| SkipLists.SkipList.FindLast | MinskMetroSchedule/Pods/leveldb-library/db/skiplist.h:304-322 | the last node, or the head |
| SkipLists.SkipList.Contains | MinskMetroSchedule/Pods/leveldb-library/db/skiplist.h:370-378 | true exactly when an entry compares equal |
| SkipLists.ShapeInserted | MinskMetroSchedule/Pods/leveldb-library/db/skiplist.h:362-367 | reaching one level more keeps every level sorted and part of the level below |
| SkipLists.SkipList.LinkAhead | MinskMetroSchedule/Pods/leveldb-library/db/skiplist.h:363-365 | after the first store of a level, the new node's own link, every level is still well formed and unchanged |
| SkipLists.SkipList.Publish | MinskMetroSchedule/Pods/leveldb-library/db/skiplist.h:366 | after the second store the node is on the level, in order |
| SkipLists.SkipList.LinkLevel | MinskMetroSchedule/Pods/leveldb-library/db/skiplist.h:363-366 | the two stores of one level keep the whole list well formed, before, between and after |
| SkipLists.SkipList.Insert | MinskMetroSchedule/Pods/leveldb-library/db/skiplist.h:336-368 | for any height adds exactly the key at its place, the list being well formed after every level linked |
| SkipLists.Iterator.Next | MinskMetroSchedule/Pods/leveldb-library/db/skiplist.h:206-210 | moves to the next node of the lowest level |
| SkipLists.Iterator.Prev | MinskMetroSchedule/Pods/leveldb-library/db/skiplist.h:212-221 | moves to the node before, found by a search |
| SkipLists.Iterator.Seek | MinskMetroSchedule/Pods/leveldb-library/db/skiplist.h:223-226 | moves to the first node not before the target |
| SkipLists.Iterator.SeekToLast | MinskMetroSchedule/Pods/leveldb-library/db/skiplist.h:233-239 | moves to the last node |
| GroupCommit.NextKeepsInv | MinskMetroSchedule/Pods/leveldb-library/db/db_impl.cc:1185-1256 | every arrival and every turn at the front keeps the queue, groups, sequence numbers and memtable in step |
| GroupCommit.RunKeepsInv | MinskMetroSchedule/Pods/leveldb-library/db/db_impl.cc:1185-1256 | so does every interleaving |
| GroupCommit.SequenceRanges | MinskMetroSchedule/Pods/leveldb-library/db/db_impl.cc:1206-1207 | groups get disjoint increasing ranges of sequence numbers without gaps, failed ones included |
| GroupCommit.MemTableAscends | MinskMetroSchedule/Pods/leveldb-library/db/db_impl.cc:1224-1236 | what reaches the memtable carries strictly increasing sequence numbers up to the last one |
| GroupCommit.ReleasedOnce | MinskMetroSchedule/Pods/leveldb-library/db/db_impl.cc:1239-1248 | everyone released was released in one group only and has left the queue |
| GroupCommit.NobodyLost | MinskMetroSchedule/Pods/leveldb-library/db/db_impl.cc:1191-1198 | everyone who called is in the queue or was released |
| GroupCommit.SuccessMeansLogged | MinskMetroSchedule/Pods/leveldb-library/db/db_impl.cc:1213-1233 | a writer told of success has its whole batch in one piece in its group's log record, synced if it asked for that |
| GroupCommit.TurnsDecrease | MinskMetroSchedule/Pods/leveldb-library/db/db_impl.cc:1239-1248 | every turn shortens the queue |
| GroupCommit.TurnPossible | MinskMetroSchedule/Pods/leveldb-library/db/db_impl.cc:1193-1215 | as long as someone waits: the group being logged can finish with success, the front writer can start the group BuildBatchGroup takes, or its request for a memtable can be answered |
| GroupCommit.SwallowedIff | MinskMetroSchedule/Pods/leveldb-library/db/db_impl.cc:1272-1305 | a request for a new memtable behind a write is answered in that write's turn, without one of its own, if and only if nobody from the second writer to the request stops the group by the sync or size rule; otherwise it is still queued |
| GroupCommit.RequestSwallowed | MinskMetroSchedule/Pods/leveldb-library/db/db_impl.cc:1286-1305 | a run in which that happens |
| GroupCommit.BuildBatchGroup | MinskMetroSchedule/Pods/leveldb-library/db/db_impl.cc:1260-1306 | the longest group the sync and size rules allow, with its batches in queue order |
| GroupCommit.SizeCountsMerged | MinskMetroSchedule/Pods/leveldb-library/db/db_impl.cc:1286-1292 | the size that is compared is the sum of the sizes of the batches merged |
| GroupCommit.WriterQueue.StartGroup | MinskMetroSchedule/Pods/leveldb-library/db/db_impl.cc:1200-1213 | is a start step |
| GroupCommit.WriterQueue.FinishGroup | MinskMetroSchedule/Pods/leveldb-library/db/db_impl.cc:1215-1248 | is a finish step; every member finds its group's status |
| GroupCommit.WriterQueue.ReleaseGroup | MinskMetroSchedule/Pods/leveldb-library/db/db_impl.cc:1239-1248 | the loop releases exactly the writers up to the last of the group |
| HandleTables.MaskIsRemainder | MinskMetroSchedule/Pods/leveldb-library/util/cache.cc:115 | masking a hash with the bucket count less one takes the remainder, as bucket counts are powers of two |
| HandleTables.HandleTable.FindPointer | MinskMetroSchedule/Pods/leveldb-library/util/cache.cc:114-120 | the slot of the key's entry, or the empty slot at the end of its chain |
| HandleTables.HandleTable.Lookup | MinskMetroSchedule/Pods/leveldb-library/util/cache.cc:74-76 | the key's entry, or null exactly when there is none |
| HandleTables.HandleTable.Insert | MinskMetroSchedule/Pods/leveldb-library/util/cache.cc:78-92 | adds exactly the handle and returns the entry of the same key it replaces; a further entry leaves no more entries than buckets |
| HandleTables.HandleTable.Remove | MinskMetroSchedule/Pods/leveldb-library/util/cache.cc:94-102 | takes out and returns the key's entry |
| HandleTables.HandleTable.Resize | MinskMetroSchedule/Pods/leveldb-library/util/cache.cc:122-146 | moving the chains keeps exactly the entries, with at least as many buckets |
| HandleTables.SameEntry | MinskMetroSchedule/Pods/leveldb-library/util/cache.cc:111-113 | a key and hash have at most one entry |
| LruCaches.RingRemove | MinskMetroSchedule/Pods/leveldb-library/util/cache.cc:239-242 | takes one node out of its ring and leaves the other ring alone |
| LruCaches.RingAppend | MinskMetroSchedule/Pods/leveldb-library/util/cache.cc:244-250 | makes the node the newest of the ring |
| LruCaches.TotalAdds | MinskMetroSchedule/Pods/leveldb-library/util/cache.cc:284-300 | the charge of two lists together is the sum of their charges |
| LruCaches.LRUCache.Ref | MinskMetroSchedule/Pods/leveldb-library/util/cache.cc:217-223 | an unused entry moves to the in-use ring |
| LruCaches.LRUCache.Unref | MinskMetroSchedule/Pods/leveldb-library/util/cache.cc:225-237 | the last reference gone, the deleter runs; the last client gone, the entry becomes the newest unused one |
| LruCaches.LRUCache.Lookup | MinskMetroSchedule/Pods/leveldb-library/util/cache.cc:252-259 | returns the key's entry with one more client |
| LruCaches.LRUCache.Release | MinskMetroSchedule/Pods/leveldb-library/util/cache.cc:261-264 | unused entries are on the LRU ring in the order of their release |
| LruCaches.LRUCache.FinishErase | MinskMetroSchedule/Pods/leveldb-library/util/cache.cc:307-316 | the entry leaves its ring and the cache's charge; it is deleted exactly when no client holds it |
| LruCaches.LRUCache.Erase | MinskMetroSchedule/Pods/leveldb-library/util/cache.cc:318-321 | the key has no entry any more |
| LruCaches.LRUCache.EvictOldest | MinskMetroSchedule/Pods/leveldb-library/util/cache.cc:294-299 | the oldest unused entry is found in the table, leaves the cache and is deleted |
| LruCaches.LRUCache.Evict | MinskMetroSchedule/Pods/leveldb-library/util/cache.cc:293-300 | the k oldest unused entries leave the cache and are deleted in that order, each only while there is too much; then it fits or none is left |
| LruCaches.LRUCache.Insert | MinskMetroSchedule/Pods/leveldb-library/util/cache.cc:266-303 | the key's previous entry leaves its ring and is deleted at once if unused; the new one is the newest in use when there is a capacity; then the k oldest unused entries are deleted in order, each only while the charge exceeds the capacity; nothing else changes |
| LruCaches.LRUCache.Prune | MinskMetroSchedule/Pods/leveldb-library/util/cache.cc:323-333 | deletes exactly the unused entries, oldest first |
| VersionEdits.RoundTrip | MinskMetroSchedule/Pods/leveldb-library/db/version_edit.cc:41-205 | decoding what was encoded restores an edit if and only if its levels exist, its lengths fit 32 bits and the edit decoded into held no compaction pointers; pointers held before stay in front |
| VersionEdits.VersionEdit.EncodeTo | MinskMetroSchedule/Pods/leveldb-library/db/version_edit.cc:41-85 | appends exactly the tagged records of the edit, in the order of the fields |
| VersionEdits.VersionEdit.DecodeFrom | MinskMetroSchedule/Pods/leveldb-library/db/version_edit.cc:107-205 | for any bytes: accepts exactly what can be cut into tagged records of levels the store has, with numbers of any spelling and nothing left over, and takes them in in order; so an unknown tag, a level out of range, a short field or bytes behind the last record are refused |
| VersionEdits.RecordsRebuild | MinskMetroSchedule/Pods/leveldb-library/db/version_edit.cc:41-205 | taking in the records of an edit gives the edit back, behind the compaction pointers that Clear leaves |
| VersionEdits.GetRecord | MinskMetroSchedule/Pods/leveldb-library/db/version_edit.cc:121-192 | on any bytes, the one record whose fields follow the tag, or none |
| VersionEdits.GetTagged | MinskMetroSchedule/Pods/leveldb-library/db/version_edit.cc:120-192 | on any bytes, the one record that stands at this place, or none; at the end of the input there is no tag |
| VersionEdits.ReadOne | MinskMetroSchedule/Pods/leveldb-library/db/version_edit.cc:120-195 | the record read next is the next one of every way to cut the input, so there is only one |
| VersionEdits.WrittenIsCut | MinskMetroSchedule/Pods/leveldb-library/db/version_edit.cc:41-85 | records written one after the other are cut that way |
| VersionEdits.AbsorbedStaysInRange | MinskMetroSchedule/Pods/leveldb-library/db/version_edit.cc:152-186 | what is taken in keeps the edit in range |
| VersionEdits.InsertedIsSet | MinskMetroSchedule/Pods/leveldb-library/db/version_edit.cc:161-163 | the set of deleted files stays ascending and gains exactly the pair |
| VersionEdits.GetSlice | MinskMetroSchedule/Pods/leveldb-library/util/coding.cc:181-192 | on any bytes, a length and as many bytes within the input, or none |
| VersionEdits.SmallKeys | MinskMetroSchedule/Pods/leveldb-library/db/version_edit.cc:18-85 | the records of a one-byte comparator name and of a compaction pointer, byte by byte |
| VersionEdits.SmallFile | MinskMetroSchedule/Pods/leveldb-library/db/version_edit.cc:18-85 | the record of a new file with small numbers, byte by byte |
| NanoRoundTrip.RoundTrip | MinskMetroSchedule/Pods/nanopb/pb_encode.c:528-550 | a typed message encodes exactly when its counts are within its arrays and the buffer is large enough; what was encoded decodes exactly when strings are terminated and lengths fit 32 bits, and then to the same message with no input left |
| NanoRoundTrip.RefusesIncomplete | MinskMetroSchedule/Pods/nanopb/pb_decode.c:955-1082 | for any bytes, a message is accepted only if they can be cut into records among which each of its first 64 required fields has one, in every message inside it as well; where one is missing, it is refused |
| NanoRoundTrip.IgnoresUnknown | MinskMetroSchedule/Pods/nanopb/pb_decode.c:977-997 | with any records of unknown fields before, between and after those of a message, it decodes exactly when it does without them, and to the same message |
| NanoRoundTrip.Normalise | MinskMetroSchedule/Pods/nanopb/pb_decode.c:1084-1096 | whatever bytes decode, the result is within the bounds of its fields, encodes again and comes back unchanged if shorter than 2^32 bytes |
| NanoRoundTrip.InBoundsRestores | MinskMetroSchedule/Pods/nanopb/pb_encode.c:717-765 | a message within bounds and shorter than 2^32 bytes is restorable at every depth |
| NanoEncoding.EncodedSize | MinskMetroSchedule/Pods/nanopb/pb_encode.c:567-576 | the counting pass accepts exactly what the writing pass accepts and counts exactly the bytes of the encoding |
| NanoEncoding.EncodeToBuffer | MinskMetroSchedule/Pods/nanopb/pb_encode.c:528-550 | writes exactly the encoding, and fails exactly when the message cannot be encoded or the buffer is too small |
| NanoEncoding.OutStream.Write | MinskMetroSchedule/Pods/nanopb/pb_encode.c:103-124 | a counting stream takes any count; a writing one exactly what fits |
| NanoEncoding.OutStream.EncodeVarint | MinskMetroSchedule/Pods/nanopb/pb_encode.c:608-628 | the loop writes the bytes of the recursion |
| NanoEncoding.OutStream.EncodeSvarint | MinskMetroSchedule/Pods/nanopb/pb_encode.c:630-639 | the complement of the doubled 64-bit pattern is the zigzag number |
| NanoEncoding.OutStream.EncodeItems | MinskMetroSchedule/Pods/nanopb/pb_encode.c:188-214 | the items one after the other, counted or written |
| NanoEncoding.OutStream.EncodePacked | MinskMetroSchedule/Pods/nanopb/pb_encode.c:162-215 | the size computed for fixed-width items and counted for the others is that of the items written |
| NanoEncoding.OutStream.EncodeArray | MinskMetroSchedule/Pods/nanopb/pb_encode.c:147-236 | packed or key by key; refused exactly when the count exceeds the array |
| NanoEncoding.OutStream.EncodeField | MinskMetroSchedule/Pods/nanopb/pb_encode.c:341-426 | required, optional with and without a flag, and repeated fields |
| NanoEncoding.OutStream.EncodeMessage | MinskMetroSchedule/Pods/nanopb/pb_encode.c:528-550 | the fields in order, each at every depth counted and written alike |
| NanoEncoding.OutStream.EncodeSubmessage | MinskMetroSchedule/Pods/nanopb/pb_encode.c:717-765 | the second pass takes exactly what the first one counted |
| NanoMessages.DefaultIsRestored | MinskMetroSchedule/Pods/nanopb/pb_encode.c:240-334 | a field left out because it is all zero is what decoding starts from |
| NanoMessages.DefaultsInBounds | MinskMetroSchedule/Pods/nanopb/pb_decode.c:845-932 | the defaults are within the bounds of their fields |
| NanoMessages.KnownEncodings | MinskMetroSchedule/Pods/nanopb/pb_encode.c:641-700 | a number and a string field, byte by byte |
| NanoMessages.KnownZigzag | MinskMetroSchedule/Pods/nanopb/pb_encode.c:630-639 | six signed numbers and what they are written as |
| NanoMessages.TakeRecord | MinskMetroSchedule/Pods/nanopb/pb_decode.c:955-1034 | one record further in a message part of the way through decoding |
| NanoMessages.AllRecords | MinskMetroSchedule/Pods/nanopb/pb_decode.c:406-464 | a field after all its records is the field |
| NanoFields.FieldIter.Next | MinskMetroSchedule/Pods/nanopb/pb_common.c:29-80 | to the next field with its required-field index, or around to the first |
| NanoFields.FieldIter.Find | MinskMetroSchedule/Pods/nanopb/pb_common.c:82-99 | one turn from wherever the iterator stands finds the field with the tag exactly if there is one |
| NanoFields.FieldIter.CountRequired | MinskMetroSchedule/Pods/nanopb/pb_decode.c:1046-1058 | counts all required fields from wherever decoding left the iterator |
| NanoFields.AllRequiredSeen | MinskMetroSchedule/Pods/nanopb/pb_decode.c:1060-1078 | the checks of whole and partial words succeed exactly when each of the first 64 required fields was seen |
| NanoWire.AllSeen | MinskMetroSchedule/Pods/nanopb/pb_decode.c:1060-1078 | if the input was cut into records whose tags were marked, and every tracked required field is marked, the input is complete |
| NanoWire.CutStep | MinskMetroSchedule/Pods/nanopb/pb_decode.c:955-1034 | one more record of the input and its tag |
| NanoWire.MarkField | MinskMetroSchedule/Pods/nanopb/pb_decode.c:1018-1025 | the bit set for a field stands for its tag, and for no other required field |
| NanoWire.VarintEnds | MinskMetroSchedule/Pods/nanopb/pb_decode.c:187-247 | an encoded number ends where its bytes end |
| NanoWire.Low32Snoc | MinskMetroSchedule/Pods/nanopb/pb_decode.c:187-247 | one more byte of a number adds its seven bits, in 32 bits |
| NanoDecoding.InStream.DecodeVarint32 | MinskMetroSchedule/Pods/nanopb/pb_decode.c:187-247 | reads back every 32-bit number and refuses every larger one below 2^63 |
| NanoDecoding.InStream.DecodeVarint | MinskMetroSchedule/Pods/nanopb/pb_decode.c:256-275 | reads back every 64-bit number |
| NanoDecoding.CastBack | MinskMetroSchedule/Pods/nanopb/pb_decode.c:1345-1428 | numbers of every width and sign survive the casts of the integer decoders |
| NanoDecoding.InStream.DecodeNumber | MinskMetroSchedule/Pods/nanopb/pb_decode.c:1345-1428 | reads back every number of the type; what it accepts has the type |
| NanoDecoding.InStream.DecodeBytes | MinskMetroSchedule/Pods/nanopb/pb_decode.c:1447-1570 | byte arrays, strings and fixed-length byte arrays: restored exactly when strings are terminated; what is accepted fits the field |
| NanoDecoding.InStream.TakeBytes | MinskMetroSchedule/Pods/nanopb/pb_decode.c:1447-1570 | the announced bytes are stored exactly as their type says, refused exactly when they are not there or do not fit |
| NanoDecoding.InStream.SkipField | MinskMetroSchedule/Pods/nanopb/pb_decode.c:321-333 | passes exactly over a value of its wire type, and fails exactly when there is none |
| NanoDecoding.InStream.CheckRequired | MinskMetroSchedule/Pods/nanopb/pb_decode.c:1046-1078 | accepts exactly if every tracked required field was seen, and then the input is complete |
| NanoDecoding.InStream.MakeSubstream | MinskMetroSchedule/Pods/nanopb/pb_decode.c:372-385 | a substream of exactly the announced length, refused exactly when the length needs more than 32 bits |
| NanoDecoding.InStream.DecodeTag | MinskMetroSchedule/Pods/nanopb/pb_decode.c:298-319 | reads back every key |
| NanoDecoding.InStream.DecodeField | MinskMetroSchedule/Pods/nanopb/pb_decode.c:406-487 | one record of a field, restored exactly when it is restorable |
| NanoDecoding.InStream.DecodeItems | MinskMetroSchedule/Pods/nanopb/pb_decode.c:434-443 | a packed array item by item to the end of its substream |
| NanoDecoding.InStream.DecodeSubmessage | MinskMetroSchedule/Pods/nanopb/pb_decode.c:1525-1547 | array entries start from the defaults, other messages from what is there |
| NanoDecoding.InStream.DecodeRecord | MinskMetroSchedule/Pods/nanopb/pb_decode.c:955-1034 | one turn of the loop: a key, its field, its required bit and its value, ending where the record ends; an unknown field is passed over |
| NanoDecoding.InStream.DecodeNoInit | MinskMetroSchedule/Pods/nanopb/pb_decode.c:934-1082 | on any input, accepts only records one after the other among which every tracked required field has one, and what it accepts is within bounds; on the encoding of a message, with unknown fields or without, succeeds exactly when it is restorable and then gives it, with nothing left |
| NanoDecoding.InStream.Decode | MinskMetroSchedule/Pods/nanopb/pb_decode.c:1084-1096 | the same from the defaults |

## Left out

- A flush nested inside a running compaction: each flush and each compaction is one atomic step.
- Iterating over one table through its index: a table yields its entries as a list. The children of the merging iterator are cursors over lists, which is what `TwoLevelIterator` is proved to be.
- Where a compaction cuts its outputs: any cut is covered, by size or not.
- Compaction scores, seek counts, read sampling and the compaction pointer: any choice of inputs they could make is covered.
- I/O errors, fsync, renames, obsolete-file deletion and recovery of log files into a memtable.
- Corrupt or unparsable internal keys in compaction, iteration and lookup.
- Group commit inside the store's state machine: there a write is one step with one batch; the queue of writers is a model of its own.
- The byte format of write batches; the CURRENT file and switching manifests.
- ManifestRecovery.Recover: table files are found by a given function of what a record says of them; of records that no store wrote nothing is promised.
- Snappy compression and block checksums: the identity.
- DbIter.DBIter.Next: the source's branch for an exhausted inner iterator after reverse iteration is unreachable and has no counterpart.
- Store.Db.Write: requires the batch to end below `kMaxSequenceNumber`.
- Timers.TimerLoop.Start: start ids are unbounded, so order after 2^64 starts is not modelled; handles keep their loop.
- Timers.TimerLoop.RunTimers: callbacks touch no timers; where the rounds do not end, which `RoundsEndIff` says exactly, it has no result.
- TableBuilding.TableBuilder.Finish: promises the filter only when the filters are shorter than 2^32 bytes, which its offsets need; beyond that `OversizedFilterLosesKey` is a failing lookup, not a condition for every such block.
- BlockReading.BlockIter.ParseEntry: blocks that no builder wrote are not modelled; the corruption branches are proved never taken on those that a builder wrote.
- SkipLists.SkipList.Insert: memory orderings are not modelled; each store is one atomic step.
- GroupCommit.BuildBatchGroup: the bytes of a batch are left to a size function.
- LruCaches.LRUCache.Insert: the values, the sharding and the destructor are not modelled.
- NanoDecoding.InStream.Decode: the message is a value that is passed in and returned; the storage behind absent fields and past an array's count, and the offsets into it, are not modelled.
- NanoDecoding.InStream.DecodeVarint32: the bit position is unbounded, so its 8-bit wrap in a varint of more than 36 bytes is not modelled.
- NanoDecoding.InStream.DecodeRecord: in a message without fields, what a field with tag 0 writes is discarded.
- NanoEncoding.OutStream.Write: sizes are unbounded, so the wrap of `size_t` beyond 2^64 bytes is not modelled.
- nanopb's extensions, callbacks, allocated fields, oneofs and fixed-count arrays, and integers of other than 8, 16, 32 or 64 bits.
- VersionEdits.VersionEdit.DecodeFrom: of an edit that it rejects, which fields were already set is not promised.
- Fork handling, thread creation and the loop's wakeup handle.
