# Verified models of the storage and wire-format code in HoopZ

The application keeps its Firestore data in the vendored LevelDB
(`HoopZ/Pods/leveldb-library`) and talks to its server through the vendored nanopb codec
(`HoopZ/Pods/nanopb`).  This project models both in Dafny and proves what they are relied on for.

`dafny verify dfyconfig.toml` checks everything.  The files, from the bottom up:

- **Log-structured engine.** `Dbformat`, `Runs` and `Version` say what internal keys, sorted runs, levels and a
  point lookup are.  `InputSelection` chooses the files of a compaction; `CompactionMeaning`, `CompactionWork`,
  `CompactionScene`, `CompactionTheorem` and `LostData` say what a compaction may forget and when it forgets too much.
  `VersionBuilder`, `LevelSteps`, `Flush`, `Install` and `DbSteps` build the next version.  `DbImpl` is the database
  object, and `Refinement` compares whole runs of it with a plain map.
- **Crash safety.** `Manifest` and `Replay` are the two logs as records.  `Recovery` is a state machine whose steps
  are single writes to the disk or changes under the mutex; `RecoverySteps`, `RunningSteps` and `CrashSafety` prove
  its invariant over all runs with crashes, and `ReadSafety` what readers find.
- **Writers and readers.** `GroupCommit` (the writer queue), `WriteBatch`, `SkipList` (one writer, any readers).
- **Iterators.** `MergingIterator`, `DbIter`, `TwoLevelIterator`, each a cursor on a mathematical sequence.
- **Formats.** `Coding`, `LogFormat`, `Block`, `Comparator`, `Filter`, `Table`, `VersionEditCodec`; `FormatExamples` has
  their bytes written out.
- **Cache and checksum.** `HandleTable`, `LruCache`, `Crc32c`.
- **nanopb.** `Nanopb` (descriptors and the encoding), `NanopbFields` (the circular field iterator), `NanopbEncode`
  (both passes over a stream), `NanopbWire` and `NanopbDecode` (what bytes mean, and the decoder that finds it out),
  `NanopbReading` (single values, and fields the reader does not know), `NanopbRoundTrip` (whole messages, also between
  two versions of a type), `NanopbVarint`.

## Where the code does less than one would hope

- **A compaction can lose a deletion.**  `SetupOtherInputs` adds boundary files at `level` but not at `level + 1`.
  When the inputs of level+1 stop inside a user key, the tombstone among them can be dropped while an older value of
  the key stays behind in the next file.  `CompactionTheorem.CompactionPreservesReadsIff` gives the exact condition, a
  check on the first key of that one file (`BoundaryTombstone`); `LostData.DeletionCanBeLost` gives a state where it
  happens.  `Refinement` and `ReadSafety` carry the condition through whole runs.
- **The largest sequence number hides everything.**  The compaction loop takes the largest sequence number for "no
  newer entry seen", so when it is itself the smallest snapshot every input entry is dropped
  (`LostData.LargestSnapshotLosesData`; the second half of the condition above).
- **A file number added again is saved twice** when one builder replays the whole manifest
  (`VersionBuilder.ReAddedNumberIsSavedTwice`); the engine never reuses a number, and `Manifest.Replayable` is kept
  by every edit.
- **A nanopb text that fills its array** is encoded but refused by the decoder, which needs room for the NUL
  (`NanopbRoundTrip.DecodeUndoesEncode` states it as an if-and-only-if).
- A write that fails in the log still uses up its sequence numbers, and a writer without a batch that is taken into
  another's group is told that group's status without the memtable switch it asked for (`GroupCommit`).

## Model

| member | source | states |
|---|---|---|
| Refinement.RunRefinesIff | HoopZ/Pods/leveldb-library/db/db_impl.cc:535-1366 | For every run of writes, memtable switches, flushes, automatic and manual compactions, each of which must serve what made it due, snapshots and releases: at every moment all reads, now and at every live snapshot, are those of a plain map that the commands alone determine, if and only if no merge of the run lost data |
| Refinement.StepRefinesIff | HoopZ/Pods/leveldb-library/db/db_impl.cc:688-1366 | One command keeps the agreement with the map exactly when it is not a merge that loses data |
| Refinement.Run | HoopZ/Pods/leveldb-library/db/db_impl.cc:688-1366 | The database object, given the commands, goes through the states of such a run and ends in the last one, and then answers a read as the map does unless a merge lost data |
| Refinement.LossShows | HoopZ/Pods/leveldb-library/db/db_impl.cc:899-999 | A merge that loses data changes the read of some key at the smallest snapshot itself |
| CompactionTheorem.CompactionPreservesReadsIff | HoopZ/Pods/leveldb-library/db/db_impl.cc:899-999 | Over the whole database, a compaction of inputs chosen as SetupOtherInputs chooses them keeps every read at or after the smallest snapshot if and only if there is no boundary tombstone at level+1 and, when the smallest snapshot is the largest sequence number, no input that a read depends on |
| CompactionTheorem.BoundaryTombstoneShows | HoopZ/Pods/leveldb-library/db/version_set.cc:1403-1462 | A boundary tombstone makes a key that read as absent read as present: the file left at level+1 begins with a value for a key whose tombstone was an input |
| CompactionTheorem.CompactionPreservesReads | HoopZ/Pods/leveldb-library/db/db_impl.cc:899-999 | When no file left at level+1 goes on with the last user key of the inputs, every read at or after the smallest snapshot is kept |
| LostData.DeletionCanBeLost | HoopZ/Pods/leveldb-library/db/version_set.cc:1403-1462 | A state that meets every invariant of the database, and inputs that the code selects in it, for which a deleted key reads as present after the compaction |
| LostData.LargestSnapshotLosesData | HoopZ/Pods/leveldb-library/db/db_impl.cc:935-951 | A state with the largest sequence number as smallest snapshot in which a compaction drops a live value |
| CompactionWork.DoCompactionWork | HoopZ/Pods/leveldb-library/db/db_impl.cc:899-1010 | The output files one after the other are in order, none empty, wherever the outputs are cut; below the largest sequence number no entry is left that a newer one at or before the smallest snapshot covers, nor a tombstone at or before it with nothing deeper under its key, and every other input entry is there |
| CompactionWork.LastSequenceDecidesHidden | HoopZ/Pods/leveldb-library/db/db_impl.cc:935-951 | Remembering only the previous entry of the same user key decides whether any newer input entry already covers the smallest snapshot |
| CompactionMeaning.MeaningKeptIff | HoopZ/Pods/leveldb-library/db/db_impl.cc:935-968 | For entries cut into what is above, left beside, merged and below: dropping by rule (A) and the tombstone rule keeps all reads at or after the smallest snapshot if and only if nothing is resurrected and nothing exposed is dropped |
| CompactionScene.SceneIsValid | HoopZ/Pods/leveldb-library/db/version_set.cc:1378-1462 | For any well-ordered database and selected inputs the files left behind are newer than the inputs at their level, and share no user key with the inputs of the level above |
| DbImpl.DBImpl.Write | HoopZ/Pods/leveldb-library/db/db_impl.cc:1185-1258 | A batch is added with the next sequence numbers in order; the invariants hold and no other entry changes |
| DbSteps.WriteIsRead | HoopZ/Pods/leveldb-library/db/write_batch.cc:115-137 | After a write the newest read of a key is its last operation in the batch, all other keys and all older snapshots read as before |
| DbImpl.DBImpl.SwitchMemTable | HoopZ/Pods/leveldb-library/db/db_impl.cc:1343-1366 | The memtable becomes the immutable one, an empty one takes its place, and no entry is lost |
| DbImpl.DBImpl.CompactMemTable | HoopZ/Pods/leveldb-library/db/db_impl.cc:535-566 | The flush moves exactly the entries of the immutable memtable into the version and keeps the level invariants |
| DbImpl.DBImpl.BackgroundCompaction | HoopZ/Pods/leveldb-library/db/db_impl.cc:688-767 | The file whose turn it is, or that was sought too often, is among the inputs; exactly when it is the only input and the grandparents are small enough it goes from its level to the next and nothing else changes; otherwise no input is left at either level, new files at the next one hold what the drop rules keep of them, and all other files stand |
| DbImpl.DBImpl.ManualCompaction | HoopZ/Pods/leveldb-library/db/db_impl.cc:688-767 | A compaction of a key range does nothing only when no file of the level overlaps it; otherwise what the range calls for, up to the size limit, is merged, as in a background compaction but never moved |
| DbImpl.DBImpl.Get | HoopZ/Pods/leveldb-library/db/db_impl.cc:1100-1136 | Memtable, immutable memtable and levels searched in turn give the value of the newest entry visible at the snapshot over all of them; a deleted key reads like an absent one |
| DbImpl.DBImpl.GetSnapshot | HoopZ/Pods/leveldb-library/db/db_impl.cc:1166-1169 | The new snapshot is the last sequence number, and the list stays oldest first |
| DbImpl.DBImpl.ReleaseSnapshot | HoopZ/Pods/leveldb-library/db/snapshot.h:79-87 | Takes one snapshot out of the list, which stays oldest first |
| Version.GetEntry | HoopZ/Pods/leveldb-library/db/version_set.cc:326-421 | The first level with a match has the newest matching entry of the whole version; none means that no level has one |
| Version.GetLevel0 | HoopZ/Pods/leveldb-library/db/version_set.cc:326-421 | Searching the level-0 files that cover the key from the highest number down finds the newest match of the level |
| Version.GetSortedLevel | HoopZ/Pods/leveldb-library/db/version_set.cc:326-421 | One binary-searched file decides a sorted level, also for a user key that is split over two files |
| Version.FindFile | HoopZ/Pods/leveldb-library/db/version_set.cc:88-105 | Binary search gives the first file whose largest key is at or after the target |
| Version.PointGetIsVisible | HoopZ/Pods/leveldb-library/db/memtable.cc:100-135 | A seek to (key, snapshot) followed by one comparison of user keys finds the newest visible entry of a sorted run |
| InputSelection.GetOverlappingInputs | HoopZ/Pods/leveldb-library/db/version_set.cc:519-559 | Terminates; below level 0 it is the filter by overlap; at level 0, with its restarts, it is the least set of files that holds every file meeting the range or meeting a file of the set |
| InputSelection.FindSmallestBoundaryFile | HoopZ/Pods/leveldb-library/db/version_set.cc:1344-1363 | The file with the least smallest key that goes on with the user key just past the largest, if there is one |
| InputSelection.AddBoundaryInputs | HoopZ/Pods/leveldb-library/db/version_set.cc:1378-1401 | Terminates, and leaves no file at the level that starts just past the largest key of the inputs with the same user key |
| InputSelection.BoundaryMakesWhole | HoopZ/Pods/leveldb-library/db/version_set.cc:1378-1401 | Inputs with their boundary files added stay a pick of the level, and no file left behind goes on with the user key they end with |
| InputSelection.GetRange | HoopZ/Pods/leveldb-library/db/version_set.cc:1205-1223 | The smallest and the largest key of the inputs |
| InputSelection.ChooseInputs | HoopZ/Pods/leveldb-library/db/version_set.cc:1403-1462 | The inputs of both levels are whole at the level and everything that overlaps their key range at the next one; they are the picked files with their boundary files, or, exactly when that is more files, brings in none at the next level and stays under 25 target file sizes, all that the range of both levels calls for |
| InputSelection.Compaction.SetupOtherInputs | HoopZ/Pods/leveldb-library/db/version_set.cc:1403-1462 | The same of the compaction object, which keeps the files it was given |
| InputSelection.PickCompaction | HoopZ/Pods/leveldb-library/db/version_set.cc:1270-1324 | Whatever triggers it, the inputs are selected in that sense; the first file past the compaction pointer, or the first of the level, or the file that a seek compaction names, is among them |
| InputSelection.CompactRange | HoopZ/Pods/leveldb-library/db/version_set.cc:1464-1507 | Empty exactly when no file of the level overlaps the range; otherwise selected inputs among which are, at level 0, all that the range calls for and, below it, the first files in the range, no fewer than the size limit asks and no more |
| InputSelection.Compaction.IsBaseLevelForKey | HoopZ/Pods/leveldb-library/db/version_set.cc:1533-1552 | For keys asked in non-decreasing order the moving pointers answer exactly whether no file of a deeper level covers the key |
| InputSelection.OverlapIsSlice | HoopZ/Pods/leveldb-library/db/version_set.cc:519-559 | On a sorted level the overlapping files are consecutive |
| Flush.SomeFileOverlapsRange | HoopZ/Pods/leveldb-library/db/version_set.cc:122-162 | The binary search on a sorted level, or the scan of level 0, tells exactly whether some file overlaps the range |
| Flush.PickLevelForMemTableOutput | HoopZ/Pods/leveldb-library/db/version_set.cc:491-516 | The deepest level, of at most two, down to which no file overlaps and the files two levels further do not overlap too much; 0 when level 0 overlaps |
| Flush.FlushKeepsLevels | HoopZ/Pods/leveldb-library/db/db_impl.cc:491-533 | Adding the flushed table at such a level keeps all levels sorted, disjoint and newer than the deeper ones |
| LevelSteps.ReplacementKeepsLevels | HoopZ/Pods/leveldb-library/db/db_impl.cc:860-876 | Replacing selected inputs by outputs made of their entries keeps levels sorted and disjoint and shallower levels newer per user key |
| LevelSteps.ReplacementEntries | HoopZ/Pods/leveldb-library/db/db_impl.cc:860-876 | The new version holds exactly what was left behind and the outputs |
| DbSteps.MoveInstalls | HoopZ/Pods/leveldb-library/db/db_impl.cc:718-728 | A trivial move keeps the set of entries and all invariants |
| DbSteps.IsTrivialMove | HoopZ/Pods/leveldb-library/db/version_set.cc:1515-1523 | A compaction is a move exactly when it has one input file, none at the next level, and at most ten target file sizes of overlap below that |
| VersionBuilder.Builder.Apply | HoopZ/Pods/leveldb-library/db/version_set.cc:650-692 | Folds deletions and additions of an edit into each level |
| VersionBuilder.Builder.SaveTo | HoopZ/Pods/leveldb-library/db/version_set.cc:695-739 | Each level is the merge of base and added files that were not deleted |
| VersionBuilder.SaveLevelIsSet | HoopZ/Pods/leveldb-library/db/version_set.cc:695-754 | The merged level is in order of smallest keys and holds exactly the base and added files that were not deleted |
| VersionBuilder.ReplayIsInstallation | HoopZ/Pods/leveldb-library/db/version_set.cc:886-964 | One builder given all edits yields the level that installing them one by one yields, when no number is ever added twice at the level |
| VersionBuilder.ReAddedNumberIsSavedTwice | HoopZ/Pods/leveldb-library/db/version_set.cc:650-692 | Without that condition it does not: a number deleted and added again survives twice in the one-builder result |
| VersionBuilder.ReplayManifest | HoopZ/Pods/leveldb-library/db/version_set.cc:886-1011 | Replaying a manifest gives the version of its edits installed in turn |
| Install.CompactionReplaces | HoopZ/Pods/leveldb-library/db/db_impl.cc:860-876 | Applying the edit of a compaction replaces its inputs by its outputs and touches nothing else |
| Manifest.StaysReplayable | HoopZ/Pods/leveldb-library/db/version_set.cc:801-884 | Any edit that adds new numbers, or lets files sink, keeps the conditions under which replaying the manifest with one builder gives the current version |
| Manifest.SnapshotStandsFor | HoopZ/Pods/leveldb-library/db/version_set.cc:1088-1116 | A manifest that begins with a snapshot of the files stands for exactly that version |
| Manifest.ReadManifest | HoopZ/Pods/leveldb-library/db/version_set.cc:886-1011 | Reading gives the version and the latest of each number that the records stand for |
| CrashSafety.RunsAreDurable | HoopZ/Pods/leveldb-library/db/db_impl.cc:223-566 | After any run from a new database, through any number of crashes and unfinished recoveries, the committed tables and the logs not older than the log number give exactly what was logged less what committed merges dropped |
| ReadSafety.RunsKeepReadsIff | HoopZ/Pods/leveldb-library/db/db_impl.cc:223-566 | Over all such runs: at every moment every read at or after the last merge's smallest snapshot is answered as from everything ever logged, if and only if no committed merge lost data |
| ReadSafety.MergeCommit | HoopZ/Pods/leveldb-library/db/version_set.cc:801-884 | The manifest record of a merge does to what the disk stands for exactly what the drop rules say, with everything still only in the logs counted above the version |
| ReadSafety.RecoveredReads | HoopZ/Pods/leveldb-library/db/db_impl.cc:1474-1515 | A recovered database answers every read at its last sequence number as from everything ever logged, unless a merge lost data |
| CrashSafety.StepKeeps | HoopZ/Pods/leveldb-library/db/db_impl.cc:223-566 | Every step keeps the invariant; logging adds its batch to what the disk stands for, the commit of a merge takes away what it dropped, and nothing else, a crash included, changes it |
| CrashSafety.NothingLostWithoutMerge | HoopZ/Pods/leveldb-library/db/db_impl.cc:223-566 | Without merges the disk always stands for exactly what was logged |
| CrashSafety.DiskIsMemory | HoopZ/Pods/leveldb-library/db/db_impl.cc:1185-1366 | While the database is open, the disk stands for the committed tables, both memtables and at most the one batch that is logged but not yet inserted |
| CrashSafety.OpenedHoldsAll | HoopZ/Pods/leveldb-library/db/db_impl.cc:1474-1515 | When the new manifest becomes current, the tables hold exactly what the disk stood for and the last sequence number is no smaller than any entry |
| CrashSafety.Open | HoopZ/Pods/leveldb-library/db/db_impl.cc:280-489 | Opening after a crash never meets a missing table, finishes, and ends with all of what the disk stood for in tables |
| CrashSafety.RecoverLogFile | HoopZ/Pods/leveldb-library/db/db_impl.cc:371-489 | Inserting the records, with a table written whenever the memtable is full, keeps what the disk stands for |
| RecoverySteps.ReplayRecordKeeps | HoopZ/Pods/leveldb-library/db/db_impl.cc:425-455 | Replaying one record keeps memtable, tables and the rest of the logs in step |
| RecoverySteps.SpillKeeps | HoopZ/Pods/leveldb-library/db/db_impl.cc:491-533 | A table written during recovery holds the memtable, under a new number, and loses nothing |
| RecoverySteps.RecoveryManifestStandsFor | HoopZ/Pods/leveldb-library/db/version_set.cc:801-884 | The manifest written by recovery, a snapshot and one edit, stands for the recovered version and its numbers |
| RecoverySteps.LoadGivesCommitted | HoopZ/Pods/leveldb-library/db/db_impl.cc:280-369 | The tables named by the manifest are there and hold the committed version |
| RunningSteps.AppendKeeps | HoopZ/Pods/leveldb-library/db/db_impl.cc:1208-1228 | A logged batch counts as durable before it is inserted |
| RunningSteps.SwitchKeeps | HoopZ/Pods/leveldb-library/db/db_impl.cc:1343-1366 | The new log and the switch of memtables keep what the disk stands for |
| RunningSteps.BeginFlushKeeps | HoopZ/Pods/leveldb-library/db/db_impl.cc:535-566 | The edit of a flush, with the new log number, will stand for version plus immutable memtable |
| RunningSteps.BeginMergeKeeps | HoopZ/Pods/leveldb-library/db/db_impl.cc:860-876 | The edit of a merge will stand for the version that the drop rules leave |
| RunningSteps.CompactionIsGood | HoopZ/Pods/leveldb-library/db/db_impl.cc:860-876 | Outputs that hold what the loop keeps make an edit whose version is in order, replayable and holds exactly what the merge leaves |
| RunningSteps.AppendManifestKeeps | HoopZ/Pods/leveldb-library/db/version_set.cc:801-884 | The manifest record changes what the disk stands for by exactly the entries that the merge drops, and by nothing for a flush or a move |
| RunningSteps.InstallKeeps | HoopZ/Pods/leveldb-library/db/version_set.cc:801-884 | Installing the version after the record was written keeps memory and disk in step |
| RunningSteps.DeleteKeeps | HoopZ/Pods/leveldb-library/db/db_impl.cc:223-278 | Deleting logs below the log number, tables that are not live and older manifests changes nothing of what the disk stands for |
| Replay.ReplayedIsOrdered | HoopZ/Pods/leveldb-library/db/db_impl.cc:371-489 | Replaying a chain of batches into a memtable gives exactly their entries, newer than the tables |
| GroupCommit.BuildBatchGroup | HoopZ/Pods/leveldb-library/db/db_impl.cc:1260-1306 | The group is the longest run from the front of the queue that the size and sync rules admit, with the limit of a megabyte, or of 128 KiB past a small first batch, and no sync write behind one without; its batch is the batches one after the other, in the temporary batch only when there are several |
| GroupCommit.WriteQueue.Enqueue | HoopZ/Pods/leveldb-library/db/db_impl.cc:1185-1198 | A writer joins the end of the queue; what was promised to the others stays |
| GroupCommit.WriteQueue.Lead | HoopZ/Pods/leveldb-library/db/db_impl.cc:1195-1206 | The writer at the front forms its group, or is turned away alone with the background error or the failure to make room |
| GroupCommit.WriteQueue.WriteGroup | HoopZ/Pods/leveldb-library/db/db_impl.cc:1208-1234 | The group is logged unless the log fails, and inserted only when log and sync are fine |
| GroupCommit.WriteQueue.Complete | HoopZ/Pods/leveldb-library/db/db_impl.cc:1235-1256 | All writers of the group leave with its status, the temporary batch is emptied, its numbers are used up, a failed sync becomes the background error |
| GroupCommit.ToldWriter | HoopZ/Pods/leveldb-library/db/db_impl.cc:1185-1256 | In every reachable state a writer told success is in exactly one group, its whole batch stands in that group's logged and inserted record at its place in the queue, and if it asked for a sync the log was synced |
| GroupCommit.GroupsAreApart | HoopZ/Pods/leveldb-library/db/db_impl.cc:1185-1256 | Groups follow one another in the queue and their sequence numbers do not overlap |
| GroupCommit.Run | HoopZ/Pods/leveldb-library/db/db_impl.cc:1185-1256 | Any interleaving of arrivals, leading, outcomes and background errors keeps the invariant for the writers that arrived, and serving on tells every one of them a status |
| WriteBatchRep.IterateUndoesPut | HoopZ/Pods/leveldb-library/db/write_batch.cc:42-137 | Iterating over the bytes of a batch gives back the operations put into it, in order, with a right count |
| WriteBatchRep.WriteBatch.Append | HoopZ/Pods/leveldb-library/db/write_batch.cc:144-148 | Appending joins the operations of two batches, counts included, also of a batch with itself |
| WriteBatchRep.WriteBatch.InsertInto | HoopZ/Pods/leveldb-library/db/write_batch.cc:42-137 | On any bytes the handler is given exactly the well-formed prefix of operations, numbered from the batch's sequence number, and the status names what is wrong |
| SkipList.RunsAreSafe | HoopZ/Pods/leveldb-library/db/skiplist.h:242-368 | For every interleaving of one writer and any readers from an empty list: no load meets a link never stored, levels stay sublists, and every search that ends is exact |
| SkipList.StepKeeps | HoopZ/Pods/leveldb-library/db/skiplist.h:337-368 | Every single load and store keeps level i+1 a sublist of level i, and keys never disappear from a level |
| SkipList.LoadedWasStored | HoopZ/Pods/leveldb-library/db/skiplist.h:260-303 | The link that the next load of the writer or of a reader reads has been stored |
| SkipList.SearchIsExact | HoopZ/Pods/leveldb-library/db/skiplist.h:260-335 | At its last level-0 load FindGreaterOrEqual has the exact first key at or after the target, FindLessThan the last before it, FindLast the last of all |
| DbIter.DBIter.Seek | HoopZ/Pods/leveldb-library/db/db_iter.cc:269-281 | The first key at or after the target that the map at the sequence number has, with its value |
| DbIter.DBIter.SeekToFirst | HoopZ/Pods/leveldb-library/db/db_iter.cc:283-292 | The first key of the map at the sequence number |
| DbIter.DBIter.SeekToLast | HoopZ/Pods/leveldb-library/db/db_iter.cc:294-299 | The last key of the map at the sequence number |
| DbIter.DBIter.Next | HoopZ/Pods/leveldb-library/db/db_iter.cc:141-166 | From either direction: the next key of the map, past tombstones and entries that are too new |
| DbIter.DBIter.Prev | HoopZ/Pods/leveldb-library/db/db_iter.cc:200-225 | From either direction: the previous key of the map |
| DbIter.FindNextUserEntry | HoopZ/Pods/leveldb-library/db/db_iter.cc:168-198 | Stops at the first entry in view that neither a tombstone nor the key to skip hides |
| DbIter.FindPrevUserEntry | HoopZ/Pods/leveldb-library/db/db_iter.cc:227-267 | Saves the last visible key and value before the start and stops just before its entries |
| MergingIterator.MergingIterator.Seek | HoopZ/Pods/leveldb-library/table/merger.cc:47-53 | The place of the target in the merged run of all children |
| MergingIterator.MergingIterator.SeekToFirst | HoopZ/Pods/leveldb-library/table/merger.cc:31-37 | The first place of the merged run |
| MergingIterator.MergingIterator.SeekToLast | HoopZ/Pods/leveldb-library/table/merger.cc:39-45 | The last place of the merged run |
| MergingIterator.MergingIterator.Next | HoopZ/Pods/leveldb-library/table/merger.cc:55-79 | One place further in the merged run, also when the direction changes |
| MergingIterator.MergingIterator.Prev | HoopZ/Pods/leveldb-library/table/merger.cc:81-108 | One place back in the merged run, also when the direction changes |
| TwoLevelIterator.TwoLevelIterator.Seek | HoopZ/Pods/leveldb-library/table/two_level_iterator.cc:82-87 | The first entry at or after the target over all blocks one after the other, empty ones skipped |
| TwoLevelIterator.TwoLevelIterator.Next | HoopZ/Pods/leveldb-library/table/two_level_iterator.cc:103-126 | The next entry over all blocks |
| TwoLevelIterator.TwoLevelIterator.Prev | HoopZ/Pods/leveldb-library/table/two_level_iterator.cc:109-139 | The previous entry over all blocks |
| TwoLevelIterator.TableIndexFits | HoopZ/Pods/leveldb-library/table/table.cc:210-214 | The index of a finished table is one that the iterator works with |
| LogFormat.Writer.AddRecord | HoopZ/Pods/leveldb-library/db/log_writer.cc:34-80 | Appends exactly the fragments of the record, with block trailers filled |
| LogFormat.Reader.ReadRecord | HoopZ/Pods/leveldb-library/db/log_reader.cc:56-174 | On any bytes, gives the next logical record that the format defines, or the end, and counts the reported drops |
| LogFormat.Reader.ReadPhysicalRecord | HoopZ/Pods/leveldb-library/db/log_reader.cc:189-271 | On any bytes, gives the next fragment, a bad one, or the end |
| LogFormat.PieceIsGenuine | HoopZ/Pods/leveldb-library/db/log_reader.cc:189-271 | A fragment handed on stands in one block right before where reading goes on, under a header with its kind, its length and its checksum; after a bad one the rest of the block is dropped |
| LogFormat.RoundTrip | HoopZ/Pods/leveldb-library/db/log_reader.cc:56-271 | Reading back what was written gives the same records and reports nothing |
| LogFormat.CrashPrefix | HoopZ/Pods/leveldb-library/db/log_reader.cc:56-271 | Reading any prefix of the file gives exactly the records wholly inside it and reports nothing |
| FormatExamples.LogBytes | HoopZ/Pods/leveldb-library/db/log_format.h:14-30 | The bytes of a record at the start of a block: checksum, length with the low byte first, kind 1 when it fits, otherwise 2 at first, 3 while it is cut and 4 at the end |
| FormatExamples.BlockBytes | HoopZ/Pods/leveldb-library/table/block_builder.cc:5-27 | The bytes of a block of two entries: shared, not shared and value lengths, key rest, value, then restarts and their number |
| FormatExamples.EditBytes | HoopZ/Pods/leveldb-library/db/version_edit.cc:14-24 | The bytes of each field of a manifest record, with its tag |
| FormatExamples.BatchBytes | HoopZ/Pods/leveldb-library/db/write_batch.cc:5-14 | The bytes of a batch with a put and a deletion |
| FormatExamples.FieldBytes | HoopZ/Pods/nanopb/pb.h:319-324 | The bytes of one field of each wire type, for every small tag |
| FormatExamples.MinusOneAndPacked | HoopZ/Pods/nanopb/pb_encode.c:144-233 | A negative int32 takes ten bytes, and a packed array has one key and one length |
| Block.BlockBuilder.Add | HoopZ/Pods/leveldb-library/table/block_builder.cc:72-106 | The entry is appended without the longest prefix it shares with the one before, and whole at every restart, which is noted once every interval |
| Block.BlockBuilder.Finish | HoopZ/Pods/leveldb-library/table/block_builder.cc:62-70 | The bytes are the one block that these entries and this restart interval determine, and within 32 bits it is a block that the iterator reads |
| Block.BuildAndScan | HoopZ/Pods/leveldb-library/table/block.cc:224-251 | Iterating over a finished block gives exactly its entries, for every interval, unless the block exceeds 32 bits |
| Block.Iter.Seek | HoopZ/Pods/leveldb-library/table/block.cc:163-201 | Binary search over restarts and a scan land on the first key at or after the target |
| Block.Iter.Prev | HoopZ/Pods/leveldb-library/table/block.cc:142-161 | Lands on the exact predecessor, or on none before the first entry |
| Block.Iter.Next | HoopZ/Pods/leveldb-library/table/block.cc:137-140 | Lands on the exact successor |
| Block.Iter.SeekToLast | HoopZ/Pods/leveldb-library/table/block.cc:208-213 | Lands on the last entry |
| Block.DecodeUndoesEncode | HoopZ/Pods/leveldb-library/table/block.cc:55-76 | Fast path and slow path of the entry header both give back what was written |
| Table.TableBuilder.Add | HoopZ/Pods/leveldb-library/table/table_builder.cc:94-123 | Adds the entry to the data block, which goes out when it is full; the pending index entry of the last block is made with a key between that block and this one |
| Table.TableBuilder.Finish | HoopZ/Pods/leveldb-library/table/table_builder.cc:198-253 | The table holds exactly the entries added, each index key separates its block from the next, and the filter covers every key |
| Table.InternalGet | HoopZ/Pods/leveldb-library/table/table.cc:216-244 | Probing one block, after the filter, misses nothing: the answer is the first entry at or after the key, or none and then no such entry has the sought user key |
| Table.BuildAndGet | HoopZ/Pods/leveldb-library/table/table.cc:216-244 | The same for every strictly increasing key sequence put through the builder, with and without a filter |
| Comparator.SeparatorSeparates | HoopZ/Pods/leveldb-library/util/comparator.cc:29-50 | The shortened key stays at or after the start and before the limit |
| Comparator.SeparatorIsShortest | HoopZ/Pods/leveldb-library/util/comparator.cc:29-50 | When the first difference leaves room between the two bytes nothing in [start, limit) is shorter than the separator; otherwise the start stays |
| Comparator.SuccessorIsLater | HoopZ/Pods/leveldb-library/util/comparator.cc:52-63 | The short successor is not before the key |
| Comparator.SuccessorIsShortest | HoopZ/Pods/leveldb-library/util/comparator.cc:52-63 | Only a key of nothing but 0xff stays; otherwise nothing past the key is shorter than the successor |
| Comparator.KeySeparatorSeparates | HoopZ/Pods/leveldb-library/db/dbformat.cc:69-86 | On internal keys the separator stays in [start, limit), with the largest tag when the user key was shortened |
| Comparator.KeySuccessorIsLater | HoopZ/Pods/leveldb-library/db/dbformat.cc:88-101 | On internal keys the successor is not before the key |
| Filter.CreateFilter | HoopZ/Pods/leveldb-library/util/bloom.cc:28-54 | All probe bits of every key are set and no others, in at least 64 bits and as many as the keys ask for |
| Filter.ProbeIs | HoopZ/Pods/leveldb-library/util/bloom.cc:42-52 | The probes of a key stand a constant stride apart, the hash turned right by seventeen bits |
| Filter.KeyMayMatch | HoopZ/Pods/leveldb-library/util/bloom.cc:56-80 | Answers yes exactly when all probe bits are set, and always yes for an encoding it does not know |
| Filter.BlockMayMatch | HoopZ/Pods/leveldb-library/table/filter_block.cc:90-104 | Never no for a key that the filter at the block's slot was made with; always no for a slot without keys and always yes for one that is missing |
| Filter.FilterBlockBuilder.StartBlock | HoopZ/Pods/leveldb-library/table/filter_block.cc:21-27 | One filter per 2KB of file offset; keys added so far stay covered at their offsets |
| VersionEditCodec.DecodeUndoesEncode | HoopZ/Pods/leveldb-library/db/version_edit.cc:41-205 | Decoding the bytes of any edit into a fresh one gives the edit back |
| VersionEditCodec.DecodeFrom | HoopZ/Pods/leveldb-library/db/version_edit.cc:107-205 | On any bytes, the loop gives the edit that the fields spell, or an error at the first bad one |
| VersionEditCodec.EncodeTo | HoopZ/Pods/leveldb-library/db/version_edit.cc:41-85 | Appends the fields in the order of the format |
| Coding.VarintRoundTrip | HoopZ/Pods/leveldb-library/util/coding.cc:47-157 | Reading what was written gives the number and what follows it |
| Coding.VarintAt | HoopZ/Pods/leveldb-library/util/coding.cc:47-97 | The byte at each place of a varint: seven bits of the number, low ones first, and a mark on all but the last, of which there are no more than needed |
| Coding.LittleEndianAt | HoopZ/Pods/leveldb-library/util/coding.cc:9-33 | Byte i of a fixed-width number is its value divided by 256 to the i, modulo 256 |
| Coding.FromLittleEndianIsSum | HoopZ/Pods/leveldb-library/util/coding.h:60-85 | What is read from any bytes is the sum of each byte times the weight of its place |
| Coding.ReadVarintLoop | HoopZ/Pods/leveldb-library/util/coding.cc:142-157 | The shift-and-add loop computes the number that the bytes stand for, or fails within its limit |
| Coding.GetPrefixedUndoesPut | HoopZ/Pods/leveldb-library/util/coding.cc:98-101 | A length-prefixed string reads back with what follows it |
| LruCache.LRUCache.Insert | HoopZ/Pods/leveldb-library/util/cache.cc:266-303 | The new handle replaces one with the same key; then idle ones are dropped until usage is within capacity or none is idle: all that go became idle before any that stays, and with the last of them the charge would be over the capacity |
| LruCache.LRUCache.Lookup | HoopZ/Pods/leveldb-library/util/cache.cc:252-259 | Finds exactly what the map of the cache has, and pins it |
| LruCache.LRUCache.Release | HoopZ/Pods/leveldb-library/util/cache.cc:261-264 | Gives one client reference back; the last one frees the handle, the last but the cache's makes it idle from that moment on, as the list of idle handles, in the order in which they became so, records |
| LruCache.LRUCache.Erase | HoopZ/Pods/leveldb-library/util/cache.cc:318-321 | Takes the key out of the map; the handle lives on while clients hold it |
| LruCache.LRUCache.Prune | HoopZ/Pods/leveldb-library/util/cache.cc:323-332 | Drops all idle handles and nothing else |
| LruCache.LRUCache.FinishErase | HoopZ/Pods/leveldb-library/util/cache.cc:307-316 | The handle leaves its list, its charge leaves usage, the cache's reference is given up |
| LruCache.DroppedAreOldest | HoopZ/Pods/leveldb-library/util/cache.cc:288-303 | What is dropped is a prefix of the idle list, oldest first, each freed once, gone from table and list, the rest unchanged |
| HandleTable.HandleTable.Insert | HoopZ/Pods/leveldb-library/util/cache.cc:78-92 | The lookup map gains the handle and the one it replaces is returned; the bucket array grows so that there is never more than one element a bucket on average |
| HandleTable.HandleTable.Remove | HoopZ/Pods/leveldb-library/util/cache.cc:94-102 | The lookup map loses the key and its handle is returned |
| HandleTable.HandleTable.Resize | HoopZ/Pods/leveldb-library/util/cache.cc:122-146 | Rehashing keeps the lookup map |
| Crc32c.Extend | HoopZ/Pods/leveldb-library/util/crc32c.cc:276-377 | For every start value, alignment and length the four-stride computation with its final folding equals the byte-at-a-time CRC-32C of section 12.1 of RFC 3720 |
| Crc32c.ExtendComposes | HoopZ/Pods/leveldb-library/util/crc32c.h:14-20 | Extending by one string and then by another is extending by both joined |
| Crc32c.ZeroIsEightBits | HoopZ/Pods/leveldb-library/util/crc32c.cc:20-62 | The byte step of the table is eight bit steps of the polynomial |
| Crc32c.TableEntries | HoopZ/Pods/leveldb-library/util/crc32c.cc:20-62 | The byte table of the model has the entries of the code for the eight single bits; all others are sums of those |
| Crc32c.TestBuffer | HoopZ/Pods/leveldb-library/util/crc32c.cc:267-274 | The CRC of the self-test string is the self-test value |
| Crc32c.UnmaskUndoesMask | HoopZ/Pods/leveldb-library/util/crc32c.h:29-38 | Unmasking gives the masked checksum back |
| NanopbEncode.EncodeSubmessage | HoopZ/Pods/nanopb/pb_encode.c:708-756 | Writes length and message, or only counts them; at every nesting depth the second pass writes as many bytes as the first counted, so the size-changed error never arises |
| NanopbEncode.Encode | HoopZ/Pods/nanopb/pb_encode.c:519-541 | Succeeds exactly when no field is at fault and the stream has room, and then puts out exactly the bytes of the message, or only counts them on a sizing stream |
| NanopbEncode.EncodeArray | HoopZ/Pods/nanopb/pb_encode.c:144-233 | Packs what can be packed, with a size found by shortcut or by a sizing pass, or repeats the key; too many entries are refused |
| NanopbEncode.EncodeVarint | HoopZ/Pods/nanopb/pb_encode.c:599-619 | Writes the base-128 form of the number |
| NanopbEncode.EncodeFixed | HoopZ/Pods/nanopb/pb_encode.c:632-652 | Puts out the bytes of the number with the lowest first: byte i is its value divided by 256 to the i, modulo 256 |
| NanopbEncode.PackedFixed | HoopZ/Pods/nanopb/pb_encode.c:166-174 | The size shortcuts for arrays of fixed-width numbers are what a sizing pass would count |
| NanopbEncode.GetEncodedSize | HoopZ/Pods/nanopb/pb_encode.c:558-567 | Is the length of the bytes that encoding writes |
| NanopbRoundTrip.DecodeUndoesEncode | HoopZ/Pods/nanopb/pb_decode.c:925-1087 | For descriptors with distinct tags and zero defaults for fields without presence, decoding what was encoded succeeds exactly when every sent text has its NUL inside its array, and then gives a message that no present member tells apart from the one sent |
| NanopbRoundTrip.DecodeOtherVersion | HoopZ/Pods/nanopb/pb_decode.c:925-1087 | Decoding with another version of the message: fields unknown to the reader are passed over whatever their type, those both have come back, the rest keep their defaults; it fails exactly when a text both have is not terminated or one of the first 64 required fields of the reader is missing |
| NanopbReading.SkipUndoesPut | HoopZ/Pods/nanopb/pb_decode.c:278-331 | A value of any type, submessages included, is passed over whole by its wire type alone |
| NanopbReading.UnknownFieldIsSkipped | HoopZ/Pods/nanopb/pb_decode.c:980-986 | Whatever a field of any kind puts out, packed and unpacked arrays included, a reader without its tag goes on as if it were not there |
| NanopbRoundTrip.ZeroIsDefault | HoopZ/Pods/nanopb/pb_encode.c:237-328 | What is left out for being zero reads back as the default |
| NanopbDecode.DecodeMessage | HoopZ/Pods/nanopb/pb_decode.c:1075-1087 | On any bytes, the decoder gives exactly the message, and leaves the stream where, the wire meaning says, or fails exactly when that does; what that is for encoded bytes, unknown and missing fields included, is DecodeOtherVersion |
| NanopbDecode.DecodeNoInitMessage | HoopZ/Pods/nanopb/pb_decode.c:925-1073 | The same when merging into a message, with unknown fields skipped and required ones checked |
| NanopbDecode.DecodeStaticField | HoopZ/Pods/nanopb/pb_decode.c:406-480 | One field of any kind: packed and unpacked arrays with their limit, unions, presence flags |
| NanopbDecode.SkipField | HoopZ/Pods/nanopb/pb_decode.c:321-331 | Passes over exactly the value of the wire type, eight bytes for 1 and four for 5, and refuses the wire types 3, 4, 6 and 7 |
| NanopbDecode.DecodeVarint32 | HoopZ/Pods/nanopb/pb_decode.c:187-247 | On any bytes, the value, end and error of the 32-bit reading, sign extension included |
| NanopbDecode.DecodeVarint | HoopZ/Pods/nanopb/pb_decode.c:255-275 | On any bytes, the 64-bit value within ten bytes |
| NanopbDecode.CloseStringSubstream | HoopZ/Pods/nanopb/pb_decode.c:387-400 | The parent goes on behind the substream, whatever was left of it |
| NanopbVarint.AcceptedIsLow | HoopZ/Pods/nanopb/pb_decode.c:187-247 | Whatever the 32-bit reader accepts is the low half of the whole number, and it ends where the number ends |
| NanopbVarint.NegativeReads | HoopZ/Pods/nanopb/pb_decode.c:221-230 | A negative 32-bit number sent as ten bytes reads back as itself |
| NanopbFields.FieldIter.Next | HoopZ/Pods/nanopb/pb_common.c:20-76 | Steps around the fields, with the member offset and the count of required fields always those of the current field |
| NanopbFields.FieldIter.Find | HoopZ/Pods/nanopb/pb_common.c:78-95 | From any position finds the first field with the tag on the way round, or returns to where it was |
| NanopbFields.TagIsEnough | HoopZ/Pods/nanopb/pb_common.c:78-95 | With distinct tags the field found does not depend on where the search began |

## Left out

Modelled more simply than the code:

- Manifest.SnapshotStandsFor: the comparator name and the compaction pointers that WriteSnapshot also records are not part of the record, because they do not decide which files a version has.
- CompactionWork.DoCompactionWork: does not model the flush of an immutable memtable inside the loop, errors of input and output, or closing and syncing files; where outputs are cut is a parameter.
- InputSelection.PickCompaction: which level is due, by score, seeks or compaction pointer, is a parameter, and updating the pointers afterwards is not modelled.
- GroupCommit.WriteQueue.WriteGroup: inserting into the memtable is taken to succeed; waiting on condition variables is modelled as the order of events.
- GroupCommit.WriteQueue.Lead: what MakeRoomForWrite does while it waits is not part of the queue; its failure is a parameter.
- SkipList.RunsAreSafe: steps are sequentially consistent, not relaxed and acquire loads; nodes are keys, and the random height is a parameter.
- LruCache.LRUCache.Insert: the two circular lists are sequences, so pointer splicing is not modelled; there is one shard.
- HandleTable.HandleTable.Insert: a bucket's chain is a sequence, not linked handles.
- Table.InternalGet: a file is its blocks at their offsets; compression, block trailers, the footer, the block cache and blocks as bytes are not modelled (Block.dfy has the bytes of one block).
- Filter.CreateFilter: bits are a sequence of booleans and the hash and number of probes are parameters; the bytes of the filter block are not modelled.
- LogFormat.RoundTrip: the checksum is any function of the payload (Crc32c.dfy has the real one); `initial_offset` is 0, so resynchronisation is left out.
- Crc32c.Extend: the tables are their recurrences and hardware acceleration is off; Mask is on 32-bit vectors.
- CrashSafety.RunsAreDurable: all bytes written survive a crash; the first manifest (NewDB) is there; compaction outputs appear whole, and `reuse_logs` is false.
- NanopbRoundTrip.DecodeUndoesEncode: covers messages shorter than 4 GiB, the most that the decoder's 32-bit lengths can express.
- NanopbRoundTrip.DecodeOtherVersion: the two versions differ in the fields of the message itself; its submessage types are the same in both.
- NanopbDecode.DecodeVarint32: the bit position is unbounded, so a varint of more than 36 continuation bytes on platforms where `uint_fast8_t` wraps is not modelled.
- NanopbDecode.DecodeMessage: a struct is a value handed in and out, not memory; a text is its bytes up to the NUL; the bit words of required fields are a set; a key with field number 0 in a message type without fields is skipped.

Not modelled:

- User keys of the engine and of the skip list are real numbers; any order on byte strings embeds in them.  Blocks, tables and comparators work on byte strings, but their entries are not linked to the engine's `Entry`.
- The byte edits of VersionEditCodec and the file edits of VersionBuilder are separate types.
- The memtable's encoding of an entry (db/memtable.cc), which would add only another round trip.
- Errors of input and output other than failed log writes and syncs, checksum mismatches in tables, paranoid checks, and unparsable keys.
- Compaction scores in floating point, seek statistics and read sampling.
- `repair.cc`, which puts all tables at level 0 under old numbers, the environment, options, the C interface, dumps, and Snappy.
- nanopb callbacks, extensions, pointer and allocated fields, fixed-count arrays, and builds without 64-bit integers.
- The Swift application itself and the other vendored libraries.
