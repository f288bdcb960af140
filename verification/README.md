# LevelDB and nanopb, modelled and proved

This project models the two libraries that the iOS app of this repository vendors, and proves what
they are for.

**LevelDB** is a log-structured merge store. Its meaning is one line, `Keys.Lookup`: a reader at a
sequence number sees, for every key, the newest entry with a sequence number no larger. Everything
else has to preserve that meaning:

* The store as a state machine (`Store`, `StoreWrites`, `StoreFlush`, `StoreCompaction`,
  `StoreRecovery`, `StoreReopen`, `StoreRuns`, `StoreEffects`, `StoreReads`). Its state is the
  memtables, the levels of table files, the manifest, the logs, the snapshots, the references
  readers hold and the work in progress in the background. Each region under the mutex is one step,
  a region is split where the mutex is released, and a crash with a recovery can fall between any
  two steps. Over all runs: crashes lose nothing that was logged, also while the database is being
  opened, every Get and every iterator sees its snapshot, groups are atomic, and no live file is
  deleted. Steps also achieve what they are for: a write that has ended is visible to every later
  snapshot and reader, flushes and compactions replace what they took, compactions forget what no
  snapshot needs, and files that nobody needs go.
* What those steps consist of: the search of a version (`Versions`), the choice of inputs
  (`InputSelection`), the compaction loop (`Compactions`, `CompactionWork`), what a flush and an
  installed compaction do to the tree (`Tree`, `CompactionSteps`, `CompactionInstall`), and version
  edits and their replay (`Builders`, `ManifestReplay`).
* The bytes underneath: logs (`LogFormat`, `LogWriter`, `LogReader`, `LogRoundTrip`), and what the
  reader makes of damaged ones (`LogDamage`); write batches and what recovery makes of a torn log
  (`WriteBatches`, `LogRecovery`), version edits, the manifest and what recovery makes of it when it
  is torn (`VersionEdits`, `ManifestWriters`, `ManifestFiles`), prefix-compressed blocks (`Blocks`,
  `BlockIterators`), filters (`Bloom`, `FilterBlocks`), the bytewise order and internal keys
  (`BytewiseOrder`, `InternalKeys`), and table files: `Tables` has their structure, `TableFormat`,
  `TableBuilders` and `TableReaders` their bytes. A file that `TableBuilders.TableBuilder.Finish`
  wrote opens, a lookup in its bytes finds the newest entry (`TableReaders.InternalGet`), and going
  through it gives back what was added (`TableReaders.ScanTable`).
* The iterators, each of which is shown to move as a cursor over one sorted sequence (`Cursors`): of a
  block (`InternalKeys`, `TableReaders`), a table or level (`TwoLevelIterators`, `FileIterators`), a
  memtable (`MemTables`), a merge (`MergingIterators`), and the database (`DbIterators`).
* Group commit with any number of writers and failures (`GroupCommit`), the skiplist with one
  writer and lock-free readers at the level of single stores (`SkipLists`, `SkipListRuns`), the cache
  with its hash table and two lists (`HandleTables`, `LruCaches`).

**nanopb** encodes and decodes messages of the Protocol Buffers wire format by a schema:
`ProtoMessages` has the schemas and the encoding, `ProtoEncoder` and `ProtoDecoder` the code,
`ProtoDecoding` what the decoder makes of any bytes, `ProtoBounds` that this always fits the schema,
`ProtoRoundTrip` the round trip, also between schemas of which each has fields the other lacks, and
`ProtoWire` the bytes themselves.

Objects whose methods update fields are classes; the loops of the source are loops, proved against
functions of which the main results are then proved as lemmas. User keys in the store are positions in
the order of the comparator (`Keys`, justified by `BytewiseOrder.RankEmbeds`). Checksums, hash
functions, file sizes, the choice of a level for a compaction, the heights of skiplist nodes and the
moments at which a memtable is full are parameters, over which every result quantifies.

## Where the source does not keep what it relies on

* Levels above 0 are disjoint by internal key only, and a compaction may cut its outputs inside a user
  key. Compactions above level 0 take single files, so that the newer half of a key can sink below
  the older. `CompactionFaults.KeepsTreeInvIffBoundaryClear` gives the exact condition,
  `SplitKeyReadsOldValue` the tree in which Get returns an old value. The comment at
  `db/version_set.cc:346-348` claims more than the code provides.
* For the same reason the inputs of the next level can end inside a user key. A tombstone among the
  inputs is then dropped although an older value stays in the file behind them, and the deleted key
  comes back: `CompactionFaults.DroppedTombstoneBringsBack`. `KeepsAnswersIffNothingUncovered` gives
  the exact condition.
* A manual compaction can choose inputs with a gap, into which a memtable may be flushed while it
  runs: `CompactionFaults.GapLosesFlushedKey`. `CompactionSteps.FlushKeepsPlacedIffSafe` gives the exact
  condition; `InputSelection.PickCompaction` proves that automatic ones have no gap, and
  `GapFreeIsFlushSafe` that they meet it.
* Runs of the store start compactions under exactly these conditions, and moves under the first.
* `VersionEdit::Clear` does not clear the compaction pointers, so that decoding into a used object
  appends to them; `VersionEdits.VersionEdit.DecodeFrom` says so.
* The check for required fields in `nanopb/pb_decode.c:947` shifts by 32 when their number is a
  multiple of 32 and reads past its array from 64 on. `ProtoRoundTrip.DecodesMessage` has the exact
  condition under which a message round-trips, and `MultipleOf32Fails` the failure.

## Model

| member | source | states |
|---|---|---|
| Versions.FindFile | hajjApp/Pods/leveldb-library/db/version_set.cc:86-105 | Binary search: every file before the result ends before the target, every file from it on does not. |
| Versions.FilesToSearch | hajjApp/Pods/leveldb-library/db/version_set.cc:355-390 | Level 0: all files whose range holds the key, newest first; deeper: the one file that can hold it, or none. |
| Versions.OneFilePerLevelSuffices | hajjApp/Pods/leveldb-library/db/version_set.cc:374-389 | Whatever file of a sorted level holds a visible entry, the single file the binary search picks reports an entry at least as new. |
| Versions.LevelHit | hajjApp/Pods/leveldb-library/db/version_set.cc:392-426 | Within a level the search stops at the newest visible entry of that level, and finds nothing only if there is none. |
| Versions.SearchFindsNewest | hajjApp/Pods/leveldb-library/db/version_set.cc:346-426 | Under the tree invariant, stopping at the first level that knows the key finds the newest visible entry of the whole version, and nothing only if there is none. |
| Versions.Get | hajjApp/Pods/leveldb-library/db/version_set.cc:332-429 | The loops over levels and files return the value of exactly the entry that the search order reaches first; a tombstone ends the search. |
| Versions.GetIsLookup | hajjApp/Pods/leveldb-library/db/version_set.cc:332-429 | So Get answers every key at every sequence number as the set of all entries of the version does. |
| Compactions.ScanSeesHidden | hajjApp/Pods/leveldb-library/db/db_impl.cc:945-957 | Remembering only the previous sequence number of the current key decides whether a newer entry at or below the smallest snapshot hides this one. |
| Compactions.KeptIsSurvivors | hajjApp/Pods/leveldb-library/db/db_impl.cc:936-971 | The one-pass scan keeps exactly the entries that are neither hidden nor obsolete tombstones, stated over the whole input. |
| Compactions.CompactionPreservesAnswers | hajjApp/Pods/leveldb-library/db/db_impl.cc:955-969 | Replacing inputs by survivors keeps every answer at or above the smallest snapshot if and only if no dropped tombstone uncovers an older value left behind. |
| CompactionWork.Compaction.constructor | hajjApp/Pods/leveldb-library/db/version_set.cc:1448-1458 | A new compaction starts with its level pointers at the front and nothing seen. |
| CompactionWork.Compaction.IsBaseLevelForKey | hajjApp/Pods/leveldb-library/db/version_set.cc:1484-1503 | For keys asked in order, the pointers that only move forward give the same answer as looking at all files of all deeper levels. |
| CompactionWork.Compaction.ShouldStopBefore | hajjApp/Pods/leveldb-library/db/version_set.cc:1505-1526 | True exactly when the grandparents passed since the last cut are over the limit; then the count starts again. |
| CompactionWork.CheckStop | hajjApp/Pods/leveldb-library/db/db_impl.cc:929-936 | Asked for keys in order, the bytes counted are always those of the grandparents passed since the last cut, and within the limit. |
| CompactionWork.Decide | hajjApp/Pods/leveldb-library/db/db_impl.cc:938-972 | The drop decision equals the two rules, and the scan state becomes the current key and sequence number. |
| CompactionWork.Finish | hajjApp/Pods/leveldb-library/db/db_impl.cc:813-864 | Closing an output adds one table with the right ends that holds exactly what was built. |
| CompactionWork.AddEntry | hajjApp/Pods/leveldb-library/db/db_impl.cc:983-1005 | The entry is appended to what is written; the output is closed if and only if it is then big enough. |
| CompactionWork.Consume | hajjApp/Pods/leveldb-library/db/db_impl.cc:929-1008 | One turn writes the entry exactly when it is not dropped, and closes outputs so that each stays within the limits. |
| CompactionWork.DoCompactionWork | hajjApp/Pods/leveldb-library/db/db_impl.cc:909-1020 | The outputs are well-formed tables in order, which together hold exactly the kept entries; each ended with the entry that made it big enough, and none spans more grandparents than the limit allows. |
| CompactionInstall.InstallApplies | hajjApp/Pods/leveldb-library/db/db_impl.cc:866-885 | The edit of a compaction replaces exactly its inputs by its outputs and leaves all other levels alone. |
| Compactions.NewerUncoverNothing | hajjApp/Pods/leveldb-library/db/db_impl.cc:958-969 | Entries that come later and are newer than the inputs, in memtables or by a flush, give a dropped tombstone nothing more to uncover. |
| CompactionInstall.CompactionKeepsAnswers | hajjApp/Pods/leveldb-library/db/db_impl.cc:887-1046 | Installing the outputs changes no answer at or above the smallest snapshot, whatever newer entries the memtables hold. |
| InputSelection.SomeFileOverlapsRange | hajjApp/Pods/leveldb-library/db/version_set.cc:107-158 | True if and only if some file overlaps the range, by scanning or by binary search. |
| InputSelection.GetOverlappingInputs | hajjApp/Pods/leveldb-library/db/version_set.cc:531-572 | Exactly the files that overlap the final range; at level 0 the restarts end with the least range around the request that no file straddles. |
| InputSelection.GetRange | hajjApp/Pods/leveldb-library/db/version_set.cc:1224-1244 | The smallest and largest internal keys of the inputs, each attained. |
| InputSelection.NextLevelUnchanged | hajjApp/Pods/leveldb-library/db/version_set.cc:1356-1377 | Equally many files one level down, for a larger input set, means the same files. |
| InputSelection.Expand | hajjApp/Pods/leveldb-library/db/version_set.cc:1345-1394 | All files of the level that overlap the range of the inputs are taken if and only if they are more, small enough together with the next level, and need no further file there; otherwise the inputs stay. |
| InputSelection.CoveredFilterGapFree | hajjApp/Pods/leveldb-library/db/version_set.cc:1331-1338 | A level-0 input set found inside a covered range has no gap. |
| InputSelection.SetupOtherInputs | hajjApp/Pods/leveldb-library/db/version_set.cc:1345-1411 | The next level contributes exactly its overlapping files, the grandparents are those that overlap everything, and the compaction pointer is the largest key of the inputs of the level. |
| InputSelection.FileAfterPointer | hajjApp/Pods/leveldb-library/db/version_set.cc:1301-1315 | The first file past the compaction pointer, wrapping around to the first file. |
| InputSelection.PickCompaction | hajjApp/Pods/leveldb-library/db/version_set.cc:1317-1343 | The chosen file is among the inputs, level 0 is closed under overlap, and every user key in the range of the inputs lies in some input file. |
| InputSelection.CompactRange | hajjApp/Pods/leveldb-library/db/version_set.cc:1413-1446 | Nothing only if nothing overlaps the range; otherwise it starts from the files that overlap the range, above level 0 from the shortest part at their front that reaches the size limit, and takes all files of the next level that overlap those. |
| InputSelection.CutShort | hajjApp/Pods/leveldb-library/db/version_set.cc:1426-1438 | The shortest part at the front that reaches the size limit, or everything. |
| InputSelection.PickLevelForMemTableOutput | hajjApp/Pods/leveldb-library/db/version_set.cc:495-529 | A level above 0 only if no file at it or above overlaps; and the choice stops for one of the three reasons the code gives. |
| Builders.Builder.constructor | hajjApp/Pods/leveldb-library/db/version_set.cc:632-641 | A builder starts with no changes at any level. |
| Builders.Builder.Apply | hajjApp/Pods/leveldb-library/db/version_set.cc:665-708 | At every level, the deletions of the edit are recorded first and its additions after them. |
| Builders.SaveOneLevel | hajjApp/Pods/leveldb-library/db/version_set.cc:714-739 | The merge with upper_bound yields base and added files in order without the deleted ones. |
| Builders.Builder.SaveTo | hajjApp/Pods/leveldb-library/db/version_set.cc:711-757 | Every level of the new version is its saved level. |
| Builders.SavedMembers | hajjApp/Pods/leveldb-library/db/version_set.cc:665-772 | A saved level is sorted and holds exactly the added files and the base files that were not deleted. |
| ManifestReplay.ReplayStep | hajjApp/Pods/leveldb-library/db/version_set.cc:665-708 | Recording one more edit in the builder is applying it to the version the builder stands for. |
| ManifestReplay.ManifestRecovers | hajjApp/Pods/leveldb-library/db/version_set.cc:905-1025 | If no file number is added twice at a level, one Builder over all edits behind a snapshot gives the version that applying them one at a time gave. |
| ManifestReplay.ReusedNumberBringsFileBack | hajjApp/Pods/leveldb-library/db/version_set.cc:705 | Without that condition it does not: a number deleted and added again brings the deleted file back. |
| VersionEdits.VersionEdit.Clear | hajjApp/Pods/leveldb-library/db/version_edit.cc:26-39 | Everything is reset but the compaction pointers, which the source leaves. |
| VersionEdits.VersionEdit.EncodeTo | hajjApp/Pods/leveldb-library/db/version_edit.cc:41-84 | Appends the tagged items of the edit, counters first, then pointers, deleted files in order, new files. |
| VersionEdits.VersionEdit.DecodeFrom | hajjApp/Pods/leveldb-library/db/version_edit.cc:109-205 | For any bytes: the edit they say or the message of the first error, an unknown or cut-off tag included. |
| VersionEdits.EditRoundTrip | hajjApp/Pods/leveldb-library/db/version_edit.cc:41-205 | Decoding an encoded edit gives the edit back, whatever it says. |
| VersionEdits.ItemsOnDisk | hajjApp/Pods/leveldb-library/db/version_edit.cc:11-84 | Each item begins with the number of its kind, 1 to 7 and 9, and its fields follow in the order of the format. |
| VersionEdits.PayloadBack | hajjApp/Pods/leveldb-library/db/version_edit.cc:121-194 | The fields behind each tag read back as the item that was written, and leave what follows. |
| ManifestFiles.Recover | hajjApp/Pods/leveldb-library/db/version_set.cc:905-990 | For any bytes of a manifest: corrupt, lacking a counter, or the version and the counters of its edits. |
| ManifestFiles.ApplyEdit | hajjApp/Pods/leveldb-library/db/version_set.cc:950-952 | The builder then stands for one more decoded edit. |
| ManifestFiles.TornManifest | hajjApp/Pods/leveldb-library/db/version_set.cc:905-1025 | Cut off after any number of bytes, a manifest recovers the version and counters of the last edit whose record is whole; nothing is opened if only the snapshot is. |
| ManifestFiles.ForeignComparator | hajjApp/Pods/leveldb-library/db/version_set.cc:935-942 | A manifest with the name of another comparator in any of its records is refused. |
| ManifestFiles.AlteredManifest | hajjApp/Pods/leveldb-library/db/version_set.cc:905-990 | So is one in which the payload of a fragment was replaced. |
| ManifestWriters.SnapshotSays | hajjApp/Pods/leveldb-library/db/version_set.cc:1102-1130 | The record of a snapshot says exactly which files the version has at which level. |
| ManifestWriters.PointersSay | hajjApp/Pods/leveldb-library/db/version_set.cc:1107-1114 | And exactly the compaction pointers that are set, each with its level. |
| ManifestWriters.VersionSet.WriteSnapshot | hajjApp/Pods/leveldb-library/db/version_set.cc:1102-1130 | Appends one record: the name of the comparator, the compaction pointers that are set, and the files level by level. |
| ManifestWriters.VersionSet.LogAndApply | hajjApp/Pods/leveldb-library/db/version_set.cc:820-893 | The manifest gains the edit with the counters filled in, behind a snapshot if it is new; the current version is the one the edits lead to, and opening the manifest gives that version with those counters. |
| ManifestWriters.EditsAreAtomic | hajjApp/Pods/leveldb-library/db/version_set.cc:860-884 | With part of a record in the file, recovery opens what the manifest described before the edit; with all of it, what it describes after. |
| Tree.FlushKeepsTreeInv | hajjApp/Pods/leveldb-library/db/db_impl.cc:488-532 | A memtable flushed to the level that was picked keeps levels sorted and disjoint and keys newer above than below. |
| Tree.InstallKeepsTreeInv | hajjApp/Pods/leveldb-library/db/db_impl.cc:866-885 | So does replacing compaction inputs that are placed right by outputs made of their entries. |
| CompactionSteps.BoundaryClearIsNewer | hajjApp/Pods/leveldb-library/db/version_set.cc:764-768 | In a sorted level, no file left behind begins with the user key an input ends with if and only if no file left behind holds an older entry of a key of an input. |
| CompactionSteps.UncoversIffAtBoundary | hajjApp/Pods/leveldb-library/db/db_impl.cc:958-969 | Under a clear boundary at the level of the inputs, the drop rule uncovers a value if and only if the next level has an input file and the file behind it with a common user key, of which the newest visible entry is a dropped tombstone and the next a value. |
| CompactionSteps.CompactionStarts | hajjApp/Pods/leveldb-library/db/version_set.cc:1291-1343 | Inputs as they are chosen, with a clear boundary at their level and nothing uncovered at the boundary of the next, meet what the tree and the answers need. |
| CompactionSteps.FlushKeepsPlacedIffSafe | hajjApp/Pods/leveldb-library/db/db_impl.cc:917-927 | Every flush leaves the inputs of a running compaction placed as the tree needs if and only if no flush reaches the output level, or every user key between the ends of the inputs lies in the range of a file at that level or above. |
| CompactionSteps.GapFreeIsFlushSafe | hajjApp/Pods/leveldb-library/db/version_set.cc:1317-1343 | Inputs without a gap, as PickCompaction chooses them, are safe in that sense. |
| CompactionSteps.FlushDuringCompaction | hajjApp/Pods/leveldb-library/db/db_impl.cc:917-927 | A memtable flushed in the middle of such a compaction keeps everything the compaction relies on, its safety included. |
| CompactionFaults.KeepsTreeInvIffBoundaryClear | hajjApp/Pods/leveldb-library/db/version_set.cc:1291-1343 | Above level 0, moving or merging whole inputs keeps the tree invariant if and only if the boundary of the inputs is clear. |
| CompactionFaults.SplitKeyReadsOldValue | hajjApp/Pods/leveldb-library/db/db_impl.cc:717-727 | A concrete tree in which a trivial move of a file that ends inside a user key makes Get return the old value. |
| CompactionFaults.KeepsAnswersIffNothingUncovered | hajjApp/Pods/leveldb-library/db/db_impl.cc:887-1046 | Under a clear boundary at the level of the inputs, installing what the loop kept changes no answer at or above the smallest snapshot if and only if nothing is uncovered at the boundary of the next level. |
| CompactionFaults.DroppedTombstoneBringsBack | hajjApp/Pods/leveldb-library/db/db_impl.cc:958-969 | A concrete tree in which a compaction drops a tombstone whose older value stays in the file behind its inputs, and Get finds the deleted key again. |
| CompactionFaults.GapLosesFlushedKey | hajjApp/Pods/leveldb-library/db/version_set.cc:1413-1446 | A concrete run in which a manual compaction with a gap and a flush into it make Get lose a key. |
| StoreWrites.BeginWriteOk | hajjApp/Pods/leveldb-library/db/db_impl.cc:1210-1217 | Taking the sequence numbers of a group keeps the invariant of the store. |
| StoreWrites.AppendLogOk | hajjApp/Pods/leveldb-library/db/db_impl.cc:1223-1224 | So does appending the group to the log, from which moment recovery has to answer with it. |
| StoreWrites.InsertOneOk | hajjApp/Pods/leveldb-library/db/db_impl.cc:1232-1234 | So does each single insertion into the memtable, beside readers that hold it. |
| StoreWrites.EndWriteOk | hajjApp/Pods/leveldb-library/db/db_impl.cc:1245 | So does publishing the new last sequence number. |
| StoreWrites.SwitchMemTableOk | hajjApp/Pods/leveldb-library/db/db_impl.cc:1354-1376 | So does starting a new log and a new memtable. |
| StoreWrites.TakeSnapshotOk | hajjApp/Pods/leveldb-library/db/db_impl.cc:1175-1178 | Taking a snapshot keeps the snapshots in order and above every answer a compaction may have dropped; which number it takes is the subject of StoreEffects.SnapshotsAreCurrent. |
| StoreWrites.ReleaseSnapshotOk | hajjApp/Pods/leveldb-library/db/db_impl.cc:1180-1183 | So does releasing any snapshot, also while a compaction runs with an older bound. |
| StoreWrites.OpenReaderOk | hajjApp/Pods/leveldb-library/db/db_impl.cc:1112-1126 | A reader that takes references to memtables and version finds its snapshot in them, at the last sequence number or at any snapshot not yet released. |
| StoreWrites.CloseReaderOk | hajjApp/Pods/leveldb-library/db/db_impl.cc:1150-1152 | Dropping the references keeps the invariant. |
| StoreFlush.StartFlushOk | hajjApp/Pods/leveldb-library/db/db_impl.cc:488-497 | Taking a file number for the flush keeps the invariant. |
| StoreFlush.BuildTableOk | hajjApp/Pods/leveldb-library/db/db_impl.cc:513-517 | Writing the table disturbs no version anybody holds. |
| StoreFlush.PickFlushLevelOk | hajjApp/Pods/leveldb-library/db/db_impl.cc:510-566 | Taking the number off the pending set before the edit is recorded is safe, since nothing else runs in the background. |
| StoreFlush.RecordFlushOk | hajjApp/Pods/leveldb-library/db/version_set.cc:866-883 | Once the edit of the flush is in the manifest, the older log is no longer needed. |
| StoreFlush.InstallFlushOk | hajjApp/Pods/leveldb-library/db/db_impl.cc:548-574 | Installing the version and dropping the immutable memtable keeps every view. |
| StoreCompaction.StartCompactionOk | hajjApp/Pods/leveldb-library/db/db_impl.cc:897-910 | Fixing the inputs and the smallest snapshot keeps the invariant, under the exact conditions for the tree, the answers and flushes. |
| StoreCompaction.StartOutputOk | hajjApp/Pods/leveldb-library/db/db_impl.cc:788-811 | Opening an output protects its number by the pending set. |
| StoreCompaction.FinishOutputOk | hajjApp/Pods/leveldb-library/db/db_impl.cc:813-864 | Writing an output disturbs no version anybody holds. |
| StoreCompaction.LogCompactionOk | hajjApp/Pods/leveldb-library/db/db_impl.cc:866-884 | Preparing the edit of the results keeps the invariant. |
| StoreCompaction.MovesAreSafe | hajjApp/Pods/leveldb-library/db/db_impl.cc:717-727 | A trivial move needs the clear boundary only: one file has no gap, and nothing of the next level is rewritten. |
| StoreCompaction.MoveOk | hajjApp/Pods/leveldb-library/db/db_impl.cc:717-727 | A trivial move with a clear boundary keeps the invariant. |
| StoreCompaction.RecordWorkOk | hajjApp/Pods/leveldb-library/db/version_set.cc:866-883 | Once the edit is in the manifest, recovery answers alike with the new version. |
| StoreCompaction.InstallWorkOk | hajjApp/Pods/leveldb-library/db/db_impl.cc:735-744 | Installing the new version changes no answer of a reader, a snapshot or a later compaction. |
| StoreRecovery.DeleteObsoleteOk | hajjApp/Pods/leveldb-library/db/db_impl.cc:218-272 | Deleting what is neither pending nor live removes no table or log that anybody, or recovery, still needs; that it removes all others is StoreEffects.ObsoleteFilesGo. |
| StoreRecovery.DiskAnswers | hajjApp/Pods/leveldb-library/db/db_impl.cc:274-363 | At any moment, the version of the manifest and the logs from its log number on answer the latest value as the logged history does. |
| StoreRecovery.CrashSafe | hajjApp/Pods/leveldb-library/db/db_impl.cc:274-363 | Hence a crash at any moment loses no logged batch and shows nothing else, and no table is missing. |
| StoreReopen.RecoveredSequence | hajjApp/Pods/leveldb-library/db/db_impl.cc:345-359 | The recovered last sequence number is at least every logged one. |
| StoreReopen.FailedOpensLoseNothing | hajjApp/Pods/leveldb-library/db/db_impl.cc:274-363 | What any number of openings that crashed leave, tables and empty logs under unrecorded numbers, changes nothing the next opening reads. |
| StoreReopen.ReopenOk | hajjApp/Pods/leveldb-library/db/db_impl.cc:1490-1532 | A crash at any moment, any number of openings that crash in turn, then one that replays the logs into new tables, records them in a fresh manifest and starts a new log: the store keeps the invariant. |
| StoreRuns.NextKeepsInv | hajjApp/Pods/leveldb-library/db/db_impl.cc:1194-1378 | Each of the 22 steps, and a crash followed by a recovery, keeps the invariant. |
| StoreRuns.EveryRunIsCrashSafe | hajjApp/Pods/leveldb-library/db/db_impl.cc:274-363 | In every run with any number of crashes, at every moment: if the process died now, recovery would answer as the logged batches do. |
| StoreRuns.EveryReaderSeesItsSnapshot | hajjApp/Pods/leveldb-library/db/db_impl.cc:1109-1154 | In every run, a reader finds the history at its sequence number in the references it took, however long ago. |
| StoreRuns.GroupsAreAtomic | hajjApp/Pods/leveldb-library/db/db_impl.cc:1223-1245 | In every run, while a group is being inserted, all of it, the part in the memtable included, lies above the last sequence number and above those of all readers and snapshots, and nothing else in the memtables does. |
| StoreRuns.ViewsNeverChange | hajjApp/Pods/leveldb-library/db/db_impl.cc:1109-1154 | Between crashes, what a sequence number shows never changes once it was reached, whatever is written, flushed and compacted. |
| StoreRuns.EveryLiveFileIsOnDisk | hajjApp/Pods/leveldb-library/db/db_impl.cc:218-272 | In every run, the tables of the current version, of the version a compaction reads, and of every output not yet installed are on disk. |
| StoreEffects.LastSeesEnded | hajjApp/Pods/leveldb-library/db/db_impl.cc:1112-1119 | A reader at the last sequence number sees, for every user key, the newest entry of all groups that have ended, and nothing of the one in progress. |
| StoreEffects.EndedWritesStay | hajjApp/Pods/leveldb-library/db/db_impl.cc:1194-1265 | In every run, what a group inserted stays in the history at or below the last sequence number from the moment the group ended, over any number of crashes and recoveries. |
| StoreEffects.SnapshotsAreCurrent | hajjApp/Pods/leveldb-library/db/db_impl.cc:1175-1178 | In every run, a new snapshot is the last of the list, lies at or above every entry of every group that ended before, and shows the newest ended entry of each user key. |
| StoreEffects.ReadersAreCurrent | hajjApp/Pods/leveldb-library/db/db_impl.cc:1112-1126 | In every run, a reader opened without a snapshot finds in its references the newest entry of each user key among all groups that ended before. |
| StoreEffects.ReadersKeepToSnapshots | hajjApp/Pods/leveldb-library/db/db_impl.cc:1112-1126 | In every run, one opened with a snapshot reads at exactly that number and finds what the history shows there. |
| StoreEffects.SnapshotsStay | hajjApp/Pods/leveldb-library/db/snapshot.h:28-63 | A new snapshot comes behind the others, a release takes away the one it names, and no other step but a crash changes the list. |
| StoreEffects.PendingIsInProgress | hajjApp/Pods/leveldb-library/db/db_impl.cc:788-811 | In every run, only numbers of tables a flush or compaction is writing or has written but not yet installed are pending. |
| StoreEffects.ObsoleteFilesGo | hajjApp/Pods/leveldb-library/db/db_impl.cc:218-272 | In every run, after a deletion every table on disk is in progress or a file of the current version, of the version of a reader or of a running compaction; every log is the current one or that of the immutable memtable; and what is there has not changed. |
| StoreEffects.CompactionsMayForget | hajjApp/Pods/leveldb-library/db/db_impl.cc:897-905 | In every run, the bound of a compaction is the oldest snapshot; without one, no ended write lies above it. |
| StoreEffects.OneOldEntryIsKept | hajjApp/Pods/leveldb-library/db/db_impl.cc:945-971 | In every run, the finished outputs hold at most one entry of a user key at or below the bound, and a tombstone there only if a deeper level has a file over its key. |
| StoreEffects.MemTablesSwitch | hajjApp/Pods/leveldb-library/db/db_impl.cc:1354-1376 | In every run, a switch begins an empty memtable with an empty log under a new number, and what was in the memtable becomes the immutable one. |
| StoreEffects.FlushesEnd | hajjApp/Pods/leveldb-library/db/db_impl.cc:534-574 | In every run, a finished flush leaves no immutable memtable and one log to recover; its entries have joined the version, all files of which are still there. |
| StoreEffects.CompactionsEnd | hajjApp/Pods/leveldb-library/db/db_impl.cc:866-885 | In every run, a finished compaction has replaced exactly its inputs by its outputs, which hold exactly the survivors of the inputs, or it moved one file. |
| StoreReads.DbGet | hajjApp/Pods/leveldb-library/db/db_impl.cc:1131-1145 | Memtable, immutable memtable, then version: the value of the entry found first. |
| StoreReads.GetFindsNewest | hajjApp/Pods/leveldb-library/db/db_impl.cc:1131-1145 | That entry is the newest visible one of all three together, and there is none only if there is none at all. |
| StoreReads.EveryGetSeesItsSnapshot | hajjApp/Pods/leveldb-library/db/db_impl.cc:1109-1154 | In every run, Get returns what the history of insertions shows at the sequence number of the reader. |
| StoreReads.EveryReaderHasAMerge | hajjApp/Pods/leveldb-library/db/db_impl.cc:1067-1096 | In every run, the iterators of a reader have distinct keys, so that their merge exists. |
| StoreReads.EveryIteratorSeesItsSnapshot | hajjApp/Pods/leveldb-library/db/db_impl.cc:1067-1096 | In every run, the keys and values a DBIter over that merge goes through are exactly those the history shows at the sequence number of the reader. |
| StoreReads.IteratorsAreStable | hajjApp/Pods/leveldb-library/db/db_impl.cc:1067-1096 | The memtable under an open iterator grows, but the keys and values a DBIter goes through in the merge of any later moment are the same. |
| MergingIterators.MergeExists | hajjApp/Pods/leveldb-library/table/merger.cc:155-183 | Sorted lists without common keys have a merge. |
| MergingIterators.MergeIsUnique | hajjApp/Pods/leveldb-library/table/merger.cc:155-183 | And only one, so that the children determine the sequence. |
| MergingIterators.MergingIterator.FindSmallest | hajjApp/Pods/leveldb-library/table/merger.cc:155-168 | The child chosen is at the next entry of the merge. |
| MergingIterators.MergingIterator.FindLargest | hajjApp/Pods/leveldb-library/table/merger.cc:170-183 | The child chosen is at the previous entry of the merge. |
| MergingIterators.MergingIterator.SeekToFirst | hajjApp/Pods/leveldb-library/table/merger.cc:35-41 | Position 0 of the merge. |
| MergingIterators.MergingIterator.SeekToLast | hajjApp/Pods/leveldb-library/table/merger.cc:43-49 | The last position of the merge, or not valid if it is empty. |
| MergingIterators.MergingIterator.Seek | hajjApp/Pods/leveldb-library/table/merger.cc:51-57 | The first entry of the merge at or after the target, from any earlier position and direction. |
| MergingIterators.MergingIterator.Next | hajjApp/Pods/leveldb-library/table/merger.cc:59-83 | The next position of the merge, also when the iterator was moving backwards and children were exhausted. |
| MergingIterators.MergingIterator.Prev | hajjApp/Pods/leveldb-library/table/merger.cc:85-112 | The previous position of the merge, also when the iterator was moving forwards. |
| DbIterators.LiveListIsLookup | hajjApp/Pods/leveldb-library/db/db_iter.cc:173-203 | The list of live keys with their values is exactly what lookups at the sequence number find. |
| DbIterators.DbIter.FindNextUserEntry | hajjApp/Pods/leveldb-library/db/db_iter.cc:173-203 | Stops at the next entry that is live: visible, not shadowed, not a deletion. |
| DbIterators.DbIter.FindPrevUserEntry | hajjApp/Pods/leveldb-library/db/db_iter.cc:232-272 | Scanning back saves the live entry before the given place, and ends before it. |
| DbIterators.DbIter.Seek | hajjApp/Pods/leveldb-library/db/db_iter.cc:274-286 | The first live key at or after the target, in the list of live keys. |
| DbIterators.DbIter.SeekToFirst | hajjApp/Pods/leveldb-library/db/db_iter.cc:288-297 | The first live key. |
| DbIterators.DbIter.SeekToLast | hajjApp/Pods/leveldb-library/db/db_iter.cc:299-304 | The last live key. |
| DbIterators.DbIter.Next | hajjApp/Pods/leveldb-library/db/db_iter.cc:146-171 | The next place in the list of live keys, whichever direction came before. |
| DbIterators.DbIter.Prev | hajjApp/Pods/leveldb-library/db/db_iter.cc:205-230 | The previous place in the list of live keys, whichever direction came before. |
| FileIterators.LevelIsIndexed | hajjApp/Pods/leveldb-library/db/version_set.cc:163-232 | Over the files of a sorted level, their largest keys form an index under which a two-level iterator yields all entries in order. |
| FileIterators.InputIsMerge | hajjApp/Pods/leveldb-library/db/version_set.cc:1258-1289 | The iterators opened for a compaction can be merged, and the merge is exactly the sorted sequence of the entries of its inputs. |
| Coding.Fixed32RoundTrip | hajjApp/Pods/leveldb-library/util/coding.cc:9-18 | Decoding four encoded bytes gives the number back. |
| Coding.Fixed64RoundTrip | hajjApp/Pods/leveldb-library/util/coding.cc:20-33 | Decoding eight encoded bytes gives the number back. |
| Coding.Fixed32IsLittleEndian | hajjApp/Pods/leveldb-library/util/coding.cc:9-18 | The four bytes are the digits of the number to base 256, the smallest first. |
| Coding.Fixed64IsLittleEndian | hajjApp/Pods/leveldb-library/util/coding.cc:20-33 | So are the eight bytes. |
| Coding.VarintSays | hajjApp/Pods/leveldb-library/util/coding.cc:47-90 | The low seven bits of each byte, the smallest first, make up the number; the high bit is set on all bytes but the last; and no byte is wasted. |
| Coding.EncodeVarint32 | hajjApp/Pods/leveldb-library/util/coding.cc:47-73 | The five cases write the varint of the number, in at most five bytes. |
| Coding.EncodeVarint64 | hajjApp/Pods/leveldb-library/util/coding.cc:81-90 | The loop writes the varint of the number. |
| Coding.ReadVarint | hajjApp/Pods/leveldb-library/util/coding.cc:112-158 | The shift loop computes what seven bits a byte mean, and fails at the limit or the end. |
| Coding.GetLengthPrefixedSlice | hajjApp/Pods/leveldb-library/util/coding.cc:182-192 | A slice only if its length is readable and all its bytes are there. |
| Coding.VarintRoundTrip | hajjApp/Pods/leveldb-library/util/coding.cc:112-158 | Reading a varint back gives the number and its length, if the number fits the limit. |
| Coding.SliceBack | hajjApp/Pods/leveldb-library/util/coding.cc:98-192 | A length-prefixed slice reads back, and leaves what follows it. |
| LogFormat.UnmaskUndoesMask | hajjApp/Pods/leveldb-library/util/crc32c.h:31-40 | Unmasking a masked checksum gives the checksum, in 32-bit arithmetic. |
| LogFormat.MaskUndoesUnmask | hajjApp/Pods/leveldb-library/util/crc32c.h:31-40 | And the other way round, so that every stored word is the mask of one checksum. |
| LogFormat.MaskRotates | hajjApp/Pods/leveldb-library/util/crc32c.h:31-34 | The stored word is the checksum with its 32 bits rotated right by 15, and the constant more. |
| LogFormat.WholeOnDisk | hajjApp/Pods/leveldb-library/db/log_writer.cc:84-109 | A record that fits its block is the checksum of type 1 and payload, the length low byte first, type 1 and the payload. |
| LogFormat.PartOnDisk | hajjApp/Pods/leveldb-library/db/log_writer.cc:36-82 | One that does not is cut where the block ends; its parts have type 2, then 3 as long as more follows, and at last 4. |
| LogFormat.TrailerOnDisk | hajjApp/Pods/leveldb-library/db/log_writer.cc:44-54 | Fewer than seven bytes at the end of a block are zero, and the record begins in the next. |
| LogWriter.Writer.constructor | hajjApp/Pods/leveldb-library/db/log_writer.cc:22-26 | A new writer starts at offset 0 of a block. |
| LogWriter.Writer.Reopen | hajjApp/Pods/leveldb-library/db/log_writer.cc:28-31 | A reopened writer goes on at the length of the file, within its block. |
| LogWriter.Writer.EmitPhysicalRecord | hajjApp/Pods/leveldb-library/db/log_writer.cc:84-109 | Appends header and payload, and moves the offset in the block. |
| LogWriter.Writer.AddRecord | hajjApp/Pods/leveldb-library/db/log_writer.cc:36-82 | Appends exactly the fragments of the record for the place it begins at, an empty record included. |
| LogReader.Reader.ReadPhysicalRecord | hajjApp/Pods/leveldb-library/db/log_reader.cc:199-281 | For any file: the fragment, the position and the corruption reports of the format; LogDamage.FragmentsAreChecked says what the bytes then were. |
| LogReader.Reader.ReadRecord | hajjApp/Pods/leveldb-library/db/log_reader.cc:60-182 | For any file: the reassembled record, the position and the corruption reports; for whole, cut and damaged logs LogRoundTrip and LogDamage say what these are. |
| LogRoundTrip.ReadsPhysical | hajjApp/Pods/leveldb-library/db/log_reader.cc:219-281 | Of a file cut anywhere, the reader gets a fragment that is there as a whole, or the end of the file and no report. |
| LogRoundTrip.ReadsFragments | hajjApp/Pods/leveldb-library/db/log_reader.cc:60-182 | And a record that is there as a whole, or the end. |
| LogRoundTrip.TornTail | hajjApp/Pods/leveldb-library/db/log_reader.cc:60-182 | Cut off after any number of bytes, a log reads as exactly the records that are whole, in order, and nothing is reported. |
| LogRoundTrip.RoundTrip | hajjApp/Pods/leveldb-library/db/log_writer.cc:36-109 | A log reads as exactly the records written, empty ones and ones over many blocks included. |
| LogRoundTrip.WriteInSessions | hajjApp/Pods/leveldb-library/db/log_writer.cc:28-31 | Reopening the file any number of times writes the same bytes as one session. |
| LogDamage.FragmentsAreChecked | hajjApp/Pods/leveldb-library/db/log_reader.cc:219-281 | Whatever the file and the position, if checksums are checked: the bytes in front of where the reader stands after a fragment are those the writer writes for it, checksum, length and type included. |
| LogDamage.ReadsFromBlock | hajjApp/Pods/leveldb-library/db/log_reader.cc:60-182 | From the start of any block the reader gets exactly the records that begin there or behind, and skips the rest of one that began before. |
| LogDamage.DamageCostsItsBlock | hajjApp/Pods/leveldb-library/db/log_reader.cc:219-281 | With one fragment damaged in its payload or checksum, the reader gets exactly the records in front of the damaged one and those that begin in a later block, and reports corruption. |
| LogDamage.AlteredPayload | hajjApp/Pods/leveldb-library/db/log_reader.cc:253-268 | So a log in which the payload of any one fragment was replaced, under a checksum that tells both apart, reads without it, with a report and with exactly those records. |
| WriteBatches.WriteBatch.constructor | hajjApp/Pods/leveldb-library/db/write_batch.cc:30-41 | An empty batch. |
| WriteBatches.WriteBatch.Put | hajjApp/Pods/leveldb-library/db/write_batch.cc:100-105 | The bytes of the batch with one more put, counted in the header. |
| WriteBatches.WriteBatch.Delete | hajjApp/Pods/leveldb-library/db/write_batch.cc:107-111 | The bytes of the batch with one more deletion, counted in the header. |
| WriteBatches.WriteBatch.SetSequence | hajjApp/Pods/leveldb-library/db/write_batch.cc:96-98 | Only the sequence number changes. |
| WriteBatches.WriteBatch.Append | hajjApp/Pods/leveldb-library/db/write_batch.cc:141-145 | The bytes of both batches as one, with the sequence number of the first. |
| WriteBatches.Iterate | hajjApp/Pods/leveldb-library/db/write_batch.cc:42-78 | For any bytes: the updates the handler is given, in order, and the error at the end. |
| WriteBatches.BatchRoundTrip | hajjApp/Pods/leveldb-library/db/write_batch.cc:42-111 | Iterating over a batch gives its updates and no error. |
| WriteBatches.TagsOnDisk | hajjApp/Pods/leveldb-library/db/write_batch.cc:100-111 | A put begins with byte 1, a deletion with byte 0. |
| WriteBatches.BrokenBatch | hajjApp/Pods/leveldb-library/db/write_batch.cc:42-78 | Whatever the count in the header and whatever follows the updates: they are all given, and the error is the wrong count, the unknown tag or the broken update, each exactly when it is there. |
| LogRecovery.InsertInto | hajjApp/Pods/leveldb-library/db/write_batch.cc:128-134 | The updates, also those before an error, under consecutive sequence numbers. |
| LogRecovery.RecoverLogFile | hajjApp/Pods/leveldb-library/db/db_impl.cc:365-484 | For any file: with paranoid checks an error exactly if something was reported or a batch is bad; otherwise the tables written hold, in order, what the records insert, with the largest sequence number. |
| LogRecovery.TornLog | hajjApp/Pods/leveldb-library/db/db_impl.cc:365-484 | Cut off after any number of bytes, a log recovers exactly the updates of the batches whose records are whole, under their own sequence numbers. |
| LogRecovery.DamagedLog | hajjApp/Pods/leveldb-library/db/db_impl.cc:365-484 | With the payload of a fragment replaced, recovery inserts exactly the updates of the batches in front of it and of those that begin in a later block, and corruption is reported. |
| GroupCommit.BuildBatchGroup | hajjApp/Pods/leveldb-library/db/db_impl.cc:1269-1314 | The group is the longest prefix of the queue the rules allow, and its operations are those of its writers, in order. |
| GroupCommit.NextKeepsInv | hajjApp/Pods/leveldb-library/db/db_impl.cc:1194-1265 | Each of 15 steps of the writers, the leader and failures keeps the invariant. |
| GroupCommit.CommittedOnceInOrder | hajjApp/Pods/leveldb-library/db/db_impl.cc:1194-1265 | In every interleaving, between groups, the memtables hold the operations of exactly the acknowledged writers, once each, in queue order. |
| GroupCommit.SequenceNumbersAreDisjoint | hajjApp/Pods/leveldb-library/db/db_impl.cc:1211-1216 | Sequence numbers of insertions strictly increase, and those of a group are consecutive. |
| GroupCommit.ReadersSeeWholeGroups | hajjApp/Pods/leveldb-library/db/db_impl.cc:1232-1245 | Whatever lies at or below the last sequence number belongs to a group all of which does. |
| GroupCommit.AckedSyncWritesAreSynced | hajjApp/Pods/leveldb-library/db/db_impl.cc:1226-1231 | An acknowledged sync write lies in a record that was in the log when it was synced, whoever led its group. |
| GroupCommit.NothingCommitsWhenBroken | hajjApp/Pods/leveldb-library/db/db_impl.cc:1324-1327 | Once the background error is set and no group is past the check, for the rest of the run nothing is logged, committed or made visible, and everyone who is answered is told of a failure. |
| SkipLists.SkipList.FindGreaterOrEqual | hajjApp/Pods/leveldb-library/db/skiplist.h:262-281 | The first node at or after the key, and at every level the last node before it. |
| SkipLists.SkipList.FindLessThan | hajjApp/Pods/leveldb-library/db/skiplist.h:284-302 | The last node before the key, or the head. |
| SkipLists.SkipList.FindLast | hajjApp/Pods/leveldb-library/db/skiplist.h:304-323 | The last node, or the head. |
| SkipLists.SkipList.Contains | hajjApp/Pods/leveldb-library/db/skiplist.h:373-380 | True if and only if the key was inserted. |
| SkipLists.SkipList.Insert | hajjApp/Pods/leveldb-library/db/skiplist.h:336-370 | The keys are the old ones and the new one, and all levels are again sorted and nested. |
| SkipLists.LinkOk | hajjApp/Pods/leveldb-library/db/skiplist.h:364-369 | Each of the two stores for a level leaves every level sorted and nested. |
| SkipLists.Iterator.Next | hajjApp/Pods/leveldb-library/db/skiplist.h:207-211 | The least larger key, or not valid if there is none. |
| SkipLists.Iterator.Prev | hajjApp/Pods/leveldb-library/db/skiplist.h:213-222 | The greatest smaller key, or not valid if there is none. |
| SkipLists.Iterator.Seek | hajjApp/Pods/leveldb-library/db/skiplist.h:224-227 | The least key at or after the target. |
| SkipLists.Iterator.SeekToFirst | hajjApp/Pods/leveldb-library/db/skiplist.h:229-232 | The least key. |
| SkipLists.Iterator.SeekToLast | hajjApp/Pods/leveldb-library/db/skiplist.h:234-240 | The greatest key. |
| SkipListRuns.AlwaysInOrder | hajjApp/Pods/leveldb-library/db/skiplist.h:336-370 | In every interleaving of one inserting writer and lock-free searches, after every store: levels are sorted and nested and nothing inserted before is lost. |
| SkipListRuns.SearchesAreLinearizable | hajjApp/Pods/leveldb-library/db/skiplist.h:262-281 | What a lock-free search returns was exactly right at one moment between its start and its end. |
| SkipListRuns.NothingInsertedBeforeIsMissed | hajjApp/Pods/leveldb-library/db/skiplist.h:262-281 | A key inserted before the search began is found. |
| HandleTables.HandleTable.constructor | hajjApp/Pods/leveldb-library/util/cache.cc:73 | An empty table. |
| HandleTables.HandleTable.FindPointer | hajjApp/Pods/leveldb-library/util/cache.cc:116-123 | The slot that points to the handle with the key, or the end of the chain it would be in. |
| HandleTables.HandleTable.Lookup | hajjApp/Pods/leveldb-library/util/cache.cc:76-78 | The handle the map has for the key. |
| HandleTables.HandleTable.Insert | hajjApp/Pods/leveldb-library/util/cache.cc:80-94 | The map with the key set to the handle; the handle it replaces is returned. |
| HandleTables.HandleTable.Remove | hajjApp/Pods/leveldb-library/util/cache.cc:96-104 | The map without the key; the removed handle is returned. |
| HandleTables.HandleTable.Resize | hajjApp/Pods/leveldb-library/util/cache.cc:125-149 | The same map in chains rebuilt for a length of at least the number of handles, which all operations keep. |
| LruCaches.RemoveOk | hajjApp/Pods/leveldb-library/util/cache.cc:242-245 | Unlinking takes the handle out of its list and leaves the other list a ring. |
| LruCaches.AppendOk | hajjApp/Pods/leveldb-library/util/cache.cc:247-253 | Linking puts the handle at the new end of one list. |
| LruCaches.LruCache.constructor | hajjApp/Pods/leveldb-library/util/cache.cc:200-207 | An empty cache. |
| LruCaches.LruCache.Ref | hajjApp/Pods/leveldb-library/util/cache.cc:221-227 | One more reference; a handle nobody used moves from the LRU list to the list in use. |
| LruCaches.LruCache.Unref | hajjApp/Pods/leveldb-library/util/cache.cc:229-240 | One less; the deleter runs exactly when none is left, and a cached handle nobody uses any more goes to the new end of the LRU list. |
| LruCaches.LruCache.FinishErase | hajjApp/Pods/leveldb-library/util/cache.cc:307-316 | Out of its list, out of the cache, its charge returned, and the reference of the cache dropped. |
| LruCaches.LruCache.Lookup | hajjApp/Pods/leveldb-library/util/cache.cc:255-262 | What the map has, with one more client. |
| LruCaches.LruCache.Release | hajjApp/Pods/leveldb-library/util/cache.cc:264-267 | One client less, and nothing else for the map; the deleter runs exactly for an erased handle that loses its last client. |
| LruCaches.LruCache.Insert | hajjApp/Pods/leveldb-library/util/cache.cc:269-303 | The map gets the key; the oldest unused handles, no more than needed, are evicted, and then usage is within capacity or nothing is left to evict. |
| LruCaches.LruCache.EvictOldest | hajjApp/Pods/leveldb-library/util/cache.cc:293-300 | The oldest unused handle leaves the map, and its deleter runs. |
| LruCaches.LruCache.Erase | hajjApp/Pods/leveldb-library/util/cache.cc:318-321 | The map without the key; the deleter runs at once exactly if no client holds the handle. |
| LruCaches.LruCache.Prune | hajjApp/Pods/leveldb-library/util/cache.cc:323-333 | Everything no client holds leaves the map, and each such deleter runs once, oldest first. |
| Bloom.BloomFilterPolicy.CreateFilter | hajjApp/Pods/leveldb-library/util/bloom.cc:35-61 | Appends a filter in which exactly the probed bits of its keys are set, and the number of probes. |
| Bloom.BloomFilterPolicy.KeyMayMatch | hajjApp/Pods/leveldb-library/util/bloom.cc:63-85 | For any filter bytes: too short never matches, reserved encodings always do, others if all probes are set. |
| Bloom.NoFalseNegatives | hajjApp/Pods/leveldb-library/util/bloom.cc:35-85 | A key the filter was made for matches, whatever the hash function. |
| Bloom.MatchesAreProbed | hajjApp/Pods/leveldb-library/util/bloom.cc:63-85 | A key matches if and only if each of its probes is a probe of some key of the filter. |
| Bloom.ProbesAreSpaced | hajjApp/Pods/leveldb-library/util/bloom.cc:51-59 | Probe j is the hash and j times the hash rotated right by 17 bits, in 32 bits, modulo the number of bits. |
| Bloom.ArrayIsLeast | hajjApp/Pods/leveldb-library/util/bloom.cc:35-45 | The array is the least number of whole bytes with room for 64 bits and for the bits per key. |
| FilterBlocks.FilterBlockBuilder.StartBlock | hajjApp/Pods/leveldb-library/table/filter_block.cc:22-28 | Filters up to the 2KB range of the offset are made; no key changes its range. |
| FilterBlocks.FilterBlockBuilder.AddKey | hajjApp/Pods/leveldb-library/table/filter_block.cc:30-34 | The key is added to the range that is open. |
| FilterBlocks.FilterBlockBuilder.GenerateFilter | hajjApp/Pods/leveldb-library/table/filter_block.cc:52-78 | A filter for exactly the pending keys is appended, none at all if there are none. |
| FilterBlocks.FilterBlockBuilder.Finish | hajjApp/Pods/leveldb-library/table/filter_block.cc:36-50 | The finished block answers yes to every key under its offset, and no to every key under an offset without keys; its last byte is 11, for ranges of 2KB. |
| FilterBlocks.ReadsBack | hajjApp/Pods/leveldb-library/table/filter_block.cc:95-109 | Through the trailing offsets, the reader consults the filter made for the 2KB range of the offset. |
| FilterBlocks.GroupAnswers | hajjApp/Pods/leveldb-library/table/filter_block.cc:95-109 | So there are no false negatives, and none of the ranges without keys matches. |
| BytewiseOrder.RankEmbeds | hajjApp/Pods/leveldb-library/util/comparator.cc:25-27 | Byte strings embed in the reals: order and equality are kept and reflected. |
| BytewiseOrder.FindShortestSeparator | hajjApp/Pods/leveldb-library/util/comparator.cc:29-51 | The start, or its bytes up to the first difference with that byte one up, exactly if this leaves it below the limit; no longer than the start, and strictly between if it is not the start. |
| BytewiseOrder.FindShortSuccessor | hajjApp/Pods/leveldb-library/util/comparator.cc:53-66 | The bytes up to the first that is not 0xff with that byte one up, or the key itself exactly if all are 0xff; at or after the key and no longer. |
| InternalKeys.PositionEmbeds | hajjApp/Pods/leveldb-library/db/dbformat.cc:50-66 | The comparator on encoded internal keys is the order on positions, and different strings have different positions. |
| InternalKeys.EncodedKey | hajjApp/Pods/leveldb-library/db/dbformat.cc:12-21 | User key, sequence number and kind read back from an encoded internal key. |
| InternalKeys.KeyOnDisk | hajjApp/Pods/leveldb-library/db/dbformat.cc:12-21 | Behind the user key stands 1 for a value or 0 for a deletion, then the sequence number in seven bytes, the smallest first. |
| InternalKeys.FindInternalSeparator | hajjApp/Pods/leveldb-library/db/dbformat.cc:68-85 | The start, or a strictly shorter key with the largest tag and a user key strictly between; which one, and exactly when the key is shortened. |
| InternalKeys.FindInternalSuccessor | hajjApp/Pods/leveldb-library/db/dbformat.cc:87-99 | The key, or a strictly shorter one with the largest tag and a larger user key; which one, and exactly when the key is shortened. |
| InternalKeys.BlockSeekIsCursorSeek | hajjApp/Pods/leveldb-library/table/block.cc:165-203 | Over a block of internal keys, Seek of a block iterator stops where that of a cursor over the entries does. |
| Blocks.BlockBuilder.Add | hajjApp/Pods/leveldb-library/table/block_builder.cc:73-107 | The entry list grows by exactly this entry, which shares the longest prefix with the key before, or nothing at the restart points, which come every so many entries. |
| Blocks.BlockBuilder.Finish | hajjApp/Pods/leveldb-library/table/block_builder.cc:63-71 | The entries, the offsets of the restart points and their number. |
| Blocks.BlockBuilder.Reset | hajjApp/Pods/leveldb-library/table/block_builder.cc:48-56 | No entries. |
| Blocks.ItemInBuffer | hajjApp/Pods/leveldb-library/table/block_builder.cc:95-101 | Every entry is at its offset in the buffer. |
| Blocks.EntryOnDisk | hajjApp/Pods/leveldb-library/table/block_builder.cc:92-101 | An entry with small numbers is three bytes for what is shared, what is not and the length of the value, then the rest of the key and the value. |
| BlockIterators.ReadHeader | hajjApp/Pods/leveldb-library/table/block.cc:53-75 | The fast path for three small numbers and the slow path agree; what is announced must be there. |
| BlockIterators.BlockIterator.constructor | hajjApp/Pods/leveldb-library/table/block.cc:115-126 | Not valid, at the end of the entries. |
| BlockIterators.BlockIterator.ParseEntry | hajjApp/Pods/leveldb-library/table/block.cc:233-251 | The key is the shared prefix of the last one and the new bytes; anything else is corruption. |
| BlockIterators.BlockIterator.ParseNextKey | hajjApp/Pods/leveldb-library/table/block.cc:226-253 | The next entry of the list, with the restart index of its region, or the end. |
| BlockIterators.BlockIterator.FindRestart | hajjApp/Pods/leveldb-library/table/block.cc:169-193 | Binary search: the key of the restart point found is before the target unless it is the first, and that of the next restart point is not. |
| BlockIterators.BlockIterator.Seek | hajjApp/Pods/leveldb-library/table/block.cc:165-203 | The first entry whose key is at or after the target. |
| BlockIterators.BlockIterator.Next | hajjApp/Pods/leveldb-library/table/block.cc:139-142 | The next entry. |
| BlockIterators.BlockIterator.Prev | hajjApp/Pods/leveldb-library/table/block.cc:144-163 | The entry before, found from a restart point before it; not valid at the first. |
| BlockIterators.BlockIterator.SeekToFirst | hajjApp/Pods/leveldb-library/table/block.cc:205-208 | The first entry. |
| BlockIterators.BlockIterator.SeekToLast | hajjApp/Pods/leveldb-library/table/block.cc:210-215 | The last entry. |
| TwoLevelIterators.SeekSplits | hajjApp/Pods/leveldb-library/table/two_level_iterator.cc:91-96 | Seeking in the index and then in its block is seeking in the concatenation. |
| TwoLevelIterators.TwoLevelIterator.Seek | hajjApp/Pods/leveldb-library/table/two_level_iterator.cc:91-96 | The first entry of the concatenation at or after the target, past empty blocks. |
| TwoLevelIterators.TwoLevelIterator.SeekToFirst | hajjApp/Pods/leveldb-library/table/two_level_iterator.cc:98-103 | The first entry of the concatenation. |
| TwoLevelIterators.TwoLevelIterator.SeekToLast | hajjApp/Pods/leveldb-library/table/two_level_iterator.cc:105-110 | The last entry of the concatenation. |
| TwoLevelIterators.TwoLevelIterator.Next | hajjApp/Pods/leveldb-library/table/two_level_iterator.cc:112-116 | The next entry of the concatenation. |
| TwoLevelIterators.TwoLevelIterator.Prev | hajjApp/Pods/leveldb-library/table/two_level_iterator.cc:118-122 | The previous entry of the concatenation. |
| TwoLevelIterators.TwoLevelIterator.SkipEmptyDataBlocksForward | hajjApp/Pods/leveldb-library/table/two_level_iterator.cc:125-136 | Any number of empty or used-up blocks is skipped without moving in the concatenation. |
| TwoLevelIterators.TwoLevelIterator.SkipEmptyDataBlocksBackward | hajjApp/Pods/leveldb-library/table/two_level_iterator.cc:138-149 | The same backwards. |
| Tables.EntryAdded | hajjApp/Pods/leveldb-library/table/table_builder.cc:100-117 | An index key that separates the block written last from the new entry keeps every index key between its block and everything behind. |
| Tables.BlockWritten | hajjApp/Pods/leveldb-library/table/table_builder.cc:123-137 | The block being filled becomes one of the blocks under its offset, and the filter knows its user keys there. |
| Tables.BuildingEnds | hajjApp/Pods/leveldb-library/table/table_builder.cc:232-243 | With a key behind the last block the index is that of a table of the contents. |
| Tables.TableCanBeIterated | hajjApp/Pods/leveldb-library/table/table.cc:220-224 | A two-level iterator over a built table goes through the entries the builder was given. |
| Tables.FoundIsProbe | hajjApp/Pods/leveldb-library/table/table.cc:226-255 | Despite short index keys and the filter, the entry saved for a user key is what the first entry at or after the lookup key says, which is what a version searches a file for. |
| Tables.FirstIsNewest | hajjApp/Pods/leveldb-library/table/table.cc:226-255 | And that is the newest entry of the user key up to the sequence number, or there is none. |
| TableFormat.HandleRoundTrip | hajjApp/Pods/leveldb-library/table/format.cc:15-30 | A block handle reads back, whatever follows it. |
| TableFormat.FooterRoundTrip | hajjApp/Pods/leveldb-library/table/format.cc:32-63 | The handles in the footer read back from the end of any file that ends with it, behind the magic number. |
| TableFormat.FooterOnDisk | hajjApp/Pods/leveldb-library/table/format.cc:32-63 | The last 48 bytes are the handles, the metaindex first and an offset before its size, zeros, and the eight bytes of the magic number. |
| TableFormat.ReadsWritten | hajjApp/Pods/leveldb-library/table/format.cc:65-142 | A block that was written, compressed or not, reads back with or without checking its sum, whatever is before and behind it. |
| TableFormat.ReadBlockKept | hajjApp/Pods/leveldb-library/table/format.cc:65-142 | Appending to the file changes no block it has. |
| TableFormat.BlocksAreChecked | hajjApp/Pods/leveldb-library/table/format.cc:65-142 | Whatever the file and the handle, with checking: what is read was written so, type and checksum included, and is those bytes or what they uncompress to. |
| TableFormat.AlteredBlock | hajjApp/Pods/leveldb-library/table/format.cc:94-102 | So a block with other bytes, under a checksum that tells both apart, is refused as a checksum mismatch. |
| TableBuilders.TableBuilder.constructor | hajjApp/Pods/leveldb-library/table/table_builder.cc:63-68 | An empty table, with the filter at its first range. |
| TableBuilders.TableBuilder.Add | hajjApp/Pods/leveldb-library/table/table_builder.cc:92-121 | The contents grow by this entry, and a block is closed exactly when it has reached the block size. |
| TableBuilders.TableBuilder.Flush | hajjApp/Pods/leveldb-library/table/table_builder.cc:123-137 | The block being filled, if it is not empty, is the last block of the file and reads back, and the contents stay. |
| TableBuilders.TableBuilder.WriteBlock | hajjApp/Pods/leveldb-library/table/table_builder.cc:139-173 | Compressed where that saves an eighth or not, the handle reads back as the bytes of the block. |
| TableBuilders.TableBuilder.WriteRawBlock | hajjApp/Pods/leveldb-library/table/table_builder.cc:175-193 | Block, type and masked checksum are appended, and the handle reads back. |
| TableBuilders.TableBuilder.Finish | hajjApp/Pods/leveldb-library/table/table_builder.cc:199-254 | The bytes of the file are a table of exactly the entries added: blocks, filter, metaindex, index and footer. |
| TableBuilders.GivenAreAdmitted | hajjApp/Pods/leveldb-library/db/dbformat.cc:105-119 | Filters over user keys let every lookup key through whose user key was added under the offset. |
| TableReaders.Open | hajjApp/Pods/leveldb-library/table/table.cc:38-141 | For any file: the message of the first thing wrong with footer or index, or the table with the filter its metaindex leads to; errors about the filter are ignored. |
| TableReaders.BuiltTableOpens | hajjApp/Pods/leveldb-library/table/table.cc:38-141 | A file that a builder finished opens with its own index, and with its filter for the policy that made it. |
| TableReaders.SeekIn | hajjApp/Pods/leveldb-library/table/table.cc:229-247 | The iterator over the bytes of a block is at the first entry at or after the target, in the order of positions. |
| TableReaders.InternalGet | hajjApp/Pods/leveldb-library/table/table.cc:226-255 | Over the bytes of a table: for a lookup key, what is seen has the user key and is its newest entry up to the sequence number, or the table has none. |
| TableReaders.FoundIsAnswer | hajjApp/Pods/leveldb-library/table/table.cc:226-255 | So prefix compression, short index keys and the filter do not show, and the bytes answer as the search of a version assumes. |
| TableReaders.BuiltTableIterates | hajjApp/Pods/leveldb-library/table/table.cc:220-224 | A two-level iterator may be opened on the table and goes through exactly the entries the builder was given. |
| TableReaders.SameView | hajjApp/Pods/leveldb-library/table/block.cc:126-137 | A block iterator and a cursor at the same position show the same entry. |
| TableReaders.ScanTable | hajjApp/Pods/leveldb-library/db/repair.cc:258-320 | Going through the bytes of all blocks from the first entry on gives back exactly the keys and values that were added, in order. |
| MemTables.MemTableIterator.Seek | hajjApp/Pods/leveldb-library/db/memtable.cc:50-76 | Where a cursor over the entries of the memtable in order stops. |
| MemTables.MemTableIterator.Next | hajjApp/Pods/leveldb-library/db/memtable.cc:50-76 | One position on, over the entries of that moment. |
| MemTables.MemTableIterator.Prev | hajjApp/Pods/leveldb-library/db/memtable.cc:50-76 | One position back, over the entries of that moment. |
| MemTables.MemTableIterator.SeekToFirst | hajjApp/Pods/leveldb-library/db/memtable.cc:50-76 | The first position. |
| MemTables.MemTableIterator.SeekToLast | hajjApp/Pods/leveldb-library/db/memtable.cc:50-76 | The last position, or not valid if there is none. |
| ProtoEncoder.PbWrite | hajjApp/Pods/nanopb/pb_encode.c:91-110 | Writes or counts, and refuses exactly what exceeds the stream. |
| ProtoEncoder.EncodeVarint | hajjApp/Pods/nanopb/pb_encode.c:494-514 | Seven bits a byte, the loop and the short cut alike. |
| ProtoEncoder.EncodeTag | hajjApp/Pods/nanopb/pb_encode.c:553-557 | Field number and wire type as one varint. |
| ProtoEncoder.EncodeString | hajjApp/Pods/nanopb/pb_encode.c:592-598 | The length and the bytes. |
| ProtoEncoder.EncodeScalar | hajjApp/Pods/nanopb/pb_encode.c:652-777 | Each type writes the encoding the wire format gives it, which ProtoWire says byte by byte. |
| ProtoEncoder.EncodeSubmessage | hajjApp/Pods/nanopb/pb_encode.c:600-648 | The sizing pass counts exactly the bytes the second pass writes, so that "submsg size changed" is never reported. |
| ProtoEncoder.EncodePacked | hajjApp/Pods/nanopb/pb_encode.c:129-171 | Tag, size and elements of a packed array, with the size counted or computed. |
| ProtoEncoder.EncodeItems | hajjApp/Pods/nanopb/pb_encode.c:172-198 | A tag before each element. |
| ProtoEncoder.EncodeField | hajjApp/Pods/nanopb/pb_encode.c:271-349 | A present, repeated or oneof field writes its encoding, an absent one nothing. |
| ProtoEncoder.Encode | hajjApp/Pods/nanopb/pb_encode.c:451-473 | Succeeds exactly when there is room, and then the stream has received the encoding of the message, sizing or not; ProtoWire says what its bytes are. |
| ProtoEncoder.EncodedSize | hajjApp/Pods/nanopb/pb_encode.c:480-489 | The number of bytes encoding takes. |
| ProtoDecoder.FieldIterator.Next | hajjApp/Pods/nanopb/pb_common.c:20-76 | The next field; the first again, and false, after the last. |
| ProtoDecoder.FieldIterator.Find | hajjApp/Pods/nanopb/pb_common.c:78-95 | From wherever it stands: the field with the tag if there is one, going round at most once. |
| ProtoDecoder.SkipField | hajjApp/Pods/nanopb/pb_decode.c:277-290 | For any bytes: what is left behind a value of that wire type; ProtoRoundTrip.SkipsValue says what that is. |
| ProtoDecoder.DecodePacked | hajjApp/Pods/nanopb/pb_decode.c:373-397 | For any bytes: elements as far as there is room; left-over bytes fail. |
| ProtoDecoder.MarkSeen | hajjApp/Pods/nanopb/pb_decode.c:915-920 | Setting the flag bit adds the field to the set of fields seen. |
| ProtoDecoder.Check | hajjApp/Pods/nanopb/pb_decode.c:929-951 | The words of flags say whether all required fields were seen, where the shift is defined. |
| ProtoDecoder.DecodeNoinit | hajjApp/Pods/nanopb/pb_decode.c:852-953 | For any bytes: the message after the loop over tags, unknown fields skipped; ProtoRoundTrip.DecodesAcross and ProtoBounds.DecodedMessageFits say what it is. |
| ProtoDecoder.Decode | hajjApp/Pods/nanopb/pb_decode.c:955-967 | The same, from the defaults. |
| ProtoRoundTrip.DecodesScalar | hajjApp/Pods/nanopb/pb_decode.c:1165-1378 | A scalar value of any type decodes to itself, whatever follows it. |
| ProtoRoundTrip.DecodesTag | hajjApp/Pods/nanopb/pb_decode.c:251-275 | A tag decodes to field number and wire type, whatever follows it. |
| ProtoRoundTrip.DecodesPacked | hajjApp/Pods/nanopb/pb_decode.c:373-397 | So does a packed array. |
| ProtoRoundTrip.DecodesValue | hajjApp/Pods/nanopb/pb_decode.c:1334-1356 | A value of any type, a submessage within its own length included, decodes to what the schema of the reader knows of it, whatever follows it, if and only if every check within it is defined. |
| ProtoRoundTrip.StepsOverItem | hajjApp/Pods/nanopb/pb_decode.c:356-429 | One turn of the loop over an encoded element of a field the reader knows, of any rule and type, puts exactly this element behind those that were decoded before. |
| ProtoRoundTrip.StepsOverPacked | hajjApp/Pods/nanopb/pb_decode.c:373-397 | One turn of the loop over a packed array puts all its elements into the field. |
| ProtoRoundTrip.EncodedIsWireValue | hajjApp/Pods/nanopb/pb_encode.c:652-777 | Every encoded value is a well-formed value of the wire type of its tag: a varint, four bytes, eight bytes, or a length and as many bytes. |
| ProtoRoundTrip.SkipsValue | hajjApp/Pods/nanopb/pb_decode.c:231-290 | Skipping a well-formed value of any of the four wire types leaves exactly what follows it. |
| ProtoRoundTrip.SkipsUnknown | hajjApp/Pods/nanopb/pb_decode.c:873-912 | A field whose number the schema does not have, with any well-formed value of any wire type, changes nothing: the loop goes on behind it. |
| ProtoRoundTrip.DecodesAcross | hajjApp/Pods/nanopb/pb_decode.c:852-967 | Between two schemas that agree on the fields they have in common, the reader gets exactly what it knows of the message, at any depth: fields it lacks are skipped, fields the writer lacks stay empty; if and only if every check it makes is defined. |
| ProtoRoundTrip.CheckComplete | hajjApp/Pods/nanopb/pb_decode.c:929-951 | With every required field seen, the check passes if and only if their number is 0 or below 64 and no multiple of 32. |
| ProtoRoundTrip.DecodesMessage | hajjApp/Pods/nanopb/pb_decode.c:852-967 | Decoding the encoding of a message, at any depth of nesting, gives the message if and only if every message in it has such a number of required fields. |
| ProtoRoundTrip.MultipleOf32Fails | hajjApp/Pods/nanopb/pb_decode.c:947 | So a complete message with 32 or 64 required fields does not decode. |
| ProtoBounds.DecodedMessageFits | hajjApp/Pods/nanopb/pb_decode.c:356-484 | Whatever bytes arrive, a message that decodes fits its schema: no array or string is over its capacity, numbers are in range, a oneof has one field at most, and nothing required is missing. |
| ProtoWire.SignedNumbers | hajjApp/Pods/nanopb/pb_encode.c:516-525 | An sint field is the varint of (n << 1) xor (n >> 63), bit by bit; it is even exactly for n >= 0, and the numbers from -k up to k are exactly those below 2k. |
| ProtoWire.PlainNumbers | hajjApp/Pods/nanopb/pb_encode.c:652-668 | An int field is sign-extended to 64 bits, so that a negative number takes ten bytes. |
| ProtoWire.UnsignedNumbers | hajjApp/Pods/nanopb/pb_encode.c:670-686 | A uint field is the varint of the number itself. |
| ProtoWire.FixedNumbers | hajjApp/Pods/nanopb/pb_encode.c:527-551 | Fixed fields are four or eight bytes, the smallest first. |
| ProtoWire.ElementsOnTheWire | hajjApp/Pods/nanopb/pb_encode.c:553-598 | Before each value stands eight times the field number and the wire type: 0 for varints, 1 for eight bytes, 2 for a length and as many bytes, 5 for four bytes. |
| ProtoWire.NumbersOnTheWire | hajjApp/Pods/nanopb/pb_encode.c:129-171 | An array of numbers is one field of wire type 2 with the elements one after the other. |
| ProtoWire.OthersOnTheWire | hajjApp/Pods/nanopb/pb_encode.c:172-198 | Any other array has a tag for each element, in order. |
| ProtoDecoder.WordCompares | hajjApp/Pods/nanopb/pb_decode.c:947 | A word of flags equals all ones shifted right exactly if just its lowest flags are set. |
| BlockIterators.BlockIterator.CorruptionError | hajjApp/Pods/leveldb-library/table/block.cc:218-224 | The iterator is not valid any more and says so. |
| Blocks.BlockBuilder.constructor | hajjApp/Pods/leveldb-library/table/block_builder.cc:39-46 | No entries, and a first restart point at offset 0. |
| Bloom.BloomFilterPolicy.AddKey | hajjApp/Pods/leveldb-library/util/bloom.cc:51-59 | Exactly the bits of the probes of the key are set on top of those that were. |
| FilterBlocks.FilterBlockBuilder.constructor | hajjApp/Pods/leveldb-library/table/filter_block.cc:18-20 | No keys and no filters. |
| FilterBlocks.FilterBlockBuilder.AppendArray | hajjApp/Pods/leveldb-library/table/filter_block.cc:41-49 | The filters, the array of their offsets with its own offset last, and the shift. |
| Coding.GetVarint32 | hajjApp/Pods/leveldb-library/util/coding.cc:112-141 | At most five bytes, put together in 32 bits. |
| Coding.GetVarint64 | hajjApp/Pods/leveldb-library/util/coding.cc:143-170 | At most ten bytes, put together in 64 bits. |
| Coding.PutLengthPrefixedSlice | hajjApp/Pods/leveldb-library/util/coding.cc:98-101 | The length, cut to 32 bits, and the bytes. |
| DbIterators.DbIter.constructor | hajjApp/Pods/leveldb-library/db/db_iter.cc:51-61 | Not valid, at the sequence number given. |
| LogReader.Reader.constructor | hajjApp/Pods/leveldb-library/db/log_reader.cc:18-30 | At the start, with nothing reported. |
| LogReader.Reader.ReadBlock | hajjApp/Pods/leveldb-library/db/log_reader.cc:201-216 | The next block is in the buffer; a short one is the last. |
| LogReader.Reader.ParseHeader | hajjApp/Pods/leveldb-library/db/log_reader.cc:219-281 | Length, type and checksum decide between a fragment, a bad record and the end, with the report each case makes. |
| LogWriter.Writer.SwitchBlock | hajjApp/Pods/leveldb-library/db/log_writer.cc:44-54 | A block in which no header fits is filled with zeros. |
| LruCaches.LruCache.AddEntry | hajjApp/Pods/leveldb-library/util/cache.cc:274-291 | The new handle is in the map and in use, and takes the place of the handle with its key. |
| MergingIterators.MergingIterator.constructor | hajjApp/Pods/leveldb-library/table/merger.cc:17-25 | Not valid, over the merge of its children. |
| MergingIterators.MergingIterator.TurnForward | hajjApp/Pods/leveldb-library/table/merger.cc:67-79 | After moving backwards, every other child is put at its first entry behind the current key. |
| MergingIterators.MergingIterator.TurnBackward | hajjApp/Pods/leveldb-library/table/merger.cc:93-108 | After moving forwards, every other child is put at its last entry before the current key. |
| ProtoDecoder.FieldIterator.constructor | hajjApp/Pods/nanopb/pb_common.c:8-18 | At the first field. |
| ProtoDecoder.ReadVarint64 | hajjApp/Pods/nanopb/pb_decode.c:209-229 | For any bytes: the varint, in 64 bits, or failure after ten bytes or at the end. |
| ProtoDecoder.ReadVarint32 | hajjApp/Pods/nanopb/pb_decode.c:173-207 | For any bytes: the varint, in 32 bits, or failure after five bytes or at the end. |
| ProtoDecoder.CountRequired | hajjApp/Pods/nanopb/pb_decode.c:928-935 | The number of required fields, from wherever the iterator stands. |
| ProtoEncoder.EncodeElements | hajjApp/Pods/nanopb/pb_encode.c:163-170 | The elements of a packed array, without tags. |
| SkipLists.SkipList.constructor | hajjApp/Pods/leveldb-library/db/skiplist.h:325-334 | An empty list that is in order. |
| TwoLevelIterators.TwoLevelIterator.constructor | hajjApp/Pods/leveldb-library/table/two_level_iterator.cc:76-86 | Not valid, over the concatenation of the blocks. |
| TwoLevelIterators.TwoLevelIterator.InitDataBlock | hajjApp/Pods/leveldb-library/table/two_level_iterator.cc:156-170 | The data iterator belongs to the block of the index, and an iterator that already does is kept. |

## Left out

- Keys: user keys in the store, its iterators and the skiplist are positions in a total order; byte strings appear in tables, filters, batches, edits and messages, and InternalKeys connects both for the default comparator only.
- Store: states are values and steps are functions on them rather than methods of a class, because runs interleave many threads; loads and stores are sequentially consistent.
- Store: an append that has returned is durable; losing unsynced data when the power fails is not modelled, nor are reads and writes of the file system that fail.
- Store: a memtable is the set of its entries; that the skiplist holds them in order is proved by itself, and their encoding in the arena is not modelled.
- Store: the statements about iterators are over the merge of one moment; IteratorsAreStable relates any two moments, and single moves of a MergingIterator are over children that stand still.
- Store: that one background task runs at a time is a condition of the steps; the flag bg_compaction_scheduled_ is not modelled. Group commit is a model of its own, with operations instead of entries.
- StoreCompaction.StartCompactionOk: takes as conditions what the code does not enforce; CompactionSteps and CompactionFaults show that each holds exactly if the tree, the answers or the place of the inputs survive.
- StoreCompaction.MoveOk: the same for the boundary of a trivial move.
- ManifestReplay.ManifestRecovers: needs file numbers that are added once a level; runs of the store keep that, and ReusedNumberBringsFileBack shows that it is needed.
- CompactionWork.DoCompactionWork: internal keys that cannot be parsed, shutting down and failing writes are not modelled.
- Versions.Get: seek statistics, and the compactions they start, are not modelled.
- InputSelection.PickCompaction: compaction scores are not modelled; any level and any first file may be chosen.
- GroupCommit.NextKeepsInv: delays and waiting for room are steps that change nothing; a log append that fails leaves no record, although part of one may be in the file.
- LogDamage.AlteredPayload: what is said about damage is about one fragment, under a checksum that tells the two payloads apart; more damage falls under LogDamage.FragmentsAreChecked only.
- LogReader.Reader.ReadRecord: initial offsets above 0 and failing reads are not modelled.
- LogRecovery.RecoverLogFile: reusing the last log instead of writing a table, and failing table writes, are not modelled.
- ManifestFiles.Recover: reusing the manifest is not modelled; the error is not told apart from other corruption.
- ManifestWriters.VersionSet.LogAndApply: writes succeed, and files carry numbers that are new at their level; renaming CURRENT is the moment at which a new manifest counts.
- LruCaches.LruCache.Insert: a capacity of 0, the destructor, the 16 shards and the mutex are not modelled; handles are numbers, which are not used again.
- HandleTables.HandleTable.Resize: the array of buckets is a sequence field.
- SkipLists.SkipList.Insert: nodes live in an arena that only grows, and pointers are places in it.
- Bloom.BloomFilterPolicy.CreateFilter: the number of probes is a parameter between 1 and 30, since the source computes it in floating point.
- FilterBlocks.FilterBlockBuilder.Finish: the answers are stated for blocks below 4GB, whose offsets fit 32 bits.
- Blocks.BlockBuilder.Finish: block iterators are opened over blocks below 4GB.
- TableBuilders.TableBuilder.Add: takes internal keys in increasing order, below 4GB each as their values; writes to the file succeed; changing options in between and abandoning a table are not modelled.
- TableReaders.Open: takes a metaindex block with at most one entry, as TableBuilder writes it.
- TableReaders.InternalGet: is stated for files that a TableBuilder finished, below 2^64 bytes and with blocks below 4GB; block iterators over damaged blocks and the block cache are not modelled. Snappy is a parameter whose decompression undoes its compression.
- TableReaders.ScanTable: the loop is stated over the bytes of one table, without the statistics repair takes from it.
- MemTables.MemTableIterator.Seek: the place of an internal key in the order of the list is a parameter.
- ProtoEncoder.Encode: takes messages within the capacities of their schema; the errors for others are not modelled.
- ProtoRoundTrip.DecodesMessage: fields are known by their place; pointer fields, callbacks, extensions and fields without presence are not modelled.
- ProtoRoundTrip.DecodesAcross: the fields that both schemas have in common have the same rule, type and capacity in both; submessages may differ in turn.
- ProtoDecoder.Decode: varint bits beyond 64, which C shifts out, are dropped by taking the number modulo 2^64.
- SnapshotList: the linked list of snapshots is a sequence in order of age.
- The app itself, repair but for its loop over a table, the C interface, property strings, statistics and the environment.
