# LevelDB and nanopb, modelled in Dafny

The repository vendors two libraries that carry its logic: LevelDB, a storage engine, and
nanopb, a Protocol Buffers encoder and decoder. This project models their core and proves
what they are for.

**The store** (`Keys`, `Reads`, `Levels`, `Drops`, `Store*`, `Runs`, `References`, `Gap`). A state machine
over memtables, seven levels of table files, logs, the manifest, snapshots and references
to versions. Its steps are logging and publishing a write group, losing the record in
flight, rotating, flushing, moving a file, compacting, collecting garbage, and crash with
recovery. The main results are snapshot stability over all runs, crash recovery, and the
exact condition under which a compaction changes a read.

**The code of the store** (`FileSearch`, `Inputs`, `Setup`, `CompactionJob`, `InputMerge`,
`Get`, `TableCache`, `Edits`, `Db`, `Recovery`, `DbImpl`, `StoreView`, `Snapshots`,
`VersionEdit`, `Manifests`, `ManifestFile`).
`DbImpl.DBImpl` is the store as an object. Each of its methods is proved to be a step of the
state machine, so the results about runs are about it.

**Iterators** (`Cursors`, `TwoLevel`, `IteratorWrapper`, `Merger`, `DbIter`). A store
iterator drives a merging iterator, which drives memtable and table iterators and the
two-level iterators of levels. Each is proved to be a cursor over one sorted list.

**Tables** (`Comparator`, `BlockFormat`, `BlockReader`, `Bloom`, `FilterBlock`, `Table`,
`TableBuilding`, `TableReader`, `DecodedTable`). From bytes to exact lookups.

**Logs and writes** (`LogFile`, `LogFragments`, `LogReader`, `LogBatches`, `WriteBatch`,
`GroupCommit`, `WritePath`, `Coding`). Records in 32 KB blocks, cut off at any byte or
damaged; batches; the writers' queue, alone and over the store.

**In memory** (`SkipList`, `MemTable`, `LruList`, `HandleTable`, `LruCache`). The memtable as
a skip list with one writer and readers that take no lock, as pointer stores and loads; the
LRU cache.

**nanopb** (`PbWire`, `PbMessage`, `PbFieldIter`, `PbEncode`, `PbStructure`, `PbRecords`,
`PbLaws`, `PbSent`, `PbFits`, `PbDecode`). Messages over field descriptors, on the wire
format of the Protocol Buffers encoding guide (sections "Base 128 Varints" and "Message
Structure"). `PbRecords` says what a stream of records means, `PbLaws` that taking them one
by one gives that meaning, `PbSent` and `PbFits` what the records of an encoded message are,
for readers of any part of its descriptor.

**Bytes** (`Formats`). Small values of each format written out in full.

`dafny verify dfyconfig.toml` checks everything.

## Findings

Four properties one would expect are false of the code. Each has an input that shows it and
the condition under which it does hold.

- A compaction can bring a deleted value back. `SetupOtherInputs` extends the level L inputs
  over shared boundary keys, but not the level L+1 inputs (db/version_set.cc:1407 and 1422).
  `Gap.DeletedValueCanReturn` is a run that shows it; its step 8 is a manual compaction.
  Reads of a key survive a compaction exactly when no tombstone of the key is dropped while a
  level L+1 file that is not an input holds an older value of it
  (`Drops.CompactionPreservesReads`; `Runs.RunExact` and `Runs.SnapshotStability` for whole
  runs). Closing the level L+1 inputs in the same way rules it out
  (`Drops.ClosedNeverResurrects`).
- A nanopb string that fills its buffer without a terminator is encoded, but its encoding is
  not decoded (`PbDecode.UnterminatedString`). The encoding of a message is decoded exactly
  when every string with its terminator, every byte array and every repeated field fits the
  buffer it is decoded into (`PbDecode.Decode`).
- A corrupt block can be read outside its bytes. The last test of `DecodeEntry`
  (table/block.cc:70) adds two lengths in 32 bits, so the header 00 FF FF FF FF 0F 01 is
  accepted with nothing left (`BlockReader.WrappedHeader`). An accepted header stays within
  the entries exactly when the two lengths add up to less than 2^32
  (`BlockReader.AcceptedWithin`, `BlockReader.DecodeEntry`), as in every finished block.
- A failed `pb_decode` can leave a count out of range. The array-overflow test
  (pb_decode.c:460) increments the count before it fails, so two records of an array of one
  leave a count of two (`PbDecode.OverfullArray`). That is the only way: counts are in range
  after every success, and after every failure that met no unpacked record of a repeated field
  already full (`PbDecode.Decode`). A later `pb_decode_noinit` into such a structure rejects
  each further record of the field, with a count that keeps growing, and writes nothing past
  a buffer (`PbDecode.DecodeNoinit`).

Smaller ones: `VersionEdit::Clear` leaves the compaction pointers, so `DecodeFrom` adds to
them; a group whose log append fails still uses up its sequence numbers.

## Model

| member | source | states |
|---|---|---|
| Runs.SnapshotStability | teamhungary/Pods/leveldb-library/db/db_impl.cc:1100-1145 | For every run of write, crash, rotate, flush, move, compaction and garbage-collection steps, and every key: any two states that both still serve sequence q answer a read of the key at q alike, exactly when no compaction of the run resurrects the key |
| Runs.HeldSnapshotStability | teamhungary/Pods/leveldb-library/db/db_impl.cc:1166-1174 | A snapshot held at two points of a run that does not resurrect the key reads it the same at both |
| References.SnapshotServed | teamhungary/Pods/leveldb-library/db/db_impl.cc:1166-1174 | A snapshot taken at step i is in the list of every later state until the step that releases it and no other, or a crash, and no compaction in between works with a larger one than it |
| References.SnapshotReads | teamhungary/Pods/leveldb-library/db/db_impl.cc:1100-1174 | So a read at it answers in all those states what it answered when it was taken, if no compaction of the run resurrects the key |
| References.PinnedTablesStay | teamhungary/Pods/leveldb-library/db/db_impl.cc:223-278 | Every table of the version an iterator was made over stays on disk until that iterator is cleaned up, or a crash, whatever is compacted and collected in between |
| Runs.RunExact | teamhungary/Pods/leveldb-library/db/db_impl.cc:688-767 | For every run of the code and every key: all reads of the key at or above the oldest snapshot agree with everything ever written, in every state, exactly when no compaction of the run resurrects the key |
| Runs.StepExact | teamhungary/Pods/leveldb-library/db/db_impl.cc:688-767 | Any one step keeps the invariant, and keeps reads of a key faithful exactly when it is not a compaction that resurrects the key |
| Runs.RunInv | teamhungary/Pods/leveldb-library/db/version_set.cc:801-884 | Recency between memtables and levels, sorted disjoint files, live logs, live tables and the recoverable sequence number hold in every state of every run |
| Runs.CrashRecovery | teamhungary/Pods/leveldb-library/db/db_impl.cc:280-489 | After a crash the recovered store holds the entries, and answers the latest read of every key, as if the group in flight had been acknowledged: nothing acknowledged is lost, and a group whose record is whole survives whole |
| Runs.QuietCrashRecovery | teamhungary/Pods/leveldb-library/db/db_impl.cc:280-369 | With no group in flight, a crash and recovery change no entry and no latest read |
| Runs.TornCrashRecovery | teamhungary/Pods/leveldb-library/db/db_impl.cc:371-489 | When the crash cuts the record of the group in flight, recovery answers every latest read as before that group: it is not there at all |
| LogBatches.ReadBatches | teamhungary/Pods/leveldb-library/db/db_impl.cc:420-460 | On any bytes each batch comes from a record that lies there in fragments with right checksums; the bytes of a log cut off anywhere give back exactly the batches of the groups whose records are there whole, in order, as entries of the store |
| LogBatches.CutInLast | teamhungary/Pods/leveldb-library/db/log_reader.cc:189-271 | A cut inside the last record loses that group and no other |
| LogBatches.CutLogRecovers | teamhungary/Pods/leveldb-library/db/db_impl.cc:371-489 | Recovery from log bytes that end inside the record of the group in flight changes no latest read |
| Drops.CompactionPreservesReads | teamhungary/Pods/leveldb-library/db/db_impl.cc:890-963 | For every key and any compaction of level L into L+1: all reads at or above the smallest snapshot are unchanged exactly when the compaction resurrects nothing of that key |
| Drops.ClosedNeverResurrects | teamhungary/Pods/leveldb-library/db/version_set.cc:1403-1462 | If no file left at level L+1 begins with the user key a chosen one ends with, nothing is resurrected |
| Drops.RemovesDropped | teamhungary/Pods/leveldb-library/db/db_impl.cc:936-963 | Installing a compaction removes exactly the input entries at or below the snapshot that are not the newest of their user key there, and the tombstones at or below it whose key no deeper file covers |
| Drops.RulesCompact | teamhungary/Pods/leveldb-library/db/db_impl.cc:936-963 | The two rules leave of each user key at most one entry at or below the snapshot, the newest; no tombstone there whose key no deeper file covers; and all the rest |
| Gap.DeletedValueCanReturn | teamhungary/Pods/leveldb-library/db/version_set.cc:1403-1462 | A run of fourteen steps of the store after which a deleted user key reads as its old value |
| Gap.CutAfterTombstone | teamhungary/Pods/leveldb-library/table/table_builder.cc:94-123 | The table sizes of that run are what the block and file size options make of its entries |
| Levels.ReplaceGood | teamhungary/Pods/leveldb-library/db/db_impl.cc:860-876 | Installing a compaction keeps files numbered apart, levels disjoint and recency between levels |
| Levels.MoveGood | teamhungary/Pods/leveldb-library/db/db_impl.cc:709-731 | A trivial move keeps them too |
| Levels.AddFileGood | teamhungary/Pods/leveldb-library/db/version_set.cc:491-516 | A new table at the level picked for it keeps them too |
| StoreInv.CompactKeeps | teamhungary/Pods/leveldb-library/db/db_impl.cc:860-876 | A compaction keeps the invariant of the store, and faithful reads of a key exactly when it does not resurrect the key |
| StoreInv.PublishKeeps | teamhungary/Pods/leveldb-library/db/db_impl.cc:1212-1236 | Publishing a logged group keeps it: reads at older sequence numbers do not see the group |
| StoreInv.FlushKeeps | teamhungary/Pods/leveldb-library/db/db_impl.cc:535-566 | Flushing the immutable memtable keeps it, with the older logs no longer needed |
| StoreInv.DeleteObsoleteKeeps | teamhungary/Pods/leveldb-library/db/db_impl.cc:223-278 | Garbage collection deletes no table or log that is still needed |
| StoreInv.TearKeeps | teamhungary/Pods/leveldb-library/db/db_impl.cc:1218-1220 | Losing the record in flight keeps it, and changes nothing that is stored |
| StoreRecover.RecoverKeeps | teamhungary/Pods/leveldb-library/db/db_impl.cc:280-369 | Recovery keeps the invariant, replayed tables at level 0 included |
| FileSearch.FindFile | teamhungary/Pods/leveldb-library/db/version_set.cc:88-106 | The binary search finds the first file whose largest key is not below the key |
| FileSearch.SomeFileOverlapsRange | teamhungary/Pods/leveldb-library/db/version_set.cc:122-157 | Both the linear scan and the binary search say exactly whether some file meets the user-key range |
| FileSearch.GetOverlappingInputs | teamhungary/Pods/leveldb-library/db/version_set.cc:519-559 | The files that meet the range; at level 0 the least widening of it that no overlapping file sticks out of, and the restarts end |
| Inputs.GetRange | teamhungary/Pods/leveldb-library/db/version_set.cc:1205-1224 | The least and the greatest key of the files, and both are attained |
| Inputs.FindSmallestBoundaryFile | teamhungary/Pods/leveldb-library/db/version_set.cc:1344-1361 | The boundary file with the least smallest key, or none when there is none |
| Inputs.AddBoundaryInputs | teamhungary/Pods/leveldb-library/db/version_set.cc:1378-1401 | Afterwards no file of the level begins just past the chosen ones with their last user key; a run of an ordered level stays a run |
| Setup.SetupOtherInputs | teamhungary/Pods/leveldb-library/db/version_set.cc:1403-1462 | The chosen inputs leave only newer data at level L, and at level L+1 they are exactly the files that meet their user-key range, in key order |
| Setup.Expand | teamhungary/Pods/leveldb-library/db/version_set.cc:1419-1447 | When the level L inputs are grown, the grown choice is safe in the same sense |
| Setup.PickCompaction | teamhungary/Pods/leveldb-library/db/version_set.cc:1270-1322 | The same of the inputs picked from a seed file, which is among them; the grandparents are the files of the level after next that meet the range of all inputs, and the compaction pointer is the last largest key |
| Setup.PickOrMove | teamhungary/Pods/leveldb-library/db/version_set.cc:1515-1523 | A file is moved only if it is the only input, meets nothing at the next level and meets at most ten times the target size at the level after it |
| Setup.CompactRange | teamhungary/Pods/leveldb-library/db/version_set.cc:1464-1495 | The same of a manual compaction, which has inputs exactly when some file meets the range, takes in some file that does, and at level 0 all of them |
| CompactionJob.HiddenByPrevious | teamhungary/Pods/leveldb-library/db/db_impl.cc:930-948 | Remembering the sequence number of the previous entry decides rule (A) against the whole input |
| CompactionJob.Compaction.IsBaseLevelForKey | teamhungary/Pods/leveldb-library/db/version_set.cc:1533-1552 | The forward-only level pointers give the answer of a full check, as long as keys are asked about in order |
| CompactionJob.Compaction.ShouldDrop | teamhungary/Pods/leveldb-library/db/db_impl.cc:930-963 | The loop drops an entry exactly when one of the two rules says so of the whole input |
| CompactionJob.Compaction.DoCompactionWork | teamhungary/Pods/leveldb-library/db/db_impl.cc:878-1002 | The tables made are sorted, apart from each other, freshly numbered, and hold of each user key one entry at or below the snapshot, the newest, unless it is a tombstone that nothing deeper needs; and every entry above the snapshot |
| CompactionJob.ConcatApart | teamhungary/Pods/leveldb-library/db/db_impl.cc:965-996 | Tables cut one after another from sorted entries do not overlap |
| InputMerge.LevelIsIndexed | teamhungary/Pods/leveldb-library/db/version_set.cc:160-228 | The file index of an ordered level bounds its files, so a two-level iterator over it is a cursor over the entries of the level in key order |
| InputMerge.NewConcatenatingIterator | teamhungary/Pods/leveldb-library/db/version_set.cc:223-228 | The iterator of a level reads all of its files in order |
| InputMerge.MergeInputs | teamhungary/Pods/leveldb-library/db/version_set.cc:1237-1268 | Read through the merging iterator, the inputs of a compaction come each once, in key order |
| InputMerge.InputsReady | teamhungary/Pods/leveldb-library/db/version_set.cc:1237-1268 | No entry is in two of the inputs a compaction chooses, whatever the level |
| Edits.ReplayEqualsSteps | teamhungary/Pods/leveldb-library/db/version_set.cc:886-994 | Replaying all edits through one Builder gives the files that applying them one at a time gives, when each file number is added at most once |
| Manifests.StepWrites | teamhungary/Pods/leveldb-library/db/version_set.cc:801-884 | Each step writes at most one manifest record, after which the edits of the manifest are the files of the store, its counters those of the last record, and no number is added to a level twice; recovery begins a new manifest with a snapshot |
| Manifests.RunDurable | teamhungary/Pods/leveldb-library/db/version_set.cc:801-884 | In every state of every run some such manifest holds what is durable of the state |
| ManifestFile.Recover | teamhungary/Pods/leveldb-library/db/version_set.cc:886-994 | From manifest bytes cut off anywhere: the version and the last counters of the edits whose records are whole, or the error for a foreign comparator or the first counter that is missing |
| ManifestFile.RecoverState | teamhungary/Pods/leveldb-library/db/version_set.cc:886-994 | From a manifest whose whole records hold what is durable of a state, exactly the files and the counters of that state |
| ManifestFile.CutManifest | teamhungary/Pods/leveldb-library/db/version_set.cc:842-855 | A manifest cut inside its last record recovers the version before that edit |
| Edits.SaveLevel | teamhungary/Pods/leveldb-library/db/version_set.cc:695-739 | The merge by smallest key holds exactly the files that are not deleted, and is in order |
| Edits.Builder.Apply | teamhungary/Pods/leveldb-library/db/version_set.cc:650-692 | The builder holds the edits so far: deletions first, then additions, which take their number off the deleted list |
| Edits.Builder.SaveTo | teamhungary/Pods/leveldb-library/db/version_set.cc:695-739 | Every level of the new version is what applying the edits one at a time gives, in order |
| Edits.AscendingApart | teamhungary/Pods/leveldb-library/db/version_set.cc:714-737 | Files by smallest key that do not overlap form a sorted level |
| VersionEdit.VersionEdit.EncodeTo | teamhungary/Pods/leveldb-library/db/version_edit.cc:41-85 | Writes the tagged items of the edit in the order of the source |
| VersionEdit.VersionEdit.DecodeFrom | teamhungary/Pods/leveldb-library/db/version_edit.cc:107-205 | On any bytes it succeeds exactly when they are tagged items and nothing else, and makes the edit of them; what EncodeTo wrote it reads back, except that compaction pointers already there stay, as Clear leaves them |
| VersionEdit.ItemsBack | teamhungary/Pods/leveldb-library/db/version_edit.cc:41-85 | The items that were written are found again, in order and with nothing left over |
| VersionEdit.ItemValid | teamhungary/Pods/leveldb-library/db/version_edit.cc:107-205 | An item found in any bytes has the tag that is there, a level below 7 and numbers of 64 bits |
| VersionEdit.ItemsRestore | teamhungary/Pods/leveldb-library/db/version_edit.cc:107-205 | The items of an edit, taken in one by one, make the edit again |
| VersionEdit.InsertMember | teamhungary/Pods/leveldb-library/db/version_edit.cc:171-177 | Inserting into the deleted-file set keeps its order and adds one member |
| Db.PickLevelForMemTableOutput | teamhungary/Pods/leveldb-library/db/version_set.cc:491-516 | Level 0 if a file there meets the range; otherwise the first level that is 2, or whose next level meets it, or with more than ten times the target size meeting it two levels down; so no file at that level or above it meets the range unless it is level 0 |
| Db.CompactionEditMeans | teamhungary/Pods/leveldb-library/db/version_set.cc:1525-1531 | The edit of a compaction replaces exactly the inputs by the outputs |
| Db.ApplyEdit | teamhungary/Pods/leveldb-library/db/version_set.cc:801-815 | LogAndApply through a Builder gives the version that the edit means |
| Db.InsertBatch | teamhungary/Pods/leveldb-library/db/memtable.cc:75-98 | Each entry of a batch goes to its place in key order |
| DbImpl.DBImpl.AddRecord | teamhungary/Pods/leveldb-library/db/db_impl.cc:1205-1220 | Logging a group is the LogGroup step of the store: the current log has one more batch, the group |
| DbImpl.DBImpl.LoseRecord | teamhungary/Pods/leveldb-library/db/db_impl.cc:1218-1220 | A crash that cuts the record in flight is the Tear step |
| DbImpl.DBImpl.InsertInto | teamhungary/Pods/leveldb-library/db/db_impl.cc:1222-1236 | Inserting it and publishing its sequence numbers is the Publish step |
| DbImpl.DBImpl.SwitchMemTable | teamhungary/Pods/leveldb-library/db/db_impl.cc:1346-1366 | A new memtable and log is the Rotate step |
| DbImpl.DBImpl.CompactMemTable | teamhungary/Pods/leveldb-library/db/db_impl.cc:535-566 | A flush is the Flush step: the table at the picked level, the log number and the edit together |
| DbImpl.DBImpl.BackgroundCompaction | teamhungary/Pods/leveldb-library/db/db_impl.cc:688-767 | From any seed file it is the trivial-move step or the compaction step: the files change by exactly the inputs and the outputs, which hold what a compaction should leave; a move meets the test for one; it keeps the invariant, and reads of a key unless it resurrects the key |
| DbImpl.DBImpl.ManualCompaction | teamhungary/Pods/leveldb-library/db/db_impl.cc:585-622 | A manual compaction is the compaction step, with the same effect on reads, and is nothing when no file meets the range |
| DbImpl.DBImpl.DeleteObsoleteFiles | teamhungary/Pods/leveldb-library/db/db_impl.cc:223-278 | It is the DeleteObsolete step: the tables left are those of the version and of every version an iterator holds, the logs left those from the log number on, and no others |
| DbImpl.DBImpl.Recover | teamhungary/Pods/leveldb-library/db/db_impl.cc:280-369 | A crash and reopening is the Recover step: the memory is empty, and the files hold all that was stored or logged |
| DbImpl.DBImpl.GetSnapshot | teamhungary/Pods/leveldb-library/db/db_impl.cc:1166-1169 | Answers the last sequence number, and adds it to the list of snapshots, whatever others are held |
| DbImpl.DBImpl.ReleaseSnapshot | teamhungary/Pods/leveldb-library/db/db_impl.cc:1171-1174 | Takes exactly that one snapshot off the list; the others stay, in order |
| DbImpl.DBImpl.Get | teamhungary/Pods/leveldb-library/db/db_impl.cc:1100-1145 | Memtable, immutable memtable, then the version: the answer is that of the newest visible entry among all that is stored |
| DbImpl.DBImpl.NewIterator | teamhungary/Pods/leveldb-library/db/db_impl.cc:1147-1157 | The rows of a store iterator are exactly the keys and values that Get at its sequence number finds; the numbers of all files of the version are held for it, and all held for others stay held |
| DbImpl.DBImpl.CleanupIterator | teamhungary/Pods/leveldb-library/db/db_impl.cc:1050-1058 | The version of that iterator is let go, and no other |
| StoreView.StoreMergeable | teamhungary/Pods/leveldb-library/db/db_impl.cc:1062-1087 | The memtables and the files of all levels share no entry, and together hold all that is stored |
| StoreView.NewDBIterator | teamhungary/Pods/leveldb-library/db/db_impl.cc:1147-1157 | The same of the iterator built over memtables and a version |
| Recovery.RecoverLogFile | teamhungary/Pods/leveldb-library/db/db_impl.cc:371-489 | Replaying a log makes tables that hold its batches in order, whatever the write buffer limit |
| Recovery.RecoverLogFiles | teamhungary/Pods/leveldb-library/db/db_impl.cc:325-365 | All live logs, oldest first, are replayed into rising tables, with the largest sequence number seen |
| Get.GetFromTells | teamhungary/Pods/leveldb-library/db/version_set.cc:263-276 | Seeking and checking the user key alone finds the newest visible entry exactly when there is one |
| Get.VersionGet | teamhungary/Pods/leveldb-library/db/version_set.cc:326-421 | Level 0 newest first, then one binary search per level, is the newest visible entry among all entries of the version |
| TableCache.VersionLookup | teamhungary/Pods/leveldb-library/db/version_set.cc:326-421 | The same when every file is asked through the bytes of its table |
| TableCache.TableIsIndexed | teamhungary/Pods/leveldb-library/table/table.cc:210-214 | The index block of a table bounds its blocks, so the two-level iterator over the two is a cursor over the entries the table holds |
| TableCache.BlockSeekIsCursorSeek | teamhungary/Pods/leveldb-library/table/block.cc:163-201 | Where a block iterator stands after Seek is where a cursor over the decoded entries stands |
| Get.FirstLevelWins | teamhungary/Pods/leveldb-library/db/version_set.cc:326-421 | The first level with a visible entry has the newest one |
| Keys.RankOrder | teamhungary/Pods/leveldb-library/db/dbformat.cc:51-67 | The real numbers that stand for user keys have the order and the equality of byte strings |
| Snapshots.SnapshotList.New | teamhungary/Pods/leveldb-library/db/snapshot.h:57-72 | The pointer ring gains one snapshot at its new end |
| Snapshots.SnapshotList.Delete | teamhungary/Pods/leveldb-library/db/snapshot.h:79-89 | The ring loses that snapshot and keeps the others in order |
| Snapshots.SnapshotList.Oldest | teamhungary/Pods/leveldb-library/db/snapshot.h:47-50 | The least sequence number held |
| Snapshots.SnapshotList.Smallest | teamhungary/Pods/leveldb-library/db/db_impl.cc:890-894 | The oldest sequence number held, or the last one when none is: what the drop rules of a compaction go by |
| DbIter.ViewIsLookup | teamhungary/Pods/leveldb-library/db/db_iter.cc:168-198 | The view holds exactly the keys and values that a read at its sequence number finds, in rising key order |
| DbIter.DBIter.Current | teamhungary/Pods/leveldb-library/db/db_iter.cc:64-72 | The key and the value are those of the row at its place in the view, whichever way it moved |
| DbIter.DBIter.Next | teamhungary/Pods/leveldb-library/db/db_iter.cc:141-166 | One row forward in the view, whichever way it moved before |
| DbIter.DBIter.Prev | teamhungary/Pods/leveldb-library/db/db_iter.cc:200-225 | One row back, whichever way it moved before; none before the first |
| DbIter.DBIter.Seek | teamhungary/Pods/leveldb-library/db/db_iter.cc:269-281 | The first row whose key is not below the target |
| DbIter.DBIter.SeekToFirst | teamhungary/Pods/leveldb-library/db/db_iter.cc:283-292 | The first row |
| DbIter.DBIter.SeekToLast | teamhungary/Pods/leveldb-library/db/db_iter.cc:294-299 | The last row |
| Merger.SmallestStands | teamhungary/Pods/leveldb-library/table/merger.cc:148-161 | The child with the least key stands at the next entry of the sorted union |
| Merger.LargestStands | teamhungary/Pods/leveldb-library/table/merger.cc:163-176 | The child with the greatest key stands at the previous entry, and the others stay behind it |
| Merger.MergingIterator.Next | teamhungary/Pods/leveldb-library/table/merger.cc:55-79 | One entry forward in the sorted union of the children, after a change of direction too |
| Merger.MergingIterator.Prev | teamhungary/Pods/leveldb-library/table/merger.cc:81-108 | One entry back, after a change of direction too |
| Merger.MergingIterator.Seek | teamhungary/Pods/leveldb-library/table/merger.cc:47-53 | The first entry of the union not below the target |
| TwoLevel.SeekFlat | teamhungary/Pods/leveldb-library/table/two_level_iterator.cc:82-87 | Seeking in the index and then in the block is seeking in the concatenation of the blocks |
| TwoLevel.TwoLevelIterator.Seek | teamhungary/Pods/leveldb-library/table/two_level_iterator.cc:82-87 | The first entry of the concatenation not below the target |
| TwoLevel.TwoLevelIterator.Next | teamhungary/Pods/leveldb-library/table/two_level_iterator.cc:103-107 | One entry forward in the concatenation, empty blocks skipped |
| TwoLevel.TwoLevelIterator.Prev | teamhungary/Pods/leveldb-library/table/two_level_iterator.cc:109-113 | One entry back in it |
| IteratorWrapper.Child.Known | teamhungary/Pods/leveldb-library/table/iterator_wrapper.h:17-87 | A child is valid exactly when its position is inside the sorted entries it reads |
| Comparator.FindShortestSeparator | teamhungary/Pods/leveldb-library/util/comparator.cc:29-50 | The start key, or a key no longer than it, after it and before the limit; cut after the first byte that differs when that byte leaves room, and the start key itself when no byte does |
| Comparator.FindShortSuccessor | teamhungary/Pods/leveldb-library/util/comparator.cc:52-63 | A key after the given one and no longer, cut after the first byte that can go up; the key itself exactly when none can |
| Comparator.InternalSeparator | teamhungary/Pods/leveldb-library/db/dbformat.cc:69-86 | Not before the start, before the limit if the start is, and shorter when the user keys leave room |
| Comparator.InternalSuccessor | teamhungary/Pods/leveldb-library/db/dbformat.cc:88-101 | An internal key not before the given one |
| Comparator.InternalLinear | teamhungary/Pods/leveldb-library/db/dbformat.cc:51-67 | The order of internal keys is a strict linear order of all their bytes |
| BlockFormat.BlockBuilder.Add | teamhungary/Pods/leveldb-library/table/block_builder.cc:72-106 | The block grows by the given entry alone, prefix-compressed against its predecessor or at a restart point |
| BlockFormat.BlockBuilder.Finish | teamhungary/Pods/leveldb-library/table/block_builder.cc:62-70 | The finished block: entries, restart offsets, their number |
| BlockReader.FinishedLayout | teamhungary/Pods/leveldb-library/table/block.cc:54-74 | Every entry and restart point of a finished block can be read back where it is |
| BlockReader.DecodeEntry | teamhungary/Pods/leveldb-library/table/block.cc:54-74 | On any bytes a header is accepted exactly when three 32-bit varints are there and their 32-bit sum fits what is left; an accepted header stays within the entries if and only if its two lengths add up to less than 2^32 |
| BlockReader.AcceptedWithin | teamhungary/Pods/leveldb-library/table/block.cc:70 | A header that the test accepts describes an entry within the block exactly when nonShared + valueLength < 2^32 |
| BlockReader.WrappedHeader | teamhungary/Pods/leveldb-library/table/block.cc:70 | The bytes 00 FF FF FF FF 0F 01 are a header that is accepted and reaches outside |
| BlockReader.BlockIter.Next | teamhungary/Pods/leveldb-library/table/block.cc:137-140 | The entry after the current one |
| BlockReader.BlockIter.Prev | teamhungary/Pods/leveldb-library/table/block.cc:142-161 | The entry before the current one: Prev undoes Next |
| BlockReader.BlockIter.Seek | teamhungary/Pods/leveldb-library/table/block.cc:163-201 | The first entry not below the target, through binary search over restart points |
| BlockReader.NewIterator | teamhungary/Pods/leveldb-library/table/block.cc:254-264 | An iterator over exactly the entries that were added, an error for contents too short |
| Bloom.CreateFilter | teamhungary/Pods/leveldb-library/util/bloom.cc:28-54 | A filter of the bits per key times the keys, at least 64, rounded up to bytes, its last byte the number of probes; a bit is set exactly when some key probes it, so every key matches |
| FilterBlock.FilterBlockBuilder.Finish | teamhungary/Pods/leveldb-library/table/filter_block.cc:35-49 | Every key added under a block offset may match at that offset in the finished block |
| FilterBlock.ReaderFinds | teamhungary/Pods/leveldb-library/table/filter_block.cc:77-104 | The reader finds filter number offset / 2048 through the offset array and the trailer |
| Table.FirstAnswers | teamhungary/Pods/leveldb-library/table/table.cc:216-244 | The first entry not below a lookup key answers it if it has its user key; otherwise nothing does |
| Table.PastBlock | teamhungary/Pods/leveldb-library/table/table.cc:216-244 | When the block the index names has nothing left for a lookup, the table has not either |
| TableReader.ReadBlock | teamhungary/Pods/leveldb-library/table/format.cc:64-141 | A block is given exactly when it is there whole, is uncompressed and, if asked to verify, has the checksum stored after it; and it is the bytes at the handle |
| TableReader.DecodeHandle | teamhungary/Pods/leveldb-library/table/format.cc:23-29 | A block handle that was written is read back; on any bytes there is one exactly when two varints are there |
| TableReader.InternalGet | teamhungary/Pods/leveldb-library/table/table.cc:216-244 | The newest entry of the user key that is not too new, exactly when the table has one, filter and separators included |
| TableBuilding.TableBuilder.Add | teamhungary/Pods/leveldb-library/table/table_builder.cc:94-123 | Exactly the given entry is added |
| TableBuilding.TableBuilder.Flush | teamhungary/Pods/leveldb-library/table/table_builder.cc:125-139 | The open block is written out, and no entry is lost |
| TableBuilding.TableBuilder.Finish | teamhungary/Pods/leveldb-library/table/table_builder.cc:198-253 | The file, its index and its filter are such that every lookup finds exactly the entries that were added |
| DecodedTable.OrdersAgree | teamhungary/Pods/leveldb-library/db/dbformat.cc:51-67 | The order of encoded internal keys is the order of the entries they stand for |
| DecodedTable.AnswerIsGet | teamhungary/Pods/leveldb-library/db/version_set.cc:263-276 | What answers a lookup key among encoded entries is what the lookup finds among the decoded ones |
| DecodedTable.TableGet | teamhungary/Pods/leveldb-library/table/table.cc:216-244 | A lookup in the bytes of a table gives the outcome of the lookup among its entries |
| LogFile.UnmaskMask | teamhungary/Pods/leveldb-library/util/crc32c.h:29-38 | Unmask undoes Mask on 32-bit words |
| LogFile.Writer.AddRecord | teamhungary/Pods/leveldb-library/db/log_writer.cc:34-80 | The file grows by the fragments of the record, with trailers at block ends |
| LogReader.RecordRead | teamhungary/Pods/leveldb-library/db/log_reader.cc:56-174 | From where a record starts, the reader gives it back if its last fragment is there, and the end of the file if not, and reports nothing |
| LogReader.ReadAll | teamhungary/Pods/leveldb-library/db/log_reader.cc:56-271 | Whatever the file holds, each record given is the payloads of FULL, or FIRST MIDDLE* LAST, fragments with right checksums, one after the other; a log cut off at any byte gives back exactly the records that were written whole, in order, with no corruption reported |
| LogReader.Reader.ReadRecord | teamhungary/Pods/leveldb-library/db/log_reader.cc:56-174 | On any bytes: a record it returns is the payloads of FULL, or FIRST MIDDLE* LAST, fragments that lie one after the other, each under a checksum that is that of its type and payload; the first such record met is the one returned; a fragment whose checksum differs is in no record, and the rest of its block is reported as dropped |
| LogReader.ReadTells | teamhungary/Pods/leveldb-library/db/log_reader.cc:56-271 | The same of the function that the reader is proved to compute, from file bytes alone |
| WriteBatch.WriteBatch.Put | teamhungary/Pods/leveldb-library/db/write_batch.cc:98-103 | The batch holds one more update |
| WriteBatch.WriteBatch.Delete | teamhungary/Pods/leveldb-library/db/write_batch.cc:105-109 | The same for a deletion |
| WriteBatch.WriteBatch.SetSequence | teamhungary/Pods/leveldb-library/db/write_batch.cc:94-96 | The sequence number changes and the updates do not |
| WriteBatch.WriteBatch.Append | teamhungary/Pods/leveldb-library/db/write_batch.cc:144-148 | The batch holds its own updates, then those of the other |
| WriteBatch.Iterate | teamhungary/Pods/leveldb-library/db/write_batch.cc:42-80 | On any bytes it succeeds exactly when those after the header are updates and nothing else and the header counts them right, and gives them in order; if it fails it has given the updates before the first bytes that are none; of an encoded batch it gives the updates put in |
| WriteBatch.UpdatesBack | teamhungary/Pods/leveldb-library/db/write_batch.cc:98-109 | The body of a batch is read as its updates |
| GroupCommit.BuildBatchGroup | teamhungary/Pods/leveldb-library/db/db_impl.cc:1260-1306 | The longest group that fits, with no sync writer behind a leader that does not sync, and its updates in queue order |
| GroupCommit.MemServed | teamhungary/Pods/leveldb-library/db/db_impl.cc:1205-1244 | Writing for a group at once puts the updates of each writer where writing alone would, in disjoint rising ranges |
| GroupCommit.LogCommits | teamhungary/Pods/leveldb-library/db/db_impl.cc:1218-1226 | Nobody who asked for sync is told Ok before the log is synced past its record |
| GroupCommit.ReplayMore | teamhungary/Pods/leveldb-library/db/db_impl.cc:1218-1244 | Replaying the log gives the memtable, but for a last record whose sync failed |
| GroupCommit.CommittedOk | teamhungary/Pods/leveldb-library/db/db_impl.cc:1245-1253 | Whatever the outcome of a group, every invariant of the queue holds afterwards |
| GroupCommit.WriteQueue.Lead | teamhungary/Pods/leveldb-library/db/db_impl.cc:1185-1207 | The front writer is told at once when there is no room or nothing to write, and log and memtable stay; otherwise it leads the longest group that may ride together |
| WritePath.HappensKeeps | teamhungary/Pods/leveldb-library/db/db_impl.cc:1185-1256 | A committed group is the LogGroup and the Publish step of the store, a group whose sync failed the LogGroup step alone; through these, answers at once and all other steps the store holds exactly what the writers told Ok wrote |
| WritePath.ReadYourWrites | teamhungary/Pods/leveldb-library/db/db_impl.cc:1185-1256 | Along every history of writers, background work, readers and crashes, the latest read of a key that no compaction resurrects answers with what the writers told Ok wrote there last, in the order they were answered |
| WritePath.LookupLatest | teamhungary/Pods/leveldb-library/db/memtable.cc:100-134 | Among numbered updates the newest visible entry of a key is its last update |
| GroupCommit.WriteQueue.Commit | teamhungary/Pods/leveldb-library/db/db_impl.cc:1209-1257 | All writers of the group leave the queue with its outcome; the log, the memtable and the synced part change by that outcome (GroupCommit.CommittedTold and CommittedMore spell it out); its sequence numbers are used up |
| SkipList.FindGreaterOrEqual | teamhungary/Pods/leveldb-library/db/skiplist.h:260-282 | Against any history of pointer stores, with each load one step, the least key not below the target as of the last load, past no key inserted before the search began; and the predecessor at every level |
| SkipList.FindLessThan | teamhungary/Pods/leveldb-library/db/skiplist.h:284-303 | The last key below the target as of the last load, before no such key inserted before the search began |
| SkipList.FindLast | teamhungary/Pods/leveldb-library/db/skiplist.h:305-323 | A key with none after it as of the last load |
| SkipList.Contains | teamhungary/Pods/leveldb-library/db/skiplist.h:371-379 | Whether the key was in the list at the last load; a key inserted before the search began is found |
| SkipList.PublishStore | teamhungary/Pods/leveldb-library/db/skiplist.h:362-367 | Storing the pointer of a predecessor adds the key to one level and to no other |
| SkipList.SkipList.Insert | teamhungary/Pods/leveldb-library/db/skiplist.h:337-368 | After every store each level is a sorted sublist of the one below; in the end the key is in exactly the levels of its height |
| MemTable.GetConcurrently | teamhungary/Pods/leveldb-library/db/memtable.cc:100-134 | A lookup at sequence number s answers from the entries there were when it began, whatever the writer inserts meanwhile, if all of that is numbered above s |
| MemTable.MemTable.Add | teamhungary/Pods/leveldb-library/db/memtable.cc:75-98 | The skip list then holds the old entries and the new one, in key order |
| MemTable.MemTable.Get | teamhungary/Pods/leveldb-library/db/memtable.cc:100-134 | The lookup in the skip list is the lookup among its entries in key order |
| MemTable.MemTable.InsertInto | teamhungary/Pods/leveldb-library/db/write_batch.cc:116-137 | A batch inserted into the skip list leaves the one sorted list of the old entries and the batch, which is the memtable of the store |
| HandleTable.MaskPicksBucket | teamhungary/Pods/leveldb-library/util/cache.cc:114-120 | Masking with length - 1 is the remainder by the length, a power of two |
| HandleTable.HandleTable.FindPointer | teamhungary/Pods/leveldb-library/util/cache.cc:114-120 | The slot of the handle with this key and hash, or the end of its chain when there is none |
| HandleTable.HandleTable.Insert | teamhungary/Pods/leveldb-library/util/cache.cc:78-92 | The new handle takes the place of the one with its key and hash, which is returned; all others stay |
| HandleTable.HandleTable.Remove | teamhungary/Pods/leveldb-library/util/cache.cc:94-102 | That handle and no other leaves the table |
| HandleTable.HandleTable.Resize | teamhungary/Pods/leveldb-library/util/cache.cc:122-146 | Rehashing keeps every handle, in the chain of its new bucket |
| HandleTable.Placed | teamhungary/Pods/leveldb-library/util/cache.cc:78-92 | Storing through the slot keeps all chains, and changes one of them |
| LruList.RemoveRing | teamhungary/Pods/leveldb-library/util/cache.cc:239-242 | Unlinking a handle from the ring leaves the others in order |
| LruList.AppendRing | teamhungary/Pods/leveldb-library/util/cache.cc:244-250 | Linking it before the head makes it the newest |
| LruCache.ReferredKeeps | teamhungary/Pods/leveldb-library/util/cache.cc:217-223 | One more reference moves a handle in use if only the cache held it, and keeps all counts |
| LruCache.UnreferredKeeps | teamhungary/Pods/leveldb-library/util/cache.cc:225-237 | One reference less frees the handle, or moves it back to lru, and keeps all counts |
| LruCache.LruCache.Lookup | teamhungary/Pods/leveldb-library/util/cache.cc:252-259 | The cached handle with this key and hash, exactly when there is one, with one client reference more; it leaves the eviction list, and the order of the others stays |
| LruCache.LruCache.Release | teamhungary/Pods/leveldb-library/util/cache.cc:261-264 | One client reference less; at the last one the handle becomes the newest of the eviction list if it is cached, and is deleted if not |
| LruCache.LruCache.Insert | teamhungary/Pods/leveldb-library/util/cache.cc:266-303 | The new handle replaces the one with its key, which is deleted if no client holds it; then the oldest unreferenced handles are deleted, in order and no more than needed, until usage fits or none is left; nothing else leaves |
| LruCache.LruCache.Erase | teamhungary/Pods/leveldb-library/util/cache.cc:318-321 | The handle with this key leaves the cache; it is deleted exactly if no client holds it, and the references of clients stay |
| LruCache.LruCache.Prune | teamhungary/Pods/leveldb-library/util/cache.cc:323-333 | Exactly the unreferenced handles leave, and are deleted oldest first |
| Coding.GetVarint32 | teamhungary/Pods/leveldb-library/util/coding.cc:112-140 | On any bytes the varint at the front, if one of at most five groups is there, modulo 2^32; of a 32-bit value, that value, whatever follows |
| Coding.GetVarint64 | teamhungary/Pods/leveldb-library/util/coding.cc:142-169 | On any bytes the varint at the front, if one of at most ten groups is there, modulo 2^64; of a 64-bit value, that value, whatever follows |
| Coding.GetPrefixed | teamhungary/Pods/leveldb-library/util/coding.cc:171-190 | On any bytes the string at the front, exactly when its length and that many bytes are there; one that was written, whatever follows |
| Coding.FixedRoundTrip | teamhungary/Pods/leveldb-library/util/coding.cc:9-45 | Little-endian words are read back |
| Formats.LittleEndian | teamhungary/Pods/leveldb-library/util/coding.cc:9-45 | Byte i of a fixed-width word is the i-th from the right in base 256 |
| Formats.LogRecord | teamhungary/Pods/leveldb-library/db/log_writer.cc:82-108 | The record abc at the start of a log: masked checksum of type and payload, length 3, type 1 |
| Formats.Batch | teamhungary/Pods/leveldb-library/db/write_batch.cc:5-14 | The bytes of a batch of one put and one deletion |
| Formats.LookupKey | teamhungary/Pods/leveldb-library/db/dbformat.cc:121-138 | The bytes of a lookup key: user key, then the sequence number shifted past the type |
| Formats.Edit | teamhungary/Pods/leveldb-library/db/version_edit.cc:14-85 | The bytes of one item of each tag of a manifest record |
| Formats.Block | teamhungary/Pods/leveldb-library/table/block_builder.cc:5-106 | The bytes of a block of two keys that share one byte, with its restart array |
| PbWire.OStream.Write | teamhungary/Pods/nanopb/pb_encode.c:103-132 | Writes exactly when there is room |
| PbWire.EncodeVarint | teamhungary/Pods/nanopb/pb_encode.c:608-628 | Writes the varint of the value, exactly when it fits |
| PbWire.DecodeVarint | teamhungary/Pods/nanopb/pb_decode.c:255-276 | On any bytes the varint at the front, exactly when one of at most ten groups is there; of a 64-bit value, that value |
| PbWire.DecodeVarint32 | teamhungary/Pods/nanopb/pb_decode.c:187-253 | On any bytes a varint at the front, modulo 2^32; one of at most five groups is refused exactly when its value passes 32 bits; reports the end of the stream exactly when nothing is left |
| PbWire.ZigZagRoundTrip | teamhungary/Pods/nanopb/pb_encode.c:630-639 | The zigzag form is read back for every 64-bit integer |
| PbFieldIter.FieldIter.Find | teamhungary/Pods/nanopb/pb_common.c:87-104 | Finds the field with a tag exactly when there is one, from any position; on an empty descriptor the terminator answers to tag 0 |
| PbFieldIter.FieldIter.Next | teamhungary/Pods/nanopb/pb_common.c:29-85 | The next field, wrapping round to the first |
| PbFieldIter.RequiredNumber | teamhungary/Pods/nanopb/pb_common.c:29-85 | Required fields are numbered in order |
| PbEncode.EncodeItem | teamhungary/Pods/nanopb/pb_encode.c:769-911 | One value: succeeds exactly when it can be encoded and fits, and writes its bytes |
| PbEncode.EncodeSubmessage | teamhungary/Pods/nanopb/pb_encode.c:717-765 | The sizing pass and the writing pass agree: the size, then exactly that many bytes |
| PbEncode.PackedSize | teamhungary/Pods/nanopb/pb_encode.c:147-200 | The size of a packed array is the size of what is written for it |
| PbEncode.EncodeArray | teamhungary/Pods/nanopb/pb_encode.c:147-236 | Packed and unpacked arrays: exactly when encodable and fitting, and exactly their bytes |
| PbEncode.EncodeField | teamhungary/Pods/nanopb/pb_encode.c:341-426 | A field by its rule, presence flags and defaults included: its bytes are written exactly when it is encodable and fits |
| PbEncode.Encode | teamhungary/Pods/nanopb/pb_encode.c:528-550 | A message succeeds exactly when it is encodable and fits, and its wire form is written |
| PbEncode.GetEncodedSize | teamhungary/Pods/nanopb/pb_encode.c:567-576 | Exactly the number of bytes that pb_encode writes |
| PbEncode.EncodeBuffer | teamhungary/Pods/nanopb/pb_encode.c:86-101 | Encoding into a buffer succeeds exactly when the buffer is large enough |
| PbSent.ItemSkippable | teamhungary/Pods/nanopb/pb_encode.c:669-709 | The payload of every value is one of the wire type on its tag: a varint, eight bytes, a length and that many bytes, or four bytes |
| PbSent.WireIsRecs | teamhungary/Pods/nanopb/pb_encode.c:341-426 | The bytes of a message are those of its records in the order of the fields, also for a reader who knows only some of the fields |
| PbSent.RecordsSent | teamhungary/Pods/nanopb/pb_encode.c:240-426 | A field has a record exactly when it has an item, except a proto3 field at its default; a packed array and a field that is no array have one only |
| PbSent.ReadsBack | teamhungary/Pods/nanopb/pb_encode.c:769-911 | What is written for a value is read as that value exactly when it fits the member it is read into |
| Formats.Guide | teamhungary/Pods/nanopb/pb_encode.c:669-715 | The bytes of the encoding guide for 150 in field 1, testing in field 2 and a submessage in field 3 |
| Formats.GuideWords | teamhungary/Pods/nanopb/pb_encode.c:641-707 | The bytes of a fixed32 and of a fixed64 field, wire types 5 and 1 |
| Formats.GuideNumbers | teamhungary/Pods/nanopb/pb_encode.c:630-707 | The bytes of a zigzag number, of a boolean and of a tag above 15 |
| Formats.GuidePacked | teamhungary/Pods/nanopb/pb_encode.c:147-200 | The bytes of the guide for the packed array 3, 270, 86942 |
| PbDecode.DecodeSlot | teamhungary/Pods/nanopb/pb_decode.c:406-483 | One record goes into what the field holds, and a value that does not fit its member fails; an unpacked record of a full repeated field fails and leaves a count one past the buffer, and nothing else does |
| PbDecode.DecodePacked | teamhungary/Pods/nanopb/pb_decode.c:423-452 | A packed array is appended exactly when all its items fit their member and there is room for them, and no array overflows |
| PbDecode.DecodeInteger | teamhungary/Pods/nanopb/pb_decode.c:1345-1440 | On any bytes: the value of the varint there, exactly when it fits the member |
| PbRecords.ReadsExactly | teamhungary/Pods/nanopb/pb_decode.c:1345-1440 | An integer is read from a varint exactly when it is in the range of its member and the groups stand for it: as they are, in zigzag form, or in two-complement form of 64 bits or, for members below eight bytes, 32 |
| PbDecode.SkipField | teamhungary/Pods/nanopb/pb_decode.c:278-334 | Takes exactly a varint, eight bytes, a length and that many bytes, or four bytes, by the wire type, and succeeds when they are there |
| PbDecode.DecodeNoinit | teamhungary/Pods/nanopb/pb_decode.c:934-1082 | Of records of known and unknown fields in any order it succeeds exactly when each can be taken in turn, fixed-count arrays are complete and required fields have come; on any bytes nothing is written past a buffer; a success leaves every count in range, and a failure does too unless it met a record too many of a full repeated field |
| PbDecode.DecodeRecords | teamhungary/Pods/nanopb/pb_decode.c:934-1096 | Of records with no submessage sent twice, no two members of a oneof and no fixed-count array torn apart, in any order, with repeated ones, packed or not, and unknown ones among them: pb_decode succeeds exactly when they deliver a message, and gives it; input that ends in something that is no record fails |
| PbLaws.TakenIsDelivered | teamhungary/Pods/nanopb/pb_decode.c:934-1082 | Taking such records one by one gives the one message they deliver: of an array all items in order, of any other field the last value, the default where there is none; and there is one only if every value fits and every count and required field is right |
| PbLaws.UnknownInserted | teamhungary/Pods/nanopb/pb_decode.c:991-995 | A record of an unknown field, put in anywhere, changes nothing of what is delivered |
| PbLaws.PackedOrNot | teamhungary/Pods/nanopb/pb_decode.c:423-464 | A packed record delivers what its items sent one by one deliver |
| PbLaws.LastCounts | teamhungary/Pods/nanopb/pb_decode.c:416-421 | Of two records of a field that is no array the first one says nothing, but must fit |
| PbDecode.CutIsStuck | teamhungary/Pods/nanopb/pb_decode.c:102-137 | Input that ends inside a record begins with no record there |
| PbDecode.OverfullArray | teamhungary/Pods/nanopb/pb_decode.c:454-464 | Two records of an array of one make pb_decode fail and leave a count of two |
| PbDecode.Decode | teamhungary/Pods/nanopb/pb_decode.c:1084-1096 | On any bytes nothing is written past a buffer, and counts are in range unless the decode failed on a record too many; the wire form of a message is decoded exactly when every string, with its terminator, and every array fits its buffer, and then to that message; with part of a record after it the decode fails |
| PbDecode.DecodeUnder | teamhungary/Pods/nanopb/pb_decode.c:959-995 | A reader that knows only some of the fields decodes the wire form of a message exactly when those fields fit, and to exactly those |
| PbFits.MessageFits | teamhungary/Pods/nanopb/pb_decode.c:1487-1523 | The records of a message deliver something only if every field of it fits |
| PbStructure.DefaultIsDefault | teamhungary/Pods/nanopb/pb_encode.c:240-336 | A payload the encoder skips as default is the default the decoder starts from |
| PbDecode.RoundTrip | teamhungary/Pods/nanopb/pb_encode.c:528-576 | pb_get_encoded_size, pb_encode and pb_decode agree on every message that fits its buffers |
| PbStructure.RestorableEncodable | teamhungary/Pods/nanopb/pb_decode.c:1487-1523 | What can be restored can be encoded |
| PbDecode.UnterminatedString | teamhungary/Pods/nanopb/pb_decode.c:1487-1523 | A string that fills its buffer without a terminator is encoded but not decoded back |

## Left out

- I/O errors and statuses: apart from the outcomes of a group write, files and directories work.
- Runs.HeldSnapshotStability: for runs in which no compaction resurrects the key, because Runs.SnapshotStability shows that no other run keeps its reads.
- WritePath.ReadYourWrites: for histories without a failed log append, which uses up sequence numbers that the store's state machine does not skip, and until a failed sync.
- Power loss: only what was appended and survives a process crash is recovered; the old log is not synced on rotation.
- CompactMemTable inside a running compaction: flush and compaction are separate atomic steps.
- When work happens: compaction scores, seek statistics, write delays and output sizes are parameters, as they decide no answer.
- ShouldStopBefore: where outputs are cut is a parameter of the compaction loop.
- The corrupt-key branch of the compaction loop and of DBIter: stored keys always parse.
- Integer overflow of the middle index in FindFile, and of file and sequence numbers: both are unbounded, sequence numbers below 2^56.
- LevelFileNumIterator: the handle of a file is its number as a varint, not two fixed 64-bit words, since file numbers are unbounded here.
- User keys of the store are real numbers; Keys.RankOrder embeds byte strings in them and DecodedTable joins the two.
- GroupCommit.WriteQueue.Commit: a record half written by a failed append is not modelled, since the log then holds no record of the group.
- GroupCommit.WriteQueue.Lead: a follower without a batch rides in a group with no rotation of its own, as in the code.
- reuse_logs and a non-zero initial_offset of the log reader.
- The checksum is a parameter; only its masking is modelled. So is the hash of filters and of the cache.
- LogBatches.ReadBatches: without paranoid_checks, under which recovery stops at the first damaged record.
- Snappy, the footer, the metaindex and Table::Open: a table is its blocks, its index and its filter.
- TableBuilding.TableBuilder.Finish: says what a reader finds when sizes fit the 32- and 64-bit fields of the format.
- DBImpl keeps its snapshots as the list of sequence numbers that a SnapshotList holds, not as the pointer ring.
- TableCache.TableIsIndexed: for index keys whose type is known, as that of every key FindShortestSeparator makes is.
- TableBuilder keeps its open blocks as entry lists and turns them into bytes by the format of BlockBuilder; ChangeOptions is not modelled.
- The block cache in Table::BlockReader, the table cache and the sharded cache.
- FilterBlock.FilterBlockBuilder.Finish: for filter blocks below 4 GB, whose offsets are 32 bits wide.
- SkipList: sequentially consistent steps, not the C++ memory model; heights are parameters.
- nanopb pointer and callback fields, extensions, pb_release and delimited messages.
- The width of nanopb's pb_size_t counts: where array_size is the largest value of the type, the count wraps to zero instead of going one past it.
- What a failed pb_decode leaves in the buffer of the string or byte array it failed on.
- FilterBlock.ReaderFinds: a base_lg byte of 64 or more, which the code shifts by, is an unbounded exponent here.
- TableReader.ReadBlock: a handle whose size plus the trailer passes 2^64 is not wrapped.
- PbDecode.DecodeRecords: a submessage sent in several parts, several members of a oneof, and a fixed-count array with another between its records are decoded as PbRecords.TakeMessage says, one record after the other; what such records deliver together is not stated.
- PbDecode.DecodeNoinit: a known field under a wire type that is not its own, which the code does not check, is read within the input, but to what is not stated; nor is whether a bool of more than five groups is taken.
- PbDecode.DecodeUnder: leaves out fields of the message, not those of submessages inside it.
- ManifestFile.Recover: for a manifest cut off anywhere, not one damaged in the middle.
- PbWire.DecodeVarint32: its eight-bit shift count, which wraps after 36 continuation bytes, is unbounded here.
- nanopb required fields beyond the bitmap (64) are not checked, as in the code; the bitmap is a set.
- RepairDB: it puts all tables at level 0 and promises no recency.
- The application's own Swift code.
