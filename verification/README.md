# Verified models of LevelDB and nanopb

This project models the storage engine and the message codec that the application ships under `DemoGame/Pods`, and proves
what they promise. One module stands for one source file or component.

**The tree and its readers** (`ByteOrder`, `DbFormat`, `Version`, `CompactionInputs`, `CompactionWork`, `CompactionReads`,
`VersionBuilder`, `Install`, `MemtableFlush`, `Database`, `ClosedInputs`, `DBImpl`, `DBScan`, `SplitKeys`). A database is a
memtable, an immutable memtable, seven levels of table files, live snapshots, and for the proof the history of all writes.
Its steps are writes, the switch of the memtable, flushes, trivial moves, compactions, and taking and releasing snapshots.
Over every run, whatever its compactions drop, the levels stay sorted, disjoint above level 0 and ordered by age. A user
key reads at a live snapshot as reading the history backwards gives, unless a compaction of the run has dropped a deletion
marker of that very key while a file left out still held an older value; a compaction changes the reads of a key if and
only if it does that. From this follow what `Get` returns after any run, and that an iterator walks, in both directions,
over exactly the keys that have a value. `SplitKeys` shows that the exception occurs.

**Iterators** (`DBIter`, `MergingIterator`, `TwoLevelIterator`). Each cursor is proved to be a position in a plain sorted
sequence, across every switch of direction. `DBIter` drives a `MergingIterator` object.

**Files** (`LogFormat`, `LogFile`, `Block`, `BloomFilter`, `FilterBlock`, `TableFormat`, `TableBuilder`, `Table`,
`TableLookup`, `KeyOrder`, `Coding`, `Crc32c`, `WriteBatch`, `VersionEdit`, `VersionSet`, `ManifestReplay`,
`ManifestOfRuns`). What is written is read back: log records after a cut at any byte, blocks, tables with and without
filters, write batches, version edits. A version set is rebuilt from its manifest, and the edits of every run of the
database meet what that needs.

**Crashes** (`LogReplay`, `FilesAlone`, `LogRecovery`, `CrashRecovery`, `UnsyncedLogs`). A run is a sequence of steps of the
writers and of the background, interrupted by any number of crashes, each of which cuts both logs anywhere behind their
synced parts. Every process in such a run starts from a store in order, what was synced or filed stays written for ever,
and the reads of a key are what the surviving writes say.

**Memory and threads** (`SkipList`, `SkipListSearch`, `Rings`, `HandleTable`, `LruCache`, `Snapshots`, `GroupCommit`). Linked
structures live in arenas, so that a pointer is an index and every single store of a pointer is a step of the model. The
skip list stays in order after each store of an insertion, and a search that runs meanwhile is right at its last read.
Group commit is a state machine over the steps of its writers, in which every writer completes exactly once.

**Messages** (`PbFormat`, `PbEncode`, `PbStream`, `PbMessage`, `PbDecode`). The descriptor-driven encoder and decoder of
nanopb for the Protocol Buffers wire format ("Encoding" guide, sections "Base 128 Varints", "Signed Integers" and
"Length-Delimited Records"). A message is a tree of values shaped by its descriptor.

User keys are byte strings in bytewise order. That order is embedded into the reals by `ByteOrder.Rank`, so that the
solver knows its laws; code compares with `Compare`. Integers are unbounded except where widths matter, and there the
widths are written out. I/O errors, clocks, random choices and sizes chosen elsewhere are parameters or are left out, as
the last section says.

## Findings

**A compaction can lose a deletion.** `AddBoundaryInputs` is applied to the inputs of the upper level only
(`version_set.cc:1403-1411`). If two files of the output level share a user key and only one of them overlaps the upper
inputs, then dropping that key's deletion marker from the input file uncovers an older value in the file left out.
`SplitKeys.StoreIsReachable` gives a run of twelve steps from the empty database to such a store, for any two keys
a < b, any values and any file sizes. The code takes these steps by itself, without a manual compaction:
`SplitKeys.FlushLevels` and `SplitKeys.ChooseFirst` show the levels it flushes to, while the files of level 2 stay below
the overlap limit, and the compaction it picks for the file of level 1; `SplitKeys.ChooseInputs` shows the fatal choice
in the end. `SplitKeys.DeletionIsLost` shows that whatever compaction of that level is picked, a reader then gets a
deleted value back. The exact condition for a key, which can be evaluated before the compaction, is
`CompactionReads.ResurrectsKey`: reads of the key from the smallest snapshot on survive a compaction if and only if it
does not hold (`CompactionReads.CompactionKeepsReadsOf`, `Database.CompactReadsOf`). The order of the tree survives in
any case (`Database.RunKeepsOrder`), and so do the reads of all other keys; a later write of the key mends it
(`Database.WrittenKeyIsFaithful`). A condition on the chosen files alone that rules the loss out for all keys is
`ClosedInputs.ParentClosed`: no input of the output level shares a user key with a file left out.

**A synced write can survive a write that came before it and was lost.** A write with `sync` set is compared to `write()`
followed by `fsync()` (`options.h:173-181`), which would carry earlier writes to the same file to the disk as well. But the
switch to a new log does not sync the old one (`db_impl.cc:1356-1361`). `UnsyncedLogs.LaterWriteIsKept` is a run of twelve
steps in which an unsynced write completes, the memtable is switched, a synced write completes, and a crash then keeps the
second and loses the first. `CrashRecovery.LostInTheMiddle` gives the exact condition: what a crash leaves is a beginning
of what was written if and only if it kept the older log whole or no write of the newer one. Every completed synced write
survives in any case.

**The room check of `DecodeEntry` adds two lengths in 32 bits** (`block.cc:70`). On a corrupt block the sum can wrap and
the check then passes without room, the smallest example being lengths 0xffffffff and 1 with no room at all.
`Block.RoomCheckWraps` gives the exact condition: the check is right if and only if the sum does not wrap into the room.

**`pb_decode_varint32_eof` takes some numbers that do not fit and cuts them.** The upper bits of the fifth byte are checked
only if that byte is the last one (`pb_decode.c:233-237`). `PbStream.WideNumberIsCut` shows 2^32 refused in five bytes and
taken as 0 in six. `PbStream.IStream.DecodeVarint32` states exactly which varints are accepted.

## Model

| member | source | states |
|---|---|---|
| `DbFormat.LookupFindsNewest` | DemoGame/Pods/leveldb-library/db/memtable.cc:100-134 | seeking a key at a sequence number in a sorted run and checking the user key finds the newest entry not after that number, or that there is none |
| `Version.FindFile` | DemoGame/Pods/leveldb-library/db/version_set.cc:88-106 | the binary search returns the smallest index of a file whose largest key is not before the key |
| `Version.OneFileAnswersLevel` | DemoGame/Pods/leveldb-library/db/version_set.cc:352-372 | in a disjoint level the one file that the binary search selects answers for the whole level, even when a user key spans several files |
| `Version.Get` | DemoGame/Pods/leveldb-library/db/version_set.cc:326-421 | the search level by level that stops at the first file that knows the key returns the newest entry not after the snapshot in the whole version |
| `DBImplementation.DBImpl.Get` | DemoGame/Pods/leveldb-library/db/db_impl.cc:1100-1145 | memtable, then immutable memtable, then tree: in every state in order the value returned at a live snapshot or at the present is that of the newest entry of the store, and for a key whose reads are right it is what the history of writes, read backwards, says |
| `DBImplementation.GetAfterRun` | DemoGame/Pods/leveldb-library/db/db_impl.cc:1100-1145 | after every run, Get returns the value of the newest entry, and for a key whose deletion no compaction of the run has lost this is the newest write not after the snapshot, computed from the actions of the run alone, deletions reading as nothing |
| `Database.RunKeepsOrder` | DemoGame/Pods/leveldb-library/db/db_impl.cc:878-963 | over every run of writes, memtable switches, flushes, trivial moves, snapshot changes and compactions, whatever these drop: levels sorted and disjoint, newer above older, numbers and history in order |
| `Database.StepKeepsOrder` | DemoGame/Pods/leveldb-library/db/db_impl.cc:688-767 | each single step keeps the order, also a compaction that loses a deletion |
| `Database.StepKeepsReads` | DemoGame/Pods/leveldb-library/db/db_impl.cc:688-767 | a step keeps the reads of a key, from any sequence number on, unless it is a compaction that loses a deletion of that key |
| `Database.RunKeepsReads` | DemoGame/Pods/leveldb-library/db/db_impl.cc:878-963 | over every run, reads of a key that are right stay right as long as no compaction loses a deletion of that key |
| `Database.WrittenKeyIsFaithful` | DemoGame/Pods/leveldb-library/db/write_batch.cc:116-137 | from its own sequence number on, a write is read as written until a later compaction loses a deletion of its key, whatever was wrong with the key before |
| `Database.RunKeepsInv` | DemoGame/Pods/leveldb-library/db/db_impl.cc:878-963 | every run none of whose compactions loses a deletion keeps the whole invariant: sorted and disjoint levels, newer above older, all reads as the history says |
| `Database.StepKeepsInv` | DemoGame/Pods/leveldb-library/db/db_impl.cc:688-767 | each single step that loses no deletion keeps the whole invariant |
| `Database.EveryReadIsRight` | DemoGame/Pods/leveldb-library/db/db_impl.cc:1100-1145 | in every state of every run, for a key whose deletion no compaction has lost, whatever entry is newest at a live snapshot or at the present reads as the history says |
| `ClosedInputs.ClosedRunKeepsInv` | DemoGame/Pods/leveldb-library/db/db_impl.cc:878-963 | the invariant with all reads over runs whose compactions satisfy a condition on the chosen files only: no user key is split between an input and a file left out of the output level |
| `ClosedInputs.ClosedInputsKeepReads` | DemoGame/Pods/leveldb-library/db/version_set.cc:1403-1462 | inputs that split no user key never bring a deleted key back |
| `ClosedInputs.HistoryIsWrites` | DemoGame/Pods/leveldb-library/db/write_batch.cc:116-137 | over every run the history is the list of operations of the write actions, numbered consecutively from 1, and the last sequence number is their count |
| `Database.WriteAllKeepsOrder` | DemoGame/Pods/leveldb-library/db/write_batch.cc:116-137 | writing a batch at consecutive sequence numbers keeps the order and moves the last sequence number by its length |
| `Database.WriteAllIsRead` | DemoGame/Pods/leveldb-library/db/write_batch.cc:116-137 | after a batch, reads of each of its keys are right from the sequence number of its operation on |
| `Database.WriteAllKeepsReads` | DemoGame/Pods/leveldb-library/db/write_batch.cc:116-137 | a batch keeps right reads of every key right |
| `MemtableFlush.SomeFileOverlapsRange` | DemoGame/Pods/leveldb-library/db/version_set.cc:122-154 | the linear or binary search answers exactly whether a file of the level meets the user key range |
| `MemtableFlush.PickLevelForMemTableOutput` | DemoGame/Pods/leveldb-library/db/version_set.cc:491-516 | the level is at most 2, no file of it or above it meets the range unless the level is 0, and it is the deepest one that the overlap rules allow |
| `Install.FlushIsValid` | DemoGame/Pods/leveldb-library/db/db_impl.cc:491-533 | adding the flushed file to the picked level keeps the version valid, numbers unique, and the entries those of the version and the file |
| `DBImplementation.DBImpl.CompactMemTable` | DemoGame/Pods/leveldb-library/db/db_impl.cc:535-566 | a flush is the Flush step of the state machine, keeps the order and all right reads, and empties the immutable memtable |
| `CompactionInputs.GetOverlappingInputs` | DemoGame/Pods/leveldb-library/db/version_set.cc:519-559 | at level 0 the result is exactly the files that meet the least range around the given one that is closed under overlap, at other levels exactly the files that meet the range; the restart loop terminates |
| `CompactionInputs.GrowRange` | DemoGame/Pods/leveldb-library/db/version_set.cc:538-556 | each restart takes in an end of the file that sticks out and stays within every closed range around the given one |
| `CompactionInputs.FindLargestKey` | DemoGame/Pods/leveldb-library/db/version_set.cc:1326-1342 | the result is the largest key of the files, None for no files |
| `CompactionInputs.FindSmallestBoundaryFile` | DemoGame/Pods/leveldb-library/db/version_set.cc:1344-1361 | of the files that continue the user key of the given key, the result is the one that starts first, if there is any |
| `CompactionInputs.AddBoundaryInputs` | DemoGame/Pods/leveldb-library/db/version_set.cc:1378-1401 | the result is the files given followed by the boundary files one after the other, each continuing the user key of the largest before it, until no file of the level does; there is only one such list, and the loop terminates |
| `CompactionInputs.SetupOtherInputs` | DemoGame/Pods/leveldb-library/db/version_set.cc:1403-1462 | the choice is the one the rules determine: boundary files, overlapping files of the next level, the larger inputs exactly when they keep the number of lower files and stay below the size limit, and the grandparents of the whole range; what stays behind in the upper level is newer than what moves |
| `CompactionInputs.PickCompaction` | DemoGame/Pods/leveldb-library/db/version_set.cc:1270-1324 | the compaction for a file is the one that the rules determine from the file, or from all level-0 files that go with it, and it is valid |
| `CompactionInputs.CompactRange` | DemoGame/Pods/leveldb-library/db/version_set.cc:1464-1507 | a manual compaction starts from the overlapping files, above level 0 up to the first with which they reach one file size, and is the one the rules determine; there is none only when no file of the level meets the range |
| `CompactionWork.MergeFilesIsSorted` | DemoGame/Pods/leveldb-library/db/version_set.cc:1237-1268 | merging the input files gives a sorted run of exactly their entries |
| `CompactionWork.DropRule.IsBaseLevelForKey` | DemoGame/Pods/leveldb-library/db/version_set.cc:1533-1552 | asked for ascending keys with pointers that only move on, the answer is exactly whether no deeper level can hold the key |
| `CompactionWork.DropRule.ShouldDrop` | DemoGame/Pods/leveldb-library/db/db_impl.cc:919-963 | an entry is dropped exactly when a newer version of its key is visible to every snapshot, or when it is a deletion marker that every snapshot sees and below which nothing can lie |
| `CompactionWork.DoCompactionWork` | DemoGame/Pods/leveldb-library/db/db_impl.cc:878-1033 | the output files, one after the other, hold exactly the entries that the drop rule keeps, wherever the files are cut, and are described and numbered correctly |
| `CompactionWork.CutIsDisjoint` | DemoGame/Pods/leveldb-library/db/db_impl.cc:965-1010 | cutting a sorted run anywhere gives valid files in order without overlap |
| `CompactionReads.CompactionKeepsReads` | DemoGame/Pods/leveldb-library/db/db_impl.cc:890-963 | all reads from the smallest snapshot on survive the drop rule if and only if no dropped marker leaves an older value beside it |
| `CompactionReads.CompactionKeepsReadsOf` | DemoGame/Pods/leveldb-library/db/db_impl.cc:890-963 | the same key by key: the reads of one key survive if and only if no dropped marker of that key leaves an older value of it beside |
| `CompactionReads.ResurrectedRead` | DemoGame/Pods/leveldb-library/db/db_impl.cc:935-950 | where the rule drops a marker over a left-out value, a reader that saw nothing before finds that value afterwards |
| `Database.ReadsAcrossCompaction` | DemoGame/Pods/leveldb-library/db/db_impl.cc:860-876 | installing the outputs changes no read from the smallest snapshot on if and only if no deleted key comes back |
| `Database.CompactReadsOf` | DemoGame/Pods/leveldb-library/db/db_impl.cc:860-876 | after a compaction a key that read right from the smallest snapshot on reads right if and only if its deletion was not lost |
| `Install.EditIsValid` | DemoGame/Pods/leveldb-library/db/version_set.cc:695-754 | an edit whose level sets are good and keep the order between levels yields a valid version |
| `Install.PushIsValid` | DemoGame/Pods/leveldb-library/db/db_impl.cc:860-876 | replacing the inputs by files with entries of the inputs one level down keeps every level sorted and disjoint and newer entries above older ones |
| `DBImplementation.DBImpl.BackgroundCompaction` | DemoGame/Pods/leveldb-library/db/db_impl.cc:688-767 | the compaction picked for a file is a trivial move step or a compaction step; it keeps the order, and the reads of a key stay right if and only if its deletion is not lost |
| `DBImplementation.CompactionOutcome` | DemoGame/Pods/leveldb-library/db/db_impl.cc:860-876 | from every state in order a compaction leads to a state in order, and a key reads right afterwards exactly when its deletion is not lost |
| `DBImplementation.ClosedCompactionKeepsInv` | DemoGame/Pods/leveldb-library/db/db_impl.cc:860-876 | a compaction whose inputs split no user key keeps the whole invariant |
| `SplitKeys.StoreIsReachable` | DemoGame/Pods/leveldb-library/db/version_set.cc:1378-1411 | for any keys a < b, any values and any file sizes a run of twelve enabled steps from the empty database, none splitting a user key, ends in a store whose two lower files share b |
| `SplitKeys.FlushLevels` | DemoGame/Pods/leveldb-library/db/version_set.cc:491-516 | the three flushes of that run go to the levels that the code picks, while the files of level 2 stay below the overlap limit |
| `SplitKeys.ChooseFirst` | DemoGame/Pods/leveldb-library/db/version_set.cc:1270-1324 | its compaction is the one that PickCompaction chooses for the file of level 1, with both levels among its inputs, so no trivial move |
| `SplitKeys.ChooseInputs` | DemoGame/Pods/leveldb-library/db/version_set.cc:1403-1462 | PickCompaction on that store returns the upper file and only one of the two lower files |
| `SplitKeys.DeletionIsLost` | DemoGame/Pods/leveldb-library/db/version_set.cc:1407-1411 | after any valid compaction of that level with any outputs, the deleted key b reads as its old value although the history says it is deleted |
| `SplitKeys.LossEndsARun` | DemoGame/Pods/leveldb-library/db/version_set.cc:1407-1411 | with that compaction the run is a run from the empty database that ends in order and with a key that reads wrong |
| `DBIteration.ShowsNewest` | DemoGame/Pods/leveldb-library/db/db_iter.cc:168-198 | the entries that the iterator shows are those that are newest for their key at its sequence number and are not deletions |
| `DBIteration.DBIter.FindNextUserEntry` | DemoGame/Pods/leveldb-library/db/db_iter.cc:168-198 | skipping hidden versions and deletions ends at the first entry to be shown past the key to skip, or at the end |
| `DBIteration.DBIter.Next` | DemoGame/Pods/leveldb-library/db/db_iter.cc:141-166 | from either direction the iterator moves to the next shown entry |
| `DBIteration.DBIter.Prev` | DemoGame/Pods/leveldb-library/db/db_iter.cc:200-225 | from either direction the iterator moves to the previous shown entry |
| `DBIteration.DBIter.Seek` | DemoGame/Pods/leveldb-library/db/db_iter.cc:269-281 | the iterator moves to the first shown entry whose key is not before the target |
| `DBIteration.DBIter.SeekToFirst` | DemoGame/Pods/leveldb-library/db/db_iter.cc:283-292 | the iterator moves to the first shown entry |
| `DBIteration.DBIter.SeekToLast` | DemoGame/Pods/leveldb-library/db/db_iter.cc:294-299 | the iterator moves to the last shown entry |
| `MergingIteration.MergingIterator.Next` | DemoGame/Pods/leveldb-library/table/merger.cc:55-79 | from either direction the cursor over the sorted merge moves one place on, and every other child is put at its first entry behind it |
| `MergingIteration.MergingIterator.Prev` | DemoGame/Pods/leveldb-library/table/merger.cc:81-108 | from either direction the cursor over the sorted merge moves one place back |
| `MergingIteration.MergingIterator.Seek` | DemoGame/Pods/leveldb-library/table/merger.cc:47-53 | the cursor is at the first entry of the merge that is not before the target |
| `MergingIteration.MergingIterator.FindSmallest` | DemoGame/Pods/leveldb-library/table/merger.cc:148-161 | the current child is one with the smallest key of all valid children |
| `DatabaseIteration.StoreRunsAreGood` | DemoGame/Pods/leveldb-library/db/version_set.cc:230-246 | memtables, level-0 files and the concatenated other levels are sorted runs that share no entry and hold all entries of the store |
| `DatabaseIteration.NewInternalIterator` | DemoGame/Pods/leveldb-library/db/db_impl.cc:1062-1087 | the merging iterator over these runs is a cursor over exactly the entries of the store |
| `DatabaseIteration.ShownIsLog` | DemoGame/Pods/leveldb-library/db/db_iter.cc:34-39 | a key and a value are shown if and only if the newest entry at the sequence number has that value, and for a key whose reads are right if and only if the history of writes gives it |
| `DatabaseIteration.ScanAfterRun` | DemoGame/Pods/leveldb-library/db/db_impl.cc:1147-1157 | after every run, walking an iterator at a live snapshot, forward or backward, gives exactly the keys whose newest entry is a value, ascending; a key whose deletion no compaction has lost is shown with the value that the write actions give, and not at all if they give none |
| `TwoLevelIteration.TwoLevelIterator.Seek` | DemoGame/Pods/leveldb-library/table/two_level_iterator.cc:82-87 | seeking through index and data block is seeking in the flat list of entries |
| `TwoLevelIteration.TwoLevelIterator.Next` | DemoGame/Pods/leveldb-library/table/two_level_iterator.cc:103-107 | the cursor moves one entry on in the flat list, across blocks |
| `TwoLevelIteration.TwoLevelIterator.Prev` | DemoGame/Pods/leveldb-library/table/two_level_iterator.cc:109-113 | the cursor moves one entry back in the flat list, across blocks |
| `Crc32c.Extend` | DemoGame/Pods/leveldb-library/util/crc32c.cc:276-377 | for every lawful way to advance by zero bytes, the four interleaved strides with their rotation and final combination give the CRC taken byte by byte |
| `Crc32c.Crc32cExtend` | DemoGame/Pods/leveldb-library/util/crc32c.cc:276-377 | for every length, alignment and start value the result is the CRC-32C computed bit by bit with the reflected polynomial 0x82f63b78, as section 12.1 of RFC 3720 defines it |
| `Crc32c.CrcAppends` | DemoGame/Pods/leveldb-library/util/crc32c.cc:276-287 | extending the CRC of a string by another string gives the CRC of both |
| `Crc32c.StrideStep` | DemoGame/Pods/leveldb-library/util/crc32c.cc:302-345 | advancing the oldest partial result by a stride and making it the newest takes in one word |
| `LogFormat.PrefixReadsWholeRecords` | DemoGame/Pods/leveldb-library/db/log_reader.cc:56-174 | reading any prefix of a log gives exactly the records wholly inside it, and nothing is reported |
| `LogFile.Writer.AddRecord` | DemoGame/Pods/leveldb-library/db/log_writer.cc:34-80 | a record is appended as fragments that fit the blocks, the trailer of a block filled with zeros |
| `LogFile.Writer.Reopen` | DemoGame/Pods/leveldb-library/db/log_writer.cc:28-32 | a writer opened at the length of a log appends as if it had never been closed |
| `LogFile.Reader.ReadRecord` | DemoGame/Pods/leveldb-library/db/log_reader.cc:56-174 | on any file the reader with its buffer does what the specification of logical records says, and reports the same drops |
| `LogFile.Reader.ReadPhysicalRecord` | DemoGame/Pods/leveldb-library/db/log_reader.cc:189-271 | one physical record, or end of file, or a bad record, exactly as the file bytes at the position say |
| `LogFile.CrashAndRecover` | DemoGame/Pods/leveldb-library/db/log_reader.cc:56-174 | records written, the file cut at any byte, and read again: the records wholly inside come back |
| `LogFile.UnmaskMask` | DemoGame/Pods/leveldb-library/util/crc32c.h:29-40 | unmasking undoes masking |
| `Block.EntryReadsBack` | DemoGame/Pods/leveldb-library/table/block.cc:54-74 | an entry as written is decoded to its shared length, its key delta and its value |
| `Block.DecodeEntryFast` | DemoGame/Pods/leveldb-library/table/block.cc:54-74 | the fast path for one-byte lengths reads the same as three varints |
| `Block.RoomCheckWraps` | DemoGame/Pods/leveldb-library/table/block.cc:70-72 | the 32-bit room check agrees with the unbounded one exactly when the sum of the lengths does not wrap into the room, with a smallest failing example |
| `Block.BlockBuilder.Add` | DemoGame/Pods/leveldb-library/table/block_builder.cc:72-106 | an entry is appended with the prefix it shares with the one before, or whole at a restart point, and the layout stays readable |
| `Block.BlockBuilder.Finish` | DemoGame/Pods/leveldb-library/table/block_builder.cc:62-70 | the finished block holds the entries, the restart points and their number |
| `Block.Iter.Seek` | DemoGame/Pods/leveldb-library/table/block.cc:163-201 | binary search over restart points and a scan end at the first entry that is not before the target |
| `Block.Iter.Prev` | DemoGame/Pods/leveldb-library/table/block.cc:142-161 | the cursor steps back by exactly one entry |
| `Block.Iter.Next` | DemoGame/Pods/leveldb-library/table/block.cc:137-140 | the cursor steps on by exactly one entry |
| `Block.BuildAndScan` | DemoGame/Pods/leveldb-library/table/block.cc:203-206 | reading a built block from the front gives back exactly the entries that went in, for every restart interval |
| `KeyOrder.BytewiseSuits` | DemoGame/Pods/leveldb-library/util/comparator.cc:21-64 | bytewise separators and successors lie where an index needs them and are not longer than the key |
| `KeyOrder.InternalSuits` | DemoGame/Pods/leveldb-library/db/dbformat.cc:51-101 | shortened internal keys stay at or after the last key of a block and before the first of the next, and no user key is torn away from its entries |
| `TableBuilding.TableBuilder.Add` | DemoGame/Pods/leveldb-library/table/table_builder.cc:94-123 | the table so far plus one entry; the pending index entry of the block before gets a key that separates the two blocks |
| `TableBuilding.TableBuilder.Finish` | DemoGame/Pods/leveldb-library/table/table_builder.cc:198-253 | the file is a table: data blocks, filter, metaindex, index and footer, each found where its handle says; and it succeeds whenever the keys and values added fit the capacity with a stated overhead |
| `Tables.Table.Open` | DemoGame/Pods/leveldb-library/table/table.cc:38-82 | a file that a builder finished opens, with its filter if and only if the policy it is opened with is the one it was written with |
| `Tables.Table.InternalGet` | DemoGame/Pods/leveldb-library/table/table.cc:216-244 | what is found through index, filter and block is the first entry from the key on, whenever that entry has the user key asked for |
| `Tables.FilterAnswers` | DemoGame/Pods/leveldb-library/table/table.cc:224-229 | a block that the filter rules out holds no entry of the user key |
| `TableLookup.BuildAndGet` | DemoGame/Pods/leveldb-library/table/table.cc:216-244 | building a table and looking up a key at a sequence number gives the newest entry not after it; it succeeds whenever the capacity suffices for the entries |
| `TableLookup.BuildAndScan` | DemoGame/Pods/leveldb-library/table/two_level_iterator.cc:82-161 | building a table and walking over it gives back exactly the entries that went in; it succeeds whenever the capacity suffices for the entries |
| `TableFormat.FooterReadsBack` | DemoGame/Pods/leveldb-library/table/format.cc:31-62 | a footer is decoded to the handles it was made of |
| `BloomFilter.KeysMatch` | DemoGame/Pods/leveldb-library/util/bloom.cc:28-80 | a filter matches every key it was made from, for every hash function |
| `BloomFilter.CreateFilter` | DemoGame/Pods/leveldb-library/util/bloom.cc:28-54 | the two loops append the specified filter to the string |
| `FilterBlock.FilterBlockBuilder.Finish` | DemoGame/Pods/leveldb-library/table/filter_block.cc:21-104 | every key is found again at every offset of the slot in which it was added, for every run of StartBlock and AddKey, with empty filters and blocks that share a slot |
| `WriteBatches.BatchReadsBack` | DemoGame/Pods/leveldb-library/db/write_batch.cc:42-80 | an encoded batch is read back: sequence number, count and operations |
| `WriteBatches.WriteBatch.Append` | DemoGame/Pods/leveldb-library/db/write_batch.cc:144-148 | appending a batch appends its operations and adds the counts |
| `WriteBatches.InsertInto` | DemoGame/Pods/leveldb-library/db/write_batch.cc:116-137 | the operations of a record enter the memtable at consecutive sequence numbers, up to the first error |
| `LogRecovery.RecoverLogFile` | DemoGame/Pods/leveldb-library/db/db_impl.cc:371-489 | replaying the records that group commit wrote gives the memtables, written out whenever one is full and once more at the end, and the largest sequence number; without paranoid checks broken records are skipped |
| `LogRecovery.CrashAndRecover` | DemoGame/Pods/leveldb-library/db/db_impl.cc:404-452 | a log cut at any byte behind its synced part gives the tables of exactly the groups whose records are whole, in commit order, the synced ones among them |
| `LogRecovery.SyncedRecordsSurvive` | DemoGame/Pods/leveldb-library/db/db_impl.cc:1222-1226 | whatever a crash leaves of the current log beyond the synced part, every settled record with a sync writer is in it |
| `LogRecovery.SyncedAreWhole` | DemoGame/Pods/leveldb-library/db/log_reader.cc:56-174 | records that were synced are whole in every file that is at least as long as the log was then |
| `LogRecovery.EditIsTables` | DemoGame/Pods/leveldb-library/db/db_impl.cc:491-533 | one edit with all tables of recovery makes the version that one edit for each of them makes |
| `LogReplay.ReplayGrows` | DemoGame/Pods/leveldb-library/db/db_impl.cc:404-452 | replaying a log on a store in order adds exactly the writes of the log, in order and at their numbers, keeps the order and all right reads |
| `LogReplay.TablesHoldLog` | DemoGame/Pods/leveldb-library/db/db_impl.cc:435-483 | wherever full memtables are written out, the tables together hold exactly what the log holds |
| `LogReplay.ReplayLogMatches` | DemoGame/Pods/leveldb-library/db/db_impl.cc:371-489 | the tables that recovery writes do to the version what replaying the log on the database does |
| `FilesAlone.StepKeepsFiles` | DemoGame/Pods/leveldb-library/db/db_impl.cc:535-566 | in every step of the writers and the background the table files hold a beginning of the history, and the logs of both memtables the rest |
| `FilesAlone.StepKeepsFileReads` | DemoGame/Pods/leveldb-library/db/db_impl.cc:878-963 | reads of the files alone, as a crash would find them, stay right unless a compaction loses the deletion of the key |
| `CrashRecovery.ReopenedIsRight` | DemoGame/Pods/leveldb-library/db/db_impl.cc:280-369 | after a crash at any state, with both logs cut anywhere behind their synced parts, recovery gives a store in order with exactly the entries of the files and of the records left, whose history is the filed one and those records, and whose reads are right for every key whose reads of the files were right |
| `CrashRecovery.LastingSurvives` | DemoGame/Pods/leveldb-library/db/db_impl.cc:1222-1226 | what is in a file, or in the record of a completed group with a sync writer in either log, is in the history after every possible crash |
| `CrashRecovery.SyncGroupLasts` | DemoGame/Pods/leveldb-library/db/db_impl.cc:1222-1250 | when a group with a sync writer completes, all its writes last |
| `CrashRecovery.CrashRunKeepsOrder` | DemoGame/Pods/leveldb-library/db/db_impl.cc:1474-1512 | over every run with any number of crashes and re-openings the store, its logs and its files stay in order |
| `CrashRecovery.LastingForever` | DemoGame/Pods/leveldb-library/db/db_impl.cc:1222-1226 | what lasts once is in the history of every later state, across any number of crashes |
| `CrashRecovery.CrashRunKeepsReads` | DemoGame/Pods/leveldb-library/db/db_impl.cc:280-369 | over every such run a key reads as its surviving writes say, unless a compaction lost its deletion, in the store or as far as the files go |
| `CrashRecovery.ClosedCrashRunKeepsAll` | DemoGame/Pods/leveldb-library/db/version_set.cc:1403-1462 | compactions that split no user key lose no deletion in such runs |
| `CrashRecovery.GetAfterCrashes` | DemoGame/Pods/leveldb-library/db/db_impl.cc:1100-1145 | Get after such a run returns the newest surviving write not after the snapshot |
| `CrashRecovery.LostInTheMiddle` | DemoGame/Pods/leveldb-library/db/db_impl.cc:1356-1361 | what a crash leaves is a beginning of all writes if and only if the older log was kept whole or no write of the newer one was kept |
| `CrashRecovery.WholeLogsLoseNothing` | DemoGame/Pods/leveldb-library/include/leveldb/options.h:173-176 | if only the process crashes, no write is lost |
| `CrashRecovery.RecoverLogs` | DemoGame/Pods/leveldb-library/db/db_impl.cc:280-369 | from the bytes left of both log files the method finds the tables and the largest sequence number of a possible crash, with exactly the whole records kept |
| `CrashRecovery.Reopen` | DemoGame/Pods/leveldb-library/db/db_impl.cc:1474-1512 | opening the database on the bytes left of its logs and its version gives a database object whose state is the one of the theorems above |
| `UnsyncedLogs.LaterWriteIsKept` | DemoGame/Pods/leveldb-library/include/leveldb/options.h:173-181 | a run of twelve steps, for any two writes, after which a crash keeps the synced later write and loses the earlier one |
| `GroupCommit.GroupIsRight` | DemoGame/Pods/leveldb-library/db/db_impl.cc:1260-1306 | a group never takes a sync writer under a leader that does not sync, respects the size limit, and stops only where the next writer may not join |
| `GroupCommit.BuildBatchGroup` | DemoGame/Pods/leveldb-library/db/db_impl.cc:1260-1306 | the batches of the group are joined in queue order, in the first batch or in the temporary one |
| `GroupCommit.CommitRunKeepsInv` | DemoGame/Pods/leveldb-library/db/db_impl.cc:1185-1258 | every interleaving of arriving writers, the steps of the leader and background work, whatever its compactions drop, keeps the commit invariant |
| `GroupCommit.GroupsWriteLikeSingles` | DemoGame/Pods/leveldb-library/db/db_impl.cc:1185-1258 | what completed groups have written is what their batches write one by one in the order of the queue at consecutive sequence numbers |
| `GroupCommit.WritersCompleteInOrder` | DemoGame/Pods/leveldb-library/db/db_impl.cc:1237-1250 | writers complete at most once each, in the order in which they came |
| `GroupCommit.LeaderGoesOn` | DemoGame/Pods/leveldb-library/db/db_impl.cc:1185-1258 | wherever writers wait and sequence numbers are left, exactly one step of the writer in front can be taken |
| `GroupCommit.LeaderComesNearer` | DemoGame/Pods/leveldb-library/db/db_impl.cc:1185-1258 | each such step brings the writer in front nearer to its completion, and the last one completes it; nothing else takes it further away |
| `GroupCommit.AllWritersComplete` | DemoGame/Pods/leveldb-library/db/db_impl.cc:1237-1255 | from every state the steps of the writers alone bring all of them to completion, in their order, so that with the rule above each completes exactly once |
| `GroupCommit.SyncWritersAreOnDisk` | DemoGame/Pods/leveldb-library/db/db_impl.cc:1222-1226 | when a sync writer completes, its record has reached the disk |
| `GroupCommit.InFlightIsInvisible` | DemoGame/Pods/leveldb-library/db/db_impl.cc:1210-1235 | readers at the published sequence number see nothing of a group in the making |
| `VersionBuilder.Builder.Apply` | DemoGame/Pods/leveldb-library/db/version_set.cc:650-692 | an edit changes the pending deletions and additions of each level as specified |
| `VersionBuilder.Builder.SaveTo` | DemoGame/Pods/leveldb-library/db/version_set.cc:695-754 | each saved level is the merge of base and added files without the deleted ones |
| `ManifestReplay.ReplayAtOnce` | DemoGame/Pods/leveldb-library/db/version_set.cc:650-754 | one builder that applies all edits and saves once agrees with applying them one at a time and leaves sorted levels, if no file number returns to a level |
| `ManifestReplay.RecoverRebuilds` | DemoGame/Pods/leveldb-library/db/version_set.cc:933-947 | a snapshot record and later edits rebuild the version that the edits made of the snapshot |
| `VersionEdits.EncodeTo` | DemoGame/Pods/leveldb-library/db/version_edit.cc:41-85 | the fields of an edit are appended as tagged items in order |
| `VersionEdits.DecodeFrom` | DemoGame/Pods/leveldb-library/db/version_edit.cc:107-205 | on any bytes the parse loop succeeds exactly when they are well-formed items, and then yields the edit they describe |
| `VersionEdits.EditReadsBack` | DemoGame/Pods/leveldb-library/db/version_edit.cc:107-205 | decoding undoes encoding, for every edit whose strings have 32-bit lengths |
| `VersionSets.VersionSet.LogAndApply` | DemoGame/Pods/leveldb-library/db/version_set.cc:801-884 | the version becomes the edit applied to it, the record goes to the manifest after a snapshot if a new one is begun, and the manifest goes on describing the version set |
| `VersionSets.VersionSet.WriteSnapshot` | DemoGame/Pods/leveldb-library/db/version_set.cc:1088-1116 | the snapshot record alone rebuilds the version and the compaction pointers |
| `VersionSets.VersionSet.Recover` | DemoGame/Pods/leveldb-library/db/version_set.cc:886-1011 | recovery succeeds exactly when every record decodes, names the comparator, and the numbers needed are there; then files, pointers and numbers are those of one builder over all edits |
| `VersionSets.CrashAndRestart` | DemoGame/Pods/leveldb-library/db/version_set.cc:886-1011 | a manifest cut at any byte recovers the version after the edits that are wholly inside, or fails exactly when numbers are missing; uncut it recovers the version set itself |
| `ManifestOfRuns.RunEditsNeverReturn` | DemoGame/Pods/leveldb-library/db/db_impl.cc:535-566 | over every run the edits of flushes, moves and compactions, applied one by one, give the version, and no file number returns to a level |
| `ManifestOfRuns.ManifestRebuildsRun` | DemoGame/Pods/leveldb-library/db/version_set.cc:933-947 | one builder that takes in all edits of a run rebuilds every level of its version |
| `ManifestOfRuns.SnapshotRebuildsRun` | DemoGame/Pods/leveldb-library/db/version_set.cc:1088-1116 | so does one that starts from the snapshot record of any state of the run and takes in the later edits |
| `ManifestOfRuns.NextEditIsFresh` | DemoGame/Pods/leveldb-library/db/version_set.cc:801-884 | the next edit of a run meets what LogAndApply asks of it, wherever the manifest was begun |
| `SkipLists.SkipList.Insert` | DemoGame/Pods/leveldb-library/db/skiplist.h:336-368 | for any height and any garbage in the new links, the key is added in a node of that height, the height of the list grows to it if needed, and every node is then linked on all its levels |
| `SkipLists.SkipList.FindGreaterOrEqual` | DemoGame/Pods/leveldb-library/db/skiplist.h:260-281 | at any time, also between the stores of an insertion, the result is the least visible key from the target on |
| `SkipLists.SkipList.FindLessThan` | DemoGame/Pods/leveldb-library/db/skiplist.h:283-302 | at any time the result is the greatest visible key below the target |
| `SkipLists.SkipList.FindLast` | DemoGame/Pods/leveldb-library/db/skiplist.h:304-322 | at any time the result is the greatest visible key |
| `SkipLists.SkipList.LinkNode` | DemoGame/Pods/leveldb-library/db/skiplist.h:360-367 | the invariant holds before and after each of the two stores per level, and the key becomes visible with the first |
| `SkipLists.Iterator.Prev` | DemoGame/Pods/leveldb-library/db/skiplist.h:212-221 | the iterator moves to the greatest key below its own |
| `SkipListSearches.LevelsAreSortedSublists` | DemoGame/Pods/leveldb-library/db/skiplist.h:336-368 | following the links of a level meets exactly the nodes linked there, in ascending order, and a level holds all nodes of the level above it |
| `SkipListSearches.InterleavedSearchIsRight` | DemoGame/Pods/leveldb-library/db/skiplist.h:260-281 | in every interleaving of the stores of insertions with the reads of a search, of which only the order of the inserted keys is asked, the list is in order after every store and the search ends with the least key from the target on at the moment of its last read |
| `SkipListSearches.InterleavedSearchEnds` | DemoGame/Pods/leveldb-library/db/skiplist.h:260-281 | such a search reads at most as many links as there are nodes, levels and nodes inserted meanwhile |
| `HandleTables.HandleTable.Insert` | DemoGame/Pods/leveldb-library/util/cache.cc:78-92 | a handle replaces the one with its key and hash, and all others stay, also when the table is resized |
| `HandleTables.HandleTable.Remove` | DemoGame/Pods/leveldb-library/util/cache.cc:94-102 | exactly the handle with the key and hash leaves the table |
| `HandleTables.HandleTable.Resize` | DemoGame/Pods/leveldb-library/util/cache.cc:122-146 | the table holds the same handles afterwards, has a power of two of buckets and at least as many as handles |
| `LruCaches.LRUCache.Insert` | DemoGame/Pods/leveldb-library/util/cache.cc:266-303 | the new handle replaces the one with its key; then the oldest unused handles are evicted, no more than needed, until the charges fit or nothing unused is left |
| `LruCaches.LRUCache.Lookup` | DemoGame/Pods/leveldb-library/util/cache.cc:252-259 | the cached handle with the key is returned, referenced once more and in the in-use list |
| `LruCaches.LRUCache.Release` | DemoGame/Pods/leveldb-library/util/cache.cc:261-264 | one reference less: the handle is deleted at zero and goes to the new end of the LRU list when only the cache is left |
| `LruCaches.LRUCache.Erase` | DemoGame/Pods/leveldb-library/util/cache.cc:318-321 | exactly the handle with the key leaves cache and table, and is deleted unless a client holds it |
| `LruCaches.LRUCache.Prune` | DemoGame/Pods/leveldb-library/util/cache.cc:323-332 | all unused handles are deleted, oldest first, and nothing else changes |
| `LruCaches.LRUCache.Destroy` | DemoGame/Pods/leveldb-library/util/cache.cc:205-215 | in the end every handle that no client holds has been deleted exactly once |
| `LruCaches.OnePlace` | DemoGame/Pods/leveldb-library/util/cache.cc:32-47 | a handle is in exactly one list while cached, LRU exactly when no client holds it, in none afterwards, and deleted exactly once when nobody holds it |
| `LruCaches.DroppedIsConsistent` | DemoGame/Pods/leveldb-library/util/cache.cc:225-237 | dropping a reference keeps counts, lists and deletions consistent |
| `Rings.RingLosesOne` | DemoGame/Pods/leveldb-library/util/cache.cc:239-242 | the two stores of LRU_Remove take a node out of a circular list and leave it linked both ways |
| `Rings.RingGainsOne` | DemoGame/Pods/leveldb-library/util/cache.cc:244-250 | the four stores of LRU_Append put a node at the end of a circular list |
| `Snapshots.SnapshotList.Oldest` | DemoGame/Pods/leveldb-library/db/snapshot.h:47-50 | no live snapshot is older than the first of the list |
| `Snapshots.SnapshotList.New` | DemoGame/Pods/leveldb-library/db/snapshot.h:57-71 | a snapshot that is not older than the others goes to the end of the list, which stays ordered |
| `Snapshots.SnapshotList.Delete` | DemoGame/Pods/leveldb-library/db/snapshot.h:79-86 | exactly the given snapshot leaves the list |
| `PbEncoding.PbEncode` | DemoGame/Pods/nanopb/pb_encode.c:528-550 | encoding succeeds exactly when the message fits its descriptor and the stream has room, and then writes the fields in order |
| `PbEncoding.EncodeSubmessage` | DemoGame/Pods/nanopb/pb_encode.c:717-765 | the length from a sizing pass is the length of what the second pass writes |
| `PbEncoding.EncodePackedArray` | DemoGame/Pods/nanopb/pb_encode.c:147-206 | a packed array gets its length computed first, from sizes or from a sizing pass, and then its numbers |
| `PbEncoding.EncodeVarint` | DemoGame/Pods/nanopb/pb_encode.c:608-628 | seven bits a byte, lowest first, in one write |
| `PbStream.IStream.DecodeVarint` | DemoGame/Pods/nanopb/pb_decode.c:255-276 | a varint that was written is read back, and at most ten bytes are taken |
| `PbStream.IStream.DecodeVarint32` | DemoGame/Pods/nanopb/pb_decode.c:187-247 | a number below 2^32 is read back; a varint of up to ten bytes is accepted exactly when the checks of the bytes from the fifth on hold, and then it is cut to 32 bits |
| `PbStream.WideNumberIsCut` | DemoGame/Pods/nanopb/pb_decode.c:213-237 | 2^32 is refused in five bytes, but accepted in six |
| `PbStream.IStream.SkipField` | DemoGame/Pods/nanopb/pb_decode.c:321-331 | a varint, a fixed-width value or a string of bytes is skipped to its end, and other wire types are refused |
| `PbDecoding.FieldIter.Find` | DemoGame/Pods/nanopb/pb_common.c:78-97 | the iterator stops at the field with the tag wherever it started, or finds none |
| `PbDecoding.SetToDefaults` | DemoGame/Pods/nanopb/pb_decode.c:911-926 | every field of a message becomes absent, empty or its default, whatever the storage held |
| `PbDecoding.DecodeSlot` | DemoGame/Pods/nanopb/pb_decode.c:406-483 | one piece of a field is taken into the message: the value, one more item, or all items of a packed array |
| `PbDecoding.PbDecodeNoInit` | DemoGame/Pods/nanopb/pb_decode.c:928-1076 | on what the encoder wrote, decoding into a blank message succeeds exactly when every field can be received, and then the message is the same |
| `PbDecoding.EncodeAndDecode` | DemoGame/Pods/nanopb/pb_decode.c:1078-1090 | encoding a message and decoding the bytes gives the same present fields, for every descriptor tree with distinct non-zero tags and counts in range: required, optional, repeated packed or not, oneof and nested |
| `PbMessages.PiecesMakeField` | DemoGame/Pods/nanopb/pb_encode.c:341-426 | what the encoder writes for a field is the pieces of the field one after the other |
| `FilterBlock.BloomFindsOwn` | DemoGame/Pods/leveldb-library/util/bloom.cc:28-80 | the Bloom filter is a policy that finds its own keys again, which is all that tables and filter blocks ask of a policy |
| `BloomFilter.KeyMayMatch` | DemoGame/Pods/leveldb-library/util/bloom.cc:56-80 | on any filter the probing loop answers as specified |
| `LogRecovery.LogOfRunEncodes` | DemoGame/Pods/leveldb-library/db/db_impl.cc:1210-1222 | in every state of a commit run the records that were appended encode its log, so that recovery applies to it |
| `LogRecovery.ImmLogOfRunEncodes` | DemoGame/Pods/leveldb-library/db/db_impl.cc:1356-1363 | so do the records of the log of the immutable memtable |
| `DBImplementation.DBImpl.Write` | DemoGame/Pods/leveldb-library/db/db_impl.cc:1185-1258 | a batch is the Write step of the state machine, keeps the order and all right reads, and is read from then on |
| `DBImplementation.DBImpl.SwitchToNewMemtable` | DemoGame/Pods/leveldb-library/db/db_impl.cc:1345-1366 | the switch of the memtable is a step of the state machine and keeps the order and all right reads |
| `DBImplementation.DBImpl.ManualCompaction` | DemoGame/Pods/leveldb-library/db/db_impl.cc:694-716 | a manual compaction is a compaction step; it keeps the order, and the reads of a key stay right if and only if its deletion is not lost |
| `DBImplementation.DBImpl.GetSnapshot` | DemoGame/Pods/leveldb-library/db/db_impl.cc:1166-1169 | a snapshot is taken at the last sequence number and becomes live; nothing else changes |
| `DBImplementation.DBImpl.ReleaseSnapshot` | DemoGame/Pods/leveldb-library/db/db_impl.cc:1171-1175 | exactly the given snapshot is no longer live; nothing else changes |
| `KeyOrder.FindShortestSeparator` | DemoGame/Pods/leveldb-library/util/comparator.cc:29-50 | the loop changes the string to the specified separator |
| `KeyOrder.FindShortSuccessor` | DemoGame/Pods/leveldb-library/util/comparator.cc:52-64 | the loop changes the string to the specified successor |
| `SkipLists.SkipList.Contains` | DemoGame/Pods/leveldb-library/db/skiplist.h:370-378 | the answer is exactly whether the key is in the list |
| `DBIteration.DBIter.FindPrevUserEntry` | DemoGame/Pods/leveldb-library/db/db_iter.cc:227-267 | walking back over the versions of a key ends at the last entry to be shown before the start, standing before all visible versions of its key |
| `MergingIteration.MergingIterator.FindLargest` | DemoGame/Pods/leveldb-library/table/merger.cc:163-176 | the current child is one with the largest key of all valid children |
| `Block.Iter.SeekToLast` | DemoGame/Pods/leveldb-library/table/block.cc:208-213 | the cursor is at the last entry |
| `TwoLevelIteration.TwoLevelIterator.SeekToLast` | DemoGame/Pods/leveldb-library/table/two_level_iterator.cc:96-101 | the cursor is at the last entry of the flat list, if there is one |
| `WriteBatches.WriteBatch.Put` | DemoGame/Pods/leveldb-library/db/write_batch.cc:98-103 | the batch gets one more operation and its count goes up by one |
| `VersionSets.VersionSet.NewFileNumber` | DemoGame/Pods/leveldb-library/db/version_set.h:193-194 | a file number is handed out once |
| `DatabaseIteration.AddIterators` | DemoGame/Pods/leveldb-library/db/version_set.cc:230-246 | the runs are the level-0 files one by one and the other non-empty levels, each concatenated |
| `CompactionInputs.ExtensionIsUnique` | DemoGame/Pods/leveldb-library/db/version_set.cc:1378-1401 | two lists that satisfy the specification of the boundary files are equal |
| `CompactionInputs.GrowInputs` | DemoGame/Pods/leveldb-library/db/version_set.cc:1418-1448 | the inputs grow to all files of the upper level in the whole range, with their boundary files, exactly when that is more files, within the limit, and the next level keeps its number of files |

## Left out

- Database.RunKeepsInv: all reads at once, so no compaction of the run may lose a deletion; `Database.RunKeepsOrder` and `Database.RunKeepsReads` are about every run.
- Database.EveryReadIsRight: about the newest entry of the store; `DBImplementation.GetAfterRun` and `DatabaseIteration.ScanAfterRun` are about the values that the code returns.
- Database.WriteAllKeepsOrder: the last sequence number stays below 2^56 - 1; the source does not check for the end of the range.
- CompactionWork.DoCompactionWork: the answers of ShouldStopBefore and the sizes of the tables being built are parameters, and the flush that can run in the middle of a compaction is a step of its own.
- CompactionInputs.SetupOtherInputs: the compaction pointer that it sets is part of edits in `VersionSets` only.
- CompactionInputs.PickCompaction: which file the size score or the seek count selects is a parameter; scores are floating-point numbers there.
- DatabaseIteration.NewInternalIterator: the concatenating iterator over a level is the concatenation of its files; opening table files lazily through the table cache, read sampling and the cleanup of references are not modelled.
- Block.DecodeEntryFast: adds the two lengths without bound; where the 32-bit sum wraps, reading past the block is undefined in the source (third finding).
- LogFile.Reader.ReadRecord: the initial offset is 0, as in every use in the repository, and checksums are always verified.
- Tables.Table.Open: states nothing about files that no builder wrote beyond their being refused or read without error.
- TableBuilding.TableBuilder.Finish: the file is a byte sequence that takes all appended data up to a capacity; Snappy compression, the block cache of a table and comparators other than the two of the repository are left out.
- BloomFilter.KeysMatch: the number of probes that the code derives from bits per key in floating point is a parameter.
- Crc32c.Extend: the tables are given by the equation that their entries satisfy, not as literals; the accelerated path through the operating system's library is left out.
- SkipLists.SkipList.Insert: the random height is a parameter, and memory ordering is sequential: each store takes effect at once.
- GroupCommit.CommitRunKeepsInv: writes to the log and syncs succeed; after an error the source refuses further writes. The waits and slow-downs of MakeRoomForWrite are left out.
- GroupCommit.AllWritersComplete: each thread that can go on is assumed to do so some time; nothing is said of a scheduler that starves the writer in front.
- LogRecovery.RecoverLogFile: reuse of the last log (`reuse_logs`) is left out, so every log ends in tables.
- CrashRecovery.Reopen: the version, the last sequence number and the next file number come from the manifest, which `VersionSets` is about; here they are the version and any numbers that the manifest can hold. The edit that ends recovery is applied at once, and the files of a database that crashes during recovery are those from before.
- CrashRecovery.ReopenedIsRight: a crash cuts the logs at any byte behind what was synced; it damages nothing that stays, and no file disappears.
- VersionSets.VersionSet.LogAndApply: writes to the manifest succeed; the CURRENT file, the reuse of manifests and compaction scores are left out. It asks that file numbers do not return to a level since the manifest was begun, which `ManifestOfRuns.NextEditIsFresh` proves of every run.
- VersionSets.VersionSet.Recover: keys in manifest records are at least eight bytes long and have type 0 or 1; on others the source has no defined behaviour. Table contents are a function of the file number.
- HandleTables.HandleTable.Insert: the bucket is the hash modulo the length, which for the powers of two that occur is the mask of the source; counts are unbounded.
- LruCaches.LRUCache.Insert: one shard; the choice of the shard by the upper bits of the hash, the mutex and the values are left out, and charges do not overflow.
- Snapshots.SnapshotList.New: snapshots are values of `DBImplementation` as an ordered sequence of numbers; this class shows the linked list behind it.
- PbEncoding.PbEncode: callbacks, extensions, pointers, fixed-count arrays, fixed-length bytes and the implicit presence of proto3 are left out; sizes stay below 2^32.
- PbDecoding.PbDecodeNoInit: states equality for input that the encoder wrote; on other input it states that the stream stays within its bytes and the message keeps its shape. The bit mask of required fields seen is a sequence of booleans.
- PbStream.IStream.DecodeVarint32: of a varint that is refused the contract does not say how many bytes were taken.
- `repair.cc`, `env_posix.cc`, file names, loggers, the table cache, statistics and properties: operating-system work and bookkeeping.
- The Swift controllers and extensions, BoringSSL and the interface libraries: layout, declarations and calls into code that is not here.
