# Verified model of leveldb and nanopb

A model, in Dafny, of the two libraries under `creator/ios/Pods` that carry the repository's logic: leveldb, a
log-structured key-value store, and nanopb, a codec for protocol buffers.

leveldb promises that every read at every live snapshot returns what was last written before that snapshot, however
writes, memtable switches, flushes, moves and compactions rearrange the entries. `Lsm` states that promise against a
history of writes, as a state machine whose runs start from the empty database; `DbImpl` is the database object, each of
whose operations is proved to be a step of it. The promise turns out to hold exactly for the compactions that leave no
older value behind a dropped tombstone; see Findings. The other modules take up what that machine stands on: choosing
the inputs of a compaction, group commit, the record log and the manifest, the iterators, the skip list with its
concurrent readers, blocks, filters and tables, the cache, reference counts, and the checksum.

nanopb promises that its two passes over a message agree and that decoding gives back what was encoded.

| module | file | subject |
|---|---|---|
| `DbFormat` | `DbFormat.dfy` | internal keys and their order, what a read at a snapshot means |
| `Version` | `Version.dfy` | files and levels, the lookup through them |
| `CompactionInputs`, `CompactionSetup` | `CompactionInputs.dfy`, `Compaction.dfy` | which files a compaction takes |
| `CompactionWork`, `CompactionReads` | `CompactionWork.dfy`, `CompactionReads.dfy` | the drop rules, and when they keep every read |
| `VersionBuilder`, `Install` | `VersionBuilder.dfy`, `Install.dfy` | applying and replaying edits, and what keeps the level order |
| `Lsm`, `DbImpl`, `LeakExample` | `Lsm.dfy`, `DbImpl.dfy`, `LeakExample.dfy` | the state machine, the database object, a run that resurrects a key |
| `VersionEditCodec` | `VersionEditCodec.dfy` | the bytes of a manifest record |
| `Cursors`, `DbIter`, `Merger`, `TwoLevel` | `Cursor.dfy`, `DbIter.dfy`, `Merger.dfy`, `TwoLevel.dfy` | iterators as cursors over one sequence |
| `DbRuns` | `DbRuns.dfy` | the sorted runs of a database, and what an iterator over them shows |
| `WriteBatches`, `GroupCommit` | `WriteBatch.dfy`, `GroupCommit.dfy` | batches, and writers that commit in groups |
| `Log`, `LogScan` | `Log.dfy`, `LogScan.dfy` | the record log and its recovery after a crash, what any bytes read as |
| `SkipLists` | `SkipList.dfy` | the memtable's list, with readers between single stores |
| `BlockFormat`, `Blocks` | `BlockFormat.dfy`, `Block.dfy` | writing and reading blocks |
| `Separators`, `Filters` | `Separators.dfy`, `FilterBlock.dfy` | separator keys, Bloom filters |
| `TableFormat`, `Tables`, `TableFile` | `TableFormat.dfy`, `Table.dfy`, `TableFile.dfy` | the parts of a table file, building it, opening it and looking keys up |
| `HandleTables`, `Caches` | `HandleTable.dfy`, `Cache.dfy` | the LRU cache |
| `Refs` | `Refs.dfy` | references to versions and files, removal of obsolete files |
| `Coding`, `Crc32c` | `Coding.dfy`, `Crc32c.dfy` | integers in bytes, the checksum |
| `ByteReaders`, `Formats` | `ByteReaders.dfy`, `Formats.dfy` | leveldb's file formats in plain numbers, and readers that share nothing with the writers |
| `PbCommon`, `PbEncode`, `PbStream`, `PbDecode` | `PbCommon.dfy`, `PbEncode.dfy`, `PbStream.dfy`, `PbDecode.dfy` | nanopb: descriptors and messages, encoder, input streams, decoder |
| `PbWire` | `PbWire.dfy` | the wire format, read without a descriptor |

A user key of the database, and a key of the skip list, is its rank under the comparator, a `real`: there are countably
many byte strings, so every total order on them embeds in the reals. Where bytes matter (blocks, separators, filters,
logs, batches, manifest records) keys are byte strings. The Bloom hash is an arbitrary function, and so is the checksum
in logs and tables. Which file a compaction starts from, where its outputs are cut, when a table is full, the size limits,
whether the log or the manifest accepts a write, and the height of a skip-list node are parameters.

## Model

| member | source | states |
|---|---|---|
| DbFormat.SeekFindsNewest | creator/ios/Pods/leveldb-library/db/memtable.cc:100-134 | In a run sorted by internal key, the entry a seek to (user key, snapshot) lands on is the newest one the snapshot may see; if it is of another key, there is none. |
| Version.FindFile | creator/ios/Pods/leveldb-library/db/version_set.cc:88-106 | The binary search over a sorted, disjoint level returns the first file whose largest key is not below the target: all before it are below, none from it on is. |
| Version.SomeFileOverlapsRange | creator/ios/Pods/leveldb-library/db/version_set.cc:122-156 | True exactly if some file may hold a user key of the range, by a scan of level 0 and by one search of a deeper level; a missing bound is unlimited. |
| Version.GetFromLevel0 | creator/ios/Pods/leveldb-library/db/version_set.cc:326-421 | Over files of falling number whose entries rise in age the same way, the first hit is the newest visible entry of all the files, or there is none. |
| Version.GetFromSortedLevel | creator/ios/Pods/leveldb-library/db/version_set.cc:326-421 | One file found by the binary search suffices: its answer is the newest visible entry of the whole level, or there is none. |
| Version.Get | creator/ios/Pods/leveldb-library/db/version_set.cc:326-421 | Under the level order, newest-first level 0 and one file per deeper level find the newest entry of the user key at or below the snapshot in the whole version, tombstones included, or that there is none. |
| CompactionInputs.GetOverlappingInputs | creator/ios/Pods/leveldb-library/db/version_set.cc:519-559 | At level 0 the restarting search ends, and returns exactly the files that a chain of overlapping user-key ranges links to the given range, so no file outside overlaps one inside; deeper it returns exactly the overlapping files. |
| CompactionInputs.FindSmallestBoundaryFile | creator/ios/Pods/leveldb-library/db/version_set.cc:1344-1369 | Of the files that continue the user key after the largest key, the one that starts first; none exactly if there is no such file. |
| CompactionInputs.AddBoundaryInputs | creator/ios/Pods/leveldb-library/db/version_set.cc:1344-1401 | The search for boundary files ends; the result is the given files and then, one after the other, each time the file that continues the user key at which the files so far end and starts first; no file of the level outside it continues the user key at which it ends. |
| CompactionSetup.SetupOtherInputs | creator/ios/Pods/leveldb-library/db/version_set.cc:1403-1462 | The first set is the starting files with their boundary files, the second set all files of the next level that overlap it. The first set then grows to what the range of both sets has, with boundary files, if and only if that is more files, it and the second set stay below the size limit, and it overlaps as many files of the next level as before. The grandparents are the files two levels down that overlap both sets, the pointer is the largest key of the first. |
| CompactionSetup.SizesAdd | creator/ios/Pods/leveldb-library/db/version_set.cc:60-66 | The size of a list of files is the sum of their sizes, which is what the limits of a compaction are about. |
| CompactionSetup.CompactRange | creator/ios/Pods/leveldb-library/db/version_set.cc:1464-1507 | A manual compaction has nothing to do exactly if no file of the level overlaps the range. Otherwise it starts at level 0 from all files linked to the range; deeper from the overlapping files in order, up to the least number whose total size reaches the limit, or all; and the job is the one that comes of exactly these files. |
| CompactionSetup.RangeIsCompacted | creator/ios/Pods/leveldb-library/db/version_set.cc:1464-1507 | So at level 0 every file that overlaps the range is among the inputs, and deeper at least the first one is. |
| CompactionSetup.RestOfRange | creator/ios/Pods/leveldb-library/db/db_impl.cc:755-767 | What is left of the range after a round, from the largest key of the round's last input on, is overlapped by every file that overlapped the range and was not among the inputs. |
| CompactionSetup.PickCompaction | creator/ios/Pods/leveldb-library/db/version_set.cc:1270-1322 | From any file of any level but the last, the job starts from that file alone, at level 0 from all files linked to it, holds it, and is the one that comes of exactly these files. |
| CompactionSetup.PickLevelForMemTableOutput | creator/ios/Pods/leveldb-library/db/version_set.cc:491-516 | Level 0 if level 0 overlaps; otherwise the deepest of the first three levels that is reached by steps each of which overlaps nothing and stays within the grandparent limit. |
| CompactionSetup.Compaction.IsBaseLevelForKey | creator/ios/Pods/leveldb-library/db/version_set.cc:1533-1552 | For user keys asked in ascending order, the moving pointers answer exactly whether no file below the output level covers the key. |
| CompactionWork.DropEntry | creator/ios/Pods/leveldb-library/db/db_impl.cc:927-975 | Below kMaxSequenceNumber as the smallest snapshot, the two loop variables decide exactly the two drop rules: an entry hidden by a newer one of its key that every snapshot sees, or a tombstone every snapshot sees with nothing below the output level. At kMaxSequenceNumber, which stands for no entry yet, every entry is dropped. |
| CompactionWork.DroppedMeans | creator/ios/Pods/leveldb-library/db/db_impl.cc:938-963 | An entry is dropped if and only if the entry before it is of the same user key and not above the smallest snapshot, or it is a tombstone not above the smallest snapshot whose user key no file covers from two levels below the inputs' level on. |
| CompactionWork.DoCompactionWork | creator/ios/Pods/leveldb-library/db/db_impl.cc:878-1036 | Wherever the outputs are cut, they are well-formed tables, consecutively numbered, and their concatenation is exactly the entries the drop rules keep, in order (none at a smallest snapshot of kMaxSequenceNumber). |
| CompactionReads.LeakResurrects | creator/ios/Pods/leveldb-library/db/db_impl.cc:938-960 | If a dropped tombstone was what the oldest snapshot saw, and the next older entry of its key left behind at the output level is a value, that snapshot reads the deleted key before as absent and after as that value. |
| CompactionReads.CompactionPreservesReadsIff | creator/ios/Pods/leveldb-library/db/db_impl.cc:890-999 | Replacing the inputs by the survivors keeps every read at every snapshot from the oldest on if and only if no such tombstone is dropped. |
| Install.ReplaceKeepsOrder | creator/ios/Pods/leveldb-library/db/db_impl.cc:860-876 | Installing a compaction or a trivial move keeps each level below 0 sorted and disjoint, level 0 ordered by file number, and for each user key everything at a shallower level newer than everything deeper. |
| Install.FlushKeepsOrder | creator/ios/Pods/leveldb-library/db/version_set.cc:491-516 | A flushed table, newer than the whole version, keeps the order of the levels at any level that it reaches without overlapping that level or one above it. |
| Install.BoundaryClosedNeverLeaks | creator/ios/Pods/leveldb-library/db/version_set.cc:1403-1411 | If no file of the output level outside inputs_[1] continues the user key at which they end, which is what AddBoundaryInputs on inputs_[1] would ensure, no compaction brings a deleted value back. |
| Lsm.RunKeepsInv | creator/ios/Pods/leveldb-library/db/db_impl.cc:535-566 | In every run of writes, failed writes, memtable switches, flushes, moves, compactions and snapshots from the empty database, every state has the level order, unique sequence numbers, and newer data above older. |
| Lsm.CompactReadsIff | creator/ios/Pods/leveldb-library/db/db_impl.cc:878-1036 | In a state that has the invariant, a compaction step keeps all reads at the live snapshots and later if and only if it does not leak. |
| Lsm.RunReadsMatch | creator/ios/Pods/leveldb-library/db/db_impl.cc:1100-1145 | In every run without a leaking compaction, every read at every live snapshot is what the history of writes says. |
| Lsm.ClosedRunIsLeakFree | creator/ios/Pods/leveldb-library/db/version_set.cc:1403-1411 | A run whose compactions all leave no boundary file of inputs_[1] behind never leaks, so all its states read as their histories say: the condition is one on file ranges alone. |
| Lsm.HeldSnapshotIsStable | creator/ios/Pods/leveldb-library/db/db_impl.cc:1166-1174 | A snapshot held from one state of such a run to a later one reads every key the same in both. |
| LeakExample.CompactionResurrectsDeletedKey | creator/ios/Pods/leveldb-library/db/version_set.cc:1403-1411 | A run of thirteen steps from the empty database, through the public interface, whose last compaction makes a deleted key, which the history and the state before read as absent, read as its old value. |
| DbImpl.DBImpl.ApplyGroup | creator/ios/Pods/leveldb-library/db/db_impl.cc:1203-1236 | Applying a group is one write step: all its operations, numbered from the last sequence on, enter the memtable and nothing else does, or, if the log refused it, none do; the last sequence rises by their number either way. |
| DbImpl.DBImpl.SwitchMemTable | creator/ios/Pods/leveldb-library/db/db_impl.cc:1310-1370 | With no immutable memtable left, the memtable becomes it and an empty one takes its place, as one step of the state machine. |
| DbImpl.ReadInputs | creator/ios/Pods/leveldb-library/db/version_set.cc:1237-1268 | The input iterator read from first to last is the sorted merge of the input tables: each entry of each, once. |
| DbImpl.DBImpl.CompactMemTable | creator/ios/Pods/leveldb-library/db/db_impl.cc:535-566 | One flush step: the immutable memtable becomes a table at level 0 if that overlaps it, otherwise at the deepest of the first three levels reached without overlap and within the grandparent limit; the database's entries stay the same set. |
| DbImpl.DBImpl.RunCompaction | creator/ios/Pods/leveldb-library/db/db_impl.cc:688-767 | The step is a move of the one file if the job is automatic, has one file and none below it, and its grandparents are within the limit, and otherwise the merge of exactly the job's inputs; the invariant holds after it. |
| DbImpl.DBImpl.BackgroundCompaction | creator/ios/Pods/leveldb-library/db/db_impl.cc:688-767 | An immutable memtable is flushed, and nothing else happens. Otherwise a manual compaction gets the job of what is left of its range, run as a merge, or nothing is done exactly if no file overlaps that. Otherwise the job of the picked file is run, and the file is no longer in its level. |
| DbImpl.DBImpl.CompactOnce | creator/ios/Pods/leveldb-library/db/db_impl.cc:695-767 | A round of a manual compaction takes a file out of the level and adds none to it, and the range it leaves is overlapped by all files of the level that overlap the range it had; or it is done, and no file overlaps it. |
| DbImpl.DBImpl.CompactLevelRange | creator/ios/Pods/leveldb-library/db/db_impl.cc:585-622 | The rounds of a manual compaction end, and then no file of the level overlaps the range. |
| DbImpl.DBImpl.GetSnapshot | creator/ios/Pods/leveldb-library/db/db_impl.cc:1166-1169 | A snapshot step: the last sequence is pinned behind the snapshots there are, and nothing else changes. |
| DbImpl.DBImpl.ReleaseSnapshot | creator/ios/Pods/leveldb-library/db/db_impl.cc:1171-1174 | A release step: only that snapshot is let go, so the smallest one may rise; the entries stay. |
| DbImpl.DBImpl.Get | creator/ios/Pods/leveldb-library/db/db_impl.cc:1100-1145 | Memtable, immutable memtable and version, searched in this order, give the value of the newest entry at or below the snapshot, none if that is a tombstone or absent; where the state reads as its history says, that is the value last written before the snapshot. |
| DbRuns.RunsMerge | creator/ios/Pods/leveldb-library/db/version_set.cc:230-249 | In a state that has the invariant, the memtables, the level-0 files and the concatenated deeper levels share no key, and their merge is sorted and holds exactly the entries of the database. |
| DbRuns.LiveKeysOfDb | creator/ios/Pods/leveldb-library/db/db_iter.cc:141-299 | The keys that an iterator over that merge visits ascend, and are exactly those that a read of the database at its sequence finds, each with the value read. |
| DbImpl.AddIterators | creator/ios/Pods/leveldb-library/db/version_set.cc:230-249 | One cursor for each file of level 0 and one, over its files one after the other, for each deeper level that is not empty; none for the others. |
| DbImpl.DBImpl.NewInternalIterator | creator/ios/Pods/leveldb-library/db/db_impl.cc:1062-1087 | The merging iterator runs over exactly the sorted entries of memtable, immutable memtable and version. |
| DbImpl.DBImpl.NewIterator | creator/ios/Pods/leveldb-library/db/db_impl.cc:1147-1157 | A user iterator over that merge, at the snapshot or at the last sequence, not yet positioned. |
| DbImpl.ReadAll | creator/ios/Pods/leveldb-library/db/db_impl.cc:1147-1157 | Walking such an iterator from the first key to the last gives exactly the pairs that reads of the database give, in ascending order; at a live snapshot of a state that reads as its history says, exactly what was last written before it. |
| VersionBuilder.EditLevelMembers | creator/ios/Pods/leveldb-library/db/version_set.cc:650-754 | Where file numbers identify files and an edit adds only files a level does not hold, it leaves at the level exactly the files that were there and are not deleted, and those it adds. |
| VersionBuilder.LogAndApply | creator/ios/Pods/leveldb-library/db/version_set.cc:801-884 | Each level of the new version is the merge of the old one with the edit, in the order of smallest keys. |
| VersionBuilder.Builder.SaveTo | creator/ios/Pods/leveldb-library/db/version_set.cc:695-739 | The two-pointer loop writes, level by level, the merge of the base files and the added ones without the deleted. |
| VersionBuilder.MergeMembers | creator/ios/Pods/leveldb-library/db/version_set.cc:695-739 | The merge of SaveTo loses and invents no file. |
| VersionBuilder.WriteSnapshot | creator/ios/Pods/leveldb-library/db/version_set.cc:1088-1116 | The record adds exactly the files of the version, level by level, and deletes none. |
| VersionBuilder.Recover | creator/ios/Pods/leveldb-library/db/version_set.cc:926-998 | One builder that absorbs all records of the manifest and saves once. |
| VersionBuilder.ReplayEqualsHistoryIff | creator/ios/Pods/leveldb-library/db/version_set.cc:886-1116 | Where file numbers identify files: replaying a snapshot record and the edits after it gives, at every point, the very list of files of a level that installing the edits one at a time gave, if and only if no edit adds a file to a level that holds it at that point. |
| VersionBuilder.ReAddedFileDiverges | creator/ios/Pods/leveldb-library/db/version_set.cc:650-754 | An edit that shows the difference: a file added twice to a level is there twice in the live version and once after replay. It is an input of Builder alone: no leveldb caller makes one, since new files have fresh numbers and a moved file is not at the next level. |
| VersionEditCodec.EditRoundTrip | creator/ios/Pods/leveldb-library/db/version_edit.cc:41-205 | Every well-formed edit, encoded and decoded into a fresh one, comes back field by field. |
| VersionEditCodec.ReusedEditRoundTrip | creator/ios/Pods/leveldb-library/db/version_edit.cc:26-205 | An edit decoded into an object that was used before has that object's compaction pointers in front of its own, so it comes back as it was if and only if there were none. |
| VersionEditCodec.VersionEdit.EncodeTo | creator/ios/Pods/leveldb-library/db/version_edit.cc:41-83 | Appends the encoding that the round trip is about, field by field in tag order. |
| VersionEditCodec.VersionEdit.DecodeFrom | creator/ios/Pods/leveldb-library/db/version_edit.cc:107-205 | The loop consumes a record tag by tag as the parse function says, and fails exactly on what is malformed; fields that Clear keeps stay. |
| VersionEditCodec.CopyThroughBytes | creator/ios/Pods/leveldb-library/db/version_edit.cc:26-205 | An object that decodes what another one encoded holds the same edit. |
| Formats.EditIs | creator/ios/Pods/leveldb-library/db/version_edit.cc:13-83 | A reader that has only the published numbers, 1 comparator, 2 log, 3 next file, 4 last sequence, 5 compaction pointer, 6 deleted file, 7 new file, 9 previous log, takes the encoded edit apart into exactly the edit's fields in this order. |
| Formats.LevelsAreSeven | creator/ios/Pods/leveldb-library/db/version_edit.cc:97-105 | Whatever the bytes, what DecodeFrom takes from them names a level from 0 to 6: any other level is malformed. |
| DbIter.LiveKeysAreReads | creator/ios/Pods/leveldb-library/db/db_iter.cc:141-299 | The positions an iterator may rest on carry ascending user keys, and each key's value is what a read at the iterator's sequence returns; a key is absent exactly if that read finds nothing. |
| DbIter.DBIter.FindNextUserEntry | creator/ios/Pods/leveldb-library/db/db_iter.cc:168-198 | Scanning forward rests on the first live entry at or above the bound, past hidden entries and tombstones. |
| DbIter.DBIter.FindPrevUserEntry | creator/ios/Pods/leveldb-library/db/db_iter.cc:227-267 | Scanning backward rests on the last live entry below the start, with its newest visible value saved, or finds that there is none. |
| DbIter.DBIter.Next | creator/ios/Pods/leveldb-library/db/db_iter.cc:141-166 | The cursor moves to the next live key, also after a turn from reverse. |
| DbIter.DBIter.Prev | creator/ios/Pods/leveldb-library/db/db_iter.cc:200-225 | The cursor moves to the live key before, also after a turn from forward. |
| DbIter.DBIter.Seek | creator/ios/Pods/leveldb-library/db/db_iter.cc:269-281 | The cursor is at the first live key at or after the target. |
| DbIter.DBIter.SeekToFirst | creator/ios/Pods/leveldb-library/db/db_iter.cc:283-292 | The cursor is at the first live key, or not valid if there is none. |
| DbIter.DBIter.SeekToLast | creator/ios/Pods/leveldb-library/db/db_iter.cc:294-299 | The cursor is at the last live key, or not valid if there is none. |
| DbIter.DBIter.Key | creator/ios/Pods/leveldb-library/db/db_iter.cc:64-67 | In both directions, the user key of the live entry the cursor is at, wherever the inner iterator stands. |
| DbIter.DBIter.Value | creator/ios/Pods/leveldb-library/db/db_iter.cc:68-71 | In both directions, the value of the live entry the cursor is at. |
| DbIter.Collect | creator/ios/Pods/leveldb-library/db/db_iter.cc:141-299 | From the first key on, every live key and its value once, in order; then the iterator is not valid. |
| DbIter.NextThenPrev | creator/ios/Pods/leveldb-library/db/db_iter.cc:141-225 | Next and then Prev return to the same key and value. |
| Merger.MergeAllMerges | creator/ios/Pods/leveldb-library/table/merger.cc:31-176 | The merge of runs without a common key is sorted and holds exactly their entries. |
| Merger.MergingIterator.Next | creator/ios/Pods/leveldb-library/table/merger.cc:55-79 | The children together move one entry up in the sorted merge, after a turn from reverse too. |
| Merger.MergingIterator.Prev | creator/ios/Pods/leveldb-library/table/merger.cc:81-108 | The children together move one entry down in the sorted merge, after a turn from forward too. |
| Merger.MergingIterator.Seek | creator/ios/Pods/leveldb-library/table/merger.cc:47-53 | The iterator is at the first entry of the sorted merge at or after the target. |
| Merger.MergingIterator.SeekToFirst | creator/ios/Pods/leveldb-library/table/merger.cc:31-37 | The iterator is at the first entry of the sorted merge. |
| Merger.MergingIterator.SeekToLast | creator/ios/Pods/leveldb-library/table/merger.cc:39-45 | The iterator is at the last entry of the sorted merge. |
| Merger.MergingIterator.Key | creator/ios/Pods/leveldb-library/table/merger.cc:110-113 | The key of the chosen child is that of the entry of the sorted merge at which the iterator is. |
| TwoLevel.TwoLevelIterator.Seek | creator/ios/Pods/leveldb-library/table/two_level_iterator.cc:82-87 | The iterator is at the first entry at or after the target of the concatenated blocks, whatever empty blocks there are. |
| TwoLevel.TwoLevelIterator.Next | creator/ios/Pods/leveldb-library/table/two_level_iterator.cc:103-107 | One entry on in the concatenation of the blocks. |
| TwoLevel.TwoLevelIterator.Prev | creator/ios/Pods/leveldb-library/table/two_level_iterator.cc:109-113 | One entry back in the concatenation of the blocks; not valid before the first. |
| TwoLevel.TwoLevelIterator.SeekToLast | creator/ios/Pods/leveldb-library/table/two_level_iterator.cc:96-101 | At the last entry of the concatenation, also where the last blocks are empty. |
| TwoLevel.TwoLevelIterator.SkipEmptyDataBlocksForward | creator/ios/Pods/leveldb-library/table/two_level_iterator.cc:115-126 | The loop over empty blocks ends, and at the entry that follows in the concatenation. |
| TwoLevel.TwoLevelIterator.SkipEmptyDataBlocksBackward | creator/ios/Pods/leveldb-library/table/two_level_iterator.cc:128-139 | The loop over empty blocks ends, and at the entry that precedes in the concatenation. |
| WriteBatches.OpsRoundTrip | creator/ios/Pods/leveldb-library/db/write_batch.cc:42-150 | The bytes of a list of operations read back as that list, followed by what the rest reads as. |
| Formats.BatchIs | creator/ios/Pods/leveldb-library/db/write_batch.cc:5-30 | A batch is eight bytes of sequence number and four of count, little-endian, and then what a reader with only the published numbers, 1 and two counted strings, 0 and one, takes apart into exactly the operations. |
| Formats.TrailerIs | creator/ios/Pods/leveldb-library/db/dbformat.cc:14-23 | The trailer of an internal key is the sequence number times 256, plus 1 for a value and 0 for a deletion; it has eight bytes exactly up to kMaxSequenceNumber. |
| WriteBatches.WriteBatch.Put | creator/ios/Pods/leveldb-library/db/write_batch.cc:98-103 | A batch that holds some operations then holds them and the put; the count in the header is theirs. |
| WriteBatches.WriteBatch.Delete | creator/ios/Pods/leveldb-library/db/write_batch.cc:105-109 | A batch that holds some operations then holds them and the deletion. |
| WriteBatches.WriteBatch.Append | creator/ios/Pods/leveldb-library/db/write_batch.cc:144-150 | The batch then holds its own operations and those of the other, in this order. |
| WriteBatches.WriteBatch.Iterate | creator/ios/Pods/leveldb-library/db/write_batch.cc:42-80 | The handler gets the operations in order up to the first malformed byte, and the status is good exactly if there is none and the count in the header is theirs. |
| WriteBatches.WriteBatch.InsertInto | creator/ios/Pods/leveldb-library/db/write_batch.cc:115-137 | A batch is inserted operation by operation under consecutive sequence numbers from its own on. |
| GroupCommit.GroupIsMaximal | creator/ios/Pods/leveldb-library/db/db_impl.cc:1260-1306 | A group stays within its size limit, and ends only before a sync write its leader may not carry or a batch that would exceed the limit. |
| GroupCommit.GroupLimits | creator/ios/Pods/leveldb-library/db/db_impl.cc:1260-1306 | The same bounds in numbers for every queue, whatever its batches are. |
| GroupCommit.SyncNeedsSyncLeader | creator/ios/Pods/leveldb-library/db/db_impl.cc:1284-1288 | No member of a group asks for a sync that its leader does not make. |
| GroupCommit.ServedIff | creator/ios/Pods/leveldb-library/db/db_impl.cc:1280-1305 | For any position of the queue: a writer is served with the leader if and only if it and every writer before it may join, by its sync flag and by the total size up to it. |
| GroupCommit.NullBatchIsAbsorbedIff | creator/ios/Pods/leveldb-library/db/db_impl.cc:1260-1306 | For any position behind a leader with a batch: a writer without a batch returns with the group if and only if all writers before it do and it asks for no sync that the leader does not make; it adds nothing to the operations. |
| GroupCommit.NullBatchSwitchesIffItLed | creator/ios/Pods/leveldb-library/db/db_impl.cc:1185-1256 | In every run: a writer without a batch that returned OK had the memtable switched for it if and only if it was the leader; then no insertion made before was left in the memtable, and otherwise all those of its group were. |
| GroupCommit.BuildBatchGroup | creator/ios/Pods/leveldb-library/db/db_impl.cc:1260-1306 | The result holds exactly the operations of the group's batches in queue order, and no caller's batch is changed. With a leader of s bytes the group has at most s + 131072 bytes if s is at most 131072, and otherwise at most 1048576 or the leader alone; if it ends before the queue, the next writer asks for a sync its leader does not make, or would take it past that bound. |
| GroupCommit.CommitGroup | creator/ios/Pods/leveldb-library/db/db_impl.cc:1203-1240 | The log record and the insertions of a group are its operations numbered from the last sequence on, and the temporary batch is empty again. |
| GroupCommit.RunKeepsInv | creator/ios/Pods/leveldb-library/db/db_impl.cc:1185-1256 | The accounting of sequence numbers, log, memtable and returned writers is kept by every interleaving of arrivals and of the leader's steps between lock points, failures included. |
| GroupCommit.EveryRunCommitsInOrder | creator/ios/Pods/leveldb-library/db/db_impl.cc:1185-1256 | In every run writers return in the order they came, their sequence numbers are contiguous, and a reader at the last sequence sees exactly the batches that returned OK, each once and in order. |
| GroupCommit.EachOperationOnce | creator/ios/Pods/leveldb-library/db/db_impl.cc:1185-1256 | Each operation of a batch that returned OK is inserted under its own number, which no other insertion has. |
| GroupCommit.SyncWritesAreDurable | creator/ios/Pods/leveldb-library/db/db_impl.cc:1212-1231 | A batch that returned OK lies whole in one log record, and in a synced one if it asked for that. |
| GroupCommit.GroupsAreAtomic | creator/ios/Pods/leveldb-library/db/db_impl.cc:1203-1240 | At any point a reader at the last sequence sees all of the finished groups and nothing of the one in progress. |
| GroupCommit.SnapshotsAreStable | creator/ios/Pods/leveldb-library/db/db_impl.cc:1185-1256 | What a sequence number sees does not change in any continuation of the run. |
| Log.Writer.AddRecord | creator/ios/Pods/leveldb-library/db/log_writer.cc:34-80 | The loop ends, an empty first fragment included, and appends exactly the fragments of the record from the present block offset on. |
| Formats.LogIs | creator/ios/Pods/leveldb-library/db/log_format.h:14-31 | A reader with only the published numbers, blocks of 32768, headers of seven bytes with masked checksum, length and type, 1 whole, 2 first, 3 middle, 4 last, takes the written log apart into exactly the records. |
| Log.Reader.ReadPhysicalRecord | creator/ios/Pods/leveldb-library/db/log_reader.cc:189-271 | On any bytes it takes the first of the events that a scan of the file block by block has ahead: a fragment whose checksum is right, or a bad place that costs the rest of its block. Before a fragment of a written log that lies whole in the file it returns its type and payload; before one that does not it reports the end of the file, and in neither case corruption. |
| Log.Reader.ReadRecord | creator/ios/Pods/leveldb-library/db/log_reader.cc:56-174 | On any bytes it returns the record that the events ahead make up, with the reports that they cost. Of a written log the next record comes back if all its fragments lie in the file, and none otherwise, without a report. |
| LogScan.DamageIsContained | creator/ios/Pods/leveldb-library/db/log_reader.cc:189-271 | If a block is bad from its start, the records of a file are those of the blocks before it and those of the file behind it, each read as if it were alone: damage to a block costs only the records that reach into it. |
| LogScan.BadSeparates | creator/ios/Pods/leveldb-library/db/log_reader.cc:56-174 | A bad place among fragments ends the record in hand: the records are those before it and those behind it. |
| Log.LogAppend | creator/ios/Pods/leveldb-library/db/log_writer.cc:34-108 | The log of two lists of records is the log of the first, continued from its end. |
| Log.ReopenedLog | creator/ios/Pods/leveldb-library/db/log_writer.cc:27-30 | A writer opened on a log of a given length continues it as the writer that wrote it would have. |
| Log.RecoverLog | creator/ios/Pods/leveldb-library/db/log_reader.cc:56-174 | From every prefix of a written log exactly the records whose last fragment lies whole in it come back, in order, and nothing is reported as corrupt; of any bytes, the records and the number of reports are those of the scan block by block. |
| Log.CrashAndRecover | creator/ios/Pods/leveldb-library/db/log_reader.cc:56-271 | Writing any records, keeping any number of first bytes and reading gives exactly the records that survived whole; all of them if all bytes did. |
| SkipLists.StoreKeepsInv | creator/ios/Pods/leveldb-library/db/skiplist.h:337-368 | After each single store of an insertion every level is strictly sorted and a sublist of the level below. |
| SkipLists.ConcurrentSearchIsCorrect | creator/ios/Pods/leveldb-library/db/skiplist.h:260-281 | A search whose loads interleave in any way with the stores of insertions returns the least key at or above the target that is published at its last load; no key present at its start is missed. |
| SkipLists.SkipList.FindGreaterOrEqual | creator/ios/Pods/leveldb-library/db/skiplist.h:260-281 | Returns the first node not below the key, and at each level the last node below it. |
| SkipLists.SkipList.FindLessThan | creator/ios/Pods/leveldb-library/db/skiplist.h:283-302 | Returns the last node below the key, or the head. |
| SkipLists.SkipList.FindLast | creator/ios/Pods/leveldb-library/db/skiplist.h:304-322 | Returns the last node, or the head of an empty list. |
| SkipLists.SkipList.Contains | creator/ios/Pods/leveldb-library/db/skiplist.h:370-378 | True exactly if the key is in the list. |
| SkipLists.SkipList.Insert | creator/ios/Pods/leveldb-library/db/skiplist.h:336-368 | The keys become the old ones with the new one in its place, linked at exactly the levels below its height, and the list's height rises to it if it was lower, by a sequence of single stores each of which keeps the invariant that readers rely on. |
| SkipLists.ListIterator.Seek | creator/ios/Pods/leveldb-library/db/skiplist.h:223-226 | At the first key not below the target. |
| SkipLists.ListIterator.Prev | creator/ios/Pods/leveldb-library/db/skiplist.h:212-221 | By a search for the last node below, one key back; not valid before the first. |
| HandleTables.HandleTable.Insert | creator/ios/Pods/leveldb-library/util/cache.cc:78-92 | The table as a map gets the entry, the entry it replaces is returned, and a resize changes nothing of the map. |
| HandleTables.HandleTable.Remove | creator/ios/Pods/leveldb-library/util/cache.cc:94-102 | The map loses exactly this key and hash, and the entry it had is returned. |
| HandleTables.HandleTable.Resize | creator/ios/Pods/leveldb-library/util/cache.cc:122-146 | Every chain is rebuilt for the least power of two, at least four, that is not below the number of entries, and the map is the same. |
| Caches.LRUCache.EachEntryInOneList | creator/ios/Pods/leveldb-library/util/cache.cc:40-53 | In every state a cached entry is in the hash table and once in exactly one list, in lru_ with one reference and in in_use_ with more; usage_ is the sum of their charges, and counts are those of the clients and the cache. |
| Caches.LRUCache.HandlesInUse | creator/ios/Pods/leveldb-library/util/cache.cc:217-237 | A handle exists exactly while a client or the cache refers to it. |
| Caches.LRUCache.Insert | creator/ios/Pods/leveldb-library/util/cache.cc:266-303 | The new entry is found under its key if caching is on, the one it replaces leaves, and of the entries nobody uses exactly the oldest ones that exceed the capacity are evicted and deleted, in order; afterwards the usage is within the capacity or nothing is left to evict. |
| Caches.ExcessIsLeast | creator/ios/Pods/leveldb-library/util/cache.cc:292-300 | The number evicted is the least that brings the usage within the capacity, or all. |
| Caches.LRUCache.Lookup | creator/ios/Pods/leveldb-library/util/cache.cc:252-259 | Agrees with the map; a found entry gains a reference and leaves the entries that may be evicted. |
| Caches.LRUCache.Release | creator/ios/Pods/leveldb-library/util/cache.cc:261-264 | The last release of a cached entry makes it the newest that may be evicted; that of an erased one deletes it. |
| Caches.LRUCache.Erase | creator/ios/Pods/leveldb-library/util/cache.cc:318-321 | The map loses the key; the entry is deleted now if no client uses it, and by its last client otherwise. |
| Caches.LRUCache.Prune | creator/ios/Pods/leveldb-library/util/cache.cc:323-333 | All entries nobody uses are deleted, oldest first, and no others. |
| BlockFormat.BlockBuilder.Add | creator/ios/Pods/leveldb-library/table/block_builder.cc:72-106 | The buffer stays the prefix-compressed encoding of the entries added so far, with restarts at every interval. |
| BlockFormat.BlockBuilder.Finish | creator/ios/Pods/leveldb-library/table/block_builder.cc:62-70 | The block is the prefix-compressed encoding of the entries, with compression started over at exactly the multiples of the interval, then these offsets and their number; below four gigabytes all numbers are whole. |
| BlockFormat.BlockBuilder.CurrentSizeEstimate | creator/ios/Pods/leveldb-library/table/block_builder.cc:56-60 | The estimate is the very size of the finished block. |
| Formats.BlockIs | creator/ios/Pods/leveldb-library/table/block_builder.cc:16-26 | A reader with only the published layout, three varints of shared, unshared and value length, takes a block apart into exactly the entries; behind them are four bytes for each restart, where the whole key stands, and four for their number. |
| Formats.SharedIsLongest | creator/ios/Pods/leveldb-library/table/block_builder.cc:72-106 | Away from the restarts an entry shares with the key before it as many bytes as the two have in common. |
| Blocks.EntryAt | creator/ios/Pods/leveldb-library/table/block.cc:54-74 | Each entry of a block decodes at its offset to its own lengths and bytes, and ends where the next begins. |
| Blocks.BlockIter.Next | creator/ios/Pods/leveldb-library/table/block.cc:137-140 | One entry on, its key rebuilt from the one before. |
| Blocks.BlockIter.Prev | creator/ios/Pods/leveldb-library/table/block.cc:142-161 | One entry back, by way of the restart before it. |
| Blocks.BlockIter.SeekToLast | creator/ios/Pods/leveldb-library/table/block.cc:208-213 | From the last restart on, the scan ends at the last entry. |
| Blocks.BlockIter.Seek | creator/ios/Pods/leveldb-library/table/block.cc:163-201 | Binary search over restarts and a scan land on the first entry not below the target, as a scan from the start would; on any other bytes every branch still ends. |
| Blocks.BlockRoundTrip | creator/ios/Pods/leveldb-library/table/block.cc:137-251 | For every restart interval, a built block reads as its entries from front to back and from back to front. |
| Separators.SeparatorFor | creator/ios/Pods/leveldb-library/db/dbformat.cc:69-86 | Where the separator of the user keys is shorter than the first and above it, it stands with the tag that sorts first, and otherwise the first key itself; so it is at or after the last key of a block and before the first key of the next. |
| Separators.SuccessorOf | creator/ios/Pods/leveldb-library/db/dbformat.cc:88-101 | The successor of the user key with the tag that sorts first, if it is shorter and above, and otherwise the key itself. |
| Separators.FindShortestSeparator | creator/ios/Pods/leveldb-library/util/comparator.cc:29-50 | Where the strings first differ and there is room for a value in between, the result is the start up to there and that byte plus one, and in all other cases the start itself; it is the start or strictly between, and no longer than the start. |
| Separators.FindShortSuccessor | creator/ios/Pods/leveldb-library/util/comparator.cc:52-64 | The result is the key up to its first byte that is not 0xff, and that byte plus one; the key itself exactly if there is none. |
| Filters.BloomIsSound | creator/ios/Pods/leveldb-library/util/bloom.cc:28-80 | With any hash function and any number of probes up to thirty, a filter never rejects a key it was made from. |
| Filters.BloomBits | creator/ios/Pods/leveldb-library/util/bloom.cc:28-54 | A filter has bitsPerKey bits a key, at least 64, in the least number of whole bytes, and then the number of probes; bit q is on if and only if q is (h + j * d) mod 2^32 mod the number of bits for the hash h of one of the keys and one of the probes j, d being h rotated right by 17. |
| Filters.BloomAnswers | creator/ios/Pods/leveldb-library/util/bloom.cc:56-80 | A key may match if and only if the filter has two bytes or more, and its last byte is above 30 or all bits that it names so for the key are on. |
| Filters.BloomPolicyIsSound | creator/ios/Pods/leveldb-library/util/bloom.cc:17-84 | With its number of probes the Bloom policy is one that filter blocks and tables can rely on. |
| Filters.ProbeCount | creator/ios/Pods/leveldb-library/util/bloom.cc:19-24 | The number of probes is 0.69 times bitsPerKey rounded down, from 1 to 30. |
| Filters.CreateFilter | creator/ios/Pods/leveldb-library/util/bloom.cc:28-54 | The loops append exactly the filter of the keys, its number of probes last. |
| Filters.FilterBlockBuilder.Finish | creator/ios/Pods/leveldb-library/table/filter_block.cc:35-49 | The filter block holds one filter after the other, each the policy's filter of exactly the keys added while it was being collected, or nothing if there were none, so each added key passes its filter. |
| Filters.FilterBlockBuilder.StartBlock | creator/ios/Pods/leveldb-library/table/filter_block.cc:21-27 | Up to filter number blockOffset / 2048, the keys collected go into the first new filter and the others stay empty. |
| Formats.FilterBlockIs | creator/ios/Pods/leveldb-library/table/filter_block.cc:35-49 | A filter block is its filters, four little-endian bytes for where each starts, four for where the last ends, and a byte 11. |
| Filters.ReaderAsksFilter | creator/ios/Pods/leveldb-library/table/filter_block.cc:77-104 | The reader asks exactly the filter of the block's offset, and lets everything pass where there is none. |
| Tables.InternalGet | creator/ios/Pods/leveldb-library/table/table.cc:216-244 | The steps through index, filter and block hand on what the lookup function says. |
| Tables.LookupIsExact | creator/ios/Pods/leveldb-library/table/table.cc:216-244 | In a table the builder wrote, a lookup at (user key, sequence) passes on the newest entry of the user key that the sequence may see whenever there is one, and otherwise nothing of that key. |
| TableFile.RankIsOrder | creator/ios/Pods/leveldb-library/db/dbformat.cc:51-67 | The order of internal keys, bytewise user keys and falling tags, is that of an explicit real number: the comparator a block iterator is given exists. |
| TableFile.TableIsSeekable | creator/ios/Pods/leveldb-library/table/table_builder.cc:94-123 | The index keys of a written table rise, and so do the keys of each block it names. |
| TableFile.BlockGet | creator/ios/Pods/leveldb-library/table/block.cc:163-201 | A block iterator that seeks an internal key in the bytes of a block yields the key and value of the entry that a search of the entry list finds, or nothing if there is none; on other bytes it ends. |
| TableFile.InternalGet | creator/ios/Pods/leveldb-library/table/table.cc:216-244 | Over the bytes of the file, the steps through index, filter and block hand on the encoding of the entry that the lookup in the lists gives; on other bytes they end. |
| TableFile.BuildAndGet | creator/ios/Pods/leveldb-library/table/table.cc:38-82 | For every rising list of entries, every policy, restart interval and block size: from the file that is built, if it is below four gigabytes, opening it and looking up (user key, sequence) yields the bytes of the newest entry of the user key that the sequence may see whenever there is one, and otherwise nothing of that key; whether or not checksums are looked at, and with the filter or a policy of another name. |
| TableFile.Open | creator/ios/Pods/leveldb-library/table/table.cc:38-135 | A file that a builder wrote opens, with its index, and with its filter block exactly if the policy is the one it was built with; other bytes open or do not, and in either case it ends. |
| TableFormat.StandsReads | creator/ios/Pods/leveldb-library/table/format.cc:64-139 | A block that stands in a file with its trailer is read from it, whether or not its checksum is looked at. |
| TableFormat.FooterRoundTrip | creator/ios/Pods/leveldb-library/table/format.cc:31-62 | A footer decodes to the two handles it was made from. |
| Formats.FooterIs | creator/ios/Pods/leveldb-library/table/format.cc:31-40 | The footer has two handles of two varints each, zeros up to byte 40, and the eight bytes 57 fb 80 8b 24 75 47 db. |
| Formats.BlockTrailerIs | creator/ios/Pods/leveldb-library/table/table_builder.cc:177-194 | Behind a block stand a byte 0 and four bytes of the masked checksum of block and that byte. |
| Tables.TableBuilder.Add | creator/ios/Pods/leveldb-library/table/table_builder.cc:94-123 | The entry comes to the data block and its key to the filter of the block's offset; an index entry that is due is written before it, with exactly the separator of the last key and this one and the block's handle; and exactly when the finished block would reach the block size, its bytes and trailer are appended to the file. |
| Tables.TableBuilder.Finish | creator/ios/Pods/leveldb-library/table/table_builder.cc:198-253 | Behind the data blocks, each of which stands whole under its handle, come filter block, metaindex block that names it, index block and footer; below four gigabytes the file is a table of the entries added: rising blocks, exact separators between them, filters that pass every key. |
| Refs.VersionSet.Unref | creator/ios/Pods/leveldb-library/db/version_set.cc:476-483 | A version leaves the list exactly with its last reference, and its files lose one reference each; those without one cease to exist. |
| Refs.VersionSet.AppendVersion | creator/ios/Pods/leveldb-library/db/version_set.cc:784-799 | The new version is listed and current; the one before stays listed exactly if someone holds it. |
| Refs.VersionSet.LogAndApply | creator/ios/Pods/leveldb-library/db/version_set.cc:801-884 | The builder's references come and go: afterwards each file again counts exactly the listed versions it is in, the new version has the files the edit leaves, and if the manifest could not be written all is as before. |
| Refs.VersionSet.AddLiveFiles | creator/ios/Pods/leveldb-library/db/version_set.cc:1167-1177 | Collects exactly the numbers of the files of listed versions, with those given. |
| Refs.Database.DeleteObsoleteFiles | creator/ios/Pods/leveldb-library/db/db_impl.cc:223-278 | Unless there is a background error: a log stays exactly if its number is not below the version's log number or is the previous one, a manifest exactly if its number is not below the current one, a table or temporary file exactly if it is pending or in a listed version; CURRENT, LOCK, info logs and other names always stay. After it the tables of all listed versions, the manifest and the logs in use are still there. |
| Refs.Database.SwitchLog | creator/ios/Pods/leveldb-library/db/db_impl.cc:1346-1368 | A new log joins the directory and is written to; the one before belongs to the immutable memtable until that is flushed. |
| Refs.Database.LogsToReplay | creator/ios/Pods/leveldb-library/db/db_impl.cc:317-350 | Recovery takes exactly the logs of the directory whose number is not below the version's log number or is the previous one, in ascending order. |
| Refs.Database.RecoveryReads | creator/ios/Pods/leveldb-library/db/db_impl.cc:317-354 | In every state the manifest that recovery reads is in the directory, and among the logs it replays are those of the immutable memtable and of the memtable, in this order. |
| Refs.Database.Install | creator/ios/Pods/leveldb-library/db/db_impl.cc:535-566 | An edit whose added tables are in the directory gives the current version the files the edit leaves, and after a flush the log number rises to the log in use; every held version keeps its tables, and a manifest that could not be written leaves the version and sets the background error. |
| Refs.Database.HeldFilesRemain | creator/ios/Pods/leveldb-library/db/version_set.cc:68-86 | In every state the tables of the current version and of every version someone holds are in the directory, and each of their files counts the listed versions it is in. |
| Crc32c.UpdateIsRemainder | creator/ios/Pods/leveldb-library/util/crc32c.cc:276-377 | The byte-at-a-time loop computes the remainder of the bitwise division by the polynomial of section 12.1 of RFC 3720. |
| Crc32c.ByteTableEntries | creator/ios/Pods/leveldb-library/util/crc32c.cc:20-64 | At the powers of two, of which all entries are sums, the table of byte steps has the literal entries of kByteExtensionTable. |
| Crc32c.ThirtyTwoZeros | creator/ios/Pods/leveldb-library/util/crc32c.cc:276-377 | The checksum of thirty-two zero bytes is 8A9136AA, the example of section B.4 of RFC 3720. |
| Crc32c.CombineNext | creator/ios/Pods/leveldb-library/util/crc32c.cc:297-346 | One word of the four-stride loop has the effect of four bytes on the single checksum the strides stand for. |
| Crc32c.Extend | creator/ios/Pods/leveldb-library/util/crc32c.cc:276-377 | For every buffer and every alignment the four-stride form equals the byte-at-a-time one. |
| Crc32c.ExtendConcatenates | creator/ios/Pods/leveldb-library/util/crc32c.h:15-20 | Extending by two pieces is extending by their concatenation. |
| Coding.UnmaskMask | creator/ios/Pods/leveldb-library/util/crc32c.h:29-38 | Unmask inverts Mask. |
| Formats.MaskedIs | creator/ios/Pods/leveldb-library/util/crc32c.h:29-38 | The mask rotates the checksum right by 15 bits and adds a282ead8, modulo 2^32. |
| Coding.Varint64RoundTrip | creator/ios/Pods/leveldb-library/util/coding.cc:81-169 | A 64-bit varint parses back to its value and leaves what follows. |
| ByteReaders.VarintReads | creator/ios/Pods/leveldb-library/util/coding.cc:47-97 | A varint is seven bits a byte, low bits first, all bytes but the last with the high bit, and no byte too many. |
| ByteReaders.FixedBytes | creator/ios/Pods/leveldb-library/util/coding.cc:9-45 | The fixed encodings are little-endian. |
| Coding.GetVarintPtr | creator/ios/Pods/leveldb-library/util/coding.cc:112-169 | The two decoding loops yield the value modulo their width and the rest, or fail if the varint does not end in five or ten bytes. |
| PbCommon.FieldIter.Next | creator/ios/Pods/nanopb/pb_common.c:20-74 | The wrapping iterator goes through the fields and back to the first, and its index counts the required fields before it. |
| PbCommon.FieldIter.Find | creator/ios/Pods/nanopb/pb_common.c:76-95 | From any position the search goes once around and finds the field of the number exactly if there is one (in a message without fields the terminator answers to number zero); otherwise the iterator is back where it was. |
| PbCommon.AllSeen | creator/ios/Pods/nanopb/pb_decode.c:1033-1073 | The comparisons of the mask's words succeed exactly if the bit of every counted required field is set. |
| PbCommon.AllDefaultIsDefaults | creator/ios/Pods/nanopb/pb_encode.c:240-337 | A message all of whose fields count as zero is the very one a decoder starts from, so leaving it out of an encoding loses nothing. |
| PbEncode.EncodeSubmessage | creator/ios/Pods/nanopb/pb_encode.c:717-765 | The sized and then written submessage is its length and its bytes; the second pass never differs in size from the first. |
| PbEncode.EncodeArray | creator/ios/Pods/nanopb/pb_encode.c:147-236 | An array within its bounds is written packed or record by record as its type allows; a longer one is refused. |
| PbEncode.EncodeField | creator/ios/Pods/nanopb/pb_encode.c:341-428 | Each repetition rule writes its field, or leaves out the absent and the zero ones, or fails exactly where a value cannot be encoded or does not fit. |
| PbEncode.CheckDefault | creator/ios/Pods/nanopb/pb_encode.c:240-337 | The recursive check is true exactly if the field, with all of its submessage, counts as zero. |
| PbEncode.EncodeVarint | creator/ios/Pods/nanopb/pb_encode.c:608-628 | The digits of the number, least significant first, are written or counted. |
| PbEncode.EncodeSVarint | creator/ios/Pods/nanopb/pb_encode.c:630-639 | The zigzag code of the number, taken modulo 2 to the 64, is the one that maps signed numbers to unsigned ones. |
| PbEncode.Encode | creator/ios/Pods/nanopb/pb_encode.c:528-550 | Sizing or writing, it succeeds exactly if the message can be encoded and its bytes fit, and then has counted, or written, exactly these bytes. |
| PbWire.MessageSplits | creator/ios/Pods/nanopb/pb_encode.c:675-707 | A reader without the descriptor, with only the published wire types 0 varint, 1 eight bytes, 2 counted bytes, 5 four bytes, takes the encoding of every message apart, to its last byte, into exactly the records of the present fields in order: their numbers, the wire type of each data type, and the contents. |
| PbWire.PackedSplits | creator/ios/Pods/nanopb/pb_encode.c:147-206 | The bytes of a packed array are its values, one after the other, by the same wire types. |
| PbEncode.SizeThenWrite | creator/ios/Pods/nanopb/pb_encode.c:567-576 | A buffer of the size the first pass counts is filled exactly by the second, and any smaller one is too small. |
| PbStream.DecodeVarint | creator/ios/Pods/nanopb/pb_decode.c:255-275 | Reads the 64-bit varint at the front of the stream, modulo its width, or fails if it does not end within ten bytes or the stream. |
| PbStream.DecodeVarint32 | creator/ios/Pods/nanopb/pb_decode.c:187-247 | Reads back every varint of at most five bytes whose value fits 32 bits; whatever else it accepts, if the varint has at most ten bytes the result is its low 32 bits and the stream stands after it. |
| PbStream.SkipField | creator/ios/Pods/nanopb/pb_decode.c:278-331 | A field that is not known is passed over exactly: a varint to its last byte, eight bytes, four bytes, counted bytes; it fails exactly where they are not there, or for any other wire type. |
| PbStream.MakeSubstream | creator/ios/Pods/nanopb/pb_decode.c:372-385 | Where the announced bytes are all there, the substream holds exactly them and what follows them is left for later; on any bytes neither stream reaches beyond the parent's. |
| PbStream.CloseSubstream | creator/ios/Pods/nanopb/pb_decode.c:387-401 | Whatever of the substream was left is skipped, so the stream goes on after the announced bytes. |
| PbDecode.DecodePacked | creator/ios/Pods/nanopb/pb_decode.c:424-453 | A packed array decodes to its values, never past the size of its storage, and the substream is consumed whole. |
| PbDecode.DecodeSubmessage | creator/ios/Pods/nanopb/pb_decode.c:1519-1541 | From the bytes of a submessage it succeeds exactly if the counted required fields are there, gives the submessage back, and the stream goes on after it. |
| PbDecode.CheckRequired | creator/ios/Pods/nanopb/pb_decode.c:1033-1073 | Success means that each of the first sixty-four required fields is present; for a message decoded from the defaults it is the same. |
| PbDecode.DecodeStatic | creator/ios/Pods/nanopb/pb_decode.c:406-483 | Each record of a field, by its repetition rule, stores the value it encodes and leaves the rest of the stream; no store is outside the field. |
| PbDecode.DecodeNoInit | creator/ios/Pods/nanopb/pb_decode.c:928-1076 | On any bytes it ends, and success means that the first sixty-four required fields are there and everything is within its storage; from the encoding of a message it succeeds exactly if they are there in all submessages too, and gives the message back. |
| PbDecode.EncodeThenDecode | creator/ios/Pods/nanopb/pb_decode.c:1078-1090 | Encoding into a buffer succeeds exactly if the message can be encoded and fits, and every message so encoded, below four gigabytes, decodes to itself. |
| PbDecode.MissingIsNoticed | creator/ios/Pods/nanopb/pb_decode.c:1033-1073 | Leaving a required field out of an encoding is noticed exactly if fewer than sixty-four required fields come before it. |

## Findings

1. `db/version_set.cc:1403-1411`: SetupOtherInputs adds boundary files to `inputs_[0]` only. A file of `level + 1` that
   continues the user key at which `inputs_[1]` ends can stay behind, and if the inputs hold that key's tombstone, the
   base-level rule (`db/db_impl.cc:950-963`) drops it.
   - Input, `LeakExample.CompactionResurrectsDeletedKey`: put keys 0 and 1 and let them be flushed, to level 2; take a
     snapshot, delete key 1, call CompactRange, which flushes the tombstone to level 1 and merges it into level 2, with
     the outputs cut between the tombstone and the old value of key 1 (the snapshot keeps both); release the snapshot,
     overwrite key 0, call CompactRange. Key 1 reads as absent before the last compaction and as its old value after it.
   - Exact condition: the compaction keeps every live read if and only if it does not drop a tombstone, visible to the
     oldest snapshot, whose next older entry is a value in a file of the output level outside the inputs
     (`CompactionReads.CompactionPreservesReadsIff`, `Lsm.CompactReadsIff`).
   - A condition on file ranges alone: if no file of `level + 1` outside `inputs_[1]` continues the user key at which
     they end, there is no such tombstone (`Install.BoundaryClosedNeverLeaks`, and for whole runs
     `Lsm.ClosedRunIsLeakFree`).
2. `db/db_impl.cc:1280-1305`: a writer without a batch asks for a memtable switch (CompactRange does so), but behind
   another thread's Put it can be absorbed by that group and return OK although its switch was not made.
   - Exact condition, at any position behind a leader with a batch: all writers before it are in the group, and it does
     not ask for a sync that the leader does not make (`GroupCommit.NullBatchIsAbsorbedIff`, `GroupCommit.ServedIff`).
   - Over every run: of those that return OK, exactly the leaders had the switch made. What the others leave in the
     memtable includes all operations of their group (`GroupCommit.NullBatchSwitchesIffItLed`).
3. `db/version_set.cc:650-754`: a file added to a level that holds it is there twice in the live version and once after
   replaying the manifest (`VersionBuilder.ReAddedFileDiverges`). Replay and history agree at every point if and only if
   no edit does that (`VersionBuilder.ReplayEqualsHistoryIff`). This is a condition on Builder: leveldb's own edits meet
   it, since new files have fresh numbers and a moved file is not at the next level (`DbImpl.NotAlsoBelow`).
4. `db/version_edit.cc:26-39`: Clear keeps the compaction pointers, so DecodeFrom into an edit that is used again gives
   the encoded edit if and only if the old one had none (`VersionEditCodec.ReusedEditRoundTrip`). leveldb decodes into
   fresh edits.
5. `nanopb/pb_decode.c:1015-1020` and `nanopb/pb_decode.c:1051-1052`: the mask has bits for sixty-four required fields. A
   missing one is noticed if and only if fewer than sixty-four required fields come before it
   (`PbDecode.MissingIsNoticed`).
6. `nanopb/pb_common.c:76-95`: in a message without fields, the terminator answers to field number zero
   (`PbCommon.FieldIter.Find`).

## Left out

- The flush nested in a running compaction (`db/db_impl.cc:907-918`): flush and compaction are separate atomic steps.
- File system, memory mapping, threads, mutexes and weak memory: files are byte sequences, group commit interleaves at
  the points where the lock is free, the skip list at single loads and stores.
- Snappy: blocks are stored uncompressed.
- Repairer, dumping, the C interface, statistics, logging: wrappers or deliberately lossy.
- Seek-triggered compaction, scores and write throttling: heuristics that only choose; any legal choice is allowed.
- Internal keys that do not parse, and paranoid checks: entries are well formed.
- Log reading from an offset other than zero with its resync, LastRecordOffset, and an append that fails midway.
- The accelerated CRC and the literal tables of `util/crc32c.cc`: a table entry is the iterated byte step.
- The shards of the cache: one shard is modelled.
- The linked lists of handles, hash chains, versions and snapshots are sequences or multisets: the pointers between
  their nodes are not modelled. A bucket is chosen by remainder instead of by mask.
- Databases that reach kMaxSequenceNumber; `CompactionWork.DropEntry` says what the drop rules would do there.
- DbImpl.AddIterators: tables and deeper levels are cursors over their entries; that a two-level iterator over a level's
  files is such a cursor is what `TwoLevel` shows.
- Tables.TableBuilder.Add: the data block and the index block in progress are lists of entries; what is written are the
  bytes that the block builder makes of them. Appending to the file never fails.
- Tables.InternalGet: the lookup in lists of entries; `TableFile.InternalGet` is the one in bytes. The block cache is not
  between them.
- TableFile.BuildAndGet: files of four gigabytes and more, whose blocks may need more than the 32 bits of a restart offset.
- DbImpl.DBImpl.CompactLevelRange: nothing else runs between its rounds, and no error or shutdown ends them early. The ends
  of its range are user keys.
- Refs.Database.LogsToReplay: `std::sort` is insertion in order; replaying the logs, and the check that all tables are
  there, are left out.
- Refs.Database.Install: the manifest write is one step, and a version's seven level lists are one list, with the level in
  each file object. `Refs.Database.EndProtection` may come before or after it; leveldb ends the protection of a flushed
  table first, at `db/db_impl.cc:513`, and no removal runs in between.
- Refs.VersionSet.AppendVersion: the new version is referenced before the old one is let go.
- DbImpl.DBImpl.RunCompaction: an I/O error in the middle of a compaction, which leaves the version as it was.
- DbImpl.DBImpl.ApplyGroup: the sequence numbers it hands out stay below kMaxSequenceNumber.
- Blocks.BlockIter.Seek: on bytes that are no block only its end and the iterator's own consistency are stated, and a
  slice that would reach past the bytes is cut off at their end.
- GroupCommit.CommitGroup: a group holds fewer than two to the 31 operations; batches are well formed.
- nanopb callbacks, extensions, pointer fields, custom streams and pb_release: foreign calls or allocation.
- nanopb defaults other than zero, and the arithmetic of data_offset and struct layout: a message is a sequence of
  slots, and the words of the required-field mask are sets of bits.
- PbEncode.Encode: required fields have a value, as they do in memory; sizes are integers and do not wrap.
- PbDecode.EncodeThenDecode: messages of four gigabytes and more.
- PbDecode.DecodeNoInit: on bytes that no encoder wrote, which fields are set is not stated beyond type, bounds and
  required fields; over-long varints are among those bytes.
- PbStream.DecodeVarint32: which over-long varints it accepts, and what one of more than ten bytes decodes to.
