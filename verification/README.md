# A verified model of LevelDB and nanopb

The repository vendors the LevelDB storage engine (`macos/Pods/leveldb-library`) and the nanopb
encoder and decoder (`macos/Pods/nanopb`). This project models their cores in Dafny and proves what
they are for: that reads, iterators, compactions, tables, logs and recovery all agree with a plain
list of writes, and that a message that was encoded is what is decoded.

`dafny verify dfyconfig.toml` checks everything.

## What is modelled

**The store** (`DbImpl`, with `Steps`, `Layers`, `History`). The class `Db` has a memtable, an
immutable memtable, a version with seven levels of files and a list of snapshots. Its steps are
writing a batch, switching memtables, flushing, compacting automatically or by hand, and taking and
releasing snapshots. The ghost history `ops` is the list of all writes. The invariant `Valid`
holds over every run of these steps: levels are sorted and disjoint, upper levels are newer than
lower ones for each user key, and the layers read like the history. `Get` and `NewIterator` are
proved against the history.

**Compaction** (`Files`, `Inputs`, `Picking`, `Compact`, `CompactionWork`, `Install`, `Preserve`,
`Placement`). The searches, the fixed-point loops that choose inputs, the level pointers, the drop
rule, the scan of the grandparents that cuts the output and the installation of the result are
methods with loops, each proved against a declarative specification.

One property that the engine relies on does not hold in general. `SetupOtherInputs` adds boundary
files at the compacted level but not at the next one, so a deletion may be dropped while an older
value of its key starts the next file there. `Preserve.CompactionPreservesReadsIff` gives the exact
condition, for all versions, plans and snapshots; `Resurrection` gives a version that meets it, and
`UncoveringRun` a run of flushes and merges from the empty store, placed and cut as the sizes of its
tables ask for it, that ends with a deleted key being read again. The store keeps a ghost flag
`intact` that turns false exactly when a merge meets the condition, and the read theorems are stated
for stores that are intact.

**Iterators** (`Merging`, `DbIter`, `Runs`, `Snapshots`). `MergingIterator` and `DBIter` are
classes whose methods move child cursors in place and switch direction. Each is proved to be a
cursor over one abstract sequence: the sorted union of the children, and the map that is visible at
a sequence number.

**Versions and the manifest** (`Versions`, `VersionBuilder`, `Edits`, `Replay`, `VersionEdits`,
`Manifests`, `VersionSets`). Point lookups through the levels, the builder that applies edits, and
the proof that replaying all edits through one builder rebuilds the current version as long as no
file number returns to its level. Edits are encoded to and decoded from the bytes of log records; a
manifest that is cut off at any byte recovers the version of the edits whose records are complete.

**Logs and recovery** (`Coding`, `Log`, `LogWriter`, `LogFragments`, `LogRecords`, `LogReader`,
`LogCuts`, `LogDamage`, `WriteBatches`, `Recovery`, `Crash`, `WriteQueue`, `Durability`,
`Reopening`). A file is a sequence of bytes, a crash leaves any prefix of it. Writer, reader, batch iteration and recovery
loop are methods that are total on arbitrary bytes and equal to specification functions; about those
functions the round trips and crash atomicity are proved, and in `LogDamage` what is read, reported
and left alone when a log is damaged in any way. `WriteQueue.Queue` connects them with
concurrent writers: its steps may interleave in any order that the code's mutex allows. `Durability`
and `Reopening` join both files with the store: whatever run has led to it, a store whose manifest
and log were cut anywhere reads like a prefix of everything that was written.

**Tables** (`Blocks`, `BlockBuilders`, `BlockIters`, `Separators`, `FilterBlocks`, `Bloom`, `Tables`,
`TableFormat`, `TableImages`, `TableBuilders`, `TableReaders`, `TableFiles`, `TwoLevel`,
`TableIterators`). A table is proved on its bytes, from the builder that writes blocks, filters,
index and footer to the lookup that opens the file, decodes handles and searches index and block: it
finds what a lookup in the sorted rows finds. `TwoLevel` iterates over the rows of any blocks, empty
ones included; `TableIterators` does so over the bytes of a file.

On bytes that no builder wrote, an iterator of a block may read outside it: the check of an entry
adds two lengths in 32 bits. `Blocks.LeavesExactly` says which entries do, `BlockIters` follows the
iterator up to the first of them, and `BlockIters.SmallBlockLeaves` shows a block of sixteen bytes.
Likewise a handle of the greatest sizes makes `ReadBlock` look outside what it has read;
`TableFormat.OutsideExactly` says which, and `TableReaders.SmallFileLeaves` shows a file.

**Fast structures** (`SkipLists`, `HandleTables`, `LruLists`, `LruStates`, `LruRuns`, `LruCaches`,
`Crc32c`).
The skip list is proved at every step of its bottom-up insertion, with readers searching in
between. The cache is a hash table, two intrusive lists and reference counts, each with its links
as they are in memory, and it follows a small model of what it holds and drops; `LruRuns` ties that
to the calls of a whole run. The interleaved
CRC32C computes what the loop over single bytes does, and is a checksum as the log format takes it
(`CrcLogs`). The tables of CRC32C are given by what they contain; `CrcValues` has known values.

**nanopb** (`PbMessages`, `PbEncoding`, `PbEncoder`, `PbDecoding`, `PbDecoder`, `PbViews`,
`PbRoundTrip`, `PbResults`, `PbConcat`).
Descriptions of messages are recursive data, messages are values of them. The encoder's streams
write or only count, and the two agree; the decoder finds fields with the wrapping iterator and
checks required fields with the words of a bit mask. Decoding undoes encoding for every
description, and with another description it gives what that one shows of the message.

**Keys** (`Keys`, `ByteKeys`). The engine touches a user key only by copying it and by comparing
it, so the store represents a user key by its rank in the comparator's order;
`ByteKeys.RankPreservesOrder` justifies that for the bytewise comparator. The log and the batches
work on the bytes themselves.

Where the code and the comments in the repository disagree, the model follows the code. Two
cases are visible in the theorems: the boundary files above, and physical records whose type byte
is 5 or 6, which the reader takes for its own end-of-file and bad-record codes.

## Model

| member | source | states |
|---|---|---|
| `Keys.LessByTrailer` | macos/Pods/leveldb-library/db/dbformat.cc:47-65 | internal keys of one user key are ordered by their packed trailers, newest first: the order by parts is the order the comparator computes |
| `Keys.SeekFindsNewest` | macos/Pods/leveldb-library/db/memtable.cc:102-136 | a seek to (key, snapshot) in a sorted run stops at the newest entry that the snapshot may see, and at another user key only when there is none |
| `Keys.AnswerIsUnique` | macos/Pods/leveldb-library/db/version_set.cc:263-276 | what a read returns is determined by the entries alone |
| `ByteKeys.Compare` | macos/Pods/leveldb-library/util/comparator.cc:24-26 | comparing after the common prefix, then by length, is the lexicographic order of byte strings |
| `ByteKeys.RankPreservesOrder` | macos/Pods/leveldb-library/util/comparator.cc:24-26 | among finitely many byte strings the number of smaller ones orders them as the comparator does, so a rank may stand for a user key |
| `Files.FindFile` | macos/Pods/leveldb-library/db/version_set.cc:88-106 | the binary search returns the first file whose largest key is at or after the key |
| `Files.SomeFileOverlapsRange` | macos/Pods/leveldb-library/db/version_set.cc:122-160 | both the linear and the binary search answer whether some file meets the range, with open ends, and with ends in the wrong order too |
| `Files.GetOverlappingInputs` | macos/Pods/leveldb-library/db/version_set.cc:519-559 | the restarting scan ends and returns exactly the files that meet the range; at level 0 the range is first widened to its closure |
| `Files.ClosureIsUnique` | macos/Pods/leveldb-library/db/version_set.cc:540-556 | that closure is the only range that is closed under overlapping files and that every closed range around the start must contain |
| `Versions.Get` | macos/Pods/leveldb-library/db/version_set.cc:282-421 | newest file first at level 0, one searched file at each deeper level, first hit decides: the answer is that of all entries of the version |
| `Versions.Level0ToSearch` | macos/Pods/leveldb-library/db/version_set.cc:286-301 | the files of level 0 that may hold the key, newest first, and nothing else is lost |
| `Versions.LevelToSearch` | macos/Pods/leveldb-library/db/version_set.cc:303-322 | one binary-searched file of a deeper level suffices |
| `Versions.HitDecides` | macos/Pods/leveldb-library/db/version_set.cc:326-421 | a hit is newer than everything visible in the files that were not looked at |
| `Inputs.AddBoundaryInputs` | macos/Pods/leveldb-library/db/version_set.cc:1378-1401 | the loop that extends the inputs ends with the declarative extension of them |
| `Inputs.NoBoundaryLeft` | macos/Pods/leveldb-library/db/version_set.cc:1359-1377 | after it no file left out starts with the user key at which the inputs end |
| `Inputs.BoundaryOfRun` | macos/Pods/leveldb-library/db/version_set.cc:1378-1401 | on a sorted level a run becomes a longer run: each file that is added starts with the user key at which the one before ends, and the next file does not |
| `Inputs.MeetingIsRun` | macos/Pods/leveldb-library/db/version_set.cc:519-559 | in a sorted level the files that meet a range are consecutive |
| `Picking.SetupOtherInputs` | macos/Pods/leveldb-library/db/version_set.cc:1403-1462 | boundary files, next-level inputs and the optional growth of the inputs are exactly the specified plan, and for every pickable start that plan has grown exactly when it may |
| `Picking.SetupIsClosed` | macos/Pods/leveldb-library/db/version_set.cc:1403-1462 | whatever was picked, the plan is closed: no older entry of an input key is left behind at the level, and the next-level inputs are exactly the files that meet the hull, after growing too |
| `Picking.SetupGrowsExactly` | macos/Pods/leveldb-library/db/version_set.cc:1403-1462 | the next-level inputs are the files that meet the hull of what was picked with its boundary files, so growing adds none; the base is all files of the level that meet the hull of both, with their boundary files, if some next-level file is an input, the bytes stay below 25 times the file size and no further next-level file meets them, and otherwise just what was picked; the grandparents are the files that meet the hull of all inputs |
| `Compact.Compaction.IsBaseLevelForKey` | macos/Pods/leveldb-library/db/version_set.cc:1533-1552 | for user keys asked in order, the moving level pointers answer whether a deeper level has a file around the key |
| `Compact.Compaction.ShouldStopBefore` | macos/Pods/leveldb-library/db/version_set.cc:1554-1577 | the scan of the grandparents moves past exactly the files below the key and asks for a new output when those passed since the last time have too many bytes; in terms of keys this is `CompactionWork.StopsExactly` |
| `Compact.DropEntry` | macos/Pods/leveldb-library/db/db_impl.cc:947-983 | the scan that remembers one user key and one sequence number drops an entry exactly when it is hidden at the smallest snapshot or an obsolete deletion |
| `Compact.KeptIsLean` | macos/Pods/leveldb-library/db/db_impl.cc:947-983 | of what the smallest snapshot sees of a key a merge keeps one entry at most: whatever is kept behind another entry of its key lies behind one with a later sequence number than that snapshot |
| `Compact.NoneObsolete` | macos/Pods/leveldb-library/db/db_impl.cc:947-983 | no deletion is kept that every reader sees and that has nothing left to delete in deeper levels |
| `CompactionWork.DoCompactionWork` | macos/Pods/leveldb-library/db/db_impl.cc:890-1041 | the tables written are exactly those of the specification, which cuts the entries that the drop rule keeps where the grandparents or the size of the file ask for it, and nowhere else |
| `CompactionWork.TablesHoldKept` | macos/Pods/leveldb-library/db/db_impl.cc:944-1017 | wherever the output is cut, the tables together hold the entries that the drop rule keeps, in order |
| `CompactionWork.OutputsAreBounded` | macos/Pods/leveldb-library/db/version_set.cc:1554-1577 | no output passes more bytes of the grandparents than the limit between its first and its last key, and none had reached the output size before its last entry |
| `CompactionWork.StopsExactly` | macos/Pods/leveldb-library/db/version_set.cc:1554-1577 | the scan stops before a key exactly when the grandparents that end between the key of the last stop, or the first key of all, and this key have more bytes than the limit |
| `CompactionWork.OutputsEndForCause` | macos/Pods/leveldb-library/db/db_impl.cc:944-1017 | an output ends before the next one begins only if it has reached the output size or the scan stops between its last key and the first key of the next |
| `CompactionWork.SpannedAre` | macos/Pods/leveldb-library/db/version_set.cc:1554-1577 | the grandparents that count there are those that end at or after the first key and before the last, so an output overlaps at most one file more |
| `Install.InstallKeepsOrder` | macos/Pods/leveldb-library/db/db_impl.cc:860-876 | after a merge is installed every level stays sorted and disjoint, and upper levels stay newer key by key |
| `Placement.PickLevelForMemTableOutput` | macos/Pods/leveldb-library/db/version_set.cc:491-516 | the level is the deepest one up to 2 reached without overlap and without too many bytes two levels down |
| `Placement.AddKeepsOrder` | macos/Pods/leveldb-library/db/db_impl.cc:516-527 | a table whose entries are newer than the version may be put there: all level invariants stay |
| `Placement.MoveKeepsOrder` | macos/Pods/leveldb-library/db/db_impl.cc:718-728 | a trivial move keeps all level invariants and the set of entries |
| `Preserve.ReadsArePreserved` | macos/Pods/leveldb-library/db/db_impl.cc:878-1041 | a merging compaction changes no read at or after the smallest snapshot, if it uncovers no value |
| `Preserve.CompactionPreservesReadsIff` | macos/Pods/leveldb-library/db/db_impl.cc:878-1041 | and it changes one if it does: reads are preserved exactly when no value at the start of the following next-level file is uncovered by a dropped deletion |
| `Resurrection.OrdinaryCompactionResurrects` | macos/Pods/leveldb-library/db/version_set.cc:1403-1462 | a version in order whose ordinary compaction, for any file size limit and any sizes of its tables, brings a deleted key back |
| `UncoveringRun.RunUncovers` | macos/Pods/leveldb-library/db/version_set.cc:1403-1462 | a run from the empty store gets there, for every file size limit and all sizes with which the table of its first merge is full at its second entry and not before: each flush is placed and each merge cut as the code does it, and after the last one a deleted key is read again |
| `VersionBuilder.Builder.SaveTo` | macos/Pods/leveldb-library/db/version_set.cc:706-752 | the three-way merge of base files, added files and deletions yields, level by level, the specified files |
| `VersionBuilder.Builder.Apply` | macos/Pods/leveldb-library/db/version_set.cc:650-704 | an edit's deletions and additions take effect on the builder's level states; its compaction pointers are taken by `VersionSets.VersionSet.LogAndApply` |
| `Edits.LogAndApply` | macos/Pods/leveldb-library/db/version_set.cc:801-884 | the levels of the next version have the old files less the deleted ones plus the added ones; the log record and the counters are in `VersionSets` |
| `Edits.CompactionEditInstalls` | macos/Pods/leveldb-library/db/db_impl.cc:860-876 | the edit of a compaction removes its inputs and adds its outputs, nothing else |
| `Replay.RecoverRebuilds` | macos/Pods/leveldb-library/db/version_set.cc:924-1000 | one builder fed with the snapshot and all later edits rebuilds the levels that a builder for each edit made |
| `Replay.OneMoreEdit` | macos/Pods/leveldb-library/db/version_set.cc:801-884 | applying an edit to the builder's state or to the saved level is the same, when file numbers are not used again |
| `Replay.ReusedNumberDuplicates` | macos/Pods/leveldb-library/db/version_set.cc:650-704 | with a file number that returns to its level the two differ: the single builder saves the file twice |
| `Merging.MergingIterator.Next` | macos/Pods/leveldb-library/table/merger.cc:55-79 | the merged cursor moves to the next entry of the sorted union, also after a change of direction |
| `Merging.MergingIterator.Prev` | macos/Pods/leveldb-library/table/merger.cc:81-108 | the merged cursor moves to the previous entry, also after a change of direction |
| `Merging.MergingIterator.Seek` | macos/Pods/leveldb-library/table/merger.cc:47-53 | the merged cursor stops at the first entry of the union at or after the target |
| `Merging.MergingIterator.FindSmallest` | macos/Pods/leveldb-library/table/merger.cc:148-161 | the least of the children's current entries is the entry of the union at the cut |
| `Merging.CutIsUnique` | macos/Pods/leveldb-library/table/merger.cc:131-176 | a child's position is determined by the position in the union |
| `Runs.NewMergingIterator` | macos/Pods/leveldb-library/table/merger.cc:180-191 | over any number of disjoint sorted runs the iterator is a cursor over their sorted union |
| `DbIter.DBIter.Next` | macos/Pods/leveldb-library/db/db_iter.cc:141-166 | from any state, reversals included, the next key of the visible map is shown with its value, or the end is reached |
| `DbIter.DBIter.Prev` | macos/Pods/leveldb-library/db/db_iter.cc:200-225 | the same for the previous key |
| `DbIter.DBIter.Seek` | macos/Pods/leveldb-library/db/db_iter.cc:269-281 | the first key at or after the target that the sequence number sees as a value |
| `DbIter.DBIter.SeekToFirst` | macos/Pods/leveldb-library/db/db_iter.cc:283-292 | the first such key |
| `DbIter.DBIter.SeekToLast` | macos/Pods/leveldb-library/db/db_iter.cc:294-299 | the last such key |
| `DbIter.DBIter.FindNextUserEntry` | macos/Pods/leveldb-library/db/db_iter.cc:168-198 | the forward scan stops at the least key that is still to come, past deletions and entries that are too new |
| `DbIter.DBIter.FindPrevUserEntry` | macos/Pods/leveldb-library/db/db_iter.cc:227-267 | the backward scan ends one key further back with the newest visible value saved |
| `DbIter.DBIter.ShowsTheMap` | macos/Pods/leveldb-library/db/db_iter.cc:60-110 | key and value of a valid iterator are a pair of the visible map |
| `Snapshots.ShownIsRead` | macos/Pods/leveldb-library/db/db_iter.cc:168-198 | what the iterator shows for a key is what a point read at its sequence number returns |
| `Snapshots.LaterWritesUnseen` | macos/Pods/leveldb-library/db/db_iter.cc:168-198 | what is written to the memtable after an iterator was made does not change the map that it shows |
| `History.AnswersLatest` | macos/Pods/leveldb-library/db/write_batch.cc:118-130 | reading the numbered entries of all writes at a sequence number is reading the first so many writes |
| `Layers.ReplaceOldest` | macos/Pods/leveldb-library/db/db_impl.cc:1062-1087 | replacing the oldest layer by one that answers alike leaves all reads alike |
| `DbImpl.Db.Get` | macos/Pods/leveldb-library/db/db_impl.cc:1100-1145 | over every run of writes, flushes, moves and merges that uncovered nothing, a read at the present or at a live snapshot returns the last write to the key that it covers |
| `DbImpl.Db.NewIterator` | macos/Pods/leveldb-library/db/db_impl.cc:1147-1157 | the iterator it makes, over the entries of that moment, ranges over exactly the keys and values of that history |
| `DbImpl.Db.Write` | macos/Pods/leveldb-library/db/db_impl.cc:1202-1222 | a batch gets consecutive sequence numbers, is applied to the memtable and extends the history by its operations |
| `DbImpl.Db.CompactMemTable` | macos/Pods/leveldb-library/db/db_impl.cc:545-580 | the flush leaves the set of all entries as it was and puts the table at the placement level |
| `DbImpl.Db.BackgroundCompaction` | macos/Pods/leveldb-library/db/db_impl.cc:682-760 | any automatic compaction, from any file of any level, is carried out as a move or as a merge for the smallest live snapshot, its output cut where sizes and grandparents ask for it, and keeps the invariants |
| `DbImpl.Db.CompactRange` | macos/Pods/leveldb-library/db/version_set.cc:1464-1495 | a round of a manual compaction likewise, its inputs limited by size below level 0 |
| `Steps.TakesEnough` | macos/Pods/leveldb-library/db/version_set.cc:1474-1489 | the inputs of a manual compaction are the first files of the range, all of them or as many as it takes to reach the limit, and no more |
| `DbImpl.Db.ServesHistory` | macos/Pods/leveldb-library/db/db_impl.cc:1100-1145 | at a servable sequence number the entries answer a value exactly when it is the latest of the covered writes |
| `Durability.FlushIsDurable` | macos/Pods/leveldb-library/db/db_impl.cc:545-580 | a version that reads like the writes that it covers does so, for those and the flushed ones, after a flush |
| `Durability.MergeIsDurable` | macos/Pods/leveldb-library/db/db_impl.cc:878-1041 | and after every merge that changes no read |
| `Coding.Varint32RoundTrip` | macos/Pods/leveldb-library/util/coding.cc:21-47 | decoding an encoded 32-bit varint gives the number and leaves the rest of the input |
| `Coding.EncodeVarint32IsVarint` | macos/Pods/leveldb-library/util/coding.cc:21-47 | the encoder by cases is base 128, low bits first |
| `Coding.LengthPrefixedRoundTrip` | macos/Pods/leveldb-library/util/coding.cc:69-72 | a length-prefixed string is read back, with the rest of the input |
| `Coding.FixedRoundTrip` | macos/Pods/leveldb-library/util/coding.h:48-100 | fixed-width numbers are read back |
| `Log.ExtendConcat` | macos/Pods/leveldb-library/db/log_writer.cc:92-96 | extending the stored checksum of the type byte is the checksum of type and payload |
| `Log.UnmaskMask` | macos/Pods/leveldb-library/util/crc32c.h:27-38 | unmasking undoes masking |
| `Log.StreamAppend` | macos/Pods/leveldb-library/db/log_writer.cc:20-24 | what a record adds to a log depends on its length only, so a writer opened again at the file's length goes on with the same bytes |
| `LogWriter.Writer.AddRecord` | macos/Pods/leveldb-library/db/log_writer.cc:34-80 | the record goes out as full, or first, middle and last fragments that fit the blocks, with zero trailers |
| `LogWriter.Writer.EmitPhysicalRecord` | macos/Pods/leveldb-library/db/log_writer.cc:82-108 | checksum, length and type precede the payload |
| `LogReader.Reader.ReadRecord` | macos/Pods/leveldb-library/db/log_reader.cc:56-174 | on any file at all, read from its start, the record, the position and the reported drops are those of the specification |
| `LogReader.Reader.ReadPhysicalRecord` | macos/Pods/leveldb-library/db/log_reader.cc:189-271 | on any file, read from its start, the next fragment is that of the specification, its bad and end codes included |
| `LogFragments.ReadsFragment` | macos/Pods/leveldb-library/db/log_reader.cc:189-271 | a fragment that was written is read back after its padding, or the file ends inside it |
| `LogRecords.ParsedIsRecord` | macos/Pods/leveldb-library/db/log_reader.cc:56-174 | the fragments of a record are put together, over any number of blocks |
| `LogCuts.CutLogReads` | macos/Pods/leveldb-library/db/log_reader.cc:56-174 | a log cut off at any byte reads as exactly the records that are complete, in order, with no corruption report |
| `LogDamage.ReadsWholeRecords` | macos/Pods/leveldb-library/db/log_reader.cc:56-174 | whatever the bytes of the file, the records that are read are exactly those that stand whole among its fragments, in order: one full fragment, or a first one, middle ones and a last one that follow each other |
| `LogDamage.FragmentsAreGenuine` | macos/Pods/leveldb-library/db/log_reader.cc:189-268 | every fragment with a payload stands in the file with its length and under its own checksum |
| `LogDamage.BytesAreAccountedFor` | macos/Pods/leveldb-library/db/log_reader.cc:56-174 | every byte of the fragments is in a record or in a report, but for an unfinished record at the end and for payloads with the type byte 6 |
| `LogDamage.DamageStaysInBlock` | macos/Pods/leveldb-library/db/log_reader.cc:189-215 | two files that are alike from the end of some block on give the same records from there on, whatever stands before it, when the reader gets there |
| `LogDamage.ReachesUnlessEnd` | macos/Pods/leveldb-library/db/log_reader.cc:216-268 | it gets to the end of every full block, unless a fragment under its own checksum has the type byte 5 |
| `WriteBatches.RepRoundTrip` | macos/Pods/leveldb-library/db/write_batch.cc:42-95 | the bytes of a batch give back its sequence number, count and updates |
| `WriteBatches.Iterate` | macos/Pods/leveldb-library/db/write_batch.cc:42-80 | on any bytes the handler gets the updates before the first error, and the status tells whether there was one |
| `WriteBatches.DamageIsNoticed` | macos/Pods/leveldb-library/db/write_batch.cc:42-80 | a wrong count, or a byte behind the updates that begins none, is an error, and all updates have gone to the handler by then |
| `WriteBatches.WriteBatch.Append` | macos/Pods/leveldb-library/db/write_batch.cc:144-148 | appending a batch concatenates the updates, count included |
| `Recovery.RecoverLogFile` | macos/Pods/leveldb-library/db/db_impl.cc:412-485 | on any file, with and without paranoid checks, the tables together hold what the specification adds, record by record, and status, sequence number and reports agree, with sequence numbers kept whole |
| `Recovery.ParanoidFailsExactly` | macos/Pods/leveldb-library/db/db_impl.cc:392-485 | on any file paranoid checks fail exactly when something was dropped or a batch was damaged, and change nothing otherwise; without them recovery never fails |
| `Crash.CrashKeepsPrefix` | macos/Pods/leveldb-library/db/db_impl.cc:412-485 | a log of write groups cut off at any byte recovers to exactly the updates of a prefix of the groups, under their sequence numbers, never part of a group; the largest sequence number is the last of that prefix |
| `Reopening.CrashedStoreReads` | macos/Pods/leveldb-library/db/db_impl.cc:281-369 | manifest and log both cut off at any byte: recovery, which counts sequence numbers from the manifest and from the log as the code does, makes a version and memtables that answer each key with the last write among those that the version covers and whole groups of the log |
| `Reopening.StoreSurvives` | macos/Pods/leveldb-library/db/db_impl.cc:281-369 | in every reachable state of an intact store and for each version that it ever had: with that version in the manifest and the later writes in the log, cut anywhere, the store that is opened again reads like a prefix of its history that has all that the version covers |
| `WriteQueue.BuildBatchGroup` | macos/Pods/leveldb-library/db/db_impl.cc:1260-1306 | the group is the longest front of the queue that may join, its batches concatenated in order, and no caller's batch is changed; several batches take 1048576 bytes at most, and at most 131072 more than the leader when that brings no more itself; who is left out brings a sync that the leader does not have or would pass these bounds |
| `WriteQueue.GroupIsInBounds` | macos/Pods/leveldb-library/db/db_impl.cc:1266-1300 | these bounds in numbers, for every queue, and one batch for the group is no larger than its batches together |
| `WriteQueue.Queue.StartWrite` | macos/Pods/leveldb-library/db/db_impl.cc:1201-1232 | a group is logged as one record, which succeeds, and applied under the next sequence numbers, unseen by readers |
| `WriteQueue.Queue.FinishWrite` | macos/Pods/leveldb-library/db/db_impl.cc:1236-1254 | the whole group becomes visible at once, and exactly its writers are released, each once and in order |
| `WriteQueue.Queue.ReadersSeeGroups` | macos/Pods/leveldb-library/db/db_impl.cc:1100-1110 | a reader at the last sequence number sees the updates of the released writers in queue order, and nothing of a group in progress |
| `WriteQueue.Queue.SurvivesCrash` | macos/Pods/leveldb-library/db/db_impl.cc:412-485 | at every moment of every run, the log cut off anywhere recovers to a prefix of the groups, and uncut to all of them |
| `VersionEdits.RoundTrip` | macos/Pods/leveldb-library/db/version_edit.cc:41-205 | decoding an encoded edit gives every field, list and level of it back, on top of the compaction pointers that the object had, which are not cleared |
| `VersionEdits.VersionEdit.EncodeTo` | macos/Pods/leveldb-library/db/version_edit.cc:41-85 | the fields that are set and then the lists are appended as the specification says |
| `VersionEdits.VersionEdit.DecodeFrom` | macos/Pods/leveldb-library/db/version_edit.cc:109-205 | on any bytes, what is read up to the end or to the first malformed tag |
| `Manifests.CutManifestRecovers` | macos/Pods/leveldb-library/db/version_set.cc:891-1000 | a manifest cut off at any byte recovers to the version of exactly the edits whose records are complete, with the counters of the last; without any edit after the snapshot it fails |
| `Manifests.ManifestIsGathered` | macos/Pods/leveldb-library/db/version_set.cc:1088-1116 | the snapshot and the edits, decoded from their records and fed to one builder, make the version that the edits made one by one |
| `VersionSets.VersionSet.LogAndApply` | macos/Pods/leveldb-library/db/version_set.cc:801-884 | at every moment of every run the manifest holds the records of the snapshot and of all edits, and these make the current version and the compaction pointers, those of the edit at hand being part of the snapshot |
| `VersionSets.VersionSet.Recover` | macos/Pods/leveldb-library/db/version_set.cc:891-1000 | on any file whose bounds of tables have the eight bytes of an internal key, the version, the counters and the compaction pointers are those of the specification; when it fails, the version, the sequence number and the log numbers stay, the pointers are taken over, and the log numbers count as used where only counters are missing; the set is valid afterwards exactly when the version can be listed |
| `VersionSets.VersionSet.constructor` | macos/Pods/leveldb-library/db/version_set.cc:757-774 | a new set has an empty version, no pointers and no manifest, and is valid |
| `VersionSets.MadeIsListable` | macos/Pods/leveldb-library/db/version_set.cc:891-1000 | what edits have made can be listed, so that a set that has recovered a manifest of its own goes on |
| `VersionSets.MadeIsRecovered` | macos/Pods/leveldb-library/db/version_set.cc:891-1000 | the manifest of a version set recovers its current version, its counters and its compaction pointers |
| `BlockBuilders.BlockBuilder.Add` | macos/Pods/leveldb-library/table/block_builder.cc:72-106 | the entry is stored with the longest prefix that its key shares with the key before it, or with its whole key at a restart point when the interval is over |
| `BlockBuilders.BlockBuilder.Finish` | macos/Pods/leveldb-library/table/block_builder.cc:62-70 | the block holds exactly the entries that were added, with its restart points behind them |
| `Blocks.DecodeEncoded` | macos/Pods/leveldb-library/table/block.cc:54-74 | an encoded entry decodes to its lengths, its key suffix and its value, through the short cut for single bytes too |
| `Blocks.LeavesExactly` | macos/Pods/leveldb-library/table/block.cc:54-74 | in a region of less than 4 GB, an entry that passes the check leaves the region exactly when the sum of its two lengths does not fit in 32 bits |
| `Blocks.SmallEntryLeaves` | macos/Pods/leveldb-library/table/block.cc:54-74 | eight bytes that pass the check with a key of four gigabytes |
| `BlockIters.BlockIter.EntriesStayExactly` | macos/Pods/leveldb-library/table/block.cc:54-74 | so no entry leaves a block exactly when no sum of lengths wraps, wherever the decoding begins |
| `BlockIters.SmallBlockLeaves` | macos/Pods/leveldb-library/table/block.cc:224-251 | a block of sixteen bytes whose iterator reads outside at once |
| `BlockIters.BlockIter.Next` | macos/Pods/leveldb-library/table/block.cc:137-140 | from an entry to the one after it, whole key and value |
| `BlockIters.BlockIter.Prev` | macos/Pods/leveldb-library/table/block.cc:142-161 | from an entry to the one before it, from any position that any run leads to: it undoes a step forward |
| `BlockIters.BlockIter.Seek` | macos/Pods/leveldb-library/table/block.cc:163-201 | the binary search over restart points and the scan stop at the first entry not before the target; on any block whose entries stay inside, so does the search |
| `BlockIters.BlockIter.ParseNextKey` | macos/Pods/leveldb-library/table/block.cc:224-251 | the next entry is read on top of the key before it; on any bytes it reads outside the block exactly when that entry passes the check and leaves the block |
| `BlockIters.NewIterator` | macos/Pods/leveldb-library/table/block.cc:254-264 | a finished block gets an iterator over the entries it was built from |
| `Separators.ShortestSeparator` | macos/Pods/leveldb-library/util/comparator.cc:29-50 | what comes out is the start itself or, exactly when the first bytes that differ leave room, a string strictly between that ends there |
| `Separators.FindShortestSeparator` | macos/Pods/leveldb-library/db/dbformat.cc:69-86 | the internal key is the last key of a block, or one with a user key strictly between, exactly when that is shorter |
| `Separators.FindShortSuccessor` | macos/Pods/leveldb-library/db/dbformat.cc:88-101 | the internal key is the last key or, exactly when a byte can be raised that is not its last, one of a greater user key |
| `TwoLevel.TwoLevelIterator.Seek` | macos/Pods/leveldb-library/table/two_level_iterator.cc:82-87 | the first row at or after the target among all rows of all blocks, past empty blocks |
| `TwoLevel.TwoLevelIterator.Next` | macos/Pods/leveldb-library/table/two_level_iterator.cc:103-107 | the next row, whatever number of empty blocks lies between |
| `TwoLevel.TwoLevelIterator.Prev` | macos/Pods/leveldb-library/table/two_level_iterator.cc:109-113 | the row before, likewise |
| `TwoLevel.SoughtBlock` | macos/Pods/leveldb-library/table/two_level_iterator.cc:82-87 | the block that the index finds holds the place of the target |
| `TwoLevel.TwoLevelIterator.ShowsTheRow` | macos/Pods/leveldb-library/table/two_level_iterator.cc:31-39 | what the iterator shows is the row of its place |
| `TableIterators.TableIterator.Seek` | macos/Pods/leveldb-library/table/two_level_iterator.cc:82-87 | the same on the bytes of a finished file: index and blocks are read, checked and searched, and the iterator stops at the first row at or after the target |
| `TableIterators.TableIterator.Next` | macos/Pods/leveldb-library/table/two_level_iterator.cc:103-107 | the next row in the bytes of the file |
| `TableIterators.TableIterator.Prev` | macos/Pods/leveldb-library/table/two_level_iterator.cc:109-113 | the row before |
| `TableIterators.TableIterator.SeekToLast` | macos/Pods/leveldb-library/table/two_level_iterator.cc:96-101 | the last row |
| `TableIterators.TableIterator.ShowsTheRow` | macos/Pods/leveldb-library/table/two_level_iterator.cc:31-39 | key and value that it shows are the bytes of that row |
| `TableIterators.HandlesDiffer` | macos/Pods/leveldb-library/table/two_level_iterator.cc:147-163 | an open block may be kept when the index value is the same, because no two blocks have the same handle |
| `FilterBlocks.FilterBlockBuilder.StartBlock` | macos/Pods/leveldb-library/table/filter_block.cc:21-27 | keys stay with the window of their block's offset |
| `FilterBlocks.AddedMayMatch` | macos/Pods/leveldb-library/table/filter_block.cc:90-104 | a finished filter block excludes no key from the block that it was added for |
| `FilterBlocks.BuiltMatchesExactly` | macos/Pods/leveldb-library/table/filter_block.cc:90-104 | and for any key and offset it answers what the filter of that window answers; behind all windows everything may match |
| `Bloom.NoFalseNegatives` | macos/Pods/leveldb-library/util/bloom.cc:56-80 | a key that a filter was made from matches it |
| `Bloom.MatchesExactly` | macos/Pods/leveldb-library/util/bloom.cc:28-80 | a filter matches a key exactly when each of its probes is a probe of some key that the filter was made from |
| `Bloom.ProbesAre` | macos/Pods/leveldb-library/util/bloom.cc:44-53 | the probes are the hash and multiples of the turned hash in 32 bits, modulo the number of bits |
| `Bloom.DeltaTurnsBack` | macos/Pods/leveldb-library/util/bloom.cc:48-48 | turning the turned hash back by 17 bits gives the hash |
| `Bloom.CreateFilter` | macos/Pods/leveldb-library/util/bloom.cc:28-54 | the bits set in the array are those of the keys' probes |
| `Bloom.KeyMayMatch` | macos/Pods/leveldb-library/util/bloom.cc:56-80 | the answer is whether all probed bits are on |
| `Bloom.FilterBlockAdmits` | macos/Pods/leveldb-library/table/filter_block.cc:90-104 | a filter block made of Bloom filters excludes no key from the block that it was added for |
| `Bloom.IsPolicy` | macos/Pods/leveldb-library/util/bloom.cc:15-80 | Bloom filters are such a policy |
| `Bloom.FiltersAreLinear` | macos/Pods/leveldb-library/util/bloom.cc:28-54 | a Bloom filter takes a bounded number of bytes for each key |
| `Bloom.FiltersGrow` | macos/Pods/leveldb-library/util/bloom.cc:28-42 | a filter has at least 64 bits and at least as many as are asked for its keys, and fewer than eight more than that |
| `TableBuilders.TableBuilder.Add` | macos/Pods/leveldb-library/table/table_builder.cc:94-123 | a row goes to the block in the making, which is written exactly when its size has then reached the block size; blocks in the file have their type and checksum, and a separator is chosen when the row behind its block is known |
| `TableBuilders.TableBuilder.Finish` | macos/Pods/leveldb-library/table/table_builder.cc:198-253 | the file has the blocks, the filters, the block that names them, the index and the footer, the table in it is built from exactly the rows that were added, and it is no longer than these ask for |
| `Tables.BuiltIsSeparated` | macos/Pods/leveldb-library/table/table.cc:210-214 | the index of a built table leads through exactly the rows that were added, so the two-level iterator is a cursor over them |
| `TableReaders.InternalGet` | macos/Pods/leveldb-library/table/table.cc:216-244 | on the bytes of the file the first row at or after the key is handed on; nothing is, only if that row is of another user key, despite shortened separators, compression and filters |
| `TableReaders.Open` | macos/Pods/leveldb-library/table/table.cc:38-132 | a finished file opens with its index, and with its filters exactly when the policy of the reader has the name under which they are stored; on any bytes it fails exactly without a footer or with an index block whose damage is found |
| `TableReaders.SmallFileLeaves` | macos/Pods/leveldb-library/table/table.cc:38-82 | forty-eight bytes, the footer alone, for which opening reads outside what was read from the file |
| `TableReaders.IndexAscends` | macos/Pods/leveldb-library/table/table_builder.cc:94-123 | the shortened keys of the index are in order themselves, so that the index block can be searched |
| `TableFiles.BuildAndGet` | macos/Pods/leveldb-library/table/table.cc:216-244 | whatever the rows, the block size, the restart interval, the compression and the filters: if the file has less than 4 GB, what is looked up in it is what a lookup in the rows finds, and the rows tell how long it is at most |
| `TableFiles.Build` | macos/Pods/leveldb-library/table/table_builder.cc:94-253 | the file built is an image of a table with exactly the rows, and no longer than the bound |
| `TableFiles.SmallFileFits` | macos/Pods/leveldb-library/table/format.cc:64-139 | in a file of less than 4 GB no block and no filter has 4 GB, compressed or not |
| `TableFormat.FooterRoundTrip` | macos/Pods/leveldb-library/table/format.cc:31-62 | the footer gives both handles back, past its padding |
| `TableFormat.PackedIsUnpacked` | macos/Pods/leveldb-library/table/format.cc:64-139 | a block is read back from its stored form, compressed or not, and its checksum is right |
| `TableFormat.ReadsGrow` | macos/Pods/leveldb-library/table/format.cc:64-139 | what is appended to a file changes nothing that could be read before |
| `TableFormat.OutsideExactly` | macos/Pods/leveldb-library/table/format.cc:64-139 | the handles for which the trailer is looked for outside what was read, the checksum of no bytes included |
| `Tables.FirstIsNewest` | macos/Pods/leveldb-library/table/table.cc:216-244 | and that row is the newest entry of the user key that the sequence number may see, if there is one |
| `SkipLists.SkipList.FindGreaterOrEqual` | macos/Pods/leveldb-library/db/skiplist.h:262-280 | the node is that of a linear scan of the lowest level, and the nodes before it are found on every level |
| `SkipLists.SkipList.FindLessThan` | macos/Pods/leveldb-library/db/skiplist.h:285-302 | the last node before the key, by a linear scan |
| `SkipLists.SkipList.FindLast` | macos/Pods/leveldb-library/db/skiplist.h:305-322 | the last node of the lowest level |
| `SkipLists.SkipList.Insert` | macos/Pods/leveldb-library/db/skiplist.h:337-368 | every level up to the height, whatever that is, has the new node in its place |
| `SkipLists.LinkKeepsShape` | macos/Pods/leveldb-library/db/skiplist.h:361-367 | after each step of the insertion every level is sorted, correctly linked and contained in the level below |
| `SkipLists.Search.Step` | macos/Pods/leveldb-library/db/skiplist.h:262-280 | a step of a search keeps what it knows, and a search that ends has the first node not before its key, among those in the list by then |
| `SkipLists.SearchSurvives` | macos/Pods/leveldb-library/db/skiplist.h:361-367 | linking a node leaves a search where it may be |
| `SkipLists.SearchSurvivesNode` | macos/Pods/leveldb-library/db/skiplist.h:337-360 | so does making a node before it is linked |
| `SkipLists.TakeTurns` | macos/Pods/leveldb-library/db/skiplist.h:337-368 | a search and any number of insertions take turns in any order, node by node and level by level: the list stays sorted, only grows, and the search ends at the first node not before its key in a list between those at its start and at its end |
| `HandleTables.HandleTable.Insert` | macos/Pods/leveldb-library/util/cache.cc:78-92 | the handle takes the place of the one with its key and hash, if any; all others stay, also when the table grows, and there are never more handles than buckets |
| `HandleTables.HandleTable.Remove` | macos/Pods/leveldb-library/util/cache.cc:94-102 | exactly the handle with the key and hash is gone |
| `HandleTables.HandleTable.Resize` | macos/Pods/leveldb-library/util/cache.cc:122-146 | moving all chains to the new buckets loses and repeats nothing |
| `HandleTables.BucketIsRemainder` | macos/Pods/leveldb-library/util/cache.cc:111-120 | masking the hash is the remainder by the length, because the length is a power of two |
| `LruLists.TakeOut` | macos/Pods/leveldb-library/util/cache.cc:239-242 | joining the neighbours of a node leaves the circular list without it |
| `LruStates.DropKeeps` | macos/Pods/leveldb-library/util/cache.cc:307-316 | dropping a handle keeps the cache consistent: the usage is the sum of the charges, each cached handle is on the list that its references say, each deleter has been called once exactly for what nobody holds |
| `LruStates.EvictTakesOldest` | macos/Pods/leveldb-library/util/cache.cc:294-301 | eviction drops the handles at the front of the list of unused ones, until the usage fits or nothing unused is left, and no more of them than it must; that those were unused the longest is `LruRuns.EvictsUnusedLongest` |
| `LruStates.InsertFinds` | macos/Pods/leveldb-library/util/cache.cc:266-305 | the new handle is found under its key, and every other key finds what it found before, or what was evicted |
| `LruCaches.LRUCache.Insert` | macos/Pods/leveldb-library/util/cache.cc:266-305 | on hash table, lists and counts together the effect is that of the model, and all invariants stay; the client holds the new handle, and what clients hold under other ids stays cached |
| `LruCaches.LRUCache.Release` | macos/Pods/leveldb-library/util/cache.cc:225-237 | the handle has one reference less; with the last one it goes behind all unused handles, or its deleter is called when it is not cached; all else stays |
| `LruCaches.LRUCache.Lookup` | macos/Pods/leveldb-library/util/cache.cc:252-259 | the handle that is cached under the key is returned with one reference more, off the list of unused ones, and all else stays; nothing is returned when nothing is cached under the key |
| `LruCaches.LRUCache.Prune` | macos/Pods/leveldb-library/util/cache.cc:323-333 | all cached handles that nobody uses are dropped, and no other |
| `LruCaches.LRUCache.Erase` | macos/Pods/leveldb-library/util/cache.cc:318-321 | nothing is cached under the key, the rest is as it was, and whoever holds the handle keeps it |
| `LruRuns.RunIsSound` | macos/Pods/leveldb-library/util/cache.cc:217-333 | at every moment of every run each handle has as many references as it was given out less the times it was released, and the unused handles are listed in the order of their last release, none of them given out since |
| `LruRuns.HeldStays` | macos/Pods/leveldb-library/util/cache.cc:217-333 | what somebody holds is deleted by no call, and it stays cached and is found unless its key is inserted again or erased |
| `LruRuns.EvictsUnusedLongest` | macos/Pods/leveldb-library/util/cache.cc:294-301 | in every run what a call evicts has been unused for longer than everything that it leaves unused |
| `Crc32c.Extend` | macos/Pods/leveldb-library/util/crc32c.cc:276-377 | for every data, length and alignment the four interleaved lanes compute what the loop over single bytes does |
| `Crc32c.Rotate` | macos/Pods/leveldb-library/util/crc32c.cc:350-359 | the next word goes to the lane that is furthest behind, and the lanes change places |
| `Crc32c.ExtendConcat` | macos/Pods/leveldb-library/db/log_writer.cc:93-96 | extending the checksum of one string by another is the checksum of both |
| `CrcLogs.StepsExtend` | macos/Pods/leveldb-library/db/log_writer.cc:93-96 | CRC32C is a checksum by single bytes such as the log format takes |
| `CrcLogs.ExtendCrc` | macos/Pods/leveldb-library/util/crc32c.cc:276-377 | and the interleaved lanes compute it, so that all results about logs hold for it |
| `CrcValues.PolynomialIs` | macos/Pods/leveldb-library/util/crc32c.cc:20-62 | the polynomial is 0x82f63b78, the entry for the octet 0x80 in the table of the code |
| `CrcValues.LogCheckValue` | macos/Pods/leveldb-library/util/crc32c.cc:276-377 | the checksum of the octet 0x7f is 0x7df63b78, which tells the polynomial and both complements |
| `PbRoundTrip.MessageReads` | macos/Pods/nanopb/pb_decode.c:928-1090 | for every recursive description and every message within its limits, decoding the encoded message gives the message |
| `PbRoundTrip.SkipsValue` | macos/Pods/nanopb/pb_decode.c:278-331 | skipping an encoded value of any type takes exactly its bytes |
| `PbRoundTrip.MessageIsViewed` | macos/Pods/nanopb/pb_decode.c:928-1076 | a message decoded with another description, in which fields are missing, new or in another order, down to those of submessages, is what that description shows of it; it is refused exactly when that description requires a field, among its first 64 required ones, that the writer's does not have |
| `PbResults.DecodedIsSound` | macos/Pods/nanopb/pb_decode.c:928-1090 | whatever the bytes, what they are decoded to fits its description: no number out of range, nothing too long, no two fields of a union |
| `PbResults.DecodedAgain` | macos/Pods/nanopb/pb_decode.c:928-1090 | so what was decoded from any bytes may be encoded and decoded again, and is the same |
| `PbConcat.DecodesOnTop` | macos/Pods/nanopb/pb_decode.c:928-1076 | of two messages one behind the other the second is decoded on top of the first, for any bytes that no zero tag ends |
| `PbConcat.SubmessagesMerge` | macos/Pods/nanopb/pb_decode.c:1519-1541 | a submessage that comes twice is merged: the result is that of its bytes joined |
| `PbConcat.EncodedIsThrough` | macos/Pods/nanopb/pb_decode.c:928-1076 | no zero tag ends an encoded message early, whatever the reader's description |
| `PbRoundTrip.PaddingComesAround` | macos/Pods/nanopb/pb_decode.c:187-247 | the position of the bits is kept in eight bits: 37 bytes of padding bring it around to 3, and a tag of 38 bytes decodes to 8 |
| `PbEncoder.OStream.Encode` | macos/Pods/nanopb/pb_encode.c:528-550 | a stream that counts and one that writes succeed and count alike, and what is written is the specified bytes; "submsg size changed" never happens |
| `PbEncoder.OStream.EncodeSubmessage` | macos/Pods/nanopb/pb_encode.c:717-765 | the length that was counted is the length of what is then written |
| `PbEncoder.OStream.EncodeArray` | macos/Pods/nanopb/pb_encode.c:147-236 | arrays are packed where they can be, and too many elements are refused |
| `PbEncoder.OStream.EncodeVarint` | macos/Pods/nanopb/pb_encode.c:608-628 | the loop over the buffer writes the base-128 digits |
| `PbMessages.DefaultsAgree` | macos/Pods/nanopb/pb_encode.c:240-337 | a field that is left out as zero is what a reader starts with, submessages included |
| `PbEncoding.WrittenUnlessDefault` | macos/Pods/nanopb/pb_encode.c:240-415 | a field takes no bytes exactly when it holds what a reader starts with and need not be sent |
| `PbDecoder.DecodeNoinit` | macos/Pods/nanopb/pb_decode.c:928-1076 | on any bytes, unknown and repeated fields, padded varints and the tag 0 included, the loop gives the specified message, which fits the description if what it began with does, and fails when a required field is missing |
| `PbDecoding.TerminatorIsDecoded` | macos/Pods/nanopb/pb_common.c:78-95 | in a description without fields the tag 0 finds the terminator, so that two bytes that are no field are accepted |
| `PbDecoder.Decode` | macos/Pods/nanopb/pb_decode.c:1078-1090 | from defaults, whatever message was encoded is what comes out, and with another description what that shows of it; whatever the bytes, the result fits the description |
| `PbDecoder.FieldIter.Find` | macos/Pods/nanopb/pb_common.c:78-95 | going around from any field finds the field with the tag, or comes back to where it was; without fields the tag 0 finds the terminator |
| `PbDecoder.CheckRequired` | macos/Pods/nanopb/pb_decode.c:1038-1073 | comparing words and remaining bits tells whether all required fields, of the first 64, were seen |

## Left out

- DbImpl.Db.Get: stated for stores in which no merge uncovered a value (`intact`), because the code does not preserve reads otherwise; the exact condition is `Preserve.Resurrects`.
- DbImpl.Db.Write: requires sequence numbers below 2^56 - 1, where the engine itself does not check.
- Runs.NewMergingIterator: does not model the shortcuts for no child and for one child.
- CompactionWork.DoCompactionWork: the bytes that a table takes, open and finished, are parameters; the flush of an immutable memtable inside the loop, keys that do not parse and input or file errors are not modelled.
- DbImpl.Db.BackgroundCompaction: picks any file of any level, since scores, seek counts and `compact_pointer_` only choose among these.
- WriteQueue.Queue.StartWrite: logging cannot fail; the error path that stops all later writes is not modelled.
- Recovery.RecoverLogFile: the test for a full memtable is a parameter, sequence numbers of 2^56 and more are kept whole where the memtable would pack only their low 56 bits, and an old log is not reused for appending.
- Reopening.StoreSurvives: one log; that the version set logs each version of the store with its last sequence number, that the manifest names the log, and what other files are deleted for, is not modelled.
- DbImpl.Db.NewIterator: copies the memtable at its creation, where the code walks over the live one; `Snapshots.LaterWritesUnseen` is about the map shown, not about the walk.
- VersionBuilder.Builder.Apply: does not take the compaction pointers of the edit; `VersionSets` does.
- Edits.LogAndApply: only the levels; log, counters and pointers are in `VersionSets`.
- LogReader.Reader.ReadRecord: the initial offset is 0, as in every call, so the search for a later start and record offsets are not modelled.
- Log.Checksum: the checksum is any function of one byte and the sum so far; `CrcLogs` shows that CRC32C is one.
- Manifests.CutManifestRecovers: what a manifest says of a file is turned into the file by a given map, since the table's contents are elsewhere; the CURRENT file, reuse of a manifest and compaction scores are not modelled.
- VersionSets.VersionSet.LogAndApply: logging cannot fail.
- VersionSets.VersionSet.Recover: the map from what a manifest says of a table to the table is total, which hides bounds shorter than eight bytes; the comparator of the code is not defined on those.
- BlockIters.BlockIter.Seek: the results on built blocks are for blocks shorter than 4 GB; once bytes outside a block were read, nothing is said of what follows.
- TableReaders.InternalGet: blocks and filters shorter than 4 GB and files shorter than 2^64 bytes, because offsets have that width; a read of a file gives its bytes or fails, and the block cache is not modelled.
- UncoveringRun.RunUncovers: sizes of tables are parameters, because a rank does not tell how long its user key is.
- TableBuilders.TableBuilder.Add: appending to the file cannot fail; the compression is any function that can be undone.
- TwoLevel.TwoLevelIterator.Seek: the iterators of the index and of a block are cursors over rows, and errors of blocks are not modelled.
- TableIterators.TableIterator.Seek: on finished files; damaged ones are treated in `TableReaders` for lookups only.
- Bloom.CreateFilter: the hash function is a parameter, and the probe positions are what it gives modulo the number of bits.
- SkipLists.SkipList.Insert: keys are ranks, nodes are indices, and a step is atomic; the random height is a parameter, and memory ordering is not modelled.
- LruCaches.LRUCache.Insert: one shard; the hash is part of what a handle is found by, a handle is an index that is not used again, sizes do not overflow, and the calls of deleters are listed instead of made. The destructor is not modelled.
- HandleTables.HandleTable.Resize: the length is a number, so doubling it does not overflow.
- PbRoundTrip.MessageReads: encoded messages are shorter than 4 GB, because the decoder reads lengths as 32-bit numbers.
- PbRoundTrip.MessageIsViewed: fields with the same tag have the same type, rule and limits in both descriptions, up to the fields of submessages; numbers that were narrowed or widened between versions are not treated.
- PbConcat.DecodesOnTop: both parts have the required fields, each by itself.
- PbDecoder.DecodeNoinit: memory is a value for each field, with a single value for all fields of a union and none for a message without fields, and default values other than zero, callbacks, pointers, extensions and fixed-count arrays are not modelled.
- Table files, the cache and the skip list are not joined with the level model, in which a table and a memtable are sorted lists of entries.
- Iterators keep the entries they were made from; reference counts of versions and files are not modelled.
- The Snappy algorithm, statistics, logging, `RepairDB`, file names, locks and synchronisation of files.
- The other vendored code.
