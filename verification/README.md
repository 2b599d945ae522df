# TerpBuilder and its storage engine, modelled in Dafny

The app keeps a weekly schedule and talks to a database client that is backed by LevelDB 1.22, vendored under
`Terp_Builder/Pods/leveldb-library`. This project models that storage engine and the app's schedule, and proves
what they are for: a multiset of entries (user key, sequence number, kind, value) is written through a log and
a skip list, flushed to sorted tables, compacted down seven levels, recovered after a crash, and read back at
a snapshot; apart from one case of compaction (see Findings) a reader sees the plain history of writes.

## Modules

- Entries and plain objects: `Entries` (internal keys, reading a set of entries at a snapshot), `Reference` (the plain
  map a client thinks of), `Cursors` (the index into a list that every iterator stands for).
- Reading and restructuring: `Versions`, `VersionBuilder`, `InputChoice`, `Compaction`, `CompactionStep`,
  `SplitCondition`, `SplitKey`, `SplitKeyRun`, `Flush`, and `Lsm`, which puts them together over whole runs.
- Durability: `Storage`, `Durability` (disk and memory as a step system), `RecoveryOrder`, `LogRecovery` (the same
  crash, byte by byte), `GroupCommit` (the write queue as a step system).
- The database as a whole: `Database` runs the steps on disk and the tree side by side, through crashes and
  recoveries, and `DatabaseSteps` shows that this leaves none out.
- Iterators: `DBIterator`, `Merger`, `BlockIterator`, `TwoLevelIterator`.
- Tables: `Blocks`, `Separators`, `Bloom`, `FilterBlocks`, `TableFormat`, `Tables`, `TableBuilder`,
  `TableReader`, `TableRoundTrip`.
- Formats: `LogFormat`, `LogCorruption`, `LogChecksum`, `Crc32c`, `CrcValues`, `Coding`, `WriteBatches`,
  `VersionEdits`, and `KnownBytes` (the bytes of each format written out).
- Data structures: `SkipList`, `MemTable`, `SnapshotList`, `HandleTable`, `Rings`, `LruCache`.
- The app: `Schedule`.

Code that changes things step by step is modelled by classes and loops, each tied to a function of its inputs or
of the old state; what is promised is then proved about that function. Concurrent protocols are step systems
whose invariants hold in every run. User keys are integers where only their order matters (any finite set of
keys under a total order embeds), and byte strings in blocks, tables, separators and codecs. Files are byte
sequences or, in the step systems, sequences of records.

`dafny verify dfyconfig.toml` checks the project.

## Findings

| what | where | input | exact condition |
|---|---|---|---|
| A compaction can bring a deleted value back: inputs are closed under boundary files at the level compacted, but not at the next level | `db/version_set.cc:1407-1422` | `SplitKey.SplitKeyResurrects`; the version is reached from an empty database (`SplitKeyRun.SplitKeyIsReached`) and leaves the choice no other inputs (`SplitKey.OnlyInputs`) | `SplitCondition.KeepsReadsIffNoSplit`: reads at live snapshots are kept if and only if no key is at once read as an input deletion that no deeper file could need, the end of an input file of the next level, and the start, as a value, of the left-out file after it; `Lsm.CompactionExact` says it of any state of a run |
| Decoding a version edit is not the inverse of encoding it for an object that was used before: `Clear` leaves the compaction pointers | `db/version_edit.cc:26-39` | any object that holds compaction pointers | `VersionEdits.EditRoundTrip`: the edit comes back if and only if the object held none |
| A section that is among the classes already can be added again | `Terp_Builder/Terp_Builder/Models/ScheduleModel.swift:94-149` | `Schedule.UnknownPatternTwice` | `Schedule.ReAddRefusedExactly`: in every consistent schedule it is refused if and only if its lecture days are a pattern the code knows |
| Times that overlap can be found not to clash | `Terp_Builder/Terp_Builder/Models/ScheduleModel.swift:178-185` | `Schedule.StaggeredTaken` | `Schedule.ClashExactly`: for meetings that begin before they end the test is right if and only if it is not so that one begins and ends first and the other begins before that end |
| A clash on one day does not refuse a section | `Terp_Builder/Terp_Builder/Models/ScheduleModel.swift:95-122` | `Schedule.FirstDayTaken` | `Schedule.OneDayTakenExactly`: a clash on some day refuses it in every schedule if and only if its lecture has one day |

## Model

| member | source | states |
|---|---|---|
| Database.ReadsAreHistory | Terp_Builder/Pods/leveldb-library/db/db_impl.cc:280-369 | In every run of writes, memtable switches, flushes, moves, snapshots, compactions that split no key, deletions of files, crashes at any point and recoveries, what memory and the tables of the manifest hold reads, now and at every live snapshot, as the history of all writes says |
| Database.ReopenedReadsHistory | Terp_Builder/Pods/leveldb-library/db/db_impl.cc:371-489 | After a crash at any point and a recovery, itself interrupted any number of times, every key reads as the history of the writes that survived the crash says |
| Database.ReadsAreWrites | Terp_Builder/Pods/leveldb-library/db/db_impl.cc:1185-1256 | In every run, crashes and recoveries included, reading the latest state is looking the key up in a plain map to which all operations that took effect were applied in their order; the write in flight at a crash counts if its record was whole |
| Database.RunKeeps | Terp_Builder/Pods/leveldb-library/db/db_impl.cc:491-1036 | The disk and the tree stay in step in every run: the tables the manifest names are the files of the levels, and memory is the same |
| DatabaseSteps.TreeCanFollow | Terp_Builder/Pods/leveldb-library/db/db_impl.cc:371-533 | Running the two side by side leaves nothing out: for every step on disk but the manifest record of a compaction or a move there is a step of the tree |
| RecoveryOrder.StepOrder | Terp_Builder/Pods/leveldb-library/db/db_impl.cc:371-489 | Every step, crashes and recoveries included, keeps the records of the logs in sequence, and makes tables of a recovery newer under higher numbers, as level 0 needs |
| Durability.RecoveryRebuilds | Terp_Builder/Pods/leveldb-library/db/db_impl.cc:280-369 | For every run and every crash in it, whatever steps and further crashes the recovery takes, the reopened database holds exactly the entries that survived the crash |
| Durability.NothingLost | Terp_Builder/Pods/leveldb-library/db/db_impl.cc:535-566 | At every point of every run the running database, and what a recovery from that point would find, are the whole history of writes less the entries compactions left out (and the record being written) |
| Durability.NothingNeededIsDeleted | Terp_Builder/Pods/leveldb-library/db/db_impl.cc:223-278 | In every run the tables of the current version, of every reader and of the manifest, and the log, are on disk, and readers still see what they saw when they took their version |
| Durability.SequencesAreFresh | Terp_Builder/Pods/leveldb-library/db/db_impl.cc:1185-1256 | A write gets sequence numbers above those of every earlier write that took effect, across crashes |
| Durability.RecoveryFindsTheSame | Terp_Builder/Pods/leveldb-library/db/db_impl.cc:371-489 | However often a recovery is interrupted, it finds the same entries at every stage |
| Durability.RunKeeps | Terp_Builder/Pods/leveldb-library/db/version_set.cc:801-884 | The invariant that ties disk, memory, manifest and pending work holds in every state of every run |
| Durability.DeleteObsoleteFiles | Terp_Builder/Pods/leveldb-library/db/db_impl.cc:223-278 | The deletion loop keeps the invariant and leaves exactly the tables and temporary files something needs, the previous log and those from the version's log number on, and manifests from the current one on |
| Durability.LiveFiles | Terp_Builder/Pods/leveldb-library/db/db_impl.cc:231-234 | The live set is exactly the tables a version in use or an unfinished job needs |
| Storage.ReplayManifest | Terp_Builder/Pods/leveldb-library/db/version_set.cc:919-981 | Reading a manifest ends with the files added and not deleted and the last of each number |
| Storage.RecoverLogFile | Terp_Builder/Pods/leveldb-library/db/db_impl.cc:371-533 | Replaying a log writes tables that together hold exactly the entries of its records, wherever memtables fill up and however many are empty, and raises the largest sequence number accordingly |
| LogRecovery.CutRecovers | Terp_Builder/Pods/leveldb-library/db/db_impl.cc:371-489 | A log file cut at any byte recovers exactly the records wholly before the cut, through fragments, checksums and batch encoding, without a complaint |
| LogRecovery.CutIsCrash | Terp_Builder/Pods/leveldb-library/include/leveldb/options.h:173-181 | A cut anywhere in the last record is the crash step of the run model that keeps every record but that one; no cut keeps them all |
| LogRecovery.SomeLogFits | Terp_Builder/Pods/leveldb-library/db/write_batch.cc:42-80 | There are key encodings and logs for which the cut-log results hold: a key encoding that decodes, and a log with a write that fits |
| LogRecovery.RecordRoundTrip | Terp_Builder/Pods/leveldb-library/db/write_batch.cc:42-80 | The payload of a log record decodes to the record: its sequence number and its writes |
| LogRecovery.InsertRecord | Terp_Builder/Pods/leveldb-library/db/write_batch.cc:116-137 | Inserting the batch whose bytes are a log record adds one entry for each write, in order, under the numbers from the record's own on, and these are the entries the run model has for the record |
| GroupCommit.AcknowledgedOnce | Terp_Builder/Pods/leveldb-library/db/db_impl.cc:1185-1256 | In every interleaving a batch whose write has returned is logged (and synced if asked for) and inserted in its place; log and memtable hold the batches of the first calls and nothing else, so none twice |
| GroupCommit.MemReadsCalls | Terp_Builder/Pods/leveldb-library/db/db_impl.cc:1185-1256 | In every interleaving the memtable reads as the batches of the first calls applied one after another, and every call that has returned is one of them |
| GroupCommit.OneLeader | Terp_Builder/Pods/leveldb-library/db/db_impl.cc:1196-1213 | No two calls lead at once, and tmp_batch_ is empty whenever a leader starts building |
| GroupCommit.BlocksAreConsecutive | Terp_Builder/Pods/leveldb-library/db/db_impl.cc:1215-1247 | Each group takes the block of sequence numbers right after the group before it |
| GroupCommit.NeverStuck | Terp_Builder/Pods/leveldb-library/db/db_impl.cc:1240-1253 | While a call is in the queue some call can go on |
| GroupCommit.BuildBatchGroup | Terp_Builder/Pods/leveldb-library/db/db_impl.cc:1260-1306 | The group is the longest run of writers that may ride with the first: none asks for a sync the first does not do, and together they have no more than 1 MB, or 128 KB more than a first batch of up to 128 KB; tmp_batch_ is used exactly when a second batch joins |
| GroupCommit.RunKeeps | Terp_Builder/Pods/leveldb-library/db/db_impl.cc:1185-1306 | The invariant over queue, progress, log and memtable holds in every interleaving |
| Lsm.Read | Terp_Builder/Pods/leveldb-library/db/db_impl.cc:1100-1145 | In every state of every run of writes, memtable switches, flushes, moves, snapshots, recoveries and compactions that split no key before a value behind a deletion that is read, a read returns what a plain map says to which all operations of all batches were applied in their order, and a read at a snapshot what that map said when the snapshot was taken |
| Lsm.CompactionExact | Terp_Builder/Pods/leveldb-library/db/version_set.cc:1403-1462 | That condition is exact: after any such run, a compaction by the rule leaves all reads right if and only if it splits no such key |
| Lsm.ScanShowsHistory | Terp_Builder/Pods/leveldb-library/db/db_iter.cc:141-299 | A scan at a live snapshot shows a pair exactly when the newest write of its key in the history is that value |
| Lsm.ScanShowsMap | Terp_Builder/Pods/leveldb-library/db/db_iter.cc:141-299 | The same for scans: a pair is shown exactly when the plain map has it, now or when the snapshot was taken |
| Lsm.RunKeeps | Terp_Builder/Pods/leveldb-library/db/version_set.cc:801-884 | Order of the layers, well-formed levels, distinct table numbers, live snapshots and the history are kept by every step of every run |
| Reference.BatchChanges | Terp_Builder/Pods/leveldb-library/db/write_batch.cc:116-137 | The entries of a batch of any length, added under the numbers that follow, change what is read as the operations of the batch change a plain map, one after another |
| Reference.LastWriteWins | Terp_Builder/Pods/leveldb-library/db/write_batch.cc:116-137 | The last operation on a key in a batch decides what is read: its value, or nothing after a deletion |
| Compaction.CompactionState.DoCompactionWork | Terp_Builder/Pods/leveldb-library/db/db_impl.cc:878-1036 | The outputs, wherever they are cut, are non-empty and hold, in order, exactly the entries newer than the smallest snapshot and, per key, the newest one it sees unless that is a deletion no deeper file could need |
| Compaction.CompactionState.IsBaseLevelForKey | Terp_Builder/Pods/leveldb-library/db/version_set.cc:1533-1552 | With pointers that only move forward it answers, for non-decreasing keys, what a scan of all deeper files answers |
| Compaction.SameReadsIffNothingResurrects | Terp_Builder/Pods/leveldb-library/db/db_impl.cc:937-985 | Dropping leaves every read at a live snapshot alone exactly when no obsolete deletion hides an older value that is left out |
| Compaction.KeptExactly | Terp_Builder/Pods/leveldb-library/db/db_impl.cc:937-985 | The drop rule reclaims all it can: an entry is kept if and only if a live snapshot or a deeper level can need it |
| CompactionStep.InstallKeepsReads | Terp_Builder/Pods/leveldb-library/db/db_impl.cc:860-876 | The installed version reads like the one before at every live snapshot exactly when nothing resurrects |
| CompactionStep.NoSplitNoResurrection | Terp_Builder/Pods/leveldb-library/db/version_set.cc:1403-1462 | With the inputs the code chooses and no user key split at the next level, nothing resurrects |
| CompactionStep.InstallKeepsForm | Terp_Builder/Pods/leveldb-library/db/db_impl.cc:860-876 | Installing a compaction keeps levels sorted, disjoint and in age order |
| SplitCondition.KeepsReadsIffNoSplit | Terp_Builder/Pods/leveldb-library/db/version_set.cc:1403-1462 | The exact condition at file level: a compaction keeps every read at a live snapshot if and only if no input file of the next level ends on a key at which the left-out file after it starts with a value, while a dropped input deletion is what is read |
| SplitCondition.ResurrectsIffSplit | Terp_Builder/Pods/leveldb-library/db/version_set.cc:1407-1422 | The same key by key |
| SplitKey.SplitKeyResurrects | Terp_Builder/Pods/leveldb-library/db/version_set.cc:1407-1422 | A concrete well-formed version with valid inputs on which every way to install the compaction changes a read |
| SplitKey.OnlyInputs | Terp_Builder/Pods/leveldb-library/db/version_set.cc:1403-1462 | For that version the inputs of a compaction of level 1 can only be those |
| SplitKeyRun.SplitKeyIsReached | Terp_Builder/Pods/leveldb-library/db/db_impl.cc:878-1036 | That version is reached from an empty database by ordinary writes, flushes, one snapshot and one compaction |
| Versions.Get | Terp_Builder/Pods/leveldb-library/db/db_impl.cc:1100-1145 | Memtable, immutable memtable, level 0 newest first, then each level: the answer is the newest entry at or below the snapshot over all of them |
| Versions.SearchVersion | Terp_Builder/Pods/leveldb-library/db/version_set.cc:326-421 | The level-by-level search that stops at the first file with an entry finds the newest entry of the whole version |
| Versions.SearchLevel0 | Terp_Builder/Pods/leveldb-library/db/version_set.cc:342-357 | The newest-first search of level 0 finds the newest entry of the level |
| Versions.FindFile | Terp_Builder/Pods/leveldb-library/db/version_set.cc:88-106 | Binary search returns the first file whose largest key is at or after the target |
| Versions.SeekIsNewest | Terp_Builder/Pods/leveldb-library/db/memtable.cc:100-134 | The first entry at or after the lookup key, if it has that user key, is the newest visible entry |
| Flush.PickLevelForMemTableOutput | Terp_Builder/Pods/leveldb-library/db/version_set.cc:491-516 | The level is the deepest, up to 2, to which the table can go down one by one without overlapping a file there or too many bytes two levels down, and 0 if level 0 overlaps it; at that level, and above it, no file overlaps it |
| Flush.SomeFileOverlapsRange | Terp_Builder/Pods/leveldb-library/db/version_set.cc:122-157 | It answers exactly whether some file overlaps the range |
| Flush.InstallTableKeepsForm | Terp_Builder/Pods/leveldb-library/db/db_impl.cc:491-533 | A flushed table installed at any level so picked keeps the level order, and adds exactly its entries |
| InputChoice.GetOverlappingInputs | Terp_Builder/Pods/leveldb-library/db/version_set.cc:519-559 | The level-0 restart loop ends with all files of the least range that covers the query and is closed under overlap; above level 0 with exactly the files that meet the range |
| InputChoice.AddBoundaryInputs | Terp_Builder/Pods/leveldb-library/db/version_set.cc:1378-1401 | It ends, adds no file twice and nothing but the least boundary file of what it has, one after another, until there is none; a run of a sorted level becomes one no following file shares its last user key with |
| InputChoice.FindSmallestBoundaryFile | Terp_Builder/Pods/leveldb-library/db/version_set.cc:1344-1362 | The least file of the level that starts after the key with its user key, if there is one |
| InputChoice.SetupOtherInputs | Terp_Builder/Pods/leveldb-library/db/version_set.cc:1403-1462 | From any valid start: the start and its boundary files, and exactly the overlapping files of the next level, unless everything around both is more files, needs no more of the next level and stays within the byte limit, when that is taken; the start is among the inputs, and the compaction pointer is their largest key |
| InputChoice.PickCompaction | Terp_Builder/Pods/leveldb-library/db/version_set.cc:1270-1322 | An automatic choice has among its valid inputs the file asked for by seeks, or else the first file of the level that ends after the compaction pointer, or the first of all when none does |
| InputChoice.CompactRange | Terp_Builder/Pods/leveldb-library/db/version_set.cc:1464-1495 | A manual choice is empty exactly when no file of the level meets the range; otherwise its valid inputs include the files that do, above level 0 up to the one that reaches the byte limit |
| VersionBuilder.ReplayIsStepwise | Terp_Builder/Pods/leveldb-library/db/version_set.cc:886-1011 | Replaying any number of edits through one builder gives the version that saving after each edit gives, if no file number comes back to a level |
| VersionBuilder.Builder.Apply | Terp_Builder/Pods/leveldb-library/db/version_set.cc:650-692 | One edit changes each level's accumulated deletions and additions as deletions first, additions cancelling them |
| VersionBuilder.Builder.SaveTo | Terp_Builder/Pods/leveldb-library/db/version_set.cc:695-755 | The merge of base and added files is, level by level, the sorted list of the files that are not deleted |
| DBIterator.Drive | Terp_Builder/Pods/leveldb-library/db/db_iter.cc:141-299 | Any interleaving of moves shows what an index into the snapshot's list of user entries shows |
| DBIterator.ViewIsSnapshot | Terp_Builder/Pods/leveldb-library/db/db_iter.cc:168-198 | That list has a pair exactly when a snapshot read of its key returns that value |
| Merger.Drive | Terp_Builder/Pods/leveldb-library/table/merger.cc:31-176 | Any interleaving of moves shows what an index into the sorted merge of the children shows |
| Merger.MergeExists | Terp_Builder/Pods/leveldb-library/table/merger.cc:14-30 | Sorted children with pairwise distinct keys have a merge |
| Merger.MergeUnique | Terp_Builder/Pods/leveldb-library/table/merger.cc:14-30 | A sorted list is fixed by its members, so there is only one |
| BlockIterator.Drive | Terp_Builder/Pods/leveldb-library/table/block.cc:77-252 | For increasing keys, any restart interval and any moves, iterating over the finished block of those pairs shows what an index into them shows; it gives up exactly when that block has 2^32 bytes |
| BlockIterator.Iter.Seek | Terp_Builder/Pods/leveldb-library/table/block.cc:163-201 | Binary search over restart points and a linear scan stop at the first key at or above the target |
| BlockIterator.Iter.Prev | Terp_Builder/Pods/leveldb-library/table/block.cc:142-161 | Going back to a restart point and forward again stops at the entry just before |
| BlockIterator.ParseEntry | Terp_Builder/Pods/leveldb-library/table/block.cc:224-251 | The key put together from the key before and the bytes of the block is the key that was added |
| Blocks.BlockBuilder.Add | Terp_Builder/Pods/leveldb-library/table/block_builder.cc:72-106 | The layout of the buffer, its restart points and the shared prefixes describe exactly the entries added |
| Blocks.BlockBuilder.Finish | Terp_Builder/Pods/leveldb-library/table/block_builder.cc:57-70 | The finished bytes are a block of those entries, and as many as were estimated |
| Blocks.EntryRoundTrip | Terp_Builder/Pods/leveldb-library/table/block.cc:54-75 | The three lengths read back, and the announced bytes are where they say |
| Blocks.ReadEntry | Terp_Builder/Pods/leveldb-library/table/block.cc:54-75 | The fast path for one-byte lengths decodes what the general path decodes |
| TwoLevelIterator.TwoLevelIter.Run | Terp_Builder/Pods/leveldb-library/table/two_level_iterator.cc:82-139 | Any moves over index and data blocks, some of them empty, show what an index into all entries shows |
| TwoLevelIterator.TableSeparated | Terp_Builder/Pods/leveldb-library/table/table.cc:210-214 | The separators of a table are as that iterator needs them |
| TableRoundTrip.Lookup | Terp_Builder/Pods/leveldb-library/table/table.cc:216-244 | For all increasing internal keys, block sizes, restart intervals, with and without a filter: building the file, opening it and looking a key up delivers the first entry at or above it if that has its user key, and never another entry; it gives up exactly when the file, which is a table of those entries, has 2^32 bytes |
| TableReader.InternalGet | Terp_Builder/Pods/leveldb-library/table/table.cc:216-244 | The same for any file that is a table of the entries |
| TableReader.Open | Terp_Builder/Pods/leveldb-library/table/table.cc:38-134 | Footer, index and filter are found again in the file |
| TableReader.FilterSaysNo | Terp_Builder/Pods/leveldb-library/table/table.cc:226-228 | Where the filter lets a block be skipped, no key of the block has the user key |
| Tables.TableSeek | Terp_Builder/Pods/leveldb-library/table/table.cc:220-236 | The index search and the search of one block find the first entry at or above the key, or show that it has another user key |
| TableBuilder.Builder.Add | Terp_Builder/Pods/leveldb-library/table/table_builder.cc:94-123 | Every entry added is in a block written or in the one being built, every block but the last has its separator in the index, and its keys are in the filter of its range; a block is written exactly when it has come to the block size |
| TableBuilder.Builder.Finish | Terp_Builder/Pods/leveldb-library/table/table_builder.cc:198-253 | The file is a table of exactly the entries added |
| FilterBlocks.FilterNeverMisses | Terp_Builder/Pods/leveldb-library/table/filter_block.cc:90-104 | A finished filter block never rules out a user key added in the range of the offset, and rules out everything where none was added |
| FilterBlocks.AnswersFromRange | Terp_Builder/Pods/leveldb-library/table/filter_block.cc:77-104 | The reader answers from the filter of the range the offset is in, and yes past the last range |
| FilterBlocks.FilterBlockBuilder.StartBlock | Terp_Builder/Pods/leveldb-library/table/filter_block.cc:21-27 | Filters of finished ranges are generated, and every range keeps its keys |
| Bloom.MatchesExactly | Terp_Builder/Pods/leveldb-library/util/bloom.cc:56-80 | A filter matches exactly the keys whose every probe is a probe of some key it was built from |
| Bloom.NoFalseNegatives | Terp_Builder/Pods/leveldb-library/util/bloom.cc:28-80 | A key that was added always matches |
| Bloom.CreateFilter | Terp_Builder/Pods/leveldb-library/util/bloom.cc:28-54 | The bits set are exactly the probed ones |
| KnownBytes.ProbeNumbers | Terp_Builder/Pods/leveldb-library/util/bloom.cc:20-52 | Probes of a hash, numbers of probes and sizes of filters |
| Separators.SeparatorBetween | Terp_Builder/Pods/leveldb-library/util/comparator.cc:29-50 | The separator is at or above the start, below the limit if the start is, and no longer than the start |
| Separators.ShortenedIsShortest | Terp_Builder/Pods/leveldb-library/util/comparator.cc:29-50 | Where the start is shortened there is no shorter key between it and the limit |
| Separators.ChangedExactly | Terp_Builder/Pods/leveldb-library/util/comparator.cc:29-50 | It is shortened exactly when another byte lies between the first two that differ |
| Separators.SuccessorAbove | Terp_Builder/Pods/leveldb-library/util/comparator.cc:52-64 | The successor is at or above the key, and strictly above exactly if some byte is not 0xff |
| Separators.InternalSeparatorBetween | Terp_Builder/Pods/leveldb-library/db/dbformat.cc:67-85 | The internal separator is between the keys, and unless it is the start its user key is below the limit's |
| Separators.FindShortestSeparator | Terp_Builder/Pods/leveldb-library/util/comparator.cc:29-50 | The loop computes that separator |
| TableFormat.ReadBlockBack | Terp_Builder/Pods/leveldb-library/table/format.cc:64-139 | A stored block reads back through its trailer, with or without checking the checksum |
| TableFormat.FooterRoundTrip | Terp_Builder/Pods/leveldb-library/table/format.cc:31-62 | The footer has 48 bytes and gives both handles back |
| KnownBytes.FooterBytes | Terp_Builder/Pods/leveldb-library/table/format.cc:31-40 | The bytes of a footer, with its magic number |
| KnownBytes.BlockBytes | Terp_Builder/Pods/leveldb-library/table/block_builder.cc:6-27 | The bytes of an entry and of the end of a block |
| KnownBytes.FilterBlockBytes | Terp_Builder/Pods/leveldb-library/table/filter_block.cc:50-67 | The bytes of the end of a filter block |
| TableFormat.BlockCrcExtends | Terp_Builder/Pods/leveldb-library/table/table_builder.cc:186-188 | The stored checksum is that of the contents extended over the type byte |
| SkipList.SearchAnswers | Terp_Builder/Pods/leveldb-library/db/skiplist.h:260-321 | In every run of single stores and reads, from any maximum height it may have read, a search that ends has the right answer for the keys in the list at its last read, and those include every key inserted before it began |
| SkipList.RunKeeps | Terp_Builder/Pods/leveldb-library/db/skiplist.h:335-368 | After every store each level is linked, sorted and contained in the one below |
| SkipList.FindsInserted | Terp_Builder/Pods/leveldb-library/db/skiplist.h:371-378 | Looking for a key that was in the list when the search began finds it |
| SkipList.SpliceKeeps | Terp_Builder/Pods/leveldb-library/db/skiplist.h:361-367 | One store makes a node part of a level and keeps it sorted and linked |
| SkipList.Table.FindGreaterOrEqual | Terp_Builder/Pods/leveldb-library/db/skiplist.h:261-282 | The node found is the first at or after the key, and the node kept for each level is the last before it |
| SkipList.Table.Insert | Terp_Builder/Pods/leveldb-library/db/skiplist.h:335-368 | Every store of the insertion is a step of the run model, and afterwards the list holds the key as well |
| LruCache.RunKeeps | Terp_Builder/Pods/leveldb-library/util/cache.cc:146-333 | In every reachable state table, lists, counts and usage agree, and a deleter has run exactly once if nobody refers to its handle and not at all otherwise |
| LruCache.EvictedInOrder | Terp_Builder/Pods/leveldb-library/util/cache.cc:293-300 | Eviction takes handles from the old end of the list, no more than it must, and ends with usage within capacity or nothing evictable |
| LruCache.ListedByRelease | Terp_Builder/Pods/leveldb-library/util/cache.cc:225-250 | In every run the handles no client uses are listed in the order in which clients last released them |
| LruCache.LeastRecentFirst | Terp_Builder/Pods/leveldb-library/util/cache.cc:293-300 | Of two handles no client uses, an insertion that evicts the one released later has evicted the other before it |
| LruCache.FoundIsLast | Terp_Builder/Pods/leveldb-library/util/cache.cc:252-321 | In every run a name leads to the value last inserted under it, and to nothing if it was erased since |
| LruCache.NothingCached | Terp_Builder/Pods/leveldb-library/util/cache.cc:284-292 | A cache of capacity 0 never keeps anything |
| LruCache.InsertedFits | Terp_Builder/Pods/leveldb-library/util/cache.cc:266-305 | After an insertion usage fits or nothing is evictable, the name is found, and no other name is new |
| LruCache.PrunedAll | Terp_Builder/Pods/leveldb-library/util/cache.cc:323-333 | Pruning deletes every handle no client uses, oldest first, and nothing else |
| LruCache.DeletedGrows | Terp_Builder/Pods/leveldb-library/util/cache.cc:225-237 | A deleter that has run is not run again |
| LruCache.ClosedDeletesAll | Terp_Builder/Pods/leveldb-library/util/cache.cc:205-215 | When no client holds anything, closing the cache has run every deleter exactly once |
| LruCache.LRUCache.Insert | Terp_Builder/Pods/leveldb-library/util/cache.cc:266-305 | The linked lists, counts and table updated in place are the abstract cache after the insertion |
| LruCache.LRUCache.Release | Terp_Builder/Pods/leveldb-library/util/cache.cc:261-264 | The same for a release |
| LruCache.LRUCache.Erase | Terp_Builder/Pods/leveldb-library/util/cache.cc:307-321 | The same for an erasure |
| LruCache.LRUCache.Lookup | Terp_Builder/Pods/leveldb-library/util/cache.cc:252-259 | The same for a lookup, which answers from the table |
| HandleTable.HandleTable.Insert | Terp_Builder/Pods/leveldb-library/util/cache.cc:78-92 | Writing the slot found and the next_hash of the handle leaves chains that are the map with the name set, and the handle displaced is the one it had |
| HandleTable.HandleTable.Remove | Terp_Builder/Pods/leveldb-library/util/cache.cc:94-101 | Writing the slot found leaves chains that are the map without the name |
| HandleTable.Rehash | Terp_Builder/Pods/leveldb-library/util/cache.cc:122-145 | Walking every chain and pushing each handle on its new bucket, overwriting next_hash as it goes, loses none: the new chains are the same map |
| HandleTable.FindIsLookup | Terp_Builder/Pods/leveldb-library/util/cache.cc:114-120 | Searching the chain of a name is looking it up in the map |
| HandleTable.HandleTable.FindPointer | Terp_Builder/Pods/leveldb-library/util/cache.cc:111-120 | The slot it ends at holds the pointer to the handle of that name, or null if there is none |
| HandleTable.MaskKeeps | Terp_Builder/Pods/leveldb-library/util/cache.cc:115-115 | For a power of two the bucket mask leaves smaller numbers alone, so every bucket has its hashes |
| Rings.RemovedRing | Terp_Builder/Pods/leveldb-library/util/cache.cc:239-242 | Unlinking a node of a circular list leaves the ring of the others, in order |
| Rings.AppendedRing | Terp_Builder/Pods/leveldb-library/util/cache.cc:244-250 | Linking a node before the head appends it to the ring |
| MemTable.MemTable.Get | Terp_Builder/Pods/leveldb-library/db/memtable.cc:100-134 | The entry found for a user key at a snapshot is the newest addition it sees, value or deletion; nothing is found exactly when it sees none |
| MemTable.MemTable.Add | Terp_Builder/Pods/leveldb-library/db/memtable.cc:75-98 | The table holds the encoded addition as well, and stays in the order of internal keys |
| MemTable.EntryRoundTrip | Terp_Builder/Pods/leveldb-library/db/memtable.cc:77-97 | The internal key and the value read back from an encoded entry |
| SnapshotList.SnapshotList.New | Terp_Builder/Pods/leveldb-library/db/snapshot.h:57-72 | The spliced list has the new number at its end |
| SnapshotList.SnapshotList.Delete | Terp_Builder/Pods/leveldb-library/db/snapshot.h:79-86 | The spliced list is without that snapshot, wherever it was |
| SnapshotList.SnapshotList.Oldest | Terp_Builder/Pods/leveldb-library/db/snapshot.h:47-50 | The snapshot after the head has the least number of all |
| LogFormat.CutLogReadsBack | Terp_Builder/Pods/leveldb-library/db/log_reader.cc:56-271 | Any records written to an empty file read back the same; cut at any byte, exactly those wholly before the cut are read and nothing is reported |
| LogFormat.ReadRecordBack | Terp_Builder/Pods/leveldb-library/db/log_reader.cc:56-174 | A whole record is put together again from its fragments; of a cut one nothing is returned |
| LogFormat.Writer.AddRecord | Terp_Builder/Pods/leveldb-library/db/log_writer.cc:34-110 | The loop over fragments and block trailers appends the record's encoding at its offset |
| KnownBytes.LogBytes | Terp_Builder/Pods/leveldb-library/db/log_format.h:14-32 | Header, kinds, trailer and block size of a log |
| KnownBytes.ChecksumBytes | Terp_Builder/Pods/leveldb-library/util/crc32c.h:21-38 | The stored checksum of the test buffer |
| LogFormat.WriteAll | Terp_Builder/Pods/leveldb-library/db/log_writer.cc:34-110 | Adding records one by one to an empty file writes the log of them |
| LogFormat.Reader.ReadRecord | Terp_Builder/Pods/leveldb-library/db/log_reader.cc:56-174 | Reading through the block buffer returns the logical record at the file position, and reports what it reports |
| LogFormat.Reader.ReadAll | Terp_Builder/Pods/leveldb-library/db/log_reader.cc:56-271 | Repeated reads return all records to the end of the file |
| LogCorruption.AllReturnedAreWhole | Terp_Builder/Pods/leveldb-library/db/log_reader.cc:56-271 | Of any file, however corrupted, only records are returned that are put together from all their fragments, one after the other, each with a checksum that matches; they lie one after the other |
| LogChecksum.CutLog | Terp_Builder/Pods/leveldb-library/db/log_reader.cc:241-256 | The cut-log result with masked CRC-32C checksums |
| LogChecksum.MaskedCrcIsSound | Terp_Builder/Pods/leveldb-library/db/log_writer.cc:82-110 | What the writer stores, the reader accepts |
| LogChecksum.TypeCrcExtends | Terp_Builder/Pods/leveldb-library/db/log_writer.cc:92-96 | Extending the checksum of the kind byte over the payload is the checksum of both |
| Crc32c.Extend | Terp_Builder/Pods/leveldb-library/util/crc32c.cc:276-377 | For every buffer and alignment the prologue, the four-stride loop and the epilogue compute the byte-at-a-time CRC |
| CrcValues.TestBuffer | Terp_Builder/Pods/leveldb-library/util/crc32c.cc:262-272 | The checksum of the test buffer is the value the source has for it |
| CrcValues.ByteTableBits | Terp_Builder/Pods/leveldb-library/util/crc32c.cc:20-63 | The byte table is the source's at the bytes with one bit |
| CrcValues.TableIsByteTable | Terp_Builder/Pods/leveldb-library/util/crc32c.cc:20-63 | Any additive table with these entries is the byte table |
| CrcValues.StrideBits3 | Terp_Builder/Pods/leveldb-library/util/crc32c.cc:199-242 | Sixteen zero bytes after each bit of the low byte of a word are the entries of the stride table for it |
| Crc32c.CrcAppend | Terp_Builder/Pods/leveldb-library/util/crc32c.h:13-17 | Extending over A and then B is the CRC of A followed by B |
| Crc32c.TableIsRegister | Terp_Builder/Pods/leveldb-library/util/crc32c.cc:287-291 | One byte through the table is eight steps of the bitwise register |
| Crc32c.Step4Is | Terp_Builder/Pods/leveldb-library/util/crc32c.cc:294-301 | The stride step is sixteen zero bytes and one word |
| Crc32c.WordSteps | Terp_Builder/Pods/leveldb-library/util/crc32c.cc:313-320 | Four bytes through the table are one word and four zero bytes |
| Crc32c.UnmaskMask | Terp_Builder/Pods/leveldb-library/util/crc32c.h:29-38 | Unmasking undoes masking |
| CrcValues.Masked | Terp_Builder/Pods/leveldb-library/util/crc32c.h:21-38 | Masked checksums of given values |
| Coding.FixedRoundTrip | Terp_Builder/Pods/leveldb-library/util/coding.cc:9-45 | Fixed-width integers read back |
| Coding.Varint32RoundTrip | Terp_Builder/Pods/leveldb-library/util/coding.cc:47-140 | A 32-bit varint reads back and leaves what follows it, whatever that is |
| Coding.Varint64RoundTrip | Terp_Builder/Pods/leveldb-library/util/coding.cc:81-169 | The same for 64 bits |
| Coding.StringRoundTrip | Terp_Builder/Pods/leveldb-library/util/coding.cc:98-190 | The same for length-prefixed strings |
| KnownBytes.FixedBytes | Terp_Builder/Pods/leveldb-library/util/coding.cc:9-45 | Fixed-width numbers have the lowest byte first |
| KnownBytes.VarintBytes | Terp_Builder/Pods/leveldb-library/util/coding.cc:47-90 | Varints have seven bits a byte, lowest first, and the high bit in all but the last |
| Coding.EncodeVarint32 | Terp_Builder/Pods/leveldb-library/util/coding.cc:47-73 | The case split by size writes the varint |
| Coding.EncodeVarint64 | Terp_Builder/Pods/leveldb-library/util/coding.cc:81-90 | The loop writes the varint |
| Coding.GetVarintPtr | Terp_Builder/Pods/leveldb-library/util/coding.cc:112-157 | The loop reads the varint, losing bits that do not fit as the shifts do |
| WriteBatches.ReadBatch | Terp_Builder/Pods/leveldb-library/db/write_batch.cc:42-80 | Iterating over any batch built by puts, deletes and appends hands over its operations in order and finds nothing wrong |
| WriteBatches.WriteBatch.Append | Terp_Builder/Pods/leveldb-library/db/write_batch.cc:144-149 | The operations are the two lists concatenated, the count is their sum |
| WriteBatches.WriteBatch.Iterate | Terp_Builder/Pods/leveldb-library/db/write_batch.cc:42-80 | On any bytes, operations up to the first error and the error the code reports |
| WriteBatches.InsertInto | Terp_Builder/Pods/leveldb-library/db/write_batch.cc:132-137 | The operations get consecutive sequence numbers from the batch's own |
| WriteBatches.BatchRoundTrip | Terp_Builder/Pods/leveldb-library/db/write_batch.cc:42-96 | The bytes of a batch give its sequence number, count and operations back |
| KnownBytes.BatchBytes | Terp_Builder/Pods/leveldb-library/db/write_batch.cc:5-14 | The bytes of a batch with a put and a delete |
| KnownBytes.EntryBytes | Terp_Builder/Pods/leveldb-library/db/memtable.cc:77-97 | The bytes of a memtable entry |
| VersionEdits.EditRoundTrip | Terp_Builder/Pods/leveldb-library/db/version_edit.cc:41-205 | Decoding what was encoded into an object that holds compaction pointers P gives the edit with P in front of its own, which is the edit exactly when P is empty |
| VersionEdits.RoundTrip | Terp_Builder/Pods/leveldb-library/db/version_edit.cc:41-205 | Encoding an edit and decoding it into a fresh object gives the edit back |
| KnownBytes.EditBytes | Terp_Builder/Pods/leveldb-library/db/version_edit.cc:12-24 | The bytes of the items with one field: their tags and fields |
| KnownBytes.FileBytes | Terp_Builder/Pods/leveldb-library/db/version_edit.cc:12-24 | The bytes of compaction pointers, deleted and new files |
| VersionEdits.VersionEdit.EncodeTo | Terp_Builder/Pods/leveldb-library/db/version_edit.cc:41-85 | The bytes are the scalars, compaction pointers, deleted files in set order and new files |
| VersionEdits.VersionEdit.DecodeFrom | Terp_Builder/Pods/leveldb-library/db/version_edit.cc:107-205 | On any bytes, the items up to the first error, applied in turn to a cleared edit |
| Schedule.RunKeeps | Terp_Builder/Terp_Builder/Models/ScheduleModel.swift:48-272 | After every run of adds and removes each section is on each of its days exactly once if it is among the classes and nowhere otherwise, and a section with known days is among the classes at most once |
| Schedule.Run | Terp_Builder/Terp_Builder/Models/ScheduleModel.swift:48-272 | Taking the steps one by one on the object gives the schedule RunKeeps is about |
| Schedule.ReAddRefusedExactly | Terp_Builder/Terp_Builder/Models/ScheduleModel.swift:94-149 | Adding a section that is among the classes is refused in every consistent schedule if and only if the code knows its lecture pattern |
| Schedule.ReAddRefused | Terp_Builder/Terp_Builder/Models/ScheduleModel.swift:94-192 | Adding a section that is there is refused, whatever the clock |
| Schedule.AddThenRemove | Terp_Builder/Terp_Builder/Models/ScheduleModel.swift:48-81 | A successful add followed by a remove restores every day list and, for a section with known days, the classes; a section that was among the classes has its first occurrence moved to the end |
| Schedule.UnknownPatternTwice | Terp_Builder/Terp_Builder/Models/ScheduleModel.swift:94-149 | A section whose lecture pattern the code does not know is taken into an empty schedule twice, whatever its discussion |
| Schedule.ClashExactly | Terp_Builder/Terp_Builder/Models/ScheduleModel.swift:153-192 | Two meetings that begin before they end are found to clash if and only if they share a time, except when one begins and ends first and the other begins before that end |
| Schedule.StaggeredTaken | Terp_Builder/Terp_Builder/Models/ScheduleModel.swift:153-192 | Two such sections on the same days are both taken into an empty schedule |
| Schedule.OneDayTakenExactly | Terp_Builder/Terp_Builder/Models/ScheduleModel.swift:94-122 | A section whose time is taken on one of its days is refused in every schedule if and only if it has only one day |
| Schedule.PatternDays | Terp_Builder/Terp_Builder/Models/ScheduleModel.swift:94-122 | The days of each pattern, and which patterns the code knows |
| Schedule.ScheduleModel.AddToSchedule | Terp_Builder/Terp_Builder/Models/ScheduleModel.swift:48-81 | The new state is the old one if refused, and the section appended to its days and to the classes otherwise |
| Schedule.ScheduleModel.CheckConflict | Terp_Builder/Terp_Builder/Models/ScheduleModel.swift:94-149 | A section is refused exactly when every one of its days is taken at its time; discussions only count when the lecture pattern is unknown |
| Schedule.ScheduleModel.RemoveFromSchedule | Terp_Builder/Terp_Builder/Models/ScheduleModel.swift:232-266 | The first section of that id goes from the classes and from each day of its pattern |

## Left out

- Lsm.Read: compactions in its runs split no user key at the next level before a value behind a deletion that is read (`SplitsNothing`); without that the property is false of the code, see Findings and `Lsm.CompactionExact`.
- Lsm.ScanShowsHistory: the same restriction on compactions as Lsm.Read.
- Database.ReadsAreHistory: the same restriction on compactions as Lsm.Read.
- Compaction.CompactionState.DoCompactionWork: where an output ends early (grandparent overlap, size) is a parameter; the snapshot is below the largest sequence number there is, as sequence numbers have 56 bits.
- Durability.NothingLost: "the entries compactions left out" is a history variable, and any entries may be; that those left out by the drop rule cannot be read, through crashes too, is what `Database.ReadsAreHistory` shows.
- LogFormat.Reader.ReadRecord: `initial_offset` and resynchronising, and the offset of the last record, are not modelled.
- Bloom.CreateFilter: it holds for every hash of keys into 32 bits; the code's own is not spelled out.
- VersionBuilder.Builder.SaveTo: levels are sequences of file values, so sharing of file objects and their reference counts are not modelled.
- Blocks, tables, filters and the two-level iterator are modelled for uncompressed, uncorrupted data; Snappy, the block cache, `ApproximateOffsetOf` and error iterators are not.
- The Swift schedule is modelled without its published-property notifications; times are read by two arbitrary functions from strings to numbers, so the app's crash on a time that does not parse is not.
- I/O errors, corruption other than a cut log, `paranoid_checks` failures and `reuse_logs`.
- The flush of a memtable in the middle of a compaction: one background job is under way at a time, writes and snapshots beside it.
- Memory ordering: stores and reads of the skip list are steps of one sequence.
- MemTable.MemTable.Add: the skip list of encoded entries is the list of its lowest level; the skip list itself is `SkipList`, over keys known only by their order. Arenas are left out, and random heights are a parameter.
- Seek counts, compaction scores, delays in making room for writes, and statistics.
- The shards of the cache above one LRU list, and its mutexes.
- repair, dump and C bindings, the environment and ports, user interface, network and the vendored Firebase headers.
