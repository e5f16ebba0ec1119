# mulan-lsm, modelled and proved in Dafny

mulan-lsm is a log-structured merge tree in the style of LevelDB: writes go to a log and a skip-list
memtable, full memtables become sorted tables, compactions merge tables down seven levels, and a manifest
records which tables make up the current version. This project models that stack from the bytes up and
proves that its layers fit together.

One vocabulary runs through everything. An *entry* is a user key, a sequence number, a kind (put or
delete) and a value. The *view* of a set of entries at a key and a snapshot `s` is the value of the newest
version at or below `s`, a deletion reading as absent. Every structure of the engine is proved to refine
sets and sorted lists of entries, and every operation to preserve views.

| layer | modules |
|---|---|
| byte formats | `ByteStrings`, `Varints`, `InternalKeys`, `Wal`, `WalEntries`, `Manifest`, `Blocks`, `BlockReaders`, `BlockProofs`, `Bloom`, `Tables`, `TableReaders`, `TableSizes` |
| memory | `SkipLists`, `MemTables`, `VersionedEntries`, `Sorting`, `Iterators` |
| versions and compaction | `Versions`, `Compactions`, `CompactionOutputs`, `CompactionRuns`, `Stores` |
| the engine as a state machine | `Engine`, `Invariants`, `CompactionSteps`, `EngineLaws`, `Recovery`, `Runs`, `FileSteps`, `Progress`, `SteadyRuns`, `Guards`, `Isolation` |
| reads | `Lookups`, `Scans`, `DiskReads`, `DiskScans`, `CapturedReads` |
| runs that go wrong | `Scenarios`, `UnsortedRuns`, `SnapshotRuns` |
| the database object | `Databases` |

The main results, each for all inputs or all runs:

- **Crash safety** (`Runs.CrashSafety`, `Runs.AllowedIsBetween`, `Runs.FirstCrashKeepsPrefix`). After any run
  of writes, flushes, compactions, snapshots, crashes and recoveries, a crash at any step of any operation,
  or at any byte of an append, is recovered to a history that has every acknowledged write, in order. Every
  step and every reopening has options of its own. `FileSteps.CutShortIsCrash` ties the crashes to the order in
  which the program writes its files.
- **Compaction preserves meaning** (`CompactionSteps.CompactKeepsViewsIff`, `Stores.CompactionKeepsLayers`).
  Every readable snapshot sees the same database before and after, wherever the output is cut, if and only if
  no dropped deletion bares an older value; the layer invariants survive if no cut falls inside a user key.
- **What a compaction writes** (`EngineLaws.WrittenIff`, `CompactionOutputs.NextFileIff`,
  `EngineLaws.CompactMovesPointer`) and **what recovery leaves** (`EngineLaws.RecoveryKeepsOnlyCarried`), said of
  the entries and files themselves, and **when a write flushes** (`EngineLaws.WriteFlushesIff`).
- **Snapshot isolation** (`Isolation.SnapshotIsolation`, `Isolation.SnapshotsAreIsolatedInRuns`). While the
  oldest live snapshot stays, no view at or above it changes, wherever compactions cut their output.
- **First hit is newest** (`Lookups.FirstHitIsNewest`), down to the bytes of the files
  (`DiskReads.GetFromDisk`), and **scans show the view** (`Scans.CollectScan`, `DiskScans.ScanFromDisk`).
  A read that has let go of the lock still answers as of its capture (`CapturedReads.CapturedVersionStays`).
- **Tables end to end** (`TableReaders.TableGetIsNewestIff`, `TableReaders.TableIterYieldsAll`). From the
  bytes of a finished file, lookups and iteration agree with the sorted list that was added.
- **Log semantics** (`Wal.CrashYieldsCompleteRecords`, `Wal.SessionsReadBack`) and **manifest replay**
  (`Versions.ReplayEqualsLiveState`).
- **Every run is steady and compaction terminates** (`SteadyRuns.EveryRunIsSteady`,
  `Progress.CompactionTerminates`). With no condition on options, cuts or counters.

The imperative parts of the program (log writer and reader, block builder and iterator, table builder and
iterator, skip list, memtable, merging and database iterators, version set, compaction loop, database) are
classes and loops here too. Each method is proved against a specification function, and the lemmas are
about those functions. `Databases.DbInner.State` gives the engine state a database object stands for, so
the results about runs of `Engine` apply to the methods.

## Where the code does less than it says

Each is stated as the exact condition, or as a concrete input that shows the gap.

- A version edit appends its new files to a level (`src/version.rs:97`), while a point read searches the
  level as if it were sorted (`src/db.rs:428`). `Lookups.FoundByOwnKeyIffSorted` and
  `Lookups.AppendKeepsSortedIff` give the exact conditions; `UnsortedRuns.StoredKeyIsMissed` reaches a missed
  key from a new database. Point reads are therefore proved for sorted levels, scans without that condition.
- An output file may be cut between two versions of one key (`src/compaction.rs:302`), after which the levels
  are no longer disjoint: `CompactionOutputs.RangesAscendIffNoCutInsideKey`. `CompactionOutputs.NoCutInsideKeyIff`
  says which survivors and estimates decide it.
  One such compaction still preserves every view, and so do all that follow while the oldest live snapshot
  stays (`Isolation.SnapshotIsolation`). But point reads, which search by range, can return an overwritten value
  (`SnapshotRuns.CutInsideKeyReadsStale`), and once the oldest snapshot is released, a compaction can drop a
  deletion at its base level while the value it hides stays above: a reader that outlives the oldest snapshot
  sees the value again (`SnapshotRuns.CutInsideKeyResurrects`). Both start from a new database, and
  `SnapshotRuns.LargeValueReadsStale` and `SnapshotRuns.LongNeighbourResurrects` give inputs under the sizes the
  table builder reports. That a compaction bares no such value is the exact condition for it to preserve every
  readable view (`CompactionSteps.CompactKeepsViewsIff`, `Isolation.CompactionShowsHistoryIff`), and it is all
  that runs assume of compactions. It holds before the first cut inside a key
  (`CompactionSteps.LayeredBaresNothing`) and while the oldest snapshot stays (`Isolation.OldestReaderCovers`);
  and there is no such cut while no snapshot is live (`CompactionSteps.NoSnapshotMeansCleanCuts`).
- Recovery avoids appending to a torn log, but does append to a torn manifest (`src/version.rs:172`):
  `Runs.TornManifestRun` loses an acknowledged write that way. Runs therefore assume that a
  crash followed by further operation leaves the manifest on a record boundary; the last crash is free.
  A tear inside the zero trailer or between two pieces would do no harm to the log
  (`Wal.TornInTrailerIsHarmless`, `Wal.TornBetweenPiecesIsHarmless`); runs do not use that.
- Releasing a snapshot releases every snapshot of the same sequence number (`src/version.rs:232`). It is one
  reader's release exactly when no other live snapshot has the number (`Versions.ReleaseIsOneReadersIff`);
  otherwise the other reader can lose its view (`SnapshotRuns.SharedSequenceLosesView`). Snapshot isolation
  counts any such release as the reader's own.
- An edit is logged before it is applied (`src/version.rs:191`), so an edit that is rejected has already made
  the database unrecoverable: `Versions.RejectedEditBreaksRecovery`.
- The exact search of an empty block returns an empty value for the empty key: `BlockProofs.GetOnEmptyBlock`.
- A filter whose bit count is a multiple of 2^32 rejects stored keys: `Bloom.NoFalseNegatives`,
  `TableReaders.TableGetIsNewestIff`. `Tables.FilterIsUsableIff` says for which options that is.
- The first entry of a compaction's first output file is written without being charged to the grandparent
  overlap (`src/compaction.rs:282`), unlike the first entry after a cut. `CompactionOutputs.FirstEntryIsNotCharged`
  says exactly when that matters; the other overlap results speak of the counted entries.
- The overlap cursor relies on grandparents sorted by smallest key (`src/compaction.rs:248` and 332), but they
  come in the order of a level to which edits append. Out of order, a grandparent can be passed over:
  `CompactionOutputs.OverlapIsExactIffSorted`. None is ever charged twice, in any order
  (`CompactionOutputs.OverlapCountsEachGrandparentOnce`).
- The comment on scores asks for more than 1 (`src/compaction.rs:41`), the code for more than 0 (line 55);
  the comment on compact pointers calls them unpersisted (`src/version.rs:111`), the code logs and replays
  them (lines 166 and 207). The model follows the code in both.

## Model

| member | source | states |
|---|---|---|
| `ByteStrings.OrderFacts` | src/internal_key.rs:174-188 | byte strings under slice comparison are a strict total order (they embed in the reals), the order every key comparison rests on |
| `Varints.EncodeVarint` | src/varint.rs:15-33 | the shifting loop appends exactly the base-128 digits and returns their count |
| `Varints.DecodeVarint` | src/varint.rs:47-60 | the accumulating loop, with its length and overflow stops, agrees with a recursive decoder on every buffer, malformed ones included |
| `Varints.DecodeReads` | src/varint.rs:47-60 | on any bytes: the payloads up to the first byte that announces no other, summed modulo 2^64, or failure exactly when none of the first `max_len` bytes ends the number |
| `Varints.RoundTrip32` | src/varint.rs:15-42 | every u32 decodes back from the front of any buffer, whatever follows it, in at most five bytes |
| `Varints.RoundTrip64` | src/varint.rs:26-60 | every u64 decodes back from the front of any buffer, whatever follows it, in at most ten bytes |
| `InternalKeys.EncodeRoundTrip` | src/internal_key.rs:57-87 | decoding inverts encoding, and the three raw accessors read the same fields without decoding |
| `InternalKeys.DecodeIff` | src/internal_key.rs:66-86 | bytes decode if and only if nine or more of them end in a known type, and then they are the encoding of what they decode to |
| `InternalKeys.CmpAgreesWithOrd` | src/internal_key.rs:105-116 | comparing encoded bytes orders two keys exactly as `Ord` orders the decoded keys, and calls them equal exactly when user key and sequence number agree |
| `InternalKeys.KeyBeforeIsTotalOrder` | src/internal_key.rs:174-188 | user key ascending, sequence number descending, is a strict total order |
| `InternalKeys.ComparatorsAreTotalPreorders` | src/internal_key.rs:105-116 | the byte comparator is a total preorder even on bytes that are no internal key at all, so binary searches over corrupt blocks are still well defined |
| `Wal.WalWriter.constructor` | src/wal.rs:129-138 | an append session resumes at the file length modulo the block size |
| `Wal.WalWriter.AddRecord` | src/wal.rs:142-179 | the padding-and-fragment loop terminates, although it may write an empty fragment, and appends exactly the specified fragments |
| `Wal.ReadAll` | src/wal.rs:221-299 | the scanning loop agrees with the recursive reader on arbitrary bytes: trailers, checksum failures, unknown types, truncation, orphan fragments |
| `Wal.ReadsBackEverything` | src/wal.rs:142-299 | any list of records of any sizes reads back identically |
| `Wal.SessionsReadBack` | src/wal.rs:129-179 | so does any list written over any number of clean reopen sessions |
| `Wal.PiecesStayInTheirBlocks` | src/wal.rs:142-179 | no fragment of any log crosses a 32 KB block boundary |
| `Wal.CrashYieldsCompleteRecords` | src/wal.rs:221-299 | cut at any byte, a log yields exactly the records that end within the cut: never a partial, merged or later one |
| `Wal.CompleteByIsLongestFit` | src/wal.rs:221-299 | the number of records a cut log yields is the largest whose encoding fits the cut |
| `Wal.ReadsAfterTornAppend` | src/wal.rs:142-299 | interrupting one append never disturbs the records before it, and only the complete append adds the new one |
| `Wal.TornTailHidesAppend` | src/wal.rs:129-138 | counterexample: one stray byte before a reopened session makes every short record appended in that block invisible to all later reads |
| `Wal.TornInTrailerIsHarmless` | src/wal.rs:142-179 | a file torn inside its zero trailer takes the next record exactly as the whole file does |
| `Wal.TornBetweenPiecesIsHarmless` | src/wal.rs:221-299 | a record torn between two of its pieces is dropped by the reader, and the record appended behind it is read |
| `Wal.BadPieceEndsLog` | src/wal.rs:221-299 | behind any complete records, a piece whose type, length or stored checksum is wrong ends the log: nothing of it or after it is read |
| `WalEntries.EntryRoundTrip` | src/wal.rs:316-357 | decoding inverts encoding if and only if the sequence number fits u64 and both lengths survive their u32 casts |
| `WalEntries.DamagedEntryFails` | src/wal.rs:328-357 | a payload cut short at any byte, or of an unknown type, does not decode |
| `Manifest.EncodeTo` | src/manifest.rs:113-158 | the pushing code appends the present scalar fields and the repeated groups in the fixed order |
| `Manifest.DecodeEdit` | src/manifest.rs:162-258 | the tag loop agrees with the field-by-field decoder on every buffer, malformed ones included |
| `Manifest.TakeFieldRoundTrip` | src/manifest.rs:113-258 | each of the eight kinds of field parses back from the front of any buffer |
| `Manifest.TakenFieldFits` | src/manifest.rs:162-258 | whatever the decoder accepts is within the integer widths of the format |
| `Manifest.DamagedEditFails` | src/manifest.rs:162-258 | an edit is refused as a whole if a field of any kind cut short at any byte, or an unknown tag, follows its fields |
| `Manifest.EditRoundTrip` | src/manifest.rs:113-258 | decoding inverts encoding if and only if every number and length of the edit fits its cast |
| `Blocks.CommonPrefixLen` | src/sstable/block.rs:109-116 | the comparing loop finds a common prefix, and no longer one exists |
| `Blocks.BlockBuilder.Add` | src/sstable/block.rs:50-79 | every entry, in any order, extends the list the builder stands for; after `finish` it is refused and nothing changes |
| `Blocks.BlockBuilder.Finish` | src/sstable/block.rs:81-91 | the bytes are those `BlockProofs.StoredEntry` and `BlockProofs.StoredRestarts` describe for the list the builder stands for |
| `Blocks.AddedEntry` | src/sstable/block.rs:50-79 | the incremental bookkeeping (last key, counter, restart list) matches the description of the whole list |
| `BlockReaders.LowerBoundKv` | src/sstable/block.rs:248-319 | restart binary search plus prefix-decoding scan as loops, on arbitrary block bytes |
| `BlockReaders.GetValue` | src/sstable/block.rs:198-242 | the exact search as loops, on arbitrary block bytes |
| `BlockReaders.BlockIter.Next` | src/sstable/block.rs:389-409 | each call yields the next pair of what is left; at the end, and at the first malformed entry, nothing more comes |
| `BlockReaders.LowerBoundAnswers` | src/sstable/block.rs:248-319 | on any bytes and with any comparator, what a search answers is not below the target, and its value lies in front of the restart array |
| `BlockProofs.ParseBuilt` | src/sstable/block.rs:129-150 | finished bytes parse, with their restart array located exactly |
| `BlockProofs.EntryLayout` | src/sstable/block.rs:336-366 | entry `i` sits at its offset and ends where the next begins |
| `BlockProofs.StoredEntry` | src/sstable/block.rs:50-79 | in the finished bytes every sixteenth key is stored whole and each other one from the first byte on where it parts from the key before it |
| `BlockProofs.StoredRestarts` | src/sstable/block.rs:81-91 | behind the entries come the offset of every sixteenth entry and how many there are |
| `BlockProofs.EntriesBuilt` | src/sstable/block.rs:373-409 | iterating finished bytes yields exactly the added pairs, sorted or not |
| `BlockProofs.LowerBoundRefinesLinearSearch` | src/sstable/block.rs:248-319 | for lists sorted under any total preorder, the lower bound found in the bytes is the one a left-to-right search of the list finds |
| `BlockProofs.GetRefinesLinearSearch` | src/sstable/block.rs:198-242 | the exact search of a non-empty block agrees with a left-to-right search |
| `BlockProofs.GetOnEmptyBlock` | src/sstable/block.rs:322-334 | on an empty block the exact search invents an empty value, precisely for targets that compare equal to the empty key |
| `BlockProofs.LowerBoundOfEmpty` | src/sstable/block.rs:248-319 | the lower bound of an empty block is nothing, although its restart array is read as an entry on the way |
| `Bloom.ComputeHash` | src/bloom.rs:114-123 | the wrapping 32-bit hash loop |
| `Bloom.HashVectors` | src/bloom.rs:114-123 | the hash of no bytes and of one, as numbers |
| `Bloom.ProbeIs` | src/bloom.rs:53-111 | probe `i` is the hash plus `i` times its upper fifteen bits, one at least, wrapping at 32 bits |
| `Bloom.BloomFilter.EnsureCapacity` | src/bloom.rs:33-38 | exactly the fewest whole bytes that hold the requested bits, and 64 at least, none of them set |
| `Bloom.BloomFilter.Insert` | src/bloom.rs:53-67 | the probing loop sets all probe positions and clears none; an empty filter ignores the key |
| `Bloom.BloomFilter.Query` | src/bloom.rs:69-86 | the probing loop answers "maybe" exactly when every probe position is set |
| `Bloom.SetBitSets` | src/bloom.rs:53-67 | setting one bit of a byte leaves every other bit alone |
| `Bloom.NoFalseNegatives` | src/bloom.rs:53-105 | after serialising and rebuilding, every inserted key is answered "maybe" if and only if the bit count survives its cast to u32 |
| `Bloom.MaybeIff` | src/bloom.rs:33-86 | a filter built from a list of keys answers "maybe" exactly to the keys all of whose probes fall on bits that probes of inserted keys fell on |
| `Tables.HandleRoundTrip` | src/sstable/table.rs:42-53 | a handle of u64 fields decodes back, in at most twenty bytes |
| `Tables.FooterRoundTrip` | src/sstable/table.rs:198-205 | two handles never exceed the forty bytes before the magic number, and both are read back |
| `Tables.FooterLayout` | src/sstable/table.rs:198-205 | metaindex handle, index handle, zeros up to byte forty, and the magic number's eight bytes |
| `Tables.DataBlocksPartition` | src/sstable/table.rs:114-150 | whatever the block target, the data blocks are a partition of the entries in order and none is empty |
| `Tables.BlocksReachTarget` | src/sstable/table.rs:131-137 | every data block but the last reaches the target length, and no block had before its last entry |
| `Tables.EstimateIsLength` | src/sstable/block.rs:93-95 | the estimate a block is cut by is the exact length it would have, were it finished now |
| `Tables.TableBuilder.constructor` | src/sstable/table.rs:90-109 | an empty table over the empty filter of exactly the size the block target and the bits per key call for |
| `Tables.FilterIsUsableIff` | src/sstable/table.rs:93-97 | that filter can be probed if and only if there are no bits per key or its size in bits, rounded up to bytes, is no multiple of 2^32 |
| `Tables.TableBuilder.FlushDataBlock` | src/sstable/table.rs:140-150 | a non-empty open block goes to the file and its last key and handle wait for the index; an empty one changes nothing |
| `Tables.TableBuilder.Add` | src/sstable/table.rs:114-137 | the added pairs and filter keys grow by exactly this one, the block cut and index bookkeeping staying consistent |
| `Tables.TableBuilder.CurrentSizeEstimate` | src/sstable/table.rs:216-220 | the blocks already cut and the open block, as functions of the pairs added |
| `Tables.TableBuilder.Finish` | src/sstable/table.rs:164-210 | the bytes are the data blocks of all added pairs, the filter, the metaindex, an index with one entry per block, and the footer |
| `TableReaders.BuildTable` | src/memtable.rs:123-155 | adding a list entry by entry and finishing gives exactly the table of that list over the filter every builder of these options starts from |
| `TableReaders.OpenBuilt` | src/sstable/table.rs:234-277 | opening a finished file finds its index and its filter |
| `TableReaders.OpenNeedsMagic` | src/sstable/table.rs:234-253 | bytes that open end in the magic number and are no shorter than a footer |
| `TableReaders.FilterOnlyRejects` | src/sstable/table.rs:280-289 | all a filter can do is turn a lookup into a miss; a table without a readable one is searched |
| `TableReaders.TwoLevelSearch` | src/sstable/table.rs:280-317 | the index picks the one data block that holds the first entry not below the target, or shows that there is none |
| `TableReaders.SentinelOrder` | src/internal_key.rs:157-159 | the lookup key lies after exactly the versions a reader at `s` must skip |
| `TableReaders.TableGetIsNewest` | src/sstable/table.rs:114-317 | building, finishing and opening the file of any sorted list gives a lookup that answers with the newest version at or below `s`, deletions included |
| `TableReaders.TableGetIsNewestIff` | src/sstable/table.rs:280-317 | for a table that holds anything, lookups are right for all keys and snapshots if and only if the filter has a non-zero 32-bit bit count |
| `TableReaders.ParseDataHandles` | src/sstable/table.rs:382-400 | the loop over the index gives every handle in order, or an error if the index or a handle is unreadable |
| `TableReaders.TableIter.Over` | src/sstable/table.rs:331-380 | an iterator exists exactly when the index is readable; what it will yield is fixed although no data block is parsed yet |
| `TableReaders.TableIter.AdvanceToNextBlock` | src/sstable/table.rs:412-430 | unreadable and empty blocks are skipped without losing a later entry |
| `TableReaders.TableIter.Next` | src/sstable/table.rs:432-464 | each call yields the next pair of what is left |
| `TableReaders.TableIterYieldsAll` | src/sstable/table.rs:358-453 | iterating the file of any sorted list yields the list, in order |
| `TableReaders.BlocksAreSeparate` | src/sstable/table.rs:412-430 | on any bytes: a data block that cannot be read costs its own entries and no others |
| `SkipLists.SkipList.FindPrev` | src/skiplist.rs:83-96 | at every level, the last tower before the key is found |
| `SkipLists.SkipList.SpliceIn` | src/skiplist.rs:161-172 | the pointer splicing changes only the links it must |
| `SkipLists.SkipList.Insert` | src/skiplist.rs:152-175 | for every height in 1..12 the list becomes the sorted insertion, an equal key going before the earlier ones |
| `SkipLists.SplicedIsWellFormed` | src/skiplist.rs:152-175 | weaving a tower in between its predecessors restores the whole arena invariant |
| `SkipLists.SkipList.LowerBound` | src/skiplist.rs:134-148 | the entry a linear scan would find first not before the key |
| `SkipLists.SkipList.Get` | src/skiplist.rs:112-131 | present exactly when some entry has this key, and then the value inserted last |
| `SkipLists.Iter.Next` | src/skiplist.rs:67-76 | iteration visits the entries of the bottom level in order |
| `SkipLists.LevelIsSublistOfBelow` | src/skiplist.rs:152-175 | each level is the sublist of the level below made of the towers that reach it |
| `MemTables.MemTable.Apply` | src/memtable.rs:99-107 | the entry is inserted in order, the sequence number never goes back, the counters follow |
| `MemTables.MemTable.Put` | src/memtable.rs:75-84 | a put takes the next sequence number |
| `MemTables.MemTable.Delete` | src/memtable.rs:86-95 | a delete is a mark with the next sequence number, whether or not the key exists |
| `MemTables.MemTable.GetEntry` | src/memtable.rs:157-168 | the sentinel search gives the newest version at or below `s`, with its kind |
| `MemTables.MemTable.Get` | src/memtable.rs:170-175 | absence and deletion look the same to the user |
| `MemTables.MemTable.SnapshotEntries` | src/memtable.rs:66-73 | exactly the entries at or below `s`, in order |
| `MemTables.MemTable.FlushEntries` | src/memtable.rs:123-155 | every entry in order, and the true first and last internal key |
| `MemTables.MemTableFindsNewest` | src/memtable.rs:99-168 | whatever the order in which distinct versions are applied, a lookup finds the newest one at or below `s` |
| `VersionedEntries.SearchSortedIsNewest` | src/memtable.rs:157-168 | on a sorted list the "first entry at or after the sentinel" is the newest visible version, and nothing is found only when nothing is visible |
| `Versions.VersionSet.NewPending` | src/version.rs:128-141 | an empty state over an empty manifest |
| `Versions.OverlappingInOrder` | src/version.rs:63-74 | the files that overlap a range come in the order of the level, each as often as it is there |
| `Versions.RecoverEdits` | src/manifest.rs:327-340 | the decoding loop: every complete record in order, or an error if one does not decode |
| `Versions.ReplayEdits` | src/version.rs:144-171 | the replay loop over files, scalars and pointers agrees with applying the edits one after the other, error cases included |
| `Versions.VersionSet.Recover` | src/version.rs:144-184 | opening a manifest succeeds exactly when it describes a state, and then has that state, no snapshots and the file as it was |
| `Versions.VersionSet.WriteNewVersion` | src/version.rs:190-210 | the edit is logged even when it is rejected; it is rejected exactly when it names a level that does not exist, and then the state stays |
| `Versions.AppliesIffInRange` | src/version.rs:79-100 | an edit applies to a version if and only if all its levels exist |
| `Versions.EditTakesEffect` | src/version.rs:79-208 | each level keeps, in order, its files the edit does not delete and gains the added ones behind them, even one of a deleted number; the last pointer for a level counts; a number the edit does not carry stays |
| `Versions.RejectedEditBreaksRecovery` | src/version.rs:190-210 | because it is logged first, an edit that was rejected live makes every later recovery fail |
| `Versions.VersionSet.AcquireSnapshot` | src/version.rs:225-228 | one more live snapshot |
| `Versions.VersionSet.ReleaseSnapshot` | src/version.rs:231-235 | every snapshot equal to `s` goes |
| `Versions.ReleaseIsOneReadersIff` | src/version.rs:231-233 | a release gives up exactly one reader if and only if no two live snapshots have its number |
| `Versions.ReplayEqualsLiveState` | src/version.rs:144-210 | recovering the manifest of any list of edits that fit gives the files, scalars and pointers reached by applying them live |
| `Versions.RecoverAfterTornEdit` | src/manifest.rs:327-340 | cut anywhere in its last append, a manifest recovers the state before it; complete, the state after it |
| `Compactions.CompactionScore` | src/compaction.rs:42-60 | the first level with the greatest positive score, and none when every score is zero |
| `Compactions.PickedIsChosen` | src/compaction.rs:133-202 | every pick has a next level, a non-empty first input set (all of level 0, or one file), and all overlapping files below |
| `Compactions.LeftBehindIsApart` | src/compaction.rs:143-177 | every file left behind in the next level lies entirely to one side of the interval the inputs span |
| `Compactions.PreviousDecides` | src/compaction.rs:253-276 | in merge order, looking at the previous entry alone decides whether any newer version is visible to the oldest reader |
| `Compactions.SurvivorsAreSurviving` | src/compaction.rs:256-279 | the loop keeps exactly the entries that an order-free rule keeps: not shadowed for the oldest reader, and no old deletion at the base level of its key |
| `Compactions.CompactionPreservesView` | src/compaction.rs:103-113 | replacing inputs by survivors changes no view of a reader that sees what the rule calls old, unless a dropped deletion uncovers an older value that stays |
| `Compactions.CompactionPreservesViewsIff` | src/compaction.rs:103-113 | and that is exact: all views from the oldest reader on are kept if and only if no dropped deletion uncovers such a value |
| `CompactionOutputs.OutputsArePartition` | src/compaction.rs:281-369 | the output files concatenated are the survivors in order, and none is empty |
| `CompactionOutputs.NextFileIff` | src/compaction.rs:302-329 | a survivor goes to a file of its own if and only if the open file's estimate has reached 2 MiB or its overlap exceeds 20 MiB, and else to the end of the open one |
| `CompactionOutputs.NextFileIffTouched` | src/compaction.rs:302-348 | with the grandparents in order, that overlap is the total size of the grandparents the open file's entries touch, the very first entry of the compaction aside |
| `CompactionOutputs.OverlapCountsEachGrandparentOnce` | src/compaction.rs:331-348 | for grandparents and entries in any order, no grandparent is charged twice to one output file and none that its counted entries do not touch |
| `CompactionOutputs.OverlapIsExactWhenSorted` | src/compaction.rs:331-348 | with the grandparents in order of smallest key, the charged overlap is the total size of those the counted entries touch |
| `CompactionOutputs.OverlapIsExactIffSorted` | src/compaction.rs:246-250 | the overlap is exact for every list of survivors if and only if the grandparents come in order of smallest key |
| `CompactionOutputs.FirstEntryIsNotCharged` | src/compaction.rs:282-298 | while the first output file is open, its overlap is complete if and only if every grandparent of its opening entry is met again by a later entry |
| `CompactionOutputs.OutputOrder` | src/compaction.rs:281-369 | entries of output files, earlier files first, are strictly ascending |
| `CompactionOutputs.RangesAscendIffNoCutInsideKey` | src/compaction.rs:302-329 | output files have disjoint ascending user-key ranges if and only if no cut falls between two versions of one key |
| `CompactionOutputs.NoCutInsideKeyIff` | src/compaction.rs:302-303 | no cut falls inside a key if and only if, whenever a survivor continues the key before it, the open file is below the target size and its overlap below the limit |
| `CompactionOutputs.OneVersionSurvives` | src/compaction.rs:256-279 | when nothing newer than the oldest snapshot is merged, at most one version of a key survives |
| `CompactionOutputs.NoSnapshotNoCutInsideKey` | src/compaction.rs:302-329 | so then no cut can fall inside a key |
| `CompactionRuns.AccumulateOverlap` | src/compaction.rs:334-348 | the grandparent cursor loop |
| `CompactionRuns.Emit` | src/compaction.rs:281-356 | opening, cutting and writing keep the loop variables in step with the described split |
| `CompactionRuns.Consume` | src/compaction.rs:256-279 | one merged entry: dropped by the rule that `EngineLaws.WrittenIff` describes, or written, and remembered either way |
| `CompactionRuns.MergeLoop` | src/compaction.rs:240-357 | for any sorted inputs, repeated versions included, the loop leaves the split of the survivors of some sorted permutation of all their entries |
| `CompactionRuns.DoCompaction` | src/compaction.rs:223-384 | new files with true bounds and sizes, numbered consecutively, holding exactly that split, and every input named as deleted at its level |
| `CompactionRuns.MergeIsUnique` | src/compaction.rs:232-240 | in a sound store only one such permutation exists, so the outputs are determined |
| `Stores.StoredIsDistinct` | src/version.rs:79-100 | in a sound store no version is stored twice |
| `Stores.LayersAreSound` | src/version.rs:79-100 | the layer invariants leave no version in two places |
| `Stores.FlushKeepsLayers` | src/db.rs:440-485 | a flush keeps every layer invariant and moves no entry in or out of the store |
| `Stores.FlushKeepsSound` | src/db.rs:440-485 | a flush keeps a store sound and moves no entry, whatever the order of its layers |
| `Stores.CompactionKeepsLayers` | src/db.rs:498-547 | a compaction keeps every layer invariant: per key, sequence numbers fall from memtable to newest level-0 file to level 6, and deeper levels stay range-disjoint |
| `Stores.CompactionKeepsSound` | src/db.rs:498-547 | a compaction cut anywhere keeps a store sound: sorted non-empty files, unique numbers, no version in two places |
| `Stores.CompactionKeepsViews` | src/db.rs:498-547 | at store level, a compaction cut anywhere that bares no older value changes no view that sees the entries the drop rule calls old |
| `Stores.CompactionKeepsViewsIff` | src/db.rs:498-547 | at store level too the condition is exact |
| `Stores.LayersBareNothing` | src/compaction.rs:106-113 | with the layers in order, no dropped deletion hides anything that is left behind |
| `Stores.BaseLevelMeansNewer` | src/compaction.rs:106-113 | at a key's base level, everything left behind is newer than the inputs: what makes dropping a deletion safe |
| `CompactionSteps.MergedIsSorted` | src/compaction.rs:232-240 | merging the input files gives each of their entries once, in storage order |
| `CompactionSteps.CompactedMembers` | src/db.rs:523-535 | level by level, which files the committed version has |
| `EngineLaws.PickedIs` | src/compaction.rs:133-161 | what is compacted next: of the most loaded level all files if it is level 0, else the first one that reaches past the level's pointer; nothing exactly if there is no such file, no load, or only the last level is the most loaded |
| `EngineLaws.ScoreIs` | src/compaction.rs:29-60 | four files load level 0 fully, 10 MiB load level 1, and ten times as much each level below |
| `EngineLaws.InputsMeetSpans` | src/compaction.rs:163-195 | the other inputs are the files of the next level that meet the span of the chosen ones, and the grandparents those of the level after it that meet the span of all inputs |
| `EngineLaws.WrittenIff` | src/compaction.rs:103-279 | an input entry is written if and only if no newer version of its key among the inputs is seen by every reader and, for a deletion that every reader sees, some file two or more levels below the inputs covers its key |
| `EngineLaws.OldestSnapshotIff` | src/version.rs:238-243 | an entry is old exactly if every live snapshot sees it |
| `EngineLaws.CompactWritesTables` | src/db.rs:498-547 | the outputs are the tables under the next numbers, in storage order, each described by its size and its first and last key; every table there was stays, the replaced ones included |
| `EngineLaws.CompactMovesPointer` | src/db.rs:531-533 | a compaction that wrote anything leaves its level's pointer at the greatest user key written; every other pointer stays, and all do if nothing was written |
| `CompactionSteps.CompactKeepsView` | src/compaction.rs:256-279 | in the running engine, every live snapshot and every later reader sees each key as before a compaction, wherever its output is cut, unless it bares an older value |
| `CompactionSteps.CompactKeepsViewsIff` | src/compaction.rs:265-279 | a compaction keeps every readable view if and only if it bares no older value |
| `CompactionSteps.LayeredBaresNothing` | src/compaction.rs:106-113 | which it never does before the first cut inside a user key |
| `CompactionSteps.CompactKeepsSteady` | src/db.rs:498-547 | a compaction cut anywhere writes exactly the survivors and leaves the engine steady |
| `CompactionSteps.CompactIsOk` | src/db.rs:498-547 | a compaction that bares nothing keeps the whole invariant, manifest included, and the layer order too if no cut falls inside a user key |
| `CompactionSteps.NoSnapshotMeansCleanCuts` | src/compaction.rs:302-329 | no cut falls inside a user key when no snapshot is live |
| `Invariants.CreateNewIsOk` | src/db.rs:139-164 | a new database satisfies the invariant with the empty history |
| `EngineLaws.NewManifestIs` | src/db.rs:139-164 | the manifest of a new database holds one edit: the comparator's name, log 2, next file 3 and sequence number 0 |
| `Invariants.LoggedIsOk` | src/db.rs:252-286 | a logged write extends the history by one entry and keeps the invariant, log bytes included |
| `Invariants.FlushIsOk` | src/db.rs:440-485 | a flush logs one edit, keeps the invariant and stores the same entries |
| `EngineLaws.WriteFlushesIff` | src/db.rs:252-286 | a write stays in the memtable as long as the writes since the last flush, counted with it, are below the entry limit and, if there is one, their keys and values are below the byte limit; otherwise exactly those writes become the one new table, in level 0, and the memtable is empty |
| `Recovery.DecodeWalRoundTrip` | src/db.rs:166-184 | replay decodes the entries that were logged |
| `Recovery.TornLogReads` | src/db.rs:166-184 | a log cut inside its last append replays as the entries before it |
| `Recovery.DiskIsRecoverable` | src/db.rs:166-236 | the disk of a running database recovers to its own history at any moment |
| `Recovery.CrashIsRecoverable` | src/db.rs:252-286 | whatever operation a crash interrupts and at whatever step or byte, the disk it leaves recovers to the history without or with the write in flight |
| `Recovery.RecoverIsLive` | src/db.rs:166-236 | recovery succeeds, applies no entry twice, restores the last sequence number and flushes the replayed writes |
| `Recovery.RecoverIsOk` | src/db.rs:166-236 | if the manifest ends on a record boundary the whole invariant holds again |
| `EngineLaws.RecoveryKeepsOnlyCarried` | src/db.rs:185-236 | opening leaves one log, the live one, and a table only if some file of the recovered version carries its number; all of those stay |
| `EngineLaws.DecodeWalIff` | src/db.rs:174-184 | a log replays if and only if every one of its records decodes, and then to all of them in order |
| `Recovery.RecoveryCrashIsRecoverable` | src/db.rs:185-223 | a crash at any step of recovery itself leaves a disk with the same history |
| `Recovery.TornManifestForgetsEdit` | src/version.rs:172 | counterexample: an edit appended behind one stray manifest byte is invisible to the next replay |
| `Recovery.TornManifestLosesWrite` | src/db.rs:212-223 | from any recoverable disk with nothing to flush and one stray manifest byte, the next acknowledged write is gone after one more crash |
| `Recovery.TornManifestIsReached` | src/db.rs:212-223 | a crash inside recovery's own commit leaves such a disk |
| `FileSteps.StepsDoIt` | src/db.rs:252-547 | carried out completely, the file operations of a write with its flush, or of a compaction, in the program's order, leave the disk of the engine's step |
| `FileSteps.CutShortIsCrash` | src/db.rs:252-547 | between any two of them and inside each (an append at any byte, a table with anything in it), a crash leaves one of the disks the crash results speak of |
| `FileSteps.CutShortRecovers` | src/db.rs:252-547 | so wherever the program stops, the disk recovers to the history without or with the write in flight |
| `FileSteps.RecoveryStepsDoIt` | src/db.rs:185-236 | the same of recovery: table, log and edit, or edit and log, then the removals in any order, leave the recovered disk |
| `FileSteps.RecoveryCutShortIsCrash` | src/db.rs:185-236 | stopped anywhere among these steps, with any of the obsolete files gone, recovery leaves one of the disks its crash result speaks of |
| `FileSteps.RecoveryCutShortRecovers` | src/db.rs:185-236 | so wherever recovery stops, the disk still recovers to the same history |
| `Runs.DoIsOk` | src/db.rs:238-286 | every operation keeps the invariant and extends the history by exactly what it writes |
| `Guards.CompactionKeepsGuard` | src/compaction.rs:253-279 | a compaction that drops for the oldest reader, cut anywhere, keeps this order: below level 0, a version at or below that snapshot is older than every version of its key in the levels above and in the files beside it |
| `Guards.GuardBaresNothing` | src/compaction.rs:265-279 | in that order a compaction bares nothing |
| `Guards.FlushKeepsGuard` | src/db.rs:440-485 | a flush keeps that order |
| `Isolation.DoIsolates` | src/db.rs:238-286 | no operation but the release of the oldest snapshot changes a view at or above it, with any options and any cuts |
| `Isolation.SnapshotIsolation` | src/db.rs:393-408 | before the first cut inside a key, or from any store in that order: while the oldest live snapshot stays, any sequence of operations, each with any options and cut anywhere, keeps every view at or above it |
| `Isolation.SnapshotsAreIsolatedInRuns` | src/db.rs:360-408 | the same from the running states of every run, through crashes and recoveries |
| `Isolation.OldestReaderCovers` | src/compaction.rs:265-279 | while the oldest snapshot stays, no compaction bares an older value |
| `Isolation.CompactionShowsHistoryIff` | src/db.rs:498-547 | what runs assume of a compaction is exact: the database shows its history after it if and only if it bares nothing |
| `Runs.ReadersKeepTheirViews` | src/db.rs:397-408 | as long as no compaction bares an older value, every live snapshot keeps its view, also one that outlives older snapshots |
| `SnapshotRuns.SharedSequenceLosesView` | src/version.rs:231-233 | counterexample: from a new database, under any options that flush every write, two readers at one sequence number, one released, then a write and a compaction: the other reader's value is gone |
| `Runs.RunHolds` | src/db.rs:102-286 | every state of every run of operations, crashes, recoveries and crashed recoveries, each under its own options, is tied to a history its events allow |
| `Runs.RunningShowsAllowedHistory` | src/db.rs:288-348 | in every run, what a running database shows is an allowed history; its layers are in order if no compaction has cut inside a key |
| `Runs.AllowedIsBetween` | src/db.rs:252-286 | an allowed history misses no acknowledged write, invents none and keeps their order, over any number of crashes |
| `Runs.FirstCrashKeepsPrefix` | src/db.rs:252-286 | up to the first crash it is the acknowledged prefix, with or without the one write in flight |
| `Runs.CrashSafety` | src/db.rs:166-286 | after any run, a crash anywhere in any operation, even one that tears the manifest, is recovered to an allowed history, whatever the options of each step and of the reopening, and with the layers in order if nothing was cut inside a key |
| `Runs.TornWriteIsLost` | src/db.rs:166-223 | for any quiet database whose next edit fits the manifest block: crash, crash in recovery, recover, write, crash loses the write |
| `Runs.TornManifestRun` | src/version.rs:172 | counterexample: a new database is one |
| `SteadyRuns.DoKeepsReady` | src/db.rs:238-286 | every operation, with any options and any cuts, keeps the engine steady and every stored entry at or below the memtable's sequence number |
| `SteadyRuns.EveryRunIsSteady` | src/db.rs:238-286 | so every sequence of operations from a new database goes through, leaves a sound store, and bounds the compactions that can follow |
| `Progress.EveryCompactionSinks` | src/compaction.rs:133-202 | every compaction of a steady engine, cut anywhere, strictly lowers the sum over stored entries of their distance to the last level |
| `Progress.SteadyTerminates` | src/db.rs:498-547 | without writes, only as many compactions can follow each other as the entries weigh |
| `Progress.CompactionTerminates` | src/db.rs:498-547 | in particular from every live state |
| `Lookups.FindFileForKey` | src/db.rs:427-438 | the partition-point search and the check of the one file before it |
| `Lookups.FindFileIsExact` | src/db.rs:427-438 | in a sorted level, a file is found exactly when it is in the level and its range contains the key |
| `Lookups.FoundByOwnKeyIffSorted` | src/db.rs:427-438 | every file of a disjoint level is found by its own smallest key if and only if the level is sorted |
| `Lookups.GetFromTables` | src/db.rs:321-348 | the loops over level 0 from the newest file and over one file per deeper level |
| `Lookups.FirstHitIsNewest` | src/db.rs:288-348 | with the layer invariants and sorted deeper levels, the first hit is the newest visible version among all stored entries, a deletion ending the search |
| `Lookups.ReadsShowHistory` | src/db.rs:306-348 | so, before the first cut inside a key and with sorted levels, a read at a readable snapshot returns what the history of writes shows |
| `Lookups.AppendKeepsSortedIff` | src/version.rs:91-98 | committing outputs to a sorted level keeps it sorted if and only if everything left behind lies before every output |
| `SnapshotRuns.CutInsideKeyReadsStale` | src/compaction.rs:302 | counterexample: put, snapshot, put, compact; under any options that flush every write and estimate the newer version at the target size, a point read returns the overwritten value |
| `SnapshotRuns.LargeValueReadsStale` | src/compaction.rs:302 | with the table builder's own estimate, every newer value of 2 MiB or more is such an input, for every block target |
| `SnapshotRuns.CutInsideKeyResurrects` | src/compaction.rs:302 | counterexample: a neighbour fills the file exactly at a deletion whose value an older snapshot keeps; once that snapshot is released, a compaction brings the value back for a reader that is live throughout |
| `SnapshotRuns.LongNeighbourResurrects` | src/compaction.rs:302 | with the table builder's own estimate, a neighbour 34 bytes short of the target size is such an input, for every block target |
| `TableSizes.EstimateOfOne` | src/sstable/table.rs:216-220 | what the builder reports after one entry: its encoding and the bookkeeping of one or two blocks |
| `TableSizes.EstimateOfTwo` | src/sstable/table.rs:216-220 | two entries whose keys share nothing count in full, wherever a block ends |
| `DiskReads.BytesAnswerLikeEntries` | src/sstable/table.rs:280-317 | a lookup in the bytes of a finished table is the sorted search of the entries it was built from |
| `DiskReads.GetFromFiles` | src/db.rs:321-348 | the read loops over the files' bytes find what the layered search finds in their entries |
| `DiskReads.GetFromDisk` | src/db.rs:306-348 | so, with the layer invariants and sorted levels, a read from memtable and file bytes returns the view |
| `DiskScans.LoadFile` | src/sstable/table.rs:331-464 | opening a file and draining its iterator gives the entries of its readable blocks, or the error of an unreadable footer or index |
| `DiskScans.PairsAreSeparate` | src/iterator.rs:165-197 | on any file: a pair whose key does not decode costs itself only |
| `DiskScans.FileReadsBack` | src/sstable/table.rs:358-453 | the file of a table reads back as exactly the entries it was built from |
| `DiskScans.LoadFiles` | src/compaction.rs:232-239 | the files of a list are all read, or an error is returned, exactly if one is missing or its footer or index unreadable; files of tables read back as their entries |
| `DiskScans.ScanFromDisk` | src/db.rs:360-383 | a scan of memtable and file bytes shows exactly the view at `s`, ascending |
| `DiskScans.CompactFromDisk` | src/compaction.rs:223-384 | merging the bytes of the input files writes the outputs the engine describes |
| `DiskScans.BuiltFileHolds` | src/sstable/table.rs:90-210 | a built table is a file of its entries whenever its filter can be probed |
| `DiskScans.WriteFile` | src/memtable.rs:123-155 | exactly one file is written, and every table of the store stays on disk |
| `DiskScans.CompactOnDisk` | src/compaction.rs:223-428 | from files to files: the described outputs, and every table of the store it leaves is on disk again |
| `CapturedReads.DoAllKeeps` | src/db.rs:541-545 | no operation of any sequence changes or removes a table that exists |
| `CapturedReads.CapturedVersionStays` | src/db.rs:306-383 | a read or a scan that captured its version and released the lock finds in the tables what it would have found at once, whatever runs in between |
| `CapturedReads.CapturedReadShowsHistory` | src/db.rs:306-348 | so under the same conditions it returns the history of the moment of its capture |
| `UnsortedRuns.StoredKeyIsMissed` | src/version.rs:91-98 | counterexample: from a new database, under any options that flush every write and make small tables, put, compact, put, compact reach a state where a point read misses a key the view shows |
| `Iterators.MergingIterator.constructor` | src/iterator.rs:71-86 | the first entry of every source is buffered and nothing is lost |
| `Iterators.MergingIterator.Next` | src/iterator.rs:99-111 | a minimum of everything left is returned and exactly that leaves |
| `Iterators.MergingIterator.Peek` | src/iterator.rs:95-97 | a minimum of everything left, left in place |
| `Iterators.Drain` | src/iterator.rs:65-112 | draining the merge gives a sorted permutation of all sources together |
| `Iterators.MergeIsInsertAll` | src/iterator.rs:65-112 | when no version occurs twice, that permutation is the unique sorted list |
| `Iterators.DbIter.Advance` | src/iterator.rs:165-197 | invisible versions, older versions and deleted keys are skipped |
| `Iterators.DbIter.Next` | src/iterator.rs:209-217 | each call shows the next visible pair |
| `Iterators.ScanShowsView` | src/iterator.rs:165-217 | a scan shows exactly the keys whose newest version at or below `s` is a value, each with it, strictly ascending |
| `Scans.NewIteratorAt` | src/db.rs:360-383 | memtable and table sources merged, with every invariant the merge needs |
| `Scans.MergeShowsStore` | src/db.rs:360-383 | although tables hold newer entries too, the merge shows at `s` what the whole store shows |
| `Scans.CollectScan` | src/db.rs:353-383 | collecting a scan: exactly the pairs of the view at `s`, ascending |
| `Databases.DbInner.Put` | src/db.rs:238-243 | an empty key is refused without any effect; else the state becomes the engine's written state |
| `Databases.DbInner.Delete` | src/db.rs:245-250 | the same for a deletion mark |
| `Databases.DbInner.Write` | src/db.rs:252-286 | log, memtable, sequence number and conditional flush together are the engine's step, which flushes exactly when `EngineLaws.WriteFlushesIff` says |
| `Databases.DbInner.FlushMemtable` | src/db.rs:440-485 | table, new log, edit and switch together are the engine's step; an empty memtable changes nothing |
| `Databases.DbInner.RunOneCompaction` | src/db.rs:498-547 | pick, merge, edit and commit together are the engine's step, whose pick, outputs, tables and pointer `EngineLaws` pins; something happened exactly when something was picked |
| `Databases.DbInner.NewSnapshot` | src/db.rs:397-408 | the last sequence number, registered |
| `Databases.DbInner.DropSnapshot` | src/db.rs:94-99 | dropping the guard releases it |
| `Databases.DbInner.Get` | src/db.rs:288-304 | the layered lookup at the last sequence number |
| `Databases.DbInner.GetAt` | src/db.rs:306-319 | the layered lookup at the snapshot |
| `Databases.DbInner.ScanAt` | src/db.rs:360-383 | cloning only the visible part of the memtable loses nothing a scan at `s` would show |
| `Databases.CreateNew` | src/db.rs:139-164 | the objects of a new database stand for the engine's initial state |
| `Databases.ReplayLog` | src/db.rs:174-184 | the replay loop applies every record under its own sequence number and fails exactly when one does not decode |
| `Databases.ReplayDisk` | src/db.rs:166-184 | manifest and log replay; a missing log is an empty one |
| `Databases.Switch` | src/db.rs:185-224 | recovery's own commit: a table and a new log, or only a new log |
| `Databases.RecoverOpen` | src/db.rs:166-236 | opening an existing disk succeeds exactly when the specification does, in the specified state, whose files are those `EngineLaws.RecoveryKeepsOnlyCarried` allows |

## Left out

- The CRC-32C polynomial (section 12.1 of RFC 3720): the checksum is an arbitrary function of the bytes, so
  every result holds for any checksum and none claims that corruption is detected.
- The file system: files are byte sequences, `CURRENT` and directory listings are not modelled, and a
  finished table is durable as a whole. I/O errors are not part of this model.
- At the engine level a table is the list of its entries; `Tables`, `TableReaders` and `DiskScans` prove what
  its bytes yield, and their sizes enter the engine as arbitrary functions of the entries. `TableSizes` gives
  the functions the table builder computes.
- Threads, mutex, condition variable, write stalls and scheduling: operations are atomic steps, as the lock
  makes them, and any order of them is a run. Reads release the lock before they search the tables; that
  this is harmless is `CapturedReads.CapturedVersionStays`. That compaction eventually happens is not claimed.
- `sync_writes = false`: a write is acknowledged once its log record is durable.
- The table cache: reads open the file.
- The random generator of skip-list heights: every height in 1..12 is allowed.
- The layout of the binary heap: the top is any minimum.
- Floating point: scores are exact rationals, and the number of filter probes is an arbitrary byte.
- The filter's false-positive rate, `allowed_seeks`, the UTF-8 check of the comparator name, option
  plumbing and error texts.
- Overflow of sequence and file numbers and of sizes past u64: operations are assumed to stay below it;
  u32 casts of lengths are modelled and give the exact round-trip conditions.
- Overflow of `offset + size` in a corrupt block handle, and blocks whose header claims zero restarts: the
  program panics on the latter, the model treats it as corruption.
- `partition_point` is modelled as its halving loop.
- Entries whose internal key does not parse are skipped by the program after the merge; here they are
  passed over when a file is read, and the merge is modelled over parsed entries.
- Merging is lazy in the program; `DiskScans` reads each input to its end before the merge starts.
- `TableIter::peek`, which answers nothing between two blocks; only `next` is used by the merge.
- `from_keys`, `level0_needs_slowdown`, listing of files and other members that only read a field.
- Crashes while a database is being created, before `CURRENT` exists: the program then refuses to open the
  non-empty directory (`src/db.rs:110-115`), so no write was ever acknowledged.
- Databases.DbInner.RunOneCompaction: speaks of sound stores, in which the merge order is determined;
  `SteadyRuns.EveryRunIsSteady` proves that every sequence of operations leaves one.
- Databases.DbInner.ScanAt: speaks of sound stores, for the same reason; so do `Scans.NewIteratorAt`,
  `Scans.MergeShowsStore`, `Scans.CollectScan`, `DiskScans.ScanFromDisk` and `DiskScans.CompactOnDisk`.
