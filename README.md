# BabuDB storage core in Dafny

BabuDB is an embedded key-value store. Each database holds several
indices. Each index is an LSM tree: an in-memory overlay tree of
generations over an immutable on-disk index. Every write is first
appended to a write-ahead log of `<view>.<seq>.dbl` files.

This project models the following parts of the storage core:

- **The read side of the on-disk index (`DiskIndex`)**
  - the block index and its 6-byte block locations;
  - the block files and how they are mapped;
  - point lookup and the key count;
  - the ascending or descending range iterator.
- **The prefix lookup of the overlay tree (`MultiOverlayBufferTree`)**, over a
  model of the tree's generations and snapshots.
- **A database (`LSMDatabase`)**
  - opening it empty or from its latest snapshot files;
  - taking snapshots of all or some indices;
  - linking to a written snapshot and deleting older snapshot files;
  - the snapshot file names;
  - the list of latest snapshot files.
- **The engine (`BabuDB`)**
  - the LSN the databases agree on;
  - log replay;
  - the LSN the logger continues from, both at startup and on `reset`;
  - the replay-only `insert`;
  - `hiddenLookup`;
  - the choice of a database's worker.
- **The worker thread (`LSMDBWorker`)**
  - its bounded request queue and one pass of its loop;
  - inserts applied at once in pseudo-sync mode, otherwise on the logger's
    `synced` callback;
  - lookups, prefix lookups, and the `finished`/`failed` calls on listeners.

The modules follow the program's structure:

| module | contents |
|---|---|
| `Wrappers` | Option, Result, Outcome and the error codes |
| `Keys` | byte keys, the unsigned byte order, prefix-to-range |
| `Lsns` | LSNs and their order |
| `Decimal` | the decimal text of `int`/`long` and `Integer.valueOf` |
| `SnapshotNames`, `LogNames` | file names |
| `BlockReaders`, `BlockLayouts`, `DiskIndexes` | the on-disk index |
| `Overlays` | the overlay tree as a class `LSMTree` |
| `Groups` | insert record groups |
| `Databases` | `LSMDatabase` |
| `Workers` | `LSMDBWorker` |
| `Engine` | `BabuDB` |

Objects whose fields the Java code updates are classes. These are
`LSMTree`, `LSMDatabase`, `LSMDBWorker`, `BabuDB` and the range iterator.
File names, LSNs and log replay are value functions. Each class's methods
are proved against those functions.

The file system is modelled as data:

- A database directory is a listing of names, in the order the file system
  returns them, plus the entries of each snapshot file.
- The log directory is a listing plus a map from a log file's LSN to its
  entries.

## Model

| member | source | states |
|---|---|---|
| DiskIndexes.LocationRoundTrip | java/src/org/xtreemfs/babudb/index/reader/DiskIndex.java:374-391 | a block location is read back as the offset (signed big-endian 32-bit at byte 0) and file id (signed 16-bit at byte 4) it was written from |
| DiskIndexes.GetBlock | java/src/org/xtreemfs/babudb/index/reader/DiskIndex.java:332-349 | no block when the start lies past the file's end; otherwise the view of the mapped file from the start to the end offset, or to the file's end when the end is -1, with the index's compression flag |
| DiskIndexes.FileOf | java/src/org/xtreemfs/babudb/index/reader/DiskIndex.java:136 | the mapped file of a file id exists exactly when the id is in range and the slot was filled; otherwise IndexOutOfBounds or a null-pointer failure |
| DiskIndexes.BlockEndsAtNext | java/src/org/xtreemfs/babudb/index/reader/DiskIndex.java:118-136 | a block followed by a block in the same file ends where the next block starts |
| DiskIndexes.BlockEndsAtFileEnd | java/src/org/xtreemfs/babudb/index/reader/DiskIndex.java:118-136 | the last block, or the last block of its file, ends at the end of the file |
| DiskIndexes.LookupBeforeFirst | java/src/org/xtreemfs/babudb/index/reader/DiskIndex.java:106-113 | a key below the first block's first key (or any key in an empty index) is not found |
| DiskIndexes.LookupCorrect | java/src/org/xtreemfs/babudb/index/reader/DiskIndex.java:106-141 | on a consistent index, lookup succeeds, and it finds v under k exactly when (k, v) is one of the index's entries |
| DiskIndexes.AllEntriesSorted | java/src/org/xtreemfs/babudb/index/reader/DiskIndex.java:106-141 | the entries of a consistent index, block after block, are strictly ascending by key |
| DiskIndexes.NumKeysExact | java/src/org/xtreemfs/babudb/index/reader/DiskIndex.java:143-170 | when the first block starts at offset 0 and all blocks but the last hold as many entries as the first, the key count is the number of entries in the index |
| DiskIndexes.RangeComplete | java/src/org/xtreemfs/babudb/index/reader/DiskIndex.java:172-319 | the block-by-block range walk yields exactly the index's entries in [from, to), ascending, or the same entries reversed when descending |
| DiskIndexes.RangeLookup | java/src/org/xtreemfs/babudb/index/reader/DiskIndex.java:171-208 | a NullPointer failure whenever a block-file slot is unmapped; otherwise an IndexOutOfBounds failure exactly when the first block to scan has a file id with no file, and else a fresh iterator that has yielded nothing, will yield the range walk between the clamped start and end blocks, and will then fail exactly when the walk stops at a block with no file |
| DiskIndexes.ResolvableNeverFaults | java/src/org/xtreemfs/babudb/index/reader/DiskIndex.java:298-313 | a range scan over an index whose every block's file id names a mapped file never stops on a missing file |
| DiskIndexes.RangeIterator.constructor | java/src/org/xtreemfs/babudb/index/reader/DiskIndex.java:184-206 | the start block clamped up to 0, the end block clamped down to the last block, the position on the start (ascending) or end (descending) block, nothing loaded yet |
| DiskIndexes.RangeIterator.GetNextBlockData | java/src/org/xtreemfs/babudb/index/reader/DiskIndex.java:270-316 | fails with IndexOutOfBounds, changing nothing, exactly when the block at the position lies within the bounds and its file id names no file; otherwise what is yet to come is the scans of the blocks from that position on, and whether it will fail is whether that chain stops on a missing file |
| DiskIndexes.RangeIterator.HasNext | java/src/org/xtreemfs/babudb/index/reader/DiskIndex.java:211-227 | fails exactly when nothing remains and the scan ends on a missing file; otherwise true exactly when entries remain, changing neither what was yielded nor what remains |
| DiskIndexes.RangeIterator.Next | java/src/org/xtreemfs/babudb/index/reader/DiskIndex.java:230-263 | returns the first remaining entry and moves it to the yielded ones; once nothing remains, IndexOutOfBounds when the scan ends on a missing file and NoSuchElement otherwise |
| DiskIndexes.RangeIterator.Remove | java/src/org/xtreemfs/babudb/index/reader/DiskIndex.java:266-268 | removal is unsupported |
| DiskIndexes.BlockFileGroupMatches | java/src/org/xtreemfs/babudb/index/reader/DiskIndex.java:84-92 | the pattern `blockfile_(\d+).idx` yields the digit group of a block file name, whatever single character stands for the unescaped dot |
| DiskIndexes.MapBlockFiles | java/src/org/xtreemfs/babudb/index/reader/DiskIndex.java:77-100 | the constructor's loop over the `blockfile_` names gives the same slots as the loading function, including the NumberFormat and IndexOutOfBounds failures |
| DiskIndexes.LoadCanonical | java/src/org/xtreemfs/babudb/index/reader/DiskIndex.java:82-100 | when the directory holds `blockfile_0.idx` … `blockfile_<n-1>.idx` in any order, loading succeeds and slot i holds block file i |
| BlockLayouts.InclBottom | java/src/org/xtreemfs/babudb/index/reader/DiskIndex.java:106-113 | the block search returns the last block whose first key is at most the key, or -1 when none is |
| BlockLayouts.InclBottomMiss | java/src/org/xtreemfs/babudb/index/reader/DiskIndex.java:110-113 | the search returns -1 exactly when the index is empty or the key sorts before the first block |
| BlockLayouts.PickedBlockLookup | java/src/org/xtreemfs/babudb/index/reader/DiskIndex.java:106-141 | searching only the block the search picks finds v under k exactly when (k, v) is among all blocks' entries |
| BlockLayouts.InRangeBlocks | java/src/org/xtreemfs/babudb/index/reader/DiskIndex.java:183-195 | entries in [from, to) lie only in the blocks between the clamped start and end block |
| BlockLayouts.WalkCompleteAscending | java/src/org/xtreemfs/babudb/index/reader/DiskIndex.java:211-316 | walking the blocks from start to end, each through its own range scan, yields exactly the entries in [from, to), in order |
| BlockLayouts.WalkCompleteDescending | java/src/org/xtreemfs/babudb/index/reader/DiskIndex.java:211-316 | walking the blocks from end to start yields exactly the entries in [from, to), in reverse order |
| BlockReaders.BlockLookupExact | java/src/org/xtreemfs/babudb/index/reader/DiskIndex.java:139-140 | the reader's lookup in a sorted block finds v under k exactly when (k, v) is in the block |
| BlockReaders.BlockRangeMember | java/src/org/xtreemfs/babudb/index/reader/DiskIndex.java:313-315 | a block's range scan holds exactly the block's entries whose key is in [from, to) |
| BlockReaders.BlockRangeOrdered | java/src/org/xtreemfs/babudb/index/reader/DiskIndex.java:313-315 | a sorted block's range scan is ascending, or descending and equal to the reversed ascending scan |
| Keys.PrefixRangeExact | src/org/xtreemfs/babudb/index/overlay/MultiOverlayBufferTree.java:25-31 | a key lies in the range the comparator derives from a prefix exactly when the prefix is a prefix of the key |
| Overlays.PrefixScanExact | src/org/xtreemfs/babudb/index/overlay/MultiOverlayBufferTree.java:25-31 | a prefix lookup yields exactly the stored entries whose key has the prefix |
| Overlays.RangeScanOrdered | src/org/xtreemfs/babudb/index/overlay/MultiOverlayBufferTree.java:25-39 | a range scan is strictly ascending, and the descending scan is its reverse |
| Overlays.LSMTree.PrefixLookup | src/org/xtreemfs/babudb/index/overlay/MultiOverlayBufferTree.java:25-31 | the prefix lookup on the tree's generations is the prefix scan of the tree's live contents |
| Overlays.LSMTree.PrefixLookupAt | src/org/xtreemfs/babudb/index/overlay/MultiOverlayBufferTree.java:33-39 | the prefix lookup as of a snapshot id is the prefix scan of the contents the tree held when that snapshot was taken |
| Overlays.LSMTree.Lookup | java/src/org/xtreemfs/babudb/BabuDB.java:513 | a lookup through the generations returns what the live contents hold under the key |
| Overlays.LSMTree.constructor | java/src/org/xtreemfs/babudb/lsmdb/LSMDatabase.java:199-211 | a tree over a snapshot file starts with that file's contents; a tree without one starts empty; neither has snapshots |
| Overlays.LSMTree.Insert | java/src/org/xtreemfs/babudb/lsmdb/LSMDBWorker.java:197-217 | an insert changes only that key of the live contents (no value deletes it) and leaves every snapshot as it was |
| Overlays.LSMTree.Delete | java/src/org/xtreemfs/babudb/lsmdb/LSMDBWorker.java:197-217 | a delete removes the key from the live contents only |
| Overlays.LSMTree.CreateSnapshot | java/src/org/xtreemfs/babudb/lsmdb/LSMDatabase.java:255-262 | returns an id not used before, under which the current live contents are kept; the live contents do not change |
| Overlays.LSMTree.Materialize | java/src/org/xtreemfs/babudb/lsmdb/LSMDatabase.java:290-311 | the entries written for a snapshot are the contents at that snapshot, sorted |
| Overlays.LSMTree.LinkToSnapshot | java/src/org/xtreemfs/babudb/lsmdb/LSMDatabase.java:351-358 | linking to a written snapshot drops every snapshot and leaves that file's contents plus the writes since the last snapshot; linking to the newest snapshot keeps the live contents |
| Overlays.NewestSnapshotIsLive | java/src/org/xtreemfs/babudb/lsmdb/LSMDatabase.java:290-311 | the newest snapshot, written out and read back, is the contents up to that snapshot |
| Overlays.MapOfEntries | java/src/org/xtreemfs/babudb/lsmdb/LSMDatabase.java:290-311 | writing contents out as sorted entries and reading them back restores the contents |
| Overlays.LastWriteWins | java/src/org/xtreemfs/babudb/lsmdb/LSMDBWorker.java:197-217 | after a sequence of writes, a key holds the value of its last write, or what it held before when it was not written |
| Overlays.LSMTree.LookupAt | java/test/org/xtreemfs/babudb/LSMTreeTest.java:186-247 | a lookup as of a snapshot id returns what the contents held under the key when that snapshot was taken, whatever was written since |
| Overlays.DeleteEvery | java/test/org/xtreemfs/babudb/LSMTreeTest.java:137-156 | deleting every key of the contents leaves them empty, so every prefix scan yields nothing |
| Overlays.LastDelete | java/test/org/xtreemfs/babudb/LSMTreeTest.java:158-166 | when every write is a delete, the last write to a key is a delete exactly when the key was written |
| Overlays.EmptyPrefixScansAll | java/test/org/xtreemfs/babudb/LSMTreeTest.java:99-126 | the empty prefix scans every entry, in key order ascending and in reverse order descending |
| Overlays.FirstIsSmallest | java/test/org/xtreemfs/babudb/LSMTreeTest.java:280-302 | `firstEntry` exists exactly when the contents are not empty, is a stored entry, and its key is not above any stored key |
| Overlays.LastIsLargest | java/test/org/xtreemfs/babudb/LSMTreeTest.java:280-302 | `lastEntry` exists exactly when the contents are not empty, is a stored entry, and its key is not below any stored key |
| Lsns.CompareTo | java/src/org/xtreemfs/babudb/BabuDB.java:147 | the comparison is negative, zero or positive exactly as the first LSN is before, equal to or after the second |
| SnapshotNames.MatchComplete | java/src/org/xtreemfs/babudb/lsmdb/LSMDatabase.java:42 | the snapshot pattern reads back the three digit groups of every name built from them |
| SnapshotNames.IsSnapshotFilenameExact | java/src/org/xtreemfs/babudb/lsmdb/LSMDatabase.java:416-418 | a path is a snapshot file name exactly when its base name is `IX<d>V<d>SEQ<d>.idx` for digit groups d |
| SnapshotNames.LsnOfName | java/src/org/xtreemfs/babudb/lsmdb/LSMDatabase.java:404-409 | IllegalState exactly when the name does not match; otherwise the view and sequence groups' values when both fit an `int`, and NumberFormat when one does not |
| SnapshotNames.SnapshotNameRoundTrip | java/src/org/xtreemfs/babudb/lsmdb/LSMDatabase.java:395-409 | the name built for (index, view, seq) is a snapshot file name, and reading its LSN gives (view, seq) |
| SnapshotNames.LongSequenceUnreadable | java/src/org/xtreemfs/babudb/lsmdb/LSMDatabase.java:395-409 | a name written with a `long` sequence number above the `int` range is recognised but its LSN cannot be read (NumberFormat) |
| SnapshotNames.NegativeNotRecognised | java/src/org/xtreemfs/babudb/lsmdb/LSMDatabase.java:395-418 | a name built from a negative index, view or sequence number is not a snapshot file name |
| SnapshotNames.IndexPrefixSelects | java/src/org/xtreemfs/babudb/lsmdb/LSMDatabase.java:168-173 | the filter `IX<j>V` keeps a snapshot name of index i exactly when i = j |
| LogNames.LogLsnOfName | java/src/org/xtreemfs/babudb/BabuDB.java:394-401 | IllegalState exactly when the name does not match `(\d+)\.(\d+)\.dbl`; otherwise the LSN read or NumberFormat |
| LogNames.LogNameRoundTrip | java/src/org/xtreemfs/babudb/BabuDB.java:394-401 | the log file name of (view, seq) is read back as (view, seq) |
| LogNames.AddSorted | java/src/org/xtreemfs/babudb/BabuDB.java:393-402 | adding to the ordered set keeps it strictly ascending and holds exactly the old elements and the new one |
| LogNames.AscendingUnique | java/src/org/xtreemfs/babudb/BabuDB.java:393-405 | two strictly ascending lists with the same elements are equal: the replay order depends only on the set of logs |
| Databases.LatestSnapshotLsn | java/src/org/xtreemfs/babudb/lsmdb/LSMDatabase.java:174-191 | the loop over an index's files yields the largest LSN among them, or fails with the first name that cannot be read |
| Databases.ScanIsRunningMax | java/src/org/xtreemfs/babudb/lsmdb/LSMDatabase.java:174-191 | after each file, the running (maxView, maxSeq) is one of the LSNs seen so far and no LSN seen so far is after it |
| Databases.LoadPicksLatest | java/src/org/xtreemfs/babudb/lsmdb/LSMDatabase.java:159-217 | an index with no files starts empty; otherwise it loads the snapshot whose LSN is among its files and is not before any of them |
| Databases.LSMDatabase.Open | java/src/org/xtreemfs/babudb/lsmdb/LSMDatabase.java:106-217 | a negative index count fails with IllegalArgument, as creating the list of trees does, before anything else; otherwise a new database has empty trees and on-disk LSN (0,0); loading from disk succeeds exactly when every index's snapshot loads, gives each tree its snapshot, and takes the on-disk LSN from the last index |
| Databases.LSMDatabase.LoadFromDisk | java/src/org/xtreemfs/babudb/lsmdb/LSMDatabase.java:159-217 | loading succeeds exactly when every index's latest snapshot loads; each tree then holds its snapshot's contents and the on-disk LSN is the last index's; a failure carries the error of an index that fails to load |
| Databases.LSMDatabase.GetIndex | java/src/org/xtreemfs/babudb/lsmdb/LSMDatabase.java:226-229 | the tree of an index in range; IndexOutOfBounds otherwise |
| Databases.LSMDatabase.GetIndexCount | java/src/org/xtreemfs/babudb/lsmdb/LSMDatabase.java:236-238 | the number of indices the database was opened with |
| Databases.LSMDatabase.SnapshotIndex | java/src/org/xtreemfs/babudb/lsmdb/LSMDatabase.java:257-259 | a snapshot of one index: its new id was not in use, the snapshot holds the index's live contents, and no other index and no live contents change |
| Databases.LSMDatabase.SnapshotNext | java/src/org/xtreemfs/babudb/lsmdb/LSMDatabase.java:257-260 | one pass of the loop over all indices: index k gets its snapshot, indices before it keep theirs, indices after it are untouched |
| Databases.LSMDatabase.CreateSnapshot | java/src/org/xtreemfs/babudb/lsmdb/LSMDatabase.java:255-262 | one new snapshot id per index, in index order, each id new to its index and its snapshot holding that index's live contents; no live contents change |
| SnapshotGrowth.TimesListed | java/src/org/xtreemfs/babudb/lsmdb/LSMDatabase.java:269-276 | how often an index is listed among the first k: zero exactly when it is not among them, and at most k |
| SnapshotGrowth.TakenStep | java/src/org/xtreemfs/babudb/lsmdb/LSMDatabase.java:271-274 | taking the snapshot of one more listed index keeps the loop's account: every listing so far has its own new id holding the tree's contents, each tree has gained exactly as many snapshots as it was listed, and an unlisted tree is unchanged |
| Databases.LSMDatabase.SnapshotStep | java/src/org/xtreemfs/babudb/lsmdb/LSMDatabase.java:271-274 | one pass of the loop over the listed indices keeps that account, with one more listing taken |
| Databases.LSMDatabase.SnapshotsUpTo | java/src/org/xtreemfs/babudb/lsmdb/LSMDatabase.java:269-276 | the loop stops at the first listed index that does not exist, or at the end of the list; every listing before that has its own new snapshot, and those are the only new snapshots |
| Databases.LSMDatabase.CreateSnapshotOf | java/src/org/xtreemfs/babudb/lsmdb/LSMDatabase.java:269-276 | succeeds exactly when every listed index exists, and then returns one new id per listing. On failure the first missing listed index is exposed; listings before it have their snapshots, and no other snapshot is added. Live contents never change, and earlier snapshots are kept in every case |
| Databases.LSMDatabase.CleanupSnapshot | java/src/org/xtreemfs/babudb/lsmdb/LSMDatabase.java:351-384 | a snapshot file that is still listed keeps its contents, whatever the outcome; on success every index is linked to its written snapshot file, the on-disk LSN is the snapshot's, and the directory keeps exactly the files the sweep spares |
| Databases.LSMDatabase.SweepListing | java/src/org/xtreemfs/babudb/lsmdb/LSMDatabase.java:363-382 | the deletion loop leaves the listing and files the sweep function describes, stopping at a name whose LSN cannot be read |
| Databases.LSMDatabase.SweepLoop | java/src/org/xtreemfs/babudb/lsmdb/LSMDatabase.java:366-382 | the loop over the listing keeps, deletes and stops exactly as the per-name verdicts say, and the files left are the listed ones minus those it deleted |
| Databases.LSMDatabase.SweepTurn | java/src/org/xtreemfs/babudb/lsmdb/LSMDatabase.java:366-380 | one name of the listing: deleted or kept as the sweep function decides, or, when its LSN cannot be read, the sweep stops there with the rest of the listing kept |
| Databases.SweepDeletesOlder | java/src/org/xtreemfs/babudb/lsmdb/LSMDatabase.java:366-379 | only listed snapshot files older than the linked LSN are deleted |
| Databases.SweepCompletes | java/src/org/xtreemfs/babudb/lsmdb/LSMDatabase.java:363-382 | the sweep completes exactly when every listed name that matches the snapshot pattern has a readable LSN, and then it keeps exactly the files not older than the linked LSN |
| Databases.SweepIdempotent | java/src/org/xtreemfs/babudb/lsmdb/LSMDatabase.java:363-382 | sweeping again with the same LSN deletes nothing |
| Databases.SweepSparesLinked | java/src/org/xtreemfs/babudb/lsmdb/LSMDatabase.java:373 | the snapshot file just linked to is never deleted |
| Databases.SweepStopsAtLongSequence | java/src/org/xtreemfs/babudb/lsmdb/LSMDatabase.java:369-370 | a snapshot written with a sequence number above the `int` range stops the sweep with NumberFormat |
| Databases.LSMDatabase.LatestSnapshotFiles | java/src/org/xtreemfs/babudb/lsmdb/LSMDatabase.java:426-467 | the loop over indices and files yields the latest-files list, or the first name that cannot be read |
| Databases.LatestFilesSucceeds | java/src/org/xtreemfs/babudb/lsmdb/LSMDatabase.java:426-467 | listing the latest files succeeds exactly when every index's file names can be read |
| Databases.ListedNamesFollowLoad | java/src/org/xtreemfs/babudb/lsmdb/LSMDatabase.java:426-467 | one name is listed per file of an index, and the last one is the snapshot that loading picks for that index |
| Groups.ApplyRecordsReplays | java/src/org/xtreemfs/babudb/lsmdb/LSMDBWorker.java:197-217 | a group goes through exactly when all its records name existing indices, and then each index ends as its own records' writes replayed in order |
| Groups.LastRecordWins | java/src/org/xtreemfs/babudb/lsmdb/LSMDBWorker.java:197-217 | after a full group, a key holds the value the group last wrote to it in that index, or what it held before |
| Groups.ApplyGroup | java/src/org/xtreemfs/babudb/lsmdb/LSMDBWorker.java:200-214 | the loop over a group's records changes the trees as the group function says and leaves every snapshot unchanged |
| Workers.LSMDBWorker.constructor | java/src/org/xtreemfs/babudb/lsmdb/LSMDBWorker.java:54-64 | a new worker has an empty queue, bounded by `maxQ` when it is positive, and no log entries |
| Workers.LSMDBWorker.AddRequest | java/src/org/xtreemfs/babudb/lsmdb/LSMDBWorker.java:58-68 | a request joins the back of the queue unless a bounded queue is full; nothing else changes |
| Workers.LSMDBWorker.Step | java/src/org/xtreemfs/babudb/lsmdb/LSMDBWorker.java:109-133 | one pass takes the head of the queue. An insert appends one log entry; in pseudo-sync mode the group is applied and the entry is marked applied once; if a record names a missing index the listener is told NO_SUCH_INDEX twice and the group stops; then the request is answered `finished`. Outside pseudo-sync mode nothing is applied or answered yet. A lookup or prefix lookup answers its listener once, with NO_SUCH_INDEX exactly when the index is out of range and otherwise the live value or the prefix scan, and changes no index |
| Workers.LSMDBWorker.DoInsert | java/src/org/xtreemfs/babudb/lsmdb/LSMDBWorker.java:146-160 | appends one entry. In pseudo-sync mode the group is applied at once, exactly once, and the listener is told it finished. Otherwise no index changes until the entry is synced. |
| Workers.LSMDBWorker.InsertIntoIndex | java/src/org/xtreemfs/babudb/lsmdb/LSMDBWorker.java:197-217 | applies the group's records in order; a record naming a missing index stops the group, and the listener is told NO_SUCH_INDEX (twice, as the code does) |
| Workers.LSMDBWorker.ApplyAndFinish | java/src/org/xtreemfs/babudb/lsmdb/LSMDBWorker.java:156-159 | the group is applied to the trees as the group function says, the entry is recorded as applied once more, and the listener then gets `finished` |
| Workers.LSMDBWorker.DoLookup | java/src/org/xtreemfs/babudb/lsmdb/LSMDBWorker.java:162-172 | one answer for the listener: the live value under the key, or NO_SUCH_INDEX exactly when the index does not exist |
| Workers.LSMDBWorker.DoPrefixLookup | java/src/org/xtreemfs/babudb/lsmdb/LSMDBWorker.java:174-184 | one answer for the listener: the ascending prefix scan of the index, or NO_SUCH_INDEX exactly when the index does not exist |
| Workers.LSMDBWorker.Synced | java/src/org/xtreemfs/babudb/lsmdb/LSMDBWorker.java:186-195 | a synced entry leaves the unsynced set. Without pseudo-sync its group is applied and the listener is told it finished. Either way the entry has now been applied exactly once. |
| Workers.FinishNotice | java/src/org/xtreemfs/babudb/lsmdb/LSMDBWorker.java:219-222 | `finish` tells the request's own listener that the request is done |
| Workers.LSMDBWorker.LogFailed | java/src/org/xtreemfs/babudb/lsmdb/LSMDBWorker.java:224-228 | a failed entry leaves the unsynced set, and its listener is told IO_ERROR; its group is never applied without pseudo-sync |
| Workers.InsertKeepsLedger | java/src/org/xtreemfs/babudb/lsmdb/LSMDBWorker.java:146-160 | logging an insert keeps every appended entry applied at most once, and exactly once in pseudo-sync mode |
| Workers.SyncedKeepsLedger | java/src/org/xtreemfs/babudb/lsmdb/LSMDBWorker.java:186-195 | the synced callback applies the entry exactly once in either mode |
| Workers.FailedKeepsLedger | java/src/org/xtreemfs/babudb/lsmdb/LSMDBWorker.java:224-228 | a failed entry is never applied without pseudo-sync |
| Engine.CommonOndiskLsnAgrees | java/src/org/xtreemfs/babudb/BabuDB.java:128-136 | the startup loop succeeds exactly when, once a database reports an on-disk LSN, every later one reports the same; it then yields that LSN; otherwise "different LSNs" |
| Engine.DetermineDbLsn | java/src/org/xtreemfs/babudb/BabuDB.java:128-136 | the loop over the databases yields the common on-disk LSN or the "different LSNs" failure |
| Engine.ChooseLsn | java/src/org/xtreemfs/babudb/BabuDB.java:146-149 | the chosen LSN is one of the two candidates and is before neither |
| Engine.ChosenAfterOndisk | java/src/org/xtreemfs/babudb/BabuDB.java:137-149 | the chosen LSN comes after the databases' on-disk LSN |
| Engine.LogNamesIn | java/src/org/xtreemfs/babudb/BabuDB.java:383-388 | the filter keeps exactly the listed names ending in `.dbl` |
| Engine.SortedSetExact | java/src/org/xtreemfs/babudb/BabuDB.java:393-403 | the ordered set is built exactly when every LSN was read, and then holds exactly those LSNs |
| Engine.OrderedLogsExact | java/src/org/xtreemfs/babudb/BabuDB.java:393-403 | the ordered log list exists exactly when every log name's LSN can be read, and holds exactly those LSNs |
| Engine.OrderedLogsOrderFree | java/src/org/xtreemfs/babudb/BabuDB.java:383-403 | the replay order does not depend on the order in which the directory lists the logs |
| Engine.OrderLogs | java/src/org/xtreemfs/babudb/BabuDB.java:393-403 | the loop filling the `TreeSet` yields the ordered log list, or an internal error |
| Engine.InsertGroupEffect | java/src/org/xtreemfs/babudb/BabuDB.java:475-490 | a group for a database that is not there fails with NullPointer and changes nothing. Otherwise only that database changes; the group goes through exactly when all its records name existing indices; and each key then holds the group's last write to it |
| Engine.Insert | java/src/org/xtreemfs/babudb/BabuDB.java:475-490 | `insert` changes the databases' indices as the group function says |
| Engine.ReplayFilesFlat | java/src/org/xtreemfs/babudb/BabuDB.java:405-449 | a replay that succeeds read every log file intact and is the replay of all their entries in order, with the next LSN after the last entry |
| Engine.ReplayLogs | java/src/org/xtreemfs/babudb/BabuDB.java:376-468 | replay leaves the databases' indices, the restored databases and the returned LSN (or error) that the replay function gives |
| Engine.StartLsnAfterEverything | java/src/org/xtreemfs/babudb/BabuDB.java:127-149 | startup settles an LSN exactly when the databases agree and replay succeeds; that LSN is after every on-disk LSN and not before the replay result |
| Engine.Recover | java/src/org/xtreemfs/babudb/BabuDB.java:127-149 | the LSN determination and replay give the start LSN; replay happens only when the databases agree |
| Engine.JavaRem | java/src/org/xtreemfs/babudb/BabuDB.java:535 | Java's `%`: strictly between -n and n, with the sign of the dividend, congruent to the Euclidean remainder |
| Engine.WorkerSlot | java/src/org/xtreemfs/babudb/BabuDB.java:534-536 | a worker slot exists exactly when there are workers and the remainder is not negative; the slot is then the remainder; otherwise the error is an arithmetic error (no workers) or IndexOutOfBounds (negative id) |
| Engine.SpawnWorkers | java/src/org/xtreemfs/babudb/BabuDB.java:177-182 | the requested number of new, idle workers with the pseudo-sync flag and queue bound given |
| Engine.Relaunch | java/src/org/xtreemfs/babudb/BabuDB.java:236-275 | recovery as at startup, then fresh idle workers when an LSN was settled and none otherwise |
| Engine.BabuDB.Start | java/src/org/xtreemfs/babudb/BabuDB.java:115-182 | startup succeeds exactly when an LSN is settled. Then the indices hold the replayed contents, both the next LSN and the logger's LSN are that LSN, and there are `numThreads` idle workers |
| Engine.BabuDB.Reset | java/src/org/xtreemfs/babudb/BabuDB.java:214-289 | reset recovers from the reloaded databases as startup does. It returns the settled LSN and restarts the logger one sequence number past it, with new idle workers |
| Engine.BabuDB.HiddenLookup | java/src/org/xtreemfs/babudb/BabuDB.java:504-514 | NO_SUCH_DB exactly when no database has the name; NO_SUCH_INDEX exactly when the index is out of range; a name that is there with an index in range always succeeds, with the live value under the key |
| Engine.BabuDB.GetWorker | java/src/org/xtreemfs/babudb/BabuDB.java:534-536 | the worker at `dbId % workers`, with Java's remainder and array-bounds failure |

## Left out

- **Outside the model.** Logging, threads, locks, `Thread.start`/`shutdown`/`waitForShutdown`, the checkpointer and the replication manager are not modelled.
  - A worker's `run` loop is modelled as one pass, `Step`. The `quit` flag and blocking `take` are not modelled.
  - A `put` into a full bounded queue waits. The model reports that case as not accepted.
- **Snapshot contents.** Snapshot writing (`writeSnapshot` in its three forms) is not modelled: the snapshot file format, the temporary file and its rename, and `SnapshotConfig` are left out. The entries a snapshot file holds are given by `Overlays.LSMTree.Materialize`.
- **Files not in this model.** `LSMTree.java`, `MultiOverlayTree.java`, `DiskLogger`, `DiskLogFile`, `DatabaseManagerImpl`, `SnapshotManagerImpl` and the serialization of `InsertRecordGroup` and log entries are not part of this model.
  - The overlay tree is modelled by its observable contents: live, and as of each snapshot id.
  - A log file is modelled as its readable entries plus whether it ends in a damaged entry.
  - The database registry is modelled as a sequence of databases, looked up by id or name.
  - `DatabaseManagerImpl.getDatabase` is not part of this model. Both replay branches are modelled with one reading of it: for an id that names no database it gives no database, either `null` or a thrown exception.
  - The lookup by name, `getDatabase(String)`, is read as throwing NO_SUCH_DB for a name that names no database. `hiddenLookup` dereferences its result (BabuDB.java:505) before its `null` check (BabuDB.java:507), so that check cannot be where NO_SUCH_DB comes from. Engine.BabuDB.HiddenLookup gives NO_SUCH_DB under this reading.
  - Under that reading `insert` does not ignore a group for an unknown database, although its comment says it does. It dereferences the lookup (BabuDB.java:476) before its `null` check (BabuDB.java:478), so the group fails. The snapshot branch fails the same way at BabuDB.java:437. Both failures end in the catch-all's INTERNAL_ERROR (BabuDB.java:462-465). The model follows the code; its `null` check guards only a database without an LSM database, which the model's databases never are.
  - Replaying a snapshot payload records the database id in `restored`, in place of calling `createPersistentSnapshot`. A payload that cannot be deserialised, or that names an unknown database, is an internal error.
- **Error codes in replay.**
  - A damaged or incomplete log entry stops replay with IO_ERROR, as the code's `LogEntryException` handler does. Replay does not skip the damaged entry.
  - A record naming a missing index throws from `List.get`. Replay reports this as INTERNAL_ERROR.
- **Block reader.** The block reader's byte format (`DefaultBlockReader`, the compressed reader) is left out. A block is seen through the entries it encodes, via a reader function that is a parameter of the index.
  - The block index is a sequence of first keys with their 6-byte locations.
  - The `ByteBuffer` slicing and positions of `rangeLookup` are not modelled.
  - After `hasNext` or `next` fails on a block with no file, the iterator is not modelled further. The code's iterator would have moved its position past that block, so a caller that catches the failure and calls again resumes after it.
- **Loading from disk.** The model follows the code: the on-disk LSN comes from the last index loaded, since each index overwrites it.
  - A listed snapshot name whose file is missing from the directory model gives IO_ERROR, as `new LSMTree` on a missing file does.
  - A database with no indices keeps no on-disk LSN, the `null` the code leaves.
- Databases.LSMDatabase.CreateSnapshotOf: the `int[]` of snapshot ids is modelled as a sequence. The code fills a fresh array, and no caller sees a partly filled one.
- **DBFileMetaData.** The file sizes and `chunkSize` of `getLastestSnapshotFiles` are left out. Only the file names are modelled.
- **Comparators.** `getComparatorClassNames`, `getComparators` and user-defined comparators are left out. Keys use the unsigned byte order.
  - `prefixToRange` (not shown in the source) is modelled as: drop trailing 0xFF bytes, then increment the last byte; with no byte left there is no upper bound.
- **`USER_DEFINED_LOOKUP`.** The `doUserLookup` branch of `run` is left out, because it runs user code.
- Engine.BabuDB.Start: the LSN arithmetic does not model the `long` overflow of `sequenceNo + 1` at `Long.MAX_VALUE`.
  - The logger starts at the settled LSN at startup (BabuDB.java:170) but one past it on reset (BabuDB.java:263). Both are modelled as written.
- **Replication.** The `ReplicationManager` constructor argument that BabuDB.java:179 and :272 pass to `LSMDBWorker` is left out. The four-argument constructor in LSMDBWorker.java:54 has no such parameter.
- Engine.BabuDB.Reset: `databaseManager.reset()` is modelled by passing the reloaded databases in. The failure of reset leaves the engine with no workers, where the code throws after the old workers have stopped.
- Databases.LSMDatabase.CleanupSnapshot: a failure part-way through states that snapshot files are only removed, never changed. It does not state how far the index loop got.
- Workers.LSMDBWorker.LogFailed: in pseudo-sync mode an entry that the logger later fails has already told its listener `finished`, and is then also told `failed`. The model records both notices, as the code does.
- Engine.BabuDB.GetWorker: `numThreads` is a `nat`. With zero workers, `%` throws ArithmeticException, which is modelled as an error.
