# BanDB storage engine: model and proofs

This project models the storage side of BanDB, a Go key-value store built on a log-structured merge
tree, and proves that its parts agree with simple specifications:

* the engine with a map from each key to its last write, whatever writes, flushes and compactions do;
* the skip list with a sorted table, for every choice of tower heights;
* the SSTable file, as bytes, with the entry list it was written from, on every read path;
* the k-way merge with "the newest source wins";
* the byte-credit ledger with the bytes really held in memory;
* the write-ahead log with the list of its whole records, and recovery with running the log once.

`dafny verify dfyconfig.toml` checks everything.

## How the modules fit together

| module | source | what it holds |
|---|---|---|
| `ByteStrings`, `Entries` | Go's `bytes`, `encoding/binary`; entries | byte order, fixed-width integers, sorted tables |
| `SkipLists` | `memtable.go` | classes `SkipNode`, `SkipList`: linked towers relinked in place |
| `Bloom`, `PartitionedBloom` | `bloom.go`, `partitioned_bloom.go` | filters, their encodings |
| `SSTableFormat`, `SSTableIO` | `SSTable.go`, `iterator.go` | file layout, writers, index loading, block search |
| `Merge` | `merge_iterator.go`, `iterator.go` | class `MergeIterator`, the merged writer |
| `SSTables` | `SSTable.go` | class `SSTable`: files on disk, metadata list, caches |
| `Lsm` | `memtable.go` | the engine as a step system; the main theorem |
| `Compaction` | `memtable.go`, `SSTable.go` | which merges are invisible; runs that lose a write |
| `ConcurrentReads`, `ReadRaces`, `ReachableRaces` | `memtable.go`, `SSTable.go` | a `Get` that overlaps other steps, and exactly when it is right |
| `MemTables` | `memtable.go` | class `MemTable`: each method is a step, or run of steps, of `Lsm` |
| `Credit`, `Backpressure`, `Stalls`, `ShortestKeys` | `credit.go`, `memtable.go` | class `Pool`; writers and flusher as a step system; exactly when a writer can be left blocked |
| `RangeScan` | `memtable.go`, `fsm.go` | what a range scan visits |
| `Wal`, `Recovery`, `Server` | `wal.go`, `fsm.go` | the log, crash recovery, class `KVServer` |
| `ScanCodec` | `pkg/proto/scan.go` | SCAN request and response codecs |

A value is `Option<Bytes>`; `None` is Go's nil, the tombstone, and `Some([])` is a live empty value. A
table is a sorted list of entries. `Lookup` answers `None` for an absent key and `Some(None)` for a
tombstone. The heart is `Lsm.State` (active table, dirty table, file list oldest first, where the flush
and compaction workers stand) with its steps: a write; the flush's locked swap, its publication or
failure, its locked clearing; and the compaction's visits to levels: the listing of a merge's sources,
the append of the merged file or the failure of the merge, and the removal of one source file at a time.
A flush may publish at any moment, between the listing of the sources and the append too.
`MemTables.MemTable.Abs` gives the state that a real memtable stands for. The contracts of `Get`,
`Write`, the flush methods and `CompactSSTable` say which steps, or which run of steps, they take, so the
theorems about runs of `Lsm` apply to them.

## What the code needs, and what happens without it

Some properties hold only under conditions that the code does not enforce. The model states them as
conditions. Where the model can break one, an exact condition or a losing run is given.

* A merged file must be appended while its sources are still the newest files. The merge is invisible to
  readers, whatever the files hold, exactly when at the append every file after a source is a source too
  (`Compaction.MergeIsInvisibleIffSafe`, over the levels in the list and how many files it had when the
  sources were listed), and reads are right in every run whose merges are all like that
  (`Lsm.ReadsSeeTheLastWrite`). Passes from level 0 are like that as long as no flush publishes during
  one and no merge fails (`Lsm.OrderlyRunsAreSafe`); the code prevents neither. Three runs from the empty
  engine lose a write: a flush publishes while level 0 itself is being merged
  (`Compaction.PublishDuringAMergeLosesAWrite`), a flush publishes between two levels of a pass
  (`Compaction.PublishDuringAPassLosesAWrite`), merges fail (`Compaction.FailedMergesLoseAWrite`).
* Get lists the files and then opens them one by one, while compaction deletes files that it has merged.
  Get is right, whatever the files hold, exactly when each listed file is still there when it is opened
  or was already waiting to be dropped at the listing
  (`ReadRaces.GetIsLinearizableIffFilesAreKept`). `ReadRaces.GetMissesALiveKey` is a run in which Get
  misses a key that is live throughout, and `ReachableRaces.DroppedFileIsMissedFromInit` finds one from
  the empty engine for every run of it whose shape breaks the condition at a listing with no published
  table still in memory.
* A writer that runs out of credit can be left blocked for good. Without failed flushes that takes two
  writers, a budget and a memtable limit of at least 1 (`Stalls.StallsWithoutFailureIff`). With one failed
  flush it can happen to a single writer, when the budget has room for one more record than the memtable
  limit, `LeastBytes(limit + 1) <= budget` (`Stalls.StallsIff`): its signal merges with the retry's, and
  the retry flushes only dirty.
* A Put of an empty value does not survive recovery: `Replay` hands back nil for a value length of 0,
  and the memtable reads that as a tombstone. `Recovery.RecoveryRestores` says that a key is restored
  exactly when its last command is not such a Put.
* A file of the old format, without a bloom section, ends like one with such a section exactly when the
  bytes of its last index entry happen to spell a trailer (`SSTableFormat.OldFileHasBlobIff`); below 4 GB
  of records they cannot.
* Above a file's greatest key the block scan can run on into the index section, so a point lookup in a
  file is claimed only for keys that the range filter lets through.

Three conditions are built into the model and not broken in it: one flush worker
(storage/zstorage/memtable.go:77) and one compaction worker; one writer at a time in `writeStandalone`,
which takes no lock, so that the log and the memtable receive writes in the same order; and file names
that do not repeat, which the model takes from a counter where the code uses the clock.

Lengths must fit their fields: keys below 2^32 bytes, values below 2^32 - 1 (the tombstone sentinel), and
per file (for a merge, over all sources) at most 3.584e9 entries and fewer than 2^61 key and value bytes.
At about that many keys in one namespace the filter that the code computes outgrows its 4-byte length.

## Model

| member | source | states |
|---|---|---|
| Lsm.ReadsSeeTheLastWrite | storage/zstorage/memtable.go:114-149 | Main theorem: from any good state, after any run of writes, flush phases, failed flushes, listings, merges, failed merges and removals in which every merged file is appended while its sources are still the newest files, Get's search order (active, dirty, files newest first) finds exactly the last write to the key, tombstones included, and the invariant still holds |
| Lsm.StepIsInvisible | storage/zstorage/memtable.go:392-424 | Every single step, a phase of Flush at any moment of a pass or of a merge, a failed merge or one source file removed by compaction, leaves every key's answer as it was, except that a write answers for its own key; a merged file must be appended while its sources are the newest files |
| Lsm.StepKeepsInv | storage/zstorage/memtable.go:535-560 | Every such step keeps: tables sorted, paths unique, the flush's table still there until published, a running merge's sources as they were listed, and while sources are being dropped the merged file answers for every one still listed |
| Lsm.InitInv | storage/zstorage/memtable.go:65-82 | The empty engine satisfies the invariant, is in order and finds nothing |
| Lsm.OrderlyRunsAreSafe | storage/zstorage/memtable.go:535-560 | In every run in which no flush publishes during a pass and no merge fails, the list stays ordered oldest to newest with levels never rising, and a level fires only when all below it are empty, so every merge is of the newest files |
| Lsm.OrderlyRunsReadTheLastWrite | storage/zstorage/memtable.go:535-560 | So in every such run from the empty engine reads find the last write |
| Lsm.GetsSeeTheLastWrite | storage/zstorage/memtable.go:114-149 | After any run from the empty engine whose merges are all of the newest files, a key is answered with b if and only if the last write of the key in the run put b; a key never written and a key last deleted are not found |
| Lsm.LastWriteIsTheLast | storage/zstorage/memtable.go:227-250 | The last write of a run is the write after which no step writes the key, and without one the answer is what was there before |
| Lsm.WriteShows | storage/zstorage/memtable.go:227-250 | A write answers for its own key and leaves every other key's answer alone |
| Lsm.MergeStep | storage/zstorage/SSTable.go:550-701 | Appending the merge of files listed earlier, with these still the newest in the list, changes no answer and sets up the removals |
| Lsm.DropStep | storage/zstorage/memtable.go:553-556 | Removing one source, with the others still listed, changes no answer |
| Lsm.LevelIsSuffix | storage/zstorage/SSTable.go:721-732 | When nothing lies below level l, the files of level l are exactly the newest ones, in list order |
| Lsm.RemoveLevel | storage/zstorage/SSTable.go:708-718 | Removing a level's files one by one leaves the other files, in order, and whatever was appended after them |
| Lsm.CompactedCount | storage/zstorage/memtable.go:545-557 | Compacting a level empties it, adds one file to the next and leaves all others' counts alone |
| Lsm.MergeKeepsOrder | storage/zstorage/memtable.go:535-560 | On a list in order, without a publication since the listing, a level that fires is the newest one, and appending its merge keeps the list in order |
| Compaction.MergeIsInvisibleIffSafe | storage/zstorage/SSTable.go:697 | For the levels of the list at the append and the number of files it had when the sources were listed: appending the merge and dropping the sources changes no read, whatever the files hold, if and only if every file after a source is a source |
| Compaction.SafeLayoutIsNewest | storage/zstorage/memtable.go:539 | That layout is the condition of the step system: the list ends with the sources |
| Compaction.UnsafeMergeLosesAWrite | storage/zstorage/SSTable.go:697 | For every other layout there are files whose newest write of a key is hidden by an older one after the merge and the removals |
| Compaction.PublishMidPassIsUnsafe | storage/zstorage/memtable.go:392-424 | A flush that publishes after a merge's sources were listed leaves an unsafe layout on every level; before the listing, on every level above 0 |
| Compaction.PublishDuringAMergeLosesAWrite | storage/zstorage/memtable.go:539-547 | A run from the empty engine, without failed merges, after which a key reads its older value, because a flush published between the listing of level 0 and the append of its merge |
| Compaction.PublishDuringAPassLosesAWrite | storage/zstorage/memtable.go:535-560 | A run from the empty engine, without failed merges, after which a key reads its older value, because a flush published between two levels of a pass |
| Compaction.FailedMergesLoseAWrite | storage/zstorage/memtable.go:547-551 | A run from the empty engine, with no publication during a pass, after which a key reads its older value, because merges failed |
| ConcurrentReads.KeptGetIsLinearizable | storage/zstorage/memtable.go:114-149 | A Get that copies the two list pointers, searches them without the lock, lists the files later and opens them later still, each at its own moment, with any steps in between, returns what an atomic read would have returned at some moment of its run, provided each listed file is there when opened or was waiting to be dropped at the listing |
| ReadRaces.GetIsLinearizableIffFilesAreKept | storage/zstorage/memtable.go:452-473 | For the shape of a run after the listing (which steps, names and levels, not contents), that proviso holds if and only if Get is right in every run of that shape, from any start, for every key |
| ReadRaces.DroppedFileIsMissed | storage/zstorage/SSTable.go:734-744 | When it fails, there is a run of that shape in which Get misses a key that is live at every moment |
| ReachableRaces.DroppedFileIsMissedFromInit | storage/zstorage/SSTable.go:734-744 | When it fails for a listing that a run of the empty engine reaches, with no published table still in memory, the miss happens in a run of the same shape from the empty engine |
| ReadRaces.GetMissesALiveKey | storage/zstorage/SSTable.go:734-744 | Such a run from the empty engine: list, merge, delete, open |
| MemTables.MemTable.constructor | storage/zstorage/memtable.go:65-82 | The new memtable stands for the empty engine and holds no credit |
| MemTables.MemTable.Get | storage/zstorage/memtable.go:114-149 | On real skip lists and real files, Get answers with b exactly when the search order finds the live value b: an absent key and a tombstone are both not found; nothing changes but caches |
| MemTables.MemTable.Write | storage/zstorage/memtable.go:227-261 | Put and Delete: refused exactly when the budget is positive, some credit is in use and the record's bytes on top of it exceed the budget; refused, only a flush is signalled; admitted, the key answers with the new value, or as deleted, and no other answer changes. Credit in use stays equal to the bytes held in both lists, which after an admitted write exceed neither the budget nor, if that is more, the one record |
| MemTables.MemTable.WriteAfterWait | storage/zstorage/memtable.go:254-261 | A write that had to wait, once the pool has room, changes the answers in the same way, with credit still equal to the bytes held and the same bound |
| MemTables.MemTable.WriteReserved | storage/zstorage/memtable.go:231-250 | With the credit already reserved, the insert and the refund leave credit equal to the bytes held, and a flush is signalled exactly when active is over its limit |
| MemTables.MemTable.FlushSwap | storage/zstorage/memtable.go:393-406 | The first locked phase is the flush-begin step when there is something to flush, a retry of dirty included, and nothing otherwise |
| MemTables.MemTable.FlushWrite | storage/zstorage/memtable.go:410-416 | Publishes dirty as the newest file exactly when I/O does not fail; otherwise keeps dirty and signals a retry |
| MemTables.MemTable.FlushDone | storage/zstorage/memtable.go:418-422 | Clearing dirty and releasing its bytes keeps credit equal to the bytes held |
| MemTables.MemTable.Flush | storage/zstorage/memtable.go:392-424 | With both lists empty it does nothing; otherwise it is begin, publish and clear exactly when I/O does not fail, else begin and fail; every key's answer, the invariant and the credit balance survive it |
| MemTables.MemTable.CompactSSTable | storage/zstorage/memtable.go:535-560 | A run of compaction steps of the step system in which the merge of a level that fires fails exactly when that level's I/O does; so without failing I/O it is complete, without failed merges. When complete, whatever the starting layout, each of levels 0 to 9 ends empty or with fewer files than MaxCompactionSize. Every key's answer and the invariant survive when its merges are of the newest files, as they are when it is complete and starts in order, and then the order survives too |
| MemTables.MemTable.CompactLevel | storage/zstorage/memtable.go:538-558 | One level's steps: skipped when short; else merged into one file at the next level exactly when I/O does not fail, and left alone otherwise |
| MemTables.LevelPassIsQuiet | storage/zstorage/memtable.go:538-558 | A level's visit leaves it and the levels below short |
| MemTables.LevelPassMerges | storage/zstorage/memtable.go:541-557 | A level that is empty or has fewer files than MaxCompactionSize is left alone; any other is emptied, and the next level gains one file |
| MemTables.LevelPassIsSmall | storage/zstorage/memtable.go:538-558 | A level's visit adds neither entries nor bytes to the files together |
| MemTables.MemTable.ScanRange | storage/zstorage/memtable.go:171-209 | The walk over both skip lists calls the callback, until it says stop, on exactly the hits of the closed range in the overlay of active on dirty |
| MemTables.MemTable.TakeNext | storage/zstorage/memtable.go:184-196 | Each turn takes the head of the remaining overlay: the smaller key, and on a tie active's entry with both lists advancing |
| RangeScan.OverlayIsMerge | storage/zstorage/memtable.go:165-196 | The overlay that the walk follows is the newest-wins merge of dirty and active, ascending, each key once |
| RangeScan.ScanAgreesWithGet | storage/zstorage/memtable.go:165-209 | The hits are ascending, and a key and value are a hit if and only if the key is in range and in memory and Get returns that value |
| RangeScan.SkipBelowStart | storage/zstorage/memtable.go:175-181 | Starting both walks at firstGTE(start) misses nothing and visits nothing below start |
| RangeScan.CollectsTheFirst | service/fsm.go:176-196 | The capped callback collects exactly the first `max` entries that satisfy the predicate |
| RangeScan.MatchingIsExact | service/fsm.go:181-184 | What the callback lets through is exactly the hits whose value satisfies the predicate, still ascending |
| RangeScan.HotHitsMatch | storage/zstorage/memtable.go:165-209 | The hits visited that satisfy the predicate are exactly the live newest in-memory versions in the closed range that do |
| Server.KVServer.Scan | service/fsm.go:176-196 | The result is ascending and has at most 10000 entries; each is in the closed range, is the live newest in-memory version of its key and satisfies the predicate; and an entry like that is missing only if the result has 10000 entries and all of them have smaller keys |
| SkipLists.SkipList.constructor | storage/zstorage/memtable.go:58-62 | The new list is well formed and empty |
| SkipLists.SkipList.Descend | storage/zstorage/memtable.go:272-280 | The shared descent ends on the last node below the key, and records for every level in use the last node below the key on it |
| SkipLists.SkipList.Search | storage/zstorage/memtable.go:212-224 | Search answers as a linear search of the sorted table the list stands for |
| SkipLists.SkipList.FirstGTE | storage/zstorage/memtable.go:152-163 | Returns the node of the first key not below the argument, or nil |
| SkipLists.SkipList.CollectAllEntry | storage/zstorage/memtable.go:438-450 | Returns the whole sorted table |
| SkipLists.SkipList.Insert | storage/zstorage/memtable.go:271-312 | For any drawn height, the list afterwards stands for the sorted table after the write, is well formed (links on every level, size, byte size), and the returned delta is the change in byte size |
| SkipLists.SkipList.AddTower | storage/zstorage/memtable.go:293-306 | Relinking the new tower's levels in place gives the linked towers with the new one spliced in, nothing else moved |
| SkipLists.SkipList.LinkIn | storage/zstorage/memtable.go:301-306 | The relinking loop makes the new node take over its predecessor's link on each of its levels and only there |
| SkipLists.FirstTallerAfterSplice | storage/zstorage/memtable.go:292-306 | Splicing a tower in redirects exactly the links that cross its position on levels below its height |
| SkipLists.SkipList.LevelEnds | storage/zstorage/memtable.go:212-224 | Following next[i] from any node of a valid list that reaches level i comes to an end, with the nodes visited |
| SkipLists.SkipList.LevelVisitsTallTowers | storage/zstorage/memtable.go:271-312 | In a valid list, following next[i] from the head visits, in ascending key order, exactly the nodes whose towers reach level i |
| SkipLists.SkipList.LevelsNest | storage/zstorage/memtable.go:271-312 | The nodes visited on level i + 1 are all visited on level i, and level 0 visits every node |
| Entries.LookupAfterInsert | storage/zstorage/memtable.go:271-312 | A write changes the answer for its own key and for no other |
| Entries.InsertKeepsSorted | storage/zstorage/memtable.go:271-312 | The table stays sorted and gains no entry but the written one |
| Entries.SortedIsCanonical | storage/zstorage/memtable.go:438-450 | Two sorted tables with the same answers are the same list, so a table specified by its answers is unique |
| ByteStrings.LessIsLexicographic | storage/zstorage/memtable.go:184-199 | The order of bytes.Compare: one key is below another if and only if it is a proper prefix of it, or has the smaller byte where they first differ |
| ByteStrings.FirstDifferenceDecides | storage/zstorage/memtable.go:184-199 | Whatever precedes and follows, two keys that first differ in one byte are ordered by it |
| ByteStrings.BigEndianDigit | storage/zstorage/SSTable.go:172-187 | Byte i of a fixed-width field is the digit of weight 256^(w - 1 - i) |
| ByteStrings.LittleEndianDigit | pkg/proto/scan.go:36-44 | Byte i of a little-endian field is the digit of weight 256^i |
| Entries.TotalBytesAfterInsert | storage/zstorage/memtable.go:268-312 | Byte size changes by the delta that insert computes, which never exceeds key plus value length |
| Entries.DeltaIsGrowth | storage/zstorage/memtable.go:282-311 | insert's delta is the key and value bytes for a new key, and the value bytes less the old value's for one in the table |
| Credit.Pool.TryAcquire | pkg/credit/credit.go:25-38 | Refused if and only if the budget is positive, some credit is in use and n more would exceed the budget, and then nothing changes; granted, used grows by n and with a positive budget is at most the larger of the budget and n |
| Credit.Pool.Release | pkg/credit/credit.go:51-59 | Gives the credit back, clamped at zero |
| Backpressure.CreditIsConserved | storage/zstorage/memtable.go:227-261 | In every interleaving of any number of writers and the flusher, used is active plus dirty bytes plus everything reserved, refunded or released but not yet returned; no release would reach the clamp; at rest used is the unflushed bytes |
| Backpressure.MemoryIsBounded | pkg/credit/credit.go:25-48 | With a positive budget, unflushed bytes never exceed used, and used never exceeds the larger of the budget and the largest record requested |
| Backpressure.StepConserves | storage/zstorage/memtable.go:315-340 | Every step of a writer or of the flusher keeps the ledger equation |
| Backpressure.ClampNeverFires | pkg/credit/credit.go:51-59 | Under the ledger equation no refund or release exceeds what is in use |
| Backpressure.SingleWriterNeverStuck | storage/zstorage/memtable.go:254-261 | In every run of one writer without failed flushes, a blocked writer has a flush running or signalled, and the flusher can step |
| Backpressure.BlockedWriterProgresses | storage/zstorage/memtable.go:379-424 | Only flusher steps are possible while it is blocked, and each lowers a measure of at most five steps and two flushes |
| Backpressure.BlockedForAtMostTwoFlushes | pkg/credit/credit.go:41-59 | No run keeps a single writer blocked through more than two completed flushes |
| Stalls.StallsWithoutFailureIff | storage/zstorage/memtable.go:393-400 | Without failed flushes a state with a writer blocked and no step possible but a new request is reachable if and only if there are two writers or more, a positive budget and a memtable limit of at least 1 |
| Stalls.StallsIff | storage/zstorage/memtable.go:393-414 | With failed flushes it is reachable if and only if the budget is positive and there are two writers, or one and the least bytes of one more key than the memtable limit are within the budget; one failed flush is enough |
| Stalls.RoomIsATable | storage/zstorage/memtable.go:237-240 | The least bytes are within the budget exactly when some set of distinct keys more numerous than the limit fits it |
| ShortestKeys.TableTakesLeast | storage/zstorage/memtable.go:228 | A table of n keys takes at least the bytes of the n shortest byte strings |
| ShortestKeys.ShortestAttains | storage/zstorage/memtable.go:228 | And the table of those takes exactly as many |
| Stalls.TwoWritersCanStall | storage/zstorage/memtable.go:254-261 | For every such configuration of two or more writers a run without failures that ends so |
| Stalls.RoomStrandsAWriter | storage/zstorage/memtable.go:410-416 | For every such configuration of one writer or more a run with one failed flush that ends so |
| SSTableIO.WriteData | storage/zstorage/SSTable.go:164-187 | The loop produces the data section and, block by block, the last key and the starting offset |
| SSTableIO.LoadBlockIndex | storage/zstorage/SSTable.go:434-475 | From a file's bytes alone, the block index it was written with |
| SSTableIO.FindBlock | storage/zstorage/SSTable.go:478-492 | Binary search ends on the first block whose last key is not below the key |
| SSTableIO.SearchBlock | storage/zstorage/SSTable.go:478-536 | Binary search and the scan of at most 64 records answer as a linear search of the entries: found, tombstone or absent |
| SSTableIO.ScanBlock | storage/zstorage/SSTable.go:494-536 | Scanning the right block from its stored offset, and stopping after 64 records, past the key or at the end, gives the linear search's answer |
| SSTableFormat.FooterReadsBack | storage/zstorage/iterator.go:37-55 | Block count and data-end offset are recovered from the bytes |
| SSTableFormat.BlobReadsBack | storage/zstorage/SSTable.go:377-413 | The bloom blob is recovered from the bytes exactly when its length is positive and at most the limit |
| SSTableFormat.EntriesReadBack | storage/zstorage/iterator.go:58-103 | The sequential reader recovers the full entry list, tombstones as nil and empty values as empty, and ends cleanly at the data end |
| SSTableFormat.CutDataIsUnclean | storage/zstorage/iterator.go:73-97 | A data section cut anywhere inside a record, read without a data end, gives the records before it and an error |
| SSTableFormat.CutBetweenIsClean | storage/zstorage/iterator.go:73-78 | Cut between two records it gives those before the cut and no error |
| SSTableFormat.OldFileReadsBack | storage/zstorage/SSTable.go:434-475 | A file of the format without a bloom section reads back in full, footer and block index included |
| SSTableFormat.OldFileHasBlobIff | storage/zstorage/SSTable.go:377-413 | In such a file something passes for a bloom section if and only if the last block starts at 4 GB or more, at an offset whose low half is the trailer's magic number and whose high half is at most the section limit, and the last four bytes of its key field are zero; so never in a file whose last block starts below 4 GB |
| SSTableFormat.BareDataReadsBack | storage/zstorage/iterator.go:36-55 | Without a valid footer records are read to the end of the file |
| SSTableFormat.RecordLayout | storage/zstorage/SSTable.go:172-187 | A record is key length, key, value length, value, with length 0xFFFFFFFF and no bytes for a tombstone |
| SSTableFormat.FileLayout | storage/zstorage/SSTable.go:194-215 | The tail is blob, its length, BLMF, block count, index offset, IDXF |
| SSTableFormat.RecordAt | storage/zstorage/SSTable.go:172-187 | Each record reads back at its offset and the next one starts where it ends |
| SSTableFormat.BlockIndexAt | storage/zstorage/SSTable.go:172-180 | Block b's index entry is the key of its last record and the offset of its first |
| SSTables.ReadAll | storage/zstorage/SSTable.go:257-313 | Returns every record up to the data end, or an error if one is cut |
| SSTables.FinishFile | storage/zstorage/SSTable.go:194-215 | The tail both writers share turns a data section and index into the file layout, below 2^63 bytes, with a bloom filter that vetoes none of its keys |
| SSTables.Vetoes | storage/zstorage/SSTable.go:320-330 | The cached or decoded filter vetoes exactly the keys it reports absent, and those are not in the file |
| SSTables.SSTable.ReadFromSSTable | storage/zstorage/SSTable.go:320-330 | Bloom veto, cached or loaded index, block search or full read: the same answer as a linear search of the file's entries |
| SSTables.SSTable.GetFromSSTables | storage/zstorage/memtable.go:452-473 | Searching files newest first with the key-range filter gives the newest file's answer |
| SSTables.SSTable.GetBloom | storage/zstorage/SSTable.go:359-371 | Cached or loaded, it is the filter the file was written with, or nil only if the section is over the limit |
| SSTables.SSTable.GetBlockIndex | storage/zstorage/SSTable.go:416-431 | Cached or loaded, there is an index and it is the one the file was written with |
| SSTables.SSTable.WriteToSSTable | storage/zstorage/SSTable.go:146-245 | Appends one level-0 file holding the entries exactly when there are entries and I/O does not fail; otherwise nothing that readers see changes |
| SSTables.SSTable.MergeSSTable | storage/zstorage/SSTable.go:550-701 | Appends one file whose entries are the newest-wins merge of the sources, and no larger than them, exactly when there are sources and I/O does not fail; otherwise nothing changes |
| SSTables.SSTable.GetLevelFiles | storage/zstorage/SSTable.go:721-732 | Returns the files of the level, oldest first |
| SSTables.SmallFile | storage/zstorage/SSTable.go:194-215 | A file of entries within the length conditions, bloom section included, is below 2^63 bytes |
| SSTables.SSTable.DropSource | storage/zstorage/SSTable.go:708-744 | Deleting a file and its metadata takes its bytes off the disk and its entries out of both caches, all others staying, and removes it, and only it, for readers |
| Merge.NextRecord | storage/zstorage/iterator.go:58-103 | One call of the file iterator splits off the first record of what is left, or reports the end or the error |
| Merge.Pull | storage/zstorage/merge_iterator.go:74-91 | Fetches the next record; fails only if the source is cut or not strictly ascending from here on |
| Merge.MergeIterator.constructor | storage/zstorage/merge_iterator.go:55-71 | Queues the first record of every non-empty source; an error means some source is bad |
| Merge.MergeIterator.PopAndAdvance | storage/zstorage/merge_iterator.go:94-102 | Consumes exactly one record of the popped source and requeues the source if it has more |
| Merge.MergeIterator.Next | storage/zstorage/merge_iterator.go:105-126 | Yields the least key left with the value of the newest source holding it, and drops that key from every source; stops without error only when all sources are used up |
| Merge.MergingStep | storage/zstorage/merge_iterator.go:105-126 | Appending what Next yields keeps: output ascending, and output plus what is left answers as the sources, newest winning |
| Merge.MergeFiles | storage/zstorage/SSTable.go:600-640 | Succeeds exactly when every source is whole and strictly ascending; then the output is the newest-wins merge, tombstones kept, no larger than the sources, and data section, block index and running offset are those of the output |
| Merge.MergeFits | storage/zstorage/SSTable.go:612-628 | Merging introduces no key or value too long for its field |
| Bloom.AddInPlace | storage/zstorage/bloom.go:72-78 | Exactly the key's positions are set, all other bits keep their value |
| Bloom.Add | storage/zstorage/bloom.go:72-78 | The bits set afterwards are those before and the key's positions; so the key is possibly present, and so is every key that was before |
| Bloom.BitAfterSet | storage/zstorage/bloom.go:72-91 | Setting a bit of a word sets that bit and no other |
| Bloom.QueryFilter | storage/zstorage/bloom.go:82-91 | The probing loop answers whether all the key's positions are set |
| Bloom.AnswersByProbes | storage/zstorage/bloom.go:82-91 | A filter built from a set of keys answers yes if and only if each of the queried key's k probes meets a probe of some key of the set |
| Bloom.ZeroRejects | storage/zstorage/bloom.go:82-91 | A filter without a set bit rejects every key |
| Bloom.BitIsDigit | storage/zstorage/bloom.go:72-91 | Bit i of a word is its binary digit of weight 2^i |
| Bloom.XorIsBitwise | storage/zstorage/bloom.go:56-64 | The hash's exclusive or differs exactly in the bits in which its operands differ |
| Bloom.HashesGrow | storage/zstorage/bloom.go:56-69 | The pair of hashes starts from the offset basis and from it under the second seed, and takes one round of exclusive or and multiplication by the prime, modulo 2^64, for every byte |
| Bloom.PositionIs | storage/zstorage/bloom.go:72-78 | Probe i goes to (h1 + i * h2) modulo 2^64 modulo m |
| Bloom.ReadFilter | storage/zstorage/bloom.go:105-120 | Decoding an encoded filter gives it back, and nothing is accepted but the encoding of the filter returned |
| Bloom.WriteFilter | storage/zstorage/bloom.go:94-102 | The encoder's loop writes m, k and the words, little by little, in the specified layout |
| PartitionedBloom.Build | storage/zstorage/partitioned_bloom.go:52-72 | Every key given is possibly present, with one partition per namespace, each sized for the keys of its own namespace and with no bit set but those of their probes |
| PartitionedBloom.BuiltAnswersByProbes | storage/zstorage/partitioned_bloom.go:86-97 | A built filter answers yes if and only if the key's namespace is there and each of its suffix's k probes meets a probe of some suffix of that namespace |
| PartitionedBloom.SizedIsEncodable | storage/zstorage/bloom.go:32-53 | Up to 3.584e9 keys, filters of the size the code computes fit their 4-byte lengths |
| PartitionedBloom.BlobIsSmall | storage/zstorage/partitioned_bloom.go:106-118 | The encoding is linear in the number and length of the keys |
| PartitionedBloom.AddKey | storage/zstorage/partitioned_bloom.go:75-83 | The key is possibly present afterwards, no other key stops being so, and a missing partition is created |
| PartitionedBloom.Decode | storage/zstorage/partitioned_bloom.go:122-156 | Decoding any encoding of a filter, in whatever partition order, gives the filter back |
| PartitionedBloom.Encode | storage/zstorage/partitioned_bloom.go:106-118 | Writes every partition exactly once, in some order |
| Wal.WAL.Append | storage/wal.go:50-62 | Appends exactly op, key length, value length, key and value |
| Wal.WAL.Replay | storage/wal.go:66-103 | Delivers the records of the parse of the file, in order |
| Wal.ReplayStopsAtTheTear | storage/wal.go:66-103 | For every log and every cut, exactly the records wholly before the cut are replayed, in order |
| Wal.WholeBeforeIsMaximal | storage/wal.go:66-103 | "Wholly before" is the longest prefix of records whose encoding fits before the cut |
| Wal.AcknowledgedSurvive | storage/wal.go:50-62 | After a crash during a write every acknowledged record is replayed, and of the one in flight all or nothing |
| Recovery.RecoveryRestores | service/fsm.go:59-71 | Replaying the surviving log, through any engine run, onto any base whose keys all occur in the log: a read answers as before the crash if and only if the key's last command is not a Put of an empty value |
| Recovery.CrashLeavesAPrefix | storage/zstorage/memtable.go:392-424 | Whenever a run from the empty engine is cut short, the files answer as some prefix of its writes |
| Recovery.CrashAndReplay | service/fsm.go:59-71 | From the empty engine: run, lose all but files and log, the log cut anywhere in the record in flight, replay; a read answers as before if and only if the key's last command is not a Put of an empty value |
| Recovery.ReplayOntoBase | service/fsm.go:59-71 | A replay forgets any base whose keys it mentions |
| Recovery.ReplayOntoPrefix | service/fsm.go:59-71 | Replaying a log onto the state of any of its prefixes is replaying it from empty |
| Recovery.SecondReplayChangesNothing | service/fsm.go:59-71 | A second replay of the same writes, through another engine run, changes no read |
| Server.KVServer.WriteStandalone | service/fsm.go:98-112 | Nothing is stored unless logged first; the log grows by the encoding of a Put (1) with its value or a Delete (2); the write is admitted exactly when the pool has room; admitted, a Put makes the key answer with its value and a Delete makes it a tombstone, not found, and no other answer changes; the log stays the encoded history, and every read the last command of the history |
| Server.KVServer.StoreAfterWait | service/fsm.go:98-112 | A logged write that had to wait changes the answers in the same way once the pool has room, with the same guarantee for log and history |
| Server.KVServer.ReplayWAL | service/fsm.go:59-71 | The replay is an engine run whose writes are exactly the surviving records' entries, in order; it stops early only at a record for which the pool has no room, with a flush signalled |
| Server.ReplayShows | service/fsm.go:59-71 | After a replay each key answers with its last surviving record, the value of a Put (1) or a tombstone for a Delete (2); records of other kinds do nothing, and a key without a record answers as before |
| ScanCodec.EncodeScanRequest | pkg/proto/scan.go:33-49 | Filling the buffer at a moving offset gives the request's encoding and leaves no gap |
| ScanCodec.EncodeScanResponse | pkg/proto/scan.go:81-101 | The size loop is exact and the filling loop leaves the response's encoding |
| ScanCodec.RequestRoundTrip | pkg/proto/scan.go:33-78 | A request decodes to what was encoded if and only if its lengths are below 2^32 |
| ScanCodec.CutRequest | pkg/proto/scan.go:52-78 | An encoded request cut before its operand is rejected; cut later it decodes with the operand cut and nothing else changed |
| ScanCodec.ResponseRoundTrip | pkg/proto/scan.go:81-136 | A response decodes to what was encoded if and only if its status is below 256 bytes and its other lengths below 2^32 |
| ScanCodec.ResponsePrefixIsRejected | pkg/proto/scan.go:104-136 | Every strict prefix of the encoding of such a response is rejected |
| ScanCodec.RestIsIgnored | pkg/proto/scan.go:104-136 | Bytes behind a whole response change nothing |
| ScanCodec.DecodeScanResponse | pkg/proto/scan.go:104-136 | The decoding loop computes the response decoder's specification |

## Left out

- Raft election, replication, snapshots and its log (Raft/): not part of this model.
- Reloading SSTables at restart (storage/zstorage/SSTable.go:63-143): recovery starts from any engine state whose keys all occur in the log, whatever order the reload put the files in.
- FlushToSSTable, WriteSSTable and SkipList.delete (storage/zstorage/memtable.go:343-372, 477-522): not used by the write path; the first publishes older entries as the newest file.
- SSTables.SSTable.ReadFromSSTable: files of the old format are not among the class's files; that they read back in full, index and footer included, and when they show no bloom section, is proved of their bytes.
- Orphan files left by failed writes, and fsync: writes either succeed durably or are not seen.
- The exact size and hash count that NewBloomFilter computes in floating point, and false-positive rates: any size from 64 bits up to what n keys at 1% ask for, and any positive hash count, are allowed.
- Predicates over JSON values: a scan's predicate is an arbitrary function of the value.
- TCP server, connections, client, metrics and configuration loading: configuration constants are parameters.
- 64-bit overflow of sizes and counters: they are unbounded integers, except where they are written to a file.
- MergeIterator: sources are values (bytes and a position) held in the heap, where the code holds pointers to open files; container/heap is given its contract, popping a least element.
- The bloom, SSTable and log encoders append to byte sequences where the code fills buffers or writes a file; offsets that are stored or read are modelled. Which I/O calls fail is a parameter.
- Bloom.Add: the filter's bit array is updated in place (`Bloom.AddInPlace`) on a copy, since filters are values held in a map.
- ConcurrentReads.KeptGetIsLinearizable: one search of a skip list during an unsynchronised insert is one moment, and so is one file's probe; a file deleted in the middle of a probe counts as gone or as there.
- SSTables.SSTable.DropSource: deleting the file and taking it off the list are one step; a probe in between counts as one after it, and the merged file is listed by then.
- MemTables.MemTable.Write: the wait in Acquire is not a loop here; a write that finds no room returns with the flush signalled, WriteAfterWait is the rest of it, and Backpressure models the waiting.
- Server.KVServer.WriteStandalone: commands that are neither Put nor Delete, which the code ignores, and a log append that fails half way are not modelled.
- Backpressure: a failed TryAcquire and the signal that follows it are one step (storage/zstorage/memtable.go:255-259), and so are receiving the signal and the locked swap of Flush.
- Appending to a log that already has a torn tail: one crash is followed by one replay.
- ScanCodec.ResponsePrefixIsRejected: for a status of 256 bytes or more, whose length the encoder truncates, nothing is claimed about prefixes.
