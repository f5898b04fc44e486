# THEO storage verification

A Dafny model of the storage structures of THEO, a hybrid key-value store with append-only logs at
the bottom and indexes, compaction and caches on top, and proofs that each fast structure still
means what the plain log beneath it means.

| area | modules |
|---|---|
| framing and recovery of forward logs | `ForwardLog` |
| buffer log, its hash-chain disk index and its crash safety | `BufferIndex`, `BufferIndexWrites`, `BufferLogStore` |
| node files, their lookup and their background compaction | `NodeFile`, `NodeLookup`, `NodeGc` |
| global node index and its commits | `GlobalNodes` |
| block append-only log and its iterator | `BlockFile`, `BlockIndex`, `BlockState`, `BlockLog`, `BlockIterator` |
| sorting and de-duplicating pairs | `KvSort` |
| chunked storage, its full sweep and its rewrite | `ChunkFile`, `ChunkStore`, `ChunkRewrite` |
| chunk index, flat and two-level | `SegmentIndex`, `SegmentLayout`, `SegmentFolder` |
| caches | `AccountCache`, `SharedCache` |
| inline storage allocation | `InlineAllocator` |
| bytes and key order | `Bytes` |

Files and buffers are byte sequences; objects whose methods change fields are classes with those
fields; hash functions and the classification of keys are arbitrary functions. A torn write is a
prefix of one write, with writes in program order. Integers are unbounded except where the width
shows: stored fields have their width, keys and values their length limits, and use counts saturate.

Where the code does not do what its comments say, the model follows the code:

- A node lookup reports a key absent after any tombstone in the append region, and misses account
  updates written after storage updates; `NodeLookup` proves exactly when it agrees with the fold.
- Deleting and rewriting a global node in one commit can bring back a deleted storage pointer;
  `GlobalNodes` proves exactly when a commit replays to the live index.
- Recovery finds no tag in a log that never committed, and then keeps the torn bytes, or, in the
  account log with its leading zero byte, cuts somewhere inside them.
- A full sweep during a commit drops the pending entries from the live global index until a restart.
- Closing the global node file rewrites it without tags, so recovery cannot cut the first commit torn
  after it; and the file is opened before it is cut, which fails when an entry is torn.
- Rewriting a chunk keeps the first record of a repeated key, although the decoder gives write
  order; `ChunkRewrite` proves exactly when a rewrite keeps the last writes.

`dafny verify dfyconfig.toml` checks the whole project.

## Model

| member | source | states |
|---|---|---|
| ForwardLog.FormatExample | THEO/prefixdb/prefixdb.go:3783-3813 | the exact bytes of a record and of a tag |
| ForwardLog.ReadWholeItem | THEO/prefixdb/prefixdb.go:177-185 | a framed record or commit tag reads back at its offset whatever bytes surround it |
| ForwardLog.ReadTornItem | THEO/prefixdb/prefixdb.go:9761-9787 | a proper prefix of a framed record or tag is never taken for a complete one |
| ForwardLog.FindLastTagEndFrom | THEO/prefixdb/prefixdb.go:9761-9787 | the scanning loop computes the end of the last complete tag, for arbitrary bytes |
| ForwardLog.LastTagOfTornLog | THEO/prefixdb/prefixdb.go:9752-9787 | for tagged batches followed by any proper prefix of one more, the last tag found is the end of the committed part, or none when nothing was committed |
| ForwardLog.TrimIsExactIff | THEO/prefixdb/prefixdb.go:9818-9841 | trimming returns exactly the committed bytes if and only if some batch was committed or nothing was torn, whatever the keys and values contain |
| ForwardLog.TrimPaddedIff | THEO/prefixdb/prefixdb.go:9752-9759 | the same for the account log, which starts with one zero byte: exactly the padding and the committed bytes are left if and only if some batch was committed or nothing was torn |
| ForwardLog.TornFirstBatchIsCutInside | THEO/prefixdb/prefixdb.go:9752-9759 | a first batch torn inside a value of zero bytes: the scan from offset 0 takes the zeros for tags, and recovery cuts inside the value |
| ForwardLog.BlankPairReadsAsTag | THEO/prefixdb/prefixdb.go:177-185 | a pair empty on both sides reads back as a tag that takes the next eight bytes |
| ForwardLog.TrimIdempotent | THEO/prefixdb/prefixdb.go:9752-9841 | trimming an arbitrary file twice is trimming it once, whether or not leading padding is allowed |
| BufferIndex.FormatExample | THEO/prefixdb/prefixdb.go:7425-7470 | the exact bytes of an index header |
| BufferIndex.RefMapIsLastWrite | THEO/prefixdb/prefixdb.go:8923-8977 | the last-write-wins scan of the log finds a key exactly when the log holds it, at its last record |
| BufferIndex.RefMapReadsValue | THEO/prefixdb/prefixdb.go:8923-8977 | the value range the scan records holds the bytes of the last value written |
| BufferIndex.EntryReadsBack | THEO/prefixdb/prefixdb.go:8648-8654 | the log record at an index entry's offset reads back with the entry's key and value length |
| BufferIndex.ChainStepReads | THEO/prefixdb/prefixdb.go:7674-7737 | reading a chain record gives the hash, the log offset and the next older record of the bucket, whose id is strictly smaller |
| BufferIndex.LookupRef | THEO/prefixdb/prefixdb.go:8656-8709 | for any hash function, whenever the header is accepted the bounded chain walk answers exactly like the last-write-wins scan: found with the last record's range, or absent |
| BufferIndexWrites.SizeMismatchRejected | THEO/prefixdb/prefixdb.go:7435-7470 | a file whose size disagrees with the record count in its header is rejected |
| BufferIndexWrites.TornHeader | THEO/prefixdb/prefixdb.go:7425-7470 | a header of which only some new bytes arrived is accepted only if it reads as the complete new header |
| BufferIndexWrites.CrashDuringAppend | THEO/prefixdb/prefixdb.go:8221-8274 | at every crash point of an index append, torn writes included, reopening rejects the index or accepts one that is correct for the old or the new log end it names |
| BufferIndexWrites.CrashIsStop | THEO/prefixdb/prefixdb.go:8221-8274 | the files a crash may leave are exactly those left by stopping after some number of bytes |
| BufferIndexWrites.AppendFinishes | THEO/prefixdb/prefixdb.go:8221-8274 | once the header is written the index holds every entry, heads and records of the longer log |
| BufferIndexWrites.CreatedEmpty | THEO/prefixdb/prefixdb.go:8166-8220 | the file written first is a complete index of the empty log |
| BufferIndexWrites.CrashDuringCreate | THEO/prefixdb/prefixdb.go:8166-8274 | the same crash safety for the first creation, from an empty file |
| BufferLogStore.BucketCountForRecords | THEO/prefixdb/prefixdb.go:7358-7376 | the bucket count is the smallest power of two in range that keeps chains at the target length, or the largest |
| BufferLogStore.BuildPayload | THEO/prefixdb/prefixdb.go:7395-7423 | the head array becomes the heads of the longer entry list, the payload holds one chained record per new entry, and every moved head is listed as touched |
| BufferLogStore.WriteTouchedHeads | THEO/prefixdb/prefixdb.go:7567-7591 | after writing, the head table on disk equals the array in memory, and nothing outside the table changed |
| BufferLogStore.ReadHeads | THEO/prefixdb/prefixdb.go:7520-7543 | the head array read back is the head table of the file |
| BufferLogStore.ExtendIndex | THEO/prefixdb/prefixdb.go:8221-8274 | an append extends the index to the new log end, and every crash point of its writes is safe |
| BufferLogStore.CreateIndex | THEO/prefixdb/prefixdb.go:8166-8274 | the first append creates a complete index, and every crash point of its writes is safe |
| BufferLogStore.ScanPending | THEO/prefixdb/prefixdb.go:8277-8320 | the scan of the log lists exactly its keyed records |
| BufferLogStore.RebuildIndex | THEO/prefixdb/prefixdb.go:8277-8388 | a rebuild gives an index that represents the whole log |
| BufferLogStore.BuildMemory | THEO/prefixdb/prefixdb.go:8923-8977 | the full scan builds the last-write-wins map |
| BufferLogStore.UpdateMemory | THEO/prefixdb/prefixdb.go:8485-8527 | the incremental update gives the map a full scan of the longer log would give |
| BufferLogStore.IndexAfterAppend | THEO/prefixdb/prefixdb.go:8166-8275 | an index that covers the log, or the first one, covers the longer log after a keyed append; any other is removed; and wherever the work is interrupted, an index accepted for the longer log is right |
| BufferLogStore.BufferLog.Append | THEO/prefixdb/prefixdb.go:8424-8483 | the log grows by the framed batch, or is unchanged when a pair cannot be framed; a current index, or the first one, is accepted for the longer log, and index and memory stay right |
| BufferLogStore.BufferLog.AppendInterrupted | THEO/prefixdb/prefixdb.go:8221-8274 | an append whose index work stops at any byte, followed by a restart, keeps everything the later operations rely on, and given enough steps does what an append does |
| BufferLogStore.BufferLog.RecoverTornAppend | THEO/prefixdb/prefixdb.go:9861-9896 | a log append torn at any byte, followed by recovery, leaves no index and exactly the items up to the last tag; a log without a tag keeps the torn bytes, and is then a proper log only if nothing was written |
| BufferLogStore.TrimCommittedIff | THEO/prefixdb/prefixdb.go:9818-9841 | for a log with tagged and untagged appends, trimming leaves exactly the items up to the last tag if and only if there is a tag or nothing to cut |
| BufferLogStore.BufferLog.MaybeRebuild | THEO/prefixdb/prefixdb.go:8405-8422 | afterwards a log with keyed records has an accepted index |
| BufferLogStore.BufferLog.Memory | THEO/prefixdb/prefixdb.go:8979-9008 | the map that answers from memory is the last-write-wins map, cached or rebuilt |
| BufferLogStore.BufferLog.Lookup | THEO/prefixdb/prefixdb.go:8656-8709 | after any history of appends, crashes and recoveries, index losses, rebuilds and evictions a usable answer is the scan's answer |
| NodeFile.MergeIdempotent | THEO/prefixdb/prefixTree.go:243-261 | merging a merged entry again changes nothing |
| NodeFile.FormatExample | THEO/prefixdb/prefixTree.go:1169-1190 | the exact bytes of an entry and of a tag |
| NodeFile.DecodeEncode | THEO/prefixdb/prefixTree.go:1169-1209 | an entry decodes to itself, its key truncated to 32 bytes |
| NodeFile.TagIsTag | THEO/prefixdb/prefixTree.go:699-748 | the tag entry of a non-zero block is recognised as a commit tag |
| NodeFile.TagExactly | THEO/prefixdb/prefixTree.go:725-748 | what is recognised as a tag is exactly the tag entry of a non-zero block |
| NodeFile.EntryIsNotTag | THEO/prefixdb/prefixTree.go:725-748 | the encoding of an entry with a key is never recognised as a tag |
| NodeFile.CompactionPreservesFold | THEO/prefixdb/prefixTree.go:631-686 | rewriting a file as the sorted listing of its fold leaves the fold unchanged |
| NodeFile.FoldSlices | THEO/prefixdb/prefixTree.go:631-670 | the two decoding loops compute the fold of both regions |
| NodeFile.BuildEntries | THEO/prefixdb/prefixTree.go:631-686 | the result lists the fold of both regions, strictly sorted by key |
| NodeLookup.FoldUnsortedAt | THEO/prefixdb/prefixTree.go:631-686 | what the fold holds for a key depends only on that key's entries, in order |
| NodeLookup.ReadMatchesFoldIff | THEO/prefixdb/prefixTree.go:1854-1933 | when account size is zero exactly when the offset is, the overlay read of one key equals the compacted fold if and only if its entries satisfy the stated condition on tombstones, storage entries and which account record is newest |
| NodeLookup.ReadAnswerIs | THEO/prefixdb/prefixTree.go:1854-1933 | what a read answers for any entries: nothing after a tombstone, else the storage and account offset of the newest storage entry, else the newest account entry over the sorted hit |
| NodeLookup.OrderlyHistoriesRead | THEO/prefixdb/prefixTree.go:1854-1933 | trailing tombstones, no account-only entry after a storage entry and non-decreasing offsets satisfy that condition |
| NodeLookup.RecreatedKeyIsMissed | THEO/prefixdb/prefixTree.go:1898-1900 | a key deleted and written again reads as absent although the fold holds it |
| NodeLookup.AccountUpdateAfterStorageIsMissed | THEO/prefixdb/prefixTree.go:1854-1933 | an account update after a storage update is not seen by the read although the fold holds it |
| NodeLookup.FindInSorted | THEO/prefixdb/prefixTree.go:750-804 | the search finds a key of the sorted region exactly when it is there, with or without tags in the region |
| NodeLookup.ScanBack | THEO/prefixdb/prefixTree.go:1854-1905 | the reverse scan reports a tombstone anywhere, else the newest storage entry and the newest account entry |
| NodeLookup.Lookup | THEO/prefixdb/prefixTree.go:1854-1933 | the whole point lookup computes the overlay read of the key's entries, which is the folded entry if and only if they meet the condition |
| NodeLookup.FoldSortedAt | THEO/prefixdb/prefixTree.go:631-650 | in a sorted region the fold finds a key exactly where it is stored |
| NodeGc.AppendMeans | THEO/prefixdb/prefixTree.go:1332-1385 | an append extends the meaning of a file as it extends its history |
| NodeGc.CompactMeans | THEO/prefixdb/prefixTree.go:554-629 | rewriting a file from a snapshot that means the history leaves a file that means the history, fit for binary search |
| NodeGc.RunKeepsInv | THEO/prefixdb/prefixTree.go:413-481 | every state of every run satisfies the protocol invariant |
| NodeGc.NothingLostOrResurrected | THEO/prefixdb/prefixTree.go:413-552 | over every interleaving of readers, writers, workers and sweeps, each file on disk, cached copy, snapshot in flight and captured view folds to everything ever appended |
| NodeGc.WriteReachesHistory | THEO/prefixdb/prefixTree.go:1332-1385 | over every interleaving, what a write was given is what its append adds to the history of its file, and nothing else is added in between |
| NodeGc.OnlyAppendsGrow | THEO/prefixdb/prefixTree.go:1332-1385 | no step other than an append changes the history of a file |
| NodeGc.ReaderHasItsFile | THEO/prefixdb/prefixTree.go:1727-1829 | the regions a reader has are those of the file it asked for |
| NodeGc.SnapshotStays | THEO/prefixdb/prefixTree.go:444-481 | a snapshot in flight is not replaced before its compaction finishes |
| NodeGc.CompactionStarts | THEO/prefixdb/prefixTree.go:444-481 | only a reader that saw an append region, or a sweep that finds one on disk, starts a compaction, from exactly what it saw |
| NodeGc.CompactionCompacts | THEO/prefixdb/prefixTree.go:554-629 | a compaction leaves the sorted listing of its snapshot and no append region |
| NodeGc.SweepWaits | THEO/prefixdb/prefixTree.go:2087-2134 | a sweep ends with no compaction in flight |
| NodeGc.WriteBlocksExact | THEO/prefixdb/prefixTree.go:413-442 | over every interleaving, a file's write block is set, once, exactly while a writer or a compaction is at work on it |
| NodeGc.ReaderAnswersHistory | THEO/prefixdb/prefixTree.go:1727-1829 | what a reader answers from its captured view is the fold of the whole history, exactly under the lookup condition |
| GlobalNodes.BatchedPutIff | THEO/prefixdb/prefixTree.go:972-1004 | a put inside a commit keeps live index and replay in step if and only if the pending entry commits cleanly |
| GlobalNodes.RewriteAfterDeleteResurrects | THEO/prefixdb/prefixTree.go:942-1083 | deleting and rewriting a key in one commit brings back the deleted storage pointer after a restart |
| GlobalNodes.BatchedDelete | THEO/prefixdb/prefixTree.go:1060-1083 | a delete inside a commit keeps index and replay in step |
| GlobalNodes.CommitReplays | THEO/prefixdb/prefixTree.go:898-936 | appending the sorted batch and its tag makes the replay equal the live index, up to tombstones |
| GlobalNodes.RewriteReplays | THEO/prefixdb/prefixTree.go:1006-1058 | a file rewritten from the index replays to the index |
| GlobalNodes.GlobalStore.Reload | THEO/prefixdb/prefixTree.go:806-860 | a file loads exactly when its header is right and its append region is whole entries; the index is then the replay of the file |
| GlobalNodes.GlobalStore.Recover | THEO/prefixdb/prefixTree.go:1431-1473 | a restart with recovery opens the file as it is, and if that succeeds cuts it after its last tag and has the replay of what is left |
| GlobalNodes.GlobalStore.Put | THEO/prefixdb/prefixTree.go:972-1004 | the index holds the merged entry; file and index stay in step outside a commit always, inside one exactly when the put commits cleanly |
| GlobalNodes.GlobalStore.PutAll | THEO/prefixdb/prefixTree.go:1298-1326 | several puts are merged in order, and outside a commit appended in one write with their tag; inside one, file and index stay in step exactly when every written entry hides what the file has, as it does with one write per key and commit |
| GlobalNodes.BatchedIff | THEO/prefixdb/prefixTree.go:1298-1326 | that condition, for any run of puts into a pending commit |
| GlobalNodes.GlobalStore.Sweep | THEO/prefixdb/prefixTree.go:554-629 | the full sweep keeps what the file replays to and loads the index from it; during a commit the index stays in step exactly when the pending entries would change nothing |
| GlobalNodes.SweepHidesPendingPut | THEO/prefixdb/prefixTree.go:600-616 | a sweep inside a commit hides a key the commit has just written |
| GlobalNodes.GlobalStore.Delete | THEO/prefixdb/prefixTree.go:1060-1083 | the key leaves the index and file and index stay in step |
| GlobalNodes.GlobalStore.Begin | THEO/prefixdb/prefixTree.go:886-896 | commits nest and keep the largest block id |
| GlobalNodes.GlobalStore.End | THEO/prefixdb/prefixTree.go:898-936 | the outermost end appends the batch, sorted and tagged, once, and clears batch and block id; inner ends append nothing |
| GlobalNodes.GlobalStore.Close | THEO/prefixdb/prefixTree.go:1627-1702 | closing leaves a file without append region, and so without tags, that replays to the index |
| GlobalNodes.FormatExample | THEO/prefixdb/prefixTree.go:1086-1092 | the exact bytes of a file header |
| GlobalNodes.FindLastTagEnd | THEO/prefixdb/prefixTree.go:1401-1429 | the backward scan computes the end of the last tag entry |
| GlobalNodes.TrimOfTornCommit | THEO/prefixdb/prefixTree.go:1431-1473 | recovery cuts a file with a torn commit after its last tag, and leaves it alone when there is none |
| GlobalNodes.TornCommitLoads | THEO/prefixdb/prefixTree.go:1401-1473 | what the file with a torn commit loads to, uncut and cut: nothing when an entry is torn, else the whole entries of the torn commit too; cut after a tag, exactly what was there at the tag |
| GlobalNodes.CrashRecoversIff | THEO/prefixdb/prefixTree.go:1401-1473 | after a torn prefix of the next commit the file cut at its last tag loads to the committed index; a restart gets the committed index if and only if no entry is torn and either the append region ends with a tag or the whole entries of the torn commit change nothing |
| GlobalNodes.TornCommitAfterClose | THEO/prefixdb/prefixTree.go:1401-1473 | on a file closed since its last commit, a torn commit is kept up to its last whole entry, or makes the file refuse to load |
| GlobalNodes.ReplayUnchangedIff | THEO/prefixdb/prefixTree.go:631-686 | entries of distinct keys leave a replay unchanged exactly when each of them is redundant |
| BlockFile.FormatExample | THEO/datablockStore.go:1319-1411 | the exact bytes of a log entry |
| BlockFile.ReadBack | THEO/datablockStore.go:1299-1411 | a log entry reads back at its offset whatever surrounds it |
| BlockFile.SlotsTile | THEO/datablockStore.go:614-680 | one slot per block from the minimum on, the ranges tile the data file in order and end at its end, and each range holds exactly its block's entries |
| BlockFile.GrowBlock | THEO/datablockStore.go:866-919 | more entries for the last block extend its range and the data file together |
| BlockFile.FlushBuffer | THEO/datablockStore.go:1761-1805 | flushing writes each buffered slot at its position from the minimum block, skipping older ones |
| BlockFile.FindSlotFinds | THEO/datablockStore.go:294-337 | the slot lookup finds every block in range and no other |
| BlockFile.LoadSlots | THEO/datablockStore.go:614-680 | reloading rebuilds the whole block map, the latest block, and the minimum, from the metadata or without it |
| BlockIndex.BlockOfIs | THEO/theo.go:125-133 | the block number of a header, body or receipts key is the big-endian number behind its first byte; other and shorter keys have none |
| BlockIndex.ReadThrough | THEO/datablockStore.go:1562-1584 | reading through a skiplist pointer gives the value of the entry it names |
| BlockIndex.IndexBytes | THEO/datablockStore.go:1874-1906 | indexing a block's bytes sets one pointer per entry and lists its keys |
| BlockIndex.FindInBytes | THEO/datablockStore.go:1909-1947 | scanning a block's bytes finds a key exactly when the block holds it |
| BlockState.EvictOk | THEO/datablockStore.go:957-982 | dropping one block's keys leaves every other indexed block fully indexed |
| BlockState.SkipRead | THEO/datablockStore.go:1024-1044 | a skiplist hit gives the stored value |
| BlockState.IndexedMiss | THEO/datablockStore.go:1060-1065 | a key missing from an indexed block was never written |
| BlockLog.ListKvs | THEO/datablockStore.go:1319-1334 | the pairs of an append are listed once each: headers, bodies, receipts, then the rest, each by key |
| BlockLog.BlockLog.EnsureTracking | THEO/datablockStore.go:255-292 | the recent window is rebuilt as the last block ids of the skiplist, and every skiplist key is tracked |
| BlockLog.BlockLog.Evict | THEO/datablockStore.go:1674-1711 | exactly the keys of the evicted block leave the skiplist |
| BlockLog.BlockLog.UpdateRecent | THEO/datablockStore.go:957-982 | the window keeps the newest blocks and the one pushed out loses its keys and its indexed mark |
| BlockLog.BlockLog.FillMissing | THEO/datablockStore.go:764-796 | a gap becomes empty blocks; no stored value changes |
| BlockLog.BlockLog.MarkBlockCommitted | THEO/datablockStore.go:358-397 | a commit marker adds empty blocks up to the block; no stored value changes |
| BlockLog.BlockLog.LookupSlot | THEO/datablockStore.go:1847-1871 | a buffered slot is preferred, else the slot on disk |
| BlockLog.BlockLog.Append | THEO/datablockStore.go:801-954 | map override: the new pairs are stored, every other key keeps its value, old blocks are ignored or refused, and the files stay tiled |
| BlockLog.BlockLog.AppendToNewBlock | THEO/datablockStore.go:1443-1545 | the pairs are stored under the next block id, every other key keeps its value |
| BlockLog.BlockLog.Restart | THEO/datablockStore.go:128-237 | reopening gives the same blocks, minimum and latest, and indexes exactly the newest blocks, without holes |
| BlockLog.BlockLog.Get | THEO/datablockStore.go:1015-1093 | the answer is the stored value within the ignore threshold of 10000 blocks whatever was evicted and across restarts, blank only for the tombstone marker, missing only for keys never written, and blank or future exactly for blocks out of range |
| BlockIterator.BlockOrder | THEO/datablockStore.go:2007-2069 | among keys with one first byte, key order follows the embedded block number |
| BlockIterator.SessionUpward | THEO/datablockStore.go:957-982 | in a log of one session every block after an indexed one is indexed |
| BlockIterator.FirstOnDisk | THEO/datablockStore.go:2106-2178 | the first matching entry met in write order is the least key left to visit |
| BlockIterator.LeastInMemory | THEO/datablockStore.go:2180-2261 | once a block is indexed the least matching skiplist key is the least key left to visit |
| BlockIterator.FirstInMemory | THEO/datablockStore.go:2180-2261 | the skiplist walk finds the least key at or after the seek position with the prefix in a block not passed yet |
| BlockIterator.StreamIterator.constructor | THEO/datablockStore.go:2007-2069 | a new iterator on a log without holes in its indexed blocks stands before exactly the stored keys with the prefix that are at or above `start`, or whose rest is when `start` lacks the prefix |
| BlockIterator.AboveBound | THEO/datablockStore.go:2022-2034 | the seek position orders keys as the caller's prefix and start do |
| BlockIterator.StreamIterator.Next | THEO/datablockStore.go:2071-2178 | each step publishes the least remaining key and its value, and fails only when none remains |
| BlockIterator.IterateAll | THEO/datablockStore.go:2007-2269 | with one append per block and no holes in the indexed blocks, as in one session or after reopening, an iteration visits exactly the stored keys with the prefix at or above the caller's start, once each, strictly ascending, with their values |
| KvSort.MergeStable | THEO/prefixdb/prefixdb.go:2426-2448 | a merge of sorted runs keeps each key's pairs in order, the left run first |
| KvSort.PassRuns | THEO/prefixdb/prefixdb.go:2417-2453 | a pass over sorted runs of one width leaves sorted runs of twice the width |
| KvSort.PassStable | THEO/prefixdb/prefixdb.go:2417-2453 | a pass keeps the order of equal keys |
| KvSort.MergeInto | THEO/prefixdb/prefixdb.go:2426-2448 | the three inner loops merge two runs from one array into the other and touch nothing else |
| KvSort.PingPong | THEO/prefixdb/prefixdb.go:2408-2459 | the bottom-up sort leaves the array a sorted, stable permutation for every length |
| KvSort.SortKv | THEO/prefixdb/prefixdb.go:2396-2460 | sorted and stable through all three length classes |
| KvSort.StableIsPermutation | THEO/prefixdb/prefixdb.go:2396-2460 | keeping every key's pairs in order implies being a permutation |
| KvSort.KeepLastSame | THEO/prefixdb/prefixdb.go:6784-6834 | keeping the pairs that no later pair overwrites keeps every key's last value |
| KvSort.CompactSorted | THEO/prefixdb/prefixdb.go:6805-6818 | the in-place compaction of sorted duplicates keeps exactly the last pair of each key |
| KvSort.CompactByIndex | THEO/prefixdb/prefixdb.go:6820-6832 | the in-place filter by last index keeps exactly the last pair of each key |
| KvSort.Normalize | THEO/prefixdb/prefixdb.go:6784-6834 | through all three branches the result is strictly sorted and has the last write of every key |
| ChunkFile.FormatExample | THEO/prefixdb/prefixdb.go:3816-3843 | the exact bytes of a record and of a tag |
| ChunkFile.ReadTailBack | THEO/prefixdb/prefixdb.go:187-196 | an item read from its end gives back the record or tag and its start |
| ChunkFile.CountFromTail | THEO/prefixdb/prefixdb.go:7102-7127 | the count from the tail is the number of records, tags skipped |
| ChunkFile.DecodeChunk | THEO/prefixdb/prefixdb.go:7176-7232 | footer-first decoding of any batches and tags recovers the records in write order |
| ChunkFile.TailLookup | THEO/prefixdb/prefixdb.go:10236-10284 | the first match from the tail is the last write: found with its value, a tombstone when it is empty, absent when there is none |
| ChunkFile.FindLastTag | THEO/prefixdb/prefixdb.go:236-259 | the newest commit tag, or zero |
| ChunkFile.Serialize | THEO/prefixdb/prefixdb.go:3816-3843 | a payload is produced exactly when every key and value fits, and it encodes the batch and its tag |
| ChunkStore.Partition | THEO/prefixdb/prefixdb.go:4350-4406 | each pair goes to the chunk a later read will select, or is unmatched when it is below every start key |
| ChunkStore.FramedSizeIsBytes | THEO/prefixdb/prefixdb.go:4203-4256 | the size that is held against the limit is the number of bytes written |
| ChunkStore.SplitBySize | THEO/prefixdb/prefixdb.go:4203-4256 | the chunks concatenate to the input, hold one pair or fit the limit, and none could have taken the next pair as well |
| ChunkStore.FreshPlaced | THEO/prefixdb/prefixdb.go:4203-4256 | chunks cut from strictly sorted pairs partition their keys by start key |
| ChunkStore.ConcatLast | THEO/prefixdb/prefixdb.go:11158-11182 | when keys live only in their covering chunk, the last write overall is the last write in that chunk |
| ChunkStore.Folder.Get | THEO/prefixdb/prefixdb.go:10236-10284 | the covering chunk scanned from its tail answers with the last write: found, tombstone for an empty value, or absent |
| ChunkStore.Folder.AppendChunk | THEO/prefixdb/prefixdb.go:4479-4571 | an append grows one chunk file and leaves its start key and every other file alone |
| ChunkStore.Folder.Update | THEO/prefixdb/prefixdb.go:4108-4189 | below the rewrite trigger an update is map override: new values for updated keys, old values for all others, and every key still lives only in its covering chunk; each chunk gets its pairs as one batch tagged with the block |
| ChunkStore.Folder.AddChunks | THEO/prefixdb/prefixdb.go:4166-4180 | keys below every start key get chunks of their own, cut by size, tagged and indexed in front |
| ChunkStore.Folder.Create | THEO/prefixdb/prefixdb.go:4067-4102 | the first write stores exactly the given pairs, cut by size, each chunk tagged with the block |
| ChunkStore.Folder.SweepGc | THEO/prefixdb/prefixdb.go:11124-11271 | the full sweep changes no key's answer and leaves chunks with strictly sorted, unrepeated keys partitioned by start key, cut by size, each with the largest tag of the chunks its records came from |
| ChunkStore.Dedup | THEO/prefixdb/prefixdb.go:11184-11198 | stable sort and keep-last give strictly sorted pairs with every key's last value |
| ChunkRewrite.NormalizeTail | THEO/prefixdb/prefixdb.go:6836-6862 | the result is strictly sorted and has the first record of every key |
| ChunkRewrite.MergeDedup | THEO/prefixdb/prefixdb.go:4652-4677 | the merge is strictly sorted and the additions override |
| ChunkRewrite.Rewrite | THEO/prefixdb/prefixdb.go:4573-4592 | a rewritten chunk holds the additions over the first record of every other key, which is the additions over the last writes if and only if every key not overridden has equal first and last values in the file |
| ChunkRewrite.RewriteLosesUpdate | THEO/prefixdb/prefixdb.go:4573-4592 | two tagged appends of one key: the chunk answers with the newer value, and rewriting it without touching the key brings the older one back |
| ChunkRewrite.DistinctKeysAreSafe | THEO/prefixdb/prefixdb.go:6836-6862 | a chunk without repeated keys meets the condition |
| SegmentIndex.FileNameExample | THEO/prefixdb/prefixdb.go:4439-4454 | chunk file names have at least four digits |
| SegmentIndex.IsOrdered | THEO/prefixdb/prefixdb.go:5339-5346 | comparing neighbours decides whether the whole list is ordered |
| SegmentIndex.Normalize | THEO/prefixdb/prefixdb.go:5348-5369 | an ordered list is kept, any other becomes an ordered permutation |
| SegmentIndex.SelectMeta | THEO/prefixdb/prefixdb.go:6421-6461 | binary selection picks the last chunk whose start key is not above the key |
| SegmentIndex.FindChunk | THEO/prefixdb/prefixdb.go:4368-4406 | the chunk an update is sent to is the one a linear scan would pick |
| SegmentLayout.DecodeEncodeKey | THEO/prefixdb/prefixdb.go:5199-5225 | a start key reads back from its fixed-width field |
| SegmentLayout.FormatExample | THEO/prefixdb/prefixdb.go:5035-5059 | the exact bytes of a flat table's header and entry |
| SegmentLayout.TopFormatExample | THEO/prefixdb/prefixdb.go:5648-5678 | the exact bytes of the top level's header and entry |
| SegmentLayout.FlatReadsAt | THEO/prefixdb/prefixdb.go:5035-5059 | each entry of the flat table reads back at its position |
| SegmentLayout.DecodeFlat | THEO/prefixdb/prefixdb.go:5506-5556 | decoding a flat table gives the chunk list |
| SegmentLayout.SelectFlat | THEO/prefixdb/prefixdb.go:5280-5329 | the binary search over encoded bytes picks the chunk the linear scan picks |
| SegmentLayout.ParseTop | THEO/prefixdb/prefixdb.go:5603-5678 | the top-level table reads back with its next id and entries in order |
| SegmentFolder.TwoLevelIsLinear | THEO/prefixdb/prefixdb.go:5492-5504 | choosing a group by its first start key and then a chunk inside it is choosing in the whole list |
| SegmentFolder.SplitMetas | THEO/prefixdb/prefixdb.go:5464-5490 | the groups are not empty, concatenate to the list, fit the size limit unless they hold one chunk, and none has room for one more |
| SegmentFolder.AssignIds | THEO/prefixdb/prefixdb.go:5835-5848 | ids stay distinct, ascending and below the next id |
| SegmentFolder.WriteGroups | THEO/prefixdb/prefixdb.go:5853-5872 | each group's file holds it and its entry describes it |
| SegmentFolder.Folder.Load | THEO/prefixdb/prefixdb.go:5562-5596 | the layout on disk is recognised and read back |
| SegmentFolder.Folder.ReadAll | THEO/prefixdb/prefixdb.go:6161-6212 | concatenating the groups in top-level order gives exactly the chunk list |
| SegmentFolder.Folder.WriteIndex | THEO/prefixdb/prefixdb.go:5751-5905 | after a write the folder holds exactly the given chunks sorted, in two levels exactly when they pass the threshold, ids distinct and below the next id, groups kept or cut by size, no stale group file, and distinct chunk files stay distinct |
| SegmentFolder.Folder.IncrementalGc | THEO/prefixdb/prefixdb.go:5978-6078 | replacing chunks, each by chunks of its own place or key range, leaves exactly the replaced list, sorted, its files distinct if the new names are, ids distinct and below the next id; or reports that nothing matched and changes nothing |
| SegmentFolder.ReplacedOrdered | THEO/prefixdb/prefixdb.go:5950-5967 | replacements in place, or in the key range of what they replace, keep the whole list sorted |
| SegmentFolder.ReplacedDistinct | THEO/prefixdb/prefixdb.go:5950-5967 | replacements under old or new names keep the chunk files distinct |
| SegmentFolder.Folder.Locate | THEO/prefixdb/prefixdb.go:6243-6334 | after any writes and replacements, flat or two-level selection picks the chunk the linear scan picks, and the first chunk for the empty key |
| SegmentFolder.BuildUpdated | THEO/prefixdb/prefixdb.go:5950-5967 | the updated list has each replaced chunk's replacement in its place |
| AccountCache.DetachLinked | THEO/account_hash_key_cache.go:154-171 | detaching a slot leaves one doubly linked list of the other slots in order |
| AccountCache.AttachLinked | THEO/account_hash_key_cache.go:173-183 | attaching a free slot puts it in front of the list |
| AccountCache.StoredFinds | THEO/account_hash_key_cache.go:86-130 | a stored entry is found, and an entry that stays keeps its value |
| AccountCache.StoredEvicts | THEO/account_hash_key_cache.go:132-144 | a full cache that takes a new entry loses exactly the least recently used one |
| AccountCache.TouchedIs | THEO/account_hash_key_cache.go:55-84 | using an entry puts it first and leaves the others in order |
| AccountCache.StoredIs | THEO/account_hash_key_cache.go:86-130 | a cached entry that is stored again moves to the front, a new one pushes the last out of a full cache, and the others stay in order |
| AccountCache.Cache.constructor | THEO/account_hash_key_cache.go:37-53 | a new cache is empty and has the default capacity when none is given |
| AccountCache.Cache.MoveToFront | THEO/account_hash_key_cache.go:146-152 | the slot moves to the front and no entry changes |
| AccountCache.Cache.Get | THEO/account_hash_key_cache.go:55-84 | the last value put for a retained key, which becomes the most recently used; a malformed hash finds nothing |
| AccountCache.Cache.Put | THEO/account_hash_key_cache.go:86-130 | the abstract list gets the entry in front and keeps at most its capacity; malformed input changes nothing |
| SharedCache.NamespacesPartition | THEO/prefixdb/shared_cache.go:66-75 | the namespaces' bytes add up to the total |
| SharedCache.SelectVictim | THEO/prefixdb/shared_cache.go:320-351 | of the last 32 entries, never counting the front of a longer list, the victim is the least often used one, the longest unused on ties |
| SharedCache.Cache.RemoveAt | THEO/prefixdb/shared_cache.go:272-294 | an element leaves list and map together and the byte counts follow |
| SharedCache.Cache.Get | THEO/prefixdb/shared_cache.go:92-106 | the cached value; its entry moves to the front with one more use, up to the cap, and the newest touch |
| SharedCache.Cache.GetNoTouch | THEO/prefixdb/shared_cache.go:108-125 | the cached value; exactly the use count of its entry moves |
| SharedCache.Cache.Add | THEO/prefixdb/shared_cache.go:127-164 | used bytes stay within capacity; an entry that fits is stored in front and is never its own victim; exactly the selected victims go, one at a time and only while the budget is exceeded; one that does not fit only removes its old version |
| SharedCache.Cache.Remove | THEO/prefixdb/shared_cache.go:166-177 | exactly the key is forgotten |
| SharedCache.Cache.RemoveNamespace | THEO/prefixdb/shared_cache.go:179-193 | exactly the entries of other namespaces remain, in order, and the namespace uses no bytes |
| InlineAllocator.Append | THEO/prefixdb/prefixdb.go:3921-3998 | a payload at the end of a file with room keeps every earlier range readable and disjoint |
| InlineAllocator.Allocator.Open | THEO/prefixdb/prefixdb.go:3697-3751 | the newest file is reused exactly when it has room, else the next id gets a new file |
| InlineAllocator.Allocator.EnsureCapacity | THEO/prefixdb/prefixdb.go:3759-3780 | a file with room stays current; one that would pass 1 GiB is closed for the next, empty one |
| InlineAllocator.Allocator.AppendAll | THEO/prefixdb/prefixdb.go:3921-3998 | every non-empty payload gets a range that reads back its bytes, ranges are disjoint from each other and from what was stored before, and a file passes 1 GiB only for one payload that is larger by itself |

## Left out

- Compression of node payloads, file handles, buffer pools, leases and page caching: files are byte sequences.
- Stripe locks of node files: the protocol model allows every real interleaving and more.
- Optimistic background GC of segmented storage: its generation check does not decide preservation.
- Caches of index layouts, chunk buffers and storage values, and their coherence with the logs.
- The Bloom filter of the buffer log: an append marks an account loaded although older entries are not.
- Chunk-format trimming: its byte-by-byte fallback is a heuristic.
- Atomicity of a block across logs: each log trims at its own last tag.
- The block log's `Delete`, repeated writes of one key to one block, block 0 and the background index flush.
- Iteration over a log that was reopened and then appended to: the window of indexed blocks may then have holes.
- Write errors of the operating system, and what a failed write in the middle of an operation leaves behind.
- Statistics, configuration, routing, workload replay and the prefix trie that classifies keys.
- BlockLog.BlockLog.Append: requires keys that embed the block and are not yet stored in it, which the code does not check.
- BlockLog.BlockLog.Append: does not model the wrap of the largest 64-bit block id, nor file offsets beyond 63 bits.
- BlockIterator.IterateAll: for non-empty prefixes whose block keys are of one kind, on logs whose indexed blocks have no holes.
- BlockIterator.StreamIterator.constructor: the same.
- BufferLogStore.BufferLog.Append: for pairs that are not empty on both sides, which the framing cannot tell from a tag.
- BufferLogStore.BufferLog.AppendInterrupted: the same.
- BlockLog.BlockLog.AppendToNewBlock: requires keys that embed the new block, which the code does not check.
- ChunkStore.Folder.Create: for strictly sorted pairs, as sorting and de-duplicating a commit leaves them (THEO/prefixdb/prefixdb.go:2320, THEO/prefixdb/prefixdb.go:3873).
- ChunkStore.Folder.Update: for strictly sorted pairs that fit the framing and stay below the rewrite trigger; the rewrite is `ChunkRewrite.Rewrite`.
- SegmentFolder.Folder.WriteIndex: for start keys of at most 32 bytes; longer ones make the code stop part way.
- SegmentFolder.Folder.IncrementalGc: on a two-level index, for replacements in the place or key range of the chunk they replace, because only the top level is sorted again; on any, for replacements that bring in no other replaced chunk's name.
- NodeLookup.ReadMatchesFoldIff: for entries whose account size is zero exactly when the offset is.
- NodeGc.ReaderAnswersHistory: the same.
- KvSort.SliceStable: stands for the library's stable sort, of which only the documented result is used.
- SharedCache.Cache.Add: values are opaque and the eviction callback is not called.
