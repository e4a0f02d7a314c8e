# Storage engine: SSTs, block cache, write-ahead log, LSM scans

A Dafny model of the storage crate of todb, with proofs over all inputs, all
interleavings and all runs. `dafny verify dfyconfig.toml` checks all of it.

Four parts, each built on the one before where the source is.

**SST files.** `BlockFormat` and `BlockBuilders` encode blocks; `BlockIter` is
the cursor over one. `SstTree` says what a tree of index blocks in a file is,
`IndexGrowth` models the recursion that grows it and `SstBuilder` is the builder
as an object. `TreeWalk` is the mathematics of a stack of cursors as a path in
the tree; `IndexTreeIter` and `SstIter` are the iterators, and `SstRoundTrip`
puts builder and iterators together. `finish` leaves one root exactly when the end
keys it promotes above the levels there are fit one block (`IndexRoot`), for keys
of any lengths; `SstPlan` gives that condition, and the size of the file, from the
entries alone. The iterator's `reset` clears its stack and not its depth, so a positioned iterator
can be sought again exactly at height two or less. `SstRescan` says what an
iterator does that is sought again, in every direction and at every height, up to
the step at which the source indexes its stack out of range. Where a corrupt index
is reported, the model has an assertion, so no such branch is reachable on a built
file.

**Block cache.** `ClockCache` models the CLOCK sweep and the operations under
the lock; `CacheProtocol` interleaves any number of readers, with reads from disk
outside the lock, duplicate loads of a block and failed loads. `FrameRead` reads a
frame of the log through it, keeping a guard on every block: with a free frame for
each that never waits, and with more blocks to load than free frames it comes to a
point where it can only wait. The number of frames it takes is between two counts,
which are the same unless a block it has pinned was loaded twice.

**Write-ahead log.** `WalFrame` has the frames, torn tails and assembling a frame
from cached blocks; `WalBits` the bit arithmetic. `WalAppend` interleaves
appenders on one buffer at the grain of their atomic operations; a swap waits for
`in_flight` to be zero, which is not enough, because a slot is claimed before the
count is raised, and the calls it misses are exactly described. `WalRun` has
append, swap and flush as steps, `WalInvariant` what every step keeps,
`WalHistory` what follows for whole runs, and `WalWriter` the loops, proved to
take those steps. `SegmentMeta` is the header with its two copies and the crash
machine of sealing a segment; `SegmentIndex` seals a segment's index as an SST
and reads a record back through it. `sync` can return before LSN 0 is on disk,
because the durable LSN starts at 0; the exact condition is proved.

**Merging and the LSM state.** `Streams` gives the contract of an iterator, by
what it yields, and the reference definitions of merging. `MergeIter`,
`TwoMergeIter` and `ConcatIter` each have an abstraction to such a stream, and
their operations are the stream's; `RangeScan` bounds one. `Runs` has sources that
break off, as a tall SST does when it is sought again, and merging over them;
`MergeIter` works on those, `ShardIter` and `ShardScan` are a whole scan over them,
and `ScanToBound` says when the far bound comes first. `LsmState` is the state
machine of writes, switches and two-phase flushes, `LsmScan` and `LsmBound` what
a scan yields of it, and `LsmStore` the shard as an object that builds SST files
and scans them. All scans are right exactly when no SST has height three or more;
for every single scan it is proved when it is stopped, and when it is right. Level-0 tables are merged oldest first while the merge
prefers the lower index, so a scan can yield an old version first; exactly when is
proved.

Conventions: byte strings are sequences of `byte`; numbers are unbounded and
truncation to a field is explicit in `Codec`; the checksum is any fixed function
of the bytes; one direction parameter stands for the forward and reverse traits.

## Model

| member | source | states |
|---|---|---|
| `Keys.LessIsStrictTotalOrder` | crates/storage/src/row_key.rs:45-55 | Lexicographic order of unsigned bytes is a strict total order on keys |
| `Codec.BeRoundTrip` | crates/storage/src/builder/data_block.rs:129-178 | A number that fits its width reads back from its big-endian bytes |
| `Codec.LeRoundTrip` | crates/storage/src/wal/index.rs:39-52 | The same for little-endian bytes |
| `Codec.BeOrder` | crates/storage/src/wal/index.rs:28-31 | Big-endian keys of equal width compare exactly as the numbers they encode, and are equal only for equal numbers |
| `BlockFormat.LayoutLength` | crates/storage/src/builder/data_block.rs:102-106 | The encoded block is 12 bytes plus the estimated payload size, so a block the size check admits is never longer than `block_size` |
| `BlockFormat.EntriesOfLayout` | crates/storage/src/iterators/block_iter.rs:61-120 | Parsing the offset tables of any laid-out block, padded to any larger size, recovers every key and value in order |
| `BlockBuilders.Encode` | crates/storage/src/builder/data_block.rs:129-178 | The offset, key and value loops of `finish` write exactly the layout of the entries |
| `BlockBuilders.DecodeDataRaw` | crates/storage/src/iterators/data_entry_decode_iter.rs:22-48 | Version, kind and value of any put or delete survive encoding and decoding |
| `BlockBuilders.DecodeIndexRaw` | crates/storage/src/iterators/index_entry_decode_iter.rs:23-48 | An index value below 2^64 survives encoding and decoding |
| `BlockBuilders.DataBlockBuilder.Add` | crates/storage/src/builder/data_block.rs:76-96 | Appends the entry and keeps the running size equal to the size of the entries |
| `BlockBuilders.DataBlockBuilder.Finish` | crates/storage/src/builder/data_block.rs:129-178 | Returns a block of `block_size` bytes that parses back to the entries added, and empties the builder |
| `BlockBuilders.IndexBlockBuilder.Add` | crates/storage/src/builder/index_block.rs:40-44 | The same accounting for index entries |
| `BlockBuilders.IndexBlockBuilder.Finish` | crates/storage/src/builder/index_block.rs:76-120 | Returns a block of `block_size` bytes that parses back to the index entries added, and empties the builder |
| `BlockIter.NormalBlockIter.constructor` | crates/storage/src/iterators/block_iter.rs:61-89 | The header loops read the count and both offset tables of the block |
| `BlockIter.NormalBlockIter.Seek` | crates/storage/src/iterators/block_iter.rs:129-143 | Binary search stops on the first key not below the target, or past the end |
| `BlockIter.NormalBlockIter.SeekForPrev` | crates/storage/src/iterators/block_iter.rs:159-175 | Binary search stops on the last key not above the target, or before the start |
| `IndexGrowth.AddIndexKeeps` | crates/storage/src/builder/sst.rs:103-121 | Adding an index entry at any level, with all the flushes it sets off above, keeps every tree well formed and appends exactly that entry's leaves to the leaves waiting |
| `IndexGrowth.FlushIndexKeeps` | crates/storage/src/builder/sst.rs:123-137 | Flushing a level empties it and moves its leaves, in order, under one entry of the level above |
| `IndexGrowth.AddIndexWithin` | crates/storage/src/builder/sst.rs:103-121 | No index builder ever holds more than a block |
| `IndexRoot.RootedIff` | crates/storage/src/builder/sst.rs:140-181 | For keys of any lengths, `finish` leaves one root exactly when the end keys promoted, level by level, above the levels there are fit one block |
| `IndexRoot.AddFollows` | crates/storage/src/builder/sst.rs:103-121 | An insertion at any level, with its cascade, changes what arrives above the levels only by the key inserted, or overflows there, exactly when too much arrives |
| `IndexRoot.SingleRootTree` | crates/storage/src/builder/sst.rs:140-181 | Then every lower builder is empty and one root entry is on top, at height at least two, reaching every data block once and in order |
| `IndexRoot.FanOutTwoRoots` | crates/storage/src/builder/sst.rs:140-181 | Room for any two index entries in a block is enough for that |
| `IndexRoot.FinishIndexRootedIff` | crates/storage/src/builder/sst.rs:140-181 | With end keys of one length, that is exactly when two index entries share a block or there is one level |
| `IndexGrowth.AddIndexFanOutOne` | crates/storage/src/builder/sst.rs:103-121 | With end keys of one length and room for only one, every entry adds a level |
| `IndexGrowth.FinishIndexFanOutOne` | crates/storage/src/builder/sst.rs:140-181 | and `finish` leaves one root exactly when there was one level |
| `IndexGrowth.ShortEndKeysRooted` | crates/storage/src/builder/sst.rs:140-181 | With end keys shorter than the longest key, one root is possible although two entries with the longest key do not share a block |
| `IndexGrowth.AddIndexCharge` | crates/storage/src/builder/sst.rs:103-121 | An index entry, with all the flushes it sets off, costs at most one block, counting one for each entry still waiting, and one level |
| `IndexGrowth.FinishIndexSize` | crates/storage/src/builder/sst.rs:140-181 | So a finished file of n entries, data and index, has at most 3n + 1 blocks |
| `SstPlan.OneRootIff` | crates/storage/src/builder/sst.rs:63-193 | From the entries alone: whether the SST built of them has a single root |
| `SstPlan.TwoShareABlock` | crates/storage/src/builder/sst.rs:63-193 | Entries with keys of which two share an index block give a single root and a file of at most three blocks per entry and one |
| `SstBuilder.SstBuilder.AddIndexEntry` | crates/storage/src/builder/sst.rs:103-121 | The recursive method does what the model of the index does, and terminates by levels remaining |
| `SstBuilder.SstBuilder.FlushIndexBlock` | crates/storage/src/builder/sst.rs:123-137 | The same for flushing a level |
| `SstBuilder.SstBuilder.FlushDataBlock` | crates/storage/src/builder/sst.rs:88-101 | Writes the waiting entries as a block with its index entry, keeping the file readable |
| `SstBuilder.SstBuilder.Add` | crates/storage/src/builder/sst.rs:63-86 | Adds a put or a delete: it joins the waiting block, which is flushed first exactly when it would overflow; everything added is on file or waiting, in order |
| `SstBuilder.SstBuilder.Finish` | crates/storage/src/builder/sst.rs:140-193 | With a single root the file with its footer is a tree of uniform height over exactly the entries added, in order |
| `TreeWalk.Located` | crates/storage/src/iterators/index_tree_iter.rs:164-209 | A path of cursors covers a contiguous run of leaves: those below its last entry |
| `TreeWalk.NextSibling` | crates/storage/src/iterators/index_tree_iter.rs:164-209 | Moving the last cursor one entry on starts where its subtree ended |
| `TreeWalk.EndOfBlock` | crates/storage/src/iterators/index_tree_iter.rs:164-209 | Popping a finished block keeps the end of the subtree |
| `TreeWalk.BeyondRoot` | crates/storage/src/iterators/index_tree_iter.rs:73-115 | A target beyond the root's last key is beyond every leaf |
| `IndexTreeIter.IndexTreeIter.SeekToFirst` | crates/storage/src/iterators/index_tree_iter.rs:129-162 | From a clean index, the first leaf; from a stale depth, an invalid iterator; no corrupt-index branch is reachable |
| `IndexTreeIter.IndexTreeIter.Next` | crates/storage/src/iterators/index_tree_iter.rs:164-209 | The next leaf at any height, or exhausted and clean after the last; refused exactly on a stale depth, where the source indexes its stack out of range |
| `IndexTreeIter.IndexTreeIter.SeekToLast` | crates/storage/src/iterators/index_tree_iter.rs:224-258 | The last leaf |
| `IndexTreeIter.IndexTreeIter.Prev` | crates/storage/src/iterators/index_tree_iter.rs:260-306 | The previous leaf, or exhausted and clean before the first; refused exactly on a stale depth |
| `IndexTreeIter.IndexTreeIter.Locate` | crates/storage/src/iterators/index_tree_iter.rs:73-115 | The first leaf whose end key is not below the target, or none exactly when there is none |
| `IndexTreeIter.IndexTreeIter.SeekForPrev` | crates/storage/src/iterators/index_tree_iter.rs:379-388 | The located leaf, or the last one when the target is beyond all |
| `IndexTreeIter.IndexTreeIter.Value` | crates/storage/src/iterators/index_tree_iter.rs:339-345 | The entry under the cursor is the leaf at its position |
| `SstIter.SstIter.SeekToFirst` | crates/storage/src/iterators/sst_iter.rs:106-114 | The first entry; from a stale depth the old position is kept |
| `SstIter.SstIter.Next` | crates/storage/src/iterators/sst_iter.rs:128-142 | The next entry across blocks, or exhausted; with a stale depth, the next entry of the block it kept, and refused exactly at the end of that |
| `SstIter.SstIter.Seek` | crates/storage/src/iterators/sst_iter.rs:116-126 | The first entry with key at least the target, or none exactly when there is none |
| `SstIter.SstIter.SeekToLast` | crates/storage/src/iterators/sst_iter.rs:155-163 | The last entry |
| `SstIter.SstIter.Prev` | crates/storage/src/iterators/sst_iter.rs:183-197 | The previous entry across blocks, or exhausted; with a stale depth, within the block it kept, and refused exactly at the start of that |
| `SstIter.SstIter.SeekForPrev` | crates/storage/src/iterators/sst_iter.rs:165-181 | The last entry with key at most the target, falling back over gaps between blocks |
| `SstRoundTrip.Build` | crates/storage/src/builder/sst.rs:63-193 | Building any list the builders take gives a file of exactly the planned size, which represents the list if the tree has a single root, with the first and last key in the footer |
| `SstRoundTrip.ScanForward` | crates/storage/src/iterators/sst_iter.rs:106-142 | `seek_to_first` and `next` yield exactly the input, at any tree height |
| `SstRoundTrip.ScanBackward` | crates/storage/src/iterators/sst_iter.rs:155-197 | The reverse scan yields exactly the reversed input |
| `SstRoundTrip.BuildAndScan` | crates/storage/src/iterators/sst_iter.rs:285-350 | The whole round trip in both directions, for any strictly ascending puts and deletes whose tree has a single root |
| `SstRoundTrip.ScanFrom` | crates/storage/src/iterators/sst_iter.rs:116-142 | `seek` then `next` yields exactly what a seek leaves of the input: the contract the merging iterators assume |
| `SstRoundTrip.ScanBackFrom` | crates/storage/src/iterators/sst_iter.rs:165-197 | The same in reverse: the entries not above the target, last first |
| `SstRoundTrip.SeekAgain` | crates/storage/src/iterators/index_tree_iter.rs:52-54 | A second seek finds what is there exactly when the tree has height at most two or there is nothing to find |
| `SstRescan.RescanAll` | crates/storage/src/lsm_iter.rs:46 | An SST iterator as the composed scan has it (sought twice, perhaps moved on by one), sought without a target in either direction and run to the end: everything at height at most two; above, what is left of the first block, and then an index out of range |
| `SstRescan.RescanFrom` | crates/storage/src/lsm_iter.rs:31-45 | The same with a target: what a seek leaves of the input at height at most two, nothing above |
| `SstRescan.ReadSource` | crates/storage/src/lsm_store.rs:177-188 | Reading a file through its iterator gives the source the SST is for the merge, at every height |
| `SstRescan.ManyLongAreTall` | crates/storage/src/builder/sst.rs:103-193 | Every file over more half-block entries than a block has room for index slots has height three or more |
| `SstRescan.BuildTall` | crates/storage/src/builder/sst.rs:140-193 | Sixty-five entries of 300 bytes in blocks of 512 build to height three or more |
| `ClockCache.VictimUnlessAllPinned` | crates/storage/src/wal/disk.rs:69-88 | Two sweeps find an unpinned, unreferenced frame unless every frame is pinned, and touch only reference bits of unpinned frames |
| `ClockCache.VictimIsFirst` | crates/storage/src/wal/disk.rs:69-88 | The victim is the first evictable frame from the hand, or, when all unpinned frames are referenced, the first unpinned one |
| `ClockCache.ClockPool.Victim` | crates/storage/src/wal/disk.rs:69-88 | The sweep loop computes that victim and the cache it leaves |
| `ClockCache.ClockPool.Hit` | crates/storage/src/wal/disk.rs:91-99 | Pins and marks the frame the table names |
| `ClockCache.ClockPool.Prepare` | crates/storage/src/wal/disk.rs:105-113 | Removes the victim's old key from the table, also where a duplicate load has mapped that key to another frame since, and pins the victim for loading |
| `ClockCache.ClockPool.Commit` | crates/storage/src/wal/disk.rs:116-121 | Publishes the loaded frame under its key |
| `ClockCache.ClockPool.Release` | crates/storage/src/wal/disk.rs:125-128 | Unpins and says whether the frame became free |
| `CacheProtocol.StepKeeps` | crates/storage/src/wal/disk.rs:185-249 | Every step of every reader keeps: table entries name frames with that key, keyed frames hold that block, pins count guards and loaders, a loader is alone on its frame |
| `CacheProtocol.EveryRunFromEmptyIsSafe` | crates/storage/src/wal/disk.rs:185-249 | In every interleaving, with duplicate loads and failed loads, each live guard reads the bytes of the block it asked for |
| `CacheProtocol.ReadersArePinned` | crates/storage/src/wal/disk.rs:320-331 | A guard's or loader's frame is pinned, and each can always take its own next step |
| `CacheProtocol.ServedWhileFree` | crates/storage/src/wal/disk.rs:185-249 | A request can proceed exactly when its block is cached or some frame is unpinned, and uses up at most one unpinned frame |
| `FrameRead.ReadsServed` | crates/storage/src/wal/iter.rs:279-286 | With a free frame for every block of a frame, all its reads run as hits or loads, none waits, and at the end every guard is on its block |
| `FrameRead.GuardsSee` | crates/storage/src/wal/iter.rs:279-286 | and sees what is on the disk |
| `FrameRead.ReadsStuck` | crates/storage/src/wal/iter.rs:279-286 | Where they cannot all run, the reads before some block do, and then its reader, holding all guards so far, can only wait |
| `FrameRead.TooFewFrames` | crates/storage/src/wal/iter.rs:279-286 | That is so with more uncached blocks than free frames |
| `FrameRead.CanReadWithin` | crates/storage/src/wal/iter.rs:279-286 | With blocks in two frames: a free frame for each block not in a pinned frame is needed, and with one more for each pinned block that is in a free frame too it is enough |
| `FrameRead.TakesWithin` | crates/storage/src/wal/iter.rs:279-286 | A run of reads takes one frame for each block not held at its turn, a number between those two counts |
| `FrameRead.CopyDecides` | crates/storage/src/wal/disk.rs:105-113 | Between them the order of the blocks decides: evicting a copy unmaps a block that is pinned in another frame |
| `FrameRead.CanReadIff` | crates/storage/src/wal/iter.rs:279-286 | They all run exactly when the blocks not in a pinned frame are no more than the free frames, unless one in a pinned frame is in a free one too |
| `FrameRead.StillWaits` | crates/storage/src/wal/disk.rs:244-247 | and a wait leaves it there, as long as nobody lets go |
| `FrameRead.LoadFrame` | crates/storage/src/wal/iter.rs:269-315 | Guards taken where no read has to wait, frame copied from what they see, guards dropped: the log range, and the readers as before |
| `WalFrame.DecodeEncoded` | crates/storage/src/wal/frame.rs:25-74 | An encoded frame anywhere in a buffer decodes to its LSN, length and payload, for any checksum function |
| `WalFrame.DecodeCut` | crates/storage/src/wal/frame.rs:25-61 | A frame cut short at any byte is reported incomplete, never corrupt |
| `WalFrame.TornTail` | crates/storage/src/wal/frame.rs:25-61 | A log of frames cut at any byte decodes to exactly the frames wholly inside the cut, then incomplete |
| `WalFrame.AssembleFrame` | crates/storage/src/wal/iter.rs:288-315 | Copying from guards on the covering blocks gives exactly the log range, for any offset, length and block size |
| `WalBits.PackRoundTrip` | crates/storage/src/wal/buffer.rs:11-19 | Position and length below 2^32 survive packing into one word |
| `WalBits.AlignUpRounds` | crates/storage/src/wal/impl.rs:536-538 | The mask expression is rounding up to a multiple of any power of two |
| `WalAppend.EveryRunIsSafe` | crates/storage/src/wal/impl.rs:146-170 | For any number of appenders interleaving their atomic steps on one buffer: ranges in bounds and disjoint, LSNs distinct, slots at most capacity / 16 |
| `WalAppend.SlotAvailable` | crates/storage/src/wal/buffer.rs:97-106 | The assertion in `claim_slot` never fires |
| `WalAppend.QuietBufferIsComplete` | crates/storage/src/wal/impl.rs:146-170 | Once all calls have returned, nobody is in flight and every slot handed out names a frame that decodes to its own LSN and to its caller's payload |
| `WalAppend.DrainedSlots` | crates/storage/src/wal/impl.rs:267-273 | When the swap stops waiting, each slot names its frame or its call has not raised `in_flight`; all are finished exactly when no call is between slot and count, all calls exactly when none is between bytes and count |
| `WalAppend.DrainedTooEarly` | crates/storage/src/wal/impl.rs:156-159 | A run of two steps after which nobody is in flight and a slot handed out names no frame |
| `WalAppend.LateSlotRepeatsLsn` | crates/storage/src/wal/impl.rs:270-273 | A call with bytes and no slot at that point gets the LSN with which the next buffer starts |
| `WalAppend.CallsCanFinish` | crates/storage/src/wal/impl.rs:146-170 | Every call can always take its next step |
| `WalRun.PaddedFits` | crates/storage/src/wal/impl.rs:396 | The padded length covers the frames, is a multiple of the block size and never exceeds the buffer |
| `WalInvariant.AppendKeeps` | crates/storage/src/wal/impl.rs:140-172 | An append, fitting or not, keeps the invariant of the whole write path |
| `WalInvariant.SwapKeeps` | crates/storage/src/wal/impl.rs:252-299 | A swap keeps it: LSNs stay contiguous over queue and active buffer, every buffer is in exactly one place |
| `WalInvariant.FlushKeeps` | crates/storage/src/wal/impl.rs:381-435 | A flush keeps it, with or without rolling over to a new segment, and makes durable exactly the LSNs of the buffer |
| `WalInvariant.EnsureHolds` | crates/storage/src/wal/impl.rs:440-479 | Rolling over never seals an empty segment and always leaves room for the flush |
| `WalHistory.OnlyWaits` | crates/storage/src/wal/impl.rs:328-339 | In a reachable state a step waits only for an empty pool or queue or the end of the LSN space |
| `WalHistory.FlushedIsFound` | crates/storage/src/wal/impl.rs:413-431 | Every flushed LSN is in exactly one segment's index, whose log decodes there to that LSN, length and payload |
| `WalHistory.UnflushedIsAbsent` | crates/storage/src/wal/impl.rs:413-431 | No other LSN is in any index |
| `WalHistory.EveryRunIsRecoverable` | crates/storage/src/wal/impl.rs:140-172 | The same for every run of appends, swaps and flushes from an opened log |
| `WalHistory.RunGrows` | crates/storage/src/wal/impl.rs:381-479 | Over any run the history only grows: no LSN is reassigned, no log byte or index entry changes |
| `WalHistory.FlushedStays` | crates/storage/src/wal/impl.rs:381-435 | A flushed record is found in the same segment and slot after any further run |
| `WalHistory.SealedRanges` | crates/storage/src/wal/impl.rs:513-515 | Each sealed segment counts max - min + 1 entries and starts where the one before it ended, from LSN 0 |
| `WalHistory.SealedHeaderReads` | crates/storage/src/wal/impl.rs:490-515 | The header of a sealed segment reads back with its range; its count, cut to 32 bits, is right exactly below 2^32 records, and marks the segment as unsealed exactly at a multiple of that |
| `WalHistory.OneSwapSuffices` | crates/storage/src/wal/impl.rs:140-172 | After one swap a payload fits exactly when its frame fits an empty buffer; a longer one is never accepted |
| `WalHistory.PoolRefills` | crates/storage/src/wal/impl.rs:524-533 | With an empty pool a flush is possible and frees a buffer |
| `WalHistory.DrainFlushesAll` | crates/storage/src/wal/impl.rs:372-378 | Flushing the queue makes durable everything before the active buffer |
| `WalHistory.SyncWaits` | crates/storage/src/wal/impl.rs:209-222 | When `sync` stops waiting, its target is on disk exactly when the target is above 0 or something was flushed before |
| `WalHistory.SyncReturnsEarly` | crates/storage/src/wal/impl.rs:194-222 | After the first append ever, `sync` returns with LSN 0 in no segment |
| `WalWriter.LogicalEnd` | crates/storage/src/wal/impl.rs:390-394 | The loop computes the largest frame end |
| `WalWriter.Writer.constructor` | crates/storage/src/wal/impl.rs:77-130 | An opened log: all buffers placed, an empty segment 0 |
| `WalWriter.Writer.TryOnce` | crates/storage/src/wal/impl.rs:146-170 | One pass of the append loop takes the append step, and returns the next LSN when it fits |
| `WalWriter.Writer.SwapFull` | crates/storage/src/wal/impl.rs:252-299 | Takes the swap step |
| `WalWriter.Writer.FlushOne` | crates/storage/src/wal/impl.rs:381-435 | Takes the flush step, tail cleared in place, and only adds to the history |
| `WalWriter.Writer.Append` | crates/storage/src/wal/impl.rs:140-172 | Returns LSNs 0, 1, 2, ... without gap or repeat, over any swaps and flushes on the way |
| `WalWriter.Writer.Sync` | crates/storage/src/wal/impl.rs:194-222 | Leaves everything appended on disk, except a lone first LSN |
| `SegmentMeta.HeaderRoundTrip` | crates/storage/src/wal/index.rs:111-144 | A header reads back as itself, whatever follows it in its block |
| `SegmentMeta.HeaderIsPrefix` | crates/storage/src/wal/index.rs:125-144 | A block that reads as a header starts with exactly that header's bytes |
| `SegmentMeta.NewIsSealed` | crates/storage/src/wal/index.rs:85-97 | A new header carries the checksum of its own fields |
| `SegmentMeta.UntilIs` | crates/storage/src/wal/segment.rs:114-122 | What is durable and what is pending after each operation of sealing |
| `SegmentMeta.SealingSurvivesCrash` | crates/storage/src/wal/impl.rs:486-518 | Wherever a crash stops the sealing, the header reads as the old or the new one, and one that claims entries has its whole index on disk |
| `SegmentMeta.CrashSafeIffB` | crates/storage/src/wal/segment.rs:114-133 | From a state with copy A readable, the rewrite is crash-safe exactly when copy B already reads as the old or the new header |
| `SegmentIndex.LsnKeyOrder` | crates/storage/src/wal/index.rs:28-36 | LSN keys sort as LSNs |
| `SegmentIndex.OffsetLenRoundTrip` | crates/storage/src/wal/index.rs:38-52 | A log range survives its 12-byte encoding |
| `SegmentIndex.RecordsAscend` | crates/storage/src/wal/impl.rs:499-508 | The index is fed to the SST builder in strictly ascending key order |
| `SegmentIndex.Lookup` | crates/storage/src/wal/iter.rs:150-173 | Looking an LSN up in the sealed index finds exactly the indexed LSNs, each with its log range |
| `SegmentIndex.SealThenRead` | crates/storage/src/wal/impl.rs:486-511 | Seal, look up, decode: exactly the LSNs of the segment are found, each with the payload appended under it |
| `Streams.DropBeforeIs` | crates/storage/src/iterators/storage_iter.rs:30-51 | After a seek exactly the entries not before the target remain |
| `Streams.MergeAllSorted` | crates/storage/src/iterators/merge_iter.rs:24-64 | The k-way merge of sorted sources is sorted, in either direction |
| `Streams.MergeAllPermutes` | crates/storage/src/iterators/merge_iter.rs:171-239 | It has every entry of every source, as often as it occurs |
| `Streams.MergeAllVersions` | crates/storage/src/iterators/merge_iter.rs:24-64 | For every key its versions come in level order |
| `Streams.MergeAllStep` | crates/storage/src/iterators/merge_iter.rs:189-201 | Taking the least head, lower level first on a tie, takes the head of the merge |
| `Streams.VersionsDetermine` | crates/storage/src/iterators/merge_iter.rs:24-64 | Order and the versions of every key determine the output, so the laws above leave no freedom |
| `Streams.OverlayVersions` | crates/storage/src/iterators/two_merge_iter.rs:41-63 | In the two-way merge a key's versions come from A if it has any, else from B |
| `Streams.OverlayDrop` | crates/storage/src/iterators/two_merge_iter.rs:145-151 | Seeking both sources seeks the merge |
| `MergeIter.MergeIter.SeekToFirst` | crates/storage/src/iterators/merge_iter.rs:171-178 | From any state and direction, everything is to come, merged, up to where a source breaks off; with sound sources it is the operation of its stream |
| `MergeIter.MergeIter.Seek` | crates/storage/src/iterators/merge_iter.rs:180-187 | The same from the target on |
| `MergeIter.MergeIter.Top` | crates/storage/src/iterators/merge_iter.rs:24-64 | The top of the heap has the least key in the direction, the lower level on a tie |
| `MergeIter.MergeIter.Current` | crates/storage/src/iterators/merge_iter.rs:152-164 | The entry on top is the next of the merge |
| `MergeIter.MergeIter.Next` | crates/storage/src/iterators/merge_iter.rs:189-201 | Drops exactly the next entry, and is stopped exactly when that breaks its source off; does nothing in the other direction |
| `TwoMergeIter.TwoMergeIter.SkipBIfEqual` | crates/storage/src/iterators/two_merge_iter.rs:58-63 | Skipping changes nothing still to come |
| `TwoMergeIter.TwoMergeIter.SeekToFirst` | crates/storage/src/iterators/two_merge_iter.rs:137-143 | All of A, merged with the B entries whose keys A does not have, is to come: the operation of its stream |
| `TwoMergeIter.TwoMergeIter.Seek` | crates/storage/src/iterators/two_merge_iter.rs:145-151 | The same from the target on, in either direction |
| `TwoMergeIter.TwoMergeIter.TakesChoice` | crates/storage/src/iterators/two_merge_iter.rs:41-56 | The chosen side has the next entry |
| `TwoMergeIter.TwoMergeIter.Next` | crates/storage/src/iterators/two_merge_iter.rs:153-162 | Drops exactly the next entry |
| `ConcatIter.FlatSorted` | crates/storage/src/iterators/concat_iter.rs:3-8 | The concatenation of ascending non-overlapping sources is sorted, either way |
| `ConcatIter.ConcatIter.SeekToFirst` | crates/storage/src/iterators/concat_iter.rs:45-106 | The whole concatenation is to come, empty sources skipped: the operation of its stream |
| `ConcatIter.ConcatIter.Seek` | crates/storage/src/iterators/concat_iter.rs:57-118 | The concatenation from the target on is to come, in either direction |
| `ConcatIter.ConcatIter.Next` | crates/storage/src/iterators/concat_iter.rs:69-139 | Drops exactly the next entry, across sources |
| `Runs.SourceMoves` | crates/storage/src/iterators/sst_iter.rs:128-142 | A source, sound or stuck in a block, moves along what it has to come, and breaks off exactly at the end of that |
| `Runs.MergeRunsStep` | crates/storage/src/iterators/merge_iter.rs:189-201 | Taking the least head, lower level first on a tie, takes the head of a merge of runs that may break off |
| `Runs.MergeRunsBreak` | crates/storage/src/iterators/merge_iter.rs:189-201 | A merge breaks off exactly when one of its runs does |
| `Runs.MergeRunsSound` | crates/storage/src/iterators/merge_iter.rs:171-239 | Without one that does it is the merge of sequences |
| `Runs.MergeRunsEnd` | crates/storage/src/iterators/merge_iter.rs:189-201 | It breaks off within one key exactly when a run does and none starts before that key |
| `Runs.OverlayRunSound` | crates/storage/src/iterators/two_merge_iter.rs:41-63 | One side over a run that does not break off is the two-way merge |
| `Runs.OverlayRunBreaks` | crates/storage/src/iterators/two_merge_iter.rs:58-63 | and over one that does breaks off too |
| `ShardIter.ShardIter.SkipEqual` | crates/storage/src/iterators/two_merge_iter.rs:58-63 | Skipping changes nothing still to come, is stopped exactly when that breaks off at once, and moves exactly the sources on the skipped key |
| `ShardIter.ShardIter.SeekToFirst` | crates/storage/src/iterators/two_merge_iter.rs:137-143 | The memtables over the level-0 sources are to come, or the seek is stopped, exactly when that breaks off at once |
| `ShardIter.ShardIter.Seek` | crates/storage/src/iterators/two_merge_iter.rs:145-151 | The same from the target on |
| `ShardIter.ShardIter.Next` | crates/storage/src/iterators/two_merge_iter.rs:153-162 | Drops exactly the next entry, or is stopped, exactly when it was the last before the break |
| `RangeScan.WithinVersions` | crates/storage/src/lsm_iter.rs:57-67 | A key inside both bounds keeps all its versions, any other loses them |
| `RangeScan.RangeScan.Init` | crates/storage/src/lsm_iter.rs:31-48 | Positions on the near bound, skipping every version of an excluded key |
| `RangeScan.RangeScan.Next` | crates/storage/src/lsm_iter.rs:77-79 | Drops exactly the next entry within the bounds |
| `RangeScan.RangeScan.SeekToFirst` | crates/storage/src/lsm_iter.rs:69-71 | The caller's own seek ignores the near bound; it stays inside exactly when the first entry does or is past the far bound |
| `RangeScan.RangeScan.Seek` | crates/storage/src/lsm_iter.rs:73-75 | The same with a target; a target inside the near bound is enough |
| `RangeScan.InsideIff` | crates/storage/src/lsm_iter.rs:57-67 | Reading up to the far bound stays inside the near one exactly when the first entry does or is past the far bound |
| `RangeScan.Scan` | crates/storage/src/lsm_iter.rs:31-92 | A whole scan yields exactly the entries within included, excluded or open bounds, forward or reverse |
| `ShardScan.Scan` | crates/storage/src/lsm_store.rs:240-257 | A scan from building the iterator to the last entry does exactly what `ScanOutcome` says, whatever sources are stuck |
| `ShardScan.OpenStopsIff` | crates/storage/src/iterators/two_merge_iter.rs:26-39 | Building the iterator is stopped exactly when a stuck source on the last entry of its block is on the first key of the memtables and no source is on an earlier one |
| `ShardScan.SoundScan` | crates/storage/src/lsm_store.rs:240-257 | With every source sound a scan yields the merge within the bounds |
| `ShardScan.StuckScan` | crates/storage/src/lsm_store.rs:240-257 | With a stuck one a scan without bounds is always stopped |
| `ScanToBound.EndedScan` | crates/storage/src/lsm_iter.rs:57-67 | A scan without a near bound is stopped, or yields the merge of what the sources have, up to the far bound |
| `ScanToBound.StopsBeforeIff` | crates/storage/src/lsm_iter.rs:57-67 | It is stopped exactly when a source breaks off before the far bound, or, past it, within the first key the memtables have there |
| `ScanToBound.UncutHasAll` | crates/storage/src/lsm_iter.rs:57-67 | A run that does not break off before the bound has all that comes before it |
| `LsmState.InsertVersions` | crates/storage/src/memtable.rs:78-89 | A put or delete replaces the one version of its key and no other |
| `LsmState.StepKeeps` | crates/storage/src/lsm_store.rs:82-164 | Writes, switches, building and publishing keep lookup equal to replay |
| `LsmState.PublishKeeps` | crates/storage/src/lsm_store.rs:145-163 | Publishing moves a table without changing the newest-first order of tables, whatever was switched meanwhile |
| `LsmState.LookupIsReplay` | crates/storage/src/lsm_store.rs:215-238 | At every state of every run a newest-first lookup is the last write of the key |
| `LsmState.LatePutSeen` | crates/storage/src/lsm_store.rs:215-228 | A put that lands in a memtable switched out meanwhile is seen exactly when no newer memtable has another version |
| `LsmState.LatePutLost` | crates/storage/src/lsm_store.rs:133-163 | A put into the memtable being flushed is lost on publishing, harmless exactly when it repeats the last write |
| `LsmStore.Store.ApplyBatch` | crates/storage/src/lsm_store.rs:217-226 | Applies the batch in order |
| `LsmStore.Store.SwitchMemtable` | crates/storage/src/lsm_store.rs:82-100 | Switches exactly when the estimate has reached the limit |
| `LsmStore.Store.FlushOldestImm` | crates/storage/src/lsm_store.rs:133-164 | Builds the SST of the oldest immutable and adds the file to level 0, or changes nothing, exactly when, from the memtable alone, the builders do not take it, its tree has no single root or its file outgrows its offsets |
| `LsmStore.Store.WriteBatch` | crates/storage/src/lsm_store.rs:215-238 | The whole new state: apply, switch a full memtable, flush the oldest when too many, which fails exactly when that one cannot be built; lookup equals replay after it, and the writer keeps the immutables below their limit |
| `LsmStore.Store.Scan` | crates/storage/src/lsm_store.rs:240-257 | Reads the SST files through their iterators; for all bounds and both directions it says when the scan is stopped and what it yields: the memtables and the tables as far as they are read, merged within the bounds, where the first version of a key is its last write exactly when the key is up to date in them; over SSTs of height at most two, or forward without a near bound, nothing is missing |
| `LsmScan.MergedVersions` | crates/storage/src/lsm_store.rs:167-211 | For a key a scan yields all memtable versions, newest first; without any, the level-0 versions in flush order; without any, those below |
| `LsmScan.ScanIsNewest` | crates/storage/src/lsm_store.rs:177-188 | Of a scan of the memtables and some tables of level 0, the first version is the last write exactly when a memtable has the key or the oldest version read is the newest in level 0 |
| `LsmScan.ScanYields` | crates/storage/src/lsm_store.rs:240-257 | The same within bounds, and nothing outside them, forward or reverse |
| `LsmScan.ShortScan` | crates/storage/src/lsm_store.rs:240-257 | From a bound on, or over short SSTs, a scan yields the memtables and the short SSTs merged, unless building the iterator is stopped |
| `LsmScan.OpenScan` | crates/storage/src/lsm_store.rs:240-257 | A scan without bounds ends exactly when every SST has height at most two |
| `LsmScan.ScansRightIffShort` | crates/storage/src/lsm_store.rs:240-257 | All scans, with all bounds, in both directions, yield the merge of all tables exactly when every SST has height at most two |
| `LsmBound.EveryScan` | crates/storage/src/lsm_store.rs:240-257 | Any scan, whatever the heights, is stopped or yields the memtables and what it reads of level 0, merged, within its bounds |
| `LsmBound.EveryScanRightIff` | crates/storage/src/lsm_store.rs:240-257 | It is right exactly when it is not stopped and every key within its bounds is in a memtable or has all its versions in what is read |
| `LsmBound.StoppedIff` | crates/storage/src/lsm_iter.rs:46-67 | Without a near bound it is stopped exactly when building it is, when the first block of a tall SST ends before the far bound (starts before it, in reverse), or on a clash with the memtables past it |
| `LsmBound.ForwardRight` | crates/storage/src/lsm_iter.rs:46-67 | A forward scan without a near bound that is not stopped is right |
| `LsmStore.ScanFindsOldest` | crates/storage/src/lsm_store.rs:177-188 | A key flushed twice: either scan yields the older value first |
| `LsmStore.ScanMissesTall` | crates/storage/src/lsm_store.rs:240-257 | Sixty-five writes to a shard with blocks of 512 bytes, flushed: a scan without bounds is stopped, a scan from any key on yields nothing |
| `LsmStore.Compose` | crates/storage/src/lsm_store.rs:167-211 | The merges, concatenations and overlays, built as `build_merged_iter` does, are one iterator whose stream is the reference merge |
| `LsmStore.FlushedTableReads` | crates/storage/src/lsm_store.rs:103-130 | What a flush writes reads back, both ways, as the memtable |

## Left out

- CRC-32 itself: every statement about frames and headers holds for any checksum function; that it rejects a torn header block is an assumption of the crash machine.
- Short reads: a block is read whole or not at all, so a short `pread` that leaves old bytes in a cache frame is not modelled.
- Block keys: a key names one immutable block; the source's keys do not tell a segment's `.log` from its `.idx`.
- Appends racing a swap: within a buffer appenders interleave freely, but from `WalRun` on swap and flush are atomic against appends; WalAppend.DrainedSlots and WalAppend.LateSlotRepeatsLsn say which calls the swap's wait misses. Memory ordering, timeouts, fairness and `close` are not modelled.
- `Wal::scan` over sealed segments and `SegmentIndexIter::from_sealed_segment`: they read the `.meta` descriptor as the index and ignore the range.
- Recovery, `truncate_before`, `truncate_after`, `get`: described in the documentation, absent from the code.
- I/O errors, except the failed cache load, which must release its pin.
- The footer's bytes and the direct-I/O writer: the footer is passed as a value.
- The skip list, `BinaryHeap`, `DashMap` and `ArcSwap`: an ordered table, a set of levels with a least one, a map and a field.
- Sizes beyond the machine: files up to 2^64 bytes, LSNs below 2^64, buffers below 2^32 bytes, as the packed slots require.
- `server` (the PostgreSQL wire protocol over a query engine), `crates/sql` (catalog and functions for that engine), `crates/rpc` (a tracing interceptor), `crates/runtime` (the async runtime), `crates/observability` (logs and metrics), `crates/memory` (allocation contexts), `crates/common` (configuration and errors), and in the storage crate the routing of shards and the threads that call a flush.
- SstRoundTrip.Build: every key must pass the assertion of the index builder, which the source makes only for the last key of a block.
- SstBuilder.SstBuilder.Add: one method covers `add` and `add_delete`.
- WalWriter.Writer.Append: requires a frame that fits an empty buffer; the source retries for ever on a longer one (WalHistory.OneSwapSuffices).
- TwoMergeIter.TwoMergeIter.Next: is called in the direction of the last seek; mixing directions without a seek is not modelled. The same holds of ConcatIter.ConcatIter.Next.
- LsmStore.Store.FlushOldestImm: a memtable that cannot be built is kept; the source panics on an entry larger than a block, and otherwise publishes a file whose tree has no single root.
- FrameRead.CanReadIff: excludes a pinned block with a copy in a free frame; FrameRead.CanReadWithin and FrameRead.CopyDecides say what holds there.
- LsmStore.Store.Scan: the merges run over what each SST iterator does (SstRescan), not over the iterator objects; levels below 0 are never written by the source and are empty here, but LsmScan.MergedVersions and LsmStore.Compose cover them.
- FrameRead.LoadFrame: covers a frame whose blocks can all be read without waiting; otherwise the source waits for others to let go, perhaps for itself (FrameRead.ReadsStuck).
- LsmStore.Store.WriteBatch: the batch is applied atomically with respect to switches; what a put that overtakes a switch does is in LsmState.LatePutSeen and LsmState.LatePutLost. The log append before it is WalWriter's.
