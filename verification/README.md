# Storage and text logic of Sortix

Dafny models of the parts of the Sortix system where the most state and
arithmetic meet: the block cache of the filesystem drivers with its write-back
thread, the ext2 and FAT drivers above it, the partition editor, the text editor
and the outgoing buffer of the display server. Each model does what the C and
C++ code does, branch by branch, and is proved against what that code is for.

- `CacheProtocol.dfy` is the protocol between the main thread and the sync
  thread of the block cache, as a state machine whose steps may interleave in
  any order. Its theorems speak of every reachable state.
- `BlockCache.dfy` is the cache itself: linked recency, hash and dirty lists.
- `FatFile.dfy` is a FAT volume with its files: cluster chains, reading,
  writing, truncation and deletion, refined to byte sequences.
- `FatVolume.dfy` says that the table and the clusters it works on are those on
  the device.
- `FatTable.dfy` and `FatGeometry.dfy` are the table on the disk, in all three
  widths and all copies, and the checks made at mount.
- `FatLongName.dfy` is the writer and the parser of long names.
- `ExtTree.dfy` is the tree of indirect blocks of ext2 inodes.
- `ExtDirectory.dfy` is an ext2 directory on its blocks, refined to a finite map.
- `ExtBitmap.dfy` is the block bitmap of a group, and `ExtGroups.dfy` the search
  for a group with free blocks.
- `DiskAreas.dfy` is the scan of a disk and the placement of partitions.
- `EditorText.dfy` is the text of the editor, its selection and its clipboard.
- `RingBuffer.dfy` is the outgoing ring of a connection.
- `Arithmetic.dfy` has multiplication and division by recursion, which the
  other proofs build on; `Sequences.dfy` has overwriting a stretch of a sequence.

A predicate `UnfoldX` that is always true keeps a definition folded for the
verifier until a proof mentions it; it has no other meaning.

Where the code does not meet the property one would expect, the code is modelled
as it is, a lemma or a sequence of calls gives an input, and a contract the exact condition:

- a call that waits for the sync thread while a section is open may wait for
  ever (`CacheProtocol.ThreadsWaitForEachOther`; exactly when:
  `CacheProtocol.CallEnds`, `CacheProtocol.DoomedCallWaits`, and for one step
  `CacheProtocol.WaitingCallIsServed`). The ext2 driver makes such calls:
  `Inode::Truncate` and `Inode::UnlinkKeep` look blocks up inside a section on a
  block they may have dirtied before;
- growing a FAT file whose chain is longer than its size needs cuts the rest of
  the chain off, and with it the seek cursor if it was there; later seeks and
  writes then go to a cluster of no file (`FatFile.LosesItsPlace`; exactly when:
  `FatFile.Inode.Truncate`, `FatFile.Inode.WriteAt`, `FatChain.GrewCursor`);
- growing it again from such a cursor may make the file longer than its chain
  (`FatFile.Outgrows`; exactly when: `FatFile.Inode.TruncateAstray`);
- a FAT write that cannot grow the file writes a part of the bytes only at
  offset 0 of a nonempty file, because of how `!file_size - offset` is parsed
  (`FatFile.WritesNothing`; exactly when: `FatFile.Inode.PlaceSome`);
- a shrinking ext2 file keeps blocks past its new size when the cut falls inside
  an entry of a doubly or triply indirect table (`ExtTree.ShrinkLeaves`; exactly
  when: `ExtTree.ShrinkIsClean`), and direct blocks past its old size
  (`ExtTree.EmptyKeeps`; exactly when: `ExtTree.EmptiedWhen`);
- an ext2 file cut in the middle of a hole of a full volume dereferences a null
  block (`ExtTree.CutTraps`; exactly when: `ExtTree.Volume.Truncate`);
- an ext2 volume with free blocks may give none, because the search counts a
  group twice and passes over the next one (`ExtGroups.SkipsAGroup`; exactly
  when: `ExtGroups.Filesystem.AllocateBlock`, right after mounting
  `ExtGroups.FindsEven`);
- linking a name into a removed ext2 directory reports success, because -1 is
  true (`ExtDirectory.LinksNowhere`; exactly when: `ExtDirectory.Directory.Link`);
- a long FAT name that holds the unit 0xFFFF comes back cut there
  (`FatLongName.FillerIsCut`; exactly when: `FatLongName.RoundTrip`);
- a block group with a multiple of 65536 free blocks grants none
  (`ExtBitmap.RefusesAll`; exactly when: `ExtBitmap.BlockGroup.AllocateBlock`);
- the data area of an accepted FAT volume may overlap its tables when a 32-bit
  sum wraps (`FatGeometry.DataMayOverlap`; exactly when:
  `FatGeometry.DataAfterTables`), and the root cluster may be one past the last
  (`FatGeometry.RootMayBePastTheEnd`; exactly when: `FatGeometry.RootUsable`);
- a quantity typed into the partition editor may wrap and be read as another one
  (`DiskAreas.WrapsToNothing`; exactly when: `DiskAreas.ReadMeans`), as is -0
  (`DiskAreas.NothingFromEnd`), and may put a partition outside its hole and off
  the disk (`DiskAreas.OffTheDisk`; exactly when: `DiskAreas.ChosenInHole`,
  `DiskAreas.Disk.Mkpart`); a quantity that ends in the letter of bytes is always
  refused, because that letter is not skipped;
- scheduling an empty buffer on a connection without a ring divides by zero
  (`RingBuffer.Traps`; exactly when: `RingBuffer.Connection.Transmit`);
- pasting stops at a NUL (`EditorText.LosesNul`; exactly when:
  `EditorText.Editor.CutPaste`);
- without a block limit, giving up one reference deletes the block under all
  others (`BlockCache.Orphans`; exactly when: `BlockCache.Device.Unref`).

## Model

| member | source | states |
|---|---|---|
| `CacheProtocol.StepKeepsInv` | ext/device.cpp:91-214 | every step of the main thread and of the sync thread, in any order, keeps the cache invariant: a block that is not dirty, not in transit and not inside a section has its contents on the device |
| `CacheProtocol.HitKeepsInv` | ext/device.cpp:149-156 | a cache hit keeps the invariant whatever the sync thread is doing |
| `CacheProtocol.UnrefKeepsInv` | ext/block.cpp:75-83 | so does giving up a reference, without a block limit included, when the block object is deleted as soon as it is written back |
| `CacheProtocol.DeleteDoneKeepsInv` | ext/block.cpp:58-68 | so does the end of such a deletion, which waits until the block is neither dirty nor in transit |
| `CacheProtocol.MissKeepsInv` | ext/device.cpp:104-112 | so does a miss that makes a new block object, zeroed or about to be read |
| `CacheProtocol.MissEvictKeepsInv` | ext/device.cpp:93-103 | so does a miss that starts evicting an unreferenced block |
| `CacheProtocol.EvictDoneKeepsInv` | ext/block.cpp:64-68 | so does the end of an eviction, which waits until the block is neither dirty nor in transit |
| `CacheProtocol.ReadChunkKeepsInv` | ext/device.cpp:121-123 | so does each partial pread of a block being loaded |
| `CacheProtocol.ReadDoneKeepsInv` | ext/device.cpp:123-125 | so does linking the loaded block |
| `CacheProtocol.MarkZeroedKeepsInv` | ext/device.cpp:140-146 | so does marking a zeroed block dirty |
| `CacheProtocol.BeginWriteKeepsInv` | ext/block.cpp:110-114 | so does opening a section, which excludes the sync thread from copying the block |
| `CacheProtocol.StoreKeepsInv` | ext/block.cpp:110-118 | so does any change of block data inside a section |
| `CacheProtocol.FinishUnlockKeepsInv` | ext/block.cpp:116-118 | so does the gap between unlocking the block and marking it dirty |
| `CacheProtocol.FinishMarkKeepsInv` | ext/block.cpp:119-132 | so does putting the block on the dirty list |
| `CacheProtocol.PopKeepsInv` | ext/device.cpp:185-195 | so does taking the head of the dirty list into transit |
| `CacheProtocol.LockKeepsInv` | ext/device.cpp:197-199 | so does locking the block in transit |
| `CacheProtocol.CopyByteKeepsInv` | ext/device.cpp:199-200 | so does copying it byte by byte |
| `CacheProtocol.UnlockKeepsInv` | ext/device.cpp:201-201 | so does unlocking it, after which the main thread may change it again |
| `CacheProtocol.WriteChunkKeepsInv` | ext/device.cpp:203-204 | so does each partial pwrite of the copy |
| `CacheProtocol.WriteDoneKeepsInv` | ext/device.cpp:206-211 | so does the end of the write-back |
| `CacheProtocol.CacheRefinesDisk` | ext/device.cpp:91-214 | in every interleaving the contents the file system sees in every block equal those of a disk without a cache driven by the same writes: lookups, loads, evictions and write-backs are invisible |
| `CacheProtocol.CleanBlockIsOnDisk` | ext/block.cpp:85-132 | in every reachable state a block that is not dirty, not in transit and outside its sections has device bytes equal to its data |
| `CacheProtocol.OneBlockPerId` | ext/device.cpp:149-156 | at most one cached block per id, and a dirty block or one in transit is always the cached one |
| `CacheProtocol.DeviceIsUntorn` | ext/device.cpp:175-214 | whatever the interleaving, a device block that is not in the middle of a pwrite holds contents that some finished section left, never a mixture |
| `CacheProtocol.DeviceSyncIsDurable` | ext/device.cpp:158-173 | when Device::Sync returns, every block without an open section is on the device as last written |
| `CacheProtocol.BlockSyncIsDurable` | ext/block.cpp:85-95 | when Block::Sync returns, that block is on the device as last written |
| `CacheProtocol.SyncStepsRunOut` | ext/device.cpp:175-214 | each step of the sync thread shortens the dirty list or the work left on the block in transit, so it cannot go on for ever alone |
| `CacheProtocol.WaitingCallIsServed` | ext/device.cpp:158-214 | while a Sync, an eviction or a deletion waits, the sync thread can take a step exactly when it is not itself about to lock a block with an open section; otherwise no step of either thread is enabled, ever |
| `CacheProtocol.CallEnds` | ext/device.cpp:158-214 | a waiting call can end after finitely many steps of the sync thread unless one of the blocks written back until then, or the one in transit, has an open section |
| `CacheProtocol.DoomedCallWaits` | ext/device.cpp:158-214 | and in that case no sequence of steps, of either thread, brings it to its end: with CallEnds the exact condition |
| `CacheProtocol.ThreadsWaitForEachOther` | ext/inode.cpp:371-397 | such a sequence of steps from a mounted device with two blocks: a section is opened on a block the sync thread has just popped, and a miss inside it evicts a dirty block; then no step is enabled |
| `CacheProtocol.StepKeepsGood` | ext/device.cpp:91-214 | one step keeps the invariant, the absence of torn blocks and the agreement with the plain disk together |
| `CacheProtocol.RunKeepsGood` | ext/device.cpp:91-214 | and so does every finite sequence of steps |
| `BlockCache.Device.constructor` | ext/device.cpp:40-64 | an empty cache without block objects and open sections shows exactly the device |
| `BlockCache.Device.UnlinkMru` | ext/block.cpp:140-143 | the doubly linked recency list loses exactly the block at its place and stays well linked at both ends |
| `BlockCache.Device.PrelinkMru` | ext/block.cpp:149-157 | the recency list gains the block in front |
| `BlockCache.Device.UnlinkHash` | ext/block.cpp:144-146 | the hash chain of the block loses exactly that block, all other chains are unchanged |
| `BlockCache.Device.PrelinkHash` | ext/block.cpp:158-163 | the hash chain of the block gains it in front |
| `BlockCache.Device.UnlinkDirty` | ext/block.cpp:97-104 | the dirty list loses exactly the block at its place |
| `BlockCache.Device.PrelinkDirty` | ext/block.cpp:120-128 | the dirty list gains the block in front |
| `BlockCache.Device.Unlink` | ext/block.cpp:140-147 | recency list and hash bins go on indexing the same blocks, without this one |
| `BlockCache.Device.Prelink` | ext/block.cpp:149-164 | recency list and hash bins index the same blocks, with this one in front |
| `BlockCache.Device.Use` | ext/block.cpp:134-138 | a block moves to the front of the recency list, the order of the others and the index stay |
| `BlockCache.Device.SyncBlock` | ext/block.cpp:96-108 | the device gets exactly this block and it leaves the dirty list |
| `BlockCache.Device.Sync` | ext/device.cpp:170-173 | afterwards the device equals what the file system sees, in every block, and nothing is dirty |
| `BlockCache.Device.BeginWrite` | ext/block.cpp:110-114 | opens a section, of which a block may have several |
| `BlockCache.Device.Store` | ext/device.cpp:134-134 | a change inside a section shows in that block and in no other |
| `BlockCache.Device.MarkDirty` | ext/block.cpp:116-130 | the block is dirty and on the list once, and one of its sections is closed |
| `BlockCache.Device.FinishWrite` | ext/block.cpp:116-132 | one section is closed, the block is dirty and most recent, and no block reads differently |
| `BlockCache.Device.GetCachedBlock` | ext/device.cpp:149-156 | returns the cached block exactly when the id is cached, with one more reference, and touches no other reference count |
| `BlockCache.Device.FindVictim` | ext/device.cpp:95-99 | the least recently used block without references; none exactly when every block is referred to |
| `BlockCache.Device.Destruct` | ext/block.cpp:64-68 | write back and unlink: the device has the data, the index loses only this id |
| `BlockCache.Device.Evict` | ext/device.cpp:95-103 | a block nobody refers to loses its id after its contents are on the device, and every block reads as before |
| `BlockCache.Device.NewBlock` | ext/device.cpp:104-111 | a fresh block object joins, counted, and is not linked |
| `BlockCache.Device.AllocateBlock` | ext/device.cpp:91-112 | a fresh block below the limit or when all are referred to, otherwise the least recently used unreferenced one; every referred block stays cached and every block reads as before |
| `BlockCache.Device.Construct` | ext/block.cpp:41-56 | sets up an unlinked block without disturbing the index |
| `BlockCache.Device.Adopt` | ext/device.cpp:120-124 | constructing and linking adds exactly the new id to the index |
| `BlockCache.Device.Load` | ext/device.cpp:118-125 | the miss path of both lookups: referred blocks stay, all other blocks read as before |
| `BlockCache.Device.GetBlock` | ext/device.cpp:114-126 | the block for the id with one more reference; blocks referred to stay cached, only new objects join, and every block of the device reads as before |
| `BlockCache.Device.GetBlockZeroed` | ext/device.cpp:128-147 | the block for the id, with one more reference, reads as zeros and is dirty; blocks referred to stay cached, only new objects join, and no other block reads differently |
| `BlockCache.Device.LoadZeroed` | ext/device.cpp:140-147 | the miss path: the block reads as zeros, is dirty, and its section is closed |
| `BlockCache.Device.Put` | ext/device.cpp:130-138 | new contents put into a cached block inside a section of its own change what one block reads |
| `BlockCache.Device.Unref` | ext/block.cpp:75-83 | with a block limit one reference less and nothing else; without one the block leaves the cache at once, even if someone else refers to it; every block reads as before |
| `BlockCache.Device.Delete` | ext/block.cpp:58-62 | a deleted block object is written back and unlinked, the count falls by one, and every block reads as before |
| `BlockCache.Device.Write` | ext/inode.cpp:173-194 | what the drivers do with the cache, a lookup, a section and giving the block up, changes what one block reads |
| `BlockCache.Orphans` | ext/block.cpp:75-83 | a sequence of calls: without a block limit block 0 is looked up twice and given up once; it has a reference left and is no longer in the cache |
| `BlockCache.Saves` | ext/device.cpp:158-173 | for every sequence of writes to a new device: after Sync the device holds the last contents written to each block, and nothing else changed |
| `FatChain.WalkFollowsChain` | fat/inode.cpp:287-310 | walking n links from the first cluster gives cluster n of the chain, or the end mark after the last |
| `FatChain.ChainIsUnique` | fat/inode.cpp:353-373 | a first cluster has at most one chain |
| `FatChain.ContentsFrame` | fat/inode.cpp:1410-1458 | the bytes of a file depend only on the clusters it uses |
| `FatChain.ContentsPrefix` | fat/inode.cpp:1410-1458 | a shorter size reads a prefix |
| `FatChain.ContentsPut` | fat/inode.cpp:1513-1524 | writing inside cluster k at an offset overwrites that stretch of the file and nothing else |
| `FatChain.ContentsGet` | fat/inode.cpp:1445-1454 | a stretch of cluster k is the matching stretch of the file |
| `FatChain.ProbesReach` | fat/filesystem.cpp:430-432 | the rotating search looks at every cluster of the volume |
| `FatChain.GrowthLinks` | fat/inode.cpp:399-412 | linking a free cluster behind the last one keeps one chain, cuts off stale clusters and takes exactly that cluster from the free ones |
| `FatChain.GrowthFills` | fat/inode.cpp:413-425 | zeroing the rest of a sector extends the file by that many zeros |
| `FatChain.GrowthCounts` | fat/inode.cpp:395-428 | growth succeeds exactly when the free clusters suffice, and uses up exactly the difference in clusters |
| `FatChain.GrowthReads` | fat/inode.cpp:395-428 | the grown file is the old one followed by zeros |
| `FatChain.GrewCursor` | fat/inode.cpp:399-412 | growing leaves the cursor of a file on its chain exactly when no cluster is linked or the cursor is among the clusters the old size needs |
| `FatChain.GrewStrands` | fat/inode.cpp:399-412 | otherwise the cursor is on a chain of its own that shares no cluster with the grown file |
| `FatChain.CutChain` | fat/inode.cpp:353-373 | ending a chain early leaves its front part a chain and touches no entry outside it |
| `FatChain.CutFrees` | fat/inode.cpp:353-373 | exactly the clusters cut off become free |
| `FatChain.CutCounts` | fat/inode.cpp:353-373 | and the number of free clusters grows by their number |
| `FatChain.Shrinks` | fat/inode.cpp:429-435 | a file cut down reads as its prefix and owns exactly the clusters it needs |
| `FatChain.OtherChainKept` | fat/inode.cpp:375-445 | a chain disjoint from the changed one survives with its bytes |
| `FatFile.Volume.constructor` | fat/filesystem.cpp:208-237 | a mounted volume before any file is opened; the free count starts as unknown |
| `FatFile.Volume.Create` | fat/inode.cpp:863-938 | a new file exists exactly when a cluster was free; it is empty, owns that one cluster, and no other file changes |
| `FatFile.Volume.Open` | fat/filesystem.cpp:375-395 | a file that is on the volume already: its bytes are those along the chain its entry names, and no other file changes |
| `FatFile.Volume.LostKept` | fat/inode.cpp:375-445 | an operation on a file that stays within its clusters and free ones leaves every chain of no file alone |
| `FatFile.Volume.AllKeptBy` | fat/inode.cpp:375-445 | an operation that stays within a lost chain and free clusters leaves every file its bytes, and the volume in order exactly when the file whose size changed still has the clusters for it |
| `FatFile.Volume.AllocateCluster` | fat/filesystem.cpp:428-441 | finds a free cluster exactly when there is one |
| `FatFile.Volume.FreeCluster` | fat/filesystem.cpp:443-450 | changes only the search hint, which moves down to the cluster when the count is 0 or it was just behind it, and the advisory count, which stops at the number of clusters |
| `FatFile.Inode.SeekCluster` | fat/inode.cpp:287-310 | from a cursor that is on the chain walked, the answer is that of a walk from its first cluster, or the end mark past it; the cursor moves exactly onto a cluster found |
| `FatFile.Inode.FreeClusters` | fat/inode.cpp:353-373 | terminates; the chain ends in the given cluster and every later one is free |
| `FatFile.Inode.ClearChain` | fat/inode.cpp:1641-1658 | the loop of Delete clears exactly the entries of the chain |
| `FatFile.Inode.Delete` | fat/inode.cpp:1635-1659 | exactly the clusters of the file become free, the other files keep their bytes |
| `FatFile.Inode.Append` | fat/inode.cpp:399-412 | one more cluster, zeroed and linked behind the last one, or none when no cluster is free |
| `FatFile.Inode.GrowRound` | fat/inode.cpp:397-427 | one round of the growing loop |
| `FatFile.Inode.Grow` | fat/inode.cpp:397-427 | the growing loop reaches the new size or the end of the free clusters |
| `FatFile.Inode.GrowTo` | fat/inode.cpp:395-428 | growing: success, bytes, chain length and free clusters exactly; the cursor stays on the chain exactly when no cluster is linked or it was among those the old size needs; a cursor on a lost chain stays on it |
| `FatFile.Inode.TruncateUp` | fat/inode.cpp:395-444 | growing: success exactly when the free clusters suffice, the old bytes followed by zeros, other files untouched |
| `FatFile.Inode.TruncateDown` | fat/inode.cpp:429-444 | shrinking: a prefix, exactly the clusters needed, the rest returned |
| `FatFile.Inode.Truncate` | fat/inode.cpp:375-445 | refines resizing a byte sequence, from every cursor whose seek does not lead onto a lost chain: succeeds exactly when the size is representable and the clusters suffice; cut or padded with zeros, even after an earlier shrink; the chain length exactly; free, owned and lost clusters add up, where the lost ones are those past the old size when a cluster is linked; exactly when the cursor is on the chain afterwards, and where it is otherwise; other files untouched |
| `FatFile.Inode.TruncateAstray` | fat/inode.cpp:375-445 | the same from a cursor whose seek leads onto a lost chain: a shrinking file is cut, but the clusters returned are those of the lost chain; a growing one gets its new size although the clusters go to the lost chain, so that the volume is in order afterwards exactly when the own chain has enough of them; exactly when the end mark is taken for a cluster |
| `FatFile.Inode.GrowAstray` | fat/inode.cpp:395-428 | the growing branch of that |
| `FatFile.Inode.ShrinkAstray` | fat/inode.cpp:429-444 | the shrinking branch of that: a prefix, and the clusters behind the first of the lost chain become free |
| `FatFile.Inode.Follow` | fat/inode.cpp:1434-1444 | crossing a cluster boundary, the cursor and the cluster stay those of the position |
| `FatFile.Inode.ReadLoop` | fat/inode.cpp:1432-1457 | collects exactly the stretch asked for of the chain it starts on, cut at its end, with the cursor on that chain |
| `FatFile.Inode.ReadRound` | fat/inode.cpp:1433-1456 | one round of the read loop |
| `FatFile.Inode.ReadAt` | fat/inode.cpp:1410-1458 | refines a slice, from every cursor: the bytes of the file from the offset on, cut at its end; from a cursor on a lost chain, at its place or behind it, those of that chain, and -1 behind its end; -1 for a negative offset; exactly when the cursor is on the chain of the file afterwards; no file changes |
| `FatFile.Inode.WriteRound` | fat/inode.cpp:1500-1526 | one round of the write loop |
| `FatFile.Inode.WriteLoop` | fat/inode.cpp:1500-1527 | writes all the bytes at the position and changes only clusters of the file |
| `FatFile.Inode.Overwrite` | fat/inode.cpp:1495-1527 | a write along a chain, the own one or a lost one, changes that stretch of it and no other cluster |
| `FatFile.Inode.WriteHere` | fat/inode.cpp:1495-1527 | a write inside the file overwrites that stretch of it if its seek starts on the chain of the file, and leaves the file alone if it starts on a lost one; whether the cursor is on the chain afterwards, exactly |
| `FatFile.Inode.MakeRoom` | fat/inode.cpp:1483-1527 | a write that makes the file longer, with the outcomes of WriteAt |
| `FatFile.Inode.WriteInside` | fat/inode.cpp:1495-1527 | a write that does not make the file longer, with the outcomes of WriteAt |
| `FatFile.Inode.Extend` | fat/inode.cpp:1483-1485 | makes the file longer exactly when there is room, and whether the seek of the write then leads onto a lost chain, exactly |
| `FatFile.Inode.PlaceSome` | fat/inode.cpp:1485-1527 | what is written when the file cannot grow: something only at offset 0 of a nonempty file |
| `FatFile.Inode.Place` | fat/inode.cpp:1483-1527 | both together |
| `FatFile.Inode.WriteAt` | fat/inode.cpp:1460-1528 | for every call whose growing does not seek along a lost chain, the empty write included: overwrites a byte sequence, success exactly when there is room, zeros in a gap, partial and failed outcomes exactly, other files untouched; when the seek leads onto a lost chain, be it one that growing has just cut off, the bytes are lost and zeros or the old bytes are read; exactly when the cursor is on the chain of the file afterwards |
| `FatFile.LosesItsPlace` | fat/inode.cpp:399-411 | a sequence of calls: a failed growth, an empty write, the deletion of another file and a growth leave the cursor on a cluster the file does not own, which the next seek returns |
| `FatFile.Outgrows` | fat/inode.cpp:395-428 | a sequence of calls: growing the file once more from that cursor succeeds and leaves a file of three clusters on a chain of two |
| `FatFile.WritesNothing` | fat/inode.cpp:1485-1493 | a sequence of calls: on a full volume a write at offset 0 is cut short and the same write at offset 1 fails |
| `ExtPath.PathOfNumber` | ext/inode.cpp:196-275 | every logical block number below 12+E+E*E+E*E*E has a path of slots ending in a data block, which numbers it |
| `ExtPath.NumberOfPath` | ext/inode.cpp:196-275 | every such path is the path of the block it numbers: with PathOfNumber a bijection |
| `ExtPath.Start` | ext/inode.cpp:217-274 | the level and the combined offset GetBlock computes expand to exactly that path; out of range exactly from the limit on |
| `ExtPath.ExpandSingly` | ext/inode.cpp:230-243 | repeated division of the combined offset gives slot 12 and the index |
| `ExtPath.ExpandDoubly` | ext/inode.cpp:244-257 | the same for slot 13 and two indices |
| `ExtPath.ExpandTriply` | ext/inode.cpp:258-271 | the same for slot 14 and three indices |
| `ExtPath.FirstOfChild` | ext/inode.cpp:290-290 | FreeIndirect numbers the entries of a table as GetBlock does |
| `ExtPath.SpanOfChild` | ext/inode.cpp:293-294 | the span it passes down is the span of the child |
| `ExtPath.BuiltIs` | ext/inode.cpp:196-275 | the tree of blocks 0 to n-1 has exactly the positions that begin below n |
| `ExtPath.OpenedIs` | ext/inode.cpp:196-275 | the positions block n is the first to need |
| `ExtPath.SetSizeStep` | ext/inode.cpp:147-165 | the closed form grows by one block and the tables that open there |
| `ExtPath.SetSizeCountsTree` | ext/inode.cpp:147-165 | the closed form of SetSize equals the number of data and table blocks of the tree GetBlock builds, for every size up to the largest |
| `ExtPath.EntryBegins` | ext/inode.cpp:290-298 | where the entry of an indirect slot's table on the way to a block begins |
| `ExtPath.LateFrom` | ext/inode.cpp:290-298 | all later blocks hang below later entries exactly when the cut begins an entry |
| `ExtTree.AddedOk` | ext/inode.cpp:173-194 | putting a fresh zeroed block at an empty slot keeps the invariant: tables and positions agree, all blocks allocated and pairwise distinct across inodes |
| `ExtTree.RemovedOk` | ext/inode.cpp:299-305 | freeing a block with nothing below it keeps the invariant |
| `ExtTree.GrowsByPrefixes` | ext/inode.cpp:196-275 | when GetBlock finds its block the tree has grown by exactly the positions on the way |
| `ExtTree.OtherNumbersKept` | ext/inode.cpp:196-275 | no other logical block, of this inode or another, changes its block |
| `ExtTree.PrefixesArePresent` | ext/inode.cpp:196-275 | every table on the way to a block exists |
| `ExtTree.PrunedCounts` | ext/filesystem.cpp:305-317 | the blocks freed are as many as the positions they were freed from |
| `ExtTree.AllSlotsEmpty` | ext/inode.cpp:373-397 | an inode holds no block exactly when its 15 slots are empty |
| `ExtTree.EmptiedWhen` | ext/inode.cpp:373-397 | after a file that is not empty is cut to nothing the tree is gone exactly when no direct slot past the old size was in use |
| `ExtTree.SweptExact` | ext/inode.cpp:277-310 | below a table, a block is left exactly when its entry of that table begins below the cut |
| `ExtTree.BlockStays` | ext/inode.cpp:361-401 | which logical blocks a truncation leaves, exactly |
| `ExtTree.ShrinkIsClean` | ext/inode.cpp:361-401 | a shrink to a block that exists below a table leaves nothing from there on exactly when that block begins an entry of the table in the inode slot |
| `ExtTree.ShrinkMayLeave` | ext/inode.cpp:290-298 | with 1024-byte blocks every file cut to 269 blocks keeps block 269, because a straddling entry is skipped without descending |
| `ExtTree.ShrinkLeaves` | ext/inode.cpp:290-298 | the calls that reach it: block 269 of an empty volume is asked for, then the file is cut from 270 blocks to 269 |
| `ExtTree.EmptyKeeps` | ext/inode.cpp:373-379 | a sequence of calls: a direct block past a size of one byte survives a truncation to nothing |
| `ExtTree.CutTraps` | ext/inode.cpp:350-358 | a sequence of calls: on a full volume a file with holes is cut in the middle of a block that is missing, and the null block is dereferenced |
| `ExtTree.Volume.AllocateBlock` | ext/filesystem.cpp:242-270 | a block that was free, marked, or nothing exactly when none can be had |
| `ExtTree.Volume.FreeBlock` | ext/filesystem.cpp:305-317 | exactly this block is free again; it must have been in use |
| `ExtTree.Volume.GetBlockFromTable` | ext/inode.cpp:173-194 | the block in the slot, allocated if it was empty; the tree grows only there |
| `ExtTree.Volume.Descend` | ext/inode.cpp:221-271 | follows the path down, allocating tables; every allocation failure half way leaves a valid tree |
| `ExtTree.Volume.GetBlock` | ext/inode.cpp:196-275 | the block at the path of the number; 0 exactly when the number is out of range or the slots missing on the way are more than the blocks to be had; only fresh blocks on that path are added |
| `ExtTree.Volume.FreeIndirect` | ext/inode.cpp:277-310 | frees no block numbered below the cut, every subtree that begins at it or later, and returns whether an entry is left |
| `ExtTree.Volume.FreeEntry` | ext/inode.cpp:286-306 | one entry of that loop |
| `ExtTree.Volume.FreeChild` | ext/inode.cpp:291-305 | an entry at or past the cut goes with all below it, the others stay |
| `ExtTree.Volume.FreeDirects` | ext/inode.cpp:373-379 | direct slots from the new to the old number of blocks are emptied, the others are not |
| `ExtTree.Volume.FreeTable` | ext/inode.cpp:381-397 | the table of an indirect slot goes exactly when no entry is left |
| `ExtTree.Volume.FreeSlot` | ext/inode.cpp:381-397 | the same for a slot that may be empty |
| `ExtTree.Volume.TruncateBlocks` | ext/inode.cpp:361-401 | for every old and new number of blocks of a file that shrinks: which blocks of the tree stay, exactly; no data block below the new size is freed; freed blocks are returned once |
| `ExtTree.Volume.Truncate` | ext/inode.cpp:343-401 | for every old and new size in bytes: nothing happens unless the file shrinks; the block that is cut in the middle is fetched, and allocated if it is a hole; a null dereference exactly when it cannot be had; then which blocks stay, exactly |
| `ExtTree.Volume.TruncateToZero` | ext/inode.cpp:343-401 | a file that is not empty loses its whole tree exactly when no direct slot past the old size is in use, an empty one keeps what it has; then every block is returned once and the free total grows by the size of the tree |
| `ExtDirent.ReadFields` | ext/ext-structs.h:119-126 | the fields read from an encoded entry are those encoded |
| `ExtDirent.WriteEntryIs` | ext/inode.cpp:663-671 | the writes of Link put down exactly the encoding of the new entry |
| `ExtDirent.SplitWrite` | ext/inode.cpp:654-671 | splitting writes the shortened entry followed by the new one |
| `ExtDirent.RemovedFirst` | ext/inode.cpp:755-768 | clearing the first entry leaves a hole, the block tiled, one binding less |
| `ExtDirent.RemovedLater` | ext/inode.cpp:755-768 | merging a later entry into the one before leaves the block tiled, one binding less |
| `ExtDirent.AloneWhen` | ext/inode.cpp:770-771 | an entry fills its block exactly when it is alone in it |
| `ExtDirent.Grafted` | ext/inode.cpp:651-671 | replacing an entry by entries of the same total length that bind one name more keeps the block tiled |
| `ExtDirent.CanReuse` | ext/inode.cpp:604-611 | a hole large enough can hold the new entry |
| `ExtDirent.CanSplit` | ext/inode.cpp:612-619 | an entry with room behind its name can be split |
| `ExtDirent.AddName` | ext/inode.cpp:553-684 | one binding more in one block is one key more in the map |
| `ExtDirent.DropName` | ext/inode.cpp:686-805 | one binding less in one block is one key less in the map |
| `ExtDirent.AppendName` | ext/inode.cpp:633-671 | a new last block with one entry adds one key |
| `ExtDirent.DropBlock` | ext/inode.cpp:770-791 | moving the last block over an empty one and dropping the last changes no binding |
| `ExtDirent.FoundName` | ext/inode.cpp:481-488 | an entry in use that carries a name is its binding |
| `ExtDirent.MissingName` | ext/inode.cpp:463-517 | a name no entry carries is not bound |
| `ExtDirectory.ReadEntry` | ext/inode.cpp:472-483 | reads the fields of the entry and compares its name; the tests for corruption never fire |
| `ExtDirectory.WriteSpot` | ext/inode.cpp:651-671 | the bytes Link writes replace an entry by entries of the same total length with one binding more |
| `ExtDirectory.ClearLater` | ext/inode.cpp:755-768 | the bytes UnlinkKeep writes for an entry that has one before it |
| `ExtDirectory.ClearFirst` | ext/inode.cpp:755-768 | and for the first entry of a block |
| `ExtDirectory.LinkCounts` | ext/inode.cpp:627-677 | one name more and one link more keep the names of a directory among the links its inodes count, unless the count is full |
| `ExtDirectory.UnlinkCounts` | ext/inode.cpp:748-750 | one name less and one link less do too, and the count is never 0 before |
| `ExtDirectory.LinksNowhere` | ext/inode.cpp:557-558 | a sequence of calls: a name linked into a removed directory is not there, and the caller is told that it is |
| `ExtDirectory.Directory.CursorNext` | ext/inode.cpp:516-516 | advancing by reclen lands on the next entry, in this block or the next |
| `ExtDirectory.Directory.Look` | ext/inode.cpp:463-483 | a visit reads the entry the offset stands for; the tests for corruption never fire |
| `ExtDirectory.Directory.Open` | ext/inode.cpp:463-517 | refines lookup: the inode bound to the name, 0 exactly when it is not bound |
| `ExtDirectory.Directory.Offer` | ext/inode.cpp:602-620 | an entry is taken exactly when it has the bytes to spare |
| `ExtDirectory.Directory.FindRoom` | ext/inode.cpp:577-622 | finds out whether the name exists, and finds room exactly when some entry has it |
| `ExtDirectory.Directory.Insert` | ext/inode.cpp:641-671 | the map gains the name, no block is added |
| `ExtDirectory.Directory.Append` | ext/inode.cpp:633-671 | the map gains the name with one block more, exactly when a block can be had; otherwise nothing changes; every block goes on binding a name |
| `ExtDirectory.Directory.Link` | ext/inode.cpp:553-684 | refines insertion: every result characterized exactly, a removed directory, the wrong kind of file, a full link count and running out of space included; the link count follows, and stays at least the number of names; a block is added exactly when no entry has room, tiling kept, the tests for corruption never fire |
| `ExtDirectory.Directory.LinkName` | ext/inode.cpp:563-684 | the same once directory and kind are in order |
| `ExtDirectory.Directory.Bind` | ext/inode.cpp:630-671 | the same once the name is known to be new |
| `ExtDirectory.Directory.FindName` | ext/inode.cpp:700-714 | finds the entry exactly when the name is bound, and the entry before it |
| `ExtDirectory.Directory.Cleared` | ext/inode.cpp:753-768 | the block without the entry is tiled and binds one name less |
| `ExtDirectory.Directory.RemoveBlock` | ext/inode.cpp:770-791 | a block without names is overwritten by the last one and dropped, so that every block binds a name again |
| `ExtDirectory.Directory.UnlinkKeep` | ext/inode.cpp:686-805 | refines removal: the inode that was bound, the map without the name, its link count one less; every refusal exactly; no block is left without a name unless the last block could not be read |
| `ExtDirectory.Directory.Unbind` | ext/inode.cpp:753-791 | the entry goes, and its block with it if it was alone there |
| `ExtBits.SetsOne` | ext/util.h:39-42 | setbit changes exactly its bit |
| `ExtBits.ClearsOne` | ext/util.h:44-47 | clearbit changes exactly its bit |
| `ExtBits.FreeAfter` | ext/blockgroup.cpp:108-119 | changing one bit changes the set of free blocks by exactly its block |
| `ExtBits.TakeBit` | ext/blockgroup.cpp:106-119 | taking the bit under the cursor takes one block and keeps all bits below the cursor set |
| `ExtBits.ReturnBit` | ext/blockgroup.cpp:212-217 | clearing a bit returns one block, and moving the cursor back to it keeps all bits below the cursor set |
| `ExtBits.NoneFree` | ext/blockgroup.cpp:91-127 | full chunks mean no free block |
| `ExtBitmap.GroupsPartition` | ext/filesystem.cpp:305-317 | every block from the first data block on belongs to exactly one of the divup(blocks, blocks per group) groups, the one FreeBlock sends it to, wherever the first data block is |
| `ExtBitmap.RefusesAll` | ext/blockgroup.cpp:87-88 | a sequence of calls: a group of 65536 free blocks has a 16-bit count of 0 and grants none |
| `ExtBitmap.BlockGroup.constructor` | ext/blockgroup.cpp:36-69 | a group, perhaps without blocks, whose 16-bit free count agrees with its bitmap |
| `ExtBitmap.BlockGroup.Take` | ext/blockgroup.cpp:108-122 | the block under the cursor is taken, counts and bitmap go on agreeing |
| `ExtBitmap.BlockGroup.Scan` | ext/blockgroup.cpp:106-124 | stops on a clear bit, or the chunk is full |
| `ExtBitmap.BlockGroup.Probe` | ext/blockgroup.cpp:93-126 | one round of the search, starting in the chunk where the last one ended |
| `ExtBitmap.BlockGroup.VisitsAll` | ext/blockgroup.cpp:90-93 | the rotation visits every chunk |
| `ExtBitmap.BlockGroup.Search` | ext/blockgroup.cpp:90-127 | finds a clear bit unless no block is free |
| `ExtBitmap.BlockGroup.AllocateBlock` | ext/blockgroup.cpp:83-136 | returns a block that was free exactly when their number is not a multiple of 65536, takes only it, both counts follow, and the fallback for inconsistency is unreachable |
| `ExtBitmap.BlockGroup.FreeBlock` | ext/blockgroup.cpp:195-225 | exactly this block is free again, both counts follow, the cursor invariant holds in whichever chunk is loaded |
| `ExtBitmap.BlockGroup.Clear` | ext/blockgroup.cpp:212-224 | clearing a bit of the loaded chunk |
| `ExtGroups.FindsEven` | ext/filesystem.cpp:257-261 | right after mounting, the search through groups not yet read comes to one with blocks exactly when one of every other group has some |
| `ExtGroups.FindsAll` | ext/filesystem.cpp:257-261 | it comes to one exactly when there is one, if no unread group without blocks is right before one with blocks |
| `ExtGroups.SkipsAGroup` | ext/filesystem.cpp:242-270 | a sequence of calls: a mounted volume whose second group of two has all five free blocks gives none, and forgets that it has any |
| `ExtGroups.Filesystem.Update` | ext/blockgroup.cpp:298-310 | the list of groups goes on being that of the groups in memory with a count that is not 0 |
| `ExtGroups.Filesystem.GetBlockGroup` | ext/filesystem.cpp:176-203 | the group is in memory, and counted as initialized exactly when it is the next one |
| `ExtGroups.Filesystem.AllocateBlock` | ext/filesystem.cpp:242-270 | a block exactly when the preferred group, a listed one or one the search comes to has one; one count and the total fall by one; otherwise the total becomes 0 and a check is asked for |
| `ExtGroups.Filesystem.Search` | ext/filesystem.cpp:257-261 | the loop counts a group as initialized that GetBlockGroup has counted already, and so passes over the next one |
| `ExtGroups.Filesystem.FreeBlock` | ext/filesystem.cpp:305-317 | the count of the group and the total rise by one, and the group is found by the next allocation unless its 16-bit count has wrapped |
| `FatNibble.DigitsDecide` | fat/filesystem.cpp:452-496 | the half bytes of a value determine it |
| `FatNibble.Pack12` | fat/filesystem.cpp:513-529 | the masks of WriteFAT put the three half bytes in place and keep the neighbour's |
| `FatNibble.Unpack12Odd` | fat/filesystem.cpp:472-478 | the shifts of ReadFAT take the three half bytes of an odd entry |
| `FatNibble.Unpack12Even` | fat/filesystem.cpp:472-478 | and of an even one |
| `FatNibble.Pack32` | fat/filesystem.cpp:544-549 | the 28-bit value is put in place and the top four bits are kept |
| `FatNibble.Unpack32` | fat/filesystem.cpp:490-491 | ReadFAT takes the low 28 bits |
| `FatTable.Table.EntryInside` | fat/filesystem.cpp:452-554 | an entry lies inside its own copy, which lies on the disk |
| `FatTable.Table.Located` | fat/filesystem.cpp:457-472 | sector and offset of a byte of the table address that byte, across sector boundaries |
| `FatTable.Table.GetPair` | fat/filesystem.cpp:457-472 | the two bytes of a 12-bit entry, the second one perhaps in the next sector |
| `FatTable.Table.ReadFAT` | fat/filesystem.cpp:452-496 | returns the entry of the cluster in the first copy |
| `FatTable.Table.WriteCopy` | fat/filesystem.cpp:504-551 | exactly the half bytes of the entry change |
| `FatTable.Table.WriteFAT` | fat/filesystem.cpp:498-554 | the entry changes in every copy, and nothing else on the disk changes |
| `FatTable.Table.ReadBack` | fat/filesystem.cpp:452-554 | a value written is the value read |
| `FatTable.Table.EntriesApart` | fat/filesystem.cpp:452-554 | entries of different clusters or copies share no half byte |
| `FatTable.Table.OthersKept` | fat/filesystem.cpp:498-554 | every other entry of every copy keeps its value, the 12-bit neighbour in the same byte included |
| `FatTable.Table.TopKept` | fat/filesystem.cpp:544-549 | the top four bits of a 32-bit entry survive |
| `FatTable.Table.CopiesStayAlike` | fat/filesystem.cpp:498-554 | copies that agree go on agreeing |
| `FatGeometry.SectorSizes` | fat/fatfs.cpp:174-180 | the check leaves exactly four sector sizes |
| `FatGeometry.TableHasRoom` | fat/fatfs.cpp:234-245 | the tables of an accepted volume have room for every entry |
| `FatGeometry.TablesOnDevice` | fat/fatfs.cpp:205-226 | and lie on the device, which is what reading and writing entries requires |
| `FatGeometry.SecondByteInside` | fat/filesystem.cpp:457-472 | the second byte of a 12-bit entry lies inside the copy too |
| `FatGeometry.DataBelowTotal` | fat/inode.cpp:208-215 | every sector of a cluster lies below the end of the volume |
| `FatGeometry.DataInjective` | fat/inode.cpp:208-215 | different places in clusters are different sectors |
| `FatGeometry.DataAfterTables` | fat/fatfs.cpp:217-227 | the data lies behind the metadata exactly when the sizes before it do not overflow 32 bits |
| `FatGeometry.DataMayOverlap` | fat/fatfs.cpp:217-227 | counterexample: an accepted volume whose data begins inside the reserved sectors |
| `FatGeometry.RootUsable` | fat/filesystem.cpp:452-454 | for every accepted FAT32 volume: the assertion of ReadFAT holds for the root cluster, and all its sectors lie on the volume, exactly when it ends within the data area; exactly when its first sector and its table entry lie there all the same |
| `FatGeometry.RootMayBePastTheEnd` | fat/fatfs.cpp:254-265 | counterexample: an accepted volume whose root cluster is the one past the last, with no sector on the volume |
| `FatVolume.MountFits` | fat/filesystem.cpp:208-237 | an accepted volume meets everything the model of files takes from the checks at mount |
| `FatVolume.SectorAddress` | fat/inode.cpp:208-222 | sector and offset of a byte of a cluster address that byte of the device |
| `FatVolume.ClusterPlace` | fat/inode.cpp:208-215 | the clusters lie behind the tables and on the device |
| `FatVolume.EntryWritten` | fat/filesystem.cpp:498-554 | writing an entry into every copy on the device is writing it into the table the model of files has, and no cluster changes |
| `FatVolume.EntryRead` | fat/filesystem.cpp:452-496 | reading an entry from the device is reading it from that table |
| `FatVolume.StretchWritten` | fat/inode.cpp:1513-1524 | writing bytes on the device at the address of a place in a cluster is writing them into that cluster, and no entry and no other cluster changes |
| `EditorRows.Breaks` | editor/command.c:36-81 | splitting a row inserts a newline at the cursor's offset in the text |
| `EditorRows.Types` | editor/command.c:727-749 | inserting into a row inserts into the text |
| `EditorRows.Erases` | editor/command.c:134-141 | removing from a row removes from the text |
| `EditorRows.Combines` | editor/command.c:85-116 | joining a row to the one before removes the newline between them |
| `EditorRows.OffsetOrder` | editor/terminal.h:53-56 | positions are ordered as their offsets |
| `EditorRows.RowText` | editor/command.c:797-816 | what a row contributes to the text |
| `EditorRows.PutBack` | editor/command.c:823-846 | putting a removed stretch back, and only that, restores the text |
| `EditorRows.CutPasteRestores` | editor/command.c:823-846 | inserting the front of a removed stretch, up to its first NUL, restores the text exactly when it holds none |
| `EditorText.ShiftUp` | editor/command.c:52-53 | the loop that makes room for a line or a character |
| `EditorText.ShiftDown` | editor/command.c:110-112 | the loop that closes a gap |
| `EditorText.SplitLine` | editor/command.c:40-76 | the line array after a newline |
| `EditorText.JoinLines` | editor/command.c:92-112 | the line array after joining two lines |
| `EditorText.PutChar` | editor/command.c:731-747 | a character goes into the buffer of a line |
| `EditorText.TakeChar` | editor/command.c:135-139 | a character leaves the buffer of a line |
| `EditorText.Editor.CursorSet` | editor/cursor.c:29-64 | cursor and selection end meet; its callers always meet the asserted bounds |
| `EditorText.Editor.TypeNewline` | editor/command.c:36-81 | the text gains a newline at the cursor, which moves behind it |
| `EditorText.Editor.TypeCharacter` | editor/command.c:727-749 | the text gains the character at the cursor, which moves behind it |
| `EditorText.Editor.EraseBack` | editor/command.c:118-141 | the character before the cursor goes, if there is one |
| `EditorText.Editor.CombineWithLast` | editor/command.c:85-116 | the newline before the cursor goes, if there is one |
| `EditorText.Editor.DeleteSelection` | editor/command.c:200-223 | terminates; exactly the selected stretch goes, however it was selected, and the cursor ends at its start |
| `EditorText.Editor.Backspace` | editor/command.c:118-141 | with a selection deletes it, without one erases one character |
| `EditorText.Editor.Measure` | editor/command.c:779-795 | the length of the text between two positions |
| `EditorText.Editor.Collect` | editor/command.c:797-820 | the text between two positions, ended by a NUL |
| `EditorText.Editor.Copy` | editor/command.c:751-821 | the clipboard is the selected stretch of the text, ended by a NUL |
| `EditorText.Editor.Cut` | editor/command.c:823-831 | copy and delete |
| `EditorText.Editor.Paste` | editor/command.c:833-846 | the clipboard up to its first NUL replaces the selection |
| `EditorText.Editor.CutPaste` | editor/command.c:823-846 | calling Cut and then Paste restores the text exactly when the selection holds no NUL, and without a selection inserts the old clipboard |
| `EditorText.LosesNul` | editor/command.c:833-846 | a sequence of calls: a NUL typed, selected, cut and pasted is gone |
| `RingBuffer.Traps` | display/connection.c:67-69 | a sequence of calls: an empty transmission on a new connection divides by zero |
| `RingBuffer.Append` | display/connection.c:67-74 | writing behind the used part, around the end if need be, appends to the queue |
| `RingBuffer.Drop` | display/connection.c:514-516 | moving the offset drops from the front of the queue |
| `RingBuffer.TwoPieces` | display/connection.c:49-59 | a ring read in two pieces |
| `RingBuffer.CopyAround` | display/connection.c:67-74 | the two copies of a transmit append to the queue |
| `RingBuffer.Connection.Enlarge` | display/connection.c:42-65 | a larger ring with the same queue |
| `RingBuffer.Connection.Store` | display/connection.c:67-75 | the queue gains the bytes |
| `RingBuffer.Connection.Transmit` | display/connection.c:37-76 | what was sent followed by the queue is what was scheduled, across wraparound and reallocation; a division by zero exactly for an empty buffer without a ring |
| `RingBuffer.Connection.WriteSome` | display/connection.c:502-517 | one partial write moves bytes from the queue to what was sent, or stops |
| `RingBuffer.Connection.CanWrite` | display/connection.c:500-523 | whatever the socket takes, sent followed by queued stays what was scheduled; the ring is given up exactly when all is sent |
| `RingBuffer.Connection.Serve` | display/connection.c:37-523 | for every sequence of schedulings and partial writes: sent followed by queued is everything scheduled in order, up to an empty scheduling that divides by zero |
| `DiskAreas.TileCovers` | disked/disked.c:1064-1079 | partitions and the holes between them tile the usable range, and the partitions are the given ones |
| `DiskAreas.ChainedOrdered` | disked/disked.c:1064-1079 | such areas are in order and disjoint |
| `DiskAreas.Scan` | disked/disked.c:1050-1079 | the scan writes the tiling into the array its sorted input sits at the end of, never over input still to be read |
| `DiskAreas.ScanOne` | disked/disked.c:1066-1079 | one round of that loop |
| `DiskAreas.AlignUpRounds` | disked/disked.c:1164-1168 | the mask arithmetic rounds up to a mebibyte |
| `DiskAreas.AlignAllFine` | disked/disked.c:1159-1181 | afterwards the areas are in order, inside what they were, and holes are whole mebibytes |
| `DiskAreas.AlignAllParts` | disked/disked.c:1159-1181 | partitions are untouched |
| `DiskAreas.Compact` | disked/disked.c:1159-1181 | aligning and closing up in place gives exactly the aligned areas |
| `DiskAreas.ReadMeans` | disked/disked.c:636-740 | a quantity is read as the number of bytes it means, counted from either end and rounded up to a mebibyte, or refused when it means more than there is, exactly when its product fits 63 bits or wraps to something too large, it is not nothing counted from the end, and it is not in bytes unless they are too many anyway |
| `DiskAreas.NothingFromEnd` | disked/disked.c:651-655 | counterexample: -0 means the end of the hole and is read as its start |
| `DiskAreas.ReadInHole` | disked/disked.c:636-740 | an accepted quantity is whole mebibytes, and lies in the hole exactly when its scaled value did not wrap below zero |
| `DiskAreas.TameFits` | disked/disked.c:667-726 | what is accepted lies in the hole while the product stays below 2 to the 63 |
| `DiskAreas.TameIsExact` | disked/disked.c:667-726 | and is then what is meant, except for bytes and for nothing from the end |
| `DiskAreas.WrapEscapes` | disked/disked.c:718-739 | counterexample: 8192 pebibytes are accepted for any hole and land before it |
| `DiskAreas.WrapsToNothing` | disked/disked.c:718-739 | counterexample: 16384 pebibytes are accepted for any hole as none |
| `DiskAreas.InsertLayout` | disked/disked.c:2168-2175 | partitions with one added stay disjoint, in order and in range exactly when its range was free |
| `DiskAreas.HoleIsFree` | disked/disked.c:2168-2175 | a range inside a hole is free |
| `DiskAreas.ChosenInHole` | disked/disked.c:1816-1870 | the partition lies in its hole exactly when neither quantity wraps below zero, and then on mebibytes |
| `DiskAreas.ChosenIsWanted` | disked/disked.c:1816-1870 | it is the partition the two quantities mean when both are read as what they mean |
| `DiskAreas.WrapMayLandFree` | disked/disked.c:1842-1870 | a wrapping quantity may still land in another hole, so that the condition on the range is the exact one |
| `DiskAreas.OffTheDisk` | disked/disked.c:1842-1870 | a sequence of calls: 8192 pebibytes and then everything makes a partition before the disk begins |
| `DiskAreas.BlockExact` | disked/disked.c:2168-2171 | the division into logical blocks is exact |
| `DiskAreas.Disk.Areas` | disked/disked.c:1008-1181 | the aligned tiling of the usable range |
| `DiskAreas.Disk.Mkpart` | disked/disked.c:1816-1870 | adds exactly the partition chosen, as the code goes on after a wrap; the partitions stay disjoint, in order and in range exactly when its range is free, which it is when neither quantity wraps below zero, and so when both stay below 2 to the 63 or are refused; it is the one meant when both are read as what they mean |
| `DiskAreas.Disk.Mkparts` | disked/disked.c:1816-1870 | every sequence of creations with quantities that stay below 2 to the 63 or are refused keeps the partitions disjoint, in order and in range |
| `FatLongName.ChecksumName` | fat/inode.cpp:447-456 | the loop computes the checksum of the 11 bytes |
| `FatLongName.SumDetects` | fat/inode.cpp:447-456 | names that differ in one byte have different checksums |
| `FatLongName.UnitsBack` | fat/fat.h:108-144 | the 13 units of a slot are read from where they were put |
| `FatLongName.WriteRecord` | fat/inode.cpp:1145-1205 | Link writes the slots of the long name backwards, then the short one |
| `FatLongName.ReadRecord` | fat/inode.cpp:563-711 | the reading loop is the state machine on slots, which ends at a slot that begins with 0 |
| `FatLongName.RoundTrip` | fat/inode.cpp:597-711 | reading the record written for a name of 1 to 255 units gives the units before the first terminator and the same number of slots, whatever was buffered before; all units come back exactly when none is 0 or 0xFFFF |
| `FatLongName.FillerIsCut` | fat/inode.cpp:690-705 | counterexample: a name of three units with 0xFFFF in the middle comes back as its first unit |
| `FatLongName.SlotCount` | fat/inode.cpp:1026-1026 | the number of slots |
| `Arithmetic.DivUpStep` | ext/util.h:23-26 | divup grows by one exactly at multiples of the divisor |

## Left out

- FatFile.Inode.WriteAt: writes that grow the file through a seek along a lost chain, which leave a file that may be longer than its chain; what the growing does there is FatFile.Inode.TruncateAstray.
- FatFile.Volume.Open: reading the directory entry that names the first cluster and the size.
- ExtTree.Volume.AllocateBlock: how many blocks the groups offer is a number of the model; which group is asked is in ExtGroups, what it finds in ExtBitmap.
- ExtTree.Volume.FreeBlock: the group and the counts are in ExtGroups and ExtBitmap.
- ExtTree.Volume.TruncateToZero: embedded symbolic links and the size field are not modelled.
- ExtGroups.Filesystem.AllocateBlock: reading a group does not fail, and which bit of it is taken is in ExtBitmap.
- ExtDirectory.Directory.Append: how many blocks can still be had is a number of the model, since it depends on the rest of the volume.
- DiskAreas.ReadMeans: signed 64-bit arithmetic wraps, as compilers make it, although the language leaves it undefined; fractions after a point are read and dropped as the code does.
- DiskAreas.Disk.Mkpart: how a partition table stores sector numbers that are out of range.
- The check of the FAT version.
- FatFile.Volume.Create: the directory entry, the attributes and the timestamps of the new file are not part of it.
- ExtTree.Volume.Truncate: the block that is cut is fetched, but the zeros written into it are not modelled, and embedded symbolic links are not either.
- ExtDirectory.Directory.Open: the flags, the file types and the creation of files are not modelled.
- ExtDirectory.Directory.UnlinkKeep: which directories are empty is a set given to it, and read-only devices are not modelled.
- ExtDirectory.Directory.Link: read-only devices and the mode of the directory itself are not modelled.
- DiskAreas.Disk.Areas: partitions are kept sorted instead of being sorted by qsort, and extended partitions are not modelled.
- EditorText.Editor.CursorSet: the page offsets, which only scroll the view, are not modelled.
- CacheProtocol.DeviceSyncIsDurable: a pwrite moves some bytes at a time and does not fail, and fsync adds nothing to it.
- ExtTree: the slots of an inode form a table of their own instead of lying at an offset of a block of inodes, and the scaling of i_blocks to sectors is not modelled.
- FatFile: chains end in exactly the end mark the driver writes, not in one of the other values above the bad-cluster mark; a failed growth leaves its clusters in the chain, as the code does.
- FAT directories: Iterate, shrinking, short names and the conversion between UTF-8 and UTF-16.
- The ext2 inode bitmap and the tables of inodes.
- The copies of the block cache in the FAT and ISO 9660 drivers.
- The MBR table: extended and logical partitions, 32-bit sector fields.
- The rest of the editor: word motion, search, colours, rendering.
- The rest of the display server, and every other program of the system.
- Timestamps, owners, permissions, error numbers, running out of memory, the message interface of filesystems and the FUSE frontends.
