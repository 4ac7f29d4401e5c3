# Verified models of a RISC-V teaching kernel

A Dafny model of the parts of the kernel that carry the most state, with proofs of what they are for. The
project stands alone: `dafny verify dfyconfig.toml` checks all of it.

Under the kernel's one lock every operation up to a call of the scheduler is a single step, and it is modelled
so. Code that updates state in place is a class whose methods change fields and carry loop invariants; each
method is tied to a value-level meaning, and the laws are proved about that meaning and about whole runs.

| file | what it holds |
|---|---|
| `Common.dfy` | shared names: bytes, process numbers, `Option`, sequences without repeats |
| `Arith.dfy`, `Buddy.dfy`, `Kmalloc.dfy` | the buddy allocator: a tree of blocks, and the free lists that represent it |
| `BlockCache.dfy` | the eight-slot write-back block cache, refining one flat array of blocks |
| `FsModel.dfy`, `FileSystem.dfy` | inodes with direct, indirect and double-indirect blocks over a bitmap; files as byte arrays |
| `Names.dfy`, `Dcache.dfy` | names as the kernel compares them, and the hashed dentry cache |
| `DirStore.dfy`, `DirModel.dfy`, `DirTree.dfy`, `Directory.dfy` | directory entries in the bytes of inodes, what the cache may know of them, the tree and link counts they form, and the operations on them |
| `PagingModel.dfy`, `Paging.dfy`, `UserCopy.dfy` | demand paging with swap, and the copies between kernel and user memory |
| `PageTable.dfy`, `Sv39.dfy` | page-table trees, `share_pgtable`, and the Sv39 bit layout |
| `Evict.dfy`, `LruRuns.dfy` | FIFO, second-chance and LRU replacement |
| `PageGroups.dfy` | who owns each page frame, and quotas |
| `Pipe.dfy` | the zero-copy pipe |
| `Sched.dfy`, `SchedRuns.dfy` | the least-consumption scheduler and its starvation bound |
| `IntrusiveList.dfy`, `Placement.dfy` | the linked list on the heap; where each process is |
| `SyncModel.dfy`, `Sync.dfy` | mutex, condition, semaphore and barrier from initialisation to destruction: every call as a step on values, and the kernel's own form |
| `Mailbox.dfy`, `MailboxRuns.dfy` | the mailbox over all interleavings |

## Main results

- **Files are byte arrays** (`FileSystem.Fs.Run`, `FileSystem.RunIsArrays`): over any sequence of create, delete, read
  and write, each read returns the slice clipped to the file, other files are untouched, and only an operation that
  leaves every block in use is cut short; until a write runs past the 32-bit offsets, each write overlays the file
  with gaps zero. No block is ever in two places (`FsModel.NoSharing`), and deletion unmarks each owned block once
  (`FileSystem.Fs.Delete`).
- **Directories are a tree of finite maps** (`Directory.Directories.Run`), stored as 32-byte entries in the file system
  above and cached at will: every answer is the map's, every directory is reached from the root by its one name, and a
  name is refused for want of space exactly when its entry needs more blocks than are free
  (`Directory.Directories.Link`). Removing a name cannot fail for want of space. A file that is not written keeps its
  bytes whatever happens to names, directories and other files (`DirTree.BytesStay`).
- **Paging is transparent** (`UserCopy.Run`): whatever is evicted and brought back, each user byte is the one last
  copied there, and so is each byte copied out. Every page stands below its own two page tables, which are found or made
  on the way to it (`Paging.Memory.AllocPage`), and no more is evicted than room is needed (`Paging.Memory.Shrink`).
- **The buddy allocator refuses only what it must** (`Kmalloc.Pool.Kmalloc`), its free blocks depend only on what
  is outstanding (`BuddyTree.FreeBlocksDetermined`), and freeing everything restores the pool.
- **Starvation bound** (`SchedRuns.StarvationBound`, for the scheduler itself through `SchedRuns.Drive`), **mailbox
  delivery and no stranded waiter** (`MailboxRuns.FifoDelivery`, `MailboxRuns.NobodyStranded`), **one place per
  process** (`Placement.Processes.Run`) and **no ready process forgotten** (`Placement.ReadyStays`), **nobody who
  leaves a lock's list goes anywhere but the ready queue or a hart** (`SyncModel.LeaversGoOn`), **mutual exclusion
  and the other lock invariants** over all calls from initialisation to exit (`SyncModel.Exclusion`,
  `SyncModel.RunGood`, for the kernel's form through `Sync.Machine.Run`), **frame accounts**
  (`PageGroups.Accounts.Run`), **pipe order and content** (`Pipe.PipeEntry.Run`).

## Where the code falls short of the plain claim

- `kmalloc` adds its header to the size in 64 bits. The granted block holds the request exactly when that sum does
  not wrap (`Kmalloc.RequestFitsIffNoWrap`); `Kmalloc.WrappedRequestIsTiny` is such a size.
- `kfree` trusts the word before the address it is given. The pool stays sound exactly if the address was granted or
  that word does not read as a header (`Kmalloc.Pool.Kfree`); `Kmalloc.Pool.Forge` frees a block's inside.
- Three calls free a mutex without looking who holds it: `condition_wait` with another's mutex, `do_mutex_lock_init`
  when it sets up a mutex that is held but has no user, and the exit of the last user while another process holds it.
  A call makes a sound mutex unsound exactly if it does one of these (`SyncModel.CallOkIff`, `SyncModel.GivenUpOkIff`,
  `SyncModel.SetUpOkIff`), and over every run a mutex that no step took that way has one holder at most
  (`SyncModel.Exclusion`). `Sync.StolenByWait`, `Sync.StolenByInit` and `Sync.StolenByExit` are runs from boot after
  which two processes hold one mutex.
- `do_mutex_lock_init` sets the list of an unused mutex up anew without looking whether anybody queues on it, and whoever
  does is lost. That happens only with a mutex taken from a holder (`SyncModel.LosesOnlyBySteal`), so in every run that
  takes none nobody is ever lost (`SyncModel.NobodyLost`).
- A mutex nobody ever initialised may be acquired, and its list head is unset. With sound starting values the kernel
  halts exactly if a call queues on, or releases, such a mutex, or finds all sixteen locks of a kind in use
  (`SyncModel.SoundHalts`); `Sync.QueueOnNothing` is such a run.
- `do_barrier_init` never stores the key. Two requests in a row for one key get the same barrier exactly if the key is
  0 (`SyncModel.BarrierTwice`, `SyncModel.BarrierSharedIff`); `Sync.NeverMet` has two processes wait for each other on
  two barriers.
- `do_semaphore_init` also counts process 0 as a user of a new semaphore, so that no exit ever destroys one
  (`SyncModel.SemaphoreOutlives`).
- `alloc_pageframe` loses one probe. `Paging.Memory.FindFrame` misses a free frame exactly when the cursor stands
  past the last frame and the last frame is the only free one; `Paging.LostProbe` is that state.
- `fork_pagegroup` takes a user from the old group without looking whether it was the last. The quotas in use still
  add up to all of memory exactly when the old group had another user (`PageGroups.SplitFacts`,
  `PageGroups.Accounts.Fork`); `PageGroups.LastUserLosesQuota` is a group that had none. The system call only forks
  the kernel's group, which always has one.
- A semaphore may be started below zero. The assertion in `do_semaphore_up` fails exactly then, when ups match downs,
  and a barrier's assertion fails exactly for a goal below one (`SyncModel.HaltsIff`, `Sync.UpBelowZero`,
  `Sync.BarrierForNone`).
- `inode_write` lets its offset wrap. A write means what a byte array would do exactly if offset plus length stays
  below 2^32 and the positions it leaps over hold zeros (`FsModel.OverlayIff`), and what was written can be read back
  exactly if it stays below (`FsModel.ReadBackIff`); `FsModel.WriteGoesRound` is a write that does not.
- `path_create` locks the parent and then what the name leads to. It waits for itself exactly for "." and for ".." in
  the root (`DirTree.SelfLockedIff`, `DirTree.MkdirDot`); a run ends there (`Directory.Directories.Run`).
- `do_ln` does not count the new name as a link. Removing a name leaves another that leads to nothing exactly if it
  deletes the file while another name leads to it (`DirTree.UnlinkDanglesIff`, `DirTree.LnThenRm`); in a run that gives
  nothing a second name no operation meets a deleted inode (`DirTree.NeverDangling`).
- `inode_delete` never clears the type on disk, so an inode number is never handed out again (`DirTree.NumbersStay`).
  `path_create` that fails half way leaves entries of the lost directory in the dentry cache; they do no harm for that
  reason alone: the cache may know something only about numbers used once (`DirModel.Coherent`,
  `DirModel.AllocCoherent`). When the numbers run out, the next creation halts (`Directory.Directories.Create`).
- The starvation bound holds as long as no process weighs less than one without picks (`Sched.Proc.Fair`). With nice
  values up to ten million that is so exactly if the workload is not negative or at most -202 (`Sched.FairIff`).
  `set_process_workload` takes any value; beside one process with any other workload, another can be kept waiting for
  ever (`SchedRuns.UnfairStarves`).
- `check_sleeping` leaves a woken process BLOCKED on the ready queue, so "on the ready queue" implies READY or BLOCKED,
  never RUNNING (`Placement.Placed`); every other list holds BLOCKED processes only.

## Model

| member | source | states |
|---|---|---|
| `Arith.XorSibling` | kernel/mm/kmalloc.c:72-73 | toggling the bit of the block size in an offset gives the sibling block at that order |
| `Arith.XorToggle` | kernel/mm/kmalloc.c:72-73 | toggling one bit of any offset moves it by that power of two, up or down |
| `BuddyTree.SplitTiles` | kernel/mm/kmalloc.c:56-68 | replacing a block by its two halves keeps the blocks an exact tiling of the pool |
| `BuddyTree.MergeTiles` | kernel/mm/kmalloc.c:70-92 | replacing two halves by their parent keeps the tiling |
| `BuddyTree.TilingPartitionsBytes` | kernel/mm/kmalloc.c:41-143 | in a tiling every pool byte lies in the address range of exactly one block |
| `BuddyTree.ByteIffWithin` | kernel/mm/kmalloc.c:37-39 | a byte lies in a block's range exactly when its 16-byte unit descends from the block |
| `BuddyTree.FreeRegionInOneBlock` | kernel/mm/kmalloc.c:70-92 | with no two free buddies, a region whose every unit is free lies inside one free block |
| `BuddyTree.ServableIffRegionFree` | kernel/mm/kmalloc.c:56-68 | a block of an order can be cut out exactly when some naturally aligned region of that order is wholly free |
| `BuddyTree.FreeBlocksDetermined` | kernel/mm/kmalloc.c:56-92 | history independence: two pools with the same outstanding blocks have the same free blocks |
| `BuddyTree.AllFreedIsWhole` | kernel/mm/kmalloc.c:70-92 | with nothing outstanding the pool is one block of the largest order |
| `Kmalloc.OrderFrom` | kernel/mm/kmalloc.c:109-112 | the order chosen is the least whose blocks hold the request |
| `Kmalloc.OrderIsSmallest` | kernel/mm/kmalloc.c:109-112 | the order chosen for a size is the one least order that fits it, in plain powers of two, or past the largest if none does; a size that wraps gets order 4 |
| `Kmalloc.RequestFitsIffNoWrap` | kernel/mm/kmalloc.c:106-126 | header and request fit the granted block if and only if the 64-bit size sum does not wrap |
| `Kmalloc.WrappedRequestIsTiny` | kernel/mm/kmalloc.c:109-112 | a size for which the sum wraps is granted the smallest block |
| `Kmalloc.SplitState` | kernel/mm/kmalloc.c:60-64 | one split step keeps tiling and coalescing, with the lower half in hand |
| `Kmalloc.MergeState` | kernel/mm/kmalloc.c:71-90 | one merge step turns the block in hand and its free buddy into their parent, keeping the pool state |
| `Kmalloc.PlaceState` | kernel/mm/kmalloc.c:87-91 | filing a block whose buddy is not free leaves no two buddies both free |
| `Kmalloc.MergedStart` | kernel/mm/kmalloc.c:88-89 | the joined block starts at the lower of the two addresses |
| `Kmalloc.Pool.constructor` | kernel/mm/kmalloc.c:96-104 | the pool starts as one free block of the largest order |
| `Kmalloc.Pool.PushBlock` | kernel/mm/kmalloc.c:41-46 | files a block on its order's list; the set of free blocks grows by it |
| `Kmalloc.Pool.PopBlock` | kernel/mm/kmalloc.c:48-54 | takes a block of the order, or 0 exactly when that list is empty |
| `Kmalloc.Pool.AcquireBlock` | kernel/mm/kmalloc.c:56-68 | fails exactly when no free block is large enough; otherwise cuts one of the wanted order out, keeping the tiling |
| `Kmalloc.Pool.SplitDown` | kernel/mm/kmalloc.c:60-64 | halving keeps the start address and the pool state at every step |
| `Kmalloc.Pool.MergeBlock` | kernel/mm/kmalloc.c:70-92 | the block given back is joined with its free buddy as long as there is one, and put on the list of its final order |
| `Kmalloc.Pool.JoinBuddy` | kernel/mm/kmalloc.c:71-90 | the buddy is taken off its list if it is there, and the joined block starts at the lower address |
| `Kmalloc.BuddyAtFits` | kernel/mm/kmalloc.c:72-73 | the address the code computes lies beside the block on the one side or the other, and is the sibling's for a block of the pool |
| `Kmalloc.PlacedSound` | kernel/mm/kmalloc.c:87-91 | putting a block whose buddy is not free on its list makes a sound pool again |
| `Kmalloc.GenuineFree` | kernel/mm/kmalloc.c:70-92 | freeing a granted block leaves lists of a sound pool without it |
| `Kmalloc.ForgedUnsound` | kernel/mm/kmalloc.c:128-143 | freeing any other address of the pool leaves lists that no sound pool has |
| `Kmalloc.Pool.Forge` | kernel/mm/kmalloc.c:128-143 | from an empty pool, one grant, one store into it and one free ruin the lists |
| `Kmalloc.Pool.FindAddr` | kernel/mm/kmalloc.c:74-86 | walking a free list finds the first place of an address |
| `Kmalloc.Pool.Kmalloc` | kernel/mm/kmalloc.c:106-126 | for a size whose sum with the header does not wrap: a block of the least order from sixteen bytes up, and up to 2^22, that holds the size and eight bytes more, if and only if there is one and an aligned region of that order is wholly free; the address is eight past its start and the whole request lies inside; nothing for size zero; a size that wraps is served as sixteen bytes |
| `Kmalloc.Pool.Kfree` | kernel/mm/kmalloc.c:128-143 | releases exactly the block the address was granted with; an address whose word is no header changes nothing; any other one that is accepted leaves the lists of no sound pool; afterwards a second free of the same address would be ignored, and no other header has changed |
| `Kmalloc.Pool.OutInside` | kernel/mm/kmalloc.c:106-143 | every outstanding block starts inside the pool and has a valid order |
| `Kmalloc.Pool.Restored` | kernel/mm/kmalloc.c:96-104 | with nothing outstanding the lists hold the whole pool and nothing else |
| `Kmalloc.Pool.FreeAll` | kernel/mm/kmalloc.c:128-143 | freeing every outstanding block, in any order, restores the initial pool |
| `BlockCache.SlotView` | kernel/fs/block.c:29-51 | a valid slot is what readers of its block see, and its count is the block's open count |
| `BlockCache.WrittenBack` | kernel/fs/block.c:38-40 | writing a slot back to the store is invisible to readers |
| `BlockCache.Loaded` | kernel/fs/block.c:41-46 | loading a block into an unpinned, written-back slot is invisible to readers |
| `BlockCache.AllPinned` | kernel/fs/block.c:36-49 | if every slot is pinned then as many blocks as slots are open |
| `BlockCache.Cache.constructor` | kernel/fs/block.c:29-51 | an empty cache presents the disk |
| `BlockCache.Cache.Open` | kernel/fs/block.c:29-51 | with fewer than eight blocks open it always finds a slot, returns the current contents, and changes nobody's contents or handle |
| `BlockCache.Cache.Search` | kernel/fs/block.c:30-35 | finds the one slot that buffers a block |
| `BlockCache.Cache.FirstUnpinned` | kernel/fs/block.c:36-37 | finds the first slot nobody holds |
| `BlockCache.Cache.Replace` | kernel/fs/block.c:38-46 | replacing an unpinned slot keeps every block's contents and every handle |
| `BlockCache.Cache.Close` | kernel/fs/block.c:53-56 | drops one open count and changes no contents |
| `BlockCache.Cache.Update` | kernel/fs/block.c:58-62 | storing through an open slot changes that block and nothing else |
| `BlockCache.Cache.Flush` | kernel/fs/block.c:110-121 | afterwards the store equals what readers see |
| `BlockCache.Cache.HandleView` | kernel/fs/block.c:29-51 | a held slot shows its block's contents and cannot be replaced |
| `BlockCache.Cache.OpenThenClose` | kernel/fs/block.c:29-56 | open followed by close restores the open counts |
| `FsModel.RefOf` | kernel/fs/inode.c:133-179 | where the index keeps the n-th block of a file; always a data place within the index |
| `FsModel.RefOfLayout` | kernel/fs/inode.c:133-179 | blocks 0 to 9 are in the inode, the next 1024 in the indirect block, all others at (i, j) of the double index with number 1034 + 1024 i + j |
| `FsModel.DiskLayout` | include/os/fs.h:120-132 | map, inode map, inode table and data blocks of 4096 bytes follow each other without gap and fill 512 MiB, and every data block has a bit in the map |
| `FsModel.PathLength` | kernel/fs/inode.c:130-205 | a block of a file costs one, two or three blocks, by its number |
| `FsModel.RefOfInjective` | kernel/fs/inode.c:130-205 | different blocks of a file are kept at different places |
| `FsModel.OffsetsInRange` | kernel/fs/inode.c:165-167 | every 32-bit offset is within the double index, so its range assertion cannot fail |
| `FsModel.NoSharing` | kernel/fs/inode.c:130-254 | no two places, in one inode or in two, hold the same block, and every held block is marked |
| `FsModel.MarkAllocates` | kernel/fs/block.c:65-85 | setting a clear bit takes exactly that block |
| `FsModel.ClearUnmarks` | kernel/fs/block.c:95-108 | clearing a bit frees exactly that block |
| `FsModel.StoredOwned` | kernel/fs/inode.c:130-205 | taking a free block and storing it at an empty place keeps every block owned once |
| `FsModel.StoredBytes` | kernel/fs/inode.c:130-205 | a zeroed block that fills a hole changes no byte of any file |
| `FsModel.PutKeepsFiles` | kernel/fs/inode.c:133-173 | filling an empty place of the inode changes no file |
| `FsModel.SetEntryKeepsFiles` | kernel/fs/inode.c:151-199 | filling an empty index entry changes no file |
| `FsModel.WriteBytes` | kernel/fs/inode.c:314-321 | overwriting one mapped block changes those positions of that file and nothing else |
| `FsModel.WroteChunk` | kernel/fs/inode.c:307-323 | one more chunk, at the 32-bit offset the write has come round to: the bytes written so far, extended by the chunk, are on disk, all else as before |
| `FsModel.Resized` | kernel/fs/inode.c:325-327 | setting the size after the chunks makes the file the written one; every other file is as it was, inside and past its end |
| `FsModel.InChunk` | kernel/fs/inode.c:308-322 | a chunk covers exactly the positions of its block that the write had not yet come to, also after the offset went round |
| `FsModel.OverlayIff` | kernel/fs/inode.c:300-332 | a write means overlaying the byte array with gaps zero, if and only if it stays below 2^32 and what it leaps over holds zeros |
| `FsModel.TailIff` | kernel/fs/inode.c:300-332 | a write keeps zeros past the end of the file if and only if it stays below 2^32, or the bytes it put past the old end before going round are zero |
| `FsModel.ReadBackIff` | kernel/fs/inode.c:256-332 | what was written is read back if and only if the write stayed below 2^32 |
| `FsModel.WriteGoesRound` | kernel/fs/inode.c:300-332 | a write after which the file is one byte, and not the first one written |
| `FsModel.ReadAfterWrite` | kernel/fs/inode.c:256-332 | reading back a written range returns what was written |
| `FsModel.ReadElsewhere` | kernel/fs/inode.c:256-332 | reading before the written range returns the old bytes, and zero in the gap |
| `FsModel.ReadSpecMeans` | kernel/fs/inode.c:256-298 | a read is due as many bytes as were asked for and are there from the offset on, and none if offset and length pass 2^32 |
| `FsModel.DeleteStep` | kernel/fs/inode.c:207-254 | freeing one block of the inode leaves the rest of the deletion as it was |
| `FsModel.DeleteDone` | kernel/fs/inode.c:207-254 | once the inode's blocks are gone the others are owned, and read, exactly as before |
| `FsModel.DeleteLeaves` | kernel/fs/inode.c:207-254 | what remains owned is exactly the other inodes' blocks, and the count fell by the inode's share |
| `FileSystem.ChunkSize` | kernel/fs/inode.c:285-285 | a chunk is non-empty, fits its block and does not exceed the request |
| `FileSystem.SumWraps` | kernel/fs/inode.c:260-260 | the comparison in the code detects exactly the 32-bit overflow |
| `FileSystem.Fs.constructor` | kernel/fs/fs.cpp:13-36 | a cleared bitmap and no inodes satisfy the invariant |
| `FileSystem.Fs.BlockAlloc` | kernel/fs/block.c:65-85 | takes a clear bit, or reports that every bit is set |
| `FileSystem.Fs.ScanMapBlock` | kernel/fs/block.c:67-82 | the same for one map block |
| `FileSystem.Fs.FirstClear` | kernel/fs/block.c:68-81 | finds the first clear bit below the limit |
| `FileSystem.Fs.BlockMemset` | kernel/fs/block.c:58-62 | fills one block |
| `FileSystem.Fs.BlockAllocSet` | kernel/fs/block.c:87-93 | takes a free block and fills it |
| `FileSystem.Fs.BlockFree` | kernel/fs/block.c:95-108 | clears the bit of a marked block; the used count follows |
| `FileSystem.Fs.FillInode` | kernel/fs/inode.c:133-173 | a place in the inode holds a block afterwards, taking one exactly if it held none, unless the disk is full; no file's bytes change |
| `FileSystem.Fs.FillEntry` | kernel/fs/inode.c:151-199 | an index entry holds a block afterwards, taking one exactly if it held none, unless the disk is full; no file's bytes change |
| `FileSystem.Fs.MapBlock` | kernel/fs/inode.c:130-205 | the block of a file position, taking exactly the blocks its path lacks, or running out of them; at most three blocks are open at once, ownership and all files are kept |
| `FileSystem.Fs.MapIndirect` | kernel/fs/inode.c:145-163 | the same below the indirect block |
| `FileSystem.Fs.FillIn` | kernel/fs/inode.c:151-163 | an entry of an index block holds a data block afterwards, taking one exactly if it held none, unless the disk is full |
| `FileSystem.Fs.MapDouble` | kernel/fs/inode.c:165-205 | the same below the double-indirect block |
| `FileSystem.Fs.MapMiddle` | kernel/fs/inode.c:181-204 | the same below an open root block of the double index |
| `FileSystem.Fs.Read` | kernel/fs/inode.c:256-298 | returns the slice clipped to the file, never past its size, shorter only if the disk is full, and whole without taking a block if it lies in one mapped block; nothing on 32-bit overflow; no file changes |
| `FileSystem.Fs.ReadLoop` | kernel/fs/inode.c:275-294 | the bytes copied so far are the file's |
| `FileSystem.Fs.ReadChunk` | kernel/fs/inode.c:276-291 | one chunk is the file's bytes at its positions |
| `FileSystem.Fs.Write` | kernel/fs/inode.c:300-332 | for every 32-bit offset and length the bytes that fitted are at their positions, the offset going round, and the size is the offset reached if that is past the old end; fewer than all fit only if the disk is full; a write inside one block is all or nothing, and nothing exactly if its path lacks more blocks than are free; other files unchanged |
| `FileSystem.Fs.WriteLoop` | kernel/fs/inode.c:307-323 | the bytes written so far are on disk and no other byte changed; inside one block exactly the missing blocks were taken or they ran out |
| `FileSystem.Fs.WriteChunk` | kernel/fs/inode.c:308-322 | one chunk lands in its block |
| `FileSystem.Fs.GrowTo` | kernel/fs/inode.c:325-327 | the new size makes the file the written one |
| `FileSystem.Fs.FreeAt` | kernel/fs/inode.c:211-214 | the block freed is still marked, so the double-free assertion cannot fail |
| `FileSystem.Fs.FreeDirects` | kernel/fs/inode.c:210-215 | passes the direct blocks |
| `FileSystem.Fs.FreeEntries` | kernel/fs/inode.c:218-225 | passes every entry of one index block |
| `FileSystem.Fs.FreeIndirect` | kernel/fs/inode.c:217-228 | passes the indirect block and its entries |
| `FileSystem.Fs.FreeDouble` | kernel/fs/inode.c:230-249 | passes the double-indirect tree |
| `FileSystem.Fs.FreeMiddle` | kernel/fs/inode.c:233-245 | passes one second-level block and its entries |
| `FileSystem.Fs.Delete` | kernel/fs/inode.c:207-254 | unmarks exactly the blocks the inode owned, once each; the used count falls by their number; every other file is unchanged |
| `FileSystem.Fs.Create` | kernel/fs/inode.c:25-36 | a new inode is an empty file |
| `FileSystem.Fs.Apply` | kernel/fs/inode.c:207-332 | one operation has its meaning on files; only a full disk cuts it short |
| `FileSystem.Fs.Run` | kernel/fs/inode.c:207-332 | any run of operations, from any valid state, follows the meaning of each; an operation is cut short only if every block is in use after it |
| `FileSystem.StepIsArray` | kernel/fs/inode.c:207-332 | on files with zeros past their ends, an operation that stays below 2^32 is one on plain byte arrays, and leaves such files |
| `FileSystem.RunIsArrays` | kernel/fs/inode.c:207-332 | any run whose writes stay below 2^32 is a run on plain byte arrays |
| `FileSystem.Fs.FullIsAllUsed` | kernel/fs/block.c:65-85 | a disk with every bit set has as many used blocks as blocks |
| `FsModel.PathThen` | kernel/fs/inode.c:130-205 | filling a place and then the rest of the path takes exactly what the whole path lacked |
| `FsModel.FullPath` | kernel/fs/inode.c:130-205 | a path with nothing missing is found without taking a block |
| `FsModel.GrewMissing` | kernel/fs/inode.c:130-205 | work on one inode leaves what other inodes lack as it was |
| `FsModel.MappedBound` | kernel/fs/inode.c:130-205 | a file whose first n blocks are there owns at least n blocks |
| `FsModel.AllMarkedCount` | kernel/fs/block.c:65-108 | with every bit set, every data block has exactly one owner |
| `Names.Compare` | libs/string.c:45-51 | comparison over 28 bytes is zero exactly for names with the same meaning |
| `Names.CopyName` | libs/string.c:66-79 | a name copied into its 28-byte field is cut at its end and filled up with NULs |
| `Names.KeyMeans` | libs/string.c:45-51 | a name means its bytes up to the first NUL, and no more than 28 |
| `Names.Padded` | libs/string.c:66-79 | the field has 28 bytes and means what the name means |
| `Dcache.ChainPush` | kernel/fs/dcache.c:86-115 | a new entry in front answers its own name and no other |
| `Dcache.ChainDrop` | kernel/fs/dcache.c:117-137 | dropping an entry forgets its name and no other |
| `Dcache.StrippedKeeps` | kernel/fs/dcache.c:139-159 | stripping a directory forgets its names and no other |
| `Dcache.PutOver` | kernel/fs/dcache.c:94-102 | overwriting an entry changes the answer for its name only |
| `Dcache.PutNew` | kernel/fs/dcache.c:103-113 | adding an entry changes the answer for its name only |
| `Dcache.Cache.constructor` | kernel/fs/dcache.c:41-53 | the cache starts on and empty |
| `Dcache.Cache.Hash` | kernel/fs/dcache.c:21-31 | the bucket depends only on the directory and the meaning of the name |
| `Dcache.Cache.Search` | kernel/fs/dcache.c:65-84 | finds the first entry of a chain for a directory and name |
| `Dcache.Cache.Get` | kernel/fs/dcache.c:65-84 | answers what was last recorded for the name, or nothing |
| `Dcache.Cache.Put` | kernel/fs/dcache.c:86-115 | changes the answer for the given name only; dropped when off, unused or out of memory |
| `Dcache.Cache.Remove` | kernel/fs/dcache.c:117-137 | forgets the given name only |
| `Dcache.Cache.Invalidate` | kernel/fs/dcache.c:139-159 | forgets exactly the names of one directory |
| `Dcache.Cache.Reset` | kernel/fs/dcache.c:55-63 | forgets everything |
| `Dcache.Cache.SetEnabled` | kernel/fs/dcache.c:161-178 | a change of the switch empties the cache, so a disabled cache is empty |
| `DirStore.DecodeEncode` | include/os/fs.h:43-47 | the 32 bytes of an entry decode to it |
| `DirStore.EncodeDecode` | include/os/fs.h:43-47 | any 32 bytes are those of the entry they decode to |
| `DirStore.EncodeLayout` | include/os/fs.h:43-47 | 28 bytes of name, then the inode number, low byte first |
| `DirStore.SlotInBlock` | kernel/fs/dir.c:52-67 | an entry never straddles a block; 128 share one |
| `DirStore.ImageRead` | kernel/fs/dir.c:24-28 | the record at a slot's offset is that of its entry |
| `DirStore.ImageWrite` | kernel/fs/dir.c:63-69 | writing a record at a slot's offset changes that entry and no other |
| `DirStore.StoredBound` | kernel/fs/dir.c:52-67 | a directory that fits the disk stays within 32-bit offsets with one entry more |
| `DirStore.SlotWritten` | kernel/fs/dir.c:68-72 | written whole or not at all, every directory is still stored |
| `DirStore.Store.ReadSlot` | kernel/fs/dir.c:24-27 | reads the entry; it is never cut short, so the short-read assertion cannot fail, and no block is taken |
| `DirStore.Store.WriteRecord` | kernel/fs/dir.c:68-72 | all of the record or none of it, and none exactly if its path lacks more blocks than are free |
| `DirStore.Store.WriteSlot` | kernel/fs/dir.c:68-72 | over an existing entry it cannot fail; a new last one fails exactly if it needs more blocks than are free; no other directory and no other file changes |
| `DirStore.Store.Install` | kernel/fs/inode.c:26-33 | a free number becomes an empty file or directory; every other directory stays stored and typed as it was |
| `DirStore.Store.InodeAlloc` | kernel/fs/inode.c:19-41 | takes the least number whose type on disk is free, with an empty file; fails exactly when there is none |
| `DirStore.Store.InodeDelete` | kernel/fs/inode.c:207-254 | the inode's blocks are free again, every other file and directory is untouched, and its number stays used |
| `DirStore.Store.WriteFile` | kernel/fs/inode.c:300-332 | writing a file that is no directory changes that file, as a write does, and no directory |
| `DirModel.LinkedMap` | kernel/fs/dir.c:40-75 | writing a fresh name into an unused or new slot adds exactly that name |
| `DirModel.ErasedMap` | kernel/fs/dir.c:78-114 | clearing a name's slot removes exactly that name |
| `DirModel.EmptyIff` | kernel/fs/dir.c:116-127 | no used slot past the first two if and only if only the two dot names exist |
| `DirModel.NeedIs` | kernel/fs/dir.c:52-68 | one more name takes the blocks its slot still lacks; a reused slot lacks none |
| `DirModel.OfferedCoherent` | kernel/fs/dir.c:29-29 | whatever entry the cache takes up from its slot, it still tells the truth |
| `DirModel.LinkedCoherent` | kernel/fs/dir.c:52-73 | filling an unused slot contradicts nothing the cache knows |
| `DirModel.ErasedCoherent` | kernel/fs/dir.c:102-110 | after clearing a slot and forgetting the name the cache still tells the truth |
| `DirModel.AllocCoherent` | kernel/fs/inode.c:19-41 | the cache knows nothing about a number never used, so a new directory may take it |
| `DirTree.NumbersStay` | kernel/fs/inode.c:207-254 | over every run a number used once stays used, with the same type |
| `DirTree.DeletedStays` | kernel/fs/inode.c:207-254 | over every run what is deleted stays deleted |
| `DirTree.BytesStay` | kernel/fs/dir.c:12-317 | over every run, whatever happens to names, directories and other files, a file that is not written and still exists holds the bytes it held |
| `DirTree.NotInItself` | kernel/fs/dir.c:129-150 | no directory is named in itself, so its lock is never taken twice by a removal |
| `DirTree.OnlyWay` | kernel/fs/dir.c:129-179 | nothing but its own name and its own dot leads to an empty directory |
| `DirTree.TreeMade` | kernel/fs/dir.c:262-310 | a new directory under a new name keeps the tree |
| `DirTree.TreeLinked` | kernel/fs/fs.cpp:380-404 | a second name for something that is no directory keeps the tree |
| `DirTree.TreeUnlinked` | kernel/fs/dir.c:78-114 | taking away a name that leads to no directory keeps the tree |
| `DirTree.TreeRemoved` | kernel/fs/dir.c:129-179 | taking away an empty directory with its name keeps the tree: no name is left that leads to it |
| `DirTree.TreeSpent` | kernel/fs/dir.c:312-316 | a creation that failed leaves the tree, one number poorer |
| `DirTree.StepKeepsTree` | kernel/fs/dir.c:12-317 | every operation keeps: each directory but the root is named once, in its parent, which its two dots name; dots lead to the root; every name leads to a number in use; a directory counts one link more than it has subdirectories, the root two more |
| `DirTree.EmptyHasOneLink` | kernel/fs/dir.c:171-176 | an empty directory counts one link, so that its removal deletes it |
| `DirTree.MkdirLinks` | kernel/fs/dir.c:291-306 | a new directory and its parent count their links again |
| `DirTree.RmdirLinks` | kernel/fs/dir.c:171-175 | the parent of a removed directory counts its links again |
| `DirTree.UnlinkDanglesIff` | kernel/fs/dir.c:100-112 | if all names led to existing inodes, they still do after a removal if and only if the file was not deleted or no other name leads to it |
| `DirTree.LnThenRm` | kernel/fs/fs.cpp:380-404 | a second name for any file, then the removal of the first: the second leads to nothing |
| `DirTree.StepKeepsClean` | kernel/fs/dir.c:12-317 | every operation but a second name keeps: all names lead to existing inodes, each file has one name and counts it |
| `DirTree.NeverDangling` | kernel/fs/dir.c:12-317 | in every run without second names no operation meets a deleted inode |
| `DirTree.SelfLockedIff` | kernel/fs/dir.c:269-272 | a creation waits for its own lock if and only if it is for ".", or for ".." in the root |
| `DirTree.MkdirDot` | kernel/fs/dir.c:269-272 | mkdir of "." on a new file system never returns |
| `DirTree.CreateDoes` | kernel/fs/dir.c:284-316 | a creation that succeeds gives the least free number a name that was not there; a new directory has its two dots alone; every other name, type and existing inode stays; one link is counted |
| `DirTree.CreateRefuses` | kernel/fs/dir.c:262-317 | one that does not changes no name and no existing inode, and which refusal it is follows from what the name leads to; it halts if and only if the name is new and no number is free |
| `DirTree.UnlinkDoes` | kernel/fs/dir.c:78-114 | a removal succeeds if and only if the name is not a dot and leads to an existing file; exactly that name goes, and the file if and only if it counted one link and is not open |
| `DirTree.RmdirDoes` | kernel/fs/dir.c:129-179 | the removal of a directory succeeds if and only if the name is not a dot and leads to a directory that holds its two dots alone; exactly the two go, and one link of the parent |
| `DirTree.LnDoes` | kernel/fs/fs.cpp:380-404 | a second name is added if and only if the inode exists and is no directory, the name is new and there is room; no link is counted |
| `DirTree.LessIs` | kernel/fs/inode.c:63-77 | a 16-bit link count becomes zero if and only if it was one |
| `DirTree.CreateThenUnlink` | kernel/fs/dir.c:78-317 | creating a file and removing its name brings back all names and existing inodes |
| `DirTree.MkdirThenRmdir` | kernel/fs/dir.c:129-317 | making a directory and removing it brings back all names, existing inodes and the parent's link count |
| `DirTree.CreateMeans` | kernel/fs/dir.c:284-316 | what placing, undoing and counting leave in slots and counts is what creation means for the tree |
| `Directory.Directories.constructor` | kernel/fs/fs.cpp:62-70 | on a cleared disk the root is made, with both dots itself and its links counted; neither assertion can fail |
| `Directory.Directories.Offer` | kernel/fs/dir.c:29-29 | offering a slot to the cache keeps it truthful |
| `Directory.Directories.Lookup` | kernel/fs/dir.c:12-37 | found if and only if the map has the name; inode and offset are those of its slot, from the cache or from the scan of the stored entries; no block is taken |
| `Directory.Directories.FirstUnused` | kernel/fs/dir.c:52-61 | finds the first unused slot or the end |
| `Directory.Directories.Link` | kernel/fs/dir.c:40-75 | refuses an existing name; fails, without effect on the directories, exactly if the entry needs more blocks than are free; otherwise the name is in the first reusable slot and exactly those blocks were taken |
| `Directory.Directories.Erase` | kernel/fs/dir.c:102-110 | clears the slot the lookup found and removes exactly that name; the write cannot fail |
| `Directory.Directories.Ln` | kernel/fs/fs.cpp:380-404 | a second name, refused for a directory, an existing name or want of room; no link is counted and no file's bytes change |
| `Directory.Directories.Unlink` | kernel/fs/dir.c:78-114 | removes exactly that name and one counted link, deletes the file if that was the last and it is not open, with every refusal of the code but the failed write, which cannot happen |
| `Directory.Directories.EraseFile` | kernel/fs/dir.c:100-112 | the name goes and the file loses one link |
| `Directory.Directories.DropLink` | kernel/fs/inode.c:63-77 | one link less, in 16 bits; deleted exactly if none is left and nobody has it open |
| `Directory.Directories.IsDots` | kernel/fs/dir.c:83-86 | recognises the two dot names by meaning |
| `Directory.Directories.IsEmpty` | kernel/fs/dir.c:116-127 | true if and only if only the two dot names exist |
| `Directory.Directories.UnusedFrom` | kernel/fs/dir.c:118-126 | true if and only if every slot from there on is unused |
| `Directory.Directories.Rmdir` | kernel/fs/dir.c:129-179 | removes an empty directory and its name and one link of the parent, with every refusal of the code but the failed write, which cannot happen |
| `Directory.Directories.RemoveEmpty` | kernel/fs/dir.c:160-176 | exactly the name, the directory and their two links go |
| `Directory.Directories.Discard` | kernel/fs/dir.c:168-176 | the directory and all cached knowledge of it go |
| `Directory.Directories.Fill` | kernel/fs/dir.c:293-298 | a new directory gets exactly the two dot names, and fails to exactly if no block is free |
| `Directory.Directories.LinkDotDot` | kernel/fs/dir.c:295-295 | the second dot name fits into the block of the first |
| `Directory.Directories.Attach` | kernel/fs/dir.c:293-302 | succeeds if and only if the blocks for the dots and for the name in the parent are free |
| `Directory.Directories.Place` | kernel/fs/dir.c:293-316 | a new inode is attached, or deleted again with every other directory as before |
| `Directory.Directories.Settle` | kernel/fs/dir.c:284-316 | halts exactly if no number is free, else fails exactly if the blocks needed are not free; the slots and link counts afterwards are those of a creation or, but for the number, the old ones |
| `Directory.Directories.CreateNew` | kernel/fs/dir.c:282-316 | creates, fails for want of blocks with the directories as before, or halts with all numbers used up |
| `Directory.Directories.Create` | kernel/fs/dir.c:262-317 | the same, or finds the inode that has the name, refusing one of the other type; waits for itself if that is the directory it holds locked |
| `Directory.Directories.Reap` | kernel/fs/inode.c:63-77 | a file without links is deleted when the last process closes it; no directory and no other file changes |
| `Directory.Directories.WriteFile` | kernel/fs/inode.c:300-332 | the bytes that fitted are in the file as a write puts them, all of them unless every block is in use; nothing else changes, and nothing at all for a directory or a number that does not exist |
| `Directory.Directories.Toggle` | kernel/fs/dcache.c:161-178 | switching the cache changes no directory |
| `Directory.Directories.Apply` | kernel/fs/dir.c:12-317 | one operation has its meaning on names; only a write changes what a file that stays holds, and a new file is empty |
| `Directory.Directories.Run` | kernel/fs/dir.c:12-317 | any run, the cache switched at will and files written and deleted in between, has the answers and effects of the names alone, keeps the tree and the link counts, and changes files by the writes alone; want of room is reported only with at most three free blocks; it ends early only at a creation that locks itself or finds no number, or a name that leads to a deleted inode |
| `PagingModel.NothingShared` | kernel/mm/mm.c:108-133 | no frame and no swap slot backs two pages, and no frame is both page and table |
| `PagingModel.EvictKeeps` | kernel/mm/swap.c:50-65 | moving a page to swap changes no user byte and keeps all books consistent |
| `PagingModel.TableFramesEvict` | kernel/mm/swap.c:50-65 | evicting a page leaves the group's page tables as they were |
| `PagingModel.BindOldKeeps` | kernel/mm/swap.c:101-123 | bringing a page back changes no user byte and frees its slot |
| `PagingModel.BindNewKeeps` | kernel/mm/mm.c:120-131 | a first mapping adds that page and changes no other |
| `PagingModel.AddTableKeeps` | kernel/mm/mm.c:64-89 | a new page table changes no user byte |
| `PagingModel.PokeKeeps` | kernel/mm/mm.c:140-154 | a store into a resident page changes that page only |
| `Paging.Memory.AllocSwap` | kernel/mm/swap.c:19-30 | finds a free slot whenever one is left |
| `Paging.Memory.SwapOut` | kernel/mm/swap.c:50-65 | succeeds if and only if swap is left and the group has a user page; no user byte changes |
| `Paging.Memory.EvictTo` | kernel/mm/swap.c:55-65 | page to slot, entry to slot, frame freed; all books agree |
| `Paging.Memory.Shrink` | kernel/mm/pagegroup.cpp:106-113 | makes room within the quota by evicting exactly as many pages as are too many, without changing a user byte; fails if and only if evicting all it may would not make enough, or swap runs out first |
| `Paging.Memory.FindFrame` | kernel/mm/pageframe.c:17-50 | the next-fit search fails if and only if the only free frame is the last one and the cursor is past it, or none is free |
| `Paging.LostProbe` | kernel/mm/pageframe.c:17-50 | a state where a frame is free and the search fails |
| `Paging.Memory.AllocFrame` | kernel/mm/pageframe.c:17-50 | a free frame and room in the quota, with no page evicted that need not be; fails if and only if room cannot be made or the search misses |
| `Paging.Memory.EnsureTable` | kernel/mm/mm.c:72-87 | the table at a path exists afterwards, or memory is stuck; no other table is made, none is lost or moved, and no user byte changes |
| `Paging.Memory.NewTable` | kernel/mm/mm.c:29-34 | a free frame becomes the table at a path below its parent; nothing else changes |
| `Paging.Memory.FindWay` | kernel/mm/mm.c:64-89 | the two tables on the way to a page exist afterwards, the second below the first, or memory is stuck; no other table is made and no user byte changes |
| `PagingModel.TopCovers` | kernel/mm/mm.c:64-89 | the first-level table of a page is that of its gigabyte of addresses |
| `PagingModel.MidCovers` | kernel/mm/mm.c:64-89 | the second-level table is below the first and that of its two megabytes |
| `PagingModel.ThreeFrames` | kernel/mm/mm.c:108-133 | a resident page costs its group three different frames: its own and those of its two tables |
| `Paging.Memory.AllocPage` | kernel/mm/mm.c:108-133 | the page is resident afterwards, below its two tables, or memory is stuck; every mapped page keeps its bytes and no other page becomes mapped; of all tables only its own two may be new, and none is lost or moved |
| `Paging.Memory.MakeResident` | kernel/mm/mm.c:108-133 | the last step: an existing page is kept or brought back, a new one is mapped |
| `Paging.Memory.SwapIn` | kernel/mm/swap.c:101-123 | the page is resident with the bytes it had |
| `Paging.Memory.BindFresh` | kernel/mm/mm.c:120-131 | the page is mapped for the first time |
| `Paging.Memory.Store` | kernel/mm/mm.c:140-154 | changes exactly one page |
| `UserCopy.ChunkHit` | kernel/mm/mm.c:140-154 | the addresses of a chunk are exactly those that far past the start, around the 39-bit space |
| `UserCopy.KeyCovers` | kernel/mm/mm.c:135-138 | an address lies in the page of its number over 4096 |
| `UserCopy.PastMeans` | kernel/mm/mm.c:140-170 | how far an address lies past another, around 2^39 |
| `UserCopy.CopiedMore` | kernel/mm/mm.c:140-154 | one more chunk extends the copy and disturbs nothing else |
| `UserCopy.CopyToUser` | kernel/mm/mm.c:140-154 | the user sees exactly the source bytes there and every other byte unchanged, whatever is evicted on the way; it stops short only where memory is stuck, with the part before copied |
| `UserCopy.StoreChunk` | kernel/mm/mm.c:141-152 | one page made resident and written |
| `UserCopy.CopyFromUser` | kernel/mm/mm.c:156-170 | returns the bytes the user sees; no mapped page changes; it stops short only where memory is stuck |
| `UserCopy.LoadChunk` | kernel/mm/mm.c:157-168 | one page made resident and read |
| `UserCopy.RoundTrip` | kernel/mm/mm.c:140-170 | copy in then copy out returns the same bytes, for every size and alignment |
| `UserCopy.RemembersMore` | kernel/mm/mm.c:108-170 | one more operation keeps memory what the copies made it |
| `UserCopy.FetchedIsLatest` | kernel/mm/mm.c:156-170 | the bytes copied out are the ones last copied in |
| `UserCopy.Apply` | kernel/mm/mm.c:108-170 | one operation writes what it copies and nothing else; a page fault leaves its page resident, and a squeeze the room it was for |
| `UserCopy.Run` | kernel/mm/mm.c:108-170 | over any run of page faults, evictions and copies in several spaces, each byte, in memory and copied out, is the one last copied there, or what it was |
| `PageTable.TreeStays` | kernel/mm/mm.c:37-62 | changing other frames changes neither a tree nor any walk through it |
| `PageTable.SharedNext` | kernel/mm/mm.c:41-61 | sharing one more entry disturbs none shared before |
| `PageTable.SharedWalk` | kernel/mm/mm.c:37-62 | when all entries are shared every path translates as it should |
| `PageTable.TableShared` | kernel/mm/mm.c:54-59 | a new table with all of the source table's mappings translates as the source table does |
| `PageTable.Tables.AddPage` | kernel/mm/mm.c:29-34 | links a new, cleared table |
| `PageTable.Tables.SharePgtable` | kernel/mm/mm.c:37-62 | every path translates to the leaf the source has for it, at any level, or as before where the source has none; no other table changes |
| `PageTable.Tables.ShareSpace` | kernel/sched/task.c:124-125 | every virtual address translates through its three indices as in the source, or as before where that has none; the source's translations stay |
| `PageTable.SamePath` | kernel/mm/mm.c:178-202 | two pages with the same three indices are the same page |
| `PageTable.PathOfRebuilt` | kernel/mm/mm.c:178-202 | every three indices are those of the address built from them |
| `PageTable.Tables.ShareEntry` | kernel/mm/mm.c:41-61 | one entry: a leaf is copied, a table is copied below |
| `PageTable.Tables.ShareTable` | kernel/mm/mm.c:54-59 | the new table translates as the source's table |
| `Sv39.RebuildVa` | kernel/mm/mm.c:178-202 | rebuilding an aligned 39-bit address from its indices gives it back |
| `Sv39.VpnOfRebuilt` | kernel/mm/mm.c:178-202 | the indices of a rebuilt address are those it was built from |
| `Sv39.KernelAddressesInverse` | arch/riscv/include/pgtable.h:111-123 | the two translations between kernel and physical addresses are inverse on their ranges |
| `Sv39.KernelOffset` | arch/riscv/include/pgtable.h:111-123 | kernel addresses of physical memory lie at one fixed distance from it |
| `Sv39.PfnRoundTrip` | arch/riscv/include/pgtable.h:133-142 | a frame number set is read back, and the attributes stay |
| `Sv39.SetKeepsPfn` | arch/riscv/include/pgtable.h:151-156 | setting attributes keeps the frame number |
| `Sv39.ClearKeepsPfn` | arch/riscv/include/pgtable.h:158-161 | clearing attributes keeps the frame number |
| `Evict.ChoiceUnique` | kernel/mm/pf_evict.cpp:95-117 | the page second chance must choose is unique |
| `Evict.SecondChanceStop` | kernel/mm/pf_evict.cpp:95-117 | where the loop stops is the required choice, and the list is as required |
| `Evict.Group.MoveToFront` | kernel/mm/pf_evict.cpp:48-54 | the page comes first, the others keep their order |
| `Evict.Group.FifoEvict` | kernel/mm/pf_evict.cpp:32-56 | finds a leaf if and only if there is one; it is the last leaf, and the list is turned so that it comes last |
| `Evict.Group.SecondChanceEvict` | kernel/mm/pf_evict.cpp:95-117 | stops within one turn; the victim is the last leaf with its bit clear, or the last leaf if all are set; the list is the original turned, with exactly the leaves passed over cleared |
| `Evict.Group.PassOver` | kernel/mm/pf_evict.cpp:97-116 | the loop ends, and where it ends is the required choice |
| `Evict.Group.PassTail` | kernel/mm/pf_evict.cpp:98-115 | one page passed over |
| `Evict.Group.OnTimer` | kernel/mm/pf_evict.cpp:162-178 | one tick rearranges the list as specified |
| `LruRuns.TickSorts` | kernel/mm/pf_evict.cpp:162-178 | a tick puts the touched pages first and keeps the others in their order |
| `LruRuns.KeptAre` | kernel/mm/pf_evict.cpp:162-178 | the pages a tick leaves where they are, are exactly the leaves not used since the last one |
| `LruRuns.MovedAre` | kernel/mm/pf_evict.cpp:162-178 | every other page is moved, with the time of the tick and, if a leaf, its bit cleared |
| `LruRuns.TickPermutes` | kernel/mm/pf_evict.cpp:162-178 | a tick loses no page and invents none |
| `LruRuns.TickOrdered` | kernel/mm/pf_evict.cpp:162-178 | a tick keeps leaves ordered by last use |
| `LruRuns.EvictOrdered` | kernel/mm/pf_evict.cpp:32-56 | evicting the last leaf keeps the order, and that leaf has the least stamp |
| `LruRuns.RunOrdered` | kernel/mm/pf_evict.cpp:9-178 | over every run of attach, detach, access, tick and eviction leaves stay ordered by last use |
| `LruRuns.LruVictim` | kernel/mm/pf_evict.cpp:32-56 | after every such run the page given up has the least stamp of all leaves |
| `LruRuns.LruGroup.Apply` | kernel/mm/pf_evict.cpp:9-178 | one event changes the list as specified |
| `LruRuns.LruGroup.Run` | kernel/mm/pf_evict.cpp:9-178 | any sequence of events does, and the list stays ordered |
| `PageGroups.DetachedBalanced` | kernel/mm/pf_evict.cpp:16-20 | taking a frame off its list keeps every frame on one list and every count equal to its list's length |
| `PageGroups.AttachedBalanced` | kernel/mm/pf_evict.cpp:9-14 | putting an unowned frame on a list keeps that |
| `PageGroups.SplitFacts` | kernel/mm/pagegroup.cpp:115-135 | splitting a group keeps the total of quotas in use if and only if the old group keeps a user |
| `PageGroups.LastUserLosesQuota` | kernel/mm/pagegroup.cpp:115-135 | two groups for which a split by the last user loses quota |
| `PageGroups.NeedTables` | kernel/mm/pagegroup.cpp:84-104 | a tree needs room for at least its tables |
| `PageGroups.MoveQuotaFacts` | kernel/mm/pagegroup.cpp:148-171 | moving quota to or from the kernel keeps the total |
| `PageGroups.ReturnQuota` | kernel/mm/pagegroup.cpp:173-177 | a closed group's quota returns to the kernel and the total stays |
| `PageGroups.BesideTree` | kernel/mm/pagegroup.cpp:115-146 | a fork changes nothing beside the two groups and the tree, but for leaf pages evicted from the two |
| `PageGroups.OthersStay` | kernel/mm/pagegroup.cpp:84-104 | moving some frames disturbs no tree they are not in |
| `PageGroups.Accounts.constructor` | kernel/mm/pagegroup.cpp:21-29 | all memory starts as the kernel group's quota |
| `PageGroups.Accounts.Shrink` | kernel/mm/pagegroup.cpp:106-113 | evicts exactly as many leaf pages of that group as are too many, and halts exactly when evicting them all would not make room |
| `PageGroups.Accounts.Attach` | kernel/mm/pf_evict.cpp:9-14 | the frame is on the list, and every group is within its quota; halts exactly when no room can be made |
| `PageGroups.Accounts.Detach` | kernel/mm/pf_evict.cpp:16-20 | the frame is on no list; nothing else moved |
| `PageGroups.Accounts.MoveFrame` | kernel/mm/pagegroup.cpp:85-87 | the frame changes group; only leaf pages of the new group may have gone |
| `PageGroups.Accounts.Migrate` | kernel/mm/pagegroup.cpp:84-104 | every table of the tree, and every page of it still present, ends up in the new group; no other frame changes owner; halts exactly when the new group's fixed pages and what the tree needs exceed its quota |
| `PageGroups.Accounts.MigrateKids` | kernel/mm/pagegroup.cpp:88-103 | the entries of a table, one after another |
| `PageGroups.Accounts.EvictOne` | kernel/mm/pagegroup.cpp:109-112 | one leaf page of the group goes, no other frame |
| `PageGroups.Accounts.MigrateKid` | kernel/mm/pagegroup.cpp:88-103 | one entry of a table |
| `PageGroups.Accounts.FindFreeGroup` | kernel/mm/pagegroup.cpp:74-82 | the first of the groups 1 to 63 nobody uses, or 0 exactly if all are in use |
| `PageGroups.Accounts.Fork` | kernel/mm/pagegroup.cpp:115-146 | refused without effect, or the whole tree moves to a fresh group with the given quota; the total of quotas in use is kept if and only if the old group had another user; halts at the latest when the old group cannot shrink, and only if it cannot or the new one cannot hold the tree |
| `PageGroups.Accounts.SplitOff` | kernel/mm/pagegroup.cpp:127-141 | sets up the new group and moves the tree |
| `PageGroups.Accounts.Resize` | kernel/mm/pagegroup.cpp:148-171 | succeeds if and only if the group is not the kernel's and the kernel can give what is missing; the two quotas change by the difference, no other, and exactly the pages that are too many go, all leaf pages of the group that loses quota |
| `PageGroups.Accounts.Alloc` | kernel/mm/pageframe.c:17-50 | a frame that was free, or that a leaf page of the group was evicted from, is the group's; the count grows by one up to the quota and no more is evicted than that demands; halts exactly if no room can be made or no frame is free |
| `PageGroups.Accounts.FreeFrame` | kernel/mm/pageframe.c:52-69 | the frame is on no list |
| `PageGroups.Accounts.PipeGive` | kernel/mm/pipe.c:153-161 | the frame leaves its list and is in flight |
| `PageGroups.Accounts.PipeTake` | kernel/mm/pipe.c:187-198 | the frame in flight joins the taker's list, and no other |
| `PageGroups.Accounts.NewTop` | kernel/mm/mm.c:7-12 | one frame and one user more |
| `PageGroups.Accounts.FreeTop` | kernel/mm/mm.c:204-211 | one user less; the last one gives the quota back, and the assertion fails exactly if frames are left |
| `PageGroups.Accounts.Apply` | kernel/mm/pagegroup.cpp:84-177 | one step keeps the accounts balanced and moves the frames, users and quotas its kind moves, and no others |
| `PageGroups.Accounts.Run` | kernel/mm/pagegroup.cpp:84-177 | over every run each step does what it should to the books; each frame is on one list, in flight or free; counts equal list lengths and respect quotas; the quotas in use add up to all of memory; it stops early only where a step must or may halt |
| `Pipe.NeverTwice` | kernel/mm/pipe.c:137-198 | no frame is mapped twice, and no queued frame is mapped |
| `Pipe.GivenSound` | kernel/mm/pipe.c:137-169 | a page given leaves the page table and joins the queue with its content |
| `Pipe.InstalledSound` | kernel/mm/pipe.c:187-198 | the first queued page, with its content, is what gets mapped |
| `Pipe.StoredSound` | kernel/mm/pipe.c:137-237 | a write by any process changes no queued page |
| `Pipe.SpotsCover` | kernel/mm/pipe.c:292-370 | k pages from an address on are exactly those in the next 4096 k bytes |
| `Pipe.GivenRange` | kernel/mm/pipe.c:292-328 | a giver loses exactly its pages in the range given, and nobody loses another |
| `Pipe.TakenRange` | kernel/mm/pipe.c:331-370 | a taker has at each page of its range the queued frame of that place in the queue, and every other page is as it was |
| `Pipe.PipeEntry.GivePages` | kernel/mm/pipe.c:292-328 | gives exactly the mapped pages from the start on, in order, wakes all takers, and returns the byte count or -1 |
| `Pipe.PipeEntry.Push` | kernel/mm/pipe.c:224-237 | one page joins the end of the queue; every waiter becomes ready |
| `Pipe.PipeEntry.TakePages` | kernel/mm/pipe.c:331-370 | takes the first queued pages in order, maps them one after another, waits if and only if the queue runs dry before all are there, and returns the byte count otherwise |
| `Pipe.PipeEntry.GoOn` | kernel/mm/pipe.c:349-369 | a woken taker goes on where it stopped: with what is queued, waiting again if that is not enough |
| `Pipe.PipeEntry.PopPages` | kernel/mm/pipe.c:349-364 | as many pages as wanted or queued, in order, to consecutive addresses |
| `Pipe.PipeEntry.PopTo` | kernel/mm/pipe.c:200-222 | takes the first segment and maps it, freeing what was there |
| `Pipe.PipeEntry.Open` | kernel/mm/pipe.c:240-289 | starts empty |
| `Pipe.PipeEntry.Close` | kernel/mm/pipe.c:92-103 | frees every queued frame and wakes every waiter |
| `Pipe.PipeEntry.Transfer` | kernel/mm/pipe.c:292-370 | through an empty pipe the taker gets the giver's own frames with the giver's bytes, and the giver has them no more |
| `Pipe.PipeEntry.Apply` | kernel/mm/pipe.c:137-370 | one event has the result and the new state its step relation fixes, and keeps: taken pages then queued pages are the pages given, nobody waits while a page is queued |
| `Pipe.PipeEntry.Run` | kernel/mm/pipe.c:137-370 | over every run, waits and resumptions included, each result and state follow by the step relation, and what was taken is a prefix, in order and content, of what was given |
| `Sched.ModestIsFair` | kernel/sched/sched.cpp:143-147 | with a workload that is not negative and a nice value up to ten million the 32-bit weight is the exact formula, zero with no picks and never negative |
| `Sched.NegativeWeight` | kernel/sched/sched.cpp:143-147 | with a negative divisor the 32-bit weight is the negative of the exact formula |
| `Sched.FairIff` | kernel/sched/sched.cpp:143-147 | a process is never lighter than one without picks if and only if its workload is not negative or at most -202, over all 32-bit workloads |
| `Sched.UnfairWeight` | kernel/sched/sched.cpp:143-147 | for every other workload all the picks of the window weigh less than none |
| `Sched.WindowStep` | kernel/sched/sched.cpp:203-208 | one more pick: it enters the window of 200 and the one 200 back leaves |
| `Sched.AfterPickCounts` | kernel/sched/sched.cpp:203-208 | after a pick every slice count is again the number of picks in the window |
| `Sched.RingNext` | kernel/sched/sched.cpp:203-208 | the overwritten ring slot is the pick 200 places back |
| `Sched.Scheduler.UpdateByConsumption` | kernel/sched/sched.cpp:143-156 | reports and records exactly a strict improvement in task id, then consumption |
| `Sched.Scheduler.PickByConsumption` | kernel/sched/sched.cpp:171-191 | the best eligible user process below the starting minima, earliest among equals, or none; for all task ids, workloads and nice values, as 32-bit arithmetic weighs them |
| `Sched.Scheduler.PickFirst` | kernel/sched/sched.cpp:192-194 | the first process allowed on the hart |
| `Sched.ChosenIsLeastServed` | kernel/sched/sched.cpp:143-200 | with workloads that are not negative and nice values up to ten million the process the two passes must choose is the least served one, in plain numbers |
| `Sched.SharesAre` | kernel/sched/sched.cpp:143-147 | for up to 200 picks and every workload that is not negative the 32-bit weight is picks / (workload + 1) * (10 + nice) / 10 |
| `Sched.Scheduler.Choose` | kernel/sched/sched.cpp:171-200 | the required process, or none exactly if none in the queue may run on the hart |
| `Sched.Scheduler.Charge` | kernel/sched/sched.cpp:203-208 | the pick is recorded, one count up and the one 200 picks back down |
| `Sched.Scheduler.PickProcess` | kernel/sched/sched.cpp:186-210 | picks the required process; with workloads that are not negative and nice values up to ten million that is, of the user processes allowed on the hart with a task id up to 0x7f7f7f7f, the one of least task id, then of least picks / (workload + 1) * (10 + nice) / 10, then the earliest, and if there is no such process the first one allowed there; keeps every slice count equal to its picks in the window; halts exactly if no queued process may run on the hart |
| `Sched.Scheduler.DoScheduler` | kernel/sched/sched.cpp:227-238 | a process that can go on joins the end; the required process leaves the queue, or none may run there; the scheduler stays valid |
| `SchedRuns.StepKeeps` | kernel/sched/sched.cpp:123-238 | every event keeps slice counts equal to picks in the window |
| `SchedRuns.ChosenAhead` | kernel/sched/sched.cpp:143-210 | among fair processes, whoever is picked in place of a process with count 0 and least task id stood before it |
| `SchedRuns.PickedInTime` | kernel/sched/sched.cpp:186-238 | a queued process with no pick in the window is picked within as many chances as processes before it plus one |
| `SchedRuns.RunKeeps` | kernel/sched/sched.cpp:123-238 | over every run slice counts stay equal to picks in the window |
| `SchedRuns.StarvationBound` | kernel/sched/sched.cpp:123-238 | after 200 picks without it a process has count 0, and once queued, among fair processes, it is picked within as many chances as processes before it plus one |
| `SchedRuns.UnfairStarves` | kernel/sched/sched.cpp:143-210 | beside one process with any unfair workload, a process first in the queue and with no pick in the window is passed over any number of times |
| `SchedRuns.Carry` | kernel/sched/sched.cpp:186-238 | every call on the scheduler is a step of the runs |
| `SchedRuns.Drive` | kernel/sched/sched.cpp:186-238 | any series of calls on the scheduler is a run, so the bound holds of it |
| `IntrusiveList.Node.Holding` | libs/list.c:95-99 | linked if and only if the node has a container |
| `IntrusiveList.List.constructor` | libs/list.c:88-93 | an empty ring is the empty sequence |
| `IntrusiveList.List.Append` | libs/list.c:24-35 | appends an unlinked node; a linked one changes nothing |
| `IntrusiveList.List.Prepend` | libs/list.c:8-19 | prepends an unlinked node; a linked one changes nothing |
| `IntrusiveList.List.Shift` | libs/list.c:40-51 | takes the first node off, or null exactly when empty |
| `IntrusiveList.List.Pop` | libs/list.c:56-67 | takes the last node off, or null exactly when empty |
| `IntrusiveList.List.Size` | libs/list.c:69-78 | walking the ring counts the sequence |
| `IntrusiveList.List.Delete` | libs/list.c:80-86 | removes the node from its position and unlinks it |
| `IntrusiveList.List.MoveTo` | kernel/sched/sched.cpp:302-313 | delete then append moves a node between lists; neither disturbs the other |
| `Placement.JoinPlaced` | kernel/sched/sched.cpp:274-285 | a running process that joins a list is then in one place |
| `Placement.TransferPlaced` | kernel/sched/sched.cpp:290-313 | moving a waiter to the ready queue keeps everybody in one place |
| `Placement.SwitchPlaced` | kernel/sched/sched.cpp:234-238 | starting a ready process keeps everybody in one place |
| `Placement.AlwaysRunnable` | kernel/sched/sched.cpp:186-200 | whichever hart switches, some ready process is allowed on it, so the halt for want of a process cannot happen |
| `Placement.SpawnPlaced` | kernel/sched/sched.cpp:340-355 | a new process keeps everybody in one place |
| `Placement.LeavePlaced` | kernel/sched/sched.cpp:317-333 | a process that ends with nobody waiting for it keeps everybody in one place |
| `Placement.LosePlaced` | libs/list.c:88-93 | members of a list that is set up anew are on no list the kernel still reaches, and nobody else moves |
| `Placement.OnePlace` | kernel/sched/sched.cpp:212-313 | no process is on two harts, on two lists, twice on one, or on a hart and a list; each is somewhere |
| `Placement.DueMembers` | kernel/sched/time.c:63-79 | nobody is woken early and nobody due is left asleep |
| `Placement.ReadyStays` | kernel/sched/sched.cpp:212-515 | whoever is ready is still ready, or runs, after any step of any hart |
| `Placement.Processes.constructor` | kernel/sched/task.c:176-210 | each hart runs its own kernel process |
| `Placement.Processes.DoBlock` | kernel/sched/sched.cpp:274-285 | the running process is neither blocked nor linked already, and joins the list BLOCKED |
| `Placement.Processes.UnblockFirst` | kernel/sched/sched.cpp:290-300 | the first waiter, always BLOCKED, becomes READY at the end of the ready queue |
| `Placement.Processes.UnblockList` | kernel/sched/sched.cpp:302-313 | every waiter becomes READY, in order |
| `Placement.Processes.Forget` | libs/list.c:88-93 | setting a list up anew empties it; whoever was on it is lost, in order |
| `Placement.Processes.CheckSleeping` | kernel/sched/time.c:63-79 | due sleepers follow the ready queue in order, the others stay in order |
| `Placement.Processes.DoScheduler` | kernel/sched/sched.cpp:212-255 | due sleepers, in order, and then a process that can go on join the ready queue; some allowed process is taken out of it and runs; nothing else changes: no other list, hart, status or timer |
| `Placement.Processes.Requeue` | kernel/sched/sched.cpp:227-230 | a process that can go on joins the end of the ready queue |
| `Placement.Processes.Dispatch` | kernel/sched/sched.cpp:231-255 | some ready process allowed on the hart leaves the queue and runs; nobody else's status changes |
| `Placement.Processes.DoYield` | kernel/sched/sched.cpp:212-255 | the scheduler runs, with the caller at the end of the queue |
| `Placement.Processes.Retire` | kernel/sched/sched.cpp:317-333 | those waiting for the process are ready in order, and its record is free |
| `Placement.Processes.SwitchTo` | kernel/sched/sched.cpp:227-255 | the chosen ready process runs on the hart; other lists and harts are untouched |
| `Placement.Processes.Park` | kernel/sched/sched.cpp:257-285 | the caller joins the end of its list BLOCKED, and the scheduler runs |
| `Placement.Processes.DoSleep` | kernel/sched/sched.cpp:257-271 | the caller joins the sleepers with its time set, and the scheduler runs; it is asleep afterwards if and only if the time was not zero |
| `Placement.Processes.DoWaitpid` | kernel/sched/sched.cpp:506-515 | waits, at the end of that process's list, if and only if the process lives |
| `Placement.Processes.DoExec` | kernel/sched/sched.cpp:340-355 | a process with a new number joins the end of the ready queue READY; fails, without effect, if and only if the process table is full |
| `Placement.Processes.DoExit` | kernel/sched/sched.cpp:467-475 | everybody waiting for the process is ready in order, or runs; it is gone, and no other list changes but by the scheduler |
| `Placement.Processes.Apply` | kernel/sched/sched.cpp:212-515 | any step of any hart does exactly what its kind should, to every list, hart, status and timer |
| `Placement.Processes.Run` | kernel/sched/sched.cpp:212-515 | over every run every step does what its kind should, and each process is running on one hart or on exactly one list, with list members other than ready ones BLOCKED |
| `SyncModel.QueueIsDebt` | kernel/locking/semaphore.cpp:77-120 | with a start of zero or more, the queue is as long as the count is negative, and the downs that returned are the lesser of downs and units given |
| `SyncModel.AtMostOneHolder` | kernel/locking/mutex.cpp:86-136 | a sound mutex has one holder at most, and one if anybody waits |
| `SyncModel.GivenUpOkIff` | kernel/locking/mutex.cpp:23-35 | releasing or destroying a mutex on a process's behalf keeps it sound if and only if it is free or that process's own |
| `SyncModel.SetUpOkIff` | kernel/locking/mutex.cpp:15-21 | setting a mutex up keeps it sound if and only if it is free |
| `SyncModel.StolenMutex` | kernel/locking/condition.cpp:69-77 | one takes, it is given up for another or set up anew, a third takes: two hold it |
| `SyncModel.SameKeySameLock` | kernel/locking/mutex.cpp:61-84 | once a key was asked for, asking for it again gives the same lock |
| `SyncModel.ExitedAt` | kernel/locking/mutex.cpp:37-59 | the exit frees exactly the mutexes in use that the process holds or was the last to use |
| `SyncModel.CellIs` | kernel/locking/mutex.cpp:15-136 | every call does to each mutex, its holders and its queue exactly what its kind means for that one, and records what it took from a holder |
| `SyncModel.AcquireMeans` | kernel/locking/mutex.cpp:86-105 | an acquire takes a free mutex and moves nobody, or puts the caller at the end of its queue |
| `SyncModel.UnlockMeans` | kernel/locking/mutex.cpp:117-136 | a release by the recorded holder frees the mutex and puts everybody queued on it, in order and READY, behind the ready queue, and moves nobody else; any other changes nothing |
| `SyncModel.WaitMeans` | kernel/locking/condition.cpp:69-94 | a wait puts the caller at the end of the condition's queue, frees the mutex, and makes everybody queued on that ready in order |
| `SyncModel.SignalMeans` | kernel/locking/condition.cpp:112-136 | a signal makes the first waiter ready and no other, a broadcast all in order |
| `SyncModel.UnitsMean` | kernel/locking/semaphore.cpp:77-120 | a down takes a unit and queues the caller if and only if none was left; an up gives one and makes the first in the queue ready if and only if the count was negative |
| `SyncModel.ArriveMeans` | kernel/locking/barrier.cpp:76-108 | an arrival queues the caller until as many have come as the goal; the last makes all ready in order |
| `SyncModel.FullIff` | kernel/locking/mutex.cpp:61-84 | no lock can be had for a key if and only if all sixteen are in use under other keys |
| `SyncModel.LeaversAreWoken` | kernel/locking/mutex.cpp:15-136 | whoever leaves a lock's list by a call that sets nothing up is among those it wakes |
| `SyncModel.FlushedAreWoken` | kernel/sched/sched.cpp:317-333 | whoever leaves a list because a process exits is among those its exit wakes |
| `SyncModel.CallOkIff` | kernel/locking/mutex.cpp:15-136 | every call keeps a sound mutex sound, if and only if it does not take it from another process that holds it |
| `SyncModel.CallGood` | kernel/locking/mutex.cpp:15-136 | every call keeps: unstolen mutexes sound with living holders, whoever queues due to try again, semaphore and barrier counts matching their queues, nobody queued on a lock not in use |
| `SyncModel.StepGood` | kernel/sched/sched.cpp:212-355 | so does every step of every hart, and a mutex not yet stolen is sound after it if and only if the step did not steal it |
| `SyncModel.HaltsIff` | kernel/locking/semaphore.cpp:113-117 | an up fails its assertion if and only if the start was negative and ups match downs; an arrival if and only if the goal is below one |
| `SyncModel.BarrierSharedIff` | kernel/locking/barrier.cpp:47-74 | a request leads to a barrier in use if and only if the key is 0 and some barrier is in use |
| `SyncModel.BarrierTwice` | kernel/locking/barrier.cpp:47-74 | two requests in a row for one key get one barrier if and only if the key is 0 |
| `SyncModel.SoundHalts` | kernel/locking/mutex.cpp:61-105 | with sound starting values a call halts the kernel if and only if all locks of its kind are in use under other keys, or it must queue on or release a mutex never set up |
| `SyncModel.SoundKept` | kernel/locking/semaphore.cpp:51-75 | calls with sound starting values keep those values sound |
| `SyncModel.SemaphoreOutlives` | kernel/locking/semaphore.cpp:34-75 | a semaphore in use stays in use through every call of a user process, exits included, but for its destruction |
| `SyncModel.RunGood` | kernel/locking/mutex.cpp:15-136 | every state of every run keeps all of it |
| `SyncModel.Exclusion` | kernel/locking/mutex.cpp:15-136 | at every point of every run a mutex is recorded as stolen if and only if some step so far took it from a holder, and is sound otherwise, with at most one holder |
| `SyncModel.LeaversGoOn` | kernel/sched/sched.cpp:290-313 | a step takes a process off a lock's list only to put it, READY, on the ready queue or to run it, unless it sets that lock up |
| `SyncModel.LosesOnlyBySteal` | kernel/locking/mutex.cpp:61-84 | setting a lock up loses processes only if it is a mutex that is or was taken from a holder |
| `SyncModel.NobodyLost` | kernel/locking/mutex.cpp:15-136 | in every run that takes no mutex from a holder nobody is ever lost |
| `Sync.Machine.constructor` | kernel/locking/condition.cpp:22-26 | at boot, with no lock initialised, all invariants hold |
| `Sync.Machine.FindSlot` | kernel/locking/mutex.cpp:64-80 | finds the lock in use under a key, or else the first not in use |
| `Sync.Machine.InitMutex` | kernel/locking/mutex.cpp:61-84 | a key in use gets one more user; else the first unused mutex is set up, held or not, and whoever queued on it is lost; halts exactly if none is left |
| `Sync.Machine.AcquireTurn` | kernel/locking/mutex.cpp:86-105 | takes a free mutex, initialised or not, or queues and lets another run; nobody else moves; halts exactly if it must queue on a list never set up |
| `Sync.Machine.FreeMutex` | kernel/locking/mutex.cpp:23-26 | the mutex is free and its waiters ready in order |
| `Sync.Machine.Release` | kernel/locking/mutex.cpp:117-136 | refused unless in use and the caller is the recorded holder; then free, with every waiter, in order and READY, behind the ready queue, and nobody else moved |
| `Sync.Machine.CondWait` | kernel/locking/condition.cpp:69-110 | the caller queues on the condition, the mutex is freed whoever holds it, its waiters join the ready queue READY in order, another process runs, and the caller is due to take the mutex again |
| `Sync.Machine.InitCond` | kernel/locking/condition.cpp:45-67 | as for a mutex |
| `Sync.Machine.DestroyCond` | kernel/locking/condition.cpp:138-153 | nobody uses it afterwards, and every waiter joins the ready queue READY, in order |
| `Sync.Machine.CondSignal` | kernel/locking/condition.cpp:125-136 | the first waiter joins the ready queue READY; nobody else moves |
| `Sync.Machine.CondBroadcast` | kernel/locking/condition.cpp:112-123 | every waiter joins the ready queue READY, in order; nobody else moves |
| `Sync.Machine.InitSem` | kernel/locking/semaphore.cpp:51-75 | as for a mutex, with the given count and process 0 among the users of a new one |
| `Sync.Machine.DestroySem` | kernel/locking/semaphore.cpp:122-136 | nobody uses it afterwards, its count is zero, and every waiter joins the ready queue READY, in order |
| `Sync.Machine.Down` | kernel/locking/semaphore.cpp:77-98 | returns at once if and only if a unit is left; otherwise the caller queues and another process runs |
| `Sync.Machine.Up` | kernel/locking/semaphore.cpp:100-120 | gives a unit; the first waiter, if any, joins the ready queue READY and nobody else moves; halts exactly if the count says there is one and there is none |
| `Sync.Machine.InitBar` | kernel/locking/barrier.cpp:47-74 | the first unused barrier with the given goal, whose key stays as it was; one in use only if its stored key is asked for |
| `Sync.Machine.DestroyBar` | kernel/locking/barrier.cpp:110-126 | nobody uses it afterwards, and every waiter joins the ready queue READY, in order |
| `Sync.Machine.BarrierWait` | kernel/locking/barrier.cpp:76-108 | all but the last of a round queue; the last puts them all on the ready queue READY, in order; halts exactly if as many as the goal are already there |
| `Sync.Machine.DropUsers` | kernel/locking/barrier.cpp:30-45 | the process is no user of any lock of the kind, and exactly the lists of those it was the last to use are emptied |
| `Sync.Machine.FreeHeld` | kernel/locking/mutex.cpp:38-44 | exactly the mutexes in use that the process holds are freed |
| `Sync.Machine.CleanupMutexes` | kernel/locking/mutex.cpp:37-59 | those, and then the mutexes it was the last to use, whoever holds them |
| `Sync.Machine.CleanupLocks` | kernel/sched/sched.cpp:320-323 | the same for all four kinds of lock |
| `Sync.Machine.Exit` | kernel/sched/sched.cpp:317-333 | the process is gone, its locks freed or destroyed, and everybody who waited for them or for it is, in the order of the code, ready or runs; nobody else moves |
| `Sync.ExitBooks` | kernel/sched/sched.cpp:320-323 | the four cleanups, in the order of the code, leave what the exit of a process means |
| `Sync.ListsAreFlushed` | kernel/sched/sched.cpp:320-323 | the lists they empty are exactly those the exit empties |
| `Sync.Machine.Do` | kernel/locking/mutex.cpp:15-136 | each of the sixteen calls has its meaning, and halts exactly if that does |
| `Sync.Machine.LockStep` | kernel/locking/mutex.cpp:86-136 | a process inside an acquire takes its next turn, any other makes its call; the step relation holds and the invariants are kept |
| `Sync.Machine.OtherStep` | kernel/sched/sched.cpp:212-355 | steps that touch no lock keep the lock invariants |
| `Sync.Machine.Run` | kernel/locking/mutex.cpp:15-136 | over every interleaving of calls, exits and other steps the states seen are a chain of the step relation ending in the present one, so exclusion and all invariants hold of the kernel's form; it stops early exactly at a step that must halt |
| `Sync.StolenByWait` | kernel/locking/condition.cpp:96-110 | from boot: two processes hold one mutex after a condition wait by a third |
| `Sync.StolenByInit` | kernel/locking/mutex.cpp:61-84 | from boot: two hold a mutex that one took before the other initialised it |
| `Sync.StolenByExit` | kernel/locking/mutex.cpp:45-58 | from boot: two hold a mutex after its last user left while one held it |
| `Sync.QueueOnNothing` | kernel/locking/mutex.cpp:96-100 | from boot: the second to acquire a mutex nobody initialised halts the kernel |
| `Sync.NeverMet` | kernel/locking/barrier.cpp:47-108 | from boot: two processes ask for a barrier for two under one key and wait alone on two |
| `Sync.UpBelowZero` | kernel/locking/semaphore.cpp:100-120 | a semaphore started at -1 fails the assertion at the first up |
| `Sync.BarrierForNone` | kernel/locking/barrier.cpp:76-108 | a barrier with goal 0 fails the assertion at the first arrival |
| `Mailbox.RingPut` | kernel/locking/mailbox.cpp:142-146 | writing at the tail appends to the ring's contents |
| `Mailbox.RingTake` | kernel/locking/mailbox.cpp:178-182 | reading at the head takes the first of the ring's contents |
| `Mailbox.Mbox.MutexAcquire` | kernel/locking/mutex.cpp:86-105 | takes a free mutex or queues the caller |
| `Mailbox.Mbox.MutexRelease` | kernel/locking/mutex.cpp:23-26 | frees the mutex and makes everybody blocked on it ready |
| `Mailbox.Mbox.SendTurn` | kernel/locking/mailbox.cpp:140-157 | one turn of the loop: the byte goes in and one receiver is woken, or the caller waits; never blocked on the mutex; the used count stays the ring distance |
| `Mailbox.Mbox.RecvTurn` | kernel/locking/mailbox.cpp:176-194 | one turn of the loop: the oldest byte comes out and one sender is woken, or the caller waits |
| `MailboxRuns.StepKeeps` | kernel/locking/mailbox.cpp:124-196 | every event keeps the invariant |
| `MailboxRuns.RunKeeps` | kernel/locking/mailbox.cpp:124-196 | every run does |
| `MailboxRuns.SendCovered` | kernel/locking/condition.cpp:69-94 | a send keeps: while a receiver waits every buffered byte has a woken receiver coming, and likewise for senders |
| `MailboxRuns.RecvCovered` | kernel/locking/condition.cpp:69-94 | so does a receive |
| `MailboxRuns.FifoDelivery` | kernel/locking/mailbox.cpp:124-196 | in every run the bytes received are a prefix, in order, of the bytes sent, and the rest, at most 256, is buffered; what each process sent is a prefix of the messages it called send with, all of them once it is in no call, and it has then received as many bytes as it asked for |
| `MailboxRuns.RunOwes` | kernel/locking/mailbox.cpp:124-196 | over every run from any state, what a process sent and has still to send grows by exactly the messages of its sends, and what it received and has still to receive by exactly the lengths it asked for |
| `MailboxRuns.TurnGoesOn` | kernel/locking/mailbox.cpp:140-194 | whoever can run and finds room sends the next byte of its messages, and whoever finds a byte receives the oldest |
| `MailboxRuns.NobodyStranded` | kernel/locking/mailbox.cpp:124-196 | in every run, whoever waits while there is something for them has a woken process of their kind about to run |
| `MailboxRuns.Carry` | kernel/locking/mailbox.cpp:124-196 | every event carried out on the mailbox object is a step of the runs |
| `MailboxRuns.Drive` | kernel/locking/mailbox.cpp:124-196 | any series of events on a new mailbox is a run, so what it holds is what was sent and not yet received, in order, and nobody is stranded |

## Left out

- FileSystem.Fs.Create: the number is given; which one `inode_alloc` takes is `DirStore.Store.InodeAlloc`.
- UserCopy.CopyToUser: the source is at most as long as the 39-bit address space, as any kernel buffer is; a longer copy would overwrite itself.
- UserCopy.Run: every 39-bit address is one the user may be given a page at; the upper half, where the same table holds the kernel's own mappings, is not told apart, and no copy there is refused, as the code refuses none.
- PageTable.Tables.SharePgtable: that no entry present in the source is present in the destination is required, as the source asserts it; tables are allocated without eviction.
- SchedRuns.StarvationBound: PCB slots are not reused, so that the history never holds a process of the past.
- Placement.Processes.DoBlock: the caller is a user process. A hart's own kernel process only waits for interrupts in a loop (init/main.c:227-230) and never blocks; all members that require a user process on the hart rest on this.
- Placement.Processes.Park: the same.
- Placement.Processes.DoSleep: the same.
- Placement.Processes.DoWaitpid: the same.
- Placement.Processes.DoExit: the process has no children; file and address-space cleanup is not modelled.
- Sync.Machine.AcquireTurn: a user process, as above.
- Sync.Machine.Down: a user process, as above.
- Sync.Machine.BarrierWait: a user process, as above.
- Sync.Machine.CondWait: a user process, as above.
- Sync.Machine.Exit: the process has no children.
- Sync.Machine.DestroySem: the index is in range; the code goes on past the table for one that is not.
- Pipe.PipeEntry.Open: the lookup by name and the reference counts are not modelled.
- PageGroups.Accounts.Alloc: one frame at a time; runs of adjacent frames for kernel stacks are not modelled; swap is taken to be large enough there.
- PageGroups.Accounts.Fork: between the two halting conditions it depends on which pages are evicted, which is open here.
- Directory.Directories.Run: what an operation does with the cleared inode that a dangling name leads to is not modelled; the run ends there.
- Directory.Directories.Rmdir: the directory is not open elsewhere, so that it is deleted at once.
- The layout of the inode table on disk, device inodes, paths of more than one name.
- The page cache under the block cache, and switching replacement policies at run time; the store under the block cache is a plain array.
- Which page is evicted inside the paging and accounting models: any user page of the group may be chosen there, and the policies are proved separately.
- Killing other processes and tearing down address spaces; initialising and destroying mailboxes.
- Swapped-out pages in pipe segments: pipe pages are resident.
- Changing affinities at run time, and the scheduler's policy inside the placement model: any ready process allowed on the hart may be picked there.
- TLB flushes, context switching, boot, traps, drivers, the network, the screen, the shell, loggers and host tools.
