# easy-fs and the os5 kernel, modelled in Dafny

The repository is an operating-system lab. Three of its parts are modelled here, each
in the form its code has: classes with fields that methods change and loops with
invariants where the Rust code works step by step, functions and lemmas where it
computes.

**easy-fs**, an inode file system over a write-back block cache. Four layers, each
proved against the one below:

- `Common.dfy`, `Bytes.dfy`, `BlockCache.dfy`: little-endian words in 512-byte blocks; the 16-entry
  cache refines a plain array of blocks.
- `Bitmap.dfy`: an on-disk bitmap refines a set of numbers.
- `Layout.dfy`, `Growth.dfy`: the 28 direct, one indirect and 128 double-indirect
  blocks of an inode refine one sequence of block ids in a fixed *layout order*, of
  which the ids for fewer blocks are a prefix.
- `Efs.dfy`, `Invariant.dfy`, `Filesystem.dfy`, `Vfs.dfy`, `Runs.dfy`: the image
  format, the invariant over all inodes, allocation, the vfs operations, and whole runs
  against an ordered list of names with a map from name to bytes.

**os5 memory management**: `Recycle.dfy` (frame and pid allocators), `Stacks.dfy`
(kernel stacks over whole runs), `PageTable.dfy` and `AddressSpace.dfy` (the Sv39 table
held in frames refines a map keyed by the low 27 bits of the page number),
`MemorySet.dfy` (areas, mmap, munmap, removal, recycling), `ForkSpace.dfy` (fork's
copy), `Spaces.dfy` (any number of address spaces in one memory, over whole runs),
`UserBuffer.dfy` (`translated_byte_buffer`). The hardware's view follows sections 4.1.11,
4.3.2 and 4.4 of the RISC-V Privileged Architecture, version 1.12; whether the hardware
sets the accessed and dirty flags itself is a parameter.

**os5 processes**: `Processes.dfy` (fetch, yield, fork, spawn, exit, waitpid and
set_priority as steps of a state machine, its invariant over all runs), `Calls.dfy`
(priorities and exit codes over whole runs), `Kernel.dfy`
(the kernel's loops, proved to take exactly those steps), `Stride.dfy` and
`Fairness.dfy` (the stride scheduler).

## How the model is set up

- A Rust panic is a result `false` or `None` with its exact condition, or, where the
  code offers its callers no way out (device full, file too large for the tree), a
  precondition.
- Block handles (`Arc<Mutex<BlockCache>>`) are block ids with a count; a block may be
  locked only while no handle on it is open, which is when the spin lock is free.
- The device has exactly as many blocks as `total`. There is one device, since the cache
  is keyed by the block id alone (easy-fs/src/block_cache.rs:96-98).
- The kernel's own table maps the frames from the start of its image to the end of memory
  at their own addresses (os5/src/mm/memory_set.rs:89-152). `Machine.first` is the first of
  them; it lies above frame 0. The kernel panics when it reads a frame outside this range.
- 64-bit wrap-around is written out for passes and for addresses; 32-bit block ids and
  sizes are a subset type.
- Ghost fields carry the abstract state: `logical` and `handles` in the cache, `plans`
  (block ids of each inode in layout order), `files` and `names` in the file system,
  `held` in the allocators, `nodes` in the page table.

## Where a promised property does not hold of the code

- An empty write at the end of a file looks its block up all the same. The lookup stays
  inside the device exactly when the file does not end at the first block of a new
  indirect block or, on a device of more than 0x3b800001 blocks, the magic number at its
  start happens to lead to a block (`LookupPastEnd`, `EmptyWritePastEnd`).
- A directory entry accepts 28-byte names and names with a NUL, but reads back exactly
  the names of at most 27 bytes without one (`EntryReadsBackIff`).
- Live tasks' passes stay within `BIG_STRIDE / 2` of each other along a run exactly when
  no fetch wraps, unless it finds nobody else alive, and each spawn happens early, since a
  spawned task starts at pass 0 (`RunSpreadIff`). A task with a priority above
  `BIG_STRIDE` has stride 0 and starves exactly the tasks with a higher pass
  (`ChosenIffNotBlocked`).
- munmap clears entries but keeps the area and its frames. So mmap followed by munmap
  does not give the frames back (`MmapMunmapRoundTrip`), and the next fork panics: its copy
  reads frame 0, which the kernel does not map (`MunmapThenFork`), or, if the pages were
  mapped again, the child maps them twice (`RemapThenFork`). Unless frames run out or an
  area is longer than the key space, fork returns exactly when no two areas share a page
  and every page of every area is mapped (`FromExistedUser`).
- The page-table walk does not look at the last entry's valid flag, so an unmapped page
  translates all the same exactly when its last-level table exists
  (`UnmappedTranslatesIff`), after munmap to frame 0. `mmap` accepts addresses that are
  not canonical, on which the hardware faults (`HardwareAgrees`), and ports that allow
  writing but not reading, with which the page allows no access at all (`MmapGrants`).
  `translated_byte_buffer` never finishes a range that ends inside the last page of the
  address space (`LastPageNeverEnds`).

## Model

| member | source | states |
|---|---|---|
| `BlockCaching.EvictKeeps` | easy-fs/src/block_cache.rs:65-77 | writing a dirty block back and dropping an unreferenced entry changes no block as seen through the cache |
| `BlockCaching.LoadKeeps` | easy-fs/src/block_cache.rs:112-118 | loading a block that is not cached keeps one live copy per block and the contents seen through the cache |
| `BlockCaching.PinnedNeedsHandles` | easy-fs/src/block_cache.rs:101-110 | if no entry can be evicted, at least as many handles are open as there are entries |
| `BlockCaching.RoomWhenFew` | easy-fs/src/block_cache.rs:101-110 | with fewer than 16 handles open a full cache has an entry to evict |
| `BlockCaching.BlockCacheManager.GetBlockCache` | easy-fs/src/block_cache.rs:91-120 | opens a handle, changes no block, keeps at most 16 entries and one copy per block, and leaves a device that was up to date so; panics exactly when the block is not cached and all 16 entries are referenced |
| `BlockCaching.BlockCacheManager.Read` | easy-fs/src/block_cache.rs:57-59 | a read through a handle sees the block of the plain array |
| `BlockCaching.BlockCacheManager.Modify` | easy-fs/src/block_cache.rs:61-63 | a write through a handle changes that block of the plain array and no other |
| `BlockCaching.BlockCacheManager.SyncAll` | easy-fs/src/block_cache.rs:139-144 | afterwards the device equals the plain array |
| `BlockCaching.BlockCacheManager.Replay` | easy-fs/src/block_cache.rs:22-144 | cache transparency: any interleaving of gets, loads, stores, handle drops and syncs with fewer than 16 handles at each get runs without panic, every load returns what a plain array would, and a final sync leaves the device equal to that array |
| `Bytes.WordRoundTrip` | easy-fs/src/layout.rs:88-96 | a 32-bit word is stored with its low byte first and reads back |
| `Bitmaps.TrailingOnesLowestClear` | easy-fs/src/bitmap.rs:45-48 | the count of trailing ones is the position of the lowest clear bit, and reaches the word length exactly for the all-ones word |
| `Bitmaps.WithBitAt` | easy-fs/src/bitmap.rs:50 | or-ing one bit in sets that bit and changes no other |
| `Bitmaps.SubtractBitAt` | easy-fs/src/bitmap.rs:69-70 | subtracting a set bit clears that bit and borrows from no other |
| `Bitmaps.LowestClearIn` | easy-fs/src/bitmap.rs:42-48 | the search in one block returns its lowest clear bit, or 4096 when all are set |
| `Bitmaps.TakeLowest` | easy-fs/src/bitmap.rs:41-55 | under one lock, the lowest clear bit of the block is set and reported; a full block stays as it is |
| `Bitmaps.Alloc` | easy-fs/src/bitmap.rs:36-61 | adds to the set its smallest missing number, fails exactly when every bit of every block is set, and changes no block outside the bitmap |
| `Bitmaps.Dealloc` | easy-fs/src/bitmap.rs:63-72 | removes exactly that number from the set, which undoes `Alloc` |
| `DiskLayout.PlacesOfDataBlocks` | easy-fs/src/layout.rs:125-139 | `total_blocks` counts the places of the layout order: data block k sits between the totals for k and k + 1 blocks, never at an index block's place |
| `DiskLayout.FewestBlocks` | easy-fs/src/layout.rs:117-123 | `data_blocks` is the smallest number of 512-byte blocks that hold the size |
| `DiskLayout.WholeTree` | easy-fs/src/layout.rs:12-26 | the largest number of data blocks is what all three levels can list |
| `DiskLayout.TotalIsLastPlace` | easy-fs/src/layout.rs:125-139 | the total for d data blocks is the place of the last of them plus one, and 0 for none |
| `DiskLayout.DataPosInjective` | easy-fs/src/layout.rs:146-175 | different data blocks have different places, in order |
| `DiskLayout.BlockIdIsAt` | easy-fs/src/layout.rs:146-175 | the three-level lookup of block k finds what stands at its place of the layout order, whatever is on disk |
| `DiskLayout.TotalForMonotone` | easy-fs/src/layout.rs:125-144 | a larger file never needs fewer blocks, so `blocks_num_needed` does not underflow |
| `DiskLayout.GrowSubWord` | easy-fs/src/layout.rs:236-255 | writing one word into a double-indirect block puts the next block at the next place and keeps all earlier places |
| `DiskLayout.LookupPastEnd` | easy-fs/src/layout.rs:146-175 | on a device of any size, the lookup one past the last block stays inside the device if and only if that block is not the first of a new indirect block or the first word of block 0, taken as a block id, leads to a block |
| `DiskLayout.DiskInode.IncreaseSize` | easy-fs/src/layout.rs:177-257 | given any distinct blocks, exactly as many as `blocks_num_needed` says, every old place keeps its block and every new place gets the next one, for all old and new sizes over the three levels; only index blocks change; if the new index blocks were zero, all places beyond the end read 0 |
| `DiskLayout.DiskInode.ClearSize` | easy-fs/src/layout.rs:260-345 | returns the inode's blocks in layout order, none twice and none missing, and leaves an empty inode, whatever the index blocks hold beyond the end |
| `InodeLife.GrowThenClear` | easy-fs/src/layout.rs:177-345 | after any ascending sequence of `increase_size` calls from an empty inode with any distinct blocks, `clear_size` returns the concatenation of all the block lists given |
| `DiskLayout.DiskInode.GetBlockId` | easy-fs/src/layout.rs:146-175 | the lookup through the cache returns the block at the place of k and changes nothing |
| `DiskLayout.DiskInode.ReadAt` | easy-fs/src/layout.rs:347-383 | fills the buffer with the file's bytes from the offset on, as many as the buffer takes or the file has, none exactly when the offset is at or past the end or the buffer is empty; leaves the rest of the buffer, changes no block |
| `DiskLayout.DiskInode.WriteAt` | easy-fs/src/layout.rs:386-420 | splices the buffer into the file's bytes clipped at the size, changes no other byte of the file, no index block and no foreign block |
| `DiskLayout.SpliceBlock` | easy-fs/src/layout.rs:403-412 | changing part of one data block changes that byte range of the file alone and no place of the tree |
| `EfsFormat.FormatIsOk` | easy-fs/src/efs.rs:34-53 | for every total that holds the inode area, the five regions begin where the one before ends, fill the device and the data bitmap covers its area |
| `EfsFormat.FormatBitmapIsSmallest` | easy-fs/src/efs.rs:40-42 | a data bitmap of b blocks covers what it leaves over if and only if b is at least the number chosen |
| `EfsFormat.InodeSlotsDisjoint` | easy-fs/src/efs.rs:131-136 | inode i lies 128 i bytes into the inode area, positions stay in that area and no two ids share one |
| `EfsFormat.SuperRoundTrip` | easy-fs/src/layout.rs:53-73 | the super block written by `initialize` reads back with its magic and all five counts |
| `EfsFormat.PutInoSame` | easy-fs/src/layout.rs:88-107 | an inode stored in its 128-byte slot reads back; its fields are the words 0, 1 to 28, 29 and 30 of the slot and byte 124 |
| `EfsFormat.PutInoOther` | easy-fs/src/layout.rs:88-107 | the other three inodes of the block read as before |
| `EfsFormat.EntryRoundTrip` | easy-fs/src/layout.rs:442-476 | name and inode number of a directory entry survive its byte form: the name, zeros up to byte 28, then the number |
| `EfsFormat.EntryReadsBackIff` | easy-fs/src/layout.rs:442-472 | of the names that fit the field, `name` gives back exactly those of at most 27 bytes without a NUL |
| `EfsFormat.DirBytesAt` | easy-fs/src/vfs.rs:134-147 | the j-th 32 bytes of the directory are the entry of the j-th name |
| `FsInvariant.OwnedOnce` | easy-fs/src/vfs.rs:95-110 | when the blocks of all inodes are the used blocks with multiplicity, no block stands twice in one inode or in two |
| `FsInvariant.BlocksAreConserved` | easy-fs/src/vfs.rs:95-110 | in every sound state the number of set data bits is the sum of `total_blocks(size)` over all inodes |
| `FsInvariant.GrownHolds` | easy-fs/src/efs.rs:150-163 | growing over free blocks, which are zero, pads the file with zeros up to its new size and beyond in the last block |
| `FsInvariant.InodeReplaced` | easy-fs/src/vfs.rs:189-210 | a change confined to one inode's blocks and bitmap bits keeps the invariant of all the others |
| `Filesystem.FormatDevice` | easy-fs/src/efs.rs:54-90 | the formatted device satisfies the whole invariant with an empty root directory |
| `Filesystem.EasyFileSystem.Create` | easy-fs/src/efs.rs:29-91 | a fresh image for every large enough total: regions as computed, empty root, all on the device |
| `Filesystem.EasyFileSystem.Open` | easy-fs/src/efs.rs:93-116 | for every image with the right magic number the regions are rebuilt from its super block in 32-bit arithmetic and nothing changes; for an image that satisfies the invariant the result is the file system it holds |
| `Filesystem.EasyFileSystem.AllocData` | easy-fs/src/efs.rs:146-148 | by pigeonhole the block issued lies in the data area while one is free, although the bitmap may have surplus bits; it was in use nowhere |
| `Filesystem.EasyFileSystem.AllocMany` | easy-fs/src/vfs.rs:104-108 | the blocks for a growth are distinct, unused before and the only new ones in use |
| `Filesystem.EasyFileSystem.DeallocData` | easy-fs/src/efs.rs:150-163 | the block is zeroed and free again, every other data block is untouched |
| `Filesystem.EasyFileSystem.NewInode` | easy-fs/src/vfs.rs:124-133 | the new inode has the next id and no bytes; the invariant and all other inodes stay |
| `Filesystem.EasyFileSystem.DeallocMany` | easy-fs/src/vfs.rs:205-207 | exactly the given blocks become zero and free |
| `Vfs.Inode.IncreaseSize` | easy-fs/src/vfs.rs:95-110 | the file is padded with zeros to the new size over blocks nobody had, and nothing outside it changes |
| `Vfs.Inode.FindInodeId` | easy-fs/src/vfs.rs:54-77 | finds the inode of a name, and nothing exactly when the name is not listed |
| `Vfs.Inode.Find` | easy-fs/src/vfs.rs:79-93 | returns an inode of that name, `None` exactly when it does not exist; changes no block |
| `Vfs.Inode.Create` | easy-fs/src/vfs.rs:112-159 | `None` exactly when the name exists, and then nothing changes; else an empty file under that name, all other files as before, all on the device |
| `Vfs.Inode.Ls` | easy-fs/src/vfs.rs:161-180 | the names in the order in which they were created |
| `Vfs.Inode.ReadAt` | easy-fs/src/vfs.rs:182-187 | exactly the stored slice from the offset on: nothing if and only if the offset is at or past the end or the buffer is empty, otherwise the whole buffer or up to the end of the file |
| `Vfs.Inode.WriteAt` | easy-fs/src/vfs.rs:189-197 | the file becomes the old one with the buffer spliced in and any gap filled with zeros, every other file is unchanged, ownership and zero invariants hold, and the device is up to date |
| `Vfs.Inode.Clear` | easy-fs/src/vfs.rs:199-210 | the file becomes empty, its blocks free and zero; the length assertion holds |
| `Vfs.EmptyWritePastEnd` | easy-fs/src/layout.rs:397-404 | in every sound state, the block that an empty write at the end of a file looks up is inside the device if and only if the file does not end at an indirect boundary or the magic number leads to a block, which it never does on a device of at most 0x3b800001 blocks |
| `FsRuns.SumIsLengths` | easy-fs/src/layout.rs:125-139 | the blocks in use are the sum of `total_blocks` over the abstract files |
| `FsRuns.ReadReply` | easy-fs/src/vfs.rs:182-187 | the abstract answer to a read is the stored slice from the offset on, all that the file has and the buffer takes |
| `FsRuns.FileKept` | easy-fs/src/vfs.rs:112-210 | in every run a file stays and keeps its bytes unless a write or clear names it |
| `FsRuns.WriteThenRead` | easy-fs/src/vfs.rs:182-197 | in every run a read of a range answers what was last written to it, whatever happens to other files in between |
| `FsRuns.Step` | easy-fs/src/vfs.rs:54-210 | one operation on the image, through `find`, gives the abstract file system's answer and its next state |
| `FsRuns.Run` | easy-fs/src/vfs.rs:54-210 | every run of create, write_at, read_at, clear, find and ls that has room answers as a map from name to bytes would, and leaves the device up to date |
| `FsRuns.FormatRunRemount` | easy-fs/src/efs.rs:29-116 | format any large enough device, run any legal operations, drop the cache without a further sync and open the device again: all answers and the state after remount are the abstract ones |
| `Recycling.IssueConserves` | os5/src/task/pid.rs:27-34 | the number issued is held by nobody, and held, recycled and never-issued numbers stay a partition |
| `Recycling.RecycleConserves` | os5/src/task/pid.rs:35-43 | returning a held number passes the assertions and keeps the partition |
| `Recycling.ReturnedLastIssuedFirst` | os5/src/task/pid.rs:27-43 | issuing after returning a number gives that number and the pool as it was |
| `Recycling.ConservedCount` | os5/src/mm/frame_allocator.rs:59-86 | held plus recycled numbers are as many as were ever issued |
| `Recycling.PidAllocator.Alloc` | os5/src/task/pid.rs:27-34 | a pid that no live handle has |
| `Recycling.PidAllocator.Dealloc` | os5/src/task/pid.rs:35-43 | the assertions hold for every live pid, which becomes free |
| `Recycling.StackFrameAllocator.Alloc` | os5/src/mm/frame_allocator.rs:67-76 | a managed frame nobody holds; `None` exactly when all of them are held |
| `Recycling.StackFrameAllocator.Dealloc` | os5/src/mm/frame_allocator.rs:77-86 | the panic is unreachable for a held frame, which becomes free |
| `Recycling.KernelStackPlace` | os5/src/task/pid.rs:67-71 | the stack of pid 0 ends at the trampoline, each has 20 pages and lies one page below the one before |
| `Recycling.KernelStacksApart` | os5/src/task/pid.rs:67-71 | as addresses, the kernel stacks of two live pids do not overlap, lie below the trampoline and have a guard page between them |
| `AddressSpaces.KernelStackKeysApart` | os5/src/task/pid.rs:78-90 | as pages of the kernel table, whose keys have 27 bits, stack and guard pages of different live pids have different keys while 21 pages for each pid issued fit into the key space |
| `KernelStacks.CreateIsSound` | os5/src/task/task.rs:98-99 | a pid issued for the first time means that all before it live with 20 frames each, so 20 times the pids ever issued fit into the managed frames |
| `KernelStacks.RunIsSound` | os5/src/task/pid.rs:78-116 | in every run of task creations, task ends and other takers of frames, every live pid has a stack of 20 frames that no other stack has, and that bound holds |
| `KernelStacks.StackPagesApart` | os5/src/task/pid.rs:67-116 | in every run from boot in the machine's 0x7e00 frames, the stack and guard pages of a live pid have keys in the kernel's table that differ from those of any other live pid, of the trampoline and of all memory the kernel maps at its own address |
| `PageTables.PteRoundTrip` | os5/src/mm/page_table.rs:30-58 | frame number and flags survive packing, and the entry is valid exactly when the V flag was given |
| `PageTables.PteBits` | os5/src/mm/page_table.rs:30-35 | the frame number is bits 10 to 53 of the entry, bits 8 and 9 are 0, the flags are the low byte |
| `PageTables.TokenRoundTrip` | os5/src/mm/page_table.rs:75-80 | `from_token` undoes `token`, whose mode field says Sv39 and whose other 60 bits are the root frame |
| `PageTables.Indexes` | os5/src/mm/address.rs:139-147 | the loop fills the three 9-bit indexes, top level first |
| `PageTables.KeyDigits` | os5/src/mm/address.rs:139-147 | the three indexes are the base-512 digits of the low 27 bits, most significant first |
| `PageTables.IndexesAreKey` | os5/src/mm/address.rs:139-147 | two page numbers have the same indexes exactly when their low 27 bits agree |
| `PageTables.TableUnshared` | os5/src/mm/page_table.rs:81-99 | no two table frames hang at the same place of the tree |
| `PageTables.CreateMidLookup` | os5/src/mm/page_table.rs:91-95 | hanging a blank frame in as a middle table changes no translation |
| `PageTables.CreateLeafLookup` | os5/src/mm/page_table.rs:91-95 | hanging a blank frame in as a last-level table changes no translation |
| `PageTables.SetLeafLookup` | os5/src/mm/page_table.rs:118-128 | writing a last-level entry changes the walk for its three indexes and no other |
| `PageTables.HardwareAgrees` | os5/src/mm/page_table.rs:100-116 | for every 64-bit address and every load, store or fetch of a user program, the hardware's walk finds the software's entry, at the last level, if and only if the address is canonical and the entry is a leaf without reserved bits that permits the access and is marked for it or can be, and faults otherwise |
| `PageTables.CanonicalTwin` | os5/src/mm/address.rs:139-147 | every address that is not canonical shares its entry with a canonical one: the software maps it, the hardware faults |
| `AddressSpaces.MmapGrants` | os5/src/task/processor.rs:44-65 | an access to a page that mmap has mapped is let through if and only if the hardware sets the accessed and dirty flags, the port allows the access and the port does not allow writing without reading |
| `AddressSpaces.Machine.FrameAlloc` | os5/src/mm/frame_allocator.rs:107-112 | a frame nobody held, cleared, all others as before; `None` exactly at exhaustion |
| `AddressSpaces.Machine.FrameDealloc` | os5/src/mm/frame_allocator.rs:33-37 | dropping a tracker returns its frame and changes no memory |
| `AddressSpaces.PageTable.New` | os5/src/mm/page_table.rs:67-73 | a new table translates nothing and takes one frame nobody held; it panics exactly when no frame is left |
| `AddressSpaces.PageTable.FindPteCreate` | os5/src/mm/page_table.rs:81-99 | reaches the page's last-level table, creating what is missing from frames nobody held; no translation and no other frame changes; fails only at exhaustion |
| `AddressSpaces.PageTable.FindPte` | os5/src/mm/page_table.rs:100-116 | the pointer-chasing loop returns what the abstract walk returns and stays inside the table's frames |
| `AddressSpaces.PageTable.Map` | os5/src/mm/page_table.rs:118-122 | the page's key gets the entry with V set, every other key keeps its own and no walk gets shorter; panics only if it was mapped or frames ran out |
| `AddressSpaces.PageTable.Unmap` | os5/src/mm/page_table.rs:124-128 | the page's key loses its entry, so its walk ends at 0, every other walk is as before and no frame is taken; panics exactly when it was not mapped |
| `AddressSpaces.PageTable.DropFrames` | os5/src/mm/page_table.rs:61-64 | dropping a table gives back exactly the frames of its nodes, each once |
| `MemorySets.MemorySet.MapPages` | os5/src/mm/memory_set.rs:295-325 | each page gets a blank frame of its own and the area's flags, no other page changes; panics only if a page was mapped, frames ran out or the range exceeds the 27-bit key space |
| `MemorySets.PagesOfRange` | os5/src/mm/address.rs:88-93 | from floor to ceil are exactly the pages that have a byte of the range, for an aligned start and an end before the last page |
| `MemorySets.MemorySet.Mmap` | os5/src/task/processor.rs:44-65 | returns -1 exactly for a misaligned start, a bad port or a page already mapped, and then nothing changes; panics on a range that wraps around; 0 gives exactly the pages that have a byte of the range (for ranges that end before the last page) fresh zeroed frames with the requested flags; the assertion inside `map` is unreachable; the invariant of the address space (areas own their frames, the walks for all their pages are complete, their mapped pages lie in frames they own) is kept |
| `MemorySets.MemorySet.Munmap` | os5/src/task/processor.rs:66-87 | returns -1 exactly for a misaligned start or a page not mapped, and then nothing changes; panics on a range that wraps around; 0 makes exactly the pages that have a byte of the range invalid, ends their walks at 0, leaves all other walks as they were and takes no frame; the assertion inside `unmap` is unreachable; the invariant of the address space is kept |
| `MemorySets.MmapMunmapRoundTrip` | os5/src/mm/memory_set.rs:256-260 | munmap undoes mmap on the map of pages; the frames stay in use |
| `MemorySets.MemorySet.UnmapArea` | os5/src/mm/memory_set.rs:311-330 | each page loses its entry and returns its frame, nothing else changes; panics exactly when a page is not mapped or the range exceeds the key space |
| `MemorySets.MemorySet.RemoveArea` | os5/src/mm/memory_set.rs:62-72 | the first area with that start goes with its entries and frames, the others keep theirs and the invariant of the address space; nothing happens when there is none |
| `MemorySets.MemorySet.RecycleDataPages` | os5/src/mm/memory_set.rs:251-254 | gives back exactly the frames of the areas, each once |
| `MemorySets.MemorySet.Drop` | os5/src/mm/frame_allocator.rs:33-37 | dropping an address space gives back exactly the frames of its areas and of its table |
| `MemorySets.PushOwned` | os5/src/mm/memory_set.rs:73-79 | adding an area keeps every frame with one page of one area, and none of them a table |
| `MemorySets.PushRemoveRoundTrip` | os5/src/mm/memory_set.rs:51-79 | inserting an area and removing it restores the map of pages and all frames but those that became tables |
| `ForkSpaces.CopyPages` | os5/src/mm/memory_set.rs:231-237 | the pages of an area are copied byte for byte and nothing that was in use before the fork changes; panics if and only if some page of the area is not mapped in the parent |
| `ForkSpaces.FromExistedUser` | os5/src/mm/memory_set.rs:222-240 | for every address space that meets the invariant no `unwrap` of a walk fails; unless frames run out or an area exceeds the key space, it returns if and only if no two areas share a page and the parent has every page of every area mapped; the child has the parent's areas on frames the parent does not hold, the trampoline and no other page, and has taken no frames but those of its table and areas; all memory in use before is unchanged; both spaces meet the invariant |
| `ForkSpaces.ForkCopiesPage` | os5/src/mm/memory_set.rs:222-240 | each page of each area has the parent's flags and bytes in the child, on a frame nobody held, and the parent's frame keeps its bytes |
| `ForkSpaces.TrampolineInChild` | os5/src/mm/memory_set.rs:80-87 | the child has the trampoline in the last page of the address space, readable and executable for the kernel and closed to user programs |
| `ForkSpaces.ProcessAreasApart` | os5/src/mm/memory_set.rs:155-221 | areas as `from_elf` makes them, the trap context in the page below the trampoline and all others disjoint and lower, share no key among them or with the trampoline |
| `ForkSpaces.ForkOfProcess` | os5/src/mm/memory_set.rs:222-240 | a process with such areas, all pages mapped, forks unless frames run out |
| `ForkSpaces.MunmapThenFork` | os5/src/mm/memory_set.rs:222-260 | mmap and munmap of any free range that is not empty both return 0 and the following fork panics, unless frames run out before |
| `ForkSpaces.RemapThenFork` | os5/src/mm/memory_set.rs:222-260 | mmap, munmap and mmap of any free range all return 0, the areas then overlap and the following fork panics, unless frames run out before |
| `SpaceFamilies.OneChanges` | os5/src/mm/frame_allocator.rs:15-37 | a change that takes free frames or frames of its own space, and writes to no others in use, keeps the invariant, the bytes and all translations of every other space and one owner for each frame in use |
| `SpaceFamilies.OneSpace` | os5/src/mm/memory_set.rs:33-49 | any address space that meets its invariant is a family of one |
| `SpaceFamilies.MmapIn` | os5/src/task/processor.rs:44-65 | mmap in one of any number of spaces is refused or adds one area with fresh frames there, and leaves all others their bytes and translations; panics only if frames ran out or the range wraps or exceeds the key space |
| `SpaceFamilies.MunmapIn` | os5/src/task/processor.rs:66-87 | munmap in one space is refused or clears the entries of the range there, and leaves all others as they were |
| `SpaceFamilies.MapEffectInBytes` | os5/src/task/processor.rs:44-65 | the step of mmap in a run, in bytes: refused if a page with a byte of the range is mapped, else exactly those pages get frames |
| `SpaceFamilies.UnmapEffectInBytes` | os5/src/task/processor.rs:66-87 | the step of munmap in a run, in bytes: refused if a page with a byte of the range is not mapped, else exactly those pages lose their entries |
| `SpaceFamilies.RemoveIn` | os5/src/mm/memory_set.rs:62-72 | removal takes the first area with that start, its entries and frames from one space, and leaves all others as they were |
| `SpaceFamilies.ForkIn` | os5/src/task/task.rs:160-203 | fork adds a space that is a copy of the forked one and has exactly the frames newly in use, and leaves all others, the parent included, as they were |
| `SpaceFamilies.ExitIn` | os5/src/task/mod.rs:87-88 | exit gives back exactly the frames of the areas of the exiting space, and leaves all others as they were |
| `SpaceFamilies.ReapIn` | os5/src/syscall/process.rs:101-109 | reaping gives back exactly the frames the space still has, and leaves all others as they were |
| `SpaceFamilies.ForkThenReap` | os5/src/mm/memory_set.rs:222-254 | a fork that exits and is reaped leaves the frames in use, every space, its bytes and translations as they were before the fork |
| `SpaceFamilies.Perform` | os5/src/mm/memory_set.rs:41-260 | one call takes exactly the step that `Effect` states for its space, and panics only where `MayPanic` holds |
| `SpaceFamilies.Run` | os5/src/mm/memory_set.rs:41-260 | every run of mmap, munmap, removal, fork, exit and reap on any number of spaces takes these steps one after the other and stops early only at a call that may panic; in every state on the way each frame in use has exactly one owner and each space meets its invariant; the rest of the kernel keeps its bytes, and a space that no call was for keeps its areas, bytes and translations |
| `UserBuffers.TranslateVa` | os5/src/mm/page_table.rs:132-141 | the physical address lies in the frame of the page's entry, at the offset of the virtual one, and exists if and only if the walk reaches the last level |
| `UserBuffers.TranslatedByteBuffer` | os5/src/mm/page_table.rs:148-168 | returns if and only if every byte of the range translates and the range ends before the last page of the address space; then the slice lengths add up to the length and byte j lies at the translation of start + j, also at page boundaries; a length that wraps gives no slices |
| `UserBuffers.UnmappedTranslatesIff` | os5/src/mm/page_table.rs:129-141 | an address of a page that is not mapped translates all the same if and only if the table has a last-level frame for it |
| `UserBuffers.MunmappedIsFrameZero` | os5/src/mm/page_table.rs:124-141 | right after munmap every address of the range translates to its offset in frame 0 |
| `UserBuffers.BufferAfterMunmap` | os5/src/mm/page_table.rs:148-168 | a buffer in a range that munmap has just cleared is served in full, every byte from frame 0, which the kernel does not map |
| `UserBuffers.ProgressIff` | os5/src/mm/page_table.rs:153-166 | a round of the loop advances exactly when it does not start in the last page |
| `UserBuffers.LastPageNeverEnds` | os5/src/mm/page_table.rs:153-166 | a range ending inside the last page fails the exit test after any number of rounds |
| `StrideScheduler.Stride` | os5/src/task/manager.rs:44 | the quotient of `BIG_STRIDE` and the priority, rounded down; at most half of `BIG_STRIDE` from priority 2 on, 0 exactly above `BIG_STRIDE` |
| `StrideScheduler.PickIsUnique` | os5/src/task/manager.rs:31-47 | the scan's choice is the only position that is lowest and first among the lowest |
| `StrideScheduler.NoStarvation` | os5/src/task/manager.rs:31-47 | in a closed ready set, a task that no task of stride 0 stays below is fetched once the others have used up the turns by which they are behind it and those of stride 0 before it have had one |
| `StrideScheduler.BoundedWait` | os5/src/task/manager.rs:31-47 | from passes within `BIG_STRIDE / 2`, a task waits at most the sum over the others of `BIG_STRIDE / 2 / stride + 1` fetches |
| `StrideScheduler.WaitInPriorities` | os5/src/task/manager.rs:31-47 | so a task waits for at most as many fetches as the priorities of the other tasks add up to |
| `StrideScheduler.ChosenIffNotBlocked` | os5/src/syscall/process.rs:140-146 | in every queue, a task whose pass is more than `BIG_STRIDE / 2` short of 2^64 is ever fetched if and only if no task with a priority above `BIG_STRIDE`, hence stride 0, has a lower pass |
| `StrideScheduler.StrideIsFifo` | os5-ref/src/task/manager.rs:26-32 | with equal priorities and equal passes the first n fetches are in the FIFO scheduler's order whenever none of them wraps |
| `Processes.BootInv` | os5/src/task/mod.rs:108-110 | the state after `add_initproc` satisfies the invariant |
| `Processes.FetchKeeps` | os5/src/task/processor.rs:117-139 | fetching the next task keeps the invariant |
| `Processes.SetPriorityAnswers` | os5/src/syscall/process.rs:140-146 | set_priority returns the priority, which the caller then has, or -1 below 2, and then nothing changes; no other task and no pass changes |
| `Processes.BornKeeps` | os5/src/task/task.rs:160-248 | fork and spawn keep it: the new task is in one children list and in the queue once, under a pid nobody had |
| `Processes.BornPid` | os5/src/task/task.rs:160-203 | the pid given to a child was held by no live task and is held after the step |
| `Processes.ExitKeeps` | os5/src/task/mod.rs:65-96 | exit keeps it: every child moves to INITPROC's list with its parent link |
| `Processes.Adopted` | os5/src/task/mod.rs:76-83 | after an exit, the children of the exiting task and those of INITPROC all have INITPROC as parent |
| `Processes.AdoptedInOrder` | os5/src/task/mod.rs:76-85 | INITPROC's list after an exit is its own children followed by those of the exiting task, in order |
| `Processes.WaitKeeps` | os5/src/syscall/process.rs:82-115 | waitpid keeps it, whether it reaps, finds nothing ready or finds no such child |
| `Processes.WaitAnswers` | os5/src/syscall/process.rs:82-115 | -1 if and only if no child matches, -2 if and only if some does and none of those is a zombie, and in both cases nothing changes; otherwise the pid of the first matching zombie in the children list, which is the only task to disappear, and the other children keep their order |
| `Processes.WaitForPid` | os5/src/syscall/process.rs:82-115 | -1 asks for any child and fails exactly when there is none; any other argument fails exactly when no child has that pid and else reaps only that child |
| `Processes.RunKeeps` | os5/src/task/processor.rs:117-139 | over every run each task is in exactly one of queue (once), processor or zombie, pids of live tasks are distinct and conserved, parent links match children lists, and births, exits and reaps agree |
| `Processes.EveryTaskUnderInitproc` | os5/src/task/mod.rs:65-96 | following parent links from any task ends at INITPROC |
| `Processes.ZombieHasOneReference` | os5/src/syscall/process.rs:102-104 | a zombie is referred to from exactly one place, its parent's children list, so the assertion on the strong count holds |
| `Processes.ReapedOnce` | os5/src/syscall/process.rs:82-115 | in every run from boot, no task is reaped twice, and each reap reports the pid and the exit code that the task had |
| `Processes.ExitedIsZombieOrReaped` | os5/src/task/mod.rs:65-96 | in every run from boot, a task has exited if and only if it is a zombie or was reaped, never both, and no task is lost in any other way |
| `ProcessCalls.StepPriority` | os5/src/task/task.rs:160-248 | over every step a task keeps its priority unless it sets it itself, and a new task has its parent's |
| `ProcessCalls.PriorityKept` | os5/src/syscall/process.rs:140-146 | over every run without a set_priority of its own a task keeps its priority |
| `ProcessCalls.TurnAfterSetPriority` | os5/src/task/manager.rs:42-46 | in every run after set_priority(p), each turn of the task before its next set_priority advances its pass by `BIG_STRIDE / p`, rounded down |
| `ProcessCalls.BootPriority` | os5/src/task/task.rs:89-127 | in every run from boot without set_priority all tasks have priority 16 |
| `ProcessCalls.ExitCodeDelivered` | os5/src/task/mod.rs:65-96 | in every run after exit(code) the task is a zombie with that code and its pid, or was reaped with exactly these |
| `Fairness.FetchKeepsSpread` | os5/src/task/manager.rs:31-47 | a fetch keeps live passes within `BIG_STRIDE / 2` of each other if it does not wrap |
| `Fairness.NextIsLowest` | os5/src/task/manager.rs:31-47 | with the processor idle, the task fetched has the lowest pass of all live tasks |
| `Fairness.WrapBreaksSpread` | os5/src/task/manager.rs:42-46 | a fetch that wraps breaks that bound whenever another task is live |
| `Fairness.ForkKeepsSpread` | os5/src/task/task.rs:160-203 | fork, which copies the pass, keeps the bound |
| `Fairness.SpawnSpread` | os5/src/task/task.rs:205-248 | spawn, which starts at pass 0, keeps the bound if and only if no live pass exceeds `BIG_STRIDE / 2` |
| `Fairness.RunKeepsSpread` | os5/src/task/manager.rs:27-47 | every run in which no fetch wraps and each spawn happens while all live passes are within `BIG_STRIDE / 2` of 0 keeps the bound |
| `Fairness.RunSpreadIff` | os5/src/task/manager.rs:27-47 | the bound holds in every state of a run if and only if each spawn is that early and each fetch does not wrap or finds nobody else alive |
| `Fairness.RunNeverWraps` | os5/src/config.rs:8 | in no run, spawns included, does a pass wrap in the first 2^21 fetches, whatever the priorities |
| `Fairness.SpreadFromBoot` | os5/src/config.rs:8 | so it holds after every run from boot of at most 2^21 fetches whose spawns are early |
| `Fairness.TurnsAdvancePass` | os5/src/task/manager.rs:42-46 | over a run, a task with a fixed priority has advanced by its number of turns times its stride |
| `Fairness.ProportionalShare` | os5/src/task/manager.rs:27-47 | from any state within the bound, over any run that never wraps and spawns early, two tasks that start at equal pass with fixed priorities have turns times stride within `BIG_STRIDE / 2` of each other; in priorities, turns per priority differ by at most a half while twice the turns times both priorities is at most `BIG_STRIDE`, and by that and the rounding of strides beyond |
| `Fairness.ShareFromBoot` | os5/src/task/manager.rs:27-47 | the same between any two points of any run from boot within 2^21 fetches |
| `Fairness.FetchYieldIsRound` | os5/src/task/mod.rs:46-62 | fetch followed by yield is one round of the queue of passes |
| `Fairness.NoTaskStarves` | os5/src/task/manager.rs:27-47 | in the process state machine, with priorities up to `BIG_STRIDE`, every ready task runs within its wait bound of fetch-yield rounds, and within as many rounds as the priorities of the others add up to, plus one |
| `Fairness.ServedIffNotStarved` | os5/src/task/manager.rs:27-47 | with any priorities, a ready task whose pass is more than `BIG_STRIDE / 2` short of 2^64 is ever served if and only if no ready task of stride 0 has a lower pass |
| `Fairness.LevelTasksAreFifo` | os5-ref/src/task/manager.rs:26-32 | tasks of equal pass and priority are served in FIFO order as long as no fetch wraps |
| `KernelCode.Kernel.Scan` | os5/src/task/manager.rs:36-41 | the scan loop finds the first of the lowest passes |
| `KernelCode.Kernel.RunNext` | os5/src/task/processor.rs:117-139 | takes the fetch step of the state machine |
| `KernelCode.Kernel.Suspend` | os5/src/task/mod.rs:46-62 | takes the yield step |
| `KernelCode.Kernel.NewChild` | os5/src/syscall/process.rs:53-66 | takes the fork or spawn step and returns a pid that no live task had |
| `KernelCode.Kernel.Reparent` | os5/src/task/mod.rs:79-82 | the loop moves exactly the given children to INITPROC, in order |
| `KernelCode.Kernel.ExitCurrent` | os5/src/task/mod.rs:65-96 | takes the exit step |
| `KernelCode.Kernel.WaitPid` | os5/src/syscall/process.rs:82-115 | takes the waitpid step: -1 without a matching child, -2 without a matching zombie, else the first matching zombie is reaped and its exit code delivered |
| `KernelCode.Kernel.ChangePriority` | os5/src/syscall/process.rs:140-146 | takes the set_priority step: returns the priority and gives it to the caller, or -1 for priorities below 2 |

## Left out

- ELF parsing in `from_elf`, `exec`, linker symbols and the construction of the kernel's own table: they rest on a library and link-time addresses. Of the kernel's table the model has the range of frames mapped at their own addresses and the keys of the kernel stacks. `spawn` and `fork` are modelled without the trap context and without the missing-program branch of `sys_spawn`, which returns -1 and changes nothing.
- `MapArea::copy_data`, used only when loading an ELF image.
- Trap entry, `__switch`, CSR access, SBI calls, timer, console and logging.
- `sys_read`, `sys_write`, `translated_str`, `translated_refmut`, task information and syscall counters.
- The heap allocator, easy-fs-fuse, the build scripts, the user and ci-user programs, and os5-ref apart from its FIFO scheduler.
- Concurrency inside `spin::Mutex` and `UPSafeCell`: each operation runs alone.
- Aliasing through `Arc`: cache entries, task control blocks and areas are values in a queue, map or list, with reference counts or reference sites stated explicitly.
- UTF-8 validity of file names: names are byte sequences.
- Operations on an opened image that does not satisfy the invariant of `Invariant.dfy`.
- Vfs.Inode.WriteAt: requires room on the device and in the tree, and no empty write at a boundary, since the code panics or reads a foreign block there.
- Vfs.Inode.Create: requires a legal name and a free inode and directory block; the code panics without them.
- Processes.ExitKeeps: the exiting task is not INITPROC, whose exit the kernel does not support.
- Loads and stores of the user programs themselves are not calls of `SpaceFamilies.Run`.
