# Xenithra OS: verified models of its allocators, page tables, disk builder, scheduler and rings

This project models five parts of Xenithra OS that keep state, in the imperative form of the
original, and proves what they keep over whole runs.

**Kernel heap** (`HeapPool.dfy`, `KernelHeap.dfy`). `KernelHeap.Heap` works on an array of 8-byte
words: header, footer and the links of the free list are words of it, written as `kmalloc` and
`kfree` write them. Its invariant says that the words are the image of a `Pool`: a set of blocks
that tiles the region, the blocks in use, and the order of the free list. What the allocator
promises (exact failure, disjointness, full coalescing, any order of frees) is proved about the
pool.

**Frames and page tables** (`Paging.dfy`, `EntryBits.dfy`, `Tables.dfy`, `Vmm.dfy`, `FrameRuns.dfy`,
`PoolRuns.dfy`, `Boot.dfy`). `VirtualMemory.Vmm` keeps the
frame database, the free list threaded through it, and physical memory as frame to 512 entries.
The joint invariant says that free frames, page tables, frames mapped in the pool and reserved
frames are pairwise disjoint, and that the tables form a tree without sharing. `Tables` counts the
tables that a mapping lacks, which decides exactly when an allocation succeeds; `FrameRuns` and
`PoolRuns` speak of all runs; `EntryBits` shows that the bit operations of the C code on 64-bit
words are the operations on the model's entry records. `Boot.dfy` has the
bootloader's tables, from which that invariant starts, and its ELF loader. The walk follows 4-level
paging, section 4.5 of volume 3A of the Intel Software Developer's Manual.

**FAT32 image builder** (`Fat32Format.dfy`, `Fat32Chains.dfy`, `Fat32Builder.dfy`,
`Fat32RoundTrip.dfy`, `Fat32Calls.dfy`). `Fat32Builder.Builder` is the Python class; `Fat32Reader`
is an independent reader written from the Microsoft FAT32 File System Specification 1.03, sections
"Boot Sector and BPB", "FAT Data Structure" and "FAT Directory Structure". The main result,
`Fat32Calls.Build`, says that the reader finds the tree that any fitting sequence of calls
describes.

**Scheduler** (`SchedPlaces.dfy`, `SchedSpec.dfy`, `SchedSafety.dfy`, `SchedRuns.dfy`,
`SchedRealtime.dfy`, `SchedLimits.dfy`, `SchedLinks.dfy`, `Sched.dfy`). `SchedSpec` is a state
machine on lists of threads; `SchedSafety` proves that each operation keeps its invariant,
`SchedLimits` which calls break it, and `SchedRuns` and `SchedRealtime` prove statements about all
runs. `Sched.Scheduler` has the next and prev fields, heads and tails of the original, and each of
its methods is proved to take the step of the state machine. Step 5 of `sched_tick` is a step of its own, since it runs only when a thread that step 4
switched away from runs again.

**Rings** (`Rings.dfy`). The message ring of the GUI channel, the event log of the panel manager,
and the queue of deferred procedure calls, each against a sequence.

Check everything with `dafny verify dfyconfig.toml`.

Where the code and its own documentation disagree, the code is modelled:

- `kmalloc` is documented as 16-byte aligned (`kernel/mm/heap.h:21`), which fails already for the
  second request on a new heap (`HeapPool.SecondPointerMisaligned`): every length it cuts off is an
  odd number of 8-byte words. `HeapPool.AlignedIff` says exactly when a pointer is aligned.
- A request above 2^64 - 32 bytes wraps around and is granted a block that is too small
  (`HeapPool.HugeRequestGranted`); `HeapPool.TakeGrants` says that a block granted holds the request
  exactly up to that size.
- The comment at `kernel/sched/sched.c:321` says that a thread is demoted; line 322 raises its
  priority number (`SchedRuns.SliceEndRaises`).
- `sched_init` leaves the idle thread both running and in queue 0 (`SchedLimits.StartIff`), and
  several public calls break the lists for some callers; `SchedLimits.AllowedIff` says for which.
- `vmm_map_page` on the path of a 2 MB page takes the data of that page for a table
  (`Paging.MappedOverTranslates`; `BootTables.BootMapLoses` for an address below 8 GB), and
  `vmm_free_physical` breaks the free list when it is given a free frame (`Frames.DoubleFree`).
- `vmm_alloc_pages` does not take back what it mapped when a page table cannot be made
  (`kernel/mm/vmm.c:317-320`; `BootTables.BootAbandons` for an input). `PoolRuns.AheadIff` says
  exactly for which calls, and `PoolRuns.RunRestores` what holds in runs without them.
- `build_disk` cannot write a disk that is full or has one cluster left, since the free count it
  packs for FSInfo is negative then (`scripts/build_disk.py:173`; `Fat32Calls.SmallestDiskFails`).
- A message with a zero byte in it is cut there when it is flushed; `GuiIpc.WholeUnlessZero` says
  exactly when lines come out whole.
- A log entry without a source keeps the source of the entry that its slot held before
  (`services/panelmgr/panelmgr.c:60-61`).

## Model

| member | source | states |
|---|---|---|
| HeapPool.RequestCovered | kernel/mm/heap.c:126-128 | The rounded size (with 64-bit wrap-around) covers the request, with less than one alignment unit to spare, if and only if the request is at most 2^64 - 32 bytes |
| HeapPool.FreshValid | kernel/mm/heap.c:98-117 | The pool made by initialisation satisfies the pool invariant: one free block that is the whole region |
| HeapPool.TilesExactly | kernel/mm/heap.c:69-76 | In every valid pool each word of the region lies in exactly one block |
| HeapPool.TakeValid | kernel/mm/heap.c:136-160 | Taking a free block, split or whole, keeps the invariant: blocks tile the region without gap, each has at least 40 bytes, no two free blocks touch, and the free list holds each free block once |
| HeapPool.TakeGrants | kernel/mm/heap.c:126-160 | A granted block was not in use, has at least the rounded need and less than 40 bytes more, holds the request if and only if that is at most 2^64 - 32 bytes, and no word of it belongs to another block in use, all of which keep their place and size |
| HeapPool.FreeRunInOneBlock | kernel/mm/heap.c:182-199 | Any contiguous run of free words lies inside one free block, because everything is coalesced |
| HeapPool.FitIffRun | kernel/mm/heap.c:130-166 | First fit finds a block if and only if some contiguous run of free words is as long as the need |
| HeapPool.GiveValid | kernel/mm/heap.c:178-201 | Freeing a block, with both merges, keeps the pool invariant |
| HeapPool.GiveReleases | kernel/mm/heap.c:178-201 | After a free exactly the words of the freed block have become free |
| HeapPool.GiveKeepsLive | kernel/mm/heap.c:178-201 | A free leaves every other live block where it was, with its size |
| HeapPool.AllFreedIsFresh | kernel/mm/heap.c:182-201 | A valid pool with nothing in use is the pool of initialisation: one block of the original size |
| HeapPool.StepValid | kernel/mm/heap.c:122-202 | Every call of kmalloc or kfree keeps the pool invariant |
| HeapPool.Reached | kernel/mm/heap.c:98-202 | After every sequence of calls from initialisation the pool is valid, over the same region |
| HeapPool.FreeAllAnyOrder | kernel/mm/heap.c:172-202 | Freeing all live blocks, in any order, ends in the pool of initialisation |
| HeapPool.AlignedIff | kernel/mm/heap.c:126-160 | A block's user area is 16-byte aligned if and only if the number of blocks of odd length (in 8-byte words) in front of it has the parity of the region's first word; Kmalloc states this for the pointer it returns |
| HeapPool.NeedIsOdd | kernel/mm/heap.c:126-128 | Every length that kmalloc cuts off is an odd number of words, so each allocation shifts the alignment of what follows |
| HeapPool.CutsFromStart | kernel/mm/heap.c:122-160 | While a new heap only gets requests that leave a rest, the next pointer is aligned exactly if base plus the number of requests is even: every second pointer is misaligned |
| HeapPool.SecondPointerMisaligned | kernel/mm/heap.c:126-160 | On a 16-byte aligned pool of 800 bytes the second kmalloc(1) returns a pointer that is 8 modulo 16 |
| HeapPool.HugeRequestGranted | kernel/mm/heap.c:126-160 | On a new heap of 800 bytes a request for 2^64 - 1 bytes is granted a block of 40 bytes |
| HeapImage.InsertedLinks | kernel/mm/heap.c:78-84 | The four writes of free_list_insert put the block in front of the doubly linked list that is threaded through the free blocks |
| HeapImage.RemovedLinks | kernel/mm/heap.c:86-93 | The writes of free_list_remove take exactly that block out of the linked list, wherever it stands, and clear its links |
| HeapImage.CarveLemma | kernel/mm/heap.c:137-156 | The words written by kmalloc turn the memory image of the pool into the image of the pool after the allocation, and change no word of a live block |
| HeapImage.FoundedImage | kernel/mm/heap.c:101-115 | The header and footer that kheap_init writes are the image of the initial pool |
| HeapImage.AbsorbNextImage | kernel/mm/heap.c:182-188 | Merging with the next block keeps header and footer of the merged block equal and the list intact |
| HeapImage.AbsorbPrevImage | kernel/mm/heap.c:190-199 | Merging with the previous block, found through its footer, does so too |
| HeapImage.PrevHeader | kernel/mm/heap.c:73-76 | The word before a block is the footer of the block before it, so prev_block finds that block |
| HeapImage.KmallocKeepsLive | kernel/mm/heap.c:122-167 | kmalloc changes no word of any live allocation |
| HeapImage.KfreeKeepsLive | kernel/mm/heap.c:172-202 | kfree changes no word of any live allocation but the one that is freed |
| HeapImage.OutsidePoolKept | kernel/mm/heap.c:122-202 | Neither writes a word outside the pool |
| HeapImage.UserWriteIff | kernel/mm/heap.c:158-160 | A write into a block in use keeps the image of the pool if and only if it leaves the header and footer words as they are: the holder may do as it likes with its user area |
| KernelHeap.Heap.FreeListInsert | kernel/mm/heap.c:78-84 | Memory and list head after the call are exactly those of the insertion that InsertedLinks is about |
| KernelHeap.Heap.FreeListRemove | kernel/mm/heap.c:86-93 | Memory and list head after the call are exactly those of the removal that RemovedLinks is about |
| KernelHeap.Heap.Init | kernel/mm/heap.c:98-117 | Refuses a null base or a region below 160 bytes and changes nothing; else memory is the image of one free block, and words outside the region are kept |
| KernelHeap.Heap.Search | kernel/mm/heap.c:130-164 | The walk through the links in memory returns the first block of the free list that is large enough, or 0 when there is none |
| KernelHeap.Heap.Kmalloc | kernel/mm/heap.c:122-167 | Keeps the image invariant; NULL exactly for size 0, no heap, or no contiguous free run of the rounded need; else an 8-byte aligned pointer to the first fit, 16-byte aligned exactly as AlignedIff says, with all that TakeGrants says; live words are unchanged, and on NULL nothing changes |
| KernelHeap.Heap.UserWrite | kernel/mm/heap.c:158-160 | Writing any word of the user area of a live block keeps the image invariant and the pool |
| KernelHeap.Heap.CoalesceNext | kernel/mm/heap.c:183-188 | The forward merge in memory is the forward merge of the pool |
| KernelHeap.Heap.CoalescePrev | kernel/mm/heap.c:190-199 | The backward merge in memory is the backward merge of the pool |
| KernelHeap.Heap.Kfree | kernel/mm/heap.c:172-202 | Keeps the image invariant; NULL, a block that is already free, and any pointer behind a word that is no used header are left alone; else the pool is that after the free, and only words of free blocks and of the freed one change |
| Paging.EntryWordInjective | kernel/mm/vmm.h:62-81 | The record of fields used for a page-table entry loses nothing: entries that fit 64 bits and differ stand for different words |
| EntryBits.LeafWord | kernel/mm/vmm.c:224-224 | (pa & PAGE_MASK_4K) | flags | PTE_PRESENT is the word of the entry record that the model writes, for every pa below 2^52 |
| EntryBits.TableWord | kernel/mm/vmm.c:193-193 | The word written for a new table is that of the record the model writes |
| EntryBits.LargeWord | bootloader/main.c:288-313 | base | 0x83 is the word of a present, writable 2 MB entry |
| EntryBits.PhysAddr | kernel/mm/vmm.h:81-81 | PTE_PHYS_ADDR of an entry's word is the address of its frame |
| EntryBits.FlagTests | kernel/mm/vmm.c:261-271 | The tests of PTE_PRESENT and PTE_HUGE on the word read these flags of the record |
| EntryBits.ClearHuge | kernel/mm/vmm.c:219-219 | &= ~PTE_HUGE clears that flag of the record and keeps every other bit |
| Paging.SamePageIff | kernel/mm/vmm.h:23-29 | Addresses go through the same four table slots exactly when their page numbers agree modulo 2^36 |
| Paging.SamePageCanonical | kernel/mm/vmm.h:23-29 | For canonical addresses this means that they lie in the same 4 KB page |
| Paging.WalkOwned | kernel/mm/vmm.c:255-274 | In a tree of unshared tables the walk for an address meets only tables that stand on its own path |
| Paging.LinkTranslates | kernel/mm/vmm.c:189-216 | Hanging a zeroed frame into an empty slot changes no translation |
| Paging.LeafTranslates | kernel/mm/vmm.c:223-229 | Writing one last-level entry changes the translation of exactly the addresses of that page |
| Paging.LargeReread | kernel/mm/vmm.c:217-221 | Clearing the flag of a 2 MB page makes its data a table: an address of that page keeps its translation if and only if the data word for it is an entry for that very frame, and all other addresses keep theirs |
| Paging.MappedOverTranslates | kernel/mm/vmm.c:217-224 | The whole of map_page at a 2 MB page whose first frame is memory and no table: the page of va goes to the new frame, every other address of the 2 MB where the data of the page says, and the rest keeps its translation |
| Frames.ChaseVisitsFree | kernel/mm/vmm.c:140-170 | Following next_free from the head visits exactly the frames whose state is free, once each, and then ends |
| Frames.PopFree | kernel/mm/vmm.c:140-155 | Taking the head keeps the list, and the head is a free frame other than 0 |
| Frames.PushFree | kernel/mm/vmm.c:160-170 | Pushing a frame that is not free keeps the list |
| Frames.DoubleFree | kernel/mm/vmm.c:160-170 | After a frame that is free already is pushed again, no list of the free frames fits the counter |
| MemoryMap.ReservedNotFree | kernel/mm/vmm.c:109-125 | No byte below 1 MB, and no byte in one of the first ceil(size / 4096) frames of the kernel image or of the frame database, lies in a frame that is free at first; page-aligned regions have all their bytes in these frames |
| MemoryMap.AlignedInFirst | kernel/mm/vmm.c:115-123 | Every byte of a page-aligned region is in these first frames |
| MemoryMap.KernelMarkedIff | kernel/mm/vmm.c:115-118 | The frame of a byte of the kernel image is marked if and only if it is one of the first ceil(size / 4096): the count ignores where in its first page the image starts |
| FrameRuns.Run | kernel/mm/vmm.c:140-170 | Over every run of allocations and of frees of frames held, the frames handed out and the free ones are disjoint and together are the frames free at first, so that no frame has two holders; and each allocation returns 0 if and only if all of these frames were held then |
| FrameRuns.RunFromBoot | kernel/mm/vmm.c:45-170 | From initialisation on the frames handed out and free are together those that the memory map and the reservations leave free, each allocation fails exactly when all of these are held, and no frame with a byte as in ReservedNotFree is ever handed out |
| MemoryMap.FreeIsConventional | kernel/mm/vmm.c:92-107 | A frame is free at first only if the last region of the memory map that covers it is conventional memory |
| MemoryMap.MaxPhysIs | kernel/mm/vmm.c:53-57 | The value of the loop bounds the end of every region and is the end of one, or 0 with no region |
| MemoryMap.DbBaseIs | kernel/mm/vmm.c:69-77 | The search gives the first conventional region that can hold the database, or 0 when there is none |
| VirtualMemory.Vmm.FindMaxPhys | kernel/mm/vmm.c:53-57 | Returns the highest end of a region |
| VirtualMemory.Vmm.FindDbBase | kernel/mm/vmm.c:69-77 | Returns the start of the first conventional region that can hold the database, or 0 when there is none |
| VirtualMemory.Vmm.Classify | kernel/mm/vmm.c:85-107 | Every frame gets the state of the last region that covers it, or bad |
| VirtualMemory.Vmm.BuildFreeList | kernel/mm/vmm.c:127-134 | The list built is that of the free frames other than 0, highest first, and the counter is its length |
| VirtualMemory.Vmm.PfnDatabaseInit | kernel/mm/vmm.c:45-135 | On any memory map of fewer than 2^32 frames the free list is threaded through exactly the free frames, and each frame has the state the map and the reservations give it |
| VirtualMemory.Vmm.AllocPhysical | kernel/mm/vmm.c:140-155 | Last in first out: returns the head of the list, zeroed, and 0 exactly when the list is empty; no other frame changes |
| VirtualMemory.Vmm.FreePhysical | kernel/mm/vmm.c:160-170 | A frame with one reference goes to the front of the list; a shared one loses a reference; frame 0 and frames out of range are ignored. The list stays intact if and only if the frame was not free already |
| VirtualMemory.Vmm.Descend | kernel/mm/vmm.c:189-221 | One level of the walk: the table behind a slot, made from a free frame if missing; fails exactly when one is missing and no frame is left; takes exactly the frames missing |
| VirtualMemory.Vmm.Walk | kernel/mm/vmm.c:181-221 | The three levels together take one free frame for each table missing on the path, and fail exactly when there are fewer free frames than that, with none left |
| VirtualMemory.Vmm.MapPage | kernel/mm/vmm.c:181-230 | With no 2 MB page on the path: succeeds exactly when the free frames suffice for the tables missing, and takes just these; on success exactly the page of va is translated anew, to the frame of pa plus the offset; a failed call changes no translation; the tables stay an unshared tree apart from the free frames. With a 2 MB page there: always reports success, takes no frame, and memory is that of MappedOver |
| VirtualMemory.Vmm.UnmapPage | kernel/mm/vmm.c:235-250 | Exactly the page of va loses its translation; with a 2 MB page on the path a word of its data is cleared, and nothing else changes |
| Spaces.UnmapUndoesMap | kernel/mm/vmm.c:181-250 | For a page that was not mapped, unmapping after mapping restores every translation |
| VirtualMemory.Vmm.VirtToPhys | kernel/mm/vmm.c:255-274 | The walk in memory is the translation function |
| VirtualMemory.Vmm.ReleasePage | kernel/mm/vmm.c:309-312 | The page is unmapped and its frame, if it had one, is back in front of the free list |
| VirtualMemory.Vmm.FreePages | kernel/mm/vmm.c:330-338 | Exactly the pages of the run lose their translation, and the frames that backed them are back on the free list |
| Spaces.ReleaseGivesBack | kernel/mm/vmm.c:297-338 | Freeing a run after its successful allocation gives back all n frames, so that only tables made on the way stay allocated |
| VirtualMemory.Vmm.AllocPages | kernel/mm/vmm.c:297-325 | Refused exactly for n = 0, no tables, or fewer than n free frames. Succeeds exactly when the free frames suffice for the n pages and all tables missing on their paths, and takes exactly that many; then n consecutive pages are backed by n different frames that were free, and no other translation and no live frame changes. Runs out, and is rolled back, exactly when the frames end just before a page; stops within tables, with pages left mapped, exactly when StopsWithin holds of the state before, and only then does the pool ahead not stay unused |
| VirtualMemory.Vmm.BackPages | kernel/mm/vmm.c:304-322 | The loop backs all pages exactly when the frames suffice; else it stops with 0 frames left before a page or 1 left within its tables, at the page where the demand passes what was there |
| Tables.DemandNext | kernel/mm/vmm.c:189-229 | After some pages of a run are backed, what the next one still takes is its own frame and the tables missing on its path now |
| Tables.StepTables | kernel/mm/vmm.c:189-216 | Making one missing table makes exactly that table present and no other |
| Tables.Abandoned | kernel/mm/vmm.c:304-322 | Of a run that is not backed, the frames are used up before a page or within its tables, and pages stay mapped exactly when the frames suffice for the first page, not for all, and do not end just before a page |
| Spaces.RestoresIff | kernel/mm/vmm.c:306-314 | After the roll-back every translation is as before the call if and only if no page of the run that was mapped had been translated before |
| BootTables.PoolUnusedAtBoot | bootloader/main.c:262-318 | In the boot tree nothing is translated in the pool region |
| PoolRuns.Run | kernel/mm/vmm.c:297-338 | Any calls of allocation and release in the pool region: the trace returned starts in the state before, ends in the state after, and each step of it, with the address returned, is what the call does to memory, tables, free frames and the pool pointer |
| PoolRuns.AheadIff | kernel/mm/vmm.c:297-338 | A call leaves the pool ahead unused if and only if it is not an allocation whose state before is one of StopsWithin; one that runs out of frames leaves every translation as it was |
| PoolRuns.RunRestores | kernel/mm/vmm.c:297-338 | So over every traced run in which no allocation meets such a state, the pool ahead stays unused, and each allocation that runs out of frames leaves every translation as it was |
| BootTables.BootAbandons | kernel/mm/vmm.c:304-322 | On the bootloader's tables 512 pages take 514 frames and 513 take 516, so that a call for 515 pages with 515 free frames fails with 512 pages left mapped |
| BootTables.BootLarge | bootloader/main.c:281-290 | Every address below 8 GB lies in a 2 MB page of the bootloader's tables |
| BootTables.BootMapLoses | kernel/mm/vmm.c:217-224 | Mapping one page of it takes its translation from every other page of the same 2 MB for which the first 4 KB there hold no present entry |
| Spaces.RunBackedGrew | kernel/mm/vmm.c:304-322 | Tables made later, from frames still free, change nothing about the pages a run has backed: they stay mapped to their frames, and no other translation is touched |
| Spaces.TakeFrame | kernel/mm/vmm.c:146-154 | Zeroing the allocated frame touches no table and no mapped frame, because free frames, tables, mapped frames and reserved frames are disjoint |
| Spaces.NoFrameTwice | kernel/mm/vmm.c:297-325 | Two page-aligned pool addresses with the same non-zero translation are the same page: no frame backs two live pages |
| VirtualMemory.Vmm.Init | kernel/mm/vmm.c:279-292 | From the boot tree the joint invariant holds: free frames, tables and mapped frames are pairwise disjoint and no frame backs two pages. All the methods above keep it |
| BootTables.FillDirectory | bootloader/main.c:281-290 | A directory filled with 2 MB pages at consecutive addresses |
| BootTables.SetupKernelPageTables | bootloader/main.c:262-318 | The twelve pages hold exactly the entries meant, and no other memory changes |
| BootTables.IdentityMap | bootloader/main.c:273-290 | Every address below 8 GB translates to itself |
| BootTables.KernelMap | bootloader/main.c:300-315 | Every address of the kernel's gigabyte translates to low memory for its first 2 MB and else to the load base plus its offset |
| BootTables.NothingElseMapped | bootloader/main.c:273-315 | With the framebuffer below 8 GB no other canonical address is mapped |
| BootTables.BootTree | bootloader/main.c:262-315 | With the framebuffer below 8 GB these tables are the unshared tree that the memory manager starts from |
| Loader.FindBounds | bootloader/main.c:164-172 | The bounds returned contain every loadable segment, and each is attained by one |
| Loader.BoundsHold | bootloader/main.c:164-172 | Every loadable segment lies within these bounds |
| Loader.LowestIs | bootloader/main.c:164-172 | The lower bound is the address of a loadable segment, or 2^64 - 1 |
| Loader.HighestIs | bootloader/main.c:164-172 | The upper bound is the end of a loadable segment, or 0 |
| Loader.LoadableIff | bootloader/main.c:164-175 | The test lowest < highest holds if and only if some loadable segment begins below the end of some loadable segment |
| Loader.CopySegments | bootloader/main.c:212-224 | After the loop every byte of memory is that of the last segment whose file part goes over it, or as before, for any segments, overlapping or not, whose file parts are in the file and land in memory |
| Loader.LoadKernel | bootloader/main.c:163-228 | Fails exactly when no loadable segment begins below the end of one (there are none, or only empty ones at one address), and then changes nothing; else every byte is that of the last segment that goes over it, a zero in the rest of the image, or as before. For segments as the ELF specification wants them every byte of every segment is in place, and nothing outside the allocated pages changes |
| Loader.KernelByteAtVirtualAddress | bootloader/main.c:163-317 | Loader and page tables agree in one memory: with the image and the twelve tables in disjoint pages of the same memory, the byte at any virtual address of a segment, through the tables built, is the ELF file's byte for it, or zero past the file part |
| DirEntries.EntryReads | scripts/build_disk.py:82-95 | A reader of the 32 bytes finds the name, attribute, first cluster and size that were written |
| DirEntries.NameRoundTrip | scripts/build_disk.py:84-90 | A valid 8.3 name is shown again by a reader, in upper case |
| Fat32Layout.FatHasRoom | scripts/build_disk.py:29-39 | For every disk size with a valid layout the FAT region has room for all total_clusters + 2 entries |
| Fat32Chains.ChainIncreasing | scripts/build_disk.py:52-80 | Along every chain the cluster numbers rise, so chains are finite |
| Fat32Chains.ChainsDisjoint | scripts/build_disk.py:52-80 | No cluster is in two chains, or twice in one |
| Fat32Chains.ChainsCover | scripts/build_disk.py:38-56 | The chains cover exactly clusters 2 to next_free_cluster - 1; the FAT entry of each leads to the next of its chain, or is the end mark; every later FAT entry is 0 |
| Fat32Chains.OpenedSound | scripts/build_disk.py:52-56 | Starting a chain keeps all of this |
| Fat32Chains.ExtendedSound | scripts/build_disk.py:74-76 | Growing a chain at its end does too |
| Fat32Chains.AppendedSound | scripts/build_disk.py:67-71 | Appending bytes within the last cluster keeps what each chain holds, and adds the bytes to one |
| Fat32Builder.Builder.constructor | scripts/build_disk.py:21-45 | An empty root directory satisfies the invariant |
| Fat32Builder.Builder.AllocateCluster | scripts/build_disk.py:52-56 | The next cluster in order, marked as the end of a chain |
| Fat32Builder.Builder.WriteFile | scripts/build_disk.py:58-80 | The data is in a new chain of ceil(len/512) clusters, and all other chains are as before; empty data takes no cluster |
| Fat32Builder.Builder.FreeSlot | scripts/build_disk.py:119-120 | The first free 32-byte slot of a cluster, or none |
| Fat32Builder.Builder.ScanCluster | scripts/build_disk.py:117-123 | The free slot found is the one right behind the entries that are there |
| Fat32Builder.Builder.NextCluster | scripts/build_disk.py:124-129 | The next cluster of the chain; the chain grows by one exactly at its end |
| Fat32Builder.Builder.AddEntryToDir | scripts/build_disk.py:115-129 | The entry is appended to the directory's content; a cluster is taken exactly when the directory was full |
| Fat32Builder.Builder.AddFile | scripts/build_disk.py:110-113 | The directory lists the file last, no other directory changes, and exactly the clusters needed are taken |
| Fat32Builder.Builder.NewDirectory | scripts/build_disk.py:98-104 | A new empty directory at the next cluster |
| Fat32Builder.Builder.AddDirectory | scripts/build_disk.py:97-108 | The parent lists the new directory last, and exactly the clusters needed are taken |
| Fat32Builder.Builder.BootSector | scripts/build_disk.py:136-165 | Every field of the boot sector, the signature, and zero in all bytes between |
| Fat32Builder.Builder.FsInfoSector | scripts/build_disk.py:170-176 | Both signatures, the free count and the next free cluster as given, and zero elsewhere |
| Fat32Builder.Builder.FatBytes | scripts/build_disk.py:182-186 | Each FAT entry in its four bytes, zeros behind, and none dropped |
| Fat32Builder.Builder.DataBytes | scripts/build_disk.py:191-196 | The clusters from 2 on in order, zeros for those never touched |
| Fat32Builder.Builder.BuildDisk | scripts/build_disk.py:131-202 | Succeeds exactly when next_free_cluster is at most total_clusters, since packing a negative free count fails; then the image has exactly total_sectors * 512 bytes, the boot and FSInfo sectors, two equal FATs, and cluster c at sector data_start + c - 2 |
| Fat32RoundTrip.ChainRead | scripts/build_disk.py:58-80 | Following the FAT in the image gives the chain that was built |
| Fat32RoundTrip.FileRead | scripts/build_disk.py:110-113 | Reading a file's chain cut to its size gives the data that was added |
| Fat32RoundTrip.DirectoryRead | scripts/build_disk.py:97-129 | Reading a directory's chain, without the two dot entries, gives its entries in the order they were added, however many clusters it spans |
| Fat32RoundTrip.RoundTrip | scripts/build_disk.py:131-202 | An independent reader run on the image finds the whole tree of directories and files |
| Fat32EndToEnd.BuiltDiskReadsBack | scripts/build_disk.py:97-202 | So it does for the image of any builder state |
| Fat32Calls.SameTree | scripts/build_disk.py:97-113 | The tree in terms of clusters is the tree that the calls describe, in which no cluster numbers occur |
| Fat32Calls.ShownAsNamed | scripts/build_disk.py:84-90 | For valid 8.3 names the tree a reader shows has the names given to the calls, in upper case |
| Fat32Calls.Build | scripts/build_disk.py:97-202 | For every sequence of add_directory and add_file calls that fits: the build fails exactly when the next free cluster after the calls exceeds total_clusters, and else the reader finds exactly the tree the calls describe, in their order; with valid 8.3 names it shows the names of the calls in upper case |
| Fat32Calls.SmallestDiskFails | scripts/build_disk.py:170-176 | A disk of 35 sectors, which has one cluster, cannot be built even without any call |
| SchedPlaces.Join | kernel/sched/sched.c:68-88 | A thread outside the lists that joins one list leaves every thread in exactly one place |
| SchedPlaces.Leave | kernel/sched/sched.c:90-111 | So does a thread that leaves its list |
| SchedLinks.PushBackOk | kernel/sched/sched.c:68-77 | The writes of queue_push_back append the thread to the list spelled out by the links, and touch no thread outside it |
| SchedLinks.PushFrontOk | kernel/sched/sched.c:79-88 | Those of queue_push_front put it in front |
| SchedLinks.RemoveOk | kernel/sched/sched.c:104-111 | Those of queue_remove take a thread out of the middle, clear its links, and touch no thread outside the list |
| SchedLinks.StackInsertOk | kernel/sched/sched.c:253-254 | Those of the sleep list put a thread behind another one |
| SchedLinks.Joined | kernel/sched/sched.c:68-88 | All lists, which share the next and prev fields, stay acyclic, disjoint and linked when a thread joins one |
| SchedLinks.Left | kernel/sched/sched.c:90-111 | And when a thread leaves one |
| SchedSafety.YieldPicks | kernel/sched/sched.c:359-384 | sched_yield always finds a thread, the head of the highest queue that has one, and never falls back on the idle thread |
| SchedSafety.SleepIndexIs | kernel/sched/sched.c:243-255 | The sorted insertion puts a sleeper behind exactly those due no later than it |
| SchedSafety.WakesExactlyDue | kernel/sched/sched.c:267-279 | A tick wakes exactly the sleepers that are due, with the boosted priority and slice, though it only looks at the head of the list |
| SchedSafety.WatchGood | kernel/sched/sched.c:538-561 | The watchdog keeps the invariant and changes only missed marks, and priorities to HIGH |
| SchedSafety.WatchMarks | kernel/sched/sched.c:538-561 | Exactly the live REALTIME threads with a deadline are marked, as missed if and only if the deadline is over; a thread loses its priority only in the pass that first notices its miss; no other thread changes |
| SchedSafety.EveryNthMissDrops | kernel/sched/sched.c:538-561 | While no watched thread is in time, misses carried in and newly noticed are those carried out plus the limit for each thread dropped: every limit-th miss in a row costs a thread its priority, where a limit of 0 acts like 1 |
| SchedSafety.RescueGood | kernel/sched/sched.c:340-350 | Taking a starving thread out of the middle of a queue leaves the threads behind it where they were, so the sweep goes on with the right one |
| SchedSafety.SweepMovesTheStarving | kernel/sched/sched.c:336-352 | The sweep moves exactly the threads of queues LOW and NORMAL that did not run for more than 500 ticks, each to the queue of its base priority with a fresh slice |
| SchedSafety.CreateFails | kernel/sched/sched.c:166-177 | The thread counter is below 128 exactly when a slot is free |
| SchedSafety.TickInv | kernel/sched/sched.c:264-334 | A tick keeps the invariant |
| SchedSafety.SweepInv | kernel/sched/sched.c:336-352 | The sweep keeps it |
| SchedSafety.UnlockInv | kernel/sched/sched.c:506-527 | kmutex_unlock keeps it |
| SchedLimits.StartIff | kernel/sched/sched.c:127-153 | With the idle thread running, the initial state is consistent if and only if queue 0 is empty; sched_init leaves the idle thread in it |
| SchedLimits.AllowedIff | kernel/sched/sched.c:236-527 | A call keeps the invariant if and only if it is none of these: the idle thread sleeps, blocks or exits; a thread locks a mutex it holds, or exits holding one; a live thread gets, or is created with, priority ISR; a running thread calls sched_yield while another is ready |
| SchedRuns.RunInv | kernel/sched/sched.c:236-527 | After every run of ticks, sweeps, yields, sleeps, exits, creations, locks, unlocks and priority changes that AllowedIff admits the invariant holds |
| SchedRuns.OnePlaceEach | kernel/sched/sched.c:68-111 | In every such state each live thread is in exactly one place, the one its state names: current, one ready queue, the sleep list or one wait list; no list holds a thread twice |
| SchedRuns.CreateUsesAFreeSlot | kernel/sched/sched.c:163-230 | Creation fails exactly when all slots hold live threads; else a fresh thread stands at the back of its queue and nothing else changes |
| SchedRuns.SleepIsExact | kernel/sched/sched.c:236-279 | Over every run, a thread that sleeps ms ticks is asleep until max(ms, 1) ticks have come, and the tick that completes them makes it ready (and perhaps runs it) |
| SchedRuns.RunsItsSlice | kernel/sched/sched.c:287-334 | While ticks are all that happens, the running thread runs on for its slice, whoever is woken meanwhile |
| SchedRuns.SliceEnds | kernel/sched/sched.c:287-334 | The tick that ends a slice puts the thread at the back of its queue with a fresh slice; it runs on only if every other ready thread is in a lower queue |
| SchedRuns.SliceEndRaises | kernel/sched/sched.c:287-334 | Step 4 never lowers a priority: it raises that of the running thread by one exactly when its slice ends below NORMAL, and leaves all others |
| SchedRuns.TickPriority | kernel/sched/sched.c:264-334 | A tick raises the running thread's priority exactly then, and lowers it only for a REALTIME thread, to HIGH, whose deadline is over at this tick and was not marked as missed before |
| SchedRuns.UnlockHandsOver | kernel/sched/sched.c:506-527 | Unlock by the owner hands the mutex to the first waiter, which becomes ready in front of its queue, without the mutex being free in between; with no waiter it becomes free; by anyone else it does nothing |
| SchedRuns.LockTakesOrWaits | kernel/sched/sched.c:484-504 | A free mutex is taken at once; else the caller waits in front of the other waiters, and the owner's priority is at least the caller's |
| SchedRuns.OwnerStep | kernel/sched/sched.c:477-527 | An owner stays the owner until it unlocks |
| SchedRuns.BlockedStep | kernel/sched/sched.c:498-527 | A blocked thread stays blocked on its mutex until an unlock makes it the owner |
| SchedRuns.WaiterBecomesOwner | kernel/sched/sched.c:484-527 | Over every run, a thread that was blocked on a mutex and no longer is was its owner on the way: no waiter is lost |
| SchedRealtime.WaitStep | kernel/sched/sched.c:236-527 | A calm step never lengthens the wait of a REALTIME thread, and a tick shortens it |
| SchedRealtime.RealtimeRunsInTime | kernel/sched/sched.c:287-384 | Bounded waiting: while nothing is put in front of the REALTIME queue and no slice there is raised, a thread in it runs before more ticks have come than the sum of max(1, slice) over the running thread and the threads in front of it |
| Sched.Scheduler.PushBack | kernel/sched/sched.c:68-77 | The pointer writes refine appending to a list of the state machine, and all lists stay linked |
| Sched.Scheduler.PushFront | kernel/sched/sched.c:79-88 | The same for the front |
| Sched.Scheduler.PopFront | kernel/sched/sched.c:90-102 | The same for taking the head; NIL exactly when the queue is empty |
| Sched.Scheduler.Remove | kernel/sched/sched.c:104-111 | The same for removal in the middle |
| Sched.Scheduler.Yield | kernel/sched/sched.c:359-384 | The loop over the queues, the early return and the fall-back on the idle thread refine the state machine's yield, from any state; the lists stay linked unless the idle thread has to run while it stands in one |
| Sched.Scheduler.SleepInsert | kernel/sched/sched.c:243-255 | The loop over the links refines the sorted insertion |
| Sched.Scheduler.Sleep | kernel/sched/sched.c:236-258 | Refines the state machine's sleep for every caller; invariant and links hold afterwards if and only if AllowedIff admits the call |
| Sched.Scheduler.WakeDue | kernel/sched/sched.c:267-279 | The wake-up loop refines that of the state machine |
| Sched.Scheduler.WatchdogTick | kernel/sched/sched.c:538-561 | The same for the watchdog loop |
| Sched.Scheduler.Preempt | kernel/sched/sched.c:287-334 | The three branches on the running thread's priority refine one rule |
| Sched.Scheduler.Tick | kernel/sched/sched.c:264-334 | Steps 1 to 4 refine the state machine's tick and keep the invariant with all links |
| Sched.Scheduler.SweepOne | kernel/sched/sched.c:339-350 | The loop with the saved next pointer visits every thread of the queue once, though it removes threads on the way |
| Sched.Scheduler.Sweep | kernel/sched/sched.c:336-352 | Refines the state machine's sweep |
| Sched.Scheduler.CreateThread | kernel/sched/sched.c:163-230 | Refines the state machine's creation for every caller and returns the slot used; invariant and links hold afterwards if and only if AllowedIff admits the call |
| Sched.Scheduler.ExitThread | kernel/sched/sched.c:390-396 | Refines the state machine's exit for every caller; invariant and links hold afterwards if and only if AllowedIff admits the call |
| Sched.Scheduler.LockMutex | kernel/sched/sched.c:484-504 | Refines the state machine's lock for every caller; invariant and links hold afterwards if and only if AllowedIff admits the call |
| Sched.Scheduler.UnlockMutex | kernel/sched/sched.c:506-527 | Refines the state machine's unlock |
| Sched.Scheduler.BoostThread | kernel/sched/sched.c:420-426 | Refines the state machine's boost for every caller; invariant and links hold afterwards if and only if AllowedIff admits the call |
| Sched.Scheduler.SetThreadDeadline | kernel/sched/sched.c:432-439 | Refines the state machine's deadline |
| Sched.Scheduler.SchedInit | kernel/sched/sched.c:127-153 | The state of sched_init, field by field and link by link: the idle thread runs and is also in queue 0, so the invariant does not hold |
| Sched.Scheduler.OffQueue | kernel/sched/sched.c:127-153 | With the idle thread off queue 0 invariant and links hold |
| GuiIpc.WholeUnlessZero | kernel/gui/gui_ipc.c:80-84 | A flush writes the held lines whole if and only if none of them contains a zero byte |
| GuiIpc.PushKeeps | kernel/gui/gui_ipc.c:91-103 | A push appends to what the ring holds, and a full ring gives up its oldest line |
| GuiIpc.IpcRing.Push | kernel/gui/gui_ipc.c:91-103 | Over every run the ring holds the last min(63, pushed) messages since the last flush, in order, each cut to 510 bytes and ended by a line feed |
| GuiIpc.IpcRing.Flush | kernel/gui/gui_ipc.c:106-111 | A flush writes exactly these lines in order, each up to its first zero byte, and empties the ring |
| EventLog.LogKeeps | services/panelmgr/panelmgr.c:49-56 | The ring goes on holding the last 256 entries in order |
| EventLog.PanelLog.Log | services/panelmgr/panelmgr.c:46-64 | One entry more; a missing source or message leaves that of the entry of 256 calls before in place |
| EventLog.PanelLog.GetLog | services/panelmgr/panelmgr.c:79-87 | The oldest entries held, in order, as many as fit, and nothing else of the output is touched |
| DpcQueue.DrainIsFifo | kernel/sched/sched.c:460-471 | Entries are processed in the order they were accepted, at most 8 in a drain and fewer only if the queue runs empty, whatever each run of a routine queues |
| DpcQueue.ProcessedInTime | kernel/sched/sched.c:451-471 | An entry accepted at place k is processed in drain number k / 8 + 1, whatever is queued meanwhile, from outside or by the routines, which may queue something else at each run |
| DpcQueue.Dpcs.Enqueue | kernel/sched/sched.c:451-458 | Appends, and drops exactly when 64 entries are pending |
| DpcQueue.Dpcs.DrainSome | kernel/sched/sched.c:460-471 | The drain loop, with routines that queue more, processes and leaves exactly what the queue specification says |

## Left out

- Heap: `s_free_bytes` is not modelled; it does not equal the sum over the free blocks (`kernel/mm/heap.c:151`, 157, 179).
- KernelHeap.Heap.Init: base and size are multiples of 8, as memory is modelled in 8-byte words, and base plus size plus 40 bytes stay below 2^64, so that `total_needed + HEAP_MIN_BLOCK` does not wrap. A second initialisation over live blocks is that of a new pool; nothing is said about the old blocks.
- KernelHeap.Heap.Kfree: a pointer that is not a multiple of 8, or behind a forged header (the magic number and the used flag, at a place where no block starts), is not modelled; the code would merge whatever stands there.
- VirtualMemory.Vmm.PfnDatabaseInit: memory maps of fewer than 2^32 frames, which is what the 32-bit frame numbers of the original can name; the database is an array of its own and not part of the modelled physical memory, and a database that could not be placed is an array without entries.
- VirtualMemory.Vmm.Descend: does not enter a 2 MB page; that case of the walk is the method WalkLarge.
- VirtualMemory.Vmm.Walk: the path of va holds no 2 MB page, as for Descend.
- VirtualMemory.Vmm.MapPage: pa is below 2^52 (bits above are not address bits of an entry), and flags carry no bit of 12 to 51, which the entry record cannot express. A write through a 2 MB page beyond the modelled memory is lost.
- VirtualMemory.Vmm.FreePages: the run lies in the pool region; elsewhere it would give back frames that vmm_alloc_pages never handed out, reserved ones among them.
- VirtualMemory.Vmm.ReleasePage: the page lies in the pool region, as for FreePages.
- VirtualMemory.Vmm.AllocPages: the run stays below page-directory-pointer slot 510, where the kernel's 2 MB pages begin; a call that is refused may name any run. That the pages mapped so far stay mapped when a table cannot be made is stated, not repaired.
- VirtualMemory.Vmm.BackPages: the run lies in the pool region, as for AllocPages.
- PoolRuns.Run: the runs released, and all runs asked for one after another, lie in the pool region, as for AllocPages and FreePages.
- FrameRuns.RunFromBoot: the kernel image and the database end below 2^44, the limit of 32-bit frame numbers.
- Vmm: physical memory is a value that the methods replace (frame to 512 entries); byte contents, caches, TLB invalidation and the CR3 register are not modelled.
- BootTables.BootTree: a framebuffer at 8 GB or above makes two slots share one directory (`bootloader/main.c:292-298`), so the tree is then not unshared; the identity map and the kernel map are proved for it all the same.
- Loader.LoadKernel: firmware calls, their errors, and the choice of the load address are parameters; every read delivers all its bytes, and a segment whose file part would land outside the modelled memory is not modelled.
- Fat32Builder.Builder.AddFile: a call for which no cluster is left raises an error in the original; here it is outside the precondition, which says exactly how many clusters are needed. The same holds for names that are not ASCII and for sizes of 4 GB and more.
- Fat32Builder.Builder.AddDirectory: the same for a call for which no cluster is left.
- Fat32Reader: skips the first two slots of a subdirectory, since the dot entries are written with blank names (`scripts/build_disk.py:85-88`), and ignores FSInfo, whose free count is 2 too low.
- Fat32: long names, attributes other than file and directory, time stamps, the El Torito and ISO writers, and the file system calls around the image are not modelled.
- SchedRuns.Start: runs begin with the idle thread off queue 0, where `sched_init` leaves it both running and in queue 0 (`kernel/sched/sched.c:145-152`); what runs from that state do is not modelled.
- SchedRuns.RunInv: runs of the calls that SchedLimits.AllowedIff admits; the other calls break the invariant, and nothing is proved about what follows them.
- Scheduler: tick counts, thread ids and counters do not wrap around; stacks, registers, names, processor affinity and the switch itself are not modelled; routines run by dpc_drain do not touch the scheduler.
- Sched.Scheduler.Tick: control blocks, links and queues are sequences that the methods replace slot by slot, with the link fields in a sequence of their own; aliasing of a control block is by its slot number.
- SchedRealtime.RealtimeRunsInTime: no claim is made that a ready thread stands in the queue of its current priority, that inheritance follows chains or lasts after a hand-over, or that a woken thread preempts; the code does none of these.
- Rings: the UART, the notification sent by panelmgr_log, time stamps, and the JSON text of the messages are not modelled; the rings are used by one caller at a time.
- The compositor, the applications, the user interface, the C# daemons, the firewall, the session guard, drivers and assembly are not modelled.
