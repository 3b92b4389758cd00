# A verified model of the os1 kernel's memory, scheduling and block layers

os1 is an x86_64 kernel in C++. This project models its hardest bookkeeping in Dafny and proves what
that bookkeeping is for. Objects the kernel updates in place are classes with `modifies` clauses;
loops stay loops with invariants; pure checks are functions.

**Memory.** `PageFrameContainer` is a bitmap of free page frames with word masks, first-fit runs and a
cached count. Two layers draw on it: `Kmem`, a slab allocator with intrusive free lists, three doubly
linked slab lists per cache and a multi-page path, and `VirtualMemory`, four-level page tables. The
tables carry user copies, the ELF loader and the teardown of an address space. Words are natural
numbers below 2^64 with digit-wise `|`, `&` and shifts, so masks, flags and wrap-around are those of
the code. A ghost owner per frame says which table or data page of which address space it is.

**Scheduling.** Threads sit on per-CPU run queues, linked by `next` with head, tail and length. Every
call on a `Scheduler` is a run of abstract queue steps (enter, leave, serve, migrate), and the
properties of all runs are proved about the steps. Wait queues and completions complete the picture;
a signal is two steps, set the flag and then drain the waiters, with anything in between.

**Block I/O.** The virtio-blk driver's request slots, descriptor chains and 16-bit ring indices run
against a device that finishes requests in any order, well or badly. `block_read_sync` and
`block_write_sync` run above it over any schedule of events, retrying while the driver is busy.

**Small pieces.** The newc cpio traversal, the overflow-checked rounded product used in timer
calibration, and the least-loaded CPU search.

The files, bottom up:

| files | content |
|---|---|
| `basics`, `word64` | shared types; 64-bit words and their digits |
| `page_frame` | the frame bitmap |
| `entries`, `paging`, `user_access`, `virtual_memory`, `remapping`, `boot_mapping` | page-table entries, walks, what user mode may do, mapping, protection, unmapping, the direct map |
| `teardown`, `slot_teardown`, `small_machine` | destroying a user slot; two concrete machines on which promises fail |
| `user_copy`, `user_elf`, `elf_encoding`, `user_image`, `user_program`, `loaded_image`, `loaded_file`, `overlapping_segments`, `abandoned_load` | copies, ELF checks and the ELF64 encoding they invert, loading, what a loaded program sees and may do, what a failed load leaves |
| `kmem_slab`, `kmem_lists`, `kmem_cache`, `kmem_heap`, `kmem_large`, `kmem_headers`, `kmem`, `kmem_lookalike` | the slab allocator, bottom up; words that only look like a header |
| `shared_frames` | both layers on one bitmap |
| `queue_steps`, `run_queue`, `scheduler`, `scheduler_runs`, `placement`, `wait_queue`, `completion` | scheduling |
| `virtio_blk`, `block_steps`, `block_device` | block I/O |
| `cpio`, `calibration` | the small pieces |

## Model

| member | source | states |
|---|---|---|
| `PageFrames.PageFrameContainer.Initialize` | src/kernel/mm/page_frame.cpp:11-228 | It succeeds exactly on an uninitialised container with a region that contributes pages. Then a page is free if and only if it lies wholly in the trackable part of a usable region and outside the bitmap, low-memory and kernel windows; no digit at or above the page count is set, and the cached count is the number of free pages. |
| `PageFrames.PaintRange` | src/kernel/mm/page_frame.cpp:113-147 | Painting first word, whole words and last word with shifted masks sets exactly the digits of the page range, in one word or across many. |
| `PageFrames.CountFree` | src/kernel/mm/page_frame.cpp:150-175 | The counting loop returns the number of free pages although zero words are skipped without moving the running page index. |
| `PageFrames.PageFrameContainer.AllocateOne` | src/kernel/mm/page_frame.cpp:239-282 | Fails exactly when no page is free; otherwise takes the lowest free page and no other. |
| `PageFrames.PageFrameContainer.AllocateRun` | src/kernel/mm/page_frame.cpp:284-321 | Succeeds exactly when some run of that many free pages exists, and then takes the lowest such run, all of it and nothing else. |
| `PageFrames.PageFrameContainer.FreePage` | src/kernel/mm/page_frame.cpp:323-352 | Accepts exactly the aligned addresses of tracked busy pages, whoever holds them, and frees just that page. |
| `PageFrames.PageFrameContainer.ReserveRange` | src/kernel/mm/page_frame.cpp:354-386 | Takes exactly the pages of the byte range out of the free set, with the end computed in 64 bits, and says whether the range was tracked to its end. |
| `Entries.EntryRoundTrip` | src/kernel/mm/virtual_memory.cpp:83-96 | Packing a frame and flags into an entry and reading the entry back with the masks gives the same frame and flags. |
| `Entries.LargeEntryRoundTrip` | src/kernel/mm/virtual_memory.cpp:243-247 | The same for 2 MiB entries, with the large-page bit added. |
| `Paging.TranslateIsWalk` | src/kernel/mm/virtual_memory.cpp:314-358 | Translation by shifted indices and masks equals the arithmetic page walk of the page number, plus the offset in the 4 KiB or 2 MiB page. |
| `Paging.LeafWalk` | src/kernel/mm/virtual_memory.cpp:181-205 | On well-formed tables, writing one lowest-level entry changes the translation of that page of that space only, or of its mirror in a shared slot. |
| `Paging.GrowWalk` | src/kernel/mm/virtual_memory.cpp:98-118 | Hooking a cleared table into an empty entry changes no translation of any address space. |
| `Paging.BlockWalk` | src/kernel/mm/virtual_memory.cpp:207-250 | Writing a 2 MiB entry gives all 512 pages of the block their new translation. |
| `Paging.BlockWalkElsewhere` | src/kernel/mm/virtual_memory.cpp:207-250 | Writing a 2 MiB entry leaves every page outside the block, and the block of every other space, as it was. |
| `Paging.SameEntrySamePage` | src/kernel/mm/virtual_memory.cpp:120-179 | Two walks that end in the same leaf entry are walks of the same page, in one space or through a shared slot: tables are never aliased. |
| `VirtualMemories.VirtualMemory.TranslateAddress` | src/kernel/mm/virtual_memory.cpp:314-358 | `translate` gives nothing without a root and the walk plus the offset with one. |
| `VirtualMemories.VirtualMemory.EnsureRoot` | src/kernel/mm/virtual_memory.cpp:65-81 | A root exists afterwards unless no frame was free; the new root was free and disturbs no space. |
| `VirtualMemories.VirtualMemory.EnsureTableEntry` | src/kernel/mm/virtual_memory.cpp:98-118 | The entry leads to a table afterwards, or the frames have run out; no translation of any space changes either way. Asked for a user-visible table, it leaves the whole path down to it user-visible; not asked, it opens no page of any space to user mode. |
| `VirtualMemories.VirtualMemory.WalkToLeaf` | src/kernel/mm/virtual_memory.cpp:120-179 | With creation it fails only without frames, without creation only at an unmapped page, and it changes no translation of any space. With creation for the user, every entry above the leaf is user-visible afterwards; user mode loses no path, and gains one only if asked for. |
| `VirtualMemories.VirtualMemory.MapPhysical` | src/kernel/mm/virtual_memory.cpp:181-205 | The first pages of the range translate to consecutive frames with the given flags and Present, every other page of every space keeps its translation, and all pages are done exactly on success; it stops midway only without frames. The entries above each page done are user-visible if the flags are. |
| `VirtualMemories.VirtualMemory.MapPhysical2M` | src/kernel/mm/virtual_memory.cpp:207-250 | The same for whole blocks: unaligned addresses are refused, each block done translates through one 2 MiB entry, and user mode gets there exactly as the flags say. |
| `VirtualMemories.VirtualMemory.AllocateAndMap` | src/kernel/mm/virtual_memory.cpp:252-288 | Each page done maps a cleared frame that was free and now belongs to that page alone; nothing else moves; it stops midway only without frames. The entries above each page done are user-visible if the flags are. |
| `UserAccess.MayIs` | src/kernel/mm/virtual_memory.cpp:83-118 | The processor checks every entry on the way to a page, read off the words of the tables. On well-formed tables that comes down to the leaf flags, provided every entry above carries the User digit. |
| `VirtualMemories.MappedMay` | src/kernel/mm/virtual_memory.cpp:181-205 | After `map_physical` user mode may read, write and fetch from each page done exactly as the flags say, through all four levels. |
| `VirtualMemories.FreshMay` | src/kernel/mm/virtual_memory.cpp:252-288 | The same after `allocate_and_map`. |
| `VirtualMemories.BlocksMay` | src/kernel/mm/virtual_memory.cpp:207-250 | The same after `map_physical_2m`. |
| `VirtualMemories.MayKept` | src/kernel/mm/virtual_memory.cpp:98-118 | A page whose translation stays keeps what user mode may do with it, and gains rights only if some call asked for user-visible tables. |
| `VirtualMemories.VirtualMemory.CloneKernelMappings` | src/kernel/mm/virtual_memory.cpp:360-372 | The two shared slots translate as in the source root afterwards, and every other translation stays; fails exactly when a root is needed and no frame is free. |
| `Remapping.Protect` | src/kernel/mm/virtual_memory.cpp:290-312 | The pages done keep their frames and get the new flags, everything else stays; it fails midway exactly at an unmapped page. The entries above are left as they were. |
| `Remapping.ProtectedMay` | src/kernel/mm/virtual_memory.cpp:290-312 | After `protect` user mode may do what the new flags say if and only if the entries above the page were user-visible before: protecting a kernel page for the user does not open it. |
| `Remapping.FreeRange` | src/kernel/mm/virtual_memory.cpp:421-443 | The pages done are unmapped and exactly their tracked frames return to the bitmap; it fails midway exactly at a page that was not mapped. |
| `Remapping.FreeUndoesAllocate` | src/kernel/mm/virtual_memory.cpp:252-288 | Unmapping what was just allocated and mapped leaves every page unmapped and every frame behind it free again. |
| `BootMapping.MapDirectRange` | src/kernel/mm/boot_mapping.cpp:44-81 | However far it gets, every direct-map translation stays at its fixed offset, none is lost, and pages outside the range keep theirs; what it maps is kernel data, present, writable, no-execute and not for users; on success exactly the holes of the entry state are unmapped; failure means no frames are left. |
| `BootMapping.NothingForUsers` | src/kernel/mm/boot_mapping.cpp:44-81 | User mode may neither read, write nor fetch from any page whose translation the sweep changed. |
| `BootMapping.MappedUnlessHoles` | src/kernel/mm/boot_mapping.cpp:20-81 | After a finished sweep the whole range is mapped if and only if no page inside a whole block was unmapped between two mapped ends on entry. |
| `BootMapping.UniformBlocksMapped` | src/kernel/mm/boot_mapping.cpp:44-81 | If each whole block was fully mapped or fully unmapped on entry, success maps the range, each page at its offset, whatever mix of leaves results. |
| `SmallMachine.HoleSurvives` | src/kernel/mm/boot_mapping.cpp:20-28 | A concrete direct map with only the first and last page of one block present: a finished sweep leaves the 510 pages between them unmapped. |
| `Teardown.ReleaseWords` | src/kernel/mm/virtual_memory.cpp:392-402 | The level-1 case frees every tracked frame that a non-zero word of the page names and clears the page. |
| `Teardown.DestroyTable` | src/kernel/mm/virtual_memory.cpp:374-406 | On a tree of tables the frames freed are exactly the tracked ones reached plus the tracked ones that words of the leaf pages name, and exactly the reached frames and the entry are cleared. |
| `SlotTeardown.SlotIsTree` | src/kernel/mm/virtual_memory.cpp:374-419 | In a sound world the tables under a private slot are a tree whose frames all belong to that slot, so no frame is reached twice. |
| `SlotTeardown.DestroyUserSlot` | src/kernel/mm/virtual_memory.cpp:408-419 | The slot is empty afterwards, every frame under it is free, every other page of every space translates as before, and the freed set is stated exactly. |
| `SlotTeardown.MappedPagesFreed` | src/kernel/mm/virtual_memory.cpp:408-419 | The tracked frame behind every page the slot mapped is free after the teardown. |
| `SlotTeardown.TeardownExact` | src/kernel/mm/virtual_memory.cpp:374-419 | The allocator changes for the slot's own frames only, if and only if no data word names a tracked busy frame outside the slot; the world stays sound if and only if no data word names a tracked frame still owned. |
| `SlotTeardown.ZeroPagesNameNothing` | src/kernel/mm/virtual_memory.cpp:392-402 | Data pages that hold only zero words name no frame, so the teardown is exact for them. |
| `SmallMachine.TeardownCanBreak` | src/kernel/mm/virtual_memory.cpp:408-419 | A concrete sound machine of six frames with one private data page whose first word names the root: every outcome of the teardown has the root, still in use, on the free list. |
| `UserCopy.CopyPages` | src/kernel/mm/user_copy.cpp:40-63 | The page-by-page copy has the verdict and the memory of a copy that translates and checks every byte on its own. |
| `UserCopy.CopyToUser` | src/kernel/mm/user_copy.cpp:65-125 | A range outside user space is refused without effect; inside it, verdict and memory are those of the byte-wise copy with user-write checks. |
| `UserCopy.CopyFromUser` | src/kernel/mm/user_copy.cpp:127-187 | The buffer gets exactly the bytes before the first bad one, all of them exactly on success, and keeps the rest. |
| `UserCopy.ProbeIsTranslate` | src/kernel/mm/user_copy.cpp:93-116 | The reference's check of one byte is `translate` followed by the flag test, so the byte-wise copy is defined by the kernel's own translation. |
| `UserCopy.PermittedDigits` | src/kernel/mm/user_address.hpp:43-55 | A user read needs digit 2 of the leaf flags, a user write digits 1 and 2, a kernel copy neither. |
| `UserCopy.ScatterStops` | src/kernel/mm/user_copy.cpp:65-125 | A failed byte-wise copy has stored exactly the bytes before the first bad one. |
| `UserCopy.BadByteStartsPage` | src/kernel/mm/user_copy.cpp:90-124 | The first bad byte starts a page unless it is the first of all, so failures are at page granularity. |
| `UserCopy.ScatterGather` | src/kernel/mm/user_copy.cpp:65-187 | What was copied out to distinct places reads back as the same bytes. |
| `UserElf.CheckedAdd` | src/common/elf/elf64.hpp:48-56 | A sum is given exactly when it fits 64 bits. |
| `ElfEncoding.HeaderReadsBack` | src/common/elf/elf64.hpp:17-73 | For every file header, written with all its fields in the order of the ELF64 standard, and any bytes behind it: reading gives back exactly its fields if the identification starts with 7F 45 4C 46, the program headers start inside the image and have 56 bytes each, and nothing otherwise. |
| `ElfEncoding.HeaderExactly` | src/common/elf/elf64.hpp:58-73 | On any bytes: a header is found if and only if the image starts with the encoding of a supported one, and it is that one. So nothing is found exactly if the image is short, has another magic, a table beyond its end, or program headers of another size. |
| `ElfEncoding.TableReadsBack` | src/common/elf/elf64.hpp:35-104 | For every list of program headers with all eight fields free, encoded anywhere in an image: each is read back with its own type, flags, offset, address, file size and memory size. |
| `ElfEncoding.FileReadsBack` | src/common/elf/elf64.hpp:17-104 | A whole file, with any bytes between header and table and behind it: its header and every program header are read back. |
| `UserElf.ProgramHeaderFromImage` | src/common/elf/elf64.hpp:75-104 | A program header is given exactly when it lies inside the image, with overflow of its offset ruled out. What it reads is fixed by `ElfEncoding.TableReadsBack`. |
| `UserElf.SegmentBoundsValid` | src/common/elf/elf64.hpp:106-112 | The checked sums accept exactly the segments whose file part lies in the image and in the segment, over unbounded integers. |
| `UserElf.PlanLoadSegment` | src/kernel/proc/user_elf.cpp:59-111 | A plan exists if and only if the segment is loadable, its file part is in bounds and its memory lies between the start of user space and the guard page; the planned pages are the tightest, with the flags of the header. |
| `UserElf.EntryPointInLoadableSegment` | src/kernel/proc/user_elf.cpp:113-147 | Accepts exactly when some segment holds the entry point and every header up to it can be planned. |
| `UserPrograms.ValidateImage` | src/kernel/proc/user_elf.cpp:53-153 | Accepts exactly the images with a supported header whose entry point lies in a loadable segment. |
| `UserImage.CopiedSegment` | src/kernel/proc/user_program.cpp:40-78 | Copying a segment's file bytes into its fresh pages cannot fail and leaves an image that shows those bytes and zeros around them, earlier segments kept. |
| `UserPrograms.LoadSegments` | src/kernel/proc/user_program.cpp:40-78 | After the loop the space holds exactly the segments of all loadable headers, in order; it fails only on a header that cannot be planned or without frames. |
| `UserPrograms.LoadUserElf` | src/kernel/proc/user_program.cpp:15-104 | Success yields a space that holds every segment and the stack beside untouched older spaces; failure before the root exists changes nothing; a later failure is the teardown of a partly loaded space and has a cause: a header that cannot be planned, or no frames. |
| `UserPrograms.DestroyUserAddressSpace` | src/kernel/proc/user_program.cpp:107-116 | Address 0 is refused without effect; otherwise the user slot is destroyed and the root given back. |
| `LoadedImage.EveryByte` | src/kernel/proc/user_program.cpp:15-104 | Every address of the user slot faults if no segment covers its page, and otherwise shows the byte and the flags of the last segment that covers it. |
| `LoadedImage.FileBytes` | src/kernel/proc/user_program.cpp:40-78 | With page-disjoint segments, reading the loaded space through `translate` gives exactly the file bytes of every loadable header, zeros in the rest of its pages, and the planned flags; user mode may read there, and write or fetch exactly as the header asks. |
| `LoadedFile.FileIsLoaded` | src/kernel/proc/user_program.cpp:15-104 | From the file to user mode: if an encoded ELF64 file whose program headers share no page is loaded, address `vaddr + k` of every loadable header shows byte `offset + k` of the file below `filesz` and zero up to `memsz`; user mode may read it, and write it or fetch from it exactly as bits 1 and 0 of the header's flags say. |
| `LoadedImage.SlotRights` | src/kernel/proc/user_program.cpp:15-104 | User mode may do with a page of the slot exactly what the last segment that covers it grants, and nothing where no segment does. |
| `LoadedImage.CheckAgrees` | src/kernel/mm/user_address.hpp:43-55 | On well-formed tables the flag test on the leaf lets a user access through exactly where the processor would let user mode do it, given user-visible entries above and a present page. |
| `LoadedImage.StackIsZero` | src/kernel/proc/user_program.cpp:80-103 | The whole stack reads as zeros; user mode may write it and may not fetch from it. |
| `LoadedImage.NothingElse` | src/kernel/proc/user_program.cpp:15-104 | A page of the user slot is mapped if and only if a loadable header or the stack claims it. |
| `LoadedImage.GuardFaults` | src/kernel/proc/user_elf.cpp:38-51 | Every address of the guard page below the stack faults, and user mode may do nothing there. |
| `LoadedImage.EntryIsMapped` | src/kernel/proc/user_elf.cpp:113-147 | The entry point of a loaded program shows a byte of the image that user mode may read; it may fetch from there exactly if the last segment that covers the page is executable. |
| `OverlappingSegments.FileByteExactly` | src/kernel/proc/user_program.cpp:40-78 | Without any premise on overlap: an address in the pages of a loadable header shows that header's byte and flags if and only if the last segment of the image that covers the page has the same byte and flags there. |
| `OverlappingSegments.TwiceAccepted` | src/kernel/proc/user_elf.cpp:59-153 | An image with two headers for one address passes every check of the loader. |
| `OverlappingSegments.TwiceDoubled` | src/common/elf/elf64.hpp:17-104 | A concrete file of 178 bytes, written field by field, is such an image. |
| `OverlappingSegments.OverlapLoses` | src/kernel/proc/user_program.cpp:40-78 | Wherever such an image is loaded, the address does not show the first header's byte. |
| `LoadedImage.LaterWins` | src/kernel/proc/user_program.cpp:40-78 | On a page two segments share, the later one shows: the earlier one's file bytes there are lost. |
| `LoadedImage.AbandonedKeepsOthers` | src/kernel/proc/user_program.cpp:40-99 | A load that is given up changes no translation of any older address space. |
| `AbandonedLoads.SlotWordsAre` | src/kernel/mm/virtual_memory.cpp:374-419 | The frames a teardown takes from data words are exactly those that words of mapped pages name. |
| `AbandonedLoads.WordsAreImageWords` | src/kernel/proc/user_program.cpp:40-78 | The words of a partly loaded slot are exactly the words of the segments' bytes in the image. |
| `AbandonedLoads.AbandonedSound` | src/kernel/proc/user_program.cpp:40-99 | After a load is given up, bitmap and tables are consistent if and only if no word of the segments names a tracked frame that is still owned. |
| `AbandonedLoads.LostExactly` | src/kernel/proc/user_program.cpp:40-99 | Of the frames that were free before a load that is given up, exactly those are lost that the load took and that neither the slot's tables and leaves lead to nor a data word names. |
| `KmemSlabs.SlotBounds` | src/kernel/mm/kmem.cpp:541-561 | Every slot lies in its page behind the header, aligned as its cache asks. |
| `KmemSlabs.SlotIndexExact` | src/kernel/mm/kmem.cpp:563-588 | The index computation accepts exactly the addresses of slots. |
| `KmemSlabs.PointerOnFreeList` | src/kernel/mm/kmem.cpp:848-889 | On a well-formed list neither corruption check fires and the verdict is exact. |
| `KmemSlabs.ThreadSlots` | src/kernel/mm/kmem.cpp:773-812 | Threading links every slot into the free list, first slot first, and writes nowhere else. |
| `KmemLists.Detached` | src/kernel/mm/kmem.cpp:700-726 | Unlinking a slab removes exactly that slab from its list; the three doubly linked lists stay well formed. |
| `KmemLists.Attached` | src/kernel/mm/kmem.cpp:728-739 | Linking a slab puts it in front of its new list; the other lists do not notice. |
| `KmemLists.Moved` | src/kernel/mm/kmem.cpp:741-750 | Moving a slab is unlinking and linking: one list loses it, the other gains it in front. |
| `KmemCaches.TakeKeeps` | src/kernel/mm/kmem.cpp:1048-1107 | Taking a slot keeps the whole cache well formed: lists, free counts, live count and free list. |
| `KmemCaches.TakeLive` | src/kernel/mm/kmem.cpp:1048-1107 | Exactly one more object is live: the one returned, which was free. |
| `KmemCaches.GiveLive` | src/kernel/mm/kmem.cpp:1109-1187 | Exactly one object less is live: the one given back, which was live. |
| `KmemCaches.DropKeeps` | src/kernel/mm/kmem.cpp:1354-1400 | Returning a page of a second empty slab restores a well-formed cache with at most one empty slab. |
| `KmemCaches.GrowKeeps` | src/kernel/mm/kmem.cpp:814-840 | A cache without an empty slab gains a page whose slots are all free. |
| `KmemAllocator.NoneSelected` | src/kernel/mm/kmem.cpp:764-771 | If no slab is selected every slot of the cache is in use, so a cache grows only when all its slabs are full. |
| `KmemAllocator.SnapshotCache` | src/kernel/mm/kmem.cpp:1205-1236 | The reported figures agree: slabs are the three lists' total and growth minus return, live objects are total minus free slots and allocations minus frees. |
| `KmemHeap.PayloadsApart` | src/kernel/mm/kmem.cpp:773-840 | Live payloads never overlap, within a page, across caches and with multi-page ones. |
| `KmemHeap.PayloadHeld` | src/kernel/mm/kmem.cpp:773-1107 | Every frame a live payload touches is held by the allocator under the payload's own header. |
| `KmemHeap.WritePayload` | src/kernel/mm/kmem.cpp:541-561 | Whatever a holder writes into a live payload, the allocator's own structure stays intact. |
| `KmemHeaders.SlabReads` | src/kernel/mm/kmem.cpp:59-80 | Every packed field of a slab header reads back from memory as the record has it. |
| `KmemHeaders.LargeReads` | src/kernel/mm/kmem.cpp:154-164 | The same for the header of a multi-page allocation. |
| `KmemHeaders.PayloadOutside` | src/kernel/mm/kmem.cpp:211-256 | No word of a live payload lies in any header. |
| `KmemAllocator.Kmem.constructor` | src/kernel/mm/kmem.cpp:1447-1465 | The fresh allocator satisfies the invariant and holds nothing. |
| `KmemAllocator.Kmem.GrowCache` | src/kernel/mm/kmem.cpp:814-840 | Fails exactly when no frame is free; one frame moves from the bitmap to the cache and nothing else changes. |
| `KmemAllocator.Kmem.AllocateFromCache` | src/kernel/mm/kmem.cpp:1238-1286 | Gives an object exactly when a slot is free or the cache may and can grow, halts exactly when it fails and the caller asked for that; the new payload is big enough, cleared if asked, and all others are kept. |
| `KmemAllocator.Kmem.AllocateLarge` | src/kernel/mm/kmem.cpp:948-1000 | Succeeds exactly when it may take frames, the size fits the types, and a run of frames is free. |
| `KmemAllocator.Kmem.SelectCache` | src/kernel/mm/kmem.cpp:752-762 | The smallest built-in cache that fits. |
| `KmemAllocator.Kmem.Kmalloc` | src/kernel/mm/kmem.cpp:1467-1485 | Verdict stated exactly over slab and multi-page path; invariant, other payloads and the frames shared with the bitmap are kept. |
| `KmemAllocator.Kmem.Kcalloc` | src/kernel/mm/kmem.cpp:1487-1495 | An object is given exactly if `count * size` over unbounded integers fits 64 bits and can be served; the payload is cleared and every element `i < count` ends, at `(i + 1) * size`, inside it. |
| `KmemAllocator.GiveObject` | src/kernel/mm/kmem.cpp:1109-1187 | On a slab page the machine stops exactly when the pointer is no live object of the page. |
| `KmemAllocator.Kmem.ReleaseLarge` | src/kernel/mm/kmem.cpp:1002-1046 | On a header the allocator wrote no corruption check fires, and exactly that allocation and its frames go back. |
| `KmemAllocator.Kmem.FreeObject` | src/kernel/mm/kmem.cpp:1288-1400 | On a page with a header, or whose first word is no magic, the machine stops if and only if the pointer is no live object (of the expected cache), and otherwise exactly that object goes; on any other page the verdict is computed from the words found there. |
| `KmemLookalike.FreeLookalike` | src/kernel/mm/kmem.cpp:1288-1400 | For every holder of two pages and every cache with a live object: five words written into the payload make a free of a non-object pass all checks, lower the live count and break the invariant. |
| `KmemLookalike.FailingInput` | src/kernel/mm/kmem.cpp:1288-1400 | Such a state is two allocations away from any state in which they succeed. |
| `KmemAllocator.Kmem.CacheCreate` | src/kernel/mm/kmem.cpp:1497-1545 | Succeeds exactly on valid parameters and an unused table slot; the first unused slot becomes a fresh registered cache, and nothing live changes. |
| `KmemAllocator.NamedLayout` | src/kernel/mm/kmem.cpp:302-370 | A layout exists exactly for an allowed alignment and an object that fits a page behind the header, and it is the tightest. |
| `KmemAllocator.LargeLayout` | src/kernel/mm/kmem.cpp:228-256 | A page count exists exactly when the sums and the 32-bit page count do not overflow, and it is the tightest. |
| `KmemAllocator.Kmem.CacheAlloc` | src/kernel/mm/kmem.cpp:1547-1554 | An inactive cache gives nothing; an active one serves exactly as `AllocateFromCache` says. |
| `KmemAllocator.Kmem.CacheFree` | src/kernel/mm/kmem.cpp:1556-1568 | A pointer is freed exactly when it is a live object of that very cache; the foreign case is decided by the words found. |
| `KmemAllocator.Kmem.CacheDestroy` | src/kernel/mm/kmem.cpp:1570-1597 | Succeeds exactly for an active named cache without live objects; exactly its pages become free, the slot is blank and unregistered. |
| `KmemLarge.Idle` | src/kernel/mm/kmem.cpp:1402-1444 | A cache without live objects has only empty slabs and at most one of them, so the checks of the release never fire. |
| `KmemAllocator.Kmem.StoreWord` | src/kernel/mm/kmem.cpp:553-561 | A holder's write to its payload keeps the invariant, every header and every other payload. |
| `KmemAllocator.Kmem.Run` | src/kernel/mm/kmem.cpp:1447-1602 | Any sequence of allocations, frees, cache creations, destructions and payload writes keeps the invariant, hence the safety below, and conserves the frames shared with the bitmap, until the machine stops or a call frees a pointer on a page whose words only look like a header. |
| `KmemAllocator.HeapSafe` | src/kernel/mm/kmem.cpp:773-1107 | The invariant gives: live payloads are pairwise disjoint, aligned (16 for multi-page ones), at least the size asked for, in busy frames, and clear of every header. |
| `SharedFrames.Machine.Malloc` | src/kernel/mm/kmem.cpp:1467-1485 | With both layers on one bitmap, `kmalloc` keeps the page tables consistent and every translation. |
| `SharedFrames.Machine.Free` | src/kernel/mm/kmem.cpp:1599-1602 | So does `kfree`; both layers stay consistent unless the page's words only look like a header. |
| `SharedFrames.Machine.Map` | src/kernel/mm/virtual_memory.cpp:252-288 | `allocate_and_map` takes no frame the allocator holds and keeps its invariant. |
| `SharedFrames.Machine.Unmap` | src/kernel/mm/virtual_memory.cpp:421-443 | Unmapping returns no frame the allocator holds and keeps its invariant. |
| `RunQueues.Cpu.Append` | src/kernel/proc/thread.cpp:106-126 | A thread on no queue is linked at the tail; the chain stays acyclic and the length matches enqueues minus dequeues. |
| `RunQueues.Cpu.Remove` | src/kernel/proc/thread.cpp:128-166 | The thread is unlinked wherever it stands, the others keep their order; a thread that is not here changes nothing. |
| `RunQueues.Cpu.Dequeue` | src/kernel/sched/thread_queue.cpp:37-64 | The head leaves, unlinked; the rest keep their order. |
| `RunQueues.Cpu.DetachLastMigratable` | src/kernel/sched/scheduler.cpp:83-129 | The last thread that may move is unlinked, or none may; the donor's remaining order is kept. |
| `RunQueues.CoolsDown` | src/kernel/sched/scheduler.cpp:57-81 | With tick counts over unbounded integers, across a wrap of the counter: a thread may move exactly if it is ready, the mask or a CPU number from 64 up allows the target, and its stamp is zero or 64 ticks old. |
| `Scheduling.Scheduler.Enqueue` | src/kernel/proc/thread.cpp:180-202 | A step: the thread enters that CPU's queue, and no other queue changes. |
| `Scheduling.Scheduler.MarkReady` | src/kernel/proc/thread.cpp:623-637 | Dying and free threads are left alone; any other is Ready and on a queue, unless it is its CPU's idle thread. |
| `Scheduling.Scheduler.SetCurrent` | src/kernel/proc/thread.cpp:609-621 | The thread leaves the queue it is on, wherever that is, and runs on this CPU; no other thread and no other CPU's current thread changes. |
| `Scheduling.Scheduler.PublishIdle` | src/kernel/proc/thread.cpp:389-401 | The CPU's idle thread is set; no queue and no other CPU changes. |
| `Scheduling.Scheduler.ClearThread` | src/kernel/proc/thread.cpp:450-470 | The thread leaves its queue, is no CPU's idle thread, and is out of the registry; other idle threads stay. |
| `Scheduling.Scheduler.ScheduleNext` | src/kernel/sched/scheduler.cpp:311-349 | The current thread enters its CPU's queue exactly if it is to be kept, runs, is not the idle thread and is on no queue; then the head of the resulting queue is taken and runs, or the idle thread if the queue is empty. No other thread changes state or home. |
| `Scheduling.Scheduler.Survey` | src/kernel/sched/scheduler.cpp:185-233 | Counts the schedulable CPUs and sums their queue lengths; the donor is the first of the longest schedulable queues other than the target's, and none is named exactly if all those are empty. |
| `Scheduling.Scheduler.BalanceLocked` | src/kernel/sched/scheduler.cpp:235-279 | Whatever happened since the survey: a thread moves exactly if the donor's queue is at least two longer, the survey's condition held or the attempt is forced, and some thread may move; it is then the donor's last such thread, stamped with the time, and no other thread changes. |
| `Scheduling.Scheduler.Balance` | src/kernel/sched/scheduler.cpp:185-279 | Forced or not, an attempt succeeds if and only if balancing is on, the target is schedulable, the first longest other queue is at least two longer and holds a thread that may move, and, unless forced, the target would stay below the average. A forced attempt fails only if every other schedulable queue is at most one longer, or no thread of a longest one may move. |
| `QueueSteps.RunKeepsApart` | src/kernel/proc/thread.cpp:106-202 | Over any run of steps no thread is in two queues or twice in one. |
| `QueueSteps.StepThreads` | src/kernel/sched/scheduler.cpp:83-151 | Each step changes the queued threads by exactly the one that enters or leaves; a migration by none. |
| `QueueSteps.WaitingIsBounded` | src/kernel/sched/thread_queue.cpp:37-71 | A thread that is not migrated moves up with every turn its queue gives out, so it waits at most its position in turns. |
| `QueueSteps.MigratedPosition` | src/kernel/sched/scheduler.cpp:131-151 | A migrated thread falls back if and only if the target queue is longer than its old position; it always stands before the end of its old queue. |
| `QueueSteps.MigrateLowersSquares` | src/kernel/sched/scheduler.cpp:235-279 | Every migration lowers the sum of squared queue lengths by twice the gap less one, at least by two. |
| `QueueSteps.BalancingEnds` | src/kernel/sched/scheduler.cpp:185-279 | A run of the balancer alone migrates at most half the initial sum of squares. |
| `SchedulerRuns.Run` | src/kernel/proc/thread.cpp:106-202 | Any sequence of scheduler calls keeps every queue linked and all queues apart, bounds the waiting of every queued thread, and, for balancer calls alone, the number of migrations. |
| `SchedulerRuns.MigrationSetsBack` | src/kernel/sched/scheduler.cpp:83-151 | A scheduler built by ordinary calls on which the balancer moves a thread from the head of its queue to the second place of the other. |
| `Placement.NextSchedulable` | src/kernel/proc/thread.cpp:23-42 | The first schedulable CPU going round from the start. |
| `Placement.SelectLeastLoaded` | src/kernel/proc/thread.cpp:55-85 | The loop ends although its end marker moves, with the first shortest schedulable queue in circular order behind the start. |
| `Placement.PlaceAll` | src/kernel/proc/thread.cpp:55-104 | Repeated placement keeps the schedulable queues within one of each other. |
| `WaitQueues.WaitQueue.Enqueue` | src/kernel/sync/wait_queue.cpp:5-31 | The thread goes to the end unless it already waits here. |
| `WaitQueues.WaitQueue.Dequeue` | src/kernel/sync/wait_queue.cpp:33-42 | The head leaves, unlinked; first come, first served. |
| `WaitQueues.WaitQueue.WakeAll` | src/kernel/sync/wait_queue.cpp:103-116 | Every waiter is unlinked and woken once, in order; each is then on a run queue unless it is running or dying, and the run queues stay valid. |
| `WaitQueues.Wake` | src/kernel/proc/thread.cpp:713-729 | A blocked thread becomes Ready and queued, or Running if it is the current one; dying and free threads stay. |
| `Completions.NoLostWakeup` | src/kernel/sync/wait_queue.cpp:103-133 | In every interleaving, once the flag is set and no signaller is on its way to the list, nobody waits, and once the taken batches are woken nobody is blocked. |
| `Completions.SleepsAreWoken` | src/kernel/proc/thread.cpp:639-675 | In every run each sleep is ended by exactly one wake-up, unless it still goes on. |
| `Completions.SignallersFinish` | src/kernel/sync/wait_queue.cpp:103-133 | Signallers left to themselves finish within a stated number of steps, and if the flag is set everybody is then awake. |
| `Completions.RunKeepsInv` | src/kernel/sync/wait_queue.cpp:118-133 | Every interleaving keeps the invariant that ties waiters, batches and blocked threads together. |
| `VirtioBlk.RingStep` | src/kernel/drivers/virtio/virtqueue.cpp:40-67 | Consecutive entries never share a ring slot, across the wrap of the 16-bit index too. |
| `VirtioBlk.MaskTest` | src/kernel/drivers/block/virtio_blk.cpp:100-208 | The descriptor mask test agrees with the slot's own flag: active slots' triples make up exactly the mask. |
| `VirtioBlk.Driver.Submit` | src/kernel/drivers/block/virtio_blk.cpp:297-402 | Accepted exactly when within limits and medium and a slot is free; then under way, otherwise completed as invalid or busy; no other request changes. |
| `VirtioBlk.Driver.DeviceTake` | src/kernel/drivers/virtio/virtqueue.cpp:40-53 | The device sees the chain of one active slot, with the header, data and status descriptors of that slot's own request. |
| `VirtioBlk.Driver.DeviceFinish` | src/kernel/drivers/virtio/virtqueue.cpp:55-67 | Whichever request the device finishes, well or badly, only that slot's data or that request's sectors change. |
| `VirtioBlk.Driver.DrainUsed` | src/kernel/drivers/block/virtio_blk.cpp:210-257 | Every answered request completes exactly once, with its own slot's data and status; nothing the device still holds does. |
| `BlockSteps.StepAdvances` | src/kernel/drivers/block/virtio_blk.cpp:210-402 | Every event moves every request forward only: its answer comes from the medium of that moment, and a finished request never changes. |
| `BlockSteps.StepKeepsRange` | src/kernel/drivers/block/virtio_blk.cpp:210-402 | While the other writers are elsewhere, a range of the medium changes only when the request in question is a write that is answered. |
| `BlockSteps.FailedKeeps` | src/kernel/drivers/block/virtio_blk.cpp:210-257 | A write that fails leaves the medium alone. |
| `BlockSteps.StaysInSlot` | src/kernel/drivers/block/virtio_blk.cpp:210-402 | A request without an answer stays in its slot until the device answers that very slot, and the answer is the one the device gave. |
| `BlockSteps.InterruptDrains` | src/kernel/drivers/block/virtio_blk.cpp:210-257 | Every answered request is done after the next interrupt. |
| `BlockDevices.BatchSize` | src/kernel/storage/block_device.cpp:102-106 | A batch is the smaller of what remains and the limit per request, with a limit of zero read as one. |
| `BlockDevices.BlockDevice.SubmitSync` | src/kernel/storage/block_device.cpp:39-63 | Over any schedule of events, retrying while busy: the call succeeds exactly if the request is acceptable and the device answered this very request well, fails exactly if it is not acceptable or was answered badly, and waits only if the schedule is over. Success means the device transferred exactly this request, and the medium's range is as it was or as written. |
| `BlockDevices.BlockDevice.ReadSync` | src/kernel/storage/block_device.cpp:109-134 | Every sector in the buffer was on the medium at its place at some moment of the call; with nobody else writing there, success means exactly sectors s to s+n-1, in order; on failure a prefix, and the rest of the buffer is untouched. It fails only if nothing is asked for, the range leaves the medium, a batch is too big, or the device answered the batch at the end of that prefix badly. |
| `BlockDevices.BlockDevice.WriteSync` | src/kernel/storage/block_device.cpp:136-165 | Every sector written was on the medium at some moment; with nobody else writing there, the medium then holds exactly the written prefix and the rest of the range as before. It fails only for the same four reasons. |
| `BlockDevices.WriteThenRead` | src/kernel/storage/block_device.cpp:109-165 | A successful write followed by a successful read gives back the data, whatever goes on elsewhere on the medium. |
| `CpioNewc.ParseHex` | src/kernel/fs/cpio_newc.cpp:64-94 | The loop computes the number the digits spell, or nothing if one is no digit. |
| `CpioNewc.HexRoundTrip` | src/kernel/fs/cpio_newc.cpp:64-94 | Every number below 16^k, written in k digits, reads back. |
| `CpioNewc.NibbleIs` | src/kernel/fs/cpio_newc.cpp:72-91 | A digit is its place in 0123456789abcdef or in 0123456789ABCDEF, and no other byte is a digit. |
| `CpioNewc.CaseBlind` | src/kernel/fs/cpio_newc.cpp:64-94 | Numbers whose letters differ in case only have the same value. |
| `CpioNewc.Prefixes` | src/kernel/fs/cpio_newc.cpp:96-111 | A name without prefix is its own normal form; "./" before any name makes no difference, and "/" makes none exactly if the name does not start with "./". |
| `CpioNewc.RegularMode` | src/kernel/fs/cpio_newc.cpp:113-116 | A mode is regular exactly if, masked with octal 0170000, it is octal 0100000. |
| `CpioNewc.PathsEqual` | src/kernel/fs/cpio_newc.cpp:204-224 | Paths are equal exactly when they agree after normalisation. |
| `CpioNewc.ForEachFile` | src/kernel/fs/cpio_newc.cpp:119-202 | On any bytes the traversal ends, stays in bounds, and visits what the step function says. |
| `CpioNewc.TraversalReadsBack` | src/kernel/fs/cpio_newc.cpp:119-202 | On any newc encoding followed by a trailer and any bytes, exactly the regular files are visited, in order, until one is not accepted. |
| `CpioNewc.AnyArchive` | src/kernel/fs/cpio_newc.cpp:119-202 | Every list of files has such an encoding, and its traversal gives the regular ones back. |
| `Calibration.GcdU64` | src/kernel/core/kernel_main.cpp:80-89 | The loop computes the greatest common divisor. |
| `Calibration.TwoReductions` | src/kernel/core/kernel_main.cpp:91-120 | The two cross reductions together reach the lowest terms of the whole fraction. |
| `Calibration.DivideProductRounded` | src/kernel/core/kernel_main.cpp:91-120 | True exactly when the denominator is not zero and the lowest-terms numerator plus half the lowest-terms denominator fits 64 bits; the result is then left*right/denominator over unbounded integers, rounded to nearest with ties up. |

## Findings

Five things a reader might expect of the code do not hold. Each has a concrete input and the exact
condition under which the property does hold.

- **Destroying a user slot can free frames in use.** `destroy_table` is entered with level 4 on a
  top-level entry (src/kernel/mm/virtual_memory.cpp:408-419), so its level-1 case walks the words of
  the data pages. A data word that happens to name a tracked frame frees it. Input:
  `SmallMachine.TeardownCanBreak`. Exact condition: `SlotTeardown.TeardownExact`. For a program that
  never ran, in terms of the image's own words: `AbandonedLoads.AbandonedSound`; what such a load
  loses: `AbandonedLoads.LostExactly`.
- **The direct map can keep holes.** `large_page_is_already_mapped` looks at the first and the last page
  of a block only (src/kernel/mm/boot_mapping.cpp:20-28). Input: `SmallMachine.HoleSurvives`. Exact
  condition: `BootMapping.MappedUnlessHoles`.
- **A migration can set a thread back.** The balancer takes the last thread that may move, which may be
  the first in line. Input: `SchedulerRuns.MigrationSetsBack`. Exact condition:
  `QueueSteps.MigratedPosition`; without migration waiting is bounded, `QueueSteps.WaitingIsBounded`.
- **Overlapping segments lose bytes.** `allocate_and_map` overwrites leaves, so where two segments share
  a page only the later one shows (`LoadedImage.LaterWins`). Input: the file of
  `OverlappingSegments.TwiceDoubled`, which loses a byte by `OverlappingSegments.OverlapLoses`. Exact
  condition, on the image alone: `OverlappingSegments.FileByteExactly`. Page-disjoint segments always
  meet it, `LoadedImage.FileBytes` and, on the fields of the file, `LoadedFile.FileIsLoaded`.
- **`kfree` trusts a magic it finds.** Freeing a pointer on a page without a header reads whatever words
  are there (src/kernel/mm/kmem.cpp:1288-1341). Input: `KmemLookalike.FailingInput`. Exact
  condition: `KmemAllocator.Kmem.FreeObject`, which stops exactly on non-objects when the page has a
  header or its first word is no magic, and otherwise computes the verdict from the words.

## Left out

- Spinlocks, memory ordering, interrupt flags: each locked section is one step; the balancer's two phases and a signal's two phases are separate steps.
- TLB shootdown, CR3 loads, the generated layout constants: bases and slots are parameters or the values the code uses.
- Debug builds of the allocator (redzones, poisoning, leak dumps) and the counters of invalid frees: only the release layout is modelled, and a detected corruption is the machine stopping.
- The allocator before `kmem_init`: every call is on an initialised allocator, and `kmem_allocation_usable_size` is not modelled.
- Pointers into the direct map are physical addresses, and cache pointers in headers are positions in the cache table; frame 0 is never handed out, because low memory is reserved.
- KmemAllocator.Kmem.FreeObject: after a free that trusted words of a holder, the changed header words are kept in records only, and following links the words name, zero strides, or cache pointers outside the table is the outcome `Strayed` without a state, because nothing in the allocator's own memory describes what happens then.
- KmemAllocator.Kmem.Run: stops at the first free of a pointer on a page whose words only look like a header, because the invariant may be gone after it.
- SharedFrames.Machine.Free: says nothing about the allocator after such a free; each layer's memory is the words of its own frames, so the two layers share the bitmap and not one byte array.
- VirtioBlk.Driver.Submit: the caller is a thread that may sleep; the boot-time polling path and its timeout, which releases a slot the device may still answer, are not modelled, and neither are flush and removal.
- VirtioBlk.Driver.DeviceFinish: the device answers each chain once and a failed write leaves the medium unchanged; a device that writes part of a failed request is not modelled.
- BlockDevices.BlockDevice.SubmitSync: the schedule of events is finite, and a call the schedule does not finish is reported as waiting, because the device owes no answer in finite time.
- Counters (statistics, enqueue counts, notifications) are unbounded; their 32- and 64-bit wrap-around is not modelled. Ring indices, sizes, addresses and page counts do wrap or are checked as in the code.
- VirtualMemories.VirtualMemory.MapPhysical: physical and virtual ranges do not wrap, and no 2 MiB entry is on the path, because `walk_to_leaf` does not look at the large-page bit.
- VirtualMemories.VirtualMemory.WalkToLeaf: no 2 MiB entry is on the path, for the same reason.
- VirtualMemories.VirtualMemory.AllocateAndMap: the same two premises.
- Remapping.Protect: the same two premises.
- Remapping.FreeRange: the pages in the range are unmapped or own their frames, because the code frees whatever frame the leaf names.
- SlotTeardown.DestroyUserSlot: the slot is private and its data pages are its own, because otherwise a frame could be reached twice.
- UserCopy.CopyToUser: null threads and null buffers, which the code refuses, have no counterpart; the event log of failures is not modelled.
- UserCopy.CopyPages: data pages in the range are not table frames, because a copy into a table would change later translations midway.
- `VirtualMemory::free` of a whole root, `copy_user_string`, `copy_cpio_newc_path`, `map_bootstrap_identity_range` and `map_mmio_range`: variants of modelled loops that would only add easy members.
- Scheduling.Scheduler.MarkReady: the target CPU is an argument; an idle thread is readied on its own CPU only.
- WaitQueues.WaitQueue.WakeAll: the CPU each waiter goes to is an argument, and idle threads do not wait.
- Placement.SelectLeastLoaded: queue lengths stay fixed during the search, and the boot CPU is schedulable, as the code defines it.
- Completions.NoLostWakeup: the flag is not reset while somebody waits.
- The context switch, trap return, `waitpid`, the reaper and process teardown: they depend on assembly and on locks outside this model.
- ACPI, PCI, MSI, xHCI, virtio-net, terminals, framebuffer, shell, user programs and the driver registries: hardware plumbing, user interface, or simple lists.
