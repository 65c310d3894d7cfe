# CassiOS, verified in parts

A Dafny model of the parts of the CassiOS microkernel and its userspace where most can go wrong, with proofs of what
they promise. Functions and lemmas describe the states and what every step keeps; classes with loops over arrays, lists
and buffers follow the C++ code and are proved to compute those functions.

- **FAT32 file system** (`SectorCache`, `FatChains`, `FatLayout`, `FileData`, `Fat32`): the write-through LRU sector
  cache is invisible; the table and its chains; whole-file write and offset read over a volume of files.
- **Directories** (`Names`, `NameWriting`, `DirectorySlots`, `DirectoryChain`, `DirectoryPlaces`, `FatDirectory`,
  `EntryWriting`, `EntryCreation`, `EntryResults`, `EntryRemoval`, `EntryRemover`): long and short names, reading and
  finding entries, creating files and directories in the first room there is, with the directory growing and the volume
  running full, and removing them again.
- **Kernel IPC and scheduling** (`KernelState`, `KernelRuns`, `KernelInvariants`, `MessageOrder`, `RuleNeeded`,
  `Fairness`, `KernelObjects`, `IntrusiveList`): send, receive, reply, notify, wait, exit, exec, interrupts and the timer
  as one state machine; invariants over all runs, message order per pair of processes, bounded waiting; the process
  objects that implement it in place, and the linked list they are kept in.
- **Heap** (`HeapBlocks`, `HeapAllocator`, `UserHeap`, `Break`): the first-fit allocator on intrusive headers, the
  growing user heap above it, and the kernel's side of its growth.
- **Memory** (`Mem`, `Pages`, `Physical`, `PageTables`, `AddressSpaces`, `AddressSpaceRuns`, `Isolation`, `Paging`):
  word-wise copy and move, the frame bitmap, two-level page tables kept in frames, what one process can do to another,
  and conservation of frames.
- **ELF loading** (`ElfImage`, `FrameBudget`, `Elf`): which files load, what the process then finds in memory, and how
  many frames it takes.
- **Display and terminal** (`Gfx`, `DisplayDriver`, `TextGrid`, `TerminalService`): the ring of pixel rows, and a text
  terminal whose scrolling is put off until a flush.

`Bytes` and `Finite` hold what all of these use. Times, the disk device and the hardware below it are parameters or
plain state; a system call is one step.

## What the proofs found

Places where the code does not do what one would expect, each with the exact condition proved:

- A dotted upper-case name such as `A.B` is stored without a long name and comes back as `A~4.B`, so that opening it by
  the name it was created with fails (`Names.ShortRoundTripIff`, `EntryResults.CreateThenFind`).
- Creating a directory with a long name on a full volume can leave long-name slots behind; an entry created later behind
  them is shown under their name (`EntryResults.KeptIff`, `EntryResults.OrphansRename`).
- Removing an entry can take slots of another one, whose long name then ends early (`EntryRemoval.RobbingShows`,
  `EntryRemoval.RobbedName`); an entry whose slots begin in the cluster before while its short slot is not the first of
  its own leaves slots behind (`EntryRemover.RemovalResult`).
- When the cache's 32-bit age counter wraps, and only then, the order of eviction is no longer that of use: the sector
  used last is evicted first (`SectorCache.WrapIff`, `SectorCache.WrapEvictsNewest`).
- A reply to a sender that is still queued wakes it, and the message received later is read from memory that the sender
  may have changed (`RuleNeeded.BrokenRule`, `MessageOrder.RuleIsExact`).
- A process may map any physical frame, another's or a page table; isolation survives exactly the harmless ones
  (`Isolation.IsolationIff`, `Isolation.SharingBreaks`).
- An ELF segment that does not start on a page boundary is loaded shifted, and its tail may not be mapped
  (`ElfImage.UnalignedSegmentsAreShifted`, `ElfImage.UnalignedTailIsMissing`).
- With one frame too few, loading a program and growing the break report success although the last page is not mapped
  (`FrameBudget.ShortOfOne`, `Elf.LoadedIsMapped`, `Break.BreakMover.Sbrk`).
- A heap request of more than 2^32 - 4 bytes is rounded to zero and answered with a block that does not hold it
  (`UserHeap.LargestIsServedNothing`).
- `mem::copy` on overlapping ranges is a move only under the condition of `Mem.ForwardIsMoveIff`.
- `mapUserPage` does nothing, silently, when no frame is left for a page table; user frames below 1 MiB are never given
  back, and device frames above it are freed with the space (`AddressSpaces.MapChangesOnePage`,
  `AddressSpaceRuns.DestroyRestores`).
- Marking a region used that ends in the last page of the address space does not cover it (`Physical.RegionIsCovered`).
- A rectangle whose right or lower edge passes 2^32 is not clipped (`Gfx.ClipExact`, `Gfx.ClipEscapes`).
- The terminal leaves its first cursor on the screen unless the next operation redraws that cell (`TextGrid.StrayCursor`),
  and can lose the picture when 2^28 rows of scrolling or more are put off (`TerminalService.LagIff`).
- `read` returns a byte count of 2^31 or more as a negative number (`Fat32.Filesystem.Read`).

## Model

| member | source | states |
|---|---|---|
| `SectorCache.CacheIsTransparent` | userspace/core/vfs/src/fat32/filesystem.cpp:25-104 | For every sequence of reads and writes through the 16-sector write-through cache, every answer, the disk a later reader would see and the cache's coherence are those of a plain disk without a cache. |
| `SectorCache.CacheIsLru` | userspace/core/vfs/src/fat32/filesystem.cpp:35-104 | While the 32-bit age counter does not wrap, the cache holds exactly the most recently used sectors: as many as it can, each used later than any sector it does not hold. |
| `SectorCache.RecencyIff` | userspace/core/vfs/src/fat32/filesystem.cpp:65-104 | An access keeps the ages in the order of use exactly when it does not carry the 32-bit counter past its end, given one other valid entry. |
| `SectorCache.WrapIff` | userspace/core/vfs/src/fat32/filesystem.cpp:65-104 | The same for every run from a fresh cache: after the next access the ages still follow the order of use exactly when the counter has not wrapped. |
| `SectorCache.WrapEvictsNewest` | userspace/core/vfs/src/fat32/filesystem.cpp:65-86 | In the state a run of 2^32 - 1 counted accesses reaches, a sector read then is the first to be evicted, although it was used last. |
| `SectorCache.CachedDisk.CacheRead` | userspace/core/vfs/src/fat32/filesystem.cpp:65-86 | The array-based cache does one step of the cache model: answer, entries, ages, disk. |
| `SectorCache.CachedDisk.CacheWrite` | userspace/core/vfs/src/fat32/filesystem.cpp:88-104 | The same for a write; a dirty victim reaches the device first. |
| `SectorCache.CachedDisk.CacheEvict` | userspace/core/vfs/src/fat32/filesystem.cpp:35-63 | The slot chosen is an invalid one or the one with the smallest age, written back if dirty. |
| `Fat32.Filesystem.FatSet` | userspace/core/vfs/src/fat32/filesystem.cpp:160-177 | One table entry of the abstract volume takes the low 28 bits, its top four bits and everything else on the volume stay; out of range nothing happens. |
| `Fat32.Filesystem.AllocateCluster` | userspace/core/vfs/src/fat32/filesystem.cpp:179-187 | The lowest free cluster becomes an end of chain; 0 exactly when no cluster is free. |
| `Fat32.Filesystem.FreeChain` | userspace/core/vfs/src/fat32/filesystem.cpp:189-198 | On every table, cyclic ones and links out of range included, it terminates and frees exactly the clusters reachable from the start. |
| `Fat32.Filesystem.FlushFat` | userspace/core/vfs/src/fat32/filesystem.cpp:200-216 | The volume is unchanged and every dirty FAT sector still cached has its copy in the second FAT. |
| `Fat32.Filesystem.ClusterAtOffset` | userspace/core/vfs/src/fat32/filesystem.cpp:220-229 | The cluster reached by following as many links as whole clusters fit into the offset, 0 when the chain ends before. |
| `Fat32.Filesystem.Read` | userspace/core/vfs/src/fat32/filesystem.cpp:1081-1120 | Returns the requested slice of the bytes held along the file's chain, clipped at its size; the count is that number of bytes exactly below 2^31. |
| `Fat32.Filesystem.Write` | userspace/core/vfs/src/fat32/filesystem.cpp:1122-1231 | Succeeds exactly when the file's own clusters and the free ones suffice; then the file's chain has exactly the clusters needed and holds the bytes, its directory entry names chain and size, and no other byte of the volume has changed; without success the entry is as before. |
| `Fat32.Filesystem.WriteThenRead` | userspace/core/vfs/src/fat32/filesystem.cpp:1081-1231 | After a successful write every read through the handle returns the slice of the bytes written. |
| `FileData.WriteKeepsFiles` | userspace/core/vfs/src/fat32/filesystem.cpp:1122-1231 | Over a whole volume of files on disjoint chains, writing one file gives it the new bytes and leaves every other file's chain and bytes; the number of free clusters changes by exactly the difference. |
| `NameWriting.NameToShort` | userspace/core/vfs/src/fat32/filesystem.cpp:249-290 | The loops over the name give the 8.3 field: upper-case letters, tilde and digit, extension. |
| `NameWriting.CheckLfn` | userspace/core/vfs/src/fat32/filesystem.cpp:634-660 | A name needs long-name slots exactly when it is not an upper-case 8.3 name. |
| `Names.LongRoundTrip` | userspace/core/vfs/src/fat32/filesystem.cpp:294-328 | A name written into long-name slots is read back from them unchanged. |
| `Names.ShortRoundTripIff` | userspace/core/vfs/src/fat32/filesystem.cpp:249-290 | A name stored without long-name slots is read back unchanged exactly when it has no dot, or already has the tilde form that the short name would give it. |
| `Names.ShortNameIsChanged` | userspace/core/vfs/src/fat32/filesystem.cpp:249-290 | `A.B` is read back as `A~4.B`. |
| `FatDirectory.Directory.ReadDirEntry` | userspace/core/vfs/src/fat32/filesystem.cpp:374-454 | Entry number index of the directory's scan, with the place of its short slot; missing exactly when there are not that many. |
| `FatDirectory.Directory.FindEntry` | userspace/core/vfs/src/fat32/filesystem.cpp:456-472 | The first entry of that name, at its place; missing exactly when no entry has it. |
| `FatDirectory.Directory.AddCluster` | userspace/core/vfs/src/fat32/filesystem.cpp:699-717 | The first free cluster, zeroed, behind the chain's last; 0 exactly when the volume is full. |
| `FatDirectory.Directory.FindRun` | userspace/core/vfs/src/fat32/filesystem.cpp:664-727 | Finds the room that the model's search finds, with the directory made longer by the same clusters. |
| `DirectoryPlaces.RoomExact` | userspace/core/vfs/src/fat32/filesystem.cpp:664-727 | The room found is the first run of free slots long enough; one is found exactly when the slots and those of all free clusters have such a run; growing shows only zeroed slots and touches nothing else. |
| `DirectoryPlaces.RoomAmount` | userspace/core/vfs/src/fat32/filesystem.cpp:697-720 | With m of the free clusters there is room exactly when the search adds at most m: no cluster is added that is not needed. |
| `EntryCreation.Creator.CreateEntry` | userspace/core/vfs/src/fat32/filesystem.cpp:622-837 | The volume afterwards, the verdict and the place reported are those of the model's creation: no room, no content cluster, or made. |
| `EntryResults.CreationIff` | userspace/core/vfs/src/fat32/filesystem.cpp:664-796 | An entry is made exactly when its slots fit into the directory and the free clusters, and for a directory with one of these set aside for its content. |
| `EntryResults.CreationKeepsFiles` | userspace/core/vfs/src/fat32/filesystem.cpp:622-837 | Whatever the outcome, every file apart from the directory keeps its chain and its bytes and stays apart from the clusters taken. |
| `EntryResults.CreationShows` | userspace/core/vfs/src/fat32/filesystem.cpp:622-837 | In a well-formed directory success shows the old entries in their order with one more among them and keeps the form; failure shows the same entries, and keeps the form exactly when no long-name slot was left behind. |
| `EntryResults.CreationContent` | userspace/core/vfs/src/fat32/filesystem.cpp:790-829 | A new file has no cluster; a new directory's entry names a cluster that is a chain of its own, well-formed, showing no entry, with `.` naming itself and `..` its parent. |
| `EntryResults.KeptIff` | userspace/core/vfs/src/fat32/filesystem.cpp:737-796 | A directory creation that fails for want of a content cluster leaves long-name slots behind exactly when its run of slots reaches over the end of a cluster. |
| `EntryResults.OrphansRename` | userspace/core/vfs/src/fat32/filesystem.cpp:398-441 | An entry put behind such slots is shown under their name, not its own. |
| `EntryResults.CreateThenFind` | userspace/core/vfs/src/fat32/filesystem.cpp:456-837 | Creating an entry in a directory without the name and looking it up: it succeeds exactly when there is enough room, and finds the entry, in the slot reported, exactly when it succeeds and the name keeps its form. |
| `EntryRemover.Remover.RemoveEntry` | userspace/core/vfs/src/fat32/filesystem.cpp:839-925 | The first entry of the name is removed exactly when there is one and it is no directory with entries; then its clusters are free, the slots marked are those of the model, in the cluster of the short slot and the one before, and nothing else has changed; otherwise nothing has. |
| `EntryRemover.RemovalResult` | userspace/core/vfs/src/fat32/filesystem.cpp:839-925 | In a well-formed directory the entry that goes is the first of that name. Unless it robs another one, all others are shown as before, in their order, and the form is kept exactly when its slots do not reach back further than the walk. |
| `EntryRemover.RemovalKeepsFiles` | userspace/core/vfs/src/fat32/filesystem.cpp:839-925 | Every file apart from the directory and the entry's clusters keeps its chain and its bytes. |
| `EntryRemover.RemovalFrees` | userspace/core/vfs/src/fat32/filesystem.cpp:847-870 | The number of free clusters grows by exactly the length of the entry's chain. |
| `EntryRemover.CreateThenRemove` | userspace/core/vfs/src/fat32/filesystem.cpp:622-925 | An entry created and then removed, robbing no other, leaves the directory showing what it showed, and the free clusters those of before less the ones the directory has grown by. |
| `EntryRemoval.RobbingShows` | userspace/core/vfs/src/fat32/filesystem.cpp:886-918 | When the cluster begins with long-name slots of another entry that reach back into the cluster before, removing any later entry of the cluster marks those slots in the cluster before as well: that other entry is then shown under what is left of its name, and all else as it should be. |
| `EntryRemoval.RobbedName` | userspace/core/vfs/src/fat32/filesystem.cpp:886-918 | That is the beginning of its name, thirteen characters for each slot left, or the short name when none is. |
| `KernelInvariants.RunKeeps` | kernel/src/core/syscall.cpp:124-282 | Every run of system calls, interrupts and exits that keeps the reply rule (no reply to a sender still queued) keeps the invariant: one running process, every blocked sender in one queue or handed over once, every queue consistent with it, no receiver blocked with something waiting for it. |
| `KernelInvariants.BootKeeps` | kernel/src/core/process.cpp:25-53 | The state after start-up satisfies it. |
| `MessageOrder.MessagesArriveInOrder` | kernel/src/core/syscall.cpp:124-282 | On every run from start-up that keeps the reply rule, what a process has received from another is, message by message, a prefix of what that one has sent, cut to the receiver's capacity: nothing lost before, reordered, duplicated or altered. |
| `MessageOrder.DeliveryIsStored` | kernel/src/core/syscall.cpp:47-211 | A delivery in the log is in the receiver's memory: message and data, cut to its capacity. |
| `MessageOrder.RuleIsExact` | kernel/src/core/syscall.cpp:213-242 | A reply keeps the invariant exactly when it does not go to a sender that is still queued. |
| `RuleNeeded.BrokenRule` | kernel/src/core/syscall.cpp:213-242 | A run of four steps from start-up in which a process replies to a sender it has not received, and the receiver then gets bytes that were not sent. |
| `MessageOrder.ExitWakes` | kernel/src/core/process.cpp:212-282 | Exit wakes the senders queued at the process with -1 and those waiting for its end with 0. |
| `Fairness.BoundedWaiting` | kernel/src/core/scheduler.cpp:45-103 | A process that stays ready runs within fewer switches than there are other processes, and within ten timer ticks for each of them. |
| `KernelObjects.Machine.Handle` | kernel/src/core/syscall.cpp:490-598 | The kernel's process objects and tables, changed in place, with lists and queues as sequences, take exactly the step of the kernel model for every call and interrupt, and keep its invariant. |
| `KernelObjects.Machine.FindNextReady` | kernel/src/core/scheduler.cpp:45-66 | The walk over the process list finds the next process of the model's round robin. |
| `IntrusiveList.LinkedList.PushBack` | libs/collections/include/std/collections/list.hpp:28-37 | With head, tail and the links in the nodes changed in place, the node is appended to the sequence the list stands for. |
| `IntrusiveList.LinkedList.PopFront` | libs/collections/include/std/collections/list.hpp:48-59 | The first node is taken off, null for an empty list, and the list stays well linked. |
| `IntrusiveList.LinkedList.Remove` | libs/collections/include/std/collections/list.hpp:61-81 | Exactly the target is taken out, wherever it is, found exactly when it is in the list; head, tail and links follow. |
| `HeapBlocks.RunKeeps` | libs/alloc/src/alloc.cpp:31-120 | Every run of allocations, frees and extensions keeps the region tiled by its blocks, no two free neighbours, and every live allocation in a used block of its own. |
| `HeapBlocks.LiveAreDisjoint` | libs/alloc/src/alloc.cpp:31-61 | Live allocations lie inside the region and do not overlap. |
| `HeapBlocks.FreeUndoesAllocate` | libs/alloc/src/alloc.cpp:31-94 | Freeing what was just allocated restores the block list. |
| `HeapBlocks.FitIffFreeRange` | libs/alloc/src/alloc.cpp:39-44 | First fit finds a block exactly when some free range of the region is long enough. |
| `HeapAllocator.Allocator.Allocate` | libs/alloc/src/alloc.cpp:31-61 | The header walk and split compute the model's first fit on the block list; nothing changes when there is none. |
| `HeapAllocator.Allocator.Free` | libs/alloc/src/alloc.cpp:63-94 | Release and the coalescing pass over the headers compute the model's release; pointers outside the region and free blocks are ignored. |
| `HeapAllocator.Allocator.Extend` | libs/alloc/src/alloc.cpp:96-120 | Growth at the end joins a free last block or adds one, as the model does. |
| `UserHeap.AllocationExact` | libs/heap/src/heap.cpp:21-45 | Null exactly for size zero, an overflowing size, or when a needed sbrk fails; every other used block stays as it was; otherwise one block becomes used, and it provides the bytes exactly for sizes up to 2^32 - 4. |
| `UserHeap.LargestIsServedNothing` | libs/alloc/src/alloc.cpp:35-44 | The largest size wraps to zero when rounded up, and is answered with a block that does not hold it. |
| `UserHeap.Heap.Alloc` | libs/heap/src/heap.cpp:21-45 | The heap object computes the model's allocation, with one sbrk on first use and one more when nothing fits. |
| `UserHeap.SbrkMoves` | kernel/src/core/syscall.cpp:437-488 | The break moves by the increment rounded up to pages exactly when the result stays below the stack and the frames suffice; otherwise it stays. |
| `Break.BreakMover.Sbrk` | kernel/src/core/syscall.cpp:437-488 | The page loop on the page tables: break and answer are those of the heap's model with the frames that the bitmap has; after success every page handed out is mapped exactly when there was a frame for each page and each missing table; other pages and other spaces are as before. |
| `Mem.Copy` | libs/mem/src/mem.cpp:14-44 | For every destination, source and length, overlapping or not, the word-at-a-time copy is the forward copy byte by byte. |
| `Mem.ForwardIsMoveIff` | libs/mem/src/mem.cpp:14-44 | That is a move of the bytes exactly when the destination does not start inside the source behind its start, or the source repeats with the distance between them. |
| `Mem.Move` | libs/mem/src/mem.cpp:46-86 | The bytes arrive as they were, whatever the overlap; nothing else changes. |
| `Mem.Set` | libs/mem/src/mem.cpp:88-113 | Every byte of the range takes the low eight bits of the value; nothing else changes. |
| `Physical.FrameBitmap.AllocFrame` | kernel/src/memory/physical.cpp:106-121 | The lowest free frame becomes used; 0 exactly when all are used. |
| `Physical.FrameBitmap.FreeFrame` | kernel/src/memory/physical.cpp:123-131 | Exactly that frame becomes free. |
| `Physical.RegionIsCovered` | kernel/src/memory/physical.cpp:80-91 | Marking a region used covers every address of it exactly when its rounded end does not pass 2^32. |
| `AddressSpaces.MapChangesOnePage` | kernel/src/memory/paging.cpp:147-170 | Mapping any frame at all changes the translation of that one page of that one address space, and of no other page of any space; without a frame for the page table nothing changes, and nothing tells the caller. |
| `AddressSpaces.MapKeeps` | kernel/src/memory/paging.cpp:147-170 | Mapping a frame that is the kernel's to give keeps the invariant of the address spaces. |
| `Isolation.IsolationIff` | kernel/src/core/syscall.cpp:298-333 | After a page has been mapped to any frame, as the call that maps devices may do, the spaces are isolated (a store through a user page changes no translation and nothing another page shows above 1 MiB) exactly when that frame is no page table, and is below 1 MiB or shown by no other page. |
| `Isolation.SharingBreaks` | kernel/src/core/syscall.cpp:298-333 | Mapping a frame that another process shows makes both pages translate to it, and there is a store through one that the other sees. |
| `Isolation.PagingBreaks` | kernel/src/core/syscall.cpp:298-333 | Mapping a page table or directory gives a store that changes a translation. |
| `Isolation.MappableIsHarmless` | kernel/src/memory/paging.cpp:147-170 | A frame that is the kernel's to give is such a harmless one. |
| `Isolation.RunsStayIsolated` | kernel/src/memory/paging.cpp:129-203 | Every state of a run that maps only frames that are the kernel's to give is isolated. |
| `AddressSpaceRuns.RunKeeps` | kernel/src/memory/paging.cpp:129-203 | Every run of creating, storing, destroying and mapping frames that are the kernel's to give keeps each used frame accounted for by one owner and the kernel's part shared by all spaces. |
| `AddressSpaceRuns.DestroyRestores` | kernel/src/memory/paging.cpp:129-203 | Creating a space, any work in it, and destroying it: other spaces own what they owned. If no device memory above 1 MiB was mapped, the frames in use are those of before exactly when every step was clean: no frame lost by remapping its page, by a missing page table, or by lying below 1 MiB. With such device memory, the frames in use before still are exactly when no page showed one of them above 1 MiB in the end. |
| `Paging.PagingManager.CreateAddressSpace` | kernel/src/memory/paging.cpp:129-145 | The operation on page frames is the model's creation; 0 exactly when no frame is free. |
| `Paging.PagingManager.MapUserPage` | kernel/src/memory/paging.cpp:147-170 | The bytes written into directory and table are the model's mapping, for every frame; the invariant is kept for frames that are the kernel's to give. |
| `Paging.PagingManager.DestroyAddressSpace` | kernel/src/memory/paging.cpp:172-203 | The walk over tables and pages frees exactly what the model frees. |
| `Elf.ElfLoader.Load` | kernel/src/core/elf.cpp:21-112 | Succeeds exactly for a good header, program headers and bytes inside the file, and frames that last; then every page of every segment holds its image, entry point and heap start are those of the file, and every other address space owns and sees what it did. |
| `FrameBudget.LastsIff` | kernel/src/core/elf.cpp:78-108 | The frames last exactly when there is one for each page and one for each page table missing before the last page. |
| `FrameBudget.PlaceSpends` | kernel/src/memory/paging.cpp:147-170 | Placing a page takes one frame, and one more for a page table that is missing and can still be had. |
| `FrameBudget.ShortOfOne` | kernel/src/core/elf.cpp:78-108 | One frame too few goes unnoticed exactly at the end: the last page takes the last frame, its table is missing and stays missing. |
| `Elf.LoadedIsMapped` | kernel/src/core/elf.cpp:78-108 | After a load that reports success every page is mapped exactly when before it there was a frame for each page and each missing table; otherwise one frame was missing, and the last page is not mapped. |
| `Elf.LoadedBytes` | kernel/src/core/elf.cpp:78-108 | When the frames before the load were enough for pages and tables, the process finds in a page-aligned segment the bytes of the file and zeroes after them. |
| `ElfImage.UnalignedSegmentsAreShifted` | kernel/src/core/elf.cpp:85-103 | A segment that starts inside a page is found shifted down by that offset. |
| `ElfImage.UnalignedTailIsMissing` | kernel/src/core/elf.cpp:78-108 | Its tail past the placed pages lies in one more page, which the load leaves as it was: not mapped, unless another segment or an earlier mapping is there. |
| `Elf.HeapIsAboveSegments` | kernel/src/core/elf.cpp:73-76 | The heap starts on a page boundary above every segment and no page higher than it must. |
| `Gfx.PixelBuffer.FillRect` | libs/gfx/src/gfx.cpp:52-69 | Exactly the pixels of the rectangle inside the buffer take the colour, in the rotated ring of rows. |
| `Gfx.ClipExact` | libs/gfx/src/gfx.cpp:52-60 | The clipped width stays inside the buffer exactly when the right edge does not pass 2^32. |
| `Gfx.PixelBuffer.DrawChar` | libs/gfx/src/gfx.cpp:83-101 | The 8 by 16 cell shows the glyph, clipped; other pixels stay. |
| `Gfx.PixelBuffer.Scroll` | libs/gfx/src/gfx.cpp:113-141 | Turning the ring of rows is a move of the whole picture up, with the colour below. |
| `DisplayDriver.Display.Flush` | userspace/drivers/display/src/display.cpp:46-67 | After a flush the framebuffer shows the logical picture row by row; without a change it is left alone. |
| `TerminalService.Terminal.PutChar` | userspace/core/terminal/src/terminal.cpp:73-125 | The cells, the cursor and the picture after a character are those of the text model, with scrolling put off. |
| `TerminalService.Terminal.Serve` | userspace/core/terminal/src/terminal.cpp:42-160 | After any sequence of characters, clears, set-cursor requests inside the grid and flushes, and a flush, the framebuffer shows exactly the text that the sequence stands for, cursor included. |
| `TerminalService.Terminal.Greet` | userspace/core/terminal/src/main.cpp:24-37 | What the service shows when it starts to receive, from a black screen. |
| `TextGrid.StrayCursor` | userspace/core/terminal/src/main.cpp:24-55 | After the greeting the inverted cursor cell is gone with the next operation exactly when that operation redraws the cell; otherwise it stays on the screen. |
| `TextGrid.PictureScrolls` | userspace/core/terminal/src/terminal.cpp:42-59 | Scrolling rows of cells is scrolling the picture by sixteen pixels each. |
| `TerminalService.LagIff` | userspace/core/terminal/src/terminal.cpp:42-59 | With any number k of rows of scrolling put off, the pixel count taken modulo 2^32 gives the picture of the text scrolled k rows exactly when k is below 2^28 or the picture is blank from that pixel row down. |
| `TextGrid.ShortRunsKeepUp` | userspace/core/terminal/src/terminal.cpp:73-125 | A run of fewer operations than the limit never gets there. |

## Left out

- Mounting and the decoding of the boot sector; the layout of a volume is a parameter that fits the device.
- Path resolution, opening, removing and listing files by path; they are built from the operations modelled.
- FatDirectory.Directory.ReadDirEntry: for directories without twenty long-name slots in a row, because the reader's
  buffer has no room for the short entry behind twenty of them.
- FatDirectory.Directory.FindEntry: the same.
- EntryCreation.Creator.CreateEntry: names of 1 to 247 ASCII characters without zero bytes; longer ones would need those
  twenty slots.
- EntryResults.CreateThenFind: the attribute has no volume-label bit, since readers skip such entries.
- Fat32.Filesystem.Read: a handle whose chain or size no longer match the directory entry, as after a write through
  another handle, is outside its contract; so is a chain that is damaged.
- Fat32.Filesystem.Write: the directory entry lies outside the file's own clusters, and the chain is intact.
- Fat32.Filesystem.FlushFat: FAT sectors that were evicted before the flush are not in the second FAT; equality of the
  two FATs is not claimed, because the code does not ensure it.
- Device errors and failing heap allocations inside the file system; sectors are always read and written.
- MessageOrder.MessagesArriveInOrder: runs in which no process replies to a sender still queued at another process; the
  rule is exact for the invariant.
- Process numbers are not reused: 2^32 creations are not modelled.
- KernelInvariants.RunKeeps: runs that keep the reply rule; what happens otherwise is `RuleNeeded.BrokenRule`.
- KernelObjects.Machine.Handle: lists and queues are sequences; that the linked list with links in its nodes computes the
  same is proved apart, in `IntrusiveList`, and the two are not joined.
- System calls and interrupt handlers are taken to be atomic. This is an assumption: interrupts stay enabled during a
  system call, since its vector is a trap gate. `sleep`, `write` to the serial line and the query calls are not modelled.
- AddressSpaceRuns.RunKeeps: runs map only frames that are the kernel's to give. The checks and the loop of `mapDevice`
  are left out; each of its steps is a mapping of any frame, for which `Isolation.IsolationIff` says what follows.
- Paging.PagingManager.MapUserPage: keeps the invariant for frames that are the kernel's to give; the mapping itself is
  exact for every frame.
- HeapAllocator.Allocator.Free: a pointer inside the region is one that the allocator gave out.
- UserHeap.Heap.Alloc: whether `sbrk` finds a frame for every page is a parameter there; `Break.BreakMover.Sbrk` says
  which frames that takes and what is mapped. The two are not joined into one object.
- Gfx.PixelBuffer.FillRect: for rectangles whose edges do not pass 2^32; what happens to others is stated by
  `Gfx.ClipExact`.
- TerminalService.Terminal.Serve: while fewer than 2^28 rows of scrolling are put off, for grids of at most 248 columns
  and 255 rows (beyond them the eight-bit cursor wraps), with set-cursor requests inside the grid, which the code does
  not test.
- TerminalService.Terminal.PutChar: the same.
- Elf.ElfLoader.Load: files of less than 4 GiB whose program headers and segments stay below 4 GiB and the kernel's
  part of the address space; the code does not test this.
- Elf.LoadedBytes: when the frames before the load cover pages and tables, which is exactly when every page is mapped.
- EntryRemover.Remover.RemoveEntry: the entry's own chain is intact and apart from the directory's; without twenty
  long-name slots in a row.
- HeapBlocks.RunKeeps: sizes up to 2^32 - 4, and frees of live pointers; larger sizes are the subject of
  `UserHeap.LargestIsServedNothing`.
- Page flags other than present, writable and user; the TLB; the parsing of the boot loader's memory map.
- `drawRect`, `drawText` and `blit`, the keyboard, mouse and disk drivers, the name server and the shell.
