# Geniux boot and paging model

A Dafny model of how Geniux comes up and keeps its address spaces: the loader
`loader.S` (memory probe, disk read, page structures, higher-half switch, ELF
segment loading), and the kernel code that later changes those same page
structures (`page_table_add`, `page_table_pte_remove`, `addr_v2p`, `malloc_page`,
`create_page_dir`, `page_dir_activate`) together with the bitmap allocators that
hand out their addresses and frames.

Everything happens in one byte-addressed physical memory of 2^32 bytes. The
processor is a class (`Cpu.Machine`) with the general registers, the paging
state and that memory as an array; each routine of the loader is a method over
it that keeps the labels, branches, partial-register writes and decrement-then-test
loops of the source. What a routine computes is stated on memory values, and the
theorems are lemmas about those values. The meaning of page structures is an
independent two-level walk, `Paging.Translate`, after section 4.3 of the Intel
SDM, Volume 3A (4 KB pages; CR4.PSE is never set).

To verify: `dafny verify dfyconfig.toml` in this directory.

| file | contents |
|---|---|
| `Words.dfy`, `PhysicalMemory.dfy` | 8/16/32-bit words, bit operations, little-endian memory, page-structure entries |
| `Paging.dfy` | the page walk, loads and stores through it, the recursive self-map |
| `Cpu.dfy` | the machine |
| `PageTables.dfy`, `KernelMap.dfy` | `setup_page` and what its structures mean |
| `HigherHalf.dfy` | GDT, video segment and stack move up by 0xC0000000 |
| `DiskReader.dfy` | `rd_disk_m_32` against a 28-bit LBA drive (ATA/ATAPI-6) |
| `ElfImage.dfy` | program headers, applying them in order, well-formed images |
| `MemoryCopy.dfy`, `ElfLoader.dfy` | `mem_cpy` and `kernel_init` over the stack, with paging on, for any image |
| `Boot.dfy`, `Geniux.dfy` | the four stages end to end, for any layout and with the loader's own constants |
| `MemoryProbe.dfy` | E820 collection and scan (section 15.1 of the ACPI specification), E801 |
| `PageTableOps.dfy`, `AddressSpaces.dfy` | the kernel's page-table operations, and all their runs |
| `FramePool.dfy` | `bitmap_scan`, `bitmap_set`, `vaddr_get`, `palloc`, `pfree`, `mem_pool_init` |
| `FirstPages.dfy` | the first kernel and user page of a 32 MB machine |

## Constants and where they come from

`include/boot.inc` defines `LOADER_BASE_ADDR` as 0x900 (the comments in
`loader.S` still say 0x600; `kernel/memory.c:491` reads the memory size from
0xb00, which agrees with 0x900). It does not define `PAGE_DIR_TABLE_POS`,
`KERNEL_BIN_BASE_ADDR`, `KERNEL_START_SECTOR`, `PT_NULL` or the `PG_*` flags. The
flags and `PT_NULL` have the values the hardware and the ELF format give them;
the rest are parameters (`Boot.Layout`) under the stated condition `Boot.Fits`,
and `Boot.GeniuxFits` shows the condition holds for the addresses used elsewhere in
the repository (directory at 0x100000, image at 0x70000, sector 6, text memory at
0xB8000); `Geniux.BootGeniux` is the boot with these. Where the ranges of virtual addresses start is a parameter, too
(`PageTableOps.KernelRange`, `AddressSpaces.PageRange`).

Entries 256..1023 of the first page table and all of the tables behind entries
769..1022 are never initialised by the loader. They hold arbitrary bytes here.

## Where the code does less than it says

Each of these is a property that fails on some inputs; the model keeps the code
and proves exactly when it holds.

* The memory size reported from E820 is the greatest end of a range if and only
  if all ranges end below 2 GB (signed comparison, low dwords only);
  `TwoGigabytesScanAsNone` is a range that is missed.
* The E820 buffer of 244 bytes takes twelve ranges; with a thirteenth the count
  word is overwritten and what is read back differs, whatever the ranges hold.
* `rd_disk_m_32` reads the sectors asked for if and only if there are 1 to 255;
  256 sectors start the counter at 0 (`SectorCount256Wraps`).
* `or` and `add` of 0xC0000000 agree if and only if the address is below 1 GB
  (`OrIsNotAddAt1GB`).
* `kernel_init` compares a segment's address with 0xC0001500 and later reads it
  from the header again, after two pushes. The loader is preserved as long as the
  address read the second time is in reach. It is the first one unless the field
  lies in the pushed words (`OffStackHeader`); `OverlaidHeader` is a table, 17
  bytes below the stack pointer, whose header is accepted and in range and is
  copied over the loader.
* `bitmap_scan` for two or more bits looks one bit behind the bitmap; its answer
  stays inside if and only if the free tail does not combine with that bit
  (`SpillExample`).
* `bitmap_set` with value 0 clears nothing, so `pfree` frees nothing. (Together
  with `palloc` this gives: no frame is ever handed out twice.)
* `mem_pool_init` uses all memory up to a page if and only if there are fewer than
  258 MB, because the page count is a 16-bit variable (`EmptyPoolsAt258MB`).

## Model

| member | source | states |
|---|---|---|
| PhysicalMemory.EntryAfterSet | loader.S:209-213 | storing a directory or table entry changes exactly that entry, in whatever frame |
| Words.OrFlags | loader.S:204-207 | the page flags do not mix with the frame bits |
| Words.OrTopBits | loader.S:156 | the or of 0xC0000000 sets the two top bits and keeps the other thirty |
| Words.OrIsAddHigherHalf | loader.S:156-159 | or and add of 0xC0000000 agree exactly on addresses below 1 GB |
| Words.OrIsNotAddAt1GB | loader.S:156-159 | at 1 GB the or gives 0xC0000000 and the add 0 |
| Paging.SelfMapTranslates | loader.S:211-213 | under any directory whose last entry names itself, 0xFFC00000+4*(va>>12) translates to the entry governing va exactly when va has a table, and 0xFFFFF000+4*(va>>22) always to its directory entry |
| Paging.PdeWindowAccess | loader.S:211-213 | a load or store at the directory window reads or changes exactly the directory entry of va |
| Paging.PteWindowAccess | loader.S:211-213 | a load or store at the table window reads or changes exactly the entry governing va, or faults when there is no table |
| PageTables.ClearPageDirMem | loader.S:195-201 | all 1024 directory entries are zero, for any memory before, and nothing outside the directory changes |
| PageTables.CreatePde | loader.S:203-213 | entries 0 and 768 name the first table, 1023 the directory, the others stay zero |
| PageTables.CreateKernelPte | loader.S:215-226 | the first 256 table entries map page j to frame j; nothing else changes |
| PageTables.CreateKernelPde | loader.S:233-246 | exactly entries 769..1022 are filled, each with its own table |
| PageTables.SetupPage | loader.S:195-248 | the directory equals the closed form and the first table maps the low megabyte, from any memory; no byte outside the directory and the first quarter of the first table changes |
| PageTables.BuiltInNumbers | loader.S:195-248 | that closed form byte by byte: the dwords at the directory, at the first table, and all bytes that stay |
| KernelMap.DualMapping | loader.S:203-226 | the first 4 MB and the 4 MB from 3 GB translate alike, and the first megabyte of both is physical memory itself |
| KernelMap.UserHalfUnmapped | loader.S:196-246 | every address from 4 MB to 3 GB faults |
| KernelMap.StructureWindow | loader.S:211-246 | page i of the top 4 MB shows the frame that directory entry i names, and faults for entries 1..767 |
| KernelMap.BuiltSelfMap | loader.S:211-246 | after setup_page both windows show the governing entries, the table window faulting exactly for 4 MB to 3 GB |
| KernelMap.StructureFrames | loader.S:229-246 | entries 768..1023 name 256 distinct frames, which are exactly those of the megabyte from the directory on |
| KernelMap.MappedBelow | loader.S:253-259 | no write below the directory disturbs the mapping |
| KernelMap.TranslateAbove | loader.S:195-248 | the walks never look below 1 MB, so no write there moves any address |
| DiskReader.LbaRoundTrip | loader.S:321-366 | for every 32-bit LBA the drive decodes the LBA modulo 2^28 in LBA mode, the count modulo 256 with 0 as 256, and the read command |
| DiskReader.ReadsRequestedSectors | loader.S:385-394 | the loop moves count*512 bytes exactly when the count in ecx is 1..255 |
| DiskReader.SectorCount256Wraps | loader.S:385-394 | 256 sectors make the loop run 2^32 times |
| DiskReader.StoredBlock | loader.S:390-394 | without address wrap the words land in one consecutive block in order and nothing else changes |
| DiskReader.SectorsStored | loader.S:310-395 | for 1 to 255 sectors the buffer is the disk's bytes from the first sector on, and nothing else changes |
| DiskReader.WriteCommandBlock | loader.S:321-366 | the six ports 0x1F2..0x1F7 get count, three LBA bytes, 0xE0 with the LBA's top four bits, and 0x20, through the shifts of al and cl; di keeps the count |
| DiskReader.StartLoop | loader.S:385-389 | only the low half of the product reaches the counter, its high half is the caller's |
| DiskReader.RdDiskM32 | loader.S:310-395 | the routine stores exactly that many words of the drive's transfer from ebx on, for every eax, ebx and ecx; for 1 to 255 sectors the buffer is the disk's bytes from 512*eax on and nothing else changes |
| HigherHalf.RelocatedAddress | loader.S:156-159 | an address of the low megabyte moved up by add or by or translates to the same physical byte |
| HigherHalf.DescriptorRoundTrip | loader.S:15-16 | the base read from a descriptor is the one it was built with, for every base, limit, access byte and flags |
| HigherHalf.VideoDescriptor | loader.S:15-16 | 0x80000007 and 0x00C0920B are the descriptor of the text memory at 0xB8000 |
| HigherHalf.DescriptorOr | loader.S:154-156 | the or on the descriptor's high dword is the or on the scattered base, and leaves limit and access bits |
| HigherHalf.VideoSegmentPreserved | loader.S:154-171 | every offset of the moved segment translates to the physical byte it had before |
| HigherHalf.RelocatedMeans | loader.S:153-157 | exactly the GDT pointer and the video descriptor's high dword change, to the moved values |
| HigherHalf.SwitchToHigherHalf | loader.S:153-168 | with paging on, the reloaded GDT register holds the old base plus 0xC0000000 and the whole GDT is seen there; esp moves by the same amount; the mapping is intact |
| ElfImage.CopiedApart | loader.S:303 | a forward byte copy between ranges that do not overlap copies every byte |
| MemoryCopy.CopiedFromLow | loader.S:303 | from the low megabyte the copy through the mapping is the forward byte copy on physical memory, overlap included, without a fault |
| MemoryCopy.CopiedFromFaults | loader.S:303 | a copy into the low megabyte faults exactly when a byte of its source is not mapped |
| MemoryCopy.RepMovsb | loader.S:303 | between any two linear addresses: the bytes copied up to the first unmapped one, and whether there was one |
| MemoryCopy.MemCpy | loader.S:290-307 | for any three stack arguments: saves ecx and ebp, copies, and continues with the registers and at the address that the stack then holds, or faults |
| ElfLoader.CallEffect | loader.S:290-307 | for a destination in reach mem_cpy changes nothing else below 0x1500 and nothing above 1 MB, finds ecx, ebp and the return address again, and faults exactly when its source is not mapped |
| ElfLoader.PassDecides | loader.S:267-283 | exactly which headers make the run stray and which make it fault |
| ElfLoader.OffStackHeader | loader.S:267-283 | a header off the pushed words strays exactly when its four words are readable, its type is not 0, its address is at least 0xC0001500, and its segment is not empty and ends behind 0xC0100000 |
| ElfLoader.SkippedHeader | loader.S:267-272 | a header of type 0, or with an address below 0xC0001500, copies nothing |
| ElfLoader.CopiedHeader | loader.S:267-283 | any other header with source and destination in the low megabyte copies its bytes to its address, and changes only those and 24 stack bytes |
| ElfLoader.OverlaidHeader | loader.S:270-283 | for every memory and return address below 0xFEB, a table whose first header is accepted and in range, and whose copy overwrites the loader at 0x900 |
| ElfLoader.CopySegment | loader.S:275-283 | outcome and memory are those of the pass, for any header and source; when control comes back, so do ecx, ebp, esp |
| ElfLoader.GetEachSegment | loader.S:266-286 | one pass for every header: outcome and memory are those of the pass, ebx advances by edx |
| ElfLoader.TablePreserves | loader.S:266-287 | for every table and wherever its run ends: below 0x1500 nothing but 24 stack bytes changes and above 1 MB nothing |
| ElfLoader.PreservedInWords | loader.S:253-288 | the same for the whole of kernel_init, byte by byte |
| ElfLoader.TraceSteps | loader.S:266-287 | the headers met start at e_phoff with the memory at entry, and each is the stride behind the one before, in the memory the pass before has left |
| ElfLoader.TraceInWords | loader.S:260-287 | from the image's words: the first header met is at image plus e_phoff, each next one e_phentsize further, e_phnum of them, where 0 counts as 2^32 |
| ElfLoader.TraceDecides | loader.S:266-287 | a run strays exactly if a header it meets strays, and faults exactly if one faults |
| ElfLoader.InRangeNeverStrays | loader.S:266-287 | a run whose accepted segments all end below 0xC0100000, off the pushed words, returns or faults, and preserves the loader |
| ElfLoader.RunFollowsWalk | loader.S:266-287 | when headers and segments stay in the low megabyte, the run returns with the memory that applying the segments in order gives |
| ElfLoader.KernelInit | loader.S:253-288 | for every image and table: outcome and memory are those of the run; it strays or faults exactly if a header it meets does; below 0x1500 nothing but 24 stack bytes changes and above 1 MB nothing; when it returns, stack pointer, ebp and return address are right |
| ElfImage.WalkPreserves | loader.S:270-287 | whatever the headers say, up to the end of the walk or to where it leaves the low megabyte, no byte below 0x1500 and none above 1 MB changes |
| ElfImage.KernelLoads | loader.S:260-287 | for every well-formed image the walk succeeds, every accepted segment stands in place, the image is intact and nothing else changes |
| ElfImage.TableInWords | loader.S:260-280 | header k of a file and the headers that are copied, in the file's own words |
| ElfImage.WellFormedInWords | loader.S:260-280 | an image is well formed exactly if its table lies in it, its copied segments lie in file and low megabyte, off the image, and none overlaps another |
| Boot.ImageStored | loader.S:143-147 | 200 sectors of the disk land in the image buffer and nowhere else |
| Boot.LoadImage | loader.S:143-147 | after the call the buffer holds the image file; control returns to the caller |
| Boot.BuildPages | loader.S:151 | the page structures stand and the image read before is unchanged |
| Boot.EnterHigherHalf | loader.S:153-168 | image and mapping survive the switch, the video descriptor has its base moved |
| Boot.ShowBanner | loader.S:170-183 | the twelve stores through the moved video segment reach the text memory that the descriptor named before the move, and nothing else changes |
| Boot.LoadSegments | loader.S:189-190 | for any image: the run of kernel_init on the memory with the return address pushed; the loader survives; a well-formed image is in place and everything else but the stack words is as it was |
| Boot.BootKernel | loader.S:134-192 | from any memory and any disk: every byte of memory at the entry of kernel_init, and from there the run of its table, which strays or faults exactly if a header it meets does; however it ends, the loader's own memory survives but for stack words, GDT pointer and video descriptor; a well-formed image is booted, with the kernel stack set |
| Boot.KernelSeesItsSegments | loader.S:143-192 | a load from any virtual address of a segment yields the disk byte at its file offset |
| Boot.KernelSeesItsFile | loader.S:143-192 | the same from the file's words: every header whose type is not 0 and whose address is at least 0xC0001500 has all its bytes in place |
| Boot.OtherBytesKept | loader.S:143-192 | the converse: a byte of no such segment is as before, or is buffer, descriptor or banner |
| Boot.BannerSpells | loader.S:172-183 | the twelve bytes are the letters of Genius, each before 0xA4 |
| Boot.GeniuxFits | include/boot.inc:1-2 | the repository's own addresses satisfy the layout condition |
| Boot.BootableDiskExists | loader.S:143-147 | the conditions on disk and layout are met by a disk whose image has a segment to load |
| Geniux.OwnVideoDescriptor | loader.S:15-16 | a memory with the loader's own GDT meets the conditions of the boot |
| Geniux.Constants | loader.S:143-191 | image size and kernel stack; the stack ends the page of the main thread's control block |
| Geniux.SurvivesInNumbers | loader.S:134-192 | the bytes that the boot leaves alone however it ends |
| Geniux.OtherBytesInNumbers | loader.S:134-192 | those it leaves alone for a well-formed image, and where the banner stands |
| Geniux.BootGeniux | loader.S:134-192 | from the loader's own GDT and any disk: CR3 names 0x100000, the low megabyte is mapped twice, only the named ranges change, and a well-formed image at sector 6 is seen by the kernel byte by byte |
| MemoryProbe.E820MemGetLoop | loader.S:46-57 | memory is the delivered entries, of whatever size, stored one behind the other and counted; di stands behind the last |
| MemoryProbe.DeliveredAre | loader.S:51-57 | the delivered entries are those of the replies without carry, in order, the last one before ebx = 0 included, and no others |
| MemoryProbe.CollectedInNumbers | loader.S:32-57 | up to twelve ranges stand byte by byte at 20 times their number, and nothing but buffer and count changes |
| MemoryProbe.CollectedReadsBack | loader.S:32-57 | up to twelve ranges and their number read back exactly; all writes stay in buffer and count |
| MemoryProbe.CollectionCapacity | loader.S:32-57 | up to thirteen ranges read back exactly when there are at most twelve |
| MemoryProbe.FindMaxMemArea | loader.S:59-73 | the 16-bit counted loop leaves the scan of the counted ranges in edx |
| MemoryProbe.ScanIsMaximum | loader.S:62-72 | the scan is the signed maximum of 0 and all sums, and is attained |
| MemoryProbe.ScanIsExact | loader.S:62-72 | it is the greatest true end of a range exactly when all ranges end below 2 GB |
| MemoryProbe.GreatestEndIsGreatest | loader.S:62-72 | that greatest end bounds the 64-bit base plus length of every range, and is one of them |
| MemoryProbe.TwoGigabytesScanAsNone | loader.S:62-72 | a range from 1 MB to 2 GB is scanned as 0 |
| MemoryProbe.E801 | loader.S:80-95 | ax*1024 + 1 MB + bx*65536 modulo 2^32, whatever the high register halves held |
| MemoryProbe.DetectMemory | loader.S:40-112 | which path stores which total, at 0x200 behind the loader's base; on the E801 path ax*1024 + 1 MB + bx*65536; nothing is stored when both calls fail |
| MemoryProbe.DetectedIsExact | loader.S:42-73 | collection and scan together: the stored total is the greatest end exactly when all ranges end below 2 GB |
| MemoryProbe.DetectedOfReplies | loader.S:42-73 | the same over the replies themselves: when all end below 2 GB the total is the greatest of them, else one of them is greater |
| MemoryProbe.TotalAtB00 | kernel/memory.c:491 | the total lies where the kernel reads it |
| PageTableOps.PointersAreWindows | kernel/memory.c:306-316 | the masks and shifts of pte_ptr and pde_ptr are the self-map's window addresses for every va |
| PageTableOps.UnmappedFaults | kernel/memory.c:327-353 | the addresses page_table_add may map are those that fault, and they have a table exactly when the window shows one |
| PageTableOps.EntryForValue | kernel/memory.c:337-350 | frame and flags combine without mixing |
| PageTableOps.AddNewTable | kernel/memory.c:344-351 | without a table, exactly one directory entry, the cleared new table and its one filled entry change |
| PageTableOps.AddWithTable | kernel/memory.c:333-343 | with a table, exactly the governing entry changes |
| PageTableOps.RemoveWithTable | kernel/memory.c:168-172 | exactly the governing entry loses its present bit |
| PageTableOps.AddrV2PIsTranslate | kernel/memory.c:425-429 | addr_v2p is the page walk on mapped addresses, faults exactly without a table, and ignores the present bit |
| PageTableOps.PageTableAdd | kernel/memory.c:327-353 | for every address: reading and writing through the windows performs the mapping, taking the kernel pool's lowest free frame exactly when there is no table; or an assertion stops it, with memory and pool unchanged, exactly when the page is mapped or the pool is empty |
| PageTableOps.PageTablePteRemove | kernel/memory.c:168-172 | performs the removal through the window, or faults with memory unchanged |
| PageTableOps.MemsetPage | lib/string.c:6-12 | clearing a page through its virtual address clears exactly its frame |
| PageTableOps.MemcpyKernelHalf | userprog/process.c:60 | copies the current directory's upper quarter, read through its own window, into the new page |
| PageTableOps.FilledEntries | userprog/process.c:51-65 | the new directory has an empty user half, the current one's entries 768..1022 and itself as 1023 |
| PageTableOps.GetKernelPage | kernel/memory.c:355-381 | one page: the address of vaddr_get, marked as taken, a frame from palloc, mapped and cleared through its virtual address, exactly when there are both and the address is not mapped |
| PageTableOps.CreatePageDir | userprog/process.c:51-65 | the whole routine builds that directory at the address vaddr_get answers, exactly when there is an address and a frame and the address is not mapped |
| AddressSpaces.BootInv | loader.S:229-246 | the loader's page structures satisfy the kernel's paging invariant |
| AddressSpaces.BootReady | loader.S:189-192 | the state the loader leaves, with any two pools behind the page structures that have handed out nothing, is one in which the kernel's operations may start |
| AddressSpaces.PoolsAreTaken | kernel/memory.c:318-325 | in every such state what the pools can still hand out is exactly what is not in use, so the steps of a call fix the pools afterwards |
| AddressSpaces.RunTakes | kernel/memory.c:318-325 | a run of the kernel takes no other frames into use than its steps name, and gives none back |
| AddressSpaces.StartPools | kernel/memory.c:431-486 | mem_pool_init in that state, for every memory size: the pools are ready, lie where the layout puts them and have all their frames to hand out |
| AddressSpaces.StepKeepsInv | kernel/memory.c:327-353 | every map, unmap, new directory, switch, allocation and store keeps the invariant |
| AddressSpaces.RunKeepsInv | kernel/memory.c:327-353 | so does every run |
| AddressSpaces.RunShares | loader.S:229-246 | after any run from the booted state all directories translate every address from 3 GB to 0xFFC00000 alike |
| AddressSpaces.KernelMapsNeedNoTable | loader.S:229-246 | mapping a kernel address never depends on allocating a table |
| AddressSpaces.MapExact | kernel/memory.c:327-353 | in every address space, for all 2^32 addresses: those whose walk ends at the filled entry go to the given frame, the window page of a newly linked table shows it, all others stay |
| AddressSpaces.UnmapExact | kernel/memory.c:168-172 | for all 2^32 addresses, exactly those whose walk ends at the entry start to fault |
| AddressSpaces.UserSlotsApart | userprog/process.c:51-65 | the entry of a user page is reached from exactly that page of that address space, and, in the boot directory below 4 MB, from its alias 3 GB up in every address space |
| AddressSpaces.UserMapIsolated | kernel/memory.c:327-353 | mapping a user page changes no translation of any other address space, and in its own only that page and the window page of a new table |
| AddressSpaces.UserUnmapIsolated | kernel/memory.c:168-172 | the same for unmapping |
| AddressSpaces.KernelMapSeenByAll | loader.S:229-231 | a kernel page mapped by one process appears in every process, and nothing else of the kernel half moves |
| AddressSpaces.NewAddressSpace | userprog/process.c:51-65 | a new process starts with an empty user half and the shared kernel half |
| AddressSpaces.WriteMovesNothing | kernel/memory.c:327-353 | stores outside the page structures change no translation |
| AddressSpaces.SamePhysicalEverywhere | userprog/process.c:32-40 | the CR3 value of a process is computed alike in every address space |
| AddressSpaces.FirstProcess | userprog/process.c:32-65 | the address-space part of starting a process: from the booted state a directory can be created, loaded and given a user page, which then translates to the given frame |
| AddressSpaces.RunsFromBootArePrivate | kernel/memory.c:366-372 | in every run from the booted state whose frames come from palloc, each frame a user table maps belongs to one entry and is neither directory nor table |
| AddressSpaces.UserFramesPrivate | kernel/memory.c:366-372 | two user addresses, of one process or of two, reach the same physical byte only if they are the same address of the same process, and never a directory, a table or a frame of the loader |
| AddressSpaces.UserStorePrivate | kernel/memory.c:366-372 | a store to a user address moves no address and is seen at no other user address of any process |
| AddressSpaces.MapPage | kernel/memory.c:366-372 | palloc and page_table_add in every reachable state, with the real pools: the map step with frames not handed out before exactly when the page is not mapped and the pools have the frames, after which the page translates to the frame; otherwise a stop with memory unchanged; either way the pools grow as `GrownMeans` says |
| AddressSpaces.CanMapInWords | kernel/memory.c:327-353 | that condition in terms of translation and of what the two pools have left |
| AddressSpaces.GrownMeans | kernel/memory.c:364-370 | data frames of user pages come from the user pool and leave the kernel pool alone but for tables; those of kernel pages come from the kernel pool and leave the user pool alone; the first is the lowest free one |
| AddressSpaces.MallocPage | kernel/memory.c:355-374 | the addresses are the scan's answer, marked as taken; the pages from there are mapped in order to pairwise different frames of the pool asked for, and translate to them; the answer is NULL exactly when the count is out of range, the scan or the assertion fails, or the next page is mapped already or lacks a frame |
| FirstPages.FirstKernelPage | kernel/memory.c:355-374 | with 32 MB the kernel's first page comes from frame 0x200 and stands at the start of the heap |
| FirstPages.FirstUserPage | kernel/memory.c:364-370 | with 32 MB the first user page comes from frame 0x1100 |
| AddressSpaces.PageDirActivate | userprog/process.c:32-40 | CR3 becomes the frame of the given process's directory, whichever directory was loaded before, and memory is unchanged |
| AddressSpaces.StoreUser | kernel/memory.c:366-372 | a store by the running process to its own half changes exactly the byte it translates to and takes the write step of the run, or faults |
| AddressSpaces.UnmapPage | kernel/memory.c:168-172 | for every address the governing entry loses its present bit, or there is no table; below the window it is the unmap step of the run, after which the address faults |
| AddressSpaces.WindowUnmapBreaks | kernel/memory.c:168-172 | in the window, on a page of the kernel's structures, it takes a shared entry or the self-map away |
| AddressSpaces.NewProcessDirectory | userprog/process.c:51-65 | create_page_dir with the real allocators takes the new-directory step exactly when there is an address and a frame and the address is not mapped; the new directory has no user page and the kernel half of the loaded one |
| FramePool.Bitmap.ScanTest | lib/kernel/bitmap.c:11-16 | the mask test reads the bit |
| FramePool.Bitmap.Set | lib/kernel/bitmap.c:64-75 | for every bit the memory holds, the one behind the bitmap included: value 1 sets exactly that bit, value 0 changes none |
| FramePool.Bitmap.FirstFree | lib/kernel/bitmap.c:19-36 | the first free bit, or the assertion exactly when there is none |
| FramePool.Bitmap.ScanFor | lib/kernel/bitmap.c:19-61 | the first run of cnt free bits, counting one bit behind the bitmap when cnt > 1 |
| FramePool.ScanStaysInside | lib/kernel/bitmap.c:41-60 | the answer is the first run inside the bitmap exactly when the tail does not spill |
| FramePool.SpillExample | lib/kernel/bitmap.c:41-60 | a bitmap on which it spills |
| FramePool.SpilledAnswer | lib/kernel/bitmap.c:41-60 | when the tail spills, the answer is the run that ends in the next bitmap's first bit |
| FramePool.VirtualAddr.Get | kernel/memory.c:279-303 | vaddr_get for the kernel and for processes: exactly the bits of the scan's run become taken, among them the next bitmap's first bit when the scan spills; the address is the run's; when the assertion of a process fails |
| FramePool.Pool.Palloc | kernel/memory.c:318-325 | the lowest frame not handed out yet, which then counts as handed out; no return exactly when all are |
| FramePool.Pool.Pfree | kernel/memory.c:153-165 | no frame stops counting as handed out |
| FramePool.NeverTwice | kernel/memory.c:318-325 | in any run of a pool no frame is handed out twice |
| FramePool.Serve | kernel/memory.c:318-325 | palloc and pfree called in any order make such a run: the frames answered are pairwise distinct and were not handed out before, and it ends early only at a full pool |
| FramePool.PoolLayout | kernel/memory.c:431-486 | the pools start at the end of the page structures and adjoin; when they lie in memory, when they use all of it, and that the bitmaps fit |
| FramePool.PoolPages | kernel/memory.c:431-450 | for every memory size the two page counts add up to the free pages modulo 65536, the kernel's being half of that |
| FramePool.PoolsInNumbers | kernel/memory.c:431-460 | the pools of 32 MB and of 512 MB, and the two addresses below the kernel stack |
| FramePool.InitPools | kernel/memory.c:431-486 | mem_pool_init builds the two pools and the heap's addresses of that layout, cleared by bitmap_init |
| FramePool.EmptyPoolsAt258MB | kernel/memory.c:431-450 | with 258 MB both pools are empty |

## Left out

- ElfLoader.KernelInit: the run ends with outcome Strayed before a copy whose destination leaves 0xC0001500..0xC0100000; what the machine does from there on is not described, because the copy may replace the loader's own instructions.
- Boot.BootKernel: the same.
- MemoryProbe.E820MemGetLoop: from the fourteenth range on the buffer overrun rewrites the loop's own instructions, which are not part of memory here; the BIOS is assumed to end its replies.
- MemoryProbe.CollectionCapacity: stated up to thirteen ranges, for the same reason.
- AddressSpaces.UserFramesPrivate: says nothing of kernel addresses, because the loader leaves the kernel's tables uninitialised and their entries may name any frame.
- AddressSpaces.FirstProcess: the control block, stacks and segment state that process_execute sets up are not part of it.
- FramePool.Bitmap.ScanFor: the bitmap is its own array with the byte behind it, not bytes at 0xC009A000 in the machine's memory.
- Instruction fetch and the loader's own bytes as code; return addresses are parameters whose return is proved.
- The accessed and dirty bits that the processor sets in page entries during a walk: with paging on, exact entry values (`KernelMap.Mapped`, `AddressSpaces.KernelEntries`) and the promise that nothing above 1 MB changes (`ElfLoader.TablePreserves`, `ElfLoader.KernelInit`) hold up to those bits.
- Access rights and privilege in page entries (only the present bit decides), segment limits, the TLB and pipeline flushes.
- Memory-mapped devices and holes in physical memory: all 2^32 addresses behave as RAM.
- Port handshakes, status polling, A20, and the drive's errors; the data port is the transfer the command block asks for.
- `mbr.S`, whose reader repeats `rd_disk_m_32` with 16-bit addresses.
- The 0x88 fallback of the memory probe: its sum falls through into the halt and is never stored.
- Zeroing of uninitialised data: `kernel_init` copies the file size only.
- Clearing more than one page in `get_kernel_pages`, `get_a_page`'s bitmap bit, `mfree_page`'s loop, locks, interrupts, heap arenas, lists, the scheduler and the IDE driver.
