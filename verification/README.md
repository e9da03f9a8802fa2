# Verified model of the kernel's memory management, block driver and primitives

This project models, in Dafny, four parts of a small RISC-V kernel and proves properties of
the model for all inputs and all runs.

**Page tables over an intrusive page allocator** (modules `Bits`, `Sequences`,
`PhysicalMemory`, `PageAllocation`, `PageAllocationRuns`, `PageTableEntry`,
`PageTableState`, `PageTableMemory`, `PageTableExhausted`, `VirtualMemory`, `PageTableRuns`,
`PageTableHistory`, `PageTableExecution`, `PageTableSharing`, `PageTableFamily`,
`Sv39Hardware`). Physical memory is one array of bytes indexed by physical address. The
allocator threads its free list through the first word of each free page; a page table is a
three-level tree whose tables are pages taken from that allocator and reached through raw
addresses. `PageTableState` gives every page of memory exactly one role (free, held by the
caller, root, level-1 table, level-0 table, mapped) and ties the words of the table pages to
a map from keys to mappings; every method keeps that invariant. On top of it: the table is a
plain dictionary on 27-bit page numbers over every run, what is written to a held or mapped
page stays there, pages are conserved, the number of table pages is exact, the tables of
several processes over the one allocator do not disturb each other and each behaves as a
dictionary of its own, and the Sv39 walk of the RISC-V Privileged Architecture (version
20211203, sections 4.1.11, 4.3.2 and 4.4.1), written independently, translates exactly what
`lookup` returns. Integers are unbounded with the 64-bit width written out; `|`, `&`, `<<`
and `>>` are functions on naturals (`Bits`) with their arithmetic meaning proved.

**Split-ring block driver** (modules `DescriptorFlags`, `VirtioProtocol`, `VirtioSteps`,
`VirtioRuns`, `VirtioInfo`, `VirtioProgress`, `VirtioOrder`, `VirtioDisk`, `VirtioDriver`,
`VirtioExecution`). The driver and the device are a transition system whose steps interleave
freely. The submission of a request is four steps, so that the device and the interrupt
handler may step between them: its descriptors are taken (or the allocation fails), they are
filled in and the buffer is recorded, the head is written into the ring slot, the index is
advanced. The other steps are the device reading a head, the device completing any request
it has read, one iteration of the interrupt loop, and a waiter freeing its chain. History
variables record what was submitted, read, completed and woken. The driver's methods on its
arrays are proved to perform exactly these steps, and `VirtioExecution.Execute` performs any
legal sequence of them from the initialised queue, so that the theorems about runs hold of
the arrays. `VirtioProgress` proves that the protocol does not get stuck and drains. The
standard is VirtIO 1.1, sections 2.6 and 5.2.6.

**Linked-list descriptor allocator** (module `DescriptorChains`), for any queue size.

**Primitives** (`PhysicalMemory`: `memcpy`, `memset`, `memmove`; `Decimal`: `printf("%d")`
and `atol`, with signed arithmetic wrapping as on the target where C leaves it undefined).

What the source asks of its callers without testing is a precondition: a valid entry that
`add` makes for an absent key must designate a page the caller holds, and `free_page` needs
a page that is not already free. A buffer is not submitted again while it is in flight, and
the device writes status 0. Memory stores are sequentially consistent. In `virtio_disk_rw`
the release of `vdisk_lock` is there but its acquisition is commented out; as under the
lock, one request at a time is being submitted in the model, but interrupt iterations and
finishing waiters may still step between the stores of a submission.

Five properties that are false of the code as it stands are stated with their exact
condition:

- `atol` reads back what `printf("%d")` wrote if and only if the number is not the most
  negative int (`Decimal.RoundTrip`); `Decimal.MinIsMisread` gives the value read instead.
- A page table entry gives back the address and the flags it was made from if and only if
  the address is page aligned, which the constructor's `assert` reports but does not
  enforce, and the flags fit in ten bits (`PageTableEntry.PteRoundTrip`);
  `PageTableEntry.UnalignedAddressIsLost` and `PageTableEntry.WideFlagIsLost` are failing
  inputs of the two kinds.
- `add` returns 0 for an absent key, which the header describes as entering the pair.
  `lookup` then returns the address, when it is not NULL, if and only if the flags have V,
  the address is page aligned, and the bits above the ten flag bits are already in its page
  number (`PageTableRuns.AddedIsPresent`). `AddWithoutV`, `AddWideFlag` and `AddUnaligned`
  are failing inputs of the three kinds.
- The page table still is one after `add`, `page_walk_alloc` or construction if and only if
  the allocator had enough pages for the missing tables (`VirtualMemory.PageTable.Add`):
  otherwise the code uses the page at address 0 as a table, and the memory represents no
  page table with that root (`PageTableExhausted.NothingRepresented`).
- What `alloc_desc_chain` gives its caller and what it leaves on the free list make up the
  list if and only if the list was empty or the number asked for is between one and its
  length (`DescriptorChains.NothingLost`). Asked for more, it loses the whole list
  (`DescriptorChains.ThirdChainFails`); asked for less than one, it answers a descriptor
  that stays on the list.

## Model

| member | source | states |
|---|---|---|
| PhysicalMemory.Memory.Memset | os/src/string.cpp:28-48 | both the word path and the byte path set exactly the bytes of the range to the low byte of the argument, for every length and alignment, and change nothing else |
| PhysicalMemory.SpreadBytes | os/src/string.cpp:32-35 | the three shift-and-or steps build a word whose eight bytes are all the given byte |
| PhysicalMemory.Memory.Memcpy | os/src/string.cpp:7-26 | the destination gets the original source bytes through the word loop and the byte tail, for disjoint ranges and for a destination at or below the source; nothing else changes |
| PhysicalMemory.LoadStoreCopies | os/src/string.cpp:16 | loading a little-endian word and storing it elsewhere copies its eight bytes |
| PhysicalMemory.StoreWordView | os/src/vmm.cpp:101 | an aligned 64-bit store changes exactly one element of the word view of memory |
| PhysicalMemory.Memory.Memmove | os/src/string.cpp:121-137 | the destination equals the original source for every relative position of the ranges, overlapping either way; nothing outside it changes |
| PageAllocation.PageAllocator.AllocPage | os/src/pmm.cpp:30-35 | returns the head of the list threaded through memory, or NULL exactly when it is empty, and memory still threads the rest |
| PageAllocation.PageAllocator.FreePage | os/src/pmm.cpp:39-43 | pushes the page: the list in memory is the page followed by the old list, and one word of memory changes |
| PageAllocation.PageAllocator.PmmInit | os/src/pmm.cpp:45-56 | the list holds exactly the pages from the kernel's end to the end of RAM, highest first, and their number is returned |
| PageAllocation.DescendingCovers | os/src/pmm.cpp:50-54 | that list is free of duplicates and covers the whole range |
| PageAllocationRuns.RunDistinct | os/src/pmm.cpp:30-43 | over every legal run the list has no duplicate and no NULL |
| PageAllocationRuns.NoDoubleHandOut | os/src/pmm.cpp:30-43 | two allocations return the same page only if it was freed in between |
| PageAllocationRuns.StackDiscipline | os/src/pmm.cpp:30-43 | while the list does not get shorter than it was, its old contents stay at the bottom in order |
| PageAllocationRuns.LastFreedFirstOut | os/src/pmm.cpp:30-43 | when the list was never shorter since a page was freed and is as long now, the next allocation returns that page |
| PageAllocationRuns.Execute | os/src/pmm.cpp:30-43 | the allocator in memory follows the abstract stack for every legal sequence of calls |
| PageTableEntry.EntryFields | os/src/vmm.cpp:16-33 | on aligned addresses and ten-bit flags the accessors invert the constructor, and validity is the low flag bit |
| PageTableEntry.PteRoundTrip | os/src/vmm.cpp:16-29 | for every address and every flag word, both are read back if and only if the address is page aligned and the flags fit in ten bits |
| PageTableEntry.UnalignedAddressIsLost | os/src/vmm.cpp:16-25 | the entry made from address 0x1001 and flag V gives back address 0x1000 |
| PageTableEntry.WideFlagIsLost | os/src/vmm.cpp:16-29 | the entry made from address 0 and flag 1024 gives back flags 0 and address 0x1000 |
| PageTableEntry.SplitJoin | os/src/vmm.cpp:66-72 | the 9/9/9 index split is a bijection between 27-bit numbers and index triples |
| PageTableEntry.SameKey | os/src/vmm.cpp:66-72 | two virtual addresses have the same key if and only if they agree modulo 2^39 up to the page offset |
| PageTableState.LinkMidWf | os/src/vmm.cpp:98-102 | linking a held page as a level-1 table keeps every page in exactly one role |
| PageTableMemory.LinkMidInv | os/src/vmm.cpp:98-102 | the single root-entry write realises that step because the new table page is zero |
| PageTableMemory.LinkLeafInv | os/src/vmm.cpp:103-113 | the single level-1 write realises the linking of a level-0 table |
| PageTableMemory.WriteSlotInv | os/src/vmm.cpp:122 | a level-0 write changes the mapping of one key and nothing else in the tree or the free list |
| PageTableMemory.ContentWrite | os/src/process.cpp:77-82 | whatever is written to a page that the caller holds or that is mapped, tree and free list are unaffected |
| VirtualMemory.AllocEmptyPage | os/src/vmm.cpp:43-46 | the page handed out reads as zero words, so the stale free-list link is gone, and no other page changes; with an exhausted allocator it is page 0 that is cleared |
| VirtualMemory.PageTable.constructor | os/src/vmm.cpp:50-53 | an empty table over one page taken from the allocator; with an exhausted allocator the root is page 0 and no page table is represented |
| VirtualMemory.PageTable.PageWalk | os/src/vmm.cpp:64-84 | returns the address of the level-0 entry exactly when the key is mapped, otherwise NULL |
| VirtualMemory.PageTable.PageWalkAlloc | os/src/vmm.cpp:88-115 | with enough pages it builds exactly the missing tables, returns the same entry address as page_walk would, and changes no memory when nothing is missing; with too few it links page 0 and returns an address in it |
| PageTableExhausted.NothingRepresented | os/src/vmm.cpp:88-115 | once page 0 is linked as a table, memory represents no page table with that root |
| VirtualMemory.PageTable.Add | os/src/vmm.cpp:117-124 | for any address and flag word, with enough pages: returns -1 if and only if the key is present, and then memory and free list are unchanged; otherwise the key is mapped to the page and flags that the entry designates, or stays absent when the flags lack V. With too few pages: the exact answer, and no page table is represented afterwards. Held and mapped pages keep their contents either way |
| VirtualMemory.PageTable.Lookup | os/src/vmm.cpp:126-132 | returns the mapped page, never NULL for a mapped key, and NULL for an absent one |
| VirtualMemory.PageTable.Erase | os/src/vmm.cpp:134-142 | returns -1 if and only if the key is absent; otherwise unmaps it and pushes the page on the free list |
| VirtualMemory.EraseInv | os/src/vmm.cpp:139-140 | freeing the page before clearing its entry amounts to unmapping and then freeing |
| VirtualMemory.PageTable.MakeSatpRegister | os/src/vmm.cpp:144-148 | mode 8 in the top four bits and the root page number below |
| PageTableRuns.RunRefinesDictionary | os/src/vmm.hpp:45-51 | over every run the table represents, and answers like, a plain dictionary on 27-bit page numbers |
| PageTableExecution.Execute | os/src/vmm.cpp:117-142 | every legal sequence of calls, and of writes to and reads of held and mapped pages, on the table in memory has the dictionary's contents and answers; over the whole sequence lookup returns what the last add entered until it is erased, and a read returns what the last write stored |
| PageTableExecution.AnswersAfterAdd | os/src/vmm.hpp:45-51 | after an add that answered 0 with V in its flags, and until the page number is erased, lookup answers the page of its address, add answers -1 and erase answers 0 |
| PageTableExecution.AnswersWhileAbsent | os/src/vmm.hpp:45-51 | after an erase, or from the start when the page number is absent, and until it is entered, lookup and add answer 0 and erase answers -1 |
| PageTableExecution.ReadsSay | os/src/process.cpp:77-82 | a read returns the word of an earlier write to the page when nothing in between wrote it, released it or erased a key that mapped it |
| PageTableExecution.FillPage | os/src/process.cpp:77-82 | filling a held or mapped page gives it the new contents and changes no other held or mapped page |
| PageTableRuns.AddedIsPresent | os/src/vmm.cpp:117-132 | after an add that returned 0 the key is present if and only if the flags have V, and lookup returns a non-NULL address that was added if and only if moreover it is aligned and no wide flag bit alters its page number |
| PageTableRuns.AddWithoutV | os/src/vmm.cpp:117-132 | adding address 0x1000 with flags 2 to an empty table returns 0 and lookup returns NULL |
| PageTableRuns.AddWideFlag | os/src/vmm.cpp:117-132 | adding address 0x1000 with flags 0x801 returns 0 and lookup returns 0x3000 |
| PageTableRuns.AddUnaligned | os/src/vmm.cpp:117-132 | adding address 0x1008 with flags V returns 0 and lookup returns 0x1000 |
| PageTableSharing.OtherTableIntact | os/src/vmm.cpp:88-142 | an operation of one table leaves the invariant, the dictionary and the pages of every separate table over the same allocator intact; for that table it is pages taken or a page given back |
| PageTableSharing.StillSeparate | os/src/vmm.cpp:88-142 | two tables that own no page in common still own none after an operation of either |
| PageTableSharing.StepAmong | os/src/process.hpp:73 | an operation on one of the tables of any number of processes in memory keeps all of them valid and pairwise separate, with the dictionaries and pages of the others unchanged |
| PageTableSharing.NewTable | os/src/vmm.cpp:50-53 | a table constructed while others exist is empty and separate from all of them, and leaves theirs as they were |
| PageTableFamily.Execute | os/src/process.hpp:73 | after any legal sequence of calls on any tables of a family, each table has the contents of, and each call the answer of, the plain dictionary on which only the calls on that table were made; a read returns what the last write stored, whichever tables the two were made through |
| PageTableRuns.AddFrame | os/src/vmm.cpp:117-124 | adding one page number leaves the lookup of every other unchanged |
| PageTableRuns.WalksAgree | os/src/vmm.cpp:64-115 | building tables maps nothing, moves no existing entry, and takes no page when page_walk succeeds |
| PageTableRuns.DistinctSlots | os/src/vmm.cpp:64-84 | entries of two page numbers have the same address if and only if the numbers are equal |
| PageTableRuns.Partition | os/src/vmm.cpp:88-142 | every page is exactly one of free, table, mapped and caller-held, and the first and third are those of the list and of the dictionary |
| PageTableRuns.RunConservesPages | os/src/vmm.cpp:88-142 | at every point of every run the four kinds add up to all pages |
| PageTableRuns.AddMoves | os/src/vmm.cpp:88-124 | add moves the first zero, one or two free pages to the tables and the caller's page to the mapped ones |
| PageTableRuns.EraseMoves | os/src/vmm.cpp:134-142 | erase moves exactly the mapped page to the front of the free list |
| PageTableRuns.TablesNeverLeave | os/src/vmm.cpp:88-142 | over every run a table page stays a table page |
| PageTableRuns.SpaceBound | os/src/vmm.cpp:50-124 | the number of table pages is one plus the distinct top indices plus the distinct upper index pairs ever added |
| PageTableRuns.Boot | os/src/s_start.cpp:47-57 | after pmm_init and construction the invariant holds with an empty dictionary |
| Sv39Hardware.HardwareAgrees | os/src/vmm.cpp:144-148 | the Sv39 walk from make_satp() succeeds if and only if the address is canonical, mapped, and its flags permit the access, with the mapped page plus the offset |
| Sv39Hardware.TableAgrees | os/src/vmm.cpp:126-148 | the same for a page table object and its own memory |
| Sv39Hardware.PointerBits | os/src/vmm.cpp:101-111 | a table pointer carries exactly V, so the hardware descends through it |
| Sv39Hardware.PermissionCodeFlags | os/src/vmm.hpp:19-28 | every permission code is acceptable to add, has exactly the requested bits, and is a usable leaf if and only if it reads or executes and does not write alone |
| Sv39Hardware.AddedTranslates | os/src/vmm.hpp:19-28 | after a legal add that answered 0, of an aligned address with a permission code, every canonical address of that page number translates to its offset in the page exactly for a load if it may be read, a store if it may be written and read, a fetch if it may be executed and is not writable alone, in the mode the code names; every other access faults |
| Sv39Hardware.AbsentFaults | os/src/vmm.cpp:144-148 | every access to an address whose page number is not mapped faults |
| VirtioSteps.BeginInv | 参考资料/virtio_disk.cpp:165-173 | taking the three descriptors of a request keeps the protocol invariant |
| VirtioSteps.FillInv | 参考资料/virtio_disk.cpp:192-214 | writing the three descriptors and the bookkeeping keeps it |
| VirtioSteps.PlaceInv | 参考资料/virtio_disk.cpp:220 | writing the head into the ring slot keeps it: the slot is not one the device has yet to read |
| VirtioSteps.PublishInv | 参考资料/virtio_disk.cpp:222 | advancing the index keeps it |
| VirtioSteps.HandleInv | 参考资料/virtio_disk.cpp:322-331 | one interrupt iteration keeps the protocol invariant |
| VirtioSteps.FinishInv | 参考资料/virtio_disk.cpp:231-232 | freeing a finished chain keeps the protocol invariant |
| VirtioProtocol.WindowsAreShort | 参考资料/virtio_disk.cpp:146-155 | at most two heads are unread and at most two completions unhandled |
| VirtioRuns.RunInv | 参考资料/virtio_disk.cpp:157-335 | every reachable state satisfies the invariant |
| VirtioRuns.HandledExactlyOnce | 参考资料/virtio_disk.cpp:322-331 | at every point the buffers woken are those of the handled completions, in used-ring order, each request once, and what was woken or handled by an earlier point is a prefix |
| VirtioRuns.InterruptLoopExact | 参考资料/virtio_disk.cpp:322-327 | the modulo-8 loop condition holds if and only if a completion is unhandled, and then the buffer pointer is the right one and not null and the status is 0 |
| VirtioRuns.DeviceSeesSubmissionOrder | 参考资料/virtio_disk.cpp:220-222 | the device reads every head once and in submission order across index wrap |
| VirtioRuns.PublishingIsSafe | 参考资料/virtio_disk.cpp:220-222 | the slot about to be written holds no unread head, and unread heads are still in the ring |
| VirtioRuns.DescriptorOwnership | 参考资料/virtio_disk.cpp:116-232 | each descriptor is free if and only if no request under way uses it, never in two chains, at most two requests hold descriptors, and a chain is in memory once it is filled |
| VirtioRuns.SubmitPossible | 参考资料/virtio_disk.cpp:167-172 | three descriptors are free if and only if at most one request is in flight |
| VirtioRuns.FreedAfterHandled | 参考资料/virtio_disk.cpp:227-232 | a chain is freed only after its completion was handled |
| VirtioRuns.DeviceFindsRequest | 参考资料/virtio_disk.cpp:192-222 | at every point, also between the stores of another submission, following NEXT from any published head in flight or unread the device finds header, data and status with the lengths and directions of a block request, and the slot it reads next holds such a head |
| VirtioInfo.InfoIsExact | 参考资料/virtio_disk.cpp:212-232 | at every point info[i].b is set exactly when i is the header descriptor of a request in flight whose chain is written, and the disk flag of a buffer exactly when such a request for it has not been woken |
| VirtioInfo.StatusByte | 参考资料/virtio_disk.cpp:206-210 | a byte stored at the address of the last element behind any published head in flight is the status of that head's info entry; no other status and no byte of any buffer pointer changes |
| VirtioInfo.StoreIsCompletion | 参考资料/virtio_disk.cpp:37-43 | on the info array as bytes, the device's store of status 0 at that address is the completion step |
| VirtioOrder.EarlyIndexIsUnsafe | 参考资料/virtio_disk.cpp:220-222 | from every reachable state whose latest request is not filled in, an index advanced early would show the device a chain starting at address 0, which is not the request unless its header is at NULL |
| VirtioOrder.RunCleared | 参考资料/virtio_disk.cpp:127-133 | at every point a descriptor that is free, or taken and not filled in, has address 0 |
| VirtioOrder.EarlyStateIsReachable | 参考资料/virtio_disk.cpp:165-173 | such a state is reached by the first allocation |
| VirtioProgress.Progress | 参考资料/virtio_disk.cpp:157-335 | at every point a step other than a new submission is enabled if and only if a request is under way |
| VirtioProgress.Drains | 参考资料/virtio_disk.cpp:157-335 | without new submissions at most the remaining work is done, and exactly when all of it is done no request is under way and all eight descriptors are free |
| VirtioProgress.CanDrain | 参考资料/virtio_disk.cpp:157-335 | every run can be continued without new submissions to a state with all descriptors free, in as many steps as there is work left |
| VirtioDisk.DescriptorTable.AllocDesc | os/src/FS/MMIO.cpp:107-115 | takes the first free descriptor, or returns -1 when there is none |
| VirtioDisk.DescriptorTable.FreeChain | 参考资料/virtio_disk.cpp:136-144 | terminates, never frees a free descriptor, and frees exactly the chain, for a chain of any length |
| VirtioDisk.DescriptorTable.Alloc3Desc | 参考资料/virtio_disk.cpp:146-155 | succeeds if and only if three descriptors are free and then takes the three lowest, lowest first; otherwise the free map is as before and only addresses of free descriptors are cleared |
| VirtioDisk.AllInUse | os/src/FS/MMIO.cpp:137-146 | when no descriptor is left after taking at most two, fewer than three were free |
| VirtioDriver.Driver.constructor | 参考资料/virtio_disk.cpp:94-107 | the initialised queue is the initial state of the protocol, on arrays of its own |
| VirtioDriver.Driver.BeginRequest | 参考资料/virtio_disk.cpp:165-173 | takes the first three free descriptors, or performs the failed-allocation step exactly when fewer are free, that is when two requests hold descriptors |
| VirtioDriver.Driver.FillRequest | 参考资料/virtio_disk.cpp:192-214 | performs the fill step on descriptors, status and buffer pointer |
| VirtioDriver.Driver.PlaceHead | 参考资料/virtio_disk.cpp:220 | performs the step that writes the ring slot |
| VirtioDriver.Driver.AdvanceIndex | 参考资料/virtio_disk.cpp:222 | performs the step that publishes the request |
| VirtioDriver.Driver.StartRequest | 参考资料/virtio_disk.cpp:157-222 | performs the four steps of a submission in order, or the failed-allocation step exactly when two requests are in flight |
| VirtioDriver.Driver.DeviceTake | 参考资料/virtio_disk.cpp:215-222 | the device reads the head of the oldest request it has not read |
| VirtioDriver.Driver.DeviceComplete | 参考资料/virtio_disk.cpp:319-331 | the device's completion of any request it has read is the completion step |
| VirtioDriver.Driver.HandleOne | 参考资料/virtio_disk.cpp:322-331 | one iteration is the handling step and wakes the buffer of the oldest unhandled completion |
| VirtioDriver.Driver.Interrupt | 参考资料/virtio_disk.cpp:319-335 | the loop handles every completion and stops with none pending; of the shared state only used_idx and the disk flags change, and the flags cleared are exactly those of the buffers woken |
| VirtioDriver.Driver.FinishRequest | 参考资料/virtio_disk.cpp:231-232 | performs the finish step: the buffer pointer is cleared and exactly the three descriptors are freed |
| VirtioExecution.Execute | 参考资料/virtio_disk.cpp:94-335 | any legal sequence of driver and device steps on the arrays of a new driver is a run of the protocol ending in the state of those arrays |
| DescriptorChains.Queue.constructor | os/src/FS/MMIO.cpp:152-155 | the free list is all descriptors in order |
| DescriptorChains.Queue.AllocDescChain | os/src/FS/MMIO.cpp:230-248 | for any int num: removes exactly the first num entries and returns their head; when there are fewer it returns 0xFFFF and the list is empty; what is found by following next from the answer and what is left make up the old list exactly when it was empty or num is between one and its length |
| DescriptorChains.NothingLost | os/src/FS/MMIO.cpp:230-248 | the chain found by following next from the answer and the rest make up the list if and only if it is empty or num is between one and its length; entries are lost exactly when there are fewer than num, and shared exactly when num is below one |
| DescriptorChains.ThirdChainFails | os/src/FS/MMIO.cpp:230-248 | of eight descriptors two chains of three leave two, which the third call loses |
| DescriptorChains.Queue.FreeDescChain | os/src/FS/MMIO.cpp:251-262 | terminates and puts the chain in front of the free list with one link changed |
| DescriptorChains.Prepend | os/src/FS/MMIO.cpp:258-259 | linking the last descriptor of a disjoint chain to the list gives a well-formed list |
| DescriptorChains.Queue.UseChain | os/src/FS/MMIO.cpp:230-262 | allocating, marking and freeing a chain restores the free list and every link |
| Decimal.PrintD | os/src/kernel_print.cpp:59-75 | emits the digits, after a minus sign for a negative number, most significant first, and uses at most ten of the twelve buffer slots; for the most negative int it emits a minus sign and an opening parenthesis |
| Decimal.DigitsShape | os/src/kernel_print.cpp:66-73 | below 10^k there are one to k digit characters and no leading zero |
| Decimal.Atol | os/src/string.cpp:98-119 | after any number of spaces and no sign or a plus sign it gives the number whose digits follow, and after a minus sign its negative, for every number below 2^63 |
| Decimal.ParseSigned | os/src/string.cpp:103-118 | after spaces and one sign, any text has its decimal value, or its negative, modulo 2^64 |
| Decimal.AccumulateDigits | os/src/string.cpp:112-116 | the digit loop gives back every number that a long can hold |
| Decimal.MinIsMisread | os/src/kernel_print.cpp:61-70 | for the most negative int the printed text is read back as 8 |
| Decimal.RoundTrip | os/src/string.cpp:98-119 | reading back what was printed gives the number if and only if it is not the most negative int |

## Left out

- VirtualMemory.PageTable.Add: does not model a valid entry for a page the caller does not hold, because the code does not test it and `erase` would then free a page that someone else owns.
- VirtualMemory.PageTable.PageWalkAlloc: with too few pages its contract ends at the words of page 0 and the link to it; further calls on such a table are not modelled.
- PageTableExecution.Execute: a sequence is legal only while every add has enough pages.
- PageTableSharing.NewTable: does not model an exhausted allocator; the constructor alone does.
- VirtioDriver.Driver.StartRequest: is one attempt of the allocation loop; the spinning is the repetition of the failed-allocation step.
- VirtioDriver.Driver.Interrupt: runs its iterations without device steps between them; the runs of `VirtioRuns` take one iteration at a time and let the device step in between.
- The `disk` flag of each buffer is kept as the set of buffers whose flag is 1, and buffers are numbers; aliasing of buffer memory is not modelled.
- Panics are preconditions that every caller in the model meets.
- The queue memory layout of `virtio_disk_init` (the comment there gives offset 0x40 for the avail ring, the code 0x80) and the MMIO handshake.
- The contents of the request header on the stack (type, reserved, sector) and of the data buffers: the model has their addresses, lengths and directions.
- `virtio_disk_ext4_rw`, which repeats `virtio_disk_rw` with another sector scale and data pointer.
- `virtio_submit_request`, which has no completion path and addresses its chain as head, head+1, head+2.
- `Process::load_from_elf`, which mixes page numbers with addresses.
- A and D bits, SUM and MXR, the TLB, and writing `satp`: the translation is over memory with physical addresses used as pointers.
- The empty `PageTable` destructor and the commented-out page descriptors.
- `strlen`, `strcmp`, `strcpy`, `strchr`, `strcat`, `safestrcpy`, and every other `printf` conversion.
- Memory fences, interrupts, locks and sleeping, beyond the atomicity of the protocol steps; the stores that fill in a chain, which is not published yet, are one step.
