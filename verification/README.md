# A verified model of the kernel

The project models the parts of a small x86-64 kernel and its libc whose correctness is decided by code:
virtual memory, the argument page of `execve`, the tarfs archive, the current directory, the user heap,
pipes, the program loader and the scheduler's queues. Each module follows one part of the source; methods
do what the C functions do, branch by branch, and are proved against state functions and relations. The
main results are the lemmas about whole runs.

Check everything with `dafny verify dfyconfig.toml`.

## The parts

**Virtual memory** (`words`, `memory`, `updates`, `kernel`, `processes`, `faults`, `teardown`, `counting`,
`refinement`, `sharers`, `pagebytes`). `KernelMemory.Kernel` holds physical frames of 512 words, the page descriptors
(`next`, `prev`, `ref_count`, one sequence a field) and the head of the free list; its methods are
`page_free_init`, `page_alloc`, `page_release`, the three walks, `page_insert` and `page_remove`. A ghost
role per frame says what it is used for; `Memory.Inv` ties the roles to the words, the counts and the list.
`Processes`, `Faults` and `Teardown` hold fork, copy-on-write, demand allocation, unmapping and
`delete_process`. A process is named by its PML4 frame and a page by the 36 address bits that select an
entry (4-level paging, section 4.5 of the Intel SDM, volume 3A). A word is its frame number and flags;
`Words` proves that this view loses no bits, and
`PageBytes` gives each page of words its bytes.

- `Refinement.RunRefines`: over every run from boot of starting, forking, storing, copy-on-write faults,
  faults on absent pages with their section copy, system calls that store in the caller's memory, heap growth and
  exit, each process reads what it would read had fork copied every page, within two boundaries: no write fault
  meets a copy-on-write frame with three or more sharers, and the kernel itself stores into no shared frame.
- `Sharers.WriteFaultIsolatesIff`: that boundary is exact. After a copy-on-write fault a store stays private
  if and only if at most two entries mapped the frame, since `copy_on_write_handler` copies only when the
  count is 2 (sys/isr.c:211). `Sharers.TwoForksShareThreeWays` reaches the bad case by forking twice.
- `Sharers.KernelStoresPrivateIff`, `Sharers.CopyPrivateIff`: the second boundary is exact too. The kernel stores
  through entries whatever they share, without a copy-on-write fault, so its stores stay private if and only if
  the frame behind each target is mapped once; for `copyELF` that is asked of the pages mapped before the fault.
  The first fault on an area meets it (`FirstFaultStoresAlone`). A fault handed to a filled area again after a
  fork, as at its end, resets what the sibling shares (`RefaultAfterFork`), and a system call that stores in a
  forked child's memory changes the parent's (`KernelStoreAfterFork`).
- `Counting`: counts equal mappings, every non-root table has count 1 and one parent entry, free frames are
  listed once and referenced by nothing. `ReservedFrames` records that the comparison with `KHEAPEND`
  (sys/page.c:130) leaves 414 frames free however much memory there is.
- `Memory.LeafDecides`: the processor combines the flags of all four levels; the upper three forbid nothing, so
  the page-table entry alone decides what a process may do. `PageFaults.HeaderDecidesWrite` follows a permission
  from the section header to this decision, `HeaderDecidesCow` to the marks that fork leaves.
- `Teardown.DeletedQuiet`, `Teardown.SurvivesIffShared`: deleting a process releases all its tables and
  exactly the frames nobody else maps, and keeps the PML4 root (its count goes to -1).

**Page faults and loading** (`pagefault`, `loading`, `elf`, `descriptors`). `findVMA` counts an area's end as
inside, so a fault at the first address of an area that directly follows another permitted one is handed to the
wrong area; `PageFaults.FoundIff`, `ResolvedIff` and `HandledIff` say exactly when a fault is resolved.
`PageFaults.FaultLoads` is about the frames behind the page table: when no store of the copy faults in its turn, a
section's page is mapped afterwards, with the right permission if it is new, and reads as the file's bytes.
`Elf` builds the areas of a program and covers every allocated section for any header order. Fork needs areas
without a common page: `LoadedVmasOkIff` says exactly when the headers give them, ascending headers always do,
and `OutOfOrderOverlaps` is an order that does not. `LoadMakes` ties each area to the section that
made it; a section that starts in another one's area gets no permission of its own (`PlacedInFirst`).
`Descriptors` is the pool of VMA descriptors.

**The argument page** (`stackimage`, `bytes`). `execve_handler` writes argv and envp into one page and `_start` reads
it back (section 3.4.1 of the System V AMD64 ABI, without the auxiliary vector). `ExecThenStart` is the round
trip; `CapacityIsExact` says when the computed stack pointer still lies in the page.

**tarfs and the current directory** (`paths`, `octal`, `tartree`, `archive`, `directories`). The archive is a
sequence of 512-byte blocks (ustar Interchange Format, EXTENDED DESCRIPTION of pax, IEEE Std 1003.1). The walk over
headers whose size fields are octal numbers meets every file (`WalkVisitsHeaders`). The tree built by
`setupHeirarchyOfTarfs` agrees with the scan in `getFile`; `sys_chdir` is proved against a fold over path
components, and the fold against path normalisation.

**The user heap** (`heap`): `malloc` and `free` over `SYS_brk`. The table partitions the heap over every run;
`OutcomeIff` gives the exact conditions for NULL and for the sizes whose sum wraps around, where `memset`
runs out of the heap and malloc does not return. `ReusesIff` says when a freed block is handed out again.

**Pipes** (`pipes`): the cursors encode a bounded counter over any calls that return, if and only if no read asks an
empty pipe with an open writer for some bytes but less than a whole buffer (`CallsCountIff`). Transfers that do
not cross the buffer end are first in, first out; those that cross it are modelled as the code does them: `start`
or `last` is overwritten before it is used again, so a draining read returns a wrong number and copies to a wrong
place, and a partial read or a write passes a negative length to memcpy. A full pipe read across its end returns
the right number but copies bytes from behind the buffer. `ReadRightIff` is the exact condition for a read whose number
and bytes are right; `ReadAccountedIff` is the weaker one for its number alone.

**The scheduler** (`queues`, `scheduler`): run, sleep, wait and block queues as doubly linked lists. A pass that
wakes the head of a queue and leaves others behind does not move the head pointer, and `deleteNode` never does;
`WakeSleepers`, `WakeWaiters` and `DeleteNode` state that the lists are in order afterwards if and only if the
head stays or everything wakes, and if and only if the deleted process was not a head; `SysExit` joins the two,
and says what the walks do when the head of the waiters is lost. `Queues.CanDo` holds these boundaries, and each
method that leaves the lists in order performs such a step. `Conservation` keeps every live process on exactly one
queue over every run of them, `RoundRobin` and `TurnAfterSwitches` say when a process gets its turn.

## Where the code and its comments disagree

- `get_vma_flags` calls its last value the default read permission; it is 2, which is `VM_WRITE` (sys/elf.c:135-146).
- `page_insert` has a call of `page_remove` for an occupied entry, but loops forever before it (sys/page.c:440-445).
- The tests for a full pipe and an empty one print a message and go on; the waits are commented out (sys/syscall.c:522-533, 739-743).

The model follows the code.

## Model

| member | source | states |
|---|---|---|
| Words.FromBitsInjective | include/sys/page.h:49-58 | the field view of a 64-bit entry loses nothing: equal fields mean equal words |
| Words.CowMarkBits | sys/syscall.c:1283-1287 | clearing RW and setting COW is exactly the field update the model uses |
| Words.MakeWritableBits | sys/isr.c:228-234 | the bit operations of the unlocking branch set RW, clear COW and change nothing else |
| Words.StoredEntryBits | sys/page.c:433-450 | address combined with permission bits keeps the frame number and gives exactly those flags |
| PageBytes.WithPageByteAt | sys/isr.c:180-183 | storing a byte in a page of words changes that byte and no other |
| PageBytes.BytesDetermine | sys/isr.c:180-183 | pages of 64-bit words with the same bytes are the same: the byte view loses nothing |
| Memory.IndicesInjective | include/sys/page.h:43-46 | the four table offsets determine the 36-bit page number |
| Memory.PathFacts | sys/page.c:215-348 | in every state with the invariant each table met on a walk has the level, parent and slot of its position |
| Memory.SlotInjective | sys/page.c:215-348 | different (process, page number) pairs have different page-table slots |
| Memory.LeafDecides | sys/page.c:215-348 | all upper levels of a walk are present, writable and user-accessible, so the processor lets a user access through exactly when the page-table entry does |
| KernelMemory.ReservedFrames | sys/page.c:122-157 | which frames page_free_init reserves, and how many it leaves free |
| KernelMemory.Kernel.constructor | sys/page.c:122-157 | page_free_init establishes the invariant, with 414 frames listed |
| KernelMemory.PopKeeps | sys/page.c:160-177 | taking the head leaves a well-linked list of the other frames |
| KernelMemory.PushKeeps | sys/page.c:476-487 | pushing a frame gives a well-linked list with it on top |
| KernelMemory.Kernel.PageAlloc | sys/page.c:160-177 | succeeds exactly with two or more free frames, returns the last released one zeroed, keeps the invariant |
| KernelMemory.Kernel.PageRelease | sys/page.c:476-487 | a frame that nothing points to is back on the list, zeroed and uncounted |
| KernelMemory.Kernel.PdeWalk | sys/page.c:308-348 | finds or makes the page table; no mapping changes |
| KernelMemory.Kernel.PdpeWalk | sys/page.c:263-305 | finds or makes two levels, fails exactly when frames run out |
| KernelMemory.Kernel.Pml4Walk | sys/page.c:215-259 | finds the slot of a page number, allocating exactly the missing tables; all mappings, counts and contents stay |
| KernelMemory.Kernel.PageInsert | sys/page.c:433-450 | on an empty entry changes one key of one process to the new word and one count by one |
| KernelMemory.Kernel.PageRemove | sys/page.c:453-473 | clears one key; the frame is released with its last reference |
| Updates.AllocKeeps | sys/page.c:160-177 | page_alloc keeps the invariant, and mappings of every frame |
| Updates.HookKeeps | sys/page.c:226-247 | hooking a fresh table into an empty directory entry keeps the invariant |
| Updates.EnterKeeps | sys/page.c:215-348 | one level of a walk only turns free frames into tables, with the right level, parent and slot |
| Updates.MapEffect | sys/page.c:433-450 | a store into a slot changes the entry of that page number only |
| Updates.RemoveEffect | sys/page.c:453-473 | page_remove changes one key, and releases the frame exactly with its last reference |
| Updates.ReleaseKeeps | sys/page.c:476-487 | releasing an unreferenced frame keeps the invariant |
| Updates.RootKeeps | sys/syscall.c:1200-1206 | a new PML4 keeps the invariant, maps nothing and changes no other process |
| Counting.CountIsMappings | sys/page.c:433-473 | ref_count of a data frame is the number of (process, page) pairs mapping it |
| Counting.SoleMapper | sys/isr.c:211 | a count of 1 means one mapping, and the other way round |
| Counting.TableReferencedOnce | sys/page.c:215-348 | a live non-root table has count 1 and exactly one entry pointing to it |
| Counting.FreeIsUnreferenced | sys/page.c:122-177 | free frames are counted 0, listed once and mapped by nobody |
| Processes.StartProcess | sys/process.c:33-47 | a new root with the kernel's entry and no user mapping |
| Processes.NewRoot | sys/syscall.c:1200-1206 | the child's PML4 takes over the parent's kernel entry |
| Processes.SharePage | sys/syscall.c:1274-1294 | one page: parent loses RW when writable, child gets the same frame, no other entry of any process changes |
| Processes.Fork | sys/syscall.c:1199-1300 | the child maps exactly the parent's pages without RW and gets equal areas; an area's pages are copy-on-write in the child exactly when bit 1 of its flags is set |
| Processes.ForkedArea | sys/syscall.c:1277-1294 | per page of an area: same frame, RW gone in the child, copy-on-write on both sides exactly when bit 1 of the area's flags is set, the parent's entry untouched otherwise |
| Processes.PageAddress | sys/syscall.c:1273-1277 | the loop address of page i selects page number first + i |
| Faults.CopyOnWrite | sys/isr.c:197-238 | two sharers: a writable copy of the same contents in a fresh frame; otherwise the entry is unlocked in place |
| Faults.CopyPage | sys/isr.c:211-227 | unmap, allocate, map, copy: the other sharer keeps its entry and its contents |
| Faults.DataContents | sys/isr.c:223 | overwriting a user page keeps the invariant and every mapping |
| Faults.AllocatePages | sys/isr.c:140-164 | every page of the area is mapped after it, new ones zeroed and RW exactly when bit 1 of the area's flags is set, old ones unchanged |
| Faults.FilledArea | sys/isr.c:146-158 | new entries are present, user-accessible, not copy-on-write, and RW by bit 1 of the area's flags |
| Teardown.RemoveVmas | sys/cleanup.c:11-54 | afterwards no page of the areas is mapped; no other process changes |
| Teardown.DeletePage | sys/cleanup.c:56-65 | a table nothing hangs off is released when this was its one reference |
| Teardown.DeletePt | sys/cleanup.c:138-149 | releases one empty page table and nothing else |
| Teardown.DeletePd | sys/cleanup.c:131-156 | releases a page directory with all its page tables, each once, before the directory itself |
| Teardown.DeletePdpt | sys/cleanup.c:125-168 | the same one level up |
| Teardown.DeleteTables | sys/cleanup.c:120-183 | releases exactly the tables below the root; the kernel slot is cleared without following it |
| Teardown.DeleteProcess | sys/cleanup.c:67-183 | the whole deletion: mappings and tables of this process go, other processes keep theirs |
| Teardown.SlotOwner | sys/page.c:215-348 | between system calls every page-table slot belongs to one page number of one process |
| Teardown.DeletedQuiet | sys/cleanup.c:67-183 | no table of the dead process is left, and none is half deleted |
| Teardown.SurvivesIffShared | sys/cleanup.c:11-65 | a frame of the dead process survives exactly when another process maps it |
| Refinement.BootOk | sys/page.c:122-157 | before the first process the run invariant holds |
| Refinement.StartRefines | sys/process.c:33-47 | a new process starts with nothing mapped and disturbs nobody |
| Refinement.ForkRefines | sys/syscall.c:1199-1300 | fork keeps the run invariant and the child reads what the parent reads |
| Refinement.StoreRefines | sys/isr.c:197-238 | a store through a writable entry changes one word of one process's view and no other view |
| Refinement.WriteFaultRefines | sys/isr.c:197-238 | a copy-on-write fault with at most two sharers changes no view and keeps writable entries private |
| Refinement.CopyEffects | sys/isr.c:167-194 | stores of the kernel, as copyELF makes them, change the process's view as the stores say, and no other view when no target is shared |
| Refinement.FilledTargets | sys/isr.c:140-194 | allocatePages changes no count of the pages copyELF stores in that were mapped before, and maps the others once |
| Refinement.FaultRefines | sys/isr.c:82-194 | a completed fault zeroes the new pages of an area and then stores the program's sections, in the area or on pages mapped before, in one view and no other, when no target frame is shared |
| Refinement.KernelStoreRefines | sys/syscall.c:532-582 | bytes a system call stores in the caller's mapped pages change its view and no other, when no target frame is shared |
| Refinement.GrowRefines | sys/syscall.c:1640-1665 | a larger area changes no view |
| Refinement.ExitRefines | sys/cleanup.c:67-183 | exit removes one view and changes no other |
| Refinement.StepRefines | sys/isr.c:82-238 | every step within the two boundaries keeps the invariant and matches the copying system |
| Refinement.RunRefines | sys/syscall.c:1199-1300 | over every run within the two boundaries each process reads what it would had fork copied every page |
| Sharers.WriteFaultIsolatesIff | sys/isr.c:211-234 | stores stay private after a copy-on-write fault if and only if at most two entries mapped the frame |
| Sharers.OtherSharer | sys/isr.c:228-234 | with a third sharer a store through the unlocked entry shows in another page |
| Sharers.PrivateIff | sys/isr.c:197-238 | stores through an entry stay private if and only if its frame is counted once |
| Sharers.TwoForksShareThreeWays | sys/syscall.c:1199-1300 | forking twice shares a private page three ways |
| Sharers.KernelStoresPrivateIff | sys/syscall.c:921-932 | what the kernel stores in a process's mapped pages stays private if and only if each frame it goes to is mapped once |
| Sharers.CopyPrivateIff | sys/isr.c:82-194 | when copyELF finds all its pages, its stores stay private if and only if no frame mapped at them before the fault is mapped elsewhere |
| Sharers.FirstFaultStoresAlone | sys/isr.c:82-194 | a first fault on an area is within the boundary when what it stores outside the area goes to writable pages |
| Sharers.SiblingReads | sys/isr.c:167-194 | whoever shares a page with the process reads the stored bytes too |
| Sharers.RefaultAfterFork | sys/isr.c:82-194 | after a fork a further fault handed to a filled area resets the pages that the sibling shares |
| Sharers.KernelStoreAfterFork | sys/syscall.c:532-582 | a system call that stores in a page a child still shares with its parent changes the parent's memory |
| Loading.LoadedByte | sys/isr.c:167-194 | after any stores every address reads as the last store to it, or as before |
| Loading.LastWriter | sys/isr.c:167-194 | the last store to an address is the one for the last section that contains it |
| Loading.SectionsStayInside | sys/elf.c:27-110 | in areas without overlap a section that starts below an area's end lies in the area |
| PageFaults.FindVma | sys/isr.c:114-138 | the first area that contains the address, its end included, or starts at most 8 bytes above it a page or more above the stack's limit, and for a write has bit 1 of its flags; or none does |
| PageFaults.CopyElf | sys/isr.c:167-194 | the stores of all sections that start in the area or at its end, in header order, into the mapped frames; it fails exactly when a page is missing |
| PageFaults.NotPresentFault | sys/isr.c:82-100 | for any areas, with or without overlap: killed exactly when no area matches; else the first match is filled and loaded, or a store of the copy faults, each exactly when the pages say so |
| PageFaults.HandledPages | sys/isr.c:82-194 | every page of the area or mapped before is mapped after the fault, old entries as they were, new ones RW exactly when bit 1 of the area's flags is set |
| PageFaults.HandledBytes | sys/isr.c:82-194 | each mapped address reads as the last section with the allocation flag that starts in the area or at its end and contains it, else as before, else zero |
| PageFaults.InsideReaches | sys/isr.c:167-194 | no store of the copy faults when the sections that start in the area end in it |
| PageFaults.SectionReached | sys/isr.c:167-194 | a copy that completes finds the page of every byte of every section with the allocation flag that starts in the area or at its end |
| PageFaults.FaultLoads | sys/isr.c:82-194 | for every fault that completes and every byte of a section with the allocation flag that starts in the area or at its end and is not covered by a later one: its page is mapped, a new one RW by bit 1 of the area's flags, and it reads as the file has it, zero for type 8 |
| PageFaults.HeaderDecidesWrite | sys/elf.c:135-146 | from header to processor: on a new page of an area made for a section, user writes are let through exactly when the section's header has the write flag |
| PageFaults.HeaderDecidesCow | sys/syscall.c:1283-1294 | fork leaves copy-on-write marks in parent and child exactly for areas of sections with the write flag |
| PageFaults.InsideIff | sys/isr.c:140-164 | an address's page is one of an area's pages exactly between its start and its end |
| PageFaults.FoundIff | sys/isr.c:114-138 | an access inside an area finds that area unless an earlier permitted one ends there or is the stack |
| PageFaults.ResolvedIff | sys/isr.c:82-100 | the faulting page is mapped afterwards exactly when the address is inside the area found, with RW as its permission |
| PageFaults.HandledIff | sys/isr.c:82-194 | after the whole handler the faulting page is mapped exactly when the address is inside the area found |
| PageFaults.AdjoiningAreas | sys/isr.c:114-138 | the first address of an area that follows another is not resolved |
| PageFaults.StackDoesNotGrow | sys/isr.c:114-138 | a write up to 8 bytes below the stack's page finds the stack's area, whose pages do not include it; further below it finds none |
| Elf.AddressSpace.CheckVma | sys/elf.c:47-78 | finds the first area containing the address and extends it to the section's end |
| Elf.AddressSpace.InsertVma | sys/elf.c:85-110 | after check_vma returned 0 the new area goes to the end: the middle branch is never taken |
| Elf.AddressSpace.GetElf | sys/elf.c:27-43 | every allocated section is covered; the areas are without overlap exactly when each section was placed clear; ascending headers stack them |
| Elf.PlaceCovers | sys/elf.c:47-110 | placing a section covers it, uncovers none and keeps areas page-aligned |
| Elf.PlacedInFirst | sys/elf.c:47-78 | the first area with the address, its end included, grows to the least page boundary at or above the section's end when that lies above its own; nothing else changes |
| Elf.PlacedAlone | sys/elf.c:85-146 | without such an area one is added: the pages the section touches, readable, writable and executable as its header says |
| Elf.LoadCovers | sys/elf.c:27-43 | for any header order every allocated section lies in one page-aligned area |
| Elf.LoadMakes | sys/elf.c:27-110 | for any header order each area starts at the page of an allocated section and is writable exactly when that section is |
| Elf.LoadStacks | sys/elf.c:27-43 | for ascending headers the areas do not overlap |
| Elf.PlaceClearIff | sys/elf.c:47-110 | areas without overlap stay so if and only if the area extended or made is clear of the others |
| Elf.LoadClearIff | sys/elf.c:27-43 | for any header order the areas are without overlap if and only if every section was placed clear |
| Elf.OutOfOrderOverlaps | sys/elf.c:47-110 | two sections without a common byte, the higher first, give overlapping areas |
| Elf.BuiltVmasOkIff | sys/process.c:109-139 | program, heap and stack are page-disjoint if and only if the program's areas are without overlap |
| Elf.LoadedVmasOkIff | sys/elf.c:27-110 | fork meets no occupied entry if and only if every section was placed clear, as ascending headers always are |
| Descriptors.Pool.constructor | sys/page.c:512-530 | all descriptors are on the free list |
| Descriptors.Pool.Link | sys/page.c:533-544 | takes the head of the free list and puts it behind a process's last area |
| Descriptors.Pool.FindLast | sys/process.c:97-106 | the last area of a process, or none |
| Descriptors.Pool.Append | sys/process.c:109-139 | one area more for this process, none changed for others |
| Descriptors.Pool.Fork | sys/syscall.c:1211-1231 | the child's list equals the parent's in order and content, no other list changes |
| Descriptors.Pool.Remove | sys/cleanup.c:11-50 | all descriptors of the process go back to the free list, cleared and in reverse order |
| Descriptors.EachInOnePlace | sys/page.c:512-544 | a descriptor is free, or on exactly one process's list |
| Descriptors.ReversedIs | sys/cleanup.c:35-46 | the descriptors of a dead process go back in the reverse of their order |
| Bytes.WordRoundTrip | sys/syscall.c:1474 | a 64-bit word read back from its bytes is the word written |
| Bytes.ByteWeighs | sys/syscall.c:1474 | words are little-endian: each further byte weighs 256 times the one before |
| StackImage.UserAddressIsMapped | sys/syscall.c:1474 | the pointer computed from a kernel alias is the address the word has in the stack page |
| StackImage.Measure | sys/syscall.c:1418-1464 | the sizing loops compute the words the strings need, and argc without one for each ampersand argument |
| StackImage.AmpersandSet | sys/syscall.c:1446-1464 | argc goes down by the number of arguments whose first character is 38 |
| StackImage.OffsetIs | sys/syscall.c:1418-1464 | the size is two words and, for each string, the words that it and its terminator touch |
| StackImage.PushStrings | sys/syscall.c:1469-1495 | strings and pointers end up where they are planned, and no other word changes |
| StackImage.WriteImage | sys/syscall.c:1466-1499 | the page holds count, argument pointers, NULL, environment pointers, NULL, all pointing at their strings |
| StackImage.CapacityIsExact | sys/syscall.c:1517-1519 | the stack pointer lies in the page exactly when the image leaves its first word free |
| StackImage.Start | crt/crt1.c:13-63 | _start leaves the page as it was and finds argc, argv and envp |
| StackImage.ReadsBack | crt/crt1.c:19-53 | on an image the two pointer lists read as the strings written, each ended by NULL |
| StackImage.ExecThenStart | sys/syscall.c:1418-1520 | main receives the environment and the first arguments, one fewer for each argument that starts with character 38; all of them exactly when none does |
| Paths.ParseFileName | sys/tarfs.c:163-183 | the components are the pieces between slashes, a trailing slash adding none |
| Paths.SplitJoin | sys/tarfs.c:163-183 | splitting two strings joined by a slash gives the pieces of both |
| Paths.ComponentsJoin | sys/tarfs.c:163-183 | the components of a joined path are those of its parts |
| Octal.PowerIsPow | sys/tarfs.c:59-67 | the recursive power is exponentiation while the result fits |
| Octal.Atoi | sys/tarfs.c:14-32 | decimal value modulo 2^64, 0 for anything else |
| Octal.AtoiIs | sys/tarfs.c:14-32 | digits give their decimal value modulo 2^64, with a minus sign the complement, with a plus sign the same, anything else 0 |
| Octal.ConvertOctalToDecimal | sys/tarfs.c:69-80 | the decimal digits read in base eight, without wrap-around for any 64-bit argument |
| Octal.NextDecimal | sys/tarfs.c:14-32 | a digit of atoi: the wrapped sum stays the prefix's decimal value modulo 2^64 |
| Octal.FieldValue | sys/tarfs.c:14-80 | an octal header field is read as its base-8 value |
| TarTree.PathInjective | sys/tarfs.c:184-284 | different nodes have different paths |
| TarTree.FindChild | sys/tarfs.c:300-375 | the sibling loop finds the child with this name, or there is none |
| TarTree.Descend | sys/tarfs.c:300-375 | the descending loops end at the node with the path, or nothing has it |
| TarTree.LookUpForFile | sys/tarfs.c:286-375 | NULL exactly on paths without a node, else the node of the resolved path |
| TarTree.RelativeIsJoined | sys/tarfs.c:310-348 | a relative lookup is the absolute lookup of the current directory joined with it |
| Archive.WalkVisitsHeaders | sys/tarfs.c:200-280 | files with octal size fields, each with the blocks that the base-8 value takes: the walk over converted, rounded-up sizes meets exactly their headers, in order, and ends |
| Archive.Insert | sys/tarfs.c:253-261 | the new node becomes the last child; only the links named change |
| Archive.AppendKeeps | sys/tarfs.c:253-261 | an insertion keeps the tree and all paths |
| Archive.AddNode | sys/tarfs.c:226-263 | one header more in the index |
| Archive.SetupHierarchy | sys/tarfs.c:184-284 | node i + 1 is the i-th header up to lib/libc.a, with its path, name, type, permissions and start |
| Archive.IndexedNode | sys/tarfs.c:207-236 | the node of a header: "/" before its name, the address behind its block, types 0 and 5 for these flags, the base-8 value of the mode |
| Archive.IndexedIs | sys/tarfs.c:265-269 | the indexed headers are the first ones up to lib/libc.a, or all when there is no such name |
| Archive.Scan | sys/tarfs.c:105-133 | the first header with this name, or none |
| Archive.GetFile | sys/tarfs.c:91-134 | the start of the node that lookUpForFile finds, NULL for unindexed paths and for the root |
| Archive.ScanAgrees | sys/tarfs.c:91-134 | the linear scan for a node's name ends at that node's content |
| Archive.OwnPath | sys/tarfs.c:286-375 | looking up a node's own path finds the node from any directory |
| Directories.Pcb.ChangeOne | sys/syscall.c:990-1026 | one component leads to its node, or changes nothing |
| Directories.EnterIff | sys/syscall.c:990-1026 | ".." leads to the parent, from the root to the root, a name to the child with it, each exactly when that node has type 5 and permissions 0755 |
| Directories.NormalizeIs | sys/syscall.c:988-1030 | dots go, a name and the ".." behind it go, ".." at the root stays there |
| Directories.Pcb.ChangeAll | sys/syscall.c:988-1030 | the loop is the fold over the components |
| Directories.Pcb.Chdir | sys/syscall.c:934-1032 | success leads to the folded directory, whose node has type 5 and permissions 0755; failure leaves cwd unchanged |
| Directories.WalkIsNormalize | sys/syscall.c:988-1030 | the fold succeeds exactly when every normalised prefix is a directory with mode 755, and ends at the normalised path |
| Directories.RunStaysInDirectories | sys/syscall.c:934-1032 | over any calls cwd is the path of such a directory |
| Directories.ChdirThenLookUp | sys/syscall.c:934-1032 | relative lookups after a chdir find what the joined path named before |
| Directories.SameDirectory | sys/syscall.c:934-1032 | two paths that both succeed lead to the same directory exactly when they normalise alike |
| Heap.UserHeap.Brk | sys/syscall.c:1640-1665 | 0 asks for the end; a request between the bounds succeeds; the end stays, or goes to the least page boundary at or above a request that lies above it |
| Heap.UserHeap.Search | libc/malloc.c:23-38 | finds a free entry exactly when one is at least as large as asked: the smallest such, lowest index first |
| Heap.UserHeap.Extend | libc/malloc.c:39-61 | a block at the old end, or NULL, or a fault |
| Heap.UserHeap.Allocate | libc/malloc.c:21-70 | hands out the smallest sufficient free block and grows nothing, when there is one; else the table grows by one entry or no pointer is returned |
| Heap.ReusesIff | libc/malloc.c:21-70 | a block is reused exactly when a free one is at least as large as asked, and then the smallest; else the new entry lies at the old end |
| Heap.FreedIsReused | libc/malloc.c:21-82 | malloc of a freed block's size, or less, returns that block when no other is free |
| Heap.UserHeap.Free | libc/malloc.c:73-82 | frees exactly the entries with this address |
| Heap.EntriesPartition | libc/malloc.c:21-82 | each byte from the first heap_end to the current one is in exactly one entry |
| Heap.OutcomeIff | libc/malloc.c:39-61 | exactly when malloc returns NULL, and exactly when the sum wraps and it faults |
| Heap.MallocKeeps | libc/malloc.c:21-70 | the partition is kept by every call that returns |
| Heap.LiveDisjoint | libc/malloc.c:21-82 | blocks in use do not overlap and lie in the part of the heap the kernel has granted |
| Heap.PointerIsNew | libc/malloc.c:21-70 | a returned block is not in use |
| Heap.UserHeap.Clear | libc/memset.c:4-12 | the bytes of the range are zero, all others as before |
| Heap.OthersKeepBytes | libc/malloc.c:53-68 | malloc's clearing leaves the bytes of blocks in use alone |
| Heap.RunKeeps | libc/malloc.c:21-82 | over every run of malloc, free and brk all of this holds |
| Pipes.Pipe.Read | sys/syscall.c:512-583 | cursors, result and memory in every branch, the broken ones included; when its bytes do not go around the buffer's end, the front of the contents, and the rest stays |
| Pipes.Pipe.Write | sys/syscall.c:728-822 | a fitting write returns exactly when none of its bytes goes around the buffer's end, and then appends to the contents |
| Pipes.LenDetermines | sys/syscall.c:512-583 | the cursors encode the length one to one |
| Pipes.FullIs | sys/syscall.c:532 | the test for a full pipe is right |
| Pipes.WriteReturnsIff | sys/syscall.c:748-806 | a fitting write returns exactly when the places behind the last byte are all below the buffer's end |
| Pipes.ReadReturnsIff | sys/syscall.c:532-582 | a read returns the number of bytes asked for that are there, but for bytes around the end of a pipe that is not full: it does not return when some stay, and returns too much when none do |
| Pipes.EmptyReadReturns | sys/syscall.c:522-531 | a read of an empty pipe returns 0 when it is closed, else a number of bytes that are not there |
| Pipes.EmptyReadCopies | sys/syscall.c:560-566 | the bytes it then gives are those the buffer starts with |
| Pipes.StraightReadCopies | sys/syscall.c:532-558 | bytes that do not go around the end, and those of a full pipe, come from one place |
| Pipes.WrappedReadCopies | sys/syscall.c:560-581 | of bytes around the end the second part lands a buffer's size behind the first, and only when the pipe is emptied |
| Pipes.ReadAccountedIff | sys/syscall.c:512-583 | exactly when the result is the number of bytes that left the pipe, whatever the bytes are |
| Pipes.ReadRightIff | sys/syscall.c:512-583 | exactly when the result and, for every memory, the bytes delivered are right |
| Pipes.EmptyReadBreaksCursors | sys/syscall.c:522-531 | reading an empty pipe with an open writer leaves cursors that encode no state |
| Pipes.ReadTakesFront | sys/syscall.c:532-582 | a read that does not cross copies the front of the queue |
| Pipes.WriteAppends | sys/syscall.c:748-806 | a write that does not cross appends to the queue |
| Pipes.ReadIsTransfer | sys/syscall.c:512-583 | a read that does not cross is a transfer of a run |
| Pipes.WriteIsTransfer | sys/syscall.c:728-822 | a write that does not cross is a transfer of a run |
| Pipes.FirstInFirstOut | sys/syscall.c:512-822 | over any run what was written is what was read followed by what is left |
| Pipes.ReadMovesIff | sys/syscall.c:512-583 | a read that returns leaves cursors that encode a state, and takes out what it should, exactly when it does not ask an empty open pipe for 1 to SIZE - 1 bytes |
| Pipes.WriteMoves | sys/syscall.c:728-822 | a write that returns puts its bytes in: the code's cursor arithmetic adds them to the length |
| Pipes.CursorsCount | sys/syscall.c:512-822 | over any such moves the length is bytes written minus bytes taken, at most the size |
| Pipes.CallsCountIff | sys/syscall.c:512-822 | over any calls that return, the cursors encode a state all the way exactly when no read asked that; then the length is bytes written minus bytes taken |
| Queues.StepConserves | sys/timer.c:35-114 | each step after which the lists are in order moves processes and loses none |
| Queues.JoinedIff | sys/timer.c:35-54 | a pass moves exactly the due ones to the run list |
| Queues.PassKeepsOrder | sys/timer.c:35-54 | those that move and those that stay keep their order |
| Queues.LeaveIs | sys/syscall.c:114-146 | who runs next when the current process leaves, and where it goes: the end of the queue |
| Queues.ParentWokenIs | sys/syscall.c:1568-1597 | a woken parent goes behind the current process and runs |
| Queues.ExitedLists | sys/syscall.c:202-229 | an exit takes the process off its list and nobody else off any; behind the current one the next in the list runs |
| Queues.Conservation | sys/syscall.c:114-277 | over any run of such steps every live process is on exactly one queue |
| Queues.RoundRobin | sys/timer.c:83-91 | n slices run each of n processes once, at its distance, and come back |
| Queues.SwitchApproaches | sys/timer.c:83-91 | a slice brings every other process one step closer |
| Queues.LeaveApproaches | sys/syscall.c:114-146 | so does a process that sleeps, waits, blocks or exits |
| Queues.TurnAfterSwitches | sys/syscall.c:114-229 | a runnable process runs after as many switches as its distance |
| Queues.ArrivalsJoinBehind | sys/syscall.c:1330-1338 | arrivals delay only the processes before the current one, by their number |
| Scheduling.Scheduler.SleepPlease | sys/syscall.c:114-146 | the current process moves to the end of the sleep list, the next one runs |
| Scheduling.Scheduler.WaitPlease | sys/syscall.c:167-200 | waits exactly when another process with the id, or for -1 a child of the current one, is on some list |
| Scheduling.Scheduler.BlockReader | sys/syscall.c:367-394 | the reader leaves the run list for the block slot; with the slot taken it ends on no list |
| Scheduling.Scheduler.WakeReader | sys/kbd.c:130-147 | the blocked reader joins the run list at its end |
| Scheduling.Scheduler.Spawn | sys/syscall.c:1330-1338 | a new process joins at the end |
| Scheduling.Scheduler.NextSlice | sys/timer.c:83-91 | the next process around the list |
| Scheduling.Scheduler.DeleteNode | sys/syscall.c:202-229 | the process leaves its list, but for a waiter whose list's head is lost; the lists are in order if and only if they were and it was not the head |
| Scheduling.Scheduler.WakeSleepers | sys/timer.c:35-54 | exactly the sleepers with one second left join the run list, the others count down; the lists stay linked exactly when the head stays or all wake |
| Scheduling.Scheduler.WakeWaiters | sys/syscall.c:231-257 | for an exit exactly the waiters for that id, and the parent waiting for -1, join the run list; for a turn exactly the waiters for that id; the lists stay linked exactly when the head stays or all wake |
| Scheduling.SleepsFor | sys/timer.c:41 | a sleeper is due at exactly the pass its time says; a time of 0 wraps around to 2^64 |
| Scheduling.Scheduler.EndSlice | sys/timer.c:83-114 | the next process runs and its waiters wake |
| Scheduling.Scheduler.TimerHandler | sys/timer.c:24-114 | each 100th tick the sleepers with one second left wake, each 240th the slice ends and the waiters for the new process wake, nobody else moves; exactly when the lists are in order afterwards |
| Scheduling.TickIsRun | sys/timer.c:24-114 | a tick that leaves the lists in order is a run of the steps that Conservation is about |
| Scheduling.WaitHeadAfter | sys/syscall.c:241-257 | after a pass the variable for the head of the waiters names their head, or a process that has joined the run list |
| Scheduling.Scheduler.SysExit | sys/syscall.c:231-277 | the waiters for the process, and its parent if it waits for -1, join the run list and no other waiter; the process leaves its list; in order exactly when the pass left the waiters in order and the process was not the head |
| Scheduling.Scheduler.WakeParent | sys/syscall.c:1568-1597 | a waiting parent runs next |
| Scheduling.StaysIff | sys/timer.c:42-44 | the head pointer is right after a pass exactly when the head stays or nothing does |

## Left out

- Boot-time mapping of the kernel (`vm_init`, `region_mapping`), `kmalloc`, `bump_alloc` and PCB allocation: the kernel's PML4 entry is a given word, and kernel allocation is assumed to succeed.
- Inline assembly, context switch, CR3 and TLB effects, descriptor tables and interrupt set-up: a switch is a change of the current process, and translations are never stale.
- A user store is the hardware's: it happens through an entry that is present and writable; reads and instruction fetches are the view of a process.
- An empty free list: where `page_alloc` or `page_release` would follow a NULL head the methods of the model report failure or ask for a non-empty list; nothing is claimed afterwards.
- Page descriptors and frames are sequences in fields of one object, with indices for pointers.
- The PML4 root of a dead process is never reused, as in the source; its count of -1 is kept in the model but not constrained.
- KernelMemory.Kernel.PageInsert: an occupied entry, where the source loops forever, is excluded; `Elf.LoadedVmasOkIff` says when fork meets none, and the handlers look before they insert.
- Refinement.RunRefines: execve's replacement of an address space is not a step of the run; its unmapping is `Teardown.RemoveVmas` and its page is `StackImage`. A fault's program is any program, not one remembered for the process. A system call that stores in the caller's memory is any list of bytes at mapped addresses; which bytes a call stores is not part of the run.
- PageFaults.NotPresentFault: when a store of the section copy faults in its turn (`Nested`), or frames run out, nothing is claimed afterwards; kernel stores ignore the RW flag of an entry, which the source does not set the processor up to enforce; section bytes lie within the file.
- Elf.AddressSpace.GetElf: sums of addresses and sizes do not wrap around at 2^64.
- Descriptors.Pool.Fork: an empty pool, where the source follows a NULL pointer, is excluded.
- StackImage.ExecThenStart: the compiler's prologue of `_start`, which makes the word after the stack pointer the argument count, is assumed; foreground flags are not modelled.
- TarTree.LookUpForFile: the empty path is excluded, since `parseFileName` then reads before the string; names fit their buffers and the archive has fewer than 100 entries, distinct paths and parents before children.
- Archive.SetupHierarchy: the nodes' sizes and end addresses, which follow from their starts and headers, are not stored.
- Directories.Pcb.Chdir: paths with empty components are excluded for the same reason.
- Heap.UserHeap.Allocate: a size of 0 and a 501st block are excluded; `sbrk` is only seen through the kernel's end of the heap.
- Pipes.Pipe.Write: writes of no bytes and writes that do not fit are excluded; the offset kept in the descriptor is then always 0.
- Scheduling.Scheduler.TimerHandler: the first slice, when no process has been built yet, simply starts at the head and is not modelled.
- Scheduling.Scheduler.SleepPlease: the current process alone on the run list, which the idle process prevents, is excluded, here and for waiting and blocking.
- The meaning of waitpid: `timer_handler` also wakes a waiter when the awaited process is about to run.
- The file-descriptor table, console output, scan codes, `printf`, `print_time`, the shell, the user programs and the boot loader scripts.
