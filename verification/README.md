# A verified model of the miniature kernel and its bootloader

This project models the hard core of *miniature*, an x86_64 kernel started by a
UEFI bootloader, and proves what that core keeps over whole runs. It follows the
system from boot to user mode:

* **Physical memory** (`regions`, `boot_frames`, `handoff`, `kernel_frames`,
  `page_enumeration`, `memory_limit`): the bootloader's frame allocator, the list of unavailable
  memory it draws up, the kernel's merge of that list and the allocator over its
  complement. The main results are hand-off safety, no block the kernel ever hands
  out meets a frame the bootloader ever handed out, and the exact set of pages the
  kernel can hand out.
* **Loading ELF images** (`copy_on_write`, `elf_image`, `elf_tables`, `elf_loader`,
  `elf_relocate`, `elf_load`): both loaders, with pages mapped straight from the
  file, private copies made on the first write, cleared tails, relocations and
  read-only-after-relocation segments. The main result describes every byte and
  every flag of the finished image, its relocated words from the bytes of the
  file's tables.
* **Context switching** (`scheduler`, `scheduler_runs`, `scheduler_history`,
  `scheduler_progress`, `switch_code`): any number of processors as a state
  machine, with the switch lock, the context guards and the late page table
  change; safety over every interleaving, what a processor runs with from the
  history of steps, register and flag round trips, bounded bypass, no deadlock.
* **Interrupts and system calls** (`interrupt_machine`, `interrupts`,
  `interrupt_nesting`, `system_calls`, `user_programs`, `handler_calls`,
  `shared_stack`): a small processor that executes the entry code; handlers are
  called with the right arguments, and interrupts nested anywhere, also before a GS
  base has been swapped, leave no trace in registers, bases and live memory.
  The kernel stack of a context is mapped for its user too, and the user starts on
  it: user words there are the kernel stack's own, and entries overwrite them.
* **Starting the other processors** (`ap_startup`): the mailbox protocol between
  the boot processor and the one being started, in every interleaving, with the
  frame allocator they share.
* **Tables and ids** (`page_slots`, `boot_slots`, `user_space`, `user_frames`,
  `user_buffers`, `user_backing`, `short_buffers`, `user_addr_space`, `io_apic`,
  `io_apic_device`, `context_ids`): page table slots and their hints, user buffers,
  their translation and the frames behind them, interrupt routing, context ids.

Code that computes is modelled by functions; code that updates objects in place by
classes whose methods are proved equal to a function of the old state; protocols
between processors by state machines with one step per shared access. `dafny
verify dfyconfig.toml` checks everything. Nothing of the original program was
executed.

Where a promised property is false of the code, the code is modelled as it is, a
lemma gives an instance, and another gives the exact condition: see
`PageEnumeration.EnumerationIsExact`, `MemoryLimit.LimitFailsIff`,
`Handoff.BootstrapEntryCovers`, `ElfImage.TableIsShownIff`, `ApStartup.PageTableMustBeLow`,
`SchedulerHistory.KernelRootIff`, `PageSlots.FillingLosesTheHint`, `PageSlots.SpanIsFoundIff`,
`SharedStack.LiveWordsSurviveIff`, `BootSlots.BootSlotsAgree`,
`UserSpace.ShortPieceIsRightIff`, `ShortBuffers.ShortBuffersOverlapIff`,
`IoApic.RoutingIsInjectiveIff` with `IoApic.EntriesSayWhatWasChosenIff`, and
`ContextIds.DeallocKeepsPartitionIff`.

Where code and in-tree expectations disagree the model follows the code:

* `kernel/src/mem/frame_allocator.rs:219-248` expects frames from just above the
  first page; the allocator starts at 0x100000 (line 32).
* `kernel/src/context/list.rs:244-252` expects that giving back an id never handed
  out, or one already given back, reports something else than it does; see
  `ContextIds.UnallocatedIdsComeTwice`.
* The I/O APIC's version register reports its highest entry (section 3.2.2 of the
  Intel 82093AA datasheet); `kernel/src/acpi/io_apic.rs:74-77` uses it as a count.

## Model

| member | source | states |
|---|---|---|
| KernelFrames.MergeIsUnion | kernel/src/mem/frame_allocator.rs:87-115 | for every sorted region list the merged ranges cover exactly the union of the regions, are sorted, and are separated by gaps |
| KernelFrames.InitialIndexIsExact | kernel/src/mem/frame_allocator.rs:117-130 | the ranges before the first index used are exactly those that end at or below the start address |
| KernelFrames.NextIsClear | kernel/src/mem/frame_allocator.rs:141-178 | one request returns a block at or after the cursor, free of every range, and leaves the cursor at its end with no range left unpassed behind it |
| KernelFrames.NextCongruent | kernel/src/mem/frame_allocator.rs:141-178 | however many ranges are skipped, the block stays aligned to the window |
| KernelFrames.RunIsSafe | kernel/src/mem/frame_allocator.rs:141-178 | over every sequence of requests the blocks are window-aligned, strictly increasing, pairwise disjoint and disjoint from every unavailable address |
| KernelFrames.CeilingFalls | kernel/src/mem/frame_allocator.rs:155-176 | skipping ranges never needs more headroom than the request started with, so one bound on the ceiling rules out overflow in the whole recursion |
| KernelFrames.LinkedRangeIterator.constructor | kernel/src/mem/frame_allocator.rs:87-138 | the array filled in place holds the merged ranges, and the cursor stands at the start address before the first range that matters |
| KernelFrames.LinkedRangeIterator.MergeRegions | kernel/src/mem/frame_allocator.rs:87-115 | the merge loop over the fixed array computes the merge of the list and never writes beyond it |
| KernelFrames.LinkedRangeIterator.CopyRanges | kernel/src/mem/frame_allocator.rs:117-130 | copying finds the exact initial index on the way and copies every range |
| KernelFrames.LinkedRangeIterator.NextN | kernel/src/mem/frame_allocator.rs:141-178 | the in-place iterator returns the specified block and moves to the specified cursor; no 64-bit sum or product overflows once the ceiling fits |
| KernelFrames.LinkedRangeIterator.SkipOverlapped | kernel/src/mem/frame_allocator.rs:155-175 | the nested loops leave the current range and every range landed in, and terminate |
| KernelFrames.LinearIncFrameAllocator.AllocateFrames | kernel/src/mem/frame_allocator.rs:42-58 | the page a block starts in, base added, or nothing, nothing exactly if the block would end beyond the boundary; the iterator moves on either way |
| MemoryLimit.RunPagesAreReturned | kernel/src/mem/frame_allocator.rs:141-178 | every page of every block of every run of requests of any sizes is one that single-frame requests return |
| MemoryLimit.RunsHandOutReturned | kernel/src/mem/frame_allocator.rs:141-178 | a page is in some block of some run of requests of any sizes if and only if single-frame requests return it |
| MemoryLimit.LimitFailsIff | kernel/src/mem/frame_allocator.rs:37-57 | some run of requests of any sizes gets accepted frames outside memory if and only if some free page that is not lost ends beyond the size of memory, by more than the base reaches into its page but not by more than the base |
| MemoryLimit.LimitHoldsNearZero | kernel/src/mem/frame_allocator.rs:37-57 | at a base below one page the comparison never lets frames outside memory through |
| MemoryLimit.FrameOutsideMemory | kernel/src/mem/frame_allocator.rs:37-50 | a concrete base, size and region list whose first frame is accepted outside memory |
| PageEnumeration.NextIsLeastFree | kernel/src/mem/frame_allocator.rs:141-178 | every page a single-frame request passes over is not free |
| PageEnumeration.EnumerationIsExact | kernel/src/mem/frame_allocator.rs:87-178 | single-frame requests return only free pages, and return all of them from the cursor on if and only if every page given up to a range already passed was not free |
| PageEnumeration.ReturnedIff | kernel/src/mem/frame_allocator.rs:87-178 | the pages returned are exactly the free pages from the cursor on that are not given up that way |
| PageEnumeration.AlignedRegionsEnumerateAll | kernel/src/mem/frame_allocator.rs:87-178 | for page-aligned non-empty regions the pages returned are exactly the pages from 0x100000 on that no region touches |
| PageEnumeration.RegionsEnumerateTheRest | kernel/src/mem/frame_allocator.rs:87-178 | for non-empty regions of any alignment they are those of these pages that are not lost |
| PageEnumeration.UnalignedRangesLoseAPage | kernel/src/mem/frame_allocator.rs:155-175 | two concrete unaligned regions after which a free page is never returned |
| BootFrames.LinearIncFrameAllocator.AllocateFromDescriptor | bootloader-efi/src/mem/frame_allocator.rs:49-67 | the least frame of one descriptor not yet passed, which is passed with it; none exactly if the descriptor is exhausted |
| BootFrames.LinearIncFrameAllocator.AllocateFrame | bootloader-efi/src/mem/frame_allocator.rs:108-129 | every frame is new, usable, and on a sorted map the least usable frame not passed; none only if there is none |
| BootFrames.LinearIncFrameAllocator.AllocatedRegion | bootloader-efi/src/mem/frame_allocator.rs:94-100 | the region reported covers every byte of every frame ever returned |
| BootFrames.LinearIncFrameAllocator.MaxPhysAddr | bootloader-efi/src/mem/frame_allocator.rs:85-91 | the greatest end address of any descriptor |
| BootFrames.TakenIsLeast | bootloader-efi/src/mem/frame_allocator.rs:108-129 | on a sorted map the frame taken is the least usable one left |
| BootFrames.HoldsFrameIff | bootloader-efi/src/mem/memory_descriptor.rs:14-23 | the frames the bootloader may take from a descriptor that starts at a page are exactly those that lie in it, if it is conventional memory, and none otherwise |
| Handoff.RegionMap.Construct | bootloader-efi/src/main.rs:264-357 | the list drawn up in place is the specified one, entry by entry and in order |
| Handoff.RegionMap.Finish | bootloader-efi/src/mem/runtime_map.rs:184-197 | the argument and everything allocated by then are recorded, and the list is sorted in place without losing or adding an entry, equal starts in either order |
| Handoff.SortKeeps | bootloader-efi/src/mem/runtime_map.rs:196-197 | there is such an order: insertion is a permutation |
| Handoff.SortSorts | bootloader-efi/src/mem/runtime_map.rs:196-197 | and sorted by start address |
| Handoff.RecordedCovers | bootloader-efi/src/main.rs:264-357 | the list covers memory of reserved kinds, everything allocated, framebuffer, kernel image, a kernel-sized piece of the bootstrap image, the pages of the local APIC, of every I/O APIC, of the descriptor table and of the page table, and nothing else |
| Handoff.BootstrapEntryCovers | bootloader-efi/src/main.rs:313-319 | the bootstrap entry, whose length is the kernel's, covers the bootstrap image if and only if that image is no longer than the kernel's |
| Handoff.KernelAvoidsRecorded | kernel/src/mem/frame_allocator.rs:87-178 | over any run of the kernel's allocator, on the list sorted in any way, no block meets a recorded region |
| Handoff.HandoffIsSafe | bootloader-efi/src/mem/runtime_map.rs:173-197 | through allocated region, list, second record, any sort by start and merge: no block the kernel returns in any run holds a byte below one megabyte, of any frame the bootloader's allocator ever returned, of reserved memory, of the images, the framebuffer or the argument as recorded, or of the page of any interrupt controller or of the tables |
| Handoff.KernelHandsOutTheRest | kernel/src/mem/frame_allocator.rs:87-178 | on lists of any alignment the kernel hands out, by requests of any sizes, exactly the pages that no entry touches and that are not lost, the uncovered tail of the bootstrap image included |
| Handoff.BootstrapTailIsHandedOut | bootloader-efi/src/main.rs:313-319 | a boot with room for its page tables and stack and with its full list, sorted in any way, in which a page of the bootstrap image is handed out |
| CopyOnWrite.WriteSpanOverwrites | bootloader-efi/src/kernel.rs:372-434 | a write across any page boundaries makes exactly the buffer appear at its address and changes no other virtual byte |
| CopyOnWrite.WriteSpanKeepsInv | bootloader-efi/src/kernel.rs:372-434 | the file's frames keep their bytes, marked pages own frames no other page maps, and unused frames stay unused |
| CopyOnWrite.WritesAreSound | bootloader-efi/src/kernel.rs:329-434 | over any sequence of writes, also with pages sharing a file frame: file frames unmodified, copies private, every address shows the last write to it |
| CopyOnWrite.PageSlice | bootloader-efi/src/kernel.rs:395-418 | for each page the part of the buffer that lies in it, where it starts in the page and how long it is |
| CopyOnWrite.AddressSpace.CopyPageAndRemap | bootloader-efi/src/kernel.rs:329-370 | the page gets a frame of its own with the same bytes; a marked page is left alone |
| CopyOnWrite.AddressSpace.CopyPagesAndWrite | kernel/src/mem/load_elf.rs:331-392 | the loop over pages performs the specified write, or stops exactly if it cannot be performed |
| ElfImage.LittleEndianRoundTrip | bootloader-efi/src/kernel.rs:246-268 | the eight bytes stored for a value read back as the value |
| ElfImage.DisjointTargetsKeepTheirs | bootloader-efi/src/kernel.rs:229-274 | with pairwise disjoint relocation targets each one ends up with its own bytes |
| ElfImage.ImageExtent | bootloader-efi/src/kernel.rs:40-57 | the least virtual address and the size of the span of all loadable segments |
| ElfImage.ReadTags | bootloader-efi/src/kernel.rs:195-226 | the three relocation entries of a dynamic segment, refused exactly if one is repeated |
| ElfImage.TableIsShownIff | bootloader-efi/src/kernel.rs:248-252 | whatever the file's bytes, the table read at the file index is the one the image shows at its address if and only if the segment is as far into the file as into the image |
| ElfImage.WrongTableIsRead | bootloader-efi/src/kernel.rs:248-252 | a file of two segments in which it is another |
| ElfTables.EntryIsRead | bootloader-efi/src/kernel.rs:252-267 | 24 bytes of little-endian offset, type 8 with symbol 0, and addend are read as that relocation |
| ElfTables.DynamicSucceeds | bootloader-efi/src/kernel.rs:186-274 | a segment whose tags are unrepeated and say 24 bytes an entry, and whose table is relative relocations that can be placed, is not refused |
| ElfTables.StoresAreAsked | bootloader-efi/src/kernel.rs:248-268 | the loader's stores are, entry by entry and in order, those the bytes of the file's tables ask for: at base plus offset, eight bytes of base plus addend |
| ElfTables.TablesAreThere | bootloader-efi/src/kernel.rs:248-273 | in a file that is not refused every entry of every table is a relative relocation without a symbol |
| ElfLoader.Loader.MapFilePart | bootloader-efi/src/kernel.rs:120-129 | the pages of the file part show the file, one page per frame; the bootloader needs no new frames for it |
| ElfLoader.Loader.ClearTail | bootloader-efi/src/kernel.rs:146-164 | bytes behind the file part up to the page end become zero in a private copy, and no others |
| ElfLoader.Loader.MapBss | bootloader-efi/src/kernel.rs:168-184 | the pages behind the file part show zeros from fresh frames |
| ElfLoader.Loader.LoadSegment | bootloader-efi/src/kernel.rs:107-185 | one segment: every address shows its file byte or zero, its pages have its flags, nothing else has changed |
| ElfRelocate.WriteSpanNeedsPages | bootloader-efi/src/kernel.rs:372-434 | a write succeeds exactly if its pages are mapped, given frames |
| ElfRelocate.Relocator.ApplyDynamic | bootloader-efi/src/kernel.rs:186-274 | the relocations of a dynamic segment are the stores the bytes of its table ask for, in table order, and are applied exactly if the table is not refused and its targets are mapped, given frames |
| ElfLoad.LoadProgresses | bootloader-efi/src/kernel.rs:78-185 | loading a segment extends what is shown by exactly that segment |
| ElfLoad.RelocateProgresses | bootloader-efi/src/kernel.rs:186-274 | relocation changes what is shown at its targets only |
| ElfLoad.ImageLoader.UpdatePageFlags | bootloader-efi/src/kernel.rs:436-458 | the pages of a range lose write permission and nothing else changes; an unmapped page stops the loader |
| ElfLoad.ImageLoader.ProcessHeaders | bootloader-efi/src/kernel.rs:78-297 | the loop over all program headers, with its error exits |
| ElfLoad.ImageLoader.ClearMarks | bootloader-efi/src/kernel.rs:299-316 | no segment page keeps the copy mark, and no byte changes |
| ElfLoad.ImageLoader.Load | kernel/src/mem/load_elf.rs:16-288 | whenever it finishes, every address of every segment shows the last relocation covering it, else the file byte, else zero; from the bytes of the file's tables: bytes no entry covers are the file's, and of entries that do not overlap each has its word relocated; flags are exactly the headers', narrowed under relro; file frames are intact, and the kernel's loader maps none of them; on a well-formed file with frames enough it finishes |
| ElfLoad.RelocatedWords | bootloader-efi/src/kernel.rs:229-274 | in the finished image a byte that no table entry covers is the file's, and if no two entries overlap the eight bytes at base plus offset are those of base plus addend, both less the least address, from the bytes of the tables alone |
| Scheduler.StepKeepsInv | kernel/src/context/switch.rs:89-306 | every step of every processor keeps lock, running, phase, guard, page table and stack invariants |
| SchedulerRuns.RunningMatchesProcessors | kernel/src/context/switch.rs:133-166 | in every state of every run running contexts and processors are in bijection with matching cpu ids, and outside a switch the page table base is the current context's space and the task stack the top of its kernel stack |
| SchedulerRuns.UnsavedIsNeverChosen | kernel/src/context/switch.rs:98-160 | no processor switches to a context whose registers have yet to be saved |
| SchedulerRuns.LockIsBalanced | kernel/src/context/switch.rs:94-96 | over every run the lock is released exactly once per acquisition, on the path that finds nothing too |
| SchedulerRuns.AffinityIsForever | kernel/src/context/switch.rs:66-69 | once a context is bound to a processor it stays bound to it |
| SchedulerRuns.ResumeRestoresRegisters | kernel/src/context/switch.rs:216-283 | when a context is resumed its registers are what they were when it was switched out, whatever ran between |
| SchedulerRuns.ResumeRestoresFlag | kernel/src/context/switch.rs:159 | so is its inside-system-call flag |
| SchedulerRuns.BypassIsBounded | kernel/src/context/switch.rs:98-131 | with no insertions an eligible context is chosen within as many switches as there are ids between the current one and it, going around |
| SchedulerRuns.SwitchKeepsStatuses | kernel/src/context/switch.rs:62-84 | a switch changes no status except unblocking the context it selects |
| SchedulerHistory.SpawnedRunsWithItsOwn | kernel/src/context/list.rs:125-193 | over every run: a processor that runs a spawned context has the top of the stack it was spawned with as task stack, and the page table of its address space if none was set since |
| SchedulerHistory.LastSpaceIsInUse | kernel/src/context/mod.rs:113-133 | over every run: a processor that runs a context has the page table of the address space last set for it |
| SchedulerHistory.KernelRootIff | kernel/src/context/mod.rs:113-133 | a processor is on the kernel's own page table if and only if the last step that wrote its page table base took an address space away |
| SchedulerHistory.SpacelessRunsOnAnother | kernel/src/context/switch.rs:284-306 | a run in which a context without an address space runs on another one's page table |
| SchedulerHistory.SpawnedContextRuns | kernel/src/context/switch.rs:89-306 | start, spawn, unblock and one switch: the processor has the stack, page table and registers the context was spawned with |
| SchedulerHistory.SpawnedStartsWithItsRegisters | kernel/src/context/list.rs:170-193 | the first time a spawned context is switched in, the processor gets the registers it was spawned with |
| SchedulerHistory.SpawnedStartsOutsideSyscall | kernel/src/context/switch.rs:159 | and is outside any system call |
| SchedulerHistory.ResumesWhereItStopped | kernel/src/context/switch.rs:216-283 | a context switched in again goes on with the registers its last instructions had left |
| SchedulerHistory.ResumesInItsSyscall | kernel/src/context/switch.rs:159 | and inside or outside a system call as before |
| SchedulerHistory.ExaminedIsChosenIff | kernel/src/context/switch.rs:62-84 | over every run: a context looked at is chosen if and only if no processor runs it, it is not bound to another, and the last step that set its status left it runnable, or soft-blocked with a signal |
| SchedulerProgress.NoSwitchDeadlock | kernel/src/context/switch.rs:89-306 | in every reachable state with a processor inside a switch, some processor inside a switch can take its next step: lock and guards never deadlock |
| SchedulerProgress.SwitchingIsBounded | kernel/src/context/switch.rs:89-306 | runs of switch steps alone are bounded by a measure of the state they start in |
| SchedulerProgress.SwitchesCanFinish | kernel/src/context/switch.rs:89-306 | from every reachable state the switches under way on all processors can be completed by their own steps |
| SwitchCode.ContextTable.UpgradeRunnable | kernel/src/context/switch.rs:62-84 | true exactly for eligible contexts; a soft-blocked one with a signal is unblocked, nothing else changes |
| SwitchCode.CandidatesAreInOrder | kernel/src/context/switch.rs:109-112 | the chained id ranges are the cyclic order of the scheduler's model |
| SwitchCode.ContextTable.Select | kernel/src/context/switch.rs:114-130 | the first eligible context of the order given, and none only if none is eligible |
| SwitchCode.ContextTable.SelectNext | kernel/src/context/switch.rs:109-130 | the least eligible id above the current one, or else the least one below it, and none only if no other context is eligible |
| SwitchCode.Core.SwitchInner | kernel/src/context/switch.rs:216-283 | the instruction sequence exchanges all eight registers through the two blocks and touches one stack word |
| Interrupts.PushesWork | kernel/src/interrupt_macro.rs:1-61 | pushing registers lays them out in order below the frame |
| Interrupts.RestoresMirrorSaves | kernel/src/interrupt_macro.rs:1-61 | every entry pops in exactly the reverse order it pushed; the error entry's last slot is where the error code was |
| Interrupts.PrologueSwaps | kernel/src/interrupt_macro.rs:63-89 | after the entry's test the control region is the GS base exactly if it should be |
| Interrupts.ParanoidCheck | kernel/src/interrupt_macro.rs:91-160 | the comparison finds out which base is in use, wherever the interrupt arrived, and remembers it in a preserved register |
| Interrupts.EpilogueReturns | kernel/src/interrupt_macro.rs:171-309 | the exit reloads the interrupted frame and undoes the swap |
| Interrupts.HandlerRestores | kernel/src/interrupt_macro.rs:171-309 | an entry of any kind around any body gives back every register, both GS bases, privilege level, flags and stack pointer, touches no live stack word of the kernel's, and from user mode no user word but those that are the kernel stack's |
| HandlerCalls.HandlerIsCalledWith | kernel/src/interrupt_macro.rs:171-309 | for every kind of entry and state: the Rust function is called with the control region as GS base, RDI the stack pointer and RSI the error code where they are passed, the interrupted registers and frame at the stack pointer in the order of `InterruptStack`, on the task's stack from user mode |
| InterruptNesting.OpKeepsSound | kernel/src/interrupt_macro.rs:63-160 | every operation of a good program keeps the control region one of the two GS bases, and the hidden one in user mode |
| InterruptNesting.HandlerIsGood | kernel/src/interrupt_macro.rs:171-309 | every handler body runs with the control region as GS base, and the handler returns to user mode only with the bases right for it |
| InterruptNesting.InterruptsAreTransparent | kernel/src/interrupt_macro.rs:63-309 | a program with interrupts of all kinds nested anywhere and to any depth, only paranoid ones while the kernel has the user's GS base, ends as the same program without them in registers, bases and every live word, user words in the mapped kernel stack excepted, and every body on the way had the right GS base |
| SystemCalls.ExitLoadsFrame | kernel/src/syscall.rs:186-233 | the exit path, fast or slow, loads all registers of the frame but the two the return instruction uses, the user's stack, and swaps the GS bases |
| SystemCalls.SysCallReturns | kernel/src/syscall.rs:166-233 | a system call changes the result register and the two the instruction itself uses, and nothing else of the caller's machine but user words that are the kernel stack's |
| HandlerCalls.SysCallIsCalledWith | kernel/src/syscall.rs:166-184 | the system call function is called with RDI the stack pointer, at which are the caller's registers and frame in the same order, on the task's stack |
| SystemCalls.CanonicalReturns | kernel/src/syscall.rs:211-216 | sign extension leaves a return address alone if and only if it is canonical |
| UserPrograms.SysCallIsGood | kernel/src/syscall.rs:166-233 | the system call function runs with the control region as GS base, and every return goes to a live stack |
| UserPrograms.UserProgramsAreUndisturbed | kernel/src/syscall.rs:166-233 | from any user state, a program with system calls, interrupted anywhere under the same placement alone, ends as if undisturbed, in user mode with the user's GS base: registers, pointers and bases always, live user words outside the mapped kernel stack, and thus all live words if none is in it |
| UserPrograms.FirstEntryIsUser | kernel/src/context/list.rs:170-191 | a new context that falls through to the exit path starts in user mode, at the stack pointer of its frame, with interrupts enabled and zeroed registers |
| SharedStack.LiveWordsSurviveIff | kernel/src/context/list.rs:143-161 | the user's live words survive every system call and every interrupt if and only if none of them lies in the mapped kernel stack |
| SharedStack.FirstEntryIsSpawned | kernel/src/context/list.rs:143-179 | a new context's user starts on the last word of its own kernel stack, so its live words do not all survive |
| SharedStack.FirstPushIsLost | kernel/src/context/list.rs:143-179 | from there, after one push and one system call the word pushed has become the saved stack pointer |
| SharedStack.FrameStays | kernel/src/syscall.rs:166-185 | after a system call the twenty words of its frame are at the top of the kernel stack |
| ApStartup.StepKeepsInv | kernel/src/acpi/ap_startup.rs:27-90 | every step of the boot processor or of a starting one keeps mailbox, stacks, phases and order |
| ApStartup.OneProcessorStarts | kernel/src/acpi/ap_startup.rs:64-83 | in every interleaving at most one processor is between its start command and the ready flag, and it is the one being waited for |
| ApStartup.EachReadsItsOwn | kernel/src/asm/trampoline.asm:80-87 | every processor that gets ready has read exactly the id, stack, entry point and page table written for it |
| ApStartup.PageTableMustBeLow | kernel/src/asm/trampoline.asm:31-69 | in every reachable state a processor turns paging on with the kernel's page table if and only if that is below four gigabytes; otherwise it goes astray, and no processor ever gets ready |
| ApStartup.HighTableStrands | kernel/src/asm/trampoline.asm:31-69 | with the table at four gigabytes fourteen steps lead to where the processor has gone astray and the boot processor waits forever |
| ApStartup.StacksAreDisjoint | kernel/src/acpi/ap_startup.rs:36-41 | the stacks of all processors are disjoint from each other, from every block processors allocate meanwhile, and from reserved memory |
| ApStartup.EachHasItsOwnMemory | kernel/src/acpi/ap_startup.rs:36-41 | every processor that got ready has its own stack of 64 pages, control region and interrupt stack of 16, in this order, and when all are started nothing else was allocated |
| ApStartup.FinishedMeansAllStarted | kernel/src/acpi/ap_startup.rs:27-90 | at the end every table entry but the boot processor's has been started once, in order, got ready and is counted |
| ApStartup.RunsAreBounded | kernel/src/acpi/ap_startup.rs:74-83 | every step, whoever takes it, brings the end nearer: no run goes on forever |
| ApStartup.StuckMeansOver | kernel/src/acpi/ap_startup.rs:74-83 | a run that cannot go on is finished, has passed the end of memory, waits for a processor that does not exist, or waits for one gone astray because the page table is above four gigabytes |
| PageSlots.TrackedMapper.constructor | bootloader-efi/src/mem/tracked_mapper.rs:20-28 | all entries free, hints at both ends |
| PageSlots.TrackedMapper.MarkAsUsed | bootloader-efi/src/mem/tracked_mapper.rs:33-64 | a free entry becomes used and the hint it was moves to its neighbour; a used one is refused |
| PageSlots.TrackedMapper.MarkAsUnused | bootloader-efi/src/mem/tracked_mapper.rs:68-81 | the entry becomes free and one hint is widened |
| PageSlots.TrackedMapper.MarkRangeAsUsed | bootloader-efi/src/mem/tracked_mapper.rs:85-106 | all entries of an address range become used; refused exactly if none was free |
| PageSlots.AddressesAreTaken | bootloader-efi/src/mem/tracked_mapper.rs:85-106 | the entries marked for a range of addresses are exactly those with an address in it |
| PageSlots.TrackedMapper.FindFreeSpaceAndMark | bootloader-efi/src/mem/tracked_mapper.rs:122-167 | the search in place finds and marks what the specification says, with its sixteen-bit comparison and wrapping sums, and never indexes out of the table |
| PageSlots.HintsStayExact | bootloader-efi/src/mem/tracked_mapper.rs:33-167 | over every run that never fills the table the hints are exactly the least and the greatest free entry |
| PageSlots.FillingLosesTheHint | bootloader-efi/src/mem/tracked_mapper.rs:43-80 | after filling the table, freeing an entry makes the hints right only for the one taken last, and an entry above it is not found |
| PageSlots.FindIsSound | bootloader-efi/src/mem/tracked_mapper.rs:122-167 | with any hints, what is found was all free, is all used, is of the required length, and nothing else changed |
| PageSlots.FoundSpans | bootloader-efi/src/mem/tracked_mapper.rs:109-125 | the entries found span at least the bytes asked for and less than one entry more |
| PageSlots.OneEntryIsFound | bootloader-efi/src/mem/tracked_mapper.rs:134-137 | a single entry is always found, the least or the greatest free one |
| PageSlots.SearchIsNearest | bootloader-efi/src/mem/tracked_mapper.rs:139-164 | no place the search passes over would have done |
| PageSlots.SpanIsFoundIff | bootloader-efi/src/mem/tracked_mapper.rs:139-166 | several entries are found if and only if the free entry the search starts from is far enough from both ends and a free span lies beyond it within reach, from the front or from the end |
| PageSlots.EmptyTableRefusesSpans | bootloader-efi/src/mem/tracked_mapper.rs:140 | an empty table has no room for two entries, from either end |
| BootSlots.BootSlotsAgree | bootloader-efi/src/mem/runtime_map.rs:15-25 | the slots 511 down to 507 are the expected ones if and only if there is a framebuffer and kernel, bootstrap and framebuffer are nonempty and fit a slot |
| BootSlots.BootWithoutFramebuffer | bootloader-efi/src/mem/runtime_map.rs:15-25 | images that fit, but no framebuffer, and a slot is not the expected one; with a framebuffer all are |
| UserSpace.PiecesAreExact | kernel/src/mem/user_addr_space.rs:259-281 | the walk succeeds exactly if every byte is mapped, and then gives the translation of every byte, in pieces inside single frames whose lengths add up |
| UserSpace.ShortPieceIsRightIff | kernel/src/mem/user_addr_space.rs:249-257 | the single piece for a short buffer is right if and only if it stays in its page or the next page is the next frame |
| UserSpace.ShortPieceIsWrong | kernel/src/mem/user_addr_space.rs:249-257 | two bytes across two pages that are frames 0 and 5 come back as one piece, which is not their translation |
| UserFrames.AllocAccounts | kernel/src/mem/user_addr_space.rs:154-245 | allocation keeps every frame obtained owned exactly once, those for page tables included |
| UserBuffers.AllocKeepsBuffers | kernel/src/mem/user_addr_space.rs:154-245 | allocation never meets a mapped page, keeps all buffers where they are, and large buffers apart |
| UserBuffers.BuffersResolve | kernel/src/mem/user_addr_space.rs:154-282 | after any allocations in a new space every buffer resolves to exactly its own bytes, and large buffers share no page with any other |
| UserBacking.PagesHaveTheirOwnFrames | kernel/src/mem/user_addr_space.rs:140-247 | with frames never handed out twice, after any allocations no two pages share a frame and none is a page table's |
| UserBacking.LargeBuffersHaveTheirOwnMemory | kernel/src/mem/user_addr_space.rs:226-239 | a large buffer shares no byte of physical memory with any other buffer |
| UserBacking.LargeTakesLeastPages | kernel/src/mem/user_addr_space.rs:226-239 | a large buffer gets the least number of pages that hold it, new ones from the first free page on |
| UserBacking.TablesAreThoseNeeded | kernel/src/mem/user_addr_space.rs:140-247 | the page tables are exactly those on the way to the mapped pages, with one frame for each |
| UserBuffers.DropReleasesEachOnce | kernel/src/mem/user_addr_space.rs:386-405 | dropping the space releases exactly the frames it obtained, each once |
| ShortBuffers.ShortBuffersOverlapIff | kernel/src/mem/user_addr_space.rs:155-220 | from the sizes asked for alone: two nonempty short buffers of a new space overlap if and only if they are of one size class and no request of it after the first, up to the second, needs a new page |
| UserBuffers.SamePageIff | kernel/src/mem/user_addr_space.rs:181-188 | short buffers start at their page's start, so nonempty ones overlap exactly within a page |
| UserBuffers.SecondSmallBufferOverlaps | kernel/src/mem/user_addr_space.rs:181-188 | the first two small buffers of every space overlap |
| UserAddressSpace.UserAddrSpace.constructor | kernel/src/mem/user_addr_space.rs:88-140 | a new space with its first two pages mapped, accounted for, and no buffer |
| UserAddressSpace.UserAddrSpace.AllocateTable | kernel/src/mem/user_addr_space.rs:366-384 | a missing table's frame is obtained and remembered, an existing one costs nothing |
| UserAddressSpace.UserAddrSpace.NextPageUnused | kernel/src/mem/user_addr_space.rs:303-312 | the first unmapped page from the count on, with everything passed mapped |
| UserAddressSpace.UserAddrSpace.Alloc | kernel/src/mem/user_addr_space.rs:154-245 | the three size classes in place do what the specification says |
| UserAddressSpace.UserAddrSpace.Resolve | kernel/src/mem/user_addr_space.rs:248-282 | the accumulating loop gives the specified pieces or the fault |
| UserAddressSpace.UserAddrSpace.AllocAndResolve | kernel/src/mem/user_addr_space.rs:284-288 | the lengths of the pieces always add up to the source's length |
| UserAddressSpace.UserAddrSpace.Drop | kernel/src/mem/user_addr_space.rs:386-405 | the four lists and the root are released in order |
| IoApic.EntryRoundTrip | kernel/src/acpi/io_apic.rs:154-167 | decoding an encoded entry gives back every field |
| IoApic.SplitAndJoin | kernel/src/acpi/io_apic.rs:57-72 | writing an entry as two words and reading it back loses nothing |
| IoApic.MaskingKeepsTheRest | kernel/src/acpi/io_apic.rs:103-111 | masking changes the mask field and no other |
| IoApic.GlobalClashIff | kernel/src/acpi/io_apic.rs:237-253 | two legacy interrupts get the same global interrupt if and only if both are overridden to it |
| IoApic.RouteIff | kernel/src/acpi/io_apic.rs:211-265 | a legacy interrupt gets an entry if and only if it is overridden, or no usable override has its number, and some I/O APIC's range has its global interrupt; the entry is then counted from the start of the first such range |
| IoApic.RoutingIsInjectiveIff | kernel/src/acpi/io_apic.rs:237-265 | no redirection entry is meant for two legacy interrupts if and only if no two are overridden to one served global interrupt |
| IoApic.DistinctGsisSuffice | kernel/src/acpi/io_apic.rs:211-253 | overrides with pairwise distinct global interrupts never share |
| IoApic.RouteClashIff | kernel/src/acpi/io_apic.rs:237-265 | two legacy interrupts get the same existing entry if and only if both are overridden to one global interrupt that some I/O APIC serves |
| IoApic.EntriesSayWhatWasChosenIff | kernel/src/acpi/io_apic.rs:237-287 | after programming all sixteen, every routed interrupt's entry decodes to its own vector, destination, polarity and trigger if and only if there is no sharing |
| IoApic.EntryMatchesFirmware | kernel/src/acpi/io_apic.rs:211-287 | the entry of the last interrupt sent to it: active low and level triggered exactly as the flags of the interrupt's first usable override say, edge and active high without one, unmasked, to the boot processor, vector 32 plus the number |
| IoApic.EntriesFollowFirmware | kernel/src/acpi/io_apic.rs:211-287 | every entry after programming, from the firmware's list and the ranges alone: it says what the last interrupt sent there should, vector 32 plus its number, and is as before if none is |
| IoApic.EntryIsTheLastOnes | kernel/src/acpi/io_apic.rs:237-287 | an entry decodes to a routed interrupt's own settings if and only if no later interrupt gets the same entry: of those that share, the last one has it |
| IoApic.SharedEntry | kernel/src/acpi/io_apic.rs:237-287 | interrupts 0 and 1 overridden to 2 are both routed to entry 2, which ends up as interrupt 1's |
| IoApic.HighestEntryIsLeftOut | kernel/src/acpi/io_apic.rs:255-257 | the last entry of an I/O APIC is never programmed |
| IoApicDevice.IoApicRegs.WriteEntry | kernel/src/acpi/io_apic.rs:64-72 | through selector and window exactly one entry changes |
| IoApicDevice.IoApicRegs.SetMask | kernel/src/acpi/io_apic.rs:103-111 | the mask of the entry at the low byte of the difference changes, no other entry does; stops exactly if that is beyond the table |
| IoApicDevice.ParseOverrides | kernel/src/acpi/io_apic.rs:211-233 | the overrides with defined polarity and trigger, in order |
| IoApicDevice.FindRoute | kernel/src/acpi/io_apic.rs:238-265 | the searches over overrides and I/O APICs find the entry that `IoApic.RouteIff` describes, or none |
| IoApicDevice.SetupIoApic | kernel/src/acpi/io_apic.rs:193-288 | from the firmware's list and the ranges alone: afterwards every entry says what the last interrupt sent there should, all others on all devices are as before; stops exactly if an interrupt would be sent beyond a table |
| ContextIds.AllocKeepsPartition | kernel/src/context/list.rs:70-87 | the id handed out is above the initial one and was not live |
| ContextIds.DeallocKeepsPartitionIff | kernel/src/context/list.rs:52-68 | giving back an id keeps live and recycled ids a partition if and only if it has been handed out; a second return reports zero |
| ContextIds.IdsAreConserved | kernel/src/context/list.rs:43-88 | over every run that gives back live ids only, live and recycled ids are exactly those above the initial one up to the counter, without duplicates |
| ContextIds.IdsComeInOrder | kernel/src/context/list.rs:43-88 | over every such run, from the steps alone: each id handed out is the oldest one given back and not handed out again, or else the first one never handed out |
| ContextIds.UnallocatedIdsComeTwice | kernel/src/context/list.rs:230-253 | giving back an id never handed out makes it live twice |
| ContextIds.ContextIdAllocator.AllocId | kernel/src/context/list.rs:70-87 | recycled ids first, oldest first, then the counter |
| ContextIds.ContextIdAllocator.DeallocId | kernel/src/context/list.rs:52-68 | the queue grows by the id unless it holds it |
| ContextIds.ContextStorage.InsertContext | kernel/src/context/list.rs:107-115 | a duplicate is reported, but has replaced the context by then |
| ContextIds.ContextStorage.InitContext | kernel/src/context/mod.rs:221-239 | idle contexts below the initial id disturb no allocated one |
| ContextIds.ContextStorage.NewContext | kernel/src/context/list.rs:121-123 | a new context never meets a duplicate |

## Left out

- UEFI services, file loading, disk image building, loggers, framebuffer text, serial and keyboard drivers: input and output without a deep property.
- GDT and IDT contents, MSR and port access, local APIC registers: hardware effects.
- Page table internals: a page table is a map from pages to frames with flags; only the frames for missing tables are modelled, in user address spaces.
- Memory ordering: steps of several processors interleave as if sequentially consistent.
- `spin_loop` waiting: a wait is a step that is not enabled until its condition holds.
- Interrupts.HandlerRestores: stacks are counted in eight-byte words, and a handler body is any work that returns as the System V ABI says; a context switch inside a body is covered by the scheduler model instead.
- InterruptNesting.InterruptsAreTransparent: assumes, as the source does, that only paranoid entries arrive while the kernel runs with the user's GS base. User memory below the stack pointer counts as dead, although the System V ABI gives programs a red zone there: a non-maskable or debug entry before line 170 of kernel/src/syscall.rs runs on the user's stack and overwrites it.
- PageEnumeration.EnumerationIsExact: for non-empty ranges, as every entry the bootloader records is; the same holds of what rests on it in `Handoff` and `MemoryLimit`.
- SystemCalls.SysCallReturns: the system call function itself is any work; its arguments are not interpreted. User words that the kernel stack is mapped at do not survive; `SharedStack.LiveWordsSurviveIff` says exactly when that matters.
- SchedulerRuns.ResumeRestoresRegisters: leaves out the FS and GS bases, of which only the low halves are saved (kernel/src/context/switch.rs:173, 181).
- Scheduler.StepKeepsInv: contexts are created and change status, but are not removed.
- KernelFrames.LinearIncFrameAllocator.AllocateFrames: requires the sums to fit in 64 bits; `frame_dealloc` is a no-op in the source and has no counterpart.
- ApStartup.PageTableMustBeLow: what a processor does under another page table is not followed; it takes no further step.
- ApStartup.EachReadsItsOwn: the INIT and START commands reach the processor addressed; the encoding of the command register is not modelled.
- PageSlots.TrackedMapper.MarkAsUsed: excludes index 512, which passes the source's bound and then faults; the methods never pass it themselves.
- PageSlots.TrackedMapper.FindFreeSpaceAndMark: sums wrap as in a release build; a debug build stops instead.
- BootSlots.BootSlotsAgree: sizes are below the 64-bit limit by at least one slot, as lengths of slices are.
- ElfLoad.ImageLoader.Load: the entry point and the thread-local template are only passed on and not modelled.
- UserAddressSpace.UserAddrSpace.Alloc: running out of frames, which stops the kernel, is not modelled.
- UserAddressSpace.UserAddrSpace.AllocAndResolve: the copy loop behind the length assertion is unfinished in the source and not modelled.
- UserBuffers.DropReleasesEachOnce: for spaces that only allocate; `raw_map_to`, `raw_unmap` and `setup_kernel`, which replaces the top-level slot of the first pages, are not modelled.
- IoApicDevice.SetupIoApic: the I/O APICs' own ids are not compared with the firmware's table.
- ContextIds.ContextStorage.Remove: pairs removing a context with giving back its id, which the source leaves to its caller.
- ContextIds.ContextStorage.NewContext: the spin lock around the allocator is an atomic step; the initial stack of a new context is modelled in `UserPrograms` and `SharedStack`, up to its user frame.
- `KError` multiplexing, the file system stub, inter-processor interrupts: unfinished in the source, or nothing hard to state.
