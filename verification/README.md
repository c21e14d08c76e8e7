# HorizonOS verification

A Dafny model of the hard parts of the HorizonOS kernel, with proofs over every input, every
run and every reachable state. Each `.dfy` file holds one module.

| part | modules |
|---|---|
| x86_64 paging: four-level tables of 64-bit words, huge-page splitting, map, unmap, ranges, stacks, PML4 copy | `Words`, `PageEntry`, `PageForest`, `PageWalk`, `PageOps`, `PageRuns`, `PageRange`, `PageBoot`, `PageTables` |
| the TLB beside it | `Tlb` |
| MLFQ scheduler, process table, fork, yield, exit, timer, spinlock, interrupt flag | `SchedMachine`, `SchedSafety`, `SchedTheorems`, `SchedFairness`, `Scheduler`, `SchedTurns` |
| fork's stack copy and the context switch, word by word | `Fork`, `Switch` |
| intrusive circular lists | `Lists` |
| the maze generator and solver | `MazeGraph`, `Maze` |
| i386 frame bitmap and identity map | `Frames`, `Paging386` |
| AC97 buffer ring against its DMA controller | `Ac97` |
| union-find | `UnionFind` |
| a value that may be missing | `Options` |

How the paging part is built. `Words` defines C's bit operators on natural numbers by their bits,
and `PageEntry` proves what every mask, shift and `|` in the source does to an entry, so that a
word decodes to a record of frame, rights and remaining attributes. `PageForest` is the reference:
a recursive hardware walk (`Walk`, `Translate`) and the invariant that the tables form a forest.
The walk of the source (`PageWalk.GetFrom`) creates and splits tables; the theorems compare
`Translate` before and after for an arbitrary page `q` in an arbitrary address space `r`.
`PageTables.Mmu` is the code itself, over words in a bump-allocated memory, with every method
proved equal to its function on decoded entries. A `Cert` gives each table its place (root, and
the slots that lead to it); it exists only for proofs.

How the scheduler part is built. `SchedMachine` gives the kernel code of each process as control
points between which it can be interrupted, with the saved interrupt flags in the control point;
`Step` is one atomic step of whoever is on the CPU, or the timer. `SchedSafety.Inv` is proved to
hold at boot and after every step. `Scheduler.Kernel` is the same code as methods on the kernel's
globals; `EnqueueSteps` and `ClaimSteps` prove that one call is what the machine does in its
steps. `SchedTurns` follows the code from one end of a call to the other: a pick to the CPU, yield,
exit and the timer to the scheduler, fork to its return in parent and child.

What the code does not promise, and the model therefore does not either:

- New page tables are made without the user bit, so a user mapping is usable from user mode only
  where all tables existed before and grant it (`PageOps.UserMappingVisible` gives the exact
  condition, `PageBoot.UserMappingHidden` a failing case).
- Splitting drops the PAT bit of the huge page (`PageEntry.PatKeptIff`, `PageEntry.PatLost`).
- `unmap_page` returns 0 both for "not mapped" and for frame 0 (`PageOps.UnmapZeroMeans`,
  `PageBoot.UnmapFrameZero`).
- `unmap_page` compares its argument with the masked cr3, so with cr3 passed as read it
  invalidates only if the low bits of cr3 are zero (`Tlb.UnmapReadCr3`,
  `PageBoot.DirtyCr3LeavesStale`).
- A comment in `process.c` (lines 229-230) says that a switch with old and new the same restores the
  stack pointer it saves. `ctx_switch` reads the pointer before `swtch` stores it, so the process
  goes back to where it last left (`Switch.SwitchToSelf`, `Switch.SelfSwitchFails`).
- A comment in `scheduler.c` (lines 60-62) says that the scheduler comes to the top of its loop with
  interrupts off every time. `forkret` and the end of `ctx_switch` have turned them on by then
  (`SchedTurns.SchedulerInterruptible`).
- The header of union-find calls rank an upper bound of a tree's height; line 64 of `ufds.c`
  raises the rank of the losing root (`UnionFind.RankIsNotHeight`, `UnionFind.RankBoundKept`). It
  calls size the size of a set, which the code does not keep (`UnionFind.SizeStartsWrong`,
  `UnionFind.SizeKept`).
- The frame allocator reads frame number 0 as "none" (`Frames.AllocAgrees`, `Frames.FrameZeroLeaks`).
- A clip that is not a whole number of stereo frames never lets the AC97 driver come to rest, and
  every other clip does (`Ac97.RestIff`, `Ac97.WholeClipStops`, `Ac97.SixByteClip`).
- In a one-cell maze the sink overwrites the source (`Maze.Board.GenerateThenSolve`).

## Model

| member | source | states |
|---|---|---|
| PageEntry.SplitWordDecodes | arch/x86_64/memory/paging.c:46-61 | the word stored for piece i of a split huge page decodes to that page's frame plus i pieces, same rights and attributes, PS cleared only at 4 KiB |
| PageEntry.PatKeptIff | arch/x86_64/memory/paging.c:43-46 | a piece selects the same PAT entry as the huge page exactly if the huge page's PAT bit (bit 12) was clear; all other attributes are kept |
| PageEntry.PatLost | arch/x86_64/memory/paging.c:43-46 | a 2 MiB page at address 0 with its PAT bit set splits into pieces without it |
| PageEntry.Compose | arch/x86_64/memory/paging.c:57-61 | OR-ing an aligned address with flags outside the frame field gives that frame and those flags, with no overlap |
| PageEntry.IndexIs | arch/x86_64/memory/paging.h:170-173 | the shift-and-mask table indices are the base-512 digits of the page number |
| PageEntry.AlignDown | arch/x86_64/memory/paging.c:48-50 | masking with ~(size - 1) rounds an address down to the 2 MiB or 1 GiB boundary |
| PageEntry.TestFlag | arch/x86_64/memory/paging.h:31-43 | `w & FLAG` is nonzero exactly if the decoded entry has the flag |
| PageEntry.EntryBits | arch/x86_64/memory/paging.h:31-52 | an entry decodes by arithmetic alone: present, write, user, PS and no-execute are bits 0, 1, 2, 7 and 63, the frame is bits 12 to 51 |
| PageEntry.SetFlag | arch/x86_64/memory/paging.c:186-194 | `w |= FLAG` sets that flag and changes nothing else of the decoded entry |
| PageEntry.InheritFlags | arch/x86_64/memory/paging.c:117-118 | OR-ing in the user and NX bits of a huge entry adds exactly those rights to the new table entry |
| PageTables.Pieces | arch/x86_64/memory/paging.c:42-62 | the 512-entry loop builds the table whose entry i is piece i of the huge page |
| PageWalk.SplitInvisible | arch/x86_64/memory/paging.c:42-64 | replacing a huge page by the table of its pieces changes no translation under it |
| PageWalk.DescendInvisible | arch/x86_64/memory/paging.c:84-153 | one level of the walk, whether it creates, splits or follows, changes the walk from no table for no page |
| PageWalk.GetFrom | arch/x86_64/memory/paging.c:73-161 | the walk from any table keeps the forest invariant, allocates at most one table per level, moves no existing table, and ends at a level-1 table |
| PageWalk.GetFromFails | arch/x86_64/memory/paging.c:84-161 | the walk returns nothing exactly if it may not create and meets an absent entry |
| PageWalk.GetFromFinds | arch/x86_64/memory/paging.c:73-161 | otherwise it returns the page table that the entries now lead to |
| PageWalk.GetFromIdle | arch/x86_64/memory/paging.c:73-161 | a walk over tables that are there changes neither tables nor allocator |
| PageWalk.GetFromInvisible | arch/x86_64/memory/paging.c:73-161 | create or not, with cascaded 1 GiB to 2 MiB to 4 KiB splits, every page translates as before from every table |
| PageWalk.GetFromKeepsTop | arch/x86_64/memory/paging.c:84-97 | in any PML4 the walk at most fills an absent slot, and only of the PML4 it starts from |
| PageOps.WalkingIsInvisible | arch/x86_64/memory/paging.c:73-161 | in every address space every page keeps frame, presence, effective rights and attributes, and all invariants hold |
| PageOps.MapPageExact | arch/x86_64/memory/paging.c:171-198 | afterwards the page resolves to the given frame with the meet of path and entry rights, in exactly the address spaces that share its slot; every other page is unchanged, also inside a former huge page |
| PageOps.UserMappingVisible | arch/x86_64/memory/paging.c:84-97 | a user mapping can be used from user mode if and only if every entry on the way was present and grants user access |
| PageOps.UpperAfterWalk | arch/x86_64/memory/paging.c:84-148 | the rights above the page table after a walk, tables created and huge pages split included, are a function of the path before it |
| PageOps.PathGrants | arch/x86_64/memory/paging.c:84-148 | by which write is granted exactly if every table entry met grants it, user exactly if every entry was present and grants it, and no-execute holds exactly if some entry met, a huge one included, has it |
| PageOps.MappedRights | arch/x86_64/memory/paging.c:171-198 | a plain mapping can be written exactly if the path allows and it was asked for, used by the user exactly if the path is open and it was not a kernel page, and is no-execute exactly if the path was |
| PageOps.MissingTableHidesUser | arch/x86_64/memory/paging.c:84-97 | a path along which a table had to be created is closed to user mode |
| PageOps.UnmapPageExact | arch/x86_64/memory/paging.c:244-264 | returns the address the page resolved to (0 if none) and removes that page only, even out of the middle of a 1 GiB page |
| PageOps.UnmapZeroMeans | arch/x86_64/memory/paging.c:244-264 | a result of 0 means "was not mapped" if and only if the page was not mapped to frame 0 |
| PageOps.OneParent | arch/x86_64/memory/paging.c:73-161 | two walks from one PML4 that reach the same table do so at the same level through the same entries |
| PageOps.SharedSlotAgrees | kernel/scheduler/process.c:278-285 | through a PML4 slot that two address spaces share, both translate every page alike |
| PageRuns.RunKeepsValid | arch/x86_64/memory/paging.c:57-141 | over every run of walks, splits, maps, unmaps, stack allocations and PML4 copies: tables keep one place each, lie off every stack and guard page, and stay reachable through the direct map of every address space |
| PageRuns.StepKeepsValid | arch/x86_64/memory/paging.c:57-141 | each single operation keeps that invariant |
| PageRuns.UnmapReachIff | arch/x86_64/memory/paging.c:244-264 | after any unmap every table can still be reached through the direct map if and only if the page was not the direct-map page of a frame still in use |
| PageRuns.HhdmIsDirectMap | mm/mm.c:19-25 | adding the HHDM offset gives distinct frames distinct virtual pages |
| PageRuns.PageOfInjective | arch/x86_64/memory/paging.h:170-173 | two page numbers select the same four indices if and only if they are equal modulo 2^36 |
| PageRuns.StackGuard | kernel/scheduler/process.c:33-62 | allocating a stack takes 33 frames from the returned address, unmaps the lowest of their pages, which was mapped at a nonzero frame, so the panic is not reached, and no other page changes |
| PageRuns.CopyForest | kernel/scheduler/process.c:278-285 | a PML4 copied into a fresh frame joins the forest with all invariants kept |
| PageRuns.CopyTranslates | kernel/scheduler/process.c:278-285 | the copy translates every page as the original does and changes no other address space |
| PageRuns.SharedSlotsStayInStep | kernel/scheduler/process.c:278-285 | after any run, whoever maps, unmaps or splits, pages under a slot that two roots share translate alike through both |
| PageRuns.AbsentSlotsBecomePrivate | kernel/scheduler/process.c:278-285 | a slot absent at copy time is private to the copy and to the original |
| PageRuns.PrivateSlotsStayPrivate | arch/x86_64/memory/paging.c:84-97 | no run of operations on other roots changes a translation through a private slot |
| PageRuns.CopyShares | kernel/scheduler/process.c:278-285 | after the copy a slot is shared if and only if it was present |
| PageRuns.PresentSlotStaysInStep | kernel/scheduler/process.c:278-285 | pages under a slot present when the PML4 was copied translate alike through both roots after every later run |
| PageRuns.AbsentSlotStaysApart | kernel/scheduler/process.c:278-285 | under a slot absent then, no operation through either root changes a translation of the other, after any run and even where both have filled it |
| PageBoot.BootValid | arch/x86_64/memory/paging.c:13-21 | a machine with one PML4 and one 1 GiB page in the direct map satisfies the invariant of all paging runs |
| PageBoot.BootTlbOk | arch/x86_64/memory/paging.c:13-21 | and with an empty TLB the invariant of the TLB runs |
| PageBoot.UserMappingHidden | arch/x86_64/memory/paging.c:84-97 | there, a user page mapped where no tables were resolves to its frame, but not for the user |
| PageBoot.UnmapFrameZero | arch/x86_64/memory/paging.c:244-264 | there, unmapping the direct-map page of frame 0 returns 0 although it was mapped |
| PageBoot.DirtyCr3LeavesStale | kernel/scheduler/process.c:54-59 | there, with the cache-control bits of cr3 set, unmapping a page just touched leaves its translation in the TLB |
| PageRange.FillPageExact | arch/x86_64/memory/paging.c:222-233 | one round of the range loop maps the page if it did not resolve and changes nothing else |
| PageRange.RangeKeepsHits | arch/x86_64/memory/paging.c:209-234 | no address that resolved before, or lies outside the range, changes |
| PageRange.RangeFills | arch/x86_64/memory/paging.c:209-234 | every page of the range ends with a present page table entry |
| PageRange.RangeResolves | arch/x86_64/memory/paging.c:209-234 | every frame of the range resolves at its direct-map page |
| PageRange.RangeRights | arch/x86_64/memory/paging.c:209-234 | filling a range changes the rights of the path to no page |
| PageRange.RangeMaps | arch/x86_64/memory/paging.c:209-234 | a page of the range that faulted before gets its frame with exactly the rights asked for, as far as the path before the call allows |
| PageRange.RangeKeepsDirectMap | mm/mm.c:19-25 | the invariant that mapped direct-map addresses resolve to the address minus the offset is kept |
| PageRange.RangeIsCode | arch/x86_64/memory/paging.c:209-234 | the loop with its proof certificate is the loop as code alone |
| PageRange.RangeTwice | arch/x86_64/memory/paging.c:209-234 | a second call changes no table word and allocates nothing, whatever rights it asks for and however little heap is left |
| Tlb.LookupCovers | arch/x86_64/memory/paging.h:185-241 | what the TLB may cache after a walk covers the page that was walked and agrees with the walk on every page it covers |
| Tlb.FlushAllEmpties | arch/x86_64/memory/paging.h:231-241 | either branch empties a coherent TLB: without PGE no cached entry is global, so reloading cr3 is enough |
| Tlb.SplitsExactly | arch/x86_64/memory/paging.c:113-153 | a walk splits exactly if it finds neither a page table nor an absent entry |
| Tlb.LiveWalkCoherent | arch/x86_64/memory/paging.c:113-153 | a walk of the live PML4 keeps the TLB coherent, whether or not its argument is cr3 bit for bit and so flushes |
| Tlb.SplitFlushes | arch/x86_64/memory/paging.c:119-122 | after a walk given cr3 itself that split a huge page no translation at all is cached; any other walk drops none |
| Tlb.LiveMapCoherent | arch/x86_64/memory/paging.c:171-198 | mapping on the live PML4 keeps it coherent, whatever is cached before and during |
| Tlb.LiveUnmapCoherent | arch/x86_64/memory/paging.c:244-264 | so does unmapping, if the argument is the masked cr3 |
| Tlb.UnmapCoherentIff | arch/x86_64/memory/paging.c:257-261 | for any argument that names the live PML4, the TLB is coherent after unmapping a cached page if and only if the argument was the masked cr3 |
| Tlb.UnmapReadCr3 | kernel/scheduler/process.c:54-59 | with cr3 passed as read, that is so if and only if the bits of the cr3 word outside its address are zero |
| Tlb.RunStaysCoherent | arch/x86_64/memory/paging.c:113-261 | over every run on a page-aligned cr3 each cached entry agrees with the tables for every page it covers, whatever the hardware caches between steps |
| PageTables.Mmu.KmallocA | mm/kheap.c:9-18 | the next page-aligned address; the placement pointer moves past the block |
| PageTables.Mmu.Kmalloc | mm/kheap.c:35-39 | the placement address, moved past the block |
| PageTables.Mmu.SplitHugeEntry | arch/x86_64/memory/paging.c:42-64 | puts the table of pieces into a fresh frame and returns its physical address |
| PageTables.Mmu.NewTable | mm/kheap.c:41-46 | puts a zeroed table into a fresh frame |
| PageTables.Mmu.FlushTlbAll | arch/x86_64/memory/paging.h:231-241 | leaves what FlushAll leaves |
| PageTables.Mmu.InvalidatePage | arch/x86_64/memory/paging.h:185-187 | drops every entry that covers the page |
| PageTables.Mmu.CreateChild | arch/x86_64/memory/paging.c:85-93 | hangs a zeroed present, writable table under an absent entry |
| PageTables.Mmu.SplitChild | arch/x86_64/memory/paging.c:113-123 | replaces a huge entry by its table of pieces, keeping user and NX |
| PageTables.Mmu.StepDown | arch/x86_64/memory/paging.c:84-153 | one level of the walk on words is one Descend on entries, with a TLB flush exactly after a split on the live root |
| PageTables.Mmu.NextTable | arch/x86_64/memory/paging.c:84-153 | so the walk equals its first level followed by the walk from the next table |
| PageTables.Mmu.GetPageEntry | arch/x86_64/memory/paging.c:73-161 | the code on words is GetFrom on entries; the TLB is flushed exactly if a huge page was split and the argument is cr3; on the live PML4 it is the walk step of the TLB runs and keeps coherence |
| PageTables.Mmu.WriteEntry | arch/x86_64/memory/paging.c:255-255 | one word written is one decoded entry replaced |
| PageTables.Mmu.WritePte | arch/x86_64/memory/paging.c:185-194 | the entry written flag by flag is the plain mapping; MapMeans and EntryBits say what that means |
| PageTables.Mmu.MapPage | arch/x86_64/memory/paging.c:171-198 | afterwards the page of the virtual address resolves to the frame of the physical one (below 2^52), writable exactly if the path allows and `writeable`, for the user exactly if the path was open and not `iskernel`, no-execute exactly if the path was; one invlpg; it is PageOps.MapPage, so no other page changes; on the live PML4 it is the map step of the TLB runs and keeps coherence |
| PageTables.Mmu.UnmapPage | arch/x86_64/memory/paging.c:244-264 | is PageOps.UnmapPage, with an invlpg exactly if something was unmapped and the argument equals the masked cr3; on the live PML4 it is the unmap step of the TLB runs, and keeps coherence if the argument is the masked cr3 |
| PageTables.Mmu.FillOne | arch/x86_64/memory/paging.c:222-233 | one round of the range loop is one step of FillRange |
| PageTables.Mmu.MapPhysicalRange | arch/x86_64/memory/paging.c:209-234 | every byte of the range resolves at its HHDM address afterwards: as before if it did before, else to its own frame with the rights asked for as far as the path allows; the rounded loop is FillRange over the pages of the range, and keeps a coherent TLB coherent |
| PageTables.Mmu.AllocStack | kernel/scheduler/process.c:33-62 | is PageRuns.AllocStack: stack and descriptor reserved, guard page unmapped; says what the TLB holds then, coherent if cr3 is page-aligned |
| PageTables.Mmu.CopyPml4 | kernel/scheduler/process.c:278-285 | puts a copy of the live PML4 into a fresh frame, sharing its present slots |
| PageTables.RangeKeepsCoherent | arch/x86_64/memory/paging.c:209-234 | filling a range leaves every cached translation right, in every address space |
| PageTables.MapMeans | arch/x86_64/memory/paging.c:171-198 | what the plain mapping of a physical address is, in terms of the two arguments and the path alone |
| PageTables.RangeMeans | arch/x86_64/memory/paging.c:209-234 | the same for a byte of a filled range |
| PageTables.ByteInRange | arch/x86_64/memory/paging.c:212-213 | rounding the start down and the end up leaves out no byte of the range |
| PageTables.RangeIsTight | arch/x86_64/memory/paging.c:212-213 | and takes in no page that starts at or past its end |
| SchedSafety.BootInv | kernel/scheduler/process.c:268-302 | the state init_process() leaves satisfies the scheduler invariant |
| SchedSafety.StepKeepsInv | kernel/scheduler/scheduler.c:30-127 | every step of any process, and every timer tick, keeps it |
| SchedSafety.RunKeepsInv | kernel/scheduler/scheduler.c:30-127 | so does every run |
| SchedTheorems.EveryRun | kernel/scheduler/scheduler.c:30-127 | every state of every run from boot, ticks before init hands over included, satisfies the invariant, and no run panics in which forks name an existing level and a slot is left for the scheduler process |
| SchedTheorems.LiveProcessHasOnePlace | kernel/scheduler/scheduler.c:58-112 | a live process other than the scheduler is on exactly one level exactly once, or is the single claimed process, or a child on its way to its first queue |
| SchedTheorems.NeverQueued | kernel/scheduler/process.c:144-151 | zombies, unused slots and the scheduler process are on no queue |
| SchedTheorems.RunningIsClaimed | kernel/scheduler/scheduler.c:94-110 | once booted, whoever else is on the CPU is the claimed process and on no queue |
| SchedTheorems.PidsAreDistinct | kernel/scheduler/process.c:311-395 | every used slot's pid is its index, so pids are distinct |
| SchedTheorems.ChildPidIsNonzero | kernel/scheduler/process.c:465-498 | a child never gets pid 0, so 0 is returned in the child alone |
| SchedTheorems.LockDiscipline | kernel/scheduler/scheduler.c:38-45 | while the queue lock is held interrupts are off and no tick can happen; whoever is about to take the lock finds it free |
| SchedTheorems.EnqueuePanics | kernel/scheduler/scheduler.c:30-36 | enqueueing panics exactly for a level out of range |
| SchedTheorems.LeavingSavesFlag | arch/x86_64/switch.c:12-24 | whoever leaves the CPU has its interrupt flag saved, in the switch frame or the interrupt frame |
| SchedTheorems.OthersStay | arch/x86_64/switch.c:12-24 | no step changes the control point of a process that is not running |
| SchedTheorems.ResumeRestores | arch/x86_64/switch.c:12-24 | the only step out of a context switch restores exactly the saved flag |
| SchedTheorems.IretRestores | kernel/time.c:32-39 | returning from the timer interrupt turns interrupts back on |
| SchedTheorems.FlagComesBack | arch/x86_64/irqflags.c:18-29 | whatever runs in between, a process that switched out with flag b has flag b at the moment it returns |
| SchedFairness.StepBalance | kernel/scheduler/scheduler.c:74-110 | each step changes the turns ahead of a waiting entry by exactly what it spends (picks, deaths) and gains (forks) |
| SchedFairness.RunBalance | kernel/scheduler/scheduler.c:74-110 | the account balances over every run in which the entry is not picked |
| SchedFairness.BoundedWaiting | kernel/scheduler/scheduler.c:49-110 | an entry at level L, position k is picked after at most k plus L - level(q) for everyone above it, plus L - f for every later fork at a level f above it |
| SchedFairness.NothingAheadIsNext | kernel/scheduler/scheduler.c:74-89 | with nothing ahead, the entry is the next one picked |
| SchedFairness.RingStep | kernel/scheduler/scheduler.c:74-110 | with everybody at the bottom a pick rotates the ring of processes and no other step changes it |
| SchedFairness.RoundRobin | kernel/scheduler/scheduler.c:49-110 | from then on, while nobody is born or dies, turn j goes to entry j modulo the ring |
| SchedFairness.StepLevel | kernel/scheduler/scheduler.c:49-55 | no step moves a process to a higher priority |
| SchedFairness.LevelsNeverDecrease | kernel/scheduler/scheduler.c:49-55 | over every run a process stays on some level, at or below the one it was on, until it is a zombie the scheduler has let go of; such a zombie never gets a level again |
| Scheduler.Kernel.constructor | kernel/scheduler/scheduler.c:16-26 | empty levels and a free lock |
| Scheduler.Kernel.IrqSave | arch/x86_64/irqflags.c:18-23 | returns the flag and clears it |
| Scheduler.Kernel.IrqRestore | arch/x86_64/irqflags.c:25-29 | can only turn interrupts on |
| Scheduler.Kernel.TestAndSet | kernel/scheduler/lock.c:13-21 | one round of the spin loop: returns what the flag was and leaves it set |
| Scheduler.Kernel.Spinlock | kernel/scheduler/lock.c:13-21 | takes a free lock |
| Scheduler.Kernel.Release | kernel/scheduler/lock.c:23-25 | frees the lock |
| Scheduler.Kernel.SchedEnqueue | kernel/scheduler/scheduler.c:30-46 | appends to the level, lock and interrupt flag as before; a level out of range panics and changes no queue |
| Scheduler.Kernel.ClaimNext | kernel/scheduler/scheduler.c:70-92 | takes the oldest entry of the first non-empty level, or nothing if all are empty |
| Scheduler.Kernel.AllocSlot | kernel/scheduler/process.c:311-352 | claims the first unused slot with the next pid, or nothing if the table is full |
| Scheduler.EnqueueSteps | kernel/scheduler/scheduler.c:30-46 | the five preemptible steps of an enqueue amount to the one call: entry at the tail, lock free, and the flag as on entry, so a nested restore re-enables nothing |
| Scheduler.ClaimSteps | kernel/scheduler/scheduler.c:70-92 | the steps from irq_save to irq_restore amount to the one claim |
| Scheduler.DemoteRange | kernel/scheduler/scheduler.c:49-55 | demotion stays in range and is the identity on the bottom level only |
| SchedTurns.ClaimLaunches | kernel/scheduler/scheduler.c:91-101 | four forced steps after a claim the claimed process has the CPU and is RUNNING, with no queue changed |
| SchedTurns.PickedRuns | kernel/scheduler/scheduler.c:74-101 | in every run, five events after a pick the picked process has the CPU, and nobody else is picked before |
| SchedTurns.BetweenPicks | kernel/scheduler/scheduler.c:74-101 | so between two picks of a run the process picked first has had the CPU: a pick is a turn |
| SchedTurns.BackRequeues | kernel/scheduler/scheduler.c:103-110 | a process that hands the CPU back goes to the end of the next level down, or is let go of if it has died; nothing else changes |
| SchedTurns.SchedulerInterruptible | kernel/scheduler/scheduler.c:58-110 | the scheduler has interrupts on exactly outside its and sched_enqueue()'s irq_save/irq_restore sections; at the top of its loop they always are |
| SchedTurns.YieldHandsOver | kernel/scheduler/scheduler.c:116-127 | yield() leaves the caller READY, to go on in its own code with the flag it has now, and the scheduler on the CPU |
| SchedTurns.ExitHandsOver | kernel/scheduler/process.c:144-151 | exit_process() leaves a ZOMBIE and the scheduler on the CPU |
| SchedTurns.DeadOnlyLeaves | kernel/scheduler/process.c:144-151 | a zombie is on the CPU exactly on its way out; nobody returns into exit_process(), so its panic is not reached |
| SchedTurns.DeadNeverRuns | kernel/scheduler/scheduler.c:103-108 | a zombie the scheduler has let go of never has the CPU again |
| SchedTurns.TickHandsOver | kernel/time.c:32-39 | a tick gives the CPU to the scheduler and leaves a frame that goes on exactly where the process was, with interrupts on |
| SchedTurns.FirstRunEnables | kernel/scheduler/process.c:126-138 | a new process starts with interrupts on, at its entry point |
| SchedTurns.ForkReturns | kernel/scheduler/process.c:465-498 | six forced steps after fork() began the parent is in its own code with the interrupt flag it had, and all that changed is one READY child with the next pid at the end of its level; with a full table nothing changes |
| SchedTurns.ForkIsAtomic | kernel/scheduler/process.c:465-498 | nothing but fork()'s own steps can happen until it returns |
| SchedTurns.ChildStarts | kernel/scheduler/process.c:486-491 | the child's first step gives it the flag its parent had |
| SchedTurns.ChildFlagComesBack | kernel/scheduler/process.c:486-491 | whatever runs in between, a child forked with flag b comes out of fork() with b |
| SchedTurns.BootPlaces | kernel/scheduler/process.c:268-302 | at boot init runs, alone, queued once, on the lowest level |
| SchedTurns.StartInstalls | kernel/scheduler/process.c:229-239 | starting the scheduler adds one READY process on no queue and installs it |
| Fork.Memory.Copy | kernel/scheduler/process.c:435-435 | the copied words, and no others, equal the source words |
| Fork.Memory.RebaseChain | kernel/scheduler/process.c:437-444 | the walk shifts exactly the slots of the chain in the copy and ends |
| Fork.Memory.CloneStackRebased | kernel/scheduler/process.c:428-447 | for any aligned chain, cyclic ones included, the walk ends; the child's stack equals the parent's word for word except that exactly the chain slots are shifted; everything else is untouched |
| Fork.ClonedWord | kernel/scheduler/process.c:428-447 | word by word: a word of the child's stack is the parent's, or the parent's moved along if that pointed into the copied stack; the saved frame pointer is moved exactly if it did; no word elsewhere changes |
| Fork.WrapsBack | kernel/scheduler/process.c:431-433 | adding the wrapped 64-bit distance is adding the true distance, also when the child lies lower |
| Fork.AscendingChain | kernel/scheduler/process.c:437-444 | a chain as compiled code leaves it is aligned and visits nothing below its second slot but its first |
| Fork.BacktraceMoved | kernel/scheduler/process.c:437-444 | the child's backtrace follows the parent's frame for frame, each moved to the child's stack, and ends with it if and only if the last frame pointer does not point into the child's stack |
| Switch.SwitchSymmetric | arch/x86_64/asm/swtch.S:4-25 | a process switched out and later in, from any state on another stack, goes on after its call with all saved registers and its stack pointer |
| Switch.SwitchToSelf | arch/x86_64/switch.c:12-24 | a switch to oneself loads the stack pointer of the last time the process left; it returns like a plain call if and only if that is where the frame is pushed now |
| Switch.SelfSwitchGoesBack | arch/x86_64/switch.c:12-24 | from deeper on its stack, the process is back where it last left |
| Switch.SelfSwitchFails | kernel/scheduler/process.c:229-230 | a concrete such switch returns to the earlier address, eleven words up |
| Switch.FirstSwitch | kernel/scheduler/process.c:75-112 | the first switch into a new process enters its entry point with rsp 8 modulo 16 and zero registers |
| Switch.WalkStartsAtRbp | arch/x86_64/switch.h:42-44 | the slot at which the walk starts holds the caller's rbp in the frame that fork() pushes |
| Switch.ForkStack | kernel/scheduler/process.c:428-447 | clone_stack_rebased on the memory of that frame leaves exactly the memory that ParentReturns and ChildReturns are about |
| Switch.ParentReturns | arch/x86_64/asm/swtch.S:33-59 | the parent gets 1 back with registers, stack pointer and return address as before, and no word of its stack in use changed |
| Switch.ChildReturns | arch/x86_64/asm/swtch.S:61-64 | whenever the child is first switched to, it returns 0 from the same call: same return address, same registers, its own stack pointer, and rbp moved to its own stack exactly if it pointed into the parent's |
| Lists.Node.constructor | libc/include/dsa/list.h:156-159 | a node on its own is an empty list |
| Lists.InitListHead | libc/include/dsa/list.h:156-159 | makes the node an empty list |
| Lists.LinkBetween | libc/include/dsa/list.h:265-275 | the new node stands between the two neighbours |
| Lists.ListAdd | libc/include/dsa/list.h:285-287 | the new node follows the given one |
| Lists.ListAddTail | libc/include/dsa/list.h:297-300 | append |
| Lists.Unlink | libc/include/dsa/list.h:309-312 | the others close up |
| Lists.ListDel | libc/include/dsa/list.h:341-345 | remove; next and prev hold their poison values |
| Lists.ListReplace | libc/include/dsa/list.h:354-359 | the new node takes the place of the old, even when it is alone |
| Lists.ListSwap | libc/include/dsa/list.h:379-389 | exchanges two entries, adjacent in either order or across the end of the ring |
| Lists.MoveRange | libc/include/dsa/list.h:430-441 | the six writes turn the ring into the one with the range at the end |
| Lists.ListBulkMoveTail | libc/include/dsa/list.h:430-441 | moves a range to the end, even if it is there already |
| Lists.ListDelInitCareful | libc/include/dsa/list.h:492-496 | remove, and the entry becomes an empty list |
| Lists.ListEmptyCareful | libc/include/dsa/list.h:511-514 | true exactly for a list of its head alone |
| Lists.ListCutPosition | libc/include/dsa/list.h:554-595 | splits the list after the entry into two well-formed lists; cutting at the head or an empty list moves nothing |
| Lists.ListSplice | libc/include/dsa/list.h:626-649 | the entries go in after the head, in order |
| Lists.CutThenSplice | libc/include/dsa/list.h:554-649 | cutting at any entry and splicing back gives the original list |
| Lists.Rotate | libc/include/dsa/list.h:265-312 | a ring may be read from any of its nodes |
| MazeGraph.CellCount | arch/i386/drivers/shell/builtins/maze.c:285-289 | the grid has width times height cells, the size of the stack array |
| MazeGraph.AllReached | arch/i386/drivers/shell/builtins/maze.c:307-379 | a set of cells that holds the corner and is closed under neighbourhood is the whole grid |
| MazeGraph.Confined | arch/i386/drivers/shell/builtins/maze.c:395-417 | no route leaves a set of cells that no step leaves |
| MazeGraph.BetweenEnds | arch/i386/drivers/shell/builtins/maze.c:355-368 | an opening joins exactly its two cells, seen alike from both |
| Maze.ExtendTree | arch/i386/drivers/shell/builtins/maze.c:349-374 | opening the wall to an unvisited cell keeps: connected, one opening fewer than visited cells |
| Maze.Backtrack | arch/i386/drivers/shell/builtins/maze.c:375-378 | a cell is popped only when all its neighbours are visited |
| Maze.StackFits | arch/i386/drivers/shell/builtins/maze.c:285-289 | the stack never holds more cells than are visited, hence never more than width times height |
| Maze.Grown | arch/i386/drivers/shell/builtins/maze.c:307-379 | when the stack is empty the openings are a spanning tree |
| Maze.Unvisited | arch/i386/drivers/shell/builtins/maze.c:311-347 | finds exactly the unvisited neighbours in the grid, each with its direction |
| Maze.Board.RemoveWall | arch/i386/drivers/shell/builtins/maze.c:355-368 | removes exactly the wall between the two cells |
| Maze.Board.Carve | arch/i386/drivers/shell/builtins/maze.c:287-379 | for every size and every run of random choices it terminates, stays in its stack, and leaves a spanning tree: all cells connected by exactly width * height - 1 openings |
| Maze.Board.Generate | arch/i386/drivers/shell/builtins/maze.c:269-393 | a spanning tree with source and sink in opposite corners |
| Maze.FreshPlayable | arch/i386/drivers/shell/builtins/maze.c:275-384 | a fresh maze has one cell per position, source and sink in opposite corners and corridor everywhere else |
| Maze.Board.constructor | arch/i386/drivers/shell/builtins/maze.c:17-19 | no markers before the first generation |
| Maze.Board.CanMoveTo | arch/i386/drivers/shell/builtins/maze.c:395-417 | true exactly for a neighbour in the grid with no wall between |
| Maze.Board.DfsSolve | arch/i386/drivers/shell/builtins/maze.c:419-455 | success: a simple open route to the target, marked, through cells free at entry; failure: every cell reachable through free cells has been visited |
| Maze.FailureIsProof | arch/i386/drivers/shell/builtins/maze.c:419-455 | a failed search from the source means that no open route to the sink exists |
| Maze.WayShown | arch/i386/drivers/shell/builtins/maze.c:441-448 | after success the PATH cells with source and sink are exactly one simple wall-free route |
| Maze.Board.FindMarkers | arch/i386/drivers/shell/builtins/maze.c:463-477 | finds the source and the sink, or that there is none |
| Maze.Board.ResetMarks | arch/i386/drivers/shell/builtins/maze.c:484-492 | takes away the marks of an earlier attempt and nothing else |
| Maze.Board.SolveMaze | arch/i386/drivers/shell/builtins/maze.c:461-505 | solved if and only if an open route joins source and sink, and then that route is shown; without both markers nothing changes |
| Maze.Board.GenerateThenSolve | arch/i386/drivers/shell/builtins/maze.c:269-505 | solving a generated maze succeeds exactly if it has at least two cells |
| Frames.AllocKeeps | arch/i386/memory/paging.c:62-83 | allocation keeps: no two present entries hold one frame, held frames are marked, marked frames other than 0 are held |
| Frames.ReleaseKeeps | arch/i386/memory/paging.c:85-92 | so does freeing |
| Frames.RunKeeps | arch/i386/memory/paging.c:62-92 | so does every run of both |
| Frames.AllocAgrees | arch/i386/memory/paging.c:62-92 | bitmap and entries stay in exact agreement under free, and under alloc if and only if the entry does not already hold frame 0 |
| Frames.FrameZeroLeaks | arch/i386/memory/paging.c:62-66 | the smallest case in which they do not |
| Frames.AllocThenFree | arch/i386/memory/paging.c:62-92 | freeing what alloc gave restores the state exactly if the frame was not frame 0 |
| Frames.EntryAfter | arch/i386/memory/paging.c:62-92 | an empty entry given a nonzero frame and freed again: present with that frame and exactly the rights asked for, then all zero with the frame unmarked; no other entry changes |
| Frames.MaskTest | arch/i386/memory/paging.c:37-42 | a word and-ed with a one-bit mask is nonzero exactly if it has the bit |
| Frames.SetMask | arch/i386/memory/paging.c:22-27 | or-ing the mask sets that bit only |
| Frames.Unmask | arch/i386/memory/paging.c:30-35 | and-ing its complement clears that bit only |
| Paging386.Mmu.constructor | arch/i386/memory/paging.c:94-104 | zeroed bitmap, no tables |
| Paging386.Mmu.SetFrame | arch/i386/memory/paging.c:22-27 | marks exactly that frame |
| Paging386.Mmu.ClearFrame | arch/i386/memory/paging.c:30-35 | unmarks exactly that frame |
| Paging386.Mmu.FirstFrame | arch/i386/memory/paging.c:44-60 | the lowest unmarked frame, or none exactly if all are marked |
| Paging386.Mmu.AllocFrame | arch/i386/memory/paging.c:62-83 | is Alloc with that frame; panics exactly if one is needed and none is left |
| Paging386.Mmu.FreeFrame | arch/i386/memory/paging.c:85-92 | is Release |
| Paging386.Mmu.KmallocA | mm/kheap.c:9-18 | the next page-aligned page |
| Paging386.Mmu.GetPage | arch/i386/memory/paging.c:158-194 | the entry of the address, making a zeroed table exactly if there is none and it may |
| Paging386.Mmu.TableForNext | arch/i386/memory/paging.c:114-116 | the table of page n is there afterwards, the next one after those before it |
| Paging386.Mmu.MapNext | arch/i386/memory/paging.c:114-117 | round n gives page n frame n, or panics exactly if there is no frame n |
| Paging386.Mmu.InitPaging | arch/i386/memory/paging.c:94-119 | page i gets frame i for all pages of the range, or it panics exactly if the machine has fewer frames; directory and page tables are distinct, aligned and inside the range being mapped |
| Ac97.ChunkSize | drivers/ac97.c:145-155 | an even count, at most 0xFFE, never past the end, and 0 exactly for less than four bytes; it is the full 0xFFE or leaves less than four bytes |
| Ac97.ChunksCover | drivers/ac97.c:145-203 | the chunks of a clip are even-sized, contiguous and play all of it but a rest of less than four bytes, each byte once |
| Ac97.ChunkAt | drivers/ac97.c:319-337 | the next chunk is cut exactly where the previous ones end |
| Ac97.CompleteKeeps | drivers/ac97.c:278-340 | what the controller plays next is the next entry queued |
| Ac97.IrqKeeps | drivers/ac97.c:319-337 | a refill keeps the protocol invariant and only overwrites a slot whose entry the controller has completed |
| Ac97.RunKeeps | drivers/ac97.c:278-340 | the invariant holds over every order of completions and interrupts, coalesced ones included |
| Ac97.PlayedExactly | drivers/ac97.c:157-340 | what was played is the clip's chunks in order, then entries with no samples; at rest it is exactly the clip, each byte once |
| Ac97.WholeClipQueue | drivers/ac97.c:313-317 | for a length that is a multiple of 4 no more entries are queued than the clip has chunks |
| Ac97.EventCounts | drivers/ac97.c:278-340 | for such a clip every event that changes anything brings it one step closer to rest |
| Ac97.WholeClipStops | drivers/ac97.c:278-340 | so every run in which each event does something is at most that long |
| Ac97.WholeClipRests | drivers/ac97.c:278-340 | and some run reaches rest |
| Ac97.RestIff | drivers/ac97.c:145-340 | playback can come to rest if and only if the length is a multiple of 4 |
| Ac97.SixByteClip | drivers/ac97.c:319-337 | a six-byte clip: the first completion makes the driver queue an entry with no samples, the second another |
| Ac97.Driver.SetupBdl | drivers/ac97.c:157-204 | queues as many chunks as fit, in order; refuses clips above 4 GiB |
| Ac97.Driver.StartPlayback | drivers/ac97.c:206-229 | starts exactly if there are at least four bytes, in a state that satisfies the invariant |
| Ac97.Driver.IrqHandler | drivers/ac97.c:278-340 | is one Refill if a completion is reported and data is left, else nothing |
| Ac97.Driver.constructor | drivers/ac97.c:157-204 | an empty ring |
| UnionFind.CompressForest | libc/datastructures/ufds/ufds.c:44-49 | pointing an element at its root keeps the forest and the set of roots |
| UnionFind.CompressRoot | libc/datastructures/ufds/ufds.c:44-49 | and no element's representative; no path gets longer |
| UnionFind.LinkForest | libc/datastructures/ufds/ufds.c:55-70 | putting one root under another keeps the forest and removes exactly that root |
| UnionFind.LinkRoot | libc/datastructures/ufds/ufds.c:55-70 | exactly the elements of that class get the other root, one step further down |
| UnionFind.RankBoundKept | libc/datastructures/ufds/ufds.c:58-67 | rank goes on bounding height if and only if the union is not a tie against a class as tall as its rank |
| UnionFind.TieRaisesLoser | libc/datastructures/ufds/ufds.c:62-66 | a tie raises the rank of the losing root by one; no other rank changes in any union |
| UnionFind.RankIsNotHeight | libc/datastructures/ufds/ufds.c:62-66 | the first union of two fresh elements breaks the bound |
| UnionFind.SizeKept | libc/datastructures/ufds/ufds.c:58-67 | sizes that are right stay so if and only if the union puts a single element under a root of higher rank |
| UnionFind.SizeStartsWrong | libc/datastructures/ufds/ufds.c:35-37 | a fresh element of size 0 already has the wrong size |
| UnionFind.Ufds.constructor | libc/datastructures/ufds/ufds.c:7-42 | every element is its own representative; ranks and sizes are 0 in the first quarter, which is all that is cleared |
| UnionFind.Ufds.FindSet | libc/datastructures/ufds/ufds.c:44-49 | terminates, returns the representative, changes nobody's representative |
| UnionFind.Ufds.InSameSet | libc/datastructures/ufds/ufds.c:51-53 | true exactly for equal representatives |
| UnionFind.Ufds.Link | libc/datastructures/ufds/ufds.c:58-67 | parent, rank and size updates by rank |
| UnionFind.Ufds.UnionSet | libc/datastructures/ufds/ufds.c:55-70 | merges exactly the two classes; num_sets drops by one exactly if the number of roots does |

## Left out

- Heap exhaustion: the bump allocator has no limit of its own; walks, ranges and stacks are stated for states with room for the tables they can need (three per walk).
- Accessed and dirty bits set by hardware, reserved-bit faults, five-level paging and PCIDs.
- Tlb.RunStaysCoherent: covers one address space on one CPU; a cr3 switch and its flush are not steps of the run.
- SchedMachine: the timer is modelled as acting only while a process other than the scheduler is current; one CPU; the kernel's interrupt handlers other than the timer are not steps.
- Scheduler.Kernel.Spinlock: requires the lock to be free; on one CPU a held lock spins for ever, each round as TestAndSet says, and LockDiscipline shows this is not reached.
- Reuse of zombie slots: the kernel never returns a slot to UNUSED, nor does the model.
- ctx_switch, yield, exit_process and fork as methods: they return only when another process switches back, so they are steps of SchedMachine, and their register and stack effect is in Switch and Fork.
- Process names, address-space lists, `entry` functions and the demo processes.
- Fork.Memory.CloneStackRebased: frame pointers that point into the stack at an address that is not a multiple of 8 are excluded, as the last of them could be read past the end of the stack; the words below the saved frame, used by the C function itself, are not modelled.
- find_stack and the vm_region list walk: a linear search.
- The i386 `swtch.S`, interrupt entry code, GDT, IDT and APIC set-up.
- List iteration macros, list_cut_before, hlists, and the memory-ordering annotations of list.h.
- Lists.ListDel: null in next stands for the first poison value and null in prev for the second; nothing else stores null.
- Drawing the maze, the random number generator (every choice is allowed) and the fixed 39 by 10 size (every size is allowed).
- i386 map_physical_range and map_page, which write entries and mark frames without the allocator.
- Paging386.Mmu.FreeFrame: requires the entry's frame to be covered by the bitmap, which the source does not check.
- AC97 register programming, FIFO errors and volume; the status register is reduced to its completion bit.
- UnionFind.Ufds.constructor: says nothing of num_sets and the other three quarters of ranks and sizes, which the source leaves as they are.
- USB, PCI, ACPI, serial, VGA, keyboard, shell commands other than the maze, libc string functions, sorting and the other containers of libc.
