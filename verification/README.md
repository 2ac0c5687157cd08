# Verification of the RViX microkernel core

RViX is a small RISC-V microkernel. This Dafny project models its memory management, its process
machine and its boot-time archive reader, and proves properties of them for all inputs and all runs.

**Memory.** `Kalloc.Machine` is physical memory: one array of bytes, addressed physically, with the head
of the free list. Its size stands for PHYSTOP and its constant `end` for the end of the kernel image; both are
parameters. The list's links are stored inside the free pages. A ghost `view` (`PageTable.View`)
reads the bytes as words, page by page, and gives each managed page one *role*: free, held by an owner,
table page at one place of one tree, or frame of one mapping. `PageTable.Inv` says that memory and roles
agree: the list is acyclic and holds exactly the free pages, every table hangs from exactly one slot,
interior entries carry no R/W/X flag, leaf entries carry at least one, and every owned frame is mapped
where its role says. A page table stands for `AbsMap`, a map from virtual page numbers to leaf entries.
The methods of `Vm` are vm.c's operations on the bytes; each is proved to keep the invariant and to be an
update of that map, with the pages it takes or gives back counted exactly. `Lifecycle` proves that create,
grow and free restore the allocator whether or not the growth failed. `Sv39` compares the result with the
address translation process of section 4.3.2 of the RISC-V Privileged Architecture, version 20211203,
written independently of the software walk. `RiscvBits` proves the arithmetic forms of the address and
entry macros equal to the shifts and masks of riscv.h.

**Boot.** `Ustar` proves the archive reader against a writer of the ustar interchange format (IEEE Std
1003.1, pax, "ustar Interchange Format"). `KernelMap` is the kernel's own page table, `ProcBorn` the
creation of one process, `Boot` the loop that creates the servers from the archive and, from power-on to
the first switch, `main`; its result is a process table in memory from which the results about runs start.
`Isolation` says which pages user code reaches, from birth on and after any stores it makes.

**Processes.** `Process` gives one user trap as one atomic step: a timer tick, or one of the six calls,
then the check for `SLEEP` and `yield`. `Ipc.Kernel` is the same code on the process table in place, proved
equal to those functions. `Traps` says, for every trap, what becomes of each slot of the table and that nothing else
changes, and that preemption is transparent in every run. `Runs` proves what holds in every run, `Discipline` what processes must respect
for the queues to stay in order, and that exactly this is needed for that. For every run, disciplined or not,
`Messages` proves exactly which traps a queued message survives, `Panics` exactly which traps panic, and
`Fairness` how long a message can wait. The table size is a parameter everywhere.
`IpcBuffers` is the buffer-copying half of ipc.c on physical memory.

## What the code does, where its comments say otherwise

- The sender queue fills the first zero slot and drains the first non-zero one (ipc.c:188-211). It is a bag,
  not a FIFO; `Queue.AddKeepsOrder` says exactly when an addition keeps arrival order, `Queue.NotFifo`
  gives a sequence that overtakes. Since low slots are refilled first, a queued sender can wait for ever while
  another keeps sending (`Fairness.Starvation`); `Fairness.BoundedOvertaking` bounds the wait by the sends.
- `send` takes any sleeping destination for a waiting receiver (ipc.c:59), even one that is itself queued as a
  sender elsewhere. `Messages.OverwrittenMessage` is a run from boot in which a message is lost this way. The
  sender's name then stays in the queue, and a later message of that sender can go to the wrong process:
  `Messages.MisdeliveredMessage` continues the run so. `Messages.MessageFate` says exactly when a waiting message
  is lost: by a send to its sender, by a wakeup of it, or by a recv that takes its name from another slot it is
  still in.
- The comment on `uvmcopy` promises that a failed copy frees what it allocated (vm.c:289). It also unmaps and frees
  what the child mapped below the failing page before; `Ownership.CopyAllOrNothing` says exactly when that
  changes nothing.
- `wakeup` does not clear `is_wait_msg` (ipc.c:149-153), and with nothing else ready the scheduler runs a process
  on that has just blocked (process_manager.c:187-189). `Discipline.DisciplineExact` has the exact conditions. A woken
  process may therefore be put back to sleep by its next timer tick; `Runs.TickSleeps` says exactly when.
- `sleep_prc` on the caller itself is undone by `yield`, unless the caller's wait flag is still set from a `recv` that a
  `wakeup` ended, and another process is ready (process_manager.c:206-214). `Runs.SelfSleep` has the exact condition.
- `ipc_buf_cpy` and `buf2ipc_cpy` document a return code but return nothing on success (ipc.c:96-137).
- `proc_born` leaves `is_wait_msg` at the allocator's junk (process_manager.c:133-137); any value but 1 acts as 0.

## Proof technique

Page-table proofs hide the definitions a step does not need (`hide` at the head of a body) and pass facts
through small lemmas. Loops of the source that have several ways to fail are given their failing part as a
method of its own (`NewTable`, `MapOrFree`, `CopyPage`, `UndoGrowth`, `UndoCopy` in `Vm`; `BornSpace`,
`BornBlocks`, `LoadBinary` in `ProcBorn`; `ClearCopyClear` in `IpcBuffers`).

## Model

| member | source | states |
|---|---|---|
| Common.Memset | common.c:125-133 | exactly the n bytes from dst on become c |
| Common.Memcpy | common.c:134-138 | for every overlap, the destination range becomes what a forward copy makes of the old source range: its bytes, or, when the destination starts inside the source, its start repeated; nothing else changes |
| Common.ForwardIsPlain | common.c:134-138 | that is the plain copy if and only if the destination does not start inside the source |
| Common.Memmove | common.c:139-156 | the plain copy, for every overlap of the two ranges |
| Riscv.MakePteFields | riscv.h:365-369 | a stored entry is valid and gives back the page number, the physical address and the flags it was made from, with V added |
| Riscv.MakePteBits | riscv.h:358-369 | the R, W, X and U bits of a stored entry are those of the permission word |
| Riscv.ReadUserBits | vm.c:227 | PTE_R, PTE_U and xperm or-ed together make a readable user leaf and keep W and X of xperm |
| Riscv.FlagsOfEntry | vm.c:304-308 | the ten flag bits of an entry, used as a permission word, make an entry with the same flags |
| RiscvBits.Rounding | riscv.h:355-356 | the masked forms of PGROUNDUP (with 64-bit wrap-around) and PGROUNDDOWN equal the division forms the model uses |
| RiscvBits.Fields | riscv.h:365-369 | PA2PTE, PTE2PA and PTE_FLAGS as shifts and masks equal the model's arithmetic |
| RiscvBits.Indices | riscv.h:372-380 | PX at each level as shift and mask, and MAXVA, equal the model's arithmetic |
| RiscvBits.FlagTests | riscv.h:358-362 | each `& PTE_x` test, and the test for R, W or X in freewalk, is the model's predicate |
| RiscvBits.StoredEntry | vm.c:161 | the entry that is stored, or-ed together bit by bit from the shifted address, perm and PTE_V, is the model's entry |
| RiscvBits.GrownPermission | vm.c:227 | PTE_R, PTE_U and xperm, or-ed bit by bit, are the model's permission word |
| Kalloc.Machine.constructor | kalloc.c:11-29 | at power-on, for any memory contents, the invariant holds with every page above `end` in the boot code's hands |
| Kalloc.Machine.Kalloc | kalloc.c:64-76 | the first page of the list, filled with junk, leaves the list; 0 and no change exactly if the list is empty |
| Kalloc.Machine.Kfree | kalloc.c:44-59 | the page joins the front of the list, junk-filled with the link in its first word; none of the three panics is reached for a managed page |
| Kalloc.Machine.FreeRange | kalloc.c:31-38 | exactly the aligned whole pages of the range become free, listed last first; all other pages keep role and contents; the invariant is kept |
| Kalloc.Machine.Kinit | kalloc.c:25-29 | after boot every managed page is free, memory below `end` is as it was, and the invariant holds |
| Kalloc.Machine.MemsetPage | kalloc.c:53 | filling the bytes of one page sets all its words to the repeated byte and no other word |
| Kalloc.Machine.MemmovePage | vm.c:307 | copying the bytes of a page copies its words and changes no other |
| Kalloc.Machine.CopyInto | common.c:134-156 | the bytes of a range inside one page become the old source bytes; all other bytes of memory are unchanged |
| Kalloc.Machine.Store | vm.c:105 | an eight-byte store changes exactly one word of the view |
| Kalloc.BytesOfLe | riscv.h:347-348 | the bytes of a little-endian word are the ones it was read from |
| PageTable.PopInv | kalloc.c:64-76 | taking a page off the list keeps the invariant: list, trees and frames stay apart |
| PageTable.PushInv | kalloc.c:44-59 | giving back a page that nothing uses keeps the invariant; listed pages stay distinct |
| PageTable.LinkTableInv | vm.c:102-105 | linking a zeroed page below an empty slot keeps every table below exactly one slot |
| PageTable.SetLeafInv | vm.c:161 | writing a leaf slot that no owned frame hangs from keeps the invariant |
| PageTable.AdoptInv | vm.c:221-227 | a held page that a leaf entry points to may become the frame of that mapping |
| PageTable.RetireTableInv | vm.c:271 | a table without valid entries whose parent slot is being cleared can leave its tree |
| PageTable.TableAtRole | vm.c:97-108 | the table a walk reaches at a level is the one whose role names that place of that tree |
| PageTable.RoleTableAt | vm.c:97-108 | conversely every table page is reached by every page number its place covers |
| PageTable.PlaceIsUnique | vm.c:97-108 | no two table pages of a tree have the same place |
| Translation.SlotInjective | vm.c:91-109 | two page numbers, of the same or of different trees, have the same leaf slot if and only if they are the same |
| Translation.SameLookup | vm.c:91-109 | a tree's translations depend on its own table pages only |
| Translation.GrownOthers | vm.c:91-109 | making tables for one tree changes no translation of another |
| Translation.AllocTableEffect | vm.c:102-105 | a table made on the way keeps every translation of the tree and adds exactly one place |
| Translation.MapSlotEffect | vm.c:159-161 | filling an empty leaf slot maps that page number and changes no other |
| Translation.GrowthShort | vm.c:157-158 | a walk that finds no page means that fewer pages were free than tables were missing for the whole range |
| Vm.Walk | vm.c:91-109 | the slot of va in the tree; every translation is kept even if it fails halfway; with alloc exactly the missing tables are made, and 0 is returned only when the list is empty |
| Vm.WalkAddr | vm.c:114-132 | the frame of va if it is below MAXVA, mapped and user-accessible, else 0; nothing changes |
| Vm.IsMapped | vm.c:471-483 | true if and only if the page of va is mapped |
| Vm.MapPages | vm.c:139-168 | 0: exactly the pages of the range become the consecutive frames; -1: exactly the prefix for whose tables the free pages sufficed; 0 if and only if they suffice for all; other translations and trees kept |
| Vm.UvmCreate | vm.c:172-181 | a new empty tree from one free page; 0 if and only if none is free |
| Vm.UvmUnmap | vm.c:186-206 | exactly the mappings in the range go, their frames freed if asked for, with the free count exact; other trees and contents kept |
| Vm.UvmDealloc | vm.c:240-252 | exactly the pages that start at or above the new size and below the old one go, wherever in a page the two sizes lie; returns the smaller size |
| Vm.UvmAlloc | vm.c:210-234 | every page that starts at or above the old size and below the new one is added, with a fresh zeroed frame, or the old map is restored exactly with only tables spent; success if and only if enough pages were free |
| Vm.ShrinkPages | vm.c:240-252 | the pages that shrinking gives up are those whose first byte lies from the new size up to the old one, aligned or not |
| Vm.GrownPages | vm.c:219-233 | the pages that growth adds are those whose first byte lies from the old size up to the new one |
| Lifecycle.GrowthMeaning | vm.c:219-233 | after growth a page is mapped if it was, unchanged, or if it is in the new range: to a page of zeros that was free, readable, for user code, writable and executable as asked |
| Lifecycle.ShrinkMeaning | vm.c:240-252 | after shrinking a page is mapped if and only if it was and does not start in the part given up; kept pages keep frame and contents, the frames of the others are free |
| Lifecycle.NewFramesDiffer | vm.c:219-233 | the frames of distinct new pages are distinct |
| Vm.UvmCopy | vm.c:290-318 | 0: the child has a copy of every parent page below sz besides what it mapped; -1: everything the child maps below the first page for which the free pages did not suffice is gone and freed, with only tables spent; the parent's map is unchanged; 0 if and only if enough pages were free |
| Ownership.CopyMeaning | vm.c:290-318 | after a copy, below sz the child maps what it did and what the parent maps, the latter with equal flags and equal contents, to different frames from the free list |
| Ownership.UndoExpansion | vm.c:315-317 | unmapping everything below the page that failed leaves the old map less what was mapped there before, and the old page count less the new tables |
| Ownership.CopyFailsOnce | vm.c:298-313 | where a copy fails is determined by the state before it: there is such a page if and only if the free pages do not suffice, and only one |
| Ownership.CopyAllOrNothing | vm.c:290-318 | a failed copy leaves the child's map as it was if and only if the child maps nothing below that page |
| Ownership.UndoneExact | vm.c:315-317 | undoing restores the old map if and only if nothing was mapped in the range that is unmapped |
| Ownership.UndoneIsGrown | vm.c:315-317 | in that case nothing but tables is left of the copy: all or nothing |
| Ownership.UndoneOthers | vm.c:315-317 | undoing changes no other tree |
| Ownership.AdoptMapped | vm.c:195-205 | a held page that is mapped can be made the frame of that mapping, so that unmapping may free it |
| Ownership.ExpansionShort | vm.c:222-231 | a growth or copy that fails had fewer free pages than frames and missing tables for all of it |
| Ownership.FrameIsMapped | vm.c:195-205 | an owned frame is mapped at exactly the one page its role names |
| Ownership.ReleasedOthers | vm.c:186-206 | unmapping in one tree changes no other tree and removes no table |
| Ownership.ExpandedOthers | vm.c:290-313 | growing one tree changes no other |
| Vm.FreeWalk | vm.c:256-272 | with the leaves gone it does not panic and frees exactly the table and the tables below it, each once |
| Teardown.EmptyTree | vm.c:254-256 | a tree that maps nothing has no valid leaf entry, and all its pages are tables below its root |
| Teardown.ProgressChild | vm.c:262-266 | one round of freewalk frees the child's subtree, clears its slot and touches nothing above |
| Vm.UvmFree | vm.c:276-282 | exactly the tree's tables and frames become free; contents of all other used pages are kept |
| Lifecycle.ListIsFreeSet | kalloc.c:21-23 | the list holds exactly the free pages, each once |
| Lifecycle.FreedCount | vm.c:276-282 | freeing a tree adds to the list exactly its tables and frames, none of which was on it |
| Lifecycle.FreedOthers | vm.c:276-282 | freeing one tree changes no other |
| Lifecycle.FreeUndoes | vm.c:172-282 | freeing a tree gives every page the role it had before the tree was created |
| Lifecycle.CreateGrowFree | vm.c:172-282 | create, grow and free restore the allocator's pages whether or not the growth failed, and no other tree or used page changes |
| Sv39.TranslateFrom | vm.c:91-109 | from any table on the way, the hardware's walk finds what the software lookup finds, unless the leaf is reserved |
| Sv39.HardwareAgrees | vm.c:91-109 | the hardware translates a page if and only if it is mapped by an entry that is not reserved, to the same frame |
| Sv39.UserFrameAgrees | vm.c:114-132 | walkaddr's answer is the frame user code reaches at va, unless the entry is reserved; 0 otherwise |
| KernelMap.KvmMap | vm.c:51-56 | with enough pages free it does not panic and maps exactly the range |
| KernelMap.KvmMake | vm.c:16-46 | builds exactly the kernel map from exactly 68 free pages, and cannot panic when that many are free; every used page, all unmanaged memory and every other tree stay as they were |
| KernelMap.KernelMapMeaning | vm.c:33-41 | RAM is mapped to itself, text executable and not writable, the rest writable and not executable, plus the trampoline; none is for user code, nothing else is mapped |
| KernelMap.TextTables | vm.c:33-41 | the three ranges need exactly the 68 tables, wherever the text ends |
| ProcBorn.Born | process_manager.c:66-159 | the first unused slot gets a process with a complete image, from exactly ten free pages; every earlier process and every used page is as it was |
| ProcBorn.BornInSlot | process_manager.c:81-159 | the address space, trapframe, ipc block and stacks of the new process are as specified; page 0 holds the binary, then zeros |
| ProcBorn.ImageKept | process_manager.c:66-159 | a process image survives whatever leaves used pages alone |
| ProcBorn.BornPlaces | process_manager.c:97-154 | the fixed pages share one pair of tables and page 0 needs another, which makes the page count independent of the kind of process |
| Isolation.BornSpaces | process_manager.c:66-159 | processes as born have the address spaces that isolation rests on |
| Isolation.SpacePages | process_manager.c:97-154 | a process maps its five kinds of page, each to its frame, and nothing else; all can be read, all but the trampoline written, the trampoline and page 0 executed, and only the ipc page, page 0 and an io server's UART are for user code; whatever those pages hold |
| Isolation.ProgramRuns | process_manager.c:128-154 | a new process can run: the hardware's translation of its first program counter and of all of page 0 finds its binary, then zeros, executable by user code, and the stack below its stack pointer is writable |
| Isolation.UserFramesDisjoint | process_manager.c:66-159 | user code of two processes shares no frame but the UART of io servers, whatever the pages hold |
| Isolation.KernelPagesHidden | process_manager.c:97-106 | no trampoline, trapframe, ipc block, kernel stack, table or free page of any process is accessible to user code |
| Isolation.SpacesKept | ipc.c:100-137 | whatever changes only the contents of pages, as the buffer calls do, keeps these address spaces |
| Isolation.SpacesAfterBirth | process_manager.c:66-159 | so does every further birth |
| Isolation.StoreKeeps | process_manager.c:97-120 | a store to memory that is neither free nor a table keeps the invariant, every translation and all other pages |
| Isolation.UserStore | process_manager.c:97-120 | a store by user code, where its page table lets it, changes no table, no kernel page of any process and no page of another process |
| Isolation.StoresKeepIsolation | process_manager.c:97-120 | after any number of such stores the invariant and all address spaces stand, and what a process did not store itself is unchanged |
| Boot.InitServers | bootstrap.c:95-116 | each server of the table is born with the bytes the archive has under its name, from ten pages each |
| Boot.LiveIsBooted | process_manager.c:25-27 | the process table in memory after the births is a starting state of runs |
| Boot.BootRuns | process_manager.c:195-205 | with at least one birth the first yield starts a process and the run invariant holds |
| Boot.BuffersKeepSystem | ipc.c:100-137 | what the buffer calls change in memory is nothing that the process machine looks at |
| Boot.BootKernel | main.c:14-27 | main from power-on to the first switch: kinit, kvminit and init_servers leave the kernel map standing, each server with its binary, memory below `end` untouched and exactly the counted pages free; if the names are distinct, the first yield starts a run |
| Boot.ServersDistinct | bootstrap.c:99-105 | the servers' names are distinct and not zero, as runs require |
| Process.FindFromMeaning | ipc.c:168-176 | the search ends at the first slot it cannot pass: the first slot with that name, or the first without an ipc block, whichever comes first; none if all are passed |
| Runs.FindRegistered | ipc.c:168-176 | a registered name is found at its own slot before the search touches a slot without an ipc block; any other name runs into one, unless every slot is used |
| Process.FirstZero | ipc.c:188-196 | the slot used for an addition is the first empty one |
| Process.FirstNonZero | ipc.c:201-211 | the slot drained is the first one in use |
| Queue.AddBag | ipc.c:188-196 | an addition inserts exactly one name into the bag |
| Queue.ExtractBag | ipc.c:201-211 | an extraction removes exactly the name it returns, and returns 0 if and only if the bag is empty |
| Queue.AddKeepsOrder | ipc.c:188-196 | an addition, of a new or of a queued name, keeps arrival order if and only if nothing but that name lies beyond the first free slot |
| Queue.DrainedQueueIsFifo | ipc.c:188-211 | from a drained queue up to N additions and as many extractions return arrival order |
| Queue.NotFifo | ipc.c:188-211 | a concrete sequence in which a later sender overtakes |
| Ipc.Kernel.FindNameProcess | ipc.c:168-176 | the search on the table in place is the function Find |
| Ipc.Kernel.AddQue | ipc.c:188-196 | in place: one slot of one queue changes, and false (the panic) if and only if the queue is full |
| Ipc.Kernel.ExtractQue | ipc.c:201-211 | in place: one slot is cleared and its name returned; 0 and no change if the queue is empty |
| Ipc.Kernel.CopyReg | ipc.c:156-163 | in place: a0-a5 are copied with the sender's name in a3, and a6, a7 of the receiver stay |
| Ipc.Kernel.Send | ipc.c:53-70 | in place: the new table is the function Send of the old one, or both panic |
| Ipc.Kernel.Recv | ipc.c:78-94 | in place: the new table is the function Recv of the old one, or both panic |
| Ipc.Kernel.SetNamedState | ipc.c:141-153 | in place: sleep_prc and wakeup change the state of the named process only |
| Ipc.Kernel.Call | ipc.c:19-43 | in place: the dispatch of the six calls, and the panic for any other number |
| Ipc.Kernel.Scheduler | process_manager.c:174-192 | in place: the choice of the next process is the function Schedule |
| Ipc.Kernel.YieldCpu | process_manager.c:195-218 | in place: the switch is the function Yield |
| Ipc.Kernel.UserTrap | trap_handle.c:42-81 | in place: one user trap is the function Step |
| Process.Passed | process_manager.c:177-185 | the scheduler picks the first eligible slot after its index and passes over none |
| Runs.StepKeeps | trap_handle.c:42-81 | every trap keeps the invariant: used slots are a prefix with pid = index + 1, and only the current process is in state RUN |
| Runs.RunInv | trap_handle.c:42-81 | that invariant holds in every state of every run |
| Runs.ScheduleRank | process_manager.c:174-192 | each call of the scheduler picks a given ready process or comes strictly closer to it |
| Runs.BoundedWaiting | process_manager.c:174-192 | in every run, for every table size N, fewer than N traps yield while a ready process waits |
| Runs.SleeperQueueFrozen | ipc.c:53-70 | no trap changes the queue of a sleeping process |
| Runs.NoLostWakeup | ipc.c:53-94 | in every run, a process asleep since its recv has an empty queue |
| Runs.WhoWakes | ipc.c:53-153 | a trap ends a sleep if and only if it is a send to the sleeper, a wakeup of it, or a recv whose first queued name is the sleeper's |
| Traps.YieldSwitches | process_manager.c:195-218 | yield switches away if and only if another process is ready; the process switched to was ready and is in state RUN, the old one sleeps or is ready as its wait flag says, nobody else changes |
| Traps.YieldPicksNext | process_manager.c:174-192 | of the ready processes it is the one nearest after the scheduler's index |
| Traps.FirstSwitch | process_manager.c:174-205 | the first process to run is the second one born, if there are two, and only its state changes |
| Traps.TickSwitches | trap_handle.c:58-62 | a timer tick saves the registers and switches; no other slot changes but the state of the process switched to |
| Traps.QueuedSend | ipc.c:65-69 | a send to a process that is awake, even the caller, adds the caller's name to the destination's first free slot and nothing else to it; the caller waits, everybody else is untouched |
| Traps.DirectSend | ipc.c:59-64 | in every state of a run, a send to a sleeper delivers at once: a0-a2, a4, a5 as sent, the sender's name in a3, the receiver's own a6, a7; the receiver wakes, nobody else is touched, and the sender is left asleep if and only if its own wait flag is set |
| Traps.RecvTakes | ipc.c:78-89 | a recv with a queued sender clears that one slot and gets the sender's message; the sender keeps its registers, is ready and no longer waits; the caller runs on, nobody else changes; also for a process queued at itself |
| Traps.RecvBlocks | ipc.c:90-93 | a recv on an empty queue sets the wait flag and switches; everybody else is untouched |
| Traps.SleepOther | ipc.c:141-145 | sleep_prc on another process puts that process to sleep; the caller runs on and nothing else changes |
| Traps.WakeUp | ipc.c:149-153 | wakeup makes the named process ready, keeps its wait flag, and changes nothing else |
| Traps.BufferCall | ipc.c:100-137 | the two buffer calls change no slot of the table |
| Traps.OthersRegisters | ipc.c:53-163 | no trap changes the registers of another process but a send to it while it sleeps |
| Traps.RegistersKept | ipc.c:53-163 | the same over every stretch of every run |
| Traps.ReadyKept | trap_handle.c:42-81 | a ready process stays ready or is switched to, and keeps its registers; it goes to sleep if and only if the trap is a sleep_prc of it |
| Traps.PreemptionTransparent | process_manager.c:195-218 | in every run, a process that a tick interrupts with its wait flag clear stays ready and resumes with the registers it had, unless a sleep_prc names it meanwhile |
| Traps.WhoYields | trap_handle.c:42-81 | the traps that end in yield are the ticks, all sends, the recvs on an empty queue and sleep_prc of the caller; only they can switch |
| Runs.SelfSleep | ipc.c:141-145 | a process that puts itself to sleep stays asleep if and only if its own wait flag is set and another process is ready; nobody else is touched |
| Runs.YieldSleeps | process_manager.c:195-218 | in every state of a run, yield leaves its caller asleep if and only if the caller's wait flag is set and another process is ready, whatever state the caller was in |
| Runs.TickSleeps | process_manager.c:206-209 | a timer tick puts a running process to sleep if and only if its wait flag is still set, after a wakeup, and another process is ready |
| Discipline.RoomInQueue | ipc.c:188-196 | while queued senders wait and are queued once, no queue overflows: the panic is unreachable |
| Discipline.StepQueues | trap_handle.c:42-81 | a trap that respects the discipline does not panic; every queued sender stays blocked, queued once and nowhere else |
| Discipline.DisciplineExact | trap_handle.c:42-81 | from queues in order, no trap whose call and names exist panics, and the queues stay in order if and only if, before the trap, no send goes to a sleeping queued sender, no wakeup to a waiting process, and no call that blocks finds nobody else ready |
| Discipline.CallBlocks | ipc.c:53-94 | a call leaves its caller waiting if and only if it is a send to a process that is awake or a recv on an empty queue |
| Discipline.StepPlaced | trap_handle.c:42-81 | a trap that respects the discipline leaves every waiting process placed: queued at the destination of its send, or a receiver with an empty queue |
| Discipline.RunQueues | ipc.c:53-94 | in every state of a disciplined run, whoever is queued waits and is queued once, whoever waits sleeps, and every waiting process is queued at its destination or is a receiver with an empty queue |
| Discipline.BlockedSenderQueued | ipc.c:53-70 | in every state of a disciplined run, each blocked sender is asleep and sits in exactly one queue, its destination's, exactly once |
| Panics.StepNames | ipc.c:188-211 | in every state of a run, a trap puts no name but a process's own into a queue, so that every queued name stays known |
| Panics.RunNames | ipc.c:188-211 | in every state of every run each queued name is the name of a process |
| Panics.RecvNeverPanics | ipc.c:78-94 | in every state of a run, recv finds the sender it takes from its queue |
| Panics.SendPanicsExactly | ipc.c:53-70 | send panics if and only if nobody has the name, or its process is awake and its queue is full |
| Panics.StepPanics | trap_handle.c:42-81 | a trap panics if and only if it is a call with another number than the six, a send as above, or a call with a name that nobody has where the code does not go on from that |
| Panics.RunPanics | trap_handle.c:42-81 | in every state of every run, disciplined or not, a trap panics if and only if it is one of these |
| Messages.SendStarts | ipc.c:65-69 | in every state of a run, a send to a process that is awake leaves its message pending if and only if another process is ready, and its sender queued there only if and only if it was queued nowhere |
| Messages.StepMessage | ipc.c:53-163 | in every state of a run, over one trap a waiting message waits on, or is delivered with a0-a2, a4, a5 as sent and the sender's name in a3, if and only if the trap is not a send to its sender, not a wakeup of it, and not a recv whose first queued name is the sender's in another slot |
| Messages.MessageFate | ipc.c:53-163 | in every run, wherever else its sender is queued, a message waits until one recv delivers it if and only if, until then, no trap is one of these three |
| Messages.SoleIsSpared | ipc.c:78-94 | while the sender's name is in no other slot, a message that nobody aims at is spared: no recv takes it elsewhere |
| Messages.SurvivesMeaning | ipc.c:53-153 | surviving means to wait in every state up to the end or up to the trap that delivers |
| Messages.Delivery | ipc.c:53-94 | in every run, the same for a message from the send on, if another process was ready; if its sender was queued nowhere, it is enough that nobody sends to the sender or wakes it; the receiver gets exactly what the sender trapped with |
| Messages.DisciplinedDelivery | ipc.c:53-94 | in a disciplined run every send to a process that is awake waits until one recv delivers it |
| Fairness.RecvTakesLower | ipc.c:78-94 | while a message waits in slot k, a recv of its receiver takes a name from a slot not above k, and the wait goes on if and only if that is another name than the sender's |
| Fairness.StepLow | ipc.c:188-211 | over one trap, a recv of the receiver uses up a name below the message, and only a send to the receiver can add one |
| Fairness.BoundedOvertaking | ipc.c:188-211 | in every run, while a message waits in slot k its receiver does at most k recvs more than it is sent to meanwhile |
| Fairness.Starvation | ipc.c:188-211 | that is all there is: for every n a disciplined run from boot in which a message waits while its receiver receives n times |
| Messages.OverwrittenMessage | ipc.c:59-64 | a run from boot, of three traps, in which a message on its way is overwritten by a send to its sender |
| Messages.MisdeliveredMessage | ipc.c:78-94 | that run, continued by two traps: the overwritten sender's old name makes another process receive its next message, though nobody sent to the sender or woke it meanwhile |
| IpcBuffers.FindName | ipc.c:168-176 | the search on names in physical memory finds the first process of that name; it touches no missing ipc block if the name is registered |
| IpcBuffers.IpcBufCpy | ipc.c:100-114 | the destination's ipc page becomes the first size bytes of the source's, then zeros; the source's is cleared; no translation and no other page changes |
| IpcBuffers.Buf2IpcCpy | ipc.c:120-137 | the destination's ipc page becomes the source process's bytes at [va, va+size) as read through its page table, then zeros; the source's ipc page is cleared; nothing happens if va has no user mapping |
| IpcBuffers.WriteIpcPage | ipc.c:111-113 | writing an ipc page disturbs no tree, no free page and no other process |
| IpcBuffers.BornAttached | process_manager.c:86-137 | processes as born are in the state the buffer calls require |
| Ustar.Strcmp | common.c:163-171 | zero if and only if the strings are equal, else the difference at the first place where they differ |
| Ustar.Oct2Int | bootstrap.c:50-59 | the value of the longest prefix of octal digits, without overflow for values that fit an int |
| Ustar.FieldInverse | bootstrap.c:50-59 | oct2int reads back what the octal writer put in a size field, whatever byte but a digit 0 to 7 ends the field |
| Ustar.AtMember | bootstrap.c:13-32 | at every member of a written archive the reader sees the name, the type, the size and the data that were written |
| Ustar.NextHeader | bootstrap.c:69-87 | the reader stays within the archive and stops at the trailer only |
| Ustar.FindBinary | bootstrap.c:63-90 | for every written archive: the data of the first regular member with the wanted name, or null if and only if there is none |

## Left out

- SBI calls, the UART, CSR access, the PLIC, the timer and all assembly (HAL.c, PLIC.c, timer.c, the `.S` files): hardware effects; `switch_context` is the change of `current`.
- Nested interrupts: `usertrap` turns interrupts on during a call and `kerneltrap` may then yield (trap_handle.c:20-41, 65); here a trap is atomic.
- Panics are preconditions of the memory methods and the result `Panic` (or false) of the process machine; what `panic` prints is not modelled.
- The branches of `proc_born` after a failed `mappages` (process_manager.c:98-120), which free the table and then carry on: births need ten free pages, `kvmmake` 68.
- Fields of `struct process` that only assembly reads or writes (the saved kernel context but for `sp`), and the trapframe words other than epc, sp and a0-a7.
- Vm.Walk: requires va below MAXVA; the source panics otherwise.
- Vm.MapPages: requires an aligned, non-empty, unmapped range below MAXVA and a permission word of flag bits with R, W or X set; the source panics on the first four, and without R, W and X the entry would be taken for a table.
- Vm.UvmUnmap: a page is freed only as the frame of its mapping. A held page can be adopted first (`Ownership.AdoptMapped`); what stays outside is freeing a page that is free, a table, below `end`, mapped twice in the range, or another mapping's frame.
- Vm.UvmDealloc: the same as for Vm.UvmUnmap.
- Vm.UvmAlloc: requires the new range to be unmapped and newsz to be at most MAXVA; otherwise the source panics on a remapped page or a too large address.
- Vm.UvmCopy: requires every parent page below sz to be mapped to memory that is neither free nor a table, no page below sz to be mapped in both trees (the source panics on a remap), and what the child maps there to be its own frames, since the failure path frees them.
- Vm.UvmFree: requires every page the tree maps to be its own frame, adopted if need be, and below the size; otherwise `freewalk` panics or pages of others are freed.
- IpcBuffers.IpcBufCpy: sizes up to one page; a longer copy runs into whatever page follows.
- IpcBuffers.Buf2IpcCpy: ranges within one page, in memory that exists; a longer copy runs into whatever page follows. The search does not model a name that no process has while slots are unused, which dereferences null.
- Boot.BootKernel: starts from memory with the archive in it, any other contents, and the process table blank; how the loader put it there, the timer and interrupt setup of `main`, and turning paging on are left out.
- Boot.InitServers: takes the archive's bytes as a value, required to be the bytes in memory; the reader does not load them one by one.
- Ustar.Oct2Int: requires a value that fits the C int; a larger one overflows it.
- Ustar.FindBinary: archives as the writer makes them (names under 100 bytes, sizes below 2^31, a trailer); the source does not check others either.
- Process.Step: the saved program counter, which a call advances by 4 (trap_handle.c:64), is not a field of the slot.
- Process.BufCopy: the table side of the two buffer calls says only whether their lookups fault; the copies themselves are in `IpcBuffers`, and `Boot.BuffersKeepSystem` shows that they change nothing the process machine looks at.
- Runs.BoundedWaiting: counts traps that yield; a process that never traps is ended by the timer, which is not modelled.
- Sv39.HardwareAgrees: access permissions, A and D bits, the TLB and the checks on physical memory are not part of the translation.
- `uvmclear`, `printf`, `printint`, `init_process` (never called), the commented-out half of vm.c, the VFS, the shell and the other user programs, the syscall wrappers: I/O, thin wrappers or unused code.
- The kernel's static data is not in the modelled memory; `proc[]` is an array beside it.
