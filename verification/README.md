# Verified model of the JOS kernel and its user-level libraries

JOS is a small multiprocessor exokernel: the kernel multiplexes pages, page tables and
environments, and user-level libraries build fork, pipes, a heap and a file system on top.
This project models the parts that are hardest to get right and proves what they keep over
whole runs.

| files | what they model |
|---|---|
| `FreeList`, `Paging`, `PagingSteps`, `PageMemory` | physical pages, reference counts, two-level page tables, building and tearing down address spaces, the page system calls |
| `PageLaws`, `PageEffects` | laws of runs of page operations: isolation, no lost page, where rights come from, what pages hold |
| `EnvTable`, `EnvSteps`, `Traps` | environments and their ids, several CPUs, the scheduler, message passing, and what each trap does, over snapshots |
| `TrapRuns`, `TrapLaws`, `TrapEffects`, `IpcLaws` | runs of traps on any number of CPUs, and their laws |
| `Kernel` | the same as code that updates one machine |
| `BigLock` | the kernel lock as single atomic steps, and the atomicity of traps that it gives |
| `CopyOnWrite`, `CowSteps`, `CowRefinement`, `CowLaws`, `ForkLib` | copy-on-write fork against an eager fork, and word by word |
| `DiskBlocks`, `FileMap`, `FileNeeds`, `FileSteps`, `FileServer` | the block map, bitmap, reading, writing and truncation of files |
| `FileLaws` | laws of runs of file operations: contents and conservation |
| `BlockCache` | the write-back block cache and durability |
| `PipeRing`, `PipeClose` | the pipe's ring buffer, and end-of-pipe detection by reference counts |
| `Malloc`, `HeapLaws` | the user-level heap, and laws of runs of malloc and free |
| `StabSearch` | the binary search over debugging entries |
| `Basics` | types and constants that several of these share |

Most modules follow one pattern. A class holds the state the C code updates in place, with
methods for its functions. A ghost function gives that state as a value, a *snapshot*. The
invariant, the effect of each step and the laws between steps are stated over snapshots, and
each method is tied to them. A method `Run` takes a sequence of operations and is proved to
go through a sequence of snapshots in which each follows from the one before by its operation;
the laws of runs are about all such sequences.

Main results:

- Pages: in every run every `pp_ref` equals the number of page table entries, directory entries
  and directories that name the page, and the free list holds exactly the unreferenced pages
  (`PageMemory.Pages.Run`). An environment that shares no page keeps every mapping and every
  word of its memory, whatever the others do (`PageLaws.Isolation`). Once all environments are
  gone every page is free again (`PageLaws.NothingLeaks`). A page can be written only if it could
  be at the start or was allocated so since (`PageEffects.RightsAreGranted`), and holds at each
  word what was last stored there (`PageEffects.PagesHoldLastStore`).
- Traps: every state of every run, on any number of CPUs, is safe (`TrapRuns.RunSafe`): an
  environment is running exactly if one CPU has it as current. A zombie stays put until its own
  CPU traps and is freed then (`TrapLaws.ZombieFate`). A runnable environment has been
  picked once a CPU has had as many ticks as its circular distance to it
  (`TrapEffects.TurnComes`), and none is ever forgotten (`TrapEffects.NobodyIsForgotten`). An id never names a
  later environment within 2^19 - 1 allocations of the slot (`TrapLaws.StaleIds`). The lock makes
  each trap one atomic step in every interleaving of its stores (`BigLock.TrapsAreAtomic`).
- Messages: in every run each delivery is the work of exactly one send, by the environment and
  with the value recorded, and puts the sender's page where the matching receive asked for it
  (`IpcLaws.DeliveryIsOneSend`). The message stays until the next receive
  (`IpcLaws.MessageStays`), and every receive that is over got exactly one (`IpcLaws.RunPairs`).
  From call to call: `IpcLaws.MessageArrives`.
- Fork: copy-on-write refines eager copying for every interleaving of forks, stores, faults,
  allocations and exits (`CowRefinement.LazyRefinesEager`), and every page holds at each word the
  value last stored there (`CowLaws.PagesHoldLastStore`).
- Files: in every run a file holds the bytes last written to it, until truncation cuts them off
  (`FileLaws.FilesHoldWhatWasWritten`); no two block pointers name one block; and blocks are
  conserved if and only if no resize frees an indirect block that names blocks beyond its
  file's size (`FileLaws.ConservedExactly`, `FileLaws.InsideConserves`). An operation panics if
  and only if its range lacks more blocks than are free (`FileServer.Server.Perform`). A block
  survives a crash as its last flush found it (`BlockCache.LastFlushSurvives`).
- Pipes: in every interleaving the pipe delivers what was sent, in order
  (`PipeRing.RingIsFifo`), and while descriptors are duplicated, closed and lost, an answer
  "closed" is never wrong (`PipeClose.ClosedIsSafe`).
- Heap: in every run exactly the granted and not yet freed chunks are live, in place and apart
  (`HeapLaws.LiveExactly`, `HeapLaws.ChunksStay`), and what leaks, leaks for good and is
  counted exactly (`HeapLaws.LeaksAreForGood`, `HeapLaws.LeftOver`).

Where a property one would expect is false of the code, the model keeps the code and proves
the exact condition under which the property holds, with a concrete failing state where the
condition alone does not show one:

- `sys_env_set_status` stores over any status, also that of a child running on another CPU or
  waiting for a message (`EnvSteps.SetStatusExact`, `EnvSteps.UnguardedCalls`,
  `TrapRuns.UnguardedBreaks`).
- `env_destroy` of a zombie frees an environment that a CPU still runs
  (`EnvSteps.FreeStepExact`, `EnvSteps.UnguardedCalls`, `TrapRuns.UnguardedBreaks`).
- Environment ids come back after 2^19 - 1 allocations of a slot (`EnvTable.IdsDistinct`,
  `EnvTable.IdsRepeat`).
- `page_insert` counts in 16 bits (`PageMemory.InsertExact`, `PageLaws.WrapExample`).
- Truncation that frees an indirect block loses the blocks it names beyond the file's size
  (`FileSteps.DropIndirectExact`, `FileServer.Server.FileTruncateBlocks`, `FileServer.Server.Leak`,
  `FileServer.LeakExample`).
- A write past the largest file size reports an error after storing what fits and leaves the
  size beyond the maximum (`FileServer.Server.FileWrite`).
- `malloc` leaks a page whenever a fresh run has a whole number of pages, returns too little
  when rounding the size wraps, and lets its search run off the top of the heap
  (`Malloc.LostExactly`, `Malloc.Round4Enough`, `Malloc.Arena.Malloc`, `Malloc.AstrayExample`).
- `_pipeisclosed` can take a pipe for closed while a fork has mapped descriptor pages for its
  child but not yet the data pages (`PipeClose.AnswerMeans`, `PipeClose.ForkMisleads`).
- `stab_binsearch` raises the address after an exact match, so an entry one byte further
  misleads it, and it reports "not found" only when there is no entry of the type at all
  (`StabSearch.StabBinsearch`, `StabSearch.MisledExample`).

Where code and comments disagree the model follows the code:

- The comments of `sys_page_map` and `sys_ipc_try_send` promise `-E_INVAL`, `-E_BAD_ENV` and
  `-E_NO_MEM` in cases where the code panics.
- The comment of `file_get_block` promises `-E_NO_DISK` on a full disk; the code hands the
  error number on as a block number and `diskaddr` panics.
- The comment of `stab_binsearch` promises a left end above the right end whenever no entry
  contains the address.

Page permission words are modelled as the set of their bits. Clocks, devices and memory
pressure enter as parameters: whether the allocator can serve a request, and how many pages
the kernel still has for the heap.

## Model

| member | source | states |
|---|---|---|
| FreeList.ChainPop | lab/kern/pmap.c:360-378 | taking the head off a linked free list leaves the list of the remaining nodes |
| FreeList.ChainPush | lab/kern/pmap.c:385-398 | pushing a node that is not on the list gives the list with that node first |
| FreeList.ChainUnique | lab/kern/pmap.c:360-378 | a head and its links determine the list of free nodes |
| Paging.OneSiteChange | lab/kern/pmap.c:506-521 | changing what one word of one page table names moves one reference and no other |
| Paging.NamedIsCounted | lab/kern/pmap.c:434-455 | whatever a page table word, directory word or env_pgdir names has a positive count and is not reserved |
| Paging.RoleIsCounted | lab/kern/pmap.c:434-455 | a page in use as a page table or directory has a positive count |
| PagingSteps.TakeStep | lab/kern/pmap.c:360-378 | page_alloc of a page keeps the invariant and every mapping of every environment |
| PagingSteps.GiveBackStep | lab/kern/pmap.c:385-398 | page_free of a page in hand keeps the invariant |
| PagingSteps.FreeIsUnused | lab/kern/pmap.c:385-398 | a page on the free list is mapped nowhere and is no page table or directory |
| PagingSteps.DataWriteStep | lab/kern/pmap.c:360-378 | writing a page that is no page table or directory changes no walk of any environment |
| PagingSteps.PinStep | lab/kern/pmap.c:506-521 | counting a reference ahead of the entry that will hold it keeps the counts accounted for |
| PagingSteps.PinExact | lab/kern/pmap.c:513-513 | the 16-bit increment keeps the invariant if and only if the count is below 65535 |
| PagingSteps.MapStep | lab/kern/pmap.c:518-518 | writing the entry for a counted reference changes that one mapping and keeps the invariant |
| PagingSteps.UnmapStep | lab/kern/pmap.c:563-573 | page_remove clears that one mapping, keeps every other, and keeps counts and free list exact |
| PagingSteps.NewTableStep | lab/kern/pmap.c:434-455 | a new page table changes one directory entry and no mapping, and its page counts 1 |
| PagingSteps.PdeFlagsStep | lab/kern/pmap.c:519-519 | adding permission bits to a directory entry changes no mapping and no count |
| PagingSteps.DropTableStep | lab/kern/env.c:451-463 | dropping a page table whose entries are all gone changes no mapping and frees its page |
| PagingSteps.NewDirStep | lab/kern/env.c:168-205 | a directory with no user entry gives its environment an empty address space and changes no other |
| PagingSteps.DropDirStep | lab/kern/env.c:465-474 | dropping an empty directory changes no mapping and frees its page |
| PageMemory.PageInit | lab/kern/pmap.c:301-345 | the free list is every page but page 0, the hole with the kernel and its early allocations, and the page the other CPUs start in; exactly the others have a count of 1 |
| PageMemory.Pages.constructor | lab/kern/pmap.c:301-345 | the machine after boot is valid, with the pages page_init frees and no environment |
| PageMemory.Pages.BootTable | lab/kern/pmap.c:469-478 | the page that boot_map_region's walk takes for a page table of the kernel is cleared, counts 1 and leaves the pool of user pages; no mapping of an environment changes |
| PageMemory.Pages.PageAlloc | lab/kern/pmap.c:360-378 | fails exactly when the free list is empty, otherwise hands out its head, cleared on request, and nothing else changes |
| PageMemory.Pages.PageFree | lab/kern/pmap.c:385-398 | the page becomes the head of the free list; its panics are the preconditions |
| PageMemory.Pages.PageDecref | lab/kern/pmap.c:405-409 | the 16-bit count falls by one and the page is freed exactly when it reaches 0 |
| PageMemory.Pages.PgdirWalk | lab/kern/pmap.c:434-455 | finds the page table word of a page; creates a table exactly when it is missing, wanted and there is a free page, with no mapping changed |
| PageMemory.Pages.PageLookup | lab/kern/pmap.c:535-545 | the page the flat view maps there, and where its entry lies |
| PageMemory.Pages.PageRemove | lab/kern/pmap.c:563-573 | unmaps one page and drops its reference, whatever the counts; keeps the invariant |
| PageMemory.Pages.CountAndClear | lab/kern/pmap.c:513-517 | counting the new reference before removing the old mapping, in 16-bit arithmetic, also when both are the same page |
| PageMemory.Pages.InsertEntry | lab/kern/pmap.c:513-520 | the stores of page_insert amount to one new mapping; the machine is valid afterwards if and only if the count did not lose track |
| PageMemory.Pages.PageInsert | lab/kern/pmap.c:506-521 | fails exactly when a page table is missing and no page is free, then changing nothing; otherwise one mapping changes, counts move as `InsertCounts` says, no data page is written and the directory entry grants the permissions; valid afterwards if and only if the count had room or the same page was mapped there |
| PageMemory.InsertExact | lab/kern/pmap.c:506-521 | page_insert keeps the invariant if and only if the 16-bit count has room or the same page is mapped there again |
| PageLaws.WrapExample | lab/kern/pmap.c:513-513 | a concrete machine, one page mapped 65535 times, in which one more page_insert breaks the invariant |
| PageMemory.ReinsertKeepsCounts | lab/kern/pmap.c:506-521 | mapping a page again where it already is leaves every count as it was |
| PageMemory.FlatUpdate | lab/kern/pmap.c:506-521 | a change of one mapping is a one-key update of one environment's flat map and of no other |
| PageMemory.FlatRights | lab/kern/pmap.c:434-455 | the flat entry alone decides what the hardware lets a user write, because directory entries grant everything |
| PageMemory.Pages.EnvSetupVm | lab/kern/env.c:168-205 | fails exactly without a free page; otherwise the new directory holds the kernel's words with UVPT mapping itself, and no mapping changes |
| PageMemory.Pages.EnvFreeTable | lab/kern/env.c:441-463 | one directory entry's pages and its page table are gone, everything else is as it was |
| PageMemory.Pages.EnvFree | lab/kern/env.c:427-474 | each count falls by exactly what the environment held, exactly the pages nobody else refers to become free, all its tables and its directory among them, and other environments keep all mappings and data |
| PageMemory.TableRefs | lab/kern/env.c:427-474 | a page table is referred to by its one directory entry and nothing else |
| PageMemory.DirRefs | lab/kern/env.c:427-474 | a directory is referred to by its own environment and nothing else |
| PageMemory.Pages.SysPageAlloc | lab/kern/syscall.c:199-243 | succeeds exactly when the arguments are good and there are pages for it; then a zeroed page is mapped there and nothing else changes; a failure changes no mapping and no count |
| PageMemory.Pages.SysPageMap | lab/kern/syscall.c:262-300 | exact outcome; on success exactly one mapping changes, with no right to write that the source lacks; valid afterwards if and only if no count wrapped |
| PageMemory.Pages.SysPageUnmap | lab/kern/syscall.c:310-324 | the exact result code, and on success that page and no other is unmapped |
| PageMemory.Pages.UserStore | lab/kern/pmap.c:434-455 | a user store succeeds exactly when both levels permit it, writes one word of one page, and never writes a page table |
| PageMemory.Pages.Perform | lab/kern/syscall.c:199-324 | one operation of a run has the effect `Did` states, under the exact condition under which it has one |
| PageMemory.Pages.Run | lab/kern/pmap.c:506-573 | the run goes through states in which each operation has its effect, every count is exact and the free list is exact; it ends early only at a mapping that would wrap a count |
| PageLaws.StepIsolated | lab/kern/syscall.c:199-324 | an operation that does not involve an environment that shares no page changes nothing for it |
| PageLaws.Isolation | lab/kern/syscall.c:199-324 | in every run an environment that shares no page, and that no operation involves, keeps every mapping and every word of its memory |
| PageLaws.NothingLeaks | lab/kern/env.c:427-474 | after every run that leaves no environment, every page the kernel did not keep is on the free list |
| PageEffects.AllocGives | lab/kern/syscall.c:199-243 | with two free pages and good arguments an allocation maps a zero page with the rights asked for; bad arguments change no mapping |
| PageEffects.MapGives | lab/kern/syscall.c:262-300 | a mapped page is mapped again with the rights asked for, unless that would give a right to write the source lacks; then, and without a page, nothing happens |
| PageEffects.BadArguments | lab/kern/syscall.c:262-324 | bad addresses, bad rights and dead environments change nothing |
| PageEffects.UnmapTakes | lab/kern/syscall.c:310-324 | the page is no longer mapped |
| PageEffects.FreeTakesAll | lab/kern/env.c:427-474 | a freed environment maps nothing and nobody else lost a mapping |
| PageEffects.NewEnvGives | lab/kern/env.c:168-205 | a new environment has no user page, the kernel's words above UTOP, and its own directory read-only at UVPT |
| PageEffects.StoreLands | lab/kern/pmap.c:434-455 | a user's store lands exactly if the mapping is present, writable and for users |
| PageEffects.OnlyAtLimit | lab/kern/pmap.c:506-525 | a run ends early only at a page with 65535 references |
| PageEffects.StepMapping | lab/kern/syscall.c:199-324 | a mapping was there before, or is newly allocated, or comes from one that existed, with no right to write that it lacked |
| PageEffects.StepRights | lab/kern/syscall.c:291-294 | a page that can be written after an operation could be before, or was free and is allocated so |
| PageEffects.RightsAreGranted | lab/kern/syscall.c:199-324 | in every run a page that can be written could be at the start or was allocated with that right since |
| PageEffects.StepWords | lab/kern/syscall.c:199-324 | an operation changes a word of a mapped page only by a store to it, or by allocating the page as zeros |
| PageEffects.PagesHoldLastStore | lab/kern/syscall.c:199-324 | in every run, and whoever shares it, a mapped page holds at each word what was last stored there, or zero if nothing was since it was allocated |
| EnvTable.NextIdIs | lab/kern/env.c:231-234 | one env_alloc takes an id to the next generation, and the last generation to the first, in 32-bit arithmetic |
| EnvTable.IdAfterIs | lab/kern/env.c:231-234 | the id of a slot after n allocations, in closed form |
| EnvTable.IdBounds | lab/kern/env.c:231-234 | ids are positive and carry their slot number |
| EnvTable.IdsDistinct | lab/kern/env.c:231-234 | an id does not return to its slot for the next 2^19 - 2 allocations |
| EnvTable.IdsRepeat | lab/kern/env.c:231-234 | it does return with the next one |
| EnvTable.ExactlyOneCpu | lab/kern/env.c:530-564 | whenever the lock is free, an environment is running or dying if and only if some CPU has it as current, and then one CPU only |
| EnvTable.RendezvousStep | lab/kern/syscall.c:365-407 | appending a block after a finished receive, or a delivery to a blocked receiver, keeps the history a rendezvous |
| EnvSteps.RunStep | lab/kern/env.c:530-564 | switching to a runnable environment restores what other CPUs rely on |
| EnvSteps.HaltStep | lab/kern/sched.c:58-99 | halting with nothing running restores what other CPUs rely on |
| EnvSteps.FreeStepExact | lab/kern/env.c:482-498 | freeing an environment that is not current keeps the invariant if and only if no CPU runs it |
| EnvSteps.FreeCurrentStep | lab/kern/trap.c:345-349 | freeing and forgetting the current environment keeps the invariant |
| EnvSteps.MarkDyingStep | lab/kern/env.c:487-490 | marking an environment another CPU runs as dying keeps the invariant |
| EnvSteps.AllocStep | lab/kern/env.c:216-280 | taking the head of the environment free list keeps the invariant |
| EnvSteps.RemapStep | lab/kern/syscall.c:199-324 | changing an address space keeps the invariant |
| EnvSteps.SetStatusExact | lab/kern/syscall.c:109-133 | storing a status keeps the invariant if and only if no other CPU runs the target and a waiting receiver is not made runnable |
| EnvSteps.UnguardedCalls | lab/kern/syscall.c:109-133 | concrete states in which setting the status of a running child, making a waiting child runnable, and destroying a zombie break the invariant |
| EnvSteps.BlockStep | lab/kern/syscall.c:420-433 | blocking the caller keeps the invariant and the rendezvous |
| EnvSteps.DeliverStep | lab/kern/syscall.c:365-407 | delivering to a blocked receiver keeps the invariant and the rendezvous |
| Kernel.Machine.constructor | lab/kern/env.c:118-134 | exactly the state with all slots free and on the free list in order |
| Kernel.EnvLinks | lab/kern/env.c:118-134 | the links built backwards form the chain 0, 1, 2, ... |
| Traps.Target | lab/kern/env.c:76-109 | 0 names the caller; another id names a live environment that has it and that the caller may manipulate, and names nothing only if there is none |
| Kernel.Machine.Envid2Env | lab/kern/env.c:76-109 | the one live environment with this id that the caller may manipulate, never a free slot |
| TrapLaws.LiveIdResolves | lab/kern/env.c:76-109 | the id of a live environment names exactly that environment |
| TrapLaws.DeadIdResolvesToNothing | lab/kern/env.c:76-109 | the id of a dead environment names nothing until its slot has been allocated 2^19 - 1 more times |
| TrapLaws.StaleIds | lab/kern/env.c:76-109 | in every run an id of an environment that is gone names nothing to any caller, within that bound |
| Kernel.Machine.EnvRun | lab/kern/env.c:530-564 | the old environment becomes runnable if it was running and the new one runs; the machine is safe again if it may run here |
| Kernel.NextRunnable | lab/kern/sched.c:33-39 | the first runnable environment in circular order, or none exactly when there is none |
| Kernel.Machine.SchedYield | lab/kern/sched.c:12-52 | the next runnable environment in circular order, else the CPU's own, else halt, else stop |
| Kernel.Machine.SchedHalt | lab/kern/sched.c:58-99 | stops for good exactly when no environment is running or dying; otherwise the CPU halts with no environment |
| TrapLaws.YieldStep | lab/kern/sched.c:12-52 | a call of sched_yield picks a given runnable environment or brings its CPU's place in the circle closer to it |
| TrapLaws.RoundRobin | lab/kern/sched.c:12-52 | in every run of all CPUs, while an environment stays runnable, a CPU that keeps an environment makes fewer calls of sched_yield than its circular distance to it |
| TrapEffects.TickSchedules | lab/kern/trap.c:263-267 | a timer interrupt or yield gives the CPU to the next runnable environment in circular order and leaves the old one runnable; with none the old one goes on |
| TrapEffects.IdleSchedules | lab/kern/sched.c:12-52 | a CPU without an environment takes the first runnable one, and halts exactly without any |
| TrapEffects.StopsOnly | lab/kern/sched.c:58-73 | the machine stops only when no environment is runnable, running or dying, or at a send to nobody or of a page that cannot be given |
| TrapEffects.TickStep | lab/kern/sched.c:33-39 | a trap that leaves its CPU an environment never moves it past a runnable one, and a tick moves it closer |
| TrapEffects.TicksAreFew | lab/kern/sched.c:12-52 | in every run a CPU has fewer ticks than its circular distance to an environment that stays runnable |
| TrapEffects.TurnComes | lab/kern/sched.c:12-52 | in every run an environment that can run, and that nothing blocks, stops or destroys, has been picked once one CPU had as many ticks as its circular distance |
| TrapEffects.StepReady | lab/kern/trap.c:316-373 | a trap that does not block, stop or destroy an environment leaves it able to run |
| TrapEffects.NobodyIsForgotten | lab/kern/trap.c:316-373 | the same over whole runs |
| TrapEffects.InadmissibleOnly | lab/kern/syscall.c:55-133 | the traps that runs leave out: a status stored over a running or waiting environment, a zombie destroyed, an unmapped page sent to one that waits |
| TrapEffects.ReturnResumes | lab/kern/trap.c:362-372 | a trap that changes nothing returns to its environment |
| TrapEffects.RecvWaits | lab/kern/syscall.c:420-433 | the caller waits with exactly the address it named and gives up the CPU; with a misaligned address it goes on |
| TrapEffects.ExoforkMakes | lab/kern/syscall.c:78-99 | a child of the caller in the first free slot, not runnable, with an empty address space; fails only without slot or memory |
| TrapEffects.RemapChanges | lab/kern/syscall.c:199-324 | a page call changes the address space of the caller or of its child, and no other |
| TrapEffects.SetStatusStores | lab/kern/syscall.c:109-133 | one of two statuses is stored in the permitted target, and nothing happens otherwise |
| TrapEffects.DestroyEnds | lab/kern/env.c:482-498 | the permitted target is free and heads the free list, or is a zombie if another CPU runs it |
| TrapEffects.FaultEnds | lab/kern/trap.c:303-312 | an unhandled fault frees the environment |
| TrapEffects.CreatedAre | lab/kern/init.c:65-79 | i386_init's environments are runnable, without a parent, in the first free slots, and nothing else changes |
| Kernel.Machine.EnvAlloc | lab/kern/env.c:216-280 | fails exactly without a free slot or memory; otherwise the head slot with its next id, and nothing else changes |
| Kernel.Machine.EnvFree | lab/kern/env.c:468-474 | the slot is free and heads the free list |
| Kernel.Machine.EnvDestroy | lab/kern/env.c:482-498 | a zombie if another CPU runs it, else freed; destroying oneself ends in the scheduler; the invariant is kept exactly if the target was no zombie |
| Kernel.Machine.SysExofork | lab/kern/syscall.c:78-99 | the child exists, is not runnable, is the caller's child, and its id is returned |
| Kernel.Machine.SysEnvDestroy | lab/kern/syscall.c:55-64 | destroys the target when id and permission check out; the invariant is kept if and only if that is no zombie |
| Kernel.Machine.SysPage | lab/kern/syscall.c:199-324 | a page system call can change the address space of the environment its id names and permits, and nothing else in the table; the invariant is kept |
| Kernel.Machine.SysEnvSetStatus | lab/kern/syscall.c:109-133 | stores one of two statuses in the target, exactly when id and permission check out; the invariant is kept if and only if the call is guarded |
| Kernel.Machine.SysIpcTrySend | lab/kern/syscall.c:365-407 | the exact outcome; on success the receiver has value, sender and, if offered and wanted, the page, and is runnable; otherwise nothing changes |
| Kernel.Machine.SysIpcRecv | lab/kern/syscall.c:420-433 | fails exactly for a misaligned address; otherwise the caller is blocked and the CPU schedules |
| Kernel.Machine.TrapUser | lab/kern/trap.c:316-373 | a zombie is reaped; otherwise the handler's effect, then resume exactly when the environment still runs and did not give up the CPU, else schedule; safe afterwards if and only if the call was guarded |
| Kernel.Machine.Dispatch | lab/kern/trap.c:238-313 | the effect of each cause of a trap, which handlers schedule by themselves, and that the invariant is kept if and only if the call was guarded |
| Kernel.Machine.Syscall | lab/kern/syscall.c:494-545 | the effect of each system call that changes the environment table, and when it keeps the invariant |
| Kernel.Machine.TrapIdle | lab/kern/trap.c:330-334 | an interrupt on a halted or starting CPU schedules |
| Kernel.Machine.Boot | lab/kern/init.c:25-89 | stops if there are too few slots or no memory for the environments; otherwise the machine is as the scheduler leaves it, stopped or not, after exactly that many were created |
| TrapLaws.ZombieReaped | lab/kern/trap.c:345-349 | a zombie is freed, and current nowhere, after its own CPU's next trap, whatever the trap was for |
| TrapLaws.ZombieKept | lab/kern/env.c:482-498 | a trap or wake-up of any other CPU leaves it a zombie on its CPU |
| TrapLaws.ZombieFate | lab/kern/env.c:482-498 | in every run a zombie stays one until its own CPU traps, and is free right after |
| Kernel.Machine.Run | lab/kern/trap.c:316-373 | the run goes through states in which each trap has its effect; it ends early only at a trap that is not admissible, or because its last trap stopped the machine; otherwise the last state is safe |
| TrapRuns.StepSafe | lab/kern/trap.c:316-373 | one trap, or wake-up, leads from a safe state to a safe state |
| TrapRuns.RunSafe | lab/kern/trap.c:316-373 | every state of every run, on any number of CPUs, is safe |
| TrapRuns.InitialIsSafe | lab/kern/env.c:118-134 | the state env_init makes is safe |
| TrapRuns.UnguardedBreaks | lab/kern/syscall.c:55-133 | a trap with an unguarded call leaves a state that is not safe, so the guards are exact |
| TrapLaws.RunGrows | lab/kern/env.c:216-280 | in every run allocation counts only grow and the history of messages is only added to |
| IpcLaws.SendArrives | lab/kern/syscall.c:365-407 | after a successful send the receiver has the sender's id, the value and, if offered and wanted, the sender's page at its address with the permissions given; no other mapping of any environment changed |
| IpcLaws.StepEvents | lab/kern/syscall.c:365-433 | a trap adds at most one event to the history, and a delivery if and only if it is a successful send |
| IpcLaws.SendsWhen | lab/kern/syscall.c:365-407 | a send succeeds if and only if the receiver waits and a page offered is aligned, with rights a user may give and the sender has, and can be mapped if wanted |
| IpcLaws.SendWakes | lab/kern/syscall.c:400-405 | the receiver can run again and the sender goes on |
| IpcLaws.NotWaiting | lab/kern/syscall.c:376-377 | a send to an environment that does not wait changes nothing |
| IpcLaws.StepReceives | lab/kern/syscall.c:420-433 | a trap adds a receive to the history if and only if it is one, with its environment and its address |
| IpcLaws.ReceiveIsOneCall | lab/kern/syscall.c:420-433 | in every run each receive comes from exactly one system call, by that environment for that address |
| IpcLaws.MessageArrives | lab/kern/syscall.c:365-433 | in every run from boot each message that arrives was sent by one call and asked for by an earlier one of the receiver, and its page is mapped at the address that call named, writable only if the sender could write it |
| IpcLaws.DeliveryIsOneSend | lab/kern/syscall.c:365-407 | in every run each delivery comes from exactly one step, a send by that environment with that value; it answers the receiver's last receive, and the page offered is mapped at the address that receive named |
| IpcLaws.MessageStays | lab/kern/syscall.c:400-403 | in every run sender, value and permissions of a delivery stay until the environment receives again or its slot is given to another |
| IpcLaws.AtMostOne | lab/kern/syscall.c:376-377 | no receive is answered twice |
| IpcLaws.RunPairs | lab/kern/syscall.c:365-433 | in every run a receive is answered by at most one delivery, by exactly one if the environment receives again, and the latest one by exactly one if and only if the environment no longer waits |
| BigLock.StepLock | lab/kern/spinlock.c:61-120 | each atomic step keeps mutual exclusion, the holder field, and the lock word, and no debugging check panics |
| BigLock.StepData | lab/kern/spinlock.c:61-120 | each step keeps the releases a run of traps, and the data as the latest of them left it: now, or when the CPU in the critical section entered |
| BigLock.TrapsAreAtomic | lab/kern/spinlock.c:61-120 | CPUs that each only make one trap of the data they found on entering do, in every interleaving of lock steps and stores, one run of atomic traps on the shared data; whenever the lock is free the data is its last state, and safe |
| BigLock.FreeLockIsTaken | lab/kern/spinlock.c:61-79 | a CPU that wants the free lock has it after three steps |
| BigLock.HeldLockIsNotTaken | lab/kern/spinlock.c:71-72 | trying for a held lock changes nothing |
| BigLock.LockIsReleased | lab/kern/spinlock.c:83-120 | a CPU that is done gives the lock back in two steps |
| BigLock.InitialIsSafe | lab/kern/spinlock.c:47-54 | the free lock over safe data satisfies the invariant |
| CowSteps.DupWholeInv | lab/lib/fork.c:80-82 | mapping a shared or read-only page into the child keeps the invariant |
| CowSteps.DupHalfInv | lab/lib/fork.c:83-89 | mapping a page copy-on-write in the child, while the parent can still write it, keeps the invariant |
| CowSteps.DupSelfInv | lab/lib/fork.c:91-93 | remapping it in the parent keeps the invariant |
| CowSteps.StoreInv | lab/lib/fork.c:18-59 | a store through a writable mapping keeps the invariant |
| CowSteps.CopyInv | lab/lib/fork.c:45-52 | the first half of the fault handler keeps the invariant |
| CowSteps.RemapInv | lab/lib/fork.c:54-57 | moving the copy into place keeps the invariant |
| CowSteps.ExitInv | lab/kern/env.c:427-474 | an environment that dies in the middle of a fork or fault keeps the invariant for the rest |
| CowRefinement.StepRefines | lab/lib/fork.c:73-168 | every step of the lazy system is one step of the eager system or invisible |
| CowRefinement.LazyRefinesEager | lab/lib/fork.c:18-168 | every interleaved run of forks, stores, faults, allocations and exits has an eager run that ends in a state programs cannot tell apart |
| CowRefinement.ProgramsSeeTheSame | lab/lib/fork.c:18-168 | in related states the same pages exist with the same contents, and a page is writable eagerly exactly if it is writable or copy-on-write |
| CowLaws.StepHolds | lab/lib/fork.c:25-101 | each step changes the words programs find as a store, a new page or a copy for a child should, and faults change none |
| CowLaws.PagesHoldLastStore | lab/lib/fork.c:25-168 | in every run every visible page holds at each word the value last stored there, through forks, faults and remaps |
| CowLaws.AllocGives | lab/kern/syscall.c:199-243 | a new page is there, zeroed, writable and shared as asked for |
| CowLaws.LessIsGone | lab/kern/env.c:427-474 | unmapping and exit take exactly those pages away |
| CowRefinement.FreshStart | lab/lib/fork.c:120-168 | environments with pages of their own satisfy the invariant and look like the eager system |
| ForkLib.UserMemory.constructor | lab/lib/fork.c:120-168 | such environments are a valid start |
| ForkLib.UserMemory.Duppage | lab/lib/fork.c:73-101 | to programs, the page has been copied or shared into the child, and nothing else happened |
| ForkLib.UserMemory.Pgfault | lab/lib/fork.c:18-59 | the page is privately writable and programs see no difference |
| ForkLib.UserMemory.UserStore | lab/lib/fork.c:18-59 | allowed exactly if programs may write the page; then the word is in the page, all sharers and no others see it, and a copy-on-write page was copied first |
| ForkLib.UserMemory.MakeRunnable | lab/lib/fork.c:152-166 | the child gets a zeroed exception stack and becomes runnable |
| ForkLib.UserMemory.Fork | lab/lib/fork.c:120-168 | the child has every page of the parent with the same contents, shared pages in common and a fresh exception stack; nobody else sees a change |
| DiskBlocks.WordRoundTrip | lab/fs/fs.c:143-172 | a block pointer stored in an indirect block reads back, and no other pointer changes |
| DiskBlocks.SetBitChangesOne | lab/fs/fs.c:41-47 | a bitmap update changes the state of one block |
| FileMap.PointersDistinct | lab/fs/fs.c:143-201 | any two block pointers of any files name distinct blocks, in range, in use and not reserved |
| FileMap.SetNameChangesOne | lab/fs/fs.c:183-201 | storing a pointer changes that pointer alone, although indirect pointers lie in blocks |
| FileSteps.GiveStep | lab/fs/fs.c:183-201 | giving a free block to a file keeps the invariant and the number of blocks |
| FileSteps.GiveIndirectStep | lab/fs/fs.c:155-167 | a fresh indirect block keeps the invariant, the number of blocks and all other pointers |
| FileSteps.ReleaseStep | lab/fs/fs.c:421-433 | freeing a file block keeps the invariant and the number of blocks |
| FileSteps.DropIndirectExact | lab/fs/fs.c:445-460 | freeing the indirect block conserves blocks if and only if it holds no pointer |
| FileServer.Server.Leak | lab/fs/fs.c:445-471 | on every disk with two free blocks, in every file: one byte, a lookup of block NDIRECT, then size 0, and blocks are lost |
| FileServer.LeakExample | lab/fs/fs.c:445-471 | from a formatted disk with two usable blocks to one with fewer |
| FileSteps.WriteBlockStep | lab/fs/fs.c:395-416 | writing a data block changes the bytes of one block of one file and no pointer |
| FileServer.Server.constructor | lab/fs/fs.c:105-124 | a formatted file system satisfies the invariant |
| FileServer.Server.BlockIsFree | lab/fs/fs.c:30-37 | true exactly for an existing block whose bit says free |
| FileServer.Server.FreeBlock | lab/fs/fs.c:41-47 | exactly that bit is set; block 0 is a precondition as in the code |
| FileServer.Server.AllocBlock | lab/fs/fs.c:58-75 | the lowest free block, or failure exactly when none is free |
| FileServer.Server.FileBlockWalk | lab/fs/fs.c:143-172 | where a file block's pointer is, with the exact conditions of every outcome and an indirect block made only when asked for |
| FileServer.Server.FileGetBlock | lab/fs/fs.c:183-201 | the block, allocated if missing, with no other pointer or allocated byte changed; panics exactly when the disk lacks the blocks needed |
| FileServer.LookupFits | lab/fs/fs.c:183-201 | a lookup keeps every file within its size if and only if it asks for a block inside |
| FileNeeds.LacksStep | lab/fs/fs.c:183-201 | allocating one block of a range takes from the number of blocks the range lacks what the bitmap paid, the indirect block included |
| FileNeeds.LacksOne | lab/fs/fs.c:183-201 | the first block of a range lacks no more than the range, and as much if it is the only one |
| FileNeeds.NeedsStep | lab/fs/fs.c:377-384 | one turn of the read or write loop takes from the need of the remaining bytes what it allocates |
| FileServer.Server.FileRead | lab/fs/fs.c:366-387 | the file's bytes from the offset, all that were asked for or up to the end of the file, for every offset, count and size; panics if and only if they lack more blocks than are free, and otherwise allocates exactly those |
| FileServer.Server.StoreChunk | lab/fs/fs.c:407-412 | one turn of the write loop stores its bytes and keeps all others; panics if and only if its block lacks more blocks than are free |
| FileServer.Server.FileWrite | lab/fs/fs.c:395-416 | the bytes are stored, the size is extended, every other allocated byte of every file is kept, blocks are conserved; an error exactly when the data reaches past the largest file; panics if and only if the range lacks more blocks than are free |
| FileServer.ReadBack | lab/fs/fs.c:366-416 | a read after a write gives the written bytes where they overlap and the earlier bytes elsewhere |
| FileServer.Server.FileFreeBlock | lab/fs/fs.c:421-433 | frees the block if there is one, and does nothing otherwise |
| FileServer.Server.FileTruncateBlocks | lab/fs/fs.c:445-460 | exactly the blocks between the sizes and an unneeded indirect block are freed, remaining bytes are kept, and blocks are conserved if and only if a freed indirect block named none beyond the old size |
| FileServer.ResizedFits | lab/fs/fs.c:445-471 | after a resize the file has no block beyond its size if and only if growing covers all its blocks, or it had none beyond the old size outside an indirect block that is freed |
| FileServer.Server.FileSetSize | lab/fs/fs.c:464-471 | growing changes only the size; shrinking truncates; exactly when the file is then within its size; blocks are conserved if and only if a freed indirect block names none beyond the old size |
| FileServer.Server.Perform | lab/fs/fs.c:183-471 | panics if and only if the operation lacks more blocks than are free; otherwise it has the effect `FsDid` states |
| FileServer.Server.Run | lab/fs/fs.c:183-471 | the run goes through states in which each operation has its effect and the pointer invariant holds; it ends early only at an operation that lacks more blocks than are free |
| FileServer.StrayLoses | lab/fs/fs.c:445-471 | a block looked up beyond a file's size is lost when the file is emptied |
| FileLaws.FilesHoldWhatWasWritten | lab/fs/fs.c:366-471 | in every run, over any files: where a byte was written and its block not cut off since, the file holds the byte last written |
| FileLaws.ReadAfterRun | lab/fs/fs.c:366-387 | a read after any run gives every position asked for that the file has, each with the byte last written there |
| FileLaws.BlockCut | lab/fs/fs.c:445-460 | truncation cuts off exactly the blocks that begin at or beyond the new size |
| FileLaws.WriteSize | lab/fs/fs.c:401-404 | a write extends the file to its end and never shortens it |
| FileLaws.ResizeSize | lab/fs/fs.c:464-471 | the size is the one asked for, and no other file's changes |
| FileLaws.LookupGives | lab/fs/fs.c:183-201 | a lookup leaves a block where it was asked for one |
| DiskBlocks.BlocksForIs | lab/fs/fs.c:450-451 | the least number of blocks that hold so many bytes |
| FileLaws.ConservedExactly | lab/fs/fs.c:445-471 | in every run blocks are conserved if and only if no resize frees an indirect block that names blocks beyond its file's size |
| FileLaws.InsideConserves | lab/fs/fs.c:183-471 | in every run whose lookups stay inside, as sizes and operations alone decide, no file has a block beyond its size and no block is lost |
| FileLaws.StepSizes | lab/fs/fs.c:395-471 | how each operation changes the sizes |
| BlockCache.Cache.constructor | lab/fs/bc.c:129-137 | with no block mapped the server sees the disk |
| BlockCache.Cache.Fault | lab/fs/bc.c:30-68 | reading a block in changes nothing the server sees, and the page is clean |
| BlockCache.Cache.Load | lab/fs/bc.c:30-68 | an access gives what the server sees |
| BlockCache.Cache.Store | lab/fs/bc.c:30-68 | a store changes that block as seen and marks it dirty |
| BlockCache.Cache.FlushBlock | lab/fs/bc.c:78-96 | the block is on disk as seen, no other block is written, nothing seen changes |
| BlockCache.Cache.EvictClean | lab/fs/bc.c:30-68 | dropping a clean page changes nothing the server sees |
| BlockCache.Cache.FsSync | lab/fs/fs.c:497-502 | the disk equals what the server sees from block 1 up, and block 0 is not written |
| BlockCache.Cache.PointerOf | lab/fs/fs.c:143-172 | the pointer of a file block by way of the direct pointers or the indirect block |
| BlockCache.Cache.FileFlush | lab/fs/fs.c:478-492 | size, block map and all allocated bytes of the file can be read from the disk alone; panics exactly for a pointer outside the disk |
| BlockCache.Cache.Perform | lab/fs/bc.c:30-96 | only a write changes what the server sees, and only a flush changes the disk, to what is seen |
| BlockCache.Cache.Run | lab/fs/bc.c:30-96 | any run of accesses, writes, flushes and evictions is indistinguishable from a plain disk, and changes the disk itself exactly by its flushes |
| BlockCache.LastFlushSurvives | lab/fs/bc.c:78-96 | in every run a block is on disk as the server saw it at its last flush |
| BlockCache.LastWriteSeen | lab/fs/bc.c:30-68 | in every run the server sees in a block what it last wrote there |
| BlockCache.FlushedWriteSurvives | lab/fs/bc.c:78-96 | a write flushed before the next to its block survives a crash |
| BlockCache.ByteByPointer | lab/fs/fs.c:143-172 | a file's bytes are those of the blocks its pointers name |
| BlockCache.UnflushedSurvives | lab/fs/bc.c:78-96 | in every run a block never flushed is on disk as it was |
| PipeRing.StepSafe | lab/lib/pipe.c:105-172 | every load, store and increment of either side keeps the ring invariant |
| PipeRing.RingIsFifo | lab/lib/pipe.c:105-172 | in every interleaving the bytes read are a prefix of the bytes written and the positions are never more than the buffer size apart |
| PipeRing.SentIsOffered | lab/lib/pipe.c:140-172 | in every interleaving the bytes sent are the bytes offered, in order |
| PipeRing.PutWhenRoom | lab/lib/pipe.c:140-172 | the writer puts its byte in if and only if there is room |
| PipeRing.GetWhenSome | lab/lib/pipe.c:105-137 | the reader takes the next byte if and only if there is one |
| PipeRing.InitialIsSafe | lab/lib/pipe.c:29-73 | a new pipe satisfies the ring invariant |
| PipeClose.CountsAddUp | lab/lib/pipe.c:76-89 | the two counts are equal if and only if the open descriptors of the other end and the half-made or half-closed ones are as many as the half-inherited |
| PipeClose.StepFresh | lab/lib/pipe.c:76-89 | every step of any environment keeps what the checker has loaded true while it has not been switched away from |
| PipeClose.StepBacked | lab/lib/fd.c:150-202 | dup, close and exit keep the data page mapped wherever a descriptor page is |
| PipeClose.DupIsCopy | lab/lib/fd.c:175-202 | a dup gives the new slot both pages of the old one |
| PipeClose.CloseIsGone | lab/lib/pipe.c:186-190 | a close takes both pages from the slot and from no other |
| PipeClose.ClosedIsSafe | lab/lib/pipe.c:76-89 | in every interleaving of dups, closes and exits an answer "closed" means no descriptor of the other end is mapped anywhere; with no dup or close under way the answer is exact |
| PipeClose.AnswerMeans | lab/lib/pipe.c:76-89 | in every interleaving, forks included, the answer is "closed" if and only if the half-inherited descriptors make up for the open ones of the other end |
| PipeClose.Uninterrupted | lab/lib/pipe.c:76-89 | a check that is not interrupted answers with the comparison of the two counts |
| PipeClose.ForkMisleads | lab/lib/fork.c:145-151 | a reachable state part way through a fork in which the answer is "closed" while two descriptors of the write end are open |
| Malloc.Round4Enough | lab/lib/malloc.c:52-52 | the rounded size holds the request if and only if the 32-bit rounding does not wrap |
| Malloc.Round4Is | lab/lib/malloc.c:52-52 | without a wrap the rounded size is the next multiple of four |
| Malloc.FreeChunk | lab/lib/malloc.c:115-139 | freeing a live chunk keeps pages, reference words and all other chunks exact |
| Malloc.DropCursor | lab/lib/malloc.c:73-77 | giving up the page the cursor is in keeps the invariant |
| Malloc.ExtendStep | lab/lib/malloc.c:65-72 | carving a chunk off the open page keeps chunks disjoint and counts exact |
| Malloc.NewRunStep | lab/lib/malloc.c:97-111 | a chunk in fresh pages, the earlier ones continued, keeps the invariant |
| Malloc.LostExactly | lab/lib/malloc.c:107-111 | after a fresh run its last page's reference word exceeds its chunks and the cursor if and only if the rounded size is a whole number of pages |
| Malloc.LeakedIsLost | lab/lib/malloc.c:107-111 | the pages whose reference word exceeds their chunks and the cursor are exactly the recorded ones |
| Malloc.AllFreed | lab/lib/malloc.c:115-139 | once nothing is live, the mapped pages are exactly the leaked ones and the one the cursor is in |
| Malloc.Arena.constructor | lab/lib/malloc.c:24-26 | the empty heap satisfies the invariant |
| Malloc.Arena.IsFree | lab/lib/malloc.c:30-39 | true exactly when all pages of the range are in the heap and unmapped |
| Malloc.Arena.Release | lab/lib/malloc.c:122-138 | unmaps the continued pages and drops one reference to the page after them |
| Malloc.Arena.Free | lab/lib/malloc.c:115-139 | exactly that chunk is no longer live, and what was leaked stays leaked; the null pointer does nothing |
| Malloc.Arena.Search | lab/lib/malloc.c:85-95 | finds the next run of free pages from the cursor on, going round, and fails only when no page of the heap starts one |
| Malloc.Arena.MapRun | lab/lib/malloc.c:97-106 | maps the run with all but the last page continued, or leaves no page behind when memory runs out |
| Malloc.Arena.Carve | lab/lib/malloc.c:65-72 | the chunk starts at the cursor, and nothing is leaked |
| Malloc.Arena.LeavePage | lab/lib/malloc.c:73-77 | the cursor moves to the next page and the old page is unmapped exactly if nothing else refers to it |
| Malloc.Arena.NewChunk | lab/lib/malloc.c:85-111 | fails exactly when there is no run of pages or no memory; otherwise the next run from the cursor; leaks the last page exactly for a whole number of pages |
| Malloc.AstrayExample | lab/lib/malloc.c:85-95 | a heap that satisfies the invariant and from which a search runs off the top |
| Malloc.Arena.Malloc | lab/lib/malloc.c:42-112 | a chunk of the rounded size, disjoint from all live ones, inside the heap; null exactly when refused: too big, or it does not fit here and no run or memory is to be had; a page leaked exactly if wasteful; and astray exactly when the search runs off the heap |
| Malloc.Arena.Run | lab/lib/malloc.c:42-139 | the run goes through states in which each malloc and free has its effect and the invariant holds; it ends early only when a search runs off the top of the heap |
| HeapLaws.LiveExactly | lab/lib/malloc.c:42-139 | in every run a chunk is live if and only if its request was granted and it has not been freed since |
| HeapLaws.ChunksStay | lab/lib/malloc.c:42-139 | in every run a live chunk stays where it is, with the size asked for, apart from every other |
| HeapLaws.LostGrows | lab/lib/malloc.c:107-111 | in every run each request that leaks, and nothing else, adds one leaked page |
| HeapLaws.LeaksAreForGood | lab/lib/malloc.c:115-139 | in every run a leaked page stays mapped and leaked, whatever is freed |
| HeapLaws.LeftOver | lab/lib/malloc.c:115-139 | when a run has freed all chunks, the pages still mapped number the requests that leaked, and the one the cursor is in |
| HeapLaws.OpenPageFirst | lab/lib/malloc.c:57-69 | a request below the limit that fits in the open page is granted at the cursor and takes no page |
| HeapLaws.FreePagesSuffice | lab/lib/malloc.c:85-111 | a request below the limit is granted if enough pages in a row are free and can be had |
| HeapLaws.TooBig | lab/lib/malloc.c:54-55 | a request of a megabyte or more is refused |
| HeapLaws.AstrayOnlyAtTop | lab/lib/malloc.c:85-95 | a search runs off the heap only from its end or its last page |
| StabSearch.ScanDown | lab/kern/kdebug.c:69-70 | the last entry of the type at or before the start |
| StabSearch.StabBinsearch | lab/kern/kdebug.c:60-103 | the answer is right if and only if the search is not misled; an empty region is reported if and only if there is no entry of the type |
| StabSearch.LastAtOrBelow | lab/kern/kdebug.c:50-90 | a right answer starts at the last entry at or below the address and ends before the next of the type |
| StabSearch.NoNeighbourNotMisled | lab/kern/kdebug.c:84-89 | only an entry one byte after one at the address can mislead the search |
| StabSearch.MisledExample | lab/kern/kdebug.c:84-89 | two entries on which it is misled |

## Left out

- Boot loader, console, timers, PCI, the network card, the network server and sockets: device code with no invariant of its own; the scheduler's fallback to environments waiting for packets goes with it.
- Trap frames, registers and the page fault upcall: the model says which environment runs next, not where it resumes.
- TLB invalidation: page tables take effect at once.
- Directories, paths, the file server's request loop and open-file table, the shell, spawn, printf and string functions: they would add many members and no harder claim.
- The snapshots of earlier lab stages under `lab/finished`: older copies of the same sources.
- PageMemory.Pages.constructor: the kernel's own page tables are not in it; each of their pages enters through `BootTable`.
- PageMemory.Pages.BootTable: models the page it takes, not the words of the kernel's page tables.
- PageMemory.Pages.Run: does not go on after a count has wrapped, since the machine is then no longer valid.
- PageMemory.Pages.UserStore: a page is 1024 words and a store writes one whole word.
- Kernel.Machine.Run: does not go on after an unguarded call, since the invariant is then broken, as `TrapRuns.UnguardedBreaks` shows.
- Kernel.Machine.TrapUser: a send to a waiting receiver offers a mapped page; otherwise the code reads an uninitialised pointer.
- Kernel.Machine.Dispatch: requires the same.
- Kernel.Machine.Syscall: requires the same.
- Kernel.Machine.SysPage: any new address space stands for what sys_page_alloc, sys_page_map and sys_page_unmap do to it, which `PageMemory` models on page tables.
- Kernel.Machine.SysIpcTrySend: requires the same; the receiver's address space is the flat map that `PageMemory` refines to page tables; whether a page table can be had is a parameter.
- Kernel.Machine.EnvAlloc: the address space comes from `PageMemory.Pages.EnvSetupVm`; whether that succeeds is a parameter, and loading a program is not modelled.
- EnvTable.ExactlyOneCpu: env_runs is unbounded.
- BigLock.TrapsAreAtomic: that a CPU's stores in the critical section amount to one trap is what `Kernel` proves of its methods; the exchange is atomic and memory is sequentially consistent.
- CowRefinement.LazyRefinesEager: PTE_U is not modelled, the fault handler's scratch page is not observed, a page's allocation and copy into the scratch page are one step, and a parent that forks does not map or unmap pages meanwhile.
- ForkLib.UserMemory.Fork: system call failures, on which fork panics, are not modelled, nor is installing the fault handler.
- FileServer.Server.FileWrite: sizes and offsets are unbounded integers; off_t is not wrapped.
- FileServer.Server.Run: files are distinct and fixed; creating and removing them is directory code.
- BlockCache.Cache.Fault: the final check of bc_pgfault that the block is not free is not modelled, nor are disk errors.
- BlockCache.Cache.FsSync: block 0 is never written back, as in the code.
- PipeRing.RingIsFifo: positions stay below 2^31; off_t is not wrapped.
- PipeClose.ClosedIsSafe: one CPU and env_runs unbounded; no fork maps a descriptor page meanwhile, since `PipeClose.ForkMisleads` shows the claim false then.
- Malloc.Arena.Malloc: what happens above the heap once the search has run off its top is not modelled; `Run` ends there.
- Malloc.Arena.Free: called only with live chunks; other arguments are caller errors.
- StabSearch.StabBinsearch: requires the entries of the type to lie at increasing addresses, as the code's comment does.
