# A verified model of kernel memory, page cache, filters and pipes

This project models, in Dafny, the parts of the Uinxed kernel that keep memory and data
consistent, and proves what they promise.

- **Paging** (`VmState`, `VmInvariant`, `VmSteps`, `VmFork`, `VmRefinement`, `VmRuns`): copy-on-write
  faults, fork, unmapping, protection, swap-out and swap-in as a transition system whose steps are the
  critical sections of the code. Counts are exact in every reachable state, and every run refines
  independent page arrays, one per process. `SwapSlots` is the slot map and the entry format,
  `HugePages` and `HugeSplit` the page tables and the splitting of large pages.
- **Physical memory** (`BuddyMath`, `BuddyPages`, `BuddyBlocks`, `Buddy`, `BuddyValidate`, `Frame`,
  `FrameSteps`): the buddy allocator on its metadata array and doubly linked lists, the reference-counted frames
  and CPU caches above it, and what CPUs do to these between the locks.
- **The kernel heap** (`HeapLayout`, `HeapPages`, `HeapObjects`, `Heap`): slabs and large blocks on a second
  buddy allocator.
- **The page cache** (`PageCache`, `PageCacheFile`, `PageSort`, `PageHash`, `ReclaimList`, `ReclaimOrder`,
  `ReclaimPlan`, `ReclaimCourse`, `Reclaim`, `WriteErrors`): a cached file as a refinement of a flat file, the
  heapsort of write-back, the growing hash table, aging and reclaim, and the reporting of errors to descriptors.
- **System-call filters** (`Bpf`, `BpfVerify`, `BpfRun`, `FilterChains`, `FilterSteps`, `FilterStack`,
  `FilterRuns`, `Notify`): the program verifier with the exact meaning of what it accepts, the interpreter, the shared
  filter chains, and the user-notification protocol.
- **Byte queues** (`Rings`, `Pipe`, `PipeWake`, `SockBuf`, `SeqPacket`): pipes, their sleeping and waking,
  and record sockets.

`Basics` holds shared definitions. Where the code updates things in place the model is a class with
methods and loops, proved against functions of its state; protocols are transition systems.

## How the code is read

- A section that the code runs under one lock is one step; a transfer or a wake that happens after the
  lock is dropped is a step of its own, and any other step can come in between.
- User copies, allocation failures, device errors, signals and the answers of other subsystems are
  parameters or nondeterministic outcomes.
- Word fields are taken apart where the code masks them: `HugePages` sees a page-table entry as flags,
  frame number and high bits, `Bpf` an instruction code as class, operation and source, `WriteErrors` an error
  word as number and bit. Sizes and offsets of files wrap at 2^64 where the code lets them, BPF registers at
  2^32.
- Linked lists other than those of the buddy allocator are sequences, and objects reached by pointer are
  numbered. Bit sets are sets of positions.
- Where a comment and the code disagree the model follows the code. The comment on fetching the n-th filter
  says that it counts from the newest; it counts from the oldest (`FilterStack.Stack.GetNth`).

## Where the code does not meet what it says

Each of these is stated as an exact condition, with a concrete case where it fails.

- A fork while a page of the parent is being written to swap breaks the counting invariant
  (`VmFork.ForkKeepsInvariantIff`, `VmRuns.ForkDuringSwapOutLosesFrame`); the runs of `VmRuns` therefore
  fork only when the parent has no transfer in progress.
- Shrinking a file to within 4095 bytes of 2^64 drops dirty pages inside the file
  (`PageCache.ShrinkRightIff`).
- The comment on aging says that one reclaim call does not use up all chances of a page. It does only when
  `ReclaimPlan.InUseGoes` holds, and exactly when, as long as the scan budget suffices
  (`ReclaimCourse.Suffices`, `Reclaim.Cache.Reclaim`). A clean page in use goes when the target exceeds the
  unreferenced clean pages that can be reclaimed plus the visits the page needs after all others have been
  passed, and each such visit is paid for by one unreferenced dirty page that can be written. A dirty page in use goes
  when no clean one is in use, every unreferenced dirty page and it itself can be written within the configured
  limit, and the target exceeds all unreferenced pages. Pinned and unevictable pages are not counted; as
  neighbours on the list they can spare a page one such visit. Without dirty pages and with two pages in use it comes down to the
  target against the number of unreferenced pages (`Reclaim.SeveralInUse`); a lone page is never taken
  (`Reclaim.AloneStays`). The concrete case is `Reclaim.OneCallTakesAllChances`.
- A descriptor can miss errors once their number has gone round since its last look
  (`WriteErrors.ReportsIff`, `WriteErrors.CycleMissed`).
- The comment on reading from a pipe says that a woken writer may wake the next; neither side passes wakes
  on. With two writers one can sleep with room for it (`PipeWake.NoWriterForgottenIff`,
  `PipeWake.SecondWriterForgotten`), with two readers one can sleep on available data
  (`PipeWake.NoSleeperWithDataIff`, `PipeWake.SecondReaderForgotten`).
- The configuration allows an atomic size above the capacity of a pipe. Readers and writers are never all asleep
  exactly when the atomic size is at most the capacity (`PipeWake.NeverAllAsleepIff`, `PipeWake.TooMuchAtOnce`).
- The validation of the frame allocator compares its count with the buddy allocator's free pages after draining
  the caches. That comparison succeeds exactly when no frame is on its way and no count is owed
  (`FrameSteps.CountAgreesIff`); while another CPU is between its locks it can report an error although nothing
  is wrong, and an allocation can find nothing although a frame is free (`FrameSteps.BetweenTheLocks`).
- The decision of a filter chain never weakens, but an unknown action is carried out as a kill, so a
  filter added on top of it can make what is carried out weaker (`FilterStack.FurtherFilterEnforced`).

## Model

| member | source | states |
|---|---|---|
| BpfVerify.CheckStructure | security/seccomp_bpf.c:16-95 | the structural pass accepts exactly the well-formed programs: known opcodes, data offsets aligned and inside seccomp_data, scratch indices below 16, constant divisors not 0, constant shifts below 32, jumps strictly forward and inside, a return as the last instruction |
| BpfVerify.ReachedStep | security/seccomp_bpf.c:97-132 | once an instruction has been processed, exactly those targets are newly known to be reachable that it has an edge to, if it is itself reached by a path from instruction 0 |
| BpfVerify.SurelyStep | security/seccomp_bpf.c:97-132 | once an instruction has been processed, a word counts as written on all paths to a target exactly when it did before and, if there is an edge, all paths to the instruction write it or the instruction stores it |
| BpfVerify.EdgesStayInside | security/seccomp_bpf.c:47-56 | every control-flow edge of a well-formed program goes forward and stays inside the program |
| BpfVerify.ExactStart | security/seccomp_bpf.c:102-104 | before the pass the masks are exact: only instruction 0 is known to be reached, with nothing written |
| BpfVerify.ExactStep | security/seccomp_bpf.c:97-132 | one step of the ascending pass keeps the masks exact: each holds precisely the words written on all paths known so far, and an instruction is marked reachable exactly when a path arrives |
| BpfVerify.ExactVerdict | security/seccomp_bpf.c:97-132 | with exact masks the test at a load fails exactly when some path reads a word it has not written |
| BpfVerify.Propagate | security/seccomp_bpf.c:113-131 | hands the mask of an instruction to its one or two successors, at an in-range index: first arrival copies it, later arrivals intersect |
| BpfVerify.CheckScratch | security/seccomp_bpf.c:97-132 | the one-pass check rejects a program if and only if some control-flow path reads an unwritten scratch word |
| BpfVerify.Validate | security/seccomp_bpf.c:59-134 | a program is accepted exactly when it is well formed and no path reads an unwritten word |
| BpfRun.StepInside | security/seccomp_bpf.c:145-265 | no step of a well-formed program indexes program, data or scratch out of range, and each step moves forward |
| BpfRun.ExecSound | security/seccomp_bpf.c:145-265 | the same from any point of the program: at most the remaining instructions, ending where a program may |
| BpfRun.StepAgrees | security/seccomp_bpf.c:145-265 | one instruction keeps two machines in agreement on registers, on the words written so far and on the words it stores |
| BpfRun.AcceptedReads | security/seccomp_bpf.c:97-132 | the last instruction of any path of an accepted program reads only words that the path has stored |
| BpfRun.VerifierSound | security/seccomp_bpf.c:145-265 | every accepted program, on every input, executes at most its length in instructions and ends at a return or at a division by a zero index register |
| BpfRun.ExecAgrees | security/seccomp_bpf.c:145-265 | two runs whose machines agree on registers and on the words written so far end alike |
| BpfRun.ScratchIndependent | security/seccomp_bpf.c:145-265 | two-run theorem: the result of an accepted program does not depend on what scratch memory held before |
| BpfRun.Interpret | security/seccomp_bpf.c:145-265 | the interpreter loop, every index proved in range, returns the verdict that the step-by-step meaning of the program defines |
| FilterChains.AncestorSuffix | security/seccomp.c:692-698 | the programs of an ancestor end every chain it is part of |
| FilterChains.ChainKept | security/seccomp.c:168-178 | the chain of a filter that survives is unchanged, filter by filter |
| FilterChains.NoLeak | security/seccomp.c:162-178 | every filter still allocated is on the chain of a task or of a caller |
| FilterSteps.DropShared | security/seccomp.c:168-178 | dropping a reference that is not the last keeps every count equal to tasks plus newer filters plus callers |
| FilterSteps.DropLast | security/seccomp.c:168-178 | a filter whose last reference goes is freed and its reference on the previous filter becomes the one in hand |
| FilterSteps.SwitchKeeps | security/seccomp.c:779-784 | a task that takes a new filter leaves exactly one surplus reference, on its old filter |
| FilterSteps.PushKeeps | security/seccomp.c:771-774 | a new filter on top takes over the reference of its owner; all counts, limits and links hold |
| FilterSteps.PinKeeps | security/seccomp.c:162-165 | taking one more reference for a caller keeps all counts exact |
| FilterStack.StrongestUnique | security/seccomp.c:954-966 | a chain has one decision and one winning filter |
| FilterStack.LongerIsStronger | security/seccomp.c:954-966 | a chain that ends in another decides at least as strong an action, for every input |
| FilterStack.FurtherFilterEnforced | security/seccomp.c:1009-1014 | a further filter never weakens the action carried out, except exactly when the old decision was an unknown action, and the new filter returns a known, stronger-ranked action other than KILL_PROCESS |
| FilterStack.LogOverUnknownWeakens | security/seccomp.c:1009-1014 | the concrete case: an unknown action kills the process, adding a filter that returns LOG lets it go on |
| FilterStack.LongerDecides | security/seccomp.c:954-966 | the same for the decision as a function of the chain |
| FilterStack.DecisionStrongest | security/seccomp.c:954-966 | that function is the strongest decision, made by the newest filter that returns it |
| FilterStack.SyncableOnChain | security/seccomp.c:741-752 | a thread that passes the test has its filter on the caller's chain and so a tail of that chain: moving it loses no filter |
| FilterStack.SwitchReaches | security/seccomp.c:777-784 | because a moved thread's old filter is an ancestor of its new one, every filter stays within reach: the put during TSYNC frees nothing |
| FilterStack.FreedIffUnreachable | security/seccomp.c:168-178 | a filter is freed exactly when it is on no task's chain and on no caller's chain |
| FilterStack.PathLimit | security/seccomp.c:733-739 | every chain keeps total = sum of program lengths + 4 for each further filter, at most 32768 |
| FilterStack.OneListener | security/seccomp.c:735-739 | a chain has at most one filter with a listener |
| FilterStack.Stack.Put | security/seccomp.c:168-178 | the put loop frees exactly the filters nobody can reach any more and leaves all other chains as they were |
| FilterStack.Stack.IsAncestor | security/seccomp.c:692-698 | true exactly when the filter is on the chain, or there is no filter |
| FilterStack.Stack.ChainHasListener | security/seccomp.c:701-706 | true exactly when some filter of the chain has a listener |
| FilterStack.Stack.Run | security/seccomp.c:954-966 | the strongest decision of the chain in signed order, ALLOW if none is stronger, and the newest filter that made it; it is the decision the runs speak of |
| FilterStack.Stack.FindOffender | security/seccomp.c:741-752 | reports a live thread that cannot be synchronised if there is one, and nothing otherwise |
| FilterStack.Stack.Prepare | security/seccomp.c:652-689 | a program is brought in exactly when it can be read, there is memory for it and for a listener, and it validates; every error is explained |
| FilterStack.Stack.CheckInstall | security/seccomp.c:709-769 | all checks pass exactly when flags, privilege, program, memory, mode, path limit, listener and threads allow the installation; every error is explained by the request, and a thread is named as offender only if it cannot be synchronised |
| FilterStack.Stack.Push | security/seccomp.c:771-774 | the programs of the caller become the new one followed by the old ones; no other programs change |
| FilterStack.Stack.SyncOne | security/seccomp.c:777-784 | a thread moves to the new chain, takes over the flag, gives up its old filter without any filter being freed, and keeps all filters it had |
| FilterStack.Stack.SyncAll | security/seccomp.c:775-786 | all live threads and no other task move to the new filter and take over the flag, no filter is freed, and every chain only grows |
| FilterStack.Stack.Install | security/seccomp.c:709-789 | installs exactly when the checkable condition holds; a failure, of reading, memory or any check, changes nothing and its error is explained by the request; a success extends the caller's chain by the program, moves exactly the live threads asked for, leaves every other task the programs it runs, and every task's earlier chain is a suffix of its later one |
| FilterStack.Stack.InstallStrict | security/seccomp.c:792-804 | strict mode is entered exactly from the disabled mode |
| FilterStack.Stack.SetNoNewPrivs | security/seccomp.c:854-861 | accepts exactly the value 1 with all other arguments 0, sets the flag of the caller, changes nothing else and keeps all counts |
| FilterStack.Stack.Inherit | security/seccomp.c:181-188 | the child of a fork has the parent's chain, counted |
| FilterStack.Stack.Release | security/seccomp.c:191-198 | a task that exits gives up its chain: what only it could reach is freed, all other chains are unchanged |
| FilterStack.Stack.GetNth | security/seccomp.c:873-904 | returns the filter at the given distance from the oldest, with a reference, exactly when the chain is long enough |
| FilterStack.Stack.FindNth | security/seccomp.c:882-896 | finds the filter at that distance, and none exactly when the chain is too short |
| FilterStack.Stack.CountChain | security/seccomp.c:882-883 | counts the filters of a chain |
| FilterStack.Stack.Nth | security/seccomp.c:888-896 | the walk never runs off the chain and ends at the filter with that distance from the newest |
| FilterStack.Stack.Unpin | security/seccomp.c:907-919 | giving the reference back frees exactly what nobody else can reach |
| FilterStack.Stack.Pin | security/seccomp.c:161-165 | a reference keeps all counts exact and every chain as it was |
| FilterStack.Stack.BecomeZombie | security/seccomp.c:744-744 | a thread that has ended is left out of later synchronisations and keeps its chain |
| FilterRuns.Perform | security/seccomp.c:168-919 | each of installing with and without TSYNC, strict mode, no-new-privileges, fork, exit, zombie, fetch and give-back, with any arguments, has exactly its effect on the tasks and the programs they run, keeps all invariants and loosens nothing for any task but one it releases |
| FilterRuns.PerformAll | security/seccomp.c:168-919 | over every run of these operations, each moment reached from the one before by the effect of its operation: from any moment to any later one, for every task not released in between and for every input, the earlier chain is a suffix of the later one and the decision is no weaker |
| FilterRuns.TraceKeeps | security/seccomp.c:709-789 | a task that is not released between two moments of a run only gains filters |
| FilterRuns.TraceTightens | security/seccomp.c:954-966 | hence its decision never weakens, for any input |
| Notify.StepKeeps | security/seccomp.c:261-532 | every action of waiter, RECV, SEND, ADDFD, detach and signal keeps the protocol invariant |
| Notify.RunInv | security/seccomp.c:261-532 | the protocol invariant holds in every reachable state, whatever the interleaving |
| Notify.AddFdCanFinish | security/seccomp.c:463-532 | in every interleaving a notification with an ADDFD in flight stays queued, so the operation can always finish |
| Notify.WaiterCanFinish | security/seccomp.c:294-307 | in every interleaving a waiter that was replied to and that no operation uses can resume at once, with the one reply it got |
| Notify.SendAddFd | security/seccomp.c:498-532 | an ADDFD that also replies is the only operation on its notification; it rolls back to SENT on failure and otherwise is the one reply, carrying its descriptor |
| Notify.AtMostOneReply | security/seccomp.c:405-532 | over every run a notification takes at most one reply, from SEND or ADDFD, and only one addressed to it |
| Notify.ResumedByOwnReply | security/seccomp.c:301-308 | a waiter goes on with a value or with its system call only as the one reply to its own id says |
| Notify.NoReplyLost | security/seccomp.c:309-323 | a waiter that resumes because of detach or a signal never had an accepted reply |
| Notify.FreshIsReceived | security/seccomp.c:350-373 | in every reachable state RECV finds a notification as long as any is fresh |
| VmFork.ForkKeepsInvariantIff | mem/page.c:278-388 | a fork keeps the counting and sharing invariant if and only if no leaf of the parent is in the middle of a swap transfer |
| VmFork.CountFork | mem/page.c:278-388 | after a fork every frame's count is again the number of its holders |
| VmFork.CountForkSlots | mem/page.c:282-287 | and every swap slot's count the number of entries and reservations that name it |
| VmFork.KeepFork | mem/page.c:226-231 | after a fork of a parent without transfers in progress a writable private leaf still implies that its frame has one holder |
| VmFork.ForkOfBusyBreaks | mem/page.c:282-287 | forking a parent with a busy swap entry leaves the child a busy entry that no operation owns |
| VmFork.OrphanForever | mem/page.c:895-899 | no step of any kind and no fork ever finishes such an entry: in every later state it is busy and without an owner, so that unmapping it waits for ever |
| VmSteps.CountFaultCommit | mem/page.c:541-569 | committing a copied page moves the references of old frame and copy so that all counts stay exact |
| VmSteps.KeepFaultCommit | mem/page.c:541-569 | after a commit, or its loss to another operation, writable private leaves are the only holders of their frames and every operation still has what it relies on |
| VmSteps.KeepFaultFast | mem/page.c:490-516 | making a leaf writable in place keeps writable private leaves the only holders of their frames |
| VmSteps.KeepFaultPin | mem/page.c:517-523 | taking a temporary reference breaks nothing that another leaf or operation relies on |
| VmSteps.KeepProtect | mem/page.c:738-746 | a permission change never makes a private frame with several holders writable |
| VmSteps.KeepUnmap | mem/page.c:887-970 | removing a leaf, its reference handed to the release, breaks nothing that another leaf or operation relies on |
| VmSteps.KeepOutBegin | mem/swap.c:458-478 | once a leaf is busy its swap-out owns a frame with one holder and a slot with one holder |
| VmSteps.KeepOutFinish | mem/swap.c:487-516 | after a swap-out has ended, however it ends, its leaf is busy no more, and writable private leaves are the only holders of their frames |
| VmSteps.KeepInFinish | mem/swap.c:405-424 | after a swap-in has ended, however it ends, its leaf is busy no more, and a writable leaf it has filled is the only holder of its frame |
| VmSteps.CountOutFinish | mem/swap.c:487-516 | finishing a swap-out, whatever it finds in the leaf, keeps frame counts exact |
| VmSteps.CountInFinish | mem/swap.c:405-424 | finishing a swap-in, whatever it finds in the leaf, keeps frame counts exact |
| VmRefinement.StepKeepsInvariant | mem/page.c:278-576 | every critical section of mapping, fault, fork, unmap, protect, swap-out and swap-in keeps: a frame's count equals the leaves and operations that hold it, a slot's count likewise, a writable private leaf implies count 1 |
| VmRefinement.ReleasesSucceed | mem/swap.c:162-178 | no release of a frame or slot that any path performs can fail |
| VmRefinement.PagingKeepsPages | mem/page.c:469-576 | no step of the fault, swap-out, swap-in and release paths changes the contents of any private page |
| VmRuns.StepRefines | mem/page.c:278-576 | one step of the kernel is at most one step of plain per-process page arrays |
| VmRuns.ForkRefines | mem/page.c:331-388 | fork gives the child a copy of the parent's private pages and changes nobody else's |
| VmRuns.RunRefines | mem/swap.c:376-518 | over every run, with all failures, the private pages are what independent page arrays hold |
| VmRuns.ReadsAreRight | mem/page.c:469-576 | every read in a run returns the bytes its process's page array holds at that point, through copy-on-write and swapping |
| VmRuns.ReachableRefines | mem/page.c:278-388 | from boot on, in every reachable state, the invariant holds and every private page holds what was last written to it |
| VmRuns.Isolation | mem/page.c:278-388 | whatever other processes and the swapper do, a process that does not write keeps every byte |
| VmRuns.ForkDuringSwapOutLosesFrame | mem/swap.c:475-516 | one run from boot, invariant up to the fork: a page is mapped, its swap-out begins, the process forks, the swap-out ends; then a frame has a count that nothing holds, and a reference to the slot both processes name is given back |
| SwapSlots.EntryRoundTrip | mem/swap.c:73-101 | a swap entry gives back area, offset and kept flags, with and without the busy bit, and never looks present |
| SwapSlots.SlotMap.Alloc | mem/swap.c:141-159 | returns the first free slot from the cursor on, around the end, and moves the cursor behind it; 0 exactly when none is free; free_slots stays exact |
| SwapSlots.SlotMap.Retain | mem/swap.c:162-167 | succeeds exactly for a used slot whose count is below the maximum, and adds one |
| SwapSlots.SlotMap.Release | mem/swap.c:170-178 | succeeds exactly for a used slot; the slot is free again exactly after its last release |
| SwapSlots.SlotMap.constructor | mem/swap.c:127-138 | all slots free, counted |
| HugePages.SameTableSameWay | mem/page_walker.c:96-155 | in a tree of tables two walks that pass the same table came there by the same indices |
| HugePages.AvoidsChange | mem/page_walker.c:96-155 | a walk that does not read a changed entry translates as before |
| HugePages.ReadsSame | mem/page.c:391-431 | only addresses that share all indices down to a table's level read its entry |
| HugeSplit.Split2MSame | mem/page.c:947-955 | splitting a 2 MiB leaf changes page, permissions, PAT bit and flags of no address |
| HugeSplit.Split1GSame | mem/page.c:934-955 | splitting a 1 GiB leaf into 2 MiB leaves and one table of small pages changes the translation of no address |
| HugeSplit.Split1GTree | mem/page.c:934-955 | after the split every table still has one parent and the right level, and no leaf has reserved bits set |
| HugeSplit.Split2MTree | mem/page.c:947-955 | the same for a 2 MiB leaf |
| HugePages.SmallPageSame | mem/page.c:948-952 | a small page filled in for a 2 MiB leaf has its address, permissions and PAT bit, moved from bit 12 to bit 7 |
| HugePages.SmallPageSameTwice | mem/page.c:940-946 | a small page filled in for a 1 GiB leaf has its address, permissions and PAT bit, through two new tables |
| HugePages.LargePageSame | mem/page.c:935-935 | a 2 MiB page filled in for a 1 GiB leaf has its address, permissions and PAT bit |
| HugeSplit.ClearedOnly | mem/page.c:963-963 | clearing the entry of a small page unmaps that page and no other |
| HugeSplit.Directory.FindLeaf | mem/page.c:391-431 | finds the leaf the address translates by, at its level; none exactly when the address is unmapped |
| HugeSplit.Directory.constructor | mem/page.c:661-665 | a directory with a cleared top table maps no address |
| HugeSplit.Directory.Split | mem/page.c:911-961 | replacing a large leaf by tables changes no translation and leaves the address on a small page |
| HugeSplit.Directory.UnmapRelease | mem/page.c:887-970 | unmaps exactly the given page, every other address keeps its translation and permissions, and gives back exactly the frame the address was mapped to or the swap entry it held; waits exactly while a swap entry is busy; runs out of memory exactly when a table the leaf's size calls for cannot be had, and then nothing changes; the internal fault is never reported |
| HugeSplit.Directory.UnmapMapped | mem/page.c:905-970 | the part for addresses without a swap entry |
| HugeSplit.Directory.FindSmall | mem/page.c:434-448 | finds the table that holds the entry of a small page, exactly when the walk gets that far |
| HugeSplit.Directory.Clear | mem/page.c:962-962 | clearing one entry unmaps one page and changes no other translation |
| BuddyMath.AlignedIsMultiple | mem/buddy.c:125-125 | the mask test for alignment is divisibility by the block size |
| BuddyMath.BuddyHalves | mem/buddy.c:100-107 | flipping one index bit gives the other half of the enclosing block, and twice gives the block back |
| BuddyMath.OrderForUnits | mem/buddy.c:22-34 | the smallest order that holds the count, or one above the limit |
| BuddyPages.AddLinked | mem/buddy.c:62-75 | pushing a block keeps every list a well-formed doubly linked list with exactly its blocks |
| BuddyPages.RemoveLinked | mem/buddy.c:78-94 | unlinking a block anywhere keeps every list well formed |
| BuddyBlocks.FreeBlocksDisjoint | mem/buddy.c:97-111 | free blocks share no page |
| BuddyBlocks.AllocatedBlocksDisjoint | mem/buddy.c:136-160 | allocated blocks share no page |
| BuddyBlocks.AllocatedNotFree | mem/buddy.c:136-186 | no page of an allocated block is free |
| BuddyBlocks.FreeRunInOneBlock | mem/buddy.c:97-111 | because merging is maximal, an aligned run of free pages lies inside one free block |
| Buddy.NoBlockNoRun | mem/buddy.c:140-142 | with all lists from an order up empty no aligned run of that order is free |
| Buddy.Allocator.constructor | mem/buddy.c:37-59 | everything reserved, all lists empty |
| Buddy.Allocator.Init | mem/buddy.c:37-59 | an allocator exactly for valid arguments, with nothing free and nothing allocated |
| Buddy.Allocator.ListAdd | mem/buddy.c:62-75 | exact effect on links, heads and counters |
| Buddy.Allocator.ListRemove | mem/buddy.c:78-94 | exact effect on links, heads and counters |
| Buddy.Allocator.AddBlock | mem/buddy.c:97-111 | the free pages grow by exactly the block; afterwards no two buddies of one order below the maximum are both free |
| Buddy.Allocator.AddRange | mem/buddy.c:114-133 | succeeds exactly for a reserved range inside the memory, and frees exactly its pages |
| Buddy.Allocator.ChooseOrder | mem/buddy.c:122-125 | the order chosen is within the limits, fits the rest of the range and suits its alignment |
| Buddy.Allocator.Alloc | mem/buddy.c:136-160 | succeeds if and only if some aligned run of the size is free anywhere; takes an aligned free block and nothing else |
| Buddy.Allocator.Carve | mem/buddy.c:144-159 | splitting a block down gives the upper halves back and leaves an aligned block of the order, allocated |
| Buddy.Allocator.Free | mem/buddy.c:163-186 | accepts exactly the allocated blocks with their order; the pages become free, tags are cleared; corruption is never reported |
| Buddy.Allocator.Trim | mem/buddy.c:189-209 | keeps the first pages as blocks of one page and frees the rest of the block |
| BuddyValidate.NodeInList | mem/buddy.c:212-222 | walks the list without running past its count and finds exactly its members |
| BuddyValidate.ValidateList | mem/buddy.c:231-251 | one list passes and has the length its counter says |
| BuddyValidate.CountHeads | mem/buddy.c:259-266 | every free head is found on its list, and all are counted |
| BuddyValidate.Validate | mem/buddy.c:225-268 | after every sequence of operations validation returns success |
| BuddyBlocks.LeastOrderDecides | mem/frame.c:305-307 | an allocation can be met at some order exactly when it can be met at the least order that is large enough |
| Frame.Frames.ReturnOne | mem/frame.c:54-62 | a frame handed back to the buddy allocator is never refused |
| Frame.Frames.DrainAll | mem/frame.c:65-82 | all caches empty, no frame's ownership or availability changes |
| Frame.Frames.Put | mem/frame.c:85-103 | an ownerless frame becomes available, in the cache or behind a full cache's batch |
| Frame.Frames.Pop | mem/frame.c:106-121 | takes the last frame of the CPU's cache, exactly when there is one |
| Frame.Frames.Refill | mem/frame.c:124-153 | fails exactly when the buddy allocator is empty; owns one frame, the rest of the block stays available |
| Frame.Frames.AllocOne | mem/frame.c:309-317 | the single-frame path fails exactly when no frame is available anywhere, in any cache or in the buddy allocator |
| Frame.Frames.AllocBlock | mem/frame.c:319-341 | the block path, with the caches drained if need be, fails exactly when no aligned run of available frames of the order exists |
| Frame.Frames.AllocAligned | mem/frame.c:302-341 | fails exactly when no aligned run of available frames, in the buddy allocator and all CPU caches together, can hold the request; otherwise the frames are contiguous, aligned, were available, and have one owner each; failure changes nothing |
| Frame.Frames.Retain | mem/frame.c:364-386 | invalid exactly outside the memory or unaligned; succeeds exactly for a range of owned frames below the count limit; each then gains one owner; nothing becomes free or changes otherwise |
| Frame.Frames.Release | mem/frame.c:389-422 | invalid exactly outside the memory or unaligned; succeeds exactly for a range of owned frames; each then loses one owner, and exactly those with one owner become available |
| Frame.Frames.Validate | mem/frame.c:449-457 | with caches drained the layer's free count equals the buddy allocator's and validation succeeds |
| Frame.Frames.constructor | mem/frame.c:293-295 | nothing cached, nothing owned, all free frames available |
| FrameSteps.StepKeeps | mem/frame.c:54-422 | each locked section and each atomic access of any CPU, in any order, keeps every frame owned or in exactly one place (buddy allocator, a cache, a CPU's hands, a hand-over flag), every set flag looked for by someone, and the count of free frames exact but for what CPUs still owe it |
| FrameSteps.RunInv | mem/frame.c:54-422 | that holds in every state of every interleaving from boot |
| FrameSteps.TakesFree | mem/frame.c:106-153 | in every interleaving a frame that is handed out had no owner and then has one |
| FrameSteps.OwnersKept | mem/frame.c:54-422 | a step changes the owners only of frames it hands out, retains or releases |
| FrameSteps.ReturnsOnce | mem/frame.c:54-62 | the buddy allocator never gets back a frame it has, a frame with an owner, or one frame twice |
| FrameSteps.AtRest | mem/frame.c:400-421 | with nothing in flight no flag is set and no frame is lost: the free frames are those of the buddy allocator and the caches, and the count is their number |
| FrameSteps.CountAgreesIff | mem/frame.c:449-457 | the comparison of frame_validate succeeds exactly when nothing is cached, in a CPU's hands or flagged and no count is owed |
| FrameSteps.DrainedAgrees | mem/frame.c:449-457 | it succeeds with nothing in flight and the caches drained |
| FrameSteps.NothingFoundAtRest | mem/frame.c:309-317 | with nothing in flight an allocation of one frame finds nothing exactly when no frame is free |
| FrameSteps.BetweenTheLocks | mem/frame.c:124-153 | the run with a refill half done: others find nothing although a frame is free, and the comparison fails although nothing is wrong |
| HeapLayout.AlignUpIs | mem/alloc.c:121-125 | rounding up gives the next multiple at or after the value |
| HeapLayout.Layout | mem/alloc.c:260-288 | the first order with at least eight objects and at most an eighth left over; if there is none, the first that leaves least; nothing exactly when no order up to the limit holds an object; offsets and stride are aligned |
| HeapLayout.Colour | mem/alloc.c:318-332 | whatever the colour, all objects fit between the slab header and the end of the slab, aligned |
| HeapLayout.ObjectsApart | mem/alloc.c:334-344 | objects of a slab do not overlap |
| HeapLayout.ObjectInside | mem/alloc.c:332-344 | every object lies behind the header, inside the slab, and is aligned |
| HeapLayout.ObjectIndex | mem/alloc.c:404-411 | dividing by the stride on freeing gives back the object's index |
| HeapPages.Pages.Alloc | mem/alloc.c:185-195 | a new block, with every page tagged by the block |
| HeapPages.Pages.Free | mem/alloc.c:198-204 | succeeds exactly for an allocated block of that order, and clears its tags |
| HeapPages.Pages.Owner | mem/alloc.c:454-471 | a page tag resolves to the allocated block the page lies in, and to nothing exactly when it lies in none |
| HeapObjects.LiveApart | mem/alloc.c:363-390 | live allocations never overlap |
| HeapObjects.OwnPage | mem/alloc.c:454-471 | the address of a live allocation lies on a page of its block |
| HeapObjects.Requeued | mem/alloc.c:207-257 | moving a slab between lists keeps each list equal to the slabs of its kind |
| HeapObjects.InUse | mem/alloc.c:375-384 | objects in use and objects on the free list together make up the slab |
| Heap.SpareListed | mem/alloc.c:368-373 | a cache has a free object exactly when its partial or empty list is not empty |
| Heap.KernelHeap.constructor | mem/alloc.c:502-525 | an empty heap over pages of which none is allocated |
| Heap.KernelHeap.CreateSlab | mem/alloc.c:312-349 | a slab with all objects free, or nothing changed; fails exactly when no block is to be had |
| Heap.KernelHeap.AllocObject | mem/alloc.c:363-390 | fails exactly when no slab of the cache has a free object and no block for a new slab is free; otherwise a fresh allocation, aligned for the cache; live allocations do not move |
| Heap.KernelHeap.FreeObject | mem/alloc.c:393-443 | takes back exactly the address of an object in use; a cache keeps at most one empty slab |
| Heap.KernelHeap.LargeAlloc | mem/alloc.c:474-499 | fails exactly when no free block holds header, bytes and padding; otherwise a fresh allocation, aligned, with at least the requested bytes inside its block |
| Heap.KernelHeap.Malloc | mem/alloc.c:534-549 | fails exactly when the size is 0 or neither its size class nor, above the classes, the pages have room; otherwise a fresh allocation aligned to 16 with at least the requested bytes; all others keep place and size |
| Heap.KernelHeap.AlignedAlloc | mem/alloc.c:552-570 | fails exactly for size 0, an alignment that is no power of two or below a pointer's size, or without room; otherwise a fresh allocation at the requested alignment |
| Heap.KernelHeap.Free | mem/alloc.c:619-661 | takes back exactly the address of a live allocation and refuses every other pointer, including one freed already; bytes and counts stay the sums over live allocations |
| Heap.KernelHeap.Find | mem/alloc.c:573-616 | resolves a pointer to the live allocation that starts there, and to nothing exactly when none does |
| Heap.KernelHeap.Resize | mem/alloc.c:678-695 | changes the size asked for in place, moves nothing and keeps the byte count exact |
| Heap.KernelHeap.Realloc | mem/alloc.c:664-703 | refuses a pointer that is not live; frees for size 0; stays in place exactly when the size fits what the owner may use; otherwise moves if there is room, copying between ranges that do not overlap, and leaves everything as it was if not |
| Heap.KernelHeap.Move | mem/alloc.c:698-702 | both allocations are live and apart while the bytes are copied, and afterwards exactly the old one is gone |
| Heap.KernelHeap.ReleaseSlab | mem/alloc.c:352-360 | an unused slab goes back to the pages and no allocation notices |
| Heap.KernelHeap.CacheFor | mem/alloc.c:446-451 | the smallest class that fits, or none if all are too small |
| Heap.KernelHeap.NoOverlap | mem/alloc.c:534-570 | no two live allocations share a byte |
| PageCache.ZeroBeyondEnd | mem/pagecache.c:293-322 | no byte is stored beyond the end of the file |
| PageCache.LoadKeeps | mem/pagecache.c:293-322 | loading a page shows what was there, zero-extended |
| PageCache.WritebackKeeps | mem/pagecache.c:325-358 | writing a page back makes it equal to the backing store and leaves the file as it is |
| PageCache.DropKeeps | mem/pagecache.c:237-276 | dropping a page that is not dirty leaves the file as it is |
| PageCache.AddKeeps | mem/pagecache.c:436-502 | a page that is not up to date can be added without changing the file |
| PageCache.PatchKeeps | mem/pagecache.c:706-713 | bytes put into an up-to-date page change exactly those bytes of the file and grow it as needed |
| PageCache.ZeroPageKeeps | mem/pagecache.c:698-705 | a page wholly beyond the end can be taken as zeros unread |
| PageCache.CleanIsStored | mem/pagecache.c:754-818 | with no dirty page left the backing store holds the whole file |
| PageCache.ShrinkRight | mem/pagecache.c:925-951 | shrinking cuts the file at the new size and keeps every byte before it, as long as rounding the size up stays below 2^64 |
| PageCache.ShrinkWraps | mem/pagecache.c:938-939 | when the rounding wraps, every cached page is dropped, dirty or not |
| PageCache.ShrinkRightIff | mem/pagecache.c:938-939 | shrinking to a size is right in every state of the cache if and only if the rounded size stays below 2^64 |
| PageCache.GrowRight | mem/pagecache.c:925-951 | growing extends the file with zeros |
| PageCacheFile.File.Load | mem/pagecache.c:293-322 | after success the page is up to date; the file is unchanged either way |
| PageCacheFile.File.GetPage | mem/pagecache.c:436-508 | the page is in the cache, or its allocation failed; a page already cached changes nothing; otherwise other pages of the file may be written back and dropped, and no byte of the file changes |
| PageCacheFile.File.AddPage | mem/pagecache.c:456-508 | a page is added without making room: no byte of the file and no other page changes |
| PageCacheFile.File.MakeRoom | mem/pagecache.c:451-460 | whatever pages of the file a reclaim inside takes or cleans, in whatever order and with whatever writes failing: no byte of the file changes, no page appears, and pages that stay keep their data |
| PageCacheFile.File.Read | mem/pagecache.c:636-664 | returns a prefix of the requested range of the flat file; it is short only at the end of the file or at a page that failed; the file is unchanged, whatever reclaim and readahead do meanwhile |
| PageCacheFile.File.Readahead | mem/pagecache.c:572-589 | brings only pages of the file into the cache and changes no byte |
| PageCacheFile.File.WritePage | mem/pagecache.c:686-717 | the bytes for one page are in the file, or nothing has changed |
| PageCacheFile.File.Write | mem/pagecache.c:674-720 | exactly the accepted bytes are in the file at the offset, all other bytes kept whatever reclaim does meanwhile, the size grown as needed; short only at a page that failed |
| PageCacheFile.WholePage | mem/pagecache.c:698-705 | a write over all of a page need not load it first |
| PageCacheFile.FailedWriteKeeps | mem/pagecache.c:346-354 | a write-back that fails part of the way leaves the page dirty and the file as it was |
| PageCacheFile.File.WritebackPage | mem/pagecache.c:325-358 | a failing or short write leaves the page dirty and the file unchanged |
| PageCacheFile.File.Writeback | mem/pagecache.c:754-818 | refused as a whole, with nothing changed, exactly for more than a million dirty pages or no memory for their list; otherwise writes the dirty pages of the range in file order, all of them even after an error; success exactly when no write and no requested sync failed; the file is unchanged |
| PageCacheFile.File.WriteAll | mem/pagecache.c:805-814 | cleans exactly the listed pages whose write succeeds; the file is unchanged |
| PageCacheFile.File.CollectDirty | mem/pagecache.c:759-803 | collects exactly the dirty pages of the range, each once |
| PageCacheFile.File.Invalidate | mem/pagecache.c:853-893 | succeeds exactly for a reversed range, or when the range has no dirty page and the mapping no pin; then the range is out of the cache; the file is unchanged |
| PageCacheFile.File.DropRange | mem/pagecache.c:853-893 | discarding drops exactly the pages of the range |
| PageCacheFile.File.Evict | mem/pagecache.c:896-922 | invalid exactly for a reversed range; succeeds exactly when the mapping has no pin and the write-back, if one is needed, goes through; then the range is out of the cache; the file is what it was |
| PageCacheFile.File.ReclaimPage | mem/pagecache.c:1101-1121 | a page that reclaim takes is written back first; the file is unchanged |
| PageCacheFile.File.Truncate | mem/pagecache.c:925-951 | the file is cut or extended to the new size; in the wrap-around case what is left is the backing store alone; a failing resize changes nothing |
| PageHash.Hash | mem/pagecache.c:102-108 | the bucket of an index is inside the table |
| PageHash.Pushed | mem/pagecache.c:484-486 | a page put at the head of its chain: every chain lists exactly its pages, each once |
| PageHash.Removed | mem/pagecache.c:262-268 | a page unlinked anywhere in its chain: every chain lists exactly the pages left |
| PageHash.Table.Find | mem/pagecache.c:199-204 | finds the one page of the index that is not being evicted, and nothing exactly when there is none |
| PageHash.Table.Grow | mem/pagecache.c:211-234 | the table doubles exactly when it is loaded, below its limit and memory is to be had; all pages are on their chains in the new table, none lost and none twice |
| PageHash.Table.Add | mem/pagecache.c:472-488 | returns the page that was there already, or adds the new one; never two live pages of one index |
| PageHash.Table.Unlink | mem/pagecache.c:258-270 | refused exactly when the page is not in the table; otherwise it and nothing else is gone |
| PageHash.Table.StartEviction | mem/pagecache.c:881-881 | a page on its way out is no longer found; the table stays as it was |
| WriteErrors.RunInv | mem/pagecache.c:279-290 | in every reachable state the word carries the number of the latest error and every mark is what its history says |
| WriteErrors.ReportsIff | mem/pagecache.c:968-981 | over every interleaving of errors, opens and checks: a check reports an error if and only if one happened since the descriptor's mark, unless a multiple of 2^31 - 1 errors happened since and another descriptor has taken the latest |
| WriteErrors.ReportedOnce | mem/pagecache.c:968-981 | an error is reported to a descriptor once: without a further error its next check is silent |
| WriteErrors.LeftForLater | mem/pagecache.c:960-965 | an error nobody has taken is reported to a descriptor opened after it |
| WriteErrors.NotForLater | mem/pagecache.c:960-965 | one that has been taken is not |
| WriteErrors.SameNumber | mem/pagecache.c:284-287 | two errors have the same number exactly when a multiple of 2^31 - 1 lies between them |
| WriteErrors.CycleMissed | mem/pagecache.c:968-976 | the concrete run in which a descriptor misses a whole cycle of errors |
| PageSort.TopIsLargest | mem/pagecache.c:738-751 | the first entry of the heap is its largest |
| PageSort.SiftDown | mem/pagecache.c:723-735 | repairs the heap below the root and rearranges nothing outside it |
| PageSort.Extract | mem/pagecache.c:745-750 | the largest entry goes behind the heap, which is a heap again; what lies behind stays sorted and not smaller |
| PageSort.Sort | mem/pagecache.c:738-751 | the result is sorted and a rearrangement of the input |
| ReclaimList.AgingUsesAChance | mem/pagecache.c:1050-1074 | aging a page takes away exactly one of its chances |
| Reclaim.Cache.Insert | mem/pagecache.c:490-500 | a page asked for goes to the head, one read ahead to the tail; counters and list stay exact |
| Reclaim.Cache.MarkDirty | mem/pagecache.c:561-569 | the page is dirty and referenced, the dirty counter exact |
| Reclaim.Cache.SetReferences | mem/pagecache.c:511-515 | taking or dropping a reference changes neither list nor counters |
| Reclaim.Cache.Touch | mem/pagecache.c:159-196 | a second access makes a page active; counters and list stay exact |
| Reclaim.Cache.Age | mem/pagecache.c:1050-1074 | one chance less, the page at the head of the list, counters exact |
| Reclaim.Cache.Free | mem/pagecache.c:237-276 | the page leaves list and counters |
| Reclaim.Cache.Scan | mem/pagecache.c:1027-1100 | ends, ages exactly the pages it visits, keeps the order in which pages go, and settles on the clean page that goes before all other clean ones; if a full walk finds none, on the dirty page that goes first, or nothing is left but a lone page at the head |
| Reclaim.Cache.Reclaim | mem/pagecache.c:1014-1125 | an unlimited call ends, and ends only when nothing behind the head of the list can be reclaimed or a write-back fails; every page freed was unused and evictable, clean or written back, and was visited once more than it had chances (three visits for a referenced page); counters stay exact; a call frees a page that was referenced at its start only if InUseGoes holds of the list, the pages, the target and the failing writes, and exactly if, wherever the scan budget suffices (`Suffices`) |
| Reclaim.OneCallTakesAllChances | mem/pagecache.c:1042-1049 | the concrete case of two pages in use and a target of one, for every limit on writing back: the condition holds and the scan budget suffices |
| Reclaim.AllClean | mem/pagecache.c:1042-1049 | with nothing reclaimable dirty, a page in use goes exactly when the target exceeds the number of reclaimable pages not in use and some page in use needs no visit alone; pinned and unevictable pages may be present |
| Reclaim.SeveralInUse | mem/pagecache.c:1042-1049 | with two pages in use that is exactly when the target exceeds the number of reclaimable pages not in use |
| Reclaim.AloneStays | mem/pagecache.c:1054-1058 | a page in use that is alone on the list is never taken, whatever the target |
| ReclaimOrder.TurnKeepsOrder | mem/pagecache.c:1050-1074 | aging a page and turning it to the head never changes who goes before whom: fewest chances first, then nearest the tail |
| ReclaimOrder.TurnKeepsNeed | mem/pagecache.c:1050-1074 | nor how many visits alone a page still needs |
| ReclaimOrder.AloneKeeps | mem/pagecache.c:1054-1072 | a visit while all others have been passed uses up exactly one of them |
| ReclaimOrder.FreeKeeps | mem/pagecache.c:1114-1121 | nor does freeing the page that goes first change any of this for the others |
| ReclaimOrder.LastExists | mem/pagecache.c:1054-1072 | at most one page can need visits alone |
| ReclaimPlan.PassedCount | mem/pagecache.c:1027-1034 | a walk passes without aging only pages that are pinned, unevictable or dirty, which bounds what it uses up of the scan budget |
| ReclaimCourse.WalksBound | mem/pagecache.c:1016-1021 | a call cannot run out of its scan budget where it suffices |
| ReclaimCourse.KeepsParts | mem/pagecache.c:1014-1125 | between any two rounds of a call: a page in use has gone only if one had to, and at the target exactly if |
| ReclaimPlan.CourseTook | mem/pagecache.c:1014-1125 | as long as no page in use has gone the call goes through the unreferenced clean and then the written dirty pages in order; if the next clean page was in use, InUseGoes held at the start |
| ReclaimPlan.EndTarget | mem/pagecache.c:1024-1024 | a call that ends at its target before taking a page in use could not have taken one |
| ReclaimPlan.EndCap | mem/pagecache.c:1102-1105 | nor one that ends because as many pages have been written as the configuration allows, whatever that limit |
| ReclaimPlan.EndFail | mem/pagecache.c:1106-1108 | nor one that ends at a failing write |
| ReclaimPlan.EndNone | mem/pagecache.c:1113-1113 | nor one that finds nothing more |
| Rings.MaskedStep | ipc/pipe.c:128-134 | masking the index does what the subtraction does |
| Rings.PutExtends | ipc/pipe.c:163-172 | bytes stored behind the window, around the end if need be, extend the window by exactly them |
| Rings.WindowSplit | ipc/pipe.c:137-160 | taking bytes off the front leaves the window that starts behind them |
| Pipe.MaskBits | ipc/pipe.c:219-219 | an index mask is used exactly for capacities that are powers of two above 1 |
| Pipe.Ring.Advance | ipc/pipe.c:128-134 | both ways of wrapping move the index alike |
| Pipe.Ring.CopyOut | ipc/pipe.c:151-160 | the two chunks are the first bytes of the queue |
| Pipe.Ring.CopyIn | ipc/pipe.c:163-172 | the two chunks land behind the queue, around the end if need be |
| Pipe.Ring.Take | ipc/pipe.c:452-457 | takes the oldest bytes, as many as asked for or all, off the front |
| Pipe.Ring.Append | ipc/pipe.c:143-172 | the queue grows by exactly the bytes |
| Pipe.Ring.Read | ipc/pipe.c:406-472 | returns the oldest bytes, as many as asked for or all; all bytes ever returned are a prefix of all bytes ever accepted; end of file, try-again and blocking exactly under their conditions |
| Pipe.Ring.Write | ipc/pipe.c:558-642 | a call of at most 4096 bytes goes in whole and in one piece or not at all; a larger one stops short only when the pipe is full; broken pipe, try-again and blocking exactly under their conditions |
| PipeWake.ReadKeeps | ipc/pipe.c:406-457 | a read keeps the waiter counts and the wake conditions |
| PipeWake.DeliverKeeps | ipc/pipe.c:459-466 | so does its wake reaching any one writer |
| PipeWake.ResumeKeeps | ipc/pipe.c:447-449 | and a woken reader taking the lock again |
| PipeWake.BeginKeeps | ipc/pipe.c:558-568 | and a call of write |
| PipeWake.TryKeeps | ipc/pipe.c:576-637 | and each attempt of a writer to write or sleep |
| PipeWake.NotifyKeeps | ipc/pipe.c:634-636 | and its wake reaching any one reader |
| PipeWake.RetryKeeps | ipc/pipe.c:615-617 | and a woken writer taking the lock again |
| PipeWake.RunInv | ipc/pipe.c:406-642 | the wake invariant holds in every reachable state with any numbers of readers and writers, any capacity and any atomic size |
| PipeWake.NeverAllAsleep | ipc/pipe.c:406-642 | if an atomic write fits into the pipe, in no reachable state are all readers and all writers asleep, whatever their numbers |
| PipeWake.NeverAllAsleepIff | ipc/pipe.c:577-592 | that holds in every reachable state exactly when the atomic size is at most the capacity |
| PipeWake.TooMuchAtOnce | ipc/pipe.c:577-592 | the run with a larger atomic size: all writers ask for more than the pipe holds, and all sleep for good |
| PipeWake.ReadWakes | ipc/pipe.c:457-466 | a read that leaves room for some sleeping writer decides to wake one |
| PipeWake.NoWriterForgottenIff | ipc/pipe.c:459-466 | no writer sleeps with the room it asked for and no wake on its way, in any reachable state, if and only if there is at most one writer or no reader |
| PipeWake.SecondWriterForgotten | ipc/pipe.c:459-466 | the run with two writers: a read of the whole pipe wakes one, which writes one byte and returns |
| PipeWake.NoSleeperWithDataIff | ipc/pipe.c:626-637 | no reader sleeps on available data without a wake pending in any reachable state if and only if there is at most one reader or no writer |
| PipeWake.SecondReaderForgotten | ipc/pipe.c:626-637 | the concrete run with two readers |
| SockBuf.Buffer.constructor | net/socket.c:126-139 | an empty buffer of the capacity, of the standard one when none is given, and of at most the limit |
| SockBuf.Buffer.Write | net/socket.c:170-208 | appends as many bytes as fit; every round of the loop makes progress |
| SockBuf.Buffer.Read | net/socket.c:211-238 | takes the oldest bytes off the front; every round makes progress |
| SockBuf.Buffer.PeekAt | net/socket.c:241-290 | copies the bytes at an offset without consuming them |
| SockBuf.Buffer.Discard | net/socket.c:293-299 | drops the oldest bytes |
| SeqPacket.HeaderRoundTrip | net/socket.c:37-40 | length and credentials come back from the header bytes |
| SeqPacket.FirstFrame | net/socket.c:1616-1656 | the first record can be read off the front of the stream, and the rest is the stream of the other records |
| SeqPacket.StreamAppend | net/socket.c:1587-1588 | a record written behind the stream is the last record of the stream |
| SeqPacket.Channel.Send | net/socket.c:1530-1600 | succeeds exactly when both ends are connected and header and bytes fit, and then the whole record goes in; otherwise nothing does; it waits exactly for space that can come, a record that can never fit is refused |
| SeqPacket.Channel.Recv | net/socket.c:1603-1677 | returns the oldest record not yet received, so that the k-th consuming receive returns the k-th sent one, cut to the caller's buffer, with its length, truncation and sender's credentials; peeking changes nothing; end and waiting exactly under their conditions; a corrupt ring is never reported |

## Left out

- Boot, page-table initialisation, drivers, system-call entry, TLB flushes and logging.
- Paging: large pages inside the transition system (they are treated in `HugeSplit`), destruction of a whole address space, the area checks that decide whether a fault is allowed (nondeterministic here), a shared area whose entries lack the shared flag, rollback of a fork that runs out of memory, and swap priorities.
- Paging: allocating and copying a page, or a whole transfer to or from swap, is one step; a mapping is added only where there is none, and its protection is not turned from private to shared.
- Frames: `Frame` runs one operation at a time on the real metadata; `FrameSteps` interleaves them and sees the buddy allocator as a set of frames. The choice of CPU and frame reclaim under memory pressure.
- Heap: dynamic caches and their constructors, cookies, magic numbers and poison bytes, the bytes that `realloc` copies, statistics other than live allocations and their bytes.
- Page cache: the adaptive readahead window, writes through memory mappings, and the race between lookup and eviction; the file model sees the hash table as a map.
- Filters: ptrace hooks, signals, the tracing round of enforcement, and the bytes of a program in user memory.
- Notifications: the poll interface, sleeping and waking, and the list surgery of the queue, which is a sequence here.
- Pipes: `tee`, user-memory copies, closing and signals in the wake protocol.
- Sockets: streams, datagrams, addresses, connection set-up, descriptor passing and the waking of senders.
- Buddy.Allocator.constructor: requires valid arguments; `Buddy.Allocator.Init` has the rejection of an empty or oversized range.
- Buddy.Allocator.AddRange: requires that no page of the range is free already, because the pages inside a free block look reserved to the code's own test.
- SwapSlots.SlotMap.Alloc: the bitmap is an array of booleans, not of 64-bit words.
- Reclaim.Cache.Reclaim: that a page in use goes only if `InUseGoes` is proved for every call, that it does go only where `ReclaimCourse.Suffices` holds (with nothing dirty or pinned, the standard limit on writing back and target 1: lists of up to 2044 pages; from target 128 on: up to 15 pages for each page of the target). Past that a call can give up early, at a point that depends on every walk it has made.
- Reclaim.Cache.Scan: pages whose lock is taken by someone else are not modelled, so the scan never skips one for that reason.
- Frame.Frames.Release: the hand-over flag of a page is a local list, because no other CPU runs in between; `FrameSteps` has the flags.
- Frame.Frames.constructor: starts from a buddy allocator that has its ranges; reading the memory map is not modelled.
- Heap.KernelHeap.constructor: takes size classes that `HeapLayout.Layout` can produce; the placement of the page metadata is not modelled.
- Heap.KernelHeap.Realloc: the bytes it copies are not modelled, only that the two ranges do not overlap.
- PageHash.Hash: the mask of a power of two is written as a remainder.
- WriteErrors.ReportsIff: a descriptor is checked by one thread at a time, and the error code that is returned is not modelled.
