# GEMIOS: a verified model

GEMIOS is a bare-metal real-time operating system for 32-bit x86 with its own toolchain.
This project models the parts of it whose correctness is hard to see from one function at a
time, and proves in Dafny 4.11 what they are for. `dafny verify dfyconfig.toml` checks everything.

- **Scheduler and synchronisation** (`SyncObjects`, `Scheduler`, `Fairness`, `MutexHold`,
  `StepLaws`, `Kernel`, `MessageQueue`, `QueueOnKernel`). `Scheduler` is a transition system whose
  steps are the regions between `irq_save` and `irq_restore` and the scheduling decision; its
  invariant is carried to every reachable state. `Kernel` is the same code in its imperative form:
  an array of task blocks with wait lists threaded through them, each method proved to do exactly
  the step of the transition system. `Fairness` proves progress over whole runs, `MutexHold` counts
  locks and unlocks along them, and `StepLaws` says field by field what each call changes.
  `MessageQueue` interleaves any number of senders and receivers, down to single bytes of the copies
  and single counter updates; `QueueOnKernel` proves that every run of the scheduled kernel is such
  an interleaving.
- **FAT driver and its host twin** (`FatEntry`, `FatChain`, `FatVolume`, `FatFile`, `HostCopy`,
  `LongName`, `Directory`, `FatStore`, `OnDisk`). Cluster chains in a packed table on a sector device, the
  read, write and free loops, the chain builder of `mcopy`, the long-name writer and parser up to
  "create, then find" on the fixed root directory, and on top of both `fat_write_file` and
  `fat_read_file`: what is written under a name is read back under it, and every other file stays.
  `OnDisk` pins the formats down in bytes and numbers.
  Terms follow Microsoft's "FAT: General Overview of On-Disk Format", version 1.03.
- **Memory managers** (`BlockList`, `Heap`, `PageAllocator`). The first-fit heap as a theory of
  block lists and as code on memory words; the page allocator as a bitmap of 32-bit words, from
  the memory map on.
- **xHCI rings** (`XhciRing`). Producer, consumer and link TRB as a state machine over all runs,
  against sections 4.9.2 to 4.9.4 of the xHCI specification.
- **Assembler and linker** (`ModRm`, `AsmSymbols`, `TwoPass`, `SymbolLaws`, `ObjectFile`, `LinkLayout`,
  `Linker`, `LinkInput`, `Toolchain`). Operand encoding against section 2.1.5 of the Intel manual (Volume 2),
  the agreement of the two passes over lines whose size depends on where they stand, the object
  file with its reordered symbols, and the way of every input byte and relocation into the loaded
  segment (System V ABI Intel386 supplement, chapter 4). `Toolchain` joins them: from the lines of
  any number of files to the image in memory, operands decode to what was written with their
  symbols resolved, and calls and jumps land on the lines they mean.
- **Make and audio** (`Make`, `Audio`). The dependency walk, and the arithmetic of the square root
  and of the resampler.

`Prelude` and `Words` hold shared values, the mask form of `ALIGN_UP` and little-endian words.

Where a property turned out false of the code, the code was kept and the exact condition proved:

- `kmalloc` serves a request with a block that is too small exactly when the size exceeds 2^32 - 8
  (`BlockList.MallocServes`, `BlockList.WrappedRequest`).
- `heap_init` stays inside its region exactly when the start address is a multiple of 16
  (`BlockList.InitStaysInside`).
- `kmalloc_aligned` returns an aligned pointer for every power of two but eight, for eight exactly
  when the header of the block lies at an address that leaves the remainder four, which that of the
  first block never does (`BlockList.PayloadAlignment`, `Heap.KernelHeap.KmallocAligned`). What it
  returns lies inside its raw block exactly when size, alignment and slot do not wrap around
  (`BlockList.AlignedFitsExactly`).
- `mcopy` leaves the table as it was, when the image is too full, exactly when at most 65536 clusters
  were free (`HostCopy.CopyFile`).
- The counter of `pmm_init` is right exactly when no two released regions of the memory map share a
  page (`PageAllocator.InitCount`, `PageAllocator.OverlapMiscounts`).
- A page that `pmm_init` releases lies inside the memory map entry that gives it exactly when the entry
  begins on a page boundary or the page is not its first (`PageAllocator.GivenInside`,
  `PageAllocator.PartialPage`).
- `xhci_submit_cmd` writes what `xhci_ring_enqueue_trb` writes exactly when the TRB comes without a
  cycle bit or the bit is set in this lap (`XhciRing.TrbRing.SubmitTrb`).
- A long name is restored exactly when it has at most 247 characters, although names of up to 255
  are written (`LongName.RestoredExactly`).
- A created name is found again exactly when no end mark lies before the chosen slots and it has at
  most 247 characters (`Directory.CreateThenFind`; `Directory.BehindEndMark` is a directory in which
  it is lost); a short name survives exactly when it does not end in a dot
  (`Directory.ShortNameRoundTrip`).
- A file is read back whole exactly when it has at most 65536 clusters, which a new one always has
  (`FatStore.WriteThenReadFile`).
- An operand keeps its meaning exactly when its index is not %esp and its scale is 1, 2, 4 or 8
  (`ModRm.MeaningIsForm`).
- `ALIGN_UP` clears the bits of the alignment less one. It gives multiples for every number exactly
  when the alignment is a power of two (`Prelude.AlignsExactly`); by six, one is rounded to two. So
  an alignment directive does what it says exactly for powers of two (`TwoPass.DirectivesExactly`),
  and input sections are aligned whenever their output section is exactly for those alignments
  (`LinkLayout.AlignmentsExactly`, with `LinkLayout.CodeMisaligned` for all others). For a power of
  two an input section is aligned in memory exactly when its output section is
  (`LinkLayout.AddressAligned`; `LinkLayout.DataMisaligned` is one that is not), and what follows an
  `.align` directive inherits this (`Toolchain.AlignLoaded`). `pmm_alloc_pages_aligned` returns an
  aligned run exactly when its rounded start page is aligned (`PageAllocator.Pmm.AllocPagesAligned`).
- The encoding of an operand is the shortest that means the same, except that %esp as an index costs a
  byte (`ModRm.Shortest`).
- A numeric jump leads to the label it means exactly when a signed byte reaches it; otherwise the
  assembler emits a wrong byte without a word (`TwoPass.JumpLands`, `TwoPass.FarJumpMisses`).
- A numeric label is looked up on strictly earlier or later lines, so that `1: jmp 1b` on one line
  does not refer to itself (`TwoPass.SameLineFallsThrough`).

The repository's own README speaks of fixed-priority scheduling. The code ages every ready task
that was passed over and resets the chosen one to its base priority (src/rtos/sched.c:56-77), and
the model follows the code; `Fairness.BoundedWaiting` is what results.

## Model

| member | source | states |
|---|---|---|
| MessageQueue.StepInv | src/rtos/sync.c:219-255 | every step of every task in send or receive keeps the joint invariant of wait queues, mutex owner, tokens, ring and logs |
| MessageQueue.RunInv | src/rtos/sync.c:187-255 | the invariant holds in every state of every run from a created queue, for any number of tasks and any interleaving |
| MessageQueue.TokenConservation | src/rtos/sync.c:187-255 | space and item tokens, free, held and owed, always add up to the capacity |
| MessageQueue.CountBounds | src/rtos/sync.c:225-230 | 0 <= count <= capacity always, and tail == (head + count) mod capacity whenever nobody is between the index and the counter update |
| MessageQueue.NoTokenDropped | src/rtos/sync.c:74-90 | the saturation branch of rtos_sem_signal is never taken by a queue |
| MessageQueue.FifoDelivery | src/rtos/sync.c:219-255 | items taken are the items put in, byte for byte and in buffer order, and each task's completed calls report exactly its share |
| MessageQueue.MutualExclusion | src/rtos/sync.c:223-231 | at most one task is between lock and unlock |
| MessageQueue.NoDeadlock | src/rtos/sync.c:219-255 | if no call in progress can move, the buffer is full with only senders waiting, or empty with only receivers waiting |
| MessageQueue.CreatedEmpty | src/rtos/sync.c:187-210 | a queue of any capacity and item size above zero begins empty with all its space free, whatever is in the buffer |
| MessageQueue.CallBegins | src/rtos/sync.c:219-255 | a call begins with the caller's item and as many steps in front of it as the item has bytes, and six; nothing else changes |
| MessageQueue.CallProgress | src/rtos/sync.c:219-255 | every step of a call, parked or not, leaves one step less, and moves nobody else's call; only a call that does not wait ends early, exactly when there is no token |
| MessageQueue.CallReports | src/rtos/sync.c:219-255 | the last step reports the item that was moved |
| QueueOnKernel.TransferEnabled | src/rtos/sync.c:219-255 | what the current task does next in a queue call is always possible in the queue's transition system: a task that can run is parked nowhere |
| QueueOnKernel.ParkedExactly | src/rtos/sync.c:21-72 | the kernel has a task blocked on a semaphore or the mutex of the queue if and only if the queue has it parked there |
| QueueOnKernel.StaysRunnable | src/rtos/sched.c:85-165 | no kernel step makes a runnable task unrunnable but a current one that parks, sleeps or ends |
| QueueOnKernel.MoveGood | src/rtos/sync.c:44-255 | a step in the queue is the kernel call on its semaphore or mutex, and everything else leaves the queue alone: both invariants hold and the objects agree after every move |
| QueueOnKernel.MoveExactly | src/rtos/sync.c:219-255 | a step in the queue is a step of the queue's transition system and, of the kernel, exactly the call on semaphore or mutex that the code makes there; every other move is a step of the kernel and leaves the queue alone |
| QueueOnKernel.MovesPossible | src/rtos/sync.c:219-255 | interrupts and yields are always possible; outside the queue the current task makes exactly the calls that do not use its objects, and one that can run begins a call or goes on with its own |
| QueueOnKernel.RunGood | src/rtos/sync.c:187-255 | in every state of every run of the scheduled kernel the queue is in a state that its own transition system reaches |
| QueueOnKernel.DeliveredInOrder | src/rtos/sync.c:219-255 | so delivery is first in, first out and tokens are conserved under the scheduler, with the counts of the kernel's semaphores |
| QueueOnKernel.CallBlockedOrReady | src/rtos/sync.c:219-255 | in every run a task inside a queue call is blocked on one of the queue's objects or can run |
| QueueOnKernel.NoDeadlockUnderScheduler | src/rtos/sync.c:219-255 | if no task inside a queue call can run, the queue is full with all of them blocked for space, or empty with all blocked for items |
| Scheduler.StepInv | src/rtos/sync.c:44-184 | every kernel call, interrupt and task operation preserves the scheduler and synchronisation invariant |
| Scheduler.StartInv | src/rtos/sched.c:167-182 | rtos_sched_start establishes it from any table of ready tasks |
| Scheduler.RunInv | src/rtos/sched.c:85-165 | it holds in every state of every run |
| Scheduler.PickWins | src/rtos/sched.c:40-83 | the picker returns the runnable task of highest dynamic priority, the first one behind the last choice among equals, and none only if none is runnable |
| Scheduler.PrefixCount | src/rtos/task.c:150-177 | with used slots forming a prefix, the number of used slots bounds exactly the used ones |
| Scheduler.SchedulerSafety | src/rtos/sched.c:40-135 | in every reachable state a running task is the current one, base <= priority <= 15, used slots form a prefix of the table, and the idle task is runnable |
| Scheduler.SemaphoreSafety | src/rtos/sync.c:44-90 | in every reachable state a semaphore with waiters has count 0, a task is in a queue exactly when it is blocked on that object, once and in one queue only |
| Scheduler.MutexSafety | src/rtos/sync.c:101-184 | in every reachable state a mutex is locked exactly when it has an owner, with recursion >= 1, and the owner is not in its queue |
| Scheduler.NoLostWakeup | src/rtos/sync.c:267-319 | a task blocked on an event group for mask m has flags & m == 0 in every reachable state |
| Fairness.BoundedWaiting | src/rtos/sched.c:40-83 | a task that stays ready is passed over by fewer than (15 - priority) + count decisions, whatever the others do |
| Fairness.SleepExact | src/rtos/time.c:43-49 | a task that sleeps n ticks is ready on exactly the n-th timer interrupt, however many yields and calls come between |
| Fairness.DelayExact | src/rtos/time.c:32-54 | rtos_delay_ticks(n) makes its caller runnable again on exactly the n-th timer interrupt |
| Fairness.DecisionPriorities | src/rtos/sched.c:56-77 | a decision resets the chosen task to its base priority, raises every other runnable one by one up to 15, and changes no other |
| Fairness.OwnerRaised | src/rtos/sync.c:126-137 | when a task parks on a mutex, the owner is chosen at once or has at least its priority |
| Fairness.StepQueue | src/rtos/sync.c:21-42 | in every step newcomers join a wait queue at the back, and handing on removes its head |
| Fairness.ServedInOrder | src/rtos/sync.c:21-42 | over every run the task at position p of a queue is at position p - m after m hand-ons |
| Fairness.HeadIsServed | src/rtos/sync.c:74-184 | a signal or last unlock makes the head of the queue runnable and gives it the token or the lock |
| MutexHold.HeldDepth | src/rtos/sync.c:101-184 | over every run the recursion count of an owner is one, plus its locks, less its unlocks since it became the owner |
| MutexHold.ReleasedWhenBalanced | src/rtos/sync.c:145-184 | with the unlock that balances them the mutex is no longer its own |
| MutexHold.HeldExactly | src/rtos/sync.c:101-184 | a task that became the owner is the owner without interruption up to a state if and only if up to there it has never unlocked more often than locked again, whatever the others do |
| MutexHold.RelockUnlock | src/rtos/sync.c:120-165 | a lock by the owner followed by an unlock restores the whole state |
| MutexHold.LockOutcome | src/rtos/sync.c:101-143 | a free mutex goes to the caller; of a taken one a caller that only tries gets nothing and changes nothing, and one that waits is last in the queue and blocked |
| StepLaws.CallsPossible | src/rtos/sync.c:44-319 | in every state of the invariant interrupts and yields are possible; a current task that can run can make every call on every object, the idle task all but those that block, sleep or end; nothing else is possible |
| StepLaws.CreateLaw | src/rtos/task.c:26-108 | the first unused or terminated slot holds a ready task with base == priority == min(p, 15), no sleep, no run time and no wait object; every other task, the current one and all objects are unchanged; without a slot nothing changes |
| StepLaws.ExitLaw | src/rtos/task.c:110-123 | the current task is terminated and nothing else differs |
| StepLaws.DelayLaw | src/rtos/time.c:32-54 | the current task sleeps for exactly that many ticks, with its priority, and nothing else differs; zero ticks change nothing |
| StepLaws.SetLaw | src/rtos/sync.c:293-312 | a mask meets the flags afterwards exactly if it met them before or meets the bits set; every task blocked on the group is ready with its mask, and every other task as it was |
| StepLaws.WaitLaw | src/rtos/sync.c:267-291 | if the flags meet the mask the caller goes on, with exactly those bits cleared if it asked for that; otherwise it is blocked for the mask |
| StepLaws.ClearLaw | src/rtos/sync.c:314-319 | exactly the given bits of that group are cleared |
| StepLaws.SetDelivers | src/rtos/sync.c:267-312 | a task that waited for a mask meeting the bits set is runnable, and its next round returns instead of blocking |
| StepLaws.SemWaitLaw | src/rtos/sync.c:44-72 | a token is taken if there is one; without one a caller that only tries changes nothing and any other is last in the queue and blocked |
| StepLaws.SemSignalLaw | src/rtos/sync.c:74-90 | without waiters the count grows by one up to the maximum; with waiters it stays, and the head leaves the queue and can run |
| StepLaws.UnlockLaw | src/rtos/sync.c:145-184 | only the owner changes anything; its last unlock resets it to its base priority and frees a mutex that nobody waits for |
| StepLaws.DecisionLaw | src/rtos/sched.c:85-135 | a decision charges the task that was current, makes the chosen one run, and turns a running one that it replaces to ready; nobody else starts or stops running, and no base priority changes |
| StepLaws.WakeLaw | src/rtos/sched.c:156-165 | a woken task is ready with its priority, and there is a new decision exactly if that is higher than the priority of the current task |
| Kernel.Machine.constructor | src/rtos/sched.c:25-30 | a table with the idle task alone and fresh objects with empty lists satisfy the invariant |
| Kernel.Machine.GetTaskCount | src/rtos/task.c:150-161 | the loop counts the used slots |
| Kernel.Machine.GetTaskByIndex | src/rtos/task.c:163-177 | the i-th used slot is slot i, and there is none beyond the count |
| Kernel.Machine.FindNextReadyTask | src/rtos/sched.c:40-83 | the sweep chooses the task the transition system picks and ages and resets exactly as it says |
| Kernel.Machine.ScheduleFromIsr | src/rtos/sched.c:85-135 | one call is one scheduling decision, after the tick of the sleepers if it is a timer interrupt |
| Kernel.Machine.AddWaiter | src/rtos/sync.c:21-30 | the list of links represents the queue with the task appended, and no other link changes |
| Kernel.Machine.PopWaiter | src/rtos/sync.c:32-42 | the head is returned and the list represents the rest |
| Kernel.Machine.TaskBlock | src/rtos/sched.c:147-154 | the current task blocks on the object and a decision is made |
| Kernel.Machine.TaskUnblock | src/rtos/sched.c:156-165 | the task becomes ready and a decision is made |
| Kernel.Machine.SemWaitCall | src/rtos/sync.c:44-72 | the code on linked lists does exactly the semaphore-wait step and keeps the invariant |
| Kernel.Machine.SemSignalCall | src/rtos/sync.c:74-90 | the same for a signal: hand-off, increment or saturation |
| Kernel.Machine.MutexLockCall | src/rtos/sync.c:101-143 | the same for locking: recursion, priority raise and queueing; how long the lock is held is in `MutexHold` |
| Kernel.Machine.MutexUnlockCall | src/rtos/sync.c:145-184 | the same for unlocking: priority reset and hand-off, also for a caller that is not the owner |
| Kernel.Machine.EventWaitRound | src/rtos/sync.c:267-291 | one round of the wait loop returns the flags or blocks |
| Kernel.Machine.EventSetCall | src/rtos/sync.c:293-312 | all tasks blocked on the group become ready |
| Kernel.Machine.EventClearCall | src/rtos/sync.c:314-319 | clearing flags is the step of the transition system |
| Kernel.Machine.DelayTicks | src/rtos/time.c:32-54 | the current task is put to sleep for that many ticks; the decision that follows is a step of its own |
| Kernel.Machine.TaskCreate | src/rtos/task.c:26-108 | the first unused or terminated slot is filled with a ready task whose base and priority are the argument cut to 15, with no sleep and no wait object, and no other task, object or the current task changes; none is returned, and nothing changes, exactly when the table is full or there is no stack |
| Kernel.Machine.TaskExit | src/rtos/task.c:110-123 | the current task is marked terminated; the decision that follows is a step of its own |
| Kernel.Machine.Interrupt | src/rtos/sched.c:85-141 | timer interrupts and yields are steps of the transition system |
| FatEntry.SetGet | tools/mcopy.c:219-258 | after fat_set_entry, reading the entry gives the value cut to 12, 16 or 28 bits |
| FatEntry.SetOther | tools/mcopy.c:219-258 | no other entry changes, FAT12 neighbours in a shared byte included |
| FatChain.ChainExtend | src/fs/fat.c:1394-1401 | marking a free cluster and linking it behind the last one extends the chain, without a repetition |
| FatChain.ChainCut | src/fs/fat.c:1390-1392 | an end mark in the middle leaves the chain up to there |
| FatVolume.EnteredLaws | src/fs/fat.c:494-536 | patching the sector of an entry, in both copies, changes one entry of the table, no cluster and no sector of the root directory, and keeps the copies equal |
| FatVolume.RawDetermines | src/fs/fat.c:494-536 | the raw entries determine every byte of a table sector |
| FatVolume.Volume.GetNextCluster | src/fs/fat.c:456-492 | the sector arithmetic reads the right entry; free, reserved and self-linked ones and those from the end marks on end the walk, the bad mark does not |
| FatVolume.Volume.SetFatEntry | src/fs/fat.c:494-536 | the new state of the whole device, the table, the clusters and the second copy |
| FatVolume.Volume.AllocFreeCluster | src/fs/fat.c:538-593 | the lowest free cluster of the scanned range is marked, and zero is returned exactly when there is none |
| FatVolume.Volume.ReadCluster | src/fs/fat.c:595-600 | the sectors of the cluster, joined |
| FatVolume.Volume.WriteCluster | src/fs/fat.c:602-607 | that cluster holds the buffer; the table and all other clusters stay |
| FatFile.WriteData | src/fs/fat.c:1357-1405 | it succeeds exactly when the file's own clusters and the free ones among the first 32768 hold the bytes and are at least one; then the file is a chain that carries the bytes, zero-filled, in as few clusters as possible: the old chain cut short or continued in free clusters; on failure the scanned table is full; either way only its own and free clusters changed, and the root directory did not |
| FatFile.OtherFileKept | src/fs/fat.c:1357-1405 | every other file keeps its chain and its contents, whether the write succeeds or not |
| FatFile.ReadData | src/fs/fat.c:1279-1320 | the read loop returns the contents of the chain, cut off at the requested length and at 65536 clusters |
| FatFile.WriteThenRead | src/fs/fat.c:1279-1405 | what was written is read back, for new, longer, shorter and empty files |
| FatFile.FreshLength | src/fs/fat.c:545-549 | a new file has at most 32768 clusters |
| FatFile.FreeClusterChain | src/fs/fat.c:1705-1721 | on any table, cyclic ones included, exactly the entries on the walk from the start are cleared, and the loop ends by itself once the links are exhausted |
| FatFile.WalkIsChain | src/fs/fat.c:1705-1721 | on a well-formed chain that walk is the chain |
| FatFile.WriteThenFree | src/fs/fat.c:1357-1721 | writing a new file and freeing its chain restores every byte of both table copies, reserved bits included |
| HostCopy.KindSuffices | tools/mcopy.c:396-402 | twelve bits below 4085 clusters, sixteen below 65525, else 28: the width chosen from the cluster count never lets a cluster number look like an end mark |
| HostCopy.EntriesSet | tools/mcopy.c:219-258 | setting an entry in the buffer is an update of the table of values at every width |
| HostCopy.FatSetEntry | tools/mcopy.c:234-258 | the byte writes do that |
| HostCopy.AllocateFreeCluster | tools/mcopy.c:260-268 | the lowest free cluster, or zero exactly when none is free |
| HostCopy.FreeClusterChain | tools/mcopy.c:270-280 | the first 65536 clusters of a chain are cleared and nothing else |
| HostCopy.CopyFile | tools/mcopy.c:425-477 | it succeeds exactly when enough clusters are free; then the chain consists of formerly free clusters that carry the file and nothing else changed; otherwise the entries are as before if and only if at most 65536 clusters were free |
| HostCopy.CopyReadable | tools/mcopy.c:425-477 | the copy is an acyclic chain whose contents are the source file and less than a cluster of zeros |
| HostCopy.CopyKeepsOthers | tools/mcopy.c:425-477 | every chain that was on the image is still there with its contents |
| LongName.LfnChecksum | src/fs/fat.c:63-70 | the loop computes the rotating checksum |
| LongName.AcceptedExactly | src/fs/fat.c:113-167 | from reset, long entries and a short one are accepted if and only if a suffix is a complete run n..1 that starts with the entry marked last and carries the short name's checksum; that suffix is reported |
| LongName.ValidOnlyInRun | src/fs/fat.c:118-156 | the parser is valid only inside such a run |
| LongName.LongNameRoundTrip | src/fs/fat.c:85-167 | the written entries of every name of 1 to 255 characters, fed to a parser in any state, give a valid long name with the right start and count: the first 247 characters |
| LongName.RestoredExactly | src/fs/fat.c:146-153 | that is the whole name if and only if it has at most 247 characters |
| LongName.LfnParser.FeedEntry | src/fs/fat.c:113-167 | the updates in place do what the parsing function says |
| LongName.LfnParser.DecodeChars | src/fs/fat.c:72-83 | decoding stops at the terminator or the padding |
| Directory.FindEntry | src/fs/fat.c:622-680 | the search over sectors and slots returns the first match before the end mark, up to 1024 sectors |
| Directory.HitExactly | src/fs/fat.c:640-662 | an entry is a match if and only if it is in use, neither a long entry nor a volume label, and its long name or its formatted short name equals the name character by character, an ASCII letter and its other case being the same |
| Directory.FindCaseless | src/fs/fat.c:40-53 | names that differ in the case of ASCII letters only give the same search result, on every directory |
| Directory.FindsReadme | src/fs/fat.c:622-680 | the short entry "README  TXT" in the first slot is found as "readme.txt" |
| Directory.FindFreeSlots | src/fs/fat.c:790-822 | the lowest run of n free slots, across sectors, or none exactly when there is none |
| Directory.WriteEntries | src/fs/fat.c:898-941 | the run of slots holds the entries and every other slot of the device is unchanged |
| Directory.CreateEntry | src/fs/fat.c:1345-1440 | a name that was not there is written into the lowest run of free slots; nothing is written exactly when the name is there or no run is long enough |
| Directory.CreateThenFind | src/fs/fat.c:622-941 | afterwards the search finds the long name there if and only if no end mark lies before it and the name has at most 247 characters; a longer one is passed over |
| Directory.CreateAndFind | src/fs/fat.c:622-941 | in a directory in which nothing follows the end mark it is found exactly when it has at most 247 characters, and a longer one never in its own slots |
| Directory.BehindEndMark | src/fs/fat.c:622-822 | a concrete directory in which the lowest free run lies behind the end mark and the created name is not found |
| Directory.FindSame | src/fs/fat.c:622-766 | a search gives the same answer on directories whose slots are equal up to the data fields of visible entries |
| Directory.FindKept | src/fs/fat.c:622-941 | a name that was found is found where it was after a new file is entered, unless it now leads to the new file |
| Directory.ShortNameRoundTrip | src/fs/fat.c:315-402 | formatting the stored short form of a name gives the name, less a dot at its end, "." and ".." apart |
| Directory.CreateThenFindShort | src/fs/fat.c:622-941 | the same as CreateThenFind for names kept as short names; one that ends in a dot matches only through a stray long name |
| FatStore.DataLaws | src/fs/fat.c:1413-1429 | the first cluster and the length written into an entry are read back from it, and its short name stays |
| FatStore.Overwrite | src/fs/fat.c:1342-1420 | an existing file is found under its name with the new contents, exactly when it is no directory and its own and the free clusters hold them; otherwise the directory is as before; every other file stays |
| FatStore.Create | src/fs/fat.c:1342-1440 | exactly when there is a run of free slots and enough free clusters a new file lies on free clusters with its contents, and is found under its name if that can be found again; otherwise the directory is as before; every other file stays |
| FatStore.WriteFile | src/fs/fat.c:1322-1440 | both cases together: it succeeds exactly when the name is that of a file, or is new and has a run of free slots, and the clusters hold the bytes; all other files are found under all their names with their contents, unless the name now leads to the file that was written |
| FatStore.ReadFile | src/fs/fat.c:1251-1320 | a name that is not there or names a directory fails; otherwise the contents of the chain come back, up to the length, the limit of the caller and 65536 clusters |
| FatStore.WriteThenReadFile | src/fs/fat.c:1251-1440 | a file written under a name, which succeeds exactly when there is room for it, is read back whole under that name if and only if it has at most 65536 clusters of its size; a new file always is |
| FatStore.AllCreated | src/fs/fat.c:1322-1440 | every file that was stored is stored as before once the entries of a new one are placed, unless its name leads to the new one |
| FatStore.AllRewritten | src/fs/fat.c:1408-1420 | the same when an entry is rewritten in place |
| OnDisk.Entries12 | tools/mcopy.c:219-232 | two FAT12 entries share three bytes: the low twelve bits and the high twelve |
| OnDisk.Entries16 | tools/mcopy.c:219-232 | a FAT16 entry is two bytes at twice its number, the low one first |
| OnDisk.Entries32 | tools/mcopy.c:219-232 | a FAT32 entry is 28 bits of four bytes |
| OnDisk.TableBytes | src/fs/fat.c:456-492 | on the device entry c begins at byte 2c or 4c behind the first sector of the table |
| OnDisk.ClusterByte | src/fs/fat.c:595-607 | byte i of cluster c is byte i mod 512 of sector i / 512 of the run of sectors that begins at data start + (c - 2) * sectors per cluster |
| OnDisk.Links | src/fs/fat.c:456-492 | a chain goes on exactly to numbers from 2 to below FFF8 or 0FFFFFF8 that are not the cluster itself |
| OnDisk.LongEntryBytes | src/fs/fat.c:898-941 | the bytes of a written long entry: number with the mark 64 on the last, attribute 15, checksum, and the thirteen characters at their places with a zero and FFFF behind the end |
| OnDisk.ChecksumNext | src/fs/fat.c:63-70 | each byte turns the sum right by one bit and is added, in eight bits |
| OnDisk.NumberBounds | src/fs/fat.c:118-145 | a long entry numbered zero or above twenty is dropped; one marked last begins a name with that count and checksum |
| OnDisk.SlotByte | src/fs/fat.c:632-641 | sixteen slots of 32 bytes to a sector |
| OnDisk.ShortExactly | src/fs/fat.c:370-402 | a name needs no long entries if and only if it is "." or "..", or has no small letter, blank or one of + , ; = [ ], at most one dot, one to eight characters in front of it and up to three behind, or up to eight without a dot |
| OnDisk.ShortFormBytes | src/fs/fat.c:344-368 | each byte of a stored short name: the capital of its character up to the dot or a slash either way, else a blank |
| OnDisk.ShortEntryFields | src/include/fs/fat.h:71-84 | first cluster, length and the directory bit of an entry at their offsets, little-endian |
| OnDisk.ShortEntryWritten | src/fs/fat.c:1407-1440 | a rewritten entry is marked as an archive and keeps its name and times |
| BlockList.TakenOk | src/kernel/heap.c:36-80 | splitting or taking a block keeps the exact tiling with no two free neighbours |
| BlockList.FreedOk | src/kernel/heap.c:153-196 | so do freeing and merging with both neighbours |
| BlockList.TakenLive | src/kernel/heap.c:36-80 | one live block is added and no other changes |
| BlockList.FreedLive | src/kernel/heap.c:153-196 | one live block is removed and no other changes |
| BlockList.FreeUndoesMalloc | src/kernel/heap.c:36-196 | freeing the block just allocated restores the block list |
| BlockList.RunOk | src/kernel/heap.c:36-196 | over every sequence of kmalloc and kfree on live pointers the blocks tile the heap and stay coalesced |
| BlockList.HeldBlockStays | src/kernel/heap.c:36-196 | a block that is not freed keeps its place over every such sequence |
| BlockList.FreeAllRestores | src/kernel/heap.c:24-196 | freeing everything, in any order, restores the single initial free block |
| BlockList.BytesConserved | src/kernel/heap.c:198-224 | headers, live and free bytes always add up to the region |
| BlockList.MallocServes | src/kernel/heap.c:36-80 | the lowest fitting block is taken, none exactly when none fits, and the rounded size covers the request exactly up to 2^32 - 8 |
| BlockList.ServedExactly | src/kernel/heap.c:43-70 | the block handed out has the rounded size or less than 36 bytes more, exactly the rounded size whenever 36 bytes or more are left over, and these are then one free block directly behind it; every other block stays |
| BlockList.WrappedRequest | src/kernel/heap.c:40-46 | a larger request is rounded to zero and served |
| BlockList.InitStaysInside | src/kernel/heap.c:24-34 | the initial block ends inside the region if and only if the start is a multiple of 16 |
| BlockList.PayloadAlignment | src/kernel/heap.c:94-103 | for a power of two up to eight every payload is aligned, but to eight if and only if its header leaves the remainder four; the first one never is |
| BlockList.AlignedFitsExactly | src/kernel/heap.c:105-113 | for any alignment the result with all its bytes lies inside the raw block if and only if size + alignment + 4 <= 2^32 - 8 |
| BlockList.MaskForms | src/kernel/heap.c:24-46 | rounding to eight and to sixteen is the mask form of ALIGN_UP |
| Heap.KernelHeap.constructor | src/kernel/heap.c:24-34 | one free block over the region |
| Heap.HeaderWords | src/kernel/heap.c:10-18 | the five words of a header in memory: mark, size, free flag and the addresses of its neighbours, or zero |
| Heap.KernelHeap.Kmalloc | src/kernel/heap.c:36-80 | the header words in memory follow the block-list step, next and prev as mutual inverses, no live payload word changes, and the block returned has the rounded size or less than 36 bytes more |
| Heap.KernelHeap.Kfree | src/kernel/heap.c:153-196 | the same for freeing, for plain and for aligned pointers |
| Heap.KernelHeap.KmallocAligned | src/kernel/heap.c:94-116 | aligned for every power of two but eight, and for eight if and only if the header of the chosen block leaves the remainder four; beyond eight, for any alignment, the result is the mask form of ALIGN_UP and lies, with the slot that leads back, inside its raw block |
| Heap.KernelHeap.Krealloc | src/kernel/heap.c:118-151 | null, zero, shrinking, growing and aligned pointers: contents travel, other live blocks keep theirs, and growing fails exactly when no free block fits |
| Heap.KernelHeap.HeapStats | src/kernel/heap.c:198-224 | the walk adds up the used and the free bytes |
| PageAllocator.Pmm.AllocPages | src/kernel/mmu.c:107-137 | the lowest run of count free pages is marked, zero exactly when there is none; the counter equals the number of set bits |
| PageAllocator.Pmm.AllocPagesAligned | src/kernel/mmu.c:139-169 | the lowest run of count free pages among the starts that the loop visits is marked, zero exactly when there is none; it is aligned if and only if the rounded start page is, so always for a power of two, and then so is the address |
| PageAllocator.ThreePages | src/kernel/mmu.c:145-149 | with an alignment of three pages a start at page four is not rounded |
| PageAllocator.Pmm.FreePages | src/kernel/mmu.c:175-189 | the pages are free and the counter equals the number of set bits, double frees and pages beyond the end included |
| PageAllocator.Pmm.ReleaseRegion | src/kernel/mmu.c:66-90 | a usable region of the memory map is cleared and counted |
| PageAllocator.CountMarked | src/kernel/mmu.c:107-189 | marking a free run adds its length to the number of set bits |
| PageAllocator.FreeUndoesAlloc | src/kernel/mmu.c:107-189 | free after alloc restores the bitmap and the counter |
| PageAllocator.RegionCount | src/kernel/mmu.c:84-87 | releasing one region keeps the counter right if and only if all its pages were marked, and never leaves it too high |
| PageAllocator.InitCount | src/kernel/mmu.c:56-100 | over the whole memory map the counter is right if and only if no two released regions share a page |
| PageAllocator.OverlapMiscounts | src/kernel/mmu.c:20-100 | a memory map of eight megabytes whose last one is listed twice leaves the counter at one page, below the number of marked pages |
| PageAllocator.Pmm.Init | src/kernel/mmu.c:20-100 | a page is free if and only if it is not below the start behind kernel and bitmap and a usable entry of the map gives it, or there is no map; the counter is right if and only if the regions are disjoint |
| PageAllocator.FreeAfterInit | src/kernel/mmu.c:62-100 | the same of the regions in their order, for every map, start and page |
| PageAllocator.PageTotal | src/kernel/mmu.c:26-50 | as many pages as fit below the highest end of a usable entry; without one as fit into the given kilobytes, and without map and size 32768 |
| PageAllocator.StartBounds | src/kernel/mmu.c:52-60 | allocation begins on the first page behind the page that ends the kernel and one bit for every page |
| PageAllocator.GivenInside | src/kernel/mmu.c:72-87 | a released page lies inside its entry if and only if the entry begins on a page boundary or the page is not the first |
| PageAllocator.PartialPage | src/kernel/mmu.c:72-87 | an entry that begins in the middle of page 256 gives the whole page away |
| XhciRing.PutInv | src/usb/xhci.c:54-73 | enqueueing with fewer than size - 1 TRBs outstanding keeps the ring invariant, over the lazy wrap and the toggled cycle |
| XhciRing.PollInv | src/usb/xhci.c:34-73 | so does every look of the consumer, also past the pre-set link before the first wrap |
| XhciRing.RingRefinement | src/usb/xhci.c:34-73 | over every run the consumer has taken a prefix of what was enqueued, once each and in order |
| XhciRing.ConsumerProgress | src/usb/xhci.c:34-73 | what is outstanding is taken within two looks, and nothing is taken if nothing is |
| XhciRing.StepsPossible | src/usb/xhci.c:54-73 | with fewer than size - 1 TRBs outstanding any TRB but a link can be enqueued and is then the next one sent, and the controller can always look |
| XhciRing.OverrunLoses | src/usb/xhci.c:54-73 | one TRB more than size - 1 replaces the oldest one not yet taken |
| XhciRing.ControlFields | src/usb/xhci.c:34-73 | cycle bit, toggle flag and type are read from bits 0, 1 and 10 to 15 of the control word, and setting the cycle bit changes no other |
| XhciRing.LinkFields | src/usb/xhci.c:46-51 | the link leads to the first cell, has type six and toggles the cycle |
| XhciRing.PreparedCells | src/usb/xhci.c:34-52 | a fresh ring holds zeros and, in the last cell, the link with the cycle bit set |
| XhciRing.TrbRing.constructor | src/usb/xhci.c:34-52 | an empty ring with the link set |
| XhciRing.TrbRing.EnqueueTrb | src/usb/xhci.c:54-73 | the writes in place are the enqueue step |
| XhciRing.TrbRing.SubmitTrb | src/usb/xhci.c:320-335 | so is the variant in xhci_submit_cmd, if and only if the TRB comes without a cycle bit or the bit is set in this lap |
| XhciRing.EventSeen | src/usb/xhci.c:284-310 | the driver sees an event exactly when one is outstanding, and then the next one |
| XhciRing.EventRefinement | src/usb/xhci.c:284-310 | over every run the events polled are a prefix of those posted |
| XhciRing.EventRing.Poll | src/usb/xhci.c:284-310 | the code is the polling step |
| ModRm.Section.EmitModRmSib | tools/as.c:602-711 | all branches emit the encoding, and in the second pass the relocation of the displacement |
| Prelude.AlignUpBounds | src/include/types.h:39 | ALIGN_UP never goes down nor up by the alignment or more; for a power of two it is the next multiple |
| Prelude.AlignsExactly | src/include/types.h:39 | it gives multiples for every number if and only if the alignment is a power of two |
| Prelude.AndBits | src/include/types.h:39 | the conjunction it uses is that of the bits |
| ModRm.EncodeDecode | tools/as.c:602-711 | decoding the bytes by the processor's rules, anywhere in a section, gives the register field, the meaning of the operand with its symbol, and exactly that length |
| ModRm.MeaningIsForm | tools/as.c:624-628 | that meaning is the operand as written if and only if the index is not %esp and the scale is 1, 2, 4 or 8 |
| ModRm.Shortest | tools/as.c:602-711 | no other bytes that decode to the same register field and meaning are fewer, unless %esp was written as an index |
| ModRm.EncodedLength | tools/as.c:602-711 | the number of bytes, from the presence of base, index, symbol and displacement |
| AsmSymbols.ApplyLook | tools/as.c:252-273 | after any sequence of labels and directives a name has the latest place, size and binding that was given to it |
| AsmSymbols.Idempotent | tools/as.c:1897-1910 | going through the same sequence again changes no symbol and not their order |
| TwoPass.FindNumeric | tools/as.c:1167-1190 | the loops find the nearest matching label before or behind the line |
| TwoPass.PassesAgree | tools/as.c:1897-1910 | after every line both passes have the same size of every section, alignment directives included, whose size depends on where they stand |
| TwoPass.AlignedAfter | tools/as.c:931-944 | an alignment directive moves its section by less than its argument, and to a multiple if that is a power of two |
| TwoPass.DirectivesExactly | tools/as.c:931-944 | every directive with this argument leaves its section at a multiple of it if and only if it is a power of two |
| TwoPass.SecondAligns | tools/as.c:931-944 | the second pass finds every section alignment as the first left it |
| TwoPass.SecondLabels | tools/as.c:841-857 | the second pass rewrites every label offset with the value it has |
| TwoPass.SymbolsAgree | tools/as.c:836-1002 | both passes end with the same symbols in the same order, from labels, .globl, .set and .comm, and the second one adds none |
| TwoPass.SymbolPlace | tools/as.c:836-851 | the symbol of a label has the section and the place of the last line that has it |
| SymbolLaws.SetNumber | tools/as.c:993-1002 | a name that was last given a value by .set is absolute with that value |
| SymbolLaws.CommonStorage | tools/as.c:920-930 | a name that was last given storage by .comm is common with that size and alignment |
| SymbolLaws.NoSize | tools/as.c:252-273 | a name without a .comm line has size zero |
| SymbolLaws.GlobalExactly | tools/as.c:906-930 | a name is global if and only if the last of its .globl, .local and .comm lines is .globl or .comm |
| SymbolLaws.SectionAlignment | tools/as.c:931-944 | the alignment of a section is the largest that its directives ask for, and at least four |
| TwoPass.LabelsExactly | tools/as.c:841-851 | the label table holds each labelled line with its section and place, and nothing else |
| TwoPass.JumpLands | tools/as.c:1150-1200 | a numeric jump leads to the place of the nearest matching label if and only if a signed byte reaches it, and behind itself if there is none |
| TwoPass.SameLineFallsThrough | tools/as.c:1171-1178 | a backward jump to a label on its own line leads to the next instruction |
| TwoPass.FarJumpMisses | tools/as.c:1186-1198 | a jump over 256 bytes leads elsewhere |
| TwoPass.LineEmitted | tools/as.c:1107-1282 | the object code holds at the place of each line exactly what it emitted in the second pass |
| TwoPass.SecondRelocs | tools/as.c:275-294 | the relocation table is that of the lines in their order, each with the index of its name in the final symbol table |
| TwoPass.SiteNamed | tools/as.c:252-294 | the index of a relocation is that of the name it was written with |
| TwoPass.FixupsSpaced | tools/as.c:275-294 | the relocations of a section lie inside its code, in order and at least four bytes apart |
| TwoPass.NoFixupIn | tools/as.c:275-294 | a stretch of a line that its own relocations avoid is avoided by all |
| TwoPass.Assembler.FindOrAdd | tools/as.c:252-273 | the search from the front and the new entry at the back are one step of the symbol table |
| TwoPass.Assembler.EmitAlign | tools/as.c:931-944 | zero bytes up to the offset that the mask form of ALIGN_UP gives, for any argument, and the alignment of the section raised |
| TwoPass.Assembler.AssembleLine | tools/as.c:814-1282 | the code on the tables does one step: label, symbols, bytes and relocations |
| TwoPass.Assembler.Assemble | tools/as.c:1897-1910 | the two nested loops do both passes |
| ObjectFile.BuildSymtab | tools/as.c:1990-2024 | the two loops give every symbol one entry under a new index of its own, local ones first |
| ObjectFile.WriteRelocations | tools/as.c:2198-2215 | the relocations are written section by section with the new indices |
| ObjectFile.GroupedSpaced | tools/as.c:2198-2215 | each of them comes from the table, and within a section they stay in order and apart |
| ObjectFile.GroupedHas | tools/as.c:2198-2215 | none of the table is lost |
| ObjectFile.AssembleFile | tools/as.c:1897-2215 | from the lines of a file to its object: sections, symbol table and relocations |
| LinkLayout.PlacedAt | tools/ld.c:219-247 | an input section is found unchanged at its offset, behind less padding than its alignment; the offset is a multiple if that is a power of two |
| LinkLayout.PlacedApart | tools/ld.c:410-449 | input sections of one output section do not overlap |
| LinkLayout.GapsAreZero | tools/ld.c:238-240 | between them there are only zeros |
| LinkLayout.VaddrOrder | tools/ld.c:451-458 | output sections are placed in order without overlap |
| LinkLayout.TargetExactly | tools/ld.c:424-439 | an allocated input section is kept if and only if its name is .multiboot or begins with .text, .rodata, .data or .bss, and the name decides the output section |
| LinkLayout.KindOrder | tools/ld.c:424-458 | any two kept sections of different kinds lie in memory in that order |
| LinkLayout.LayoutTight | tools/ld.c:219-247 | the first output section begins on the next multiple of four, each other on the next page, and an input without an alignment on the next multiple of four |
| LinkLayout.AddressesApart | tools/ld.c:410-469 | any two mapped input sections have disjoint address ranges |
| LinkLayout.AddressAligned | tools/ld.c:410-469 | for a power of two they are aligned if and only if their output section is, in particular when its alignment is a multiple |
| LinkLayout.AlignmentsExactly | tools/ld.c:410-469 | sections with this alignment are aligned whenever their output section is, if and only if it is a power of two |
| LinkLayout.CodeMisaligned | tools/ld.c:441-455 | for every other alignment a .text section behind one byte of code is not aligned although its output section is |
| LinkLayout.DataMisaligned | tools/ld.c:451-458 | a .data section with an alignment of two pages behind one byte of code begins at an odd page |
| Linker.ResolvedExactly | tools/ld.c:471-517 | a global name is in the table if and only if it is defined |
| Linker.WinnerCounts | tools/ld.c:495-514 | with the value of the last strong definition, or of the first one if all are weak |
| Linker.SomeWinner | tools/ld.c:495-514 | every defined name has such a definition |
| Linker.CollectGlobals | tools/ld.c:471-517 | the loop builds that table; COMMON symbols are strong definitions in trailing .bss sections |
| Linker.AppliedAt | tools/ld.c:549-622 | after all relocations each site holds S + A or S + A - P with its original addend, whatever the order |
| Linker.AppliedElsewhere | tools/ld.c:549-622 | all other bytes are unchanged |
| Linker.LoadedWord | tools/ld.c:549-838 | in the loaded segment a relocated word has that value, with P the address it is loaded at |
| Linker.LoadedByte | tools/ld.c:410-838 | every other input byte is loaded unchanged at its address |
| Linker.LoadedGap | tools/ld.c:676-838 | every other address of the segment holds zero |
| Linker.CallLandsOnSymbol | tools/ld.c:598-600 | a field assembled as -4 and relocated by PC32 makes call and jmp land exactly on the symbol |
| Linker.CollectSections | tools/ld.c:410-449 | the mapping loop builds the output sections of `LinkLayout.TargetExactly` and the offsets |
| Linker.LayoutSections | tools/ld.c:451-458 | the layout loop computes the addresses |
| Linker.ApplyRelocations | tools/ld.c:549-622 | the relocation loop patches the sections in place |
| Linker.BuildSegment | tools/ld.c:676-838 | the file part of the segment holds the sections at their addresses and zeros between them |
| Linker.CallLoaded | tools/ld.c:598-838 | so it does in the loaded segment |
| Linker.MeaningAddress | tools/ld.c:582-594 | the value of a reference is the address of the symbol it means: its own, or the definition that counts |
| Linker.PointerLoaded | tools/ld.c:471-838 | a word for a symbol of an input section is loaded with the address at which that section's byte is loaded, plus the addend it was assembled with |
| Linker.BelowKernelEnd | tools/ld.c:519-527 | every input section ends at or below _kernel_end, which is the first page boundary behind .bss |
| Linker.EndCounts | tools/ld.c:519-527 | the linker's own definition of _kernel_end overrides any other |
| Linker.AvailableExactly | tools/ld.c:471-547 | a name is in the table if and only if it is _kernel_end or some file defines it |
| Linker.AddressDefinitions | tools/ld.c:498-506 | the values of the definitions from the section map |
| Linker.ResolveEntries | tools/ld.c:571-594 | the loop finds S for every relocation |
| Linker.AllDefined | tools/ld.c:529-547 | the check for undefined references |
| Linker.Link | tools/ld.c:410-838 | all passes together; it fails exactly when a needed name or _start has no definition, _kernel_end being defined always, and else gives the entry point and the segment |
| LinkInput.InputsOk | tools/ld.c:410-622 | the objects of any well-formed files meet all conditions of the linker: symbols point into sections, relocations lie inside theirs and apart |
| LinkInput.EntryFrom | tools/as.c:1990-2024 | every entry of a symbol table belongs to a symbol of the assembler |
| Toolchain.StretchLoaded | tools/ld.c:410-838 | what a line emits is loaded unchanged where no symbol is filled in, whatever the other files hold |
| Toolchain.SiteLoaded | tools/ld.c:549-622 | a word that a symbol is filled into holds what was assembled plus the value of the name it was written with, less its own address if relative |
| Toolchain.LoadedOperand | tools/as.c:602-711 | decoding the loaded image at the place of an operand gives its register field, base, index and scale, with the displacement plus the value of its symbol, and exactly its length |
| Toolchain.LoadedField | tools/as.c:968-983 | a data word or an immediate is loaded with its number plus the value of its symbol |
| Toolchain.LastExport | tools/ld.c:495-514 | the definition that counts is that of the last file that exports the name |
| Toolchain.LabelValue | tools/ld.c:582-594 | a label, local or exported by another file, has the address at which its line is loaded |
| Toolchain.SetValue | tools/ld.c:498-506 | a name that was given a number by .set, in its own file or another, has that number in the loaded program |
| Toolchain.CommonValue | tools/ld.c:481-493 | a common symbol has the address of a stretch of .bss of its own, with its size and alignment |
| Toolchain.CallLands | tools/as.c:1107-1122 | a loaded call or jump to a name lands on the loaded line that has it, in whatever file |
| Toolchain.JumpLoaded | tools/as.c:1150-1200 | a loaded numeric jump lands on the loaded line that it means if and only if a signed byte reaches it |
| Toolchain.AlignLoaded | tools/as.c:931-944 | what follows an alignment directive is aligned in memory if and only if its output section is, so always up to a page outside .multiboot |
| Toolchain.KernelEndValue | tools/ld.c:519-527 | in every file that does not define _kernel_end for itself the name stands for the end of the program |
| Toolchain.EntryLands | tools/ld.c:624-630 | the entry point is the loaded line that has the label _start |
| Toolchain.CompleteExactly | tools/ld.c:529-547 | the linker's check passes if and only if every name that a file mentions without defining is exported by some file |
| Toolchain.AllLinesKept | tools/ld.c:424-449 | every line in a declared section with one of the five names is in the output, in the section of that kind |
| Toolchain.Build | tools/ld.c:410-838 | assembling all files and linking them gives a program exactly when the names are complete, and then one that holds every line of a section with one of the five names, and of which all of the above holds |
| Make.Maker.Build | tools/make.c:641-787 | the recursion ends on every finite graph; it keeps the invariants, the stack and everything that is done, starts no recipe of a target that is not phony twice, and fails only where a path of prerequisites leads to a name with neither rule nor file or to a recipe that fails |
| Make.MakeGoal | tools/make.c:641-787 | success means that the goal is done and that the files are those that the started recipes make of the first ones, one after the other; on an acyclic graph with recipes that keep to their targets the run then rebuilt exactly the affected targets, started exactly their recipes, none before its prerequisites were done, and what it left alone is current; if no recipe fails it succeeds if and only if everything below the goal has a rule or a file or is phony |
| Make.RebuiltExactly | tools/make.c:641-787 | a target is rebuilt if and only if a path of prerequisites leads from it to one that is phony, missing, older than a prerequisite, or has a recipe and no prerequisites, by the files at the start alone |
| Make.LeftAloneIsCurrent | tools/make.c:699-725 | a target left alone exists and is not older than any prerequisite, all of which were left alone |
| Make.RunIsRight | tools/make.c:641-787 | these conclusions together, for every state of the invariant |
| Make.SuccessMakes | tools/make.c:682-685 | after success everything below the goal has a rule, a file or is phony |
| Make.FailureStops | tools/make.c:682-700 | a run that stops, although no recipe fails, has met a name below the goal that has none of these |
| Make.Finished | tools/make.c:711-787 | entering a target into the cache keeps the invariant, on any graph |
| Make.StackCycle | tools/make.c:656-659 | a target is dropped as circular only if the graph has a cycle |
| Make.MatchExactly | tools/make.c:488-523 | a name matches a pattern with a stem if and only if putting the stem into the pattern gives the name |
| Audio.Isqrt | src/usb/usb_audio.c:857-871 | r * r <= n < (r + 1) * (r + 1) for every 64-bit n, with no intermediate overflow |
| Audio.IndexInside | src/usb/usb_audio.c:1052-1071 | every source index is below the frame count and no product leaves 64 bits |
| Audio.MixBounds | src/usb/usb_audio.c:1104-1112 | interpolation stays in 32 bits and between its two samples |
| Audio.MixClose | src/usb/usb_audio.c:1068-1106 | it is less than two units from the exact value at i * rate / 48000 |
| Audio.Resample | src/usb/usb_audio.c:1052-1116 | every output sample lies between its neighbours and that close to the exact interpolation, and is the input sample itself where the position is a whole frame |
| Audio.ChannelBytes | src/usb/usb_audio.c:1074-1102 | the samples from the bytes of a frame, for 8, 16 and 24 bits, one channel or more |
| Audio.DurationKept | src/usb/usb_audio.c:1052-1054 | the output lasts as long as the input to within half a frame |
| Audio.PlayWav | src/usb/usb_audio.c:987-1120 | a file is refused exactly if it has no data, is compressed, or has no channel or another sample width; otherwise what is played, by either short cut or by the resampler, is what the resampler promises |

## Left out

- Hardware and I/O: register and port access, interrupts beyond the scheduling step, PCI, ACPI, USB enumeration, file and process calls of the tools. Block devices are total sector maps without errors, and memory for cluster buffers and queues is taken to be available.
- Kernel.Machine.constructor: the state between `rtos_sched_init` and `rtos_sched_start`, in which no task is current.
- `rtos_task_kill`, which leaves a killed task in its wait queue; timeouts other than "try" and "wait", which block without limit in the code.
- The idle task only yields, and calls are made with a running scheduler and a current task. Counters (recursion, runtime, ticks, semaphore counts) are unbounded integers.
- Priority inheritance beyond the raise at block time; the scheduler resets the priority of whatever it chooses.
- `rtos_queue_create` with an item size times capacity beyond 32 bits.
- Heap.KernelHeap.KmallocAligned: sizes whose sum with the alignment wraps, for which the result does not lie inside its block (`BlockList.AlignedFitsExactly`).
- Heap.KernelHeap.Krealloc: sizes whose rounding wraps, for which the code copies into a block of no bytes.
- Heap.KernelHeap.Kfree: aligned pointers only where the word at the header position is not the magic number, because the code cannot tell them apart otherwise.
- Memory is a map from addresses to words or bytes; a heap header word occupies the cell of its address.
- PageAllocator.Pmm.AllocPagesAligned: counts so large that p + count wraps in 32 bits, for which the code tests bits beyond the bitmap.
- The page counter is an unbounded integer, and the entries of the memory map are a sequence.
- FAT12 in the kernel driver, which does not support it, and sector sizes other than 512. `fat_mount` is represented by the geometry it computes.
- FatFile.FreeClusterChain: links that leave the volume, behind which the code reads and writes other sectors.
- Clusters cut off by a shorter overwrite stay allocated, as in the code.
- HostCopy.CopyFile: the data area of the image is an array of clusters; file positions are not modelled.
- Directory.CreateEntry: the directory part alone; `FatStore` has the data and the entry fields.
- Directories other than the fixed root, paths, the choice of short aliases (the alias is a parameter), and slot runs that need another directory cluster.
- Chained TRBs, endpoint reset and the dequeue-pointer commands of the xHCI driver, and its estimate of queued TRBs.
- Text parsing, macros and expressions of the assembler; lines, operands and the parts of instructions are abstract. Its tables are taken to be large enough.
- Files for `Toolchain` stay in declared sections whose type fits their name, fill no symbol into .bss and keep common symbols global; `Toolchain.AlignLoaded` speaks of files all of whose alignments are powers of two.
- ALIGN_UP on numbers beyond 32 bits.
- The bytes of an object file on disk, string tables and ELF headers, addresses beyond 32 bits, and the symbol table of the output.
- Make: variables, parsing, commands as text, graphs deeper than the call stack of 128 names, a full cache, and pattern rules beyond matching. A recipe is a function on files.
- Audio.PlayWav: the chunk parser, and the bytes behind the last whole frame, which the first short cut plays too.
- Audio.Resample: output buffers whose size in bytes does not fit 32 bits; a sample rate of zero.
- The triple buffer and the other USB class drivers, shell, editor, console, keyboard and mouse.
