# A verified model of the kernel and its userland algorithms

This project models, in Dafny, the state machines and algorithms of a small Unix-like AArch64
kernel and of the userland tools that ship with it, and proves what they promise. Where the code
changes tables, rings, bitmaps or arrays step by step, the model does too: classes with the same
fields, loops over the same slots, arrays edited in place. Each such method is proved against a
specification on values, and the promises are proved about the specification.

`dafny verify dfyconfig.toml` verifies the whole project.

## The files

| file | what it models |
|---|---|
| `Errno.dfy`, `Limits.dfy`, `Bytes.dfy` | error numbers, table sizes, bytes and text equality |
| `Ownership.dfy` | which references reach which description, pipe and socket, and the global counting invariant |
| `PipeRings.dfy` | the byte ring of a pipe as a queue, and its conservation law |
| `Descriptors.dfy` | the descriptor tables and every system call that edits them, with rollback |
| `FdLaws.dfy` | what the descriptor calls answer and do, said of fds, descriptions and waiting bytes alone |
| `Pmm.dfy` | the physical page bitmap |
| `Processes.dfy` | the process table and the wait/exit/kill protocol |
| `Backing.dfy` | which physical region stands behind which process |
| `SystemCalls.dfy` | what each call and kernel event does to the whole machine, on values |
| `Runs.dfy` | what holds over whole runs: histories, pipes as queues, and when the dead stay dead |
| `Waits.dfy` | a wait4 and the death it is for, in either order, over runs |
| `Lives.dfy` | what a clone makes, what a death gives back, and what lives cost in pages over every run |
| `ProcLaws.dfy` | what the process calls answer and do, said of the records of the process table alone |
| `Kernel.dfy` | the machine: clone, exit, kill, wait4, the descriptor calls and the scheduler's free choice, over every run from start-up |
| `AddressSpace.dfy` | brk, mmap and munmap on the table of mappings |
| `Rndis.dfy` | RNDIS wrapping, and reassembly from USB transfers |
| `Tcp6.dfy` | the receive half of TCP over IPv6 |
| `Checksum.dfy` | the Internet checksum, its senders and receivers |
| `Paths.dfy` | path normalising, resolving and taking parents |
| `Overlay.dfy`, `Vfs.dfy` | the overlay file system's tables, and the calls that change its tree |
| `TreeLaws.dfy` | where links lead, and what those calls answer and do, said of what stands at each path |
| `Cpio.dfy` | the archive writer and reader |
| `Glob.dfy`, `Grep.dfy`, `LineOrder.dfy`, `Sort.dfy`, `Date.dfy` | find's matcher, grep's streaming search, sort's order and quicksort, date's calendar |

## How to read it

- *Counting.* `Ownership.Counted` says that every count the kernel keeps equals the number of owners
  reaching the counted thing. Owners are the fd slots of all processes and the two references a running
  system call may hold. Each elementary edit keeps the invariant, each method refines elementary edits,
  and between calls (`FileTable.Idle`) the owners are the fd slots alone.
- *Laws.* A call is specified by a function or predicate that its method refines. `FdLaws`, `ProcLaws`, `Lives`,
  `TreeLaws` and the `...Means` and `...Layout` lemmas say what those come to, in terms of the tables and numbers
  alone: an fd, a record, a page, a path, a byte.
- *Runs.* A run is any list of calls. The scheduler's pick, sleeping, waking and what arrives for a process that
  waits for input are arguments of the calls, so what holds of `Machine.Run` holds under every schedule. `Run` and
  `BootAndRun` hand out the run as a list of snapshots: every one sound (`SystemCalls.Sound`), every one the specified
  step (`SystemCalls.Stepped`) from the one before.
- *Histories.* Streams are compared with ghost histories: bytes accepted and returned per pipe, deaths and
  deliveries per child, the peer's whole stream for TCP. The kernel's histories can only be added to
  (`Runs.Grown`); a pipe slot that is created again starts a new lifetime, which is counted.
- *A running zombie.* A process other than the first that kills itself when nobody else can run or be woken, and its
  parent does not wait for it, gets 0 back and goes on as a zombie (`Runs.Strands`). From then on it can open files,
  become runnable again and end a second time. What every state satisfies (`SystemCalls.Sound`) admits that; what
  is lost with it, and only with it, is `Runs.Orderly`.
- *Exact conditions.* Where the code does not always do what one would expect, the condition under which it does is
  stated both ways: `Runs.StepOrderly`, `Runs.RunOrderly` and `Runs.DeadSafeExactly` (a self-kill with nobody to
  switch to), `Lives.RunCosts` (pages lost by a clone that runs out of them), `Waits.EarlyWait` (a call left behind
  that is completed later), `Vfs.MadeThenRemoved` (a directory made above existing entries), `UserSpace.Mmap` (a
  length whose rounding wraps breaks the table), `Rndis.WrapRoundTrip` (frames the tolerant DataOffset rule
  misreads), `Tcp6.InputFaithful` and `Tcp6.LostFinShows` (a FIN that carries data), `Checksum.AcceptsExactly` and
  `Checksum.OneByteDamage` (the two zeros of one's complement, and a zero TCP checksum field), `Cpio.InsideExactly`
  (names whose padding reaches past the end of the archive), `Processes.BadPointerTellsTheOrder` (a bad status
  pointer). `Runs.StrandingRun`, `Waits.OverwritingRun`, `AddressSpace.WrapBreaksFresh`, `Rndis.ConfusableExample`,
  `Tcp6.FinPayloadLost`, `Checksum.DamageAccepted` and `Cpio.CutArchiveEscapes` give the inputs;
  `Kernel.StrandingHappens` and `Kernel.OverwritingHappens` run the first two from power-on.

## Where the code and its comments differ

The model follows the code.

- `kernel-aarch64/sys_fs.c:330-339`: mkdir of `/` is said to give EEXIST and link or symlink to `/` EPERM; the name
  check just before gives EINVAL in all three.
- `kernel-aarch64/sys_proc.c:965-968`: killing oneself is said to reuse the exit path so that the switch is done
  properly; when that path finds nobody to switch to, the call returns to the process that has just ended.
- `userland/src/sort.c:221`: the comment speaks of looping on the larger partition; the code stacks the larger and
  goes on with the smaller, which is what bounds the stack.

## Model

| member | source | states |
|---|---|---|
| `Ownership.AcquireKeepsCounts` | kernel-aarch64/fd.c:58-75 | if every count was the number of its owners, it still is after a closed slot starts to name a live description (desc_incref with the resource it reaches); counts stay below their 16-bit saturation |
| `Ownership.ReleaseKeepsCounts` | kernel-aarch64/fd.c:77-98 | the same when an owner lets go: the last reference clears the description and gives up its pipe end or socket, which is freed exactly when nobody reaches it any more |
| `Ownership.ReserveKeepsCounts` | kernel-aarch64/fd.c:46-56 | desc_alloc's creation reference is counted like any other owner |
| `Ownership.AdoptKeepsCounts` | kernel-aarch64/sys_net.c:50-78 | tying a reserved description to a resource keeps all counts only against the one loose reference the resource was created with |
| `Ownership.PipeBornKeepsCounts` | kernel-aarch64/pipe.c:37-58 | a pipe just created is the one pipe that may be in use while nobody reaches it |
| `Ownership.PipeAbortKeepsCounts` | kernel-aarch64/pipe.c:60-68 | pipe_abort on it restores the full invariant |
| `Ownership.PipeRefKeepsCounts` | kernel-aarch64/pipe.c:82-89 | pipe_on_desc_incref before the description is filled in leaves exactly one loose reference to that end |
| `Ownership.SocketBornKeepsCounts` | kernel-aarch64/net_ipv6.c:435-451 | a socket slot is born with one loose reference |
| `Ownership.SocketDroppedKeepsCounts` | kernel-aarch64/net_ipv6.c:420-433 | dropping that reference frees the slot and restores the invariant |
| `Ownership.LiveDescIsNeeded` | kernel-aarch64/fd.c:77-98 | a live description's pipe or socket slot is in use: no dangling resource |
| `Ownership.OwnedIsLive` | kernel-aarch64/fd.c:100-107 | an open fd never names a free description |
| `PipeRings.Drain` | kernel-aarch64/pipe.c:105-125 | the read loop returns exactly the oldest n waiting bytes and leaves the rest in order, across the wrap of the ring |
| `PipeRings.Fill` | kernel-aarch64/pipe.c:127-152 | the write loop appends exactly src[..n] to the waiting bytes |
| `PipeRings.CountEditsKeepBytes` | kernel-aarch64/fd.c:58-98 | reference-count edits neither lose nor invent a byte of any live pipe |
| `Descriptors.FileTable.constructor` | kernel-aarch64/fd.c:40-44 | the empty tables satisfy the counting invariant |
| `Descriptors.FileTable.DescIncref` | kernel-aarch64/fd.c:58-75 | refines the counting step of one more reference, with the resource it reaches |
| `Descriptors.FileTable.DescDecref` | kernel-aarch64/fd.c:77-98 | refines one reference less, freeing the description and perhaps its pipe or socket |
| `Descriptors.FileTable.DescAlloc` | kernel-aarch64/fd.c:46-56 | takes the lowest free description or reports none |
| `Descriptors.FileTable.FdAllocInto` | kernel-aarch64/fd.c:109-120 | the lowest closed fd at or above min_fd names the description, which gains a reference; otherwise nothing changes |
| `Descriptors.FileTable.FdClose` | kernel-aarch64/fd.c:122-130 | an open fd is closed and its reference released; a closed or out-of-range one changes nothing |
| `Descriptors.FileTable.Open` | kernel-aarch64/sys_fs.c:653-677 | lowest free description in the lowest closed fd from 3 on, or EMFILE leaving no trace |
| `Descriptors.FileTable.Close` | kernel-aarch64/sys_fs.c:790-800 | EBADF exactly for closed or out-of-range fds; otherwise the fd is released and no other process is affected |
| `Descriptors.FileTable.Dup3` | kernel-aarch64/sys_fs.c:1433-1457 | every errno in the code's order, and that the new fd names the old one's description after any previous use of it was released |
| `Descriptors.FileTable.Udp6Socket` | kernel-aarch64/sys_net.c:50-78 | socket, description and fd are set up together or all undone |
| `Descriptors.FileTable.Tcp6Connect` | kernel-aarch64/sys_net.c:430-507 | bad port, bad address, ENOMEM and EMFILE in that order; the descriptor made up front survives exactly when the connection is established, and on failure the tables are as before |
| `Descriptors.SocketOpenedGives` | kernel-aarch64/sys_net.c:449-507 | closing the fd of a connection that failed leaves exactly the tables from before the call |
| `Descriptors.FileTable.PipeCreate` | kernel-aarch64/pipe.c:37-58 | takes the lowest unused pipe slot with an empty ring and new byte histories |
| `Descriptors.FileTable.Pipe2` | kernel-aarch64/sys_fs.c:1459-1525 | on success two new fds name the two ends of a pipe with one reference each; on every failure all tables are exactly as before; only the histories of the pipe slot tried start anew |
| `Descriptors.StreamsAfterPipe2` | kernel-aarch64/sys_fs.c:1459-1525 | whatever pipe2 answers, the byte histories of every pipe in use are untouched |
| `Descriptors.FileTable.InstallPair` | kernel-aarch64/sys_fs.c:1498-1512 | both ends get fds, or the first is taken back and the pipe disappears |
| `Descriptors.FileTable.CloneFds` | kernel-aarch64/sys_proc.c:755-762 | the child names what the parent names; only counts move, and they stay exact |
| `Descriptors.FileTable.CloseAllFds` | kernel-aarch64/proc.c:84-89 | the process ends with no fd open; everything still referenced by others is unchanged, and a process that had no fd open changes nothing |
| `Descriptors.FileTable.InstallConsole` | kernel-aarch64/proc.c:120-137 | one console description with three references stands behind fds 0, 1 and 2 of the first process, and nothing else changes |
| `Descriptors.FileTable.PipeRead` | kernel-aarch64/pipe.c:105-125 | EBADF (also for a null destination), EAGAIN, end of file and data cases in terms of the pipe's accepted and returned byte histories |
| `Descriptors.FileTable.PipeWrite` | kernel-aarch64/pipe.c:127-152 | EBADF (also for a null source), EPIPE, EAGAIN and partial writes, and which bytes were accepted |
| `Descriptors.FileTable.ReadFd` | kernel-aarch64/sys_fs.c:802-1160 | EBADF, EFAULT and the other refusals for every kind of description; a read of at least one byte from a pipe returns 0 exactly when all accepted bytes were returned and no process holds the write end |
| `Descriptors.FileTable.WriteFd` | kernel-aarch64/sys_fs.c:1162-1218 | the same for writes; a write of at least one byte to a pipe gets EPIPE exactly when no process holds the read end |
| `Descriptors.IdleCounts` | kernel-aarch64/fd.c:46-130 | between system calls: each description's refs is the number of (process, fd) slots naming it, each pipe end's and socket's count is the number of fd slots reaching it, and each is in use exactly when that is positive |
| `Descriptors.CountMeansHeld` | kernel-aarch64/fd.c:58-98 | the kernel's count of a pipe end or socket is positive exactly when some process has it open |
| `Descriptors.PairUndone` | kernel-aarch64/sys_fs.c:1507-1512 | a pipe both of whose ends were given up leaves the tables as if pipe2 had never been called |
| `Descriptors.UninstallIsNoop` | kernel-aarch64/fd.c:77-98 | a description created and dropped again leaves nothing but its released resource |
| `FdLaws.OpenLaw` | kernel-aarch64/sys_fs.c:653-677 | the lowest closed fd from 3 on names a new description with one reference; EMFILE exactly when no such fd or no description is left, and then nothing has changed |
| `FdLaws.CloseLaw` | kernel-aarch64/sys_fs.c:790-800 | EBADF exactly for an fd that is not open; otherwise only that fd is closed, and the description it named has one reference less and is free after the last |
| `FdLaws.DupLaw` | kernel-aarch64/sys_fs.c:1433-1457 | EINVAL for flags, EBADF for a closed or out-of-range fd; otherwise the new fd names what the old one names, whatever it named before, and no other fd changes |
| `FdLaws.PipeLaw` | kernel-aarch64/sys_fs.c:1459-1525 | the two lowest closed fds name the read and the write end, one reference each, of an empty pipe that was not in use; ENOSYS, EFAULT and EMFILE exactly where the code gives them, without a trace |
| `FdLaws.UdpLaw` | kernel-aarch64/sys_net.c:50-78 | the lowest closed fd names a socket that was not in use; ENOMEM exactly when all are, EMFILE exactly when no fd or no description is left |
| `FdLaws.ConnectLaw` | kernel-aarch64/sys_net.c:430-507 | a bad port, a bad address, ENOMEM, EMFILE in this order; one new fd on an unused connection exactly when it is established, and otherwise its failure with nothing left behind |
| `FdLaws.ReadLaw` | kernel-aarch64/sys_fs.c:802-1160 | for every kind of description: a pipe's read end hands out the oldest waiting bytes, as many as fit, and they wait no longer; from an empty pipe 0 exactly when no fd of any process is open on its write end, else EAGAIN; EBADF, EFAULT and EINVAL for the rest |
| `FdLaws.WriteLaw` | kernel-aarch64/sys_fs.c:1162-1218 | a pipe's write end takes the first bytes, as many as fit into 1024, behind those that wait; EPIPE exactly when no fd of any process is open on its read end, EAGAIN exactly when it is full; the console takes everything, what is read only nothing |
| `Pmm.PageMap.ReserveRange` | kernel-aarch64/pmm.c:67-95 | afterwards exactly the old used pages and the pages with a byte in the range are used; the free count stays the number of clear bits |
| `Pmm.PageMap.AllocPage` | kernel-aarch64/pmm.c:208-222 | returns the lowest free page and marks only it; 0 exactly when no page is free |
| `Pmm.PageMap.FreePage` | kernel-aarch64/pmm.c:224-244 | clears exactly the addressed page when RAM has it, else nothing; the free count follows |
| `Pmm.PageMap.AllocRegion` | kernel-aarch64/pmm.c:156-193 | returns the lowest 512-aligned run of free pages and marks exactly it; 0 only when no aligned run exists |
| `Pmm.PageMap.FreeRegion` | kernel-aarch64/pmm.c:195-206 | frees exactly the pages of the region that RAM has; unaligned or null addresses change nothing |
| `Pmm.PageMap.Init` | kernel-aarch64/pmm.c:104-154 | which pages are used after start-up: the first 2 MiB, the kernel, the device tree and the user region, and no other |
| `Pmm.PageMap.BitSet` | kernel-aarch64/pmm.c:35-37 | sets one bit of one byte of the bitmap and no other |
| `Pmm.PageMap.BitClear` | kernel-aarch64/pmm.c:39-41 | clears one bit and no other |
| `Pmm.CountFreeSet` | kernel-aarch64/pmm.c:67-95 | setting one page changes the number of free pages by exactly that page |
| `Pmm.FreeRunCounts` | kernel-aarch64/pmm.c:156-193 | a run of free pages is covered by the free count, so the early out on a low count loses no run |
| `Pmm.ReservedMeans` | kernel-aarch64/pmm.c:67-95 | a page ends reserved exactly when it was before or one of its addresses lies in the range |
| `Pmm.InitMeans` | kernel-aarch64/pmm.c:104-154 | start-up manages as many whole pages of RAM as there are, at most 262144, from the first page boundary on; none of less than 64 KiB |
| `Backing.RegionsDisjoint` | kernel-aarch64/sys_proc.c:726-751 | two live processes' 2 MiB regions share no byte |
| `Backing.FreshRegion` | kernel-aarch64/sys_proc.c:726-738 | a region from the allocator belongs to no live process, is not the boot region, and keeps everybody's backing |
| `Backing.FreeingUnowned` | kernel-aarch64/sys_proc.c:810-814 | giving back an unowned region leaves every live process backed by used pages |
| `Backing.FailedBackingStays` | kernel-aarch64/sys_proc.c:726-735 | a clone that finds no region or no table pages leaves every used page used and costs at most three pages, none when page tables cannot be made at all |
| `Processes.BuryKeepsProtocol` | kernel-aarch64/sys_proc.c:856-927 | a death keeps pids unique, loses no wakeup, and hands each dead child to at most one wait4 with its own status word |
| `Processes.WaitKeepsProtocol` | kernel-aarch64/sys_proc.c:782-854 | so does every wait4 outcome: reaped, refused, not yet, blocked |
| `Processes.WaitOrderIrrelevant` | kernel-aarch64/sys_proc.c:782-927 | for one child and a null or valid status pointer, waiting before or after its death gives the identical process table: same pid, same status word |
| `Processes.BadPointerTellsTheOrder` | kernel-aarch64/sys_proc.c:799-807 | with a bad status pointer the order does show: an early waiter is left with the pid, nothing stored and the child gone; a late one gets EFAULT and the child stays a zombie |
| `Processes.SpawnKeepsProtocol` | kernel-aarch64/sys_proc.c:744-779 | clone adds a child without disturbing any wait in progress |
| `Processes.GiveUpKeepsProtocol` | kernel-aarch64/sys_proc.c:849-853 | a parent that found nobody else to run stops waiting and nothing is lost |
| `Processes.StepAsideKeepsProtocol` | kernel-aarch64/sys_proc.c:835-853 | sleeping, waking and receiving a result do not touch the protocol |
| `Runs.StepGrows` | kernel-aarch64/sys_proc.c:708-1020 | every step adds to the histories only, whatever state it starts in: no death is forgotten, deliveries are appended, and while a pipe lives the bytes accepted and returned are extended |
| `Runs.RunGrows` | kernel-aarch64/sys_proc.c:708-1020 | so does every stretch of every run |
| `Runs.HandedOnce` | kernel-aarch64/sys_proc.c:782-927 | over every run, a child once handed over by wait4 is gone for good and never handed over again |
| `Runs.NobodyLeft` | kernel-aarch64/sys_proc.c:865-927 | after its own end the scheduler finds the processor nobody exactly when no other process can run or be woken and its parent does not wait for it |
| `Runs.StepOrderly` | kernel-aarch64/sys_proc.c:708-1020 | from a state in which the dead are zombies without fds and the running process has not ended, a step keeps it so if and only if it is not a kill by a process other than the first of itself with nobody left to switch to; even such a step leaves what had ended before as it was |
| `Runs.RunOrderly` | kernel-aarch64/sys_proc.c:708-1020 | a run is in order at each of its moments if and only if no step before strands a process |
| `Runs.DeadStayDead` | kernel-aarch64/sys_proc.c:708-1020 | in every run in which no process is stranded, whoever has died is at every later moment nothing but a zombie with the exit code it died with and no open fd |
| `Runs.StrandedComesBack` | kernel-aarch64/sys_misc.c:242-262 | whatever the scheduler does, a process that ended and goes on running is alive again after a nanosleep |
| `Runs.DeadSafeExactly` | kernel-aarch64/sys_proc.c:708-1020 | exact: no call whatever can disturb the dead at any moment of a run if and only if no step of the run strands a process |
| `Runs.StrandingRun` | kernel-aarch64/sys_proc.c:965-968 | seven calls from power-on: a child kills the first process and then itself, goes on as a running zombie, opens a file, sleeps back to life and exits again, and its recorded exit code is another one |
| `Waits.EarlyWait` | kernel-aarch64/sys_proc.c:782-927 | a parent that waits first, with any calls by anybody in between that end neither it nor a child it waits for: the death of such a child leaves its record as it was at the call, with the status word stored, the child gone and delivered; its result is the child's pid unless it had left a call that waits for input behind and the processor goes to it, and then that call's |
| `Waits.LateWait` | kernel-aarch64/sys_proc.c:782-1020 | a child that died first, in a run that strands nobody, with any calls by anybody in between: its parent's wait4 for it gets its pid, and the status word of the code it died with, and nothing else of the parent's record differs |
| `Waits.StillWaiting` | kernel-aarch64/sys_proc.c:835-845 | over every stretch of every run a blocked parent's record does not change until it or a child it waits for ends |
| `Waits.StillZombie` | kernel-aarch64/sys_proc.c:856-927 | in a run in order a zombie's record does not change until its parent asks for it |
| `Waits.OverwritingRun` | kernel-aarch64/sched.c:113-172 | five calls from power-on after which a parent's wait4 has delivered its child and stored its status, but returned what an earlier recvfrom left behind returns |
| `Lives.CloneForks` | kernel-aarch64/sys_proc.c:708-780 | clone makes a child exactly when a slot, an aligned free region and three pages more are there: in the lowest free slot, with the next pid, result 0, its parent's memory and fds and a region that was free - the parent's result is the child's pid, and nothing else of any process differs; otherwise ENOSYS or EMFILE with nothing changed but pages |
| `Lives.ReapFrees` | kernel-aarch64/sys_proc.c:810-814 | whenever any step makes a live process disappear, every RAM page of its region is free afterwards and no other page has changed; the boot region stays |
| `Lives.StepCosts` | kernel-aarch64/sys_proc.c:708-1020 | the pages that are free or stand behind a process go down by three when a child is made, by one or two when a clone runs out of pages while it makes the tables, and never otherwise |
| `Lives.RunCosts` | kernel-aarch64/sys_proc.c:708-1020 | over every stretch of every run: exactly three pages per child made, and more if and only if such a clone happened in between; so a child made, dead and collected costs its three table pages and no more |
| `ProcLaws.WaitAnswers` | kernel-aarch64/sys_proc.c:782-854 | wait4: the lowest ended child it is for is handed over - its slot free, its fds closed, its pid the result, its code in bits 8 to 15 of the word asked for -, or EFAULT for a bad pointer; ECHILD exactly without any child; 0 when asked not to wait; else the parent waits and another process runs, or gets EAGAIN when none can |
| `ProcLaws.BuryMeans` | kernel-aarch64/sys_proc.c:865-908 | the ended process is a zombie with its exit code, or gone if its parent was waiting for it, which then can run and has pid and status word; nobody else changes |
| `ProcLaws.ExitMeans` | kernel-aarch64/sys_proc.c:856-927 | exit of the first process is power-off; of any other, it ends and a process that can run continues; with none the machine stops |
| `ProcLaws.KillAnswers` | kernel-aarch64/sys_proc.c:937-1020 | EINVAL for a pid that is not positive, ENOSYS for a signal other than 0, 9 and 15, ESRCH for a pid of nobody, 0 and nothing else for signal 0 and for zombies; anybody else ends with 128 and the signal |
| `ProcLaws.PickHandsOver` | kernel-aarch64/sched.c:204-314 | the processor goes to a process that can run, the one that clocks and input name if it can; it continues with the result it has, or with that of the call it waited in, and nobody else changes; nobody is picked exactly when nobody can run |
| `ProcLaws.SleepMeans` | kernel-aarch64/sys_misc.c:242-268 | the caller is parked as it is, but for its result 0 after nanosleep; if it is picked itself, its call returns |
| `ProcLaws.YieldMeans` | kernel-aarch64/sched.c:316-321 | giving way leaves the caller's record as it is |
| `ProcLaws.WakeMeans` | kernel-aarch64/sched.c:14-36 | a deadline or input makes a parked process runnable and changes nothing else |
| `ProcLaws.BootIs` | kernel-aarch64/proc.c:98-140 | power-on: process 1 alone in the boot region, the console behind fds 0 to 2, nothing else open, and the next pid is 2 |
| `Runs.PipeIsQueue` | kernel-aarch64/pipe.c:105-152 | over every stretch of every run in which a pipe slot is not created anew, the bytes that waited and then those accepted are those returned and then those still waiting |
| `Kernel.Machine.TakeBacking` | kernel-aarch64/sys_proc.c:726-735 | which region a child gets and exactly which pages are used afterwards; without table pages the region is free again |
| `Kernel.Machine.FreeBacking` | kernel-aarch64/sys_proc.c:810-814 | page by page: exactly the pages of the 2 MiB at pa become free, and none when it is the boot region |
| `Kernel.Machine.Clone` | kernel-aarch64/sys_proc.c:708-780 | every errno, with what changed on failure; on success the child that `Lives.CloneForks` describes; it succeeds whenever a slot, an aligned free region and three pages are there |
| `Kernel.Machine.Wait4` | kernel-aarch64/sys_proc.c:782-854 | the whole machine afterwards: the decision that `ProcLaws.WaitAnswers` describes, the delivery appended, the reaped child's pages free (`Lives.ReapFrees`), and who runs next when the parent blocks |
| `Kernel.Machine.Die` | kernel-aarch64/sys_proc.c:865-908 | fds closed, death recorded, zombie made; a parent that waits reaps it on the spot (`ProcLaws.BuryMeans`), and then slot and pages are given back (`Lives.ReapFrees`) |
| `Kernel.Machine.HandleExit` | kernel-aarch64/sys_proc.c:856-927 | the first process's end halts the machine; any other death is recorded and the pick runs, and the answer is 0 exactly when there is nobody to pick |
| `Kernel.Machine.Exit` | kernel-aarch64/sys_proc.c:856-927 | the running process dies and the processor goes to the scheduler's pick; the machine stops when there is none, and when the first process ends |
| `Kernel.Machine.Kill` | kernel-aarch64/sys_proc.c:937-1020 | EINVAL, ENOSYS and ESRCH exactly when the code gives them; otherwise the target dies with 128 + signal, or nothing happens for signal 0 and for zombies; a process that kills itself with nobody to switch to gets 0 as its result and goes on running as a zombie |
| `Kernel.Machine.FdStep` | kernel-aarch64/sys_fs.c:790-1525 | each descriptor call by the running process has its specified outcome on the tables and the byte histories, and keeps the machine invariant |
| `Kernel.Machine.SoundBetweenCalls` | kernel-aarch64/sys_proc.c:708-1020 | between calls the snapshot of the machine is sound: counts, byte conservation, backing, wait protocol, no fd without a process; the running process may have ended |
| `Kernel.Machine.PickNext` | kernel-aarch64/sched.c:204-291 | a process that can run or be woken, and none exactly when there is none |
| `Kernel.Machine.SwitchTo` | kernel-aarch64/sched.c:293-314 | the process picked runs, with a call that waited for input completed, or parked once more and running all the same |
| `Kernel.Machine.Sleep` | kernel-aarch64/sys_misc.c:242-268 | the process parks itself and whoever is picked runs; if that is itself, its call returns |
| `Kernel.Machine.Yield` | kernel-aarch64/sched.c:316-321 | the processor goes to the pick, and nothing happens when that is the running process |
| `Kernel.Machine.Step` | kernel-aarch64/sys_proc.c:708-1020 | every single call or kernel event does to the machine what its specification says, keeps the whole invariant, and only adds to the histories |
| `Kernel.Machine.Run` | kernel-aarch64/sys_proc.c:708-1020 | every run of calls under any scheduling choice is a sequence of sound snapshots, each the specified step from the one before, whose histories only grow |
| `Kernel.BootAndRun` | kernel-aarch64/proc.c:98-140 | and it starts from power-on, for any RAM with a 2 MiB-aligned base: the first process with its console, the pages the boot reserved, empty histories, in order |
| `Kernel.StrandingHappens` | kernel-aarch64/exceptions.c:427-436 | the run of `StrandingRun` happens on a machine with 64 MiB of RAM |
| `Kernel.OverwritingHappens` | kernel-aarch64/sched.c:293-314 | and so does the run of `OverwritingRun` |
| `AddressSpace.UserSpace.Overlaps` | kernel-aarch64/sys_proc.c:59-71 | true exactly when some mapping meets the range, with the base of one that does |
| `AddressSpace.UserSpace.SearchDown` | kernel-aarch64/sys_proc.c:193-213 | terminates with the highest free placement ending at or below the start and clearing the floor, or -1 exactly when there is none; ends are those of 64-bit arithmetic, so this covers lengths that wrap |
| `AddressSpace.UserSpace.Recompute` | kernel-aarch64/sys_proc.c:86-102 | the next search start is the top of free space: everything from it to the ceiling is mapped |
| `AddressSpace.UserSpace.TryHint` | kernel-aarch64/sys_proc.c:153-182 | a usable hint is honoured exactly |
| `AddressSpace.UserSpace.Mmap` | kernel-aarch64/sys_proc.c:104-232 | the whole outcome for every length, in numbers: EINVAL, ENOSYS exactly for other than private anonymous requests, the hint if it is free and clear, the highest free place, ENOMEM; a mapping lies on free whole pages, at least 64 KiB above the heap and 256 KiB below the stack; when everything from the search start up is mapped, ENOMEM with a free slot means that no such place is free; the mapped set grows by exactly the new range; the table stays well-formed if and only if the rounded length does not wrap |
| `AddressSpace.WrapBreaksFresh` | kernel-aarch64/sys_proc.c:119-230 | such lengths are accepted: a process that has mapped nothing gets every length whose rounding wraps, and its table is unsound from then on |
| `AddressSpace.EmptyTakesAll` | kernel-aarch64/sys_proc.c:193-230 | on an empty table the placement found for such a length seems to end at the top of the user region |
| `AddressSpace.UserSpace.Munmap` | kernel-aarch64/sys_proc.c:234-315 | on success the mapped address set is the old one minus the rounded range, and every byte from the next search start up to the page 256 KiB below the stack is mapped, so the next search misses nothing; EINVAL and ENOMEM leave the table unchanged |
| `AddressSpace.MunmapMeans` | kernel-aarch64/sys_proc.c:234-315 | EINVAL exactly for an unaligned address, an end past 2^64 or a range without a mapped byte, ENOMEM exactly for a range in the middle of a mapping with the table full; otherwise exactly the rounded range goes away |
| `AddressSpace.LowestMeans` | kernel-aarch64/exceptions.c:149-154 | the stack limit is the lowest stack pointer that any system call so far was made with |
| `AddressSpace.UserSpace.Brk` | kernel-aarch64/sys_proc.c:25-57 | moves the break, rounded up to 16, exactly for requests between heap base and 256 KiB below the stack, and reports the break in force |
| `AddressSpace.UserSpace.Enter` | kernel-aarch64/exceptions.c:149-154 | every system call entry saves the stack pointer and lets the stack limit follow it down, never up |
| `AddressSpace.UserSpace.Run` | kernel-aarch64/sys_proc.c:25-315 | over every run of system calls, each with any stack pointer, with lengths to map that round without wrapping: mappings stay nonempty, page-aligned, pairwise disjoint and inside the user region; an address is mapped exactly when the results of the mmap and munmap calls say so; the stack limit is the lowest stack pointer seen |
| `AddressSpace.NothingFreeAbove` | kernel-aarch64/sys_proc.c:86-102 | after a munmap no free placement ends above the recomputed start, so the next search misses no space |
| `AddressSpace.CutAll` | kernel-aarch64/sys_proc.c:254-307 | trimming every mapping the range meets removes exactly the range from the mapped set |
| `AddressSpace.SplitMaps` | kernel-aarch64/sys_proc.c:281-306 | splitting one mapping in two removes exactly the range |
| `AddressSpace.InsertedOk` | kernel-aarch64/sys_proc.c:226-230 | a placed mapping adds exactly its range to the mapped set, and keeps the table sound if and only if its length rounds without wrapping |
| `Rndis.NextStable` | kernel-aarch64/usb_net.c:864-958 | no decision of the parser about a complete message changes when more bytes arrive |
| `Rndis.ParseAppend` | kernel-aarch64/usb_net.c:864-967 | parsing what has come and then the rest with what comes next delivers exactly what one parse of everything does |
| `Rndis.ChunkingIrrelevant` | kernel-aarch64/usb_net.c:811-967 | however a byte stream is cut into transfers and polls, while the accumulator does not overflow the frames delivered are those of one big chunk |
| `Rndis.RestWaits` | kernel-aarch64/usb_net.c:886-904 | what is left always waits for more and is shorter than the accumulator, so the parser cannot get stuck full |
| `Rndis.PartWaits` | kernel-aarch64/usb_net.c:886-904 | a message that has not arrived whole waits for the rest |
| `Rndis.NoiseSkipped` | kernel-aarch64/usb_net.c:872-893 | bytes with an impossible length, or a packet message too short for its header, are passed over one by one |
| `Rndis.MessageSkipped` | kernel-aarch64/usb_net.c:906-911 | a message of another type is passed over whole |
| `Rndis.PacketDelivered` | kernel-aarch64/usb_net.c:919-958 | a packet message delivers exactly the bytes its offset and length point at, counted from the offset's own field - or from the start of the message if only that stays inside it, or only what lies there looks like IPv6; nothing if neither stays inside |
| `Rndis.WrapLayout` | kernel-aarch64/usb_net.c:108-143 | byte by byte: type 1, the lengths of message and frame lowest byte first, offset 36, zeros, the frame |
| `Rndis.WrapNext` | kernel-aarch64/usb_net.c:108-143 | one wrapped frame is recognised at the head of any stream, with the exact frame the two-candidate DataOffset rule delivers (section 2.2.14 of [MS-RNDIS]) |
| `Rndis.WrapRoundTrip` | kernel-aarch64/usb_net.c:925-948 | concatenated wrappings come back exactly, in order and with nothing left over, if and only if no frame is confusable; the number of frames is always right |
| `Rndis.Ipv6FramesComeBack` | kernel-aarch64/usb_net.c:504-514 | in particular all frames of EtherType 0x86DD come back |
| `Rndis.ConfusableExample` | kernel-aarch64/usb_net.c:925-948 | a concrete 54-byte frame that does not come back |
| `Rndis.RestSmall` | kernel-aarch64/usb_net.c:961-967 | a stream of wrapped frames never leaves more than a partial message |
| `Rndis.StreamDelivered` | kernel-aarch64/usb_net.c:811-967 | end to end: wrapped frames in polls of at most 14292 bytes, cut anywhere, never overflow the accumulator and are delivered exactly unless confusable |
| `Rndis.TxFrame` | kernel-aarch64/usb_net.c:97-150 | -1 exactly when unbound, empty or longer than 2048; otherwise the wrapping (or the bare frame) goes out, the answer is the transfer's, and the data toggle flips exactly when it went through |
| `Rndis.WrapBytes` | kernel-aarch64/usb_net.c:108-143 | the message written word by word and byte by byte is the specified wrapping |
| `Rndis.Receiver.Accumulate` | kernel-aarch64/usb_net.c:846-852 | appends a transfer, throwing away the accumulated bytes exactly when it would not fit |
| `Rndis.Receiver.Round` | kernel-aarch64/usb_net.c:865-958 | one turn of the loop takes the specified action, all reads inside the accumulator |
| `Rndis.Receiver.Drain` | kernel-aarch64/usb_net.c:863-967 | the loop and the compaction compute the whole parse |
| `Rndis.Receiver.Run` | kernel-aarch64/usb_net.c:791-967 | any sequence of polls refines the specification |
| `Tcp6.NearSeq` | kernel-aarch64/net_ipv6.c:1484-1512 | positions less than 2^32 apart are told apart by their 32-bit sequence numbers |
| `Tcp6.InputFaithful` | kernel-aarch64/net_ipv6.c:1446-1544 | one arriving segment keeps what was received a prefix of the peer's stream and the end-of-stream mark true, if and only if it is not a data-carrying FIN at the receive point |
| `Tcp6.RecvFaithful` | kernel-aarch64/net_ipv6.c:1374-1394 | a read keeps it too; 0 for a nonzero length means the whole stream was returned, EAGAIN means empty and still open |
| `Tcp6.RunFaithful` | kernel-aarch64/net_ipv6.c:1374-1544 | over every run, under any loss, duplication and reordering, the bytes returned are a prefix of the stream and every 0 comes after all of it (section 3.10.7.4 of RFC 9293) |
| `Tcp6.LostFinShows` | kernel-aarch64/net_ipv6.c:1374-1544 | the condition is exact for the reader too: from any faithful state, a reader that empties the queue and asks for one byte more is told the end too early if and only if the segment before was such a FIN |
| `Tcp6.PlainRunFaithful` | kernel-aarch64/net_ipv6.c:1374-1544 | for a stream shorter than 4 GiB with empty FINs this needs no condition on the receiver |
| `Tcp6.FinPayloadLost` | kernel-aarch64/net_ipv6.c:1484-1488 | a concrete FIN with payload after which the reader is told the end without having seen the data |
| `Tcp6.InOrderAccepted` | kernel-aarch64/net_ipv6.c:1537-1544 | data at the receive point adds as many bytes as fit, and exactly those are acknowledged |
| `Tcp6.EndIsTold` | kernel-aarch64/net_ipv6.c:1374-1544 | the other half of the end of stream: once the whole stream and a FIN without data at the receive point have been taken, whatever arrives or is read after them, reads hand out exactly the rest of the stream and then 0, never EAGAIN |
| `Tcp6.AnswersAfterEnd` | kernel-aarch64/net_ipv6.c:1374-1565 | so the answers `Serve` gives after that are counts of bytes, and 0 exactly when the whole stream has been returned |
| `Tcp6.RecvExactly` | kernel-aarch64/net_ipv6.c:1374-1394 | a read answers as many of the oldest bytes as fit, and with none there 0 after the peer's end and EAGAIN before it |
| `Tcp6.Opens` | kernel-aarch64/net_ipv6.c:1446-1476 | the SYN-ACK of the peer that was called opens the connection, ready for the first byte of its stream; any other segment then changes nothing |
| `Tcp6.AckCalled` | kernel-aarch64/net_ipv6.c:1446-1544 | an ACK is called for exactly by that SYN-ACK, and once open by every FIN and every segment with data |
| `Tcp6.FreshFaithful` | kernel-aarch64/net_ipv6.c:1274-1291 | a connection that has just sent its SYN is faithful to any stream |
| `Tcp6.Connection.ConnectStart` | kernel-aarch64/net_ipv6.c:1263-1329 | every errno in the code's order; a closed connection that has an interface and a port enters SYN-SENT with an empty ring, whatever becomes of the segment |
| `Tcp6.Connection.TakeSegment` | kernel-aarch64/net_ipv6.c:1446-1565 | the code's branches, with its ring, refine the receive step, whose ends `InputFaithful`, `EndIsTold`, `Opens` and `AckCalled` fix; an ACK goes out exactly when that step calls for one and a next hop and a source address are found |
| `Tcp6.Connection.TryRecv` | kernel-aarch64/net_ipv6.c:1374-1394 | errors, end of stream and the oldest bytes of the ring; the length is narrowed to 32 bits as in the code |
| `Tcp6.Connection.Serve` | kernel-aarch64/net_ipv6.c:1374-1565 | any interleaving of arrivals and reads refines the run, with the answer of every read |
| `Checksum.FoldIsOnesSum` | kernel-aarch64/net_ipv6.c:68-87 | adding words in 32 bits and folding at the end is one's-complement addition (section 1 of RFC 1071) |
| `Checksum.StandardExample` | kernel-aarch64/net_ipv6.c:68-87 | the example of section 3 of RFC 1071: 0001, f203, f4f5 and f6f7 add up to ddf2 |
| `Checksum.PseudoLayout` | kernel-aarch64/net_ipv6.c:89-111 | byte by byte, the pseudo-header of section 8.1 of RFC 8200 |
| `Checksum.TotalFolds` | kernel-aarch64/net_ipv6.c:89-111 | for every address pair and segment below 65536 bytes the accumulator stays below 2^32 and folds to the one's-complement sum of pseudo-header and zero-padded segment (section 8.1 of RFC 8200) |
| `Checksum.CsumAddBuf` | kernel-aarch64/net_ipv6.c:68-80 | the loop in 32-bit arithmetic adds exactly the words of the buffer |
| `Checksum.CsumFinish` | kernel-aarch64/net_ipv6.c:82-87 | the folding loop terminates, at the complement of the one's-complement sum |
| `Checksum.UpperChecksum` | kernel-aarch64/net_ipv6.c:129-145 | the five partial sums are the checksum of pseudo-header and segment |
| `Checksum.SealedSumsToOnes` | kernel-aarch64/net_ipv6.c:862-871 | every segment with its computed checksum stored sums to 0xFFFF |
| `Checksum.SealedAccepted` | kernel-aarch64/net_ipv6.c:1845-1856 | and passes the receive check |
| `Checksum.AcceptsExactly` | kernel-aarch64/net_ipv6.c:1431-1442 | a checked segment is accepted if and only if it sums to 0xFFFF with its pseudo-header and its checksum field is not 0xFFFF, the other one's-complement zero |
| `Checksum.OneByteDamage` | kernel-aarch64/net_ipv6.c:1431-1442 | damage to any one byte is refused, except where the field of a TCP segment is zero afterwards, which skips the check |
| `Checksum.DamageAccepted` | kernel-aarch64/net_ipv6.c:1431-1442 | a concrete segment with a right checksum in which one byte changes unnoticed |
| `Checksum.BuildIcmpv6` | kernel-aarch64/net_ipv6.c:836-874 | EMSGSIZE exactly for bodies over 124 bytes, EAFNOSUPPORT without a source address; otherwise type, code and body on the wire, summing to 0xFFFF and accepted |
| `Checksum.BuildTcp` | kernel-aarch64/net_ipv6.c:1198-1261 | EMSGSIZE exactly for more than 1216 bytes of options and payload; otherwise the header of section 3.1 of RFC 9293 byte by byte (`TcpLayout`), summing to 0xFFFF and accepted, and the receiver reads back ports, numbers, flags and payload |
| `Checksum.TcpRoundTrip` | kernel-aarch64/net_ipv6.c:1415-1429 | header fields and data written by the sender are the ones the receiver reads, with or without the MSS option |
| `Checksum.CheckSegment` | kernel-aarch64/net_ipv6.c:1431-1442 | the code's check decides acceptance as specified |
| `Paths.NormalizeAbsPath` | kernel-aarch64/sys_util.c:41-92 | 0 exactly when every step of the walk fits the buffer and the depth limit, and then the buffer holds the place the steps lead to (`NormalizeLaws`) |
| `Paths.NormalizeSucceeds` | kernel-aarch64/sys_util.c:41-92 | never fails for an absolute path shorter than the buffer whose nesting stays at or below 64 |
| `Paths.NormalizeIdempotent` | kernel-aarch64/sys_util.c:41-92 | the result is canonical and normalising it again changes nothing |
| `Paths.NormalizeLaws` | kernel-aarch64/sys_util.c:41-92 | step by step, for every text that leads to a place: a slash or /. after it changes nothing, /.. leads to the parent, at the root to the root, any other name leads down unless that is longer than the buffer or deeper than 64, and /.. after it leads back |
| `Paths.NormalizeClean` | kernel-aarch64/sys_util.c:41-92 | a canonical path is accepted exactly when it fits |
| `Paths.ComponentsConcat` | kernel-aarch64/sys_util.c:50-60 | a slash between two texts separates their components |
| `Paths.ComponentsOfRender` | kernel-aarch64/sys_util.c:41-92 | reading a canonical path gives back exactly its components |
| `Paths.RenderInjective` | kernel-aarch64/sys_util.c:41-92 | different places have different canonical names |
| `Paths.ResolvePath` | kernel-aarch64/sys_util.c:94-125 | the resolved path or -1, for every cwd and input; `ResolveAbsolute`, `ResolveRelative` and `ResolveUp` say where it leads |
| `Paths.ResolveRelative` | kernel-aarch64/sys_util.c:104-124 | a relative input is walked from the working directory: exactly when it fits, and to where |
| `Paths.ResolveUp` | kernel-aarch64/sys_util.c:104-124 | .. from a canonical place leads to what its parent is, at the root to the root, whenever the text fits |
| `Paths.ResolveAbsolute` | kernel-aarch64/sys_util.c:97-103 | an absolute path of at most 255 characters is resolved without the working directory |
| `Paths.AbsPathParentDir` | kernel-aarch64/sys_util.c:149-176 | the loops compute the specified parent or errno |
| `Paths.ParentOfRender` | kernel-aarch64/sys_util.c:149-176 | the parent of a canonical path is that path without its last component; the root is its own parent |
| `Paths.ParentMeans` | kernel-aarch64/sys_util.c:149-176 | for any text: the parent is what comes before the last slash that is not trailing, / if nothing does; EINVAL without a slash, ENAMETOOLONG exactly when the text does not fit |
| `Paths.AbsPathToNoSlashTrim` | kernel-aarch64/sys_util.c:127-147 | the loops compute the specified name or errno |
| `Paths.NoSlashOfRender` | kernel-aarch64/sys_util.c:127-147 | the overlay name of a canonical path is the path without its slash; only the root has none |
| `Paths.NoSlashMeans` | kernel-aarch64/sys_util.c:127-147 | for any text: leading and trailing slashes go; EINVAL if nothing is left, ENAMETOOLONG exactly when what is left with its trailing slashes does not fit |
| `Overlay.AddDir` | kernel-aarch64/vfs.c:343-366 | a directory made at a vacant place keeps the tree sound and is the only name whose lookup changes |
| `Overlay.RemoveDir` | kernel-aarch64/vfs.c:378-406 | removing a directory with nothing below it keeps every entry's parent a directory and changes only that name |
| `Overlay.AddFile` | kernel-aarch64/vfs.c:408-500 | so does a new name for a fresh or an existing inode, whose link count stays exact |
| `Overlay.RemoveFile` | kernel-aarch64/vfs.c:448-462 | unlinking removes that name only: other names of the inode keep mode and contents, and the inode is freed with its last name |
| `Overlay.SetInode` | kernel-aarch64/vfs.c:512-524 | changing an inode shows under all its names and nowhere else |
| `Overlay.SetDirMode` | kernel-aarch64/vfs.c:526-538 | changing a directory's mode changes that name only |
| `Overlay.SharedSurvives` | kernel-aarch64/vfs.c:54-65 | an inode with two names outlives either |
| `Overlay.ChildHasPrefix` | kernel-aarch64/vfs.c:368-376 | whatever lies directly below a directory has its name as a slash-terminated prefix, so the emptiness test misses no child |
| `Overlay.MissingMeans` | kernel-aarch64/vfs.c:148-192 | a lookup fails exactly when the name is in neither table nor the initramfs: no entry is corrupt |
| `Vfs.FileSystem.constructor` | kernel-aarch64/vfs.c:124-146 | the empty overlay is sound and shows the initramfs |
| `Vfs.FileSystem.LookupAbs` | kernel-aarch64/vfs.c:148-192 | refines the lookup order: directories, files, initramfs |
| `Vfs.FileSystem.RamdirCreate` | kernel-aarch64/vfs.c:343-366 | every errno, the exact table change, and soundness at a vacant place |
| `Vfs.FileSystem.RamdirRemove` | kernel-aarch64/vfs.c:378-406 | ENOENT, ENOTEMPTY exactly when something lies below, else only that name goes |
| `Vfs.FileSystem.RamfileCreate` | kernel-aarch64/vfs.c:408-446 | every errno, the exact table change, and soundness at a vacant place |
| `Vfs.FileSystem.RamfileUnlink` | kernel-aarch64/vfs.c:448-462 | ENOENT or only that name goes |
| `Vfs.FileSystem.RamfileLink` | kernel-aarch64/vfs.c:464-500 | every errno; the new name gets the old name's inode, mode and contents |
| `Vfs.FileSystem.Locate` | kernel-aarch64/sys_fs.c:66-91 | copying in, resolving and following up to eight links ends at the specified place or errno, always canonical |
| `Vfs.FollowEnds` | kernel-aarch64/sys_fs.c:36-91 | following links ends at a canonical path that is not a link |
| `Vfs.FileSystem.Open` | kernel-aarch64/sys_fs.c:520-730 | the tree part of open: what is opened, created or truncated, and every errno of it |
| `Vfs.FileSystem.Mkdir` | kernel-aarch64/sys_fs.c:310-369 | every errno in the code's order, from the directory fd and the pointer on; on success only that name changes |
| `Vfs.FileSystem.Symlink` | kernel-aarch64/sys_fs.c:224-308 | the same, with the target as contents |
| `Vfs.FileSystem.Link` | kernel-aarch64/sys_fs.c:371-460 | the same for hard links; only overlay files can be linked |
| `Vfs.FileSystem.Unlink` | kernel-aarch64/sys_fs.c:1706-1771 | unlink and rmdir with every errno; on success only that name goes |
| `Vfs.FileSystem.Chmod` | kernel-aarch64/sys_fs.c:1612-1662 | every errno; permission bits change under all names of the file, or of the overlay directory; types never change |
| `Vfs.FileSystem.Run` | kernel-aarch64/sys_fs.c:224-460 | over every run of calls each answer and each change of the tree is the specified one, and before and after every call link counts equal the number of names, inodes are in use exactly when named, no path is named twice across overlay and initramfs, names are canonical, and every entry's parent is a directory |
| `Vfs.CreateMeansVacant` | kernel-aarch64/sys_fs.c:324-361 | the checks of the create calls pass exactly at vacant places other than the root |
| `Vfs.MadeThenRemoved` | kernel-aarch64/sys_fs.c:1731-1750 | mkdir and then rmdir, symlink and then unlink: the removing call answers 0 and restores every lookup - except, for a directory, exactly when overlay entries already lay below its name: then it answers ENOTEMPTY; over an initramfs that is itself a tree that cannot be |
| `Vfs.NothingBelowMissing` | kernel-aarch64/vfs.c:378-406 | in a sound tree over an initramfs that is itself a tree nothing lies below a missing name |
| `Vfs.LinkThenUnlink` | kernel-aarch64/sys_fs.c:371-460 | after a successful link, unlinking the first name answers 0; the second name then has the first's mode and contents, the first is missing and every other lookup is as before |
| `Vfs.ChmodKeepsKind` | kernel-aarch64/sys_fs.c:1650-1651 | the new mode has the old type and the requested permissions |
| `TreeLaws.TargetMeans` | kernel-aarch64/sys_fs.c:36-64 | a link's text leads where it would lead a process that works in the link's directory |
| `TreeLaws.FollowMeans` | kernel-aarch64/sys_fs.c:66-91 | following ends at a place if and only if a chain of links leads there within the hops allowed |
| `TreeLaws.WhereMeans` | kernel-aarch64/sys_fs.c:66-91 | EFAULT exactly for a bad pointer or more than 255 characters, EINVAL exactly when the text does not resolve or no chain of at most eight places ends; otherwise that place |
| `TreeLaws.RootIs` | kernel-aarch64/vfs.c:148-192 | the root is a directory with mode 0755 |
| `TreeLaws.MkdirLaw` | kernel-aarch64/sys_fs.c:310-369 | EINVAL at the root, EEXIST where something stands, ENOENT and ENOTDIR for what stands one level up, ENOMEM exactly with the table full; otherwise a directory with the asked permissions stands there, and at every other path what stood there before |
| `TreeLaws.SymlinkLaw` | kernel-aarch64/sys_fs.c:224-308 | the same for a link that holds the target, and no other path is a name of its file |
| `TreeLaws.LinkLaw` | kernel-aarch64/sys_fs.c:371-460 | EPERM for a directory, EROFS for a file of the initramfs; otherwise the new path is one more name of the same file, and nothing else changes |
| `TreeLaws.UnlinkLaw` | kernel-aarch64/sys_fs.c:1706-1771 | EISDIR, ENOENT, ENOTDIR, EROFS for what is of the initramfs, ENOTEMPTY exactly when something of the overlay stands below; otherwise that path is gone and nothing else changes |
| `TreeLaws.ChmodLaw` | kernel-aarch64/sys_fs.c:1612-1662 | of the mode only the nine permission bits change, under all names of the file, and nowhere else; EROFS for the root, the synthetic files and the initramfs |
| `TreeLaws.OpenLaw` | kernel-aarch64/sys_fs.c:520-730 | O_CREAT with O_EXCL refuses what exists, O_CREAT makes an empty file that no other path is a name of, O_TRUNC empties a file under all its names and keeps its mode, EROFS for writing the initramfs; nothing else changes the tree |
| `Cpio.HexRoundTrip` | tools/mkcpio_newc.py:9-10 | hexadecimal digits written are read back as the same number |
| `Cpio.Hex8ToU32` | kernel-aarch64/cpio_newc.c:7-18 | eight digits give their value, without overflow in 32 bits |
| `Cpio.WriteEntry` | tools/mkcpio_newc.py:17-46 | appends exactly the specified entry: header, name, NUL, padding, data, padding |
| `Cpio.Build` | tools/mkcpio_newc.py:72-75 | the writing loop produces the archive of the files and the trailer |
| `Cpio.HeaderLayout` | tools/mkcpio_newc.py:17-39 | the header byte by byte: 070701, then thirteen numbers in eight lower-case digits each, of which mode, link count 1, data size and name size are not zero |
| `Cpio.EntryLayout` | tools/mkcpio_newc.py:41-46 | header, name, NUL, zeros to a multiple of four, data, zeros to a multiple of four |
| `Cpio.TrailerIs` | tools/mkcpio_newc.py:75-75 | the last entry is empty and named TRAILER!!! |
| `Cpio.ParseEntry` | kernel-aarch64/cpio_newc.c:32-73 | reading at the start of each written entry gives back its name, mode and data and ends at the next entry |
| `Cpio.HeaderRefused` | kernel-aarch64/cpio_newc.c:32-46 | anything but a whole header with the right magic number and hexadecimal digits, of either case, is refused |
| `Cpio.EntryRead` | kernel-aarch64/cpio_newc.c:48-73 | what is read behind such a header: refused exactly without a NUL at the end of the name or with data that begins inside and ends outside; otherwise name, mode, place and size are those the header spells, and the next entry follows at a multiple of four |
| `Cpio.RoundTrip` | kernel-aarch64/cpio_newc.c:99-113 | the walk over a written archive visits the files, in order, with their contents, until the callback objects, whose answer is the result; if it never does, all of them, with 0 |
| `Cpio.ZeroMeansTrailer` | kernel-aarch64/cpio_newc.c:99-113 | on any bytes the walk ends with 0 only at a trailer |
| `Cpio.FindRoundTrip` | kernel-aarch64/cpio_newc.c:75-97 | looking up a name finds the first file written under it, and nothing exactly when there is none |
| `Cpio.ParseInside` | kernel-aarch64/cpio_newc.c:48-62 | on any archive whose length is a multiple of four an accepted entry lies inside it, and the next position is aligned and inside |
| `Cpio.ForeachInside` | kernel-aarch64/cpio_newc.c:99-113 | so every entry a callback ever sees lies inside, whatever the bytes |
| `Cpio.FindInside` | kernel-aarch64/cpio_newc.c:75-97 | and every entry found |
| `Cpio.InsideExactly` | kernel-aarch64/cpio_newc.c:55-58 | for any length, an accepted entry's data lies inside exactly when the padded end of the name, whose length the header announces, does |
| `Cpio.CutArchiveEscapes` | kernel-aarch64/cpio_newc.c:55-58 | an archive cut after a name in need of padding is accepted with its data outside: the length condition is needed |
| `Cpio.ForeachEntry` | kernel-aarch64/cpio_newc.c:99-113 | the loop terminates and computes the specified walk |
| `Cpio.FindEntry` | kernel-aarch64/cpio_newc.c:75-97 | the loop terminates and computes the specified search |
| `Cpio.ParseOneAt` | kernel-aarch64/cpio_newc.c:32-73 | the header checks and reads compute the specified parse |
| `Glob.MatchGlob` | userland/src/find.c:102-132 | terminates and returns true exactly when the text is the pattern with each star replaced by some text and each ? by one character |
| `Glob.LaterStarSuffices` | userland/src/find.c:111-116 | once a later star is reached nothing an earlier star could still absorb is lost |
| `Glob.Backtrack` | userland/src/find.c:122-127 | a mismatch leaves only placements one character further on |
| `Glob.MatchIsMeaning` | userland/src/find.c:102-132 | the recursive matching relation is the declarative meaning |
| `Glob.MeansAlone` | userland/src/find.c:102-132 | a star matches every text, a question mark every single character, a text without either itself only |
| `Glob.MeansConcat` | userland/src/find.c:102-132 | and one pattern after another matches exactly one matched text after another, which fixes the whole meaning |
| `Grep.BuildLps` | userland/src/grep.c:57-73 | each entry is the longest proper border of its prefix of the pattern; -1 exactly for patterns over 128 bytes |
| `Grep.FallBack` | userland/src/grep.c:61-64 | following the table skips no candidate match |
| `Grep.Advance` | userland/src/grep.c:162-173 | one character keeps the automaton state right: matched exactly when the pattern occurs in the line so far |
| `Grep.GrepFd` | userland/src/grep.c:101-200 | for any read boundaries and line lengths: the count, the any-match flag, the lines shown (numbered, cut at 511 bytes), the quiet early exit, and -1 after a failed read with the complete lines shown |
| `Grep.GrepInput` | userland/src/grep.c:237-260 | the exit status is 2, 0 or 1 by pattern length, failed reads and whether some line is selected |
| `Grep.SplitRebuilds` | userland/src/grep.c:120-149 | splitting into lines loses nothing |
| `Grep.LinesAre` | userland/src/grep.c:120-149 | a text written as lines is read as just these lines; what follows the last newline is one more if anything does |
| `Grep.JudgedMeans` | userland/src/grep.c:101-200 | whatever the read boundaries; and after a failed read only the complete ones are judged |
| `Grep.ShownMeans` | userland/src/grep.c:120-160 | what is shown are the selected lines, all of them and in order, numbered from 1, each cut after 511 characters and marked then; their number is what is counted |
| `Grep.ContainsMeans` | userland/src/grep.c:162-173 | the pattern is looked for as it stands, anywhere in the line |
| `LineOrder.LexFlips` | userland/src/sort.c:103-113 | byte order ties exactly equal lines and flips sign with its operands |
| `LineOrder.LexMeaning` | userland/src/sort.c:103-113 | the first difference decides, and a proper prefix comes first |
| `LineOrder.CmpLex` | userland/src/sort.c:103-113 | the loop computes byte order |
| `LineOrder.ParseI64Prefix` | userland/src/sort.c:115-142 | the loops compute the numeric prefix, wrapping as int64 does |
| `LineOrder.NumberExact` | userland/src/sort.c:115-142 | a number that fits int64 is read exactly |
| `LineOrder.NumberReads` | userland/src/sort.c:115-142 | blanks, a sign or none and the digits of a number below 2^63, whatever follows them, are read as that number; no digit there, no number |
| `LineOrder.CmpLines` | userland/src/sort.c:144-174 | computes the order for every combination of -n and -r |
| `LineOrder.OrderMeans` | userland/src/sort.c:144-174 | exactly: with -n a line with a number comes before one without and the smaller number first; equal numbers and lines without one in dictionary order of bytes; -r turns all of it around |
| `LineOrder.CompareFlips` | userland/src/sort.c:144-174 | only equal lines tie, and the sign flips with the operands |
| `LineOrder.LeTransitive` | userland/src/sort.c:144-174 | the order is transitive, hence total on lines, with and without -n and -r |
| `Sort.Partition` | userland/src/sort.c:201-213 | terminates with all indices in range and every line on the right side of the pivot, permuting only the range |
| `Sort.SplitPending` | userland/src/sort.c:215-248 | a partition keeps every pair outside one pending range settled, pending ranges apart, and the range k places up the stack within n / 2^k lines |
| `Sort.SplitOnce` | userland/src/sort.c:197-248 | one turn of the loop keeps this and makes the pending work smaller |
| `Sort.QuicksortIter` | userland/src/sort.c:182-256 | a sorted permutation in place; the stack never holds more than log2 n ranges, so the 64-entry check cannot fire for a C int length |
| `Bytes.SameText` | userland/src/sort.c:283-290 | true exactly for equal lines |
| `Sort.Emit` | userland/src/sort.c:379-389 | all lines, or with -u each distinct line once in strict order |
| `Sort.SortLines` | userland/src/sort.c:372-391 | end to end from loaded lines to output and status |
| `Sort.SortedUnique` | userland/src/sort.c:182-256 | only one order of the lines is sorted, so the instability of quicksort cannot show |
| `Date.Epoch` | userland/src/date.c:43-58 | day 0 is 1970-01-01 |
| `Date.Successor` | userland/src/date.c:43-58 | for every integer z: a valid date, and day z+1 is the Gregorian successor of day z |
| `Date.CountsBack` | userland/src/date.c:43-58 | counting days undoes the conversion, for every integer |
| `Date.CivilOfNumber` | userland/src/date.c:43-58 | and the conversion undoes counting days, for every valid date |
| `Date.CivilIs` | userland/src/date.c:43-58 | the code finds era, year and day of year of every day number |
| `Date.YoeIs` | userland/src/date.c:47-47 | the division formula for the year of the era is exact on all 146097 days |
| `Date.YearSteps` | userland/src/date.c:50-54 | the month formula steps through every day of long and short years |

## Left out

- The idle loop, tick programming and the devices behind console and udp6 reads: which ready process comes next, when a parked one wakes, and what a call that waited for input returns, or whether it parks again, is arbitrary in the model; the bytes it stores are not modelled.
- Kernel.Machine.HandleExit: the fallback to the first process after a failed pick cannot be reached, since the pick would have found it, and is left out.
- Kernel.Machine.Yield: the switch that the dispatcher tries after most calls is a step of its own, which a run may or may not take.
- execve, clear_child_tid, signals delivered to a running program, and the clone flags beyond the accepted range: not part of the process protocol.
- Pmm.PageMap.Init: addresses are unbounded integers, so a memory map that ends at the top of the 64-bit space is not distinguished.
- AddressSpace.UserSpace.Run: runs are restricted to mmap lengths whose rounding does not wrap; `Mmap` says for each single call that exactly the others break the table.
- AddressSpace.UserSpace.Brk: the code does not consult the mappings, so heap and mappings are kept apart at the moment of an mmap only, and the contract says no more.
- Descriptors.FileTable: the fd tables of all processes are one sequence indexed by process and fd; contents and offsets of descriptions other than pipes are not modelled, and neither is the EFAULT rollback of pipe2 after its buffer was already found good, which cannot be reached.
- Descriptors.FileTable.ReadFd: what the console, a file or a `/proc` text gives, and file offsets; the answer of those is an argument (the same for files in `WriteFd`).
- Descriptors.FileTable.Tcp6Connect: the wait for the connection, with its timeout, is an argument: established, or the errno.
- Kernel.Machine.FdStep: the two fd numbers pipe2 stores into user memory, and the bytes a read stores there; the descriptor methods return them.
- TCP's send side, retransmission and `snd_una` beyond its update on receipt; port, address and header tests before a segment reaches its connection: best-effort code without a guarantee to state.
- Tcp6.RunFaithful: what happens to the stream after a data-carrying FIN was taken is not described further than `InputFaithful` and `LostFinShows` do.
- Checksum.BuildIcmpv6: finding a source address, and handing the packet to the interface.
- UDP checksums: the sender does not replace a computed zero and the receiver drops it, so no round trip holds.
- Rndis.Receiver.Run: the time budget, the NAK and error paths of the USB transfers and the statistics counters; a poll is the list of transfers it got. The CDC-ECM mode on receive hands its transfer on as it is.
- Paths.AbsPathParentDir: the result is a string, not the caller's buffer (the same for `AbsPathToNoSlashTrim`); `NormalizeAbsPath` does write the caller's buffer.
- Vfs.FileSystem.Run: writes through descriptors change file contents only and are not among the calls; a RAMFILE description keeps a name slot, and its behaviour after an unlink is not modelled.
- Vfs.FileSystem.Open: running out of descriptions or fds (EMFILE) after the tree part; `Descriptors.FileTable.Open` has that part.
- Vfs.FileSystem.Symlink: the creation and the writing of the target are one step; the rollback between them, for failures that cannot occur, is left out.
- Directory listing, getdents64, `/proc` text, ioctl, stat and uname: formatting, or fixed-size best effort.
- Cpio.Build: walking the source directory and reading the files; the model starts from the list of files. Archives are shorter than 2^63 bytes.
- find, grep, sort and date: argument parsing, opening files, retrying interrupted reads and printing numbers. grep's per-file headings and its loop over named files are not modelled.
- Sort.SortLines: starts from the loaded lines; cutting lines at 511 bytes, dropping carriage returns and the pool limit are part of loading.
- LineOrder.Number: a prefix that does not fit int64 is undefined in C; the model takes two's-complement wrap-around, and `NumberExact` speaks of prefixes that fit.
- Date.CivilFromDays: unbounded integers; within 719468 of the largest int64 the C addition would overflow.
- Register, MMU, cache, timer, UART, framebuffer and USB host code, the shell's line editing and the other tools: no visible device model, or thin loops over system calls.
