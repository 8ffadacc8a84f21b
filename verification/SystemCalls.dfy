/**
 What each system call, and each step the kernel takes by itself, does to the
 whole machine, on values: a snapshot before, the call, a snapshot after.
 */
module SystemCalls {
  import opened Bytes
  import opened Errno
  import opened Limits
  import D = Descriptors
  import O = Ownership
  import R = PipeRings
  import opened Processes
  import opened Backing
  import opened Pmm

  const WNOHANG := 1

  /** What clocks and input decide when the processor changes hands: whom the scheduler picks, if it can, and - if
      that process was waiting for input - what its call returns, or how it parks itself again. */
  datatype Turn = Turn(next: int, result: int, again: bool, timed: bool)

  function To(next: int): Turn { Turn(next, 0, false, false) }

  /** How a process leaves the processor by itself: nanosleep, or a call that waits for input, perhaps not for ever. */
  datatype Park = Nap | Await(timed: bool)

  /** A system call with its arguments, or a kernel event; other is what a device or file that is not modelled would
      answer. */
  datatype Call =
    | Open(kind: O.Kind) | Close(fd: nat) | Dup3(oldfd: nat, newfd: nat, flags: nat)
    | Pipe2(pflags: nat, bufferOk: bool) | Udp6Socket
    | Tcp6Connect(port: nat, addrOk: bool, established: bool, failure: int)
    | Read(fd: nat, len: nat, rbufOk: bool, other: int) | Write(fd: nat, src: seq<byte>, isNull: bool, other: int)
    | Clone(cflags: nat, mmuReady: bool) | Exit(code: nat, turn: Turn) | Kill(pid: int, sig: nat, turn: Turn)
    | Wait4(req: int, status: nat, options: nat, turn: Turn) | Sleep(park: Park, turn: Turn) | Wake(i: nat)
    | Yield(turn: Turn)
  {
    predicate IsFdCall() {
      match this
      case Open(k) => k.Initramfs? || k.Ramfile? || k.ProcFs?
      case Tcp6Connect(_, _, _, e) => e < 0
      case Close(_) => true
      case Dup3(_, _, _) => true
      case Pipe2(_, _) => true
      case Udp6Socket => true
      case Read(_, _, _, _) => true
      case Write(_, _, _, _) => true
      case _ => false
    }
  }

  /** The machine between two calls: processes, descriptors, pages, and the histories. */
  datatype Snapshot = Snapshot(procs: seq<Proc>, cur: nat, nextPid: nat, halted: bool,
                               deaths: map<nat, nat>, delivered: seq<Delivery>,
                               tables: O.Tables, streams: R.Streams, base: nat, used: seq<bool>)

  predicate Fit(s: Snapshot) {
    |s.procs| == MAX_PROCS && s.cur < MAX_PROCS && O.Shape(s.tables) && R.PerSlot(s.streams)
  }

  /** Slots that are not in use hold no fd. */
  ghost predicate FdsOk(procs: seq<Proc>, slots: seq<int>) {
    && |procs| == MAX_PROCS && |slots| >= O.SLOTS
    && forall i :: 0 <= i < MAX_PROCS && procs[i].state == Unused ==> D.AllClosed(slots, i)
  }

  /** What every snapshot of every run satisfies. */
  ghost predicate Sound(s: Snapshot) {
    && Fit(s) && s.nextPid > 0 && (s.halted || Running(s.procs[s.cur]))
    && ProcsOk(s.procs, s.nextPid, s.deaths, s.delivered)
    && BackingOk(s.procs, Ram(s.base, s.used))
    && FdsOk(s.procs, s.tables.owners)
    && O.Counted(s.tables) && s.tables.loose == multiset{} && s.tables.newborn == -1
    && s.tables.owners[O.SLOTS] == -1 == s.tables.owners[O.SLOTS + 1]
    && R.Conserved(s.tables.pipes, s.streams)
  }

  function FreeSlot(procs: seq<Proc>, i: nat := 0): (s: int)
    requires i <= |procs|
    ensures s == -1 || i <= s < |procs|
    ensures s == -1 ==> forall j :: i <= j < |procs| ==> Live(procs[j])
    ensures s >= 0 ==> !Live(procs[s]) && forall j :: i <= j < s ==> Live(procs[j])
    decreases |procs| - i
  {
    if i == |procs| then -1 else if !Live(procs[i]) then i else FreeSlot(procs, i + 1)
  }

  function SlotOfPid(procs: seq<Proc>, pid: nat, i: nat := 0): (s: int)
    requires i <= |procs|
    ensures s == -1 || i <= s < |procs|
    ensures s == -1 ==> forall j :: i <= j < |procs| ==> !(Live(procs[j]) && procs[j].pid == pid)
    ensures s >= 0 ==> Live(procs[s]) && procs[s].pid == pid
    decreases |procs| - i
  {
    if i == |procs| then -1 else if Live(procs[i]) && procs[i].pid == pid then i else SlotOfPid(procs, pid, i + 1)
  }

  /** A process the scheduler can give the processor to, now or when it wakes. */
  predicate Ready(p: Proc) {
    p.state == Runnable || p.state == Sleeping || p.state == BlockedIo
  }

  function FirstReady(procs: seq<Proc>, i: nat := 0): (p: int)
    requires i <= |procs|
    ensures p == -1 || i <= p < |procs|
    ensures p >= 0 ==> Ready(procs[p])
    ensures p == -1 ==> forall j :: i <= j < |procs| ==> !Ready(procs[j])
    decreases |procs| - i
  {
    if i == |procs| then -1 else if Ready(procs[i]) then i else FirstReady(procs, i + 1)
  }

  /** sched_pick_next_runnable: a process that can run, waiting for one to wake if need be; -1 when there is none.
      Which one it is depends on clocks and input, and next says. */
  function Pick(procs: seq<Proc>, next: int): (p: int)
    ensures p == -1 || 0 <= p < |procs|
    ensures p >= 0 ==> Ready(procs[p])
    ensures p == -1 <==> forall i :: 0 <= i < |procs| ==> !Ready(procs[i])
  {
    if 0 <= next < |procs| && Ready(procs[next]) then next else FirstReady(procs)
  }

  /** proc_switch_to on the process picked: it has woken up, and a call of its that waited for input is completed -
      or finds the input gone and parks the process again, which runs on all the same, whatever its result is. */
  function Resumes(p: Proc, t: Turn): Proc {
    if !p.pending then p.(state := Runnable)
    else if t.again then p.(state := if t.timed then Sleeping else BlockedIo, x0 := t.result)
    else p.(state := Runnable, x0 := t.result, pending := false)
  }

  function Resumed(procs: seq<Proc>, p: int, t: Turn): (r: seq<Proc>)
    ensures |r| == |procs|
  {
    if 0 <= p < |procs| then procs[p := Resumes(procs[p], t)] else procs
  }

  /** The running process has r as its result, and nothing else happened. */
  function Answered(s: Snapshot, r: int): Snapshot
    requires Fit(s)
  {
    s.(procs := s.procs[s.cur := s.procs[s.cur].(x0 := r)])
  }

  // ----- descriptor calls

  /** What a descriptor call with result r does to the tables and the pipes' histories. */
  ghost predicate FdOutcome(t: O.Tables, t': O.Tables, s: R.Streams, s': R.Streams, p: nat, c: Call, r: int)
    requires O.Shape(t) && O.Shape(t') && R.PerSlot(s) && p < MAX_PROCS && c.IsFdCall()
  {
    match c
    case Open(k) => s' == s && D.Installed(t, t', p, 3, k, r)
    case Close(fd) => s' == s && D.CloseOutcome(t, t', p, fd, r)
    case Dup3(a, b, flags) => s' == s && D.Dup3Outcome(t, t', p, a, b, flags, r)
    case Pipe2(flags, ok) =>
      && s' == D.StreamsAfterPipe2(t, s, flags, ok)
      && exists rfd, wfd :: D.Pipe2Outcome(t, t', p, flags, ok, r, rfd, wfd)
    case Udp6Socket => s' == s && D.UdpOpened(t, t', p, r)
    case Tcp6Connect(port, addrOk, established, e) =>
      s' == s && D.Tcp6Outcome(t, t', p, port, addrOk, established, e, r)
    case Read(fd, len, ok, other) => exists data :: D.ReadFdOutcome(t, t', s, s', p, fd, len, ok, other, r, data)
    case Write(fd, src, isNull, other) => D.WriteFdOutcome(t, t', s, s', p, fd, src, isNull, other, r)
  }

  /** A descriptor call changes the tables and the histories, and stores its result; only fds of the running
      process change. */
  ghost predicate FdStepped(s: Snapshot, c: Call, s': Snapshot)
    requires Fit(s) && Fit(s') && c.IsFdCall()
  {
    var r := s'.procs[s.cur].x0;
    && s' == Answered(s, r).(tables := s'.tables, streams := s'.streams)
    && FdOutcome(s.tables, s'.tables, s.streams, s'.streams, s.cur, c, r)
    && D.OthersKeep(s.tables.owners, s'.tables.owners, s.cur)
  }

  // ----- process calls

  /** sys_clone: a result and nothing else, or a child with its parent's fds in its own region. */
  ghost predicate Cloned(s: Snapshot, flags: nat, mmuReady: bool, s': Snapshot)
    requires Fit(s) && Fit(s')
  {
    var slot := FreeSlot(s.procs);
    if flags >= 0x100 then s' == Answered(s, -ENOSYS)
    else if slot < 0 then s' == Answered(s, -EMFILE)
    else
      var (pa, used) := ChildBacking(s.base, s.used, mmuReady);
      if pa == 0 then s' == Answered(s, -EMFILE).(used := used)
      else
        && s' == s.(procs := Spawn(s.procs, s.cur, slot, s.nextPid, pa), nextPid := s.nextPid + 1,
                    used := used, tables := s'.tables)
        && D.Inherits(s.tables, s'.tables, s.cur, slot)
  }

  /** sys_wait4: a zombie child is handed over, its fds closed and its region freed; or an answer; or the processor
      goes to whom the scheduler picks.  With nobody to pick, the parent is runnable again, whatever it was. */
  ghost predicate Waited(s: Snapshot, req: int, status: nat, options: nat, turn: Turn, s': Snapshot)
    requires Fit(s) && Fit(s')
  {
    var nohang := options % 2 == WNOHANG;
    var procs := Wait(s.procs, s.cur, req, status, nohang);
    match WaitDecision(s.procs, s.cur, req, status, nohang)
    case Reaped(z) =>
      && s' == s.(procs := procs, delivered := s.delivered + WaitDelivers(s.procs, s.cur, req, status, nohang),
                  used := AfterReap(s.base, s.used, s.procs[z].userPa), tables := s'.tables)
      && D.Emptied(s.tables, s'.tables, z)
    case Blocks =>
      var p := Pick(procs, turn.next);
      s' == if p >= 0 then s.(procs := Resumed(procs, p, turn), cur := p)
            else s.(procs := s.procs[s.cur := s.procs[s.cur].(state := Runnable, x0 := -EAGAIN)])
    case _ => s' == s.(procs := procs)
  }

  /** Process idx ends with this code: recorded, its fds closed, and if its parent was waiting for it,
      handed over at once with its region given back. */
  ghost predicate Ended(s: Snapshot, idx: nat, code: nat, s': Snapshot)
    requires Fit(s) && Fit(s') && idx < MAX_PROCS
  {
    var handed := BuryDelivers(s.procs, idx, code);
    && s' == s.(procs := Bury(s.procs, idx, code), deaths := s.deaths[s.procs[idx].pid := code],
                delivered := s.delivered + handed, tables := s'.tables,
                used := if handed == [] then s.used else AfterReap(s.base, s.used, s.procs[idx].userPa))
    && D.Emptied(s.tables, s'.tables, idx)
  }

  /** handle_exit_and_maybe_switch: the first process ending is power-off; otherwise the processor goes to whom
      the scheduler picks.  When there is nobody to pick, exit stops the machine, while kill - with halts
      false - returns 0 to the process that has just ended, which goes on running. */
  ghost predicate Quit(s: Snapshot, code: nat, turn: Turn, s': Snapshot, halts: bool)
    requires Fit(s) && Fit(s')
  {
    if s.cur == 0 then s' == s.(halted := true)
    else
      var procs := Bury(s.procs, s.cur, code);
      var p := Pick(procs, turn.next);
      && Ended(s, s.cur, code, s'.(procs := procs, cur := s.cur, halted := false))
      && if p >= 0 then s'.procs == Resumed(procs, p, turn) && s'.cur == p && !s'.halted
         else
           && s'.procs == (if halts then procs else procs[s.cur := procs[s.cur].(x0 := 0)])
           && s'.cur == s.cur && s'.halted == halts
  }

  /** sys_kill: errors, the test signal and zombies only give a result. */
  ghost predicate Killed(s: Snapshot, pid: int, sig: nat, turn: Turn, s': Snapshot)
    requires Fit(s) && Fit(s')
  {
    if pid <= 0 then s' == Answered(s, -EINVAL)
    else if sig !in {0, 9, 15} then s' == Answered(s, -ENOSYS)
    else
      var i := SlotOfPid(s.procs, pid);
      if i < 0 then s' == Answered(s, -ESRCH)
      else if sig == 0 || s.procs[i].state == Zombie then s' == Answered(s, 0)
      else if i == s.cur then Quit(s, 128 + sig, turn, s', false)
      else
        && Ended(s, i, 128 + sig, s'.(procs := Bury(s.procs, i, 128 + sig)))
        && s' == Answered(s'.(procs := Bury(s.procs, i, 128 + sig)), 0)
  }

  /** The record of a process that parks itself; nanosleep will have returned 0. */
  function ParkedAs(p: Proc, park: Park): Proc {
    match park
    case Nap => p.(state := Sleeping, x0 := 0)
    case Await(timed) => p.(state := if timed then Sleeping else BlockedIo, pending := true)
  }

  /** nanosleep, or a call that waits for input: the running process parks itself and the processor goes to whom
      the scheduler picks.  If that is itself, the call goes on and returns. */
  function Slept(s: Snapshot, park: Park, turn: Turn): Snapshot
    requires Fit(s)
  {
    var procs := s.procs[s.cur := ParkedAs(s.procs[s.cur], park)];
    assert Ready(procs[s.cur]);
    var p := Pick(procs, turn.next);
    if p == s.cur then s.(procs := s.procs[s.cur := WentOn(procs[s.cur], park, turn)])
    else s.(procs := Resumed(procs, p, turn), cur := p)
  }

  function WentOn(p: Proc, park: Park, turn: Turn): Proc {
    match park
    case Nap => p.(state := Runnable)
    case Await(_) => p.(state := Runnable, x0 := turn.result, pending := false)
  }

  /** A deadline passes or input arrives for a parked process. */
  function Roused(s: Snapshot, i: nat): Snapshot {
    if i < |s.procs| && Ready(s.procs[i]) then s.(procs := s.procs[i := s.procs[i].(state := Runnable)]) else s
  }

  /** sched_maybe_switch; picking the process that runs only shows that it is not parked any more. */
  function Yielded(s: Snapshot, turn: Turn): Snapshot
    requires Fit(s)
  {
    var p := Pick(s.procs, turn.next);
    if p == s.cur then Roused(s, s.cur) else s.(procs := Resumed(s.procs, p, turn), cur := if p >= 0 then p else s.cur)
  }

  /** One step of a run. */
  ghost predicate Stepped(s: Snapshot, c: Call, s': Snapshot) {
    && Fit(s) && Fit(s')
    && if s.halted then s' == s
       else if c.IsFdCall() then FdStepped(s, c, s')
       else match c
         case Clone(flags, ready) => Cloned(s, flags, ready, s')
         case Exit(code, turn) => Quit(s, code, turn, s', true)
         case Kill(pid, sig, turn) => Killed(s, pid, sig, turn, s')
         case Wait4(req, status, options, turn) => Waited(s, req, status, options, turn, s')
         case Sleep(park, turn) => s' == Slept(s, park, turn)
         case Wake(i) => s' == Roused(s, i)
         case Yield(turn) => s' == Yielded(s, turn)
         case _ => s' == s
  }

  function FirstProc(): Proc { CLEARED.(pid := 1, state := Runnable, userPa := USER_REGION_BASE) }

  /** The first process, in the boot region, with the console behind its first three fds. */
  function Booted(base: nat, used: seq<bool>): Snapshot {
    Snapshot(seq(MAX_PROCS, i => if i == 0 then FirstProc() else CLEARED),
             0, 2, false, map[], [], D.WithConsole(D.NoTables(), 0, 3), D.NoStreams(), base, used)
  }
}
