/**
 What the process calls answer and do, said of the records of the process table - with the numbers of the interface,
 and without the steps the kernel takes.
 */
module ProcLaws {
  import D = Descriptors
  import O = Ownership
  import R = PipeRings
  import opened Backing
  import opened Errno
  import opened Limits
  import opened Pmm
  import opened Processes
  import opened SystemCalls

  /** The caller has r as its result, and nothing else changed. */
  predicate OnlyAnswers(s: Snapshot, s': Snapshot, r: int)
    requires Fit(s)
  {
    s' == s.(procs := s.procs[s.cur := s.procs[s.cur].(x0 := r)])
  }

  predicate CanRun(p: Proc) { p.state in {Runnable, Sleeping, BlockedIo} }

  /** p gets the processor and becomes q: it runs on with the result it has; or, if it was waiting for input, with
      that call's result - or it parks itself once more. */
  predicate Continues(p: Proc, q: Proc, turn: Turn) {
    && q == p.(state := q.state, x0 := q.x0, pending := q.pending)
    && q.x0 == (if p.pending then turn.result else p.x0)
    && q.pending == (p.pending && turn.again)
    && q.state == (if !q.pending then Runnable else if turn.timed then Sleeping else BlockedIo)
  }

  /** The processor goes to a process that can run: the one that clocks and input name, if it can. */
  predicate HandsOver(procs: seq<Proc>, procs': seq<Proc>, p: nat, turn: Turn) {
    && |procs'| == |procs| && p < |procs| && CanRun(procs[p]) && Continues(procs[p], procs'[p], turn)
    && (forall k :: 0 <= k < |procs| && k != p ==> procs'[k] == procs[k])
    && (0 <= turn.next < |procs| && CanRun(procs[turn.next]) ==> p == turn.next)
  }

  predicate NobodyCanRun(procs: seq<Proc>) { forall k :: 0 <= k < |procs| ==> !CanRun(procs[k]) }

  lemma PickHandsOver(procs: seq<Proc>, turn: Turn)
    ensures var p := Pick(procs, turn.next);
            && (p < 0 <==> NobodyCanRun(procs))
            && (p >= 0 ==> HandsOver(procs, Resumed(procs, p, turn), p, turn))
  {
    hide FirstReady;
    var p := Pick(procs, turn.next);
    assert forall k :: 0 <= k < |procs| ==> (Ready(procs[k]) <==> CanRun(procs[k]));
  }

  // ----- wait4

  /** p is a child of me, ended and not handed over yet, that a wait for req is for. */
  predicate IsFor(me: Proc, req: int, p: Proc) {
    p.state == Zombie && p.ppid == me.pid && (req <= 0 || req == p.pid)
  }

  predicate BadWord(addr: nat) { addr != 0 && !(0x400000 <= addr <= 0x5ffffc) }

  /** The parent has the pid as its result and, where it asked for it, the exit code in bits 8 to 15 of a word that is
      zero otherwise. */
  predicate Learns(me: Proc, me': Proc, status: nat, pid: nat, code: nat) {
    && me'.x0 == pid
    && me'.memory == if status == 0 || BadWord(status) then me.memory else me.memory[status := code % 256 * 0x100]
  }

  ghost predicate FdsGone(s: Snapshot, s': Snapshot, i: nat)
    requires Fit(s) && Fit(s') && i < MAX_PROCS
  {
    && (forall fd :: 0 <= fd < 32 ==> s'.tables.owners[D.Slot(i, fd)] == -1)
    && (forall q, fd :: 0 <= q < MAX_PROCS && q != i && 0 <= fd < 32 ==>
          s'.tables.owners[D.Slot(q, fd)] == s.tables.owners[D.Slot(q, fd)])
  }

  /** The ended child in slot z is handed over: its slot is free, and its parent knows. */
  ghost predicate Collects(s: Snapshot, s': Snapshot, z: nat, req: int, status: nat)
    requires Fit(s) && Fit(s')
  {
    var me := s.procs[s.cur];
    && z < MAX_PROCS && IsFor(me, req, s.procs[z]) && (forall k :: 0 <= k < z ==> !IsFor(me, req, s.procs[k]))
    && var child, me' := s.procs[z], s'.procs[s.cur];
       && s'.procs == s.procs[z := CLEARED][s.cur := me']
       && Learns(me, me', status, child.pid, child.exitCode) && me' == me.(x0 := me'.x0, memory := me'.memory)
       && s'.delivered == s.delivered + [Delivery(me.pid, child.pid, child.exitCode % 256 * 0x100)]
       && s' == s.(procs := s'.procs, delivered := s'.delivered, used := s'.used, tables := s'.tables)
       && FdsGone(s, s', z)
  }

  /** The parent waits, and somebody else has the processor. */
  predicate StandsBy(s: Snapshot, s': Snapshot, req: int, status: nat, turn: Turn)
    requires Fit(s) && Fit(s')
  {
    var procs := s.procs[s.cur := s.procs[s.cur].(state := Waiting, waitTarget := req, waitStatus := status)];
    s' == s.(procs := s'.procs, cur := s'.cur) && HandsOver(procs, s'.procs, s'.cur, turn)
  }

  predicate Childless(procs: seq<Proc>, me: Proc) {
    forall k :: 0 <= k < |procs| && procs[k].state != Unused ==> procs[k].ppid != me.pid
  }

  lemma Decides(procs: seq<Proc>, cur: nat, req: int, status: nat, nohang: bool)
    requires cur < |procs|
    ensures var o, me := WaitDecision(procs, cur, req, status, nohang), procs[cur];
            if exists z :: 0 <= z < |procs| && IsFor(me, req, procs[z]) then
              if BadWord(status) then o == Refused(EFAULT) else o.Reaped?
            else o == if Childless(procs, me) then Refused(ECHILD) else if nohang then NotYet else Blocks
  {
    var z := ZombieFor(procs, procs[cur].pid, req);
    if z >= 0 { assert IsFor(procs[cur], req, procs[z]); }
  }

  lemma BlocksMeans(s: Snapshot, req: int, status: nat, options: nat, turn: Turn, s': Snapshot)
    requires Fit(s) && Fit(s') && Waited(s, req, status, options, turn, s')
    requires WaitDecision(s.procs, s.cur, req, status, options % 2 == WNOHANG) == Blocks
    ensures if forall k :: 0 <= k < MAX_PROCS && k != s.cur ==> !CanRun(s.procs[k]) then
              s' == s.(procs := s.procs[s.cur := s.procs[s.cur].(state := Runnable, x0 := -EAGAIN)])
            else StandsBy(s, s', req, status, turn)
  {
    hide Pick, O.Shape, R.PerSlot, Resumed, WaitDecision, D.Emptied, HandsOver, AfterReap;
    var procs := Wait(s.procs, s.cur, req, status, options % 2 == WNOHANG);
    PickHandsOver(procs, turn);
    assert procs[s.cur].state == Waiting;
    assert forall k :: 0 <= k < MAX_PROCS && k != s.cur ==> procs[k] == s.procs[k];
    if NobodyCanRun(procs) {
      assert forall k :: 0 <= k < MAX_PROCS && k != s.cur ==> !CanRun(procs[k]);
    } else {
      var k :| 0 <= k < |procs| && CanRun(procs[k]);
      assert CanRun(s.procs[k]);
    }
  }

  /** wait4: an ended child it is for is handed over, the lowest one first, unless the word for its status cannot be
      stored: EFAULT.  ECHILD exactly without any child; 0 if it was asked not to wait; otherwise the parent waits - if
      anybody else can run, and EAGAIN if not. */
  lemma WaitAnswers(s: Snapshot, req: int, status: nat, options: nat, turn: Turn, s': Snapshot)
    requires Sound(s) && !s.halted && Stepped(s, Wait4(req, status, options, turn), s')
    ensures var me := s.procs[s.cur];
            if exists z :: 0 <= z < MAX_PROCS && IsFor(me, req, s.procs[z]) then
              if BadWord(status) then OnlyAnswers(s, s', -EFAULT) else exists z :: Collects(s, s', z, req, status)
            else if Childless(s.procs, me) then OnlyAnswers(s, s', -ECHILD)
            else if options % 2 == 1 then OnlyAnswers(s, s', 0)
            else if forall k :: 0 <= k < MAX_PROCS && k != s.cur ==> !CanRun(s.procs[k]) then
              s' == s.(procs := s.procs[s.cur := me.(state := Runnable, x0 := -EAGAIN)])
            else StandsBy(s, s', req, status, turn)
  {
    hide Pick, O.Shape, O.Counted, R.PerSlot, R.Conserved, BackingOk, ProcsOk, FdsOk, Resumed, AfterReap,
         D.Emptied, Collects, WaitDecision, StandsBy, CanRun, IsFor, Childless;
    var nohang := options % 2 == WNOHANG;
    Decides(s.procs, s.cur, req, status, nohang);
    match WaitDecision(s.procs, s.cur, req, status, nohang) {
      case Reaped(z) => CollectsOne(s, req, status, options, turn, s', z);
      case Blocks => BlocksMeans(s, req, status, options, turn, s');
      case _ =>
    }
  }

  lemma CollectsOne(s: Snapshot, req: int, status: nat, options: nat, turn: Turn, s': Snapshot, z: nat)
    requires Sound(s) && Fit(s') && Waited(s, req, status, options, turn, s')
    requires WaitDecision(s.procs, s.cur, req, status, options % 2 == WNOHANG) == Reaped(z)
    ensures Collects(s, s', z, req, status)
    ensures IsFor(s.procs[s.cur], req, s.procs[z]) && !BadWord(status)
  {
    hide Pick, O.Shape, O.Counted, R.PerSlot, R.Conserved, BackingOk, NoLostWakeup, HistoryOk, AfterReap,
         D.SurvivorsKeep, ZombieFor;
  }

  // ----- exit and kill

  /** w waits in wait4 for the process dead. */
  predicate WaitsFor(w: Proc, dead: Proc) {
    w.state == Waiting && w.pid == dead.ppid && (w.waitTarget <= 0 || w.waitTarget == dead.pid)
  }

  /** The process in slot i has ended: a zombie with its exit code - unless its parent was waiting for it: then the
      slot is free, and the parent can run again and knows. */
  predicate Dies(procs: seq<Proc>, procs': seq<Proc>, i: nat, code: nat) {
    && |procs'| == |procs| && i < |procs|
    && var dead := procs[i];
       && (forall k :: 0 <= k < |procs| && k != i ==>
             var p, p' := procs[k], procs'[k];
             if WaitsFor(p, dead) then
               && Learns(p, p', p.waitStatus, dead.pid, code)
               && p' == p.(state := Runnable, waitTarget := 0, waitStatus := 0, x0 := p'.x0, memory := p'.memory)
             else p' == p)
       && procs'[i] == if Expected(procs, i) then CLEARED else dead.(state := Zombie, exitCode := code)
  }

  predicate Expected(procs: seq<Proc>, i: nat)
    requires i < |procs|
  {
    exists k :: 0 <= k < |procs| && WaitsFor(procs[k], procs[i])
  }

  /** The kernel finds the one parent that waits for slot i, if there is one. */
  lemma ParentFound(procs: seq<Proc>, nextPid: nat, i: nat, code: nat)
    requires PidsOk(procs, nextPid) && i < MAX_PROCS && Live(procs[i])
    ensures var procs1 := procs[i := procs[i].(state := Zombie, exitCode := code)];
            var w := WaiterFor(procs1, procs[i].ppid);
            && (Expected(procs, i) <==> Awaited(procs1, i)) && (Awaited(procs1, i) ==> 0 <= w < |procs| && w != i)
            && forall k :: 0 <= k < |procs| ==> (WaitsFor(procs[k], procs[i]) <==> Awaited(procs1, i) && k == w)
  {
    var procs1 := procs[i := procs[i].(state := Zombie, exitCode := code)];
    var w := WaiterFor(procs1, procs[i].ppid);
    forall k | 0 <= k < |procs| && WaitsFor(procs[k], procs[i])
      ensures k == w
    {
      assert k != i && procs1[k] == procs[k];
    }
    if w >= 0 { assert procs1[w] == procs[w]; }
  }

  lemma BuryMeans(procs: seq<Proc>, nextPid: nat, i: nat, code: nat)
    requires PidsOk(procs, nextPid) && i < MAX_PROCS && Live(procs[i])
    ensures Dies(procs, Bury(procs, i, code), i, code)
    ensures BuryDelivers(procs, i, code) ==
            if Expected(procs, i) then [Delivery(procs[i].ppid, procs[i].pid, code % 256 * 0x100)] else []
  {
    hide WaiterFor, Awaited, WaitsFor, Expected;
    ParentFound(procs, nextPid, i, code);
  }

  /** The process in slot i has ended with this code: recorded, its fds closed, and handed to its parent if that was
      waiting; procs are the records before anybody else gets the processor. */
  ghost predicate Ends(s: Snapshot, s': Snapshot, procs: seq<Proc>, i: nat, code: nat)
    requires Fit(s) && Fit(s')
  {
    && Dies(s.procs, procs, i, code) && i < MAX_PROCS
    && s'.deaths == s.deaths[s.procs[i].pid := code]
    && s'.delivered == s.delivered + (if Expected(s.procs, i)
         then [Delivery(s.procs[i].ppid, s.procs[i].pid, code % 256 * 0x100)] else [])
    && s'.nextPid == s.nextPid && s'.base == s.base && s'.streams == s.streams
    && FdsGone(s, s', i)
  }

  /** What is left when the running process ends: power-off after the first one; or somebody else runs; with nobody
      who can, exit stops the machine, while kill returns 0 to the dead. */
  ghost predicate EndsItself(s: Snapshot, s': Snapshot, procs: seq<Proc>, code: nat, turn: Turn, halts: bool)
    requires Fit(s) && Fit(s')
  {
    if s.cur == 0 then s' == s.(halted := true)
    else
      && Ends(s, s', procs, s.cur, code)
      && if NobodyCanRun(procs) then
           && s'.cur == s.cur && s'.halted == halts
           && s'.procs == if halts then procs else procs[s.cur := procs[s.cur].(x0 := 0)]
         else !s'.halted && HandsOver(procs, s'.procs, s'.cur, turn)
  }

  lemma QuitMeans(s: Snapshot, code: nat, turn: Turn, s': Snapshot, halts: bool)
    requires Fit(s) && Fit(s') && PidsOk(s.procs, s.nextPid) && Live(s.procs[s.cur]) && Quit(s, code, turn, s', halts)
    ensures EndsItself(s, s', Bury(s.procs, s.cur, code), code, turn, halts)
  {
    hide Pick, O.Shape, R.PerSlot, Resumed, Bury, BuryDelivers, D.SurvivorsKeep, AfterReap, HandsOver, Dies,
         NobodyCanRun;
    BuryMeans(s.procs, s.nextPid, s.cur, code);
    PickHandsOver(Bury(s.procs, s.cur, code), turn);
  }

  /** exit. */
  lemma ExitMeans(s: Snapshot, code: nat, turn: Turn, s': Snapshot)
    requires Sound(s) && !s.halted && Stepped(s, Exit(code, turn), s')
    ensures exists procs :: EndsItself(s, s', procs, code, turn, true)
  {
    hide O.Shape, O.Counted, R.PerSlot, R.Conserved, BackingOk, NoLostWakeup, HistoryOk, FdsOk, Quit, EndsItself;
    QuitMeans(s, code, turn, s', true);
  }

  /** kill: a pid that is not positive, then a signal that is not 0, 9 or 15, then a pid of nobody; signal 0 and
      zombies only give 0; anybody else ends with 128 and the signal. */
  lemma KillAnswers(s: Snapshot, pid: int, sig: nat, turn: Turn, s': Snapshot)
    requires Sound(s) && !s.halted && Stepped(s, Kill(pid, sig, turn), s')
    ensures if pid <= 0 then OnlyAnswers(s, s', -EINVAL)
            else if sig !in {0, 9, 15} then OnlyAnswers(s, s', -ENOSYS)
            else if !exists i :: 0 <= i < MAX_PROCS && Live(s.procs[i]) && s.procs[i].pid == pid then
              OnlyAnswers(s, s', -ESRCH)
            else exists i, procs :: Struck(s, s', procs, i, pid, sig, turn)
  {
    hide O.Shape, O.Counted, R.PerSlot, R.Conserved, BackingOk, NoLostWakeup, HistoryOk, FdsOk, Quit, EndsItself,
         Ended, Bury, BuryDelivers, Ends;
    var i := if pid > 0 then SlotOfPid(s.procs, pid) else -1;
    if pid > 0 && sig in {0, 9, 15} && i >= 0 {
      if sig != 0 && s.procs[i].state != Zombie {
        if i == s.cur { QuitMeans(s, 128 + sig, turn, s', false); } else { KilledMeans(s, i, 128 + sig, s'); }
      }
      assert Struck(s, s', Bury(s.procs, i, 128 + sig), i, pid, sig, turn);
    }
  }

  ghost predicate Struck(s: Snapshot, s': Snapshot, procs: seq<Proc>, i: nat, pid: int, sig: nat, turn: Turn)
    requires Fit(s) && Fit(s')
  {
    && i < MAX_PROCS && Live(s.procs[i]) && s.procs[i].pid == pid
    && if sig == 0 || s.procs[i].state == Zombie then OnlyAnswers(s, s', 0)
       else if i == s.cur then EndsItself(s, s', procs, 128 + sig, turn, false)
       else
         && Ends(s, s', procs, i, 128 + sig) && !s'.halted && s'.cur == s.cur
         && s'.procs == procs[s.cur := procs[s.cur].(x0 := 0)]
  }

  lemma KilledMeans(s: Snapshot, i: nat, code: nat, s': Snapshot)
    requires Fit(s) && Fit(s') && PidsOk(s.procs, s.nextPid) && i < MAX_PROCS && Live(s.procs[i]) && !s.halted
    requires Ended(s, i, code, s'.(procs := Bury(s.procs, i, code)))
    requires s' == Answered(s'.(procs := Bury(s.procs, i, code)), 0)
    ensures Ends(s, s', Bury(s.procs, i, code), i, code) && !s'.halted && s'.cur == s.cur
    ensures s'.procs == Bury(s.procs, i, code)[s.cur := Bury(s.procs, i, code)[s.cur].(x0 := 0)]
  {
    hide O.Shape, R.PerSlot, Bury, BuryDelivers, D.SurvivorsKeep, AfterReap, Dies;
    BuryMeans(s.procs, s.nextPid, i, code);
  }

  // ----- leaving the processor

  /** nanosleep and a call that waits for input: the caller is parked and the processor goes on to whom clocks and
      input name - if that is the caller itself, its call returns: 0 from nanosleep, or what the input decides. */
  lemma SleepMeans(s: Snapshot, park: Park, turn: Turn, s': Snapshot)
    requires Fit(s) && !s.halted && Stepped(s, Sleep(park, turn), s')
    ensures var me := s.procs[s.cur];
            var parked := match park
                          case Nap => me.(state := Sleeping, x0 := 0)
                          case Await(timed) => me.(state := if timed then Sleeping else BlockedIo, pending := true);
            && s' == s.(procs := s'.procs, cur := s'.cur)
            && (s'.cur != s.cur ==> HandsOver(s.procs[s.cur := parked], s'.procs, s'.cur, turn))
            && (s'.cur == s.cur ==>
                  && (0 <= turn.next < MAX_PROCS && CanRun(s.procs[turn.next]) ==> turn.next == s.cur)
                  && s'.procs == s.procs[s.cur := if park == Nap then me.(state := Runnable, x0 := 0)
                                                  else me.(state := Runnable, x0 := turn.result, pending := false)])
  {
    hide Pick, O.Shape, R.PerSlot, Resumed;
    PickHandsOver(s.procs[s.cur := ParkedAs(s.procs[s.cur], park)], turn);
  }

  /** Giving way costs the caller nothing: its record is as it was when somebody else runs. */
  lemma YieldMeans(s: Snapshot, turn: Turn, s': Snapshot)
    requires Sound(s) && !s.halted && Stepped(s, Yield(turn), s')
    ensures s' == s.(procs := s'.procs, cur := s'.cur)
    ensures s'.cur != s.cur ==> HandsOver(s.procs, s'.procs, s'.cur, turn)
    ensures var me := s.procs[s.cur];
            s'.cur == s.cur ==> s'.procs == s.procs[s.cur := if CanRun(me) then me.(state := Runnable) else me]
  {
    hide Pick, O.Shape, R.PerSlot, O.Counted, R.Conserved, BackingOk, FdsOk, ProcsOk, Resumes;
    PickHandsOver(s.procs, turn);
  }

  /** A deadline or input makes a parked process runnable, and changes nothing else. */
  lemma WakeMeans(s: Snapshot, i: nat, s': Snapshot)
    requires Fit(s) && !s.halted && Stepped(s, Wake(i), s')
    ensures s' == if i < MAX_PROCS && CanRun(s.procs[i])
                  then s.(procs := s.procs[i := s.procs[i].(state := Runnable)]) else s
  {
    hide O.Shape, R.PerSlot;
  }

  /** Power-on: process 1 alone, in the boot region, running, with the console behind fds 0, 1 and 2 and nothing else
      open anywhere; the next process will be 2. */
  lemma BootIs(base: nat, used: seq<bool>)
    ensures var s := Booted(base, used);
            && |s.procs| == MAX_PROCS && s.cur == 0 && s.nextPid == 2 && !s.halted
            && s.procs[0] == Proc(1, 0, Runnable, USER_REGION_BASE, 0, 0, 0, 0, false, map[])
            && (forall i :: 1 <= i < MAX_PROCS ==> s.procs[i].state == Unused)
            && s.base == base && s.used == used && s.deaths == map[] && s.delivered == []
            && |s.tables.owners| == O.OWNERS && |s.tables.descs| == O.MAX_FILEDESCS
            && (forall p, fd :: 0 <= p < MAX_PROCS && 0 <= fd < 32 ==>
                  var d := s.tables.owners[D.Slot(p, fd)];
                  if p == 0 && fd < 3 then 0 <= d < O.MAX_FILEDESCS && s.tables.descs[d] == O.Desc(O.Uart, 3)
                  else d == -1)
            && (forall i :: 0 <= i < |s.tables.pipes| ==> !s.tables.pipes[i].used)
  {
  }
}
