/**
 The kernel's process system calls over the descriptor layer and the page
 allocator, and runs of system calls.  The scheduler's choice, interrupts that
 wake sleepers, and the outcome of operations on hardware are arguments.
 */
module Kernel {
  import opened Errno
  import opened Limits
  import D = Descriptors
  import O = Ownership
  import opened Processes
  import opened Backing
  import opened Runs
  import opened SystemCalls
  import opened Waits
  import M = Pmm
  import R = PipeRings

  /** Process i gets a new record; the others' fds are as before, and i has none left unless it lives. */
  lemma FdsOkAfter(procs: seq<Proc>, slots: seq<int>, slots': seq<int>, i: nat, p: Proc)
    requires FdsOk(procs, slots) && i < MAX_PROCS && |slots'| >= O.SLOTS && D.OthersKeep(slots, slots', i)
    requires p.state == Unused ==> D.AllClosed(slots', i)
    ensures FdsOk(procs[i := p], slots')
  {
  }

  class Machine {
    const fds: D.FileTable
    const pmm: M.PageMap
    var procs: seq<Proc>
    var cur: nat
    var nextPid: nat
    var halted: bool

    ghost var deaths: map<nat, nat>
    ghost var delivered: seq<Delivery>

    ghost function Memory(): Ram
      reads this, pmm
    {
      Ram(pmm.base, pmm.used)
    }

    ghost function View(): Snapshot
      reads this, fds, pmm
    {
      Snapshot(procs, cur, nextPid, halted, deaths, delivered, fds.T(), fds.streams, pmm.base, pmm.used)
    }

    ghost predicate Consistent()
      reads this, fds, pmm, pmm.bitmap
    {
      && fds.Idle() && pmm.Valid()
      && ProcsOk(procs, nextPid, deaths, delivered)
      && FdsOk(procs, fds.slots) && BackingOk(procs, Memory())
      && cur < MAX_PROCS && nextPid > 0
    }

    /** What holds between system calls. */
    ghost predicate Inv()
      reads this, fds, pmm, pmm.bitmap
    {
      Consistent() && (halted || Running(procs[cur]))
    }

    /** proc_init_if_needed: the first process, in the boot region, with the console open. */
    constructor (pages: M.PageMap)
      requires pages.Valid() && BackingOk([], Ram(pages.base, pages.used))
      ensures Inv() && pmm == pages && fresh(fds)
      ensures View() == Booted(pages.base, pages.used)
    {
      hide M.PageMap.Valid, O.Counted, R.Conserved, D.NoTables, D.NoStreams, D.WithConsole, M.CountFree, BackingOk,
           ProcsOk, FdsOk, M.Touches;
      fds := new D.FileTable();
      pmm := pages;
      procs := seq(MAX_PROCS, i => if i == 0 then FirstProc() else CLEARED);
      cur, nextPid, halted := 0, 2, false;
      deaths, delivered := map[], [];
      new;
      FirstDescFree();
      BootProtocol(pages.base, pages.used);
      fds.InstallConsole();
      ConsoleOnly(fds.slots, fds.held);
    }

    lemma SoundBetweenCalls()
      requires Inv()
      ensures Fit(View()) && Sound(View())
    {
      hide ProcsOk, BackingOk, O.Counted, FdsOk, M.CountFree;
      OwnersToo(procs, fds.slots, fds.held);
    }

    /** sched_pick_next_runnable. */
    method PickNext(next: int) returns (p: int)
      requires |procs| == MAX_PROCS
      ensures p == Pick(procs, next)
    {
      if 0 <= next < MAX_PROCS && Ready(procs[next]) { return next; }
      for i := 0 to MAX_PROCS
        invariant FirstReady(procs) == FirstReady(procs, i)
      {
        if Ready(procs[i]) { return i; }
      }
      return -1;
    }

    /** proc_switch_to, on whom the scheduler picked. */
    method SwitchTo(p: nat, turn: Turn)
      requires Consistent() && p < MAX_PROCS && Ready(procs[p])
      modifies this`procs, this`cur
      ensures Consistent() && Running(procs[cur])
      ensures View() == old(View()).(procs := Resumed(old(procs), p, turn), cur := p)
    {
      hide HistoryOk, NoLostWakeup, M.PageMap.Valid, M.CountFree, O.Counted, R.Conserved, Backed, D.FileTable.Valid;
      ReadyRuns(procs, nextPid, p, turn);
      var back := procs[p].(state := Runnable);
      if procs[p].pending {
        if turn.again {
          back := procs[p].(state := if turn.timed then Sleeping else BlockedIo, x0 := turn.result);
        } else {
          back := back.(x0 := turn.result, pending := false);
        }
      }
      StepAsideKeepsProtocol(procs, nextPid, deaths, delivered, p, back);
      SamePlaces(procs, procs[p := back], Memory());
      procs := procs[p := back];
      cur := p;
    }

    /** The running process changes its run state, its result, or what it still waits for. */
    method Touch(p: Proc)
      requires Consistent() && Running(procs[cur])
      requires p == procs[cur].(state := p.state, x0 := p.x0, pending := p.pending)
      requires Running(p) && (p.state == Zombie ==> procs[cur].state == Zombie)
      modifies this`procs
      ensures Consistent() && View() == old(View()).(procs := old(procs)[cur := p])
    {
      hide HistoryOk, NoLostWakeup, M.PageMap.Valid, M.CountFree, O.Counted, R.Conserved, Backed, D.FileTable.Valid;
      StepAsideKeepsProtocol(procs, nextPid, deaths, delivered, cur, p);
      SamePlaces(procs, procs[cur := p], Memory());
      procs := procs[cur := p];
    }

    /** The dispatcher stores a system call's result in x0. */
    method Return(r: int)
      requires Inv() && !halted
      modifies this`procs
      ensures Inv() && View() == Answered(old(View()), r)
    {
      hide HistoryOk, NoLostWakeup, BackingOk, FdsOk, M.PageMap.Valid, M.CountFree, D.FileTable.Idle;
      Touch(procs[cur].(x0 := r));
    }

    /** mmu_ttbr0_create_with_user_pa: three table pages, never given back. */
    method CreateTables(pa: nat, ready: bool) returns (ok: bool)
      requires pmm.Valid() && BackingOk(procs, Memory()) && pa % M.REGION == 0
      modifies pmm`free, pmm`used, pmm.bitmap
      ensures pmm.Valid() && BackingOk(procs, Memory())
      ensures forall k :: 0 <= k < |pmm.used| && old(pmm.used)[k] ==> pmm.used[k]
      ensures pmm.used == if ready then TakeTables(old(pmm.used)) else old(pmm.used)
      ensures ok == (ready && old(pmm.free) >= 3)
    {
      hide M.CountFree, Backed, UserReserved;
      if !ready { return false; }
      if pa % M.REGION != 0 { return false; }
      var l1 := pmm.AllocPage();
      var low := pmm.AllocPage();
      var high := pmm.AllocPage();
      MoreUsedIsFine(procs, old(Memory()), pmm.used);
      return l1 != 0 && low != 0 && high != 0;
    }

    /** Memory is left for a child: an aligned region, and three pages for its tables. */
    ghost predicate RoomForChild()
      reads this, pmm
    {
      M.FirstRun(pmm.used, 0) + M.RUN <= |pmm.used| && pmm.free >= M.RUN + 3
    }

    /** A private region with page tables for a child, or 0 with the region given back. */
    method TakeBacking(mmuReady: bool) returns (pa: nat)
      requires pmm.Valid() && BackingOk(procs, Memory())
      modifies pmm`free, pmm`used, pmm.bitmap
      ensures pmm.Valid() && BackingOk(procs, Memory())
      ensures pa != 0 ==> Backed(Memory(), pa) && Unowned(procs, pa)
      ensures (pa, pmm.used) == ChildBacking(pmm.base, old(pmm.used), mmuReady)
      ensures mmuReady && old(RoomForChild()) ==> pa != 0
    {
      hide BackingOk, Backed, M.RegionFreed, M.PagesFreed, M.CountFree, M.FirstRun, TakeTables;
      ghost var ram := Memory();
      pa := pmm.AllocRegion();
      if pa == 0 {
        if M.FirstRun(ram.used, 0) + M.RUN <= |ram.used| { FreshRegion(procs, ram, M.FirstRun(ram.used, 0)); }
        return;
      }
      FreshRegion(procs, ram, (pa - ram.base) / M.PAGE);
      ghost var ram1 := Memory();
      var ok := CreateTables(pa, mmuReady);
      StillBacked(ram1, Memory(), pa);
      if !ok {
        FreeingUnowned(procs, Memory(), pa);
        pmm.FreeRegion(pa);
        return 0;
      }
    }

    /** sys_clone. */
    method Clone(flags: nat, mmuReady: bool) returns (r: int)
      requires Inv() && !halted
      modifies this`procs, this`nextPid, fds, pmm`free, pmm`used, pmm.bitmap
      ensures Inv()
      ensures Cloned(old(View()), flags, mmuReady, View()) && r == procs[cur].x0
      ensures flags < 0x100 && FreeSlot(old(procs)) >= 0 && mmuReady && old(RoomForChild()) ==> r == old(nextPid) > 0
    {
      hide HistoryOk, NoLostWakeup, M.CountFree, O.Counted, R.Conserved, Backed, ChildBacking, D.Inherits;
      if flags >= 0x100 { Return(-ENOSYS); return -ENOSYS; }
      var s := FindFreeSlot();
      if s < 0 { Return(-EMFILE); return -EMFILE; }
      var pa := TakeBacking(mmuReady);
      if pa == 0 {
        Return(-EMFILE);
        return -EMFILE;
      }
      r := AddChild(s, pa);
    }

    /** The part of sys_clone that cannot fail: the child appears in free slot s. */
    method AddChild(s: nat, pa: nat) returns (pid: nat)
      requires Inv() && !halted && s < MAX_PROCS && !Live(procs[s])
      requires Backed(Memory(), pa) && Unowned(procs, pa)
      modifies this`procs, this`nextPid, fds
      ensures Inv() && pid == old(nextPid) > 0
      ensures View() == old(View()).(procs := Spawn(old(procs), cur, s, pid, pa), nextPid := pid + 1, tables := fds.T())
      ensures D.Inherits(old(fds.T()), fds.T(), cur, s)
    {
      hide FdsOk, PidsOk, M.PageMap.Valid, HistoryOk, NoLostWakeup, M.CountFree, O.Counted, R.Conserved, Backed,
           D.Inherits;
      SlotsSized(procs, fds.slots);
      pid := nextPid;
      nextPid := nextPid + 1;
      SpawnKeepsProtocol(procs, pid, deaths, delivered, cur, s, pa);
      ghost var held := fds.slots;
      ghost var after := Spawn(procs, cur, s, pid, pa);
      UnusedClosed(procs, held, s);
      fds.CloneFds(cur, s);
      FdsOkAfter(procs, held, fds.slots, s, after[s]);
      FdsOkAfter(procs[s := after[s]], fds.slots, fds.slots, cur, after[cur]);
      assert after == procs[s := after[s]][cur := after[cur]];
      Arrival(procs, Memory(), s, after[s]);
      SamePlaces(procs[s := after[s]], after, Memory());
      procs := procs[s := Proc(pid, procs[cur].pid, Runnable, pa, 0, 0, 0, 0, false, procs[cur].memory)];
      procs := procs[cur := procs[cur].(x0 := pid)];
    }

    /** pmm_free_2mib_aligned for a process that is being reaped, unless it lives in the boot region. */
    method FreeBacking(pa: nat)
      requires pmm.Valid() && BackingOk(procs, Memory()) && Unowned(procs, pa)
      requires pa == M.USER_REGION_BASE || Backed(Memory(), pa)
      modifies pmm`free, pmm`used, pmm.bitmap
      ensures pmm.Valid() && BackingOk(procs, Memory())
      ensures pmm.used == AfterReap(pmm.base, old(pmm.used), pa)
      // every page of the region is free, and no other page changes
      ensures forall k :: 0 <= k < |pmm.used| ==>
                pmm.used[k] == (old(pmm.used)[k] && !(pa != 0x400000 && pa <= pmm.base + k * 4096 < pa + 0x200000))
    {
      hide M.CountFree, Backed;
      if pa != M.USER_REGION_BASE { BackedHigh(Memory(), pa); }
      if pa != 0 && pa != M.USER_REGION_BASE {
        FreeingUnowned(procs, Memory(), pa);
        pmm.FreeRegion(pa);
      }
    }

    /** Reaping slot z: its fds are closed, its region freed, its slot cleared. */
    method Reap(z: nat)
      requires fds.Idle() && pmm.Valid() && FdsOk(procs, fds.slots) && BackingOk(procs, Memory())
      requires z < MAX_PROCS && procs[z].state == Zombie
      modifies this`procs, fds, pmm`free, pmm`used, pmm.bitmap
      ensures fds.Idle() && pmm.Valid() && FdsOk(procs, fds.slots) && BackingOk(procs, Memory())
      ensures procs == old(procs)[z := CLEARED]
      ensures D.Emptied(old(fds.T()), fds.T(), z) && fds.streams == old(fds.streams)
      ensures pmm.used == AfterReap(pmm.base, old(pmm.used), old(procs)[z].userPa)
    {
      hide M.CountFree, O.Counted, R.Conserved, Backed, D.Emptied, FdsOk;
      SlotsSized(procs, fds.slots);
      ghost var held := fds.slots;
      fds.CloseAllFds(z);
      FdsOkAfter(procs, held, fds.slots, z, CLEARED);
      var pa := procs[z].userPa;
      Departure(procs, Memory(), z);
      procs := procs[z := CLEARED];
      FreeBacking(pa);
    }

    method FindZombie(ppid: nat, req: int) returns (z: int)
      requires |procs| == MAX_PROCS
      ensures z == ZombieFor(procs, ppid, req)
    {
      for i := 0 to MAX_PROCS
        invariant ZombieFor(procs, ppid, req) == ZombieFor(procs, ppid, req, i)
      {
        if procs[i].state == Zombie && procs[i].ppid == ppid && (req <= 0 || procs[i].pid == req) { return i; }
      }
      return -1;
    }

    method HasChild(ppid: nat) returns (b: bool)
      requires |procs| == MAX_PROCS
      ensures b == AnyChild(procs, ppid)
    {
      for i := 0 to MAX_PROCS
        invariant forall j :: 0 <= j < i ==> !(Live(procs[j]) && procs[j].ppid == ppid)
      {
        if procs[i].state != Unused && procs[i].ppid == ppid { return true; }
      }
      return false;
    }

    method FindWaiter(ppid: nat) returns (w: int)
      requires |procs| == MAX_PROCS
      ensures w == WaiterFor(procs, ppid)
    {
      for i := 0 to MAX_PROCS
        invariant WaiterFor(procs, ppid) == WaiterFor(procs, ppid, i)
      {
        if procs[i].state == Waiting && procs[i].pid == ppid { return i; }
      }
      return -1;
    }

    /** proc_find_idx_by_pid. */
    method FindPid(pid: nat) returns (s: int)
      requires |procs| == MAX_PROCS
      ensures s == SlotOfPid(procs, pid)
    {
      for i := 0 to MAX_PROCS
        invariant SlotOfPid(procs, pid) == SlotOfPid(procs, pid, i)
      {
        if procs[i].state != Unused && procs[i].pid == pid { return i; }
      }
      return -1;
    }

    /** proc_find_free_slot. */
    method FindFreeSlot() returns (s: int)
      requires |procs| == MAX_PROCS
      ensures s == FreeSlot(procs)
    {
      for i := 0 to MAX_PROCS
        invariant FreeSlot(procs) == FreeSlot(procs, i)
      {
        if procs[i].state == Unused { return i; }
      }
      return -1;
    }

    /** wait4 found zombie z. */
    method HandOver(z: nat, req: int, status: nat, ghost nohang: bool)
      requires Inv() && !halted && z < MAX_PROCS
      requires WaitDecision(procs, cur, req, status, nohang) == Reaped(z)
      modifies this`procs, this`delivered, fds, pmm`free, pmm`used, pmm.bitmap
      ensures Inv()
      ensures View() == old(View()).(procs := Wait(old(procs), cur, req, status, nohang),
                                     delivered := old(delivered) + WaitDelivers(old(procs), cur, req, status, nohang),
                                     used := AfterReap(pmm.base, old(pmm.used), old(procs)[z].userPa),
                                     tables := fds.T())
      ensures D.Emptied(old(fds.T()), fds.T(), z)
    {
      hide PidsOk, HistoryOk, NoLostWakeup, M.CountFree, O.Counted, R.Conserved, Backed, WaitDecision, AfterReap,
           D.Emptied;
      NotItself(procs, nextPid, cur, z);
      WaitKeepsProtocol(procs, nextPid, deaths, delivered, cur, req, status, nohang);
      delivered := delivered + WaitDelivers(procs, cur, req, status, nohang);
      ghost var after := Wait(procs, cur, req, status, nohang);
      var parent, child := procs[cur], procs[z];
      Reap(z);
      SamePlaces(procs, after, Memory());
      procs := procs[cur := Stored(parent, status, Status(child.exitCode)).(x0 := child.pid)];
      assert procs == after;
    }

    /** wait4 found nothing yet and leaves the processor, unless there is nobody to pick. */
    method BlockForChild(req: int, status: nat, turn: Turn)
      requires Inv() && !halted
      requires forall j :: 0 <= j < MAX_PROCS ==> !(procs[j].state == Zombie && Matches(procs[j], procs[cur].pid, req))
      modifies this`procs, this`cur
      ensures Inv()
      ensures var parked := Parked(old(procs), old(cur), req, status);
              var p := Pick(parked, turn.next);
              var back := old(procs)[cur].(state := Runnable, x0 := -EAGAIN);
              View() == if p >= 0 then old(View()).(procs := Resumed(parked, p, turn), cur := p)
                        else old(View()).(procs := old(procs)[cur := back])
    {
      hide HistoryOk, NoLostWakeup, PidsOk, M.CountFree, O.Counted, R.Conserved, Backed, Matches, M.PageMap.Valid,
           D.FileTable.Valid;
      var parent := procs[cur];
      ghost var before := procs;
      procs := procs[cur := parent.(state := Waiting, waitTarget := req, waitStatus := status)];
      SamePlaces(before, procs, Memory());
      BlockKeepsProtocol(before, nextPid, deaths, delivered, cur, req, status);
      var p := PickNext(turn.next);
      if p >= 0 {
        SwitchTo(p, turn);
        return;
      }
      GiveUpKeepsProtocol(procs, nextPid, deaths, delivered, cur, -EAGAIN);
      SamePlaces(procs, procs[cur := parent.(state := Runnable, x0 := -EAGAIN)], Memory());
      procs := procs[cur := procs[cur].(state := Runnable, waitTarget := 0, waitStatus := 0, x0 := -EAGAIN)];
      assert procs[cur] == parent.(state := Runnable, x0 := -EAGAIN);
    }

    /** sys_wait4; turn is what happens if the parent has to leave the processor. */
    method Wait4(req: int, status: nat, options: nat, turn: Turn)
      requires Inv() && !halted
      modifies this`procs, this`cur, this`delivered, fds, pmm`free, pmm`used, pmm.bitmap
      ensures Inv() && !halted
      ensures Waited(old(View()), req, status, options, turn, View())
    {
      hide ProcsOk, WaitDelivers, HistoryOk, NoLostWakeup, M.CountFree, O.Counted, R.Conserved, Backed, AnyChild,
           AfterReap, D.Emptied, Pick, Resumed;
      var z := FindZombie(procs[cur].pid, req);
      if z >= 0 {
        if status != 0 && !WordOk(status) {
          Return(-EFAULT);
          return;
        }
        HandOver(z, req, status, options % 2 == WNOHANG);
        return;
      }
      var any := HasChild(procs[cur].pid);
      if !any { Return(-ECHILD); return; }
      if options % 2 == WNOHANG { Return(0); return; }
      BlockForChild(req, status, turn);
    }

    /** What exit, and kill of another process, do to the process that ends: its fds
        are closed, and its parent reaps it at once if it waits for it. */
    method Die(idx: nat, code: nat)
      requires Consistent() && idx < MAX_PROCS && Live(procs[idx])
      modifies this`procs, this`deaths, this`delivered, fds, pmm`free, pmm`used, pmm.bitmap
      ensures Consistent() && Ended(old(View()), idx, code, View())
    {
      hide FdsOk, PidsOk, M.PageMap.Valid, HistoryOk, NoLostWakeup, M.CountFree, O.Counted, R.Conserved, Backed,
           AfterReap, D.Emptied;
      SlotsSized(procs, fds.slots);
      BuryKeepsProtocol(procs, nextPid, deaths, delivered, idx, code);
      deaths := deaths[procs[idx].pid := code];
      delivered := delivered + BuryDelivers(procs, idx, code);
      ghost var held := fds.slots;
      fds.CloseAllFds(idx);
      var dead := procs[idx].(state := Zombie, exitCode := code);
      ghost var before := procs;
      FdsOkAfter(procs, held, fds.slots, idx, dead);
      procs := procs[idx := dead];
      SamePlaces(before, procs, Memory());
      var w := FindWaiter(dead.ppid);
      if w >= 0 && (procs[w].waitTarget <= 0 || procs[w].waitTarget == dead.pid) {
        WakeAndReap(w, idx);
      }
    }

    /** The waiting parent in slot w gets zombie idx, which goes away with its region. */
    method WakeAndReap(w: nat, idx: nat)
      requires fds.Idle() && pmm.Valid() && FdsOk(procs, fds.slots) && BackingOk(procs, Memory())
      requires w < MAX_PROCS && idx < MAX_PROCS && procs[w].state == Waiting && procs[idx].state == Zombie
      requires D.AllClosed(fds.slots, idx)
      modifies this`procs, pmm`free, pmm`used, pmm.bitmap
      ensures pmm.Valid() && FdsOk(procs, fds.slots) && BackingOk(procs, Memory())
      ensures procs == old(procs)[w := Woken(old(procs)[w], old(procs)[idx])][idx := CLEARED]
      ensures pmm.used == AfterReap(pmm.base, old(pmm.used), old(procs)[idx].userPa)
    {
      hide M.CountFree, O.Counted, R.Conserved, Backed, AfterReap;
      var dead := procs[idx];
      ghost var dying := procs;
      procs := procs[w := Woken(procs[w], dead)];
      SamePlaces(dying, procs, Memory());
      Departure(procs, Memory(), idx);
      procs := procs[idx := CLEARED];
      FreeBacking(dead.userPa);
    }

    /** handle_exit_and_maybe_switch: was there somebody to switch to?  The first process ending means power-off,
        from which there is no return. */
    method HandleExit(code: nat, turn: Turn) returns (switched: bool)
      requires Inv() && !halted
      modifies this`procs, this`cur, this`halted, this`deaths, this`delivered, fds, pmm`free, pmm`used, pmm.bitmap
      ensures Inv() && halted == (old(cur) == 0)
      ensures switched == (old(cur) == 0 || Pick(Bury(old(procs), old(cur), code), turn.next) >= 0)
      ensures if switched then Quit(old(View()), code, turn, View(), true)
              else
                && Ended(old(View()), cur, code, View())
                && cur == old(cur) && procs[cur] == old(procs)[cur].(state := Zombie, exitCode := code)
    {
      hide HistoryOk, NoLostWakeup, M.CountFree, O.Counted, R.Conserved, Backed, Bury, BuryDelivers, AfterReap,
           D.Emptied, Pick, Resumed;
      if cur == 0 {
        halted := true;
        return true;
      }
      NobodyLeft(procs, nextPid, cur, code, turn.next);
      Die(cur, code);
      var p := PickNext(turn.next);
      if p >= 0 {
        SwitchTo(p, turn);
        return true;
      }
      return false;
    }

    /** exit and exit_group: with nobody to switch to, the machine stops. */
    method Exit(code: nat, turn: Turn)
      requires Inv() && !halted
      modifies this`procs, this`cur, this`halted, this`deaths, this`delivered, fds, pmm`free, pmm`used, pmm.bitmap
      ensures Inv() && Quit(old(View()), code, turn, View(), true)
    {
      hide HistoryOk, NoLostWakeup, BackingOk, FdsOk, M.PageMap.Valid, M.CountFree, D.FileTable.Idle, Bury,
           BuryDelivers, D.Emptied, AfterReap, Pick, Resumed;
      var switched := HandleExit(code, turn);
      if !switched { halted := true; }
    }

    /** sys_kill. */
    method Kill(pid: int, sig: nat, turn: Turn) returns (r: int)
      requires Inv() && !halted
      modifies this`procs, this`cur, this`halted, this`deaths, this`delivered, fds, pmm`free, pmm`used, pmm.bitmap
      ensures Inv() && Killed(old(View()), pid, sig, turn, View())
      ensures pid <= 0 ==> r == -EINVAL
      ensures pid > 0 && sig !in {0, 9, 15} ==> r == -ENOSYS
      ensures pid > 0 && sig in {0, 9, 15} ==> r in {0, -ESRCH}
      ensures pid > 0 && sig in {0, 9, 15} ==>
                (r == -ESRCH <==> forall i :: 0 <= i < MAX_PROCS && Live(old(procs)[i]) ==> old(procs)[i].pid != pid)
    {
      hide ProcsOk, BackingOk, HistoryOk, NoLostWakeup, M.CountFree, O.Counted, R.Conserved, Backed, Bury,
           BuryDelivers, AfterReap, D.Emptied, Pick, Resumed;
      if pid <= 0 { Return(-EINVAL); return -EINVAL; }
      if sig != 0 && sig != 9 && sig != 15 { Return(-ENOSYS); return -ENOSYS; }
      var idx := FindPid(pid);
      if idx < 0 { Return(-ESRCH); return -ESRCH; }
      if sig == 0 { Return(0); return 0; }
      if procs[idx].state == Zombie { Return(0); return 0; }
      if idx == cur {
        var switched := HandleExit(128 + sig, turn);
        if !switched { Return(0); }
        return 0;
      }
      KillOther(idx, 128 + sig);
      return 0;
    }

    /** The part of sys_kill that ends another process. */
    method KillOther(idx: nat, code: nat)
      requires Inv() && !halted && idx < MAX_PROCS && idx != cur && Live(procs[idx])
      modifies this`procs, this`deaths, this`delivered, fds, pmm`free, pmm`used, pmm.bitmap
      ensures Inv() && !halted
      ensures var dead := View().(procs := Bury(old(procs), idx, code));
              Ended(old(View()), idx, code, dead) && View() == Answered(dead, 0)
    {
      hide ProcsOk, BackingOk, HistoryOk, NoLostWakeup, M.CountFree, O.Counted, R.Conserved, Backed, Bury,
           BuryDelivers, AfterReap, D.Emptied;
      ghost var before := procs;
      Die(idx, code);
      BuryRunning(before, idx, code, cur);
      Return(0);
    }

    /** A descriptor call by the running process disturbs nobody else's fds. */
    lemma StillFdsOk(before: seq<int>)
      requires FdsOk(procs, before) && |fds.slots| == O.SLOTS
      requires cur < MAX_PROCS && Live(procs[cur]) && D.OthersKeep(before, fds.slots, cur)
      ensures FdsOk(procs, fds.slots)
    {
    }

    /** One descriptor system call by the running process. */
    method FdStep(c: Call) returns (r: int)
      requires Inv() && !halted && c.IsFdCall()
      modifies fds
      ensures Inv()
      ensures FdOutcome(old(fds.T()), fds.T(), old(fds.streams), fds.streams, cur, c, r)
      ensures D.OthersKeep(old(fds.T()).owners, fds.T().owners, cur)
    {
      hide M.PageMap.Valid, PidsOk, BackingOk, HistoryOk, NoLostWakeup, M.CountFree, O.Counted, R.Conserved,
           D.Installed, D.CloseOutcome, D.Dup3Outcome, D.Pipe2Outcome, D.StreamsAfterPipe2, D.UdpOpened, D.Tcp6Outcome,
           D.ReadFdOutcome, D.WriteFdOutcome;
      ghost var before := fds.slots;
      match c {
        case Open(k) => r := fds.Open(cur, k);
        case Close(fd) => r := fds.Close(cur, fd);
        case Dup3(a, b, flags) => r := fds.Dup3(cur, a, b, flags);
        case Pipe2(flags, ok) => var rfd, wfd; r, rfd, wfd := fds.Pipe2(cur, flags, ok);
        case Udp6Socket => r := fds.Udp6Socket(cur);
        case Tcp6Connect(port, addrOk, established, e) => r := fds.Tcp6Connect(cur, port, addrOk, established, e);
        case Read(fd, len, ok, other) => var data; r, data := fds.ReadFd(cur, fd, len, ok, other);
        case Write(fd, src, isNull, other) => r := fds.WriteFd(cur, fd, src, isNull, other);
      }
      StillFdsOk(before);
    }

    /** One system call by the running process, or one wake-up or switch by the kernel itself. */
    method Step(c: Call)
      requires Inv()
      modifies this, fds, pmm`free, pmm`used, pmm.bitmap
      ensures Inv() && Stepped(old(View()), c, View()) && Grown(old(View()), View())
    {
      hide HistoryOk, NoLostWakeup, M.CountFree, O.Counted, R.Conserved, Backed, Bury, Wait, WaitDelivers, BuryDelivers,
           FdOutcome, Cloned, Quit, Killed, Waited, Slept, Roused, Yielded, Sound, Grown, Fit;
      ghost var s := View();
      SoundBetweenCalls();
      if halted {
      } else if c.IsFdCall() {
        var r := FdStep(c);
        Return(r);
      } else {
        match c {
          case Clone(flags, ready) => var r := Clone(flags, ready);
          case Exit(code, turn) => Exit(code, turn);
          case Kill(pid, sig, turn) => var r := Kill(pid, sig, turn);
          case Wait4(req, status, options, turn) => Wait4(req, status, options, turn);
          case Sleep(park, turn) => Sleep(park, turn);
          case Wake(i) => Wake(i);
          case Yield(turn) => Yield(turn);
          case _ =>
        }
      }
      SoundBetweenCalls();
      StepGrows(s, c, View());
    }

    /** Every run: whatever is called in whatever order, and whatever the scheduler picks. */
    method Run(calls: seq<Call>) returns (ghost trace: seq<Snapshot>)
      requires Inv()
      modifies this, fds, pmm`free, pmm`used, pmm.bitmap
      ensures Inv() && IsRun(calls, trace)
      ensures trace[0] == old(View()) && trace[|calls|] == View() && Grown(trace[0], trace[|calls|])
    {
      hide Inv, Sound, Stepped, Grown;
      trace := [View()];
      SoundBetweenCalls();
      for i := 0 to |calls|
        invariant Inv() && IsRun(calls[..i], trace)
        invariant trace[0] == old(View()) && trace[i] == View()
      {
        Step(calls[i]);
        SoundBetweenCalls();
        trace := trace + [View()];
      }
      assert calls[..|calls|] == calls;
      RunGrows(calls, trace, 0, |calls|);
    }

    /** sys_nanosleep, or a read or recvfrom with no input yet. */
    method Sleep(park: Park, turn: Turn)
      requires Inv() && !halted
      modifies this`procs, this`cur
      ensures Inv() && View() == Slept(old(View()), park, turn)
    {
      hide HistoryOk, NoLostWakeup, BackingOk, FdsOk, M.PageMap.Valid, M.CountFree, D.FileTable.Idle, Pick;
      var me := procs[cur];
      Touch(ParkedAs(me, park));
      assert Ready(procs[cur]);
      var p := PickNext(turn.next);
      if p == cur {
        Touch(WentOn(procs[cur], park, turn));
      } else {
        SwitchTo(p, turn);
      }
    }

    /** A deadline passes or input arrives for a parked process. */
    method Wake(i: nat)
      requires Inv() && !halted
      modifies this`procs
      ensures Inv() && View() == Roused(old(View()), i)
    {
      hide HistoryOk, NoLostWakeup, M.CountFree, O.Counted, R.Conserved, Backed, M.PageMap.Valid;
      if i < MAX_PROCS && Ready(procs[i]) {
        var p := procs[i].(state := Runnable);
        ReadyRuns(procs, nextPid, i, To(i));
        StepAsideKeepsProtocol(procs, nextPid, deaths, delivered, i, p);
        SamePlaces(procs, procs[i := p], Memory());
        procs := procs[i := p];
      }
    }

    /** sched_maybe_switch. */
    method Yield(turn: Turn)
      requires Inv() && !halted
      modifies this`procs, this`cur
      ensures Inv() && View() == Yielded(old(View()), turn)
    {
      hide HistoryOk, NoLostWakeup, BackingOk, FdsOk, M.PageMap.Valid, M.CountFree, D.FileTable.Idle, Pick;
      var p := PickNext(turn.next);
      if p == cur {
        Wake(cur);
      } else if p >= 0 {
        SwitchTo(p, turn);
      }
    }
  }

  /** From power-on: RAM is handed to the page allocator, the first process is made,
      and any run of system calls follows. */
  method BootAndRun(memBase: nat, memSize: nat, kernelStart: nat, kernelEnd: nat, dtb: nat, calls: seq<Call>)
    returns (m: Machine, ghost trace: seq<Snapshot>)
    requires memBase % M.REGION == 0
    ensures m.Inv() && IsRun(calls, trace) && trace[|calls|] == m.View() && Grown(trace[0], trace[|calls|])
    ensures trace[0] == Booted(trace[0].base, trace[0].used) && |trace[0].used| == M.InitPages(memBase, memSize)
    ensures |trace[0].used| > 0 ==> trace[0].base == memBase
    ensures M.BootPages(trace[0].base, trace[0].used, kernelStart, kernelEnd, dtb) && Orderly(trace[0])
  {
    hide M.CountFree, ProcsOk, O.Counted, M.AlignUp, M.InitPages, M.PageMap.Valid, M.Touches, Machine.Inv,
         Machine.Consistent, Booted, IsRun, Grown, Orderly;
    var pages := new M.PageMap();
    pages.Init(memBase, memSize, kernelStart, kernelEnd, dtb);
    PagesSized(pages);
    AlignedStays(memBase);
    m := new Machine(pages);
    BootOrderly(pages.base, pages.used);
    trace := m.Run(calls);
  }

  lemma BootOrderly(base: nat, used: seq<bool>)
    ensures Fit(Booted(base, used)) && Orderly(Booted(base, used))
  {
  }

  /** Power-on with 64 MiB of RAM leaves room for a child. */
  method BootSmall(calls: seq<Call>) returns (m: Machine, ghost trace: seq<Snapshot>)
    ensures m.Inv() && IsRun(calls, trace) && trace[|calls|] == m.View()
    ensures trace[0] == Booted(0, trace[0].used) && ChildBacking(0, trace[0].used, true).0 != 0
  {
    hide Sound, Stepped, Grown, Orderly, Booted, M.BootPages, M.InitPages, ChildBacking, Machine.Inv;
    PagesAtBoot();
    m, trace := BootAndRun(0, 0x4000000, 0, 0, 0, calls);
    RoomAtBoot(trace[0].used);
  }

  /** The run of StrandingRun happens. */
  method StrandingHappens() returns (m: Machine, ghost trace: seq<Snapshot>)
    ensures IsRun(StrandingCalls(), trace) && trace[0] == Booted(0, trace[0].used) && trace[7] == m.View()
    ensures Strands(trace[3], StrandingCalls()[3])
    ensures !trace[4].halted && trace[4].procs[trace[4].cur].state == Zombie
    ensures trace[5].procs[1].state == Zombie && !D.AllClosed(trace[5].tables.owners, 1)
    ensures trace[6].procs[1].pid == 2 && trace[6].procs[1].state == Runnable
    ensures 2 in trace[4].deaths && 2 in trace[7].deaths && trace[4].deaths[2] == 137 && trace[7].deaths[2] == 7
  {
    hide Sound, Stepped, Strands, Booted, ChildBacking, Machine.Inv;
    m, trace := BootSmall(StrandingCalls());
    StrandingRun(trace, 0, trace[0].used);
  }

  /** The run of OverwritingRun happens. */
  method OverwritingHappens() returns (m: Machine, ghost trace: seq<Snapshot>)
    ensures IsRun(OverwritingCalls(), trace) && trace[0] == Booted(0, trace[0].used) && trace[5] == m.View()
    ensures trace[4].procs[0].state == Waiting && trace[4].procs[0].pending && trace[5].procs[0].x0 == 99
    ensures |trace[5].delivered| > 0 && trace[5].delivered[|trace[5].delivered| - 1] == Delivery(1, 2, Status(7))
  {
    hide Sound, Stepped, Booted, ChildBacking, Machine.Inv;
    m, trace := BootSmall(OverwritingCalls());
    OverwritingRun(trace, 0, trace[0].used);
  }

  lemma PagesAtBoot()
    ensures M.InitPages(0, 0x4000000) == 16384
  {
  }

  /** The second 2 MiB of RAM are free after start-up, and more than three pages besides. */
  lemma RoomAtBoot(used: seq<bool>)
    requires |used| == 16384 && M.BootPages(0, used, 0, 0, 0)
    ensures ChildBacking(0, used, true).0 != 0
  {
    hide M.CountFree, TakeTables;
    assert used[0];
    assert M.AlignedRun(used, M.RUN) by { assert forall i :: M.RUN <= i < 2 * M.RUN ==> !used[i]; }
    assert !M.AlignedRun(used, 0);
    assert M.FirstRun(used, 0) == M.RUN;
    var taken := M.SetRange(used, M.RUN, 2 * M.RUN, true);
    assert !taken[1536] && !taken[1537] && !taken[1538];
    M.FreeRunCounts(taken, 1536, 1539);
  }

  lemma FirstDescFree()
    ensures D.FirstFreeDesc(D.NoTables().descs) == 0
  {
  }

  lemma BootProtocol(base: nat, used: seq<bool>)
    requires BackingOk([], Ram(base, used))
    ensures var s := Booted(base, used);
            ProcsOk(s.procs, s.nextPid, s.deaths, s.delivered) && BackingOk(s.procs, Ram(base, used))
  {
  }

  /** The console's fds are the only open ones. */
  lemma ConsoleOnly(slots: seq<int>, held: seq<int>)
    requires |slots| == O.SLOTS && slots + held == Booted(0, []).tables.owners
    ensures FdsOk(Booted(0, []).procs, slots)
  {
    forall p, fd | 0 < p < MAX_PROCS && 0 <= fd < O.MAX_FDS
      ensures slots[D.Slot(p, fd)] == -1
    {
      assert slots[D.Slot(p, fd)] == (slots + held)[D.Slot(p, fd)];
    }
  }

  lemma OwnersToo(procs: seq<Proc>, slots: seq<int>, held: seq<int>)
    requires FdsOk(procs, slots)
    ensures FdsOk(procs, slots + held)
  {
  }

  lemma PagesSized(pages: M.PageMap)
    requires pages.Valid()
    ensures |pages.used| == pages.total
  {
  }

  lemma AlignedStays(a: nat)
    requires a % M.REGION == 0
    ensures M.AlignUp(a, M.PAGE) == a
  {
    var k := a / 0x200000;
    assert a == 0x200000 * k;
    var n := 512 * k;
    assert a == 4096 * n;
    assert (a + 4095) / 4096 == n;
  }

  /** Somebody else's death leaves the running process running. */
  lemma BuryRunning(procs: seq<Proc>, idx: nat, code: nat, cur: nat)
    requires idx < |procs| && cur < |procs| && cur != idx && Running(procs[cur])
    ensures Bury(procs, idx, code)[cur] == procs[cur]
  {
  }

  lemma BlockKeepsProtocol(procs: seq<Proc>, nextPid: nat, deaths: map<nat, nat>, delivered: seq<Delivery>,
                           cur: nat, req: int, status: nat)
    requires ProcsOk(procs, nextPid, deaths, delivered) && cur < MAX_PROCS && Running(procs[cur])
    requires forall j :: 0 <= j < MAX_PROCS ==> !(procs[j].state == Zombie && Matches(procs[j], procs[cur].pid, req))
    ensures ProcsOk(Parked(procs, cur, req, status), nextPid, deaths, delivered)
  {
  }

  lemma SlotsSized(procs: seq<Proc>, slots: seq<int>)
    requires FdsOk(procs, slots)
    ensures |procs| == MAX_PROCS && |slots| >= O.SLOTS
  {
  }

  lemma UnusedClosed(procs: seq<Proc>, slots: seq<int>, i: nat)
    requires FdsOk(procs, slots) && i < MAX_PROCS && !Live(procs[i])
    ensures D.AllClosed(slots, i)
  {
  }

  /** Nobody is its own child. */
  lemma NotItself(procs: seq<Proc>, nextPid: nat, cur: nat, z: nat)
    requires PidsOk(procs, nextPid) && cur < MAX_PROCS && z < MAX_PROCS && Live(procs[cur]) && Live(procs[z])
    requires procs[z].ppid == procs[cur].pid
    ensures z != cur
  {
  }

  lemma StillBacked(ram: Ram, ram': Ram, pa: nat)
    requires Backed(ram, pa) && ram'.base == ram.base && |ram'.used| == |ram.used|
    requires forall k :: 0 <= k < |ram.used| && ram.used[k] ==> ram'.used[k]
    ensures Backed(ram', pa)
  {
  }
}
