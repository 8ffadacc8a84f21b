/**
 What a clone makes, what the end of a process gives back, and what a life costs in pages over every run - said of
 the records and pages themselves.
 */
module Lives {
  import Errno
  import opened Limits
  import D = Descriptors
  import O = Ownership
  import R = PipeRings
  import opened Processes
  import opened Pmm
  import opened Backing
  import opened SystemCalls
  import opened Runs

  // ----- clone

  /** Slot i, which was free, holds a child that differs from its parent in pid, parent and result only: it has a
      copy of the parent's memory and fds, in a region of its own that was free, and its result is 0 where its
      parent's is its pid. */
  ghost predicate IsFork(s: Snapshot, s': Snapshot, i: nat)
    requires Fit(s) && Fit(s')
  {
    && i < MAX_PROCS && !Live(s.procs[i]) && i != s.cur
    && (forall k :: 0 <= k < i ==> Live(s.procs[k]))
    && var me, child := s.procs[s.cur], s'.procs[i];
       && child.pid == s.nextPid && child.ppid == me.pid && child.state == Runnable && child.x0 == 0
       && !child.pending && child.memory == me.memory
       && s'.procs[s.cur] == me.(x0 := s.nextPid)
       && (forall k :: 0 <= k < MAX_PROCS && k != i && k != s.cur ==> s'.procs[k] == s.procs[k])
       && s'.cur == s.cur && s'.deaths == s.deaths && s'.delivered == s.delivered && s'.streams == s.streams
       && !s'.halted
       && (forall fd :: 0 <= fd < O.MAX_FDS ==>
             s'.tables.owners[D.Slot(i, fd)] == s.tables.owners[D.Slot(s.cur, fd)])
       && (forall q, fd :: 0 <= q < MAX_PROCS && q != i && 0 <= fd < O.MAX_FDS ==>
             s'.tables.owners[D.Slot(q, fd)] == s.tables.owners[D.Slot(q, fd)])
       && OwnRegion(s, s', child.userPa)
  }

  /** The 2 MiB at pa were free before and are taken after; nothing that was taken is free. */
  predicate OwnRegion(s: Snapshot, s': Snapshot, pa: nat) {
    && |s'.used| == |s.used| && s'.base == s.base && pa % REGION == 0 && pa != USER_REGION_BASE
    && s.base <= pa && pa + REGION <= s.base + |s.used| * PAGE
    && forall k :: 0 <= k < |s.used| ==>
         if pa <= s.base + k * PAGE < pa + REGION then !s.used[k] && s'.used[k] else s.used[k] ==> s'.used[k]
  }

  lemma BackingIsOwn(s: Snapshot, s': Snapshot, ready: bool)
    requires BackingOk(s.procs, Ram(s.base, s.used)) && s'.base == s.base
    requires var (pa, used) := ChildBacking(s.base, s.used, ready); pa != 0 && s'.used == used
    ensures OwnRegion(s, s', ChildBacking(s.base, s.used, ready).0)
  {
    hide CountFree, Touches, UserReserved;
    var n := FirstRun(s.used, 0);
    assert AlignedRun(s.used, n);
    var pa := s.base + n * PAGE;
    FreshRegion(s.procs, Ram(s.base, s.used), n);
  }

  /** A free aligned region, page tables that can be made, and three pages for them. */
  ghost predicate RoomFor(used: seq<bool>, ready: bool) {
    ready && (exists n :: AlignedRun(used, n)) && CountFree(used) >= RUN + 3
  }

  lemma RoomMeans(s: Snapshot, ready: bool)
    requires BackingOk(s.procs, Ram(s.base, s.used))
    ensures ChildBacking(s.base, s.used, ready).0 != 0 <==> RoomFor(s.used, ready)
  {
    BackingCosts(s.base, s.used, ready);
  }

  lemma ClonedIsFork(s: Snapshot, flags: nat, ready: bool, s': Snapshot)
    requires Sound(s) && !s.halted && Fit(s') && Cloned(s, flags, ready, s') && flags < 0x100
    requires FreeSlot(s.procs) >= 0 && ChildBacking(s.base, s.used, ready).0 != 0
    ensures IsFork(s, s', FreeSlot(s.procs))
  {
    hide ChildBacking, OwnRegion, BackingOk, O.Counted, R.Conserved, FdsOk, HistoryOk, NoLostWakeup, O.Shape, R.PerSlot,
         D.OnlyCountsChange;
    BackingIsOwn(s, s', ready);
  }

  /** clone makes such a child exactly when there is room for it, with the next pid; otherwise it answers with an
      errno and changes nothing but pages. */
  lemma CloneForks(s: Snapshot, flags: nat, ready: bool, s': Snapshot)
    requires Sound(s) && !s.halted && Stepped(s, Clone(flags, ready), s')
    ensures s'.nextPid == s.nextPid + 1 <==>
              flags < 0x100 && (exists i :: 0 <= i < MAX_PROCS && !Live(s.procs[i])) && RoomFor(s.used, ready)
    ensures s'.nextPid == s.nextPid + 1 ==> exists i :: IsFork(s, s', i)
    ensures s'.nextPid != s.nextPid + 1 ==>
              && s'.procs[s.cur].x0 == -(if flags >= 0x100 then Errno.ENOSYS else Errno.EMFILE)
              && s' == s.(procs := s.procs[s.cur := s.procs[s.cur].(x0 := s'.procs[s.cur].x0)], used := s'.used)
  {
    hide ChildBacking, OwnRegion, BackingOk, O.Counted, R.Conserved, FdsOk, HistoryOk, NoLostWakeup, O.Shape, R.PerSlot,
         D.Inherits, RoomFor, IsFork, PidsOk;
    var i := FreeSlot(s.procs);
    RoomMeans(s, ready);
    if flags < 0x100 && i >= 0 && ChildBacking(s.base, s.used, ready).0 != 0 { ClonedIsFork(s, flags, ready, s'); }
  }

  // ----- what the end of a process gives back

  predicate SameHome(p: Proc, q: Proc) { Live(p) == Live(q) && p.userPa == q.userPa }

  predicate NobodyMoves(s: Snapshot, s': Snapshot)
    requires Fit(s) && Fit(s')
  {
    s'.base == s.base && s'.used == s.used && forall k :: 0 <= k < MAX_PROCS ==> SameHome(s.procs[k], s'.procs[k])
  }

  /** The process in slot z is gone, and every page of its own region is free - the boot region is nobody's to give. */
  predicate Leaves(s: Snapshot, s': Snapshot, z: nat)
    requires Fit(s) && Fit(s')
  {
    && s'.base == s.base && |s'.used| == |s.used| && z < MAX_PROCS && Live(s.procs[z]) && !Live(s'.procs[z])
    && (forall k :: 0 <= k < MAX_PROCS && k != z ==> SameHome(s.procs[k], s'.procs[k]))
    && var pa := s.procs[z].userPa;
       forall k :: 0 <= k < |s.used| ==>
         s'.used[k] == (s.used[k] && !(pa != USER_REGION_BASE && pa <= s.base + k * PAGE < pa + REGION))
  }

  lemma PagesBack(s: Snapshot, z: nat)
    requires Fit(s) && BackingOk(s.procs, Ram(s.base, s.used)) && z < MAX_PROCS && Live(s.procs[z])
    ensures var used, pa := AfterReap(s.base, s.used, s.procs[z].userPa), s.procs[z].userPa;
            && |used| == |s.used|
            && forall k :: 0 <= k < |s.used| ==>
                 used[k] == (s.used[k] && !(pa != USER_REGION_BASE && pa <= s.base + k * PAGE < pa + REGION))
  {
    hide UserReserved, LowReserved;
  }

  lemma EndedLeaves(s: Snapshot, idx: nat, code: nat, s': Snapshot)
    requires Fit(s) && Fit(s') && BackingOk(s.procs, Ram(s.base, s.used)) && idx < MAX_PROCS && Live(s.procs[idx])
    requires Ended(s, idx, code, s')
    ensures NobodyMoves(s, s') || Leaves(s, s', idx)
  {
    hide AfterReap, D.Emptied, O.Shape, R.PerSlot, BackingOk;
    PagesBack(s, idx);
  }

  lemma HomesTransitive(s: Snapshot, s1: Snapshot, s2: Snapshot, z: nat)
    requires Fit(s) && Fit(s1) && Fit(s2) && NobodyMoves(s1, s2)
    ensures NobodyMoves(s, s1) ==> NobodyMoves(s, s2)
    ensures Leaves(s, s1, z) ==> Leaves(s, s2, z)
  {
    hide O.Shape, R.PerSlot;
  }

  lemma QuitLeaves(s: Snapshot, code: nat, turn: Turn, s': Snapshot, halts: bool)
    requires Fit(s) && Fit(s') && BackingOk(s.procs, Ram(s.base, s.used)) && Live(s.procs[s.cur])
    requires Quit(s, code, turn, s', halts)
    ensures NobodyMoves(s, s') || Leaves(s, s', s.cur)
  {
    hide Ended, Pick, Bury, O.Shape, R.PerSlot, BackingOk, Leaves;
    if s.cur != 0 {
      var d := s'.(procs := Bury(s.procs, s.cur, code), cur := s.cur, halted := false);
      EndedLeaves(s, s.cur, code, d);
      HomesTransitive(s, d, s', s.cur);
    }
  }

  lemma KilledLeaves(s: Snapshot, pid: int, sig: nat, turn: Turn, s': Snapshot)
    requires Fit(s) && Fit(s') && BackingOk(s.procs, Ram(s.base, s.used)) && Live(s.procs[s.cur])
    requires Killed(s, pid, sig, turn, s')
    ensures NobodyMoves(s, s') || exists z :: Leaves(s, s', z)
  {
    hide Ended, Quit, Bury, O.Shape, R.PerSlot, BackingOk, Leaves;
    var i := if pid > 0 then SlotOfPid(s.procs, pid) else -1;
    if i >= 0 && sig in {9, 15} && s.procs[i].state != Zombie {
      if i == s.cur {
        QuitLeaves(s, 128 + sig, turn, s', false);
      } else {
        var d := s'.(procs := Bury(s.procs, i, 128 + sig));
        EndedLeaves(s, i, 128 + sig, d);
        HomesTransitive(s, d, s', i);
      }
    }
  }

  lemma ReapedLeaves(s: Snapshot, z: nat, p: Proc, s': Snapshot)
    requires Fit(s) && Fit(s') && BackingOk(s.procs, Ram(s.base, s.used)) && z < MAX_PROCS && z != s.cur
    requires Live(s.procs[z]) && SameHome(s.procs[s.cur], p) && s'.procs == s.procs[z := CLEARED][s.cur := p]
    requires s'.base == s.base && s'.used == AfterReap(s.base, s.used, s.procs[z].userPa)
    ensures Leaves(s, s', z)
  {
    hide AfterReap, O.Shape, R.PerSlot, BackingOk;
    PagesBack(s, z);
  }

  lemma NotOwnChild(procs: seq<Proc>, nextPid: nat, cur: nat, z: nat, req: int)
    requires PidsOk(procs, nextPid) && cur < MAX_PROCS && z < MAX_PROCS && Live(procs[cur]) && Live(procs[z])
    requires Matches(procs[z], procs[cur].pid, req)
    ensures z != cur
  {
  }

  lemma TouchedStays(s: Snapshot, p: Proc, s': Snapshot)
    requires Fit(s) && Fit(s') && SameHome(s.procs[s.cur], p) && s'.procs == s.procs[s.cur := p]
    requires s'.base == s.base && s'.used == s.used
    ensures NobodyMoves(s, s')
  {
  }

  lemma ParkedStays(s: Snapshot, req: int, status: nat, turn: Turn, s': Snapshot)
    requires Fit(s) && Fit(s') && Live(s.procs[s.cur]) && s'.base == s.base && s'.used == s.used
    requires var procs := Parked(s.procs, s.cur, req, status); s'.procs == Resumed(procs, Pick(procs, turn.next), turn)
    ensures NobodyMoves(s, s')
  {
    hide Pick;
  }

  lemma WaitedLeaves(s: Snapshot, req: int, status: nat, options: nat, turn: Turn, s': Snapshot)
    requires Fit(s) && Fit(s') && BackingOk(s.procs, Ram(s.base, s.used)) && PidsOk(s.procs, s.nextPid)
    requires Running(s.procs[s.cur]) && Waited(s, req, status, options, turn, s')
    ensures NobodyMoves(s, s') || exists z :: Leaves(s, s', z)
  {
    hide AfterReap, WaitDecision, Pick, D.Emptied, O.Shape, R.PerSlot, BackingOk, PidsOk, Leaves, Matches,
         NobodyMoves, Parked, Resumed;
    match WaitDecision(s.procs, s.cur, req, status, options % 2 == WNOHANG) {
      case Reaped(z) =>
        NotOwnChild(s.procs, s.nextPid, s.cur, z, req);
        ReapedLeaves(s, z, s'.procs[s.cur], s');
      case Blocks =>
        if Pick(Parked(s.procs, s.cur, req, status), turn.next) >= 0 {
          ParkedStays(s, req, status, turn, s');
        } else {
          TouchedStays(s, s'.procs[s.cur], s');
        }
      case _ => TouchedStays(s, s'.procs[s.cur], s');
    }
  }

  /** Every call but clone leaves everybody where they are - or one process goes, and its pages are free. */
  lemma StepLeaves(s: Snapshot, c: Call, s': Snapshot)
    requires Sound(s) && Stepped(s, c, s') && !c.Clone?
    ensures NobodyMoves(s, s') || exists z :: Leaves(s, s', z)
  {
    hide FdOutcome, Waited, Quit, Killed, Pick, PidsOk, O.Shape, R.PerSlot, O.Counted, R.Conserved, BackingOk, FdsOk,
         HistoryOk, NoLostWakeup, Leaves;
    if s.halted {
    } else if c.IsFdCall() {
    } else {
      match c {
        case Exit(code, turn) => QuitLeaves(s, code, turn, s', true);
        case Kill(pid, sig, turn) => KilledLeaves(s, pid, sig, turn, s');
        case Wait4(req, status, options, turn) => WaitedLeaves(s, req, status, options, turn, s');
        case _ =>
      }
    }
  }

  /** Whenever a process disappears - collected by wait4, or on the spot by a parent that waits - every RAM page of
      its region is free afterwards and no other page has changed. */
  lemma ReapFrees(s: Snapshot, c: Call, s': Snapshot, z: nat)
    requires Sound(s) && Stepped(s, c, s') && z < MAX_PROCS && Live(s.procs[z]) && !Live(s'.procs[z])
    ensures var pa := s.procs[z].userPa;
            && |s'.used| == |s.used| && s'.base == s.base
            && forall k :: 0 <= k < |s.used| ==>
                 s'.used[k] == (s.used[k] && !(pa != USER_REGION_BASE && pa <= s.base + k * PAGE < pa + REGION))
  {
    hide Stepped, O.Shape, O.Counted, R.Conserved, BackingOk, FdsOk, ProcsOk;
    if c.Clone? {
      CloneKillsNobody(s, c, s', z);
    } else {
      StepLeaves(s, c, s');
    }
  }

  lemma CloneKillsNobody(s: Snapshot, c: Call, s': Snapshot, z: nat)
    requires Sound(s) && Stepped(s, c, s') && c.Clone? && z < MAX_PROCS && Live(s.procs[z])
    ensures Live(s'.procs[z])
  {
    hide Cloned, RoomFor, OwnRegion, O.Shape, O.Counted, R.Conserved, BackingOk, FdsOk;
    if !s.halted { CloneForks(s, c.cflags, c.mmuReady, s'); }
  }

  // ----- what lives cost

  function OwnHome(p: Proc): nat { if Live(p) && p.userPa != USER_REGION_BASE then 1 else 0 }

  /** How many live processes have a region of their own. */
  function Homes(procs: seq<Proc>): nat {
    if procs == [] then 0 else Homes(procs[..|procs| - 1]) + OwnHome(procs[|procs| - 1])
  }

  lemma {:induction false} HomesMove(procs: seq<Proc>, procs': seq<Proc>, z: nat)
    requires |procs'| == |procs| && forall k :: 0 <= k < |procs| && k != z ==> SameHome(procs[k], procs'[k])
    ensures Homes(procs') == Homes(procs) + (if z < |procs| then OwnHome(procs'[z]) - OwnHome(procs[z]) else 0)
  {
    if procs != [] {
      HomesMove(procs[..|procs| - 1], procs'[..|procs| - 1], z);
    }
  }

  /** Pages that are free or stand behind a process. */
  function Worth(s: Snapshot): nat { CountFree(s.used) + RUN * Homes(s.procs) }

  /** A clone that finds a region but runs out of pages while it makes the tables: the one or two it got are lost. */
  ghost predicate Leaks(s: Snapshot, c: Call)
    requires Fit(s)
  {
    && !s.halted && c.Clone? && c.cflags < 0x100 && c.mmuReady && (exists i :: 0 <= i < MAX_PROCS && !Live(s.procs[i]))
    && (exists n :: AlignedRun(s.used, n)) && RUN < CountFree(s.used) < RUN + 3
  }

  ghost function Lost(s: Snapshot, c: Call): nat
    requires Fit(s)
  {
    if Leaks(s, c) then CountFree(s.used) - RUN else 0
  }

  lemma LeavingCosts(s: Snapshot, s': Snapshot, z: nat)
    requires Fit(s) && Fit(s') && BackingOk(s.procs, Ram(s.base, s.used)) && Leaves(s, s', z)
    ensures Worth(s') == Worth(s)
  {
    hide CountFree, Homes, LowReserved, UserReserved;
    HomesMove(s.procs, s'.procs, z);
    var pa := s.procs[z].userPa;
    if pa == USER_REGION_BASE {
      assert s'.used == s.used;
    } else {
      var n := PageOf(Ram(s.base, s.used), pa);
      assert s'.used == SetRange(s.used, n, n + RUN, false);
      CountFreeRange(s.used, n, n + RUN, false);
    }
  }

  lemma ForkCosts(s: Snapshot, flags: nat, ready: bool, s': Snapshot)
    requires Sound(s) && !s.halted && Stepped(s, Clone(flags, ready), s')
    ensures Worth(s') == Worth(s) - 3 * (s'.nextPid - s.nextPid) - Lost(s, Clone(flags, ready))
  {
    hide CountFree, Homes, Cloned, RoomFor, ProcsOk, O.Shape, R.PerSlot, O.Counted, R.Conserved, FdsOk, ChildBacking,
         OwnRegion, UserReserved, Backed, Leaks;
    CloneForks(s, flags, ready, s');
    ClonePages(s, flags, ready, s');
    if s'.nextPid == s.nextPid + 1 {
      var i :| IsFork(s, s', i);
      ForkMoves(s, s', i);
    } else {
      HomesMove(s.procs, s'.procs, s.cur);
    }
  }

  lemma ForkMoves(s: Snapshot, s': Snapshot, i: nat)
    requires Fit(s) && Fit(s') && IsFork(s, s', i) && Live(s.procs[s.cur])
    ensures Homes(s'.procs) == Homes(s.procs) + 1
  {
    hide Homes, O.Shape, R.PerSlot;
    HomesMove(s.procs, s'.procs, i);
  }

  /** The pages a clone takes. */
  lemma ClonePages(s: Snapshot, flags: nat, ready: bool, s': Snapshot)
    requires Sound(s) && !s.halted && Stepped(s, Clone(flags, ready), s')
    ensures s.nextPid <= s'.nextPid <= s.nextPid + 1
    ensures CountFree(s'.used) ==
            CountFree(s.used) - (RUN + 3) * (s'.nextPid - s.nextPid) - Lost(s, Clone(flags, ready))
  {
    hide CountFree, ChildBacking, ProcsOk, O.Shape, R.PerSlot, O.Counted, R.Conserved, FdsOk, D.Inherits, UserReserved;
    BackingCosts(s.base, s.used, ready);
  }

  lemma PidsKept(s: Snapshot, c: Call, s': Snapshot)
    requires Fit(s) && Stepped(s, c, s') && !c.Clone?
    ensures s'.nextPid == s.nextPid
  {
    hide FdOutcome, Pick, Bury, BuryDelivers, D.Emptied, O.Shape, R.PerSlot, Wait, WaitDecision;
  }

  /** The law of one step: a child costs three pages that never come back, a leak what was left, and nothing else
      costs anything. */
  lemma StepCosts(s: Snapshot, c: Call, s': Snapshot)
    requires Sound(s) && Stepped(s, c, s')
    ensures Worth(s') == Worth(s) - 3 * (s'.nextPid - s.nextPid) - Lost(s, c)
    ensures s'.nextPid >= s.nextPid
  {
    hide Stepped, CountFree, Homes, ProcsOk, O.Shape, R.PerSlot, O.Counted, R.Conserved, BackingOk, FdsOk, Leaves;
    StepFits(s, c, s');
    if s.halted {
      assert Lost(s, c) == 0;
    } else if c.Clone? {
      ClonePages(s, c.cflags, c.mmuReady, s');
      ForkCosts(s, c.cflags, c.mmuReady, s');
    } else {
      PidsKept(s, c, s');
      StepLeaves(s, c, s');
      if NobodyMoves(s, s') {
        HomesMove(s.procs, s'.procs, MAX_PROCS);
      } else {
        var z :| Leaves(s, s', z);
        LeavingCosts(s, s', z);
      }
    }
  }

  lemma StepFits(s: Snapshot, c: Call, s': Snapshot)
    requires Stepped(s, c, s')
    ensures Fit(s') && (s.halted ==> s' == s)
  {
  }

  /** The law of all runs: between two moments the pages that are free or stand behind a process go down by three for
      every child made - exactly when no clone in between leaks, and by more when one does.  So a child that is made,
      dies and is collected costs its three table pages and nothing else. */
  lemma {:induction false} RunCosts(calls: seq<Call>, trace: seq<Snapshot>, i: nat, j: nat)
    requires IsRun(calls, trace) && i <= j < |trace|
    ensures Worth(trace[j]) <= Worth(trace[i]) - 3 * (trace[j].nextPid - trace[i].nextPid)
    ensures Worth(trace[j]) == Worth(trace[i]) - 3 * (trace[j].nextPid - trace[i].nextPid) <==>
              forall k :: i <= k < j ==> !Leaks(trace[k], calls[k])
    decreases j
  {
    hide Sound, Stepped, Worth, Leaks;
    RunFits(calls, trace);
    if i < j {
      RunCosts(calls, trace, i, j - 1);
      StepCosts(trace[j - 1], calls[j - 1], trace[j]);
      LostMeans(trace[j - 1], calls[j - 1]);
    }
  }

  lemma LostMeans(s: Snapshot, c: Call)
    requires Fit(s)
    ensures Lost(s, c) == 0 <==> !Leaks(s, c)
  {
  }
}
