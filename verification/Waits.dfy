/**
 A wait4 and the death of the child it is for, in either order and with any calls by others in between: the
 parent gets the same child with the same status word.
 */
module Waits {
  import opened Limits
  import D = Descriptors
  import O = Ownership
  import R = PipeRings
  import opened Processes
  import opened Backing
  import opened Runs
  import opened SystemCalls

  /** The slot whose process this call ends, or -1. */
  function Victim(s: Snapshot, c: Call): (v: int)
    requires Fit(s)
    ensures v == -1 || 0 <= v < MAX_PROCS
  {
    if s.halted then -1 else
    match c
    case Exit(_, _) => if s.cur == 0 then -1 else s.cur
    case Kill(pid, sig, _) =>
      var i := if pid > 0 && sig in {9, 15} then SlotOfPid(s.procs, pid) else -1;
      if i < 0 || s.procs[i].state == Zombie || i == s.cur == 0 then -1 else i
    case _ => -1
  }

  /** The exit code of the process that the call ends. */
  function EndCode(c: Call): nat {
    match c
    case Exit(code, _) => code
    case Kill(_, sig, _) => 128 + sig
    case _ => 0
  }

  function TurnOf(c: Call): Turn {
    match c
    case Exit(_, turn) => turn
    case Kill(_, _, turn) => turn
    case _ => To(-1)
  }

  /** The call ends the running process, and the processor goes to slot p. */
  predicate GivesWay(s: Snapshot, c: Call, p: nat)
    requires Fit(s)
  {
    Victim(s, c) == s.cur && Pick(Bury(s.procs, s.cur, EndCode(c)), TurnOf(c).next) == p
  }

  /** The call is a wait4 by the parent of slot z. */
  predicate ParentAsks(s: Snapshot, c: Call, z: nat)
    requires Fit(s) && z < MAX_PROCS
  {
    !s.halted && c.Wait4? && s.procs[s.cur].pid == s.procs[z].ppid
  }

  /** The call ends the process in slot w, or a child that its wait4 is for. */
  predicate EndsWait(s: Snapshot, c: Call, w: nat)
    requires Fit(s) && w < MAX_PROCS
  {
    var v := Victim(s, c);
    v >= 0 && (v == w || Matches(s.procs[v], s.procs[w].pid, s.procs[w].waitTarget))
  }

  /** Blocked in wait4, or a zombie that does not run: nothing it does itself can change its record. */
  predicate Still(s: Snapshot, x: nat)
    requires Fit(s)
  {
    x < MAX_PROCS && s.procs[x].state in {Waiting, Zombie} && (s.halted || x != s.cur)
  }

  /** A death changes the record of nobody but the dead and a parent that waits for it. */
  lemma BuryFrame(procs: seq<Proc>, idx: nat, code: nat, x: nat)
    requires idx < |procs| && x < |procs| && x != idx
    ensures var r := Bury(procs, idx, code);
            && r[x].pid == procs[x].pid && r[x].ppid == procs[x].ppid && Live(r[x]) == Live(procs[x])
            && (r[x] == procs[x] || (r[x].state == Runnable && procs[x].state == Waiting
                                     && Matches(procs[idx], procs[x].pid, procs[x].waitTarget)))
  {
  }

  /** When a call ends a process, those who keep still are as the death leaves them - or as they resume. */
  lemma VictimEnds(s: Snapshot, c: Call, s': Snapshot, v: nat, x: nat)
    requires Sound(s) && Stepped(s, c, s') && Victim(s, c) == v && Still(s, x) && x != v
    ensures var after := Bury(s.procs, v, EndCode(c))[x];
            && s'.procs[x] == (if GivesWay(s, c, x) then Resumes(after, TurnOf(c)) else after)
            && (GivesWay(s, c, x) ==> Ready(after))
    ensures s'.delivered == s.delivered + BuryDelivers(s.procs, v, EndCode(c))
    ensures Bury(s.procs, v, EndCode(c))[v] == CLEARED ==> s'.procs[v] == CLEARED
  {
    hide Bury, BuryDelivers, Pick, D.Emptied, O.Counted, R.Conserved, BackingOk, FdsOk, ProcsOk;
    BuryFrame(s.procs, v, EndCode(c), x);
  }

  /** The live process in slot x keeps its pid and its parent - and its record, if it keeps still. */
  predicate Kept(s: Snapshot, s': Snapshot, x: nat)
    requires Fit(s) && Fit(s') && x < MAX_PROCS
  {
    && (Still(s, x) ==> s'.procs[x] == s.procs[x])
    && Live(s'.procs[x]) && s'.procs[x].pid == s.procs[x].pid && s'.procs[x].ppid == s.procs[x].ppid
  }

  /** wait4 takes away nobody but a zombie child, and changes nobody else's record but the caller's. */
  lemma WaitFrame(procs: seq<Proc>, nextPid: nat, cur: nat, req: int, status: nat, nohang: bool, x: nat)
    requires PidsOk(procs, nextPid) && cur < MAX_PROCS && x < MAX_PROCS && Running(procs[cur]) && Live(procs[x])
    requires !(procs[x].state == Zombie && procs[x].ppid == procs[cur].pid)
    ensures var r := Wait(procs, cur, req, status, nohang);
            && (x != cur ==> r[x] == procs[x])
            && Live(r[x]) && r[x].pid == procs[x].pid && r[x].ppid == procs[x].ppid
  {
    hide ZombieFor, AnyChild;
  }

  lemma WaitKeeps(s: Snapshot, req: int, status: nat, options: nat, turn: Turn, s': Snapshot, x: nat)
    requires Fit(s) && Fit(s') && PidsOk(s.procs, s.nextPid) && Running(s.procs[s.cur]) && !s.halted
    requires Waited(s, req, status, options, turn, s') && x < MAX_PROCS && Live(s.procs[x])
    requires !(s.procs[x].state == Zombie && s.procs[x].ppid == s.procs[s.cur].pid)
    ensures Kept(s, s', x)
  {
    hide Pick, PidsOk, O.Shape, D.Emptied, WaitDecision;
    WaitFrame(s.procs, s.nextPid, s.cur, req, status, options % 2 == WNOHANG, x);
  }

  lemma AnswerKeeps(s: Snapshot, s': Snapshot, x: nat)
    requires Fit(s) && Fit(s') && x < MAX_PROCS && Live(s.procs[x])
    requires s'.procs == s.procs || (!s.halted && s'.procs == Answered(s, s'.procs[s.cur].x0).procs)
    ensures Kept(s, s', x)
  {
    hide O.Shape, R.PerSlot;
  }

  lemma NobodyEnds(s: Snapshot, c: Call, s': Snapshot, x: nat)
    requires Fit(s) && Stepped(s, c, s') && Victim(s, c) == -1 && (c.Exit? || c.Kill?)
    requires x < MAX_PROCS && Live(s.procs[x])
    ensures Kept(s, s', x)
  {
    hide Ended, Pick, Bury, O.Shape, R.PerSlot, Kept;
    AnswerKeeps(s, s', x);
  }

  lemma SleepKeeps(s: Snapshot, park: Park, turn: Turn, x: nat)
    requires Fit(s) && x < MAX_PROCS && Live(s.procs[x]) && !s.halted
    ensures Fit(Slept(s, park, turn)) && Kept(s, Slept(s, park, turn), x)
  {
    hide Pick, O.Shape, R.PerSlot;
  }

  lemma ResumedKeeps(s: Snapshot, s': Snapshot, p: int, turn: Turn, x: nat)
    requires Fit(s) && Fit(s') && x < MAX_PROCS && Live(s.procs[x]) && s'.procs == Resumed(s.procs, p, turn)
    requires 0 <= p < MAX_PROCS ==> Ready(s.procs[p])
    ensures Kept(s, s', x)
  {
    hide O.Shape, R.PerSlot;
  }

  lemma WakeKeeps(s: Snapshot, i: nat, x: nat)
    requires Fit(s) && x < MAX_PROCS && Live(s.procs[x])
    ensures Fit(Roused(s, i)) && Kept(s, Roused(s, i), x)
  {
    hide O.Shape, R.PerSlot;
  }

  lemma ParkingKeeps(s: Snapshot, c: Call, s': Snapshot, x: nat)
    requires Fit(s) && Stepped(s, c, s') && (c.Sleep? || c.Wake? || c.Yield?)
    requires x < MAX_PROCS && Live(s.procs[x]) && !s.halted
    ensures Kept(s, s', x)
  {
    hide Pick, O.Shape, R.PerSlot, Kept, Slept, Resumed, Roused;
    match c {
      case Sleep(park, turn) => SleepKeeps(s, park, turn, x);
      case Yield(turn) =>
        WakeKeeps(s, s.cur, x);
        if Pick(s.procs, turn.next) != s.cur { ResumedKeeps(s, s', Pick(s.procs, turn.next), turn, x); }
      case Wake(i) => WakeKeeps(s, i, x);
    }
  }

  lemma CloneKeeps(s: Snapshot, flags: nat, mmuReady: bool, s': Snapshot, x: nat)
    requires Fit(s) && Fit(s') && !s.halted && Live(s.procs[s.cur]) && Cloned(s, flags, mmuReady, s')
    requires x < MAX_PROCS && Live(s.procs[x])
    ensures Kept(s, s', x)
  {
    hide ChildBacking, D.Inherits, O.Shape, R.PerSlot;
  }

  /** A call that ends nobody changes nobody's pid or parent, and no record of those who keep still - except of a
      zombie that its parent asks for. */
  lemma StepKeeps(s: Snapshot, c: Call, s': Snapshot, x: nat)
    requires Sound(s) && Stepped(s, c, s') && Victim(s, c) == -1 && x < MAX_PROCS && Live(s.procs[x])
    requires !(s.procs[x].state == Zombie && ParentAsks(s, c, x))
    ensures Kept(s, s', x)
  {
    hide FdOutcome, Cloned, Killed, Quit, Waited, Slept, Roused, Yielded, PidsOk, O.Shape, O.Counted,
         R.Conserved, BackingOk, FdsOk, NoLostWakeup, HistoryOk, Kept, Victim;
    if s.halted || c.IsFdCall() {
      AnswerKeeps(s, s', x);
    } else {
      match c {
        case Exit(_, _) => NobodyEnds(s, c, s', x);
        case Kill(_, _, _) => NobodyEnds(s, c, s', x);
        case Wait4(req, status, options, turn) => WaitKeeps(s, req, status, options, turn, s', x);
        case Clone(flags, ready) => CloneKeeps(s, flags, ready, s', x);
        case Sleep(_, _) => ParkingKeeps(s, c, s', x);
        case Wake(_) => ParkingKeeps(s, c, s', x);
        case Yield(_) => ParkingKeeps(s, c, s', x);
        case _ => AnswerKeeps(s, s', x);
      }
    }
  }

  lemma QuitSpares(s: Snapshot, code: nat, turn: Turn, s': Snapshot, halts: bool, x: nat)
    requires Fit(s) && Fit(s') && Quit(s, code, turn, s', halts) && s.cur != 0
    requires x < MAX_PROCS && x != s.cur && Live(s.procs[x])
    ensures Live(s'.procs[x]) && s'.procs[x].pid == s.procs[x].pid && s'.procs[x].ppid == s.procs[x].ppid
  {
    hide Bury, BuryDelivers, Pick, Ended, O.Shape, R.PerSlot;
    BuryFrame(s.procs, s.cur, code, x);
  }

  /** A call that ends somebody else changes nobody's pid or parent. */
  lemma VictimSpares(s: Snapshot, c: Call, s': Snapshot, v: nat, x: nat)
    requires Sound(s) && Stepped(s, c, s') && Victim(s, c) == v && x < MAX_PROCS && x != v && Live(s.procs[x])
    ensures Live(s'.procs[x]) && s'.procs[x].pid == s.procs[x].pid && s'.procs[x].ppid == s.procs[x].ppid
  {
    hide Bury, BuryDelivers, Quit, D.Emptied, O.Shape, O.Counted, R.Conserved, BackingOk, FdsOk, ProcsOk;
    if v == s.cur {
      QuitSpares(s, EndCode(c), TurnOf(c), s', c.Exit?, x);
    } else {
      BuryFrame(s.procs, v, EndCode(c), x);
    }
  }

  /** One step of a blocked parent w and a child it waits for, while neither parent nor any such child ends. */
  lemma WaiterStep(s: Snapshot, c: Call, s': Snapshot, w: nat, x: nat)
    requires Sound(s) && Stepped(s, c, s') && w < MAX_PROCS && x < MAX_PROCS && s.procs[w].state == Waiting
    requires Live(s.procs[x]) && Matches(s.procs[x], s.procs[w].pid, s.procs[w].waitTarget)
    requires !EndsWait(s, c, w)
    ensures s'.procs[w] == s.procs[w]
    ensures Live(s'.procs[x]) && s'.procs[x].pid == s.procs[x].pid && s'.procs[x].ppid == s.procs[x].ppid
  {
    hide Stepped, O.Shape, O.Counted, R.Conserved, BackingOk, FdsOk, PidsOk, HistoryOk, Victim, Bury, BuryDelivers,
         GivesWay;
    var v := Victim(s, c);
    if v < 0 {
      StepKeeps(s, c, s', w);
      StepKeeps(s, c, s', x);
    } else {
      VictimEnds(s, c, s', v, w);
      BuryFrame(s.procs, v, EndCode(c), w);
      VictimSpares(s, c, s', v, x);
    }
  }

  lemma {:induction false} StillWaiting(calls: seq<Call>, trace: seq<Snapshot>, i: nat, j: nat, w: nat, x: nat)
    requires IsRun(calls, trace) && i <= j < |trace| && w < MAX_PROCS && x < MAX_PROCS
    requires trace[i].procs[w].state == Waiting && Live(trace[i].procs[x])
    requires Matches(trace[i].procs[x], trace[i].procs[w].pid, trace[i].procs[w].waitTarget)
    requires forall k :: i <= k < j ==> !EndsWait(trace[k], calls[k], w)
    ensures trace[j].procs[w] == trace[i].procs[w] && Live(trace[j].procs[x])
    ensures trace[j].procs[x].pid == trace[i].procs[x].pid && trace[j].procs[x].ppid == trace[i].procs[x].ppid
    decreases j
  {
    hide Stepped, EndsWait, Sound;
    RunFits(calls, trace);
    if i < j {
      StillWaiting(calls, trace, i, j - 1, w, x);
      WaiterStep(trace[j - 1], calls[j - 1], trace[j], w, x);
    }
  }

  /** From s, where slot p's process asks, to s': it has the status word where it asked for it, its child's slot is
      free, the delivery is recorded, and nothing else of its record differs but its result, that it can run, and
      perhaps that a call it left behind is completed. */
  ghost predicate Collected(s: Snapshot, s': Snapshot, p: nat, z: nat, child: nat, status: nat, code: nat)
    requires Fit(s) && Fit(s') && p < MAX_PROCS && z < MAX_PROCS
  {
    var me := s'.procs[p];
    && me == Stored(s.procs[p], status, Status(code)).(state := me.state, x0 := me.x0, pending := me.pending)
    && s'.procs[z] == CLEARED
    && |s'.delivered| > 0 && s'.delivered[|s'.delivered| - 1] == Delivery(s.procs[p].pid, child, Status(code))
  }

  lemma ParkedRecord(s: Snapshot, req: int, status: nat, options: nat, turn: Turn, s': Snapshot)
    requires Fit(s) && Fit(s') && Running(s.procs[s.cur]) && Waited(s, req, status, options, turn, s')
    requires s'.procs[s.cur].state == Waiting
    ensures s'.procs[s.cur] == s.procs[s.cur].(state := Waiting, waitTarget := req, waitStatus := status)
  {
    hide Pick, WaitDecision, D.Emptied, O.Shape, R.PerSlot;
  }

  lemma BlockedRecord(s: Snapshot, c: Call, s': Snapshot)
    requires Sound(s) && Stepped(s, c, s') && !s.halted && c.Wait4? && s'.procs[s.cur].state == Waiting
    ensures s'.procs[s.cur] == s.procs[s.cur].(state := Waiting, waitTarget := c.req, waitStatus := c.status)
  {
    hide Waited, O.Shape, O.Counted, R.Conserved, BackingOk, FdsOk, ProcsOk;
    ParkedRecord(s, c.req, c.status, c.options, c.turn, s');
  }

  /** The parent came first: the death it waits for completes its wait4. */
  lemma DeathCompletes(s: Snapshot, c: Call, s': Snapshot, w: nat, x: nat)
    requires Sound(s) && Stepped(s, c, s') && w < MAX_PROCS && s.procs[w].state == Waiting && Victim(s, c) == x
    requires Matches(s.procs[x], s.procs[w].pid, s.procs[w].waitTarget)
    ensures var woken := Woken(s.procs[w], s.procs[x].(exitCode := EndCode(c)));
            s'.procs[w] == (if GivesWay(s, c, w) then Resumes(woken, TurnOf(c)) else woken) && s'.procs[x] == CLEARED
    ensures s'.delivered == s.delivered + [Delivery(s.procs[w].pid, s.procs[x].pid, Status(EndCode(c)))]
  {
    hide Stepped, O.Shape, O.Counted, R.Conserved, BackingOk, FdsOk, HistoryOk, GivesWay;
    var q := s.procs[x := s.procs[x].(state := Zombie, exitCode := EndCode(c))];
    assert q[w] == s.procs[w] && WaiterFor(q, s.procs[x].ppid) == w;
    VictimEnds(s, c, s', x, w);
  }

  /** A parent that waits first: whatever everybody else does in between, the death of a child it waits for hands it
      that child.  Its result is the child's pid - unless it had left a call that waits for input behind, and the
      processor goes to it: then the result is that call's. */
  lemma EarlyWait(calls: seq<Call>, trace: seq<Snapshot>, i: nat, j: nat, x: nat)
    requires IsRun(calls, trace) && i < j < |calls| && x < MAX_PROCS
    requires !trace[i].halted && calls[i].Wait4? && trace[i + 1].procs[trace[i].cur].state == Waiting
    requires Live(trace[i + 1].procs[x])
    requires Matches(trace[i + 1].procs[x], trace[i].procs[trace[i].cur].pid, calls[i].req)
    requires forall k :: i < k < j ==> !EndsWait(trace[k], calls[k], trace[i].cur)
    requires Victim(trace[j], calls[j]) == x
    ensures Collected(trace[i], trace[j + 1], trace[i].cur, x, trace[i + 1].procs[x].pid, calls[i].status,
                      EndCode(calls[j]))
    ensures var p := trace[i].cur;
            var overwritten := trace[i].procs[p].pending && GivesWay(trace[j], calls[j], p);
            trace[j + 1].procs[p].x0 == if overwritten then TurnOf(calls[j]).result else trace[i + 1].procs[x].pid
  {
    hide Stepped, EndsWait, Victim, GivesWay, O.Shape, O.Counted, R.Conserved, BackingOk, FdsOk, ProcsOk;
    assert Sound(trace[i]) && Sound(trace[j]) && Stepped(trace[i], calls[i], trace[i + 1]);
    assert Stepped(trace[j], calls[j], trace[j + 1]);
    BlockedRecord(trace[i], calls[i], trace[i + 1]);
    StillWaiting(calls, trace, i + 1, j, trace[i].cur, x);
    DeathCompletes(trace[j], calls[j], trace[j + 1], trace[i].cur, x);
  }

  /** A zombie that does not run stays the same zombie until its parent asks. */
  lemma ZombieStep(s: Snapshot, c: Call, s': Snapshot, z: nat)
    requires Sound(s) && Stepped(s, c, s') && z < MAX_PROCS && s.procs[z].state == Zombie && (s.halted || z != s.cur)
    requires !ParentAsks(s, c, z)
    ensures s'.procs[z] == s.procs[z]
  {
    hide Stepped, O.Shape, O.Counted, R.Conserved, BackingOk, FdsOk, PidsOk, HistoryOk, Bury, BuryDelivers, GivesWay;
    var v := Victim(s, c);
    if v < 0 {
      StepKeeps(s, c, s', z);
    } else {
      VictimEnds(s, c, s', v, z);
      BuryFrame(s.procs, v, EndCode(c), z);
    }
  }

  lemma {:induction false} StillZombie(calls: seq<Call>, trace: seq<Snapshot>, i: nat, j: nat, z: nat)
    requires IsRun(calls, trace) && i <= j < |trace| && z < MAX_PROCS
    requires forall k :: 0 <= k < |trace| ==> Orderly(trace[k])
    requires trace[i].procs[z].state == Zombie
    requires forall k :: i <= k < j ==> !ParentAsks(trace[k], calls[k], z)
    ensures trace[j].procs[z] == trace[i].procs[z]
    decreases j
  {
    hide Stepped, ParentAsks, Sound, Rested;
    RunFits(calls, trace);
    if i < j {
      StillZombie(calls, trace, i, j - 1, z);
      assert Orderly(trace[j - 1]);
      ZombieStep(trace[j - 1], calls[j - 1], trace[j], z);
    }
  }

  lemma DeadRecord(s: Snapshot, c: Call, s': Snapshot, v: nat)
    requires Sound(s) && Stepped(s, c, s') && Victim(s, c) == v && s'.procs[v].state == Zombie
    ensures s'.procs[v] == s.procs[v].(state := Zombie, exitCode := EndCode(c), x0 := s'.procs[v].x0)
  {
    hide Pick, D.Emptied, O.Shape, O.Counted, R.PerSlot, R.Conserved, BackingOk, FdsOk, ProcsOk, Bury, AfterReap;
    BuryShape(s.procs, v, EndCode(c));
  }

  lemma AskingCollects(s: Snapshot, c: Call, s': Snapshot, z: nat)
    requires Sound(s) && Stepped(s, c, s') && z < MAX_PROCS && s.procs[z].state == Zombie && ParentAsks(s, c, z)
    requires c.req == s.procs[z].pid && (c.status == 0 || WordOk(c.status))
    ensures Fit(s) && Fit(s') && Collected(s, s', s.cur, z, s.procs[z].pid, c.status, s.procs[z].exitCode)
    ensures s'.cur == s.cur && s'.procs[s.cur].x0 == s.procs[z].pid
  {
    hide Pick, AnyChild, D.Emptied, O.Shape, O.Counted, R.Conserved, BackingOk, FdsOk, NoLostWakeup, HistoryOk;
    assert ZombieFor(s.procs, s.procs[s.cur].pid, c.req) == z;
  }

  /** A parent that comes late, in a run that strands nobody: whatever everybody else does in between, its child is
      there for it with the exit code it died with, and its result is the child's pid. */
  lemma LateWait(calls: seq<Call>, trace: seq<Snapshot>, i: nat, j: nat, z: nat)
    requires IsRun(calls, trace) && i < j < |calls| && z < MAX_PROCS
    requires Orderly(trace[0]) && forall k :: 0 <= k < |calls| ==> !Strands(trace[k], calls[k])
    requires Victim(trace[i], calls[i]) == z && trace[i + 1].procs[z].state == Zombie
    requires forall k :: i < k < j ==> !ParentAsks(trace[k], calls[k], z)
    requires ParentAsks(trace[j], calls[j], z) && calls[j].req == trace[i].procs[z].pid
    requires calls[j].status == 0 || WordOk(calls[j].status)
    ensures Collected(trace[j], trace[j + 1], trace[j].cur, z, trace[i].procs[z].pid, calls[j].status,
                      EndCode(calls[i]))
    ensures trace[j + 1].procs[trace[j].cur].x0 == trace[i].procs[z].pid
  {
    hide Stepped, Strands, Sound, Victim, ParentAsks, Orderly, Collected;
    RunOrderly(calls, trace, |calls|);
    assert Stepped(trace[i], calls[i], trace[i + 1]) && Stepped(trace[j], calls[j], trace[j + 1]);
    DeadRecord(trace[i], calls[i], trace[i + 1], z);
    StillZombie(calls, trace, i + 1, j, z);
    AskingCollects(trace[j], calls[j], trace[j + 1], z);
  }

  // ----- a run in which the parent misses its result

  /** The first process makes a child and waits for input that is gone when it resumes; it then waits for the child,
      and when the child exits, the input has come. */
  function OverwritingCalls(): seq<Call> {
    [Clone(0, true), Sleep(Await(false), To(1)), Yield(Turn(0, 0, true, false)), Wait4(2, 0, 0, To(1)),
     Exit(7, Turn(0, 99, false, false))]
  }

  /** Slots 0 and 1 are pid 1 and its child pid 2, the only others. */
  predicate Pair(s: Snapshot, cur: nat, first: State, pending: bool) {
    && Fit(s) && s.cur == cur && !s.halted
    && (forall i :: 2 <= i < MAX_PROCS ==> s.procs[i] == CLEARED)
    && s.procs[0].pid == 1 && s.procs[0].ppid == 0 && s.procs[1].pid == 2 && s.procs[1].ppid == 1
    && s.procs[0].state == first && s.procs[0].pending == pending
    && s.procs[1].state == Runnable && !s.procs[1].pending
  }

  lemma PairMade(base: nat, used: seq<bool>, s1: Snapshot)
    requires ChildBacking(base, used, true).0 != 0 && Stepped(Booted(base, used), Clone(0, true), s1)
    ensures Pair(s1, 0, Runnable, false)
  {
    hide D.NoTables, D.WithConsole, D.Inherits, ChildBacking;
    var s := Booted(base, used);
    assert FreeSlot(s.procs) == 1 by { assert Live(s.procs[0]) && !Live(s.procs[1]); }
  }

  lemma PairParks(s1: Snapshot, s2: Snapshot, s3: Snapshot)
    requires Pair(s1, 0, Runnable, false) && Stepped(s1, Sleep(Await(false), To(1)), s2)
    requires Stepped(s2, Yield(Turn(0, 0, true, false)), s3)
    ensures Pair(s2, 1, BlockedIo, true) && Pair(s3, 0, BlockedIo, true)
  {
    hide O.Shape, R.PerSlot;
    assert Ready(s1.procs[1]) && Ready(s2.procs[0]);
  }

  lemma PairWaits(s3: Snapshot, s4: Snapshot)
    requires Pair(s3, 0, BlockedIo, true) && Stepped(s3, Wait4(2, 0, 0, To(1)), s4)
    ensures Pair(s4, 1, Waiting, true) && s4.procs[0].waitTarget == 2
  {
    hide O.Shape, R.PerSlot, D.Emptied;
    assert ZombieFor(s3.procs, 1, 2) == -1;
    assert AnyChild(s3.procs, 1) by { assert Live(s3.procs[1]) && s3.procs[1].ppid == 1; }
    assert Ready(Parked(s3.procs, 0, 2, 0)[1]);
  }

  lemma PairEnds(s4: Snapshot, s5: Snapshot)
    requires Sound(s4) && Pair(s4, 1, Waiting, true) && s4.procs[0].waitTarget == 2
    requires Stepped(s4, Exit(7, Turn(0, 99, false, false)), s5)
    ensures s4.procs[0].state == Waiting && s4.procs[0].pending
    ensures s5.procs[0].x0 == 99 && s5.procs[1] == CLEARED
    ensures |s5.delivered| > 0 && s5.delivered[|s5.delivered| - 1] == Delivery(1, 2, Status(7))
  {
    hide Sound, Stepped, O.Shape, R.PerSlot;
    var c := Exit(7, Turn(0, 99, false, false));
    var q := s4.procs[1 := s4.procs[1].(state := Zombie, exitCode := 7)];
    assert q[0] == s4.procs[0] && WaiterFor(q, 1) == 0;
    assert Ready(Bury(s4.procs, 1, 7)[0]);
    DeathCompletes(s4, c, s5, 0, 1);
  }

  /** The child is delivered and gone, but the parent's result is 99, what its old call returns, and not 2. */
  lemma OverwritingRun(trace: seq<Snapshot>, base: nat, used: seq<bool>)
    requires IsRun(OverwritingCalls(), trace) && trace[0] == Booted(base, used) && ChildBacking(base, used, true).0 != 0
    ensures trace[4].procs[0].state == Waiting && trace[4].procs[0].pending
    ensures trace[5].procs[0].x0 == 99 && trace[5].procs[1] == CLEARED
    ensures |trace[5].delivered| > 0 && trace[5].delivered[|trace[5].delivered| - 1] == Delivery(1, 2, Status(7))
  {
    hide Sound, Stepped, Booted, ChildBacking, Pair;
    var calls := OverwritingCalls();
    assert calls[0] == Clone(0, true) && calls[1] == Sleep(Await(false), To(1));
    assert calls[2] == Yield(Turn(0, 0, true, false)) && calls[3] == Wait4(2, 0, 0, To(1));
    assert calls[4] == Exit(7, Turn(0, 99, false, false));
    assert Stepped(trace[0], calls[0], trace[1]) && Stepped(trace[1], calls[1], trace[2]);
    assert Stepped(trace[2], calls[2], trace[3]) && Stepped(trace[3], calls[3], trace[4]);
    assert Stepped(trace[4], calls[4], trace[5]) && Sound(trace[4]);
    PairMade(base, used, trace[1]);
    PairParks(trace[1], trace[2], trace[3]);
    PairWaits(trace[3], trace[4]);
    PairEnds(trace[4], trace[5]);
  }
}
