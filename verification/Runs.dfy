/**
 What holds over whole runs of the machine, on lists of snapshots: histories only grow, pipes are queues, a
 child is handed over at most once - and when exactly the dead stay dead.
 */
module Runs {
  import opened Bytes
  import opened Errno
  import opened Limits
  import D = Descriptors
  import O = Ownership
  import R = PipeRings
  import opened Processes
  import opened Backing
  import opened SystemCalls

  /** A run, state by state: one sound snapshot before and after every call. */
  ghost predicate IsRun(calls: seq<Call>, trace: seq<Snapshot>) {
    && |trace| == |calls| + 1
    && (forall i :: 0 <= i < |trace| ==> Sound(trace[i]))
    && (forall i :: 0 <= i < |calls| ==> Stepped(trace[i], calls[i], trace[i + 1]))
  }

  // ----- histories

  /** Histories only grow: no death is forgotten, deliveries are added at the end, and while a pipe lives its bytes
      accepted and returned are only added to. */
  ghost predicate Grown(s: Snapshot, s': Snapshot) {
    && R.PerSlot(s.streams) && R.PerSlot(s'.streams)
    && s.nextPid <= s'.nextPid
    && s.deaths.Keys <= s'.deaths.Keys
    && s.delivered <= s'.delivered
    && R.Extends(s.streams, s'.streams)
  }

  lemma GrownTransitive(s: Snapshot, s1: Snapshot, s2: Snapshot)
    requires Grown(s, s1) && Grown(s1, s2)
    ensures Grown(s, s2)
  {
    R.ExtendsTransitive(s.streams, s1.streams, s2.streams);
  }

  lemma GrownReflexive(s: Snapshot)
    requires Sound(s)
    ensures Grown(s, s)
  {
  }

  lemma FdExtends(t: O.Tables, t': O.Tables, s: R.Streams, s': R.Streams, p: nat, c: Call, r: int)
    requires O.Shape(t) && O.Shape(t') && R.PerSlot(s) && p < MAX_PROCS && c.IsFdCall()
    requires FdOutcome(t, t', s, s', p, c, r)
    ensures R.PerSlot(s') && R.Extends(s, s')
  {
    match c {
      case Read(fd, len, ok, other) =>
        var data :| D.ReadFdOutcome(t, t', s, s', p, fd, len, ok, other, r, data);
        D.ReadExtends(t, t', s, s', p, fd, len, ok, other, r, data);
      case Write(fd, src, isNull, other) =>
        D.WriteExtends(t, t', s, s', p, fd, src, isNull, other, r);
      case _ =>
    }
  }

  lemma EndedGrows(s: Snapshot, idx: nat, code: nat, s': Snapshot)
    requires Fit(s) && Fit(s') && idx < MAX_PROCS && Ended(s, idx, code, s')
    ensures Grown(s, s')
  {
    hide Bury, BuryDelivers, O.Shape;
  }

  lemma QuitGrows(s: Snapshot, code: nat, turn: Turn, s': Snapshot, halts: bool)
    requires Fit(s) && Fit(s') && Quit(s, code, turn, s', halts)
    ensures Grown(s, s')
  {
    hide Ended, Pick, Resumed, Bury, O.Shape;
    if s.cur != 0 {
      EndedGrows(s, s.cur, code, s'.(procs := Bury(s.procs, s.cur, code), cur := s.cur, halted := false));
    }
  }

  lemma KillGrows(s: Snapshot, pid: int, sig: nat, turn: Turn, s': Snapshot)
    requires Fit(s) && Fit(s') && Killed(s, pid, sig, turn, s')
    ensures Grown(s, s')
  {
    hide Ended, Quit, Bury, SlotOfPid, O.Shape;
    if pid > 0 && sig in {9, 15} {
      var i := SlotOfPid(s.procs, pid);
      if i >= 0 && s.procs[i].state != Zombie {
        if i == s.cur {
          QuitGrows(s, 128 + sig, turn, s', false);
        } else {
          EndedGrows(s, i, 128 + sig, s'.(procs := Bury(s.procs, i, 128 + sig)));
        }
      }
    }
  }

  lemma WaitGrows(s: Snapshot, req: int, status: nat, options: nat, turn: Turn, s': Snapshot)
    requires Fit(s) && Fit(s') && Waited(s, req, status, options, turn, s')
    ensures Grown(s, s')
  {
    hide Wait, WaitDelivers, O.Shape, Pick, D.Emptied;
  }

  /** Every step only adds to the histories. */
  lemma StepGrows(s: Snapshot, c: Call, s': Snapshot)
    requires Stepped(s, c, s')
    ensures Grown(s, s')
  {
    hide FdOutcome, Waited, Quit, Killed, ChildBacking, D.Inherits, Spawn, O.Shape, Pick, Resumed, FreeSlot,
         D.OthersKeep;
    if s.halted {
    } else if c.IsFdCall() {
      FdExtends(s.tables, s'.tables, s.streams, s'.streams, s.cur, c, s'.procs[s.cur].x0);
    } else {
      match c {
        case Exit(code, turn) => QuitGrows(s, code, turn, s', true);
        case Kill(pid, sig, turn) => KillGrows(s, pid, sig, turn, s');
        case Wait4(req, status, options, turn) => WaitGrows(s, req, status, options, turn, s');
        case _ =>
      }
    }
  }

  lemma {:induction false} RunGrows(calls: seq<Call>, trace: seq<Snapshot>, i: nat, j: nat)
    requires IsRun(calls, trace) && i <= j < |trace|
    ensures Grown(trace[i], trace[j])
    decreases j
  {
    hide Sound, Stepped, Grown;
    if i == j {
      GrownReflexive(trace[i]);
    } else {
      RunGrows(calls, trace, i, j - 1);
      StepGrows(trace[j - 1], calls[j - 1], trace[j]);
      GrownTransitive(trace[i], trace[j - 1], trace[j]);
    }
  }

  /** A pipe is a queue over every stretch of every run in which its slot is not created anew: the bytes
      that waited at its start, and then the bytes accepted since, are the bytes returned since, and then
      the bytes that wait at its end. */
  lemma PipeIsQueue(calls: seq<Call>, trace: seq<Snapshot>, i: nat, j: nat, id: nat)
    requires IsRun(calls, trace) && i <= j < |trace| && id < O.MAX_PIPES
    requires trace[i].tables.pipes[id].used && trace[j].tables.pipes[id].used
    requires trace[i].streams.born[id] == trace[j].streams.born[id]
    ensures var s, s' := trace[i].streams, trace[j].streams;
            && s.accepted[id] <= s'.accepted[id] && s.returned[id] <= s'.returned[id]
            && R.Waiting(trace[i].tables.pipes[id]) + s'.accepted[id][|s.accepted[id]|..]
               == s'.returned[id][|s.returned[id]|..] + R.Waiting(trace[j].tables.pipes[id])
  {
    hide Stepped, ProcsOk, O.Counted, BackingOk, FdsOk, R.Waiting;
    RunGrows(calls, trace, i, j);
    var s, s', p, p' := trace[i].streams, trace[j].streams, trace[i].tables.pipes[id], trace[j].tables.pipes[id];
    assert Sound(trace[i]) && Sound(trace[j]);
    R.QueueBetween(s.accepted[id], s.returned[id], R.Waiting(p), s'.accepted[id], s'.returned[id], R.Waiting(p'));
  }

  /** A child once handed over is gone for good at every later moment of every run, and nothing after is a second
      delivery of it. */
  lemma HandedOnce(calls: seq<Call>, trace: seq<Snapshot>, i: nat, j: nat, k: nat)
    requires IsRun(calls, trace) && i <= j < |trace| && k < |trace[i].delivered|
    ensures var child := trace[i].delivered[k].child;
            && k < |trace[j].delivered| && trace[j].delivered[k] == trace[i].delivered[k]
            && (forall p :: 0 <= p < MAX_PROCS && Live(trace[j].procs[p]) ==> trace[j].procs[p].pid != child)
            && (forall l :: 0 <= l < |trace[j].delivered| && l != k ==> trace[j].delivered[l].child != child)
  {
    hide Stepped, O.Counted, BackingOk, FdsOk, R.Conserved, NoLostWakeup;
    RunGrows(calls, trace, i, j);
    assert Sound(trace[i]) && Sound(trace[j]);
  }

  // ----- when the dead stay dead

  /** No process that ended has come back, and none holds an fd. */
  ghost predicate Rested(s: Snapshot)
    requires Fit(s)
  {
    && (forall i :: 0 <= i < MAX_PROCS && Live(s.procs[i]) && s.procs[i].state != Zombie ==>
          s.procs[i].pid !in s.deaths)
    && (forall i :: 0 <= i < MAX_PROCS && s.procs[i].state == Zombie ==> D.AllClosed(s.tables.owners, i))
  }

  /** ... and the running process is not one that has ended. */
  ghost predicate Orderly(s: Snapshot)
    requires Fit(s)
  {
    Rested(s) && (s.halted || s.procs[s.cur].state != Zombie)
  }

  /** Slot c's parent is blocked in a wait4 that slot c's end would complete. */
  predicate ParentWaits(procs: seq<Proc>, c: nat)
    requires c < |procs|
  {
    exists i :: 0 <= i < |procs| && procs[i].state == Waiting && Matches(procs[c], procs[i].pid, procs[i].waitTarget)
  }

  /** A process other than the first kills itself when nobody else can run or be woken, and its parent does not
      wait for it: there is nobody to switch to. */
  predicate Strands(s: Snapshot, c: Call)
    requires Fit(s)
  {
    && !s.halted && s.cur != 0 && s.procs[s.cur].state != Zombie
    && c.Kill? && c.pid == s.procs[s.cur].pid && c.sig in {9, 15}
    && (forall i :: 0 <= i < MAX_PROCS && i != s.cur ==> !Ready(s.procs[i]))
    && !ParentWaits(s.procs, s.cur)
  }

  /** No recorded exit code is altered. */
  ghost predicate CodesKept(s: Snapshot, s': Snapshot) {
    forall pid :: pid in s.deaths ==> pid in s'.deaths && s'.deaths[pid] == s.deaths[pid]
  }

  /** Whoever has ended by s is in s' nothing but a zombie with the same exit code and no open fd. */
  ghost predicate DeadKept(s: Snapshot, s': Snapshot)
    requires Fit(s')
  {
    && CodesKept(s, s')
    && (forall i :: 0 <= i < MAX_PROCS && Live(s'.procs[i]) && s'.procs[i].pid in s.deaths ==>
          && s'.procs[i].state == Zombie && s'.procs[i].exitCode == s.deaths[s'.procs[i].pid]
          && D.AllClosed(s'.tables.owners, i))
  }

  lemma RestedKeeps(s: Snapshot, s': Snapshot)
    requires Sound(s') && Rested(s') && CodesKept(s, s')
    ensures DeadKept(s, s')
  {
  }

  /** After a self-kill the scheduler finds nobody exactly when nobody else was ready and the parent did not wait. */
  lemma NobodyLeft(procs: seq<Proc>, nextPid: nat, cur: nat, code: nat, next: int)
    requires PidsOk(procs, nextPid) && cur < MAX_PROCS && Running(procs[cur])
    ensures Pick(Bury(procs, cur, code), next) == -1 <==>
              (forall i :: 0 <= i < MAX_PROCS && i != cur ==> !Ready(procs[i])) && !ParentWaits(procs, cur)
    ensures Pick(Bury(procs, cur, code), next) == -1 ==>
              Bury(procs, cur, code)[cur] == procs[cur].(state := Zombie, exitCode := code)
  {
    hide Pick;
    var b := Bury(procs, cur, code);
    var q := procs[cur := procs[cur].(state := Zombie, exitCode := code)];
    var w := WaiterFor(q, procs[cur].ppid);
    if ParentWaits(procs, cur) {
      var i :| 0 <= i < |procs| && procs[i].state == Waiting && Matches(procs[cur], procs[i].pid, procs[i].waitTarget);
      assert q[i] == procs[i] && q[w] == procs[w] && w == i;
      assert b[w].state == Runnable;
    } else {
      assert !Awaited(q, cur) by { assert w >= 0 ==> q[w] == procs[w]; }
      assert b == q;
      assert forall i :: 0 <= i < MAX_PROCS && i != cur ==> b[i] == procs[i];
    }
  }

  lemma OwnSlot(procs: seq<Proc>, nextPid: nat, cur: nat, pid: int)
    requires PidsOk(procs, nextPid) && cur < MAX_PROCS && Live(procs[cur])
    ensures procs[cur].pid > 0 && (pid > 0 ==> (SlotOfPid(procs, pid) == cur <==> procs[cur].pid == pid))
  {
  }

  lemma EndedRests(s: Snapshot, idx: nat, code: nat, s': Snapshot)
    requires Sound(s) && Rested(s) && Fit(s') && idx < MAX_PROCS && Live(s.procs[idx]) && s.procs[idx].state != Zombie
    requires Ended(s, idx, code, s')
    ensures Rested(s') && CodesKept(s, s')
  {
    hide Bury, BuryDelivers, O.Counted, R.Conserved, BackingOk, FdsOk, NoLostWakeup, HistoryOk, D.SurvivorsKeep;
    BuryShape(s.procs, idx, code);
  }

  lemma ResumedRests(s: Snapshot, procs: seq<Proc>, p: int, turn: Turn, cur: nat)
    requires Fit(s) && |procs| == MAX_PROCS && cur < MAX_PROCS && Rested(s.(procs := procs))
    requires 0 <= p < MAX_PROCS ==> Ready(procs[p])
    ensures Rested(s.(procs := Resumed(procs, p, turn), cur := cur))
  {
  }

  lemma QuitRests(s: Snapshot, code: nat, turn: Turn, s': Snapshot, halts: bool)
    requires Sound(s) && Orderly(s) && !s.halted && Fit(s') && Quit(s, code, turn, s', halts)
    ensures Rested(s') && CodesKept(s, s')
    ensures !s'.halted && s'.procs[s'.cur].state == Zombie <==>
              !halts && s.cur != 0 && Pick(Bury(s.procs, s.cur, code), turn.next) == -1
  {
    hide Ended, Bury, Pick, O.Counted, R.Conserved, BackingOk, FdsOk, NoLostWakeup, HistoryOk;
    if s.cur != 0 {
      var b := Bury(s.procs, s.cur, code);
      var p := Pick(b, turn.next);
      var d := s'.(procs := b, cur := s.cur, halted := false);
      EndedRests(s, s.cur, code, d);
      if p >= 0 {
        ResumedRests(d, b, p, turn, p);
      } else {
        NobodyLeft(s.procs, s.nextPid, s.cur, code, turn.next);
      }
    }
  }

  lemma KillOtherRests(s: Snapshot, i: nat, sig: nat, s': Snapshot)
    requires Sound(s) && Orderly(s) && !s.halted && Fit(s') && i < MAX_PROCS && i != s.cur
    requires Live(s.procs[i]) && s.procs[i].state != Zombie
    requires Ended(s, i, 128 + sig, s'.(procs := Bury(s.procs, i, 128 + sig)))
    requires s' == Answered(s'.(procs := Bury(s.procs, i, 128 + sig)), 0)
    ensures Rested(s') && CodesKept(s, s') && !s'.halted && s'.procs[s'.cur].state != Zombie
  {
    hide Bury, BuryDelivers, O.Counted, R.Conserved, BackingOk, FdsOk, ProcsOk;
    EndedRests(s, i, 128 + sig, s'.(procs := Bury(s.procs, i, 128 + sig)));
    BuryShape(s.procs, i, 128 + sig);
  }

  lemma KillRests(s: Snapshot, pid: int, sig: nat, turn: Turn, s': Snapshot)
    requires Sound(s) && Orderly(s) && !s.halted && Fit(s') && Killed(s, pid, sig, turn, s')
    ensures Rested(s') && CodesKept(s, s')
    ensures !s'.halted && s'.procs[s'.cur].state == Zombie <==> Strands(s, Kill(pid, sig, turn))
  {
    hide Ended, Quit, Bury, Pick, ParentWaits, SlotOfPid, PidsOk, O.Counted, R.Conserved, BackingOk, FdsOk,
         NoLostWakeup, HistoryOk, Rested;
    OwnSlot(s.procs, s.nextPid, s.cur, pid);
    var i := if pid > 0 then SlotOfPid(s.procs, pid) else -1;
    if sig !in {9, 15} || i < 0 || s.procs[i].state == Zombie {
      AnsweredRests(s, s'.procs[s.cur].x0);
    } else if i == s.cur {
      QuitRests(s, 128 + sig, turn, s', false);
      NobodyLeft(s.procs, s.nextPid, s.cur, 128 + sig, turn.next);
    } else {
      KillOtherRests(s, i, sig, s');
    }
  }

  lemma AnsweredRests(s: Snapshot, r: int)
    requires Fit(s) && Orderly(s)
    ensures Fit(Answered(s, r)) && Orderly(Answered(s, r)) && CodesKept(s, Answered(s, r))
  {
  }

  /** Zombie z goes away, and the running process learns of it. */
  lemma ReapRests(s: Snapshot, z: nat, s': Snapshot)
    requires Fit(s) && Orderly(s) && !s.halted && Fit(s') && z < MAX_PROCS && s.procs[z].state == Zombie
    requires Live(s.procs[s.cur]) && s'.cur == s.cur && s'.deaths == s.deaths
    requires var p := s'.procs[s.cur];
             && p == s.procs[s.cur].(x0 := p.x0, memory := p.memory)
             && s'.procs == s.procs[z := CLEARED][s.cur := p]
    requires D.Emptied(s.tables, s'.tables, z)
    ensures Rested(s') && CodesKept(s, s') && s'.procs[s'.cur].state != Zombie
  {
    hide O.Shape, R.PerSlot, D.SurvivorsKeep;
  }

  lemma ParkRests(s: Snapshot, req: int, status: nat, turn: Turn)
    requires Fit(s) && Orderly(s) && !s.halted && Live(s.procs[s.cur])
    ensures var procs := Parked(s.procs, s.cur, req, status);
            var p := Pick(procs, turn.next);
            p >= 0 ==>
              && Rested(s.(procs := Resumed(procs, p, turn), cur := p)) && Resumed(procs, p, turn)[p].state != Zombie
  {
    hide Pick, O.Shape, R.PerSlot, D.AllClosed;
  }

  lemma WaitRests(s: Snapshot, req: int, status: nat, options: nat, turn: Turn, s': Snapshot)
    requires Sound(s) && Orderly(s) && !s.halted && Fit(s') && Waited(s, req, status, options, turn, s')
    ensures Rested(s') && CodesKept(s, s') && s'.procs[s'.cur].state != Zombie
  {
    hide Pick, Resumed, Parked, WaitDecision, ProcsOk, O.Shape, O.Counted, R.Conserved, BackingOk, FdsOk, D.Emptied,
         Rested, R.PerSlot;
    match WaitDecision(s.procs, s.cur, req, status, options % 2 == WNOHANG) {
      case Reaped(z) => ReapRests(s, z, s');
      case Blocks =>
        ParkRests(s, req, status, turn);
        if Pick(Parked(s.procs, s.cur, req, status), turn.next) < 0 {
          TouchedRests(s, s.procs[s.cur].(state := Runnable, x0 := -EAGAIN));
        }
      case _ => AnsweredRests(s, s'.procs[s.cur].x0);
    }
  }

  lemma CloneRests(s: Snapshot, flags: nat, mmuReady: bool, s': Snapshot)
    requires Sound(s) && Orderly(s) && !s.halted && Fit(s') && Cloned(s, flags, mmuReady, s')
    ensures Rested(s') && CodesKept(s, s') && s'.procs[s'.cur].state != Zombie
  {
    hide ChildBacking, PidsOk, O.Shape, O.Counted, R.Conserved, BackingOk, FdsOk, NoLostWakeup, D.OnlyCountsChange;
  }

  lemma FdRests(s: Snapshot, c: Call, s': Snapshot)
    requires Sound(s) && Orderly(s) && !s.halted && Fit(s') && c.IsFdCall() && FdStepped(s, c, s')
    ensures Rested(s') && CodesKept(s, s') && s'.procs[s'.cur].state != Zombie
  {
    hide FdOutcome, ProcsOk, O.Counted, R.Conserved, BackingOk, FdsOk;
  }

  /** The running process changes its run state or result without ending. */
  lemma TouchedRests(s: Snapshot, p: Proc)
    requires Fit(s) && Orderly(s) && !s.halted
    requires p == s.procs[s.cur].(state := p.state, x0 := p.x0, pending := p.pending)
    requires Live(s.procs[s.cur]) && Live(p) && p.state != Zombie
    ensures Rested(s.(procs := s.procs[s.cur := p]))
  {
    hide O.Shape, R.PerSlot, D.AllClosed;
  }

  lemma SleepRests(s: Snapshot, park: Park, turn: Turn)
    requires Sound(s) && Orderly(s) && !s.halted
    ensures var s' := Slept(s, park, turn);
            Fit(s') && Rested(s') && CodesKept(s, s') && s'.procs[s'.cur].state != Zombie
  {
    hide Pick, Rested, O.Shape, ProcsOk, O.Counted, R.Conserved, BackingOk, FdsOk;
    var parked := ParkedAs(s.procs[s.cur], park);
    TouchedRests(s, parked);
    TouchedRests(s, WentOn(parked, park, turn));
    var procs := s.procs[s.cur := parked];
    assert Ready(procs[s.cur]);
    var p := Pick(procs, turn.next);
    ResumedRests(s, procs, p, turn, p);
  }

  lemma YieldRests(s: Snapshot, turn: Turn)
    requires Sound(s) && Orderly(s) && !s.halted
    ensures var s' := Yielded(s, turn);
            Fit(s') && Rested(s') && CodesKept(s, s') && s'.procs[s'.cur].state != Zombie
  {
    hide Pick, Rested, O.Shape, ProcsOk, O.Counted, R.Conserved, BackingOk, FdsOk;
    var p := Pick(s.procs, turn.next);
    if p == s.cur {
      WakeRests(s, s.cur);
    } else {
      assert s.(procs := s.procs) == s;
      ResumedRests(s, s.procs, p, turn, if p >= 0 then p else s.cur);
    }
  }

  lemma WakeRests(s: Snapshot, i: nat)
    requires Sound(s) && Orderly(s) && !s.halted
    ensures var s' := Roused(s, i);
            Fit(s') && Rested(s') && CodesKept(s, s') && s'.procs[s'.cur].state != Zombie
  {
    hide O.Shape, ProcsOk, O.Counted, R.Conserved, BackingOk, FdsOk;
  }

  /** Exactly when one step keeps order, and that what came before the step stays as it was in any case. */
  lemma StepOrderly(s: Snapshot, c: Call, s': Snapshot)
    requires Sound(s) && Orderly(s) && Sound(s') && Stepped(s, c, s')
    ensures Orderly(s') <==> !Strands(s, c)
    ensures Rested(s') && DeadKept(s, s')
  {
    hide FdStepped, Waited, Quit, Killed, Cloned, ProcsOk, O.Counted, R.Conserved, BackingOk, FdsOk, Rested, DeadKept,
         Slept, Roused, Yielded;
    if s.halted {
    } else if c.IsFdCall() {
      FdRests(s, c, s');
    } else {
      match c {
        case Exit(code, turn) => QuitRests(s, code, turn, s', true);
        case Kill(pid, sig, turn) => KillRests(s, pid, sig, turn, s');
        case Wait4(req, status, options, turn) => WaitRests(s, req, status, options, turn, s');
        case Clone(flags, ready) => CloneRests(s, flags, ready, s');
        case Sleep(park, turn) => SleepRests(s, park, turn);
        case Wake(i) => WakeRests(s, i);
        case Yield(turn) => YieldRests(s, turn);
        case _ =>
      }
    }
    RestedKeeps(s, s');
  }

  lemma KeptTransitive(s: Snapshot, s1: Snapshot, s2: Snapshot)
    requires Fit(s1) && Fit(s2) && DeadKept(s, s1) && DeadKept(s1, s2)
    ensures DeadKept(s, s2)
  {
  }

  lemma RunFits(calls: seq<Call>, trace: seq<Snapshot>)
    requires IsRun(calls, trace)
    ensures forall k :: 0 <= k < |trace| ==> Fit(trace[k])
  {
    hide Stepped, ProcsOk, O.Counted, R.Conserved, BackingOk, FdsOk;
  }

  /** A run that starts in order stays in order exactly as long as no step strands a process. */
  lemma {:induction false} RunOrderly(calls: seq<Call>, trace: seq<Snapshot>, n: nat)
    requires IsRun(calls, trace) && n < |trace| && Orderly(trace[0])
    ensures (forall k :: 0 <= k <= n ==> Orderly(trace[k])) <==>
              (forall k :: 0 <= k < n ==> !Strands(trace[k], calls[k]))
  {
    hide Sound, Stepped, Orderly, Strands, DeadKept;
    RunFits(calls, trace);
    if n > 0 {
      RunOrderly(calls, trace, n - 1);
      if Orderly(trace[n - 1]) {
        StepOrderly(trace[n - 1], calls[n - 1], trace[n]);
      }
    }
  }

  /** In a run in order whoever has ended stays ended: at every later moment its pid names nothing but a zombie with
      the same exit code and no open fd. */
  lemma {:induction false} DeadStayDead(calls: seq<Call>, trace: seq<Snapshot>, i: nat, j: nat)
    requires IsRun(calls, trace) && i <= j < |trace| && Orderly(trace[0])
    requires forall k :: 0 <= k < |calls| ==> !Strands(trace[k], calls[k])
    ensures DeadKept(trace[i], trace[j])
    decreases j
  {
    hide Stepped, Strands;
    RunOrderly(calls, trace, j);
    if i == j {
      RestedKeeps(trace[i], trace[i]);
    } else {
      DeadStayDead(calls, trace, i, j - 1);
      StepOrderly(trace[j - 1], calls[j - 1], trace[j]);
      KeptTransitive(trace[i], trace[j - 1], trace[j]);
    }
  }

  lemma SleptSound(s: Snapshot, park: Park, turn: Turn)
    requires Sound(s) && !s.halted
    ensures Sound(Slept(s, park, turn))
  {
    hide O.Counted, R.Conserved, HistoryOk, NoLostWakeup, PidsOk, Backed, Pick, O.Shape;
    var parked := ParkedAs(s.procs[s.cur], park);
    var on := WentOn(parked, park, turn);
    var procs := s.procs[s.cur := parked];
    StepAsideKeepsProtocol(s.procs, s.nextPid, s.deaths, s.delivered, s.cur, parked);
    StepAsideKeepsProtocol(s.procs, s.nextPid, s.deaths, s.delivered, s.cur, on);
    SamePlaces(s.procs, procs, Ram(s.base, s.used));
    SamePlaces(s.procs, s.procs[s.cur := on], Ram(s.base, s.used));
    assert Ready(procs[s.cur]);
    var p := Pick(procs, turn.next);
    ReadyRuns(procs, s.nextPid, p, turn);
    StepAsideKeepsProtocol(procs, s.nextPid, s.deaths, s.delivered, p, Resumes(procs[p], turn));
    SamePlaces(procs, Resumed(procs, p, turn), Ram(s.base, s.used));
  }

  lemma ReadyRuns(procs: seq<Proc>, nextPid: nat, p: nat, turn: Turn)
    requires PidsOk(procs, nextPid) && p < MAX_PROCS && Ready(procs[p])
    ensures Running(procs[p]) && Running(Resumes(procs[p], turn)) && Resumes(procs[p], turn).state != Zombie
  {
  }

  /** A stranded process can come back: after nanosleep it is runnable, or asleep while others run. */
  lemma StrandedComesBack(s: Snapshot, turn: Turn)
    requires Sound(s) && !s.halted && s.procs[s.cur].state == Zombie
    ensures var s' := Slept(s, Nap, turn);
            Sound(s') && Stepped(s, Sleep(Nap, turn), s') && !DeadKept(s, s')
  {
    SleptSound(s, Nap, turn);
    hide O.Counted, R.Conserved, BackingOk, FdsOk, NoLostWakeup, Pick, O.Shape;
    var s' := Slept(s, Nap, turn);
    var i := s.cur;
    assert Live(s'.procs[i]) && s'.procs[i].pid in s.deaths && s'.procs[i].state != Zombie;
  }

  /** Every state of the run is such that no call whatever can disturb the dead. */
  ghost predicate DeadSafe(trace: seq<Snapshot>) {
    forall k, c, s' :: 0 <= k < |trace| && Sound(s') && Stepped(trace[k], c, s') ==> DeadKept(trace[k], s')
  }

  /** The first step of a run that strands a process, if there is one, is a step from a state in order. */
  lemma {:induction false} FirstStranding(calls: seq<Call>, trace: seq<Snapshot>, n: nat) returns (k: nat)
    requires IsRun(calls, trace) && n < |calls| && Orderly(trace[0]) && Strands(trace[n], calls[n])
    ensures k <= n && Orderly(trace[k]) && Strands(trace[k], calls[k])
  {
    hide Sound, Stepped, Orderly, Strands;
    RunFits(calls, trace);
    RunOrderly(calls, trace, n);
    k := 0;
    while k < n && !Strands(trace[k], calls[k])
      invariant k <= n && forall j :: 0 <= j < k ==> !Strands(trace[j], calls[j])
    {
      k := k + 1;
    }
    RunOrderly(calls, trace, k);
  }

  /** The dead are safe exactly in the runs in which no step strands a process. */
  lemma DeadSafeExactly(calls: seq<Call>, trace: seq<Snapshot>)
    requires IsRun(calls, trace) && Orderly(trace[0])
    ensures DeadSafe(trace) <==> forall k :: 0 <= k < |calls| ==> !Strands(trace[k], calls[k])
  {
    hide Stepped, Strands, DeadKept, Rested, ProcsOk, O.Counted, R.Conserved, BackingOk, FdsOk;
    RunFits(calls, trace);
    RunOrderly(calls, trace, |calls|);
    if k :| 0 <= k < |calls| && Strands(trace[k], calls[k]) {
      var f := FirstStranding(calls, trace, k);
      StepOrderly(trace[f], calls[f], trace[f + 1]);
      StrandedComesBack(trace[f + 1], To(0));
    } else {
      forall k | 0 <= k < |trace|
        ensures forall c, s' :: Sound(s') && Stepped(trace[k], c, s') ==> DeadKept(trace[k], s')
      {
        NoCallDisturbs(trace[k]);
      }
    }
  }

  lemma NoCallDisturbs(s: Snapshot)
    requires Sound(s) && Orderly(s)
    ensures forall c, s' :: Sound(s') && Stepped(s, c, s') ==> DeadKept(s, s')
  {
    hide Stepped, DeadKept, ProcsOk, O.Counted, R.Conserved, BackingOk, FdsOk, Rested;
    forall c, s' | Sound(s') && Stepped(s, c, s')
      ensures DeadKept(s, s')
    {
      StepOrderly(s, c, s');
    }
  }

  // ----- a run that strands a process

  /** The first process makes a child; the child kills the first process, then itself, opens a file, sleeps, and
      exits with another code. */
  function StrandingCalls(): seq<Call> {
    [Clone(0, true), Yield(To(1)), Kill(1, 9, To(1)), Kill(2, 9, To(1)), Open(O.Ramfile(0)), Sleep(Nap, To(1)),
     Exit(7, To(1))]
  }

  /** Slots 0 and 1 are pid 1 and its child pid 2, and nobody else exists. */
  predicate TwoProcs(s: Snapshot) {
    && |s.procs| == MAX_PROCS && (forall i :: 2 <= i < MAX_PROCS ==> s.procs[i] == CLEARED)
    && s.procs[0].pid == 1 && s.procs[0].ppid == 0 && s.procs[1].pid == 2 && s.procs[1].ppid == 1
    && Live(s.procs[0]) && Live(s.procs[1]) && s.procs[0].state != Waiting && s.procs[1].state != Waiting
  }

  lemma NobodyWaits(s: Snapshot, idx: nat, code: nat)
    requires TwoProcs(s) && idx < 2
    ensures Bury(s.procs, idx, code) == s.procs[idx := s.procs[idx].(state := Zombie, exitCode := code)]
    ensures BuryDelivers(s.procs, idx, code) == []
  {
  }

  lemma ChildMade(base: nat, used: seq<bool>, s1: Snapshot, s2: Snapshot)
    requires ChildBacking(base, used, true).0 != 0
    requires Stepped(Booted(base, used), Clone(0, true), s1) && Stepped(s1, Yield(To(1)), s2)
    ensures TwoProcs(s2) && s2.cur == 1 && !s2.halted && s2.deaths == map[]
    ensures s2.procs[0].state == Runnable == s2.procs[1].state
  {
    hide D.NoTables, D.WithConsole, D.Inherits, ChildBacking;
    var s := Booted(base, used);
    assert FreeSlot(s.procs) == 1 by { assert Live(s.procs[0]) && !Live(s.procs[1]); }
    assert Ready(s1.procs[1]);
  }

  lemma FirstKilled(s2: Snapshot, s3: Snapshot)
    requires TwoProcs(s2) && s2.cur == 1 && !s2.halted && s2.deaths == map[]
    requires s2.procs[0].state == Runnable == s2.procs[1].state && Stepped(s2, Kill(1, 9, To(1)), s3)
    ensures TwoProcs(s3) && s3.cur == 1 && !s3.halted && s3.deaths == map[1 := 137]
    ensures s3.procs[0].state == Zombie && s3.procs[1].state == Runnable && D.AllClosed(s3.tables.owners, 0)
    ensures Strands(s3, Kill(2, 9, To(1)))
  {
    hide D.SurvivorsKeep;
    NobodyWaits(s2, 0, 137);
    assert SlotOfPid(s2.procs, 1) == 0;
  }

  lemma ThenItself(s3: Snapshot, s4: Snapshot)
    requires TwoProcs(s3) && s3.cur == 1 && !s3.halted && s3.deaths == map[1 := 137]
    requires s3.procs[0].state == Zombie && s3.procs[1].state == Runnable && Stepped(s3, Kill(2, 9, To(1)), s4)
    requires D.AllClosed(s3.tables.owners, 0)
    ensures TwoProcs(s4) && s4.cur == 1 && !s4.halted && s4.deaths == map[1 := 137, 2 := 137]
    ensures s4.procs[0].state == Zombie == s4.procs[1].state
    ensures D.AllClosed(s4.tables.owners, 0) && D.AllClosed(s4.tables.owners, 1)
  {
    hide D.SurvivorsKeep, Pick;
    NobodyWaits(s3, 1, 137);
    var b := Bury(s3.procs, 1, 137);
    assert Pick(b, 1) == -1 by { assert forall i :: 0 <= i < MAX_PROCS ==> !Ready(b[i]); }
    assert SlotOfPid(s3.procs, 2) == 1 by { assert s3.procs[0].pid != 2; }
  }

  /** With nothing open there is room for an fd. */
  lemma RoomLeft(s: Snapshot)
    requires Sound(s) && TwoProcs(s) && D.AllClosed(s.tables.owners, 0) && D.AllClosed(s.tables.owners, 1)
    ensures D.FirstFreeDesc(s.tables.descs) >= 0 && D.FirstClosed(s.tables.owners[..O.SLOTS], 1, 3) >= 0
  {
    hide R.Conserved, BackingOk, ProcsOk, O.ResourceCounted;
    var t := s.tables;
    forall i | 0 <= i < O.OWNERS
      ensures t.owners[i] == -1
    {
      if i < O.SLOTS {
        assert D.AllClosed(t.owners, i / O.MAX_FDS) && D.Slot(i / O.MAX_FDS, i % O.MAX_FDS) == i;
      }
    }
    assert 0 !in multiset(t.owners);
    assert t.descs[0].refs == 0;
    assert t.owners[..O.SLOTS][D.Slot(1, 3)] == -1;
  }

  lemma ThenOpens(s4: Snapshot, s5: Snapshot)
    requires Sound(s4) && TwoProcs(s4) && s4.cur == 1 && !s4.halted
    requires D.AllClosed(s4.tables.owners, 0) && D.AllClosed(s4.tables.owners, 1)
    requires s4.procs[0].state == Zombie == s4.procs[1].state && Stepped(s4, Open(O.Ramfile(0)), s5)
    ensures TwoProcs(s5) && s5.cur == 1 && !s5.halted && s5.deaths == s4.deaths
    ensures s5.procs[1].state == Zombie && !D.AllClosed(s5.tables.owners, 1)
  {
    hide O.Counted, R.Conserved, BackingOk, ProcsOk;
    RoomLeft(s4);
    var r := s5.procs[1].x0;
    assert D.Installed(s4.tables, s5.tables, 1, 3, O.Ramfile(0), r);
    assert s5.tables.owners[D.Slot(1, r)] >= 0;
  }

  lemma ThenSleepsAndExits(s5: Snapshot, s6: Snapshot, s7: Snapshot)
    requires TwoProcs(s5) && s5.cur == 1 && !s5.halted && s5.procs[1].state == Zombie
    requires Stepped(s5, Sleep(Nap, To(1)), s6) && Stepped(s6, Exit(7, To(1)), s7)
    ensures TwoProcs(s6) && s6.procs[1].state == Runnable && s7.deaths == s5.deaths[2 := 7]
  {
    hide O.Shape, R.PerSlot, D.Emptied, Bury, BuryDelivers;
    assert Ready(s6.procs[1]);
  }

  /** From power-on it takes four calls: after them a zombie runs.  It opens a file, comes back to life, and its
      recorded exit code changes from 137 to 7. */
  lemma StrandingRun(trace: seq<Snapshot>, base: nat, used: seq<bool>)
    requires IsRun(StrandingCalls(), trace) && trace[0] == Booted(base, used) && ChildBacking(base, used, true).0 != 0
    ensures Strands(trace[3], StrandingCalls()[3])
    ensures !trace[4].halted && trace[4].procs[trace[4].cur].state == Zombie && 2 in trace[4].deaths
    ensures trace[5].procs[1].state == Zombie && !D.AllClosed(trace[5].tables.owners, 1)
    ensures trace[6].procs[1].pid == 2 && trace[6].procs[1].state == Runnable
    ensures 2 in trace[7].deaths && trace[4].deaths[2] == 137 && trace[7].deaths[2] == 7
  {
    hide Sound, Stepped, Strands, Booted, ChildBacking;
    var calls := StrandingCalls();
    assert calls[0] == Clone(0, true) && calls[1] == Yield(To(1));
    assert calls[2] == Kill(1, 9, To(1)) && calls[3] == Kill(2, 9, To(1));
    assert calls[4] == Open(O.Ramfile(0)) && calls[5] == Sleep(Nap, To(1)) && calls[6] == Exit(7, To(1));
    assert Stepped(trace[0], calls[0], trace[1]) && Stepped(trace[1], calls[1], trace[2]);
    ChildMade(base, used, trace[1], trace[2]);
    assert Stepped(trace[2], calls[2], trace[3]) && Stepped(trace[3], calls[3], trace[4]);
    FirstKilled(trace[2], trace[3]);
    ThenItself(trace[3], trace[4]);
    assert Stepped(trace[4], calls[4], trace[5]) && Stepped(trace[5], calls[5], trace[6]);
    assert Stepped(trace[6], calls[6], trace[7]);
    ThenOpens(trace[4], trace[5]);
    ThenSleepsAndExits(trace[5], trace[6], trace[7]);
  }
}
