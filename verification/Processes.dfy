/**
 The parent/child protocol of the process table, on values: who may reap whom,
 who is woken when a process dies, and what a wait4 hands over.
 */
module Processes {
  import opened Errno
  import opened Limits

  const USER_BASE := 0x400000
  const USER_END := 0x600000

  datatype State = Unused | Runnable | Waiting | Zombie | Sleeping | BlockedIo

  /** One slot of g_procs.  memory holds the status words that wait4 stored into the process's user region; x0 is
      the saved system call result; pending says that a call waiting for input is still to be completed. */
  datatype Proc = Proc(pid: nat, ppid: nat, state: State, userPa: nat, exitCode: nat, waitTarget: int,
                       waitStatus: nat, x0: int, pending: bool, memory: map<nat, nat>)

  const CLEARED := Proc(0, 0, Unused, 0, 0, 0, 0, 0, false, map[])

  /** user_range_ok for a 4-byte word. */
  predicate WordOk(addr: nat) {
    USER_BASE <= addr && addr + 4 <= USER_END
  }

  /** The status word of a process that ended with this code. */
  function Status(code: nat): nat {
    code % 256 * 256
  }

  predicate Live(p: Proc) { p.state != Unused }

  /** What the running process may look like: it is not blocked in wait4.  It can be a zombie, or parked. */
  predicate Running(p: Proc) {
    Live(p) && p.state != Waiting && p.waitTarget == 0 && p.waitStatus == 0
  }

  /** Child c answers a wait by ppid for target req (any child when req <= 0). */
  predicate Matches(c: Proc, ppid: nat, req: int) {
    c.ppid == ppid && (req <= 0 || c.pid == req)
  }

  /** The lowest zombie child of ppid that answers req, or -1. */
  function ZombieFor(procs: seq<Proc>, ppid: nat, req: int, i: nat := 0): (z: int)
    requires i <= |procs|
    ensures z == -1 || i <= z < |procs|
    ensures z >= 0 ==> procs[z].state == Zombie && Matches(procs[z], ppid, req)
    ensures forall j :: i <= j < (if z < 0 then |procs| else z) ==>
              !(procs[j].state == Zombie && Matches(procs[j], ppid, req))
    decreases |procs| - i
  {
    if i == |procs| then -1
    else if procs[i].state == Zombie && Matches(procs[i], ppid, req) then i
    else ZombieFor(procs, ppid, req, i + 1)
  }

  predicate AnyChild(procs: seq<Proc>, ppid: nat) {
    exists i :: 0 <= i < |procs| && Live(procs[i]) && procs[i].ppid == ppid
  }

  /** The lowest slot blocked in wait4 whose pid is ppid, or -1. */
  function WaiterFor(procs: seq<Proc>, ppid: nat, i: nat := 0): (w: int)
    requires i <= |procs|
    ensures w == -1 || i <= w < |procs|
    ensures w >= 0 ==> procs[w].state == Waiting && procs[w].pid == ppid
    ensures forall j :: i <= j < (if w < 0 then |procs| else w) ==>
              !(procs[j].state == Waiting && procs[j].pid == ppid)
    decreases |procs| - i
  {
    if i == |procs| then -1
    else if procs[i].state == Waiting && procs[i].pid == ppid then i
    else WaiterFor(procs, ppid, i + 1)
  }

  function Stored(p: Proc, addr: nat, word: nat): Proc {
    if addr != 0 && WordOk(addr) then p.(memory := p.memory[addr := word]) else p
  }

  /** The parent p receives the end of child c. */
  function Woken(p: Proc, c: Proc): Proc {
    Stored(p, p.waitStatus, Status(c.exitCode)).(state := Runnable, waitTarget := 0, waitStatus := 0, x0 := c.pid)
  }

  /** Slot idx is about to die: does its parent already wait for it? */
  predicate Awaited(procs: seq<Proc>, idx: nat)
    requires idx < |procs|
  {
    var w := WaiterFor(procs, procs[idx].ppid);
    w >= 0 && Matches(procs[idx], procs[w].pid, procs[w].waitTarget)
  }

  /** exit, and kill of another process: slot idx ends with this code.  Its parent
      reaps it on the spot if it is waiting for it; otherwise it stays a zombie. */
  function Bury(procs: seq<Proc>, idx: nat, code: nat): (r: seq<Proc>)
    requires idx < |procs|
    ensures |r| == |procs|
  {
    var dead := procs[idx].(state := Zombie, exitCode := code);
    var procs1 := procs[idx := dead];
    if Awaited(procs1, idx) then
      var w := WaiterFor(procs1, dead.ppid);
      procs1[w := Woken(procs1[w], dead)][idx := CLEARED]
    else procs1
  }

  datatype WaitOutcome = Reaped(child: nat) | Refused(errno: int) | NotYet | Blocks

  /** What wait4 by slot cur decides. */
  function WaitDecision(procs: seq<Proc>, cur: nat, req: int, status: nat, nohang: bool): (o: WaitOutcome)
    requires cur < |procs|
    ensures o.Reaped? ==>
              && o.child < |procs| && procs[o.child].state == Zombie
              && Matches(procs[o.child], procs[cur].pid, req)
    ensures o.Blocks? ==>
              forall j :: 0 <= j < |procs| ==> !(procs[j].state == Zombie && Matches(procs[j], procs[cur].pid, req))
  {
    var z := ZombieFor(procs, procs[cur].pid, req);
    if z >= 0 then (if status != 0 && !WordOk(status) then Refused(EFAULT) else Reaped(z))
    else if !AnyChild(procs, procs[cur].pid) then Refused(ECHILD)
    else if nohang then NotYet
    else Blocks
  }

  /** Slot cur waits for child req, with the status word to go to status. */
  function Parked(procs: seq<Proc>, cur: nat, req: int, status: nat): (r: seq<Proc>)
    requires cur < |procs|
    ensures |r| == |procs|
  {
    procs[cur := procs[cur].(state := Waiting, waitTarget := req, waitStatus := status)]
  }

  /** wait4 by slot cur, up to the point where it returns or leaves the processor. */
  function Wait(procs: seq<Proc>, cur: nat, req: int, status: nat, nohang: bool): (r: seq<Proc>)
    requires cur < |procs|
    ensures |r| == |procs|
  {
    var p := procs[cur];
    match WaitDecision(procs, cur, req, status, nohang)
    case Reaped(z) =>
      procs[z := CLEARED][cur := Stored(p, status, Status(procs[z].exitCode)).(x0 := procs[z].pid)]
    case Refused(e) => procs[cur := p.(x0 := -e)]
    case NotYet => procs[cur := p.(x0 := 0)]
    case Blocks => Parked(procs, cur, req, status)
  }

  // ----- what every reachable table satisfies

  predicate PidsOk(procs: seq<Proc>, nextPid: nat) {
    && |procs| == MAX_PROCS
    && (forall i :: 0 <= i < MAX_PROCS ==>
          if Live(procs[i]) then 0 < procs[i].pid < nextPid && procs[i].ppid < procs[i].pid else procs[i] == CLEARED)
    && (forall i, j :: 0 <= i < j < MAX_PROCS && Live(procs[i]) && Live(procs[j]) ==> procs[i].pid != procs[j].pid)
    && (forall i :: 0 <= i < MAX_PROCS && procs[i].state != Waiting && procs[i].state != Zombie ==>
          procs[i].waitTarget == 0 && procs[i].waitStatus == 0)
  }

  /** Nobody sleeps through the death of a child it waits for. */
  predicate NoLostWakeup(procs: seq<Proc>) {
    forall i, j :: 0 <= i < |procs| && 0 <= j < |procs| && procs[i].state == Waiting && procs[j].state == Zombie ==>
      !Matches(procs[j], procs[i].pid, procs[i].waitTarget)
  }

  /** A completed wait4. */
  datatype Delivery = Delivery(parent: nat, child: nat, status: nat)

  /** deaths: exit code by pid, of every process that ever ended, as last recorded.
      delivered: every (parent, child, status) a wait4 ever handed over. */
  predicate HistoryOk(procs: seq<Proc>, nextPid: nat, deaths: map<nat, nat>, delivered: seq<Delivery>) {
    && (forall pid :: pid in deaths ==> pid < nextPid)
    && (forall i :: 0 <= i < |procs| && procs[i].state == Zombie ==>
          procs[i].pid in deaths && deaths[procs[i].pid] == procs[i].exitCode)
    && (forall k :: 0 <= k < |delivered| ==>
          delivered[k].child in deaths && delivered[k].status == Status(deaths[delivered[k].child]))
    && (forall k, i :: 0 <= k < |delivered| && 0 <= i < |procs| && Live(procs[i]) ==>
        delivered[k].child != procs[i].pid)
    && (forall k, l :: 0 <= k < l < |delivered| ==> delivered[k].child != delivered[l].child)
  }

  predicate ProcsOk(procs: seq<Proc>, nextPid: nat, deaths: map<nat, nat>, delivered: seq<Delivery>) {
    PidsOk(procs, nextPid) && NoLostWakeup(procs) && HistoryOk(procs, nextPid, deaths, delivered)
  }

  /** The deliveries a death completes at once. */
  function BuryDelivers(procs: seq<Proc>, idx: nat, code: nat): seq<Delivery>
    requires idx < |procs|
  {
    var procs1 := procs[idx := procs[idx].(state := Zombie, exitCode := code)];
    if Awaited(procs1, idx) then [Delivery(procs[idx].ppid, procs[idx].pid, Status(code))] else []
  }

  function WaitDelivers(procs: seq<Proc>, cur: nat, req: int, status: nat, nohang: bool): seq<Delivery>
    requires cur < |procs|
  {
    match WaitDecision(procs, cur, req, status, nohang)
    case Reaped(z) => [Delivery(procs[cur].pid, procs[z].pid, Status(procs[z].exitCode))]
    case _ => []
  }

  lemma BuryKeepsPids(procs: seq<Proc>, nextPid: nat, idx: nat, code: nat)
    requires PidsOk(procs, nextPid) && idx < MAX_PROCS && Live(procs[idx])
    ensures PidsOk(Bury(procs, idx, code), nextPid)
  {
  }

  lemma BuryLosesNoWakeup(procs: seq<Proc>, nextPid: nat, idx: nat, code: nat)
    requires PidsOk(procs, nextPid) && NoLostWakeup(procs) && idx < MAX_PROCS && Live(procs[idx])
    ensures NoLostWakeup(Bury(procs, idx, code))
  {
    var procs1 := procs[idx := procs[idx].(state := Zombie, exitCode := code)];
    var w := WaiterFor(procs1, procs[idx].ppid);
    assert forall i :: 0 <= i < MAX_PROCS && procs1[i].state == Waiting && procs1[i].pid == procs[idx].ppid ==> i == w;
  }

  /** A death changes the dying slot, and at most the run state of one other. */
  lemma BuryShape(procs: seq<Proc>, idx: nat, code: nat)
    requires idx < |procs| && Live(procs[idx])
    ensures var r, pid := Bury(procs, idx, code), procs[idx].pid;
            && (forall i :: 0 <= i < |procs| && i != idx ==>
                  && r[i].pid == procs[i].pid && r[i].exitCode == procs[i].exitCode
                  && Live(r[i]) == Live(procs[i]) && (r[i].state == Zombie <==> procs[i].state == Zombie))
            && if BuryDelivers(procs, idx, code) == [] then r[idx] == procs[idx].(state := Zombie, exitCode := code)
               else
                 && r[idx] == CLEARED
                 && BuryDelivers(procs, idx, code) == [Delivery(procs[idx].ppid, pid, Status(code))]
  {
  }

  lemma BuryKeepsHistory(procs: seq<Proc>, nextPid: nat, deaths: map<nat, nat>, delivered: seq<Delivery>, idx: nat,
                         code: nat)
    requires PidsOk(procs, nextPid) && HistoryOk(procs, nextPid, deaths, delivered)
    requires idx < MAX_PROCS && Live(procs[idx])
    ensures HistoryOk(Bury(procs, idx, code), nextPid, deaths[procs[idx].pid := code],
                      delivered + BuryDelivers(procs, idx, code))
  {
    hide Bury, BuryDelivers;
    BuryShape(procs, idx, code);
    assert forall k :: 0 <= k < |delivered| ==> delivered[k].child != procs[idx].pid;
  }

  lemma BuryKeepsProtocol(procs: seq<Proc>, nextPid: nat, deaths: map<nat, nat>, delivered: seq<Delivery>, idx: nat,
                          code: nat)
    requires ProcsOk(procs, nextPid, deaths, delivered)
    requires idx < MAX_PROCS && Live(procs[idx])
    ensures ProcsOk(Bury(procs, idx, code), nextPid, deaths[procs[idx].pid := code],
                    delivered + BuryDelivers(procs, idx, code))
  {
    hide Bury, BuryDelivers, HistoryOk, NoLostWakeup;
    BuryKeepsPids(procs, nextPid, idx, code);
    BuryLosesNoWakeup(procs, nextPid, idx, code);
    BuryKeepsHistory(procs, nextPid, deaths, delivered, idx, code);
  }

  lemma WaitKeepsPids(procs: seq<Proc>, nextPid: nat, cur: nat, req: int, status: nat, nohang: bool)
    requires PidsOk(procs, nextPid) && cur < MAX_PROCS && Running(procs[cur])
    ensures PidsOk(Wait(procs, cur, req, status, nohang), nextPid)
  {
    hide ZombieFor, AnyChild;
  }

  lemma WaitLosesNoWakeup(procs: seq<Proc>, nextPid: nat, cur: nat, req: int, status: nat, nohang: bool)
    requires PidsOk(procs, nextPid) && NoLostWakeup(procs) && cur < MAX_PROCS && Running(procs[cur])
    ensures NoLostWakeup(Wait(procs, cur, req, status, nohang))
  {
  }

  lemma WaitKeepsHistory(procs: seq<Proc>, nextPid: nat, deaths: map<nat, nat>, delivered: seq<Delivery>,
                         cur: nat, req: int, status: nat, nohang: bool)
    requires PidsOk(procs, nextPid) && HistoryOk(procs, nextPid, deaths, delivered)
    requires cur < MAX_PROCS && Running(procs[cur])
    ensures HistoryOk(Wait(procs, cur, req, status, nohang), nextPid, deaths,
                      delivered + WaitDelivers(procs, cur, req, status, nohang))
  {
    hide ZombieFor, AnyChild;
  }

  lemma WaitKeepsProtocol(procs: seq<Proc>, nextPid: nat, deaths: map<nat, nat>, delivered: seq<Delivery>,
                          cur: nat, req: int, status: nat, nohang: bool)
    requires ProcsOk(procs, nextPid, deaths, delivered)
    requires cur < MAX_PROCS && Running(procs[cur])
    ensures ProcsOk(Wait(procs, cur, req, status, nohang), nextPid, deaths,
                    delivered + WaitDelivers(procs, cur, req, status, nohang))
  {
    hide Wait, WaitDelivers, HistoryOk, NoLostWakeup;
    WaitKeepsPids(procs, nextPid, cur, req, status, nohang);
    WaitLosesNoWakeup(procs, nextPid, cur, req, status, nohang);
    WaitKeepsHistory(procs, nextPid, deaths, delivered, cur, req, status, nohang);
  }

  /** The table after slot p's wait for its child in slot c completed. */
  function Handed(procs: seq<Proc>, p: nat, c: nat, status: nat, code: nat): seq<Proc>
    requires p < |procs| && c < |procs|
  {
    procs[p := Stored(procs[p], status, Status(code)).(x0 := procs[c].pid)][c := CLEARED]
  }

  /** Slot c is a live child of running slot p. */
  predicate ParentOf(procs: seq<Proc>, nextPid: nat, p: nat, c: nat) {
    && PidsOk(procs, nextPid) && p < MAX_PROCS && c < MAX_PROCS && p != c
    && procs[p].state == Runnable && Live(procs[c]) && procs[c].state != Zombie && procs[c].ppid == procs[p].pid
  }

  lemma WaitThenDie(procs: seq<Proc>, nextPid: nat, p: nat, c: nat, status: nat, code: nat)
    requires ParentOf(procs, nextPid, p, c) && (status == 0 || WordOk(status))
    ensures Bury(Wait(procs, p, procs[c].pid, status, false), c, code) == Handed(procs, p, c, status, code)
  {
    var pid, parent := procs[c].pid, procs[p];
    assert ZombieFor(procs, parent.pid, pid) == -1;
    var waiting := Wait(procs, p, pid, status, false);
    assert waiting == procs[p := parent.(state := Waiting, waitTarget := pid, waitStatus := status)];
    assert forall i :: 0 <= i < MAX_PROCS && i != p && Live(procs[i]) ==> procs[i].pid != parent.pid;
    var q: seq<Proc> := waiting[c := procs[c].(state := Zombie, exitCode := code)];
    assert q[p].state == Waiting && q[p].pid == parent.pid;
    assert WaiterFor(q, parent.pid) == p;
  }

  lemma DieThenWait(procs: seq<Proc>, nextPid: nat, p: nat, c: nat, status: nat, code: nat, nohang: bool)
    requires ParentOf(procs, nextPid, p, c) && (status == 0 || WordOk(status))
    ensures Wait(Bury(procs, c, code), p, procs[c].pid, status, nohang) == Handed(procs, p, c, status, code)
  {
  }

  /** Waiting before or after the child's death makes no difference at all: both
      orders end in the same process table, in which the parent has the child's
      pid as its result and the status word in memory, and the child is gone. */
  lemma WaitOrderIrrelevant(procs: seq<Proc>, nextPid: nat, p: nat, c: nat, status: nat, code: nat, nohang: bool)
    requires ParentOf(procs, nextPid, p, c) && (status == 0 || WordOk(status))
    ensures var pid := procs[c].pid;
            var waitFirst := Bury(Wait(procs, p, pid, status, false), c, code);
            var dieFirst := Wait(Bury(procs, c, code), p, pid, status, nohang);
            && waitFirst == dieFirst
            && waitFirst[p].x0 == pid && waitFirst[p].state == Runnable && !Live(waitFirst[c])
            && (status != 0 ==> status in waitFirst[p].memory && waitFirst[p].memory[status] == Status(code))
  {
    hide Wait, Bury;
    WaitThenDie(procs, nextPid, p, c, status, code);
    DieThenWait(procs, nextPid, p, c, status, code, nohang);
  }

  /** The status pointer has to be null or valid: with a bad one, a parent that came first is given its
      child's pid, with nothing stored and the child gone; one that came second is refused, and the child
      stays a zombie. */
  lemma BadPointerTellsTheOrder(procs: seq<Proc>, nextPid: nat, p: nat, c: nat, status: nat, code: nat, nohang: bool)
    requires ParentOf(procs, nextPid, p, c) && status != 0 && !WordOk(status)
    ensures var early := Bury(Wait(procs, p, procs[c].pid, status, false), c, code);
            early[p] == procs[p].(x0 := procs[c].pid) && !Live(early[c])
    ensures var late := Wait(Bury(procs, c, code), p, procs[c].pid, status, nohang);
            late[p] == procs[p].(x0 := -EFAULT) && late[c] == procs[c].(state := Zombie, exitCode := code)
  {
    var pid, parent := procs[c].pid, procs[p];
    assert forall i :: 0 <= i < MAX_PROCS && i != p && Live(procs[i]) ==> procs[i].pid != parent.pid;
    var z: seq<Proc> := procs[c := procs[c].(state := Zombie, exitCode := code)];
    assert WaiterFor(z, parent.pid) == -1;
    assert z[c].state == Zombie && Matches(z[c], parent.pid, pid);
    assert ZombieFor(procs, parent.pid, pid) == -1;
    var q: seq<Proc> := Wait(procs, p, pid, status, false)[c := z[c]];
    assert q[p].state == Waiting && q[p].pid == parent.pid;
    assert WaiterFor(q, parent.pid) == p;
  }

  /** sys_clone's effect on the table: a child in free slot i, running a copy of its parent's image. */
  function Spawn(procs: seq<Proc>, cur: nat, i: nat, pid: nat, userPa: nat): (r: seq<Proc>)
    requires cur < |procs| && i < |procs|
    ensures |r| == |procs|
  {
    var p := procs[cur];
    procs[i := Proc(pid, p.pid, Runnable, userPa, 0, 0, 0, 0, false, p.memory)][cur := p.(x0 := pid)]
  }

  lemma SpawnKeepsHistory(procs: seq<Proc>, nextPid: nat, deaths: map<nat, nat>, delivered: seq<Delivery>,
                          cur: nat, i: nat, userPa: nat)
    requires PidsOk(procs, nextPid) && HistoryOk(procs, nextPid, deaths, delivered)
    requires cur < MAX_PROCS && i < MAX_PROCS && Running(procs[cur]) && !Live(procs[i])
    ensures HistoryOk(Spawn(procs, cur, i, nextPid, userPa), nextPid + 1, deaths, delivered)
  {
  }

  lemma SpawnKeepsProtocol(procs: seq<Proc>, nextPid: nat, deaths: map<nat, nat>, delivered: seq<Delivery>,
                           cur: nat, i: nat, userPa: nat)
    requires ProcsOk(procs, nextPid, deaths, delivered) && cur < MAX_PROCS && i < MAX_PROCS
    requires Running(procs[cur]) && !Live(procs[i]) && nextPid > 0
    ensures ProcsOk(Spawn(procs, cur, i, nextPid, userPa), nextPid + 1, deaths, delivered)
  {
    hide HistoryOk;
    SpawnKeepsHistory(procs, nextPid, deaths, delivered, cur, i, userPa);
  }

  /** Going to sleep, waking up - even of a zombie - and receiving a result cost the protocol nothing. */
  lemma StepAsideKeepsProtocol(procs: seq<Proc>, nextPid: nat, deaths: map<nat, nat>, delivered: seq<Delivery>,
                               i: nat, p: Proc)
    requires ProcsOk(procs, nextPid, deaths, delivered) && i < MAX_PROCS && Live(procs[i])
    requires Running(procs[i]) && p == procs[i].(state := p.state, x0 := p.x0, pending := p.pending)
    requires Live(p) && p.state != Waiting
    requires p.state == Zombie ==> procs[i].state == Zombie
    ensures ProcsOk(procs[i := p], nextPid, deaths, delivered)
  {
  }

  /** A parent that found nobody else to run gives up waiting. */
  lemma GiveUpKeepsProtocol(procs: seq<Proc>, nextPid: nat, deaths: map<nat, nat>, delivered: seq<Delivery>, i: nat,
                            r: int)
    requires ProcsOk(procs, nextPid, deaths, delivered) && i < MAX_PROCS && procs[i].state == Waiting
    ensures ProcsOk(procs[i := procs[i].(state := Runnable, waitTarget := 0, waitStatus := 0, x0 := r)],
                    nextPid, deaths, delivered)
  {
  }
}
