/**
 The descriptor layer: per-process fd tables, shared file descriptions, pipes
 and sockets, updated in place by the descriptor system calls.
 */
module Descriptors {
  import opened Bytes
  import opened Errno
  import opened Limits
  import opened Ownership
  import opened PipeRings

  /** Position of (process slot, fd) in the table of all fd slots. */
  function Slot(p: nat, fd: nat): (i: nat)
    requires p < MAX_PROCS && fd < MAX_FDS
    ensures i < SLOTS
  {
    p * MAX_FDS + fd
  }

  function FirstFreeDescFrom(descs: seq<Desc>, i: nat): (d: int)
    requires i <= |descs|
    ensures d == -1 || i <= d < |descs|
    ensures d == -1 ==> forall x :: i <= x < |descs| ==> descs[x].refs > 0
    ensures d >= 0 ==> descs[d].refs == 0 && forall x :: i <= x < d ==> descs[x].refs > 0
    decreases |descs| - i
  {
    if i == |descs| then -1 else if descs[i].refs == 0 then i else FirstFreeDescFrom(descs, i + 1)
  }

  /** The lowest description nobody refers to, or -1. */
  function FirstFreeDesc(descs: seq<Desc>): (d: int)
    ensures d == -1 || 0 <= d < |descs|
    ensures d == -1 ==> forall x :: 0 <= x < |descs| ==> descs[x].refs > 0
    ensures d >= 0 ==> descs[d].refs == 0 && forall x :: 0 <= x < d ==> descs[x].refs > 0
  {
    FirstFreeDescFrom(descs, 0)
  }

  /** The lowest closed fd of process p at or above lo, or -1. */
  function FirstClosed(slots: seq<int>, p: nat, lo: nat): (fd: int)
    requires |slots| == SLOTS && p < MAX_PROCS
    ensures fd == -1 || lo <= fd < MAX_FDS
    ensures fd == -1 ==> forall x :: lo <= x < MAX_FDS ==> slots[Slot(p, x)] >= 0
    ensures fd >= 0 ==> slots[Slot(p, fd)] < 0 && forall x :: lo <= x < fd ==> slots[Slot(p, x)] >= 0
    decreases MAX_FDS - lo
  {
    if lo >= MAX_FDS then -1 else if slots[Slot(p, lo)] < 0 then lo else FirstClosed(slots, p, lo + 1)
  }

  function FirstUnusedSock(socks: seq<Sock>, i: nat): (s: int)
    requires i <= |socks|
    ensures s == -1 || i <= s < |socks|
    ensures s == -1 ==> forall x :: i <= x < |socks| ==> socks[x].used
    ensures s >= 0 ==> !socks[s].used && forall x :: i <= x < s ==> socks[x].used
    decreases |socks| - i
  {
    if i == |socks| then -1 else if !socks[i].used then i else FirstUnusedSock(socks, i + 1)
  }

  function FirstUnusedPipe(pipes: seq<Pipe>, i: nat): (p: int)
    requires i <= |pipes|
    ensures p == -1 || i <= p < |pipes|
    ensures p == -1 ==> forall x :: i <= x < |pipes| ==> pipes[x].used
    ensures p >= 0 ==> !pipes[p].used && forall x :: i <= x < p ==> pipes[x].used
    decreases |pipes| - i
  {
    if i == |pipes| then -1 else if !pipes[i].used then i else FirstUnusedPipe(pipes, i + 1)
  }

  /** Nothing is open and nothing is in use. */
  function NoTables(): Tables {
    Tables(seq(OWNERS, i => -1), seq(MAX_FILEDESCS, i => FREE_DESC),
           seq(MAX_PIPES, i => Pipe(false, 0, 0, 0, 0, 0, seq(PIPE_BUF, j => 0))),
           seq(MAX_UDP, i => Sock(false, 0)), seq(MAX_TCP, i => Sock(false, 0)), multiset{}, -1)
  }

  function NoStreams(): (s: Streams)
    ensures PerSlot(s)
  {
    Streams(seq(MAX_PIPES, i => 0), seq(MAX_PIPES, i => []), seq(MAX_PIPES, i => []))
  }

  class FileTable {
    var slots: seq<int>     // fd_to_desc of every process; -1 when closed
    var descs: seq<Desc>
    var pipes: seq<Pipe>
    var udp: seq<Sock>
    var tcp: seq<Sock>

    ghost var held: seq<int>        // references alive only inside the running call
    ghost var loose: multiset<Kind>
    ghost var newborn: int
    ghost var streams: Streams

    ghost function T(): Tables
      reads this
    {
      Tables(slots + held, descs, pipes, udp, tcp, loose, newborn)
    }

    ghost predicate Sized()
      reads this
    {
      |slots| == SLOTS && |held| == HELD && Shape(T())
    }

    ghost predicate Valid()
      reads this
    {
      Sized() && Counted(T()) && Conserved(pipes, streams)
    }

    /** Between system calls every reference is an fd slot. */
    ghost predicate Idle()
      reads this
    {
      Valid() && held == [-1, -1] && loose == multiset{} && newborn == -1
    }

    /** fd_init, pipe_init and the socket tables' initialisation. */
    constructor ()
      ensures Idle() && T() == NoTables() && streams == NoStreams()
      ensures forall i :: 0 <= i < SLOTS ==> slots[i] == -1
    {
      slots := seq(SLOTS, i => -1);
      descs := seq(MAX_FILEDESCS, i => FREE_DESC);
      pipes := seq(MAX_PIPES, i => Pipe(false, 0, 0, 0, 0, 0, seq(PIPE_BUF, j => 0)));
      udp := seq(MAX_UDP, i => Sock(false, 0));
      tcp := seq(MAX_TCP, i => Sock(false, 0));
      held, loose, newborn := [-1, -1], multiset{}, -1;
      streams := NoStreams();
      new;
      assert T() == NoTables() by { assert T().owners == NoTables().owners; }
      EmptyIsCounted(T());
    }

    // ----- pipe.c and net_ipv6.c hooks

    method PipeOnIncref(id: nat, side: Side)
      requires Sized()
      modifies this`pipes
      ensures T() == IncResource(old(T()), PipeEnd(id, side))
    {
      if id >= MAX_PIPES { return; }
      var pp := pipes[id];
      if !pp.used { return; }
      if side == Reader {
        pipes := pipes[id := pp.(readRefs := pp.readRefs + 1)];
      } else {
        pipes := pipes[id := pp.(writeRefs := pp.writeRefs + 1)];
      }
    }

    method PipeOnDecref(id: nat, side: Side)
      requires Sized()
      modifies this`pipes
      ensures T() == DecResource(old(T()), PipeEnd(id, side))
    {
      if id >= MAX_PIPES { return; }
      var pp := pipes[id];
      if !pp.used { return; }
      if side == Reader {
        if pp.readRefs > 0 { pp := pp.(readRefs := pp.readRefs - 1); }
      } else {
        if pp.writeRefs > 0 { pp := pp.(writeRefs := pp.writeRefs - 1); }
      }
      if pp.readRefs == 0 && pp.writeRefs == 0 {
        pp := pp.(used := false, rpos := 0, wpos := 0, count := 0);
      }
      pipes := pipes[id := pp];
    }

    method Udp6OnIncref(s: nat)
      requires Sized()
      modifies this`udp
      ensures T() == IncResource(old(T()), Udp6(s))
    {
      if s >= MAX_UDP || !udp[s].used { return; }
      udp := udp[s := udp[s].(refs := udp[s].refs + 1)];
    }

    method Udp6OnDecref(s: nat)
      requires Sized()
      modifies this`udp
      ensures T() == DecResource(old(T()), Udp6(s))
    {
      if s >= MAX_UDP || !udp[s].used { return; }
      var k := udp[s];
      if k.refs > 0 { k := k.(refs := k.refs - 1); }
      if k.refs == 0 { k := k.(used := false); }
      udp := udp[s := k];
    }

    method Tcp6OnIncref(c: nat)
      requires Sized()
      modifies this`tcp
      ensures T() == IncResource(old(T()), Tcp6(c))
    {
      if c >= MAX_TCP || !tcp[c].used { return; }
      if tcp[c].refs < 0xffff {
        tcp := tcp[c := tcp[c].(refs := tcp[c].refs + 1)];
      }
    }

    method Tcp6OnDecref(c: nat)
      requires Sized()
      modifies this`tcp
      ensures T() == DecResource(old(T()), Tcp6(c))
    {
      if c >= MAX_TCP || !tcp[c].used || tcp[c].refs == 0 { return; }
      var k := tcp[c].(refs := tcp[c].refs - 1);
      if k.refs == 0 { k := k.(used := false); }
      tcp := tcp[c := k];
    }

    // ----- fd.c

    method DescIncref(d: int)
      requires Sized()
      modifies this`descs, this`pipes, this`udp, this`tcp
      ensures T() == if 0 <= d < MAX_FILEDESCS && old(descs[d].refs) > 0 then IncRefs(old(T()), d) else old(T())
    {
      if d < 0 || d >= MAX_FILEDESCS { return; }
      if descs[d].refs == 0 { return; }
      hide Ownership.IncResource;
      IncRefsInOrder(T(), d);
      descs := descs[d := descs[d].(refs := descs[d].refs + 1)];
      match descs[d].kind {
        case PipeEnd(id, side) => PipeOnIncref(id, side);
        case Udp6(s) => Udp6OnIncref(s);
        case Tcp6(c) => Tcp6OnIncref(c);
        case _ =>
      }
    }

    method DescDecref(d: int)
      requires Sized()
      modifies this`descs, this`pipes, this`udp, this`tcp
      ensures T() == if 0 <= d < MAX_FILEDESCS && old(descs[d].refs) > 0 then DecRefs(old(T()), d) else old(T())
    {
      if d < 0 || d >= MAX_FILEDESCS { return; }
      if descs[d].refs == 0 { return; }
      hide Ownership.DecResource;
      DecResourceSpares(T(), descs[d].kind);
      match descs[d].kind {
        case PipeEnd(id, side) => PipeOnDecref(id, side);
        case Udp6(s) => Udp6OnDecref(s);
        case Tcp6(c) => Tcp6OnDecref(c);
        case _ =>
      }
      descs := descs[d := descs[d].(refs := descs[d].refs - 1)];
      if descs[d].refs == 0 {
        descs := descs[d := FREE_DESC];
      }
    }

    /** Free description i is marked and held in place h. */
    method ReserveDesc(i: nat, ghost h: nat)
      requires Valid() && h < HELD && held[h] == -1 && i < MAX_FILEDESCS && descs[i].refs == 0
      modifies this`descs, this`held
      ensures Valid()
      ensures T() == Reserve(old(T()), SLOTS + h, i) && held == old(held)[h := i]
    {
      hide Ownership.Counted, PipeRings.Conserved;
      ReserveKeepsCounts(T(), SLOTS + h, i);
      descs := descs[i := Desc(Unused, 1)];
      held := held[h := i];
      assert T() == Reserve(old(T()), SLOTS + h, i);
    }

    /** desc_alloc: the lowest free description, reserved with one reference,
        which the running call holds in place h. */
    method DescAlloc(ghost h: nat) returns (d: int)
      requires Valid() && h < HELD && held[h] == -1
      modifies this`descs, this`held
      ensures Valid()
      ensures d == FirstFreeDesc(old(descs))
      ensures d < 0 ==> T() == old(T()) && held == old(held)
      ensures d >= 0 ==> T() == Reserve(old(T()), SLOTS + h, d) && held == old(held)[h := d]
    {
      hide Ownership.Counted, Ownership.Reserve;
      for i := 0 to MAX_FILEDESCS
        invariant T() == old(T()) && held == old(held)
        invariant FirstFreeDesc(descs) == FirstFreeDescFrom(descs, i)
      {
        if descs[i].refs == 0 {
          ReserveDesc(i, h);
          return i;
        }
      }
      return -1;
    }

    /** The running call drops the reference it holds in place h. */
    method DropHeld(d: int, ghost h: nat)
      requires Valid() && h < HELD && held[h] == d >= 0 && newborn == -1
      modifies this`descs, this`pipes, this`udp, this`tcp, this`held
      ensures Valid() && held == old(held)[h := -1]
      ensures T() == Release(old(T()), SLOTS + h)
    {
      hide Ownership.Counted, PipeRings.Conserved, Ownership.DecResource;
      ghost var t := T();
      assert descs[d].refs > 0 by { CountedParts(t); OwnedIsLive(t, SLOTS + h); }
      ReleaseKeepsCounts(t, SLOTS + h);
      CountEditsKeepBytes(t, d, streams);
      held := held[h := -1];
      assert T() == t.(owners := t.owners[SLOTS + h := -1]);
      DescDecref(d);
      assert T() == Release(t, SLOTS + h) by { DecRefsIgnoresOwners(t, T().owners, d); }
    }

    /** A closed fd starts to name live description d, which gains a reference. */
    method PointSlotAt(p: nat, fd: nat, d: int)
      requires Valid() && p < MAX_PROCS && fd < MAX_FDS && slots[Slot(p, fd)] < 0
      requires 0 <= d < MAX_FILEDESCS && descs[d].refs > 0
      modifies this`slots, this`descs, this`pipes, this`udp, this`tcp
      ensures Valid()
      ensures T() == Acquire(old(T()), Slot(p, fd), d) && slots == old(slots)[Slot(p, fd) := d]
    {
      hide Ownership.Counted, PipeRings.Conserved, Ownership.IncResource;
      ghost var t := T();
      assert t.owners[Slot(p, fd)] == slots[Slot(p, fd)];
      AcquireKeepsCounts(t, Slot(p, fd), d);
      CountEditsKeepBytes(t, d, streams);
      slots := slots[Slot(p, fd) := d];
      assert T() == t.(owners := t.owners[Slot(p, fd) := d]);
      DescIncref(d);
      assert T() == Acquire(t, Slot(p, fd), d) by { IncRefsIgnoresOwners(t, T().owners, d); }
    }

    /** fd_alloc_into: the lowest closed fd of process p at or above minFd. */
    method FdAllocInto(p: nat, minFd: nat, d: int) returns (fd: int)
      requires Valid() && p < MAX_PROCS && 0 <= d < MAX_FILEDESCS && descs[d].refs > 0
      modifies this`slots, this`descs, this`pipes, this`udp, this`tcp
      ensures Valid()
      ensures fd == FirstClosed(old(slots), p, minFd)
      ensures fd < 0 ==> T() == old(T()) && slots == old(slots)
      ensures fd >= 0 ==> T() == Acquire(old(T()), Slot(p, fd), d) && slots == old(slots)[Slot(p, fd) := d]
    {
      fd := minFd;
      while fd < MAX_FDS
        invariant minFd <= fd && T() == old(T()) && slots == old(slots)
        invariant FirstClosed(slots, p, minFd) == FirstClosed(slots, p, fd)
      {
        if slots[Slot(p, fd)] < 0 {
          PointSlotAt(p, fd, d);
          return;
        }
        fd := fd + 1;
      }
      return -1;
    }

    /** An open fd is closed, and the description it named loses a reference. */
    method ClearSlotAt(p: nat, fd: nat, d: int)
      requires Valid() && p < MAX_PROCS && fd < MAX_FDS && newborn == -1
      requires slots[Slot(p, fd)] == d >= 0
      modifies this`slots, this`descs, this`pipes, this`udp, this`tcp
      ensures Valid()
      ensures T() == Release(old(T()), Slot(p, fd)) && slots == old(slots)[Slot(p, fd) := -1]
    {
      hide Ownership.Counted, PipeRings.Conserved, Ownership.DecResource, Ownership.DecRefs;
      ghost var t := T();
      assert t.owners[Slot(p, fd)] == d;
      assert descs[d].refs > 0 by { CountedParts(t); OwnedIsLive(t, Slot(p, fd)); }
      ReleaseKeepsCounts(t, Slot(p, fd));
      CountEditsKeepBytes(t, d, streams);
      slots := slots[Slot(p, fd) := -1];
      assert T() == t.(owners := t.owners[Slot(p, fd) := -1]);
      DescDecref(d);
      DecRefsIgnoresOwners(t, t.owners[Slot(p, fd) := -1], d);
    }

    /** fd_close. */
    method FdClose(p: nat, fd: nat)
      requires Valid() && p < MAX_PROCS && newborn == -1
      modifies this`slots, this`descs, this`pipes, this`udp, this`tcp
      ensures Valid()
      ensures fd < MAX_FDS && old(slots)[Slot(p, fd)] >= 0 ==>
                T() == Release(old(T()), Slot(p, fd)) && slots == old(slots)[Slot(p, fd) := -1]
      ensures fd >= MAX_FDS || old(slots)[Slot(p, fd)] < 0 ==> T() == old(T()) && slots == old(slots)
    {
      hide Ownership.Counted, Ownership.Release;
      if fd >= MAX_FDS { return; }
      var d := slots[Slot(p, fd)];
      if d >= 0 { ClearSlotAt(p, fd, d); }
    }

    // ----- system calls

    /** fd_get_desc_idx: an open fd always names a live description. */
    method FdGetDesc(p: nat, fd: nat) returns (d: int)
      requires Valid() && p < MAX_PROCS
      ensures d == if fd < MAX_FDS then slots[Slot(p, fd)] else -1
      ensures d >= 0 ==> d < MAX_FILEDESCS && descs[d].refs > 0
    {
      if fd >= MAX_FDS { return -1; }
      d := slots[Slot(p, fd)];
      assert T().owners[Slot(p, fd)] == d;
      if d < 0 || d >= MAX_FILEDESCS { return -1; }
      OwnedIsLive(T(), Slot(p, fd));
      if descs[d].refs == 0 { return -1; }
    }

    /** A reserved description held in place h becomes a k. */
    method BecomeKind(d: int, k: Kind, ghost h: nat)
      requires Valid() && h < HELD && held[h] == d && 0 <= d < MAX_FILEDESCS && descs[d] == Desc(Unused, 1) && KindOk(k)
      requires IsResource(k) ==> loose == multiset{k}
      modifies this`descs, this`loose
      ensures Valid() && T() == Adopt(old(T()), d, k)
    {
      AdoptKeepsCounts(T(), SLOTS + h, k);
      descs := descs[d := Desc(k, 1)];
      loose := if IsResource(k) then multiset{} else loose;
    }

    /** fd_alloc_into for a new description d, then dropping the creation reference. */
    method PlaceNew(p: nat, minFd: nat, k: Kind, d: int, ghost t: Tables) returns (fd: int)
      requires Valid() && held == [d, -1] && newborn == -1 && p < MAX_PROCS && KindOk(k) && 0 <= d < MAX_FILEDESCS
      requires Shape(t) && t.owners == slots + [-1, -1] && t.descs[d] == FREE_DESC
      requires IsResource(k) ==> SlotInUse(t, k) && 0 < Recorded(t, k) < 0xffff
      requires T() == Adopt(Reserve(t, SLOTS, d), d, k)
      modifies this`slots, this`descs, this`pipes, this`udp, this`tcp, this`held
      ensures Valid() && held == [-1, -1] && fd == FirstClosed(old(slots), p, minFd)
      ensures T() == if fd < 0 then DecResource(t, k).(loose := if IsResource(k) then multiset{} else t.loose)
                     else t.(owners := t.owners[Slot(p, fd) := d], descs := t.descs[d := Desc(k, 1)],
                             loose := if IsResource(k) then multiset{} else t.loose)
      ensures slots == if fd < 0 then old(slots) else old(slots)[Slot(p, fd) := d]
    {
      hide FirstClosed, Ownership.Counted, PipeRings.Conserved, Ownership.IncResource, Ownership.DecResource,
           Ownership.IncRefs, Ownership.DecRefs, Ownership.Acquire, Ownership.Release;
      fd := FdAllocInto(p, minFd, d);
      DropHeld(d, 0);
      if fd < 0 {
        UninstallIsNoop(t, SLOTS, d, k);
      } else {
        InstallNet(t, SLOTS, Slot(p, fd), d, k);
      }
    }

    /** desc_alloc, tie the description to k, fd_alloc_into, drop the creation reference. */
    method Install(p: nat, minFd: nat, k: Kind) returns (r: int, d: int)
      requires Valid() && held == [-1, -1] && newborn == -1 && p < MAX_PROCS && KindOk(k)
      requires IsResource(k) ==> loose == multiset{k} && SlotInUse(T(), k) && 0 < Recorded(T(), k) < 0xffff
      modifies this`slots, this`descs, this`pipes, this`udp, this`tcp, this`held, this`loose
      ensures Valid() && held == [-1, -1]
      ensures d == FirstFreeDesc(old(descs))
      ensures Installed(old(T()), T(), p, minFd, k, r)
      ensures r < 0 ==> slots == old(slots)
      ensures r >= 0 ==> r < MAX_FDS && slots == old(slots)[Slot(p, r) := d]
    {
      hide FirstClosed, FirstFreeDesc, Ownership.Counted, PipeRings.Conserved, Ownership.IncResource,
           Ownership.DecResource, Ownership.IncRefs, Ownership.DecRefs;
      ghost var t := T();
      d := DescAlloc(0);
      if d < 0 { return -EMFILE, d; }
      FreeDescIsClear(t, d);
      BecomeKind(d, k, 0);
      var fd := PlaceNew(p, minFd, k, d, t);
      if fd < 0 { return -EMFILE, d; }
      return fd, d;
    }

    /** The install path shared by every successful sys_openat. */
    method Open(p: nat, k: Kind) returns (r: int)
      requires Idle() && p < MAX_PROCS
      requires k.Initramfs? || k.Ramfile? || k.ProcFs?
      modifies this`slots, this`descs, this`pipes, this`udp, this`tcp, this`held, this`loose
      ensures Idle()
      ensures OthersKeep(old(slots), slots, p)
      ensures Installed(old(T()), T(), p, 3, k, r)
    {
      hide Installed, Ownership.Counted;
      var d;
      r, d := Install(p, 3, k);
      InstalledLoose(old(T()), T(), p, 3, k, r);
    }

    method Close(p: nat, fd: nat) returns (r: int)
      requires Idle() && p < MAX_PROCS
      modifies this`slots, this`descs, this`pipes, this`udp, this`tcp
      ensures Idle()
      ensures OthersKeep(old(slots), slots, p)
      ensures CloseOutcome(old(T()), T(), p, fd, r)
    {
      hide Ownership.Counted, PipeRings.Conserved, Ownership.Release;
      if fd >= MAX_FDS { return -EBADF; }
      assert T().owners[Slot(p, fd)] == slots[Slot(p, fd)];
      var d := FdGetDesc(p, fd);
      if d < 0 { return -EBADF; }
      FdClose(p, fd);
      return 0;
    }

    /** The destination fd is closed if it was open; then it names the description
        that fd src of the same process names. */
    method Redirect(p: nat, src: nat, dst: nat)
      requires Valid() && newborn == -1 && p < MAX_PROCS && src < MAX_FDS && dst < MAX_FDS && src != dst
      requires slots[Slot(p, src)] >= 0
      modifies this`slots, this`descs, this`pipes, this`udp, this`tcp
      ensures Valid() && slots == old(slots)[Slot(p, dst) := old(slots)[Slot(p, src)]]
      ensures Redirected(old(T()), T(), Slot(p, src), Slot(p, dst))
    {
      hide Ownership.Counted, PipeRings.Conserved, Ownership.IncRefs, Ownership.DecRefs, Ownership.DescsCounted;
      var d := slots[Slot(p, src)];
      FdClose(p, dst);
      assert T().owners[Slot(p, src)] == d;
      assert descs[d].refs > 0 by {
        CountedParts(T());
        OwnedIsLive(T(), Slot(p, src));
      }
      PointSlotAt(p, dst, d);
    }

    method Dup3(p: nat, oldfd: nat, newfd: nat, flags: nat) returns (r: int)
      requires Idle() && p < MAX_PROCS
      modifies this`slots, this`descs, this`pipes, this`udp, this`tcp
      ensures Idle()
      ensures OthersKeep(old(slots), slots, p)
      ensures Dup3Outcome(old(T()), T(), p, oldfd, newfd, flags, r)
      ensures r >= 0 ==> slots == old(slots)[Slot(p, newfd) := old(slots)[Slot(p, oldfd)]]
    {
      hide Ownership.Counted, PipeRings.Conserved, Redirected;
      if flags != 0 { return -EINVAL; }
      if oldfd >= MAX_FDS || newfd >= MAX_FDS { return -EBADF; }
      assert T().owners[Slot(p, oldfd)] == slots[Slot(p, oldfd)];
      var d := FdGetDesc(p, oldfd);
      if d < 0 { return -EBADF; }
      if oldfd == newfd { return newfd; }
      Redirect(p, oldfd, newfd);
      return newfd;
    }

    // ----- sockets

    method UdpSocketAlloc() returns (s: int)
      requires Idle()
      modifies this`udp, this`loose
      ensures Valid() && s == FirstUnusedSock(old(udp), 0)
      ensures s < 0 ==> T() == old(T())
      ensures s >= 0 ==> T() == SocketBorn(old(T()), Udp6(s))
    {
      hide Ownership.Counted, PipeRings.Conserved;
      for i := 0 to MAX_UDP
        invariant T() == old(T()) && FirstUnusedSock(udp, 0) == FirstUnusedSock(udp, i)
      {
        if !udp[i].used {
          SocketBornKeepsCounts(T(), Udp6(i));
          udp := udp[i := Sock(true, 1)];
          loose := multiset{Udp6(i)};
          return i;
        }
      }
      return -1;
    }

    method TcpConnAlloc() returns (c: int)
      requires Idle()
      modifies this`tcp, this`loose
      ensures Valid() && c == FirstUnusedSock(old(tcp), 0)
      ensures c < 0 ==> T() == old(T())
      ensures c >= 0 ==> T() == SocketBorn(old(T()), Tcp6(c))
    {
      hide Ownership.Counted, PipeRings.Conserved;
      for i := 0 to MAX_TCP
        invariant T() == old(T()) && FirstUnusedSock(tcp, 0) == FirstUnusedSock(tcp, i)
      {
        if !tcp[i].used {
          SocketBornKeepsCounts(T(), Tcp6(i));
          tcp := tcp[i := Sock(true, 1)];
          loose := multiset{Tcp6(i)};
          return i;
        }
      }
      return -1;
    }

    /** sys_mona_udp6_socket. */
    method Udp6Socket(p: nat) returns (r: int)
      requires Idle() && p < MAX_PROCS
      modifies this`slots, this`descs, this`pipes, this`udp, this`tcp, this`held, this`loose
      ensures Idle()
      ensures OthersKeep(old(slots), slots, p)
      ensures UdpOpened(old(T()), T(), p, r)
    {
      hide Ownership.Counted, PipeRings.Conserved, Ownership.IncResource;
      ghost var t := T();
      var s := UdpSocketAlloc();
      if s < 0 { return -ENOMEM; }
      ghost var t1 := T();
      var d;
      r, d := Install(p, 0, Udp6(s));
      SocketNet(t, Udp6(s));
      if d < 0 {
        SocketDroppedKeepsCounts(t1, Udp6(s));
        Udp6OnDecref(s);
        loose := multiset{};
        assert T() == SocketDropped(t1, Udp6(s));
        return -EMFILE;
      }
    }

    /** An fd on a new TCP connection, or nothing at all. */
    method OpenConn(p: nat) returns (r: int, ghost d: int)
      requires Idle() && p < MAX_PROCS
      modifies this`slots, this`descs, this`pipes, this`udp, this`tcp, this`held, this`loose
      ensures Idle() && d == FirstFreeDesc(old(descs))
      ensures OthersKeep(old(slots), slots, p)
      ensures SocketOpened(old(T()), T(), p, FirstUnusedSock(old(tcp), 0) < 0,
                Tcp6(MaxZero(FirstUnusedSock(old(tcp), 0))), r)
      ensures r >= 0 ==> r < MAX_FDS && slots == old(slots)[Slot(p, r) := d]
    {
      hide Ownership.Counted, PipeRings.Conserved, Ownership.IncResource, FirstFreeDesc;
      ghost var t := T();
      d := FirstFreeDesc(descs);
      var c := TcpConnAlloc();
      if c < 0 { return -ENOMEM, d; }
      ghost var t1 := T();
      var e;
      r, e := Install(p, 0, Tcp6(c));
      SocketNet(t, Tcp6(c));
      if e < 0 {
        SocketDroppedKeepsCounts(t1, Tcp6(c));
        Tcp6OnDecref(c);
        loose := multiset{};
        assert T() == SocketDropped(t1, Tcp6(c));
        return -EMFILE, d;
      }
    }

    /** sys_mona_tcp6_connect: the descriptor is set up first; when the connection
        is not established in time (or at all) the fd is closed again. */
    method Tcp6Connect(p: nat, port: nat, addrOk: bool, established: bool, failure: int) returns (r: int)
      requires Idle() && p < MAX_PROCS && failure < 0
      modifies this`slots, this`descs, this`pipes, this`udp, this`tcp, this`held, this`loose
      ensures Idle()
      ensures OthersKeep(old(slots), slots, p)
      ensures Tcp6Outcome(old(T()), T(), p, port, addrOk, established, failure, r)
    {
      hide Ownership.Counted, PipeRings.Conserved, Ownership.Release, SocketOpened, FirstFreeDesc, FirstClosed;
      if port == 0 || port > 65535 { return -EINVAL; }
      if !addrOk { return -EFAULT; }
      ghost var t := T();
      ghost var d;
      r, d := OpenConn(p);
      SocketOpenedGives(t, T(), p, Tcp6(MaxZero(FirstUnusedSock(t.tcp, 0))), r);
      if r >= 0 && !established {
        FdClose(p, r);
        return failure;
      }
    }

    // ----- pipes

    method PipeCreate() returns (id: int)
      requires Idle()
      modifies this`pipes, this`newborn, this`streams
      ensures Valid() && id == FirstUnusedPipe(old(pipes), 0)
      ensures id < 0 ==> T() == old(T()) && streams == old(streams)
      ensures id >= 0 ==> T() == PipeBorn(old(T()), id) && streams == Restarted(old(streams), id)
    {
      hide Ownership.Counted;
      for i := 0 to MAX_PIPES
        invariant T() == old(T()) && streams == old(streams)
        invariant FirstUnusedPipe(pipes, 0) == FirstUnusedPipe(pipes, i)
      {
        if !pipes[i].used {
          PipeBornKeepsCounts(T(), i);
          pipes := pipes[i := pipes[i].(used := true, readRefs := 0, writeRefs := 0, rpos := 0, wpos := 0, count := 0)];
          newborn := i;
          streams := Restarted(streams, i);
          return i;
        }
      }
      return -1;
    }

    method PipeAbortAt(id: nat)
      requires Valid() && id < MAX_PIPES && (newborn == id || newborn == -1)
      requires pipes[id].readRefs == 0 && pipes[id].writeRefs == 0
      modifies this`pipes, this`newborn
      ensures Valid() && T() == PipeAbort(old(T()), id)
    {
      hide Ownership.Counted;
      PipeAbortKeepsCounts(T(), id);
      pipes := pipes[id := pipes[id].(used := false, readRefs := 0, writeRefs := 0, rpos := 0, wpos := 0, count := 0)];
      newborn := -1;
    }

    /** desc_clear on a description that was reserved but never tied to anything. */
    method Unreserve(d: int, ghost h: nat)
      requires Valid() && h < HELD && held[h] == d && 0 <= d < MAX_FILEDESCS && descs[d] == Desc(Unused, 1)
      modifies this`descs, this`held
      ensures Valid() && held == old(held)[h := -1]
      ensures T() == old(T()).(owners := slots + held, descs := old(descs)[d := FREE_DESC])
    {
      hide Ownership.Counted, PipeRings.Conserved;
      ReleaseKeepsCounts(T(), SLOTS + h);
      ghost var t := T();
      descs := descs[d := FREE_DESC];
      held := held[h := -1];
      assert T() == Release(t, SLOTS + h);
    }

    /** A reserved description becomes one end of pipe id, which counts it. */
    method BecomePipeEnd(d: int, id: nat, side: Side, ghost h: nat)
      requires Valid() && h < HELD && held[h] == d && 0 <= d < MAX_FILEDESCS && descs[d] == Desc(Unused, 1)
      requires id < MAX_PIPES && pipes[id].used && (newborn == id || newborn == -1) && loose == multiset{}
      modifies this`descs, this`pipes, this`loose, this`newborn
      ensures Valid() && newborn == -1 && loose == multiset{}
      ensures T() == Adopt(PipeRef(old(T()), PipeEnd(id, side)), d, PipeEnd(id, side))
      ensures descs == old(descs)[d := Desc(PipeEnd(id, side), 1)] && pipes[id].used
    {
      hide Ownership.Counted, PipeRings.Conserved;
      ghost var t := T();
      ghost var u := PipeRef(t, PipeEnd(id, side));
      PipeRefKeepsCounts(t, PipeEnd(id, side));
      AdoptKeepsCounts(u, SLOTS + h, PipeEnd(id, side));
      EndAdded(t, d, id, side);
      PipeRefKeepsBytes(t, PipeEnd(id, side), streams);
      descs := descs[d := Desc(PipeEnd(id, side), 1)];
      PipeOnIncref(id, side);
      newborn := -1;
      assert T() == Adopt(u, d, PipeEnd(id, side));
    }

    /** pipe2 runs out of descriptions: everything it took so far is given back. */
    method BackOut(id: nat, rd: int, ghost t: Tables)
      requires Valid() && id < MAX_PIPES && newborn == id && loose == multiset{}
      requires Shape(t) && t.owners == slots + [-1, -1] && t.loose == multiset{} && t.newborn == -1
      requires !t.pipes[id].used && t.pipes[id] == AbortedPipe(FreshPipe(t.pipes[id]))
      requires if rd < 0 then T() == PipeBorn(t, id)
               else rd < MAX_FILEDESCS && t.descs[rd] == FREE_DESC && T() == Reserve(PipeBorn(t, id), SLOTS, rd)
      modifies this`descs, this`pipes, this`held, this`newborn
      ensures Valid() && T() == t
    {
      hide Ownership.Counted, PipeRings.Conserved;
      if rd >= 0 {
        assert T().owners[SLOTS] == held[0] && T().owners[SLOTS + 1] == held[1];
        Unreserve(rd, 0);
        assert T().owners == t.owners;
      }
      PipeAbortAt(id);
      assert T().descs == t.descs;
    }

    /** The two descriptions of a new pipe become its ends. */
    method FillPair(id: nat, rd: nat, wr: nat, ghost t: Tables)
      requires Valid() && id < MAX_PIPES && newborn == id && loose == multiset{} && held == [rd, wr]
      requires rd < MAX_FILEDESCS && wr < MAX_FILEDESCS && rd != wr && pipes[id].used
      requires Shape(t) && t.newborn == -1 && t.loose == multiset{}
      requires T() == Reserve(Reserve(PipeBorn(t, id), SLOTS, rd), SLOTS + 1, wr)
      requires descs[rd] == Desc(Unused, 1) && descs[wr] == Desc(Unused, 1)
      requires PairIds(t, PairState(t.owners[SLOTS := rd][SLOTS + 1 := wr], rd, 1, wr, 1, id))
      modifies this`descs, this`pipes, this`loose, this`newborn
      ensures Valid() && newborn == -1 && loose == multiset{} && held == [rd, wr]
      ensures T() == PairOf(t, PairState(t.owners[SLOTS := rd][SLOTS + 1 := wr], rd, 1, wr, 1, id))
    {
      hide PairOf, PairIds, Ownership.Counted, PipeRings.Conserved, Ownership.PipeBorn, Ownership.Reserve,
           Ownership.PipeRef, Ownership.Adopt;
      PairBuilt(t, rd, wr, id);
      BecomePipeEnd(rd, id, Reader, 0);
      BecomePipeEnd(wr, id, Writer, 1);
    }

    /** pipe2 up to the point where both descriptions exist and are held. */
    method MakePair() returns (id: int, rd: int, wr: int)
      requires Idle()
      modifies this`descs, this`pipes, this`held, this`loose, this`newborn, this`streams
      ensures Valid() && newborn == -1 && loose == multiset{}
      ensures id == FirstUnusedPipe(old(pipes), 0)
      ensures streams == if id < 0 then old(streams) else Restarted(old(streams), id)
      ensures id < 0 ==> T() == old(T()) && rd < 0 && wr < 0
      ensures id >= 0 ==> rd == FirstFreeDesc(old(descs))
      ensures id >= 0 && rd >= 0 ==> wr == FirstFreeDesc(old(descs)[rd := Desc(Unused, 1)])
      ensures id >= 0 && (rd < 0 || wr < 0) ==> wr < 0 && T() == old(T())
      ensures id >= 0 && rd >= 0 && wr >= 0 ==>
                T() == PairOf(old(T()), PairState(old(T()).owners[SLOTS := rd][SLOTS + 1 := wr], rd, 1, wr, 1, id))
      ensures id >= 0 && rd >= 0 && wr >= 0 ==> held == [rd, wr]
      ensures id >= 0 && rd >= 0 && wr >= 0 ==>
                PairOk(old(T()), PairState(old(T()).owners[SLOTS := rd][SLOTS + 1 := wr], rd, 1, wr, 1, id))
    {
      hide PairOf, FirstUnusedPipe, FirstFreeDesc, Ownership.Counted, PipeRings.Conserved, Ownership.IncResource;
      ghost var t := T();
      UnusedPipesAreClear(t, streams);
      id := PipeCreate();
      if id < 0 { return -1, -1, -1; }
      hide FreshPipe, AbortedPipe;
      rd := DescAlloc(0);
      wr := DescAlloc(1);
      if rd < 0 || wr < 0 {
        if rd >= 0 { FreeDescIsClear(t, rd); }
        BackOut(id, rd, t);
        return id, rd, wr;
      }
      FillPair(id, rd, wr, t);
    }

    /** fd_alloc_into for one end of a private pipe. */
    method AllocEnd(p: nat, d: nat, ghost t: Tables, ghost u: PairState) returns (fd: int)
      requires Valid() && newborn == -1 && loose == multiset{} && p < MAX_PROCS
      requires PairOk(t, u) && T() == PairOf(t, u) && u.a > 0 && u.b > 0 && (d == u.rd || d == u.wr)
      modifies this`slots, this`descs, this`pipes, this`udp, this`tcp
      ensures Valid() && fd == FirstClosed(old(slots), p, 0)
      ensures var u' := if fd < 0 then u else u.Taken(d, Slot(p, fd));
              PairOk(t, u') && T() == PairOf(t, u')
      ensures slots == if fd < 0 then old(slots) else old(slots)[Slot(p, fd) := d]
      ensures fd >= 0 ==> old(T()).owners[Slot(p, fd)] == -1
    {
      hide Ownership.Counted, PipeRings.Conserved, Ownership.IncRefs;
      fd := FdAllocInto(p, 0, d);
      if fd >= 0 { PairTaken(t, u, Slot(p, fd)); }
      assert fd < 0 ==> slots == T().owners[..SLOTS];
    }

    /** Dropping the creation reference to one end of a private pipe. */
    method DropEnd(d: nat, ghost h: nat, ghost t: Tables, ghost u: PairState)
      requires Valid() && newborn == -1 && loose == multiset{} && h < HELD && held[h] == d
      requires (d == u.rd && u.a > 0) || (d == u.wr && u.b > 0)
      requires PairOk(t, u) && T() == PairOf(t, u)
      modifies this`descs, this`pipes, this`udp, this`tcp, this`held
      ensures Valid() && held == old(held)[h := -1]
      ensures PairOk(t, u.Given(d, SLOTS + h)) && T() == PairOf(t, u.Given(d, SLOTS + h))
    {
      hide Ownership.Counted, PipeRings.Conserved, Ownership.DecRefs;
      assert T().owners[SLOTS + h] == d;
      PairGiven(t, u, SLOTS + h);
      DropHeld(d, h);
    }

    /** Closing the only fd of one end of a private pipe. */
    method CloseEnd(p: nat, fd: nat, d: nat, ghost t: Tables, ghost u: PairState)
      requires Valid() && newborn == -1 && loose == multiset{} && p < MAX_PROCS && fd < MAX_FDS
                 && slots[Slot(p, fd)] == d
      requires (d == u.rd && u.a > 0) || (d == u.wr && u.b > 0)
      requires PairOk(t, u) && T() == PairOf(t, u)
      modifies this`slots, this`descs, this`pipes, this`udp, this`tcp
      ensures Valid() && slots == old(slots)[Slot(p, fd) := -1]
      ensures PairOk(t, u.Given(d, Slot(p, fd))) && T() == PairOf(t, u.Given(d, Slot(p, fd)))
    {
      hide Ownership.Counted, PipeRings.Conserved, Ownership.DecRefs;
      assert T().owners[Slot(p, fd)] == d;
      PairGiven(t, u, Slot(p, fd));
      FdClose(p, fd);
    }

    /** fd_alloc_into for both ends: the two lowest closed fds, the second only where there was a first. */
    method AllocPair(p: nat, rd: nat, wr: nat, ghost t: Tables, ghost u: PairState)
      returns (rfd: int, wfd: int, ghost u': PairState)
      requires Valid() && newborn == -1 && loose == multiset{} && p < MAX_PROCS
      requires PairOk(t, u) && T() == PairOf(t, u) && u.a == 1 == u.b && rd == u.rd && wr == u.wr
      modifies this`slots, this`descs, this`pipes, this`udp, this`tcp
      ensures Valid() && PairOk(t, u') && T() == PairOf(t, u')
      ensures rfd == FirstClosed(old(slots), p, 0)
      ensures rfd < 0 ==> wfd < 0 && u' == u && slots == old(slots)
      ensures rfd >= 0 ==>
                && old(T()).owners[Slot(p, rfd)] == -1
                && wfd == FirstClosed(old(slots)[Slot(p, rfd) := rd], p, 0)
                && if wfd < 0 then u' == u.Taken(rd, Slot(p, rfd)) && slots == old(slots)[Slot(p, rfd) := rd]
                   else u' == u.Taken(rd, Slot(p, rfd)).Taken(wr, Slot(p, wfd))
                        && slots == old(slots)[Slot(p, rfd) := rd][Slot(p, wfd) := wr]
    {
      hide Ownership.Counted, PipeRings.Conserved, PairOf, Ownership.Shape;
      u' := u;
      rfd := AllocEnd(p, rd, t, u);
      if rfd >= 0 { u' := u.Taken(rd, Slot(p, rfd)); }
      wfd := AllocEnd(p, wr, t, u');
      if wfd >= 0 { u' := u'.Taken(wr, Slot(p, wfd)); }
      if rfd < 0 && wfd >= 0 {
        assert false;  // no closed fd was left for the read end, so none is left for the write end
      }
    }

    /** The two ends go into the two lowest closed fds, or everything is undone. */
    method InstallPair(p: nat, id: nat, rd: nat, wr: nat, ghost t: Tables) returns (rfd: int, wfd: int)
      requires Shape(t) && t.owners == slots + [-1, -1] && |slots| == SLOTS && p < MAX_PROCS
      requires rd < MAX_FILEDESCS && wr < MAX_FILEDESCS && rd != wr && id < MAX_PIPES
      requires var u := PairState(t.owners[SLOTS := rd][SLOTS + 1 := wr], rd, 1, wr, 1, id);
               PairOk(t, u) && T() == PairOf(t, u)
      requires Valid() && newborn == -1 && loose == multiset{} && held == [rd, wr]
      modifies this`slots, this`descs, this`pipes, this`udp, this`tcp, this`held
      ensures rfd == FirstClosed(old(slots), p, 0) && wfd < MAX_FDS
      ensures rfd >= 0 ==> wfd == FirstClosed(old(slots)[Slot(p, rfd) := rd], p, 0)
      ensures T() == PairOf(t, Settled(t.owners, p, rd, wr, id, rfd, wfd))
      ensures slots == if rfd < 0 || wfd < 0 then old(slots) else old(slots)[Slot(p, rfd) := rd][Slot(p, wfd) := wr]
      ensures Valid() && held == [-1, -1]
    {
      hide PairOk, PairIds, Ownership.Counted, PipeRings.Conserved, PairOf, Ownership.Shape, FirstClosed;
      ghost var u := PairState(t.owners[SLOTS := rd][SLOTS + 1 := wr], rd, 1, wr, 1, id);
      rfd, wfd, u := AllocPair(p, rd, wr, t, u);
      DropEnd(rd, 0, t, u);
      u := u.Given(rd, SLOTS);
      DropEnd(wr, 1, t, u);
      u := u.Given(wr, SLOTS + 1);
      if rfd >= 0 && wfd >= 0 {
        BothInstalled(t.owners, rd, wr, id, Slot(p, rfd), Slot(p, wfd));
      } else if rfd >= 0 {
        CloseEnd(p, rfd, rd, t, u);
        OneGivenBack(t.owners, rd, wr, id, Slot(p, rfd));
      } else {
        NoneInstalled(t.owners, rd, wr, id);
      }
    }

    /** sys_pipe2. */
    method Pipe2(p: nat, flags: nat, bufferOk: bool) returns (r: int, rfd: int, wfd: int)
      requires Idle() && p < MAX_PROCS
      modifies this`slots, this`descs, this`pipes, this`udp, this`tcp, this`held, this`loose, this`newborn, this`streams
      ensures Idle()
      ensures OthersKeep(old(slots), slots, p)
      ensures Pipe2Outcome(old(T()), T(), p, flags, bufferOk, r, rfd, wfd)
      ensures streams == StreamsAfterPipe2(old(T()), old(streams), flags, bufferOk)
    {
      hide Ownership.Counted, PipeRings.Conserved, PairOf, FirstClosed, FirstFreeDesc, FirstUnusedPipe;
      rfd, wfd := -1, -1;
      if flags != 0 { return -ENOSYS, -1, -1; }
      if !bufferOk { return -EFAULT, -1, -1; }
      ghost var t := T();
      assert t.owners[..SLOTS] == slots;
      UnusedPipesAreClear(t, streams);
      var id, rd, wr := MakePair();
      if id < 0 || rd < 0 || wr < 0 { return -EMFILE, -1, -1; }
      rfd, wfd := InstallPair(p, id, rd, wr, t);
      if rfd < 0 || wfd < 0 {
        PairUndone(t, rd, wr, id);
        PipeAbortAt(id);
        return -EMFILE, -1, -1;
      }
      return 0, rfd, wfd;
    }

    method PointConsole(d: int)
      requires Valid() && held == [d, -1] && 0 <= d < MAX_FILEDESCS && loose == multiset{} && newborn == -1
      requires AllClosed(slots, 0) && descs[d] == Desc(Uart, 1)
      modifies this`slots, this`descs, this`pipes, this`udp, this`tcp
      ensures Valid() && T() == WithConsole(old(T()), d, 4)
    {
      hide Ownership.Counted, PipeRings.Conserved, Ownership.Acquire;
      ghost var t := T();
      for fd := 0 to 3
        invariant Valid() && descs[d] == Desc(Uart, 1 + fd)
        invariant forall x :: fd <= x < 3 ==> slots[Slot(0, x)] == -1
        invariant T().descs == t.descs[d := Desc(Uart, 1 + fd)]
        invariant T() == t.(descs := T().descs, owners := t.owners[Slot(0, 0) := if fd > 0 then d else -1]
                                                                  [Slot(0, 1) := if fd > 1 then d else -1]
                                                                  [Slot(0, 2) := if fd > 2 then d else -1])
      {
        AcquireUart(T(), Slot(0, fd), d);
        PointSlotAt(0, fd, d);
      }
    }

    /** proc_init_if_needed: one console description behind fds 0, 1 and 2 of the first process. */
    method InstallConsole()
      requires Idle() && AllClosed(slots, 0)
      modifies this`slots, this`descs, this`pipes, this`udp, this`tcp, this`held, this`loose
      ensures Idle()
      ensures var d := FirstFreeDesc(old(descs));
              T() == if d < 0 then old(T()) else WithConsole(old(T()), d, 3)
    {
      hide Ownership.Counted, PipeRings.Conserved, Ownership.Release, WithConsole, FirstFreeDesc;
      ghost var t := T();
      var d := DescAlloc(0);
      if d >= 0 {
        BecomeKind(d, Uart, 0);
        PointConsole(d);
        ConsoleNet(t, d);
        DropHeld(d, 0);
      }
    }

    // ----- whole fd tables

    /** sys_clone's loop: the child's fds name what the parent's fds name. */
    method CloneFds(parent: nat, child: nat)
      requires Idle() && parent < MAX_PROCS && child < MAX_PROCS && parent != child
      requires AllClosed(slots, child)
      modifies this`slots, this`descs, this`pipes, this`udp, this`tcp
      ensures Idle() && Inherits(old(T()), T(), parent, child)
      ensures forall fd :: 0 <= fd < MAX_FDS ==> slots[Slot(child, fd)] == old(slots)[Slot(parent, fd)]
      ensures forall q, fd :: 0 <= q < MAX_PROCS && q != child && 0 <= fd < MAX_FDS ==>
                slots[Slot(q, fd)] == old(slots)[Slot(q, fd)]
    {
      hide Ownership.Counted, PipeRings.Conserved, Ownership.Acquire;
      for fd := 0 to MAX_FDS
        invariant Idle() && OnlyCountsChange(old(T()), T())
        invariant forall x :: 0 <= x < fd ==> slots[Slot(child, x)] == old(slots)[Slot(parent, x)]
        invariant forall x :: fd <= x < MAX_FDS ==> slots[Slot(child, x)] == -1
        invariant forall q, x :: 0 <= q < MAX_PROCS && q != child && 0 <= x < MAX_FDS ==>
                    slots[Slot(q, x)] == old(slots)[Slot(q, x)]
      {
        var d := slots[Slot(parent, fd)];
        if d >= 0 {
          assert descs[d].refs > 0 by {
            CountedParts(T());
            assert T().owners[Slot(parent, fd)] == d;
            OwnedIsLive(T(), Slot(parent, fd));
          }
          AcquireOnlyCounts(T(), Slot(child, fd), d);
          PointSlotAt(child, fd, d);
        } else {
          assert d == -1 by { assert T().owners[Slot(parent, fd)] == d; }
          assert slots[Slot(child, fd) := d] == slots;
          slots := slots[Slot(child, fd) := d];
        }
      }
    }

    /** proc_close_all_fds. */
    method CloseAllFds(p: nat)
      requires Idle() && p < MAX_PROCS
      modifies this`slots, this`descs, this`pipes, this`udp, this`tcp
      ensures Idle() && Emptied(old(T()), T(), p)
      ensures AllClosed(slots, p) && (AllClosed(old(slots), p) ==> T() == old(T()))
      ensures forall q, fd :: 0 <= q < MAX_PROCS && q != p && 0 <= fd < MAX_FDS ==>
                slots[Slot(q, fd)] == old(slots)[Slot(q, fd)]
    {
      hide Ownership.Counted, PipeRings.Conserved, Ownership.Release;
      for fd := 0 to MAX_FDS
        invariant Idle() && SurvivorsKeep(old(T()), T())
        invariant AllClosed(old(slots), p) ==> T() == old(T()) && slots == old(slots)
        invariant forall x :: 0 <= x < fd ==> slots[Slot(p, x)] == -1
        invariant forall q, x :: 0 <= q < MAX_PROCS && q != p && 0 <= x < MAX_FDS ==>
                    slots[Slot(q, x)] == old(slots)[Slot(q, x)]
      {
        assert T().owners[Slot(p, fd)] == slots[Slot(p, fd)];
        if slots[Slot(p, fd)] >= 0 { ReleaseSparesSurvivors(T(), Slot(p, fd)); }
        FdClose(p, fd);
      }
    }

    // ----- bytes

    /** pipe_read. */
    method PipeRead(id: nat, len: nat, isNull: bool) returns (r: int, data: seq<byte>)
      requires Idle()
      modifies this`pipes, this`streams
      ensures Idle()
      ensures id >= MAX_PIPES || !old(pipes)[id].used || (isNull && len > 0) ==>
                r == -EBADF && data == [] && T() == old(T()) && streams == old(streams)
      ensures id < MAX_PIPES && old(pipes)[id].used && (isNull ==> len == 0) ==>
                ReadOutcome(old(T()), T(), old(streams), streams, id, len, r, data)
    {
      hide Ownership.Counted;
      data := [];
      if id >= MAX_PIPES || !pipes[id].used { return -EBADF, []; }
      var pp := pipes[id];
      assert streams.returned[id] + [] == streams.returned[id];
      if len == 0 { return 0, []; }
      if isNull { return -EBADF, []; }
      if pp.count == 0 {
        if pp.writeRefs == 0 { return 0, []; }
        return -EAGAIN, [];
      }
      var n := if len < pp.count then len else pp.count;
      var pp';
      data, pp' := Drain(pp, n);
      BytesDoNotCount(T(), id, pp');
      pipes := pipes[id := pp'];
      streams := streams.(returned := streams.returned[id := streams.returned[id] + data]);
      return n, data;
    }

    /** pipe_write. */
    method PipeWrite(id: nat, src: seq<byte>, isNull: bool) returns (r: int)
      requires Idle()
      modifies this`pipes, this`streams
      ensures Idle()
      ensures id >= MAX_PIPES || !old(pipes)[id].used || (isNull && |src| > 0) ==>
                r == -EBADF && T() == old(T()) && streams == old(streams)
      ensures id < MAX_PIPES && old(pipes)[id].used && (isNull ==> src == []) ==>
                WriteOutcome(old(T()), T(), old(streams), streams, id, src, r)
    {
      hide Ownership.Counted;
      if id >= MAX_PIPES || !pipes[id].used { return -EBADF; }
      var pp := pipes[id];
      assert streams.accepted[id] + src[..0] == streams.accepted[id];
      if |src| == 0 { return 0; }
      if isNull { return -EBADF; }
      if pp.readRefs == 0 { return -EPIPE; }
      if pp.count == PIPE_BUF { return -EAGAIN; }
      var space := PIPE_BUF - pp.count;
      var n := if |src| < space then |src| else space;
      var pp' := Fill(pp, src, n);
      BytesDoNotCount(T(), id, pp');
      pipes := pipes[id := pp'];
      streams := streams.(accepted := streams.accepted[id := streams.accepted[id] + src[..n]]);
      return n;
    }

    /** sys_read; what the console, a file or a /proc text would give is an argument. */
    method ReadFd(p: nat, fd: nat, len: nat, bufferOk: bool, other: int) returns (r: int, data: seq<byte>)
      requires Idle() && p < MAX_PROCS
      modifies this`pipes, this`streams
      ensures Idle()
      ensures ReadFdOutcome(old(T()), T(), old(streams), streams, p, fd, len, bufferOk, other, r, data)
      // a read of at least one byte from a pipe returns 0 exactly at the end of the stream
      ensures fd < MAX_FDS && IsEnd(KindAt(descs, slots[Slot(p, fd)]), Reader) && bufferOk && len > 0 ==>
                var id := KindAt(descs, slots[Slot(p, fd)]).id;
                && id < MAX_PIPES
                && (r == 0 <==> old(streams).returned[id] == old(streams).accepted[id]
                                && !SomeoneHolds(slots, descs, PipeEnd(id, Writer)))
    {
      hide Ownership.Counted, PipeRings.Conserved;
      data := [];
      var d := FdGetDesc(p, fd);
      if d < 0 { return -EBADF, []; }
      assert T().owners[Slot(p, fd)] == d;
      if len > 0 && !bufferOk { return -EFAULT, []; }
      if len == 0 { return 0, []; }
      if IsEnd(descs[d].kind, Reader) {
        var id := descs[d].kind.id;
        LiveDescIsNeeded(T(), d);
        CountMeansHeld(T(), slots, PipeEnd(id, Writer));
        r, data := PipeRead(id, len, false);
      } else {
        r := ReadAnswer(descs[d].kind, other);
      }
    }

    /** sys_write; what a file would answer is an argument. */
    method WriteFd(p: nat, fd: nat, src: seq<byte>, isNull: bool, other: int) returns (r: int)
      requires Idle() && p < MAX_PROCS
      modifies this`pipes, this`streams
      ensures Idle()
      ensures WriteFdOutcome(old(T()), T(), old(streams), streams, p, fd, src, isNull, other, r)
      // a write of at least one byte to a pipe gets EPIPE exactly when nobody can ever read it
      ensures fd < MAX_FDS && IsEnd(KindAt(descs, slots[Slot(p, fd)]), Writer) && !isNull && |src| > 0 ==>
                (r == -EPIPE <==> !SomeoneHolds(slots, descs, PipeEnd(KindAt(descs, slots[Slot(p, fd)]).id, Reader)))
    {
      hide Ownership.Counted;
      var d := FdGetDesc(p, fd);
      if d < 0 { return -EBADF; }
      assert T().owners[Slot(p, fd)] == d;
      if IsEnd(descs[d].kind, Writer) {
        var id := descs[d].kind.id;
        LiveDescIsNeeded(T(), d);
        CountMeansHeld(T(), slots, PipeEnd(id, Reader));
        r := PipeWrite(id, src, isNull);
      } else {
        r := WriteAnswer(descs[d].kind, |src|, other);
      }
    }
  }

  /** The outcome of installing a new k in process p: the lowest free description
      in the lowest closed fd, or EMFILE with nothing new left behind. */
  ghost predicate Installed(t: Tables, t': Tables, p: nat, minFd: nat, k: Kind, r: int)
    requires Shape(t) && p < MAX_PROCS && KindOk(k)
  {
    var d, fd := FirstFreeDesc(t.descs), FirstClosed(t.owners[..SLOTS], p, minFd);
    if d < 0 then
      r == -EMFILE && t' == t
    else if fd < 0 then
      r == -EMFILE && t' == DecResource(t, k).(loose := if IsResource(k) then multiset{} else t.loose)
    else
      && r == fd
      && t' == t.(owners := t.owners[Slot(p, fd) := d], descs := t.descs[d := Desc(k, 1)],
                  loose := if IsResource(k) then multiset{} else t.loose)
  }

  lemma InstalledLoose(t: Tables, t': Tables, p: nat, minFd: nat, k: Kind, r: int)
    requires Shape(t) && p < MAX_PROCS && KindOk(k) && !IsResource(k) && Installed(t, t', p, minFd, k, r)
    ensures t'.loose == t.loose && t'.newborn == t.newborn
  {
  }

  ghost predicate CloseOutcome(t: Tables, t': Tables, p: nat, fd: nat, r: int)
    requires Shape(t) && p < MAX_PROCS
  {
    if DescAt(t, p, fd) < 0 then r == -EBADF && t' == t else r == 0 && t' == Release(t, Slot(p, fd))
  }

  ghost predicate Dup3Outcome(t: Tables, t': Tables, p: nat, oldfd: nat, newfd: nat, flags: nat, r: int)
    requires Shape(t) && p < MAX_PROCS
  {
    if flags != 0 then r == -EINVAL && t' == t
    else if DescAt(t, p, oldfd) < 0 || newfd >= MAX_FDS then r == -EBADF && t' == t
    else
      && r == newfd
      && if oldfd == newfd then t' == t else Redirected(t, t', Slot(p, oldfd), Slot(p, newfd))
  }

  /** The first three fds of the first process name console description d, which has refs references. */
  function WithConsole(t: Tables, d: nat, refs: nat): Tables
    requires Shape(t) && d < MAX_FILEDESCS
  {
    t.(owners := t.owners[Slot(0, 0) := d][Slot(0, 1) := d][Slot(0, 2) := d], descs := t.descs[d := Desc(Uart, refs)])
  }

  lemma AcquireUart(t: Tables, i: nat, d: nat)
    requires Shape(t) && i < OWNERS && d < MAX_FILEDESCS && t.descs[d].kind == Uart
    ensures Acquire(t, i, d) == t.(owners := t.owners[i := d], descs := t.descs[d := Desc(Uart, t.descs[d].refs + 1)])
  {
  }

  /** The creation reference of the console dropped again, three references remain. */
  lemma ConsoleNet(t: Tables, d: nat)
    requires Shape(t) && d < MAX_FILEDESCS && t.owners[SLOTS] == -1
    ensures var c := WithConsole(Adopt(Reserve(t, SLOTS, d), d, Uart), d, 4);
            Shape(c) && c.owners[SLOTS] == d && Release(c, SLOTS) == WithConsole(t, d, 3)
  {
    var c := WithConsole(Adopt(Reserve(t, SLOTS, d), d, Uart), d, 4);
    assert Release(c, SLOTS).owners == WithConsole(t, d, 3).owners;
  }

  /** Owner i is closed if it was open, then names what owner src names. */
  ghost predicate Redirected(t: Tables, t': Tables, src: nat, i: nat)
    requires Shape(t) && src < OWNERS && i < OWNERS && t.owners[src] >= 0
  {
    var u := if t.owners[i] >= 0 then Release(t, i) else t;
    Shape(u) && t' == Acquire(u, i, t.owners[src])
  }

  lemma PipeRefKeepsBytes(t: Tables, k: Kind, s: Streams)
    requires Shape(t) && Conserved(t.pipes, s)
    ensures Conserved(PipeRef(t, k).pipes, s)
  {
  }

  /** A private pipe id: description rd, its read end, has a references and wr, its
      write end, has b; owners says where they are. */
  datatype PairState = PairState(owners: seq<int>, rd: nat, a: nat, wr: nat, b: nat, id: nat) {
    function Taken(d: nat, i: nat): PairState
      requires i < |owners|
    {
      if d == rd then this.(owners := owners[i := d], a := a + 1) else this.(owners := owners[i := d], b := b + 1)
    }

    function Given(d: nat, i: nat): PairState
      requires i < |owners| && (if d == rd then a > 0 else b > 0)
    {
      if d == rd then this.(owners := owners[i := -1], a := a - 1) else this.(owners := owners[i := -1], b := b - 1)
    }
  }

  /** The pipe once its creation references are dropped: each end in its fd, or neither anywhere. */
  function Settled(owners: seq<int>, p: nat, rd: nat, wr: nat, id: nat, rfd: int, wfd: int): PairState
    requires |owners| == OWNERS && p < MAX_PROCS && rfd < MAX_FDS && wfd < MAX_FDS
  {
    if rfd < 0 || wfd < 0 then PairState(owners, rd, 0, wr, 0, id)
    else PairState(owners[Slot(p, rfd) := rd][Slot(p, wfd) := wr], rd, 1, wr, 1, id)
  }

  predicate PairIds(t: Tables, u: PairState) {
    Shape(t) && u.rd < MAX_FILEDESCS && u.wr < MAX_FILEDESCS && u.rd != u.wr && u.id < MAX_PIPES
  }

  predicate PairOk(t: Tables, u: PairState) {
    && PairIds(t, u)
    && |u.owners| == OWNERS && (forall i :: 0 <= i < OWNERS ==> -1 <= u.owners[i] < MAX_FILEDESCS)
  }

  /** t with the private pipe u added. */
  function PairOf(t: Tables, u: PairState): (t': Tables)
    requires PairIds(t, u)
    ensures PairOk(t, u) ==> Shape(t')
  {
    t.(owners := u.owners,
       descs := t.descs[u.rd := PairEnd(u.id, Reader, u.a)][u.wr := PairEnd(u.id, Writer, u.b)],
       pipes := t.pipes[u.id := t.pipes[u.id].(used := u.a + u.b > 0, readRefs := u.a, writeRefs := u.b,
                                               rpos := 0, wpos := 0, count := 0)])
  }

  function PairEnd(id: nat, side: Side, n: nat): Desc {
    if n == 0 then FREE_DESC else Desc(PipeEnd(id, side), n)
  }

  /** A successful pipe2: the two lowest closed fds, the two lowest free descriptions
      and the lowest unused pipe, each end referenced exactly once. */
  ghost predicate PipeOpened(t: Tables, t': Tables, p: nat, rfd: int, wfd: int)
    requires Shape(t) && p < MAX_PROCS
  {
    var rd, id, fd0 := FirstFreeDesc(t.descs), FirstUnusedPipe(t.pipes, 0), FirstClosed(t.owners[..SLOTS], p, 0);
    if rd < 0 || id < 0 || fd0 < 0 then false else
    var wr := FirstFreeDesc(t.descs[rd := Desc(Unused, 1)]);
    var fd1 := FirstClosed(t.owners[..SLOTS][Slot(p, fd0) := rd], p, 0);
    && wr >= 0 && fd1 >= 0 && rfd == fd0 && wfd == fd1
    && t' == PairOf(t, PairState(t.owners[Slot(p, rfd) := rd][Slot(p, wfd) := wr], rd, 1, wr, 1, id))
  }

  /** pipe2 starts a new lifetime of the lowest unused pipe, even when it fails later on.  The histories
      of all other pipes, and so of every pipe in use, are as before. */
  function StreamsAfterPipe2(t: Tables, s: Streams, flags: nat, bufferOk: bool): (s': Streams)
    requires Shape(t) && PerSlot(s)
    ensures PerSlot(s') && Extends(s, s')
    ensures forall i :: 0 <= i < MAX_PIPES && t.pipes[i].used ==>
              s'.born[i] == s.born[i] && s'.accepted[i] == s.accepted[i] && s'.returned[i] == s.returned[i]
  {
    var id := FirstUnusedPipe(t.pipes, 0);
    if flags != 0 || !bufferOk || id < 0 then s else Restarted(s, id)
  }

  /** Everything pipe2 can answer; every failure leaves all tables as they were. */
  ghost predicate Pipe2Outcome(t: Tables, t': Tables, p: nat, flags: nat, bufferOk: bool, r: int, rfd: int, wfd: int)
    requires Shape(t) && p < MAX_PROCS
  {
    if flags != 0 then r == -ENOSYS && t' == t
    else if !bufferOk then r == -EFAULT && t' == t
    else if NoRoomForPipe(t, p) then r == -EMFILE && t' == t
    else r == 0 && PipeOpened(t, t', p, rfd, wfd)
  }

  ghost predicate NoRoomForPipe(t: Tables, p: nat)
    requires Shape(t) && p < MAX_PROCS
  {
    var rd, id, fd0 := FirstFreeDesc(t.descs), FirstUnusedPipe(t.pipes, 0), FirstClosed(t.owners[..SLOTS], p, 0);
    if rd < 0 || id < 0 || fd0 < 0 then true else
    FirstFreeDesc(t.descs[rd := Desc(Unused, 1)]) < 0 || FirstClosed(t.owners[..SLOTS][Slot(p, fd0) := rd], p, 0) < 0
  }

  lemma UnusedPipesAreClear(t: Tables, s: Streams)
    requires Counted(t) && t.newborn == -1 && Conserved(t.pipes, s)
    ensures forall id :: 0 <= id < MAX_PIPES && !t.pipes[id].used ==> t.pipes[id] == AbortedPipe(FreshPipe(t.pipes[id]))
  {
    forall id | 0 <= id < MAX_PIPES && !t.pipes[id].used
      ensures t.pipes[id] == AbortedPipe(FreshPipe(t.pipes[id]))
    {
      assert ResourceCounted(t, PipeEnd(id, Reader)) && ResourceCounted(t, PipeEnd(id, Writer));
    }
  }

  /** References to the ends of a private pipe come and go one at a time. */
  lemma PairTaken(t: Tables, u: PairState, i: nat)
    requires PairOk(t, u) && i < OWNERS
    ensures u.a > 0 ==> Acquire(PairOf(t, u), i, u.rd) == PairOf(t, u.Taken(u.rd, i))
    ensures u.b > 0 ==> Acquire(PairOf(t, u), i, u.wr) == PairOf(t, u.Taken(u.wr, i))
  {
  }

  lemma PairGiven(t: Tables, u: PairState, i: nat)
    requires PairOk(t, u) && i < OWNERS
    ensures u.a > 0 && u.owners[i] == u.rd ==> Release(PairOf(t, u), i) == PairOf(t, u.Given(u.rd, i))
    ensures u.b > 0 && u.owners[i] == u.wr ==> Release(PairOf(t, u), i) == PairOf(t, u.Given(u.wr, i))
  {
  }

  /** Where the references are when the creation references of both ends are dropped. */
  lemma BothInstalled(owners: seq<int>, rd: nat, wr: nat, id: nat, i: nat, j: nat)
    requires |owners| == OWNERS && owners[SLOTS] == -1 == owners[SLOTS + 1] && rd != wr && i < SLOTS && j < SLOTS
    ensures var u := PairState(owners[SLOTS := rd][SLOTS + 1 := wr], rd, 1, wr, 1, id);
            u.Taken(rd, i).Taken(wr, j).Given(rd, SLOTS).Given(wr, SLOTS + 1)
            == PairState(owners[i := rd][j := wr], rd, 1, wr, 1, id)
  {
    var u := PairState(owners[SLOTS := rd][SLOTS + 1 := wr], rd, 1, wr, 1, id);
    assert u.Taken(rd, i).Taken(wr, j).Given(rd, SLOTS).Given(wr, SLOTS + 1).owners == owners[i := rd][j := wr];
  }

  lemma OneGivenBack(owners: seq<int>, rd: nat, wr: nat, id: nat, i: nat)
    requires |owners| == OWNERS && owners[SLOTS] == -1 == owners[SLOTS + 1] && rd != wr && i < SLOTS && owners[i] == -1
    ensures var u := PairState(owners[SLOTS := rd][SLOTS + 1 := wr], rd, 1, wr, 1, id);
            u.Taken(rd, i).Given(rd, SLOTS).Given(wr, SLOTS + 1).Given(rd, i) == PairState(owners, rd, 0, wr, 0, id)
  {
    var u := PairState(owners[SLOTS := rd][SLOTS + 1 := wr], rd, 1, wr, 1, id);
    assert u.Taken(rd, i).Given(rd, SLOTS).Given(wr, SLOTS + 1).Given(rd, i).owners == owners;
  }

  lemma NoneInstalled(owners: seq<int>, rd: nat, wr: nat, id: nat)
    requires |owners| == OWNERS && owners[SLOTS] == -1 == owners[SLOTS + 1] && rd != wr
    ensures var u := PairState(owners[SLOTS := rd][SLOTS + 1 := wr], rd, 1, wr, 1, id);
            u.Given(rd, SLOTS).Given(wr, SLOTS + 1) == PairState(owners, rd, 0, wr, 0, id)
  {
    var u := PairState(owners[SLOTS := rd][SLOTS + 1 := wr], rd, 1, wr, 1, id);
    assert u.Given(rd, SLOTS).Given(wr, SLOTS + 1).owners == owners;
  }

  lemma PairUndone(t: Tables, rd: nat, wr: nat, id: nat)
    requires Counted(t) && t.newborn == -1
    requires rd < MAX_FILEDESCS && wr < MAX_FILEDESCS && rd != wr && t.descs[rd].refs == 0 && t.descs[wr].refs == 0
    requires id < MAX_PIPES && t.pipes[id] == AbortedPipe(FreshPipe(t.pipes[id]))
    ensures PairOf(t, PairState(t.owners, rd, 0, wr, 0, id)) == t == PipeAbort(t, id)
  {
  }

  lemma PairBuilt(t: Tables, rd: nat, wr: nat, id: nat)
    requires Shape(t) && rd < MAX_FILEDESCS && wr < MAX_FILEDESCS && rd != wr && id < MAX_PIPES
    requires t.loose == multiset{} && t.newborn == -1
    ensures var kr, kw := PipeEnd(id, Reader), PipeEnd(id, Writer);
            var b := Reserve(Reserve(PipeBorn(t, id), SLOTS, rd), SLOTS + 1, wr);
            && Shape(b)
            && Shape(PipeRef(b, kr))
            && Shape(Adopt(PipeRef(b, kr), rd, kr))
            && Shape(PipeRef(Adopt(PipeRef(b, kr), rd, kr), kw))
            && Adopt(PipeRef(Adopt(PipeRef(b, kr), rd, kr), kw), wr, kw)
               == PairOf(t, PairState(t.owners[SLOTS := rd][SLOTS + 1 := wr], rd, 1, wr, 1, id))
  {
    hide Adopt, PipeRef;
    var b := Reserve(Reserve(PipeBorn(t, id), SLOTS, rd), SLOTS + 1, wr);
    EndAdded(b, rd, id, Reader);
    EndAdded(Adopt(PipeRef(b, PipeEnd(id, Reader)), rd, PipeEnd(id, Reader)), wr, id, Writer);
  }

  /** A reserved description becomes an end of pipe id, which counts it. */
  lemma EndAdded(t: Tables, d: nat, id: nat, side: Side)
    requires Shape(t) && d < MAX_FILEDESCS && id < MAX_PIPES && t.pipes[id].used
    ensures var k, p := PipeEnd(id, side), t.pipes[id];
            && Shape(PipeRef(t, k)) && Shape(Adopt(PipeRef(t, k), d, k))
            && Adopt(PipeRef(t, k), d, k) ==
               t.(descs := t.descs[d := Desc(k, 1)], loose := multiset{}, newborn := -1,
                  pipes := t.pipes[id := if side == Reader then p.(readRefs := p.readRefs + 1)
                                   else p.(writeRefs := p.writeRefs + 1)])
  {
  }

  /** No fd of a process other than p changes. */
  predicate OthersKeep(slots: seq<int>, slots': seq<int>, p: nat)
    requires |slots| >= SLOTS && |slots'| >= SLOTS
  {
    forall q, fd :: 0 <= q < MAX_PROCS && q != p && 0 <= fd < MAX_FDS ==> slots'[Slot(q, fd)] == slots[Slot(q, fd)]
  }

  /** The state of one pipe or socket, said in terms of fd slots only. */
  ghost predicate InUseByHolders(t: Tables, slots: seq<int>, k: Kind)
    requires Shape(t) && IsResource(k)
  {
    && Recorded(t, k) == multiset(Kinds(slots, t.descs))[k]
    && (SlotInUse(t, k) <==>
          if k.PipeEnd? then
            SomeoneHolds(slots, t.descs, PipeEnd(k.id, Reader)) || SomeoneHolds(slots, t.descs, PipeEnd(k.id, Writer))
          else SomeoneHolds(slots, t.descs, k))
  }

  lemma PipeUse(t: Tables, id: nat)
    requires Counted(t) && t.newborn == -1 && id < MAX_PIPES
    ensures t.pipes[id].used <==> t.pipes[id].readRefs > 0 || t.pipes[id].writeRefs > 0
  {
    assert ResourceCounted(t, PipeEnd(id, Reader)) && ResourceCounted(t, PipeEnd(id, Writer));
  }

  lemma RecordedInSlots(t: Tables, slots: seq<int>, k: Kind)
    requires Counted(t) && t.loose == multiset{} && t.owners == slots + [-1, -1] && |slots| == SLOTS && IsResource(k)
    ensures Recorded(t, k) == multiset(Kinds(slots, t.descs))[k]
  {
    assert ResourceCounted(t, k);
    assert Kinds(t.owners, t.descs) == Kinds(slots, t.descs) + [Unused, Unused];
  }

  lemma IdleResource(t: Tables, slots: seq<int>, k: Kind)
    requires Counted(t) && t.loose == multiset{} && t.newborn == -1 && |slots| == SLOTS && t.owners == slots + [-1, -1]
    requires IsResource(k)
    ensures InUseByHolders(t, slots, k)
  {
    hide Counted, SomeoneHolds, Kinds;
    CountMeansHeld(t, slots, k);
    RecordedInSlots(t, slots, k);
    if k.PipeEnd? {
      PipeUse(t, k.id);
      CountMeansHeld(t, slots, PipeEnd(k.id, Reader));
      CountMeansHeld(t, slots, PipeEnd(k.id, Writer));
    }
  }

  /** Between system calls the counts are counts of fd slots, and nothing else. */
  lemma IdleCounts(t: Tables, slots: seq<int>)
    requires Counted(t) && t.loose == multiset{} && t.newborn == -1 && |slots| == SLOTS && t.owners == slots + [-1, -1]
    ensures forall d :: 0 <= d < MAX_FILEDESCS ==> t.descs[d].refs == multiset(slots)[d]
    ensures forall k :: IsResource(k) ==> InUseByHolders(t, slots, k)
  {
    hide ResourceCounted, InUseByHolders;
    assert multiset(t.owners) == multiset(slots) + multiset([-1, -1]);
    forall k | IsResource(k)
      ensures InUseByHolders(t, slots, k)
    {
      IdleResource(t, slots, k);
    }
  }

  predicate AllClosed(slots: seq<int>, p: nat)
    requires |slots| >= SLOTS && p < MAX_PROCS
  {
    forall fd :: 0 <= fd < MAX_FDS ==> slots[Slot(p, fd)] == -1
  }

  predicate SameRing(p: Pipe, q: Pipe) {
    p.buf == q.buf && p.rpos == q.rpos && p.wpos == q.wpos && p.count == q.count
  }

  /** Descriptions, pipes and sockets are the same ones with the same contents; only their counts moved. */
  predicate OnlyCountsChange(t: Tables, t': Tables)
    requires Shape(t) && Shape(t')
  {
    && (forall d :: 0 <= d < MAX_FILEDESCS ==> t'.descs[d].kind == t.descs[d].kind)
    && (forall i :: 0 <= i < MAX_PIPES ==> SameRing(t'.pipes[i], t.pipes[i]) && t'.pipes[i].used == t.pipes[i].used)
    && (forall i :: 0 <= i < MAX_UDP ==> t'.udp[i].used == t.udp[i].used)
    && (forall i :: 0 <= i < MAX_TCP ==> t'.tcp[i].used == t.tcp[i].used)
  }

  /** Whatever is still referenced is the same as before; nothing new appears. */
  predicate SurvivorsKeep(t: Tables, t': Tables)
    requires Shape(t) && Shape(t')
  {
    && (forall d :: 0 <= d < MAX_FILEDESCS && t'.descs[d].refs > 0 ==>
          t'.descs[d].kind == t.descs[d].kind && t.descs[d].refs > 0)
    && (forall i :: 0 <= i < MAX_PIPES && t'.pipes[i].used ==> SameRing(t'.pipes[i], t.pipes[i]) && t.pipes[i].used)
    && (forall i :: 0 <= i < MAX_UDP && t'.udp[i].used ==> t.udp[i].used)
    && (forall i :: 0 <= i < MAX_TCP && t'.tcp[i].used ==> t.tcp[i].used)
  }

  lemma AcquireOnlyCounts(t: Tables, i: nat, d: nat)
    requires Shape(t) && i < OWNERS && d < MAX_FILEDESCS
    ensures Shape(Acquire(t, i, d)) && OnlyCountsChange(t, Acquire(t, i, d))
  {
  }

  lemma ReleaseSparesSurvivors(t: Tables, i: nat)
    requires Shape(t) && i < OWNERS && t.owners[i] >= 0
    ensures Shape(Release(t, i)) && SurvivorsKeep(t, Release(t, i))
  {
  }

  /** The child's fds name what the parent's fds name, and nothing else moved. */
  ghost predicate Inherits(t: Tables, t': Tables, parent: nat, child: nat)
    requires Shape(t) && Shape(t') && parent < MAX_PROCS && child < MAX_PROCS
  {
    && OnlyCountsChange(t, t') && OthersKeep(t.owners, t'.owners, child)
    && forall fd :: 0 <= fd < MAX_FDS ==> t'.owners[Slot(child, fd)] == t.owners[Slot(parent, fd)]
  }

  /** No fd of process p is open any more; whatever others still hold is as before, and so is
      everything if p had no fd open. */
  ghost predicate Emptied(t: Tables, t': Tables, p: nat)
    requires Shape(t) && Shape(t') && p < MAX_PROCS
  {
    && SurvivorsKeep(t, t') && OthersKeep(t.owners, t'.owners, p) && AllClosed(t'.owners, p)
    && (AllClosed(t.owners, p) ==> t' == t)
  }

  /** Only the ring of pipe id differs. */
  predicate OnlyRing(t: Tables, t': Tables, id: nat)
    requires Shape(t) && Shape(t') && id < MAX_PIPES
  {
    var p := t'.pipes[id];
    t' == t.(pipes := t.pipes[id := t.pipes[id].(rpos := p.rpos, wpos := p.wpos, count := p.count, buf := p.buf)])
  }

  /** What a read of len bytes from live pipe id does, in terms of the pipe's byte histories. */
  ghost predicate ReadOutcome(t: Tables, t': Tables, s: Streams, s': Streams, id: nat, len: nat, r: int,
                              data: seq<byte>)
    requires Shape(t) && Shape(t') && id < MAX_PIPES && PerSlot(s)
  {
    var left := |s.accepted[id]| - |s.returned[id]|;
    && OnlyRing(t, t', id)
    && s' == s.(returned := s.returned[id := s.returned[id] + data])
    && s.returned[id] + data <= s.accepted[id]
    && (data == [] ==> t' == t && s' == s)
    && r == (if len == 0 then 0
             else if left > 0 then |data|
             else if t.pipes[id].writeRefs == 0 then 0 else -EAGAIN)
    && |data| == if len < left then len else left
  }

  ghost predicate WriteOutcome(t: Tables, t': Tables, s: Streams, s': Streams, id: nat, src: seq<byte>, r: int)
    requires Shape(t) && Shape(t') && id < MAX_PIPES && PerSlot(s)
  {
    var room := PIPE_BUF - (|s.accepted[id]| - |s.returned[id]|);
    && OnlyRing(t, t', id)
    && (r <= 0 ==> t' == t && s' == s)
    && (r >= 0 ==> r <= |src| && s' == s.(accepted := s.accepted[id := s.accepted[id] + src[..r]]))
    && r == (if |src| == 0 then 0
             else if t.pipes[id].readRefs == 0 then -EPIPE
             else if room == 0 then -EAGAIN
             else if |src| < room then |src| else room)
  }

  /** What sys_read answers on a description that is not a pipe's read end. */
  function ReadAnswer(k: Kind, other: int): int {
    match k
    case Uart => other
    case Ramfile(_) => other
    case ProcFs(node) => if 2 <= node <= 4 then other else -EBADF
    case Initramfs(isDir) => if isDir then -EINVAL else other
    case _ => -EBADF
  }

  /** ... and sys_write on one that is not a pipe's write end. */
  function WriteAnswer(k: Kind, len: nat, other: int): int {
    match k
    case Uart => len
    case Ramfile(_) => other
    case _ => -EBADF
  }

  /** The description behind an fd, or -1. */
  function DescAt(t: Tables, p: nat, fd: nat): int
    requires Shape(t) && p < MAX_PROCS
  {
    if fd < MAX_FDS then t.owners[Slot(p, fd)] else -1
  }

  ghost predicate ReadFdOutcome(t: Tables, t': Tables, s: Streams, s': Streams, p: nat, fd: nat, len: nat,
                                bufferOk: bool, other: int, r: int, data: seq<byte>)
    requires Shape(t) && Shape(t') && p < MAX_PROCS && PerSlot(s)
  {
    var d := DescAt(t, p, fd);
    var k := KindAt(t.descs, d);
    if IsEnd(k, Reader) && len > 0 && bufferOk then
      k.id < MAX_PIPES && ReadOutcome(t, t', s, s', k.id, len, r, data)
    else
      && t' == t && s' == s && data == []
      && r == if d < 0 then -EBADF else if len == 0 then 0 else if !bufferOk then -EFAULT else ReadAnswer(k, other)
  }

  ghost predicate WriteFdOutcome(t: Tables, t': Tables, s: Streams, s': Streams, p: nat, fd: nat, src: seq<byte>,
                                 isNull: bool, other: int, r: int)
    requires Shape(t) && Shape(t') && p < MAX_PROCS && PerSlot(s)
  {
    var d := DescAt(t, p, fd);
    var k := KindAt(t.descs, d);
    if IsEnd(k, Writer) && (isNull ==> src == []) then
      k.id < MAX_PIPES && WriteOutcome(t, t', s, s', k.id, src, r)
    else
      t' == t && s' == s && r == if d < 0 then -EBADF else WriteAnswer(k, |src|, other)
  }

  lemma ReadExtends(t: Tables, t': Tables, s: Streams, s': Streams, p: nat, fd: nat, len: nat,
                    bufferOk: bool, other: int, r: int, data: seq<byte>)
    requires Shape(t) && Shape(t') && p < MAX_PROCS && PerSlot(s)
    requires ReadFdOutcome(t, t', s, s', p, fd, len, bufferOk, other, r, data)
    ensures PerSlot(s') && Extends(s, s')
  {
    hide OnlyRing;
  }

  lemma WriteExtends(t: Tables, t': Tables, s: Streams, s': Streams, p: nat, fd: nat, src: seq<byte>,
                     isNull: bool, other: int, r: int)
    requires Shape(t) && Shape(t') && p < MAX_PROCS && PerSlot(s)
    requires WriteFdOutcome(t, t', s, s', p, fd, src, isNull, other, r)
    ensures PerSlot(s') && Extends(s, s')
  {
    hide OnlyRing;
  }

  lemma BytesDoNotCount(t: Tables, id: nat, p: Pipe)
    requires Counted(t) && id < MAX_PIPES
    requires p.used == t.pipes[id].used && p.readRefs == t.pipes[id].readRefs && p.writeRefs == t.pipes[id].writeRefs
    ensures Counted(t.(pipes := t.pipes[id := p]))
  {
    var t' := t.(pipes := t.pipes[id := p]);
    forall j | IsResource(j)
      ensures ResourceCounted(t', j)
    {
      assert ResourceCounted(t, j);
    }
  }

  /** Some fd of some process is open on k. */
  ghost predicate SomeoneHolds(slots: seq<int>, descs: seq<Desc>, k: Kind) {
    exists i :: 0 <= i < |slots| && KindAt(descs, slots[i]) == k
  }

  /** The kernel's count of a resource is positive exactly when some process has it open. */
  lemma CountMeansHeld(t: Tables, slots: seq<int>, k: Kind)
    requires Counted(t) && t.loose == multiset{} && t.owners == slots + [-1, -1] && |slots| == SLOTS
    requires IsResource(k)
    ensures Recorded(t, k) == 0 <==> !SomeoneHolds(slots, t.descs, k)
    ensures !k.PipeEnd? ==> (SlotInUse(t, k) <==> SomeoneHolds(slots, t.descs, k))
  {
    assert ResourceCounted(t, k);
    var ks := Kinds(t.owners, t.descs);
    if Recorded(t, k) > 0 {
      assert k in multiset(ks);
      var i :| 0 <= i < |ks| && ks[i] == k;
      assert t.owners[i] != -1;
      assert KindAt(t.descs, slots[i]) == k;
    }
    if SomeoneHolds(slots, t.descs, k) {
      var i :| 0 <= i < |slots| && KindAt(t.descs, slots[i]) == k;
      assert ks[i] == k;
      assert k in multiset(ks);
    }
  }

  predicate IsEnd(k: Kind, side: Side) {
    k.PipeEnd? && k.side == side
  }

  function MaxZero(x: int): nat { if x < 0 then 0 else x }

  /** The outcome of opening a socket of kind k (a slot of its table that was not
      in use): one fd, one description, one reference - or nothing at all. */
  ghost predicate SocketOpened(t: Tables, t': Tables, p: nat, full: bool, k: Kind, r: int)
    requires Shape(t) && p < MAX_PROCS && IsResource(k) && !k.PipeEnd?
  {
    var d, fd := FirstFreeDesc(t.descs), FirstClosed(t.owners[..SLOTS], p, 0);
    if full then r == -ENOMEM && t' == t
    else if d < 0 || fd < 0 then r == -EMFILE && t' == t
    else r == fd && t' == SocketBorn(t, k).(owners := t.owners[Slot(p, fd) := d],
                                            descs := t.descs[d := Desc(k, 1)], loose := multiset{})
  }

  ghost predicate UdpOpened(t: Tables, t': Tables, p: nat, r: int)
    requires Shape(t) && p < MAX_PROCS
  {
    var s := FirstUnusedSock(t.udp, 0);
    SocketOpened(t, t', p, s < 0, Udp6(MaxZero(s)), r)
  }

  /** Connecting: bad arguments first, then an fd on the new connection - which goes
      away without a trace when the connection is not established. */
  ghost predicate Tcp6Outcome(t: Tables, t': Tables, p: nat, port: nat, addrOk: bool, established: bool,
                              failure: int, r: int)
    requires Shape(t) && p < MAX_PROCS
  {
    var c := FirstUnusedSock(t.tcp, 0);
    if port == 0 || port > 65535 then r == -EINVAL && t' == t
    else if !addrOk then r == -EFAULT && t' == t
    else if established then SocketOpened(t, t', p, c < 0, Tcp6(MaxZero(c)), r)
    else
      && t' == t
      && r == if c < 0 then -ENOMEM
              else if FirstFreeDesc(t.descs) < 0 || FirstClosed(t.owners[..SLOTS], p, 0) < 0 then -EMFILE
              else failure
  }

  /** What an opened socket comes to: errors leave the tables alone, and closing its fd undoes it. */
  lemma SocketOpenedGives(t: Tables, t': Tables, p: nat, k: Kind, r: int)
    requires Shape(t) && Counted(t) && t.loose == multiset{} && p < MAX_PROCS && IsResource(k) && !k.PipeEnd?
    requires k == Tcp6(MaxZero(FirstUnusedSock(t.tcp, 0)))
    requires SocketOpened(t, t', p, FirstUnusedSock(t.tcp, 0) < 0, k, r)
    ensures var full := FirstUnusedSock(t.tcp, 0) < 0;
            var d, fd := FirstFreeDesc(t.descs), FirstClosed(t.owners[..SLOTS], p, 0);
            && (full ==> r == -ENOMEM && t' == t)
            && (!full && (d < 0 || fd < 0) ==> r == -EMFILE && t' == t)
            && (!full && d >= 0 && fd >= 0 ==>
                  r == fd && Shape(t') && t'.owners[Slot(p, fd)] == d && Release(t', Slot(p, fd)) == t)
  {
    hide Counted, Release, SocketBorn;
    var d, fd := FirstFreeDesc(t.descs), FirstClosed(t.owners[..SLOTS], p, 0);
    if FirstUnusedSock(t.tcp, 0) >= 0 && d >= 0 && fd >= 0 {
      CountedParts(t);
      FreeDescIsClear(t, d);
      assert t.owners[Slot(p, fd)] == t.owners[..SLOTS][Slot(p, fd)] == -1;
      SocketClosedIsNoop(t, Slot(p, fd), d, k);
    }
  }

  /** A socket born and dropped at once leaves no trace; born, it is ready to be adopted. */
  lemma SocketNet(t: Tables, k: Kind)
    requires Counted(t) && t.loose == multiset{} && IsResource(k) && !k.PipeEnd? && !SlotInUse(t, k)
    ensures SocketDropped(SocketBorn(t, k), k) == t
    ensures SlotInUse(SocketBorn(t, k), k) && Recorded(SocketBorn(t, k), k) == 1
  {
    assert ResourceCounted(t, k);
  }

  lemma UnusedSockIsClear(t: Tables, k: Kind)
    requires Counted(t) && IsResource(k) && !k.PipeEnd? && !SlotInUse(t, k)
    ensures Recorded(t, k) == 0
  {
    assert ResourceCounted(t, k);
  }

  lemma SocketBack(t: Tables, k: Kind)
    requires Shape(t) && IsResource(k) && !k.PipeEnd? && !SlotInUse(t, k) && Recorded(t, k) == 0
    ensures var t' := SocketBorn(t, k); Shape(t') && DecResource(t', k) == t.(loose := t'.loose)
  {
  }

  lemma SocketClosedIsNoop(t: Tables, i: nat, d: nat, k: Kind)
    requires Counted(t) && t.loose == multiset{} && IsResource(k) && !k.PipeEnd? && !SlotInUse(t, k)
    requires i < OWNERS && t.owners[i] == -1 && d < MAX_FILEDESCS && t.descs[d] == FREE_DESC
    ensures var t' := SocketBorn(t, k).(owners := t.owners[i := d], descs := t.descs[d := Desc(k, 1)],
              loose := multiset{});
            Shape(t') && Release(t', i) == t
  {
    hide Counted, DecResource, SlotInUse, Recorded;
    CountedParts(t);
    UnusedSockIsClear(t, k);
    SocketBack(t, k);
    var b := SocketBorn(t, k);
    var t' := b.(owners := t.owners[i := d], descs := t.descs[d := Desc(k, 1)], loose := multiset{});
    DecResourceFrame(b, t', k);
    assert t.owners[i := d][i := -1] == t.owners;
    assert t.descs[d := Desc(k, 1)][d := FREE_DESC] == t.descs;
  }

  /** Dropping a resource reference looks at the resource tables only. */
  lemma DecResourceFrame(t: Tables, t': Tables, k: Kind)
    requires Shape(t) && Shape(t') && t' == t.(owners := t'.owners, descs := t'.descs, loose := t'.loose)
    ensures DecResource(t', k) == DecResource(t, k).(owners := t'.owners, descs := t'.descs, loose := t'.loose)
  {
  }

  lemma CountedParts(t: Tables)
    requires Counted(t)
    ensures Shape(t) && DescsCounted(t)
  {
  }

  lemma IncRefsIgnoresOwners(t: Tables, owners: seq<int>, d: nat)
    requires Shape(t) && Shape(t.(owners := owners)) && d < MAX_FILEDESCS
    ensures IncRefs(t.(owners := owners), d) == IncRefs(t, d).(owners := owners)
  {
  }

  /** desc_incref counts the description first and its resource second. */
  lemma IncRefsInOrder(t: Tables, d: nat)
    requires Shape(t) && d < MAX_FILEDESCS
    ensures var counted := t.(descs := t.descs[d := t.descs[d].(refs := t.descs[d].refs + 1)]);
            Shape(counted) && IncResource(counted, t.descs[d].kind) == IncRefs(t, d)
    ensures var k := t.descs[d].kind;
            !k.PipeEnd? && !k.Udp6? && !k.Tcp6? ==> IncResource(t, k) == t
  {
  }

  /** Only resources of a description are counted. */
  lemma DecResourceSpares(t: Tables, k: Kind)
    requires Shape(t)
    ensures Shape(DecResource(t, k)) && DecResource(t, k).descs == t.descs
    ensures !k.PipeEnd? && !k.Udp6? && !k.Tcp6? ==> DecResource(t, k) == t
  {
  }

  lemma DecRefsIgnoresOwners(t: Tables, owners: seq<int>, d: nat)
    requires Shape(t) && Shape(t.(owners := owners)) && d < MAX_FILEDESCS
    ensures DecRefs(t.(owners := owners), d) == DecRefs(t, d).(owners := owners)
  {
  }

  lemma FreeDescIsClear(t: Tables, d: nat)
    requires Counted(t) && d < MAX_FILEDESCS && t.descs[d].refs == 0
    ensures t.descs[d] == FREE_DESC
  {
  }

  /** Creating a description, giving it to owner i and dropping the creation
      reference leaves exactly one reference, owner i's. */
  lemma InstallNet(t: Tables, h: nat, i: nat, d: nat, k: Kind)
    requires Shape(t) && h < OWNERS && i < OWNERS && h != i && t.owners[h] == -1 && t.owners[i] == -1
    requires d < MAX_FILEDESCS && t.descs[d] == FREE_DESC && KindOk(k)
    requires IsResource(k) ==> SlotInUse(t, k) && 0 < Recorded(t, k) < 0xffff
    ensures var r := Reserve(t, h, d);
            var a := Adopt(r, d, k);
            var c := Acquire(a, i, d);
            && Shape(r) && Shape(a) && Shape(c)
            && Release(c, h) == t.(owners := t.owners[i := d], descs := t.descs[d := Desc(k, 1)],
                                   loose := if IsResource(k) then multiset{} else t.loose)
  {
    var a := Adopt(Reserve(t, h, d), d, k);
    var c := Acquire(a, i, d);
    assert c.owners[h := -1] == t.owners[i := d];
    assert c.descs == t.descs[d := Desc(k, 2)];
  }

  /** ... and with no owner to give it to, nothing is left of it. */
  lemma UninstallIsNoop(t: Tables, h: nat, d: nat, k: Kind)
    requires Shape(t) && h < OWNERS && t.owners[h] == -1
    requires d < MAX_FILEDESCS && t.descs[d] == FREE_DESC && KindOk(k)
    ensures var r := Reserve(t, h, d);
            var a := Adopt(r, d, k);
            && Shape(r) && Shape(a)
            && Release(a, h) == DecResource(t, k).(loose := if IsResource(k) then multiset{} else t.loose)
  {
    var a := Adopt(Reserve(t, h, d), d, k);
    assert a.owners[h := -1] == t.owners;
    assert a.descs[d := FREE_DESC] == t.descs;
  }

  lemma EmptyIsCounted(t: Tables)
    requires |t.owners| == OWNERS && |t.descs| == MAX_FILEDESCS && |t.pipes| == MAX_PIPES && |t.udp| == MAX_UDP
               && |t.tcp| == MAX_TCP
    requires forall i :: 0 <= i < OWNERS ==> t.owners[i] == -1
    requires forall d :: 0 <= d < MAX_FILEDESCS ==> t.descs[d] == FREE_DESC
    requires forall p :: 0 <= p < MAX_PIPES ==> !t.pipes[p].used && t.pipes[p].readRefs == 0 == t.pipes[p].writeRefs
    requires forall s :: 0 <= s < MAX_UDP ==> t.udp[s] == Sock(false, 0)
    requires forall c :: 0 <= c < MAX_TCP ==> t.tcp[c] == Sock(false, 0)
    requires t.loose == multiset{} && t.newborn == -1
    ensures Counted(t)
  {
  }
}
