/**
 What the descriptor calls answer and do, said of the fd slots, the descriptions and the bytes in a pipe - with the
 numbers of the interface, and without the steps the kernel takes.
 */
module FdLaws {
  import Backing
  import opened Bytes
  import opened Errno
  import opened Limits
  import D = Descriptors
  import opened Ownership
  import R = PipeRings
  import Processes
  import opened SystemCalls

  /** Fd fd of process p is open. */
  predicate IsOpen(t: Tables, p: nat, fd: nat)
    requires Shape(t) && p < MAX_PROCS
  {
    fd < 32 && t.owners[D.Slot(p, fd)] >= 0
  }

  /** The description that fd fd of process p names. */
  function Names(t: Tables, p: nat, fd: nat): Desc
    requires Shape(t) && p < MAX_PROCS && IsOpen(t, p, fd)
  {
    t.descs[t.owners[D.Slot(p, fd)]]
  }

  predicate NoFreeDesc(t: Tables) { forall d :: 0 <= d < |t.descs| ==> t.descs[d].refs > 0 }

  /** fd is the lowest closed fd of process p at or above lo. */
  predicate Lowest(t: Tables, p: nat, lo: nat, fd: int)
    requires Shape(t) && p < MAX_PROCS
  {
    lo <= fd < 32 && !IsOpen(t, p, fd) && forall x :: lo <= x < fd ==> IsOpen(t, p, x)
  }

  /** Exactly one fd is new: it was the lowest closed one, and names a new description of kind k. */
  predicate OneMore(t: Tables, t': Tables, p: nat, lo: nat, k: Kind, r: int)
    requires Shape(t) && p < MAX_PROCS
  {
    && Lowest(t, p, lo, r) && |t'.owners| == OWNERS && |t'.descs| == MAX_FILEDESCS
    && var d := t'.owners[D.Slot(p, r)];
       && 0 <= d < MAX_FILEDESCS && t.descs[d].refs == 0
       && t'.owners == t.owners[D.Slot(p, r) := d] && t'.descs == t.descs[d := Desc(k, 1)]
  }

  predicate NoFdLeft(t: Tables, p: nat, lo: nat)
    requires Shape(t) && p < MAX_PROCS
  {
    forall fd :: lo <= fd < 32 ==> IsOpen(t, p, fd)
  }

  lemma LowestClosed(t: Tables, p: nat, lo: nat)
    requires Shape(t) && p < MAX_PROCS
    ensures var fd := D.FirstClosed(t.owners[..SLOTS], p, lo);
            if fd < 0 then NoFdLeft(t, p, lo) else Lowest(t, p, lo, fd)
    ensures D.FirstFreeDesc(t.descs) < 0 <==> NoFreeDesc(t)
  {
    hide D.Slot;
  }

  /** open: the lowest closed fd from 3 on, or EMFILE exactly when fds or descriptions have run out, with no trace. */
  lemma OpenLaw(t: Tables, t': Tables, s: R.Streams, s': R.Streams, p: nat, k: Kind, r: int)
    requires Shape(t) && Shape(t') && R.PerSlot(s) && p < MAX_PROCS && Open(k).IsFdCall()
    requires FdOutcome(t, t', s, s', p, Open(k), r)
    ensures s' == s && (r == -EMFILE <==> NoFdLeft(t, p, 3) || NoFreeDesc(t)) && (r == -EMFILE ==> t' == t)
    ensures r != -EMFILE ==>
              && OneMore(t, t', p, 3, k, r) && t'.pipes == t.pipes && t'.udp == t.udp && t'.tcp == t.tcp
  {
    LowestClosed(t, p, 3);
  }

  /** close: EBADF and nothing else for an fd that is not open; otherwise the fd is closed, and the description it
      named has one reference less - and is free when that was the last. */
  lemma CloseLaw(t: Tables, t': Tables, s: R.Streams, s': R.Streams, p: nat, fd: nat, r: int)
    requires Shape(t) && Shape(t') && R.PerSlot(s) && p < MAX_PROCS && FdOutcome(t, t', s, s', p, Close(fd), r)
    ensures s' == s && r == (if IsOpen(t, p, fd) then 0 else -EBADF) && (r != 0 ==> t' == t)
    ensures r == 0 ==>
              var d := t.owners[D.Slot(p, fd)];
              && t'.owners == t.owners[D.Slot(p, fd) := -1]
              && t'.descs == t.descs[d := if t.descs[d].refs <= 1 then FREE_DESC
                                          else t.descs[d].(refs := t.descs[d].refs - 1)]
  {
  }

  /** dup3: the new fd names what the old one names, whatever it named before; no other fd changes. */
  lemma DupLaw(t: Tables, t': Tables, s: R.Streams, s': R.Streams, p: nat, a: nat, b: nat, flags: nat, r: int)
    requires Shape(t) && Shape(t') && R.PerSlot(s) && p < MAX_PROCS && FdOutcome(t, t', s, s', p, Dup3(a, b, flags), r)
    ensures s' == s
    ensures r == if flags != 0 then -EINVAL else if IsOpen(t, p, a) && b < 32 then b else -EBADF
    ensures r < 0 ==> t' == t
    ensures r >= 0 ==> t'.owners == t.owners[D.Slot(p, b) := t.owners[D.Slot(p, a)]]
    ensures r >= 0 && a == b ==> t' == t
  {
    hide IncResource, DecResource;
  }

  /** pipe2: two new fds on the two ends of an empty pipe that was not in use; possible exactly with two closed fds,
      two free descriptions and an unused pipe, and otherwise without a trace. */
  lemma PipeLaw(t: Tables, t': Tables, s: R.Streams, s': R.Streams, p: nat, flags: nat, ok: bool, r: int)
    requires Shape(t) && Shape(t') && R.PerSlot(s) && p < MAX_PROCS && FdOutcome(t, t', s, s', p, Pipe2(flags, ok), r)
    ensures r in {0, -ENOSYS, -EFAULT, -EMFILE} && (r == -ENOSYS <==> flags != 0)
    ensures (r == -EFAULT <==> flags == 0 && !ok) && (r != 0 ==> t' == t)
    ensures r == 0 ==> exists rfd, wfd, id :: NewPipe(t, t', p, rfd, wfd, id)
    ensures r == -EMFILE ==>
              || (forall id :: 0 <= id < MAX_PIPES ==> t.pipes[id].used)
              || (forall a, b :: 0 <= a < b < 32 ==> IsOpen(t, p, a) || IsOpen(t, p, b))
              || (forall d, e :: 0 <= d < e < MAX_FILEDESCS ==> t.descs[d].refs > 0 || t.descs[e].refs > 0)
  {
    hide D.StreamsAfterPipe2, D.PipeOpened, D.NoRoomForPipe, NewPipe, IsOpen;
    if r == 0 {
      var rfd: int, wfd: int :| D.Pipe2Outcome(t, t', p, flags, ok, r, rfd, wfd);
      PipeMade(t, t', p, rfd, wfd);
    }
    if r == -EMFILE && D.NoRoomForPipe(t, p) { PipeFails(t, p); }
  }

  lemma PipeMade(t: Tables, t': Tables, p: nat, rfd: int, wfd: int)
    requires Shape(t) && Shape(t') && p < MAX_PROCS && D.PipeOpened(t, t', p, rfd, wfd)
    ensures rfd >= 0 && wfd >= 0 && exists id :: NewPipe(t, t', p, rfd, wfd, id)
  {
    hide D.Slot, D.FirstClosed, D.FirstFreeDesc, D.FirstFreeDescFrom, D.FirstUnusedPipe;
    LowestClosed(t, p, 0);
    SecondFd(t, p, rfd, D.FirstFreeDesc(t.descs));
    assert NewPipe(t, t', p, rfd, wfd, D.FirstUnusedPipe(t.pipes, 0));
  }

  lemma PipeFails(t: Tables, p: nat)
    requires Shape(t) && p < MAX_PROCS && D.NoRoomForPipe(t, p)
    ensures || (forall id :: 0 <= id < MAX_PIPES ==> t.pipes[id].used)
            || (forall a, b :: 0 <= a < b < 32 ==> IsOpen(t, p, a) || IsOpen(t, p, b))
            || (forall d, e :: 0 <= d < e < MAX_FILEDESCS ==> t.descs[d].refs > 0 || t.descs[e].refs > 0)
  {
    hide D.Slot, IsOpen;
    LowestClosed(t, p, 0);
    var fd0, rd := D.FirstClosed(t.owners[..SLOTS], p, 0), D.FirstFreeDesc(t.descs);
    if fd0 >= 0 && rd >= 0 {
      SecondFd(t, p, fd0, rd);
      SecondDesc(t, rd);
    }
  }

  predicate NewPipe(t: Tables, t': Tables, p: nat, rfd: nat, wfd: nat, id: nat)
    requires Shape(t) && Shape(t') && p < MAX_PROCS
  {
    && Lowest(t, p, 0, rfd) && rfd < wfd < 32 && !IsOpen(t, p, wfd) && (forall x :: rfd < x < wfd ==> IsOpen(t, p, x))
    && id < MAX_PIPES && !t.pipes[id].used
    && IsOpen(t', p, rfd) && Names(t', p, rfd) == Desc(PipeEnd(id, Reader), 1)
    && IsOpen(t', p, wfd) && Names(t', p, wfd) == Desc(PipeEnd(id, Writer), 1)
    && t'.owners == t.owners[D.Slot(p, rfd) := t'.owners[D.Slot(p, rfd)]][D.Slot(p, wfd) := t'.owners[D.Slot(p, wfd)]]
    && t'.pipes == t.pipes[id := Pipe(true, 1, 1, 0, 0, 0, t.pipes[id].buf)]
  }

  lemma SecondFd(t: Tables, p: nat, fd: nat, d: nat)
    requires Shape(t) && p < MAX_PROCS && Lowest(t, p, 0, fd)
    ensures var fd1 := D.FirstClosed(t.owners[..SLOTS][D.Slot(p, fd) := d], p, 0);
            if fd1 < 0 then forall x :: fd < x < 32 ==> IsOpen(t, p, x)
            else fd < fd1 < 32 && !IsOpen(t, p, fd1) && forall x :: fd < x < fd1 ==> IsOpen(t, p, x)
  {
    var slots: seq<int> := t.owners[..SLOTS][D.Slot(p, fd) := d];
    var fd1 := D.FirstClosed(slots, p, 0);
    forall x | 0 <= x < 32
      ensures slots[D.Slot(p, x)] == if x == fd then d else t.owners[D.Slot(p, x)]
    {
    }
    if fd1 >= 0 {
      assert slots[D.Slot(p, fd1)] < 0 && !IsOpen(t, p, fd1);
      forall x | fd < x < fd1
        ensures IsOpen(t, p, x)
      {
        assert slots[D.Slot(p, x)] >= 0;
      }
    }
  }

  lemma SecondDesc(t: Tables, rd: nat)
    requires Shape(t) && rd < MAX_FILEDESCS && t.descs[rd].refs == 0
    ensures D.FirstFreeDesc(t.descs[rd := Desc(Unused, 1)]) < 0 ==>
              forall d :: 0 <= d < MAX_FILEDESCS && d != rd ==> t.descs[d].refs > 0
  {
    var after := t.descs[rd := Desc(Unused, 1)];
    assert forall d :: 0 <= d < MAX_FILEDESCS && d != rd ==> after[d] == t.descs[d];
  }

  // ----- sockets

  predicate AllUsed(socks: seq<Sock>) { forall i :: 0 <= i < |socks| ==> socks[i].used }

  /** Only the socket slot that k names is new: it was not in use, and has one reference. */
  predicate SocketTaken(t: Tables, t': Tables, k: Kind) {
    match k
    case Udp6(i) => i < |t.udp| && !t.udp[i].used && t'.udp == t.udp[i := Sock(true, 1)] && t'.tcp == t.tcp
    case Tcp6(i) => i < |t.tcp| && !t.tcp[i].used && t'.tcp == t.tcp[i := Sock(true, 1)] && t'.udp == t.udp
    case _ => false
  }

  /** Opening a socket when none is left, or with no fd or no description left, answers that and does nothing;
      otherwise the lowest closed fd names a socket that was not in use. */
  ghost predicate SocketLaw(t: Tables, t': Tables, p: nat, socks: seq<Sock>, r: int)
    requires Shape(t) && p < MAX_PROCS
  {
    && (r == -ENOMEM <==> AllUsed(socks))
    && (r == -EMFILE <==> !AllUsed(socks) && (NoFdLeft(t, p, 0) || NoFreeDesc(t)))
    && (r < 0 ==> r in {-ENOMEM, -EMFILE} && t' == t)
    && (r >= 0 ==> t'.pipes == t.pipes)
  }

  lemma OpenedSocket(t: Tables, t': Tables, p: nat, full: bool, k: Kind, r: int)
    requires Shape(t) && p < MAX_PROCS && IsResource(k) && !k.PipeEnd? && D.SocketOpened(t, t', p, full, k, r)
    requires match k case Udp6(i) => full || !t.udp[i].used case Tcp6(i) => full || !t.tcp[i].used case _ => true
    requires full <==> AllUsed(if k.Udp6? then t.udp else t.tcp)
    ensures SocketLaw(t, t', p, if k.Udp6? then t.udp else t.tcp, r)
    ensures r >= 0 ==> OneMore(t, t', p, 0, k, r) && SocketTaken(t, t', k)
  {
    hide D.Slot, D.FirstClosed, D.FirstFreeDesc;
    LowestClosed(t, p, 0);
  }

  lemma UdpLaw(t: Tables, t': Tables, s: R.Streams, s': R.Streams, p: nat, r: int)
    requires Shape(t) && Shape(t') && R.PerSlot(s) && p < MAX_PROCS && FdOutcome(t, t', s, s', p, Udp6Socket, r)
    ensures s' == s && SocketLaw(t, t', p, t.udp, r)
    ensures r >= 0 ==> exists i :: SocketTaken(t, t', Udp6(i)) && OneMore(t, t', p, 0, Udp6(i), r)
  {
    hide D.SocketOpened, SocketLaw, OneMore, D.FirstUnusedSock;
    var i := D.FirstUnusedSock(t.udp, 0);
    OpenedSocket(t, t', p, i < 0, Udp6(D.MaxZero(i)), r);
  }

  /** tcp6 connect: a bad port, then a bad address, then no room; a connection that is not established answers its
      failure and leaves nothing behind. */
  lemma ConnectLaw(t: Tables, t': Tables, s: R.Streams, s': R.Streams, p: nat, port: nat, addrOk: bool, up: bool,
                   failure: int, r: int)
    requires Shape(t) && Shape(t') && R.PerSlot(s) && p < MAX_PROCS && failure < 0
    requires FdOutcome(t, t', s, s', p, Tcp6Connect(port, addrOk, up, failure), r)
    ensures s' == s && (r < 0 ==> t' == t)
    ensures !(1 <= port <= 65535) ==> r == -EINVAL
    ensures 1 <= port <= 65535 && !addrOk ==> r == -EFAULT
    ensures 1 <= port <= 65535 && addrOk && up ==> SocketLaw(t, t', p, t.tcp, r)
    ensures 1 <= port <= 65535 && addrOk && !up ==>
              r == if AllUsed(t.tcp) then -ENOMEM else if NoFdLeft(t, p, 0) || NoFreeDesc(t) then -EMFILE else failure
    ensures r >= 0 ==> up && exists i :: SocketTaken(t, t', Tcp6(i)) && OneMore(t, t', p, 0, Tcp6(i), r)
  {
    hide D.SocketOpened, OneMore, D.FirstUnusedSock, D.FirstClosed, D.FirstFreeDesc, D.Slot;
    LowestClosed(t, p, 0);
    var i := D.FirstUnusedSock(t.tcp, 0);
    if 1 <= port <= 65535 && addrOk && up {
      OpenedSocket(t, t', p, i < 0, Tcp6(D.MaxZero(i)), r);
    }
  }

  // ----- read and write

  /** Some process has an fd open on k. */
  ghost predicate Held(t: Tables, k: Kind)
    requires Shape(t)
  {
    exists p, fd :: 0 <= p < MAX_PROCS && 0 <= fd < 32 && IsOpen(t, p, fd) && Names(t, p, fd).kind == k
  }

  lemma HeldCounts(t: Tables, k: Kind)
    requires Shape(t) && Counted(t) && t.loose == multiset{} && t.owners[SLOTS] == -1 == t.owners[SLOTS + 1]
    requires IsResource(k)
    ensures Held(t, k) <==> Recorded(t, k) > 0
  {
    hide Counted;
    var slots := t.owners[..SLOTS];
    assert t.owners == slots + [-1, -1];
    D.CountMeansHeld(t, slots, k);
    if D.SomeoneHolds(slots, t.descs, k) {
      var i :| 0 <= i < |slots| && KindAt(t.descs, slots[i]) == k;
      var p, fd := i / 32, i % 32;
      assert D.Slot(p, fd) == i;
      assert IsOpen(t, p, fd) && Names(t, p, fd).kind == k;
    }
    if Held(t, k) {
      var p, fd :| 0 <= p < MAX_PROCS && 0 <= fd < 32 && IsOpen(t, p, fd) && Names(t, p, fd).kind == k;
      assert KindAt(t.descs, slots[D.Slot(p, fd)]) == k;
    }
  }

  /** An fd names a pipe end only of a pipe that is in use. */
  lemma EndIsLive(t: Tables, p: nat, fd: nat)
    requires Shape(t) && Counted(t) && p < MAX_PROCS && IsOpen(t, p, fd) && Names(t, p, fd).kind.PipeEnd?
    ensures Names(t, p, fd).kind.id < MAX_PIPES && t.pipes[Names(t, p, fd).kind.id].used
  {
    var d := t.owners[D.Slot(p, fd)];
    OwnedIsLive(t, D.Slot(p, fd));
    LiveDescIsNeeded(t, d);
  }

  predicate Nothing(s: Snapshot, s': Snapshot) { s'.tables == s.tables && s'.streams == s.streams }

  /** read: an fd that is not open, nothing to read, a bad buffer - in this order; a pipe's read end hands out the
      oldest bytes waiting, and from an empty pipe 0 exactly when nobody has its write end open any more; a write
      end and a socket cannot be read, nor can a directory. */
  lemma ReadLaw(s: Snapshot, s': Snapshot, fd: nat, len: nat, ok: bool, other: int)
    requires Sound(s) && Sound(s') && FdStepped(s, Read(fd, len, ok, other), s')
    ensures var t, r := s.tables, s'.procs[s.cur].x0;
            && (!IsOpen(t, s.cur, fd) ==> r == -EBADF && Nothing(s, s'))
            && (IsOpen(t, s.cur, fd) && len == 0 ==> r == 0 && Nothing(s, s'))
            && (IsOpen(t, s.cur, fd) && len > 0 && !ok ==> r == -EFAULT && Nothing(s, s'))
            && (IsOpen(t, s.cur, fd) && len > 0 && ok ==>
                  match Names(t, s.cur, fd).kind
                  case PipeEnd(id, Reader) => id < MAX_PIPES && Taken(s, s', id, len, r)
                  case PipeEnd(_, Writer) => r == -EBADF && Nothing(s, s')
                  case Udp6(_) => r == -EBADF && Nothing(s, s')
                  case Tcp6(_) => r == -EBADF && Nothing(s, s')
                  case Initramfs(isDir) => r == (if isDir then -EINVAL else other) && Nothing(s, s')
                  case Ramfile(_) => r == other && Nothing(s, s')
                  case Uart => r == other && Nothing(s, s')
                  case ProcFs(node) => r == (if node in {2, 3, 4} then other else -EBADF) && Nothing(s, s')
                  case Unused => r == -EBADF && Nothing(s, s'))
  {
    hide Counted, R.Conserved, D.ReadOutcome, D.OthersKeep, Taken, D.Slot;
    var t, t' := s.tables, s'.tables;
    if IsOpen(t, s.cur, fd) && len > 0 && ok && D.IsEnd(Names(t, s.cur, fd).kind, Reader) {
      var id, r := Names(t, s.cur, fd).kind.id, s'.procs[s.cur].x0;
      EndIsLive(t, s.cur, fd);
      var data :| D.ReadFdOutcome(t, t', s.streams, s'.streams, s.cur, fd, len, ok, other, r, data);
      PipeTaken(s, s', id, len, r, data);
    }
  }

  /** What a read of len bytes takes out of pipe id. */
  ghost predicate Taken(s: Snapshot, s': Snapshot, id: nat, len: nat, r: int)
    requires Sound(s) && Sound(s') && id < MAX_PIPES
  {
    var q := R.Waiting(s.tables.pipes[id]);
    var n := if len < |q| then len else |q|;
    if q == [] then r == (if Held(s.tables, PipeEnd(id, Writer)) then -EAGAIN else 0) && Nothing(s, s')
    else
      && r == n && R.Waiting(s'.tables.pipes[id]) == q[n..]
      && s'.streams == s.streams.(returned := s.streams.returned[id := s.streams.returned[id] + q[..n]])
      && s'.tables == s.tables.(pipes := s.tables.pipes[id := s'.tables.pipes[id]])
  }

  lemma PipeTaken(s: Snapshot, s': Snapshot, id: nat, len: nat, r: int, data: seq<byte>)
    requires Sound(s) && Sound(s') && id < MAX_PIPES && len > 0 && s.tables.pipes[id].used
    requires D.ReadOutcome(s.tables, s'.tables, s.streams, s'.streams, id, len, r, data)
    ensures Taken(s, s', id, len, r)
  {
    hide Counted, Processes.ProcsOk, Backing.BackingOk, FdsOk, Held, R.RingOk;
    var t, t' := s.tables, s'.tables;
    var q, q' := R.Waiting(t.pipes[id]), R.Waiting(t'.pipes[id]);
    HeldCounts(t, PipeEnd(id, Writer));
    var a, b := s.streams.accepted[id], s.streams.returned[id];
    assert a == b + q && a == b + data + q';
    assert q == data + q' by { assert a[|b|..] == q && a[|b|..] == data + q'; }
  }

  /** write: a pipe's write end takes as many bytes as there is room for in the 1024 of its ring - none exactly when
      it is full or, with EPIPE, when nobody has its read end open any more; the console takes all of them; a read
      end, a socket and what is read only take none. */
  lemma WriteLaw(s: Snapshot, s': Snapshot, fd: nat, src: seq<byte>, isNull: bool, other: int)
    requires Sound(s) && Sound(s') && FdStepped(s, Write(fd, src, isNull, other), s')
    ensures var t, r := s.tables, s'.procs[s.cur].x0;
            && (!IsOpen(t, s.cur, fd) ==> r == -EBADF && Nothing(s, s'))
            && (IsOpen(t, s.cur, fd) ==>
                  match Names(t, s.cur, fd).kind
                  case PipeEnd(id, Writer) =>
                    if isNull && src != [] then r == -EBADF && Nothing(s, s')
                    else id < MAX_PIPES && Put(s, s', id, src, r)
                  case Uart => r == |src| && Nothing(s, s')
                  case Ramfile(_) => r == other && Nothing(s, s')
                  case _ => r == -EBADF && Nothing(s, s'))
  {
    hide Counted, R.Conserved, D.WriteOutcome, D.OthersKeep, Put, D.Slot;
    var t, t' := s.tables, s'.tables;
    if IsOpen(t, s.cur, fd) && D.IsEnd(Names(t, s.cur, fd).kind, Writer) && (isNull ==> src == []) {
      EndIsLive(t, s.cur, fd);
      PipePut(s, s', Names(t, s.cur, fd).kind.id, src, s'.procs[s.cur].x0);
    }
  }

  /** What a write of src puts into pipe id. */
  ghost predicate Put(s: Snapshot, s': Snapshot, id: nat, src: seq<byte>, r: int)
    requires Sound(s) && Sound(s') && id < MAX_PIPES
  {
    var q := R.Waiting(s.tables.pipes[id]);
    var n := if |src| < 1024 - |q| then |src| else 1024 - |q|;
    if src == [] then r == 0 && Nothing(s, s')
    else if !Held(s.tables, PipeEnd(id, Reader)) then r == -EPIPE && Nothing(s, s')
    else if |q| == 1024 then r == -EAGAIN && Nothing(s, s')
    else
      && r == n && R.Waiting(s'.tables.pipes[id]) == q + src[..n]
      && s'.streams == s.streams.(accepted := s.streams.accepted[id := s.streams.accepted[id] + src[..n]])
      && s'.tables == s.tables.(pipes := s.tables.pipes[id := s'.tables.pipes[id]])
  }

  lemma PipePut(s: Snapshot, s': Snapshot, id: nat, src: seq<byte>, r: int)
    requires Sound(s) && Sound(s') && id < MAX_PIPES && s.tables.pipes[id].used
    requires D.WriteOutcome(s.tables, s'.tables, s.streams, s'.streams, id, src, r)
    ensures Put(s, s', id, src, r)
  {
    hide Counted, Processes.ProcsOk, Backing.BackingOk, FdsOk, Held;
    var t, t' := s.tables, s'.tables;
    var q, q' := R.Waiting(t.pipes[id]), R.Waiting(t'.pipes[id]);
    HeldCounts(t, PipeEnd(id, Reader));
    if r >= 0 {
      var a, b := s.streams.accepted[id], s.streams.returned[id];
      assert a == b + q && a + src[..r] == b + q';
      assert q' == q + src[..r] by { assert (a + src[..r])[|b|..] == q + src[..r] && (b + q')[|b|..] == q'; }
    }
  }
}
