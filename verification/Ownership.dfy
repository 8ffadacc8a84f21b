/**
 The reference-counting discipline of the descriptor layer, on values.

 Every (process, fd) slot is an owner that names at most one file description;
 a description names at most one pipe end or socket.  While a system call runs,
 a few extra references are alive that no fd slot holds yet (the creation
 reference of a new description, the reference being dropped by a close); they
 are owners too, kept behind the fd slots in the same sequence.  The counts that
 the kernel edits by hand are then exactly occurrence counts in that sequence.
 */
module Ownership {
  import opened Bytes
  import opened Limits

  const MAX_FDS := 32
  const MAX_FILEDESCS := 64
  const MAX_PIPES := 16
  const PIPE_BUF := 1024
  const MAX_UDP := 8
  const MAX_TCP := 8
  const SLOTS := MAX_PROCS * MAX_FDS
  const HELD := 2
  const OWNERS := SLOTS + HELD

  datatype Side = Reader | Writer

  /** What a description refers to.  Pipe ends and sockets are shared resources. */
  datatype Kind =
    | Unused
    | Uart
    | Initramfs(isDir: bool)
    | PipeEnd(id: nat, side: Side)
    | Ramfile(fileId: nat)
    | ProcFs(node: nat)
    | Udp6(sock: nat)
    | Tcp6(conn: nat)

  datatype Desc = Desc(kind: Kind, refs: nat)

  datatype Pipe = Pipe(used: bool, readRefs: nat, writeRefs: nat,
                       rpos: nat, wpos: nat, count: nat, buf: seq<byte>)

  datatype Sock = Sock(used: bool, refs: nat)

  /** owners: fd slots followed by the references held by the running system call.
      loose: resource references not yet (or no longer) held through a description.
      newborn: a pipe slot just taken by pipe_create, or -1. */
  datatype Tables = Tables(owners: seq<int>, descs: seq<Desc>, pipes: seq<Pipe>,
                           udp: seq<Sock>, tcp: seq<Sock>,
                           loose: multiset<Kind>, newborn: int)

  const FREE_DESC := Desc(Unused, 0)

  function KindAt(descs: seq<Desc>, o: int): Kind {
    if 0 <= o < |descs| then descs[o].kind else Unused
  }

  function Kinds(owners: seq<int>, descs: seq<Desc>): seq<Kind> {
    seq(|owners|, i requires 0 <= i < |owners| => KindAt(descs, owners[i]))
  }

  predicate IsResource(k: Kind) {
    match k
    case PipeEnd(id, _) => id < MAX_PIPES
    case Udp6(s) => s < MAX_UDP
    case Tcp6(c) => c < MAX_TCP
    case _ => false
  }

  predicate KindOk(k: Kind) {
    (k.PipeEnd? || k.Udp6? || k.Tcp6?) ==> IsResource(k)
  }

  predicate Shape(t: Tables) {
    && |t.owners| == OWNERS && |t.descs| == MAX_FILEDESCS && |t.pipes| == MAX_PIPES
    && |t.udp| == MAX_UDP && |t.tcp| == MAX_TCP
    && (forall i :: 0 <= i < OWNERS ==> -1 <= t.owners[i] < MAX_FILEDESCS)
    && (forall d :: 0 <= d < MAX_FILEDESCS ==> KindOk(t.descs[d].kind))
  }

  /** How many owners reach resource k. */
  ghost function Reaching(t: Tables, k: Kind): nat {
    multiset(Kinds(t.owners, t.descs))[k] + t.loose[k]
  }

  /** The count the kernel keeps for resource k. */
  function Recorded(t: Tables, k: Kind): nat
    requires Shape(t) && IsResource(k)
  {
    match k
    case PipeEnd(id, Reader) => t.pipes[id].readRefs
    case PipeEnd(id, Writer) => t.pipes[id].writeRefs
    case Udp6(s) => t.udp[s].refs
    case Tcp6(c) => t.tcp[c].refs
  }

  predicate SlotInUse(t: Tables, k: Kind)
    requires Shape(t) && IsResource(k)
  {
    match k
    case PipeEnd(id, _) => t.pipes[id].used
    case Udp6(s) => t.udp[s].used
    case Tcp6(c) => t.tcp[c].used
  }

  ghost predicate Needed(t: Tables, k: Kind)
    requires IsResource(k)
  {
    if k.PipeEnd? then
      Reaching(t, PipeEnd(k.id, Reader)) > 0 || Reaching(t, PipeEnd(k.id, Writer)) > 0 || k.id == t.newborn
    else Reaching(t, k) > 0
  }

  ghost predicate DescsCounted(t: Tables)
    requires Shape(t)
  {
    && (forall d :: 0 <= d < MAX_FILEDESCS ==> t.descs[d].refs == multiset(t.owners)[d])
    && (forall d :: 0 <= d < MAX_FILEDESCS ==> t.descs[d].refs == 0 ==> t.descs[d].kind == Unused)
  }

  ghost predicate ResourceCounted(t: Tables, k: Kind)
    requires Shape(t) && IsResource(k)
  {
    Recorded(t, k) == Reaching(t, k) && (SlotInUse(t, k) <==> Needed(t, k))
  }

  /** The global counting invariant. */
  ghost predicate Counted(t: Tables) {
    && Shape(t)
    && |t.loose| <= 1
    && -1 <= t.newborn < MAX_PIPES
    && DescsCounted(t)
    && (forall k {:trigger ResourceCounted(t, k)} :: IsResource(k) ==> ResourceCounted(t, k))
  }

  // ----- the hooks that description reference changes run on resources

  function IncResource(t: Tables, k: Kind): Tables
    requires Shape(t)
  {
    match k
    case PipeEnd(id, side) =>
      if id >= MAX_PIPES || !t.pipes[id].used then t
      else if side == Reader then t.(pipes := t.pipes[id := t.pipes[id].(readRefs := t.pipes[id].readRefs + 1)])
      else t.(pipes := t.pipes[id := t.pipes[id].(writeRefs := t.pipes[id].writeRefs + 1)])
    case Udp6(s) =>
      if s >= MAX_UDP || !t.udp[s].used then t
      else t.(udp := t.udp[s := t.udp[s].(refs := t.udp[s].refs + 1)])
    case Tcp6(c) =>
      if c >= MAX_TCP || !t.tcp[c].used || t.tcp[c].refs >= 0xffff then t
      else t.(tcp := t.tcp[c := t.tcp[c].(refs := t.tcp[c].refs + 1)])
    case _ => t
  }

  /** pipe_maybe_free: a pipe nobody reaches gives its slot (and its bytes) back. */
  function PipeMaybeFree(p: Pipe): Pipe {
    if p.used && p.readRefs == 0 && p.writeRefs == 0
    then p.(used := false, rpos := 0, wpos := 0, count := 0) else p
  }

  function Pred(n: nat): nat { if n > 0 then n - 1 else 0 }

  function SockDrop(s: Sock): Sock {
    Sock(Pred(s.refs) != 0, Pred(s.refs))
  }

  function DecResource(t: Tables, k: Kind): Tables
    requires Shape(t)
  {
    match k
    case PipeEnd(id, side) =>
      if id >= MAX_PIPES || !t.pipes[id].used then t
      else
        var p := t.pipes[id];
        var p' := if side == Reader then p.(readRefs := Pred(p.readRefs)) else p.(writeRefs := Pred(p.writeRefs));
        t.(pipes := t.pipes[id := PipeMaybeFree(p')])
    case Udp6(s) =>
      if s >= MAX_UDP || !t.udp[s].used then t else t.(udp := t.udp[s := SockDrop(t.udp[s])])
    case Tcp6(c) =>
      if c >= MAX_TCP || !t.tcp[c].used || t.tcp[c].refs == 0 then t else t.(tcp := t.tcp[c := SockDrop(t.tcp[c])])
    case _ => t
  }

  /** desc_incref on a live description: its count and its resource's count go up. */
  function IncRefs(t: Tables, d: nat): Tables
    requires Shape(t) && d < MAX_FILEDESCS
  {
    var desc := t.descs[d];
    IncResource(t, desc.kind).(descs := t.descs[d := desc.(refs := desc.refs + 1)])
  }

  /** desc_decref on a live description: both counts go down, and the last reference clears it. */
  function DecRefs(t: Tables, d: nat): Tables
    requires Shape(t) && d < MAX_FILEDESCS
  {
    var desc := t.descs[d];
    DecResource(t, desc.kind).(descs := t.descs[d := if desc.refs <= 1 then FREE_DESC
                                                else desc.(refs := desc.refs - 1)])
  }

  // ----- the moves every descriptor system call is made of

  /** Free owner i starts to refer to live description d. */
  function Acquire(t: Tables, i: nat, d: nat): Tables
    requires Shape(t) && i < OWNERS && d < MAX_FILEDESCS
  {
    IncRefs(t, d).(owners := t.owners[i := d])
  }

  /** Owner i gives up the description it refers to. */
  function Release(t: Tables, i: nat): Tables
    requires Shape(t) && i < OWNERS && t.owners[i] >= 0
  {
    DecRefs(t, t.owners[i]).(owners := t.owners[i := -1])
  }

  /** Free description d is reserved by owner i; it refers to nothing yet. */
  function Reserve(t: Tables, i: nat, d: nat): Tables
    requires Shape(t) && i < OWNERS && d < MAX_FILEDESCS
  {
    t.(owners := t.owners[i := d], descs := t.descs[d := Desc(Unused, 1)])
  }

  /** A reserved description becomes a k, taking over the loose reference to it, if any. */
  function Adopt(t: Tables, d: nat, k: Kind): Tables
    requires Shape(t) && d < MAX_FILEDESCS && KindOk(k)
  {
    t.(descs := t.descs[d := Desc(k, 1)], loose := if IsResource(k) then multiset{} else t.loose)
  }

  // ----- counting lemmas

  lemma CountAtMost<T>(s: seq<T>, x: T)
    ensures multiset(s)[x] <= |s|
  {
  }

  lemma IncResourceRecords(t: Tables, k: Kind, j: Kind)
    requires Shape(t) && IsResource(k) && SlotInUse(t, k) && IsResource(j) && Recorded(t, k) < 0xffff
    ensures Shape(IncResource(t, k))
    ensures Recorded(IncResource(t, k), j) == Recorded(t, j) + (if j == k then 1 else 0)
    ensures SlotInUse(IncResource(t, k), j) == SlotInUse(t, j)
  {
  }

  lemma DecResourceRecords(t: Tables, k: Kind, j: Kind)
    requires Shape(t) && IsResource(k) && SlotInUse(t, k) && IsResource(j) && Recorded(t, k) > 0
    ensures Shape(DecResource(t, k))
    ensures Recorded(DecResource(t, k), j) == Recorded(t, j) - (if j == k then 1 else 0)
    ensures SlotInUse(DecResource(t, k), j) ==
            if SameSlot(j, k) then StillHeld(t, k) else SlotInUse(t, j)
  {
  }

  predicate SameSlot(j: Kind, k: Kind) {
    j == k || (j.PipeEnd? && k.PipeEnd? && j.id == k.id)
  }

  predicate StillHeld(t: Tables, k: Kind)
    requires Shape(t) && IsResource(k)
  {
    match k
    case PipeEnd(id, _) => t.pipes[id].readRefs + t.pipes[id].writeRefs > 1
    case Udp6(s) => t.udp[s].refs > 1
    case Tcp6(c) => t.tcp[c].refs > 1
  }

  function Bit(b: bool): int { if b then 1 else 0 }

  /** How one owner's change of mind shifts the number of owners reaching each resource. */
  lemma ReachingShifts(t: Tables, t': Tables, i: nat)
    requires Shape(t) && Shape(t') && i < OWNERS
    requires t'.owners == t.owners[i := t'.owners[i]] && t'.loose <= t.loose
    requires forall m :: 0 <= m < OWNERS && m != i ==> KindAt(t'.descs, t.owners[m]) == KindAt(t.descs, t.owners[m])
    ensures forall j :: Reaching(t', j) == Reaching(t, j) - t.loose[j] + t'.loose[j]
              - Bit(j == KindAt(t.descs, t.owners[i])) + Bit(j == KindAt(t'.descs, t'.owners[i]))
  {
    var ks := Kinds(t.owners, t.descs);
    assert Kinds(t'.owners, t'.descs) == ks[i := KindAt(t'.descs, t'.owners[i])];
    assert ks[i] == KindAt(t.descs, t.owners[i]);
  }

  /** ... and the number of owners of each description. */
  lemma RefsShift(t: Tables, t': Tables, i: nat)
    requires Shape(t) && Shape(t') && i < OWNERS && DescsCounted(t)
    requires t'.owners == t.owners[i := t'.owners[i]]
    requires forall x :: 0 <= x < MAX_FILEDESCS ==>
               && t'.descs[x].refs == t.descs[x].refs - Bit(x == t.owners[i]) + Bit(x == t'.owners[i])
               && (t'.descs[x].refs == 0 ==> t'.descs[x].kind == Unused)
    ensures DescsCounted(t')
  {
  }

  lemma OwnedIsLive(t: Tables, i: nat)
    requires Shape(t) && DescsCounted(t) && i < OWNERS && t.owners[i] >= 0
    ensures t.descs[t.owners[i]].refs > 0
    ensures t.descs[t.owners[i]].refs == 1 ==>
              forall m :: 0 <= m < OWNERS && m != i ==> t.owners[m] != t.owners[i]
  {
    var d := t.owners[i];
    assert d in multiset(t.owners);
    forall m | 0 <= m < OWNERS && m != i && t.owners[m] == d
      ensures t.descs[d].refs > 1
    {
      var s := t.owners[i := -1];
      assert s[m] == d;
      assert d in multiset(s);
    }
  }

  lemma FreeIsUnowned(t: Tables, d: nat)
    requires Shape(t) && DescsCounted(t) && d < MAX_FILEDESCS && t.descs[d].refs == 0
    ensures d !in t.owners
  {
  }

  lemma LiveDescIsNeeded(t: Tables, d: nat)
    requires Counted(t) && d < MAX_FILEDESCS && t.descs[d].refs > 0 && IsResource(t.descs[d].kind)
    ensures Reaching(t, t.descs[d].kind) > 0
    ensures SlotInUse(t, t.descs[d].kind)
    ensures 0 < Recorded(t, t.descs[d].kind) < 0xffff
  {
    var k := t.descs[d].kind;
    assert ResourceCounted(t, k);
    assert d in multiset(t.owners);
    var i :| 0 <= i < OWNERS && t.owners[i] == d;
    assert Kinds(t.owners, t.descs)[i] == k;
    assert k in multiset(Kinds(t.owners, t.descs));
    CountAtMost(Kinds(t.owners, t.descs), k);
    assert |t.loose[k := 0]| == |t.loose| - t.loose[k];
  }

  /** What a move does to the counts; delta is +1, -1 or 0 on resource k only. */
  ghost predicate Shifted(t: Tables, t': Tables, k: Kind, delta: int) {
    && Shape(t') && DescsCounted(t') && |t'.loose| <= |t.loose| && t'.newborn == t.newborn
    && forall j {:trigger Reaching(t', j)} :: IsResource(j) ==>
       Reaching(t', j) == Reaching(t, j) + (if j == k then delta else 0)
  }

  lemma AcquireShifts(t: Tables, i: nat, d: nat)
    requires Shape(t) && DescsCounted(t) && i < OWNERS && t.owners[i] == -1
    requires d < MAX_FILEDESCS && t.descs[d].refs > 0
    ensures Shifted(t, Acquire(t, i, d), t.descs[d].kind, 1)
  {
    var t' := Acquire(t, i, d);
    assert t'.descs == t.descs[d := Desc(t.descs[d].kind, t.descs[d].refs + 1)];
    RefsShift(t, t', i);
    ReachingShifts(t, t', i);
  }

  lemma ReleaseShifts(t: Tables, i: nat)
    requires Shape(t) && DescsCounted(t) && i < OWNERS && t.owners[i] >= 0
    ensures Shifted(t, Release(t, i), t.descs[t.owners[i]].kind, -1)
  {
    var t' := Release(t, i);
    OwnedIsLive(t, i);
    RefsShift(t, t', i);
    ReachingShifts(t, t', i);
  }

  lemma ReserveShifts(t: Tables, i: nat, d: nat)
    requires Shape(t) && DescsCounted(t) && i < OWNERS && t.owners[i] == -1
    requires d < MAX_FILEDESCS && t.descs[d].refs == 0
    ensures Shifted(t, Reserve(t, i, d), Unused, 0)
  {
    var t' := Reserve(t, i, d);
    FreeIsUnowned(t, d);
    RefsShift(t, t', i);
    ReachingShifts(t, t', i);
  }

  lemma AdoptShifts(t: Tables, i: nat, k: Kind)
    requires Shape(t) && DescsCounted(t) && i < OWNERS && t.owners[i] >= 0
    requires t.descs[t.owners[i]] == Desc(Unused, 1) && KindOk(k)
    requires IsResource(k) ==> t.loose == multiset{k}
    ensures Shifted(t, Adopt(t, t.owners[i], k), k, 0)
  {
    hide DescsCounted, KindAt;
    var t' := Adopt(t, t.owners[i], k);
    AdoptRefs(t, i, k);
    AdoptOthers(t, i, k);
    assert t'.owners == t.owners[i := t'.owners[i]];
    ReachingShifts(t, t', i);
    assert KindAt(t'.descs, t.owners[i]) == k && KindAt(t.descs, t.owners[i]) == Unused by { KindsAt(t, i, k); }
  }

  lemma AdoptRefs(t: Tables, i: nat, k: Kind)
    requires Shape(t) && DescsCounted(t) && i < OWNERS && t.owners[i] >= 0
    requires t.descs[t.owners[i]] == Desc(Unused, 1) && KindOk(k)
    ensures var t' := Adopt(t, t.owners[i], k); Shape(t') && DescsCounted(t')
  {
  }

  /** Nobody else names a description with one reference. */
  lemma AdoptOthers(t: Tables, i: nat, k: Kind)
    requires Shape(t) && DescsCounted(t) && i < OWNERS && t.owners[i] >= 0
    requires t.descs[t.owners[i]] == Desc(Unused, 1) && KindOk(k)
    ensures var t' := Adopt(t, t.owners[i], k);
            forall m :: 0 <= m < OWNERS && m != i ==> KindAt(t'.descs, t.owners[m]) == KindAt(t.descs, t.owners[m])
  {
    hide DescsCounted;
    OwnedIsLive(t, i);
  }

  lemma KindsAt(t: Tables, i: nat, k: Kind)
    requires Shape(t) && i < OWNERS && t.owners[i] >= 0 && KindOk(k)
    ensures KindAt(Adopt(t, t.owners[i], k).descs, t.owners[i]) == k
    ensures KindAt(t.descs, t.owners[i]) == t.descs[t.owners[i]].kind
  {
  }

  /** Resource j is recorded and freed as a delta on resource k demands. */
  predicate Adjusted(t: Tables, t': Tables, k: Kind, delta: int, j: Kind)
    requires Shape(t) && Shape(t') && IsResource(j)
  {
    && Recorded(t', j) == Recorded(t, j) + (if j == k then delta else 0)
    && SlotInUse(t', j) == if delta < 0 && IsResource(k) && SameSlot(j, k) then StillHeld(t, k) else SlotInUse(t, j)
  }

  lemma ResourceAfter(t: Tables, t': Tables, k: Kind, delta: int, j: Kind)
    requires Counted(t) && Shifted(t, t', k, delta) && -1 <= delta <= 1 && IsResource(j)
    requires IsResource(k) && delta != 0 ==> Reaching(t, k) > 0
    requires delta < 0 && IsResource(k) ==> t.newborn == -1
    requires Adjusted(t, t', k, delta, j)
    ensures ResourceCounted(t', j)
  {
    assert ResourceCounted(t, j);
    if j.PipeEnd? {
      assert ResourceCounted(t, PipeEnd(j.id, Reader)) && ResourceCounted(t, PipeEnd(j.id, Writer));
    }
  }

  lemma CountedAfter(t: Tables, t': Tables, k: Kind, delta: int)
    requires Counted(t) && Shifted(t, t', k, delta) && -1 <= delta <= 1
    requires IsResource(k) && delta != 0 ==> Reaching(t, k) > 0
    requires delta < 0 && IsResource(k) ==> t.newborn == -1
    requires forall j :: IsResource(j) ==> Adjusted(t, t', k, delta, j)
    ensures Counted(t')
  {
    forall j | IsResource(j)
      ensures ResourceCounted(t', j)
    {
      ResourceAfter(t, t', k, delta, j);
    }
  }

  lemma AcquireKeepsCounts(t: Tables, i: nat, d: nat)
    requires Counted(t) && i < OWNERS && t.owners[i] == -1
    requires d < MAX_FILEDESCS && t.descs[d].refs > 0
    ensures Counted(Acquire(t, i, d))
  {
    var k := t.descs[d].kind;
    var t' := Acquire(t, i, d);
    AcquireShifts(t, i, d);
    if IsResource(k) {
      LiveDescIsNeeded(t, d);
    }
    forall j | IsResource(j)
      ensures Adjusted(t, t', k, 1, j)
    {
      if IsResource(k) {
        IncResourceRecords(t, k, j);
      }
    }
    CountedAfter(t, t', k, 1);
  }

  lemma ReleaseKeepsCounts(t: Tables, i: nat)
    requires Counted(t) && i < OWNERS && t.owners[i] >= 0
    requires t.newborn == -1 || !IsResource(t.descs[t.owners[i]].kind)
    ensures Counted(Release(t, i))
  {
    var d := t.owners[i];
    var k := t.descs[d].kind;
    var t' := Release(t, i);
    ReleaseShifts(t, i);
    OwnedIsLive(t, i);
    if IsResource(k) {
      LiveDescIsNeeded(t, d);
    }
    forall j | IsResource(j)
      ensures Adjusted(t, t', k, -1, j)
    {
      if IsResource(k) {
        DecResourceRecords(t, k, j);
      }
    }
    CountedAfter(t, t', k, -1);
  }

  lemma ReserveKeepsCounts(t: Tables, i: nat, d: nat)
    requires Counted(t) && i < OWNERS && t.owners[i] == -1
    requires d < MAX_FILEDESCS && t.descs[d].refs == 0
    ensures Counted(Reserve(t, i, d))
  {
    var t' := Reserve(t, i, d);
    ReserveShifts(t, i, d);
    forall j | IsResource(j)
      ensures Adjusted(t, t', Unused, 0, j)
    {
    }
    CountedAfter(t, t', Unused, 0);
  }

  /** A description may be tied to a resource only against the loose reference
      that the resource's allocation left behind. */
  lemma AdoptKeepsCounts(t: Tables, i: nat, k: Kind)
    requires Counted(t) && i < OWNERS && t.owners[i] >= 0
    requires t.descs[t.owners[i]] == Desc(Unused, 1) && KindOk(k)
    requires IsResource(k) ==> t.loose == multiset{k}
    ensures Counted(Adopt(t, t.owners[i], k))
  {
    var t' := Adopt(t, t.owners[i], k);
    AdoptShifts(t, i, k);
    forall j | IsResource(j)
      ensures Adjusted(t, t', k, 0, j)
    {
    }
    CountedAfter(t, t', k, 0);
  }

  // ----- birth and death of resources outside any description

  function FreshPipe(p: Pipe): Pipe {
    p.(used := true, readRefs := 0, writeRefs := 0, rpos := 0, wpos := 0, count := 0)
  }

  function AbortedPipe(p: Pipe): Pipe {
    FreshPipe(p).(used := false)
  }

  /** pipe_create took slot id: in use although nobody reaches it yet. */
  function PipeBorn(t: Tables, id: nat): Tables
    requires Shape(t) && id < MAX_PIPES
  {
    t.(pipes := t.pipes[id := FreshPipe(t.pipes[id])], newborn := id)
  }

  function PipeAbort(t: Tables, id: nat): Tables
    requires Shape(t) && id < MAX_PIPES
  {
    t.(pipes := t.pipes[id := AbortedPipe(t.pipes[id])], newborn := -1)
  }

  /** pipe_on_desc_incref on behalf of a description about to be tied to k. */
  function PipeRef(t: Tables, k: Kind): Tables
    requires Shape(t)
  {
    IncResource(t, k).(loose := multiset{k}, newborn := -1)
  }

  /** A socket slot is allocated holding one reference. */
  function SocketBorn(t: Tables, k: Kind): Tables
    requires Shape(t) && IsResource(k) && !k.PipeEnd?
  {
    match k
    case Udp6(s) => t.(udp := t.udp[s := Sock(true, 1)], loose := multiset{k})
    case Tcp6(c) => t.(tcp := t.tcp[c := Sock(true, 1)], loose := multiset{k})
  }

  function SocketDropped(t: Tables, k: Kind): Tables
    requires Shape(t)
  {
    DecResource(t, k).(loose := multiset{})
  }

  lemma PipeBornKeepsCounts(t: Tables, id: nat)
    requires Counted(t) && id < MAX_PIPES && !t.pipes[id].used && t.newborn == -1
    ensures Counted(PipeBorn(t, id))
  {
    var t' := PipeBorn(t, id);
    forall j | IsResource(j)
      ensures ResourceCounted(t', j)
    {
      assert ResourceCounted(t, j);
      assert Reaching(t', j) == Reaching(t, j);
    }
  }

  lemma PipeAbortKeepsCounts(t: Tables, id: nat)
    requires Counted(t) && id < MAX_PIPES && (t.newborn == id || t.newborn == -1)
    requires t.pipes[id].readRefs == 0 && t.pipes[id].writeRefs == 0
    ensures Counted(PipeAbort(t, id))
  {
    var t' := PipeAbort(t, id);
    assert ResourceCounted(t, PipeEnd(id, Reader)) && ResourceCounted(t, PipeEnd(id, Writer));
    forall j | IsResource(j)
      ensures ResourceCounted(t', j)
    {
      assert ResourceCounted(t, j);
      assert Reaching(t', j) == Reaching(t, j);
    }
  }

  lemma PipeRefShifts(t: Tables, k: Kind, j: Kind)
    requires Shape(t) && k.PipeEnd? && IsResource(k) && t.pipes[k.id].used && t.loose == multiset{}
    requires IsResource(j)
    ensures Shape(PipeRef(t, k))
    ensures Recorded(PipeRef(t, k), j) == Recorded(t, j) + Bit(j == k)
    ensures SlotInUse(PipeRef(t, k), j) == SlotInUse(t, j)
    ensures Reaching(PipeRef(t, k), j) == Reaching(t, j) + Bit(j == k)
  {
  }

  lemma PipeRefKeepsCounts(t: Tables, k: Kind)
    requires Counted(t) && k.PipeEnd? && IsResource(k) && t.pipes[k.id].used && t.loose == multiset{}
    requires t.newborn == -1 || t.newborn == k.id
    ensures Counted(PipeRef(t, k))
  {
    hide IncResource;
    var t' := PipeRef(t, k);
    PipeRefShape(t, k);
    forall j | IsResource(j)
      ensures ResourceCounted(t', j)
    {
      assert ResourceCounted(t, j);
      PipeRefShifts(t, k, j);
      if j.PipeEnd? {
        PipeRefShifts(t, k, PipeEnd(j.id, Reader));
        PipeRefShifts(t, k, PipeEnd(j.id, Writer));
      }
    }
  }

  lemma PipeRefShape(t: Tables, k: Kind)
    requires Shape(t)
    ensures var t' := PipeRef(t, k); Shape(t') && t'.descs == t.descs && t'.owners == t.owners
  {
  }

  lemma SocketBornKeepsCounts(t: Tables, k: Kind)
    requires Counted(t) && IsResource(k) && !k.PipeEnd? && !SlotInUse(t, k) && t.loose == multiset{}
    ensures Counted(SocketBorn(t, k))
  {
    var t' := SocketBorn(t, k);
    assert ResourceCounted(t, k);
    forall j | IsResource(j)
      ensures ResourceCounted(t', j)
    {
      assert ResourceCounted(t, j);
      assert Reaching(t', j) == Reaching(t, j) + Bit(j == k);
    }
  }

  lemma SocketDroppedKeepsCounts(t: Tables, k: Kind)
    requires Counted(t) && IsResource(k) && !k.PipeEnd? && t.loose == multiset{k}
    ensures Counted(SocketDropped(t, k))
  {
    var t' := SocketDropped(t, k);
    assert ResourceCounted(t, k);
    forall j | IsResource(j)
      ensures ResourceCounted(t', j)
    {
      assert ResourceCounted(t, j);
      assert Reaching(t', j) == Reaching(t, j) - Bit(j == k);
    }
  }
}
