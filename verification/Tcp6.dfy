/** The receive half of the TCP-over-IPv6 client: sequence check, receive ring, end of stream. */
module Tcp6 {
  import opened Bytes
  import opened Errno

  const M := 0x1_0000_0000
  const RX_CAP := 8192

  type u32 = x: int | 0 <= x < M

  datatype State = Closed | SynSent | Established | CloseWait

  /** A segment that passed the address, port, header and checksum tests. */
  datatype Segment = Segment(seqNo: u32, ack: u32, syn: bool, isAck: bool, fin: bool, data: seq<byte>)

  /** A connection's receive state; queue is what the ring holds, oldest first. */
  datatype Tcb = Tcb(state: State, sndUna: u32, sndNxt: u32, irs: u32, rcvNxt: u32, queue: seq<byte>)

  function Plus(a: u32, n: nat): u32 { (a + n) % M }

  function Min(a: nat, b: nat): nat { if a < b then a else b }

  /** tcp6_input: the next state, and whether an ACK of rcvNxt is called for. */
  function Input(t: Tcb, s: Segment): (Tcb, bool) {
    match t.state
    case Closed => (t, false)
    case SynSent =>
      if s.syn && s.isAck && s.ack == t.sndNxt then
        (t.(irs := s.seqNo, rcvNxt := Plus(s.seqNo, 1), sndUna := s.ack, state := Established), true)
      else (t, false)
    case _ =>
      var t := if s.isAck && s.ack > t.sndUna then t.(sndUna := s.ack) else t;
      if s.fin then
        (if s.seqNo == t.rcvNxt then t.(rcvNxt := Plus(t.rcvNxt, 1), state := CloseWait) else t, true)
      else if s.data == [] then (t, false)
      else if s.seqNo != t.rcvNxt then (t, true)
      else
        var n := Min(|s.data|, RX_CAP - Min(RX_CAP, |t.queue|));
        (t.(queue := t.queue + s.data[..n], rcvNxt := Plus(t.rcvNxt, n)), true)
  }

  /** net_tcp6_try_recv with a good buffer: result and bytes. The length is narrowed to 32 bits. */
  function Recv(t: Tcb, len: nat): (int, seq<byte>) {
    if t.queue == [] then ((if t.state == CloseWait then 0 else -EAGAIN), [])
    else if len == 0 then (0, [])
    else
      var n := Min(|t.queue|, len % M);
      (n, t.queue[..n])
  }

  function AfterRecv(t: Tcb, len: nat): Tcb {
    t.(queue := t.queue[|Recv(t, len).1|..])
  }

  // ----- the peer

  /** The sequence number of stream position a: the SYN takes isn itself. */
  function SeqOf(isn: u32, a: nat): u32 { Plus(isn, 1 + a) }

  /** How many sequence numbers past the SYN have been received. */
  function Received(t: Tcb, returned: seq<byte>): nat {
    |returned| + |t.queue| + (if t.state == CloseWait then 1 else 0)
  }

  predicate Near(a: int, b: int) { -M < a - b < M }

  /** Positions close to each other are told apart by their 32-bit numbers, and those 4 GiB apart are not. */
  lemma NearSeq(isn: u32, a: nat, b: nat)
    requires Near(a, b)
    ensures SeqOf(isn, a) == SeqOf(isn, b) <==> a == b
    ensures SeqOf(isn, a + 0x1_0000_0000) == SeqOf(isn, a)
  {
    var qa, qb := (isn + 1 + a) / M, (isn + 1 + b) / M;
    assert isn + 1 + a == qa * M + SeqOf(isn, a);
    assert isn + 1 + b == qb * M + SeqOf(isn, b);
    if SeqOf(isn, a) == SeqOf(isn, b) {
      assert a - b == (qa - qb) * M;
    }
  }

  lemma PlusPlus(a: u32, m: nat, n: nat)
    ensures Plus(Plus(a, m), n) == Plus(a, m + n)
  {
  }

  /** Segments of a peer that sends one fixed stream: its SYN, or a piece of the stream at its
      sequence number, where a FIN is numbered just past the data it comes with. */
  predicate FromPeer(stream: seq<byte>, isn: u32, s: Segment, at: nat) {
    if s.syn then s.seqNo == isn && !s.fin && s.data == []
    else
      && s.seqNo == SeqOf(isn, at) && at + |s.data| <= |stream|
      && s.data == stream[at..at + |s.data|]
      && (s.fin ==> at + |s.data| == |stream|)
  }

  /** A FIN that carries data and arrives exactly at the receive point. */
  predicate FinTakesData(t: Tcb, returned: seq<byte>, s: Segment, at: nat) {
    s.fin && s.data != [] && t.state == Established && at == Received(t, returned)
  }

  /** Everything returned and queued is the stream so far, and only a whole stream is ever closed. */
  predicate Faithful(stream: seq<byte>, isn: u32, t: Tcb, returned: seq<byte>) {
    && |t.queue| <= RX_CAP
    && match t.state
       case Closed => returned == [] && t.queue == []
       case SynSent => returned == [] && t.queue == []
       case Established => returned + t.queue <= stream && t.rcvNxt == SeqOf(isn, Received(t, returned))
       case CloseWait => returned + t.queue == stream && t.rcvNxt == SeqOf(isn, Received(t, returned))
  }

  lemma FinFaithful(stream: seq<byte>, isn: u32, t: Tcb, returned: seq<byte>, s: Segment, at: nat)
    requires Faithful(stream, isn, t, returned) && FromPeer(stream, isn, s, at) && s.fin
    requires t.state in {Established, CloseWait} && Near(at, Received(t, returned))
    ensures Faithful(stream, isn, Input(t, s).0, returned) <==> !FinTakesData(t, returned, s, at)
  {
    hide Plus;
    NearSeq(isn, at, Received(t, returned));
    PlusPlus(isn, 1 + Received(t, returned), 1);
  }

  lemma DataFaithful(stream: seq<byte>, isn: u32, t: Tcb, returned: seq<byte>, s: Segment, at: nat)
    requires Faithful(stream, isn, t, returned) && FromPeer(stream, isn, s, at) && !s.fin && !s.syn
    requires t.state in {Established, CloseWait} && Near(at, Received(t, returned))
    ensures Faithful(stream, isn, Input(t, s).0, returned)
  {
    hide Plus;
    NearSeq(isn, at, Received(t, returned));
    if at == Received(t, returned) && s.data != [] {
      var n := Min(|s.data|, RX_CAP - |t.queue|);
      PlusPlus(isn, 1 + Received(t, returned), n);
      assert s.data[..n] == stream[at..at + |s.data|][..n] == stream[at..at + n];
      assert returned + (t.queue + s.data[..n]) == stream[..at + n];
    }
  }

  /** Exactly when one segment keeps the receiver faithful. */
  lemma InputFaithful(stream: seq<byte>, isn: u32, t: Tcb, returned: seq<byte>, s: Segment, at: nat)
    requires Faithful(stream, isn, t, returned) && FromPeer(stream, isn, s, at)
    requires t.state in {Established, CloseWait} ==> Near(at, Received(t, returned))
    ensures Faithful(stream, isn, Input(t, s).0, returned) <==> !FinTakesData(t, returned, s, at)
  {
    if t.state in {Established, CloseWait} {
      if s.fin {
        FinFaithful(stream, isn, t, returned, s, at);
      } else if !s.syn {
        DataFaithful(stream, isn, t, returned, s, at);
      }
    }
  }

  lemma RecvFaithful(stream: seq<byte>, isn: u32, t: Tcb, returned: seq<byte>, len: nat)
    requires Faithful(stream, isn, t, returned)
    ensures var (rc, bytes) := Recv(t, len);
            && Faithful(stream, isn, AfterRecv(t, len), returned + bytes)
            && (rc > 0 ==> rc == |bytes|) && (rc <= 0 ==> bytes == [])
            && (rc == 0 && len % M > 0 ==> returned == stream)
            && (rc == -EAGAIN ==> t.queue == [] && t.state != CloseWait)
  {
  }

  // ----- runs

  datatype Event = Arrives(s: Segment, at: nat) | Reads(len: nat)

  /** A connection and everything its reader has been given. */
  datatype Session = Session(t: Tcb, returned: seq<byte>)

  function Step(c: Session, e: Event): Session {
    match e
    case Arrives(s, _) => Session(Input(c.t, s).0, c.returned)
    case Reads(len) => Session(AfterRecv(c.t, len), c.returned + Recv(c.t, len).1)
  }

  /** The session after the first n events. */
  function Run(c: Session, events: seq<Event>, n: nat): Session
    requires n <= |events|
  {
    if n == 0 then c else Step(Run(c, events, n - 1), events[n - 1])
  }

  /** Any loss, duplication and reordering of the peer's segments, any reads in between: what
      arrives is the peer's, near the receive point, and not a data-carrying FIN taken in order. */
  predicate EventOk(stream: seq<byte>, isn: u32, c: Session, e: Event) {
    match e
    case Arrives(s, at) =>
      && FromPeer(stream, isn, s, at)
      && (c.t.state in {Established, CloseWait} ==> Near(at, Received(c.t, c.returned)))
      && !FinTakesData(c.t, c.returned, s, at)
    case Reads(_) => true
  }

  /** A read of at least one byte that returns 0 has come after the whole stream. */
  predicate EofHonest(stream: seq<byte>, c: Session, e: Event) {
    e.Reads? && e.len % M > 0 && Recv(c.t, e.len).0 == 0 ==> c.returned == stream
  }

  predicate FaithfulSession(stream: seq<byte>, isn: u32, c: Session) { Faithful(stream, isn, c.t, c.returned) }

  lemma StepFaithful(stream: seq<byte>, isn: u32, c: Session, e: Event)
    requires FaithfulSession(stream, isn, c) && EventOk(stream, isn, c, e)
    ensures FaithfulSession(stream, isn, Step(c, e)) && EofHonest(stream, c, e)
    ensures c.returned <= Step(c, e).returned <= stream
  {
    hide Input, Recv, AfterRecv, Plus;
    match e {
      case Arrives(s, at) => InputFaithful(stream, isn, c.t, c.returned, s, at);
      case Reads(len) => RecvFaithful(stream, isn, c.t, c.returned, len);
    }
    PrefixOfStream(stream, isn, Step(c, e));
  }

  lemma PrefixOfStream(stream: seq<byte>, isn: u32, c: Session)
    requires FaithfulSession(stream, isn, c)
    ensures c.returned <= stream
  {
  }

  /** Over every run: the reader always has a prefix of the stream, and is told of the end only at the end. */
  lemma {:induction false} RunFaithful(stream: seq<byte>, isn: u32, c: Session, events: seq<Event>, n: nat)
    requires n <= |events| && FaithfulSession(stream, isn, c)
    requires forall i :: 0 <= i < n ==> EventOk(stream, isn, Run(c, events, i), events[i])
    ensures FaithfulSession(stream, isn, Run(c, events, n)) && Run(c, events, n).returned <= stream
    ensures forall i :: 0 <= i < n ==> EofHonest(stream, Run(c, events, i), events[i])
  {
    hide Step, EventOk, EofHonest, FaithfulSession;
    if n == 0 {
      PrefixOfStream(stream, isn, c);
    } else {
      RunFaithful(stream, isn, c, events, n - 1);
      StepFaithful(stream, isn, Run(c, events, n - 1), events[n - 1]);
    }
  }

  /** What a peer with a stream shorter than 4 GiB and empty FINs may send needs no reference to the receiver. */
  predicate PlainPeer(stream: seq<byte>, isn: u32, e: Event) {
    e.Arrives? ==> FromPeer(stream, isn, e.s, e.at) && (e.s.syn ==> e.at <= |stream|) && (e.s.fin ==> e.s.data == [])
  }

  lemma {:induction false} PlainRunFaithful(stream: seq<byte>, isn: u32, c: Session, events: seq<Event>, n: nat)
    requires n <= |events| && |stream| < M - 1 && FaithfulSession(stream, isn, c)
    requires forall i :: 0 <= i < n ==> PlainPeer(stream, isn, events[i])
    ensures FaithfulSession(stream, isn, Run(c, events, n)) && Run(c, events, n).returned <= stream
    ensures forall i :: 0 <= i < n ==> EofHonest(stream, Run(c, events, i), events[i])
  {
    hide Step, EofHonest;
    if n == 0 {
      PrefixOfStream(stream, isn, c);
    } else {
      PlainRunFaithful(stream, isn, c, events, n - 1);
      StepFaithful(stream, isn, Run(c, events, n - 1), events[n - 1]);
    }
  }

  /** Two reads: one that empties the queue, then one of a single byte. */
  function DrainAndProbe(): seq<Event> { [Reads(RX_CAP), Reads(1)] }

  /** A FIN that takes data closes the connection with bytes of the stream still to come. */
  lemma TakenFin(stream: seq<byte>, isn: u32, c: Session, s: Segment, at: nat)
    requires FaithfulSession(stream, isn, c) && FromPeer(stream, isn, s, at) && FinTakesData(c.t, c.returned, s, at)
    ensures var t := Input(c.t, s).0;
            t.state == CloseWait && t.queue == c.t.queue && |c.returned| + |t.queue| < |stream|
  {
    hide Plus;
    NearSeq(isn, at, Received(c.t, c.returned));
  }

  /** Exactly then it shows: from a faithful session, the reader that empties the queue and asks for more is told
      the end too early exactly when the segment that came before was a FIN with data, taken in order. */
  lemma LostFinShows(stream: seq<byte>, isn: u32, c: Session, s: Segment, at: nat)
    requires FaithfulSession(stream, isn, c) && FromPeer(stream, isn, s, at)
    requires c.t.state in {Established, CloseWait} ==> Near(at, Received(c.t, c.returned))
    ensures var events := [Arrives(s, at)] + DrainAndProbe();
            FinTakesData(c.t, c.returned, s, at) <==> !EofHonest(stream, Run(c, events, 2), events[2])
  {
    hide Plus, Near, FromPeer;
    var events := [Arrives(s, at)] + DrainAndProbe();
    var c1 := Step(c, events[0]);
    assert Run(c, events, 1) == c1 by { assert Run(c, events, 0) == c; }
    var c2 := Step(c1, events[1]);
    assert Run(c, events, 2) == c2;
    if FinTakesData(c.t, c.returned, s, at) {
      TakenFin(stream, isn, c, s, at);
      assert c2.returned == c1.returned + c1.t.queue;
    } else {
      StepFaithful(stream, isn, c, events[0]);
      StepFaithful(stream, isn, c1, events[1]);
      StepFaithful(stream, isn, c2, events[2]);
    }
  }

  /** A connection that has just sent its SYN is faithful to any stream. */
  lemma FreshFaithful(stream: seq<byte>, isn: u32, t: Tcb)
    requires t.state == SynSent && t.queue == []
    ensures FaithfulSession(stream, isn, Session(t, []))
  {
  }

  /** The whole stream [7] in one segment with the FIN: the reader is told the end without having seen it. */
  lemma FinPayloadLost()
    ensures var s := Segment(1, 0, false, true, true, [7]);
            var c := Session(Tcb(Established, 0, 0, 0, 1, []), []);
            && FaithfulSession([7], 0, c) && FromPeer([7], 0, s, 0)
            && Run(c, [Arrives(s, 0)], 1).returned == [] && Recv(Run(c, [Arrives(s, 0)], 1).t, 10).0 == 0
  {
  }

  /** Data that starts at the receive point adds as many of its bytes as fit, and exactly those are acknowledged. */
  lemma InOrderAccepted(stream: seq<byte>, isn: u32, c: Session, s: Segment)
    requires FaithfulSession(stream, isn, c) && c.t.state == Established
    requires FromPeer(stream, isn, s, Received(c.t, c.returned)) && !s.syn && !s.fin
    ensures var room := 8192 - |c.t.queue|;
            var n := if |s.data| < room then |s.data| else room;
            && room >= 0 && Input(c.t, s).0.queue == c.t.queue + s.data[..n]
            && Input(c.t, s).0.rcvNxt == SeqOf(isn, Received(c.t, c.returned) + n)
  {
    if s.data != [] {
      PlusPlus(isn, 1 + Received(c.t, c.returned), Min(|s.data|, RX_CAP - |c.t.queue|));
    } else {
      assert c.t.queue + s.data[..0] == c.t.queue;
    }
  }

  // ----- opening, answering, and telling the end

  /** The SYN-ACK of the peer that was called opens the connection, ready for the first byte of its stream; in that
      state any other segment changes nothing. */
  lemma Opens(stream: seq<byte>, isn: u32, t: Tcb, s: Segment)
    requires t.state == SynSent && t.queue == [] && FromPeer(stream, isn, s, 0)
    ensures s.syn && s.isAck && s.ack == t.sndNxt ==>
              && Faithful(stream, isn, Input(t, s).0, []) && Input(t, s).0.state == Established
              && Input(t, s).0.rcvNxt == SeqOf(isn, 0) && Input(t, s).0.sndUna == t.sndNxt
    ensures !(s.syn && s.isAck && s.ack == t.sndNxt) ==> Input(t, s).0 == t
  {
  }

  /** Whatever takes up sequence numbers is answered: the SYN-ACK that opens the connection, and from then on every
      FIN and every segment with data, wanted or not. */
  lemma AckCalled(t: Tcb, s: Segment)
    ensures Input(t, s).1 <==>
              || (t.state == SynSent && s.syn && s.isAck && s.ack == t.sndNxt)
              || (t.state in {Established, CloseWait} && (s.fin || s.data != []))
    ensures t.state in {Established, CloseWait} ==>
              Input(t, s).0.sndUna == (if s.isAck then Max(t.sndUna, s.ack) else t.sndUna)
    ensures Input(t, s).0.sndNxt == t.sndNxt && (t.state == Closed ==> Input(t, s).0 == t)
  {
  }

  function Max(a: u32, b: u32): u32 { if a < b then b else a }

  /** What a read answers: as many of the oldest bytes as fit; with none there, 0 after the peer's end and EAGAIN
      before it. */
  lemma RecvExactly(t: Tcb, len: nat)
    ensures var (rc, bytes) := Recv(t, len);
            && (rc == -EAGAIN <==> t.queue == [] && t.state != CloseWait)
            && (t.queue == [] && t.state == CloseWait ==> rc == 0)
            && (t.queue != [] ==> rc == |bytes| && bytes == t.queue[..rc] && AfterRecv(t, len).queue == t.queue[rc..])
            && (t.queue != [] && len < M ==> (rc == len || (rc < len && rc == |t.queue|)))
            && AfterRecv(t, len) == t.(queue := AfterRecv(t, len).queue) && (rc <= 0 ==> bytes == [])
  {
  }

  /** The whole stream has been received, and so has its end. */
  predicate Ended(stream: seq<byte>, c: Session) {
    c.t.state == CloseWait && c.returned + c.t.queue == stream
  }

  /** The peer's FIN, with no data, at the receive point: it is taken. */
  predicate EndArrives(stream: seq<byte>, c: Session, e: Event) {
    && e.Arrives? && e.s.fin && !e.s.syn && e.s.data == [] && e.at == |stream|
    && c.t.state == Established && |c.returned| + |c.t.queue| == |stream|
  }

  lemma EndTaken(stream: seq<byte>, isn: u32, c: Session, e: Event)
    requires FaithfulSession(stream, isn, c) && EventOk(stream, isn, c, e) && EndArrives(stream, c, e)
    ensures Ended(stream, Step(c, e)) && Step(c, e).t.queue == c.t.queue
  {
  }

  lemma EndStays(stream: seq<byte>, isn: u32, c: Session, e: Event)
    requires FaithfulSession(stream, isn, c) && EventOk(stream, isn, c, e) && Ended(stream, c)
    ensures Ended(stream, Step(c, e))
  {
    hide Plus;
    StepFaithful(stream, isn, c, e);
  }

  /** Over every run: once the whole stream and then its FIN have arrived, under any duplication and reordering
      afterwards, every read of at least one byte hands out the next bytes of the stream, and 0 exactly when there
      are none left; never EAGAIN. */
  lemma {:induction false} EndIsTold(stream: seq<byte>, isn: u32, c: Session, events: seq<Event>, k: nat, n: nat)
    requires k < n <= |events| && FaithfulSession(stream, isn, c)
    requires forall i :: 0 <= i < n ==> EventOk(stream, isn, Run(c, events, i), events[i])
    requires EndArrives(stream, Run(c, events, k), events[k])
    ensures var now := Run(c, events, n);
            && Ended(stream, now)
            && forall len :: 0 < len < M ==>
                 var (rc, bytes) := Recv(now.t, len);
                 && 0 <= rc <= len && now.returned + bytes <= stream && rc == |bytes|
                 && (rc < len ==> now.returned + bytes == stream) && (rc == 0 <==> now.returned == stream)
    decreases n
  {
    hide Step, EventOk, FaithfulSession, EndArrives, Ended;
    RunFaithful(stream, isn, c, events, n - 1);
    var before := Run(c, events, n - 1);
    if n == k + 1 {
      EndTaken(stream, isn, before, events[k]);
    } else {
      EndIsTold(stream, isn, c, events, k, n - 1);
      EndStays(stream, isn, before, events[n - 1]);
    }
    ReadsOn(stream, Run(c, events, n));
  }

  /** So the answers that Serve gives to reads after the end are counts of bytes, and 0 means the end. */
  lemma AnswersAfterEnd(stream: seq<byte>, isn: u32, c: Session, events: seq<Event>, answers: seq<int>, k: nat, n: nat)
    requires k < n < |events| == |answers| && FaithfulSession(stream, isn, c)
    requires forall i :: 0 <= i < n ==> EventOk(stream, isn, Run(c, events, i), events[i])
    requires EndArrives(stream, Run(c, events, k), events[k])
    requires events[n].Reads? && 0 < events[n].len < M && answers[n] == Recv(Run(c, events, n).t, events[n].len).0
    ensures answers[n] >= 0 && (answers[n] == 0 <==> Run(c, events, n).returned == stream)
    ensures var now, after := Run(c, events, n).returned, Run(c, events, n + 1).returned;
            now <= after <= stream && |after| == |now| + answers[n]
  {
    hide EventOk, FaithfulSession, EndArrives, Ended, Recv;
    EndIsTold(stream, isn, c, events, k, n);
    var now := Run(c, events, n);
    assert Run(c, events, n + 1).returned == now.returned + Recv(now.t, events[n].len).1;
  }

  lemma ReadsOn(stream: seq<byte>, c: Session)
    requires Ended(stream, c)
    ensures forall len :: 0 < len < M ==>
              var (rc, bytes) := Recv(c.t, len);
              && 0 <= rc <= len && c.returned + bytes <= stream && rc == |bytes|
              && (rc < len ==> c.returned + bytes == stream) && (rc == 0 <==> c.returned == stream)
  {
    forall len | 0 < len < M
      ensures var (rc, bytes) := Recv(c.t, len);
              && 0 <= rc <= len && c.returned + bytes <= stream && rc == |bytes|
              && (rc < len ==> c.returned + bytes == stream) && (rc == 0 <==> c.returned == stream)
    {
      RecvExactly(c.t, len);
      var rc := Recv(c.t, len).0;
      if c.t.queue != [] { assert stream == c.returned + c.t.queue[..rc] + c.t.queue[rc..]; }
    }
  }

  // ----- the connection object

  /** What the network layer has for a connection: an interface, a free local port, whether a SYN went out in the
      last 200 ms, the result of finding the next hop, a source address, and the result of sending. */
  datatype Net = Net(nic: bool, freePort: bool, sentJustNow: bool, l2: int, source: bool, sent: int)

  function After(r: nat, i: nat): nat { if r + i < RX_CAP then r + i else r + i - RX_CAP }

  /** The ring's bytes, oldest first. */
  function Oldest(rx: seq<byte>, head: nat, count: nat): (q: seq<byte>)
    requires |rx| == RX_CAP && head < RX_CAP && count <= RX_CAP
    ensures |q| == count
  {
    seq(count, i requires 0 <= i < count => rx[After(head, i)])
  }

  lemma PushOne(rx: seq<byte>, head: nat, count: nat, b: byte)
    requires |rx| == RX_CAP && head < RX_CAP && count < RX_CAP
    ensures Oldest(rx[After(head, count) := b], head, count + 1) == Oldest(rx, head, count) + [b]
  {
  }

  lemma DropSome(rx: seq<byte>, head: nat, count: nat, n: nat)
    requires |rx| == RX_CAP && head < RX_CAP && n <= count <= RX_CAP
    ensures After(head, n) < RX_CAP && Oldest(rx, After(head, n), count - n) == Oldest(rx, head, count)[n..]
  {
  }

  class Connection {
    var used: bool
    var state: State
    var sndUna: u32
    var sndNxt: u32
    var irs: u32
    var rcvNxt: u32
    const rx: array<byte>
    var head: nat
    var tail: nat
    var count: nat

    ghost predicate Valid() reads this {
      rx.Length == RX_CAP && head < RX_CAP && count <= RX_CAP && tail == After(head, count)
    }

    ghost function View(): Tcb
      requires Valid()
      reads this, rx
    {
      Tcb(state, sndUna, sndNxt, irs, rcvNxt, Oldest(rx[..], head, count))
    }

    constructor ()
      ensures Valid() && fresh(rx) && used && View() == Tcb(Closed, 0, 0, 0, 0, [])
    {
      used, state, sndUna, sndNxt, irs, rcvNxt := true, Closed, 0, 0, 0, 0;
      rx := new byte[RX_CAP];
      head, tail, count := 0, 0, 0;
    }

    /** net_tcp6_connect_start: a closed connection sends its SYN, and one that is still waiting sends it again
        unless it did so just now. */
    method ConnectStart(argsOk: bool, iss: u32, net: Net) returns (rc: int)
      requires Valid()
      modifies this
      ensures Valid() && used == old(used)
      ensures var syn := if net.l2 < 0 then net.l2 else if !net.source then -EAGAIN else net.sent;
              rc == if !argsOk then -EINVAL else if !used then -EBADF
                    else match old(state)
                         case Established => 0
                         case Closed => if !net.nic then -ENODEV else if !net.freePort then -EADDRINUSE else syn
                         case SynSent => if !net.nic then -ENODEV else if net.sentJustNow then 0 else syn
                         case CloseWait => if !net.nic then -ENODEV else -EINVAL
      // whatever becomes of the segment, the connection is waiting from then on, with an empty ring
      ensures View() == if argsOk && used && old(state) == Closed && net.nic && net.freePort
                        then Tcb(SynSent, iss, Plus(iss, 1), 0, 0, []) else old(View())
    {
      if !argsOk { return -EINVAL; }
      if !used { return -EBADF; }
      if state == Established { return 0; }
      if !net.nic { return -ENODEV; }
      var sentBefore := state != Closed;
      if state == Closed {
        if !net.freePort { return -EADDRINUSE; }
        sndUna, sndNxt, irs, rcvNxt := iss, Plus(iss, 1), 0, 0;
        head, tail, count := 0, 0, 0;
        state := SynSent;
      }
      if state != SynSent { return -EINVAL; }
      if sentBefore && net.sentJustNow { return 0; }
      if net.l2 < 0 { return net.l2; }
      if !net.source { return -EAGAIN; }
      return net.sent;
    }

    /** tcp6_input once the segment has been matched to this connection; an ACK can be sent only if a next hop and a
        source address are found. */
    method TakeSegment(s: Segment, reachable: bool) returns (sent: bool)
      requires Valid()
      modifies this, rx
      ensures Valid() && used == old(used)
      ensures View() == Input(old(View()), s).0 && sent == (Input(old(View()), s).1 && reachable)
    {
      if state == SynSent {
        if s.syn && s.isAck {
          if s.ack == sndNxt {
            irs := s.seqNo;
            rcvNxt := Plus(s.seqNo, 1);
            sndUna := s.ack;
            state := Established;
            return reachable;
          }
        }
        return false;
      }
      if state != Established && state != CloseWait { return false; }
      if s.isAck {
        if s.ack > sndUna { sndUna := s.ack; }
      }
      if s.fin {
        if s.seqNo == rcvNxt {
          rcvNxt := Plus(rcvNxt, 1);
          state := CloseWait;
        }
        return reachable;
      }
      if |s.data| == 0 { return false; }
      if s.seqNo != rcvNxt { return reachable; }
      Append(s.data);
      return reachable;
    }

    method Append(data: seq<byte>)
      requires Valid() && data != []
      modifies this, rx
      ensures Valid() && used == old(used)
      ensures var n := Min(|data|, RX_CAP - |old(View()).queue|);
              View() == old(View()).(queue := old(View()).queue + data[..n], rcvNxt := Plus(old(rcvNxt), n))
    {
      hide Oldest, Plus;
      var space := RX_CAP - count;
      var n := if |data| > space then space else |data|;
      ghost var q := Oldest(rx[..], head, count);
      for i := 0 to n
        invariant unchanged(`used, `state, `sndUna, `sndNxt, `irs, `rcvNxt, `head, `count)
        invariant tail == After(head, count + i) && Oldest(rx[..], head, count + i) == q + data[..i]
      {
        PushOne(rx[..], head, count + i, data[i]);
        ghost var was := rx[..];
        rx[tail] := data[i];
        assert rx[..] == was[After(head, count + i) := data[i]];
        tail := (tail + 1) % RX_CAP;
        assert q + data[..i] + [data[i]] == q + data[..i + 1];
      }
      count := count + n;
      rcvNxt := Plus(rcvNxt, n);
    }

    /** net_tcp6_try_recv. */
    method TryRecv(len: nat, bufferOk: bool) returns (rc: int, bytes: seq<byte>)
      requires Valid()
      modifies this
      ensures Valid() && used == old(used)
      ensures !bufferOk && len != 0 ==> rc == -EINVAL
      ensures (bufferOk || len == 0) && !used ==> rc == -EBADF
      ensures if (bufferOk || len == 0) && used
              then (rc, bytes) == Recv(old(View()), len) && View() == AfterRecv(old(View()), len)
              else bytes == [] && View() == old(View())
    {
      bytes := [];
      if !bufferOk && len != 0 { return -EINVAL, []; }
      if !used { return -EBADF, []; }
      if count == 0 {
        if state == CloseWait { return 0, []; }
        return -EAGAIN, [];
      }
      if len == 0 { return 0, []; }
      var n := count;
      if n > len % M { n := len % M; }
      ghost var q: seq<byte> := Oldest(rx[..], head, count);
      ghost var from := head;
      DropSome(rx[..], head, count, n);
      for i := 0 to n
        invariant rx.Length == RX_CAP && head == After(from, i) && bytes == q[..i]
        invariant unchanged(`used, `state, `sndUna, `sndNxt, `irs, `rcvNxt, `tail, `count)
      {
        bytes := bytes + [rx[head]];
        head := (head + 1) % RX_CAP;
      }
      count := count - n;
      return n, bytes;
    }

    /** Any interleaving of arrivals and reads, and what each read answers. */
    method Serve(events: seq<Event>) returns (bytes: seq<byte>, answers: seq<int>)
      requires Valid() && used
      modifies this, rx
      ensures Valid() && Session(View(), bytes) == Run(Session(old(View()), []), events, |events|)
      ensures |answers| == |events|
      ensures forall i :: 0 <= i < |events| && events[i].Reads? ==>
                answers[i] == Recv(Run(Session(old(View()), []), events, i).t, events[i].len).0
    {
      hide Input, Recv, AfterRecv;
      bytes, answers := [], [];
      for i := 0 to |events|
        invariant Valid() && used && Session(View(), bytes) == Run(Session(old(View()), []), events, i)
        invariant |answers| == i && forall k :: 0 <= k < i && events[k].Reads? ==>
                    answers[k] == Recv(Run(Session(old(View()), []), events, k).t, events[k].len).0
      {
        match events[i] {
          case Arrives(s, _) =>
            var reachable: bool := *;
            var _ := TakeSegment(s, reachable);
            answers := answers + [0];
          case Reads(len) =>
            var rc, got := TryRecv(len, true);
            bytes, answers := bytes + got, answers + [rc];
        }
      }
    }
  }
}
