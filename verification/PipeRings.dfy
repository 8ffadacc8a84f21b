/** The byte ring inside a pipe, as a queue. */
module PipeRings {
  import opened Bytes
  import opened Ownership

  /** The ring index i places after r. */
  function After(r: nat, i: nat): nat {
    if r + i < PIPE_BUF then r + i else r + i - PIPE_BUF
  }

  predicate RingOk(p: Pipe) {
    |p.buf| == PIPE_BUF && p.rpos < PIPE_BUF && p.count <= PIPE_BUF && p.wpos == After(p.rpos, p.count)
  }

  /** The bytes waiting in the ring, oldest first. */
  function Waiting(p: Pipe): (q: seq<byte>)
    requires RingOk(p)
    ensures |q| == p.count
  {
    seq(p.count, i requires 0 <= i < p.count => p.buf[After(p.rpos, i)])
  }

  /** Per pipe slot: how often it was created, and since it was last created the bytes
      writers got accepted and the bytes readers got returned. */
  datatype Streams = Streams(born: seq<nat>, accepted: seq<seq<byte>>, returned: seq<seq<byte>>)

  predicate PerSlot(s: Streams) {
    |s.born| == |s.accepted| == |s.returned| == MAX_PIPES
  }

  predicate AtRest(p: Pipe) { p.rpos == p.wpos == p.count == 0 }

  /** No byte is lost, invented or reordered inside a live pipe. */
  ghost predicate Conserved(pipes: seq<Pipe>, s: Streams) {
    && |pipes| == MAX_PIPES && PerSlot(s)
    && forall i :: 0 <= i < |pipes| ==>
         && RingOk(pipes[i])
         && if pipes[i].used then s.accepted[i] == s.returned[i] + Waiting(pipes[i]) else AtRest(pipes[i])
  }

  /** A pipe slot is created anew, with empty histories. */
  function Restarted(s: Streams, id: nat): Streams
    requires PerSlot(s) && id < MAX_PIPES
  {
    Streams(s.born[id := s.born[id] + 1], s.accepted[id := []], s.returned[id := []])
  }

  /** Histories are only ever added to: while a pipe lives, what was accepted and returned stays so. */
  predicate Extends(s: Streams, s': Streams)
    requires PerSlot(s) && PerSlot(s')
  {
    forall i :: 0 <= i < MAX_PIPES ==>
      && s.born[i] <= s'.born[i]
      && (s.born[i] == s'.born[i] ==> s.accepted[i] <= s'.accepted[i] && s.returned[i] <= s'.returned[i])
  }

  /** Between two moments of one lifetime: what waited and then what came in is what went out and then what waits. */
  lemma QueueBetween(accepted: seq<byte>, returned: seq<byte>, waiting: seq<byte>,
                     accepted': seq<byte>, returned': seq<byte>, waiting': seq<byte>)
    requires accepted == returned + waiting && accepted' == returned' + waiting'
    requires accepted <= accepted' && returned <= returned'
    ensures waiting + accepted'[|accepted|..] == returned'[|returned|..] + waiting'
  {
    var n := |returned|;
    assert waiting + accepted'[|accepted|..] == accepted'[n..] by {
      assert accepted' == accepted + accepted'[|accepted|..];
      assert accepted[n..] == waiting;
    }
    assert returned'[n..] + waiting' == accepted'[n..];
  }

  lemma ExtendsTransitive(s: Streams, s1: Streams, s2: Streams)
    requires PerSlot(s) && PerSlot(s1) && PerSlot(s2) && Extends(s, s1) && Extends(s1, s2)
    ensures Extends(s, s2)
  {
  }

  /** Reference-count edits leave the bytes of every live pipe alone. */
  lemma CountEditsKeepBytes(t: Tables, d: nat, s: Streams)
    requires Shape(t) && d < MAX_FILEDESCS && Conserved(t.pipes, s)
    ensures Conserved(IncRefs(t, d).pipes, s)
    ensures Conserved(DecRefs(t, d).pipes, s)
  {
    match t.descs[d].kind {
      case PipeEnd(id, side) =>
        var p1, p2 := IncRefs(t, d).pipes[id], DecRefs(t, d).pipes[id];
        assert RingOk(p1) && Waiting(p1) == Waiting(t.pipes[id]);
        assert RingOk(p2) && (p2.used ==> Waiting(p2) == Waiting(t.pipes[id]));
      case _ =>
    }
  }

  /** The read loop: takes the oldest n bytes out of the ring. */
  method Drain(p: Pipe, n: nat) returns (data: seq<byte>, p': Pipe)
    requires RingOk(p) && n <= p.count
    ensures RingOk(p') && data == Waiting(p)[..n] && Waiting(p') == Waiting(p)[n..]
    ensures p' == p.(rpos := p'.rpos, count := p.count - n)
  {
    data := [];
    var rpos := p.rpos;
    for i := 0 to n
      invariant |data| == i && rpos == After(p.rpos, i)
      invariant data == Waiting(p)[..i]
    {
      data := data + [p.buf[rpos]];
      rpos := (rpos + 1) % PIPE_BUF;
    }
    p' := p.(rpos := rpos, count := p.count - n);
  }

  /** The write loop: appends src[..n] to the ring. */
  method Fill(p: Pipe, src: seq<byte>, n: nat) returns (p': Pipe)
    requires RingOk(p) && n <= |src| && n <= PIPE_BUF - p.count
    ensures RingOk(p') && Waiting(p') == Waiting(p) + src[..n]
    ensures p' == p.(buf := p'.buf, wpos := p'.wpos, count := p.count + n)
  {
    var buf: seq<byte>, wpos := p.buf, p.wpos;
    for i := 0 to n
      invariant |buf| == PIPE_BUF && wpos == After(p.rpos, p.count + i)
      invariant Waiting(p.(buf := buf, wpos := wpos, count := p.count + i)) == Waiting(p) + src[..i]
    {
      ghost var before := p.(buf := buf, wpos := wpos, count := p.count + i);
      buf := buf[wpos := src[i]];
      wpos := (wpos + 1) % PIPE_BUF;
      assert Waiting(p.(buf := buf, wpos := wpos, count := p.count + i + 1)) == Waiting(before) + [src[i]];
    }
    p' := p.(buf := buf, wpos := wpos, count := p.count + n);
  }
}
