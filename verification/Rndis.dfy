/** RNDIS framing over USB bulk pipes: wrapping Ethernet frames, and reassembling them from
    transfers whose boundaries carry no meaning. */
module Rndis {
  import opened Bytes

  const ACCUM := 16384     // bytes in the accumulator
  const HDR := 8           // message type and length
  const PKT := 44          // the whole packet message header
  const TX_MAX := 2048     // longest frame sent
  const RX_MAX := 2048     // longest transfer requested

  function Le32(b: seq<byte>, i: nat): nat
    requires i + 4 <= |b|
  {
    (b[i] as int) + 256 * ((b[i + 1] as int) + 256 * ((b[i + 2] as int) + 256 * (b[i + 3] as int)))
  }

  function Le32Bytes(n: nat): (b: seq<byte>)
    requires n < 0x1_0000_0000
    ensures |b| == 4 && Le32(b, 0) == n
  {
    var n1: nat := n / 256;
    var n2: nat := n1 / 256;
    [n % 256, n1 % 256, n2 % 256, n2 / 256]
  }

  /** looks_like_ipv6_eth_frame on the n bytes at at: an IPv6 frame carrying ICMPv6 or UDP. */
  predicate LooksIpv6(b: seq<byte>, at: nat, n: nat)
    requires at + n <= |b|
  {
    && n >= 54
    && b[at + 12] == 0x86 && b[at + 13] == 0xDD
    && b[at + 14] / 16 == 6
    && (b[at + 20] == 58 || b[at + 20] == 17)
  }

  /** What the parser does at the head of the accumulated bytes. */
  datatype Action = Wait | Skip(n: nat) | Deliver(n: nat, frame: seq<byte>)

  /** Where the data of a packet message starts, among the two readings of DataOffset; None if neither fits. */
  datatype Place = None | At(at: nat)

  function Choose(b: seq<byte>, len: nat): (p: Place)
    requires PKT <= len <= |b|
    ensures p.At? ==> p.at + Le32(b, 12) <= len
  {
    var off, n := Le32(b, 8), Le32(b, 12);
    if 8 + off + n <= len && LooksIpv6(b, 8 + off, n) then At(8 + off)
    else if off + n <= len && LooksIpv6(b, off, n) then At(off)
    else if 8 + off + n <= len then At(8 + off)
    else if off + n <= len then At(off)
    else None
  }

  function Next(b: seq<byte>): (a: Action)
    ensures !a.Wait? ==> 0 < a.n <= |b|
  {
    if |b| < HDR then Wait
    else
      var len := Le32(b, 4);
      if len < HDR || len > ACCUM then Skip(1)
      else if len > |b| then Wait
      else if Le32(b, 0) != 1 then Skip(len)
      else if len < PKT then Skip(1)
      else
        match Choose(b, len)
        case None => Skip(len)
        case At(at) => Deliver(len, b[at..at + Le32(b, 12)])
  }

  /** The frames delivered from b in order, and the bytes left waiting. */
  datatype Parsed = Parsed(frames: seq<seq<byte>>, rest: seq<byte>)

  function Parse(b: seq<byte>): Parsed
    decreases |b|
  {
    match Next(b)
    case Wait => Parsed([], b)
    case Skip(n) => Parse(b[n..])
    case Deliver(n, frame) => var p := Parse(b[n..]); Parsed([frame] + p.frames, p.rest)
  }

  lemma ChooseStable(b: seq<byte>, w: seq<byte>, len: nat)
    requires b <= w && PKT <= len <= |b|
    ensures Choose(w, len) == Choose(b, len) && Le32(w, 12) == Le32(b, 12)
  {
  }

  /** Bytes that arrive later never change a decision already taken. */
  lemma NextStable(b: seq<byte>, more: seq<byte>)
    requires !Next(b).Wait?
    ensures Next(b + more) == Next(b)
  {
    hide Choose;
    var w := b + more;
    assert Le32(w, 4) == Le32(b, 4) && Le32(w, 0) == Le32(b, 0);
    var len := Le32(b, 4);
    if PKT <= len <= |b| { ChooseStable(b, w, len); }
    if Next(b).Deliver? {
      var at := Choose(b, len).at;
      assert w[at..at + Le32(b, 12)] == b[at..at + Le32(b, 12)];
    }
  }

  /** Parsing what has come so far and then the rest with what comes next delivers what parsing it all at once does. */
  lemma {:induction false} ParseAppend(a: seq<byte>, b: seq<byte>)
    ensures Parse(a + b).frames == Parse(a).frames + Parse(Parse(a).rest + b).frames
    ensures Parse(a + b).rest == Parse(Parse(a).rest + b).rest
    decreases |a|
  {
    hide Next;
    if !Next(a).Wait? {
      var n := Next(a).n;
      NextStable(a, b);
      assert (a + b)[n..] == a[n..] + b;
      ParseAppend(a[n..], b);
    }
  }

  lemma {:induction false} RestWaits(b: seq<byte>)
    ensures Next(Parse(b).rest).Wait? && |Parse(b).rest| < ACCUM
    decreases |b|
  {
    if !Next(b).Wait? {
      RestWaits(b[Next(b).n..]);
    }
  }

  // ----- sending

  function Zeros(n: nat): (z: seq<byte>)
    ensures |z| == n && forall i :: 0 <= i < n ==> z[i] == 0
  {
    seq(n, _ => 0)
  }

  predicate Sendable(frame: seq<byte>) { 0 < |frame| <= TX_MAX }

  /** The packet message around a frame: type 1, lengths, DataOffset 36 counted from its own field. */
  function Wrap(frame: seq<byte>): (b: seq<byte>)
    requires Sendable(frame)
    ensures |b| == PKT + |frame|
  {
    Header(|frame|) + frame
  }

  function Header(n: nat): (b: seq<byte>)
    requires n <= TX_MAX
    ensures |b| == PKT
  {
    Le32Bytes(1) + Le32Bytes(PKT + n) + Le32Bytes(PKT - 8) + Le32Bytes(n) + Zeros(28)
  }

  /** A frame the tolerant reading of DataOffset misreads: it does not look like IPv6 itself,
      but does when its 12th header byte is taken 8 bytes early. */
  predicate Confusable(f: seq<byte>) {
    && |f| >= 54 && !LooksIpv6(f, 0, |f|)
    && f[4] == 0x86 && f[5] == 0xDD && f[6] / 16 == 6 && (f[12] == 58 || f[12] == 17)
  }

  /** What the receiver makes of a sent frame. */
  function Received(f: seq<byte>): seq<byte> {
    if Confusable(f) then Zeros(8) + f[..|f| - 8] else f
  }

  lemma WrapFields(f: seq<byte>, more: seq<byte>)
    requires Sendable(f)
    ensures var w := Wrap(f) + more;
            && Le32(w, 0) == 1 && Le32(w, 4) == PKT + |f| && Le32(w, 8) == PKT - 8 && Le32(w, 12) == |f|
            && (forall i :: 16 <= i < PKT ==> w[i] == 0)
            && (forall i :: 0 <= i < |f| ==> w[PKT + i] == f[i])
  {
  }

  lemma WrapChoose(f: seq<byte>, w: seq<byte>)
    requires Sendable(f) && |w| >= PKT + |f| && Le32(w, 8) == PKT - 8 && Le32(w, 12) == |f|
    requires forall i :: 0 <= i < |f| ==> w[PKT + i] == f[i]
    ensures Choose(w, PKT + |f|) == At(if Confusable(f) then PKT - 8 else PKT)
  {
  }

  /** A frame's place in the stream, or 8 bytes early, where the header ends in zeros. */
  lemma ReceivedAt(f: seq<byte>, w: seq<byte>)
    requires |w| >= PKT + |f|
    requires forall i :: 16 <= i < PKT ==> w[i] == 0
    requires forall i :: 0 <= i < |f| ==> w[PKT + i] == f[i]
    ensures w[PKT..PKT + |f|] == f
    ensures |f| >= 8 ==> w[PKT - 8..PKT - 8 + |f|] == Zeros(8) + f[..|f| - 8]
  {
    if |f| >= 8 {
      var early, g := w[PKT - 8..PKT - 8 + |f|], Zeros(8) + f[..|f| - 8];
      forall i | 0 <= i < |f|
        ensures early[i] == g[i]
      {
        if i >= 8 { assert w[PKT + (i - 8)] == f[i - 8]; }
      }
    }
  }

  lemma WrapNext(f: seq<byte>, more: seq<byte>)
    requires Sendable(f)
    ensures Next(Wrap(f) + more) == Deliver(PKT + |f|, Received(f))
  {
    hide Wrap, Le32, Choose, LooksIpv6;
    WrapFields(f, more);
    WrapChoose(f, Wrap(f) + more);
    ReceivedAt(f, Wrap(f) + more);
  }

  predicate AllSendable(frames: seq<seq<byte>>) { forall i :: 0 <= i < |frames| ==> Sendable(frames[i]) }

  function WrapAll(frames: seq<seq<byte>>): seq<byte>
    requires AllSendable(frames)
  {
    if frames == [] then [] else Wrap(frames[0]) + WrapAll(frames[1..])
  }

  function ReceivedAll(frames: seq<seq<byte>>): seq<seq<byte>> {
    if frames == [] then [] else [Received(frames[0])] + ReceivedAll(frames[1..])
  }

  lemma {:induction false} ParseWrapped(frames: seq<seq<byte>>)
    requires AllSendable(frames)
    ensures Parse(WrapAll(frames)) == Parsed(ReceivedAll(frames), [])
  {
    hide Next, Wrap, Received;
    if frames != [] {
      var f, more := frames[0], WrapAll(frames[1..]);
      WrapNext(f, more);
      ParseWrapped(frames[1..]);
      assert (Wrap(f) + more)[PKT + |f|..] == more;
    } else {
      assert Next([]).Wait? by { EmptyWaits(); }
    }
  }

  lemma EmptyWaits()
    ensures Next([]).Wait?
  {
  }

  lemma ReceivedIntact(f: seq<byte>)
    ensures Received(f) == f <==> !Confusable(f)
  {
  }

  lemma {:induction false} ReceivedAllIntact(frames: seq<seq<byte>>)
    ensures ReceivedAll(frames) == frames <==> forall i :: 0 <= i < |frames| ==> !Confusable(frames[i])
  {
    hide Confusable, Received;
    if frames != [] {
      ReceivedAllIntact(frames[1..]);
      ReceivedIntact(frames[0]);
      assert frames == [frames[0]] + frames[1..];
      if ReceivedAll(frames) == frames {
        assert ReceivedAll(frames)[1..] == ReceivedAll(frames[1..]);
        assert ReceivedAll(frames)[0] == frames[0];
        forall i | 0 <= i < |frames|
          ensures !Confusable(frames[i])
        {
          if i > 0 { assert frames[i] == frames[1..][i - 1]; }
        }
      }
      if forall i :: 0 <= i < |frames| ==> !Confusable(frames[i]) {
        forall i | 0 <= i < |frames| - 1
          ensures !Confusable(frames[1..][i])
        {
          assert frames[1..][i] == frames[i + 1];
        }
      }
    }
  }

  /** Frames sent come back exactly as they were, in order, if and only if none of them is confusable;
      whatever their number, nothing is left over. */
  lemma WrapRoundTrip(frames: seq<seq<byte>>)
    requires AllSendable(frames)
    ensures Parse(WrapAll(frames)).frames == frames <==> forall i :: 0 <= i < |frames| ==> !Confusable(frames[i])
    ensures |Parse(WrapAll(frames)).frames| == |frames| && Parse(WrapAll(frames)).rest == []
  {
    ParseWrapped(frames);
    ReceivedAllIntact(frames);
    ReceivedAllLength(frames);
  }

  lemma {:induction false} ReceivedAllLength(frames: seq<seq<byte>>)
    ensures |ReceivedAll(frames)| == |frames|
  {
    if frames != [] { ReceivedAllLength(frames[1..]); }
  }

  predicate IsIpv6Frame(f: seq<byte>) { |f| >= 14 && f[12] == 0x86 && f[13] == 0xDD }

  /** In particular every frame of EtherType 0x86DD comes back, however short or odd its payload. */
  lemma Ipv6FramesComeBack(frames: seq<seq<byte>>)
    requires AllSendable(frames) && forall i :: 0 <= i < |frames| ==> IsIpv6Frame(frames[i])
    ensures Parse(WrapAll(frames)) == Parsed(frames, [])
  {
    ParseWrapped(frames);
    ReceivedAllIntact(frames);
  }

  /** The smallest kind of frame that is misread: 54 bytes whose source address looks like an EtherType. */
  lemma ConfusableExample()
    ensures var f := seq(54, i => if i == 4 then 0x86 else if i == 5 then 0xDD else if i == 6 then 0x60
              else if i == 12 then 17 else 0);
            Sendable(f) && Parse(WrapAll([f])).frames != [f]
  {
    var f := seq(54, i => if i == 4 then 0x86 else if i == 5 then 0xDD else if i == 6 then 0x60
          else if i == 12 then 17 else 0);
    assert Confusable([f][0]);
    WrapRoundTrip([f]);
  }

  // ----- what the parser makes of a message, in terms of its bytes

  /** The 32-bit field at i, lowest byte first. */
  function Field(b: seq<byte>, i: nat): int
    requires i + 4 <= |b|
  {
    b[i] as int + 0x100 * b[i + 1] as int + 0x10000 * b[i + 2] as int + 0x1000000 * b[i + 3] as int
  }

  lemma FieldRead(b: seq<byte>, i: nat)
    requires i + 4 <= |b|
    ensures Le32(b, i) == Field(b, i)
  {
  }

  /** The header of a sent frame: message type 1, the length of the message, data offset 36, the length of the frame. */
  lemma WrapLayout(frame: seq<byte>)
    requires Sendable(frame)
    ensures var w := Wrap(frame);
            && |w| == 44 + |frame| && w[44..] == frame
            && w[0..4] == [1, 0, 0, 0] && w[8..12] == [36, 0, 0, 0] && (forall i :: 16 <= i < 44 ==> w[i] == 0)
            && Field(w, 4) == 44 + |frame| && Field(w, 12) == |frame|
  {
    WrapFields(frame, []);
    assert Wrap(frame) + [] == Wrap(frame);
    FieldRead(Wrap(frame), 4);
    FieldRead(Wrap(frame), 12);
  }

  /** Bytes that no message can begin with - an impossible length, or a packet message without room for its own
      header - are passed over one by one. */
  lemma NoiseSkipped(b: seq<byte>)
    requires |b| >= 8 && (Field(b, 4) < 8 || Field(b, 4) > 16384 || (Field(b, 0) == 1 && Field(b, 4) < 44))
    requires Field(b, 4) <= 16384 ==> Field(b, 4) <= |b|
    ensures Parse(b) == Parse(b[1..])
  {
    FieldRead(b, 0);
    FieldRead(b, 4);
  }

  /** A message that has not arrived whole waits for the rest. */
  lemma PartWaits(b: seq<byte>)
    requires |b| >= 8 ==> 8 <= Field(b, 4) <= 16384 && |b| < Field(b, 4)
    ensures Parse(b) == Parsed([], b)
  {
    if |b| >= 8 { FieldRead(b, 4); }
  }

  /** Any other message than a packet is passed over whole. */
  lemma MessageSkipped(msg: seq<byte>, more: seq<byte>)
    requires 8 <= |msg| <= 16384 && Field(msg, 4) == |msg| && Field(msg, 0) != 1
    ensures Parse(msg + more) == Parse(more)
  {
    FieldRead(msg, 0);
    FieldRead(msg, 4);
    assert Next(msg) == Skip(|msg|);
    NextStable(msg, more);
    assert (msg + more)[|msg|..] == more;
  }

  /** At at begins an Ethernet frame of n bytes with an IPv6 packet that carries ICMPv6 or UDP. */
  predicate Ipv6At(b: seq<byte>, at: int, n: int)
    requires 0 <= at && at + n <= |b|
  {
    n >= 54 && b[at + 12] == 0x86 && b[at + 13] == 0xDD && 0x60 <= b[at + 14] < 0x70 && b[at + 20] in {17, 58}
  }

  /** Where the data begins: the offset counts from the start of the message. */
  predicate FromStart(msg: seq<byte>, off: int, n: int)
    requires 0 <= off && 0 <= n && off + n <= |msg|
  {
    8 + off + n > |msg| || (Ipv6At(msg, off, n) && !Ipv6At(msg, 8 + off, n))
  }

  lemma ChoiceMeans(msg: seq<byte>)
    requires 44 <= |msg|
    ensures var off, n := Le32(msg, 8), Le32(msg, 12);
            Choose(msg, |msg|) ==
            if off + n > |msg| then None else At(if FromStart(msg, off, n) then off else 8 + off)
  {
    hide Le32;
    var off, n := Le32(msg, 8), Le32(msg, 12);
    if 8 + off + n <= |msg| { assert LooksIpv6(msg, 8 + off, n) <==> Ipv6At(msg, 8 + off, n); }
    if off + n <= |msg| { assert LooksIpv6(msg, off, n) <==> Ipv6At(msg, off, n); }
  }

  /** A packet message delivers the bytes its data offset and length point at.  The offset counts from its own field,
      or from the start of the message if only that stays inside the message, or if only what lies there looks like
      an IPv6 frame; if neither stays inside, nothing is delivered. */
  lemma PacketDelivered(msg: seq<byte>, more: seq<byte>)
    requires 44 <= |msg| <= 16384 && Field(msg, 4) == |msg| && Field(msg, 0) == 1
    ensures var off, n, later := Field(msg, 8), Field(msg, 12), Parse(msg + more);
            if off + n > |msg| then later == Parse(more)
            else
              var at := if FromStart(msg, off, n) then off else 8 + off;
              later == Parsed([msg[at..at + n]] + Parse(more).frames, Parse(more).rest)
  {
    hide Parse, Choose, FromStart, Le32, Field;
    FieldRead(msg, 0);
    FieldRead(msg, 4);
    FieldRead(msg, 8);
    FieldRead(msg, 12);
    ChoiceMeans(msg);
    assert (msg + more)[|msg|..] == more;
    NextStable(msg, more);
    ParseStep(msg + more);
  }

  // ----- transfers

  function Joined(chunks: seq<seq<byte>>): seq<byte> {
    if chunks == [] then [] else chunks[0] + Joined(chunks[1..])
  }

  function JoinedAll(batches: seq<seq<seq<byte>>>): seq<byte> {
    if batches == [] then [] else Joined(batches[0]) + JoinedAll(batches[1..])
  }

  /** A transfer that does not fit throws away what had accumulated. */
  function Feed(buf: seq<byte>, chunk: seq<byte>): seq<byte> {
    if |buf| + |chunk| > ACCUM then chunk else buf + chunk
  }

  function FeedAll(buf: seq<byte>, chunks: seq<seq<byte>>): seq<byte>
    decreases |chunks|
  {
    if chunks == [] then buf else FeedAll(Feed(buf, chunks[0]), chunks[1..])
  }

  /** Batches of transfers, each followed by one pass of the parser. */
  function Receive(buf: seq<byte>, batches: seq<seq<seq<byte>>>): Parsed
    decreases |batches|
  {
    if batches == [] then Parsed([], buf)
    else
      var p := Parse(FeedAll(buf, batches[0]));
      var q := Receive(p.rest, batches[1..]);
      Parsed(p.frames + q.frames, q.rest)
  }

  /** The accumulator never overflows. */
  predicate Fits(buf: seq<byte>, batches: seq<seq<seq<byte>>>)
    decreases |batches|
  {
    batches == [] ||
    (|buf| + |Joined(batches[0])| <= ACCUM && Fits(Parse(buf + Joined(batches[0])).rest, batches[1..]))
  }

  lemma {:induction false} FeedAllJoins(buf: seq<byte>, chunks: seq<seq<byte>>)
    requires |buf| + |Joined(chunks)| <= ACCUM
    ensures FeedAll(buf, chunks) == buf + Joined(chunks)
    decreases |chunks|
  {
    if chunks == [] {
      assert buf + [] == buf;
    } else {
      FeedAllJoins(buf + chunks[0], chunks[1..]);
      assert (buf + chunks[0]) + Joined(chunks[1..]) == buf + Joined(chunks);
    }
  }

  /** However the bytes are cut into transfers and batches, the frames delivered are those of one big chunk. */
  lemma {:induction false} ChunkingIrrelevant(buf: seq<byte>, batches: seq<seq<seq<byte>>>)
    requires Next(buf).Wait? && Fits(buf, batches)
    ensures Receive(buf, batches) == Parse(buf + JoinedAll(batches))
    decreases |batches|
  {
    hide Next, Parse, FeedAll, Joined;
    if batches == [] {
      assert buf + [] == buf;
      StopsThere(buf);
    } else {
      var here := Joined(batches[0]);
      FeedAllJoins(buf, batches[0]);
      RestWaits(buf + here);
      ChunkingIrrelevant(Parse(buf + here).rest, batches[1..]);
      ParseAppend(buf + here, JoinedAll(batches[1..]));
      assert buf + here + JoinedAll(batches[1..]) == buf + JoinedAll(batches);
    }
  }

  lemma PartialWaits(f: seq<byte>, b: seq<byte>)
    requires Sendable(f) && b <= Wrap(f) && |b| < PKT + |f|
    ensures Next(b).Wait?
  {
  }

  /** Reading a stream of wrapped frames never leaves more than a partial message waiting. */
  lemma {:induction false} RestSmall(frames: seq<seq<byte>>, b: seq<byte>)
    requires AllSendable(frames) && b <= WrapAll(frames)
    ensures |Parse(b).rest| < PKT + TX_MAX
    decreases |frames|
  {
    hide Next, Wrap;
    if frames == [] {
      EmptyWaits();
    } else {
      var f, w := frames[0], Wrap(frames[0]);
      if |b| < |w| {
        assert b <= w;
        PartialWaits(f, b);
      } else {
        var more := b[|w|..];
        assert b == w + more;
        assert more == WrapAll(frames)[|w|..][..|more|];
        assert WrapAll(frames)[|w|..] == WrapAll(frames[1..]);
        RestSmall(frames[1..], more);
        WrapNext(f, more);
      }
    }
  }

  predicate SmallBatches(batches: seq<seq<seq<byte>>>) {
    forall i :: 0 <= i < |batches| ==> |Joined(batches[i])| <= ACCUM - (PKT + TX_MAX)
  }

  lemma {:induction false} WrappedFits(frames: seq<seq<byte>>, seen: seq<byte>, batches: seq<seq<seq<byte>>>)
    requires AllSendable(frames) && seen + JoinedAll(batches) == WrapAll(frames) && SmallBatches(batches)
    ensures Fits(Parse(seen).rest, batches)
    decreases |batches|
  {
    hide Next, WrapAll, Parse, Joined;
    if batches != [] {
      var here := Joined(batches[0]);
      assert seen <= WrapAll(frames);
      RestSmall(frames, seen);
      ParseAppend(seen, here);
      assert (seen + here) + JoinedAll(batches[1..]) == seen + JoinedAll(batches);
      WrappedFits(frames, seen + here, batches[1..]);
    }
  }

  /** A stream of wrapped frames arriving in batches of at most 14292 bytes, cut anywhere, is delivered whole:
      exactly the frames sent, in order, with nothing left over, unless one of them is confusable. */
  lemma StreamDelivered(frames: seq<seq<byte>>, batches: seq<seq<seq<byte>>>)
    requires AllSendable(frames) && JoinedAll(batches) == WrapAll(frames) && SmallBatches(batches)
    ensures Receive([], batches).rest == []
    ensures Receive([], batches).frames == frames <==> forall i :: 0 <= i < |frames| ==> !Confusable(frames[i])
  {
    EmptyWaits();
    assert [] + JoinedAll(batches) == WrapAll(frames);
    WrappedFits(frames, [], batches);
    ChunkingIrrelevant([], batches);
    WrapRoundTrip(frames);
  }

  // ----- the driver

  /** usbnet_tx_frame: the bytes handed to the bulk-OUT endpoint, whose answer is usbRc, or -1; a
      transfer that went through flips the endpoint's data toggle. */
  method TxFrame(bound: bool, rndis: bool, frame: seq<byte>, usbRc: int, toggle: bool)
    returns (rc: int, payload: seq<byte>, toggle': bool)
    ensures Sendable(frame) <==> 1 <= |frame| <= 2048
    ensures bound && Sendable(frame) ==> rc == usbRc && payload == if rndis then Wrap(frame) else frame
    ensures !(bound && Sendable(frame)) ==> rc == -1 && payload == []
    ensures toggle' == (toggle != (bound && Sendable(frame) && usbRc == 0))
  {
    rc, payload, toggle' := -1, [], toggle;
    if !bound { return; }
    if |frame| == 0 || |frame| > TX_MAX { return; }
    payload := frame;
    if rndis { payload := WrapBytes(frame); }
    rc := usbRc;
    if rc == 0 { toggle' := !toggle; }
  }

  /** The packet message around a frame, written into a buffer word by word and byte by byte. */
  method WrapBytes(frame: seq<byte>) returns (payload: seq<byte>)
    requires Sendable(frame)
    ensures payload == Wrap(frame)
  {
    var buf := new byte[TX_MAX + 64];
    PutHeader(buf, |frame|);
    ghost var header := buf[..PKT];
    for i := 0 to |frame|
      invariant buf[..PKT] == header && buf[PKT..PKT + i] == frame[..i]
    {
      buf[PKT + i] := frame[i];
    }
    assert buf[..PKT + |frame|] == buf[..PKT] + buf[PKT..PKT + |frame|];
    return buf[..PKT + |frame|];
  }

  /** The eleven little-endian header words. */
  method PutHeader(buf: array<byte>, n: nat)
    requires buf.Length >= PKT && n <= TX_MAX
    modifies buf
    ensures buf[..PKT] == Header(n)
  {
    hide Le32Bytes, Le32;
    PutWord(buf, 0, 1);
    PutWord(buf, 4, PKT + n);
    PutWord(buf, 8, PKT - 8);
    PutWord(buf, 12, n);
    ghost var head := buf[..16];
    assert head == Le32Bytes(1) + Le32Bytes(PKT + n) + Le32Bytes(PKT - 8) + Le32Bytes(n);
    for w := 0 to 7
      invariant buf[..16 + 4 * w] == head + Zeros(4 * w)
    {
      PutWord(buf, 16 + 4 * w, 0);
      ZeroWord();
      assert Zeros(4 * w) + Zeros(4) == Zeros(4 * (w + 1));
      assert head + Zeros(4 * w) + Zeros(4) == head + (Zeros(4 * w) + Zeros(4));
      assert 16 + 4 * (w + 1) == 16 + 4 * w + 4;
    }
  }

  lemma ZeroWord()
    ensures Le32Bytes(0) == Zeros(4)
  {
  }

  method PutWord(buf: array<byte>, at: nat, n: nat)
    requires at + 4 <= buf.Length && n < 0x1_0000_0000
    modifies buf
    ensures buf[..at + 4] == old(buf[..at]) + Le32Bytes(n)
  {
    var b := Le32Bytes(n);
    buf[at], buf[at + 1], buf[at + 2], buf[at + 3] := b[0], b[1], b[2], b[3];
  }

  /** The receive side: bytes not yet parsed are accum[..len]. */
  class Receiver {
    const accum: array<byte>
    var len: nat

    ghost predicate Valid() reads this { accum.Length == ACCUM && len <= ACCUM }

    ghost function Contents(): seq<byte>
      requires Valid()
      reads this, accum
    {
      accum[..len]
    }

    constructor ()
      ensures Valid() && fresh(accum) && Contents() == []
    {
      accum := new byte[ACCUM];
      len := 0;
    }

    method Accumulate(chunk: seq<byte>)
      requires Valid() && |chunk| <= RX_MAX
      modifies this, accum
      ensures Valid() && Contents() == Feed(old(Contents()), chunk)
      ensures Contents() == if old(len) + |chunk| > 16384 then chunk else old(Contents()) + chunk
    {
      if len + |chunk| > ACCUM {
        len := 0;
      }
      ghost var kept := accum[..len];
      for i := 0 to |chunk|
        invariant Valid() && len + |chunk| <= ACCUM && accum[..len] == kept && accum[len..len + i] == chunk[..i]
        invariant len == if old(len) + |chunk| > ACCUM then 0 else old(len)
      {
        accum[len + i] := chunk[i];
      }
      assert accum[..len + |chunk|] == accum[..len] + accum[len..len + |chunk|];
      len := len + |chunk|;
    }

    /** The word at i of the bytes from off on. */
    method Word(off: nat, i: nat) returns (w: nat)
      requires Valid() && off + i + 4 <= len
      ensures w == Le32(accum[off..len], i)
    {
      var at := off + i;
      w := (accum[at] as int) + 256 * ((accum[at + 1] as int)
                                       + 256 * ((accum[at + 2] as int) + 256 * (accum[at + 3] as int)));
    }

    predicate LooksIpv6At(at: nat, n: nat)
      requires at + n <= accum.Length
      reads accum
      ensures LooksIpv6At(at, n) == LooksIpv6(accum[..], at, n)
    {
      if n < 54 then false
      else if accum[at + 12] != 0x86 || accum[at + 13] != 0xDD then false
      else if accum[at + 14] / 16 != 6 then false
      else accum[at + 20] == 58 || accum[at + 20] == 17
    }

    /** One round of the parse loop at off: how far to move, and the frame delivered if any. */
    method Round(off: nat) returns (a: Action)
      requires Valid() && off + HDR <= len
      ensures a == Next(accum[off..len])
    {
      hide Choose, LooksIpv6, Le32;
      var typ := Word(off, 0);
      var msgLen := Word(off, 4);
      var remain := len - off;
      if msgLen < HDR { return Skip(1); }
      if msgLen > ACCUM { return Skip(1); }
      if msgLen > remain { return Wait; }
      if typ != 1 { return Skip(msgLen); }
      if msgLen < PKT { return Skip(1); }
      var dataLen := Word(off, 12);
      var dataOff := Word(off, 8);
      var place := Choice(off, msgLen, dataOff, dataLen);
      if place.None? { return Skip(msgLen); }
      SliceOfSlice(accum[..], off, len, place.at, place.at + dataLen);
      return Deliver(msgLen, accum[off + place.at..off + place.at + dataLen]);
    }

    method Choice(off: nat, msgLen: nat, dataOff: nat, dataLen: nat) returns (p: Place)
      requires Valid() && off + msgLen <= len && PKT <= msgLen
      requires dataLen == Le32(accum[off..len], 12) && dataOff == Le32(accum[off..len], 8)
      ensures p == Choose(accum[off..len], msgLen)
    {
      ghost var b: seq<byte> := accum[off..len];
      if 8 + dataOff + dataLen <= msgLen {
        if LooksIpv6At(off + 8 + dataOff, dataLen) { return At(8 + dataOff); }
      }
      if dataOff + dataLen <= msgLen {
        if LooksIpv6At(off + dataOff, dataLen) { return At(dataOff); }
      }
      if 8 + dataOff + dataLen <= msgLen { return At(8 + dataOff); }
      if dataOff + dataLen <= msgLen { return At(dataOff); }
      return None;
    }

    /** The parse loop, then moving the unparsed rest to the front. */
    method Drain() returns (frames: seq<seq<byte>>)
      requires Valid()
      modifies this, accum
      ensures Valid() && Parsed(frames, Contents()) == Parse(old(Contents()))
    {
      hide Next, Choose, Parse;
      frames := [];
      var off: nat := 0;
      ghost var all: seq<byte> := accum[..len];
      assert all[0..] == all;
      while off + HDR <= len
        invariant unchanged(this) && unchanged(accum) && off <= len && accum[..len] == all
        invariant Parse(all) == Parsed(frames + Parse(all[off..]).frames, Parse(all[off..]).rest)
        decreases len - off
      {
        var a := Round(off);
        assert accum[off..len] == all[off..];
        if a.Wait? { break; }
        ParseStep(all[off..]);
        assert all[off..][a.n..] == all[off + a.n..];
        if a.Deliver? {
          ghost var later := Parse(all[off + a.n..]).frames;
          assert frames + ([a.frame] + later) == frames + [a.frame] + later;
          frames := frames + [a.frame];
        }
        off := off + a.n;
      }
      StopsThere(all[off..]);
      assert frames + [] == frames;
      Compact(off);
    }

    method Compact(off: nat)
      requires Valid() && off <= len
      modifies this, accum
      ensures Valid() && Contents() == old(Contents()[off..])
    {
      if off > 0 {
        var remain := len - off;
        for i := 0 to remain
          invariant Valid() && len == old(len)
          invariant forall k :: 0 <= k < i ==> accum[k] == old(accum[off + k])
          invariant forall k :: i <= k < ACCUM ==> accum[k] == old(accum[k])
        {
          accum[i] := accum[off + i];
        }
        len := remain;
      }
    }

    /** One batch of transfers, then one parse. */
    method Poll(chunks: seq<seq<byte>>) returns (frames: seq<seq<byte>>)
      requires Valid() && forall i :: 0 <= i < |chunks| ==> |chunks[i]| <= RX_MAX
      modifies this, accum
      ensures Valid() && Parsed(frames, Contents()) == Parse(FeedAll(old(Contents()), chunks))
    {
      for i := 0 to |chunks|
        invariant Valid() && FeedAll(Contents(), chunks[i..]) == FeedAll(old(Contents()), chunks)
      {
        assert chunks[i..][1..] == chunks[i + 1..];
        Accumulate(chunks[i]);
      }
      frames := Drain();
    }

    method Run(batches: seq<seq<seq<byte>>>) returns (frames: seq<seq<byte>>)
      requires Valid() && forall i, j :: 0 <= i < |batches| && 0 <= j < |batches[i]| ==> |batches[i][j]| <= RX_MAX
      modifies this, accum
      ensures Valid() && Parsed(frames, Contents()) == Receive(old(Contents()), batches)
    {
      hide Parse, FeedAll;
      frames := [];
      assert batches[0..] == batches;
      for i := 0 to |batches|
        invariant Valid()
        invariant var q := Receive(Contents(), batches[i..]);
                  Receive(old(Contents()), batches) == Parsed(frames + q.frames, q.rest)
      {
        assert batches[i..][1..] == batches[i + 1..];
        ghost var q := Receive(Contents(), batches[i..]);
        var got := Poll(batches[i]);
        assert frames + q.frames == frames + got + Receive(Contents(), batches[i + 1..]).frames;
        frames := frames + got;
      }
    }
  }

  lemma ParseStep(b: seq<byte>)
    requires !Next(b).Wait?
    ensures var p := Parse(b[Next(b).n..]);
            Parse(b) == if Next(b).Deliver? then Parsed([Next(b).frame] + p.frames, p.rest) else p
  {
    hide Next;
  }

  lemma StopsThere(b: seq<byte>)
    ensures Next(b).Wait? || |b| < HDR ==> Parse(b) == Parsed([], b)
  {
  }

  lemma SliceOfSlice(s: seq<byte>, off: nat, end: nat, x: nat, y: nat)
    requires off <= end <= |s| && x <= y <= end - off
    ensures s[off..end][x..y] == s[off + x..off + y]
  {
    var b := s[off..end];
    assert |b[x..y]| == |s[off + x..off + y]|;
    assert forall i :: 0 <= i < y - x ==> b[x..y][i] == b[x + i] == s[off + x..off + y][i];
  }
}
