/** The Internet checksum over IPv6 pseudo-headers, and the segments built and checked with it. */
module Checksum {
  import opened Bytes
  import opened Errno

  const U32 := 0x1_0000_0000
  const U16 := 0x1_0000
  const NH_TCP := 6
  const NH_ICMPV6 := 58
  const MSS := 1200

  function Be16(hi: byte, lo: byte): nat { (hi as int) * 256 + (lo as int) }

  /** The sum of the big-endian 16-bit words of s, the last byte padded with a zero. */
  function WordSum(s: seq<byte>): nat {
    if s == [] then 0
    else if |s| == 1 then Be16(s[0], 0)
    else Be16(s[0], s[1]) + WordSum(s[2..])
  }

  lemma {:induction false} WordSumBound(s: seq<byte>)
    ensures WordSum(s) <= 65535 * ((|s| + 1) / 2)
  {
    if |s| > 1 { WordSumBound(s[2..]); }
  }

  lemma {:induction false} WordSumConcat(a: seq<byte>, b: seq<byte>)
    requires |a| % 2 == 0
    ensures WordSum(a + b) == WordSum(a) + WordSum(b)
  {
    if a == [] {
      assert a + b == b;
    } else {
      assert (a + b)[2..] == a[2..] + b;
      WordSumConcat(a[2..], b);
    }
  }

  lemma {:induction false} WordSumUpdate(s: seq<byte>, i: nat, b: byte)
    requires i < |s|
    ensures i % 2 == 0 ==> WordSum(s[i := b]) == WordSum(s) + 256 * ((b as int) - (s[i] as int))
    ensures i % 2 == 1 ==> WordSum(s[i := b]) == WordSum(s) + (b as int) - (s[i] as int)
  {
    if i >= 2 {
      assert s[i := b][2..] == s[2..][i - 2 := b];
      WordSumUpdate(s[2..], i - 2, b);
    } else if |s| > 1 {
      assert s[i := b][2..] == s[2..];
    }
  }

  // ----- one's-complement arithmetic

  /** One's-complement addition of 16-bit numbers: the carry comes back in at the bottom. */
  function OnesAdd(a: nat, b: nat): nat { if a + b >= U16 then a + b - 65535 else a + b }

  /** The one's-complement sum of the words of s. */
  function OnesSum(s: seq<byte>): (r: nat)
    ensures r < U16
  {
    if s == [] then 0
    else if |s| == 1 then Be16(s[0], 0)
    else OnesAdd(Be16(s[0], s[1]), OnesSum(s[2..]))
  }

  /** The 16-bit number a plain sum folds to: congruent modulo 65535, and zero only for zero. */
  function Fold(n: nat): (r: nat)
    ensures r < U16
  {
    if n == 0 then 0 else (n - 1) % 65535 + 1
  }

  lemma FoldIs(n: nat, k: nat, r: nat)
    requires n == 65535 * k + r && r < U16 && (r == 0 ==> n == 0)
    ensures Fold(n) == r
  {
    if n > 0 { assert (n - 1) == 65535 * k + (r - 1); }
  }

  lemma FoldOf(n: nat) returns (k: nat)
    ensures n == 65535 * k + Fold(n) && (Fold(n) == 0 ==> n == 0)
  {
    k := if n == 0 then 0 else (n - 1) / 65535;
  }

  /** Adding first and folding at the end is one's-complement addition. */
  lemma FoldAdd(a: nat, n: nat)
    requires a < U16
    ensures Fold(a + n) == OnesAdd(a, Fold(n))
  {
    var k := FoldOf(n);
    if a + Fold(n) >= U16 { FoldIs(a + n, k + 1, a + Fold(n) - 65535); } else { FoldIs(a + n, k, a + Fold(n)); }
  }

  lemma {:induction false} FoldIsOnesSum(s: seq<byte>)
    ensures Fold(WordSum(s)) == OnesSum(s)
  {
    if |s| == 1 {
      FoldIs(WordSum(s), 0, WordSum(s));
    } else if |s| > 1 {
      FoldIsOnesSum(s[2..]);
      FoldAdd(Be16(s[0], s[1]), WordSum(s[2..]));
    }
  }

  // ----- the pseudo-header

  function Be32(s: seq<byte>, i: nat): nat
    requires i + 4 <= |s|
  {
    (((s[i] as int) * 256 + (s[i + 1] as int)) * 256 + (s[i + 2] as int)) * 256 + (s[i + 3] as int)
  }

  function Be32Bytes(n: nat): (b: seq<byte>)
    requires n < U32
    ensures |b| == 4 && Be32(b, 0) == n
  {
    var n1: nat := n / 256;
    var n2: nat := n1 / 256;
    [n2 / 256, n2 % 256, n1 % 256, n % 256]
  }

  function Be16Bytes(n: nat): (b: seq<byte>)
    requires n < U16
    ensures |b| == 2 && Be16(b[0], b[1]) == n
  {
    [n / 256, n % 256]
  }

  predicate Address(a: seq<byte>) { |a| == 16 }

  function Pseudo(src: seq<byte>, dst: seq<byte>, len: nat, nh: byte): (p: seq<byte>)
    requires Address(src) && Address(dst) && len < U32
    ensures |p| == 40
  {
    src + dst + Be32Bytes(len) + [0, 0, 0, nh]
  }

  /** The pseudo-header of section 8.1 of RFC 8200: the two addresses, the length in network order, three zero bytes
      and the next header. */
  lemma PseudoLayout(src: seq<byte>, dst: seq<byte>, len: nat, nh: byte)
    requires Address(src) && Address(dst) && len < U32
    ensures var p := Pseudo(src, dst, len, nh);
            && p[..16] == src && p[16..32] == dst && p[36..] == [0, 0, 0, nh]
            && p[32] as int * 0x1000000 + p[33] as int * 0x10000 + p[34] as int * 0x100 + p[35] as int == len
  {
    var p, b := Pseudo(src, dst, len, nh), Be32Bytes(len);
    assert p[32] == b[0] && p[33] == b[1] && p[34] == b[2] && p[35] == b[3];
  }

  /** The example of section 3 of RFC 1071: the words 0001, f203, f4f5 and f6f7 add up to ddf2. */
  lemma StandardExample()
    ensures OnesSum([0x00, 0x01, 0xf2, 0x03, 0xf4, 0xf5, 0xf6, 0xf7]) == 0xddf2
  {
    var d: seq<byte>, c: seq<byte> := [0xf6, 0xf7], [0xf4, 0xf5, 0xf6, 0xf7];
    var b: seq<byte> := [0xf2, 0x03, 0xf4, 0xf5, 0xf6, 0xf7];
    var a: seq<byte> := [0x00, 0x01, 0xf2, 0x03, 0xf4, 0xf5, 0xf6, 0xf7];
    assert d[2..] == [] && OnesSum(d) == 0xf6f7;
    assert c[2..] == d && OnesSum(c) == OnesAdd(0xf4f5, 0xf6f7) == 0xebed;
    assert b[2..] == c && OnesSum(b) == OnesAdd(0xf203, 0xebed) == 0xddf1;
    assert a[2..] == b && OnesSum(a) == OnesAdd(0x0001, 0xddf1);
  }

  /** Everything the checksum covers, as a plain sum. */
  function Total(src: seq<byte>, dst: seq<byte>, nh: byte, seg: seq<byte>): nat
    requires Address(src) && Address(dst) && |seg| < U16
  {
    WordSum(Pseudo(src, dst, |seg|, nh)) + WordSum(seg)
  }

  /** The checksum: the complement of the one's-complement sum of pseudo-header and segment. */
  function Csum(src: seq<byte>, dst: seq<byte>, nh: byte, seg: seq<byte>): (c: nat)
    requires Address(src) && Address(dst) && |seg| < U16
    ensures c < U16
  {
    65535 - Fold(Total(src, dst, nh, seg))
  }

  /** The sum the code accumulates is the one's-complement sum of pseudo-header and zero-padded segment. */
  lemma TotalFolds(src: seq<byte>, dst: seq<byte>, nh: byte, seg: seq<byte>)
    requires Address(src) && Address(dst) && |seg| < U16
    ensures Fold(Total(src, dst, nh, seg)) == OnesSum(Pseudo(src, dst, |seg|, nh) + seg)
    ensures Total(src, dst, nh, seg) < U32
    ensures nh > 0 ==> Total(src, dst, nh, seg) > 0
  {
    hide WordSum, Fold, OnesSum, Pseudo;
    var p := Pseudo(src, dst, |seg|, nh);
    WordSumConcat(p, seg);
    FoldIsOnesSum(p + seg);
    PseudoBounds(src, dst, |seg|, nh);
    WordSumBound(seg);
  }

  lemma PseudoBounds(src: seq<byte>, dst: seq<byte>, len: nat, nh: byte)
    requires Address(src) && Address(dst) && len < U32
    ensures nh <= WordSum(Pseudo(src, dst, len, nh)) <= 65535 * 20
  {
    hide WordSum;
    WordSumBound(Pseudo(src, dst, len, nh));
    WordSumConcat(src + dst + Be32Bytes(len), [0, 0, 0, nh]);
    LastWord(nh);
  }

  lemma LastWord(nh: byte)
    ensures WordSum([0, 0, 0, nh]) == nh
  {
    var s: seq<byte>, t: seq<byte> := [0, 0, 0, nh], [0, nh];
    assert s[2..] == t && t[2..] == [];
    assert WordSum(t) == Be16(t[0], t[1]) + WordSum(t[2..]);
    assert WordSum(s) == Be16(s[0], s[1]) + WordSum(s[2..]);
  }

  // ----- csum_add_buf, csum_finish

  /** csum_add_buf in 32-bit arithmetic, when the true sum fits. */
  method CsumAddBuf(sum: nat, buf: seq<byte>) returns (r: nat)
    requires sum + WordSum(buf) < U32
    ensures r == sum + WordSum(buf)
  {
    hide WordSum;
    var i := 0;
    r := sum;
    assert buf[0..] == buf;
    while i + 1 < |buf|
      invariant i % 2 == 0 && i <= |buf| && r + WordSum(buf[i..]) == sum + WordSum(buf)
    {
      OneWord(buf, i);
      r := (r + Be16(buf[i], buf[i + 1])) % U32;
      i := i + 2;
    }
    LastBytes(buf, i);
    if i < |buf| {
      r := (r + Be16(buf[i], 0)) % U32;
    }
  }

  lemma OneWord(buf: seq<byte>, i: nat)
    requires i + 1 < |buf|
    ensures WordSum(buf[i..]) == Be16(buf[i], buf[i + 1]) + WordSum(buf[i + 2..])
  {
  }

  lemma LastBytes(buf: seq<byte>, i: nat)
    requires i <= |buf| <= i + 1
    ensures WordSum(buf[i..]) == if i < |buf| then Be16(buf[i], 0) else 0
  {
  }

  /** csum_finish: the folding loop ends, at the complement of the one's-complement sum. */
  method CsumFinish(sum: nat) returns (c: nat)
    requires sum < U32
    ensures c == 65535 - Fold(sum)
  {
    var s: nat := sum;
    while s / U16 > 0
      invariant Fold(s) == Fold(sum)
      decreases s
    {
      FoldCarry(s);
      s := s % U16 + s / U16;
    }
    FoldSmall(s);
    return 65535 - s;
  }

  lemma FoldCarry(s: nat)
    requires s >= U16
    ensures Fold(s % U16 + s / U16) == Fold(s) && s % U16 + s / U16 < s
  {
    var hi, lo := s / U16, s % U16;
    assert s == hi * U16 + lo;
    var k := FoldOf(hi + lo);
    assert s == 65535 * (k + hi) + Fold(hi + lo);
    FoldIs(s, k + hi, Fold(hi + lo));
  }

  lemma FoldSmall(s: nat)
    requires s < U16
    ensures Fold(s) == s
  {
    FoldIs(s, 0, s);
  }

  /** icmpv6_checksum and tcp6_checksum, which differ in the next header only. */
  method UpperChecksum(src: seq<byte>, dst: seq<byte>, nh: byte, seg: seq<byte>) returns (c: nat)
    requires Address(src) && Address(dst) && |seg| < U16
    ensures c == Csum(src, dst, nh, seg)
  {
    hide WordSum, Fold;
    TotalFolds(src, dst, nh, seg);
    PseudoParts(src, dst, |seg|, nh);
    var sum := CsumAddBuf(0, src);
    sum := CsumAddBuf(sum, dst);
    sum := CsumAddBuf(sum, Be32Bytes(|seg|));
    sum := CsumAddBuf(sum, [0, 0, 0, nh]);
    sum := CsumAddBuf(sum, seg);
    c := CsumFinish(sum);
  }

  lemma PseudoParts(src: seq<byte>, dst: seq<byte>, len: nat, nh: byte)
    requires Address(src) && Address(dst) && len < U32
    ensures WordSum(Pseudo(src, dst, len, nh)) == WordSum(src) + WordSum(dst) + WordSum(Be32Bytes(len))
              + WordSum([0, 0, 0, nh])
  {
    hide WordSum;
    WordSumConcat(src + dst + Be32Bytes(len), [0, 0, 0, nh]);
    WordSumConcat(src + dst, Be32Bytes(len));
    WordSumConcat(src, dst);
  }

  // ----- the checksum field

  /** The 16-bit field at at, big-endian. */
  function GetField(seg: seq<byte>, at: nat): nat
    requires at + 1 < |seg|
  {
    Be16(seg[at], seg[at + 1])
  }

  function WithField(seg: seq<byte>, at: nat, c: nat): (r: seq<byte>)
    requires at + 1 < |seg| && c < U16
    ensures |r| == |seg| && GetField(r, at) == c
    ensures forall i :: 0 <= i < |seg| && i != at && i != at + 1 ==> r[i] == seg[i]
  {
    seg[at := c / 256][at + 1 := c % 256]
  }

  lemma FieldWeighs(seg: seq<byte>, at: nat, c: nat)
    requires at + 1 < |seg| && at % 2 == 0 && c < U16
    ensures WordSum(WithField(seg, at, c)) == WordSum(seg) - GetField(seg, at) + c
  {
    hide WordSum, WithField, GetField;
    var hi: byte, lo: byte := c / 256, c % 256;
    assert c == 256 * hi + lo;
    var s1 := seg[at := hi];
    WordSumUpdate(seg, at, hi);
    WordSumUpdate(s1, at + 1, lo);
    FieldBytes(seg, at);
    FieldStored(seg, at, c);
  }

  /** Adding the complement of a fold gives all ones. */
  lemma ComplementFills(n: nat)
    requires n > 0
    ensures Fold(n + (65535 - Fold(n))) == 65535
  {
    var k := FoldOf(n);
    FoldIs(n + (65535 - Fold(n)), k, 65535);
  }

  /** What a sender puts on the wire: the segment with its checksum, computed over a zero field, stored. */
  function Sealed(src: seq<byte>, dst: seq<byte>, nh: byte, seg: seq<byte>, at: nat): (r: seq<byte>)
    requires Address(src) && Address(dst) && |seg| < U16 && at + 1 < |seg|
    ensures |r| == |seg|
  {
    WithField(seg, at, Csum(src, dst, nh, seg))
  }

  /** Every segment sent sums to 0xFFFF over pseudo-header and segment. */
  lemma SealedSumsToOnes(src: seq<byte>, dst: seq<byte>, nh: byte, seg: seq<byte>, at: nat)
    requires Address(src) && Address(dst) && nh > 0 && |seg| < U16 && at + 1 < |seg| && at % 2 == 0
    requires GetField(seg, at) == 0
    ensures OnesSum(Pseudo(src, dst, |seg|, nh) + Sealed(src, dst, nh, seg, at)) == 0xFFFF
  {
    hide WordSum, Fold, OnesSum, Pseudo;
    var c := Csum(src, dst, nh, seg);
    FieldWeighs(seg, at, c);
    TotalFolds(src, dst, nh, seg);
    TotalFolds(src, dst, nh, Sealed(src, dst, nh, seg, at));
    ComplementFills(Total(src, dst, nh, seg));
  }

  /** The receive check: recomputed over a zeroed field for segments of at most cap bytes; the TCP input
      skips it when the field is zero. */
  predicate Accepts(src: seq<byte>, dst: seq<byte>, nh: byte, seg: seq<byte>, at: nat, cap: nat, zeroSkips: bool)
    requires Address(src) && Address(dst) && |seg| < U16 && at + 1 < |seg|
  {
    || (zeroSkips && GetField(seg, at) == 0)
    || |seg| > cap
    || Csum(src, dst, nh, WithField(seg, at, 0)) == GetField(seg, at)
  }

  lemma ZeroField(seg: seq<byte>, at: nat, c: nat)
    requires at + 1 < |seg| && c < U16
    ensures WithField(WithField(seg, at, c), at, 0) == WithField(seg, at, 0)
    ensures GetField(seg, at) == 0 ==> WithField(seg, at, 0) == seg
  {
  }

  /** Every segment sent passes the receive check. */
  lemma SealedAccepted(src: seq<byte>, dst: seq<byte>, nh: byte, seg: seq<byte>, at: nat, cap: nat, zeroSkips: bool)
    requires Address(src) && Address(dst) && |seg| < U16 && at + 1 < |seg| && GetField(seg, at) == 0
    ensures Accepts(src, dst, nh, Sealed(src, dst, nh, seg, at), at, cap, zeroSkips)
  {
    hide Csum;
    ZeroField(seg, at, Csum(src, dst, nh, seg));
  }

  /** A segment that is checked is accepted exactly when it sums to 0xFFFF, except that a field holding the other
      one's-complement zero is refused. */
  lemma AcceptsExactly(src: seq<byte>, dst: seq<byte>, nh: byte, seg: seq<byte>, at: nat, cap: nat, zeroSkips: bool)
    requires Address(src) && Address(dst) && nh > 0 && |seg| < U16 && at + 1 < |seg| && at % 2 == 0
    requires |seg| <= cap && !(zeroSkips && GetField(seg, at) == 0)
    ensures Accepts(src, dst, nh, seg, at, cap, zeroSkips) <==>
            OnesSum(Pseudo(src, dst, |seg|, nh) + seg) == 0xFFFF && GetField(seg, at) != 0xFFFF
  {
    hide WordSum, Fold, OnesSum, Pseudo, WithField, GetField;
    var z, g := WithField(seg, at, 0), GetField(seg, at);
    FieldWeighs(seg, at, 0);
    TotalFolds(src, dst, nh, seg);
    TotalFolds(src, dst, nh, z);
    var n := Total(src, dst, nh, z);
    FieldSmall(seg, at);
    FoldAdd(g, n);
    assert Total(src, dst, nh, seg) == g + n;
    FoldPositive(n);
  }

  lemma FieldSmall(seg: seq<byte>, at: nat)
    requires at + 1 < |seg|
    ensures GetField(seg, at) < U16
  {
  }

  lemma FoldPositive(n: nat)
    requires n > 0
    ensures Fold(n) > 0
  {
  }

  lemma NearbyFoldsDiffer(n: nat, m: nat)
    requires n != m && -65535 < n - m < 65535 && n > 0 && m > 0
    ensures Fold(n) != Fold(m)
  {
    var k := FoldOf(n);
    var l := FoldOf(m);
    var ki: int, li: int := k, l;
    assert Fold(n) == Fold(m) ==> (n as int) - (m as int) == 65535 * (ki - li);
  }

  /** Damage to one byte of a segment with a right checksum is always noticed, unless the field of a TCP
      segment is zero afterwards. */
  lemma OneByteDamage(src: seq<byte>, dst: seq<byte>, nh: byte, seg: seq<byte>, at: nat, cap: nat, zeroSkips: bool,
                      i: nat, b: byte)
    requires Address(src) && Address(dst) && nh > 0 && |seg| < U16 && at + 1 < |seg| <= cap
    requires Csum(src, dst, nh, WithField(seg, at, 0)) == GetField(seg, at)
    requires i < |seg| && b != seg[i]
    ensures Accepts(src, dst, nh, seg[i := b], at, cap, zeroSkips) <==> zeroSkips && GetField(seg[i := b], at) == 0
  {
    hide WordSum, Fold, Pseudo, WithField, GetField;
    var z, bad := WithField(seg, at, 0), seg[i := b];
    var zbad := WithField(bad, at, 0);
    FieldBytes(seg, at);
    FieldBytes(bad, at);
    if i == at || i == at + 1 {
      assert zbad == z;
    } else {
      assert zbad == z[i := b];
      WordSumUpdate(z, i, b);
      TotalFolds(src, dst, nh, z);
      TotalFolds(src, dst, nh, zbad);
      NearbyFoldsDiffer(Total(src, dst, nh, z), Total(src, dst, nh, zbad));
    }
  }

  function Zeros(n: nat): (z: seq<byte>)
    ensures |z| == n && forall i :: 0 <= i < n ==> z[i] == 0
  {
    seq(n, _ => 0)
  }

  lemma {:induction false} ZerosSum(n: nat)
    ensures WordSum(Zeros(n)) == 0
  {
    if n > 1 {
      assert Zeros(n)[2..] == Zeros(n - 2);
      ZerosSum(n - 2);
    }
  }

  lemma UnspecifiedPseudo()
    ensures WordSum(Pseudo(Zeros(16), Zeros(16), 20, NH_TCP)) == 20 + NH_TCP
  {
    hide WordSum, Pseudo;
    ZerosSum(16);
    PseudoParts(Zeros(16), Zeros(16), 20, NH_TCP);
    assert Be32Bytes(20) == [0, 0, 0, 20];
    LastWord(20);
    LastWord(NH_TCP);
  }

  /** A 20-byte segment that starts with 0xFEE5 and is zero otherwise. */
  function Example(): (s: seq<byte>)
    ensures |s| == 20
  {
    Zeros(20)[0 := 0xFE][1 := 0xE5]
  }

  lemma ExampleSum()
    ensures WordSum(Example()) == 0xFEE5
  {
    hide WordSum, Zeros;
    ZerosSum(20);
    WordSumUpdate(Zeros(20), 0, 0xFE);
    WordSumUpdate(Zeros(20)[0 := 0xFE], 1, 0xE5);
  }

  lemma ExampleCsum()
    ensures Csum(Zeros(16), Zeros(16), NH_TCP, Example()) == 0x100
  {
    hide WordSum, Fold, Pseudo, Zeros, Example;
    UnspecifiedPseudo();
    ExampleSum();
    FoldSmall(0xFEFF);
  }

  lemma FieldOne(z: seq<byte>, at: nat)
    requires at + 1 < |z| && z[at] == 0 == z[at + 1]
    ensures WithField(z[at := 1], at, 0) == z
    ensures GetField(z[at := 1], at) == 0x100 && GetField(z[at := 1][at := 0], at) == 0
  {
    hide WithField, GetField;
    FieldBytes(z[at := 1], at);
    FieldBytes(z[at := 1][at := 0], at);
    assert WithField(z[at := 1], at, 0) == z;
  }

  /** A TCP segment between all-zero addresses with the right checksum 0x0100: one byte of it changes, and
      the segment is accepted all the same. */
  lemma DamageAccepted()
    ensures var a, seg := Zeros(16), Example()[TCP_FIELD := 1];
            && Csum(a, a, NH_TCP, WithField(seg, TCP_FIELD, 0)) == GetField(seg, TCP_FIELD) == 0x100
            && Accepts(a, a, NH_TCP, seg[TCP_FIELD := 0], TCP_FIELD, TCP_CAP, true)
  {
    hide Csum, WithField, GetField, Zeros;
    ExampleCsum();
    FieldOne(Example(), TCP_FIELD);
  }

  lemma FieldBytes(seg: seq<byte>, at: nat)
    requires at + 1 < |seg|
    ensures GetField(seg, at) == 256 * (seg[at] as int) + (seg[at + 1] as int)
    ensures WithField(seg, at, 0)[at] == 0 && WithField(seg, at, 0)[at + 1] == 0
  {
  }

  lemma FieldStored(seg: seq<byte>, at: nat, c: nat)
    requires at + 1 < |seg| && c < U16
    ensures seg[at := c / 256][at + 1 := c % 256] == WithField(seg, at, c)
  {
  }

  // ----- senders and receivers

  const ICMP_FIELD := 2
  const ICMP_CAP := 160
  const TCP_FIELD := 16
  const TCP_CAP := 20 + 16 + MSS

  /** ipv6_send_icmp: the message on the wire, EMSGSIZE, or EAFNOSUPPORT when no source address could be found. */
  method BuildIcmpv6(haveSrc: bool, src: seq<byte>, dst: seq<byte>, typ: byte, code: byte, body: seq<byte>)
    returns (rc: int, seg: seq<byte>)
    requires Address(src) && Address(dst)
    ensures rc == if 44 + |body| > 168 then -EMSGSIZE else if !haveSrc then -EAFNOSUPPORT else 0
    ensures rc == 0 ==> |seg| == 4 + |body| && seg == Sealed(src, dst, NH_ICMPV6, [typ, code, 0, 0] + body, ICMP_FIELD)
    ensures rc == 0 ==> OnesSum(Pseudo(src, dst, |seg|, 58) + seg) == 0xFFFF
    ensures rc == 0 ==> Accepts(src, dst, 58, seg, 2, 160, false)
    ensures rc == 0 ==> seg[0] == typ && seg[1] == code && seg[4..] == body
  {
    hide Csum, OnesSum, Pseudo, Accepts, WithField, GetField;
    if 40 + 4 + |body| > 40 + 128 { return -EMSGSIZE, []; }
    if !haveSrc { return -EAFNOSUPPORT, []; }
    var icmp: seq<byte> := [typ, code, 0, 0] + body;
    var c := UpperChecksum(src, dst, NH_ICMPV6, icmp);
    seg := icmp[ICMP_FIELD := c / 256][ICMP_FIELD + 1 := c % 256];
    FieldStored(icmp, ICMP_FIELD, c);
    FieldBytes(icmp, ICMP_FIELD);
    SealedSumsToOnes(src, dst, NH_ICMPV6, icmp, ICMP_FIELD);
    SealedAccepted(src, dst, NH_ICMPV6, icmp, ICMP_FIELD, ICMP_CAP, false);
    assert seg[4..] == body;
    return 0, seg;
  }

  /** The receive check of icmpv6_input and tcp6_input. */
  method CheckSegment(src: seq<byte>, dst: seq<byte>, nh: byte, seg: seq<byte>, at: nat, cap: nat, zeroSkips: bool)
    returns (ok: bool)
    requires Address(src) && Address(dst) && |seg| < U16 && at + 1 < |seg|
    ensures ok == Accepts(src, dst, nh, seg, at, cap, zeroSkips)
  {
    hide Csum, WithField;
    var got := GetField(seg, at);
    FieldStored(seg, at, 0);
    if zeroSkips && got == 0 { return true; }
    if |seg| <= cap {
      var tmp := seg[at := 0][at + 1 := 0];
      assert tmp == WithField(seg, at, 0) by { assert 0 / 256 == 0 && 0 % 256 == 0; }
      var exp := UpperChecksum(src, dst, nh, tmp);
      if exp != got { return false; }
    }
    return true;
  }

  datatype TcpHead = TcpHead(srcPort: nat, dstPort: nat, seqNo: nat, ack: nat, flags: byte)

  predicate HeadOk(h: TcpHead) { h.srcPort < U16 && h.dstPort < U16 && h.seqNo < U32 && h.ack < U32 }

  /** The 20 header bytes with a zero checksum field, for optLen bytes of options. */
  function HeadBytes(h: TcpHead, optLen: nat): (b: seq<byte>)
    requires HeadOk(h) && optLen in {0, 4}
    ensures |b| == 20
  {
    Be16Bytes(h.srcPort) + Be16Bytes(h.dstPort) + Be32Bytes(h.seqNo) + Be32Bytes(h.ack)
    + [(20 + optLen) / 4 * 16, h.flags] + Be16Bytes(4096) + [0, 0] + [0, 0]
  }

  const MSS_OPTION: seq<byte> := [2, 4, 4, 176]  // kind 2, length 4, MSS 1200

  function Unsealed(h: TcpHead, payload: seq<byte>, withMss: bool): (b: seq<byte>)
    requires HeadOk(h)
  {
    HeadBytes(h, if withMss then 4 else 0) + (if withMss then MSS_OPTION else []) + payload
  }

  /** The segment of section 3.1 of RFC 9293: ports, sequence and acknowledgement numbers in network order, the header
      length in words, the flags, a window of 4096, no urgent pointer; on request the option for segments of up to
      1200 bytes; and the payload.  The checksum is in bytes 16 and 17. */
  predicate TcpLayout(b: seq<byte>, h: TcpHead, payload: seq<byte>, withMss: bool) {
    && |b| == (if withMss then 24 else 20) + |payload|
    && b[0] as int * 0x100 + b[1] as int == h.srcPort && b[2] as int * 0x100 + b[3] as int == h.dstPort
    && b[4] as int * 0x1000000 + b[5] as int * 0x10000 + b[6] as int * 0x100 + b[7] as int == h.seqNo
    && b[8] as int * 0x1000000 + b[9] as int * 0x10000 + b[10] as int * 0x100 + b[11] as int == h.ack
    && b[12] == (if withMss then 0x60 else 0x50) && b[13] == h.flags && b[14..16] == [0x10, 0] && b[18..20] == [0, 0]
    && b[20..] == (if withMss then [2, 4, 4, 176] else []) + payload
  }

  lemma UnsealedLayout(h: TcpHead, payload: seq<byte>, withMss: bool, c: nat)
    requires HeadOk(h) && c < U16
    ensures |Unsealed(h, payload, withMss)| >= 20
    ensures TcpLayout(WithField(Unsealed(h, payload, withMss), TCP_FIELD, c), h, payload, withMss)
  {
    hide HeadBytes, WithField;
    var u := Unsealed(h, payload, withMss);
    var s, b := WithField(u, TCP_FIELD, c), HeadBytes(h, if withMss then 4 else 0);
    HeadLayout(h, if withMss then 4 else 0);
    assert forall i :: 0 <= i < 20 ==> u[i] == b[i];
    assert s[14..16] == b[14..16] && s[18..20] == b[18..20];
    assert s[20..] == u[20..] == (if withMss then MSS_OPTION else []) + payload;
  }

  lemma HeadLayout(h: TcpHead, optLen: nat)
    requires HeadOk(h) && optLen in {0, 4}
    ensures var b := HeadBytes(h, optLen);
            && b[0] as int * 0x100 + b[1] as int == h.srcPort && b[2] as int * 0x100 + b[3] as int == h.dstPort
            && b[4] as int * 0x1000000 + b[5] as int * 0x10000 + b[6] as int * 0x100 + b[7] as int == h.seqNo
            && b[8] as int * 0x1000000 + b[9] as int * 0x10000 + b[10] as int * 0x100 + b[11] as int == h.ack
            && b[12] == (if optLen == 4 then 0x60 else 0x50) && b[13] == h.flags && b[14..16] == [0x10, 0]
            && b[18..20] == [0, 0]
  {
    var b := HeadBytes(h, optLen);
    var q, a := Be32Bytes(h.seqNo), Be32Bytes(h.ack);
    assert b[4] == q[0] && b[5] == q[1] && b[6] == q[2] && b[7] == q[3];
    assert b[8] == a[0] && b[9] == a[1] && b[10] == a[2] && b[11] == a[3];
  }

  /** What tcp6_input reads out of a segment: the header fields and the data, or nothing. */
  datatype TcpView = NoView | View(h: TcpHead, data: seq<byte>)

  function ReadTcp(seg: seq<byte>): TcpView {
    if |seg| < 20 then NoView
    else
      var hdrLen := (seg[12] as int) / 16 * 4;
      if hdrLen < 20 || hdrLen > |seg| then NoView
      else View(TcpHead(GetField(seg, 0), GetField(seg, 2), Be32(seg, 4), Be32(seg, 8), seg[13]), seg[hdrLen..])
  }

  /** The receiver reads back the fields and payload the sender wrote, whatever checksum was stored. */
  lemma TcpRoundTrip(h: TcpHead, payload: seq<byte>, withMss: bool, c: nat)
    requires HeadOk(h) && c < U16
    ensures |Unsealed(h, payload, withMss)| == 20 + (if withMss then 4 else 0) + |payload|
    ensures GetField(Unsealed(h, payload, withMss), TCP_FIELD) == 0
    ensures ReadTcp(WithField(Unsealed(h, payload, withMss), TCP_FIELD, c)) == View(h, payload)
  {
    hide HeadBytes, WithField, GetField, Be32;
    var u := Unsealed(h, payload, withMss);
    var s := WithField(u, TCP_FIELD, c);
    var optLen := if withMss then 4 else 0;
    HeadFields(h, optLen);
    var b := HeadBytes(h, optLen);
    assert forall i :: 0 <= i < 20 ==> u[i] == b[i];
    assert forall i :: 0 <= i < 16 ==> s[i] == b[i];
    SameHead(s, b);
    FieldBytes(u, TCP_FIELD);
    assert s[20 + optLen..] == payload;
  }

  lemma SameHead(s: seq<byte>, b: seq<byte>)
    requires |s| >= 16 && |b| >= 16 && forall i :: 0 <= i < 16 ==> s[i] == b[i]
    ensures GetField(s, 0) == GetField(b, 0) && GetField(s, 2) == GetField(b, 2)
    ensures Be32(s, 4) == Be32(b, 4) && Be32(s, 8) == Be32(b, 8)
  {
  }

  lemma HeadFields(h: TcpHead, optLen: nat)
    requires HeadOk(h) && optLen in {0, 4}
    ensures var b := HeadBytes(h, optLen);
            && GetField(b, 0) == h.srcPort && GetField(b, 2) == h.dstPort && Be32(b, 4) == h.seqNo
               && Be32(b, 8) == h.ack
            && (b[12] as int) / 16 * 4 == 20 + optLen && b[13] == h.flags && b[16] == 0 && b[17] == 0
  {
  }

  /** tcp6_send_segment: the segment on the wire, or EMSGSIZE. */
  method BuildTcp(src: seq<byte>, dst: seq<byte>, h: TcpHead, payload: seq<byte>, withMss: bool)
    returns (rc: int, seg: seq<byte>)
    requires Address(src) && Address(dst) && HeadOk(h)
    ensures rc == if |payload| + (if withMss then 4 else 0) > 1216 then -EMSGSIZE else 0
    ensures rc == 0 ==> |seg| == 20 + (if withMss then 4 else 0) + |payload| && ReadTcp(seg) == View(h, payload)
    ensures rc == 0 ==> TcpLayout(seg, h, payload, withMss)
    ensures rc == 0 ==> OnesSum(Pseudo(src, dst, |seg|, 6) + seg) == 0xFFFF
    ensures rc == 0 ==> Accepts(src, dst, 6, seg, 16, 1236, true)
  {
    hide Csum, OnesSum, Pseudo, Accepts, HeadBytes, ReadTcp, WithField, GetField, TcpLayout;
    var opts: seq<byte> := [];
    if withMss { opts := [2, 4, MSS / 256, MSS % 256]; }
    var tcpLen := 20 + |opts| + |payload|;
    if 40 + tcpLen > 40 + 20 + 16 + MSS { return -EMSGSIZE, []; }
    var tcp := HeadBytes(h, |opts|) + opts + payload;
    assert tcp == Unsealed(h, payload, withMss);
    var c := UpperChecksum(src, dst, NH_TCP, tcp);
    seg := tcp[TCP_FIELD := c / 256][TCP_FIELD + 1 := c % 256];
    FieldStored(tcp, TCP_FIELD, c);
    TcpRoundTrip(h, payload, withMss, c);
    UnsealedLayout(h, payload, withMss, c);
    SealedSumsToOnes(src, dst, NH_TCP, tcp, TCP_FIELD);
    SealedAccepted(src, dst, NH_TCP, tcp, TCP_FIELD, TCP_CAP, true);
    return 0, seg;
  }
}
