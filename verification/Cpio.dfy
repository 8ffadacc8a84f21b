/** The initramfs format ("newc" cpio): the packing tool's writer and the kernel's reader. */
module Cpio {
  import opened Bytes

  const HEADER := 110
  const U32 := 0x1_0000_0000
  const SIZE_T := 0x1_0000_0000_0000_0000
  const MAGIC: seq<byte> := [48, 55, 48, 55, 48, 49]                        // "070701"
  const TRAILER: seq<byte> := [84, 82, 65, 73, 76, 69, 82, 33, 33, 33]      // "TRAILER!!!"

  // ----- hexadecimal fields

  predicate IsHex(c: byte) { 48 <= c <= 57 || 97 <= c <= 102 || 65 <= c <= 70 }

  function HexDigit(c: byte): (d: int)
    ensures IsHex(c) ==> 0 <= d < 16
  {
    if 48 <= c <= 57 then (c as int) - 48 else if 97 <= c <= 102 then (c as int) - 87 else (c as int) - 55
  }

  function ToDigit(d: nat): (c: byte)
    requires d < 16
    ensures IsHex(c) && HexDigit(c) == d
  {
    if d < 10 then 48 + d else 87 + d
  }

  function Pow16(n: nat): nat { if n == 0 then 1 else 16 * Pow16(n - 1) }

  /** x in n lower-case hexadecimal digits. */
  function ToHex(x: nat, n: nat): (s: seq<byte>)
    ensures |s| == n && forall i :: 0 <= i < n ==> IsHex(s[i])
  {
    if n == 0 then [] else ToHex(x / 16, n - 1) + [ToDigit(x % 16)]
  }

  function HexValue(s: seq<byte>): int {
    if s == [] then 0 else HexValue(s[..|s| - 1]) * 16 + HexDigit(s[|s| - 1])
  }

  lemma {:induction false} HexRoundTrip(x: nat, n: nat)
    requires x < Pow16(n)
    ensures HexValue(ToHex(x, n)) == x
  {
    if n > 0 {
      HexRoundTrip(x / 16, n - 1);
      assert ToHex(x, n)[..n - 1] == ToHex(x / 16, n - 1);
    }
  }

  lemma {:induction false} HexBounded(s: seq<byte>)
    requires forall i :: 0 <= i < |s| ==> IsHex(s[i])
    ensures 0 <= HexValue(s) < Pow16(|s|)
  {
    if s != [] { HexBounded(s[..|s| - 1]); }
  }

  lemma Pow16Of8()
    ensures Pow16(8) == U32
  {
    assert Pow16(4) == 65536;
  }

  /** A header field; a 32-bit value is written and read back without loss. */
  function ToHex8(x: nat): (s: seq<byte>)
    requires x < U32
    ensures |s| == 8 && HexValue(s) == x
  {
    Pow16Of8();
    HexRoundTrip(x, 8);
    ToHex(x, 8)
  }

  /** hex8_to_u32 on eight digits. */
  method Hex8ToU32(p: seq<byte>) returns (v: nat)
    requires |p| == 8 && forall i :: 0 <= i < 8 ==> IsHex(p[i])
    ensures v == HexValue(p) < U32
  {
    var acc := 0;
    for i := 0 to 8
      invariant acc == HexValue(p[..i]) && 0 <= acc < Pow16(i)
    {
      assert p[..i + 1][..i] == p[..i];
      acc := acc * 16 + HexDigit(p[i]);
    }
    assert p[..8] == p;
    Pow16Of8();
    return acc;
  }

  function Pad4(n: nat): (k: nat)
    ensures k < 4 && (n + k) % 4 == 0
  {
    (4 - n % 4) % 4
  }

  function Zeros(n: nat): (z: seq<byte>)
    ensures |z| == n && forall i :: 0 <= i < n ==> z[i] == 0
  {
    seq(n, _ => 0)
  }

  // ----- writing

  datatype File = File(name: seq<byte>, data: seq<byte>, mode: nat)

  /** What the tool can write: an ASCII name without NUL, and sizes and mode of 32 bits. */
  predicate Writable(f: File) {
    && (forall i :: 0 <= i < |f.name| ==> 0 < f.name[i] < 128)
    && |f.name| + 1 < U32 && |f.data| < U32 && f.mode < U32
  }

  function Fields(vals: seq<nat>): (s: seq<byte>)
    requires forall i :: 0 <= i < |vals| ==> vals[i] < U32
    ensures |s| == 8 * |vals|
  {
    if vals == [] then [] else Fields(vals[..|vals| - 1]) + ToHex8(vals[|vals| - 1])
  }

  function FieldValues(f: File): seq<nat> {
    [0, f.mode, 0, 0, 1, 0, |f.data|, 0, 0, 0, 0, |f.name| + 1, 0]
  }

  function Header(f: File): (h: seq<byte>)
    requires Writable(f)
    ensures |h| == HEADER
  {
    MAGIC + Fields(FieldValues(f))
  }

  /** One archive entry. */
  function Written(f: File): (s: seq<byte>)
    requires Writable(f)
    ensures |s| == HEADER + |f.name| + 1 + Pad4(HEADER + |f.name| + 1) + |f.data| + Pad4(|f.data|)
    ensures |s| % 4 == 0
  {
    SumOfFours(HEADER + |f.name| + 1 + Pad4(HEADER + |f.name| + 1), |f.data| + Pad4(|f.data|));
    Header(f) + f.name + [0] + Zeros(Pad4(HEADER + |f.name| + 1)) + f.data + Zeros(Pad4(|f.data|))
  }

  lemma SumOfFours(x: nat, y: nat)
    requires x % 4 == 0 && y % 4 == 0
    ensures (x + y) % 4 == 0
  {
  }

  const LAST := File(TRAILER, [], 0x8000)

  predicate AllWritable(fs: seq<File>) { forall i :: 0 <= i < |fs| ==> Writable(fs[i]) }

  function Entries(fs: seq<File>): (s: seq<byte>)
    requires AllWritable(fs)
    ensures |s| % 4 == 0
  {
    if fs == [] then []
    else
      var before, last := Entries(fs[..|fs| - 1]), Written(fs[|fs| - 1]);
      SumOfFours(|before|, |last|);
      before + last
  }

  function Archive(fs: seq<File>): seq<byte>
    requires AllWritable(fs)
  {
    Entries(fs) + Written(LAST)
  }

  method WriteHeader(f: File) returns (header: seq<byte>)
    requires Writable(f)
    ensures header == Header(f)
  {
    hide Fields;
    header := MAGIC;
    var vals: seq<nat> := FieldValues(f);
    NoFields();
    for i := 0 to |vals|
      invariant header == MAGIC + Fields(vals[..i])
    {
      OneField(vals, i);
      header := header + ToHex8(vals[i]);
      assert MAGIC + Fields(vals[..i]) + ToHex8(vals[i]) == MAGIC + (Fields(vals[..i]) + ToHex8(vals[i]));
    }
    assert vals[..|vals|] == vals;
  }

  lemma NoFields()
    ensures Fields([]) == []
  {
  }

  lemma OneField(vals: seq<nat>, i: nat)
    requires i < |vals| && forall k :: 0 <= k < |vals| ==> vals[k] < U32
    ensures Fields(vals[..i + 1]) == Fields(vals[..i]) + ToHex8(vals[i])
  {
    assert vals[..i + 1][..i] == vals[..i];
  }

  lemma Appended(out: seq<byte>, h: seq<byte>, n: seq<byte>, z: seq<byte>, p: seq<byte>, d: seq<byte>, q: seq<byte>)
    ensures out + h + (n + z) + p + d + q == out + (h + n + z + p + d + q)
  {
  }

  /** write_newc_entry. */
  method WriteEntry(out: seq<byte>, f: File) returns (out': seq<byte>)
    requires Writable(f)
    ensures out' == out + Written(f)
  {
    hide Header, Zeros, Pad4;
    var header := WriteHeader(f);
    out' := out + header;
    out' := out' + (f.name + [0]);
    out' := out' + Zeros(Pad4(HEADER + |f.name| + 1));
    out' := out' + f.data;
    out' := out' + Zeros(Pad4(|f.data|));
    Appended(out, header, f.name, [0], Zeros(Pad4(HEADER + |f.name| + 1)), f.data, Zeros(Pad4(|f.data|)));
  }

  /** The writing loop of build_from_dir. */
  method Build(fs: seq<File>) returns (out: seq<byte>)
    requires AllWritable(fs)
    ensures out == Archive(fs)
  {
    hide Written;
    out := [];
    for i := 0 to |fs|
      invariant out == Entries(fs[..i])
    {
      assert fs[..i + 1][..i] == fs[..i];
      out := WriteEntry(out, fs[i]);
    }
    assert fs[..|fs|] == fs;
    out := WriteEntry(out, LAST);
  }

  // ----- reading

  /** An entry as the reader describes it: its name, and where in the archive its data is. */
  datatype Raw = Raw(name: seq<byte>, mode: nat, at: nat, size: nat)

  datatype Parsed = Bad | Good(e: Raw, next: nat)

  predicate HeaderOk(h: seq<byte>) {
    |h| == HEADER && h[..6] == MAGIC && forall i :: 6 <= i < HEADER ==> IsHex(h[i])
  }

  function Field(h: seq<byte>, i: nat): nat
    requires HeaderOk(h) && i < 13
  {
    HexBounded(h[6 + 8 * i..14 + 8 * i]);
    HexValue(h[6 + 8 * i..14 + 8 * i])
  }

  /** The bytes up to the first NUL. */
  function CStr(s: seq<byte>): (r: seq<byte>)
    ensures |r| <= |s|
  {
    if s == [] || s[0] == 0 then [] else [s[0]] + CStr(s[1..])
  }

  /** (size_t)(end - p), which wraps round once p has passed the end. */
  function Remain(p: nat, end: nat): nat {
    if p <= end then end - p else (end - p) % SIZE_T
  }

  /** parse_one on the archive a from p. */
  function ParseOne(a: seq<byte>, p: nat): (r: Parsed)
    requires p <= |a| < SIZE_T / 2
    ensures r.Good? ==> p + HEADER < r.next
  {
    if Remain(p, |a|) < HEADER then Bad
    else
      var h := a[p..p + HEADER];
      if !HeaderOk(h) then Bad
      else
        var mode, size, nameSize := Field(h, 1), Field(h, 6), Field(h, 11);
        var n := p + HEADER;
        if Remain(n, |a|) < nameSize || nameSize == 0 then Bad
        else if a[n + nameSize - 1] != 0 then Bad
        else
          var d := n + nameSize + Pad4(HEADER + nameSize);
          if Remain(d, |a|) < size then Bad
          else Good(Raw(CStr(a[n..n + nameSize]), mode, d, size), d + size + Pad4(size))
  }

  /** The data slice lies inside the archive. */
  predicate Inside(a: seq<byte>, e: Raw) { e.at + e.size <= |a| }

  /** On an archive whose length is a multiple of four, from an aligned position, an accepted entry lies inside
      and the next position is aligned and not past the end. */
  lemma ParseInside(a: seq<byte>, p: nat)
    requires p <= |a| < SIZE_T / 2 && |a| % 4 == 0 && p % 4 == 0 && ParseOne(a, p).Good?
    ensures Inside(a, ParseOne(a, p).e) && ParseOne(a, p).next <= |a| && ParseOne(a, p).next % 4 == 0
  {
    hide CStr, Field;
    var h := a[p..p + HEADER];
    var size, nameSize := Field(h, 6), Field(h, 11);
    var d := p + HEADER + nameSize + Pad4(HEADER + nameSize);
    Aligned(p, HEADER + nameSize, |a|);
    Aligned(d, size, |a|);
  }

  lemma Aligned(p: nat, n: nat, end: nat)
    requires p % 4 == 0 && end % 4 == 0 && p + n <= end
    ensures (p + n + Pad4(n)) % 4 == 0 && p + n + Pad4(n) <= end
  {
    var q, m, e := p / 4, (n + 3) / 4, end / 4;
    assert p == 4 * q && end == 4 * e && n + Pad4(n) == 4 * m;
    assert p + n + Pad4(n) == 4 * (q + m) && m <= e - q;
  }

  /** In general the data of an accepted entry lies inside exactly when the name of the length that the header
      announces, padded, ends within the archive: the wrapped difference lets the others by. */
  lemma InsideExactly(a: seq<byte>, p: nat)
    requires p <= |a| < SIZE_T / 2 && ParseOne(a, p).Good?
    ensures p + HEADER <= |a|
    ensures var n := HEADER + Field(a[p..p + HEADER], 11);
            Inside(a, ParseOne(a, p).e) <==> p + n + Pad4(n) <= |a|
  {
  }

  // ----- what the reader makes of what the writer wrote

  lemma {:induction false} FieldAt(vals: seq<nat>, i: nat)
    requires i < |vals| && forall k :: 0 <= k < |vals| ==> vals[k] < U32
    ensures Fields(vals)[8 * i..8 * i + 8] == ToHex8(vals[i])
  {
    var n := |vals| - 1;
    if i < n {
      FieldAt(vals[..n], i);
      assert Fields(vals)[8 * i..8 * i + 8] == Fields(vals[..n])[8 * i..8 * i + 8];
    }
  }

  lemma {:induction false} FieldsHex(vals: seq<nat>)
    requires forall k :: 0 <= k < |vals| ==> vals[k] < U32
    ensures forall i :: 0 <= i < 8 * |vals| ==> IsHex(Fields(vals)[i])
  {
    if vals != [] { FieldsHex(vals[..|vals| - 1]); }
  }

  lemma HeaderFields(f: File)
    requires Writable(f)
    ensures HeaderOk(Header(f))
    ensures Field(Header(f), 1) == f.mode && Field(Header(f), 6) == |f.data| && Field(Header(f), 11) == |f.name| + 1
  {
    hide Fields, ToHex8, HexValue;
    var h, vals := Header(f), FieldValues(f);
    var s := Fields(vals);
    FieldsHex(vals);
    assert h[..6] == MAGIC;
    assert forall i :: 6 <= i < HEADER ==> h[i] == s[i - 6];
    OneHeaderField(f, 1);
    OneHeaderField(f, 6);
    OneHeaderField(f, 11);
  }

  lemma OneHeaderField(f: File, i: nat)
    requires Writable(f) && i < 13
    ensures Header(f)[6 + 8 * i..14 + 8 * i] == ToHex8(FieldValues(f)[i])
  {
    hide Fields;
    var s := Fields(FieldValues(f));
    FieldAt(FieldValues(f), i);
    assert Header(f)[6 + 8 * i..14 + 8 * i] == s[8 * i..8 * i + 8];
  }

  lemma {:induction false} CStrOf(name: seq<byte>)
    requires forall i :: 0 <= i < |name| ==> name[i] != 0
    ensures CStr(name + [0]) == name
  {
    if name != [] {
      assert (name + [0])[1..] == name[1..] + [0];
      CStrOf(name[1..]);
    }
  }

  // ----- the bytes of an archive

  function LowerDigit(c: byte): int { if c <= 57 then c as int - 48 else c as int - 87 }

  /** What the four lower-case hexadecimal digits at at spell. */
  function Four(h: seq<byte>, at: nat): int
    requires at + 4 <= |h|
  {
    LowerDigit(h[at]) * 0x1000 + LowerDigit(h[at + 1]) * 0x100 + LowerDigit(h[at + 2]) * 0x10 + LowerDigit(h[at + 3])
  }

  predicate Lower(h: seq<byte>, at: nat, n: nat)
    requires at + n <= |h|
  {
    forall i :: at <= i < at + n ==> 48 <= h[i] <= 57 || 97 <= h[i] <= 102
  }

  lemma LastDigit(x: nat, n: nat)
    ensures var s := ToHex(x, n + 1);
            && s[..n] == ToHex(x / 16, n) && LowerDigit(s[n]) == x % 16 && (48 <= s[n] <= 57 || 97 <= s[n] <= 102)
  {
  }

  /** The last four digits spell what is left over modulo 16^4. */
  lemma LastFour(x: nat, n: nat)
    ensures var s := ToHex(x, n + 4);
            s[..n] == ToHex(x / 0x10000, n) && Lower(s, n, 4) && Four(s, n) == x % 0x10000
  {
    hide ToHex, LowerDigit;
    var x1: nat, x2: nat, x3: nat := x / 16, x / 16 / 16, x / 16 / 16 / 16;
    var s, s1, s2, s3 := ToHex(x, n + 4), ToHex(x1, n + 3), ToHex(x2, n + 2), ToHex(x3, n + 1);
    LastDigit(x, n + 3);
    LastDigit(x1, n + 2);
    LastDigit(x2, n + 1);
    LastDigit(x3, n);
    assert s[n + 2] == s1[n + 2] && s[n + 1] == s1[n + 1] == s2[n + 1] && s[n] == s1[n] == s2[n] == s3[n];
    assert s[..n] == s1[..n] == s2[..n] == s3[..n];
    Sixteenths(x);
  }

  lemma Sixteenths(x: nat)
    ensures x / 16 / 16 / 16 / 16 == x / 0x10000
    ensures x % 0x10000 == x / 16 / 16 / 16 % 16 * 0x1000 + x / 16 / 16 % 16 * 0x100 + x / 16 % 16 * 0x10 + x % 16
  {
  }

  lemma EightDigits(x: nat)
    requires x < U32
    ensures var s := ToHex(x, 8); Lower(s, 0, 8) && x == Four(s, 0) * 0x10000 + Four(s, 4)
  {
    hide ToHex, LowerDigit, Four;
    var s, t := ToHex(x, 8), ToHex(x / 0x10000, 4);
    LastFour(x, 4);
    LastFour(x / 0x10000, 0);
    assert forall i :: 0 <= i < 4 ==> s[i] == s[..4][i] == t[i];
    SameFour(s, t);
  }

  lemma SameFour(s: seq<byte>, t: seq<byte>)
    requires |s| >= 4 && |t| >= 4 && forall i :: 0 <= i < 4 ==> s[i] == t[i]
    ensures Four(s, 0) == Four(t, 0)
  {
  }

  /** The header: "070701", then thirteen 32-bit numbers in eight lower-case hexadecimal digits each - mode, one link,
      the size of the data and of the name with its NUL, and zeros. */
  lemma HeaderLayout(f: File)
    requires Writable(f)
    ensures var h := Header(f);
            && |h| == 110 && h[..6] == [48, 55, 48, 55, 48, 49] && Lower(h, 6, 104)
            && forall i :: 0 <= i < 13 ==>
                 Four(h, 6 + 8 * i) * 0x10000 + Four(h, 10 + 8 * i) ==
                 if i == 1 then f.mode else if i == 4 then 1 else if i == 6 then |f.data|
                 else if i == 11 then |f.name| + 1 else 0
  {
    hide Fields, ToHex, LowerDigit;
    var h, vals := Header(f), FieldValues(f);
    forall i | 0 <= i < 13
      ensures Four(h, 6 + 8 * i) * 0x10000 + Four(h, 10 + 8 * i) == vals[i] && Lower(h, 6 + 8 * i, 8)
    {
      OneHeaderField(f, i);
      EightDigits(vals[i]);
      SameDigits(h, 6 + 8 * i, ToHex(vals[i], 8));
    }
    forall k | 6 <= k < 110
      ensures 48 <= h[k] <= 57 || 97 <= h[k] <= 102
    {
      var i := (k - 6) / 8;
      assert 6 + 8 * i <= k < 6 + 8 * i + 8 && Lower(h, 6 + 8 * i, 8);
    }
  }

  lemma SameDigits(h: seq<byte>, at: nat, s: seq<byte>)
    requires |s| == 8 && at + 8 <= |h| && h[at..at + 8] == s && Lower(s, 0, 8)
    ensures Four(h, at) == Four(s, 0) && Four(h, at + 4) == Four(s, 4) && Lower(h, at, 8)
  {
    assert forall i :: at <= i < at + 8 ==> h[i] == s[i - at];
  }

  /** An entry: the header, the name and a NUL, zeros up to a multiple of four, the data, zeros up to a multiple of
      four - never more than three. */
  lemma EntryLayout(f: File)
    requires Writable(f)
    ensures var w, n := Written(f), 110 + |f.name|;
            exists d :: n < d <= n + 4 && d % 4 == 0 && d + |f.data| <= |w| < d + |f.data| + 4 && |w| % 4 == 0
              && w[..110] == Header(f) && w[110..n] == f.name && w[d..d + |f.data|] == f.data
              && (forall i :: n <= i < d || d + |f.data| <= i < |w| ==> w[i] == 0)
  {
    hide Header;
    var n := 110 + |f.name|;
    var d := n + 1 + Pad4(HEADER + |f.name| + 1);
    assert Written(f)[d..d + |f.data|] == f.data;
  }

  /** The archive ends with an empty entry named "TRAILER!!!". */
  lemma TrailerIs()
    ensures LAST.data == [] && LAST.mode == 0x8000 && Writable(LAST) && |LAST.name| == 10
    ensures forall i :: 0 <= i < 10 ==> LAST.name[i] as int == "TRAILER!!!"[i] as int
  {
  }

  /** The part of an entry up to its padded name. */
  function NameEnd(f: File): nat { HEADER + |f.name| + 1 + Pad4(HEADER + |f.name| + 1) }

  /** A written header and name are read back, whatever follows them, if the data seems to fit. */
  lemma ParseHeader(a: seq<byte>, p: nat, f: File)
    requires Writable(f) && p + HEADER + |f.name| + 1 <= |a| < SIZE_T / 2
    requires a[p..p + HEADER] == Header(f) && a[p + HEADER..p + HEADER + |f.name| + 1] == f.name + [0]
    ensures var d := p + NameEnd(f);
            ParseOne(a, p) == if Remain(d, |a|) < |f.data| then Bad
                              else Good(Raw(f.name, f.mode, d, |f.data|), d + |f.data| + Pad4(|f.data|))
  {
    hide Header, Field, CStr, Pad4;
    HeaderFields(f);
    CStrOf(f.name);
    var n := p + HEADER;
    assert a[n..n + |f.name| + 1][|f.name|] == a[n + |f.name|];
  }

  /** An archive that ends right after a name in need of padding is accepted with its data outside: the
      length has to be a multiple of four. */
  lemma CutArchiveEscapes(f: File)
    requires Writable(f) && Pad4(HEADER + |f.name| + 1) > 0
    ensures var a := Header(f) + (f.name + [0]);
            |a| % 4 != 0 && ParseOne(a, 0).Good? && !Inside(a, ParseOne(a, 0).e)
  {
    hide Header, CStr, ParseOne, Pad4;
    var a := Header(f) + (f.name + [0]);
    assert a[0..0 + HEADER] == Header(f) && a[HEADER..HEADER + |f.name| + 1] == f.name + [0];
    ParseHeader(a, 0, f);
  }

  /** Where entry i starts in the archive of all. */
  function Start(all: seq<File>, i: nat): nat
    requires AllWritable(all) && i <= |all|
  {
    |Entries(all[..i])|
  }

  lemma {:induction false} EntriesPrefix(all: seq<File>, k: nat)
    requires AllWritable(all) && k <= |all|
    ensures Entries(all[..k]) <= Entries(all)
  {
    hide Written;
    if k < |all| {
      var up := all[..|all| - 1];
      EntriesPrefix(up, k);
      assert up[..k] == all[..k];
    } else {
      assert all[..k] == all;
    }
  }

  lemma OneEntryMore(all: seq<File>, i: nat)
    requires AllWritable(all) && i < |all|
    ensures Entries(all[..i + 1]) == Entries(all[..i]) + Written(all[i])
  {
    hide Written;
    assert all[..i + 1][..i] == all[..i];
  }

  lemma EntryAt(all: seq<File>, i: nat)
    requires AllWritable(all) && i < |all|
    ensures Start(all, i + 1) == Start(all, i) + |Written(all[i])| <= |Entries(all)|
    ensures Entries(all)[Start(all, i)..Start(all, i + 1)] == Written(all[i])
  {
    hide Written, Entries;
    OneEntryMore(all, i);
    EntriesPrefix(all, i + 1);
  }

  function RawOf(all: seq<File>, i: nat): Raw
    requires AllWritable(all) && i < |all|
  {
    Raw(all[i].name, all[i].mode, Start(all, i) + NameEnd(all[i]), |all[i].data|)
  }

  lemma WrittenParts(f: File)
    requires Writable(f)
    ensures Written(f)[..HEADER] == Header(f)
    ensures Written(f)[HEADER..HEADER + |f.name| + 1] == f.name + [0]
    ensures NameEnd(f) + |f.data| <= |Written(f)| && Written(f)[NameEnd(f)..NameEnd(f) + |f.data|] == f.data
  {
  }

  lemma EntryParts(all: seq<File>, i: nat)
    requires AllWritable(all) && i < |all|
    ensures var a, p, f := Entries(all), Start(all, i), all[i];
            && p + NameEnd(f) + |f.data| <= Start(all, i + 1) <= |a|
            && Start(all, i + 1) == p + NameEnd(f) + |f.data| + Pad4(|f.data|)
            && a[p..p + HEADER] == Header(f)
            && a[p + HEADER..p + HEADER + |f.name| + 1] == f.name + [0]
            && a[p + NameEnd(f)..p + NameEnd(f) + |f.data|] == f.data
  {
    hide Entries, Written, Pad4, Header;
    var a, p, f := Entries(all), Start(all, i), all[i];
    EntryAt(all, i);
    WrittenParts(f);
    SubSlice(a, p, Start(all, i + 1), 0, HEADER);
    SubSlice(a, p, Start(all, i + 1), HEADER, HEADER + |f.name| + 1);
    SubSlice(a, p, Start(all, i + 1), NameEnd(f), NameEnd(f) + |f.data|);
  }

  /** Reading entry i of a written archive. */
  lemma ParseEntry(all: seq<File>, i: nat)
    requires AllWritable(all) && i < |all| && |Entries(all)| < SIZE_T / 2
    ensures Start(all, i) < |Entries(all)|
    ensures ParseOne(Entries(all), Start(all, i)) == Good(RawOf(all, i), Start(all, i + 1))
    ensures var e := RawOf(all, i); Inside(Entries(all), e) && Entries(all)[e.at..e.at + e.size] == all[i].data
  {
    hide Entries, ParseOne, Pad4, Header, Start;
    EntryParts(all, i);
    ParseHeader(Entries(all), Start(all, i), all[i]);
  }

  lemma SubSlice(a: seq<byte>, p: nat, q: nat, x: nat, y: nat)
    requires p <= q <= |a| && x <= y <= q - p
    ensures a[p..q][x..y] == a[p + x..p + y]
  {
    assert forall k :: 0 <= k < y - x ==> a[p..q][x..y][k] == a[p..q][x + k] == a[p + x..p + y][k];
  }

  // ----- what the reader accepts

  /** The value of a hexadecimal digit in either case. */
  function AnyDigit(c: byte): int {
    if c <= 57 then c as int - 48 else if c <= 70 then c as int - 55 else c as int - 87
  }

  /** The number that eight hexadecimal digits from at on spell. */
  function Number(h: seq<byte>, at: nat): int
    requires at + 8 <= |h|
  {
    0x10000 *
    (AnyDigit(h[at]) * 0x1000 + AnyDigit(h[at + 1]) * 0x100 + AnyDigit(h[at + 2]) * 0x10 + AnyDigit(h[at + 3]))
    + (AnyDigit(h[at + 4]) * 0x1000 + AnyDigit(h[at + 5]) * 0x100 + AnyDigit(h[at + 6]) * 0x10 + AnyDigit(h[at + 7]))
  }

  lemma OneDigit(s: seq<byte>, n: nat)
    requires n < |s| && IsHex(s[n])
    ensures HexValue(s[..n + 1]) == HexValue(s[..n]) * 16 + AnyDigit(s[n])
  {
    assert s[..n + 1][..n] == s[..n];
  }

  lemma NumberRead(s: seq<byte>)
    requires |s| == 8 && forall i :: 0 <= i < 8 ==> IsHex(s[i])
    ensures HexValue(s) == Number(s, 0)
  {
    hide HexValue, AnyDigit;
    OneDigit(s, 0);
    OneDigit(s, 1);
    OneDigit(s, 2);
    OneDigit(s, 3);
    OneDigit(s, 4);
    OneDigit(s, 5);
    OneDigit(s, 6);
    OneDigit(s, 7);
    assert s[..8] == s;
    assert HexValue(s[..0]) == 0 by { NoDigits(s[..0]); }
  }

  lemma NoDigits(s: seq<byte>)
    requires s == []
    ensures HexValue(s) == 0
  {
  }

  lemma FieldIs(h: seq<byte>, i: nat)
    requires HeaderOk(h) && i < 13
    ensures Field(h, i) == Number(h, 6 + 8 * i) < U32
  {
    hide AnyDigit, HexValue, Pow16;
    HexBounded(h[6 + 8 * i..14 + 8 * i]);
    Pow16Of8();
    NumberRead(h[6 + 8 * i..14 + 8 * i]);
  }

  lemma HeaderIs(h: seq<byte>)
    requires LooksRight(h)
    ensures HeaderOk(h) && 0 <= Field(h, 1) == Number(h, 14) && 0 <= Field(h, 6) == Number(h, 54) < U32
    ensures 0 <= Field(h, 11) == Number(h, 94) < U32
  {
    hide Field, Number;
    assert HeaderOk(h);
    FieldIs(h, 1);
    FieldIs(h, 6);
    FieldIs(h, 11);
  }

  predicate LooksRight(h: seq<byte>) {
    && |h| == 110 && h[..6] == [48, 55, 48, 55, 48, 49]
    && forall i :: 6 <= i < 110 ==> 48 <= h[i] <= 57 || 65 <= h[i] <= 70 || 97 <= h[i] <= 102
  }

  lemma {:induction false} CStrMeans(s: seq<byte>)
    requires s != [] && s[|s| - 1] == 0
    ensures var r := CStr(s); |r| < |s| && s[..|r|] == r && s[|r|] == 0 && forall i :: 0 <= i < |r| ==> r[i] != 0
  {
    if s[0] != 0 {
      CStrMeans(s[1..]);
      assert s[..|CStr(s)|] == [s[0]] + s[1..][..|CStr(s[1..])|];
    }
  }

  /** What is not a whole header with the right magic number and hexadecimal digits only is refused. */
  lemma HeaderRefused(a: seq<byte>, p: nat)
    requires p <= |a| < SIZE_T / 2 && (p + 110 <= |a| ==> !LooksRight(a[p..p + 110]))
    ensures ParseOne(a, p) == Bad
  {
  }

  /** The name of n bytes ends in a NUL inside the archive. */
  predicate Named(a: seq<byte>, p: nat, n: int) { n > 0 && p + 110 + n <= |a| && a[p + 110 + n - 1] == 0 }

  /** Behind such a header: a name that ends in a NUL, and data from the next multiple of four on that does not end
      outside the archive - unless it begins there, as the padding of the name is not looked at.  The name counts up
      to its first NUL, and the next entry follows the data at a multiple of four again. */
  lemma EntryRead(a: seq<byte>, p: nat, mode: int, size: int, n: int) returns (d: int)
    requires p + 110 <= |a| < SIZE_T / 2 && LooksRight(a[p..p + 110])
    requires mode == Number(a[p..p + 110], 14) && size == Number(a[p..p + 110], 54) && n == Number(a[p..p + 110], 94)
    ensures var r := ParseOne(a, p); r.Good? <==> Named(a, p, n) && !(d <= |a| < d + size)
    ensures (d - p) % 4 == 0 && p + 110 + n <= d < p + 110 + n + 4
    ensures var r := ParseOne(a, p);
            r.Good? ==>
              && r.e.mode == mode && r.e.at == d && r.e.size == size
              && (r.next - d) % 4 == 0 && d + size <= r.next < d + size + 4
              && |r.e.name| < n && a[p + 110..p + 110 + |r.e.name|] == r.e.name && a[p + 110 + |r.e.name|] == 0
              && forall i :: 0 <= i < |r.e.name| ==> r.e.name[i] != 0
  {
    hide AnyDigit, HexValue, CStr, Number, Field, Pad4;
    HeaderIs(a[p..p + 110]);
    d := p + 110 + n + Pad4(110 + n);
    if Named(a, p, n) {
      var name := a[p + 110..p + 110 + n];
      CStrMeans(name);
      SubSlice(a, p + 110, p + 110 + n, 0, |CStr(name)|);
    }
  }

  // ----- walking an archive

  /** cpio_newc_foreach with callback cb, from p: the result and the entries the callback saw. */
  function Foreach(a: seq<byte>, p: nat, cb: Raw -> int): (int, seq<Raw>)
    requires p <= |a| < SIZE_T / 2
    decreases |a| - p
  {
    match ParseOne(a, p)
    case Bad => (-1, [])
    case Good(e, next) =>
      if e.name == TRAILER then (0, [])
      else
        var rc := cb(e);
        if rc != 0 then (rc, [e])
        else if next >= |a| then (-1, [e])
        else var r := Foreach(a, next, cb); (r.0, [e] + r.1)
  }

  datatype Option = None | Some(e: Raw)

  /** cpio_newc_find from p. */
  function Find(a: seq<byte>, p: nat, name: seq<byte>): Option
    requires p <= |a| < SIZE_T / 2
    decreases |a| - p
  {
    match ParseOne(a, p)
    case Bad => None
    case Good(e, next) =>
      if e.name == TRAILER then None
      else if e.name == name then Some(e)
      else if next >= |a| then None
      else Find(a, next, name)
  }

  /** On any aligned-length byte string: whatever the callback says, it only ever sees entries inside the archive. */
  lemma {:induction false} ForeachInside(a: seq<byte>, p: nat, cb: Raw -> int)
    requires p <= |a| < SIZE_T / 2 && |a| % 4 == 0 && p % 4 == 0
    ensures forall i :: 0 <= i < |Foreach(a, p, cb).1| ==> Inside(a, Foreach(a, p, cb).1[i])
    decreases |a| - p
  {
    hide ParseOne, Inside;
    if ParseOne(a, p).Good? {
      ParseInside(a, p);
      var r := ParseOne(a, p);
      if r.next < |a| { ForeachInside(a, r.next, cb); }
    }
  }

  lemma {:induction false} FindInside(a: seq<byte>, p: nat, name: seq<byte>)
    requires p <= |a| < SIZE_T / 2 && |a| % 4 == 0 && p % 4 == 0
    ensures var r := Find(a, p, name); r.Some? ==> Inside(a, r.e) && r.e.name == name != TRAILER
    decreases |a| - p
  {
    hide ParseOne, Inside;
    if ParseOne(a, p).Good? {
      ParseInside(a, p);
      var r := ParseOne(a, p);
      if r.next < |a| { FindInside(a, r.next, name); }
    }
  }

  predicate TrailerAt(a: seq<byte>, q: nat) {
    q <= |a| < SIZE_T / 2 && ParseOne(a, q).Good? && ParseOne(a, q).e.name == TRAILER
  }

  /** Walking any byte string ends with 0 only at a trailer. */
  lemma {:induction false} ZeroMeansTrailer(a: seq<byte>, p: nat, cb: Raw -> int)
    requires p <= |a| < SIZE_T / 2 && Foreach(a, p, cb).0 == 0
    ensures exists q :: TrailerAt(a, q)
    decreases |a| - p
  {
    hide ParseOne;
    var r := ParseOne(a, p);
    if r.Good? && r.e.name != TRAILER {
      ZeroMeansTrailer(a, r.next, cb);
    } else {
      assert TrailerAt(a, p);
    }
  }

  /** The files of an archive, and the trailer. */
  function All(fs: seq<File>): seq<File> { fs + [LAST] }

  lemma AllFacts(fs: seq<File>)
    requires AllWritable(fs)
    ensures AllWritable(All(fs)) && Archive(fs) == Entries(All(fs)) && Start(All(fs), 0) == 0
    ensures forall i :: 0 <= i < |fs| ==> All(fs)[i] == fs[i]
    ensures All(fs)[|fs|] == LAST
  {
  }

  /** Written files are ordinary files, not the trailer. */
  predicate NoTrailer(fs: seq<File>) { forall i :: 0 <= i < |fs| ==> fs[i].name != TRAILER }

  lemma ForeachStep(a: seq<byte>, p: nat, cb: Raw -> int)
    requires p <= |a| < SIZE_T / 2 && ParseOne(a, p).Good?
    ensures var e, next := ParseOne(a, p).e, ParseOne(a, p).next;
            && (e.name == TRAILER ==> Foreach(a, p, cb) == (0, []))
            && (e.name != TRAILER && cb(e) != 0 ==> Foreach(a, p, cb) == (cb(e), [e]))
            && (e.name != TRAILER && cb(e) == 0 && next < |a| ==>
                  Foreach(a, p, cb) == (Foreach(a, next, cb).0, [e] + Foreach(a, next, cb).1))
  {
    hide ParseOne;
  }

  /** The callback said 0 to all it saw but the last; what it said to the last is the result. */
  predicate Stops(seen: seq<Raw>, cb: Raw -> int, rc: int) {
    && (forall k :: 0 <= k < |seen| - 1 ==> cb(seen[k]) == 0)
    && rc == if seen == [] then 0 else cb(seen[|seen| - 1])
  }

  lemma StopsLater(e: Raw, seen: seq<Raw>, cb: Raw -> int, rc: int)
    requires cb(e) == 0 && Stops(seen, cb, rc)
    ensures Stops([e] + seen, cb, rc)
  {
    var all := [e] + seen;
    assert forall k :: 1 <= k < |all| ==> all[k] == seen[k - 1];
  }

  /** The entries seen are those of the files from i on. */
  predicate SeenFrom(fs: seq<File>, i: nat, seen: seq<Raw>)
    requires AllWritable(All(fs))
  {
    i + |seen| <= |fs| && forall k :: i <= k < i + |seen| ==> seen[k - i] == RawOf(All(fs), k)
  }

  lemma SeenMore(fs: seq<File>, i: nat, seen: seq<Raw>)
    requires AllWritable(All(fs)) && i < |fs|
    ensures SeenFrom(fs, i, []) && SeenFrom(fs, i, [RawOf(All(fs), i)])
    ensures SeenFrom(fs, i + 1, seen) ==> SeenFrom(fs, i, [RawOf(All(fs), i)] + seen)
  {
    hide RawOf;
    var all := [RawOf(All(fs), i)] + seen;
    if SeenFrom(fs, i + 1, seen) {
      forall k | i < k < i + |all|
        ensures all[k - i] == RawOf(All(fs), k)
      {
        assert all[k - i] == seen[k - (i + 1)];
      }
    }
  }

  lemma {:induction false} ForeachFrom(fs: seq<File>, i: nat, cb: Raw -> int)
    requires AllWritable(fs) && NoTrailer(fs) && |Archive(fs)| < SIZE_T / 2 && i <= |fs|
    requires AllWritable(All(fs))
    ensures Start(All(fs), i) <= |Archive(fs)|
    ensures var r := Foreach(Archive(fs), Start(All(fs), i), cb);
            SeenFrom(fs, i, r.1) && Stops(r.1, cb, r.0) && (r.0 == 0 ==> i + |r.1| == |fs|)
    decreases |fs| - i
  {
    hide ParseOne, Entries, Archive, Start, Inside, Foreach, RawOf, Stops, SeenFrom;
    AllFacts(fs);
    ParseEntry(All(fs), i);
    RawName(All(fs), i);
    ForeachStep(Archive(fs), Start(All(fs), i), cb);
    if i < |fs| {
      ParseEntry(All(fs), i + 1);
      ForeachFrom(fs, i + 1, cb);
      var e, later := RawOf(All(fs), i), Foreach(Archive(fs), Start(All(fs), i + 1), cb);
      SeenMore(fs, i, later.1);
      if cb(e) == 0 { StopsLater(e, later.1, cb, later.0); } else { StopsAtOnce(e, cb); }
    } else {
      NoneSeen(fs, cb);
    }
  }

  lemma StopsAtOnce(e: Raw, cb: Raw -> int)
    ensures Stops([e], cb, cb(e))
  {
  }

  lemma NoneSeen(fs: seq<File>, cb: Raw -> int)
    requires AllWritable(All(fs))
    ensures SeenFrom(fs, |fs|, []) && Stops([], cb, 0)
  {
  }

  /** The entry describes the file: its name, its mode, and where its bytes are. */
  predicate Describes(a: seq<byte>, e: Raw, f: File) {
    e.name == f.name && e.mode == f.mode && e.at + e.size <= |a| && a[e.at..e.at + e.size] == f.data
  }

  lemma RawDescribes(fs: seq<File>, i: nat)
    requires AllWritable(fs) && |Archive(fs)| < SIZE_T / 2 && i < |fs| && AllWritable(All(fs))
    ensures Describes(Archive(fs), RawOf(All(fs), i), fs[i])
  {
    hide Archive, Start, Entries;
    AllFacts(fs);
    ParseEntry(All(fs), i);
  }

  /** The reader visits the files written, in order, with their contents, until the callback objects, which is the
      result; if it never does, all of them, with 0. */
  lemma RoundTrip(fs: seq<File>, cb: Raw -> int)
    requires AllWritable(fs) && NoTrailer(fs) && |Archive(fs)| < SIZE_T / 2
    ensures var (rc, seen) := Foreach(Archive(fs), 0, cb);
            && |seen| <= |fs| && (rc == 0 ==> |seen| == |fs|)
            && (forall k :: 0 <= k < |seen| - 1 ==> cb(seen[k]) == 0)
            && rc == (if seen == [] then 0 else cb(seen[|seen| - 1]))
            && forall i :: 0 <= i < |seen| ==> Describes(Archive(fs), seen[i], fs[i])
  {
    hide Foreach, Archive, Start, Entries, Describes, RawOf;
    AllFacts(fs);
    ForeachFrom(fs, 0, cb);
    var seen := Foreach(Archive(fs), 0, cb).1;
    forall i | 0 <= i < |seen|
      ensures Describes(Archive(fs), seen[i], fs[i])
    {
      RawDescribes(fs, i);
      assert seen[i - 0] == RawOf(All(fs), i);
    }
  }

  lemma InsideNow(a: seq<byte>, e: Raw)
    ensures Inside(a, e) <==> e.at + e.size <= |a|
  {
  }

  /** The first file of a given name, or |fs|. */
  function FirstNamed(fs: seq<File>, name: seq<byte>): (i: nat)
    ensures i <= |fs| && (i < |fs| ==> fs[i].name == name) && forall k :: 0 <= k < i ==> fs[k].name != name
  {
    if fs == [] then 0 else if fs[0].name == name then 0 else 1 + FirstNamed(fs[1..], name)
  }

  lemma {:induction false} FindFrom(fs: seq<File>, i: nat, name: seq<byte>)
    requires AllWritable(fs) && NoTrailer(fs) && |Archive(fs)| < SIZE_T / 2 && i <= FirstNamed(fs, name)
    requires AllWritable(All(fs))
    ensures Start(All(fs), i) <= |Archive(fs)|
    ensures Find(Archive(fs), Start(All(fs), i), name) ==
            if FirstNamed(fs, name) < |fs| then Some(RawOf(All(fs), FirstNamed(fs, name))) else None
    decreases |fs| - i
  {
    hide ParseOne, Entries, Archive, Start, Inside, FirstNamed, RawOf;
    AllFacts(fs);
    ParseEntry(All(fs), i);
    RawName(All(fs), i);
    if i < FirstNamed(fs, name) {
      ParseEntry(All(fs), i + 1);
      FindFrom(fs, i + 1, name);
    }
  }

  lemma RawName(all: seq<File>, i: nat)
    requires AllWritable(all) && i < |all|
    ensures RawOf(all, i).name == all[i].name
  {
  }

  /** Looking a name up finds the first file written under it, and nothing if there is none. */
  lemma FindRoundTrip(fs: seq<File>, name: seq<byte>)
    requires AllWritable(fs) && NoTrailer(fs) && |Archive(fs)| < SIZE_T / 2
    ensures var r, i := Find(Archive(fs), 0, name), FirstNamed(fs, name);
            && (r.None? <==> i == |fs|)
            && (i < |fs| ==> Inside(Archive(fs), r.e) && r.e.name == name && r.e.mode == fs[i].mode
                             && Archive(fs)[r.e.at..r.e.at + r.e.size] == fs[i].data)
  {
    hide Find, Archive, Start, Inside, Entries, FirstNamed;
    AllFacts(fs);
    FindFrom(fs, 0, name);
    var i := FirstNamed(fs, name);
    if i < |fs| {
      ParseEntry(All(fs), i);
      InsideNow(Archive(fs), RawOf(All(fs), i));
    }
  }

  // ----- the reader's loops

  method CheckHeader(h: seq<byte>) returns (ok: bool)
    requires |h| == HEADER
    ensures ok <==> HeaderOk(h)
  {
    if h[..6] != MAGIC { return false; }
    for i := 6 to HEADER
      invariant forall k :: 6 <= k < i ==> IsHex(h[k])
    {
      if !IsHex(h[i]) { return false; }
    }
    return true;
  }

  method ParseOneAt(a: seq<byte>, p: nat) returns (r: Parsed)
    requires p <= |a| < SIZE_T / 2
    ensures r == ParseOne(a, p)
  {
    hide HexValue, CStr;
    if Remain(p, |a|) < HEADER { return Bad; }
    var h := a[p..p + HEADER];
    var ok := CheckHeader(h);
    if !ok { return Bad; }
    var mode := Hex8ToU32(h[14..22]);
    var size := Hex8ToU32(h[54..62]);
    var nameSize := Hex8ToU32(h[94..102]);
    var n := p + HEADER;
    if Remain(n, |a|) < nameSize { return Bad; }
    if nameSize == 0 { return Bad; }
    if a[n + nameSize - 1] != 0 { return Bad; }
    var name := CStr(a[n..n + nameSize]);
    var d := n + nameSize + Pad4(HEADER + nameSize);
    if Remain(d, |a|) < size { return Bad; }
    return Good(Raw(name, mode, d, size), d + size + Pad4(size));
  }

  /** cpio_newc_foreach. */
  method ForeachEntry(a: seq<byte>, cb: Raw -> int) returns (rc: int, seen: seq<Raw>)
    requires |a| < SIZE_T / 2
    ensures (rc, seen) == Foreach(a, 0, cb)
  {
    hide ParseOne;
    seen := [];
    var p: nat := 0;
    while true
      invariant p <= |a| && Foreach(a, 0, cb).0 == Foreach(a, p, cb).0
      invariant Foreach(a, 0, cb).1 == seen + Foreach(a, p, cb).1
      decreases |a| - p
    {
      var r := ParseOneAt(a, p);
      assert seen + [] == seen;
      if r.Bad? { return -1, seen; }
      var last := SameText(r.e.name, TRAILER);
      if last { return 0, seen; }
      assert Foreach(a, p, cb).1 == [r.e] + Foreach(a, p, cb).1[1..];
      seen := seen + [r.e];
      rc := cb(r.e);
      if rc != 0 { return rc, seen; }
      if r.next >= |a| { return -1, seen; }
      p := r.next;
    }
  }

  /** cpio_newc_find. */
  method FindEntry(a: seq<byte>, name: seq<byte>) returns (r: Option)
    requires |a| < SIZE_T / 2
    ensures r == Find(a, 0, name)
  {
    hide ParseOne;
    var p: nat := 0;
    while true
      invariant p <= |a| && Find(a, 0, name) == Find(a, p, name)
      decreases |a| - p
    {
      var q := ParseOneAt(a, p);
      if q.Bad? { return None; }
      var last := SameText(q.e.name, TRAILER);
      if last { return None; }
      var same := SameText(q.e.name, name);
      if same { return Some(q.e); }
      if q.next >= |a| { return None; }
      p := q.next;
    }
  }
}
