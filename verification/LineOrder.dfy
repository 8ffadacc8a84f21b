/** The line comparisons of sort. A line is a C string: bytes other than NUL. */
module LineOrder {
  type char8 = x: int | 1 <= x < 256 witness 1
  type Text = seq<char8>

  const I64_MAX := 0x7fff_ffff_ffff_ffff

  datatype Opts = Opts(reverse: bool, numeric: bool, unique: bool)

  datatype Option = None | Some(value: int)

  /** Byte-wise lexicographic order: -1, 0 or 1. */
  function Lex(a: Text, b: Text): int {
    if a == [] then (if b == [] then 0 else -1)
    else if b == [] then 1
    else if a[0] < b[0] then -1
    else if a[0] > b[0] then 1
    else Lex(a[1..], b[1..])
  }

  lemma {:induction false} LexFlips(a: Text, b: Text)
    ensures Lex(b, a) == -Lex(a, b) && (Lex(a, b) == 0 <==> a == b)
  {
    if a != [] && b != [] {
      LexFlips(a[1..], b[1..]);
      assert a == [a[0]] + a[1..] && b == [b[0]] + b[1..];
    }
  }

  lemma {:induction false} LexTransitive(a: Text, b: Text, c: Text)
    requires Lex(a, b) <= 0 && Lex(b, c) <= 0
    ensures Lex(a, c) <= 0 && (Lex(a, c) == 0 ==> Lex(a, b) == 0 && Lex(b, c) == 0)
  {
    if a != [] && b != [] && c != [] {
      if a[0] == b[0] == c[0] { LexTransitive(a[1..], b[1..], c[1..]); }
    }
  }

  /** What lexicographic means: the first difference decides, and a proper prefix comes first. */
  lemma {:induction false} LexMeaning(a: Text, b: Text) returns (i: nat)
    requires Lex(a, b) < 0
    ensures i <= |a| && i < |b| && a[..i] == b[..i] && (i == |a| || a[i] < b[i])
  {
    if a == [] || a[0] < b[0] {
      i := 0;
    } else {
      var k := LexMeaning(a[1..], b[1..]);
      i := k + 1;
      assert a[..i] == [a[0]] + a[1..][..k] && b[..i] == [b[0]] + b[1..][..k];
    }
  }

  /** cmp_lex. */
  method CmpLex(a: Text, b: Text) returns (c: int)
    ensures c == Lex(a, b)
  {
    var i := 0;
    assert a[0..] == a && b[0..] == b;
    while i < |a| && i < |b|
      invariant i <= |a| && i <= |b| && Lex(a, b) == Lex(a[i..], b[i..])
    {
      if a[i] < b[i] { return -1; }
      if a[i] > b[i] { return 1; }
      assert a[i..][1..] == a[i + 1..] && b[i..][1..] == b[i + 1..];
      i := i + 1;
    }
    if i == |a| && i == |b| { return 0; }
    return if i < |a| then 1 else -1;
  }

  // ----- numeric prefixes

  predicate IsSpace(c: char8) { c == 32 || 9 <= c <= 13 }

  predicate IsDigit(c: char8) { 48 <= c <= 57 }

  function SkipSpaces(s: Text): Text {
    if s != [] && IsSpace(s[0]) then SkipSpaces(s[1..]) else s
  }

  function DigitValue(c: char8): int { (c as int) - 48 }

  predicate AllDigits(s: Text) { forall i :: 0 <= i < |s| ==> IsDigit(s[i]) }

  function Digits(s: Text): (ds: Text)
    ensures AllDigits(ds)
  {
    if s != [] && IsDigit(s[0]) then [s[0]] + Digits(s[1..]) else []
  }

  /** The number the digits spell. */
  function Decimal(ds: Text): nat
    requires AllDigits(ds)
  {
    if ds == [] then 0 else Decimal(ds[..|ds| - 1]) * 10 + DigitValue(ds[|ds| - 1])
  }

  /** int64 arithmetic taken as two's complement. */
  function Wrap64(v: int): int {
    (v + 0x8000_0000_0000_0000) % 0x1_0000_0000_0000_0000 - 0x8000_0000_0000_0000
  }

  /** The digit loop from v on: gives up when the next value is smaller. */
  function Accumulate(v: int, s: Text): Option
    decreases |s|
  {
    if s != [] && IsDigit(s[0]) then
      var nv := Wrap64(v * 10 + DigitValue(s[0]));
      if nv < v then None else Accumulate(nv, s[1..])
    else Some(v)
  }

  /** parse_i64_prefix: blanks, an optional sign, digits; the rest is ignored. */
  function Number(s: Text): Option {
    var t := SkipSpaces(s);
    var neg := t != [] && t[0] == 45;
    var u := if t != [] && (t[0] == 45 || t[0] == 43) then t[1..] else t;
    if u == [] || !IsDigit(u[0]) then None
    else
      match Accumulate(0, u)
      case None => None
      case Some(v) => Some(if neg then -v else v)
  }

  lemma OneDigitMore(done: Text, c: char8)
    requires AllDigits(done) && IsDigit(c)
    ensures AllDigits(done + [c]) && Decimal(done + [c]) == Decimal(done) * 10 + DigitValue(c)
  {
  }

  lemma NoWrap(v: int)
    requires 0 <= v <= I64_MAX
    ensures Wrap64(v) == v
  {
  }

  lemma {:induction false} AccumulateExact(done: Text, rest: Text)
    requires AllDigits(done) && Decimal(done + Digits(rest)) <= I64_MAX
    ensures Decimal(done) <= I64_MAX && Accumulate(Decimal(done), rest) == Some(Decimal(done + Digits(rest)))
    decreases |rest|
  {
    hide Decimal, Wrap64;
    if rest != [] && IsDigit(rest[0]) {
      var next := done + [rest[0]];
      OneDigitMore(done, rest[0]);
      assert next + Digits(rest[1..]) == done + Digits(rest);
      AccumulateExact(next, rest[1..]);
      NoWrap(Decimal(next));
    } else {
      assert done + Digits(rest) == done;
    }
  }

  /** A number that fits in 64 bits is read exactly, wherever it starts. */
  lemma NumberExact(s: Text)
    ensures var t := SkipSpaces(s);
            var u := if t != [] && t[0] in {43, 45} then t[1..] else t;
            var d: int := Decimal(Digits(u));
            && (Number(s).Some? ==> Digits(u) != [])
            && (Digits(u) != [] && d <= I64_MAX ==> Number(s) == Some(if t[0] == 45 then -d else d))
  {
    var t := SkipSpaces(s);
    var u := if t != [] && t[0] in {43, 45} then t[1..] else t;
    assert [] + Digits(u) == Digits(u);
    if Digits(u) != [] && Decimal(Digits(u)) <= I64_MAX { AccumulateExact([], u); }
  }

  /** The digits are those of n. */
  predicate Spells(ds: Text, n: int) {
    if ds == [] then n == 0
    else n % 10 == ds[|ds| - 1] as int - 48 && Spells(ds[..|ds| - 1], n / 10)
  }

  lemma {:induction false} DecimalSpells(ds: Text)
    requires AllDigits(ds)
    ensures Spells(ds, Decimal(ds))
  {
    if ds != [] { DecimalSpells(ds[..|ds| - 1]); }
  }

  lemma {:induction false} SpellsOne(ds: Text, m: int, n: int)
    requires Spells(ds, m) && Spells(ds, n)
    ensures m == n
  {
    if ds != [] { SpellsOne(ds[..|ds| - 1], m / 10, n / 10); }
  }

  predicate Blanks(s: Text) { forall i :: 0 <= i < |s| ==> s[i] == 32 || 9 <= s[i] <= 13 }

  predicate Figures(s: Text) { forall i :: 0 <= i < |s| ==> 48 <= s[i] <= 57 }

  lemma {:induction false} BlanksSkipped(blanks: Text, s: Text)
    requires Blanks(blanks) && (s == [] || !Blanks(s[..1]))
    ensures SkipSpaces(blanks + s) == s
  {
    if blanks == [] {
      assert blanks + s == s;
      if s != [] { assert !(s[..1][0] == 32 || 9 <= s[..1][0] <= 13); }
    } else {
      BlanksSkipped(blanks[1..], s);
      assert (blanks + s)[1..] == blanks[1..] + s;
    }
  }

  lemma {:induction false} DigitsTaken(ds: Text, rest: Text)
    requires Figures(ds) && (rest == [] || !Figures(rest[..1]))
    ensures Digits(ds + rest) == ds
  {
    if ds == [] {
      assert ds + rest == rest;
      if rest != [] { assert !(48 <= rest[..1][0] <= 57); }
    } else {
      DigitsTaken(ds[1..], rest);
      assert (ds + rest)[1..] == ds[1..] + rest;
    }
  }

  /** What a line is read as: blanks, a sign or none, and the digits of n, whatever follows them, are n with the sign;
      without a digit there the line has no number. */
  lemma NumberReads(blanks: Text, sign: Text, ds: Text, rest: Text, n: int)
    requires Blanks(blanks) && (sign == [] || sign[0] in {43, 45}) && |sign| <= 1
    requires Figures(ds) && (rest == [] || !Figures(rest[..1]))
    requires sign == [] && ds == [] && rest != [] ==> !Blanks(rest[..1]) && rest[0] !in {43, 45}
    requires Spells(ds, n) && n < 0x8000_0000_0000_0000
    ensures Number(blanks + sign + ds + rest) == if ds == [] then None else Some(if sign == [45] then -n else n)
  {
    var s: Text := blanks + sign + ds + rest;
    var u: Text := ds + rest;
    assert s == blanks + (sign + u);
    if sign + u != [] { assert (sign + u)[..1][0] == if sign != [] then sign[0] else u[0]; }
    BlanksSkipped(blanks, sign + u);
    assert sign != [] ==> (sign + u)[1..] == u;
    assert sign == [] ==> sign + u == u;
    DigitsTaken(ds, rest);
    DecimalSpells(ds);
    SpellsOne(ds, n, Decimal(ds));
    NumberExact(s);
  }

  method ParseI64Prefix(s: Text) returns (v: Option)
    ensures v == Number(s)
  {
    var p := 0;
    assert s[0..] == s;
    while p < |s| && IsSpace(s[p])
      invariant p <= |s| && SkipSpaces(s[p..]) == SkipSpaces(s)
    {
      assert s[p..][1..] == s[p + 1..];
      p := p + 1;
    }
    assert s[p..] == SkipSpaces(s);
    var neg := false;
    ghost var t: Text := s[p..];
    if p < |s| && s[p] == 45 {
      neg := true;
      p := p + 1;
      assert t[1..] == s[p..];
    } else if p < |s| && s[p] == 43 {
      p := p + 1;
      assert t[1..] == s[p..];
    }
    ghost var u: Text := s[p..];
    if p == |s| || !IsDigit(s[p]) { return None; }
    var n := 0;
    while p < |s| && IsDigit(s[p])
      invariant p <= |s| && Accumulate(n, s[p..]) == Accumulate(0, u)
    {
      var nv := Wrap64(n * 10 + DigitValue(s[p]));
      assert s[p..][1..] == s[p + 1..];
      if nv < n { return None; }
      n := nv;
      p := p + 1;
    }
    return Some(if neg then -n else n);
  }

  // ----- the order sort uses

  function Sign(a: int, b: int): int { if a < b then -1 else if a > b then 1 else 0 }

  /** Lines with a number come first, by value, ties in byte order; the others follow in byte order. */
  function ByNumber(a: Text, b: Text): int {
    match (Number(a), Number(b))
    case (Some(x), Some(y)) => if x == y then Lex(a, b) else Sign(x, y)
    case (Some(_), None) => -1
    case (None, Some(_)) => 1
    case (None, None) => Lex(a, b)
  }

  function Compare(o: Opts, a: Text, b: Text): int {
    var c := if o.numeric then ByNumber(a, b) else Lex(a, b);
    if o.reverse then -c else c
  }

  predicate Le(o: Opts, a: Text, b: Text) { Compare(o, a, b) <= 0 }

  /** cmp_lines. */
  method CmpLines(o: Opts, a: Text, b: Text) returns (c: int)
    ensures c == Compare(o, a, b)
  {
    hide Lex, Number;
    c := 0;
    if o.numeric {
      var va := ParseI64Prefix(a);
      var vb := ParseI64Prefix(b);
      if va.Some? && vb.Some? {
        if va.value < vb.value { c := -1; }
        else if va.value > vb.value { c := 1; }
        else { c := 0; }
      } else if va.Some? {
        c := -1;
      } else if vb.Some? {
        c := 1;
      } else {
        c := CmpLex(a, b);
      }
      if c == 0 {
        c := CmpLex(a, b);
      }
    } else {
      c := CmpLex(a, b);
    }
    if o.reverse { c := -c; }
  }

  /** Byte order as dictionaries have it: a comes before b where they differ first, or a is a proper beginning of b. */
  ghost predicate Before(a: Text, b: Text) { exists i: nat :: DiffersAt(a, b, i) }

  predicate DiffersAt(a: Text, b: Text, i: nat) {
    i <= |a| && i < |b| && a[..i] == b[..i] && (i < |a| ==> a[i] < b[i])
  }

  lemma {:induction false} DiffersDecides(a: Text, b: Text, i: nat)
    requires DiffersAt(a, b, i)
    ensures Lex(a, b) < 0
  {
    if i > 0 {
      assert a[0] == a[..i][0] == b[..i][0] == b[0];
      assert a[1..][..i - 1] == a[..i][1..] && b[1..][..i - 1] == b[..i][1..];
      DiffersDecides(a[1..], b[1..], i - 1);
    }
  }

  lemma LexIsBefore(a: Text, b: Text)
    ensures Lex(a, b) < 0 <==> Before(a, b)
  {
    if Lex(a, b) < 0 {
      var i := LexMeaning(a, b);
      assert DiffersAt(a, b, i);
    }
    if i: nat :| DiffersAt(a, b, i) { DiffersDecides(a, b, i); }
  }

  /** The order of the options: plain, -n and -r.  With -n a line with a number comes before one without, the smaller
      number first; equal numbers, and lines without one, in byte order.  -r turns the whole order around. */
  lemma OrderMeans(o: Opts, a: Text, b: Text)
    ensures var (p, q) := if o.reverse then (b, a) else (a, b);
            Compare(o, a, b) < 0 <==>
              if !o.numeric || Number(p) == Number(q) then Before(p, q)
              else Number(p).Some? && (Number(q).Some? ==> Number(p).value < Number(q).value)
  {
    hide Lex, Number, Before;
    LexIsBefore(a, b);
    LexIsBefore(b, a);
    LexFlips(a, b);
  }

  /** Only equal lines tie, and swapping the operands flips the sign: with LeTransitive, a total order on lines. */
  lemma CompareFlips(o: Opts, a: Text, b: Text)
    ensures Compare(o, b, a) == -Compare(o, a, b) && (Compare(o, a, b) == 0 <==> a == b)
  {
    hide Lex, Number;
    LexFlips(a, b);
  }

  lemma LeTransitive(o: Opts, a: Text, b: Text, c: Text)
    requires Le(o, a, b) && Le(o, b, c)
    ensures Le(o, a, c)
  {
    hide Lex, Number;
    LexFlips(a, b);
    LexFlips(b, c);
    LexFlips(a, c);
    if Lex(a, b) <= 0 && Lex(b, c) <= 0 { LexTransitive(a, b, c); }
    if Lex(c, b) <= 0 && Lex(b, a) <= 0 { LexTransitive(c, b, a); }
  }
}
