/** The calendar conversion of date: days since 1970-01-01 to a Gregorian date. */
module Date {
  datatype Date = Date(y: int, m: int, d: int)

  // ----- the Gregorian calendar

  predicate Leap(y: int) { y % 4 == 0 && (y % 100 != 0 || y % 400 == 0) }

  function DaysInMonth(y: int, m: int): int {
    if m == 2 then (if Leap(y) then 29 else 28)
    else if m in {4, 6, 9, 11} then 30 else 31
  }

  predicate Valid(t: Date) { 1 <= t.m <= 12 && 1 <= t.d <= DaysInMonth(t.y, t.m) }

  /** The day after. */
  function Next(t: Date): Date {
    if t.d < DaysInMonth(t.y, t.m) then Date(t.y, t.m, t.d + 1)
    else if t.m < 12 then Date(t.y, t.m + 1, 1)
    else Date(t.y + 1, 1, 1)
  }

  // ----- civil_from_days

  /** C division, which truncates towards zero. */
  function CDiv(a: int, b: int): int
    requires b > 0
  {
    if a >= 0 then a / b else -((-a) / b)
  }

  function CivilFromDays(z0: int): Date {
    var z := z0 + 719468;
    var era := CDiv(if z >= 0 then z else z - 146096, 146097);
    var doe := z - era * 146097;
    var yoe := CDiv(doe - CDiv(doe, 1460) + CDiv(doe, 36524) - CDiv(doe, 146096), 365);
    var y := yoe + era * 400;
    var doy := doe - (365 * yoe + CDiv(yoe, 4) - CDiv(yoe, 100));
    InYear(y, doy)
  }

  /** The month and day of day doy of the year that starts on March 1st of year y. */
  function InYear(y: int, doy: int): Date {
    var mp := CDiv(5 * doy + 2, 153);
    var d := doy - CDiv(153 * mp + 2, 5) + 1;
    var m := mp + (if mp < 10 then 3 else -9);
    Date(if m <= 2 then y + 1 else y, m, d)
  }

  // ----- the parts of a day number

  /** Day number z lies in era era (400 years), century c, four-year group q, year s, on day r of that year. */
  datatype Parts = Parts(era: int, c: int, q: int, s: int, r: int) {
    function Doe(): int { 36524 * c + 1461 * q + 365 * s + r }
    function Yoe(): int { 100 * c + 4 * q + s }
    function Year(): int { 400 * era + Yoe() }
    /** Whether the year, which starts in March, ends in a leap day. */
    predicate Long() { s == 3 && (q < 24 || c == 3) }
    predicate Ok() { 0 <= c <= 3 && 0 <= q <= 24 && 0 <= s <= 3 && 0 <= r < (if Long() then 366 else 365) }
  }

  lemma Quotient(n: int, d: int, k: int, r: int)
    requires d > 0 && 0 <= n == d * k + r && 0 <= r < d
    ensures CDiv(n, d) == k == n / d
  {
    var j := n / d;
    assert n == d * j + n % d;
    Multiple(d, k - j, n % d - r);
  }

  lemma Multiple(d: int, t: int, x: int)
    requires d > 0 && d * t == x && -d < x < d
    ensures t == 0
  {
    if t > 0 { AtLeast(d, t); }
    if t < 0 { AtLeast(d, -t); }
  }

  lemma AtLeast(d: int, t: int)
    requires d > 0 && t >= 1
    ensures d * t >= d
  {
  }

  lemma EraOf(z: int, era: int, doe: int)
    requires z == 146097 * era + doe && 0 <= doe < 146097
    ensures CDiv(if z >= 0 then z else z - 146096, 146097) == era
  {
    if z >= 0 {
      Quotient(z, 146097, era, doe);
    } else {
      Quotient(146096 - z, 146097, -era, 146096 - doe);
    }
  }

  lemma DoeBound(p: Parts)
    requires p.Ok()
    ensures 0 <= p.Doe() < 146097
  {
  }

  /** The year within the era comes out right. */
  lemma YoeIs(p: Parts)
    requires p.Ok()
    ensures var doe := p.Doe();
            CDiv(doe - CDiv(doe, 1460) + CDiv(doe, 36524) - CDiv(doe, 146096), 365) == p.Yoe()
  {
    var doe := p.Doe();
    var e := 1461 * p.q + 365 * p.s + p.r;
    assert doe == 36524 * p.c + e && 0 <= e <= 36524 && (e == 36524 ==> p.c == 3);
    // centuries
    if e == 36524 {
      Quotient(doe, 36524, 4, 0);
      Quotient(doe, 146096, 1, 0);
    } else {
      Quotient(doe, 36524, p.c, e);
      Quotient(doe, 146096, 0, doe);
    }
    // leap days
    var x := 24 * p.c + p.q + 365 * p.s + p.r;
    var f := if x >= 1460 then 1 else 0;
    assert doe == 1460 * (25 * p.c + p.q + f) + (x - 1460 * f);
    Quotient(doe, 1460, 25 * p.c + p.q + f, x - 1460 * f);
    Quotient(365 * p.Yoe() + (p.r - f), 365, p.Yoe(), p.r - f);
  }

  lemma DoyIs(p: Parts)
    requires p.Ok()
    ensures p.Doe() - (365 * p.Yoe() + CDiv(p.Yoe(), 4) - CDiv(p.Yoe(), 100)) == p.r
  {
    Quotient(p.Yoe(), 4, 25 * p.c + p.q, p.s);
    Quotient(p.Yoe(), 100, p.c, 4 * p.q + p.s);
  }

  /** Whatever parts a day number has, the code finds them. */
  lemma CivilIs(z: int, p: Parts)
    requires p.Ok() && z + 719468 == 146097 * p.era + p.Doe()
    ensures CivilFromDays(z) == InYear(p.Year(), p.r)
  {
    hide CDiv, InYear;
    DoeBound(p);
    EraOf(z + 719468, p.era, p.Doe());
    YoeIs(p);
    DoyIs(p);
  }

  /** Every day number has parts. */
  lemma Decompose(z: int) returns (p: Parts)
    ensures p.Ok() && z + 719468 == 146097 * p.era + p.Doe()
  {
    var n := z + 719468;
    var era, doe := n / 146097, n % 146097;
    var c := if doe / 36524 > 3 then 3 else doe / 36524;
    var e := doe - 36524 * c;
    assert 0 <= e <= 36524 && (e == 36524 ==> c == 3);
    var q := if e / 1461 > 24 then 24 else e / 1461;
    var g := e - 1461 * q;
    assert 0 <= g <= 1460 && (g == 1460 ==> q < 24 || c == 3);
    var s := if g / 365 > 3 then 3 else g / 365;
    p := Parts(era, c, q, s, g - 365 * s);
  }

  lemma LongIsLeap(p: Parts)
    requires p.Ok()
    ensures p.Long() <==> Leap(p.Year() + 1)
  {
    var y := p.Year() + 1;
    var k4, k100, k400 := p.s + 1, 4 * p.q + p.s + 1, 100 * p.c + 4 * p.q + p.s + 1;
    var i4, i100, i400 := if k4 == 4 then 1 else 0, if k100 == 100 then 1 else 0, if k400 == 400 then 1 else 0;
    LeapBy(y, 100 * p.era + 25 * p.c + p.q + i4, k4 - 4 * i4,
           4 * p.era + p.c + i100, k100 - 100 * i100, p.era + i400, k400 - 400 * i400);
  }

  lemma LeapBy(y: int, a: int, r4: int, b: int, r100: int, c: int, r400: int)
    requires y == 4 * a + r4 == 100 * b + r100 == 400 * c + r400
    requires 0 <= r4 < 4 && 0 <= r100 < 100 && 0 <= r400 < 400
    ensures Leap(y) <==> r4 == 0 && (r100 != 0 || r400 == 0)
  {
    Remainder(y, 4, a, r4);
    Remainder(y, 100, b, r100);
    Remainder(y, 400, c, r400);
  }

  lemma Remainder(y: int, d: int, k: int, r: int)
    requires d > 0 && y == d * k + r && 0 <= r < d
    ensures y % d == r
  {
    var j := y / d;
    assert y == d * j + y % d;
    Multiple(d, k - j, y % d - r);
  }

  // ----- within a year

  /** The day of the year on which month mp (0 is March) starts. */
  function MonthStart(mp: int): int
    requires 0 <= mp <= 12
  {
    (153 * mp + 2) / 5
  }

  /** The year a March-based month mp of year y belongs to, and its usual number. */
  function CivilYear(y: int, mp: int): int { if mp >= 10 then y + 1 else y }

  function CivilMonth(mp: int): int { if mp < 10 then mp + 3 else mp - 9 }

  lemma InYearIs(y: int, mp: int, doy: int)
    requires 0 <= mp < 12 && MonthStart(mp) <= doy < MonthStart(mp + 1)
    ensures InYear(y, doy) == Date(CivilYear(y, mp), CivilMonth(mp), doy - MonthStart(mp) + 1)
  {
    Quotient(5 * doy + 2, 153, mp, 5 * doy + 2 - 153 * mp);
    assert CDiv(153 * mp + 2, 5) == MonthStart(mp);
  }

  lemma MonthOf(doy: int) returns (mp: int)
    requires 0 <= doy < 366
    ensures 0 <= mp < 12 && MonthStart(mp) <= doy < MonthStart(mp + 1)
  {
    mp := (5 * doy + 2) / 153;
  }

  /** Months are as long as they should be; February gets what is left of the year. */
  lemma MonthLengths(y: int, mp: int)
    requires 0 <= mp < 12
    ensures mp < 11 ==> MonthStart(mp + 1) - MonthStart(mp) == DaysInMonth(CivilYear(y, mp), CivilMonth(mp))
    ensures MonthStart(11) == 337 && DaysInMonth(y + 1, 2) == if Leap(y + 1) then 29 else 28
  {
  }

  /** Every day of every year is a valid date, and the next day of the year is its successor. */
  lemma YearSteps(y: int, doy: int)
    requires 0 <= doy < (if Leap(y + 1) then 366 else 365)
    ensures Valid(InYear(y, doy))
    ensures Next(InYear(y, doy)) == if doy + 1 < (if Leap(y + 1) then 366 else 365) then InYear(y, doy + 1)
              else InYear(y + 1, 0)
  {
    hide InYear, Leap;
    var mp := MonthOf(doy);
    InYearIs(y, mp, doy);
    MonthLengths(y, mp);
    if doy + 1 >= (if Leap(y + 1) then 366 else 365) {
      InYearIs(y + 1, 0, 0);
    } else if doy + 1 < MonthStart(mp + 1) {
      InYearIs(y, mp, doy + 1);
    } else {
      InYearIs(y, mp + 1, doy + 1);
    }
  }

  // ----- main results

  /** The parts of the day after. */
  function NextParts(p: Parts): Parts {
    if p.r + 1 < (if p.Long() then 366 else 365) then p.(r := p.r + 1)
    else if p.s < 3 then p.(s := p.s + 1, r := 0)
    else if p.q < 24 then p.(q := p.q + 1, s := 0, r := 0)
    else if p.c < 3 then p.(c := p.c + 1, q := 0, s := 0, r := 0)
    else Parts(p.era + 1, 0, 0, 0, 0)
  }

  lemma NextPartsNext(p: Parts)
    requires p.Ok()
    ensures var n := NextParts(p);
            && n.Ok() && 146097 * n.era + n.Doe() == 146097 * p.era + p.Doe() + 1
            && (if p.r + 1 < (if p.Long() then 366 else 365) then n.Year() == p.Year() && n.r == p.r + 1
                else n.Year() == p.Year() + 1 && n.r == 0)
  {
  }

  /** Day 0 is the first of January 1970. */
  lemma Epoch()
    ensures CivilFromDays(0) == Date(1970, 1, 1)
  {
  }

  /** Each day number gives a valid date, and the next one the date of the day after: for every integer. */
  lemma Successor(z: int)
    ensures Valid(CivilFromDays(z)) && CivilFromDays(z + 1) == Next(CivilFromDays(z))
  {
    hide InYear, CivilFromDays, Next, Valid, Leap;
    var p := Decompose(z);
    CivilIs(z, p);
    NextPartsNext(p);
    CivilIs(z + 1, NextParts(p));
    LongIsLeap(p);
    YearSteps(p.Year(), p.r);
  }

  // ----- counting days

  function YearLength(y: int): int { if Leap(y) then 366 else 365 }

  /** Days from 1970-01-01 to the first of January of year y. */
  function DaysToYear(y: int): int
    decreases if y >= 1970 then y - 1970 else 1970 - y
  {
    if y == 1970 then 0
    else if y > 1970 then DaysToYear(y - 1) + YearLength(y - 1)
    else DaysToYear(y + 1) - YearLength(y)
  }

  /** Days from the first of January to the first of month m. */
  function DaysToMonth(y: int, m: int): int
    requires 1 <= m <= 13
    decreases m
  {
    if m == 1 then 0 else DaysToMonth(y, m - 1) + DaysInMonth(y, m - 1)
  }

  function DayNumber(t: Date): int
    requires 1 <= t.m <= 12
  {
    DaysToYear(t.y) + DaysToMonth(t.y, t.m) + t.d - 1
  }

  lemma WholeYear(y: int)
    ensures DaysToMonth(y, 13) == YearLength(y) && DaysToYear(y + 1) == DaysToYear(y) + YearLength(y)
  {
    hide Leap;
    assert DaysToMonth(y, 3) == 31 + DaysInMonth(y, 2);
    assert DaysToMonth(y, 5) == DaysToMonth(y, 3) + 61;
    assert DaysToMonth(y, 7) == DaysToMonth(y, 5) + 61;
    assert DaysToMonth(y, 9) == DaysToMonth(y, 7) + 62;
    assert DaysToMonth(y, 11) == DaysToMonth(y, 9) + 61;
  }

  /** Counting agrees with the calendar: the day after has the next number. */
  lemma NextCounts(t: Date)
    requires Valid(t)
    ensures Valid(Next(t)) && DayNumber(Next(t)) == DayNumber(t) + 1
  {
  }

  /** The conversion undoes counting days, for every integer. */
  lemma {:induction false} CountsBack(z: int)
    ensures Valid(CivilFromDays(z)) && DayNumber(CivilFromDays(z)) == z
    decreases if z >= 0 then z else -z
  {
    hide CivilFromDays, Next, DaysToYear, DaysToMonth, Leap;
    if z == 0 {
      Epoch();
      EpochNumber();
    } else if z > 0 {
      CountsBack(z - 1);
      Successor(z - 1);
      NextCounts(CivilFromDays(z - 1));
    } else {
      CountsBack(z + 1);
      Successor(z);
      NextCounts(CivilFromDays(z));
    }
  }

  lemma EpochNumber()
    ensures DayNumber(Date(1970, 1, 1)) == 0 && Valid(Date(1970, 1, 1))
  {
  }

  lemma {:induction false} MonthsGrow(y: int, m: int, n: int)
    requires 1 <= m < n <= 13
    ensures DaysToMonth(y, m) + DaysInMonth(y, m) <= DaysToMonth(y, n)
    decreases n
  {
    hide Leap;
    if m < n - 1 { MonthsGrow(y, m, n - 1); }
  }

  lemma {:induction false} YearsGrow(y: int, x: int)
    requires y < x
    ensures DaysToYear(y) + YearLength(y) <= DaysToYear(x)
    decreases x - y
  {
    hide Leap, DaysToMonth;
    WholeYear(x - 1);
    if y < x - 1 { YearsGrow(y, x - 1); }
  }

  /** A date's number lies inside its year. */
  lemma NumberInYear(t: Date)
    requires Valid(t)
    ensures DaysToYear(t.y) <= DayNumber(t) < DaysToYear(t.y) + YearLength(t.y)
  {
    hide Leap, DaysToYear;
    MonthsGrow(t.y, t.m, 13);
    WholeYear(t.y);
    if t.m > 1 { MonthsGrow(t.y, 1, t.m); }
  }

  lemma NumberOrders(a: Date, b: Date)
    requires Valid(a) && Valid(b)
    requires a.y < b.y || (a.y == b.y && a.m < b.m) || (a.y == b.y && a.m == b.m && a.d < b.d)
    ensures DayNumber(a) < DayNumber(b)
  {
    hide Leap, DaysToYear, DaysToMonth, DaysInMonth;
    if a.y < b.y {
      NumberInYear(a);
      NumberInYear(b);
      YearsGrow(a.y, b.y);
    } else if a.m < b.m {
      MonthsGrow(a.y, a.m, b.m);
    }
  }

  /** And counting days undoes the conversion: every valid date is the date of its number. */
  lemma CivilOfNumber(t: Date)
    requires Valid(t)
    ensures CivilFromDays(DayNumber(t)) == t
  {
    hide CivilFromDays, DaysToYear, DaysToMonth, DaysInMonth;
    var u := CivilFromDays(DayNumber(t));
    CountsBack(DayNumber(t));
    if u.y < t.y || (u.y == t.y && u.m < t.m) || (u.y == t.y && u.m == t.m && u.d < t.d) {
      NumberOrders(u, t);
    } else if u != t {
      NumberOrders(t, u);
    }
  }
}
