/**
  Gregorian dates and Julian day numbers, by the algorithm of Communications of
  the ACM, Vol. 6, No. 8, with the 32-bit steps of the program written out.
*/
module Calendar {

  const WORD: int := 0x1_0000_0000
  const INT_MAX: int := 0x7FFF_FFFF

  /** Unsigned 32-bit wrap-around. */
  function U32(x: int): (r: int)
    ensures 0 <= r < WORD
  {
    x % WORD
  }

  /** Conversion of an unsigned 32-bit number to `int`. */
  function AsInt(u: int): (r: int)
    requires 0 <= u < WORD
    ensures -INT_MAX - 1 <= r <= INT_MAX
  {
    if u <= INT_MAX then u else u - WORD
  }

  datatype Date = Date(day: int, month: int, year: int)

  // ------------------------------------------------------------------ the calendar itself

  predicate IsLeapYear(year: int) {
    (year % 4 == 0 && year % 100 != 0) || year % 400 == 0
  }

  function DaysIn(month: int, year: int): (n: int)
    requires 1 <= month <= 12
    ensures 28 <= n <= 31
  {
    if month == 2 then (if IsLeapYear(year) then 29 else 28)
    else if month == 4 || month == 6 || month == 9 || month == 11 then 30
    else 31
  }

  predicate Gregorian(t: Date) {
    1 <= t.month <= 12 && 1 <= t.day <= DaysIn(t.month, t.year)
  }

  function NextDay(t: Date): (r: Date)
    requires Gregorian(t)
    ensures Gregorian(r)
  {
    if t.day < DaysIn(t.month, t.year) then t.(day := t.day + 1)
    else if t.month < 12 then Date(1, t.month + 1, t.year)
    else Date(1, 1, t.year + 1)
  }

  predicate Earlier(a: Date, b: Date) {
    a.year < b.year || (a.year == b.year && (a.month < b.month || (a.month == b.month && a.day < b.day)))
  }

  // ------------------------------------------------------------------ the program's arithmetic

  /** Gregorian date to Julian day. */
  function Gc2Jd(day: int, month: int, year: int): (jd: int) {
    var y := if year <= 99 then year + 1900 else year;
    var m := if month > 2 then month - 3 else month + 9;
    var y' := if month > 2 then y else y - 1;
    var c := U32(y') / 100;
    var ya := U32(y' - 100 * c);
    AsInt(U32(1721119 + day + U32(146097 * c) / 4 + U32(1461 * ya) / 4 + (153 * m + 2) / 5))
  }

  /** Julian day to Gregorian date. */
  function Jd2Gc(jd: int): (t: Date) {
    var j := U32(jd - 1721119);
    var c := AsInt(U32(j * 4 - 1) / 146097);
    var j1 := U32(j * 4 - 146097 * c - 1);
    var x1 := j1 / 4;
    var ya := U32(x1 * 4 + 3) / 1461;
    var y := AsInt(U32(100 * c + ya));
    var x2 := U32(x1 * 4 + 3 - 1461 * ya);
    var x3 := U32(x2 + 4) / 4;
    var m := AsInt(U32(5 * x3 - 3) / 153);
    var x4 := U32(5 * x3 - 3 - 153 * m);
    var d := AsInt(U32(x4 + 5) / 5);
    if m < 10 then Date(d, m + 3, y) else Date(d, m - 9, y + 1)
  }

  // ------------------------------------------------------------------ the day count behind it

  /** The year that starts in March, and the month counted from March. */
  function MarchYear(t: Date): (y: int) {
    if t.month > 2 then t.year else t.year - 1
  }

  function MarchMonth(t: Date): (m: int) {
    if t.month > 2 then t.month - 3 else t.month + 9
  }

  /** Days from 1 March of the March year on, counted from 1. */
  function DayOfYear(t: Date): (u: int) {
    (153 * MarchMonth(t) + 2) / 5 + t.day
  }

  /** Days before 1 March of the March year. */
  function DaysBefore(y: int): (n: int) {
    146097 * (y / 100) / 4 + 1461 * (y % 100) / 4
  }

  function DayNumber(t: Date): (n: int) {
    1721119 + DaysBefore(MarchYear(t)) + DayOfYear(t)
  }

  /** The last March year in which no step of either conversion leaves its 32-bit range. */
  const LAST_MARCH_YEAR: int := 1469999

  predicate InRange(t: Date) {
    t.year >= 100 && MarchYear(t) <= LAST_MARCH_YEAR
  }

  lemma DayOfYearBounds(t: Date)
    requires Gregorian(t)
    ensures 1 <= DayOfYear(t) <= 366
    ensures DayOfYear(t) == 366 ==> IsLeapYear(MarchYear(t) + 1)
  {
  }

  /** A quotient and a remainder that fit are those of the division. */
  lemma Remainder(x: int, m: int, q: int, r: int)
    requires m > 0 && x == m * q + r && 0 <= r < m
    ensures x / m == q && x % m == r
  {
    var p := x / m;
    assert x == m * p + x % m;
    assert m * (q - p) == x % m - r;
    SmallMultiple(m, q - p);
  }

  lemma SmallMultiple(m: int, n: int)
    requires m > 0
    ensures n >= 1 ==> m * n >= m
    ensures n <= -1 ==> m * n <= -m
  {
    assert n >= 1 ==> m * (n - 1) >= 0;
    assert n <= -1 ==> m * (n + 1) <= 0;
  }

  lemma Quarters(c: int)
    requires c >= 0
    ensures 4 * (146097 * c / 4) == 146097 * c - c % 4 && 4 * (1461 * c / 4) == 1461 * c - c % 4
  {
    var q, r := c / 4, c % 4;
    Remainder(146097 * c, 4, 146097 * q + 36524 * r, r);
    Remainder(1461 * c, 4, 1461 * q + 365 * r, r);
  }

  lemma CenturyOf(y: int)
    requires y >= 0
    ensures var c, ya := y / 100, y % 100;
      y == 100 * c + ya && 0 <= ya < 100 && c >= 0
  {
  }

  /** Splitting the March year: a century has one day less than its years add up to, except every fourth. */
  lemma Century(y: int, u: int)
    requires y >= 0 && 1 <= u <= 366 && (u == 366 ==> IsLeapYear(y + 1))
    ensures
      var c, ya := y / 100, y % 100;
      var t := 1461 * ya / 4 + u;
      && DaysBefore(y) + u == 146097 * c / 4 + t
      && 4 * (146097 * c / 4) == 146097 * c - c % 4
      && 4 * (1461 * ya / 4) == 1461 * ya - ya % 4
      && 1 <= t <= 36525 && (t == 36525 ==> c % 4 == 3)
      && (u == 366 ==> ya % 4 == 3)
  {
    var c, ya := y / 100, y % 100;
    CenturyOf(y);
    Quarters(c);
    Quarters(ya);
    LeapStep(c, ya);
  }

  lemma Fits(x: int)
    requires 0 <= x < WORD
    ensures U32(x) == x && (x <= INT_MAX ==> AsInt(x) == x)
  {
  }

  /** In range, the date conversion computes the day number without any wrap-around. */
  lemma Gc2JdExact(t: Date)
    requires Gregorian(t) && InRange(t)
    ensures Gc2Jd(t.day, t.month, t.year) == DayNumber(t)
    ensures 0 <= DayNumber(t) <= INT_MAX
  {
    hide U32, AsInt, IsLeapYear, DaysIn;
    var y, m := MarchYear(t), MarchMonth(t);
    DayOfYearBounds(t);
    var c, ya := y / 100, y % 100;
    Fits(y);
    assert ya == y - 100 * c;
    Fits(ya);
    Fits(146097 * c);
    Fits(1461 * ya);
    Fits(DayNumber(t));
  }

  /** The inverse of the century and year steps of the day count. */
  lemma Split(y: int, u: int, j: int)
    requires y >= 0 && 1 <= u <= 366 && (u == 366 ==> IsLeapYear(y + 1)) && j == DaysBefore(y) + u
    ensures
      var c := (j * 4 - 1) / 146097;
      var x1 := (j * 4 - 146097 * c - 1) / 4;
      var ya := (x1 * 4 + 3) / 1461;
      var x2 := x1 * 4 + 3 - 1461 * ya;
      && c == y / 100 && ya == y % 100 && (x2 + 4) / 4 == u
      && 0 <= j * 4 - 146097 * c - 1 < 146097 && 0 <= x2 < 1461
  {
    hide DaysBefore, IsLeapYear;
    Century(y, u);
    var c, ya := y / 100, y % 100;
    var t := 1461 * ya / 4 + u;
    assert j * 4 - 1 == 146097 * c + (4 * t - 1 - c % 4);
    assert 0 <= 4 * t - 1 - c % 4 < 146097;
    assert (j * 4 - 1) / 146097 == c;
    var x1 := (j * 4 - 146097 * c - 1) / 4;
    assert x1 == t - 1;
    assert x1 * 4 + 3 == 1461 * ya + (4 * u - 1 - ya % 4);
  }

  /** The inverse of the month step. */
  lemma SplitMonth(m: int, d: int)
    requires 0 <= m <= 11 && 1 <= d <= 31 && (m in {1, 3, 6, 8} ==> d <= 30) && (m == 11 ==> d <= 29)
    ensures
      var u := (153 * m + 2) / 5 + d;
      var x := 5 * u - 3 - 153 * m;
      (5 * u - 3) / 153 == m && 0 <= x < 153 && (x + 5) / 5 == d
  {
  }

  /** The year and day found by the program for the day count `j` of day `u` of March year `y`. */
  lemma Jd2GcYear(y: int, u: int, j: int)
    requires 0 <= y <= LAST_MARCH_YEAR && 1 <= u <= 366 && (u == 366 ==> IsLeapYear(y + 1)) && j == DaysBefore(y) + u
    ensures
      var c := AsInt(U32(j * 4 - 1) / 146097);
      var x1 := U32(j * 4 - 146097 * c - 1) / 4;
      var ya := U32(x1 * 4 + 3) / 1461;
      && 0 <= j < WORD && AsInt(U32(100 * c + ya)) == y && U32(U32(x1 * 4 + 3 - 1461 * ya) + 4) / 4 == u
  {
    hide U32, AsInt, IsLeapYear, DaysBefore;
    Split(y, u, j);
    Bounded(y, u);
    Fits(j * 4 - 1);
    var c := y / 100;
    Fits(c);
    Fits(j * 4 - 146097 * c - 1);
    var x1 := (j * 4 - 146097 * c - 1) / 4;
    Fits(x1 * 4 + 3);
    Fits(y);
    Fits(x1 * 4 + 3 - 1461 * (y % 100));
    Fits(x1 * 4 + 3 - 1461 * (y % 100) + 4);
  }

  /** In range, the conversion back finds the date of a day number, without any wrap-around. */
  lemma Jd2GcExact(t: Date)
    requires Gregorian(t) && InRange(t)
    ensures Jd2Gc(DayNumber(t)) == t
  {
    hide U32, AsInt, IsLeapYear, DaysBefore;
    var y, m, u := MarchYear(t), MarchMonth(t), DayOfYear(t);
    DayOfYearBounds(t);
    Jd2GcYear(y, u, DaysBefore(y) + u);
    SplitMonth(m, t.day);
    Fits(DaysBefore(y) + u);
    Fits(5 * u - 3);
    Fits(m);
    Fits(5 * u - 3 - 153 * m);
    Fits(5 * u - 3 - 153 * m + 5);
    Fits(t.day);
  }

  lemma Bounded(y: int, u: int)
    requires 0 <= y <= LAST_MARCH_YEAR && 1 <= u <= 366
    ensures 1 <= DaysBefore(y) + u && (DaysBefore(y) + u) * 4 < WORD && 146097 * (y / 100) <= INT_MAX
  {
  }

  // ------------------------------------------------------------------ from day numbers to dates

  const FIRST_DAY: int := 1757585  // 1 January 100
  const LAST_DAY: int := 538627594 // the last day of the last March year

  lemma UnsplitCentury(j: int)
    requires j >= 1
    ensures
      var c := (j * 4 - 1) / 146097;
      var x1 := (j * 4 - 146097 * c - 1) / 4;
      && c >= 0 && 0 <= x1 <= 36524 && j == 146097 * c / 4 + x1 + 1 && (x1 == 36524 ==> c % 4 == 3)
  {
    var c := (j * 4 - 1) / 146097;
    Quarters(c);
  }

  lemma UnsplitYear(x1: int)
    requires 0 <= x1 <= 36524
    ensures
      var ya := (x1 * 4 + 3) / 1461;
      var u := (x1 * 4 + 3 - 1461 * ya + 4) / 4;
      && 0 <= ya <= 99 && 1 <= u <= 366 && x1 + 1 == 1461 * ya / 4 + u && (u == 366 ==> ya % 4 == 3)
  {
    var ya := (x1 * 4 + 3) / 1461;
    Quarters(ya);
  }

  /** Reading a day count back: it splits into a March year and a day in it in one way. */
  lemma Unsplit(j: int)
    requires j >= 1
    ensures
      var c := (j * 4 - 1) / 146097;
      var x1 := (j * 4 - 146097 * c - 1) / 4;
      var ya := (x1 * 4 + 3) / 1461;
      var u := (x1 * 4 + 3 - 1461 * ya + 4) / 4;
      && c >= 0 && 0 <= ya <= 99 && 1 <= u <= 366
      && j == DaysBefore(100 * c + ya) + u
      && (u == 366 ==> IsLeapYear(100 * c + ya + 1))
  {
    hide IsLeapYear;
    var c := (j * 4 - 1) / 146097;
    var x1 := (j * 4 - 146097 * c - 1) / 4;
    var ya := (x1 * 4 + 3) / 1461;
    UnsplitCentury(j);
    UnsplitYear(x1);
    assert (100 * c + ya) / 100 == c && (100 * c + ya) % 100 == ya;
    if (x1 * 4 + 3 - 1461 * ya + 4) / 4 == 366 {
      LeapStep(c, ya);
    }
  }

  lemma UnsplitMonth(u: int)
    requires 1 <= u <= 366
    ensures
      var m := (5 * u - 3) / 153;
      var d := (5 * u - 3 - 153 * m + 5) / 5;
      && 0 <= m <= 11 && 1 <= d <= 31 && (m in {1, 3, 6, 8} ==> d <= 30) && (m == 11 ==> d <= 29)
      && (153 * m + 2) / 5 + d == u && (m == 11 && d == 29 <==> u == 366)
  {
  }

  /** The date of day `u` of the March year `y`. */
  function DateIn(y: int, u: int): (t: Date) {
    var m := (5 * u - 3) / 153;
    var d := (5 * u - 3 - 153 * m + 5) / 5;
    if m < 10 then Date(d, m + 3, y) else Date(d, m - 9, y + 1)
  }

  lemma DateInIs(y: int, u: int)
    requires 1 <= u <= 366 && (u == 366 ==> IsLeapYear(y + 1))
    ensures Gregorian(DateIn(y, u)) && MarchYear(DateIn(y, u)) == y && DayOfYear(DateIn(y, u)) == u
  {
    hide IsLeapYear;
    UnsplitMonth(u);
  }

  /** Day counts outside the range belong to years outside the range. */
  lemma YearBounds(y: int)
    requires y >= 0
    ensures y <= 98 ==> DaysBefore(y) <= 35794
    ensures y == 99 ==> DaysBefore(y) == 36159
    ensures y > LAST_MARCH_YEAR ==> DaysBefore(y) >= 536906475
  {
  }

  lemma YearInRange(y: int, u: int)
    requires y >= 0 && 1 <= u <= 366 && FIRST_DAY <= 1721119 + DaysBefore(y) + u <= LAST_DAY
    ensures InRange(DateIn(y, u))
  {
    hide DaysBefore;
    YearBounds(y);
    UnsplitMonth(u);
  }

  // ------------------------------------------------------------------ the theorems

  /** From year 100 on, converting a date to its Julian day and back gives the date. */
  lemma DateRoundTrip(t: Date)
    requires Gregorian(t) && InRange(t)
    ensures Jd2Gc(Gc2Jd(t.day, t.month, t.year)) == t
  {
    Gc2JdExact(t);
    Jd2GcExact(t);
  }

  /** Every day in range has a date. */
  lemma DateOf(jd: int) returns (t: Date)
    requires FIRST_DAY <= jd <= LAST_DAY
    ensures Gregorian(t) && InRange(t) && DayNumber(t) == jd
  {
    hide IsLeapYear, DaysBefore, DateIn, DayOfYear, MarchYear, Gregorian, InRange;
    var j := jd - 1721119;
    Unsplit(j);
    var c := (j * 4 - 1) / 146097;
    var x1 := (j * 4 - 146097 * c - 1) / 4;
    var ya := (x1 * 4 + 3) / 1461;
    var u := (x1 * 4 + 3 - 1461 * ya + 4) / 4;
    t := DateIn(100 * c + ya, u);
    DateInIs(100 * c + ya, u);
    YearInRange(100 * c + ya, u);
  }

  /** From 1 January 100 on, converting a Julian day to a date and back gives the day. */
  lemma DayRoundTrip(jd: int)
    requires FIRST_DAY <= jd <= LAST_DAY
    ensures
      var t := Jd2Gc(jd);
      Gregorian(t) && InRange(t) && DayNumber(t) == jd && Gc2Jd(t.day, t.month, t.year) == jd
  {
    hide Gregorian, InRange, DayNumber, Jd2Gc, Gc2Jd;
    var t := DateOf(jd);
    Jd2GcExact(t);
    Gc2JdExact(t);
  }

  /**
    The year bound is exact: the signed product of the conversion back stays in
    its range if and only if the day is at most the last one.
  */
  lemma LastDayIsExact(jd: int)
    requires FIRST_DAY <= jd <= INT_MAX
    ensures 146097 * (((jd - 1721119) * 4 - 1) / 146097) <= INT_MAX <==> jd <= LAST_DAY
  {
    var c := ((jd - 1721119) * 4 - 1) / 146097;
    assert c <= 14699 <==> (jd - 1721119) * 4 - 1 < 146097 * 14700;
  }

  lemma TwoDigitYear(day: int, month: int, year: int)
    requires 0 <= year <= 99
    ensures Gc2Jd(day, month, year) == Gc2Jd(day, month, year + 1900)
    ensures year > 0 ==> (IsLeapYear(year) <==> IsLeapYear(year + 1900))
  {
    hide U32, AsInt;
  }

  /** Years up to 99 are taken for 1900 to 1999, so among them no date comes back. */
  lemma RoundTripNeedsYear100(t: Date)
    requires Gregorian(t) && 0 <= t.year && MarchYear(t) <= LAST_MARCH_YEAR
    ensures Jd2Gc(Gc2Jd(t.day, t.month, t.year)) == t <==> t.year >= 100
  {
    hide Jd2Gc, Gc2Jd, IsLeapYear;
    if t.year >= 100 {
      DateRoundTrip(t);
    } else if t.year == 0 && t.month == 2 && t.day == 29 {
      TwoDigitYear(29, 2, 0);
      NotLeap1900();
      DateRoundTrip(Date(1, 3, 1900));
    } else {
      TwoDigitYear(t.day, t.month, t.year);
      DateRoundTrip(t.(year := t.year + 1900));
    }
  }

  lemma NotLeap1900()
    ensures Gc2Jd(29, 2, 1900) == Gc2Jd(1, 3, 1900)
  {
    hide U32, AsInt;
    Fits(1899);
    Fits(1900);
    Fits(99);
    Fits(0);
    Fits(146097 * 18);
    Fits(146097 * 19);
    Fits(1461 * 99);
    Fits(2415080);
  }

  lemma CenturyStep(c: int)
    requires c >= 0
    ensures 146097 * (c + 1) / 4 - 146097 * c / 4 == if c % 4 == 3 then 36525 else 36524
  {
    var q, r := c / 4, c % 4;
    Remainder(146097 * c, 4, 146097 * q + 36524 * r, r);
    if r == 3 {
      Remainder(146097 * (c + 1), 4, 146097 * (q + 1), 0);
    } else {
      Remainder(146097 * (c + 1), 4, 146097 * q + 36524 * (r + 1), r + 1);
    }
  }

  lemma YearStep(ya: int)
    requires 0 <= ya < 99
    ensures 1461 * (ya + 1) / 4 - 1461 * ya / 4 == if ya % 4 == 3 then 366 else 365
  {
    var q, r := ya / 4, ya % 4;
    Remainder(1461 * ya, 4, 1461 * q + 365 * r, r);
    if r == 3 {
      Remainder(1461 * (ya + 1), 4, 1461 * (q + 1), 0);
    } else {
      Remainder(1461 * (ya + 1), 4, 1461 * q + 365 * (r + 1), r + 1);
    }
  }

  /** Which years are leap years, by century and year. */
  lemma LeapStep(c: int, ya: int)
    requires c >= 0 && 0 <= ya <= 99
    ensures IsLeapYear(100 * c + ya + 1) <==> ya % 4 == 3 && (ya == 99 ==> c % 4 == 3)
  {
    var y := 100 * c + ya + 1;
    if ya == 99 {
      var q, r := c / 4, c % 4;
      Remainder(y, 100, c + 1, 0);
      Remainder(y, 4, 25 * (c + 1), 0);
      if r == 3 {
        Remainder(y, 400, q + 1, 0);
      } else {
        Remainder(y, 400, q, 100 * (r + 1));
      }
    } else {
      LeapInCentury(c, ya);
    }
  }

  lemma LeapInCentury(c: int, ya: int)
    requires c >= 0 && 0 <= ya < 99
    ensures IsLeapYear(100 * c + ya + 1) <==> ya % 4 == 3
  {
    var y := 100 * c + ya + 1;
    var q, r := ya / 4, ya % 4;
    Remainder(y, 100, c, ya + 1);
    Remainder(y, 400, c / 4, 100 * (c % 4) + ya + 1);
    if r == 3 {
      Remainder(y, 4, 25 * c + q + 1, 0);
    } else {
      Remainder(y, 4, 25 * c + q, r + 1);
    }
  }

  lemma YearLength(y: int)
    requires y >= 0
    ensures DaysBefore(y + 1) == DaysBefore(y) + if IsLeapYear(y + 1) then 366 else 365
  {
    hide IsLeapYear;
    var c, ya := y / 100, y % 100;
    LeapStep(c, ya);
    if ya == 99 {
      assert (y + 1) / 100 == c + 1 && (y + 1) % 100 == 0;
      CenturyStep(c);
    } else {
      assert (y + 1) / 100 == c && (y + 1) % 100 == ya + 1;
      YearStep(ya);
    }
  }

  lemma {:induction false} LaterYear(y: int, z: int)
    requires 0 <= y < z
    ensures DaysBefore(z) >= DaysBefore(y) + if IsLeapYear(y + 1) then 366 else 365
    decreases z - y
  {
    hide IsLeapYear, DaysBefore;
    YearLength(z - 1);
    if y < z - 1 {
      LaterYear(y, z - 1);
    }
  }

  /** Day numbers grow by one per calendar day. */
  lemma NextDayNumber(t: Date)
    requires Gregorian(t) && t.year >= 1
    ensures DayNumber(NextDay(t)) == DayNumber(t) + 1
  {
    hide IsLeapYear, DaysBefore;
    YearLength(MarchYear(t));
  }

  /** Day numbers follow the order of dates. */
  lemma OrderOfDays(a: Date, b: Date)
    requires Gregorian(a) && Gregorian(b) && a.year >= 1 && b.year >= 1
    ensures Earlier(a, b) <==> DayNumber(a) < DayNumber(b)
    ensures a == b <==> DayNumber(a) == DayNumber(b)
  {
    EarlierIsLess(a, b);
    EarlierIsLess(b, a);
  }

  lemma EarlierIsLess(a: Date, b: Date)
    requires Gregorian(a) && Gregorian(b) && a.year >= 1 && b.year >= 1
    ensures Earlier(a, b) ==> DayNumber(a) < DayNumber(b)
  {
    hide IsLeapYear, DaysBefore;
    if Earlier(a, b) {
      DayOfYearBounds(a);
      DayOfYearBounds(b);
      if MarchYear(a) < MarchYear(b) {
        LaterYear(MarchYear(a), MarchYear(b));
      }
    }
  }

  // ------------------------------------------------------------------ the date class

  /** The program's own test of a date. */
  predicate IsValidDate(year: int, month: int, day: int) {
    if month < 1 || month > 12 then false
    else
      var plain := [31, 28, 31, 30, 31, 30, 31, 31, 30, 31, 30, 31][month - 1];
      if month == 2 && (plain + (if IsLeapYear(year) then 1 else 0) < day || day < 1) then false
      else if plain < day || day < 1 then false
      else true
  }

  /** It accepts the dates of the calendar except 29 February, which it refuses in every year. */
  lemma ValidDateRefusesLeapDay(t: Date)
    ensures IsValidDate(t.year, t.month, t.day) <==> Gregorian(t) && !(t.month == 2 && t.day == 29)
  {
    if 1 <= t.month <= 12 {
      var plain := [31, 28, 31, 30, 31, 30, 31, 31, 30, 31, 30, 31][t.month - 1];
      assert t.month != 2 ==> plain == DaysIn(t.month, t.year);
    }
  }

  class DateObject {
    var day: int
    var month: int
    var year: int
    var julianDate: int

    /** Day, month and year are what the program finds for the stored Julian day. */
    ghost predicate Synced()
      reads this
    {
      Date(day, month, year) == Jd2Gc(julianDate)
    }

    /** The fields are those of the calendar day with the stored Julian day number. */
    ghost predicate Valid()
      reads this
    {
      FIRST_DAY <= julianDate <= LAST_DAY && Synced()
    }

    constructor (jd: int)
      ensures Synced() && julianDate == jd
      ensures Valid() <==> FIRST_DAY <= jd <= LAST_DAY
    {
      var t := Jd2Gc(jd);
      julianDate, day, month, year := jd, t.day, t.month, t.year;
    }

    method SyncJulianDate(jd: int)
      modifies this
      ensures Synced() && julianDate == jd
      ensures FIRST_DAY <= jd <= LAST_DAY ==>
                Gregorian(Date(day, month, year)) && DayNumber(Date(day, month, year)) == jd
    {
      hide Jd2Gc, Gc2Jd, IsLeapYear, DaysBefore;
      julianDate := jd;
      var t := Jd2Gc(jd);
      day, month, year := t.day, t.month, t.year;
      if FIRST_DAY <= jd <= LAST_DAY { DayRoundTrip(jd); }
    }

    /**
      Sets day, month and year, unless the program takes them for an invalid date.
      From year 0 up to the last year the Julian day leads back to them if and only
      if the year is at least 100.
    */
    method SyncDate(t: Date) returns (accepted: bool)
      modifies this
      ensures accepted <==> Gregorian(t) && !(t.month == 2 && t.day == 29)
      ensures accepted ==> Date(day, month, year) == t && julianDate == Gc2Jd(t.day, t.month, t.year)
      ensures accepted && 0 <= t.year && MarchYear(t) <= LAST_MARCH_YEAR ==> (Synced() <==> t.year >= 100)
      ensures accepted && InRange(t) ==> Valid() && julianDate == DayNumber(t)
      ensures !accepted ==> unchanged(this)
    {
      hide Gc2Jd, Jd2Gc, IsValidDate, IsLeapYear, DaysBefore;
      ValidDateRefusesLeapDay(t);
      accepted := IsValidDate(t.year, t.month, t.day);
      if accepted {
        day, month, year := t.day, t.month, t.year;
        julianDate := Gc2Jd(day, month, year);
        if 0 <= t.year && MarchYear(t) <= LAST_MARCH_YEAR { RoundTripNeedsYear100(t); }
        if InRange(t) {
          Gc2JdExact(t);
          DayInRange(t);
        }
      }
    }

    method AddDays(days: int)
      modifies this
      ensures Synced() && julianDate == old(julianDate) + days
    {
      SyncJulianDate(julianDate + days);
    }

    method SubtractDays(days: int)
      modifies this
      ensures Synced() && julianDate == old(julianDate) - days
    {
      SyncJulianDate(julianDate - days);
    }

    /** Adding days and subtracting them gives back day, month and year if and only if they were those of the Julian day. */
    method AddAndSubtract(days: int)
      modifies this
      ensures julianDate == old(julianDate)
      ensures (day == old(day) && month == old(month) && year == old(year)) <==> old(Synced())
    {
      hide Jd2Gc;
      AddDays(days);
      SubtractDays(days);
    }

    /** Comparing the stored day numbers compares the dates. */
    method Less(that: DateObject) returns (b: bool)
      requires Valid() && that.Valid()
      ensures b <==> Earlier(Date(day, month, year), Date(that.day, that.month, that.year))
    {
      hide Gc2Jd, Jd2Gc, IsLeapYear, DaysBefore, DayNumber;
      DayRoundTrip(julianDate);
      DayRoundTrip(that.julianDate);
      OrderOfDays(Date(day, month, year), Date(that.day, that.month, that.year));
      b := julianDate < that.julianDate;
    }
  }

  /** The days the count is known by: the epochs of Julian days in use, and a leap day of a century. */
  lemma KnownDays()
    ensures DayNumber(Date(1, 1, 2000)) == 2451545 && DayNumber(Date(1, 1, 1970)) == 2440588
    ensures DayNumber(Date(17, 11, 1858)) == 2400001 && DayNumber(Date(15, 10, 1582)) == 2299161
    ensures Gregorian(Date(29, 2, 2000)) && !Gregorian(Date(29, 2, 1900))
  {
    hide DayNumber, Gregorian;
    DayFrom(Date(1, 1, 2000), 19, 99);
    DayFrom(Date(1, 1, 1970), 19, 69);
    DayFrom(Date(17, 11, 1858), 18, 58);
    DayFrom(Date(15, 10, 1582), 15, 82);
    LeapDays();
  }

  lemma LeapDays()
    ensures Gregorian(Date(29, 2, 2000)) && !Gregorian(Date(29, 2, 1900))
  {
  }

  lemma DayFrom(t: Date, c: int, y: int)
    requires 0 <= y < 100 && MarchYear(t) == 100 * c + y
    ensures DayNumber(t) == 1721119 + 146097 * c / 4 + 1461 * y / 4 + (153 * MarchMonth(t) + 2) / 5 + t.day
  {
    hide DaysBefore;
    Before(c, y);
  }

  lemma Before(c: int, y: int)
    requires 0 <= y < 100
    ensures DaysBefore(100 * c + y) == 146097 * c / 4 + 1461 * y / 4
  {
    assert (100 * c + y) / 100 == c && (100 * c + y) % 100 == y;
  }

  lemma LastYearIsLeap()
    ensures IsLeapYear(1470000)
  {
  }

  const FIRST: Date := Date(1, 1, 100)
  const LAST: Date := Date(29, 2, 1470000)

  lemma BordersOfRange()
    ensures DayNumber(FIRST) == FIRST_DAY && DayNumber(LAST) == LAST_DAY
    ensures Gregorian(FIRST) && Gregorian(LAST)
  {
    LastYearIsLeap();
    assert DaysBefore(99) == 36159;
    assert DaysBefore(1469999) == 536906109;
  }

  lemma BetweenBorders(t: Date)
    requires Gregorian(t) && InRange(t)
    ensures (t == FIRST || Earlier(FIRST, t)) && (t == LAST || Earlier(t, LAST))
  {
    hide IsLeapYear;
  }

  lemma DayInRange(t: Date)
    requires Gregorian(t) && InRange(t)
    ensures FIRST_DAY <= DayNumber(t) <= LAST_DAY
  {
    hide DayNumber, Gregorian, Earlier;
    BordersOfRange();
    BetweenBorders(t);
    EarlierIsLess(FIRST, t);
    EarlierIsLess(t, LAST);
  }
}
