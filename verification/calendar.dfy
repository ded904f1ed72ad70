/**
 The proleptic Gregorian calendar in UTC, over day numbers counted from 1 January 1970, as
 section 21.4.1 of ECMA-262 defines it for `Date`.
 */
module Calendar {
  import Arith

  predicate Leap(y: int) {
    y % 4 == 0 && (y % 100 != 0 || y % 400 == 0)
  }

  /** A year that the four-year rule would make leap and the century rule does not. */
  predicate SkippedLeap(y: int) {
    y % 100 == 0 && y % 400 != 0
  }

  function DaysInYear(y: int): int {
    if Leap(y) then 366 else 365
  }

  /** Day number of 1 January of year `y`: the days of the years since 1970, or before it. */
  function DayFromYear(y: int): int
    decreases if y < 1970 then 1970 - y else y - 1970
  {
    if y == 1970 then 0
    else if y > 1970 then DayFromYear(y - 1) + DaysInYear(y - 1)
    else DayFromYear(y + 1) - DaysInYear(y)
  }

  lemma {:induction false} YearLength(y: int)
    ensures DayFromYear(y + 1) == DayFromYear(y) + DaysInYear(y)
  {
  }

  function DayFromYearFormula(y: int): int {
    365 * (y - 1970) + (y - 1969) / 4 - (y - 1901) / 100 + (y - 1601) / 400
  }

  /** The formula of the standard counts the same days. */
  lemma {:induction false} DayFromYearIs(y: int)
    ensures DayFromYear(y) == DayFromYearFormula(y)
    decreases if y < 1970 then 1970 - y else y - 1970
  {
    if y > 1970 {
      DayFromYearIs(y - 1);
      FormulaStep(y - 1);
    } else if y < 1970 {
      DayFromYearIs(y + 1);
      FormulaStep(y);
    }
  }

  lemma {:induction false} FormulaStep(y: int)
    ensures DayFromYearFormula(y + 1) == DayFromYearFormula(y) + DaysInYear(y)
  {
    CountMultiples(y, 4, 492);
    CountMultiples(y, 100, 19);
    CountMultiples(y, 400, 4);
    CenturiesAreByFour(y);
  }

  /** One more multiple of `d` is counted exactly at a multiple of `d`. */
  lemma {:induction false} CountMultiples(y: int, d: int, k: int)
    requires d > 0
    ensures (y - d * k) / d == (y - d * k - 1) / d + (if y % d == 0 then 1 else 0)
  {
    var before := y - d * k - 1;
    var q, r := before / d, before % d;
    assert before == d * q + r;
    if r == d - 1 {
      assert d * (q + 1) == d * q + d && d * (q + 1 + k) == d * q + d + d * k;
      Arith.DivModUnique(y - d * k, d, q + 1, 0);
      Arith.DivModUnique(y, d, q + 1 + k, 0);
    } else {
      assert d * (q + k) == d * q + d * k;
      Arith.DivModUnique(y - d * k, d, q, r + 1);
      Arith.DivModUnique(y, d, q + k, r + 1);
    }
  }

  lemma {:induction false} CenturiesAreByFour(y: int)
    ensures y % 400 == 0 ==> y % 100 == 0
    ensures y % 100 == 0 ==> y % 4 == 0
  {
    if y % 400 == 0 {
      Arith.DivModUnique(y, 100, 4 * (y / 400), 0);
    }
    if y % 100 == 0 {
      Arith.DivModUnique(y, 4, 25 * (y / 100), 0);
    }
  }

  /** The year that day `n` is in, searched from a guess. */
  function YearFrom(n: int, guess: int): (y: int)
    ensures DayFromYear(y) <= n < DayFromYear(y + 1)
    decreases if n < DayFromYear(guess) then DayFromYear(guess) - n
              else if n >= DayFromYear(guess + 1) then n - DayFromYear(guess + 1) + 1
              else 0
  {
    YearLength(guess);
    YearLength(guess - 1);
    YearLength(guess + 1);
    if n < DayFromYear(guess) then YearFrom(n, guess - 1)
    else if n >= DayFromYear(guess + 1) then YearFrom(n, guess + 1)
    else guess
  }

  function YearOf(n: int): (y: int)
    ensures DayFromYear(y) <= n < DayFromYear(y + 1)
  {
    YearFrom(n, 1970)
  }

  lemma {:induction false} YearsGrow(y: int, z: int)
    requires y <= z
    ensures DayFromYear(y) + 365 * (z - y) <= DayFromYear(z)
    decreases z - y
  {
    if y < z {
      YearLength(y);
      YearsGrow(y + 1, z);
    }
  }

  lemma YearOfIs(n: int, y: int)
    requires DayFromYear(y) <= n < DayFromYear(y + 1)
    ensures YearOf(n) == y
  {
    if YearOf(n) < y {
      YearsGrow(YearOf(n) + 1, y);
    } else if y < YearOf(n) {
      YearsGrow(y + 1, YearOf(n));
    }
  }

  /** Days of the year before month `m`, for 1 <= m <= 13. */
  function MonthStart(m: int, leap: bool): int {
    var extra := if leap && m > 2 then 1 else 0;
    extra +
    if m <= 1 then 0 else if m == 2 then 31 else if m == 3 then 59 else if m == 4 then 90
    else if m == 5 then 120 else if m == 6 then 151 else if m == 7 then 181
    else if m == 8 then 212 else if m == 9 then 243 else if m == 10 then 273
    else if m == 11 then 304 else if m == 12 then 334 else 365
  }

  function DaysInMonth(m: int, leap: bool): int {
    MonthStart(m + 1, leap) - MonthStart(m, leap)
  }

  /** Thirty days have the fourth, sixth, ninth and eleventh month; February has 28, or 29 in a leap year. */
  lemma {:induction false} MonthLengthsAre(m: int, leap: bool)
    requires 1 <= m <= 12
    ensures DaysInMonth(m, leap)
         == if m in {4, 6, 9, 11} then 30 else if m != 2 then 31 else if leap then 29 else 28
  {
  }

  function MonthAt(dayInYear: int, leap: bool): (m: int)
    requires 0 <= dayInYear < MonthStart(13, leap)
    ensures 1 <= m <= 12
    ensures MonthStart(m, leap) <= dayInYear < MonthStart(m + 1, leap)
  {
    if dayInYear < MonthStart(2, leap) then 1 else if dayInYear < MonthStart(3, leap) then 2
    else if dayInYear < MonthStart(4, leap) then 3 else if dayInYear < MonthStart(5, leap) then 4
    else if dayInYear < MonthStart(6, leap) then 5 else if dayInYear < MonthStart(7, leap) then 6
    else if dayInYear < MonthStart(8, leap) then 7 else if dayInYear < MonthStart(9, leap) then 8
    else if dayInYear < MonthStart(10, leap) then 9 else if dayInYear < MonthStart(11, leap) then 10
    else if dayInYear < MonthStart(12, leap) then 11 else 12
  }

  /** `getUTCMonth() + 1` of day `n`. */
  function Month(n: int): (m: int)
    ensures 1 <= m <= 12
  {
    YearLength(YearOf(n));
    MonthAt(n - DayFromYear(YearOf(n)), Leap(YearOf(n)))
  }

  /** `getUTCDate()` of day `n`. */
  function DayOfMonth(n: int): (d: int)
    ensures 1 <= d <= DaysInMonth(Month(n), Leap(YearOf(n))) <= 31
  {
    YearLength(YearOf(n));
    n - DayFromYear(YearOf(n)) - MonthStart(Month(n), Leap(YearOf(n))) + 1
  }

  /** `getUTCDay()` of day `n`, 0 for Sunday. */
  function Weekday(n: int): (w: int)
    ensures 0 <= w <= 6
  {
    (n + 4) % 7
  }

  /** 1 January 1970 was a Thursday, and from one day to the next the weekday advances by one. */
  lemma {:induction false} WeekdaysFollow(n: int)
    ensures Weekday(DayNumber(1970, 1, 1)) == 4
    ensures Weekday(n + 1) == if Weekday(n) == 6 then 0 else Weekday(n) + 1
  {
  }

  function DayNumber(y: int, m: int, d: int): int {
    DayFromYear(y) + MonthStart(m, Leap(y)) + d - 1
  }

  predicate ValidDate(y: int, m: int, d: int) {
    1 <= m <= 12 && 1 <= d <= DaysInMonth(m, Leap(y))
  }

  /** Day numbers and dates are in one-to-one correspondence. */
  lemma DateOfDayNumber(y: int, m: int, d: int)
    requires ValidDate(y, m, d)
    ensures var n := DayNumber(y, m, d); YearOf(n) == y && Month(n) == m && DayOfMonth(n) == d
  {
    YearLength(y);
    YearOfIs(DayNumber(y, m, d), y);
  }

  lemma DayNumberOfDate(n: int)
    ensures ValidDate(YearOf(n), Month(n), DayOfMonth(n))
    ensures DayNumber(YearOf(n), Month(n), DayOfMonth(n)) == n
  {
  }

  /** Every date that exists in common years falls in any stretch of 366 days. */
  lemma DateWithinAYear(n0: int, m: int, d: int) returns (n: int)
    requires 1 <= m <= 12 && 1 <= d <= DaysInMonth(m, false)
    ensures n0 < n <= n0 + 366 && Month(n) == m && DayOfMonth(n) == d
  {
    var y := YearOf(n0);
    YearLength(y);
    YearLength(y + 1);
    DateOfDayNumber(y, m, d);
    DateOfDayNumber(y + 1, m, d);
    n := if DayNumber(y, m, d) > n0 then DayNumber(y, m, d) else DayNumber(y + 1, m, d);
  }

  /** Every weekday falls in every month, so it does in any 372 days. */
  lemma WeekdayInMonthWithinAYear(n0: int, m: int, w: int) returns (n: int)
    requires 1 <= m <= 12 && 0 <= w <= 6
    ensures n0 < n <= n0 + 372 && Month(n) == m && Weekday(n) == w
  {
    var first := DateWithinAYear(n0, m, 1);
    var shift := ShiftToWeekday(first, w);
    n := first + shift;
    LaterInMonth(first, shift);
  }

  lemma {:induction false} LaterInMonth(first: int, shift: int)
    requires DayOfMonth(first) == 1 && 0 <= shift < 28
    ensures Month(first + shift) == Month(first)
  {
    var y, m := YearOf(first), Month(first);
    DayNumberOfDate(first);
    assert DayNumber(y, m, 1 + shift) == first + shift;
    assert ValidDate(y, m, 1 + shift) by { MonthLengthsAre(m, Leap(y)); }
    DateOfDayNumber(y, m, 1 + shift);
  }

  lemma ShiftToWeekday(n: int, w: int) returns (shift: int)
    requires 0 <= w <= 6
    ensures 0 <= shift <= 6 && Weekday(n + shift) == w
  {
    var q, r := (n + 4) / 7, (n + 4) % 7;
    shift := if w >= r then w - r else w - r + 7;
    assert n + shift + 4 == 7 * (if w >= r then q else q + 1) + w;
  }

  predicate LeapDay(n: int) {
    Month(n) == 2 && DayOfMonth(n) == 29
  }

  /** Without a skipped leap year in the way, 29 February comes round within 1461 days. */
  lemma LeapDayWithinFourYears(n0: int) returns (n: int)
    requires forall y :: YearOf(n0) <= y <= YearOf(n0) + 4 ==> !SkippedLeap(y)
    ensures n0 < n <= n0 + 1461 && LeapDay(n)
  {
    var y := YearOf(n0);
    var leap := LeapYearInFour(y);
    FourYears(y);
    n := LeapDayOf(leap);
    if leap > y {
      YearsGrow(y + 1, leap);
    } else if n <= n0 {
      n := LeapDayOf(y + 4);
    }
  }

  lemma LeapDayOf(leap: int) returns (n: int)
    requires Leap(leap)
    ensures n == DayFromYear(leap) + 59 && LeapDay(n)
  {
    n := DayNumber(leap, 2, 29);
    DateOfDayNumber(leap, 2, 29);
  }

  predicate ByFour(y: int) {
    y % 4 == 0
  }

  lemma LeapByFour(y: int)
    ensures Leap(y) ==> ByFour(y)
    ensures !SkippedLeap(y) && ByFour(y) ==> Leap(y)
    ensures 365 <= DaysInYear(y) <= if ByFour(y) then 366 else 365
  {
  }

  /** Exactly one of any four years is a multiple of four. */
  lemma MultipleOfFour(y: int) returns (k: int)
    ensures 0 <= k <= 3 && ByFour(y + k)
    ensures (k == 0 <==> ByFour(y)) && (k == 1 <==> ByFour(y + 1)) && (k == 2 <==> ByFour(y + 2)) && (k == 3 <==> ByFour(y + 3))
    ensures k == 0 ==> ByFour(y + 4)
  {
    var q, r := y / 4, y % 4;
    assert y == 4 * q + r;
    k := if r == 0 then 0 else 4 - r;
  }

  lemma LeapYearInFour(y: int) returns (leap: int)
    requires forall z :: y <= z <= y + 4 ==> !SkippedLeap(z)
    ensures y <= leap <= y + 3 && Leap(leap)
    ensures leap == y ==> Leap(y + 4)
  {
    var k := MultipleOfFour(y);
    leap := y + k;
    assert !SkippedLeap(leap) && !SkippedLeap(y + 4);
    LeapByFour(leap);
    LeapByFour(y + 4);
  }

  lemma AtMostOneLeapInFour(y: int)
    ensures DaysInYear(y) + DaysInYear(y + 1) + DaysInYear(y + 2) + DaysInYear(y + 3) <= 1461
  {
    var k := MultipleOfFour(y);
    var a := DaysInYear(y);
    assert a <= if k == 0 then 366 else 365 by { LeapByFour(y); }
    var b := DaysInYear(y + 1);
    assert b <= if k == 1 then 366 else 365 by { LeapByFour(y + 1); }
    var c := DaysInYear(y + 2);
    assert c <= if k == 2 then 366 else 365 by { LeapByFour(y + 2); }
    var d := DaysInYear(y + 3);
    assert d <= if k == 3 then 366 else 365 by { LeapByFour(y + 3); }
  }

  lemma FourYearLengths(y: int)
    requires forall z :: y <= z <= y + 4 ==> !SkippedLeap(z)
    ensures DaysInYear(y) + DaysInYear(y + 1) + DaysInYear(y + 2) + DaysInYear(y + 3) == 1461
  {
    var leap := LeapYearInFour(y);
    assert DaysInYear(leap) == 366;
    AtMostOneLeapInFour(y);
    LeapByFour(y);
    LeapByFour(y + 1);
    LeapByFour(y + 2);
    LeapByFour(y + 3);
  }

  lemma FourLengths(y: int)
    ensures DayFromYear(y + 1) == DayFromYear(y) + DaysInYear(y)
    ensures DayFromYear(y + 2) == DayFromYear(y) + DaysInYear(y) + DaysInYear(y + 1)
    ensures DayFromYear(y + 3) == DayFromYear(y) + DaysInYear(y) + DaysInYear(y + 1) + DaysInYear(y + 2)
    ensures DayFromYear(y + 4) == DayFromYear(y) + DaysInYear(y) + DaysInYear(y + 1) + DaysInYear(y + 2) + DaysInYear(y + 3)
  {
    var a, b, c, d, e := DayFromYear(y), DayFromYear(y + 1), DayFromYear(y + 2), DayFromYear(y + 3), DayFromYear(y + 4);
    assert b == a + DaysInYear(y) by { YearLength(y); }
    assert c == b + DaysInYear(y + 1) by { YearLength(y + 1); }
    assert d == c + DaysInYear(y + 2) by { YearLength(y + 2); }
    assert e == d + DaysInYear(y + 3) by { YearLength(y + 3); }
  }

  lemma FourYears(y: int)
    requires forall z :: y <= z <= y + 4 ==> !SkippedLeap(z)
    ensures DayFromYear(y + 1) <= DayFromYear(y) + 366
    ensures DayFromYear(y + 2) <= DayFromYear(y) + 731
    ensures DayFromYear(y + 3) <= DayFromYear(y) + 1096
    ensures DayFromYear(y + 4) == DayFromYear(y) + 1461
  {
    FourLengths(y);
    LeapByFour(y);
    LeapByFour(y + 1);
    LeapByFour(y + 2);
    AtMostOneLeapInFour(y);
    AtMostOneLeapInFour(y - 1);
    FourYearLengths(y);
  }

  lemma AtMostFourYears(y: int)
    ensures DayFromYear(y + 4) <= DayFromYear(y) + 1461
  {
    FourLengths(y);
    AtMostOneLeapInFour(y);
  }
}
