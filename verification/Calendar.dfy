/** The Gregorian calendar in UTC, days being counted from 1 January of year 1, a Monday. */
module Calendar {

  datatype Date = Date(year: nat, month: nat, day: nat)

  predicate IsLeap(y: nat) {
    y % 4 == 0 && (y % 100 != 0 || y % 400 == 0)
  }

  function YearLength(y: nat): nat {
    if IsLeap(y) then 366 else 365
  }

  function MonthLength(y: nat, m: nat): nat {
    if m == 2 then (if IsLeap(y) then 29 else 28)
    else if m == 4 || m == 6 || m == 9 || m == 11 then 30
    else 31
  }

  /** The first day of a year. */
  function YearStart(y: nat): nat
    requires y >= 1
  {
    if y == 1 then 0 else YearStart(y - 1) + YearLength(y - 1)
  }

  /** The days of a year before a month. */
  function MonthStart(y: nat, m: nat): nat
    requires m >= 1
  {
    if m == 1 then 0 else MonthStart(y, m - 1) + MonthLength(y, m - 1)
  }

  predicate IsDate(d: Date) {
    d.year >= 1 && 1 <= d.month <= 12 && 1 <= d.day <= MonthLength(d.year, d.month)
  }

  function DayNumber(d: Date): nat
    requires IsDate(d)
  {
    YearStart(d.year) + MonthStart(d.year, d.month) + (d.day - 1)
  }

  function YearFrom(day: nat, y: nat): (r: nat)
    requires y >= 1 && YearStart(y) <= day
    ensures r >= y && YearStart(r) <= day < YearStart(r + 1)
    decreases day - YearStart(y)
  {
    if day < YearStart(y + 1) then y else YearFrom(day, y + 1)
  }

  function MonthFrom(y: nat, left: nat, m: nat): (r: nat)
    requires 1 <= m <= 12 && MonthStart(y, m) <= left
    ensures m <= r <= 12 && MonthStart(y, r) <= left && (r < 12 ==> left < MonthStart(y, r + 1))
    decreases 12 - m
  {
    if m == 12 || left < MonthStart(y, m + 1) then m else MonthFrom(y, left, m + 1)
  }

  function DateOf(day: nat): (d: Date)
    ensures IsDate(d) && DayNumber(d) == day
  {
    var y := YearFrom(day, 1);
    var left := day - YearStart(y);
    var m := MonthFrom(y, left, 1);
    MonthsFillYear(y);
    Date(y, m, left - MonthStart(y, m) + 1)
  }

  function Weekday(day: nat): (w: nat)
    ensures w < 7
  {
    (day + 1) % 7
  }

  lemma MonthsFillYear(y: nat)
    ensures MonthStart(y, 12) + 31 == YearLength(y)
  {
    assert MonthStart(y, 3) == MonthStart(y, 1) + 31 + MonthLength(y, 2);
    assert MonthStart(y, 5) == MonthStart(y, 3) + 61;
    assert MonthStart(y, 7) == MonthStart(y, 5) + 61;
    assert MonthStart(y, 9) == MonthStart(y, 7) + 62;
    assert MonthStart(y, 11) == MonthStart(y, 9) + 61;
  }

  lemma {:induction false} YearsInOrder(y: nat, z: nat)
    requires 1 <= y <= z
    ensures YearStart(y) + 365 * (z - y) <= YearStart(z)
  {
    if y < z { YearsInOrder(y, z - 1); }
  }

  lemma {:induction false} MonthsInOrder(y: nat, m: nat, n: nat)
    requires 1 <= m <= n
    ensures MonthStart(y, m) + 28 * (n - m) <= MonthStart(y, n)
    decreases n
  {
    if m < n { MonthsInOrder(y, m, n - 1); }
  }

  /** A date's day lies in its year. */
  lemma DayInYear(d: Date)
    requires IsDate(d)
    ensures YearStart(d.year) <= DayNumber(d) < YearStart(d.year + 1)
  {
    MonthsFillYear(d.year);
    if d.month < 12 { MonthsInOrder(d.year, d.month + 1, 12); }
  }

  lemma SameYear(d: Date, e: Date)
    requires IsDate(d) && IsDate(e) && DayNumber(d) == DayNumber(e)
    ensures d.year == e.year
  {
    hide DayNumber, IsDate;
    DayInYear(d);
    DayInYear(e);
    if d.year < e.year { YearsInOrder(d.year + 1, e.year); }
    if e.year < d.year { YearsInOrder(e.year + 1, d.year); }
  }

  lemma MonthIsLater(y: nat, m: nat, n: nat)
    requires 1 <= m < n
    ensures MonthStart(y, m) + MonthLength(y, m) <= MonthStart(y, n)
  {
    MonthsInOrder(y, m + 1, n);
  }

  /** Days and dates correspond one to one. */
  lemma DateOfDayNumber(d: Date)
    requires IsDate(d)
    ensures DateOf(DayNumber(d)) == d
  {
    hide DateOf, YearStart, MonthStart, MonthLength;
    var e := DateOf(DayNumber(d));
    SameYear(d, e);
    if d.month < e.month { MonthIsLater(d.year, d.month, e.month); }
    if e.month < d.month { MonthIsLater(d.year, e.month, d.month); }
  }

  // ---- Days in closed form ----

  function LeapYearsBefore(y: nat): int {
    (y - 1) / 4 - (y - 1) / 100 + (y - 1) / 400
  }

  lemma OneMoreLeapYear(y: nat)
    requires y >= 1
    ensures LeapYearsBefore(y + 1) == LeapYearsBefore(y) + if IsLeap(y) then 1 else 0
  {
    NextQuotient(y, 4);
    NextQuotient(y, 100);
    NextQuotient(y, 400);
    Centuries(y);
  }

  lemma Centuries(y: nat)
    ensures (y % 400 == 0 ==> y % 100 == 0) && (y % 100 == 0 ==> y % 4 == 0)
  {
    if y % 400 == 0 { Multiple(y / 400, 4, 100); }
    if y % 100 == 0 { Multiple(y / 100, 25, 4); }
  }

  lemma Multiple(q: nat, a: nat, b: nat)
    requires (a == 4 && b == 100) || (a == 25 && b == 4)
    ensures q * a * b % b == 0
  {
  }

  lemma NextQuotient(n: nat, d: nat)
    requires n >= 1 && (d == 4 || d == 100 || d == 400)
    ensures n / d == (n - 1) / d + if n % d == 0 then 1 else 0
  {
  }

  lemma {:induction false} YearStartIs(y: nat)
    requires y >= 1
    ensures YearStart(y) == 365 * (y - 1) + LeapYearsBefore(y)
  {
    hide LeapYearsBefore, IsLeap;
    if y > 1 {
      YearStartIs(y - 1);
      OneMoreLeapYear(y - 1);
    } else {
      assert LeapYearsBefore(1) == 0 by { NoneBeforeFirst(); }
    }
  }

  lemma NoneBeforeFirst()
    ensures LeapYearsBefore(1) == 0
  {
  }

  lemma MonthStartIs(y: nat, m: nat)
    requires 1 <= m <= 12
    ensures MonthStart(y, m) ==
            if m <= 2 then 31 * (m - 1) else (153 * (m - 3) + 2) / 5 + 59 + if IsLeap(y) then 1 else 0
  {
    if m > 2 {
      assert MonthStart(y, 3) == MonthStart(y, 1) + 31 + MonthLength(y, 2);
      assert MonthStart(y, 5) == MonthStart(y, 3) + 61;
      assert MonthStart(y, 7) == MonthStart(y, 5) + 61;
      assert MonthStart(y, 9) == MonthStart(y, 7) + 62;
      assert MonthStart(y, 11) == MonthStart(y, 9) + 61;
    }
  }

  /** The number of a date's day: 365 for each earlier year and one more for each leap year, and within
      the year months of 153 days in five, counted from March. */
  lemma DayNumberIs(d: Date)
    requires IsDate(d)
    ensures var y, m := d.year - 1, d.month;
            DayNumber(d) == 365 * y + y / 4 - y / 100 + y / 400 + (d.day - 1) +
                            if m <= 2 then 31 * (m - 1)
                            else (153 * (m - 3) + 2) / 5 + 59 + if IsLeap(d.year) then 1 else 0
  {
    YearStartIs(d.year);
    MonthStartIs(d.year, d.month);
  }

  /** 1 January 1970 was a Thursday, and weekdays follow one another. */
  lemma WeekdayIs(day: nat)
    ensures DateOf(day).year == 1970 && DateOf(day).month == 1 && DateOf(day).day == 1 ==> Weekday(day) == 4
    ensures Weekday(day + 1) == if Weekday(day) == 6 then 0 else Weekday(day) + 1
  {
    hide DateOf, DayNumber, IsLeap;
    DayNumberIs(DateOf(day));
  }
}
