/** Five-field cron expressions: when they match, and the search for the next time they do. */
module Cron {
  import opened Calendar

  // Times are nanoseconds since the start of year 1, UTC.
  const MINUTE := 60_000_000_000
  const DAY := 24 * 60 * MINUTE
  const WINDOW := 5 * 365 * DAY

  /** One element of a field's list: "*", "* / N", or "N-M / S", a single N being N-N / 1. */
  datatype Atom = Any | Every(step: int) | Range(lo: int, hi: int, step: int)

  type Field = seq<Atom>

  datatype Expr = Expr(minute: Field, hour: Field, dom: Field, month: Field, wday: Field)

  predicate AtomAccepts(a: Atom, v: int)
    requires a.Any? || a.step > 0
  {
    match a
    case Any => true
    case Every(step) => v % step == 0
    case Range(lo, hi, step) => lo <= v <= hi && (v - lo) % step == 0
  }

  /** What the atoms mean: every step-th value, counted from zero or from the start of the range. */
  lemma AtomValues(step: int, lo: int, hi: int, v: nat)
    requires step > 0
    ensures AtomAccepts(Any, v)
    ensures AtomAccepts(Every(step), v) <==> exists k :: v == k * step
    ensures AtomAccepts(Range(lo, hi, step), v) <==> exists k: nat :: v == lo + k * step && v <= hi
  {
    if AtomAccepts(Every(step), v) { assert v == v / step * step; }
    if k :| v == k * step { MultipleOf(v, step, k); }
    if AtomAccepts(Range(lo, hi, step), v) {
      var k := (v - lo) / step;
      assert v == lo + k * step && k >= 0;
    }
    if k: nat :| v == lo + k * step && v <= hi { MultipleOf(v - lo, step, k); }
  }

  lemma MultipleOf(v: int, step: int, k: int)
    requires step > 0 && v == k * step
    ensures v % step == 0 && (k >= 0 ==> v >= 0)
  {
    var rest := k - v / step;
    assert rest * step == v % step;
    if rest >= 1 {
      AtLeast(rest, step);
    } else if rest <= -1 {
      AtLeast(-rest, step);
    }
  }

  lemma AtLeast(k: int, step: int)
    requires k >= 1 && step > 0
    ensures k * step >= step
  {
  }

  /** What the parser lets through: positive steps, and ranges in order and within bounds. */
  predicate ValidAtom(a: Atom, min: int, max: int) {
    match a
    case Any => true
    case Every(step) => step > 0
    case Range(lo, hi, step) => step > 0 && min <= lo <= hi <= max
  }

  predicate ValidField(f: Field, min: int, max: int) {
    f != [] && forall i :: 0 <= i < |f| ==> ValidAtom(f[i], min, max)
  }

  predicate ValidExpr(c: Expr) {
    && ValidField(c.minute, 0, 59) && ValidField(c.hour, 0, 23) && ValidField(c.dom, 1, 31)
    && ValidField(c.month, 1, 12) && ValidField(c.wday, 0, 6)
  }

  predicate Accepts(f: Field, v: int) {
    exists i :: 0 <= i < |f| && (f[i].Any? || f[i].step > 0) && AtomAccepts(f[i], v)
  }

  predicate DateAccepted(c: Expr, day: nat) {
    var d := DateOf(day);
    Accepts(c.dom, d.day) && Accepts(c.month, d.month) && Accepts(c.wday, Weekday(day))
  }

  /** The expression matches the minute that the time t is in. */
  predicate Matches(c: Expr, t: nat) {
    && Accepts(c.minute, t / MINUTE % 60)
    && Accepts(c.hour, t / MINUTE / 60 % 24)
    && DateAccepted(c, t / DAY)
  }

  /** A whole minute strictly after t, in the window, that matches. */
  predicate Fires(c: Expr, t: nat, at: nat) {
    t < at < t + WINDOW && at % MINUTE == 0 && Matches(c, at)
  }

  /** The expression that names one minute, hour, day, month and weekday. */
  function Single(minute: nat, hour: nat, dom: nat, month: nat, wday: nat): Expr {
    var on := (n: int) => [Range(n, n, 1)];
    Expr(on(minute), on(hour), on(dom), on(month), on(wday))
  }

  /** It matches exactly the times that have these. */
  lemma SingleMatches(minute: nat, hour: nat, dom: nat, month: nat, wday: nat, t: nat)
    ensures Matches(Single(minute, hour, dom, month, wday), t) <==>
            && minute == t / MINUTE % 60 && hour == t / MINUTE / 60 % 24
            && dom == DateOf(t / DAY).day && month == DateOf(t / DAY).month && wday == Weekday(t / DAY)
  {
    hide DateOf;
    var d := DateOf(t / DAY);
    SingleAccepts(minute, t / MINUTE % 60);
    SingleAccepts(hour, t / MINUTE / 60 % 24);
    SingleAccepts(dom, d.day);
    SingleAccepts(month, d.month);
    SingleAccepts(wday, Weekday(t / DAY));
  }

  lemma SingleAccepts(n: nat, v: int)
    ensures Accepts([Range(n, n, 1)], v) <==> v == n
  {
    assert AtomAccepts([Range(n, n, 1)][0], v) <==> v == n;
  }

  /** The parser lets through exactly the values that times have: each time has a valid expression of its
      own, and each number in a valid one is the minute, hour, day, month or weekday of some time. */
  lemma SingleValid(minute: nat, hour: nat, dom: nat, month: nat, wday: nat)
    ensures ValidExpr(Single(minute, hour, dom, month, wday)) <==>
            && (exists t: nat :: minute == t / MINUTE % 60) && (exists t: nat :: hour == t / MINUTE / 60 % 24)
            && (exists d: nat :: dom == DateOf(d).day) && (exists d: nat :: month == DateOf(d).month)
            && (exists d: nat :: wday == Weekday(d))
  {
    hide DateOf, DayNumber;
    var c := Single(minute, hour, dom, month, wday);
    if ValidExpr(c) {
      assert ValidAtom(c.minute[0], 0, 59) && ValidAtom(c.hour[0], 0, 23) && ValidAtom(c.wday[0], 0, 6);
      assert ValidAtom(c.dom[0], 1, 31) && ValidAtom(c.month[0], 1, 12);
      TimeOnDay(0, hour, minute);
      DateOfDayNumber(Date(1, 1, dom));
      DateOfDayNumber(Date(1, month, 1));
      var day := DayWithWeekday(0, wday);
      assert hour == TimeOn(0, hour, minute) / MINUTE / 60 % 24 && minute == TimeOn(0, hour, minute) / MINUTE % 60;
      assert dom == DateOf(DayNumber(Date(1, 1, dom))).day;
      assert month == DateOf(DayNumber(Date(1, month, 1))).month;
    } else {
      if d: nat, e: nat :| dom == DateOf(d).day && month == DateOf(e).month {
        DaysOfMonth(DateOf(d));
        DaysOfMonth(DateOf(e));
      }
    }
  }

  method MatchField(f: Field, v: int) returns (r: bool)
    requires forall i :: 0 <= i < |f| ==> f[i].Any? || f[i].step > 0
    ensures r <==> Accepts(f, v)
  {
    for i := 0 to |f|
      invariant forall j :: 0 <= j < i ==> !AtomAccepts(f[j], v)
    {
      if AtomAccepts(f[i], v) { return true; }
    }
    return false;
  }

  method Match(c: Expr, t: nat) returns (r: bool)
    requires ValidExpr(c)
    ensures r <==> Matches(c, t)
  {
    hide Accepts, DateOf;
    var d := DateOf(t / DAY);
    r := MatchField(c.minute, t / MINUTE % 60);
    if r { r := MatchField(c.hour, t / MINUTE / 60 % 24); }
    if r { r := MatchField(c.dom, d.day); }
    if r { r := MatchField(c.month, d.month); }
    if r { r := MatchField(c.wday, Weekday(t / DAY)); }
  }

  /** The least matching whole minute strictly after t within the window; t itself if there is none. */
  method Next(c: Expr, t: nat) returns (at: nat)
    requires ValidExpr(c)
    ensures at == t || Fires(c, t, at)
    ensures forall k: nat :: Fires(c, t, k) ==> t < at <= k
  {
    hide Matches, ValidExpr;
    var candidate := t - t % MINUTE + MINUTE;
    while candidate < t + WINDOW
      invariant candidate % MINUTE == 0 && candidate > t
      invariant forall k: nat :: Fires(c, t, k) ==> candidate <= k
      decreases t + WINDOW - candidate
    {
      var r := Match(c, candidate);
      if r {
        assert Fires(c, t, candidate);
        return candidate;
      }
      forall k: nat | Fires(c, t, k) ensures candidate + MINUTE <= k {
        NextMinute(candidate, k);
      }
      candidate := candidate + MINUTE;
    }
    return t;
  }

  lemma NextMinute(a: nat, b: nat)
    requires a % MINUTE == 0 && b % MINUTE == 0 && a < b
    ensures a + MINUTE <= b
  {
  }

  // ---- When is there a next time? ----

  /** An accepted time of day, counted from midnight. */
  predicate TimeAccepted(c: Expr, h: nat, m: nat) {
    Accepts(c.hour, h) && Accepts(c.minute, m)
  }

  predicate LaterTime(c: Expr, clock: nat) {
    exists h, m :: 0 <= h < 24 && 0 <= m < 60 && TimeAccepted(c, h, m) && TimeOn(0, h, m) > clock
  }

  predicate EarlierTime(c: Expr, clock: nat) {
    exists h, m :: 0 <= h < 24 && 0 <= m < 60 && TimeAccepted(c, h, m) && TimeOn(0, h, m) < clock
  }

  /** An accepted day lies inside the window, or it is the first day of the window with an accepted
      time still to come, or the last with one that comes before the window ends. */
  predicate SomeDay(c: Expr, t: nat) {
    || (exists day: nat :: t / DAY < day < t / DAY + 1825 && DateAccepted(c, day))
    || (DateAccepted(c, t / DAY) && LaterTime(c, t % DAY))
    || (DateAccepted(c, t / DAY + 1825) && EarlierTime(c, t % DAY))
  }

  /** Minutes and hours always have a value the parser accepted; days and months need not. */
  lemma FieldFromZero(f: Field, max: int) returns (v: nat)
    requires ValidField(f, 0, max) && max >= 0
    ensures v <= max && Accepts(f, v)
  {
    assert ValidAtom(f[0], 0, max);
    v := match f[0] case Range(lo, _, _) => lo case _ => 0;
    assert AtomAccepts(f[0], v);
  }

  lemma SomeTime(c: Expr) returns (h: nat, m: nat)
    requires ValidExpr(c)
    ensures h < 24 && m < 60 && TimeAccepted(c, h, m)
  {
    h := FieldFromZero(c.hour, 23);
    m := FieldFromZero(c.minute, 59);
  }

  /** The time of day that is h hours and m minutes into a day. */
  function TimeOn(day: nat, h: nat, m: nat): nat {
    (day * 1440 + h * 60 + m) * MINUTE
  }

  lemma TimeOnDay(day: nat, h: nat, m: nat)
    requires h < 24 && m < 60
    ensures var at := TimeOn(day, h, m);
            at % MINUTE == 0 && at / MINUTE % 60 == m && at / MINUTE / 60 % 24 == h && at / DAY == day
    ensures TimeOn(day, h, m) == day * DAY + TimeOn(0, h, m)
  {
    var minutes := day * 1440 + h * 60 + m;
    var at := minutes * MINUTE;
    assert at / MINUTE == minutes && minutes % 60 == m && minutes / 60 == day * 24 + h;
    assert at / DAY == day;
  }

  lemma WholeMinute(at: nat)
    requires at % MINUTE == 0
    ensures at == TimeOn(at / DAY, at / MINUTE / 60 % 24, at / MINUTE % 60)
  {
    var minutes := at / MINUTE;
    assert at == minutes * MINUTE && minutes == minutes / 60 / 24 * 1440 + minutes / 60 % 24 * 60 + minutes % 60;
    assert at / DAY == minutes / 1440;
  }

  /** A time fires exactly when it is an accepted time on an accepted day in the window. */
  lemma FiresOn(c: Expr, t: nat, day: nat, h: nat, m: nat)
    requires h < 24 && m < 60 && TimeAccepted(c, h, m) && DateAccepted(c, day)
    requires t < day * DAY + TimeOn(0, h, m) < t + WINDOW
    ensures Fires(c, t, TimeOn(day, h, m))
  {
    hide Accepts, DateAccepted, TimeOn;
    TimeOnDay(day, h, m);
  }

  /** A valid expression has a next time if and only if it accepts some day of the window, and, if
      that is the first or the last of the window, a time of that day that is inside. */
  lemma FiresExactly(c: Expr, t: nat)
    requires ValidExpr(c)
    ensures (exists at: nat :: Fires(c, t, at)) <==> SomeDay(c, t)
  {
    hide Accepts, DateAccepted, Fires, ValidExpr;
    if at: nat :| Fires(c, t, at) { FiringDay(c, t, at); }
    if day: nat :| t / DAY < day < t / DAY + 1825 && DateAccepted(c, day) {
      var h, m := SomeTime(c);
      FiresOn(c, t, day, h, m);
    } else if DateAccepted(c, t / DAY) && LaterTime(c, t % DAY) {
      var h, m :| 0 <= h < 24 && 0 <= m < 60 && TimeAccepted(c, h, m) && TimeOn(0, h, m) > t % DAY;
      FiresOn(c, t, t / DAY, h, m);
    } else if SomeDay(c, t) {
      var h, m :| 0 <= h < 24 && 0 <= m < 60 && TimeAccepted(c, h, m) && TimeOn(0, h, m) < t % DAY;
      FiresOn(c, t, t / DAY + 1825, h, m);
    }
  }

  lemma FiringDay(c: Expr, t: nat, at: nat)
    requires Fires(c, t, at)
    ensures SomeDay(c, t)
  {
    hide Accepts, DateAccepted, TimeOn;
    var day, h, m := at / DAY, at / MINUTE / 60 % 24, at / MINUTE % 60;
    WholeMinute(at);
    TimeOnDay(day, h, m);
    assert TimeAccepted(c, h, m);
  }

  // ---- Expressions that restrict days and months alone ----

  /** Some accepted day and month make a date that exists, in a leap year if need be. */
  predicate SomeDate(c: Expr) {
    exists m, d :: 1 <= m <= 12 && 1 <= d <= MonthLength(4, m) && Accepts(c.month, m) && Accepts(c.dom, d)
  }

  predicate AnyWeekday(c: Expr) {
    forall w :: 0 <= w <= 6 ==> Accepts(c.wday, w)
  }

  /** One of the next four years is a leap year. */
  predicate LeapYearAhead(y: nat) {
    exists leap :: y < leap <= y + 4 && IsLeap(leap)
  }

  predicate AcceptsLeapDay(c: Expr) {
    Accepts(c.month, 2) && Accepts(c.dom, 29)
  }

  lemma MonthNeverLonger(y: nat, m: nat)
    ensures MonthLength(y, m) <= MonthLength(4, m)
    ensures m != 2 || IsLeap(y) ==> MonthLength(y, m) == MonthLength(4, m)
  {
  }

  lemma RealDay(y: nat, m: nat, d: nat)
    requires d <= MonthLength(4, m) && (m == 2 && d == 29 ==> IsLeap(y))
    ensures d <= MonthLength(y, m)
  {
  }

  lemma February(y: nat)
    ensures MonthStart(y, 2) == 31
  {
  }

  lemma NextYear(y: nat)
    requires y >= 1
    ensures YearStart(y + 1) - YearStart(y) == if y % 4 == 0 then YearLength(y) else 365
    ensures 365 <= YearLength(y) <= 366
  {
  }

  /** Any four years in a row have at most one leap year among them. */
  lemma YearsApart(y: nat, z: nat)
    requires 1 <= y < z <= y + 4
    ensures YearStart(z) <= YearStart(y) + 365 * (z - y) + 1
  {
    hide YearStart, YearLength;
    NextYear(y);
    NextYear(y + 1);
    NextYear(y + 2);
    NextYear(y + 3);
    assert z == y + 1 || z == y + 2 || z == y + 3 || z == y + 4;
  }

  /** Within less than five years of any day there is a date with a given day and month; for 29 February
      that takes a leap year among the next four. */
  lemma DateComesSoon(day: nat, m: nat, d: nat) returns (next: nat)
    requires 1 <= m <= 12 && 1 <= d <= MonthLength(4, m)
    requires m == 2 && d == 29 ==> LeapYearAhead(DateOf(day).year)
    ensures day < next < day + 1824 && DateOf(next).month == m && DateOf(next).day == d
  {
    hide DateOf, YearStart, MonthStart, MonthLength, YearLength, IsLeap;
    var y := DateOf(day).year;
    DayInYear(DateOf(day));
    var year := y + 1;
    if m == 2 && d == 29 { year :| y < year <= y + 4 && IsLeap(year); }
    RealDay(year, m, d);
    var date := Date(year, m, d);
    next := DayNumber(date);
    DateOfDayNumber(date);
    DayInYear(date);
    YearsInOrder(y + 1, year);
    YearsApart(y, year);
    YearsApart(year, year + 1);
    if m == 2 { February(year); }
  }

  /** An accepted day is a date that exists. */
  lemma AcceptedIsDate(c: Expr, day: nat)
    requires DateAccepted(c, day)
    ensures SomeDate(c)
  {
    hide Accepts, DateOf;
    var d := DateOf(day);
    MonthNeverLonger(d.year, d.month);
  }

  /** With every weekday accepted, a valid expression has a next time exactly when some day and month
      that it accepts is a date. The year matters for 29 February alone. */
  lemma AnyWeekdayFires(c: Expr, t: nat)
    requires ValidExpr(c) && AnyWeekday(c)
    requires AcceptsLeapDay(c) ==> LeapYearAhead(DateOf(t / DAY).year)
    ensures (exists at: nat :: Fires(c, t, at)) <==> SomeDate(c)
  {
    hide Accepts, ValidField, MonthLength, DateOf, Fires, LaterTime, EarlierTime, LeapYearAhead;
    FiresExactly(c, t);
    if SomeDate(c) {
      var m, d :| 1 <= m <= 12 && 1 <= d <= MonthLength(4, m) && Accepts(c.month, m) && Accepts(c.dom, d);
      var next := DateComesSoon(t / DAY, m, d);
      assert Accepts(c.wday, Weekday(next));
      assert DateAccepted(c, next);
    }
    if SomeDay(c, t) {
      var day: nat :| DateAccepted(c, day);
      AcceptedIsDate(c, day);
    }
  }

  /** A valid expression may never fire: 31 February. */
  lemma NeverFires(t: nat)
    ensures var c := Expr([Any], [Any], [Range(31, 31, 1)], [Range(2, 2, 1)], [Any]);
            ValidExpr(c) && AnyWeekday(c) && forall at: nat :: !Fires(c, t, at)
  {
    var c := Expr([Any], [Any], [Range(31, 31, 1)], [Range(2, 2, 1)], [Any]);
    assert AnyWeekday(c) by { assert AtomAccepts(c.wday[0], 0); }
    AnyWeekdayFires(c, t);
  }

  // ---- The leap day that a century skips ----

  const LEAP_DAY := Expr([Any], [Any], [Range(29, 29, 1)], [Range(2, 2, 1)], [Any])

  lemma AnyTime(clock: nat)
    ensures LaterTime(LEAP_DAY, clock) <==> clock < DAY - MINUTE
    ensures EarlierTime(LEAP_DAY, clock) <==> clock > 0
  {
    assert AtomAccepts(LEAP_DAY.hour[0], 23) && AtomAccepts(LEAP_DAY.minute[0], 59);
    assert TimeAccepted(LEAP_DAY, 23, 59) && TimeAccepted(LEAP_DAY, 0, 0);
  }

  function LeapDayOf(y: nat): nat
    requires y >= 1 && IsLeap(y)
  {
    DayNumber(Date(y, 2, 29))
  }

  /** A century without a leap day has one four years before it and one four years after. */
  predicate SkipsLeapDay(century: nat): (skips: bool)
    ensures skips ==> century >= 100 && forall y: nat :: century - 4 <= y <= century + 4 ==>
                        (IsLeap(y) <==> y == century - 4 || y == century + 4)
  {
    century >= 100 && century % 100 == 0 && !IsLeap(century)
  }

  lemma FourYears(y: nat)
    requires y >= 1
    ensures YearStart(y + 4) == YearStart(y) + YearLength(y) + YearLength(y + 1) + YearLength(y + 2) + YearLength(y + 3)
  {
    hide YearLength;
    assert YearStart(y + 2) == YearStart(y) + YearLength(y) + YearLength(y + 1);
  }

  lemma EightYears(century: nat)
    requires SkipsLeapDay(century)
    ensures IsLeap(century - 4) && IsLeap(century + 4)
    ensures LeapDayOf(century + 4) == LeapDayOf(century - 4) + 2921
  {
    hide YearStart, MonthStart, SkipsLeapDay, IsLeap;
    FourYears(century - 4);
    FourYears(century);
    February(century - 4);
    February(century + 4);
  }

  lemma LeapDaysBetween(century: nat, day: nat)
    requires SkipsLeapDay(century)
    requires LeapDayOf(century - 4) <= day <= LeapDayOf(century + 4)
    ensures DateAccepted(LEAP_DAY, day) <==> day == LeapDayOf(century - 4) || day == LeapDayOf(century + 4)
  {
    hide DateOf, YearStart, MonthStart, IsLeap, DayNumber, SkipsLeapDay;
    var d := DateOf(day);
    assert DateAccepted(LEAP_DAY, day) <==> d.month == 2 && d.day == 29 by {
      assert AtomAccepts(LEAP_DAY.wday[0], Weekday(day));
      assert AtomAccepts(LEAP_DAY.month[0], d.month) <==> d.month == 2;
      assert AtomAccepts(LEAP_DAY.dom[0], d.day) <==> d.day == 29;
    }
    var first, last := Date(century - 4, 2, 29), Date(century + 4, 2, 29);
    DateOfDayNumber(first);
    DateOfDayNumber(last);
    DayInYear(d);
    DayInYear(first);
    DayInYear(last);
    if d.year < century - 4 { YearsInOrder(d.year + 1, century - 4); }
    if d.year > century + 4 { YearsInOrder(century + 5, d.year); }
    assert d.month == 2 && d.day == 29 ==> IsLeap(d.year);
  }


  /** From the leap day before a century that skips one to the leap day after it, a job for every
      29 February has a next time exactly until the last minute of the one, and again from the moment
      that the other comes within the window. */
  lemma LeapDayGap(century: nat, t: nat)
    requires SkipsLeapDay(century)
    requires LeapDayOf(century - 4) <= t / DAY < LeapDayOf(century + 4)
    ensures ValidExpr(LEAP_DAY) && SomeDate(LEAP_DAY)
    ensures (exists at: nat :: Fires(LEAP_DAY, t, at)) <==>
            t < TimeOn(LeapDayOf(century - 4), 23, 59) || t > (LeapDayOf(century + 4) - 1825) * DAY
  {
    hide DateAccepted, Fires, LeapDayOf, LaterTime, EarlierTime, SkipsLeapDay, IsLeap;
    var first, last, today := LeapDayOf(century - 4), LeapDayOf(century + 4), t / DAY;
    FiresExactly(LEAP_DAY, t);
    EightYears(century);
    AnyTime(t % DAY);
    assert TimeOn(first, 23, 59) == first * DAY + DAY - MINUTE;
    forall day: nat | first <= day <= last
      ensures DateAccepted(LEAP_DAY, day) <==> day == first || day == last
    {
      LeapDaysBetween(century, day);
    }
    var clock := t % DAY;
    assert t == today * DAY + clock;
    assert DateAccepted(LEAP_DAY, first) && DateAccepted(LEAP_DAY, last);
    assert SomeDay(LEAP_DAY, t) <==>
           (today == first && clock < DAY - MINUTE) || last < today + 1825 || (last == today + 1825 && clock > 0);
    AcceptedIsDate(LEAP_DAY, first);
  }

  // ---- Expressions that restrict the weekday ----

  predicate AnyDay(c: Expr) {
    forall d :: 1 <= d <= 31 ==> Accepts(c.dom, d)
  }

  lemma DayWithWeekday(from: nat, w: nat) returns (day: nat)
    requires w <= 6
    ensures from <= day <= from + 6 && Weekday(day) == w
  {
    var r := from % 7;
    day := from + if w >= r + 1 then w - r - 1 else w - r + 6;
    assert from == 7 * (from / 7) + r;
  }

  /** With every day accepted, a valid expression has a next time exactly when it accepts a month,
      whatever its weekdays. */
  lemma AnyDayFires(c: Expr, t: nat)
    requires ValidExpr(c) && AnyDay(c)
    ensures (exists at: nat :: Fires(c, t, at)) <==> exists m :: 1 <= m <= 12 && Accepts(c.month, m)
  {
    hide Accepts, ValidField, DateOf, Fires, LaterTime, EarlierTime, MonthLength, YearStart, MonthStart, Weekday;
    FiresExactly(c, t);
    if m :| 1 <= m <= 12 && Accepts(c.month, m) {
      var w := FieldFromZero(c.wday, 6);
      var day := MonthHasWeekday(t / DAY, m, w);
      DaysOfMonth(DateOf(day));
      assert DateAccepted(c, day);
    }
  }

  lemma DaysOfMonth(d: Date)
    requires IsDate(d)
    ensures 1 <= d.day <= 31 && 1 <= d.month <= 12
  {
  }

  lemma MonthHasWeekday(today: nat, m: nat, w: nat) returns (day: nat)
    requires 1 <= m <= 12 && w <= 6
    ensures today < day < today + 1825 && DateOf(day).month == m && Weekday(day) == w
  {
    hide DateOf, YearStart, MonthStart, Weekday;
    var y := DateOf(today).year;
    DayInYear(DateOf(today));
    var first := Date(y + 1, m, 1);
    day := DayWithWeekday(DayNumber(first), w);
    var date := first.(day := 1 + day - DayNumber(first));
    assert DayNumber(date) == day;
    DateOfDayNumber(date);
    DayInYear(date);
    YearsApart(y, y + 2);
  }

  /** A valid expression that accepts every day and month fires within a week. */
  lemma FiresWeekly(c: Expr, t: nat) returns (at: nat)
    requires ValidExpr(c) && AnyDay(c) && forall m :: 1 <= m <= 12 ==> Accepts(c.month, m)
    ensures at <= t + 7 * DAY
    ensures Fires(c, t, at)
  {
    hide Accepts, ValidField, Fires, DateOf, Weekday, TimeOn, DateAccepted;
    var w := FieldFromZero(c.wday, 6);
    var h, m := SomeTime(c);
    var day := DayWithWeekday(t / DAY, w);
    TimeOnDay(day, h, m);
    if t >= TimeOn(day, h, m) {
      WeekLater(day);
      day := day + 7;
      TimeOnDay(day, h, m);
    }
    WeekdayAccepted(c, day);
    at := TimeOn(day, h, m);
    FiresOn(c, t, day, h, m);
  }

  lemma WeekLater(day: nat)
    ensures Weekday(day + 7) == Weekday(day)
  {
  }

  lemma WeekdayAccepted(c: Expr, day: nat)
    requires AnyDay(c) && (forall m :: 1 <= m <= 12 ==> Accepts(c.month, m)) && Accepts(c.wday, Weekday(day))
    ensures DateAccepted(c, day)
  {
    hide Accepts, DateOf, MonthLength;
    DaysOfMonth(DateOf(day));
  }

  lemma LeapYearsNow(y: nat)
    requires y == 2019
    ensures LeapYearsBefore(y) == LeapYearsBefore(y + 1) == 489
    ensures LeapYearsBefore(y + 2) == LeapYearsBefore(y + 3) == LeapYearsBefore(y + 4) == LeapYearsBefore(y + 5) == 490
  {
  }

  /** A date that exists is not enough when weekdays are restricted: on 2 January 2019 a job for the
      Mondays that are New Year's Day has no next time, the next one being just outside the window. */
  lemma NewYearMonday(t: nat)
    requires t % DAY == 0 && DateOf(t / DAY).year == 2019 && DateOf(t / DAY).month == 1 && DateOf(t / DAY).day == 2
    ensures var on := (n: int) => [Range(n, n, 1)]; var c := Expr(on(0), on(0), on(1), on(1), on(1));
            ValidExpr(c) && SomeDate(c) && forall at: nat :: !Fires(c, t, at)
  {
    hide DateOf, YearStart, Fires, LeapYearsBefore;
    var on := (n: int) => [Range(n, n, 1)];
    var c, today, y := Expr(on(0), on(0), on(1), on(1), on(1)), t / DAY, DateOf(t / DAY).year;
    assert AtomAccepts(c.dom[0], 1) && Accepts(c.dom, 1) && Accepts(c.month, 1);
    FiresExactly(c, t);
    LeapYearsNow(y);
    YearStartIs(y);
    YearStartIs(y + 5);
    forall day: nat | today <= day < today + 1825 ensures !DateAccepted(c, day) {
      if DateAccepted(c, day) {
        var z := DateOf(day).year;
        if z < y { YearsInOrder(z, y); }
        if z > y + 4 { YearsInOrder(y + 5, z); }
        YearStartIs(z);
      }
    }
  }
}
