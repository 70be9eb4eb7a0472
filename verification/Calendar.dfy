/**
 The proleptic Gregorian calendar and the one-month step of Go's AddDate, in a zone of fixed offset.

 A time is its wall clock read as nanoseconds since midnight on 1 January of year 1, so two
 times of one zone compare as instants. Go's Date normalises an overflowing day into the next
 month by counting days from the first of the month, which is what AddMonth does.
 */
module Calendar {
  import opened Collections

  const DAY: int := 86_400_000_000_000

  datatype Date = Date(year: int, month: int, day: int)

  predicate Leap(y: int) { y % 4 == 0 && (y % 100 != 0 || y % 400 == 0) }

  function DaysInMonth(y: int, m: int): (n: int)
    requires 1 <= m <= 12
    ensures 28 <= n <= 31
  {
    if m == 2 then (if Leap(y) then 29 else 28)
    else if m == 4 || m == 6 || m == 9 || m == 11 then 30
    else 31
  }

  predicate ValidDate(d: Date) {
    1 <= d.month <= 12 && 1 <= d.day <= DaysInMonth(d.year, d.month)
  }

  /** Days from 1 January of year 1 to 1 January of year y. */
  function DaysBeforeYear(y: int): int {
    365 * (y - 1) + (y - 1) / 4 - (y - 1) / 100 + (y - 1) / 400
  }

  /** Days from 1 January to the first of month m. */
  function DaysBeforeMonth(y: int, m: int): int
    requires 1 <= m <= 13
    decreases m
  {
    if m == 1 then 0 else DaysBeforeMonth(y, m - 1) + DaysInMonth(y, m - 1)
  }

  /** The day number of the d-th day counted from the first of the month; d may overflow the month. */
  function DayNumber(y: int, m: int, d: int): int
    requires 1 <= m <= 12
  {
    DaysBeforeYear(y) + DaysBeforeMonth(y, m) + d - 1
  }

  lemma FourthYears(y: int)
    ensures y / 4 - (y - 1) / 4 == if y % 4 == 0 then 1 else 0
  {
  }

  lemma CenturyYears(y: int)
    ensures y / 100 - (y - 1) / 100 == if y % 100 == 0 then 1 else 0
  {
  }

  lemma FourCenturyYears(y: int)
    ensures y / 400 - (y - 1) / 400 == if y % 400 == 0 then 1 else 0
  {
    assert 400 * (y / 400) + y % 400 == y && 400 * ((y - 1) / 400) + (y - 1) % 400 == y - 1;
  }

  lemma FourHundredthIsHundredth(y: int)
    ensures y % 400 == 0 ==> y % 100 == 0
  {
    if y % 400 == 0 {
      assert y == 100 * (4 * (y / 400));
    }
  }

  lemma HundredthIsFourth(y: int)
    ensures y % 100 == 0 ==> y % 4 == 0
  {
  }

  lemma YearLength(y: int)
    ensures DaysBeforeYear(y + 1) - DaysBeforeYear(y) == 365 + if Leap(y) then 1 else 0
  {
    FourthYears(y);
    CenturyYears(y);
    FourCenturyYears(y);
    FourHundredthIsHundredth(y);
    HundredthIsFourth(y);
    assert DaysBeforeYear(y + 1) == 365 * y + y / 4 - y / 100 + y / 400;
  }

  lemma MonthsFillYear(y: int)
    ensures DaysBeforeMonth(y, 13) == 365 + if Leap(y) then 1 else 0
  {
    assert DaysBeforeMonth(y, 4) == 90 + if Leap(y) then 1 else 0;
    assert DaysBeforeMonth(y, 7) == DaysBeforeMonth(y, 4) + 91;
    assert DaysBeforeMonth(y, 10) == DaysBeforeMonth(y, 7) + 92;
    assert DaysBeforeMonth(y, 13) == DaysBeforeMonth(y, 10) + 92;
  }

  lemma {:induction false} MonthsGrow(y: int, a: int, b: int)
    requires 1 <= a <= b <= 13
    ensures DaysBeforeMonth(y, b) - DaysBeforeMonth(y, a) >= 28 * (b - a)
    decreases b
  {
    if a < b {
      MonthsGrow(y, a, b - 1);
    }
  }

  /** The first of the next month is as many days later as this month is long, over the year's end too. */
  lemma NextMonthStart(y: int, m: int)
    requires 1 <= m <= 12
    ensures DayNumber(if m == 12 then y + 1 else y, if m == 12 then 1 else m + 1, 1) == DayNumber(y, m, 1) + DaysInMonth(y, m)
  {
    if m == 12 {
      MonthsFillYear(y);
      YearLength(y);
    }
  }

  // The calendar against formulas that know neither the table of months nor the rule for leap years.

  /** Every 400 years have 146097 days. */
  lemma FourCenturies(y: int)
    ensures DaysBeforeYear(y + 400) == DaysBeforeYear(y) + 146097
  {
    QuotientShifts(y - 1, 4, 100);
    QuotientShifts(y - 1, 100, 4);
    QuotientShifts(y - 1, 400, 1);
  }

  lemma QuotientShifts(x: int, d: int, k: int)
    requires d > 0
    ensures (x + k * d) / d == x / d + k
  {
    var q := x / d;
    assert (q + k) * d <= x + k * d < (q + k + 1) * d;
    QuotientIs(x + k * d, d, q + k);
  }

  /** From March on the months take 153 days every five. */
  lemma {:induction false} MarchMonths(y: int, m: int)
    requires 3 <= m <= 12
    ensures DaysBeforeMonth(y, m) == (153 * (m - 3) + 2) / 5 + 59 + if Leap(y) then 1 else 0
    decreases m
  {
    if m > 3 {
      MarchMonths(y, m - 1);
    } else {
      assert DaysBeforeMonth(y, 2) == 31;
    }
  }

  /** The day number in closed form, counting years from 1 March so that the leap day comes last. */
  function CivilDay(y: int, m: int, d: int): int {
    var fromMarch := if m <= 2 then y - 1 else y;
    365 * fromMarch + fromMarch / 4 - fromMarch / 100 + fromMarch / 400 + (153 * ((m + 9) % 12) + 2) / 5 + d - 307
  }

  /** The table of months and the leap rule count days as the closed form does. */
  lemma DayNumberIsCivil(y: int, m: int, d: int)
    requires 1 <= m <= 12
    ensures DayNumber(y, m, d) == CivilDay(y, m, d)
  {
    if m >= 3 {
      MarchMonths(y, m);
      YearLength(y);
      assert DaysBeforeYear(y + 1) == 365 * y + y / 4 - y / 100 + y / 400;
    } else {
      assert DaysBeforeMonth(y, 2) == 31;
    }
  }

  // From a day number back to its date.

  function YearFrom(n: int, y: int): (r: int)
    ensures DaysBeforeYear(r) <= n < DaysBeforeYear(r + 1)
    decreases n < DaysBeforeYear(y), if n < DaysBeforeYear(y) then DaysBeforeYear(y) - n else n - DaysBeforeYear(y)
  {
    YearLength(y);
    YearLength(y - 1);
    if n < DaysBeforeYear(y) then YearFrom(n, y - 1)
    else if n >= DaysBeforeYear(y + 1) then YearFrom(n, y + 1)
    else y
  }

  function MonthFrom(y: int, n: int, m: int): (r: int)
    requires 1 <= m <= 12 && DaysBeforeMonth(y, m) <= n < DaysBeforeMonth(y, 13)
    ensures 1 <= r <= 12 && DaysBeforeMonth(y, r) <= n < DaysBeforeMonth(y, r + 1)
    decreases 12 - m
  {
    if n < DaysBeforeMonth(y, m + 1) then m else MonthFrom(y, n, m + 1)
  }

  /** The date of a day number. */
  function DateOf(n: int): (d: Date)
    ensures ValidDate(d) && DayNumber(d.year, d.month, d.day) == n
  {
    var y := YearFrom(n, 1);
    YearLength(y);
    MonthsFillYear(y);
    var m := MonthFrom(y, n - DaysBeforeYear(y), 1);
    Date(y, m, n - DaysBeforeYear(y) - DaysBeforeMonth(y, m) + 1)
  }

  lemma {:induction false} YearsGrow(a: int, b: int)
    requires a <= b
    ensures DaysBeforeYear(b) - DaysBeforeYear(a) >= 365 * (b - a)
    decreases b - a
  {
    if a < b {
      YearsGrow(a, b - 1);
      YearLength(b - 1);
    }
  }

  /** A date lies within its year. */
  lemma WithinYear(d: Date)
    requires ValidDate(d)
    ensures DaysBeforeYear(d.year) <= DayNumber(d.year, d.month, d.day) < DaysBeforeYear(d.year + 1)
  {
    MonthsGrow(d.year, 1, d.month);
    MonthsGrow(d.year, d.month + 1, 13);
    MonthsFillYear(d.year);
    YearLength(d.year);
    assert DaysBeforeMonth(d.year, d.month + 1) == DaysBeforeMonth(d.year, d.month) + DaysInMonth(d.year, d.month);
  }

  lemma SameYear(d: Date, e: Date)
    requires ValidDate(d) && ValidDate(e) && DayNumber(d.year, d.month, d.day) == DayNumber(e.year, e.month, e.day)
    ensures d.year >= e.year
  {
    WithinYear(d);
    WithinYear(e);
    if d.year < e.year {
      YearsGrow(d.year + 1, e.year);
    }
  }

  lemma SameMonth(y: int, d: Date, e: Date)
    requires ValidDate(d) && ValidDate(e) && d.year == e.year == y
    requires DaysBeforeMonth(y, d.month) + d.day == DaysBeforeMonth(y, e.month) + e.day
    ensures d.month >= e.month
  {
    if d.month < e.month {
      MonthsGrow(y, d.month + 1, e.month);
    }
  }

  /** Day numbers identify dates, so DateOf is the inverse of DayNumber in both directions. */
  lemma DateOfDayNumber(d: Date)
    requires ValidDate(d)
    ensures DateOf(DayNumber(d.year, d.month, d.day)) == d
  {
    var e := DateOf(DayNumber(d.year, d.month, d.day));
    SameYear(d, e);
    SameYear(e, d);
    SameMonth(d.year, d, e);
    SameMonth(d.year, e, d);
  }

  // Times and the one-month step.

  function DayOf(t: int): int { t / DAY }

  function Clock(t: int): int { t % DAY }

  /** The day number a month after d: carry the month into the year and let the day overflow. */
  function DayMonthLater(d: Date): int
    requires ValidDate(d)
  {
    DayNumber(if d.month == 12 then d.year + 1 else d.year, if d.month == 12 then 1 else d.month + 1, d.day)
  }

  /** Go's AddDate(0, 1, 0), which keeps the clock. */
  function AddMonth(t: int): int { DayMonthLater(DateOf(DayOf(t))) * DAY + Clock(t) }

  function MonthLength(t: int): (n: int)
    ensures 28 <= n <= 31
  {
    var d := DateOf(DayOf(t));
    DaysInMonth(d.year, d.month)
  }

  function DayOfMonth(t: int): (n: int)
    ensures 1 <= n <= 31
  {
    DateOf(DayOf(t)).day
  }

  lemma ClockSplit(n: int, c: int)
    requires 0 <= c < DAY
    ensures DayOf(n * DAY + c) == n && Clock(n * DAY + c) == c
  {
  }

  lemma MonthLaterAdvances(d: Date)
    requires ValidDate(d)
    ensures DayMonthLater(d) == DayNumber(d.year, d.month, d.day) + DaysInMonth(d.year, d.month)
  {
    NextMonthStart(d.year, d.month);
  }

  /** One step advances by exactly the number of days in the starting month, whatever overflows. */
  lemma AddMonthAdvances(t: int)
    ensures AddMonth(t) == t + MonthLength(t) * DAY
    ensures DayOf(AddMonth(t)) == DayOf(t) + MonthLength(t) && Clock(AddMonth(t)) == Clock(t)
  {
    MonthLaterAdvances(DateOf(DayOf(t)));
    ClockSplit(DayOf(t) + MonthLength(t), Clock(t));
  }

  /** A day that overflows month m is one of the first three days of the next. */
  lemma Overflow(y: int, m: int, day: int)
    requires 1 <= m <= 12 && DaysInMonth(y, m) < day <= 31
    ensures DateOf(DayNumber(y, m, day)).day == day - DaysInMonth(y, m) <= 3
  {
    NextMonthStart(y, m);
    var (y', m') := if m == 12 then (y + 1, 1) else (y, m + 1);
    var over := day - DaysInMonth(y, m);
    assert DayNumber(y, m, day) == DayNumber(y', m', over);
    DateOfDayNumber(Date(y', m', over));
  }

  lemma LandsIn(y: int, m: int, day: int)
    requires 1 <= m <= 12 && 1 <= day <= 31
    ensures var landed := DateOf(DayNumber(y, m, day)).day;
            landed == day || (day > 28 && landed <= 3)
  {
    if day <= DaysInMonth(y, m) {
      DateOfDayNumber(Date(y, m, day));
    } else {
      Overflow(y, m, day);
    }
  }

  lemma MonthLaterDay(d: Date)
    requires ValidDate(d)
    ensures DateOf(DayMonthLater(d)).day == d.day || (d.day > 28 && DateOf(DayMonthLater(d)).day <= 3)
  {
    LandsIn(if d.month == 12 then d.year + 1 else d.year, if d.month == 12 then 1 else d.month + 1, d.day);
  }

  lemma MonthLaterIsCivil(d: Date)
    requires ValidDate(d)
    ensures DayMonthLater(d) == CivilDay(if d.month == 12 then d.year + 1 else d.year, if d.month == 12 then 1 else d.month + 1, d.day)
  {
    DayNumberIsCivil(if d.month == 12 then d.year + 1 else d.year, if d.month == 12 then 1 else d.month + 1, d.day);
  }

  lemma AddMonthOn(t: int, d: Date)
    requires ValidDate(d) && DayOf(t) == DayNumber(d.year, d.month, d.day)
    ensures DayOf(AddMonth(t)) == DayMonthLater(d) && Clock(AddMonth(t)) == Clock(t)
  {
    DateOfDayNumber(d);
    ClockSplit(DayMonthLater(d), Clock(t));
  }

  /** The step in closed form: on date d, to the same day of the next month by the calendar, at the same time of the day. */
  lemma AddMonthIsCivil(t: int, d: Date)
    requires ValidDate(d) && t / 86_400_000_000_000 == CivilDay(d.year, d.month, d.day)
    ensures AddMonth(t) / 86_400_000_000_000
            == CivilDay(if d.month == 12 then d.year + 1 else d.year, if d.month == 12 then 1 else d.month + 1, d.day)
    ensures AddMonth(t) % 86_400_000_000_000 == t % 86_400_000_000_000
  {
    DayNumberIsCivil(d.year, d.month, d.day);
    MonthLaterIsCivil(d);
    AddMonthOn(t, d);
  }

  /** The step lands on the same day of the next month, or overflows into the first three days of the one after. */
  lemma AddMonthDay(t: int)
    ensures DayOfMonth(AddMonth(t)) == DayOfMonth(t) || (DayOfMonth(t) > 28 && DayOfMonth(AddMonth(t)) <= 3)
  {
    ClockSplit(DayMonthLater(DateOf(DayOf(t))), Clock(t));
    MonthLaterDay(DateOf(DayOf(t)));
  }

  /** The k-th boundary of the chain that starts at t. */
  function Boundary(t: int, k: nat): int { Iterate(AddMonth, t, k) }

  lemma MonthSpreads()
    ensures Spreads(AddMonth, 28 * DAY, 31 * DAY)
  {
    forall x ensures 28 * DAY <= AddMonth(x) - x <= 31 * DAY {
      AddMonthAdvances(x);
    }
  }

  /** Boundaries are at least 28 days a step apart, and at most 31. */
  lemma BoundarySpread(t: int, j: nat, k: nat)
    requires j <= k
    ensures 28 * DAY * (k - j) <= Boundary(t, k) - Boundary(t, j) <= 31 * DAY * (k - j)
  {
    MonthSpreads();
    IterateSpread(AddMonth, 28 * DAY, 31 * DAY, t, j, k);
  }

  /** A chain has at most one pair of neighbouring boundaries around a given time. */
  lemma BoundaryAround(t: int, j: nat, k: nat, x: int)
    requires Boundary(t, j) <= x < Boundary(t, j + 1)
    requires Boundary(t, k) <= x < Boundary(t, k + 1)
    ensures j == k
  {
    forall y ensures AddMonth(y) > y {
      AddMonthAdvances(y);
    }
    IterateAround(AddMonth, t, j, k, x);
  }

  /** What one step does to the day of the month, for any step and reading of the day. */
  ghost predicate StepsOverDays(step: int -> int, day: int -> int) {
    forall x :: day(step(x)) == day(x) || (day(x) > 28 && day(step(x)) <= 3)
  }

  lemma {:induction false} IterateDay(step: int -> int, day: int -> int, t: int, k: nat)
    requires StepsOverDays(step, day)
    ensures day(Iterate(step, t, k)) == day(t) || (day(t) > 28 && day(Iterate(step, t, k)) <= 3)
    decreases k
  {
    if k > 0 {
      IterateDay(step, day, t, k - 1);
    }
  }

  lemma MonthStepsOverDays()
    ensures StepsOverDays(AddMonth, DayOfMonth)
  {
    forall x ensures DayOfMonth(AddMonth(x)) == DayOfMonth(x) || (DayOfMonth(x) > 28 && DayOfMonth(AddMonth(x)) <= 3) {
      AddMonthDay(x);
    }
  }

  /** A day of the month up to 28 is kept forever; a later one can only give way to one of the first three. */
  lemma AnchorDay(t: int, k: nat)
    ensures DayOfMonth(t) <= 28 ==> DayOfMonth(Boundary(t, k)) == DayOfMonth(t)
    ensures DayOfMonth(Boundary(t, k)) == DayOfMonth(t) || DayOfMonth(Boundary(t, k)) <= 3
  {
    MonthStepsOverDays();
    IterateDay(AddMonth, DayOfMonth, t, k);
  }

  /** So a chain overflows at most once: once a boundary's day differs, no later one differs from it. */
  lemma OverflowsOnce(t: int, j: nat, k: nat)
    requires DayOfMonth(Boundary(t, j)) != DayOfMonth(t) && j <= k
    ensures DayOfMonth(Boundary(t, k)) == DayOfMonth(Boundary(t, j)) <= 3
  {
    MonthStepsOverDays();
    IterateOverflow(AddMonth, DayOfMonth, t, j, k);
  }

  lemma IterateOverflow(step: int -> int, day: int -> int, t: int, j: nat, k: nat)
    requires StepsOverDays(step, day) && j <= k && day(Iterate(step, t, j)) != day(t)
    ensures day(Iterate(step, t, k)) == day(Iterate(step, t, j)) <= 3
  {
  }
}
