/**
 * Calendar dates of the dashboard: proleptic Gregorian (year, month, day)
 * triples, a day-number conversion, the weekday, and the small date rules the
 * dashboard derives from them (week start, weekend, default entry date, the
 * future-month rule and the month-end week).
 *
 * Where the dashboard relies on `Date.setDate` rolling over month and year
 * boundaries, the model uses `AddDays`, which is proved to move the day number
 * by exactly the requested amount.
 */
module Calendar {

  datatype Date = Date(year: int, month: int, day: int)

  /** Weekday numbers as `Date.getDay` returns them. */
  const Sunday := 0
  const Monday := 1
  const Friday := 5
  const Saturday := 6

  predicate IsLeapYear(y: int) {
    (y % 4 == 0 && y % 100 != 0) || y % 400 == 0
  }

  function DaysInMonth(y: int, m: int): (n: int)
    requires 1 <= m <= 12
    ensures 28 <= n <= 31
    ensures n == 28 <==> m == 2 && !IsLeapYear(y)
  {
    if m == 2 then (if IsLeapYear(y) then 29 else 28)
    else if m == 4 || m == 6 || m == 9 || m == 11 then 30
    else 31
  }

  function DaysInYear(y: int): int {
    if IsLeapYear(y) then 366 else 365
  }

  predicate ValidDate(d: Date) {
    1 <= d.month <= 12 && 1 <= d.day <= DaysInMonth(d.year, d.month)
  }

  /** Days in the years before `y` (floor division makes this right for every integer year). */
  function DaysBeforeYear(y: int): int {
    365 * (y - 1) + (y - 1) / 4 - (y - 1) / 100 + (y - 1) / 400
  }

  /** Days in the months of year `y` before month `m`. */
  function DaysBeforeMonth(y: int, m: int): (n: int)
    requires 1 <= m <= 12
    ensures 0 <= n <= 335
  {
    var cumulative := [0, 31, 59, 90, 120, 151, 181, 212, 243, 273, 304, 334];
    cumulative[m - 1] + (if m > 2 && IsLeapYear(y) then 1 else 0)
  }

  /** Day number; 0001-01-01 is day 1 (a Monday). */
  function DayNumber(d: Date): int
    requires ValidDate(d)
  {
    DaysBeforeYear(d.year) + DaysBeforeMonth(d.year, d.month) + d.day
  }

  /** The weekday as `getDay()` gives it: 0 = Sunday, 1 = Monday, ..., 6 = Saturday. */
  function Weekday(d: Date): (w: int)
    requires ValidDate(d)
    ensures 0 <= w < 7
  {
    DayNumber(d) % 7
  }

  function NextDay(d: Date): (r: Date)
    requires ValidDate(d)
    ensures ValidDate(r)
  {
    if d.day < DaysInMonth(d.year, d.month) then Date(d.year, d.month, d.day + 1)
    else if d.month < 12 then Date(d.year, d.month + 1, 1)
    else Date(d.year + 1, 1, 1)
  }

  function PrevDay(d: Date): (r: Date)
    requires ValidDate(d)
    ensures ValidDate(r)
  {
    if d.day > 1 then Date(d.year, d.month, d.day - 1)
    else if d.month > 1 then Date(d.year, d.month - 1, DaysInMonth(d.year, d.month - 1))
    else Date(d.year - 1, 12, 31)
  }

  lemma DivStep4(y: int)
    ensures y / 4 - (y - 1) / 4 == if y % 4 == 0 then 1 else 0
  {
  }

  lemma DivStep100(y: int)
    ensures y / 100 - (y - 1) / 100 == if y % 100 == 0 then 1 else 0
  {
  }

  lemma DivStep400(y: int)
    ensures y / 400 - (y - 1) / 400 == if y % 400 == 0 then 1 else 0
  {
  }

  /** Shifting a number by `k` shifts its remainder modulo 7 by `k`. */
  lemma ModShift(n: int, k: int)
    ensures ((n % 7) + k) % 7 == (n + k) % 7
  {
  }

  lemma {:induction false} YearStep(y: int)
    ensures DaysBeforeYear(y + 1) == DaysBeforeYear(y) + DaysInYear(y)
  {
    DivStep4(y);
    DivStep100(y);
    DivStep400(y);
  }

  lemma {:induction false} NextDayNumber(d: Date)
    requires ValidDate(d)
    ensures DayNumber(NextDay(d)) == DayNumber(d) + 1
  {
    if d.day == DaysInMonth(d.year, d.month) && d.month == 12 {
      YearStep(d.year);
    }
  }

  lemma {:induction false} PrevDayNumber(d: Date)
    requires ValidDate(d)
    ensures DayNumber(PrevDay(d)) == DayNumber(d) - 1
  {
    if d.day == 1 && d.month == 1 {
      YearStep(d.year - 1);
    }
  }

  /** The date `n` days after `d` (before it, for negative `n`), as `setDate(getDate() + n)` computes it. */
  function AddDays(d: Date, n: int): (r: Date)
    requires ValidDate(d)
    ensures ValidDate(r)
    ensures DayNumber(r) == DayNumber(d) + n
    decreases if n < 0 then -n else n
  {
    if n == 0 then d
    else if n > 0 then (NextDayNumber(d); AddDays(NextDay(d), n - 1))
    else (PrevDayNumber(d); AddDays(PrevDay(d), n + 1))
  }

  lemma {:induction false} DaysBeforeYearMonotone(a: int, b: int)
    requires a < b
    ensures DaysBeforeYear(a) + DaysInYear(a) <= DaysBeforeYear(b)
    decreases b - a
  {
    YearStep(a);
    if a + 1 < b {
      DaysBeforeYearMonotone(a + 1, b);
    }
  }

  lemma DaysBeforeMonthStep(y: int, m: int, m': int)
    requires 1 <= m < m' <= 12
    ensures DaysBeforeMonth(y, m) + DaysInMonth(y, m) <= DaysBeforeMonth(y, m')
  {
  }

  /** Earlier dates (by year, month, day) have smaller day numbers. */
  lemma {:induction false} DayNumberOrder(a: Date, b: Date)
    requires ValidDate(a) && ValidDate(b)
    requires a.year < b.year
          || (a.year == b.year && a.month < b.month)
          || (a.year == b.year && a.month == b.month && a.day < b.day)
    ensures DayNumber(a) < DayNumber(b)
  {
    if a.year < b.year {
      DaysBeforeYearMonotone(a.year, b.year);
      assert DaysBeforeMonth(a.year, a.month) + a.day <= DaysInYear(a.year) by {
        if a.month < 12 {
          DaysBeforeMonthStep(a.year, a.month, 12);
        }
      }
    } else if a.month < b.month {
      DaysBeforeMonthStep(a.year, a.month, b.month);
    }
  }

  /** `a` comes before `b` in the order of year, month and day. */
  predicate Before(a: Date, b: Date) {
    a.year < b.year
    || (a.year == b.year && a.month < b.month)
    || (a.year == b.year && a.month == b.month && a.day < b.day)
  }

  /** For real dates the calendar order is the order of day numbers, that is, of time values. */
  lemma BeforeIffEarlierDayNumber(a: Date, b: Date)
    requires ValidDate(a) && ValidDate(b)
    ensures Before(a, b) <==> DayNumber(a) < DayNumber(b)
  {
    if Before(a, b) {
      DayNumberOrder(a, b);
    } else if a != b {
      DayNumberOrder(b, a);
    }
  }

  /** The day number identifies the date. */
  lemma DayNumberInjective(a: Date, b: Date)
    requires ValidDate(a) && ValidDate(b)
    requires DayNumber(a) == DayNumber(b)
    ensures a == b
  {
    if a != b {
      if a.year < b.year || (a.year == b.year && a.month < b.month)
         || (a.year == b.year && a.month == b.month && a.day < b.day) {
        DayNumberOrder(a, b);
      } else {
        DayNumberOrder(b, a);
      }
    }
  }

  /** Moving within the month only changes the day of the month. */
  lemma AddDaysWithinMonth(d: Date, k: int)
    requires ValidDate(d)
    requires 1 <= d.day + k <= DaysInMonth(d.year, d.month)
    ensures AddDays(d, k) == Date(d.year, d.month, d.day + k)
  {
    DayNumberInjective(AddDays(d, k), Date(d.year, d.month, d.day + k));
  }

  lemma WeekdayShift(d: Date, k: int)
    requires ValidDate(d)
    ensures Weekday(AddDays(d, k)) == (Weekday(d) + k) % 7
  {
    var n := DayNumber(d);
    assert Weekday(AddDays(d, k)) == (n + k) % 7;
    assert Weekday(d) == n % 7;
    ModShift(n, k);
  }

  predicate IsWeekend(d: Date)
    requires ValidDate(d)
  {
    Weekday(d) == Sunday || Weekday(d) == Saturday
  }

  /** Days back from a date with weekday `w` to the Monday that starts its week. */
  function DaysSinceMonday(w: int): (o: int)
    requires 0 <= w < 7
    ensures 0 <= o <= 6
  {
    if w == Sunday then 6 else w - Monday
  }

  lemma BackToMonday(w: int)
    requires 0 <= w < 7
    ensures (w - DaysSinceMonday(w)) % 7 == Monday
  {
    if w == Sunday {
      assert w - DaysSinceMonday(w) == -6;
    } else {
      assert w - DaysSinceMonday(w) == 1;
    }
  }

  lemma WeekStartIsMonday(d: Date)
    requires ValidDate(d)
    ensures Weekday(AddDays(d, -DaysSinceMonday(Weekday(d)))) == Monday
  {
    WeekdayShift(d, -DaysSinceMonday(Weekday(d)));
    BackToMonday(Weekday(d));
  }

  /** The Monday on or before `d` (a Sunday belongs to the week that began six days earlier). */
  function WeekStart(d: Date): (r: Date)
    requires ValidDate(d)
    ensures ValidDate(r) && Weekday(r) == Monday
    ensures 0 <= DayNumber(d) - DayNumber(r) <= 6
    ensures Weekday(d) == Sunday ==> DayNumber(d) - DayNumber(r) == 6
    ensures Weekday(d) != Sunday ==> DayNumber(d) - DayNumber(r) == Weekday(d) - Monday
  {
    WeekStartIsMonday(d);
    AddDays(d, -DaysSinceMonday(Weekday(d)))
  }

  /** A date is on a weekend exactly when it is the sixth or seventh day of its Monday-based week. */
  lemma WeekendIsEndOfWeek(d: Date)
    requires ValidDate(d)
    ensures IsWeekend(d) <==> DayNumber(d) - DayNumber(WeekStart(d)) >= 5
  {
  }

  lemma MondayPlus(k: int)
    requires 0 <= k <= 6
    ensures DaysSinceMonday((Monday + k) % 7) == k
  {
    if k == 6 {
      assert (Monday + k) % 7 == Sunday;
    } else {
      assert (Monday + k) % 7 == k + 1;
    }
  }

  /** Every date of a week has that week's Monday as its week start. */
  lemma WeekStartOfWeekDay(monday: Date, k: int)
    requires ValidDate(monday) && Weekday(monday) == Monday && 0 <= k <= 6
    ensures WeekStart(AddDays(monday, k)) == monday
  {
    var d := AddDays(monday, k);
    WeekdayShift(monday, k);
    MondayPlus(k);
    DayNumberInjective(WeekStart(d), monday);
  }

  /** The entry form's default date: the Friday before when today is a Monday, yesterday otherwise. */
  function DefaultEntryDate(today: Date): (r: Date)
    requires ValidDate(today)
    ensures ValidDate(r)
    ensures Weekday(today) == Monday ==> DayNumber(r) == DayNumber(today) - 3 && Weekday(r) == Friday
    ensures Weekday(today) != Monday ==> DayNumber(r) == DayNumber(today) - 1
  {
    if Weekday(today) == Monday then
      WeekdayShift(today, -3);
      assert (Monday + -3) % 7 == Friday;
      AddDays(today, -3)
    else AddDays(today, -1)
  }

  /** The default entry date is a weekend day exactly when today is a Sunday. */
  lemma DefaultEntryDateWeekend(today: Date)
    requires ValidDate(today)
    ensures IsWeekend(DefaultEntryDate(today)) <==> Weekday(today) == Sunday
  {
    WeekdayShift(today, -1);
  }

  /** A month selector option is disabled when it lies in the current year after the current month, or in a later year. */
  predicate IsFutureMonth(optionYear: int, optionMonth: int, currentYear: int, currentMonth: int) {
    (optionYear == currentYear && optionMonth > currentMonth) || optionYear > currentYear
  }

  /** The future-month rule is the chronological order of (year, month). */
  lemma FutureMonthIsLater(optionYear: int, optionMonth: int, currentYear: int, currentMonth: int)
    requires 1 <= optionMonth <= 12 && 1 <= currentMonth <= 12
    ensures IsFutureMonth(optionYear, optionMonth, currentYear, currentMonth)
        <==> optionYear * 12 + optionMonth > currentYear * 12 + currentMonth
  {
  }

  /** Some entry of the week lies in the calendar month of the week's start. */
  predicate HasEntryInMonth(weekStart: Date, entryDates: seq<Date>) {
    exists i :: 0 <= i < |entryDates| && entryDates[i].month == weekStart.month
                                       && entryDates[i].year == weekStart.year
  }

  /** The week starting at `weekStart` runs into another month or ends on or after its month's last day. */
  predicate ReachesMonthEnd(weekStart: Date)
    requires ValidDate(weekStart)
  {
    var weekEnd := AddDays(weekStart, 6);
    weekStart.month != weekEnd.month || weekEnd.day >= DaysInMonth(weekStart.year, weekStart.month)
  }

  /** The week header shows the month's red counts when the week has data for its month and reaches the month's end. */
  predicate IsMonthEndWeek(weekStart: Date, entryDates: seq<Date>)
    requires ValidDate(weekStart)
  {
    HasEntryInMonth(weekStart, entryDates) && ReachesMonthEnd(weekStart)
  }

  function LastDayOfMonth(y: int, m: int): (r: Date)
    requires 1 <= m <= 12
    ensures ValidDate(r) && r.year == y && r.month == m
  {
    Date(y, m, DaysInMonth(y, m))
  }

  /** Both halves of the month-end test say one thing: the seven-day week contains the month's last day. */
  lemma ReachesMonthEndContainsLastDay(weekStart: Date)
    requires ValidDate(weekStart)
    ensures ReachesMonthEnd(weekStart) <==>
      DayNumber(LastDayOfMonth(weekStart.year, weekStart.month)) <= DayNumber(weekStart) + 6
  {
    var last := DaysInMonth(weekStart.year, weekStart.month);
    if weekStart.day + 6 <= last {
      AddDaysWithinMonth(weekStart, 6);
    } else {
      AddDaysWithinMonth(weekStart, last - weekStart.day);
      WeekEndInNextMonth(weekStart);
    }
  }

  /**
   * The week header shows the month's red counts exactly when some entry of
   * the week lies in the month of the week's start and the seven days from
   * the start hold that month's last day.
   */
  lemma MonthEndWeekHoldsLastDay(weekStart: Date, entryDates: seq<Date>)
    requires ValidDate(weekStart)
    ensures var last := DayNumber(LastDayOfMonth(weekStart.year, weekStart.month));
            IsMonthEndWeek(weekStart, entryDates) <==>
              && (exists i :: 0 <= i < |entryDates| && entryDates[i].year == weekStart.year
                                                    && entryDates[i].month == weekStart.month)
              && DayNumber(weekStart) <= last <= DayNumber(weekStart) + 6
  {
    ReachesMonthEndContainsLastDay(weekStart);
  }

  /** A week that starts less than seven days before its month's end ends in another month. */
  lemma WeekEndInNextMonth(weekStart: Date)
    requires ValidDate(weekStart) && weekStart.day + 6 > DaysInMonth(weekStart.year, weekStart.month)
    ensures AddDays(weekStart, 6).month != weekStart.month
  {
    var n := DayNumber(weekStart);
    var lastDay := LastDayOfMonth(weekStart.year, weekStart.month);
    var k := lastDay.day - weekStart.day;
    AddDaysWithinMonth(weekStart, k);
    assert DayNumber(lastDay) == n + k;
    var first := NextDay(lastDay);
    NextDayNumber(lastDay);
    assert first.day == 1 && first.month != weekStart.month;
    assert 0 <= k <= 5;
    var weekEnd := Date(first.year, first.month, 6 - k);
    assert DayNumber(weekEnd) == DayNumber(first) + 5 - k;
    DayNumberInjective(AddDays(weekStart, 6), weekEnd);
  }
}
