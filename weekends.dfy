/**
 * The monthly infrastructure-maintenance weekend: the third Saturday/Sunday
 * pair that lies wholly inside a calendar month, the test whether a week
 * contains it, and the test for the Monday that follows it.
 */
module Weekends {
  import opened Wrappers
  import opened Calendar

  /** A weekend as two days of the month: a Saturday and the Sunday after it. */
  datatype WeekendPair = WeekendPair(saturday: int, sunday: int)

  /** A day of month (y, m) is the Saturday of a pair when its next day is still in the month. */
  predicate StartsPair(y: int, m: int, day: int)
    requires 1 <= m <= 12 && 1 <= day <= DaysInMonth(y, m)
  {
    Weekday(Date(y, m, day)) == Saturday && NextDay(Date(y, m, day)).month == m
  }

  /** The pairs whose Saturday is day `from` of the month or later, in day order. */
  function PairsFrom(y: int, m: int, from: int): seq<WeekendPair>
    requires 1 <= m <= 12 && 1 <= from
    decreases DaysInMonth(y, m) + 1 - from
  {
    if from > DaysInMonth(y, m) then []
    else (if StartsPair(y, m, from) then [WeekendPair(from, from + 1)] else []) + PairsFrom(y, m, from + 1)
  }

  /** All weekend pairs of the month, in day order. */
  function WeekendPairs(y: int, m: int): seq<WeekendPair>
    requires 1 <= m <= 12
  {
    PairsFrom(y, m, 1)
  }

  /** The pairs whose Saturday comes before day `upTo` of the month, in day order. */
  function PairsBefore(y: int, m: int, upTo: int): seq<WeekendPair>
    requires 1 <= m <= 12 && 1 <= upTo <= DaysInMonth(y, m) + 1
    decreases upTo
  {
    if upTo == 1 then []
    else PairsBefore(y, m, upTo - 1) + (if StartsPair(y, m, upTo - 1) then [WeekendPair(upTo - 1, upTo)] else [])
  }

  /** The pairs before a day and the pairs from it make up the month's pairs. */
  lemma {:induction false} PairsSplit(y: int, m: int, d: int)
    requires 1 <= m <= 12 && 1 <= d <= DaysInMonth(y, m) + 1
    ensures PairsBefore(y, m, d) + PairsFrom(y, m, d) == WeekendPairs(y, m)
    decreases d
  {
    if d == 1 {
      assert PairsBefore(y, m, d) + PairsFrom(y, m, d) == PairsFrom(y, m, 1);
    } else {
      PairsSplit(y, m, d - 1);
      var step := if StartsPair(y, m, d - 1) then [WeekendPair(d - 1, d)] else [];
      assert PairsFrom(y, m, d - 1) == step + PairsFrom(y, m, d);
      assert PairsBefore(y, m, d) == PairsBefore(y, m, d - 1) + step;
      assert (PairsBefore(y, m, d - 1) + step) + PairsFrom(y, m, d)
          == PairsBefore(y, m, d - 1) + (step + PairsFrom(y, m, d));
    }
  }

  /** The scan of the month for Saturday/Sunday pairs, one day at a time. */
  method CollectWeekendPairs(y: int, m: int) returns (pairs: seq<WeekendPair>)
    requires 1 <= m <= 12
    ensures pairs == WeekendPairs(y, m)
  {
    pairs := [];
    var lastDay := DaysInMonth(y, m);
    var day := 1;
    while day <= lastDay
      invariant 1 <= day <= lastDay + 1
      invariant pairs == PairsBefore(y, m, day)
    {
      var starts := SaturdayWithSunday(y, m, day);
      if starts {
        pairs := pairs + [WeekendPair(day, day + 1)];
      }
      day := day + 1;
    }
    PairsSplit(y, m, day);
    assert PairsFrom(y, m, day) == [];
  }

  /** The scan's test for one day: a Saturday whose next day is still in the month. */
  method SaturdayWithSunday(y: int, m: int, day: int) returns (starts: bool)
    requires 1 <= m <= 12 && 1 <= day <= DaysInMonth(y, m)
    ensures starts == StartsPair(y, m, day)
  {
    starts := false;
    var date := Date(y, m, day);
    if Weekday(date) == Saturday {
      var nextDay := NextDay(date);
      if nextDay.month == m {
        starts := true;
      }
    }
  }

  /** A pair's Sunday is still in the month exactly when the Saturday is not the month's last day. */
  lemma StartsPairInMonth(y: int, m: int, day: int)
    requires 1 <= m <= 12 && 1 <= day <= DaysInMonth(y, m)
    ensures StartsPair(y, m, day) <==> Weekday(Date(y, m, day)) == Saturday && day + 1 <= DaysInMonth(y, m)
  {
  }

  /** The pairs are exactly the in-month Saturday/Sunday pairs from day `from` on. */
  lemma {:induction false} PairsFromMembers(y: int, m: int, from: int, p: WeekendPair)
    requires 1 <= m <= 12 && 1 <= from
    ensures p in PairsFrom(y, m, from) <==>
      && from <= p.saturday && p.saturday + 1 <= DaysInMonth(y, m)
      && p.sunday == p.saturday + 1
      && Weekday(Date(y, m, p.saturday)) == Saturday
    decreases DaysInMonth(y, m) + 1 - from
  {
    if from <= DaysInMonth(y, m) {
      var step := if StartsPair(y, m, from) then [WeekendPair(from, from + 1)] else [];
      assert PairsFrom(y, m, from) == step + PairsFrom(y, m, from + 1);
      StartsPairInMonth(y, m, from);
      PairsFromMembers(y, m, from + 1, p);
      assert p in step <==> StartsPair(y, m, from) && p == WeekendPair(from, from + 1);
    }
  }

  /** Weekdays advance by one per day within a month. */
  lemma WeekdayInMonth(y: int, m: int, j: int)
    requires 1 <= m <= 12 && 1 <= j <= DaysInMonth(y, m)
    ensures Weekday(Date(y, m, j)) == (Weekday(Date(y, m, 1)) + j - 1) % 7
  {
    ModShift(DayNumber(Date(y, m, 1)), j - 1);
  }

  /** Days with no Saturday among them contribute no pair. */
  lemma {:induction false} SkipWeekdays(y: int, m: int, lo: int, hi: int)
    requires 1 <= m <= 12 && 1 <= lo <= hi <= DaysInMonth(y, m) + 1
    requires forall j :: lo <= j < hi ==> Weekday(Date(y, m, j)) != Saturday
    ensures PairsFrom(y, m, lo) == PairsFrom(y, m, hi)
    decreases hi - lo
  {
    if lo < hi {
      SkipWeekdays(y, m, lo + 1, hi);
    }
  }

  /** From a Saturday whose weekend fits, the next pair starts seven days later. */
  lemma PairThenNextWeek(y: int, m: int, s: int)
    requires 1 <= m <= 12 && 1 <= s && s + 8 <= DaysInMonth(y, m)
    requires Weekday(Date(y, m, s)) == Saturday
    ensures PairsFrom(y, m, s) == [WeekendPair(s, s + 1)] + PairsFrom(y, m, s + 7)
  {
    StartsPairInMonth(y, m, s);
    forall j | s + 1 <= j < s + 7
      ensures Weekday(Date(y, m, j)) != Saturday
    {
      WeekdayInMonth(y, m, j);
      WeekdayInMonth(y, m, s);
    }
    SkipWeekdays(y, m, s + 1, s + 7);
  }

  /** The day of the month's first Saturday. */
  function FirstSaturday(y: int, m: int): (s: int)
    requires 1 <= m <= 12
    ensures 1 <= s <= 7 && Weekday(Date(y, m, s)) == Saturday
    ensures forall j :: 1 <= j < s ==> Weekday(Date(y, m, j)) != Saturday
  {
    var s := 1 + (Saturday - Weekday(Date(y, m, 1)) + 7) % 7;
    WeekdayInMonth(y, m, s);
    assert forall j :: 1 <= j < s ==> Weekday(Date(y, m, j)) != Saturday by {
      forall j | 1 <= j < s
        ensures Weekday(Date(y, m, j)) != Saturday
      {
        WeekdayInMonth(y, m, j);
      }
    }
    s
  }

  /** Every month has a third pair, and its Saturday falls on day 15 to 21. */
  lemma ThirdWeekendExists(y: int, m: int)
    requires 1 <= m <= 12
    ensures |WeekendPairs(y, m)| > 2
    ensures WeekendPairs(y, m)[2] == WeekendPair(FirstSaturday(y, m) + 14, FirstSaturday(y, m) + 15)
    ensures 15 <= WeekendPairs(y, m)[2].saturday <= 21
  {
    var s := FirstSaturday(y, m);
    SkipWeekdays(y, m, 1, s);
    PairThenNextWeek(y, m, s);
    WeekdayInMonth(y, m, s);
    WeekdayInMonth(y, m, s + 7);
    PairThenNextWeek(y, m, s + 7);
    WeekdayInMonth(y, m, s + 14);
    StartsPairInMonth(y, m, s + 14);
    assert PairsFrom(y, m, s + 14)[0] == WeekendPair(s + 14, s + 15);
  }

  /** The month's third pair, when it has one ("weekendPairs[2]"). */
  function ThirdWeekend(y: int, m: int): Option<WeekendPair>
    requires 1 <= m <= 12
  {
    var pairs := WeekendPairs(y, m);
    if |pairs| > 2 then Some(pairs[2]) else None
  }

  /** The Saturday of the month's third weekend. */
  function ThirdSaturday(y: int, m: int): (s: int)
    requires 1 <= m <= 12
    ensures 15 <= s <= 21 && Weekday(Date(y, m, s)) == Saturday
    ensures ThirdWeekend(y, m) == Some(WeekendPair(s, s + 1))
  {
    ThirdWeekendExists(y, m);
    WeekdayInMonth(y, m, FirstSaturday(y, m));
    WeekdayInMonth(y, m, FirstSaturday(y, m) + 14);
    WeekendPairs(y, m)[2].saturday
  }

  /** Day number of a day of the month of `d`. */
  function DayNumberInMonth(d: Date, day: int): (n: int)
    requires ValidDate(d) && 1 <= day <= DaysInMonth(d.year, d.month)
    ensures n == DayNumber(d) + day - d.day
  {
    DayNumber(Date(d.year, d.month, day))
  }

  /**
   * The week of seven days starting at `weekStart` contains the Saturday or
   * the Sunday of the third pair of `weekStart`'s month (compared by day
   * number, as the dashboard compares `Date` objects).
   */
  predicate InThirdWeekend(weekStart: Date)
    requires ValidDate(weekStart)
  {
    var weekEnd := AddDays(weekStart, 6);
    var s := ThirdSaturday(weekStart.year, weekStart.month);
    || (DayNumber(weekStart) <= DayNumberInMonth(weekStart, s) <= DayNumber(weekEnd))
    || (DayNumber(weekStart) <= DayNumberInMonth(weekStart, s + 1) <= DayNumber(weekEnd))
  }

  /** The dashboard's isThirdWeekendOfMonth: scan the month, then test the week against the third pair. */
  method IsThirdWeekendOfMonth(weekStart: Date) returns (result: bool)
    requires ValidDate(weekStart)
    ensures result == InThirdWeekend(weekStart)
  {
    var pairs := CollectWeekendPairs(weekStart.year, weekStart.month);
    var weekEnd := AddDays(weekStart, 6);
    result := false;
    if |pairs| > 2 {
      var third := pairs[2];
      ghost var s := ThirdSaturday(weekStart.year, weekStart.month);
      assert third == WeekendPair(s, s + 1);
      var saturday := Date(weekStart.year, weekStart.month, third.saturday);
      var sunday := Date(weekStart.year, weekStart.month, third.sunday);
      result := (DayNumber(saturday) >= DayNumber(weekStart) && DayNumber(saturday) <= DayNumber(weekEnd))
             || (DayNumber(sunday) >= DayNumber(weekStart) && DayNumber(sunday) <= DayNumber(weekEnd));
    }
  }

  /** In days of the month: the week contains the third Saturday or the Sunday after it. */
  lemma InThirdWeekendByDays(weekStart: Date)
    requires ValidDate(weekStart)
    ensures var s := ThirdSaturday(weekStart.year, weekStart.month);
      InThirdWeekend(weekStart) <==>
        (weekStart.day <= s <= weekStart.day + 6) || (weekStart.day <= s + 1 <= weekStart.day + 6)
  {
  }

  /** A Saturday lies five days after a Monday, modulo a whole number of weeks. */
  lemma SaturdayAfterMonday(sat: int, mon: int)
    requires sat % 7 == Saturday && mon % 7 == Monday
    ensures (sat - mon) % 7 == 5
  {
    var q, r := sat / 7, mon / 7;
    assert sat - mon == 7 * (q - r) + 5;
  }

  /** Within one week either way, five days modulo a week is five days. */
  lemma OffsetFive(k: int)
    requires -1 <= k <= 6 && k % 7 == 5
    ensures k == 5
  {
  }

  /** A week that starts on a Monday is the infra week exactly when its Saturday is the third Saturday. */
  lemma MondayWeekInThirdWeekend(weekStart: Date)
    requires ValidDate(weekStart) && Weekday(weekStart) == Monday
    ensures InThirdWeekend(weekStart) <==> weekStart.day + 5 == ThirdSaturday(weekStart.year, weekStart.month)
  {
    var y, m, w := weekStart.year, weekStart.month, weekStart.day;
    var s := ThirdSaturday(y, m);
    InThirdWeekendByDays(weekStart);
    var f := Weekday(Date(y, m, 1));
    WeekdayInMonth(y, m, s);
    WeekdayInMonth(y, m, w);
    assert Date(y, m, w) == weekStart;
    SaturdayAfterMonday(f + s - 1, f + w - 1);
    if (w <= s <= w + 6) || (w <= s + 1 <= w + 6) {
      OffsetFive(s - w);
    }
  }

  /**
   * The Monday after an infra weekend: a Monday whose preceding week (the
   * week starting seven days earlier) contains the third weekend.
   */
  predicate IsMondayAfterInfraWeekend(d: Date)
    requires ValidDate(d)
  {
    Weekday(d) == Monday && InThirdWeekend(AddDays(d, -7))
  }

  /** Seven days before one of the first seven days of a month is late in the previous month. */
  lemma WeekBeforeEarlyDay(d: Date)
    requires ValidDate(d) && d.day <= 7
    ensures AddDays(d, -7).day >= 22
  {
    var first := Date(d.year, d.month, 1);
    var lastPrev := PrevDay(first);
    PrevDayNumber(first);
    assert lastPrev.day >= 28;
    AddDaysWithinMonth(lastPrev, d.day - 7);
    DayNumberInjective(AddDays(d, -7), AddDays(lastPrev, d.day - 7));
  }

  lemma MondayWeekBefore(d: Date)
    requires ValidDate(d) && Weekday(d) == Monday
    ensures Weekday(AddDays(d, -7)) == Monday
  {
    WeekdayShift(d, -7);
    assert (Monday + -7) % 7 == Monday;
  }

  lemma InfraMondayLateInMonth(d: Date)
    requires ValidDate(d) && Weekday(d) == Monday && d.day > 7
    ensures IsMondayAfterInfraWeekend(d) <==> d.day == ThirdSaturday(d.year, d.month) + 2
  {
    MondayWeekBefore(d);
    AddDaysWithinMonth(d, -7);
    MondayWeekInThirdWeekend(AddDays(d, -7));
  }

  lemma InfraMondayEarlyInMonth(d: Date)
    requires ValidDate(d) && Weekday(d) == Monday && d.day <= 7
    ensures !IsMondayAfterInfraWeekend(d)
  {
    MondayWeekBefore(d);
    WeekBeforeEarlyDay(d);
    MondayWeekInThirdWeekend(AddDays(d, -7));
  }

  /** The infra Monday is the Monday right after the month's third weekend, on day 17 to 23. */
  lemma InfraMondayIsAfterThirdWeekend(d: Date)
    requires ValidDate(d)
    ensures IsMondayAfterInfraWeekend(d) <==>
      Weekday(d) == Monday && d.day == ThirdSaturday(d.year, d.month) + 2
    ensures IsMondayAfterInfraWeekend(d) ==> 17 <= d.day <= 23
  {
    if Weekday(d) == Monday {
      if d.day > 7 {
        InfraMondayLateInMonth(d);
      } else {
        InfraMondayEarlyInMonth(d);
      }
    }
  }
}
