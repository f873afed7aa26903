/**
 * The time-based service-level colours of the dashboard: the per-application
 * bands on minutes after midnight, the Monday rule for PRC mail, and how an
 * entry row turns the colour and an explicit status into a badge.
 */
module Sla {
  import opened Wrappers
  import opened Calendar
  import opened Weekends
  import opened TimeText

  datatype Status = Green | Yellow | Red

  /** The severity order `{Green: 1, Yellow: 2, Red: 3}`. */
  function Rank(s: Status): (n: nat)
    ensures 1 <= n <= 3
  {
    match s
    case Green => 1
    case Yellow => 2
    case Red => 3
  }

  /** The ranks order the colours Green below Yellow below Red, so no two colours share a rank. */
  lemma RankOrder(a: Status, b: Status)
    ensures Rank(Green) < Rank(Yellow) < Rank(Red)
    ensures Rank(a) == Rank(b) ==> a == b
  {
  }

  /** The colour's name, which is also the CSS class suffix of a badge. */
  function StatusName(s: Status): string {
    match s
    case Green => "Green"
    case Yellow => "Yellow"
    case Red => "Red"
  }

  const NineAM := 9 * 60
  const ElevenAM := 11 * 60
  const FourPM := 16 * 60
  const SixPM := 18 * 60

  /** Green before `yellowFrom`, Yellow up to and including `redAfter`, Red after. */
  function Band(t: int, yellowFrom: int, redAfter: int): Status {
    if t < yellowFrom then Green
    else if t <= redAfter then Yellow
    else Red
  }

  /** The CVAR ALL rules: Green before 9:00, Yellow 9:00-11:00, Red after 11:00. */
  function CvarAllBand(t: int): Status {
    Band(t, NineAM, ElevenAM)
  }

  /** The CVAR NYQ rules: Green before 16:00, Yellow 16:00-18:00, Red after 18:00. */
  function NyqBand(t: int): Status {
    Band(t, FourPM, SixPM)
  }

  /** `rank[a] >= rank[b] ? a : b`. */
  function Worse(a: Status, b: Status): (r: Status)
    ensures r == a || r == b
    ensures Rank(r) >= Rank(a) && Rank(r) >= Rank(b)
  {
    if Rank(a) >= Rank(b) then a else b
  }

  /**
   * `getTimeBasedColorForApplication`: CVAR ALL's worst-of comes down to its
   * own band, CVAR NYQ has the 16:00/18:00 band, everything else is Green.
   */
  function ColorForApplication(t: int, application: string): (r: Status)
    ensures application == "CVAR ALL" ==> r == CvarAllBand(t)
    ensures application == "CVAR NYQ" ==> r == NyqBand(t)
    ensures application != "CVAR ALL" && application != "CVAR NYQ" ==> r == Green
  {
    NyqNeverWorseThanAll(t);
    if application == "CVAR ALL" then Worse(CvarAllBand(t), NyqBand(t))
    else if application == "CVAR NYQ" then NyqBand(t)
    else if application == "XVA" then Green
    else Green
  }

  /** A band never gets better as the time gets later. */
  lemma BandMonotone(t1: int, t2: int, yellowFrom: int, redAfter: int)
    requires t1 <= t2
    ensures Rank(Band(t1, yellowFrom, redAfter)) <= Rank(Band(t2, yellowFrom, redAfter))
  {
  }

  /** The NYQ rules never rate a time worse than the CVAR ALL rules do. */
  lemma NyqNeverWorseThanAll(t: int)
    ensures Rank(NyqBand(t)) <= Rank(CvarAllBand(t))
  {
  }

  /** So for CVAR ALL the worst-of comparison always picks the CVAR ALL band. */
  lemma CvarAllIsItsOwnBand(t: int)
    ensures ColorForApplication(t, "CVAR ALL") == CvarAllBand(t)
    ensures ColorForApplication(t, "CVAR ALL") == Green <==> t < 540
    ensures ColorForApplication(t, "CVAR ALL") == Yellow <==> 540 <= t <= 660
    ensures ColorForApplication(t, "CVAR ALL") == Red <==> t > 660
  {
    NyqNeverWorseThanAll(t);
  }

  lemma NyqThresholds(t: int)
    ensures ColorForApplication(t, "CVAR NYQ") == Green <==> t < 960
    ensures ColorForApplication(t, "CVAR NYQ") == Yellow <==> 960 <= t <= 1080
    ensures ColorForApplication(t, "CVAR NYQ") == Red <==> t > 1080
  {
  }

  /** XVA and every application without rules are always Green. */
  lemma OtherApplicationsGreen(t: int, application: string)
    requires application != "CVAR ALL" && application != "CVAR NYQ"
    ensures ColorForApplication(t, application) == Green
  {
  }

  /** For every application, a later time is never a better colour. */
  lemma ColorMonotone(t1: int, t2: int, application: string)
    requires t1 <= t2
    ensures Rank(ColorForApplication(t1, application)) <= Rank(ColorForApplication(t2, application))
  {
    BandMonotone(t1, t2, NineAM, ElevenAM);
    BandMonotone(t1, t2, FourPM, SixPM);
    NyqNeverWorseThanAll(t1);
    NyqNeverWorseThanAll(t2);
  }

  /** `getTimeBasedColor`: the colour of a free-text time entered for a field on a date. */
  function TimeBasedColor(timeText: string, date: Date, application: string, fieldType: string): (r: Status)
    requires ValidDate(date)
    ensures MatchTime(timeText).None? ==> r == Green
    ensures Weekday(date) == Monday && fieldType == "prc_mail" && !IsMondayAfterInfraWeekend(date) ==> r == Green
    ensures r != Green ==> application == "CVAR ALL" || application == "CVAR NYQ"
  {
    var isMonday := Weekday(date) == Monday;
    var isMondayAfterInfra := IsMondayAfterInfraWeekend(date);
    match MatchTime(timeText)
    case None => Green
    case Some(m) =>
      var t := TimeInMinutes(m);
      if isMonday && fieldType == "prc_mail" then
        if isMondayAfterInfra then ColorForApplication(t, application) else Green
      else if isMonday && fieldType == "cp_alerts" then ColorForApplication(t, application)
      else ColorForApplication(t, application)
  }

  /** Text without a `\d{1,2}:\d{2}` in it is Green. */
  lemma UnreadableTimeIsGreen(timeText: string, date: Date, application: string, fieldType: string)
    requires ValidDate(date)
    requires forall j :: 0 <= j <= |timeText| ==> !ShapeAt(timeText, j)
    ensures TimeBasedColor(timeText, date, application, fieldType) == Green
  {
    NoMatchIffNoShape(timeText);
  }

  /** PRC mail on an ordinary Monday is Green whatever the time. */
  lemma MondayPrcMailExempt(timeText: string, date: Date, application: string)
    requires ValidDate(date) && Weekday(date) == Monday && !IsMondayAfterInfraWeekend(date)
    ensures TimeBasedColor(timeText, date, application, "prc_mail") == Green
  {
  }

  /**
   * Apart from PRC mail on an ordinary Monday, the colour is the
   * application's band at the time read from the text.
   */
  lemma TimeBasedColorFollowsBands(timeText: string, date: Date, application: string, fieldType: string)
    requires ValidDate(date)
    requires !(Weekday(date) == Monday && fieldType == "prc_mail" && !IsMondayAfterInfraWeekend(date))
    ensures TimeBasedColor(timeText, date, application, fieldType)
            == match MatchTime(timeText)
               case None => Green
               case Some(m) => ColorForApplication(TimeInMinutes(m), application)
  {
  }

  /**
   * The Monday exemption is lifted exactly on the Monday two days after the
   * third Saturday of the month: a late PRC mail that day is rated as usual.
   */
  lemma InfraMondayPrcMail(timeText: string, date: Date, application: string)
    requires ValidDate(date) && Weekday(date) == Monday
    requires date.day == ThirdSaturday(date.year, date.month) + 2
    ensures TimeBasedColor(timeText, date, application, "prc_mail")
            == TimeBasedColor(timeText, date, application, "cp_alerts")
  {
    InfraMondayIsAfterThirdWeekend(date);
  }

  /** Worked readings on any day other than a Monday, for any field. */
  lemma WeekdayExamples(date: Date, fieldType: string)
    requires ValidDate(date) && Weekday(date) != Monday
    ensures TimeBasedColor("09:30", date, "CVAR NYQ", fieldType) == Green
    ensures TimeBasedColor("16:30", date, "CVAR NYQ", fieldType) == Yellow
    ensures TimeBasedColor("18:30", date, "CVAR NYQ", fieldType) == Red
  {
    assert Clock(9, 30) == "09:30";
    ClockRoundTrip(9, 30);
    assert Clock(16, 30) == "16:30";
    ClockRoundTrip(16, 30);
    assert Clock(18, 30) == "18:30";
    ClockRoundTrip(18, 30);
  }

  /** The later CVAR ALL cut-off, and a 12-hour reading, on any day other than a Monday. */
  lemma WeekdayExamplesMore(date: Date, fieldType: string)
    requires ValidDate(date) && Weekday(date) != Monday
    ensures TimeBasedColor("10:00", date, "CVAR ALL", fieldType) == Yellow
    ensures TimeBasedColor("4:15 pm", date, "CVAR NYQ", fieldType) == Yellow
  {
    assert Clock(10, 0) == "10:00";
    ClockRoundTrip(10, 0);
    assert [TwoDigits(4)[1]] + ":" + TwoDigits(15) + " " + "pm" == "4:15 pm";
    SuffixRead(4, 15, "pm", PM);
  }

  /** A rendered status cell: either `N/A` or a badge with the CSS colour class it carries. */
  datatype Badge = NotApplicable | Shown(colorClass: string)

  /** The first `createEntryRow`: the explicit status wins, else the time colour. */
  function PreferredColor(explicitStatus: string, timeColor: Status): string {
    if explicitStatus != "" then explicitStatus else StatusName(timeColor)
  }

  /** The first `createEntryRow`'s badge: drawn only when an explicit status is set. */
  function OriginalBadge(explicitStatus: string, timeColor: Status): Badge {
    if explicitStatus != "" then Shown(PreferredColor(explicitStatus, timeColor)) else NotApplicable
  }

  /** The replacing `createEntryRow`'s badge: the time colour, drawn only when an explicit status is set. */
  function OverrideBadge(explicitStatus: string, timeColor: Status): Badge {
    if explicitStatus != "" then Shown(StatusName(timeColor)) else NotApplicable
  }

  lemma PreferredColorPrecedence(explicitStatus: string, timeColor: Status)
    ensures explicitStatus != "" ==> PreferredColor(explicitStatus, timeColor) == explicitStatus
    ensures explicitStatus == "" ==> PreferredColor(explicitStatus, timeColor) == StatusName(timeColor)
  {
  }

  /** In the first row the time colour can never reach the badge: any badge shows the explicit status. */
  lemma OriginalBadgeShowsStatus(explicitStatus: string, timeColor: Status)
    ensures OriginalBadge(explicitStatus, timeColor).Shown? <==> explicitStatus != ""
    ensures OriginalBadge(explicitStatus, timeColor).Shown? ==> OriginalBadge(explicitStatus, timeColor).colorClass == explicitStatus
  {
  }

  /**
   * The row in effect shows a badge in the same cases, but coloured by the
   * time alone; the two rows agree exactly when the status names the time colour.
   */
  lemma OverrideBadgeShowsTimeColor(explicitStatus: string, timeColor: Status)
    ensures OverrideBadge(explicitStatus, timeColor).Shown? <==> OriginalBadge(explicitStatus, timeColor).Shown?
    ensures OverrideBadge(explicitStatus, timeColor).Shown? ==> OverrideBadge(explicitStatus, timeColor).colorClass == StatusName(timeColor)
    ensures OverrideBadge(explicitStatus, timeColor) == OriginalBadge(explicitStatus, timeColor)
            <==> explicitStatus == "" || explicitStatus == StatusName(timeColor)
  {
  }
}
