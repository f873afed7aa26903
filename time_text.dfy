/**
 * The lenient time reading used by the time-based colours: the first
 * `(\d{1,2}):(\d{2})\s*(AM|PM)?` match in a free-text field (case-insensitive),
 * converted to minutes after midnight.
 */
module TimeText {
  import opened Wrappers
  import opened Text

  datatype Meridiem = NoMeridiem | AM | PM

  /** The captured groups of one match: hour digits, minute digits, optional suffix. */
  datatype TimeMatch = TimeMatch(hour: nat, minute: nat, meridiem: Meridiem)

  predicate DigitAt(s: string, i: int) {
    0 <= i < |s| && IsDigit(s[i])
  }

  /** `\d{2}:\d{2}` starts at position i. */
  predicate LongShapeAt(s: string, i: int) {
    DigitAt(s, i) && DigitAt(s, i + 1) && i + 2 < |s| && s[i + 2] == ':' && DigitAt(s, i + 3) && DigitAt(s, i + 4)
  }

  /** `\d:\d{2}` starts at position i. */
  predicate ShortShapeAt(s: string, i: int) {
    DigitAt(s, i) && i + 1 < |s| && s[i + 1] == ':' && DigitAt(s, i + 2) && DigitAt(s, i + 3)
  }

  /** Some substring starting at i matches `\d{1,2}:\d{2}`. */
  predicate ShapeAt(s: string, i: int) {
    LongShapeAt(s, i) || ShortShapeAt(s, i)
  }

  /** Position of the first character after the white space that starts at j. */
  function SkipSpace(s: string, j: nat): (k: nat)
    requires j <= |s|
    ensures j <= k <= |s|
    ensures forall i :: j <= i < k ==> IsJsSpace(s[i])
    ensures k == |s| || !IsJsSpace(s[k])
    decreases |s| - j
  {
    if j < |s| && IsJsSpace(s[j]) then SkipSpace(s, j + 1) else j
  }

  /** The optional `AM`/`PM` group, in any letter case, right after the white space. */
  function SuffixAt(s: string, j: nat): Meridiem
    requires j <= |s|
  {
    var k := SkipSpace(s, j);
    if k + 1 < |s| && (s[k + 1] == 'm' || s[k + 1] == 'M') then
      if s[k] == 'a' || s[k] == 'A' then AM
      else if s[k] == 'p' || s[k] == 'P' then PM
      else NoMeridiem
    else NoMeridiem
  }

  /**
   * The match that starts at position i, if any. The greedy `\d{1,2}` first
   * tries two digits; when that fails it backtracks to one digit.
   */
  function MatchAt(s: string, i: nat): (r: Option<TimeMatch>)
    ensures r.Some? <==> ShapeAt(s, i)
    ensures r.Some? ==> r.value.hour <= 99 && r.value.minute <= 99
  {
    if LongShapeAt(s, i) then
      Some(TimeMatch(DigitValue(s[i]) * 10 + DigitValue(s[i + 1]),
                     DigitValue(s[i + 3]) * 10 + DigitValue(s[i + 4]),
                     SuffixAt(s, i + 5)))
    else if ShortShapeAt(s, i) then
      Some(TimeMatch(DigitValue(s[i]),
                     DigitValue(s[i + 2]) * 10 + DigitValue(s[i + 3]),
                     SuffixAt(s, i + 4)))
    else None
  }

  /** The leftmost match at or after position i. */
  function FirstMatchFrom(s: string, i: nat): (r: Option<TimeMatch>)
    ensures r.Some? ==> r.value.hour <= 99 && r.value.minute <= 99
    ensures r.None? ==> !ShapeAt(s, i)
    decreases |s| + 1 - i
  {
    if i > |s| then None
    else match MatchAt(s, i)
      case Some(m) => Some(m)
      case None => FirstMatchFrom(s, i + 1)
  }

  /**
   * `timeText.match(...)`: the leftmost match in the text. Hour and minute are
   * two-digit groups at most; a text that starts with the shape always yields
   * a time.
   */
  function MatchTime(s: string): (r: Option<TimeMatch>)
    ensures r.Some? ==> r.value.hour <= 99 && r.value.minute <= 99
    ensures ShapeAt(s, 0) ==> r == MatchAt(s, 0)
  {
    FirstMatchFrom(s, 0)
  }

  /** The hour after the 12-hour conversion and the `24:00` rule. */
  function Hour24(m: TimeMatch): nat {
    match m.meridiem
    case PM => if m.hour != 12 then m.hour + 12 else m.hour
    case AM => if m.hour == 12 then 0 else m.hour
    case NoMeridiem => if m.hour == 24 then 0 else m.hour
  }

  /** `hour * 60 + minute`; the minutes are not range-checked. */
  function TimeInMinutes(m: TimeMatch): nat {
    Hour24(m) * 60 + m.minute
  }

  lemma {:induction false} FirstMatchFromNone(s: string, i: nat)
    ensures FirstMatchFrom(s, i) == None <==> forall j :: i <= j <= |s| ==> !ShapeAt(s, j)
    decreases |s| + 1 - i
  {
    if i <= |s| {
      FirstMatchFromNone(s, i + 1);
    }
  }

  lemma {:induction false} FirstMatchFromIsLeftmost(s: string, i: nat)
    requires FirstMatchFrom(s, i).Some?
    ensures exists j :: i <= j <= |s| && ShapeAt(s, j) && FirstMatchFrom(s, i) == MatchAt(s, j)
                        && forall k :: i <= k < j ==> !ShapeAt(s, k)
    decreases |s| + 1 - i
  {
    if MatchAt(s, i).None? {
      FirstMatchFromIsLeftmost(s, i + 1);
      var j :| i + 1 <= j <= |s| && ShapeAt(s, j) && FirstMatchFrom(s, i + 1) == MatchAt(s, j)
               && forall k :: i + 1 <= k < j ==> !ShapeAt(s, k);
      assert forall k :: i <= k < j ==> !ShapeAt(s, k);
    } else {
      assert ShapeAt(s, i);
    }
  }

  /** The text yields no time exactly when no substring has the shape `\d{1,2}:\d{2}`. */
  lemma NoMatchIffNoShape(s: string)
    ensures MatchTime(s) == None <==> forall j :: 0 <= j <= |s| ==> !ShapeAt(s, j)
  {
    FirstMatchFromNone(s, 0);
  }

  /** When a time is found, it is the match at the leftmost position having the shape. */
  lemma MatchIsLeftmost(s: string)
    requires MatchTime(s).Some?
    ensures exists j :: 0 <= j <= |s| && ShapeAt(s, j) && MatchTime(s) == MatchAt(s, j)
                        && forall k :: 0 <= k < j ==> !ShapeAt(s, k)
  {
    FirstMatchFromIsLeftmost(s, 0);
  }

  /**
   * With a suffix, a 12-hour reading 1..12 becomes the usual 24-hour hour:
   * `h mod 12`, plus 12 after noon.
   */
  lemma TwelveHourClock(m: TimeMatch)
    requires 1 <= m.hour <= 12 && m.meridiem != NoMeridiem
    ensures Hour24(m) == m.hour % 12 + (if m.meridiem == PM then 12 else 0)
    ensures Hour24(m) <= 23
  {
  }

  /** Without a suffix an hour 0..24 is read on the 24-hour clock, with `24` as midnight. */
  lemma TwentyFourHourClock(m: TimeMatch)
    requires m.hour <= 24 && m.meridiem == NoMeridiem
    ensures Hour24(m) == m.hour % 24
  {
  }

  /** Out-of-range readings pass through: `13 PM` is hour 25 and `7:99` is minute 99. */
  lemma OutOfRangeReadings()
    ensures Hour24(TimeMatch(13, 0, PM)) == 25
    ensures TimeInMinutes(TimeMatch(7, 99, NoMeridiem)) == 519
  {
  }

  /** Two digits of a number below 100, with a leading zero. */
  function TwoDigits(n: nat): (r: string)
    requires n < 100
    ensures |r| == 2 && IsDigit(r[0]) && IsDigit(r[1])
    ensures DigitValue(r[0]) * 10 + DigitValue(r[1]) == n
  {
    [((n / 10) + ('0' as int)) as char, ((n % 10) + ('0' as int)) as char]
  }

  /** `HH:MM` with two-digit fields. */
  function Clock(h: nat, m: nat): (r: string)
    requires h < 100 && m < 100
    ensures |r| == 5
  {
    TwoDigits(h) + ":" + TwoDigits(m)
  }

  /** Reading back a written `HH:MM` time gives its hour and minute, so its minutes after midnight. */
  lemma ClockRoundTrip(h: nat, m: nat)
    requires h <= 23 && m <= 59
    ensures MatchTime(Clock(h, m)) == Some(TimeMatch(h, m, NoMeridiem))
    ensures TimeInMinutes(TimeMatch(h, m, NoMeridiem)) == h * 60 + m
  {
    var s := Clock(h, m);
    assert LongShapeAt(s, 0);
    assert SkipSpace(s, 5) == 5;
  }

  /** A 12-hour reading `H:MM AM` or `H:MM pm` is picked up with its suffix. */
  lemma SuffixRead(h: nat, m: nat, suffix: string, meridiem: Meridiem)
    requires 1 <= h <= 9 && m <= 59
    requires (suffix in ["AM", "am", "Am", "aM"] && meridiem == AM) || (suffix in ["PM", "pm", "Pm", "pM"] && meridiem == PM)
    ensures MatchTime([TwoDigits(h)[1]] + ":" + TwoDigits(m) + " " + suffix) == Some(TimeMatch(h, m, meridiem))
  {
    var s := [TwoDigits(h)[1]] + ":" + TwoDigits(m) + " " + suffix;
    assert !LongShapeAt(s, 0);
    assert ShortShapeAt(s, 0);
    assert SkipSpace(s, 5) == 5 by {
      assert SkipSpace(s, 4) == SkipSpace(s, 5);
    }
    assert s[5..] == suffix;
  }
}
