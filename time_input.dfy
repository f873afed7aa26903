/**
 * The time text boxes of the entry form. While the user types, the box is
 * reduced to digits and a colon is inserted (`formatTimeInput`); when the box
 * loses focus its text must be a strict 24-hour `H:MM`/`HH:MM` time, or it is
 * cleared (`validateTimeInput`).
 */
module TimeInput {
  import opened Wrappers
  import opened Text
  import opened TimeText

  /** `value.replace(/\D/g, '')`: the ASCII digits of `s`, in order. */
  function OnlyDigits(s: string): (r: string)
    ensures |r| <= |s|
    ensures forall i :: 0 <= i < |r| ==> IsDigit(r[i])
    decreases |s|
  {
    if |s| == 0 then []
    else (if IsDigit(s[0]) then [s[0]] else []) + OnlyDigits(s[1..])
  }

  /** The text of the box after `formatTimeInput`. */
  function FormatTime(s: string): (r: string)
    ensures |r| <= 5
    ensures |OnlyDigits(s)| < 2 ==> r == OnlyDigits(s)
  {
    var d := OnlyDigits(s);
    if |d| >= 3 then
      if |d| == 3 then d[..1] + ":" + d[1..] else d[..2] + ":" + d[2..4]
    else if |d| == 2 then d + ":"
    else d
  }

  function CountChar(s: string, c: char): nat
    decreases |s|
  {
    if |s| == 0 then 0 else (if s[0] == c then 1 else 0) + CountChar(s[1..], c)
  }

  lemma {:induction false} OnlyDigitsConcat(a: string, b: string)
    ensures OnlyDigits(a + b) == OnlyDigits(a) + OnlyDigits(b)
    decreases |a|
  {
    if |a| > 0 {
      assert (a + b)[1..] == a[1..] + b;
      OnlyDigitsConcat(a[1..], b);
    } else {
      assert a + b == b;
    }
  }

  lemma {:induction false} OnlyDigitsOfDigits(s: string)
    requires forall i :: 0 <= i < |s| ==> IsDigit(s[i])
    ensures OnlyDigits(s) == s
    decreases |s|
  {
    if |s| > 0 {
      OnlyDigitsOfDigits(s[1..]);
    }
  }

  lemma {:induction false} CountCharConcat(a: string, b: string, c: char)
    ensures CountChar(a + b, c) == CountChar(a, c) + CountChar(b, c)
    decreases |a|
  {
    if |a| > 0 {
      assert (a + b)[1..] == a[1..] + b;
      CountCharConcat(a[1..], b, c);
    } else {
      assert a + b == b;
    }
  }

  lemma {:induction false} CountCharNone(s: string, c: char)
    requires forall i :: 0 <= i < |s| ==> s[i] != c
    ensures CountChar(s, c) == 0
    decreases |s|
  {
    if |s| > 0 {
      CountCharNone(s[1..], c);
    }
  }

  /** Reducing digits, a colon and digits to digits drops just the colon. */
  lemma DigitsAroundColon(a: string, b: string)
    requires forall i :: 0 <= i < |a| ==> IsDigit(a[i])
    requires forall i :: 0 <= i < |b| ==> IsDigit(b[i])
    ensures OnlyDigits(a + ":" + b) == a + b
  {
    OnlyDigitsConcat(a + ":", b);
    OnlyDigitsConcat(a, ":");
    OnlyDigitsOfDigits(a);
    OnlyDigitsOfDigits(b);
    assert OnlyDigits(":") == [];
    assert OnlyDigits(a + ":") == a;
  }

  /** The digits kept by formatting are the first four digits the user typed. */
  lemma FormatKeepsLeadingDigits(s: string)
    ensures OnlyDigits(FormatTime(s)) == OnlyDigits(s)[..if |OnlyDigits(s)| < 4 then |OnlyDigits(s)| else 4]
  {
    var d := OnlyDigits(s);
    if |d| == 3 {
      DigitsAroundColon(d[..1], d[1..]);
      assert d[..1] + d[1..] == d;
    } else if |d| > 3 {
      DigitsAroundColon(d[..2], d[2..4]);
      assert d[..2] + d[2..4] == d[..4];
    } else if |d| == 2 {
      DigitsAroundColon(d, "");
      assert d + ":" + "" == d + ":";
      assert d + "" == d;
    } else {
      OnlyDigitsOfDigits(d);
    }
  }

  /** The formatted text holds at most four digits, at most one colon and at most five characters. */
  lemma FormatShape(s: string)
    ensures |FormatTime(s)| <= 5
    ensures |OnlyDigits(FormatTime(s))| <= 4
    ensures CountChar(FormatTime(s), ':') <= 1
    ensures forall i :: 0 <= i < |FormatTime(s)| ==> IsDigit(FormatTime(s)[i]) || FormatTime(s)[i] == ':'
  {
    FormatKeepsLeadingDigits(s);
    var d := OnlyDigits(s);
    if |d| == 3 {
      CountCharConcat(d[..1] + ":", d[1..], ':');
      CountCharConcat(d[..1], ":", ':');
      CountCharNone(d[..1], ':');
      CountCharNone(d[1..], ':');
    } else if |d| > 3 {
      CountCharConcat(d[..2] + ":", d[2..4], ':');
      CountCharConcat(d[..2], ":", ':');
      CountCharNone(d[..2], ':');
      CountCharNone(d[2..4], ':');
    } else if |d| == 2 {
      CountCharConcat(d, ":", ':');
      CountCharNone(d, ':');
    } else {
      CountCharNone(d, ':');
    }
  }

  /** A colon is written exactly once at least two digits have been typed. */
  lemma FormatColon(s: string)
    ensures ':' in FormatTime(s) <==> |OnlyDigits(s)| >= 2
  {
    var d := OnlyDigits(s);
    assert !IsDigit(':');
    assert ':' !in d;
    if |d| >= 3 {
      var k := if |d| == 3 then 1 else 2;
      assert FormatTime(s)[k] == ':';
    } else if |d| == 2 {
      assert FormatTime(s)[2] == ':';
    }
  }

  /** Formatting an already formatted box changes nothing. */
  lemma FormatIdempotent(s: string)
    ensures FormatTime(FormatTime(s)) == FormatTime(s)
  {
    FormatKeepsLeadingDigits(s);
    var d := OnlyDigits(s);
    var e := OnlyDigits(FormatTime(s));
    if |d| > 3 {
      assert e == d[..4];
      assert e[..2] == d[..2] && e[2..4] == d[2..4];
    } else {
      assert e == d;
    }
  }

  /** Four typed digits become `HH:MM`, three become `H:MM`. */
  lemma FormatDigits(s: string)
    requires forall i :: 0 <= i < |s| ==> IsDigit(s[i])
    ensures |s| >= 4 ==> FormatTime(s) == s[..2] + ":" + s[2..4]
    ensures |s| == 3 ==> FormatTime(s) == s[..1] + ":" + s[1..]
  {
    OnlyDigitsOfDigits(s);
  }

  /** `2[0-3]`, `[0-1]?[0-9]`: the hour group of the strict format. */
  predicate StrictHourText(h: string) {
    || (|h| == 1 && IsDigit(h[0]))
    || (|h| == 2 && (h[0] == '0' || h[0] == '1') && IsDigit(h[1]))
    || (|h| == 2 && h[0] == '2' && '0' <= h[1] <= '3')
  }

  /** `[0-5][0-9]`: the minute group of the strict format. */
  predicate StrictMinuteText(m: string) {
    |m| == 2 && '0' <= m[0] <= '5' && IsDigit(m[1])
  }

  /**
   * `/^([0-1]?[0-9]|2[0-3]):([0-5][0-9])$/` on `s`: the position of the colon
   * when the whole text matches.
   */
  function StrictColon(s: string): (r: Option<nat>)
    ensures r.Some? ==> r.value < |s| && s[r.value] == ':'
                        && StrictHourText(s[..r.value]) && StrictMinuteText(s[r.value + 1..])
  {
    if |s| == 4 && StrictHourText(s[..1]) && s[1] == ':' && StrictMinuteText(s[2..]) then Some(1)
    else if |s| == 5 && StrictHourText(s[..2]) && s[2] == ':' && StrictMinuteText(s[3..]) then Some(2)
    else None
  }

  /** Every way of writing the whole text as hour group, colon, minute group is found. */
  lemma StrictColonComplete(s: string, p: nat)
    requires p < |s| && s[p] == ':' && StrictHourText(s[..p]) && StrictMinuteText(s[p + 1..])
    ensures StrictColon(s) == Some(p)
  {
  }

  /** The hour and minute a strict time spells are in range, so the later range checks never fire. */
  lemma StrictTimeInRange(s: string)
    requires StrictColon(s).Some?
    ensures DecimalValue(s[..StrictColon(s).value]) <= 23
    ensures DecimalValue(s[StrictColon(s).value + 1..]) <= 59
  {
    var p := StrictColon(s).value;
    var h := s[..p];
    var m := s[p + 1..];
    DecimalValueTwo(m);
    if |h| == 2 {
      DecimalValueTwo(h);
    } else {
      DecimalValueOne(h);
    }
  }

  /** Every hour 0..23 and minute 0..59 written as `HH:MM` passes the strict format. */
  lemma StrictAcceptsClock(h: nat, m: nat)
    requires h <= 23 && m <= 59
    ensures StrictColon(Clock(h, m)) == Some(2)
  {
    var s := Clock(h, m);
    assert s[..2] == TwoDigits(h) && s[3..] == TwoDigits(m);
  }

  /** A strict time is read by the lenient pattern as the same hour and minute, with no suffix. */
  lemma StrictIsLenient(s: string)
    requires StrictColon(s).Some?
    ensures MatchTime(s).Some?
    ensures MatchTime(s).value.meridiem == NoMeridiem
    ensures MatchTime(s).value.hour == DecimalValue(s[..StrictColon(s).value])
    ensures MatchTime(s).value.minute == DecimalValue(s[StrictColon(s).value + 1..])
  {
    var p := StrictColon(s).value;
    var h := s[..p];
    var m := s[p + 1..];
    DecimalValueTwo(m);
    if p == 2 {
      DecimalValueTwo(h);
      assert LongShapeAt(s, 0);
      assert SkipSpace(s, 5) == 5;
    } else {
      DecimalValueOne(h);
      assert !LongShapeAt(s, 0);
      assert ShortShapeAt(s, 0);
      assert SkipSpace(s, 4) == 4;
    }
  }

  /** The lenient reading accepts texts the strict check clears. */
  lemma LenientAcceptsMore()
    ensures MatchTime("24:00") == Some(TimeMatch(24, 0, NoMeridiem)) && StrictColon("24:00") == None
    ensures MatchTime("7:99") == Some(TimeMatch(7, 99, NoMeridiem)) && StrictColon("7:99") == None
  {
    assert LongShapeAt("24:00", 0);
    assert SkipSpace("24:00", 5) == 5;
    assert !LongShapeAt("7:99", 0) && ShortShapeAt("7:99", 0);
    assert SkipSpace("7:99", 4) == 4;
  }

  /**
   * The text of the box after `validateTimeInput`: blank text is left as it
   * is, a strict time is kept untrimmed, anything else is cleared.
   */
  function ValidatedTime(s: string): (r: string)
    ensures Trim(r) == [] || StrictColon(Trim(r)).Some?
  {
    var t := Trim(s);
    assert Trim("") == [];
    if t == [] || StrictColon(t).Some? then s else ""
  }

  /** Validation keeps the text or clears it, and what it keeps is blank or a strict time once trimmed. */
  lemma ValidatedTimeKeepsOrClears(s: string)
    ensures ValidatedTime(s) == s || ValidatedTime(s) == ""
    ensures ValidatedTime(s) == s <==> Trim(s) == [] || StrictColon(Trim(s)).Some?
    ensures Trim(ValidatedTime(s)) == [] || StrictColon(Trim(ValidatedTime(s))).Some?
  {
    if Trim(s) != [] && StrictColon(Trim(s)).None? {
      assert Trim("") == [];
    }
  }

  /** Validating twice is validating once. */
  lemma ValidatedTimeIdempotent(s: string)
    ensures ValidatedTime(ValidatedTime(s)) == ValidatedTime(s)
  {
    assert Trim("") == [];
  }

  /** One time text box of the entry form. */
  class TimeField {
    var value: string

    constructor(initial: string)
      ensures value == initial
    {
      value := initial;
    }

    /** `formatTimeInput`: reformat the box as the user types. */
    method Format()
      modifies this
      ensures value == FormatTime(old(value))
    {
      var digits := OnlyDigits(value);
      if |digits| >= 3 {
        if |digits| == 3 {
          digits := digits[..1] + ":" + digits[1..];
        } else {
          digits := digits[..2] + ":" + digits[2..4];
        }
      } else if |digits| == 2 {
        digits := digits + ":";
      }
      value := digits;
    }

    /** `validateTimeInput`: clear the box unless it is blank or a strict 24-hour time. */
    method Validate()
      modifies this
      ensures value == ValidatedTime(old(value))
    {
      var trimmed := Trim(value);
      if trimmed == [] {
        return;
      }
      var colon := StrictColon(trimmed);
      if colon.None? {
        value := "";
        return;
      }
      // The hour and minute range checks that follow the pattern test never
      // clear a strict time (StrictTimeInRange), so the text is kept.
      assert ValidatedTime(value) == value;
    }
  }
}
