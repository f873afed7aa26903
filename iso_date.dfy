/**
 * `datetime.strptime(text, '%Y-%m-%d').date()` as the server uses it to read
 * stored dates and filter arguments: four year digits, a dash, a month of one
 * or two digits, a dash, a day of one or two digits (or a space and a digit),
 * nothing after it, and a real calendar date with a year from 1 to 9999.
 */
module IsoDate {
  import opened Wrappers
  import opened Text
  import opened Calendar

  predicate DigitAt(s: string, i: int) {
    0 <= i < |s| && IsDigit(s[i])
  }

  /** The length of the first alternative of `1[0-2]|0[1-9]|[1-9]` that matches at `i`. */
  function MonthAlternatives(s: string, i: int): seq<nat> {
    (if DigitAt(s, i) && s[i] == '1' && DigitAt(s, i + 1) && s[i + 1] <= '2' then [2] else [])
    + (if DigitAt(s, i) && s[i] == '0' && DigitAt(s, i + 1) && s[i + 1] != '0' then [2] else [])
    + (if DigitAt(s, i) && s[i] != '0' then [1] else [])
  }

  /** The length of the first alternative of `3[01]|[12]\d|0[1-9]|[1-9]| [1-9]` that matches at `i`. */
  function DayLength(s: string, i: int): (r: Option<nat>)
    ensures r.Some? ==> 1 <= r.value <= 2 && i + r.value <= |s|
  {
    if DigitAt(s, i) && s[i] == '3' && DigitAt(s, i + 1) && s[i + 1] <= '1' then Some(2)
    else if DigitAt(s, i) && (s[i] == '1' || s[i] == '2') && DigitAt(s, i + 1) then Some(2)
    else if DigitAt(s, i) && s[i] == '0' && DigitAt(s, i + 1) && s[i + 1] != '0' then Some(2)
    else if DigitAt(s, i) && s[i] != '0' then Some(1)
    else if 0 <= i < |s| && s[i] == ' ' && DigitAt(s, i + 1) && s[i + 1] != '0' then Some(2)
    else None
  }

  /** The regular expression's first way through month, dash and day at `i`: the month and day lengths. */
  function MonthDay(s: string, i: int, months: seq<nat>): (r: Option<(nat, nat)>)
    requires forall k :: 0 <= k < |months| ==> 1 <= months[k] <= 2
    ensures r.Some? ==> 1 <= r.value.0 <= 2 && 1 <= r.value.1 <= 2 && i + r.value.0 + 1 + r.value.1 <= |s|
    decreases |months|
  {
    if |months| == 0 then None
    else
      var m := months[0];
      if 0 <= i + m < |s| && s[i + m] == '-' && DayLength(s, i + m + 1).Some? then
        Some((m, DayLength(s, i + m + 1).value))
      else MonthDay(s, i, months[1..])
  }

  /** The number a group of one or two digits (or a space and a digit) stands for. */
  function GroupValue(s: string): nat {
    if |s| == 2 && IsDigit(s[0]) && IsDigit(s[1]) then DigitValue(s[0]) * 10 + DigitValue(s[1])
    else if |s| == 2 && IsDigit(s[1]) then DigitValue(s[1])
    else if |s| == 1 && IsDigit(s[0]) then DigitValue(s[0])
    else 0
  }

  /** `strptime(text, '%Y-%m-%d').date()`, or None where it raises. */
  function ParseDate(text: string): (r: Option<Date>)
    ensures r.Some? ==> ValidDate(r.value) && 1 <= r.value.year <= 9999
  {
    if !(DigitAt(text, 0) && DigitAt(text, 1) && DigitAt(text, 2) && DigitAt(text, 3) && |text| > 4 && text[4] == '-') then None
    else
      var months := MonthAlternatives(text, 5);
      assert forall k :: 0 <= k < |months| ==> 1 <= months[k] <= 2;
      var md := MonthDay(text, 5, months);
      if md.None? then None
      else
        var (ml, dl) := md.value;
        if 5 + ml + 1 + dl != |text| then None
        else
          var year := DigitValue(text[0]) * 1000 + DigitValue(text[1]) * 100 + DigitValue(text[2]) * 10 + DigitValue(text[3]);
          var d := Date(year, GroupValue(text[5..5 + ml]), GroupValue(text[5 + ml + 1..]));
          if 1 <= year && ValidDate(d) then Some(d) else None
  }

  /** Two digits, zero-padded. */
  function Pad2(n: nat): string
    requires n < 100
  {
    [(('0' as int) + n / 10) as char, (('0' as int) + n % 10) as char]
  }

  /** Four digits, zero-padded. */
  function Pad4(n: nat): string
    requires n < 10000
  {
    Pad2(n / 100) + Pad2(n % 100)
  }

  /** `date.isoformat()` / `str(date)`: the form the database stores. */
  function Format(d: Date): (r: string)
    requires ValidDate(d) && 1 <= d.year <= 9999
    ensures |r| == 10 && r[4] == '-' && r[7] == '-'
  {
    Pad4(d.year) + "-" + Pad2(d.month) + "-" + Pad2(d.day)
  }

  lemma Pad2Value(n: nat)
    requires n < 100
    ensures IsDigit(Pad2(n)[0]) && IsDigit(Pad2(n)[1])
    ensures DigitValue(Pad2(n)[0]) * 10 + DigitValue(Pad2(n)[1]) == n
  {
  }

  lemma Pad4Value(n: nat)
    requires n < 10000
    ensures forall i :: 0 <= i < 4 ==> IsDigit(Pad4(n)[i])
    ensures DigitValue(Pad4(n)[0]) * 1000 + DigitValue(Pad4(n)[1]) * 100
            + DigitValue(Pad4(n)[2]) * 10 + DigitValue(Pad4(n)[3]) == n
  {
    Pad2Value(n / 100);
    Pad2Value(n % 100);
  }

  /** Reading a stored date gives the date back. */
  lemma ParseFormat(d: Date)
    requires ValidDate(d) && 1 <= d.year <= 9999
    ensures ParseDate(Format(d)) == Some(d)
  {
    var s := Format(d);
    Pad4Value(d.year);
    Pad2Value(d.month);
    Pad2Value(d.day);
    assert s[..4] == Pad4(d.year);
    assert s[0] == Pad4(d.year)[0] && s[1] == Pad4(d.year)[1] && s[2] == Pad4(d.year)[2] && s[3] == Pad4(d.year)[3];
    assert s[5..7] == Pad2(d.month) && s[8..] == Pad2(d.day);
    var months := MonthAlternatives(s, 5);
    assert months[0] == 2;
    assert s[7] == '-';
    assert DayLength(s, 8) == Some(2);
    assert MonthDay(s, 5, months) == Some((2, 2));
  }

  /** A one-digit month and day are read too, and text after the day is refused. */
  lemma ShortFieldsAndTrailingText()
    ensures ParseDate("2024-1-5") == Some(Date(2024, 1, 5))
    ensures ParseDate("2024-01-32") == None
  {
    var s := "2024-1-5";
    assert DigitAt(s, 5) && s[5] == '1' && !DigitAt(s, 6);
    assert MonthAlternatives(s, 5) == [1];
    assert DayLength(s, 7) == Some(1);
    var t := "2024-01-32";
    assert MonthAlternatives(t, 5) == [2];
    assert DayLength(t, 8) == Some(1);
  }
}
