/**
 * Which texts Python's `int(text)` accepts in base 10: surrounding white
 * space is ignored, an optional sign may lead, and the digits may be split
 * into groups by single underscores.
 */
module PyInt {
  import opened Text

  /** The characters `str.strip()` and `int()` treat as white space. */
  predicate IsPySpace(c: char) {
    || c == '\t' || c == '\n' || c == '\U{000B}' || c == '\U{000C}' || c == '\r'
    || ('\U{001C}' <= c <= '\U{001F}') || c == ' ' || c == '\U{0085}' || c == '\U{00A0}'
    || c == '\U{1680}' || ('\U{2000}' <= c <= '\U{200A}') || c == '\U{2028}' || c == '\U{2029}'
    || c == '\U{202F}' || c == '\U{205F}' || c == '\U{3000}'
  }

  function StripStart(s: string): (r: string)
    ensures |r| <= |s| && r == s[|s| - |r|..]
    ensures r == [] || !IsPySpace(r[0])
    ensures forall i :: 0 <= i < |s| - |r| ==> IsPySpace(s[i])
    decreases |s|
  {
    if |s| > 0 && IsPySpace(s[0]) then StripStart(s[1..]) else s
  }

  function StripEnd(s: string): (r: string)
    ensures |r| <= |s| && r == s[..|r|]
    ensures r == [] || !IsPySpace(r[|r| - 1])
    ensures forall i :: |r| <= i < |s| ==> IsPySpace(s[i])
    decreases |s|
  {
    if |s| > 0 && IsPySpace(s[|s| - 1]) then StripEnd(s[..|s| - 1]) else s
  }

  function Strip(s: string): string {
    StripEnd(StripStart(s))
  }

  /** Digits, with single underscores allowed only between two digits. */
  predicate DigitGroups(s: string) {
    && |s| > 0 && IsDigit(s[0])
    && (forall i :: 0 <= i < |s| ==> IsDigit(s[i]) || s[i] == '_')
    && (forall i :: 0 <= i < |s| - 1 && s[i] == '_' ==> IsDigit(s[i + 1]))
    && s[|s| - 1] != '_'
  }

  /** `int(text)` succeeds. */
  predicate ParsesAsInt(text: string) {
    var t := Strip(text);
    |t| > 0 && (if t[0] == '+' || t[0] == '-' then DigitGroups(t[1..]) else DigitGroups(t))
  }

  lemma StripOfDigits(s: string)
    requires |s| > 0 && forall i :: 0 <= i < |s| ==> IsDigit(s[i]) || s[i] == '_' || s[i] == '+' || s[i] == '-'
    ensures Strip(s) == s
  {
  }

  /** Every non-empty run of decimal digits is an int, with or without a sign. */
  lemma DigitsParse(s: string)
    requires |s| > 0 && forall i :: 0 <= i < |s| ==> IsDigit(s[i])
    ensures ParsesAsInt(s) && ParsesAsInt("-" + s) && ParsesAsInt("+" + s)
  {
    StripOfDigits(s);
    StripOfDigits("-" + s);
    StripOfDigits("+" + s);
    assert ("-" + s)[1..] == s;
    assert ("+" + s)[1..] == s;
  }

  /** A text whose stripped part holds a character other than a digit, '_', '+' or '-' is never an int. */
  lemma ForeignCharacterRejected(text: string, i: int)
    requires 0 <= i < |Strip(text)|
    requires var c := Strip(text)[i]; !IsDigit(c) && c != '_' && c != '+' && c != '-'
    ensures !ParsesAsInt(text)
  {
    var t := Strip(text);
    var c := t[i];
    assert !(IsDigit(c) || c == '_');
    if t[0] == '+' || t[0] == '-' {
      assert i > 0;
      var u := t[1..];
      assert u[i - 1] == c;
      assert !DigitGroups(u);
    } else {
      assert !DigitGroups(t);
    }
  }

  /** White space alone, or nothing, is not an int. */
  lemma BlankRejected(text: string)
    requires forall i :: 0 <= i < |text| ==> IsPySpace(text[i])
    ensures !ParsesAsInt(text)
  {
    assert |StripStart(text)| == 0;
  }

  /** Underscores may group digits. */
  lemma GroupedDigitsAccepted()
    ensures ParsesAsInt("1_000")
  {
    StripOfDigits("1_000");
  }

  /** White space around the number is ignored. */
  lemma SpacedDigitsAccepted()
    ensures ParsesAsInt(" 7 ")
  {
    assert StripStart(" 7 ") == "7 ";
    assert StripEnd("7 ") == "7";
  }

  /** A leading, trailing or doubled underscore is refused. */
  lemma StrayUnderscoresRejected()
    ensures !ParsesAsInt("_1") && !ParsesAsInt("1_") && !ParsesAsInt("1__0")
  {
    StripOfDigits("_1");
    StripOfDigits("1_");
    StripOfDigits("1__0");
    var doubled := "1__0";
    assert doubled[1] == '_' && !IsDigit(doubled[2]);
  }

  /** A letter after the digits is refused. */
  lemma TrailingLetterRejected()
    ensures !ParsesAsInt("12a")
  {
    var t := "12a";
    assert StripStart(t) == t;
    assert StripEnd(t) == t;
    ForeignCharacterRejected(t, 2);
  }

  /** The number digit groups stand for, underscores skipped. */
  function GroupsValue(s: string): nat
    requires forall i :: 0 <= i < |s| ==> IsDigit(s[i]) || s[i] == '_'
    decreases |s|
  {
    if |s| == 0 then 0
    else if s[|s| - 1] == '_' then GroupsValue(s[..|s| - 1])
    else GroupsValue(s[..|s| - 1]) * 10 + DigitValue(s[|s| - 1])
  }

  /** The value `int(text)` returns. */
  function IntValue(text: string): int
    requires ParsesAsInt(text)
  {
    var t := Strip(text);
    if t[0] == '-' then -(GroupsValue(t[1..]) as int)
    else if t[0] == '+' then GroupsValue(t[1..])
    else GroupsValue(t)
  }

  /** `str(n)` for a natural number: its decimal digits, no padding. */
  function Show(n: nat): (r: string)
    ensures |r| > 0 && forall i :: 0 <= i < |r| ==> IsDigit(r[i])
    decreases n
  {
    if n < 10 then [(('0' as int) + n) as char] else Show(n / 10) + Show(n % 10)
  }

  lemma {:induction false} GroupsValueOfShow(n: nat)
    ensures GroupsValue(Show(n)) == n
    decreases n
  {
    var s := Show(n);
    if n >= 10 {
      GroupsValueOfShow(n / 10);
      assert s[..|s| - 1] == Show(n / 10);
    } else {
      assert s[..0] == [];
    }
  }

  /** `int(str(n)) == n`. */
  lemma ShowRoundTrip(n: nat)
    ensures ParsesAsInt(Show(n)) && IntValue(Show(n)) == n
  {
    DigitsParse(Show(n));
    StripOfDigits(Show(n));
    GroupsValueOfShow(n);
  }

  lemma ShowInjective(a: nat, b: nat)
    requires Show(a) == Show(b)
    ensures a == b
  {
    ShowRoundTrip(a);
    ShowRoundTrip(b);
  }
}
