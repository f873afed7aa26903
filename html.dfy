/**
 * `escapeHtml`, which the dashboard applies to every user-entered text before
 * putting it into the page: an empty value becomes the empty string, and
 * each character of the replacement class is turned into its entity.
 */
module Html {
  import opened Wrappers

  /**
   * The entity of one character, or the character itself. The lookup table
   * has an entry for '>', but the replacement class `[&<"'`=\/]` does not
   * contain '>', so the table entry is reached only when `withGreaterThan`.
   */
  function EscapeChar(c: char, withGreaterThan: bool): string {
    if c == '&' then "&amp;"
    else if c == '<' then "&lt;"
    else if c == '>' && withGreaterThan then "&gt;"
    else if c == '"' then "&quot;"
    else if c == '\'' then "&#39;"
    else if c == '/' then "&#x2F;"
    else if c == '`' then "&#x60;"
    else if c == '=' then "&#x3D;"
    else [c]
  }

  function EscapeWith(s: string, withGreaterThan: bool): string
    decreases |s|
  {
    if |s| == 0 then "" else EscapeChar(s[0], withGreaterThan) + EscapeWith(s[1..], withGreaterThan)
  }

  /**
   * `escapeHtml` as written: it removes '<' and quotes, reads back to its input
   * and maps the empty value to "", but '>' passes through unchanged.
   */
  function EscapeHtml(unsafe: string): (r: string)
    ensures '<' !in r && '"' !in r && '\'' !in r
    ensures '>' in r <==> '>' in unsafe
    ensures Unescape(r) == unsafe
    ensures unsafe == "" ==> r == ""
  {
    EscapedCharacters(unsafe, false);
    EscapeRoundTrip(unsafe, false);
    EscapeWith(unsafe, false)
  }

  /** `escapeHtml` with its whole lookup table in use, '>' included. */
  function EscapeHtmlIntended(unsafe: string): string {
    EscapeWith(unsafe, true)
  }

  /** The characters the replacement class turns into entities. */
  predicate Special(c: char) {
    c == '&' || c == '<' || c == '"' || c == '\'' || c == '/' || c == '`' || c == '='
  }

  /** The entities `EscapeChar` writes, with the character each stands for. */
  const Entities: seq<(string, char)> := [("&amp;", '&'), ("&lt;", '<'), ("&gt;", '>'), ("&quot;", '"'),
    ("&#39;", '\''), ("&#x2F;", '/'), ("&#x60;", '`'), ("&#x3D;", '=')]

  predicate StartsWith(s: string, prefix: string) {
    |prefix| <= |s| && s[..|prefix|] == prefix
  }

  /** The first entity of `table` that `s` starts with. */
  function EntityFrom(s: string, table: seq<(string, char)>): (r: Option<(string, char)>)
    ensures r.Some? ==> r.value in table && |r.value.0| <= |s| && s[..|r.value.0|] == r.value.0
    decreases |table|
  {
    if |table| == 0 then None
    else if StartsWith(s, table[0].0) then Some(table[0])
    else EntityFrom(s, table[1..])
  }

  /** The reading of the entities `EscapeChar` writes, to undo it. */
  function Unescape(s: string): string
    decreases |s|
  {
    if |s| == 0 then ""
    else if s[0] != '&' then [s[0]] + Unescape(s[1..])
    else
      var entity := EntityFrom(s, Entities);
      if entity.Some? && |entity.value.0| > 0 then [entity.value.1] + Unescape(s[|entity.value.0|..])
      else [s[0]] + Unescape(s[1..])
  }

  lemma UnescapeChar(c: char, withGreaterThan: bool, rest: string)
    ensures Unescape(EscapeChar(c, withGreaterThan) + rest) == [c] + Unescape(rest)
  {
    var e := EscapeChar(c, withGreaterThan);
    var s := e + rest;
    assert s[..|e|] == e;
    assert s[|e|..] == rest;
    if e == [c] {
      assert s[1..] == rest;
    } else {
      assert EntityFrom(s, Entities) == Some((e, c)) by {
        EntityOfEscape(c, withGreaterThan, rest);
      }
    }
  }

  lemma EntityOfEscape(c: char, withGreaterThan: bool, rest: string)
    requires EscapeChar(c, withGreaterThan) != [c]
    ensures var e := EscapeChar(c, withGreaterThan);
            EntityFrom(e + rest, Entities) == Some((e, c))
  {
    var e := EscapeChar(c, withGreaterThan);
    var s := e + rest;
    assert s[..|e|] == e;
    assert s[0] == '&' && s[1] == e[1] && s[2] == e[2] && s[3] == e[3];
    if c == '&' {
    } else if c == '<' {
      assert !StartsWith(s, "&amp;");
    } else if c == '>' {
      assert !StartsWith(s, "&amp;") && !StartsWith(s, "&lt;");
    } else {
      assert !StartsWith(s, "&amp;") && !StartsWith(s, "&lt;") && !StartsWith(s, "&gt;");
      if c == '"' {
      } else if c == '\'' {
        assert !StartsWith(s, "&quot;");
      } else if c == '/' {
        assert !StartsWith(s, "&quot;") && !StartsWith(s, "&#39;");
      } else if c == '`' {
        assert !StartsWith(s, "&quot;") && !StartsWith(s, "&#39;") && !StartsWith(s, "&#x2F;");
      } else {
        assert !StartsWith(s, "&quot;") && !StartsWith(s, "&#39;") && !StartsWith(s, "&#x2F;") && !StartsWith(s, "&#x60;");
      }
    }
  }

  /** Escaping loses nothing: reading the entities back gives the original text. */
  lemma {:induction false} EscapeRoundTrip(s: string, withGreaterThan: bool)
    ensures Unescape(EscapeWith(s, withGreaterThan)) == s
    decreases |s|
  {
    if |s| > 0 {
      var rest := EscapeWith(s[1..], withGreaterThan);
      EscapeRoundTrip(s[1..], withGreaterThan);
      UnescapeChar(s[0], withGreaterThan, rest);
      assert EscapeWith(s, withGreaterThan) == EscapeChar(s[0], withGreaterThan) + rest;
      assert s == [s[0]] + s[1..];
    }
  }

  /**
   * No escaped text holds a quote, a backtick, '=', '/' or '<'; every '&' in it
   * opens an entity; '>' survives exactly when the table entry is unused.
   */
  lemma {:induction false} EscapedCharacters(s: string, withGreaterThan: bool)
    ensures forall c :: c in EscapeWith(s, withGreaterThan) && c != '&' && c != '#' && c != ';' ==> !Special(c)
    ensures !withGreaterThan ==> ('>' in EscapeWith(s, withGreaterThan) <==> '>' in s)
    ensures withGreaterThan ==> '>' !in EscapeWith(s, withGreaterThan)
    decreases |s|
  {
    if |s| > 0 {
      EscapedCharacters(s[1..], withGreaterThan);
      EscapeCharCharacters(s[0], withGreaterThan);
      assert EscapeWith(s, withGreaterThan) == EscapeChar(s[0], withGreaterThan) + EscapeWith(s[1..], withGreaterThan);
      assert '>' in s <==> s[0] == '>' || '>' in s[1..];
    }
  }

  /** What one character's escape holds. */
  lemma EscapeCharCharacters(c0: char, withGreaterThan: bool)
    ensures forall c :: c in EscapeChar(c0, withGreaterThan) && c != '&' && c != '#' && c != ';' ==> !Special(c)
    ensures '>' in EscapeChar(c0, withGreaterThan) <==> c0 == '>' && !withGreaterThan
  {
  }

  /** The as-written escape leaves '>' in the page: a counterexample. */
  lemma GreaterThanNotEscaped()
    ensures EscapeHtml("a>b") == "a>b"
    ensures EscapeHtmlIntended("a>b") == "a&gt;b"
  {
    assert EscapeWith("b", false) == "b";
    assert EscapeWith(">b", false) == ">b";
    assert EscapeWith("a>b", false) == "a>b";
    assert EscapeWith("b", true) == "b";
    assert EscapeWith(">b", true) == "&gt;b";
  }

  /** The intended escape leaves no markup delimiter at all and still reads back. */
  lemma IntendedEscapeIsSafe(s: string)
    ensures '<' !in EscapeHtmlIntended(s) && '>' !in EscapeHtmlIntended(s)
    ensures '"' !in EscapeHtmlIntended(s) && '\'' !in EscapeHtmlIntended(s)
    ensures Unescape(EscapeHtmlIntended(s)) == s
  {
    EscapedCharacters(s, true);
    EscapeRoundTrip(s, true);
  }
}
