/** `escapeHtml`: the five characters that are special in HTML text and
    attribute values are replaced by character references. */
module Html {

  /** A character `escapeHtml` replaces. */
  predicate Special(c: char)
  {
    c == '&' || c == '<' || c == '>' || c == '"' || c == '\''
  }

  /** The replacement for one character. */
  function EscapeChar(c: char): (r: string)
    ensures Special(c) ==> |r| > 1 && r[0] == '&' && r[|r| - 1] == ';'
    ensures !Special(c) ==> r == [c]
    ensures forall x :: x in r ==> x == '&' || !Special(x)
  {
    match c
    case '&' => "&amp;"
    case '<' => "&lt;"
    case '>' => "&gt;"
    case '"' => "&quot;"
    case '\'' => "&#39;"
    case _ => [c]
  }

  /** `str.replace(/[&<>"']/g, ...)`. */
  function EscapeHtml(s: string): (r: string)
    ensures forall x :: x in r ==> x == '&' || !Special(x)
    ensures |r| >= |s|
    ensures (forall x :: x in s ==> !Special(x)) ==> r == s
  {
    if |s| == 0 then ""
    else
      assert forall x :: x in s <==> x == s[0] || x in s[1..] by {
        assert s == [s[0]] + s[1..];
      }
      EscapeChar(s[0]) + EscapeHtml(s[1..])
  }

  /** Reads the five references back; every other character stands for itself. */
  function UnescapeHtml(s: string): string
  {
    if |s| == 0 then ""
    else if "&amp;" <= s then "&" + UnescapeHtml(s[5..])
    else if "&lt;" <= s then "<" + UnescapeHtml(s[4..])
    else if "&gt;" <= s then ">" + UnescapeHtml(s[4..])
    else if "&quot;" <= s then "\"" + UnescapeHtml(s[6..])
    else if "&#39;" <= s then "'" + UnescapeHtml(s[5..])
    else [s[0]] + UnescapeHtml(s[1..])
  }

  lemma UnescapeStep(c: char, rest: string)
    ensures UnescapeHtml(EscapeChar(c) + rest) == [c] + UnescapeHtml(rest)
  {
    var e := EscapeChar(c);
    var s := e + rest;
    Prefix(e, rest);
    if !Special(c) {
      assert s[0] == c && s[1..] == rest;
    } else if c == '&' {
    } else if c == '<' {
      assert s[1] == 'l';
    } else if c == '>' {
      assert s[1] == 'g';
    } else if c == '"' {
      assert s[1] == 'q';
    } else {
      assert s[1] == '#';
    }
  }

  lemma Prefix(e: string, rest: string)
    ensures e <= e + rest && (e + rest)[|e|..] == rest
  {
    assert (e + rest)[..|e|] == e;
  }

  /** Escaping loses nothing: the original text can be read back. */
  lemma {:induction false} EscapeRoundTrip(s: string)
    ensures UnescapeHtml(EscapeHtml(s)) == s
  {
    if |s| > 0 {
      UnescapeStep(s[0], EscapeHtml(s[1..]));
      EscapeRoundTrip(s[1..]);
      assert s == [s[0]] + s[1..];
    }
  }
}
