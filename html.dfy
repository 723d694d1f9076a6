/**
 * HTML special-character escaping, as PHP's `htmlspecialchars` does it with
 * the default flags before PHP 8.1 (`ENT_COMPAT`): the four characters `&`,
 * `<`, `>` and `"` become entities, the single quote is left alone. `Decode`
 * is the inverse of `Escape`.
 */
module Html {

  function EscapeChar(c: char): string {
    if c == '&' then "&amp;"
    else if c == '<' then "&lt;"
    else if c == '>' then "&gt;"
    else if c == '"' then "&quot;"
    else [c]
  }

  /** `htmlspecialchars` with the pre-8.1 default flags: the result never holds a raw `<`, `>` or `"`. */
  function Escape(s: string): (r: string)
    ensures '<' !in r && '>' !in r && '"' !in r
    ensures |r| >= |s|
  {
    if s == [] then ""
    else EscapeChar(s[0]) + Escape(s[1..])
  }

  /** The inverse of `Escape`: only the four named entities it produces are decoded. */
  function Decode(s: string): string
    decreases |s|
  {
    if s == [] then ""
    else if s[0] != '&' then [s[0]] + Decode(s[1..])
    else if |s| >= 5 && s[1] == 'a' && s[2] == 'm' && s[3] == 'p' && s[4] == ';' then "&" + Decode(s[5..])
    else if |s| >= 4 && s[1] == 'l' && s[2] == 't' && s[3] == ';' then "<" + Decode(s[4..])
    else if |s| >= 4 && s[1] == 'g' && s[2] == 't' && s[3] == ';' then ">" + Decode(s[4..])
    else if |s| >= 6 && s[1] == 'q' && s[2] == 'u' && s[3] == 'o' && s[4] == 't' && s[5] == ';' then "\"" + Decode(s[6..])
    else "&" + Decode(s[1..])
  }

  /** Decoding reads one escaped character back in front of whatever follows. */
  lemma DecodeEscapeChar(c: char, t: string)
    ensures Decode(EscapeChar(c) + t) == [c] + Decode(t)
  {
    var e := EscapeChar(c);
    var u := e + t;
    assert u[|e|..] == t;
    if c == '&' {
      assert u[0] == '&' && u[1] == 'a' && u[2] == 'm' && u[3] == 'p' && u[4] == ';';
    } else if c == '<' {
      assert u[0] == '&' && u[1] == 'l' && u[2] == 't' && u[3] == ';';
    } else if c == '>' {
      assert u[0] == '&' && u[1] == 'g' && u[2] == 't' && u[3] == ';';
    } else if c == '"' {
      assert u[0] == '&' && u[1] == 'q' && u[2] == 'u' && u[3] == 'o' && u[4] == 't' && u[5] == ';';
    } else {
      assert u[0] == c;
    }
  }

  /** Escaping loses nothing: decoding gives the original text back. */
  lemma {:induction false} DecodeEscape(s: string)
    ensures Decode(Escape(s)) == s
  {
    if s != [] {
      assert Escape(s) == EscapeChar(s[0]) + Escape(s[1..]);
      DecodeEscapeChar(s[0], Escape(s[1..]));
      DecodeEscape(s[1..]);
      assert [s[0]] + s[1..] == s;
    }
  }

  /** Two different texts never escape to the same markup. */
  lemma EscapeInjective(a: string, b: string)
    requires Escape(a) == Escape(b)
    ensures a == b
  {
    DecodeEscape(a);
    DecodeEscape(b);
  }

  /** Text without special characters is left as it is. */
  lemma {:induction false} EscapePlain(s: string)
    requires '&' !in s && '<' !in s && '>' !in s && '"' !in s
    ensures Escape(s) == s
  {
    if s != [] {
      assert s == [s[0]] + s[1..];
      assert s[0] != '&' && s[0] != '<' && s[0] != '>' && s[0] != '"';
      assert '&' !in s[1..] && '<' !in s[1..] && '>' !in s[1..] && '"' !in s[1..];
      EscapePlain(s[1..]);
      assert [s[0]] + s[1..] == s;
    }
  }
}
