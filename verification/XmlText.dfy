/** Escaping by a chain of replacements, and the predefined entities of section
    4.6 of XML 1.0 that undo it. */
module XmlText {

  /** `str::replace` of one character. */
  function Replace(s: string, c: char, with: string): string {
    if s == "" then "" else (if s[0] == c then with else [s[0]]) + Replace(s[1..], c, with)
  }

  function XmlEscape(value: string): string {
    var amp := Replace(value, '&', "&amp;");
    var lt := Replace(amp, '<', "&lt;");
    var gt := Replace(lt, '>', "&gt;");
    var quot := Replace(gt, '"', "&quot;");
    Replace(quot, '\'', "&apos;")
  }

  /** What one character becomes. */
  function Entity(c: char): string {
    if c == '&' then "&amp;"
    else if c == '<' then "&lt;"
    else if c == '>' then "&gt;"
    else if c == '"' then "&quot;"
    else if c == '\'' then "&apos;"
    else [c]
  }

  function OnePass(s: string): string {
    if s == "" then "" else Entity(s[0]) + OnePass(s[1..])
  }

  /** Expansion of the predefined entities. */
  function Unescape(s: string): string
    decreases |s|
  {
    if s == "" then ""
    else if "&amp;" <= s then "&" + Unescape(s[5..])
    else if "&lt;" <= s then "<" + Unescape(s[4..])
    else if "&gt;" <= s then ">" + Unescape(s[4..])
    else if "&quot;" <= s then "\"" + Unescape(s[6..])
    else if "&apos;" <= s then "'" + Unescape(s[6..])
    else [s[0]] + Unescape(s[1..])
  }

  lemma {:induction false} ReplaceConcat(a: string, b: string, c: char, with: string)
    ensures Replace(a + b, c, with) == Replace(a, c, with) + Replace(b, c, with)
  {
    if a == "" {
      assert a + b == b;
    } else {
      assert (a + b)[1..] == a[1..] + b;
      ReplaceConcat(a[1..], b, c, with);
    }
  }

  lemma {:induction false} ReplaceNothing(s: string, c: char, with: string)
    requires c !in s
    ensures Replace(s, c, with) == s
  {
    if s != "" {
      ReplaceNothing(s[1..], c, with);
      assert s == [s[0]] + s[1..];
    }
  }

  lemma EscapeConcat(a: string, b: string)
    ensures XmlEscape(a + b) == XmlEscape(a) + XmlEscape(b)
  {
    var a1, b1 := Replace(a, '&', "&amp;"), Replace(b, '&', "&amp;");
    var a2, b2 := Replace(a1, '<', "&lt;"), Replace(b1, '<', "&lt;");
    var a3, b3 := Replace(a2, '>', "&gt;"), Replace(b2, '>', "&gt;");
    var a4, b4 := Replace(a3, '"', "&quot;"), Replace(b3, '"', "&quot;");
    ReplaceConcat(a, b, '&', "&amp;");
    ReplaceConcat(a1, b1, '<', "&lt;");
    ReplaceConcat(a2, b2, '>', "&gt;");
    ReplaceConcat(a3, b3, '"', "&quot;");
    ReplaceConcat(a4, b4, '\'', "&apos;");
  }

  lemma ReplaceOne(c: char, d: char, with: string)
    ensures Replace([c], d, with) == if c == d then with else [c]
  {
    assert [c][1..] == "";
  }

  lemma EscapeOne(c: char)
    ensures XmlEscape([c]) == Entity(c)
  {
    hide Replace;
    ReplaceOne(c, '&', "&amp;");
    var s := if c == '&' then "&amp;" else [c];
    if c == '&' {
      Untouched(s);
    } else {
      ReplaceOne(c, '<', "&lt;");
      if c == '<' {
        Untouched("&lt;");
      } else {
        ReplaceOne(c, '>', "&gt;");
        if c == '>' {
          Untouched("&gt;");
        } else {
          ReplaceOne(c, '"', "&quot;");
          if c == '"' {
            Untouched("&quot;");
          } else {
            ReplaceOne(c, '\'', "&apos;");
          }
        }
      }
    }
  }

  /** Later replacements leave an entity alone. */
  lemma Untouched(s: string)
    requires '<' !in s && '>' !in s && '"' !in s && '\'' !in s
    ensures Replace(s, '<', "&lt;") == s && Replace(s, '>', "&gt;") == s
    ensures Replace(s, '"', "&quot;") == s && Replace(s, '\'', "&apos;") == s
  {
    ReplaceNothing(s, '<', "&lt;");
    ReplaceNothing(s, '>', "&gt;");
    ReplaceNothing(s, '"', "&quot;");
    ReplaceNothing(s, '\'', "&apos;");
  }

  /** The chain of replacements is one pass over the characters. */
  lemma {:induction false} EscapeIsOnePass(s: string)
    ensures XmlEscape(s) == OnePass(s)
  {
    hide XmlEscape;
    if s == "" {
      EscapeNothing();
    } else {
      assert s == [s[0]] + s[1..];
      EscapeConcat([s[0]], s[1..]);
      EscapeOne(s[0]);
      EscapeIsOnePass(s[1..]);
    }
  }

  lemma EscapeNothing()
    ensures XmlEscape("") == ""
  {
  }

  lemma UnescapeEntity(c: char, rest: string)
    ensures Unescape(Entity(c) + rest) == [c] + Unescape(rest)
  {
    var s := Entity(c) + rest;
    assert s[|Entity(c)|..] == rest;
    assert s[0] == '&' ==> s[1] == Entity(c)[1] && s[2] == Entity(c)[2];
  }

  /** Expanding the predefined entities recovers the value. */
  lemma {:induction false} UnescapeOfEscape(s: string)
    ensures Unescape(XmlEscape(s)) == s
  {
    hide Unescape;
    EscapeIsOnePass(s);
    if s == "" {
      UnescapeNothing();
    } else {
      UnescapeOfEscape(s[1..]);
      EscapeIsOnePass(s[1..]);
      UnescapeEntity(s[0], OnePass(s[1..]));
      assert s == [s[0]] + s[1..];
    }
  }

  lemma UnescapeNothing()
    ensures Unescape("") == ""
  {
  }

  /** An escaped value can stand in a quoted attribute. */
  lemma {:induction false} EscapedHasNoQuote(s: string)
    ensures '"' !in XmlEscape(s) && '<' !in XmlEscape(s)
  {
    EscapeIsOnePass(s);
    if s != "" {
      EscapedHasNoQuote(s[1..]);
      EscapeIsOnePass(s[1..]);
    }
  }
}
