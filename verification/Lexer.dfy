/** A one-character-at-a-time lexer for PekoScript's brackets: the reference
    that the formatter's two hand-written line scanners are measured against. */
module Lexer {
  import opened Text

  datatype Lex =
    | Code
    | Slash                                 // in code, one slash seen
    | Comment
    | Quoted(quote: char, escaped: bool)
    | Template(escaped: bool)

  /** The lexer state and the brackets met so far: all structural openers, all
      structural closers, and the closers met before the first opener. */
  datatype Tally = Tally(lex: Lex, opens: nat, leading: nat, closers: nat) {
    function Balance(): int { opens - closers }
  }

  predicate IsOpener(c: char) { c == '{' || c == '[' || c == '(' }

  predicate IsCloser(c: char) { c == '}' || c == ']' || c == ')' }

  function Step(s: Lex, c: char): Lex {
    match s
    case Comment => Comment
    case Quoted(q, escaped) =>
      if escaped then Quoted(q, false)
      else if c == '\\' then Quoted(q, true)
      else if c == q then Code
      else s
    case Template(escaped) =>
      if escaped then Template(false)
      else if c == '\\' then Template(true)
      else if c == '`' then Code
      else s
    case _ =>
      if c == '/' then (if s.Slash? then Comment else Slash)
      else if c == '"' || c == '\'' then Quoted(c, false)
      else if c == '`' then Template(false)
      else Code
  }

  /** Only a template survives the end of a line; a dangling backslash does not. */
  function EndLine(s: Lex): Lex {
    if s.Template? then Template(false) else Code
  }

  function Tick(t: Tally, c: char): Tally {
    var structural := t.lex.Code? || t.lex.Slash?;
    Tally(Step(t.lex, c),
          t.opens + (if structural && IsOpener(c) then 1 else 0),
          t.leading + (if structural && IsCloser(c) && t.opens == 0 then 1 else 0),
          t.closers + (if structural && IsCloser(c) then 1 else 0))
  }

  /** Run over the characters of one line. */
  function Scan(t: Tally, line: string): Tally
    decreases |line|
  {
    if line == "" then t else Scan(Tick(t, line[0]), line[1..])
  }

  /** Run over a whole file, where a newline ends the line. */
  function FileScan(t: Tally, text: string): Tally
    decreases |text|
  {
    if text == "" then t
    else if text[0] == '\n' then FileScan(t.(lex := EndLine(t.lex)), text[1..])
    else FileScan(Tick(t, text[0]), text[1..])
  }

  const START := Tally(Code, 0, 0, 0)

  lemma {:induction false} ScanConcat(t: Tally, a: string, b: string)
    ensures Scan(t, a + b) == Scan(Scan(t, a), b)
    decreases |a|
  {
    if a == "" {
      assert a + b == b;
    } else {
      assert (a + b)[1..] == a[1..] + b;
      ScanConcat(Tick(t, a[0]), a[1..], b);
    }
  }

  lemma ScanSnoc(t: Tally, line: string, i: nat)
    requires i < |line|
    ensures Scan(t, line[..i + 1]) == Tick(Scan(t, line[..i]), line[i])
  {
    assert line[..i + 1] == line[..i] + [line[i]];
    ScanConcat(t, line[..i], [line[i]]);
    assert Scan(Scan(t, line[..i]), [line[i]]) == Tick(Scan(t, line[..i]), line[i]);
  }

  lemma {:induction false} CommentAbsorbs(t: Tally, rest: string)
    requires t.lex.Comment?
    ensures Scan(t, rest) == t
  {
    if rest != "" {
      CommentAbsorbs(t, rest[1..]);
    }
  }

  /** Scanning counts brackets on top of what the tally already holds; only
      `leading` looks at the count it starts from. */
  lemma {:induction false} ScanShift(t: Tally, u: Tally, line: string)
    requires t.lex == u.lex
    ensures Scan(t, line).lex == Scan(u, line).lex
    ensures Scan(t, line).opens - t.opens == Scan(u, line).opens - u.opens
    ensures Scan(t, line).closers - t.closers == Scan(u, line).closers - u.closers
    decreases |line|
  {
    if line != "" {
      ScanShift(Tick(t, line[0]), Tick(u, line[0]), line[1..]);
    }
  }

  /** Leading closers never exceed total closers. */
  lemma {:induction false} LeadingWithinClosers(t: Tally, line: string)
    requires t.leading <= t.closers
    ensures Scan(t, line).leading <= Scan(t, line).closers
    decreases |line|
  {
    if line != "" {
      LeadingWithinClosers(Tick(t, line[0]), line[1..]);
    }
  }

  lemma WhitespaceTick(t: Tally, c: char)
    requires IsWhitespace(c)
    ensures Tick(t, c) == t.(lex := Step(t.lex, c))
    ensures EndLine(Step(t.lex, c)) == EndLine(t.lex)
    ensures t.lex.Code? ==> Step(t.lex, c) == Code
  {
  }

  /** White space at the end of a line changes neither the counts nor the state
      the next line starts in, even after a dangling backslash. */
  lemma {:induction false} TrailingWhitespace(t: Tally, blank: string)
    requires AllWhitespace(blank)
    ensures var u := Scan(t, blank); u.(lex := EndLine(u.lex)) == t.(lex := EndLine(t.lex))
    decreases |blank|
  {
    hide IsWhitespace;
    if blank != "" {
      assert IsWhitespace(blank[0]);
      WhitespaceTick(t, blank[0]);
      TrailingWhitespace(Tick(t, blank[0]), blank[1..]);
    }
  }

  lemma {:induction false} LeadingWhitespace(t: Tally, blank: string)
    requires t.lex.Code? && AllWhitespace(blank)
    ensures Scan(t, blank) == t
  {
    hide IsWhitespace;
    if blank != "" {
      assert IsWhitespace(blank[0]);
      WhitespaceTick(t, blank[0]);
      LeadingWhitespace(t, blank[1..]);
    }
  }

  /** Trimming a line that starts in code, or trimming the end of any line,
      leaves the scan unchanged up to the end-of-line reset. */
  lemma ScanOfTrim(t: Tally, line: string)
    requires t.lex.Code?
    ensures var u, v := Scan(t, Trim(line)), Scan(t, line);
            u.(lex := EndLine(u.lex)) == v.(lex := EndLine(v.lex))
  {
    hide IsWhitespace;
    hide Trim;
    var left, right := TrimSplits(line);
    ScanConcat(t, left + Trim(line), right);
    ScanConcat(t, left, Trim(line));
    LeadingWhitespace(t, left);
    TrailingWhitespace(Scan(t, Trim(line)), right);
  }

  lemma ScanOfPrefix(t: Tally, line: string, kept: string)
    requires kept <= line && forall i | |kept| <= i < |line| :: IsWhitespace(line[i])
    ensures var u, v := Scan(t, kept), Scan(t, line);
            u.(lex := EndLine(u.lex)) == v.(lex := EndLine(v.lex))
  {
    hide IsWhitespace;
    var blank := line[|kept|..];
    assert line == kept + blank;
    ScanConcat(t, kept, blank);
    TrailingWhitespace(Scan(t, kept), blank);
  }

  lemma {:induction false} FileScanOfLine(t: Tally, line: string)
    requires '\n' !in line
    ensures FileScan(t, line) == Scan(t, line)
    decreases |line|
  {
    if line != "" {
      assert line[0] in line;
      FileScanOfLine(Tick(t, line[0]), line[1..]);
    }
  }

  lemma {:induction false} FileScanConcat(t: Tally, a: string, b: string)
    ensures FileScan(t, a + b) == FileScan(FileScan(t, a), b)
    decreases |a|
  {
    if a == "" {
      assert a + b == b;
    } else {
      assert (a + b)[1..] == a[1..] + b;
      if a[0] == '\n' {
        FileScanConcat(t.(lex := EndLine(t.lex)), a[1..], b);
      } else {
        FileScanConcat(Tick(t, a[0]), a[1..], b);
      }
    }
  }

  // ----- What hides brackets -----

  /** What may stand between two quotes `q`: no such quote, and no backslash,
      except in pairs of a backslash and the character it escapes. */
  predicate LiteralBody(q: char, body: string) {
    if body == "" then true
    else if body[0] == '\\' then |body| >= 2 && LiteralBody(q, body[2..])
    else body[0] != q && LiteralBody(q, body[1..])
  }

  ghost predicate InLiteral(lex: Lex, q: char) {
    if q == '`' then lex == Template(false) else lex == Quoted(q, false)
  }

  lemma {:induction false} BodyHides(t: Tally, q: char, body: string)
    requires InLiteral(t.lex, q) && LiteralBody(q, body)
    ensures Scan(t, body) == t
    decreases |body|
  {
    if body != "" {
      if body[0] == '\\' {
        assert body[1..] != "" && body[1..][1..] == body[2..];
        BodyHides(t, q, body[2..]);
      } else {
        BodyHides(t, q, body[1..]);
      }
    }
  }

  /** A literal hides whatever brackets it holds, and the code goes on after it.
      One that is not closed still hides them; at the end of the line a template
      goes on, and the others do not. */
  lemma LiteralsHide(t: Tally, q: char, body: string)
    requires t.lex.Code? && (q == '"' || q == '\'' || q == '`')
    requires LiteralBody(q, body)
    ensures Scan(t, [q] + body + [q]) == t
    ensures Scan(t, [q] + body) == t.(lex := Scan(t, [q] + body).lex)
    ensures EndLine(Scan(t, [q] + body).lex) == if q == '`' then Template(false) else Code
  {
    var u := Tick(t, q);
    assert ([q] + body)[1..] == body;
    BodyHides(u, q, body);
    ScanConcat(t, [q] + body, [q]);
    assert Scan(u, [q]) == Scan(Tick(u, q), []);
  }

  /** Two slashes hide the rest of their line, and nothing of the next one. */
  lemma CommentsHide(t: Tally, rest: string)
    requires t.lex.Code? && '\n' !in rest
    ensures FileScan(t, "//" + rest) == t.(lex := Comment)
    ensures FileScan(t, "//" + rest + "\n") == t
  {
    var u := t.(lex := Comment);
    assert ("//" + rest)[1..] == "/" + rest && ("/" + rest)[1..] == rest;
    FileScanOfLine(u, rest);
    CommentAbsorbs(u, rest);
    FileScanConcat(t, "//" + rest, "\n");
    assert FileScan(u, "\n") == FileScan(u.(lex := EndLine(u.lex)), "");
  }

  /** In code every other character counts for what it is. */
  lemma CodeCounts(t: Tally, c: char)
    requires t.lex.Code? && c != '"' && c != '\'' && c != '`' && c != '/'
    ensures var u, opener := Scan(t, [c]), c == '{' || c == '[' || c == '(';
            var closer := c == '}' || c == ']' || c == ')';
            && u.lex == Code
            && u.opens == t.opens + (if opener then 1 else 0)
            && u.closers == t.closers + (if closer then 1 else 0)
            && u.leading == t.leading + (if closer && t.opens == 0 then 1 else 0)
  {
    assert Scan(t, [c]) == Scan(Tick(t, c), []);
  }

  // ----- What the counts are -----

  /** The structural brackets of a line, in order. */
  function Structure(s: Lex, line: string): string
    decreases |line|
  {
    if line == "" then ""
    else
      var structural := (s.Code? || s.Slash?) && (IsOpener(line[0]) || IsCloser(line[0]));
      (if structural then [line[0]] else "") + Structure(Step(s, line[0]), line[1..])
  }

  function Openers(brackets: string): nat {
    if brackets == "" then 0 else (if IsOpener(brackets[0]) then 1 else 0) + Openers(brackets[1..])
  }

  /** The brackets before the first opener. */
  function BeforeOpener(brackets: string): (n: nat)
    ensures n == 0 <==> brackets == "" || IsOpener(brackets[0])
  {
    if brackets == "" || IsOpener(brackets[0]) then 0 else 1 + BeforeOpener(brackets[1..])
  }

  /** The tally counts the structural brackets: the openers, the others, and those
      before the first opener, whatever else stands between them. */
  lemma {:induction false} TallyCounts(t: Tally, line: string)
    ensures var u, brackets := Scan(t, line), Structure(t.lex, line);
            && u.opens == t.opens + Openers(brackets)
            && u.opens + u.closers == t.opens + t.closers + |brackets|
            && u.leading == t.leading + if t.opens == 0 then BeforeOpener(brackets) else 0
    decreases |line|
  {
    if line != "" {
      var c, rest := line[0], Structure(Step(t.lex, line[0]), line[1..]);
      TallyCounts(Tick(t, c), line[1..]);
      assert ([c] + rest)[1..] == rest && "" + rest == rest;
    }
  }

  /** The closers a line starts with, white space between them aside. */
  function StartRun(line: string): nat {
    if line == "" then 0
    else if IsCloser(line[0]) then 1 + StartRun(line[1..])
    else if IsWhitespace(line[0]) then StartRun(line[1..])
    else 0
  }

  /** What follows them. */
  function AfterRun(line: string): string {
    if line != "" && (IsCloser(line[0]) || IsWhitespace(line[0])) then AfterRun(line[1..]) else line
  }

  lemma {:induction false} RunIsLeading(line: string)
    ensures BeforeOpener(Structure(Code, line)) == StartRun(line) + BeforeOpener(Structure(Code, AfterRun(line)))
  {
    hide IsWhitespace;
    if line != "" && (IsCloser(line[0]) || IsWhitespace(line[0])) {
      var c, rest := line[0], Structure(Code, line[1..]);
      BlankIsNoBracket(c);
      RunIsLeading(line[1..]);
      assert ([c] + rest)[1..] == rest && "" + rest == rest;
    }
  }

  lemma BlankIsNoBracket(c: char)
    ensures IsWhitespace(c) ==> !IsOpener(c) && !IsCloser(c) && Step(Code, c) == Code
    ensures IsCloser(c) ==> !IsOpener(c) && Step(Code, c) == Code
  {
  }

  /** The leading closers are the closers the line starts with exactly when the
      first bracket after those is not a closer. */
  lemma LeadingIsRunIff(line: string)
    ensures Scan(START, line).leading == StartRun(line) <==>
            var rest := Structure(Code, AfterRun(line)); rest == "" || IsOpener(rest[0])
  {
    TallyCounts(START, line);
    RunIsLeading(line);
  }

  /** A line that is dedented for a closer with other content before it. */
  lemma LeadingBehindContent()
    ensures Scan(START, "x)").leading == 1 && StartRun("x)") == 0
  {
    assert "x)"[1..] == ")" && ")"[1..] == "";
    assert Scan(Tick(START, 'x'), ")") == Scan(Tick(Tick(START, 'x'), ')'), "");
  }
}
