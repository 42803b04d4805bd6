/** The formatter's line-by-line state against one lexer run over the whole
    file: the carry always agrees, and the depth agrees exactly when the
    brackets do. */
module FormatterNesting {
  import opened Text
  import opened Lexer
  import opened Formatter

  /** The offset in `s` at which line `k` starts; the end of `s` after the last line. */
  function LineStart(s: string, k: nat): (o: nat)
    requires k <= |Lines(s)|
    ensures o <= |s|
    decreases k
  {
    if k == 0 then 0
    else
      var i := FindNewline(s);
      if i == |s| then |s| else i + 1 + LineStart(s[i + 1..], k - 1)
  }

  ghost predicate IsLineEnding(gap: string) {
    gap == "\n" || gap == "\r\n"
  }

  ghost predicate EndsInReturn(line: string) {
    line != "" && line[|line| - 1] == '\r'
  }

  /** The lines after the first are the lines of what follows its newline. */
  lemma PastFirstLine(s: string, k: nat)
    requires FindNewline(s) < |s| && k < |Lines(s)|
    ensures var n := FindNewline(s) + 1;
            k <= |Lines(s[n..])| && LineStart(s, k + 1) == n + LineStart(s[n..], k)
            && |Lines(s)| == |Lines(s[n..])| + 1
            && Lines(s)[k] == if k == 0 then Chomp(s[..n - 1]) else Lines(s[n..])[k - 1]
  {
    hide IsWhitespace;
  }

  /** From one line start to the next lies the line and its ending; only the
      last line may lack an ending. A carriage return belongs to the ending. */
  lemma {:induction false} LineExtent(s: string, k: nat) returns (gap: string)
    requires k < |Lines(s)|
    ensures LineStart(s, k) <= LineStart(s, k + 1)
    ensures s[LineStart(s, k)..LineStart(s, k + 1)] == Lines(s)[k] + gap
    ensures IsLineEnding(gap) || (gap == "" && k + 1 == |Lines(s)|)
    ensures gap == "\n" ==> !EndsInReturn(Lines(s)[k])
    decreases k
  {
    hide IsWhitespace;
    hide IsLineEnding;
    hide Lines;
    hide LineStart;
    hide Chomp;
    hide FindNewline;
    var i := FindNewline(s);
    if i == |s| {
      OnlyLine(s);
      gap := "";
      assert s[0..|s|] == s == s + gap;
    } else if k == 0 {
      PastFirstLine(s, 0);
      StartOfFirst(s);
      StartOfFirst(s[i + 1..]);
      gap := ChompGap(s, i);
    } else {
      PastFirstLine(s, k);
      PastFirstLine(s, k - 1);
      var rest := s[i + 1..];
      gap := LineExtent(rest, k - 1);
      ExtentShift(s, i + 1, LineStart(rest, k - 1), LineStart(rest, k));
    }
  }

  lemma OnlyLine(s: string)
    requires FindNewline(s) == |s| && Lines(s) != []
    ensures Lines(s) == [s] && LineStart(s, 0) == 0 && LineStart(s, 1) == |s|
  {
    hide IsWhitespace;
  }

  lemma StartOfFirst(s: string)
    ensures LineStart(s, 0) == 0
  {
    hide IsWhitespace;
    hide Lines;
  }

  lemma ExtentShift(s: string, n: nat, a: nat, b: nat)
    requires n <= |s| && a <= b <= |s| - n
    ensures s[n + a..n + b] == s[n..][a..b]
  {
  }

  lemma ChompGap(s: string, i: nat) returns (gap: string)
    requires i < |s| && s[i] == '\n'
    ensures IsLineEnding(gap) && s[0..i + 1] == Chomp(s[..i]) + gap
    ensures gap == "\n" ==> !EndsInReturn(Chomp(s[..i]))
  {
    gap := if i > 0 && s[i - 1] == '\r' then "\r\n" else "\n";
    assert s[0..i + 1] == s[..i] + "\n";
    if gap == "\r\n" {
      assert s[..i] == s[..i - 1] + "\r";
    }
  }

  /** The formatter's state before line `k`. */
  function StateAt(s: string, k: nat): State
    requires k <= |Lines(s)|
  {
    After(INITIAL, Lines(s)[..k])
  }

  /** The whole-file lexer before line `k`. */
  function TallyAt(s: string, k: nat): Tally
    requires k <= |Lines(s)|
  {
    FileScan(START, s[..LineStart(s, k)])
  }

  lemma {:induction false} AfterSnoc(st: State, lines: seq<string>, k: nat)
    requires k < |lines|
    ensures After(st, lines[..k + 1]) == FormatLine(After(st, lines[..k]), lines[k]).0
    decreases k
  {
    hide FormatLine;
    if k == 0 {
      assert lines[..1] == [lines[0]] && lines[..0] == [];
      assert After(st, [lines[0]]) == After(FormatLine(st, lines[0]).0, []);
    } else {
      AfterSnoc(FormatLine(st, lines[0]).0, lines[1..], k - 1);
      assert lines[..k + 1][1..] == lines[1..][..k];
      assert lines[..k][1..] == lines[1..][..k - 1];
    }
  }

  /** What one line and its ending do to the whole-file tally. */
  lemma TallyOfLine(t: Tally, line: string, gap: string)
    requires '\n' !in line && (IsLineEnding(gap) || gap == "")
    ensures var u, v := FileScan(t, line + gap), Scan(t, line);
            u.Balance() == v.Balance() && CarryOf(u.lex) == CarryOf(v.lex)
            && (gap != "" ==> u.lex == EndLine(v.lex))
  {
    var v := Scan(t, line);
    FileScanConcat(t, line, gap);
    FileScanOfLine(t, line);
    if gap == "\r\n" {
      assert gap[1..] == "\n" && "\n"[1..] == "";
      var w := Tick(v, '\r');
      WhitespaceTick(v, '\r');
      assert FileScan(v, gap) == FileScan(w, "\n") == w.(lex := EndLine(w.lex));
    } else if gap == "\n" {
      assert "\n"[1..] == "";
      assert FileScan(v, gap) == v.(lex := EndLine(v.lex));
    }
  }

  lemma TallyAtNext(s: string, k: nat)
    requires k < |Lines(s)|
    ensures var u, v := TallyAt(s, k + 1), Scan(TallyAt(s, k), Lines(s)[k]);
            u.Balance() == v.Balance() && CarryOf(u.lex) == CarryOf(v.lex)
            && (k + 1 < |Lines(s)| ==> u.lex == EndLine(v.lex))
  {
    hide Lines;
    var gap := LineExtent(s, k);
    var a, b := LineStart(s, k), LineStart(s, k + 1);
    assert s[..b] == s[..a] + s[a..b];
    FileScanConcat(START, s[..a], s[a..b]);
    assert Lines(s)[k] in Lines(s);
    TallyOfLine(TallyAt(s, k), Lines(s)[k], gap);
  }

  lemma BlankScan(raw: string)
    requires Trim(raw) == ""
    ensures Scan(Entry(InCode), raw).Balance() == 0 && CarryOf(Scan(Entry(InCode), raw).lex) == InCode
  {
    hide IsWhitespace;
    hide Trim;
    ScanOfTrim(Entry(InCode), raw);
  }

  lemma CodeScan(raw: string)
    ensures var u, v := Scan(Entry(InCode), Trim(raw)), Scan(Entry(InCode), raw);
            u.opens == v.opens && u.closers == v.closers && CarryOf(u.lex) == CarryOf(v.lex)
  {
    hide IsWhitespace;
    hide Trim;
    hide Scan;
    ScanOfTrim(Entry(InCode), raw);
  }

  /** What one line does to the depth and the carry, in terms of the untrimmed
      line: brackets on a line that continues a template are ignored. */
  lemma StateOfLine(st: State, raw: string)
    ensures var next, t := FormatLine(st, raw).0, Scan(Entry(st.carry), raw);
            && next.carry == CarryOf(t.lex)
            && next.depth == if st.carry.InBacktick? || st.depth + t.Balance() < 0
                             then (if st.carry.InBacktick? then st.depth else 0)
                             else st.depth + t.Balance()
  {
    hide IsWhitespace;
    hide Trim;
    hide TrimEnd;
    hide Scan;
    hide Indent;
    hide CarryOf;
    hide Entry;
    if st.carry.InCode? {
      CodeScan(raw);
      if Trim(raw) == "" {
        BlankScan(raw);
      }
    }
  }

  /** Before every line the carry is the state of the whole-file lexer. */
  lemma {:induction false} CarryIsLexerState(s: string, k: nat)
    requires k <= |Lines(s)|
    ensures StateAt(s, k).carry == CarryOf(TallyAt(s, k).lex)
    ensures k < |Lines(s)| ==> TallyAt(s, k).lex == Entry(StateAt(s, k).carry).lex
    decreases k
  {
    hide Lines;
    hide FormatLine;
    if k == 0 {
      assert Lines(s)[..0] == [] && s[..0] == "";
    } else {
      CarryIsLexerState(s, k - 1);
      AfterSnoc(INITIAL, Lines(s), k - 1);
      var st := StateAt(s, k - 1);
      StateOfLine(st, Lines(s)[k - 1]);
      TallyAtNext(s, k - 1);
      ScanShift(TallyAt(s, k - 1), Entry(st.carry), Lines(s)[k - 1]);
    }
  }

  /** The two walks, one line further. */
  lemma OneLineFurther(s: string, k: nat)
    requires k < |Lines(s)|
    ensures var net := TallyAt(s, k + 1).Balance() - TallyAt(s, k).Balance();
            var st, next := StateAt(s, k), StateAt(s, k + 1);
            next.depth == if st.carry.InBacktick? then st.depth
                          else if st.depth + net < 0 then 0 else st.depth + net
  {
    hide Lines;
    hide FormatLine;
    CarryIsLexerState(s, k);
    AfterSnoc(INITIAL, Lines(s), k);
    StateOfLine(StateAt(s, k), Lines(s)[k]);
    TallyAtNext(s, k);
    ScanShift(TallyAt(s, k), Entry(StateAt(s, k).carry), Lines(s)[k]);
  }

  ghost predicate DepthIsBalance(s: string, k: nat)
    requires k <= |Lines(s)|
  {
    StateAt(s, k).depth == TallyAt(s, k).Balance()
  }

  ghost predicate DepthIsBalanceUpTo(s: string, n: nat)
    requires n <= |Lines(s)|
  {
    forall k: nat | k <= n :: DepthIsBalance(s, k)
  }

  /** Up to line `k` the text has not closed more brackets than it opened, and if
      the line before it continues a template, it closes as many as it opens. */
  ghost predicate WellNested(s: string, k: nat)
    requires k <= |Lines(s)|
  {
    && TallyAt(s, k).Balance() >= 0
    && (k > 0 && TallyAt(s, k - 1).lex.Template? ==> TallyAt(s, k).Balance() == TallyAt(s, k - 1).Balance())
  }

  ghost predicate WellNestedUpTo(s: string, n: nat)
    requires n <= |Lines(s)|
  {
    forall k: nat | k <= n :: WellNested(s, k)
  }

  lemma NestingAtStart(s: string)
    ensures DepthIsBalance(s, 0) && WellNested(s, 0)
  {
    hide Lines;
    hide StateAt;
    hide TallyAt;
    StartsAtZero(s);
  }

  lemma NestingOneFurther(s: string, k: nat)
    requires k < |Lines(s)| && DepthIsBalance(s, k)
    ensures DepthIsBalance(s, k + 1) <==> WellNested(s, k + 1)
  {
    hide Lines;
    hide StateAt;
    hide TallyAt;
    OneLineFurther(s, k);
    CarryIsLexerState(s, k);
  }

  lemma {:induction false} DepthIsBalanceIff(s: string, n: nat)
    requires n <= |Lines(s)|
    ensures DepthIsBalanceUpTo(s, n) <==> WellNestedUpTo(s, n)
    decreases n
  {
    hide Lines;
    hide DepthIsBalance;
    hide WellNested;
    NestingAtStart(s);
    if n > 0 {
      DepthIsBalanceIff(s, n - 1);
      if DepthIsBalance(s, n - 1) {
        NestingOneFurther(s, n - 1);
      }
    }
  }

  lemma StartsAtZero(s: string)
    ensures StateAt(s, 0) == INITIAL && TallyAt(s, 0) == START
  {
    assert Lines(s)[..0] == [] && s[..0] == "";
  }

  /** The closers that open line `k`, as the whole-file lexer sees them. */
  function LeadingAt(s: string, k: nat): nat
    requires k < |Lines(s)|
  {
    Scan(Entry(CarryOf(TallyAt(s, k).lex)), Lines(s)[k]).leading
  }

  lemma CodeLine(st: State, raw: string)
    requires st.carry.InCode? && Trim(raw) != ""
    ensures FormatLine(st, raw).1 == [Indent(Monus(st.depth, Scan(Entry(InCode), raw).leading)) + Trim(raw)]
  {
    hide Trim;
    hide Scan;
    hide Indent;
    ScanOfTrim(Entry(InCode), raw);
  }

  /** A closer after a template's closing backtick is not counted, so the depth
      can stay above the balance. */
  lemma DiscardedCloser()
    ensures var s := "{`" + "\n" + "`}\n";
            |Lines(s)| == 2 && StateAt(s, 2).depth == 1 && TallyAt(s, 2).Balance() == 0
  {
    hide *;
    ExampleLines();
    var s := "{`" + "\n" + "`}\n";
    ExampleScans();
    StartsAtZero(s);
    DiscardedCloserAt(s, 0);
  }

  lemma DiscardedCloserAt(s: string, k: nat)
    requires k + 2 <= |Lines(s)|
    requires Scan(Entry(InCode), Lines(s)[k]) == Tally(Template(false), 1, 0, 0)
    requires Scan(Entry(InBacktick), Lines(s)[k + 1]) == Tally(Code, 0, 1, 1)
    requires StateAt(s, k) == INITIAL && TallyAt(s, k) == START
    ensures StateAt(s, k + 2).depth == 1 && TallyAt(s, k + 2).Balance() == 0
  {
    hide FormatLine;
    hide Lines;
    hide Scan;
    hide StateAt;
    hide TallyAt;
    BalanceOfTwo(s, k);
    CarryIsLexerState(s, k + 1);
    DepthKept(s, k);
  }

  lemma BalanceOfTwo(s: string, k: nat)
    requires k + 2 <= |Lines(s)| && TallyAt(s, k) == START
    requires Scan(Entry(InCode), Lines(s)[k]) == Tally(Template(false), 1, 0, 0)
    requires Scan(Entry(InBacktick), Lines(s)[k + 1]) == Tally(Code, 0, 1, 1)
    ensures TallyAt(s, k + 1).Balance() == 1 && TallyAt(s, k + 1).lex == Template(false)
    ensures TallyAt(s, k + 2).Balance() == 0
  {
    hide Lines;
    hide Scan;
    hide TallyAt;
    TallyAtNext(s, k);
    TallyAtNext(s, k + 1);
    ScanShift(TallyAt(s, k + 1), Entry(InBacktick), Lines(s)[k + 1]);
  }

  lemma DepthKept(s: string, k: nat)
    requires k + 2 <= |Lines(s)| && StateAt(s, k) == INITIAL && TallyAt(s, k).Balance() == 0
    requires TallyAt(s, k + 1).Balance() == 1 && StateAt(s, k + 1).carry == InBacktick
    ensures StateAt(s, k + 2).depth == 1
  {
    hide Lines;
    hide StateAt;
    hide TallyAt;
    OneLineFurther(s, k);
    OneLineFurther(s, k + 1);
  }

  lemma ExampleLines()
    ensures Lines("{`" + "\n" + "`}\n") == ["{`", "`}"]
  {
    LinesOfCons("{`", "`}\n");
    assert "`}\n" == "`}" + "\n" + "";
    LinesOfCons("`}", "");
  }

  lemma ExampleScans()
    ensures Scan(Entry(InCode), "{`") == Tally(Template(false), 1, 0, 0)
    ensures Scan(Entry(InBacktick), "`}") == Tally(Code, 0, 1, 1)
  {
    assert "{`"[1..] == "`" && "`"[1..] == "";
    assert "`}"[1..] == "}" && "}"[1..] == "";
    assert Scan(Tally(Code, 0, 0, 0), "}") == Scan(Tally(Code, 0, 1, 1), "");
  }
}
