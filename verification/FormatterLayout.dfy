/** The layout of the formatter's output, line by line: where each source line
    comes out, and how many spaces stand in front of it. */
module FormatterLayout {
  import opened Text
  import opened Lexer
  import opened Formatter
  import opened FormatterTheorems
  import opened FormatterNesting

  lemma {:induction false} FormatLinesConcat(st: State, a: seq<string>, b: seq<string>)
    ensures FormatLines(st, a + b) == FormatLines(st, a) + FormatLines(After(st, a), b)
    decreases |a|
  {
    hide FormatLine;
    if a == [] {
      assert a + b == b;
    } else {
      assert (a + b)[1..] == a[1..] + b;
      FormatLinesConcat(FormatLine(st, a[0]).0, a[1..], b);
    }
  }

  /** How many lines of output come from the first `k` lines of the source. */
  function OutputIndex(s: string, k: nat): nat
    requires k <= |Lines(s)|
  {
    |FormatLines(INITIAL, Lines(s)[..k])|
  }

  /** What line `k` of the source gives stands at its place in the output. */
  lemma LineStandsAt(s: string, k: nat)
    requires k < |Lines(s)|
    ensures var out, given := Lines(Format(s)), FormatLine(StateAt(s, k), Lines(s)[k]).1;
            && OutputIndex(s, k + 1) == OutputIndex(s, k) + |given| <= |out|
            && out[OutputIndex(s, k)..OutputIndex(s, k + 1)] == given
  {
    hide FormatLine;
    hide Lines;
    hide Format;
    var lines := Lines(s);
    LinesOfFormat(s);
    assert lines == lines[..k] + lines[k..];
    FormatLinesConcat(INITIAL, lines[..k], lines[k..]);
    assert lines[..k + 1] == lines[..k] + [lines[k]];
    FormatLinesConcat(INITIAL, lines[..k], [lines[k]]);
    assert [lines[k]][1..] == [] && lines[k..][0] == lines[k];
    assert FormatLines(FormatLine(StateAt(s, k), lines[k]).0, []) == [];
  }

  /** `line` stands in the output at the place of source line `k`, which gives
      that line and no other. */
  ghost predicate ComesOutAs(s: string, k: nat, line: string)
    requires k < |Lines(s)|
  {
    var out, i := Lines(Format(s)), OutputIndex(s, k);
    i < |out| && out[i] == line && OutputIndex(s, k + 1) == i + 1
  }

  ghost predicate InTemplate(s: string, k: nat)
    requires k < |Lines(s)|
  {
    TallyAt(s, k).lex.Template?
  }

  ghost predicate IsBlank(s: string, k: nat)
    requires k < |Lines(s)|
  {
    !InTemplate(s, k) && AllWhitespace(Lines(s)[k])
  }

  /** A code line that is not blank comes out trimmed, behind four spaces for each
      level of the depth before it that its leading closers leave. */
  lemma CodeLineIndented(s: string, k: nat)
    requires k < |Lines(s)| && !InTemplate(s, k) && !IsBlank(s, k)
    ensures var depth, leading := StateAt(s, k).depth, LeadingAt(s, k);
            var levels := if depth > leading then depth - leading else 0;
            ComesOutAs(s, k, seq(4 * levels, _ => ' ') + Trim(Lines(s)[k]))
  {
    hide Lines;
    hide Format;
    hide FormatLine;
    hide StateAt;
    hide TallyAt;
    hide OutputIndex;
    hide Trim;
    hide Indent;
    TrimBlank(Lines(s)[k]);
    CarryIsLexerState(s, k);
    CodeLine(StateAt(s, k), Lines(s)[k]);
    LineStandsAt(s, k);
    IndentIsSpaces(Monus(StateAt(s, k).depth, LeadingAt(s, k)));
  }

  /** The same with the bracket balance of the text before the line. */
  ghost predicate IndentedByBalance(s: string, k: nat)
    requires k < |Lines(s)|
  {
    !InTemplate(s, k) && !IsBlank(s, k) ==>
      var balance, leading := TallyAt(s, k).Balance(), LeadingAt(s, k);
      var levels := if balance > leading then balance - leading else 0;
      ComesOutAs(s, k, seq(4 * levels, _ => ' ') + Trim(Lines(s)[k]))
  }

  lemma LineIsIndented(s: string, k: nat)
    requires k < |Lines(s)| && DepthIsBalance(s, k)
    ensures IndentedByBalance(s, k)
  {
    hide Lines;
    hide ComesOutAs;
    hide StateAt;
    hide TallyAt;
    hide LeadingAt;
    hide Trim;
    if !InTemplate(s, k) && !IsBlank(s, k) {
      CodeLineIndented(s, k);
    }
  }

  /** Indentation follows bracket nesting: the running depth is the bracket
      balance of the text before each line exactly when the text is well nested,
      and then every code line is indented by that balance. */
  lemma IndentationFollowsNesting(s: string)
    ensures DepthIsBalanceUpTo(s, |Lines(s)|) <==> WellNestedUpTo(s, |Lines(s)|)
    ensures WellNestedUpTo(s, |Lines(s)|) ==> forall k: nat | k < |Lines(s)| :: IndentedByBalance(s, k)
  {
    hide Lines;
    hide IndentedByBalance;
    hide DepthIsBalance;
    hide WellNested;
    DepthIsBalanceIff(s, |Lines(s)|);
    if WellNestedUpTo(s, |Lines(s)|) {
      forall k: nat | k < |Lines(s)|
        ensures IndentedByBalance(s, k)
      {
        assert DepthIsBalance(s, k);
        LineIsIndented(s, k);
      }
    }
  }

  /** A line inside a template keeps its indentation and loses what trails. */
  lemma TemplateLineKept(s: string, k: nat)
    requires k < |Lines(s)| && InTemplate(s, k)
    ensures ComesOutAs(s, k, TrimEnd(Lines(s)[k]))
  {
    hide Lines;
    hide Format;
    hide StateAt;
    hide TallyAt;
    hide OutputIndex;
    hide TrimEnd;
    CarryIsLexerState(s, k);
    LineStandsAt(s, k);
  }

  lemma {:induction false} BlankRunBefore(s: string, k: nat)
    requires k <= |Lines(s)|
    ensures StateAt(s, k).blankRun == 0 <==> k == 0 || !IsBlank(s, k - 1)
    ensures StateAt(s, k).carry.InBacktick? ==> StateAt(s, k).blankRun == 0
    decreases k
  {
    hide Lines;
    hide Trim;
    hide TallyAt;
    hide Indent;
    if k == 0 {
      assert Lines(s)[..0] == [];
    } else {
      BlankRunBefore(s, k - 1);
      CarryIsLexerState(s, k - 1);
      AfterSnoc(INITIAL, Lines(s), k - 1);
      TrimBlank(Lines(s)[k - 1]);
      BlankOrNot(StateAt(s, k - 1), Lines(s)[k - 1]);
    }
  }

  lemma BlankOrNot(st: State, raw: string)
    requires st.carry.InBacktick? ==> st.blankRun == 0
    ensures var next := FormatLine(st, raw).0;
            && (next.blankRun == 0 <==> st.carry.InBacktick? || Trim(raw) != "")
            && (next.carry.InBacktick? ==> next.blankRun == 0)
  {
    hide Trim;
    hide Scan;
    hide Indent;
  }

  /** Of a run of blank lines the first comes out, empty, and the others do not. */
  lemma BlankLinesCollapse(s: string, k: nat)
    requires k < |Lines(s)| && IsBlank(s, k)
    ensures k == 0 || !IsBlank(s, k - 1) ==> ComesOutAs(s, k, "")
    ensures k > 0 && IsBlank(s, k - 1) ==> OutputIndex(s, k + 1) == OutputIndex(s, k)
  {
    hide Lines;
    hide Format;
    hide StateAt;
    hide TallyAt;
    hide OutputIndex;
    hide Trim;
    BlankRunBefore(s, k);
    CarryIsLexerState(s, k);
    TrimBlank(Lines(s)[k]);
    LineStandsAt(s, k);
  }
}
