/** What the formatter promises, over every source text. */
module FormatterTheorems {
  import opened Text
  import opened Lexer
  import opened Formatter

  // ----- Formatting twice -----

  /** Two states that the line loop cannot tell apart on replayed output: the
      replay has not seen the blank lines that were dropped. */
  ghost predicate SameRun(a: State, b: State) {
    a.depth == b.depth && a.carry == b.carry && (a.blankRun == 0 <==> b.blankRun == 0)
  }

  lemma IndentBlank(n: nat)
    ensures AllWhitespace(Indent(n)) && '\n' !in Indent(n)
  {
    if n > 0 {
      IndentBlank(n - 1);
    }
  }

  lemma TrimOfIndented(n: nat, core: string)
    requires Tight(core)
    ensures Trim(Indent(n) + core) == core
  {
    hide IsWhitespace;
    hide Trim;
    IndentBlank(n);
    TrimUnique(Indent(n), core, "");
    assert Indent(n) + core + "" == Indent(n) + core;
  }

  lemma TrimIsTight(s: string)
    ensures Tight(Trim(s))
  {
    var _, _ := TrimSplits(s);
  }

  lemma TrimEndTwice(s: string)
    ensures TrimEnd(TrimEnd(s)) == TrimEnd(s)
  {
  }

  lemma CarryOfReset(a: Tally, b: Tally)
    requires a.(lex := EndLine(a.lex)) == b.(lex := EndLine(b.lex))
    ensures CarryOf(a.lex) == CarryOf(b.lex)
  {
  }

  /** A line's output, fed back, gives itself and moves the state the same way. */
  lemma ReplayLine(st: State, again: State, raw: string)
    requires SameRun(st, again)
    ensures var (next, emitted) := FormatLine(st, raw);
            if emitted == [] then SameRun(next, again)
            else |emitted| == 1 && SameRun(next, FormatLine(again, emitted[0]).0)
                 && FormatLine(again, emitted[0]).1 == emitted
  {
    hide IsWhitespace;
    hide Trim;
    hide TrimEnd;
    hide Scan;
    hide Indent;
    if st.carry.InBacktick? {
      TrimEndTwice(raw);
      ScanOfTrimEnd(Entry(InBacktick), raw);
      CarryOfReset(Scan(Entry(InBacktick), TrimEnd(raw)), Scan(Entry(InBacktick), raw));
    } else if Trim(raw) == "" {
      TrimBlank("");
    } else {
      var t := Scan(Entry(InCode), Trim(raw));
      TrimIsTight(raw);
      TrimOfIndented(Monus(st.depth, t.leading), Trim(raw));
    }
  }

  lemma ScanOfTrimEnd(t: Tally, line: string)
    ensures var u, v := Scan(t, TrimEnd(line)), Scan(t, line);
            u.(lex := EndLine(u.lex)) == v.(lex := EndLine(v.lex))
  {
    ScanOfPrefix(t, line, TrimEnd(line));
  }

  lemma {:induction false} ReplayLines(st: State, again: State, lines: seq<string>)
    requires SameRun(st, again)
    ensures FormatLines(again, FormatLines(st, lines)) == FormatLines(st, lines)
    decreases |lines|
  {
    hide FormatLine;
    if lines != [] {
      var (next, emitted) := FormatLine(st, lines[0]);
      var rest := FormatLines(next, lines[1..]);
      ReplayLine(st, again, lines[0]);
      if emitted == [] {
        ReplayLines(next, again, lines[1..]);
        assert [] + rest == rest;
      } else {
        ReplayLines(next, FormatLine(again, emitted[0]).0, lines[1..]);
        assert (emitted + rest)[0] == emitted[0] && (emitted + rest)[1..] == rest;
      }
    }
  }

  /** No newline inside and no white space at the end. */
  lemma TidyIsPlain(l: string)
    requires '\n' !in l && (l != "" ==> !IsWhitespace(l[|l| - 1]))
    ensures PlainLine(l)
  {
  }

  lemma IndentedIsTidy(n: nat, raw: string)
    requires '\n' !in raw && Trim(raw) != ""
    ensures var l := Indent(n) + Trim(raw); '\n' !in l && l != "" && !IsWhitespace(l[|l| - 1])
  {
    hide Trim;
    hide Indent;
    hide IsWhitespace;
    var left, right := TrimSplits(raw);
    var core := Trim(raw);
    assert raw[|left|..|left| + |core|] == core;
    assert '\n' !in core;
    IndentBlank(n);
  }

  lemma EmittedIsPlain(st: State, raw: string)
    requires '\n' !in raw
    ensures forall l | l in FormatLine(st, raw).1 :: PlainLine(l)
    ensures forall l | l in FormatLine(st, raw).1 :: l != "" ==> !IsWhitespace(l[|l| - 1])
  {
    hide Scan;
    hide Trim;
    hide Indent;
    hide IsWhitespace;
    hide PlainLine;
    TidyIsPlain("");
    if st.carry.InBacktick? {
      TidyIsPlain(TrimEnd(raw));
    } else if Trim(raw) != "" {
      var n := Monus(st.depth, Scan(Entry(InCode), Trim(raw)).leading);
      IndentedIsTidy(n, raw);
      TidyIsPlain(Indent(n) + Trim(raw));
    }
  }

  lemma {:induction false} OutputIsPlain(st: State, lines: seq<string>)
    requires forall i | 0 <= i < |lines| :: '\n' !in lines[i]
    ensures forall l | l in FormatLines(st, lines) :: PlainLine(l)
    decreases |lines|
  {
    hide FormatLine;
    hide PlainLine;
    if lines != [] {
      EmittedIsPlain(st, lines[0]);
      OutputIsPlain(FormatLine(st, lines[0]).0, lines[1..]);
    }
  }

  /** The lines of the output are the lines the loop emitted. */
  lemma LinesOfFormat(source: string)
    ensures Lines(Format(source)) == FormatLines(INITIAL, Lines(source))
  {
    hide PlainLine;
    assert forall i | 0 <= i < |Lines(source)| :: Lines(source)[i] in Lines(source);
    OutputIsPlain(INITIAL, Lines(source));
    LinesOfUnlines(FormatLines(INITIAL, Lines(source)));
  }

  /** Formatting is idempotent on every input. */
  lemma FormatIdempotent(source: string)
    ensures Format(Format(source)) == Format(source)
  {
    LinesOfFormat(source);
    ReplayLines(INITIAL, INITIAL, Lines(source));
  }

  // ----- Content -----

  /** The lines that are not blank, without their outer white space. */
  function Contents(lines: seq<string>): seq<string> {
    if lines == [] then []
    else (if Trim(lines[0]) == "" then [] else [Trim(lines[0])]) + Contents(lines[1..])
  }

  lemma EmittedContents(st: State, raw: string)
    ensures Contents(FormatLine(st, raw).1) == Contents([raw])
  {
    hide Scan;
    hide Trim;
    hide TrimEnd;
    hide Indent;
    hide IsWhitespace;
    if st.carry.InBacktick? {
      TrimEndKeepsTrim(raw);
    } else if Trim(raw) == "" {
      TrimBlank("");
    } else {
      TrimIsTight(raw);
      TrimOfIndented(Monus(st.depth, Scan(Entry(InCode), Trim(raw)).leading), Trim(raw));
    }
  }

  lemma {:induction false} ContentsConcat(a: seq<string>, b: seq<string>)
    ensures Contents(a + b) == Contents(a) + Contents(b)
    decreases |a|
  {
    hide Trim;
    if a == [] {
      assert a + b == b;
    } else {
      assert (a + b)[1..] == a[1..] + b;
      ContentsConcat(a[1..], b);
    }
  }

  lemma {:induction false} ContentsKept(st: State, lines: seq<string>)
    ensures Contents(FormatLines(st, lines)) == Contents(lines)
    decreases |lines|
  {
    hide FormatLine;
    hide Trim;
    if lines != [] {
      var (next, emitted) := FormatLine(st, lines[0]);
      EmittedContents(st, lines[0]);
      ContentsKept(next, lines[1..]);
      ContentsConcat(emitted, FormatLines(next, lines[1..]));
      ContentsConcat([lines[0]], lines[1..]);
      assert [lines[0]] + lines[1..] == lines;
    }
  }

  /** Formatting keeps every non-blank line, in order, with every character
      between its first and its last non-blank one. */
  lemma FormatKeepsContents(source: string)
    ensures Contents(Lines(Format(source))) == Contents(Lines(source))
  {
    LinesOfFormat(source);
    ContentsKept(INITIAL, Lines(source));
  }

  lemma {:induction false} ContentsHoldCharacters(lines: seq<string>)
    ensures NonWhitespace(Unlines(Contents(lines))) == NonWhitespace(Unlines(lines))
    decreases |lines|
  {
    hide Trim;
    hide IsWhitespace;
    if lines != [] {
      var core := Trim(lines[0]);
      var rest := Contents(lines[1..]);
      ContentsHoldCharacters(lines[1..]);
      NonWhitespaceOfTrim(lines[0]);
      NewlineIsBlank();
      NonWhitespaceConcat(lines[0] + "\n", Unlines(lines[1..]));
      NonWhitespaceConcat(lines[0], "\n");
      if core == "" {
        assert Contents(lines) == rest;
      } else {
        assert Contents(lines)[1..] == rest;
        NonWhitespaceConcat(core + "\n", Unlines(rest));
        NonWhitespaceConcat(core, "\n");
      }
    }
  }

  /** The non-blank characters of output and input are the same sequence. */
  lemma FormatKeepsCharacters(source: string)
    ensures NonWhitespace(Format(source)) == NonWhitespace(source)
  {
    FormatKeepsContents(source);
    LinesKeepContent(source);
    LinesKeepContent(Format(source));
    ContentsHoldCharacters(Lines(source));
    ContentsHoldCharacters(Lines(Format(source)));
  }

  // ----- What the header promises and the code does not -----

  /** A line apart from its indentation: a template continuation line as it is,
      another line from its first non-blank character, nothing if it is blank. */
  function Body(st: State, raw: string): seq<string> {
    if st.carry.InBacktick? then [raw]
    else if Trim(raw) == "" then []
    else [TrimStart(raw)]
  }

  function Bodies(st: State, lines: seq<string>): seq<string>
    decreases |lines|
  {
    if lines == [] then []
    else Body(st, lines[0]) + Bodies(FormatLine(st, lines[0]).0, lines[1..])
  }

  function TrimEnds(bodies: seq<string>): seq<string> {
    if bodies == [] then [] else [TrimEnd(bodies[0])] + TrimEnds(bodies[1..])
  }

  lemma {:induction false} TrimEndsConcat(a: seq<string>, b: seq<string>)
    ensures TrimEnds(a + b) == TrimEnds(a) + TrimEnds(b)
    decreases |a|
  {
    if a == [] {
      assert a + b == b;
    } else {
      assert (a + b)[1..] == a[1..] + b;
      TrimEndsConcat(a[1..], b);
    }
  }

  lemma BodyOfIndented(n: nat, raw: string)
    ensures TrimStart(Indent(n) + Trim(raw)) == TrimEnd(TrimStart(raw)) == Trim(raw)
  {
    hide IsWhitespace;
    IndentBlank(n);
    TrimIsTight(raw);
    TrimStartUnique(Indent(n), Trim(raw));
  }

  lemma {:induction false} BodiesOfOutput(st: State, again: State, lines: seq<string>)
    requires SameRun(st, again)
    ensures Bodies(again, FormatLines(st, lines)) == TrimEnds(Bodies(st, lines))
    decreases |lines|
  {
    hide FormatLine;
    hide Body;
    if lines != [] {
      var (next, emitted) := FormatLine(st, lines[0]);
      var rest := FormatLines(next, lines[1..]);
      ReplayLine(st, again, lines[0]);
      BodyOfEmitted(st, again, lines[0]);
      TrimEndsConcat(Body(st, lines[0]), Bodies(next, lines[1..]));
      if emitted == [] {
        BodiesOfOutput(next, again, lines[1..]);
        assert [] + rest == rest;
      } else {
        BodiesOfOutput(next, FormatLine(again, emitted[0]).0, lines[1..]);
        assert (emitted + rest)[0] == emitted[0] && (emitted + rest)[1..] == rest;
      }
    }
  }

  lemma BodyOfEmitted(st: State, again: State, raw: string)
    requires SameRun(st, again)
    ensures var emitted := FormatLine(st, raw).1;
            TrimEnds(Body(st, raw)) == if emitted == [] then [] else Body(again, emitted[0])
  {
    hide IsWhitespace;
    hide Scan;
    hide Indent;
    if st.carry.InCode? {
      if Trim(raw) == "" {
        TrimBlank("");
      } else {
        var n := Monus(st.depth, Scan(Entry(InCode), Trim(raw)).leading);
        BodyOfIndented(n, raw);
        TrimIsTight(raw);
        TrimOfIndented(n, Trim(raw));
      }
    }
  }

  ghost predicate EndsBlank(s: string) {
    s != "" && IsWhitespace(s[|s| - 1])
  }

  lemma {:induction false} TrimEndsUnchanged(bodies: seq<string>)
    ensures TrimEnds(bodies) == bodies <==> forall i | 0 <= i < |bodies| :: !EndsBlank(bodies[i])
  {
    hide IsWhitespace;
    if bodies != [] {
      var b := bodies[0];
      TrimEndsUnchanged(bodies[1..]);
      assert bodies == [b] + bodies[1..];
      assert TrimEnd(b) == b <==> !EndsBlank(b);
      assert (forall i | 0 <= i < |bodies| :: !EndsBlank(bodies[i])) <==>
             !EndsBlank(b) && forall i | 0 <= i < |bodies[1..]| :: !EndsBlank(bodies[1..][i]);
    }
  }

  /** Content other than the indentation loses its trailing white space, inside
      templates too, so it is preserved exactly when there is none to lose. */
  lemma ContentPreservedIff(source: string)
    ensures var before, after := Bodies(INITIAL, Lines(source)), Bodies(INITIAL, Lines(Format(source)));
            && after == TrimEnds(before)
            && (after == before <==> forall i | 0 <= i < |before| :: !EndsBlank(before[i]))
  {
    hide FormatLines;
    LinesOfFormat(source);
    BodiesOfOutput(INITIAL, INITIAL, Lines(source));
    TrimEndsUnchanged(Bodies(INITIAL, Lines(source)));
  }

  /** A line whose content is not kept. */
  lemma TrailingBlankLost()
    ensures Bodies(INITIAL, Lines(Format("a "))) != Bodies(INITIAL, Lines("a "))
  {
    hide *;
    OneLine("a ");
    OneBody("a ");
    ContentPreservedIff("a ");
  }

  lemma OneLine(source: string)
    requires source == "a "
    ensures Lines(source) == [source] && TrimStart(source) == source && EndsBlank(source)
    ensures Trim(source) != ""
  {
    assert !IsWhitespace(source[0]) && IsWhitespace(source[1]);
    TrimBlank(source);
  }

  lemma OneBody(source: string)
    requires Lines(source) == [source] && TrimStart(source) == source && EndsBlank(source) && Trim(source) != ""
    ensures var bodies := Bodies(INITIAL, Lines(source)); |bodies| == 1 && EndsBlank(bodies[0])
  {
    hide FormatLine;
    hide Trim;
    hide TrimStart;
    hide Lines;
    assert [source][1..] == [];
    assert Bodies(INITIAL, [source]) == [source] + Bodies(FormatLine(INITIAL, source).0, []);
  }

  ghost predicate AllBlank(lines: seq<string>) {
    forall i | 0 <= i < |lines| :: AllWhitespace(lines[i])
  }

  /** Blank lines are only counted in code. */
  ghost predicate Settled(st: State) {
    st.carry.InBacktick? ==> st.blankRun == 0
  }

  /** The last line out is empty exactly when the last line in is blank; nothing
      comes out only for blank lines that follow a blank line. */
  lemma {:induction false} LastLineOut(st: State, lines: seq<string>)
    requires lines != [] && Settled(st)
    ensures var out := FormatLines(st, lines);
            if out == [] then st.blankRun > 0 && AllBlank(lines)
            else out[|out| - 1] == "" <==> AllWhitespace(lines[|lines| - 1])
    decreases |lines|
  {
    hide AllWhitespace;
    hide FormatLine;
    var (next, emitted) := FormatLine(st, lines[0]);
    var out := FormatLines(st, lines);
    LineOut(st, lines[0]);
    if |lines| == 1 {
      assert lines[1..] == [] && FormatLines(next, lines[1..]) == [];
      assert out == emitted + [];
    } else {
      var rest := FormatLines(next, lines[1..]);
      LastLineOut(next, lines[1..]);
      assert lines[1..][|lines| - 2] == lines[|lines| - 1];
      assert out == emitted + rest;
      if rest == [] {
        assert AllWhitespace(lines[1..][|lines| - 2]);
        assert forall i | 1 <= i < |lines| :: lines[i] == lines[1..][i - 1];
      } else {
        assert out[|out| - 1] == rest[|rest| - 1];
      }
    }
  }

  lemma LineOut(st: State, raw: string)
    ensures var (next, emitted) := FormatLine(st, raw);
            && (emitted == [] ==> st.blankRun > 0 && AllWhitespace(raw))
            && (emitted != [] ==> |emitted| == 1 && (emitted[0] == "" <==> AllWhitespace(raw)))
            && (Settled(st) ==> Settled(next) && (next.blankRun > 0 ==> AllWhitespace(raw)))
  {
    hide IsWhitespace;
    hide Scan;
    hide Trim;
    hide TrimEnd;
    hide Indent;
    if st.carry.InCode? {
      TrimBlank(raw);
    } else {
      TrimEndBlank(raw);
    }
  }

  lemma TrimEndBlank(s: string)
    ensures TrimEnd(s) == "" <==> AllWhitespace(s)
  {
    hide IsWhitespace;
    if AllWhitespace(s) {
      TrimEndUnique("", s);
      assert "" + s == s;
    }
  }

  lemma {:induction false} AtMostOneBlank(st: State, lines: seq<string>)
    requires st.carry.InCode? && AllBlank(lines)
    ensures FormatLines(st, lines) == if lines == [] || st.blankRun > 0 then [] else [""]
    decreases |lines|
  {
    hide IsWhitespace;
    if lines != [] {
      TrimBlank(lines[0]);
      AtMostOneBlank(FormatLine(st, lines[0]).0, lines[1..]);
    }
  }

  lemma {:induction false} UnlinesEnd(ls: seq<string>)
    requires ls != []
    ensures Unlines(ls) == Unlines(ls[..|ls| - 1]) + (ls[|ls| - 1] + "\n")
  {
    assert ls == ls[..|ls| - 1] + [ls[|ls| - 1]];
    UnlinesConcat(ls[..|ls| - 1], [ls[|ls| - 1]]);
  }

  lemma DoubleNewline(ls: seq<string>)
    requires ls != [] && '\n' !in ls[|ls| - 1]
    ensures EndsWith(Unlines(ls), "\n")
    ensures EndsWith(Unlines(ls), "\n\n") <==> |ls| > 1 && ls[|ls| - 1] == ""
  {
    hide Unlines;
    var rest, last := ls[..|ls| - 1], ls[|ls| - 1];
    UnlinesEnd(ls);
    if rest == [] {
      UnlinesNone();
      assert "" + (last + "\n") == last + "\n";
      assert last != "" ==> last[|last| - 1] in last;
    } else {
      UnlinesEnd(rest);
      LastTwo(Unlines(rest), last);
    }
  }

  lemma UnlinesNone()
    ensures Unlines([]) == ""
  {
  }

  lemma LastTwo(before: string, last: string)
    requires '\n' !in last && before != "" && before[|before| - 1] == '\n'
    ensures var s := before + (last + "\n");
            EndsWith(s, "\n") && (EndsWith(s, "\n\n") <==> last == "")
  {
    var s := before + (last + "\n");
    assert s[|s| - 1] == '\n';
    if last != "" {
      assert s[|s| - 2] == last[|last| - 1] && last[|last| - 1] in last;
    } else {
      assert s[|s| - 2] == '\n';
    }
  }

  ghost predicate EndsWith(s: string, suffix: string) {
    |suffix| <= |s| && s[|s| - |suffix|..] == suffix
  }

  /** The result of a non-empty source ends with a newline, and with no more
      than one exactly when the source has no text at all or its last line does. */
  lemma FinalNewlineIff(source: string)
    ensures source == "" ==> Format(source) == ""
    ensures source != "" ==> EndsWith(Format(source), "\n")
    ensures source != "" ==>
              (!EndsWith(Format(source), "\n\n") <==>
               AllBlank(Lines(source)) || !AllWhitespace(Lines(source)[|Lines(source)| - 1]))
  {
    hide FormatLines;
    hide Unlines;
    hide EndsWith;
    hide AllWhitespace;
    if source != "" {
      var lines := Lines(source);
      var out := FormatLines(INITIAL, lines);
      LastLineOut(INITIAL, lines);
      assert forall i | 0 <= i < |lines| :: lines[i] in lines;
      OutputIsPlain(INITIAL, lines);
      assert PlainLine(out[|out| - 1]) by { assert out[|out| - 1] in out; }
      DoubleNewline(out);
      if AllBlank(lines) {
        AtMostOneBlank(INITIAL, lines);
      } else {
        TextComesOut(source);
      }
    } else {
      FormatNothing();
    }
  }

  /** A source whose result ends with more than one newline. */
  lemma FinalBlankKept()
    ensures EndsWith(Format("a\n\n"), "\n\n")
  {
    hide *;
    ABlankLine();
    FinalNewlineIff("a\n\n");
    LastIsBlank("a\n\n");
  }

  lemma ABlankLine()
    ensures Lines("a\n\n") == ["a", ""]
  {
    assert "a\n\n" == "a" + "\n" + "\n" && "\n" == "" + "\n" + "";
    LinesOfCons("a", "\n");
    LinesOfCons("", "");
  }

  lemma LastIsBlank(source: string)
    requires Lines(source) == ["a", ""]
    ensures !AllBlank(Lines(source)) && AllWhitespace(Lines(source)[|Lines(source)| - 1])
  {
    assert !IsWhitespace(Lines(source)[0][0]);
  }

  lemma FormatNothing()
    ensures Format("") == ""
  {
  }

  lemma TextComesOut(source: string)
    requires !AllBlank(Lines(source))
    ensures FormatLines(INITIAL, Lines(source)) != [""]
  {
    hide FormatLines;
    hide Lines;
    ContentsKept(INITIAL, Lines(source));
    SomeContents(Lines(source));
    NoContents();
  }

  lemma NoContents()
    ensures Contents([""]) == []
  {
    TrimBlank("");
  }

  lemma {:induction false} SomeContents(lines: seq<string>)
    requires !AllBlank(lines)
    ensures Contents(lines) != []
    decreases |lines|
  {
    hide IsWhitespace;
    TrimBlank(lines[0]);
    if AllWhitespace(lines[0]) {
      assert lines == [lines[0]] + lines[1..];
      SomeContents(lines[1..]);
    }
  }
}
