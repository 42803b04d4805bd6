/** The PekoScript source formatter: the line loop and its two scanners, proved
    against a per-line specification stated with the reference lexer. */
module Formatter {
  import opened Basics
  import opened Text
  import opened Lexer

  datatype Carry = InCode | InBacktick

  /** What the formatter carries from one line to the next. */
  datatype State = State(depth: nat, carry: Carry, blankRun: nat)

  const INDENT_UNIT := "    "

  const INITIAL := State(0, InCode, 0)

  function Entry(carry: Carry): Tally {
    START.(lex := if carry.InCode? then Code else Template(false))
  }

  function CarryOf(lex: Lex): Carry {
    if lex.Template? then InBacktick else InCode
  }

  function Indent(n: nat): string {
    if n == 0 then "" else INDENT_UNIT + Indent(n - 1)
  }

  /** `saturating_sub`. */
  function Monus(a: nat, b: nat): nat {
    if a < b then 0 else a - b
  }

  /** One line: the state after it and the output lines it gives (none or one). */
  function FormatLine(st: State, raw: string): (State, seq<string>) {
    if st.carry.InBacktick? then
      (st.(carry := CarryOf(Scan(Entry(InBacktick), raw).lex)), [TrimEnd(raw)])
    else
      var trimmed := Trim(raw);
      if trimmed == "" then
        (st.(blankRun := st.blankRun + 1), if st.blankRun == 0 then [""] else [])
      else
        var t := Scan(Entry(InCode), trimmed);
        (State(Monus(st.depth + t.opens, t.closers), CarryOf(t.lex), 0),
         [Indent(Monus(st.depth, t.leading)) + trimmed])
  }

  function FormatLines(st: State, lines: seq<string>): seq<string>
    decreases |lines|
  {
    if lines == [] then []
    else
      var (next, emitted) := FormatLine(st, lines[0]);
      emitted + FormatLines(next, lines[1..])
  }

  /** The state after the given lines. */
  function After(st: State, lines: seq<string>): State
    decreases |lines|
  {
    if lines == [] then st else After(FormatLine(st, lines[0]).0, lines[1..])
  }

  function Format(source: string): string {
    Unlines(FormatLines(INITIAL, Lines(source)))
  }

  // ----- The scanners -----

  /** `Peekable<Chars>`: an iterator that several loops consume. */
  class Chars {
    const text: string
    var pos: nat

    ghost predicate Valid()
      reads this
    {
      pos <= |text|
    }

    constructor (text: string)
      ensures Valid() && this.text == text && pos == 0
    {
      this.text, pos := text, 0;
    }

    method Next() returns (c: Option<char>)
      requires Valid()
      modifies this`pos
      ensures Valid()
      ensures old(pos) < |text| ==> c == Some(text[old(pos)]) && pos == old(pos) + 1
      ensures old(pos) == |text| ==> c == None && pos == old(pos)
    {
      if pos < |text| {
        c := Some(text[pos]);
        pos := pos + 1;
      } else {
        c := None;
      }
    }

    function Peek(): Option<char>
      requires Valid()
      reads this
    {
      if pos < |text| then Some(text[pos]) else None
    }
  }

  /** The tally over the characters an iterator has consumed. */
  ghost function Seen(t: Tally, text: string, pos: nat): Tally
    requires pos <= |text|
  {
    Scan(t, text[..pos])
  }

  lemma SeenNext(t: Tally, text: string, pos: nat)
    requires pos < |text|
    ensures Seen(t, text, pos + 1) == Tick(Seen(t, text, pos), text[pos])
  {
    ScanSnoc(t, text, pos);
  }

  lemma SeenAll(t: Tally, text: string)
    ensures Seen(t, text, 0) == t && Seen(t, text, |text|) == Scan(t, text)
  {
    assert text[..0] == "" && text[..|text|] == text;
  }

  lemma SeenComment(t: Tally, text: string, pos: nat)
    requires pos <= |text| && Seen(t, text, pos).lex.Comment?
    ensures Scan(t, text) == Seen(t, text, pos)
  {
    assert text == text[..pos] + text[pos..];
    ScanConcat(t, text[..pos], text[pos..]);
    CommentAbsorbs(Seen(t, text, pos), text[pos..]);
  }

  /** Consuming a literal counts no bracket, and leaves the lexer in code or, at
      the end of the line, still in the literal. */
  ghost predicate LeftLiteral(before: Tally, now: Tally, atEnd: bool) {
    && now.(lex := before.lex) == before
    && (now.lex.Code?
        || (atEnd && (before.lex.Quoted? ==> now.lex.Quoted?) && (before.lex.Template? ==> now.lex.Template?)))
  }

  method ConsumeQuoted(chars: Chars, quote: char, ghost t: Tally)
    requires chars.Valid() && Seen(t, chars.text, chars.pos).lex == Quoted(quote, false)
    modifies chars`pos
    ensures chars.Valid() && old(chars.pos) <= chars.pos
    ensures LeftLiteral(old(Seen(t, chars.text, chars.pos)), Seen(t, chars.text, chars.pos),
                        chars.pos == |chars.text|)
  {
    ghost var before := Seen(t, chars.text, chars.pos);
    while true
      invariant chars.Valid() && old(chars.pos) <= chars.pos
      invariant var now := Seen(t, chars.text, chars.pos);
                now == before || (now == before.(lex := Quoted(quote, true)) && chars.pos == |chars.text|)
      decreases |chars.text| - chars.pos, if chars.pos < |chars.text| then 1 else 0
    {
      ghost var at := chars.pos;
      var c := chars.Next();
      if c == None {
        return;
      }
      SeenNext(t, chars.text, at);
      if c.value == '\\' {
        at := chars.pos;
        var skipped := chars.Next();
        if skipped.Some? {
          SeenNext(t, chars.text, at);
        }
      } else if c.value == quote {
        return;
      }
    }
  }

  /** The inner loop that both scanners run after an opening backtick. */
  method ConsumeTemplate(chars: Chars, ghost t: Tally) returns (closed: bool)
    requires chars.Valid() && Seen(t, chars.text, chars.pos).lex == Template(false)
    modifies chars`pos
    ensures chars.Valid() && old(chars.pos) <= chars.pos
    ensures LeftLiteral(old(Seen(t, chars.text, chars.pos)), Seen(t, chars.text, chars.pos),
                        chars.pos == |chars.text|)
    ensures closed == Seen(t, chars.text, chars.pos).lex.Code?
  {
    ghost var before := Seen(t, chars.text, chars.pos);
    while true
      invariant chars.Valid() && old(chars.pos) <= chars.pos
      invariant var now := Seen(t, chars.text, chars.pos);
                now == before || (now == before.(lex := Template(true)) && chars.pos == |chars.text|)
      decreases |chars.text| - chars.pos, if chars.pos < |chars.text| then 1 else 0
    {
      ghost var at := chars.pos;
      var c := chars.Next();
      if c == None {
        return false;
      }
      SeenNext(t, chars.text, at);
      if c.value == '\\' {
        at := chars.pos;
        var skipped := chars.Next();
        if skipped.Some? {
          SeenNext(t, chars.text, at);
        }
      } else if c.value == '`' {
        return true;
      }
    }
  }

  /** At the head of a scanner's loop: its two-valued state against the lexer. */
  ghost predicate InStep(state: Carry, lex: Lex, next: Option<char>) {
    match state
    case InCode => lex.Code? || (lex.Slash? && next != Some('/')) || (lex.Quoted? && next == None)
    case InBacktick => lex == Template(false) || (lex == Template(true) && next == None)
  }

  method ScanLine(line: string, carry: Carry) returns (next: Carry, opens: nat, leadingClosers: nat)
    ensures var t := Scan(Entry(carry), line);
            next == CarryOf(t.lex) && opens == t.opens && leadingClosers == t.leading
  {
    hide Scan;
    hide Seen;
    ghost var t := Entry(carry);
    var state := carry;
    var seenOpener := false;
    opens, leadingClosers := 0, 0;
    var chars := new Chars(line);
    SeenAll(t, line);
    while true
      invariant fresh(chars) && chars.Valid() && chars.text == line
      invariant InStep(state, Seen(t, line, chars.pos).lex, chars.Peek())
      invariant opens == Seen(t, line, chars.pos).opens && leadingClosers == Seen(t, line, chars.pos).leading
      invariant seenOpener <==> opens > 0
      decreases |line| - chars.pos, if chars.pos < |line| then 1 else 0
    {
      ghost var at := chars.pos;
      var item := chars.Next();
      if item == None {
        break;
      }
      var c := item.value;
      SeenNext(t, line, at);
      if state == InBacktick {
        if c == '\\' {
          at := chars.pos;
          var skipped := chars.Next();
          if skipped.Some? {
            SeenNext(t, line, at);
          }
        } else if c == '`' {
          state := InCode;
        }
      } else if c == '/' && chars.Peek() == Some('/') {
        SeenNext(t, line, chars.pos);
        SeenComment(t, line, chars.pos + 1);
        break;
      } else if c == '"' {
        ConsumeQuoted(chars, '"', t);
      } else if c == '\'' {
        ConsumeQuoted(chars, '\'', t);
      } else if c == '`' {
        var closed := ConsumeTemplate(chars, t);
        state := if closed then InCode else InBacktick;
      } else if c == '{' || c == '[' || c == '(' {
        opens := opens + 1;
        seenOpener := true;
      } else if (c == '}' || c == ']' || c == ')') && !seenOpener {
        leadingClosers := leadingClosers + 1;
      }
    }
    SeenAll(t, line);
    next := state;
  }

  method ClosersTotal(line: string, carry: Carry) returns (closers: nat)
    ensures closers == Scan(Entry(carry), line).closers
  {
    hide Scan;
    hide Seen;
    ghost var t := Entry(carry);
    var state := carry;
    closers := 0;
    var chars := new Chars(line);
    SeenAll(t, line);
    while true
      invariant fresh(chars) && chars.Valid() && chars.text == line
      invariant InStep(state, Seen(t, line, chars.pos).lex, chars.Peek())
      invariant closers == Seen(t, line, chars.pos).closers
      decreases |line| - chars.pos, if chars.pos < |line| then 1 else 0
    {
      ghost var at := chars.pos;
      var item := chars.Next();
      if item == None {
        break;
      }
      var c := item.value;
      SeenNext(t, line, at);
      if state == InBacktick {
        if c == '\\' {
          at := chars.pos;
          var skipped := chars.Next();
          if skipped.Some? {
            SeenNext(t, line, at);
          }
        } else if c == '`' {
          state := InCode;
        }
      } else if c == '/' && chars.Peek() == Some('/') {
        SeenNext(t, line, chars.pos);
        SeenComment(t, line, chars.pos + 1);
        break;
      } else if c == '"' {
        ConsumeQuoted(chars, '"', t);
      } else if c == '\'' {
        ConsumeQuoted(chars, '\'', t);
      } else if c == '`' {
        var closed := ConsumeTemplate(chars, t);
        state := if closed then InCode else InBacktick;
      } else if c == '}' || c == ']' || c == ')' {
        closers := closers + 1;
      }
    }
    SeenAll(t, line);
  }

  // ----- The line loop -----

  method FormatSource(source: string) returns (out: string)
    ensures out == Format(source)
  {
    out := "";
    var depth: nat := 0;
    var carry := InCode;
    var blankRun: nat := 0;
    var lines := Lines(source);
    assert lines[0..] == lines;
    for k := 0 to |lines|
      invariant out + Unlines(FormatLines(State(depth, carry, blankRun), lines[k..])) == Format(source)
    {
      hide FormatLine;
      hide FormatLines;
      hide Unlines;
      hide Format;
      ghost var after, text := LineByLine(State(depth, carry, blankRun), lines, k);
      ghost var rest := Unlines(FormatLines(after, lines[k + 1..]));
      Associative(out, text, rest);
      out, depth, carry, blankRun := PushLine(out, depth, carry, blankRun, lines[k]);
    }
    assert lines[|lines|..] == [];
  }

  /** The body of the line loop. */
  method PushLine(before: string, depth0: nat, carry0: Carry, blankRun0: nat, rawLine: string)
      returns (out: string, depth: nat, carry: Carry, blankRun: nat)
    ensures State(depth, carry, blankRun) == FormatLine(State(depth0, carry0, blankRun0), rawLine).0
    ensures out == before + Emitted(State(depth0, carry0, blankRun0), rawLine)
    ensures carry0.InCode? && Trim(rawLine) != "" ==>
              var leading := Scan(Entry(InCode), Trim(rawLine)).leading;
              var levels := if depth0 > leading then depth0 - leading else 0;
              out == before + (seq(4 * levels, _ => ' ') + Trim(rawLine) + "\n")
  {
    hide Trim;
    hide TrimEnd;
    hide Scan;
    hide Indent;
    out, depth, carry, blankRun := before, depth0, carry0, blankRun0;
    if carry == InBacktick {
      out := out + TrimEnd(rawLine);
      out := out + "\n";
      assert out == before + (TrimEnd(rawLine) + "\n");
      var next, _, _ := ScanLine(rawLine, carry);
      carry := next;
      return;
    }
    var trimmed := Trim(rawLine);
    if trimmed == "" {
      blankRun := blankRun + 1;
      if blankRun == 1 {
        out := out + "\n";
      }
      return;
    }
    blankRun := 0;
    var nextCarry, opens, leadingClosers := ScanLine(trimmed, carry);
    var lineIndent := Monus(depth, leadingClosers);
    IndentIsSpaces(lineIndent);
    out := AppendIndent(out, lineIndent);
    out := out + trimmed;
    out := out + "\n";
    assert out == before + (Indent(lineIndent) + trimmed + "\n");
    var closers := ClosersTotal(trimmed, carry);
    depth := Monus(depth + opens, closers);
    carry := nextCarry;
  }

  /** The text one line adds to the output. */
  function Emitted(st: State, raw: string): string {
    var emitted := FormatLine(st, raw).1;
    if emitted == [] then "" else emitted[0] + "\n"
  }

  method AppendIndent(out: string, n: nat) returns (r: string)
    ensures r == out + Indent(n)
  {
    r := out;
    for k := 0 to n
      invariant r == out + Indent(k)
    {
      IndentSnoc(k);
      r := r + INDENT_UNIT;
    }
  }

  lemma {:induction false} IndentSnoc(n: nat)
    ensures Indent(n + 1) == Indent(n) + INDENT_UNIT
  {
    if n > 0 {
      IndentSnoc(n - 1);
    }
  }

  lemma {:induction false} IndentIsSpaces(n: nat)
    ensures Indent(n) == seq(4 * n, _ => ' ')
  {
    if n > 0 {
      IndentIsSpaces(n - 1);
    }
  }

  lemma LineByLine(st: State, lines: seq<string>, k: nat) returns (after: State, text: string)
    requires k < |lines|
    ensures after == FormatLine(st, lines[k]).0 && text == Emitted(st, lines[k])
    ensures Unlines(FormatLines(st, lines[k..])) == text + Unlines(FormatLines(after, lines[k + 1..]))
  {
    hide Trim;
    hide TrimEnd;
    hide Scan;
    hide Indent;
    var emitted := FormatLine(st, lines[k]).1;
    after, text := FormatLine(st, lines[k]).0, Unlines(emitted);
    assert lines[k..][0] == lines[k] && lines[k..][1..] == lines[k + 1..];
    UnlinesConcat(emitted, FormatLines(after, lines[k + 1..]));
  }
}
