/** The parts of Rust's `str` that the formatter, the PEM reader and the HTML
    re-indenter rest on: white space, trimming and line splitting. */
module Text {

  /** `char::is_whitespace`: the Unicode White_Space property. */
  predicate IsWhitespace(c: char) {
    || '\t' <= c <= '\r'
    || c == ' '
    || c == '\U{85}' || c == '\U{A0}' || c == '\U{1680}'
    || '\U{2000}' <= c <= '\U{200A}'
    || c == '\U{2028}' || c == '\U{2029}' || c == '\U{202F}' || c == '\U{205F}' || c == '\U{3000}'
  }

  ghost predicate AllWhitespace(s: string) {
    forall i | 0 <= i < |s| :: IsWhitespace(s[i])
  }

  /** The characters of `s` that are not white space, in order. */
  function NonWhitespace(s: string): string {
    if s == "" then ""
    else (if IsWhitespace(s[0]) then "" else [s[0]]) + NonWhitespace(s[1..])
  }

  lemma {:induction false} NonWhitespaceConcat(a: string, b: string)
    ensures NonWhitespace(a + b) == NonWhitespace(a) + NonWhitespace(b)
  {
    if a == "" {
      assert a + b == b;
    } else {
      assert (a + b)[1..] == a[1..] + b;
      NonWhitespaceConcat(a[1..], b);
    }
  }

  lemma {:induction false} NonWhitespaceOfBlank(s: string)
    requires AllWhitespace(s)
    ensures NonWhitespace(s) == ""
  {
    if s != "" {
      NonWhitespaceOfBlank(s[1..]);
    }
  }

  // ----- Trimming -----

  function TrimStart(s: string): (r: string)
    ensures |r| <= |s| && r == s[|s| - |r|..]
    ensures forall i | 0 <= i < |s| - |r| :: IsWhitespace(s[i])
    ensures r != "" ==> !IsWhitespace(r[0])
  {
    if s == "" || !IsWhitespace(s[0]) then s else TrimStart(s[1..])
  }

  function TrimEnd(s: string): (r: string)
    ensures r <= s
    ensures forall i | |r| <= i < |s| :: IsWhitespace(s[i])
    ensures r != "" ==> !IsWhitespace(r[|r| - 1])
  {
    if s == "" || !IsWhitespace(s[|s| - 1]) then s else TrimEnd(s[..|s| - 1])
  }

  function Trim(s: string): string {
    TrimEnd(TrimStart(s))
  }

  /** No white space at either end. */
  ghost predicate Tight(s: string) {
    s != "" ==> !IsWhitespace(s[0]) && !IsWhitespace(s[|s| - 1])
  }

  /** `s` is its trimmed form between two runs of white space. */
  lemma TrimSplits(s: string) returns (left: string, right: string)
    ensures AllWhitespace(left) && AllWhitespace(right)
    ensures s == left + Trim(s) + right
    ensures Tight(Trim(s))
  {
    hide IsWhitespace;
    hide TrimStart;
    hide TrimEnd;
    var rest := TrimStart(s);
    var core := TrimEnd(rest);
    var n := |s| - |rest|;
    left, right := s[..n], rest[|core|..];
    assert AllWhitespace(right) by {
      assert forall i | 0 <= i < |right| :: right[i] == rest[|core| + i];
    }
    assert rest == core + right;
    assert s == left + rest;
    assert core != "" ==> core[0] == rest[0];
  }

  lemma TrimEndUnique(core: string, right: string)
    requires AllWhitespace(right)
    requires core != "" ==> !IsWhitespace(core[|core| - 1])
    ensures TrimEnd(core + right) == core
  {
    hide IsWhitespace;
    var s := core + right;
    var e := TrimEnd(s);
    assert core != "" ==> s[|core| - 1] == core[|core| - 1];
    assert |e| >= |core|;
    assert forall i | |core| <= i < |s| :: s[i] == right[i - |core|];
    assert e != "" ==> e[|e| - 1] == s[|e| - 1];
    assert |e| <= |core|;
  }

  lemma TrimStartUnique(left: string, core: string)
    requires AllWhitespace(left)
    requires core != "" ==> !IsWhitespace(core[0])
    ensures TrimStart(left + core) == core
  {
    hide IsWhitespace;
    var s := left + core;
    var r := TrimStart(s);
    assert core != "" ==> s[|left|] == core[0];
    assert |s| - |r| <= |left|;
    assert r != "" ==> r[0] == s[|s| - |r|];
    assert forall i | 0 <= i < |left| :: s[i] == left[i];
    assert |s| - |r| >= |left|;
  }

  /** The trimmed form is the only tight string that fits between two runs of
      white space. */
  lemma TrimUnique(left: string, core: string, right: string)
    requires AllWhitespace(left) && AllWhitespace(right)
    requires Tight(core)
    ensures Trim(left + core + right) == core
  {
    hide IsWhitespace;
    if core == "" {
      assert left + core + right == (left + right) + "";
      TrimStartUnique(left + right, "");
    } else {
      assert left + core + right == left + (core + right);
      TrimStartUnique(left, core + right);
      TrimEndUnique(core, right);
    }
  }

  lemma TrimBlank(s: string)
    ensures Trim(s) == "" <==> AllWhitespace(s)
  {
    hide IsWhitespace;
    if AllWhitespace(s) {
      TrimUnique(s, "", "");
      assert s + "" + "" == s;
    } else {
      var left, right := TrimSplits(s);
      var i :| 0 <= i < |s| && !IsWhitespace(s[i]);
      assert Trim(s) == "" ==> s == left + right;
    }
  }

  lemma TrimEndKeepsTrim(s: string)
    ensures Trim(TrimEnd(s)) == Trim(s)
  {
    hide IsWhitespace;
    hide Trim;
    var e := TrimEnd(s);
    var left, right := TrimSplits(e);
    var tail := s[|e|..];
    assert s == e + tail;
    assert s == left + Trim(e) + (right + tail);
    TrimUnique(left, Trim(e), right + tail);
  }

  lemma NonWhitespaceOfTrim(s: string)
    ensures NonWhitespace(Trim(s)) == NonWhitespace(s)
  {
    var left, right := TrimSplits(s);
    NonWhitespaceConcat(left + Trim(s), right);
    NonWhitespaceConcat(left, Trim(s));
    NonWhitespaceOfBlank(left);
    NonWhitespaceOfBlank(right);
  }

  // ----- Lines -----

  /** The index of the first newline, or the length when there is none. */
  function FindNewline(s: string): (i: nat)
    ensures i <= |s|
    ensures forall k | 0 <= k < i :: s[k] != '\n'
    ensures i < |s| ==> s[i] == '\n'
  {
    if s == "" || s[0] == '\n' then 0 else 1 + FindNewline(s[1..])
  }

  /** Drop the carriage return of a CRLF line ending. */
  function Chomp(line: string): (r: string)
    ensures r <= line
    ensures forall i | |r| <= i < |line| :: IsWhitespace(line[i])
  {
    if line != "" && line[|line| - 1] == '\r' then line[..|line| - 1] else line
  }

  /** `str::lines`: a final line without a newline keeps a trailing `\r`. */
  function Lines(s: string): (ls: seq<string>)
    ensures forall l | l in ls :: '\n' !in l
  {
    if s == "" then []
    else
      var i := FindNewline(s);
      if i == |s| then [s] else [Chomp(s[..i])] + Lines(s[i + 1..])
  }

  function Unlines(ls: seq<string>): string {
    if ls == [] then "" else ls[0] + "\n" + Unlines(ls[1..])
  }

  lemma {:induction false} UnlinesConcat(a: seq<string>, b: seq<string>)
    ensures Unlines(a + b) == Unlines(a) + Unlines(b)
    decreases |a|
  {
    if a == [] {
      assert a + b == b;
    } else {
      assert (a + b)[1..] == a[1..] + b;
      UnlinesConcat(a[1..], b);
    }
  }

  /** A line that can be read back: no newline inside, no `\r` at the end. */
  ghost predicate PlainLine(l: string) {
    '\n' !in l && (l != "" ==> l[|l| - 1] != '\r')
  }

  lemma LinesOfCons(line: string, rest: string)
    requires '\n' !in line
    ensures Lines(line + "\n" + rest) == [Chomp(line)] + Lines(rest)
  {
    hide IsWhitespace;
    var s := line + "\n" + rest;
    var i := FindNewline(s);
    assert s[|line|] == '\n';
    assert i <= |line|;
    assert forall k | 0 <= k < |line| :: s[k] == line[k] && line[k] in line;
    assert i == |line|;
    assert s[..i] == line;
    assert s[i + 1..] == rest;
  }

  lemma {:induction false} LinesOfUnlines(ls: seq<string>)
    requires forall i | 0 <= i < |ls| :: PlainLine(ls[i])
    ensures Lines(Unlines(ls)) == ls
  {
    if ls != [] {
      LinesOfUnlines(ls[1..]);
      LinesOfCons(ls[0], Unlines(ls[1..]));
      assert [ls[0]] + ls[1..] == ls;
    }
  }

  /** The first line of a non-empty string, and what follows its line ending. */
  lemma LinesUnfold(s: string) returns (head: string, gap: string, tail: string)
    requires s != ""
    ensures s == head + gap + tail && AllWhitespace(gap) && |tail| < |s|
    ensures Lines(s) == [head] + Lines(tail)
  {
    var i := FindNewline(s);
    if i == |s| {
      head, gap, tail := s, "", "";
    } else {
      head, tail := Chomp(s[..i]), s[i + 1..];
      gap := s[|head|..i + 1];
      assert forall k | |head| <= k < i :: IsWhitespace(s[..i][k]) && s[..i][k] == s[k];
    }
  }

  /** Splitting into lines loses only white space. */
  lemma {:induction false} LinesKeepContent(s: string)
    ensures NonWhitespace(Unlines(Lines(s))) == NonWhitespace(s)
    decreases |s|
  {
    hide IsWhitespace;
    if s != "" {
      var head, gap, tail := LinesUnfold(s);
      assert Lines(s)[1..] == Lines(tail);
      NonWhitespaceConcat(head + "\n", Unlines(Lines(tail)));
      NonWhitespaceConcat(head, "\n");
      assert NonWhitespace("\n") == "" by { NewlineIsBlank(); }
      LinesKeepContent(tail);
      NonWhitespaceOfBlank(gap);
      NonWhitespaceConcat(head + gap, tail);
      NonWhitespaceConcat(head, gap);
    }
  }

  lemma NewlineIsBlank()
    ensures NonWhitespace("\n") == ""
  {
    NonWhitespaceOfBlank("\n");
  }
}
