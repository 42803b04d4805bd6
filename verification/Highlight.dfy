/** The JSON and HTML highlighters of the developer tools. */
module Highlight {
  import opened Text

  datatype Color = KEY | STRING | NUMBER | LITERAL | PLAIN | PUNCT | COMMENT | TAG | ATTR | TEXT

  datatype Piece = Piece(text: string, color: Color)

  datatype Language = Json | Html

  /** The Unicode tables that words are read with. */
  datatype Unicode = Unicode(isAlphabetic: char -> bool, isAlphanumeric: char -> bool) {
    /** Letters are alphanumeric, and the marks of HTML are not. */
    ghost predicate Consistent() {
      && (forall c :: isAlphabetic(c) ==> isAlphanumeric(c))
      && (forall c | c == '"' || c == '\'' || c == '<' || c == '/' || c == '>' :: !isAlphanumeric(c))
    }
  }

  /** The text that a run of pieces shows. */
  function Joined(job: seq<Piece>): string {
    if job == [] then "" else Joined(job[..|job| - 1]) + job[|job| - 1].text
  }

  lemma JoinedSnoc(job: seq<Piece>, p: Piece)
    ensures Joined(job + [p]) == Joined(job) + p.text
  {
    assert (job + [p])[..|job|] == job;
  }

  // ----- What a piece of JSON must be -----

  predicate IsDigit(c: char) { '0' <= c <= '9' }

  predicate IsNumberPart(c: char) {
    IsDigit(c) || c == '+' || c == '-' || c == '.' || c == 'e' || c == 'E'
  }

  predicate IsPunct(c: char) {
    c == '{' || c == '}' || c == '[' || c == ']' || c == ':' || c == ','
  }

  predicate IsLiteral(word: string) { word == "true" || word == "false" || word == "null" }

  /** The first index from `i` on that is not white space. */
  function NextVisible(s: string, i: nat): (j: nat)
    requires i <= |s|
    ensures i <= j <= |s|
    decreases |s| - i
  {
    if i < |s| && IsWhitespace(s[i]) then NextVisible(s, i + 1) else i
  }

  /** What follows is, after any white space, a colon. */
  predicate ColonAfter(s: string, i: nat)
    requires i <= |s|
  {
    var j := NextVisible(s, i);
    j < |s| && s[j] == ':'
  }

  /** The end of a string literal whose body starts at `i`: after its first
      unescaped quote, or the end of the text. */
  function StringEnd(s: string, i: nat): (j: nat)
    requires i <= |s|
    ensures i <= j <= |s|
    decreases |s| - i
  {
    if i == |s| then i
    else if s[i] == '\\' && i + 1 < |s| then StringEnd(s, i + 2)
    else if s[i] == '"' then i + 1
    else StringEnd(s, i + 1)
  }

  /** The end of a run of characters that satisfy a test. */
  function RunEnd(s: string, i: nat, test: char -> bool): (j: nat)
    requires i <= |s|
    ensures i <= j <= |s|
    decreases |s| - i
  {
    if i < |s| && test(s[i]) then RunEnd(s, i + 1, test) else i
  }

  /** A number starts with a digit, or with a minus before one. */
  predicate NumberStarts(s: string, i: nat)
    requires i < |s|
  {
    IsDigit(s[i]) || (s[i] == '-' && i + 1 < |s| && IsDigit(s[i + 1]))
  }

  /** A piece from `start` on: where it ends and which colour it has are both fixed
      by what stands there. */
  ghost predicate JsonMarked(u: Unicode, s: string, start: nat, p: Piece) {
    && start < start + |p.text| <= |s|
    && var c, end := s[start], start + |p.text|;
       if c == '"' then
         end == StringEnd(s, start + 1) && p.color == if ColonAfter(s, end) then KEY else STRING
       else if NumberStarts(s, start) then
         end == RunEnd(s, start + 1, IsNumberPart) && p.color == NUMBER
       else if u.isAlphabetic(c) then
         end == RunEnd(s, start, u.isAlphabetic) && p.color == if IsLiteral(s[start..end]) then LITERAL else PLAIN
       else
         end == start + 1 && p.color == if IsPunct(c) then PUNCT else PLAIN
  }

  // ----- What a piece of HTML must be -----

  /** `at`: whether the needle stands at `i`. */
  predicate At(chars: string, i: nat, needle: string) {
    i + |needle| <= |chars| && chars[i..i + |needle|] == needle
  }

  predicate IsQuote(c: char) { c == '"' || c == '\'' }

  /** The end of a name: the first character that is neither alphanumeric nor a hyphen. */
  function NameEnd(u: Unicode, s: string, i: nat): (j: nat)
    requires i <= |s|
    ensures i <= j <= |s|
    decreases |s| - i
  {
    if i < |s| && (u.isAlphanumeric(s[i]) || s[i] == '-') then NameEnd(u, s, i + 1) else i
  }

  /** The end of a comment from `i` on: after the first close, or the end of the text. */
  function CommentEnd(s: string, i: nat): (j: nat)
    requires i <= |s|
    ensures i <= j <= |s|
    decreases |s| - i
  {
    if i == |s| then i else if At(s, i, "-->") then i + 3 else CommentEnd(s, i + 1)
  }

  function TextEnd(s: string, i: nat): (j: nat)
    requires i <= |s|
    ensures i <= j <= |s|
    decreases |s| - i
  {
    if i < |s| && s[i] != '<' then TextEnd(s, i + 1) else i
  }

  /** The end of a quoted value whose body starts at `i`. */
  function QuoteEnd(s: string, i: nat, quote: char): (j: nat)
    requires i <= |s|
    ensures i <= j <= |s|
    decreases |s| - i
  {
    if i == |s| then i else if s[i] == quote then i + 1 else QuoteEnd(s, i + 1, quote)
  }

  /** The end of a tag: after the first `>` from `i` on that no quotes enclose. */
  function TagStop(s: string, i: nat): (j: nat)
    requires i <= |s|
    ensures i <= j <= |s| && (i < |s| ==> i < j)
    decreases |s| - i
  {
    if i == |s| then i
    else if s[i] == '>' then i + 1
    else if IsQuote(s[i]) then TagStop(s, QuoteEnd(s, i + 1, s[i]))
    else TagStop(s, i + 1)
  }

  /** The end of the comment, tag or text that starts at `i`. */
  function ItemEnd(s: string, i: nat): (j: nat)
    requires i < |s|
    ensures i < j <= |s|
  {
    if s[i] != '<' then TextEnd(s, i)
    else if At(s, i, "<!--") then (assert !At(s, i, "-->") by { OpenIsNoClose(s, i); } CommentEnd(s, i))
    else TagStop(s, i + 1)
  }

  lemma OpenIsNoClose(s: string, i: nat)
    requires i < |s| && s[i] == '<'
    ensures !At(s, i, "-->")
  {
    assert i + 3 <= |s| ==> s[i..i + 3][0] == s[i];
  }

  /** The start of the item that holds `i`, from the item start `from` on. */
  function ItemAt(s: string, from: nat, i: nat): (b: nat)
    requires from <= i < |s|
    ensures from <= b <= i
    decreases |s| - from
  {
    if i < ItemEnd(s, from) then from else ItemAt(s, ItemEnd(s, from), i)
  }

  /** A tag starts at `b`. */
  predicate TagStarts(s: string, b: nat) {
    b < |s| && ItemAt(s, 0, b) == b && s[b] == '<' && !At(s, b, "<!--")
  }

  /** Where the name of the tag at `b` starts. */
  function NameStart(s: string, b: nat): nat {
    if b + 1 < |s| && s[b + 1] == '/' then b + 2 else b + 1
  }

  /** A piece inside the tag at `b`, apart from its name. */
  ghost predicate MarkedInTag(u: Unicode, s: string, b: nat, start: nat, p: Piece) {
    && start < start + |p.text| <= |s|
    && (start == NameStart(s, b) ==> NameEnd(u, s, start) == start)
    && var c, end := s[start], start + |p.text|;
       if IsQuote(c) then end == QuoteEnd(s, start + 1, c) && p.color == STRING
       else if c != '>' && u.isAlphabetic(c) then end == NameEnd(u, s, start) && p.color == ATTR
       else end == start + 1 && p.color == PUNCT
  }

  /** A piece from `start` on. The name of a tag, which may be empty, stands behind its
      bracket. Every other piece belongs to the item that holds its first character:
      texts and comments are whole items, and inside a tag the character decides. */
  ghost predicate HtmlMarked(u: Unicode, s: string, start: nat, p: Piece) {
    && start + |p.text| <= |s|
    && if p.color == TAG then
         exists b: nat :: TagStarts(s, b) && start == NameStart(s, b) && start + |p.text| == NameEnd(u, s, start)
       else
         && start < |s|
         && var b := ItemAt(s, 0, start);
            if s[b] == '<' && !At(s, b, "<!--") then MarkedInTag(u, s, b, start, p)
            else
              && start == b && start + |p.text| == ItemEnd(s, b)
              && p.color == if s[b] == '<' then COMMENT else TEXT
  }

  // ----- All pieces -----

  ghost predicate Marked(l: Language, u: Unicode, s: string, start: nat, p: Piece) {
    if l.Json? then JsonMarked(u, s, start, p) else HtmlMarked(u, s, start, p)
  }

  ghost predicate MarkedAt(l: Language, u: Unicode, s: string, job: seq<Piece>, k: nat)
    requires k < |job|
  {
    Marked(l, u, s, |Joined(job[..k])|, job[k])
  }

  ghost predicate AllMarked(l: Language, u: Unicode, s: string, job: seq<Piece>) {
    forall k | 0 <= k < |job| :: MarkedAt(l, u, s, job, k)
  }

  lemma MarkedKept(l: Language, u: Unicode, s: string, job: seq<Piece>, p: Piece, k: nat)
    requires k < |job| && MarkedAt(l, u, s, job, k)
    ensures MarkedAt(l, u, s, job + [p], k)
  {
    hide Joined;
    hide Marked;
    assert (job + [p])[..k] == job[..k];
  }

  lemma AllMarkedSnoc(l: Language, u: Unicode, s: string, job: seq<Piece>, p: Piece)
    requires AllMarked(l, u, s, job) && Marked(l, u, s, |Joined(job)|, p)
    ensures AllMarked(l, u, s, job + [p])
  {
    hide Joined;
    hide Marked;
    assert (job + [p])[..|job|] == job;
    assert MarkedAt(l, u, s, job + [p], |job|);
    hide MarkedAt;
    forall k | 0 <= k < |job|
      ensures MarkedAt(l, u, s, job + [p], k)
    {
      MarkedKept(l, u, s, job, p, k);
    }
  }

  /** One more piece, shown after the text so far. */
  function Show(ghost l: Language, ghost u: Unicode, text: string, ghost start: nat, ghost end: nat,
                job: seq<Piece>, token: string, color: Color): (r: seq<Piece>)
    requires start <= end <= |text| && token == text[start..end] && Joined(job) == text[..start]
    requires AllMarked(l, u, text, job) && Marked(l, u, text, start, Piece(token, color))
    ensures Joined(r) == text[..end] && AllMarked(l, u, text, r)
  {
    JoinedSnoc(job, Piece(token, color));
    AllMarkedSnoc(l, u, text, job, Piece(token, color));
    assert text[..end] == text[..start] + text[start..end];
    job + [Piece(token, color)]
  }

  // ----- The JSON highlighter -----

  method ReadString(chars: string, start: nat) returns (token: string, i: nat)
    requires start < |chars| && chars[start] == '"'
    ensures start < i <= |chars| && token == chars[start..i] && i == StringEnd(chars, start + 1)
  {
    token := "\"";
    i := start + 1;
    while i < |chars|
      invariant start < i <= |chars| && token == chars[start..i]
      invariant StringEnd(chars, i) == StringEnd(chars, start + 1)
    {
      if chars[i] == '\\' && i + 1 < |chars| {
        token := token + [chars[i]];
        token := token + [chars[i + 1]];
        assert token == chars[start..i + 2];
        i := i + 2;
        continue;
      }
      token := token + [chars[i]];
      assert token == chars[start..i + 1];
      var closing := chars[i] == '"';
      i := i + 1;
      if closing {
        return;
      }
    }
  }

  method SkipBlank(chars: string, i: nat) returns (j: nat)
    requires i <= |chars|
    ensures j == NextVisible(chars, i)
  {
    j := i;
    while j < |chars| && IsWhitespace(chars[j])
      invariant i <= j <= |chars| && NextVisible(chars, j) == NextVisible(chars, i)
    {
      j := j + 1;
    }
  }

  /** A run of characters that satisfy a test, after a first one. */
  method ReadRun(chars: string, start: nat, test: char -> bool) returns (token: string, i: nat)
    requires start < |chars|
    ensures start < i <= |chars| && token == chars[start..i] && i == RunEnd(chars, start + 1, test)
  {
    token := [chars[start]];
    i := start + 1;
    while i < |chars| && test(chars[i])
      invariant start < i <= |chars| && token == chars[start..i]
      invariant RunEnd(chars, i, test) == RunEnd(chars, start + 1, test)
    {
      token := token + [chars[i]];
      i := i + 1;
    }
  }

  /** The JSON highlighter: the pieces show exactly the text, and each ends where it
      must and has the colour it must. */
  method HighlightJson(u: Unicode, text: string) returns (job: seq<Piece>)
    ensures Joined(job) == text
    ensures AllMarked(Json, u, text, job)
  {
    job := [];
    var i := 0;
    while i < |text|
      invariant 0 <= i <= |text| && Joined(job) == text[..i]
      invariant AllMarked(Json, u, text, job)
    {
      hide AllMarked;
      hide Joined;
      hide JsonMarked;
      var p, end := JsonPiece(u, text, i);
      job, i := Show(Json, u, text, i, end, job, p.text, p.color), end;
    }
    assert text[..i] == text;
  }

  method JsonPiece(u: Unicode, text: string, start: nat) returns (p: Piece, i: nat)
    requires start < |text|
    ensures start < i <= |text| && p.text == text[start..i]
    ensures JsonMarked(u, text, start, p)
  {
    hide StringEnd;
    hide NextVisible;
    hide RunEnd;
    var c := text[start];
    var token;
    if c == '"' {
      token, i := ReadString(text, start);
      var j := SkipBlank(text, i);
      var isKey := j < |text| && text[j] == ':';
      p := Piece(token, if isKey then KEY else STRING);
    } else if IsDigit(c) || (c == '-' && start + 1 < |text| && IsDigit(text[start + 1])) {
      token, i := ReadRun(text, start, IsNumberPart);
      p := Piece(token, NUMBER);
    } else if u.isAlphabetic(c) {
      token, i := ReadRun(text, start, u.isAlphabetic);
      RunAdvances(text, start, u.isAlphabetic);
      p := Piece(token, if token == "true" || token == "false" || token == "null" then LITERAL else PLAIN);
    } else {
      i := start + 1;
      assert [c] == text[start..i];
      p := Piece([c], if IsPunct(c) then PUNCT else PLAIN);
    }
  }

  lemma RunAdvances(s: string, i: nat, test: char -> bool)
    requires i < |s| && test(s[i])
    ensures RunEnd(s, i, test) == RunEnd(s, i + 1, test)
  {
  }

  // ----- Items -----

  /** Walking from item to item reaches `i`. */
  ghost predicate Boundary(s: string, from: nat, i: nat)
    requires from <= i <= |s|
    decreases |s| - from
  {
    from == i || (from < |s| && ItemEnd(s, from) <= i && Boundary(s, ItemEnd(s, from), i))
  }

  lemma {:induction false} NextBoundary(s: string, from: nat, i: nat)
    requires from <= i < |s| && Boundary(s, from, i)
    ensures Boundary(s, from, ItemEnd(s, i))
    decreases |s| - from
  {
    hide ItemEnd;
    if from < i {
      NextBoundary(s, ItemEnd(s, from), i);
    } else {
      assert Boundary(s, ItemEnd(s, i), ItemEnd(s, i));
    }
  }

  lemma {:induction false} HoldingItem(s: string, from: nat, b: nat, i: nat)
    requires from <= b <= i < |s| && Boundary(s, from, b) && i < ItemEnd(s, b)
    ensures ItemAt(s, from, i) == b
    decreases |s| - from
  {
    hide ItemEnd;
    if from < b {
      HoldingItem(s, ItemEnd(s, from), b, i);
    }
  }

  /** A name holds neither a quote nor the end of its tag. */
  lemma {:induction false} NameInTag(u: Unicode, s: string, i: nat)
    requires u.Consistent() && i <= |s|
    ensures TagStop(s, NameEnd(u, s, i)) == TagStop(s, i)
    decreases |s| - i
  {
    if i < |s| && (u.isAlphanumeric(s[i]) || s[i] == '-') {
      NameInTag(u, s, i + 1);
    }
  }

  // ----- The HTML highlighter -----

  /** The HTML highlighter: the pieces show exactly the text, and each ends where it
      must and has the colour it must. */
  method HighlightHtml(u: Unicode, text: string) returns (job: seq<Piece>)
    requires u.Consistent()
    ensures Joined(job) == text
    ensures AllMarked(Html, u, text, job)
  {
    hide At;
    job := [];
    var i := 0;
    while i < |text|
      invariant 0 <= i <= |text| && Joined(job) == text[..i]
      invariant AllMarked(Html, u, text, job) && Boundary(text, 0, i)
    {
      hide Joined;
      hide AllMarked;
      hide Boundary;
      hide ItemAt;
      NextBoundary(text, 0, i);
      HoldingItem(text, 0, i, i);
      if text[i] == '<' {
        if At(text, i, "<!--") {
          var token, end := ReadComment(text, i);
          job, i := Show(Html, u, text, i, end, job, token, COMMENT), end;
          continue;
        }
        job, i := HighlightTag(u, text, i, job);
      } else {
        var token, end := ReadText(text, i);
        job, i := Show(Html, u, text, i, end, job, token, TEXT), end;
      }
    }
    assert text[..i] == text;
  }

  method ReadComment(chars: string, start: nat) returns (token: string, i: nat)
    requires At(chars, start, "<!--")
    ensures start < i <= |chars| && token == chars[start..i]
    ensures i == CommentEnd(chars, start)
  {
    token := "";
    i := start;
    while i < |chars|
      invariant start <= i <= |chars| && token == chars[start..i]
      invariant CommentEnd(chars, i) == CommentEnd(chars, start)
    {
      token := token + [chars[i]];
      assert token == chars[start..i + 1];
      if At(chars, i, "-->") {
        token := token + [chars[i + 1]];
        token := token + [chars[i + 2]];
        assert token == chars[start..i + 3];
        i := i + 3;
        return;
      }
      i := i + 1;
    }
  }

  method ReadText(chars: string, start: nat) returns (token: string, i: nat)
    requires start < |chars| && chars[start] != '<'
    ensures start < i <= |chars| && token == chars[start..i]
    ensures i == TextEnd(chars, start)
  {
    token := "";
    i := start;
    while i < |chars| && chars[i] != '<'
      invariant start <= i <= |chars| && token == chars[start..i]
      invariant TextEnd(chars, i) == TextEnd(chars, start)
    {
      token := token + [chars[i]];
      i := i + 1;
    }
  }

  /** A tag name, which may be empty. */
  method ReadName(u: Unicode, chars: string, start: nat) returns (name: string, i: nat)
    requires start <= |chars|
    ensures start <= i <= |chars| && name == chars[start..i]
    ensures i == NameEnd(u, chars, start)
  {
    name := "";
    i := start;
    while i < |chars| && (u.isAlphanumeric(chars[i]) || chars[i] == '-')
      invariant start <= i <= |chars| && name == chars[start..i]
      invariant NameEnd(u, chars, i) == NameEnd(u, chars, start)
    {
      name := name + [chars[i]];
      i := i + 1;
    }
  }

  /** From the opening quote to the next same quote, or to the end of the text. */
  method ReadQuoted(chars: string, start: nat, quote: char) returns (token: string, i: nat)
    requires start < |chars|
    ensures start < i <= |chars| && token == chars[start..i]
    ensures i == QuoteEnd(chars, start + 1, quote)
  {
    token := [chars[start]];
    i := start + 1;
    while i < |chars|
      invariant start < i <= |chars| && token == chars[start..i]
      invariant QuoteEnd(chars, i, quote) == QuoteEnd(chars, start + 1, quote)
    {
      token := token + [chars[i]];
      var closing := chars[i] == quote;
      i := i + 1;
      if closing {
        return;
      }
    }
  }

  /** Inside the tag at `b`: what the rest of the tag is, and what `i` belongs to. */
  ghost predicate InTag(s: string, b: nat, i: nat)
    requires i <= |s|
  {
    && b < i && TagStarts(s, b)
    && TagStop(s, i) == ItemEnd(s, b)
    && (i < |s| ==> ItemAt(s, 0, i) == b)
  }

  lemma EntersTag(s: string, b: nat)
    requires b < |s| && Boundary(s, 0, b) && TagStarts(s, b)
    ensures InTag(s, b, b + 1)
  {
    hide At;
    hide ItemAt;
    if b + 1 < |s| {
      HoldingItem(s, 0, b, b + 1);
    }
  }

  lemma StaysInTag(s: string, b: nat, i: nat, j: nat)
    requires b < |s| && Boundary(s, 0, b) && i <= j <= |s| && InTag(s, b, i) && TagStop(s, j) == TagStop(s, i)
    ensures InTag(s, b, j)
  {
    hide ItemAt;
    hide ItemEnd;
    hide TagStarts;
    if j < |s| {
      HoldingItem(s, 0, b, j);
    }
  }

  lemma InTagIsMarked(u: Unicode, s: string, b: nat, start: nat, p: Piece)
    requires start < |s| && InTag(s, b, start) && MarkedInTag(u, s, b, start, p)
    ensures HtmlMarked(u, s, start, p)
  {
    hide At;
    hide ItemAt;
    hide MarkedInTag;
    NoTagInside(u, s, b, start, p);
  }

  lemma NoTagInside(u: Unicode, s: string, b: nat, start: nat, p: Piece)
    requires MarkedInTag(u, s, b, start, p)
    ensures p.color != TAG && start + |p.text| <= |s|
  {
    hide NameEnd;
    hide QuoteEnd;
  }

  lemma BracketIsMarked(u: Unicode, s: string, b: nat)
    requires u.Consistent() && TagStarts(s, b)
    ensures HtmlMarked(u, s, b, Piece("<", PUNCT))
  {
    hide At;
    hide ItemAt;
    hide NameEnd;
    hide QuoteEnd;
  }

  lemma NameIsMarked(u: Unicode, s: string, b: nat, name: string)
    requires TagStarts(s, b) && NameStart(s, b) + |name| <= |s|
    requires NameStart(s, b) + |name| == NameEnd(u, s, NameStart(s, b))
    ensures HtmlMarked(u, s, NameStart(s, b), Piece(name, TAG))
  {
    hide At;
    hide ItemAt;
    hide NameEnd;
  }

  /** The bracket of a tag, and the slash of a closing one. */
  method OpenTag(u: Unicode, text: string, start: nat, before: seq<Piece>) returns (job: seq<Piece>, i: nat)
    requires u.Consistent() && AllMarked(Html, u, text, before)
    requires start < |text| && Boundary(text, 0, start) && TagStarts(text, start) && Joined(before) == text[..start]
    ensures i == NameStart(text, start) <= |text| && InTag(text, start, i)
    ensures Joined(job) == text[..i] && AllMarked(Html, u, text, job)
  {
    hide Joined;
    hide AllMarked;
    hide Boundary;
    hide ItemAt;
    hide At;
    hide ItemEnd;
    hide NameEnd;
    hide TagStarts;
    hide HtmlMarked;
    EntersTag(text, start);
    BracketIsMarked(u, text, start);
    BracketText(text, start);
    job, i := Show(Html, u, text, start, start + 1, before, "<", PUNCT), start + 1;
    if i < |text| && text[i] == '/' {
      assert text[i..i + 1] == "/";
      StaysInTag(text, start, i, i + 1);
      InTagIsMarked(u, text, start, i, Piece("/", PUNCT));
      job, i := Show(Html, u, text, i, i + 1, job, "/", PUNCT), i + 1;
    }
  }

  lemma BracketText(s: string, b: nat)
    requires TagStarts(s, b)
    ensures s[b..b + 1] == "<"
  {
    hide At;
    hide ItemAt;
  }

  method HighlightTag(u: Unicode, text: string, start: nat, before: seq<Piece>) returns (job: seq<Piece>, i: nat)
    requires u.Consistent() && AllMarked(Html, u, text, before)
    requires start < |text| && Boundary(text, 0, start) && TagStarts(text, start) && Joined(before) == text[..start]
    ensures i == ItemEnd(text, start) && Joined(job) == text[..i] && AllMarked(Html, u, text, job)
  {
    hide Joined;
    hide AllMarked;
    hide Boundary;
    hide ItemAt;
    hide At;
    hide ItemEnd;
    hide TagStarts;
    hide NameStart;
    hide NameEnd;
    hide HtmlMarked;
    hide QuoteEnd;
    job, i := OpenTag(u, text, start, before);
    var name, end := ReadName(u, text, i);
    NameInTag(u, text, i);
    NameEndsOnce(u, text, i);
    StaysInTag(text, start, i, end);
    NameIsMarked(u, text, start, name);
    job, i := Show(Html, u, text, i, end, job, name, TAG), end;
    while i < |text| && text[i] != '>'
      invariant start < i <= |text| && Joined(job) == text[..i] && AllMarked(Html, u, text, job)
      invariant InTag(text, start, i) && NameStart(text, start) <= i
      invariant i == NameStart(text, start) ==> NameEnd(u, text, i) == i
    {
      job, i := HighlightInTag(u, text, start, i, job);
    }
    if i < |text| {
      assert text[i..i + 1] == ">";
      InTagIsMarked(u, text, start, i, Piece(">", PUNCT));
      job, i := Show(Html, u, text, i, i + 1, job, ">", PUNCT), i + 1;
    }
  }

  lemma {:induction false} NameEndsOnce(u: Unicode, s: string, i: nat)
    requires i <= |s|
    ensures NameEnd(u, s, NameEnd(u, s, i)) == NameEnd(u, s, i)
    decreases |s| - i
  {
    if i < |s| && (u.isAlphanumeric(s[i]) || s[i] == '-') {
      NameEndsOnce(u, s, i + 1);
    }
  }

  /** One item inside a tag: a value, an attribute, or a single character. */
  method HighlightInTag(u: Unicode, text: string, ghost b: nat, start: nat, before: seq<Piece>)
      returns (job: seq<Piece>, i: nat)
    requires u.Consistent() && AllMarked(Html, u, text, before)
    requires start < |text| && text[start] != '>' && Joined(before) == text[..start]
    requires InTag(text, b, start) && Boundary(text, 0, b) && NameStart(text, b) <= start
    requires start == NameStart(text, b) ==> NameEnd(u, text, start) == start
    ensures start < i <= |text| && Joined(job) == text[..i] && AllMarked(Html, u, text, job)
    ensures InTag(text, b, i)
  {
    hide Joined;
    hide AllMarked;
    hide Boundary;
    hide ItemAt;
    hide At;
    hide ItemEnd;
    hide TagStarts;
    hide NameStart;
    hide NameEnd;
    hide HtmlMarked;
    hide QuoteEnd;
    i := start;
    var c := text[i];
    if c == '"' || c == '\'' {
      var token, next := ReadQuoted(text, i, c);
      StaysInTag(text, b, i, next);
      InTagIsMarked(u, text, b, i, Piece(token, STRING));
      job, i := Show(Html, u, text, i, next, before, token, STRING), next;
    } else if u.isAlphabetic(c) {
      var token, next := ReadName(u, text, i);
      NameAdvances(u, text, i);
      NameInTag(u, text, i);
      StaysInTag(text, b, i, next);
      InTagIsMarked(u, text, b, i, Piece(token, ATTR));
      job, i := Show(Html, u, text, i, next, before, token, ATTR), next;
    } else {
      assert [c] == text[i..i + 1];
      StaysInTag(text, b, i, i + 1);
      InTagIsMarked(u, text, b, i, Piece([c], PUNCT));
      job, i := Show(Html, u, text, i, i + 1, before, [c], PUNCT), i + 1;
    }
  }

  lemma NameAdvances(u: Unicode, s: string, i: nat)
    requires u.Consistent() && i < |s| && u.isAlphabetic(s[i])
    ensures NameEnd(u, s, i) > i
  {
  }
}
