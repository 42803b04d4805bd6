/** The HTML re-indenter of the developer tools. */
module Reindent {
  import opened Basics
  import opened Text

  /** The Unicode tables the tag name is read with. */
  datatype Unicode = Unicode(isAlphanumeric: char -> bool, toLowercase: string -> string)

  datatype Piece = Tag(text: string) | Content(text: string)

  const VOID_ELEMENTS := [
    "area", "base", "br", "col", "embed", "hr", "img", "input", "link", "meta", "param",
    "source", "track", "wbr"
  ]

  /** The first index of `c`, or the length. */
  function IndexOf(s: string, c: char): (n: nat)
    ensures n <= |s| && (n < |s| ==> s[n] == c)
    ensures forall i | 0 <= i < n :: s[i] != c
  {
    if s == "" || s[0] == c then 0 else 1 + IndexOf(s[1..], c)
  }

  /** The end of the tag that starts `s`: after its `>`, or the end of the text. */
  function TagEnd(s: string): (n: nat)
    ensures n <= |s|
    ensures s != "" && s[0] != '>' ==> n > 0
  {
    var n := IndexOf(s, '>');
    if n < |s| then n + 1 else n
  }

  function Pieces(s: string): seq<Piece>
    decreases |s|
  {
    if s == "" then []
    else if s[0] == '<' then [Tag(s[..TagEnd(s)])] + Pieces(s[TagEnd(s)..])
    else
      var n := IndexOf(s, '<');
      var trimmed := Trim(s[..n]);
      (if trimmed == "" then [] else [Content(trimmed)]) + Pieces(s[n..])
  }

  function SkipAll(s: string, c: char): string {
    if s != "" && s[0] == c then SkipAll(s[1..], c) else s
  }

  function TakeName(u: Unicode, s: string): string {
    if s != "" && (u.isAlphanumeric(s[0]) || s[0] == '-') then [s[0]] + TakeName(u, s[1..]) else ""
  }

  function IsClose(tag: string): bool { "</" <= tag }

  function EndsWith(s: string, suffix: string): bool {
    |suffix| <= |s| && s[|s| - |suffix|..] == suffix
  }

  /** Whether an opening tag adds a level. */
  function Nests(u: Unicode, tag: string): bool {
    var isComment := "<!--" <= tag;
    var isDecl := "<!" <= tag;
    var isSelfClose := EndsWith(tag, "/>");
    var name := u.toLowercase(TakeName(u, SkipAll(SkipAll(tag, '<'), '/')));
    !isComment && !isDecl && !isSelfClose && name !in VOID_ELEMENTS
  }

  function Pad(depth: nat): string {
    if depth == 0 then "" else "  " + Pad(depth - 1)
  }

  /** The depth a piece is written at, and the depth after it. */
  function Depths(u: Unicode, p: Piece, depth: nat): (nat, nat) {
    if p.Content? then (depth, depth)
    else if IsClose(p.text) then
      var d := if depth > 0 then depth - 1 else 0;
      (d, d)
    else (depth, if Nests(u, p.text) then depth + 1 else depth)
  }

  function Render(u: Unicode, ps: seq<Piece>, depth: nat): string
    decreases |ps|
  {
    if ps == [] then ""
    else
      var (at, next) := Depths(u, ps[0], depth);
      Pad(at) + ps[0].text + "\n" + Render(u, ps[1..], next)
  }

  function Reindented(u: Unicode, s: string): string {
    Render(u, Pieces(s), 0)
  }

  method ReindentText(u: Unicode, text: string) returns (out: string)
    ensures out == Reindented(u, text)
  {
    out := "";
    var depth: nat := 0;
    var i := 0;
    assert text[0..] == text;
    while i < |text|
      invariant 0 <= i <= |text|
      invariant out + Render(u, Pieces(text[i..]), depth) == Reindented(u, text)
    {
      hide Trim;
      hide Nests;
      hide IsWhitespace;
      hide Pieces;
      hide Render;
      hide Reindented;
      hide Pad;
      hide Depths;
      ghost var s := text[i..];
      var start := i;
      if text[i] == '<' {
        i := SkipTo(text, i, '>');
        if i < |text| {
          i := i + 1;
        }
        var tag := text[start..i];
        SameParts(text, start, i, TagEnd(s));
        TagStep(u, out, s, depth);
        out, depth := WriteTag(u, out, depth, tag);
      } else {
        i := SkipTo(text, i, '<');
        var trimmed := Trim(text[start..i]);
        SameParts(text, start, i, IndexOf(s, '<'));
        ContentStep(u, out, s, depth);
        if trimmed != "" {
          out := out + (Pad(depth) + trimmed + "\n");
        }
      }
    }
    assert text[i..] == "";
    NothingKept(u, depth);
    assert out + "" == out;
  }

  /** One tag on its own line, and the depth after it. */
  method WriteTag(u: Unicode, before: string, depth0: nat, tag: string) returns (out: string, depth: nat)
    ensures out == before + (Pad(Depths(u, Tag(tag), depth0).0) + tag + "\n")
    ensures depth == Depths(u, Tag(tag), depth0).1
  {
    hide Nests;
    hide Pad;
    depth := depth0;
    if IsClose(tag) {
      depth := if depth > 0 then depth - 1 else 0;
      out := before + (Pad(depth) + tag + "\n");
    } else {
      out := before + (Pad(depth) + tag + "\n");
      if Nests(u, tag) {
        depth := depth + 1;
      }
    }
  }

  lemma SameParts(text: string, start: nat, end: nat, n: nat)
    requires start <= end == start + n <= |text|
    ensures text[start..end] == text[start..][..n] && text[end..] == text[start..][n..]
  {
  }

  lemma TagStep(u: Unicode, out: string, s: string, depth: nat)
    requires s != "" && s[0] == '<'
    ensures var tag, rest := s[..TagEnd(s)], s[TagEnd(s)..];
            var (at, next) := Depths(u, Tag(tag), depth);
            out + Render(u, Pieces(s), depth) == out + (Pad(at) + tag + "\n") + Render(u, Pieces(rest), next)
  {
    hide Nests;
    hide Pieces;
    hide Render;
    hide Pad;
    var tag, rest := s[..TagEnd(s)], s[TagEnd(s)..];
    var (at, next) := Depths(u, Tag(tag), depth);
    RenderTag(u, s, depth);
    Associative(out, Pad(at) + tag + "\n", Render(u, Pieces(rest), next));
  }

  lemma ContentStep(u: Unicode, out: string, s: string, depth: nat)
    requires s != "" && s[0] != '<'
    ensures var n := IndexOf(s, '<');
            var trimmed, rest := Trim(s[..n]), Render(u, Pieces(s[n..]), depth);
            out + Render(u, Pieces(s), depth)
            == if trimmed == "" then out + rest else out + (Pad(depth) + trimmed + "\n") + rest
  {
    hide Trim;
    hide Pieces;
    hide Render;
    hide Pad;
    var n := IndexOf(s, '<');
    RenderContent(u, s, depth);
    Associative(out, Pad(depth) + Trim(s[..n]) + "\n", Render(u, Pieces(s[n..]), depth));
  }

  method SkipTo(text: string, from: nat, c: char) returns (i: nat)
    requires from <= |text|
    ensures i == from + IndexOf(text[from..], c)
  {
    i := from;
    while i < |text| && text[i] != c
      invariant from <= i <= |text|
      invariant i + IndexOf(text[i..], c) == from + IndexOf(text[from..], c)
    {
      assert text[i..][1..] == text[i + 1..];
      i := i + 1;
    }
  }

  lemma RenderTag(u: Unicode, s: string, depth: nat)
    requires s != "" && s[0] == '<'
    ensures var tag, rest := s[..TagEnd(s)], s[TagEnd(s)..];
            var (at, next) := Depths(u, Tag(tag), depth);
            Render(u, Pieces(s), depth) == Pad(at) + tag + "\n" + Render(u, Pieces(rest), next)
  {
    hide Nests;
    var tag, rest := s[..TagEnd(s)], s[TagEnd(s)..];
    assert Pieces(s) == [Tag(tag)] + Pieces(rest);
    assert ([Tag(tag)] + Pieces(rest))[1..] == Pieces(rest);
  }

  lemma RenderContent(u: Unicode, s: string, depth: nat)
    requires s != "" && s[0] != '<'
    ensures var n := IndexOf(s, '<');
            var trimmed, rest := Trim(s[..n]), s[n..];
            Render(u, Pieces(s), depth)
            == if trimmed == "" then Render(u, Pieces(rest), depth)
               else Pad(depth) + trimmed + "\n" + Render(u, Pieces(rest), depth)
  {
    hide Trim;
    var n := IndexOf(s, '<');
    var trimmed, rest := Trim(s[..n]), s[n..];
    if trimmed == "" {
      assert Pieces(s) == [] + Pieces(rest) == Pieces(rest);
    } else {
      assert Pieces(s) == [Content(trimmed)] + Pieces(rest);
      assert ([Content(trimmed)] + Pieces(rest))[1..] == Pieces(rest);
    }
  }

  // ----- Content is kept -----

  lemma PadBlank(depth: nat)
    ensures AllWhitespace(Pad(depth)) && '<' !in Pad(depth)
  {
    if depth > 0 {
      PadBlank(depth - 1);
    }
  }

  lemma LineContent(depth: nat, text: string, rest: string)
    ensures NonWhitespace(Pad(depth) + text + "\n" + rest) == NonWhitespace(text) + NonWhitespace(rest)
  {
    hide NonWhitespace;
    PadBlank(depth);
    NonWhitespaceOfBlank(Pad(depth));
    NewlineIsBlank();
    NonWhitespaceConcat(Pad(depth) + text + "\n", rest);
    NonWhitespaceConcat(Pad(depth) + text, "\n");
    NonWhitespaceConcat(Pad(depth), text);
  }

  /** Re-indenting keeps every character that is not white space, in order. */
  lemma {:induction false} CharactersKept(u: Unicode, s: string, depth: nat)
    ensures NonWhitespace(Render(u, Pieces(s), depth)) == NonWhitespace(s)
    decreases |s|
  {
    hide Nests;
    hide Trim;
    hide NonWhitespace;
    hide Render;
    hide Pieces;
    if s == "" {
      NothingKept(u, depth);
    } else if s[0] == '<' {
      var tag, rest := s[..TagEnd(s)], s[TagEnd(s)..];
      var (at, next) := Depths(u, Tag(tag), depth);
      RenderTag(u, s, depth);
      CharactersKept(u, rest, next);
      LineContent(at, tag, Render(u, Pieces(rest), next));
      NonWhitespaceConcat(tag, rest);
      assert s == tag + rest;
    } else {
      var n := IndexOf(s, '<');
      var trimmed, rest := Trim(s[..n]), s[n..];
      RenderContent(u, s, depth);
      CharactersKept(u, rest, depth);
      LineContent(depth, trimmed, Render(u, Pieces(rest), depth));
      NonWhitespaceOfTrim(s[..n]);
      NonWhitespaceConcat(s[..n], rest);
      assert s == s[..n] + rest;
      NoContent();
      assert trimmed == "" ==> "" + NonWhitespace(rest) == NonWhitespace(rest);
    }
  }

  lemma NoContent()
    ensures NonWhitespace("") == ""
  {
  }

  lemma NothingKept(u: Unicode, depth: nat)
    ensures Render(u, Pieces(""), depth) == ""
  {
  }

  // ----- Re-indenting twice -----

  /** Pieces as a text gives them, with every tag closed. */
  ghost predicate Closed(p: Piece) {
    match p
    case Tag(t) => t != "" && t[0] == '<' && IndexOf(t, '>') == |t| - 1
    case Content(t) => t != "" && Tight(t) && '<' !in t
  }

  ghost predicate Alternating(ps: seq<Piece>) {
    && (forall i | 0 <= i < |ps| :: Closed(ps[i]))
    && (forall i, j | 0 <= i < j == i + 1 < |ps| :: ps[i].Tag? || ps[j].Tag?)
  }

  /** Every tag has its `>`. */
  ghost predicate TagsClosed(s: string) {
    forall i | 0 <= i < |s| && s[i] == '<' :: '>' in s[i..]
  }

  lemma IndexOfJoined(a: string, b: string, c: char)
    requires c !in a
    ensures IndexOf(a + b, c) == |a| + IndexOf(b, c)
  {
    var n := IndexOf(a + b, c);
    assert forall i | 0 <= i < |a| :: (a + b)[i] == a[i] && a[i] in a;
    assert n >= |a|;
    assert forall i | 0 <= i < |b| :: (a + b)[|a| + i] == b[i];
    if n < |a + b| {
      assert b[n - |a|] == c;
    }
  }

  /** Blanks before a tag give no piece. */
  lemma BlankBeforeTag(blank: string, s: string)
    requires AllWhitespace(blank) && '<' !in blank && (s == "" || s[0] == '<')
    ensures Pieces(blank + s) == Pieces(s)
  {
    hide IsWhitespace;
    hide Trim;
    if blank == "" {
      assert blank + s == s;
    } else {
      var t := blank + s;
      assert t[0] == blank[0] && blank[0] in blank;
      IndexOfJoined(blank, s, '<');
      assert t[..|blank|] == blank && t[|blank|..] == s;
      TrimBlank(blank);
      assert [] + Pieces(s) == Pieces(s);
    }
  }

  lemma TagFirst(tag: string, rest: string)
    requires Closed(Tag(tag))
    ensures Pieces(tag + rest) == [Tag(tag)] + Pieces(rest)
  {
    var s := tag + rest;
    var n := |tag| - 1;
    assert forall i | 0 <= i < n :: s[i] == tag[i];
    assert s[n] == tag[n] == '>';
    assert IndexOf(s, '>') == n;
    assert s[..|tag|] == tag && s[|tag|..] == rest;
  }

  lemma ContentFirst(left: string, core: string, right: string, s: string)
    requires AllWhitespace(left) && '<' !in left && AllWhitespace(right) && '<' !in right
    requires Closed(Content(core)) && (s == "" || s[0] == '<')
    ensures Pieces(left + core + right + s) == [Content(core)] + Pieces(s)
  {
    hide IsWhitespace;
    hide Trim;
    var text := left + core + right;
    assert '<' !in text;
    IndexOfJoined(text, s, '<');
    var t := text + s;
    assert t[0] == text[0] && text[0] in text;
    assert t[..|text|] == text && t[|text|..] == s;
    TrimUnique(left, core, right);
  }

  /** The padding before a piece, and the rendering from its text on. */
  lemma RenderSplits(u: Unicode, ps: seq<Piece>, depth: nat) returns (pad: string, rest: string)
    requires ps != []
    ensures Render(u, ps, depth) == pad + rest && AllWhitespace(pad) && '<' !in pad
    ensures rest == ps[0].text + ("\n" + Render(u, ps[1..], Depths(u, ps[0], depth).1))
  {
    hide Nests;
    var (at, next) := Depths(u, ps[0], depth);
    pad := Pad(at);
    rest := ps[0].text + ("\n" + Render(u, ps[1..], next));
    PadBlank(at);
    assert pad + rest == pad + ps[0].text + "\n" + Render(u, ps[1..], next);
  }

  /** Reading back what was rendered, after any blanks, gives the same pieces. */
  lemma {:induction false} PiecesOfRender(u: Unicode, ps: seq<Piece>, depth: nat, blank: string)
    requires Alternating(ps) && AllWhitespace(blank) && '<' !in blank
    ensures Pieces(blank + Render(u, ps, depth)) == ps
    decreases |ps|
  {
    hide IsWhitespace;
    hide Closed;
    hide Pieces;
    hide Render;
    hide Depths;
    if ps == [] {
      NothingRendered(u, depth);
      BlankBeforeTag(blank, "");
      NoPieces();
    } else {
      var p, next := ps[0], Depths(u, ps[0], depth).1;
      var pad, rest := RenderSplits(u, ps, depth);
      var after := Render(u, ps[1..], next);
      assert blank + Render(u, ps, depth) == (blank + pad) + rest;
      AlternatingTail(ps);
      NewlineBlank();
      PiecesOfRender(u, ps[1..], next, "\n");
      assert ps == [p] + ps[1..];
      ClosedStart(p);
      if p.Tag? {
        BlankBeforeTag(blank + pad, rest);
        TagFirst(p.text, "\n" + after);
      } else if ps[1..] == [] {
        NothingRendered(u, next);
        ContentFirst(blank + pad, p.text, "\n", "");
        assert (blank + pad) + rest == (blank + pad) + p.text + "\n" + "";
        NoPieces();
      } else {
        var pad', rest' := RenderSplits(u, ps[1..], next);
        ClosedStart(ps[1]);
        ContentFirst(blank + pad, p.text, "\n" + pad', rest');
        assert (blank + pad) + rest == (blank + pad) + p.text + ("\n" + pad') + rest';
        BlankBeforeTag("\n" + pad', rest');
        assert ("\n" + pad') + rest' == "\n" + after;
      }
    }
  }

  lemma NoPieces()
    ensures Pieces("") == []
  {
  }

  lemma NothingRendered(u: Unicode, depth: nat)
    ensures Render(u, [], depth) == ""
  {
  }

  lemma ClosedStart(p: Piece)
    requires Closed(p)
    ensures p.Tag? ==> p.text != "" && p.text[0] == '<'
  {
  }

  lemma AlternatingTail(ps: seq<Piece>)
    requires ps != [] && Alternating(ps)
    ensures Alternating(ps[1..]) && Closed(ps[0])
    ensures |ps| > 1 ==> Closed(ps[1]) && (ps[0].Tag? || ps[1].Tag?)
  {
    hide Closed;
  }

  lemma NewlineBlank()
    ensures AllWhitespace("\n")
  {
  }

  // ----- When re-indenting twice is re-indenting once -----

  /** A text with every tag closed gives closed pieces, content never next to
      content. */
  lemma {:induction false} PiecesAlternate(s: string)
    requires TagsClosed(s)
    ensures Alternating(Pieces(s))
    ensures Pieces(s) != [] && Pieces(s)[0].Content? ==> s[0] != '<'
    decreases |s|
  {
    hide Trim;
    hide Closed;
    hide Alternating;
    if s == "" {
      NoneAlternate();
    } else if s[0] == '<' {
      var n := TagEnd(s);
      TagIsClosed(s);
      ClosedTail(s, n);
      PiecesAlternate(s[n..]);
      Prepend(Tag(s[..n]), Pieces(s[n..]));
    } else {
      var n := IndexOf(s, '<');
      ClosedTail(s, n);
      PiecesAlternate(s[n..]);
      ContentIsClosed(s);
      var trimmed := Trim(s[..n]);
      if trimmed == "" {
        assert [] + Pieces(s[n..]) == Pieces(s[n..]);
      } else {
        Prepend(Content(trimmed), Pieces(s[n..]));
      }
    }
  }

  lemma NoneAlternate()
    ensures Alternating([])
  {
  }

  lemma Prepend(p: Piece, ps: seq<Piece>)
    requires Closed(p) && Alternating(ps) && (p.Tag? || ps == [] || ps[0].Tag?)
    ensures Alternating([p] + ps)
  {
    hide Closed;
  }

  lemma ClosedTail(s: string, n: nat)
    requires TagsClosed(s) && n <= |s|
    ensures TagsClosed(s[n..])
  {
    forall i | 0 <= i < |s[n..]| && s[n..][i] == '<'
      ensures '>' in s[n..][i..]
    {
      assert s[n + i] == '<' && s[n..][i..] == s[n + i..];
    }
  }

  lemma TagIsClosed(s: string)
    requires s != "" && s[0] == '<' && TagsClosed(s)
    ensures Closed(Tag(s[..TagEnd(s)]))
  {
    var n := IndexOf(s, '>');
    assert s[0..] == s && '>' in s;
    var tag := s[..n + 1];
    assert forall i | 0 <= i < n :: tag[i] == s[i];
    assert tag[n] == s[n];
    FirstIndex(tag, '>', n);
  }

  lemma FirstIndex(s: string, c: char, n: nat)
    requires n < |s| && s[n] == c && forall i | 0 <= i < n :: s[i] != c
    ensures IndexOf(s, c) == n
  {
  }

  lemma ContentIsClosed(s: string)
    requires s != "" && s[0] != '<'
    ensures var trimmed := Trim(s[..IndexOf(s, '<')]); trimmed != "" ==> Closed(Content(trimmed))
  {
    hide Trim;
    hide IsWhitespace;
    var chunk := s[..IndexOf(s, '<')];
    var left, right := TrimSplits(chunk);
    var core := Trim(chunk);
    assert chunk[|left|..|left| + |core|] == core;
    assert forall i | 0 <= i < |core| :: core[i] == chunk[|left| + i] == s[|left| + i];
  }

  /** Pieces of a text whose last tag is not closed: closed pieces, then the open
      tag. */
  ghost predicate EndsOpen(ps: seq<Piece>) {
    && ps != [] && Alternating(ps[..|ps| - 1])
    && var last := ps[|ps| - 1];
       last.Tag? && last.text != "" && last.text[0] == '<' && '>' !in last.text
  }

  lemma {:induction false} PiecesEndOpen(s: string)
    requires !TagsClosed(s)
    ensures EndsOpen(Pieces(s))
    ensures Pieces(s)[0].Content? ==> s[0] != '<'
    decreases |s|
  {
    hide Trim;
    hide Closed;
    if s[0] == '<' {
      if IndexOf(s, '>') < |s| {
        TagOfOpen(s);
        PiecesEndOpen(s[TagEnd(s)..]);
        PrependOpen(Tag(s[..TagEnd(s)]), Pieces(s[TagEnd(s)..]));
      } else {
        assert s[..|s|] == s && s[|s|..] == "";
        assert Pieces(s) == [Tag(s)];
        assert [Tag(s)][..0] == [];
      }
    } else {
      var n := IndexOf(s, '<');
      OpenTail(s, n);
      PiecesEndOpen(s[n..]);
      ContentIsClosed(s);
      var trimmed := Trim(s[..n]);
      if trimmed == "" {
        assert [] + Pieces(s[n..]) == Pieces(s[n..]);
      } else {
        PrependOpen(Content(trimmed), Pieces(s[n..]));
      }
    }
  }

  lemma OpenTail(s: string, n: nat)
    requires !TagsClosed(s) && n <= |s| && forall i | 0 <= i < n :: s[i] != '<' || '>' in s[i..]
    ensures !TagsClosed(s[n..])
  {
    var i :| 0 <= i < |s| && s[i] == '<' && '>' !in s[i..];
    assert s[n..][i - n..] == s[i..];
  }

  lemma TagOfOpen(s: string)
    requires s != "" && s[0] == '<' && IndexOf(s, '>') < |s| && !TagsClosed(s)
    ensures Closed(Tag(s[..TagEnd(s)])) && !TagsClosed(s[TagEnd(s)..])
  {
    var n := IndexOf(s, '>');
    var tag := s[..n + 1];
    assert forall i | 0 <= i < n :: tag[i] == s[i];
    FirstIndex(tag, '>', n);
    forall i | 0 <= i < n + 1
      ensures s[i] != '<' || '>' in s[i..]
    {
      assert s[i..][n - i] == '>';
    }
    OpenTail(s, n + 1);
  }

  lemma PrependOpen(p: Piece, ps: seq<Piece>)
    requires Closed(p) && EndsOpen(ps) && (p.Tag? || ps[0].Tag?)
    ensures EndsOpen([p] + ps)
  {
    hide Closed;
    var all := [p] + ps;
    assert all[..|all| - 1] == [p] + ps[..|ps| - 1];
  }

  lemma {:induction false} RenderConcat(u: Unicode, ps: seq<Piece>, p: Piece, depth: nat) returns (d: nat)
    ensures Render(u, ps + [p], depth) == Render(u, ps, depth) + Render(u, [p], d)
    ensures forall q: Piece :: Render(u, ps + [q], depth) == Render(u, ps, depth) + Render(u, [q], d)
    decreases |ps|
  {
    hide Depths;
    hide Pad;
    if ps == [] {
      d := depth;
      forall q: Piece
        ensures Render(u, ps + [q], depth) == Render(u, ps, depth) + Render(u, [q], d)
      {
        assert [] + [q] == [q] && "" + Render(u, [q], d) == Render(u, [q], d);
      }
    } else {
      var (at, next) := Depths(u, ps[0], depth);
      d := RenderConcat(u, ps[1..], p, next);
      forall q: Piece
        ensures Render(u, ps + [q], depth) == Render(u, ps, depth) + Render(u, [q], d)
      {
        assert (ps + [q])[0] == ps[0] && (ps + [q])[1..] == ps[1..] + [q];
        Associative(Pad(at) + ps[0].text + "\n", Render(u, ps[1..], next), Render(u, [q], d));
      }
    }
  }

  /** Reading back a rendering that ends in an open tag: the newline after the tag
      has become part of it. */
  lemma {:induction false} PiecesOfOpenRender(u: Unicode, ps: seq<Piece>, depth: nat, blank: string)
    requires EndsOpen(ps) && AllWhitespace(blank) && '<' !in blank
    ensures var n := |ps| - 1;
            Pieces(blank + Render(u, ps, depth)) == ps[..n] + [Tag(ps[n].text + "\n")]
    decreases |ps|
  {
    hide IsWhitespace;
    hide Closed;
    hide Pieces;
    hide Render;
    hide Depths;
    var p, next := ps[0], Depths(u, ps[0], depth).1;
    var pad, rest := RenderSplits(u, ps, depth);
    assert blank + Render(u, ps, depth) == (blank + pad) + rest;
    if |ps| == 1 {
      NothingRendered(u, next);
      assert ps[1..] == [] && rest == p.text + "\n";
      BlankBeforeTag(blank + pad, rest);
      OpenTag(p.text + "\n");
      assert ps[..0] + [Tag(p.text + "\n")] == [Tag(p.text + "\n")];
    } else {
      var after, n := Render(u, ps[1..], next), |ps| - 1;
      OpenTailPieces(ps);
      NewlineBlank();
      PiecesOfOpenRender(u, ps[1..], next, "\n");
      assert ps[..n] + [Tag(ps[n].text + "\n")] == [p] + (ps[1..][..n - 1] + [Tag(ps[n].text + "\n")]);
      ClosedStart(p);
      if p.Tag? {
        BlankBeforeTag(blank + pad, rest);
        TagFirst(p.text, "\n" + after);
      } else {
        var pad', rest' := RenderSplits(u, ps[1..], next);
        ContentFirst(blank + pad, p.text, "\n" + pad', rest');
        assert (blank + pad) + rest == (blank + pad) + p.text + ("\n" + pad') + rest';
        BlankBeforeTag("\n" + pad', rest');
        assert ("\n" + pad') + rest' == "\n" + after;
      }
    }
  }

  lemma OpenTailPieces(ps: seq<Piece>)
    requires EndsOpen(ps) && |ps| > 1
    ensures EndsOpen(ps[1..]) && Closed(ps[0])
    ensures ps[0].Tag? || (ps[1].Tag? && ps[1].text != "" && ps[1].text[0] == '<')
  {
    var n := |ps| - 1;
    assert ps[1..][..n - 1] == ps[..n][1..];
    assert ps[..n][0] == ps[0];
    assert n > 1 ==> ps[..n][1] == ps[1];
  }

  lemma OpenTag(s: string)
    requires s != "" && s[0] == '<' && '>' !in s
    ensures Pieces(s) == [Tag(s)]
  {
    assert forall i | 0 <= i < |s| :: s[i] in s;
    assert IndexOf(s, '>') == |s|;
    assert s[..|s|] == s && s[|s|..] == "";
  }

  /** Re-indenting is idempotent exactly on the texts in which every `<` has a `>`
      after it: an open tag at the end grows by a newline each time. */
  lemma ReindentIdempotentIff(u: Unicode, s: string)
    ensures Reindented(u, Reindented(u, s)) == Reindented(u, s) <==> TagsClosed(s)
  {
    hide TagsClosed;
    hide Alternating;
    hide Pieces;
    hide Render;
    var ps := Pieces(s);
    assert "" + Render(u, ps, 0) == Render(u, ps, 0);
    if TagsClosed(s) {
      PiecesAlternate(s);
      PiecesOfRender(u, ps, 0, "");
    } else {
      PiecesEndOpen(s);
      PiecesOfOpenRender(u, ps, 0, "");
      Grows(u, ps[..|ps| - 1], ps[|ps| - 1]);
      assert ps == ps[..|ps| - 1] + [ps[|ps| - 1]];
    }
  }

  lemma Grows(u: Unicode, ps: seq<Piece>, p: Piece)
    requires p.Tag?
    ensures |Render(u, ps + [Tag(p.text + "\n")], 0)| > |Render(u, ps + [p], 0)|
  {
    hide Nests;
    var d := RenderConcat(u, ps, p, 0);
    var longer := Tag(p.text + "\n");
    assert Render(u, ps + [longer], 0) == Render(u, ps, 0) + Render(u, [longer], d);
    StillClose(p.text);
    assert [p][1..] == [] && [longer][1..] == [];
  }

  lemma StillClose(tag: string)
    ensures IsClose(tag + "\n") <==> IsClose(tag)
  {
    var longer := tag + "\n";
    assert IsClose(tag) <==> |tag| >= 2 && tag[0] == '<' && tag[1] == '/';
    assert IsClose(longer) <==> |longer| >= 2 && longer[0] == '<' && longer[1] == '/';
  }
}
