/** The indentation the re-indenter gives a line, from the tags before it. */
module ReindentDepth {
  import opened Text
  import opened Reindent

  /** A tag that adds a level. */
  ghost predicate Opens(u: Unicode, p: Piece) {
    p.Tag? && !("</" <= p.text) && Nests(u, p.text)
  }

  ghost predicate Closes(p: Piece) {
    p.Tag? && "</" <= p.text
  }

  /** The opening tags among the first `k` pieces, less the closing ones. */
  ghost function Net(u: Unicode, ps: seq<Piece>, k: nat): int
    requires k <= |ps|
  {
    if k == 0 then 0
    else Net(u, ps, k - 1) + (if Opens(u, ps[k - 1]) then 1 else if Closes(ps[k - 1]) then -1 else 0)
  }

  /** The smallest such count on the way to `k`: less than zero when more tags were
      closed than were open. */
  ghost function Lowest(u: Unicode, ps: seq<Piece>, k: nat): (low: int)
    requires k <= |ps|
    ensures low <= 0 && low <= Net(u, ps, k)
  {
    if k == 0 then 0
    else
      var low := Lowest(u, ps, k - 1);
      if Net(u, ps, k) < low then Net(u, ps, k) else low
  }

  /** The depth the re-indenter has reached after `k` pieces. */
  function DepthAt(u: Unicode, ps: seq<Piece>, k: nat, depth: nat): nat
    requires k <= |ps|
  {
    if k == 0 then depth else Depths(u, ps[k - 1], DepthAt(u, ps, k - 1, depth)).1
  }

  lemma {:induction false} DepthIsNet(u: Unicode, ps: seq<Piece>, k: nat)
    requires k <= |ps|
    ensures DepthAt(u, ps, k, 0) == Net(u, ps, k) - Lowest(u, ps, k)
  {
    hide Nests;
    if k > 0 {
      DepthIsNet(u, ps, k - 1);
    }
  }

  lemma {:induction false} DepthAtTail(u: Unicode, ps: seq<Piece>, k: nat, depth: nat)
    requires k < |ps|
    ensures DepthAt(u, ps[1..], k, Depths(u, ps[0], depth).1) == DepthAt(u, ps, k + 1, depth)
  {
    hide Depths;
    if k == 0 {
      assert DepthAt(u, ps, 0, depth) == depth;
    } else {
      DepthAtTail(u, ps, k - 1, depth);
    }
  }

  lemma {:induction false} PadIsSpaces(depth: nat)
    ensures Pad(depth) == seq(2 * depth, _ => ' ')
  {
    if depth > 0 {
      PadIsSpaces(depth - 1);
    }
  }

  /** One line of the result, between what comes before it and after it. */
  lemma {:induction false} LineAt(u: Unicode, ps: seq<Piece>, k: nat, depth: nat) returns (rest: string)
    requires k < |ps|
    ensures Render(u, ps, depth)
            == Render(u, ps[..k], depth)
               + (Pad(Depths(u, ps[k], DepthAt(u, ps, k, depth)).0) + ps[k].text + "\n") + rest
    decreases k
  {
    hide Pad;
    hide Depths;
    var (at, next) := Depths(u, ps[0], depth);
    var line := Pad(at) + ps[0].text + "\n";
    if k == 0 {
      rest := Render(u, ps[1..], next);
      NothingYet(u, ps, depth);
      assert "" + line + rest == line + rest;
    } else {
      rest := LineAt(u, ps[1..], k - 1, next);
      DepthAtTail(u, ps, k - 1, depth);
      assert ps[1..][k - 1] == ps[k];
      assert ps[..k][0] == ps[0] && ps[..k][1..] == ps[1..][..k - 1];
      Regroup(line, Render(u, ps[1..][..k - 1], next),
              Pad(Depths(u, ps[k], DepthAt(u, ps, k, depth)).0) + ps[k].text + "\n", rest);
    }
  }

  lemma NothingYet(u: Unicode, ps: seq<Piece>, depth: nat)
    ensures Render(u, ps[..0], depth) == ""
  {
  }

  lemma Regroup(a: string, b: string, c: string, d: string)
    ensures a + (b + c + d) == a + b + c + d
  {
  }

  /** Every piece stands on a line of its own, behind two blanks for each opening
      tag before it that no closing tag has closed: the opening tags less the
      closing ones, never less than zero. A closing tag counts on its own line. */
  lemma LineIndentation(u: Unicode, s: string, k: nat) returns (rest: string)
    requires k < |Pieces(s)|
    ensures var ps := Pieces(s);
            var n := if Closes(ps[k]) then k + 1 else k;
            Reindented(u, s)
            == Render(u, ps[..k], 0)
               + (seq(2 * (Net(u, ps, n) - Lowest(u, ps, n)), _ => ' ') + ps[k].text + "\n") + rest
  {
    hide Nests;
    hide Pad;
    hide Render;
    hide Pieces;
    var ps := Pieces(s);
    var n := if Closes(ps[k]) then k + 1 else k;
    rest := LineAt(u, ps, k, 0);
    DepthIsNet(u, ps, n);
    PadIsSpaces(DepthAt(u, ps, n, 0));
  }

  // ----- Which tags open a level -----

  ghost predicate NameChar(u: Unicode, c: char) {
    u.isAlphanumeric(c) || c == '-'
  }

  /** `rest` is what follows the name of a tag. */
  ghost predicate EndsName(u: Unicode, rest: string) {
    rest != "" ==> !NameChar(u, rest[0])
  }

  lemma {:induction false} NameTaken(u: Unicode, name: string, rest: string)
    requires (forall c | c in name :: NameChar(u, c)) && EndsName(u, rest)
    ensures TakeName(u, name + rest) == name
  {
    if name == "" {
      assert name + rest == rest;
    } else {
      assert (name + rest)[1..] == name[1..] + rest;
      assert name[0] in name;
      NameTaken(u, name[1..], rest);
    }
  }

  /** A tag with a name adds a level unless it closes itself or the element of
      that name has no content. */
  lemma NamedTagNests(u: Unicode, name: string, rest: string)
    requires name != "" && (forall c | c in name :: NameChar(u, c)) && EndsName(u, rest)
    requires name[0] != '<' && name[0] != '/' && name[0] != '!'
    ensures Nests(u, "<" + name + rest) <==>
            !EndsWith("<" + name + rest, "/>")
            && u.toLowercase(name) !in ["area", "base", "br", "col", "embed", "hr", "img", "input", "link", "meta",
                                        "param", "source", "track", "wbr"]
  {
    var tag := "<" + name + rest;
    NameTaken(u, name, rest);
    hide TakeName;
    assert tag[1..] == name + rest && tag[1] == name[0];
    assert SkipAll(tag[1..], '<') == tag[1..];
    assert SkipAll(SkipAll(tag, '<'), '/') == name + rest;
    assert !("<!" <= tag) && !("<!--" <= tag);
  }

  /** Comments and declarations add none. */
  lemma DeclarationsDoNotNest(u: Unicode, rest: string)
    ensures !Nests(u, "<!" + rest)
  {
  }
}
