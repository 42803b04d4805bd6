/** A reader of the console's text, and what it recovers from what is printed. */
module ConsoleReader {
  import opened Basics
  import Decimal
  import opened Console

  datatype Kind = ListOf | TableOf | GroupOf | RecordOf(prefix: string)

  /** What a text shows: a word, or a container of some kind with the texts of a
      record's keys and its parts in order, where a table's parts are its keys, each
      before its value. */
  datatype Shown = Word(text: string) | Node(kind: Kind, keys: seq<string>, parts: seq<Shown>)

  // ----- Reading -----

  /** Where a word may end: before a line ending, a comma that ends a line, or an arrow. */
  predicate IsStop(s: string) {
    s == "" || s[0] == '\n' || ",\n" <= s || " => " <= s
  }

  function StopAt(s: string): (n: nat)
    ensures n <= |s|
  {
    if IsStop(s) then 0 else 1 + StopAt(s[1..])
  }

  /** The length up to the quote that closes a string, that quote included; 0 when
      there is none. */
  function Close(s: string): (n: nat)
    ensures n <= |s|
  {
    if s == "" then 0
    else if s[0] == '"' then 1
    else if s[0] == '\\' then (if |s| < 2 || Close(s[2..]) == 0 then 0 else Close(s[2..]) + 2)
    else if Close(s[1..]) == 0 then 0
    else Close(s[1..]) + 1
  }

  /** The kind that the head of a container announces. */
  function KindOf(base: string): Kind {
    if "Map(" <= base then TableOf else if "Set(" <= base then GroupOf else RecordOf(base)
  }

  /** Whether the head's number, if it has one, is that of the parts. */
  predicate Counted(base: string, kind: Kind, parts: seq<Shown>) {
    match kind
    case TableOf => base == "Map(" + Decimal.Show(|parts| / 2) + ") "
    case GroupOf => base == "Set(" + Decimal.Show(|parts|) + ") "
    case _ => true
  }

  /** A value at the start of `s`, printed at the indentation `indent`, and what
      follows it. */
  function ReadShown(s: string, indent: string): (r: Option<(Shown, string)>)
    ensures r.Some? ==> |r.value.1| <= |s|
    decreases |s|, 0
  {
    if s != "" && s[0] == '"' then
      var n := Close(s[1..]);
      if n == 0 then None else Some((Word(s[..n + 1]), s[n + 1..]))
    else
      var n := StopAt(s);
      var head, rest := s[..n], s[n..];
      if head == "[]" then Some((Node(ListOf, [], []), rest))
      else if |head| >= 2 && head[|head| - 2] == '{' && head[|head| - 1] == '}' then
        var base := head[..|head| - 2];
        if Counted(base, KindOf(base), []) then Some((Node(KindOf(base), [], []), rest)) else None
      else if head == "[" then ReadInside("", ListOf, rest, indent, "]")
      else if head != "" && head[|head| - 1] == '{' then
        var base := head[..|head| - 1];
        ReadInside(base, KindOf(base), rest, indent, "}")
      else Some((Word(head), rest))
  }

  function ReadInside(base: string, kind: Kind, s: string, indent: string, closer: string): (r: Option<(Shown, string)>)
    ensures r.Some? ==> |r.value.1| <= |s|
    decreases |s|, 1
  {
    if !("\n" <= s) then None
    else
      var inside := ReadEntries(kind, s[1..], indent, closer);
      if inside == None || !Counted(base, kind, inside.value.1) then None
      else Some((Node(kind, inside.value.0, inside.value.1), inside.value.2))
  }

  /** Entries one a line, two blanks further in, up to the closing bracket on its
      own line: the keys, the parts, and what follows. */
  function ReadEntries(kind: Kind, s: string, indent: string, closer: string)
      : (r: Option<(seq<string>, seq<Shown>, string)>)
    ensures r.Some? ==> |r.value.2| <= |s|
    decreases |s|, 0
  {
    var next := indent + "  ";
    if !(next <= s) then None
    else
      var entry := ReadEntry(kind, s[|next|..], next);
      if entry == None then None
      else
        var (keys, parts, rest) := entry.value;
        var end := "\n" + indent + closer;
        if ",\n" <= rest then
          var more := ReadEntries(kind, rest[2..], indent, closer);
          if more == None then None else Some((keys + more.value.0, parts + more.value.1, more.value.2))
        else if end <= rest then Some((keys, parts, rest[|end|..]))
        else None
  }

  function ReadEntry(kind: Kind, s: string, next: string): (r: Option<(seq<string>, seq<Shown>, string)>)
    ensures r.Some? ==> |r.value.2| <= |s|
    decreases |s|, 1
  {
    match kind
    case RecordOf(_) =>
      var n := if s != "" && s[0] == '"' then Close(s[1..]) else 0;
      if n == 0 || !(": " <= s[n + 1..]) then None
      else
        var value := ReadShown(s[n + 3..], next);
        if value == None then None else Some(([s[..n + 1]], [value.value.0], value.value.1))
    case TableOf =>
      var key := ReadShown(s, next);
      if key == None || !(" => " <= key.value.1) then None
      else
        var value := ReadShown(key.value.1[4..], next);
        if value == None then None else Some(([], [key.value.0, value.value.0], value.value.1))
    case _ =>
      var value := ReadShown(s, next);
      if value == None then None else Some(([], [value.value.0], value.value.1))
  }

  // ----- What can be read back -----

  ghost predicate Quoted(text: string) {
    |text| >= 2 && text[0] == '"' && Close(text[1..]) == |text| - 1
  }

  /** No line break, no arrow, no comma at the end, and no quote at the start. */
  ghost predicate Plain(text: string) {
    && '\n' !in text
    && (forall i | 0 <= i < |text| - 1 :: !(text[i] == '=' && text[i + 1] == '>'))
    && (text != "" ==> text[0] != '"' && text[|text| - 1] != ',')
  }

  /** A word that is not the head of a container. */
  ghost predicate PlainWord(text: string) {
    && Plain(text) && text != "[" && text != "[]"
    && (text != "" ==> text[|text| - 1] != '{')
    && (|text| >= 2 ==> !(text[|text| - 2] == '{' && text[|text| - 1] == '}'))
  }

  ghost predicate ReadableHead(c: Container) {
    c.Record? ==>
      && Plain(c.prefix) && !("Map(" <= c.prefix) && !("Set(" <= c.prefix)
      && forall i | 0 <= i < |c.fields| :: Quoted(c.fields[i].0)
  }

  /** Words that are plain or quoted, and records with quoted keys. */
  ghost predicate Readable(tree: Tree)
    requires Regular(tree)
  {
    match tree
    case Text(text) => Quoted(text) || PlainWord(text)
    case Circular(_) => true
    case Branch(c, children) => ReadableHead(c) && forall i | 0 <= i < |children| :: Readable(children[i])
  }

  /** What may follow a value. */
  ghost predicate Follower(rest: string) {
    rest == "" || rest[0] == '\n' || ",\n" <= rest || " => " <= rest
  }

  function Keys(c: Container): seq<string> {
    if c.Record? then seq(|c.fields|, i requires 0 <= i < |c.fields| => c.fields[i].0) else []
  }

  function KindIs(c: Container): Kind {
    match c
    case List(_) => ListOf
    case Table(_) => TableOf
    case Group(_) => GroupOf
    case Record(prefix, _) => RecordOf(prefix)
  }

  /** What a printed structure shows. */
  function ShownOf(tree: Tree): Shown {
    match tree
    case Text(text) => Word(text)
    case Circular(_) => Word("[Circular]")
    case Branch(c, children) =>
      Node(KindIs(c), Keys(c), seq(|children|, i requires 0 <= i < |children| => ShownOf(children[i])))
  }

  // ----- Words -----

  lemma StopChars(s: string)
    ensures ",\n" <= s ==> |s| >= 2 && s[0] == ',' && s[1] == '\n'
    ensures " => " <= s ==> |s| >= 4 && s[0] == ' ' && s[1] == '=' && s[2] == '>'
  {
  }

  lemma NoStopInside(text: string, rest: string, i: nat)
    requires Plain(text) && Follower(rest) && i < |text|
    ensures !IsStop((text + rest)[i..])
  {
    var tail := (text + rest)[i..];
    assert tail[0] == text[i] && text[i] in text;
    assert i + 1 < |text| ==> tail[1] == text[i + 1] && text[i + 1] in text;
    assert i + 2 < |text| ==> tail[2] == text[i + 2];
    assert i + 1 == |text| && rest != "" ==> tail[1] == rest[0];
    assert i + 2 == |text| && rest != "" ==> tail[2] == rest[0];
    StopChars(tail);
  }

  lemma {:induction false} StopFrom(text: string, rest: string, i: nat)
    requires Plain(text) && Follower(rest) && i <= |text|
    ensures StopAt((text + rest)[i..]) == |text| - i
    decreases |text| - i
  {
    hide Plain;
    hide IsStop;
    if i == |text| {
      assert (text + rest)[i..] == rest;
      FollowerStops(rest);
    } else {
      NoStopInside(text, rest, i);
      assert (text + rest)[i..][1..] == (text + rest)[i + 1..];
      StopFrom(text, rest, i + 1);
    }
  }

  lemma FollowerStops(rest: string)
    requires Follower(rest)
    ensures IsStop(rest)
  {
  }

  /** A plain text is the word before what follows it. */
  lemma WordRead(text: string, rest: string)
    requires Plain(text) && Follower(rest)
    ensures var n := StopAt(text + rest);
            n == |text| && (text + rest)[..n] == text && (text + rest)[n..] == rest
  {
    hide Plain;
    hide Follower;
    assert (text + rest)[0..] == text + rest;
    StopFrom(text, rest, 0);
  }

  lemma {:induction false} CloseJoined(a: string, b: string)
    requires Close(a) == |a| > 0
    ensures Close(a + b) == |a|
    decreases |a|
  {
    if a[0] == '"' {
    } else if a[0] == '\\' {
      assert (a + b)[2..] == a[2..] + b;
      CloseJoined(a[2..], b);
    } else {
      assert (a + b)[1..] == a[1..] + b;
      CloseJoined(a[1..], b);
    }
  }

  lemma QuotedRead(text: string, rest: string)
    requires Quoted(text)
    ensures var s := text + rest;
            && s != "" && s[0] == '"' && Close(s[1..]) == |text| - 1 > 0
            && s[..|text|] == text && s[|text|..] == rest
  {
    assert (text + rest)[1..] == text[1..] + rest;
    CloseJoined(text[1..], rest);
  }

  // ----- Containers -----

  /** The lines a container is printed on, between its brackets. */
  function Count(c: Container): nat {
    match c
    case List(items) => |items|
    case Table(entries) => |entries|
    case Group(members) => |members|
    case Record(_, fields) => |fields|
  }

  lemma PartsCount(c: Container)
    ensures |Parts(c)| == if c.Table? then 2 * Count(c) else Count(c)
  {
  }

  /** The text of one such line, without its indentation. */
  function Entry(c: Container, texts: seq<string>, i: nat): string
    requires |texts| == |Parts(c)| && i < Count(c)
  {
    match c
    case Table(_) => texts[2 * i] + " => " + texts[2 * i + 1]
    case Record(_, fields) => fields[i].0 + ": " + texts[i]
    case _ => texts[i]
  }

  function Base(c: Container): string {
    match c
    case List(_) => ""
    case Table(entries) => "Map(" + Decimal.Show(|entries|) + ") "
    case Group(members) => "Set(" + Decimal.Show(|members|) + ") "
    case Record(prefix, _) => prefix
  }

  function Opening(c: Container): string { if c.List? then "[" else "{" }

  function Closing(c: Container): string { if c.List? then "]" else "}" }

  function LinesOf(c: Container, texts: seq<string>, next: string): (lines: seq<string>)
    requires |texts| == |Parts(c)|
    ensures |lines| == Count(c)
  {
    seq(Count(c), i requires 0 <= i < Count(c) => next + Entry(c, texts, i))
  }

  lemma Regroup(base: string, open: string, end: string, body: string, indent: string, close: string)
    ensures base + (open + end + body + end + indent + close) == base + open + (end + body + end + indent + close)
  {
  }

  lemma BracedForm(base: string, lines: seq<string>, indent: string)
    ensures base + Braced(lines, indent)
            == if lines == [] then base + ("{" + "}")
               else base + "{" + ("\n" + Join(lines) + "\n" + indent + "}")
  {
    hide Join;
    if lines != [] {
      Regroup(base, "{", "\n", Join(lines), indent, "}");
    }
  }

  lemma BracketForm(lines: seq<string>, indent: string)
    ensures "[\n" + Join(lines) + "\n" + indent + "]" == "" + "[" + ("\n" + Join(lines) + "\n" + indent + "]")
    ensures "[]" == "" + ("[" + "]")
  {
    hide Join;
    Regroup("", "[", "\n", Join(lines), indent, "]");
  }

  ghost predicate LaidOut(c: Container, texts: seq<string>, indent: string)
    requires |texts| == |Parts(c)|
  {
    var lines := LinesOf(c, texts, indent + "  ");
    Layout(c, texts, indent)
    == if lines == [] then Base(c) + (Opening(c) + Closing(c))
       else Base(c) + Opening(c) + ("\n" + Join(lines) + "\n" + indent + Closing(c))
  }

  lemma ListIsLines(items: seq<Value>, texts: seq<string>, indent: string)
    requires |texts| == |Parts(List(items))|
    ensures LaidOut(List(items), texts, indent)
  {
    hide Join;
    var next := indent + "  ";
    var lines := seq(|texts|, i requires 0 <= i < |texts| => next + texts[i]);
    assert LinesOf(List(items), texts, next) == lines;
    BracketForm(lines, indent);
  }

  lemma TableIsLines(entries: seq<(Value, Value)>, texts: seq<string>, indent: string)
    requires |texts| == |Parts(Table(entries))|
    ensures LaidOut(Table(entries), texts, indent)
  {
    hide Parts;
    PartsCount(Table(entries));
    hide Join;
    hide Braced;
    hide Decimal.Show;
    var next := indent + "  ";
    var lines := seq(|entries|, i requires 0 <= i < |entries| => EntryLine(texts, next, i));
    forall i | 0 <= i < |entries|
      ensures lines[i] == next + Entry(Table(entries), texts, i)
    {
    }
    assert LinesOf(Table(entries), texts, next) == lines;
    BracedForm("Map(" + Decimal.Show(|entries|) + ") ", lines, indent);
  }

  lemma GroupIsLines(members: seq<Value>, texts: seq<string>, indent: string)
    requires |texts| == |Parts(Group(members))|
    ensures LaidOut(Group(members), texts, indent)
  {
    hide Join;
    hide Braced;
    hide Decimal.Show;
    var next := indent + "  ";
    var lines := seq(|texts|, i requires 0 <= i < |texts| => next + texts[i]);
    assert LinesOf(Group(members), texts, next) == lines;
    BracedForm("Set(" + Decimal.Show(|members|) + ") ", lines, indent);
  }

  lemma RecordIsLines(prefix: string, fields: seq<(string, Value)>, texts: seq<string>, indent: string)
    requires |texts| == |Parts(Record(prefix, fields))|
    ensures LaidOut(Record(prefix, fields), texts, indent)
  {
    hide Join;
    hide Braced;
    var next := indent + "  ";
    var lines := seq(|fields|, i requires 0 <= i < |fields| => next + fields[i].0 + ": " + texts[i]);
    forall i | 0 <= i < |fields|
      ensures lines[i] == next + Entry(Record(prefix, fields), texts, i)
    {
    }
    assert LinesOf(Record(prefix, fields), texts, next) == lines;
    BracedForm(prefix, lines, indent);
  }

  lemma LayoutIsLines(c: Container, texts: seq<string>, indent: string)
    requires |texts| == |Parts(c)|
    ensures LaidOut(c, texts, indent)
  {
    hide LaidOut;
    match c
    case List(items) => ListIsLines(items, texts, indent);
    case Table(entries) => TableIsLines(entries, texts, indent);
    case Group(members) => GroupIsLines(members, texts, indent);
    case Record(prefix, fields) => RecordIsLines(prefix, fields, texts, indent);
  }

  /** A text reads as a shown value, whatever follows it. */
  ghost predicate ReadsAs(text: string, shown: Shown, indent: string) {
    forall rest | Follower(rest) :: ReadShown(text + rest, indent) == Some((shown, rest))
  }

  ghost predicate AllRead(texts: seq<string>, parts: seq<Shown>, indent: string) {
    |texts| == |parts| && forall i | 0 <= i < |texts| :: ReadsAs(texts[i], parts[i], indent)
  }

  function KeysAt(c: Container, i: nat): seq<string>
    requires i < Count(c)
  {
    if c.Record? then [c.fields[i].0] else []
  }

  /** Where the parts of line `i` start among all parts. */
  function PartAt(c: Container, i: nat): nat {
    if c.Table? then 2 * i else i
  }

  lemma PairReads(key: string, value: string, parts: seq<Shown>, next: string, rest: string)
    requires |parts| == 2 && ReadsAs(key, parts[0], next) && ReadsAs(value, parts[1], next) && Follower(rest)
    ensures ReadEntry(TableOf, key + " => " + value + rest, next) == Some(([], parts, rest))
  {
    hide ReadShown;
    var after := " => " + (value + rest);
    assert key + " => " + value + rest == key + after;
    assert ReadShown(key + after, next) == Some((parts[0], after));
    assert after[4..] == value + rest;
    assert parts == [parts[0], parts[1]];
  }

  lemma FieldReads(prefix: string, key: string, value: string, part: Shown, next: string, rest: string)
    requires Quoted(key) && ReadsAs(value, part, next) && Follower(rest)
    ensures ReadEntry(RecordOf(prefix), key + ": " + value + rest, next) == Some(([key], [part], rest))
  {
    hide ReadShown;
    hide Quoted;
    hide Close;
    var after := ": " + (value + rest);
    var s := key + after;
    assert key + ": " + value + rest == s;
    QuotedRead(key, after);
    assert after[2..] == value + rest && s[|key| + 2..] == after[2..];
  }

  lemma ItemReads(kind: Kind, text: string, part: Shown, next: string, rest: string)
    requires (kind == ListOf || kind == GroupOf) && ReadsAs(text, part, next) && Follower(rest)
    ensures ReadEntry(kind, text + rest, next) == Some(([], [part], rest))
  {
    hide ReadShown;
  }

  lemma EntryReads(c: Container, texts: seq<string>, parts: seq<Shown>, next: string, i: nat, rest: string)
    requires |texts| == |parts| == |Parts(c)| && AllRead(texts, parts, next) && ReadableHead(c) && i < Count(c)
    requires Follower(rest)
    ensures PartAt(c, i) <= PartAt(c, i + 1) <= |parts|
    ensures ReadEntry(KindIs(c), Entry(c, texts, i) + rest, next)
            == Some((KeysAt(c, i), parts[PartAt(c, i)..PartAt(c, i + 1)], rest))
  {
    hide ReadEntry;
    hide ReadsAs;
    hide Quoted;
    hide Plain;
    hide Parts;
    PartsCount(c);
    match c
    case Table(_) =>
      PairReads(texts[2 * i], texts[2 * i + 1], parts[2 * i..2 * i + 2], next, rest);
    case Record(prefix, fields) =>
      assert parts[i..i + 1] == [parts[i]];
      FieldReads(prefix, fields[i].0, texts[i], parts[i], next, rest);
    case _ =>
      assert parts[i..i + 1] == [parts[i]];
      ItemReads(KindIs(c), texts[i], parts[i], next, rest);
  }

  function KeysFrom(c: Container, k: nat): seq<string>
    requires k <= Count(c)
  {
    if c.Record? then Keys(c)[k..] else []
  }

  lemma KeysGoOn(c: Container, k: nat)
    requires k < Count(c)
    ensures KeysFrom(c, k) == KeysAt(c, k) + KeysFrom(c, k + 1)
    ensures KeysFrom(c, Count(c)) == [] && KeysFrom(c, 0) == Keys(c)
  {
  }

  lemma PartsGoOn(c: Container, parts: seq<Shown>, k: nat)
    requires |parts| == |Parts(c)| && k < Count(c)
    ensures PartAt(c, 0) == 0 && PartAt(c, k) <= PartAt(c, k + 1) <= PartAt(c, Count(c)) == |parts|
    ensures parts[PartAt(c, k)..] == parts[PartAt(c, k)..PartAt(c, k + 1)] + parts[PartAt(c, k + 1)..]
  {
    hide Parts;
    PartsCount(c);
  }

  lemma LineIs(c: Container, texts: seq<string>, next: string, k: nat)
    requires |texts| == |Parts(c)| && k < Count(c)
    ensures LinesOf(c, texts, next)[k] == next + Entry(c, texts, k)
  {
    hide Entry;
  }

  /** The entries from line `k` on, up to the closing bracket. */
  lemma {:induction false} EntriesRead(c: Container, texts: seq<string>, parts: seq<Shown>, indent: string, k: nat,
                                       rest: string)
    requires |texts| == |parts| == |Parts(c)| && AllRead(texts, parts, indent + "  ") && ReadableHead(c)
    requires k < Count(c)
    ensures PartAt(c, k) <= |parts|
    ensures var lines := LinesOf(c, texts, indent + "  ");
            ReadEntries(KindIs(c), Join(lines[k..]) + ("\n" + indent + Closing(c) + rest), indent, Closing(c))
            == Some((KeysFrom(c, k), parts[PartAt(c, k)..], rest))
    decreases Count(c) - k
  {
    hide *;
    var next := indent + "  ";
    var lines := LinesOf(c, texts, next);
    var entry, end := Entry(c, texts, k), "\n" + indent + Closing(c);
    LineIs(c, texts, next, k);
    KeysGoOn(c, k);
    PartsGoOn(c, parts, k);
    if k + 1 == Count(c) {
      assert lines[k..] == [lines[k]];
      JoinOne(lines[k]);
      EndFollows(indent, Closing(c), rest);
      EntryReads(c, texts, parts, next, k, end + rest);
      LastEntry(KindIs(c), entry, KeysAt(c, k), parts[PartAt(c, k)..PartAt(c, k + 1)], indent, Closing(c), rest);
      assert KeysAt(c, k) + [] == KeysAt(c, k);
      assert parts[PartAt(c, k)..|parts|] == parts[PartAt(c, k)..];
    } else {
      var more := Join(lines[k + 1..]) + (end + rest);
      assert lines[k..][1..] == lines[k + 1..];
      JoinMore(lines[k..]);
      CommaFollows(more);
      EntryReads(c, texts, parts, next, k, ",\n" + more);
      EntriesRead(c, texts, parts, indent, k + 1, rest);
      NextEntry(KindIs(c), entry, KeysAt(c, k), parts[PartAt(c, k)..PartAt(c, k + 1)], more, indent, Closing(c));
      assert next + entry + ",\n" + Join(lines[k + 1..]) + (end + rest) == next + entry + (",\n" + more);
    }
  }

  lemma EndFollows(indent: string, closer: string, rest: string)
    ensures Follower("\n" + indent + closer + rest)
  {
  }

  lemma CommaFollows(more: string)
    ensures Follower(",\n" + more)
  {
  }

  lemma JoinOne(line: string)
    ensures Join([line]) == line
  {
  }

  lemma JoinMore(lines: seq<string>)
    requires |lines| > 1
    ensures Join(lines) == lines[0] + ",\n" + Join(lines[1..])
  {
  }

  lemma LastEntry(kind: Kind, entry: string, keys: seq<string>, parts: seq<Shown>, indent: string, closer: string,
                  rest: string)
    requires var end := "\n" + indent + closer;
             ReadEntry(kind, entry + (end + rest), indent + "  ") == Some((keys, parts, end + rest))
    ensures ReadEntries(kind, indent + "  " + entry + ("\n" + indent + closer + rest), indent, closer)
            == Some((keys, parts, rest))
  {
    hide ReadEntry;
    var next, end := indent + "  ", "\n" + indent + closer;
    var s := next + entry + (end + rest);
    assert s[|next|..] == entry + (end + rest);
    assert (end + rest)[0] == '\n' && (end + rest)[|end|..] == rest;
  }

  lemma NextEntry(kind: Kind, entry: string, keys: seq<string>, parts: seq<Shown>, more: string, indent: string,
                  closer: string)
    requires ReadEntry(kind, entry + (",\n" + more), indent + "  ") == Some((keys, parts, ",\n" + more))
    ensures ReadEntries(kind, indent + "  " + entry + (",\n" + more), indent, closer)
            == (var r := ReadEntries(kind, more, indent, closer);
                if r == None then None else Some((keys + r.value.0, parts + r.value.1, r.value.2)))
  {
    hide ReadEntry;
    var next := indent + "  ";
    var s := next + entry + (",\n" + more);
    assert s[|next|..] == entry + (",\n" + more);
    assert (",\n" + more)[2..] == more;
  }

  // ----- Whole texts -----

  lemma KindRead(c: Container)
    requires ReadableHead(c)
    ensures !c.List? ==> KindOf(Base(c)) == KindIs(c)
    ensures Plain(Base(c)) && Plain(Base(c) + Opening(c)) && Plain(Base(c) + (Opening(c) + Closing(c)))
  {
    match c
    case List(_) =>
    case Table(entries) => CountIsPlain("Map(", |entries|);
    case Group(members) => CountIsPlain("Set(", |members|);
    case Record(prefix, _) => PrefixIsPlain(prefix);
  }

  lemma PrefixIsPlain(prefix: string)
    requires Plain(prefix)
    ensures Plain(prefix + "{") && Plain(prefix + ("{" + "}"))
  {
  }

  lemma CountIsPlain(name: string, n: nat)
    requires name == "Map(" || name == "Set("
    ensures var base := name + Decimal.Show(n) + ") ";
            name <= base && Plain(base) && Plain(base + "{") && Plain(base + ("{" + "}"))
  {
    hide Decimal.Show;
    Decimal.ParseOfShow(n);
    var base := name + Decimal.Show(n) + ") ";
    forall i | 0 <= i < |base|
      ensures base[i] != '\n' && base[i] != '='
    {
      if |name| <= i < |name| + |Decimal.Show(n)| {
        assert base[i] == Decimal.Show(n)[i - |name|];
      }
    }
    PrefixIsPlain(base);
  }

  lemma NoQuoteFirst(head: string, rest: string)
    requires Plain(head) && head != ""
    ensures (head + rest)[0] != '"'
  {
  }

  lemma EmptyListReads(rest: string, indent: string)
    requires Follower(rest)
    ensures ReadShown("[]" + rest, indent) == Some((Node(ListOf, [], []), rest))
  {
    WordRead("[]", rest);
  }

  lemma EmptyBracesRead(base: string, rest: string, indent: string)
    requires Plain(base + ("{" + "}")) && Follower(rest) && Counted(base, KindOf(base), [])
    ensures ReadShown(base + ("{" + "}") + rest, indent) == Some((Node(KindOf(base), [], []), rest))
  {
    hide Plain;
    hide Follower;
    hide Counted;
    hide KindOf;
    var head := base + ("{" + "}");
    NoQuoteFirst(head, rest);
    WordRead(head, rest);
    assert head[..|head| - 2] == base && head[|head| - 1] == '}' && head != "[]";
  }

  lemma ListOpens(rest: string, indent: string)
    requires Follower(rest)
    ensures ReadShown("[" + rest, indent) == ReadInside("", ListOf, rest, indent, "]")
  {
    hide ReadInside;
    WordRead("[", rest);
  }

  lemma BracesOpen(base: string, rest: string, indent: string)
    requires Plain(base + "{") && Follower(rest)
    ensures ReadShown(base + "{" + rest, indent) == ReadInside(base, KindOf(base), rest, indent, "}")
  {
    hide Plain;
    hide Follower;
    hide KindOf;
    hide ReadInside;
    var head := base + "{";
    NoQuoteFirst(head, rest);
    WordRead(head, rest);
    assert head[..|head| - 1] == base && head[|head| - 1] == '{' && head != "[]" && head != "[";
  }

  lemma IsCounted(c: Container, parts: seq<Shown>)
    requires |parts| == |Parts(c)|
    ensures Counted(Base(c), KindIs(c), parts)
  {
    hide Decimal.Show;
  }

  lemma EmptyReads(c: Container, indent: string, rest: string)
    requires ReadableHead(c) && Count(c) == 0 && Follower(rest)
    ensures ReadShown(Base(c) + (Opening(c) + Closing(c)) + rest, indent) == Some((Node(KindIs(c), Keys(c), []), rest))
  {
    hide *;
    KindRead(c);
    NothingInside(c);
    IsCounted(c, []);
    if c.List? {
      ListBase(c);
      EmptyListReads(rest, indent);
    } else {
      BracesOf(c);
      EmptyBracesRead(Base(c), rest, indent);
    }
  }

  lemma NothingInside(c: Container)
    requires Count(c) == 0
    ensures |Parts(c)| == 0 && Keys(c) == []
  {
  }

  lemma ListBase(c: Container)
    requires c.List?
    ensures Base(c) + (Opening(c) + Closing(c)) == "[]" && Base(c) + Opening(c) == "[" && Closing(c) == "]"
    ensures Base(c) == "" && KindIs(c) == ListOf
  {
  }

  lemma BracesOf(c: Container)
    requires !c.List?
    ensures Opening(c) == "{" && Closing(c) == "}"
  {
  }

  lemma FilledReads(c: Container, texts: seq<string>, parts: seq<Shown>, indent: string, rest: string)
    requires |texts| == |parts| == |Parts(c)| && AllRead(texts, parts, indent + "  ") && ReadableHead(c)
    requires Count(c) > 0
    ensures var lines := LinesOf(c, texts, indent + "  ");
            var inside := "\n" + Join(lines) + "\n" + indent + Closing(c);
            ReadShown(Base(c) + Opening(c) + inside + rest, indent) == Some((Node(KindIs(c), Keys(c), parts), rest))
  {
    hide *;
    var lines := LinesOf(c, texts, indent + "  ");
    var body := Join(lines) + ("\n" + indent + Closing(c) + rest);
    assert "\n" + Join(lines) + "\n" + indent + Closing(c) + rest == "\n" + body;
    var inside := "\n" + Join(lines) + "\n" + indent + Closing(c);
    Associative(Base(c) + Opening(c), inside, rest);
    KindRead(c);
    KeysGoOn(c, 0);
    PartsGoOn(c, parts, 0);
    EntriesRead(c, texts, parts, indent, 0, rest);
    assert lines[0..] == lines && parts[0..] == parts;
    IsCounted(c, parts);
    InsideReads(Base(c), KindIs(c), body, indent, Closing(c));
    NewlineFollows(body);
    if c.List? {
      ListBase(c);
      ListOpens("\n" + body, indent);
    } else {
      BracesOf(c);
      BracesOpen(Base(c), "\n" + body, indent);
    }
  }

  lemma NewlineFollows(body: string)
    ensures Follower("\n" + body)
  {
  }

  lemma InsideReads(base: string, kind: Kind, body: string, indent: string, closer: string)
    ensures ReadInside(base, kind, "\n" + body, indent, closer)
            == (var inside := ReadEntries(kind, body, indent, closer);
                if inside == None || !Counted(base, kind, inside.value.1) then None
                else Some((Node(kind, inside.value.0, inside.value.1), inside.value.2)))
  {
    hide ReadEntries;
    hide Counted;
    assert ("\n" + body)[1..] == body;
  }

  lemma ContainerReads(c: Container, texts: seq<string>, parts: seq<Shown>, indent: string)
    requires |texts| == |parts| == |Parts(c)| && AllRead(texts, parts, indent + "  ") && ReadableHead(c)
    ensures ReadsAs(Layout(c, texts, indent), Node(KindIs(c), Keys(c), parts), indent)
  {
    hide Layout;
    hide Join;
    hide ReadShown;
    hide AllRead;
    hide ReadableHead;
    hide Follower;
    hide Entry;
    LayoutIsLines(c, texts, indent);
    forall rest | Follower(rest)
      ensures ReadShown(Layout(c, texts, indent) + rest, indent) == Some((Node(KindIs(c), Keys(c), parts), rest))
    {
      if Count(c) == 0 {
        NothingInside(c);
        EmptyReads(c, indent, rest);
      } else {
        FilledReads(c, texts, parts, indent, rest);
      }
    }
  }

  lemma WordReads(text: string, indent: string)
    requires Quoted(text) || PlainWord(text)
    ensures ReadsAs(text, Word(text), indent)
  {
    hide Plain;
    hide Close;
    forall rest | Follower(rest)
      ensures ReadShown(text + rest, indent) == Some((Word(text), rest))
    {
      if Quoted(text) {
        QuotedRead(text, rest);
      } else {
        PlainReads(text, rest, indent);
      }
    }
  }

  lemma PlainReads(text: string, rest: string, indent: string)
    requires PlainWord(text) && Follower(rest)
    ensures ReadShown(text + rest, indent) == Some((Word(text), rest))
  {
    WordRead(text, rest);
    hide Plain;
    if text == "" {
      assert text + rest == rest;
    } else {
      NoQuoteFirst(text, rest);
    }
  }

  /** A printed structure reads back as what it shows. */
  lemma {:induction false} TreeReads(tree: Tree, indent: string)
    requires Regular(tree) && Readable(tree)
    ensures ReadsAs(Show(tree, indent), ShownOf(tree), indent)
  {
    hide ReadsAs;
    hide Layout;
    match tree
    case Text(text) => WordReads(text, indent);
    case Circular(_) => CircularReads(indent);
    case Branch(c, children) =>
      var next := indent + "  ";
      var texts := seq(|children|, i requires 0 <= i < |children| => Show(children[i], next));
      var parts := seq(|children|, i requires 0 <= i < |children| => ShownOf(children[i]));
      forall i | 0 <= i < |children|
        ensures ReadsAs(texts[i], parts[i], next)
      {
        TreeReads(children[i], next);
      }
      ContainerReads(c, texts, parts, indent);
  }

  lemma CircularIsPlain(text: string)
    requires text == "[Circular]"
    ensures PlainWord(text)
  {
    assert |text| == 10 && text[0] == '[' && text[8] == 'r' && text[9] == ']';
  }

  lemma CircularReads(indent: string)
    ensures ReadsAs("[Circular]", Word("[Circular]"), indent)
  {
    hide *;
    CircularIsPlain("[Circular]");
    WordReads("[Circular]", indent);
  }

  // ----- What is printed of a graph -----

  ghost predicate ReadableValue(value: Value) {
    value.Leaf? ==> Quoted(value.text) || PlainWord(value.text)
  }

  ghost predicate ReadableContainer(c: Container) {
    ReadableHead(c) && forall i | 0 <= i < |Parts(c)| :: ReadableValue(Parts(c)[i])
  }

  ghost predicate ReadableHeap(heap: Heap) {
    forall at | at in heap :: ReadableContainer(heap[at])
  }

  lemma {:induction false} UnfoldIsReadable(heap: Heap, value: Value, path: set<nat>)
    requires Closed(heap) && Within(heap, value) && ReadableHeap(heap) && ReadableValue(value)
    ensures Regular(Unfold(heap, value, path)) && Readable(Unfold(heap, value, path))
    decreases heap.Keys - path
  {
    hide ReadableHead;
    hide Quoted;
    hide PlainWord;
    UnfoldIsRegular(heap, value, path);
    if value.Ref? && value.at !in path {
      var parts := Parts(heap[value.at]);
      assert ReadableContainer(heap[value.at]);
      assert value.at in heap.Keys - path && value.at !in heap.Keys - (path + {value.at});
      forall i | 0 <= i < |parts|
        ensures Regular(Unfold(heap, parts[i], path + {value.at}))
        ensures Readable(Unfold(heap, parts[i], path + {value.at}))
      {
        UnfoldIsReadable(heap, parts[i], path + {value.at});
      }
    }
  }

  /** What is printed reads back as the unfolded graph: every container with its
      kind and its keys, and its parts in their order, keys before values. */
  lemma PrintedReadsBack(heap: Heap, value: Value, indent: string, path: set<nat>)
    requires Closed(heap) && Within(heap, value) && ReadableHeap(heap) && ReadableValue(value)
    ensures ReadShown(Printed(heap, value, indent, path), indent) == Some((ShownOf(Unfold(heap, value, path)), ""))
  {
    hide Show;
    hide Readable;
    hide ReadShown;
    hide ShownOf;
    hide Unfold;
    UnfoldIsReadable(heap, value, path);
    var text := Printed(heap, value, indent, path);
    TreeReads(Unfold(heap, value, path), indent);
    NothingFollows();
    assert text + "" == text;
  }

  lemma NothingFollows()
    ensures Follower("")
  {
  }

  predicate HasShown(shown: Shown, route: seq<nat>)
    decreases |route|
  {
    route == [] || (shown.Node? && route[0] < |shown.parts| && HasShown(shown.parts[route[0]], route[1..]))
  }

  /** The part of what is shown at a place. */
  function ShownAt(shown: Shown, route: seq<nat>): Shown
    requires HasShown(shown, route)
    decreases |route|
  {
    if route == [] then shown else ShownAt(shown.parts[route[0]], route[1..])
  }

  lemma {:induction false} ShownAtPlace(tree: Tree, route: seq<nat>)
    ensures HasShown(ShownOf(tree), route) <==> HasPlace(tree, route)
    ensures HasPlace(tree, route) ==> ShownAt(ShownOf(tree), route) == ShownOf(Place(tree, route))
    decreases |route|
  {
    hide KindIs;
    hide Keys;
    if route != [] && tree.Branch? && route[0] < |tree.children| {
      ShownAtPlace(tree.children[route[0]], route[1..]);
    }
  }

  /** In the text of a value, read back, there stands at every place what the same
      walk reaches in the graph: a leaf's own text; "[Circular]" for a container
      that is its own ancestor on the walk; and any other container with its kind,
      its keys and as many parts as it has. */
  lemma TextShowsGraph(heap: Heap, value: Value, indent: string, route: seq<nat>)
    requires Closed(heap) && Within(heap, value) && ReadableHeap(heap) && ReadableValue(value)
    ensures var read := ReadShown(Printed(heap, value, indent, {}), indent);
            && read.Some? && read.value.1 == ""
            && (HasShown(read.value.0, route) ==>
                && CanWalk(heap, value, route)
                && var end, at := Walk(heap, value, route), ShownAt(read.value.0, route);
                   match end {
                     case Leaf(text) => at == Word(text)
                     case Ref(here) =>
                       if here in Ancestors(heap, value, route) then at == Word("[Circular]")
                       else
                         && at.Node? && at.kind == KindIs(heap[here]) && at.keys == Keys(heap[here])
                         && |at.parts| == |Parts(heap[here])|
                   })
  {
    hide ReadShown;
    hide Printed;
    hide ReadableHeap;
    hide ReadableValue;
    hide KindIs;
    hide Keys;
    PrintedReadsBack(heap, value, indent, {});
    var tree := Unfold(heap, value, {});
    ShownAtPlace(tree, route);
    if HasPlace(tree, route) {
      CircularIffOwnAncestor(heap, value, {}, route);
      UnfoldIsRegular(heap, value, {});
      PlaceIsRegular(tree, route);
    }
  }

  lemma {:induction false} PlaceIsRegular(tree: Tree, route: seq<nat>)
    requires Regular(tree) && HasPlace(tree, route)
    ensures Regular(Place(tree, route))
    decreases |route|
  {
    if route != [] {
      PlaceIsRegular(tree.children[route[0]], route[1..]);
    }
  }
}
