/** The console formatter of the development tools: a recursive printer over an
    object graph that may share containers or loop, guarded by a mutable set of
    the containers being printed. */
module Console {
  import Decimal

  /** A value is printed as given, or it is a reference to a container. */
  datatype Value = Leaf(text: string) | Ref(at: nat)

  /** `prefix` is the constructor's name and a blank, or empty for a plain object;
      a field's key is given as its quoted text. */
  datatype Container =
    | List(items: seq<Value>)
    | Table(entries: seq<(Value, Value)>)
    | Group(members: seq<Value>)
    | Record(prefix: string, fields: seq<(string, Value)>)

  type Heap = map<nat, Container>

  /** The values in a container, in the order in which they are printed. */
  function Parts(c: Container): seq<Value> {
    match c
    case List(items) => items
    case Table(entries) => seq(2 * |entries|, i requires 0 <= i < 2 * |entries| =>
                             if i % 2 == 0 then entries[i / 2].0 else entries[i / 2].1)
    case Group(members) => members
    case Record(_, fields) => seq(|fields|, i requires 0 <= i < |fields| => fields[i].1)
  }

  ghost predicate Within(heap: Heap, value: Value) {
    value.Ref? ==> value.at in heap
  }

  ghost predicate Fits(heap: Heap, c: Container) {
    forall i | 0 <= i < |Parts(c)| :: Within(heap, Parts(c)[i])
  }

  ghost predicate Closed(heap: Heap) {
    forall at | at in heap :: Fits(heap, heap[at])
  }

  lemma EntryParts(entries: seq<(Value, Value)>, i: nat)
    requires i < |entries|
    ensures Parts(Table(entries))[2 * i] == entries[i].0 && Parts(Table(entries))[2 * i + 1] == entries[i].1
  {
    assert 2 * i / 2 == i && 2 * i % 2 == 0;
    assert (2 * i + 1) / 2 == i && (2 * i + 1) % 2 == 1;
  }

  // ----- What is printed -----

  /** The printed structure, before it is laid out. */
  datatype Tree = Text(text: string) | Circular(at: nat) | Branch(container: Container, children: seq<Tree>)

  /** The graph unfolded from a value below the containers in `path`, cut where a
      container comes up below itself. */
  function Unfold(heap: Heap, value: Value, path: set<nat>): Tree
    requires Closed(heap) && Within(heap, value)
    decreases heap.Keys - path
  {
    match value
    case Leaf(text) => Text(text)
    case Ref(at) =>
      if at in path then Circular(at)
      else
        var parts := Parts(heap[at]);
        assert at in heap.Keys - path && at !in heap.Keys - (path + {at});
        Branch(heap[at], seq(|parts|, i requires 0 <= i < |parts| => Unfold(heap, parts[i], path + {at})))
  }

  function Join(lines: seq<string>): string {
    if lines == [] then ""
    else if |lines| == 1 then lines[0]
    else lines[0] + ",\n" + Join(lines[1..])
  }

  function Braced(lines: seq<string>, indent: string): string {
    if lines == [] then "{}" else "{\n" + Join(lines) + "\n" + indent + "}"
  }

  function EntryLine(texts: seq<string>, next: string, i: nat): string
    requires 2 * i + 1 < |texts|
  {
    next + texts[2 * i] + " => " + texts[2 * i + 1]
  }

  /** A container's text, from the texts of its parts. */
  function Layout(c: Container, texts: seq<string>, indent: string): string
    requires |texts| == |Parts(c)|
  {
    var next := indent + "  ";
    match c
    case List(_) =>
      if texts == [] then "[]"
      else "[\n" + Join(seq(|texts|, i requires 0 <= i < |texts| => next + texts[i])) + "\n" + indent + "]"
    case Table(entries) =>
      "Map(" + Decimal.Show(|entries|) + ") "
      + Braced(seq(|entries|, i requires 0 <= i < |entries| => EntryLine(texts, next, i)), indent)
    case Group(_) =>
      "Set(" + Decimal.Show(|texts|) + ") "
      + Braced(seq(|texts|, i requires 0 <= i < |texts| => next + texts[i]), indent)
    case Record(prefix, fields) =>
      prefix + Braced(seq(|fields|, i requires 0 <= i < |fields| => next + fields[i].0 + ": " + texts[i]), indent)
  }

  ghost predicate Regular(tree: Tree) {
    tree.Branch? ==>
      |tree.children| == |Parts(tree.container)| && forall i | 0 <= i < |tree.children| :: Regular(tree.children[i])
  }

  function Show(tree: Tree, indent: string): string
    requires Regular(tree)
  {
    match tree
    case Text(text) => text
    case Circular(_) => "[Circular]"
    case Branch(c, children) =>
      Layout(c, seq(|children|, i requires 0 <= i < |children| => Show(children[i], indent + "  ")), indent)
  }

  lemma {:induction false} UnfoldIsRegular(heap: Heap, value: Value, path: set<nat>)
    requires Closed(heap) && Within(heap, value)
    ensures Regular(Unfold(heap, value, path))
    decreases heap.Keys - path
  {
    if value.Ref? && value.at !in path {
      var parts := Parts(heap[value.at]);
      assert value.at in heap.Keys - path && value.at !in heap.Keys - (path + {value.at});
      forall i | 0 <= i < |parts|
        ensures Regular(Unfold(heap, parts[i], path + {value.at}))
      {
        UnfoldIsRegular(heap, parts[i], path + {value.at});
      }
    }
  }

  /** The text of a value printed below `path`. */
  function Printed(heap: Heap, value: Value, indent: string, path: set<nat>): string
    requires Closed(heap) && Within(heap, value)
  {
    UnfoldIsRegular(heap, value, path);
    Show(Unfold(heap, value, path), indent)
  }

  function PartTexts(heap: Heap, c: Container, indent: string, path: set<nat>): (texts: seq<string>)
    requires Closed(heap) && Fits(heap, c)
    ensures |texts| == |Parts(c)|
  {
    seq(|Parts(c)|, i requires 0 <= i < |Parts(c)| => Printed(heap, Parts(c)[i], indent, path))
  }

  lemma PrintedContainer(heap: Heap, at: nat, indent: string, path: set<nat>)
    requires Closed(heap) && at in heap && at !in path
    ensures Printed(heap, Ref(at), indent, path)
         == Layout(heap[at], PartTexts(heap, heap[at], indent + "  ", path + {at}), indent)
  {
    UnfoldIsRegular(heap, Ref(at), path);
    var children := Unfold(heap, Ref(at), path).children;
    assert seq(|children|, i requires 0 <= i < |children| => Show(children[i], indent + "  "))
        == PartTexts(heap, heap[at], indent + "  ", path + {at});
  }

  // ----- The printer -----

  class Printer {
    var seen: set<nat>

    constructor ()
      ensures seen == {}
    {
      seen := {};
    }

    /** Terminates on every finite graph, leaves `seen` as it was, and prints the
        graph unfolded below the containers in `seen`. */
    method FormatConsoleValue(heap: Heap, value: Value, indent: string) returns (out: string)
      requires Closed(heap) && Within(heap, value)
      modifies this
      ensures seen == old(seen)
      ensures out == Printed(heap, value, indent, old(seen))
      decreases heap.Keys - seen, 0
    {
      hide Layout;
      match value {
        case Leaf(text) => return text;
        case Ref(at) =>
          if at in seen {
            return "[Circular]";
          }
          PrintedContainer(heap, at, indent, seen);
          assert at in heap.Keys - seen;
          seen := seen + {at};
          var c := heap[at];
          match c {
            case List(items) => out := FormatList(heap, items, indent);
            case Table(entries) => out := FormatTable(heap, entries, indent);
            case Group(members) => out := FormatGroup(heap, members, indent);
            case Record(prefix, fields) => out := FormatRecord(heap, prefix, fields, indent);
          }
          seen := seen - {at};
      }
    }

    method FormatList(heap: Heap, items: seq<Value>, indent: string) returns (out: string)
      requires Closed(heap) && Fits(heap, List(items))
      modifies this
      ensures seen == old(seen)
      ensures out == Layout(List(items), PartTexts(heap, List(items), indent + "  ", old(seen)), indent)
      decreases heap.Keys - seen, 1
    {
      if items == [] {
        return "[]";
      }
      var next := indent + "  ";
      var lines := [];
      ghost var texts := PartTexts(heap, List(items), next, seen);
      for i := 0 to |items|
        invariant seen == old(seen) && |lines| == i
        invariant forall j | 0 <= j < i :: lines[j] == next + texts[j]
      {
        assert Parts(List(items))[i] == items[i];
        var text := FormatConsoleValue(heap, items[i], next);
        lines := lines + [next + text];
      }
      out := "[\n" + Join(lines) + "\n" + indent + "]";
      assert lines == seq(|texts|, i requires 0 <= i < |texts| => next + texts[i]);
    }

    method FormatTable(heap: Heap, entries: seq<(Value, Value)>, indent: string) returns (out: string)
      requires Closed(heap) && Fits(heap, Table(entries))
      modifies this
      ensures seen == old(seen)
      ensures out == Layout(Table(entries), PartTexts(heap, Table(entries), indent + "  ", old(seen)), indent)
      decreases heap.Keys - seen, 1
    {
      hide Printed;
      var next := indent + "  ";
      var lines := [];
      ghost var texts := PartTexts(heap, Table(entries), next, seen);
      for i := 0 to |entries|
        invariant seen == old(seen) && |lines| == i
        invariant forall j | 0 <= j < i :: lines[j] == EntryLine(texts, next, j)
      {
        EntryParts(entries, i);
        var key := FormatConsoleValue(heap, entries[i].0, next);
        var text := FormatConsoleValue(heap, entries[i].1, next);
        lines := lines + [next + key + " => " + text];
      }
      out := "Map(" + Decimal.Show(|entries|) + ") " + Braced(lines, indent);
      assert lines == seq(|entries|, i requires 0 <= i < |entries| => EntryLine(texts, next, i));
    }

    method FormatGroup(heap: Heap, members: seq<Value>, indent: string) returns (out: string)
      requires Closed(heap) && Fits(heap, Group(members))
      modifies this
      ensures seen == old(seen)
      ensures out == Layout(Group(members), PartTexts(heap, Group(members), indent + "  ", old(seen)), indent)
      decreases heap.Keys - seen, 1
    {
      var next := indent + "  ";
      var lines := [];
      ghost var texts := PartTexts(heap, Group(members), next, seen);
      for i := 0 to |members|
        invariant seen == old(seen) && |lines| == i
        invariant forall j | 0 <= j < i :: lines[j] == next + texts[j]
      {
        assert Parts(Group(members))[i] == members[i];
        var text := FormatConsoleValue(heap, members[i], next);
        lines := lines + [next + text];
      }
      out := "Set(" + Decimal.Show(|members|) + ") " + Braced(lines, indent);
      assert lines == seq(|texts|, i requires 0 <= i < |texts| => next + texts[i]);
    }

    method FormatRecord(heap: Heap, prefix: string, fields: seq<(string, Value)>, indent: string) returns (out: string)
      requires Closed(heap) && Fits(heap, Record(prefix, fields))
      modifies this
      ensures seen == old(seen)
      ensures out == Layout(Record(prefix, fields), PartTexts(heap, Record(prefix, fields), indent + "  ", old(seen)),
                            indent)
      decreases heap.Keys - seen, 1
    {
      var next := indent + "  ";
      var lines := [];
      ghost var texts := PartTexts(heap, Record(prefix, fields), next, seen);
      for i := 0 to |fields|
        invariant seen == old(seen) && |lines| == i
        invariant forall j | 0 <= j < i :: lines[j] == next + fields[j].0 + ": " + texts[j]
      {
        assert Parts(Record(prefix, fields))[i] == fields[i].1;
        var text := FormatConsoleValue(heap, fields[i].1, next);
        lines := lines + [next + fields[i].0 + ": " + text];
      }
      out := prefix + Braced(lines, indent);
      assert lines == seq(|fields|, i requires 0 <= i < |fields| => next + fields[i].0 + ": " + texts[i]);
    }
  }

  // ----- Where [Circular] stands -----

  /** The value reached from `value` by the part numbers in `route`. */
  function Walk(heap: Heap, value: Value, route: seq<nat>): (end: Value)
    requires Closed(heap) && Within(heap, value) && CanWalk(heap, value, route)
    ensures Within(heap, end)
    decreases |route|
  {
    if route == [] then value else Walk(heap, Parts(heap[value.at])[route[0]], route[1..])
  }

  predicate CanWalk(heap: Heap, value: Value, route: seq<nat>)
    requires Closed(heap) && Within(heap, value)
    decreases |route|
  {
    route == []
    || (value.Ref? && route[0] < |Parts(heap[value.at])|
        && CanWalk(heap, Parts(heap[value.at])[route[0]], route[1..]))
  }

  /** The containers strictly above the end of a walk. */
  function Ancestors(heap: Heap, value: Value, route: seq<nat>): set<nat>
    requires Closed(heap) && Within(heap, value) && CanWalk(heap, value, route)
    decreases |route|
  {
    if route == [] then {} else {value.at} + Ancestors(heap, Parts(heap[value.at])[route[0]], route[1..])
  }

  predicate HasPlace(tree: Tree, route: seq<nat>)
    decreases |route|
  {
    route == [] || (tree.Branch? && route[0] < |tree.children| && HasPlace(tree.children[route[0]], route[1..]))
  }

  /** The part of the printed structure at a place. */
  function Place(tree: Tree, route: seq<nat>): Tree
    requires HasPlace(tree, route)
    decreases |route|
  {
    if route == [] then tree else Place(tree.children[route[0]], route[1..])
  }

  /** At every place of the printed structure stands the value that the same walk
      reaches in the graph, and it is `[Circular]` exactly when that value is a
      container that is its own ancestor on the walk (or was being printed). */
  lemma {:induction false} CircularIffOwnAncestor(heap: Heap, value: Value, path: set<nat>, route: seq<nat>)
    requires Closed(heap) && Within(heap, value) && HasPlace(Unfold(heap, value, path), route)
    ensures CanWalk(heap, value, route)
    ensures var end, place := Walk(heap, value, route), Place(Unfold(heap, value, path), route);
            var above := path + Ancestors(heap, value, route);
            && (place.Circular? <==> end.Ref? && end.at in above)
            && (place.Circular? ==> place.at == end.at)
            && (place.Branch? ==> end.Ref? && place.container == heap[end.at])
            && (place.Text? ==> end == Leaf(place.text))
    decreases |route|
  {
    if route != [] {
      var part := Parts(heap[value.at])[route[0]];
      CircularIffOwnAncestor(heap, part, path + {value.at}, route[1..]);
      assert path + {value.at} + Ancestors(heap, part, route[1..]) == path + Ancestors(heap, value, route);
    }
  }

  /** A walk that comes back to a container above it is cut, at its end or before,
      by a `[Circular]`. */
  lemma {:induction false} LoopIsCut(heap: Heap, value: Value, path: set<nat>, route: seq<nat>) returns (cut: seq<nat>)
    requires Closed(heap) && Within(heap, value) && CanWalk(heap, value, route)
    requires var end := Walk(heap, value, route); end.Ref? && end.at in path + Ancestors(heap, value, route)
    ensures cut <= route && HasPlace(Unfold(heap, value, path), cut)
    ensures Place(Unfold(heap, value, path), cut).Circular?
    decreases |route|
  {
    if value.at in path {
      cut := [];
    } else {
      var part := Parts(heap[value.at])[route[0]];
      assert path + {value.at} + Ancestors(heap, part, route[1..]) == path + Ancestors(heap, value, route);
      var rest := LoopIsCut(heap, part, path + {value.at}, route[1..]);
      cut := [route[0]] + rest;
      assert cut[1..] == rest;
    }
  }

  ghost predicate PrintsCircular(heap: Heap, value: Value)
    requires Closed(heap) && Within(heap, value)
  {
    exists route :: HasPlace(Unfold(heap, value, {}), route) && Place(Unfold(heap, value, {}), route).Circular?
  }

  /** Some walk from the value passes through a container twice. */
  ghost predicate ReachesLoop(heap: Heap, value: Value)
    requires Closed(heap) && Within(heap, value)
  {
    exists route :: CanWalk(heap, value, route)
                    && Walk(heap, value, route).Ref? && Walk(heap, value, route).at in Ancestors(heap, value, route)
  }

  /** `[Circular]` is printed exactly when a loop can be reached from the value;
      containers that are merely shared are printed in full each time. */
  lemma CircularIffLoop(heap: Heap, value: Value)
    requires Closed(heap) && Within(heap, value)
    ensures PrintsCircular(heap, value) <==> ReachesLoop(heap, value)
  {
    if PrintsCircular(heap, value) {
      var route :| HasPlace(Unfold(heap, value, {}), route) && Place(Unfold(heap, value, {}), route).Circular?;
      CircularIffOwnAncestor(heap, value, {}, route);
      assert CanWalk(heap, value, route) && Walk(heap, value, route).at in Ancestors(heap, value, route);
    }
    if ReachesLoop(heap, value) {
      var route :| CanWalk(heap, value, route)
                   && Walk(heap, value, route).Ref? && Walk(heap, value, route).at in Ancestors(heap, value, route);
      var cut := LoopIsCut(heap, value, {}, route);
      assert HasPlace(Unfold(heap, value, {}), cut);
    }
  }

  /** Every reference leads to a container of lower rank: sharing, but no loops. */
  ghost predicate Layered(heap: Heap, rank: nat -> nat) {
    forall at, i | at in heap && 0 <= i < |Parts(heap[at])| && Parts(heap[at])[i].Ref? ::
      rank(Parts(heap[at])[i].at) < rank(at)
  }

  lemma {:induction false} RankFalls(heap: Heap, rank: nat -> nat, value: Value, route: seq<nat>)
    requires Closed(heap) && Layered(heap, rank) && Within(heap, value) && CanWalk(heap, value, route)
    requires Walk(heap, value, route).Ref?
    ensures forall at | at in Ancestors(heap, value, route) :: rank(Walk(heap, value, route).at) < rank(at)
    ensures value.Ref? && rank(Walk(heap, value, route).at) <= rank(value.at)
    decreases |route|
  {
    if route != [] {
      RankFalls(heap, rank, Parts(heap[value.at])[route[0]], route[1..]);
    }
  }

  /** A graph without loops is printed in full, however its containers are shared. */
  lemma SharingIsNotCircular(heap: Heap, rank: nat -> nat, value: Value)
    requires Closed(heap) && Layered(heap, rank) && Within(heap, value)
    ensures !PrintsCircular(heap, value)
  {
    CircularIffLoop(heap, value);
    if ReachesLoop(heap, value) {
      var route :| CanWalk(heap, value, route)
                   && Walk(heap, value, route).Ref? && Walk(heap, value, route).at in Ancestors(heap, value, route);
      RankFalls(heap, rank, value, route);
      assert false;
    }
  }
}
