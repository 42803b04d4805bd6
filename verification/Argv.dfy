/** The command-line parser: its argv loop, and the second reader of the same
    argv that picks the subcommand's value flags beforehand. */
module Argv {
  import opened Basics
  import Utf8

  datatype CliError = FlagSyntax(flag: string) | MissingValue(flag: string)

  /** What the loop has collected. */
  datatype Parsed = Parsed(flags: map<string, Option<string>>, arguments: seq<string>, errors: seq<CliError>)

  datatype Outcome = Finished(parsed: Parsed) | Panicked

  /** What a token of argv is taken for. */
  datatype Role = Positional | Flag | Separator | Value

  const EMPTY := Parsed(map[], [], [])
  const FLAG_PREFIXES := ["-", "--"]

  /** `&s[n..]` for a byte offset: none when it is past the end or inside a
      character, where the source panics. */
  function DropBytes(s: string, n: nat): Option<string> {
    if n == 0 then Some(s)
    else if s == "" then None
    else
      var width := |Utf8.EncodeChar(s[0])|;
      if width > n then None else DropBytes(s[1..], n - width)
  }

  /** The first prefix the token starts with. */
  function PrefixOf(prefixes: seq<string>, token: string): Option<string> {
    if prefixes == [] then None
    else if prefixes[0] <= token then Some(prefixes[0])
    else PrefixOf(prefixes[1..], token)
  }

  function SplitOnce(s: string): Option<(string, string)> {
    if s == "" then None
    else if s[0] == '=' then Some(("", s[1..]))
    else
      var rest := SplitOnce(s[1..]);
      if rest == None then None else Some(([s[0]] + rest.value.0, rest.value.1))
  }

  /** One round of the loop on the remaining tokens: what each consumed token is
      taken for, and what is recorded. */
  datatype Round =
    | Argument
    | FlagRound(name: string, value: Option<string>, error: Option<CliError>, roles: seq<Role>)
    | Panic

  function FlagRoundOf(prefixes: seq<string>, valueFlags: seq<string>, flag: string, next: seq<string>): Round {
    var split := SplitOnce(flag);
    if split.Some? then
      var (name, afterEq) := split.value;
      if afterEq != "" then FlagRound(name, Some(afterEq), None, [Flag])
      else if next == [] then FlagRound(name, None, Some(FlagSyntax(name)), [Flag])
      else FlagRound(name, Some(next[0]), None, [Flag, Value])
    else if next != [] && next[0] == "=" then
      if |next| == 1 then FlagRound(flag, None, Some(FlagSyntax(flag)), [Flag, Separator])
      else FlagRound(flag, Some(next[1]), None, [Flag, Separator, Value])
    else if next != [] && "=" <= next[0] then FlagRound(flag, Some(next[0][1..]), None, [Flag, Value])
    else if flag in valueFlags then
      if next == [] || PrefixOf(prefixes, next[0]).Some? then FlagRound(flag, None, Some(MissingValue(flag)), [Flag])
      else FlagRound(flag, Some(next[0]), None, [Flag, Value])
    else FlagRound(flag, None, None, [Flag])
  }

  function RoundOf(prefixes: seq<string>, valueFlags: seq<string>, tokens: seq<string>): (r: Round)
    requires tokens != []
    ensures r.FlagRound? ==> 1 <= |r.roles| <= |tokens|
  {
    var prefix := PrefixOf(prefixes, tokens[0]);
    if prefix == None then Argument
    else
      var flag := DropBytes(tokens[0], |Utf8.Encode(prefix.value)| + 1);
      if flag == None then Panic else FlagRoundOf(prefixes, valueFlags, flag.value, tokens[1..])
  }

  function Record(st: Parsed, token: string, r: Round): Parsed
    requires !r.Panic?
  {
    if r.Argument? then st.(arguments := st.arguments + [token])
    else
      Parsed(st.flags[r.name := r.value], st.arguments, st.errors + (if r.error == None then [] else [r.error.value]))
  }

  function Consumed(r: Round): nat
  {
    if r.FlagRound? then |r.roles| else 1
  }

  /** The loop from a state on the remaining tokens. */
  function Run(prefixes: seq<string>, valueFlags: seq<string>, tokens: seq<string>, st: Parsed): Outcome
    decreases |tokens|
  {
    if tokens == [] then Finished(st)
    else
      var r := RoundOf(prefixes, valueFlags, tokens);
      if r.Panic? then Panicked
      else Run(prefixes, valueFlags, tokens[Consumed(r)..], Record(st, tokens[0], r))
  }

  method StripPrefix(prefixes: seq<string>, token: string) returns (isFlag: bool, flag: Option<string>)
    ensures isFlag == PrefixOf(prefixes, token).Some?
    ensures isFlag ==> flag == DropBytes(token, |Utf8.Encode(PrefixOf(prefixes, token).value)| + 1)
  {
    isFlag, flag := false, None;
    assert prefixes[0..] == prefixes;
    for k := 0 to |prefixes|
      invariant PrefixOf(prefixes[k..], token) == PrefixOf(prefixes, token)
      invariant !isFlag
    {
      assert prefixes[k..][1..] == prefixes[k + 1..];
      if prefixes[k] <= token {
        isFlag := true;
        flag := DropBytes(token, |Utf8.Encode(prefixes[k])| + 1);
        break;
      }
    }
  }

  /** A round that ends at `next` leaves the run where it was going. */
  lemma RunsOn(prefixes: seq<string>, valueFlags: seq<string>, argv: seq<string>, index: nat, st: Parsed,
               next: nat, after: Parsed)
    requires index < |argv|
    requires var r := RoundOf(prefixes, valueFlags, argv[index..]);
             !r.Panic? && next == index + Consumed(r) <= |argv| && after == Record(st, argv[index], r)
    ensures Run(prefixes, valueFlags, argv[index..], st) == Run(prefixes, valueFlags, argv[next..], after)
  {
    hide RoundOf;
    hide Record;
    var r := RoundOf(prefixes, valueFlags, argv[index..]);
    assert argv[index..][0] == argv[index];
    assert argv[index..][Consumed(r)..] == argv[next..];
  }

  lemma RunStops(prefixes: seq<string>, valueFlags: seq<string>, argv: seq<string>, index: nat, st: Parsed)
    requires index <= |argv|
    ensures index == |argv| ==> Run(prefixes, valueFlags, argv[index..], st) == Finished(st)
    ensures index < |argv| && RoundOf(prefixes, valueFlags, argv[index..]).Panic? ==>
              Run(prefixes, valueFlags, argv[index..], st) == Panicked
  {
    hide RoundOf;
  }

  lemma PlainOrFlag(prefixes: seq<string>, valueFlags: seq<string>, argv: seq<string>, index: nat)
    requires index < |argv|
    ensures var prefix, r := PrefixOf(prefixes, argv[index]), RoundOf(prefixes, valueFlags, argv[index..]);
            if prefix == None then r == Argument
            else
              var flag := DropBytes(argv[index], |Utf8.Encode(prefix.value)| + 1);
              r == if flag == None then Panic else FlagRoundOf(prefixes, valueFlags, flag.value, argv[index..][1..])
  {
    hide FlagRoundOf;
    hide PrefixOf;
    hide DropBytes;
    assert argv[index..][0] == argv[index];
  }

  /** The argv loop. */
  method ParseArgv(prefixes: seq<string>, valueFlags: seq<string>, argv: seq<string>) returns (outcome: Outcome)
    ensures outcome == Run(prefixes, valueFlags, argv, EMPTY)
  {
    hide DropBytes;
    hide PrefixOf;
    hide RoundOf;
    hide FlagRoundOf;
    hide Run;
    var flags: map<string, Option<string>> := map[];
    var arguments: seq<string> := [];
    var errors: seq<CliError> := [];
    var index := 0;
    assert argv[0..] == argv;
    while index < |argv|
      invariant 0 <= index <= |argv|
      invariant Run(prefixes, valueFlags, argv[index..], Parsed(flags, arguments, errors))
                == Run(prefixes, valueFlags, argv, EMPTY)
    {
      ghost var st := Parsed(flags, arguments, errors);
      PlainOrFlag(prefixes, valueFlags, argv, index);
      RunStops(prefixes, valueFlags, argv, index, st);
      var isFlag, stripped := StripPrefix(prefixes, argv[index]);
      if !isFlag {
        arguments := arguments + [argv[index]];
        RunsOn(prefixes, valueFlags, argv, index, st, index + 1, Parsed(flags, arguments, errors));
        index := index + 1;
        continue;
      }
      if stripped == None {
        return Panicked;
      }
      var flag := stripped.value;
      var name, value, error, last := ReadFlagValue(prefixes, valueFlags, argv, index, flag);
      RoundEnds(prefixes, valueFlags, flag, argv[index..][1..]);
      if error.Some? {
        errors := errors + [error.value];
      } else {
        assert errors + [] == errors;
      }
      flags := flags[name := value];
      RunsOn(prefixes, valueFlags, argv, index, st, last + 1, Parsed(flags, arguments, errors));
      index := last + 1;
    }
    outcome := Finished(Parsed(flags, arguments, errors));
    RunStops(prefixes, valueFlags, argv, index, outcome.parsed);
  }

  lemma RoundEnds(prefixes: seq<string>, valueFlags: seq<string>, flag: string, next: seq<string>)
    ensures var r := FlagRoundOf(prefixes, valueFlags, flag, next); r.FlagRound? && 1 <= |r.roles| <= |next| + 1
  {
  }

  /** The value of the flag at `index`, across the supported syntaxes; `last` is
      the last token it took. */
  method ReadFlagValue(prefixes: seq<string>, valueFlags: seq<string>, argv: seq<string>, index: nat, flag: string)
      returns (name: string, value: Option<string>, error: Option<CliError>, last: nat)
    requires index < |argv|
    ensures var r := FlagRoundOf(prefixes, valueFlags, flag, argv[index..][1..]);
            r.FlagRound? && name == r.name && value == r.value && error == r.error && last == index + |r.roles| - 1
  {
    ghost var next := argv[index..][1..];
    assert next == argv[index + 1..];
    hide PrefixOf;
    hide SplitOnce;
    last, error, value := index, None, None;
    var split := SplitOnce(flag);
    name := if split.Some? then split.value.0 else flag;
    if split.Some? {
      var afterEq := split.value.1;
      if afterEq == "" {
        if index + 1 >= |argv| {
          error := Some(FlagSyntax(name));
        } else {
          last := index + 1;
          value := Some(argv[last]);
        }
      } else {
        value := Some(afterEq);
      }
    } else if index + 1 < |argv| && argv[index + 1] == "=" {
      last := index + 1;
      if index + 2 >= |argv| {
        error := Some(FlagSyntax(name));
      } else {
        last := index + 2;
        value := Some(argv[last]);
      }
    } else if index + 1 < |argv| && "=" <= argv[index + 1] {
      last := index + 1;
      value := Some(argv[last][1..]);
    } else if name in valueFlags {
      var nextIsFlag := index + 1 < |argv| && PrefixOf(prefixes, argv[index + 1]).Some?;
      if index + 1 >= |argv| || nextIsFlag {
        error := Some(MissingValue(name));
      } else {
        last := index + 1;
        value := Some(argv[last]);
      }
    }
  }

  /** `CLIInfo::new` after the loop: the errors, or the executable and the rest. */
  datatype CliResult = Ok(flags: map<string, Option<string>>, executable: string, arguments: seq<string>)
                     | Errors(errors: seq<CliError>)
                     | Panics

  function Conclude(outcome: Outcome): CliResult {
    if outcome.Panicked? then Panics
    else if outcome.parsed.errors != [] then Errors(outcome.parsed.errors)
    else if outcome.parsed.arguments == [] then Panics
    else Ok(outcome.parsed.flags, outcome.parsed.arguments[0], outcome.parsed.arguments[1..])
  }

  // ----- Every token counts once -----

  function RolesOf(r: Round): seq<Role> {
    if r.FlagRound? then r.roles else [Positional]
  }

  /** What each token is taken for, as far as the loop gets. */
  function Roles(prefixes: seq<string>, valueFlags: seq<string>, tokens: seq<string>): seq<Role>
    decreases |tokens|
  {
    if tokens == [] then []
    else
      var r := RoundOf(prefixes, valueFlags, tokens);
      if r.Panic? then []
      else RolesOf(r) + Roles(prefixes, valueFlags, tokens[Consumed(r)..])
  }

  /** The tokens with a given role, in order. */
  function Select(tokens: seq<string>, roles: seq<Role>, role: Role): seq<string>
    requires |tokens| == |roles|
  {
    if tokens == [] then []
    else (if roles[0] == role then [tokens[0]] else []) + Select(tokens[1..], roles[1..], role)
  }

  lemma {:induction false} SelectConcat(a: seq<string>, b: seq<string>, x: seq<Role>, y: seq<Role>, role: Role)
    requires |a| == |x| && |b| == |y|
    ensures Select(a + b, x + y, role) == Select(a, x, role) + Select(b, y, role)
  {
    if a == [] {
      assert a + b == b && x + y == y;
    } else {
      assert (a + b)[1..] == a[1..] + b && (x + y)[1..] == x[1..] + y;
      SelectConcat(a[1..], b, x[1..], y, role);
    }
  }

  lemma {:induction false} SelectNone(tokens: seq<string>, roles: seq<Role>, role: Role)
    requires |tokens| == |roles| && role !in roles
    ensures Select(tokens, roles, role) == []
  {
    if tokens != [] {
      assert roles[0] in roles;
      assert forall x | x in roles[1..] :: x in roles;
      SelectNone(tokens[1..], roles[1..], role);
    }
  }

  lemma RoundRoles(prefixes: seq<string>, valueFlags: seq<string>, tokens: seq<string>)
    requires tokens != []
    ensures var r := RoundOf(prefixes, valueFlags, tokens);
            r.FlagRound? ==> r.roles[0] == Flag && Positional !in r.roles && Flag !in r.roles[1..]
  {
    hide DropBytes;
    hide PrefixOf;
    hide SplitOnce;
  }

  /** The loop accounts for every token exactly once, and the arguments are the
      positional tokens in order. */
  lemma {:induction false} EveryTokenOnce(prefixes: seq<string>, valueFlags: seq<string>, tokens: seq<string>,
                                          st: Parsed)
    requires Run(prefixes, valueFlags, tokens, st).Finished?
    ensures var roles := Roles(prefixes, valueFlags, tokens);
            && |roles| == |tokens|
            && Run(prefixes, valueFlags, tokens, st).parsed.arguments
               == st.arguments + Select(tokens, roles, Positional)
    decreases |tokens|
  {
    hide RoundOf;
    hide RolesOf;
    if tokens == [] {
    } else {
      hide Select;
      var r := RoundOf(prefixes, valueFlags, tokens);
      var n := Consumed(r);
      EveryTokenOnce(prefixes, valueFlags, tokens[n..], Record(st, tokens[0], r));
      RoundSelects(prefixes, valueFlags, tokens, Roles(prefixes, valueFlags, tokens[n..]));
    }
  }

  /** One round adds its own token to the arguments, or none. */
  lemma RoundSelects(prefixes: seq<string>, valueFlags: seq<string>, tokens: seq<string>, rest: seq<Role>)
    requires tokens != [] && !RoundOf(prefixes, valueFlags, tokens).Panic?
    requires var r := RoundOf(prefixes, valueFlags, tokens); |rest| == |tokens| - Consumed(r)
    ensures var r := RoundOf(prefixes, valueFlags, tokens);
            && |RolesOf(r) + rest| == |tokens|
            && Select(tokens, RolesOf(r) + rest, Positional)
               == (if r.Argument? then [tokens[0]] else []) + Select(tokens[Consumed(r)..], rest, Positional)
  {
    hide RoundOf;
    var r := RoundOf(prefixes, valueFlags, tokens);
    var n := Consumed(r);
    RoundRoles(prefixes, valueFlags, tokens);
    assert tokens == tokens[..n] + tokens[n..];
    SelectConcat(tokens[..n], tokens[n..], RolesOf(r), rest, Positional);
    if r.FlagRound? {
      SelectNone(tokens[..n], r.roles, Positional);
    } else {
      assert Select(tokens[..1], [Positional], Positional) == [tokens[0]] + [];
    }
  }

  /** The name a flag token records. */
  function NameOf(prefixes: seq<string>, token: string): string {
    var prefix := PrefixOf(prefixes, token);
    var flag := if prefix == None then None else DropBytes(token, |Utf8.Encode(prefix.value)| + 1);
    if flag == None then ""
    else
      var split := SplitOnce(flag.value);
      if split == None then flag.value else split.value.0
  }

  function NamesOf(prefixes: seq<string>, tokens: seq<string>): set<string> {
    set t | t in tokens :: NameOf(prefixes, t)
  }

  /** One round adds its own token to the flag tokens, or none. */
  lemma RoundFlags(prefixes: seq<string>, valueFlags: seq<string>, tokens: seq<string>, rest: seq<Role>)
    requires tokens != [] && !RoundOf(prefixes, valueFlags, tokens).Panic?
    requires var r := RoundOf(prefixes, valueFlags, tokens); |rest| == |tokens| - Consumed(r)
    ensures var r := RoundOf(prefixes, valueFlags, tokens);
            && |RolesOf(r) + rest| == |tokens|
            && Select(tokens, RolesOf(r) + rest, Flag)
               == (if r.FlagRound? then [tokens[0]] else []) + Select(tokens[Consumed(r)..], rest, Flag)
  {
    hide RoundOf;
    var r := RoundOf(prefixes, valueFlags, tokens);
    var n := Consumed(r);
    RoundRoles(prefixes, valueFlags, tokens);
    assert tokens == tokens[..n] + tokens[n..];
    SelectConcat(tokens[..n], tokens[n..], RolesOf(r), rest, Flag);
    if r.FlagRound? {
      SelectNone(tokens[..n][1..], r.roles[1..], Flag);
      assert Select(tokens[..n], r.roles, Flag) == [tokens[0]] + [];
    } else {
      SelectNone(tokens[..1], [Positional], Flag);
    }
  }

  lemma NamesOfMore(prefixes: seq<string>, token: string, more: seq<string>)
    ensures NamesOf(prefixes, [token] + more) == {NameOf(prefixes, token)} + NamesOf(prefixes, more)
  {
    hide NameOf;
    assert forall t :: t in [token] + more <==> t == token || t in more;
  }

  /** The recorded flags are exactly the names of the tokens taken for flags. */
  lemma {:induction false} FlagsAreFlagTokens(prefixes: seq<string>, valueFlags: seq<string>, tokens: seq<string>,
                                              st: Parsed)
    requires Run(prefixes, valueFlags, tokens, st).Finished?
    ensures var roles := Roles(prefixes, valueFlags, tokens);
            && |roles| == |tokens|
            && Run(prefixes, valueFlags, tokens, st).parsed.flags.Keys
               == st.flags.Keys + NamesOf(prefixes, Select(tokens, roles, Flag))
    decreases |tokens|
  {
    hide RoundOf;
    hide NameOf;
    hide RolesOf;
    if tokens == [] {
    } else {
      hide Select;
      var r := RoundOf(prefixes, valueFlags, tokens);
      var n := Consumed(r);
      RoundName(prefixes, valueFlags, tokens);
      FlagsAreFlagTokens(prefixes, valueFlags, tokens[n..], Record(st, tokens[0], r));
      var rest := Roles(prefixes, valueFlags, tokens[n..]);
      RoundFlags(prefixes, valueFlags, tokens, rest);
      var more := Select(tokens[n..], rest, Flag);
      NamesOfMore(prefixes, tokens[0], more);
      assert [] + more == more;
    }
  }

  lemma RoundName(prefixes: seq<string>, valueFlags: seq<string>, tokens: seq<string>)
    requires tokens != []
    ensures var r := RoundOf(prefixes, valueFlags, tokens); r.FlagRound? ==> r.name == NameOf(prefixes, tokens[0])
  {
    hide DropBytes;
    hide PrefixOf;
    hide SplitOnce;
  }
}
