/** The spellings of a flag, and the two readers of argv against each other, for
    the prefixes `-` and `--` that the command line uses. */
module ArgvTheorems {
  import opened Basics
  import opened Argv
  import Utf8

  predicate IsDashed(token: string) { "-" <= token }

  /** The name a dashed token records: two bytes are dropped, so a one-letter
      `-f` records the empty name. */
  lemma DashedToken(token: string)
    ensures PrefixOf(FLAG_PREFIXES, token) == if IsDashed(token) then Some("-") else None
    ensures |Utf8.Encode("-")| == 1
    ensures IsDashed(token) ==>
              DropBytes(token, 2) == if |token| == 1 || token[1] >= '\U{0080}' then None else Some(token[2..])
  {
    assert FLAG_PREFIXES[1..] == ["--"] && ["--"][1..] == [];
    assert "--" <= token ==> token[0] == '-';
    assert PrefixOf(["--"], token) == if "--" <= token then Some("--") else None;
    assert Utf8.Encode("-") == Utf8.EncodeChar('-') + Utf8.Encode("");
    if IsDashed(token) {
      assert token[0] == '-';
      assert DropBytes(token, 2) == DropBytes(token[1..], 1);
      if |token| > 1 {
        assert token[1..][1..] == token[2..];
        assert DropBytes(token[1..][1..], 0) == Some(token[2..]);
        assert |Utf8.EncodeChar(token[1])| == 1 <==> token[1] < '\U{0080}';
      }
    }
  }

  /** A short flag of one ASCII letter is read as a flag without a name. */
  lemma ShortFlag(valueFlags: seq<string>, letter: char, next: seq<string>)
    requires letter < '\U{0080}'
    ensures RoundOf(FLAG_PREFIXES, valueFlags, ["-" + [letter]] + next)
            == FlagRoundOf(FLAG_PREFIXES, valueFlags, "", next)
  {
    hide DropBytes;
    hide PrefixOf;
    hide FlagRoundOf;
    var token := "-" + [letter];
    DashedToken(token);
    assert token[2..] == "" && ([token] + next)[1..] == next;
  }

  /** A lone dash, or a dash before a character that is not ASCII. */
  predicate BadDash(token: string) {
    IsDashed(token) && (|token| == 1 || token[1] >= '\U{0080}')
  }

  /** A round panics exactly on such a token. */
  lemma RoundPanicsIff(valueFlags: seq<string>, tokens: seq<string>)
    requires tokens != []
    ensures RoundOf(FLAG_PREFIXES, valueFlags, tokens).Panic? <==> BadDash(tokens[0])
  {
    hide DropBytes;
    hide PrefixOf;
    hide FlagRoundOf;
    DashedToken(tokens[0]);
    if IsDashed(tokens[0]) && |tokens[0]| > 1 {
      RoundEnds(FLAG_PREFIXES, valueFlags, tokens[0][2..], tokens[1..]);
    }
  }

  /** The loop gives every token a role and finishes, or it stops with a panic at
      the first token it does not take for a value and cannot strip. */
  lemma {:induction false} PanicIff(valueFlags: seq<string>, tokens: seq<string>, st: Parsed)
    ensures var done := |Roles(FLAG_PREFIXES, valueFlags, tokens)|;
            && done <= |tokens|
            && (Run(FLAG_PREFIXES, valueFlags, tokens, st).Panicked? <==> done < |tokens| && BadDash(tokens[done]))
            && (Run(FLAG_PREFIXES, valueFlags, tokens, st).Finished? <==> done == |tokens|)
    decreases |tokens|
  {
    hide RoundOf;
    hide BadDash;
    hide Record;
    if tokens != [] {
      RoundPanicsIff(valueFlags, tokens);
      var r := RoundOf(FLAG_PREFIXES, valueFlags, tokens);
      if !r.Panic? {
        var n := Consumed(r);
        var rest := Roles(FLAG_PREFIXES, valueFlags, tokens[n..]);
        PanicIff(valueFlags, tokens[n..], Record(st, tokens[0], r));
        assert |Roles(FLAG_PREFIXES, valueFlags, tokens)| == n + |rest|;
        assert |rest| < |tokens[n..]| ==> tokens[n..][|rest|] == tokens[n + |rest|];
      }
    }
  }

  /** An argv without such a token always finishes. */
  lemma FinishesWithout(valueFlags: seq<string>, tokens: seq<string>, st: Parsed)
    requires forall token | token in tokens :: !BadDash(token)
    ensures Run(FLAG_PREFIXES, valueFlags, tokens, st).Finished?
  {
    hide Run;
    hide Roles;
    PanicIff(valueFlags, tokens, st);
  }

  /** A command line that panics. */
  lemma LoneDash(valueFlags: seq<string>)
    ensures Run(FLAG_PREFIXES, valueFlags, ["peko", "-"], EMPTY) == Panicked
  {
    hide RoundOf;
    DashedToken("peko");
    PlainRound(valueFlags, ["peko", "-"]);
    assert ["peko", "-"][1..] == ["-"];
    RoundPanicsIff(valueFlags, ["-"]);
  }

  lemma RoundOfLong(valueFlags: seq<string>, flag: string, next: seq<string>)
    ensures RoundOf(FLAG_PREFIXES, valueFlags, ["--" + flag] + next)
            == FlagRoundOf(FLAG_PREFIXES, valueFlags, flag, next)
  {
    hide DropBytes;
    hide PrefixOf;
    hide FlagRoundOf;
    var token := "--" + flag;
    DashedToken(token);
    assert token[2..] == flag;
    assert ([token] + next)[1..] == next;
  }

  lemma {:induction false} SplitAtEquals(f: string, v: string)
    requires '=' !in f
    ensures SplitOnce(f + "=" + v) == Some((f, v)) && SplitOnce(f) == None
  {
    if f == "" {
      assert f + "=" + v == "=" + v;
    } else {
      assert (f + "=" + v)[1..] == f[1..] + "=" + v;
      SplitAtEquals(f[1..], v);
      assert [f[0]] + f[1..] == f;
    }
  }

  /** A flag with its value, in any spelling, from any state of the loop. */
  function AfterFlag(valueFlags: seq<string>, f: string, v: string, rest: seq<string>, st: Parsed): Outcome {
    Run(FLAG_PREFIXES, valueFlags, rest, st.(flags := st.flags[f := Some(v)]))
  }

  lemma FlagRoundRuns(valueFlags: seq<string>, flag: string, next: seq<string>, f: string, v: string, n: nat,
                      st: Parsed)
    requires n <= |next|
    requires var r := FlagRoundOf(FLAG_PREFIXES, valueFlags, flag, next);
             r.FlagRound? && r.name == f && r.value == Some(v) && r.error == None && |r.roles| == n + 1
    ensures Run(FLAG_PREFIXES, valueFlags, ["--" + flag] + next, st) == AfterFlag(valueFlags, f, v, next[n..], st)
  {
    hide FlagRoundOf;
    hide RoundOf;
    RoundOfLong(valueFlags, flag, next);
    assert (["--" + flag] + next)[n + 1..] == next[n..];
    assert st.errors + [] == st.errors;
  }

  /** The five spellings of a flag and its value reach the same state, whatever
      came before and whatever follows. */
  lemma SpellingsAgree(valueFlags: seq<string>, f: string, v: string, rest: seq<string>, st: Parsed)
    requires '=' !in f
    ensures var same := AfterFlag(valueFlags, f, v, rest, st);
            && Run(FLAG_PREFIXES, valueFlags, ["--" + (f + "="), v] + rest, st) == same
            && Run(FLAG_PREFIXES, valueFlags, ["--" + f, "=", v] + rest, st) == same
            && (v != "" ==> Run(FLAG_PREFIXES, valueFlags, ["--" + (f + "=" + v)] + rest, st) == same)
            && (v != "" ==> Run(FLAG_PREFIXES, valueFlags, ["--" + f, "=" + v] + rest, st) == same)
            && (f in valueFlags && !IsDashed(v) && !("=" <= v) ==>
                Run(FLAG_PREFIXES, valueFlags, ["--" + f, v] + rest, st) == same)
  {
    hide AfterFlag;
    hide Run;
    hide SplitOnce;
    SplitAtEquals(f, "");
    SplitAtEquals(f, v);
    assert f + "=" + "" == f + "=";
    SpaceAfterEquals(valueFlags, f, v, rest, st);
    EqualsBetween(valueFlags, f, v, rest, st);
    if v != "" {
      EqualsAttached(valueFlags, f, v, rest, st);
      EqualsBefore(valueFlags, f, v, rest, st);
    }
    if f in valueFlags && !IsDashed(v) && !("=" <= v) {
      SpaceOnly(valueFlags, f, v, rest, st);
    }
  }

  lemma SpaceAfterEquals(valueFlags: seq<string>, f: string, v: string, rest: seq<string>, st: Parsed)
    requires SplitOnce(f + "=") == Some((f, ""))
    ensures Run(FLAG_PREFIXES, valueFlags, ["--" + (f + "="), v] + rest, st) == AfterFlag(valueFlags, f, v, rest, st)
  {
    hide Run;
    hide SplitOnce;
    var next := [v] + rest;
    assert ["--" + (f + "="), v] + rest == ["--" + (f + "=")] + next && next[1..] == rest;
    FlagRoundRuns(valueFlags, f + "=", next, f, v, 1, st);
  }

  lemma EqualsBetween(valueFlags: seq<string>, f: string, v: string, rest: seq<string>, st: Parsed)
    requires SplitOnce(f) == None
    ensures Run(FLAG_PREFIXES, valueFlags, ["--" + f, "=", v] + rest, st) == AfterFlag(valueFlags, f, v, rest, st)
  {
    hide Run;
    hide SplitOnce;
    var next := ["=", v] + rest;
    assert ["--" + f, "=", v] + rest == ["--" + f] + next && next[2..] == rest;
    FlagRoundRuns(valueFlags, f, next, f, v, 2, st);
  }

  lemma EqualsAttached(valueFlags: seq<string>, f: string, v: string, rest: seq<string>, st: Parsed)
    requires SplitOnce(f + "=" + v) == Some((f, v)) && v != ""
    ensures Run(FLAG_PREFIXES, valueFlags, ["--" + (f + "=" + v)] + rest, st) == AfterFlag(valueFlags, f, v, rest, st)
  {
    hide Run;
    hide SplitOnce;
    assert rest[0..] == rest;
    FlagRoundRuns(valueFlags, f + "=" + v, rest, f, v, 0, st);
  }

  lemma EqualsBefore(valueFlags: seq<string>, f: string, v: string, rest: seq<string>, st: Parsed)
    requires SplitOnce(f) == None && v != ""
    ensures Run(FLAG_PREFIXES, valueFlags, ["--" + f, "=" + v] + rest, st) == AfterFlag(valueFlags, f, v, rest, st)
  {
    hide Run;
    hide SplitOnce;
    var next := ["=" + v] + rest;
    assert ["--" + f, "=" + v] + rest == ["--" + f] + next && next[1..] == rest;
    assert ("=" + v)[1..] == v && |"=" + v| > 1;
    FlagRoundRuns(valueFlags, f, next, f, v, 1, st);
  }

  lemma SpaceOnly(valueFlags: seq<string>, f: string, v: string, rest: seq<string>, st: Parsed)
    requires SplitOnce(f) == None && f in valueFlags && !IsDashed(v) && !("=" <= v)
    ensures Run(FLAG_PREFIXES, valueFlags, ["--" + f, v] + rest, st) == AfterFlag(valueFlags, f, v, rest, st)
  {
    hide Run;
    hide SplitOnce;
    hide PrefixOf;
    var next := [v] + rest;
    assert ["--" + f, v] + rest == ["--" + f] + next && next[1..] == rest;
    DashedToken(v);
    assert v != "=";
    FlagRoundRuns(valueFlags, f, next, f, v, 1, st);
  }

  // ----- The subcommand -----

  /** The first token from `i` on without a leading dash. */
  function FirstPlain(argv: seq<string>, i: nat): (n: nat)
    requires i <= |argv|
    ensures i <= n <= |argv|
    ensures forall j | i <= j < n :: IsDashed(argv[j])
    ensures n < |argv| ==> !IsDashed(argv[n])
    decreases |argv| - i
  {
    if i == |argv| || !IsDashed(argv[i]) then i else FirstPlain(argv, i + 1)
  }

  /** `value_flags_for_argv`: the value flags of the command that the first plain
      token after the executable names. */
  function ValueFlagsForArgv(argv: seq<string>, lookup: string -> Option<seq<string>>): seq<string> {
    var n := if argv == [] then 0 else FirstPlain(argv, 1);
    if n >= |argv| then []
    else
      var command := lookup(argv[n]);
      if command == None then [] else command.value
  }

  /** Whether a dashed token takes the token after it, as its value or as the
      `=` before its value. */
  predicate Takes(valueFlags: seq<string>, token: string, next: string) {
    |token| >= 2
    && var split := SplitOnce(token[2..]);
       if split.Some? then split.value.1 == "" else "=" <= next || (token[2..] in valueFlags && !IsDashed(next))
  }

  /** After `n` dashed tokens the loop looks at the next one on its own: no flag
      among them takes it. */
  predicate Reaches(valueFlags: seq<string>, tokens: seq<string>, n: nat)
    requires n < |tokens|
    decreases n
  {
    if n == 0 then true
    else if Takes(valueFlags, tokens[0], tokens[1]) then n >= 2 && Reaches(valueFlags, tokens[2..], n - 2)
    else Reaches(valueFlags, tokens[1..], n - 1)
  }

  lemma DashedRound(valueFlags: seq<string>, tokens: seq<string>)
    requires |tokens| >= 2 && IsDashed(tokens[0]) && !RoundOf(FLAG_PREFIXES, valueFlags, tokens).Panic?
    ensures var r := RoundOf(FLAG_PREFIXES, valueFlags, tokens);
            && r.FlagRound?
            && (|r.roles| == 1 <==> !Takes(valueFlags, tokens[0], tokens[1]))
            && (IsDashed(tokens[1]) ==> |r.roles| <= 2)
  {
    hide DropBytes;
    hide PrefixOf;
    hide SplitOnce;
    DashedToken(tokens[0]);
    DashedToken(tokens[1]);
  }

  /** The first plain token is an argument exactly when the loop reaches it. */
  lemma {:induction false} RolesFrom(valueFlags: seq<string>, tokens: seq<string>, n: nat, st: Parsed)
    requires n < |tokens| && !IsDashed(tokens[n])
    requires forall j | 0 <= j < n :: IsDashed(tokens[j])
    requires Run(FLAG_PREFIXES, valueFlags, tokens, st).Finished?
    ensures var roles := Roles(FLAG_PREFIXES, valueFlags, tokens);
            && |roles| == |tokens|
            && (forall j | 0 <= j < n :: roles[j] != Positional)
            && (roles[n] == Positional <==> Reaches(valueFlags, tokens, n))
    decreases n
  {
    hide RoundOf;
    hide Takes;
    hide IsDashed;
    hide PrefixOf;
    EveryTokenOnce(FLAG_PREFIXES, valueFlags, tokens, st);
    var r := RoundOf(FLAG_PREFIXES, valueFlags, tokens);
    if n == 0 {
      DashedToken(tokens[0]);
      PlainRound(valueFlags, tokens);
    } else {
      DashedRound(valueFlags, tokens);
      RoundRoles(FLAG_PREFIXES, valueFlags, tokens);
      var k := |r.roles|;
      if k <= n {
        RolesFrom(valueFlags, tokens[k..], n - k, Record(st, tokens[0], r));
      }
    }
  }

  /** Unless a flag's `=` is the last of its token, only the flag right before the
      first plain token can take it. */
  lemma {:induction false} OnlyTheLastTakes(valueFlags: seq<string>, tokens: seq<string>, n: nat)
    requires n < |tokens| && forall j | 0 <= j < n :: IsDashed(tokens[j])
    requires forall j | 0 <= j < n && |tokens[j]| >= 2 ::
               SplitOnce(tokens[j][2..]) == None || SplitOnce(tokens[j][2..]).value.1 != ""
    ensures Reaches(valueFlags, tokens, n) <==> n == 0 || !Takes(valueFlags, tokens[n - 1], tokens[n])
    decreases n
  {
    hide SplitOnce;
    if n == 1 {
      assert Reaches(valueFlags, tokens[1..], 0);
    } else if n > 1 {
      assert tokens[1][0] == '-' && !Takes(valueFlags, tokens[0], tokens[1]);
      assert forall j | 0 <= j < n - 1 :: tokens[1..][j] == tokens[j + 1];
      OnlyTheLastTakes(valueFlags, tokens[1..], n - 1);
    }
  }

  lemma PlainRound(valueFlags: seq<string>, tokens: seq<string>)
    requires tokens != [] && PrefixOf(FLAG_PREFIXES, tokens[0]) == None
    ensures RoundOf(FLAG_PREFIXES, valueFlags, tokens).Argument?
  {
  }

  lemma {:induction false} SelectSkips(tokens: seq<string>, roles: seq<Role>, n: nat)
    requires n < |tokens| == |roles| && roles[n] == Positional
    requires forall j | 0 <= j < n :: roles[j] != Positional
    ensures var s := Select(tokens, roles, Positional); s != [] && s[0] == tokens[n]
    decreases n
  {
    if n > 0 {
      SelectSkips(tokens[1..], roles[1..], n - 1);
    }
  }

  /** The token that the second reader looks up is the parser's subcommand exactly
      when the loop reaches it; then the value flags used are that command's. */
  lemma ReadersAgree(argv: seq<string>, lookup: string -> Option<seq<string>>, n: nat)
    requires argv != [] && !IsDashed(argv[0]) && n == FirstPlain(argv, 1) < |argv|
    requires Run(FLAG_PREFIXES, ValueFlagsForArgv(argv, lookup), argv, EMPTY).Finished?
    ensures var vf := ValueFlagsForArgv(argv, lookup);
            var roles, result := Roles(FLAG_PREFIXES, vf, argv), Conclude(Run(FLAG_PREFIXES, vf, argv, EMPTY));
            && |roles| == |argv|
            && (roles[n] == Positional <==> Reaches(vf, argv[1..], n - 1))
            && (roles[n] == Positional && result.Ok? ==>
                result.executable == argv[0] && result.arguments != [] && result.arguments[0] == argv[n]
                && vf == (if lookup(argv[n]) == None then [] else lookup(argv[n]).value))
  {
    var vf := ValueFlagsForArgv(argv, lookup);
    hide RoundOf;
    hide Reaches;
    DashedToken(argv[0]);
    PlainRound(vf, argv);
    var rest := argv[1..];
    var st := Record(EMPTY, argv[0], Argument);
    assert Run(FLAG_PREFIXES, vf, argv, EMPTY) == Run(FLAG_PREFIXES, vf, rest, st);
    assert forall j | 0 <= j < n - 1 :: rest[j] == argv[j + 1];
    RolesFrom(vf, rest, n - 1, st);
    EveryTokenOnce(FLAG_PREFIXES, vf, rest, st);
    var roles := Roles(FLAG_PREFIXES, vf, rest);
    assert Roles(FLAG_PREFIXES, vf, argv) == [Positional] + roles;
    if roles[n - 1] == Positional {
      SelectSkips(rest, roles, n - 1);
    }
  }
}
