/** When the argv loop records an error, and when a flag is recorded bare. */
module ArgvErrors {
  import opened Basics
  import opened Argv
  import opened ArgvTheorems

  /** The error of a token taken for a flag, before the tokens `next`: an `=` that
      the command line ends with, or a value flag that it ends with or that stands
      before another dashed token. */
  function ErrorOf(valueFlags: seq<string>, token: string, next: seq<string>): Option<CliError> {
    if |token| < 2 then None
    else
      var flag := token[2..];
      if '=' in flag then
        if '=' !in flag[..|flag| - 1] && next == [] then Some(FlagSyntax(flag[..|flag| - 1])) else None
      else if next == ["="] then Some(FlagSyntax(flag))
      else if flag in valueFlags && (next == [] || (next[0] != "" && next[0][0] == '-')) then Some(MissingValue(flag))
      else None
  }

  /** The errors of the tokens taken for flags, in order. */
  function ErrorsOf(valueFlags: seq<string>, tokens: seq<string>, roles: seq<Role>): seq<CliError>
    requires |tokens| == |roles|
  {
    if tokens == [] then []
    else
      var error := if roles[0] == Flag then ErrorOf(valueFlags, tokens[0], tokens[1..]) else None;
      (if error == None then [] else [error.value]) + ErrorsOf(valueFlags, tokens[1..], roles[1..])
  }

  lemma {:induction false} SplitFound(flag: string)
    ensures SplitOnce(flag) == None <==> '=' !in flag
    ensures SplitOnce(flag).Some? ==>
              var (name, after) := SplitOnce(flag).value;
              flag == name + "=" + after && '=' !in name
  {
    if flag != "" && flag[0] != '=' {
      SplitFound(flag[1..]);
      assert flag == [flag[0]] + flag[1..];
    }
  }

  lemma SplitAtEnd(flag: string)
    requires '=' in flag
    ensures SplitOnce(flag).Some?
    ensures SplitOnce(flag).value.1 == "" <==> '=' !in flag[..|flag| - 1]
    ensures SplitOnce(flag).value.1 == "" ==> SplitOnce(flag).value.0 == flag[..|flag| - 1]
  {
    hide SplitOnce;
    SplitFound(flag);
    var (name, after) := SplitOnce(flag).value;
    if after == "" {
      assert flag[..|flag| - 1] == name;
    } else {
      assert flag[..|flag| - 1][|name|] == '=';
    }
  }

  lemma RoundError(valueFlags: seq<string>, tokens: seq<string>)
    requires tokens != [] && RoundOf(FLAG_PREFIXES, valueFlags, tokens).FlagRound?
    ensures RoundOf(FLAG_PREFIXES, valueFlags, tokens).error == ErrorOf(valueFlags, tokens[0], tokens[1..])
  {
    hide DropBytes;
    hide PrefixOf;
    hide SplitOnce;
    var next := tokens[1..];
    DashedToken(tokens[0]);
    var flag := tokens[0][2..];
    SplitFound(flag);
    if '=' in flag {
      SplitAtEnd(flag);
    }
    if next != [] {
      DashedToken(next[0]);
      assert next == ["="] <==> |next| == 1 && next[0] == "=";
    }
  }

  lemma {:induction false} PastOthers(valueFlags: seq<string>, tokens: seq<string>, roles: seq<Role>, n: nat)
    requires n <= |tokens| == |roles| && forall j | 0 <= j < n :: roles[j] != Flag
    ensures ErrorsOf(valueFlags, tokens, roles) == ErrorsOf(valueFlags, tokens[n..], roles[n..])
  {
    hide ErrorOf;
    if n == 0 {
      assert tokens[0..] == tokens && roles[0..] == roles;
    } else {
      PastOthers(valueFlags, tokens[1..], roles[1..], n - 1);
      assert tokens[1..][n - 1..] == tokens[n..] && roles[1..][n - 1..] == roles[n..];
    }
  }

  lemma RoundErrors(valueFlags: seq<string>, tokens: seq<string>, rest: seq<Role>)
    requires tokens != [] && !RoundOf(FLAG_PREFIXES, valueFlags, tokens).Panic?
    requires |rest| == |tokens| - Consumed(RoundOf(FLAG_PREFIXES, valueFlags, tokens))
    ensures var r := RoundOf(FLAG_PREFIXES, valueFlags, tokens);
            && |RolesOf(r) + rest| == |tokens|
            && ErrorsOf(valueFlags, tokens, RolesOf(r) + rest)
               == (if r.FlagRound? && r.error.Some? then [r.error.value] else [])
                  + ErrorsOf(valueFlags, tokens[Consumed(r)..], rest)
  {
    hide RoundOf;
    hide ErrorOf;
    var r := RoundOf(FLAG_PREFIXES, valueFlags, tokens);
    var n := Consumed(r);
    var roles := RolesOf(r) + rest;
    RoundRoles(FLAG_PREFIXES, valueFlags, tokens);
    if r.FlagRound? {
      RoundError(valueFlags, tokens);
      assert forall j | 0 <= j < n - 1 :: roles[1..][j] == r.roles[1..][j];
      PastOthers(valueFlags, tokens[1..], roles[1..], n - 1);
      assert tokens[1..][n - 1..] == tokens[n..] && roles[1..][n - 1..] == rest;
    } else {
      assert roles[1..] == rest;
    }
  }

  /** A run that finishes has recorded exactly the errors of the tokens it took for
      flags, in their order. */
  lemma {:induction false} ErrorsAreOfFlags(valueFlags: seq<string>, tokens: seq<string>, st: Parsed)
    requires Run(FLAG_PREFIXES, valueFlags, tokens, st).Finished?
    ensures var roles := Roles(FLAG_PREFIXES, valueFlags, tokens);
            && |roles| == |tokens|
            && Run(FLAG_PREFIXES, valueFlags, tokens, st).parsed.errors
               == st.errors + ErrorsOf(valueFlags, tokens, roles)
    decreases |tokens|
  {
    hide RoundOf;
    hide RolesOf;
    hide ErrorsOf;
    hide Record;
    if tokens == [] {
      NoErrors(valueFlags);
    } else {
      var r := RoundOf(FLAG_PREFIXES, valueFlags, tokens);
      var n := Consumed(r);
      ErrorsAreOfFlags(valueFlags, tokens[n..], Record(st, tokens[0], r));
      var rest := Roles(FLAG_PREFIXES, valueFlags, tokens[n..]);
      RoundErrors(valueFlags, tokens, rest);
      Recorded(st, tokens[0], r);
      var error := if r.FlagRound? && r.error.Some? then [r.error.value] else [];
      Associative(st.errors, error, ErrorsOf(valueFlags, tokens[n..], rest));
    }
  }

  lemma NoErrors(valueFlags: seq<string>)
    ensures ErrorsOf(valueFlags, [], []) == []
  {
  }

  lemma Recorded(st: Parsed, token: string, r: Round)
    requires !r.Panic?
    ensures Record(st, token, r).errors == st.errors + if r.FlagRound? && r.error.Some? then [r.error.value] else []
  {
  }

  lemma {:induction false} SomeError(valueFlags: seq<string>, tokens: seq<string>, roles: seq<Role>)
    requires |tokens| == |roles|
    ensures ErrorsOf(valueFlags, tokens, roles) != [] <==>
            exists j :: 0 <= j < |tokens| && roles[j] == Flag && ErrorOf(valueFlags, tokens[j], tokens[j + 1..]).Some?
  {
    hide ErrorOf;
    if tokens != [] {
      SomeError(valueFlags, tokens[1..], roles[1..]);
      forall j | 0 <= j < |tokens| - 1
        ensures tokens[1..][j] == tokens[j + 1] && tokens[1..][j + 1..] == tokens[j + 1 + 1..]
        ensures roles[1..][j] == roles[j + 1]
      {
      }
      if ErrorsOf(valueFlags, tokens, roles) != [] && ErrorsOf(valueFlags, tokens[1..], roles[1..]) != [] {
        var j :| 0 <= j < |tokens| - 1 && roles[1..][j] == Flag
                 && ErrorOf(valueFlags, tokens[1..][j], tokens[1..][j + 1..]).Some?;
        assert roles[j + 1] == Flag && ErrorOf(valueFlags, tokens[j + 1], tokens[j + 1 + 1..]).Some?;
      }
      if j :| 0 <= j < |tokens| && roles[j] == Flag && ErrorOf(valueFlags, tokens[j], tokens[j + 1..]).Some? {
        if j > 0 {
          assert roles[1..][j - 1] == Flag;
          assert ErrorOf(valueFlags, tokens[1..][j - 1], tokens[1..][j - 1 + 1..]).Some?;
        }
      }
    }
  }

  /** A command line is rejected exactly for a token taken for a flag that misses
      its value. */
  lemma RejectedIff(valueFlags: seq<string>, tokens: seq<string>)
    requires Run(FLAG_PREFIXES, valueFlags, tokens, EMPTY).Finished?
    ensures var roles := Roles(FLAG_PREFIXES, valueFlags, tokens);
            && |roles| == |tokens|
            && (Conclude(Run(FLAG_PREFIXES, valueFlags, tokens, EMPTY)).Errors? <==>
                exists j :: 0 <= j < |tokens| && roles[j] == Flag
                            && ErrorOf(valueFlags, tokens[j], tokens[j + 1..]).Some?)
  {
    hide Run;
    hide Roles;
    hide ErrorOf;
    hide ErrorsOf;
    ErrorsAreOfFlags(valueFlags, tokens, EMPTY);
    SomeError(valueFlags, tokens, Roles(FLAG_PREFIXES, valueFlags, tokens));
  }

  /** A flag without `=` that takes no value is recorded bare, and what follows it
      is read on its own. */
  lemma BareFlag(valueFlags: seq<string>, f: string, rest: seq<string>, st: Parsed)
    requires '=' !in f && f !in valueFlags
    requires rest != [] && rest[0] != "" ==> rest[0][0] != '='
    ensures Run(FLAG_PREFIXES, valueFlags, ["--" + f] + rest, st)
            == Run(FLAG_PREFIXES, valueFlags, rest, st.(flags := st.flags[f := None]))
  {
    hide RoundOf;
    hide SplitOnce;
    SplitFound(f);
    RoundOfLong(valueFlags, f, rest);
    assert (["--" + f] + rest)[1..] == rest;
    assert st.errors + [] == st.errors;
  }
}
