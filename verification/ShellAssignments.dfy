/** Which tokens are assignments, and what a command's environment holds after a list of them. */
module ShellAssignments {
  import opened Options
  import opened ShellGrammar
  import opened ShellSyntax

  // ---------------------------------------------------------------- one assignment

  /** The token reads `name=value`: letters, digits and underscores, then no white space; a final newline may
      follow. */
  predicate Assigns(token: string, name: string, value: string) {
    && name != "" && value != ""
    && (forall i :: 0 <= i < |name| ==>
          'a' <= name[i] <= 'z' || 'A' <= name[i] <= 'Z' || '0' <= name[i] <= '9' || name[i] == '_')
    && (forall i :: 0 <= i < |value| ==> value[i] !in {' ', '\t', '\n', '\r', '\U{0B}', '\U{0C}'})
    && (token == name + "=" + value || token == name + "=" + value + "\n")
  }

  lemma {:induction false} NameLengthIs(name: string, rest: string)
    requires (forall i :: 0 <= i < |name| ==> IsNameChar(name[i])) && (rest == "" || !IsNameChar(rest[0]))
    ensures NameLength(name + rest) == |name|
  {
    if name == "" {
      assert name + rest == rest;
    } else {
      assert (name + rest)[1..] == name[1..] + rest;
      NameLengthIs(name[1..], rest);
    }
  }

  lemma NameEndsAtSign(name: string, tail: string)
    requires IsName(name)
    ensures NameLength(name + "=" + tail) == |name|
    ensures (name + "=" + tail)[..|name|] == name && (name + "=" + tail)[|name| + 1..] == tail
    ensures (name + "=" + tail)[|name|] == '='
  {
    assert name + "=" + tail == name + ("=" + tail);
    NameLengthIs(name, "=" + tail);
  }

  lemma AssignmentMatches(token: string, name: string, value: string)
    requires Assigns(token, name, value)
    ensures EnvMatch(token) == Some((name, value))
  {
    if token == name + "=" + value {
      NameEndsAtSign(name, value);
    } else {
      var tail := value + "\n";
      assert token == name + "=" + tail;
      NameEndsAtSign(name, tail);
      assert tail[..|tail| - 1] == value && IsSpace(tail[|tail| - 1]);
    }
  }

  lemma MatchAssigns(token: string)
    requires EnvMatch(token).Some?
    ensures Assigns(token, EnvMatch(token).value.0, EnvMatch(token).value.1)
  {
    var n := NameLength(token);
    var v := token[n + 1..];
    assert token == token[..n] + "=" + v;
    if !IsWord(v) {
      assert v == v[..|v| - 1] + "\n";
    }
  }

  /** The pattern accepts exactly the assignments, and takes them apart. */
  lemma EnvMatchMeans(token: string, name: string, value: string)
    ensures EnvMatch(token) == Some((name, value)) <==> Assigns(token, name, value)
  {
    if Assigns(token, name, value) {
      AssignmentMatches(token, name, value);
    }
    if EnvMatch(token).Some? {
      MatchAssigns(token);
    }
  }

  // ---------------------------------------------------------------- the dictionary

  function Names(env: Env): (names: seq<string>)
    ensures |names| == |env| && forall i :: 0 <= i < |env| ==> names[i] == env[i].0
  {
    seq(|env|, i requires 0 <= i < |env| => env[i].0)
  }

  lemma {:induction false} SetVarPlaces(env: Env, name: string, value: string)
    requires DistinctNames(env)
    ensures var r := SetVar(env, name, value);
      && |r| == |env| + (if name in Names(env) then 0 else 1)
      && (forall i :: 0 <= i < |env| ==> r[i] == if env[i].0 == name then (name, value) else env[i])
      && (name !in Names(env) ==> r[|env|] == (name, value))
  {
    if env != [] && env[0].0 != name {
      SetVarPlaces(env[1..], name, value);
      assert name in Names(env) <==> name in Names(env[1..]) by {
        assert forall i :: 0 < i < |env| ==> env[i] == env[1..][i - 1];
      }
    } else if env != [] {
      assert Names(env)[0] == name;
    }
  }

  lemma {:induction false} SetVarNames(env: Env, name: string, value: string)
    requires DistinctNames(env)
    ensures DistinctNames(SetVar(env, name, value))
    ensures Names(SetVar(env, name, value)) == Names(env) + if name in Names(env) then [] else [name]
  {
    SetVarPlaces(env, name, value);
    var r := SetVar(env, name, value);
    forall i | 0 <= i < |env|
      ensures r[i].0 == Names(env)[i]
    {
    }
  }

  lemma {:induction false} SetVarValue(env: Env, name: string, value: string, k: string, w: string)
    requires DistinctNames(env)
    ensures (k, w) in SetVar(env, name, value) <==> if k == name then w == value else (k, w) in env
  {
    SetVarPlaces(env, name, value);
    var r := SetVar(env, name, value);
    if k == name && w == value {
      if name in Names(env) {
        var i :| 0 <= i < |env| && Names(env)[i] == name;
        assert r[i] == (k, w);
      } else {
        assert r[|env|] == (k, w);
      }
    } else if (k, w) in env && k != name {
      var i :| 0 <= i < |env| && env[i] == (k, w);
      assert r[i] == (k, w);
    }
  }

  /** Setting a variable is what it is for a dictionary: the name has the new value, every other name keeps its
      own, and a new name comes last. */
  lemma {:induction false} SetVarIsAssignment(env: Env, name: string, value: string)
    requires DistinctNames(env)
    ensures DistinctNames(SetVar(env, name, value))
    ensures Names(SetVar(env, name, value)) == Names(env) + if name in Names(env) then [] else [name]
    ensures forall k, w :: (k, w) in SetVar(env, name, value) <==> if k == name then w == value else (k, w) in env
  {
    SetVarNames(env, name, value);
    forall k, w
      ensures (k, w) in SetVar(env, name, value) <==> if k == name then w == value else (k, w) in env
    {
      SetVarValue(env, name, value, k, w);
    }
  }

  // ---------------------------------------------------------------- a list of assignments

  /** The i-th token sets the name, and none behind it does. */
  ghost predicate SetsLast(assignments: seq<string>, i: nat, name: string, value: string) {
    && i < |assignments| && Assigns(assignments[i], name, value)
    && forall j, w :: i < j < |assignments| ==> !Assigns(assignments[j], name, w)
  }

  ghost predicate HasValue(assignments: seq<string>, name: string, value: string) {
    exists i: nat :: SetsLast(assignments, i, name, value)
  }

  lemma AssignedLast(front: seq<string>, token: string, name: string, value: string)
    ensures HasValue(front + [token], name, value)
       <==> if EnvMatch(token).Some? && EnvMatch(token).value.0 == name then EnvMatch(token).value.1 == value
            else HasValue(front, name, value)
  {
    var all := front + [token];
    var n := |front|;
    forall k, w
      ensures Assigns(token, k, w) <==> EnvMatch(token) == Some((k, w))
    {
      EnvMatchMeans(token, k, w);
    }
    if HasValue(all, name, value) {
      var i: nat :| SetsLast(all, i, name, value);
      if i < n {
        assert all[n] == token && front[i] == all[i];
        assert forall j :: i < j < n ==> front[j] == all[j];
        assert SetsLast(front, i, name, value);
      }
    }
    if Assigns(token, name, value) {
      assert SetsLast(all, n, name, value);
    } else if HasValue(front, name, value) && !(EnvMatch(token).Some? && EnvMatch(token).value.0 == name) {
      var i: nat :| SetsLast(front, i, name, value);
      assert SetsLast(all, i, name, value);
    }
  }

  /** After a list of assignments each name stands once, with the value of its last assignment. */
  lemma {:induction false} LastAssignmentWins(assignments: seq<string>)
    ensures DistinctNames(EnvOf(assignments))
    ensures forall name, value :: (name, value) in EnvOf(assignments) <==> HasValue(assignments, name, value)
  {
    if assignments != [] {
      var n := |assignments| - 1;
      var front, token := assignments[..n], assignments[n];
      LastAssignmentWins(front);
      if EnvMatch(token).Some? {
        SetVarIsAssignment(EnvOf(front), EnvMatch(token).value.0, EnvMatch(token).value.1);
      }
      assert assignments == front + [token];
      forall name, value
        ensures (name, value) in EnvOf(assignments) <==> HasValue(assignments, name, value)
      {
        AssignedLast(front, token, name, value);
      }
    }
  }
}
