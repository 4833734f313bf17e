/** When running a pipeline agrees with the rule of POSIX shells: a condition read off the nodes. */
module ShellPosixTheorem {
  import opened Options
  import opened ShellEval
  import opened ShellLaunches
  import opened ShellPosix
  import opened ShellRoundTrip
  import opened ShellSyntax
  import opened ShellTheorems

  /** The evaluator of the source, from the middle of a pipeline. */
  ghost function Nested(p: seq<Node>, cwd: string, before: seq<Launch>, group: seq<Placed>, exits: Exits)
    : (Outcome, seq<Launch>)
    requires Accepted(p, group)
  {
    PlanRuns(p, cwd, group);
    Eval(PlanOf(p, cwd, group), before, exits)
  }

  // ---------------------------------------------------------------- what one process is started with

  lemma AtIsSame(cwd: string, name: string)
    requires cwd != ""
    ensures At(cwd, name) == name <==> cwd == "." || (name != "" && name[0] == '/')
  {
    if cwd != "." && !(name != "" && name[0] == '/') {
      assert |At(cwd, name)| > |name|;
    }
  }

  lemma SinkIsSame(cwd: string, s: Stream)
    requires cwd != ""
    ensures SinkOf(s) == PosixSink(cwd, s) <==> (cwd != "." ==> !Relative(s)) && s != File("NUL:")
  {
    if s.File? {
      AtIsSame(cwd, s.name);
      if s.name == "NUL:" {
        NulIsNoDevice(cwd);
      }
    }
  }

  lemma NulIsNoDevice(cwd: string)
    ensures At(cwd, "NUL:") != "/dev/null"
  {
    var j := At(cwd, "NUL:");
    assert "NUL:"[3] == ':' && j[|j| - 1] == ':';
    assert "/dev/null"[8] == 'l';
  }

  /** The source and POSIX start a command in the same way exactly when it is plain where it stands. */
  lemma LaunchIsSame(c: Placed, n: nat, piped: bool)
    requires c.command.Command? && (c.command.stdin.Inherit? || c.command.stdin.File?) && c.cwd != ""
    ensures LaunchOf(c, if piped then StdoutOf(n) else SourceOf(c.command.stdin))
         == PosixLaunch(c, if piped then StdoutOf(n) else StdinInherited)
       <==> PlainCommand(c.command, c.cwd != ".", piped)
  {
    SinkIsSame(c.cwd, c.command.stdout);
    SinkIsSame(c.cwd, c.command.stderr);
    if c.command.stdin.File? {
      AtIsSame(c.cwd, c.command.stdin.name);
    }
  }

  ghost predicate Same(before: seq<Launch>, group: seq<Placed>)
    requires AllCommands(group)
  {
    PosixStarted(before, group) == Started(before, group)
  }

  lemma OneMoreSame(before: seq<Launch>, group: seq<Placed>, c: Placed)
    requires AllCommands(group) && c.command.Command? && WellFormedNode(c.command) && c.cwd != "" && Same(before, group)
    ensures AllCommands(group + [c])
    ensures Same(before, group + [c]) <==> PlainCommand(c.command, c.cwd != ".", group != [])
  {
    var g, ls := group + [c], Started(before, group);
    assert g[..|group|] == group;
    StartedGrows(before, group);
    var n := if group == [] then 0 else |ls| - 1;
    var x := LaunchOf(c, if group != [] then StdoutOf(n) else SourceOf(c.command.stdin));
    var y := PosixLaunch(c, if group != [] then StdoutOf(n) else StdinInherited);
    assert Started(before, g) == ls + [x] && PosixStarted(before, g) == ls + [y];
    assert (ls + [x])[|ls|] == x && (ls + [y])[|ls|] == y;
    LaunchIsSame(c, n, group != []);
  }

  // ---------------------------------------------------------------- both start more and more processes

  lemma {:induction false} PosixExtends(p: seq<Node>, home: string, cwd: string, before: seq<Launch>,
                                        group: seq<Placed>, exits: Exits)
    requires Accepted(p, group)
    ensures PosixStarted(before, group) <= Posix(p, home, cwd, before, group, exits).1
    ensures p[0].Command? ==>
      PosixStarted(before, group + [Placed(p[0], cwd)]) <= Posix(p, home, cwd, before, group, exits).1
    decreases |p|
  {
    var g := group + [Placed(p[0], cwd)];
    if p[0].Chdir? {
      if |p| > 1 {
        PosixExtends(p[2..], home, PosixCd(p[0], home, cwd, group), PosixStarted(before, group), [], exits);
      }
    } else {
      PosixAppends(before, group, Placed(p[0], cwd));
      if |p| > 1 && p[1].Pipe? {
        PosixExtends(p[2..], home, cwd, before, g, exits);
      } else if |p| > 1 {
        var ls := PosixStarted(before, g);
        if (p[1].And? <==> exits(ls, |ls| - 1) == 0) {
          PosixExtends(p[2..], home, cwd, ls, [], exits);
        } else {
          PosixSkipExtends(p[2..], home, cwd, ls, exits, exits(ls, |ls| - 1));
        }
      }
    }
  }

  lemma {:induction false} PosixSkipExtends(p: seq<Node>, home: string, cwd: string, before: seq<Launch>,
                                            exits: Exits, last: int)
    requires Accepted(p, [])
    ensures before <= PosixSkip(p, home, cwd, before, exits, last).1
    decreases |p|
  {
    if |p| > 1 {
      TailAccepted(p, []);
      if !p[1].Pipe? && (p[1].And? <==> last == 0) {
        PosixExtends(p[2..], home, cwd, before, [], exits);
      } else {
        PosixSkipExtends(p[2..], home, cwd, before, exits, last);
      }
    }
  }

  lemma PosixAppends(before: seq<Launch>, group: seq<Placed>, c: Placed)
    requires AllCommands(group) && c.command.Command?
    ensures AllCommands(group + [c]) && PosixStarted(before, group) <= PosixStarted(before, group + [c])
    ensures group == [] ==> !PosixStarted(before, group + [c])[|before|].stdin.StdoutOf?
  {
    assert (group + [c])[..|group|] == group;
  }

  /** The next process of a group reads the one before it, the first one does not. */
  lemma StartedAppends(before: seq<Launch>, group: seq<Placed>, c: Placed)
    requires AllCommands(group) && c.command.Command?
    ensures AllCommands(group + [c]) && Started(before, group) <= Started(before, group + [c])
    ensures var n := |Started(before, group)|;
      |Started(before, group + [c])| == n + 1 &&
      if group == [] then !Started(before, group + [c])[n].stdin.StdoutOf?
      else n > 0 && Started(before, group + [c])[n].stdin == StdoutOf(n - 1)
  {
    assert (group + [c])[..|group|] == group;
    StartedGrows(before, group);
  }

  /** A pipeline that is not skipped starts a process that reads from no pipe. */
  lemma {:induction false} PosixStartsFresh(p: seq<Node>, home: string, cwd: string, before: seq<Launch>, exits: Exits)
    requires Accepted(p, []) && CdsComplete(p)
    ensures var ls := Posix(p, home, cwd, before, [], exits).1;
      |ls| > |before| && !ls[|before|].stdin.StdoutOf?
    decreases |p|
  {
    if p[0].Chdir? {
      TailCds(p);
      PosixStartsFresh(p[2..], home, PosixCd(p[0], home, cwd, []), before, exits);
    } else {
      PosixExtends(p, home, cwd, before, [], exits);
      PosixAppends(before, [], Placed(p[0], cwd));
      assert [] + [Placed(p[0], cwd)] == [Placed(p[0], cwd)];
    }
  }

  lemma {:induction false} StartedPrefix(before: seq<Launch>, group: seq<Placed>)
    requires AllCommands(group)
    ensures before <= Started(before, group)
    decreases |group|
  {
    if group != [] {
      StartedPrefix(before, group[..|group| - 1]);
    }
  }

  lemma {:induction false} EvalExtends(plan: Plan, before: seq<Launch>, exits: Exits)
    requires PlanIsRunnable(plan)
    ensures Started(before, plan.group) <= Eval(plan, before, exits).1
    decreases plan
  {
    if plan.AndThen? || plan.OrElse? {
      StartedPrefix(Started(before, plan.group), plan.rest.group);
      EvalExtends(plan.rest, Started(before, plan.group), exits);
    }
  }

  lemma {:induction false} PlanKeepsGroup(p: seq<Node>, cwd: string, before: seq<Launch>, group: seq<Placed>)
    requires Accepted(p, group)
    ensures AllCommands(PlanOf(p, cwd, group).group)
    ensures Started(before, group) <= Started(before, PlanOf(p, cwd, group).group)
    decreases |p|
  {
    PlanRuns(p, cwd, group);
    if p[0].Chdir? {
      if |p| > 1 && p[0].dir.Some? {
        PlanKeepsGroup(p[2..], JoinPath(cwd, p[0].dir.value), before, group);
      }
    } else {
      PlanKeepsCommand(p, cwd, before, group);
      StartedAppends(before, group, Placed(p[0], cwd));
    }
  }

  lemma {:induction false} PlanKeepsCommand(p: seq<Node>, cwd: string, before: seq<Launch>, group: seq<Placed>)
    requires Accepted(p, group) && p[0].Command?
    ensures AllCommands(PlanOf(p, cwd, group).group) && AllCommands(group + [Placed(p[0], cwd)])
    ensures Started(before, group + [Placed(p[0], cwd)]) <= Started(before, PlanOf(p, cwd, group).group)
    decreases |p|, 0
  {
    if |p| > 1 && p[1].Pipe? {
      TailAccepted(p, group);
      PlanKeepsGroup(p[2..], cwd, before, group + [Placed(p[0], cwd)]);
    }
  }

  /** Behind a cd that stands behind `|`, the source still reads from the command before it. */
  lemma {:induction false} NestedStartsPiped(p: seq<Node>, cwd: string, before: seq<Launch>, group: seq<Placed>,
                                             exits: Exits)
    requires Accepted(p, group) && CdsComplete(p) && group != []
    ensures var ls, n := Nested(p, cwd, before, group, exits).1, |Started(before, group)|;
      |ls| > n > 0 && ls[n].stdin == StdoutOf(n - 1)
    decreases |p|
  {
    if p[0].Chdir? {
      TailCds(p);
      NestedStartsPiped(p[2..], JoinPath(cwd, p[0].dir.value), before, group, exits);
    } else {
      PlanRuns(p, cwd, group);
      EvalExtends(PlanOf(p, cwd, group), before, exits);
      PlanKeepsCommand(p, cwd, before, group);
      StartedAppends(before, group, Placed(p[0], cwd));
    }
  }

  // ---------------------------------------------------------------- where the two differ

  /** A difference in one process is never undone. */
  lemma OnceDifferent(p: seq<Node>, home: string, cwd: string, before: seq<Launch>, group: seq<Placed>, exits: Exits)
    requires Accepted(p, group) && p[0].Command? && !Same(before, group + [Placed(p[0], cwd)])
    ensures Posix(p, home, cwd, before, group, exits).1 != Nested(p, cwd, before, group, exits).1
  {
    PosixExtends(p, home, cwd, before, group, exits);
    PlanRuns(p, cwd, group);
    EvalExtends(PlanOf(p, cwd, group), before, exits);
    PlanKeepsCommand(p, cwd, before, group);
    StartedGrows(before, group + [Placed(p[0], cwd)]);
  }

  /** A cd reached behind `|`: POSIX goes on with a pipeline of its own, the source with the same group. */
  lemma PipedCdDiffers(p: seq<Node>, home: string, cwd: string, before: seq<Launch>, group: seq<Placed>, exits: Exits)
    requires Accepted(p, group) && CdsComplete(p) && p[0].Chdir? && group != [] && Same(before, group)
    ensures Posix(p, home, cwd, before, group, exits).1 != Nested(p, cwd, before, group, exits).1
  {
    TailCds(p);
    PosixStartsFresh(p[2..], home, cwd, Started(before, group), exits);
    NestedStartsPiped(p, cwd, before, group, exits);
  }

  function Always(status: int): Exits {
    (ls: seq<Launch>, k: nat) => status
  }

  /** With `&&` alone and everything exiting 0, everything is reached, a cd behind `|` too. */
  lemma {:induction false} PipedCdIsReached(p: seq<Node>, home: string, cwd: string, before: seq<Launch>,
                                            group: seq<Placed>)
    requires Accepted(p, group) && CdsComplete(p) && !HasOr(p) && Same(before, group)
    requires CdBehindPipe(p) || (p[0].Chdir? && group != [])
    ensures Posix(p, home, cwd, before, group, Always(0)).1 != Nested(p, cwd, before, group, Always(0)).1
    decreases |p|
  {
    var g := group + [Placed(p[0], cwd)];
    if p[0].Chdir? && group != [] {
      PipedCdDiffers(p, home, cwd, before, group, Always(0));
    } else if p[0].Command? && !Same(before, g) {
      OnceDifferent(p, home, cwd, before, group, Always(0));
    } else {
      TailAccepted(p, group);
      TailCds(p);
      TailOperators(p);
      if p[0].Chdir? {
        PipedCdIsReached(p[2..], home, JoinPath(cwd, p[0].dir.value), before, []);
      } else if p[1].Pipe? {
        PipedCdIsReached(p[2..], home, cwd, before, g);
      } else {
        StartedGrows(before, g);
        PipedCdIsReached(p[2..], home, cwd, Started(before, g), []);
      }
    }
  }

  /** A pipeline skipped after a failure is taken up again at a `||`, one skipped after a success at a `&&`. */
  lemma {:induction false} SkipThenMore(p: seq<Node>, home: string, cwd: string, before: seq<Launch>, exits: Exits,
                                        last: int)
    requires Accepted(p, []) && CdsComplete(p)
    requires if last != 0 then HasOr(p) else HasAnd(p)
    ensures |PosixSkip(p, home, cwd, before, exits, last).1| > |before|
    decreases |p|
  {
    if |p| > 1 {
      TailCds(p);
      TailOperators(p);
      if !p[1].Pipe? && (p[1].And? <==> last == 0) {
        PosixStartsFresh(p[2..], home, cwd, before, exits);
      } else {
        SkipThenMore(p[2..], home, cwd, before, exits, last);
      }
    }
  }

  /** With both operators behind the first command, POSIX goes on after the source has stopped. */
  lemma {:induction false} MixedDiffers(p: seq<Node>, home: string, cwd: string, before: seq<Launch>,
                                        group: seq<Placed>)
    returns (exits: Exits)
    requires Accepted(p, group) && CdsComplete(p) && HasOr(p) && Same(before, group)
    requires if group == [] then AndBehindCommand(p) else HasAnd(p)
    ensures Posix(p, home, cwd, before, group, exits).1 != Nested(p, cwd, before, group, exits).1
    decreases |p|
  {
    exits := Always(0);
    var g := group + [Placed(p[0], cwd)];
    if |p| > 1 {
      TailAccepted(p, group);
      TailCds(p);
      TailOperators(p);
      TailAnds(p);
      if p[0].Chdir? && group != [] {
        PipedCdDiffers(p, home, cwd, before, group, exits);
      } else if p[0].Chdir? {
        exits := MixedDiffers(p[2..], home, JoinPath(cwd, p[0].dir.value), before, []);
      } else if !Same(before, g) {
        OnceDifferent(p, home, cwd, before, group, exits);
      } else if p[1].Pipe? {
        exits := MixedDiffers(p[2..], home, cwd, before, g);
      } else {
        exits := Always(if p[1].And? then 1 else 0);
        StoppedThenMore(p, home, cwd, before, group);
      }
    }
  }

  lemma StoppedThenMore(p: seq<Node>, home: string, cwd: string, before: seq<Launch>, group: seq<Placed>)
    requires Accepted(p, group) && CdsComplete(p) && p[0].Command? && |p| > 1 && !p[1].Pipe?
    requires Same(before, group + [Placed(p[0], cwd)])
    requires if p[1].And? then HasOr(p) else HasAnd(p)
    ensures var exits := Always(if p[1].And? then 1 else 0);
      Posix(p, home, cwd, before, group, exits).1 != Nested(p, cwd, before, group, exits).1
  {
    var g, status := group + [Placed(p[0], cwd)], if p[1].And? then 1 else 0;
    TailAccepted(p, group);
    TailCds(p);
    TailOperators(p);
    StartedGrows(before, g);
    SkipThenMore(p[2..], home, cwd, Started(before, g), Always(status), status);
  }

  /** No `||`, or no `&&` behind a command, those already gathered included. */
  ghost predicate Uniform(p: seq<Node>, group: seq<Placed>) {
    !HasOr(p) || if group == [] then !AndBehindCommand(p) else !HasAnd(p)
  }

  /** A uniform list whose every cd is complete and none behind `|`, read up to `p`. */
  ghost predicate InOrder(p: seq<Node>, group: seq<Placed>) {
    Accepted(p, group) && CdsComplete(p) && !CdBehindPipe(p) && (p[0].Chdir? ==> group == []) && Uniform(p, group)
  }

  lemma TailInOrder(p: seq<Node>, group: seq<Placed>)
    requires InOrder(p, group) && |p| > 1
    ensures Accepted(p[2..], [])
    ensures p[0].Chdir? || !p[1].Pipe? ==> InOrder(p[2..], [])
    ensures p[0].Command? && p[1].Pipe? ==>
      forall g :: g != [] && AllCommands(g) ==> InOrder(p[2..], g)
    ensures p[0].Command? && p[1].And? ==> !HasOr(p[2..])
    ensures p[0].Command? && p[1].Or? ==> !HasAnd(p[2..])
  {
    TailAccepted(p, group);
    TailCds(p);
    TailOperators(p);
    TailAnds(p);
    if !HasAnd(p[2..]) {
      NoAndsBehind(p[2..]);
    }
  }

  lemma NoAndsBehind(p: seq<Node>)
    requires !HasAnd(p)
    ensures !AndBehindCommand(p)
  {
  }

  /** Exit codes with which everything in a uniform list is reached. */
  ghost predicate ReachesAll(p: seq<Node>, group: seq<Placed>, status: int) {
    (status == 0 && !HasOr(p)) || (status == 1 && if group == [] then !AndBehindCommand(p) else !HasAnd(p))
  }

  lemma TailReachesAll(p: seq<Node>, group: seq<Placed>, status: int)
    requires InOrder(p, group) && |p| > 1 && ReachesAll(p, group, status)
    ensures ReachesAll(p[2..], [], status)
    ensures p[0].Command? ==> forall g :: g != [] ==> ReachesAll(p[2..], g, status)
    ensures p[0].Command? && !p[1].Pipe? ==> (p[1].And? <==> status == 0)
  {
    TailAccepted(p, group);
    TailOperators(p);
    TailAnds(p);
    if !HasAnd(p[2..]) {
      NoAndsBehind(p[2..]);
    }
  }

  /** Between two nodes, as long as nothing has differed yet. */
  ghost predicate SoFar(p: seq<Node>, cwd: string, before: seq<Launch>, group: seq<Placed>, plain: bool) {
    InOrder(p, group) && Same(before, group) && cwd != "" && PlainFrom(p, cwd != ".", group != []) == plain
  }

  lemma SoFarAtCd(p: seq<Node>, cwd: string, before: seq<Launch>, group: seq<Placed>, plain: bool)
    requires |p| > 1 && p[0].Chdir? && SoFar(p, cwd, before, group, plain)
    ensures group == [] && p[0].dir.Some? && SoFar(p[2..], JoinPath(cwd, p[0].dir.value), before, [], plain)
  {
    TailInOrder(p, group);
    TailPlain(p, cwd != ".", group != []);
    TailAccepted(p, group);
    JoinPathMoves(cwd, p[0].dir.value);
  }

  lemma SoFarAtCommand(p: seq<Node>, cwd: string, before: seq<Launch>, group: seq<Placed>, plain: bool)
    requires |p| > 1 && p[0].Command? && SoFar(p, cwd, before, group, plain)
    requires AllCommands(group + [Placed(p[0], cwd)]) && Same(before, group + [Placed(p[0], cwd)])
    ensures p[1].Pipe? ==> SoFar(p[2..], cwd, before, group + [Placed(p[0], cwd)], plain)
    ensures !p[1].Pipe? ==> SoFar(p[2..], cwd, Started(before, group + [Placed(p[0], cwd)]), [], plain)
  {
    OneMoreSame(before, group, Placed(p[0], cwd));
    TailInOrder(p, group);
    TailPlain(p, cwd != ".", group != []);
  }

  lemma FirstIsSame(p: seq<Node>, cwd: string, before: seq<Launch>, group: seq<Placed>, plain: bool)
    requires SoFar(p, cwd, before, group, plain) && p[0].Command?
    ensures AllCommands(group + [Placed(p[0], cwd)])
    ensures plain ==> Same(before, group + [Placed(p[0], cwd)])
    ensures !plain && |p| == 1 ==> !Same(before, group + [Placed(p[0], cwd)])
  {
    OneMoreSame(before, group, Placed(p[0], cwd));
    assert PlainAt(p, 0, cwd != ".", group != []) <==> PlainCommand(p[0], cwd != ".", group != []);
  }

  /** With everything reached, so is a command that the two start differently. */
  lemma {:induction false} UnplainDiffers(p: seq<Node>, home: string, cwd: string, before: seq<Launch>,
                                          group: seq<Placed>, status: int)
    requires SoFar(p, cwd, before, group, false) && ReachesAll(p, group, status)
    ensures Posix(p, home, cwd, before, group, Always(status)).1 != Nested(p, cwd, before, group, Always(status)).1
    decreases |p|
  {
    var g := group + [Placed(p[0], cwd)];
    if p[0].Command? {
      FirstIsSame(p, cwd, before, group, false);
    }
    if p[0].Command? && !Same(before, g) {
      OnceDifferent(p, home, cwd, before, group, Always(status));
    } else if |p| > 1 {
      TailReachesAll(p, group, status);
      if p[0].Chdir? {
        SoFarAtCd(p, cwd, before, group, false);
        UnplainDiffers(p[2..], home, JoinPath(cwd, p[0].dir.value), before, [], status);
      } else {
        SoFarAtCommand(p, cwd, before, group, false);
        if p[1].Pipe? {
          UnplainDiffers(p[2..], home, cwd, before, g, status);
        } else {
          StartedGrows(before, g);
          UnplainDiffers(p[2..], home, cwd, Started(before, g), [], status);
        }
      }
    }
  }

  // ---------------------------------------------------------------- where they agree

  lemma {:induction false} SkipsToEnd(p: seq<Node>, home: string, cwd: string, before: seq<Launch>, exits: Exits,
                                      last: int)
    requires Accepted(p, [])
    requires if last != 0 then !HasOr(p) else !HasAnd(p)
    ensures PosixSkip(p, home, cwd, before, exits, last) == (last, before)
    decreases |p|
  {
    if |p| > 1 {
      TailAccepted(p, []);
      TailOperators(p);
      assert p[1].Pipe? || !(p[1].And? <==> last == 0);
      SkipsToEnd(p[2..], home, cwd, before, exits, last);
    }
  }

  ghost predicate AtOperator(p: seq<Node>, cwd: string, before: seq<Launch>, group: seq<Placed>, ls: seq<Launch>) {
    && Accepted(p, group) && |p| > 1 && p[0].Command? && (p[1].And? || p[1].Or?) && Accepted(p[2..], [])
    && var g := group + [Placed(p[0], cwd)];
    && AllCommands(g) && PosixStarted(before, g) == ls == Started(before, g) && |ls| > 0
  }

  lemma PosixAtOperator(p: seq<Node>, home: string, cwd: string, before: seq<Launch>, group: seq<Placed>, exits: Exits,
                        ls: seq<Launch>)
    requires AtOperator(p, cwd, before, group, ls)
    ensures var status := exits(ls, |ls| - 1);
      Posix(p, home, cwd, before, group, exits) ==
        if (p[1].And? <==> status == 0) then Posix(p[2..], home, cwd, ls, [], exits)
        else PosixSkip(p[2..], home, cwd, ls, exits, status)
  {
  }

  lemma NestedAtOperator(p: seq<Node>, cwd: string, before: seq<Launch>, group: seq<Placed>, exits: Exits,
                         ls: seq<Launch>)
    requires AtOperator(p, cwd, before, group, ls)
    ensures var status := exits(ls, |ls| - 1);
      Nested(p, cwd, before, group, exits) ==
        if (p[1].And? <==> status == 0) then Nested(p[2..], cwd, ls, [], exits) else (Exited(status), ls)
  {
  }

  lemma AgreeAtEnd(p: seq<Node>, home: string, cwd: string, before: seq<Launch>, group: seq<Placed>, exits: Exits)
    requires Accepted(p, group) && |p| == 1 && p[0].Command?
    requires AllCommands(group + [Placed(p[0], cwd)]) && Same(before, group + [Placed(p[0], cwd)])
    ensures AsOutcome(Posix(p, home, cwd, before, group, exits)) == Nested(p, cwd, before, group, exits)
  {
    StartedGrows(before, group + [Placed(p[0], cwd)]);
  }

  lemma AgreeAtPipe(p: seq<Node>, home: string, cwd: string, before: seq<Launch>, group: seq<Placed>, exits: Exits)
    requires Accepted(p, group) && p[0].Command? && |p| > 1 && p[1].Pipe?
    requires Accepted(p[2..], group + [Placed(p[0], cwd)])
    requires var g := group + [Placed(p[0], cwd)];
      AsOutcome(Posix(p[2..], home, cwd, before, g, exits)) == Nested(p[2..], cwd, before, g, exits)
    ensures AsOutcome(Posix(p, home, cwd, before, group, exits)) == Nested(p, cwd, before, group, exits)
  {
  }

  lemma AgreeAtCd(p: seq<Node>, home: string, cwd: string, before: seq<Launch>, exits: Exits)
    requires Accepted(p, []) && p[0].Chdir? && p[0].dir.Some? && |p| > 1 && Accepted(p[2..], [])
    requires var there := JoinPath(cwd, p[0].dir.value);
      AsOutcome(Posix(p[2..], home, there, before, [], exits)) == Nested(p[2..], there, before, [], exits)
    ensures AsOutcome(Posix(p, home, cwd, before, [], exits)) == Nested(p, cwd, before, [], exits)
  {
  }

  lemma {:induction false} PlainAgrees(p: seq<Node>, home: string, cwd: string, before: seq<Launch>,
                                       group: seq<Placed>, exits: Exits)
    requires SoFar(p, cwd, before, group, true)
    ensures AsOutcome(Posix(p, home, cwd, before, group, exits)) == Nested(p, cwd, before, group, exits)
    decreases |p|, 1
  {
    if p[0].Chdir? {
      PlainAgreesAtCd(p, home, cwd, before, exits);
    } else {
      FirstIsSame(p, cwd, before, group, true);
      if |p| == 1 {
        AgreeAtEnd(p, home, cwd, before, group, exits);
      } else if p[1].Pipe? {
        PlainAgreesAtPipe(p, home, cwd, before, group, exits);
      } else {
        PlainAgreesAtOperator(p, home, cwd, before, group, exits);
      }
    }
  }

  lemma {:induction false} PlainAgreesAtCd(p: seq<Node>, home: string, cwd: string, before: seq<Launch>, exits: Exits)
    requires SoFar(p, cwd, before, [], true) && p[0].Chdir?
    ensures AsOutcome(Posix(p, home, cwd, before, [], exits)) == Nested(p, cwd, before, [], exits)
    decreases |p|, 0
  {
    SoFarAtCd(p, cwd, before, [], true);
    PlainAgrees(p[2..], home, JoinPath(cwd, p[0].dir.value), before, [], exits);
    AgreeAtCd(p, home, cwd, before, exits);
  }

  lemma {:induction false} PlainAgreesAtPipe(p: seq<Node>, home: string, cwd: string, before: seq<Launch>,
                                             group: seq<Placed>, exits: Exits)
    requires SoFar(p, cwd, before, group, true) && p[0].Command? && |p| > 1 && p[1].Pipe?
    requires AllCommands(group + [Placed(p[0], cwd)]) && Same(before, group + [Placed(p[0], cwd)])
    ensures AsOutcome(Posix(p, home, cwd, before, group, exits)) == Nested(p, cwd, before, group, exits)
    decreases |p|, 0
  {
    SoFarAtCommand(p, cwd, before, group, true);
    PlainAgrees(p[2..], home, cwd, before, group + [Placed(p[0], cwd)], exits);
    AgreeAtPipe(p, home, cwd, before, group, exits);
  }

  lemma {:induction false} PlainAgreesAtOperator(p: seq<Node>, home: string, cwd: string, before: seq<Launch>,
                                                 group: seq<Placed>, exits: Exits)
    requires SoFar(p, cwd, before, group, true) && p[0].Command? && |p| > 1 && !p[1].Pipe?
    requires AllCommands(group + [Placed(p[0], cwd)]) && Same(before, group + [Placed(p[0], cwd)])
    ensures AsOutcome(Posix(p, home, cwd, before, group, exits)) == Nested(p, cwd, before, group, exits)
    decreases |p|, 0
  {
    var ls := Started(before, group + [Placed(p[0], cwd)]);
    StartedGrows(before, group + [Placed(p[0], cwd)]);
    TailAccepted(p, group);
    PosixAtOperator(p, home, cwd, before, group, exits, ls);
    NestedAtOperator(p, cwd, before, group, exits, ls);
    if (p[1].And? <==> exits(ls, |ls| - 1) == 0) {
      SoFarAtCommand(p, cwd, before, group, true);
      PlainAgrees(p[2..], home, cwd, ls, [], exits);
    } else {
      TailInOrder(p, group);
      SkipsToEnd(p[2..], home, cwd, ls, exits, exits(ls, |ls| - 1));
    }
  }

  // ---------------------------------------------------------------- the theorem

  /** A cd behind `|` is followed by `&&`. */
  lemma PipedCdHasAnd(p: seq<Node>)
    requires WellFormed(p) && CdsComplete(p) && CdBehindPipe(p)
    ensures AndBehindCommand(p)
  {
    WellFormedAlternates(p);
    var i :| 0 < i < |p| && p[i].Chdir? && p[i - 1].Pipe?;
    assert p[i + 1].And?;
    var j := i - 2;
    assert j >= 0 && p[j + 1].Pipe?;
    assert p[j].Command?;
  }

  /** What a list has to look like. */
  ghost predicate LooksPosix(p: seq<Node>) {
    && CdsComplete(p) && !CdBehindPipe(p)
    && (!HasOr(p) || !AndBehindCommand(p))
    && PlainFrom(p, false, false)
  }

  /** `run` and the POSIX rule give the same status and start the same processes, whatever the processes exit
      with, exactly when every cd is complete, none stands behind `|`, either no `||` occurs or no `&&` occurs
      behind a command, and every command is plain where it stands. */
  lemma PosixAgreesIff(p: seq<Node>, home: string)
    requires WellFormed(p)
    ensures Accepted(p, [])
    ensures LooksPosix(p) <==> Agrees(p, home)
  {
    LeftIsRunnable(p);
    WellFormedAlternates(p);
    if !CdsComplete(p) {
      AlwaysExitsIffCdsComplete(p);
      var exits :| !Meaning(p, exits).0.Exited?;
      assert AsOutcome(Posix(p, home, ".", [], [], exits)) != Meaning(p, exits);
    } else if HasOr(p) && AndBehindCommand(p) {
      var exits := MixedDiffers(p, home, ".", [], []);
      assert AsOutcome(Posix(p, home, ".", [], [], exits)) != Meaning(p, exits);
    } else if CdBehindPipe(p) {
      PipedCdHasAnd(p);
      PipedCdIsReached(p, home, ".", [], []);
      assert AsOutcome(Posix(p, home, ".", [], [], Always(0))) != Meaning(p, Always(0));
    } else if !PlainFrom(p, false, false) {
      var status := if HasOr(p) then 1 else 0;
      UnplainDiffers(p, home, ".", [], [], status);
      assert AsOutcome(Posix(p, home, ".", [], [], Always(status))) != Meaning(p, Always(status));
    } else {
      forall exits ensures AsOutcome(Posix(p, home, ".", [], [], exits)) == Meaning(p, exits) {
        PlainAgrees(p, home, ".", [], [], exits);
      }
    }
  }

  // ---------------------------------------------------------------- five lists

  function Simple(name: string, stdin: Stream, stdout: Stream): Node {
    Command([], [name], stdin, stdout, Inherit)
  }

  lemma SimpleIsWellFormed(stdin: Stream, stdout: Stream)
    requires !stdin.ToPipe? && !stdin.ToStdout? && !stdout.ToStdout?
    ensures WellFormedNode(Simple("a", stdin, stdout)) && WellFormedNode(Simple("b", stdin, stdout))
  {
    assert NameLength("a") == 1 && NameLength("b") == 1;
  }

  lemma OnePair(n: Node, op: Node)
    requires WellFormedPair(n, op)
    ensures WellFormedPairs([n, op])
  {
    assert [n, op][..0] == [];
  }

  lemma TwoPairs(n: Node, op: Node, m: Node, op': Node)
    requires WellFormedPair(n, op) && WellFormedPair(m, op')
    ensures WellFormedPairs([n, op, m, op'])
  {
    OnePair(n, op);
    assert [n, op, m, op'][..2] == [n, op];
  }

  lemma PairsAndLast(pairs: seq<Node>, last: Node)
    requires WellFormedPairs(pairs) && WellFormedNode(last) && (last.Command? ==> !last.stdout.ToPipe?)
    ensures WellFormed(pairs + [last])
  {
    assert (pairs + [last])[..|pairs|] == pairs;
  }

  /** `a || cd d && b`: POSIX runs b after a succeeds, the source stops. */
  lemma CdInMixedListDiffers(home: string)
    ensures var p := [Simple("a", Inherit, Inherit), Or, Chdir(Some("d")), And] + [Simple("b", Inherit, Inherit)];
      WellFormed(p) && Accepted(p, []) && !Agrees(p, home)
  {
    var a, b, cd := Simple("a", Inherit, Inherit), Simple("b", Inherit, Inherit), Chdir(Some("d"));
    SimpleIsWellFormed(Inherit, Inherit);
    TwoPairs(a, Or, cd, And);
    PairsAndLast([a, Or, cd, And], b);
    var p := [a, Or, cd, And] + [b];
    PosixAgreesIff(p, home);
    assert p[1].Or? && p[0].Command? && p[3].And?;
  }

  /** `cd d && a || b`: a cd in front does not count. */
  lemma CdInFrontAgrees(home: string)
    ensures var p := [Chdir(Some("d")), And, Simple("a", Inherit, Inherit), Or] + [Simple("b", Inherit, Inherit)];
      WellFormed(p) && Accepted(p, []) && Agrees(p, home)
  {
    var a, b, cd := Simple("a", Inherit, Inherit), Simple("b", Inherit, Inherit), Chdir(Some("d"));
    SimpleIsWellFormed(Inherit, Inherit);
    TwoPairs(cd, And, a, Or);
    PairsAndLast([cd, And, a, Or], b);
    var p := [cd, And, a, Or] + [b];
    PosixAgreesIff(p, home);
    FrontLooksPosix(p);
  }

  lemma FrontLooksPosix(p: seq<Node>)
    requires |p| == 5 && p[0] == Chdir(Some("d")) && p[1] == And && p[3] == Or
    requires p[2] == Simple("a", Inherit, Inherit) && p[4] == Simple("b", Inherit, Inherit)
    ensures LooksPosix(p)
  {
    forall i | 0 <= i < |p| ensures p[i].Chdir? ==> i == 0 {
    }
    forall i | 0 <= i < |p| && p[i].Command? ensures PlainAt(p, i, false, false) {
      assert i == 2 || i == 4;
    }
  }

  /** `cd d && a > f`: POSIX opens f in d, the source in its own directory. */
  lemma FileBehindCdDiffers(home: string)
    ensures var p := [Chdir(Some("d")), And] + [Simple("a", Inherit, File("f"))];
      WellFormed(p) && Accepted(p, []) && !Agrees(p, home)
  {
    var a, cd := Simple("a", Inherit, File("f")), Chdir(Some("d"));
    SimpleIsWellFormed(Inherit, File("f"));
    OnePair(cd, And);
    PairsAndLast([cd, And], a);
    var p := [cd, And] + [a];
    PosixAgreesIff(p, home);
    assert p[0].Chdir? && CdBefore(p, 2);
    assert p[2].Command? && !PlainAt(p, 2, false, false);
  }

  /** `a | b < f`: POSIX lets b read f, the source drops the redirection. */
  lemma InputBehindPipeDiffers(home: string)
    ensures var p := [Simple("a", Inherit, ToPipe), Pipe] + [Simple("b", File("f"), Inherit)];
      WellFormed(p) && Accepted(p, []) && !Agrees(p, home)
  {
    var a, b := Simple("a", Inherit, ToPipe), Simple("b", File("f"), Inherit);
    SimpleIsWellFormed(Inherit, ToPipe);
    SimpleIsWellFormed(File("f"), Inherit);
    OnePair(a, Pipe);
    PairsAndLast([a, Pipe], b);
    var p := [a, Pipe] + [b];
    PosixAgreesIff(p, home);
    assert p[2].Command? && p[1].Pipe? && !PlainAt(p, 2, false, false);
  }

  /** `a > NUL:`: POSIX makes a file of that name, the source uses the null device. */
  lemma NulDiffers(home: string)
    ensures var p := [Simple("a", Inherit, File("NUL:"))];
      WellFormed(p) && Accepted(p, []) && !Agrees(p, home)
  {
    var a := Simple("a", Inherit, File("NUL:"));
    SimpleIsWellFormed(Inherit, File("NUL:"));
    PairsAndLast([], a);
    var p := [a];
    assert [] + p == p;
    PosixAgreesIff(p, home);
    assert p[0].Command? && !PlainAt(p, 0, false, false);
  }
}
