/** What each process of a run is started with, read off the nodes: its own words and redirections, the
    command piped into it, and the directory the cds before it lead to. */
module ShellLaunches {
  import opened Options
  import opened ShellEval
  import opened ShellSyntax

  // ---------------------------------------------------------------- directories by their components

  /** Length of the longest prefix without a slash. */
  function PartLength(path: string): (n: nat)
    ensures n <= |path| && (forall i :: 0 <= i < n ==> path[i] != '/') && (n < |path| ==> path[n] == '/')
  {
    if path == "" || path[0] == '/' then 0 else 1 + PartLength(path[1..])
  }

  /** What stands between the slashes, empty parts dropped. */
  function Components(path: string): seq<string> {
    if path == "" then []
    else if path[0] == '/' then Components(path[1..])
    else [path[..PartLength(path)]] + Components(path[PartLength(path)..])
  }

  predicate IsAbsolute(path: string) {
    path != "" && path[0] == '/'
  }

  lemma {:induction false} PartLengthAppend(a: string, b: string)
    requires b == "" || b[0] == '/'
    ensures PartLength(a + b) == PartLength(a)
    decreases |a|
  {
    if a == "" {
      assert a + b == b;
    } else if a[0] != '/' {
      assert (a + b)[1..] == a[1..] + b;
      PartLengthAppend(a[1..], b);
    }
  }

  /** Where two paths meet at a slash, their components follow each other. */
  lemma {:induction false} ComponentsAppend(a: string, b: string)
    requires b == "" || b[0] == '/'
    ensures Components(a + b) == Components(a) + Components(b)
    decreases |a|
  {
    if a == "" {
      assert a + b == b;
    } else if a[0] == '/' {
      assert (a + b)[1..] == a[1..] + b;
      ComponentsAppend(a[1..], b);
    } else {
      var n := PartLength(a);
      PartLengthAppend(a, b);
      assert (a + b)[..n] == a[..n] && (a + b)[n..] == a[n..] + b;
      ComponentsAppend(a[n..], b);
      assert [a[..n]] + (Components(a[n..]) + Components(b)) == [a[..n]] + Components(a[n..]) + Components(b);
    }
  }

  lemma ComponentsOfSlash(b: string)
    ensures Components("/" + b) == Components(b)
  {
    assert ("/" + b)[1..] == b;
  }

  lemma JoinBehindSlash(front: string, dir: string)
    requires !IsAbsolute(dir)
    ensures JoinPath(front + "/", dir) == front + "/" + dir
    ensures Components(front + "/" + dir) == Components(front + "/") + Components(dir)
  {
    assert front + "/" + dir == front + ("/" + dir);
    ComponentsAppend(front, "/" + dir);
    ComponentsOfSlash(dir);
    ComponentsAppend(front, "/");
    assert "/" + "" == "/";
    ComponentsOfSlash("");
  }

  lemma JoinWithSlash(base: string, dir: string)
    requires !IsAbsolute(dir) && base != "" && base[|base| - 1] != '/'
    ensures JoinPath(base, dir) == base + "/" + dir
    ensures Components(JoinPath(base, dir)) == Components(base) + Components(dir)
  {
    assert base + "/" + dir == base + ("/" + dir);
    ComponentsAppend(base, "/" + dir);
    ComponentsOfSlash(dir);
  }

  /** Joining keeps an absolute directory as it is and otherwise goes on from the base, with one slash between
      unless the base is empty or has one already. */
  lemma JoinPathMeans(base: string, dir: string)
    ensures IsAbsolute(dir) ==> JoinPath(base, dir) == dir
    ensures !IsAbsolute(dir) ==> JoinPath(base, dir) == base + dir || JoinPath(base, dir) == base + "/" + dir
    ensures Components(JoinPath(base, dir))
         == if IsAbsolute(dir) then Components(dir) else Components(base) + Components(dir)
    ensures IsAbsolute(JoinPath(base, dir)) <==> IsAbsolute(dir) || IsAbsolute(base)
  {
    if !IsAbsolute(dir) {
      if base == "" {
        assert base + dir == dir;
      } else if base[|base| - 1] == '/' {
        var front := base[..|base| - 1];
        assert base == front + "/";
        JoinBehindSlash(front, dir);
      } else {
        JoinWithSlash(base, dir);
      }
    }
  }

  /** A cd leads to a directory that is not written as the one the shell was started in. */
  lemma JoinPathMoves(base: string, dir: string)
    requires base != ""
    ensures JoinPath(base, dir) != "" && JoinPath(base, dir) != "."
  {
    var j := JoinPath(base, dir);
    if IsAbsolute(dir) {
      assert j[0] == '/';
    } else if base[|base| - 1] == '/' {
      assert j[|base| - 1] == '/' && j[0] == base[0];
      assert |j| == 1 ==> j[0] == '/';
    } else {
      assert |j| >= 2;
    }
  }

  // ---------------------------------------------------------------- what the nodes say

  /** How many commands stand before position i. */
  function CommandsBefore(p: seq<Node>, i: nat): nat
    requires i <= |p|
  {
    if i == 0 then 0 else CommandsBefore(p, i - 1) + if p[i - 1].Command? then 1 else 0
  }

  predicate AnyCdBefore(p: seq<Node>, i: nat)
    requires i <= |p|
  {
    i > 0 && (p[i - 1].Chdir? || AnyCdBefore(p, i - 1))
  }

  /** The components of the directory that the cds before position i lead to, starting from `.`. */
  function Trail(p: seq<Node>, i: nat): seq<string>
    requires i <= |p|
  {
    if i == 0 then ["."]
    else if p[i - 1].Chdir? && p[i - 1].dir.Some? then
      (if IsAbsolute(p[i - 1].dir.value) then [] else Trail(p, i - 1)) + Components(p[i - 1].dir.value)
    else Trail(p, i - 1)
  }

  predicate AbsoluteCdBefore(p: seq<Node>, i: nat)
    requires i <= |p|
  {
    i > 0 && ((p[i - 1].Chdir? && p[i - 1].dir.Some? && IsAbsolute(p[i - 1].dir.value)) || AbsoluteCdBefore(p, i - 1))
  }

  /** A `|` stands directly before position i, or before the cds directly before it. */
  predicate PipedInto(p: seq<Node>, i: nat)
    requires i <= |p|
  {
    i > 0 && (p[i - 1].Pipe? || (i > 1 && p[i - 2].Chdir? && PipedInto(p, i - 2)))
  }

  predicate IsSink(s: Sink, to: Stream) {
    match to
    case Inherit => s == SinkInherited
    case ToPipe => s == SinkPipe
    case ToStdout => s == SinkStdout
    case File(name) => s == if name == "NUL:" || name == "/dev/null" then SinkNull else SinkFile(name)
  }

  predicate IsDirectory(cwd: Option<string>, p: seq<Node>, i: nat)
    requires i <= |p|
  {
    && (cwd.None? <==> !AnyCdBefore(p, i))
    && (cwd.Some? ==> Components(cwd.value) == Trail(p, i))
    && (cwd.Some? ==> (IsAbsolute(cwd.value) <==> AbsoluteCdBefore(p, i)))
  }

  /** The k-th process is what the command at position i says. */
  predicate Follows(p: seq<Node>, i: nat, l: Launch, k: nat)
    requires i < |p| && p[i].Command?
  {
    && l.argv == p[i].argv && l.envVars == p[i].envVars
    && l.stdin == (if PipedInto(p, i) && k > 0 then StdoutOf(k - 1)
                   else if p[i].stdin.File? then StdinFile(p[i].stdin.name) else StdinInherited)
    && IsSink(l.stdout, p[i].stdout) && IsSink(l.stderr, p[i].stderr)
    && IsDirectory(l.cwd, p, i)
  }

  /** The processes are those of the first commands, one each and in their order. */
  ghost predicate FollowAll(p: seq<Node>, ls: seq<Launch>, upTo: nat)
    requires upTo <= |p|
  {
    && |ls| <= CommandsBefore(p, upTo)
    && forall i :: 0 <= i < upTo && p[i].Command? && CommandsBefore(p, i) < |ls| ==>
         Follows(p, i, ls[CommandsBefore(p, i)], CommandsBefore(p, i))
  }

  // ---------------------------------------------------------------- why

  lemma {:induction false} CommandsGrow(p: seq<Node>, i: nat, j: nat)
    requires i <= j <= |p|
    ensures CommandsBefore(p, i) <= CommandsBefore(p, j)
    ensures i < j && p[i].Command? ==> CommandsBefore(p, i) < CommandsBefore(p, j)
    decreases j
  {
    if i < j - 1 {
      CommandsGrow(p, i, j - 1);
    }
  }

  /** The directory in hand at position i. */
  ghost predicate InDirectory(p: seq<Node>, i: nat, cwd: string)
    requires i <= |p|
  {
    && cwd != "" && (cwd == "." <==> !AnyCdBefore(p, i))
    && Components(cwd) == Trail(p, i)
    && (IsAbsolute(cwd) <==> AbsoluteCdBefore(p, i))
  }

  /** Between two nodes of the pipeline p: the group is what is piped into the rest. */
  ghost predicate AtNode(p: seq<Node>, i: nat, cwd: string, before: seq<Launch>, group: seq<Placed>) {
    && i <= |p| && Runnable(p[i..]) && AllCommands(group)
    && InDirectory(p, i, cwd)
    && (PipedInto(p, i) <==> group != [])
    && |before| + |group| == CommandsBefore(p, i)
    && |Started(before, group)| == CommandsBefore(p, i) && FollowAll(p, Started(before, group), i)
  }

  lemma StartedFollows(p: seq<Node>, i: nat, cwd: string, before: seq<Launch>, group: seq<Placed>)
    requires AtNode(p, i, cwd, before, group) && i < |p| && p[i].Command?
    ensures var g := group + [Placed(p[i], cwd)];
      && AllCommands(g) && |Started(before, g)| == CommandsBefore(p, i + 1)
      && FollowAll(p, Started(before, g), i + 1)
  {
    var g, ls := group + [Placed(p[i], cwd)], Started(before, group);
    assert g[..|group|] == group;
    StartedGrows(before, g);
    var l := LaunchOf(Placed(p[i], cwd), if group == [] then SourceOf(p[i].stdin) else StdoutOf(|ls| - 1));
    assert Started(before, g) == ls + [l];
    assert Follows(p, i, l, |ls|);
    forall k | 0 <= k < i && p[k].Command? && CommandsBefore(p, k) < |ls| + 1
      ensures Follows(p, k, (ls + [l])[CommandsBefore(p, k)], CommandsBefore(p, k))
    {
      CommandsGrow(p, k, i);
    }
  }

  lemma FollowFurther(p: seq<Node>, ls: seq<Launch>, i: nat, j: nat)
    requires i <= j <= |p| && FollowAll(p, ls, i)
    ensures FollowAll(p, ls, j)
  {
    CommandsGrow(p, i, j);
    forall k | i <= k < j
      ensures CommandsBefore(p, k) >= |ls|
    {
      CommandsGrow(p, i, k);
    }
  }

  lemma TailOfTail(p: seq<Node>, i: nat)
    requires i + 2 <= |p|
    ensures p[i..][2..] == p[i + 2..] && p[i..][0] == p[i] && p[i..][1] == p[i + 1]
  {
  }

  lemma NextAfterCd(p: seq<Node>, i: nat, cwd: string, before: seq<Launch>, group: seq<Placed>)
    requires AtNode(p, i, cwd, before, group) && i + 2 <= |p| && p[i].Chdir? && p[i].dir.Some?
    ensures p[i + 1].And? && AtNode(p, i + 2, JoinPath(cwd, p[i].dir.value), before, group)
  {
    TailOfTail(p, i);
    JoinPathMeans(cwd, p[i].dir.value);
    JoinPathMoves(cwd, p[i].dir.value);
    FollowFurther(p, Started(before, group), i, i + 2);
  }

  lemma NextAfterCommand(p: seq<Node>, i: nat, cwd: string, before: seq<Launch>, group: seq<Placed>)
    requires AtNode(p, i, cwd, before, group) && i + 2 <= |p| && p[i].Command?
    ensures var g := group + [Placed(p[i], cwd)];
      && AllCommands(g)
      && (p[i + 1].Pipe? ==> AtNode(p, i + 2, cwd, before, g))
      && (!p[i + 1].Pipe? ==> AtNode(p, i + 2, cwd, Started(before, g), []))
  {
    TailOfTail(p, i);
    StartedFollows(p, i, cwd, before, group);
    FollowFurther(p, Started(before, group + [Placed(p[i], cwd)]), i + 1, i + 2);
  }

  /** Behind a command either nothing more is started or the rest of the list goes on. */
  lemma EvalBehindCommand(p: seq<Node>, i: nat, cwd: string, before: seq<Launch>, group: seq<Placed>, exits: Exits)
    requires i < |p| && p[i].Command? && PlanIsRunnable(PlanOf(p[i..], cwd, group))
    requires AllCommands(group + [Placed(p[i], cwd)])
    ensures var g := group + [Placed(p[i], cwd)];
      var ls := Eval(PlanOf(p[i..], cwd, group), before, exits).1;
      || ls == Started(before, g)
      || (&& i + 2 <= |p| && p[i + 1].Pipe? && PlanIsRunnable(PlanOf(p[i + 2..], cwd, g))
          && ls == Eval(PlanOf(p[i + 2..], cwd, g), before, exits).1)
      || (&& i + 2 <= |p| && !p[i + 1].Pipe? && PlanIsRunnable(PlanOf(p[i + 2..], cwd, []))
          && ls == Eval(PlanOf(p[i + 2..], cwd, []), Started(before, g), exits).1)
  {
    assert p[i..][0] == p[i];
    if i + 1 < |p| {
      TailOfTail(p, i);
    }
  }

  /** With what the rest of the list goes on behind a command. */
  lemma AfterCommand(p: seq<Node>, i: nat, cwd: string, before: seq<Launch>, group: seq<Placed>, exits: Exits)
    returns (more: bool, before': seq<Launch>, group': seq<Placed>)
    requires AtNode(p, i, cwd, before, group) && PlanIsRunnable(PlanOf(p[i..], cwd, group))
    requires i < |p| && p[i].Command?
    ensures var ls := Eval(PlanOf(p[i..], cwd, group), before, exits).1;
      if more
      then && i + 2 <= |p| && AtNode(p, i + 2, cwd, before', group')
           && PlanIsRunnable(PlanOf(p[i + 2..], cwd, group'))
           && ls == Eval(PlanOf(p[i + 2..], cwd, group'), before', exits).1
      else FollowAll(p, ls, |p|)
  {
    var g := group + [Placed(p[i], cwd)];
    StartedFollows(p, i, cwd, before, group);
    EvalBehindCommand(p, i, cwd, before, group, exits);
    before', group' := before, g;
    more := Eval(PlanOf(p[i..], cwd, group), before, exits).1 != Started(before, g);
    if !more {
      FollowFurther(p, Started(before, g), i + 1, |p|);
    } else {
      NextAfterCommand(p, i, cwd, before, group);
      if !p[i + 1].Pipe? {
        before', group' := Started(before, g), [];
      }
    }
  }

  lemma {:induction false} EvalFollows(p: seq<Node>, i: nat, cwd: string, before: seq<Launch>, group: seq<Placed>,
                                       exits: Exits)
    requires AtNode(p, i, cwd, before, group) && PlanIsRunnable(PlanOf(p[i..], cwd, group))
    ensures FollowAll(p, Eval(PlanOf(p[i..], cwd, group), before, exits).1, |p|)
    decreases |p| - i
  {
    if i == |p| || (p[i].Chdir? && (i + 1 == |p| || p[i].dir.None?)) {
      FollowFurther(p, Started(before, group), i, |p|);
    } else if p[i].Chdir? {
      NextAfterCd(p, i, cwd, before, group);
      TailOfTail(p, i);
      EvalFollows(p, i + 2, JoinPath(cwd, p[i].dir.value), before, group, exits);
    } else {
      var more, before', group' := AfterCommand(p, i, cwd, before, group, exits);
      if more {
        EvalFollows(p, i + 2, cwd, before', group', exits);
      }
    }
  }

  /** Whatever a run starts, its k-th process is the k-th command of the node list: with its words and its
      redirections, reading the process before it exactly when it is piped into, in the directory that the cds
      before it lead to. */
  lemma LaunchesFollowNodes(p: seq<Node>, exits: Exits)
    requires IsLeft(p)
    ensures FollowAll(p, Meaning(p, exits).1, |p|)
  {
    LeftIsRunnable(p);
    PlanRuns(p, ".", []);
    assert p[0..] == p;
    assert Components(".") == ["."] by {
      assert PartLength(".") == 1 && "."[..1] == "." && "."[1..] == "";
    }
    EvalFollows(p, 0, ".", [], [], exits);
  }

  // ---------------------------------------------------------------- files

  /** One reading per input file, one writing per output file, in the order input, output, error output. */
  lemma FilesOfLaunch(l: Launch)
    ensures forall name :: ForReading(name) in FilesOf(l) <==> l.stdin == StdinFile(name)
    ensures forall name :: ForWriting(name) in FilesOf(l) <==> l.stdout == SinkFile(name) || l.stderr == SinkFile(name)
    ensures |FilesOf(l)| == (if l.stdin.StdinFile? then 1 else 0) + (if l.stdout.SinkFile? then 1 else 0) +
                            (if l.stderr.SinkFile? then 1 else 0)
    ensures l.stdin.StdinFile? ==> FilesOf(l)[0].ForReading?
    ensures l.stdout.SinkFile? ==> FilesOf(l)[if l.stdin.StdinFile? then 1 else 0] == ForWriting(l.stdout.name)
    ensures l.stderr.SinkFile? ==> FilesOf(l)[|FilesOf(l)| - 1] == ForWriting(l.stderr.name)
  {
  }
}
