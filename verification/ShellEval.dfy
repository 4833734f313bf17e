/** What running a pipeline should do: a right-nested short-circuit evaluator over groups of piped commands. */
module ShellEval {
  import opened Options
  import opened ShellSyntax

  datatype RunError = PopFromEmptyList | BadDirectory

  datatype Outcome = NoStatus | Exited(status: int) | Raised(error: RunError)

  datatype Source = StdinInherited | StdinFile(name: string) | StdoutOf(process: nat)

  datatype Sink = SinkInherited | SinkPipe | SinkStdout | SinkNull | SinkFile(name: string)

  /** One process as it is started; `cwd` is None for the shell's own directory. */
  datatype Launch = Launch(argv: seq<string>, envVars: Env, stdin: Source, stdout: Sink, stderr: Sink,
                           cwd: Option<string>)

  /** The exit code of each process, given everything that was started by the time it is waited for. */
  type Exits = (seq<Launch>, nat) -> int

  // ---------------------------------------------------------------- directories

  /** os.path.join on a POSIX system. */
  function JoinPath(base: string, dir: string): string {
    if dir != [] && dir[0] == '/' then dir
    else if base == [] || base[|base| - 1] == '/' then base + dir
    else base + "/" + dir
  }

  // ---------------------------------------------------------------- from a pipeline to a plan

  /** A command with the directory it is to run in. */
  datatype Placed = Placed(command: Node, cwd: string)

  datatype Plan =
    | Final(group: seq<Placed>)
    | AndThen(group: seq<Placed>, rest: Plan)
    | OrElse(group: seq<Placed>, rest: Plan)
    | Broken(group: seq<Placed>, error: RunError)
    | Unfinished(group: seq<Placed>)

  /** Each `cd d &&` vanishes into the directory of all later commands, whatever comes before it; piped
      commands gather into a group. `group` holds the commands already piped into what follows. A list that
      ends behind an operator leaves the last group unfinished. */
  function PlanOf(p: seq<Node>, cwd: string, group: seq<Placed>): Plan {
    if p == [] then Unfinished(group)
    else if p[0].Chdir? then
      if |p| == 1 then Broken(group, PopFromEmptyList)
      else if p[0].dir.None? then Broken(group, BadDirectory)
      else PlanOf(p[2..], JoinPath(cwd, p[0].dir.value), group)
    else
      var g := group + [Placed(p[0], cwd)];
      if |p| == 1 then Final(g)
      else if p[1].Pipe? then PlanOf(p[2..], cwd, g)
      else if p[1].And? then AndThen(g, PlanOf(p[2..], cwd, []))
      else OrElse(g, PlanOf(p[2..], cwd, []))
  }

  // ---------------------------------------------------------------- evaluating a plan

  function SourceOf(s: Stream): Source {
    match s
    case File(name) => StdinFile(name)
    case _ => StdinInherited
  }

  /** The two names for which output goes to the shared null device. */
  predicate IsDevNull(name: string) {
    name == "NUL:" || name == "/dev/null"
  }

  function SinkOf(s: Stream): Sink {
    match s
    case Inherit => SinkInherited
    case ToPipe => SinkPipe
    case ToStdout => SinkStdout
    case File(name) => if IsDevNull(name) then SinkNull else SinkFile(name)
  }

  function LaunchOf(c: Placed, stdin: Source): Launch
    requires c.command.Command?
  {
    Launch(c.command.argv, c.command.envVars, stdin, SinkOf(c.command.stdout), SinkOf(c.command.stderr),
           if c.cwd == "." then None else Some(c.cwd))
  }

  predicate AllCommands(group: seq<Placed>) {
    forall i :: 0 <= i < |group| ==> group[i].command.Command?
  }

  /** Starts a group after the processes already started: the first command reads its own input, each
      later one the output of the one before it. */
  function Started(before: seq<Launch>, group: seq<Placed>): seq<Launch>
    requires AllCommands(group)
  {
    if group == [] then before else
      var n := |group| - 1;
      var ls := Started(before, group[..n]);
      ls + [LaunchOf(group[n], if n == 0 then SourceOf(group[0].command.stdin) else StdoutOf(|ls| - 1))]
  }

  predicate PlanIsRunnable(plan: Plan) {
    && AllCommands(plan.group)
    && (plan.Broken? || plan.Unfinished? || plan.group != [])
    && (plan.AndThen? || plan.OrElse? ==> PlanIsRunnable(plan.rest))
  }

  lemma {:induction false} StartedGrows(before: seq<Launch>, group: seq<Placed>)
    requires AllCommands(group)
    ensures |Started(before, group)| == |before| + |group|
    decreases |group|
  {
    if group != [] {
      StartedGrows(before, group[..|group| - 1]);
    }
  }

  /** The status of a group is that of its last process; `&&` goes on after 0, `||` after anything else. An
      unfinished group is started and gives no status. */
  function Eval(plan: Plan, before: seq<Launch>, exits: Exits): (Outcome, seq<Launch>)
    requires PlanIsRunnable(plan)
    decreases plan
  {
    StartedGrows(before, plan.group);
    var ls := Started(before, plan.group);
    match plan
    case Broken(_, error) => (Raised(error), ls)
    case Unfinished(_) => (NoStatus, ls)
    case Final(_) => (Exited(exits(ls, |ls| - 1)), ls)
    case AndThen(_, rest) =>
      var status := exits(ls, |ls| - 1);
      if status == 0 then Eval(rest, ls, exits) else (Exited(status), ls)
    case OrElse(_, rest) =>
      var status := exits(ls, |ls| - 1);
      if status != 0 then Eval(rest, ls, exits) else (Exited(status), ls)
  }

  // ---------------------------------------------------------------- files

  datatype Opened = ForReading(name: string) | ForWriting(name: string)

  function SinkFiles(s: Sink): seq<Opened> {
    if s.SinkFile? then [ForWriting(s.name)] else []
  }

  /** The files opened to start a process, in order: every redirection except output to the null device. */
  function FilesOf(l: Launch): seq<Opened> {
    (if l.stdin.StdinFile? then [ForReading(l.stdin.name)] else []) + SinkFiles(l.stdout) + SinkFiles(l.stderr)
  }

  function AllFiles(ls: seq<Launch>): seq<Opened> {
    if ls == [] then [] else AllFiles(ls[..|ls| - 1]) + FilesOf(ls[|ls| - 1])
  }

  // ---------------------------------------------------------------- well-formed pipelines from the front

  predicate Runnable(p: seq<Node>) {
    if p == [] then true
    else if |p| == 1 then WellFormedNode(p[0]) && (p[0].Command? ==> !p[0].stdout.ToPipe?)
    else WellFormedPair(p[0], p[1]) && Runnable(p[2..])
  }

  /** What a parse can leave behind: a whole pipeline, or the pairs committed before an assertion failed. */
  predicate IsLeft(p: seq<Node>) {
    WellFormed(p) || WellFormedPairs(p)
  }

  lemma {:induction false} PairsThenRunnable(pairs: seq<Node>, tail: seq<Node>)
    requires WellFormedPairs(pairs) && Runnable(tail)
    ensures Runnable(pairs + tail)
    decreases |pairs|
  {
    if pairs == [] {
      assert pairs + tail == tail;
    } else {
      var k := |pairs| - 2;
      var longer := pairs[k..] + tail;
      assert longer[2..] == tail;
      PairsThenRunnable(pairs[..k], longer);
      assert pairs[..k] + longer == pairs + tail;
    }
  }

  lemma LeftIsRunnable(p: seq<Node>)
    requires IsLeft(p)
    ensures Runnable(p)
  {
    if WellFormedPairs(p) {
      PairsThenRunnable(p, []);
      assert p + [] == p;
    } else {
      var k := |p| - 1;
      PairsThenRunnable(p[..k], p[k..]);
      assert p == p[..k] + p[k..];
    }
  }

  lemma {:induction false} PlanRuns(p: seq<Node>, cwd: string, group: seq<Placed>)
    requires Runnable(p) && AllCommands(group)
    ensures PlanIsRunnable(PlanOf(p, cwd, group))
    decreases |p|
  {
    if p == [] {
    } else if p[0].Chdir? {
      if |p| > 1 && p[0].dir.Some? {
        PlanRuns(p[2..], JoinPath(cwd, p[0].dir.value), group);
      }
    } else if |p| > 1 {
      PlanRuns(p[2..], cwd, if p[1].Pipe? then group + [Placed(p[0], cwd)] else []);
    }
  }

  /** The commands started and not waited for when the plan runs to its end without a status, or breaks off. */
  function Pending(plan: Plan): seq<Placed> {
    match plan
    case Unfinished(group) => group
    case Broken(group, _) => group
    case AndThen(_, rest) => Pending(rest)
    case OrElse(_, rest) => Pending(rest)
    case _ => []
  }

  /** What running a node list means: how it ends and which processes it starts. */
  function Meaning(p: seq<Node>, exits: Exits): (Outcome, seq<Launch>)
    requires IsLeft(p)
  {
    LeftIsRunnable(p);
    PlanRuns(p, ".", []);
    Eval(PlanOf(p, ".", []), [], exits)
  }
}
