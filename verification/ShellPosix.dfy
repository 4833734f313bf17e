/** The rule of POSIX shells for a list of pipelines, read off the same nodes the source runs. */
module ShellPosix {
  import opened Options
  import opened ShellEval
  import opened ShellSyntax
  import opened ShellTheorems

  // ---------------------------------------------------------------- what a process is started with

  /** A file name as seen from a directory. */
  function At(cwd: string, name: string): string {
    if cwd == "." then name else JoinPath(cwd, name)
  }

  function PosixSink(cwd: string, s: Stream): Sink {
    match s
    case Inherit => SinkInherited
    case ToPipe => SinkPipe
    case ToStdout => SinkStdout
    case File(name) => if At(cwd, name) == "/dev/null" then SinkNull else SinkFile(At(cwd, name))
  }

  /** POSIX Shell Command Language, sections 2.7 and 2.9.2: the pipe is connected before the command's own
      redirections, which therefore decide; they are opened in the directory the shell is in by then. */
  function PosixLaunch(c: Placed, upstream: Source): Launch
    requires c.command.Command?
  {
    var stdin := if c.command.stdin.File? then StdinFile(At(c.cwd, c.command.stdin.name)) else upstream;
    Launch(c.command.argv, c.command.envVars, stdin, PosixSink(c.cwd, c.command.stdout),
           PosixSink(c.cwd, c.command.stderr), if c.cwd == "." then None else Some(c.cwd))
  }

  /** Starts the commands of a pipeline after the processes already started. */
  function PosixStarted(before: seq<Launch>, group: seq<Placed>): (ls: seq<Launch>)
    requires AllCommands(group)
    ensures |ls| == |before| + |group|
  {
    if group == [] then before else
      var n := |group| - 1;
      var ls := PosixStarted(before, group[..n]);
      ls + [PosixLaunch(group[n], if n == 0 then StdinInherited else StdoutOf(|ls| - 1))]
  }

  // ---------------------------------------------------------------- the rule for lists

  /** An accepted pipeline with the commands already piped into its first node. */
  predicate Accepted(p: seq<Node>, group: seq<Placed>) {
    Runnable(p) && |p| % 2 == 1 && AllCommands(group)
  }

  /** POSIX Shell Command Language, section 2.9.3: `&&` and `||` have equal precedence and associate to the
      left. A `cd` is a command: reached, it exits 0 and changes the directory, to `home` when it names none.
      Behind `|` it runs in a subshell (section 2.12) and changes nothing, and its status, 0, is that of its
      pipeline. `group` holds the commands already piped into the first node. */
  ghost function Posix(p: seq<Node>, home: string, cwd: string, before: seq<Launch>, group: seq<Placed>, exits: Exits)
    : (int, seq<Launch>)
    requires Accepted(p, group)
    decreases |p|
  {
    if p[0].Chdir? then
      var ls := PosixStarted(before, group);
      if |p| == 1 then (0, ls) else Posix(p[2..], home, PosixCd(p[0], home, cwd, group), ls, [], exits)
    else
      var g := group + [Placed(p[0], cwd)];
      if |p| > 1 && p[1].Pipe? then Posix(p[2..], home, cwd, before, g, exits)
      else
        var ls := PosixStarted(before, g);
        var status := exits(ls, |ls| - 1);
        if |p| == 1 then (status, ls)
        else if (p[1].And? <==> status == 0) then Posix(p[2..], home, cwd, ls, [], exits)
        else PosixSkip(p[2..], home, cwd, ls, exits, status)
  }

  function PosixCd(cd: Node, home: string, cwd: string, group: seq<Placed>): string
    requires cd.Chdir?
  {
    if group != [] then cwd else JoinPath(cwd, if cd.dir.Some? then cd.dir.value else home)
  }

  /** A skipped pipeline does nothing and passes the status before it on to the operator behind it. */
  ghost function PosixSkip(p: seq<Node>, home: string, cwd: string, before: seq<Launch>, exits: Exits, last: int)
    : (int, seq<Launch>)
    requires Accepted(p, [])
    decreases |p|
  {
    if |p| == 1 then (last, before)
    else if !p[1].Pipe? && (p[1].And? <==> last == 0) then Posix(p[2..], home, cwd, before, [], exits)
    else PosixSkip(p[2..], home, cwd, before, exits, last)
  }

  ghost function AsOutcome(r: (int, seq<Launch>)): (Outcome, seq<Launch>) {
    (Exited(r.0), r.1)
  }

  /** The two rules give the same status and start the same processes, whatever the processes exit with. */
  ghost predicate Agrees(p: seq<Node>, home: string)
    requires IsLeft(p) && Accepted(p, [])
  {
    forall exits :: AsOutcome(Posix(p, home, ".", [], [], exits)) == Meaning(p, exits)
  }

  // ---------------------------------------------------------------- what to look for in the nodes

  predicate Relative(s: Stream) {
    s.File? && (s.name == "" || s.name[0] != '/')
  }

  /** A command for which the source opens what a POSIX shell opens: behind `|` it does not redirect its own
      input, behind a cd it names files from the root only, and it never names `NUL:` for output. */
  predicate PlainCommand(c: Node, moved: bool, piped: bool)
    requires c.Command?
  {
    && (piped ==> !c.stdin.File?)
    && (moved ==> !Relative(c.stdin) && !Relative(c.stdout) && !Relative(c.stderr))
    && c.stdout != File("NUL:") && c.stderr != File("NUL:")
  }

  ghost predicate CdBefore(p: seq<Node>, i: nat) {
    exists k :: 0 <= k < i && k < |p| && p[k].Chdir?
  }

  ghost predicate PlainAt(p: seq<Node>, i: nat, moved: bool, piped: bool)
    requires i < |p| && p[i].Command?
  {
    PlainCommand(p[i], moved || CdBefore(p, i), if i == 0 then piped else p[i - 1].Pipe?)
  }

  /** Every command is plain where it stands; `moved` and `piped` say what stands before the first node. */
  ghost predicate PlainFrom(p: seq<Node>, moved: bool, piped: bool) {
    forall i :: 0 <= i < |p| && p[i].Command? ==> PlainAt(p, i, moved, piped)
  }

  ghost predicate HasOr(p: seq<Node>) {
    exists i :: 0 <= i < |p| && p[i].Or?
  }

  ghost predicate HasAnd(p: seq<Node>) {
    exists i :: 0 <= i < |p| && p[i].And?
  }

  ghost predicate AndBehindCommand(p: seq<Node>) {
    exists i, j :: 0 <= i < j < |p| && p[i].Command? && p[j].And?
  }

  ghost predicate CdBehindPipe(p: seq<Node>) {
    exists i :: 0 < i < |p| && p[i].Chdir? && p[i - 1].Pipe?
  }

  lemma TailAccepted(p: seq<Node>, group: seq<Placed>)
    requires Accepted(p, group) && |p| > 1
    ensures |p| > 2 && Accepted(p[2..], [])
    ensures p[0].Chdir? ==> p[1].And?
    ensures p[0].Command? || p[0].Chdir?
    ensures p[1].Pipe? || p[1].And? || p[1].Or?
    ensures forall cwd :: p[0].Command? ==> AllCommands(group + [Placed(p[0], cwd)])
  {
  }

  lemma TailOperators(p: seq<Node>)
    requires Runnable(p) && |p| > 1
    ensures HasOr(p) <==> p[1].Or? || HasOr(p[2..])
    ensures HasAnd(p) <==> p[1].And? || HasAnd(p[2..])
  {
    assert forall i :: 2 <= i < |p| ==> p[i] == p[2..][i - 2];
    if HasOr(p[2..]) {
      var i :| 0 <= i < |p[2..]| && p[2..][i].Or?;
      assert p[i + 2].Or?;
    }
    if HasAnd(p[2..]) {
      var i :| 0 <= i < |p[2..]| && p[2..][i].And?;
      assert p[i + 2].And?;
    }
  }

  lemma TailAnds(p: seq<Node>)
    requires Runnable(p) && |p| > 1
    ensures AndBehindCommand(p) <==> if p[0].Command? then HasAnd(p) else AndBehindCommand(p[2..])
  {
    assert forall i :: 2 <= i < |p| ==> p[i] == p[2..][i - 2];
    if p[0].Command? && HasAnd(p) {
      var j :| 0 <= j < |p| && p[j].And?;
      assert p[0].Command? && p[j].And?;
    }
    if !p[0].Command? && AndBehindCommand(p) {
      var i, j :| 0 <= i < j < |p| && p[i].Command? && p[j].And?;
      assert p[2..][i - 2].Command? && p[2..][j - 2].And?;
    }
    if !p[0].Command? && AndBehindCommand(p[2..]) {
      var i, j :| 0 <= i < j < |p[2..]| && p[2..][i].Command? && p[2..][j].And?;
      assert p[i + 2].Command? && p[j + 2].And?;
    }
  }

  lemma TailCds(p: seq<Node>)
    requires Runnable(p) && |p| > 2
    ensures CdsComplete(p) <==> (p[0].Chdir? ==> p[0].dir.Some?) && CdsComplete(p[2..])
    ensures CdBehindPipe(p) <==> (p[1].Pipe? && p[2].Chdir?) || CdBehindPipe(p[2..])
  {
    assert forall i :: 2 <= i < |p| ==> p[i] == p[2..][i - 2];
    if CdBehindPipe(p[2..]) {
      var i :| 0 < i < |p[2..]| && p[2..][i].Chdir? && p[2..][i - 1].Pipe?;
      assert p[i + 2].Chdir? && p[i + 2 - 1].Pipe?;
    }
    if CdBehindPipe(p) && !(p[1].Pipe? && p[2].Chdir?) {
      var i :| 0 < i < |p| && p[i].Chdir? && p[i - 1].Pipe?;
      assert i > 2;
      assert p[2..][i - 2].Chdir? && p[2..][i - 2 - 1].Pipe?;
    }
  }

  lemma CdBeforeTail(p: seq<Node>, i: nat)
    requires Runnable(p) && |p| > 1 && i >= 2
    ensures CdBefore(p, i) <==> p[0].Chdir? || CdBefore(p[2..], i - 2)
  {
    assert forall k :: 2 <= k < |p| ==> p[k] == p[2..][k - 2];
    if CdBefore(p[2..], i - 2) {
      var k :| 0 <= k < i - 2 && k < |p[2..]| && p[2..][k].Chdir?;
      assert p[k + 2].Chdir?;
    }
    if CdBefore(p, i) && !p[0].Chdir? {
      var k :| 0 <= k < i && k < |p| && p[k].Chdir?;
      assert p[2..][k - 2].Chdir?;
    }
  }

  lemma PlainAtTail(p: seq<Node>, i: nat, moved: bool, piped: bool)
    requires Runnable(p) && 2 <= i < |p| && p[i].Command?
    ensures PlainAt(p, i, moved, piped) <==> PlainAt(p[2..], i - 2, moved || p[0].Chdir?, p[1].Pipe?)
  {
    CdBeforeTail(p, i);
    assert p[2..][i - 2] == p[i] && (i > 2 ==> p[2..][i - 2 - 1] == p[i - 1]);
  }

  lemma PlainDown(p: seq<Node>, moved: bool, piped: bool)
    requires Runnable(p) && |p| > 1 && PlainFrom(p, moved, piped)
    ensures PlainFrom(p[2..], moved || p[0].Chdir?, p[1].Pipe?)
  {
    var tail := p[2..];
    forall k | 0 <= k < |tail| && tail[k].Command? ensures PlainAt(tail, k, moved || p[0].Chdir?, p[1].Pipe?) {
      assert p[k + 2] == tail[k];
      PlainAtTail(p, k + 2, moved, piped);
    }
  }

  lemma PlainUp(p: seq<Node>, moved: bool, piped: bool)
    requires Runnable(p) && |p| > 1 && (p[0].Command? ==> PlainAt(p, 0, moved, piped))
    requires PlainFrom(p[2..], moved || p[0].Chdir?, p[1].Pipe?)
    ensures PlainFrom(p, moved, piped)
  {
    forall i | 2 <= i < |p| && p[i].Command? ensures PlainAt(p, i, moved, piped) {
      assert p[2..][i - 2] == p[i];
      PlainAtTail(p, i, moved, piped);
    }
  }

  lemma TailPlain(p: seq<Node>, moved: bool, piped: bool)
    requires Runnable(p) && |p| > 1
    ensures PlainFrom(p, moved, piped) <==>
      (p[0].Command? ==> PlainCommand(p[0], moved, piped)) && PlainFrom(p[2..], moved || p[0].Chdir?, p[1].Pipe?)
  {
    assert p[0].Command? ==> (PlainAt(p, 0, moved, piped) <==> PlainCommand(p[0], moved, piped));
    if PlainFrom(p, moved, piped) {
      PlainDown(p, moved, piped);
    } else if p[0].Command? ==> PlainAt(p, 0, moved, piped) {
      if PlainFrom(p[2..], moved || p[0].Chdir?, p[1].Pipe?) {
        PlainUp(p, moved, piped);
      }
    }
  }
}
