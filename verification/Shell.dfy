/** The Pipeline object of waf-tools/shellcmd.py: parsing tokens into its fields, and running what was parsed. */
module Shell {
  import opened Options
  import Sequences
  import opened ShellEval
  import opened ShellRoundTrip
  import opened ShellSyntax

  /** A file object at hand: the shared null device, or the n-th file opened by this run. */
  datatype FileRef = DevNull | Handle(n: nat)

  /** What a run has done to the outside, in order: processes started, those of the group not yet waited
      for, those waited for; files opened, those still to be closed, those closed. */
  datatype Progress = Progress(launches: seq<Launch>, pipedCommands: seq<nat>, waited: seq<nat>,
                               openings: seq<Opened>, files: seq<FileRef>, closings: seq<nat>)

  function Handles(files: seq<FileRef>): seq<nat> {
    if files == [] then [] else
      Handles(files[..|files| - 1]) + if files[|files| - 1].Handle? then [files[|files| - 1].n] else []
  }

  function Iota(n: nat): seq<nat> {
    seq(n, i => i)
  }

  /** Every file opened so far has been closed, or is still to be, exactly once and in order of opening. */
  predicate Accounted(openings: seq<Opened>, files: seq<FileRef>, closings: seq<nat>) {
    closings + Handles(files) == Iota(|openings|)
  }

  lemma ScanStep(m: Machine, done: seq<string>, token: string, m': Machine)
    requires Scan(m, done) == Some(m')
    ensures match Step(m', token)
            case Some(m2) => Scan(m, done + [token]) == Some(m2)
            case None => Scan(m, done + [token]).None?
  {
    assert (done + [token])[..|done|] == done;
  }

  lemma {:induction false} ScanFails(m: Machine, done: seq<string>, rest: seq<string>)
    requires Scan(m, done).None?
    ensures Scan(m, done + rest).None?
    decreases |rest|
  {
    if rest == [] {
      assert done + rest == done;
    } else {
      var n := |rest| - 1;
      ScanFails(m, done, rest[..n]);
      assert (done + rest)[..|done + rest| - 1] == done + rest[..n];
    }
  }

  /** Between two tokens: where the machine is after the tokens popped so far. */
  ghost predicate InParse(command: seq<string>, done: seq<string>, tokens: seq<string>, m: Machine) {
    done + tokens == command && Scan(START, done) == Some(m) && Sound(m)
  }

  lemma PopToken(done: seq<string>, tokens: seq<string>)
    requires tokens != []
    ensures done + tokens == done + [tokens[0]] + tokens[1..]
  {
  }

  lemma ParseStep(command: seq<string>, done: seq<string>, tokens: seq<string>, m: Machine)
    requires InParse(command, done, tokens, m) && tokens != []
    ensures match Step(m, tokens[0])
            case Some(m') => InParse(command, done + [tokens[0]], tokens[1..], m')
            case None => ParseTokens(command) == AssertionError && LeftBehind(command) == m.pipeline
  {
    PopToken(done, tokens);
    ScanStep(START, done, tokens[0], m);
    if Step(m, tokens[0]).None? {
      ScanFails(START, done + [tokens[0]], tokens[1..]);
      FailureLeaves(done, tokens[0], tokens[1..]);
    } else {
      StepSound(m, tokens[0]);
    }
  }

  lemma {:induction false} FailureLeaves(done: seq<string>, token: string, rest: seq<string>)
    requires Scan(START, done).Some? && Scan(START, done + [token]).None?
    ensures LeftBehind(done + [token] + rest) == Scan(START, done).value.pipeline
    decreases |rest|
  {
    var all := done + [token] + rest;
    ScanFails(START, done + [token], rest);
    if rest == [] {
      assert all[..|all| - 1] == done;
    } else {
      FailureLeaves(done, token, rest[..|rest| - 1]);
      assert all[..|all| - 1] == done + [token] + rest[..|rest| - 1];
    }
  }

  lemma ParseEnd(command: seq<string>, done: seq<string>, m: Machine)
    requires InParse(command, done, [], m)
    ensures ParseTokens(command) == if m.current.None? then AssertionError else Parsed(m.pipeline + [m.current.value])
    ensures m.current.Some? ==> WellFormed(m.pipeline + [m.current.value])
    ensures LeftBehind(command) == m.pipeline
  {
    assert done + [] == done;
    if m.current.Some? {
      ParsedIsWellFormed(command);
    }
  }

  class Pipeline {
    var currentCommand: Option<Node>
    var pipeline: seq<Node>

    constructor ()
      ensures currentCommand == None && pipeline == []
    {
      currentCommand := None;
      pipeline := [];
    }

    /** Moves the command in hand to the list; asserts that there is one. */
    method CommitCommand() returns (ok: bool)
      modifies this
      ensures ok <==> old(currentCommand).Some?
      ensures currentCommand == None
      ensures pipeline == old(pipeline) + if ok then [old(currentCommand).value] else []
    {
      ok := currentCommand.Some?;
      if ok {
        pipeline := pipeline + [currentCommand.value];
        currentCommand := None;
      }
    }

    method CommitWith(op: Node)
      requires currentCommand.Some?
      modifies this
      ensures currentCommand == None && pipeline == old(pipeline) + [old(currentCommand).value, op]
    {
      var _ := CommitCommand();
      pipeline := pipeline + [op];
    }

    /** A token at the beginning of a command; a failing assertion leaves the node list as it was. */
    method FeedBegin(token: string, envVars0: Env) returns (ok: bool, state: State, envVars: Env)
      requires currentCommand.None?
      modifies this
      ensures Begin(Machine(BEGIN, None, envVars0, old(pipeline)), token)
           == if ok then Some(Machine(state, currentCommand, envVars, pipeline)) else None
      ensures pipeline == old(pipeline)
    {
      ok, state, envVars := true, BEGIN, envVars0;
      var envVarMatch := EnvMatch(token);
      if envVarMatch.Some? {
        envVars := SetVar(envVars, envVarMatch.value.0, envVarMatch.value.1);
      } else if token == "cd" {
        currentCommand := Some(Chdir(None));
        ok := envVars == [];
        state := CHDIR;
      } else {
        currentCommand := Some(Command([], [token], Inherit, Inherit, Inherit));
        if envVars != [] {
          currentCommand := Some(currentCommand.value.(envVars := envVars));
          envVars := [];
        }
        state := COMMAND;
      }
    }

    /** A token inside a command. */
    method FeedCommand(token: string, ghost envVars: Env) returns (ok: bool, state: State)
      requires currentCommand.Some? && currentCommand.value.Command?
      modifies this
      ensures Continue(Machine(COMMAND, old(currentCommand), envVars, old(pipeline)), old(currentCommand).value, token)
           == if ok then Some(Machine(state, currentCommand, envVars, pipeline)) else None
      ensures !ok ==> pipeline == old(pipeline)
    {
      ok, state := true, COMMAND;
      var c := currentCommand.value;
      if token == ">" {
        state := STDOUT;
      } else if token == "2>" {
        state := STDERR;
      } else if token == "2>&1" {
        if c.stderr != Inherit {
          return false, state;
        }
        currentCommand := Some(c.(stderr := ToStdout));
      } else if token == "<" {
        state := STDIN;
      } else if token == "|" {
        if c.stdout != Inherit {
          return false, state;
        }
        currentCommand := Some(c.(stdout := ToPipe));
        CommitWith(Pipe);
        state := BEGIN;
      } else if token == "&&" {
        CommitWith(And);
        state := BEGIN;
      } else if token == "||" {
        CommitWith(Or);
        state := BEGIN;
      } else {
        currentCommand := Some(c.(argv := c.argv + [token]));
      }
    }

    /** One pass of the token loop. */
    method Feed(token: string, state0: State, envVars0: Env) returns (ok: bool, state: State, envVars: Env)
      requires Sound(Machine(state0, currentCommand, envVars0, pipeline))
      modifies this
      ensures Step(Machine(state0, old(currentCommand), envVars0, old(pipeline)), token)
           == if ok then Some(Machine(state, currentCommand, envVars, pipeline)) else None
      ensures !ok ==> pipeline == old(pipeline)
    {
      ok, state, envVars := true, state0, envVars0;
      if state == BEGIN {
        ok, state, envVars := FeedBegin(token, envVars);
      } else if state == COMMAND {
        ok, state := FeedCommand(token, envVars);
      } else if state == CHDIR {
        if token == "&&" {
          CommitWith(And);
          state := BEGIN;
        } else {
          if currentCommand.value.dir.Some? {
            return false, state, envVars;
          }
          currentCommand := Some(Chdir(Some(token)));
        }
      } else if state == STDOUT {
        if currentCommand.value.stdout != Inherit {
          return false, state, envVars;
        }
        currentCommand := Some(currentCommand.value.(stdout := File(token)));
        state := COMMAND;
      } else if state == STDERR {
        if currentCommand.value.stderr != Inherit {
          return false, state, envVars;
        }
        currentCommand := Some(currentCommand.value.(stderr := File(token)));
        state := COMMAND;
      } else {
        if currentCommand.value.stdin != Inherit {
          return false, state, envVars;
        }
        currentCommand := Some(currentCommand.value.(stdin := File(token)));
        state := COMMAND;
      }
    }

    /** Parses a list of tokens into the node list. When an assertion fails, what was committed stays behind. */
    method ParseCommand(command: seq<string>) returns (r: Parse)
      modifies this
      ensures r == ParseTokens(command)
      ensures r.Parsed? ==> pipeline == r.nodes && currentCommand == None && WellFormed(pipeline)
      ensures r.AssertionError? ==> pipeline == LeftBehind(command) && WellFormedPairs(pipeline)
    {
      currentCommand := None;
      pipeline := [];
      var tokens := command;
      var state := BEGIN;
      var envVars: Env := [];
      ghost var done: seq<string> := [];
      while tokens != []
        invariant InParse(command, done, tokens, Machine(state, currentCommand, envVars, pipeline))
        decreases |tokens|
      {
        ghost var m := Machine(state, currentCommand, envVars, pipeline);
        var token := tokens[0];
        ParseStep(command, done, tokens, m);
        tokens := tokens[1..];
        done := done + [token];
        var ok;
        ok, state, envVars := Feed(token, state, envVars);
        if !ok {
          return AssertionError;
        }
      }
      ParseEnd(command, done, Machine(state, currentCommand, envVars, pipeline));
      var ok := CommitCommand();
      if !ok {
        return AssertionError;
      }
      return Parsed(pipeline);
    }

    // -------------------------------------------------------------- running

    /** Waits for every process of a group; the status is the last one's as soon as any is nonzero. */
    method ExecPipedCommands(commands: seq<nat>, launches: seq<Launch>, exits: Exits) returns (retval: int)
      requires commands != []
      ensures retval == exits(launches, commands[|commands| - 1])
    {
      var retvals: seq<int> := [];
      for i := 0 to |commands|
        invariant |retvals| == i && forall j :: 0 <= j < i ==> retvals[j] == exits(launches, commands[j])
      {
        retvals := retvals + [exits(launches, commands[i])];
      }
      retval := 0;
      for i := 0 to |retvals|
        invariant retval == 0 && forall j :: 0 <= j < i ==> retvals[j] == 0
      {
        if retvals[i] != 0 {
          retval := retvals[|retvals| - 1];
          break;
        }
      }
    }

    /** Closes each file but the shared null device. */
    method CloseAll(files: seq<FileRef>, closings0: seq<nat>) returns (closings: seq<nat>)
      ensures closings == closings0 + Handles(files)
    {
      closings := closings0;
      for i := 0 to |files|
        invariant closings == closings0 + Handles(files[..i])
      {
        assert files[..i + 1][..i] == files[..i];
        match files[i]
        case Handle(n) => closings := closings + [n];
        case DevNull =>
      }
      assert files[..|files|] == files;
    }

    /** Appends a freshly opened file to those still to be closed. */
    method Track(o: Opened, openings0: seq<Opened>, files0: seq<FileRef>, ghost closings: seq<nat>)
      returns (openings: seq<Opened>, files: seq<FileRef>)
      requires Accounted(openings0, files0, closings)
      ensures openings == openings0 + [o] && Accounted(openings, files, closings)
    {
      openings := openings0 + [o];
      files := files0 + [Handle(|openings0|)];
      assert files[..|files0|] == files0;
      assert Iota(|openings|) == Iota(|openings0|) + [|openings0|];
      assert closings + (Handles(files0) + [|openings0|]) == closings + Handles(files0) + [|openings0|];
    }

    /** Opens what an output stream is redirected to; the null device is not opened again. */
    method OpenSink(s: Stream, openings0: seq<Opened>, files0: seq<FileRef>, ghost closings: seq<nat>)
      returns (sink: Sink, openings: seq<Opened>, files: seq<FileRef>)
      requires Accounted(openings0, files0, closings)
      ensures sink == SinkOf(s)
      ensures openings == openings0 + SinkFiles(sink) && Accounted(openings, files, closings)
    {
      openings, files := openings0, files0;
      match s
      case Inherit => sink := SinkInherited;
      case ToPipe => sink := SinkPipe;
      case ToStdout => sink := SinkStdout;
      case File(name) =>
        if IsDevNull(name) {
          sink := SinkNull;
          files := files0 + [DevNull];
          assert files[..|files0|] == files0;
          assert Handles(files0) + [] == Handles(files0);
        } else {
          sink := SinkFile(name);
          openings, files := Track(ForWriting(name), openings0, files0, closings);
        }
    }

    /** Opens a command's own input, unless it reads from a pipe. */
    method OpenSource(s: Stream, openings0: seq<Opened>, files0: seq<FileRef>, ghost closings: seq<nat>)
      returns (source: Source, openings: seq<Opened>, files: seq<FileRef>)
      requires Accounted(openings0, files0, closings)
      ensures source == SourceOf(s)
      ensures openings == openings0 + (if source.StdinFile? then [ForReading(source.name)] else [])
      ensures Accounted(openings, files, closings)
    {
      openings, files := openings0, files0;
      if s.File? {
        source := StdinFile(s.name);
        openings, files := Track(ForReading(s.name), openings0, files0, closings);
      } else {
        source := StdinInherited;
      }
    }

    /** Opens what a command redirects and works out what its process is to be started with. */
    method Prepare(cmd: Node, cwd: string, upstream: Option<nat>, openings0: seq<Opened>, files0: seq<FileRef>,
                   ghost closings: seq<nat>)
      returns (launch: Launch, openings: seq<Opened>, files: seq<FileRef>)
      requires cmd.Command? && Accounted(openings0, files0, closings)
      ensures launch == LaunchOf(Placed(cmd, cwd),
        if upstream.Some? then StdoutOf(upstream.value) else SourceOf(cmd.stdin))
      ensures openings == openings0 + FilesOf(launch) && Accounted(openings, files, closings)
    {
      openings, files := openings0, files0;
      var stdin, stdout, stderr;
      if upstream.Some? {
        stdin := StdoutOf(upstream.value);
      } else {
        stdin, openings, files := OpenSource(cmd.stdin, openings, files, closings);
      }
      stdout, openings, files := OpenSink(cmd.stdout, openings, files, closings);
      stderr, openings, files := OpenSink(cmd.stderr, openings, files, closings);
      launch := Launch(cmd.argv, cmd.envVars, stdin, stdout, stderr, if cwd == "." then None else Some(cwd));
      var own := if stdin.StdinFile? then [ForReading(stdin.name)] else [];
      Sequences.RegroupFour(openings0, own, SinkFiles(stdout), SinkFiles(stderr));
      Sequences.AppendNothing(openings0);
    }

    /** Starts one more command of a group. */
    method StartCommand(cmd: Node, cwd: string, st0: Progress, ghost base: seq<Launch>, ghost group: seq<Placed>)
      returns (st: Progress)
      requires cmd.Command? && Tidy(st0, base, group)
      ensures Tidy(st, base, group + [Placed(cmd, cwd)])
    {
      var n := |st0.pipedCommands|;
      var upstream := if n > 0 then Some(st0.pipedCommands[n - 1]) else None;
      var launch, openings, files := Prepare(cmd, cwd, upstream, st0.openings, st0.files, st0.closings);
      st := WithLaunch(st0, launch, openings, files);
      StartKeepsTidy(st0, base, group, Placed(cmd, cwd), launch, openings, files);
    }

    /** Waits for a group and closes the files opened for it. */
    method FinishGroup(st0: Progress, exits: Exits, ghost base: seq<Launch>, ghost group: seq<Placed>)
      returns (retval: int, st: Progress)
      requires Tidy(st0, base, group) && group != []
      ensures |st0.launches| > 0 && retval == exits(st0.launches, |st0.launches| - 1)
      ensures st.launches == st0.launches && Tidy(st, st.launches, []) && Settled(st)
    {
      LastPiped(st0.waited, st0.pipedCommands, |st0.launches|);
      retval := ExecPipedCommands(st0.pipedCommands, st0.launches, exits);
      var closings := CloseAll(st0.files, st0.closings);
      st := Progress(st0.launches, [], st0.waited + st0.pipedCommands, st0.openings, [], closings);
    }

    /** Runs whatever a parse has left in the object. `exits` gives each process's exit code when it is waited
        for. A run that ends with a status has waited for everything and closed everything; one that raises or
        runs out of nodes leaves its last group, and the files opened for it, as they are. */
    method Run(exits: Exits) returns (outcome: Outcome, st: Progress)
      requires IsLeft(pipeline)
      ensures (outcome, st.launches) == Meaning(pipeline, exits)
      ensures st.openings == AllFiles(st.launches)
      ensures outcome.Exited? ==> Settled(st)
      ensures !outcome.Exited? ==> Unsettled(st, |Pending(PlanOf(pipeline, ".", []))|)
    {
      WholeInRun(pipeline, exits);
      outcome, st := RunLoop(exits, Meaning(pipeline, exits), Pending(PlanOf(pipeline, ".", [])));
    }

    method RunLoop(exits: Exits, ghost goal: (Outcome, seq<Launch>), ghost pending: seq<Placed>)
      returns (outcome: Outcome, st: Progress)
      requires InRun(pipeline, ".", [], [], exits, goal, pending)
      ensures (outcome, st.launches) == goal
      ensures st.openings == AllFiles(st.launches)
      ensures outcome.Exited? ==> Settled(st)
      ensures !outcome.Exited? ==> Unsettled(st, |pending|)
    {
      st := Progress([], [], [], [], [], []);
      ghost var base: seq<Launch>, group: seq<Placed> := [], [];
      var rest, cwd := pipeline, ".";
      outcome := NoStatus;
      while outcome == NoStatus && rest != []
        invariant outcome == NoStatus ==> InRun(rest, cwd, group, base, exits, goal, pending) && Tidy(st, base, group)
        invariant outcome != NoStatus ==> (outcome, st.launches) == goal && st.openings == AllFiles(st.launches)
        invariant outcome.Exited? ==> Settled(st)
        invariant outcome.Raised? ==> Unsettled(st, |pending|)
        decreases outcome == NoStatus, |rest|
      {
        var node := rest[0];
        if node.Chdir? {
          ChdirInRun(rest, cwd, group, base, exits, goal, pending);
          if |rest| == 1 {
            outcome := Raised(PopFromEmptyList);
          } else if node.dir.None? {
            outcome := Raised(BadDirectory);
          } else {
            rest, cwd := rest[2..], JoinPath(cwd, node.dir.value);
          }
        } else {
          outcome, st, base, group := RunCommand(rest, cwd, st, exits, base, group, goal, pending);
          if outcome == NoStatus {
            rest := rest[2..];
          }
        }
      }
    }

    /** Starts the command at the front; at the end of its group, ends the group. */
    method RunCommand(rest: seq<Node>, cwd: string, st0: Progress, exits: Exits, ghost base0: seq<Launch>,
                      ghost group0: seq<Placed>, ghost goal: (Outcome, seq<Launch>), ghost pending: seq<Placed>)
      returns (outcome: Outcome, st: Progress, ghost base: seq<Launch>, ghost group: seq<Placed>)
      requires rest != [] && !rest[0].Chdir? && InRun(rest, cwd, group0, base0, exits, goal, pending)
      requires Tidy(st0, base0, group0)
      ensures !outcome.Raised?
      ensures outcome == NoStatus ==>
        |rest| > 1 && InRun(rest[2..], cwd, group, base, exits, goal, pending) && Tidy(st, base, group)
      ensures outcome != NoStatus ==>
        (outcome, st.launches) == goal && st.openings == AllFiles(st.launches) && Settled(st)
    {
      CommandInRun(rest, cwd, group0, base0, exits, goal, pending);
      st := StartCommand(rest[0], cwd, st0, base0, group0);
      base, group := base0, group0 + [Placed(rest[0], cwd)];
      if |rest| > 1 && rest[1].Pipe? {
        outcome := NoStatus;
      } else {
        outcome, st := EndGroup(rest, cwd, st, exits, base, group, goal, pending);
        base, group := st.launches, [];
      }
    }

    /** Waits for the group, closes its files, and decides whether to go on. */
    method EndGroup(rest: seq<Node>, ghost cwd: string, st0: Progress, exits: Exits, ghost base: seq<Launch>,
                    ghost group: seq<Placed>, ghost goal: (Outcome, seq<Launch>), ghost pending: seq<Placed>)
      returns (outcome: Outcome, st: Progress)
      requires rest != [] && group != [] && (|rest| > 1 ==> !rest[1].Pipe?) && Tidy(st0, base, group)
      requires AfterCommand(rest, cwd, group, base, exits, goal, pending)
      ensures !outcome.Raised? && Tidy(st, st.launches, []) && Settled(st)
      ensures outcome == NoStatus ==> |rest| > 1 && InRun(rest[2..], cwd, [], st.launches, exits, goal, pending)
      ensures outcome != NoStatus ==> (outcome, st.launches) == goal
    {
      var retval;
      outcome := NoStatus;
      retval, st := FinishGroup(st0, exits, base, group);
      if |rest| == 1 {
        outcome := Exited(retval);
      } else if rest[1].Or? {
        if retval == 0 {
          outcome := Exited(retval);
        }
      } else if rest[1].And? {
        if retval != 0 {
          outcome := Exited(retval);
        }
      }
    }
  }

  /** Everything started has been waited for, in order; everything opened has been closed, in order. */
  predicate Settled(st: Progress) {
    st.waited == Iota(|st.launches|) && st.closings == Iota(|st.openings|)
  }

  /** All but the last n processes have been waited for; every file is closed or still to be closed, and none
      is still to be closed when there is no such process. */
  predicate Unsettled(st: Progress, n: nat) {
    && st.waited + st.pipedCommands == Iota(|st.launches|) && |st.pipedCommands| == n
    && Accounted(st.openings, st.files, st.closings)
    && (n == 0 ==> Settled(st))
  }

  /** What is recorded between two nodes: every process is waited for or in the current group, every file
      closed or still to be. */
  predicate Tidy(st: Progress, base: seq<Launch>, group: seq<Placed>) {
    && AllCommands(group)
    && st.launches == Started(base, group)
    && st.waited + st.pipedCommands == Iota(|st.launches|) && |st.pipedCommands| == |group|
    && st.openings == AllFiles(st.launches)
    && Accounted(st.openings, st.files, st.closings)
    && (group == [] ==> st.files == [])
  }

  function WithLaunch(st: Progress, launch: Launch, openings: seq<Opened>, files: seq<FileRef>): Progress {
    var index: nat := |st.launches|;
    Progress(st.launches + [launch], st.pipedCommands + [index], st.waited, openings, files, st.closings)
  }

  lemma StartedAppend(base: seq<Launch>, group: seq<Placed>, c: Placed, launch: Launch)
    requires AllCommands(group) && c.command.Command?
    requires var ls := Started(base, group);
      group != [] ==> |ls| > 0 && launch == LaunchOf(c, StdoutOf(|ls| - 1))
    requires group == [] ==> launch == LaunchOf(c, SourceOf(c.command.stdin))
    ensures AllCommands(group + [c]) && Started(base, group + [c]) == Started(base, group) + [launch]
  {
    var g := group + [c];
    assert g[..|group|] == group && g[|group|] == c;
  }

  lemma AllFilesAppend(launches: seq<Launch>, launch: Launch)
    ensures AllFiles(launches + [launch]) == AllFiles(launches) + FilesOf(launch)
  {
    assert (launches + [launch])[..|launches|] == launches;
  }

  lemma StartKeepsTidy(st: Progress, base: seq<Launch>, group: seq<Placed>, c: Placed, launch: Launch,
                       openings: seq<Opened>, files: seq<FileRef>)
    requires Tidy(st, base, group) && c.command.Command?
    requires launch == LaunchOf(c, if st.pipedCommands != [] then StdoutOf(st.pipedCommands[|st.pipedCommands| - 1])
                                   else SourceOf(c.command.stdin))
    requires openings == st.openings + FilesOf(launch) && Accounted(openings, files, st.closings)
    ensures Tidy(WithLaunch(st, launch, openings, files), base, group + [c])
  {
    OneMorePiped(st, WithLaunch(st, launch, openings, files));
    StartedAppend(base, group, c, launch);
    AllFilesAppend(st.launches, launch);
  }

  lemma OneMorePiped(st: Progress, st': Progress)
    requires st.waited + st.pipedCommands == Iota(|st.launches|)
    requires |st'.launches| == |st.launches| + 1 && st'.waited == st.waited
    requires st'.pipedCommands == st.pipedCommands + [|st.launches|]
    ensures st.pipedCommands != [] ==>
      |st.launches| > 0 && st.pipedCommands[|st.pipedCommands| - 1] == |st.launches| - 1
    ensures st'.waited + st'.pipedCommands == Iota(|st'.launches|)
  {
    LastPiped(st.waited, st.pipedCommands, |st.launches|);
  }

  lemma WholeInRun(p: seq<Node>, exits: Exits)
    requires IsLeft(p)
    ensures InRun(p, ".", [], [], exits, Meaning(p, exits), Pending(PlanOf(p, ".", [])))
  {
    LeftIsRunnable(p);
    PlanRuns(p, ".", []);
  }

  /** Between two nodes: the rest of the pipeline, after the group started so far, still means the whole. */
  ghost predicate InRun(rest: seq<Node>, cwd: string, group: seq<Placed>, base: seq<Launch>, exits: Exits,
                        goal: (Outcome, seq<Launch>), pending: seq<Placed>) {
    && Runnable(rest) && AllCommands(group)
    && Pending(PlanOf(rest, cwd, group)) == pending
    && PlanIsRunnable(PlanOf(rest, cwd, group))
    && Eval(PlanOf(rest, cwd, group), base, exits) == goal
  }

  lemma LastPiped(waited: seq<nat>, piped: seq<nat>, n: nat)
    requires waited + piped == Iota(n)
    ensures piped != [] ==> n > 0 && piped[|piped| - 1] == n - 1
    ensures waited + (piped + [n]) == Iota(n + 1)
  {
    assert waited + (piped + [n]) == waited + piped + [n];
    assert piped != [] ==> (waited + piped)[n - 1] == piped[|piped| - 1];
    assert Iota(n + 1) == Iota(n) + [n];
  }

  lemma ChdirInRun(rest: seq<Node>, cwd: string, group: seq<Placed>, base: seq<Launch>, exits: Exits,
                   goal: (Outcome, seq<Launch>), pending: seq<Placed>)
    requires rest != [] && rest[0].Chdir? && InRun(rest, cwd, group, base, exits, goal, pending)
    ensures |rest| == 1 ==> goal == (Raised(PopFromEmptyList), Started(base, group)) && pending == group
    ensures |rest| > 1 && rest[0].dir.None? ==> goal == (Raised(BadDirectory), Started(base, group)) && pending == group
    ensures |rest| > 1 && rest[0].dir.Some? ==>
      InRun(rest[2..], JoinPath(cwd, rest[0].dir.value), group, base, exits, goal, pending)
  {
  }

  /** How the run goes on once the command at the front has joined its group. */
  ghost predicate AfterCommand(rest: seq<Node>, cwd: string, group: seq<Placed>, base: seq<Launch>, exits: Exits,
                               goal: (Outcome, seq<Launch>), pending: seq<Placed>)
    requires rest != []
  {
    && AllCommands(group)
    && var ls := Started(base, group);
    && |ls| > 0
    && (|rest| == 1 ==> goal == (Exited(exits(ls, |ls| - 1)), ls))
    && (|rest| > 1 && rest[1].Pipe? ==> InRun(rest[2..], cwd, group, base, exits, goal, pending))
    && (|rest| > 1 && !rest[1].Pipe? ==>
          && (rest[1].And? || rest[1].Or?)
          && if (rest[1].And? <==> exits(ls, |ls| - 1) == 0)
             then InRun(rest[2..], cwd, [], ls, exits, goal, pending)
             else goal == (Exited(exits(ls, |ls| - 1)), ls))
  }

  lemma CommandInRun(rest: seq<Node>, cwd: string, group: seq<Placed>, base: seq<Launch>, exits: Exits,
                     goal: (Outcome, seq<Launch>), pending: seq<Placed>)
    requires rest != [] && !rest[0].Chdir? && InRun(rest, cwd, group, base, exits, goal, pending)
    ensures rest[0].Command? && AfterCommand(rest, cwd, group + [Placed(rest[0], cwd)], base, exits, goal, pending)
  {
    StartedGrows(base, group + [Placed(rest[0], cwd)]);
  }
}
