/** The command language of waf-tools/shellcmd.py: its nodes, its token machine, and its canonical printing. */
module ShellSyntax {

  import opened Options

  datatype Stream = Inherit | ToPipe | ToStdout | File(name: string)

  /** An environment: the entries of a dictionary, each name once, in insertion order. */
  type Env = seq<(string, string)>

  datatype Node =
    | Command(envVars: Env, argv: seq<string>, stdin: Stream, stdout: Stream, stderr: Stream)
    | Chdir(dir: Option<string>)
    | Pipe
    | And
    | Or

  datatype Parse = Parsed(nodes: seq<Node>) | AssertionError

  // ---------------------------------------------------------------- environment assignments

  predicate IsSpace(c: char) {
    c == ' ' || c == '\t' || c == '\n' || c == '\r' || c == '\U{0B}' || c == '\U{0C}'
  }

  predicate IsNameChar(c: char) {
    'a' <= c <= 'z' || 'A' <= c <= 'Z' || '0' <= c <= '9' || c == '_'
  }

  predicate IsName(s: string) {
    s != [] && forall i :: 0 <= i < |s| ==> IsNameChar(s[i])
  }

  predicate IsWord(s: string) {
    s != [] && forall i :: 0 <= i < |s| ==> !IsSpace(s[i])
  }

  /** Length of the longest prefix of name characters. */
  function NameLength(s: string): (n: nat)
    ensures n <= |s| && (forall i :: 0 <= i < n ==> IsNameChar(s[i])) && (n < |s| ==> !IsNameChar(s[n]))
  {
    if s == [] || !IsNameChar(s[0]) then 0 else 1 + NameLength(s[1..])
  }

  /** The pattern ^([a-zA-Z0-9_]+)=(\S+)$, whose end also matches just before a final newline. */
  function EnvMatch(token: string): Option<(string, string)> {
    var n := NameLength(token);
    if n == 0 || n == |token| || token[n] != '=' then None else
      var v := token[n + 1..];
      if IsWord(v) then Some((token[..n], v))
      else if v != [] && v[|v| - 1] == '\n' && IsWord(v[..|v| - 1]) then Some((token[..n], v[..|v| - 1]))
      else None
  }

  /** Dictionary assignment: an existing name keeps its place. */
  function SetVar(env: Env, name: string, value: string): Env {
    if env == [] then [(name, value)]
    else if env[0].0 == name then [(name, value)] + env[1..]
    else [env[0]] + SetVar(env[1..], name, value)
  }

  // ---------------------------------------------------------------- the token machine

  datatype State = BEGIN | COMMAND | CHDIR | STDERR | STDOUT | STDIN

  datatype Machine = Machine(state: State, current: Option<Node>, envVars: Env, pipeline: seq<Node>)

  const START := Machine(BEGIN, None, [], [])

  function Commit(m: Machine, op: Node): Machine
    requires m.current.Some?
  {
    Machine(BEGIN, None, m.envVars, m.pipeline + [m.current.value, op])
  }

  function InCommand(m: Machine, c: Node): Machine {
    m.(state := COMMAND, current := Some(c))
  }

  function Begin(m: Machine, token: string): Option<Machine> {
    match EnvMatch(token)
    case Some(kv) => Some(m.(envVars := SetVar(m.envVars, kv.0, kv.1)))
    case None =>
      if m.current.Some? then None
      else if token == "cd" then
        if m.envVars != [] then None else Some(m.(state := CHDIR, current := Some(Chdir(Option.None))))
      else Some(Machine(COMMAND, Some(Command(m.envVars, [token], Inherit, Inherit, Inherit)), [], m.pipeline))
  }

  function Continue(m: Machine, c: Node, token: string): Option<Machine>
    requires m.current == Some(c) && c.Command?
  {
    if token == ">" then Some(m.(state := STDOUT))
    else if token == "2>" then Some(m.(state := STDERR))
    else if token == "2>&1" then if c.stderr != Inherit then None else Some(InCommand(m, c.(stderr := ToStdout)))
    else if token == "<" then Some(m.(state := STDIN))
    else if token == "|" then
      if c.stdout != Inherit then None else Some(Commit(InCommand(m, c.(stdout := ToPipe)), Pipe))
    else if token == "&&" then Some(Commit(m, And))
    else if token == "||" then Some(Commit(m, Or))
    else Some(InCommand(m, c.(argv := c.argv + [token])))
  }

  /** A token after a redirection sign names the file, unless that stream is already redirected. */
  function Redirect(m: Machine, c: Node, token: string): Option<Machine>
    requires c.Command?
  {
    if m.state == STDOUT then
      if c.stdout != Inherit then None else Some(InCommand(m, c.(stdout := File(token))))
    else if m.state == STDERR then
      if c.stderr != Inherit then None else Some(InCommand(m, c.(stderr := File(token))))
    else
      if c.stdin != Inherit then None else Some(InCommand(m, c.(stdin := File(token))))
  }

  function InChdir(m: Machine, token: string): Option<Machine>
    requires m.current.Some? && m.current.value.Chdir?
  {
    if token == "&&" then Some(Commit(m, And))
    else if m.current.value.dir.Some? then None
    else Some(m.(current := Some(Chdir(Some(token)))))
  }

  /** One token; None when an assertion of the parser fails. */
  function Step(m: Machine, token: string): Option<Machine> {
    if m.state == BEGIN then Begin(m, token)
    else if m.current.None? then None
    else if m.state == CHDIR then if m.current.value.Chdir? then InChdir(m, token) else None
    else if !m.current.value.Command? then None
    else if m.state == COMMAND then Continue(m, m.current.value, token)
    else Redirect(m, m.current.value, token)
  }

  function Scan(m: Machine, tokens: seq<string>): Option<Machine> {
    if tokens == [] then Some(m) else
      match Scan(m, tokens[..|tokens| - 1])
      case None => None
      case Some(m') => Step(m', tokens[|tokens| - 1])
  }

  /** Parsing a list of tokens: all of them through the machine, then the command in hand is committed. */
  function ParseTokens(tokens: seq<string>): Parse {
    match Scan(START, tokens)
    case None => AssertionError
    case Some(m) => if m.current.None? then AssertionError else Parsed(m.pipeline + [m.current.value])
  }

  /** The node list the parser has built when it stops: all that was committed before the token at which an
      assertion fails, if one does. */
  function LeftBehind(tokens: seq<string>): seq<Node> {
    match Scan(START, tokens)
    case Some(m) => m.pipeline
    case None => LeftBehind(tokens[..|tokens| - 1])
  }

  // ---------------------------------------------------------------- well-formed pipelines

  predicate IsOperator(token: string) {
    token in {">", "2>", "2>&1", "<", "|", "&&", "||"}
  }

  predicate DistinctNames(env: Env) {
    forall i, j :: 0 <= i < j < |env| ==> env[i].0 != env[j].0
  }

  predicate ValidEnv(env: Env) {
    DistinctNames(env) && forall i :: 0 <= i < |env| ==> IsName(env[i].0) && IsWord(env[i].1)
  }

  /** A command or a cd as the parser can build it. */
  predicate WellFormedNode(n: Node) {
    match n
    case Command(env, argv, stdin, stdout, stderr) =>
      && ValidEnv(env)
      && |argv| >= 1 && argv[0] != "cd" && EnvMatch(argv[0]).None?
      && (forall i :: 1 <= i < |argv| ==> !IsOperator(argv[i]))
      && (stdin.Inherit? || stdin.File?) && !stdout.ToStdout? && !stderr.ToPipe?
    case Chdir(dir) => dir != Some("&&")
    case _ => false
  }

  /** A node followed by an operator: piped exactly before a pipe, and after a cd only `&&`. */
  predicate WellFormedPair(n: Node, op: Node) {
    && WellFormedNode(n)
    && (op.Pipe? || op.And? || op.Or?)
    && (n.Command? ==> (n.stdout.ToPipe? <==> op.Pipe?))
    && (n.Chdir? ==> op.And?)
  }

  predicate WellFormedPairs(p: seq<Node>) {
    p == [] || (|p| >= 2 && WellFormedPairs(p[..|p| - 2]) && WellFormedPair(p[|p| - 2], p[|p| - 1]))
  }

  /** Nodes and operators alternating, beginning and ending with a node. */
  predicate WellFormed(p: seq<Node>) {
    && |p| >= 1
    && WellFormedPairs(p[..|p| - 1])
    && WellFormedNode(p[|p| - 1])
    && (p[|p| - 1].Command? ==> !p[|p| - 1].stdout.ToPipe?)
  }

  // ---------------------------------------------------------------- canonical printing

  function PrintEnv(env: Env): seq<string> {
    if env == [] then [] else
      PrintEnv(env[..|env| - 1]) + [env[|env| - 1].0 + "=" + env[|env| - 1].1]
  }

  function PrintRedirect(op: string, s: Stream): seq<string> {
    match s
    case File(name) => [op, name]
    case ToStdout => ["2>&1"]
    case _ => []
  }

  function PrintRedirects(stdin: Stream, stdout: Stream, stderr: Stream): seq<string> {
    PrintRedirect("<", stdin) + PrintRedirect(">", stdout) + PrintRedirect("2>", stderr)
  }

  function PrintNode(n: Node): seq<string> {
    match n
    case Command(env, argv, stdin, stdout, stderr) => PrintEnv(env) + argv + PrintRedirects(stdin, stdout, stderr)
    case Chdir(None) => ["cd"]
    case Chdir(Some(d)) => ["cd", d]
    case Pipe => ["|"]
    case And => ["&&"]
    case Or => ["||"]
  }

  function Print(p: seq<Node>): seq<string> {
    if p == [] then [] else Print(p[..|p| - 1]) + PrintNode(p[|p| - 1])
  }
}
