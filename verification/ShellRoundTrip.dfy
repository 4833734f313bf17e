/** The parser accepts exactly the well-formed pipelines, and printing one canonically is undone by parsing. */
module ShellRoundTrip {
  import opened Options
  import Sequences
  import opened ShellGrammar
  import opened ShellSyntax

  // ---------------------------------------------------------------- what parsing builds is well formed

  ghost predicate PartialCommand(c: Node) {
    WellFormedNode(c) && c.Command? && !c.stdout.ToPipe?
  }

  /** What holds between any two tokens. */
  ghost predicate Sound(m: Machine) {
    && WellFormedPairs(m.pipeline)
    && ValidEnv(m.envVars)
    && (m.state == BEGIN ==> m.current.None?)
    && (m.state == CHDIR ==> m.current.Some? && m.current.value.Chdir? && WellFormedNode(m.current.value))
    && (m.state != BEGIN && m.state != CHDIR ==> m.current.Some? && PartialCommand(m.current.value))
    && (m.state != BEGIN ==> m.envVars == [])
  }

  lemma AppendPair(p: seq<Node>, n: Node, op: Node)
    requires WellFormedPairs(p) && WellFormedPair(n, op)
    ensures WellFormedPairs(p + [n, op])
  {
    assert (p + [n, op])[..|p|] == p;
  }

  /** The shape of a well-formed pipeline, position by position. */
  lemma {:induction false} PairAt(p: seq<Node>, i: nat)
    requires WellFormedPairs(p) && 2 * i < |p|
    ensures |p| % 2 == 0 && WellFormedPair(p[2 * i], p[2 * i + 1])
    decreases |p|
  {
    var q := p[..|p| - 2];
    if q != [] {
      PairAt(q, 0);
    }
    if 2 * i < |q| {
      PairAt(q, i);
    }
  }

  lemma {:induction false} SetVarNames(env: Env, name: string, value: string)
    ensures forall i :: 0 <= i < |SetVar(env, name, value)| ==>
      SetVar(env, name, value)[i] == (name, value) || SetVar(env, name, value)[i] in env
    ensures DistinctNames(env) ==> DistinctNames(SetVar(env, name, value))
    decreases |env|
  {
    if env != [] && env[0].0 != name {
      SetVarNames(env[1..], name, value);
    }
  }

  lemma EnvMatchIsValid(token: string)
    ensures EnvMatch(token).Some? ==> IsName(EnvMatch(token).value.0) && IsWord(EnvMatch(token).value.1)
  {
  }

  lemma BeginSound(m: Machine, token: string)
    requires Sound(m) && m.state == BEGIN && Begin(m, token).Some?
    ensures Sound(Begin(m, token).value)
  {
    EnvMatchIsValid(token);
    if EnvMatch(token).Some? {
      var kv := EnvMatch(token).value;
      SetVarNames(m.envVars, kv.0, kv.1);
    }
  }

  lemma CommitSound(m: Machine, op: Node)
    requires WellFormedPairs(m.pipeline) && m.envVars == [] && m.current.Some? && WellFormedPair(m.current.value, op)
    ensures Sound(Commit(m, op))
  {
    AppendPair(m.pipeline, m.current.value, op);
  }

  lemma ContinueSound(m: Machine, token: string)
    requires Sound(m) && m.state == COMMAND && Continue(m, m.current.value, token).Some?
    ensures Sound(Continue(m, m.current.value, token).value)
  {
    var c := m.current.value;
    if token == "|" {
      CommitSound(InCommand(m, c.(stdout := ToPipe)), Pipe);
    } else if token == "&&" {
      CommitSound(m, And);
    } else if token == "||" {
      CommitSound(m, Or);
    } else if token == "2>&1" {
      InCommandSound(m, c.(stderr := ToStdout));
    } else if !IsOperator(token) {
      AddArgument(c, token);
      InCommandSound(m, c.(argv := c.argv + [token]));
    }
  }

  lemma AddArgument(c: Node, token: string)
    requires PartialCommand(c) && !IsOperator(token)
    ensures PartialCommand(c.(argv := c.argv + [token]))
  {
  }

  lemma InCommandSound(m: Machine, c: Node)
    requires Sound(m) && m.state == COMMAND && PartialCommand(c)
    ensures Sound(InCommand(m, c))
  {
  }

  lemma StepSound(m: Machine, token: string)
    requires Sound(m) && Step(m, token).Some?
    ensures Sound(Step(m, token).value)
  {
    if m.state == BEGIN {
      BeginSound(m, token);
    } else if m.state == CHDIR {
      if token == "&&" {
        CommitSound(m, And);
      }
    } else if m.state == COMMAND {
      ContinueSound(m, token);
    }
  }

  lemma {:induction false} ScanSound(m: Machine, tokens: seq<string>)
    requires Sound(m) && Scan(m, tokens).Some?
    ensures Sound(Scan(m, tokens).value)
    decreases |tokens|
  {
    if tokens != [] {
      ScanSound(m, tokens[..|tokens| - 1]);
      StepSound(Scan(m, tokens[..|tokens| - 1]).value, tokens[|tokens| - 1]);
    }
  }

  /** Whatever is accepted alternates nodes and operators, pipes a command exactly before a pipe, and
      follows every cd but a final one with `&&`. */
  lemma ParsedIsWellFormed(tokens: seq<string>)
    requires ParseTokens(tokens).Parsed?
    ensures WellFormed(ParseTokens(tokens).nodes)
  {
    ScanSound(START, tokens);
    var m := Scan(START, tokens).value;
    var p := m.pipeline + [m.current.value];
    assert p[..|p| - 1] == m.pipeline;
  }

  // ---------------------------------------------------------------- printing is undone by parsing

  lemma {:induction false} NameLengthIs(s: string, n: nat)
    requires n < |s| && (forall i :: 0 <= i < n ==> IsNameChar(s[i])) && !IsNameChar(s[n])
    ensures NameLength(s) == n
    decreases n
  {
    if n > 0 {
      NameLengthIs(s[1..], n - 1);
    }
  }

  lemma EnvMatchPrinted(name: string, value: string)
    requires IsName(name) && IsWord(value)
    ensures EnvMatch(name + "=" + value) == Some((name, value))
  {
    var t := name + "=" + value;
    assert t[|name|] == '=';
    NameLengthIs(t, |name|);
    assert t[..|name|] == name && t[|name| + 1..] == value;
  }

  lemma {:induction false} SetVarAppends(env: Env, name: string, value: string)
    requires forall i :: 0 <= i < |env| ==> env[i].0 != name
    ensures SetVar(env, name, value) == env + [(name, value)]
    decreases |env|
  {
    if env != [] {
      SetVarAppends(env[1..], name, value);
    }
  }

  /** Printed assignments, read in turn, build the environment they print. */
  lemma {:induction false} EnvOfPrinted(env: Env)
    requires ValidEnv(env)
    ensures EnvOf(PrintEnv(env)) == env
    ensures forall i :: 0 <= i < |PrintEnv(env)| ==> EnvMatch(PrintEnv(env)[i]).Some?
    decreases |env|
  {
    if env != [] {
      var n := |env| - 1;
      var front, name, value := env[..n], env[n].0, env[n].1;
      EnvOfPrinted(front);
      EnvMatchPrinted(name, value);
      SetVarAppends(front, name, value);
      assert env == front + [(name, value)];
      var printed := PrintEnv(front) + [name + "=" + value];
      assert printed[..|printed| - 1] == PrintEnv(front);
    }
  }

  function Arguments(args: seq<string>): seq<Item> {
    if args == [] then [] else Arguments(args[..|args| - 1]) + [Word(args[|args| - 1])]
  }

  lemma ItemAppended(items: seq<Item>, item: Item)
    ensures ItemsTokens(items + [item]) == ItemsTokens(items) + ItemTokens(item)
    ensures Words(items + [item]) == Words(items) + if item.Word? then [item.text] else []
  {
    assert (items + [item])[..|items|] == items;
  }

  ghost predicate OnlyWords(items: seq<Item>) {
    forall i :: 0 <= i < |items| ==> items[i].Word?
  }

  lemma {:induction false} ArgumentsAre(args: seq<string>)
    requires forall i :: 0 <= i < |args| ==> !IsOperator(args[i])
    ensures ValidItems(Arguments(args)) && OnlyWords(Arguments(args))
    decreases |args|
  {
    if args != [] {
      var n := |args| - 1;
      ArgumentsAre(args[..n]);
      ItemsLengthen(Arguments(args[..n]), Word(args[n]));
    }
  }

  lemma {:induction false} ArgumentsSay(args: seq<string>)
    ensures ItemsTokens(Arguments(args)) == args && Words(Arguments(args)) == args
    decreases |args|
  {
    if args != [] {
      var n := |args| - 1;
      ArgumentsSay(args[..n]);
      ItemAppended(Arguments(args[..n]), Word(args[n]));
      assert args == args[..n] + [args[n]];
    }
  }

  /** The items that redirect one stream: none, or one. */
  function RedirectOf(std: Std, s: Stream): seq<Item> {
    match s
    case File(name) => if std == Stdin then [In(name)] else if std == Stdout then [Out(name)] else [Err(name)]
    case ToStdout => [Join]
    case _ => []
  }

  function WithItems(ph: Phrase, items: seq<Item>): Phrase
    requires ph.Simple? && |items| <= 1
  {
    if items == [] then ph else WithItem(ph, items[0])
  }

  /** The phrase that a command is printed as. */
  function Bare(n: Node): Phrase
    requires n.Command? && n.argv != []
  {
    Simple(PrintEnv(n.envVars), n.argv[0], Arguments(n.argv[1..]))
  }

  function PhraseOf(n: Node): Phrase
    requires n.Command? ==> n.argv != []
  {
    match n
    case Command(_, _, stdin, stdout, stderr) =>
      WithItems(WithItems(WithItems(Bare(n), RedirectOf(Stdin, stdin)), RedirectOf(Stdout, stdout)),
        RedirectOf(Stderr, stderr))
    case Chdir(dir) => Cd(dir)
    case _ => Cd(None)
  }

  /** A command as it is before the operator that follows it. */
  ghost function Unpiped(n: Node): Node {
    if n.Command? && n.stdout.ToPipe? then n.(stdout := Inherit) else n
  }

  lemma RedirectAdded(ph: Phrase, std: Std, s: Stream)
    requires ph.Simple? && ValidPhrase(ph)
    requires s.Inherit? || s.ToPipe? || (s.File? && std != NoStd) || (s.ToStdout? && std == Stderr)
    requires forall i :: 0 <= i < |ph.items| ==> StdOf(ph.items[i]) != std
    ensures ValidPhrase(WithItems(ph, RedirectOf(std, s)))
    ensures forall i :: 0 <= i < |WithItems(ph, RedirectOf(std, s)).items| ==>
      StdOf(WithItems(ph, RedirectOf(std, s)).items[i]) == std || WithItems(ph, RedirectOf(std, s)).items[i] in ph.items
  {
    if RedirectOf(std, s) != [] {
      ItemsLengthen(ph.items, RedirectOf(std, s)[0]);
    }
  }

  lemma RedirectTokens(ph: Phrase, std: Std, s: Stream, op: string)
    requires ph.Simple? && (s.ToStdout? ==> std == Stderr)
    requires (std == Stdin && op == "<") || (std == Stdout && op == ">") || (std == Stderr && op == "2>")
    ensures PhraseTokens(WithItems(ph, RedirectOf(std, s))) == PhraseTokens(ph) + PrintRedirect(op, s)
  {
    if RedirectOf(std, s) != [] {
      PhraseTokensItem(ph, RedirectOf(std, s)[0]);
    } else {
      assert PhraseTokens(ph) + [] == PhraseTokens(ph);
    }
  }

  lemma Front(s: seq<string>)
    requires s != []
    ensures s == [s[0]] + s[1..]
  {
  }

  lemma BareTokens(n: Node)
    requires n.Command? && WellFormedNode(n)
    ensures PhraseTokens(Bare(n)) == PrintEnv(n.envVars) + n.argv
  {
    ArgumentsSay(n.argv[1..]);
    BehindName(PrintEnv(n.envVars), n.argv);
  }

  lemma BehindName(a: seq<string>, argv: seq<string>)
    requires argv != []
    ensures a + [argv[0]] + argv[1..] == a + argv
  {
  }

  lemma WordsRedirectNothing(items: seq<Item>)
    requires OnlyWords(items)
    ensures Redirected(items, Stdin) == Redirected(items, Stdout) == Redirected(items, Stderr) == Inherit
  {
    UntouchedIffInherited(items, Stdin);
    UntouchedIffInherited(items, Stdout);
    UntouchedIffInherited(items, Stderr);
  }

  lemma BareNode(n: Node)
    requires n.Command? && WellFormedNode(n)
    ensures NodeOf(Bare(n)) == n.(stdin := Inherit, stdout := Inherit, stderr := Inherit)
  {
    EnvOfPrinted(n.envVars);
    ArgumentsAre(n.argv[1..]);
    ArgumentsSay(n.argv[1..]);
    Front(n.argv);
    WordsRedirectNothing(Arguments(n.argv[1..]));
  }

  lemma BareIsValid(n: Node)
    requires n.Command? && WellFormedNode(n)
    ensures ValidPhrase(Bare(n)) && OnlyWords(Bare(n).items)
  {
    EnvOfPrinted(n.envVars);
    ArgumentsAre(n.argv[1..]);
  }

  lemma RedirectNode(ph: Phrase, std: Std, s: Stream)
    requires ph.Simple? && (s.ToStdout? ==> std == Stderr) && std != NoStd
    ensures var n, s' := NodeOf(ph), if s.ToPipe? then Inherit else s;
      NodeOf(WithItems(ph, RedirectOf(std, s))) ==
        if s' == Inherit then n
        else if std == Stdin then n.(stdin := s') else if std == Stdout then n.(stdout := s') else n.(stderr := s')
  {
    if RedirectOf(std, s) != [] {
      NodeOfItem(ph, RedirectOf(std, s)[0]);
    }
  }

  lemma PhraseIsValid(n: Node)
    requires n.Command? && WellFormedNode(n)
    ensures ValidPhrase(PhraseOf(n))
  {
    var ph1 := WithItems(Bare(n), RedirectOf(Stdin, n.stdin));
    var ph2 := WithItems(ph1, RedirectOf(Stdout, n.stdout));
    BareIsValid(n);
    RedirectAdded(Bare(n), Stdin, n.stdin);
    RedirectAdded(ph1, Stdout, n.stdout);
    RedirectAdded(ph2, Stderr, n.stderr);
  }

  lemma PhrasePrints(n: Node)
    requires n.Command? && WellFormedNode(n)
    ensures PhraseTokens(PhraseOf(n)) == PrintNode(n)
  {
    var ph1 := WithItems(Bare(n), RedirectOf(Stdin, n.stdin));
    var ph2 := WithItems(ph1, RedirectOf(Stdout, n.stdout));
    BareTokens(n);
    RedirectTokens(Bare(n), Stdin, n.stdin, "<");
    RedirectTokens(ph1, Stdout, n.stdout, ">");
    RedirectTokens(ph2, Stderr, n.stderr, "2>");
    Sequences.RegroupFour(PrintEnv(n.envVars) + n.argv, PrintRedirect("<", n.stdin), PrintRedirect(">", n.stdout),
             PrintRedirect("2>", n.stderr));
  }

  lemma PhraseMeans(n: Node)
    requires n.Command? && WellFormedNode(n)
    ensures NodeOf(PhraseOf(n)) == Unpiped(n)
  {
    var ph1 := WithItems(Bare(n), RedirectOf(Stdin, n.stdin));
    var ph2 := WithItems(ph1, RedirectOf(Stdout, n.stdout));
    BareNode(n);
    RedirectNode(Bare(n), Stdin, n.stdin);
    RedirectNode(ph1, Stdout, n.stdout);
    RedirectNode(ph2, Stderr, n.stderr);
  }

  lemma PhraseOfIs(n: Node)
    requires WellFormedNode(n)
    ensures ValidPhrase(PhraseOf(n)) && PhraseTokens(PhraseOf(n)) == PrintNode(n) && NodeOf(PhraseOf(n)) == Unpiped(n)
  {
    if n.Command? {
      PhraseIsValid(n);
      PhrasePrints(n);
      PhraseMeans(n);
    }
  }

  function FrontOf(p: seq<Node>): seq<(Phrase, Node)>
    requires WellFormedPairs(p)
  {
    if p == [] then [] else
      var k := |p| - 2;
      FrontOf(p[..k]) + [(PhraseOf(p[k]), p[k + 1])]
  }

  lemma PairPrinted(n: Node, op: Node)
    requires WellFormedPair(n, op)
    ensures ValidLink(PhraseOf(n), op) && Linked(PhraseOf(n), op) == n
    ensures PrintNode(op) == [OpToken(op)]
  {
    PhraseOfIs(n);
    if n.Command? {
      UntouchedIffInherited(PhraseOf(n).items, Stdout);
    }
  }

  lemma {:induction false} FrontOfIs(p: seq<Node>)
    requires WellFormedPairs(p)
    ensures ValidFront(FrontOf(p)) && FrontTokens(FrontOf(p)) == Print(p) && FrontNodes(FrontOf(p)) == p
    decreases |p|
  {
    if p != [] {
      var k := |p| - 2;
      var front := FrontOf(p[..k]);
      FrontOfIs(p[..k]);
      PairPrinted(p[k], p[k + 1]);
      PhraseOfIs(p[k]);
      FrontExtends(front, PhraseOf(p[k]), p[k + 1]);
      LastTwo(p);
      PrintTwo(p[..k], p[k], p[k + 1]);
    }
  }

  lemma FrontExtends(front: seq<(Phrase, Node)>, ph: Phrase, op: Node)
    requires ValidFront(front) && ValidLink(ph, op)
    ensures ValidFront(front + [(ph, op)])
    ensures FrontTokens(front + [(ph, op)]) == FrontTokens(front) + PhraseTokens(ph) + [OpToken(op)]
    ensures FrontNodes(front + [(ph, op)]) == FrontNodes(front) + [Linked(ph, op), op]
  {
    assert (front + [(ph, op)])[..|front|] == front;
  }

  lemma LastTwo(p: seq<Node>)
    requires |p| >= 2
    ensures p == p[..|p| - 2] + [p[|p| - 2], p[|p| - 1]]
  {
  }

  lemma PrintOne(p: seq<Node>, n: Node)
    ensures Print(p + [n]) == Print(p) + PrintNode(n)
  {
    assert (p + [n])[..|p|] == p;
  }

  lemma PrintTwo(p: seq<Node>, n: Node, op: Node)
    ensures Print(p + [n, op]) == Print(p) + PrintNode(n) + PrintNode(op)
  {
    assert p + [n, op] == p + [n] + [op];
    PrintOne(p, n);
    PrintOne(p + [n], op);
  }

  /** The sentence that a pipeline is printed as. */
  function SentenceOf(p: seq<Node>): Sentence
    requires WellFormed(p)
  {
    Sentence(FrontOf(p[..|p| - 1]), PhraseOf(p[|p| - 1]), None)
  }

  lemma LastOne(p: seq<Node>)
    requires |p| >= 1
    ensures p == p[..|p| - 1] + [p[|p| - 1]]
  {
  }

  lemma SentenceOfIs(p: seq<Node>)
    requires WellFormed(p)
    ensures Reads(SentenceOf(p), Print(p), p)
  {
    var k := |p| - 1;
    LastOne(p);
    PrintOne(p[..k], p[k]);
    FrontOfIs(p[..k]);
    PhraseOfIs(p[k]);
    Sequences.AppendNothing(Print(p[..k]) + PrintNode(p[k]));
  }

  /** Every well-formed pipeline is what its canonical printing parses to. */
  lemma ParseOfPrint(p: seq<Node>)
    requires WellFormed(p)
    ensures ParseTokens(Print(p)) == Parsed(p)
  {
    SentenceOfIs(p);
    ParseIffSentence(Print(p), p);
  }

  /** Re-parsing the canonical printing of an accepted token list changes nothing. */
  lemma ParsePrintParse(tokens: seq<string>)
    requires ParseTokens(tokens).Parsed?
    ensures ParseTokens(Print(ParseTokens(tokens).nodes)) == ParseTokens(tokens)
  {
    ParsedIsWellFormed(tokens);
    ParseOfPrint(ParseTokens(tokens).nodes);
  }

  /** A node list is the result of some parse exactly when it is well formed. */
  lemma ParseImageIsWellFormed(p: seq<Node>)
    ensures WellFormed(p) <==> exists tokens :: ParseTokens(tokens) == Parsed(p)
  {
    if WellFormed(p) {
      ParseOfPrint(p);
    }
    if exists tokens :: ParseTokens(tokens) == Parsed(p) {
      var tokens :| ParseTokens(tokens) == Parsed(p);
      ParsedIsWellFormed(tokens);
    }
  }

  /** The shape of an accepted pipeline, position by position. */
  lemma WellFormedAlternates(p: seq<Node>)
    requires WellFormed(p)
    ensures |p| % 2 == 1
    ensures forall i :: 0 <= i < |p| ==>
      if i % 2 == 1 then p[i].Pipe? || p[i].And? || p[i].Or? else p[i].Command? || p[i].Chdir?
    ensures forall i :: 0 <= i < |p| && p[i].Command? ==> (p[i].stdout.ToPipe? <==> i + 1 < |p| && p[i + 1].Pipe?)
    ensures forall i :: 0 <= i < |p| - 1 && p[i].Chdir? ==> p[i + 1].And?
  {
    var q := p[..|p| - 1];
    if q != [] {
      PairAt(q, 0);
    }
    forall i | 0 <= i < |p|
      ensures if i % 2 == 1 then p[i].Pipe? || p[i].And? || p[i].Or? else p[i].Command? || p[i].Chdir?
      ensures p[i].Command? ==> (p[i].stdout.ToPipe? <==> i + 1 < |p| && p[i + 1].Pipe?)
      ensures i < |p| - 1 && p[i].Chdir? ==> p[i + 1].And?
    {
      if i < |q| {
        PairAt(q, i / 2);
        assert i == 2 * (i / 2) + i % 2;
      }
    }
  }
}
