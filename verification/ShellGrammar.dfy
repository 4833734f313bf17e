/** The language the token machine accepts, written as a grammar: which token lists parse, and to what. */
module ShellGrammar {
  import opened Options
  import opened ShellSyntax

  // ---------------------------------------------------------------- the grammar

  /** What may follow the name of a command: an argument, a redirection to a file, or `2>&1`. */
  datatype Item = Word(text: string) | In(file: string) | Out(file: string) | Err(file: string) | Join

  datatype Phrase =
    | Simple(assignments: seq<string>, name: string, items: seq<Item>)
    | Cd(dir: Option<string>)

  /** Phrases each followed by an operator; then a last phrase, behind which a redirection sign may be left
      without a file. */
  datatype Sentence = Sentence(front: seq<(Phrase, Node)>, last: Phrase, dangling: Option<string>)

  datatype Std = NoStd | Stdin | Stdout | Stderr

  function StdOf(item: Item): Std {
    match item
    case Word(_) => NoStd
    case In(_) => Stdin
    case Out(_) => Stdout
    case Err(_) => Stderr
    case Join => Stderr
  }

  function IsSign(token: string): bool {
    token == "<" || token == ">" || token == "2>"
  }

  /** Arguments are not operators, and no stream is redirected twice. */
  ghost predicate ValidItems(items: seq<Item>) {
    && (forall i :: 0 <= i < |items| && items[i].Word? ==> !IsOperator(items[i].text))
    && (forall i, j :: 0 <= i < j < |items| && StdOf(items[i]) != NoStd ==> StdOf(items[i]) != StdOf(items[j]))
  }

  ghost predicate ValidPhrase(ph: Phrase) {
    match ph
    case Simple(assignments, name, items) =>
      && (forall i :: 0 <= i < |assignments| ==> EnvMatch(assignments[i]).Some?)
      && name != "cd" && EnvMatch(name).None? && ValidItems(items)
    case Cd(dir) => dir != Some("&&")
  }

  ghost predicate RedirectsStdout(ph: Phrase) {
    ph.Simple? && exists i :: 0 <= i < |ph.items| && ph.items[i].Out?
  }

  /** A command whose output is not redirected before `|`, any command before `||`, anything before `&&`. */
  ghost predicate ValidLink(ph: Phrase, op: Node) {
    && ValidPhrase(ph)
    && (op.Pipe? || op.And? || op.Or?)
    && (op.Pipe? ==> ph.Simple? && !RedirectsStdout(ph))
    && (op.Or? ==> ph.Simple?)
  }

  ghost predicate ValidFront(front: seq<(Phrase, Node)>) {
    forall i :: 0 <= i < |front| ==> ValidLink(front[i].0, front[i].1)
  }

  ghost predicate ValidSentence(s: Sentence) {
    && ValidFront(s.front) && ValidPhrase(s.last)
    && (s.dangling.Some? ==> s.last.Simple? && IsSign(s.dangling.value))
  }

  // ---------------------------------------------------------------- its tokens

  function ItemTokens(item: Item): seq<string> {
    match item
    case Word(text) => [text]
    case In(file) => ["<", file]
    case Out(file) => [">", file]
    case Err(file) => ["2>", file]
    case Join => ["2>&1"]
  }

  function ItemsTokens(items: seq<Item>): seq<string> {
    if items == [] then [] else ItemsTokens(items[..|items| - 1]) + ItemTokens(items[|items| - 1])
  }

  function PhraseTokens(ph: Phrase): seq<string> {
    match ph
    case Simple(assignments, name, items) => assignments + [name] + ItemsTokens(items)
    case Cd(None) => ["cd"]
    case Cd(Some(d)) => ["cd", d]
  }

  function OpToken(op: Node): string {
    if op.Pipe? then "|" else if op.And? then "&&" else "||"
  }

  function FrontTokens(front: seq<(Phrase, Node)>): seq<string> {
    if front == [] then [] else
      var n := |front| - 1;
      FrontTokens(front[..n]) + PhraseTokens(front[n].0) + [OpToken(front[n].1)]
  }

  function SentenceTokens(s: Sentence): seq<string> {
    FrontTokens(s.front) + PhraseTokens(s.last) + if s.dangling.Some? then [s.dangling.value] else []
  }

  // ---------------------------------------------------------------- its meaning

  function Words(items: seq<Item>): seq<string> {
    if items == [] then [] else
      var n := |items| - 1;
      Words(items[..n]) + if items[n].Word? then [items[n].text] else []
  }

  /** Where a stream is redirected to. */
  function Redirected(items: seq<Item>, std: Std): Stream {
    if items == [] then Inherit else
      var n := |items| - 1;
      if StdOf(items[n]) != std || items[n].Word? then Redirected(items[..n], std)
      else if items[n].Join? then ToStdout
      else File(items[n].file)
  }

  /** A later assignment to the same name replaces the value and keeps the place. */
  function EnvOf(assignments: seq<string>): Env {
    if assignments == [] then [] else
      var n := |assignments| - 1;
      var env := EnvOf(assignments[..n]);
      match EnvMatch(assignments[n])
      case Some(kv) => SetVar(env, kv.0, kv.1)
      case None => env
  }

  function NodeOf(ph: Phrase): (n: Node)
    ensures ph.Simple? ==> n.Command?
  {
    match ph
    case Simple(assignments, name, items) =>
      Command(EnvOf(assignments), [name] + Words(items),
              Redirected(items, Stdin), Redirected(items, Stdout), Redirected(items, Stderr))
    case Cd(dir) => Chdir(dir)
  }

  function Linked(ph: Phrase, op: Node): Node {
    var n := NodeOf(ph);
    if op.Pipe? && n.Command? then n.(stdout := ToPipe) else n
  }

  function FrontNodes(front: seq<(Phrase, Node)>): seq<Node> {
    if front == [] then [] else
      var n := |front| - 1;
      FrontNodes(front[..n]) + [Linked(front[n].0, front[n].1), front[n].1]
  }

  function SentenceNodes(s: Sentence): seq<Node> {
    FrontNodes(s.front) + [NodeOf(s.last)]
  }

  // ---------------------------------------------------------------- unfinished sentences

  /** A sentence cut off between two tokens: in the assignments of a phrase, or in the phrase itself,
      possibly just behind a redirection sign. */
  datatype Draft =
    | Opening(front: seq<(Phrase, Node)>, assignments: seq<string>)
    | Within(front: seq<(Phrase, Node)>, phrase: Phrase, sign: Option<string>)

  ghost predicate ValidDraft(d: Draft) {
    match d
    case Opening(front, assignments) =>
      ValidFront(front) && forall i :: 0 <= i < |assignments| ==> EnvMatch(assignments[i]).Some?
    case Within(front, phrase, sign) => ValidSentence(Sentence(front, phrase, sign))
  }

  function DraftTokens(d: Draft): seq<string> {
    match d
    case Opening(front, assignments) => FrontTokens(front) + assignments
    case Within(front, phrase, sign) => SentenceTokens(Sentence(front, phrase, sign))
  }

  function StateOf(ph: Phrase, sign: Option<string>): State {
    match sign
    case Some("<") => STDIN
    case Some(">") => STDOUT
    case Some(_) => STDERR
    case None => if ph.Cd? then CHDIR else COMMAND
  }

  /** The machine after the tokens of a draft. */
  function MachineOf(d: Draft): Machine {
    match d
    case Opening(front, assignments) => Machine(BEGIN, None, EnvOf(assignments), FrontNodes(front))
    case Within(front, phrase, sign) => Machine(StateOf(phrase, sign), Some(NodeOf(phrase)), [], FrontNodes(front))
  }

  /** d is e with one more token. */
  ghost predicate Extends(d: Draft, token: string, e: Draft) {
    DraftTokens(d) == DraftTokens(e) + [token] && Step(MachineOf(e), token) == Some(MachineOf(d))
  }

  lemma {:induction false} UntouchedIffInherited(items: seq<Item>, std: Std)
    requires std != NoStd
    ensures Redirected(items, std) == Inherit <==> forall i :: 0 <= i < |items| ==> StdOf(items[i]) != std
    ensures !Redirected(items, std).ToPipe?
    decreases |items|
  {
    if items != [] {
      var n := |items| - 1;
      UntouchedIffInherited(items[..n], std);
      assert forall i :: 0 <= i < n ==> items[..n][i] == items[i];
    }
  }

  lemma EnvOfSome(assignments: seq<string>)
    requires forall i :: 0 <= i < |assignments| ==> EnvMatch(assignments[i]).Some?
    ensures EnvOf(assignments) == [] <==> assignments == []
  {
    if assignments != [] {
      var n := |assignments| - 1;
      var kv := EnvMatch(assignments[n]).value;
      assert SetVar(EnvOf(assignments[..n]), kv.0, kv.1) != [];
    }
  }

  // ---------------------------------------------------------------- one token more

  function WithItem(ph: Phrase, item: Item): Phrase
    requires ph.Simple?
  {
    ph.(items := ph.items + [item])
  }

  lemma PhraseTokensItem(ph: Phrase, item: Item)
    requires ph.Simple?
    ensures PhraseTokens(WithItem(ph, item)) == PhraseTokens(ph) + ItemTokens(item)
  {
    var items := ph.items + [item];
    assert items[..|ph.items|] == ph.items;
  }

  lemma NodeOfItem(ph: Phrase, item: Item)
    requires ph.Simple?
    ensures var n := NodeOf(ph); n.Command? && NodeOf(WithItem(ph, item)) == match item
            case Word(text) => n.(argv := n.argv + [text])
            case In(file) => n.(stdin := File(file))
            case Out(file) => n.(stdout := File(file))
            case Err(file) => n.(stderr := File(file))
            case Join => n.(stderr := ToStdout)
  {
    var items := ph.items + [item];
    assert items[..|ph.items|] == ph.items;
  }

  /** One more argument, or `2>&1`. */
  lemma ItemExtends(front: seq<(Phrase, Node)>, ph: Phrase, item: Item)
    requires ph.Simple? && (item.Word? || item.Join?) && ValidDraft(Within(front, WithItem(ph, item), None))
    ensures ValidDraft(Within(front, ph, None))
    ensures Extends(Within(front, WithItem(ph, item), None), ItemTokens(item)[0], Within(front, ph, None))
  {
    ItemsShorten(ph.items, item);
    PhraseTokensItem(ph, item);
    TokensWithin(front, PhraseTokens(ph), ItemTokens(item));
    NodeOfItem(ph, item);
    if item.Word? {
      WordSteps(MachineOf(Within(front, ph, None)), NodeOf(ph), item.text);
    } else {
      UntouchedIffInherited(ph.items, Stderr);
      JoinSteps(MachineOf(Within(front, ph, None)), NodeOf(ph));
    }
  }

  lemma WordSteps(m: Machine, c: Node, text: string)
    requires m.state == COMMAND && m.current == Some(c) && c.Command? && !IsOperator(text)
    ensures Step(m, text) == Some(InCommand(m, c.(argv := c.argv + [text])))
  {
  }

  lemma JoinSteps(m: Machine, c: Node)
    requires m.state == COMMAND && m.current == Some(c) && c.Command? && c.stderr == Inherit
    ensures Step(m, "2>&1") == Some(InCommand(m, c.(stderr := ToStdout)))
  {
  }

  lemma TokensWithin(front: seq<(Phrase, Node)>, a: seq<string>, b: seq<string>)
    ensures FrontTokens(front) + (a + b) + [] == FrontTokens(front) + a + [] + b
  {
  }

  lemma ItemsShorten(items: seq<Item>, item: Item)
    requires ValidItems(items + [item])
    ensures ValidItems(items)
    ensures item.Word? ==> !IsOperator(item.text)
    ensures forall i :: 0 <= i < |items| && StdOf(item) != NoStd ==> StdOf(items[i]) != StdOf(item)
  {
    var all := items + [item];
    assert all[|items|] == item;
    assert forall i :: 0 <= i < |items| ==> all[i] == items[i];
  }

  function SignOf(item: Item): string
    requires item.In? || item.Out? || item.Err?
  {
    ItemTokens(item)[0]
  }

  /** The file of a redirection. */
  lemma FileExtends(front: seq<(Phrase, Node)>, ph: Phrase, item: Item)
    requires ph.Simple? && (item.In? || item.Out? || item.Err?) && ValidDraft(Within(front, WithItem(ph, item), None))
    ensures ValidDraft(Within(front, ph, Some(SignOf(item))))
    ensures Extends(Within(front, WithItem(ph, item), None), item.file, Within(front, ph, Some(SignOf(item))))
  {
    ItemsShorten(ph.items, item);
    PhraseTokensItem(ph, item);
    TokensBehindSign(front, PhraseTokens(ph), SignOf(item), item.file);
    FileSteps(front, ph, item);
  }

  lemma FileSteps(front: seq<(Phrase, Node)>, ph: Phrase, item: Item)
    requires ph.Simple? && (item.In? || item.Out? || item.Err?)
    requires forall i :: 0 <= i < |ph.items| ==> StdOf(ph.items[i]) != StdOf(item)
    ensures Step(MachineOf(Within(front, ph, Some(SignOf(item)))), item.file)
         == Some(MachineOf(Within(front, WithItem(ph, item), None)))
  {
    NodeOfItem(ph, item);
    UntouchedIffInherited(ph.items, StdOf(item));
    RedirectSteps(MachineOf(Within(front, ph, Some(SignOf(item)))), NodeOf(ph), item.file);
  }

  lemma RedirectSteps(m: Machine, c: Node, file: string)
    requires m.current == Some(c) && c.Command?
    ensures m.state == STDIN && c.stdin == Inherit ==> Step(m, file) == Some(InCommand(m, c.(stdin := File(file))))
    ensures m.state == STDOUT && c.stdout == Inherit ==> Step(m, file) == Some(InCommand(m, c.(stdout := File(file))))
    ensures m.state == STDERR && c.stderr == Inherit ==> Step(m, file) == Some(InCommand(m, c.(stderr := File(file))))
  {
  }

  lemma TokensBehindSign(front: seq<(Phrase, Node)>, a: seq<string>, sign: string, file: string)
    ensures FrontTokens(front) + (a + [sign, file]) + [] == FrontTokens(front) + a + [sign] + [file]
  {
  }

  lemma SignExtends(front: seq<(Phrase, Node)>, ph: Phrase, sign: string)
    requires ValidDraft(Within(front, ph, Some(sign)))
    ensures ValidDraft(Within(front, ph, None))
    ensures Extends(Within(front, ph, Some(sign)), sign, Within(front, ph, None))
  {
    TokensWithin(front, PhraseTokens(ph), []);
  }

  lemma NameExtends(front: seq<(Phrase, Node)>, ph: Phrase)
    requires ValidDraft(Within(front, ph, None)) && ph.Simple? && ph.items == []
    ensures ValidDraft(Opening(front, ph.assignments))
    ensures Extends(Within(front, ph, None), ph.name, Opening(front, ph.assignments))
  {
    assert PhraseTokens(ph) == ph.assignments + [ph.name];
    assert DraftTokens(Within(front, ph, None)) == FrontTokens(front) + ph.assignments + [ph.name];
    assert NodeOf(ph) == Command(EnvOf(ph.assignments), [ph.name], Inherit, Inherit, Inherit);
  }

  lemma CdExtends(front: seq<(Phrase, Node)>)
    requires ValidFront(front)
    ensures Extends(Within(front, Cd(None), None), "cd", Opening(front, []))
  {
    assert NameLength("cd") == 2;
  }

  lemma DirExtends(front: seq<(Phrase, Node)>, dir: string)
    requires ValidFront(front) && dir != "&&"
    ensures Extends(Within(front, Cd(Some(dir)), None), dir, Within(front, Cd(None), None))
  {
    TokensWithin(front, ["cd"], [dir]);
    assert ["cd"] + [dir] == ["cd", dir];
  }

  lemma AssignmentExtends(front: seq<(Phrase, Node)>, assignments: seq<string>, token: string)
    requires ValidDraft(Opening(front, assignments + [token]))
    ensures ValidDraft(Opening(front, assignments))
    ensures Extends(Opening(front, assignments + [token]), token, Opening(front, assignments))
  {
    var all := assignments + [token];
    assert all[..|assignments|] == assignments && all[|assignments|] == token;
    assert forall i :: 0 <= i < |assignments| ==> all[i] == assignments[i];
    assert FrontTokens(front) + all == FrontTokens(front) + assignments + [token];
  }

  lemma OpExtends(front: seq<(Phrase, Node)>, ph: Phrase, op: Node)
    requires ValidFront(front + [(ph, op)])
    ensures ValidDraft(Within(front, ph, None))
    ensures Extends(Opening(front + [(ph, op)], []), OpToken(op), Within(front, ph, None))
  {
    LinkAppended(front, ph, op);
    OpSteps(front, ph, op);
  }

  lemma LinkAppended(front: seq<(Phrase, Node)>, ph: Phrase, op: Node)
    requires ValidFront(front + [(ph, op)])
    ensures ValidFront(front) && ValidLink(ph, op)
    ensures FrontNodes(front + [(ph, op)]) == FrontNodes(front) + [Linked(ph, op), op]
    ensures FrontTokens(front + [(ph, op)]) + [] == FrontTokens(front) + PhraseTokens(ph) + [] + [OpToken(op)]
  {
    var all := front + [(ph, op)];
    assert all[..|front|] == front && all[|front|] == (ph, op);
    assert forall i :: 0 <= i < |front| ==> all[i] == front[i];
    assert FrontTokens(all) + [] == FrontTokens(all);
    assert FrontTokens(front) + PhraseTokens(ph) + [] == FrontTokens(front) + PhraseTokens(ph);
  }

  lemma OpSteps(front: seq<(Phrase, Node)>, ph: Phrase, op: Node)
    requires ValidLink(ph, op)
    ensures Step(MachineOf(Within(front, ph, None)), OpToken(op))
         == Some(Machine(BEGIN, None, [], FrontNodes(front) + [Linked(ph, op), op]))
  {
    if ph.Simple? {
      UntouchedIffInherited(ph.items, Stdout);
    }
  }

  // ---------------------------------------------------------------- every draft is scanned

  lemma ScanOneMore(d: Draft, token: string, e: Draft)
    requires Extends(d, token, e) && Scan(START, DraftTokens(e)) == Some(MachineOf(e))
    ensures Scan(START, DraftTokens(d)) == Some(MachineOf(d))
  {
    assert DraftTokens(d)[..|DraftTokens(d)| - 1] == DraftTokens(e);
  }

  /** The draft one token shorter. */
  lemma Shorten(d: Draft) returns (token: string, e: Draft)
    requires ValidDraft(d) && d != Opening([], [])
    ensures ValidDraft(e) && Extends(d, token, e)
  {
    match d
    case Opening(front, assignments) =>
      if assignments != [] {
        var n := |assignments| - 1;
        token, e := assignments[n], Opening(front, assignments[..n]);
        assert assignments == assignments[..n] + [assignments[n]];
        AssignmentExtends(front, assignments[..n], token);
      } else {
        var n := |front| - 1;
        token, e := OpToken(front[n].1), Within(front[..n], front[n].0, None);
        assert front == front[..n] + [(front[n].0, front[n].1)];
        OpExtends(front[..n], front[n].0, front[n].1);
      }
    case Within(front, ph, sign) =>
      if sign.Some? {
        token, e := sign.value, Within(front, ph, None);
        SignExtends(front, ph, sign.value);
      } else if ph.Cd? {
        token := if ph.dir.Some? then ph.dir.value else "cd";
        e := if ph.dir.Some? then Within(front, Cd(None), None) else Opening(front, []);
        if ph.dir.Some? {
          DirExtends(front, token);
        } else {
          CdExtends(front);
        }
      } else if ph.items == [] {
        token, e := ph.name, Opening(front, ph.assignments);
        NameExtends(front, ph);
      } else {
        var n := |ph.items| - 1;
        var shorter, item := ph.(items := ph.items[..n]), ph.items[n];
        assert ph == WithItem(shorter, item);
        if item.Word? || item.Join? {
          token, e := ItemTokens(item)[0], Within(front, shorter, None);
          ItemExtends(front, shorter, item);
        } else {
          token, e := item.file, Within(front, shorter, Some(SignOf(item)));
          FileExtends(front, shorter, item);
        }
      }
  }

  lemma {:induction false} DraftScanned(d: Draft)
    requires ValidDraft(d)
    ensures Scan(START, DraftTokens(d)) == Some(MachineOf(d))
    decreases |DraftTokens(d)|
  {
    if d != Opening([], []) {
      var token, e := Shorten(d);
      DraftScanned(e);
      ScanOneMore(d, token, e);
    }
  }

  // ---------------------------------------------------------------- whatever is scanned is a draft

  lemma {:induction false} ScannedIsDraft(tokens: seq<string>) returns (d: Draft)
    requires Scan(START, tokens).Some?
    ensures ValidDraft(d) && DraftTokens(d) == tokens && MachineOf(d) == Scan(START, tokens).value
    decreases |tokens|
  {
    if tokens == [] {
      d := Opening([], []);
    } else {
      var n := |tokens| - 1;
      assert tokens == tokens[..n] + [tokens[n]];
      ScanSteps(tokens[..n], tokens[n]);
      var e := ScannedIsDraft(tokens[..n]);
      d := Lengthen(e, tokens[n]);
    }
  }

  lemma ScanSteps(front: seq<string>, token: string)
    requires Scan(START, front + [token]).Some?
    ensures Scan(START, front).Some? && Step(Scan(START, front).value, token) == Scan(START, front + [token])
  {
    assert (front + [token])[..|front|] == front;
  }

  /** A draft and a token the machine accepts after it make a draft. */
  lemma Lengthen(e: Draft, token: string) returns (d: Draft)
    requires ValidDraft(e) && Step(MachineOf(e), token).Some?
    ensures ValidDraft(d) && Extends(d, token, e)
  {
    match e
    case Opening(front, assignments) => d := LengthenOpening(front, assignments, token);
    case Within(front, ph, None) =>
      if ph.Cd? {
        d := LengthenCd(front, ph.dir, token);
      } else {
        d := LengthenCommand(front, ph, token);
      }
    case Within(front, ph, Some(sign)) =>
      var item := if sign == "<" then In(token) else if sign == ">" then Out(token) else Err(token);
      UntouchedIffInherited(ph.items, StdOf(item));
      ItemsLengthen(ph.items, item);
      d := Within(front, WithItem(ph, item), None);
      FileExtends(front, ph, item);
  }

  lemma ItemsLengthen(items: seq<Item>, item: Item)
    requires ValidItems(items) && (item.Word? ==> !IsOperator(item.text))
    requires StdOf(item) != NoStd ==> forall i :: 0 <= i < |items| ==> StdOf(items[i]) != StdOf(item)
    ensures ValidItems(items + [item])
  {
  }

  lemma LengthenOpening(front: seq<(Phrase, Node)>, assignments: seq<string>, token: string) returns (d: Draft)
    requires ValidDraft(Opening(front, assignments)) && Step(MachineOf(Opening(front, assignments)), token).Some?
    ensures ValidDraft(d) && Extends(d, token, Opening(front, assignments))
  {
    EnvOfSome(assignments);
    if EnvMatch(token).Some? {
      d := Opening(front, assignments + [token]);
      AssignmentExtends(front, assignments, token);
    } else if token == "cd" {
      d := Within(front, Cd(None), None);
      CdExtends(front);
    } else {
      d := Within(front, Simple(assignments, token, []), None);
      NameExtends(front, Simple(assignments, token, []));
    }
  }

  lemma LengthenCd(front: seq<(Phrase, Node)>, dir: Option<string>, token: string) returns (d: Draft)
    requires ValidDraft(Within(front, Cd(dir), None)) && Step(MachineOf(Within(front, Cd(dir), None)), token).Some?
    ensures ValidDraft(d) && Extends(d, token, Within(front, Cd(dir), None))
  {
    if token == "&&" {
      d := Opening(front + [(Cd(dir), And)], []);
      OpExtends(front, Cd(dir), And);
    } else {
      d := Within(front, Cd(Some(token)), None);
      DirExtends(front, token);
    }
  }

  lemma LengthenCommand(front: seq<(Phrase, Node)>, ph: Phrase, token: string) returns (d: Draft)
    requires ph.Simple? && ValidDraft(Within(front, ph, None)) && Step(MachineOf(Within(front, ph, None)), token).Some?
    ensures ValidDraft(d) && Extends(d, token, Within(front, ph, None))
  {
    if IsSign(token) {
      d := Within(front, ph, Some(token));
      SignExtends(front, ph, token);
    } else if token == "|" || token == "&&" || token == "||" {
      var op := if token == "|" then Pipe else if token == "&&" then And else Or;
      LinkAccepted(front, ph, op);
      d := Opening(front + [(ph, op)], []);
      OpExtends(front, ph, op);
    } else {
      var item := if token == "2>&1" then Join else Word(token);
      ItemAccepted(front, ph, item);
      d := Within(front, WithItem(ph, item), None);
      ItemExtends(front, ph, item);
    }
  }

  lemma LinkAccepted(front: seq<(Phrase, Node)>, ph: Phrase, op: Node)
    requires ph.Simple? && ValidDraft(Within(front, ph, None)) && (op.Pipe? || op.And? || op.Or?)
    requires Continue(MachineOf(Within(front, ph, None)), NodeOf(ph), OpToken(op)).Some?
    ensures ValidFront(front + [(ph, op)])
  {
    UntouchedIffInherited(ph.items, Stdout);
  }

  lemma ItemAccepted(front: seq<(Phrase, Node)>, ph: Phrase, item: Item)
    requires ph.Simple? && ValidDraft(Within(front, ph, None))
    requires item.Join? || (item.Word? && !IsOperator(item.text))
    requires Continue(MachineOf(Within(front, ph, None)), NodeOf(ph), ItemTokens(item)[0]).Some?
    ensures ValidDraft(Within(front, WithItem(ph, item), None))
  {
    UntouchedIffInherited(ph.items, Stderr);
    ItemsLengthen(ph.items, item);
  }

  // ---------------------------------------------------------------- the parser and the grammar

  ghost predicate Reads(s: Sentence, tokens: seq<string>, nodes: seq<Node>) {
    ValidSentence(s) && SentenceTokens(s) == tokens && SentenceNodes(s) == nodes
  }

  /** The parser gives a node list exactly when the tokens are a sentence of the grammar with that meaning. */
  lemma ParseIffSentence(tokens: seq<string>, nodes: seq<Node>)
    ensures ParseTokens(tokens) == Parsed(nodes) <==> exists s :: Reads(s, tokens, nodes)
  {
    if ParseTokens(tokens) == Parsed(nodes) {
      var d := ScannedIsDraft(tokens);
      var s := Sentence(d.front, d.phrase, d.sign);
      assert Reads(s, tokens, nodes);
    }
    if s :| Reads(s, tokens, nodes) {
      DraftScanned(Within(s.front, s.last, s.dangling));
    }
  }

  /** An assertion of the parser fails exactly when the tokens are no sentence at all. */
  lemma RaisesIffNoSentence(tokens: seq<string>)
    ensures ParseTokens(tokens).AssertionError? <==> forall s :: ValidSentence(s) ==> SentenceTokens(s) != tokens
  {
    if ParseTokens(tokens).Parsed? {
      ParseIffSentence(tokens, ParseTokens(tokens).nodes);
    }
    if s :| ValidSentence(s) && SentenceTokens(s) == tokens {
      assert Reads(s, tokens, SentenceNodes(s));
      ParseIffSentence(tokens, SentenceNodes(s));
    }
  }
}
