/** A printer that the shell's parser inverts, and with it the commands that can be typed at all. */
module ShellPrint {
  import opened ShellLex
  import opened ShellGrammar

  function Core(t: Cmd<string>): (r: Cmd<string>)
    ensures !r.RedirCmd? && (t.RedirCmd? ==> r < t) && (!t.RedirCmd? ==> r == t)
  {
    if t.RedirCmd? then Core(t.cmd) else t
  }

  function RedirItems(t: Cmd<string>, more: Items): (r: Items) {
    if t.RedirCmd? then RedirItems(t.cmd, Redir(Sym(if t.input then '<' else '>'), t.file, more)) else more
  }

  function WordItems(argv: seq<string>, more: Items): (r: Items) {
    if argv == [] then more else Arg(argv[0], WordItems(argv[1..], more))
  }

  /** The four levels of the grammar, and how far each is from taking t apart. */
  function Rank(t: Cmd<string>, level: nat): (r: nat) {
    var own := if t.PipeCmd? then 1 else if t.BackCmd? then 2 else if t.ListCmd? then 3 else 0;
    (level + 4 - own) % 4
  }

  /** A derivation of a given command, with parentheses where it needs them. */
  function AtomOf(t: Cmd<string>): (r: Atom)
    decreases t, Rank(t, 0)
  {
    var core := Core(t);
    if core.ExecCmd? then Simple(WordItems(core.argv, RedirItems(t, NoItems)))
    else Block(JobsOf(core), RedirItems(t, NoItems))
  }

  function PipelineOf(t: Cmd<string>): (r: Pipeline)
    decreases t, Rank(t, 1)
  {
    if t.PipeCmd? then Pipe(AtomOf(t.left), PipelineOf(t.right)) else One(AtomOf(t))
  }

  function JobOf(t: Cmd<string>): (r: Job)
    decreases t, Rank(t, 2)
  {
    if t.BackCmd? then Amp(JobOf(t.cmd)) else Fore(PipelineOf(t))
  }

  function JobsOf(t: Cmd<string>): (r: Jobs)
    decreases t, Rank(t, 3)
  {
    if t.ListCmd? then Then(JobOf(t.left), JobsOf(t.right)) else Last(JobOf(t))
  }

  function Print(t: Cmd<string>): (r: seq<Token>) {
    JobsToks(JobsOf(t), [])
  }

  predicate GoodWords(ws: seq<string>) {
    forall i :: 0 <= i < |ws| ==> GoodWord(ws[i])
  }

  /** What the parser can produce: at most nine words to an exec command, all of them scannable. */
  predicate Producible(t: Cmd<string>) {
    match t
    case ExecCmd(argv) => |argv| < MAXARGS && GoodWords(argv)
    case RedirCmd(c, file, _) => Producible(c) && GoodWord(file)
    case PipeCmd(l, r) => Producible(l) && Producible(r)
    case ListCmd(l, r) => Producible(l) && Producible(r)
    case BackCmd(c) => Producible(c)
  }

  lemma {:induction false} ProducibleCore(t: Cmd<string>)
    requires Producible(t)
    ensures Producible(Core(t))
  {
    if t.RedirCmd? {
      ProducibleCore(t.cmd);
    }
  }

  lemma {:induction false} RedirItemsOf(t: Cmd<string>, more: Items)
    requires OpsOk(more)
    ensures OpsOk(RedirItems(t, more)) && Args(RedirItems(t, more)) == Args(more)
    ensures Wrap(Core(t), RedirItems(t, more)) == Wrap(t, more)
  {
    if t.RedirCmd? {
      RedirItemsOf(t.cmd, Redir(Sym(if t.input then '<' else '>'), t.file, more));
    }
  }

  lemma {:induction false} WordItemsOf(argv: seq<string>, more: Items, cmd: Cmd<string>)
    ensures (OpsOk(WordItems(argv, more)) <==> OpsOk(more)) && Args(WordItems(argv, more)) == argv + Args(more)
    ensures Wrap(cmd, WordItems(argv, more)) == Wrap(cmd, more)
  {
    if argv != [] {
      var first, others := argv[0], argv[1..];
      WordItemsOf(others, more, cmd);
      assert argv + Args(more) == [first] + (others + Args(more));
    }
  }

  lemma {:induction false} AtomOfMeans(t: Cmd<string>)
    requires Producible(t)
    ensures AtomOk(AtomOf(t)) && AtomCmd(AtomOf(t)) == t
    decreases t, Rank(t, 0)
  {
    var core, items := Core(t), RedirItems(t, NoItems);
    ProducibleCore(t);
    RedirItemsOf(t, NoItems);
    if core.ExecCmd? {
      WordItemsOf(core.argv, items, core);
      assert core.argv + [] == core.argv;
    } else {
      JobsOfMeans(core);
    }
  }

  lemma {:induction false} PipelineOfMeans(t: Cmd<string>)
    requires Producible(t)
    ensures PipelineOk(PipelineOf(t)) && PipelineCmd(PipelineOf(t)) == t
    decreases t, Rank(t, 1)
  {
    if t.PipeCmd? {
      AtomOfMeans(t.left);
      PipelineOfMeans(t.right);
    } else {
      AtomOfMeans(t);
    }
  }

  lemma {:induction false} JobOfMeans(t: Cmd<string>)
    requires Producible(t)
    ensures JobOk(JobOf(t)) && JobCmd(JobOf(t)) == t
    decreases t, Rank(t, 2)
  {
    if t.BackCmd? {
      JobOfMeans(t.cmd);
    } else {
      PipelineOfMeans(t);
    }
  }

  lemma {:induction false} JobsOfMeans(t: Cmd<string>)
    requires Producible(t)
    ensures JobsOk(JobsOf(t)) && JobsCmd(JobsOf(t)) == t
    decreases t, Rank(t, 3)
  {
    if t.ListCmd? {
      JobOfMeans(t.left);
      JobsOfMeans(t.right);
    } else {
      JobOfMeans(t);
    }
  }

  /** The parser inverts the printer, on every command tree it can produce at all. */
  lemma PrintParse(t: Cmd<string>)
    requires Producible(t)
    ensures ParseCmd(Print(t)) == Ok(t, [])
  {
    JobsOfMeans(t);
    JobsParse(JobsOf(t), []);
  }

  // ----- Which commands can be parsed at all -----

  lemma GoodFirst(tok: Token, rest: seq<Token>)
    ensures GoodTokens([tok] + rest) <==> GoodToken(tok) && GoodTokens(rest)
  {
    var all := [tok] + rest;
    assert all[0] == tok && forall i :: 0 <= i < |rest| ==> all[i + 1] == rest[i];
  }

  predicate GoodFiles(items: Items) {
    match items
    case NoItems => true
    case Arg(_, more) => GoodFiles(more)
    case Redir(_, file, more) => GoodWord(file) && GoodFiles(more)
  }

  lemma GoodWordsFirst(w: string, ws: seq<string>)
    ensures GoodWords([w] + ws) <==> GoodWord(w) && GoodWords(ws)
  {
    var all := [w] + ws;
    assert all[0] == w && forall i :: 0 <= i < |ws| ==> all[i + 1] == ws[i];
  }

  lemma {:induction false} ItemsGood(items: Items, rest: seq<Token>)
    requires OpsOk(items)
    ensures GoodTokens(ItemsToks(items, rest)) <==> GoodWords(Args(items)) && GoodFiles(items) && GoodTokens(rest)
  {
    match items
    case NoItems =>
    case Arg(w, more) =>
      GoodFirst(Word(w), ItemsToks(more, rest));
      GoodWordsFirst(w, Args(more));
      ItemsGood(more, rest);
    case Redir(op, file, more) =>
      var toks := ItemsToks(more, rest);
      assert ItemsToks(items, rest) == [op] + ([Word(file)] + toks);
      GoodFirst(op, [Word(file)] + toks);
      GoodFirst(Word(file), toks);
      ItemsGood(more, rest);
  }

  lemma {:induction false} WrapGood(cmd: Cmd<string>, items: Items)
    ensures Producible(Wrap(cmd, items)) <==> Producible(cmd) && GoodFiles(items)
    decreases items
  {
    match items
    case NoItems =>
    case Arg(_, more) => WrapGood(cmd, more);
    case Redir(op, file, more) => WrapGood(RedirCmd(cmd, file, op == Sym('<')), more);
  }

  lemma {:induction false} AtomGood(a: Atom, rest: seq<Token>)
    requires AtomOk(a)
    ensures GoodTokens(AtomToks(a, rest)) <==> Producible(AtomCmd(a)) && GoodTokens(rest)
  {
    match a
    case Simple(items) =>
      ItemsGood(items, rest);
      WrapGood(ExecCmd(Args(items)), items);
    case Block(line, redirs) =>
      var after := [Sym(')')] + ItemsToks(redirs, rest);
      GoodFirst(Sym('('), JobsToks(line, after));
      JobsGood(line, after);
      GoodFirst(Sym(')'), ItemsToks(redirs, rest));
      ItemsGood(redirs, rest);
      WrapGood(JobsCmd(line), redirs);
  }

  lemma {:induction false} PipelineGood(p: Pipeline, rest: seq<Token>)
    requires PipelineOk(p)
    ensures GoodTokens(PipelineToks(p, rest)) <==> Producible(PipelineCmd(p)) && GoodTokens(rest)
  {
    match p
    case One(atom) =>
      AtomGood(atom, rest);
    case Pipe(left, right) =>
      AtomGood(left, [Sym('|')] + PipelineToks(right, rest));
      GoodFirst(Sym('|'), PipelineToks(right, rest));
      PipelineGood(right, rest);
  }

  lemma {:induction false} JobGood(j: Job, rest: seq<Token>)
    requires JobOk(j)
    ensures GoodTokens(JobToks(j, rest)) <==> Producible(JobCmd(j)) && GoodTokens(rest)
  {
    match j
    case Fore(pipe) =>
      PipelineGood(pipe, rest);
    case Amp(job) =>
      JobGood(job, [Sym('&')] + rest);
      GoodFirst(Sym('&'), rest);
  }

  lemma {:induction false} JobsGood(l: Jobs, rest: seq<Token>)
    requires JobsOk(l)
    ensures GoodTokens(JobsToks(l, rest)) <==> Producible(JobsCmd(l)) && GoodTokens(rest)
  {
    match l
    case Last(job) =>
      JobGood(job, rest);
    case Then(first, others) =>
      JobGood(first, [Sym(';')] + JobsToks(others, rest));
      GoodFirst(Sym(';'), JobsToks(others, rest));
      JobsGood(others, rest);
  }

  /** Spelling out any producible command and parsing the text gives the command back. */
  lemma TextRoundTrip(t: Cmd<string>)
    requires Producible(t)
    ensures forall i :: 0 <= i < |Spell(Print(t))| ==> Spell(Print(t))[i] != '\0'
    ensures ParseCmd(Scan(Spell(Print(t)))) == Ok(t, [])
  {
    JobsOfMeans(t);
    JobsGood(JobsOf(t), []);
    SpellScan(Print(t));
    PrintParse(t);
  }

  /** The commands some line parses to are exactly the producible ones. */
  lemma ParserRange(t: Cmd<string>)
    ensures Producible(t) <==> exists line: Line :: ParseCmd(Scan(line)) == Ok(t, [])
  {
    if Producible(t) {
      TextRoundTrip(t);
      var line: Line := Spell(Print(t));
      assert ParseCmd(Scan(line)) == Ok(t, []);
    }
    if line: Line :| ParseCmd(Scan(line)) == Ok(t, []) {
      var l := JobsDerived(Scan(line));
      JobsGood(l, []);
    }
  }
}
