/** The shell's grammar on tokens: what sh.c's parse functions do, and the grammar they are parsers of. */
module ShellGrammar {
  import opened ShellLex

  const MAXARGS := 10

  /** A parsed command; W is how a word is kept.  `>` and `>>` open the file the same way. */
  datatype Cmd<W> =
    | ExecCmd(argv: seq<W>)
    | RedirCmd(cmd: Cmd<W>, file: W, input: bool)
    | PipeCmd(left: Cmd<W>, right: Cmd<W>)
    | ListCmd(left: Cmd<W>, right: Cmd<W>)
    | BackCmd(cmd: Cmd<W>)

  datatype Parsed = Ok(cmd: Cmd<string>, rest: seq<Token>) | Fail

  predicate Starts(toks: seq<Token>, c: char) {
    toks != [] && toks[0] == Sym(c)
  }

  predicate AtRedir(toks: seq<Token>) {
    Starts(toks, '<') || Starts(toks, '>') || (toks != [] && toks[0].Append?)
  }

  predicate AtArgsEnd(toks: seq<Token>) {
    toks == [] || Starts(toks, '|') || Starts(toks, ')') || Starts(toks, '&') || Starts(toks, ';')
  }

  function ParseRedirs(cmd: Cmd<string>, toks: seq<Token>): (r: Parsed)
    ensures r.Ok? ==> |r.rest| <= |toks| && !AtRedir(r.rest)
    decreases |toks|
  {
    if !AtRedir(toks) then Ok(cmd, toks)
    else if |toks| >= 2 && toks[1].Word? then ParseRedirs(RedirCmd(cmd, toks[1].w, toks[0] == Sym('<')), toks[2..])
    else Fail
  }

  /** `cmd->argv[argc] = q` reaches the exec command under the redirections already parsed. */
  function AddArg<W>(cmd: Cmd<W>, w: W): (r: Cmd<W>) {
    match cmd
    case ExecCmd(argv) => ExecCmd(argv + [w])
    case RedirCmd(c, file, input) => RedirCmd(AddArg(c, w), file, input)
    case _ => cmd
  }

  function ParseArgs(cmd: Cmd<string>, argc: nat, toks: seq<Token>): (r: Parsed)
    ensures r.Ok? ==> |r.rest| <= |toks| && AtArgsEnd(r.rest)
    decreases |toks|
  {
    if AtArgsEnd(toks) then Ok(cmd, toks)
    else if !toks[0].Word? || argc + 1 >= MAXARGS then Fail
    else
      var next := ParseRedirs(AddArg(cmd, toks[0].w), toks[1..]);
      if next.Fail? then Fail else ParseArgs(next.cmd, argc + 1, next.rest)
  }

  function ParseExec(toks: seq<Token>): (r: Parsed)
    ensures r.Ok? ==> |r.rest| <= |toks|
    decreases |toks|, 1
  {
    if Starts(toks, '(') then ParseBlock(toks)
    else
      var first := ParseRedirs(ExecCmd([]), toks);
      if first.Fail? then Fail else ParseArgs(first.cmd, 0, first.rest)
  }

  function ParseBlock(toks: seq<Token>): (r: Parsed)
    requires Starts(toks, '(')
    ensures r.Ok? ==> |r.rest| <= |toks|
    decreases |toks|, 0
  {
    var body := ParseLine(toks[1..]);
    if body.Fail? || !Starts(body.rest, ')') then Fail else ParseRedirs(body.cmd, body.rest[1..])
  }

  function ParsePipe(toks: seq<Token>): (r: Parsed)
    ensures r.Ok? ==> |r.rest| <= |toks|
    decreases |toks|, 2
  {
    var first := ParseExec(toks);
    if first.Fail? || !Starts(first.rest, '|') then first
    else
      var more := ParsePipe(first.rest[1..]);
      if more.Fail? then Fail else Ok(PipeCmd(first.cmd, more.cmd), more.rest)
  }

  function ParseBacks(cmd: Cmd<string>, toks: seq<Token>): (r: Parsed)
    ensures r.Ok? && |r.rest| <= |toks| && !Starts(r.rest, '&')
    decreases |toks|
  {
    if Starts(toks, '&') then ParseBacks(BackCmd(cmd), toks[1..]) else Ok(cmd, toks)
  }

  function ParseLine(toks: seq<Token>): (r: Parsed)
    ensures r.Ok? ==> |r.rest| <= |toks|
    decreases |toks|, 3
  {
    var first := ParsePipe(toks);
    if first.Fail? then Fail
    else
      var backed := ParseBacks(first.cmd, first.rest);
      if !Starts(backed.rest, ';') then backed
      else
        var more := ParseLine(backed.rest[1..]);
        if more.Fail? then Fail else Ok(ListCmd(backed.cmd, more.cmd), more.rest)
  }

  /** `parsecmd`: the whole input or a syntax error. */
  function ParseCmd(toks: seq<Token>): (r: Parsed)
    ensures r.Ok? ==> r.rest == []
  {
    var line := ParseLine(toks);
    if line.Ok? && line.rest == [] then line else Fail
  }

  // ----- The grammar: its derivations, what they spell and what they mean -----

  /** Words and redirections in any order. */
  datatype Items =
    | NoItems
    | Arg(w: string, more: Items)
    | Redir(op: Token, file: string, more: Items)

  datatype Atom = Simple(items: Items) | Block(line: Jobs, redirs: Items)
  datatype Pipeline = One(atom: Atom) | Pipe(left: Atom, right: Pipeline)
  datatype Job = Fore(pipe: Pipeline) | Amp(job: Job)
  datatype Jobs = Last(job: Job) | Then(first: Job, others: Jobs)

  function Args(items: Items): (r: seq<string>) {
    match items
    case NoItems => []
    case Arg(w, more) => [w] + Args(more)
    case Redir(_, _, more) => Args(more)
  }

  predicate OpsOk(items: Items) {
    match items
    case NoItems => true
    case Arg(_, more) => OpsOk(more)
    case Redir(op, _, more) => (op == Sym('<') || op == Sym('>') || op == Append) && OpsOk(more)
  }

  /** At most nine words to a simple command, and none but files after a block. */
  predicate AtomOk(a: Atom) {
    match a
    case Simple(items) => OpsOk(items) && |Args(items)| < MAXARGS
    case Block(line, redirs) => JobsOk(line) && OpsOk(redirs) && Args(redirs) == []
  }

  predicate PipelineOk(p: Pipeline) {
    match p
    case One(atom) => AtomOk(atom)
    case Pipe(left, right) => AtomOk(left) && PipelineOk(right)
  }

  predicate JobOk(j: Job) {
    match j
    case Fore(pipe) => PipelineOk(pipe)
    case Amp(job) => JobOk(job)
  }

  predicate JobsOk(l: Jobs) {
    match l
    case Last(job) => JobOk(job)
    case Then(first, others) => JobOk(first) && JobsOk(others)
  }

  /** What is spelled, with rest behind it. */
  function ItemsToks(items: Items, rest: seq<Token>): (r: seq<Token>) {
    match items
    case NoItems => rest
    case Arg(w, more) => [Word(w)] + ItemsToks(more, rest)
    case Redir(op, file, more) => [op, Word(file)] + ItemsToks(more, rest)
  }

  function AtomToks(a: Atom, rest: seq<Token>): (r: seq<Token>) {
    match a
    case Simple(items) => ItemsToks(items, rest)
    case Block(line, redirs) => [Sym('(')] + JobsToks(line, [Sym(')')] + ItemsToks(redirs, rest))
  }

  function PipelineToks(p: Pipeline, rest: seq<Token>): (r: seq<Token>) {
    match p
    case One(atom) => AtomToks(atom, rest)
    case Pipe(left, right) => AtomToks(left, [Sym('|')] + PipelineToks(right, rest))
  }

  function JobToks(j: Job, rest: seq<Token>): (r: seq<Token>) {
    match j
    case Fore(pipe) => PipelineToks(pipe, rest)
    case Amp(job) => JobToks(job, [Sym('&')] + rest)
  }

  function JobsToks(l: Jobs, rest: seq<Token>): (r: seq<Token>) {
    match l
    case Last(job) => JobToks(job, rest)
    case Then(first, others) => JobToks(first, [Sym(';')] + JobsToks(others, rest))
  }

  /** A command inside the redirections among items, the last outermost: an input is what `<` asks for. */
  function Wrap(cmd: Cmd<string>, items: Items): (r: Cmd<string>)
    decreases items
  {
    match items
    case NoItems => cmd
    case Arg(_, more) => Wrap(cmd, more)
    case Redir(op, file, more) => Wrap(RedirCmd(cmd, file, op == Sym('<')), more)
  }

  function AtomCmd(a: Atom): (r: Cmd<string>) {
    match a
    case Simple(items) => Wrap(ExecCmd(Args(items)), items)
    case Block(line, redirs) => Wrap(JobsCmd(line), redirs)
  }

  function PipelineCmd(p: Pipeline): (r: Cmd<string>) {
    match p
    case One(atom) => AtomCmd(atom)
    case Pipe(left, right) => PipeCmd(AtomCmd(left), PipelineCmd(right))
  }

  function JobCmd(j: Job): (r: Cmd<string>) {
    match j
    case Fore(pipe) => PipelineCmd(pipe)
    case Amp(job) => BackCmd(JobCmd(job))
  }

  function JobsCmd(l: Jobs): (r: Cmd<string>) {
    match l
    case Last(job) => JobCmd(job)
    case Then(first, others) => ListCmd(JobCmd(first), JobsCmd(others))
  }

  // ----- Whatever has a derivation is parsed to its meaning -----

  /** Several words at once into the exec command under some redirections. */
  function AddArgs(cmd: Cmd<string>, ws: seq<string>): (r: Cmd<string>) {
    match cmd
    case ExecCmd(argv) => ExecCmd(argv + ws)
    case RedirCmd(c, file, input) => RedirCmd(AddArgs(c, ws), file, input)
    case _ => cmd
  }

  lemma {:induction false} AddArgsFirst(cmd: Cmd<string>, w: string, ws: seq<string>)
    ensures AddArgs(AddArg(cmd, w), ws) == AddArgs(cmd, [w] + ws)
  {
    match cmd
    case ExecCmd(argv) => assert argv + [w] + ws == argv + ([w] + ws);
    case RedirCmd(c, _, _) => AddArgsFirst(c, w, ws);
    case _ =>
  }

  lemma {:induction false} AddArgsNone(cmd: Cmd<string>)
    ensures AddArgs(cmd, []) == cmd
  {
    match cmd
    case ExecCmd(argv) => assert argv + [] == argv;
    case RedirCmd(c, _, _) => AddArgsNone(c);
    case _ =>
  }

  /** `parseexec` past its first test. */
  function ParseItems(cmd: Cmd<string>, argc: nat, toks: seq<Token>): (r: Parsed) {
    var first := ParseRedirs(cmd, toks);
    if first.Fail? then Fail else ParseArgs(first.cmd, argc, first.rest)
  }

  lemma ItemsStep(cmd: Cmd<string>, argc: nat, toks: seq<Token>)
    ensures AtRedir(toks) ==>
              ParseItems(cmd, argc, toks)
              == if |toks| < 2 || !toks[1].Word? then Fail
                 else ParseItems(RedirCmd(cmd, toks[1].w, toks[0] == Sym('<')), argc, toks[2..])
    ensures toks != [] && toks[0].Word? ==>
              ParseItems(cmd, argc, toks)
              == if argc + 1 >= MAXARGS then Fail else ParseItems(AddArg(cmd, toks[0].w), argc + 1, toks[1..])
    ensures AtArgsEnd(toks) ==> ParseItems(cmd, argc, toks) == Ok(cmd, toks)
    ensures !AtArgsEnd(toks) && !AtRedir(toks) && !toks[0].Word? ==> ParseItems(cmd, argc, toks).Fail?
  {
  }

  lemma {:induction false} ItemsParse(cmd: Cmd<string>, argc: nat, items: Items, rest: seq<Token>)
    requires OpsOk(items) && argc + |Args(items)| < MAXARGS && AtArgsEnd(rest)
    ensures ParseItems(cmd, argc, ItemsToks(items, rest)) == Ok(Wrap(AddArgs(cmd, Args(items)), items), rest)
    decreases items
  {
    var toks := ItemsToks(items, rest);
    ItemsStep(cmd, argc, toks);
    match items
    case NoItems =>
      AddArgsNone(cmd);
    case Arg(w, more) =>
      assert toks[1..] == ItemsToks(more, rest);
      AddArgsFirst(cmd, w, Args(more));
      ItemsParse(AddArg(cmd, w), argc + 1, more, rest);
    case Redir(op, file, more) =>
      assert toks[2..] == ItemsToks(more, rest);
      ItemsParse(RedirCmd(cmd, file, op == Sym('<')), argc, more, rest);
  }

  lemma {:induction false} RedirsParse(cmd: Cmd<string>, items: Items, rest: seq<Token>)
    requires OpsOk(items) && Args(items) == [] && AtArgsEnd(rest)
    ensures ParseRedirs(cmd, ItemsToks(items, rest)) == Ok(Wrap(cmd, items), rest)
    decreases items
  {
    if items.Redir? {
      assert ItemsToks(items, rest)[2..] == ItemsToks(items.more, rest);
      RedirsParse(RedirCmd(cmd, items.file, items.op == Sym('<')), items.more, rest);
    }
  }

  lemma ItemsNotBlock(items: Items, rest: seq<Token>)
    requires OpsOk(items) && AtArgsEnd(rest)
    ensures !Starts(ItemsToks(items, rest), '(')
  {
  }

  lemma {:induction false} AtomParse(a: Atom, rest: seq<Token>)
    requires AtomOk(a) && AtArgsEnd(rest)
    ensures ParseExec(AtomToks(a, rest)) == Ok(AtomCmd(a), rest)
  {
    match a
    case Simple(items) =>
      ItemsNotBlock(items, rest);
      ItemsParse(ExecCmd([]), 0, items, rest);
      assert AddArgs(ExecCmd([]), Args(items)) == ExecCmd(Args(items));
      ParseExecItems(AtomToks(a, rest));
    case Block(line, redirs) =>
      var after := [Sym(')')] + ItemsToks(redirs, rest);
      JobsParse(line, after);
      assert after[1..] == ItemsToks(redirs, rest);
      assert AtomToks(a, rest)[1..] == JobsToks(line, after);
      RedirsParse(JobsCmd(line), redirs, rest);
  }

  lemma ParseExecItems(toks: seq<Token>)
    requires !Starts(toks, '(')
    ensures ParseExec(toks) == ParseItems(ExecCmd([]), 0, toks)
  {
  }

  /** What may come after a pipeline, and after a line. */
  predicate AtPipeEnd(toks: seq<Token>) {
    toks == [] || Starts(toks, ')') || Starts(toks, '&') || Starts(toks, ';')
  }

  predicate AtLineEnd(toks: seq<Token>) {
    toks == [] || Starts(toks, ')')
  }

  lemma {:induction false} PipelineParse(p: Pipeline, rest: seq<Token>)
    requires PipelineOk(p) && AtPipeEnd(rest)
    ensures ParsePipe(PipelineToks(p, rest)) == Ok(PipelineCmd(p), rest)
  {
    match p
    case One(atom) =>
      AtomParse(atom, rest);
    case Pipe(left, right) =>
      var after := [Sym('|')] + PipelineToks(right, rest);
      AtomParse(left, after);
      assert after[1..] == PipelineToks(right, rest);
      PipelineParse(right, rest);
  }

  /** A job's pipeline and its ampersands. */
  lemma {:induction false} JobParse(j: Job, rest: seq<Token>)
    requires JobOk(j) && AtPipeEnd(rest)
    ensures var first := ParsePipe(JobToks(j, rest));
      first.Ok? && ParseBacks(first.cmd, first.rest) == ParseBacks(JobCmd(j), rest)
  {
    match j
    case Fore(pipe) =>
      PipelineParse(pipe, rest);
    case Amp(job) =>
      var after := [Sym('&')] + rest;
      JobParse(job, after);
      assert after[1..] == rest;
  }

  lemma {:induction false} JobsParse(l: Jobs, rest: seq<Token>)
    requires JobsOk(l) && AtLineEnd(rest)
    ensures ParseLine(JobsToks(l, rest)) == Ok(JobsCmd(l), rest)
  {
    match l
    case Last(job) =>
      JobParse(job, rest);
    case Then(first, others) =>
      var after := [Sym(';')] + JobsToks(others, rest);
      JobParse(first, after);
      assert after[1..] == JobsToks(others, rest);
      JobsParse(others, rest);
  }

  // ----- Whatever is parsed has a derivation -----

  lemma {:induction false} ItemsDerived(cmd: Cmd<string>, argc: nat, toks: seq<Token>) returns (items: Items)
    requires argc < MAXARGS && ParseItems(cmd, argc, toks).Ok?
    ensures OpsOk(items) && argc + |Args(items)| < MAXARGS
    ensures toks == ItemsToks(items, ParseItems(cmd, argc, toks).rest)
    ensures ParseItems(cmd, argc, toks).cmd == Wrap(AddArgs(cmd, Args(items)), items)
    ensures AtArgsEnd(ParseItems(cmd, argc, toks).rest)
    decreases |toks|
  {
    ItemsStep(cmd, argc, toks);
    if AtRedir(toks) {
      var more := ItemsDerived(RedirCmd(cmd, toks[1].w, toks[0] == Sym('<')), argc, toks[2..]);
      items := Redir(toks[0], toks[1].w, more);
    } else if AtArgsEnd(toks) {
      items := NoItems;
      AddArgsNone(cmd);
    } else {
      var more := ItemsDerived(AddArg(cmd, toks[0].w), argc + 1, toks[1..]);
      items := Arg(toks[0].w, more);
      AddArgsFirst(cmd, toks[0].w, Args(more));
    }
  }

  lemma {:induction false} RedirsDerived(cmd: Cmd<string>, toks: seq<Token>) returns (items: Items)
    requires ParseRedirs(cmd, toks).Ok?
    ensures OpsOk(items) && Args(items) == []
    ensures toks == ItemsToks(items, ParseRedirs(cmd, toks).rest) && ParseRedirs(cmd, toks).cmd == Wrap(cmd, items)
    decreases |toks|
  {
    if AtRedir(toks) {
      var more := RedirsDerived(RedirCmd(cmd, toks[1].w, toks[0] == Sym('<')), toks[2..]);
      items := Redir(toks[0], toks[1].w, more);
    } else {
      items := NoItems;
    }
  }

  lemma {:induction false} AtomDerived(toks: seq<Token>) returns (a: Atom)
    requires ParseExec(toks).Ok?
    ensures AtomOk(a) && toks == AtomToks(a, ParseExec(toks).rest) && ParseExec(toks).cmd == AtomCmd(a)
    decreases |toks|, 0
  {
    if Starts(toks, '(') {
      var body := ParseLine(toks[1..]);
      var line := JobsDerived(toks[1..]);
      var redirs := RedirsDerived(body.cmd, body.rest[1..]);
      a := Block(line, redirs);
      assert body.rest == [Sym(')')] + body.rest[1..];
      assert toks == [Sym('(')] + toks[1..];
    } else {
      ParseExecItems(toks);
      var items := ItemsDerived(ExecCmd([]), 0, toks);
      a := Simple(items);
      assert AddArgs(ExecCmd([]), Args(items)) == ExecCmd(Args(items));
    }
  }

  lemma {:induction false} PipelineDerived(toks: seq<Token>) returns (p: Pipeline)
    requires ParsePipe(toks).Ok?
    ensures PipelineOk(p) && toks == PipelineToks(p, ParsePipe(toks).rest) && ParsePipe(toks).cmd == PipelineCmd(p)
    decreases |toks|, 1
  {
    var first := ParseExec(toks);
    var atom := AtomDerived(toks);
    if Starts(first.rest, '|') {
      var more := PipelineDerived(first.rest[1..]);
      p := Pipe(atom, more);
      assert first.rest == [Sym('|')] + first.rest[1..];
    } else {
      p := One(atom);
    }
  }

  lemma {:induction false} JobDerived(job: Job, toks: seq<Token>) returns (j: Job)
    requires JobOk(job)
    ensures var r := ParseBacks(JobCmd(job), toks);
      JobOk(j) && JobToks(job, toks) == JobToks(j, r.rest) && r.cmd == JobCmd(j)
    decreases |toks|
  {
    j := job;
    if Starts(toks, '&') {
      assert toks == [Sym('&')] + toks[1..];
      j := JobDerived(Amp(job), toks[1..]);
    }
  }

  lemma {:induction false} JobsDerived(toks: seq<Token>) returns (l: Jobs)
    requires ParseLine(toks).Ok?
    ensures JobsOk(l) && toks == JobsToks(l, ParseLine(toks).rest) && ParseLine(toks).cmd == JobsCmd(l)
    decreases |toks|, 2
  {
    var first := ParsePipe(toks);
    var pipe := PipelineDerived(toks);
    var job := JobDerived(Fore(pipe), first.rest);
    var backed := ParseBacks(first.cmd, first.rest);
    if Starts(backed.rest, ';') {
      var more := JobsDerived(backed.rest[1..]);
      l := Then(job, more);
      assert backed.rest == [Sym(';')] + backed.rest[1..];
    } else {
      l := Last(job);
    }
  }

  /** l derives the command t from toks. */
  ghost predicate Derives(l: Jobs, toks: seq<Token>, t: Cmd<string>) {
    JobsOk(l) && JobsToks(l, []) == toks && JobsCmd(l) == t
  }

  /** The parser accepts exactly the lines of the grammar, and gives each its meaning. */
  lemma ParserIsGrammar(toks: seq<Token>, t: Cmd<string>)
    ensures ParseCmd(toks) == Ok(t, []) <==> exists l :: Derives(l, toks, t)
  {
    if ParseCmd(toks) == Ok(t, []) {
      var l := JobsDerived(toks);
      assert Derives(l, toks, t);
    }
    if l :| Derives(l, toks, t) {
      JobsParse(l, []);
    }
  }

  // ----- Redirections -----

  /** The redirections of a command, from left to right: the file, and whether it is an input. */
  function Redirections(t: Cmd<string>): (r: seq<(string, bool)>) {
    match t
    case ExecCmd(_) => []
    case RedirCmd(c, file, input) => Redirections(c) + [(file, input)]
    case PipeCmd(left, right) => Redirections(left) + Redirections(right)
    case ListCmd(left, right) => Redirections(left) + Redirections(right)
    case BackCmd(c) => Redirections(c)
  }

  /** The redirections among tokens, with the word after each: `<` is an input, `>` and `>>` are not. */
  function RedirsIn(toks: seq<Token>): (r: seq<(string, bool)>)
    decreases |toks|
  {
    if |toks| < 2 then []
    else if AtRedir(toks) && toks[1].Word? then [(toks[1].w, toks[0] == Sym('<'))] + RedirsIn(toks[2..])
    else RedirsIn(toks[1..])
  }

  function ItemRedirs(items: Items): (r: seq<(string, bool)>) {
    match items
    case NoItems => []
    case Arg(_, more) => ItemRedirs(more)
    case Redir(op, file, more) => [(file, op == Sym('<'))] + ItemRedirs(more)
  }

  lemma RedirsPast(tok: Token, rest: seq<Token>)
    requires !AtRedir([tok])
    ensures RedirsIn([tok] + rest) == RedirsIn(rest)
  {
    assert ([tok] + rest)[1..] == rest;
  }

  lemma {:induction false} ItemsRedirs(items: Items, rest: seq<Token>)
    requires OpsOk(items)
    ensures RedirsIn(ItemsToks(items, rest)) == ItemRedirs(items) + RedirsIn(rest)
  {
    match items
    case NoItems =>
    case Arg(w, more) =>
      RedirsPast(Word(w), ItemsToks(more, rest));
      ItemsRedirs(more, rest);
    case Redir(op, file, more) =>
      assert ItemsToks(items, rest)[2..] == ItemsToks(more, rest);
      ItemsRedirs(more, rest);
  }

  lemma {:induction false} WrapRedirs(cmd: Cmd<string>, items: Items)
    ensures Redirections(Wrap(cmd, items)) == Redirections(cmd) + ItemRedirs(items)
    decreases items
  {
    match items
    case NoItems =>
    case Arg(_, more) => WrapRedirs(cmd, more);
    case Redir(op, file, more) => WrapRedirs(RedirCmd(cmd, file, op == Sym('<')), more);
  }

  lemma {:induction false} AtomRedirs(a: Atom, rest: seq<Token>)
    requires AtomOk(a)
    ensures RedirsIn(AtomToks(a, rest)) == Redirections(AtomCmd(a)) + RedirsIn(rest)
  {
    match a
    case Simple(items) =>
      ItemsRedirs(items, rest);
      WrapRedirs(ExecCmd(Args(items)), items);
    case Block(line, redirs) =>
      var after := [Sym(')')] + ItemsToks(redirs, rest);
      RedirsPast(Sym('('), JobsToks(line, after));
      JobsRedirs(line, after);
      RedirsPast(Sym(')'), ItemsToks(redirs, rest));
      ItemsRedirs(redirs, rest);
      WrapRedirs(JobsCmd(line), redirs);
  }

  lemma {:induction false} PipelineRedirs(p: Pipeline, rest: seq<Token>)
    requires PipelineOk(p)
    ensures RedirsIn(PipelineToks(p, rest)) == Redirections(PipelineCmd(p)) + RedirsIn(rest)
  {
    match p
    case One(atom) =>
      AtomRedirs(atom, rest);
    case Pipe(left, right) =>
      AtomRedirs(left, [Sym('|')] + PipelineToks(right, rest));
      RedirsPast(Sym('|'), PipelineToks(right, rest));
      PipelineRedirs(right, rest);
  }

  lemma {:induction false} JobRedirs(j: Job, rest: seq<Token>)
    requires JobOk(j)
    ensures RedirsIn(JobToks(j, rest)) == Redirections(JobCmd(j)) + RedirsIn(rest)
  {
    match j
    case Fore(pipe) =>
      PipelineRedirs(pipe, rest);
    case Amp(job) =>
      JobRedirs(job, [Sym('&')] + rest);
      RedirsPast(Sym('&'), rest);
  }

  lemma {:induction false} JobsRedirs(l: Jobs, rest: seq<Token>)
    requires JobsOk(l)
    ensures RedirsIn(JobsToks(l, rest)) == Redirections(JobsCmd(l)) + RedirsIn(rest)
  {
    match l
    case Last(job) =>
      JobRedirs(job, rest);
    case Then(first, others) =>
      JobRedirs(first, [Sym(';')] + JobsToks(others, rest));
      RedirsPast(Sym(';'), JobsToks(others, rest));
      JobsRedirs(others, rest);
  }

  /** A parsed command has the redirections of its line, each an input exactly when its token is `<`. */
  lemma RedirectionsRead(toks: seq<Token>)
    requires ParseCmd(toks).Ok?
    ensures Redirections(ParseCmd(toks).cmd) == RedirsIn(toks)
  {
    var l := JobsDerived(toks);
    JobsRedirs(l, []);
  }

  /** The same tokens with `>` for `>>`. */
  function Truncating(toks: seq<Token>): (r: seq<Token>)
    ensures |r| == |toks| && forall i :: 0 <= i < |r| ==> r[i] == if toks[i] == Append then Sym('>') else toks[i]
  {
    seq(|toks|, i requires 0 <= i < |toks| => if toks[i] == Append then Sym('>') else toks[i])
  }

  lemma TruncatingRest(toks: seq<Token>, n: nat)
    requires n <= |toks|
    ensures Truncating(toks)[n..] == Truncating(toks[n..])
  {
  }

  function TruncatingRead(r: Parsed): (r': Parsed) {
    if r.Ok? then Ok(r.cmd, Truncating(r.rest)) else Fail
  }

  lemma {:induction false} RedirsTruncating(cmd: Cmd<string>, toks: seq<Token>)
    ensures ParseRedirs(cmd, Truncating(toks)) == TruncatingRead(ParseRedirs(cmd, toks))
    decreases |toks|
  {
    if AtRedir(toks) && |toks| >= 2 && toks[1].Word? {
      TruncatingRest(toks, 2);
      RedirsTruncating(RedirCmd(cmd, toks[1].w, toks[0] == Sym('<')), toks[2..]);
    }
  }

  lemma {:induction false} ItemsTruncating(cmd: Cmd<string>, argc: nat, toks: seq<Token>)
    ensures ParseItems(cmd, argc, Truncating(toks)) == TruncatingRead(ParseItems(cmd, argc, toks))
    decreases |toks|
  {
    ItemsStep(cmd, argc, toks);
    ItemsStep(cmd, argc, Truncating(toks));
    if AtRedir(toks) && |toks| >= 2 && toks[1].Word? {
      TruncatingRest(toks, 2);
      ItemsTruncating(RedirCmd(cmd, toks[1].w, toks[0] == Sym('<')), argc, toks[2..]);
    } else if toks != [] && toks[0].Word? && argc + 1 < MAXARGS {
      TruncatingRest(toks, 1);
      ItemsTruncating(AddArg(cmd, toks[0].w), argc + 1, toks[1..]);
    }
  }

  lemma {:induction false} ExecTruncating(toks: seq<Token>)
    ensures ParseExec(Truncating(toks)) == TruncatingRead(ParseExec(toks))
    decreases |toks|, 0
  {
    if Starts(toks, '(') {
      TruncatingRest(toks, 1);
      LineTruncating(toks[1..]);
      var body := ParseLine(toks[1..]);
      if body.Ok? && Starts(body.rest, ')') {
        TruncatingRest(body.rest, 1);
        RedirsTruncating(body.cmd, body.rest[1..]);
      }
    } else {
      ParseExecItems(toks);
      ParseExecItems(Truncating(toks));
      ItemsTruncating(ExecCmd([]), 0, toks);
    }
  }

  lemma {:induction false} PipeTruncating(toks: seq<Token>)
    ensures ParsePipe(Truncating(toks)) == TruncatingRead(ParsePipe(toks))
    decreases |toks|, 1
  {
    ExecTruncating(toks);
    var first := ParseExec(toks);
    if first.Ok? && Starts(first.rest, '|') {
      TruncatingRest(first.rest, 1);
      PipeTruncating(first.rest[1..]);
    }
  }

  lemma {:induction false} BacksTruncating(cmd: Cmd<string>, toks: seq<Token>)
    ensures ParseBacks(cmd, Truncating(toks)) == TruncatingRead(ParseBacks(cmd, toks))
    decreases |toks|
  {
    if Starts(toks, '&') {
      TruncatingRest(toks, 1);
      BacksTruncating(BackCmd(cmd), toks[1..]);
    }
  }

  lemma {:induction false} LineTruncating(toks: seq<Token>)
    ensures ParseLine(Truncating(toks)) == TruncatingRead(ParseLine(toks))
    decreases |toks|, 2
  {
    PipeTruncating(toks);
    var first := ParsePipe(toks);
    if first.Ok? {
      BacksTruncating(first.cmd, first.rest);
      var backed := ParseBacks(first.cmd, first.rest);
      if Starts(backed.rest, ';') {
        TruncatingRest(backed.rest, 1);
        LineTruncating(backed.rest[1..]);
      }
    }
  }

  /** `>>` is `>`: replacing the one by the other anywhere in any line changes nothing. */
  lemma AppendTruncates(toks: seq<Token>)
    ensures ParseCmd(Truncating(toks)) == ParseCmd(toks)
  {
    LineTruncating(toks);
  }
}
