/** sh.c's parser as it works: a cursor into the line, words kept as spans of it, terminated in place at the end. */
module Shell {
  import opened ShellLex
  import opened ShellGrammar

  /** A word from q up to e, as the pointers q and eq of `gettoken`. */
  datatype Span = Span(q: nat, e: nat)

  datatype Result = Done(cmd: Cmd<Span>) | Panic

  function TextOf(s: string, w: Span): (r: string) {
    if w.q <= w.e <= |s| then s[w.q..w.e] else []
  }

  function Texts(s: string, t: Cmd<Span>): (r: Cmd<string>) {
    match t
    case ExecCmd(argv) => ExecCmd(seq(|argv|, i requires 0 <= i < |argv| => TextOf(s, argv[i])))
    case RedirCmd(c, file, input) => RedirCmd(Texts(s, c), TextOf(s, file), input)
    case PipeCmd(l, r) => PipeCmd(Texts(s, l), Texts(s, r))
    case ListCmd(l, r) => ListCmd(Texts(s, l), Texts(s, r))
    case BackCmd(c) => BackCmd(Texts(s, c))
  }

  /** A whole word: word characters, and none after it. */
  predicate GoodSpan(s: string, w: Span) {
    && w.q < w.e <= |s| && (w.e < |s| ==> !IsWordChar(s[w.e]))
    && forall i :: w.q <= i < w.e ==> IsWordChar(s[i])
  }

  predicate GoodSpans(s: string, t: Cmd<Span>) {
    match t
    case ExecCmd(argv) => forall i :: 0 <= i < |argv| ==> GoodSpan(s, argv[i])
    case RedirCmd(c, file, _) => GoodSpans(s, c) && GoodSpan(s, file)
    case PipeCmd(l, r) => GoodSpans(s, l) && GoodSpans(s, r)
    case ListCmd(l, r) => GoodSpans(s, l) && GoodSpans(s, r)
    case BackCmd(c) => GoodSpans(s, c)
  }

  lemma {:induction false} TextsAddArg(s: string, t: Cmd<Span>, w: Span)
    requires GoodSpans(s, t) && GoodSpan(s, w)
    ensures Texts(s, AddArg(t, w)) == AddArg(Texts(s, t), TextOf(s, w))
    ensures GoodSpans(s, AddArg(t, w))
  {
    if t.RedirCmd? {
      TextsAddArg(s, t.cmd, w);
    }
  }

  function FirstChar(t: Token): (r: char)
    requires GoodToken(t)
  {
    match t
    case Sym(c) => c
    case Append => '>'
    case Word(w) => w[0]
  }

  /** What `gettoken` returns for a token. */
  function Code(t: Token): (r: char) {
    match t
    case Sym(c) => c
    case Append => '+'
    case Word(_) => 'a'
  }

  /** What the strings given to `peek` ask about the next token. */
  lemma PeekMeans(toks: seq<Token>)
    requires GoodTokens(toks)
    ensures (toks != [] && FirstChar(toks[0]) in "<>") <==> AtRedir(toks)
    ensures (toks != [] && FirstChar(toks[0]) in "|)&;") <==> toks != [] && AtArgsEnd(toks)
  {
    if toks != [] {
      assert GoodToken(toks[0]);
    }
  }

  lemma PeekSym(toks: seq<Token>, c: char)
    requires GoodTokens(toks) && IsSymbol(c) && c != '>'
    ensures (toks != [] && FirstChar(toks[0]) in [c]) <==> Starts(toks, c)
  {
    if toks != [] {
      assert GoodToken(toks[0]);
    }
  }

  lemma TokensSkip(s: Line, i: nat, k: nat)
    requires i <= k <= |s| && forall j :: i <= j < k ==> IsSpace(s[j])
    ensures Tokens(s, k) == Tokens(s, i)
  {
    assert SkipAt(s, k) == SkipAt(s, i);
  }

  class Parser {
    const s: Line
    var pos: nat

    ghost predicate Valid()
      reads this
    {
      pos <= |s|
    }

    /** The tokens still to come. */
    ghost function Rest(): (r: seq<Token>)
      requires Valid()
      reads this
      ensures GoodTokens(r)
    {
      TokensGood(s, pos);
      Tokens(s, pos)
    }

    constructor (s: Line)
      ensures this.s == s && pos == 0 && Valid()
    {
      this.s := s;
      pos := 0;
    }

    method SkipSpaces()
      requires Valid()
      modifies this
      ensures Valid() && old(pos) <= pos && Rest() == old(Rest())
      ensures pos < |s| ==> !IsSpace(s[pos])
    {
      while pos < |s| && IsSpace(s[pos])
        invariant old(pos) <= pos <= |s| && forall k :: old(pos) <= k < pos ==> IsSpace(s[k])
      {
        pos := pos + 1;
      }
      TokensSkip(s, old(pos), pos);
    }

    /** `peek`. */
    method Peek(toks: string) returns (r: bool)
      requires Valid()
      modifies this
      ensures Valid() && old(pos) <= pos && Rest() == old(Rest())
      ensures r <==> Rest() != [] && FirstChar(Rest()[0]) in toks
      ensures Rest() == [] <==> pos == |s|
    {
      SkipSpaces();
      assert SkipAt(s, pos) == pos;
      r := pos < |s| && s[pos] in toks;
    }

    /** The switch of `gettoken`, at the first character of a token. */
    method ScanToken() returns (ret: char)
      requires Valid() && pos < |s| && !IsSpace(s[pos])
      modifies this
      ensures old(pos) < pos == TokenEnd(s, old(pos))
      ensures ret == Code(TokenAt(s, old(pos))) && ret != '\0'
      ensures ret == 'a' ==> GoodSpan(s, Span(old(pos), pos)) && TokenAt(s, old(pos)) == Word(s[old(pos)..pos])
    {
      ret := s[pos];
      if s[pos] == '>' {
        pos := pos + 1;
        if pos < |s| && s[pos] == '>' {
          ret := '+';
          pos := pos + 1;
        }
      } else if IsSymbol(s[pos]) {
        pos := pos + 1;
      } else {
        ret := 'a';
        while pos < |s| && !IsSpace(s[pos]) && !IsSymbol(s[pos])
          invariant old(pos) <= pos <= |s| && forall k :: old(pos) <= k < pos ==> IsWordChar(s[k])
        {
          pos := pos + 1;
        }
        assert WordEnd(s, old(pos)) == pos;
      }
    }

    /** `gettoken`: the next token, or 0 at the end of the line. */
    method GetToken() returns (ret: char, w: Span)
      requires Valid()
      modifies this
      ensures Valid() && old(pos) <= pos
      ensures ret == '\0' <==> old(Rest()) == []
      ensures old(Rest()) == [] ==> Rest() == []
      ensures old(Rest()) != [] ==> pos > old(pos) && Rest() == old(Rest())[1..] && ret == Code(old(Rest())[0])
      ensures ret == 'a' ==> GoodSpan(s, w) && old(Rest())[0] == Word(TextOf(s, w))
    {
      SkipSpaces();
      var q := pos;
      assert SkipAt(s, q) == q;
      if pos == |s| {
        return '\0', Span(q, q);
      }
      ret := ScanToken();
      w := Span(q, pos);
      SkipSpaces();
    }

    /** r is what the grammar says, and the cursor stands at the grammar's rest. */
    ghost predicate Agrees(r: Result, spec: Parsed)
      requires Valid()
      reads this
    {
      && (r.Done? <==> spec.Ok?)
      && (r.Done? && spec.Ok? ==> GoodSpans(s, r.cmd) && Texts(s, r.cmd) == spec.cmd && Rest() == spec.rest)
    }

    /** One turn of the loop of `parseredirs`. */
    method ParseRedir(cmd: Cmd<Span>) returns (more: bool, r: Result)
      requires Valid() && GoodSpans(s, cmd)
      modifies this
      ensures Valid() && old(pos) <= pos
      ensures more ==> old(pos) < pos && r.Done? && GoodSpans(s, r.cmd)
      ensures more ==>
                ShellGrammar.ParseRedirs(Texts(s, r.cmd), Rest())
                == ShellGrammar.ParseRedirs(Texts(s, cmd), old(Rest()))
      ensures !more ==> Agrees(r, ShellGrammar.ParseRedirs(Texts(s, cmd), old(Rest())))
    {
      ghost var toks := Rest();
      PeekMeans(toks);
      more := Peek("<>");
      if !more {
        return more, Done(cmd);
      }
      assert GoodToken(toks[0]);
      var tok, _ := GetToken();
      var ret, w := GetToken();
      if ret != 'a' {
        return false, Panic;
      }
      r := Done(RedirCmd(cmd, w, tok == '<'));
    }

    method ParseRedirs(cmd: Cmd<Span>) returns (r: Result)
      requires Valid() && GoodSpans(s, cmd)
      modifies this
      ensures Valid() && old(pos) <= pos && Agrees(r, ShellGrammar.ParseRedirs(Texts(s, cmd), old(Rest())))
    {
      ghost var goal := ShellGrammar.ParseRedirs(Texts(s, cmd), Rest());
      r := Done(cmd);
      var more := true;
      while more
        invariant Valid() && old(pos) <= pos
        invariant more ==> r.Done? && GoodSpans(s, r.cmd) && ShellGrammar.ParseRedirs(Texts(s, r.cmd), Rest()) == goal
        invariant !more ==> Agrees(r, goal)
        decreases |s| - pos, more
      {
        more, r := ParseRedir(r.cmd);
      }
    }

    method ParseExec() returns (r: Result)
      requires Valid()
      modifies this
      ensures Valid() && old(pos) <= pos && Agrees(r, ShellGrammar.ParseExec(old(Rest())))
      decreases |s| - pos, 1
    {
      PeekSym(Rest(), '(');
      var block := Peek("(");
      if block {
        r := ParseBlock();
        return;
      }
      var none: Cmd<Span> := ExecCmd([]);
      assert Texts(s, none) == ExecCmd([]);
      r := ParseRedirs(none);
      if r.Done? {
        r := ParseArgs(r.cmd);
      }
    }

    /** One turn of `parseexec`'s loop: a word, with the redirections after it. */
    method ParseArg(cmd: Cmd<Span>, argc: nat) returns (more: bool, r: Result)
      requires Valid() && GoodSpans(s, cmd)
      modifies this
      ensures Valid() && old(pos) <= pos
      ensures more ==> old(pos) < pos && r.Done? && GoodSpans(s, r.cmd)
      ensures more ==> ShellGrammar.ParseArgs(Texts(s, r.cmd), argc + 1, Rest())
                       == ShellGrammar.ParseArgs(Texts(s, cmd), argc, old(Rest()))
      ensures !more ==> Agrees(r, ShellGrammar.ParseArgs(Texts(s, cmd), argc, old(Rest())))
    {
      ghost var toks := Rest();
      PeekMeans(toks);
      var end := Peek("|)&;");
      if end {
        return false, Done(cmd);
      }
      assert toks != [] ==> GoodToken(toks[0]);
      var tok, w := GetToken();
      if tok == '\0' {
        return false, Done(cmd);
      }
      if tok != 'a' || argc + 1 >= MAXARGS {
        return false, Panic;
      }
      TextsAddArg(s, cmd, w);
      r := ParseRedirs(AddArg(cmd, w));
      more := r.Done?;
    }

    /** The loop of `parseexec`. */
    method ParseArgs(cmd: Cmd<Span>) returns (r: Result)
      requires Valid() && GoodSpans(s, cmd)
      modifies this
      ensures Valid() && old(pos) <= pos && Agrees(r, ShellGrammar.ParseArgs(Texts(s, cmd), 0, old(Rest())))
    {
      ghost var goal := ShellGrammar.ParseArgs(Texts(s, cmd), 0, Rest());
      r := Done(cmd);
      var more, argc := true, 0;
      while more
        invariant Valid() && old(pos) <= pos
        invariant more ==>
                    r.Done? && GoodSpans(s, r.cmd) && ShellGrammar.ParseArgs(Texts(s, r.cmd), argc, Rest()) == goal
        invariant !more ==> Agrees(r, goal)
        decreases |s| - pos, more
      {
        more, r := ParseArg(r.cmd, argc);
        argc := argc + 1;
      }
    }

    method ParseBlock() returns (r: Result)
      requires Valid() && Starts(Rest(), '(')
      modifies this
      ensures Valid() && old(pos) <= pos && Agrees(r, ShellGrammar.ParseBlock(old(Rest())))
      decreases |s| - pos, 0
    {
      var _, _ := GetToken();
      r := ParseLine();
      if r.Panic? {
        return;
      }
      PeekSym(Rest(), ')');
      var closed := Peek(")");
      if !closed {
        return Panic;
      }
      var _, _ := GetToken();
      r := ParseRedirs(r.cmd);
    }

    method ParsePipe() returns (r: Result)
      requires Valid()
      modifies this
      ensures Valid() && old(pos) <= pos && Agrees(r, ShellGrammar.ParsePipe(old(Rest())))
      decreases |s| - pos, 3
    {
      ghost var toks := Rest();
      r := ParseExec();
      if r.Done? {
        r := ParseMorePipe(r.cmd, toks);
      }
    }

    /** The rest of `parsepipe`, after its first command. */
    method ParseMorePipe(left: Cmd<Span>, ghost toks: seq<Token>) returns (r: Result)
      requires Valid() && Agrees(Done(left), ShellGrammar.ParseExec(toks))
      modifies this
      ensures Valid() && old(pos) <= pos && Agrees(r, ShellGrammar.ParsePipe(toks))
      decreases |s| - pos, 2
    {
      r := Done(left);
      PeekSym(Rest(), '|');
      var more := Peek("|");
      if more {
        var _, _ := GetToken();
        var right := ParsePipe();
        r := if right.Panic? then Panic else Done(PipeCmd(left, right.cmd));
      }
    }

    method ParseLine() returns (r: Result)
      requires Valid()
      modifies this
      ensures Valid() && old(pos) <= pos && Agrees(r, ShellGrammar.ParseLine(old(Rest())))
      decreases |s| - pos, 4
    {
      r := ParsePipe();
      if r.Panic? {
        return;
      }
      var c := ParseBacks(r.cmd);
      r := Done(c);
      PeekSym(Rest(), ';');
      var more := Peek(";");
      if more {
        var _, _ := GetToken();
        var right := ParseLine();
        r := if right.Panic? then Panic else Done(ListCmd(c, right.cmd));
      }
    }

    /** The loop of `parseline`. */
    method ParseBacks(cmd: Cmd<Span>) returns (c: Cmd<Span>)
      requires Valid() && GoodSpans(s, cmd)
      modifies this
      ensures Valid() && old(pos) <= pos && Agrees(Done(c), ShellGrammar.ParseBacks(Texts(s, cmd), old(Rest())))
    {
      c := cmd;
      while true
        invariant Valid() && old(pos) <= pos && GoodSpans(s, c)
        invariant ShellGrammar.ParseBacks(Texts(s, c), Rest()) == ShellGrammar.ParseBacks(Texts(s, cmd), old(Rest()))
        decreases |s| - pos
      {
        PeekSym(Rest(), '&');
        var more := Peek("&");
        if !more {
          return;
        }
        var _, _ := GetToken();
        c := BackCmd(c);
      }
    }
  }

  /** Where the words of t end. */
  ghost function Ends(t: Cmd<Span>): (r: set<nat>) {
    match t
    case ExecCmd(argv) => set i | 0 <= i < |argv| :: argv[i].e
    case RedirCmd(c, file, _) => Ends(c) + {file.e}
    case PipeCmd(l, r) => Ends(l) + Ends(r)
    case ListCmd(l, r) => Ends(l) + Ends(r)
    case BackCmd(c) => Ends(c)
  }

  /** `nulterminate`: a NUL after every word of t, and nothing else changed. */
  method NulTerminate(buf: array<char>, t: Cmd<Span>)
    requires forall x :: x in Ends(t) ==> x < buf.Length
    modifies buf
    ensures forall i :: 0 <= i < buf.Length ==> buf[i] == if i in Ends(t) then '\0' else old(buf[i])
    decreases t
  {
    match t
    case ExecCmd(argv) =>
      var i := 0;
      while i < |argv|
        invariant 0 <= i <= |argv|
        invariant forall k :: 0 <= k < buf.Length ==>
                    buf[k] == if k in (set j | 0 <= j < i :: argv[j].e) then '\0' else old(buf[k])
      {
        assert argv[i].e in Ends(t);
        buf[argv[i].e] := '\0';
        i := i + 1;
      }
    case RedirCmd(c, file, _) =>
      assert file.e in Ends(t) && forall x :: x in Ends(c) ==> x in Ends(t);
      NulTerminate(buf, c);
      buf[file.e] := '\0';
    case PipeCmd(l, r) =>
      assert forall x :: x in Ends(l) || x in Ends(r) ==> x in Ends(t);
      NulTerminate(buf, l);
      NulTerminate(buf, r);
    case ListCmd(l, r) =>
      assert forall x :: x in Ends(l) || x in Ends(r) ==> x in Ends(t);
      NulTerminate(buf, l);
      NulTerminate(buf, r);
    case BackCmd(c) =>
      assert Ends(c) == Ends(t);
      NulTerminate(buf, c);
  }

  /** The C string at q. */
  function CString(buf: seq<char>, q: nat): (r: string)
    decreases |buf| - q
  {
    if q >= |buf| || buf[q] == '\0' then [] else [buf[q]] + CString(buf, q + 1)
  }

  /** The command as `runcmd` sees it: each word is the C string where it begins. */
  function CTexts(buf: seq<char>, t: Cmd<Span>): (r: Cmd<string>) {
    match t
    case ExecCmd(argv) => ExecCmd(seq(|argv|, i requires 0 <= i < |argv| => CString(buf, argv[i].q)))
    case RedirCmd(c, file, input) => RedirCmd(CTexts(buf, c), CString(buf, file.q), input)
    case PipeCmd(l, r) => PipeCmd(CTexts(buf, l), CTexts(buf, r))
    case ListCmd(l, r) => ListCmd(CTexts(buf, l), CTexts(buf, r))
    case BackCmd(c) => BackCmd(CTexts(buf, c))
  }

  lemma {:induction false} CStringIs(buf: seq<char>, s: Line, q: nat, e: nat)
    requires q <= e <= |s| && e < |buf| && buf[e] == '\0' && forall i :: q <= i < e ==> buf[i] == s[i]
    ensures CString(buf, q) == s[q..e]
    decreases e - q
  {
    if q < e {
      CStringIs(buf, s, q + 1, e);
    }
  }

  /** buf is the line with NULs put at ends, none of which lies inside a word. */
  ghost predicate Cut(s: Line, buf: seq<char>, ends: set<nat>) {
    && |buf| == |s| + 1
    && (forall x :: x in ends ==> x <= |s| && (x < |s| ==> !IsWordChar(s[x])))
    && forall i :: 0 <= i <= |s| ==> buf[i] == if i in ends || i == |s| then '\0' else s[i]
  }

  lemma CutWord(s: Line, buf: seq<char>, ends: set<nat>, w: Span)
    requires Cut(s, buf, ends) && GoodSpan(s, w) && w.e in ends
    ensures CString(buf, w.q) == TextOf(s, w)
  {
    CStringIs(buf, s, w.q, w.e);
  }

  lemma {:induction false} CutTexts(s: Line, buf: seq<char>, ends: set<nat>, t: Cmd<Span>)
    requires Cut(s, buf, ends) && GoodSpans(s, t) && Ends(t) <= ends
    ensures CTexts(buf, t) == Texts(s, t)
  {
    match t
    case ExecCmd(argv) =>
      forall i | 0 <= i < |argv| ensures CString(buf, argv[i].q) == TextOf(s, argv[i]) {
        assert argv[i].e in Ends(t);
        CutWord(s, buf, ends, argv[i]);
      }
    case RedirCmd(c, file, _) =>
      CutTexts(s, buf, ends, c);
      CutWord(s, buf, ends, file);
    case PipeCmd(l, r) =>
      CutTexts(s, buf, ends, l);
      CutTexts(s, buf, ends, r);
    case ListCmd(l, r) =>
      CutTexts(s, buf, ends, l);
      CutTexts(s, buf, ends, r);
    case BackCmd(c) =>
      CutTexts(s, buf, ends, c);
  }

  lemma {:induction false} EndsOutside(s: Line, t: Cmd<Span>)
    requires GoodSpans(s, t)
    ensures forall x :: x in Ends(t) ==> x <= |s| && (x < |s| ==> !IsWordChar(s[x]))
  {
    match t
    case ExecCmd(argv) =>
    case RedirCmd(c, _, _) => EndsOutside(s, c);
    case PipeCmd(l, r) => EndsOutside(s, l); EndsOutside(s, r);
    case ListCmd(l, r) => EndsOutside(s, l); EndsOutside(s, r);
    case BackCmd(c) => EndsOutside(s, c);
  }

  /** `parsecmd`, in the buffer: it accepts what the grammar accepts, and leaves every word a C string in place. */
  method ParseCmd(buf: array<char>) returns (r: Result)
    requires buf.Length > 0 && buf[buf.Length - 1] == '\0'
    requires forall i :: 0 <= i < buf.Length - 1 ==> buf[i] != '\0'
    modifies buf
    ensures r.Done? <==> ShellGrammar.ParseCmd(Scan(old(buf[..buf.Length - 1]))).Ok?
    ensures r.Done? ==> CTexts(buf[..], r.cmd) == ShellGrammar.ParseCmd(Scan(old(buf[..buf.Length - 1]))).cmd
    ensures r.Panic? ==> buf[..] == old(buf[..])
  {
    var s: Line := buf[..buf.Length - 1];
    var parser := new Parser(s);
    r := parser.ParseLine();
    if r.Panic? {
      return;
    }
    var _ := parser.Peek("");
    if parser.pos != |s| {
      return Panic;
    }
    EndsOutside(s, r.cmd);
    NulTerminate(buf, r.cmd);
    CutTexts(s, buf[..], Ends(r.cmd), r.cmd);
  }
}
