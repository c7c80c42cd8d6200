/** sh.c's tokens. */
module ShellLex {

  datatype Token = Sym(c: char) | Append | Word(w: string)

  predicate IsSpace(c: char) {
    c == ' ' || c == '\t' || c == '\r' || c == '\n' || c == '\U{000B}'
  }

  predicate IsSymbol(c: char) {
    c == '<' || c == '|' || c == '>' || c == '&' || c == ';' || c == '(' || c == ')'
  }

  predicate IsWordChar(c: char) {
    c != '\0' && !IsSpace(c) && !IsSymbol(c)
  }

  predicate GoodWord(w: string) {
    w != [] && forall i :: 0 <= i < |w| ==> IsWordChar(w[i])
  }

  predicate GoodToken(t: Token) {
    (t.Sym? ==> IsSymbol(t.c)) && (t.Word? ==> GoodWord(t.w))
  }

  predicate GoodTokens(toks: seq<Token>) {
    forall i :: 0 <= i < |toks| ==> GoodToken(toks[i])
  }

  type Line = s: string | forall i :: 0 <= i < |s| ==> s[i] != '\0'

  /** The end of the blanks at i. */
  function SkipAt(s: Line, i: nat): (r: nat)
    requires i <= |s|
    ensures i <= r <= |s| && (forall k :: i <= k < r ==> IsSpace(s[k])) && (r < |s| ==> !IsSpace(s[r]))
    decreases |s| - i
  {
    if i < |s| && IsSpace(s[i]) then SkipAt(s, i + 1) else i
  }

  /** The end of the word characters at i. */
  function WordEnd(s: Line, i: nat): (r: nat)
    requires i <= |s|
    ensures i <= r <= |s| && (forall k :: i <= k < r ==> IsWordChar(s[k])) && (r < |s| ==> !IsWordChar(s[r]))
    decreases |s| - i
  {
    if i < |s| && IsWordChar(s[i]) then WordEnd(s, i + 1) else i
  }

  /** The end of the token that begins at q. */
  function TokenEnd(s: Line, q: nat): (r: nat)
    requires q < |s| && !IsSpace(s[q])
    ensures q < r <= |s|
  {
    if s[q] == '>' then (if q + 1 < |s| && s[q + 1] == '>' then q + 2 else q + 1)
    else if IsSymbol(s[q]) then q + 1
    else WordEnd(s, q)
  }

  function TokenAt(s: Line, q: nat): (r: Token)
    requires q < |s| && !IsSpace(s[q])
    ensures GoodToken(r)
  {
    if s[q] == '>' then (if q + 1 < |s| && s[q + 1] == '>' then Append else Sym('>'))
    else if IsSymbol(s[q]) then Sym(s[q])
    else Word(s[q..WordEnd(s, q)])
  }

  /** The tokens from i on, as repeated calls of `gettoken` find them. */
  function Tokens(s: Line, i: nat): (r: seq<Token>)
    requires i <= |s|
    decreases |s| - i
  {
    var q := SkipAt(s, i);
    if q == |s| then [] else [TokenAt(s, q)] + Tokens(s, TokenEnd(s, q))
  }

  lemma {:induction false} TokensGood(s: Line, i: nat)
    requires i <= |s|
    ensures GoodTokens(Tokens(s, i))
    decreases |s| - i
  {
    var q := SkipAt(s, i);
    if q < |s| {
      TokensGood(s, TokenEnd(s, q));
    }
  }

  /** All tokens of a line. */
  function Scan(s: Line): (r: seq<Token>)
    ensures GoodTokens(r)
  {
    TokensGood(s, 0);
    Tokens(s, 0)
  }

  function Spelling(t: Token): (r: string) {
    match t
    case Sym(c) => [c]
    case Append => ">>"
    case Word(w) => w
  }

  /** Maximal munch: what is scanned at q is the longest token that is spelled there. */
  lemma LongestToken(s: Line, q: nat, t: Token)
    requires q < |s| && !IsSpace(s[q])
    ensures Spelling(TokenAt(s, q)) == s[q..TokenEnd(s, q)]
    ensures GoodToken(t) && Spelling(t) <= s[q..] ==> |Spelling(t)| <= TokenEnd(s, q) - q
  {
    var w, e := Spelling(t), TokenEnd(s, q);
    if GoodToken(t) && w <= s[q..] {
      assert forall k :: 0 <= k < |w| ==> w[k] == s[q..][k] == s[q + k];
      if t.Word? {
        assert IsWordChar(w[0]);
      }
    }
  }

  /** The line from i on, without its blanks. */
  function Squeezed(s: string, i: nat): (r: string)
    decreases |s| - i
  {
    if i >= |s| then [] else if IsSpace(s[i]) then Squeezed(s, i + 1) else [s[i]] + Squeezed(s, i + 1)
  }

  function Glued(toks: seq<Token>): (r: string) {
    if toks == [] then [] else Spelling(toks[0]) + Glued(toks[1..])
  }

  lemma GluedFirst(t: Token, toks: seq<Token>)
    ensures Glued([t] + toks) == Spelling(t) + Glued(toks)
  {
    assert ([t] + toks)[1..] == toks;
  }

  lemma {:induction false} SqueezedBlanks(s: string, i: nat, q: nat)
    requires i <= q <= |s| && forall k :: i <= k < q ==> IsSpace(s[k])
    ensures Squeezed(s, i) == Squeezed(s, q)
    decreases q - i
  {
    if i < q {
      SqueezedBlanks(s, i + 1, q);
    }
  }

  lemma Prepended(c: char, a: string, b: string, rest: string)
    requires |b| == 1 + |a| && b[0] == c && forall k :: 0 <= k < |a| ==> b[k + 1] == a[k]
    ensures [c] + (a + rest) == b + rest
  {
    assert b == [c] + a;
  }

  lemma {:induction false} SqueezedToken(s: string, q: nat, e: nat)
    requires q <= e <= |s| && forall k :: q <= k < e ==> !IsSpace(s[k])
    ensures Squeezed(s, q) == s[q..e] + Squeezed(s, e)
    decreases e - q
  {
    if q < e {
      SqueezedToken(s, q + 1, e);
      Prepended(s[q], s[q + 1..e], s[q..e], Squeezed(s, e));
    }
  }

  lemma {:induction false} TokensGlued(s: Line, i: nat)
    requires i <= |s|
    ensures Glued(Tokens(s, i)) == Squeezed(s, i)
    decreases |s| - i
  {
    var q := SkipAt(s, i);
    SqueezedBlanks(s, i, q);
    if q < |s| {
      var e := TokenEnd(s, q);
      LongestToken(s, q, TokenAt(s, q));
      SqueezedToken(s, q, e);
      TokensGlued(s, e);
      GluedFirst(TokenAt(s, q), Tokens(s, e));
    }
  }

  /** Scanning loses and invents nothing: the tokens, glued together, are the line without its blanks. */
  lemma ScanWhole(s: Line)
    ensures Glued(Scan(s)) == Squeezed(s, 0)
  {
    TokensGlued(s, 0);
  }

  function Spell(toks: seq<Token>): (r: string) {
    if toks == [] then [] else [' '] + Spelling(toks[0]) + Spell(toks[1..])
  }

  lemma {:induction false} SpellLine(toks: seq<Token>)
    requires GoodTokens(toks)
    ensures forall i :: 0 <= i < |Spell(toks)| ==> Spell(toks)[i] != '\0'
  {
    if toks != [] {
      assert GoodToken(toks[0]);
      SpellLine(toks[1..]);
    }
  }

  /** all is s behind n other characters. */
  ghost predicate Behind(all: Line, s: Line, n: nat) {
    |all| == n + |s| && forall k :: 0 <= k < |s| ==> all[n + k] == s[k]
  }

  lemma {:induction false} SkipShift(all: Line, s: Line, n: nat, i: nat)
    requires Behind(all, s, n) && i <= |s|
    ensures SkipAt(all, n + i) == n + SkipAt(s, i)
    decreases |s| - i
  {
    if i < |s| {
      assert all[n + i] == s[i];
      if IsSpace(s[i]) {
        SkipShift(all, s, n, i + 1);
      }
    }
  }

  lemma {:induction false} WordShift(all: Line, s: Line, n: nat, i: nat)
    requires Behind(all, s, n) && i <= |s|
    ensures WordEnd(all, n + i) == n + WordEnd(s, i)
    decreases |s| - i
  {
    if i < |s| {
      assert all[n + i] == s[i];
      if IsWordChar(s[i]) {
        WordShift(all, s, n, i + 1);
      }
    }
  }

  lemma TokenShift(all: Line, s: Line, n: nat, q: nat)
    requires Behind(all, s, n) && q < |s| && !IsSpace(s[q])
    ensures all[n + q] == s[q]
    ensures TokenEnd(all, n + q) == n + TokenEnd(s, q) && TokenAt(all, n + q) == TokenAt(s, q)
  {
    var e := WordEnd(s, q);
    assert q + 1 < |s| ==> all[n + (q + 1)] == s[q + 1];
    WordShift(all, s, n, q);
    assert all[n + q..n + e] == s[q..e];
  }

  lemma TokensFirst(s: Line, i: nat, q: nat)
    requires i <= |s| && q == SkipAt(s, i)
    ensures Tokens(s, i) == if q == |s| then [] else [TokenAt(s, q)] + Tokens(s, TokenEnd(s, q))
  {
  }

  /** Two lines that scan alike at i and behind the token there scan alike from i on. */
  lemma TokensAlike(all: Line, s: Line, n: nat, i: nat, q: nat)
    requires |all| == n + |s| && i <= |s| && q == SkipAt(s, i) && SkipAt(all, n + i) == n + q
    requires q < |s| ==> TokenAt(all, n + q) == TokenAt(s, q) && TokenEnd(all, n + q) == n + TokenEnd(s, q)
    requires q < |s| ==> Tokens(all, n + TokenEnd(s, q)) == Tokens(s, TokenEnd(s, q))
    ensures Tokens(all, n + i) == Tokens(s, i)
  {
    TokensFirst(s, i, q);
    TokensFirst(all, n + i, n + q);
  }

  /** Scanning does not depend on what lies before. */
  lemma {:induction false} TokensShift(all: Line, s: Line, n: nat, i: nat)
    requires Behind(all, s, n) && i <= |s|
    ensures Tokens(all, n + i) == Tokens(s, i)
    decreases |s| - i
  {
    var q := SkipAt(s, i);
    SkipShift(all, s, n, i);
    if q < |s| {
      TokenShift(all, s, n, q);
      TokensShift(all, s, n, TokenEnd(s, q));
    }
    TokensAlike(all, s, n, i, q);
  }

  /** A spelled-out token, with a blank before it and a blank or nothing after it, is scanned as itself. */
  lemma FirstToken(t: Token, rest: Line, s: Line)
    requires GoodToken(t) && (rest != [] ==> IsSpace(rest[0])) && s == [' '] + Spelling(t) + rest
    ensures SkipAt(s, 0) == 1 < |s| && TokenAt(s, 1) == t && TokenEnd(s, 1) == 1 + |Spelling(t)|
  {
    var w := Spelling(t);
    assert forall k :: 0 <= k < |w| ==> s[1 + k] == w[k];
    assert rest != [] ==> s[1 + |w|] == rest[0];
    if t.Word? {
      assert WordEnd(s, 1) == 1 + |w|;
      assert s[1..1 + |w|] == w;
    }
  }

  /** Scanning what was spelled out gives the same tokens. */
  lemma {:induction false} SpellScan(toks: seq<Token>)
    requires GoodTokens(toks)
    ensures forall i :: 0 <= i < |Spell(toks)| ==> Spell(toks)[i] != '\0'
    ensures Scan(Spell(toks)) == toks
  {
    SpellLine(toks);
    if toks != [] {
      assert GoodToken(toks[0]);
      SpellLine(toks[1..]);
      SpellScan(toks[1..]);
      var rest: Line, all: Line := Spell(toks[1..]), Spell(toks);
      FirstToken(toks[0], rest, all);
      TokensShift(all, rest, 1 + |Spelling(toks[0])|, 0);
    }
  }
}
