/** grep.c: the Kernighan and Pike matcher against the meaning of its patterns. */
module Grep {

  /** A C string, without its terminating NUL. */
  type CString = s: seq<char> | forall i :: 0 <= i < |s| ==> s[i] != '\0'

  /** s[i] as the C code reads it. */
  function At(s: CString, i: nat): (r: char)
    requires i <= |s|
    ensures r == '\0' <==> i == |s|
  {
    if i < |s| then s[i] else '\0'
  }

  datatype Item = One(c: char) | Star(c: char) | End

  /** How a pattern reads: c* is a repetition, a final $ an anchor, everything else stands for one character. */
  function Items(re: CString): (r: seq<Item>)
  {
    if re == [] then []
    else if |re| >= 2 && re[1] == '*' then [Star(re[0])] + Items(re[2..])
    else if re == "$" then [End]
    else [One(re[0])] + Items(re[1..])
  }

  predicate Accepts(c: char, x: char) {
    c == '.' || c == x
  }

  /** An item describes text[i..j]. */
  ghost predicate ItemOk(item: Item, text: CString, i: nat, j: nat) {
    && i <= j <= |text|
    && match item
       case One(c) => j == i + 1 && Accepts(c, text[i])
       case Star(c) => forall k :: i <= k < j ==> Accepts(c, text[k])
       case End => i == j == |text|
  }

  /** cuts splits a prefix of text into one piece per item. */
  ghost predicate Splits(items: seq<Item>, text: CString, cuts: seq<nat>) {
    && |cuts| == |items| + 1 && cuts[0] == 0
    && forall k :: 1 <= k < |cuts| ==> ItemOk(items[k - 1], text, cuts[k - 1], cuts[k])
  }

  /** Some prefix of text is described by the items. */
  ghost predicate Describes(items: seq<Item>, text: CString) {
    exists cuts :: Splits(items, text, cuts)
  }

  /** The meaning of a whole pattern: some part of the text, at the beginning after ^. */
  ghost predicate Means(re: CString, text: CString) {
    if re != [] && re[0] == '^' then Describes(Items(re[1..]), text)
    else exists s :: 0 <= s <= |text| && Describes(Items(re), text[s..])
  }

  lemma DescribesNothing(text: CString)
    ensures Describes([], text)
  {
    assert Splits([], text, [0]);
  }

  /** A first item takes some prefix and the others describe what comes after it. */
  lemma DescribesFirst(item: Item, items: seq<Item>, text: CString)
    ensures Describes([item] + items, text) <==>
            exists j :: 0 <= j <= |text| && ItemOk(item, text, 0, j) && Describes(items, text[j..])
  {
    if Describes([item] + items, text) {
      var cuts :| Splits([item] + items, text, cuts);
      var j := SplitRest(item, items, text, cuts);
    }
    if j :| 0 <= j <= |text| && ItemOk(item, text, 0, j) && Describes(items, text[j..]) {
      var cuts :| Splits(items, text[j..], cuts);
      SplitAll(item, items, text, j, cuts);
    }
  }

  lemma SplitRest(item: Item, items: seq<Item>, text: CString, cuts: seq<nat>) returns (j: nat)
    requires Splits([item] + items, text, cuts)
    ensures j <= |text| && ItemOk(item, text, 0, j) && Describes(items, text[j..])
  {
    j := cuts[1];
    assert ItemOk(([item] + items)[0], text, cuts[0], cuts[1]);
    CutsGrow([item] + items, text, cuts);
    var rest := seq(|items| + 1, k requires 0 <= k <= |items| => cuts[k + 1] - j);
    forall k | 1 <= k < |rest| ensures ItemOk(items[k - 1], text[j..], rest[k - 1], rest[k]) {
      assert ItemOk(([item] + items)[k], text, cuts[k], cuts[k + 1]);
    }
    assert Splits(items, text[j..], rest);
  }

  lemma {:induction false} CutsGrow(items: seq<Item>, text: CString, cuts: seq<nat>)
    requires Splits(items, text, cuts) && |cuts| >= 2
    ensures forall k :: 1 <= k < |cuts| ==> cuts[1] <= cuts[k]
  {
    var k := 1;
    while k + 1 < |cuts|
      invariant 1 <= k < |cuts| && forall m :: 1 <= m <= k ==> cuts[1] <= cuts[m]
    {
      assert ItemOk(items[k], text, cuts[k], cuts[k + 1]);
      k := k + 1;
    }
  }

  lemma SplitAll(item: Item, items: seq<Item>, text: CString, j: nat, cuts: seq<nat>)
    requires j <= |text| && ItemOk(item, text, 0, j) && Splits(items, text[j..], cuts)
    ensures Describes([item] + items, text)
  {
    var all := [0] + seq(|cuts|, k requires 0 <= k < |cuts| => cuts[k] + j);
    forall k | 1 <= k < |all| ensures ItemOk(([item] + items)[k - 1], text, all[k - 1], all[k]) {
      if k > 1 {
        assert ItemOk(items[k - 2], text[j..], cuts[k - 2], cuts[k - 1]);
      }
    }
    assert Splits([item] + items, text, all);
  }

  ghost predicate Run(c: char, text: CString, j: nat) {
    j <= |text| && forall k :: 0 <= k < j ==> Accepts(c, text[k])
  }

  /** What `matchstar` looks for. */
  ghost predicate StarDescribes(c: char, items: seq<Item>, text: CString) {
    exists j :: 0 <= j <= |text| && Run(c, text, j) && Describes(items, text[j..])
  }

  /** `matchhere` is sound and complete. */
  method MatchHere(re: CString, text: CString) returns (r: bool)
    ensures r <==> Describes(Items(re), text)
    decreases |re|, 0
  {
    if At(re, 0) == '\0' {
      DescribesNothing(text);
      return true;
    }
    if At(re, 1) == '*' {
      r := MatchStar(re[0], re[2..], text);
      DescribesFirst(Star(re[0]), Items(re[2..]), text);
      return;
    }
    if At(re, 0) == '$' && At(re, 1) == '\0' {
      DescribesFirst(End, [], text);
      DescribesNothing(text[|text|..]);
      assert [End] + [] == [End];
      return At(text, 0) == '\0';
    }
    DescribesFirst(One(re[0]), Items(re[1..]), text);
    if At(text, 0) != '\0' && (re[0] == '.' || re[0] == At(text, 0)) {
      r := MatchHere(re[1..], text[1..]);
      assert ItemOk(One(re[0]), text, 0, 1);
      return;
    }
    return false;
  }

  /** `matchstar` tries every number of repetitions, shortest first. */
  method MatchStar(c: char, re: CString, text: CString) returns (r: bool)
    ensures r <==> StarDescribes(c, Items(re), text)
    decreases |re|, 1
  {
    var i := 0;
    while true
      invariant 0 <= i <= |text| && Run(c, text, i)
      invariant forall j :: 0 <= j < i ==> !Describes(Items(re), text[j..])
      decreases |text| - i
    {
      var here := MatchHere(re, text[i..]);
      if here {
        return true;
      }
      if At(text, i) != '\0' && (At(text, i) == c || c == '.') {
        i := i + 1;
      } else {
        return false;
      }
    }
  }

  /** `match` says yes exactly when the pattern, read as Items, describes some part of the text. */
  method Match(re: CString, text: CString) returns (r: bool)
    ensures r <==> Means(re, text)
  {
    if At(re, 0) == '^' {
      r := MatchHere(re[1..], text);
      return;
    }
    var i := 0;
    while true
      invariant 0 <= i <= |text|
      invariant forall s :: 0 <= s < i ==> !Describes(Items(re), text[s..])
      decreases |text| - i
    {
      var here := MatchHere(re, text[i..]);
      if here {
        return true;
      }
      if At(text, i) == '\0' {
        return false;
      }
      i := i + 1;
    }
  }

  /** Only `.` has a special meaning in the pattern. */
  predicate Simple(re: CString) {
    forall i :: 0 <= i < |re| ==> re[i] != '*' && re[i] != '$' && re[i] != '^'
  }

  /** The text begins with the pattern, `.` standing for any character. */
  predicate Begins(re: CString, text: CString) {
    |re| <= |text| && forall i :: 0 <= i < |re| ==> re[i] == '.' || re[i] == text[i]
  }

  lemma BeginsFirst(re: CString, text: CString)
    requires re != [] && text != []
    ensures Begins(re, text) <==> (re[0] == '.' || re[0] == text[0]) && Begins(re[1..], text[1..])
  {
    if Begins(re[1..], text[1..]) && (re[0] == '.' || re[0] == text[0]) {
      forall i | 0 <= i < |re| ensures re[i] == '.' || re[i] == text[i] {
        assert i > 0 ==> re[1..][i - 1] == re[i] && text[1..][i - 1] == text[i];
      }
    }
  }

  lemma {:induction false} SimpleDescribes(re: CString, text: CString)
    requires Simple(re)
    ensures Describes(Items(re), text) <==> Begins(re, text)
    decreases |re|
  {
    if re == [] {
      DescribesNothing(text);
    } else {
      DescribesFirst(One(re[0]), Items(re[1..]), text);
      if text != [] {
        SimpleDescribes(re[1..], text[1..]);
        BeginsFirst(re, text);
        if Begins(re, text) {
          assert ItemOk(One(re[0]), text, 0, 1);
        }
      }
    }
  }

  /** A simple pattern is a substring search. */
  lemma SimpleSearch(re: CString, text: CString)
    requires Simple(re)
    ensures Means(re, text) <==> exists s :: 0 <= s <= |text| && Begins(re, text[s..])
  {
    forall s | 0 <= s <= |text| ensures Describes(Items(re), text[s..]) <==> Begins(re, text[s..]) {
      SimpleDescribes(re, text[s..]);
    }
  }

  lemma EndDescribes(text: CString)
    ensures Items("$") == [End] && (Describes([End], text) <==> text == [])
  {
    DescribesFirst(End, [], text);
    DescribesNothing(text[|text|..]);
    assert [End] + [] == [End];
  }

  lemma {:induction false} AnchoredDescribes(re: CString, text: CString)
    requires Simple(re)
    ensures Describes(Items(re + "$"), text) <==> |re| == |text| && Begins(re, text)
    decreases |re|
  {
    var all := re + "$";
    if re == [] {
      assert all == "$";
      EndDescribes(text);
    } else {
      assert all[1..] == re[1..] + "$" && all[1] != '*';
      DescribesFirst(One(re[0]), Items(all[1..]), text);
      if text != [] {
        AnchoredDescribes(re[1..], text[1..]);
        BeginsFirst(re, text);
        if Begins(re, text) {
          assert ItemOk(One(re[0]), text, 0, 1);
        }
      }
    }
  }

  /** ^re$ with a simple re matches the lines of its length that agree with it, `.` standing for any character. */
  lemma WholeLine(re: CString, text: CString)
    requires Simple(re)
    ensures Means("^" + re + "$", text) <==> |re| == |text| && Begins(re, text)
  {
    var all := "^" + re + "$";
    assert all[1..] == re + "$";
    AnchoredDescribes(re, text);
  }

  /** ^c*$ matches the lines of nothing but c, and every line if c is `.`. */
  lemma StarLine(c: char, text: CString)
    requires c != '\0'
    ensures Means(['^', c, '*', '$'], text) <==> c == '.' || forall i :: 0 <= i < |text| ==> text[i] == c
  {
    var all: CString := ['^', c, '*', '$'];
    var re: CString := all[1..];
    assert re[2..] == "$" && re[1] == '*' && re[0] == c;
    assert Items(re) == [Star(c)] + Items("$");
    EndDescribes(text);
    DescribesFirst(Star(c), [End], text);
    forall j | 0 <= j <= |text| ensures Describes([End], text[j..]) <==> j == |text| {
      EndDescribes(text[j..]);
    }
    if c == '.' || forall i :: 0 <= i < |text| ==> text[i] == c {
      assert ItemOk(Star(c), text, 0, |text|);
    }
  }
}
