/** Lines as tokens separated by spaces, and what the readers' tokeniser makes of them. */
module Tokens {

  /** A token has characters, and none of them is a space. */
  predicate IsToken(t: string) { t != [] && ' ' !in t }

  predicate AreTokens(tokens: seq<string>) { forall i :: 0 <= i < |tokens| ==> IsToken(tokens[i]) }

  function Join(tokens: seq<string>): string {
    if tokens == [] then []
    else if |tokens| == 1 then tokens[0]
    else tokens[0] + " " + Join(tokens[1..])
  }

  /** The position of the first character that is, or is not, a space; the length if there is none. */
  function Find(s: string, space: bool): (n: nat)
    ensures n <= |s|
  {
    if s == [] || (s[0] == ' ') == space then 0 else 1 + Find(s[1..], space)
  }

  /** Up to max tokens; spaces before and between them do not count. */
  function Split(s: string, max: nat): (tokens: seq<string>)
    ensures |tokens| <= max
    decreases max
  {
    var start := Find(s, false);
    if max == 0 || start == |s| then []
    else
      var length := Find(s[start..], true);
      [s[start..start + length]] + Split(s[start + length..], max - 1)
  }

  method FindFrom(s: string, from: nat, space: bool) returns (n: nat)
    requires from <= |s|
    ensures n == from + Find(s[from..], space)
  {
    n := from;
    while n < |s| && (s[n] == ' ') != space
      invariant from <= n <= |s|
      invariant from + Find(s[from..], space) == n + Find(s[n..], space)
    {
      assert s[n..][1..] == s[n + 1..];
      n := n + 1;
    }
  }

  lemma SplitStep(line: string, end: nat, max: nat)
    requires end <= |line|
    ensures var start := end + Find(line[end..], false);
      if max == 0 || start == |line| then Split(line[end..], max) == []
      else var stop := start + Find(line[start..], true);
           stop <= |line| && Split(line[end..], max) == [line[start..stop]] + Split(line[stop..], max - 1)
  {
    hide *;
    SplitOnce(line[end..], max);
    var start := Find(line[end..], false);
    DropTwice(line, end, start);
    if max > 0 && end + start < |line| {
      DropTwice(line, end, start + Find(line[end + start..], true));
      SliceOfRest(line, end, start, start + Find(line[end + start..], true));
    }
  }

  lemma SplitOnce(s: string, max: nat)
    ensures var start := Find(s, false);
      if max == 0 || start == |s| then Split(s, max) == []
      else var stop := start + Find(s[start..], true);
           stop <= |s| && Split(s, max) == [s[start..stop]] + Split(s[stop..], max - 1)
  {
    hide Find;
  }

  lemma DropTwice(s: string, i: nat, j: nat)
    requires i + j <= |s|
    ensures s[i..][j..] == s[i + j..]
  {
  }

  lemma SliceOfRest(s: string, i: nat, j: nat, k: nat)
    requires j <= k && i + k <= |s|
    ensures s[i..][j..k] == s[i + j..i + k]
  {
  }

  /** The tokeniser's loop. Additional columns are skipped. */
  method Tokenise(line: string, maxColumns: nat) returns (tuple: seq<string>)
    ensures tuple == Split(line, maxColumns)
  {
    hide Split, Find;
    tuple := [];
    var end := 0;
    var start := FindFrom(line, end, false);
    assert line[0..] == line;
    while start < |line| && |tuple| < maxColumns
      invariant end <= start <= |line| && start == end + Find(line[end..], false) && |tuple| <= maxColumns
      invariant tuple + Split(line[end..], maxColumns - |tuple|) == Split(line, maxColumns)
      decreases maxColumns - |tuple|
    {
      SplitStep(line, end, maxColumns - |tuple|);
      ghost var before := tuple;
      end := FindFrom(line, start, true);
      tuple := tuple + [line[start..end]];
      assert before + ([line[start..end]] + Split(line[end..], maxColumns - |tuple|)) == tuple
          + Split(line[end..], maxColumns - |tuple|);
      start := FindFrom(line, end, false);
    }
    SplitStep(line, end, maxColumns - |tuple|);
  }

  lemma {:induction false} FindInToken(t: string, rest: string)
    requires ' ' !in t && (rest == [] || rest[0] == ' ')
    ensures Find(t + rest, true) == |t|
  {
    if t == [] {
      assert t + rest == rest;
    } else {
      assert (t + rest)[1..] == t[1..] + rest;
      FindInToken(t[1..], rest);
    }
  }

  lemma SplitToken(space: string, t: string, rest: string, max: nat)
    requires IsToken(t) && (rest == [] || rest[0] == ' ') && (space == "" || space == " ") && max > 0
    ensures Split(space + (t + rest), max) == [t] + Split(rest, max - 1)
  {
    FindStart(space, t, rest);
    hide *;
    var s := space + (t + rest);
    assert s[|space|..] == t + rest && s[|space|..|space| + |t|] == t && s[|space| + |t|..] == rest;
    SplitOnce(s, max);
  }

  lemma FindStart(space: string, t: string, rest: string)
    requires IsToken(t) && (rest == [] || rest[0] == ' ') && (space == "" || space == " ")
    ensures Find(space + (t + rest), false) == |space| && t != []
    ensures Find(t + rest, true) == |t|
  {
    FindInToken(t, rest);
    var s := space + (t + rest);
    assert t[0] in t && (t + rest)[0] == t[0];
    assert space == " " ==> s[1..] == t + rest;
    assert space == "" ==> s == t + rest;
  }

  /** Tokens that were joined by spaces are found again, up to the limit; what follows is dropped. */
  lemma {:induction false} SplitJoined(tokens: seq<string>, space: string, max: nat)
    requires AreTokens(tokens) && (space == "" || space == " ")
    ensures Split(space + Join(tokens), max) == tokens[..if |tokens| <= max then |tokens| else max]
    ensures |tokens| <= max ==> Split(space + Join(tokens), max) == tokens
    decreases |tokens|
  {
    hide *;
    if tokens == [] {
      JoinNothing();
      SplitSpace(space, max);
    } else if max == 0 {
      SplitNone(space + Join(tokens));
    } else {
      JoinFirst(tokens);
      var rest := Later(tokens);
      SplitToken(space, tokens[0], rest, max);
      if |tokens| == 1 {
        SplitSpace("", max - 1);
      } else {
        SplitJoined(tokens[1..], " ", max - 1);
      }
      assert tokens == [tokens[0]] + tokens[1..];
      assert |tokens| == 1 ==> tokens == [tokens[0]] + [];
    }
  }

  lemma SplitNone(s: string)
    ensures Split(s, 0) == []
  {
  }

  lemma JoinNothing()
    ensures Join([]) == []
  {
  }

  function Later(tokens: seq<string>): string
    requires tokens != []
  {
    if |tokens| == 1 then [] else " " + Join(tokens[1..])
  }

  lemma JoinFirst(tokens: seq<string>)
    requires AreTokens(tokens) && tokens != []
    ensures Join(tokens) == tokens[0] + Later(tokens) && IsToken(tokens[0]) && AreTokens(tokens[1..])
    ensures |tokens| == 1 ==> Later(tokens) == []
    ensures |tokens| > 1 ==> Later(tokens) == " " + Join(tokens[1..]) && Later(tokens)[0] == ' '
  {
    hide IsToken;
    assert |tokens| == 1 ==> tokens[0] + [] == tokens[0];
    assert |tokens| > 1 ==> tokens[0] + " " + Join(tokens[1..]) == tokens[0] + (" " + Join(tokens[1..]));
  }

  lemma SplitSpace(space: string, max: nat)
    requires space == "" || space == " "
    ensures Split(space + [], max) == [] && Split([], max) == []
  {
    assert space + [] == space;
    assert space == " " ==> space[1..] == [];
  }
}
