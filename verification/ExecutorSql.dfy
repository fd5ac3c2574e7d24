/**
 The statements of one execution (executor/sql.go): they are expanded one after another from the bindings of the
 template they come from, which they share.
 */
module ExecutorSql {
  import opened Keys
  import opened Template

  // ----- the parentheses around a script -----

  predicate Space(c: char) {
    c == ' ' || c == '\t' || c == '\n' || c == '\r'
  }

  method TrimSpace(s: string) returns (t: string, ghost before: string, ghost after: string)
    ensures s == before + t + after
    ensures Shell(before, '(', 0) && Shell(after, ')', 0)
    ensures t != [] ==> !Space(t[0]) && !Space(t[|t| - 1])
  {
    var i, j := 0, |s|;
    while i < j && Space(s[i])
      invariant 0 <= i <= j == |s|
      invariant forall c :: c in s[..i] ==> Space(c)
    {
      assert s[..i + 1] == s[..i] + [s[i]];
      i := i + 1;
    }
    while i < j && Space(s[j - 1])
      invariant i <= j <= |s|
      invariant i < j ==> !Space(s[i])
      invariant forall c :: c in s[j..] ==> Space(c)
    {
      assert s[j - 1..] == [s[j - 1]] + s[j..];
      j := j - 1;
    }
    t, before, after := s[i..j], s[..i], s[j..];
    assert '(' !in before && ')' !in after;
    assert s == s[..i] + s[i..j] + s[j..];
  }

  /** The text around a script: blanks, and `n` parentheses of one kind. */
  ghost predicate Shell(s: string, paren: char, n: nat) {
    (forall c :: c in s ==> c == paren || Space(c)) && multiset(s)[paren] == n
  }

  lemma ShellsJoin(a: string, b: string, paren: char, m: nat, n: nat)
    requires Shell(a, paren, m) && Shell(b, paren, n)
    ensures Shell(a + b, paren, m + n)
  {
    forall c | c in a + b ensures c == paren || Space(c) {
      assert c in a || c in b;
    }
  }

  /** The script is what the text holds within `n` opening and as many closing parentheses. */
  ghost predicate Wraps(text: string, before: string, script: string, after: string, n: nat) {
    text == before + script + after && Shell(before, '(', n) && Shell(after, ')', n)
  }

  lemma WrapsMore(text: string, before: string, script: string, after: string, n: nat, l: string, inner: string,
                  r: string, m: nat)
    requires Wraps(text, before, script, after, n) && Wraps(script, l, inner, r, m)
    ensures Wraps(text, before + l, inner, r + after, n + m)
  {
    ShellsJoin(before, l, '(', n, m);
    ShellsJoin(r, after, ')', m, n);
  }

  /** The parentheses that open at the start of the text, blanks aside. */
  function Leading(s: string): nat {
    if s == "" then 0
    else if Space(s[0]) then Leading(s[1..])
    else if s[0] == '(' then 1 + Leading(s[1..])
    else 0
  }

  /** Those that close at its end. */
  function Trailing(s: string): nat {
    if s == "" then 0
    else
      var n := |s| - 1;
      if Space(s[n]) then Trailing(s[..n])
      else if s[n] == ')' then 1 + Trailing(s[..n])
      else 0
  }

  /** How many parentheses are taken off at each end. */
  function Pairs(text: string): nat {
    if Leading(text) < Trailing(text) then Leading(text) else Trailing(text)
  }

  lemma {:induction false} LeadingShell(before: string, rest: string, n: nat)
    requires Shell(before, '(', n)
    ensures Leading(before + rest) == n + Leading(rest)
    decreases |before|
  {
    if before == "" {
      assert before + rest == rest;
    } else {
      var first := before[0];
      assert before == [first] + before[1..] && first in before && forall c :: c in before[1..] ==> c in before;
      assert (before + rest)[1..] == before[1..] + rest;
      LeadingShell(before[1..], rest, if first == '(' then n - 1 else n);
    }
  }

  lemma {:induction false} TrailingShell(rest: string, after: string, n: nat)
    requires Shell(after, ')', n)
    ensures Trailing(rest + after) == n + Trailing(rest)
    decreases |after|
  {
    if after == "" {
      assert rest + after == rest;
    } else {
      var front, last := after[..|after| - 1], after[|after| - 1];
      assert after == front + [last] && last in after && forall c :: c in front ==> c in after;
      assert (rest + after)[..|rest + after| - 1] == rest + front;
      TrailingShell(rest, front, if last == ')' then n - 1 else n);
    }
  }

  /** What is left when no more parentheses can be taken off has lost the pairs that the text shows. */
  lemma PairsTaken(text: string, before: string, script: string, after: string, n: nat)
    requires Wraps(text, before, script, after, n)
    requires script != "" ==> !(script[0] == '(' && script[|script| - 1] == ')')
    requires script != "" ==> !Space(script[0]) && !Space(script[|script| - 1])
    ensures n == Pairs(text)
  {
    LeadingShell(before, script + after, n);
    assert text == before + (script + after);
    TrailingShell(before + script, after, n);
    if script == "" {
      assert script + after == after && before + script == before;
      assert after != "" ==> after[0] in after;
      EndsApart(before, after, n);
    }
  }

  lemma {:induction false} EndsApart(before: string, after: string, n: nat)
    requires Shell(before, '(', n) && Shell(after, ')', n)
    ensures Leading(after) == 0 && Trailing(before) == 0
    decreases |before| + |after|
  {
    NoneLeading(after, n);
    NoneTrailing(before, n);
  }

  lemma {:induction false} NoneLeading(after: string, n: nat)
    requires Shell(after, ')', n)
    ensures Leading(after) == 0
    decreases |after|
  {
    if after != "" && Space(after[0]) {
      assert after == [after[0]] + after[1..] && forall c :: c in after[1..] ==> c in after;
      NoneLeading(after[1..], n);
    } else if after != "" {
      assert after[0] in after;
    }
  }

  lemma {:induction false} NoneTrailing(before: string, n: nat)
    requires Shell(before, '(', n)
    ensures Trailing(before) == 0
    decreases |before|
  {
    if before != "" {
      var front, last := before[..|before| - 1], before[|before| - 1];
      assert before == front + [last] && last in before && forall c :: c in front ==> c in before;
      if Space(last) {
        NoneTrailing(front, n);
      }
    }
  }

  method TrimParentheses(text: string) returns (script: string, ghost before: string, ghost after: string, ghost n: nat)
    ensures Wraps(text, before, script, after, n) && n == Pairs(text)
    ensures script != [] ==> !(script[0] == '(' && script[|script| - 1] == ')')
    ensures script != [] ==> !Space(script[0]) && !Space(script[|script| - 1])
  {
    script, before, after, n := text, "", "", 0;
    assert text == "" + text + "";
    ghost var l, r;
    while true
      invariant Wraps(text, before, script, after, n)
      decreases |script|
    {
      var trimmed;
      trimmed, l, r := TrimSpace(script);
      WrapsMore(text, before, script, after, n, l, trimmed, r, 0);
      script, before, after := trimmed, before + l, r + after;
      if |script| == 0 || script[0] != '(' || script[|script| - 1] != ')' {
        break;
      }
      var inner := script[1..|script| - 1];
      assert script == "(" + inner + ")";
      WrapsMore(text, before, script, after, n, "(", inner, ")", 1);
      script, before, after, n := inner, before + "(", ")" + after, n + 1;
    }
    PairsTaken(text, before, script, after, n);
  }

  /** By how many the opening parentheses outnumber the closing ones. */
  function Nesting(s: string): int {
    if s == "" then 0
    else Nesting(s[..|s| - 1]) + match s[|s| - 1] case '(' => 1 case ')' => -1 case _ => 0
  }

  /** Each parenthesis has its counterpart. */
  predicate Paired(s: string) {
    Nesting(s) == 0 && forall i :: 0 <= i <= |s| ==> Nesting(s[..i]) >= 0
  }

  lemma {:induction false} NestingConcat(a: string, b: string)
    ensures Nesting(a + b) == Nesting(a) + Nesting(b)
    decreases |b|
  {
    if b == "" {
      assert a + b == a;
    } else {
      NestingConcat(a, b[..|b| - 1]);
      assert (a + b)[..|a + b| - 1] == a + b[..|b| - 1];
    }
  }

  lemma {:induction false} ShellNesting(s: string, paren: char, n: nat)
    requires paren in "()" && Shell(s, paren, n)
    ensures paren == '(' ==> Nesting(s) == n
    ensures paren == ')' ==> Nesting(s) + n == 0
    decreases |s|
  {
    if s != "" {
      var front, last := s[..|s| - 1], s[|s| - 1];
      assert s == front + [last] && last in s && forall c :: c in front ==> c in s;
      ShellNesting(front, paren, if last == paren then n - 1 else n);
    }
  }

  lemma PrefixNesting(text: string, before: string, script: string, after: string, n: nat, j: nat)
    requires Wraps(text, before, script, after, n) && j <= |script|
    ensures Nesting(text[..|before| + j]) == n + Nesting(script[..j])
  {
    assert text[..|before| + j] == before + script[..j];
    NestingConcat(before, script[..j]);
    ShellNesting(before, '(', n);
  }

  lemma NestedBetween(text: string, before: string, script: string, after: string, n: nat)
    requires Wraps(text, before, script, after, n) && Paired(text)
    ensures Paired(script) <==> forall i :: |before| <= i <= |text| - |after| ==> Nesting(text[..i]) >= n
  {
    NestingConcat(before + script, after);
    NestingConcat(before, script);
    ShellNesting(before, '(', n);
    ShellNesting(after, ')', n);
    forall i | |before| <= i <= |text| - |after| ensures Nesting(text[..i]) == n + Nesting(script[..i - |before|]) {
      PrefixNesting(text, before, script, after, n, i - |before|);
    }
    forall j | 0 <= j <= |script| ensures Nesting(text[..|before| + j]) == n + Nesting(script[..j]) {
      PrefixNesting(text, before, script, after, n, j);
    }
  }

  predicate Only(s: string, paren: char) {
    forall c :: c in s ==> c == paren || Space(c)
  }

  /** The text is nested as deep as parentheses are taken off, except among those that open it and close it. */
  predicate Deep(text: string) {
    forall i :: 0 <= i <= |text| ==>
      Nesting(text[..i]) >= Pairs(text) || Only(text[..i], '(') || Only(text[i..], ')')
  }

  lemma {:induction false} OnlyRises(s: string, i: nat)
    requires Only(s, '(') && i <= |s|
    ensures Nesting(s[..i]) <= Nesting(s)
    decreases |s|
  {
    if i == |s| {
      assert s[..i] == s;
    } else {
      var front, last := s[..|s| - 1], s[|s| - 1];
      assert last in s && forall c :: c in front ==> c in s;
      OnlyRises(front, i);
      assert front[..i] == s[..i];
    }
  }

  lemma {:induction false} OnlyFalls(s: string, t: string)
    requires Only(s, ')')
    ensures Nesting(t + s) <= Nesting(t)
    decreases |s|
  {
    if s == "" {
      assert t + s == t;
    } else {
      var front, last := s[..|s| - 1], s[|s| - 1];
      assert last in s && forall c :: c in front ==> c in s;
      OnlyFalls(front, t);
      assert (t + s)[..|t + s| - 1] == t + front;
    }
  }

  /** A beginning of the text within what is left is nested deep enough, even if it looks like an end. */
  lemma InnerDeep(text: string, before: string, script: string, after: string, n: nat, i: nat)
    requires Wraps(text, before, script, after, n) && Paired(text) && |before| <= i <= |text| - |after|
    requires Only(text[..i], '(') || Only(text[i..], ')')
    ensures Nesting(text[..i]) >= n
  {
    if Only(text[..i], '(') {
      OnlyRises(text[..i], |before|);
      assert text[..i][..|before|] == before;
      ShellNesting(before, '(', n);
    } else {
      var middle := text[i..|text| - |after|];
      assert text[i..] == middle + after && text == text[..i] + middle + after;
      assert forall c :: c in middle ==> c in text[i..];
      NestingConcat(text[..i] + middle, after);
      ShellNesting(after, ')', n);
      OnlyFalls(middle, text[..i]);
    }
  }

  /** What is left of a paired text is paired exactly when the text is nested deep throughout. */
  lemma ScriptPairedExactlyWhen(text: string, before: string, script: string, after: string)
    requires Wraps(text, before, script, after, Pairs(text)) && Paired(text)
    ensures Paired(script) <==> Deep(text)
  {
    var n := Pairs(text);
    NestedBetween(text, before, script, after, n);
    forall i | |before| <= i <= |text| - |after| && (Only(text[..i], '(') || Only(text[i..], ')'))
      ensures Nesting(text[..i]) >= n
    {
      InnerDeep(text, before, script, after, n, i);
    }
    forall i | 0 <= i <= |text| && !(|before| <= i <= |text| - |after|)
      ensures Only(text[..i], '(') || Only(text[i..], ')')
    {
      OuterOnly(text, before, script, after, n, i);
    }
  }

  lemma OuterOnly(text: string, before: string, script: string, after: string, n: nat, i: nat)
    requires Wraps(text, before, script, after, n) && i <= |text| && !(|before| <= i <= |text| - |after|)
    ensures Only(text[..i], '(') || Only(text[i..], ')')
  {
    if i < |before| {
      assert text[..i] == before[..i] && forall c :: c in before[..i] ==> c in before;
    } else {
      var k := i - |before| - |script|;
      assert text[i..] == after[k..] && forall c :: c in after[k..] ==> c in after;
    }
  }

  /** One pair of parentheses around a text is a pair exactly when no shorter beginning of the text is paired. */
  lemma OnePairExactlyWhen(text: string, inner: string)
    requires text == "(" + inner + ")" && Paired(text)
    ensures Paired(inner) <==> forall i :: 0 < i < |text| ==> !Paired(text[..i])
  {
    NestedBetween(text, "(", inner, ")", 1);
    forall i | 0 < i < |text| ensures Paired(text[..i]) <==> Nesting(text[..i]) < 1 {
      PrefixPaired(text, i);
    }
  }

  lemma PrefixPaired(text: string, i: nat)
    requires i <= |text| && Paired(text)
    ensures Paired(text[..i]) <==> Nesting(text[..i]) < 1
  {
    forall j | 0 <= j <= i ensures Nesting(text[..i][..j]) >= 0 {
      assert text[..i][..j] == text[..j];
    }
  }

  lemma PairedConcat(a: string, b: string)
    requires Paired(a) && Paired(b)
    ensures Paired(a + b)
  {
    NestingConcat(a, b);
    forall i | 0 <= i <= |a + b| ensures Nesting((a + b)[..i]) >= 0 {
      if i <= |a| {
        assert (a + b)[..i] == a[..i];
      } else {
        assert (a + b)[..i] == a + b[..i - |a|];
        NestingConcat(a, b[..i - |a|]);
      }
    }
  }

  predicate Flat(s: string) {
    '(' !in s && ')' !in s
  }

  lemma {:induction false} FlatNesting(s: string)
    requires Flat(s)
    ensures Nesting(s) == 0
    decreases |s|
  {
    if s != "" {
      assert s[|s| - 1] in s && forall c :: c in s[..|s| - 1] ==> c in s;
      FlatNesting(s[..|s| - 1]);
    }
  }

  lemma FlatPaired(s: string)
    requires Flat(s)
    ensures Paired(s) && Paired("(" + s + ")")
  {
    FlatNesting(s);
    assert s[..|s|] == s;
    forall i | 0 <= i <= |s| ensures Nesting(s[..i]) == 0 {
      FlatNesting(s[..i]);
    }
    var group := "(" + s + ")";
    NestingConcat("(" + s, ")");
    NestingConcat("(", s);
    assert Nesting("(") == 1 && Nesting(")") == -1;
    forall i | 0 <= i <= |group| ensures Nesting(group[..i]) >= 0 {
      if 0 < i < |group| {
        assert group[..i] == "(" + s[..i - 1];
        NestingConcat("(", s[..i - 1]);
      } else {
        assert i == |group| ==> group[..i] == group;
      }
    }
  }

  lemma Regrouped(a: string, between: string, b: string)
    ensures ("(" + a + ")") + between + ("(" + b + ")") == "(" + (a + ")" + between + "(" + b) + ")"
  {}

  /**
   Two selects in parentheses, such as `(SELECT 1) UNION (SELECT 2)`: the outer ones are no pair, and are taken off.
   */
  lemma TwoGroupsTorn(a: string, between: string, b: string)
    requires Flat(a) && Flat(between) && Flat(b)
    ensures Paired(("(" + a + ")") + between + ("(" + b + ")")) && !Paired(a + ")" + between + "(" + b)
  {
    var first, second := "(" + a + ")", "(" + b + ")";
    FlatPaired(a);
    FlatPaired(between);
    FlatPaired(b);
    PairedConcat(first, between);
    PairedConcat(first + between, second);
    Regrouped(a, between, b);
    FirstGroup(first + between + second, first, a + ")" + between + "(" + b);
  }

  lemma FirstGroup(text: string, first: string, inner: string)
    requires text == "(" + inner + ")" && Paired(text) && Paired(first) && first <= text && 0 < |first| < |text|
    ensures !Paired(inner)
  {
    assert text[..|first|] == first;
    OnePairExactlyWhen(text, inner);
  }

  // ----- the statements -----

  datatype Sql = Raw(tokens: seq<Token>) | Expanded(text: seq<Piece>)

  datatype Statement = Statement(sql: Sql, args: seq<Value>)

  /** The statements, or the whole script if the parser finds none in it. */
  function Scripts(statements: seq<seq<Token>>, script: seq<Token>): seq<seq<Token>> {
    if statements == [] && script != [] then [script] else statements
  }

  /** The placeholders in the first `n` statements. */
  function Asked(statements: seq<seq<Token>>, n: nat): nat
    requires n <= |statements|
  {
    if n == 0 then 0 else Asked(statements, n - 1) + MarkCount(statements[n - 1])
  }

  lemma {:induction false} AskedGrows(statements: seq<seq<Token>>, i: nat, n: nat)
    requires i <= n <= |statements|
    ensures Asked(statements, i) <= Asked(statements, n)
    decreases n
  {
    if i < n {
      AskedGrows(statements, i, n - 1);
    }
  }

  const NO_PARAMS: Params := Params([], [], [])

  /** An execution has no selector, no filter and no batch. */
  function EnvOf(accessors: map<string, seq<Value>>): Env {
    Env(NO_PARAMS, [], [], [], accessors)
  }

  /** Statement `i` is expanded with the values after those of the statements before it. */
  ghost predicate Done(statements: seq<seq<Token>>, i: nat, accessors: map<string, seq<Value>>, group: seq<Value>,
                       start: nat, out: Statement)
    requires i < |statements|
  {
    var supply := Supplied(group, false, start + Asked(statements, i), MarkCount(statements[i]));
    && supply.Some? && Known(statements[i], EnvOf(accessors))
    && out.sql == Expanded(TextOf(statements[i], EnvOf(accessors)))
    && out.args == ArgsOf(statements[i], EnvOf(accessors), supply.value)
  }

  /** The first `n` statements are expanded, the others still as they were. */
  ghost predicate DoneTo(statements: seq<seq<Token>>, n: nat, accessors: map<string, seq<Value>>, group: seq<Value>,
                         start: nat, out: seq<Statement>)
  {
    && n <= |out| == |statements|
    && (forall i :: 0 <= i < n ==> Done(statements, i, accessors, group, start, out[i]))
    && (forall i :: n <= i < |out| ==> out[i].sql == Raw(statements[i]))
  }

  lemma DoneMore(statements: seq<seq<Token>>, n: nat, accessors: map<string, seq<Value>>, group: seq<Value>, start: nat,
                 out: seq<Statement>, next: Statement)
    requires n < |statements| && DoneTo(statements, n, accessors, group, start, out)
    requires Done(statements, n, accessors, group, start, next)
    ensures DoneTo(statements, n + 1, accessors, group, start, out[n := next])
  {}

  predicate Feasible(statements: seq<seq<Token>>, accessors: map<string, seq<Value>>, available: int) {
    && (forall i :: 0 <= i < |statements| ==> Known(statements[i], EnvOf(accessors)))
    && (Asked(statements, |statements|) == 0 || Asked(statements, |statements|) <= available)
  }

  lemma Infeasible(statements: seq<seq<Token>>, i: nat, accessors: map<string, seq<Value>>, available: int)
    requires i < |statements|
    requires !Known(statements[i], EnvOf(accessors)) ||
             (MarkCount(statements[i]) > 0 && Asked(statements, i + 1) > available)
    ensures !Feasible(statements, accessors, available)
  {
    AskedGrows(statements, i + 1, |statements|);
  }

  method ExpandStatement(sql: seq<Token>, ghost all: seq<seq<Token>>, ghost i: nat, accessors: map<string, seq<Value>>,
                         bindings: Bindings, ghost start: nat)
    returns (next: Option<Statement>)
    requires i < |all| && sql == all[i] && !bindings.mock && bindings.counter == start + Asked(all, i)
    modifies bindings`counter
    ensures next.Some? ==> Done(all, i, accessors, bindings.paramsGroup, start, next.value)
    ensures next.Some? ==> bindings.counter == start + Asked(all, i + 1)
    ensures next.None? ==> !Feasible(all, accessors, |bindings.paramsGroup| - start)
  {
    var text, placeholders := Expand(sql, EnvOf(accessors), bindings, false);
    if text.None? {
      Infeasible(all, i, accessors, |bindings.paramsGroup| - start);
      return None;
    }
    return Some(Statement(Expanded(text.value), placeholders));
  }

  /**
   Expands the statements in place. It fails exactly when a keyword is unknown or the placeholders exceed the bindings
   that are left.
   */
  method Build(statements: seq<seq<Token>>, script: seq<Token>, accessors: map<string, seq<Value>>, bindings: Bindings)
    returns (result: array<Statement>, ok: bool)
    requires !bindings.mock
    modifies bindings`counter
    ensures fresh(result)
    ensures ok <==> Feasible(Scripts(statements, script), accessors, |bindings.paramsGroup| - old(bindings.counter))
    ensures ok ==> DoneTo(Scripts(statements, script), result.Length, accessors, bindings.paramsGroup,
                          old(bindings.counter), result[..])
    ensures ok ==>
              bindings.counter ==
              old(bindings.counter) + Asked(Scripts(statements, script), |Scripts(statements, script)|)
  {
    var all := if |statements| == 0 && script != [] then [script] else statements;
    result := new Statement[|all|](i requires 0 <= i < |all| => Statement(Raw(all[i]), []));
    ok := ExpandInPlace(all, result, accessors, bindings);
  }

  method ExpandInPlace(ghost all: seq<seq<Token>>, result: array<Statement>, accessors: map<string, seq<Value>>,
                       bindings: Bindings)
    returns (ok: bool)
    requires !bindings.mock && result.Length == |all| && forall i :: 0 <= i < |all| ==> result[i].sql == Raw(all[i])
    modifies bindings`counter, result
    ensures ok <==> Feasible(all, accessors, |bindings.paramsGroup| - old(bindings.counter))
    ensures ok ==> DoneTo(all, |all|, accessors, bindings.paramsGroup, old(bindings.counter), result[..])
    ensures ok ==> bindings.counter == old(bindings.counter) + Asked(all, |all|)
  {
    ghost var start, group := bindings.counter, bindings.paramsGroup;
    for i := 0 to result.Length
      invariant bindings.counter == start + Asked(all, i)
      invariant DoneTo(all, i, accessors, group, start, result[..])
    {
      ghost var before := result[..];
      assert before[i].sql == Raw(all[i]);
      var next := ExpandStatement(result[i].sql.tokens, all, i, accessors, bindings, start);
      if next.None? {
        return false;
      }
      DoneMore(all, i, accessors, group, start, before, next.value);
      result[i] := next.value;
      assert result[..] == before[i := next.value];
    }
    EnoughForAll(all, accessors, group, start, result[..]);
    return true;
  }

  lemma {:induction false} EnoughForAll(all: seq<seq<Token>>, accessors: map<string, seq<Value>>, group: seq<Value>,
                                        start: nat, out: seq<Statement>)
    requires DoneTo(all, |all|, accessors, group, start, out)
    ensures Feasible(all, accessors, |group| - start)
  {
    EnoughForSome(all, accessors, group, start, out, |all|);
    forall i | 0 <= i < |all| ensures Known(all[i], EnvOf(accessors)) {
      assert Done(all, i, accessors, group, start, out[i]);
    }
  }

  lemma {:induction false} EnoughForSome(all: seq<seq<Token>>, accessors: map<string, seq<Value>>, group: seq<Value>,
                                         start: nat, out: seq<Statement>, n: nat)
    requires n <= |all| && DoneTo(all, |all|, accessors, group, start, out)
    ensures Asked(all, n) == 0 || start + Asked(all, n) <= |group|
    decreases n
  {
    if n > 0 {
      EnoughForSome(all, accessors, group, start, out, n - 1);
      assert Done(all, n - 1, accessors, group, start, out[n - 1]);
    }
  }

  // ----- one supply for all of them -----

  function AllArgs(out: seq<Statement>, n: nat): seq<Value>
    requires n <= |out|
  {
    if n == 0 then [] else AllArgs(out, n - 1) + out[n - 1].args
  }

  /** The statements name no parameter that has values of its own. */
  predicate OnlyPlaceholders(sql: seq<Token>, accessors: map<string, seq<Value>>) {
    forall i :: 0 <= i < |sql| && sql[i].Key? ==>
      var e := EntryOf(sql[i].key, EnvOf(accessors)); e.Some? ==> e.value.args == []
  }

  lemma {:induction false} ArgsAreTheSupply(sql: seq<Token>, accessors: map<string, seq<Value>>, supply: seq<Value>)
    requires OnlyPlaceholders(sql, accessors) && MarkCount(sql) <= |supply|
    ensures ArgsOf(sql, EnvOf(accessors), supply) == supply[..MarkCount(sql)]
    decreases |sql|
  {
    if sql != [] {
      var front := sql[..|sql| - 1];
      ArgsAreTheSupply(front, accessors, supply);
    }
  }

  ghost predicate Takes(all: seq<seq<Token>>, group: seq<Value>, start: nat, out: Statement, i: nat)
    requires i < |all|
  {
    && start + Asked(all, i + 1) <= |group|
    && out.args == group[start + Asked(all, i)..start + Asked(all, i + 1)]
  }

  lemma SlicesJoin(group: seq<Value>, a: nat, b: nat, c: nat)
    requires a <= b <= c <= |group|
    ensures group[a..b] + group[b..c] == group[a..c]
  {}

  lemma StatementTakes(all: seq<seq<Token>>, accessors: map<string, seq<Value>>, group: seq<Value>, start: nat,
                       out: Statement, i: nat)
    requires i < |all| && OnlyPlaceholders(all[i], accessors) && Done(all, i, accessors, group, start, out)
    requires start + Asked(all, i) <= |group|
    ensures Takes(all, group, start, out, i)
  {
    var from, m := start + Asked(all, i), MarkCount(all[i]);
    var supply := Supplied(group, false, from, m).value;
    ArgsAreTheSupply(all[i], accessors, supply);
    assert supply[..m] == supply == group[from..from + m];
  }

  lemma {:induction false} ArgsJoin(all: seq<seq<Token>>, group: seq<Value>, start: nat, out: seq<Statement>, n: nat,
                                    args: seq<Value>)
    requires n <= |all| == |out| && start <= |group| && args == AllArgs(out, n)
    requires forall k :: 0 <= k < n ==> Takes(all, group, start, out[k], k)
    ensures start + Asked(all, n) <= |group|
    ensures args == group[start..start + Asked(all, n)]
    decreases n
  {
    if n > 0 {
      ArgsJoin(all, group, start, out, n - 1, AllArgs(out, n - 1));
      assert Takes(all, group, start, out[n - 1], n - 1);
      SlicesJoin(group, start, start + Asked(all, n - 1), start + Asked(all, n));
    }
  }

  /**
   The values of all statements together are the bindings in their order, each taken once and none left out between two
   statements.
   */
  lemma BindingsDealtInOrder(all: seq<seq<Token>>, accessors: map<string, seq<Value>>, group: seq<Value>, start: nat,
                             out: seq<Statement>)
    requires DoneTo(all, |all|, accessors, group, start, out) && start <= |group|
    requires forall k :: 0 <= k < |all| ==> OnlyPlaceholders(all[k], accessors)
    ensures start + Asked(all, |all|) <= |group|
    ensures AllArgs(out, |all|) == group[start..start + Asked(all, |all|)]
  {
    forall k | 0 <= k < |all| ensures Takes(all, group, start, out[k], k) {
      EnoughForSome(all, accessors, group, start, out, k);
      StatementTakes(all, accessors, group, start, out[k], k);
    }
    ArgsJoin(all, group, start, out, |all|, AllArgs(out, |all|));
  }
}
