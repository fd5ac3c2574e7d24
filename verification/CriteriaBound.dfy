/**
 The criteria as a part of a read: the text that is written for any accepted criteria has one placeholder for each of
 its values, in their order, so that a read that carries them is bound.
 */
module CriteriaBound {
  import opened Criteria
  import opened Keys
  import opened Lists
  import B = SqlBuilder
  import P = CriteriaParser
  import T = Template

  // ----- the text as characters -----

  function TokenChars(token: Token): string {
    match token
    case Word(text) => " " + text
    case Op(text) => " " + text
    case Number(text, _) => " " + text
    case Quoted(text) => " '" + text + "'"
    case Comma => ", "
    case Open => " ("
    case Close => ")"
    case Hole => " "
  }

  function Written(token: Token): seq<T.Piece> {
    T.Lit(TokenChars(token)) + if token.Hole? then [T.Hole] else []
  }

  function Rendered(ts: seq<Token>): seq<T.Piece> {
    if ts == [] then [] else Rendered(ts[..|ts| - 1]) + Written(ts[|ts| - 1])
  }

  lemma Without<X>(a: seq<X>, b: seq<X>)
    requires b != []
    ensures (a + b)[..|a + b| - 1] == a + b[..|b| - 1] && (a + b)[|a + b| - 1] == b[|b| - 1]
  {}

  lemma {:induction false} RenderedConcat(a: seq<Token>, b: seq<Token>)
    ensures Rendered(a + b) == Rendered(a) + Rendered(b)
    decreases |b|
  {
    if b == [] {
      assert a + b == a;
    } else {
      var front, last := b[..|b| - 1], Written(b[|b| - 1]);
      RenderedConcat(a, front);
      Without(a, b);
      Assoc(Rendered(a), Rendered(front), last);
    }
  }

  // ----- a tree with its values in their places -----

  function Chars(s: string): seq<T.Bound> {
    if s == "" then [] else Chars(s[..|s| - 1]) + [T.BCh(s[|s| - 1])]
  }

  function Shown(ts: seq<Token>): seq<T.Bound> {
    if ts == [] then [] else Shown(ts[..|ts| - 1]) + Chars(TokenChars(ts[|ts| - 1]))
  }

  function BoundOf(v: Operand): seq<T.Bound>
    decreases v, 0
  {
    match v
    case Literal(_, _, _, bound) => Chars(" ") + [T.BHole(bound)]
    case Field(_, column) => Shown([Word(column)])
    case Call(_, name, args) => Shown([Word(name), Open]) + BoundOfArgs(args) + Shown([Close])
  }

  function BoundOfArgs(args: seq<Part>): seq<T.Bound>
    decreases args, 1
  {
    if args == [] then []
    else if |args| == 1 then BoundOf(args[0].value)
    else BoundOf(args[0].value) + (Shown([Comma]) + BoundOfArgs(args[1..]))
  }

  function BoundOfItems(items: seq<Part>): seq<T.Bound>
    decreases items, 1
  {
    if items == [] then []
    else BoundOf(items[0].value) + (Shown(if items[0].comma then [Comma] else []) + BoundOfItems(items[1..]))
  }

  function BoundOfCondition(c: Condition): seq<T.Bound>
    decreases c, 0
  {
    match c
    case Compare(_, column, op, value) => Shown([Word(column), SqlOf(op)]) + BoundOf(value)
    case Within(_, column, op, items) => Shown([Word(column), op, Open]) + BoundOfItems(items) + Shown([Close])
    case Block(clauses) => Shown([Open]) + BoundOfClauses(clauses) + Shown([Close])
  }

  function BoundOfClauses(clauses: seq<Clause>): seq<T.Bound>
    decreases clauses, 1
  {
    if clauses == [] then [] else BoundOfClause(clauses[0]) + BoundOfClauses(clauses[1..])
  }

  function BoundOfClause(clause: Clause): seq<T.Bound>
    decreases clause, 0
  {
    Shown(if clause.logic.Some? then [clause.logic.value] else []) + BoundOfCondition(clause.condition)
  }

  // ----- the text with its values is the tree with its values -----

  /** The text has a placeholder for each literal, and dealing out their values gives `bound`. */
  predicate Binds(text: seq<Token>, literals: seq<Operand>, bound: seq<T.Bound>) {
    && T.Holes(Rendered(text)) == |literals|
    && T.Zip(Rendered(text), Values(literals)) == bound
  }

  lemma BindsJoin(a: seq<Token>, k: seq<Operand>, x: seq<T.Bound>, b: seq<Token>, l: seq<Operand>, y: seq<T.Bound>)
    requires Binds(a, k, x) && Binds(b, l, y)
    ensures Binds(a + b, k + l, x + y)
  {
    RenderedConcat(a, b);
    P.ValuesJoin(k, l);
    T.ZipConcat(Rendered(a), Rendered(b), Values(k), Values(l));
  }

  lemma {:induction false} LitBound(s: string, n: nat)
    requires n <= |s|
    ensures T.HolesTo(T.Lit(s), n) == 0 && T.ZipTo(T.Lit(s), n, []) == Chars(s[..n])
    decreases n
  {
    T.NoHoles(T.Lit(s), n);
    if n > 0 {
      LitBound(s, n - 1);
      T.NoHoles(T.Lit(s), n - 1);
      assert s[..n][..n - 1] == s[..n - 1];
    }
  }

  lemma OneRendered(token: Token)
    ensures Rendered([token]) == Written(token)
  {
    assert [token][..0] == [];
    assert [] + Written(token) == Written(token);
  }

  lemma {:induction false} BindsTokens(ts: seq<Token>)
    requires forall i :: 0 <= i < |ts| ==> ts[i] != Hole
    ensures Binds(ts, [], Shown(ts))
    decreases |ts|
  {
    if ts != [] {
      var front, last := ts[..|ts| - 1], ts[|ts| - 1];
      BindsTokens(front);
      BindsMore(front, last, Shown(front));
      assert front + [last] == ts;
    }
  }

  lemma {:induction false} BindsMore(front: seq<Token>, last: Token, bound: seq<T.Bound>)
    requires Binds(front, [], bound) && last != Hole
    ensures Binds(front + [last], [], bound + Chars(TokenChars(last)))
  {
    var none: seq<Operand> := [];
    BindsToken(last);
    BindsJoin(front, none, bound, [last], none, Chars(TokenChars(last)));
    assert none + none == none;
  }

  lemma BindsToken(token: Token)
    requires token != Hole
    ensures Binds([token], [], Chars(TokenChars(token)))
  {
    var s := TokenChars(token);
    OneRendered(token);
    LitBound(s, |s|);
    assert s[..|s|] == s;
    assert T.Lit(s) + [] == T.Lit(s);
  }

  lemma BindsLiteral(v: Operand)
    requires v.Literal?
    ensures Binds([Hole], [v], Chars(" ") + [T.BHole(v.bound)])
  {
    OneRendered(Hole);
    LitBound(" ", 1);
    assert " "[..1] == " ";
    T.OneHole(v.bound);
    T.ZipConcat(T.Lit(" "), [T.Hole], [], [v.bound]);
    assert Values([v]) == [v.bound] && [] + [v.bound] == [v.bound];
  }

  lemma BindsBehind(head: seq<Token>, text: seq<Token>, literals: seq<Operand>, bound: seq<T.Bound>)
    requires forall i :: 0 <= i < |head| ==> head[i] != Hole
    requires Binds(text, literals, bound)
    ensures Binds(head + text, literals, Shown(head) + bound)
  {
    BindsTokens(head);
    BindsJoin(head, [], Shown(head), text, literals, bound);
    assert [] + literals == literals;
  }

  lemma BindsApart(a: seq<Token>, k: seq<Operand>, x: seq<T.Bound>, between: seq<Token>, b: seq<Token>, l: seq<Operand>,
                   y: seq<T.Bound>)
    requires Binds(a, k, x) && Binds(b, l, y)
    requires forall i :: 0 <= i < |between| ==> between[i] != Hole
    ensures Binds(a + between + b, k + l, x + (Shown(between) + y))
  {
    BindsBehind(between, b, l, y);
    BindsJoin(a, k, x, between + b, l, Shown(between) + y);
    Assoc(a, between, b);
  }

  lemma BindsAround(head: seq<Token>, text: seq<Token>, literals: seq<Operand>, bound: seq<T.Bound>)
    requires forall i :: 0 <= i < |head| ==> head[i] != Hole
    requires Binds(text, literals, bound)
    ensures Binds(head + text + [Close], literals, Shown(head) + bound + Shown([Close]))
  {
    BindsBehind(head, text, literals, bound);
    BindsTokens([Close]);
    BindsJoin(head + text, literals, Shown(head) + bound, [Close], [], Shown([Close]));
    assert literals + [] == literals;
  }

  lemma {:induction false} OperandBinds(g: Grammar, ts: seq<Token>, t: ColType, format: string, v: Operand, n: nat)
    requires ParseOperand(g, ts, t, format) == Some((v, n))
    ensures Binds(TextOf(v), LiteralsOf(v), BoundOf(v))
    decreases |ts|, 0
  {
    match v
    case Literal(_, _, _, _) => BindsLiteral(v);
    case Field(_, column) => BindsTokens([Word(column)]);
    case Call(_, name, args) =>
      var end := BlockEnd(ts[1..]).value;
      ArgsBind(g, ts[2..end + 1], g.methods[ts[0].text].args, args);
      BindsAround([Word(name), Open], TextOfArgs(args), LiteralsOfParts(args), BoundOfArgs(args));
  }

  lemma {:induction false} ArgsBind(g: Grammar, ts: seq<Token>, types: seq<ColType>, args: seq<Part>)
    requires ParseArgs(g, ts, types) == Some(args)
    ensures Binds(TextOfArgs(args), LiteralsOfParts(args), BoundOfArgs(args))
    decreases |ts|, 1, |types|
  {
    if types == [] {
      BindsTokens([]);
    } else {
      var c := FirstComma(ts);
      var (v, n) := ParseOperand(g, ts[..c], types[0], "").value;
      var part := if c < |ts| then Part(v, ts[n..c], true) else Part(v, [], false);
      var tail := if c < |ts| then ts[c + 1..] else ts[n..];
      var rest := ParseArgs(g, tail, types[1..]).value;
      assert args == [part] + rest && args[0] == part && args[1..] == rest;
      OperandBinds(g, ts[..c], types[0], "", v, n);
      ArgsBind(g, tail, types[1..], rest);
      ArgBinds(args);
    }
  }

  lemma {:induction false} ArgBinds(args: seq<Part>)
    requires args != []
    requires Binds(TextOf(args[0].value), LiteralsOf(args[0].value), BoundOf(args[0].value))
    requires Binds(TextOfArgs(args[1..]), LiteralsOfParts(args[1..]), BoundOfArgs(args[1..]))
    ensures Binds(TextOfArgs(args), LiteralsOfParts(args), BoundOfArgs(args))
  {
    var v, rest := args[0].value, args[1..];
    if |args| == 1 {
      assert LiteralsOf(v) + [] == LiteralsOf(v);
    } else {
      BindsApart(TextOf(v), LiteralsOf(v), BoundOf(v), [Comma], TextOfArgs(rest), LiteralsOfParts(rest),
                 BoundOfArgs(rest));
    }
  }

  lemma {:induction false} ItemsBind(g: Grammar, ts: seq<Token>, t: ColType, format: string, items: seq<Part>)
    requires ParseItems(g, ts, t, format) == Some(items)
    ensures Binds(TextOfItems(items), LiteralsOfParts(items), BoundOfItems(items))
    decreases |ts|, 1
  {
    if ts == [] {
      BindsTokens([]);
    } else {
      var c := FirstComma(ts);
      var (v, n) := ParseOperand(g, ts[..c], t, format).value;
      var part := Part(v, ts[n..c], c < |ts|);
      var rest := if c < |ts| then ParseItems(g, ts[c + 1..], t, format).value else [];
      assert items == [part] + rest && items[0] == part && items[1..] == rest;
      OperandBinds(g, ts[..c], t, format, v, n);
      if c < |ts| {
        ItemsBind(g, ts[c + 1..], t, format, rest);
      } else {
        BindsTokens([]);
      }
      ItemBinds(items);
    }
  }

  lemma {:induction false} ItemBinds(items: seq<Part>)
    requires items != []
    requires Binds(TextOf(items[0].value), LiteralsOf(items[0].value), BoundOf(items[0].value))
    requires Binds(TextOfItems(items[1..]), LiteralsOfParts(items[1..]), BoundOfItems(items[1..]))
    ensures Binds(TextOfItems(items), LiteralsOfParts(items), BoundOfItems(items))
  {
    var v, rest, comma := items[0].value, items[1..], if items[0].comma then [Comma] else [];
    BindsApart(TextOf(v), LiteralsOf(v), BoundOf(v), comma, TextOfItems(rest), LiteralsOfParts(rest),
               BoundOfItems(rest));
  }

  lemma {:induction false} WithinBinds(c: Condition)
    requires c.Within? && c.op != Hole && Binds(TextOfItems(c.items), LiteralsOfParts(c.items), BoundOfItems(c.items))
    ensures Binds(TextOfCondition(c), LiteralsOfCondition(c), BoundOfCondition(c))
  {
    BindsAround([Word(c.column), c.op, Open], TextOfItems(c.items), LiteralsOfParts(c.items), BoundOfItems(c.items));
  }

  lemma {:induction false} CompareBinds(c: Condition)
    requires c.Compare? && c.op != Hole && Binds(TextOf(c.value), LiteralsOf(c.value), BoundOf(c.value))
    ensures Binds(TextOfCondition(c), LiteralsOfCondition(c), BoundOfCondition(c))
  {
    BindsBehind([Word(c.column), SqlOf(c.op)], TextOf(c.value), LiteralsOf(c.value), BoundOf(c.value));
  }

  lemma {:induction false} ConditionBinds(g: Grammar, ts: seq<Token>, c: Condition, n: nat)
    requires ParseCondition(g, ts) == Some((c, n))
    ensures Binds(TextOfCondition(c), LiteralsOfCondition(c), BoundOfCondition(c))
    decreases |ts|, 1
  {
    match c
    case Block(clauses) =>
      ClausesBind(g, ts[1..BlockEnd(ts).value], true, clauses);
      BindsAround([Open], TextOfClauses(clauses), LiteralsOfClauses(clauses), BoundOfClauses(clauses));
    case Within(_, _, _, items) =>
      var column := FindColumn(g, ts[0].text).value;
      var close := BlockEnd(ts[2..]).value;
      ItemsBind(g, ts[3..close + 2], StripOne(column.ctype), column.format, items);
      WithinBinds(c);
    case Compare(_, _, _, v) =>
      var column := FindColumn(g, ts[0].text).value;
      OperandBinds(g, ts[2..], Strip(column.ctype), column.format, v, n - 2);
      CompareBinds(c);
  }

  /**
   Whatever is accepted: as many placeholders as values, and each placeholder stands where its literal does in the
   tree.
   */
  lemma {:induction false} ClausesBind(g: Grammar, ts: seq<Token>, first: bool, clauses: seq<Clause>)
    requires ParseClauses(g, ts, first) == Some(clauses)
    ensures Binds(TextOfClauses(clauses), LiteralsOfClauses(clauses), BoundOfClauses(clauses))
    decreases |ts|, 2
  {
    if ts == [] {
      BindsTokens([]);
    } else {
      var start := if first then 0 else 1;
      var body := ts[start..];
      var (c, n) := ParseCondition(g, body).value;
      var tail := ts[start + n..];
      var rest := ParseClauses(g, tail, false).value;
      var logic := if first then [] else [ts[0]];
      var clause := Clause(if first then None else Some(ts[0]), c);
      assert clauses == [clause] + rest && clauses[0] == clause && clauses[1..] == rest;
      ConditionBinds(g, body, c, n);
      ClausesBind(g, tail, false, rest);
      BindsBehind(logic, TextOfCondition(c), LiteralsOfCondition(c), BoundOfCondition(c));
      BindsJoin(TextOfClause(clause), LiteralsOfClause(clause), BoundOfClause(clause), TextOfClauses(rest),
                LiteralsOfClauses(rest), BoundOfClauses(rest));
    }
  }

  // ----- the read that carries them -----

  /** The selector carries these criteria. */
  predicate Carries(r: B.Request, clauses: seq<Clause>) {
    && r.selector.criteria == Rendered(TextOfClauses(clauses))
    && r.selector.criteriaArgs == Values(LiteralsOfClauses(clauses))
  }

  lemma CriteriaFit(g: Grammar, input: seq<Token>, clauses: seq<Clause>, r: B.Request)
    requires ParseClauses(g, input, true) == Some(clauses) && Carries(r, clauses)
    ensures B.Fits(r) && T.Zip(r.selector.criteria, r.selector.criteriaArgs) == BoundOfClauses(clauses)
  {
    ClausesBind(g, input, true, clauses);
  }

  /** A read that is built from criteria of a user is bound: every placeholder has its value. */
  lemma CriteriaReadIsBound(g: Grammar, input: seq<Token>, clauses: seq<Clause>, r: B.Request, columns: string,
                            template: seq<T.Token>, accessors: map<string, seq<Value>>, supply: seq<Value>,
                            sql: seq<T.Token>, env: T.Env)
    requires ParseClauses(g, input, true) == Some(clauses) && Carries(r, clauses)
    requires B.ValidRequest(r) && B.PaginationText(r).Some? && T.Named(template)
    requires B.Included(r) || r.batch.valuesBatch == []
    requires sql == B.Assembled(r, columns, template) && env == B.EnvOf(r, template, accessors)
    requires T.Known(sql, env) && T.MarkCount(template) <= |supply|
    ensures T.MarkCount(sql) <= |supply| && T.Holes(T.TextOf(sql, env)) == |T.ArgsOf(sql, env, supply)|
    ensures T.Balanced(env) && T.Zip(T.TextOf(sql, env), T.ArgsOf(sql, env, supply)) == T.Meaning(sql, env, supply)
  {
    CriteriaFit(g, input, clauses, r);
    B.BuiltReadIsBound(r, columns, template, accessors, supply);
  }
}
