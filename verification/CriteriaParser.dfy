/**
 The parser of user criteria (router/criteria/parse.go): it reads the tokens once, and writes the text and the values of
 the placeholders as it goes.
 */
module CriteriaParser {
  import opened Criteria
  import opened Keys
  import opened Lists

  datatype Written = Written(buffer: seq<Token>, placeholders: seq<Value>)

  /** The text and the placeholders that grow while the input is read. */
  class Output {
    var buffer: seq<Token>
    var placeholders: seq<Value>

    constructor ()
      ensures Now() == Written([], [])
    {
      buffer, placeholders := [], [];
    }

    ghost function Now(): Written
      reads this
    {
      Written(buffer, placeholders)
    }

    method Write(token: Token)
      modifies this
      ensures Now() == old(Plus(Now(), [token], []))
    {
      buffer := buffer + [token];
    }

    method Bind(value: Value)
      modifies this
      ensures Now() == old(Plus(Now(), [Hole], [value]))
    {
      placeholders := placeholders + [value];
      buffer := buffer + [Hole];
    }
  }

  function Plus(w: Written, text: seq<Token>, values: seq<Value>): Written {
    Written(w.buffer + text, w.placeholders + values)
  }

  lemma PlusPlus(w: Written, x: seq<Token>, k: seq<Value>, y: seq<Token>, l: seq<Value>)
    ensures Plus(Plus(w, x, k), y, l) == Plus(w, x + y, k + l)
  {}

  lemma ValuesJoin(k: seq<Operand>, l: seq<Operand>)
    ensures Values(k + l) == Values(k) + Values(l)
  {}

  /** What an operand writes. */
  function WithOperand(w: Written, v: Operand): Written {
    Plus(w, TextOf(v), Values(LiteralsOf(v)))
  }

  method MatchFieldValue(g: Grammar, ts: seq<Token>, t: ColType, format: string, out: Output) returns (n: Option<nat>)
    modifies out
    ensures n.Some? <==> ParseOperand(g, ts, t, format).Some?
    ensures n.Some? ==>
              && n.value == ParseOperand(g, ts, t, format).value.1
              && out.Now() == WithOperand(old(out.Now()), ParseOperand(g, ts, t, format).value.0)
    decreases |ts|, 0
  {
    if t.Pointer? || t.kind.OtherKind? || |ts| == 0 {
      return None;
    }
    if LiteralOf(t.kind, ts[0]) {
      var converted := g.convert(ts[0].text, t, format);
      if converted.None? {
        return None;
      }
      out.Bind(converted.value);
      return Some(1);
    }
    if !ts[0].Word? {
      return None;
    }
    if Lookup(g, ts[0].text).Some? {
      var ok := AppendField(g, ts[0].text, t, out);
      return if ok then Some(1) else None;
    }
    if ts[0].text !in g.methods {
      return None;
    }
    n := AppendMethod(g, ts, g.methods[ts[0].text], out);
  }

  method AppendField(g: Grammar, value: string, t: ColType, out: Output) returns (ok: bool)
    modifies out
    ensures ok <==> FindColumn(g, value).Some? && FindColumn(g, value).value.ctype == t
    ensures ok ==> out.Now() == Plus(old(out.Now()), [Word(FindColumn(g, value).value.name)], [])
  {
    var column := FindColumn(g, value);
    if column.None? || column.value.ctype != t {
      return false;
    }
    out.Write(Word(column.value.name));
    return true;
  }

  method AppendMethod(g: Grammar, ts: seq<Token>, m: Method, out: Output) returns (n: Option<nat>)
    requires ts != [] && ts[0].Word?
    modifies out
    ensures n.Some? <==> BlockEnd(ts[1..]).Some? && ParseArgs(g, ts[2..BlockEnd(ts[1..]).value + 1], m.args).Some?
    ensures n.Some? ==>
              var end := BlockEnd(ts[1..]).value;
              && n.value == end + 2
              && out.Now() == WithOperand(old(out.Now()),
                                          Call(ts[0].text, m.name, ParseArgs(g, ts[2..end + 1], m.args).value))
    decreases |ts| - 1, 3
  {
    ghost var w := out.Now();
    out.Write(Word(m.name));
    var end := BlockEnd(ts[1..]);
    if end.None? {
      return None;
    }
    out.Write(Open);
    var block := ts[2..end.value + 1];
    var ok := MatchMethod(g, block, m.args, out);
    if !ok {
      return None;
    }
    out.Write(Close);
    CallWritten(w, ts[0].text, m.name, ParseArgs(g, block, m.args).value);
    return Some(end.value + 2);
  }

  lemma CallWritten(w: Written, word: string, name: string, args: seq<Part>)
    ensures Plus(WithArgs(Plus(Plus(w, [Word(name)], []), [Open], []), args), [Close], []) ==
            WithOperand(w, Call(word, name, args))
  {
    var head := Written(w.buffer + [Word(name)] + [Open], w.placeholders + [] + []);
    assert head == Written(w.buffer + [Word(name), Open], w.placeholders);
  }

  lemma {:induction false} PartsSnoc(parts: seq<Part>, part: Part)
    ensures LiteralsOfParts(parts + [part]) == LiteralsOfParts(parts) + LiteralsOf(part.value)
    decreases |parts|
  {
    if parts == [] {
      assert parts + [part] == [part] && [part][1..] == [];
    } else {
      PartsSnoc(parts[1..], part);
      assert (parts + [part])[1..] == parts[1..] + [part];
      Assoc(LiteralsOf(parts[0].value), LiteralsOfParts(parts[1..]), LiteralsOf(part.value));
    }
  }

  lemma {:induction false} ArgsSnoc(args: seq<Part>, part: Part, last: seq<Token>)
    requires last == (if args == [] then [] else [Comma]) + TextOf(part.value)
    ensures TextOfArgs(args + [part]) == TextOfArgs(args) + last
    decreases |args|
  {
    if args == [] {
      assert args + [part] == [part];
      assert [] + last == last;
    } else {
      assert (args + [part])[1..] == args[1..] + [part];
      if |args| == 1 {
        assert args[1..] + [part] == [part];
        Assoc(TextOf(args[0].value), [Comma], TextOf(part.value));
      } else {
        ArgsSnoc(args[1..], part, last);
        Assoc(TextOf(args[0].value) + [Comma], TextOfArgs(args[1..]), last);
      }
    }
  }

  lemma {:induction false} ItemsSnoc(items: seq<Part>, part: Part, last: seq<Token>)
    requires last == TextOf(part.value) + if part.comma then [Comma] else []
    ensures TextOfItems(items + [part]) == TextOfItems(items) + last
    decreases |items|
  {
    if items == [] {
      assert items + [part] == [part] && [part][1..] == [];
      assert last + [] == last && [] + last == last;
    } else {
      ItemsSnoc(items[1..], part, last);
      assert (items + [part])[1..] == items[1..] + [part];
      Assoc(TextOf(items[0].value) + (if items[0].comma then [Comma] else []), TextOfItems(items[1..]), last);
    }
  }

  lemma {:induction false} ClausesSnoc(clauses: seq<Clause>, clause: Clause)
    ensures TextOfClauses(clauses + [clause]) == TextOfClauses(clauses) + TextOfClause(clause)
    decreases |clauses|
  {
    if clauses == [] {
      assert clauses + [clause] == [clause] && [clause][1..] == [];
      assert TextOfClause(clause) + [] == TextOfClause(clause);
    } else {
      ClausesSnoc(clauses[1..], clause);
      assert (clauses + [clause])[1..] == clauses[1..] + [clause];
      Assoc(TextOfClause(clauses[0]), TextOfClauses(clauses[1..]), TextOfClause(clause));
    }
  }

  lemma {:induction false} LiteralsSnoc(clauses: seq<Clause>, clause: Clause)
    ensures LiteralsOfClauses(clauses + [clause]) == LiteralsOfClauses(clauses) + LiteralsOfClause(clause)
    decreases |clauses|
  {
    if clauses == [] {
      assert clauses + [clause] == [clause] && [clause][1..] == [];
    } else {
      LiteralsSnoc(clauses[1..], clause);
      assert (clauses + [clause])[1..] == clauses[1..] + [clause];
      Assoc(LiteralsOfClause(clauses[0]), LiteralsOfClauses(clauses[1..]), LiteralsOfClause(clause));
    }
  }

  /** The parts that were read, before those that the rest has. */
  function Joined<T>(done: seq<T>, rest: Option<seq<T>>): Option<seq<T>> {
    if rest.None? then None else Some(done + rest.value)
  }

  function WithArgs(w: Written, args: seq<Part>): Written {
    Plus(w, TextOfArgs(args), Values(LiteralsOfParts(args)))
  }

  function WithItems(w: Written, items: seq<Part>): Written {
    Plus(w, TextOfItems(items), Values(LiteralsOfParts(items)))
  }

  function WithClauses(w: Written, clauses: seq<Clause>): Written {
    Plus(w, TextOfClauses(clauses), Values(LiteralsOfClauses(clauses)))
  }

  lemma WithArgsMore(w: Written, args: seq<Part>, part: Part)
    ensures WithOperand(Plus(WithArgs(w, args), if args == [] then [] else [Comma], []), part.value) ==
            WithArgs(w, args + [part])
  {
    var comma := if args == [] then [] else [Comma];
    ArgsSnoc(args, part, comma + TextOf(part.value));
    PartsSnoc(args, part);
    Assoc(TextOfArgs(args), comma, TextOf(part.value));
    var k, l := LiteralsOfParts(args), LiteralsOf(part.value);
    PlusPlus(w, TextOfArgs(args), Values(k), comma, []);
    PlusPlus(w, TextOfArgs(args) + comma, Values(k) + [], TextOf(part.value), Values(l));
    assert Values(k) + [] == Values(k);
    ValuesJoin(k, l);
  }

  lemma WithItemsMore(w: Written, items: seq<Part>, part: Part)
    ensures Plus(WithOperand(WithItems(w, items), part.value), if part.comma then [Comma] else [], []) ==
            WithItems(w, items + [part])
  {
    var comma := if part.comma then [Comma] else [];
    ItemsSnoc(items, part, TextOf(part.value) + comma);
    PartsSnoc(items, part);
    Assoc(TextOfItems(items), TextOf(part.value), comma);
    var k, l := LiteralsOfParts(items), LiteralsOf(part.value);
    PlusPlus(w, TextOfItems(items), Values(k), TextOf(part.value), Values(l));
    PlusPlus(w, TextOfItems(items) + TextOf(part.value), Values(k) + Values(l), comma, []);
    assert Values(k) + Values(l) + [] == Values(k) + Values(l);
    ValuesJoin(k, l);
  }

  lemma WithClausesMore(w: Written, clauses: seq<Clause>, clause: Clause)
    ensures var logic := if clause.logic.Some? then [clause.logic.value] else [];
            Plus(Plus(WithClauses(w, clauses), logic, []), TextOfCondition(clause.condition),
                 Values(LiteralsOfCondition(clause.condition)))
            == WithClauses(w, clauses + [clause])
  {
    ClausesSnoc(clauses, clause);
    LiteralsSnoc(clauses, clause);
    var logic := if clause.logic.Some? then [clause.logic.value] else [];
    var k, l := LiteralsOfClauses(clauses), LiteralsOfCondition(clause.condition);
    PlusPlus(w, TextOfClauses(clauses), Values(k), logic, []);
    PlusPlus(w, TextOfClauses(clauses) + logic, Values(k) + [], TextOfCondition(clause.condition), Values(l));
    assert Values(k) + [] == Values(k);
    assert TextOfClauses(clauses) + logic + TextOfCondition(clause.condition) ==
           TextOfClauses(clauses) + (logic + TextOfCondition(clause.condition));
    ValuesJoin(k, l);
  }

  /** One argument, after a comma unless it is the first. */
  method MatchArg(g: Grammar, ts: seq<Token>, t: ColType, out: Output, first: bool, ghost w: Written,
                  ghost args: seq<Part>)
    returns (ok: bool, rest: seq<Token>, ghost part: Part)
    requires out.Now() == WithArgs(w, args) && first == (args == [])
    modifies out
    ensures ok <==> ts != [] && ParseOperand(g, ts[..FirstComma(ts)], t, "").Some?
    ensures ok ==>
              var c := FirstComma(ts);
              var v := ParseOperand(g, ts[..c], t, "").value;
              && part == (if c < |ts| then Part(v.0, ts[v.1..c], true) else Part(v.0, [], false))
              && rest == (if c < |ts| then ts[c + 1..] else ts[v.1..])
              && |rest| < |ts|
              && out.Now() == WithArgs(w, args + [part])
    decreases |ts|, 1
  {
    ok, rest, part := false, ts, Part(Field("", ""), [], false);
    if !first {
      out.Write(Comma);
    }
    if |ts| == 0 {
      return;
    }
    assert out.Now() == Plus(WithArgs(w, args), if args == [] then [] else [Comma], []);
    var c := FirstComma(ts);
    assert c == |ts| ==> ts[..c] == ts;
    var n := MatchFieldValue(g, ts[..c], t, "", out);
    if n.None? {
      return;
    }
    ok, rest := true, if c < |ts| then ts[c + 1..] else ts[n.value..];
    ghost var v := ParseOperand(g, ts[..c], t, "").value;
    part := if c < |ts| then Part(v.0, ts[v.1..c], true) else Part(v.0, [], false);
    WithArgsMore(w, args, part);
  }

  method MatchMethod(g: Grammar, ts: seq<Token>, types: seq<ColType>, out: Output) returns (ok: bool)
    modifies out
    ensures ok <==> ParseArgs(g, ts, types).Some?
    ensures ok ==> out.Now() == WithArgs(old(out.Now()), ParseArgs(g, ts, types).value)
    decreases |ts|, 2
  {
    ghost var w, args: seq<Part> := out.Now(), [];
    var rest := ts;
    JoinedNothing(ParseArgs(g, ts, types));
    assert types[0..] == types;
    for i := 0 to |types|
      invariant |rest| <= |ts| && (i == 0 <==> args == [])
      invariant out.Now() == WithArgs(w, args)
      invariant ParseArgs(g, ts, types) == Joined(args, ParseArgs(g, rest, types[i..]))
    {
      ghost var part, before := Part(Field("", ""), [], false), rest;
      ok, rest, part := MatchArg(g, rest, types[i], out, i == 0, w, args);
      if !ok {
        return false;
      }
      ArgsStep(g, before, types[i..], part, rest);
      assert types[i..][1..] == types[i + 1..];
      JoinedMore(args, part, ParseArgs(g, rest, types[i + 1..]));
      args := args + [part];
    }
    ok := |rest| == 0;
    assert ok ==> args + [] == args;
  }

  lemma ArgsStep(g: Grammar, ts: seq<Token>, types: seq<ColType>, part: Part, rest: seq<Token>)
    requires types != [] && ts != [] && ParseOperand(g, ts[..FirstComma(ts)], types[0], "").Some?
    requires var c := FirstComma(ts);
             var v := ParseOperand(g, ts[..c], types[0], "").value;
             && part == (if c < |ts| then Part(v.0, ts[v.1..c], true) else Part(v.0, [], false))
             && rest == (if c < |ts| then ts[c + 1..] else ts[v.1..])
    ensures ParseArgs(g, ts, types) == Joined([part], ParseArgs(g, rest, types[1..]))
  {}

  lemma JoinedNothing<T>(rest: Option<seq<T>>)
    ensures Joined([], rest) == rest
  {
    if rest.Some? {
      assert [] + rest.value == rest.value;
    }
  }

  lemma JoinedMore<T>(done: seq<T>, x: T, rest: Option<seq<T>>)
    ensures Joined(done, Joined([x], rest)) == Joined(done + [x], rest)
  {
    if rest.Some? {
      assert done + ([x] + rest.value) == (done + [x]) + rest.value;
    }
  }

  /** One item of a list, with its comma. */
  method MatchItem(g: Grammar, ts: seq<Token>, t: ColType, format: string, out: Output, ghost w: Written,
                   ghost items: seq<Part>)
    returns (ok: bool, rest: seq<Token>, ghost part: Part)
    requires ts != [] && out.Now() == WithItems(w, items)
    modifies out
    ensures ok <==> ParseOperand(g, ts[..FirstComma(ts)], t, format).Some?
    ensures ok ==>
              var c := FirstComma(ts);
              var v := ParseOperand(g, ts[..c], t, format).value;
              && part == Part(v.0, ts[v.1..c], c < |ts|)
              && rest == (if c < |ts| then ts[c + 1..] else [])
              && |rest| < |ts|
              && out.Now() == WithItems(w, items + [part])
    decreases |ts|, 1
  {
    ok, rest, part := false, ts, Part(Field("", ""), [], false);
    var c := FirstComma(ts);
    var n := MatchFieldValue(g, ts[..c], t, format, out);
    if n.None? {
      return;
    }
    ghost var v := ParseOperand(g, ts[..c], t, format).value;
    part := Part(v.0, ts[v.1..c], c < |ts|);
    ok, rest := true, if c < |ts| then ts[c + 1..] else [];
    if c < |ts| {
      out.Write(Comma);
    }
    WithItemsMore(w, items, part);
    assert out.Now() == Plus(WithOperand(WithItems(w, items), v.0), if c < |ts| then [Comma] else [], []);
  }

  lemma ItemsStep(g: Grammar, ts: seq<Token>, t: ColType, format: string, part: Part, rest: seq<Token>)
    requires ts != [] && ParseOperand(g, ts[..FirstComma(ts)], t, format).Some?
    requires var c := FirstComma(ts);
             var v := ParseOperand(g, ts[..c], t, format).value;
             && part == Part(v.0, ts[v.1..c], c < |ts|) && rest == (if c < |ts| then ts[c + 1..] else [])
    ensures ParseItems(g, ts, t, format) == Joined([part], ParseItems(g, rest, t, format))
  {}

  /** The list of an `IN`, without its parentheses. */
  method MatchItems(g: Grammar, ts: seq<Token>, t: ColType, format: string, out: Output) returns (ok: bool)
    modifies out
    ensures ok <==> ParseItems(g, ts, t, format).Some?
    ensures ok ==> out.Now() == WithItems(old(out.Now()), ParseItems(g, ts, t, format).value)
    decreases |ts|, 2
  {
    ghost var w, items: seq<Part> := out.Now(), [];
    var rest := ts;
    JoinedNothing(ParseItems(g, ts, t, format));
    while |rest| > 0
      invariant |rest| <= |ts|
      invariant out.Now() == WithItems(w, items)
      invariant ParseItems(g, ts, t, format) == Joined(items, ParseItems(g, rest, t, format))
      decreases |rest|
    {
      ghost var part, before := Part(Field("", ""), [], false), rest;
      ok, rest, part := MatchItem(g, rest, t, format, out, w, items);
      if !ok {
        return false;
      }
      ItemsStep(g, before, t, format, part, rest);
      JoinedMore(items, part, ParseItems(g, rest, t, format));
      items := items + [part];
    }
    assert items + [] == items;
    return true;
  }

  function WithCondition(w: Written, c: Condition): Written {
    Plus(w, TextOfCondition(c), Values(LiteralsOfCondition(c)))
  }

  /** A list in parentheses. */
  method MatchDataSet(g: Grammar, ts: seq<Token>, t: ColType, format: string, out: Output) returns (n: Option<nat>)
    modifies out
    ensures n.Some? <==> BlockEnd(ts).Some? && ParseItems(g, ts[1..BlockEnd(ts).value], t, format).Some?
    ensures n.Some? ==>
              && n.value == BlockEnd(ts).value + 1
              && out.Now() == WithList(old(out.Now()), ParseItems(g, ts[1..BlockEnd(ts).value], t, format).value)
    decreases |ts|, 3
  {
    var close := BlockEnd(ts);
    if close.None? {
      return None;
    }
    out.Write(Open);
    var ok := MatchItems(g, ts[1..close.value], t, format, out);
    if !ok {
      return None;
    }
    out.Write(Close);
    return Some(close.value + 1);
  }

  function WithList(w: Written, items: seq<Part>): Written {
    Plus(WithItems(Plus(w, [Open], []), items), [Close], [])
  }

  /** The column and the operator that start an expression. */
  predicate Starts(g: Grammar, ts: seq<Token>, column: Column) {
    |ts| >= 2 && ts[0].Word? && FindColumn(g, ts[0].text) == Some(column)
      && OperatorOf(Strip(column.ctype).kind, ts[1]).Some?
  }

  function WithStart(w: Written, column: Column, op: Token): Written {
    Plus(Plus(w, [Word(column.name)], []), [op], [])
  }

  method MatchStart(g: Grammar, ts: seq<Token>, out: Output) returns (column: Option<Column>)
    modifies out
    ensures column.Some? ==> Starts(g, ts, column.value)
    ensures column.Some? ==>
              out.Now() == WithStart(old(out.Now()), column.value,
                                     OperatorOf(Strip(column.value.ctype).kind, ts[1]).value)
    ensures column.None? ==> !exists c :: Starts(g, ts, c)
  {
    if |ts| == 0 || !ts[0].Word? {
      return None;
    }
    column := FindColumn(g, ts[0].text);
    if column.None? {
      return None;
    }
    out.Write(Word(column.value.name));
    if |ts| < 2 {
      return None;
    }
    var op := OperatorOf(Strip(column.value.ctype).kind, ts[1]);
    if op.None? {
      return None;
    }
    out.Write(op.value);
  }

  /** Without a start there is no expression; with one, it is a list or a value that decides. */
  lemma ExpressionParsed(g: Grammar, ts: seq<Token>)
    requires BlockEnd(ts).None?
    ensures ParseCondition(g, ts).Some? ==> exists c :: Starts(g, ts, c)
  {
    if ParseCondition(g, ts).Some? {
      assert Starts(g, ts, FindColumn(g, ts[0].text).value);
    }
  }

  lemma ListParsed(g: Grammar, ts: seq<Token>, column: Column)
    requires BlockEnd(ts).None? && Starts(g, ts, column) && IsIn(ts[1])
    ensures var close := BlockEnd(ts[2..]);
            ParseCondition(g, ts) ==
            if close.None? then None
            else
              var items := ParseItems(g, ts[2..][1..close.value], StripOne(column.ctype), column.format);
              if items.None? then None else Some((Within(ts[0].text, column.name, ts[1], items.value), close.value + 3))
  {
    var close := BlockEnd(ts[2..]);
    assert close.Some? ==> ts[2..][1..close.value] == ts[3..close.value + 2];
  }

  lemma ValueParsed(g: Grammar, ts: seq<Token>, column: Column)
    requires BlockEnd(ts).None? && Starts(g, ts, column) && !IsIn(ts[1])
    ensures var v := ParseOperand(g, ts[2..], Strip(column.ctype), column.format);
            ParseCondition(g, ts) ==
            if v.None? then None else Some((Compare(ts[0].text, column.name, ts[1], v.value.0), v.value.1 + 2))
  {}

  method MatchExpression(g: Grammar, ts: seq<Token>, out: Output) returns (n: Option<nat>)
    requires BlockEnd(ts).None?
    modifies out
    ensures n.Some? <==> ParseCondition(g, ts).Some?
    ensures n.Some? ==>
              && n.value == ParseCondition(g, ts).value.1
              && out.Now() == WithCondition(old(out.Now()), ParseCondition(g, ts).value.0)
    decreases |ts|, 2
  {
    ghost var w := out.Now();
    ExpressionParsed(g, ts);
    var column := MatchStart(g, ts, out);
    if column.None? {
      return None;
    }
    if IsIn(ts[1]) {
      ListParsed(g, ts, column.value);
      n := MatchDataSet(g, ts[2..], StripOne(column.value.ctype), column.value.format, out);
      if n.None? {
        return None;
      }
      WithinWritten(w, ts[0].text, column.value.name, ts[1], ParseCondition(g, ts).value.0.items);
    } else {
      ValueParsed(g, ts, column.value);
      n := MatchFieldValue(g, ts[2..], Strip(column.value.ctype), column.value.format, out);
      if n.None? {
        return None;
      }
      CompareWritten(w, ts[0].text, column.value.name, ts[1], ParseCondition(g, ts).value.0.value);
    }
    return Some(n.value + 2);
  }

  lemma WithinWritten(w: Written, word: string, name: string, op: Token, items: seq<Part>)
    ensures WithList(Plus(Plus(w, [Word(name)], []), [op], []), items) ==
            WithCondition(w, Within(word, name, op, items))
  {
    var head := Written(w.buffer + [Word(name)] + [op] + [Open], w.placeholders + [] + [] + []);
    assert head == Written(w.buffer + [Word(name), op, Open], w.placeholders);
  }

  lemma CompareWritten(w: Written, word: string, name: string, op: Token, v: Operand)
    ensures WithOperand(Plus(Plus(w, [Word(name)], []), [SqlOf(op)], []), v) ==
            WithCondition(w, Compare(word, name, op, v))
  {
    var head := Written(w.buffer + [Word(name)] + [SqlOf(op)], w.placeholders + [] + []);
    assert head == Written(w.buffer + [Word(name), SqlOf(op)], w.placeholders);
  }

  method MatchOperator(ts: seq<Token>, out: Output) returns (ok: bool)
    modifies out
    ensures ok <==> ts != [] && IsLogic(ts[0])
    ensures ok ==> out.Now() == Plus(old(out.Now()), [ts[0]], [])
  {
    if |ts| == 0 || !IsLogic(ts[0]) {
      return false;
    }
    out.Write(ts[0]);
    return true;
  }

  /** A block in parentheses or an expression. */
  method MatchCondition(g: Grammar, ts: seq<Token>, out: Output) returns (n: Option<nat>)
    modifies out
    ensures n.Some? <==> ParseCondition(g, ts).Some?
    ensures n.Some? ==>
              && n.value == ParseCondition(g, ts).value.1
              && out.Now() == WithCondition(old(out.Now()), ParseCondition(g, ts).value.0)
    decreases |ts|, 3
  {
    ghost var w := out.Now();
    var end := BlockEnd(ts);
    if end.None? {
      n := MatchExpression(g, ts, out);
      return n;
    }
    out.Write(Open);
    var block := ts[1..end.value];
    var ok := ParseAll(g, block, out);
    if !ok {
      return None;
    }
    out.Write(Close);
    BlockWritten(w, ParseClauses(g, block, true).value);
    return Some(end.value + 1);
  }

  lemma BlockWritten(w: Written, clauses: seq<Clause>)
    ensures Plus(WithClauses(Plus(w, [Open], []), clauses), [Close], []) == WithCondition(w, Block(clauses))
  {
    assert w.placeholders + [] == w.placeholders;
  }

  lemma ClausesStep(g: Grammar, ts: seq<Token>, first: bool, n: nat, clause: Clause, rest: seq<Token>)
    requires ts != [] && (first || IsLogic(ts[0]))
    requires var start := if first then 0 else 1;
             && ParseCondition(g, ts[start..]) == Some((clause.condition, n))
             && clause.logic == (if first then None else Some(ts[0])) && rest == ts[start + n..]
    ensures ParseClauses(g, ts, first) == Joined([clause], ParseClauses(g, rest, false))
  {}

  /** Reads clauses up to the end of the input. */
  method ParseAll(g: Grammar, ts: seq<Token>, out: Output) returns (ok: bool)
    modifies out
    ensures ok <==> ParseClauses(g, ts, true).Some?
    ensures ok ==> out.Now() == WithClauses(old(out.Now()), ParseClauses(g, ts, true).value)
    decreases |ts|, 4
  {
    ghost var w, clauses: seq<Clause> := out.Now(), [];
    var isFirstTime := true;
    var rest := ts;
    JoinedNothing(ParseClauses(g, ts, true));
    while |rest| > 0
      invariant |rest| <= |ts|
      invariant out.Now() == WithClauses(w, clauses)
      invariant ParseClauses(g, ts, true) == Joined(clauses, ParseClauses(g, rest, isFirstTime))
      decreases |rest|
    {
      ghost var before, first := rest, isFirstTime;
      if !isFirstTime {
        ok := MatchOperator(rest, out);
        if !ok {
          return false;
        }
      }
      var body := rest[if isFirstTime then 0 else 1..];
      isFirstTime := false;
      var n := MatchCondition(g, body, out);
      if n.None? {
        return false;
      }
      rest := body[n.value..];
      ghost var clause := Clause(if first then None else Some(before[0]), ParseCondition(g, body).value.0);
      ClausesStep(g, before, first, n.value, clause, rest);
      JoinedMore(clauses, clause, ParseClauses(g, rest, false));
      WithClausesMore(w, clauses, clause);
      clauses := clauses + [clause];
    }
    assert clauses + [] == clauses;
    return true;
  }

  /** The criteria of a request: the text and its placeholders, or an error. */
  method Parse(g: Grammar, input: seq<Token>) returns (r: Option<Written>)
    ensures r.Some? <==> ParseClauses(g, input, true).Some?
    ensures r.Some? ==>
              var clauses := ParseClauses(g, input, true).value;
              r.value == Written(TextOfClauses(clauses), Values(LiteralsOfClauses(clauses)))
  {
    if |input| == 0 {
      return Some(Written([], []));
    }
    var out := new Output();
    var ok := ParseAll(g, input, out);
    if !ok {
      return None;
    }
    return Some(Written(out.buffer, out.placeholders));
  }
}
