/**
 What user criteria become: the accepted input is the source of its syntax tree, every placeholder has the value of its
 literal, and the text is the input again with the literals put back exactly when every list item and argument holds one
 value.
 */
module CriteriaLaws {
  import opened Criteria
  import opened Keys
  import opened Lists

  // ----- the source is the input, and the values are converted -----

  /** Tokens up to a comma, that comma and the others. */
  lemma Cut(ts: seq<Token>, n: nat, c: nat)
    requires n <= c <= |ts| && (c < |ts| ==> ts[c] == Comma)
    ensures ts[..c][..n] == ts[..n]
    ensures c < |ts| ==> ts[..n] + ts[n..c] + [Comma] + ts[c + 1..] == ts
    ensures c == |ts| ==> ts[..n] + ts[n..c] + [] + [] == ts
    ensures ts[..n] + [] + [] + ts[n..] == ts
  {}

  lemma CutCall(ts: seq<Token>, end: nat)
    requires 1 <= end && end + 1 < |ts| && ts[0].Word? && ts[1..][0] == Open && ts[1..][end] == Close
    ensures ts[..end + 2] == [Word(ts[0].text), Open] + ts[2..end + 1] + [Close]
  {}

  lemma CutBlock(ts: seq<Token>, end: nat)
    requires 1 <= end < |ts| && ts[0] == Open && ts[end] == Close
    ensures ts[..end + 1] == [Open] + ts[1..end] + [Close]
  {}

  lemma CutWithin(ts: seq<Token>, close: nat)
    requires 1 <= close && close + 2 < |ts| && ts[0].Word? && ts[2..][0] == Open && ts[2..][close] == Close
    ensures ts[..close + 3] == [Word(ts[0].text), ts[1], Open] + ts[3..close + 2] + [Close]
  {}

  lemma CutCompare(ts: seq<Token>, n: nat)
    requires 2 <= n <= |ts| && ts[0].Word?
    ensures ts[..n] == [Word(ts[0].text), ts[1]] + ts[2..][..n - 2]
  {}

  lemma CutClause(ts: seq<Token>, start: nat, n: nat)
    requires start <= 1 && start + n <= |ts|
    ensures ts[..start] + ts[start..][..n] + ts[start + n..] == ts
    ensures start == 1 ==> ts[..start] == [ts[0]]
  {}

  lemma FirstPart(part: Part, rest: seq<Part>)
    ensures SourceOfParts([part] + rest) ==
            SourceOf(part.value) + part.ignored + (if part.comma then [Comma] else []) + SourceOfParts(rest)
    ensures LiteralsOfParts([part] + rest) == LiteralsOf(part.value) + LiteralsOfParts(rest)
  {
    assert ([part] + rest)[1..] == rest;
  }

  lemma FirstClause(clause: Clause, rest: seq<Clause>)
    ensures SourceOfClauses([clause] + rest) ==
            SourceOfClause(clause) + SourceOfClauses(rest)
    ensures LiteralsOfClauses([clause] + rest) == LiteralsOfClause(clause) + LiteralsOfClauses(rest)
  {
    assert ([clause] + rest)[1..] == rest;
  }

  lemma ConvertedJoin(g: Grammar, a: seq<Operand>, b: seq<Operand>)
    requires Converted(g, a) && Converted(g, b)
    ensures Converted(g, a + b)
  {}

  /** A value stands for the tokens it was made from. */
  ghost predicate Stands(g: Grammar, v: Operand, ts: seq<Token>) {
    SourceOf(v) == ts && Converted(g, LiteralsOf(v))
  }

  ghost predicate PartsStand(g: Grammar, parts: seq<Part>, ts: seq<Token>) {
    SourceOfParts(parts) == ts && Converted(g, LiteralsOfParts(parts))
  }

  lemma PartsMore(g: Grammar, part: Part, rest: seq<Part>, v: seq<Token>, ts: seq<Token>)
    requires Stands(g, part.value, v) && PartsStand(g, rest, ts)
    ensures PartsStand(g, [part] + rest, v + part.ignored + (if part.comma then [Comma] else []) + ts)
  {
    FirstPart(part, rest);
    ConvertedJoin(g, LiteralsOf(part.value), LiteralsOfParts(rest));
  }

  lemma CallStands(g: Grammar, word: string, name: string, args: seq<Part>, block: seq<Token>)
    requires PartsStand(g, args, block)
    ensures Stands(g, Call(word, name, args), [Word(word), Open] + block + [Close])
  {}

  lemma {:induction false} OperandSound(g: Grammar, ts: seq<Token>, t: ColType, format: string, v: Operand, n: nat)
    requires ParseOperand(g, ts, t, format) == Some((v, n))
    ensures n <= |ts| && Stands(g, v, ts[..n])
    decreases |ts|, 0
  {
    if v.Call? {
      var end := BlockEnd(ts[1..]).value;
      var block := ts[2..end + 1];
      ArgsSound(g, block, g.methods[ts[0].text].args, v.args);
      CallStands(g, v.word, v.name, v.args, block);
      CutCall(ts, end);
    } else {
      assert ts[..1] == [ts[0]];
    }
  }

  lemma {:induction false} ArgsSound(g: Grammar, ts: seq<Token>, types: seq<ColType>, args: seq<Part>)
    requires ParseArgs(g, ts, types) == Some(args)
    ensures PartsStand(g, args, ts) && |args| == |types|
    decreases |ts|, 1, |types|
  {
    if types != [] {
      var c := FirstComma(ts);
      var (v, n) := ParseOperand(g, ts[..c], types[0], "").value;
      OperandSound(g, ts[..c], types[0], "", v, n);
      Cut(ts, n, c);
      var part := if c < |ts| then Part(v, ts[n..c], true) else Part(v, [], false);
      var tail := if c < |ts| then ts[c + 1..] else ts[n..];
      var rest := ParseArgs(g, tail, types[1..]).value;
      ArgsSound(g, tail, types[1..], rest);
      PartsMore(g, part, rest, ts[..n], tail);
      assert args == [part] + rest;
    }
  }

  lemma {:induction false} ItemsSound(g: Grammar, ts: seq<Token>, t: ColType, format: string, items: seq<Part>)
    requires ParseItems(g, ts, t, format) == Some(items)
    ensures PartsStand(g, items, ts)
    decreases |ts|, 1
  {
    if ts != [] {
      var c := FirstComma(ts);
      var (v, n) := ParseOperand(g, ts[..c], t, format).value;
      OperandSound(g, ts[..c], t, format, v, n);
      Cut(ts, n, c);
      var part := Part(v, ts[n..c], c < |ts|);
      var tail := if c < |ts| then ts[c + 1..] else [];
      var rest := if c < |ts| then ParseItems(g, tail, t, format).value else [];
      if c < |ts| {
        ItemsSound(g, tail, t, format, rest);
      }
      PartsMore(g, part, rest, ts[..n], tail);
      assert items == [part] + rest;
    }
  }

  ghost predicate ConditionStands(g: Grammar, c: Condition, ts: seq<Token>) {
    SourceOfCondition(c) == ts && Converted(g, LiteralsOfCondition(c))
  }

  ghost predicate ClausesStand(g: Grammar, clauses: seq<Clause>, ts: seq<Token>) {
    SourceOfClauses(clauses) == ts && Converted(g, LiteralsOfClauses(clauses))
  }

  lemma {:induction false} ConditionSound(g: Grammar, ts: seq<Token>, c: Condition, n: nat)
    requires ParseCondition(g, ts) == Some((c, n))
    ensures n <= |ts| && ConditionStands(g, c, ts[..n])
    decreases |ts|, 1
  {
    match c
    case Block(clauses) =>
      var end := BlockEnd(ts).value;
      ClausesSound(g, ts[1..end], true, clauses);
      CutBlock(ts, end);
    case Within(_, _, _, items) =>
      var column := FindColumn(g, ts[0].text).value;
      var close := BlockEnd(ts[2..]).value;
      ItemsSound(g, ts[3..close + 2], StripOne(column.ctype), column.format, items);
      CutWithin(ts, close);
    case Compare(_, _, _, v) =>
      var column := FindColumn(g, ts[0].text).value;
      OperandSound(g, ts[2..], Strip(column.ctype), column.format, v, n - 2);
      CutCompare(ts, n);
  }

  lemma ClausesMore(g: Grammar, clause: Clause, rest: seq<Clause>, ts: seq<Token>, tail: seq<Token>)
    requires ConditionStands(g, clause.condition, ts) && ClausesStand(g, rest, tail)
    ensures ClausesStand(g, [clause] + rest, (if clause.logic.Some? then [clause.logic.value] else []) + ts + tail)
  {
    FirstClause(clause, rest);
    ConvertedJoin(g, LiteralsOfCondition(clause.condition), LiteralsOfClauses(rest));
  }

  /**
   What is accepted is the source of the tree that stands for it, and each placeholder's value is the conversion of its
   literal.
   */
  lemma {:induction false} ClausesSound(g: Grammar, ts: seq<Token>, first: bool, clauses: seq<Clause>)
    requires ParseClauses(g, ts, first) == Some(clauses)
    ensures ClausesStand(g, clauses, ts)
    decreases |ts|, 2
  {
    if ts != [] {
      var start := if first then 0 else 1;
      var body := ts[start..];
      var (c, n) := ParseCondition(g, body).value;
      ConditionSound(g, body, c, n);
      var tail := ts[start + n..];
      var rest := ParseClauses(g, tail, false).value;
      ClausesSound(g, tail, false, rest);
      var clause := Clause(if first then None else Some(ts[0]), c);
      ClausesMore(g, clause, rest, body[..n], tail);
      CutClause(ts, start, n);
      assert clauses == [clause] + rest;
    }
  }

  // ----- the text is the input with placeholders for its literals -----

  /**
   A token and what it is written as: a column or method by its own name, an inequality as `<>`, all others as they
   are.
   */
  predicate Same(g: Grammar, s: Token, o: Token) {
    || s == o
    || (s == Op("!=") && o == Op("<>"))
    || (s.Word? && Lookup(g, s.text).Some? && o == Word(Lookup(g, s.text).value.name))
    || (s.Word? && s.text in g.methods && o == Word(g.methods[s.text].name))
  }

  /** With the literals put back for the placeholders, one by one, the text is the source. */
  predicate Restores(g: Grammar, source: seq<Token>, text: seq<Token>, literals: seq<Operand>) {
    if source == [] || text == [] then source == text && literals == []
    else if text[0] == Hole then
      && literals != [] && literals[0].Literal? && literals[0].token == source[0]
      && Restores(g, source[1..], text[1..], literals[1..])
    else Same(g, source[0], text[0]) && Restores(g, source[1..], text[1..], literals)
  }

  lemma {:induction false} RestoresJoin(g: Grammar, a: seq<Token>, b: seq<Token>, x: seq<Token>, y: seq<Token>,
                                        k: seq<Operand>, l: seq<Operand>)
    requires Restores(g, a, x, k) && Restores(g, b, y, l)
    ensures Restores(g, a + b, x + y, k + l)
    decreases |a|
  {
    if a == [] {
      assert a + b == b && x + y == y && k + l == l;
    } else {
      assert (a + b)[1..] == a[1..] + b && (x + y)[1..] == x[1..] + y;
      if x[0] == Hole {
        RestoresJoin(g, a[1..], b, x[1..], y, k[1..], l);
        assert (k + l)[1..] == k[1..] + l;
      } else {
        RestoresJoin(g, a[1..], b, x[1..], y, k, l);
      }
    }
  }

  lemma RestoresToken(g: Grammar, s: Token, o: Token)
    requires Same(g, s, o) && o != Hole
    ensures Restores(g, [s], [o], [])
  {
    assert Restores(g, [s][1..], [o][1..], []);
  }

  lemma {:induction false} RestoresBefore(g: Grammar, a: seq<Token>, x: seq<Token>, k: seq<Operand>, last: seq<Token>)
    requires Restores(g, a, x, k) && forall i :: 0 <= i < |last| ==> last[i] != Hole
    ensures Restores(g, a + last, x + last, k)
    decreases |last|
  {
    if last == [] {
      assert a + last == a && x + last == x;
    } else {
      var n := |last| - 1;
      RestoresBefore(g, a, x, k, last[..n]);
      RestoresToken(g, last[n], last[n]);
      RestoresJoin(g, a + last[..n], [last[n]], x + last[..n], [last[n]], k, []);
      assert (a + last[..n]) + [last[n]] == a + last && (x + last[..n]) + [last[n]] == x + last && k + [] == k;
    }
  }

  lemma {:induction false} RestoresAfter(g: Grammar, s: seq<Token>, o: seq<Token>, a: seq<Token>, x: seq<Token>,
                                         k: seq<Operand>)
    requires |s| == |o| && (forall i :: 0 <= i < |s| ==> Same(g, s[i], o[i]) && o[i] != Hole) && Restores(g, a, x, k)
    ensures Restores(g, s + a, o + x, k)
    decreases |s|
  {
    if s == [] {
      assert s + a == a && o + x == x;
    } else {
      RestoresAfter(g, s[1..], o[1..], a, x, k);
      RestoresToken(g, s[0], o[0]);
      RestoresJoin(g, [s[0]], s[1..] + a, [o[0]], o[1..] + x, [], k);
      assert [s[0]] + (s[1..] + a) == s + a && [o[0]] + (o[1..] + x) == o + x && [] + k == k;
    }
  }

  /** In brackets, after a head of one or two tokens, or before a tail: tokens without literals. */
  lemma RestoresAround(g: Grammar, s: seq<Token>, o: seq<Token>, a: seq<Token>, x: seq<Token>, k: seq<Operand>,
                       last: seq<Token>)
    requires |s| == |o| && (forall i :: 0 <= i < |s| ==> Same(g, s[i], o[i]) && o[i] != Hole) && Restores(g, a, x, k)
    requires forall i :: 0 <= i < |last| ==> last[i] != Hole
    ensures Restores(g, s + a + last, o + x + last, k)
  {
    RestoresAfter(g, s, o, a, x, k);
    RestoresBefore(g, s + a, o + x, k, last);
  }

  lemma {:induction false} RestoresAligns(g: Grammar, source: seq<Token>, text: seq<Token>, literals: seq<Operand>)
    requires Restores(g, source, text, literals)
    ensures |source| == |text|
    decreases |source|
  {
    if source != [] && text != [] {
      RestoresAligns(g, source[1..], text[1..], if text[0] == Hole then literals[1..] else literals);
    }
  }

  // ----- trees that lose nothing -----

  /** Every part holds one value, and there is a comma between two arguments and nowhere else. */
  predicate Whole(v: Operand)
    decreases v, 0
  {
    v.Call? ==> WholeArgs(v.args)
  }

  predicate WholeArgs(args: seq<Part>)
    decreases args, 1
  {
    args == [] || (args[0].ignored == [] && args[0].comma == (|args| > 1) && Whole(args[0].value)
                   && WholeArgs(args[1..]))
  }

  predicate WholeItems(items: seq<Part>)
    decreases items, 1
  {
    items == [] || (items[0].ignored == [] && Whole(items[0].value) && WholeItems(items[1..]))
  }

  predicate WholeCondition(c: Condition)
    decreases c, 0
  {
    match c
    case Compare(_, _, _, value) => Whole(value)
    case Within(_, _, _, items) => WholeItems(items)
    case Block(clauses) => WholeClauses(clauses)
  }

  predicate WholeClauses(clauses: seq<Clause>)
    decreases clauses, 1
  {
    clauses == [] || (WholeClause(clauses[0]) && WholeClauses(clauses[1..]))
  }

  predicate WholeClause(clause: Clause)
    decreases clause, 0
  {
    WholeCondition(clause.condition)
  }

  lemma {:induction false} OperandRestores(g: Grammar, ts: seq<Token>, t: ColType, format: string, v: Operand, n: nat)
    requires ParseOperand(g, ts, t, format) == Some((v, n)) && Whole(v)
    ensures n <= |ts| && Restores(g, ts[..n], TextOf(v), LiteralsOf(v))
    decreases |ts|, 0
  {
    if v.Call? {
      var end := BlockEnd(ts[1..]).value;
      ArgsRestore(g, ts[2..end + 1], g.methods[ts[0].text].args, v.args);
      CallRestores(g, ts, v, end);
    } else {
      assert ts[..1] == [ts[0]] && ts[..1][1..] == [];
      if v.Field? {
        RestoresToken(g, ts[0], Word(v.column));
      } else {
        assert Restores(g, [], [], []);
      }
    }
  }

  lemma CallRestores(g: Grammar, ts: seq<Token>, v: Operand, end: nat)
    requires v.Call? && ts != [] && ts[0].Word? && BlockEnd(ts[1..]) == Some(end)
    requires v.word == ts[0].text && v.word in g.methods && v.name == g.methods[v.word].name
    requires Lookup(g, v.word).None?
    requires Restores(g, ts[2..end + 1], TextOfArgs(v.args), LiteralsOfParts(v.args))
    ensures Restores(g, ts[..end + 2], TextOf(v), LiteralsOf(v))
  {
    CutCall(ts, end);
    RestoresAround(g, [Word(v.word), Open], [Word(v.name), Open], ts[2..end + 1], TextOfArgs(v.args),
                   LiteralsOfParts(v.args), [Close]);
  }

  lemma {:induction false} ArgsRestore(g: Grammar, ts: seq<Token>, types: seq<ColType>, args: seq<Part>)
    requires ParseArgs(g, ts, types) == Some(args) && WholeArgs(args)
    ensures Restores(g, ts, TextOfArgs(args), LiteralsOfParts(args))
    decreases |ts|, 1, |types|
  {
    if types != [] {
      var c := FirstComma(ts);
      var (v, n) := ParseOperand(g, ts[..c], types[0], "").value;
      Cut(ts, n, c);
      var part := if c < |ts| then Part(v, ts[n..c], true) else Part(v, [], false);
      var tail := if c < |ts| then ts[c + 1..] else ts[n..];
      var rest := ParseArgs(g, tail, types[1..]).value;
      assert args == [part] + rest && args[0] == part && args[1..] == rest;
      OperandRestores(g, ts[..c], types[0], "", v, n);
      ArgsRestore(g, tail, types[1..], rest);
      FirstPart(part, rest);
      if c < |ts| {
        RestoresAround(g, [Comma], [Comma], tail, TextOfArgs(rest), LiteralsOfParts(rest), []);
        RestoresJoin(g, ts[..n], [Comma] + tail + [], TextOf(v), [Comma] + TextOfArgs(rest) + [], LiteralsOf(v),
                     LiteralsOfParts(rest));
        ArgsText(ts, n, c, part, rest);
      } else {
        NoMoreArgs(g, tail, types[1..], rest);
        RestoresJoin(g, ts[..n], tail, TextOf(v), [], LiteralsOf(v), LiteralsOfParts(rest));
        assert TextOf(v) + [] == TextOf(v);
      }
    }
  }

  lemma ArgsText(ts: seq<Token>, n: nat, c: nat, part: Part, rest: seq<Part>)
    requires n <= c < |ts| && ts[c] == Comma && ts[n..c] == [] && rest != []
    ensures ts[..n] + ([Comma] + ts[c + 1..] + []) == ts
    ensures TextOf(part.value) + ([Comma] + TextOfArgs(rest) + []) == TextOfArgs([part] + rest)
  {
    assert ([part] + rest)[1..] == rest;
    assert n == c;
  }

  lemma NoMoreArgs(g: Grammar, ts: seq<Token>, types: seq<ColType>, args: seq<Part>)
    requires ParseArgs(g, ts, types) == Some(args) && args == []
    ensures ts == []
  {}

  lemma {:induction false} ItemsRestore(g: Grammar, ts: seq<Token>, t: ColType, format: string, items: seq<Part>)
    requires ParseItems(g, ts, t, format) == Some(items) && WholeItems(items)
    ensures Restores(g, ts, TextOfItems(items), LiteralsOfParts(items))
    decreases |ts|, 1
  {
    if ts != [] {
      var c := FirstComma(ts);
      var (v, n) := ParseOperand(g, ts[..c], t, format).value;
      Cut(ts, n, c);
      var part := Part(v, ts[n..c], c < |ts|);
      var tail := if c < |ts| then ts[c + 1..] else [];
      var rest := if c < |ts| then ParseItems(g, tail, t, format).value else [];
      assert items == [part] + rest && items[0] == part && items[1..] == rest;
      OperandRestores(g, ts[..c], t, format, v, n);
      FirstPart(part, rest);
      if c < |ts| {
        ItemsRestore(g, tail, t, format, rest);
        RestoresAround(g, [Comma], [Comma], tail, TextOfItems(rest), LiteralsOfParts(rest), []);
        RestoresJoin(g, ts[..n], [Comma] + tail + [], TextOf(v), [Comma] + TextOfItems(rest) + [], LiteralsOf(v),
                     LiteralsOfParts(rest));
        ItemsText(ts, n, c, part, rest);
      } else {
        assert ts[..n] == ts && TextOf(v) + [] + [] == TextOf(v) && LiteralsOf(v) + [] == LiteralsOf(v);
      }
    }
  }

  lemma ItemsText(ts: seq<Token>, n: nat, c: nat, part: Part, rest: seq<Part>)
    requires n <= c < |ts| && ts[c] == Comma && ts[n..c] == [] && part.comma
    ensures ts[..n] + ([Comma] + ts[c + 1..] + []) == ts
    ensures TextOf(part.value) + ([Comma] + TextOfItems(rest) + []) == TextOfItems([part] + rest)
  {
    assert ([part] + rest)[1..] == rest;
    assert n == c;
  }

  lemma {:induction false} WithinRestores(g: Grammar, ts: seq<Token>, c: Condition, n: nat, items: seq<Part>)
    requires ParseCondition(g, ts) == Some((c, n)) && c.Within? && WholeItems(items) && items == c.items
    ensures n <= |ts| && Restores(g, ts[..n], TextOfCondition(c), LiteralsOfParts(items))
    decreases |ts|, 0
  {
    var column := FindColumn(g, ts[0].text).value;
    var close := BlockEnd(ts[2..]).value;
    var block := ts[3..close + 2];
    ItemsRestore(g, block, StripOne(column.ctype), column.format, items);
    CutWithin(ts, close);
    RestoresAround(g, [Word(c.word), c.op, Open], [Word(c.column), c.op, Open], block, TextOfItems(items),
                   LiteralsOfParts(items), [Close]);
  }

  lemma {:induction false} ConditionRestores(g: Grammar, ts: seq<Token>, c: Condition, n: nat)
    requires ParseCondition(g, ts) == Some((c, n)) && WholeCondition(c)
    ensures n <= |ts| && Restores(g, ts[..n], TextOfCondition(c), LiteralsOfCondition(c))
    decreases |ts|, 1
  {
    match c
    case Block(clauses) =>
      var end := BlockEnd(ts).value;
      ClausesRestore(g, ts[1..end], true, clauses);
      CutBlock(ts, end);
      RestoresAround(g, [Open], [Open], ts[1..end], TextOfClauses(clauses), LiteralsOfClauses(clauses), [Close]);
    case Within(_, _, _, items) => WithinRestores(g, ts, c, n, items);
    case Compare(word, name, op, v) =>
      var column := FindColumn(g, ts[0].text).value;
      var tail := ts[2..][..n - 2];
      OperandRestores(g, ts[2..], Strip(column.ctype), column.format, v, n - 2);
      CutCompare(ts, n);
      RestoresAfter(g, [Word(word), op], [Word(name), SqlOf(op)], tail, TextOf(v), LiteralsOf(v));
  }

  /**
   Criteria whose list items and arguments hold one value each are restored: putting the literals back for the
   placeholders of the text gives the input, up to the names of columns and methods and `!=`, at any nesting.
   */
  lemma {:induction false} ClausesRestore(g: Grammar, ts: seq<Token>, first: bool, clauses: seq<Clause>)
    requires ParseClauses(g, ts, first) == Some(clauses) && WholeClauses(clauses)
    ensures Restores(g, ts, TextOfClauses(clauses), LiteralsOfClauses(clauses))
    decreases |ts|, 2
  {
    if ts != [] {
      var start := if first then 0 else 1;
      var body := ts[start..];
      var (c, n) := ParseCondition(g, body).value;
      var tail := ts[start + n..];
      var rest := ParseClauses(g, tail, false).value;
      var clause := Clause(if first then None else Some(ts[0]), c);
      assert clauses == [clause] + rest && clauses[0] == clause && clauses[1..] == rest;
      ConditionRestores(g, body, c, n);
      ClausesRestore(g, tail, false, rest);
      var logic := ts[..start];
      CutClause(ts, start, n);
      RestoresAround(g, logic, logic, body[..n], TextOfCondition(c), LiteralsOfCondition(c), []);
      RestoresJoin(g, logic + body[..n] + [], tail, logic + TextOfCondition(c) + [], TextOfClauses(rest),
                   LiteralsOfCondition(c), LiteralsOfClauses(rest));
      FirstClause(clause, rest);
      ClauseText(ts, start, n, clause, rest);
    }
  }

  lemma ClauseText(ts: seq<Token>, start: nat, n: nat, clause: Clause, rest: seq<Clause>)
    requires start <= 1 && start + n <= |ts| && ts[..start] == if clause.logic.Some? then [clause.logic.value] else []
    ensures (ts[..start] + ts[start..][..n] + []) + ts[start + n..] == ts
    ensures (ts[..start] + TextOfCondition(clause.condition) + []) + TextOfClauses(rest) ==
            TextOfClauses([clause] + rest)
  {
    assert ([clause] + rest)[1..] == rest;
    assert ts[..start] + TextOfCondition(clause.condition) + [] == TextOfClause(clause);
  }

  lemma TwoValuesParsed(g: Grammar, v: Value)
    requires "1" !in g.columns && g.convert("1", Plain(IntKind), "") == Some(v)
    ensures ParseItems(g, [Number("1", true), Number("2", true)], Plain(IntKind), "") ==
            Some([Part(Literal(Number("1", true), Plain(IntKind), "", v), [Number("2", true)], false)])
  {
    var block := [Number("1", true), Number("2", true)];
    var part := Part(Literal(Number("1", true), Plain(IntKind), "", v), [Number("2", true)], false);
    assert FirstComma(block[2..]) == 0 && FirstComma(block[1..]) == 1 && FirstComma(block) == 2;
    assert block[..2] == block;
    assert ParseOperand(g, block, Plain(IntKind), "") == Some((part.value, 1));
    assert block[1..2] == [Number("2", true)] && [part] + [] == [part];
  }

  lemma ListParsed(g: Grammar, name: string, v: Value)
    requires g.columns == map["a" := Column(name, Plain(IntKind), "", true)]
    requires g.convert("1", Plain(IntKind), "") == Some(v)
    ensures ParseCondition(g, [Word("a"), Word("in"), Open, Number("1", true), Number("2", true), Close]) ==
            Some((Within("a", name, Word("in"),
                         [Part(Literal(Number("1", true), Plain(IntKind), "", v), [Number("2", true)], false)]), 6))
  {
    var input := [Word("a"), Word("in"), Open, Number("1", true), Number("2", true), Close];
    TwoValuesParsed(g, v);
    assert Lower("in") == "in";
    assert CloseOf(input[2..], 3, 0) == Some(3);
    assert CloseOf(input[2..], 2, 0) == Some(3);
    assert BlockEnd(input[2..]) == Some(3);
    assert input[3..5] == [Number("1", true), Number("2", true)];
  }

  /** A second value in a list item is lost without an error. */
  lemma SecondValueLost(g: Grammar, name: string, v: Value)
    requires g.columns == map["a" := Column(name, Plain(IntKind), "", true)]
    requires g.convert("1", Plain(IntKind), "") == Some(v)
    ensures var input := [Word("a"), Word("in"), Open, Number("1", true), Number("2", true), Close];
            var clauses := [Clause(None,
                                   Within("a", name, Word("in"),
                                          [Part(Literal(Number("1", true), Plain(IntKind), "", v),
                                                [Number("2", true)], false)]))];
            && ParseClauses(g, input, true) == Some(clauses)
            && TextOfClauses(clauses) == [Word(name), Word("in"), Open, Hole, Close]
            && !Restores(g, input, TextOfClauses(clauses), LiteralsOfClauses(clauses))
  {
    var input := [Word("a"), Word("in"), Open, Number("1", true), Number("2", true), Close];
    var part := Part(Literal(Number("1", true), Plain(IntKind), "", v), [Number("2", true)], false);
    var c := Within("a", name, Word("in"), [part]);
    var clauses := [Clause(None, c)];
    ListParsed(g, name, v);
    assert input[0..] == input && input[6..] == [] && clauses + [] == clauses;
    assert ParseClauses(g, [], false) == Some([]);
    assert [part][1..] == [] && TextOfItems([part]) == [Hole];
    assert clauses[1..] == [] && TextOfClauses(clauses[1..]) == [];
    assert TextOfClause(clauses[0]) == [] + TextOfCondition(c) == [Word(name), Word("in"), Open, Hole, Close];
    if Restores(g, input, TextOfClauses(clauses), LiteralsOfClauses(clauses)) {
      RestoresAligns(g, input, TextOfClauses(clauses), LiteralsOfClauses(clauses));
    }
  }
}
