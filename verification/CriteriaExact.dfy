/**
 When the text of user criteria is their input again: exactly when every list item and every argument holds one value,
 and commas stand between two arguments and nowhere else. Otherwise a token is left out or added, and the text deviates
 at it.
 */
module CriteriaExact {
  import opened Criteria
  import opened CriteriaLaws
  import opened Keys
  import opened Lists

  // ----- the condition, read from the input -----

  /** The token is the name of a method that is called, and neither a literal nor a column. */
  predicate Calls(g: Grammar, token: Token, t: ColType) {
    && token.Word? && !(t.Plain? && LiteralOf(t.kind, token))
    && Lookup(g, token.text).None? && token.text in g.methods
  }

  /** The tokens of a list item or an argument are one value. */
  predicate OneValue(g: Grammar, ts: seq<Token>, t: ColType)
    decreases |ts|, 0
  {
    ts != [] &&
    if Calls(g, ts[0], t) then
      BlockEnd(ts[1..]) == Some(|ts| - 2) && OneValuePerArgument(g, ts[2..|ts| - 1], g.methods[ts[0].text].args)
    else |ts| == 1
  }

  /** One value for each argument, and a comma between two of them. */
  predicate OneValuePerArgument(g: Grammar, ts: seq<Token>, types: seq<ColType>)
    decreases |ts|, 1, |types|
  {
    var c := FirstComma(ts);
    if types == [] then ts == []
    else if |types| == 1 then c == |ts| && OneValue(g, ts, types[0])
    else c < |ts| && OneValue(g, ts[..c], types[0]) && OneValuePerArgument(g, ts[c + 1..], types[1..])
  }

  /** One value between two commas of a list. */
  predicate OneValuePerItem(g: Grammar, ts: seq<Token>, t: ColType)
    decreases |ts|, 1
  {
    var c := FirstComma(ts);
    ts == [] || (OneValue(g, ts[..c], t) && (c < |ts| ==> OneValuePerItem(g, ts[c + 1..], t)))
  }

  // ----- the condition on the tree is the condition on the input -----

  lemma {:induction false} OneValueIsWhole(g: Grammar, ts: seq<Token>, t: ColType, format: string, v: Operand, n: nat)
    requires ParseOperand(g, ts, t, format) == Some((v, n))
    ensures n <= |ts| && (OneValue(g, ts, t) <==> n == |ts| && Whole(v))
    decreases |ts|, 0
  {
    if v.Call? {
      var end := BlockEnd(ts[1..]).value;
      var types := g.methods[ts[0].text].args;
      if n == |ts| {
        ArgumentsAreWhole(g, ts[2..end + 1], types, v.args);
      }
    }
  }

  lemma {:induction false} ArgumentsAreWhole(g: Grammar, ts: seq<Token>, types: seq<ColType>, args: seq<Part>)
    requires ParseArgs(g, ts, types) == Some(args)
    ensures OneValuePerArgument(g, ts, types) <==> WholeArgs(args)
    ensures |args| == |types|
    decreases |ts|, 1, |types|
  {
    if types != [] {
      var c := FirstComma(ts);
      var (v, n) := ParseOperand(g, ts[..c], types[0], "").value;
      var part := if c < |ts| then Part(v, ts[n..c], true) else Part(v, [], false);
      var tail := if c < |ts| then ts[c + 1..] else ts[n..];
      var rest := ParseArgs(g, tail, types[1..]).value;
      assert args == [part] + rest && args[0] == part && args[1..] == rest;
      OneValueIsWhole(g, ts[..c], types[0], "", v, n);
      ArgumentsAreWhole(g, tail, types[1..], rest);
      assert c == |ts| ==> ts[..c] == ts;
    }
  }

  lemma {:induction false} ItemsAreWhole(g: Grammar, ts: seq<Token>, t: ColType, format: string, items: seq<Part>)
    requires ParseItems(g, ts, t, format) == Some(items)
    ensures OneValuePerItem(g, ts, t) <==> WholeItems(items)
    decreases |ts|, 1
  {
    if ts != [] {
      var c := FirstComma(ts);
      var (v, n) := ParseOperand(g, ts[..c], t, format).value;
      var part := Part(v, ts[n..c], c < |ts|);
      var rest := if c < |ts| then ParseItems(g, ts[c + 1..], t, format).value else [];
      assert items == [part] + rest && items[0] == part && items[1..] == rest;
      OneValueIsWhole(g, ts[..c], t, format, v, n);
      if c < |ts| {
        ItemsAreWhole(g, ts[c + 1..], t, format, rest);
      }
    }
  }

  /** Every list and every call of the criteria, at any nesting, holds one value between two commas. */
  predicate OneValueEach(g: Grammar, ts: seq<Token>, first: bool)
    decreases |ts|, 2
  {
    ts == [] || OneValueEachFrom(g, if first then ts else ts[1..])
  }

  predicate OneValueEachFrom(g: Grammar, ts: seq<Token>)
    decreases |ts|, 1
  {
    var block := BlockEnd(ts);
    if block.Some? then
      OneValueEach(g, ts[1..block.value], true) && OneValueEach(g, ts[block.value + 1..], false)
    else
      |ts| < 3 || !ts[0].Word? || FindColumn(g, ts[0].text).None? ||
      var column := FindColumn(g, ts[0].text).value;
      if IsIn(ts[1]) then
        var close := BlockEnd(ts[2..]);
        close.Some? ==>
          && OneValuePerItem(g, ts[3..close.value + 2], StripOne(column.ctype))
          && OneValueEach(g, ts[close.value + 3..], false)
      else if Calls(g, ts[2], Strip(column.ctype)) then
        var end := BlockEnd(ts[3..]);
        end.Some? ==>
          && OneValuePerArgument(g, ts[4..end.value + 3], g.methods[ts[2].text].args)
          && OneValueEach(g, ts[end.value + 4..], false)
      else OneValueEach(g, ts[3..], false)
  }

  lemma {:induction false} ClausesAreWhole(g: Grammar, ts: seq<Token>, first: bool, clauses: seq<Clause>)
    requires ParseClauses(g, ts, first) == Some(clauses)
    ensures OneValueEach(g, ts, first) <==> WholeClauses(clauses)
    decreases |ts|, 2
  {
    if ts != [] {
      var start := if first then 0 else 1;
      var body := ts[start..];
      assert first ==> body == ts;
      var (c, n) := ParseCondition(g, body).value;
      var tail := ts[start + n..];
      var rest := ParseClauses(g, tail, false).value;
      var clause := Clause(if first then None else Some(ts[0]), c);
      assert clauses == [clause] + rest && clauses[0] == clause && clauses[1..] == rest;
      assert body[n..] == tail;
      ClausesAreWhole(g, tail, false, rest);
      ConditionIsWhole(g, body, c, n);
    }
  }

  /** What the condition holds of a condition at the start, and of what follows it. */
  lemma {:induction false} ConditionIsWhole(g: Grammar, ts: seq<Token>, c: Condition, n: nat)
    requires ParseCondition(g, ts) == Some((c, n))
    ensures n <= |ts| && (OneValueEachFrom(g, ts) <==> WholeCondition(c) && OneValueEach(g, ts[n..], false))
    decreases |ts|, 1
  {
    match c
    case Block(clauses) =>
      var end := BlockEnd(ts).value;
      ClausesAreWhole(g, ts[1..end], true, clauses);
    case Within(_, _, _, items) =>
      var column := FindColumn(g, ts[0].text).value;
      var close := BlockEnd(ts[2..]).value;
      ItemsAreWhole(g, ts[3..close + 2], StripOne(column.ctype), column.format, items);
    case Compare(_, _, _, v) => CompareIsWhole(g, ts, c, n, v);
  }

  lemma SliceWithin<X>(xs: seq<X>, i: nat, j: nat)
    requires 2 <= |xs| && i <= j <= |xs| - 2
    ensures xs[2..][i..j] == xs[i + 2..j + 2]
  {}

  lemma {:induction false} CompareIsWhole(g: Grammar, ts: seq<Token>, c: Condition, n: nat, v: Operand)
    requires ParseCondition(g, ts) == Some((c, n)) && c.Compare? && v == c.value
    ensures n <= |ts| && (OneValueEachFrom(g, ts) <==> Whole(v) && OneValueEach(g, ts[n..], false))
    decreases |ts|, 0
  {
    var t := Strip(FindColumn(g, ts[0].text).value.ctype);
    assert ts[2..][0] == ts[2] && ts[2..][1..] == ts[3..];
    if v.Call? {
      var end := BlockEnd(ts[3..]).value;
      SliceWithin(ts, 2, end + 1);
      ArgumentsAreWhole(g, ts[4..end + 3], g.methods[ts[2].text].args, v.args);
    }
  }

  // ----- where the text deviates -----

  /** At this place the text has another token than the input, and no placeholder. */
  predicate Deviates(g: Grammar, source: seq<Token>, text: seq<Token>, p: nat) {
    p < |source| && p < |text| && text[p] != Hole && !Same(g, source[p], text[p])
  }

  /** A deviation is one whatever follows. */
  lemma {:induction false} DeviationLasts(g: Grammar, source: seq<Token>, text: seq<Token>, literals: seq<Operand>,
                                          p: nat)
    requires Deviates(g, source, text, p)
    ensures !Restores(g, source, text, literals)
    decreases p
  {
    if p > 0 && Restores(g, source, text, literals) {
      DeviationLasts(g, source[1..], text[1..], if text[0] == Hole then literals[1..] else literals, p - 1);
    }
  }

  lemma DeviatesLater(g: Grammar, s: seq<Token>, x: seq<Token>, source: seq<Token>, text: seq<Token>, k: nat, p: nat)
    requires Deviates(g, s, x, p) && k <= |source| && k <= |text| && s <= source[k..] && x <= text[k..]
    ensures Deviates(g, source, text, k + p)
  {}

  // ----- parentheses -----

  /** A parenthesis opened before these tokens is closed by the one that follows them, and not within them. */
  predicate Closed(ts: seq<Token>) {
    CloseOf(ts + [Close], 0, 0) == Some(|ts|)
  }

  /** The search for a parenthesis depends on the tokens from there on. */
  lemma {:induction false} CloseShifts(a: seq<Token>, j: nat, k: nat, end: nat, b: seq<Token>, off: nat)
    requires off <= j <= |a| && CloseOf(a, j, k) == Some(end) && end - off < |b|
    requires forall i :: j <= i <= end ==> b[i - off] == a[i]
    ensures CloseOf(b, j - off, k) == Some(end - off)
    decreases |a| - j
  {
    assert b[j - off] == a[j];
    if a[j] == Close {
      if k > 0 {
        CloseShifts(a, j + 1, k - 1, end, b, off);
      }
    } else {
      CloseShifts(a, j + 1, if a[j] == Open then k + 1 else k, end, b, off);
    }
  }

  lemma BlockIsClosed(ts: seq<Token>)
    requires BlockEnd(ts).Some?
    ensures Closed(ts[1..BlockEnd(ts).value])
  {
    var end := BlockEnd(ts).value;
    var b := ts[1..end] + [Close];
    forall i | 1 <= i <= end ensures b[i - 1] == ts[i] {
      assert i < end ==> ts[1..end][i - 1] == ts[i];
    }
    CloseShifts(ts, 1, 0, end, b, 1);
  }

  /** Skipping a block from inside: the search for the parenthesis of an outer depth goes on behind it. */
  lemma {:induction false} CloseSkips(a: seq<Token>, j: nat, k: nat, end: nat, full: seq<Token>, off: nat, d: nat)
    requires j <= |a| && CloseOf(a, j, k) == Some(end) && off + end < |full|
    requires forall i :: j <= i <= end ==> full[off + i] == a[i]
    ensures CloseOf(full, off + j, d + k + 1) == CloseOf(full, off + end + 1, d)
    decreases |a| - j
  {
    assert full[off + j] == a[j];
    if a[j] == Close {
      if k > 0 {
        CloseSkips(a, j + 1, k - 1, end, full, off, d);
      }
    } else {
      CloseSkips(a, j + 1, if a[j] == Open then k + 1 else k, end, full, off, d);
    }
  }

  // ----- what every accepted tree is like -----

  predicate ShapedOperand(v: Operand)
    decreases v, 0
  {
    match v
    case Literal(token, _, _, _) => token.Word? || token.Number? || token.Quoted?
    case Field(_, _) => true
    case Call(_, _, args) => ShapedParts(args, true) && Closed(SourceOfParts(args))
  }

  /** Without a comma, the part is the last one, or, in a call, holds nothing but its value. */
  predicate ShapedParts(parts: seq<Part>, call: bool)
    decreases parts, 1
  {
    parts == [] || (ShapedPart(parts[0], parts[1..] == [], call) && ShapedParts(parts[1..], call))
  }

  predicate ShapedPart(part: Part, last: bool, call: bool)
    decreases part, 0
  {
    && ShapedOperand(part.value)
    && (part.ignored != [] ==> part.ignored[0] != Comma)
    && (!part.comma ==> if call then part.ignored == [] else last)
  }

  predicate ShapedCondition(c: Condition)
    decreases c, 0
  {
    match c
    case Compare(_, _, _, value) => ShapedOperand(value)
    case Within(_, _, _, items) => ShapedParts(items, false) && Closed(SourceOfParts(items))
    case Block(clauses) => ShapedClauses(clauses)
  }

  predicate ShapedClauses(clauses: seq<Clause>)
    decreases clauses, 1
  {
    clauses == [] || (ShapedClause(clauses[0]) && ShapedClauses(clauses[1..]))
  }

  predicate ShapedClause(clause: Clause)
    decreases clause, 0
  {
    ShapedCondition(clause.condition)
  }

  lemma {:induction false} OperandShaped(g: Grammar, ts: seq<Token>, t: ColType, format: string, v: Operand, n: nat)
    requires ParseOperand(g, ts, t, format) == Some((v, n))
    ensures ShapedOperand(v)
    decreases |ts|, 0
  {
    if v.Call? {
      var end := BlockEnd(ts[1..]).value;
      var block := ts[2..end + 1];
      ArgsShaped(g, block, g.methods[ts[0].text].args, v.args);
      ArgsSound(g, block, g.methods[ts[0].text].args, v.args);
      BlockIsClosed(ts[1..]);
      assert ts[1..][1..end] == block;
    }
  }

  lemma {:induction false} ArgsShaped(g: Grammar, ts: seq<Token>, types: seq<ColType>, args: seq<Part>)
    requires ParseArgs(g, ts, types) == Some(args)
    ensures ShapedParts(args, true)
    decreases |ts|, 1, |types|
  {
    if types != [] {
      var c := FirstComma(ts);
      var (v, n) := ParseOperand(g, ts[..c], types[0], "").value;
      OperandShaped(g, ts[..c], types[0], "", v, n);
      var part := if c < |ts| then Part(v, ts[n..c], true) else Part(v, [], false);
      var tail := if c < |ts| then ts[c + 1..] else ts[n..];
      var rest := ParseArgs(g, tail, types[1..]).value;
      ArgsShaped(g, tail, types[1..], rest);
      assert args == [part] + rest && args[0] == part && args[1..] == rest;
      assert n < c ==> ts[n..c][0] != Comma;
      assert ShapedPart(part, rest == [], true);
    }
  }

  lemma {:induction false} ItemsShaped(g: Grammar, ts: seq<Token>, t: ColType, format: string, items: seq<Part>)
    requires ParseItems(g, ts, t, format) == Some(items)
    ensures ShapedParts(items, false)
    decreases |ts|, 1
  {
    if ts != [] {
      var c := FirstComma(ts);
      var (v, n) := ParseOperand(g, ts[..c], t, format).value;
      OperandShaped(g, ts[..c], t, format, v, n);
      var part := Part(v, ts[n..c], c < |ts|);
      var rest := if c < |ts| then ParseItems(g, ts[c + 1..], t, format).value else [];
      assert items == [part] + rest && items[0] == part && items[1..] == rest;
      assert n < c ==> ts[n..c][0] != Comma;
      assert ShapedPart(part, rest == [], false);
      if c < |ts| {
        ItemsShaped(g, ts[c + 1..], t, format, rest);
      }
    }
  }

  lemma {:induction false} ConditionShaped(g: Grammar, ts: seq<Token>, c: Condition, n: nat)
    requires ParseCondition(g, ts) == Some((c, n))
    ensures ShapedCondition(c)
    decreases |ts|, 1
  {
    match c
    case Block(clauses) => ClausesShaped(g, ts[1..BlockEnd(ts).value], true, clauses);
    case Within(_, _, _, items) =>
      var column := FindColumn(g, ts[0].text).value;
      var close := BlockEnd(ts[2..]).value;
      var block := ts[3..close + 2];
      ItemsShaped(g, block, StripOne(column.ctype), column.format, items);
      ItemsSound(g, block, StripOne(column.ctype), column.format, items);
      BlockIsClosed(ts[2..]);
      assert ts[2..][1..close] == block;
    case Compare(_, _, _, v) =>
      var column := FindColumn(g, ts[0].text).value;
      OperandShaped(g, ts[2..], Strip(column.ctype), column.format, v, n - 2);
  }

  lemma {:induction false} ClausesShaped(g: Grammar, ts: seq<Token>, first: bool, clauses: seq<Clause>)
    requires ParseClauses(g, ts, first) == Some(clauses)
    ensures ShapedClauses(clauses)
    decreases |ts|, 2
  {
    if ts != [] {
      var start := if first then 0 else 1;
      var body := ts[start..];
      var (c, n) := ParseCondition(g, body).value;
      var tail := ts[start + n..];
      var rest := ParseClauses(g, tail, false).value;
      var clause := Clause(if first then None else Some(ts[0]), c);
      assert clauses == [clause] + rest && clauses[0] == clause && clauses[1..] == rest;
      ConditionShaped(g, body, c, n);
      ClausesShaped(g, tail, false, rest);
    }
  }

  // ----- the first token that is ignored -----

  /** If the first parts hold one value each, the first token after them that is ignored does not close the block. */
  predicate FirstIgnored(parts: seq<Part>) {
    parts == [] || if parts[0].ignored != [] then parts[0].ignored[0] != Close else FirstIgnored(parts[1..])
  }

  /** A value has as many closing as opening parentheses. */
  lemma OperandNeutral(v: Operand, source: seq<Token>, full: seq<Token>, i: nat, d: nat)
    requires ShapedOperand(v) && source == SourceOf(v) && i + |source| <= |full|
    requires forall k :: 0 <= k < |source| ==> full[i + k] == source[k]
    ensures CloseOf(full, i, d) == CloseOf(full, i + |source|, d)
  {
    assert full[i + 0] == source[0];
    if v.Call? {
      var a := SourceOfParts(v.args) + [Close];
      assert full[i + 1] == source[1] == Open;
      forall k | 0 <= k < |a| ensures full[i + 2 + k] == a[k] {
        assert full[i + (2 + k)] == source[2 + k];
      }
      CloseSkips(a, 0, 0, |a| - 1, full, i + 2, d);
    }
  }

  lemma {:induction false} FirstIgnoredFrom(parts: seq<Part>, call: bool, full: seq<Token>, i: nat)
    requires ShapedParts(parts, call) && i <= |full| && full[i..] == SourceOfParts(parts) + [Close]
    requires CloseOf(full, i, 0) == Some(|full| - 1)
    ensures FirstIgnored(parts)
    decreases parts
  {
    if parts != [] {
      var part, rest := parts[0], parts[1..];
      var next := i + |SourceOf(part.value)|;
      NextInBlock(part, rest, full, i, next);
      if part.ignored == [] {
        FirstIgnoredFrom(rest, call, full, if part.comma then next + 1 else next);
      }
    }
  }

  lemma Behind<T>(full: seq<T>, i: nat, front: seq<T>, back: seq<T>)
    requires i <= |full| && full[i..] == front + back
    ensures i + |front| <= |full| && full[i + |front|..] == back
    ensures forall k :: 0 <= k < |front| ==> full[i + k] == front[k]
  {
    assert full[i..][|front|..] == full[i + |front|..];
    forall k | 0 <= k < |front| ensures full[i + k] == front[k] {
      assert full[i..][k] == front[k];
    }
  }

  /** Behind the first value of a block the search for its end goes on, and has not reached it if a token is ignored. */
  lemma NextInBlock(part: Part, rest: seq<Part>, full: seq<Token>, i: nat, next: nat)
    requires ShapedOperand(part.value) && i <= |full| && next == i + |SourceOf(part.value)|
    requires full[i..] == SourceOfParts([part] + rest) + [Close] && CloseOf(full, i, 0) == Some(|full| - 1)
    ensures part.ignored != [] ==> part.ignored[0] != Close
    ensures part.ignored == [] ==>
              var j := if part.comma then next + 1 else next;
              j <= |full| && full[j..] == SourceOfParts(rest) + [Close] && CloseOf(full, j, 0) == Some(|full| - 1)
  {
    var source, after := SourceOf(part.value), AfterFirst(part, rest);
    SourceOfFirst(part, rest);
    Behind(full, i, source, after);
    OperandNeutral(part.value, source, full, i, 0);
    EndBehind(part, rest, full, next);
  }

  lemma SourceOfFirst(part: Part, rest: seq<Part>)
    ensures SourceOfParts([part] + rest) + [Close] == SourceOf(part.value) + AfterFirst(part, rest)
  {
    assert ([part] + rest)[1..] == rest;
    SplitSource([part] + rest);
  }

  lemma EndBehind(part: Part, rest: seq<Part>, full: seq<Token>, next: nat)
    requires next <= |full| && full[next..] == AfterFirst(part, rest) && CloseOf(full, next, 0) == Some(|full| - 1)
    ensures part.ignored != [] ==> part.ignored[0] != Close
    ensures part.ignored == [] ==>
              var j := if part.comma then next + 1 else next;
              j <= |full| && full[j..] == SourceOfParts(rest) + [Close] && CloseOf(full, j, 0) == Some(|full| - 1)
  {
    var tail := SourceOfParts(rest) + [Close];
    if part.ignored != [] {
      assert full[next..][0] == part.ignored[0];
    } else if part.comma {
      assert [] + [Comma] == [Comma];
      Behind(full, next, [Comma], tail);
      assert full[next + 0] == Comma;
    } else {
      assert AfterFirst(part, rest) == tail;
    }
  }

  lemma FirstIgnoredIn(parts: seq<Part>, call: bool)
    requires ShapedParts(parts, call) && Closed(SourceOfParts(parts))
    ensures FirstIgnored(parts)
  {
    var full := SourceOfParts(parts) + [Close];
    assert full[0..] == full;
    FirstIgnoredFrom(parts, call, full, 0);
  }

  // ----- a tree that is whole is as long as its text -----

  lemma {:induction false} WholeAligned(v: Operand)
    requires Whole(v)
    ensures |TextOf(v)| == |SourceOf(v)|
    decreases v, 0
  {
    if v.Call? {
      WholeArgsAligned(v.args);
    }
  }

  lemma {:induction false} WholeArgsAligned(args: seq<Part>)
    requires WholeArgs(args)
    ensures |TextOfArgs(args)| == |SourceOfParts(args)|
    decreases args, 1
  {
    if args != [] {
      WholeAligned(args[0].value);
      WholeArgsAligned(args[1..]);
    }
  }

  lemma {:induction false} WholeItemsAligned(items: seq<Part>)
    requires WholeItems(items)
    ensures |TextOfItems(items)| == |SourceOfParts(items)|
    decreases items, 1
  {
    if items != [] {
      WholeAligned(items[0].value);
      WholeItemsAligned(items[1..]);
    }
  }

  lemma {:induction false} WholeConditionAligned(c: Condition)
    requires WholeCondition(c)
    ensures |TextOfCondition(c)| == |SourceOfCondition(c)|
    decreases c, 0
  {
    match c
    case Compare(_, _, _, value) => WholeAligned(value);
    case Within(_, _, _, items) => WholeItemsAligned(items);
    case Block(clauses) => WholeClausesAligned(clauses);
  }

  lemma {:induction false} WholeClausesAligned(clauses: seq<Clause>)
    requires WholeClauses(clauses)
    ensures |TextOfClauses(clauses)| == |SourceOfClauses(clauses)|
    decreases clauses, 1
  {
    if clauses != [] {
      WholeClauseAligned(clauses[0]);
      WholeClausesAligned(clauses[1..]);
    }
  }

  lemma WholeClauseAligned(clause: Clause)
    requires WholeClause(clause)
    ensures |TextOfClause(clause)| == |SourceOfClause(clause)|
    decreases clause, 0
  {
    WholeConditionAligned(clause.condition);
  }

  // ----- the text of a tree that is not whole deviates -----

  lemma SourceStarts(v: Operand)
    requires ShapedOperand(v)
    ensures SourceOf(v) != [] && SourceOf(v)[0] != Comma && SourceOf(v)[0] != Close
  {}

  lemma {:induction false} OperandDeviates(g: Grammar, v: Operand) returns (p: nat)
    requires ShapedOperand(v) && !Whole(v)
    ensures Deviates(g, SourceOf(v), TextOf(v), p)
    decreases v, 0
  {
    FirstIgnoredIn(v.args, true);
    var source, text := SourceOfParts(v.args) + [Close], TextOfArgs(v.args) + [Close];
    var q := ArgsDeviate(g, v.args);
    assert SourceOf(v)[2..] == source && TextOf(v)[2..] == text;
    DeviatesLater(g, source, text, SourceOf(v), TextOf(v), 2, q);
    p := 2 + q;
  }

  /** A first part that is not in order, or a deviation behind one that is. */
  lemma PartDeviates(g: Grammar, part: Part, s: seq<Token>, x: seq<Token>, source: seq<Token>, text: seq<Token>, q: nat)
    returns (p: nat)
    requires Whole(part.value) && text == TextOf(part.value) + x
    requires source == SourceOf(part.value) + s
    requires Deviates(g, s, x, q)
    ensures Deviates(g, source, text, p)
  {
    WholeAligned(part.value);
    p := |SourceOf(part.value)| + q;
    assert source[|SourceOf(part.value)|..] == s && text[|SourceOf(part.value)|..] == x;
    DeviatesLater(g, s, x, source, text, |SourceOf(part.value)|, q);
  }

  /** What follows the first value of a call, in the input and in the text. */
  function AfterFirst(part: Part, rest: seq<Part>): seq<Token> {
    part.ignored + (if part.comma then [Comma] else []) + (SourceOfParts(rest) + [Close])
  }

  function AfterFirstArg(rest: seq<Part>): seq<Token> {
    if rest == [] then [Close] else [Comma] + (TextOfArgs(rest) + [Close])
  }

  function AfterFirstItem(part: Part, rest: seq<Part>): seq<Token> {
    (if part.comma then [Comma] else []) + (TextOfItems(rest) + [Close])
  }

  lemma Regroup<T>(a: seq<T>, b: seq<T>, c: seq<T>, d: seq<T>, e: seq<T>)
    ensures a + b + c + d + e == a + (b + c + (d + e))
  {}

  lemma Regroup3<T>(a: seq<T>, b: seq<T>, c: seq<T>, d: seq<T>)
    ensures a + b + c + d == a + (b + (c + d))
  {}

  lemma SplitSource(parts: seq<Part>)
    requires parts != []
    ensures SourceOfParts(parts) + [Close] == SourceOf(parts[0].value) + AfterFirst(parts[0], parts[1..])
  {
    Regroup(SourceOf(parts[0].value), parts[0].ignored, if parts[0].comma then [Comma] else [],
            SourceOfParts(parts[1..]), [Close]);
  }

  lemma SplitArgs(args: seq<Part>)
    requires args != []
    ensures TextOfArgs(args) + [Close] == TextOf(args[0].value) + AfterFirstArg(args[1..])
  {
    if |args| > 1 {
      Regroup3(TextOf(args[0].value), [Comma], TextOfArgs(args[1..]), [Close]);
    }
  }

  lemma SplitItems(items: seq<Part>)
    requires items != []
    ensures TextOfItems(items) + [Close] == TextOf(items[0].value) + AfterFirstItem(items[0], items[1..])
  {
    Regroup3(TextOf(items[0].value), if items[0].comma then [Comma] else [], TextOfItems(items[1..]), [Close]);
  }

  lemma {:induction false} ArgsDeviate(g: Grammar, args: seq<Part>) returns (p: nat)
    requires ShapedParts(args, true) && FirstIgnored(args) && !WholeArgs(args)
    ensures Deviates(g, SourceOfParts(args) + [Close], TextOfArgs(args) + [Close], p)
    decreases args, 1
  {
    var part, rest := args[0], args[1..];
    var s, x := AfterFirst(part, rest), AfterFirstArg(rest);
    SplitSource(args);
    SplitArgs(args);
    if !Whole(part.value) {
      p := OperandDeviates(g, part.value);
      DeviatesFirst(g, SourceOf(part.value), TextOf(part.value), s, x, p);
    } else {
      var q := 0;
      if part.ignored == [] && part.comma && rest != [] {
        q := ArgsDeviate(g, rest);
        ArgBehindDeviates(g, part, rest, q);
        q := 1 + q;
      } else {
        ArgAfterDeviates(g, part, rest);
      }
      p := PartDeviates(g, part, s, x, SourceOfParts(args) + [Close], TextOfArgs(args) + [Close], q);
    }
  }

  lemma DeviatesFirst(g: Grammar, a: seq<Token>, b: seq<Token>, s: seq<Token>, x: seq<Token>, p: nat)
    requires Deviates(g, a, b, p)
    ensures Deviates(g, a + s, b + x, p)
  {}

  lemma DeviatesBehind(g: Grammar, a: seq<Token>, b: seq<Token>, s: seq<Token>, x: seq<Token>, q: nat)
    requires Deviates(g, s, x, q) && |a| == |b|
    ensures Deviates(g, a + s, b + x, |a| + q)
  {}

  lemma ArgBehindDeviates(g: Grammar, part: Part, rest: seq<Part>, q: nat)
    requires part.ignored == [] && part.comma && rest != []
    requires Deviates(g, SourceOfParts(rest) + [Close], TextOfArgs(rest) + [Close], q)
    ensures Deviates(g, AfterFirst(part, rest), AfterFirstArg(rest), 1 + q)
  {
    DeviatesBehind(g, [Comma], [Comma], SourceOfParts(rest) + [Close], TextOfArgs(rest) + [Close], q);
    assert [] + [Comma] == [Comma];
  }

  /** A token that is ignored, a missing comma or a surplus one. */
  lemma ArgAfterDeviates(g: Grammar, part: Part, rest: seq<Part>)
    requires ShapedPart(part, rest == [], true) && ShapedParts(rest, true)
    requires part.ignored != [] ==> part.ignored[0] != Close
    requires part.ignored != [] || part.comma != (rest != [])
    ensures Deviates(g, AfterFirst(part, rest), AfterFirstArg(rest), 0)
  {
    var s, x := AfterFirst(part, rest), AfterFirstArg(rest);
    assert x[0] == if rest == [] then Close else Comma;
    if part.ignored != [] {
      assert s[0] == part.ignored[0];
    } else if part.comma {
      assert s[0] == Comma;
    } else {
      SourceStarts(rest[0].value);
      assert s[0] == SourceOf(rest[0].value)[0];
    }
  }

  lemma {:induction false} ItemsDeviate(g: Grammar, items: seq<Part>) returns (p: nat)
    requires ShapedParts(items, false) && FirstIgnored(items) && !WholeItems(items)
    ensures Deviates(g, SourceOfParts(items) + [Close], TextOfItems(items) + [Close], p)
    decreases items, 1
  {
    var part, rest := items[0], items[1..];
    var s, x := AfterFirst(part, rest), AfterFirstItem(part, rest);
    SplitSource(items);
    SplitItems(items);
    if !Whole(part.value) {
      p := OperandDeviates(g, part.value);
      DeviatesFirst(g, SourceOf(part.value), TextOf(part.value), s, x, p);
    } else {
      var q;
      if part.ignored == [] {
        q := ItemsDeviate(g, rest);
        q := ItemAfterDeviates(g, part, rest, q);
      } else {
        q := 0;
        ItemIgnoredDeviates(g, part, rest);
      }
      p := PartDeviates(g, part, s, x, SourceOfParts(items) + [Close], TextOfItems(items) + [Close], q);
    }
  }

  lemma ItemAfterDeviates(g: Grammar, part: Part, rest: seq<Part>, q: nat) returns (p: nat)
    requires part.ignored == [] && Deviates(g, SourceOfParts(rest) + [Close], TextOfItems(rest) + [Close], q)
    ensures Deviates(g, AfterFirst(part, rest), AfterFirstItem(part, rest), p)
  {
    var s, x := SourceOfParts(rest) + [Close], TextOfItems(rest) + [Close];
    if part.comma {
      DeviatesBehind(g, [Comma], [Comma], s, x, q);
      assert AfterFirst(part, rest) == [Comma] + s;
      p := 1 + q;
    } else {
      assert AfterFirst(part, rest) == s && AfterFirstItem(part, rest) == x;
      p := q;
    }
  }

  lemma ItemIgnoredDeviates(g: Grammar, part: Part, rest: seq<Part>)
    requires ShapedPart(part, rest == [], false) && part.ignored != [] && part.ignored[0] != Close
    ensures Deviates(g, AfterFirst(part, rest), AfterFirstItem(part, rest), 0)
  {
    assert AfterFirst(part, rest)[0] == part.ignored[0];
    assert AfterFirstItem(part, rest)[0] == if part.comma then Comma else Close;
  }

  lemma {:induction false} ConditionDeviates(g: Grammar, c: Condition) returns (p: nat)
    requires ShapedCondition(c) && !WholeCondition(c)
    ensures Deviates(g, SourceOfCondition(c), TextOfCondition(c), p)
    decreases c, 0
  {
    match c {
      case Block(clauses) =>
        var q := ClausesDeviate(g, clauses);
        var s, x := SourceOfClauses(clauses), TextOfClauses(clauses);
        DeviatesBehind(g, [Open], [Open], s, x, q);
        DeviatesFirst(g, [Open] + s, [Open] + x, [Close], [Close], 1 + q);
        p := 1 + q;
      case Within(_, _, _, items) =>
        FirstIgnoredIn(items, false);
        var q := ItemsDeviate(g, items);
        WithinDeviates(g, c, q);
        p := 3 + q;
      case Compare(word, column, op, v) =>
        var q := OperandDeviates(g, v);
        DeviatesBehind(g, [Word(word), op], [Word(column), SqlOf(op)], SourceOf(v), TextOf(v), q);
        p := 2 + q;
    }
  }

  lemma WithinDeviates(g: Grammar, c: Condition, q: nat)
    requires c.Within? && Deviates(g, SourceOfParts(c.items) + [Close], TextOfItems(c.items) + [Close], q)
    ensures Deviates(g, SourceOfCondition(c), TextOfCondition(c), 3 + q)
  {
    var source, text, s, x := SourceOfCondition(c), TextOfCondition(c), SourceOfParts(c.items) + [Close],
                              TextOfItems(c.items) + [Close];
    assert source[3..] == s && text[3..] == x;
    DeviatesLater(g, s, x, source, text, 3, q);
  }

  lemma {:induction false} ClausesDeviate(g: Grammar, clauses: seq<Clause>) returns (p: nat)
    requires ShapedClauses(clauses) && !WholeClauses(clauses)
    ensures Deviates(g, SourceOfClauses(clauses), TextOfClauses(clauses), p)
    decreases clauses, 1
  {
    var source, text, rest := SourceOfClauses(clauses), TextOfClauses(clauses), clauses[1..];
    if !WholeClause(clauses[0]) {
      p := ClauseDeviates(g, clauses[0]);
      DeviatesLater(g, SourceOfClause(clauses[0]), TextOfClause(clauses[0]), source, text, 0, p);
    } else {
      WholeClauseAligned(clauses[0]);
      var k := |SourceOfClause(clauses[0])|;
      var q := ClausesDeviate(g, rest);
      assert source[k..] == SourceOfClauses(rest) && text[k..] == TextOfClauses(rest);
      DeviatesLater(g, SourceOfClauses(rest), TextOfClauses(rest), source, text, k, q);
      p := k + q;
    }
  }

  lemma ClauseDeviates(g: Grammar, clause: Clause) returns (p: nat)
    requires ShapedClause(clause) && !WholeClause(clause)
    ensures Deviates(g, SourceOfClause(clause), TextOfClause(clause), p)
    decreases clause, 0
  {
    var q := ConditionDeviates(g, clause.condition);
    var k := if clause.logic.Some? then 1 else 0;
    assert SourceOfClause(clause)[k..] == SourceOfCondition(clause.condition);
    assert TextOfClause(clause)[k..] == TextOfCondition(clause.condition);
    DeviatesLater(g, SourceOfCondition(clause.condition), TextOfCondition(clause.condition), SourceOfClause(clause),
                  TextOfClause(clause), k, q);
    p := k + q;
  }

  /**
   Putting the literals back for the placeholders gives the accepted input, up to the names of columns and methods and
   `!=`, exactly when each list item and argument of the input is one value and commas stand between two arguments only.
   */
  lemma RestoredExactlyWhen(g: Grammar, ts: seq<Token>, first: bool, clauses: seq<Clause>)
    requires ParseClauses(g, ts, first) == Some(clauses)
    ensures Restores(g, ts, TextOfClauses(clauses), LiteralsOfClauses(clauses)) <==> OneValueEach(g, ts, first)
  {
    ClausesAreWhole(g, ts, first, clauses);
    if WholeClauses(clauses) {
      ClausesRestore(g, ts, first, clauses);
    } else {
      ClausesSound(g, ts, first, clauses);
      ClausesShaped(g, ts, first, clauses);
      var p := ClausesDeviate(g, clauses);
      DeviationLasts(g, ts, TextOfClauses(clauses), LiteralsOfClauses(clauses), p);
    }
  }
}
