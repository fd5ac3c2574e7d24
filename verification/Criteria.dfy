/**
 Criteria that users send (router/criteria/parse.go), over sequences of tokens: a text with a placeholder for each
 literal, and the values for the placeholders. What is accepted is a syntax tree, whose source, text and values are
 compared.
 */
module Criteria {
  import opened Keys

  /** `Hole` is the placeholder of a text; no input has one that is accepted. */
  datatype Token = Word(text: string) | Op(text: string) | Number(text: string, integer: bool) | Quoted(text: string)
                 | Comma | Open | Close | Hole

  datatype Kind = BoolKind | IntKind | FloatKind | TextKind | TimeKind | OtherKind

  datatype ColType = Plain(kind: Kind) | Pointer(base: ColType)

  datatype Column = Column(name: string, ctype: ColType, format: string, filterable: bool)

  datatype Method = Method(name: string, args: seq<ColType>)

  /** The columns and methods of a view, and the conversion of a literal to a type. */
  datatype Grammar = Grammar(columns: map<string, Column>, methods: map<string, Method>,
                             convert: (string, ColType, string) -> Option<Value>)

  function LowerChar(c: char): char {
    if 'A' <= c <= 'Z' then c - 'A' + 'a' else c
  }

  function UpperChar(c: char): char {
    if 'a' <= c <= 'z' then c - 'a' + 'A' else c
  }

  function Lower(s: string): string {
    seq(|s|, i requires 0 <= i < |s| => LowerChar(s[i]))
  }

  function Upper(s: string): string {
    seq(|s|, i requires 0 <= i < |s| => UpperChar(s[i]))
  }

  function Lookup(g: Grammar, name: string): Option<Column> {
    if name in g.columns then Some(g.columns[name])
    else if Upper(name) in g.columns then Some(g.columns[Upper(name)])
    else if Lower(name) in g.columns then Some(g.columns[Lower(name)])
    else None
  }

  function FindColumn(g: Grammar, name: string): Option<Column> {
    var column := Lookup(g, name);
    if column.Some? && column.value.filterable then column else None
  }

  function Strip(t: ColType): (r: ColType)
    ensures r.Plain?
  {
    if t.Pointer? then Strip(t.base) else t
  }

  function StripOne(t: ColType): ColType {
    if t.Pointer? then t.base else t
  }

  // ----- syntax trees -----

  datatype Operand =
    | Literal(token: Token, ctype: ColType, format: string, bound: Value)
    | Field(word: string, column: string)
    | Call(word: string, name: string, args: seq<Part>)

  /** One item of a list or argument of a method; tokens after its value are ignored up to a comma. */
  datatype Part = Part(value: Operand, ignored: seq<Token>, comma: bool)

  datatype Condition =
    | Compare(word: string, column: string, op: Token, value: Operand)
    | Within(word: string, column: string, op: Token, items: seq<Part>)
    | Block(clauses: seq<Clause>)

  datatype Clause = Clause(logic: Option<Token>, condition: Condition)

  // ----- what is accepted -----

  /** The operators of a type, and how they are written in SQL. */
  function OperatorOf(kind: Kind, token: Token): Option<Token> {
    if kind.OtherKind? then None
    else if token == Op("!=") || token == Op("<>") then Some(Op("<>"))
    else if token == Op("=") then Some(token)
    else if token.Word? && Lower(token.text) == "in" then Some(token)
    else if token.Word? && Lower(token.text) == "like" && kind.TextKind? then Some(token)
    else if token in {Op(">="), Op(">"), Op("<="), Op("<")} && kind in {IntKind, FloatKind, TimeKind} then Some(token)
    else None
  }

  predicate IsIn(token: Token) {
    token.Word? && Lower(token.text) == "in"
  }

  predicate IsLogic(token: Token) {
    token.Word? && Lower(token.text) in {"and", "or"}
  }

  predicate LiteralOf(kind: Kind, token: Token) {
    match kind
    case BoolKind => token == Word("true") || token == Word("false")
    case IntKind => token.Number? && token.integer
    case FloatKind => token.Number?
    case TextKind => token.Quoted?
    case TimeKind => token.Quoted?
    case OtherKind => false
  }

  /** The position of the parenthesis that closes the one before `i`, at this depth. */
  function CloseOf(ts: seq<Token>, i: nat, depth: nat): (end: Option<nat>)
    requires i <= |ts|
    ensures end.Some? ==> i <= end.value < |ts| && ts[end.value] == Close
    decreases |ts| - i
  {
    if i == |ts| then None
    else if ts[i] == Close then (if depth == 0 then Some(i) else CloseOf(ts, i + 1, depth - 1))
    else CloseOf(ts, i + 1, if ts[i] == Open then depth + 1 else depth)
  }

  /** The end of a block in parentheses that starts here. */
  function BlockEnd(ts: seq<Token>): (end: Option<nat>)
    ensures end.Some? ==> 1 <= end.value < |ts| && ts[0] == Open && ts[end.value] == Close
  {
    if ts == [] || ts[0] != Open then None else CloseOf(ts, 1, 0)
  }

  function FirstComma(ts: seq<Token>): (i: nat)
    ensures i <= |ts| && (i < |ts| ==> ts[i] == Comma) && forall j :: 0 <= j < i ==> ts[j] != Comma
  {
    if ts == [] || ts[0] == Comma then 0 else FirstComma(ts[1..]) + 1
  }

  /** A value at the start of the tokens, and how many it takes. */
  function ParseOperand(g: Grammar, ts: seq<Token>, t: ColType, format: string): (r: Option<(Operand, nat)>)
    ensures r.Some? ==> 0 < r.value.1 <= |ts|
    decreases |ts|, 0
  {
    if ts == [] || t.Pointer? || t.kind.OtherKind? then None
    else if LiteralOf(t.kind, ts[0]) then
      var bound := g.convert(ts[0].text, t, format);
      if bound.None? then None else Some((Literal(ts[0], t, format, bound.value), 1))
    else if !ts[0].Word? then None
    else if Lookup(g, ts[0].text).Some? then
      var column := FindColumn(g, ts[0].text);
      if column.None? || column.value.ctype != t then None else Some((Field(ts[0].text, column.value.name), 1))
    else if ts[0].text !in g.methods then None
    else
      var end := BlockEnd(ts[1..]);
      if end.None? then None
      else
        var m := g.methods[ts[0].text];
        var args := ParseArgs(g, ts[2..end.value + 1], m.args);
        if args.None? then None else Some((Call(ts[0].text, m.name, args.value), end.value + 2))
  }

  function ParseArgs(g: Grammar, ts: seq<Token>, types: seq<ColType>): Option<seq<Part>>
    decreases |ts|, 1, |types|
  {
    if types == [] then (if ts == [] then Some([]) else None)
    else if ts == [] then None
    else
      var c := FirstComma(ts);
      var v := ParseOperand(g, ts[..c], types[0], "");
      if v.None? then None
      else if c < |ts| then
        var rest := ParseArgs(g, ts[c + 1..], types[1..]);
        if rest.None? then None else Some([Part(v.value.0, ts[v.value.1..c], true)] + rest.value)
      else
        var rest := ParseArgs(g, ts[v.value.1..], types[1..]);
        if rest.None? then None else Some([Part(v.value.0, [], false)] + rest.value)
  }

  function ParseItems(g: Grammar, ts: seq<Token>, t: ColType, format: string): Option<seq<Part>>
    decreases |ts|, 1
  {
    if ts == [] then Some([])
    else
      var c := FirstComma(ts);
      var v := ParseOperand(g, ts[..c], t, format);
      if v.None? then None
      else
        var rest := if c < |ts| then ParseItems(g, ts[c + 1..], t, format) else Some([]);
        if rest.None? then None else Some([Part(v.value.0, ts[v.value.1..c], c < |ts|)] + rest.value)
  }

  function ParseCondition(g: Grammar, ts: seq<Token>): (r: Option<(Condition, nat)>)
    ensures r.Some? ==> 0 < r.value.1 <= |ts|
    decreases |ts|, 1
  {
    var end := BlockEnd(ts);
    if end.Some? then
      var clauses := ParseClauses(g, ts[1..end.value], true);
      if clauses.None? then None else Some((Block(clauses.value), end.value + 1))
    else if |ts| < 2 || !ts[0].Word? then None
    else
      var column := FindColumn(g, ts[0].text);
      if column.None? then None
      else
        var t := Strip(column.value.ctype);
        var op := OperatorOf(t.kind, ts[1]);
        if op.None? then None
        else if IsIn(ts[1]) then
          var close := BlockEnd(ts[2..]);
          if close.None? then None
          else
            var items := ParseItems(g, ts[3..close.value + 2], StripOne(column.value.ctype), column.value.format);
            if items.None? then None
            else Some((Within(ts[0].text, column.value.name, ts[1], items.value), close.value + 3))
        else
          var v := ParseOperand(g, ts[2..], t, column.value.format);
          if v.None? then None else Some((Compare(ts[0].text, column.value.name, ts[1], v.value.0), v.value.1 + 2))
  }

  function ParseClauses(g: Grammar, ts: seq<Token>, first: bool): Option<seq<Clause>>
    decreases |ts|, 2
  {
    if ts == [] then Some([])
    else if !first && !IsLogic(ts[0]) then None
    else
      var start := if first then 0 else 1;
      var condition := ParseCondition(g, ts[start..]);
      if condition.None? then None
      else
        var rest := ParseClauses(g, ts[start + condition.value.1..], false);
        if rest.None? then None
        else Some([Clause(if first then None else Some(ts[0]), condition.value.0)] + rest.value)
  }

  // ----- source, text and values of a tree -----

  function SourceOf(v: Operand): seq<Token>
    decreases v, 0
  {
    match v
    case Literal(token, _, _, _) => [token]
    case Field(word, _) => [Word(word)]
    case Call(word, _, args) => [Word(word), Open] + SourceOfParts(args) + [Close]
  }

  function SourceOfParts(parts: seq<Part>): seq<Token>
    decreases parts, 1
  {
    if parts == [] then []
    else
      SourceOf(parts[0].value) + parts[0].ignored + (if parts[0].comma then [Comma] else []) + SourceOfParts(parts[1..])
  }

  function SourceOfCondition(c: Condition): seq<Token>
    decreases c, 0
  {
    match c
    case Compare(word, _, op, value) => [Word(word), op] + SourceOf(value)
    case Within(word, _, op, items) => [Word(word), op, Open] + SourceOfParts(items) + [Close]
    case Block(clauses) => [Open] + SourceOfClauses(clauses) + [Close]
  }

  function SourceOfClauses(clauses: seq<Clause>): seq<Token>
    decreases clauses, 1
  {
    if clauses == [] then []
    else SourceOfClause(clauses[0]) + SourceOfClauses(clauses[1..])
  }

  function SourceOfClause(clause: Clause): seq<Token>
    decreases clause, 0
  {
    (if clause.logic.Some? then [clause.logic.value] else []) + SourceOfCondition(clause.condition)
  }

  /** Canonical names, `<>` for any inequality, and a placeholder for each literal. */
  function TextOf(v: Operand): seq<Token>
    decreases v, 0
  {
    match v
    case Literal(_, _, _, _) => [Hole]
    case Field(_, column) => [Word(column)]
    case Call(_, name, args) => [Word(name), Open] + TextOfArgs(args) + [Close]
  }

  function TextOfArgs(args: seq<Part>): seq<Token>
    decreases args, 1
  {
    if args == [] then []
    else if |args| == 1 then TextOf(args[0].value)
    else TextOf(args[0].value) + [Comma] + TextOfArgs(args[1..])
  }

  function TextOfItems(items: seq<Part>): seq<Token>
    decreases items, 1
  {
    if items == [] then []
    else TextOf(items[0].value) + (if items[0].comma then [Comma] else []) + TextOfItems(items[1..])
  }

  function SqlOf(op: Token): Token {
    if op == Op("!=") then Op("<>") else op
  }

  function TextOfCondition(c: Condition): seq<Token>
    decreases c, 0
  {
    match c
    case Compare(_, column, op, value) => [Word(column), SqlOf(op)] + TextOf(value)
    case Within(_, column, op, items) => [Word(column), op, Open] + TextOfItems(items) + [Close]
    case Block(clauses) => [Open] + TextOfClauses(clauses) + [Close]
  }

  function TextOfClauses(clauses: seq<Clause>): seq<Token>
    decreases clauses, 1
  {
    if clauses == [] then []
    else TextOfClause(clauses[0]) + TextOfClauses(clauses[1..])
  }

  function TextOfClause(clause: Clause): seq<Token>
    decreases clause, 0
  {
    (if clause.logic.Some? then [clause.logic.value] else []) + TextOfCondition(clause.condition)
  }

  /** The literals of a tree, in their order. */
  function LiteralsOf(v: Operand): seq<Operand>
    decreases v, 0
  {
    match v
    case Literal(_, _, _, _) => [v]
    case Field(_, _) => []
    case Call(_, _, args) => LiteralsOfParts(args)
  }

  function LiteralsOfParts(parts: seq<Part>): seq<Operand>
    decreases parts, 1
  {
    if parts == [] then [] else LiteralsOf(parts[0].value) + LiteralsOfParts(parts[1..])
  }

  function LiteralsOfCondition(c: Condition): seq<Operand>
    decreases c, 0
  {
    match c
    case Compare(_, _, _, value) => LiteralsOf(value)
    case Within(_, _, _, items) => LiteralsOfParts(items)
    case Block(clauses) => LiteralsOfClauses(clauses)
  }

  function LiteralsOfClauses(clauses: seq<Clause>): seq<Operand>
    decreases clauses, 1
  {
    if clauses == [] then []
    else LiteralsOfClause(clauses[0]) + LiteralsOfClauses(clauses[1..])
  }

  function LiteralsOfClause(clause: Clause): seq<Operand>
    decreases clause, 0
  {
    LiteralsOfCondition(clause.condition)
  }

  /** The values that literals were converted to. */
  function Values(literals: seq<Operand>): (r: seq<Value>)
    ensures |r| == |literals|
  {
    seq(|literals|, i requires 0 <= i < |literals| => if literals[i].Literal? then literals[i].bound else Nil)
  }

  predicate Converted(g: Grammar, literals: seq<Operand>) {
    forall i :: 0 <= i < |literals| ==>
      && literals[i].Literal? && (literals[i].token.Word? || literals[i].token.Number? || literals[i].token.Quoted?)
      && g.convert(literals[i].token.text, literals[i].ctype, literals[i].format) == Some(literals[i].bound)
  }
}
