/**
 Building of a read (reader/sql.go): the filter on the parent's values, the pagination and the selector's criteria are
 put around an evaluated template, and the result is expanded.
 */
module SqlBuilder {
  import opened Keys
  import opened Lists
  import opened Template

  datatype View = View(alias: string, columnNames: map<string, string>, orderBy: string, limit: int)

  datatype Selector = Selector(orderBy: string, limit: int, offset: int, criteria: seq<Piece>, criteriaArgs: seq<Value>)

  datatype Batch = Batch(columnName: string, valuesBatch: seq<Value>)

  datatype Relation = Relation(field: string, column: string, columnAlias: string)

  datatype Exclude = Exclude(columnsIn: bool, pagination: bool)

  datatype Query = Query(sql: seq<Piece>, args: seq<Value>, column: string, values: seq<Value>, offset: int, limit: int)

  /** A keyword as the builder writes it. */
  function Word(key: Keyword): Token {
    Key(key, "$" + Spelling(key))
  }

  /** The text of a template, as the scan of the parameters cuts it: quotes and comments are texts without keys. */
  function SourceText(template: seq<Token>): string {
    if template == [] then ""
    else
      SourceText(template[..|template| - 1]) +
      match template[|template| - 1]
      case Text(s) => s
      case Mark => "?"
      case Key(_, fragment) => fragment
  }

  predicate Contains(text: string, part: string) {
    exists i :: 0 <= i <= |text| && part <= text[i..]
  }

  lemma ContainsAt(text: string, before: string, part: string, after: string)
    requires text == before + part + after
    ensures Contains(text, part)
  {
    assert text[|before|..] == part + after;
  }

  /** `$` and this word stand somewhere in the text, be it in a key, in quotes or in a comment. */
  predicate Mentions(template: seq<Token>, word: string) {
    Contains(SourceText(template), "$" + word)
  }

  predicate HasKeyword(template: seq<Token>, word: string) {
    || Mentions(template, OR_PREFIX + word)
    || Mentions(template, word)
    || Mentions(template, AND_PREFIX + word)
    || Mentions(template, WHERE_PREFIX + word)
  }

  function ViewAlias(view: View): string {
    if view.alias != "" then view.alias + "." else ""
  }

  /** A filter inside the template's own text must not use the alias of the outer query. */
  function FilterAlias(view: View, relation: Option<Relation>, inside: bool): string
    requires inside ==> relation.Some?
  {
    if !inside then ViewAlias(view)
    else if relation.value.columnAlias != "" then relation.value.columnAlias + "."
    else ""
  }

  function Filter(alias: string, column: string, n: nat): seq<Piece> {
    Lit(" " + alias + column + " IN (") + Marks(n) + Lit(")")
  }

  function ActualLimit(view: View, selector: Selector): int {
    if selector.limit != 0 then selector.limit else view.limit
  }

  /** None if the selector orders by an unknown column. */
  function OrderBy(view: View, selector: Selector): Option<string> {
    if selector.orderBy != "" then
      if selector.orderBy in view.columnNames then Some(" ORDER BY " + view.columnNames[selector.orderBy]) else None
    else if view.orderBy != "" then Some(" ORDER BY " + view.orderBy)
    else Some("")
  }

  function LimitText(limit: int): string {
    if limit == 0 then "" else " LIMIT " + Itoa(limit)
  }

  function OffsetText(offset: int): string {
    if offset == 0 then "" else " OFFSET " + Itoa(offset)
  }

  /** The inputs of a build that decide its parameters. */
  datatype Request = Request(view: View, selector: Selector, batch: Batch, relation: Option<Relation>, exclude: Exclude)

  /** A batch with a column comes from a relation. */
  predicate ValidRequest(r: Request) {
    r.batch.columnName != "" ==> r.relation.Some?
  }

  predicate Included(r: Request) {
    !r.exclude.columnsIn && r.batch.columnName != ""
  }

  function ColumnsInText(r: Request, template: seq<Token>): seq<Piece>
    requires ValidRequest(r)
  {
    if !Included(r) then []
    else
      var inside := HasKeyword(template, CRITERIA) || HasKeyword(template, COLUMN_IN);
      Filter(FilterAlias(r.view, r.relation, inside), r.batch.columnName, |r.batch.valuesBatch|)
  }

  function PaginationText(r: Request): Option<seq<Piece>> {
    if r.exclude.pagination then Some([])
    else
      var orderBy := OrderBy(r.view, r.selector);
      if orderBy.None? then None
      else Some(Lit(orderBy.value + LimitText(ActualLimit(r.view, r.selector)) + OffsetText(r.selector.offset)))
  }

  function WhereClause(r: Request, template: seq<Token>): (sql: seq<Token>)
    ensures WhereOk(sql)
  {
    if !HasKeyword(template, COLUMN_IN) && Included(r) then [Word(ColumnIn)] else []
  }

  function ParamsOf(r: Request, template: seq<Token>): Params
    requires ValidRequest(r) && PaginationText(r).Some?
  {
    Params(WhereClause(r, template), ColumnsInText(r, template), PaginationText(r).value)
  }

  method AppendOrderBy(sb: string, view: View, selector: Selector) returns (ok: bool, sb': string)
    ensures ok <==> OrderBy(view, selector).Some?
    ensures ok ==> sb' == sb + OrderBy(view, selector).value
  {
    if selector.orderBy != "" {
      if selector.orderBy !in view.columnNames {
        return false, sb;
      }
      return true, sb + (" ORDER BY " + view.columnNames[selector.orderBy]);
    }
    if view.orderBy != "" {
      return true, sb + (" ORDER BY " + view.orderBy);
    }
    return true, sb;
  }

  method AppendLimit(sb: string, view: View, selector: Selector) returns (sb': string)
    ensures sb' == sb + LimitText(ActualLimit(view, selector))
  {
    var limit := ActualLimit(view, selector);
    return if limit == 0 then sb else sb + (" LIMIT " + Itoa(limit));
  }

  method AppendOffset(sb: string, selector: Selector) returns (sb': string)
    ensures sb' == sb + OffsetText(selector.offset)
  {
    return if selector.offset == 0 then sb else sb + (" OFFSET " + Itoa(selector.offset));
  }

  class CriteriaParam {
    var whereClause: seq<Token>
    var columnsIn: seq<Piece>
    var pagination: seq<Piece>

    constructor ()
      ensures whereClause == [] && columnsIn == [] && pagination == []
    {
      whereClause, columnsIn, pagination := [], [], [];
    }

    method UpdateColumnsIn(r: Request, columnsInMeta: bool, hasCriteria: bool)
      requires ValidRequest(r)
      modifies this`columnsIn
      ensures columnsIn == if !Included(r) then old(columnsIn)
                           else Filter(FilterAlias(r.view, r.relation, hasCriteria || columnsInMeta),
                                       r.batch.columnName, |r.batch.valuesBatch|)
    {
      if r.exclude.columnsIn || r.batch.columnName == "" {
        return;
      }
      var alias := ViewAlias(r.view);
      if hasCriteria || columnsInMeta {
        alias := if r.relation.value.columnAlias != "" then r.relation.value.columnAlias + "." else "";
      }
      var sb := [];
      for i := 0 to |r.batch.valuesBatch|
        invariant sb == Marks(i)
      {
        if i != 0 {
          sb := sb + Lit(", ");
        }
        sb := sb + [Hole];
      }
      columnsIn := Lit(" " + alias + r.batch.columnName + " IN (") + sb + Lit(")");
    }

    method UpdatePagination(r: Request) returns (ok: bool)
      modifies this`pagination
      ensures ok <==> PaginationText(r).Some?
      ensures ok && !r.exclude.pagination ==> pagination == PaginationText(r).value
      ensures r.exclude.pagination ==> pagination == old(pagination)
    {
      if r.exclude.pagination {
        return true;
      }
      var sb;
      ok, sb := AppendOrderBy("", r.view, r.selector);
      if !ok {
        return false;
      }
      ghost var orderBy := OrderBy(r.view, r.selector).value;
      assert sb == orderBy;
      sb := AppendLimit(sb, r.view, r.selector);
      sb := AppendOffset(sb, r.selector);
      assert sb == orderBy + LimitText(ActualLimit(r.view, r.selector)) + OffsetText(r.selector.offset);
      pagination := Lit(sb);
      return true;
    }

    method UpdateCriteria(columnsInMeta: bool)
      modifies this`whereClause
      ensures whereClause == if !columnsInMeta && columnsIn != [] then [Word(ColumnIn)] else []
    {
      whereClause := [];
      if !columnsInMeta && columnsIn != [] {
        whereClause := whereClause + [Word(ColumnIn)];
      }
    }
  }

  /** What follows the template: the filter and the selector's criteria unless the template has places for them. */
  function CriteriaSuffix(template: seq<Token>, filtered: bool): seq<Token> {
    if HasKeyword(template, CRITERIA) then [Text(" "), Word(Where(SelectorCriteria))]
    else if filtered then [Text(" "), Word(Where(Criteria)), Text(" "), Word(And(SelectorCriteria))]
    else [Text("  "), Word(Where(SelectorCriteria)), Text(" ")]
  }

  function PaginationSuffix(template: seq<Token>, pagination: seq<Piece>): seq<Token> {
    if !Mentions(template, PAGINATION) && pagination != [] then [Text(" "), Word(Pagination), Text(" ")] else []
  }

  function Head(columns: string): seq<Token> {
    [Text("SELECT " + columns + " FROM ")]
  }

  function AliasPart(view: View): seq<Token> {
    if view.alias == "" then [] else [Text(" AS " + view.alias)]
  }

  function Assembled(r: Request, columns: string, template: seq<Token>): seq<Token>
    requires ValidRequest(r) && PaginationText(r).Some?
  {
    Head(columns) + template + AliasPart(r.view) + Suffix(r, template)
  }

  function Suffix(r: Request, template: seq<Token>): seq<Token>
    requires ValidRequest(r) && PaginationText(r).Some?
  {
    CriteriaSuffix(template, WhereClause(r, template) != []) + PaginationSuffix(template, PaginationText(r).value)
  }

  function EnvOf(r: Request, template: seq<Token>, accessors: map<string, seq<Value>>): (env: Env)
    requires ValidRequest(r) && PaginationText(r).Some?
    ensures WhereOk(env.params.whereClause)
  {
    Env(ParamsOf(r, template), r.batch.valuesBatch, r.selector.criteria, r.selector.criteriaArgs, accessors)
  }

  method CommonParams(r: Request, template: seq<Token>, columnsInMeta: bool, hasCriteria: bool)
    returns (params: Params, ok: bool)
    requires ValidRequest(r)
    requires columnsInMeta == HasKeyword(template, COLUMN_IN) && hasCriteria == HasKeyword(template, CRITERIA)
    ensures ok <==> PaginationText(r).Some?
    ensures ok ==> params == ParamsOf(r, template)
  {
    var common := new CriteriaParam();
    common.UpdateColumnsIn(r, columnsInMeta, hasCriteria);
    ok := common.UpdatePagination(r);
    common.UpdateCriteria(columnsInMeta);
    params := Params(common.whereClause, common.columnsIn, common.pagination);
  }

  method AppendKeywords(sb: seq<Token>, template: seq<Token>, hasCriteria: bool, whereClause: seq<Token>,
                        pagination: seq<Piece>)
    returns (sb': seq<Token>)
    requires hasCriteria == HasKeyword(template, CRITERIA)
    ensures sb' == sb + (CriteriaSuffix(template, whereClause != []) + PaginationSuffix(template, pagination))
  {
    if !hasCriteria {
      if whereClause != [] {
        sb' := sb + [Text(" "), Word(Where(Criteria)), Text(" "), Word(And(SelectorCriteria))];
      } else {
        sb' := sb + [Text("  "), Word(Where(SelectorCriteria)), Text(" ")];
      }
    } else {
      sb' := sb + [Text(" "), Word(Where(SelectorCriteria))];
    }
    assert sb' == sb + CriteriaSuffix(template, whereClause != []);
    if !Mentions(template, PAGINATION) && pagination != [] {
      sb' := sb' + [Text(" "), Word(Pagination), Text(" ")];
    }
  }

  /**
   Builds a read from the column list, which is missing if a selected column is unknown, and an evaluated template with
   its bindings.
   */
  method Build(r: Request, columns: Option<string>, template: seq<Token>, accessors: map<string, seq<Value>>,
               bindings: Bindings)
    returns (query: Option<Query>)
    requires ValidRequest(r)
    modifies bindings`counter
    ensures query.Some? <==>
            && columns.Some? && PaginationText(r).Some?
            && Known(Assembled(r, columns.value, template), EnvOf(r, template, accessors))
            && old(bindings.Supply(MarkCount(Assembled(r, columns.value, template)))).Some?
    ensures query.Some? ==>
              var sql, env := Assembled(r, columns.value, template), EnvOf(r, template, accessors);
              && query.value.sql == TextOf(sql, env)
              && query.value.args == ArgsOf(sql, env, old(bindings.Supply(MarkCount(sql))).value)
    ensures query.Some? ==>
              && query.value.values == (if r.exclude.columnsIn && r.relation.Some? then r.batch.valuesBatch else [])
              && query.value.column == (if r.exclude.columnsIn && r.relation.Some? then
                                          if r.relation.value.field != "" then r.relation.value.field
                                          else r.relation.value.column
                                        else "")
              && query.value.limit == (if r.exclude.pagination then ActualLimit(r.view, r.selector) else 0)
              && query.value.offset == (if r.exclude.pagination then r.selector.offset else 0)
  {
    if columns.None? {
      return None;
    }
    var columnsInMeta := HasKeyword(template, COLUMN_IN);
    var hasCriteria := HasKeyword(template, CRITERIA);
    var params, ok := CommonParams(r, template, columnsInMeta, hasCriteria);
    if !ok {
      return None;
    }
    var sb := Head(columns.value) + template + AliasPart(r.view);
    sb := AppendKeywords(sb, template, hasCriteria, params.whereClause, params.pagination);
    var env := Env(params, r.batch.valuesBatch, r.selector.criteria, r.selector.criteriaArgs, accessors);
    assert sb == Assembled(r, columns.value, template);
    var text, placeholders := Expand(sb, env, bindings, false);
    if text.None? {
      return None;
    }
    var column, values, offset, limit := "", [], 0, 0;
    if r.exclude.columnsIn && r.relation.Some? {
      column := if r.relation.value.field != "" then r.relation.value.field else r.relation.value.column;
      values := r.batch.valuesBatch;
    }
    if r.exclude.pagination {
      offset, limit := r.selector.offset, ActualLimit(r.view, r.selector);
    }
    return Some(Query(text.value, placeholders, column, values, offset, limit));
  }

  // ----- concatenation -----

  lemma {:induction false} MarkCountConcat(a: seq<Token>, b: seq<Token>)
    ensures MarkCount(a + b) == MarkCount(a) + MarkCount(b)
    decreases |b|
  {
    if b == [] {
      assert a + b == a;
    } else {
      MarkCountConcat(a, b[..|b| - 1]);
      assert (a + b)[..|a + b| - 1] == a + b[..|b| - 1];
    }
  }

  lemma {:induction false} TextConcat(a: seq<Token>, b: seq<Token>, env: Env)
    requires WhereOk(env.params.whereClause)
    ensures TextOf(a + b, env) == TextOf(a, env) + TextOf(b, env)
    decreases |b|
  {
    if b == [] {
      assert a + b == a;
    } else {
      var front, last := b[..|b| - 1], b[|b| - 1];
      TextConcat(a, front, env);
      assert (a + b)[..|a + b| - 1] == a + front;
      Assoc(TextOf(a, env), TextOf(front, env), TokenText(last, env));
    }
  }

  lemma ShiftedArgs(token: Token, env: Env, supply: seq<Value>, m: nat, taken: nat)
    requires WhereOk(env.params.whereClause) && m + taken <= |supply| && (token.Mark? ==> m + taken < |supply|)
    ensures TokenArgs(token, env, supply, m + taken) == TokenArgs(token, env, supply[m..], taken)
  {}

  lemma {:induction false} ArgsConcat(a: seq<Token>, b: seq<Token>, env: Env, supply: seq<Value>)
    requires WhereOk(env.params.whereClause) && MarkCount(a) + MarkCount(b) <= |supply|
    ensures MarkCount(a + b) == MarkCount(a) + MarkCount(b)
    ensures ArgsOf(a + b, env, supply) == ArgsOf(a, env, supply) + ArgsOf(b, env, supply[MarkCount(a)..])
    decreases |b|
  {
    MarkCountConcat(a, b);
    if b == [] {
      assert a + b == a;
    } else {
      var front, last := b[..|b| - 1], b[|b| - 1];
      ArgsConcat(a, front, env, supply);
      assert (a + b)[..|a + b| - 1] == a + front;
      var rest := supply[MarkCount(a)..];
      ShiftedArgs(last, env, supply, MarkCount(a), MarkCount(front));
      Assoc(ArgsOf(a, env, supply), ArgsOf(front, env, rest), TokenArgs(last, env, rest, MarkCount(front)));
      assert ArgsOf(b, env, rest) == ArgsOf(front, env, rest) + TokenArgs(last, env, rest, MarkCount(front));
    }
  }

  lemma {:induction false} UsesConcat(a: seq<Token>, b: seq<Token>, env: Env)
    ensures Uses(a + b, env) == Uses(a, env) + Uses(b, env)
    decreases |b|
  {
    if b == [] {
      assert a + b == a;
    } else {
      UsesConcat(a, b[..|b| - 1], env);
      assert (a + b)[..|a + b| - 1] == a + b[..|b| - 1];
    }
  }

  /** A text without placeholders of its own: how often it asks for the parent's values, and the values it brings. */
  ghost predicate Yields(s: seq<Token>, env: Env, uses: nat, args: seq<Value>)
    requires WhereOk(env.params.whereClause)
  {
    MarkCount(s) == 0 && Uses(s, env) == uses && ArgsOf(s, env, []) == args
  }

  lemma YieldsMore(a: seq<Token>, token: Token, env: Env, uses: nat, args: seq<Value>)
    requires WhereOk(env.params.whereClause) && !token.Mark? && Yields(a, env, uses, args)
    ensures Yields(a + [token], env, uses + TokenUses(token, env), args + TokenArgs(token, env, [], 0))
  {
    assert (a + [token])[..|a|] == a;
  }

  lemma YieldsConcat(a: seq<Token>, b: seq<Token>, env: Env, m: nat, n: nat, xs: seq<Value>, ys: seq<Value>)
    requires WhereOk(env.params.whereClause) && Yields(a, env, m, xs) && Yields(b, env, n, ys)
    ensures Yields(a + b, env, m + n, xs + ys)
  {
    ArgsConcat(a, b, env, []);
    UsesConcat(a, b, env);
  }

  lemma OneToken(token: Token, env: Env)
    requires WhereOk(env.params.whereClause) && !token.Mark?
    ensures Yields([token], env, TokenUses(token, env), TokenArgs(token, env, [], 0))
  {
    YieldsMore([], token, env, 0, []);
    assert [] + [token] == [token];
    assert [] + TokenArgs(token, env, [], 0) == TokenArgs(token, env, [], 0);
  }

  lemma TwoTokens(s: seq<Token>, env: Env)
    requires WhereOk(env.params.whereClause) && |s| == 2 && s[0].Text? && !s[1].Mark?
    ensures Yields(s, env, TokenUses(s[1], env), TokenArgs(s[1], env, [], 0))
  {
    OneToken(s[0], env);
    YieldsMore([s[0]], s[1], env, 0, []);
    assert s == [s[0]] + [s[1]];
    assert [] + TokenArgs(s[1], env, [], 0) == TokenArgs(s[1], env, [], 0);
  }

  lemma ThreeTokens(s: seq<Token>, env: Env)
    requires WhereOk(env.params.whereClause) && |s| == 3 && s[0].Text? && !s[1].Mark? && s[2].Text?
    ensures Yields(s, env, TokenUses(s[1], env), TokenArgs(s[1], env, [], 0))
  {
    TwoTokens(s[..2], env);
    YieldsMore(s[..2], s[2], env, TokenUses(s[1], env), TokenArgs(s[1], env, [], 0));
    assert s == s[..2] + [s[2]];
  }

  lemma FourTokens(s: seq<Token>, env: Env)
    requires WhereOk(env.params.whereClause) && |s| == 4 && s[0].Text? && !s[1].Mark? && s[2].Text? && !s[3].Mark?
    ensures Yields(s, env, TokenUses(s[1], env) + TokenUses(s[3], env),
                   TokenArgs(s[1], env, [], 0) + TokenArgs(s[3], env, [], 0))
  {
    ThreeTokens(s[..3], env);
    YieldsMore(s[..3], s[3], env, TokenUses(s[1], env), TokenArgs(s[1], env, [], 0));
    assert s == s[..3] + [s[3]];
  }

  // ----- how often the parent's values are asked for -----

  function Base(key: Keyword): Keyword {
    match key
    case Where(inner) => Base(inner)
    case And(inner) => Base(inner)
    case Or(inner) => Base(inner)
    case _ => key
  }

  /** The tokens that are this keyword, under any prefixes. */
  function Asks(template: seq<Token>, base: Keyword): nat {
    if template == [] then 0
    else
      var last := template[|template| - 1];
      Asks(template[..|template| - 1], base) + if last.Key? && Base(last.key) == base then 1 else 0
  }

  lemma {:induction false} KeyUses(key: Keyword, env: Env)
    ensures ColumnUses(key, env) ==
            if Base(key) == ColumnIn then 1 else if Base(key) == Criteria then WhereUses(env.params.whereClause) else 0
    decreases key
  {
    match key
    case Where(inner) => KeyUses(inner, env);
    case And(inner) => KeyUses(inner, env);
    case Or(inner) => KeyUses(inner, env);
    case _ =>
  }

  lemma WhereUsesOf(r: Request, template: seq<Token>, env: Env)
    requires env.params.whereClause == WhereClause(r, template)
    ensures WhereUses(env.params.whereClause) == if WhereClause(r, template) == [] then 0 else 1
    ensures WhereArgs(env.params.whereClause, env) == if WhereClause(r, template) == [] then [] else env.batch
    ensures WhereText(env.params.whereClause, env) == if WhereClause(r, template) == [] then []
      else env.params.columnsIn
  {
    var sql := WhereClause(r, template);
    if sql != [] {
      assert sql[..0] == [];
      assert WhereUses(sql[..0]) == 0 && WhereArgs(sql[..0], env) == [] && WhereText(sql[..0], env) == [];
    }
  }

  lemma {:induction false} TemplateUses(r: Request, template: seq<Token>, part: seq<Token>, env: Env)
    requires env.params.whereClause == WhereClause(r, template)
    ensures Uses(part, env) == Asks(part, ColumnIn) + if WhereClause(r, template) == [] then 0 else Asks(part, Criteria)
    decreases |part|
  {
    if part != [] {
      TemplateUses(r, template, part[..|part| - 1], env);
      WhereUsesOf(r, template, env);
      if part[|part| - 1].Key? {
        KeyUses(part[|part| - 1].key, env);
      }
    }
  }

  predicate AppendsFilter(r: Request, template: seq<Token>) {
    !HasKeyword(template, CRITERIA) && WhereClause(r, template) != []
  }

  lemma WordsYield(env: Env, supply: seq<Value>)
    requires WhereOk(env.params.whereClause)
    ensures TokenUses(Word(Where(SelectorCriteria)), env) == 0 == TokenUses(Word(And(SelectorCriteria)), env)
    ensures TokenArgs(Word(Where(SelectorCriteria)), env, supply, 0) == env.criteriaArgs
    ensures TokenArgs(Word(And(SelectorCriteria)), env, supply, 0) == env.criteriaArgs
    ensures TokenUses(Word(Where(Criteria)), env) == WhereUses(env.params.whereClause)
    ensures TokenArgs(Word(Where(Criteria)), env, supply, 0) == WhereArgs(env.params.whereClause, env)
  {
    assert EntryOf(SelectorCriteria, env).value.args == env.criteriaArgs && ColumnUses(SelectorCriteria, env) == 0;
    assert EntryOf(Criteria, env).value.args == WhereArgs(env.params.whereClause, env);
    assert ColumnUses(Criteria, env) == WhereUses(env.params.whereClause);
  }

  lemma CriteriaSuffixIs(r: Request, template: seq<Token>, env: Env)
    requires env.params.whereClause == WhereClause(r, template)
    ensures Yields(CriteriaSuffix(template, WhereClause(r, template) != []), env,
                   if AppendsFilter(r, template) then 1 else 0,
                   (if AppendsFilter(r, template) then env.batch else []) + env.criteriaArgs)
  {
    var s := CriteriaSuffix(template, WhereClause(r, template) != []);
    WordsYield(env, []);
    if AppendsFilter(r, template) {
      WhereUsesOf(r, template, env);
      FourTokens(s, env);
    } else {
      assert [] + env.criteriaArgs == env.criteriaArgs;
      assert s[1] == Word(Where(SelectorCriteria));
      if |s| == 2 {
        TwoTokens(s, env);
      } else {
        ThreeTokens(s, env);
      }
    }
  }

  lemma PaginationSuffixIs(template: seq<Token>, env: Env)
    requires WhereOk(env.params.whereClause)
    ensures Yields(PaginationSuffix(template, env.params.pagination), env, 0, [])
  {
    var s := PaginationSuffix(template, env.params.pagination);
    if s != [] {
      ThreeTokens(s, env);
    }
  }

  /**
   The keywords after the template: the values of the parent, if the filter is among them, and those of the selector.
   */
  lemma SuffixIs(r: Request, template: seq<Token>, env: Env)
    requires ValidRequest(r) && PaginationText(r).Some? && env.params == ParamsOf(r, template)
    ensures Yields(Suffix(r, template), env, if AppendsFilter(r, template) then 1 else 0,
                   (if AppendsFilter(r, template) then env.batch else []) + env.criteriaArgs)
  {
    var args := (if AppendsFilter(r, template) then env.batch else []) + env.criteriaArgs;
    CriteriaSuffixIs(r, template, env);
    PaginationSuffixIs(template, env);
    YieldsConcat(CriteriaSuffix(template, WhereClause(r, template) != []),
                 PaginationSuffix(template, env.params.pagination), env, if AppendsFilter(r, template) then 1 else 0, 0,
                 args, []);
    assert args + [] == args;
  }

  /** A part that brings nothing, before a template. */
  lemma AfterText(s: string, template: seq<Token>, env: Env, supply: seq<Value>)
    requires WhereOk(env.params.whereClause) && MarkCount(template) <= |supply|
    ensures MarkCount([Text(s)] + template) == MarkCount(template)
    ensures Uses([Text(s)] + template, env) == Uses(template, env)
    ensures ArgsOf([Text(s)] + template, env, supply) == ArgsOf(template, env, supply)
  {
    OneToken(Text(s), env);
    SupplyPrefix([Text(s)], env, [], supply);
    ArgsConcat([Text(s)], template, env, supply);
    UsesConcat([Text(s)], template, env);
    assert supply[0..] == supply;
    assert [] + ArgsOf(template, env, supply) == ArgsOf(template, env, supply);
  }

  /** A part without placeholders of its own, after a template. */
  lemma BeforePart(template: seq<Token>, part: seq<Token>, env: Env, supply: seq<Value>, uses: nat, args: seq<Value>)
    requires WhereOk(env.params.whereClause) && MarkCount(template) <= |supply| && Yields(part, env, uses, args)
    ensures MarkCount(template + part) == MarkCount(template)
    ensures Uses(template + part, env) == Uses(template, env) + uses
    ensures ArgsOf(template + part, env, supply) == ArgsOf(template, env, supply) + args
  {
    ArgsConcat(template, part, env, supply);
    UsesConcat(template, part, env);
    SupplyPrefix(part, env, [], supply[MarkCount(template)..]);
  }

  /** Only the template brings placeholders of its own, and nothing else than template and suffix brings values. */
  lemma AssembledIs(r: Request, columns: string, template: seq<Token>, env: Env, supply: seq<Value>)
    requires ValidRequest(r) && PaginationText(r).Some? && env.params == ParamsOf(r, template)
    requires MarkCount(template) <= |supply|
    ensures MarkCount(Assembled(r, columns, template)) == MarkCount(template)
    ensures Uses(Assembled(r, columns, template), env) ==
            Uses(template, env) + if AppendsFilter(r, template) then 1 else 0
    ensures ArgsOf(Assembled(r, columns, template), env, supply) ==
            ArgsOf(template, env, supply) + ((if AppendsFilter(r, template) then env.batch else []) + env.criteriaArgs)
  {
    var body := Head(columns) + template;
    AfterText("SELECT " + columns + " FROM ", template, env, supply);
    OneToken(Text(" AS " + r.view.alias), env);
    BeforePart(body, AliasPart(r.view), env, supply, 0, []);
    assert ArgsOf(body, env, supply) + [] == ArgsOf(body, env, supply);
    SuffixIs(r, template, env);
    BeforePart(body + AliasPart(r.view), Suffix(r, template), env, supply, if AppendsFilter(r, template) then 1 else 0,
               (if AppendsFilter(r, template) then env.batch else []) + env.criteriaArgs);
  }

  /**
   How often a built read asks for the parent's values. The builder looks for keywords anywhere in the text, while the
   expansion works by key: a key that only starts with a keyword, one in braces, and one in quotes or in a comment make
   the two disagree.
   */
  lemma TimesAsked(r: Request, columns: string, template: seq<Token>, env: Env)
    requires ValidRequest(r) && PaginationText(r).Some? && env.params == ParamsOf(r, template)
    ensures Uses(Assembled(r, columns, template), env) ==
            Asks(template, ColumnIn) +
            if Included(r) && !HasKeyword(template, COLUMN_IN)
            then Asks(template, Criteria) + if HasKeyword(template, CRITERIA) then 0 else 1 else 0
  {
    AssembledIs(r, columns, template, env, Mocks(MarkCount(template)));
    TemplateUses(r, template, template, env);
  }

  /**
   A build that leaves the filter out, such as that of the text a cache is warmed up with, looks into its batch exactly
   when the template has a key for the filter.
   */
  lemma BatchNeededExactlyWhen(r: Request, columns: string, template: seq<Token>, env: Env)
    requires ValidRequest(r) && PaginationText(r).Some? && env.params == ParamsOf(r, template) && !Included(r)
    ensures Uses(Assembled(r, columns, template), env) > 0 <==> Asks(template, ColumnIn) > 0
  {
    TimesAsked(r, columns, template, env);
  }

  /** The text of a template mentions the keywords that its keys are, and no others. */
  predicate SpelledPlainly(template: seq<Token>) {
    && (HasKeyword(template, COLUMN_IN) <==> Asks(template, ColumnIn) > 0)
    && (HasKeyword(template, CRITERIA) <==> Asks(template, Criteria) > 0)
  }

  /**
   A child is never read without the filter on its parents, and the filter's values are asked for once in the plain
   case.
   */
  lemma AlwaysFiltered(r: Request, columns: string, template: seq<Token>, env: Env)
    requires ValidRequest(r) && PaginationText(r).Some? && env.params == ParamsOf(r, template)
    requires Included(r) && SpelledPlainly(template)
    ensures Uses(Assembled(r, columns, template), env) > 0
    ensures Asks(template, ColumnIn) + Asks(template, Criteria) <= 1 ==>
              Uses(Assembled(r, columns, template), env) == 1
  {
    TimesAsked(r, columns, template, env);
  }

  /** Without plain spelling: the filter is lost exactly when a keyword is found in the text but not as a key. */
  lemma FilteredExactlyWhen(r: Request, columns: string, template: seq<Token>, env: Env)
    requires ValidRequest(r) && PaginationText(r).Some? && env.params == ParamsOf(r, template) && Included(r)
    ensures Uses(Assembled(r, columns, template), env) == 0 <==>
            && Asks(template, ColumnIn) == 0
            && (HasKeyword(template, COLUMN_IN) || (HasKeyword(template, CRITERIA) && Asks(template, Criteria) == 0))
  {
    TimesAsked(r, columns, template, env);
  }

  lemma OneText(token: Token, s: string)
    requires token == Text(s) || (token.Key? && token.fragment == s)
    ensures SourceText([token]) == s
  {
    assert [token][..0] == [];
    assert SourceText([token][..0]) == "";
  }

  /** A parameter whose name starts with `COLUMN_IN` keeps every filter out. */
  lemma FilterLost(r: Request, columns: string, env: Env)
    requires ValidRequest(r) && PaginationText(r).Some? && Included(r)
    requires env.params == ParamsOf(r, [Word(Param("COLUMN_INFO"))])
    ensures Uses(Assembled(r, columns, [Word(Param("COLUMN_INFO"))]), env) == 0
  {
    var template := [Word(Param("COLUMN_INFO"))];
    OneText(template[0], "$COLUMN_INFO");
    ContainsAt("$COLUMN_INFO", "", "$" + COLUMN_IN, "FO");
    assert Mentions(template, COLUMN_IN);
    assert template[..0] == [] && Asks(template[..0], ColumnIn) == 0;
    FilteredExactlyWhen(r, columns, template, env);
  }

  /** So does the keyword in a comment or in quotes, where the scan finds no key. */
  lemma FilterLostInText(r: Request, columns: string, before: string, after: string, env: Env)
    requires ValidRequest(r) && PaginationText(r).Some? && Included(r)
    requires env.params == ParamsOf(r, [Text(before + ("$" + COLUMN_IN) + after)])
    ensures Uses(Assembled(r, columns, [Text(before + ("$" + COLUMN_IN) + after)]), env) == 0
  {
    var text := before + ("$" + COLUMN_IN) + after;
    OneText(Text(text), text);
    ContainsAt(text, before, "$" + COLUMN_IN, after);
    TextAsksNothing(text, ColumnIn);
    FilteredExactlyWhen(r, columns, [Text(text)], env);
  }

  lemma TextAsksNothing(text: string, base: Keyword)
    ensures Asks([Text(text)], base) == 0
  {
    assert [Text(text)][..0] == [];
    assert Asks([Text(text)][..0], base) == 0;
  }

  // ----- binding -----

  predicate Fits(r: Request) {
    Holes(r.selector.criteria) == |r.selector.criteriaArgs|
  }

  /** The filter's text has a placeholder for each value if it is there. */
  lemma FilterHoles(r: Request, template: seq<Token>)
    requires ValidRequest(r)
    ensures Holes(ColumnsInText(r, template)) == if Included(r) then |r.batch.valuesBatch| else 0
  {
    if Included(r) {
      var inside := HasKeyword(template, CRITERIA) || HasKeyword(template, COLUMN_IN);
      var lead := Lit(" " + FilterAlias(r.view, r.relation, inside) + r.batch.columnName + " IN (");
      var n := |r.batch.valuesBatch|;
      MarksHoles(n);
      HolesConcat(lead, Marks(n));
      HolesConcat(lead + Marks(n), Lit(")"));
    }
  }

  lemma NamedAssembled(r: Request, columns: string, template: seq<Token>)
    requires ValidRequest(r) && PaginationText(r).Some? && Named(template)
    ensures Named(Assembled(r, columns, template))
  {
    assert Named(Head(columns)) && Named(AliasPart(r.view));
    assert Named(CriteriaSuffix(template, WhereClause(r, template) != []));
    assert Named(Suffix(r, template));
  }

  /**
   The values that a build returns are as many as its placeholders exactly when the filter is in its text, or not
   needed.
   */
  lemma BoundExactlyWhen(r: Request, columns: string, template: seq<Token>, accessors: map<string, seq<Value>>,
                         supply: seq<Value>)
    requires ValidRequest(r) && PaginationText(r).Some? && Fits(r) && Named(template)
    requires Known(Assembled(r, columns, template), EnvOf(r, template, accessors)) && MarkCount(template) <= |supply|
    ensures MarkCount(Assembled(r, columns, template)) == MarkCount(template)
    ensures var sql, env := Assembled(r, columns, template), EnvOf(r, template, accessors);
            Holes(TextOf(sql, env)) == |ArgsOf(sql, env, supply)|
            <==> Included(r) || r.batch.valuesBatch == [] || Asks(template, ColumnIn) == 0
  {
    var sql, env := Assembled(r, columns, template), EnvOf(r, template, accessors);
    AssembledIs(r, columns, template, env, supply);
    NamedAssembled(r, columns, template);
    FilterHoles(r, template);
    TimesAsked(r, columns, template, env);
    BalancedExactlyWhen(sql, env, supply);
  }

  /** A build that does not exclude the filter: dealing out its values fills every fragment with its own. */
  lemma BuiltReadIsBound(r: Request, columns: string, template: seq<Token>, accessors: map<string, seq<Value>>,
                         supply: seq<Value>)
    requires ValidRequest(r) && PaginationText(r).Some? && Fits(r) && Named(template)
    requires Included(r) || r.batch.valuesBatch == []
    requires Known(Assembled(r, columns, template), EnvOf(r, template, accessors)) && MarkCount(template) <= |supply|
    ensures MarkCount(Assembled(r, columns, template)) == MarkCount(template)
    ensures var sql, env := Assembled(r, columns, template), EnvOf(r, template, accessors);
            && Balanced(env)
            && Holes(TextOf(sql, env)) == |ArgsOf(sql, env, supply)|
            && Zip(TextOf(sql, env), ArgsOf(sql, env, supply)) == Meaning(sql, env, supply)
  {
    var sql, env := Assembled(r, columns, template), EnvOf(r, template, accessors);
    AssembledIs(r, columns, template, env, supply);
    NamedAssembled(r, columns, template);
    FilterHoles(r, template);
    ExpandedTextIsBound(sql, env, supply);
  }

  /** A template without the keywords: its own values come first, then the parent's, then those of the selector. */
  lemma ArgsInOrder(r: Request, columns: string, template: seq<Token>, accessors: map<string, seq<Value>>,
                    supply: seq<Value>)
    requires ValidRequest(r) && PaginationText(r).Some? && MarkCount(template) <= |supply|
    requires !HasKeyword(template, CRITERIA) && !HasKeyword(template, COLUMN_IN)
    ensures MarkCount(Assembled(r, columns, template)) == MarkCount(template)
    ensures var sql, env := Assembled(r, columns, template), EnvOf(r, template, accessors);
            ArgsOf(sql, env, supply) ==
            ArgsOf(template, env, supply) + (if Included(r) then r.batch.valuesBatch else []) + r.selector.criteriaArgs
  {
    var env := EnvOf(r, template, accessors);
    AssembledIs(r, columns, template, env, supply);
    Assoc(ArgsOf(template, env, supply), if Included(r) then r.batch.valuesBatch else [], r.selector.criteriaArgs);
  }
}
