/**
 Expansion of the `$KEYWORDS` of a SQL template (view/template.go, template/expand/placeholders.go and meta.go).
 One pass collects the arguments and the replacement texts, a second one substitutes all replacements at once. The text
 is a sequence of characters in which a placeholder is a `Hole`, so that a question mark in quotes is not one.
 */
module Template {
  import opened Keys

  /** A key with its prefixes taken off one by one. */
  datatype Keyword =
    | Pagination | Criteria | ColumnIn | SelectorCriteria
    | Where(inner: Keyword) | And(inner: Keyword) | Or(inner: Keyword)
    | Param(name: string)

  datatype Token = Text(s: string) | Mark | Key(key: Keyword, fragment: string)

  datatype Piece = Ch(c: char) | Hole

  /** A text in which every placeholder carries the value it stands for. */
  datatype Bound = BCh(c: char) | BHole(v: Value)

  datatype Params = Params(whereClause: seq<Token>, columnsIn: seq<Piece>, pagination: seq<Piece>)

  datatype Env = Env(params: Params, batch: seq<Value>, criteria: seq<Piece>, criteriaArgs: seq<Value>,
                     accessors: map<string, seq<Value>>)

  const PAGINATION := "PAGINATION"
  const CRITERIA := "CRITERIA"
  const COLUMN_IN := "COLUMN_IN"
  const SELECTOR_CRITERIA := "SELECTOR_CRITERIA"
  const WHERE_PREFIX := "WHERE_"
  const AND_PREFIX := "AND_"
  const OR_PREFIX := "OR_"

  /** The order of the cases is the program's: exact keywords, then prefixes, then template parameters. */
  function KeywordOf(key: string): (k: Keyword)
    ensures Spelling(k) == key
  {
    if key == PAGINATION then Pagination
    else if key == CRITERIA then Criteria
    else if key == COLUMN_IN then ColumnIn
    else if key == SELECTOR_CRITERIA then SelectorCriteria
    else if WHERE_PREFIX <= key then Where(KeywordOf(key[|WHERE_PREFIX|..]))
    else if AND_PREFIX <= key then And(KeywordOf(key[|AND_PREFIX|..]))
    else if OR_PREFIX <= key then Or(KeywordOf(key[|OR_PREFIX|..]))
    else Param(key)
  }

  function Spelling(k: Keyword): string {
    match k
    case Pagination => PAGINATION
    case Criteria => CRITERIA
    case ColumnIn => COLUMN_IN
    case SelectorCriteria => SELECTOR_CRITERIA
    case Where(inner) => WHERE_PREFIX + Spelling(inner)
    case And(inner) => AND_PREFIX + Spelling(inner)
    case Or(inner) => OR_PREFIX + Spelling(inner)
    case Param(name) => name
  }

  function Lit(s: string): (t: seq<Piece>)
    ensures Holes(t) == 0
  {
    var t := seq(|s|, i requires 0 <= i < |s| => Ch(s[i]));
    NoHoles(t, |t|);
    t
  }

  function Holes(t: seq<Piece>): nat {
    HolesTo(t, |t|)
  }

  /** The placeholders among the first `n` characters. */
  function HolesTo(t: seq<Piece>, n: nat): nat
    requires n <= |t|
  {
    if n == 0 then 0 else HolesTo(t, n - 1) + if t[n - 1].Hole? then 1 else 0
  }

  lemma {:induction false} NoHoles(t: seq<Piece>, n: nat)
    requires n <= |t| && forall i :: 0 <= i < n ==> t[i].Ch?
    ensures HolesTo(t, n) == 0
    decreases n
  {
    if n > 0 {
      NoHoles(t, n - 1);
    }
  }

  function Mocks(n: nat): (r: seq<Value>)
    ensures |r| == n && forall i :: 0 <= i < n ==> r[i] == Int(0)
  {
    if n == 0 then [] else Mocks(n - 1) + [Int(0)]
  }

  /** The next `n` values of a group from a position on; a mock supplies any number of zeros. */
  ghost function Supplied(group: seq<Value>, mock: bool, start: nat, n: nat): Option<seq<Value>> {
    if mock then Some(Mocks(n))
    else if n == 0 then Some([])
    else if start + n <= |group| then Some(group[start..start + n])
    else None
  }

  /** What the sanitized template parameters have been bound to, consumed from left to right. */
  class Bindings {
    var paramsGroup: seq<Value>
    var counter: nat
    const mock: bool

    constructor (values: seq<Value>, mock: bool)
      ensures paramsGroup == values && counter == 0 && this.mock == mock
    {
      paramsGroup, counter, this.mock := values, 0, mock;
    }

    /** The next `n` values that `Next` is going to return, if there are that many. */
    ghost function Supply(n: nat): Option<seq<Value>>
      reads this
    {
      Supplied(paramsGroup, mock, counter, n)
    }

    method Next() returns (value: Option<Value>)
      modifies this`counter
      ensures value.Some? <==> mock || old(counter) < |paramsGroup|
      ensures value.Some? && !mock ==> value == Some(paramsGroup[old(counter)]) && counter == old(counter) + 1
      ensures value.Some? && mock ==> value == Some(Int(0)) && counter == old(counter)
      ensures value.None? ==> counter == old(counter)
    {
      if mock {
        return Some(Int(0));
      }
      if counter < |paramsGroup| {
        var index := counter;
        counter := counter + 1;
        return Some(paramsGroup[index]);
      }
      return None;
    }

    /** Binds a parameter of the SQL template: its text has one placeholder for each value that is added. */
    method Add(value: Param) returns (text: seq<Piece>)
      modifies this`paramsGroup
      ensures paramsGroup == old(paramsGroup) + ParamValues(value)
      ensures text == Marks(|ParamValues(value)|)
    {
      match value
      case Missing => text := [];
      case Scalar(v) => text := [Hole]; paramsGroup := paramsGroup + [v];
      case Slice(vs) =>
        text := AsBindings(vs);
        paramsGroup := paramsGroup + vs;
    }

    /** The filter on the values of the parent that a template writes itself; without values it lets nothing through. */
    method ColIn(prefix: string, column: string, parentValues: seq<Value>) returns (text: seq<Piece>)
      modifies this`paramsGroup
      ensures paramsGroup == old(paramsGroup) + parentValues
      ensures Holes(text) == |parentValues|
      ensures text == if parentValues == [] then Lit(prefix + " 1 = 0 ")
                      else Lit(Spaced(prefix) + column + " IN (") + Marks(|parentValues|) + Lit(" )")
    {
      var bindings := AsBindings(parentValues);
      paramsGroup := paramsGroup + parentValues;
      if |bindings| == 0 {
        return Lit(prefix + " 1 = 0 ");
      }
      var lead := prefix;
      if |prefix| > 0 && prefix[|prefix| - 1] != ' ' {
        lead := prefix + " ";
      }
      MarksHoles(|parentValues|);
      HolesConcat(Lit(lead + column + " IN ("), bindings);
      HolesConcat(Lit(lead + column + " IN (") + bindings, Lit(" )"));
      return Lit(lead + column + " IN (") + bindings + Lit(" )");
    }
  }

  function Spaced(prefix: string): string {
    if prefix != "" && prefix[|prefix| - 1] != ' ' then prefix + " " else prefix
  }

  datatype Param = Missing | Scalar(v: Value) | Slice(vs: seq<Value>)

  function ParamValues(value: Param): seq<Value> {
    match value
    case Missing => []
    case Scalar(v) => [v]
    case Slice(vs) => vs
  }

  method AsBindings(values: seq<Value>) returns (text: seq<Piece>)
    ensures text == Marks(|values|)
  {
    if values == [] {
      return [];
    }
    text := [Hole];
    for i := 1 to |values|
      invariant text == Marks(i)
    {
      text := text + Lit(", ") + [Hole];
    }
  }

  // ----- what the two passes produce, token by token -----

  /** `?, ?, ?` for the values of a template parameter. */
  function Marks(n: nat): seq<Piece> {
    if n == 0 then [] else if n == 1 then [Hole] else Marks(n - 1) + Lit(", ") + [Hole]
  }

  /** The recursion ends because the generated where clause holds no keyword but `$COLUMN_IN`. */
  predicate WhereOk(sql: seq<Token>) {
    forall i :: 0 <= i < |sql| ==> sql[i].Text? || (sql[i].Key? && sql[i].key == ColumnIn)
  }

  function Prefixed(text: seq<Piece>, prefix: string, wrap: bool): seq<Piece> {
    if text == [] then []
    else if wrap then Lit(prefix) + Lit("(") + text + Lit(")")
    else Lit(prefix) + text
  }

  /** The key, its text and its arguments: `replaced` is false for a parameter without values, which stays as it is. */
  datatype Entry = Entry(replaced: bool, text: seq<Piece>, args: seq<Value>)

  function EntryOf(key: Keyword, env: Env): (e: Option<Entry>)
    requires WhereOk(env.params.whereClause)
  {
    match key
    case Pagination => Some(Entry(true, env.params.pagination, []))
    case Criteria => Some(Entry(true, WhereText(env.params.whereClause, env), WhereArgs(env.params.whereClause, env)))
    case ColumnIn => Some(Entry(true, env.params.columnsIn, env.batch))
    case SelectorCriteria => Some(Entry(true, env.criteria, env.criteriaArgs))
    case Where(inner) => PrefixedEntry(EntryOf(inner, env), " WHERE ", false)
    case And(inner) => PrefixedEntry(EntryOf(inner, env), " AND ", true)
    case Or(inner) => PrefixedEntry(EntryOf(inner, env), " OR ", true)
    case Param(name) =>
      if name !in env.accessors then None
      else Some(Entry(env.accessors[name] != [] && name != "", Marks(|env.accessors[name]|), env.accessors[name]))
  }

  function PrefixedEntry(e: Option<Entry>, prefix: string, wrap: bool): Option<Entry> {
    if e.None? then None else Some(Entry(true, Prefixed(e.value.text, prefix, wrap), e.value.args))
  }

  function WhereText(sql: seq<Token>, env: Env): seq<Piece> {
    if sql == [] then []
    else WhereText(sql[..|sql| - 1], env) +
         match sql[|sql| - 1]
         case Text(s) => Lit(s)
         case Mark => [Hole]
         case Key(_, _) => env.params.columnsIn
  }

  function WhereArgs(sql: seq<Token>, env: Env): seq<Value> {
    if sql == [] then [] else WhereArgs(sql[..|sql| - 1], env) + if sql[|sql| - 1].Key? then env.batch else []
  }

  /** Every keyword of the template is known. */
  predicate Known(sql: seq<Token>, env: Env)
    requires WhereOk(env.params.whereClause)
  {
    forall i :: 0 <= i < |sql| && sql[i].Key? ==> EntryOf(sql[i].key, env).Some?
  }

  function MarkCount(sql: seq<Token>): nat {
    if sql == [] then 0 else MarkCount(sql[..|sql| - 1]) + if sql[|sql| - 1].Mark? then 1 else 0
  }

  function TokenText(token: Token, env: Env): seq<Piece>
    requires WhereOk(env.params.whereClause)
  {
    match token
    case Text(s) => Lit(s)
    case Mark => [Hole]
    case Key(key, fragment) =>
      var e := EntryOf(key, env);
      if e.Some? && e.value.replaced then e.value.text else Lit(fragment)
  }

  function TextOf(sql: seq<Token>, env: Env): seq<Piece>
    requires WhereOk(env.params.whereClause)
  {
    if sql == [] then [] else TextOf(sql[..|sql| - 1], env) + TokenText(sql[|sql| - 1], env)
  }

  function TokenArgs(token: Token, env: Env, supply: seq<Value>, taken: nat): seq<Value>
    requires WhereOk(env.params.whereClause)
    requires token.Mark? ==> taken < |supply|
  {
    match token
    case Text(_) => []
    case Mark => [supply[taken]]
    case Key(key, _) => var e := EntryOf(key, env); if e.Some? then e.value.args else []
  }

  function ArgsOf(sql: seq<Token>, env: Env, supply: seq<Value>): seq<Value>
    requires WhereOk(env.params.whereClause) && MarkCount(sql) <= |supply|
  {
    if sql == [] then []
    else
      var front := sql[..|sql| - 1];
      ArgsOf(front, env, supply) + TokenArgs(sql[|sql| - 1], env, supply, MarkCount(front))
  }

  // ----- the code -----

  type Replacement = map<Keyword, seq<Piece>>

  /** Substitutes all replacements at once; what has been put in is not looked at again. */
  method ExpandAsText(sql: seq<Token>, replacement: Replacement, ghost env: Env) returns (text: seq<Piece>)
    requires WhereOk(env.params.whereClause) && Known(sql, env)
    requires Replaces(sql, |sql|, replacement, env)
    ensures text == TextOf(sql, env)
  {
    text := [];
    for i := 0 to |sql|
      invariant text == TextOf(sql[..i], env)
    {
      assert sql[..i + 1][..i] == sql[..i];
      match sql[i]
      case Text(s) => text := text + Lit(s);
      case Mark => text := text + [Hole];
      case Key(key, fragment) => text := text + if key in replacement then replacement[key] else Lit(fragment);
    }
    assert sql[..|sql|] == sql;
  }

  /** The map holds the text of each keyword among the first `n` tokens, and of no other keyword. */
  ghost predicate Replaces(sql: seq<Token>, n: nat, replacement: Replacement, env: Env)
    requires WhereOk(env.params.whereClause) && n <= |sql|
  {
    && (forall k :: k in replacement ==>
        var e := EntryOf(k, env); e.Some? && e.value.replaced && replacement[k] == e.value.text)
    && (forall i :: 0 <= i < n && sql[i].Key? ==>
          var e := EntryOf(sql[i].key, env); e.Some? && (e.value.replaced ==> sql[i].key in replacement))
  }

  lemma {:induction false} WhereIs(sql: seq<Token>, env: Env)
    requires WhereOk(env.params.whereClause) && WhereOk(sql)
    ensures Known(sql, env) && MarkCount(sql) == 0
    ensures TextOf(sql, env) == WhereText(sql, env)
    ensures ArgsOf(sql, env, []) == WhereArgs(sql, env)
    decreases |sql|
  {
    if sql != [] {
      var front := sql[..|sql| - 1];
      WhereIs(front, env);
      assert sql == front + [sql[|sql| - 1]];
    }
  }

  lemma {:induction false} MarksGrow(sql: seq<Token>, i: nat)
    requires i < |sql|
    ensures MarkCount(sql[..i + 1]) == MarkCount(sql[..i]) + (if sql[i].Mark? then 1 else 0) <= MarkCount(sql)
    decreases |sql|
  {
    assert sql[..i + 1][..i] == sql[..i];
    if i < |sql| - 1 {
      MarksGrow(sql[..|sql| - 1], i);
      assert sql[..|sql| - 1][..i] == sql[..i] && sql[..|sql| - 1][..i + 1] == sql[..i + 1];
    } else {
      assert sql[..i + 1] == sql;
    }
  }

  lemma ArgsGrow(sql: seq<Token>, i: nat, env: Env, supply: seq<Value>, supply': seq<Value>)
    requires WhereOk(env.params.whereClause) && i < |sql| && supply <= supply'
    requires MarkCount(sql[..i]) == |supply| && MarkCount(sql[..i + 1]) == |supply'|
    requires sql[i].Mark? ==> |supply| < |supply'|
    ensures ArgsOf(sql[..i + 1], env, supply') == ArgsOf(sql[..i], env, supply) +
                                                  TokenArgs(sql[i], env, supply', MarkCount(sql[..i]))
  {
    assert sql[..i + 1][..i] == sql[..i];
    SupplyPrefix(sql[..i], env, supply, supply');
  }

  lemma {:induction false} SupplyPrefix(sql: seq<Token>, env: Env, supply: seq<Value>, supply': seq<Value>)
    requires WhereOk(env.params.whereClause) && supply <= supply' && MarkCount(sql) <= |supply|
    ensures ArgsOf(sql, env, supply) == ArgsOf(sql, env, supply')
    decreases |sql|
  {
    if sql != [] {
      SupplyPrefix(sql[..|sql| - 1], env, supply, supply');
    }
  }

  method ValueWithPrefix(value: seq<Piece>, prefix: string, wrap: bool) returns (text: seq<Piece>)
    ensures text == Prefixed(value, prefix, wrap)
  {
    if value == [] {
      return [];
    }
    if wrap {
      return Lit(prefix) + Lit("(") + value + Lit(")");
    }
    return Lit(prefix) + value;
  }

  /**
   Resolves one keyword: appends its arguments, and returns the key to replace (none for a parameter without values)
   and its text. `nested` says that a where clause is being expanded.
   */
  method ReplacementEntry(key: Keyword, env: Env, before: seq<Value>, bindings: Bindings, ghost nested: bool)
    returns (entry: Option<(Option<Keyword>, seq<Piece>)>, placeholders: seq<Value>)
    requires WhereOk(env.params.whereClause) && (nested ==> key == ColumnIn)
    modifies bindings`counter
    ensures bindings.counter == old(bindings.counter)
    ensures entry.Some? <==> EntryOf(key, env).Some?
    ensures entry.Some? ==>
              var e := EntryOf(key, env).value;
              placeholders == before + e.args && entry.value == (if e.replaced then Some(key) else None, e.text)
    decreases if nested then 0 else 1, 0, key
  {
    match key {
      case Pagination =>
        return Some((Some(key), env.params.pagination)), before;
      case Criteria =>
        WhereIs(env.params.whereClause, env);
        assert bindings.Supply(0).value == [];
        var text, args := Expand(env.params.whereClause, env, bindings, true);
        return Some((Some(key), text.value)), before + args;
      case ColumnIn =>
        return Some((Some(key), env.params.columnsIn)), before + env.batch;
      case SelectorCriteria =>
        return Some((Some(key), env.criteria)), before + env.criteriaArgs;
      case Where(inner) =>
        entry, placeholders := ReplacementEntry(inner, env, before, bindings, false);
        if entry.Some? {
          var text := ValueWithPrefix(entry.value.1, " WHERE ", false);
          entry := Some((Some(key), text));
        }
      case And(inner) =>
        entry, placeholders := ReplacementEntry(inner, env, before, bindings, false);
        if entry.Some? {
          var text := ValueWithPrefix(entry.value.1, " AND ", true);
          entry := Some((Some(key), text));
        }
      case Or(inner) =>
        entry, placeholders := ReplacementEntry(inner, env, before, bindings, false);
        if entry.Some? {
          var text := ValueWithPrefix(entry.value.1, " OR ", true);
          entry := Some((Some(key), text));
        }
      case Param(name) =>
        if name !in env.accessors {
          return None, before;
        }
        var values := env.accessors[name];
        var text := AsBindings(values);
        return Some((if values == [] || name == "" then None else Some(key), text)), before + values;
    }
  }

  /** What the loop of `Expand` holds before a token. */
  datatype Progress = Progress(counter: nat, replacement: Replacement, placeholders: seq<Value>)

  /** One token: it is refused, or its arguments, replacement and binding are added. */
  ghost predicate Stepped(token: Token, env: Env, group: seq<Value>, mock: bool, p: Progress, ok: bool, q: Progress)
    requires WhereOk(env.params.whereClause)
  {
    match token
    case Text(_) => ok && q == p
    case Mark =>
      && (ok <==> mock || p.counter < |group|)
      && (ok ==> q == Progress(if mock then p.counter else p.counter + 1, p.replacement,
                               p.placeholders + [if mock then Int(0) else group[p.counter]]))
    case Key(key, _) =>
      && (ok <==> EntryOf(key, env).Some?)
      && (ok ==> var e := EntryOf(key, env).value;
                 q == Progress(p.counter, if e.replaced then p.replacement[key := e.text] else p.replacement,
                               p.placeholders + e.args))
  }

  method ExpandToken(token: Token, env: Env, replacement: Replacement, placeholders: seq<Value>, bindings: Bindings,
                     ghost nested: bool)
    returns (ok: bool, replacement': Replacement, placeholders': seq<Value>)
    requires WhereOk(env.params.whereClause) && (nested ==> token.Key? ==> token.key == ColumnIn)
    modifies bindings`counter
    ensures Stepped(token, env, bindings.paramsGroup, bindings.mock,
                    Progress(old(bindings.counter), replacement, placeholders), ok,
                    Progress(bindings.counter, replacement', placeholders'))
    decreases if nested then 0 else 1, 1, 0
  {
    ok, replacement', placeholders' := true, replacement, placeholders;
    match token {
      case Text(_) =>
      case Mark =>
        var placeholder := bindings.Next();
        if placeholder.None? {
          return false, replacement, placeholders;
        }
        placeholders' := placeholders + [placeholder.value];
      case Key(key, _) =>
        var entry;
        entry, placeholders' := ReplacementEntry(key, env, placeholders, bindings, nested);
        if entry.None? {
          return false, replacement, placeholders;
        }
        if entry.value.0.Some? {
          replacement' := replacement[entry.value.0.value := entry.value.1];
        }
    }
  }

  /** The first `i` tokens are done: what they take from the bindings, and what they leave. */
  ghost predicate Collected(sql: seq<Token>, i: nat, env: Env, group: seq<Value>, mock: bool, start: nat, p: Progress)
    requires WhereOk(env.params.whereClause) && i <= |sql|
  {
    && Replaces(sql, i, p.replacement, env)
    && var n := MarkCount(sql[..i]);
       var supply := Supplied(group, mock, start, n);
       && supply.Some? && p.counter == start + (if mock then 0 else n)
       && p.placeholders == ArgsOf(sql[..i], env, supply.value)
  }

  lemma SuppliedMore(group: seq<Value>, mock: bool, start: nat, n: nat)
    requires Supplied(group, mock, start, n).Some?
    ensures Supplied(group, mock, start, n + 1).Some? <==> mock || start + n < |group|
    ensures mock || start + n < |group| ==>
              Supplied(group, mock, start, n + 1).value ==
              Supplied(group, mock, start, n).value + [if mock then Int(0) else group[start + n]]
  {}

  lemma ReplacesMore(sql: seq<Token>, i: nat, env: Env, p: Progress, q: Progress)
    requires WhereOk(env.params.whereClause) && i < |sql| && sql[i].Key? && EntryOf(sql[i].key, env).Some?
    requires Replaces(sql, i, p.replacement, env)
    requires var e := EntryOf(sql[i].key, env).value;
             q.replacement == if e.replaced then p.replacement[sql[i].key := e.text] else p.replacement
    ensures Replaces(sql, i + 1, q.replacement, env)
  {}

  lemma ReplacesSame(sql: seq<Token>, i: nat, env: Env, p: Progress)
    requires WhereOk(env.params.whereClause) && i < |sql| && !sql[i].Key? && Replaces(sql, i, p.replacement, env)
    ensures Replaces(sql, i + 1, p.replacement, env)
  {}

  lemma {:induction false} CollectedMark(sql: seq<Token>, i: nat, env: Env, group: seq<Value>, mock: bool,
                                         start: nat, p: Progress, q: Progress)
    requires WhereOk(env.params.whereClause) && i < |sql| && sql[i].Mark?
             && Collected(sql, i, env, group, mock, start, p)
    requires Stepped(sql[i], env, group, mock, p, true, q)
    ensures Collected(sql, i + 1, env, group, mock, start, q)
  {
    var n := MarkCount(sql[..i]);
    SuppliedMore(group, mock, start, n);
    MarkArgs(sql, i, env, Supplied(group, mock, start, n).value, if mock then Int(0) else group[start + n]);
    ReplacesSame(sql, i, env, p);
  }

  /** A placeholder takes the next value. */
  lemma {:induction false} MarkArgs(sql: seq<Token>, i: nat, env: Env, supply: seq<Value>, v: Value)
    requires WhereOk(env.params.whereClause) && i < |sql| && sql[i].Mark? && MarkCount(sql[..i]) == |supply|
    ensures MarkCount(sql[..i + 1]) == |supply| + 1
    ensures ArgsOf(sql[..i + 1], env, supply + [v]) == ArgsOf(sql[..i], env, supply) + [v]
  {
    MarksGrow(sql, i);
    ArgsGrow(sql, i, env, supply, supply + [v]);
  }

  lemma CollectedMore(sql: seq<Token>, i: nat, env: Env, group: seq<Value>, mock: bool, start: nat, p: Progress,
                      q: Progress)
    requires WhereOk(env.params.whereClause) && i < |sql| && Collected(sql, i, env, group, mock, start, p)
    requires Stepped(sql[i], env, group, mock, p, true, q)
    ensures Collected(sql, i + 1, env, group, mock, start, q)
  {
    if sql[i].Mark? {
      CollectedMark(sql, i, env, group, mock, start, p, q);
    } else {
      var taken := Supplied(group, mock, start, MarkCount(sql[..i])).value;
      MarksGrow(sql, i);
      ArgsGrow(sql, i, env, taken, taken);
      if sql[i].Key? {
        ReplacesMore(sql, i, env, p, q);
      }
    }
  }

  /** A refused token refuses the whole text. */
  lemma Refused(sql: seq<Token>, i: nat, env: Env, group: seq<Value>, mock: bool, start: nat, p: Progress, q: Progress)
    requires WhereOk(env.params.whereClause) && i < |sql| && Collected(sql, i, env, group, mock, start, p)
    requires Stepped(sql[i], env, group, mock, p, false, q)
    ensures !(Known(sql, env) && Supplied(group, mock, start, MarkCount(sql)).Some?)
  {
    MarksGrow(sql, i);
  }

  lemma CollectedAll(sql: seq<Token>, env: Env, group: seq<Value>, mock: bool, start: nat, p: Progress)
    requires WhereOk(env.params.whereClause) && Collected(sql, |sql|, env, group, mock, start, p)
    ensures Known(sql, env) && Replaces(sql, |sql|, p.replacement, env)
    ensures var supply := Supplied(group, mock, start, MarkCount(sql));
            && supply.Some? && p.placeholders == ArgsOf(sql, env, supply.value)
            && p.counter == start + if mock then 0 else MarkCount(sql)
  {
    assert sql[..|sql|] == sql;
  }

  /**
   Expands a text. It succeeds exactly when every keyword is known and the bindings suffice for its placeholders; the
   collected values are then its arguments, and the bindings have moved on by the placeholders it had.
   */
  method Expand(sql: seq<Token>, env: Env, bindings: Bindings, ghost nested: bool)
    returns (text: Option<seq<Piece>>, placeholders: seq<Value>)
    requires WhereOk(env.params.whereClause) && (nested ==> WhereOk(sql))
    modifies bindings`counter
    ensures text.Some? <==> Known(sql, env) && old(bindings.Supply(MarkCount(sql))).Some?
    ensures text.Some? ==> text.value == TextOf(sql, env)
    ensures text.Some? ==> placeholders == ArgsOf(sql, env, old(bindings.Supply(MarkCount(sql))).value)
    ensures text.Some? ==> bindings.counter == old(bindings.counter) + if bindings.mock then 0 else MarkCount(sql)
    decreases if nested then 0 else 1, 2, 0
  {
    placeholders := [];
    var replacement: Replacement := map[];
    ghost var group, mock, start := bindings.paramsGroup, bindings.mock, bindings.counter;
    for i := 0 to |sql|
      invariant Collected(sql, i, env, group, mock, start, Progress(bindings.counter, replacement, placeholders))
    {
      ghost var before := Progress(bindings.counter, replacement, placeholders);
      var ok;
      ok, replacement, placeholders := ExpandToken(sql[i], env, replacement, placeholders, bindings, nested);
      ghost var after := Progress(bindings.counter, replacement, placeholders);
      if !ok {
        Refused(sql, i, env, group, mock, start, before, after);
        return None, placeholders;
      }
      CollectedMore(sql, i, env, group, mock, start, before, after);
    }
    CollectedAll(sql, env, group, mock, start, Progress(bindings.counter, replacement, placeholders));
    var out := ExpandAsText(sql, replacement, env);
    return Some(out), placeholders;
  }

  // ----- every placeholder is bound to a value of the fragment that emitted it -----

  /** Fills the placeholders of a text from left to right. */
  function Zip(text: seq<Piece>, values: seq<Value>): seq<Bound>
    requires Holes(text) <= |values|
  {
    ZipTo(text, |text|, values)
  }

  function ZipTo(text: seq<Piece>, n: nat, values: seq<Value>): seq<Bound>
    requires n <= |text| && HolesTo(text, n) <= |values|
  {
    if n == 0 then []
    else ZipTo(text, n - 1, values) +
         match text[n - 1]
         case Ch(c) => [BCh(c)]
         case Hole => [BHole(values[HolesTo(text, n - 1)])]
  }

  /** The parts that the program is given each bring as many values as placeholders. */
  predicate Balanced(env: Env) {
    && Holes(env.params.columnsIn) == |env.batch|
    && Holes(env.criteria) == |env.criteriaArgs|
    && Holes(env.params.pagination) == 0
  }

  lemma {:induction false} HolesToConcat(a: seq<Piece>, b: seq<Piece>, n: nat)
    requires n <= |a| + |b|
    ensures HolesTo(a + b, n) == if n <= |a| then HolesTo(a, n) else HolesTo(a, |a|) + HolesTo(b, n - |a|)
    decreases n
  {
    if n > 0 {
      HolesToConcat(a, b, n - 1);
    }
  }

  lemma HolesConcat(a: seq<Piece>, b: seq<Piece>)
    ensures Holes(a + b) == Holes(a) + Holes(b)
  {
    HolesToConcat(a, b, |a| + |b|);
  }

  lemma {:induction false} ZipFirst(a: seq<Piece>, b: seq<Piece>, xs: seq<Value>, ys: seq<Value>, n: nat)
    requires n <= |a| && HolesTo(a, n) <= |xs|
    ensures HolesTo(a + b, n) == HolesTo(a, n)
    ensures ZipTo(a + b, n, xs + ys) == ZipTo(a, n, xs)
    decreases n
  {
    if n > 0 {
      ZipFirst(a, b, xs, ys, n - 1);
    }
  }

  lemma {:induction false} ZipSecond(a: seq<Piece>, b: seq<Piece>, xs: seq<Value>, ys: seq<Value>, n: nat)
    requires Holes(a) == |xs| && n <= |b| && HolesTo(b, n) <= |ys|
    ensures HolesTo(a + b, |a| + n) == Holes(a) + HolesTo(b, n)
    ensures ZipTo(a + b, |a| + n, xs + ys) == Zip(a, xs) + ZipTo(b, n, ys)
    decreases n
  {
    if n == 0 {
      ZipFirst(a, b, xs, ys, |a|);
    } else {
      ZipSecond(a, b, xs, ys, n - 1);
      assert (a + b)[|a| + n - 1] == b[n - 1];
    }
  }

  lemma ZipConcat(a: seq<Piece>, b: seq<Piece>, xs: seq<Value>, ys: seq<Value>)
    requires Holes(a) == |xs| && Holes(b) <= |ys|
    ensures Holes(a + b) == Holes(a) + Holes(b)
    ensures Zip(a + b, xs + ys) == Zip(a, xs) + Zip(b, ys)
  {
    ZipSecond(a, b, xs, ys, |b|);
  }

  lemma OneHole(v: Value)
    ensures Holes([Hole]) == 1
    ensures Zip([Hole], [v]) == [BHole(v)]
  {
    assert HolesTo([Hole], 0) == 0;
    assert ZipTo([Hole], 0, [v]) == [];
  }

  lemma {:induction false} MarksHoles(n: nat)
    ensures Holes(Marks(n)) == n
    decreases n
  {
    OneHole(Int(0));
    if n > 1 {
      MarksHoles(n - 1);
      HolesConcat(Marks(n - 1) + Lit(", "), [Hole]);
      HolesConcat(Marks(n - 1), Lit(", "));
    }
  }

  lemma PrefixedHoles(text: seq<Piece>, prefix: string, wrap: bool)
    ensures Holes(Prefixed(text, prefix, wrap)) == Holes(text)
  {
    HolesConcat(Lit(prefix), text);
    HolesConcat(Lit(prefix) + Lit("("), text);
    HolesConcat(Lit(prefix), Lit("("));
    HolesConcat(Lit(prefix) + Lit("(") + text, Lit(")"));
  }

  lemma {:induction false} WhereBalanced(sql: seq<Token>, env: Env)
    requires Balanced(env) && WhereOk(sql)
    ensures Holes(WhereText(sql, env)) == |WhereArgs(sql, env)|
    decreases |sql|
  {
    if sql != [] {
      var front, last := sql[..|sql| - 1], sql[|sql| - 1];
      WhereBalanced(front, env);
      HolesConcat(WhereText(front, env), if last.Text? then Lit(last.s) else env.params.columnsIn);
    }
  }

  /** Every keyword, through any nesting of prefixes, brings as many values as placeholders. */
  lemma {:induction false} EntryBalanced(key: Keyword, env: Env)
    requires WhereOk(env.params.whereClause) && Balanced(env) && EntryOf(key, env).Some?
    ensures var e := EntryOf(key, env).value; Holes(e.text) == |e.args|
    decreases key
  {
    match key
    case Criteria => WhereBalanced(env.params.whereClause, env);
    case Where(inner) =>
      EntryBalanced(inner, env);
      PrefixedHoles(EntryOf(inner, env).value.text, " WHERE ", false);
    case And(inner) =>
      EntryBalanced(inner, env);
      PrefixedHoles(EntryOf(inner, env).value.text, " AND ", true);
    case Or(inner) =>
      EntryBalanced(inner, env);
      PrefixedHoles(EntryOf(inner, env).value.text, " OR ", true);
    case Param(name) => MarksHoles(|env.accessors[name]|);
    case _ =>
  }

  /** The reference: each token with its own values already in place. */
  function Meaning(sql: seq<Token>, env: Env, supply: seq<Value>): seq<Bound>
    requires WhereOk(env.params.whereClause) && Balanced(env) && Known(sql, env) && MarkCount(sql) <= |supply|
  {
    if sql == [] then []
    else
      var front := sql[..|sql| - 1];
      Meaning(front, env, supply) + TokenMeaning(sql[|sql| - 1], env, supply, MarkCount(front))
  }

  function TokenMeaning(token: Token, env: Env, supply: seq<Value>, taken: nat): seq<Bound>
    requires WhereOk(env.params.whereClause) && Balanced(env)
    requires token.Mark? ==> taken < |supply|
  {
    match token
    case Text(s) => Zip(Lit(s), [])
    case Mark => [BHole(supply[taken])]
    case Key(key, fragment) =>
      var e := EntryOf(key, env);
      if e.Some? && e.value.replaced then EntryBalanced(key, env); Zip(e.value.text, e.value.args)
      else Zip(Lit(fragment), [])
  }

  /** A keyword that is left in the text brings no values, unless it is the empty keyword. */
  lemma UnreplacedArgs(key: Keyword, env: Env)
    requires WhereOk(env.params.whereClause) && key != Param("") && EntryOf(key, env).Some?
             && !EntryOf(key, env).value.replaced
    ensures EntryOf(key, env).value.args == []
  {}

  predicate Named(sql: seq<Token>) {
    forall i :: 0 <= i < |sql| && sql[i].Key? ==> sql[i].key != Param("")
  }

  lemma TokenBound(token: Token, env: Env, supply: seq<Value>, taken: nat)
    requires WhereOk(env.params.whereClause) && Balanced(env)
    requires token.Mark? ==> taken < |supply|
    requires token.Key? ==> token.key != Param("") && EntryOf(token.key, env).Some?
    ensures Holes(TokenText(token, env)) == |TokenArgs(token, env, supply, taken)|
    ensures Zip(TokenText(token, env), TokenArgs(token, env, supply, taken)) == TokenMeaning(token, env, supply, taken)
  {
    if token.Key? {
      EntryBalanced(token.key, env);
      if !EntryOf(token.key, env).value.replaced {
        UnreplacedArgs(token.key, env);
      }
    } else if token.Mark? {
      OneHole(supply[taken]);
    }
  }

  /**
   The two passes agree: the collected list has one value for each placeholder of the expanded text, and dealing it out
   from left to right gives every fragment its own values, in its own order.
   */
  lemma {:induction false} ExpandedTextIsBound(sql: seq<Token>, env: Env, supply: seq<Value>)
    requires WhereOk(env.params.whereClause) && Balanced(env) && Known(sql, env) && Named(sql)
    requires MarkCount(sql) <= |supply|
    ensures Holes(TextOf(sql, env)) == |ArgsOf(sql, env, supply)|
    ensures Zip(TextOf(sql, env), ArgsOf(sql, env, supply)) == Meaning(sql, env, supply)
    decreases |sql|
  {
    if sql != [] {
      var front, last := sql[..|sql| - 1], sql[|sql| - 1];
      ExpandedTextIsBound(front, env, supply);
      TokenBound(last, env, supply, MarkCount(front));
      ZipConcat(TextOf(front, env), TokenText(last, env), ArgsOf(front, env, supply),
                TokenArgs(last, env, supply, MarkCount(front)));
    }
  }

  // ----- excluded column values -----

  /** How often a keyword, directly or through prefixes and `$CRITERIA`, asks for the parent's values. */
  function ColumnUses(key: Keyword, env: Env): nat {
    match key
    case ColumnIn => 1
    case Criteria => WhereUses(env.params.whereClause)
    case Where(inner) => ColumnUses(inner, env)
    case And(inner) => ColumnUses(inner, env)
    case Or(inner) => ColumnUses(inner, env)
    case _ => 0
  }

  function WhereUses(sql: seq<Token>): nat {
    if sql == [] then 0 else WhereUses(sql[..|sql| - 1]) + if sql[|sql| - 1].Key? then 1 else 0
  }

  function Uses(sql: seq<Token>, env: Env): nat {
    if sql == [] then 0
    else Uses(sql[..|sql| - 1], env) + TokenUses(sql[|sql| - 1], env)
  }

  function TokenUses(token: Token, env: Env): nat {
    if token.Key? then ColumnUses(token.key, env) else 0
  }

  /** What `n` uses of the parent's values lack, if each lacks `a` placeholders. */
  function Lacking(n: nat, a: int): int {
    if n == 0 then 0 else Lacking(n - 1, a) + a
  }

  lemma {:induction false} LackingSum(n: nat, m: nat, a: int)
    ensures Lacking(n + m, a) == Lacking(n, a) + Lacking(m, a)
    decreases m
  {
    if m > 0 {
      LackingSum(n, m - 1, a);
    }
  }

  lemma {:induction false} LackingNothing(n: nat, a: int)
    ensures Lacking(n, a) == 0 <==> n == 0 || a == 0
    ensures a > 0 ==> Lacking(n, a) >= n
    ensures a < 0 ==> Lacking(n, a) + n <= 0
    decreases n
  {
    if n > 0 {
      LackingNothing(n - 1, a);
    }
  }

  function Shortfall(env: Env): int {
    |env.batch| - Holes(env.params.columnsIn)
  }

  lemma {:induction false} WhereDeficit(sql: seq<Token>, env: Env)
    requires WhereOk(sql)
    ensures |WhereArgs(sql, env)| - Holes(WhereText(sql, env)) ==
            Lacking(WhereUses(sql), Shortfall(env))
    decreases |sql|
  {
    if sql != [] {
      var front, last := sql[..|sql| - 1], sql[|sql| - 1];
      WhereDeficit(front, env);
      HolesConcat(WhereText(front, env), if last.Text? then Lit(last.s) else env.params.columnsIn);
      LackingSum(WhereUses(front), if last.Key? then 1 else 0, Shortfall(env));
    }
  }

  predicate BalancedButColumns(env: Env) {
    Holes(env.criteria) == |env.criteriaArgs| && Holes(env.params.pagination) == 0
  }

  lemma {:induction false} EntryDeficit(key: Keyword, env: Env)
    requires WhereOk(env.params.whereClause) && BalancedButColumns(env) && EntryOf(key, env).Some?
    ensures var e := EntryOf(key, env).value;
            |e.args| - Holes(e.text) == Lacking(ColumnUses(key, env), Shortfall(env))
    decreases key
  {
    match key
    case Criteria => WhereDeficit(env.params.whereClause, env);
    case Where(inner) =>
      EntryDeficit(inner, env);
      PrefixedHoles(EntryOf(inner, env).value.text, " WHERE ", false);
    case And(inner) =>
      EntryDeficit(inner, env);
      PrefixedHoles(EntryOf(inner, env).value.text, " AND ", true);
    case Or(inner) =>
      EntryDeficit(inner, env);
      PrefixedHoles(EntryOf(inner, env).value.text, " OR ", true);
    case Param(name) => MarksHoles(|env.accessors[name]|);
    case _ =>
  }

  lemma TokenDeficit(token: Token, env: Env, supply: seq<Value>, taken: nat)
    requires WhereOk(env.params.whereClause) && BalancedButColumns(env)
    requires token.Mark? ==> taken < |supply|
    requires token.Key? ==> token.key != Param("") && EntryOf(token.key, env).Some?
    ensures |TokenArgs(token, env, supply, taken)| - Holes(TokenText(token, env)) ==
            Lacking(TokenUses(token, env), Shortfall(env))
  {
    if token.Key? {
      EntryDeficit(token.key, env);
      if !EntryOf(token.key, env).value.replaced {
        UnreplacedArgs(token.key, env);
        UnreplacedText(token.key, env);
      }
    } else if token.Mark? {
      OneHole(supply[taken]);
    }
  }

  lemma UnreplacedText(key: Keyword, env: Env)
    requires WhereOk(env.params.whereClause) && key != Param("") && EntryOf(key, env).Some?
             && !EntryOf(key, env).value.replaced
    ensures EntryOf(key, env).value.text == []
  {}

  /** A text and its values lack what `n` uses of the parent's values lack. */
  ghost predicate Lacks(args: seq<Value>, text: seq<Piece>, n: nat, a: int) {
    |args| - Holes(text) == Lacking(n, a)
  }

  lemma LacksMore(args: seq<Value>, text: seq<Piece>, n: nat, args': seq<Value>, text': seq<Piece>, m: nat, a: int)
    requires Lacks(args, text, n, a) && Lacks(args', text', m, a)
    ensures Lacks(args + args', text + text', n + m, a)
  {
    HolesConcat(text, text');
    LackingSum(n, m, a);
  }

  lemma {:induction false} Deficit(sql: seq<Token>, env: Env, supply: seq<Value>, a: int)
    requires WhereOk(env.params.whereClause) && BalancedButColumns(env) && Known(sql, env) && Named(sql)
    requires MarkCount(sql) <= |supply| && a == Shortfall(env)
    ensures Lacks(ArgsOf(sql, env, supply), TextOf(sql, env), Uses(sql, env), a)
    decreases |sql|
  {
    if sql != [] {
      var front, last := sql[..|sql| - 1], sql[|sql| - 1];
      Deficit(front, env, supply, a);
      TokenDeficit(last, env, supply, MarkCount(front));
      LacksMore(ArgsOf(front, env, supply), TextOf(front, env), Uses(front, env),
                TokenArgs(last, env, supply, MarkCount(front)), TokenText(last, env), TokenUses(last, env), a);
    }
  }

  /**
   As many arguments as placeholders: exactly when the parent's values are not asked for, or the text that stands for
   them has a placeholder for each. A build that leaves that text empty but has values breaks it.
   */
  lemma BalancedExactlyWhen(sql: seq<Token>, env: Env, supply: seq<Value>)
    requires WhereOk(env.params.whereClause) && BalancedButColumns(env) && Known(sql, env) && Named(sql)
    requires MarkCount(sql) <= |supply|
    ensures Holes(TextOf(sql, env)) == |ArgsOf(sql, env, supply)|
            <==> Uses(sql, env) == 0 || Holes(env.params.columnsIn) == |env.batch|
  {
    Deficit(sql, env, supply, Shortfall(env));
    LackingNothing(Uses(sql, env), Shortfall(env));
  }
}
