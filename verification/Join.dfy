/**
 What reading a tree of views is meant to produce, as pure functions over a fixed database.

 `Assemble` follows the reader level by level: which rows a child query returns depends on all parent rows
 and on how their keys are cut into batches. `NestedLoop` is the independent reference: for each row on its own,
 scan the child table. The lemmas say exactly when the two agree.
 */
module Join {
  import opened Keys
  import opened Lists

  datatype Cardinality = One | Many

  type Cols = map<string, Value>

  type Db = map<string, seq<Cols>>

  /** One view of the tree: where it hangs in its parent, and how it is read. */
  datatype ViewNode = ViewNode(parent: int, holder: string, column: string, ofColumn: string, card: Cardinality,
                               table: string, parallel: bool, batch: int)

  /** Views in an order in which every parent precedes its children; the root is view 0. */
  type Schema = seq<ViewNode>

  ghost predicate ValidSchema(s: Schema) {
    && |s| > 0
    && s[0].parent == -1
    && (forall i :: 0 < i < |s| ==> 0 <= s[i].parent < i)
    && (forall i {:trigger s[i].batch} :: 0 < i < |s| && !s[s[i].parent].parallel ==> s[i].batch > 0)
    && (forall i, j {:trigger s[i].holder, s[j].holder} ::
          0 < i < j < |s| && s[i].parent == s[j].parent ==> s[i].holder != s[j].holder)
  }

  predicate IsChild(s: Schema, i: int, j: int) {
    0 <= i < j < |s| && s[j].parent == i
  }

  /** A row with, per child view, the objects its holder field ends up with (at most one for cardinality One). */
  datatype Obj = Obj(cols: Cols, held: map<nat, seq<Obj>>)

  function Col(r: Cols, c: string): Value {
    if c in r then r[c] else Nil
  }

  function Table(db: Db, name: string): seq<Cols> {
    if name in db then db[name] else []
  }

  /** A value as view `j` reads it: a pointer leads to a variable of its own. */
  function Own(v: Value, j: nat): Value {
    if v.Ref? && v.target.Some? then v.(target := Some(v.target.value.(view := j))) else v
  }

  predicate OwnRow(r: Cols, j: nat) {
    forall c :: c in r ==> r[c] == Own(r[c], j)
  }

  function ReadAs(rows: seq<Cols>, j: nat): (read: seq<Cols>)
    ensures forall r :: r in read ==> OwnRow(r, j)
  {
    if rows == [] then []
    else
      var last := rows[|rows| - 1];
      ReadAs(rows[..|rows| - 1], j) + [map c | c in last :: Own(last[c], j)]
  }

  /** The rows of a table as view `j` reads them. */
  function Rows(db: Db, name: string, j: nat): (read: seq<Cols>)
    ensures forall r :: r in read ==> OwnRow(r, j)
  {
    ReadAs(Table(db, name), j)
  }

  function ParentKeys(r: Cols, column: string): seq<Value> {
    IndexKeys(Col(r, column))
  }

  function ChildKeys(rows: seq<Cols>, column: string): seq<Value> {
    seq(|rows|, i requires 0 <= i < |rows| => NormalizeKey(Col(rows[i], column)))
  }

  // ----- positions and holders -----

  /** A One holder is overwritten by every match, a Many holder collects them. */
  function Keep<T>(card: Cardinality, xs: seq<T>): (ys: seq<T>)
    ensures forall y :: y in ys ==> y in xs
  {
    if card.Many? || xs == [] then xs else [xs[|xs| - 1]]
  }

  function Pick<T>(xs: seq<T>, at: seq<nat>): seq<T>
    requires forall p :: p in at ==> p < |xs|
  {
    seq(|at|, i requires 0 <= i < |at| => assert at[i] in at; xs[at[i]])
  }

  /** Positions of the children that one parent holds: once for each occurrence of the child key among its keys. */
  function Matches(keys: seq<Value>, childKeys: seq<Value>): (at: seq<nat>)
    ensures forall p :: p in at ==> p < |childKeys|
  {
    if childKeys == [] then []
    else
      var n := |childKeys| - 1;
      Matches(keys, childKeys[..n]) + Repeat(n, Count(keys, childKeys[n]))
  }

  // ----- queries -----

  predicate SqlIn(v: Value, values: seq<Value>) {
    !IsNull(v) && exists i :: 0 <= i < |values| && ToSql(values[i]) == ToSql(v)
  }

  function Select(rows: seq<Cols>, column: string, values: seq<Value>): seq<Cols> {
    if rows == [] then []
    else
      var n := |rows| - 1;
      Select(rows[..n], column, values) + if SqlIn(Col(rows[n], column), values) then [rows[n]] else []
  }

  function Placeholders(parents: seq<Cols>, column: string): seq<Value> {
    if parents == [] then []
    else
      var n := |parents| - 1;
      Placeholders(parents[..n], column) + PlaceholdersOf(Col(parents[n], column))
  }

  function Batches(values: seq<Value>, size: int): seq<seq<Value>>
    requires size > 0
  {
    if |values| == 0 then []
    else if |values| <= size then [values]
    else [values[..size]] + Batches(values[size..], size)
  }

  function SelectAll(rows: seq<Cols>, column: string, batches: seq<seq<Value>>): seq<Cols> {
    if batches == [] then []
    else Select(rows, column, batches[0]) + SelectAll(rows, column, batches[1..])
  }

  /** The rows read for child view `j` when its parent collector holds `parents`. */
  function Fetch(s: Schema, db: Db, j: nat, parents: seq<Cols>): seq<Cols>
    requires ValidSchema(s) && 0 < j < |s|
  {
    if s[s[j].parent].parallel then Rows(db, s[j].table, j)
    else SelectAll(Rows(db, s[j].table, j), s[j].ofColumn, Batches(Placeholders(parents, s[j].column), s[j].batch))
  }

  // ----- level by level -----

  function Assemble(s: Schema, db: Db, i: nat, rows: seq<Cols>): (objs: seq<Obj>)
    requires ValidSchema(s) && i < |s|
    ensures |objs| == |rows|
    decreases |s| - i, 1
  {
    seq(|rows|, a requires 0 <= a < |rows| =>
      Obj(rows[a], map j | i < j < |s| && IsChild(s, i, j) :: AssembleHeld(s, db, i, j, rows, rows[a])))
  }

  function AssembleHeld(s: Schema, db: Db, i: nat, j: nat, rows: seq<Cols>, row: Cols): seq<Obj>
    requires ValidSchema(s) && IsChild(s, i, j)
    decreases |s| - i, 0
  {
    var children := Fetch(s, db, j, rows);
    Pick(Assemble(s, db, j, children), HeldAt(s, j, row, children))
  }

  /** Which of the rows read for view `j` the parent row holds, in holder order. */
  function HeldAt(s: Schema, j: nat, row: Cols, children: seq<Cols>): (at: seq<nat>)
    requires ValidSchema(s) && 0 < j < |s|
    ensures forall p :: p in at ==> p < |children|
  {
    Keep(s[j].card, Matches(ParentKeys(row, s[j].column), ChildKeys(children, s[j].ofColumn)))
  }

  // ----- row by row: the nested-loop reference -----

  function Children(keys: seq<Value>, column: string, rows: seq<Cols>): seq<Cols> {
    if rows == [] then []
    else
      var n := |rows| - 1;
      Children(keys, column, rows[..n]) + Repeat(rows[n], Count(keys, NormalizeKey(Col(rows[n], column))))
  }

  function NonNull(rows: seq<Cols>, column: string): seq<Cols> {
    if rows == [] then []
    else
      var n := |rows| - 1;
      NonNull(rows[..n], column) + if IsNull(Col(rows[n], column)) then [] else [rows[n]]
  }

  /** In-memory matching lets NULL keys meet each other; a query never returns a row for a NULL key. */
  function Candidates(s: Schema, db: Db, j: nat): seq<Cols>
    requires ValidSchema(s) && 0 < j < |s|
  {
    var table := Rows(db, s[j].table, j);
    if s[s[j].parent].parallel then table else NonNull(table, s[j].ofColumn)
  }

  function HeldRows(s: Schema, db: Db, j: nat, row: Cols): seq<Cols>
    requires ValidSchema(s) && 0 < j < |s|
  {
    Keep(s[j].card, Children(ParentKeys(row, s[j].column), s[j].ofColumn, Candidates(s, db, j)))
  }

  function NestedLoop(s: Schema, db: Db, i: nat, row: Cols): (obj: Obj)
    requires ValidSchema(s) && i < |s|
    ensures obj.cols == row
    decreases |s| - i, 0
  {
    Obj(row, map j | i < j < |s| && IsChild(s, i, j) :: HeldObjs(s, db, j, row))
  }

  function HeldObjs(s: Schema, db: Db, j: nat, row: Cols): seq<Obj>
    requires ValidSchema(s) && 0 < j < |s|
    decreases |s| - j, 1
  {
    var rows := HeldRows(s, db, j, row);
    seq(|rows|, t requires 0 <= t < |rows| => NestedLoop(s, db, j, rows[t]))
  }

  // ----- the batches cover the parent keys once, in order -----

  function Concat(batches: seq<seq<Value>>): seq<Value> {
    if batches == [] then [] else batches[0] + Concat(batches[1..])
  }

  lemma {:induction false} BatchesCoverOnce(values: seq<Value>, size: int)
    requires size > 0
    ensures Concat(Batches(values, size)) == values
    ensures forall b :: 0 <= b < |Batches(values, size)| ==> 0 < |Batches(values, size)[b]| <= size
    ensures forall b :: 0 <= b < |Batches(values, size)| - 1 ==> |Batches(values, size)[b]| == size
    decreases |values|
  {
    if |values| > size {
      BatchesCoverOnce(values[size..], size);
      assert values == values[..size] + values[size..];
    } else if |values| > 0 {
      assert Concat([values]) == values + Concat([]);
    }
  }

  // ----- children of a concatenation, of a filtered table -----

  lemma {:induction false} ChildrenConcat(keys: seq<Value>, column: string, a: seq<Cols>, b: seq<Cols>)
    ensures Children(keys, column, a + b) == Children(keys, column, a) + Children(keys, column, b)
    decreases |b|
  {
    if b == [] {
      assert a + b == a;
    } else {
      var n := |b| - 1;
      ChildrenConcat(keys, column, a, b[..n]);
      assert (a + b)[..|a + b| - 1] == a + b[..n];
    }
  }

  /** The keys collected from a parent are normalized. */
  ghost predicate Normalized(keys: seq<Value>) {
    forall k :: k in keys ==> NormalizeKey(k) == k
  }

  /** Some row can have this key: it is no pointer, which leads to a variable of the parent row. */
  predicate Found(k: Value) {
    !k.Ref? || k.target.None?
  }

  /** The rows are not the ones that the keys come from: they share no variable. */
  ghost predicate Foreign(keys: seq<Value>, column: string, rows: seq<Cols>) {
    forall r :: r in rows ==> NormalizeKey(Col(r, column)) in keys ==> Found(NormalizeKey(Col(r, column)))
  }

  lemma RowsForeign(row: Cols, i: nat, j: nat, field: string, column: string, rows: seq<Cols>)
    requires OwnRow(row, i) && i != j && forall r :: r in rows ==> OwnRow(r, j)
    ensures Foreign(ParentKeys(row, field), column, rows)
  {
    var keys := ParentKeys(row, field);
    forall r | r in rows && NormalizeKey(Col(r, column)) in keys
      ensures Found(NormalizeKey(Col(r, column)))
    {
      assert OwnRow(r, j);
    }
  }

  lemma {:induction false} SelectedChildren(keys: seq<Value>, column: string, rows: seq<Cols>, values: seq<Value>)
    requires Normalized(keys) && Foreign(keys, column, rows)
    requires forall k :: k in keys && Found(k) && !IsNull(k) ==> SqlIn(k, values)
    ensures Children(keys, column, Select(rows, column, values)) == Children(keys, column, NonNull(rows, column))
    decreases |rows|
  {
    if rows != [] {
      var n := |rows| - 1;
      var row := rows[n];
      var key := NormalizeKey(Col(row, column));
      assert row in rows;
      SelectedChildren(keys, column, rows[..n], values);
      var selected := if SqlIn(Col(row, column), values) then [row] else [];
      var nonNull := if IsNull(Col(row, column)) then [] else [row];
      ChildrenConcat(keys, column, Select(rows[..n], column, values), selected);
      ChildrenConcat(keys, column, NonNull(rows[..n], column), nonNull);
      NormalizeKeeps(Col(row, column));
      SingleChild(keys, column, row);
      if key in keys && !IsNull(key) {
        assert SqlIn(key, values);
      }
    }
  }

  lemma SingleChild(keys: seq<Value>, column: string, row: Cols)
    ensures Children(keys, column, [row]) == Repeat(row, Count(keys, NormalizeKey(Col(row, column))))
    ensures NormalizeKey(Col(row, column)) !in keys ==> Children(keys, column, [row]) == []
  {
    assert Children(keys, column, [row]) ==
           Children(keys, column, []) + Repeat(row, Count(keys, NormalizeKey(Col(row, column))));
  }

  lemma {:induction false} UnselectedChildren(keys: seq<Value>, column: string, rows: seq<Cols>, values: seq<Value>)
    requires Normalized(keys) && Foreign(keys, column, rows)
    requires forall k :: k in keys && Found(k) ==> !SqlIn(k, values)
    ensures Children(keys, column, Select(rows, column, values)) == []
    decreases |rows|
  {
    if rows != [] {
      var n := |rows| - 1;
      assert rows[n] in rows;
      UnselectedChildren(keys, column, rows[..n], values);
      var selected := if SqlIn(Col(rows[n], column), values) then [rows[n]] else [];
      ChildrenConcat(keys, column, Select(rows[..n], column, values), selected);
      NormalizeKeeps(Col(rows[n], column));
      SingleChild(keys, column, rows[n]);
    }
  }

  lemma {:induction false} UnselectedBatches(keys: seq<Value>, column: string, rows: seq<Cols>,
                                             batches: seq<seq<Value>>)
    requires Normalized(keys) && Foreign(keys, column, rows)
    requires forall b, k :: 0 <= b < |batches| && k in keys && Found(k) ==> !SqlIn(k, batches[b])
    ensures Children(keys, column, SelectAll(rows, column, batches)) == []
    decreases |batches|
  {
    if batches != [] {
      UnselectedChildren(keys, column, rows, batches[0]);
      UnselectedBatches(keys, column, rows, batches[1..]);
      ChildrenConcat(keys, column, Select(rows, column, batches[0]), SelectAll(rows, column, batches[1..]));
    }
  }

  // ----- when batching is invisible -----

  /** All keys of one parent that rows can have are asked for in a single batch, and in no other one. */
  ghost predicate OneBatch(keys: seq<Value>, batches: seq<seq<Value>>) {
    forall b, c, k, l :: (0 <= b < |batches| && 0 <= c < |batches| && k in keys && l in keys
                          && Found(k) && Found(l) && SqlIn(k, batches[b]) && SqlIn(l, batches[c])) ==> b == c
  }

  ghost predicate Covered(keys: seq<Value>, batches: seq<seq<Value>>) {
    forall k :: k in keys && Found(k) && !IsNull(k) ==> exists b :: 0 <= b < |batches| && SqlIn(k, batches[b])
  }

  /** A batch that asks for one of the keys asks for all, and no later one does. */
  lemma {:induction false} FirstBatchAsks(keys: seq<Value>, batches: seq<seq<Value>>, rest: seq<seq<Value>>, k: Value)
    requires Covered(keys, batches) && OneBatch(keys, batches) && batches != [] && rest == batches[1..]
    requires k in keys && Found(k) && SqlIn(k, batches[0])
    ensures forall l :: l in keys && Found(l) && !IsNull(l) ==> SqlIn(l, batches[0])
    ensures forall b, l :: 0 <= b < |rest| && l in keys && Found(l) ==> !SqlIn(l, rest[b])
  {
    forall b, l | 0 <= b < |rest| && l in keys && Found(l)
      ensures !SqlIn(l, rest[b])
    {
      assert rest[b] == batches[b + 1];
    }
    forall l | l in keys && Found(l) && !IsNull(l)
      ensures SqlIn(l, batches[0])
    {
      var b :| 0 <= b < |batches| && SqlIn(l, batches[b]);
    }
  }

  lemma {:induction false} FirstBatchSkips(keys: seq<Value>, batches: seq<seq<Value>>, rest: seq<seq<Value>>)
    requires Covered(keys, batches) && OneBatch(keys, batches) && batches != [] && rest == batches[1..]
    requires forall k :: k in keys && Found(k) ==> !SqlIn(k, batches[0])
    ensures Covered(keys, rest) && OneBatch(keys, rest)
  {
    assert forall b :: 0 <= b < |rest| ==> rest[b] == batches[b + 1];
    forall l | l in keys && Found(l) && !IsNull(l)
      ensures exists b :: 0 <= b < |rest| && SqlIn(l, rest[b])
    {
      var b :| 0 <= b < |batches| && SqlIn(l, batches[b]);
      assert rest[b - 1] == batches[b];
    }
  }

  lemma {:induction false} OneBatchSuffices(keys: seq<Value>, column: string, rows: seq<Cols>,
                                            batches: seq<seq<Value>>)
    requires Normalized(keys) && Covered(keys, batches) && OneBatch(keys, batches) && Foreign(keys, column, rows)
    ensures Children(keys, column, SelectAll(rows, column, batches)) == Children(keys, column, NonNull(rows, column))
    decreases |batches|
  {
    if batches == [] {
      NoKeyNoChildren(keys, column, rows);
    } else {
      var rest := batches[1..];
      ChildrenConcat(keys, column, Select(rows, column, batches[0]), SelectAll(rows, column, rest));
      if k :| k in keys && Found(k) && SqlIn(k, batches[0]) {
        FirstBatchAsks(keys, batches, rest, k);
        UnselectedBatches(keys, column, rows, rest);
        SelectedChildren(keys, column, rows, batches[0]);
      } else {
        FirstBatchSkips(keys, batches, rest);
        UnselectedChildren(keys, column, rows, batches[0]);
        OneBatchSuffices(keys, column, rows, rest);
      }
    }
  }

  lemma {:induction false} NoKeyNoChildren(keys: seq<Value>, column: string, rows: seq<Cols>)
    requires Foreign(keys, column, rows) && forall k :: k in keys && Found(k) ==> IsNull(k)
    ensures Children(keys, column, NonNull(rows, column)) == []
    decreases |rows|
  {
    if rows != [] {
      var n := |rows| - 1;
      assert rows[n] in rows;
      NoKeyNoChildren(keys, column, rows[..n]);
      var nonNull := if IsNull(Col(rows[n], column)) then [] else [rows[n]];
      ChildrenConcat(keys, column, NonNull(rows[..n], column), nonNull);
      NormalizeKeeps(Col(rows[n], column));
      SingleChild(keys, column, rows[n]);
    }
  }

  lemma {:induction false} SelectAllOne(row: Cols, column: string, batches: seq<seq<Value>>, b: nat, c: nat)
    requires b < c < |batches|
    requires SqlIn(Col(row, column), batches[b]) && SqlIn(Col(row, column), batches[c])
    ensures |SelectAll([row], column, batches)| >= 2
    ensures forall r :: r in SelectAll([row], column, batches) ==> r == row
    decreases |batches|
  {
    SelectAllOnly([row], column, batches);
    assert Select([row], column, batches[0]) ==
           Select([], column, batches[0]) + if SqlIn(Col(row, column), batches[0]) then [row] else [];
    if b > 0 {
      SelectAllOne(row, column, batches[1..], b - 1, c - 1);
    } else {
      SelectAllSome([row], column, batches[1..], c - 1, row);
    }
  }

  lemma {:induction false} SelectOnly(rows: seq<Cols>, column: string, values: seq<Value>)
    ensures forall r :: r in Select(rows, column, values) <==> r in rows && SqlIn(Col(r, column), values)
    decreases |rows|
  {
    if rows != [] {
      SelectOnly(rows[..|rows| - 1], column, values);
      assert rows == rows[..|rows| - 1] + [rows[|rows| - 1]];
    }
  }

  lemma {:induction false} SelectAllOnly(rows: seq<Cols>, column: string, batches: seq<seq<Value>>)
    ensures forall r :: r in SelectAll(rows, column, batches) ==> r in rows
    decreases |batches|
  {
    if batches != [] {
      SelectOnly(rows, column, batches[0]);
      SelectAllOnly(rows, column, batches[1..]);
    }
  }

  lemma {:induction false} SelectAllSome(rows: seq<Cols>, column: string, batches: seq<seq<Value>>, b: nat, row: Cols)
    requires b < |batches| && row in rows && SqlIn(Col(row, column), batches[b])
    ensures row in SelectAll(rows, column, batches)
    decreases |batches|
  {
    SelectOnly(rows, column, batches[0]);
    if b > 0 {
      SelectAllSome(rows, column, batches[1..], b - 1, row);
    }
  }

  /** A key asked for twice doubles its children. */
  lemma {:induction false} RepeatedKeyDoubles(keys: seq<Value>, column: string, batches: seq<seq<Value>>, k: Value,
                                              b: nat, c: nat)
    requires Normalized(keys) && k in keys
    requires b < c < |batches| && SqlIn(k, batches[b]) && SqlIn(k, batches[c])
    ensures var rows := [map[column := k]];
            Children(keys, column, SelectAll(rows, column, batches)) != Children(keys, column, NonNull(rows, column))
  {
    var row := map[column := k];
    SelectAllOne(row, column, batches, b, c);
    var fetched := SelectAll([row], column, batches);
    assert fetched[0] in fetched && fetched[1] in fetched;
    assert fetched == [row, row] + fetched[2..];
    ChildrenConcat(keys, column, [row, row], fetched[2..]);
    ChildrenConcat(keys, column, [row], [row]);
    assert [row] + [row] == [row, row];
    SingleChild(keys, column, row);
    assert NonNull([row], column) == NonNull([], column) + [row];
    assert |Children(keys, column, fetched)| > |Children(keys, column, [row])|;
  }

  lemma {:induction false} SelectPair(one: Cols, two: Cols, column: string, batches: seq<seq<Value>>, b: nat, c: nat)
    requires b < c < |batches|
    requires SqlIn(Col(one, column), batches[b]) && SqlIn(Col(two, column), batches[c])
    requires forall d :: 0 <= d < |batches| && d != b ==> !SqlIn(Col(one, column), batches[d])
    requires forall d :: 0 <= d < |batches| && d != c ==> !SqlIn(Col(two, column), batches[d])
    ensures SelectAll([two, one], column, batches) == [one, two]
    decreases |batches|
  {
    var rows := [two, one];
    SelectTwo(two, one, column, batches[0]);
    assert forall d :: 0 <= d < |batches[1..]| ==> batches[1..][d] == batches[d + 1];
    if b > 0 {
      SelectPair(one, two, column, batches[1..], b - 1, c - 1);
    } else {
      SelectLate(one, two, column, batches[1..], c - 1);
    }
  }

  lemma SelectTwo(x: Cols, y: Cols, column: string, values: seq<Value>)
    ensures Select([x, y], column, values) ==
            (if SqlIn(Col(x, column), values) then [x] else []) + (if SqlIn(Col(y, column), values) then [y] else [])
  {
    assert [x, y][..1] == [x];
    assert Select([x], column, values) ==
           Select([], column, values) + if SqlIn(Col(x, column), values) then [x] else [];
  }

  lemma {:induction false} SelectLate(one: Cols, two: Cols, column: string, batches: seq<seq<Value>>, c: nat)
    requires c < |batches| && SqlIn(Col(two, column), batches[c])
    requires forall d :: 0 <= d < |batches| ==> !SqlIn(Col(one, column), batches[d])
    requires forall d :: 0 <= d < |batches| && d != c ==> !SqlIn(Col(two, column), batches[d])
    ensures SelectAll([two, one], column, batches) == [two]
    decreases |batches|
  {
    SelectTwo(two, one, column, batches[0]);
    assert forall d :: 0 <= d < |batches[1..]| ==> batches[1..][d] == batches[d + 1];
    if c > 0 {
      SelectLate(one, two, column, batches[1..], c - 1);
    } else {
      SelectNone([two, one], column, batches[1..]);
    }
  }

  lemma {:induction false} SelectNothing(rows: seq<Cols>, column: string, values: seq<Value>)
    requires forall r :: r in rows ==> !SqlIn(Col(r, column), values)
    ensures Select(rows, column, values) == []
    decreases |rows|
  {
    if rows != [] {
      SelectNothing(rows[..|rows| - 1], column, values);
    }
  }

  lemma {:induction false} SelectNone(rows: seq<Cols>, column: string, batches: seq<seq<Value>>)
    requires forall b, r :: 0 <= b < |batches| && r in rows ==> !SqlIn(Col(r, column), batches[b])
    ensures SelectAll(rows, column, batches) == []
    decreases |batches|
  {
    if batches != [] {
      SelectNothing(rows, column, batches[0]);
      SelectNone(rows, column, batches[1..]);
    }
  }

  lemma FirstChild(keys: seq<Value>, column: string, x: Cols, y: Cols)
    requires NormalizeKey(Col(x, column)) in keys
    ensures Children(keys, column, [x, y]) != [] && Children(keys, column, [x, y])[0] == x
  {
    SingleChild(keys, column, x);
    ChildrenConcat(keys, column, [x], [y]);
    assert [x] + [y] == [x, y];
  }

  lemma NonNullPair(column: string, x: Cols, y: Cols)
    requires !IsNull(Col(x, column)) && !IsNull(Col(y, column))
    ensures NonNull([x, y], column) == [x, y]
  {
    assert [x, y][..1] == [x];
    assert NonNull([x], column) == NonNull([], column) + [x];
  }

  /** Two keys of one parent asked for in different batches change the order of its children. */
  lemma {:induction false} SplitKeysReorder(keys: seq<Value>, column: string, batches: seq<seq<Value>>, one: Cols,
                                            two: Cols, b: nat,
                         c: nat)
    requires NormalizeKey(Col(one, column)) in keys && NormalizeKey(Col(two, column)) in keys
    requires b < c < |batches| && SqlIn(Col(one, column), batches[b]) && SqlIn(Col(two, column), batches[c])
    requires forall d :: 0 <= d < |batches| && d != b ==> !SqlIn(Col(one, column), batches[d])
    requires forall d :: 0 <= d < |batches| && d != c ==> !SqlIn(Col(two, column), batches[d])
    ensures Children(keys, column, SelectAll([two, one], column, batches)) !=
            Children(keys, column, NonNull([two, one], column))
  {
    SelectPair(one, two, column, batches, b, c);
    NormalizeKeeps(Col(one, column));
    NormalizeKeeps(Col(two, column));
    FirstChild(keys, column, one, two);
    FirstChild(keys, column, two, one);
    NonNullPair(column, two, one);
    assert one != two;
  }

  lemma FoundForeign(keys: seq<Value>, column: string, rows: seq<Cols>)
    requires forall r :: r in rows ==> Found(NormalizeKey(Col(r, column)))
    ensures Foreign(keys, column, rows)
  {}

  lemma {:induction false} DoublingShows(keys: seq<Value>, column: string, batches: seq<seq<Value>>, k: Value, b: nat,
                                         c: nat)
    returns (rows: seq<Cols>)
    requires Normalized(keys) && k in keys && Found(k)
    requires b < |batches| && c < |batches| && b != c && SqlIn(k, batches[b]) && SqlIn(k, batches[c])
    ensures Foreign(keys, column, rows)
    ensures Children(keys, column, SelectAll(rows, column, batches)) != Children(keys, column, NonNull(rows, column))
  {
    rows := [map[column := k]];
    assert Col(rows[0], column) == k && NormalizeKey(k) == k;
    FoundForeign(keys, column, rows);
    if b < c {
      RepeatedKeyDoubles(keys, column, batches, k, b, c);
    } else {
      RepeatedKeyDoubles(keys, column, batches, k, c, b);
    }
  }

  lemma {:induction false} ReorderingShows(keys: seq<Value>, column: string, batches: seq<seq<Value>>, k: Value,
                                           l: Value, b: nat, c: nat)
    returns (rows: seq<Cols>)
    requires Normalized(keys) && k in keys && l in keys && Found(k) && Found(l)
    requires b < c < |batches| && SqlIn(k, batches[b]) && SqlIn(l, batches[c])
    requires forall d :: 0 <= d < |batches| && d != b ==> !SqlIn(k, batches[d])
    requires forall d :: 0 <= d < |batches| && d != c ==> !SqlIn(l, batches[d])
    ensures Foreign(keys, column, rows)
    ensures Children(keys, column, SelectAll(rows, column, batches)) != Children(keys, column, NonNull(rows, column))
  {
    var one, two := map[column := k], map[column := l];
    assert Col(one, column) == k && Col(two, column) == l;
    SplitKeysReorder(keys, column, batches, one, two, b, c);
    rows := [two, one];
    FoundForeign(keys, column, rows);
  }

  lemma {:induction false} BatchingShowsFor(keys: seq<Value>, column: string, batches: seq<seq<Value>>, k: Value,
                                            l: Value, b: nat, c: nat)
    returns (rows: seq<Cols>)
    requires Normalized(keys) && k in keys && l in keys && Found(k) && Found(l)
    requires b < c < |batches| && SqlIn(k, batches[b]) && SqlIn(l, batches[c])
    ensures Foreign(keys, column, rows)
    ensures Children(keys, column, SelectAll(rows, column, batches)) != Children(keys, column, NonNull(rows, column))
  {
    if d :| 0 <= d < |batches| && d != b && SqlIn(k, batches[d]) {
      rows := DoublingShows(keys, column, batches, k, b, d);
    } else if d :| 0 <= d < |batches| && d != c && SqlIn(l, batches[d]) {
      rows := DoublingShows(keys, column, batches, l, c, d);
    } else {
      rows := ReorderingShows(keys, column, batches, k, l, b, c);
    }
  }

  /** A table on which cutting the keys into these batches shows. */
  lemma BatchingShows(keys: seq<Value>, column: string, batches: seq<seq<Value>>) returns (rows: seq<Cols>)
    requires Normalized(keys) && !OneBatch(keys, batches)
    ensures Foreign(keys, column, rows)
    ensures Children(keys, column, SelectAll(rows, column, batches)) != Children(keys, column, NonNull(rows, column))
  {
    var b, c, k, l :| 0 <= b < |batches| && 0 <= c < |batches| && b != c && k in keys && l in keys
      && Found(k) && Found(l) && SqlIn(k, batches[b]) && SqlIn(l, batches[c]);
    if b < c {
      rows := BatchingShowsFor(keys, column, batches, k, l, b, c);
    } else {
      rows := BatchingShowsFor(keys, column, batches, l, k, c, b);
    }
  }

  /** Cutting the keys into batches goes unnoticed, whatever the table holds, exactly when no parent spans two. */
  lemma BatchingInvisible(keys: seq<Value>, column: string, batches: seq<seq<Value>>)
    requires Normalized(keys) && Covered(keys, batches)
    ensures (forall rows :: Foreign(keys, column, rows) ==>
               Children(keys, column, SelectAll(rows, column, batches)) ==
               Children(keys, column, NonNull(rows, column)))
            <==> OneBatch(keys, batches)
  {
    if OneBatch(keys, batches) {
      forall rows | Foreign(keys, column, rows)
        ensures Children(keys, column, SelectAll(rows, column, batches)) ==
                Children(keys, column, NonNull(rows, column))
      {
        OneBatchSuffices(keys, column, rows, batches);
      }
    } else {
      var rows := BatchingShows(keys, column, batches);
    }
  }

  // ----- level by level equals row by row -----

  lemma {:induction false} PickMatches(keys: seq<Value>, column: string, rows: seq<Cols>)
    ensures Pick(rows, Matches(keys, ChildKeys(rows, column))) == Children(keys, column, rows)
    decreases |rows|
  {
    if rows != [] {
      var n := |rows| - 1;
      var childKeys := ChildKeys(rows, column);
      PickMatches(keys, column, rows[..n]);
      assert childKeys[..n] == ChildKeys(rows[..n], column);
      var before := Matches(keys, childKeys[..n]);
      var last := Repeat(n, Count(keys, childKeys[n]));
      assert Pick(rows, before + last) == Pick(rows[..n], before) + Repeat(rows[n], Count(keys, childKeys[n])) by {
        forall t | 0 <= t < |before|
          ensures Pick(rows, before + last)[t] == Pick(rows[..n], before)[t]
        {
          assert before[t] in before;
        }
      }
    }
  }

  lemma PickKeep<T>(card: Cardinality, xs: seq<T>, at: seq<nat>)
    requires forall p :: p in at ==> p < |xs|
    ensures Pick(xs, Keep(card, at)) == Keep(card, Pick(xs, at))
  {}

  lemma HeldAtRows(s: Schema, j: nat, row: Cols, rows: seq<Cols>)
    requires ValidSchema(s) && 0 < j < |s|
    ensures Pick(rows, HeldAt(s, j, row, rows)) ==
            Keep(s[j].card, Children(ParentKeys(row, s[j].column), s[j].ofColumn, rows))
  {
    var keys := ParentKeys(row, s[j].column);
    PickMatches(keys, s[j].ofColumn, rows);
    PickKeep(s[j].card, rows, Matches(keys, ChildKeys(rows, s[j].ofColumn)));
  }

  /** At every matched level below `i`, each parent row has its keys in one batch. */
  ghost predicate Aligned(s: Schema, db: Db, i: nat, rows: seq<Cols>)
    requires ValidSchema(s) && i < |s|
    decreases |s| - i
  {
    forall j :: i < j < |s| && IsChild(s, i, j) ==>
      && (!s[i].parallel ==> forall a :: 0 <= a < |rows| ==>
            OneBatch(ParentKeys(rows[a], s[j].column), Batches(Placeholders(rows, s[j].column), s[j].batch)))
      && Aligned(s, db, j, Fetch(s, db, j, rows))
  }

  lemma {:induction false} PlaceholdersHold(rows: seq<Cols>, column: string, a: nat, k: Value)
    requires a < |rows| && k in ParentKeys(rows[a], column)
    ensures exists v :: v in Placeholders(rows, column) && NormalizeKey(v) == k
    decreases |rows|
  {
    var n := |rows| - 1;
    if a < n {
      PlaceholdersHold(rows[..n], column, a, k);
      var v :| v in Placeholders(rows[..n], column) && NormalizeKey(v) == k;
      assert v in Placeholders(rows, column);
    } else {
      var field := Col(rows[a], column);
      PlaceholdersMatchIndex(field);
      var t :| 0 <= t < |IndexKeys(field)| && IndexKeys(field)[t] == k;
      assert PlaceholdersOf(field)[t] in Placeholders(rows, column);
    }
  }

  lemma {:induction false} BatchHolds(values: seq<Value>, size: int, v: Value)
    requires size > 0 && v in values
    ensures exists b :: 0 <= b < |Batches(values, size)| && v in Batches(values, size)[b]
    decreases |values|
  {
    var batches := Batches(values, size);
    if |values| <= size || v in values[..size] {
      assert v in batches[0];
    } else {
      assert values == values[..size] + values[size..];
      BatchHolds(values[size..], size, v);
      var b :| 0 <= b < |Batches(values[size..], size)| && v in Batches(values[size..], size)[b];
      assert batches[b + 1] == Batches(values[size..], size)[b];
    }
  }

  /** Every key of every parent row is asked for by some batch. */
  lemma ParentKeysCovered(rows: seq<Cols>, column: string, size: int, a: nat)
    requires size > 0 && a < |rows|
    ensures Normalized(ParentKeys(rows[a], column))
    ensures Covered(ParentKeys(rows[a], column), Batches(Placeholders(rows, column), size))
  {
    var batches := Batches(Placeholders(rows, column), size);
    PlaceholdersMatchIndex(Col(rows[a], column));
    forall k | k in ParentKeys(rows[a], column) && Found(k) && !IsNull(k)
      ensures exists b :: 0 <= b < |batches| && SqlIn(k, batches[b])
    {
      PlaceholdersHold(rows, column, a, k);
      var v :| v in Placeholders(rows, column) && NormalizeKey(v) == k;
      BatchHolds(Placeholders(rows, column), size, v);
      var b :| 0 <= b < |batches| && v in batches[b];
      NormalizeKeeps(v);
      assert SqlIn(k, batches[b]);
    }
  }

  lemma FetchedChildren(s: Schema, db: Db, i: nat, j: nat, rows: seq<Cols>, a: nat)
    requires ValidSchema(s) && IsChild(s, i, j) && Aligned(s, db, i, rows) && a < |rows| && OwnRow(rows[a], i)
    ensures var children := Fetch(s, db, j, rows);
            Pick(children, HeldAt(s, j, rows[a], children)) == HeldRows(s, db, j, rows[a])
  {
    var children := Fetch(s, db, j, rows);
    HeldAtRows(s, j, rows[a], children);
    if !s[i].parallel {
      ParentKeysCovered(rows, s[j].column, s[j].batch, a);
      RowsForeign(rows[a], i, j, s[j].column, s[j].ofColumn, Rows(db, s[j].table, j));
      OneBatchSuffices(ParentKeys(rows[a], s[j].column), s[j].ofColumn, Rows(db, s[j].table, j),
                       Batches(Placeholders(rows, s[j].column), s[j].batch));
    }
  }

  lemma {:induction false} HeldIsNestedLoop(s: Schema, db: Db, i: nat, j: nat, rows: seq<Cols>, a: nat)
    requires ValidSchema(s) && IsChild(s, i, j) && Aligned(s, db, i, rows) && a < |rows| && OwnRow(rows[a], i)
    requires var children := Fetch(s, db, j, rows);
             forall c :: 0 <= c < |children| ==> Assemble(s, db, j, children)[c] == NestedLoop(s, db, j, children[c])
    ensures AssembleHeld(s, db, i, j, rows, rows[a]) == HeldObjs(s, db, j, rows[a])
  {
    var children := Fetch(s, db, j, rows);
    var objs := Assemble(s, db, j, children);
    var at := HeldAt(s, j, rows[a], children);
    FetchedChildren(s, db, i, j, rows, a);
    forall t | 0 <= t < |at|
      ensures Pick(objs, at)[t] == NestedLoop(s, db, j, Pick(children, at)[t])
    {
      assert at[t] in at;
    }
  }

  lemma FetchedOwn(s: Schema, db: Db, j: nat, parents: seq<Cols>)
    requires ValidSchema(s) && 0 < j < |s|
    ensures forall c :: 0 <= c < |Fetch(s, db, j, parents)| ==> OwnRow(Fetch(s, db, j, parents)[c], j)
  {
    var rows, children := Rows(db, s[j].table, j), Fetch(s, db, j, parents);
    if !s[s[j].parent].parallel {
      SelectAllOnly(rows, s[j].ofColumn, Batches(Placeholders(parents, s[j].column), s[j].batch));
    }
    forall c | 0 <= c < |children|
      ensures OwnRow(children[c], j)
    {
      assert children[c] in children && children[c] in rows;
    }
  }

  /** Reading level by level in batches gives every row exactly its nested-loop object. */
  lemma {:induction false} AssembleIsNestedLoop(s: Schema, db: Db, i: nat, rows: seq<Cols>)
    requires ValidSchema(s) && i < |s| && Aligned(s, db, i, rows)
    requires forall a :: 0 <= a < |rows| ==> OwnRow(rows[a], i)
    ensures forall a :: 0 <= a < |rows| ==> Assemble(s, db, i, rows)[a] == NestedLoop(s, db, i, rows[a])
    decreases |s| - i
  {
    forall a, j | 0 <= a < |rows| && i < j < |s| && IsChild(s, i, j)
      ensures AssembleHeld(s, db, i, j, rows, rows[a]) == HeldObjs(s, db, j, rows[a])
    {
      FetchedOwn(s, db, j, rows);
      AssembleIsNestedLoop(s, db, j, Fetch(s, db, j, rows));
      HeldIsNestedLoop(s, db, i, j, rows, a);
    }
    forall a | 0 <= a < |rows|
      ensures Assemble(s, db, i, rows)[a] == NestedLoop(s, db, i, rows[a])
    {
      SameObj(Assemble(s, db, i, rows)[a], NestedLoop(s, db, i, rows[a]));
    }
  }

  lemma SameObj(x: Obj, y: Obj)
    requires x.cols == y.cols && x.held.Keys == y.held.Keys
    requires forall j :: j in x.held ==> x.held[j] == y.held[j]
    ensures x == y
  {
    assert x.held == y.held;
  }

  // ----- read_all against read_matched -----

  function WithStrategy(s: Schema, parallel: bool): Schema {
    seq(|s|, i requires 0 <= i < |s| => s[i].(parallel := parallel))
  }

  /** No `*int64` key is nil, as the indexing code requires. */
  ghost predicate Readable(s: Schema, db: Db) {
    forall i, j, r :: 0 <= i && IsChild(s, i, j) && r in Rows(db, s[i].table, i) ==> Indexable(Col(r, s[j].column))
  }

  /** A NULL key of this parent row meets the NULL key of a child: both are nil, or nil pointers of one type. */
  ghost predicate NullClash(s: Schema, db: Db, j: nat, row: Cols)
    requires j < |s|
  {
    && IsNull(Col(row, s[j].column))
    && exists r :: r in Rows(db, s[j].table, j) &&
         NormalizeKey(Col(r, s[j].ofColumn)) == NormalizeKey(Col(row, s[j].column))
  }

  /** Below this row no NULL parent key has a NULL child key to meet. */
  ghost predicate NullFree(s: Schema, db: Db, i: nat, row: Cols)
    requires ValidSchema(WithStrategy(s, false)) && i < |s|
    decreases |s| - i, 0
  {
    forall j :: i < j < |s| && IsChild(s, i, j) ==> NullFreeHolder(s, db, j, row)
  }

  ghost predicate NullFreeHolder(s: Schema, db: Db, j: nat, row: Cols)
    requires ValidSchema(WithStrategy(s, false)) && 0 < j < |s|
    decreases |s| - j, 1
  {
    && !NullClash(s, db, j, row)
    && forall r :: r in HeldRows(WithStrategy(s, false), db, j, row) ==> NullFree(s, db, j, r)
  }

  lemma {:induction false} ChildrenOnly(keys: seq<Value>, column: string, rows: seq<Cols>)
    ensures forall r :: r in Children(keys, column, rows) <==> r in rows && NormalizeKey(Col(r, column)) in keys
    decreases |rows|
  {
    if rows != [] {
      var n := |rows| - 1;
      ChildrenOnly(keys, column, rows[..n]);
      assert rows == rows[..n] + [rows[n]];
      var copies := Count(keys, NormalizeKey(Col(rows[n], column)));
      assert copies > 0 ==> Repeat(rows[n], copies)[0] == rows[n];
    }
  }

  lemma {:induction false} NonNullOnly(rows: seq<Cols>, column: string)
    ensures forall r :: r in NonNull(rows, column) <==> r in rows && !IsNull(Col(r, column))
    decreases |rows|
  {
    if rows != [] {
      var n := |rows| - 1;
      NonNullOnly(rows[..n], column);
      assert rows == rows[..n] + [rows[n]];
    }
  }

  lemma {:induction false} NoNullsToDrop(keys: seq<Value>, column: string, rows: seq<Cols>)
    requires forall r :: r in rows && IsNull(Col(r, column)) ==> NormalizeKey(Col(r, column)) !in keys
    ensures Children(keys, column, NonNull(rows, column)) == Children(keys, column, rows)
    decreases |rows|
  {
    if rows != [] {
      var n := |rows| - 1;
      assert rows[n] in rows;
      NoNullsToDrop(keys, column, rows[..n]);
      var nonNull := if IsNull(Col(rows[n], column)) then [] else [rows[n]];
      ChildrenConcat(keys, column, NonNull(rows[..n], column), nonNull);
      SingleChild(keys, column, rows[n]);
    }
  }

  /** A NULL key is the only one of its field. */
  lemma NullsAlone(v: Value)
    ensures forall k :: k in IndexKeys(v) && IsNull(k) ==> IsNull(v) && k == NormalizeKey(v)
    ensures IsNull(v) && Indexable(v) ==> IndexKeys(v) == [NormalizeKey(v)]
  {}

  lemma NullsForeign(keys: seq<Value>, column: string, rows: seq<Cols>)
    requires forall k :: k in keys ==> IsNull(k)
    ensures Foreign(keys, column, rows)
  {}

  /** If no NULL keys meet, it makes no difference whether the child rows with NULL keys are read. */
  lemma NullsUnmet(s: Schema, db: Db, j: nat, row: Cols)
    requires j < |s| && !NullClash(s, db, j, row)
    ensures var table, keys := Rows(db, s[j].table, j), ParentKeys(row, s[j].column);
            Children(keys, s[j].ofColumn, NonNull(table, s[j].ofColumn)) == Children(keys, s[j].ofColumn, table)
  {
    var table, keys := Rows(db, s[j].table, j), ParentKeys(row, s[j].column);
    NullsAlone(Col(row, s[j].column));
    forall r | r in table && IsNull(Col(r, s[j].ofColumn))
      ensures NormalizeKey(Col(r, s[j].ofColumn)) !in keys
    {
      NormalizeKeeps(Col(r, s[j].ofColumn));
    }
    NoNullsToDrop(keys, s[j].ofColumn, table);
  }

  /** One relation: both strategies select the same rows exactly when no NULL keys meet. */
  lemma HeldUnderStrategies(s: Schema, db: Db, i: nat, j: nat, row: Cols)
    requires ValidSchema(WithStrategy(s, false)) && ValidSchema(WithStrategy(s, true))
    requires IsChild(s, i, j) && Indexable(Col(row, s[j].column))
    ensures HeldRows(WithStrategy(s, false), db, j, row) == HeldRows(WithStrategy(s, true), db, j, row)
            <==> !NullClash(s, db, j, row)
  {
    var table := Rows(db, s[j].table, j);
    var keys := ParentKeys(row, s[j].column);
    NormalizeKeeps(Col(row, s[j].column));
    NullsAlone(Col(row, s[j].column));
    if NullClash(s, db, j, row) {
      assert keys == [NormalizeKey(Col(row, s[j].column))];
      NullsForeign(keys, s[j].ofColumn, table);
      NoKeyNoChildren(keys, s[j].ofColumn, table);
      ChildrenOnly(keys, s[j].ofColumn, table);
    } else {
      NullsUnmet(s, db, j, row);
    }
  }

  lemma HeldRowsInTable(s: Schema, db: Db, j: nat, row: Cols)
    requires ValidSchema(s) && 0 < j < |s|
    ensures forall r :: r in HeldRows(s, db, j, row) ==> r in Rows(db, s[j].table, j)
  {
    ChildrenOnly(ParentKeys(row, s[j].column), s[j].ofColumn, Candidates(s, db, j));
    NonNullOnly(Rows(db, s[j].table, j), s[j].ofColumn);
  }

  lemma {:induction false} HolderUnderStrategies(s: Schema, db: Db, i: nat, j: nat, row: Cols)
    requires ValidSchema(WithStrategy(s, false)) && ValidSchema(WithStrategy(s, true)) && Readable(s, db)
    requires IsChild(s, i, j) && row in Rows(db, s[i].table, i)
    ensures HeldObjs(WithStrategy(s, false), db, j, row) == HeldObjs(WithStrategy(s, true), db, j, row)
            <==> NullFreeHolder(s, db, j, row)
    decreases |s| - j, 1
  {
    var matched, merged := WithStrategy(s, false), WithStrategy(s, true);
    HeldRowsInTable(matched, db, j, row);
    forall r | r in HeldRows(matched, db, j, row)
      ensures NestedLoop(matched, db, j, r) == NestedLoop(merged, db, j, r) <==> NullFree(s, db, j, r)
    {
      StrategiesAgree(s, db, j, r);
    }
    HeldUnderStrategies(s, db, i, j, row);
    SameHeldObjs(matched, merged, db, j, row);
  }

  /** Reading everything and merging gives what matched reading gives, exactly when no NULL keys meet below. */
  lemma {:induction false} StrategiesAgree(s: Schema, db: Db, i: nat, row: Cols)
    requires ValidSchema(WithStrategy(s, false)) && ValidSchema(WithStrategy(s, true)) && Readable(s, db)
    requires i < |s| && row in Rows(db, s[i].table, i)
    ensures NestedLoop(WithStrategy(s, false), db, i, row) == NestedLoop(WithStrategy(s, true), db, i, row)
            <==> NullFree(s, db, i, row)
    decreases |s| - i, 0
  {
    forall j | i < j < |s| && IsChild(s, i, j)
      ensures HeldObjs(WithStrategy(s, false), db, j, row) == HeldObjs(WithStrategy(s, true), db, j, row)
              <==> NullFreeHolder(s, db, j, row)
    {
      HolderUnderStrategies(s, db, i, j, row);
    }
    assert forall j :: 0 <= j < |s| ==>
        IsChild(s, i, j) == IsChild(WithStrategy(s, false), i, j) == IsChild(WithStrategy(s, true), i, j);
    SameNestedLoop(WithStrategy(s, false), WithStrategy(s, true), db, i, row);
  }

  /** The same for a whole read: both strategies return the same objects exactly when no NULL keys meet. */
  lemma ReadsAgree(s: Schema, db: Db)
    requires ValidSchema(WithStrategy(s, false)) && ValidSchema(WithStrategy(s, true)) && Readable(s, db)
    requires Aligned(WithStrategy(s, false), db, 0, Rows(db, s[0].table, 0))
    ensures Assemble(WithStrategy(s, false), db, 0, Rows(db, s[0].table, 0)) ==
            Assemble(WithStrategy(s, true), db, 0, Rows(db, s[0].table, 0))
            <==> forall row :: row in Rows(db, s[0].table, 0) ==> NullFree(s, db, 0, row)
  {
    var matched, merged, rows := WithStrategy(s, false), WithStrategy(s, true), Rows(db, s[0].table, 0);
    ParallelAligned(merged, db, 0, rows);
    AssembleIsNestedLoop(matched, db, 0, rows);
    AssembleIsNestedLoop(merged, db, 0, rows);
    var xs, ys := Assemble(matched, db, 0, rows), Assemble(merged, db, 0, rows);
    forall a | 0 <= a < |rows|
      ensures xs[a] == ys[a] <==> NullFree(s, db, 0, rows[a])
    {
      StrategiesAgree(s, db, 0, rows[a]);
    }
    if forall row :: row in rows ==> NullFree(s, db, 0, row) {
      assert forall a :: 0 <= a < |rows| ==> rows[a] in rows;
      assert xs == ys;
    } else {
      var row :| row in rows && !NullFree(s, db, 0, row);
      var a :| 0 <= a < |rows| && rows[a] == row;
      assert xs[a] != ys[a];
    }
  }

  lemma {:induction false} ParallelAligned(s: Schema, db: Db, i: nat, rows: seq<Cols>)
    requires ValidSchema(s) && i < |s| && forall k :: 0 <= k < |s| ==> s[k].parallel
    ensures Aligned(s, db, i, rows)
    decreases |s| - i
  {
    forall j | i < j < |s| && IsChild(s, i, j)
      ensures Aligned(s, db, j, Fetch(s, db, j, rows))
    {
      ParallelAligned(s, db, j, Fetch(s, db, j, rows));
    }
  }

  lemma HeldMap(s: Schema, db: Db, i: nat, row: Cols) returns (held: map<nat, seq<Obj>>)
    requires ValidSchema(s) && i < |s|
    ensures NestedLoop(s, db, i, row) == Obj(row, held)
    ensures forall j: nat :: j in held <==> IsChild(s, i, j)
    ensures forall j: nat :: j in held ==> held[j] == HeldObjs(s, db, j, row)
  {
    held := NestedLoop(s, db, i, row).held;
  }

  lemma SameNestedLoop(s: Schema, s': Schema, db: Db, i: nat, row: Cols)
    requires ValidSchema(s) && ValidSchema(s') && i < |s| == |s'|
    requires forall j :: 0 <= j < |s| ==> IsChild(s, i, j) == IsChild(s', i, j)
    ensures NestedLoop(s, db, i, row) == NestedLoop(s', db, i, row)
            <==> forall j :: i < j < |s| && IsChild(s, i, j) ==> HeldObjs(s, db, j, row) == HeldObjs(s', db, j, row)
  {
    var held := HeldMap(s, db, i, row);
    var held' := HeldMap(s', db, i, row);
    SameMap(held, held');
  }

  lemma SameMap<K, V>(m: map<K, V>, m': map<K, V>)
    requires m.Keys == m'.Keys
    ensures m == m' <==> forall k :: k in m ==> m[k] == m'[k]
  {}

  lemma {:induction false} SameHeldObjs(s: Schema, s': Schema, db: Db, j: nat, row: Cols)
    requires ValidSchema(s) && ValidSchema(s') && 0 < j < |s| == |s'|
    ensures HeldObjs(s, db, j, row) == HeldObjs(s', db, j, row)
            <==> (HeldRows(s, db, j, row) == HeldRows(s', db, j, row)
                  && forall r :: r in HeldRows(s, db, j, row) ==> NestedLoop(s, db, j, r) == NestedLoop(s', db, j, r))
  {
    var xs, ys := HeldRows(s, db, j, row), HeldRows(s', db, j, row);
    var held, held' := HeldObjs(s, db, j, row), HeldObjs(s', db, j, row);
    SameLists(xs, ys, held, held');
    if xs == ys {
      forall t | 0 <= t < |xs|
        ensures held[t] == NestedLoop(s, db, j, xs[t]) && held'[t] == NestedLoop(s', db, j, xs[t]) && xs[t] in xs
      {}
      if forall t :: 0 <= t < |xs| ==> held[t] == held'[t] {
        forall r | r in xs
          ensures NestedLoop(s, db, j, r) == NestedLoop(s', db, j, r)
        {
          var t :| 0 <= t < |xs| && xs[t] == r;
          assert held[t] == held'[t];
        }
      }
    }
  }

  lemma SameLists(xs: seq<Cols>, ys: seq<Cols>, held: seq<Obj>, held': seq<Obj>)
    requires |held| == |xs| && forall t :: 0 <= t < |xs| ==> held[t].cols == xs[t]
    requires |held'| == |ys| && forall t :: 0 <= t < |ys| ==> held'[t].cols == ys[t]
    ensures held == held' <==> xs == ys && forall t :: 0 <= t < |xs| ==> held[t] == held'[t]
  {
    if held == held' {
      assert forall t :: 0 <= t < |xs| ==> xs[t] == ys[t];
    }
  }
}
