/**
 When a read returns what the database itself would join. `SqlLoop` is the reference: for each row, the child rows whose
 key the database calls equal to one of the row's keys. Memory compares keys as Go does, so that the two agree for some
 types of key columns and not for others.
 */
module SqlJoin {
  import opened Join
  import opened Keys
  import opened Lists

  /** How many of the values the database calls equal to this one. */
  function SqlCount(values: seq<Value>, v: Value): nat {
    if values == [] || IsNull(v) then 0
    else
      var n := |values| - 1;
      SqlCount(values[..n], v) + if ToSql(values[n]) == ToSql(v) then 1 else 0
  }

  function SqlChildren(values: seq<Value>, column: string, rows: seq<Cols>): seq<Cols> {
    if rows == [] then []
    else
      var n := |rows| - 1;
      SqlChildren(values, column, rows[..n]) + Repeat(rows[n], SqlCount(values, Col(rows[n], column)))
  }

  function SqlHeld(s: Schema, db: Db, j: nat, row: Cols): seq<Cols>
    requires ValidSchema(s) && 0 < j < |s|
  {
    Keep(s[j].card, SqlChildren(PlaceholdersOf(Col(row, s[j].column)), s[j].ofColumn, Rows(db, s[j].table, j)))
  }

  function SqlLoop(s: Schema, db: Db, i: nat, row: Cols): (obj: Obj)
    requires ValidSchema(s) && i < |s|
    ensures obj.cols == row
    decreases |s| - i, 0
  {
    Obj(row, map j | i < j < |s| && IsChild(s, i, j) :: SqlObjs(s, db, j, row))
  }

  function SqlObjs(s: Schema, db: Db, j: nat, row: Cols): seq<Obj>
    requires ValidSchema(s) && 0 < j < |s|
    decreases |s| - j, 1
  {
    var rows := SqlHeld(s, db, j, row);
    seq(|rows|, t requires 0 <= t < |rows| => SqlLoop(s, db, j, rows[t]))
  }

  // ----- one relation -----

  /** The key of a parent row and those of child rows have these types, and share no variable. */
  ghost predicate TypedLink(field: Value, column: string, rows: seq<Cols>, p: GoType, c: GoType) {
    && Indexable(field)
    && (forall k :: k in IndexKeys(field) ==> HasType(k, p))
    && (forall r :: r in rows ==> HasType(Col(r, column), c))
    && (forall r, k :: r in rows && k in IndexKeys(field) ==> Unaliased(k, Col(r, column)))
  }

  lemma {:induction false} CountIsSql(keys: seq<Value>, values: seq<Value>, v: Value, p: GoType, c: GoType)
    requires |keys| == |values| && Normalized(keys) && Comparable(p, c) && HasType(v, c) && !IsNull(v)
    requires forall t :: 0 <= t < |keys| ==> NormalizeKey(values[t]) == keys[t] && HasType(keys[t], p)
    ensures Count(keys, NormalizeKey(v)) == SqlCount(values, v)
    decreases |keys|
  {
    if keys != [] {
      var n := |keys| - 1;
      CountIsSql(keys[..n], values[..n], v, p, c);
      assert keys[n] in keys;
      NormalizeKeeps(values[n]);
      NormalizeKeeps(v);
      if !IsNull(keys[n]) {
        ComparableAgree(p, c, keys[n], v);
      }
    }
  }

  lemma {:induction false} ChildrenAreSql(field: Value, column: string, rows: seq<Cols>, p: GoType, c: GoType)
    requires TypedLink(field, column, rows, p, c) && Comparable(p, c)
    ensures Children(IndexKeys(field), column, NonNull(rows, column)) ==
            SqlChildren(PlaceholdersOf(field), column, rows)
    decreases |rows|
  {
    if rows != [] {
      var n := |rows| - 1;
      var keys, row := IndexKeys(field), rows[n];
      var nonNull := if IsNull(Col(row, column)) then [] else [row];
      assert row in rows && forall r :: r in rows[..n] ==> r in rows;
      ChildrenAreSql(field, column, rows[..n], p, c);
      ChildrenConcat(keys, column, NonNull(rows[..n], column), nonNull);
      SingleChild(keys, column, row);
      PlaceholdersMatchIndex(field);
      if !IsNull(Col(row, column)) {
        CountIsSql(keys, PlaceholdersOf(field), Col(row, column), p, c);
      }
    }
  }

  /** A row and a child row of types that cannot be compared: the database joins them, and memory does not. */
  lemma {:induction false} SamplesUnjoined(column: string, p: GoType, c: GoType)
    requires !Comparable(p, c)
    ensures var field, rows := SampleOf(p, 0), [map[column := SampleOf(c, 1)]];
            && TypedLink(field, column, rows, p, c)
            && Children(IndexKeys(field), column, NonNull(rows, column)) == []
            && SqlChildren(PlaceholdersOf(field), column, rows) == rows
  {
    SamplesDisagree(p, c);
    NormalizeKeeps(SampleOf(p, 0));
    SampleKeys(p);
    SamplesTyped(SampleOf(p, 0), column, map[column := SampleOf(c, 1)], p, c);
    OneUnjoined(SampleOf(p, 0), column, map[column := SampleOf(c, 1)]);
  }

  lemma {:induction false} SamplesTyped(field: Value, column: string, row: Cols, p: GoType, c: GoType)
    requires Indexable(field) && IndexKeys(field) == [NormalizeKey(field)] && HasType(NormalizeKey(field), p)
    requires HasType(Col(row, column), c) && Unaliased(field, Col(row, column))
    ensures TypedLink(field, column, [row], p, c)
  {
    assert forall r :: r in [row] ==> r == row;
    assert forall k :: k in IndexKeys(field) ==> k == NormalizeKey(field);
  }

  lemma SampleKeys(t: GoType)
    ensures var v := SampleOf(t, 0);
            Indexable(v) && IndexKeys(v) == [NormalizeKey(v)] && HasType(NormalizeKey(v), t) && PlaceholdersOf(v) == [v]
  {}

  lemma {:induction false} OneUnjoined(field: Value, column: string, row: Cols)
    requires IndexKeys(field) == [NormalizeKey(field)] && PlaceholdersOf(field) == [field]
    requires ToSql(field) == ToSql(Col(row, column)) != SqlNull && NormalizeKey(field) != NormalizeKey(Col(row, column))
    ensures Children(IndexKeys(field), column, NonNull([row], column)) == []
    ensures SqlChildren(PlaceholdersOf(field), column, [row]) == [row]
  {
    var v := Col(row, column);
    assert NonNull([row], column) == NonNull([], column) + [row];
    SingleChild([NormalizeKey(field)], column, row);
    assert [field][..0] == [] && SqlCount([], v) == 0;
    assert SqlCount([field], v) == SqlCount([field][..0], v) + 1;
    assert SqlChildren([field], column, [row]) == SqlChildren([field], column, []) + Repeat(row, 1);
  }

  /**
   Whatever the rows, matching them in memory is joining them in the database exactly when the two key columns have one
   type other than a pointer that is left alone, or types without a common content.
   */
  lemma LinkIsSqlExactlyWhen(column: string, p: GoType, c: GoType)
    ensures (forall field, rows :: TypedLink(field, column, rows, p, c) ==>
               Children(IndexKeys(field), column, NonNull(rows, column)) ==
               SqlChildren(PlaceholdersOf(field), column, rows))
            <==> Comparable(p, c)
  {
    if Comparable(p, c) {
      forall field, rows | TypedLink(field, column, rows, p, c)
        ensures Children(IndexKeys(field), column, NonNull(rows, column)) ==
                SqlChildren(PlaceholdersOf(field), column, rows)
      {
        ChildrenAreSql(field, column, rows, p, c);
      }
    } else {
      SamplesUnjoined(column, p, c);
    }
  }

  /** With a nullable text key, or any other pointer that is left alone, no row holds a child with a key at all. */
  lemma {:induction false} PointerKeysNeverMeet(field: Value, column: string, rows: seq<Cols>, p: GoType, c: GoType)
    requires TypedLink(field, column, rows, p, c) && (p.RefType? || c.RefType?)
    ensures Children(IndexKeys(field), column, NonNull(rows, column)) == []
    decreases |rows|
  {
    if rows != [] {
      var n := |rows| - 1;
      var keys, row := IndexKeys(field), rows[n];
      var nonNull := if IsNull(Col(row, column)) then [] else [row];
      assert row in rows && forall r :: r in rows[..n] ==> r in rows;
      PointerKeysNeverMeet(field, column, rows[..n], p, c);
      ChildrenConcat(keys, column, NonNull(rows[..n], column), nonNull);
      SingleChild(keys, column, row);
      if !IsNull(Col(row, column)) && NormalizeKey(Col(row, column)) in keys {
        PointersDiffer(NormalizeKey(Col(row, column)), Col(row, column), p, c);
      }
    }
  }

  lemma PointersDiffer(k: Value, v: Value, p: GoType, c: GoType)
    requires HasType(k, p) && HasType(v, c) && !IsNull(v) && Unaliased(k, v) && (p.RefType? || c.RefType?)
    ensures k != NormalizeKey(v)
  {}

  // ----- the whole tree -----

  /** The types of the key columns that link a view to its parent. */
  datatype Link = Link(parent: GoType, child: GoType)

  ghost predicate Typed(s: Schema, db: Db, links: seq<Link>) {
    && |links| == |s|
    && (forall i, j, row :: 0 <= i && IsChild(s, i, j) && row in Rows(db, s[i].table, i) ==>
          ParentTyped(Col(row, s[j].column), links[j].parent))
    && (forall j: nat, row :: j < |s| && row in Rows(db, s[j].table, j) ==>
        HasType(Col(row, s[j].ofColumn), links[j].child))
  }

  ghost predicate ParentTyped(field: Value, t: GoType) {
    Indexable(field) && forall k :: k in IndexKeys(field) ==> HasType(k, t)
  }

  /** Nowhere in the tree do NULL keys meet because a view is read as a whole. */
  ghost predicate NoNullsMeet(s: Schema, db: Db) {
    forall i, j: nat, row :: 0 <= i && IsChild(s, i, j) && s[i].parallel && row in Rows(db, s[i].table, i) ==>
      !NullClash(s, db, j, row)
  }

  /** What a caller can check before the read: the types of the key columns, and that no NULL keys meet. */
  ghost predicate JoinsAsSql(s: Schema, db: Db, links: seq<Link>) {
    && Typed(s, db, links) && NoNullsMeet(s, db)
    && forall j: nat :: 0 < j < |s| ==> Comparable(links[j].parent, links[j].child)
  }

  lemma LinkTyped(s: Schema, db: Db, links: seq<Link>, i: nat, j: nat, row: Cols)
    requires Typed(s, db, links) && IsChild(s, i, j) && row in Rows(db, s[i].table, i)
    ensures TypedLink(Col(row, s[j].column), s[j].ofColumn, Rows(db, s[j].table, j), links[j].parent, links[j].child)
  {
    var field, rows := Col(row, s[j].column), Rows(db, s[j].table, j);
    assert ParentTyped(field, links[j].parent);
    forall r, k | r in rows && k in IndexKeys(field)
      ensures Unaliased(k, Col(r, s[j].ofColumn))
    {
      assert OwnRow(r, j) && OwnRow(row, i);
    }
  }

  lemma HeldIsSql(s: Schema, db: Db, links: seq<Link>, i: nat, j: nat, row: Cols)
    requires ValidSchema(s) && JoinsAsSql(s, db, links) && IsChild(s, i, j) && row in Rows(db, s[i].table, i)
    ensures HeldRows(s, db, j, row) == SqlHeld(s, db, j, row)
  {
    LinkTyped(s, db, links, i, j, row);
    ChildrenAreSql(Col(row, s[j].column), s[j].ofColumn, Rows(db, s[j].table, j), links[j].parent, links[j].child);
    if s[i].parallel {
      NullsUnmet(s, db, j, row);
    }
  }

  /** Below a row, at any depth, what matching in memory finds is what the database joins. */
  lemma {:induction false} NestedLoopIsSql(s: Schema, db: Db, links: seq<Link>, i: nat, row: Cols)
    requires ValidSchema(s) && JoinsAsSql(s, db, links) && i < |s| && row in Rows(db, s[i].table, i)
    ensures NestedLoop(s, db, i, row) == SqlLoop(s, db, i, row)
    decreases |s| - i
  {
    var x, y := NestedLoop(s, db, i, row), SqlLoop(s, db, i, row);
    forall j: nat | i < j < |s| && IsChild(s, i, j)
      ensures HeldObjs(s, db, j, row) == SqlObjs(s, db, j, row)
    {
      HeldIsSql(s, db, links, i, j, row);
      HeldRowsInTable(s, db, j, row);
      var rows := HeldRows(s, db, j, row);
      forall t | 0 <= t < |rows|
        ensures NestedLoop(s, db, j, rows[t]) == SqlLoop(s, db, j, rows[t])
      {
        assert rows[t] in rows;
        NestedLoopIsSql(s, db, links, j, rows[t]);
      }
      SameObjs(s, db, j, row);
    }
    SameObj(x, y);
  }

  lemma {:induction false} SameObjs(s: Schema, db: Db, j: nat, row: Cols)
    requires ValidSchema(s) && 0 < j < |s| && HeldRows(s, db, j, row) == SqlHeld(s, db, j, row)
    requires var rows := HeldRows(s, db, j, row);
             forall t :: 0 <= t < |rows| ==> NestedLoop(s, db, j, rows[t]) == SqlLoop(s, db, j, rows[t])
    ensures HeldObjs(s, db, j, row) == SqlObjs(s, db, j, row)
  {}

  /** A read in batches returns what the database joins. */
  lemma AssembleIsSql(s: Schema, db: Db, links: seq<Link>)
    requires ValidSchema(s) && JoinsAsSql(s, db, links) && Aligned(s, db, 0, Rows(db, s[0].table, 0))
    ensures var rows := Rows(db, s[0].table, 0);
            forall a :: 0 <= a < |rows| ==> Assemble(s, db, 0, rows)[a] == SqlLoop(s, db, 0, rows[a])
  {
    var rows := Rows(db, s[0].table, 0);
    assert forall a :: 0 <= a < |rows| ==> rows[a] in rows;
    AssembleIsNestedLoop(s, db, 0, rows);
    forall a | 0 <= a < |rows|
      ensures Assemble(s, db, 0, rows)[a] == SqlLoop(s, db, 0, rows[a])
    {
      NestedLoopIsSql(s, db, links, 0, rows[a]);
    }
  }
}
