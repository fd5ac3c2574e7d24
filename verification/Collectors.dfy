/**
 Rows and collectors as the program keeps them (view/collector.go): rows are heap objects that are attached to their
 parents before their own children arrive, and every collector indexes the positions of its rows by key.
 */
module Collectors {
  import opened Join
  import opened Keys
  import opened Lists

  class Row {
    const view: nat      // the view it was read for
    const position: nat  // where it stands in that view's slice
    const cols: Cols
    var held: map<string, seq<Row>>  // contents of the holder fields; absent while nothing is attached

    constructor (view: nat, position: nat, cols: Cols)
      ensures this.view == view && this.position == position && this.cols == cols && held == map[]
    {
      this.view, this.position, this.cols, held := view, position, cols, map[];
    }
  }

  function HeldIn(held: map<string, seq<Row>>, holder: string): seq<Row> {
    if holder in held then held[holder] else []
  }

  function ColsOf(rows: seq<Row>): seq<Cols> {
    seq(|rows|, a requires 0 <= a < |rows| => rows[a].cols)
  }

  function KeysOf(rows: seq<Row>, column: string): seq<seq<Value>> {
    seq(|rows|, a requires 0 <= a < |rows| => ParentKeys(rows[a].cols, column))
  }

  /** Positions at which a key occurs, in row order, once for each occurrence: what the index must contain. */
  function Positions(keys: seq<seq<Value>>, k: Value): (at: seq<nat>)
    ensures forall p :: p in at ==> p < |keys|
  {
    if keys == [] then []
    else
      var n := |keys| - 1;
      Positions(keys[..n], k) + Repeat<nat>(n, Count(keys[n], k))
  }

  /** The index is the transpose of the per-row key lists, multiplicities included. */
  lemma {:induction false} PositionsCount(keys: seq<seq<Value>>, k: Value, a: nat)
    ensures Count<nat>(Positions(keys, k), a) == if a < |keys| then Count(keys[a], k) else 0
    decreases |keys|
  {
    if keys != [] {
      var n := |keys| - 1;
      var before: seq<nat>, last: seq<nat> := Positions(keys[..n], k), Repeat<nat>(n, Count(keys[n], k));
      PositionsCount(keys[..n], k, a);
      RepeatCount<nat>(n, Count(keys[n], k), a);
      CountConcat<nat>(before, last, a);
      assert a < n ==> keys[..n][a] == keys[a];
    }
  }

  function PositionsAt(index: map<Value, seq<nat>>, k: Value): seq<nat> {
    if k in index then index[k] else []
  }

  ghost predicate Indexes(index: map<Value, seq<nat>>, keys: seq<seq<Value>>) {
    forall k :: PositionsAt(index, k) == Positions(keys, k)
  }

  /** The index of `keys` after some of the keys of the next row have been added to it. */
  ghost predicate IndexesPlus(index: map<Value, seq<nat>>, keys: seq<seq<Value>>, added: seq<Value>) {
    forall k :: PositionsAt(index, k) == Positions(keys, k) + Repeat<nat>(|keys|, Count(added, k))
  }

  ghost predicate AddedOne(index: map<Value, seq<nat>>, index': map<Value, seq<nat>>, key: Value, counter: nat) {
    forall k :: PositionsAt(index', k) == PositionsAt(index, k) + if k == key then [counter] else []
  }

  lemma IndexesStep(index: map<Value, seq<nat>>, index': map<Value, seq<nat>>, keys: seq<seq<Value>>,
                    added: seq<Value>, t: nat)
    requires t < |added| && IndexesPlus(index, keys, added[..t]) && AddedOne(index, index', added[t], |keys|)
    ensures IndexesPlus(index', keys, added[..t + 1])
  {
    forall k
      ensures PositionsAt(index', k) == Positions(keys, k) + Repeat<nat>(|keys|, Count(added[..t + 1], k))
    {
      CountStep<Value, nat>(added, t, k, |keys|);
      var one: seq<nat> := if added[t] == k then [|keys|] else [];
      Assoc(Positions(keys, k), Repeat<nat>(|keys|, Count(added[..t], k)), one);
      assert PositionsAt(index', k) == PositionsAt(index, k) + one;
    }
  }

  lemma IndexesRow(index: map<Value, seq<nat>>, keys: seq<seq<Value>>, added: seq<Value>)
    requires IndexesPlus(index, keys, added)
    ensures Indexes(index, keys + [added])
  {
    assert (keys + [added])[..|keys|] == keys;
  }

  /** How often the index leads from a key to a row is how often the row has that key. */
  lemma IndexCounts(index: map<Value, seq<nat>>, rows: seq<Row>, column: string, key: Value)
    requires Indexes(index, KeysOf(rows, column))
    ensures forall a: nat :: a < |rows| ==>
              Count<nat>(PositionsAt(index, key), a) == Count(ParentKeys(rows[a].cols, column), key)
    ensures forall p :: p in PositionsAt(index, key) ==> p < |rows|
  {
    forall a: nat | a < |rows|
      ensures Count<nat>(PositionsAt(index, key), a) == Count(ParentKeys(rows[a].cols, column), key)
    {
      PositionsCount(KeysOf(rows, column), key, a);
    }
  }

  /** The holders of a row after a child was appended `n` times. */
  function Appended(held: map<string, seq<Row>>, holder: string, owner: Row, n: nat): map<string, seq<Row>> {
    if n == 0 then held else held[holder := HeldIn(held, holder) + Repeat(owner, n)]
  }

  /** The holders of a row after a child was set `n` times. */
  function Put(held: map<string, seq<Row>>, holder: string, owner: Row, n: nat): map<string, seq<Row>> {
    if n == 0 then held else held[holder := [owner]]
  }

  lemma AppendedStep(held: map<string, seq<Row>>, holder: string, owner: Row, n: nat)
    ensures var before := Appended(held, holder, owner, n);
            Appended(held, holder, owner, n + 1) == before[holder := HeldIn(before, holder) + [owner]]
  {
    assert Repeat(owner, n + 1) == Repeat(owner, n) + [owner];
    var before := Appended(held, holder, owner, n);
    assert before[holder := HeldIn(before, holder) + [owner]] == held[holder := HeldIn(before, holder) + [owner]];
    assert HeldIn(before, holder) + [owner] == HeldIn(held, holder) + Repeat(owner, n + 1);
  }

  class Collector {
    const columns: seq<string>  // the link column of each child relation
    var dest: seq<Row>
    var valuePosition: map<string, map<Value, seq<nat>>>
    var indexCounter: nat

    /** The first `n` rows are indexed, by each link column. */
    ghost predicate IndexedTo(n: nat)
      reads this
    {
      && n <= |dest|
      && (forall a :: 0 <= a < |dest| ==> dest[a].position == a)
      && forall c :: c in columns ==>
           c in valuePosition && Indexes(valuePosition[c], KeysOf(dest[..n], c))
    }

    ghost predicate Valid()
      reads this
    {
      indexCounter == |dest| && IndexedTo(indexCounter)
    }

    constructor (columns: seq<string>)
      ensures this.columns == columns && dest == [] && Valid()
    {
      this.columns := columns;
      dest, indexCounter := [], 0;
      valuePosition := map c | c in columns :: map[];
    }

    method DistinctColumns() returns (distinct: seq<string>)
      ensures forall c :: c in distinct <==> c in columns
      ensures forall i, j :: 0 <= i < j < |distinct| ==> distinct[i] != distinct[j]
    {
      distinct := [];
      var presence := {};
      for i := 0 to |columns|
        invariant forall c :: c in presence <==> c in columns[..i]
        invariant forall c :: c in distinct <==> c in columns[..i]
        invariant forall i, j :: 0 <= i < j < |distinct| ==> distinct[i] != distinct[j]
      {
        if columns[i] !in presence {
          distinct := distinct + [columns[i]];
          presence := presence + {columns[i]};
        }
      }
    }

    method IndexValueToPosition(column: string, key: Value, counter: nat)
      requires column in valuePosition
      modifies this`valuePosition
      ensures valuePosition.Keys == old(valuePosition.Keys)
      ensures forall c :: c in valuePosition && c != column ==> valuePosition[c] == old(valuePosition[c])
      ensures AddedOne(old(valuePosition)[column], valuePosition[column], key, counter)
    {
      var index := valuePosition[column];
      if key !in index {
        valuePosition := valuePosition[column := index[key := [counter]]];
      } else {
        valuePosition := valuePosition[column := index[key := index[key] + [counter]]];
      }
    }

    /** Indexes one more row under every key of its link field. */
    method IndexValueByRel(column: string, field: Value, counter: nat, ghost keys: seq<seq<Value>>)
      requires column in valuePosition && Indexable(field)
      requires Indexes(valuePosition[column], keys) && counter == |keys|
      modifies this`valuePosition
      ensures valuePosition.Keys == old(valuePosition.Keys)
      ensures forall c :: c in valuePosition && c != column ==> valuePosition[c] == old(valuePosition[c])
      ensures Indexes(valuePosition[column], keys + [IndexKeys(field)])
    {
      var added := IndexKeys(field);
      for t := 0 to |added|
        invariant valuePosition.Keys == old(valuePosition.Keys)
        invariant forall c :: c in valuePosition && c != column ==> valuePosition[c] == old(valuePosition[c])
        invariant IndexesPlus(valuePosition[column], keys, added[..t])
      {
        ghost var before := valuePosition[column];
        IndexValueToPosition(column, added[t], counter);
        IndexesStep(before, valuePosition[column], keys, added, t);
      }
      assert added[..|added|] == added;
      IndexesRow(valuePosition[column], keys, added);
    }

    /** One more row has been scanned into the slice: index it under each distinct link column. */
    method Collect(row: Row)
      requires Valid() && row.position == |dest|
      requires forall c :: c in columns ==> Indexable(Col(row.cols, c))
      modifies this
      ensures Valid() && dest == old(dest) + [row]
    {
      ghost var before := dest;
      assert dest[..indexCounter] == dest;
      dest := dest + [row];
      var distinct := DistinctColumns();
      for i := 0 to |distinct|
        invariant dest == before + [row] && indexCounter == |before|
        invariant PartlyIndexed(valuePosition, columns, before, dest, distinct[..i])
      {
        var column := distinct[i];
        assert column in columns && column !in distinct[..i];
        ghost var positions := valuePosition;
        IndexValueByRel(column, Col(row.cols, column), indexCounter, KeysOf(before, column));
        KeysOfMore(before, row, column);
        PartlyIndexedStep(positions, valuePosition, columns, before, dest, distinct, i);
      }
      assert distinct[..|distinct|] == distinct;
      indexCounter := indexCounter + 1;
      assert dest[..indexCounter] == dest;
    }
  }

  /** The columns in `done` are indexed for the new rows, the others still for the rows before. */
  ghost predicate PartlyIndexed(positions: map<string, map<Value, seq<nat>>>, columns: seq<string>,
                                before: seq<Row>, after: seq<Row>, done: seq<string>)
  {
    forall c :: c in columns ==>
      c in positions && Indexes(positions[c], KeysOf(if c in done then after else before, c))
  }

  lemma PartlyIndexedStep(positions: map<string, map<Value, seq<nat>>>, positions': map<string, map<Value, seq<nat>>>,
                          columns: seq<string>, before: seq<Row>, after: seq<Row>, distinct: seq<string>, i: nat)
    requires i < |distinct| && PartlyIndexed(positions, columns, before, after, distinct[..i])
    requires positions'.Keys == positions.Keys
    requires forall c :: c in positions && c != distinct[i] ==> positions'[c] == positions[c]
    requires distinct[i] in positions' && Indexes(positions'[distinct[i]], KeysOf(after, distinct[i]))
    ensures PartlyIndexed(positions', columns, before, after, distinct[..i + 1])
  {
    assert distinct[..i + 1] == distinct[..i] + [distinct[i]];
    forall c | c in columns
      ensures c in positions' &&
              Indexes(positions'[c], KeysOf(if c in distinct[..i + 1] then after else before, c))
    {
      assert c in positions && Indexes(positions[c], KeysOf(if c in distinct[..i] then after else before, c));
    }
  }

  lemma KeysOfMore(rows: seq<Row>, row: Row, column: string)
    ensures KeysOf(rows + [row], column) == KeysOf(rows, column) + [IndexKeys(Col(row.cols, column))]
  {}

  method AppendAt(rows: seq<Row>, positions: seq<nat>, holder: string, owner: Row)
    requires forall a :: 0 <= a < |rows| ==> rows[a].position == a
    requires forall p :: p in positions ==> p < |rows|
    modifies rows
    ensures forall a: nat :: a < |rows| ==>
              rows[a].held == Appended(old(rows[a].held), holder, owner, Count<nat>(positions, a))
  {
    for t := 0 to |positions|
      invariant forall a: nat :: a < |rows| ==>
                  rows[a].held == Appended(old(rows[a].held), holder, owner, Count<nat>(positions[..t], a))
    {
      assert positions[t] in positions;
      var item := rows[positions[t]];
      item.held := item.held[holder := HeldIn(item.held, holder) + [owner]];
      forall a: nat | a < |rows|
        ensures rows[a].held == Appended(old(rows[a].held), holder, owner, Count<nat>(positions[..t + 1], a))
      {
        CountStep<nat, Row>(positions, t, a, owner);
        AppendedStep(old(rows[a].held), holder, owner, Count<nat>(positions[..t], a));
      }
    }
    assert positions[..|positions|] == positions;
  }

  method PutAt(rows: seq<Row>, positions: seq<nat>, holder: string, owner: Row)
    requires forall a :: 0 <= a < |rows| ==> rows[a].position == a
    requires forall p :: p in positions ==> p < |rows|
    modifies rows
    ensures forall a: nat :: a < |rows| ==>
              rows[a].held == Put(old(rows[a].held), holder, owner, Count<nat>(positions, a))
  {
    for t := 0 to |positions|
      invariant forall a: nat :: a < |rows| ==>
                  rows[a].held == Put(old(rows[a].held), holder, owner, Count<nat>(positions[..t], a))
    {
      assert positions[t] in positions;
      var item := rows[positions[t]];
      item.held := item.held[holder := [owner]];
      forall a: nat | a < |rows|
        ensures rows[a].held == Put(old(rows[a].held), holder, owner, Count<nat>(positions[..t + 1], a))
      {
        CountStep<nat, Row>(positions, t, a, owner);
      }
    }
    assert positions[..|positions|] == positions;
  }

  /** Appends the child to the holder of every parent row that has its key, once per occurrence. */
  method VisitorMany(parent: Collector, holder: string, column: string, owner: Row, key: Value)
    requires parent.Valid() && column in parent.columns
    modifies parent.dest
    ensures forall a: nat :: a < |parent.dest| ==>
              parent.dest[a].held == Appended(old(parent.dest[a].held), holder, owner,
                                              Count(ParentKeys(parent.dest[a].cols, column), key))
  {
    var index := parent.valuePosition[column];
    assert parent.dest[..parent.indexCounter] == parent.dest;
    IndexCounts(index, parent.dest, column, key);
    if key !in index {
      return;
    }
    AppendAt(parent.dest, index[key], holder, owner);
  }

  /** Puts the child in the holder of every parent row that has its key, over whatever was there. */
  method VisitorOne(parent: Collector, holder: string, column: string, owner: Row, key: Value)
    requires parent.Valid() && column in parent.columns
    modifies parent.dest
    ensures forall a: nat :: a < |parent.dest| ==>
              parent.dest[a].held == Put(old(parent.dest[a].held), holder, owner,
                                         Count(ParentKeys(parent.dest[a].cols, column), key))
  {
    var index := parent.valuePosition[column];
    assert parent.dest[..parent.indexCounter] == parent.dest;
    IndexCounts(index, parent.dest, column, key);
    if key !in index {
      return;
    }
    PutAt(parent.dest, index[key], holder, owner);
  }
}
