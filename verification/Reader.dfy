/**
 Reading the whole tree of views (reader/service.go, view/collector.go). The goroutines of Protocol make their steps in
 any order, and the rows of running queries are visited in between; that a child takes its parent's keys only when they
 are all there follows from the protocol. `MergeData` then attaches what was read in parallel.
 */
module Reader {
  import opened Collectors
  import opened Join
  import opened Keys
  import opened Lists
  import opened SqlJoin
  import P = Protocol

  // ----- batches -----

  function SliceWithLimit(values: seq<Value>, from: nat, to: nat): (r: (seq<Value>, nat))
    requires from <= to && from <= |values|
    ensures r.1 == |r.0| && r.0 <= values[from..]
  {
    if |values| > to then (values[from..to], to - from) else (values[from..], |values| - from)
  }

  lemma NextBatch(values: seq<Value>, size: int)
    requires size > 0 && values != []
    ensures var n := if |values| > size then size else |values|;
            Batches(values, size) == [values[..n]] + Batches(values[n..], size)
  {
    assert values[..|values|] == values;
  }

  lemma {:induction false} SelectAllConcat(rows: seq<Cols>, column: string, a: seq<seq<Value>>, b: seq<seq<Value>>)
    ensures SelectAll(rows, column, a + b) == SelectAll(rows, column, a) + SelectAll(rows, column, b)
    decreases |a|
  {
    if a == [] {
      assert a + b == b;
    } else {
      SelectAllConcat(rows, column, a[1..], b);
      assert (a + b)[1..] == a[1..] + b;
    }
  }

  /** Runs one query per batch; `queried` lists the `IN` values of each. */
  method ReadObjects(rows: seq<Cols>, column: string, values: seq<Value>, batch: int)
    returns (read: seq<Cols>, queried: seq<seq<Value>>)
    requires batch > 0 && values != []
    ensures queried == Batches(values, batch)
    ensures read == SelectAll(rows, column, Batches(values, batch))
  {
    var first := SliceWithLimit(values, 0, batch);
    var valuesBatch, parent := first.0, first.1;
    read, queried := [], [];
    NextBatch(values, batch);
    while true
      invariant 0 < parent <= |values|
      invariant queried + [valuesBatch] + Batches(values[parent..], batch) == Batches(values, batch)
      invariant read == SelectAll(rows, column, queried)
      decreases |values| - parent
    {
      read := read + Select(rows, column, valuesBatch);
      SelectAllConcat(rows, column, queried, [valuesBatch]);
      assert SelectAll(rows, column, [valuesBatch]) == Select(rows, column, valuesBatch);
      queried := queried + [valuesBatch];
      if parent == |values| {
        break;
      }
      NextBatch(values[parent..], batch);
      var next := SliceWithLimit(values, parent, parent + batch);
      assert next.0 == values[parent..][..next.1];
      assert values[parent..][next.1..] == values[parent + next.1..];
      valuesBatch, parent := next.0, parent + next.1;
    }
  }

  // ----- structure of a schema -----

  /** The link columns of the children of view `i` among the views before `j`. */
  function LinkColumns(s: Schema, i: int, j: nat): seq<string>
    requires j <= |s|
  {
    if j == 0 then []
    else LinkColumns(s, i, j - 1) + if IsChild(s, i, j - 1) then [s[j - 1].column] else []
  }

  lemma {:induction false} LinkColumnsAre(s: Schema, i: int, j: nat)
    requires j <= |s|
    ensures forall k :: 0 <= k < j && IsChild(s, i, k) ==> s[k].column in LinkColumns(s, i, j)
    ensures forall c :: c in LinkColumns(s, i, j) ==> exists k :: 0 <= k < j && IsChild(s, i, k) && s[k].column == c
    decreases j
  {
    if j > 0 {
      LinkColumnsAre(s, i, j - 1);
    }
  }

  ghost predicate Under(s: Schema, i: nat, k: nat)
    requires ValidSchema(s) && k < |s|
    decreases k
  {
    k == i || (k > i && Under(s, i, s[k].parent))
  }

  lemma {:induction false} UnderOne(s: Schema, i: nat, c: nat, d: nat, k: nat)
    requires ValidSchema(s) && IsChild(s, i, c) && IsChild(s, i, d) && k < |s|
    requires Under(s, c, k) && Under(s, d, k)
    ensures c == d
    decreases k
  {
    if k != c && k != d {
      UnderOne(s, i, c, d, s[k].parent);
    }
  }

  lemma {:induction false} UnderRoot(s: Schema, k: nat)
    requires ValidSchema(s) && k < |s|
    ensures Under(s, 0, k)
    decreases k
  {
    if k > 0 {
      UnderRoot(s, s[k].parent);
    }
  }

  // ----- one child joins its parents -----

  function Attached(card: Cardinality, held: map<string, seq<Row>>, holder: string, owner: Row, n: nat)
    : map<string, seq<Row>>
  {
    if card.Many? then Appended(held, holder, owner, n) else Put(held, holder, owner, n)
  }

  /** What a parent row with the given columns holds once exactly `children` have been attached. */
  function Holds(s: Schema, j: nat, row: Cols, children: seq<Row>): seq<Row>
    requires ValidSchema(s) && 0 < j < |s|
  {
    Pick(children, HeldAt(s, j, row, ColsOf(children)))
  }

  lemma HoldsNothing(s: Schema, j: nat, row: Cols)
    requires ValidSchema(s) && 0 < j < |s|
    ensures Holds(s, j, row, []) == []
  {}

  lemma PickMore<T>(xs: seq<T>, x: T, at: seq<nat>)
    requires forall p :: p in at ==> p < |xs|
    ensures Pick(xs + [x], at) == Pick(xs, at)
  {
    forall t | 0 <= t < |at|
      ensures Pick(xs + [x], at)[t] == Pick(xs, at)[t]
    {
      assert at[t] in at;
    }
  }

  lemma PickConcat<T>(xs: seq<T>, at: seq<nat>, more: seq<nat>)
    requires forall p :: p in at ==> p < |xs|
    requires forall p :: p in more ==> p < |xs|
    ensures Pick(xs, at + more) == Pick(xs, at) + Pick(xs, more)
  {}

  function MatchedRows(s: Schema, j: nat, row: Cols, children: seq<Row>): seq<Row>
    requires ValidSchema(s) && 0 < j < |s|
  {
    Pick(children, Matches(ParentKeys(row, s[j].column), ChildKeys(ColsOf(children), s[j].ofColumn)))
  }

  lemma HoldsMatched(s: Schema, j: nat, row: Cols, children: seq<Row>)
    requires ValidSchema(s) && 0 < j < |s|
    ensures Holds(s, j, row, children) == Keep(s[j].card, MatchedRows(s, j, row, children))
  {
    PickKeep(s[j].card, children, Matches(ParentKeys(row, s[j].column), ChildKeys(ColsOf(children), s[j].ofColumn)));
  }

  lemma MatchedOneMore(s: Schema, j: nat, row: Cols, children: seq<Row>, child: Row)
    requires ValidSchema(s) && 0 < j < |s|
    ensures var n := Count(ParentKeys(row, s[j].column), NormalizeKey(Col(child.cols, s[j].ofColumn)));
            MatchedRows(s, j, row, children + [child]) == MatchedRows(s, j, row, children) + Repeat(child, n)
  {
    var keys := ParentKeys(row, s[j].column);
    var before := ChildKeys(ColsOf(children), s[j].ofColumn);
    var after := ChildKeys(ColsOf(children + [child]), s[j].ofColumn);
    var n := Count(keys, NormalizeKey(Col(child.cols, s[j].ofColumn)));
    assert after[..|children|] == before;
    var at, more := Matches(keys, before), Repeat<nat>(|children|, n);
    assert Matches(keys, after) == at + more;
    PickMore(children, child, at);
    PickConcat(children + [child], at, more);
    assert Pick(children + [child], more) == Repeat(child, n);
  }

  lemma AttachedKeep(card: Cardinality, held: map<string, seq<Row>>, holder: string, owner: Row, n: nat, rows: seq<Row>)
    requires HeldIn(held, holder) == Keep(card, rows)
    ensures HeldIn(Attached(card, held, holder, owner, n), holder) == Keep(card, rows + Repeat(owner, n))
  {}

  /** Attaching one more child takes a holder that is right for the children so far to one that is right for all. */
  lemma HoldsOneMore(s: Schema, j: nat, row: Cols, children: seq<Row>, child: Row, held: map<string, seq<Row>>)
    requires ValidSchema(s) && 0 < j < |s|
    requires HeldIn(held, s[j].holder) == Holds(s, j, row, children)
    ensures var n := Count(ParentKeys(row, s[j].column), NormalizeKey(Col(child.cols, s[j].ofColumn)));
            HeldIn(Attached(s[j].card, held, s[j].holder, child, n), s[j].holder) ==
              Holds(s, j, row, children + [child])
  {
    var n := Count(ParentKeys(row, s[j].column), NormalizeKey(Col(child.cols, s[j].ofColumn)));
    HoldsMatched(s, j, row, children);
    HoldsMatched(s, j, row, children + [child]);
    MatchedOneMore(s, j, row, children, child);
    AttachedKeep(s[j].card, held, s[j].holder, child, n, MatchedRows(s, j, row, children));
  }

  // ----- the collectors of one read -----

  method NewCollectors(schema: Schema) returns (collectors: seq<Collector>)
    ensures fresh(collectors) && |collectors| == |schema|
    ensures forall i, j :: 0 <= i < j < |collectors| ==> collectors[i] != collectors[j]
    ensures forall i :: 0 <= i < |collectors| ==>
              collectors[i].Valid() && collectors[i].dest == [] &&
              collectors[i].columns == LinkColumns(schema, i, |schema|)
  {
    collectors := [];
    for i := 0 to |schema|
      invariant fresh(collectors) && |collectors| == i
      invariant forall i, j :: 0 <= i < j < |collectors| ==> collectors[i] != collectors[j]
      invariant forall i :: 0 <= i < |collectors| ==>
                  collectors[i].Valid() && collectors[i].dest == [] &&
                  collectors[i].columns == LinkColumns(schema, i, |schema|)
    {
      var c := new Collector(LinkColumns(schema, i, |schema|));
      collectors := collectors + [c];
    }
  }

  // ----- what the heap looks like, as values -----

  type Slices = seq<seq<Row>>

  type Holders = map<Row, map<string, seq<Row>>>

  ghost function SlicesOf(cs: seq<Collector>): (slices: Slices)
    reads cs
    ensures |slices| == |cs| && forall i :: 0 <= i < |cs| ==> slices[i] == cs[i].dest
  {
    SlicesTo(cs, |cs|)
  }

  ghost function SlicesTo(cs: seq<Collector>, n: nat): (slices: Slices)
    requires n <= |cs|
    reads cs
    ensures |slices| == n && forall i :: 0 <= i < n ==> slices[i] == cs[i].dest
  {
    if n == 0 then [] else SlicesTo(cs, n - 1) + [cs[n - 1].dest]
  }

  ghost function HoldersOf(rows: set<Row>): Holders
    reads rows
  {
    map r | r in rows :: r.held
  }

  /** The rows of each view are its own, in slice order. */
  ghost predicate Owned(s: Schema, slices: Slices, holders: Holders) {
    && ValidSchema(s) && |slices| == |s|
    && forall i, a :: 0 <= i < |s| && 0 <= a < |slices[i]| ==>
         slices[i][a] in holders && slices[i][a].view == i && slices[i][a].position == a
  }

  /** A child of a collector that does not read in parallel is queried with the keys of its parent's rows. */
  predicate NeedsParent(s: Schema, j: nat)
    requires ValidSchema(s) && j < |s|
  {
    j > 0 && !s[s[j].parent].parallel
  }

  /** The holders for view `j` are right for exactly these children. */
  ghost predicate HolderHas(s: Schema, slices: Slices, holders: Holders, j: nat, children: seq<Row>)
    requires Owned(s, slices, holders) && 0 < j < |s|
  {
    forall a :: 0 <= a < |slices[s[j].parent]| ==>
      var row := slices[s[j].parent][a];
      HeldIn(holders[row], s[j].holder) == Holds(s, j, row.cols, children)
  }

  /** Visited children are in their holders at once, or, under a parallel parent, only after the merge. */
  ghost predicate Linked(s: Schema, slices: Slices, holders: Holders, merged: set<nat>, j: nat)
    requires Owned(s, slices, holders) && 0 < j < |s|
  {
    HolderHas(s, slices, holders, j, if NeedsParent(s, j) || j in merged then slices[j] else [])
  }

  ghost predicate AllLinked(s: Schema, slices: Slices, holders: Holders, merged: set<nat>)
    requires Owned(s, slices, holders)
  {
    forall j :: 0 < j < |s| ==> Linked(s, slices, holders, merged, j)
  }

  /** One child joins the holder of every parent row that has its key. */
  ghost function Joined(holders: Holders, parents: seq<Row>, card: Cardinality, holder: string, column: string,
                        child: Row, key: Value): Holders
  {
    map r | r in holders ::
      if r in parents then Attached(card, holders[r], holder, child, Count(ParentKeys(r.cols, column), key))
      else holders[r]
  }

  lemma OtherHolder(card: Cardinality, held: map<string, seq<Row>>, holder: string, owner: Row, n: nat, h: string)
    requires h != holder
    ensures HeldIn(Attached(card, held, holder, owner, n), h) == HeldIn(held, h)
  {}

  ghost function JoinedFor(s: Schema, slices: Slices, holders: Holders, j: nat, child: Row): Holders
    requires ValidSchema(s) && 0 < j < |s| == |slices|
  {
    Joined(holders, slices[s[j].parent], s[j].card, s[j].holder, s[j].column, child,
           NormalizeKey(Col(child.cols, s[j].ofColumn)))
  }

  lemma JoinedOwn(s: Schema, slices: Slices, holders: Holders, j: nat, children: seq<Row>, child: Row)
    requires Owned(s, slices, holders) && 0 < j < |s| && HolderHas(s, slices, holders, j, children)
    ensures Owned(s, slices, JoinedFor(s, slices, holders, j, child))
    ensures HolderHas(s, slices, JoinedFor(s, slices, holders, j, child), j, children + [child])
  {
    var parents := slices[s[j].parent];
    var joined := JoinedFor(s, slices, holders, j, child);
    forall a | 0 <= a < |parents|
      ensures HeldIn(joined[parents[a]], s[j].holder) == Holds(s, j, parents[a].cols, children + [child])
    {
      HoldsOneMore(s, j, parents[a].cols, children, child, holders[parents[a]]);
    }
  }

  lemma JoinedOther(s: Schema, slices: Slices, holders: Holders, j: nat, child: Row, k: nat, children: seq<Row>)
    requires Owned(s, slices, holders) && 0 < j < |s| && 0 < k < |s| && j != k
    requires HolderHas(s, slices, holders, k, children)
    requires Owned(s, slices, JoinedFor(s, slices, holders, j, child))
    ensures HolderHas(s, slices, JoinedFor(s, slices, holders, j, child), k, children)
  {
    var rows := slices[s[k].parent];
    var joined := JoinedFor(s, slices, holders, j, child);
    forall a | 0 <= a < |rows|
      ensures HeldIn(joined[rows[a]], s[k].holder) == HeldIn(holders[rows[a]], s[k].holder)
    {
      if s[k].parent == s[j].parent {
        OtherHolder(s[j].card, holders[rows[a]], s[j].holder, child,
                    Count(ParentKeys(rows[a].cols, s[j].column), NormalizeKey(Col(child.cols, s[j].ofColumn))),
           s[k].holder);
      }
    }
  }

  ghost predicate OthersLinked(s: Schema, slices: Slices, holders: Holders, merged: set<nat>, j: nat)
    requires Owned(s, slices, holders)
  {
    forall k :: 0 < k < |s| && k != j ==> Linked(s, slices, holders, merged, k)
  }

  lemma JoinedLinks(s: Schema, slices: Slices, holders: Holders, merged: set<nat>, j: nat, child: Row)
    requires Owned(s, slices, holders) && 0 < j < |s|
    requires Owned(s, slices, JoinedFor(s, slices, holders, j, child))
    requires OthersLinked(s, slices, holders, merged, j)
    ensures OthersLinked(s, slices, JoinedFor(s, slices, holders, j, child), merged, j)
  {
    var joined := JoinedFor(s, slices, holders, j, child);
    forall k: nat | 0 < k < |s| && k != j
      ensures Linked(s, slices, joined, merged, k)
    {
      assert Linked(s, slices, holders, merged, k);
      JoinedOther(s, slices, holders, j, child, k, if NeedsParent(s, k) || k in merged then slices[k] else []);
    }
  }

  lemma ScannedOwned(s: Schema, slices: Slices, holders: Holders, j: nat, row: Row)
    requires Owned(s, slices, holders) && j < |s| && row.view == j && row.position == |slices[j]|
    ensures Owned(s, slices[j := slices[j] + [row]], holders[row := map[]])
  {}

  /** A new row with empty holders changes no holder that has nothing to hold from it. */
  lemma ScannedHolder(s: Schema, slices: Slices, holders: Holders, j: nat, row: Row, k: nat, children: seq<Row>)
    requires Owned(s, slices, holders) && j < |s| && row !in holders && row.view == j && row.position == |slices[j]|
    requires 0 < k < |s| && HolderHas(s, slices, holders, k, children)
    requires s[k].parent == j ==> children == []
    requires Owned(s, slices[j := slices[j] + [row]], holders[row := map[]])
    ensures HolderHas(s, slices[j := slices[j] + [row]], holders[row := map[]], k, children)
  {
    HoldsNothing(s, k, row.cols);
    var slices', holders' := slices[j := slices[j] + [row]], holders[row := map[]];
    var parents := slices'[s[k].parent];
    forall a | 0 <= a < |parents|
      ensures HeldIn(holders'[parents[a]], s[k].holder) == Holds(s, k, parents[a].cols, children)
    {
      if a < |slices[s[k].parent]| {
        assert parents[a] == slices[s[k].parent][a];
        assert parents[a] != row;
      }
    }
  }

  lemma ScannedLinks(s: Schema, slices: Slices, holders: Holders, merged: set<nat>, j: nat, row: Row)
    requires Owned(s, slices, holders) && j < |s| && AllLinked(s, slices, holders, merged)
    requires row !in holders && row.view == j && row.position == |slices[j]|
    requires forall k: nat :: IsChild(s, j, k) ==> slices[k] == [] || (s[j].parallel && k !in merged)
    requires Owned(s, slices[j := slices[j] + [row]], holders[row := map[]])
    ensures OthersLinked(s, slices[j := slices[j] + [row]], holders[row := map[]], merged, j)
  {
    var slices', holders' := slices[j := slices[j] + [row]], holders[row := map[]];
    forall k: nat | 0 < k < |s| && k != j
      ensures Linked(s, slices', holders', merged, k)
    {
      assert Linked(s, slices, holders, merged, k);
      assert s[k].parent == j ==> IsChild(s, j, k);
      ScannedHolder(s, slices, holders, j, row, k, if NeedsParent(s, k) || k in merged then slices[k] else []);
      assert slices'[k] == slices[k];
    }
  }

  lemma VisitedLinks(s: Schema, slices: Slices, holders: Holders, merged: set<nat>, j: nat, row: Row)
    requires Owned(s, slices, holders) && j < |s| && j !in merged && AllLinked(s, slices, holders, merged)
    requires row !in holders && row.view == j && row.position == |slices[j]|
    requires forall k: nat :: IsChild(s, j, k) ==> slices[k] == [] || (s[j].parallel && k !in merged)
    ensures Owned(s, slices[j := slices[j] + [row]], VisitedHolders(s, slices, holders, j, row))
    ensures AllLinked(s, slices[j := slices[j] + [row]], VisitedHolders(s, slices, holders, j, row), merged)
  {
    var slices', holders' := slices[j := slices[j] + [row]], holders[row := map[]];
    ScannedOwned(s, slices, holders, j, row);
    ScannedLinks(s, slices, holders, merged, j, row);
    if j > 0 {
      assert Linked(s, slices, holders, merged, j);
      ScannedHolder(s, slices, holders, j, row, j, if NeedsParent(s, j) then slices[j] else []);
    }
    if NeedsParent(s, j) {
      JoinedOwn(s, slices', holders', j, slices[j], row);
      JoinedLinks(s, slices', holders', merged, j, row);
    }
    var visited := VisitedHolders(s, slices, holders, j, row);
    forall k: nat | 0 < k < |s|
      ensures Linked(s, slices', visited, merged, k)
    {
      if k != j {
        assert OthersLinked(s, slices', visited, merged, j);
      }
    }
  }

  /** The holders after a row of view `j` was scanned and, if its parent does not read in parallel, attached. */
  ghost function VisitedHolders(s: Schema, slices: Slices, holders: Holders, j: nat, row: Row): Holders
    requires ValidSchema(s) && j < |s| == |slices|
  {
    var scanned := holders[row := map[]];
    if NeedsParent(s, j) then JoinedFor(s, slices[j := slices[j] + [row]], scanned, j, row) else scanned
  }

  // ----- progress of the queries -----

  /** Per collector: not queried yet, or the rows still to be visited. */
  type Todo = seq<Option<seq<Cols>>>

  predicate Complete(todo: Todo, i: int) {
    0 <= i < |todo| && todo[i] == Some([])
  }

  /** All rows that will be visited for view `i`. */
  ghost function Planned(s: Schema, db: Db, slices: Slices, i: nat): seq<Cols>
    requires ValidSchema(s) && i < |s| == |slices|
  {
    if i == 0 then Rows(db, s[0].table, 0) else Fetch(s, db, i, ColsOf(slices[s[i].parent]))
  }

  ghost predicate Progress(s: Schema, db: Db, slices: Slices, todo: Todo, i: nat)
    requires ValidSchema(s) && i < |s| == |slices| == |todo|
  {
    match todo[i]
    case None => slices[i] == []
    case Some(rest) =>
      && (NeedsParent(s, i) ==> Complete(todo, s[i].parent))
      && ColsOf(slices[i]) + rest == Planned(s, db, slices, i)
  }

  ghost predicate AllProgress(s: Schema, db: Db, slices: Slices, todo: Todo)
    requires ValidSchema(s) && |s| == |slices|
  {
    |todo| == |s| && forall i :: 0 <= i < |s| ==> Progress(s, db, slices, todo, i)
  }

  lemma StartProgress(s: Schema, db: Db, slices: Slices, todo: Todo, todo': Todo, j: nat, read: seq<Cols>)
    requires ValidSchema(s) && |s| == |slices| && AllProgress(s, db, slices, todo)
    requires j < |s| && todo[j].None? && (NeedsParent(s, j) ==> Complete(todo, s[j].parent))
    requires read == Planned(s, db, slices, j) && todo' == todo[j := Some(read)]
    ensures AllProgress(s, db, slices, todo')
  {
    forall i: nat | i < |s|
      ensures Progress(s, db, slices, todo', i)
    {
      assert Progress(s, db, slices, todo, i);
    }
  }

  lemma PlannedStays(s: Schema, db: Db, slices: Slices, slices': Slices, i: nat)
    requires ValidSchema(s) && i < |s| == |slices| == |slices'|
    requires i == 0 || s[s[i].parent].parallel || slices[s[i].parent] == slices'[s[i].parent]
    ensures Planned(s, db, slices, i) == Planned(s, db, slices', i)
  {}

  lemma VisitOtherProgress(s: Schema, db: Db, slices: Slices, todo: Todo, j: nat, row: Row, i: nat)
    requires ValidSchema(s) && |s| == |slices| == |todo| && i < |s| && Progress(s, db, slices, todo, i)
    requires j < |s| && i != j && todo[j].Some? && todo[j].value != []
    ensures Progress(s, db, slices[j := slices[j] + [row]], todo[j := Some(todo[j].value[1..])], i)
    ensures IsChild(s, j, i) && !s[j].parallel ==> slices[i] == []
  {
    var slices' := slices[j := slices[j] + [row]];
    if i > 0 && s[i].parent == j && !s[j].parallel {
      assert !Complete(todo, j);
    } else {
      PlannedStays(s, db, slices, slices', i);
    }
  }

  lemma VisitOwnProgress(s: Schema, db: Db, slices: Slices, todo: Todo, j: nat, row: Row)
    requires ValidSchema(s) && |s| == |slices| == |todo| && j < |s| && Progress(s, db, slices, todo, j)
    requires todo[j].Some? && todo[j].value != [] && row.cols == todo[j].value[0]
    ensures Progress(s, db, slices[j := slices[j] + [row]], todo[j := Some(todo[j].value[1..])], j)
  {
    var slices' := slices[j := slices[j] + [row]];
    PlannedStays(s, db, slices, slices', j);
    RowMoves(slices[j], row, todo[j].value);
  }

  /** A visited row goes from the front of what is to be read to the end of what was. */
  lemma RowMoves(slice: seq<Row>, row: Row, rest: seq<Cols>)
    requires rest != [] && row.cols == rest[0]
    ensures ColsOf(slice + [row]) + rest[1..] == ColsOf(slice) + rest
  {
    assert ColsOf(slice + [row]) == ColsOf(slice) + [rest[0]];
    assert [rest[0]] + rest[1..] == rest;
  }

  lemma VisitProgress(s: Schema, db: Db, slices: Slices, slices': Slices, todo: Todo, todo': Todo, j: nat, row: Row)
    requires ValidSchema(s) && |s| == |slices| && AllProgress(s, db, slices, todo)
    requires j < |s| && todo[j].Some? && todo[j].value != [] && row.cols == todo[j].value[0]
    requires slices' == slices[j := slices[j] + [row]] && todo' == todo[j := Some(todo[j].value[1..])]
    ensures AllProgress(s, db, slices', todo')
  {
    forall i: nat | i < |s|
      ensures Progress(s, db, slices', todo', i)
    {
      assert Progress(s, db, slices, todo, i);
      if i == j {
        VisitOwnProgress(s, db, slices, todo, j, row);
      } else {
        VisitOtherProgress(s, db, slices, todo, j, row, i);
      }
    }
  }

  /** While a collector still has rows to visit, none of the children that depend on it has any. */
  lemma WaitingChildren(s: Schema, db: Db, slices: Slices, todo: Todo, j: nat, k: nat)
    requires ValidSchema(s) && |s| == |slices| && AllProgress(s, db, slices, todo)
    requires j < |s| && !Complete(todo, j) && IsChild(s, j, k) && !s[j].parallel
    ensures slices[k] == []
  {
    assert Progress(s, db, slices, todo, k);
  }

  // ----- the collectors -----

  ghost predicate Ready(s: Schema, cs: seq<Collector>)
    reads cs
  {
    && |cs| == |s|
    && (forall i, j :: 0 <= i < j < |cs| ==> cs[i] != cs[j])
    && forall i :: 0 <= i < |cs| ==> cs[i].Valid() && cs[i].columns == LinkColumns(s, i, |s|)
  }

  /** The parent's link values, in row order. */
  method ParentPlaceholders(parent: Collector, column: string) returns (values: seq<Value>)
    ensures values == Placeholders(ColsOf(parent.dest), column)
  {
    var rows := parent.dest;
    values := [];
    for a := 0 to |rows|
      invariant values == Placeholders(ColsOf(rows[..a]), column)
    {
      values := values + PlaceholdersOf(Col(rows[a].cols, column));
      assert ColsOf(rows[..a + 1])[..a] == ColsOf(rows[..a]);
    }
    assert rows[..|rows|] == rows;
  }

  /** Runs the queries of view `j` with the parent keys of this moment, unless there are none. */
  method Query(s: Schema, db: Db, cs: seq<Collector>, j: nat) returns (read: seq<Cols>, ok: bool)
    requires ValidSchema(s) && j < |s| == |cs|
    ensures read == Planned(s, db, SlicesOf(cs), j)
    ensures !ok ==> NeedsParent(s, j) && read == []
  {
    if !NeedsParent(s, j) {
      return Rows(db, s[j].table, j), true;
    }
    var values := ParentPlaceholders(cs[s[j].parent], s[j].column);
    if values == [] {
      return [], false;
    }
    ghost var queried;
    read, queried := ReadObjects(Rows(db, s[j].table, j), s[j].ofColumn, values, s[j].batch);
    ok := true;
  }

  /** One child goes into the holder of every parent row that has its key. */
  method AttachTo(parent: Collector, card: Cardinality, holder: string, column: string, child: Row, key: Value)
    requires parent.Valid() && column in parent.columns
    modifies parent.dest
    ensures forall a: nat :: a < |parent.dest| ==>
              parent.dest[a].held == Attached(card, old(parent.dest[a].held), holder, child,
                                              Count(ParentKeys(parent.dest[a].cols, column), key))
  {
    if card.Many? {
      VisitorMany(parent, holder, column, child, key);
    } else {
      VisitorOne(parent, holder, column, child, key);
    }
  }

  method Attach(s: Schema, cs: seq<Collector>, j: nat, child: Row, ghost rows: set<Row>)
    requires Ready(s, cs) && Owned(s, SlicesOf(cs), HoldersOf(rows)) && 0 < j < |s|
    modifies cs[s[j].parent].dest
    ensures Ready(s, cs) && SlicesOf(cs) == old(SlicesOf(cs))
    ensures HoldersOf(rows) == old(JoinedFor(s, SlicesOf(cs), HoldersOf(rows), j, child))
  {
    var parent := cs[s[j].parent];
    assert s[j].column in parent.columns by {
      LinkColumnsAre(s, s[j].parent, |s|);
    }
    AttachTo(parent, s[j].card, s[j].holder, s[j].column, child, NormalizeKey(Col(child.cols, s[j].ofColumn)));
  }

  /** A row of view `j` is scanned into the slice and indexed. */
  method Scan(s: Schema, cs: seq<Collector>, j: nat, cols: Cols, ghost rows: set<Row>) returns (row: Row)
    requires ValidSchema(s) && Ready(s, cs) && j < |s|
    requires forall k :: IsChild(s, j, k) ==> Indexable(Col(cols, s[k].column))
    modifies cs[j]
    ensures fresh(row) && row.cols == cols && row.view == j && row.position == |old(cs[j].dest)|
    ensures Ready(s, cs) && SlicesOf(cs) == old(SlicesOf(cs))[j := old(cs[j].dest) + [row]]
    ensures row.held == map[]
  {
    row := new Row(j, |cs[j].dest|, cols);
    LinkColumnsAre(s, j, |s|);
    cs[j].Collect(row);
  }

  /** The next row of view `j` is visited; attaching it is left to the merge when the parent reads in parallel. */
  method Visit(s: Schema, cs: seq<Collector>, j: nat, cols: Cols, ghost rows: set<Row>) returns (row: Row)
    requires Ready(s, cs) && Owned(s, SlicesOf(cs), HoldersOf(rows)) && j < |s|
    requires forall k :: IsChild(s, j, k) ==> Indexable(Col(cols, s[k].column))
    modifies cs[j]
    modifies if NeedsParent(s, j) then cs[s[j].parent].dest else []
    ensures fresh(row) && row.cols == cols && row.view == j && row.position == |old(cs[j].dest)|
    ensures Ready(s, cs) && SlicesOf(cs) == old(SlicesOf(cs))[j := old(cs[j].dest) + [row]]
    ensures HoldersOf(rows + {row}) == VisitedHolders(s, old(SlicesOf(cs)), old(HoldersOf(rows)), j, row)
  {
    row := Scan(s, cs, j, cols, rows);
    assert HoldersOf(rows + {row}) == old(HoldersOf(rows))[row := map[]];
    if NeedsParent(s, j) {
      ScannedOwned(s, old(SlicesOf(cs)), old(HoldersOf(rows)), j, row);
      Attach(s, cs, j, row, rows + {row});
    }
  }

  // ----- reading, in any order -----

  function Unvisited(todo: Todo): nat {
    if todo == [] then 0
    else Unvisited(todo[..|todo| - 1]) + if todo[|todo| - 1].Some? then |todo[|todo| - 1].value| else 0
  }

  lemma {:induction false} VisitShrinks(todo: Todo, j: nat, rest: seq<Cols>)
    requires j < |todo| && todo[j].Some? && |rest| < |todo[j].value|
    ensures Unvisited(todo[j := Some(rest)]) < Unvisited(todo)
    decreases |todo|
  {
    var n := |todo| - 1;
    if j < n {
      VisitShrinks(todo[..n], j, rest);
      assert todo[j := Some(rest)][..n] == todo[..n][j := Some(rest)];
    } else {
      assert todo[j := Some(rest)][..n] == todo[..n];
    }
  }

  /** Every row still to be visited can be indexed by the link columns of its view. */
  lemma PendingIndexable(s: Schema, db: Db, slices: Slices, todo: Todo, j: nat, k: nat)
    requires ValidSchema(s) && Readable(s, db) && |s| == |slices| && AllProgress(s, db, slices, todo)
    requires IsChild(s, j, k) && todo[j].Some? && todo[j].value != []
    ensures Indexable(Col(todo[j].value[0], s[k].column))
  {
    assert Progress(s, db, slices, todo, j);
    var row := todo[j].value[0];
    assert row in ColsOf(slices[j]) + todo[j].value;
    if NeedsParent(s, j) {
      SelectAllOnly(Rows(db, s[j].table, j), s[j].ofColumn,
                    Batches(Placeholders(ColsOf(slices[s[j].parent]), s[j].column), s[j].batch));
    }
    assert row in Rows(db, s[j].table, j);
  }

  /** The rows and their holders, between two steps. */
  ghost predicate Picture(s: Schema, db: Db, slices: Slices, holders: Holders, todo: Todo) {
    && ValidSchema(s) && Owned(s, slices, holders)
    && AllLinked(s, slices, holders, {})
    && AllProgress(s, db, slices, todo)
  }

  ghost predicate Reading(s: Schema, db: Db, cs: seq<Collector>, rows: set<Row>, todo: Todo)
    reads cs, rows
  {
    Ready(s, cs) && Picture(s, db, SlicesOf(cs), HoldersOf(rows), todo)
  }

  method StepVisit(s: Schema, db: Db, cs: seq<Collector>, ghost rows: set<Row>, todo: Todo, j: nat)
    returns (ghost rows': set<Row>, todo': Todo)
    requires Reading(s, db, cs, rows, todo) && Readable(s, db)
    requires j < |s| == |todo| && todo[j].Some? && todo[j].value != []
    modifies cs, rows
    ensures Reading(s, db, cs, rows', todo') && rows <= rows' && fresh(rows' - rows)
    ensures todo' == todo[j := Some(todo[j].value[1..])]
  {
    ghost var slices, holders := SlicesOf(cs), HoldersOf(rows);
    forall k: nat | IsChild(s, j, k)
      ensures Indexable(Col(todo[j].value[0], s[k].column))
      ensures !s[j].parallel ==> slices[k] == []
    {
      PendingIndexable(s, db, slices, todo, j, k);
      if !s[j].parallel {
        WaitingChildren(s, db, slices, todo, j, k);
      }
    }
    assert j > 0 ==> forall r :: r in slices[s[j].parent] ==> r in holders;
    var row := Visit(s, cs, j, todo[j].value[0], rows);
    rows', todo' := rows + {row}, todo[j := Some(todo[j].value[1..])];
    VisitedLinks(s, slices, holders, {}, j, row);
    VisitProgress(s, db, slices, SlicesOf(cs), todo, todo', j, row);
  }

  // ----- the goroutines -----

  /** What is to be visited fits the point that the goroutine of a view has reached. */
  ghost predicate Follows(proc: P.Proc, rest: Option<seq<Cols>>) {
    && (proc.complete ==> rest == Some([]))
    && match proc.pc
       case Absent => rest.None?
       case Announced => rest.None?
       case Started => rest.None?
       case Waiting => rest.None?
       case Passed => rest.None?
       case Querying => rest.Some?
       case _ => rest == Some([])
  }

  /** A state that the protocol can reach without an error, and what is left to be visited in it. */
  ghost predicate Scheduled(s: Schema, run: P.Run, st: P.State, todo: Todo) {
    && P.Tree(s) && P.Reaches(s, run, st) && P.Inv(s, st) && !st.err && |todo| == |s|
    && forall i: nat :: i < |s| ==> Follows(st.procs[i], todo[i])
  }

  /** The step of a goroutine that is not in the middle of its rows, and the rows it starts with or has left. */
  ghost predicate Steps(s: Schema, st: P.State, todo: Todo, i: nat, ok: bool, rest: Option<seq<Cols>>)
    requires P.Tree(s) && |st.procs| == |s| == |todo|
  {
    && P.Enabled(s, st, i)
    && match st.procs[i].pc
       case Passed => rest == Some([]) || (ok && rest.Some?)
       case Querying => ok && rest == todo[i] == Some([])
       case _ => ok && rest == todo[i]
  }

  lemma ScheduledStep(s: Schema, run: P.Run, st: P.State, todo: Todo, i: nat, ok: bool, rest: Option<seq<Cols>>)
    requires Scheduled(s, run, st, todo) && i < |s| && Steps(s, st, todo, i, ok, rest)
    ensures Scheduled(s, P.Then(run, i, ok), P.Apply(s, st, i, ok), todo[i := rest])
  {
    var st', todo' := P.Apply(s, st, i, ok), todo[i := rest];
    P.StepInv(s, st, i, ok);
    forall k: nat | k < |s|
      ensures Follows(st'.procs[k], todo'[k])
    {
      P.StepOf(s, st, i, ok, k);
      assert Follows(st.procs[k], todo[k]);
    }
  }

  /** A child takes its parent's keys when the parent has been visited to the end: the protocol makes it wait. */
  lemma TakesAfterVisits(s: Schema, run: P.Run, st: P.State, todo: Todo, j: nat)
    requires ValidSchema(s) && Scheduled(s, run, st, todo) && P.WellPlaced(s)
    requires j < |s| && st.procs[j].pc.Passed? && NeedsParent(s, j)
    ensures Complete(todo, s[j].parent)
  {
    P.TakesAfterFetched(s, run, st, j);
    assert Follows(st.procs[s[j].parent], todo[s[j].parent]);
  }

  /** When all goroutines have finished, every view was read to the end. */
  lemma AllComplete(s: Schema, run: P.Run, st: P.State, todo: Todo, i: nat)
    requires Scheduled(s, run, st, todo) && P.Finished(st) && i < |s|
    ensures Complete(todo, i)
  {
    P.AllThere(s, st, i);
    assert Follows(st.procs[i], todo[i]);
  }

  /** A step that takes no keys leaves the rows as they are. */
  lemma QuietStep(s: Schema, run: P.Run, st: P.State, todo: Todo, i: nat)
    requires Scheduled(s, run, st, todo) && i < |s| && P.Enabled(s, st, i) && !st.procs[i].pc.Passed?
    requires st.procs[i].pc.Querying? ==> todo[i] == Some([])
    ensures Scheduled(s, P.Then(run, i, true), P.Apply(s, st, i, true), todo)
    ensures P.Remaining(P.Apply(s, st, i, true).procs) < P.Remaining(st.procs)
  {
    ScheduledStep(s, run, st, todo, i, true, todo[i]);
    assert todo[i := todo[i]] == todo;
    P.StepFalls(s, st, i, true);
  }

  lemma QueryStep(s: Schema, run: P.Run, st: P.State, todo: Todo, i: nat, ok: bool, read: seq<Cols>)
    requires Scheduled(s, run, st, todo) && i < |s| && st.procs[i].pc.Passed? && (!ok ==> read == [])
    ensures P.Enabled(s, st, i) && P.Remaining(P.Apply(s, st, i, ok).procs) < P.Remaining(st.procs)
    ensures Scheduled(s, P.Then(run, i, ok), P.Apply(s, st, i, ok), todo[i := Some(read)])
  {
    ScheduledStep(s, run, st, todo, i, ok, Some(read));
    P.StepFalls(s, st, i, ok);
  }

  /** A goroutine has passed its wait: it takes the keys of its parent and queries. */
  method StepQuery(s: Schema, db: Db, cs: seq<Collector>, ghost rows: set<Row>, todo: Todo, ghost run: P.Run,
                   st: P.State, i: nat)
    returns (todo': Todo, ghost run': P.Run, st': P.State)
    requires Reading(s, db, cs, rows, todo) && Scheduled(s, run, st, todo) && P.WellPlaced(s)
    requires i < |s| && st.procs[i].pc.Passed?
    ensures Reading(s, db, cs, rows, todo') && Scheduled(s, run', st', todo')
    ensures P.Remaining(st'.procs) < P.Remaining(st.procs)
  {
    ghost var slices, holders := SlicesOf(cs), HoldersOf(rows);
    var read, ok := Query(s, db, cs, i);
    assert SlicesOf(cs) == slices && HoldersOf(rows) == holders;
    todo', run', st' := todo[i := Some(read)], P.Then(run, i, ok), P.Apply(s, st, i, ok);
    QueriedPicture(s, db, slices, holders, run, st, todo, i, read);
    QueryStep(s, run, st, todo, i, ok, read);
  }

  /** What a goroutine that has passed its wait queries is what is planned, now and for good. */
  lemma QueriedPicture(s: Schema, db: Db, slices: Slices, holders: Holders, run: P.Run, st: P.State, todo: Todo, i: nat,
                       read: seq<Cols>)
    requires Picture(s, db, slices, holders, todo) && Scheduled(s, run, st, todo) && P.WellPlaced(s)
    requires i < |s| && st.procs[i].pc.Passed? && read == Planned(s, db, slices, i)
    ensures Picture(s, db, slices, holders, todo[i := Some(read)])
  {
    assert Follows(st.procs[i], todo[i]);
    if NeedsParent(s, i) {
      TakesAfterVisits(s, run, st, todo, i);
    }
    StartProgress(s, db, slices, todo, todo[i := Some(read)], i, read);
  }

  /** Some goroutine makes its next step, or one that queries visits its next row. */
  method StepAny(s: Schema, db: Db, cs: seq<Collector>, ghost rows: set<Row>, todo: Todo, ghost run: P.Run, st: P.State)
    returns (ghost rows': set<Row>, todo': Todo, ghost run': P.Run, st': P.State)
    requires Reading(s, db, cs, rows, todo) && Readable(s, db) && Scheduled(s, run, st, todo) && P.WellPlaced(s)
    requires !P.Finished(st)
    modifies cs, rows
    ensures Reading(s, db, cs, rows', todo') && Scheduled(s, run', st', todo') && rows <= rows' && fresh(rows' - rows)
    ensures P.Remaining(st'.procs) < P.Remaining(st.procs) || (st' == st && Unvisited(todo') < Unvisited(todo))
  {
    rows', todo', run', st' := rows, todo, run, st;
    ghost var k := P.Progresses(s, st);
    var i: nat :| i < |s| && P.Enabled(s, st, i);
    assert Follows(st.procs[i], todo[i]);
    if st.procs[i].pc.Passed? {
      todo', run', st' := StepQuery(s, db, cs, rows, todo, run, st, i);
    } else if st.procs[i].pc.Querying? && todo[i].value != [] {
      VisitShrinks(todo, i, todo[i].value[1..]);
      VisitFollows(s, run, st, todo, i);
      rows', todo' := StepVisit(s, db, cs, rows, todo, i);
    } else {
      QuietStep(s, run, st, todo, i);
      run', st' := P.Then(run, i, true), P.Apply(s, st, i, true);
    }
  }

  lemma StartScheduled(s: Schema)
    requires ValidSchema(s)
    ensures P.Tree(s) && Scheduled(s, P.Start, P.Init(s), seq(|s|, _ => None))
  {
    P.InitInv(s);
  }

  /** Reads the tree: the goroutines make their steps and visits in any order, until all have finished. */
  method ReadAll(s: Schema, db: Db) returns (cs: seq<Collector>, ghost rows: set<Row>)
    requires ValidSchema(s) && Readable(s, db) && P.WellPlaced(s)
    ensures fresh(cs) && fresh(rows)
    ensures Ready(s, cs) && Owned(s, SlicesOf(cs), HoldersOf(rows))
    ensures AllLinked(s, SlicesOf(cs), HoldersOf(rows), {})
    ensures forall i: nat :: i < |s| ==> ColsOf(SlicesOf(cs)[i]) == Planned(s, db, SlicesOf(cs), i)
  {
    var todo, st;
    cs, todo, st := Start(s, db);
    rows := RunToEnd(s, db, cs, {}, todo, P.Start, st);
  }

  /** Collectors that have read nothing, before the first step. */
  method Start(s: Schema, db: Db) returns (cs: seq<Collector>, todo: Todo, st: P.State)
    requires ValidSchema(s)
    ensures fresh(cs) && Reading(s, db, cs, {}, todo) && Scheduled(s, P.Start, st, todo)
  {
    cs := NewCollectors(s);
    todo, st := Begin(s);
    StartPicture(s, db, SlicesOf(cs), todo);
    assert HoldersOf({}) == map[];
  }

  method Begin(s: Schema) returns (todo: Todo, st: P.State)
    requires ValidSchema(s)
    ensures Scheduled(s, P.Start, st, todo) && forall i: nat :: i < |s| ==> todo[i].None?
  {
    todo, st := seq(|s|, _ => None), P.Init(s);
    StartScheduled(s);
  }

  method RunToEnd(s: Schema, db: Db, cs: seq<Collector>, ghost rows0: set<Row>, todo0: Todo, ghost run0: P.Run,
                  st0: P.State)
    returns (ghost rows: set<Row>)
    requires Reading(s, db, cs, rows0, todo0) && Readable(s, db) && Scheduled(s, run0, st0, todo0) && P.WellPlaced(s)
    modifies cs, rows0
    ensures rows0 <= rows && fresh(rows - rows0) && Ready(s, cs)
    ensures Owned(s, SlicesOf(cs), HoldersOf(rows)) && AllLinked(s, SlicesOf(cs), HoldersOf(rows), {})
    ensures forall i: nat :: i < |s| ==> ColsOf(SlicesOf(cs)[i]) == Planned(s, db, SlicesOf(cs), i)
  {
    rows := rows0;
    var todo, st := todo0, st0;
    ghost var run := run0;
    while !P.Finished(st)
      invariant rows0 <= rows && fresh(rows - rows0)
      invariant Reading(s, db, cs, rows, todo) && Scheduled(s, run, st, todo)
      decreases P.Remaining(st.procs), Unvisited(todo)
    {
      rows, todo, run, st := StepAny(s, db, cs, rows, todo, run, st);
    }
    AllRead(s, db, SlicesOf(cs), HoldersOf(rows), run, st, todo);
  }

  lemma AllRead(s: Schema, db: Db, slices: Slices, holders: Holders, run: P.Run, st: P.State, todo: Todo)
    requires Picture(s, db, slices, holders, todo) && Scheduled(s, run, st, todo) && P.Finished(st)
    ensures forall i: nat :: i < |s| ==> ColsOf(slices[i]) == Planned(s, db, slices, i)
  {
    forall i: nat | i < |s|
      ensures ColsOf(slices[i]) == Planned(s, db, slices, i)
    {
      AllComplete(s, run, st, todo, i);
      assert Progress(s, db, slices, todo, i);
    }
  }

  lemma StartPicture(s: Schema, db: Db, slices: Slices, todo: Todo)
    requires ValidSchema(s) && |slices| == |todo| == |s|
    requires forall i: nat :: i < |s| ==> slices[i] == [] && todo[i].None?
    ensures Picture(s, db, slices, map[], todo)
  {
    assert AllLinked(s, slices, map[], {});
    forall i: nat | i < |s| ensures Progress(s, db, slices, todo, i) {}
  }

  /** A visit makes no step of the protocol. */
  lemma VisitFollows(s: Schema, run: P.Run, st: P.State, todo: Todo, i: nat)
    requires Scheduled(s, run, st, todo) && i < |s| && st.procs[i].pc.Querying? && todo[i].Some? && todo[i].value != []
    ensures Scheduled(s, run, st, todo[i := Some(todo[i].value[1..])])
  {
    assert Follows(st.procs[i], todo[i]);
    forall k: nat | k < |s|
      ensures Follows(st.procs[k], todo[i := Some(todo[i].value[1..])][k])
    {
      assert Follows(st.procs[k], todo[k]);
    }
  }

  // ----- merging what was read in parallel -----

  /** Attaches every row of view `j` to its parents, in slice order. */
  method MergeToParent(s: Schema, cs: seq<Collector>, j: nat, ghost rows: set<Row>, ghost merged: set<nat>)
    requires ValidSchema(s) && Ready(s, cs) && Owned(s, SlicesOf(cs), HoldersOf(rows)) && 0 < j < |s|
    requires AllLinked(s, SlicesOf(cs), HoldersOf(rows), merged) && j !in merged && !NeedsParent(s, j)
    modifies cs[s[j].parent].dest
    ensures Ready(s, cs) && SlicesOf(cs) == old(SlicesOf(cs))
    ensures Owned(s, SlicesOf(cs), HoldersOf(rows))
    ensures AllLinked(s, SlicesOf(cs), HoldersOf(rows), merged + {j})
  {
    ghost var slices := SlicesOf(cs);
    var dest := cs[j].dest;
    assert Linked(s, slices, HoldersOf(rows), merged, j);
    for i := 0 to |dest|
      invariant Ready(s, cs) && SlicesOf(cs) == slices
      invariant Merging(s, slices, HoldersOf(rows), merged, j, dest[..i])
    {
      MergedRow(s, slices, HoldersOf(rows), merged, j, dest[..i], dest[i]);
      PrefixGrows(dest, i);
      Attach(s, cs, j, dest[i], rows);
    }
    PrefixAll(dest);
    MergedLinks(s, slices, HoldersOf(rows), merged, j);
  }

  lemma PrefixGrows(xs: seq<Row>, i: nat)
    requires i < |xs|
    ensures xs[..i] + [xs[i]] == xs[..i + 1]
  {}

  lemma PrefixAll(xs: seq<Row>)
    ensures xs[..|xs|] == xs
  {}

  /** The first rows of view `j` are attached, and nothing else has changed. */
  ghost predicate Merging(s: Schema, slices: Slices, holders: Holders, merged: set<nat>, j: nat, done: seq<Row>) {
    && Owned(s, slices, holders) && 0 < j < |s|
    && HolderHas(s, slices, holders, j, done) && OthersLinked(s, slices, holders, merged, j)
  }

  lemma MergedRow(s: Schema, slices: Slices, holders: Holders, merged: set<nat>, j: nat, done: seq<Row>, child: Row)
    requires Merging(s, slices, holders, merged, j, done)
    ensures Merging(s, slices, JoinedFor(s, slices, holders, j, child), merged, j, done + [child])
  {
    JoinedOwn(s, slices, holders, j, done, child);
    JoinedLinks(s, slices, holders, merged, j, child);
  }

  lemma MergedLinks(s: Schema, slices: Slices, holders: Holders, merged: set<nat>, j: nat)
    requires Owned(s, slices, holders) && 0 < j < |s|
    requires HolderHas(s, slices, holders, j, slices[j]) && OthersLinked(s, slices, holders, merged, j)
    ensures AllLinked(s, slices, holders, merged + {j})
  {
    forall k: nat | 0 < k < |s|
      ensures Linked(s, slices, holders, merged + {j}, k)
    {
      if k != j {
        assert Linked(s, slices, holders, merged, k);
      }
    }
  }

  /** The views whose rows are attached once the subtrees of the children of `i` before `j` have been merged. */
  ghost function MergedBelow(s: Schema, i: nat, j: nat): set<nat>
    requires ValidSchema(s) && i < |s| && j <= |s|
  {
    set k: nat | k < |s| && UnderEarlier(s, i, j, k)
  }

  ghost predicate UnderEarlier(s: Schema, i: nat, j: nat, k: nat)
    requires ValidSchema(s) && k < |s|
  {
    exists c: nat :: c < j && IsChild(s, i, c) && Under(s, c, k)
  }

  ghost function Subtree(s: Schema, i: nat): set<nat>
    requires ValidSchema(s) && i < |s|
  {
    set k: nat | k < |s| && Under(s, i, k)
  }

  lemma {:induction false} UnderTransitive(s: Schema, i: nat, c: nat, k: nat)
    requires ValidSchema(s) && IsChild(s, i, c) && k < |s| && Under(s, c, k)
    ensures Under(s, i, k) && k > i
    decreases k
  {
    if k != c {
      UnderTransitive(s, i, c, s[k].parent);
    }
  }

  lemma {:induction false} UnderChild(s: Schema, i: nat, k: nat) returns (c: nat)
    requires ValidSchema(s) && k < |s| && Under(s, i, k) && k != i
    ensures IsChild(s, i, c) && Under(s, c, k)
    decreases k
  {
    if s[k].parent == i {
      c := k;
    } else {
      c := UnderChild(s, i, s[k].parent);
    }
  }

  lemma MergedChild(s: Schema, i: nat, j: nat)
    requires ValidSchema(s) && IsChild(s, i, j)
    ensures Subtree(s, j) <= Subtree(s, i)
    ensures MergedBelow(s, i, j) !! Subtree(s, j)
  {
    forall k | k in Subtree(s, j)
      ensures k in Subtree(s, i) && k !in MergedBelow(s, i, j)
    {
      UnderTransitive(s, i, j, k);
      if c: nat :| c < j && IsChild(s, i, c) && Under(s, c, k) {
        UnderOne(s, i, c, j, k);
      }
    }
  }

  lemma UnderEarlierStep(s: Schema, i: nat, j: nat, k: nat)
    requires ValidSchema(s) && i < j < |s| && k < |s|
    ensures UnderEarlier(s, i, j + 1, k) <==> UnderEarlier(s, i, j, k) || (s[j].parent == i && Under(s, j, k))
  {
    assert s[j].parent == i <==> IsChild(s, i, j);
  }

  lemma MergedStep(s: Schema, i: nat, j: nat)
    requires ValidSchema(s) && i < j < |s|
    ensures MergedBelow(s, i, j + 1) == MergedBelow(s, i, j) + if s[j].parent == i then Subtree(s, j) else {}
  {
    forall k: nat | k < |s|
      ensures UnderEarlier(s, i, j + 1, k) <==> UnderEarlier(s, i, j, k) || (s[j].parent == i && Under(s, j, k))
    {
      UnderEarlierStep(s, i, j, k);
    }
  }

  lemma MergedAll(s: Schema, i: nat)
    requires ValidSchema(s) && i < |s|
    ensures Subtree(s, i) == MergedBelow(s, i, |s|) + {i}
    ensures i !in MergedBelow(s, i, |s|)
  {
    forall k | k in Subtree(s, i) && k != i
      ensures k in MergedBelow(s, i, |s|)
    {
      var c := UnderChild(s, i, k);
    }
    forall k | k in MergedBelow(s, i, |s|)
      ensures k in Subtree(s, i) && k != i
    {
      var c: nat :| c < |s| && IsChild(s, i, c) && Under(s, c, k);
      UnderTransitive(s, i, c, k);
    }
  }

  lemma LinkedAnyway(s: Schema, slices: Slices, holders: Holders, merged: set<nat>, i: nat)
    requires Owned(s, slices, holders) && i < |s| && AllLinked(s, slices, holders, merged)
    requires i == 0 || NeedsParent(s, i)
    ensures AllLinked(s, slices, holders, merged + {i})
  {
    forall k: nat | 0 < k < |s|
      ensures Linked(s, slices, holders, merged + {i}, k)
    {
      assert Linked(s, slices, holders, merged, k);
    }
  }

  /** `MergeData`: children first, then the collector's own rows, bottom up. */
  method MergeData(s: Schema, cs: seq<Collector>, i: nat, ghost rows: set<Row>, ghost merged: set<nat>)
    requires ValidSchema(s) && Ready(s, cs) && Owned(s, SlicesOf(cs), HoldersOf(rows)) && i < |s|
    requires AllLinked(s, SlicesOf(cs), HoldersOf(rows), merged) && merged !! Subtree(s, i)
    modifies rows
    ensures Ready(s, cs) && SlicesOf(cs) == old(SlicesOf(cs))
    ensures Owned(s, SlicesOf(cs), HoldersOf(rows))
    ensures AllLinked(s, SlicesOf(cs), HoldersOf(rows), merged + Subtree(s, i))
    decreases |s| - i, 1
  {
    ghost var slices := SlicesOf(cs);
    MergeChildren(s, cs, i, rows, merged);
    MergedAll(s, i);
    ghost var below := merged + MergedBelow(s, i, |s|);
    if i > 0 && !NeedsParent(s, i) {
      assert forall r :: r in slices[s[i].parent] ==> r in HoldersOf(rows);
      MergeToParent(s, cs, i, rows, below);
    } else {
      LinkedAnyway(s, slices, HoldersOf(rows), below, i);
    }
    assert merged + Subtree(s, i) == below + {i};
  }

  method MergeChildren(s: Schema, cs: seq<Collector>, i: nat, ghost rows: set<Row>, ghost merged: set<nat>)
    requires ValidSchema(s) && Ready(s, cs) && Owned(s, SlicesOf(cs), HoldersOf(rows)) && i < |s|
    requires AllLinked(s, SlicesOf(cs), HoldersOf(rows), merged) && merged !! Subtree(s, i)
    modifies rows
    ensures Ready(s, cs) && SlicesOf(cs) == old(SlicesOf(cs))
    ensures Owned(s, SlicesOf(cs), HoldersOf(rows))
    ensures AllLinked(s, SlicesOf(cs), HoldersOf(rows), merged + MergedBelow(s, i, |s|))
    decreases |s| - i, 0
  {
    ghost var slices, done := SlicesOf(cs), merged;
    NothingMerged(s, i, merged);
    for j := i + 1 to |s|
      invariant Ready(s, cs) && SlicesOf(cs) == slices
      invariant Owned(s, slices, HoldersOf(rows))
      invariant done == merged + MergedBelow(s, i, j)
      invariant AllLinked(s, slices, HoldersOf(rows), done)
    {
      done := MergeChild(s, cs, i, j, rows, merged, done, slices);
    }
  }

  /** Merges the subtree of view `j` if it is a child of view `i`. */
  method MergeChild(s: Schema, cs: seq<Collector>, i: nat, j: nat, ghost rows: set<Row>, ghost merged: set<nat>,
                    ghost done: set<nat>, ghost slices: Slices)
    returns (ghost done': set<nat>)
    requires ValidSchema(s) && Ready(s, cs) && SlicesOf(cs) == slices && i < j < |s|
    requires Owned(s, slices, HoldersOf(rows)) && AllLinked(s, slices, HoldersOf(rows), done)
    requires merged !! Subtree(s, i) && done == merged + MergedBelow(s, i, j)
    modifies rows
    ensures Ready(s, cs) && SlicesOf(cs) == slices
    ensures Owned(s, slices, HoldersOf(rows)) && AllLinked(s, slices, HoldersOf(rows), done')
    ensures done' == merged + MergedBelow(s, i, j + 1)
    decreases |s| - j, 2
  {
    MergedNext(s, i, j, merged, done);
    done' := done;
    if s[j].parent == i {
      MergeData(s, cs, j, rows, done);
      done' := done + Subtree(s, j);
    }
  }

  lemma NothingMerged(s: Schema, i: nat, merged: set<nat>)
    requires ValidSchema(s) && i < |s|
    ensures merged == merged + MergedBelow(s, i, i + 1)
  {
    assert MergedBelow(s, i, i + 1) == {};
  }

  /** The next child's subtree is still to be merged, and is all that the next step adds. */
  lemma MergedNext(s: Schema, i: nat, j: nat, merged: set<nat>, done: set<nat>)
    requires ValidSchema(s) && i < j < |s| && merged !! Subtree(s, i) && done == merged + MergedBelow(s, i, j)
    ensures s[j].parent == i ==> done !! Subtree(s, j) && merged + MergedBelow(s, i, j + 1) == done + Subtree(s, j)
    ensures s[j].parent != i ==> merged + MergedBelow(s, i, j + 1) == done
  {
    MergedStep(s, i, j);
    if IsChild(s, i, j) {
      MergedChild(s, i, j);
    }
  }

  // ----- the result, followed through the pointers -----

  /** The object that a row has become: its columns, and, through its holders, the objects of the rows it points to. */
  ghost function ObjectOf(s: Schema, holders: Holders, i: nat, row: Row): Obj
    requires ValidSchema(s) && i < |s|
    decreases |s| - i, 0
  {
    Obj(row.cols, map j | i < j < |s| && IsChild(s, i, j) :: HeldObjects(s, holders, j, row))
  }

  ghost function HeldObjects(s: Schema, holders: Holders, j: nat, row: Row): seq<Obj>
    requires ValidSchema(s) && 0 < j < |s|
    decreases |s| - j, 1
  {
    var children := if row in holders then HeldIn(holders[row], s[j].holder) else [];
    seq(|children|, t requires 0 <= t < |children| => ObjectOf(s, holders, j, children[t]))
  }

  /** Everything was visited and every child of every view is where it belongs. */
  ghost predicate Finished(s: Schema, db: Db, slices: Slices, holders: Holders)
    requires Owned(s, slices, holders)
  {
    && (forall i: nat :: i < |s| ==> ColsOf(slices[i]) == Planned(s, db, slices, i))
    && (forall j: nat :: 0 < j < |s| ==> HolderHas(s, slices, holders, j, slices[j]))
  }

  lemma HeldAssembled(s: Schema, db: Db, slices: Slices, holders: Holders, i: nat, j: nat, a: nat)
    requires Owned(s, slices, holders) && Finished(s, db, slices, holders)
    requires IsChild(s, i, j) && a < |slices[i]|
    requires forall c :: 0 <= c < |slices[j]| ==>
               ObjectOf(s, holders, j, slices[j][c]) == Assemble(s, db, j, ColsOf(slices[j]))[c]
    ensures HeldObjects(s, holders, j, slices[i][a]) ==
            AssembleHeld(s, db, i, j, ColsOf(slices[i]), slices[i][a].cols)
  {
    var row, children := slices[i][a], ColsOf(slices[j]);
    assert children == Planned(s, db, slices, j) == Fetch(s, db, j, ColsOf(slices[i]));
    var at := HeldAt(s, j, row.cols, children);
    assert HolderHas(s, slices, holders, j, slices[j]);
    assert HeldIn(holders[row], s[j].holder) == Pick(slices[j], at);
    forall t | 0 <= t < |at|
      ensures ObjectOf(s, holders, j, Pick(slices[j], at)[t]) == Pick(Assemble(s, db, j, children), at)[t]
    {
      assert at[t] in at;
    }
  }

  /** What the pointers lead to from the rows of view `i` is the object the level-by-level specification builds. */
  lemma {:induction false} ObjectsAssembled(s: Schema, db: Db, slices: Slices, holders: Holders, i: nat)
    requires Owned(s, slices, holders) && Finished(s, db, slices, holders) && i < |s|
    ensures forall a :: 0 <= a < |slices[i]| ==>
              ObjectOf(s, holders, i, slices[i][a]) == Assemble(s, db, i, ColsOf(slices[i]))[a]
    decreases |s| - i
  {
    forall a: nat, j: nat | a < |slices[i]| && IsChild(s, i, j)
      ensures HeldObjects(s, holders, j, slices[i][a]) ==
              AssembleHeld(s, db, i, j, ColsOf(slices[i]), slices[i][a].cols)
    {
      ObjectsAssembled(s, db, slices, holders, j);
      HeldAssembled(s, db, slices, holders, i, j, a);
    }
    forall a: nat | a < |slices[i]|
      ensures ObjectOf(s, holders, i, slices[i][a]) == Assemble(s, db, i, ColsOf(slices[i]))[a]
    {
      SameObj(ObjectOf(s, holders, i, slices[i][a]), Assemble(s, db, i, ColsOf(slices[i]))[a]);
    }
  }

  /**
   Reads the tree and merges: the root rows lead to exactly the specified objects, under every schedule of the
   goroutines. The placement is the one that Protocol shows to be needed: without it a child can take its parent's keys
   before they are there. The objects are those of a nested loop in memory if no parent spans two batches, and those
   that the database would join if moreover the key columns have comparable types.
   */
  method Read(s: Schema, db: Db) returns (result: seq<Row>, ghost rows: set<Row>)
    requires ValidSchema(s) && Readable(s, db) && P.WellPlaced(s)
    ensures ColsOf(result) == Rows(db, s[0].table, 0)
    ensures forall a :: 0 <= a < |result| ==>
              ObjectOf(s, HoldersOf(rows), 0, result[a]) == Assemble(s, db, 0, Rows(db, s[0].table, 0))[a]
    ensures Aligned(s, db, 0, Rows(db, s[0].table, 0)) ==> forall a :: 0 <= a < |result| ==>
              ObjectOf(s, HoldersOf(rows), 0, result[a]) == NestedLoop(s, db, 0, Rows(db, s[0].table, 0)[a])
    ensures forall links :: Aligned(s, db, 0, Rows(db, s[0].table, 0)) && JoinsAsSql(s, db, links) ==>
              forall a :: 0 <= a < |result| ==>
                ObjectOf(s, HoldersOf(rows), 0, result[a]) == SqlLoop(s, db, 0, Rows(db, s[0].table, 0)[a])
  {
    var cs;
    cs, rows := ReadAll(s, db);
    MergeData(s, cs, 0, rows, {});
    result := cs[0].dest;
    ghost var slices, holders := SlicesOf(cs), HoldersOf(rows);
    forall j: nat | 0 < j < |s|
      ensures HolderHas(s, slices, holders, j, slices[j])
    {
      UnderRoot(s, j);
      assert Linked(s, slices, holders, {} + Subtree(s, 0), j);
    }
    assert Finished(s, db, slices, holders);
    ObjectsAssembled(s, db, slices, holders, 0);
    if Aligned(s, db, 0, Rows(db, s[0].table, 0)) {
      AssembleIsNestedLoop(s, db, 0, Rows(db, s[0].table, 0));
      forall links | JoinsAsSql(s, db, links) {
        AssembleIsSql(s, db, links);
      }
    }
  }
}
