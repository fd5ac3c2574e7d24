/** What `BuildTree` returns is a forest of all rows, and building it again changes nothing (view/collector.go). */
module Forest {
  import opened Keys
  import opened Lists
  import opened SelfTree

  // ----- chains of ancestors -----

  lemma ReachesStep(links: Links, x: nat, i: nat)
    requires WellLinked(links) && x < |links|
    ensures Reaches(links, x, i) <==> x == i || (links[x].Some? && Reaches(links, links[x].value, i))
  {
    if Reaches(links, x, i) {
      var n: nat :| Climbs(links, x, n, i);
      if n > 0 {
        assert Climbs(links, links[x].value, n - 1, i);
      }
    } else {
      assert !Climbs(links, x, 0, i);
      if links[x].Some? && Reaches(links, links[x].value, i) {
        var n: nat :| Climbs(links, links[x].value, n, i);
        assert Climbs(links, x, n + 1, i);
      }
    }
  }

  /** Of two ancestors of one row, one is an ancestor of the other. */
  lemma {:induction false} OneAbove(links: Links, x: nat, c: nat, d: nat, n: nat, m: nat)
    requires WellLinked(links) && x < |links| && Climbs(links, x, n, c) && Climbs(links, x, m, d) && n <= m
    ensures c < |links| && Climbs(links, c, m - n, d)
    decreases n
  {
    if n > 0 {
      OneAbove(links, links[x].value, c, d, n - 1, m - 1);
    }
  }

  lemma {:induction false} ClimbRises(links: Links, rank: seq<nat>, x: nat, n: nat, i: nat)
    requires WellLinked(links) && Ranked(links, rank) && x < |links| && Climbs(links, x, n, i)
    ensures i < |links| && rank[x] + n <= rank[i]
    decreases n
  {
    if n > 0 {
      ClimbRises(links, rank, links[x].value, n - 1, i);
    }
  }

  lemma {:induction false} LastStep(links: Links, x: nat, n: nat, i: nat) returns (j: nat)
    requires WellLinked(links) && x < |links| && n > 0 && Climbs(links, x, n, i)
    ensures j < |links| && links[j] == Some(i) && Climbs(links, x, n - 1, j)
    decreases n
  {
    if n == 1 {
      j := x;
    } else {
      j := LastStep(links, links[x].value, n - 1, i);
    }
  }

  // ----- cycles -----

  /** No row is its own ancestor. */
  ghost predicate Acyclic(links: Links)
    requires WellLinked(links)
  {
    forall i: nat, n: nat :: i < |links| && n > 0 ==> !Climbs(links, i, n, i)
  }

  /** The rows below `i`, and `i` itself. */
  ghost function Descendants(links: Links, i: nat): (rows: set<nat>)
    requires WellLinked(links) && i < |links|
    ensures |rows| <= |links|
  {
    var rows := set x: nat | x < |links| && Reaches(links, x, i);
    Fewer(rows, UpTo(|links|));
    rows
  }

  lemma Fewer(some: set<nat>, all: set<nat>)
    requires some <= all
    ensures |some| <= |all| && (some != all ==> |some| < |all|)
  {
    assert all == some + (all - some) && |all| == |some| + |all - some|;
    if some != all {
      assert all - some != {};
    }
  }

  lemma ParentHasMore(links: Links, j: nat)
    requires WellLinked(links) && Acyclic(links) && j < |links| && links[j].Some?
    ensures |Descendants(links, j)| < |Descendants(links, links[j].value)|
  {
    var p := links[j].value;
    forall x | x in Descendants(links, j)
      ensures x in Descendants(links, p)
    {
      var n: nat :| Climbs(links, x, n, j);
      ClimbOn(links, x, n, j);
      assert Climbs(links, x, n + 1, p);
    }
    ReachesStep(links, p, p);
    if p in Descendants(links, j) {
      var n: nat :| Climbs(links, p, n, j);
      ClimbOn(links, p, n, j);
    }
    assert p in Descendants(links, p);
    Fewer(Descendants(links, j), Descendants(links, p));
  }

  /** The number of rows below each row. */
  ghost function RankOf(links: Links): (rank: seq<nat>)
    requires WellLinked(links)
    ensures |rank| == |links| && forall i :: 0 <= i < |links| ==> rank[i] == |Descendants(links, i)|
  {
    seq(|links|, i requires 0 <= i < |links| => |Descendants(links, i)|)
  }

  lemma AcyclicRanked(links: Links)
    requires WellLinked(links) && Acyclic(links)
    ensures Ranked(links, RankOf(links))
  {
    forall j | 0 <= j < |links| && links[j].Some?
      ensures RankOf(links)[j] < RankOf(links)[links[j].value]
    {
      ParentHasMore(links, j);
    }
  }

  /** A rank that grows towards the ancestors is there exactly when no row is its own ancestor. */
  lemma RankedExactlyWhen(links: Links)
    requires WellLinked(links)
    ensures (exists rank :: Ranked(links, rank)) <==> Acyclic(links)
  {
    if rank :| Ranked(links, rank) {
      forall i: nat, n: nat | i < |links| && n > 0
        ensures !Climbs(links, i, n, i)
      {
        if Climbs(links, i, n, i) {
          ClimbRises(links, rank, i, n, i);
        }
      }
    }
    if Acyclic(links) {
      AcyclicRanked(links);
    }
  }

  /** Some ancestor of the row has no parent. */
  ghost predicate Grounded(links: Links, i: nat)
    requires WellLinked(links)
  {
    i < |links| && exists r: nat :: r < |links| && links[r].None? && Reaches(links, i, r)
  }

  /** A row of a cycle has no ancestor without a parent. */
  lemma {:induction false} CycleFloats(links: Links, x: nat, n: nat, m: nat, r: nat)
    requires WellLinked(links) && x < |links| && n > 0 && Climbs(links, x, n, x)
    requires r < |links| && links[r].None?
    ensures !Climbs(links, x, m, r)
    decreases m
  {
    if m > 0 && Climbs(links, x, m, r) {
      var y := links[x].value;
      ClimbOn(links, y, n - 1, x);
      CycleFloats(links, y, n, m - 1, r);
    }
  }

  /** Two rows side by side: neither is above the other. */
  ghost predicate Beside(links: Links, c: nat, d: nat) {
    c < |links| && d < |links| && c != d && links[c] == links[d]
  }

  lemma BesideApart(links: Links, rank: seq<nat>, x: nat, c: nat, d: nat)
    requires WellLinked(links) && Ranked(links, rank) && x < |links| && Beside(links, c, d)
    ensures !(Reaches(links, x, c) && Reaches(links, x, d))
  {
    if Reaches(links, x, c) && Reaches(links, x, d) {
      var n: nat :| Climbs(links, x, n, c);
      var m: nat :| Climbs(links, x, m, d);
      if n <= m {
        OneAbove(links, x, c, d, n, m);
        NotAbove(links, rank, c, d, m - n);
      } else {
        OneAbove(links, x, d, c, m, n);
        NotAbove(links, rank, d, c, n - m);
      }
    }
  }

  lemma NotAbove(links: Links, rank: seq<nat>, c: nat, d: nat, n: nat)
    requires WellLinked(links) && Ranked(links, rank) && Beside(links, c, d)
    ensures !Climbs(links, c, n, d)
  {
    if n > 0 && Climbs(links, c, n, d) {
      ClimbRises(links, rank, links[c].value, n - 1, d);
    }
  }

  // ----- the forest, flattened -----

  ghost predicate IsForest(links: Links, order: Orders, rank: seq<nat>) {
    WellLinked(links) && Ranked(links, rank) && SelfTree.Attached(links, Linked(links), order)
  }

  lemma KidsOf(links: Links, order: Orders, rank: seq<nat>, i: nat)
    requires IsForest(links, order, rank) && i < |links|
    ensures forall k :: k in order[i] ==> k < |links| && links[k] == Some(i) && rank[k] < rank[i]
    ensures Siblings(links, order[i])
  {
    forall k | k in order[i]
      ensures k < |links| && links[k] == Some(i) && rank[k] < rank[i]
    {
      assert k in Linked(links);
    }
    forall a, b | 0 <= a < b < |order[i]|
      ensures Beside(links, order[i][a], order[i][b])
    {
      assert order[i][a] in order[i] && order[i][b] in order[i];
    }
  }

  /** The rows of the subtree of `i`, through the holders. */
  ghost function Flatten(links: Links, order: Orders, rank: seq<nat>, i: nat): seq<nat>
    requires IsForest(links, order, rank) && i < |links|
    decreases rank[i], 1, 0
  {
    KidsOf(links, order, rank, i);
    [i] + FlattenAll(links, order, rank, order[i], rank[i])
  }

  ghost function FlattenAll(links: Links, order: Orders, rank: seq<nat>, rows: seq<nat>, bound: nat): seq<nat>
    requires IsForest(links, order, rank)
    requires forall k :: k in rows ==> k < |links| && rank[k] < bound
    decreases bound, 0, |rows|
  {
    if rows == [] then []
    else
      var n := |rows| - 1;
      assert rows[n] in rows && forall k :: k in rows[..n] ==> k in rows;
      FlattenAll(links, order, rank, rows[..n], bound) + Flatten(links, order, rank, rows[n])
  }

  ghost predicate Siblings(links: Links, rows: seq<nat>) {
    && (forall k :: k in rows ==> k < |links|)
    && (forall a, b :: 0 <= a < b < |rows| ==> Beside(links, rows[a], rows[b]))
  }

  lemma {:induction false} FlattenCounts(links: Links, order: Orders, rank: seq<nat>, i: nat, x: nat)
    requires IsForest(links, order, rank) && i < |links| && x < |links|
    ensures Count<nat>(Flatten(links, order, rank, i), x) == if Reaches(links, x, i) then 1 else 0
    decreases rank[i], 1, 0
  {
    var kids := order[i];
    KidsOf(links, order, rank, i);
    FlattenAllCounts(links, order, rank, kids, rank[i], x);
    CountCons(i, FlattenAll(links, order, rank, kids, rank[i]), x);
    ReachesStep(links, x, i);
    if k: nat :| k in kids && Reaches(links, x, k) {
      var n: nat :| Climbs(links, x, n, k);
      ClimbOn(links, x, n, k);
      assert Reaches(links, x, i);
      ClimbRises(links, rank, x, n, k);
    } else if x != i && Reaches(links, x, i) {
      var n: nat :| Climbs(links, x, n, i);
      var j := LastStep(links, x, n, i);
      assert j in kids && Reaches(links, x, j);
    }
  }

  lemma CountCons(i: nat, rest: seq<nat>, x: nat)
    ensures Count<nat>([i] + rest, x) == Count<nat>(rest, x) + if i == x then 1 else 0
  {
    CountConcat<nat>([i], rest, x);
    assert Count<nat>([i], x) == Count<nat>([i][..0], x) + if i == x then 1 else 0;
  }

  lemma {:induction false} FlattenAllCounts(links: Links, order: Orders, rank: seq<nat>, rows: seq<nat>, bound: nat,
                                            x: nat)
    requires IsForest(links, order, rank) && Siblings(links, rows) && x < |links|
    requires forall k :: k in rows ==> rank[k] < bound
    ensures Count<nat>(FlattenAll(links, order, rank, rows, bound), x) ==
            if exists k: nat :: k in rows && Reaches(links, x, k) then 1 else 0
    decreases bound, 0, |rows|
  {
    if rows != [] {
      var n := |rows| - 1;
      var last := rows[n];
      assert last in rows && forall k :: k in rows <==> k in rows[..n] || k == last;
      FlattenAllCounts(links, order, rank, rows[..n], bound, x);
      FlattenCounts(links, order, rank, last, x);
      CountConcat<nat>(FlattenAll(links, order, rank, rows[..n], bound), Flatten(links, order, rank, last), x);
      if k: nat :| k in rows[..n] && Reaches(links, x, k) {
        BesideApart(links, rank, x, k, last);
      }
    }
  }

  function RootRows(links: Links): (rows: seq<nat>)
    ensures forall k :: k in rows ==> k < |links|
  {
    if links == [] then []
    else
      var n := |links| - 1;
      RootRows(links[..n]) + if links[n].None? then [n] else []
  }

  lemma {:induction false} RootRowsAre(links: Links)
    ensures forall k: nat :: k in RootRows(links) <==> k < |links| && links[k].None?
    ensures Siblings(links, RootRows(links))
    decreases |links|
  {
    if links != [] {
      var n := |links| - 1;
      RootRowsAre(links[..n]);
      var front, rows := RootRows(links[..n]), RootRows(links);
      assert forall k: nat :: k in rows <==> k in front || (k == n && links[n].None?);
      assert forall k: nat :: k < n ==> links[..n][k] == links[k];
      forall a, b | 0 <= a < b < |rows|
        ensures Beside(links, rows[a], rows[b])
      {
        assert rows[a] in front;
        if b < |front| {
          assert Beside(links[..n], front[a], front[b]);
        }
      }
    }
  }

  lemma {:induction false} HasRoot(links: Links, rank: seq<nat>, x: nat) returns (r: nat)
    requires WellLinked(links) && Ranked(links, rank) && x < |links|
    ensures r < |links| && links[r].None? && Reaches(links, x, r)
    decreases |links| - rank[x]
  {
    ReachesStep(links, x, x);
    if links[x].None? {
      r := x;
    } else {
      r := HasRoot(links, rank, links[x].value);
      ReachesStep(links, x, r);
    }
  }

  /** On acyclic links with distinct ids, following the holders from the roots meets every row exactly once. */
  lemma FlatteningIsPermutation(ids: seq<Value>, parents: seq<Value>, rank: seq<nat>, x: nat)
    requires |ids| == |parents| && Distinct(ids) && Ranked(LinksOf(ids, parents), rank) && x < |ids|
    ensures var links := LinksOf(ids, parents);
            var order := Sweep(ids, parents, |ids|).order;
            && IsForest(links, order, rank)
            && (forall k :: k in RootRows(links) ==> k < |links| && rank[k] < |ids| + 1)
            && Count<nat>(FlattenAll(links, order, rank, RootRows(links), |ids| + 1), x) == 1
  {
    var links := LinksOf(ids, parents);
    var order := Sweep(ids, parents, |ids|).order;
    SweepAttaches(ids, parents, rank);
    RootRowsAre(links);
    FlattenAllCounts(links, order, rank, RootRows(links), |ids| + 1, x);
    var r := HasRoot(links, rank, x);
    assert r in RootRows(links);
  }

  lemma {:induction false} RootsPicked(nodes: seq<Node>, ids: seq<Value>, links: Links, n: nat)
    requires n <= |nodes| == |links|
    requires forall i :: 0 <= i < |nodes| ==> (IsRoot(nodes[i], ids) <==> links[i].None?)
    ensures Roots(nodes[..n], ids) == Picked(nodes, RootRows(links[..n]))
    decreases n
  {
    if n > 0 {
      RootsPicked(nodes, ids, links, n - 1);
      assert nodes[..n][..n - 1] == nodes[..n - 1];
      assert links[..n][..n - 1] == links[..n - 1];
      if links[n - 1].None? {
        PickedMore(nodes, RootRows(links[..n - 1]), n - 1);
      }
    }
  }

  ghost predicate NoNulls(ids: seq<Value>) {
    forall id :: id in ids ==> !IsNull(id)
  }

  /** With no NULL among the ids, the returned rows are the rows without a link, in row order. */
  lemma RootsAreUnlinked(nodes: seq<Node>)
    requires NoNulls(Ids(nodes))
    ensures Roots(nodes, Ids(nodes)) == Picked(nodes, RootRows(LinksOf(Ids(nodes), Parents(nodes))))
  {
    var links := LinksOf(Ids(nodes), Parents(nodes));
    forall i | 0 <= i < |nodes|
      ensures IsRoot(nodes[i], Ids(nodes)) <==> links[i].None?
    {
      NormalizeKeeps(nodes[i].parent);
      assert Parents(nodes)[i] == NormalizeKey(nodes[i].parent);
    }
    RootsPicked(nodes, Ids(nodes), links, |nodes|);
    assert nodes[..|nodes|] == nodes && links[..|nodes|] == links;
  }

  // ----- the forest on the heap -----

  /** The rows that are met from these, through the holders, down to a depth. */
  ghost function Met(rows: seq<Node>, depth: nat): seq<Node>
    reads *
    decreases depth, |rows|
  {
    if depth == 0 || rows == [] then []
    else
      var last := rows[|rows| - 1];
      Met(rows[..|rows| - 1], depth) + ([last] + Met(last.holder, depth - 1))
  }

  ghost predicate Holding(nodes: seq<Node>, order: Orders)
    reads nodes
  {
    Within(order, |nodes|) && forall p :: 0 <= p < |nodes| ==> nodes[p].holder == Picked(nodes, order[p])
  }

  predicate AllBelow(at: seq<nat>, n: nat) {
    forall p :: p in at ==> p < n
  }

  /** A row, and what is met below it, after the rows before. */
  lemma PickedMet(nodes: seq<Node>, front: seq<nat>, last: nat, below: seq<nat>)
    requires AllBelow(front, |nodes|) && last < |nodes| && AllBelow(below, |nodes|)
    ensures AllBelow(front + ([last] + below), |nodes|)
    ensures Picked(nodes, front + ([last] + below)) == Picked(nodes, front) + ([nodes[last]] + Picked(nodes, below))
  {}

  lemma PickedLast(nodes: seq<Node>, at: seq<nat>)
    requires at != [] && AllBelow(at, |nodes|)
    ensures AllBelow(at[..|at| - 1], |nodes|) && at[|at| - 1] < |nodes|
    ensures Picked(nodes, at) == Picked(nodes, at[..|at| - 1]) + [nodes[at[|at| - 1]]]
  {
    var front := at[..|at| - 1];
    assert at[|at| - 1] in at;
    forall p | p in front
      ensures p < |nodes|
    {
      assert p in at;
    }
  }

  lemma MetStep(rows: seq<Node>, front: seq<Node>, last: Node, depth: nat)
    requires rows == front + [last] && depth > 0
    ensures Met(rows, depth) == Met(front, depth) + ([last] + Met(last.holder, depth - 1))
  {
    assert rows[..|rows| - 1] == front;
  }

  /** The rows stand below a bound, as the climb through them needs it. */
  ghost predicate Bounded(links: Links, rank: seq<nat>, rows: seq<nat>, bound: nat)
    requires |rank| == |links|
  {
    forall k :: k in rows ==> k < |links| && rank[k] < bound
  }

  lemma FlattenStep(links: Links, order: Orders, rank: seq<nat>, rows: seq<nat>, bound: nat)
    requires IsForest(links, order, rank) && Bounded(links, rank, rows, bound) && rows != []
    ensures var n := |rows| - 1;
            && Bounded(links, rank, rows[..n], bound)
            && rows[n] < |links| && Bounded(links, rank, order[rows[n]], rank[rows[n]]) && rank[rows[n]] < bound
            && FlattenAll(links, order, rank, rows, bound) ==
               FlattenAll(links, order, rank, rows[..n], bound) +
               ([rows[n]] + FlattenAll(links, order, rank, order[rows[n]], rank[rows[n]]))
  {
    var n := |rows| - 1;
    assert rows[n] in rows;
    forall k | k in rows[..n]
      ensures k < |links| && rank[k] < bound
    {
      assert k in rows;
    }
    KidsOf(links, order, rank, rows[n]);
  }

  /** Following the holders on the heap is flattening the forest of the rows. */
  lemma {:induction false} MetIsFlattened(nodes: seq<Node>, links: Links, order: Orders, rank: seq<nat>, rows: seq<nat>,
                                          bound: nat, depth: nat)
    requires IsForest(links, order, rank) && |links| == |nodes| && Holding(nodes, order) && bound <= depth
    requires Bounded(links, rank, rows, bound)
    ensures AllBelow(rows, |nodes|) && AllBelow(FlattenAll(links, order, rank, rows, bound), |nodes|)
    ensures Met(Picked(nodes, rows), depth) == Picked(nodes, FlattenAll(links, order, rank, rows, bound))
    decreases bound, |rows|
  {
    if rows != [] {
      var n := |rows| - 1;
      var last := rows[n];
      FlattenStep(links, order, rank, rows, bound);
      PickedLast(nodes, rows);
      MetIsFlattened(nodes, links, order, rank, rows[..n], bound, depth);
      MetIsFlattened(nodes, links, order, rank, order[last], rank[last], depth - 1);
      MetStep(Picked(nodes, rows), Picked(nodes, rows[..n]), nodes[last], depth);
      PickedMet(nodes, FlattenAll(links, order, rank, rows[..n], bound), last,
                FlattenAll(links, order, rank, order[last], rank[last]));
    }
  }

  lemma {:induction false} PickedCounts(nodes: seq<Node>, at: seq<nat>, x: nat)
    requires OwnNodes(nodes) && x < |nodes| && AllBelow(at, |nodes|)
    ensures Count<Node>(Picked(nodes, at), nodes[x]) == Count<nat>(at, x)
    decreases |at|
  {
    if at != [] {
      PickedLast(nodes, at);
      var last := at[|at| - 1];
      PickedCounts(nodes, at[..|at| - 1], x);
      assert Apart(nodes, x, last) && Apart(nodes, last, x);
      var front := Picked(nodes, at[..|at| - 1]);
      assert (front + [nodes[last]])[..|front|] == front;
    }
  }

  lemma HoldersHold(nodes: seq<Node>, before: seq<seq<Node>>, order: Orders)
    requires |before| == |nodes| && forall p :: 0 <= p < |before| ==> before[p] == []
    requires Within(order, |nodes|) && Extended(nodes, before, order)
    ensures Holding(nodes, order)
  {
    forall p | 0 <= p < |nodes|
      ensures nodes[p].holder == Picked(nodes, order[p])
    {
      assert [] + Picked(nodes, order[p]) == Picked(nodes, order[p]);
    }
  }

  /**
   If the holders were empty: following them from the returned rows meets every row exactly once, and nothing else.
   */
  lemma {:induction false} HoldersMeetOnce(nodes: seq<Node>, rank: seq<nat>, before: seq<seq<Node>>, x: nat)
    requires OwnNodes(nodes) && Distinct(Ids(nodes)) && NoNulls(Ids(nodes))
    requires Ranked(LinksOf(Ids(nodes), Parents(nodes)), rank) && x < |nodes|
    requires |before| == |nodes| && forall p :: 0 <= p < |before| ==> before[p] == []
    requires Extended(nodes, before, Sweep(Ids(nodes), Parents(nodes), |nodes|).order)
    ensures OnceMet(nodes, Roots(nodes, Ids(nodes)), nodes[x])
  {
    var ids, parents := Ids(nodes), Parents(nodes);
    var links, order := LinksOf(ids, parents), Sweep(ids, parents, |ids|).order;
    FlatteningIsPermutation(ids, parents, rank, x);
    RootsAreUnlinked(nodes);
    HoldersHold(nodes, before, order);
    FlattenedMeetOnce(nodes, links, order, rank, RootRows(links), Roots(nodes, ids), x);
  }

  lemma {:induction false} FlattenedMeetOnce(nodes: seq<Node>, links: Links, order: Orders, rank: seq<nat>,
                                             rows: seq<nat>, result: seq<Node>, x: nat)
    requires OwnNodes(nodes) && x < |nodes| == |links| && IsForest(links, order, rank) && Holding(nodes, order)
    requires Bounded(links, rank, rows, |nodes| + 1)
             && Count<nat>(FlattenAll(links, order, rank, rows, |nodes| + 1), x) == 1
    requires AllBelow(rows, |nodes|) && result == Picked(nodes, rows)
    ensures OnceMet(nodes, result, nodes[x])
  {
    MetIsFlattened(nodes, links, order, rank, rows, |nodes| + 1, |nodes| + 1);
    PickedOnce(nodes, FlattenAll(links, order, rank, rows, |nodes| + 1), Met(result, |nodes| + 1), x);
  }

  lemma {:induction false} PickedOnce(nodes: seq<Node>, at: seq<nat>, met: seq<Node>, x: nat)
    requires OwnNodes(nodes) && x < |nodes| && AllBelow(at, |nodes|) && Count<nat>(at, x) == 1
             && met == Picked(nodes, at)
    ensures Count<Node>(met, nodes[x]) == 1 && forall other :: other in met ==> other in nodes
  {
    PickedCounts(nodes, at, x);
    forall other | other in met
      ensures other in nodes
    {
      var t :| 0 <= t < |met| && met[t] == other;
      assert at[t] in at;
    }
  }

  /** From the rows of a result, the row is met once, and only rows of these are met. */
  ghost predicate OnceMet(nodes: seq<Node>, result: seq<Node>, node: Node)
    reads *
  {
    var met := Met(result, |nodes| + 1);
    Count<Node>(met, node) == 1 && forall other :: other in met ==> other in nodes
  }

  /** Through the holders only rows are met that have an ancestor without a parent, if all rows at the start have. */
  lemma {:induction false} GroundedMet(nodes: seq<Node>, links: Links, order: Orders, rows: seq<nat>, depth: nat)
    requires WellLinked(links) && |links| == |nodes| && Attached(links, Linked(links), order) && Holding(nodes, order)
    requires forall k :: k in rows ==> k < |nodes| && Grounded(links, k)
    ensures forall node :: node in Met(Picked(nodes, rows), depth) ==> GroundedNode(nodes, links, node)
    decreases depth, |rows|
  {
    if depth > 0 && rows != [] {
      var n := |rows| - 1;
      assert rows[n] in rows;
      var last, kids := rows[n], order[rows[n]];
      PickedLast(nodes, rows);
      MetStep(Picked(nodes, rows), Picked(nodes, rows[..n]), nodes[last], depth);
      forall k | k in rows[..n]
        ensures k < |nodes| && Grounded(links, k)
      {
        assert k in rows;
      }
      GroundedMet(nodes, links, order, rows[..n], depth);
      forall k | k in kids
        ensures k < |nodes| && Grounded(links, k)
      {
        KidGrounded(links, k, last);
      }
      GroundedMet(nodes, links, order, kids, depth - 1);
    }
  }

  ghost predicate GroundedNode(nodes: seq<Node>, links: Links, node: Node)
    requires WellLinked(links) && |links| == |nodes|
  {
    exists k: nat :: k < |nodes| && nodes[k] == node && Grounded(links, k)
  }

  lemma KidGrounded(links: Links, k: nat, p: nat)
    requires WellLinked(links) && k < |links| && links[k] == Some(p) && Grounded(links, p)
    ensures Grounded(links, k)
  {
    var r: nat :| r < |links| && links[r].None? && Reaches(links, p, r);
    ReachesStep(links, k, r);
  }

  /** The rows of a cycle are met from no returned row, at any depth. */
  lemma CycleNeverMet(nodes: seq<Node>, before: seq<seq<Node>>, x: nat, n: nat, depth: nat)
    requires OwnNodes(nodes) && Distinct(Ids(nodes)) && NoNulls(Ids(nodes))
    requires |before| == |nodes| && forall p :: 0 <= p < |before| ==> before[p] == []
    requires Extended(nodes, before, Sweep(Ids(nodes), Parents(nodes), |nodes|).order)
    requires x < |nodes| && n > 0 && Climbs(LinksOf(Ids(nodes), Parents(nodes)), x, n, x)
    ensures nodes[x] !in Met(Roots(nodes, Ids(nodes)), depth)
  {
    var ids, parents := Ids(nodes), Parents(nodes);
    var links, order := LinksOf(ids, parents), Sweep(ids, parents, |ids|).order;
    SweepAttaches(ids, parents, []);
    RootsAreUnlinked(nodes);
    RootRowsAre(links);
    HoldersHold(nodes, before, order);
    forall k | k in RootRows(links)
      ensures k < |nodes| && Grounded(links, k)
    {
      ReachesStep(links, k, k);
    }
    GroundedMet(nodes, links, order, RootRows(links), depth);
    if nodes[x] in Met(Roots(nodes, ids), depth) {
      FloatingNode(nodes, links, x, n);
    }
  }

  lemma FloatingNode(nodes: seq<Node>, links: Links, x: nat, n: nat)
    requires OwnNodes(nodes) && WellLinked(links) && |links| == |nodes|
    requires x < |nodes| && n > 0 && Climbs(links, x, n, x)
    ensures !GroundedNode(nodes, links, nodes[x])
  {
    if k: nat :| k < |nodes| && nodes[k] == nodes[x] && Grounded(links, k) {
      assert Apart(nodes, k, x) && Apart(nodes, x, k);
      var r: nat :| r < |links| && links[r].None? && Reaches(links, x, r);
      var m: nat :| Climbs(links, x, m, r);
      CycleFloats(links, x, n, m, r);
    }
  }

  /** The rows of a read, whose holders are empty. */
  method BuildFresh(nodes: seq<Node>) returns (result: seq<Node>)
    requires OwnNodes(nodes) && Distinct(Ids(nodes)) && NoNulls(Ids(nodes))
    requires Acyclic(LinksOf(Ids(nodes), Parents(nodes)))
    requires forall p :: 0 <= p < |nodes| ==> nodes[p].holder == []
    modifies set node | node in nodes
    ensures forall node :: node in nodes ==> OnceMet(nodes, result, node)
  {
    ghost var before, rank := HoldersOf(nodes), RankOf(LinksOf(Ids(nodes), Parents(nodes)));
    AcyclicRanked(LinksOf(Ids(nodes), Parents(nodes)));
    result := BuildTree(nodes);
    forall node | node in nodes
      ensures OnceMet(nodes, result, node)
    {
      var x :| 0 <= x < |nodes| && nodes[x] == node;
      HoldersMeetOnce(nodes, rank, before, x);
    }
  }

  // ----- running it again -----

  lemma {:induction false} RootsOnly(nodes: seq<Node>, ids: seq<Value>, node: Node)
    ensures node in Roots(nodes, ids) <==> node in nodes && IsRoot(node, ids)
    decreases |nodes|
  {
    if nodes != [] {
      RootsOnly(nodes[..|nodes| - 1], ids, node);
      assert nodes == nodes[..|nodes| - 1] + [nodes[|nodes| - 1]];
    }
  }

  lemma {:induction false} RootsAgain(nodes: seq<Node>, ids: seq<Value>)
    requires forall node :: node in nodes ==> IsRoot(node, ids)
    ensures Roots(nodes, ids) == nodes
    decreases |nodes|
  {
    if nodes != [] {
      var front, last := nodes[..|nodes| - 1], nodes[|nodes| - 1];
      assert last in nodes && nodes == front + [last];
      RootsAgain(front, ids);
    }
  }

  lemma {:induction false} RootsOwn(nodes: seq<Node>, ids: seq<Value>)
    requires OwnNodes(nodes)
    ensures OwnNodes(Roots(nodes, ids))
    decreases |nodes|
  {
    if nodes != [] {
      var n := |nodes| - 1;
      var front := Roots(nodes[..n], ids);
      forall i, j
        ensures Apart(nodes[..n], i, j)
      {
        assert Apart(nodes, i, j);
      }
      RootsOwn(nodes[..n], ids);
      forall i, j
        ensures Apart(Roots(nodes, ids), i, j)
      {
        assert Apart(front, i, j);
        if 0 <= i < j == |front| < |Roots(nodes, ids)| {
          RootsOnly(nodes[..n], ids, front[i]);
          var k :| 0 <= k < n && nodes[k] == front[i];
          assert Apart(nodes, k, n);
        }
      }
    }
  }

  /**
   Some row has a NULL parent, and some row without a known parent the same NULL as its id: both are nil, or nil
   pointers of one type.
   */
  ghost predicate NullsMeet(nodes: seq<Node>) {
    exists node, other :: node in nodes && other in nodes && NullMeets(node, other) && IsRoot(other, Ids(nodes))
  }

  predicate NullMeets(node: Node, other: Node) {
    IsNull(node.parent) && NormalizeKey(other.id) == NormalizeKey(node.parent)
  }

  lemma RootsAll(nodes: seq<Node>, ids: seq<Value>)
    ensures forall node :: node in Roots(nodes, ids) <==> node in nodes && IsRoot(node, ids)
  {
    forall node
      ensures node in Roots(nodes, ids) <==> node in nodes && IsRoot(node, ids)
    {
      RootsOnly(nodes, ids, node);
    }
  }

  lemma IdsAmong(nodes: seq<Node>, some: seq<Node>)
    requires forall node :: node in some ==> node in nodes
    ensures forall id :: id in Ids(some) ==> id in Ids(nodes)
    ensures forall node :: node in nodes ==> NormalizeKey(node.id) in Ids(nodes)
  {
    forall node | node in nodes
      ensures NormalizeKey(node.id) in Ids(nodes)
    {
      var m :| 0 <= m < |nodes| && nodes[m] == node;
      assert Ids(nodes)[m] == NormalizeKey(node.id);
    }
    forall id | id in Ids(some)
      ensures id in Ids(nodes)
    {
      var k :| 0 <= k < |some| && Ids(some)[k] == id;
      assert some[k] in nodes;
    }
  }

  /** The returned rows are roots again, and are linked the second time exactly when a NULL parent meets a NULL id. */
  lemma SecondLinks(nodes: seq<Node>)
    ensures var roots := Roots(nodes, Ids(nodes));
            && (forall node :: node in roots ==> IsRoot(node, Ids(roots)))
            && ((exists k :: 0 <= k < |roots| && Parents(roots)[k] in Ids(roots)) <==> NullsMeet(nodes))
  {
    var roots := Roots(nodes, Ids(nodes));
    RootsAll(nodes, Ids(nodes));
    RootsAmong(nodes, Ids(nodes));
    IdsAmong(nodes, roots);
    if k :| 0 <= k < |roots| && Parents(roots)[k] in Ids(roots) {
      assert roots[k] in roots;
      var m :| 0 <= m < |roots| && Ids(roots)[m] == Parents(roots)[k];
      assert roots[m] in roots && NullMeets(roots[k], roots[m]);
    }
    if NullsMeet(nodes) {
      var node, other :| node in nodes && other in nodes && NullMeets(node, other) && IsRoot(other, Ids(nodes));
      assert node in roots && other in roots;
      IdsAmong(roots, roots);
      var k :| 0 <= k < |roots| && roots[k] == node;
      assert Parents(roots)[k] in Ids(roots);
    }
  }

  lemma ExtendedNot(nodes: seq<Node>, before: seq<seq<Node>>, order: Orders)
    requires |before| == |nodes| && Within(order, |nodes|) && Extended(nodes, before, order)
    ensures HoldersOf(nodes) == before <==> Empty(order)
  {
    if Empty(order) {
      forall p | 0 <= p < |nodes|
        ensures HoldersOf(nodes)[p] == before[p]
      {
        assert order[p] == [];
      }
    } else {
      var p :| 0 <= p < |order| && order[p] != [];
      assert |HoldersOf(nodes)[p]| > |before[p]|;
    }
  }

  lemma RootsAmong(nodes: seq<Node>, ids: seq<Value>)
    ensures forall node :: node in Roots(nodes, ids) ==> node in nodes
  {
    forall node | node in Roots(nodes, ids)
      ensures node in nodes
    {
      RootsOnly(nodes, ids, node);
    }
  }

  /**
   `Fetched` runs twice on the ordinary path. The second build returns the same rows, and it leaves the holders of all
   rows alone unless some row has a NULL parent and some row without a known parent the same NULL as its id.
   */
  method BuildTwice(nodes: seq<Node>) returns (first: seq<Node>, second: seq<Node>, ghost between: seq<seq<Node>>)
    requires OwnNodes(nodes)
    modifies set node | node in nodes
    ensures first == Roots(nodes, Ids(nodes)) && second == first
    ensures HoldersOf(nodes) == between <==> !NullsMeet(nodes)
  {
    first := BuildTree(nodes);
    between := HoldersOf(nodes);
    ghost var returned := HoldersOf(first);
    RootsOwn(nodes, Ids(nodes));
    RootsAmong(nodes, Ids(nodes));
    assert forall node :: node in first ==> node in nodes;
    assert forall a, p :: 0 <= a < |first| && 0 <= p < |nodes| && nodes[p] == first[a] ==> returned[a] == between[p];
    second := BuildTree(first);
    assert forall p :: 0 <= p < |nodes| && nodes[p] !in first ==> nodes[p].holder == between[p];
    SecondLinks(nodes);
    RootsAgain(first, Ids(first));
    SweepAdds(Ids(first), Parents(first));
    ExtendedNot(first, returned, Sweep(Ids(first), Parents(first), |first|).order);
    SameHolders(nodes, first, between, returned);
  }

  /** If only returned rows can have changed, all holders are as before when those of the returned rows are. */
  lemma SameHolders(nodes: seq<Node>, first: seq<Node>, between: seq<seq<Node>>, returned: seq<seq<Node>>)
    requires |between| == |nodes| && |returned| == |first| && forall node :: node in first ==> node in nodes
    requires forall a, p :: 0 <= a < |first| && 0 <= p < |nodes| && nodes[p] == first[a] ==> returned[a] == between[p]
    requires forall p :: 0 <= p < |nodes| && nodes[p] !in first ==> nodes[p].holder == between[p]
    ensures HoldersOf(nodes) == between <==> HoldersOf(first) == returned
  {
    if HoldersOf(first) == returned {
      forall p | 0 <= p < |nodes|
        ensures HoldersOf(nodes)[p] == between[p]
      {
        if nodes[p] in first {
          var a :| 0 <= a < |first| && first[a] == nodes[p];
          assert HoldersOf(first)[a] == returned[a];
        }
      }
    }
    if HoldersOf(nodes) == between {
      forall a | 0 <= a < |first|
        ensures HoldersOf(first)[a] == returned[a]
      {
        assert first[a] in first;
        var p :| 0 <= p < |nodes| && nodes[p] == first[a];
        assert HoldersOf(nodes)[p] == between[p];
      }
    }
  }
}
