/**
 `BuildTree` (view/collector.go): turns the rows of a self-referencing table into a forest by climbing from every row
 through its ancestors. Works on arbitrary parent links, cycles included.
 */
module SelfTree {
  import opened Keys

  class Node {
    const id: Value
    const parent: Value
    var holder: seq<Node>

    constructor (id: Value, parent: Value)
      ensures this.id == id && this.parent == parent && holder == []
    {
      this.id, this.parent, holder := id, parent, [];
    }
  }

  /** For each row the position of its parent row, if there is one. */
  type Links = seq<Option<nat>>

  ghost predicate WellLinked(links: Links) {
    forall i :: 0 <= i < |links| && links[i].Some? ==> links[i].value < |links|
  }

  function Ids(nodes: seq<Node>): seq<Value> {
    seq(|nodes|, i requires 0 <= i < |nodes| => NormalizeKey(nodes[i].id))
  }

  function Parents(nodes: seq<Node>): seq<Value> {
    seq(|nodes|, i requires 0 <= i < |nodes| => NormalizeKey(nodes[i].parent))
  }

  /** Last position of each id. */
  function IndexOf(ids: seq<Value>): (index: map<Value, nat>)
    ensures forall k :: k in index <==> k in ids
    ensures forall k :: k in index ==> index[k] < |ids| && ids[index[k]] == k
  {
    if ids == [] then map[]
    else
      assert forall k :: k in ids <==> k in ids[..|ids| - 1] || k == ids[|ids| - 1];
      IndexOf(ids[..|ids| - 1])[ids[|ids| - 1] := |ids| - 1]
  }

  function LinksOf(ids: seq<Value>, parents: seq<Value>): (links: Links)
    requires |ids| == |parents|
    ensures |links| == |ids| && WellLinked(links)
  {
    var index := IndexOf(ids);
    seq(|ids|, i requires 0 <= i < |ids| => if parents[i] in index then Some(index[parents[i]]) else None)
  }

  ghost predicate Distinct(ids: seq<Value>) {
    forall i, j :: 0 <= i < j < |ids| ==> ids[i] != ids[j]
  }

  // ----- ancestors -----

  /** From row `i`, following parent links, row `j` is met after `n` steps. */
  ghost predicate Climbs(links: Links, i: nat, n: nat, j: nat)
    requires WellLinked(links) && i < |links|
    decreases n
  {
    if n == 0 then i == j else links[i].Some? && Climbs(links, links[i].value, n - 1, j)
  }

  ghost predicate Reaches(links: Links, i: nat, j: nat)
    requires WellLinked(links) && i < |links|
  {
    exists n: nat :: Climbs(links, i, n, j)
  }

  /** A rank that grows towards the ancestors. */
  ghost predicate Ranked(links: Links, rank: seq<nat>)
    requires WellLinked(links)
  {
    && |rank| == |links|
    && forall j {:trigger links[j]} :: 0 <= j < |links| ==>
         rank[j] <= |links| && (links[j].Some? ==> rank[j] < rank[links[j].value])
  }

  // ----- which children were attached, in which order -----

  type Orders = seq<seq<nat>>

  /** Exactly the flagged rows have been attached, each once, under its own parent. */
  ghost predicate Attached(links: Links, flagged: set<nat>, order: Orders)
    requires WellLinked(links)
  {
    && |order| == |links|
    && (forall j :: j in flagged ==> j < |links| && links[j].Some?)
    && (forall p, j :: 0 <= p < |order| ==> (j in order[p] <==> j in flagged && links[j] == Some(p)))
    && (forall p, a, b :: 0 <= p < |order| && 0 <= a < b < |order[p]| ==> order[p][a] != order[p][b])
  }

  /** The parent of a flagged row is flagged as well, unless it has no parent or is being worked on. */
  ghost predicate Upward(links: Links, flagged: set<nat>, current: Option<nat>)
    requires WellLinked(links)
  {
    forall j {:trigger j in flagged} :: j in flagged && j < |links| && links[j].Some? && links[links[j].value].Some? ==>
      links[j].value in flagged || current == Some(links[j].value)
  }

  /** Every flagged row was reached from one of the rows before `i`, or from `i` below the given rank. */
  ghost predicate ReachedBefore(links: Links, flagged: set<nat>, i: nat)
    requires WellLinked(links) && i <= |links|
  {
    forall j :: j in flagged ==> exists k: nat :: k < i && Reaches(links, k, j)
  }

  /** Child `c` comes before child `d`: some row reaches `c` while no row up to it reaches `d`. */
  ghost predicate Earlier(links: Links, c: nat, d: nat)
    requires WellLinked(links)
  {
    exists k: nat :: k < |links| && Reaches(links, k, c) && forall l: nat :: l <= k ==> !Reaches(links, l, d)
  }

  ghost predicate Sorted(links: Links, order: Orders)
    requires WellLinked(links)
  {
    forall p, a, b :: 0 <= p < |order| && 0 <= a < b < |order[p]| ==> Earlier(links, order[p][a], order[p][b])
  }

  lemma AttachOne(links: Links, flagged: set<nat>, order: Orders, j: nat)
    requires WellLinked(links) && Attached(links, flagged, order)
    requires j < |links| && j !in flagged && links[j].Some?
    ensures var p := links[j].value; Attached(links, flagged + {j}, order[p := order[p] + [j]])
  {
    assert j !in order[links[j].value];
  }

  lemma {:induction false} ClimbOn(links: Links, i: nat, n: nat, j: nat)
    requires WellLinked(links) && i < |links| && Climbs(links, i, n, j) && j < |links| && links[j].Some?
    ensures Climbs(links, i, n + 1, links[j].value)
    decreases n
  {
    if n > 0 {
      ClimbOn(links, links[i].value, n - 1, j);
    }
  }

  lemma {:induction false} ClimbStays(links: Links, i: nat, n: nat, j: nat)
    requires WellLinked(links) && i < |links| && Climbs(links, i, n, j)
    ensures j < |links|
    decreases n
  {
    if n > 0 {
      ClimbStays(links, links[i].value, n - 1, j);
    }
  }

  /** In an upward closed set everything linked above a member is a member. */
  lemma {:induction false} ClimbFlagged(links: Links, flagged: set<nat>, i: nat, n: nat, j: nat)
    requires WellLinked(links) && i < |links| && Climbs(links, i, n, j) && j < |links| && links[j].Some?
    requires Upward(links, flagged, None) && (links[i].Some? ==> i in flagged)
    ensures j in flagged
    decreases n
  {
    if n > 0 {
      ClimbFlagged(links, flagged, links[i].value, n - 1, j);
    }
  }

  // ----- what holds while the algorithm climbs from row `i` and stands at row `cur` -----

  /** Everything linked that the rows before `i` lead to has been attached. */
  ghost predicate Swept(links: Links, flagged: set<nat>, i: nat)
    requires WellLinked(links) && i <= |links|
  {
    forall k: nat, j: nat :: k < i && j < |links| && links[j].Some? && Reaches(links, k, j) ==> j in flagged
  }

  ghost predicate Climbing(links: Links, flagged: set<nat>, order: Orders, i: nat, cur: nat)
    requires WellLinked(links) && i < |links|
  {
    && cur < |links| && Reaches(links, i, cur)
    && Attached(links, flagged, order)
    && Upward(links, flagged, Some(cur))
    && Swept(links, flagged, i)
    && ReachedBefore(links, flagged, i + 1)
    && (i in flagged || i == cur)
  }

  /** Above the rank where the climb stands, all attached rows come from earlier climbs. */
  ghost predicate Below(links: Links, order: Orders, rank: seq<nat>, i: nat, cur: nat)
    requires WellLinked(links) && i < |links| && Ranked(links, rank) && cur < |links|
  {
    forall p, c :: 0 <= p < |order| && p < |links| && rank[p] > rank[cur] && c in order[p] ==>
      exists k: nat :: k < i && Reaches(links, k, c)
  }

  lemma ClimbStep(links: Links, flagged: set<nat>, order: Orders, i: nat, cur: nat)
    requires WellLinked(links) && i < |links| && Climbing(links, flagged, order, i, cur)
    requires cur !in flagged && links[cur].Some?
    ensures var p := links[cur].value; Climbing(links, flagged + {cur}, order[p := order[p] + [cur]], i, p)
  {
    AttachOne(links, flagged, order, cur);
    var n: nat :| Climbs(links, i, n, cur);
    ClimbOn(links, i, n, cur);
  }

  lemma SortStep(links: Links, flagged: set<nat>, order: Orders, rank: seq<nat>, i: nat, cur: nat)
    requires WellLinked(links) && i < |links| && Climbing(links, flagged, order, i, cur)
    requires cur !in flagged && links[cur].Some?
    requires Ranked(links, rank) && Below(links, order, rank, i, cur) && Sorted(links, order)
    ensures var p := links[cur].value;
            Sorted(links, order[p := order[p] + [cur]]) && Below(links, order[p := order[p] + [cur]], rank, i, p)
  {
    var p := links[cur].value;
    var order' := order[p := order[p] + [cur]];
    forall q, a, b | 0 <= q < |order'| && 0 <= a < b < |order'[q]|
      ensures Earlier(links, order'[q][a], order'[q][b])
    {
      if q == p && b == |order[p]| {
        var c := order[p][a];
        assert c in order[p];
        var k: nat :| k < i && Reaches(links, k, c);
        assert forall l: nat :: l <= k ==> !Reaches(links, l, cur);
      }
    }
  }

  lemma ClimbEnds(links: Links, flagged: set<nat>, order: Orders, i: nat, cur: nat)
    requires WellLinked(links) && i < |links| && Climbing(links, flagged, order, i, cur)
    requires cur in flagged || links[cur].None?
    ensures Upward(links, flagged, None) && Swept(links, flagged, i + 1) && ReachedBefore(links, flagged, i + 1)
    ensures links[i].Some? ==> i in flagged
  {
    forall k: nat, j: nat | k < i + 1 && j < |links| && links[j].Some? && Reaches(links, k, j)
      ensures j in flagged
    {
      if k == i {
        var n: nat :| Climbs(links, i, n, j);
        ClimbFlagged(links, flagged, i, n, j);
      }
    }
  }

  /** When all rows have been climbed from, exactly the rows with a parent have been attached. */
  lemma SweptAll(links: Links, flagged: set<nat>, order: Orders)
    requires WellLinked(links) && Swept(links, flagged, |links|) && Attached(links, flagged, order)
    ensures flagged == set j: nat | j < |links| && links[j].Some?
  {
    forall j: nat | j < |links| && links[j].Some?
      ensures j in flagged
    {
      assert Climbs(links, j, 0, j);
      assert Reaches(links, j, j);
    }
  }

  // ----- the algorithm -----

  type NodeIndex = map<Value, set<Value>>

  predicate Flag(indexes: NodeIndex, under: Value, id: Value) {
    under in indexes && id in indexes[under]
  }

  /** The key of the dedup set for children of row `p`: the id of p's own parent, or of row 0 when p has none. */
  function GroupKey(ids: seq<Value>, parents: seq<Value>, p: nat): Value
    requires |ids| == |parents| && p < |ids|
  {
    var index := IndexOf(ids);
    ids[if parents[p] in index then index[parents[p]] else 0]
  }

  /** With distinct ids the two-level dedup set says of each row whether it has been attached. */
  ghost predicate FlagsAre(ids: seq<Value>, parents: seq<Value>, indexes: NodeIndex, flagged: set<nat>)
    requires |ids| == |parents|
  {
    var links := LinksOf(ids, parents);
    forall j :: 0 <= j < |ids| && links[j].Some? ==>
      (j in flagged <==> Flag(indexes, GroupKey(ids, parents, links[j].value), ids[j]))
  }

  lemma FlagOne(indexes: NodeIndex, under: Value, id: Value, under': Value, id': Value)
    ensures Flag(Flagged(indexes, under, id), under', id') <==>
            Flag(indexes, under', id') || (under == under' && id == id')
  {}

  lemma FlagStep(ids: seq<Value>, parents: seq<Value>, indexes: NodeIndex, flagged: set<nat>, cur: nat, under: Value)
    requires |ids| == |parents| && Distinct(ids) && FlagsAre(ids, parents, indexes, flagged)
    requires cur < |ids| && LinksOf(ids, parents)[cur].Some?
    requires under == GroupKey(ids, parents, LinksOf(ids, parents)[cur].value)
    ensures FlagsAre(ids, parents, Flagged(indexes, under, ids[cur]), flagged + {cur})
  {
    var links := LinksOf(ids, parents);
    var indexes' := Flagged(indexes, under, ids[cur]);
    forall j | 0 <= j < |ids| && links[j].Some?
      ensures j in flagged + {cur} <==> Flag(indexes', GroupKey(ids, parents, links[j].value), ids[j])
    {
      var under' := GroupKey(ids, parents, links[j].value);
      FlagOne(indexes, under, ids[cur], under', ids[j]);
      assert j != cur ==> ids[j] != ids[cur];
      assert j in flagged <==> Flag(indexes, under', ids[j]);
    }
  }

  function Flagged(indexes: NodeIndex, under: Value, id: Value): NodeIndex {
    indexes[under := (if under in indexes then indexes[under] else {}) + {id}]
  }

  ghost function Picked(nodes: seq<Node>, at: seq<nat>): seq<Node>
    requires forall p :: p in at ==> p < |nodes|
  {
    seq(|at|, t requires 0 <= t < |at| => assert at[t] in at; nodes[at[t]])
  }

  ghost predicate Within(order: Orders, n: nat) {
    |order| == n && forall p, j :: 0 <= p < n && j in order[p] ==> j < n
  }

  /** Every holder has been extended by the rows that `order` lists for it. */
  ghost predicate Extended(nodes: seq<Node>, before: seq<seq<Node>>, order: Orders)
    requires |before| == |nodes| && Within(order, |nodes|)
    reads nodes
  {
    forall p :: 0 <= p < |nodes| ==> nodes[p].holder == before[p] + Picked(nodes, order[p])
  }

  function Roots(nodes: seq<Node>, ids: seq<Value>): seq<Node> {
    if nodes == [] then []
    else
      var n := |nodes| - 1;
      Roots(nodes[..n], ids) + if IsRoot(nodes[n], ids) then [nodes[n]] else []
  }

  predicate IsRoot(node: Node, ids: seq<Value>) {
    IsNull(node.parent) || NormalizeKey(node.parent) !in ids
  }

  lemma PickedMore(nodes: seq<Node>, at: seq<nat>, j: nat)
    requires j < |nodes| && forall p :: p in at ==> p < |nodes|
    ensures Picked(nodes, at + [j]) == Picked(nodes, at) + [nodes[j]]
  {}

  method IndexNodes(nodes: seq<Node>) returns (index: map<Value, nat>)
    ensures index == IndexOf(Ids(nodes))
  {
    index := map[];
    for i := 0 to |nodes|
      invariant index == IndexOf(Ids(nodes[..i]))
    {
      assert Ids(nodes[..i + 1])[..i] == Ids(nodes[..i]);
      index := index[NormalizeKey(nodes[i].id) := i];
    }
    assert nodes[..|nodes|] == nodes;
  }

  lemma RootsMore(nodes: seq<Node>, ids: seq<Value>, i: nat)
    requires i < |nodes|
    ensures Roots(nodes[..i + 1], ids) == Roots(nodes[..i], ids) + if IsRoot(nodes[i], ids) then [nodes[i]] else []
  {
    assert nodes[..i + 1][..i] == nodes[..i];
  }

  method CollectRoots(nodes: seq<Node>, index: map<Value, nat>) returns (result: seq<Node>)
    requires index == IndexOf(Ids(nodes))
    ensures result == Roots(nodes, Ids(nodes))
  {
    result := [];
    ghost var ids := Ids(nodes);
    for i := 0 to |nodes|
      invariant result == Roots(nodes[..i], ids)
    {
      RootsMore(nodes, ids, i);
      var key := NormalizeKey(nodes[i].parent);
      NormalizeKeeps(nodes[i].parent);
      if IsNull(key) {
        result := result + [nodes[i]];
        continue;
      }
      if key !in index {
        result := result + [nodes[i]];
      }
    }
    assert nodes[..|nodes|] == nodes;
  }

  /** All pairs that the dedup sets can ever contain. */
  ghost function Pairs(ids: seq<Value>): set<(Value, Value)> {
    set a, b | a in ids && b in ids :: (a, b)
  }

  ghost predicate Empty(order: Orders) {
    forall p :: 0 <= p < |order| ==> order[p] == []
  }

  ghost predicate Apart(nodes: seq<Node>, i: int, j: int) {
    0 <= i < j < |nodes| ==> nodes[i] != nodes[j]
  }

  /** The rows are separate structs. */
  ghost predicate OwnNodes(nodes: seq<Node>) {
    forall i, j :: Apart(nodes, i, j)
  }

  /** One child joins the holder of its parent. */
  method Append(nodes: seq<Node>, p: nat, at: nat, ghost before: seq<seq<Node>>, ghost order: Orders)
    requires OwnNodes(nodes)
    requires |before| == |nodes| && Within(order, |nodes|) && Extended(nodes, before, order)
    requires p < |nodes| && at < |nodes|
    modifies nodes[p]
    ensures Within(order[p := order[p] + [at]], |nodes|)
    ensures Extended(nodes, before, order[p := order[p] + [at]])
  {
    forall q | 0 <= q < |nodes| && q != p
      ensures nodes[q] != nodes[p]
    {
      assert Apart(nodes, p, q) && Apart(nodes, q, p);
    }
    nodes[p].holder := nodes[p].holder + [nodes[at]];
    PickedMore(nodes, order[p], at);
  }

  // ----- the algorithm against its picture, for distinct ids -----

  lemma IndexDistinct(ids: seq<Value>, i: nat)
    requires Distinct(ids) && i < |ids|
    ensures IndexOf(ids)[ids[i]] == i
  {}

  /** Between two climbs; the order of the holders is known when the links are acyclic. */
  ghost predicate Between(ids: seq<Value>, parents: seq<Value>, indexes: NodeIndex, flagged: set<nat>, order: Orders,
                          rank: seq<nat>, i: nat)
    requires |ids| == |parents| && i <= |ids|
  {
    var links := LinksOf(ids, parents);
    Distinct(ids) ==>
      && Attached(links, flagged, order) && Upward(links, flagged, None) && Swept(links, flagged, i)
      && ReachedBefore(links, flagged, i) && FlagsAre(ids, parents, indexes, flagged)
      && (Ranked(links, rank) ==> Sorted(links, order))
  }

  /** During the climb from row `i`, at row `cur`. */
  ghost predicate Standing(ids: seq<Value>, parents: seq<Value>, indexes: NodeIndex, flagged: set<nat>, order: Orders,
                           rank: seq<nat>, i: nat, cur: nat)
    requires |ids| == |parents| && i < |ids|
  {
    var links := LinksOf(ids, parents);
    && cur < |ids|
    && (Distinct(ids) ==>
          && Climbing(links, flagged, order, i, cur) && FlagsAre(ids, parents, indexes, flagged)
          && (Ranked(links, rank) ==> Sorted(links, order) && Below(links, order, rank, i, cur)))
  }

  lemma EnterClimb(ids: seq<Value>, parents: seq<Value>, indexes: NodeIndex, flagged: set<nat>, order: Orders,
                   rank: seq<nat>, i: nat)
    requires |ids| == |parents| && i < |ids| && Between(ids, parents, indexes, flagged, order, rank, i)
    ensures Standing(ids, parents, indexes, flagged, order, rank, i, i)
  {
    var links := LinksOf(ids, parents);
    assert Climbs(links, i, 0, i);
    if Distinct(ids) {
      forall p, c | 0 <= p < |order| && p < |links| && c in order[p]
        ensures exists k: nat :: k < i && Reaches(links, k, c)
      {
        assert c in flagged;
      }
    }
  }

  lemma StandingStep(ids: seq<Value>, parents: seq<Value>, indexes: NodeIndex, flagged: set<nat>, order: Orders,
                     rank: seq<nat>, i: nat, cur: nat, p: nat, under: Value)
    requires |ids| == |parents| && i < |ids| && Standing(ids, parents, indexes, flagged, order, rank, i, cur)
    requires LinksOf(ids, parents)[cur] == Some(p) && under == GroupKey(ids, parents, p)
    requires !Flag(indexes, under, ids[cur]) && Within(order, |ids|)
    ensures Standing(ids, parents, Flagged(indexes, under, ids[cur]), flagged + {cur},
                     order[p := order[p] + [IndexOf(ids)[ids[cur]]]], rank, i, p)
  {
    if Distinct(ids) {
      var links := LinksOf(ids, parents);
      IndexDistinct(ids, cur);
      ClimbStep(links, flagged, order, i, cur);
      FlagStep(ids, parents, indexes, flagged, cur, under);
      if Ranked(links, rank) {
        SortStep(links, flagged, order, rank, i, cur);
      }
    }
  }

  lemma LeaveClimb(ids: seq<Value>, parents: seq<Value>, indexes: NodeIndex, flagged: set<nat>, order: Orders,
                   rank: seq<nat>, i: nat, cur: nat)
    requires |ids| == |parents| && i < |ids| && Standing(ids, parents, indexes, flagged, order, rank, i, cur)
    requires var links := LinksOf(ids, parents);
             links[cur].Some? ==> Flag(indexes, GroupKey(ids, parents, links[cur].value), ids[cur])
    ensures Between(ids, parents, indexes, flagged, order, rank, i + 1)
  {
    if Distinct(ids) {
      ClimbEnds(LinksOf(ids, parents), flagged, order, i, cur);
    }
  }

  // ----- the climbs as functions -----

  datatype State = State(indexes: NodeIndex, order: Orders)

  /** The pairs recorded in the dedup sets. */
  ghost function Recorded(ids: seq<Value>, indexes: NodeIndex): set<(Value, Value)> {
    set pair | pair in Pairs(ids) && Flag(indexes, pair.0, pair.1)
  }

  lemma RecordedGrows(ids: seq<Value>, indexes: NodeIndex, under: Value, id: Value)
    requires under in ids && id in ids && !Flag(indexes, under, id)
    ensures Recorded(ids, Flagged(indexes, under, id)) == Recorded(ids, indexes) + {(under, id)}
    ensures (under, id) in Pairs(ids) - Recorded(ids, indexes)
  {}

  ghost predicate Fits(ids: seq<Value>, parents: seq<Value>, st: State) {
    |ids| == |parents| && Within(st.order, |ids|)
  }

  /** Row `cur` is attached to its parent `p`. */
  ghost function AttachTo(ids: seq<Value>, parents: seq<Value>, st: State, cur: nat, p: nat): (st': State)
    requires Fits(ids, parents, st) && cur < |ids| && p < |ids|
    ensures Fits(ids, parents, st')
  {
    assert ids[cur] in ids;
    State(Flagged(st.indexes, GroupKey(ids, parents, p), ids[cur]),
          st.order[p := st.order[p] + [IndexOf(ids)[ids[cur]]]])
  }

  /** The rest of a climb that stands at row `cur`. */
  ghost function ClimbFrom(ids: seq<Value>, parents: seq<Value>, st: State, cur: nat): (st': State)
    requires Fits(ids, parents, st) && cur < |ids|
    ensures Fits(ids, parents, st')
    decreases Pairs(ids) - Recorded(ids, st.indexes)
  {
    var link := LinksOf(ids, parents)[cur];
    if link.None? || Flag(st.indexes, GroupKey(ids, parents, link.value), ids[cur]) then st
    else
      RecordedGrows(ids, st.indexes, GroupKey(ids, parents, link.value), ids[cur]);
      ClimbFrom(ids, parents, AttachTo(ids, parents, st, cur, link.value), link.value)
  }

  function NoneAttached(n: nat): (order: Orders)
    ensures |order| == n && forall p :: 0 <= p < n ==> order[p] == []
  {
    seq(n, _ => [])
  }

  /** After the climbs from the first `n` rows. */
  ghost function Sweep(ids: seq<Value>, parents: seq<Value>, n: nat): (st: State)
    requires |ids| == |parents| && n <= |ids|
    ensures Fits(ids, parents, st)
  {
    if n == 0 then State(map[], NoneAttached(|ids|))
    else ClimbFrom(ids, parents, Sweep(ids, parents, n - 1), n - 1)
  }

  // ----- what the climbs achieve -----

  lemma {:induction false} ClimbKeeps(ids: seq<Value>, parents: seq<Value>, st: State, flagged: set<nat>,
                                      rank: seq<nat>, i: nat, cur: nat)
    returns (flagged': set<nat>)
    requires Fits(ids, parents, st) && i < |ids| && cur < |ids|
    requires Standing(ids, parents, st.indexes, flagged, st.order, rank, i, cur)
    ensures var st' := ClimbFrom(ids, parents, st, cur);
            Between(ids, parents, st'.indexes, flagged', st'.order, rank, i + 1)
    decreases Pairs(ids) - Recorded(ids, st.indexes)
  {
    var link := LinksOf(ids, parents)[cur];
    if link.None? || Flag(st.indexes, GroupKey(ids, parents, link.value), ids[cur]) {
      LeaveClimb(ids, parents, st.indexes, flagged, st.order, rank, i, cur);
      flagged' := flagged;
    } else {
      var under := GroupKey(ids, parents, link.value);
      RecordedGrows(ids, st.indexes, under, ids[cur]);
      StandingStep(ids, parents, st.indexes, flagged, st.order, rank, i, cur, link.value, under);
      flagged' := ClimbKeeps(ids, parents, AttachTo(ids, parents, st, cur, link.value), flagged + {cur}, rank, i,
                             link.value);
    }
  }

  lemma NothingYet(ids: seq<Value>, parents: seq<Value>, rank: seq<nat>)
    requires |ids| == |parents|
    ensures Between(ids, parents, map[], {}, NoneAttached(|ids|), rank, 0)
  {}

  ghost predicate SweptTo(ids: seq<Value>, parents: seq<Value>, st: State, flagged: set<nat>, rank: seq<nat>, i: nat)
    requires |ids| == |parents| && i <= |ids|
  {
    Between(ids, parents, st.indexes, flagged, st.order, rank, i)
  }

  /** One more row is swept. */
  lemma SweepStepKeeps(ids: seq<Value>, parents: seq<Value>, st: State, before: set<nat>, rank: seq<nat>, i: nat)
    returns (flagged: set<nat>)
    requires Fits(ids, parents, st) && i < |ids| && SweptTo(ids, parents, st, before, rank, i)
    ensures SweptTo(ids, parents, ClimbFrom(ids, parents, st, i), flagged, rank, i + 1)
  {
    EnterClimb(ids, parents, st.indexes, before, st.order, rank, i);
    flagged := ClimbKeeps(ids, parents, st, before, rank, i, i);
  }

  lemma SweepStep(ids: seq<Value>, parents: seq<Value>, n: nat)
    requires |ids| == |parents| && n < |ids|
    ensures Sweep(ids, parents, n + 1) == ClimbFrom(ids, parents, Sweep(ids, parents, n), n)
  {}

  lemma SweepKeeps(ids: seq<Value>, parents: seq<Value>, rank: seq<nat>) returns (flagged: set<nat>, st: State)
    requires |ids| == |parents|
    ensures st == Sweep(ids, parents, |ids|)
    ensures SweptTo(ids, parents, st, flagged, rank, |ids|)
  {
    flagged, st := {}, Sweep(ids, parents, 0);
    NothingYet(ids, parents, rank);
    for n := 0 to |ids|
      invariant st == Sweep(ids, parents, n)
      invariant SweptTo(ids, parents, st, flagged, rank, n)
    {
      SweepStep(ids, parents, n);
      flagged := SweepStepKeeps(ids, parents, st, flagged, rank, n);
      st := ClimbFrom(ids, parents, st, n);
    }
  }

  ghost function Linked(links: Links): set<nat> {
    set j: nat | j < |links| && links[j].Some?
  }

  /**
   Distinct ids, cycles allowed: every row with a parent is attached to it exactly once. If the links are acyclic,
   children stand in the order in which their subtrees first occur among the rows.
   */
  lemma SweepAttaches(ids: seq<Value>, parents: seq<Value>, rank: seq<nat>)
    requires |ids| == |parents| && Distinct(ids)
    ensures var links := LinksOf(ids, parents);
            var order := Sweep(ids, parents, |ids|).order;
            Attached(links, Linked(links), order) && (Ranked(links, rank) ==> Sorted(links, order))
  {
    var flagged, st := SweepKeeps(ids, parents, rank);
    SweptAll(LinksOf(ids, parents), flagged, st.order);
  }

  lemma {:induction false} ClimbAdds(ids: seq<Value>, parents: seq<Value>, st: State, cur: nat)
    requires Fits(ids, parents, st) && cur < |ids| && !Empty(st.order)
    ensures !Empty(ClimbFrom(ids, parents, st, cur).order)
    decreases Pairs(ids) - Recorded(ids, st.indexes)
  {
    var link := LinksOf(ids, parents)[cur];
    if link.Some? && !Flag(st.indexes, GroupKey(ids, parents, link.value), ids[cur]) {
      RecordedGrows(ids, st.indexes, GroupKey(ids, parents, link.value), ids[cur]);
      var next := AttachTo(ids, parents, st, cur, link.value);
      assert next.order[link.value] != [];
      ClimbAdds(ids, parents, next, link.value);
    }
  }

  /** Whatever the ids, something is attached exactly when some row has a known parent. */
  lemma SweepAdds(ids: seq<Value>, parents: seq<Value>)
    requires |ids| == |parents|
    ensures Empty(Sweep(ids, parents, |ids|).order) <==> NoneKnown(ids, parents, |ids|)
  {
    var st := Sweep(ids, parents, 0);
    for n := 0 to |ids|
      invariant st == Sweep(ids, parents, n)
      invariant AddsKnown(ids, parents, st, n)
    {
      SweepStep(ids, parents, n);
      AddsNext(ids, parents, st, n);
      st := ClimbFrom(ids, parents, st, n);
    }
  }

  /** None of the first `n` rows has a known parent. */
  ghost predicate NoneKnown(ids: seq<Value>, parents: seq<Value>, n: nat)
    requires n <= |parents|
  {
    forall k :: 0 <= k < n ==> parents[k] !in ids
  }

  ghost predicate AddsKnown(ids: seq<Value>, parents: seq<Value>, st: State, n: nat)
    requires n <= |parents|
  {
    && (Empty(st.order) <==> NoneKnown(ids, parents, n))
    && (Empty(st.order) ==> st.indexes == map[])
  }

  lemma AddsNext(ids: seq<Value>, parents: seq<Value>, st: State, n: nat)
    requires Fits(ids, parents, st) && n < |ids| && AddsKnown(ids, parents, st, n)
    ensures AddsKnown(ids, parents, ClimbFrom(ids, parents, st, n), n + 1)
  {
    ClimbAddsFirst(ids, parents, st, n);
  }

  /** A climb attaches something exactly when its row has a known parent, or something was attached before. */
  lemma ClimbAddsFirst(ids: seq<Value>, parents: seq<Value>, st: State, i: nat)
    requires Fits(ids, parents, st) && i < |ids| && (Empty(st.order) ==> st.indexes == map[])
    ensures var st' := ClimbFrom(ids, parents, st, i);
            && (Empty(st'.order) <==> Empty(st.order) && parents[i] !in ids)
            && (Empty(st'.order) ==> st'.indexes == map[])
  {
    var link := LinksOf(ids, parents)[i];
    if !Empty(st.order) {
      ClimbAdds(ids, parents, st, i);
    } else if link.Some? {
      RecordedGrows(ids, st.indexes, GroupKey(ids, parents, link.value), ids[i]);
      var next := AttachTo(ids, parents, st, i, link.value);
      assert next.order[link.value] != [];
      ClimbAdds(ids, parents, next, link.value);
    }
  }

  // ----- the algorithm on the heap -----

  method GroupOf(nodes: seq<Node>, index: map<Value, nat>, p: nat) returns (under: Value)
    requires p < |nodes| && index == IndexOf(Ids(nodes))
    ensures under == GroupKey(Ids(nodes), Parents(nodes), p) && under in Ids(nodes)
  {
    var parentKey := NormalizeKey(nodes[p].parent);
    var parentIndex := if parentKey in index then index[parentKey] else 0;
    under := NormalizeKey(nodes[parentIndex].id);
    assert under == Ids(nodes)[parentIndex];
  }

  /** A row joins the holder of its parent `p`, and is recorded. */
  method Attach(nodes: seq<Node>, index: map<Value, nat>, indexes: NodeIndex, node: Node, p: nat, under: Value,
                ghost cur: nat, ghost before: seq<seq<Node>>, ghost order: Orders)
    returns (indexes': NodeIndex, ghost order': Orders)
    requires OwnNodes(nodes) && index == IndexOf(Ids(nodes)) && cur < |nodes| && p < |nodes| && node == nodes[cur]
    requires under == GroupKey(Ids(nodes), Parents(nodes), p)
    requires |before| == |nodes| && Within(order, |nodes|) && Extended(nodes, before, order)
    modifies nodes[p]
    ensures Within(order', |nodes|) && Extended(nodes, before, order')
    ensures State(indexes', order') == AttachTo(Ids(nodes), Parents(nodes), State(indexes, order), cur, p)
  {
    var nodeId := NormalizeKey(node.id);
    assert nodeId == Ids(nodes)[cur];
    var at := index[nodeId];
    Append(nodes, p, at, before, order);
    indexes' := Flagged(indexes, under, nodeId);
    order' := order[p := order[p] + [at]];
  }

  /** A climb goes on from the parent, and the pairs that are left become fewer. */
  lemma ClimbGoesOn(ids: seq<Value>, parents: seq<Value>, st: State, cur: nat, p: nat)
    requires Fits(ids, parents, st) && cur < |ids| && LinksOf(ids, parents)[cur] == Some(p)
    requires !Flag(st.indexes, GroupKey(ids, parents, p), ids[cur])
    ensures var st' := AttachTo(ids, parents, st, cur, p);
            && ClimbFrom(ids, parents, st, cur) == ClimbFrom(ids, parents, st', p)
            && Recorded(ids, st.indexes) <= Recorded(ids, st'.indexes)
            && Pairs(ids) - Recorded(ids, st'.indexes) < Pairs(ids) - Recorded(ids, st.indexes)
  {
    RecordedGrows(ids, st.indexes, GroupKey(ids, parents, p), ids[cur]);
  }

  /** Climbs from row `i`, attaching each row to its parent, until a row without parent or one already attached. */
  method Climb(nodes: seq<Node>, index: map<Value, nat>, indexes: NodeIndex, i: nat,
               ghost before: seq<seq<Node>>, ghost order: Orders)
    returns (indexes': NodeIndex, ghost order': Orders)
    requires OwnNodes(nodes)
    requires i < |nodes| && index == IndexOf(Ids(nodes))
    requires |before| == |nodes| && Within(order, |nodes|) && Extended(nodes, before, order)
    modifies set node | node in nodes
    ensures Within(order', |nodes|) && Extended(nodes, before, order')
    ensures State(indexes', order') == ClimbFrom(Ids(nodes), Parents(nodes), State(indexes, order), i)
  {
    ghost var ids, parents := Ids(nodes), Parents(nodes);
    indexes', order' := indexes, order;
    var node := nodes[i];
    ghost var cur: nat := i;
    var parentKey := NormalizeKey(node.parent);
    var ok := parentKey in index;
    var nodeParentIndex := if ok then index[parentKey] else 0;
    while ok
      invariant cur < |nodes| && node == nodes[cur]
      invariant ok == (parents[cur] in index) && (ok ==> nodeParentIndex == index[parents[cur]])
      invariant Within(order', |nodes|) && Extended(nodes, before, order')
      invariant ClimbFrom(ids, parents, State(indexes', order'), cur) ==
                ClimbFrom(ids, parents, State(indexes, order), i)
      decreases Pairs(ids) - Recorded(ids, indexes')
    {
      var parent := nodes[nodeParentIndex];
      var under := GroupOf(nodes, index, nodeParentIndex);
      if Flag(indexes', under, NormalizeKey(node.id)) {
        break;
      }
      ClimbGoesOn(ids, parents, State(indexes', order'), cur, nodeParentIndex);
      indexes', order' := Attach(nodes, index, indexes', node, nodeParentIndex, under, cur, before, order');
      node := parent;
      cur := nodeParentIndex;
      parentKey := NormalizeKey(parent.parent);
      ok := parentKey in index;
      nodeParentIndex := if ok then index[parentKey] else 0;
    }
  }

  ghost function HoldersOf(nodes: seq<Node>): seq<seq<Node>>
    reads nodes
  {
    seq(|nodes|, p requires 0 <= p < |nodes| reads nodes => nodes[p].holder)
  }

  /** Returns the rows without a known parent; every holder is extended as the sweep says. Any links, any ids. */
  method BuildTree(nodes: seq<Node>) returns (result: seq<Node>)
    requires OwnNodes(nodes)
    modifies set node | node in nodes
    ensures result == Roots(nodes, Ids(nodes))
    ensures Extended(nodes, old(HoldersOf(nodes)), Sweep(Ids(nodes), Parents(nodes), |nodes|).order)
  {
    ghost var ids, parents, before := Ids(nodes), Parents(nodes), HoldersOf(nodes);
    var index := IndexNodes(nodes);
    var indexes: NodeIndex := map[];
    ghost var order := Sweep(ids, parents, 0).order;
    for i := 0 to |nodes|
      invariant Within(order, |nodes|) && Extended(nodes, before, order)
      invariant State(indexes, order) == Sweep(ids, parents, i)
    {
      indexes, order := Climb(nodes, index, indexes, i, before, order);
    }
    result := CollectRoots(nodes, index);
  }
}
