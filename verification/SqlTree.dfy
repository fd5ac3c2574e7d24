/**
 When the parents that `BuildTree` finds in memory are those that the database would find (view/collector.go,
 view/key.go).
 */
module SqlTree {
  import opened Forest
  import opened Keys
  import opened SelfTree

  function Normalized(values: seq<Value>): (keys: seq<Value>)
    ensures |keys| == |values| && forall i :: 0 <= i < |keys| ==> keys[i] == NormalizeKey(values[i])
  {
    seq(|values|, i requires 0 <= i < |values| => NormalizeKey(values[i]))
  }

  function LinksIn(ids: seq<Value>, parents: seq<Value>): (links: Links)
    requires |ids| == |parents|
    ensures |links| == |ids| && WellLinked(links)
  {
    LinksOf(Normalized(ids), Normalized(parents))
  }

  /** The columns have these types, and no id shares a variable with a parent. */
  ghost predicate TypedKeys(ids: seq<Value>, parents: seq<Value>, id: GoType, parent: GoType) {
    && |ids| == |parents|
    && (forall i :: 0 <= i < |ids| ==> HasType(ids[i], id) && HasType(parents[i], parent))
    && (forall i, p :: 0 <= i < |ids| && 0 <= p < |ids| ==> Unaliased(parents[i], ids[p]))
  }

  /** The rows have the parents that the database finds for them. */
  ghost predicate LinkedAsInSql(ids: seq<Value>, parents: seq<Value>)
    requires |ids| == |parents|
  {
    forall i, p: nat :: 0 <= i < |ids| && p < |ids| && !IsNull(parents[i]) ==>
      (LinksIn(ids, parents)[i] == Some(p) <==> ToSql(ids[p]) == ToSql(parents[i]))
  }

  lemma ComparableLinked(ids: seq<Value>, parents: seq<Value>, id: GoType, parent: GoType)
    requires TypedKeys(ids, parents, id, parent) && Distinct(Normalized(ids)) && Comparable(parent, id)
    ensures LinkedAsInSql(ids, parents)
  {
    var keys := Normalized(ids);
    forall i, p: nat | 0 <= i < |ids| && p < |ids| && !IsNull(parents[i])
      ensures LinksIn(ids, parents)[i] == Some(p) <==> ToSql(ids[p]) == ToSql(parents[i])
    {
      NormalizeKeeps(parents[i]);
      NormalizeKeeps(ids[p]);
      if !IsNull(ids[p]) {
        ComparableAgree(parent, id, parents[i], ids[p]);
      }
      IndexDistinct(keys, p);
      assert keys[p] in keys;
    }
  }

  /**
   Whatever the rows, those with a parent in the database find it in memory exactly when id and parent columns have one
   type other than a pointer that is left alone, or types without a common content.
   */
  lemma LinkedExactlyWhen(id: GoType, parent: GoType)
    ensures (forall ids, parents :: TypedKeys(ids, parents, id, parent) && Distinct(Normalized(ids)) ==>
               LinkedAsInSql(ids, parents))
            <==> Comparable(parent, id)
  {
    if Comparable(parent, id) {
      forall ids, parents | TypedKeys(ids, parents, id, parent) && Distinct(Normalized(ids))
        ensures LinkedAsInSql(ids, parents)
      {
        ComparableLinked(ids, parents, id, parent);
      }
    } else {
      var ids, parents := [SampleOf(id, 1)], [SampleOf(parent, 0)];
      SamplesDisagree(parent, id);
      assert TypedKeys(ids, parents, id, parent);
      assert LinksIn(ids, parents)[0] == None;
    }
  }

  // ----- rows on the heap -----

  function IdsOf(nodes: seq<Node>): (ids: seq<Value>)
    ensures |ids| == |nodes| && Normalized(ids) == Ids(nodes)
  {
    seq(|nodes|, i requires 0 <= i < |nodes| => nodes[i].id)
  }

  function ParentsOf(nodes: seq<Node>): (parents: seq<Value>)
    ensures |parents| == |nodes| && Normalized(parents) == Parents(nodes)
  {
    seq(|nodes|, i requires 0 <= i < |nodes| => nodes[i].parent)
  }

  lemma PointersMeetAsNulls(a: Value, b: Value, p: GoType, c: GoType)
    requires HasType(a, p) && HasType(b, c) && Unaliased(a, b) && (p.RefType? || c.RefType?)
    requires NormalizeKey(a) == NormalizeKey(b)
    ensures IsNull(a)
  {}

  /** With text ids and a nullable text parent, or the other way round, no row is attached and all are returned. */
  lemma {:induction false} PointersAllReturned(nodes: seq<Node>, id: GoType, parent: GoType)
    requires TypedKeys(IdsOf(nodes), ParentsOf(nodes), id, parent) && (id.RefType? || parent.RefType?)
    ensures Roots(nodes, Ids(nodes)) == nodes
  {
    var ids, parents := IdsOf(nodes), ParentsOf(nodes);
    forall node | node in nodes
      ensures IsRoot(node, Ids(nodes))
    {
      var i :| 0 <= i < |nodes| && nodes[i] == node;
      if NormalizeKey(node.parent) in Ids(nodes) {
        var p :| 0 <= p < |nodes| && Ids(nodes)[p] == NormalizeKey(node.parent);
        PointersMeetAsNulls(parents[i], ids[p], parent, id);
      }
    }
    RootsAgain(nodes, Ids(nodes));
  }

  /**
   Rows of comparable key types, in a read without NULL ids: the row is attached once to the row that the database calls
   its parent, and to no other.
   */
  lemma {:induction false} AttachedAsInSql(nodes: seq<Node>, id: GoType, parent: GoType, i: nat, p: nat)
    requires TypedKeys(IdsOf(nodes), ParentsOf(nodes), id, parent) && Comparable(parent, id)
    requires Distinct(Ids(nodes)) && NoNulls(Ids(nodes)) && i < |nodes| && p < |nodes|
    ensures var order := Sweep(Ids(nodes), Parents(nodes), |nodes|).order;
            i in order[p] <==> ToSql(nodes[p].id) == ToSql(nodes[i].parent)
  {
    var links, order := LinksOf(Ids(nodes), Parents(nodes)), Sweep(Ids(nodes), Parents(nodes), |nodes|).order;
    SweepAttaches(Ids(nodes), Parents(nodes), []);
    AttachedToLink(links, order, i, p);
    LinkAsInSql(nodes, links, id, parent, i, p);
  }

  lemma {:induction false} LinkAsInSql(nodes: seq<Node>, links: Links, id: GoType, parent: GoType, i: nat, p: nat)
    requires TypedKeys(IdsOf(nodes), ParentsOf(nodes), id, parent) && Comparable(parent, id)
    requires Distinct(Ids(nodes)) && NoNulls(Ids(nodes)) && i < |nodes| && p < |nodes|
    requires links == LinksOf(Ids(nodes), Parents(nodes))
    ensures links[i] == Some(p) <==> ToSql(nodes[p].id) == ToSql(nodes[i].parent)
  {
    var ids, parents := IdsOf(nodes), ParentsOf(nodes);
    ComparableLinked(ids, parents, id, parent);
    NullUnlinked(nodes, i, p);
    assert links == LinksIn(ids, parents) && ids[p] == nodes[p].id && parents[i] == nodes[i].parent;
  }

  lemma AttachedToLink(links: Links, order: Orders, i: nat, p: nat)
    requires WellLinked(links) && Attached(links, Linked(links), order) && i < |links| && p < |links|
    ensures i in order[p] <==> links[i] == Some(p)
  {}

  /** Without NULL ids, a row with a NULL parent has none, in memory and in the database. */
  lemma NullUnlinked(nodes: seq<Node>, i: nat, p: nat)
    requires NoNulls(Ids(nodes)) && i < |nodes| && p < |nodes|
    ensures IsNull(nodes[i].parent) ==> LinksOf(Ids(nodes), Parents(nodes))[i].None?
    ensures !IsNull(nodes[p].id)
  {
    NormalizeKeeps(nodes[i].parent);
    NormalizeKeeps(nodes[p].id);
    assert Ids(nodes)[p] in Ids(nodes) && Parents(nodes)[i] == NormalizeKey(nodes[i].parent);
  }
}
