/**
 The trie of routes (router/matcher.go). In ghost state a node keeps the routes that were added to it; its children keep
 those of them that go on, and a search returns what the list of routes selects.
 */
module RouteTrie {
  import opened Keys
  import opened Routes

  /** A list of routes by the ways they go on; what a node has to keep of them. */
  datatype Ways = Ways(under: map<string, seq<Route>>, wild: seq<Route>, ending: seq<nat>)

  function WithRoute(w: Ways, route: Route): Ways {
    if route.segs == [] then (if route.index in w.ending then w else w.(ending := w.ending + [route.index]))
    else if IsWild(route.segs[0]) then w.(wild := w.wild + [Tail(route)])
    else
      var s := route.segs[0];
      w.(under := w.under[s := (if s in w.under then w.under[s] else []) + [Tail(route)]])
  }

  function WaysOf(routes: seq<Route>): Ways {
    if routes == [] then Ways(map[], [], []) else WithRoute(WaysOf(routes[..|routes| - 1]), routes[|routes| - 1])
  }

  lemma WaysMore(routes: seq<Route>, route: Route)
    ensures WaysOf(routes + [route]) == WithRoute(WaysOf(routes), route)
  {
    assert (routes + [route])[..|routes|] == routes;
  }

  lemma {:induction false} WaysAre(routes: seq<Route>, s: string)
    ensures Under(routes, s) == if s in WaysOf(routes).under then WaysOf(routes).under[s] else []
    ensures s in WaysOf(routes).under ==> Under(routes, s) != []
    ensures UnderWild(routes) == WaysOf(routes).wild && Ending(routes) == WaysOf(routes).ending
    decreases |routes|
  {
    if routes != [] {
      WaysAre(routes[..|routes| - 1], s);
    }
  }

  lemma {:induction false} LeafWays(routes: seq<Route>)
    ensures Leaf(routes) <==> WaysOf(routes).under == map[] && WaysOf(routes).wild == []
    decreases |routes|
  {
    if routes != [] {
      var front, last := routes[..|routes| - 1], routes[|routes| - 1];
      LeafWays(front);
      assert routes == front + [last];
      assert last.segs != [] && !IsWild(last.segs[0]) ==> last.segs[0] in WaysOf(routes).under;
      assert Leaf(routes) <==> Leaf(front) && last.segs == [];
    }
  }

  /** A node's fields, as a value. */
  datatype Fields = Fields(matched: seq<nat>, positionIndex: set<nat>, urlIndex: map<string, nat>,
                           exactChildren: seq<Node>, wildcardMatcher: Node?)

  datatype State = State(f: Fields, routes: seq<Route>)

  const EMPTY: State := State(Fields([], {}, map[], [], null), [])

  const NOTHING: Route := Route(0, [])

  /** All nodes and their states. */
  type Trie = map<Node, State>

  ghost function TrieOf(nodes: set<Node>): Trie
    reads nodes
  {
    map n | n in nodes :: n.StateOf()
  }

  class Node {
    var matched: seq<nat>
    var exactChildren: seq<Node>
    var wildcardMatcher: Node?
    var urlIndex: map<string, nat>
    var positionIndex: set<nat>

    /** The routes that were added. */
    ghost var routes: seq<Route>
    /** Where the node hangs: under a literal, or as the wildcard. */
    ghost const parent: Node?
    ghost const name: Option<string>
    ghost const depth: nat

    constructor (ghost parent: Node?, ghost name: Option<string>, ghost depth: nat)
      ensures StateOf() == EMPTY && this.parent == parent && this.name == name && this.depth == depth
    {
      matched, exactChildren, wildcardMatcher, urlIndex, positionIndex := [], [], null, map[], {};
      routes := [];
      this.parent, this.name, this.depth := parent, name, depth;
    }

    ghost function StateOf(): State
      reads this
    {
      State(Fields(matched, positionIndex, urlIndex, exactChildren, wildcardMatcher), routes)
    }

    ghost predicate Hangs(parent: Node, name: Option<string>) {
      this.parent == parent && this.name == name && depth == parent.depth + 1
    }

    method GetChildOrCreate(segment: string, ghost t: Trie) returns (child: Node, ghost t': Trie, ghost made: set<Node>)
      requires t == TrieOf(t.Keys) && this in t
      requires segment in urlIndex ==> urlIndex[segment] < |exactChildren|
      modifies this`urlIndex, this`exactChildren
      ensures t' == TrieOf(t'.Keys) && t'.Keys == t.Keys + made && fresh(made)
      ensures segment in old(urlIndex) ==> child == old(exactChildren[urlIndex[segment]]) && t' == t
      ensures segment !in old(urlIndex) ==>
                fresh(child) && child.Hangs(this, Some(segment)) && t' == WithLiteral(t, this, segment, child)
    {
      if segment in urlIndex {
        return exactChildren[urlIndex[segment]], t, {};
      }
      urlIndex := urlIndex[segment := |exactChildren|];
      child := new Node(this, Some(segment), depth + 1);
      exactChildren := exactChildren + [child];
      t', made := WithLiteral(t, this, segment, child), {child};
    }

    method GetWildcardMatcher(ghost t: Trie) returns (child: Node, ghost t': Trie, ghost made: set<Node>)
      requires t == TrieOf(t.Keys) && this in t
      modifies this`wildcardMatcher
      ensures t' == TrieOf(t'.Keys) && t'.Keys == t.Keys + made && fresh(made)
      ensures old(wildcardMatcher) != null ==> child == old(wildcardMatcher) && t' == t
      ensures old(wildcardMatcher) == null ==>
              fresh(child) && child.Hangs(this, None) && t' == WithWildcard(t, this, child)
    {
      if wildcardMatcher != null {
        return wildcardMatcher, t, {};
      }
      child := new Node(this, None, depth + 1);
      wildcardMatcher := child;
      t', made := WithWildcard(t, this, child), {child};
    }

    /**
     Adds a route to the node it is pending for. No segment of it may be empty, which rules out a last segment of a
     single character. Nodes beside and above the node keep their routes.
     */
    method Add(routeIndex: nat, uri: string, ghost t: Trie, ghost route: Route)
      returns (ghost t': Trie, ghost made: set<Node>)
      requires t == TrieOf(t.Keys) && this in t && Forest(t, this, route)
      requires route == Route(routeIndex, Segments(uri)) && "" !in route.segs
      modifies t.Keys
      ensures t' == TrieOf(t'.Keys) && t'.Keys == t.Keys + made && fresh(made)
      ensures Forest(t', null, NOTHING)
      ensures t'[this].routes == t[this].routes + [route]
      ensures forall n :: n in t && n != this && n.depth <= depth ==> t'[n].routes == t[n].routes
      decreases |uri|, 1
    {
      ghost var list := routes;
      ghost var w := WaysOf(list);
      ghost var u := WithRoutes(t, this, list + [route]);
      assert u.Keys == t.Keys;
      WaysMore(list, route);
      TakeRoute(t, this, route);
      routes := routes + [route];
      assert u == TrieOf(u.Keys);
      t', made := AddTaken(routeIndex, uri, u, w, route);
    }

    method AddTaken(routeIndex: nat, uri: string, ghost u: Trie, ghost w: Ways, ghost route: Route)
      returns (ghost t': Trie, ghost made: set<Node>)
      requires u == TrieOf(u.Keys) && this in u && Almost(u, this, w, null, NOTHING)
               && WaysOf(routes) == WithRoute(w, route)
      requires route == Route(routeIndex, Segments(uri)) && "" !in route.segs
      modifies u.Keys
      ensures t' == TrieOf(t'.Keys) && t'.Keys == u.Keys + made && fresh(made)
      ensures Forest(t', null, NOTHING)
      ensures forall n :: n in u && n.depth <= depth ==> t'[n].routes == u[n].routes
      decreases |uri|, 0
    {
      if uri == "" {
        t' := AddHere(routeIndex, u, w, route);
        return t', {};
      }
      var (segment, remaining) := ExtractSegment(uri);
      assert route.segs == [segment] + Segments(remaining);
      ghost var child, v, first, rest;
      child, v, t', first, rest := AddBelow(segment, routeIndex, remaining, u, w, route);
      made := first + rest;
      RoutesKept(u, v, t', child, depth, first, rest);
    }

    /** `v` is the trie between the two steps: the child is there, and the route is pending for it. */
    method AddBelow(segment: string, routeIndex: nat, remaining: string, ghost u: Trie, ghost w: Ways,
                    ghost route: Route)
      returns (ghost child: Node, ghost v: Trie, ghost t': Trie, ghost first: set<Node>, ghost rest: set<Node>)
      requires u == TrieOf(u.Keys) && this in u && Almost(u, this, w, null, NOTHING)
               && WaysOf(routes) == WithRoute(w, route)
      requires route.segs == [segment] + Segments(remaining) && route.index == routeIndex && "" !in route.segs
      modifies u.Keys
      ensures v.Keys == u.Keys + first && fresh(first) && child.depth == depth + 1
      ensures t' == TrieOf(t'.Keys) && t'.Keys == v.Keys + rest && fresh(rest)
      ensures Forest(t', null, NOTHING)
      ensures forall n :: n in u ==> v[n].routes == u[n].routes
      ensures forall n :: n in v && n != child && n.depth <= child.depth ==> t'[n].routes == v[n].routes
      decreases |remaining|, 2
    {
      var next;
      next, v, first := NextOrCreate(segment, u, w, route);
      assert Tail(route).segs == Segments(remaining);
      t', rest := next.Add(routeIndex, remaining, v, Tail(route));
      child := next;
    }

    method NextOrCreate(segment: string, ghost u: Trie, ghost w: Ways, ghost route: Route)
      returns (child: Node, ghost v: Trie, ghost made: set<Node>)
      requires u == TrieOf(u.Keys) && this in u && Almost(u, this, w, null, NOTHING)
      requires route.segs != [] && route.segs[0] == segment && segment != "" && WaysOf(routes) == WithRoute(w, route)
      modifies this`urlIndex, this`exactChildren, this`wildcardMatcher
      ensures v == TrieOf(v.Keys) && v.Keys == u.Keys + made && fresh(made)
      ensures child in v && child.depth == depth + 1 && Forest(v, child, Tail(route))
      ensures forall n :: n in u ==> v[n].routes == u[n].routes
    {
      if segment[0] == '{' {
        child, v, made := Wildcard(u, w, route);
      } else {
        child, v, made := Literal(segment, u, w, route);
      }
    }

    method AddHere(routeIndex: nat, ghost u: Trie, ghost w: Ways, ghost route: Route) returns (ghost v: Trie)
      requires u == TrieOf(u.Keys) && this in u && Almost(u, this, w, null, NOTHING)
      requires route == Route(routeIndex, []) && WaysOf(routes) == WithRoute(w, route)
      modifies this`matched, this`positionIndex
      ensures v == TrieOf(v.Keys) && u.Keys == v.Keys && Forest(v, null, NOTHING)
      ensures forall n :: n in u ==> v[n].routes == u[n].routes
    {
      assert Keeps(u[this].f, w);
      TakeEnding(u, this, w, route);
      v := AppendMatched(routeIndex, u);
    }

    method AppendMatched(routeIndex: nat, ghost t: Trie) returns (ghost t': Trie)
      requires t == TrieOf(t.Keys) && this in t && positionIndex == set i | i in matched
      modifies this`matched, this`positionIndex
      ensures t' == TrieOf(t'.Keys)
      ensures t' == EndingAt(t, this, if routeIndex in old(matched) then old(matched) else old(matched) + [routeIndex])
    {
      if routeIndex !in positionIndex {
        matched := matched + [routeIndex];
        positionIndex := positionIndex + {routeIndex};
      }
      t' := EndingAt(t, this, matched);
      assert t'[this] == StateOf();
    }

    method Literal(segment: string, ghost u: Trie, ghost w: Ways, ghost route: Route)
      returns (child: Node, ghost v: Trie, ghost made: set<Node>)
      requires u == TrieOf(u.Keys) && this in u && Almost(u, this, w, null, NOTHING)
      requires route.segs != [] && route.segs[0] == segment && Takes(route, segment)
               && WaysOf(routes) == WithRoute(w, route)
      modifies this`urlIndex, this`exactChildren
      ensures v == TrieOf(v.Keys) && v.Keys == u.Keys + made && fresh(made)
      ensures child in v && child.depth == depth + 1 && Forest(v, child, Tail(route))
      ensures forall n :: n in u ==> v[n].routes == u[n].routes
    {
      assert Keeps(u[this].f, w);
      child, v, made := GetChildOrCreate(segment, u);
      LiteralStep(u, v, this, w, route, child);
    }

    method Wildcard(ghost u: Trie, ghost w: Ways, ghost route: Route)
      returns (child: Node, ghost v: Trie, ghost made: set<Node>)
      requires u == TrieOf(u.Keys) && this in u && Almost(u, this, w, null, NOTHING)
      requires TakesAny(route) && WaysOf(routes) == WithRoute(w, route)
      modifies this`wildcardMatcher
      ensures v == TrieOf(v.Keys) && v.Keys == u.Keys + made && fresh(made)
      ensures child in v && child.depth == depth + 1 && Forest(v, child, Tail(route))
      ensures forall n :: n in u ==> v[n].routes == u[n].routes
    {
      child, v, made := GetWildcardMatcher(u);
      WildcardStep(u, v, this, w, route, child);
    }

    method NextMatcher(segment: string, ghost t: Trie) returns (node: Node?)
      requires t == TrieOf(t.Keys) && this in t && Forest(t, null, NOTHING)
      ensures Under(routes, segment) != [] ==> node != null && node in t && node.routes == Under(routes, segment)
      ensures Under(routes, segment) == [] && UnderWild(routes) != [] ==>
              node != null && node in t && node.routes == UnderWild(routes)
      ensures Under(routes, segment) == [] && UnderWild(routes) == [] ==> node == null
    {
      ghost var w := WaysOf(t[this].routes);
      WaysAre(routes, segment);
      assert Sound(t, this, null, NOTHING);
      if segment !in urlIndex && wildcardMatcher != null {
        assert Link(t, this, None, wildcardMatcher, w.wild, null, NOTHING);
        return wildcardMatcher;
      }
      if segment in urlIndex {
        assert LinkAt(t, this, w, segment, null, NOTHING);
        return exactChildren[urlIndex[segment]];
      }
      return null;
    }

    /** Appends the node that a search ends at: the one that keeps the selected routes. */
    method Match(route: string, exact: bool, dest: seq<Node>, ghost t: Trie) returns (dest': seq<Node>)
      requires t == TrieOf(t.Keys) && this in t && Forest(t, null, NOTHING)
      ensures Selected(routes, Segments(route), exact).None? ==> dest' == dest
      ensures Selected(routes, Segments(route), exact).Some? ==>
                && |dest'| == |dest| + 1 && dest' == dest + [dest'[|dest|]]
                && dest'[|dest|].matched == Ending(Selected(routes, Segments(route), exact).value)
      decreases |route|
    {
      LeafNode(t, this);
      if route == "" {
        return dest + [this];
      }
      var (segment, path) := ExtractSegment(route);
      var node := NextMatcher(segment, t);
      if node != null {
        dest' := node.Match(path, exact, dest, t);
        return dest';
      }
      if wildcardMatcher == null && |exactChildren| == 0 && !exact {
        return dest + [this];
      }
      return dest;
    }
  }

  ghost function WithLiteral(t: Trie, n: Node, segment: string, child: Node): Trie
    requires n in t
  {
    t[n := t[n].(f := LiteralFields(t[n].f, segment, child))][child := EMPTY]
  }

  function LiteralFields(f: Fields, segment: string, child: Node): Fields {
    f.(urlIndex := f.urlIndex[segment := |f.exactChildren|], exactChildren := f.exactChildren + [child])
  }

  ghost function WithWildcard(t: Trie, n: Node, child: Node): Trie
    requires n in t
  {
    t[n := t[n].(f := t[n].f.(wildcardMatcher := child))][child := EMPTY]
  }

  ghost function EndingAt(t: Trie, n: Node, ending: seq<nat>): Trie
    requires n in t
  {
    t[n := t[n].(f := t[n].f.(matched := ending, positionIndex := set i | i in ending))]
  }

  ghost function WithRoutes(t: Trie, n: Node, routes: seq<Route>): Trie
    requires n in t
  {
    t[n := t[n].(routes := routes)]
  }

  // ----- what holds of every node -----

  /** The fields hold the routes that end here, and have a child for each way that a route goes on. */
  ghost predicate Keeps(f: Fields, w: Ways) {
    && |f.exactChildren| == |f.urlIndex|
    && (forall s :: s in f.urlIndex ==> f.urlIndex[s] < |f.exactChildren|)
    && f.urlIndex.Keys == w.under.Keys
    && (f.wildcardMatcher != null <==> w.wild != [])
    && f.matched == w.ending
    && f.positionIndex == (set i | i in f.matched)
  }

  /** A child that hangs here keeps these routes, if the pending one is added to it. */
  ghost predicate Link(t: Trie, owner: Node, name: Option<string>, child: Node, routes: seq<Route>, pending: Node?,
                       extra: Route) {
    && child in t && child.Hangs(owner, name)
    && routes == if child == pending then t[child].routes + [extra] else t[child].routes
  }

  /** The child under a literal. */
  ghost predicate LinkAt(t: Trie, n: Node, w: Ways, s: string, pending: Node?, extra: Route) {
    && n in t && s in t[n].f.urlIndex && t[n].f.urlIndex[s] < |t[n].f.exactChildren| && s in w.under
    && Link(t, n, Some(s), t[n].f.exactChildren[t[n].f.urlIndex[s]], w.under[s], pending, extra)
  }

  ghost predicate Linked(t: Trie, n: Node, w: Ways, pending: Node?, extra: Route)
    requires n in t && Keeps(t[n].f, w)
  {
    var f := t[n].f;
    && (forall s {:trigger LinkAt(t, n, w, s, pending, extra)} :: s in f.urlIndex ==>
        LinkAt(t, n, w, s, pending, extra))
    && (f.wildcardMatcher != null ==> Link(t, n, None, f.wildcardMatcher, w.wild, pending, extra))
  }

  ghost predicate Local(t: Trie, n: Node, w: Ways, pending: Node?, extra: Route)
    requires n in t
  {
    Keeps(t[n].f, w) && Linked(t, n, w, pending, extra)
  }

  /** Every node agrees with its children, if the pending route is added to its node. */
  ghost predicate Forest(t: Trie, pending: Node?, extra: Route) {
    forall n {:trigger Sound(t, n, pending, extra)} :: n in t ==> Sound(t, n, pending, extra)
  }

  ghost predicate Sound(t: Trie, n: Node, pending: Node?, extra: Route) {
    n in t && Local(t, n, WaysOf(t[n].routes), pending, extra)
  }

  /** Every node but `n` agrees with its children; `n` does with the routes that `w` sums up. */
  ghost predicate Almost(t: Trie, n: Node, w: Ways, pending: Node?, extra: Route)
    requires n in t
  {
    && Local(t, n, w, pending, extra)
    && forall m {:trigger Sound(t, m, pending, extra)} :: m in t && m != n ==> Sound(t, m, pending, extra)
  }

  lemma RoutesKept(u: Trie, v: Trie, t': Trie, child: Node, depth: nat, first: set<Node>, rest: set<Node>)
    requires v.Keys == u.Keys + first && t'.Keys == v.Keys + rest && child.depth == depth + 1
    requires forall n :: n in u ==> v[n].routes == u[n].routes
    requires forall n :: n in v && n != child && n.depth <= child.depth ==> t'[n].routes == v[n].routes
    ensures t'.Keys == u.Keys + (first + rest)
    ensures forall n :: n in u && n.depth <= depth ==> t'[n].routes == u[n].routes
  {
    forall n | n in u && n.depth <= depth ensures t'[n].routes == u[n].routes {
      assert n in v;
    }
  }

  lemma LocalTaken(t: Trie, m: Node, w: Ways, n: Node, route: Route)
    requires n in t && m in t && Local(t, m, w, n, route)
    ensures Local(WithRoutes(t, n, t[n].routes + [route]), m, w, null, NOTHING)
  {
    var f, t' := t[m].f, WithRoutes(t, n, t[n].routes + [route]);
    assert t'[m].f == f;
    forall s | s in f.urlIndex
      ensures LinkAt(t', m, w, s, null, NOTHING)
    {
      assert LinkAt(t, m, w, s, n, route);
    }
  }

  /** The pending route is added to the list of its node: its parent agrees with it now, the children do not. */
  lemma TakeRoute(t: Trie, n: Node, route: Route)
    requires n in t && Forest(t, n, route)
    ensures Almost(WithRoutes(t, n, t[n].routes + [route]), n, WaysOf(t[n].routes), null, NOTHING)
  {
    var t' := WithRoutes(t, n, t[n].routes + [route]);
    assert Sound(t, n, n, route);
    LocalTaken(t, n, WaysOf(t[n].routes), n, route);
    forall m | m in t' && m != n ensures Sound(t', m, null, NOTHING) {
      assert Sound(t, m, n, route);
      LocalTaken(t, m, WaysOf(t[m].routes), n, route);
    }
  }

  /** A change of the node's fields, or a new node, that other nodes do not see; a child of the node may get a route. */
  lemma LocalKept(t: Trie, t': Trie, m: Node, w: Ways, n: Node, pending: Node?, extra: Route)
    requires m in t && m in t' && t[m].f == t'[m].f && Local(t, m, w, null, NOTHING)
    requires forall k :: k in t ==> k in t' && t'[k].routes == t[k].routes
    requires pending != null ==> pending.parent == n && m != n
    ensures Local(t', m, w, pending, extra)
  {
    var f := t[m].f;
    forall s | s in f.urlIndex ensures LinkAt(t', m, w, s, pending, extra) {
      assert LinkAt(t, m, w, s, null, NOTHING);
    }
  }

  lemma EmptyLocal(t: Trie, n: Node, pending: Node?, extra: Route)
    requires n in t && t[n] == EMPTY
    ensures Local(t, n, WaysOf([]), pending, extra)
  {}

  lemma LocalEnding(t: Trie, n: Node, w: Ways, route: Route)
    requires n in t && route.segs == [] && Local(t, n, w, null, NOTHING)
    ensures Local(EndingAt(t, n, WithRoute(w, route).ending), n, WithRoute(w, route), null, NOTHING)
  {
    var f, t' := t[n].f, EndingAt(t, n, WithRoute(w, route).ending);
    forall s | s in f.urlIndex ensures LinkAt(t', n, w, s, null, NOTHING) {
      assert LinkAt(t, n, w, s, null, NOTHING);
    }
  }

  /** A route that ends here. */
  lemma TakeEnding(t: Trie, n: Node, w: Ways, route: Route)
    requires n in t && route.segs == [] && Almost(t, n, w, null, NOTHING) && WaysOf(t[n].routes) == WithRoute(w, route)
    ensures Forest(EndingAt(t, n, WithRoute(w, route).ending), null, NOTHING)
  {
    var t' := EndingAt(t, n, WithRoute(w, route).ending);
    LocalEnding(t, n, w, route);
    assert Sound(t', n, null, NOTHING);
    forall m | m in t && m != n ensures Sound(t', m, null, NOTHING) {
      assert Sound(t, m, null, NOTHING);
      LocalKept(t, t', m, WaysOf(t[m].routes), n, null, NOTHING);
    }
  }

  lemma OldLiteral(t: Trie, n: Node, w: Ways, route: Route, child: Node)
    requires n in t && Local(t, n, w, null, NOTHING)
    requires route.segs != [] && Takes(route, route.segs[0])
    requires route.segs[0] in t[n].f.urlIndex && child == t[n].f.exactChildren[t[n].f.urlIndex[route.segs[0]]]
    ensures Local(t, n, WithRoute(w, route), child, Tail(route)) && child in t && child.Hangs(n, Some(route.segs[0]))
  {
    var f, segment, w' := t[n].f, route.segs[0], WithRoute(w, route);
    assert LinkAt(t, n, w, segment, null, NOTHING);
    assert Keeps(f, w');
    forall s | s in f.urlIndex ensures LinkAt(t, n, w', s, child, Tail(route)) {
      assert LinkAt(t, n, w, s, null, NOTHING);
      assert s != segment ==> w'.under[s] == w.under[s];
    }
  }

  lemma NewLiteralKept(f: Fields, w: Ways, route: Route, child: Node)
    requires Keeps(f, w) && route.segs != [] && Takes(route, route.segs[0]) && route.segs[0] !in f.urlIndex
    ensures Keeps(LiteralFields(f, route.segs[0], child), WithRoute(w, route))
  {}

  lemma NewLiteral(t: Trie, n: Node, w: Ways, route: Route, child: Node)
    requires n in t && Local(t, n, w, null, NOTHING) && child !in t
    requires route.segs != [] && Takes(route, route.segs[0]) && route.segs[0] !in t[n].f.urlIndex
    requires child.Hangs(n, Some(route.segs[0]))
    ensures Local(WithLiteral(t, n, route.segs[0], child), n, WithRoute(w, route), child, Tail(route))
  {
    var f, segment := t[n].f, route.segs[0];
    var t', f', w' := WithLiteral(t, n, segment, child), LiteralFields(f, segment, child), WithRoute(w, route);
    NewLiteralKept(f, w, route, child);
    assert t'[n].f == f';
    forall s | s in f'.urlIndex ensures LinkAt(t', n, w', s, child, Tail(route)) {
      if s != segment {
        assert LinkAt(t, n, w, s, null, NOTHING);
        LinkStays(t, t', n, Some(s), f.exactChildren[f.urlIndex[s]], w.under[s], child, Tail(route));
      }
    }
    if f.wildcardMatcher != null {
      LinkStays(t, t', n, None, f.wildcardMatcher, w.wild, child, Tail(route));
    }
  }

  lemma LinkStays(t: Trie, t': Trie, n: Node, name: Option<string>, other: Node, routes: seq<Route>, child: Node,
                  extra: Route)
    requires Link(t, n, name, other, routes, null, NOTHING) && child !in t
    requires other in t' && t'[other].routes == t[other].routes
    ensures Link(t', n, name, other, routes, child, extra)
  {}

  lemma OldWildcard(t: Trie, n: Node, w: Ways, route: Route, child: Node)
    requires n in t && Local(t, n, w, null, NOTHING) && TakesAny(route) && child == t[n].f.wildcardMatcher
    ensures Local(t, n, WithRoute(w, route), child, Tail(route)) && Link(t, n, None, child, w.wild, null, NOTHING)
  {
    var f := t[n].f;
    forall s | s in f.urlIndex
      ensures LinkAt(t, n, WithRoute(w, route), s, child, Tail(route))
    {
      assert LinkAt(t, n, w, s, null, NOTHING);
    }
  }

  lemma NewWildcard(t: Trie, n: Node, w: Ways, route: Route, child: Node)
    requires n in t && Local(t, n, w, null, NOTHING) && child !in t && TakesAny(route) && t[n].f.wildcardMatcher == null
    requires child.Hangs(n, None)
    ensures Local(WithWildcard(t, n, child), n, WithRoute(w, route), child, Tail(route))
  {
    var f, t' := t[n].f, WithWildcard(t, n, child);
    forall s | s in f.urlIndex
      ensures LinkAt(t', n, WithRoute(w, route), s, child, Tail(route))
    {
      assert LinkAt(t, n, w, s, null, NOTHING);
    }
  }

  /** The route goes on to a child, which is the only one that does not have it yet. */
  lemma GoesOn(t: Trie, t': Trie, n: Node, w: Ways, route: Route, child: Node)
    requires n in t && n in t' && child in t' && child.parent == n
    requires Almost(t, n, w, null, NOTHING) && WaysOf(t[n].routes) == WithRoute(w, route) && route.segs != []
    requires t'.Keys == t.Keys + {child} && t'[n].routes == t[n].routes
    requires forall k :: k in t && k != n ==> t'[k] == t[k]
    requires child !in t ==> t'[child] == EMPTY
    requires Local(t', n, WithRoute(w, route), child, Tail(route))
    ensures Forest(t', child, Tail(route))
  {
    assert Sound(t', n, child, Tail(route));
    forall m | m in t' && m != n ensures Sound(t', m, child, Tail(route)) {
      if m in t {
        assert Sound(t, m, null, NOTHING);
        LocalKept(t, t', m, WaysOf(t[m].routes), n, child, Tail(route));
      } else {
        EmptyLocal(t', m, child, Tail(route));
      }
    }
  }

  lemma LiteralStep(u: Trie, v: Trie, n: Node, w: Ways, route: Route, child: Node)
    requires n in u && Almost(u, n, w, null, NOTHING) && WaysOf(u[n].routes) == WithRoute(w, route)
    requires route.segs != [] && Takes(route, route.segs[0])
    requires if route.segs[0] in u[n].f.urlIndex then
               child == u[n].f.exactChildren[u[n].f.urlIndex[route.segs[0]]] && v == u
             else child !in u && child.Hangs(n, Some(route.segs[0])) && v == WithLiteral(u, n, route.segs[0], child)
    ensures child in v && child.depth == n.depth + 1 && Forest(v, child, Tail(route))
    ensures v.Keys == u.Keys + {child} && forall m :: m in u ==> v[m].routes == u[m].routes
  {
    if route.segs[0] in u[n].f.urlIndex {
      OldLiteral(u, n, w, route, child);
      assert u.Keys == u.Keys + {child};
    } else {
      NewLiteral(u, n, w, route, child);
      WithLiteralKeys(u, n, route.segs[0], child);
    }
    GoesOn(u, v, n, w, route, child);
  }

  lemma WithLiteralKeys(u: Trie, n: Node, segment: string, child: Node)
    requires n in u && child !in u
    ensures var v := WithLiteral(u, n, segment, child);
            && v.Keys == u.Keys + {child} && v[n].routes == u[n].routes && v[child] == EMPTY
            && forall k :: k in u && k != n ==> v[k] == u[k]
  {}

  lemma WildcardStep(u: Trie, v: Trie, n: Node, w: Ways, route: Route, child: Node)
    requires n in u && Almost(u, n, w, null, NOTHING) && WaysOf(u[n].routes) == WithRoute(w, route) && TakesAny(route)
    requires if u[n].f.wildcardMatcher != null then child == u[n].f.wildcardMatcher && v == u
             else child !in u && child.Hangs(n, None) && v == WithWildcard(u, n, child)
    ensures child in v && child.depth == n.depth + 1 && Forest(v, child, Tail(route))
    ensures v.Keys == u.Keys + {child} && forall m :: m in u ==> v[m].routes == u[m].routes
  {
    if u[n].f.wildcardMatcher != null {
      OldWildcard(u, n, w, route, child);
    } else {
      NewWildcard(u, n, w, route, child);
    }
    GoesOn(u, v, n, w, route, child);
  }

  /** A node has no children exactly when no route goes on, and has matched the routes that end. */
  lemma LeafNode(t: Trie, n: Node)
    requires n in t && Forest(t, null, NOTHING)
    ensures t[n].f.matched == Ending(t[n].routes)
    ensures t[n].f.wildcardMatcher == null && |t[n].f.exactChildren| == 0 <==> Leaf(t[n].routes)
  {
    assert Sound(t, n, null, NOTHING);
    WaysAre(t[n].routes, "");
    LeafWays(t[n].routes);
    assert t[n].f.urlIndex == map[] <==> WaysOf(t[n].routes).under == map[];
  }
}
