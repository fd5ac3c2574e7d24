/**
 The matcher (router/matcher.go): one trie for each HTTP method, one for any method and one for CORS preflight requests.
 */
module RouteMatcher {
  import opened Keys
  import opened Routes
  import opened RouteTrie

  datatype Endpoint = Endpoint(uri: string, httpMethod: string, corsEnabled: bool)

  datatype Outcome = Found(index: nat) | Unmatched | Ambiguous

  const OPTIONS := "OPTIONS"

  /** A route that is added to the trie of a method. */
  datatype Addition = Addition(httpMethod: string, route: Route)

  function RouteOf(endpoints: seq<Endpoint>, i: nat): Route
    requires i < |endpoints|
  {
    Route(i, SegmentsOf(endpoints[i].uri))
  }

  function Cut(endpoints: seq<Endpoint>): (routes: seq<Route>)
    ensures |routes| == |endpoints|
  {
    seq(|endpoints|, i requires 0 <= i < |endpoints| => RouteOf(endpoints, i))
  }

  function AdditionsOf(e: Endpoint, route: Route): seq<Addition> {
    [Addition(e.httpMethod, route), Addition("", route)] + if e.corsEnabled then [Addition(OPTIONS, route)] else []
  }

  /** What the first `n` endpoints add, cut into these routes. */
  function Additions(endpoints: seq<Endpoint>, routes: seq<Route>, n: nat): seq<Addition>
    requires n <= |endpoints| == |routes|
  {
    if n == 0 then [] else Additions(endpoints, routes, n - 1) + AdditionsOf(endpoints[n - 1], routes[n - 1])
  }

  lemma AdditionsMore(endpoints: seq<Endpoint>, routes: seq<Route>, n: nat, log: seq<Addition>)
    requires n < |endpoints| == |routes| && log == Additions(endpoints, routes, n)
    ensures Additions(endpoints, routes, n + 1) == log + AdditionsOf(endpoints[n], routes[n])
  {}

  function Log(endpoints: seq<Endpoint>): seq<Addition> {
    Additions(endpoints, Cut(endpoints), |endpoints|)
  }

  function RoutesFor(log: seq<Addition>, httpMethod: string): seq<Route> {
    if log == [] then []
    else
      var last := log[|log| - 1];
      RoutesFor(log[..|log| - 1], httpMethod) + if last.httpMethod == httpMethod then [last.route] else []
  }

  /** The routes that a request with this method is matched against. */
  function Table(endpoints: seq<Endpoint>, httpMethod: string): seq<Route> {
    RoutesFor(Log(endpoints), httpMethod)
  }

  /** The indices that match, or none if nothing can. */
  function Matched(endpoints: seq<Endpoint>, httpMethod: string, route: string, exact: bool): Option<seq<nat>> {
    var table := Table(endpoints, httpMethod);
    var selected := Selected(table, SegmentsOf(route), exact);
    if table == [] || selected.None? then None else Some(Ending(selected.value))
  }

  function OneOf(matched: Option<seq<nat>>): Outcome {
    if matched.None? || matched.value == [] then Unmatched
    else if |matched.value| > 1 then Ambiguous
    else Found(matched.value[0])
  }

  /** The cutting leaves no route with an empty segment, as a last segment of one character would. */
  predicate Addable(endpoints: seq<Endpoint>) {
    forall i :: 0 <= i < |endpoints| ==> "" !in SegmentsOf(endpoints[i].uri)
  }

  class Matcher {
    var nodes: seq<Node>
    var methodIndex: map<string, nat>
    const matchables: seq<Endpoint>

    ghost var trie: Trie

    /** The tries keep the routes of their methods; there is none without routes but one that has just been made. */
    ghost predicate Rooted(log: seq<Addition>, pending: Option<string>)
      reads this, trie.Keys
    {
      && trie == TrieOf(trie.Keys)
      && Forest(trie, null, NOTHING)
      && Roots(nodes, methodIndex, trie, log, pending)
    }

    ghost predicate Valid(log: seq<Addition>)
      reads this, trie.Keys
    {
      Rooted(log, None)
    }

    constructor (matchables: seq<Endpoint>)
      ensures this.matchables == matchables && nodes == [] && methodIndex == map[] && trie == map[]
    {
      this.matchables := matchables;
      nodes, methodIndex, trie := [], map[], map[];
    }

    method Init()
      requires Addable(matchables) && nodes == [] && methodIndex == map[] && trie == map[]
      modifies this
      ensures Valid(Log(matchables)) && fresh(trie.Keys)
    {
      ghost var routes, log := Cut(matchables), [];
      NoRoots(nodes, trie);
      for i := 0 to |matchables|
        invariant fresh(trie.Keys)
        invariant Valid(log) && log == Additions(matchables, routes, i)
      {
        log := AddEndpoint(i, routes, log);
      }
    }

    /**
     Adds an endpoint to the trie of its method, to that of any method, and to that of preflight requests if it is open
     to them.
     */
    method AddEndpoint(i: nat, ghost routes: seq<Route>, ghost log: seq<Addition>) returns (ghost log': seq<Addition>)
      requires Valid(log) && Addable(matchables) && i < |matchables| && routes == Cut(matchables)
      requires log == Additions(matchables, routes, i)
      modifies this, trie.Keys
      ensures Valid(log') && log' == Additions(matchables, routes, i + 1) && fresh(trie.Keys - old(trie.Keys))
    {
      var uri := RelativeOf(matchables[i].uri);
      ghost var route := routes[i];
      AdditionsMore(matchables, routes, i, log);
      log' := log + AdditionsOf(matchables[i], route);
      AddTo(matchables[i].httpMethod, i, uri, route, log);
      ghost var first := log + [Addition(matchables[i].httpMethod, route)];
      AddTo("", i, uri, route, first);
      ghost var second := first + [Addition("", route)];
      ThreeAdditions(log, matchables[i], route);
      if matchables[i].corsEnabled {
        AddTo(OPTIONS, i, uri, route, second);
      }
    }

    method AddTo(httpMethod: string, index: nat, uri: string, ghost route: Route, ghost log: seq<Addition>)
      requires Valid(log) && route == Route(index, Segments(uri)) && "" !in route.segs
      modifies this, trie.Keys
      ensures Valid(log + [Addition(httpMethod, route)]) && fresh(trie.Keys - old(trie.Keys))
    {
      var node := GetOrCreateMatcher(httpMethod, log);
      ghost var before := trie;
      RootAt(nodes, methodIndex, trie, log, httpMethod, Some(httpMethod));
      PendingRoot(trie, node, route);
      ghost var made;
      trie, made := node.Add(index, uri, trie, route);
      RootsMore(nodes, methodIndex, before, trie, log, httpMethod, route);
    }

    method GetOrCreateMatcher(httpMethod: string, ghost log: seq<Addition>) returns (node: Node)
      requires Valid(log)
      modifies this
      ensures fresh(trie.Keys - old(trie.Keys)) && old(trie.Keys) <= trie.Keys
      ensures Rooted(log, Some(httpMethod))
      ensures httpMethod in methodIndex && methodIndex[httpMethod] < |nodes| && node == nodes[methodIndex[httpMethod]]
    {
      RootAt(nodes, methodIndex, trie, log, httpMethod, None);
      ghost var nodes', methodIndex', trie' := nodes, methodIndex, trie;
      if httpMethod in methodIndex {
        RootsPending(nodes, methodIndex, trie, log, httpMethod);
        return nodes[methodIndex[httpMethod]];
      }
      node := new Node(null, Some(httpMethod), 0);
      methodIndex := methodIndex[httpMethod := |nodes|];
      nodes := nodes + [node];
      NewRoot(trie, node);
      trie := trie[node := EMPTY];
      RootsGrow(nodes', methodIndex', trie', log, httpMethod, node);
    }

    method GetMethodMatcher(httpMethod: string) returns (node: Node?)
      requires httpMethod in methodIndex ==> methodIndex[httpMethod] < |nodes|
      ensures node == if httpMethod in methodIndex then nodes[methodIndex[httpMethod]] else null
    {
      if httpMethod !in methodIndex {
        return null;
      }
      return nodes[methodIndex[httpMethod]];
    }

    /** The nodes that match: none is an error, and there is never more than one. */
    method Match(httpMethod: string, route: string, exact: bool) returns (matched: seq<Node>)
      requires Valid(Log(matchables))
      ensures var expected := Matched(matchables, httpMethod, route, exact);
              if expected.None? then matched == [] else |matched| == 1 && matched[0].matched == expected.value
    {
      var relative := RelativeOf(route);
      RootAt(nodes, methodIndex, trie, Log(matchables), httpMethod, None);
      var methodMatcher := GetMethodMatcher(httpMethod);
      if methodMatcher == null {
        return [];
      }
      matched := methodMatcher.Match(relative, exact, [], trie);
    }

    method MatchOneRoute(httpMethod: string, route: string) returns (outcome: Outcome)
      requires Valid(Log(matchables))
      ensures outcome == OneOf(Matched(matchables, httpMethod, route, true))
    {
      var matched := Match(httpMethod, route, true);
      if |matched| == 0 || (|matched| == 1 && |matched[0].matched| == 0) {
        return Unmatched;
      }
      if |matched| > 1 || |matched[0].matched| > 1 {
        return Ambiguous;
      }
      return Found(matched[0].matched[0]);
    }

    method MatchPrefix(httpMethod: string, uriPath: string) returns (found: Option<seq<Endpoint>>)
      requires Valid(Log(matchables))
      ensures var expected := Matched(matchables, httpMethod, uriPath, false);
              if expected.None? then found.None?
              else found.Some? && |found.value| == |expected.value| &&
                   forall k :: 0 <= k < |expected.value| ==>
                     expected.value[k] < |matchables| && found.value[k] == matchables[expected.value[k]]
    {
      var matched := Match(httpMethod, uriPath, false);
      if |matched| == 0 {
        return None;
      }
      MatchedInRange(matchables, httpMethod, uriPath, false);
      var result := Flatten(matched[0].matched);
      return Some(result);
    }

    method Flatten(indices: seq<nat>) returns (result: seq<Endpoint>)
      requires forall k :: 0 <= k < |indices| ==> indices[k] < |matchables|
      ensures |result| == |indices| && forall k :: 0 <= k < |indices| ==> result[k] == matchables[indices[k]]
    {
      result := [];
      for k := 0 to |indices|
        invariant |result| == k
        invariant forall j :: 0 <= j < k ==> result[j] == matchables[indices[j]]
      {
        result := result + [matchables[indices[k]]];
      }
    }
  }

  /** Each method with routes has its own root, which keeps them. */
  ghost predicate Roots(nodes: seq<Node>, methodIndex: map<string, nat>, trie: Trie, log: seq<Addition>,
                        pending: Option<string>) {
    forall m {:trigger Placed(nodes, methodIndex, trie, log, m, pending)} ::
      Placed(nodes, methodIndex, trie, log, m, pending)
  }

  ghost predicate Placed(nodes: seq<Node>, methodIndex: map<string, nat>, trie: Trie, log: seq<Addition>, m: string,
                         pending: Option<string>)
  {
    if m !in methodIndex then RoutesFor(log, m) == []
    else
      && methodIndex[m] < |nodes| && Root(nodes[methodIndex[m]], trie, m, log)
      && (pending != Some(m) ==> RoutesFor(log, m) != [])
  }

  ghost predicate Root(node: Node, trie: Trie, httpMethod: string, log: seq<Addition>) {
    && node in trie && node.parent == null && node.depth == 0 && node.name == Some(httpMethod)
    && trie[node].routes == RoutesFor(log, httpMethod)
  }

  lemma RootAt(nodes: seq<Node>, methodIndex: map<string, nat>, trie: Trie, log: seq<Addition>, m: string,
               pending: Option<string>)
    requires Roots(nodes, methodIndex, trie, log, pending)
    ensures Placed(nodes, methodIndex, trie, log, m, pending)
  {}

  lemma NoRoots(nodes: seq<Node>, trie: Trie)
    ensures Roots(nodes, map[], trie, [], None)
  {}

  lemma RootsPending(nodes: seq<Node>, methodIndex: map<string, nat>, trie: Trie, log: seq<Addition>,
                     httpMethod: string)
    requires Roots(nodes, methodIndex, trie, log, None)
    ensures Roots(nodes, methodIndex, trie, log, Some(httpMethod))
  {
    forall m ensures Placed(nodes, methodIndex, trie, log, m, Some(httpMethod)) {
      assert Placed(nodes, methodIndex, trie, log, m, None);
    }
  }

  lemma RootsGrow(nodes: seq<Node>, methodIndex: map<string, nat>, trie: Trie, log: seq<Addition>, httpMethod: string,
                  node: Node)
    requires Roots(nodes, methodIndex, trie, log, None) && httpMethod !in methodIndex && node !in trie
    requires node.parent == null && node.depth == 0 && node.name == Some(httpMethod)
    ensures Roots(nodes + [node], methodIndex[httpMethod := |nodes|], trie[node := EMPTY], log, Some(httpMethod))
  {
    var nodes', methodIndex', trie' := nodes + [node], methodIndex[httpMethod := |nodes|], trie[node := EMPTY];
    forall m ensures Placed(nodes', methodIndex', trie', log, m, Some(httpMethod)) {
      assert Placed(nodes, methodIndex, trie, log, m, None);
    }
  }

  /** No node waits for a route of a root. */
  lemma PendingRoot(t: Trie, root: Node, route: Route)
    requires Forest(t, null, NOTHING) && root.parent == null
    ensures Forest(t, root, route)
  {
    forall m | m in t ensures Sound(t, m, root, route) {
      assert Sound(t, m, null, NOTHING);
      LocalFree(t, t, m, WaysOf(t[m].routes), root, route);
    }
  }

  lemma NewRoot(t: Trie, root: Node)
    requires Forest(t, null, NOTHING) && root !in t
    ensures Forest(t[root := EMPTY], null, NOTHING)
  {
    var t' := t[root := EMPTY];
    forall m | m in t' ensures Sound(t', m, null, NOTHING) {
      if m in t {
        assert Sound(t, m, null, NOTHING);
        LocalFree(t, t', m, WaysOf(t[m].routes), null, NOTHING);
      } else {
        EmptyLocal(t', m, null, NOTHING);
      }
    }
  }

  lemma LocalFree(t: Trie, t': Trie, m: Node, w: Ways, root: Node?, route: Route)
    requires m in t && Local(t, m, w, null, NOTHING)
    requires forall k :: k in t ==> k in t' && t'[k] == t[k]
    requires root != null ==> root.parent == null
    ensures Local(t', m, w, root, route)
  {
    var f := t[m].f;
    forall s | s in f.urlIndex ensures LinkAt(t', m, w, s, root, route) {
      assert LinkAt(t, m, w, s, null, NOTHING);
    }
  }

  lemma RootsMore(nodes: seq<Node>, methodIndex: map<string, nat>, t: Trie, t': Trie, log: seq<Addition>,
                  httpMethod: string, route: Route)
    requires Roots(nodes, methodIndex, t, log, Some(httpMethod)) && t.Keys <= t'.Keys
    requires httpMethod in methodIndex && methodIndex[httpMethod] < |nodes|
    requires var node := nodes[methodIndex[httpMethod]];
             && node in t && t'[node].routes == t[node].routes + [route]
             && forall n :: n in t && n != node && n.depth <= node.depth ==> t'[n].routes == t[n].routes
    ensures Roots(nodes, methodIndex, t', log + [Addition(httpMethod, route)], None)
  {
    var log' := log + [Addition(httpMethod, route)];
    assert log'[..|log|] == log;
    assert Placed(nodes, methodIndex, t, log, httpMethod, Some(httpMethod));
    forall m ensures Placed(nodes, methodIndex, t', log', m, None) {
      assert Placed(nodes, methodIndex, t, log, m, Some(httpMethod));
      assert RoutesFor(log', m) == RoutesFor(log, m) + if m == httpMethod then [route] else [];
    }
  }

  lemma {:induction false} RoutesForHas(log: seq<Addition>, httpMethod: string, route: Route)
    ensures route in RoutesFor(log, httpMethod) <==> Addition(httpMethod, route) in log
    decreases |log|
  {
    if log != [] {
      RoutesForHas(log[..|log| - 1], httpMethod, route);
      assert log == log[..|log| - 1] + [log[|log| - 1]];
    }
  }

  /** A request with this method is matched against the endpoint. */
  predicate Accepts(e: Endpoint, httpMethod: string) {
    e.httpMethod == httpMethod || httpMethod == "" || (e.corsEnabled && httpMethod == OPTIONS)
  }

  lemma ThreeAdditions(log: seq<Addition>, e: Endpoint, route: Route)
    ensures log + AdditionsOf(e, route) ==
            log + [Addition(e.httpMethod, route)] + [Addition("", route)]
              + if e.corsEnabled then [Addition(OPTIONS, route)] else []
    ensures !e.corsEnabled ==>
            log + AdditionsOf(e, route) == log + [Addition(e.httpMethod, route)] + [Addition("", route)]
  {}

  lemma AdditionsOfHave(e: Endpoint, route: Route, a: Addition)
    ensures a in AdditionsOf(e, route) <==> a.route == route && Accepts(e, a.httpMethod)
  {
    assert a in AdditionsOf(e, route) <==>
           a == AdditionsOf(e, route)[0] || a == AdditionsOf(e, route)[1]
             || (e.corsEnabled && a == AdditionsOf(e, route)[2]);
  }

  lemma {:induction false} AdditionsHave(endpoints: seq<Endpoint>, routes: seq<Route>, n: nat, a: Addition)
    requires n <= |endpoints| == |routes|
    ensures a in Additions(endpoints, routes, n) <==>
            exists i :: 0 <= i < n && a.route == routes[i] && Accepts(endpoints[i], a.httpMethod)
    decreases n
  {
    if n > 0 {
      AdditionsHave(endpoints, routes, n - 1, a);
      AdditionsOfHave(endpoints[n - 1], routes[n - 1], a);
    }
  }

  lemma TableHas(endpoints: seq<Endpoint>, httpMethod: string, route: Route)
    ensures route in Table(endpoints, httpMethod) <==>
            route.index < |endpoints| && route == RouteOf(endpoints, route.index)
              && Accepts(endpoints[route.index], httpMethod)
  {
    RoutesForHas(Log(endpoints), httpMethod, route);
    AdditionsHave(endpoints, Cut(endpoints), |endpoints|, Addition(httpMethod, route));
    assert forall i :: 0 <= i < |endpoints| ==> Cut(endpoints)[i] == RouteOf(endpoints, i);
    if route.index < |endpoints| && route == RouteOf(endpoints, route.index)
      && Accepts(endpoints[route.index], httpMethod) {
      assert Cut(endpoints)[route.index] == route;
    }
  }

  /** The endpoint serves the request: its route is chosen among those of the method. */
  predicate Serves(endpoints: seq<Endpoint>, httpMethod: string, route: string, exact: bool, i: nat) {
    && i < |endpoints| && Accepts(endpoints[i], httpMethod)
    && Chosen(Table(endpoints, httpMethod), RouteOf(endpoints, i), SegmentsOf(route), exact)
  }

  lemma MatchedAreServing(endpoints: seq<Endpoint>, httpMethod: string, route: string, exact: bool, i: nat)
    ensures var matched := Matched(endpoints, httpMethod, route, exact);
            (matched.Some? && i in matched.value) <==> Serves(endpoints, httpMethod, route, exact, i)
  {
    var table := Table(endpoints, httpMethod);
    SelectedAreChosen(table, SegmentsOf(route), exact, i);
    if i < |endpoints| {
      TableHas(endpoints, httpMethod, RouteOf(endpoints, i));
    }
    forall k | 0 <= k < |table|
      ensures table[k].index < |endpoints| && table[k] == RouteOf(endpoints, table[k].index)
              && Accepts(endpoints[table[k].index], httpMethod)
    {
      TableHas(endpoints, httpMethod, table[k]);
    }
  }

  lemma MatchedInRange(endpoints: seq<Endpoint>, httpMethod: string, route: string, exact: bool)
    ensures var matched := Matched(endpoints, httpMethod, route, exact);
            matched.Some? ==> forall k :: 0 <= k < |matched.value| ==> matched.value[k] < |endpoints|
  {
    var matched := Matched(endpoints, httpMethod, route, exact);
    if matched.Some? {
      forall k | 0 <= k < |matched.value| ensures matched.value[k] < |endpoints| {
        MatchedAreServing(endpoints, httpMethod, route, exact, matched.value[k]);
      }
    }
  }

  lemma FoundWhenSingle(matched: Option<seq<nat>>, i: nat)
    requires matched.Some? ==> forall k, l :: 0 <= k < l < |matched.value| ==> matched.value[k] != matched.value[l]
    ensures OneOf(matched) == Found(i) <==>
            matched.Some? && i in matched.value && forall j :: j in matched.value ==> j == i
  {
    if matched.Some? && i in matched.value && |matched.value| > 1 {
      assert matched.value[0] in matched.value && matched.value[1] in matched.value;
    }
  }

  /** One route is found exactly when one endpoint, and no other, serves the request. */
  lemma OneRouteExactlyWhen(endpoints: seq<Endpoint>, httpMethod: string, route: string, i: nat)
    ensures OneOf(Matched(endpoints, httpMethod, route, true)) == Found(i) <==>
            && Serves(endpoints, httpMethod, route, true, i)
            && forall j :: Serves(endpoints, httpMethod, route, true, j) ==> j == i
  {
    var matched := Matched(endpoints, httpMethod, route, true);
    forall j ensures (matched.Some? && j in matched.value) <==> Serves(endpoints, httpMethod, route, true, j) {
      MatchedAreServing(endpoints, httpMethod, route, true, j);
    }
    if matched.Some? {
      forall k, l | 0 <= k < l < |matched.value| ensures matched.value[k] != matched.value[l] {
        EndingOnce(Selected(Table(endpoints, httpMethod), SegmentsOf(route), true).value, k, l);
      }
    }
    FoundWhenSingle(matched, i);
  }

  /** An endpoint whose segments are all literals answers its own path. */
  lemma OwnPathServed(endpoints: seq<Endpoint>, i: nat)
    requires i < |endpoints| && forall d :: 0 <= d < |SegmentsOf(endpoints[i].uri)| ==>
             !IsWild(SegmentsOf(endpoints[i].uri)[d])
    ensures Matched(endpoints, endpoints[i].httpMethod, endpoints[i].uri, true).Some?
    ensures i in Matched(endpoints, endpoints[i].httpMethod, endpoints[i].uri, true).value
  {
    assert Chosen(Table(endpoints, endpoints[i].httpMethod), RouteOf(endpoints, i), SegmentsOf(endpoints[i].uri), true);
    MatchedAreServing(endpoints, endpoints[i].httpMethod, endpoints[i].uri, true, i);
  }
}
