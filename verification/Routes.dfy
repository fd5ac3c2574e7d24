/**
 Paths and the list of routes (router/matcher.go): what a route's path is cut into, and which routes of a list a
 requested path selects. The trie that does the selection is in RouteTrie.
 */
module Routes {
  import opened Keys

  // ----- paths -----

  /** The position of the first `c`, or the length. */
  function IndexOf(s: string, c: char): (i: nat)
    ensures i <= |s| && (i < |s| ==> s[i] == c) && forall j :: 0 <= j < i ==> s[j] != c
  {
    if s == "" || s[0] == c then 0 else IndexOf(s[1..], c) + 1
  }

  function DropSlashes(route: string): (r: string)
    ensures |r| <= |route| && (r != "" ==> r[0] != '/')
  {
    if route != "" && route[0] == '/' then DropSlashes(route[1..]) else route
  }

  /** Without leading slashes and query; a remainder of one character is lost. */
  function AsRelative(route: string): (r: string)
    ensures |r| <= |route| && (r != "" ==> r[0] != '/')
  {
    var rest := DropSlashes(route);
    if |rest| <= 1 then "" else rest[..IndexOf(rest, '?')]
  }

  method RelativeOf(route: string) returns (r: string)
    ensures r == AsRelative(route)
  {
    if |route| == 0 {
      return route;
    }
    var i := 0;
    while i < |route| && route[i] == '/'
      invariant i <= |route|
      invariant DropSlashes(route[i..]) == DropSlashes(route)
    {
      assert route[i..][1..] == route[i + 1..];
      i := i + 1;
    }
    if i >= |route| - 1 {
      return "";
    }
    var rest := route[i..];
    var paramsStartIndex := IndexOf(rest, '?');
    if paramsStartIndex != |rest| {
      return rest[..paramsStartIndex];
    }
    return rest;
  }

  function ExtractSegment(uri: string): (r: (string, string))
    ensures uri != "" ==> |r.1| < |uri|
    ensures r.0 == "" ==> r.1 == ""
    ensures '/' !in r.0
  {
    var relative := AsRelative(uri);
    var segIndex := IndexOf(relative, '/');
    if segIndex < |relative| then (relative[..segIndex], relative[segIndex + 1..]) else (relative, "")
  }

  function Segments(uri: string): seq<string>
    decreases |uri|
  {
    if uri == "" then [] else [ExtractSegment(uri).0] + Segments(ExtractSegment(uri).1)
  }

  function SegmentsOf(route: string): seq<string> {
    Segments(AsRelative(route))
  }

  function Join(segments: seq<string>): string {
    if |segments| == 0 then "" else if |segments| == 1 then segments[0] else segments[0] + "/" + Join(segments[1..])
  }

  predicate Clean(s: string) {
    s != "" && '/' !in s && '?' !in s
  }

  /** What the cutting makes of a path: it loses a last segment of one character, but not that there is one. */
  function Blurred(segments: seq<string>): seq<string> {
    if |segments| == 0 then []
    else if |segments| == 1 then [if |segments[0]| == 1 then "" else segments[0]]
    else [segments[0]] + Blurred(segments[1..])
  }

  lemma IndexOfConcat(a: string, b: string, c: char)
    requires c !in a && b != "" && b[0] == c
    ensures IndexOf(a + b, c) == |a|
  {
    assert (a + b)[|a|] == c;
    assert forall j :: 0 <= j < |a| ==> (a + b)[j] in a;
  }

  lemma IndexOfNone(s: string, c: char)
    requires c !in s
    ensures IndexOf(s, c) == |s|
  {}

  lemma {:induction false} JoinClean(segments: seq<string>)
    requires segments != [] && forall i :: 0 <= i < |segments| ==> Clean(segments[i])
    ensures Join(segments) != "" && '?' !in Join(segments) && Join(segments)[0] != '/'
    ensures |segments| > 1 ==> |Join(segments)| > 1
    decreases |segments|
  {
    assert Clean(segments[0]) && segments[0][0] in segments[0];
    if |segments| > 1 {
      assert forall i :: 0 <= i < |segments[1..]| ==> segments[1..][i] == segments[i + 1];
      JoinClean(segments[1..]);
    }
  }

  lemma NoQuery(s: string)
    requires '?' !in s && s != "" && s[0] != '/'
    ensures AsRelative(s) == if |s| == 1 then "" else s
  {
    IndexOfNone(s, '?');
    assert s[..|s|] == s;
  }

  lemma OneSegment(s: string)
    requires Clean(s)
    ensures Segments(s) == [if |s| == 1 then "" else s]
  {
    assert s[0] in s;
    NoQuery(s);
    IndexOfNone(s, '/');
    assert Segments("") == [];
  }

  lemma FirstSegment(s: string, rest: string)
    requires Clean(s) && rest != "" && '?' !in rest
    ensures Segments(s + "/" + rest) == [s] + Segments(rest)
  {
    var uri := s + "/" + rest;
    assert uri == s + ("/" + rest) && uri[0] == s[0] && s[0] in s;
    NoQuery(uri);
    IndexOfConcat(s, "/" + rest, '/');
    assert uri[..|s|] == s && uri[|s| + 1..] == rest;
  }

  lemma {:induction false} SegmentsOfJoin(segments: seq<string>)
    requires forall i :: 0 <= i < |segments| ==> Clean(segments[i])
    ensures Segments(Join(segments)) == Blurred(segments)
    decreases |segments|
  {
    if |segments| == 1 {
      OneSegment(segments[0]);
    } else if |segments| > 1 {
      var rest := segments[1..];
      assert forall i :: 0 <= i < |rest| ==> rest[i] == segments[i + 1];
      JoinClean(rest);
      FirstSegment(segments[0], Join(rest));
      SegmentsOfJoin(rest);
    }
  }

  lemma {:induction false} BlurredWhen(segments: seq<string>)
    ensures Blurred(segments) == segments <==> segments == [] || |segments[|segments| - 1]| != 1
    ensures |Blurred(segments)| == |segments|
    decreases |segments|
  {
    if |segments| > 1 {
      BlurredWhen(segments[1..]);
      assert segments == [segments[0]] + segments[1..];
    } else if |segments| == 1 {
      assert segments == [segments[0]];
    }
  }

  /** Cutting a joined path gives its segments back exactly when the last one has two characters or more. */
  lemma CutRestores(segments: seq<string>)
    requires forall i :: 0 <= i < |segments| ==> Clean(segments[i])
    ensures Segments(Join(segments)) == segments <==> segments == [] || |segments[|segments| - 1]| != 1
  {
    SegmentsOfJoin(segments);
    BlurredWhen(segments);
  }

  // ----- the list of routes -----

  datatype Route = Route(index: nat, segs: seq<string>)

  predicate IsWild(segment: string) {
    segment != "" && segment[0] == '{'
  }

  /** A literal segment is one that the trie keeps by its text. */
  predicate Takes(route: Route, segment: string) {
    route.segs != [] && route.segs[0] == segment && !IsWild(segment)
  }

  predicate TakesAny(route: Route) {
    route.segs != [] && IsWild(route.segs[0])
  }

  function Tail(route: Route): Route
    requires route.segs != []
  {
    Route(route.index, route.segs[1..])
  }

  /** The routes that go on with a literal segment, without it. */
  function Under(routes: seq<Route>, segment: string): seq<Route> {
    if routes == [] then []
    else
      var last := routes[|routes| - 1];
      Under(routes[..|routes| - 1], segment) + if Takes(last, segment) then [Tail(last)] else []
  }

  function UnderWild(routes: seq<Route>): seq<Route> {
    if routes == [] then []
    else
      var last := routes[|routes| - 1];
      UnderWild(routes[..|routes| - 1]) + if TakesAny(last) then [Tail(last)] else []
  }

  /** The indices of the routes that end here, each once, in order. */
  function Ending(routes: seq<Route>): seq<nat> {
    if routes == [] then []
    else
      var front, last := Ending(routes[..|routes| - 1]), routes[|routes| - 1];
      if last.segs == [] && last.index !in front then front + [last.index] else front
  }

  /** A literal wins over a wildcard; a prefix is enough unless an exact match is asked for. */
  function Selected(routes: seq<Route>, path: seq<string>, exact: bool): Option<seq<Route>>
    decreases |path|
  {
    if path == [] then Some(routes)
    else if Under(routes, path[0]) != [] then Selected(Under(routes, path[0]), path[1..], exact)
    else if UnderWild(routes) != [] then Selected(UnderWild(routes), path[1..], exact)
    else if !exact && Leaf(routes) then Some(routes)
    else None
  }

  /** No route goes on. */
  predicate Leaf(routes: seq<Route>) {
    forall i :: 0 <= i < |routes| ==> routes[i].segs == []
  }

  // ----- which routes are selected, stated over the whole list -----

  /** A segment of a route fits one of a path: as itself, or as a wildcard. */
  predicate Fits(segment: string, wanted: string) {
    IsWild(segment) || segment == wanted
  }

  /** Two routes go the same way for the first `d` segments of a path. */
  predicate SameWay(a: Route, b: Route, d: nat) {
    && d <= |a.segs| && d <= |b.segs|
    && forall k :: 0 <= k < d ==> (IsWild(a.segs[k]) && IsWild(b.segs[k])) || a.segs[k] == b.segs[k]
  }

  /** Another route has the literal at this segment, and came the same way. */
  predicate Beaten(routes: seq<Route>, route: Route, path: seq<string>, d: nat)
    requires d < |path|
  {
    exists j :: 0 <= j < |routes| && SameWay(route, routes[j], d) && d < |routes[j].segs| && !IsWild(path[d])
      && routes[j].segs[d] == path[d]
  }

  /** Another route goes on where this one ends. */
  predicate Outrun(routes: seq<Route>, route: Route) {
    exists j :: 0 <= j < |routes| && SameWay(route, routes[j], |route.segs|) && |route.segs| < |routes[j].segs|
  }

  /**
   A route that matches a path segment by segment, where no wildcard stands against a literal. One that is shorter than
   the path will do if no exact match is asked for and no route goes on from it.
   */
  predicate Chosen(routes: seq<Route>, route: Route, path: seq<string>, exact: bool) {
    && |route.segs| <= |path|
    && (forall d :: 0 <= d < |route.segs| ==>
          Fits(route.segs[d], path[d]) && (IsWild(route.segs[d]) ==> !Beaten(routes, route, path, d)))
    && (|route.segs| < |path| ==> !exact && !Outrun(routes, route))
  }

  // ----- one level -----

  lemma {:induction false} UnderHas(routes: seq<Route>, segment: string, tail: Route)
    ensures tail in Under(routes, segment) <==>
            exists j :: 0 <= j < |routes| && Takes(routes[j], segment) && Tail(routes[j]) == tail
    decreases |routes|
  {
    if routes != [] {
      UnderHas(routes[..|routes| - 1], segment, tail);
      var front := routes[..|routes| - 1];
      assert forall j :: 0 <= j < |front| ==> front[j] == routes[j];
    }
  }

  lemma {:induction false} UnderWildHas(routes: seq<Route>, tail: Route)
    ensures tail in UnderWild(routes) <==>
            exists j :: 0 <= j < |routes| && TakesAny(routes[j]) && Tail(routes[j]) == tail
    decreases |routes|
  {
    if routes != [] {
      UnderWildHas(routes[..|routes| - 1], tail);
      var front := routes[..|routes| - 1];
      assert forall j :: 0 <= j < |front| ==> front[j] == routes[j];
    }
  }

  lemma {:induction false} EndingHas(routes: seq<Route>, index: nat)
    ensures index in Ending(routes) <==>
            exists j :: 0 <= j < |routes| && routes[j].segs == [] && routes[j].index == index
    decreases |routes|
  {
    if routes != [] {
      EndingHas(routes[..|routes| - 1], index);
      var front := routes[..|routes| - 1];
      assert forall j :: 0 <= j < |front| ==> front[j] == routes[j];
    }
  }

  lemma {:induction false} EndingOnce(routes: seq<Route>, i: nat, j: nat)
    requires i < j < |Ending(routes)|
    ensures Ending(routes)[i] != Ending(routes)[j]
    decreases |routes|
  {
    if j < |Ending(routes[..|routes| - 1])| {
      EndingOnce(routes[..|routes| - 1], i, j);
    }
  }

  predicate SameFirst(a: Route, b: Route) {
    a.segs != [] && b.segs != [] && ((IsWild(a.segs[0]) && IsWild(b.segs[0])) || a.segs[0] == b.segs[0])
  }

  /** The routes below are those that go the same first way as this one, without their first segments. */
  ghost predicate Narrowed(routes: seq<Route>, below: seq<Route>, route: Route) {
    forall tail :: tail in below <==>
      exists j :: 0 <= j < |routes| && SameFirst(route, routes[j]) && Tail(routes[j]) == tail
  }

  lemma SameWayBelow(a: Route, b: Route, d: nat)
    requires a.segs != []
    ensures SameWay(a, b, d + 1) <==> SameFirst(a, b) && SameWay(Tail(a), Tail(b), d)
  {
    if SameFirst(a, b) && SameWay(Tail(a), Tail(b), d) {
      forall k | 0 <= k < d + 1 ensures (IsWild(a.segs[k]) && IsWild(b.segs[k])) || a.segs[k] == b.segs[k] {
        if k > 0 {
          assert Tail(a).segs[k - 1] == a.segs[k] && Tail(b).segs[k - 1] == b.segs[k];
        }
      }
    }
    if SameWay(a, b, d + 1) {
      forall k | 0 <= k < d
        ensures (IsWild(Tail(a).segs[k]) && IsWild(Tail(b).segs[k])) || Tail(a).segs[k] == Tail(b).segs[k]
      {
        assert Tail(a).segs[k] == a.segs[k + 1] && Tail(b).segs[k] == b.segs[k + 1];
      }
    }
  }

  lemma BeatenBelow(routes: seq<Route>, below: seq<Route>, route: Route, path: seq<string>, d: nat)
    requires route.segs != [] && Narrowed(routes, below, route) && d + 1 < |path|
    ensures Beaten(routes, route, path, d + 1) <==> Beaten(below, Tail(route), path[1..], d)
  {
    if Beaten(routes, route, path, d + 1) {
      var j :| 0 <= j < |routes| && SameWay(route, routes[j], d + 1) && d + 1 < |routes[j].segs| && !IsWild(path[d + 1])
               && routes[j].segs[d + 1] == path[d + 1];
      SameWayBelow(route, routes[j], d);
      assert Tail(routes[j]) in below;
      var i :| 0 <= i < |below| && below[i] == Tail(routes[j]);
      assert SameWay(Tail(route), below[i], d) && below[i].segs[d] == path[1..][d];
    }
    if Beaten(below, Tail(route), path[1..], d) {
      var i :| 0 <= i < |below| && SameWay(Tail(route), below[i], d) && d < |below[i].segs| && !IsWild(path[1..][d])
               && below[i].segs[d] == path[1..][d];
      assert below[i] in below;
      var j :| 0 <= j < |routes| && SameFirst(route, routes[j]) && Tail(routes[j]) == below[i];
      SameWayBelow(route, routes[j], d);
      assert routes[j].segs[d + 1] == path[d + 1];
    }
  }

  lemma OutrunBelow(routes: seq<Route>, below: seq<Route>, route: Route)
    requires route.segs != [] && Narrowed(routes, below, route)
    ensures Outrun(routes, route) <==> Outrun(below, Tail(route))
  {
    var n := |route.segs| - 1;
    if Outrun(routes, route) {
      var j :| 0 <= j < |routes| && SameWay(route, routes[j], n + 1) && n + 1 < |routes[j].segs|;
      SameWayBelow(route, routes[j], n);
      assert Tail(routes[j]) in below;
      var i :| 0 <= i < |below| && below[i] == Tail(routes[j]);
      assert SameWay(Tail(route), below[i], n);
    }
    if Outrun(below, Tail(route)) {
      var i :| 0 <= i < |below| && SameWay(Tail(route), below[i], n) && n < |below[i].segs|;
      assert below[i] in below;
      var j :| 0 <= j < |routes| && SameFirst(route, routes[j]) && Tail(routes[j]) == below[i];
      SameWayBelow(route, routes[j], n);
    }
  }

  /** A route that goes the way the search goes is chosen if it is chosen among those that go with it. */
  lemma ChosenBelow(routes: seq<Route>, below: seq<Route>, route: Route, path: seq<string>, exact: bool)
    requires route.segs != [] && path != [] && Narrowed(routes, below, route)
    requires Fits(route.segs[0], path[0]) && (IsWild(route.segs[0]) ==> !Beaten(routes, route, path, 0))
    ensures Chosen(routes, route, path, exact) <==> Chosen(below, Tail(route), path[1..], exact)
  {
    OutrunBelow(routes, below, route);
    forall d | 0 <= d < |path| - 1
      ensures Beaten(routes, route, path, d + 1) <==> Beaten(below, Tail(route), path[1..], d)
    {
      BeatenBelow(routes, below, route, path, d);
    }
    if Chosen(below, Tail(route), path[1..], exact) {
      forall d | 0 <= d < |route.segs|
        ensures Fits(route.segs[d], path[d]) && (IsWild(route.segs[d]) ==> !Beaten(routes, route, path, d))
      {
        if d > 0 {
          assert Tail(route).segs[d - 1] == route.segs[d] && path[1..][d - 1] == path[d];
        }
      }
    }
    if Chosen(routes, route, path, exact) {
      forall d | 0 <= d < |route.segs| - 1
        ensures Fits(Tail(route).segs[d], path[1..][d])
                && (IsWild(Tail(route).segs[d]) ==> !Beaten(below, Tail(route), path[1..], d))
      {
        assert Tail(route).segs[d] == route.segs[d + 1] && path[1..][d] == path[d + 1];
      }
    }
  }

  /** Some route has the first segment of the path as a literal. */
  lemma BeatenAtFirst(routes: seq<Route>, route: Route, path: seq<string>)
    requires path != []
    ensures Beaten(routes, route, path, 0) <==> Under(routes, path[0]) != []
  {
    if Beaten(routes, route, path, 0) {
      var j :| 0 <= j < |routes| && 0 < |routes[j].segs| && !IsWild(path[0]) && routes[j].segs[0] == path[0];
      UnderHas(routes, path[0], Tail(routes[j]));
    }
    if Under(routes, path[0]) != [] {
      UnderHas(routes, path[0], Under(routes, path[0])[0]);
      var j :| 0 <= j < |routes| && Takes(routes[j], path[0]);
      assert SameWay(route, routes[j], 0);
    }
  }

  lemma ChosenByLiteral(routes: seq<Route>, route: Route, path: seq<string>, exact: bool)
    requires path != [] && Under(routes, path[0]) != []
    ensures Chosen(routes, route, path, exact) <==>
            Takes(route, path[0]) && Chosen(Under(routes, path[0]), Tail(route), path[1..], exact)
  {
    BeatenAtFirst(routes, route, path);
    if route.segs == [] {
      var j :| 0 <= j < |routes| && SameWay(route, routes[j], 0) && 0 < |routes[j].segs|;
      assert Outrun(routes, route);
    } else if Takes(route, path[0]) {
      forall tail ensures tail in Under(routes, path[0]) <==>
                          exists j :: 0 <= j < |routes| && SameFirst(route, routes[j]) && Tail(routes[j]) == tail
      {
        UnderHas(routes, path[0], tail);
        assert forall j :: 0 <= j < |routes| ==> (SameFirst(route, routes[j]) <==> Takes(routes[j], path[0]));
      }
      ChosenBelow(routes, Under(routes, path[0]), route, path, exact);
    }
  }

  lemma ChosenByWildcard(routes: seq<Route>, route: Route, path: seq<string>, exact: bool)
    requires path != [] && Under(routes, path[0]) == [] && UnderWild(routes) != []
    requires route in routes
    ensures Chosen(routes, route, path, exact) <==>
            TakesAny(route) && Chosen(UnderWild(routes), Tail(route), path[1..], exact)
  {
    BeatenAtFirst(routes, route, path);
    if route.segs == [] {
      UnderWildHas(routes, UnderWild(routes)[0]);
      var j :| 0 <= j < |routes| && TakesAny(routes[j]);
      assert SameWay(route, routes[j], 0);
      assert Outrun(routes, route);
    } else if TakesAny(route) {
      forall tail ensures tail in UnderWild(routes) <==>
                          exists j :: 0 <= j < |routes| && SameFirst(route, routes[j]) && Tail(routes[j]) == tail
      {
        UnderWildHas(routes, tail);
        assert forall j :: 0 <= j < |routes| ==> (SameFirst(route, routes[j]) <==> TakesAny(routes[j]));
      }
      ChosenBelow(routes, UnderWild(routes), route, path, exact);
    }
  }

  lemma ChosenAtEnd(routes: seq<Route>, route: Route, path: seq<string>, exact: bool)
    requires path != [] && Under(routes, path[0]) == [] && UnderWild(routes) == []
    requires route in routes
    ensures Chosen(routes, route, path, exact) <==> route.segs == [] && !exact && Leaf(routes)
  {
    if route.segs == [] {
      if !Leaf(routes) {
        var j :| 0 <= j < |routes| && routes[j].segs != [];
        assert SameWay(route, routes[j], 0);
        assert Outrun(routes, route);
      }
    } else {
      UnderWildHas(routes, Tail(route));
      UnderHas(routes, path[0], Tail(route));
    }
  }

  /** The search descends to exactly the routes that the list chooses. */
  lemma {:induction false} SelectedAreChosen(routes: seq<Route>, path: seq<string>, exact: bool, index: nat)
    ensures (Selected(routes, path, exact).Some? && index in Ending(Selected(routes, path, exact).value)) <==>
            exists k :: 0 <= k < |routes| && routes[k].index == index && Chosen(routes, routes[k], path, exact)
    decreases |path|
  {
    if path == [] {
      EndingHas(routes, index);
    } else if Under(routes, path[0]) != [] {
      var below := Under(routes, path[0]);
      SelectedAreChosen(below, path[1..], exact, index);
      forall k | 0 <= k < |routes|
        ensures Chosen(routes, routes[k], path, exact) <==>
                Takes(routes[k], path[0]) && Chosen(below, Tail(routes[k]), path[1..], exact)
        ensures Takes(routes[k], path[0]) ==> Tail(routes[k]) in below
      {
        ChosenByLiteral(routes, routes[k], path, exact);
        if Takes(routes[k], path[0]) { UnderHas(routes, path[0], Tail(routes[k])); }
      }
      forall i | 0 <= i < |below|
        ensures exists k :: 0 <= k < |routes| && Takes(routes[k], path[0]) && Tail(routes[k]) == below[i]
      {
        UnderHas(routes, path[0], below[i]);
      }
    } else if UnderWild(routes) != [] {
      var below := UnderWild(routes);
      SelectedAreChosen(below, path[1..], exact, index);
      forall k | 0 <= k < |routes|
        ensures Chosen(routes, routes[k], path, exact) <==>
                TakesAny(routes[k]) && Chosen(below, Tail(routes[k]), path[1..], exact)
        ensures TakesAny(routes[k]) ==> Tail(routes[k]) in below
      {
        ChosenByWildcard(routes, routes[k], path, exact);
        if TakesAny(routes[k]) { UnderWildHas(routes, Tail(routes[k])); }
      }
      forall i | 0 <= i < |below|
        ensures exists k :: 0 <= k < |routes| && TakesAny(routes[k]) && Tail(routes[k]) == below[i]
      {
        UnderWildHas(routes, below[i]);
      }
    } else {
      EndingHas(routes, index);
      forall k | 0 <= k < |routes|
        ensures Chosen(routes, routes[k], path, exact) <==> routes[k].segs == [] && !exact && Leaf(routes)
      {
        ChosenAtEnd(routes, routes[k], path, exact);
      }
    }
  }

  /** A route of literals is found by its own path, whatever wildcards stand beside it. */
  lemma LiteralAlwaysFound(routes: seq<Route>, k: nat, exact: bool)
    requires k < |routes| && forall d :: 0 <= d < |routes[k].segs| ==> !IsWild(routes[k].segs[d])
    ensures Selected(routes, routes[k].segs, exact).Some?
    ensures routes[k].index in Ending(Selected(routes, routes[k].segs, exact).value)
  {
    SelectedAreChosen(routes, routes[k].segs, exact, routes[k].index);
    assert Chosen(routes, routes[k], routes[k].segs, exact);
  }
}
