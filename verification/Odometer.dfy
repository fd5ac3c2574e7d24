/**
 Enumeration of the parameter values to warm a cache up with (view/cache.go): an odometer turns through all combinations
 of each case, and the cases are collected in the order in which they finish.
 */
module Odometer {
  import opened Keys
  import opened Lists

  // ----- the combinations -----

  /** The tuples of a shorter length, each with every last digit. */
  function Extend(tuples: seq<seq<nat>>, n: nat): seq<seq<nat>> {
    if tuples == [] then [] else Extend(tuples[..|tuples| - 1], n) + Row(tuples[|tuples| - 1], n)
  }

  function Row(t: seq<nat>, n: nat): (r: seq<seq<nat>>)
    ensures |r| == n && forall d :: 0 <= d < n ==> r[d] == t + [d]
  {
    if n == 0 then [] else Row(t, n - 1) + [t + [n - 1]]
  }

  /** All index tuples below these lengths, in lexicographic order. */
  function Tuples(lens: seq<nat>): seq<seq<nat>> {
    if lens == [] then [[]] else Extend(Tuples(lens[..|lens| - 1]), lens[|lens| - 1])
  }

  predicate Below(t: seq<nat>, lens: seq<nat>) {
    |t| == |lens| && forall i :: 0 <= i < |t| ==> t[i] < lens[i]
  }

  /** One turn of the odometer. */
  function Next(lens: seq<nat>, t: seq<nat>): (r: Option<seq<nat>>)
    requires |t| == |lens|
    ensures r.Some? ==> |r.value| == |lens|
  {
    if lens == [] then None
    else
      var n := |t| - 1;
      if t[n] + 1 < lens[n] then Some(t[..n] + [t[n] + 1])
      else
        var carried := Next(lens[..n], t[..n]);
        if carried.None? then None else Some(carried.value + [0])
  }

  function Product(lens: seq<nat>): nat {
    if lens == [] then 1 else Product(lens[..|lens| - 1]) * lens[|lens| - 1]
  }

  /** The mixed-radix number that the digits write. */
  function Rank(lens: seq<nat>, t: seq<nat>): nat
    requires |t| == |lens|
  {
    if lens == [] then 0
    else Rank(lens[..|lens| - 1], t[..|t| - 1]) * lens[|lens| - 1] + t[|t| - 1]
  }

  lemma OneMoreTime(a: nat, n: nat)
    ensures (a + 1) * n == a * n + n
  {}

  lemma {:induction false} NextIsBelow(lens: seq<nat>, t: seq<nat>)
    requires Below(t, lens)
    ensures Next(lens, t).Some? ==> Below(Next(lens, t).value, lens)
    decreases |lens|
  {
    if lens != [] {
      NextIsBelow(lens[..|lens| - 1], t[..|t| - 1]);
    }
  }

  /** A turn adds one to the number. */
  lemma {:induction false} TurnAddsOne(lens: seq<nat>, t: seq<nat>)
    requires Below(t, lens) && Next(lens, t).Some?
    ensures Rank(lens, Next(lens, t).value) == Rank(lens, t) + 1
    decreases |lens|
  {
    NextIsBelow(lens, t);
    var n := |t| - 1;
    var next := Next(lens, t).value;
    if t[n] + 1 < lens[n] {
      assert next[..n] == t[..n];
    } else {
      TurnAddsOne(lens[..n], t[..n]);
      OneMoreTime(Rank(lens[..n], t[..n]), lens[n]);
      assert next[..n] == Next(lens[..n], t[..n]).value;
    }
  }

  // ----- the turns go through the tuples in order -----

  ghost predicate Chain(lens: seq<nat>, tuples: seq<seq<nat>>) {
    && (forall k :: 0 <= k < |tuples| ==> |tuples[k]| == |lens|)
    && (forall k {:trigger Leads(lens, tuples, k)} :: 0 <= k < |tuples| - 1 ==> Leads(lens, tuples, k))
  }

  /** One turn leads from a tuple to the one after it. */
  ghost predicate Leads(lens: seq<nat>, tuples: seq<seq<nat>>, k: nat)
    requires k + 1 < |tuples| && |tuples[k]| == |lens|
  {
    Next(lens, tuples[k]) == Some(tuples[k + 1])
  }

  /** A turn within a row: the last digit grows. */
  lemma RowTurn(lens: seq<nat>, n: nat, t: seq<nat>, k: nat)
    requires |t| == |lens| && k + 1 < n
    ensures Next(lens + [n], t + [k]) == Some(t + [k + 1])
  {
    assert (t + [k])[..|t|] == t;
  }

  lemma RowChain(lens: seq<nat>, n: nat, t: seq<nat>, row: seq<seq<nat>>)
    requires |t| == |lens| && row == Row(t, n)
    ensures Chain(lens + [n], row)
  {
    forall k | 0 <= k < |row| - 1 ensures Leads(lens + [n], row, k) {
      RowTurn(lens, n, t, k);
    }
  }

  lemma RowEnds(lens: seq<nat>, n: nat, t: seq<nat>)
    requires |t| == |lens| && n > 0
    ensures var next := Next(lens, t);
            Next(lens + [n], Row(t, n)[n - 1]) == if next.None? then None else Some(next.value + [0])
  {
    var last := Row(t, n)[n - 1];
    assert last[..|t|] == t && (lens + [n])[..|lens|] == lens;
  }

  lemma {:induction false} ExtendEnds(tuples: seq<seq<nat>>, n: nat)
    requires n > 0
    ensures |Extend(tuples, n)| == |tuples| * n
    ensures tuples != [] ==>
              var e := Extend(tuples, n);
              && e != [] && e[0] == tuples[0] + [0]
              && e[|e| - 1] == tuples[|tuples| - 1] + [n - 1]
    decreases |tuples|
  {
    if tuples != [] {
      ExtendEnds(tuples[..|tuples| - 1], n);
      OneMoreTime(|tuples| - 1, n);
    }
  }

  lemma {:induction false} ExtendChain(lens: seq<nat>, n: nat, tuples: seq<seq<nat>>, extended: seq<seq<nat>>)
    requires Chain(lens, tuples) && n > 0 && extended == Extend(tuples, n)
    ensures Chain(lens + [n], extended)
    decreases |tuples|
  {
    if tuples != [] {
      var front, last := tuples[..|tuples| - 1], tuples[|tuples| - 1];
      var e, row := Extend(front, n), Row(last, n);
      ChainFront(lens, tuples);
      ExtendChain(lens, n, front, e);
      RowChain(lens, n, last, row);
      if front != [] {
        ExtendEnds(front, n);
        assert Leads(lens, tuples, |front| - 1);
        RowsMeet(lens, n, front[|front| - 1], last);
        ChainJoins(lens + [n], e, row);
      }
    }
  }

  lemma RowsMeet(lens: seq<nat>, n: nat, t: seq<nat>, u: seq<nat>)
    requires |t| == |lens| && n > 0 && Next(lens, t) == Some(u)
    ensures Next(lens + [n], t + [n - 1]) == Some(u + [0])
  {
    RowEnds(lens, n, t);
    assert Row(t, n)[n - 1] == t + [n - 1];
  }

  lemma ChainJoins(lens: seq<nat>, a: seq<seq<nat>>, b: seq<seq<nat>>)
    requires Chain(lens, a) && Chain(lens, b) && a != [] && b != [] && Next(lens, a[|a| - 1]) == Some(b[0])
    ensures Chain(lens, a + b)
  {
    forall k | 0 <= k < |a + b| - 1 ensures Leads(lens, a + b, k) {
      if k < |a| - 1 {
        assert Leads(lens, a, k);
      } else if k >= |a| {
        assert Leads(lens, b, k - |a|);
      }
    }
  }

  lemma ChainFront(lens: seq<nat>, tuples: seq<seq<nat>>)
    requires Chain(lens, tuples) && tuples != []
    ensures Chain(lens, tuples[..|tuples| - 1])
  {
    var front := tuples[..|tuples| - 1];
    forall k | 0 <= k < |front| - 1 ensures Leads(lens, front, k) {
      assert Leads(lens, tuples, k);
    }
  }

  function Zeros(n: nat): (z: seq<nat>)
    ensures |z| == n && forall i :: 0 <= i < n ==> z[i] == 0
  {
    seq(n, _ => 0)
  }

  predicate Positive(lens: seq<nat>) {
    forall i :: 0 <= i < |lens| ==> lens[i] > 0
  }

  /** The turns start at zero, go through these tuples, and end at the last one. */
  ghost predicate Turns(lens: seq<nat>, tuples: seq<seq<nat>>) {
    && tuples != [] && Chain(lens, tuples)
    && tuples[0] == Zeros(|lens|) && Next(lens, tuples[|tuples| - 1]) == None
  }

  lemma TurnsExtend(lens: seq<nat>, tuples: seq<seq<nat>>, extended: seq<seq<nat>>)
    requires lens != [] && lens[|lens| - 1] > 0 && Turns(lens[..|lens| - 1], tuples)
             && extended == Extend(tuples, lens[|lens| - 1])
    ensures Turns(lens, extended) && |extended| == |tuples| * lens[|lens| - 1]
  {
    var front, n := lens[..|lens| - 1], lens[|lens| - 1];
    assert front + [n] == lens;
    ExtendChain(front, n, tuples, extended);
    ExtendEnds(tuples, n);
    assert Zeros(|lens|) == Zeros(|front|) + [0];
    RowEnds(front, n, tuples[|tuples| - 1]);
    assert Row(tuples[|tuples| - 1], n)[n - 1] == tuples[|tuples| - 1] + [n - 1];
  }

  lemma {:induction false} TurnsGoThroughTuples(lens: seq<nat>, tuples: seq<seq<nat>>)
    requires Positive(lens) && tuples == Tuples(lens)
    ensures Turns(lens, tuples) && |tuples| == Product(lens)
    decreases |lens|
  {
    if lens != [] {
      var before := Tuples(lens[..|lens| - 1]);
      TurnsGoThroughTuples(lens[..|lens| - 1], before);
      TurnsExtend(lens, before, tuples);
    }
  }

  lemma {:induction false} ExtendHas(tuples: seq<seq<nat>>, n: nat, t: seq<nat>)
    ensures t in Extend(tuples, n) <==> t != [] && t[..|t| - 1] in tuples && t[|t| - 1] < n
    decreases |tuples|
  {
    if tuples != [] {
      var front, last := tuples[..|tuples| - 1], tuples[|tuples| - 1];
      ExtendHas(front, n, t);
      assert tuples == front + [last];
      assert t in Row(last, n) <==> t != [] && t[..|t| - 1] == last && t[|t| - 1] < n by {
        if t != [] && t[..|t| - 1] == last && t[|t| - 1] < n {
          assert Row(last, n)[t[|t| - 1]] == t;
        }
      }
    }
  }

  lemma BelowSplit(t: seq<nat>, lens: seq<nat>)
    requires lens != []
    ensures Below(t, lens) <==> t != [] && Below(t[..|t| - 1], lens[..|lens| - 1]) && t[|t| - 1] < lens[|lens| - 1]
  {}

  /** Every combination is among the tuples. */
  lemma {:induction false} TuplesAreAll(lens: seq<nat>, t: seq<nat>)
    ensures t in Tuples(lens) <==> Below(t, lens)
    decreases |lens|
  {
    if lens != [] {
      var front, n := lens[..|lens| - 1], lens[|lens| - 1];
      ExtendHas(Tuples(front), n, t);
      BelowSplit(t, lens);
      if t != [] {
        TuplesAreAll(front, t[..|t| - 1]);
      }
    } else {
      assert Tuples(lens) == [[]];
    }
  }

  /** The position of a tuple is the number that it writes, so that none occurs twice. */
  lemma {:induction false} PositionIsRank(lens: seq<nat>, tuples: seq<seq<nat>>, k: nat)
    requires Turns(lens, tuples) && k < |tuples| && forall i :: 0 <= i < |tuples| ==> Below(tuples[i], lens)
    ensures |tuples[k]| == |lens| && Rank(lens, tuples[k]) == k
    decreases k
  {
    if k == 0 {
      RankOfZeros(lens);
    } else {
      PositionIsRank(lens, tuples, k - 1);
      assert Leads(lens, tuples, k - 1);
      TurnAddsOne(lens, tuples[k - 1]);
    }
  }

  lemma {:induction false} RankOfZeros(lens: seq<nat>)
    ensures Rank(lens, Zeros(|lens|)) == 0
    decreases |lens|
  {
    if lens != [] {
      RankOfZeros(lens[..|lens| - 1]);
      assert Zeros(|lens|)[..|lens| - 1] == Zeros(|lens| - 1);
    }
  }

  // ----- selectors -----

  /**
   A parameter with the values that a case gives it: one that does not convert to its type is missing, and some may be
   refused when they are set.
   */
  datatype ParamValue = ParamValue(name: string, required: bool, values: seq<Option<Value>>, refused: set<Value>)

  type Selector = map<string, Value>

  datatype Input = Input(selector: Selector, column: string, indexMeta: bool)

  /** The values of one parameter; an optional one can also be left out. */
  method GetParamValues(p: ParamValue) returns (r: Option<seq<Option<Value>>>)
    ensures r.Some? <==> Converts(p)
    ensures r.Some? ==> r.value == ValuesOf(p)
  {
    var result := [];
    for i := 0 to |p.values|
      invariant result == p.values[..i] && forall j :: 0 <= j < i ==> p.values[j].Some?
    {
      if p.values[i].None? {
        return None;
      }
      result := result + [p.values[i]];
    }
    if !p.required {
      result := result + [None];
    }
    return Some(result);
  }

  predicate Converts(p: ParamValue) {
    forall i :: 0 <= i < |p.values| ==> p.values[i].Some?
  }

  function ValuesOf(p: ParamValue): seq<Option<Value>> {
    p.values + if p.required then [] else [None]
  }

  function Lens(choices: seq<seq<Option<Value>>>): (lens: seq<nat>)
    ensures |lens| == |choices| && forall i :: 0 <= i < |lens| ==> lens[i] == |choices[i]|
  {
    seq(|choices|, i requires 0 <= i < |choices| => |choices[i]|)
  }

  /** The first `n` parameters are set, each to its chosen value or not at all. */
  function Assigned(params: seq<ParamValue>, choices: seq<seq<Option<Value>>>, t: seq<nat>, n: nat): Selector
    requires |params| == |choices| && Below(t, Lens(choices)) && n <= |t|
  {
    if n == 0 then map[]
    else
      var before, v := Assigned(params, choices, t, n - 1), choices[n - 1][t[n - 1]];
      if v.None? then before else before[params[n - 1].name := v.value]
  }

  predicate Refused(params: seq<ParamValue>, choices: seq<seq<Option<Value>>>, t: seq<nat>)
    requires |params| == |choices| && Below(t, Lens(choices))
  {
    exists i :: 0 <= i < |t| && choices[i][t[i]].Some? && choices[i][t[i]].value in params[i].refused
  }

  method SelectorFor(params: seq<ParamValue>, choices: seq<seq<Option<Value>>>, t: seq<nat>)
    returns (ok: bool, selector: Selector)
    requires |params| == |choices| && Below(t, Lens(choices))
    ensures ok <==> !Refused(params, choices, t)
    ensures ok ==> selector == Assigned(params, choices, t, |t|)
  {
    selector := map[];
    for i := 0 to |choices|
      invariant selector == Assigned(params, choices, t, i)
      invariant forall j :: 0 <= j < i && choices[j][t[j]].Some? ==> choices[j][t[j]].value !in params[j].refused
    {
      var actualValue := choices[i][t[i]];
      if actualValue.Some? {
        if actualValue.value in params[i].refused {
          return false, selector;
        }
        selector := selector[params[i].name := actualValue.value];
      }
    }
    return true, selector;
  }

  /** All digits after `i` stand at their top. */
  lemma {:induction false} NextAt(lens: seq<nat>, t: seq<nat>, i: nat)
    requires Below(t, lens) && i < |t| && forall j :: i < j < |t| ==> t[j] == lens[j] - 1
    ensures t[i] + 1 < lens[i] ==> Next(lens, t) == Some(t[..i] + [t[i] + 1] + Zeros(|t| - 1 - i))
    ensures i == 0 && t[0] + 1 == lens[0] ==> Next(lens, t) == None
    decreases |t|
  {
    var n := |t| - 1;
    if i < n {
      NextAt(lens[..n], t[..n], i);
      var head := t[..i] + [t[i] + 1];
      assert t[..n][..i] == t[..i];
      assert head + Zeros(n - i) == head + Zeros(n - 1 - i) + [0];
    } else {
      assert t[..n] + [t[n] + 1] + Zeros(0) == t[..n] + [t[n] + 1];
      if i == 0 {
        assert lens[..0] == [] && t[..0] == [];
      }
    }
  }

  /** Turns the odometer in place, unless it stands at its end. */
  method Turn(indexes: array<nat>, choices: seq<seq<Option<Value>>>) returns (more: bool)
    requires indexes.Length == |choices| > 0 && Below(indexes[..], Lens(choices))
    modifies indexes
    ensures more <==> Next(Lens(choices), old(indexes[..])).Some?
    ensures more ==> indexes[..] == Next(Lens(choices), old(indexes[..])).value
  {
    ghost var t, lens := indexes[..], Lens(choices);
    var i := indexes.Length - 1;
    while i >= 0
      invariant 0 <= i < indexes.Length
      invariant forall j :: 0 <= j <= i ==> indexes[j] == t[j]
      invariant forall j :: i < j < indexes.Length ==> indexes[j] == 0 && t[j] == lens[j] - 1
      decreases i
    {
      NextAt(lens, t, i);
      if indexes[i] < |choices[i]| - 1 {
        indexes[i] := indexes[i] + 1;
        assert indexes[..] == t[..i] + [t[i] + 1] + Zeros(|t| - 1 - i);
        return true;
      }
      if i == 0 {
        return false;
      }
      indexes[i] := 0;
      i := i - 1;
    }
  }

  predicate NoneEmpty(choices: seq<seq<Option<Value>>>) {
    forall i :: 0 <= i < |choices| ==> choices[i] != []
  }

  /** Some listed value of some parameter is refused. */
  predicate SomeRefused(params: seq<ParamValue>, choices: seq<seq<Option<Value>>>)
    requires |params| == |choices|
  {
    exists i, c :: 0 <= i < |choices| && 0 <= c < |choices[i]| && choices[i][c].Some?
      && choices[i][c].value in params[i].refused
  }

  /** These tuples index the choices, in the order of the turns. */
  ghost predicate Shows(tuples: seq<seq<nat>>, choices: seq<seq<Option<Value>>>) {
    Turns(Lens(choices), tuples) && forall k :: 0 <= k < |tuples| ==> Below(tuples[k], Lens(choices))
  }

  lemma TuplesList(choices: seq<seq<Option<Value>>>)
    requires NoneEmpty(choices)
    ensures Shows(Tuples(Lens(choices)), choices)
  {
    var lens := Lens(choices);
    var tuples := Tuples(lens);
    TurnsGoThroughTuples(lens, tuples);
    forall k | 0 <= k < |tuples| ensures Below(tuples[k], lens) {
      TuplesAreAll(lens, tuples[k]);
    }
  }

  /** The selectors of the first `k` tuples. */
  function SelectorsOf(params: seq<ParamValue>, choices: seq<seq<Option<Value>>>, tuples: seq<seq<nat>>,
                       k: nat): (r: seq<Selector>)
    requires |params| == |choices| && k <= |tuples| && forall j :: 0 <= j < |tuples| ==> Below(tuples[j], Lens(choices))
    ensures |r| == k && forall j :: 0 <= j < k ==> r[j] == Assigned(params, choices, tuples[j], |choices|)
  {
    if k == 0 then []
    else SelectorsOf(params, choices, tuples, k - 1) + [Assigned(params, choices, tuples[k - 1], |choices|)]
  }

  /** A refused value is met in some combination. */
  lemma RefusedIsMet(params: seq<ParamValue>, choices: seq<seq<Option<Value>>>)
    requires |params| == |choices| && NoneEmpty(choices)
    ensures SomeRefused(params, choices) <==>
            exists t :: Below(t, Lens(choices)) && Refused(params, choices, t)
  {
    if SomeRefused(params, choices) {
      var i, c :| 0 <= i < |choices| && 0 <= c < |choices[i]| && choices[i][c].Some?
        && choices[i][c].value in params[i].refused;
      var t := Zeros(|choices|)[i := c];
      assert Below(t, Lens(choices)) && choices[i][t[i]] == choices[i][c];
      assert Refused(params, choices, t);
    }
  }

  lemma TurnStep(lens: seq<nat>, tuples: seq<seq<nat>>, k: nat)
    requires Turns(lens, tuples) && k < |tuples|
    ensures |tuples[k]| == |lens| && Next(lens, tuples[k]) == if k + 1 < |tuples| then Some(tuples[k + 1]) else None
  {
    if k + 1 < |tuples| {
      assert Leads(lens, tuples, k);
    }
  }

  /** The first `k` combinations were set without a refusal. */
  ghost predicate Accepted(params: seq<ParamValue>, choices: seq<seq<Option<Value>>>, tuples: seq<seq<nat>>, k: nat)
    requires |params| == |choices| && k <= |tuples|
  {
    forall j :: 0 <= j < k ==> Below(tuples[j], Lens(choices)) && !Refused(params, choices, tuples[j])
  }

  lemma AcceptedMore(params: seq<ParamValue>, choices: seq<seq<Option<Value>>>, tuples: seq<seq<nat>>, k: nat)
    requires |params| == |choices| && k < |tuples| && Accepted(params, choices, tuples, k)
    requires Below(tuples[k], Lens(choices)) && !Refused(params, choices, tuples[k])
    ensures Accepted(params, choices, tuples, k + 1)
  {}

  lemma AllAccepted(params: seq<ParamValue>, choices: seq<seq<Option<Value>>>, tuples: seq<seq<nat>>)
    requires |params| == |choices| && NoneEmpty(choices) && tuples == Tuples(Lens(choices))
    ensures Accepted(params, choices, tuples, |tuples|) <==> !SomeRefused(params, choices)
  {
    RefusedIsMet(params, choices);
    forall k | 0 <= k < |tuples| ensures Below(tuples[k], Lens(choices)) {
      TuplesAreAll(Lens(choices), tuples[k]);
    }
    if SomeRefused(params, choices) {
      var t :| Below(t, Lens(choices)) && Refused(params, choices, t);
      TuplesAreAll(Lens(choices), t);
    }
  }

  /**
   Every selector of a case, once and in lexicographic order of the values; it fails without values or on a refused
   one.
   */
  method AppendSelectors(params: seq<ParamValue>, choices: seq<seq<Option<Value>>>)
    returns (ok: bool, selectors: seq<Selector>)
    requires |params| == |choices|
    ensures ok <==> NoneEmpty(choices) && !SomeRefused(params, choices)
    ensures ok && choices == [] ==> selectors == []
    ensures ok && choices != [] ==> Shows(Tuples(Lens(choices)), choices)
    ensures ok && choices != [] ==>
              selectors == SelectorsOf(params, choices, Tuples(Lens(choices)), |Tuples(Lens(choices))|)
  {
    for i := 0 to |choices|
      invariant forall j :: 0 <= j < i ==> choices[j] != []
    {
      if |choices[i]| == 0 {
        return false, [];
      }
    }
    if |choices| == 0 {
      return true, [];
    }
    TuplesList(choices);
    AllAccepted(params, choices, Tuples(Lens(choices)));
    ok, selectors := EachTurn(params, choices, Tuples(Lens(choices)));
  }

  method EachTurn(params: seq<ParamValue>, choices: seq<seq<Option<Value>>>, ghost tuples: seq<seq<nat>>)
    returns (ok: bool, selectors: seq<Selector>)
    requires |params| == |choices| > 0 && Shows(tuples, choices)
    ensures ok <==> Accepted(params, choices, tuples, |tuples|)
    ensures ok ==> selectors == SelectorsOf(params, choices, tuples, |tuples|)
  {
    selectors := [];
    ghost var lens := Lens(choices);
    var indexes := new nat[|choices|](_ => 0);
    assert indexes[..] == Zeros(|lens|);
    ghost var k := 0;
    while true
      invariant k < |tuples| && indexes[..] == tuples[k]
      invariant selectors == SelectorsOf(params, choices, tuples, k)
      invariant Accepted(params, choices, tuples, k)
      decreases |tuples| - k
    {
      TurnStep(lens, tuples, k);
      var selector;
      ok, selector := SelectorFor(params, choices, indexes[..]);
      if !ok {
        return false, selectors;
      }
      AcceptedMore(params, choices, tuples, k);
      selectors := selectors + [selector];
      assert selectors == SelectorsOf(params, choices, tuples, k + 1);
      var more := Turn(indexes, choices);
      if !more {
        assert k + 1 == |tuples|;
        return true, selectors;
      }
      k := k + 1;
    }
  }

  // ----- what a case yields -----

  /** The case can be enumerated: its values convert, none is refused, and a required parameter has one. */
  predicate Enumerable(params: seq<ParamValue>) {
    && (forall i :: 0 <= i < |params| ==> Converts(params[i]) && ValuesOf(params[i]) != [])
    && !SomeRefused(params, ChoicesOf(params))
  }

  function ChoicesOf(params: seq<ParamValue>): (choices: seq<seq<Option<Value>>>)
    ensures |choices| == |params| && forall i :: 0 <= i < |params| ==> choices[i] == ValuesOf(params[i])
  {
    seq(|params|, i requires 0 <= i < |params| => ValuesOf(params[i]))
  }

  function CaseSelectors(params: seq<ParamValue>): seq<Selector>
    requires Enumerable(params)
  {
    if params == [] then []
    else
      var choices := ChoicesOf(params);
      TuplesList(choices);
      SelectorsOf(params, choices, Tuples(Lens(choices)), |Tuples(Lens(choices))|)
  }

  method GenerateDatasetSelectors(params: seq<ParamValue>) returns (r: Option<seq<Selector>>)
    ensures r == if Enumerable(params) then Some(CaseSelectors(params)) else None
  {
    var availableValues := [];
    for i := 0 to |params|
      invariant availableValues == ChoicesOf(params)[..i]
      invariant forall j :: 0 <= j < i ==> Converts(params[j])
    {
      var values := GetParamValues(params[i]);
      if values.None? {
        return None;
      }
      availableValues := availableValues + [values.value];
    }
    assert availableValues == ChoicesOf(params);
    var ok, selectors := AppendSelectors(params, availableValues);
    if !ok {
      return None;
    }
    return Some(selectors);
  }

  /**
   A case with parameters yields one selector for each combination of its values, as many as the product of their
   numbers, at the position that the combination's digits write.
   */
  lemma EveryCombinationOnce(params: seq<ParamValue>, t: seq<nat>)
    requires params != [] && Enumerable(params) && Below(t, Lens(ChoicesOf(params)))
    ensures var lens := Lens(ChoicesOf(params));
            && |CaseSelectors(params)| == Product(lens)
            && Rank(lens, t) < Product(lens)
            && CaseSelectors(params)[Rank(lens, t)] == Assigned(params, ChoicesOf(params), t, |t|)
  {
    var choices, lens := ChoicesOf(params), Lens(ChoicesOf(params));
    var tuples := Tuples(lens);
    TurnsGoThroughTuples(lens, tuples);
    TuplesList(choices);
    TuplesAreAll(lens, t);
    var k :| 0 <= k < |tuples| && tuples[k] == t;
    PositionIsRank(lens, tuples, k);
  }

  // ----- all cases -----

  datatype WarmupConfig = WarmupConfig(indexColumn: string, indexMeta: bool, hasMeta: bool)

  function InputOf(selector: Selector, config: WarmupConfig): Input {
    Input(selector, config.indexColumn, (config.indexMeta || config.indexColumn != "") && config.hasMeta)
  }

  function InputsOf(selectors: seq<Selector>, config: WarmupConfig): (inputs: seq<Input>)
    ensures |inputs| == |selectors| && forall i :: 0 <= i < |inputs| ==> inputs[i] == InputOf(selectors[i], config)
  {
    seq(|selectors|, i requires 0 <= i < |selectors| => InputOf(selectors[i], config))
  }

  /** The elements of the bags in a set, among the first `n`. */
  ghost function Gathered(bags: seq<multiset<Input>>, done: set<nat>, n: nat): multiset<Input>
    requires n <= |bags|
  {
    if n == 0 then multiset{}
    else Gathered(bags, done, n - 1) + if n - 1 in done then bags[n - 1] else multiset{}
  }

  lemma {:induction false} GatheredMore(bags: seq<multiset<Input>>, done: set<nat>, i: nat, n: nat)
    requires n <= |bags| && i !in done && i < |bags|
    ensures Gathered(bags, done + {i}, n) == Gathered(bags, done, n) + if i < n then bags[i] else multiset{}
    decreases n
  {
    if n > 0 {
      GatheredMore(bags, done, i, n - 1);
    }
  }

  lemma {:induction false} GatheredNone(bags: seq<multiset<Input>>, n: nat)
    requires n <= |bags|
    ensures Gathered(bags, {}, n) == multiset{}
    decreases n
  {
    if n > 0 {
      GatheredNone(bags, n - 1);
    }
  }

  ghost function BagsOf(cases: seq<seq<ParamValue>>, config: WarmupConfig): (bags: seq<multiset<Input>>)
    ensures |bags| == |cases|
  {
    seq(|cases|, i requires 0 <= i < |cases| => BagOf(cases, config, i))
  }

  ghost function BagOf(cases: seq<seq<ParamValue>>, config: WarmupConfig, i: nat): multiset<Input>
    requires i < |cases|
  {
    if Good(cases, i) then multiset(InputsOf(CaseSelectors(cases[i]), config)) else multiset{}
  }

  predicate Good(cases: seq<seq<ParamValue>>, i: nat) {
    i < |cases| && Enumerable(cases[i])
  }

  method CaseInputs(cases: seq<seq<ParamValue>>, config: WarmupConfig, i: nat) returns (r: Option<seq<Input>>)
    requires i < |cases|
    ensures r.Some? <==> Good(cases, i)
    ensures r.Some? ==> multiset(r.value) == BagsOf(cases, config)[i]
  {
    var selectors := GenerateDatasetSelectors(cases[i]);
    if selectors.None? {
      return None;
    }
    assert BagsOf(cases, config)[i] == BagOf(cases, config, i);
    return Some(InputsOf(selectors.value, config));
  }

  /**
   Takes one message of each case from the channel, in whatever order the cases finish, and fails exactly when one of
   them fails. Without cases there is one input, for a selector without parameters.
   */
  method GenerateCacheInput(cases: seq<seq<ParamValue>>, config: WarmupConfig) returns (r: Option<seq<Input>>)
    ensures r.Some? <==> forall i :: 0 <= i < |cases| ==> Good(cases, i)
    ensures r.Some? && cases == [] ==> r.value == [InputOf(map[], config)]
    ensures r.Some? && cases != [] ==> multiset(r.value) == Gathered(BagsOf(cases, config), UpTo(|cases|), |cases|)
  {
    if |cases| == 0 {
      return Some([InputOf(map[], config)]);
    }
    var inputs: seq<Input> := [];
    var waiting := UpTo(|cases|);
    ghost var all, bags := waiting, BagsOf(cases, config);
    ghost var done: set<nat> := {};
    GatheredNone(bags, |bags|);
    while waiting != {}
      invariant done + waiting == all && done !! waiting
      invariant forall i :: i in done ==> Good(cases, i)
      invariant multiset(inputs) == Gathered(bags, done, |bags|)
      decreases |waiting|
    {
      var i :| i in waiting;
      var selectors := CaseInputs(cases, config, i);
      if selectors.None? {
        return None;
      }
      GatheredMore(bags, done, i, |bags|);
      inputs := inputs + selectors.value;
      waiting, done := waiting - {i}, done + {i};
    }
    assert done == all;
    assert forall i :: 0 <= i < |cases| ==> Good(cases, i);
    return Some(inputs);
  }
}
