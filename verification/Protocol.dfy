/**
 How the collectors of one read are coordinated (reader/service.go, view/collector.go): one goroutine per view, a global
 wait group that the reader waits on, one wait group per collector that its children wait on, and one relation group per
 collector that it joins its children with. A state machine over all interleavings of their steps.
 */
module Protocol {
  import opened Join

  datatype Pc =
    | Absent      // not created yet
    | Announced   // counted in the global wait group, goroutine started
    | Started     // deferred Fetched registered
    | Waiting     // children announced; waits for its parent
    | Passed      // the wait is over
    | Querying    // parent values taken, query running
    | Queried     // the query returned
    | Joining     // Fetched was called; waits for its children
    | Returning   // deferred Fetched still to run
    | Leaving     // readAll is over; global Done still to run
    | Grouping    // Done on the parent's relation group still to run
    | Done

  /** `wg` is the collector's own wait group, `delta` its wgDelta field, `group` its relation group. */
  datatype Proc = Proc(pc: Pc, wg: int, delta: int, group: int, complete: bool, released: nat)

  datatype State = State(procs: seq<Proc>, wg: int, err: bool)

  ghost predicate Tree(s: Schema) {
    && |s| > 0
    && forall i {:trigger s[i].parent} :: 0 < i < |s| ==> 0 <= s[i].parent < i
  }

  predicate Kid(s: Schema, i: nat, j: nat) {
    0 < j < |s| && s[j].parent == i
  }

  /** The initial wait count: of the root from its own strategy, of any other view from its parent's. */
  function Delta(s: Schema, i: nat): int
    requires Tree(s) && i < |s|
  {
    if i == 0 then (if s[0].parallel then 0 else 1)
    else if s[s[i].parent].parallel then 0 else 1
  }

  const ABSENT := Proc(Absent, 0, 0, 0, false, 0)

  function Created(s: Schema, i: nat): Proc
    requires Tree(s) && i < |s|
  {
    Proc(Announced, Delta(s, i), Delta(s, i), 0, false, 0)
  }

  function Init(s: Schema): State
    requires Tree(s)
  {
    State(seq(|s|, i requires 0 <= i < |s| => if i == 0 then Created(s, 0) else ABSENT), 0, false)
  }

  function Tally(bits: seq<bool>): nat {
    if bits == [] then 0 else Tally(bits[..|bits| - 1]) + if bits[|bits| - 1] then 1 else 0
  }

  function Kids(s: Schema, i: nat): seq<bool> {
    seq(|s|, j requires 0 <= j < |s| => Kid(s, i, j))
  }

  /** The view takes its parent's values, so it must not do so before they are all there. */
  predicate Depends(s: Schema, i: nat)
    requires Tree(s) && i < |s|
  {
    i > 0 && !s[s[i].parent].parallel
  }

  predicate Enabled(s: Schema, st: State, i: nat)
    requires Tree(s) && |st.procs| == |s|
  {
    && i < |s|
    && match st.procs[i].pc
       case Absent => false
       case Done => false
       case Waiting => i == 0 || st.procs[s[i].parent].wg == 0
       case Joining => st.procs[i].group == 0
       case _ => true
  }

  /** `Fetched`: releases the own wait group unless that has been done. */
  function Fetched(p: Proc): Proc {
    if p.delta > 0 then p.(wg := p.wg - 1, delta := p.delta - 1, released := p.released + 1) else p
  }

  /** What goroutine `i` makes of its own collector in one step. */
  function Own(s: Schema, p: Proc, err: bool, i: nat, ok: bool): Proc
    requires Tree(s) && i < |s|
  {
    match p.pc
    case Announced => p.(pc := if err then Leaving else Started)
    case Started =>
      if ok then p.(pc := Waiting, group := if s[i].parallel then 0 else Tally(Kids(s, i))) else p.(pc := Returning)
    case Waiting => p.(pc := Passed)
    case Passed =>
      if err then p.(pc := Returning)
      else if Depends(s, i) && !ok then p.(pc := Returning, complete := true)
      else p.(pc := Querying)
    case Querying => p.(pc := if s[i].parallel then Returning else Queried, complete := ok)
    case Queried => Fetched(p).(pc := Joining)
    case Joining => p.(pc := Returning)
    case Returning => Fetched(p).(pc := Leaving)
    case Leaving => p.(pc := if Depends(s, i) then Grouping else Done)
    case Grouping => p.(pc := Done)
    case _ => p
  }

  /**
   One step of goroutine `i`; `ok` is the outcome of creating the relations, of collecting the parent's values (some or
   none), or of the query.
   */
  function Apply(s: Schema, st: State, i: nat, ok: bool): State
    requires Tree(s) && |st.procs| == |s| && Enabled(s, st, i)
  {
    var pc := st.procs[i].pc;
    var own := Own(s, st.procs[i], st.err, i, ok);
    if pc.Started? && ok then
      State(seq(|s|, j requires 0 <= j < |s| =>
              if j == i then own else if Kid(s, i, j) then Created(s, j) else st.procs[j]),
            st.wg + Tally(Kids(s, i)), st.err)
    else if pc.Leaving? && i > 0 then
      Move(st, i, own).(wg := st.wg - 1)
    else if pc.Grouping? && i > 0 then
      var left := Move(st, i, own);
      var parent := left.procs[s[i].parent];
      Move(left, s[i].parent, parent.(group := parent.group - 1))
    else
      Move(st, i, own).(err := st.err || ((pc.Started? || pc.Querying?) && !ok))
  }

  function Move(st: State, i: nat, p: Proc): State
    requires i < |st.procs|
  {
    st.(procs := st.procs[i := p])
  }

  datatype Run = Start | Then(before: Run, i: nat, ok: bool)

  /** The state after a run, if every one of its steps was possible. */
  ghost predicate Reaches(s: Schema, run: Run, st: State)
    requires Tree(s)
  {
    match run
    case Start => st == Init(s)
    case Then(before, i, ok) =>
      exists prior :: Reaches(s, before, prior) && |prior.procs| == |s| && Enabled(s, prior, i)
        && st == Apply(s, prior, i, ok)
  }

  // ----- what every step keeps -----

  predicate Live(pc: Pc) {
    !pc.Absent? && !pc.Grouping? && !pc.Done?
  }

  predicate Pending(pc: Pc) {
    !pc.Absent? && !pc.Done?
  }

  function LiveBits(st: State): seq<bool> {
    seq(|st.procs|, j requires 0 <= j < |st.procs| => j > 0 && Live(st.procs[j].pc))
  }

  function GroupBits(s: Schema, st: State, i: nat): seq<bool>
    requires |st.procs| == |s|
  {
    seq(|s|, j requires 0 <= j < |s| => Kid(s, i, j) && Pending(st.procs[j].pc))
  }

  predicate BeforeKids(pc: Pc) {
    pc.Absent? || pc.Announced? || pc.Started?
  }

  predicate BeforeFetched(pc: Pc) {
    pc.Announced? || pc.Started? || pc.Waiting? || pc.Passed? || pc.Querying? || pc.Queried?
  }

  /** The own wait group follows wgDelta, which goes from Delta to zero once, however often Fetched is called. */
  ghost predicate OwnGroup(s: Schema, st: State, i: nat)
    requires Tree(s) && |st.procs| == |s| && i < |s|
  {
    var p := st.procs[i];
    && p.wg == p.delta
    && (p.pc.Absent? ==> p == ABSENT)
    && (!p.pc.Absent? ==> p.delta + p.released == Delta(s, i) && p.delta >= 0)
    && (BeforeFetched(p.pc) ==> p.released == 0)
    && (p.pc.Joining? ==> p.delta == 0)
  }

  predicate Over(pc: Pc) {
    pc.Leaving? || pc.Grouping? || pc.Done?
  }

  ghost predicate Placed(s: Schema, st: State, i: nat)
    requires Tree(s) && |st.procs| == |s| && i < |s|
  {
    var pc := st.procs[i].pc;
    && (i == 0 ==> !pc.Absent? && !pc.Grouping?)
    && (pc.Grouping? ==> Depends(s, i))
    && (pc.Queried? || pc.Joining? ==> !s[i].parallel)
  }

  /** A view exists only once its parent has announced it, and a parent that is over has released its wait group. */
  ghost predicate Below(s: Schema, st: State, i: nat)
    requires Tree(s) && |st.procs| == |s| && i < |s|
  {
    i > 0 && !st.procs[i].pc.Absent? ==>
      var parent := st.procs[s[i].parent];
      !BeforeKids(parent.pc) && (Over(parent.pc) ==> parent.delta == 0)
  }

  ghost predicate Family(s: Schema, st: State, i: nat)
    requires Tree(s) && |st.procs| == |s| && i < |s|
  {
    Placed(s, st, i) && Below(s, st, i)
  }

  ghost predicate Waited(s: Schema, st: State, i: nat)
    requires Tree(s) && |st.procs| == |s| && i < |s|
  {
    var pc := st.procs[i].pc;
    i > 0 && (pc.Passed? || pc.Querying? || pc.Queried? || pc.Joining?) ==> st.procs[s[i].parent].wg == 0
  }

  /** Once a collector is past its query, its rows are all there or an error has been recorded. */
  ghost predicate Settled(s: Schema, st: State, i: nat)
    requires |st.procs| == |s| && i < |s|
  {
    var p := st.procs[i];
    && (!p.pc.Absent? && !BeforeFetched(p.pc) ==> p.complete || st.err)
    && (p.pc.Queried? || p.released > 0 ==> p.complete || st.err)
  }

  ghost predicate Announces(s: Schema, st: State, i: nat)
    requires |st.procs| == |s| && i < |s|
  {
    !BeforeKids(st.procs[i].pc) && !st.err ==> forall j :: 0 <= j < |s| && Kid(s, i, j) ==> !st.procs[j].pc.Absent?
  }

  ghost predicate Inv(s: Schema, st: State)
    requires Tree(s)
  {
    && |st.procs| == |s|
    && st.wg == Tally(LiveBits(st))
    && (forall i: nat :: i < |s| && !s[i].parallel ==> st.procs[i].group == Tally(GroupBits(s, st, i)))
    && (forall i: nat :: i < |s| ==> OwnGroup(s, st, i))
    && (forall i: nat :: i < |s| ==> Family(s, st, i))
    && (forall i: nat :: i < |s| ==> Waited(s, st, i))
    && (forall i: nat :: i < |s| ==> Settled(s, st, i))
    && (forall i: nat :: i < |s| ==> Announces(s, st, i))
  }

  lemma {:induction false} TallyUpdate(bits: seq<bool>, i: nat, b: bool)
    requires i < |bits|
    ensures Tally(bits[i := b]) == Tally(bits) + (if b then 1 else 0) - (if bits[i] then 1 else 0)
    decreases |bits|
  {
    var n := |bits| - 1;
    if i < n {
      TallyUpdate(bits[..n], i, b);
      assert bits[i := b][..n] == bits[..n][i := b];
    } else {
      assert bits[i := b][..n] == bits[..n];
    }
  }

  lemma {:induction false} TallyUnion(a: seq<bool>, b: seq<bool>, c: seq<bool>)
    requires |a| == |b| == |c|
    requires forall j :: 0 <= j < |a| ==> !(a[j] && b[j]) && c[j] == (a[j] || b[j])
    ensures Tally(c) == Tally(a) + Tally(b)
    decreases |a|
  {
    if a != [] {
      TallyUnion(a[..|a| - 1], b[..|a| - 1], c[..|a| - 1]);
    }
  }

  lemma {:induction false} TallyNone(bits: seq<bool>)
    ensures Tally(bits) == 0 <==> forall j :: 0 <= j < |bits| ==> !bits[j]
    decreases |bits|
  {
    if bits != [] {
      TallyNone(bits[..|bits| - 1]);
      assert forall j :: 0 <= j < |bits| - 1 ==> bits[..|bits| - 1][j] == bits[j];
    }
  }

  lemma InitInv(s: Schema)
    requires Tree(s)
    ensures Inv(s, Init(s))
  {
    var st := Init(s);
    TallyNone(LiveBits(st));
    forall i: nat | i < |s|
      ensures Tally(GroupBits(s, st, i)) == 0
    {
      TallyNone(GroupBits(s, st, i));
    }
  }

  lemma GlobalOnAnnounce(s: Schema, st: State, i: nat)
    requires Tree(s) && Inv(s, st) && i < |s| && st.procs[i].pc.Started?
    ensures Apply(s, st, i, true).wg == Tally(LiveBits(Apply(s, st, i, true)))
  {
    var bits, bits' := LiveBits(st), LiveBits(Apply(s, st, i, true));
    forall j: nat | j < |s|
      ensures !(bits[j] && Kids(s, i)[j]) && bits'[j] == (bits[j] || Kids(s, i)[j])
    {
      assert Family(s, st, j);
    }
    TallyUnion(bits, Kids(s, i), bits');
  }

  /** The global counter is the number of announced views that have not signed off. */
  lemma GlobalKept(s: Schema, st: State, i: nat, ok: bool)
    requires Tree(s) && Inv(s, st) && Enabled(s, st, i)
    ensures Apply(s, st, i, ok).wg == Tally(LiveBits(Apply(s, st, i, ok)))
  {
    assert Family(s, st, i);
    if st.procs[i].pc.Started? && ok {
      GlobalOnAnnounce(s, st, i);
    } else if st.procs[i].pc.Leaving? && i > 0 {
      assert LiveBits(Apply(s, st, i, ok)) == LiveBits(st)[i := false];
      TallyUpdate(LiveBits(st), i, false);
    } else {
      LiveOtherwise(s, st, i, ok);
    }
  }

  lemma LiveOtherwise(s: Schema, st: State, i: nat, ok: bool)
    requires Tree(s) && Inv(s, st) && Enabled(s, st, i)
    requires !(st.procs[i].pc.Started? && ok) && !(st.procs[i].pc.Leaving? && i > 0)
    ensures LiveBits(Apply(s, st, i, ok)) == LiveBits(st)
  {
    var st' := Apply(s, st, i, ok);
    assert Family(s, st, i);
    forall j: nat | j < |s| ensures Live(st'.procs[j].pc) == Live(st.procs[j].pc) || j == 0 {
      assert j != i ==> st'.procs[j].pc == st.procs[j].pc;
    }
  }

  lemma GroupOnAnnounce(s: Schema, st: State, i: nat, k: nat)
    requires Tree(s) && Inv(s, st) && i < |s| && st.procs[i].pc.Started? && k < |s| && !s[k].parallel
    ensures Apply(s, st, i, true).procs[k].group == Tally(GroupBits(s, Apply(s, st, i, true), k))
  {
    var st' := Apply(s, st, i, true);
    if k == i {
      assert GroupBits(s, st', k) == Kids(s, i);
    } else {
      assert Kid(s, i, k) ==> Family(s, st, k) && OwnGroup(s, st, k);
      assert GroupBits(s, st', k) == GroupBits(s, st, k);
    }
  }

  lemma GroupOnSignOff(s: Schema, st: State, i: nat, ok: bool, k: nat)
    requires Tree(s) && Inv(s, st) && i < |s| && st.procs[i].pc.Grouping? && k < |s| && !s[k].parallel
    ensures Apply(s, st, i, ok).procs[k].group == Tally(GroupBits(s, Apply(s, st, i, ok), k))
  {
    var st' := Apply(s, st, i, ok);
    assert Family(s, st, i);
    if s[i].parent == k {
      assert GroupBits(s, st', k) == GroupBits(s, st, k)[i := false];
      TallyUpdate(GroupBits(s, st, k), i, false);
    } else {
      assert GroupBits(s, st', k) == GroupBits(s, st, k);
    }
  }

  /**
   A step that announces nobody and does not sign off changes one collector, and leaves it pending if its parent waits
   for it.
   */
  lemma PendingOtherwise(s: Schema, st: State, i: nat, ok: bool)
    requires Tree(s) && Inv(s, st) && Enabled(s, st, i)
    requires !st.procs[i].pc.Grouping? && !(st.procs[i].pc.Started? && ok)
    ensures var st' := Apply(s, st, i, ok);
            && (forall j: nat :: j < |s| && j != i ==> st'.procs[j] == st.procs[j])
            && st'.procs[i].group == st.procs[i].group
            && (i > 0 && !s[s[i].parent].parallel ==> Pending(st'.procs[i].pc) == Pending(st.procs[i].pc))
  {
    assert Family(s, st, i);
  }

  lemma GroupOtherwise(s: Schema, st: State, i: nat, ok: bool, k: nat)
    requires Tree(s) && Inv(s, st) && Enabled(s, st, i) && k < |s| && !s[k].parallel
    requires !st.procs[i].pc.Grouping? && !(st.procs[i].pc.Started? && ok)
    ensures Apply(s, st, i, ok).procs[k].group == Tally(GroupBits(s, Apply(s, st, i, ok), k))
  {
    PendingOtherwise(s, st, i, ok);
    assert GroupBits(s, Apply(s, st, i, ok), k) == GroupBits(s, st, k);
  }

  /** A relation group counts the children that have not signed off to it. */
  lemma GroupKept(s: Schema, st: State, i: nat, ok: bool, k: nat)
    requires Tree(s) && Inv(s, st) && Enabled(s, st, i) && k < |s| && !s[k].parallel
    ensures Apply(s, st, i, ok).procs[k].group == Tally(GroupBits(s, Apply(s, st, i, ok), k))
  {
    if st.procs[i].pc.Started? && ok {
      GroupOnAnnounce(s, st, i, k);
    } else if st.procs[i].pc.Grouping? {
      GroupOnSignOff(s, st, i, ok, k);
    } else {
      GroupOtherwise(s, st, i, ok, k);
    }
  }

  /** What happens to the process of `k` in a step of `i`. */
  lemma StepOf(s: Schema, st: State, i: nat, ok: bool, k: nat)
    requires Tree(s) && Inv(s, st) && Enabled(s, st, i) && k < |s|
    ensures var p, p' := st.procs[k], Apply(s, st, i, ok).procs[k];
            && (st.err ==> Apply(s, st, i, ok).err)
            && (k == i ==> p' == Own(s, p, st.err, i, ok))
            && ((st.procs[i].pc.Started? || st.procs[i].pc.Querying?) && !ok ==> Apply(s, st, i, ok).err)
            && (k != i ==>
                  (p' == p.(group := p'.group) && (p.pc.Absent? ==> p' == p))
                  || (st.procs[i].pc.Started? && ok && Kid(s, i, k) && p.pc.Absent? && p' == Created(s, k)))
  {
    assert Family(s, st, k) && OwnGroup(s, st, k) && Family(s, st, i);
  }

  lemma OwnGroupKept(s: Schema, st: State, i: nat, ok: bool, k: nat)
    requires Tree(s) && Inv(s, st) && Enabled(s, st, i) && k < |s|
    ensures OwnGroup(s, Apply(s, st, i, ok), k)
  {
    StepOf(s, st, i, ok, k);
    assert OwnGroup(s, st, k) && Family(s, st, k) && Settled(s, st, k);
  }

  lemma PlacedKept(s: Schema, st: State, i: nat, ok: bool, k: nat)
    requires Tree(s) && Inv(s, st) && Enabled(s, st, i) && k < |s|
    ensures Placed(s, Apply(s, st, i, ok), k)
  {
    StepOf(s, st, i, ok, k);
    assert Family(s, st, k);
  }

  /**
   A collector that has announced its children has done so for good, and is over only with its wait group released.
   */
  lemma ParentStays(s: Schema, st: State, i: nat, ok: bool, j: nat)
    requires Tree(s) && Inv(s, st) && Enabled(s, st, i) && j < |s|
    ensures var p, p' := st.procs[j], Apply(s, st, i, ok).procs[j];
            && (!BeforeKids(p.pc) ==> !BeforeKids(p'.pc))
            && (Over(p'.pc) && (Over(p.pc) ==> p.delta == 0) && !BeforeKids(p.pc) ==> p'.delta == 0)
            && (st.procs[i].pc.Started? && ok && i == j ==> !BeforeKids(p'.pc) && !Over(p'.pc))
  {
    StepOf(s, st, i, ok, j);
    assert OwnGroup(s, st, j);
  }

  lemma BelowKept(s: Schema, st: State, i: nat, ok: bool, k: nat)
    requires Tree(s) && Inv(s, st) && Enabled(s, st, i) && k < |s|
    ensures Below(s, Apply(s, st, i, ok), k)
  {
    StepOf(s, st, i, ok, k);
    assert Family(s, st, k);
    if k > 0 {
      ParentStays(s, st, i, ok, s[k].parent);
    }
  }

  lemma WaitedKept(s: Schema, st: State, i: nat, ok: bool, k: nat)
    requires Tree(s) && Inv(s, st) && Enabled(s, st, i) && k < |s|
    ensures Waited(s, Apply(s, st, i, ok), k)
  {
    StepOf(s, st, i, ok, k);
    assert Waited(s, st, k) && Family(s, st, k);
    if k > 0 {
      StepOf(s, st, i, ok, s[k].parent);
      assert OwnGroup(s, st, s[k].parent);
    }
  }

  lemma SettledKept(s: Schema, st: State, i: nat, ok: bool, k: nat)
    requires Tree(s) && Inv(s, st) && Enabled(s, st, i) && k < |s|
    ensures Settled(s, Apply(s, st, i, ok), k)
  {
    StepOf(s, st, i, ok, k);
    assert Settled(s, st, k) && OwnGroup(s, st, k);
  }

  lemma AnnouncesKept(s: Schema, st: State, i: nat, ok: bool, k: nat)
    requires Tree(s) && Inv(s, st) && Enabled(s, st, i) && k < |s|
    ensures Announces(s, Apply(s, st, i, ok), k)
  {
    StepOf(s, st, i, ok, k);
    assert Announces(s, st, k);
    var st' := Apply(s, st, i, ok);
    forall j: nat | j < |s| && Kid(s, k, j) && !BeforeKids(st'.procs[k].pc) && !st'.err
      ensures !st'.procs[j].pc.Absent?
    {
      StepOf(s, st, i, ok, j);
      assert Family(s, st, j);
    }
  }

  /** The invariant survives every step of every goroutine. */
  lemma StepInv(s: Schema, st: State, i: nat, ok: bool)
    requires Tree(s) && Inv(s, st) && Enabled(s, st, i)
    ensures Inv(s, Apply(s, st, i, ok))
  {
    var st' := Apply(s, st, i, ok);
    GlobalKept(s, st, i, ok);
    forall k: nat | k < |s| && !s[k].parallel
      ensures st'.procs[k].group == Tally(GroupBits(s, st', k))
    {
      GroupKept(s, st, i, ok, k);
    }
    forall k: nat | k < |s|
      ensures OwnGroup(s, st', k) && Family(s, st', k) && Waited(s, st', k) && Settled(s, st', k)
              && Announces(s, st', k)
    {
      OwnGroupKept(s, st, i, ok, k);
      PlacedKept(s, st, i, ok, k);
      BelowKept(s, st, i, ok, k);
      WaitedKept(s, st, i, ok, k);
      SettledKept(s, st, i, ok, k);
      AnnouncesKept(s, st, i, ok, k);
    }
  }

  /** Every reachable state satisfies the invariant, and its goroutines can still move until all have finished. */
  lemma {:induction false} Reachable(s: Schema, run: Run, st: State)
    requires Tree(s) && Reaches(s, run, st)
    ensures Inv(s, st)
    decreases run
  {
    match run
    case Start => InitInv(s);
    case Then(before, i, ok) =>
      var prior :| Reaches(s, before, prior) && |prior.procs| == |s| && Enabled(s, prior, i)
        && st == Apply(s, prior, i, ok);
      Reachable(s, before, prior);
      StepInv(s, prior, i, ok);
  }

  // ----- no deadlock, and an end -----

  predicate Finished(st: State) {
    forall i :: 0 <= i < |st.procs| ==> st.procs[i].pc.Absent? || st.procs[i].pc.Done?
  }

  /** A goroutine waiting for its parent can go on, or some ancestor can. */
  lemma {:induction false} WaitingMoves(s: Schema, st: State, i: nat) returns (k: nat)
    requires Tree(s) && Inv(s, st) && i < |s| && st.procs[i].pc.Waiting?
    ensures Enabled(s, st, k)
    decreases i
  {
    k := i;
    if i > 0 && st.procs[s[i].parent].wg != 0 {
      k := s[i].parent;
      assert Family(s, st, i) && OwnGroup(s, st, k);
      if st.procs[k].pc.Waiting? {
        k := WaitingMoves(s, st, k);
      }
    }
  }

  /** A goroutine joining its children can go on, or some descendant can. */
  lemma {:induction false} JoiningMoves(s: Schema, st: State, i: nat) returns (k: nat)
    requires Tree(s) && Inv(s, st) && i < |s| && st.procs[i].pc.Joining?
    ensures Enabled(s, st, k)
    decreases |s| - i
  {
    k := i;
    if st.procs[i].group != 0 {
      assert Family(s, st, i);
      var bits := GroupBits(s, st, i);
      TallyNone(bits);
      k :| 0 <= k < |bits| && bits[k];
      if st.procs[k].pc.Waiting? {
        k := WaitingMoves(s, st, k);
      } else if st.procs[k].pc.Joining? {
        k := JoiningMoves(s, st, k);
      }
    }
  }

  /** No deadlock: as long as a goroutine has not finished, one can make a step. */
  lemma Progresses(s: Schema, st: State) returns (k: nat)
    requires Tree(s) && Inv(s, st) && !Finished(st)
    ensures Enabled(s, st, k)
  {
    var i: nat :| i < |st.procs| && !st.procs[i].pc.Absent? && !st.procs[i].pc.Done?;
    k := i;
    if st.procs[i].pc.Waiting? {
      k := WaitingMoves(s, st, i);
    } else if st.procs[i].pc.Joining? {
      k := JoiningMoves(s, st, i);
    }
  }

  function Rank(pc: Pc): nat {
    match pc
    case Absent => 11
    case Announced => 10
    case Started => 9
    case Waiting => 8
    case Passed => 7
    case Querying => 6
    case Queried => 5
    case Joining => 4
    case Returning => 3
    case Leaving => 2
    case Grouping => 1
    case Done => 0
  }

  /** Steps that the goroutines can still make, at most. */
  function Remaining(procs: seq<Proc>): nat {
    if procs == [] then 0 else Remaining(procs[..|procs| - 1]) + Rank(procs[|procs| - 1].pc)
  }

  lemma {:induction false} RanksFall(before: seq<Proc>, after: seq<Proc>, i: nat)
    requires |before| == |after| && i < |before|
    requires forall k :: 0 <= k < |before| ==> Rank(after[k].pc) <= Rank(before[k].pc)
    requires Rank(after[i].pc) < Rank(before[i].pc)
    ensures Remaining(after) < Remaining(before)
    decreases |before|
  {
    var n := |before| - 1;
    if i < n {
      RanksFall(before[..n], after[..n], i);
    } else {
      RanksStay(before[..n], after[..n]);
    }
  }

  lemma {:induction false} RanksStay(before: seq<Proc>, after: seq<Proc>)
    requires |before| == |after|
    requires forall k :: 0 <= k < |before| ==> Rank(after[k].pc) <= Rank(before[k].pc)
    ensures Remaining(after) <= Remaining(before)
    decreases |before|
  {
    if before != [] {
      RanksStay(before[..|before| - 1], after[..|before| - 1]);
    }
  }

  lemma RankOwn(s: Schema, p: Proc, err: bool, i: nat, ok: bool)
    requires Tree(s) && i < |s| && !p.pc.Absent? && !p.pc.Done?
    ensures Rank(Own(s, p, err, i, ok).pc) < Rank(p.pc)
  {}

  lemma RankStep(s: Schema, st: State, i: nat, ok: bool, k: nat)
    requires Tree(s) && Inv(s, st) && Enabled(s, st, i) && k < |s|
    ensures Rank(Apply(s, st, i, ok).procs[k].pc) <= Rank(st.procs[k].pc)
    ensures k == i ==> Rank(Apply(s, st, i, ok).procs[k].pc) < Rank(st.procs[k].pc)
  {
    StepOf(s, st, i, ok, k);
    if k == i {
      RankOwn(s, st.procs[i], st.err, i, ok);
    }
  }

  /** Every step uses up remaining work. */
  lemma StepFalls(s: Schema, st: State, i: nat, ok: bool)
    requires Tree(s) && Inv(s, st) && Enabled(s, st, i)
    ensures Remaining(Apply(s, st, i, ok).procs) < Remaining(st.procs)
  {
    var st' := Apply(s, st, i, ok);
    forall k: nat | k < |s|
      ensures Rank(st'.procs[k].pc) <= Rank(st.procs[k].pc)
      ensures k == i ==> Rank(st'.procs[k].pc) < Rank(st.procs[k].pc)
    {
      RankStep(s, st, i, ok, k);
    }
    RanksFall(st.procs, st'.procs, i);
  }

  function Steps(run: Run): nat {
    match run
    case Start => 0
    case Then(before, _, _) => Steps(before) + 1
  }

  lemma {:induction false} RemainingInit(procs: seq<Proc>)
    ensures Remaining(procs) <= 11 * |procs|
    decreases |procs|
  {
    if procs != [] {
      RemainingInit(procs[..|procs| - 1]);
    }
  }

  /** Every run ends: it has at most eleven steps per view. */
  lemma {:induction false} RunsEnd(s: Schema, run: Run, st: State)
    requires Tree(s) && Reaches(s, run, st)
    ensures Steps(run) + Remaining(st.procs) <= 11 * |s|
    decreases run
  {
    match run
    case Start => RemainingInit(st.procs);
    case Then(before, i, ok) =>
      var prior :| Reaches(s, before, prior) && |prior.procs| == |s| && Enabled(s, prior, i)
        && st == Apply(s, prior, i, ok);
      Reachable(s, before, prior);
      RunsEnd(s, before, prior);
      StepFalls(s, prior, i, ok);
  }

  // ----- what the reader may conclude -----

  /** Neither wait group is ever released below zero, and the own group of a view at most once. */
  lemma CountersSound(s: Schema, run: Run, st: State, i: nat)
    requires Tree(s) && Reaches(s, run, st) && i < |s|
    ensures st.wg >= 0 && st.procs[i].wg >= 0 && st.procs[i].released <= 1
    ensures !s[i].parallel ==> st.procs[i].group >= 0
  {
    Reachable(s, run, st);
    assert OwnGroup(s, st, i);
  }

  /** When the root has returned and the global counter is zero, no goroutine will touch a collector any more. */
  lemma WaitMeansDone(s: Schema, run: Run, st: State, i: nat)
    requires Tree(s) && Reaches(s, run, st) && i < |s|
    requires st.procs[0].pc.Done? && st.wg == 0
    ensures st.procs[i].pc.Absent? || st.procs[i].pc.Grouping? || st.procs[i].pc.Done?
    ensures !st.err ==> !st.procs[i].pc.Absent? && st.procs[i].complete
  {
    Reachable(s, run, st);
    TallyNone(LiveBits(st));
    forall k: nat | k < |s|
      ensures st.procs[k].pc.Absent? || st.procs[k].pc.Grouping? || st.procs[k].pc.Done?
    {
      assert k > 0 ==> !LiveBits(st)[k];
    }
    if !st.err {
      AllThere(s, st, i);
      assert Settled(s, st, i);
    }
  }

  lemma {:induction false} AllThere(s: Schema, st: State, i: nat)
    requires Tree(s) && Inv(s, st) && i < |s| && !st.err
    requires forall k: nat :: k < |s| ==> st.procs[k].pc.Absent? || st.procs[k].pc.Grouping? || st.procs[k].pc.Done?
    ensures !st.procs[i].pc.Absent?
    decreases i
  {
    assert Family(s, st, i);
    if i > 0 {
      AllThere(s, st, s[i].parent);
      assert Announces(s, st, s[i].parent) && Kid(s, s[i].parent, i);
    }
  }

  // ----- when the parent's values are safe to take -----

  /** Every collector whose children depend on it is waited for. */
  ghost predicate WellPlaced(s: Schema)
    requires Tree(s)
  {
    forall j: nat {:trigger Depends(s, j)} :: j < |s| && Depends(s, j) ==> Delta(s, s[j].parent) == 1
  }

  /** In this state goroutine `j` takes its parent's values, without having seen an error. */
  ghost predicate Takes(s: Schema, st: State, j: nat)
    requires Tree(s)
  {
    j < |s| == |st.procs| && Depends(s, j) && st.procs[j].pc.Passed? && !st.err
  }

  /** In every interleaving the parent's rows are complete and published when a child takes its values. */
  lemma TakesAfterFetched(s: Schema, run: Run, st: State, j: nat)
    requires Tree(s) && WellPlaced(s) && Reaches(s, run, st) && Takes(s, st, j)
    ensures st.procs[s[j].parent].released == 1 && st.procs[s[j].parent].complete
  {
    Reachable(s, run, st);
    var parent := s[j].parent;
    assert Waited(s, st, j) && Family(s, st, j) && OwnGroup(s, st, parent) && Settled(s, st, parent);
  }

  /** The path of steps by which a view is announced while none of its ancestors has taken anything. */
  lemma {:induction false} Announcing(s: Schema, i: nat) returns (run: Run, st: State)
    requires Tree(s) && i < |s|
    ensures Reaches(s, run, st) && |st.procs| == |s| && !st.err
    ensures st.procs[i] == Created(s, i)
    ensures forall j: nat :: j < |s| && Kid(s, i, j) ==> st.procs[j].pc.Absent?
    decreases i, 0
  {
    if i == 0 {
      run, st := Start, Init(s);
    } else {
      run, st := Opening(s, s[i].parent);
    }
  }

  /** A view has announced its children and waits. */
  lemma {:induction false} Opening(s: Schema, i: nat) returns (run: Run, st: State)
    requires Tree(s) && i < |s|
    ensures Reaches(s, run, st) && |st.procs| == |s| && !st.err
    ensures st.procs[i].pc.Waiting? && !st.procs[i].complete && st.procs[i].wg == Delta(s, i)
            && st.procs[i].released == 0
    ensures forall j: nat :: j < |s| && Kid(s, i, j) ==>
              st.procs[j] == Created(s, j) && forall k: nat :: k < |s| && Kid(s, j, k) ==> st.procs[k].pc.Absent?
    decreases i, 1
  {
    var run0, st0 := Announcing(s, i);
    Reachable(s, run0, st0);
    var st1 := Apply(s, st0, i, true);
    st := Apply(s, st1, i, true);
    run := Then(Then(run0, i, true), i, true);
    forall j: nat, k: nat | j < |s| && Kid(s, i, j) && k < |s| && Kid(s, j, k)
      ensures st.procs[k].pc.Absent?
    {
      assert Family(s, st0, k) && Family(s, st0, j);
    }
  }

  /** If a collector that children depend on is not waited for, some schedule lets a child take values too early. */
  lemma TakesTooEarly(s: Schema, j: nat) returns (run: Run, st: State)
    requires Tree(s) && j < |s| && Depends(s, j) && Delta(s, s[j].parent) != 1
    ensures Reaches(s, run, st) && Takes(s, st, j)
    ensures st.procs[s[j].parent].released == 0 && !st.procs[s[j].parent].complete
  {
    var run0, st0 := Opening(s, s[j].parent);
    assert Kid(s, s[j].parent, j);
    var st1 := Apply(s, st0, j, true);
    var st2 := Apply(s, st1, j, true);
    st := Apply(s, st2, j, true);
    run := Then(Then(Then(run0, j, true), j, true), j, true);
    assert Reaches(s, Then(run0, j, true), st1);
    assert Reaches(s, Then(Then(run0, j, true), j, true), st2);
  }

  /** Parent values are safe under every schedule exactly when every such parent is waited for. */
  lemma SafeExactlyWhenWellPlaced(s: Schema)
    requires Tree(s)
    ensures WellPlaced(s) <==>
            forall run, st, j: nat :: Reaches(s, run, st) && Takes(s, st, j) ==>
              st.procs[s[j].parent].released == 1 && st.procs[s[j].parent].complete
  {
    if WellPlaced(s) {
      forall run, st, j: nat | Reaches(s, run, st) && Takes(s, st, j)
        ensures st.procs[s[j].parent].released == 1 && st.procs[s[j].parent].complete
      {
        TakesAfterFetched(s, run, st, j);
      }
    } else {
      var j: nat :| j < |s| && Depends(s, j) && Delta(s, s[j].parent) != 1;
      var run, st := TakesTooEarly(s, j);
      assert Reaches(s, run, st) && Takes(s, st, j);
    }
  }

  /**
   The condition in the terms of a view configuration: a parent that children depend on, unless it is the root, hangs in
   a view that is not read in parallel.
   */
  lemma WellPlacedIs(s: Schema)
    requires Tree(s)
    ensures WellPlaced(s) <==>
            forall j: nat :: j < |s| && Depends(s, j) && s[j].parent != 0 ==> !s[s[s[j].parent].parent].parallel
  {}
}
