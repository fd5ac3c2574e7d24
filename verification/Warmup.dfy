/**
 Warming up of the caches (warmup/cache.go): a goroutine for each view generates its cases and announces how many
 entries they will send, one goroutine for each case sends an index entry and perhaps a meta entry, and the caller
 collects as many as were announced before it closes the channel and has the entries read. A state machine over all
 interleavings.
 */
module Warmup {
  import opened Lists

  /** A case of a view; one with a meta index sends two entries. */
  datatype Case = Case(view: nat, indexMeta: bool)

  /** An entry or an error that a case sends. */
  datatype Msg = Msg(sender: nat, meta: bool)

  /**
   A view that cannot generate its cases has none. Messages in `broken` carry an error, entries in `unread` fail to be
   read.
   */
  datatype Setup = Setup(views: nat, cases: seq<Case>, broken: set<Msg>, unread: set<Msg>, rows: map<Msg, nat>)

  datatype Gen = Working | Announcing | Notified

  datatype Work = NotStarted | First | Second | Over

  datatype Phase = Counting | Collecting | Closed | Reading | Returned(failed: bool)

  datatype State = State(main: Phase, gens: seq<Gen>, work: seq<Work>, counter: nat, size: nat, collected: seq<Msg>,
                         entries: seq<Msg>, waiting: set<nat>, indexed: nat)

  ghost predicate ValidSetup(s: Setup) {
    forall c {:trigger s.cases[c]} :: 0 <= c < |s.cases| ==> s.cases[c].view < s.views
  }

  function Init(s: Setup): State {
    State(Counting, seq(s.views, _ => Working), seq(|s.cases|, _ => NotStarted), 0, 0, [], [], {}, 0)
  }

  function Sum(xs: seq<nat>): nat {
    if xs == [] then 0 else Sum(xs[..|xs| - 1]) + xs[|xs| - 1]
  }

  function Sends(c: Case): nat {
    if c.indexMeta then 2 else 1
  }

  function SendsOf(s: Setup): seq<nat> {
    seq(|s.cases|, c requires 0 <= c < |s.cases| => Sends(s.cases[c]))
  }

  /** What the cases of one view send. */
  function SendsIn(s: Setup, v: nat): seq<nat> {
    seq(|s.cases|, c requires 0 <= c < |s.cases| => if s.cases[c].view == v then Sends(s.cases[c]) else 0)
  }

  function Left(c: Case, w: Work): nat {
    match w
    case NotStarted => Sends(c)
    case First => Sends(c)
    case Second => 1
    case Over => 0
  }

  function LeftOf(s: Setup, work: seq<Work>): seq<nat>
    requires |work| == |s.cases|
  {
    seq(|work|, c requires 0 <= c < |work| => Left(s.cases[c], work[c]))
  }

  /** What the views that were heard have announced. */
  function AnnouncedBy(s: Setup, gens: seq<Gen>): seq<nat>
    requires ValidSetup(s) && |gens| == s.views
  {
    seq(|s.cases|, c requires 0 <= c < |s.cases| => if gens[s.cases[c].view].Notified? then Sends(s.cases[c]) else 0)
  }

  function Heard(gens: seq<Gen>): seq<nat> {
    seq(|gens|, v requires 0 <= v < |gens| => if gens[v].Notified? then 1 else 0)
  }

  // ----- steps -----

  datatype Step =
    | Spawn(c: nat)       // starts the goroutine of a case
    | Announce(v: nat)    // has started all cases; offers their size
    | Notify(v: nat)      // the caller takes the size
    | Decide              // the caller has heard every view
    | Collect(c: nat)     // the caller takes an entry of a case
    | Close               // the caller closes the channel and looks at the errors
    | Read(k: nat)        // the caller hears that an entry was read
    | Finish

  ghost predicate Shape(s: Setup, st: State) {
    ValidSetup(s) && |st.gens| == s.views && |st.work| == |s.cases|
  }

  predicate Enabled(s: Setup, st: State, step: Step)
    requires Shape(s, st)
  {
    match step
    case Spawn(c) => c < |s.cases| && st.work[c].NotStarted? && st.gens[s.cases[c].view].Working?
    case Announce(v) =>
      && v < s.views && st.gens[v].Working?
      && forall c :: 0 <= c < |s.cases| && s.cases[c].view == v ==> !st.work[c].NotStarted?
    case Notify(v) => st.main.Counting? && st.counter < s.views && v < s.views && st.gens[v].Announcing?
    case Decide => st.main.Counting? && st.counter >= s.views
    case Collect(c) => st.main.Collecting? && c < |s.cases| && (st.work[c].First? || st.work[c].Second?)
    case Close => st.main.Closed?
    case Read(k) => st.main.Reading? && k in st.waiting && k < |st.entries|
    case Finish => st.main.Reading? && st.waiting == {}
  }

  function MsgOf(st: State, c: nat): Msg
    requires c < |st.work|
  {
    Msg(c, st.work[c].Second?)
  }

  function Advanced(c: Case, w: Work): Work {
    if w.First? && c.indexMeta then Second else Over
  }

  function Sound(xs: seq<Msg>, broken: set<Msg>): seq<Msg> {
    if xs == [] then []
    else Sound(xs[..|xs| - 1], broken) + if xs[|xs| - 1] in broken then [] else [xs[|xs| - 1]]
  }

  function RowsOf(s: Setup, m: Msg): nat {
    if m in s.rows then s.rows[m] else 0
  }

  function Apply(s: Setup, st: State, step: Step): State
    requires Shape(s, st) && Enabled(s, st, step)
  {
    match step
    case Spawn(c) => st.(work := st.work[c := First])
    case Announce(v) => st.(gens := st.gens[v := Announcing])
    case Notify(v) => st.(gens := st.gens[v := Notified], counter := st.counter + 1,
                          size := st.size + Sum(SendsIn(s, v)))
    case Decide => st.(main := if st.size == 0 then Returned(false) else Collecting)
    case Collect(c) =>
      var collected := st.collected + [MsgOf(st, c)];
      st.(work := st.work[c := Advanced(s.cases[c], st.work[c])], collected := collected,
          main := if st.size <= |collected| then Closed else Collecting)
    case Close =>
      var entries := Sound(st.collected, s.broken);
      if |entries| < |st.collected| then st.(main := Returned(true))
      else st.(main := Reading, entries := entries, waiting := UpTo(|entries|))
    case Read(k) => st.(waiting := st.waiting - {k}, indexed := st.indexed + RowsOf(s, st.entries[k]))
    case Finish => st.(main := Returned(exists k :: 0 <= k < |st.entries| && st.entries[k] in s.unread))
  }

  datatype Run = Start | Then(before: Run, step: Step)

  ghost predicate Reaches(s: Setup, run: Run, st: State) {
    match run
    case Start => st == Init(s)
    case Then(before, step) =>
      exists prior :: Reaches(s, before, prior) && Shape(s, prior) && Enabled(s, prior, step)
        && st == Apply(s, prior, step)
  }

  // ----- sums -----

  lemma {:induction false} SumUpdate(xs: seq<nat>, i: nat, x: nat)
    requires i < |xs|
    ensures Sum(xs[i := x]) + xs[i] == Sum(xs) + x
    decreases |xs|
  {
    var n := |xs| - 1;
    if i < n {
      SumUpdate(xs[..n], i, x);
      assert xs[i := x][..n] == xs[..n][i := x];
    } else {
      assert xs[i := x][..n] == xs[..n];
    }
  }

  lemma {:induction false} SumAdds(xs: seq<nat>, ys: seq<nat>, zs: seq<nat>)
    requires |xs| == |ys| == |zs| && forall i :: 0 <= i < |xs| ==> zs[i] == xs[i] + ys[i]
    ensures Sum(zs) == Sum(xs) + Sum(ys)
    decreases |xs|
  {
    if xs != [] {
      var n := |xs| - 1;
      SumAdds(xs[..n], ys[..n], zs[..n]);
    }
  }

  lemma {:induction false} SumBounds(xs: seq<nat>, i: nat)
    requires i < |xs|
    ensures xs[i] <= Sum(xs)
    decreases |xs|
  {
    if i < |xs| - 1 {
      SumBounds(xs[..|xs| - 1], i);
    }
  }

  lemma {:induction false} SumZero(xs: seq<nat>)
    requires forall i :: 0 <= i < |xs| ==> xs[i] == 0
    ensures Sum(xs) == 0
    decreases |xs|
  {
    if xs != [] {
      SumZero(xs[..|xs| - 1]);
    }
  }

  lemma {:induction false} SumOnes(xs: seq<nat>)
    requires forall i :: 0 <= i < |xs| ==> xs[i] <= 1
    ensures Sum(xs) <= |xs|
    ensures Sum(xs) == |xs| ==> forall i :: 0 <= i < |xs| ==> xs[i] == 1
    decreases |xs|
  {
    if xs != [] {
      SumOnes(xs[..|xs| - 1]);
    }
  }

  // ----- the invariant -----

  ghost predicate NoRepeat(xs: seq<Msg>) {
    forall i, j {:trigger xs[i], xs[j]} :: 0 <= i < j < |xs| ==> xs[i] != xs[j]
  }

  /** A case is started while its view works, and what it has sent was collected. */
  ghost predicate CaseOk(s: Setup, st: State, c: nat)
    requires Shape(s, st) && c < |s.cases|
  {
    var w := st.work[c];
    && (w.NotStarted? ==> st.gens[s.cases[c].view].Working?)
    && (st.main.Counting? ==> w.NotStarted? || w.First?)
    && (w.Second? ==> s.cases[c].indexMeta)
    && (Msg(c, false) in st.collected <==> w.Second? || w.Over?)
    && (Msg(c, true) in st.collected <==> w.Over? && s.cases[c].indexMeta)
  }

  /** The entries that have been read. */
  function RowsRead(s: Setup, entries: seq<Msg>, waiting: set<nat>, n: nat): nat
    requires n <= |entries|
  {
    if n == 0 then 0
    else RowsRead(s, entries, waiting, n - 1) + if n - 1 in waiting then 0 else RowsOf(s, entries[n - 1])
  }

  ghost predicate Counted(s: Setup, st: State)
    requires Shape(s, st)
  {
    && st.counter == Sum(Heard(st.gens))
    && st.size == Sum(AnnouncedBy(s, st.gens))
    && |st.collected| + Sum(LeftOf(s, st.work)) == Sum(SendsOf(s))
  }

  ghost predicate Phased(s: Setup, st: State) {
    && (st.main.Counting? ==> st.collected == [])
    && (!st.main.Counting? ==> st.counter >= s.views)
    && (st.main.Collecting? ==> |st.collected| < st.size)
    && (!st.main.Counting? && !st.main.Collecting? ==> |st.collected| >= st.size)
    && (st.main.Reading? ==> st.entries == st.collected == Sound(st.collected, s.broken))
    && (!st.main.Reading? ==> st.waiting == {})
    && (!st.main.Reading? && !st.main.Returned? ==> st.entries == [] && st.indexed == 0)
    && (forall k :: k in st.waiting ==> k < |st.entries|)
    && st.indexed == RowsRead(s, st.entries, st.waiting, |st.entries|)
    && (st.main.Returned? ==> (st.entries == st.collected == Sound(st.collected, s.broken)
                               && (st.main.failed <==> exists k :: 0 <= k < |st.entries| && st.entries[k] in s.unread))
                              || (st.main.failed && st.entries == []
                                  && |Sound(st.collected, s.broken)| < |st.collected|))
  }

  ghost predicate Inv(s: Setup, st: State) {
    && Shape(s, st)
    && (forall c {:trigger CaseOk(s, st, c)} :: 0 <= c < |s.cases| ==> CaseOk(s, st, c))
    && (forall m :: m in st.collected ==> m.sender < |s.cases| && (m.meta ==> s.cases[m.sender].indexMeta))
    && NoRepeat(st.collected)
    && Counted(s, st)
    && Phased(s, st)
  }

  lemma InitInv(s: Setup)
    requires ValidSetup(s)
    ensures Inv(s, Init(s))
  {
    var st := Init(s);
    SumZero(Heard(st.gens));
    SumZero(AnnouncedBy(s, st.gens));
    assert LeftOf(s, st.work) == SendsOf(s);
    assert forall c :: 0 <= c < |s.cases| ==> CaseOk(s, st, c);
  }

  lemma CasesKept(s: Setup, st: State, st': State)
    requires Inv(s, st) && Shape(s, st') && st'.work == st.work && st'.collected == st.collected
    requires forall v :: 0 <= v < s.views && st'.gens[v] != st.gens[v] ==>
               forall c :: 0 <= c < |s.cases| && s.cases[c].view == v ==> !st.work[c].NotStarted?
    requires st'.main.Counting? ==> st.main.Counting?
    ensures forall c {:trigger CaseOk(s, st', c)} :: 0 <= c < |s.cases| ==> CaseOk(s, st', c)
  {
    forall c | 0 <= c < |s.cases| ensures CaseOk(s, st', c) {
      assert CaseOk(s, st, c);
    }
  }

  lemma SpawnInv(s: Setup, st: State, c: nat)
    requires Inv(s, st) && Enabled(s, st, Spawn(c))
    ensures Inv(s, Apply(s, st, Spawn(c)))
  {
    var st' := Apply(s, st, Spawn(c));
    assert LeftOf(s, st'.work) == LeftOf(s, st.work);
    forall k | 0 <= k < |s.cases| ensures CaseOk(s, st', k) {
      assert CaseOk(s, st, k);
    }
  }

  lemma AnnounceInv(s: Setup, st: State, v: nat)
    requires Inv(s, st) && Enabled(s, st, Announce(v))
    ensures Inv(s, Apply(s, st, Announce(v)))
  {
    var st' := Apply(s, st, Announce(v));
    assert Heard(st'.gens) == Heard(st.gens);
    assert AnnouncedBy(s, st'.gens) == AnnouncedBy(s, st.gens);
    CasesKept(s, st, st');
  }

  lemma NotifyInv(s: Setup, st: State, v: nat)
    requires Inv(s, st) && Enabled(s, st, Notify(v))
    ensures Inv(s, Apply(s, st, Notify(v)))
  {
    var st' := Apply(s, st, Notify(v));
    assert Heard(st'.gens) == Heard(st.gens)[v := 1];
    SumUpdate(Heard(st.gens), v, 1);
    SumAdds(AnnouncedBy(s, st.gens), SendsIn(s, v), AnnouncedBy(s, st'.gens));
    forall c | 0 <= c < |s.cases| && s.cases[c].view == v ensures !st.work[c].NotStarted? {
      assert CaseOk(s, st, c);
    }
    CasesKept(s, st, st');
  }

  lemma CollectInv(s: Setup, st: State, c: nat)
    requires Inv(s, st) && Enabled(s, st, Collect(c))
    ensures Inv(s, Apply(s, st, Collect(c)))
  {
    var st' := Apply(s, st, Collect(c));
    var left := Left(s.cases[c], st'.work[c]);
    assert LeftOf(s, st'.work) == LeftOf(s, st.work)[c := left];
    SumUpdate(LeftOf(s, st.work), c, left);
    assert CaseOk(s, st, c);
    assert MsgOf(st, c) !in st.collected;
    forall k | 0 <= k < |s.cases| ensures CaseOk(s, st', k) {
      assert CaseOk(s, st, k);
    }
  }

  lemma {:induction false} RowsReadNone(s: Setup, entries: seq<Msg>, waiting: set<nat>, n: nat)
    requires n <= |entries| && forall k: nat :: k < n ==> k in waiting
    ensures RowsRead(s, entries, waiting, n) == 0
    decreases n
  {
    if n > 0 {
      RowsReadNone(s, entries, waiting, n - 1);
    }
  }

  lemma {:induction false} RowsReadMore(s: Setup, entries: seq<Msg>, waiting: set<nat>, k: nat, n: nat)
    requires n <= |entries| && k < |entries| && k in waiting
    ensures RowsRead(s, entries, waiting - {k}, n) ==
            RowsRead(s, entries, waiting, n) + if k < n then RowsOf(s, entries[k]) else 0
    decreases n
  {
    if n > 0 {
      RowsReadMore(s, entries, waiting, k, n - 1);
    }
  }

  lemma {:induction false} SoundAll(xs: seq<Msg>, broken: set<Msg>)
    ensures |Sound(xs, broken)| <= |xs|
    ensures |Sound(xs, broken)| == |xs| ==> Sound(xs, broken) == xs
    ensures |Sound(xs, broken)| == |xs| <==> forall m :: m in xs ==> m !in broken
    decreases |xs|
  {
    if xs != [] {
      SoundAll(xs[..|xs| - 1], broken);
      assert xs == xs[..|xs| - 1] + [xs[|xs| - 1]];
    }
  }

  lemma CloseInv(s: Setup, st: State)
    requires Inv(s, st) && Enabled(s, st, Close)
    ensures Inv(s, Apply(s, st, Close))
  {
    CasesKept(s, st, Apply(s, st, Close));
    ClosePhased(s, st, Sound(st.collected, s.broken));
  }

  lemma ClosePhased(s: Setup, st: State, entries: seq<Msg>)
    requires Shape(s, st) && st.main.Closed? && Phased(s, st) && entries == Sound(st.collected, s.broken)
    ensures |entries| < |st.collected| ==> Phased(s, st.(main := Returned(true)))
    ensures |entries| >= |st.collected| ==>
            Phased(s, st.(main := Reading, entries := entries, waiting := UpTo(|entries|)))
  {
    SoundAll(st.collected, s.broken);
    RowsReadNone(s, entries, UpTo(|entries|), |entries|);
  }

  lemma ReadInv(s: Setup, st: State, k: nat)
    requires Inv(s, st) && Enabled(s, st, Read(k))
    ensures Inv(s, Apply(s, st, Read(k)))
  {
    CasesKept(s, st, Apply(s, st, Read(k)));
    RowsReadMore(s, st.entries, st.waiting, k, |st.entries|);
  }

  lemma DecideInv(s: Setup, st: State)
    requires Inv(s, st) && Enabled(s, st, Decide)
    ensures Inv(s, Apply(s, st, Decide))
  {
    CasesKept(s, st, Apply(s, st, Decide));
  }

  lemma FinishInv(s: Setup, st: State)
    requires Inv(s, st) && Enabled(s, st, Finish)
    ensures Inv(s, Apply(s, st, Finish))
  {
    CasesKept(s, st, Apply(s, st, Finish));
  }

  lemma StepInv(s: Setup, st: State, step: Step)
    requires Inv(s, st) && Enabled(s, st, step)
    ensures Inv(s, Apply(s, st, step))
  {
    match step
    case Spawn(c) => SpawnInv(s, st, c);
    case Announce(v) => AnnounceInv(s, st, v);
    case Notify(v) => NotifyInv(s, st, v);
    case Collect(c) => CollectInv(s, st, c);
    case Decide => DecideInv(s, st);
    case Close => CloseInv(s, st);
    case Read(k) => ReadInv(s, st, k);
    case Finish => FinishInv(s, st);
  }

  lemma {:induction false} Reachable(s: Setup, run: Run, st: State)
    requires ValidSetup(s) && Reaches(s, run, st)
    ensures Inv(s, st)
    decreases run
  {
    match run
    case Start => InitInv(s);
    case Then(before, step) =>
      var prior :| Reaches(s, before, prior) && Shape(s, prior) && Enabled(s, prior, step)
        && st == Apply(s, prior, step);
      Reachable(s, before, prior);
      StepInv(s, prior, step);
  }

  // ----- what the caller relies on -----

  /** When all views were heard, what they announced is what the cases send. */
  lemma AllHeard(s: Setup, st: State)
    requires Inv(s, st) && st.counter >= s.views
    ensures forall v :: 0 <= v < s.views ==> st.gens[v].Notified?
    ensures st.size == Sum(SendsOf(s))
    ensures forall c :: 0 <= c < |s.cases| ==> !st.work[c].NotStarted?
  {
    var heard := Heard(st.gens);
    SumOnes(heard);
    forall v | 0 <= v < s.views ensures st.gens[v].Notified? {
      assert heard[v] == 1;
    }
    assert AnnouncedBy(s, st.gens) == SendsOf(s);
    forall c | 0 <= c < |s.cases| ensures !st.work[c].NotStarted? {
      assert CaseOk(s, st, c);
    }
  }

  /** The caller is heard out: it collects exactly as much as was announced, which is what the cases send. */
  lemma SizeIsSends(s: Setup, run: Run, st: State)
    requires ValidSetup(s) && Reaches(s, run, st) && !st.main.Counting?
    ensures st.size == Sum(SendsOf(s))
    ensures |st.collected| + Sum(LeftOf(s, st.work)) == st.size
  {
    Reachable(s, run, st);
    AllHeard(s, st);
  }

  /** Once the channel is closed nobody is left to send on it, and each entry or error was collected exactly once. */
  lemma NothingSentAfterClose(s: Setup, run: Run, st: State, c: nat)
    requires ValidSetup(s) && Reaches(s, run, st) && c < |s.cases|
    requires !st.main.Counting? && !st.main.Collecting?
    ensures st.work[c].Over?
    ensures Msg(c, false) in st.collected
    ensures Msg(c, true) in st.collected <==> s.cases[c].indexMeta
    ensures NoRepeat(st.collected) && forall m :: m in st.collected ==> m.sender < |s.cases|
  {
    Reachable(s, run, st);
    AllHeard(s, st);
    SumBounds(LeftOf(s, st.work), c);
    assert CaseOk(s, st, c);
  }

  /**
   The result: an error if some message was one, otherwise all rows of all entries, with an error if one was not read.
   */
  lemma ReturnsEverything(s: Setup, run: Run, st: State)
    requires ValidSetup(s) && Reaches(s, run, st) && st.main.Returned?
    ensures (exists m :: m in st.collected && m in s.broken) ==> st.main.failed && st.indexed == 0
    ensures (forall m :: m in st.collected ==> m !in s.broken) ==>
              && st.indexed == RowsRead(s, st.collected, {}, |st.collected|)
              && (st.main.failed <==> exists m :: m in st.collected && m in s.unread)
  {
    Reachable(s, run, st);
    SoundAll(st.collected, s.broken);
  }

  // ----- no deadlock -----

  lemma {:induction false} SomeLeft(xs: seq<nat>) returns (i: nat)
    requires Sum(xs) > 0
    ensures i < |xs| && xs[i] > 0
    decreases |xs|
  {
    if xs[|xs| - 1] > 0 {
      return |xs| - 1;
    }
    i := SomeLeft(xs[..|xs| - 1]);
  }

  lemma {:induction false} SomeZero(xs: seq<nat>) returns (i: nat)
    requires Sum(xs) < |xs|
    ensures i < |xs| && xs[i] == 0
    decreases |xs|
  {
    if xs[|xs| - 1] == 0 {
      return |xs| - 1;
    }
    i := SomeZero(xs[..|xs| - 1]);
  }

  /** A view that was not heard can go on, or one of its cases is still to be started. */
  lemma ViewMoves(s: Setup, st: State, v: nat) returns (step: Step)
    requires Inv(s, st) && st.main.Counting? && st.counter < s.views && v < s.views && !st.gens[v].Notified?
    ensures Enabled(s, st, step)
  {
    if st.gens[v].Announcing? {
      return Notify(v);
    }
    if c :| 0 <= c < |s.cases| && s.cases[c].view == v && st.work[c].NotStarted? {
      return Spawn(c);
    }
    return Announce(v);
  }

  /** As long as the caller has not returned some goroutine can go on. */
  lemma Progresses(s: Setup, run: Run, st: State) returns (step: Step)
    requires ValidSetup(s) && Reaches(s, run, st) && !st.main.Returned?
    ensures Enabled(s, st, step)
  {
    Reachable(s, run, st);
    match st.main {
      case Counting =>
        if st.counter >= s.views {
          return Decide;
        }
        var v := SomeZero(Heard(st.gens));
        step := ViewMoves(s, st, v);
      case Collecting =>
        AllHeard(s, st);
        var c := SomeLeft(LeftOf(s, st.work));
        return Collect(c);
      case Closed => return Close;
      case _ =>
        if k :| k in st.waiting {
          return Read(k);
        }
        return Finish;
    }
  }

  /** When the caller has returned no goroutine is left behind. */
  lemma NobodyBlocked(s: Setup, run: Run, st: State, step: Step)
    requires ValidSetup(s) && Reaches(s, run, st) && st.main.Returned?
    ensures !Enabled(s, st, step)
    ensures forall v :: 0 <= v < s.views ==> st.gens[v].Notified?
    ensures forall c :: 0 <= c < |s.cases| ==> st.work[c].Over?
  {
    Reachable(s, run, st);
    AllHeard(s, st);
    forall c | 0 <= c < |s.cases| ensures st.work[c].Over? {
      NothingSentAfterClose(s, run, st, c);
    }
  }

  // ----- termination -----

  function GenLeft(g: Gen): nat {
    match g case Working => 2 case Announcing => 1 case Notified => 0
  }

  function GensLeft(gens: seq<Gen>): seq<nat> {
    seq(|gens|, v requires 0 <= v < |gens| => GenLeft(gens[v]))
  }

  function Starts(work: seq<Work>): seq<nat> {
    seq(|work|, c requires 0 <= c < |work| => if work[c].NotStarted? then 1 else 0)
  }

  /** What the caller itself still has to do. */
  function CallerLeft(st: State, sends: nat): nat {
    match st.main
    case Counting => 3 + sends
    case Collecting => 2 + sends
    case Closed => 2 + sends
    case Reading => 1 + |st.waiting|
    case Returned(_) => 0
  }

  /** The steps that are left at most: those of the goroutines, those of the readers, and four of the caller. */
  function StepsLeft(s: Setup, st: State): nat
    requires Shape(s, st)
  {
    Sum(GensLeft(st.gens)) + Sum(Starts(st.work)) + Sum(LeftOf(s, st.work)) + CallerLeft(st, Sum(SendsOf(s)))
  }

  lemma CollectFalls(s: Setup, st: State, c: nat)
    requires Inv(s, st) && Enabled(s, st, Collect(c))
    ensures StepsLeft(s, Apply(s, st, Collect(c))) < StepsLeft(s, st)
  {
    var st' := Apply(s, st, Collect(c));
    assert CaseOk(s, st, c);
    var left := Left(s.cases[c], st'.work[c]);
    assert LeftOf(s, st'.work) == LeftOf(s, st.work)[c := left];
    SumUpdate(LeftOf(s, st.work), c, left);
    assert Starts(st'.work) == Starts(st.work);
  }

  lemma GoroutineStepFalls(s: Setup, st: State, step: Step)
    requires Inv(s, st) && Enabled(s, st, step) && (step.Spawn? || step.Announce? || step.Notify? || step.Collect?)
    ensures StepsLeft(s, Apply(s, st, step)) < StepsLeft(s, st)
  {
    var st' := Apply(s, st, step);
    match step
    case Spawn(c) =>
      assert Starts(st'.work) == Starts(st.work)[c := 0];
      SumUpdate(Starts(st.work), c, 0);
      assert LeftOf(s, st'.work) == LeftOf(s, st.work);
    case Announce(v) =>
      assert GensLeft(st'.gens) == GensLeft(st.gens)[v := 1];
      SumUpdate(GensLeft(st.gens), v, 1);
    case Notify(v) =>
      assert GensLeft(st'.gens) == GensLeft(st.gens)[v := 0];
      SumUpdate(GensLeft(st.gens), v, 0);
    case Collect(c) => CollectFalls(s, st, c);
  }

  lemma CloseFalls(s: Setup, st: State, entries: seq<Msg>, sends: nat)
    requires st.main.Closed? && |st.collected| <= sends && entries == Sound(st.collected, s.broken)
    ensures CallerLeft(st.(main := Reading, entries := entries, waiting := UpTo(|entries|)), sends) < CallerLeft(st,
                                                                                                                 sends)
  {
    SoundAll(st.collected, s.broken);
  }

  predicate OfCaller(step: Step) {
    step.Decide? || step.Close? || step.Read? || step.Finish?
  }

  lemma CallerStepKeeps(s: Setup, st: State, step: Step)
    requires Shape(s, st) && Enabled(s, st, step) && OfCaller(step)
    ensures Apply(s, st, step).gens == st.gens && Apply(s, st, step).work == st.work
  {}

  lemma CallerStepFalls(s: Setup, st: State, step: Step, sends: nat)
    requires Shape(s, st) && Enabled(s, st, step) && OfCaller(step) && |st.collected| <= sends
    ensures CallerLeft(Apply(s, st, step), sends) < CallerLeft(st, sends)
  {
    if step.Close? {
      CloseFalls(s, st, Sound(st.collected, s.broken), sends);
    }
  }

  lemma StepFalls(s: Setup, st: State, step: Step)
    requires Inv(s, st) && Enabled(s, st, step)
    ensures StepsLeft(s, Apply(s, st, step)) < StepsLeft(s, st)
  {
    if OfCaller(step) {
      CallerStepKeeps(s, st, step);
      CallerStepFalls(s, st, step, Sum(SendsOf(s)));
    } else {
      GoroutineStepFalls(s, st, step);
    }
  }

  function Steps(run: Run): nat {
    match run
    case Start => 0
    case Then(before, _) => Steps(before) + 1
  }

  lemma {:induction false} SumSame(xs: seq<nat>, n: nat)
    requires forall i :: 0 <= i < |xs| ==> xs[i] == n
    ensures Sum(xs) == n * |xs|
    decreases |xs|
  {
    if xs != [] {
      SumSame(xs[..|xs| - 1], n);
      assert n * |xs| == n * (|xs| - 1) + n;
    }
  }

  lemma InitSteps(s: Setup)
    requires ValidSetup(s)
    ensures StepsLeft(s, Init(s)) == 2 * s.views + |s.cases| + 2 * Sum(SendsOf(s)) + 3
  {
    var st := Init(s);
    SumSame(GensLeft(st.gens), 2);
    SumSame(Starts(st.work), 1);
    assert LeftOf(s, st.work) == SendsOf(s);
  }

  /** Every run ends. */
  lemma {:induction false} RunsEnd(s: Setup, run: Run, st: State)
    requires ValidSetup(s) && Reaches(s, run, st)
    ensures Shape(s, st) && Steps(run) + StepsLeft(s, st) <= 2 * s.views + |s.cases| + 2 * Sum(SendsOf(s)) + 3
    decreases run
  {
    Reachable(s, run, st);
    match run
    case Start => InitSteps(s);
    case Then(before, step) =>
      var prior :| Reaches(s, before, prior) && Shape(s, prior) && Enabled(s, prior, step)
        && st == Apply(s, prior, step);
      Reachable(s, before, prior);
      RunsEnd(s, before, prior);
      StepFalls(s, prior, step);
  }
}
