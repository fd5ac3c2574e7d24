/**
 Allocation of sequence values (executor/sequencer/walker.go and service.go): empty ids are counted, as many values are
 reserved, and a second traversal writes them.
 */
module Sequencer {
  import opened Keys
  import opened SequenceValues

  /** The id of a record; one that is held by pointer can be nil, which counts as empty. */
  class Cell {
    var value: Option<int>

    constructor (value: Option<int>)
      ensures this.value == value
    {
      this.value := value;
    }

    ghost function Number(): int
      reads this
    {
      if value.None? then 0 else value.value
    }
  }

  /** A record, from the root down to its ids; an id can have a type that is no integer. */
  datatype Data = Record(field: Data) | Rows(items: seq<Data>) | Id(cell: Cell) | Unsupported

  /** The way to the ids, as the selector spells it. */
  datatype Node = ObjectNode(child: Node) | ArrayNode(child: Node) | LeafNode

  predicate Fits(node: Node, data: Data) {
    match node
    case ObjectNode(child) => data.Record? && Fits(child, data.field)
    case ArrayNode(child) => data.Rows? && forall i :: 0 <= i < |data.items| ==> Fits(child, data.items[i])
    case LeafNode => data.Id? || data.Unsupported?
  }

  class Sequence {
    var value: int
    const incrementBy: int

    constructor (value: int, incrementBy: int)
      ensures this.value == value && this.incrementBy == incrementBy
    {
      this.value, this.incrementBy := value, incrementBy;
    }
  }

  const WIDTH := 0x1_0000_0000_0000_0000
  const HALF := 0x8000_0000_0000_0000

  predicate InRange(x: int) {
    -HALF <= x < HALF
  }

  /** 64-bit arithmetic wraps around. */
  function Wrap(x: int): (r: int)
    ensures InRange(r)
    decreases if x < 0 then -x else x + 1
  {
    if x >= HALF then Wrap(x - WIDTH) else if x < -HALF then Wrap(x + WIDTH) else x
  }

  // ----- the ids in the order of the traversal -----

  /** The ids up to the first that is not an integer. */
  function Ids(data: Data): seq<Cell>
    decreases data, 0
  {
    match data
    case Record(field) => Ids(field)
    case Rows(items) => IdsOfRows(items, |items|)
    case Id(cell) => [cell]
    case Unsupported => []
  }

  function IdsOfRows(items: seq<Data>, n: nat): seq<Cell>
    requires n <= |items|
    decreases items, n
  {
    if n == 0 then []
    else IdsOfRows(items, n - 1) + if SupportedRows(items, n - 1) then Ids(items[n - 1]) else []
  }

  predicate Supported(data: Data)
    decreases data, 0
  {
    match data
    case Record(field) => Supported(field)
    case Rows(items) => SupportedRows(items, |items|)
    case Id(_) => true
    case Unsupported => false
  }

  predicate SupportedRows(items: seq<Data>, n: nat)
    requires n <= |items|
    decreases items, n
  {
    n == 0 || (SupportedRows(items, n - 1) && Supported(items[n - 1]))
  }

  ghost function Numbers(cells: seq<Cell>): (r: seq<int>)
    reads cells
    ensures |r| == |cells| && forall i :: 0 <= i < |cells| ==> r[i] == cells[i].Number()
  {
    NumbersTo(cells, |cells|)
  }

  ghost function NumbersTo(cells: seq<Cell>, n: nat): (r: seq<int>)
    requires n <= |cells|
    reads cells
    ensures |r| == n && forall i :: 0 <= i < n ==> r[i] == cells[i].Number()
  {
    if n == 0 then [] else NumbersTo(cells, n - 1) + [cells[n - 1].Number()]
  }

  /** No id belongs to two records. */
  ghost predicate Distinct(cells: seq<Cell>) {
    forall i, j {:trigger Differ(cells, i, j)} :: 0 <= i < |cells| && 0 <= j < |cells| && i != j ==> Differ(cells, i, j)
  }

  ghost predicate Differ(cells: seq<Cell>, i: nat, j: nat)
    requires i < |cells| && j < |cells|
  {
    cells[i] != cells[j]
  }

  /** The empty ones from `from` on and before `end`. */
  function Zeros(numbers: seq<int>, from: nat, end: nat): nat
    requires end <= |numbers|
    decreases end
  {
    if end <= from then 0 else Zeros(numbers, from, end - 1) + if numbers[end - 1] == 0 then 1 else 0
  }

  lemma {:induction false} ZerosSplit(numbers: seq<int>, from: nat, mid: nat, end: nat)
    requires from <= mid <= end <= |numbers|
    ensures Zeros(numbers, from, end) == Zeros(numbers, from, mid) + Zeros(numbers, mid, end)
    decreases end
  {
    if mid < end {
      ZerosSplit(numbers, from, mid, end - 1);
    }
  }

  /** All numbers of a record, and the next value of the sequence. */
  datatype State = State(numbers: seq<int>, value: int)

  /** One id gets the next value if it is empty. */
  function Step(s: State, i: nat, incrementBy: int): (r: State)
    requires i < |s.numbers|
    ensures |r.numbers| == |s.numbers|
  {
    if s.numbers[i] == 0 then State(s.numbers[i := s.value], Wrap(s.value + incrementBy)) else s
  }

  function Advance(s: State, from: nat, end: nat, incrementBy: int): (r: State)
    requires end <= |s.numbers|
    ensures |r.numbers| == |s.numbers|
    decreases end
  {
    if end <= from then s else Step(Advance(s, from, end - 1, incrementBy), end - 1, incrementBy)
  }

  lemma {:induction false} AdvanceMore(s: State, from: nat, mid: nat, end: nat, incrementBy: int)
    requires from <= mid <= end <= |s.numbers|
    ensures Advance(Advance(s, from, mid, incrementBy), mid, end, incrementBy) == Advance(s, from, end, incrementBy)
    decreases end
  {
    if mid < end {
      AdvanceMore(s, from, mid, end - 1, incrementBy);
    }
  }

  lemma AdvanceOne(s: State, from: nat, incrementBy: int)
    requires from <= |s.numbers|
    ensures Advance(s, from, from, incrementBy) == s
    ensures from < |s.numbers| ==> Advance(s, from, from + 1, incrementBy) == Step(s, from, incrementBy)
  {}

  lemma AdvanceOn(s: State, t: State, from: nat, mid: nat, end: nat, incrementBy: int)
    requires from <= mid <= end <= |s.numbers| && t == Advance(s, from, mid, incrementBy)
    ensures Advance(t, mid, end, incrementBy) == Advance(s, from, end, incrementBy)
  {
    AdvanceMore(s, from, mid, end, incrementBy);
  }

  // ----- the walker -----

  /** Reads an id; a nil pointer is made to point to a zero first. */
  method Int64Ptr(cell: Cell) returns (n: int)
    modifies cell
    ensures cell.value.Some? && n == cell.Number() == old(cell.Number())
  {
    if cell.value.None? {
      cell.value := Some(0);
    }
    return cell.value.value;
  }

  lemma {:induction false} PrefixIds(items: seq<Data>, n: nat, m: nat)
    requires n <= m <= |items|
    ensures IdsOfRows(items, n) <= IdsOfRows(items, m)
    decreases m
  {
    if n < m {
      PrefixIds(items, n, m - 1);
    }
  }

  lemma RowIds(items: seq<Data>, i: nat)
    requires i < |items| && SupportedRows(items, i)
    ensures IdsOfRows(items, i + 1) == IdsOfRows(items, i) + Ids(items[i])
    ensures IdsOfRows(items, i + 1) <= IdsOfRows(items, |items|)
    ensures forall c :: c in Ids(items[i]) ==> c in IdsOfRows(items, |items|)
  {
    PrefixIds(items, i + 1, |items|);
    forall c | c in Ids(items[i]) ensures c in IdsOfRows(items, |items|) {
      assert c in IdsOfRows(items, i + 1);
    }
  }

  /** An unsupported row makes all rows unsupported, and no id after it is reached. */
  lemma {:induction false} StopsAt(items: seq<Data>, i: nat, n: nat)
    requires i < n <= |items| && SupportedRows(items, i) && !Supported(items[i])
    ensures !SupportedRows(items, n) && IdsOfRows(items, n) == IdsOfRows(items, i + 1)
    decreases n
  {
    if i + 1 < n {
      StopsAt(items, i, n - 1);
    }
  }

  /** The ids of the data stand among all ids from a position on. */
  ghost predicate Holds(ids: seq<Cell>, all: seq<Cell>, from: nat) {
    from + |ids| <= |all| && forall k {:trigger ids[k]} :: 0 <= k < |ids| ==> all[from + k] == ids[k]
  }

  /** The ids of one row, within those of the whole record. */
  lemma RowSegment(items: seq<Data>, i: nat, all: seq<Cell>, from: nat, mid: nat, row: nat)
    requires i < |items| && Holds(IdsOfRows(items, |items|), all, from)
    requires RowsDone(items, i, from, mid) && row == |Ids(items[i])|
    ensures mid + row <= |all| && Holds(Ids(items[i]), all, mid)
    ensures Supported(items[i]) ==> RowsDone(items, i + 1, from, mid + row)
    ensures !Supported(items[i]) ==> !SupportedRows(items, |items|) && mid + row == from + |IdsOfRows(items, |items|)|
  {
    RowIds(items, i);
    if !Supported(items[i]) {
      StopsAt(items, i, |items|);
    }
    var ids, a, b := IdsOfRows(items, |items|), IdsOfRows(items, i), Ids(items[i]);
    forall k | 0 <= k < |b| ensures all[from + |a| + k] == b[k] {
      assert b[k] == (a + b)[|a| + k] == ids[|a| + k];
    }
  }

  /** The first `i` rows are supported, and their ids end at a position. */
  ghost predicate RowsDone(items: seq<Data>, i: nat, from: nat, mid: nat)
    requires i <= |items|
  {
    SupportedRows(items, i) && mid == from + |IdsOfRows(items, i)|
  }

  /**
   Counts the empty ids and leaves every number as it is. `all` are the ids of the whole record, those of `data` from
   `from` on.
   */
  method CountEmpty(node: Node, data: Data, ghost all: seq<Cell>, ghost from: nat) returns (count: Option<nat>)
    requires Fits(node, data) && Holds(Ids(data), all, from)
    modifies all
    ensures Numbers(all) == old(Numbers(all))
    ensures count == if Supported(data) then Some(Zeros(old(Numbers(all)), from, from + |Ids(data)|)) else None
    decreases node, 0
  {
    match node {
      case ObjectNode(child) =>
        count := CountEmpty(child, data.field, all, from);
      case ArrayNode(child) =>
        count := CountRows(child, data.items, all, from);
      case LeafNode =>
        if data.Unsupported? {
          return None;
        }
        assert all[from + 0] == Ids(data)[0];
        var n := Int64Ptr(data.cell);
        assert Numbers(all) == old(Numbers(all)) && Numbers(all)[from] == n;
        return Some(if n == 0 then 1 else 0);
    }
  }

  method CountRows(child: Node, items: seq<Data>, ghost all: seq<Cell>, ghost from: nat) returns (count: Option<nat>)
    requires (forall i :: 0 <= i < |items| ==> Fits(child, items[i])) && Holds(IdsOfRows(items, |items|), all, from)
    modifies all
    ensures Numbers(all) == old(Numbers(all))
    ensures count == if SupportedRows(items, |items|)
                     then Some(Zeros(old(Numbers(all)), from, from + |IdsOfRows(items, |items|)|)) else None
    decreases child, 1
  {
    ghost var numbers := Numbers(all);
    ghost var mid := from;
    var result := 0;
    for i := 0 to |items|
      invariant from <= mid <= |all| && RowsDone(items, i, from, mid)
      invariant Numbers(all) == numbers && result == Zeros(numbers, from, mid)
    {
      ghost var row := |Ids(items[i])|;
      RowSegment(items, i, all, from, mid, row);
      ZerosSplit(numbers, from, mid, mid + row);
      var c := CountEmpty(child, items[i], all, mid);
      if c.None? {
        return None;
      }
      result, mid := result + c.value, mid + row;
    }
    return Some(result);
  }

  ghost function Current(all: seq<Cell>, sequence: Sequence): (s: State)
    reads all, sequence
    ensures |s.numbers| == |all|
  {
    State(Numbers(all), sequence.value)
  }

  /** An id of a whole record whose ids are all different is written, and no other. */
  method AllocateId(cell: Cell, sequence: Sequence, ghost all: seq<Cell>, ghost from: nat)
    requires Distinct(all) && from < |all| && all[from] == cell
    modifies cell, sequence
    ensures Current(all, sequence) == Step(old(Current(all, sequence)), from, sequence.incrementBy)
  {
    ghost var numbers, value := Numbers(all), sequence.value;
    var n := Int64Ptr(cell);
    if n == 0 {
      cell.value := Some(sequence.value);
      sequence.value := Wrap(sequence.value + sequence.incrementBy);
      forall i | 0 <= i < |all| ensures Numbers(all)[i] == numbers[from := value][i] {
        assert i != from ==> Differ(all, from, i);
      }
      assert Numbers(all) == numbers[from := value];
    } else {
      assert Numbers(all) == numbers;
    }
  }

  /**
   Fills the empty ids from the sequence, up to the first unsupported one. `all` are the ids of the whole record, and
   those of `data` start at `from`.
   */
  method Allocate(node: Node, data: Data, sequence: Sequence, ghost all: seq<Cell>, ghost from: nat) returns (ok: bool)
    requires Fits(node, data) && Distinct(all) && Holds(Ids(data), all, from)
    modifies all, sequence
    ensures ok <==> Supported(data)
    ensures Current(all, sequence) ==
            Advance(old(Current(all, sequence)), from, from + |Ids(data)|, sequence.incrementBy)
    decreases node, 0
  {
    match node {
      case ObjectNode(child) =>
        ok := Allocate(child, data.field, sequence, all, from);
      case ArrayNode(child) =>
        ok := AllocateRows(child, data.items, sequence, all, from);
      case LeafNode =>
        ok := AllocateLeaf(data, sequence, all, from);
    }
  }

  method AllocateLeaf(data: Data, sequence: Sequence, ghost all: seq<Cell>, ghost from: nat) returns (ok: bool)
    requires (data.Id? || data.Unsupported?) && Distinct(all) && Holds(Ids(data), all, from)
    modifies all, sequence
    ensures ok <==> Supported(data)
    ensures Current(all, sequence) ==
            Advance(old(Current(all, sequence)), from, from + |Ids(data)|, sequence.incrementBy)
  {
    AdvanceOne(Current(all, sequence), from, sequence.incrementBy);
    if data.Unsupported? {
      return false;
    }
    assert all[from + 0] == Ids(data)[0];
    AllocateId(data.cell, sequence, all, from);
    return true;
  }

  method AllocateRows(child: Node, items: seq<Data>, sequence: Sequence, ghost all: seq<Cell>, ghost from: nat)
    returns (ok: bool)
    requires (forall i :: 0 <= i < |items| ==> Fits(child, items[i])) && Distinct(all)
    requires Holds(IdsOfRows(items, |items|), all, from)
    modifies all, sequence
    ensures ok <==> SupportedRows(items, |items|)
    ensures Current(all, sequence) ==
            Advance(old(Current(all, sequence)), from, from + |IdsOfRows(items, |items|)|, sequence.incrementBy)
    decreases child, 2
  {
    ghost var start := Current(all, sequence);
    ghost var mid := from;
    for i := 0 to |items|
      invariant from <= mid <= |all| && RowsDone(items, i, from, mid)
      invariant Current(all, sequence) == Advance(start, from, mid, sequence.incrementBy)
    {
      ok, mid := AllocateRow(child, items, i, sequence, all, start, from, mid);
      if !ok {
        return false;
      }
    }
    return true;
  }

  method AllocateRow(child: Node, items: seq<Data>, i: nat, sequence: Sequence, ghost all: seq<Cell>,
                     ghost start: State, ghost from: nat, ghost mid: nat)
    returns (ok: bool, ghost end: nat)
    requires i < |items| && Fits(child, items[i]) && Distinct(all) && Holds(IdsOfRows(items, |items|), all, from)
    requires from <= mid <= |all| == |start.numbers| && RowsDone(items, i, from, mid)
    requires Current(all, sequence) == Advance(start, from, mid, sequence.incrementBy)
    modifies all, sequence
    ensures mid <= end <= |all|
    ensures if ok then RowsDone(items, i + 1, from, end)
            else !SupportedRows(items, |items|) && end == from + |IdsOfRows(items, |items|)|
    ensures Current(all, sequence) == Advance(start, from, end, sequence.incrementBy)
    decreases child, 1
  {
    end := mid + |Ids(items[i])|;
    RowSegment(items, i, all, from, mid, |Ids(items[i])|);
    AdvanceOn(start, Current(all, sequence), from, mid, end, sequence.incrementBy);
    ok := Allocate(child, items[i], sequence, all, mid);
  }

  // ----- what is written where -----

  /** The `k`-th value of a sequence, in 64-bit arithmetic. */
  function ValueAt(value: int, incrementBy: int, k: nat): int {
    Wrap(value + k * incrementBy)
  }

  lemma {:induction false} WrapIs(x: int)
    ensures Wrap(x) == (x + HALF) % WIDTH - HALF
    decreases if x < 0 then -x else x + 1
  {
    if x >= HALF {
      WrapIs(x - WIDTH);
    } else if x < -HALF {
      WrapIs(x + WIDTH);
    }
  }

  lemma WrapAdds(x: int, y: int)
    ensures Wrap(Wrap(x) + y) == Wrap(x + y)
  {
    WrapIs(x);
    WrapIs(Wrap(x) + y);
    WrapIs(x + y);
    var q := (x + HALF) / WIDTH;
    assert Wrap(x) == x - q * WIDTH;
    var a, b := Wrap(x) + y + HALF, x + y + HALF;
    assert a == b - q * WIDTH;
    assert a % WIDTH == b % WIDTH;
  }

  lemma NextValue(value: int, incrementBy: int, k: nat)
    ensures Wrap(ValueAt(value, incrementBy, k) + incrementBy) == ValueAt(value, incrementBy, k + 1)
  {
    assert (k + 1) * incrementBy == k * incrementBy + incrementBy;
    WrapAdds(value + k * incrementBy, incrementBy);
  }

  /** The value of the `k`-th empty number before `end` is the `k`-th of the sequence; all other numbers stay. */
  lemma {:induction false} AdvancedTo(s: State, end: nat, incrementBy: int, i: nat)
    requires end <= |s.numbers| && i < |s.numbers| && InRange(s.value)
    ensures var done := Advance(s, 0, end, incrementBy);
            && done.value == ValueAt(s.value, incrementBy, Zeros(s.numbers, 0, end))
            && done.numbers[i] ==
               if i < end && s.numbers[i] == 0 then ValueAt(s.value, incrementBy, Zeros(s.numbers, 0, i))
               else s.numbers[i]
    decreases end
  {
    if end > 0 {
      AdvancedTo(s, end - 1, incrementBy, i);
      AdvancedTo(s, end - 1, incrementBy, end - 1);
      NextValue(s.value, incrementBy, Zeros(s.numbers, 0, end - 1));
    }
  }

  lemma {:induction false} ZerosGrow(numbers: seq<int>, i: nat, end: nat)
    requires i < end <= |numbers| && numbers[i] == 0
    ensures Zeros(numbers, 0, i) < Zeros(numbers, 0, end)
    decreases end
  {
    if i + 1 < end {
      ZerosGrow(numbers, i, end - 1);
    }
  }

  /** Two empty ids never get the same number of steps, and every step is one of those that were counted. */
  lemma StepsDiffer(numbers: seq<int>, i: nat, j: nat)
    requires i < j < |numbers| && numbers[i] == 0 && numbers[j] == 0
    ensures Zeros(numbers, 0, i) < Zeros(numbers, 0, j) < Zeros(numbers, 0, |numbers|)
  {
    ZerosGrow(numbers, i, j);
    ZerosGrow(numbers, j, |numbers|);
  }

  lemma {:induction false} NothingToFill(s: State, end: nat, incrementBy: int)
    requires end <= |s.numbers| && Zeros(s.numbers, 0, end) == 0
    ensures Advance(s, 0, end, incrementBy) == s
    decreases end
  {
    if end > 0 {
      NothingToFill(s, end - 1, incrementBy);
    }
  }

  // ----- new ids that are different and not empty -----

  lemma WidthIs()
    ensures Pow2(64) == WIDTH
  {
    assert Pow2(2) == 2 * Pow2(1) == 4 * Pow2(0);
    PowSum(2, 2);
    PowSum(4, 4);
    PowSum(8, 8);
    PowSum(16, 16);
    PowSum(32, 32);
  }

  lemma {:induction false} PowSum(m: nat, n: nat)
    ensures Pow2(m + n) == Pow2(m) * Pow2(n)
    decreases n
  {
    if n > 0 {
      PowSum(m, n - 1);
      assert Pow2(m + n) == 2 * Pow2(m + n - 1);
    }
  }

  lemma WrapSame(x: int, y: int)
    ensures Wrap(x) == Wrap(y) <==> (y - x) % WIDTH == 0
  {
    WrapIs(x);
    WrapIs(y);
    var q, r, p := (x + HALF) / WIDTH, (y + HALF) / WIDTH, (y - x) / WIDTH;
    if Wrap(x) == Wrap(y) {
      ModIs(y - x, WIDTH, r - q, 0);
    }
    if (y - x) % WIDTH == 0 {
      ModIs(y + HALF, WIDTH, q + p, (x + HALF) % WIDTH);
    }
  }

  lemma WrapZero(x: int)
    ensures Wrap(x) == 0 <==> x % WIDTH == 0
  {
    WrapSame(0, x);
  }

  predicate Usable(value: int, incrementBy: int, count: nat) {
    Different(value, incrementBy, 64, count)
  }

  lemma ValuesSame(value: int, incrementBy: int, i: nat, j: nat)
    requires i < j
    ensures ValueAt(value, incrementBy, i) == ValueAt(value, incrementBy, j) <==>
            Meet(incrementBy, 64, i, j)
  {
    WidthIs();
    WrapSame(value + i * incrementBy, value + j * incrementBy);
    assert (j - i) * incrementBy == j * incrementBy - i * incrementBy;
  }

  lemma ValueZero(value: int, incrementBy: int, k: nat)
    ensures ValueAt(value, incrementBy, k) == 0 <==> Hits(value, incrementBy, 64, k)
  {
    WidthIs();
    WrapZero(value + k * incrementBy);
  }

  /** No two of the first values are the same, and none is zero. */
  ghost predicate Fresh(value: int, incrementBy: int, count: nat) {
    && (forall k: nat :: k < count ==> ValueAt(value, incrementBy, k) != 0)
    && (forall i: nat, j: nat :: i < j < count ==> ValueAt(value, incrementBy, i) != ValueAt(value, incrementBy, j))
  }

  lemma UsableExactlyWhen(value: int, incrementBy: int, count: nat)
    ensures Fresh(value, incrementBy, count) <==> Usable(value, incrementBy, count)
  {
    DifferentExactlyWhen(value, incrementBy, 64, count);
    forall k: nat
      ensures ValueAt(value, incrementBy, k) == 0 <==> Hits(value, incrementBy, 64, k)
    {
      ValueZero(value, incrementBy, k);
    }
    forall i: nat, j: nat | i < j
      ensures ValueAt(value, incrementBy, i) == ValueAt(value, incrementBy, j) <==> Meet(incrementBy, 64, i, j)
    {
      ValuesSame(value, incrementBy, i, j);
    }
  }

  /** Ids filled without coming near the end of the range, as a database hands them out. */
  lemma OrdinaryUsable(value: int, incrementBy: int, count: nat)
    requires value > 0 && incrementBy > 0 && value + count * incrementBy <= HALF
    ensures Usable(value, incrementBy, count)
  {
    WidthIs();
    SmallDifferent(value, incrementBy, 64, count);
  }

  /** The `k`-th empty number is there. */
  lemma {:induction false} EmptyAt(numbers: seq<int>, end: nat, k: nat) returns (i: nat)
    requires end <= |numbers| && k < Zeros(numbers, 0, end)
    ensures i < end && numbers[i] == 0 && Zeros(numbers, 0, i) == k
    decreases end
  {
    if k < Zeros(numbers, 0, end - 1) {
      i := EmptyAt(numbers, end - 1, k);
    } else {
      i := end - 1;
    }
  }

  /** All empty numbers were filled, and no two of them alike. */
  predicate Filled(before: seq<int>, after: seq<int>)
    requires |before| == |after|
  {
    && (forall i :: 0 <= i < |after| ==> after[i] != 0)
    && (forall i, j :: 0 <= i < j < |after| && before[i] == 0 && before[j] == 0 ==> after[i] != after[j])
  }

  /** What a caller wants of the new ids holds exactly when the reserved values are different and not zero. */
  lemma FilledExactlyWhen(numbers: seq<int>, minValue: int, incrementBy: int)
    requires InRange(minValue)
    ensures var after := Advance(State(numbers, minValue), 0, |numbers|, incrementBy).numbers;
            && |after| == |numbers|
            && (Filled(numbers, after) <==> Usable(minValue, incrementBy, Zeros(numbers, 0, |numbers|)))
  {
    var s := State(numbers, minValue);
    var after, count := Advance(s, 0, |numbers|, incrementBy).numbers, Zeros(numbers, 0, |numbers|);
    UsableExactlyWhen(minValue, incrementBy, count);
    forall i | 0 <= i < |numbers|
      ensures after[i] == if numbers[i] == 0 then ValueAt(minValue, incrementBy, Zeros(numbers, 0, i)) else numbers[i]
      ensures numbers[i] == 0 ==> Zeros(numbers, 0, i) < count
    {
      AdvancedTo(s, |numbers|, incrementBy, i);
      if numbers[i] == 0 {
        ZerosGrow(numbers, i, |numbers|);
      }
    }
    if Usable(minValue, incrementBy, count) {
      forall i, j | 0 <= i < j < |after| && numbers[i] == 0 && numbers[j] == 0
        ensures after[i] != after[j]
      {
        ZerosGrow(numbers, i, j);
      }
    }
    if Filled(numbers, after) {
      forall k: nat | k < count
        ensures ValueAt(minValue, incrementBy, k) != 0
      {
        var i := EmptyAt(numbers, |numbers|, k);
      }
      forall k: nat, l: nat | k < l < count
        ensures ValueAt(minValue, incrementBy, k) != ValueAt(minValue, incrementBy, l)
      {
        var i := EmptyAt(numbers, |numbers|, k);
        var j := EmptyAt(numbers, |numbers|, l);
      }
    }
  }

  datatype Outcome = Done | Failed

  /**
   Gives the empty ids of a record the values of a reserved range, whose first one is `minValue`. Nothing is reserved if
   there is no empty id, and nothing written if some id is not an integer.
   */
  method Next(node: Node, data: Data, minValue: int, incrementBy: int) returns (outcome: Outcome)
    requires Fits(node, data) && Distinct(Ids(data)) && InRange(minValue)
    modifies Ids(data)
    ensures outcome == if Supported(data) then Done else Failed
    ensures var numbers := old(Numbers(Ids(data)));
            Numbers(Ids(data)) ==
            if Supported(data) then Advance(State(numbers, minValue), 0, |numbers|, incrementBy).numbers else numbers
    ensures Supported(data) ==>
              var numbers := old(Numbers(Ids(data)));
              && |Numbers(Ids(data))| == |numbers|
              && (Filled(numbers, Numbers(Ids(data))) <==>
                  Usable(minValue, incrementBy, Zeros(numbers, 0, |numbers|)))
  {
    ghost var all := Ids(data);
    ghost var numbers := Numbers(all);
    FilledExactlyWhen(numbers, minValue, incrementBy);
    var count := CountEmpty(node, data, all, 0);
    if count.None? {
      return Failed;
    }
    if count.value == 0 {
      NothingToFill(State(numbers, minValue), |all|, incrementBy);
      return Done;
    }
    var sequence := new Sequence(minValue, incrementBy);
    ghost var start := Current(all, sequence);
    assert start == State(numbers, minValue);
    var ok := Allocate(node, data, sequence, all, 0);
    return Done;
  }
}
