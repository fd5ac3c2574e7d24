/**
 When the values of a sequence are different and none is zero, in 64-bit arithmetic (executor/sequencer/sequence.go).
 */
module SequenceValues {
  import opened Keys

  function Pow2(n: nat): (w: nat)
    ensures w > 0
  {
    if n == 0 then 1 else 2 * Pow2(n - 1)
  }

  /** The `k`-th value is a multiple of the `n`-th power of two. */
  predicate Hits(value: int, step: int, n: nat, k: nat) {
    (value + k * step) % Pow2(n) == 0
  }

  /** Half of the value, after one more odd step if the value is odd. */
  function Half(value: int, step: int): int {
    (value + (value % 2) * step) / 2
  }

  /**
   The first multiple of the `n`-th power of two among the values, read from the digits of the first value and the
   step.
   */
  function FirstHit(value: int, step: int, n: nat): Option<nat>
    decreases n
  {
    if n == 0 then Some(0)
    else if step % 2 == 0 then
      if value % 2 != 0 then None else FirstHit(value / 2, step / 2, n - 1)
    else
      var rest := FirstHit(Half(value, step), step, n - 1);
      if rest.None? then None else Some(value % 2 + 2 * rest.value)
  }

  lemma DoubleMod(x: int, w: nat)
    requires w > 0
    ensures (2 * x) % (2 * w) == 2 * (x % w)
  {
    var q, r := x / w, x % w;
    assert x == q * w + r;
    assert 2 * x == q * (2 * w) + 2 * r;
    ModIs(2 * x, 2 * w, q, 2 * r);
  }

  lemma MultipleGrows(m: nat, w: nat)
    requires m > 0
    ensures m * w >= w
  {
    NonNegative(m - 1, w);
    assert m * w == (m - 1) * w + w;
  }

  lemma NonNegative(a: nat, b: nat)
    ensures a * b >= 0
  {}

  lemma SmallMultiple(m: int, w: int)
    requires w > 0 && 0 - w < m * w < w
    ensures m == 0
  {
    if m > 0 {
      MultipleGrows(m, w);
    }
  }

  lemma ModIs(x: int, w: nat, q: int, r: int)
    requires w > 0 && x == q * w + r && 0 <= r < w
    ensures x % w == r
  {
    var p, s := x / w, x % w;
    assert x == p * w + s;
    assert (p - q) * w == p * w - q * w;
    SmallMultiple(p - q, w);
  }

  lemma OddHitsNothing(x: int, n: nat)
    requires x % 2 != 0 && n > 0
    ensures x % Pow2(n) != 0
  {
    var w := Pow2(n - 1);
    var q, r := x / (2 * w), x % (2 * w);
    assert x == q * (2 * w) + r && q * (2 * w) == 2 * (q * w);
  }

  /** One digit less: an even step leaves the last digit as it is. */
  lemma EvenStep(value: int, step: int, n: nat, k: nat)
    requires n > 0 && step % 2 == 0
    ensures Hits(value, step, n, k) <==> value % 2 == 0 && Hits(value / 2, step / 2, n - 1, k)
  {
    var h := step / 2;
    assert k * step == 2 * (k * h);
    if value % 2 == 0 {
      DoubleMod(value / 2 + k * h, Pow2(n - 1));
      assert value + k * step == 2 * (value / 2 + k * h);
    } else {
      OddHitsNothing(value + k * step, n);
    }
  }

  /** An odd step turns it over. */
  lemma OddStep(value: int, step: int, n: nat, k: nat)
    requires n > 0 && step % 2 != 0
    ensures Hits(value, step, n, k) <==>
            k % 2 == value % 2 && Hits(Half(value, step), step, n - 1, k / 2)
  {
    var odd, m := value % 2, k / 2;
    if k % 2 == odd {
      var half := Half(value, step);
      OddSum(value, step, odd);
      OddTerms(value, step, odd, half, m, k);
      DoubleMod(half + m * step, Pow2(n - 1));
    } else {
      OddSum(value, step, k);
      OddHitsNothing(value + k * step, n);
    }
  }

  lemma OddSum(value: int, step: int, k: nat)
    requires step % 2 != 0
    ensures (value + k * step) % 2 == 0 <==> value % 2 == k % 2
  {
    var q := step / 2;
    assert step == 2 * q + 1;
    assert k * step == 2 * (k * q) + k;
  }

  lemma OddTerms(value: int, step: int, odd: int, half: int, m: nat, k: nat)
    requires k == odd + 2 * m && value + odd * step == 2 * half
    ensures value + k * step == 2 * (half + m * step)
  {
    assert k * step == odd * step + 2 * (m * step);
  }

  lemma {:induction false} FirstHitHits(value: int, step: int, n: nat)
    ensures FirstHit(value, step, n).Some? ==> Hits(value, step, n, FirstHit(value, step, n).value)
    decreases n
  {
    if n > 0 && FirstHit(value, step, n).Some? {
      if step % 2 == 0 {
        var k := FirstHit(value / 2, step / 2, n - 1).value;
        FirstHitHits(value / 2, step / 2, n - 1);
        EvenStep(value, step, n, k);
      } else {
        var m := FirstHit(Half(value, step), step, n - 1).value;
        FirstHitHits(Half(value, step), step, n - 1);
        OddStep(value, step, n, value % 2 + 2 * m);
      }
    }
  }

  lemma {:induction false} NoneBefore(value: int, step: int, n: nat, k: nat)
    requires Hits(value, step, n, k)
    ensures FirstHit(value, step, n).Some? && FirstHit(value, step, n).value <= k
    decreases n
  {
    if n > 0 {
      if step % 2 == 0 {
        EvenStep(value, step, n, k);
        NoneBefore(value / 2, step / 2, n - 1, k);
      } else {
        OddStep(value, step, n, k);
        NoneBefore(Half(value, step), step, n - 1, k / 2);
      }
    }
  }

  /** After so many steps the values come round. */
  function Period(step: int, n: nat): nat {
    var first := FirstHit(step, step, n);
    if first.None? then 0 else first.value + 1
  }

  lemma PeriodIs(step: int, n: nat)
    ensures Period(step, n) > 0 && (Period(step, n) * step) % Pow2(n) == 0
    ensures forall d: nat :: d > 0 && (d * step) % Pow2(n) == 0 ==> Period(step, n) <= d
  {
    var w := Pow2(n);
    Distribute(w, step);
    ModIs(w * step, w, step, 0);
    NoneBefore(step, step, n, w - 1);
    FirstHitHits(step, step, n);
    Distribute(Period(step, n), step);
    forall d: nat | d > 0 && (d * step) % w == 0
      ensures Period(step, n) <= d
    {
      Distribute(d, step);
      NoneBefore(step, step, n, d - 1);
    }
  }

  lemma Distribute(d: nat, step: int)
    requires d > 0
    ensures step + (d - 1) * step == d * step
  {}

  /** The values of these two numbers are the same up to multiples of the power of two. */
  predicate Meet(step: int, n: nat, i: nat, j: nat) {
    ((j - i) * step) % Pow2(n) == 0
  }

  /**
   The first `count` values are different and not zero: the step does not come round before, and does not lead to zero.
   Both are read from the digits of the first value and the step.
   */
  predicate Different(value: int, step: int, n: nat, count: nat) {
    && count <= Period(step, n)
    && (FirstHit(value, step, n).Some? ==> count <= FirstHit(value, step, n).value)
  }

  lemma DifferentExactlyWhen(value: int, step: int, n: nat, count: nat)
    ensures Different(value, step, n, count) <==>
            && (forall k: nat :: k < count ==> !Hits(value, step, n, k))
            && (forall i: nat, j: nat :: i < j < count ==> !Meet(step, n, i, j))
  {
    PeriodIs(step, n);
    FirstHitHits(value, step, n);
    if Different(value, step, n, count) {
      forall k: nat | k < count
        ensures !Hits(value, step, n, k)
      {
        if Hits(value, step, n, k) {
          NoneBefore(value, step, n, k);
        }
      }
    } else if count > Period(step, n) {
      assert Meet(step, n, 0, Period(step, n));
    }
  }

  /** Values that stay below the power of two. */
  lemma SmallDifferent(value: int, step: int, n: nat, count: nat)
    requires value > 0 && step > 0 && value + count * step <= Pow2(n)
    ensures Different(value, step, n, count)
  {
    PeriodIs(step, n);
    FirstHitHits(value, step, n);
    var p, first := Period(step, n), FirstHit(value, step, n);
    if p < count {
      NotMultiple(0, step, p, count, Pow2(n));
    }
    if first.Some? && first.value < count {
      NotMultiple(value, step, first.value, count, Pow2(n));
    }
  }

  lemma NotMultiple(value: int, step: int, k: nat, count: nat, w: nat)
    requires value >= 0 && step > 0 && value + count * step <= w && k < count && value + k > 0
    ensures w > 0 && (value + k * step) % w != 0
  {
    NonNegative(k, step);
    MultipleGrows(count - k, step);
    assert count * step == k * step + (count - k) * step;
    if k > 0 {
      MultipleGrows(k, step);
    }
  }
}
