/** Counting and repeating in sequences. */
module Lists {

  function Count<T(==)>(xs: seq<T>, x: T): (c: nat)
    ensures c > 0 <==> x in xs
  {
    if xs == [] then 0
    else
      assert x in xs <==> x in xs[..|xs| - 1] || x == xs[|xs| - 1];
      Count(xs[..|xs| - 1], x) + if xs[|xs| - 1] == x then 1 else 0
  }

  function Repeat<T>(x: T, n: nat): seq<T> {
    seq(n, _ => x)
  }

  lemma {:induction false} RepeatCount<T>(x: T, n: nat, y: T)
    ensures Count(Repeat(x, n), y) == if x == y then n else 0
    decreases n
  {
    if n > 0 {
      RepeatCount(x, n - 1, y);
      assert Repeat(x, n) == Repeat(x, n - 1) + [x];
    }
  }

  lemma {:induction false} CountConcat<T>(xs: seq<T>, ys: seq<T>, x: T)
    ensures Count(xs + ys, x) == Count(xs, x) + Count(ys, x)
    decreases |ys|
  {
    if ys == [] {
      assert xs + ys == xs;
    } else {
      CountConcat(xs, ys[..|ys| - 1], x);
      assert (xs + ys)[..|xs + ys| - 1] == xs + ys[..|ys| - 1];
    }
  }

  /** One more occurrence is one more repetition. */
  lemma CountStep<T, U>(xs: seq<T>, t: nat, x: T, owner: U)
    requires t < |xs|
    ensures Count(xs[..t + 1], x) == Count(xs[..t], x) + if xs[t] == x then 1 else 0
    ensures Repeat(owner, Count(xs[..t + 1], x)) ==
            Repeat(owner, Count(xs[..t], x)) + if xs[t] == x then [owner] else []
  {
    assert xs[..t + 1] == xs[..t] + [xs[t]];
  }

  /** The decimal text of a number. */
  function Itoa(n: int): (s: string)
    ensures s != ""
    decreases if n < 0 then 1 - n else n
  {
    if n < 0 then "-" + Itoa(-n)
    else if n < 10 then ["0123456789"[n]]
    else Itoa(n / 10) + ["0123456789"[n % 10]]
  }

  /** The numbers below `n`. */
  function UpTo(n: nat): (s: set<nat>)
    ensures |s| == n && forall i: nat :: i in s <==> i < n
  {
    if n == 0 then {} else UpTo(n - 1) + {n - 1}
  }

  lemma Assoc<T>(x: seq<T>, y: seq<T>, z: seq<T>)
    ensures (x + y) + z == x + (y + z)
  {}
}
