/** Finite sums over an integer range, accumulated left to right the way
    Python's built-in `sum` over a `range` does. */
module Sums {

  /** f(lo) + f(lo+1) + ... + f(hi-1); zero for an empty range. */
  function Sum(f: int -> real, lo: int, hi: int): real
    decreases hi - lo
  {
    if hi <= lo then 0.0 else Sum(f, lo, hi - 1) + f(hi - 1)
  }

  lemma {:induction false} SumSplit(f: int -> real, a: int, b: int, c: int)
    requires a <= b <= c
    ensures Sum(f, a, c) == Sum(f, a, b) + Sum(f, b, c)
    decreases c - b
  {
    if b < c {
      SumSplit(f, a, b, c - 1);
    }
  }

  /** Extending a range by one element at its low end. */
  lemma {:induction false} SumPrepend(f: int -> real, a: int, b: int)
    requires a < b
    ensures Sum(f, a, b) == f(a) + Sum(f, a + 1, b)
  {
    SumSplit(f, a, a + 1, b);
  }

  lemma {:induction false} SumZero(f: int -> real, a: int, b: int)
    requires forall i :: a <= i < b ==> f(i) == 0.0
    ensures Sum(f, a, b) == 0.0
    decreases b - a
  {
    if a < b {
      SumZero(f, a, b - 1);
    }
  }

  lemma {:induction false} SumCongruent(f: int -> real, g: int -> real, a: int, b: int)
    requires forall i :: a <= i < b ==> f(i) == g(i)
    ensures Sum(f, a, b) == Sum(g, a, b)
    decreases b - a
  {
    if a < b {
      SumCongruent(f, g, a, b - 1);
    }
  }

  /** Summing f(0), ..., f(m-1) where f(j) = g(c - j) is summing g over
      the m indices that end at c. */
  lemma {:induction false} SumReflect(f: int -> real, g: int -> real, c: int, m: nat)
    requires forall j :: 0 <= j < m ==> f(j) == g(c - j)
    ensures Sum(f, 0, m) == Sum(g, c - m + 1, c + 1)
  {
    if m > 0 {
      SumReflect(f, g, c, m - 1);
      SumPrepend(g, c - m + 1, c + 1);
    }
  }

  /** Only the part of a range where f may be nonzero contributes. */
  lemma {:induction false} SumWindow(f: int -> real, a: int, lo: int, hi: int, b: int)
    requires a <= lo <= hi <= b
    requires forall i :: a <= i < lo ==> f(i) == 0.0
    requires forall i :: hi <= i < b ==> f(i) == 0.0
    ensures Sum(f, a, b) == Sum(f, lo, hi)
  {
    SumSplit(f, a, lo, b);
    SumSplit(f, lo, hi, b);
    SumZero(f, a, lo);
    SumZero(f, hi, b);
  }

  /** A sum whose terms each split as r(i) + s(i), where the tail s(i) of one
      term and the head r(i+1) of the next combine into g(i+1), collapses to
      the first head, the sum of g strictly inside, and the last tail. */
  lemma {:induction false} SumTelescope(f: int -> real, g: int -> real, r: int -> real, s: int -> real, a: int, b: int)
    requires a < b
    requires forall i {:trigger f(i)} :: a <= i < b ==> f(i) == r(i) + s(i)
    requires forall j {:trigger g(j)} :: a < j < b ==> s(j - 1) + r(j) == g(j)
    ensures Sum(f, a, b) == r(a) + Sum(g, a + 1, b) + s(b - 1)
    decreases b - a
  {
    assert f(b - 1) == r(b - 1) + s(b - 1);
    if b > a + 1 {
      SumTelescope(f, g, r, s, a, b - 1);
      assert g(b - 1) == s(b - 2) + r(b - 1);
    }
  }
}
