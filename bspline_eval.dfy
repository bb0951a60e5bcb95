/** The two reference evaluators of a spline sum_i c[i] B_i(x) in the B-spline
    tests: `_naive_eval` sums the k+1 basis functions around the knot span
    that holds x, `_naive_eval_2` sums all n of them, and
    `_sum_basis_elements` builds each basis function from its own k+2 knots.
    Knots t have length n + k + 1; the assertions of the Python helpers are
    modelled as an error outcome. */
module BSplineEval {
  import opened Sums
  import opened BSplineBasis

  datatype EvalError = AssertionFailed | IndexOutOfRange

  datatype EvalResult = Value(v: real) | Failed(e: EvalError)

  /** numpy's searchsorted with side='left' on an ordered vector: the first
      index p with x <= t[p], or |t| when there is none. */
  function SearchSortedLeft(t: seq<real>, x: real): (p: nat)
    ensures p <= |t|
    ensures forall q :: 0 <= q < p ==> t[q] < x
    ensures p < |t| ==> x <= t[p]
  {
    if |t| == 0 || x <= t[0] then 0 else 1 + SearchSortedLeft(t[1..], x)
  }

  /** numpy's searchsorted with side='right': the first index p with
      x < t[p], or |t| when there is none. */
  function SearchSortedRight(t: seq<real>, x: real): (p: nat)
    ensures p <= |t|
    ensures forall q :: 0 <= q < p ==> t[q] <= x
    ensures p < |t| ==> x < t[p]
  {
    if |t| == 0 || x < t[0] then 0 else 1 + SearchSortedRight(t[1..], x)
  }

  /** The number n of coefficients a knot vector of length |t| carries. */
  function NumCoefficients(t: seq<real>, k: nat): int
  {
    |t| - (k + 1)
  }

  /** The term c[i] * B_i(x) of the spline sum; zero for an index that has no
      coefficient or no basis function. */
  function Term(x: real, t: seq<real>, c: seq<real>, k: nat): int -> real
  {
    i => if 0 <= i < |c| && i + k + 1 < |t| then Weighted(c[i], NaiveB(x, k, i, t)) else 0.0
  }

  /** The terms counted downwards from index i: j-th is c[i-j] * B_{i-j}(x). */
  function LocalTerm(x: real, t: seq<real>, c: seq<real>, k: nat, i: int): int -> real
  {
    j => Term(x, t, c, k)(i - j)
  }

  /** The knot span `_naive_eval` picks: k when x is the first knot of the
      base interval, otherwise one before searchsorted(t, x). */
  function Locate(t: seq<real>, k: nat, x: real): int
    requires k < |t|
  {
    if x == t[k] then k else SearchSortedLeft(t, x) - 1
  }

  /** The body of `_naive_eval` once the span i is chosen: its two
      assertions, then the sum of the k+1 terms c[i-j] B_{i-j}(x), j = 0..k.
      Python's chained comparison t[i] <= x <= t[i+1] stops at the first
      false test, so t[i+1] is read only when t[i] <= x. An index -1 reads
      t[-1] (Python wraps it), and the second assertion then fails. */
  function EvalAt(x: real, t: seq<real>, c: seq<real>, k: nat, i: int): EvalResult
  {
    if i < 0 then Failed(AssertionFailed)
    else if i >= |t| then Failed(IndexOutOfRange)
    else if !(t[i] <= x) then Failed(AssertionFailed)
    else if i + 1 >= |t| then Failed(IndexOutOfRange)
    else if !(x <= t[i + 1]) then Failed(AssertionFailed)
    else if !(k <= i < |t| - k) then Failed(AssertionFailed)
    else if i >= |c| || i + k + 1 >= |t| then Failed(IndexOutOfRange)
    else Value(Sum(LocalTerm(x, t, c, k, i), 0, k + 1))
  }

  /** `_naive_eval`: local evaluation on the span found by Locate. */
  function NaiveEval(x: real, t: seq<real>, c: seq<real>, k: nat): EvalResult
  {
    if |t| <= k then Failed(IndexOutOfRange) else EvalAt(x, t, c, k, Locate(t, k, x))
  }

  /** `_naive_eval_2`: the sum of all n terms, after asserting n >= k+1,
      |c| >= n and that x lies in the base interval [t[k], t[n]]. */
  function NaiveEval2(x: real, t: seq<real>, c: seq<real>, k: nat): EvalResult
  {
    var n := NumCoefficients(t, k);
    if n < k + 1 || |c| < n || !(t[k] <= x <= t[n]) then Failed(AssertionFailed)
    else Value(Sum(Term(x, t, c, k), 0, n))
  }

  /** The inputs on which the reference evaluators are meant to be used. */
  predicate ValidSpline(t: seq<real>, c: seq<real>, k: nat)
  {
    NonDecreasing(t) && NumCoefficients(t, k) >= k + 1 && |c| >= NumCoefficients(t, k)
  }

  /** x is a knot of multiplicity k+1 inside the knot vector: some knot after
      t[k] and the knot k places further both equal x. */
  predicate FullMultipleKnotAt(t: seq<real>, k: nat, x: real)
  {
    exists q :: k < q && q + k < |t| && t[q] == x && t[q + k] == x
  }

  /** Locate puts every x of the base interval [t[k], t[n]] inside a knot span
      t[i] <= x <= t[i+1] with k <= i <= n-1, so both assertions of
      `_naive_eval` hold; when x is not the first knot, t[i] < x. */
  lemma {:induction false} LocateInBaseInterval(t: seq<real>, k: nat, x: real)
    requires NonDecreasing(t) && NumCoefficients(t, k) >= k + 1
    requires t[k] <= x <= t[NumCoefficients(t, k)]
    ensures var i := Locate(t, k, x);
      k <= i < NumCoefficients(t, k) && t[i] <= x <= t[i + 1] && (x != t[k] ==> t[i] < x)
  {
    var n := NumCoefficients(t, k);
    Ordered(t, k, k + 1);
    if x != t[k] {
      var p := SearchSortedLeft(t, x);
      assert t[k] < x;
      if p <= k {
        Ordered(t, p, k);
      }
    }
  }

  /** With side='right', clamped to the last span of the base interval, the
      span found satisfies t[i] <= x, and x < t[i+1] unless i is the last
      span n-1. */
  function LocateRight(t: seq<real>, k: nat, x: real): int
  {
    var p := SearchSortedRight(t, x) - 1;
    var last := NumCoefficients(t, k) - 1;
    if p < last then p else last
  }

  lemma {:induction false} LocateRightInBaseInterval(t: seq<real>, k: nat, x: real)
    requires NonDecreasing(t) && NumCoefficients(t, k) >= k + 1
    requires t[k] <= x <= t[NumCoefficients(t, k)]
    ensures var i := LocateRight(t, k, x);
      k <= i < NumCoefficients(t, k) && t[i] <= x <= t[i + 1]
      && (i < NumCoefficients(t, k) - 1 ==> x < t[i + 1])
  {
    var n := NumCoefficients(t, k);
    var p := SearchSortedRight(t, x);
    if p <= k {
      assert x < t[p];
      Ordered(t, p, k);
    }
    if p - 1 >= n - 1 {
      assert t[n - 1] <= x by {
        Ordered(t, n - 1, p - 1);
      }
    }
  }

  /** Terms before the k+1 around span i vanish: B_j(x) is zero once
      t[j+k+1] <= t[i] <= x. */
  lemma {:induction false} LowTermsVanish(x: real, t: seq<real>, c: seq<real>, k: nat, i: nat, j: int)
    requires NonDecreasing(t) && i < |t| && t[i] <= x
    requires j < i - k
    ensures Term(x, t, c, k)(j) == 0.0
  {
    if 0 <= j < |c| && j + k + 1 < |t| {
      Ordered(t, j + k + 1, i);
      Support(x, k, j, t);
    }
  }

  /** If the terms after index i vanish, the full sum of `_naive_eval_2`
      is the local sum of the k+1 terms c[i-j] B_{i-j}(x). */
  lemma {:induction false} GlobalIsLocal(x: real, t: seq<real>, c: seq<real>, k: nat, i: nat)
    requires NonDecreasing(t)
    requires k <= i < NumCoefficients(t, k) && t[i] <= x
    requires forall j :: i < j < NumCoefficients(t, k) ==> Term(x, t, c, k)(j) == 0.0
    ensures Sum(Term(x, t, c, k), 0, NumCoefficients(t, k)) == Sum(LocalTerm(x, t, c, k, i), 0, k + 1)
  {
    var f := Term(x, t, c, k);
    forall j | 0 <= j < i - k
      ensures f(j) == 0.0
    {
      LowTermsVanish(x, t, c, k, i, j);
    }
    SumWindow(f, 0, i - k, i + 1, NumCoefficients(t, k));
    SumReflect(LocalTerm(x, t, c, k, i), f, i, k + 1);
  }

  /** For a valid spline, `_naive_eval` succeeds on the whole base interval,
      with the local sum around the span Locate finds. */
  lemma {:induction false} NaiveEvalDefined(x: real, t: seq<real>, c: seq<real>, k: nat)
    requires ValidSpline(t, c, k)
    requires t[k] <= x <= t[NumCoefficients(t, k)]
    ensures NaiveEval(x, t, c, k) == Value(Sum(LocalTerm(x, t, c, k, Locate(t, k, x)), 0, k + 1))
  {
    LocateInBaseInterval(t, k, x);
  }

  /** `_naive_eval` agrees with `_naive_eval_2` on the base interval, except
      at a knot of multiplicity k+1 after t[k]. */
  lemma {:induction false} LocalEqualsGlobal(x: real, t: seq<real>, c: seq<real>, k: nat)
    requires ValidSpline(t, c, k)
    requires t[k] <= x <= t[NumCoefficients(t, k)]
    requires !FullMultipleKnotAt(t, k, x)
    ensures NaiveEval(x, t, c, k) == NaiveEval2(x, t, c, k)
  {
    var n := NumCoefficients(t, k);
    var i := Locate(t, k, x);
    LocateInBaseInterval(t, k, x);
    forall j | i < j < n
      ensures Term(x, t, c, k)(j) == 0.0
    {
      HighTermVanishes(x, t, c, k, i, j);
    }
    GlobalIsLocal(x, t, c, k, i);
  }

  /** A term after span i is zero: its knot t[j] is at least x, and when it
      equals x the knot is not repeated k+1 times, so x is the left end of
      the support of B_j, where B_j is zero. */
  lemma {:induction false} HighTermVanishes(x: real, t: seq<real>, c: seq<real>, k: nat, i: nat, j: int)
    requires ValidSpline(t, c, k)
    requires k <= i < j < NumCoefficients(t, k) && x <= t[i + 1]
    requires !FullMultipleKnotAt(t, k, x)
    ensures Term(x, t, c, k)(j) == 0.0
  {
    Ordered(t, i + 1, j);
    if x < t[j] {
      Support(x, k, j, t);
    } else {
      assert !(t[j] == x && t[j + k] == x);
      Ordered(t, j, j + k);
      LeftEndVanishes(x, k, j, t);
    }
  }

  /** `_naive_eval` with the span found by side='right', clamped to the base
      interval: the evidently intended location rule. */
  function NaiveEvalCorrected(x: real, t: seq<real>, c: seq<real>, k: nat): EvalResult
  {
    EvalAt(x, t, c, k, LocateRight(t, k, x))
  }

  /** The corrected local evaluation agrees with `_naive_eval_2` everywhere on
      the base interval of a valid spline, knots of any multiplicity
      included. */
  lemma {:induction false} CorrectedEqualsGlobal(x: real, t: seq<real>, c: seq<real>, k: nat)
    requires ValidSpline(t, c, k)
    requires t[k] <= x <= t[NumCoefficients(t, k)]
    ensures NaiveEvalCorrected(x, t, c, k) == NaiveEval2(x, t, c, k)
  {
    var n := NumCoefficients(t, k);
    var i := LocateRight(t, k, x);
    LocateRightInBaseInterval(t, k, x);
    forall j | i < j < n
      ensures Term(x, t, c, k)(j) == 0.0
    {
      Ordered(t, i + 1, j);
      Support(x, k, j, t);
    }
    GlobalIsLocal(x, t, c, k, i);
  }

  /** The location rule of `_naive_eval` misses the basis function that is
      nonzero at an interior knot of multiplicity k+1: for k = 0, knots
      0, 1, 2 and coefficients 3, 4, at x = 1 the local sum is 0 where the
      spline is 4. */
  lemma {:induction false} NaiveEvalMissesFullMultipleKnot()
    ensures NaiveEval(1.0, [0.0, 1.0, 2.0], [3.0, 4.0], 0) == Value(0.0)
    ensures NaiveEval2(1.0, [0.0, 1.0, 2.0], [3.0, 4.0], 0) == Value(4.0)
    ensures NaiveEvalCorrected(1.0, [0.0, 1.0, 2.0], [3.0, 4.0], 0) == Value(4.0)
  {
    var t, c := [0.0, 1.0, 2.0], [3.0, 4.0];
    assert SearchSortedLeft(t, 1.0) == 1;
    assert SearchSortedRight(t, 1.0) == 2;
    assert Sum(LocalTerm(1.0, t, c, 0, 0), 0, 1) == Term(1.0, t, c, 0)(0);
    assert Sum(LocalTerm(1.0, t, c, 0, 1), 0, 1) == Term(1.0, t, c, 0)(1);
    assert Sum(Term(1.0, t, c, 0), 0, 2) == Term(1.0, t, c, 0)(0) + Term(1.0, t, c, 0)(1);
  }

  /** At the right end x = t[n] of the base interval the reference sum
      depends on the multiplicity of t[n]. With knots 0, 1, 2, 3 and k = 1
      (t[n] = 2 is simple) unit coefficients still give 1. With knots
      0, 0, 1, 1 (t[n] = 1 repeated k + 1 times) every half-open basis
      function is 0 there, so the sum is 0. */
  lemma {:induction false} UnitCoefficientsAtRightEnd()
    ensures NaiveEval2(2.0, [0.0, 1.0, 2.0, 3.0], [1.0, 1.0], 1) == Value(1.0)
    ensures NaiveEval2(1.0, [0.0, 0.0, 1.0, 1.0], [1.0, 1.0], 1) == Value(0.0)
  {
    var t, c := [0.0, 1.0, 2.0, 3.0], [1.0, 1.0];
    assert NaiveB(2.0, 1, 0, t) == 0.0;
    assert NaiveB(2.0, 1, 1, t) == 1.0;
    assert Sum(Term(2.0, t, c, 1), 0, 2) == Term(2.0, t, c, 1)(0) + Term(2.0, t, c, 1)(1);
    var u := [0.0, 0.0, 1.0, 1.0];
    assert NaiveB(1.0, 1, 0, u) == 0.0;
    assert NaiveB(1.0, 1, 1, u) == 0.0;
    assert Sum(Term(1.0, u, c, 1), 0, 2) == Term(1.0, u, c, 1)(0) + Term(1.0, u, c, 1)(1);
  }

  /** Only the first n coefficients are used: trailing ones are ignored. */
  lemma {:induction false} ExtraCoefficientsIgnored(x: real, t: seq<real>, c: seq<real>, k: nat)
    requires 0 <= NumCoefficients(t, k) <= |c|
    ensures NaiveEval2(x, t, c, k) == NaiveEval2(x, t, c[..NumCoefficients(t, k)], k)
  {
    var n := NumCoefficients(t, k);
    SumCongruent(Term(x, t, c, k), Term(x, t, c[..n], k), 0, n);
  }

  /** Partition of unity: with all coefficients one, the spline is one on the
      half-open base interval [t[k], t[n]). */
  lemma {:induction false} UnitCoefficientsGiveOne(x: real, t: seq<real>, c: seq<real>, k: nat)
    requires ValidSpline(t, c, k)
    requires forall i :: 0 <= i < |c| ==> c[i] == 1.0
    requires t[k] <= x < t[NumCoefficients(t, k)]
    ensures NaiveEval2(x, t, c, k) == Value(1.0)
  {
    var n := NumCoefficients(t, k);
    var i := LocateRight(t, k, x);
    LocateRightInBaseInterval(t, k, x);
    forall j | i < j < n
      ensures Term(x, t, c, k)(j) == 0.0
    {
      Ordered(t, i + 1, j);
      Support(x, k, j, t);
    }
    GlobalIsLocal(x, t, c, k, i);
    UnitLocalSum(x, t, c, k, i);
    PartitionOfUnity(x, t, k, i);
  }

  lemma {:induction false} UnitLocalSum(x: real, t: seq<real>, c: seq<real>, k: nat, i: nat)
    requires k <= i < |c| && i + k + 1 < |t|
    requires forall j :: 0 <= j < |c| ==> c[j] == 1.0
    ensures Sum(LocalTerm(x, t, c, k, i), 0, k + 1) == Sum(Basis(x, t, k), i - k, i + 1)
  {
    var f, g := Term(x, t, c, k), Basis(x, t, k);
    SumReflect(LocalTerm(x, t, c, k, i), f, i, k + 1);
    forall j | i - k <= j < i + 1
      ensures f(j) == g(j)
    {
      UnitWeight(NaiveB(x, k, j, t));
    }
    SumCongruent(f, g, i - k, i + 1);
  }

  lemma {:induction false} UnitWeight(b: real)
    ensures Weighted(1.0, b) == b
  {
  }

  /** Degree 0: the spline is the coefficient of the knot span holding x
      (`test_degree_0`). */
  lemma {:induction false} DegreeZeroIsPiecewiseConstant(x: real, t: seq<real>, c: seq<real>, i: nat)
    requires ValidSpline(t, c, 0)
    requires i < NumCoefficients(t, 0) && t[i] <= x < t[i + 1]
    ensures NaiveEval2(x, t, c, 0) == Value(c[i])
  {
    var n := NumCoefficients(t, 0);
    Ordered(t, 0, i);
    Ordered(t, i + 1, n);
    forall j | i < j < n
      ensures Term(x, t, c, 0)(j) == 0.0
    {
      Ordered(t, i + 1, j);
    }
    GlobalIsLocal(x, t, c, 0, i);
    assert Sum(LocalTerm(x, t, c, 0, i), 0, 1) == Weighted(c[i], 1.0);
  }

  /** The term c[i] * element(t[i..i+k+2], x) of `_sum_basis_elements`, where
      element(knots, x) stands for the library's basis element on those knots,
      evaluated without extrapolation and with NaN mapped to zero. */
  function ElementTerm(x: real, t: seq<real>, c: seq<real>, k: nat, element: (seq<real>, real) -> real): int -> real
  {
    i => if 0 <= i < |c| && i + k + 2 <= |t| then Weighted(c[i], element(t[i..i + k + 2], x)) else 0.0
  }

  /** `_sum_basis_elements`: after asserting n >= k+1 and |c| >= n, adds up
      c[i] times the i-th basis element for i = 0 .. n-1. */
  method SumBasisElements(x: real, t: seq<real>, c: seq<real>, k: nat, element: (seq<real>, real) -> real)
    returns (r: EvalResult)
    ensures NumCoefficients(t, k) < k + 1 || |c| < NumCoefficients(t, k) ==> r == Failed(AssertionFailed)
    ensures NumCoefficients(t, k) >= k + 1 && |c| >= NumCoefficients(t, k) ==>
      r == Value(Sum(ElementTerm(x, t, c, k, element), 0, NumCoefficients(t, k)))
  {
    var n := |t| - (k + 1);
    if n < k + 1 || |c| < n {
      return Failed(AssertionFailed);
    }
    var s := 0.0;
    var i := 0;
    while i < n
      invariant 0 <= i <= n
      invariant s == Sum(ElementTerm(x, t, c, k, element), 0, i)
    {
      var b := element(t[i..i + k + 2], x);
      s := s + c[i] * b;
      i := i + 1;
    }
    return Value(s);
  }

  /** When each basis element is the Cox-de Boor function of its own k+2
      knots, `_sum_basis_elements` computes the same sum as `_naive_eval_2`. */
  lemma {:induction false} SumBasisElementsIsGlobal(x: real, t: seq<real>, c: seq<real>, k: nat, element: (seq<real>, real) -> real)
    requires forall knots :: |knots| == k + 2 ==> element(knots, x) == NaiveB(x, k, 0, knots)
    ensures Sum(ElementTerm(x, t, c, k, element), 0, NumCoefficients(t, k)) == Sum(Term(x, t, c, k), 0, NumCoefficients(t, k))
  {
    var f, g := ElementTerm(x, t, c, k, element), Term(x, t, c, k);
    forall i | 0 <= i < NumCoefficients(t, k)
      ensures f(i) == g(i)
    {
      if i < |c| {
        NaiveBSlice(x, k, i, t, i, i + k + 2);
      }
    }
    SumCongruent(f, g, 0, NumCoefficients(t, k));
  }
}
