/** The Cox-de Boor recurrence for B-spline basis functions, as the reference
    implementation `_naive_B` of the B-spline tests computes it, and the facts
    the tests rely on: local support, non-negativity, dependence on k+2 knots
    only, and partition of unity. All arithmetic is over exact reals. */
module BSplineBasis {
  import opened Sums

  /** Knots are ordered: a knot is at most every knot after it. */
  predicate NonDecreasing(t: seq<real>)
  {
    forall p, q :: 0 <= p <= q < |t| ==> KnotsInOrder(t, p, q)
  }

  predicate KnotsInOrder(t: seq<real>, p: nat, q: nat)
    requires p < |t| && q < |t|
  {
    t[p] <= t[q]
  }

  /** Reading the ordering off for one pair of knots. */
  lemma {:induction false} Ordered(t: seq<real>, p: nat, q: nat)
    requires NonDecreasing(t) && p <= q < |t|
    ensures t[p] <= t[q]
  {
    assert KnotsInOrder(t, p, q);
  }

  /** B(x; t[i], ..., t[i+k+1]), the i-th basis function of degree k.
      Degree 0 is the indicator of the half-open span [t[i], t[i+1]); for k > 0
      each of the two blended terms is zero when its knot span is empty, so no
      division by zero occurs. For ordered knots the value is never negative
      and vanishes outside [t[i], t[i+k+1]). */
  function NaiveB(x: real, k: nat, i: nat, t: seq<real>): real
    requires i + k + 1 < |t|
    decreases k
  {
    if k == 0 then
      (if t[i] <= x < t[i + 1] then 1.0 else 0.0)
    else
      Weighted(Ratio(x - t[i], t[i + k] - t[i]), NaiveB(x, k - 1, i, t))
      + Weighted(Ratio(t[i + k + 1] - x, t[i + k + 1] - t[i + 1]), NaiveB(x, k - 1, i + 1, t))
  }

  /** The blending weight num / span, taken as 0 when the knot span is empty:
      a term with an empty span contributes nothing and divides by nothing. */
  function Ratio(num: real, span: real): real
  {
    if span == 0.0 then 0.0 else num / span
  }

  /** A blending weight applied to a basis value of one degree lower. */
  function Weighted(w: real, b: real): real
  {
    w * b
  }

  /** Local support: for ordered knots B vanishes outside [t[i], t[i+k+1]). */
  lemma {:induction false} Support(x: real, k: nat, i: nat, t: seq<real>)
    requires NonDecreasing(t) && i + k + 1 < |t|
    requires x < t[i] || t[i + k + 1] <= x
    ensures NaiveB(x, k, i, t) == 0.0
    decreases k
  {
    if k > 0 {
      Ordered(t, i, i + 1);
      Ordered(t, i + k, i + k + 1);
      Support(x, k - 1, i, t);
      Support(x, k - 1, i + 1, t);
    }
  }

  /** For ordered knots every basis function is non-negative. */
  lemma {:induction false} NonNegative(x: real, k: nat, i: nat, t: seq<real>)
    requires NonDecreasing(t) && i + k + 1 < |t|
    ensures NaiveB(x, k, i, t) >= 0.0
    decreases k
  {
    if k > 0 {
      RiseFall(x, k, i, t);
      NonNegative(x, k - 1, i, t);
      NonNegative(x, k - 1, i + 1, t);
      RiseNonNegative(x, k, i, t);
      FallNonNegative(x, k, i, t);
    }
  }

  lemma {:induction false} RiseNonNegative(x: real, k: nat, i: nat, t: seq<real>)
    requires NonDecreasing(t) && k >= 1 && i + k + 1 < |t|
    requires NaiveB(x, k - 1, i, t) >= 0.0
    ensures Rise(x, k, i, t) >= 0.0
  {
    var b := NaiveB(x, k - 1, i, t);
    if x < t[i] || t[i + k] <= x {
      Support(x, k - 1, i, t);
    } else {
      RatioNonNegative(x - t[i], t[i + k] - t[i]);
      MulNonNegative(Ratio(x - t[i], t[i + k] - t[i]), b);
    }
  }

  lemma {:induction false} FallNonNegative(x: real, k: nat, i: nat, t: seq<real>)
    requires NonDecreasing(t) && k >= 1 && i + k + 1 < |t|
    requires NaiveB(x, k - 1, i + 1, t) >= 0.0
    ensures Fall(x, k, i, t) >= 0.0
  {
    var b := NaiveB(x, k - 1, i + 1, t);
    if x < t[i + 1] || t[i + k + 1] <= x {
      Support(x, k - 1, i + 1, t);
    } else {
      RatioNonNegative(t[i + k + 1] - x, t[i + k + 1] - t[i + 1]);
      MulNonNegative(Ratio(t[i + k + 1] - x, t[i + k + 1] - t[i + 1]), b);
    }
  }

  lemma {:induction false} RatioNonNegative(num: real, span: real)
    requires num >= 0.0 && span >= 0.0
    ensures Ratio(num, span) >= 0.0
  {
  }

  lemma {:induction false} ComplementaryRatios(a: real, b: real, d: real)
    requires d != 0.0 && a + b == d
    ensures Ratio(a, d) + Ratio(b, d) == 1.0
  {
    assert a / d + b / d == (a + b) / d;
  }

  lemma {:induction false} MulNonNegative(a: real, b: real)
    requires a >= 0.0 && b >= 0.0
    ensures Weighted(a, b) >= 0.0
  {
  }

  /** The rising term of the recurrence (the first blended term). */
  function Rise(x: real, k: nat, i: nat, t: seq<real>): real
    requires k >= 1 && i + k + 1 < |t|
  {
    Weighted(Ratio(x - t[i], t[i + k] - t[i]), NaiveB(x, k - 1, i, t))
  }

  /** The falling term of the recurrence (the second blended term). */
  function Fall(x: real, k: nat, i: nat, t: seq<real>): real
    requires k >= 1 && i + k + 1 < |t|
  {
    Weighted(Ratio(t[i + k + 1] - x, t[i + k + 1] - t[i + 1]), NaiveB(x, k - 1, i + 1, t))
  }

  lemma {:induction false} RiseFall(x: real, k: nat, i: nat, t: seq<real>)
    requires k >= 1 && i + k + 1 < |t|
    ensures NaiveB(x, k, i, t) == Rise(x, k, i, t) + Fall(x, k, i, t)
  {
  }

  /** The falling term of B_i and the rising term of B_{i+1} share the knot
      span [t[i+1], t[i+k+1]] and their weights add up to one there. */
  lemma {:induction false} FallRiseShare(x: real, k: nat, i: nat, t: seq<real>)
    requires NonDecreasing(t)
    requires k >= 1 && i + k + 2 < |t|
    ensures Fall(x, k, i, t) + Rise(x, k, i + 1, t) == NaiveB(x, k - 1, i + 1, t)
  {
    var b := NaiveB(x, k - 1, i + 1, t);
    var d := t[i + k + 1] - t[i + 1];
    if d != 0.0 {
      ComplementaryRatios(t[i + k + 1] - x, x - t[i + 1], d);
      WeightsShare(Ratio(t[i + k + 1] - x, d), Ratio(x - t[i + 1], d), b);
    } else {
      Support(x, k - 1, i + 1, t);
    }
  }

  lemma {:induction false} WeightsShare(v: real, w: real, b: real)
    requires v + w == 1.0
    ensures Weighted(v, b) + Weighted(w, b) == b
  {
    assert v * b + w * b == (v + w) * b;
  }

  /** Ordered knots: B with index i on the whole vector is the basis element
      built from the k+2 knots t[i..i+k+2] alone (or any window around them). */
  lemma {:induction false} NaiveBSlice(x: real, k: nat, i: nat, t: seq<real>, s: nat, e: nat)
    requires s <= i && i + k + 2 <= e <= |t|
    ensures NaiveB(x, k, i, t) == NaiveB(x, k, i - s, t[s..e])
    decreases k
  {
    if k > 0 {
      NaiveBSlice(x, k - 1, i, t, s, e);
      NaiveBSlice(x, k - 1, i + 1, t, s, e);
    }
  }

  /** The basis functions of degree k, as a term of a sum over their index. */
  function Basis(x: real, t: seq<real>, k: nat): int -> real
  {
    i => if 0 <= i && i + k + 1 < |t| then NaiveB(x, k, i, t) else 0.0
  }

  /** The rising term of B_i is zero from t[i+k] on. */
  lemma {:induction false} RiseVanishes(x: real, k: nat, i: nat, t: seq<real>)
    requires NonDecreasing(t)
    requires k >= 1 && i + k + 1 < |t| && t[i + k] <= x
    ensures Rise(x, k, i, t) == 0.0
  {
    Support(x, k - 1, i, t);
  }

  /** The falling term of B_i is zero before t[i+1]. */
  lemma {:induction false} FallVanishes(x: real, k: nat, i: nat, t: seq<real>)
    requires NonDecreasing(t)
    requires k >= 1 && i + k + 1 < |t| && x < t[i + 1]
    ensures Fall(x, k, i, t) == 0.0
  {
    Support(x, k - 1, i + 1, t);
  }

  /** The rising and falling terms of the degree-k basis functions, indexed
      like `Basis`. */
  function RiseTerm(x: real, t: seq<real>, k: nat): int -> real
    requires k >= 1
  {
    i => if 0 <= i && i + k + 1 < |t| then Rise(x, k, i, t) else 0.0
  }

  function FallTerm(x: real, t: seq<real>, k: nat): int -> real
    requires k >= 1
  {
    i => if 0 <= i && i + k + 1 < |t| then Fall(x, k, i, t) else 0.0
  }

  lemma {:induction false} TermSplits(x: real, t: seq<real>, k: nat, i: int)
    requires k >= 1
    ensures Basis(x, t, k)(i) == RiseTerm(x, t, k)(i) + FallTerm(x, t, k)(i)
  {
    if 0 <= i && i + k + 1 < |t| {
      RiseFall(x, k, i, t);
    }
  }

  lemma {:induction false} TermsJoin(x: real, t: seq<real>, k: nat, j: int)
    requires NonDecreasing(t)
    requires k >= 1 && 0 < j && j + k + 1 < |t|
    ensures FallTerm(x, t, k)(j - 1) + RiseTerm(x, t, k)(j) == Basis(x, t, k - 1)(j)
  {
    FallRiseShare(x, k, j - 1, t);
  }

  /** At its own first knot a basis function is zero unless that knot is
      repeated k+1 times: if t[i] == x < t[i+k], then B_i(x) == 0. */
  lemma {:induction false} LeftEndVanishes(x: real, k: nat, i: nat, t: seq<real>)
    requires NonDecreasing(t) && i + k + 1 < |t|
    requires t[i] == x < t[i + k]
    ensures NaiveB(x, k, i, t) == 0.0
    decreases k
  {
    RiseFall(x, k, i, t);
    assert Rise(x, k, i, t) == 0.0;
    Ordered(t, i, i + 1);
    if x < t[i + 1] {
      FallVanishes(x, k, i, t);
    } else {
      Ordered(t, i + 1, i + k);
      LeftEndVanishes(x, k - 1, i + 1, t);
    }
  }

  /** Summing degree-k basis functions over [a, b) telescopes down to the
      degree k-1 functions strictly inside, plus the two boundary terms. */
  lemma {:induction false} Telescope(x: real, t: seq<real>, k: nat, a: nat, b: nat)
    requires NonDecreasing(t)
    requires k >= 1 && a < b && b + k < |t|
    ensures Sum(Basis(x, t, k), a, b)
            == Rise(x, k, a, t) + Sum(Basis(x, t, k - 1), a + 1, b) + Fall(x, k, b - 1, t)
  {
    var r, s := RiseTerm(x, t, k), FallTerm(x, t, k);
    var f, g := Basis(x, t, k), Basis(x, t, k - 1);
    forall i {:trigger f(i)} | a <= i < b
      ensures f(i) == r(i) + s(i)
    {
      TermSplits(x, t, k, i);
    }
    forall j {:trigger g(j)} | a < j < b
      ensures s(j - 1) + r(j) == g(j)
    {
      TermsJoin(x, t, k, j);
    }
    SumTelescope(f, g, r, s, a, b);
  }

  /** Partition of unity: on a nonempty knot span [t[left], t[left+1]) the
      k+1 basis functions that can be nonzero there add up to exactly one. */
  lemma {:induction false} PartitionOfUnity(x: real, t: seq<real>, k: nat, left: nat)
    requires NonDecreasing(t)
    requires k <= left && left + k + 1 < |t|
    requires t[left] <= x < t[left + 1]
    ensures Sum(Basis(x, t, k), left - k, left + 1) == 1.0
    decreases k
  {
    if k == 0 {
      assert Sum(Basis(x, t, 0), left, left + 1) == Basis(x, t, 0)(left);
    } else {
      Telescope(x, t, k, left - k, left + 1);
      RiseVanishes(x, k, left - k, t);
      FallVanishes(x, k, left, t);
      PartitionOfUnity(x, t, k - 1, left);
    }
  }

  /** Every basis function is at most one, wherever the span is nonempty. */
  lemma {:induction false} BasisAtMostOne(x: real, t: seq<real>, k: nat, i: nat, left: nat)
    requires NonDecreasing(t)
    requires k <= left && left + k + 1 < |t|
    requires t[left] <= x < t[left + 1]
    requires left - k <= i <= left
    ensures NaiveB(x, k, i, t) <= 1.0
  {
    var f := Basis(x, t, k);
    PartitionOfUnity(x, t, k, left);
    SumSplit(f, left - k, i, left + 1);
    SumPrepend(f, i, left + 1);
    SumNonNegative(x, t, k, left - k, i);
    SumNonNegative(x, t, k, i + 1, left + 1);
  }

  lemma {:induction false} SumNonNegative(x: real, t: seq<real>, k: nat, a: int, b: int)
    requires NonDecreasing(t)
    ensures Sum(Basis(x, t, k), a, b) >= 0.0
    decreases b - a
  {
    if a < b {
      SumNonNegative(x, t, k, a, b - 1);
      if 0 <= b - 1 && b + k < |t| {
        NonNegative(x, k, b - 1, t);
      }
    }
  }

  /** The linear B-spline B(x | 0, 1, 2) written out piece by piece
      (the helper `B_012`). */
  function B012(x: real): (r: real)
    ensures 0.0 <= r <= 1.0
    ensures r == 1.0 <==> x == 1.0
    ensures x <= 0.0 || 2.0 <= x ==> r == 0.0
  {
    if x < 0.0 || x > 2.0 then 0.0
    else if x < 1.0 then x
    else 2.0 - x
  }

  /** The degree-1 basis functions on the integer knots 0, 1, 2, 3, 4 are
      translates of B_012 (the check in `test_degree_1`). */
  lemma {:induction false} IntegerKnotsLinear(x: real, i: nat)
    requires i <= 2
    ensures NaiveB(x, 1, i, [0.0, 1.0, 2.0, 3.0, 4.0]) == B012(x - i as real)
  {
  }

  /** Why `B_012` was rejected: the derivative order `der` of `B_0123`. */
  datatype PieceError = NeverBeHere(der: int)

  datatype PieceResult = Piece(v: real) | Raised(e: PieceError)

  /** The quadratic B-spline B(x | 0, 1, 2, 3) and its second derivative,
      piece by piece, as the helper `B_0123` builds them with `np.piecewise`:
      the conditions are x < 1, 1 < x < 2 and x > 2, and a point covered by
      none of them (x == 1 or x == 2) gets 0. The outer pieces continue past
      0 and 3, matching an extrapolating basis element. Only der 0 and 2 are
      supported. */
  function B0123(x: real, der: int): (r: PieceResult)
    ensures r.Raised? <==> der != 0 && der != 2
    ensures (x == 1.0 || x == 2.0) && r.Piece? ==> r.v == 0.0
  {
    if der == 0 then
      Piece(if x < 1.0 then x * x / 2.0
            else if 1.0 < x < 2.0 then 3.0 / 4.0 - (x - 3.0 / 2.0) * (x - 3.0 / 2.0)
            else if x > 2.0 then (3.0 - x) * (3.0 - x) / 2.0
            else 0.0)
    else if der == 2 then
      Piece(if x < 1.0 then 1.0 else if 1.0 < x < 2.0 then -2.0 else if x > 2.0 then 1.0 else 0.0)
    else
      Raised(NeverBeHere(der))
  }

  /** Inside (0, 3), away from the two interior knots, `B_0123` agrees with
      the Cox-de Boor basis element on the knots 0, 1, 2, 3. */
  lemma {:induction false} QuadraticBasisElement(x: real)
    requires 0.0 <= x < 3.0 && x != 1.0 && x != 2.0
    ensures B0123(x, 0) == Piece(NaiveB(x, 2, 0, [0.0, 1.0, 2.0, 3.0]))
  {
    var t := [0.0, 1.0, 2.0, 3.0];
    var b0, b1 := NaiveB(x, 1, 0, t), NaiveB(x, 1, 1, t);
    LinearOnUnitKnots(x);
    assert NaiveB(x, 2, 0, t) == Weighted(Ratio(x, 2.0), b0) + Weighted(Ratio(3.0 - x, 2.0), b1);
    QuadraticPieces(x, b0, b1);
  }

  /** The two degree-1 functions on the knots 0, 1, 2, 3, piece by piece. */
  lemma {:induction false} LinearOnUnitKnots(x: real)
    requires 0.0 <= x < 3.0
    ensures NaiveB(x, 1, 0, [0.0, 1.0, 2.0, 3.0]) ==
      (if x < 1.0 then x else if x < 2.0 then 2.0 - x else 0.0)
    ensures NaiveB(x, 1, 1, [0.0, 1.0, 2.0, 3.0]) ==
      (if x < 1.0 then 0.0 else if x < 2.0 then x - 1.0 else 3.0 - x)
  {
  }

  lemma {:induction false} QuadraticPieces(x: real, b0: real, b1: real)
    requires 0.0 <= x < 3.0 && x != 1.0 && x != 2.0
    requires b0 == (if x < 1.0 then x else if x < 2.0 then 2.0 - x else 0.0)
    requires b1 == (if x < 1.0 then 0.0 else if x < 2.0 then x - 1.0 else 3.0 - x)
    ensures B0123(x, 0) == Piece(Weighted(Ratio(x, 2.0), b0) + Weighted(Ratio(3.0 - x, 2.0), b1))
  {
  }

  /** At the knot x = 1 the basis element is 1/2 while `B_0123` gives 0: the
      piecewise conditions leave the interior knots uncovered. The test grid
      linspace(-1, 4, 20) never hits 1 or 2. */
  lemma {:induction false} QuadraticAtInteriorKnot()
    ensures NaiveB(1.0, 2, 0, [0.0, 1.0, 2.0, 3.0]) == 0.5
    ensures B0123(1.0, 0) == Piece(0.0)
  {
    var t := [0.0, 1.0, 2.0, 3.0];
    assert NaiveB(1.0, 1, 0, t) == 1.0;
    assert NaiveB(1.0, 1, 1, t) == 0.0;
  }

  /** The second-derivative table of `B_0123` is consistent with its value
      table: on each piece a central second difference with any step h is
      exactly the tabulated second derivative times h^2. */
  lemma {:induction false} QuadraticPiecesSecondDifference(x: real, h: real)
    requires h > 0.0
    ensures x + h < 1.0 ==>
      B0123(x + h, 0).v - 2.0 * B0123(x, 0).v + B0123(x - h, 0).v == B0123(x, 2).v * h * h
    ensures 1.0 < x - h && x + h < 2.0 ==>
      B0123(x + h, 0).v - 2.0 * B0123(x, 0).v + B0123(x - h, 0).v == B0123(x, 2).v * h * h
    ensures 2.0 < x - h ==>
      B0123(x + h, 0).v - 2.0 * B0123(x, 0).v + B0123(x - h, 0).v == B0123(x, 2).v * h * h
  {
  }
}
