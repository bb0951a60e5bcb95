/** The contract of the `BSpline` constructor as the tests pin it down
    (`test_ctor`), and the legacy tuple view (t, c, k) of a spline
    (`test_indexing`, `test_unpacking`). The constructor's own code is not
    part of this model: the checks below are the ones the tests expect to
    fail, run fail-fast. */
module BSplineCtor {
  import opened BSplineBasis
  import opened BSplineEval

  /** One knot as the caller passes it. */
  datatype Knot = RealKnot(v: real) | ComplexKnot(re: real, im: real) | NaNKnot | PosInfKnot | NegInfKnot

  /** A flat knot list, or a nested (two-dimensional) one. */
  datatype KnotInput = Flat(knots: seq<Knot>) | Nested(rows: seq<seq<Knot>>)

  /** The degree as the caller passes it: an integer, a float or a string. */
  datatype DegreeInput = IntDegree(d: int) | FloatDegree(f: real) | TextDegree(s: string)

  datatype CtorError =
    | NotOneDimensional | ComplexKnots | NonFiniteKnots | DecreasingKnots
    | NonIntegerDegree | NegativeDegree | TooFewKnots | TooFewCoefficients
    | EmptyBaseInterval

  datatype Spline = Spline(t: seq<real>, c: seq<real>, k: nat)

  datatype CtorResult = Built(s: Spline) | Refused(e: CtorError)

  predicate AllReal(ks: seq<Knot>)
  {
    forall i :: 0 <= i < |ks| ==> ks[i].RealKnot?
  }

  function KnotValues(ks: seq<Knot>): (t: seq<real>)
    requires AllReal(ks)
    ensures |t| == |ks| && forall i :: 0 <= i < |ks| ==> t[i] == ks[i].v
  {
    seq(|ks|, i requires 0 <= i < |ks| => ks[i].v)
  }

  /** Some knot is larger than the one after it. */
  predicate HasDecrease(t: seq<real>)
  {
    exists i :: 0 <= i < |t| - 1 && t[i] > t[i + 1]
  }

  /** The constructor's checks in order: a one-dimensional vector of finite
      real knots, in non-decreasing order; a non-negative integer degree k;
      n = |t| - k - 1 >= k + 1 and at least n coefficients; and a base
      interval [t[k], t[n]] of positive length. The degree is checked before
      the counts because the counts are computed from it. */
  function Construct(t: KnotInput, c: seq<real>, k: DegreeInput): (r: CtorResult)
    ensures r.Built? ==> ValidSpline(r.s.t, r.s.c, r.s.k)
    ensures r.Built? ==> r.s.t[r.s.k] < r.s.t[NumCoefficients(r.s.t, r.s.k)]
    ensures r.Built? ==> t.Flat? && r.s.c == c && k == IntDegree(r.s.k)
  {
    if t.Nested? then Refused(NotOneDimensional)
    else if exists i :: 0 <= i < |t.knots| && t.knots[i].ComplexKnot? then Refused(ComplexKnots)
    else if !AllReal(t.knots) then Refused(NonFiniteKnots)
    else
      var ts := KnotValues(t.knots);
      if HasDecrease(ts) then Refused(DecreasingKnots)
      else if !k.IntDegree? then Refused(NonIntegerDegree)
      else if k.d < 0 then Refused(NegativeDegree)
      else
        var n := |ts| - k.d - 1;
        if n < k.d + 1 then Refused(TooFewKnots)
        else if |c| < n then Refused(TooFewCoefficients)
        else if ts[k.d] == ts[n] then Refused(EmptyBaseInterval)
        else
          AdjacentOrderIsOrder(ts);
          Ordered(ts, k.d, n);
          Built(Spline(ts, c, k.d))
  }

  /** No adjacent decrease means the whole vector is ordered. */
  lemma {:induction false} AdjacentOrderIsOrder(t: seq<real>)
    requires !HasDecrease(t)
    ensures NonDecreasing(t)
  {
    forall p, q | 0 <= p <= q < |t|
      ensures KnotsInOrder(t, p, q)
    {
      StepsAreOrdered(t, p, q);
    }
  }

  lemma {:induction false} StepsAreOrdered(t: seq<real>, p: nat, q: nat)
    requires !HasDecrease(t) && p <= q < |t|
    ensures t[p] <= t[q]
    decreases q - p
  {
    if p < q {
      StepsAreOrdered(t, p + 1, q);
      assert !(t[p] > t[p + 1]);
    }
  }

  /** The constructor builds a spline exactly when every requirement holds,
      whatever order the checks run in. */
  lemma {:induction false} ConstructAcceptsExactly(t: KnotInput, c: seq<real>, k: DegreeInput)
    ensures Construct(t, c, k).Built? <==>
      t.Flat? && AllReal(t.knots) && k.IntDegree? && k.d >= 0
      && var ts := KnotValues(t.knots);
         NonDecreasing(ts) && NumCoefficients(ts, k.d) >= k.d + 1 && |c| >= NumCoefficients(ts, k.d)
         && ts[k.d] < ts[NumCoefficients(ts, k.d)]
  {
    if t.Flat? && AllReal(t.knots) {
      var ts := KnotValues(t.knots);
      if NonDecreasing(ts) {
        forall i | 0 <= i < |ts| - 1
          ensures !(ts[i] > ts[i + 1])
        {
          Ordered(ts, i, i + 1);
        }
      } else {
        if !HasDecrease(ts) {
          AdjacentOrderIsOrder(ts);
        }
      }
      if k.IntDegree? && k.d >= 0 && NonDecreasing(ts) && NumCoefficients(ts, k.d) >= k.d + 1 {
        Ordered(ts, k.d, NumCoefficients(ts, k.d));
      }
    }
  }

  /** The knot vectors `test_ctor` expects the constructor to reject:
      complex, NaN, infinite, decreasing and two-dimensional knots. */
  lemma {:induction false} RejectedKnotVectors()
    ensures Construct(Flat([RealKnot(1.0), ComplexKnot(0.0, 1.0)]), [1.0], IntDegree(0)) == Refused(ComplexKnots)
    ensures Construct(Flat([RealKnot(1.0), NaNKnot]), [1.0], IntDegree(0)) == Refused(NonFiniteKnots)
    ensures Construct(Flat([RealKnot(1.0), PosInfKnot]), [1.0], IntDegree(0)) == Refused(NonFiniteKnots)
    ensures Construct(Flat([RealKnot(1.0), RealKnot(-1.0)]), [1.0], IntDegree(0)) == Refused(DecreasingKnots)
    ensures Construct(Nested([[RealKnot(1.0)], [RealKnot(1.0)]]), [1.0], IntDegree(0)) == Refused(NotOneDimensional)
  {
    var d := [RealKnot(1.0), RealKnot(-1.0)];
    assert KnotValues(d)[0] > KnotValues(d)[1];
  }

  /** The counts `test_ctor` expects the constructor to reject: three knots
      of degree 0 carry two coefficients, not one; five knots cannot carry
      a degree-2 spline (n = 2 < k + 1). */
  lemma {:induction false} RejectedCounts()
    ensures Construct(Flat([RealKnot(0.0), RealKnot(1.0), RealKnot(2.0)]), [1.0], IntDegree(0))
            == Refused(TooFewCoefficients)
    ensures Construct(Flat([RealKnot(0.0), RealKnot(1.0), RealKnot(2.0), RealKnot(3.0), RealKnot(4.0)]),
                      [1.0, 1.0], IntDegree(2)) == Refused(TooFewKnots)
  {
    var f := [RealKnot(0.0), RealKnot(1.0), RealKnot(2.0), RealKnot(3.0), RealKnot(4.0)];
    assert !HasDecrease(KnotValues(f)) by {
      assert KnotValues(f) == [0.0, 1.0, 2.0, 3.0, 4.0];
    }
    var e := [RealKnot(0.0), RealKnot(1.0), RealKnot(2.0)];
    assert !HasDecrease(KnotValues(e)) by {
      assert KnotValues(e) == [0.0, 1.0, 2.0];
    }
  }

  /** The degrees `test_ctor` expects the constructor to reject (a string
      and a non-integer float), and a base interval [t[2], t[3]] = [1, 1] of
      length zero. */
  lemma {:induction false} RejectedDegreesAndBaseInterval()
    ensures Construct(Flat([RealKnot(0.0), RealKnot(0.0), RealKnot(1.0), RealKnot(2.0), RealKnot(3.0), RealKnot(4.0)]),
                      [1.0, 1.0, 1.0], TextDegree("cubic")) == Refused(NonIntegerDegree)
    ensures Construct(Flat([RealKnot(0.0), RealKnot(0.0), RealKnot(1.0), RealKnot(2.0), RealKnot(3.0), RealKnot(4.0)]),
                      [1.0, 1.0, 1.0], FloatDegree(2.5)) == Refused(NonIntegerDegree)
    ensures Construct(Flat([RealKnot(0.0), RealKnot(0.0), RealKnot(1.0), RealKnot(1.0), RealKnot(2.0), RealKnot(3.0)]),
                      [1.0, 1.0, 1.0], IntDegree(2)) == Refused(EmptyBaseInterval)
  {
    var z := [RealKnot(0.0), RealKnot(0.0), RealKnot(1.0), RealKnot(1.0), RealKnot(2.0), RealKnot(3.0)];
    assert !HasDecrease(KnotValues(z)) by {
      assert KnotValues(z) == [0.0, 0.0, 1.0, 1.0, 2.0, 3.0];
    }
    var q := [RealKnot(0.0), RealKnot(0.0), RealKnot(1.0), RealKnot(2.0), RealKnot(3.0), RealKnot(4.0)];
    assert !HasDecrease(KnotValues(q)) by {
      assert KnotValues(q) == [0.0, 0.0, 1.0, 2.0, 3.0, 4.0];
    }
  }

  /** One entry of the tuple view. */
  datatype TupleItem = KnotsItem(t: seq<real>) | CoefficientsItem(c: seq<real>) | DegreeItem(k: nat)

  datatype IndexResult = Item(item: TupleItem) | IndexError

  /** spline[idx] in the tuple view (t, c, k): indices 0, 1, 2 and their
      negative forms -3, -2, -1; any other index is an IndexError. */
  function TupleIndex(s: Spline, idx: int): IndexResult
  {
    if idx < -3 || idx > 2 then IndexError
    else
      var j := if idx < 0 then idx + 3 else idx;
      if j == 0 then Item(KnotsItem(s.t))
      else if j == 1 then Item(CoefficientsItem(s.c))
      else Item(DegreeItem(s.k))
  }

  /** The tuple view succeeds exactly on -3 .. 2, a negative index names the
      same field as the index three higher, and the fields are t, c, k. */
  lemma {:induction false} TupleIndexContract(s: Spline, idx: int)
    ensures TupleIndex(s, idx).Item? <==> -3 <= idx <= 2
    ensures -3 <= idx < 0 ==> TupleIndex(s, idx) == TupleIndex(s, idx + 3)
    ensures TupleIndex(s, 0) == Item(KnotsItem(s.t))
    ensures TupleIndex(s, 1) == Item(CoefficientsItem(s.c))
    ensures TupleIndex(s, 2) == Item(DegreeItem(s.k))
  {
  }

  datatype UnpackResult = Unpacked(items: seq<TupleItem>) | UnpackError

  /** Unpacking the spline into `arity` targets: exactly three targets
      receive t, c and k; any other count is a ValueError. */
  function Unpack(s: Spline, arity: nat): (r: UnpackResult)
    ensures r.Unpacked? <==> arity == 3
    ensures r.Unpacked? ==>
      |r.items| == 3 && forall i :: 0 <= i < 3 ==> TupleIndex(s, i) == Item(r.items[i])
  {
    if arity == 3 then Unpacked([KnotsItem(s.t), CoefficientsItem(s.c), DegreeItem(s.k)])
    else UnpackError
  }
}
