/** The central finite-difference derivative: the argument checks, the
    tabulated weight vectors, and the loop that samples the function at
    order equally spaced points x0 + j*dx, j = -ho .. ho, ho = order / 2.
    The function is a parameter; the weights for an untabulated
    (derivative order, point count) come from a parameter standing for
    `central_diff_weights` after its checks (which inverts a Vandermonde
    matrix). */
module FiniteDiff {
  import opened Wrappers

  datatype DiffError = TooFewPoints | EvenPointCount

  /** The check both `central_diff_weights(Np, ndiv)` and `derivative(...,
      n, order)` run, with (points, deriv) = (Np, ndiv) or (order, n): at
      least deriv + 1 points, then an odd number of them. For a positive
      divisor Python's % and Dafny's agree. */
  function PointCountCheck(points: int, deriv: int): (r: Option<DiffError>)
    ensures r.None? <==> points >= deriv + 1 && points % 2 == 1
    ensures r == Some(TooFewPoints) <==> points < deriv + 1
    ensures r == Some(EvenPointCount) <==> points >= deriv + 1 && points % 2 == 0
  {
    if points < deriv + 1 then Some(TooFewPoints)
    else if points % 2 == 0 then Some(EvenPointCount)
    else None
  }

  function Power(b: real, e: nat): real
  {
    if e == 0 then 1.0 else b * Power(b, e - 1)
  }

  lemma {:induction false} PowerNonZero(b: real, e: nat)
    requires b != 0.0
    ensures Power(b, e) != 0.0
  {
    if e > 0 {
      PowerNonZero(b, e - 1);
    }
  }

  function Factorial(n: nat): nat
  {
    if n == 0 then 1 else n * Factorial(n - 1)
  }

  /** w[0]*g(-ho) + ... + w[k-1]*g(k-1-ho) with ho = |w| / 2, added left
      to right. */
  function WeightedSum(w: seq<real>, g: int -> real, k: nat): real
    requires k <= |w|
  {
    if k == 0 then 0.0 else WeightedSum(w, g, k - 1) + w[k - 1] * g(k - 1 - |w| / 2)
  }

  /** j |-> j^p. */
  function PowerOf(p: nat): int -> real
  {
    j => Power(j as real, p)
  }

  /** The p-th moment of a stencil: the sum of w[k] * (k - ho)^p. */
  function Moment(w: seq<real>, p: nat): real
  {
    WeightedSum(w, PowerOf(p), |w|)
  }

  /** The weights of the np-point central formula for the deriv-th
      derivative: deriv! times row deriv of the inverse of the matrix
      whose entry (i, p) is (i - ho)^p, i.e. the moments 0 .. np-1 are
      all 0 except the deriv-th, which is deriv!. */
  predicate CentralWeights(w: seq<real>, np: nat, deriv: nat)
  {
    |w| == np && forall p :: 0 <= p < np ==> Moment(w, p) == if p == deriv then Factorial(deriv) as real else 0.0
  }

  /** The weights tabulated for n = 1, 2 and order = 3, 5, 7, 9. */
  function Tabulated(n: nat, order: int): (r: Option<seq<real>>)
    ensures r.Some? <==> (n == 1 || n == 2) && (order == 3 || order == 5 || order == 7 || order == 9)
    ensures r.Some? ==> |r.value| == order
  {
    if n == 1 then
      if order == 3 then Some([-1.0 / 2.0, 0.0, 1.0 / 2.0])
      else if order == 5 then Some([1.0 / 12.0, -8.0 / 12.0, 0.0, 8.0 / 12.0, -1.0 / 12.0])
      else if order == 7 then
        Some([-1.0 / 60.0, 9.0 / 60.0, -45.0 / 60.0, 0.0, 45.0 / 60.0, -9.0 / 60.0, 1.0 / 60.0])
      else if order == 9 then
        Some([3.0 / 840.0, -32.0 / 840.0, 168.0 / 840.0, -672.0 / 840.0, 0.0,
              672.0 / 840.0, -168.0 / 840.0, 32.0 / 840.0, -3.0 / 840.0])
      else None
    else if n == 2 then
      if order == 3 then Some([1.0, -2.0, 1.0])
      else if order == 5 then Some([-1.0 / 12.0, 16.0 / 12.0, -30.0 / 12.0, 16.0 / 12.0, -1.0 / 12.0])
      else if order == 7 then
        Some([2.0 / 180.0, -27.0 / 180.0, 270.0 / 180.0, -490.0 / 180.0, 270.0 / 180.0, -27.0 / 180.0, 2.0 / 180.0])
      else if order == 9 then
        Some([-9.0 / 5040.0, 128.0 / 5040.0, -1008.0 / 5040.0, 8064.0 / 5040.0, -14350.0 / 5040.0,
              8064.0 / 5040.0, -1008.0 / 5040.0, 128.0 / 5040.0, -9.0 / 5040.0])
      else None
    else None
  }

  /** The weights `derivative` uses: the table where it has an entry,
      otherwise `central_diff_weights(order, n)`. */
  function Weights(n: nat, order: int, general: (int, nat) -> seq<real>): (w: seq<real>)
    ensures GeneralFits(general, n, order) && PointCountCheck(order, n).None? ==> |w| == order
  {
    if Tabulated(n, order).Some? then Tabulated(n, order).value else general(order, n)
  }

  /** Where `derivative` falls back on `central_diff_weights(order, n)`
      (its checks passed and the table has no entry), that call returns one
      weight per point. */
  predicate GeneralFits(general: (int, nat) -> seq<real>, n: nat, order: int)
  {
    PointCountCheck(order, n).None? && Tabulated(n, order).None? ==> |general(order, n)| == order
  }

  datatype DerivResult = Derived(v: real) | NonFinite | Refused(e: DiffError)

  /** The position of sample k: x0 + (k - ho)*dx. */
  function SamplePoint(x0: real, dx: real, j: int): real
  {
    x0 + j as real * dx
  }

  /** j |-> func(x0 + j*dx). */
  function Samples(func: real -> real, x0: real, dx: real): int -> real
  {
    j => func(SamplePoint(x0, dx, j))
  }

  /** The value `derivative` returns: the checks, then the weighted sum of
      the samples divided by dx^n (a division by zero when dx == 0 and
      n >= 1, which gives a non-finite float). */
  function DerivativeValue(func: real -> real, x0: real, dx: real, n: nat, order: int,
                           general: (int, nat) -> seq<real>): (r: DerivResult)
    requires GeneralFits(general, n, order)
    ensures r.Refused? <==> PointCountCheck(order, n).Some?
    ensures r.NonFinite? <==> PointCountCheck(order, n).None? && dx == 0.0 && n >= 1
  {
    match PointCountCheck(order, n)
    case Some(e) => Refused(e)
    case None =>
      var w := Weights(n, order, general);
      if dx == 0.0 && n >= 1 then NonFinite
      else
        assert Power(dx, n) != 0.0 by {
          if n > 0 { PowerNonZero(dx, n); }
        }
        Derived(WeightedSum(w, Samples(func, x0, dx), order) / Power(dx, n))
  }

  /** The accumulation loop of `derivative`: val += weights[k] *
      func(x0 + (k - ho)*dx) for k = 0 .. order-1, with ho = order >> 1. */
  method StencilSum(func: real -> real, x0: real, dx: real, weights: seq<real>) returns (val: real)
    ensures val == WeightedSum(weights, Samples(func, x0, dx), |weights|)
  {
    val := 0.0;
    var ho := |weights| / 2;
    var k := 0;
    while k < |weights|
      invariant 0 <= k <= |weights|
      invariant val == WeightedSum(weights, Samples(func, x0, dx), k)
    {
      assert Samples(func, x0, dx)(k - ho) == func(SamplePoint(x0, dx, k - ho));
      val := val + weights[k] * func(x0 + (k - ho) as real * dx);
      k := k + 1;
    }
  }

  /** dx**n, by repeated multiplication. */
  method RaisePower(dx: real, n: nat) returns (scale: real)
    ensures scale == Power(dx, n)
  {
    scale := 1.0;
    var i := 0;
    while i < n
      invariant 0 <= i <= n
      invariant scale == Power(dx, i)
    {
      scale := scale * dx;
      i := i + 1;
    }
  }

  /** `derivative`: the checks, the accumulation loop, then the division
      by dx^n. */
  method Derivative(func: real -> real, x0: real, dx: real, n: nat, order: int,
                    general: (int, nat) -> seq<real>) returns (r: DerivResult)
    requires GeneralFits(general, n, order)
    ensures r == DerivativeValue(func, x0, dx, n, order, general)
  {
    if order < n + 1 {
      return Refused(TooFewPoints);
    }
    if order % 2 == 0 {
      return Refused(EvenPointCount);
    }
    assert PointCountCheck(order, n).None?;
    var weights := Weights(n, order, general);
    var val := StencilSum(func, x0, dx, weights);
    if dx == 0.0 && n >= 1 {
      return NonFinite;
    }
    var scale := RaisePower(dx, n);
    if n > 0 {
      PowerNonZero(dx, n);
    }
    return Derived(val / scale);
  }

  /** The sample offsets j = k - ho run from -ho to ho and pair up
      symmetrically around x0: sample k and sample order-1-k are
      x0 - j*dx and x0 + j*dx. */
  lemma {:induction false} SamplesSymmetric(x0: real, dx: real, order: nat, k: nat)
    requires order % 2 == 1 && k < order
    ensures -(order / 2) <= k - order / 2 <= order / 2
    ensures SamplePoint(x0, dx, k - order / 2) - x0 == x0 - SamplePoint(x0, dx, (order - 1 - k) - order / 2)
  {
  }

  lemma {:induction false} Expand3(w: seq<real>, g: int -> real)
    requires |w| == 3
    ensures WeightedSum(w, g, 3) == w[0] * g(-1) + w[1] * g(0) + w[2] * g(1)
  {
    assert WeightedSum(w, g, 1) == w[0] * g(-1);
  }

  lemma {:induction false} Expand5(w: seq<real>, g: int -> real)
    requires |w| == 5
    ensures WeightedSum(w, g, 5) == w[0] * g(-2) + w[1] * g(-1) + w[2] * g(0) + w[3] * g(1) + w[4] * g(2)
  {
    assert WeightedSum(w, g, 1) == w[0] * g(-2);
    assert WeightedSum(w, g, 2) == WeightedSum(w, g, 1) + w[1] * g(-1);
    assert WeightedSum(w, g, 3) == WeightedSum(w, g, 2) + w[2] * g(0);
  }

  lemma {:induction false} Expand7(w: seq<real>, g: int -> real)
    requires |w| == 7
    ensures WeightedSum(w, g, 7) == w[0] * g(-3) + w[1] * g(-2) + w[2] * g(-1) + w[3] * g(0)
      + w[4] * g(1) + w[5] * g(2) + w[6] * g(3)
  {
    assert WeightedSum(w, g, 1) == w[0] * g(-3);
    assert WeightedSum(w, g, 2) == WeightedSum(w, g, 1) + w[1] * g(-2);
    assert WeightedSum(w, g, 3) == WeightedSum(w, g, 2) + w[2] * g(-1);
    assert WeightedSum(w, g, 4) == WeightedSum(w, g, 3) + w[3] * g(0);
    assert WeightedSum(w, g, 5) == WeightedSum(w, g, 4) + w[4] * g(1);
  }

  lemma {:induction false} Expand9(w: seq<real>, g: int -> real)
    requires |w| == 9
    ensures WeightedSum(w, g, 9) == w[0] * g(-4) + w[1] * g(-3) + w[2] * g(-2) + w[3] * g(-1)
      + w[4] * g(0) + w[5] * g(1) + w[6] * g(2) + w[7] * g(3) + w[8] * g(4)
  {
    assert WeightedSum(w, g, 1) == w[0] * g(-4);
    assert WeightedSum(w, g, 2) == WeightedSum(w, g, 1) + w[1] * g(-3);
    assert WeightedSum(w, g, 3) == WeightedSum(w, g, 2) + w[2] * g(-2);
    assert WeightedSum(w, g, 4) == WeightedSum(w, g, 3) + w[3] * g(-1);
    assert WeightedSum(w, g, 5) == WeightedSum(w, g, 4) + w[4] * g(0);
    assert WeightedSum(w, g, 6) == WeightedSum(w, g, 5) + w[5] * g(1);
    assert WeightedSum(w, g, 7) == WeightedSum(w, g, 6) + w[6] * g(2);
  }

  lemma {:induction false} MomentExpand3(w: seq<real>, p: nat)
    requires |w| == 3
    ensures Moment(w, p) == w[0] * Power(-1.0, p) + w[1] * Power(0.0, p) + w[2] * Power(1.0, p)
  {
    Expand3(w, PowerOf(p));
  }

  lemma {:induction false} MomentExpand5(w: seq<real>, p: nat)
    requires |w| == 5
    ensures Moment(w, p) == w[0] * Power(-2.0, p) + w[1] * Power(-1.0, p) + w[2] * Power(0.0, p) + w[3] * Power(1.0, p) + w[4] * Power(2.0, p)
  {
    Expand5(w, PowerOf(p));
  }

  lemma {:induction false} MomentExpand7(w: seq<real>, p: nat)
    requires |w| == 7
    ensures Moment(w, p) == w[0] * Power(-3.0, p) + w[1] * Power(-2.0, p) + w[2] * Power(-1.0, p) + w[3] * Power(0.0, p) + w[4] * Power(1.0, p) + w[5] * Power(2.0, p) + w[6] * Power(3.0, p)
  {
    Expand7(w, PowerOf(p));
  }

  lemma {:induction false} MomentExpand9(w: seq<real>, p: nat)
    requires |w| == 9
    ensures Moment(w, p) == w[0] * Power(-4.0, p) + w[1] * Power(-3.0, p) + w[2] * Power(-2.0, p) + w[3] * Power(-1.0, p) + w[4] * Power(0.0, p) + w[5] * Power(1.0, p) + w[6] * Power(2.0, p) + w[7] * Power(3.0, p) + w[8] * Power(4.0, p)
  {
    Expand9(w, PowerOf(p));
  }

  lemma {:induction false} Table1x3Central()
    ensures CentralWeights(Tabulated(1, 3).value, 3, 1)
  {
    var w := Tabulated(1, 3).value;
    forall p | 0 <= p < 3
      ensures Moment(w, p) == if p == 1 then Factorial(1) as real else 0.0
    {
      if p == 0 { MomentExpand3(w, 0); } else if p == 1 { MomentExpand3(w, 1); } else { MomentExpand3(w, 2); }
    }
  }

  lemma {:induction false} Table1x5Central()
    ensures CentralWeights(Tabulated(1, 5).value, 5, 1)
  {
    var w := Tabulated(1, 5).value;
    forall p | 0 <= p < 5
      ensures Moment(w, p) == if p == 1 then Factorial(1) as real else 0.0
    {
      if p == 0 { MomentExpand5(w, 0); } else if p == 1 { MomentExpand5(w, 1); } else if p == 2 { MomentExpand5(w, 2); } else if p == 3 { MomentExpand5(w, 3); } else { MomentExpand5(w, 4); }
    }
  }

  lemma {:induction false} Table1x7Central()
    ensures CentralWeights(Tabulated(1, 7).value, 7, 1)
  {
    var w := Tabulated(1, 7).value;
    forall p | 0 <= p < 7
      ensures Moment(w, p) == if p == 1 then Factorial(1) as real else 0.0
    {
      if p == 0 { MomentExpand7(w, 0); } else if p == 1 { MomentExpand7(w, 1); } else if p == 2 { MomentExpand7(w, 2); } else if p == 3 { MomentExpand7(w, 3); } else if p == 4 { MomentExpand7(w, 4); } else if p == 5 { MomentExpand7(w, 5); } else { MomentExpand7(w, 6); }
    }
  }

  lemma {:induction false} Table1x9LowMoments()
    ensures forall p :: 0 <= p < 4 ==> Moment(Tabulated(1, 9).value, p) == if p == 1 then Factorial(1) as real else 0.0
  {
    var w := Tabulated(1, 9).value;
    forall p | 0 <= p < 4
      ensures Moment(w, p) == if p == 1 then Factorial(1) as real else 0.0
    {
      if p == 0 { MomentExpand9(w, 0); } else if p == 1 { MomentExpand9(w, 1); } else if p == 2 { MomentExpand9(w, 2); } else { MomentExpand9(w, 3); }
    }
  }

  lemma {:induction false} Table1x9MiddleMoments()
    ensures forall p :: 4 <= p < 6 ==> Moment(Tabulated(1, 9).value, p) == if p == 1 then Factorial(1) as real else 0.0
  {
    var w := Tabulated(1, 9).value;
    forall p | 4 <= p < 6
      ensures Moment(w, p) == if p == 1 then Factorial(1) as real else 0.0
    {
      if p == 4 { MomentExpand9(w, 4); } else { MomentExpand9(w, 5); }
    }
  }

  lemma {:induction false} Table1x9HighMoments()
    ensures forall p :: 6 <= p < 8 ==> Moment(Tabulated(1, 9).value, p) == if p == 1 then Factorial(1) as real else 0.0
  {
    var w := Tabulated(1, 9).value;
    forall p | 6 <= p < 8
      ensures Moment(w, p) == if p == 1 then Factorial(1) as real else 0.0
    {
      if p == 6 { MomentExpand9(w, 6); } else { MomentExpand9(w, 7); }
    }
  }

  lemma {:induction false} Table1x9TopMoments()
    ensures Moment(Tabulated(1, 9).value, 8) == 0.0
  {
    var w := Tabulated(1, 9).value;
    MomentExpand9(w, 8);
  }

  lemma {:induction false} Table1x9Central()
    ensures CentralWeights(Tabulated(1, 9).value, 9, 1)
  {
    Table1x9LowMoments();
    Table1x9MiddleMoments();
    Table1x9HighMoments();
    Table1x9TopMoments();
  }

  lemma {:induction false} Table2x3Central()
    ensures CentralWeights(Tabulated(2, 3).value, 3, 2)
  {
    var w := Tabulated(2, 3).value;
    forall p | 0 <= p < 3
      ensures Moment(w, p) == if p == 2 then Factorial(2) as real else 0.0
    {
      if p == 0 { MomentExpand3(w, 0); } else if p == 1 { MomentExpand3(w, 1); } else { MomentExpand3(w, 2); }
    }
  }

  lemma {:induction false} Table2x5Central()
    ensures CentralWeights(Tabulated(2, 5).value, 5, 2)
  {
    var w := Tabulated(2, 5).value;
    forall p | 0 <= p < 5
      ensures Moment(w, p) == if p == 2 then Factorial(2) as real else 0.0
    {
      if p == 0 { MomentExpand5(w, 0); } else if p == 1 { MomentExpand5(w, 1); } else if p == 2 { MomentExpand5(w, 2); } else if p == 3 { MomentExpand5(w, 3); } else { MomentExpand5(w, 4); }
    }
  }

  lemma {:induction false} Table2x7Central()
    ensures CentralWeights(Tabulated(2, 7).value, 7, 2)
  {
    var w := Tabulated(2, 7).value;
    forall p | 0 <= p < 7
      ensures Moment(w, p) == if p == 2 then Factorial(2) as real else 0.0
    {
      if p == 0 { MomentExpand7(w, 0); } else if p == 1 { MomentExpand7(w, 1); } else if p == 2 { MomentExpand7(w, 2); } else if p == 3 { MomentExpand7(w, 3); } else if p == 4 { MomentExpand7(w, 4); } else if p == 5 { MomentExpand7(w, 5); } else { MomentExpand7(w, 6); }
    }
  }

  lemma {:induction false} Table2x9LowMoments()
    ensures forall p :: 0 <= p < 4 ==> Moment(Tabulated(2, 9).value, p) == if p == 2 then Factorial(2) as real else 0.0
  {
    var w := Tabulated(2, 9).value;
    forall p | 0 <= p < 4
      ensures Moment(w, p) == if p == 2 then Factorial(2) as real else 0.0
    {
      if p == 0 { MomentExpand9(w, 0); } else if p == 1 { MomentExpand9(w, 1); } else if p == 2 { MomentExpand9(w, 2); } else { MomentExpand9(w, 3); }
    }
  }

  lemma {:induction false} Table2x9MiddleMoments()
    ensures forall p :: 4 <= p < 6 ==> Moment(Tabulated(2, 9).value, p) == if p == 2 then Factorial(2) as real else 0.0
  {
    var w := Tabulated(2, 9).value;
    forall p | 4 <= p < 6
      ensures Moment(w, p) == if p == 2 then Factorial(2) as real else 0.0
    {
      if p == 4 { MomentExpand9(w, 4); } else { MomentExpand9(w, 5); }
    }
  }

  lemma {:induction false} Table2x9HighMoments()
    ensures forall p :: 6 <= p < 8 ==> Moment(Tabulated(2, 9).value, p) == if p == 2 then Factorial(2) as real else 0.0
  {
    var w := Tabulated(2, 9).value;
    forall p | 6 <= p < 8
      ensures Moment(w, p) == if p == 2 then Factorial(2) as real else 0.0
    {
      if p == 6 { MomentExpand9(w, 6); } else { MomentExpand9(w, 7); }
    }
  }

  lemma {:induction false} Table2x9TopMoments()
    ensures Moment(Tabulated(2, 9).value, 8) == 0.0
  {
    var w := Tabulated(2, 9).value;
    MomentExpand9(w, 8);
  }

  lemma {:induction false} Table2x9Central()
    ensures CentralWeights(Tabulated(2, 9).value, 9, 2)
  {
    Table2x9LowMoments();
    Table2x9MiddleMoments();
    Table2x9HighMoments();
    Table2x9TopMoments();
  }

  /** Every tabulated weight vector is the central-difference stencil
      for its (n, order). */
  lemma {:induction false} TabulatedAreCentral(n: nat, order: int)
    requires Tabulated(n, order).Some?
    ensures CentralWeights(Tabulated(n, order).value, order, n)
  {
    if n == 1 {
      if order == 3 { Table1x3Central(); }
      else if order == 5 { Table1x5Central(); }
      else if order == 7 { Table1x7Central(); }
      else { Table1x9Central(); }
    } else {
      if order == 3 { Table2x3Central(); }
      else if order == 5 { Table2x5Central(); }
      else if order == 7 { Table2x7Central(); }
      else { Table2x9Central(); }
    }
  }

  /** Three points, first derivative: the centred difference quotient. */
  lemma {:induction false} ThreePointFirst(func: real -> real, x0: real, dx: real, general: (int, nat) -> seq<real>)
    requires dx != 0.0
    ensures DerivativeValue(func, x0, dx, 1, 3, general)
            == Derived((func(x0 + dx) - func(x0 - dx)) / (2.0 * dx))
  {
    var w := Weights(1, 3, general);
    assert w == [-1.0 / 2.0, 0.0, 1.0 / 2.0];
    DerivativeIsStencil(func, x0, dx, 1, 3, general);
    Expand3(w, Samples(func, x0, dx));
    assert SamplePoint(x0, dx, -1) == x0 - dx;
    assert SamplePoint(x0, dx, 1) == x0 + dx;
  }

  /** Three points, second derivative: the second difference over dx^2. */
  lemma {:induction false} ThreePointSecond(func: real -> real, x0: real, dx: real, general: (int, nat) -> seq<real>)
    requires dx != 0.0
    ensures DerivativeValue(func, x0, dx, 2, 3, general)
            == Derived((func(x0 - dx) - 2.0 * func(x0) + func(x0 + dx)) / (dx * dx))
  {
    var w := Weights(2, 3, general);
    assert w == [1.0, -2.0, 1.0];
    assert Power(dx, 1) == dx;
    assert Power(dx, 2) == dx * dx;
    DerivativeIsStencil(func, x0, dx, 2, 3, general);
    Expand3(w, Samples(func, x0, dx));
    assert SamplePoint(x0, dx, -1) == x0 - dx;
    assert SamplePoint(x0, dx, 0) == x0;
    assert SamplePoint(x0, dx, 1) == x0 + dx;
  }

  function Cubic(x: real): real
  {
    x * x * x + x * x
  }

  /** The documented example: for x^3 + x^2 at x0 = 1 with the default
      three points, the result is 5 + dx^2, which tends to the true
      derivative 5 as dx shrinks. */
  lemma {:induction false} DocumentedExample(dx: real, general: (int, nat) -> seq<real>)
    requires dx != 0.0
    ensures DerivativeValue(Cubic, 1.0, dx, 1, 3, general) == Derived(5.0 + dx * dx)
  {
    ThreePointFirst(Cubic, 1.0, dx, general);
    assert Cubic(1.0 + dx) - Cubic(1.0 - dx) == (5.0 + dx * dx) * (2.0 * dx);
  }

  /** x |-> (x - x0)^p. */
  function Monomial(x0: real, p: nat): real -> real
  {
    x => Power(x - x0, p)
  }

  lemma {:induction false} PowerOfProduct(a: real, b: real, p: nat)
    ensures Power(a * b, p) == Power(a, p) * Power(b, p)
  {
    if p > 0 {
      PowerOfProduct(a, b, p - 1);
      assert Power(a * b, p) == (a * b) * (Power(a, p - 1) * Power(b, p - 1));
    }
  }

  lemma {:induction false} WeightedSumScale(w: seq<real>, g: int -> real, h: int -> real, c: real, k: nat)
    requires k <= |w|
    requires forall j :: g(j) == c * h(j)
    ensures WeightedSum(w, g, k) == c * WeightedSum(w, h, k)
  {
    if k > 0 {
      WeightedSumScale(w, g, h, c, k - 1);
    }
  }

  /** Sampling (x - x0)^p at x0 + j*dx gives dx^p * j^p. */
  lemma {:induction false} MonomialSamples(x0: real, dx: real, p: nat, j: int)
    ensures Samples(Monomial(x0, p), x0, dx)(j) == Power(dx, p) * PowerOf(p)(j)
  {
    var y := SamplePoint(x0, dx, j);
    var r := j as real;
    assert Samples(Monomial(x0, p), x0, dx)(j) == Power(y - x0, p);
    assert y - x0 == r * dx;
    PowerOfProduct(r, dx, p);
    assert PowerOf(p)(j) == Power(r, p);
    assert Power(y - x0, p) == Power(r * dx, p);
  }

  /** The stencil sum for (x - x0)^p is dx^p times the p-th moment. */
  lemma {:induction false} MonomialStencil(w: seq<real>, x0: real, dx: real, p: nat)
    ensures WeightedSum(w, Samples(Monomial(x0, p), x0, dx), |w|) == Power(dx, p) * Moment(w, p)
  {
    var g := Samples(Monomial(x0, p), x0, dx);
    forall j
      ensures g(j) == Power(dx, p) * PowerOf(p)(j)
    {
      MonomialSamples(x0, dx, p, j);
    }
    WeightedSumScale(w, g, PowerOf(p), Power(dx, p), |w|);
  }

  /** A stencil whose p-th moment is n! when p == n and 0 otherwise is
      exact on (x - x0)^p: its sum divided by dx^n is n! when p == n (the
      n-th derivative of (x - x0)^n) and 0 otherwise, whatever the
      spacing. */
  lemma {:induction false} StencilExactOnMonomial(w: seq<real>, x0: real, dx: real, n: nat, p: nat)
    requires dx != 0.0
    requires Moment(w, p) == if p == n then Factorial(n) as real else 0.0
    ensures Power(dx, n) != 0.0
    ensures WeightedSum(w, Samples(Monomial(x0, p), x0, dx), |w|) / Power(dx, n)
            == if p == n then Factorial(n) as real else 0.0
  {
    PowerNonZero(dx, n);
    MonomialStencil(w, x0, dx, p);
    QuotientOfScaled(WeightedSum(w, Samples(Monomial(x0, p), x0, dx), |w|), Power(dx, p), Power(dx, n),
                     Moment(w, p), if p == n then Factorial(n) as real else 0.0);
  }

  /** s = a*m divided by d is t when either a == d and m == t, or m and t
      are both 0. */
  lemma {:induction false} QuotientOfScaled(s: real, a: real, d: real, m: real, t: real)
    requires d != 0.0 && s == a * m
    requires (a == d && m == t) || (m == 0.0 && t == 0.0)
    ensures s / d == t
  {
  }

  /** With its checks passed and dx != 0, `derivative` returns the stencil
      sum of its weights divided by dx^n. */
  lemma {:induction false} DerivativeIsStencil(func: real -> real, x0: real, dx: real, n: nat, order: int,
                            general: (int, nat) -> seq<real>)
    requires GeneralFits(general, n, order) && PointCountCheck(order, n).None? && dx != 0.0
    ensures |Weights(n, order, general)| == order && Power(dx, n) != 0.0
    ensures DerivativeValue(func, x0, dx, n, order, general)
            == Derived(WeightedSum(Weights(n, order, general), Samples(func, x0, dx), order) / Power(dx, n))
  {
    PowerNonZero(dx, n);
  }

  /** Central weights make `derivative` exact on (x - x0)^p for p below
      the point count. */
  lemma {:induction false} ExactOnMonomials(x0: real, dx: real, n: nat, order: int, p: nat, general: (int, nat) -> seq<real>)
    requires dx != 0.0 && p < order
    requires PointCountCheck(order, n).None?
    requires CentralWeights(Weights(n, order, general), order, n)
    ensures DerivativeValue(Monomial(x0, p), x0, dx, n, order, general)
            == Derived(if p == n then Factorial(n) as real else 0.0)
  {
    DerivativeIsStencil(Monomial(x0, p), x0, dx, n, order, general);
    StencilExactOnMonomial(Weights(n, order, general), x0, dx, n, p);
  }

  /** Every tabulated formula is exact on polynomials of degree below its
      point count. */
  lemma {:induction false} TabulatedExact(x0: real, dx: real, n: nat, order: int, p: nat, general: (int, nat) -> seq<real>)
    requires dx != 0.0 && p < order && Tabulated(n, order).Some?
    ensures DerivativeValue(Monomial(x0, p), x0, dx, n, order, general)
            == Derived(if p == n then Factorial(n) as real else 0.0)
  {
    TabulatedAreCentral(n, order);
    ExactOnMonomials(x0, dx, n, order, p, general);
  }

  /** The weights of every central formula for a derivative of order
      n >= 1 sum to 0, so a constant function has derivative 0. */
  lemma {:induction false} ConstantHasZeroDerivative(c: real, x0: real, dx: real, n: nat, order: int, general: (int, nat) -> seq<real>)
    requires dx != 0.0 && n >= 1
    requires PointCountCheck(order, n).None?
    requires CentralWeights(Weights(n, order, general), order, n)
    ensures DerivativeValue(_ => c, x0, dx, n, order, general) == Derived(0.0)
  {
    PowerNonZero(dx, n);
    DerivativeIsStencil(_ => c, x0, dx, n, order, general);
    StencilFlatZero(Weights(n, order, general), Samples(_ => c, x0, dx), c, n);
  }

  /** A stencil whose moment 0 vanishes sends a flat sample to 0. */
  lemma {:induction false} StencilFlatZero(w: seq<real>, g: int -> real, c: real, n: nat)
    requires n >= 1 && CentralWeights(w, |w|, n) && |w| > 0
    requires forall j :: g(j) == c
    ensures WeightedSum(w, g, |w|) == 0.0
  {
    forall j
      ensures g(j) == c * PowerOf(0)(j)
    {
    }
    WeightedSumScale(w, g, PowerOf(0), c, |w|);
    assert Moment(w, 0) == 0.0;
  }
}
