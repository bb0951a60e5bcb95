/** Full-matrix assembly of the B-spline collocation systems used to check the
    banded solvers: plain interpolation (`make_interp_full_matr`), periodic
    interpolation with derivative rows (`make_interp_per_full_matr`) and the
    least-squares observation matrix (`make_lsq_full_matrix`). Each starts from
    a zero matrix and writes, row by row, the k+1 nonzero basis values at a
    data point into the columns left-k .. left of the span holding it.

    The basis values come from the compiled routine `evaluate_all_bspl`,
    which is not part of this model: it is the parameter `bspl`, where
    bspl(x, left, nu) is the vector of the nu-th derivatives of the k+1 basis
    functions B_{left-k}, ..., B_{left} at x. The dense solves that follow
    the assembly are not modelled either. */
module BSplineCollocation {
  import opened Sums
  import opened BSplineBasis
  import opened BSplineEval

  /** Every vector the basis routine hands back has k+1 entries. */
  ghost predicate BasisValuesHaveLength(bspl: (real, int, nat) -> seq<real>, k: nat)
  {
    forall x, left, nu :: |bspl(x, left, nu)| == k + 1
  }

  /** All data points lie in the base interval [t[k], t[n]] of ordered knots,
      so the span found for each is one of k .. n-1 and its k+1 columns
      left-k .. left are columns of the matrix. */
  predicate PointsInBaseInterval(x: seq<real>, t: seq<real>, k: nat)
  {
    NonDecreasing(t) && NumCoefficients(t, k) >= k + 1
    && forall j :: 0 <= j < |x| ==> t[k] <= x[j] <= t[NumCoefficients(t, k)]
  }

  /** Column col of a row after the basis values bb of the span `left` were
      written over its columns left-k .. left; prev is the entry before. */
  function Written(bb: seq<real>, k: nat, left: int, col: int, prev: real): real
    requires |bb| == k + 1
  {
    if left - k <= col <= left then bb[col - (left - k)] else prev
  }

  /** Entry (row of data point xv, col) of a collocation matrix: the nu-th
      derivative of B_col at xv for the k+1 columns of its span, 0 elsewhere. */
  function CollocationEntry(t: seq<real>, k: nat, bspl: (real, int, nat) -> seq<real>, xv: real, nu: nat, col: int): real
    requires k < |t| && BasisValuesHaveLength(bspl, k)
  {
    var left := Locate(t, k, xv);
    Written(bspl(xv, left, nu), k, left, col, 0.0)
  }

  function Negated(bb: seq<real>): (r: seq<real>)
    ensures |r| == |bb| && forall m :: 0 <= m < |bb| ==> r[m] == -bb[m]
  {
    seq(|bb|, m requires 0 <= m < |bb| => -bb[m])
  }

  /** Writes bb over the columns lo .. lo+|bb|-1 of one row. */
  method FillRow(A: array2<real>, row: int, lo: int, bb: seq<real>)
    requires 0 <= row < A.Length0 && 0 <= lo && lo + |bb| <= A.Length1
    modifies A
    ensures forall r, col :: 0 <= r < A.Length0 && 0 <= col < A.Length1 ==>
      A[r, col] == if r == row && lo <= col < lo + |bb| then bb[col - lo] else old(A[r, col])
  {
    forall col | lo <= col < lo + |bb| {
      A[row, col] := bb[col - lo];
    }
  }

  /** The collocation loop shared by the three assemblies: for each data point
      x[j], find its span and write the nu = 0 basis values into row
      offset + j. Rows outside offset .. offset+|x|-1 are left as they were,
      and so are the columns of the filled rows outside the span. */
  method FillCollocationRows(A: array2<real>, x: seq<real>, t: seq<real>, k: nat,
                             bspl: (real, int, nat) -> seq<real>, offset: nat)
    requires PointsInBaseInterval(x, t, k) && BasisValuesHaveLength(bspl, k)
    requires offset + |x| <= A.Length0 && A.Length1 == NumCoefficients(t, k)
    modifies A
    ensures forall r, col :: 0 <= r < A.Length0 && 0 <= col < A.Length1 ==>
      A[r, col] == if offset <= r < offset + |x|
                   then (var left := Locate(t, k, x[r - offset]);
                         Written(bspl(x[r - offset], left, 0), k, left, col, old(A[r, col])))
                   else old(A[r, col])
  {
    var j := 0;
    while j < |x|
      invariant 0 <= j <= |x|
      invariant forall r, col :: 0 <= r < A.Length0 && 0 <= col < A.Length1 ==>
        A[r, col] == if offset <= r < offset + j
                     then (var left := Locate(t, k, x[r - offset]);
                           Written(bspl(x[r - offset], left, 0), k, left, col, old(A[r, col])))
                     else old(A[r, col])
    {
      var xval := x[j];
      var left := Locate(t, k, xval);
      LocateInBaseInterval(t, k, xval);
      var bb := bspl(xval, left, 0);
      FillRow(A, offset + j, left - k, bb);
      j := j + 1;
    }
  }

  /** `make_interp_full_matr`: the n x n collocation matrix of the data
      points, after asserting |x| == |y| and |t| == |x| + k + 1. */
  method InterpCollocationMatrix(x: seq<real>, y: seq<real>, t: seq<real>, k: nat,
                                 bspl: (real, int, nat) -> seq<real>)
    returns (A: array2<real>, err: bool)
    requires BasisValuesHaveLength(bspl, k)
    requires |t| == |x| + k + 1 ==> PointsInBaseInterval(x, t, k)
    ensures err <==> !(|x| == |y| && |t| == |x| + k + 1)
    ensures !err ==> fresh(A) && A.Length0 == |x| && A.Length1 == |x|
    ensures !err ==> forall j, col :: 0 <= j < |x| && 0 <= col < |x| ==>
      A[j, col] == CollocationEntry(t, k, bspl, x[j], 0, col)
  {
    if !(|x| == |y| && |t| == |x| + k + 1) {
      A := new real[0, 0];
      return A, true;
    }
    var n := |x|;
    A := new real[n, n]((_, _) => 0.0);
    FillCollocationRows(A, x, t, k, bspl, 0);
    err := false;
  }

  /** `make_lsq_full_matrix`, assembly only: the m x n observation matrix,
      one row per data point. */
  method LsqObservationMatrix(x: seq<real>, t: seq<real>, k: nat, bspl: (real, int, nat) -> seq<real>)
    returns (A: array2<real>)
    requires BasisValuesHaveLength(bspl, k) && PointsInBaseInterval(x, t, k)
    ensures fresh(A) && A.Length0 == |x| && A.Length1 == NumCoefficients(t, k)
    ensures forall j, col :: 0 <= j < |x| && 0 <= col < NumCoefficients(t, k) ==>
      A[j, col] == CollocationEntry(t, k, bspl, x[j], 0, col)
  {
    A := new real[|x|, NumCoefficients(t, k)]((_, _) => 0.0);
    FillCollocationRows(A, x, t, k, bspl, 0);
  }

  /** Entry (i, col) of a derivative row i < k-1 of the periodic system: the
      (i+1)-th derivatives at x[0] written first, then the negated ones at
      x[-1] written over them, so where the two spans overlap the second
      write wins. */
  function DerivativeRowEntry(x: seq<real>, t: seq<real>, k: nat, bspl: (real, int, nat) -> seq<real>, i: nat, col: int): real
    requires |x| > 0 && k < |t| && BasisValuesHaveLength(bspl, k)
  {
    var left, left2 := Locate(t, k, x[0]), Locate(t, k, x[|x| - 1]);
    Written(Negated(bspl(x[|x| - 1], left2, i + 1)), k, left2, col,
            Written(bspl(x[0], left, i + 1), k, left, col, 0.0))
  }

  datatype PeriodicError = CountMismatch | NoDataPoints | RowOutOfRange

  datatype PeriodicSystem = System(A: array2<real>, rhs: seq<real>) | Rejected(e: PeriodicError)

  /** `make_interp_per_full_matr`: with nt = |t| - k - 1 coefficients and n
      data points, asserts nt - n == k - 1; the first k-1 rows match the
      first k-1 derivatives at the two ends, the collocation rows follow
      shifted by k-1, and the right-hand side is k-1 zeros followed by y.
      With no data point x[0] does not exist; with k = 0 there is one row
      fewer than data points and the last row write is out of range. */
  method PeriodicCollocationSystem(x: seq<real>, y: seq<real>, t: seq<real>, k: nat,
                                   bspl: (real, int, nat) -> seq<real>)
    returns (s: PeriodicSystem)
    requires BasisValuesHaveLength(bspl, k)
    requires NumCoefficients(t, k) - |x| == k - 1 && |x| > 0 && k >= 1 ==> PointsInBaseInterval(x, t, k)
    ensures NumCoefficients(t, k) - |x| != k - 1 <==> s == Rejected(CountMismatch)
    ensures NumCoefficients(t, k) - |x| == k - 1 && |x| == 0 <==> s == Rejected(NoDataPoints)
    ensures NumCoefficients(t, k) - |x| == k - 1 && |x| > 0 && k == 0 <==> s == Rejected(RowOutOfRange)
    ensures s.System? ==> fresh(s.A)
    ensures s.System? ==>
      var nt := NumCoefficients(t, k);
      s.A.Length0 == nt && s.A.Length1 == nt && s.rhs == seq(k - 1, _ => 0.0) + y
      && (forall i, col :: 0 <= i < k - 1 && 0 <= col < nt ==>
            s.A[i, col] == DerivativeRowEntry(x, t, k, bspl, i, col))
      && (forall j, col :: 0 <= j < |x| && 0 <= col < nt ==>
            s.A[j + k - 1, col] == CollocationEntry(t, k, bspl, x[j], 0, col))
  {
    var n := |x|;
    var nt := |t| - k - 1;
    if nt - n != k - 1 {
      return Rejected(CountMismatch);
    }
    if n == 0 {
      return Rejected(NoDataPoints);
    }
    if k == 0 {
      return Rejected(RowOutOfRange);
    }
    var A := new real[nt, nt]((_, _) => 0.0);
    FillDerivativeRows(A, x, t, k, bspl);
    var offset := k - 1;
    var rhs := seq(k - 1, _ => 0.0) + y;
    FillCollocationRows(A, x, t, k, bspl, offset);
    return System(A, rhs);
  }

  /** The derivative rows of the periodic system: for i = 0 .. k-2, row i
      gets the (i+1)-th derivatives at x[0] over the span of x[0] and then
      the negated ones at x[-1] over the span of x[-1]. */
  method FillDerivativeRows(A: array2<real>, x: seq<real>, t: seq<real>, k: nat,
                            bspl: (real, int, nat) -> seq<real>)
    requires |x| > 0 && k >= 1 && PointsInBaseInterval(x, t, k) && BasisValuesHaveLength(bspl, k)
    requires k - 1 <= A.Length0 && A.Length1 == NumCoefficients(t, k)
    requires forall r, col :: 0 <= r < k - 1 && 0 <= col < A.Length1 ==> A[r, col] == 0.0
    modifies A
    ensures forall r, col :: 0 <= r < A.Length0 && 0 <= col < A.Length1 ==>
      A[r, col] == if r < k - 1 then DerivativeRowEntry(x, t, k, bspl, r, col) else old(A[r, col])
  {
    var n := |x|;
    var left := Locate(t, k, x[0]);
    var left2 := Locate(t, k, x[n - 1]);
    LocateInBaseInterval(t, k, x[0]);
    LocateInBaseInterval(t, k, x[n - 1]);
    for i := 0 to k - 1
      invariant forall r, col :: 0 <= r < A.Length0 && 0 <= col < A.Length1 ==>
        A[r, col] == if r < i then DerivativeRowEntry(x, t, k, bspl, r, col) else old(A[r, col])
    {
      var bb := bspl(x[0], left, i + 1);
      FillRow(A, i, left - k, bb);
      bb := bspl(x[n - 1], left2, i + 1);
      FillRow(A, i, left2 - k, Negated(bb));
    }
  }

  /** The product of a collocation row with coefficients c, term by term. */
  function RowTerm(t: seq<real>, c: seq<real>, k: nat, bspl: (real, int, nat) -> seq<real>, xv: real): int -> real
    requires k < |t| && BasisValuesHaveLength(bspl, k)
  {
    col => if 0 <= col < |c| then Weighted(c[col], CollocationEntry(t, k, bspl, xv, 0, col)) else 0.0
  }

  /** When the supplied basis values are those of the Cox-de Boor recurrence,
      a collocation row times the coefficient vector is the value of the
      spline at the data point as `_naive_eval` computes it: solving A c = y
      makes the spline interpolate y. */
  lemma {:induction false} CollocationRowEvaluates(t: seq<real>, c: seq<real>, k: nat, bspl: (real, int, nat) -> seq<real>, xv: real)
    requires ValidSpline(t, c, k) && BasisValuesHaveLength(bspl, k)
    requires t[k] <= xv <= t[NumCoefficients(t, k)]
    requires var left := Locate(t, k, xv);
      forall m :: 0 <= m <= k ==> bspl(xv, left, 0)[m] == Basis(xv, t, k)(left - k + m)
    ensures NaiveEval(xv, t, c, k) == Value(Sum(RowTerm(t, c, k, bspl, xv), 0, NumCoefficients(t, k)))
  {
    var left := Locate(t, k, xv);
    var n := NumCoefficients(t, k);
    assert Sum(RowTerm(t, c, k, bspl, xv), 0, n) == Sum(Term(xv, t, c, k), left - k, left + 1) by {
      LocateInBaseInterval(t, k, xv);
      RowSumIsTermSum(t, c, k, bspl, xv, left);
    }
    assert Sum(LocalTerm(xv, t, c, k, left), 0, k + 1) == Sum(Term(xv, t, c, k), left - k, left + 1) by {
      SumReflect(LocalTerm(xv, t, c, k, left), Term(xv, t, c, k), left, k + 1);
    }
    NaiveEvalDefined(xv, t, c, k);
  }

  /** A row product is the sum of the k+1 terms c[i] * B_i(x) of the span. */
  lemma {:induction false} RowSumIsTermSum(t: seq<real>, c: seq<real>, k: nat, bspl: (real, int, nat) -> seq<real>, xv: real, left: int)
    requires ValidSpline(t, c, k) && BasisValuesHaveLength(bspl, k)
    requires left == Locate(t, k, xv) && k <= left < NumCoefficients(t, k)
    requires forall m :: 0 <= m <= k ==> bspl(xv, left, 0)[m] == Basis(xv, t, k)(left - k + m)
    ensures Sum(RowTerm(t, c, k, bspl, xv), 0, NumCoefficients(t, k)) == Sum(Term(xv, t, c, k), left - k, left + 1)
  {
    RowSumIsSpanSum(t, c, k, bspl, xv, left);
    SpanSumMatchesTerms(t, c, k, bspl, xv, left);
  }

  /** Only the k+1 columns of the span contribute to a row product. */
  lemma {:induction false} RowSumIsSpanSum(t: seq<real>, c: seq<real>, k: nat, bspl: (real, int, nat) -> seq<real>, xv: real, left: int)
    requires k < |t| && BasisValuesHaveLength(bspl, k)
    requires left == Locate(t, k, xv) && k <= left < NumCoefficients(t, k)
    ensures Sum(RowTerm(t, c, k, bspl, xv), 0, NumCoefficients(t, k))
            == Sum(RowTerm(t, c, k, bspl, xv), left - k, left + 1)
  {
    var n := NumCoefficients(t, k);
    RowZeroOutsideSpan(t, c, k, bspl, xv, 0, left - k);
    RowZeroOutsideSpan(t, c, k, bspl, xv, left + 1, n);
    SumWindow(RowTerm(t, c, k, bspl, xv), 0, left - k, left + 1, n);
  }

  lemma {:induction false} SpanSumMatchesTerms(t: seq<real>, c: seq<real>, k: nat, bspl: (real, int, nat) -> seq<real>, xv: real, left: int)
    requires ValidSpline(t, c, k) && BasisValuesHaveLength(bspl, k)
    requires left == Locate(t, k, xv) && k <= left < NumCoefficients(t, k)
    requires forall m :: 0 <= m <= k ==> bspl(xv, left, 0)[m] == Basis(xv, t, k)(left - k + m)
    ensures Sum(RowTerm(t, c, k, bspl, xv), left - k, left + 1) == Sum(Term(xv, t, c, k), left - k, left + 1)
  {
    var f, g := RowTerm(t, c, k, bspl, xv), Term(xv, t, c, k);
    assert forall col :: left - k <= col < left + 1 ==> f(col) == g(col) by {
      RowMatchesTerms(t, c, k, bspl, xv, left);
    }
    SumCongruent(f, g, left - k, left + 1);
  }

  lemma {:induction false} RowZeroOutsideSpan(t: seq<real>, c: seq<real>, k: nat, bspl: (real, int, nat) -> seq<real>, xv: real, lo: int, hi: int)
    requires k < |t| && BasisValuesHaveLength(bspl, k)
    requires hi <= Locate(t, k, xv) - k || Locate(t, k, xv) < lo
    ensures forall col :: lo <= col < hi ==> RowTerm(t, c, k, bspl, xv)(col) == 0.0
  {
    forall col | lo <= col < hi
      ensures RowTerm(t, c, k, bspl, xv)(col) == 0.0
    {
      RowTermOutsideSpan(t, c, k, bspl, xv, col);
    }
  }

  lemma {:induction false} RowMatchesTerms(t: seq<real>, c: seq<real>, k: nat, bspl: (real, int, nat) -> seq<real>, xv: real, left: int)
    requires ValidSpline(t, c, k) && BasisValuesHaveLength(bspl, k)
    requires left == Locate(t, k, xv) && k <= left < NumCoefficients(t, k)
    requires forall m :: 0 <= m <= k ==> bspl(xv, left, 0)[m] == Basis(xv, t, k)(left - k + m)
    ensures forall col :: left - k <= col < left + 1 ==> RowTerm(t, c, k, bspl, xv)(col) == Term(xv, t, c, k)(col)
  {
    forall col | left - k <= col < left + 1
      ensures RowTerm(t, c, k, bspl, xv)(col) == Term(xv, t, c, k)(col)
    {
      RowTermInSpan(t, c, k, bspl, xv, left, col);
    }
  }

  lemma {:induction false} RowTermInSpan(t: seq<real>, c: seq<real>, k: nat, bspl: (real, int, nat) -> seq<real>, xv: real, left: int, col: int)
    requires ValidSpline(t, c, k) && BasisValuesHaveLength(bspl, k)
    requires left == Locate(t, k, xv) && k <= left < NumCoefficients(t, k)
    requires forall m :: 0 <= m <= k ==> bspl(xv, left, 0)[m] == Basis(xv, t, k)(left - k + m)
    requires left - k <= col <= left
    ensures RowTerm(t, c, k, bspl, xv)(col) == Term(xv, t, c, k)(col)
  {
    var m := col - (left - k);
    assert CollocationEntry(t, k, bspl, xv, 0, col) == bspl(xv, left, 0)[m];
  }

  lemma {:induction false} RowTermOutsideSpan(t: seq<real>, c: seq<real>, k: nat, bspl: (real, int, nat) -> seq<real>, xv: real, col: int)
    requires k < |t| && BasisValuesHaveLength(bspl, k)
    requires col < Locate(t, k, xv) - k || Locate(t, k, xv) < col
    ensures RowTerm(t, c, k, bspl, xv)(col) == 0.0
  {
  }
}
