# Verified model of four SciPy numerical cores

This project models four small cores of SciPy in Dafny and proves properties of them. All
arithmetic is exact over `real`. Floating-point infinity is an explicit extended-real value where
the code depends on it.

* **B-spline reference engine** (`scipy/interpolate/tests/test_bsplines.py`). This is the code
  the tests use as an independent oracle for `BSpline`:
  * the Cox–de Boor recurrence `_naive_B`;
  * the local and global evaluations `_naive_eval` and `_naive_eval_2`;
  * the accumulation loop of `_sum_basis_elements`;
  * the closed forms `B_012` and `B_0123`;
  * the knot-multiplicity generator `_make_multiples`;
  * the dense collocation-matrix builders `make_interp_full_matr`, `make_interp_per_full_matr`
    and `make_lsq_full_matrix`;
  * the constructor contract and the tuple view (t, c, k) that the tests pin down.

  Modules: `Sums`, `BSplineBasis`, `BSplineEval`, `BSplineKnots`, `BSplineCollocation`,
  `BSplineCtor`.
* **Sample-spacing entropy estimators** (`scipy/stats/_entropy.py`). Module `Entropy` covers:
  * the argument checks of `entropy` and `differential_entropy`;
  * the edge padding `_pad_along_last_axis`;
  * the repeat-padding and window differences of the Vasicek and van Es estimators;
  * the Ebrahimi correction weights `ci`, built by masked in-place writes;
  * the Correa gather indices.
* **Finite differences** (`scipy/misc/common.py`). Module `FiniteDiff` covers:
  * the point-count checks shared by `derivative` and `central_diff_weights`;
  * the table of precomputed central weights;
  * the sampling loop of `derivative`.

  The tabulated weights are proved to satisfy the moment equations that define
  `central_diff_weights`. As a consequence, `derivative` is exact on every monomial of degree
  below `order`.
* **HiGHS wrapper** (`scipy/optimize/_linprog_highs.py`). Module `LinprogHighs` covers:
  * `_replace_inf`, as an in-place array update;
  * `_check_invalid_option_values` and the rest of the option sanitisation;
  * the two-sided row bounds HiGHS solves with;
  * the translation of the solver's answer: the status table, the slack/con split and `nit`.

  The solver itself is a function parameter.

`Wrappers` holds the `Option` type shared by the modules.

## Model

| member | source | states |
|---|---|---|
| BSplineBasis.NaiveB | scipy/interpolate/tests/test_bsplines.py:378-393 | `_naive_B`: the half-open indicator for k = 0, otherwise the two blended degree-(k-1) terms with a term of empty span contributing 0; what it computes is stated by Support, NonNegative, PartitionOfUnity and BasisAtMostOne below |
| BSplineBasis.Support | scipy/interpolate/tests/test_bsplines.py:378-393 | B_{i,k}(x) is 0 outside [t[i], t[i+k+1]) for ordered knots |
| BSplineBasis.NonNegative | scipy/interpolate/tests/test_bsplines.py:378-393 | every B_{i,k}(x) is >= 0 for ordered knots, including the 0/0 := 0 convention for repeated knots |
| BSplineBasis.NaiveBSlice | scipy/interpolate/tests/test_bsplines.py:378-393 | B_{i,k} depends only on the k+2 knots t[i..i+k+1], so it equals the basis element on a slice of the knots |
| BSplineBasis.FallRiseShare | scipy/interpolate/tests/test_bsplines.py:384-393 | the falling term of B_{i,k} and the rising term of B_{i+1,k} share B_{i+1,k-1} with weights summing to 1 |
| BSplineBasis.Telescope | scipy/interpolate/tests/test_bsplines.py:378-393 | a sum of degree-k basis values telescopes into the degree-(k-1) sum plus the two end terms |
| BSplineBasis.PartitionOfUnity | scipy/interpolate/tests/test_bsplines.py:123-127 | on a knot span t[left] <= x < t[left+1], the k+1 basis functions that can be nonzero sum to exactly 1 |
| BSplineBasis.BasisAtMostOne | scipy/interpolate/tests/test_bsplines.py:378-393 | each of the k+1 basis values that can be nonzero on a span is at most 1 (with NonNegative, it lies in [0, 1]) |
| BSplineBasis.LeftEndVanishes | scipy/interpolate/tests/test_bsplines.py:378-393 | B_{i,k} is 0 at its first knot when that knot is simple enough (t[i] == x < t[i+k]) |
| BSplineBasis.B012 | scipy/interpolate/tests/test_bsplines.py:430-436 | the hat function on [0, 2]: values in [0, 1], equal to 1 only at its peak x = 1, and 0 outside (0, 2) |
| BSplineBasis.IntegerKnotsLinear | scipy/interpolate/tests/test_bsplines.py:68-77 | the linear basis functions on the knots 0..4 are the shifts B_012(x - i), as test_degree_1 compares |
| BSplineBasis.B0123 | scipy/interpolate/tests/test_bsplines.py:439-454 | only der 0 and 2 are supported (another value raises); the strict piecewise conditions give 0 at the interior knots x = 1, 2 |
| BSplineBasis.QuadraticBasisElement | scipy/interpolate/tests/test_bsplines.py:238-249 | B_0123 equals the recurrence's quadratic basis element on [0, 3) away from the knots 1 and 2 |
| BSplineBasis.QuadraticAtInteriorKnot | scipy/interpolate/tests/test_bsplines.py:439-454 | at x = 1 the recurrence gives 0.5 while B_0123 gives 0 (np.piecewise leaves the knot uncovered) |
| BSplineBasis.QuadraticPiecesSecondDifference | scipy/interpolate/tests/test_bsplines.py:439-454 | the der=2 pieces of B_0123 are the exact second differences of the der=0 pieces inside each span |
| BSplineEval.SearchSortedLeft | scipy/interpolate/tests/test_bsplines.py:401-404 | the insertion point p of x: every knot before p is < x, and t[p] >= x |
| BSplineEval.SearchSortedRight | scipy/interpolate/tests/test_bsplines.py:401-404 | the side='right' insertion point: every knot before p is <= x, and t[p] > x |
| BSplineEval.Locate | scipy/interpolate/tests/test_bsplines.py:401-404 | the span `_naive_eval` picks: k at x == t[k], else searchsorted(side left) - 1; LocateInBaseInterval states where it lies |
| BSplineEval.EvalAt | scipy/interpolate/tests/test_bsplines.py:405-407 | the two assertions of `_naive_eval` (chained comparison evaluated left to right, a negative index failing) and the local sum; NaiveEvalDefined states when it succeeds |
| BSplineEval.NaiveEval | scipy/interpolate/tests/test_bsplines.py:397-407 | `_naive_eval` as written; NaiveEvalDefined, LocalEqualsGlobal and NaiveEvalMissesFullMultipleKnot state what it returns |
| BSplineEval.NaiveEval2 | scipy/interpolate/tests/test_bsplines.py:410-416 | `_naive_eval_2`: its three assertions, then the sum of all n terms; UnitCoefficientsGiveOne, ExtraCoefficientsIgnored and DegreeZeroIsPiecewiseConstant state what it returns |
| BSplineEval.LocateInBaseInterval | scipy/interpolate/tests/test_bsplines.py:401-406 | for x in [t[k], t[n]] the chosen span satisfies both assertions of `_naive_eval`: k <= i < n and t[i] <= x <= t[i+1] |
| BSplineEval.NaiveEvalDefined | scipy/interpolate/tests/test_bsplines.py:397-407 | on the base interval `_naive_eval` succeeds with the sum of the k+1 local terms c[i-j] B_{i-j}(x) |
| BSplineEval.LocalEqualsGlobal | scipy/interpolate/tests/test_bsplines.py:93-104 | `_naive_eval` equals `_naive_eval_2` at every base-interval point that is not a knot of multiplicity >= k+1 |
| BSplineEval.GlobalIsLocal | scipy/interpolate/tests/test_bsplines.py:410-416 | the global n-term sum reduces to the k+1 local terms when the higher terms vanish |
| BSplineEval.NaiveEvalMissesFullMultipleKnot | scipy/interpolate/tests/test_bsplines.py:397-407 | the counterexample: k=0, t=[0,1,2], c=[3,4], x=1 gives 0 locally and 4 globally |
| BSplineEval.CorrectedEqualsGlobal | scipy/interpolate/tests/test_bsplines.py:397-416 | locating with side='right' (clamped to n-1) makes the local sum equal the global sum on the whole base interval |
| BSplineEval.ExtraCoefficientsIgnored | scipy/interpolate/tests/test_bsplines.py:138-154 | only the first n coefficients are used: padding c with extra entries does not change the value |
| BSplineEval.UnitCoefficientsGiveOne | scipy/interpolate/tests/test_bsplines.py:123-127 | with all coefficients 1 the spline is exactly 1 on [t[k], t[n]) |
| BSplineEval.DegreeZeroIsPiecewiseConstant | scipy/interpolate/tests/test_bsplines.py:59-66 | a degree-0 spline takes the value c[i] on the span [t[i], t[i+1]) |
| BSplineEval.UnitCoefficientsAtRightEnd | scipy/interpolate/tests/test_bsplines.py:123-127 | at x == t[n] the unit-coefficient sum is 1 when t[n] is simple (k=1, t=[0,1,2,3]) and 0 when t[n] is repeated k+1 times (t=[0,0,1,1]) |
| BSplineEval.SumBasisElements | scipy/interpolate/tests/test_bsplines.py:419-427 | the loop fails its assertions when n < k+1 or len(c) < n; otherwise it returns the sum of c[i] times the basis element on t[i..i+k+1] |
| BSplineEval.SumBasisElementsIsGlobal | scipy/interpolate/tests/test_bsplines.py:251-254 | when every basis element is evaluated by the recurrence, the sum equals `_naive_eval_2`'s global sum |
| BSplineKnots.RaiseInteriorMultiplicity | scipy/interpolate/tests/test_bsplines.py:468-471 | fails for fewer than 23 knots; otherwise knots 18 and 22 are overwritten by 17 and 21, nothing else changes, and order is preserved |
| BSplineKnots.ClampLeft | scipy/interpolate/tests/test_bsplines.py:473-475 | the first k+1 knots (all, if fewer) become t[0]; the rest are unchanged; order is preserved |
| BSplineKnots.ClampRight | scipy/interpolate/tests/test_bsplines.py:477-479 | the last k+1 knots become t[-1]; the rest are unchanged; order is preserved |
| BSplineKnots.MakeMultiples | scipy/interpolate/tests/test_bsplines.py:464-479 | fails before yielding if t has fewer than 23 knots; otherwise yields the three variants in order, each equal to t except at the overwritten positions (18 and 22; the first k+1; the last k+1), and each ordered when t is |
| BSplineKnots.ReindexKeepsOrder | scipy/interpolate/tests/test_bsplines.py:464-479 | a copy that reads every knot through a non-decreasing index map stays non-decreasing |
| BSplineCollocation.FillRow | scipy/interpolate/tests/test_bsplines.py:672-673 | writes the basis values over one row's columns lo .. lo+k and leaves every other entry as it was |
| BSplineCollocation.FillCollocationRows | scipy/interpolate/tests/test_bsplines.py:664-673 | every row of a data point holds its k+1 basis values in the columns left-k .. left of its span and keeps its old entries elsewhere |
| BSplineCollocation.InterpCollocationMatrix | scipy/interpolate/tests/test_bsplines.py:651-676 | fails exactly when len(x) != len(y) or len(t) != len(x)+k+1; otherwise it builds a fresh square matrix whose entries are the collocation entries |
| BSplineCollocation.LsqObservationMatrix | scipy/interpolate/tests/test_bsplines.py:732-751 | a fresh len(x) by n matrix of collocation entries |
| BSplineCollocation.PeriodicCollocationSystem | scipy/interpolate/tests/test_bsplines.py:680-729 | the count assertion, the empty-data and k=0 failures, then k-1 derivative-matching rows, the collocation rows below them, and rhs = zeros(k-1) + y |
| BSplineCollocation.FillDerivativeRows | scipy/interpolate/tests/test_bsplines.py:705-710 | row i < k-1 holds the (i+1)-th derivatives at x[0] over its span, then the negated (i+1)-th derivatives at x[-1] written over its own span; the later write wins where the spans overlap, and every other entry is 0 |
| BSplineCollocation.CollocationRowEvaluates | scipy/interpolate/tests/test_bsplines.py:651-676 | with the recurrence's basis values, a collocation row times c is `_naive_eval` at the data point, so A c = y makes the spline interpolate y |
| BSplineCollocation.RowZeroOutsideSpan | scipy/interpolate/tests/test_bsplines.py:663-673 | a row contributes nothing outside the k+1 columns of its span |
| BSplineCtor.Construct | scipy/interpolate/tests/test_bsplines.py:14-36 | a built spline has ordered finite real knots, an integer degree k >= 0, n >= k+1, len(c) >= n and t[k] < t[n] |
| BSplineCtor.ConstructAcceptsExactly | scipy/interpolate/tests/test_bsplines.py:14-36 | the constructor succeeds if and only if every one of those requirements holds |
| BSplineCtor.RejectedKnotVectors | scipy/interpolate/tests/test_bsplines.py:14-36 | complex, NaN, infinite, decreasing and two-dimensional knot vectors are refused with their own errors |
| BSplineCtor.RejectedCounts | scipy/interpolate/tests/test_bsplines.py:14-36 | too few coefficients and too few knots for the degree are refused |
| BSplineCtor.RejectedDegreesAndBaseInterval | scipy/interpolate/tests/test_bsplines.py:14-36 | a string or non-integer degree and an empty base interval are refused |
| BSplineCtor.AdjacentOrderIsOrder | scipy/interpolate/tests/test_bsplines.py:14-36 | checking adjacent knots is enough: no adjacent decrease means the vector is non-decreasing |
| BSplineCtor.TupleIndexContract | scipy/interpolate/tests/test_bsplines.py:331-344 | indexing succeeds exactly on -3..2, negative indices alias the index three higher, and 0, 1, 2 give t, c, k |
| BSplineCtor.Unpack | scipy/interpolate/tests/test_bsplines.py:318-329 | unpacking succeeds exactly for three targets, and they receive the items the tuple view indexes |
| Sums.SumSplit | scipy/interpolate/tests/test_bsplines.py:410-416 | a finite sum splits at any interior point |
| Sums.SumReflect | scipy/interpolate/tests/test_bsplines.py:407 | the downward local sum over j = 0..k equals the upward sum over i-k..i |
| Sums.SumWindow | scipy/interpolate/tests/test_bsplines.py:407-416 | a sum whose terms vanish outside a window equals the sum over the window |
| Entropy.EntropyBaseCheck | scipy/stats/_entropy.py:68-69 | an error is raised exactly when a base is given and it is <= 0 |
| Entropy.Lower | scipy/stats/_entropy.py:224 | lower-casing keeps the length and maps only 'A'..'Z' |
| Entropy.LowerIdempotent | scipy/stats/_entropy.py:224 | lower-casing twice is lower-casing once |
| Entropy.EstimatorByName | scipy/stats/_entropy.py:220-227 | each of the four estimators is chosen exactly when the lower-cased name equals its key; any other name is refused |
| Entropy.EstimatorNamesIgnoreCase | scipy/stats/_entropy.py:220-227 | the name lookup ignores case ("VASICEK", "Van Es") and does not ignore the space ("vanes") |
| Entropy.DefaultWindow | scipy/stats/_entropy.py:206-207 | the default window w is floor(sqrt(n) + 0.5), characterised exactly: (2w-1)^2 <= 4n < (2w+1)^2 |
| Entropy.DefaultWindowAccepted | scipy/stats/_entropy.py:206-213 | the default window passes the check 2 <= 2w < n if and only if n >= 5 |
| Entropy.DifferentialEntropyArgs | scipy/stats/_entropy.py:206-227 | checks in source order: window, then base, then method, each refusal if and only if the earlier checks passed and its own fails; on acceptance m is the given window or else the default one, 1 <= m, 2m < n, and the estimator is the one named |
| Entropy.SmallSamplesRefusedByDefault | scipy/stats/_entropy.py:206-213 | with fewer than 5 observations and no window given, the call fails on the window length |
| Entropy.PadAlongLastAxis | scipy/stats/_entropy.py:264-271 | the padded sample has n+2m entries; entry i is X[i-m] clamped to the sample, the boundary rule X_i = X_1 (i < 1), X_i = X_n (i > n) |
| Entropy.RepeatCounts | scipy/stats/_entropy.py:240-244 | the repeat counts are m+1 at both ends and 1 inside |
| Entropy.RepeatCountsPad | scipy/stats/_entropy.py:240-250 | repeating with those counts is the same padding `_pad_along_last_axis` builds |
| Entropy.VasicekDifferences | scipy/stats/_entropy.py:252-255 | n differences X[i+m] - X[i-m] with clamped indices, all non-negative for sorted data (the Ebrahimi differences at line 291 are the same) |
| Entropy.VanEsDifferences | scipy/stats/_entropy.py:279 | n-m differences X[i+m] - X[i], non-negative for sorted data |
| Entropy.CiWeight | scipy/stats/_entropy.py:293-296 | the weight of 1-based position i after both masked writes, the right-end write applied last; CiClosedForm states its closed form and bounds |
| Entropy.EbrahimiWeights | scipy/stats/_entropy.py:293-296 | the masked writes leave ci[j] equal to the weight of i = j+1: 2 in the middle, the left ramp, and the right ramp, which wins where both masks apply |
| Entropy.CiMasksDisjoint | scipy/stats/_entropy.py:295-296 | with 2m <= n the two masks never overlap, so the order of the writes does not matter |
| Entropy.CiClosedForm | scipy/stats/_entropy.py:293-296 | ci_i = 1 + min(i-1, n-i, m)/m, so it lies in [1, 2] and is symmetric (ci_i = ci_{n+1-i}) |
| Entropy.CorreaIndices | scipy/stats/_entropy.py:308-311 | a (2m+1) by n index table whose every entry is a valid index into the padded sample |
| Entropy.CorreaGather | scipy/stats/_entropy.py:306-313 | gathering the padded sample at j0 reads X_{i+dj} with the boundary clamping |
| FiniteDiff.PointCountCheck | scipy/misc/common.py:85-90 | refuses exactly when order < n+1 (checked first) or order is even; the same checks open central_diff_weights at lines 35-38 |
| FiniteDiff.Tabulated | scipy/misc/common.py:92-113 | a precomputed table exists exactly for n in {1, 2} and order in {3, 5, 7, 9}, and it has order entries, so every weights[k] read in the loop is in bounds |
| FiniteDiff.TabulatedAreCentral | scipy/misc/common.py:14-47 | every precomputed table satisfies the moment equations whose solution central_diff_weights returns: sum_k w_k (k-ho)^p = n! if p == n, else 0, for p < order |
| FiniteDiff.Weights | scipy/misc/common.py:92-115 | the table entry where there is one, else `central_diff_weights(order, n)`; once the checks pass it has exactly order entries, so every weights[k] the loop reads exists |
| FiniteDiff.DerivativeValue | scipy/misc/common.py:50-120 | refused exactly when the point-count check fails; a division by zero exactly when the checks pass, dx == 0 and n >= 1 |
| FiniteDiff.StencilSum | scipy/misc/common.py:116-119 | the loop accumulates sum_k weights[k] * func(x0 + (k-ho)*dx) |
| FiniteDiff.RaisePower | scipy/misc/common.py:120 | the divisor is dx^n |
| FiniteDiff.Derivative | scipy/misc/common.py:85-120 | the method (checks, weight selection, loop, division) returns the value DerivativeValue specifies |
| FiniteDiff.DerivativeIsStencil | scipy/misc/common.py:116-120 | with the checks passed and dx != 0, the result is the stencil sum divided by dx^n |
| FiniteDiff.SamplesSymmetric | scipy/misc/common.py:116-119 | the sample offsets run from -ho to ho, and samples k and order-1-k sit symmetrically about x0 |
| FiniteDiff.ThreePointFirst | scipy/misc/common.py:93-95 | n=1, order=3 gives (f(x0+dx) - f(x0-dx)) / (2dx) |
| FiniteDiff.ThreePointSecond | scipy/misc/common.py:103-105 | n=2, order=3 gives (f(x0-dx) - 2f(x0) + f(x0+dx)) / dx^2 |
| FiniteDiff.DocumentedExample | scipy/misc/common.py:78-82 | for x^3 + x^2 at x0 = 1 the result is 5 + dx^2, which tends to the documented 5 |
| FiniteDiff.StencilExactOnMonomial | scipy/misc/common.py:116-120 | a stencil with the central moments returns exactly n! for (x-x0)^n and 0 for the other powers, for any spacing |
| FiniteDiff.ExactOnMonomials | scipy/misc/common.py:85-120 | `derivative` with central weights is exact on every monomial (x-x0)^p with p < order |
| FiniteDiff.TabulatedExact | scipy/misc/common.py:92-120 | in particular every precomputed table is exact on those monomials |
| FiniteDiff.ConstantHasZeroDerivative | scipy/misc/common.py:92-120 | for n >= 1 the weights sum to 0, so a constant function has derivative 0 |
| LinprogHighs.ReplaceInf | scipy/optimize/_linprog_highs.py:46-50 | updates the array in place and returns it: +inf becomes CONST_INF, -inf becomes -CONST_INF, and finite entries stay |
| LinprogHighs.ReplaceInfIdempotent | scipy/optimize/_linprog_highs.py:46-50 | afterwards every entry is finite, finite entries are untouched, and a second replacement changes nothing |
| LinprogHighs.ReplacedBoundAdmitsSame | scipy/optimize/_linprog_highs.py:367-371 | a replaced bound admits the same activities as the infinite one, for activities strictly inside (-CONST_INF, CONST_INF) |
| LinprogHighs.CheckInvalidOptionValues | scipy/optimize/_linprog_highs.py:53-60 | returns the option if and only if it is allowed, otherwise the default; the result is always allowed when the default is |
| LinprogHighs.CheckInvalidOptionValuesIdempotent | scipy/optimize/_linprog_highs.py:53-60 | checking a checked option again changes nothing |
| LinprogHighs.KeepNonNegative | scipy/optimize/_linprog_highs.py:267-289 | a tolerance or limit that is given and negative becomes None; None and non-negative values are kept |
| LinprogHighs.StrategyRange | scipy/optimize/_linprog_highs.py:295-313 | the allowed strategy set is {None} together with 0 .. count-1 |
| LinprogHighs.SanitizeOptions | scipy/optimize/_linprog_highs.py:267-365 | every option HiGHS receives is in range; the message level is in {0,1,2,4,7} and is 0 unless disp; both iteration limits are maxiter; sense is 1 |
| LinprogHighs.SanitizeKeepsValidOptions | scipy/optimize/_linprog_highs.py:267-313 | each option is checked on its own: an in-range tolerance, update limit, message level (kept only with disp) or strategy reaches HiGHS unchanged whatever the other options hold, and an absent one stays absent |
| LinprogHighs.SanitizeResetsInvalidOptions | scipy/optimize/_linprog_highs.py:267-313 | negative tolerances and update limits become None; an invalid message level becomes 1; each of the four strategies (crash, dual edge weight, primal edge weight, simplex) outside its range becomes None |
| LinprogHighs.AssembleBounds | scipy/optimize/_linprog_highs.py:335-340 | lhs and rhs both have len(b_ub)+len(b_eq) entries |
| LinprogHighs.AssembledRowsMatchConstraints | scipy/optimize/_linprog_highs.py:334-340 | lhs <= A x <= rhs holds if and only if A_ub x <= b_ub and A_eq x == b_eq |
| LinprogHighs.ReplacedRowsMatchConstraints | scipy/optimize/_linprog_highs.py:335-371 | the equivalence survives the infinity replacement when every activity is strictly inside (-CONST_INF, CONST_INF) |
| LinprogHighs.StatusCode | scipy/optimize/_linprog_highs.py:315-329 | the first item of each table entry, a linprog status code in 0..4; StatusCodesMeaning characterises each code |
| LinprogHighs.StatusMessage | scipy/optimize/_linprog_highs.py:315-329 | the second item of each table entry, the message string given for each listed status |
| LinprogHighs.StatusOf | scipy/optimize/_linprog_highs.py:315-329 | each listed HiGHS status has a linprog code in 0..4; an unlisted status has no entry |
| LinprogHighs.StatusCodesMeaning | scipy/optimize/_linprog_highs.py:315-329 | code 0 iff optimal, 1 iff a time or iteration limit, 2 iff infeasible, 3 iff unbounded, 4 iff one of the eight other listed statuses |
| LinprogHighs.SplitSlack | scipy/optimize/_linprog_highs.py:382-386 | slack and con are both None exactly when the solver gives no slack; otherwise slack + con is the solver's slack and slack has min(len(b_ub), len) entries |
| LinprogHighs.IterationCount | scipy/optimize/_linprog_highs.py:398 | `simplex_nit or ipm_nit` with 0 for an absent key; IterationCountChoice states which count it reports |
| LinprogHighs.IterationCountChoice | scipy/optimize/_linprog_highs.py:398 | nit is simplex_nit when that is nonzero, else ipm_nit, and it is 0 only when no nonzero count is reported |
| LinprogHighs.MakeSolution | scipy/optimize/_linprog_highs.py:388-399 | a KeyError exactly for an unlisted status; otherwise status and message are the table's entry, success holds iff the code is 0, slack and con are None without a solver slack and otherwise its split at len(b_ub) (slack + con is the solver's slack), nit is the iteration count, and x and fun pass through |
| LinprogHighs.PreparedCall | scipy/optimize/_linprog_highs.py:331-377 | the solver receives sane options and finite lhs, rhs, lb and ub of the right lengths |
| LinprogHighs.PreparedCallMeaning | scipy/optimize/_linprog_highs.py:331-377 | the call carries c and the sanitised options; its rows admit exactly the activities meeting A_ub x <= b_ub and A_eq x == b_eq, and its variable bounds exactly the values the caller's admit, for everything strictly inside (-CONST_INF, CONST_INF); finite bounds pass unchanged |
| LinprogHighs.LinprogHighs | scipy/optimize/_linprog_highs.py:265-402 | the straight-line body (with its four in-place replacements) returns the answer MakeSolution gives for the solver's response to PreparedCall |

## Left out

- `_bspl.evaluate_all_bspl` is compiled code and is not part of this model. The collocation
  builders take the basis values as a function parameter `bspl`. CollocationRowEvaluates ties a row
  to `_naive_eval` when `bspl` returns the recurrence's values.
- `BSpline.basis_element` is not part of this model. `_sum_basis_elements` takes the element
  evaluation as a parameter, and `nan_to_num` of an out-of-range element is folded into that
  parameter.
- The constructor's own source is not part of this model. `BSplineCtor.Construct` models the
  contract `test_ctor` pins down. The order of its checks is a choice of this model; only
  acceptance versus refusal is proved order-independent.
- BSplineCollocation.InterpCollocationMatrix, BSplineCollocation.LsqObservationMatrix and
  BSplineCollocation.PeriodicCollocationSystem require every data point in the base interval
  [t[k], t[n]] and n >= k+1. On data outside it, the source's row write `A[j, left-k:left+1] = bb`
  gets a clipped or empty slice. For k >= 1, numpy then raises a broadcast ValueError. For k = 0,
  the length-1 `bb` broadcasts into the empty slice (`A[j, -1:0]` below t[0], `A[j, n:n+1]` above
  t[n]), so the write does nothing and the row stays zero. `make_lsq_full_matrix` then finishes and
  ignores that point, and `make_interp_full_matr` fails only later, in `sl.solve` on a singular
  matrix. Neither error path nor the silent zero row is modelled. The periodic builder is not
  affected: with k = 0 it already fails (RowOutOfRange). The callers in the tests use k = 3 and
  build their knots from the data, so they meet this requirement.
- The dense solves (`sl.solve`, `np.linalg.lstsq`, `linalg.inv`), `splev`/`splrep`, the random
  spline generators and `np.random.seed` are not modelled; only matrix assembly is.
- BSplineEval.UnitCoefficientsGiveOne: stated on [t[k], t[n]) rather than the closed interval the
  test samples. At x == t[n] the half-open reference sum depends on the knots. It is 0 when t[n]
  is repeated k+1 times, and it can still be 1 when t[n] is simple; UnitCoefficientsAtRightEnd
  shows one instance of each. The general statement at x == t[n] is not proved.
- BSplineBasis.B0123: stated only for der 0 and 2 and at the two uncovered knots. The other pieces
  are related to the recurrence through QuadraticBasisElement and
  QuadraticPiecesSecondDifference.
- Floating-point rounding, NaN propagation and the `atol` tolerances are not modelled; the
  model states exact equalities over `real`.
- `np.log`, `special.entr`/`rel_entr` and the means that finish each entropy estimator are
  floating-point or foreign calls. The model stops at the differences, weights and indices they
  consume. The Correa mean and centred sums are not modelled.
- Only a one-dimensional sample along the last axis is modelled; `moveaxis` and broadcasting are
  not.
- Entropy.PadAlongLastAxis: requires a non-empty sample. On an empty one the source fails when it
  reads X[..., [0]], and `differential_entropy` rejects such samples earlier.
- Entropy.DefaultWindow: `math.floor(math.sqrt(n) + 0.5)` is modelled by its exact integer
  characterisation, (2w-1)^2 <= 4n < (2w+1)^2, not by floating-point sqrt.
- Entropy.Lower: ASCII case folding only. Python's `str.lower` also folds non-ASCII letters.
- FiniteDiff.Derivative: n is a natural number. With a negative n the source calls
  `central_diff_weights` and divides by an empty product; that path is not modelled.
- FiniteDiff.DerivativeValue: division by zero (dx == 0, n >= 1) is the outcome NonFinite. The
  model does not distinguish inf from nan.
- `central_diff_weights` builds and inverts a Vandermonde matrix; this is not modelled. The model
  passes its result to `derivative` as the parameter `general` and proves that the precomputed
  tables satisfy the moment equations that define that inverse row.
- `extra args` passed to `func` are folded into `func`.
- LinprogHighs.ReplaceInf: CONST_INF comes from compiled HiGHS constants that are not part of this
  model, so it is a parameter.
- `highs_wrapper`, the `csc_matrix`/`vstack` conversion of A, `_check_unknown_options` and `warn`
  are not modelled. The solver is a function parameter, A is not modelled, and warnings are not
  modelled.
- LinprogHighs.SanitizeOptions: integer-valued options are modelled as integers. Python's set
  membership would also accept `True` for 1 or `3.0` for 3.
- The HiGHS numeric status values are not part of this model. The status is a datatype of the
  thirteen listed statuses plus `Unlisted`.

## Findings

| source | as written | input that shows it | evidently intended | confidence | as-written member | corrected member |
|---|---|---|---|---|---|---|
| scipy/interpolate/tests/test_bsplines.py:397-407 | `_naive_eval` locates the span with `searchsorted(t, x) - 1` (side left) and sums the half-open basis functions B_{i-k..i} | k=0, t=[0,1,2], c=[3,4], x=1: `_naive_eval` gives 0, while `_naive_eval_2` (and BSpline) give 4. The same happens at any interior knot of multiplicity k+1 | the local sum equals the global sum `_naive_eval_2` on the whole base interval, which side='right' location (clamped to n-1) achieves | not executed | BSplineEval.NaiveEvalMissesFullMultipleKnot | BSplineEval.CorrectedEqualsGlobal |
