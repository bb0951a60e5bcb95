/** The index machinery of the differential-entropy estimators: argument
    validation, edge-clamping pads, the window differences and the
    Ebrahimi and Correa weights and indices. Logarithms and the final means
    are not modelled; every sample is a sorted vector X of length n and the
    window length is m. */
module Entropy {
  import opened Wrappers

  datatype EntropyError = NonPositiveBase | BadWindowLength | UnknownMethod

  datatype Estimator = Vasicek | VanEs | Correa | Ebrahimi

  /** A logarithm base is acceptable when absent or positive. */
  predicate BaseAccepted(base: Option<real>)
  {
    base.None? || base.value > 0.0
  }

  /** `entropy` refuses a given, non-positive base before looking at pk. */
  function EntropyBaseCheck(base: Option<real>): (r: Option<EntropyError>)
    ensures r.Some? <==> base.Some? && base.value <= 0.0
    ensures r.Some? ==> r.value == NonPositiveBase
  {
    if BaseAccepted(base) then None else Some(NonPositiveBase)
  }

  /** Lower-casing, on ASCII letters only. */
  function LowerChar(ch: char): (r: char)
    ensures 'A' <= ch <= 'Z' ==> 'a' <= r <= 'z' && r as int - ch as int == 32
    ensures !('A' <= ch <= 'Z') ==> r == ch
  {
    if 'A' <= ch <= 'Z' then (ch as int + 32) as char else ch
  }

  function Lower(s: string): (r: string)
    ensures |r| == |s| && forall i :: 0 <= i < |s| ==> r[i] == LowerChar(s[i])
  {
    seq(|s|, i requires 0 <= i < |s| => LowerChar(s[i]))
  }

  lemma {:induction false} LowerIdempotent(s: string)
    ensures Lower(Lower(s)) == Lower(s)
  {
    var l := Lower(s);
    forall i | 0 <= i < |s|
      ensures Lower(l)[i] == l[i]
    {
      assert !('A' <= l[i] <= 'Z');
    }
  }

  /** The names of the estimator table, looked up after lower-casing. */
  function EstimatorByName(name: string): (r: Option<Estimator>)
    ensures r.Some? <==> Lower(name) in {"vasicek", "van es", "correa", "ebrahimi"}
    ensures r == Some(Vasicek) <==> Lower(name) == "vasicek"
    ensures r == Some(VanEs) <==> Lower(name) == "van es"
    ensures r == Some(Correa) <==> Lower(name) == "correa"
    ensures r == Some(Ebrahimi) <==> Lower(name) == "ebrahimi"
  {
    var key := Lower(name);
    if key == "vasicek" then Some(Vasicek)
    else if key == "van es" then Some(VanEs)
    else if key == "correa" then Some(Correa)
    else if key == "ebrahimi" then Some(Ebrahimi)
    else None
  }

  /** Upper- and mixed-case spellings select the same estimator; names
      outside the table are refused. */
  lemma {:induction false} EstimatorNamesIgnoreCase()
    ensures EstimatorByName("VASICEK") == Some(Vasicek)
    ensures EstimatorByName("Van Es") == Some(VanEs)
    ensures EstimatorByName("vanes") == None
    ensures forall s :: EstimatorByName(Lower(s)) == EstimatorByName(s)
  {
    assert Lower("VASICEK") == "vasicek";
    assert Lower("Van Es") == "van es";
    assert Lower("vanes") == "vanes";
    forall s
      ensures EstimatorByName(Lower(s)) == EstimatorByName(s)
    {
      LowerIdempotent(s);
    }
  }

  /** The default window floor(sqrt(n) + 0.5) in exact arithmetic: the
      integer w with (2w - 1)^2 <= 4n < (2w + 1)^2, the integer nearest to
      sqrt(n). */
  function DefaultWindow(n: nat): (w: nat)
    ensures 4 * n < (2 * w + 1) * (2 * w + 1)
    ensures w == 0 || (2 * w - 1) * (2 * w - 1) <= 4 * n
  {
    RoundedRootFrom(n, 0)
  }

  function RoundedRootFrom(n: nat, w: nat): (r: nat)
    requires w == 0 || (2 * w - 1) * (2 * w - 1) <= 4 * n
    ensures 4 * n < (2 * r + 1) * (2 * r + 1)
    ensures r == 0 || (2 * r - 1) * (2 * r - 1) <= 4 * n
    decreases 4 * n + 1 - w
  {
    if 4 * n < (2 * w + 1) * (2 * w + 1) then w
    else
      assert 2 * w + 1 <= (2 * w + 1) * (2 * w + 1);
      RoundedRootFrom(n, w + 1)
  }

  /** The window check 2 <= 2m < n. */
  predicate WindowAccepted(n: nat, m: int)
  {
    2 <= 2 * m < n
  }

  /** The default window passes the window check exactly from five
      samples on. */
  lemma {:induction false} DefaultWindowAccepted(n: nat)
    ensures WindowAccepted(n, DefaultWindow(n)) <==> n >= 5
  {
    RoundedRootAccepted(n, DefaultWindow(n));
  }

  /** For the integer w nearest to sqrt(n), 2 <= 2w < n holds exactly when
      n >= 5. */
  lemma {:induction false} RoundedRootAccepted(n: nat, w: nat)
    requires 4 * n < (2 * w + 1) * (2 * w + 1)
    requires w == 0 || (2 * w - 1) * (2 * w - 1) <= 4 * n
    ensures WindowAccepted(n, w) <==> n >= 5
  {
    if w == 0 {
      assert n == 0;
    } else if w == 1 {
      assert 4 * n < 9;
    } else if w == 2 {
      assert 9 <= 4 * n < 25;
    } else {
      LargeRootBelowHalf(n, w);
    }
  }

  /** From w >= 3 on, (2w - 1)^2 > 8w, so 2w < n. */
  lemma {:induction false} LargeRootBelowHalf(n: nat, w: nat)
    requires w >= 3 && (2 * w - 1) * (2 * w - 1) <= 4 * n
    ensures 2 * w < n
  {
    var a := 2 * w - 1;
    assert a * a >= 5 * a by {
      assert a >= 5;
    }
  }

  datatype ArgsResult = Accepted(m: nat, estimator: Estimator) | Rejected(e: EntropyError)

  /** `differential_entropy`'s checks in order: the window (the default one
      when none is given), then the base, then the estimator name. An
      accepted call has a window with 1 <= m and 2m < n. */
  function DifferentialEntropyArgs(n: nat, window: Option<int>, base: Option<real>, name: string): (r: ArgsResult)
    ensures r.Accepted? ==> 1 <= r.m && 2 * r.m < n && BaseAccepted(base)
    ensures r.Accepted? ==> EstimatorByName(name) == Some(r.estimator)
    ensures r.Accepted? ==> r.m == if window.Some? then window.value else DefaultWindow(n)
    ensures r == Rejected(BadWindowLength) <==>
      !WindowAccepted(n, if window.Some? then window.value else DefaultWindow(n))
    ensures r == Rejected(NonPositiveBase) <==>
      WindowAccepted(n, if window.Some? then window.value else DefaultWindow(n)) && !BaseAccepted(base)
    ensures r == Rejected(UnknownMethod) <==>
      WindowAccepted(n, if window.Some? then window.value else DefaultWindow(n)) && BaseAccepted(base)
      && EstimatorByName(name).None?
  {
    var w := if window.Some? then window.value else DefaultWindow(n);
    if !WindowAccepted(n, w) then Rejected(BadWindowLength)
    else if !BaseAccepted(base) then Rejected(NonPositiveBase)
    else match EstimatorByName(name)
      case None => Rejected(UnknownMethod)
      case Some(e) => Accepted(w, e)
  }

  /** Without an explicit window, fewer than five samples are refused. */
  lemma {:induction false} SmallSamplesRefusedByDefault(n: nat, base: Option<real>, name: string)
    requires n < 5
    ensures DifferentialEntropyArgs(n, None, base, name) == Rejected(BadWindowLength)
  {
    DefaultWindowAccepted(n);
  }

  /** Index clamping to [lo, hi]. */
  function Clamp(j: int, lo: int, hi: int): int
    requires lo <= hi
  {
    if j < lo then lo else if j > hi then hi else j
  }

  /** k copies of x. */
  function Copies(x: real, k: nat): (r: seq<real>)
    ensures |r| == k && forall i :: 0 <= i < k ==> r[i] == x
  {
    seq(k, _ => x)
  }

  /** m copies of the first sample, the sample, m copies of the last. */
  function PadAlongLastAxis(X: seq<real>, m: nat): (r: seq<real>)
    requires |X| > 0
    ensures |r| == |X| + 2 * m
    ensures forall i :: 0 <= i < |r| ==> r[i] == X[Clamp(i - m, 0, |X| - 1)]
  {
    Copies(X[0], m) + X + Copies(X[|X| - 1], m)
  }

  /** Each entry X[i] repeated reps[i] times, in order. */
  function Repeat(X: seq<real>, reps: seq<nat>): (r: seq<real>)
    requires |reps| == |X|
    decreases |X|
  {
    if |X| == 0 then [] else Copies(X[0], reps[0]) + Repeat(X[1..], reps[1..])
  }

  /** Samples repeated once each, then the last one k times. */
  lemma {:induction false} RepeatLastOnly(X: seq<real>, reps: seq<nat>, k: nat)
    requires |X| >= 1 && |reps| == |X| && reps[|X| - 1] == k
    requires forall i :: 0 <= i < |X| - 1 ==> reps[i] == 1
    ensures Repeat(X, reps) == X[..|X| - 1] + Copies(X[|X| - 1], k)
    decreases |X|
  {
    if |X| == 1 {
      assert X[1..] == [] && reps[1..] == [];
      assert Copies(X[0], k) + [] == Copies(X[0], k);
      assert X[..0] == [];
    } else {
      var tail, rtail := X[1..], reps[1..];
      RepeatLastOnly(tail, rtail, k);
      assert Copies(X[0], 1) == [X[0]];
      assert tail[..|tail| - 1] == X[1..|X| - 1];
      assert tail[|tail| - 1] == X[|X| - 1];
      assert [X[0]] + X[1..|X| - 1] == X[..|X| - 1];
    }
  }

  /** The repeat counts of the Vasicek estimator: m + 1 for both ends, 1 in
      between. */
  function RepeatCounts(n: nat, m: nat): (r: seq<nat>)
    requires n >= 2
    ensures |r| == n && r[0] == m + 1 && r[n - 1] == m + 1
    ensures forall i :: 0 < i < n - 1 ==> r[i] == 1
  {
    [m + 1] + seq(n - 2, _ => 1) + [m + 1]
  }

  /** Repeating the ends m + 1 times and the inner samples once. */
  lemma {:induction false} RepeatCountsShape(X: seq<real>, m: nat)
    requires |X| >= 2
    ensures Repeat(X, RepeatCounts(|X|, m))
            == Copies(X[0], m + 1) + (X[1..][..|X| - 2] + Copies(X[|X| - 1], m + 1))
  {
    var counts := RepeatCounts(|X|, m);
    RepeatLastOnly(X[1..], counts[1..], m + 1);
  }

  /** Repeating the ends m + 1 times is the same padding as
      `_pad_along_last_axis`. */
  lemma {:induction false} RepeatCountsPad(X: seq<real>, m: nat)
    requires |X| >= 2
    ensures Repeat(X, RepeatCounts(|X|, m)) == PadAlongLastAxis(X, m)
  {
    RepeatCountsShape(X, m);
    EndsRepeatedIsPad(X, m);
  }

  lemma {:induction false} EndsRepeatedIsPad(X: seq<real>, m: nat)
    requires |X| >= 2
    ensures Copies(X[0], m + 1) + (X[1..][..|X| - 2] + Copies(X[|X| - 1], m + 1)) == PadAlongLastAxis(X, m)
  {
    var n := |X|;
    var lhs := Copies(X[0], m + 1) + (X[1..][..n - 2] + Copies(X[n - 1], m + 1));
    var rhs := PadAlongLastAxis(X, m);
    assert |lhs| == |rhs|;
    forall i | 0 <= i < |lhs|
      ensures lhs[i] == rhs[i]
    {
      if i < m + 1 {
        assert lhs[i] == X[0];
      } else if i < m + n - 1 {
        assert lhs[i] == X[1..][..n - 2][i - m - 1];
      } else {
        assert lhs[i] == X[n - 1];
      }
    }
  }

  /** Every entry at or after position p is at least the one at p. */
  predicate Sorted(X: seq<real>)
  {
    forall p, q :: 0 <= p <= q < |X| ==> X[p] <= X[q]
  }

  /** The Vasicek window differences padded[2m:] - padded[:-2m] over the
      repeated sample: n of them, the i-th being X[min(i+m, n-1)] -
      X[max(i-m, 0)], never negative on a sorted sample. */
  function VasicekDifferences(X: seq<real>, m: nat): (d: seq<real>)
    requires |X| >= 2 && m >= 1
    ensures |d| == |X|
    ensures forall i :: 0 <= i < |X| ==>
      d[i] == X[Clamp(i + m, 0, |X| - 1)] - X[Clamp(i - m, 0, |X| - 1)]
    ensures Sorted(X) ==> forall i :: 0 <= i < |X| ==> d[i] >= 0.0
  {
    var padded := Repeat(X, RepeatCounts(|X|, m));
    RepeatCountsPad(X, m);
    seq(|padded| - 2 * m, i requires 0 <= i < |padded| - 2 * m => padded[i + 2 * m] - padded[i])
  }

  /** The van Es spacings X[m:] - X[:-m]: n - m of them, X[i+m] - X[i],
      never negative on a sorted sample; they are followed by the n - m + 1
      reciprocals 1/k for k in m .. n. */
  function VanEsDifferences(X: seq<real>, m: nat): (d: seq<real>)
    requires 1 <= m <= |X|
    ensures |d| == |X| - m
    ensures forall i :: 0 <= i < |d| ==> d[i] == X[i + m] - X[i]
    ensures Sorted(X) ==> forall i :: 0 <= i < |d| ==> d[i] >= 0.0
  {
    var hi := X[m..];
    var lo := X[..|X| - m];
    seq(|hi|, i requires 0 <= i < |hi| => hi[i] - lo[i])
  }

  /** The Ebrahimi weight of the 1-based position i: the right-end write
      (i >= n - m + 1) is applied after the left-end one (i <= m), and the
      rest keep 2. */
  function CiWeight(n: nat, m: nat, i: int): real
    requires 1 <= i <= n
  {
    if i >= n - m + 1 then 1.0 + (n - i) as real / m as real
    else if i <= m then 1.0 + (i - 1) as real / m as real
    else 2.0
  }

  /** The weights ci: a vector of 2s, then the masked writes for i <= m and
      for i >= n - m + 1, each over its whole mask at once. */
  method EbrahimiWeights(n: nat, m: nat) returns (ci: array<real>)
    ensures fresh(ci) && ci.Length == n
    ensures forall j :: 0 <= j < n ==> ci[j] == CiWeight(n, m, j + 1)
  {
    ci := new real[n](_ => 2.0);
    forall j | 0 <= j < n && j + 1 <= m {
      ci[j] := 1.0 + (j as real) / (m as real);
    }
    forall j | 0 <= j < n && j + 1 >= n - m + 1 {
      ci[j] := 1.0 + ((n - (j + 1)) as real) / (m as real);
    }
  }

  /** With 2m <= n no position lies in both masks, so the order of the two
      writes does not matter. */
  lemma {:induction false} CiMasksDisjoint(n: nat, m: nat, i: int)
    requires 2 * m <= n && 1 <= i <= n
    ensures !(i <= m && i >= n - m + 1)
  {
  }

  /** With 2m <= n the weights ramp linearly from 1 up to 2 over the first
      and last m positions: ci = 1 + min(i - 1, n - i, m)/m, always within
      [1, 2], and symmetric under i -> n + 1 - i. */
  lemma {:induction false} CiClosedForm(n: nat, m: nat, i: int)
    requires 1 <= m && 2 * m <= n && 1 <= i <= n
    ensures var d := if i - 1 <= n - i then i - 1 else n - i;
      CiWeight(n, m, i) == 1.0 + (if d <= m then d else m) as real / m as real
    ensures 1.0 <= CiWeight(n, m, i) <= 2.0
    ensures CiWeight(n, m, i) == CiWeight(n, m, n + 1 - i)
  {
    var d := if i - 1 <= n - i then i - 1 else n - i;
    var num := if d <= m then d else m;
    if i >= n - m + 1 {
      assert num == n - i;
    } else if i <= m {
      assert num == i - 1;
    } else {
      assert num == m;
      SelfQuotient(m as real);
    }
    CiBounds(n, m, i);
  }

  lemma {:induction false} CiBounds(n: nat, m: nat, i: int)
    requires 1 <= m && 2 * m <= n && 1 <= i <= n
    ensures 1.0 <= CiWeight(n, m, i) <= 2.0
  {
    var num := if i >= n - m + 1 then n - i else if i <= m then i - 1 else m;
    assert 0 <= num <= m;
    QuotientAtMostOne(num as real, m as real);
  }

  lemma {:induction false} SelfQuotient(b: real)
    requires b != 0.0
    ensures b / b == 1.0
  {
  }

  lemma {:induction false} QuotientAtMostOne(a: real, b: real)
    requires 0.0 <= a <= b && b > 0.0
    ensures 0.0 <= a / b <= 1.0
  {
  }

  /** The Correa gather indices j0 = i + dj + m - 1 for i in 1 .. n (the
      columns) and dj in -m .. m (the rows). */
  function CorreaIndices(n: nat, m: nat): (j0: seq<seq<int>>)
    ensures |j0| == 2 * m + 1
    ensures forall a :: 0 <= a < |j0| ==> |j0[a]| == n
    ensures forall a, b :: 0 <= a < |j0| && 0 <= b < n ==> 0 <= j0[a][b] < n + 2 * m
  {
    seq(2 * m + 1, a => seq(n, b => var i := b + 1; var dj := a - m; i + dj + m - 1))
  }

  /** Gathering the padded sample at the Correa indices reads X_(i+dj),
      with positions before the first sample read as the first and those
      after the last read as the last. */
  lemma {:induction false} CorreaGather(X: seq<real>, m: nat, a: nat, b: nat)
    requires |X| > 0 && a < 2 * m + 1 && b < |X|
    ensures var j0 := CorreaIndices(|X|, m);
      PadAlongLastAxis(X, m)[j0[a][b]] == X[Clamp((b + 1) + (a - m) - 1, 0, |X| - 1)]
  {
  }
}
