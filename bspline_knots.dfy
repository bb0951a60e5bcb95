/** `_make_multiples`: three variants of a knot vector with raised knot
    multiplicities, each made by copying the knots into a fresh array and
    overwriting slices of the copy: a double and a triple interior knot, a
    left end repeated k+1 times, and a right end repeated k+1 times. */
module BSplineKnots {
  import opened BSplineBasis

  /** A copy that takes every entry from a knot at an index no smaller than
      the one before it (the index map h is non-decreasing) keeps the knots
      ordered. */
  lemma {:induction false} ReindexKeepsOrder(t: seq<real>, r: seq<real>, h: int -> int)
    requires NonDecreasing(t) && |r| == |t|
    requires forall i :: 0 <= i < |r| ==> 0 <= h(i) < |t| && r[i] == t[h(i)]
    requires forall i, j :: 0 <= i <= j < |r| ==> h(i) <= h(j)
    ensures NonDecreasing(r)
  {
    forall p, q | 0 <= p <= q < |r|
      ensures KnotsInOrder(r, p, q)
    {
      Ordered(t, h(p), h(q));
    }
  }

  method CopyKnots(t: seq<real>) returns (a: array<real>)
    ensures fresh(a) && a[..] == t
  {
    a := new real[|t|](i requires 0 <= i < |t| => t[i]);
  }

  /** The first variant: t1[17:19] = t1[17], then t1[22] = t1[21]. Reading
      t1[21] and writing t1[22] fail for fewer than 23 knots (earlier reads
      of t1[17] fail first for fewer than 18). */
  method RaiseInteriorMultiplicity(t: seq<real>) returns (ok: bool, r: seq<real>)
    ensures ok <==> |t| > 22
    ensures ok ==> |r| == |t|
    ensures ok ==> forall i :: 0 <= i < |t| ==>
      r[i] == if i == 18 then t[17] else if i == 22 then t[21] else t[i]
    ensures ok && NonDecreasing(t) ==> NonDecreasing(r)
  {
    if |t| <= 22 {
      return false, [];
    }
    var t1 := CopyKnots(t);
    var v := t1[17];
    t1[17], t1[18] := v, v;
    t1[22] := t1[21];
    r := t1[..];
    if NonDecreasing(t) {
      ReindexKeepsOrder(t, r, i => if i == 18 then 17 else if i == 22 then 21 else i);
    }
    return true, r;
  }

  /** The second variant: t1[:k+1] = t1[0], so the first k+1 knots (all of
      them when there are fewer) become t[0]. An empty vector has no t1[0]. */
  method ClampLeft(t: seq<real>, k: nat) returns (ok: bool, r: seq<real>)
    ensures ok <==> |t| > 0
    ensures ok ==> |r| == |t| && forall i :: 0 <= i < |t| ==> r[i] == if i <= k then t[0] else t[i]
    ensures ok && NonDecreasing(t) ==> NonDecreasing(r)
  {
    if |t| == 0 {
      return false, [];
    }
    var t1 := CopyKnots(t);
    var v := t1[0];
    var stop := if k + 1 < t1.Length then k + 1 else t1.Length;
    forall i | 0 <= i < stop {
      t1[i] := v;
    }
    r := t1[..];
    if NonDecreasing(t) {
      ReindexKeepsOrder(t, r, i => if i <= k then 0 else i);
    }
    return true, r;
  }

  /** The third variant: t1[-k-1:] = t1[-1], so the last k+1 knots (all of
      them when there are fewer; the negative start is clamped to 0) become
      the last knot. */
  method ClampRight(t: seq<real>, k: nat) returns (ok: bool, r: seq<real>)
    ensures ok <==> |t| > 0
    ensures ok ==> |r| == |t| && forall i :: 0 <= i < |t| ==>
      r[i] == if i >= |t| - k - 1 then t[|t| - 1] else t[i]
    ensures ok && NonDecreasing(t) ==> NonDecreasing(r)
  {
    if |t| == 0 {
      return false, [];
    }
    var t1 := CopyKnots(t);
    var n := t1.Length;
    var v := t1[n - 1];
    var start := if n - k - 1 > 0 then n - k - 1 else 0;
    forall i | start <= i < n {
      t1[i] := v;
    }
    r := t1[..];
    if NonDecreasing(t) {
      ReindexKeepsOrder(t, r, i => if i >= n - k - 1 then n - 1 else i);
    }
    return true, r;
  }

  /** All three variants, in the order the generator yields them; the first
      one decides whether the generator fails before yielding anything. */
  method MakeMultiples(t: seq<real>, k: nat) returns (ok: bool, variants: seq<seq<real>>)
    ensures ok <==> |t| > 22
    ensures ok ==> |variants| == 3 && forall v :: v in variants ==> |v| == |t|
    ensures ok && NonDecreasing(t) ==> forall v :: v in variants ==> NonDecreasing(v)
    ensures ok ==> forall i :: 0 <= i < |t| ==>
      && variants[0][i] == (if i == 18 then t[17] else if i == 22 then t[21] else t[i])
      && variants[1][i] == (if i <= k then t[0] else t[i])
      && variants[2][i] == (if i >= |t| - k - 1 then t[|t| - 1] else t[i])
  {
    var ok1, t1 := RaiseInteriorMultiplicity(t);
    if !ok1 {
      return false, [];
    }
    var ok2, t2 := ClampLeft(t, k);
    var ok3, t3 := ClampRight(t, k);
    return true, [t1, t2, t3];
  }
}
