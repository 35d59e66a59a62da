/**
 * The per-node normalisation of mktree.c used around oblique_split:
 * normalize_data translates every attribute with a negative minimum so that
 * the points lie in the positive quadrant, unnormalize_data undoes the
 * translation, and unnormalize_hyperplane moves the constant term of the
 * hyperplane found on the translated points so that it takes the same
 * values on the original ones.
 */
module Normalize {
  import opened Oc1
  import Util

  /** The feature vectors of the points, in order. */
  function Dims(pts: seq<Point>): (r: seq<seq<real>>)
    reads pts
    ensures |r| == |pts| && forall i :: 0 <= i < |pts| ==> r[i] == pts[i].dimension
  {
    seq(|pts|, i requires 0 <= i < |pts| reads pts => pts[i].dimension)
  }

  /** Every vector of xs has d coordinates. */
  predicate Rows(xs: seq<seq<real>>, d: nat)
  {
    forall i :: 0 <= i < |xs| ==> |xs[i]| == d
  }

  /** v is the least coordinate j among the vectors xs, and one of them has it. */
  predicate IsColumnMin(xs: seq<seq<real>>, j: nat, v: real)
  {
    && (exists i :: 0 <= i < |xs| && j < |xs[i]| && v == xs[i][j])
    && (forall i :: 0 <= i < |xs| && j < |xs[i]| ==> v <= xs[i][j])
  }

  /** m holds the attribute minima of xs, one per coordinate. */
  predicate Minima(xs: seq<seq<real>>, m: seq<real>)
  {
    forall j :: 0 <= j < |m| ==> IsColumnMin(xs, j, m[j])
  }

  /** x with every coordinate whose minimum is negative reduced by that minimum. */
  function Translated(x: seq<real>, m: seq<real>): (r: seq<real>)
    requires |x| == |m|
    ensures |r| == |x|
  {
    seq(|x|, j requires 0 <= j < |x| => if m[j] < 0.0 then x[j] - m[j] else x[j])
  }

  /** The inverse move: every coordinate whose minimum is negative increased by it. */
  function Restored(x: seq<real>, m: seq<real>): (r: seq<real>)
    requires |x| == |m|
    ensures |r| == |x|
  {
    seq(|x|, j requires 0 <= j < |x| => if m[j] < 0.0 then x[j] + m[j] else x[j])
  }

  /** unnormalize_data undoes normalize_data and the other way round. */
  lemma RestoredTranslated(x: seq<real>, m: seq<real>)
    requires |x| == |m|
    ensures Restored(Translated(x, m), m) == x
    ensures Translated(Restored(x, m), m) == x
  {
    assert forall j :: 0 <= j < |x| ==> Restored(Translated(x, m), m)[j] == x[j];
    assert forall j :: 0 <= j < |x| ==> Translated(Restored(x, m), m)[j] == x[j];
  }

  /**
   * Translating by the attribute minima puts every point in the positive
   * quadrant, and an attribute whose minimum was negative then has minimum 0.
   */
  lemma TranslatedNonNegative(xs: seq<seq<real>>, m: seq<real>, i: nat, j: nat)
    requires Rows(xs, |m|) && Minima(xs, m) && i < |xs| && j < |m|
    ensures Translated(xs[i], m)[j] >= 0.0 || (m[j] >= 0.0 && Translated(xs[i], m)[j] == xs[i][j])
    ensures m[j] >= 0.0 ==> Translated(xs[i], m)[j] >= 0.0
    ensures m[j] < 0.0 ==> exists a :: 0 <= a < |xs| && Translated(xs[a], m)[j] == 0.0
  {
    assert IsColumnMin(xs, j, m[j]);
    if m[j] < 0.0 {
      var a :| 0 <= a < |xs| && j < |xs[a]| && m[j] == xs[a][j];
      assert Translated(xs[a], m)[j] == 0.0;
    }
  }

  /** Σ c[j]·m[j] over the first n coordinates whose minimum is negative. */
  function Shift(c: seq<real>, m: seq<real>, n: nat): real
    requires n <= |m| && n <= |c|
  {
    if n == 0 then 0.0 else Shift(c, m, n - 1) + (if m[n - 1] < 0.0 then c[n - 1] * m[n - 1] else 0.0)
  }

  /** The hyperplane unnormalize_hyperplane leaves: the constant term less Σ c[j]·m[j] over the negative minima. */
  function UnnormalizedPlane(c: seq<real>, m: seq<real>): (r: seq<real>)
    requires |c| == |m| + 1
    ensures |r| == |c|
  {
    c[|m| := c[|m|] - Shift(c, m, |m|)]
  }

  lemma {:induction false} DotTranslated(c: seq<real>, x: seq<real>, m: seq<real>, n: nat)
    requires |x| == |m| && n <= |x| && n <= |c|
    ensures Dot(c, Translated(x, m), n) == Dot(c, x, n) - Shift(c, m, n)
  {
    if n > 0 {
      DotTranslated(c, x, m, n - 1);
    }
  }

  lemma {:induction false} DotIgnoresConstant(c: seq<real>, v: real, x: seq<real>, n: nat)
    requires n <= |x| < |c|
    ensures Dot(c[|x| := v], x, n) == Dot(c, x, n)
  {
    if n > 0 {
      DotIgnoresConstant(c, v, x, n - 1);
    }
  }

  /**
   * The unnormalised hyperplane takes at an original point the value the
   * hyperplane found takes at the translated point, so every point stays
   * on the same side.
   */
  lemma UnnormalizedValue(c: seq<real>, m: seq<real>, x: seq<real>)
    requires |c| == |m| + 1 && |x| == |m|
    ensures HyperplaneValue(UnnormalizedPlane(c, m), x) == HyperplaneValue(c, Translated(x, m))
  {
    DotTranslated(c, x, m, |x|);
    DotIgnoresConstant(c, c[|m|] - Shift(c, m, |m|), x, |x|);
  }

  /** The minimum of coordinate j over the points (the temp vector and min of normalize_data). */
  method ColumnMinimum(pts: seq<Point>, j: nat) returns (m: real)
    requires |pts| >= 1 && forall i :: 0 <= i < |pts| ==> j < |pts[i].dimension|
    ensures IsColumnMin(Dims(pts), j, m)
  {
    var n := |pts|;
    var temp := new real[n];
    for i := 0 to n
      modifies temp
      invariant forall a :: 0 <= a < i ==> temp[a] == pts[a].dimension[j]
    {
      temp[i] := pts[i].dimension[j];
    }
    m := Util.Min(temp, n);
    ghost var xs := Dims(pts);
    assert forall a :: 0 <= a < n ==> temp[a] == xs[a][j];
  }

  /** The inner loop of normalize_data (delta = -min) and of unnormalize_data (delta = min): coordinate j of every point moves by delta. */
  method ShiftColumn(pts: seq<Point>, j: nat, delta: real)
    requires Distinct(pts) && forall i :: 0 <= i < |pts| ==> j < |pts[i].dimension|
    modifies pts
    ensures forall i :: 0 <= i < |pts| ==>
      pts[i].dimension == old(pts[i].dimension[j := pts[i].dimension[j] + delta])
    ensures forall i :: 0 <= i < |pts| ==> pts[i].category == old(pts[i].category) && pts[i].val == old(pts[i].val)
  {
    for i := 0 to |pts|
      invariant forall a :: 0 <= a < i ==> pts[a].dimension == old(pts[a].dimension[j := pts[a].dimension[j] + delta])
      invariant forall a :: i <= a < |pts| ==> pts[a].dimension == old(pts[a].dimension)
      invariant forall a :: 0 <= a < |pts| ==> pts[a].category == old(pts[a].category) && pts[a].val == old(pts[a].val)
    {
      pts[i].dimension := pts[i].dimension[j := pts[i].dimension[j] + delta];
    }
  }

  /** x with its first |ms| coordinates translated by the minima ms. */
  function TranslatedBy(x: seq<real>, ms: seq<real>): (r: seq<real>)
    requires |ms| <= |x|
    ensures |r| == |x|
  {
    seq(|x|, c requires 0 <= c < |x| => if c < |ms| && ms[c] < 0.0 then x[c] - ms[c] else x[c])
  }

  /**
   * normalize_data: the minimum of every attribute is recorded in
   * attribute_min and, when it is negative, subtracted from that attribute
   * of every point.
   */
  method NormalizeData(w: Workspace, pts: seq<Point>)
    requires w.Valid() && Distinct(pts) && |pts| >= 1
    requires forall i :: 0 <= i < |pts| ==> |pts[i].dimension| == w.noOfDimensions
    modifies pts, w.attributeMin
    ensures Minima(old(Dims(pts)), w.attributeMin[..])
    ensures forall i :: 0 <= i < |pts| ==> pts[i].dimension == Translated(old(pts[i].dimension), w.attributeMin[..])
    ensures forall i :: 0 <= i < |pts| ==> pts[i].category == old(pts[i].category) && pts[i].val == old(pts[i].val)
  {
    var d := w.noOfDimensions;
    ghost var xs := Dims(pts);
    ghost var ms: seq<real> := [];
    for j := 0 to d
      invariant |ms| == j && ms == w.attributeMin[..j]
      invariant forall c :: 0 <= c < j ==> IsColumnMin(xs, c, ms[c])
      invariant forall i :: 0 <= i < |pts| ==> pts[i].dimension == TranslatedBy(xs[i], ms)
      invariant forall i :: 0 <= i < |pts| ==> pts[i].category == old(pts[i].category) && pts[i].val == old(pts[i].val)
    {
      var m := NormalizeColumn(pts, xs, ms, j);
      w.attributeMin[j] := m;
      ms := ms + [m];
      assert ms == w.attributeMin[..j + 1];
    }
    assert ms == w.attributeMin[..];
    forall i | 0 <= i < |pts|
      ensures pts[i].dimension == Translated(xs[i], ms)
    {
      assert TranslatedBy(xs[i], ms) == Translated(xs[i], ms);
    }
  }

  /** One column of normalize_data: the minimum m of coordinate j, subtracted from it when negative. */
  method NormalizeColumn(pts: seq<Point>, ghost xs: seq<seq<real>>, ghost ms: seq<real>, j: nat) returns (m: real)
    requires Distinct(pts) && |pts| >= 1 && j == |ms| && |xs| == |pts|
    requires forall i :: 0 <= i < |pts| ==> j < |xs[i]| && pts[i].dimension == TranslatedBy(xs[i], ms)
    modifies pts
    ensures IsColumnMin(xs, j, m)
    ensures forall i :: 0 <= i < |pts| ==> pts[i].dimension == TranslatedBy(xs[i], ms + [m])
    ensures forall i :: 0 <= i < |pts| ==> pts[i].category == old(pts[i].category) && pts[i].val == old(pts[i].val)
  {
    m := ColumnMinimum(pts, j);
    assert forall i :: 0 <= i < |pts| ==> Dims(pts)[i][j] == xs[i][j];
    if m < 0.0 {
      ShiftColumn(pts, j, -m);
    }
    forall i | 0 <= i < |pts|
      ensures pts[i].dimension == TranslatedBy(xs[i], ms + [m])
    {
      assert |pts[i].dimension| == |TranslatedBy(xs[i], ms + [m])|;
    }
  }

  /** unnormalize_data: every attribute whose recorded minimum is negative gets it added back. */
  method UnnormalizeData(w: Workspace, pts: seq<Point>)
    requires w.Valid() && Distinct(pts)
    requires forall i :: 0 <= i < |pts| ==> |pts[i].dimension| == w.noOfDimensions
    modifies pts
    ensures forall i :: 0 <= i < |pts| ==> pts[i].dimension == Restored(old(pts[i].dimension), w.attributeMin[..])
    ensures forall i :: 0 <= i < |pts| ==> pts[i].category == old(pts[i].category) && pts[i].val == old(pts[i].val)
  {
    var d := w.noOfDimensions;
    ghost var xs := Dims(pts);
    ghost var m := w.attributeMin[..];
    for j := 0 to d
      invariant forall i :: 0 <= i < |pts| ==> pts[i].dimension == RestoredTo(xs[i], m, j)
      invariant forall i :: 0 <= i < |pts| ==> pts[i].category == old(pts[i].category) && pts[i].val == old(pts[i].val)
    {
      if w.attributeMin[j] < 0.0 {
        ShiftColumn(pts, j, w.attributeMin[j]);
      }
      forall i | 0 <= i < |pts|
        ensures pts[i].dimension == RestoredTo(xs[i], m, j + 1)
      {
        assert pts[i].dimension == RestoredTo(xs[i], m, j + 1);
      }
    }
    forall i | 0 <= i < |pts|
      ensures pts[i].dimension == Restored(xs[i], m)
    {
      assert RestoredTo(xs[i], m, d) == Restored(xs[i], m);
    }
  }

  /** The first j coordinates of x restored by m. */
  function RestoredTo(x: seq<real>, m: seq<real>, j: nat): (r: seq<real>)
    requires |x| == |m| && j <= |x|
    ensures |r| == |x|
  {
    seq(|x|, c requires 0 <= c < |x| => if c < j && m[c] < 0.0 then x[c] + m[c] else x[c])
  }

  /** unnormalize_hyperplane: the constant term loses c[j]·attribute_min[j] for every negative minimum. */
  method UnnormalizeHyperplane(w: Workspace)
    requires w.Valid()
    modifies w.coeffArray
    ensures w.coeffArray[..] == UnnormalizedPlane(old(w.coeffArray[..]), w.attributeMin[..])
  {
    var d := w.noOfDimensions;
    ghost var c := w.coeffArray[..];
    ghost var m := w.attributeMin[..];
    for i := 0 to d
      invariant w.coeffArray[..] == c[d := c[d] - Shift(c, m, i)]
    {
      assert w.coeffArray[..][i] == c[i] && w.coeffArray[..][d] == c[d] - Shift(c, m, i);
      if w.attributeMin[i] < 0.0 {
        w.coeffArray[d] := w.coeffArray[d] - w.coeffArray[i] * w.attributeMin[i];
      }
      assert w.coeffArray[d] == c[d] - Shift(c, m, i + 1);
      assert forall k :: 0 <= k < d ==> w.coeffArray[k] == c[k];
    }
  }
}
