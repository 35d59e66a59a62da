/**
 * The split search of mktree.c: alter_coefficients, which carries a
 * perturbation over into the current hyperplane, and axis_parallel_split,
 * which tries one threshold per feature.
 */
module Mktree {
  import opened Oc1
  import opened Counts
  import opened Perturb
  import opened Cart
  import Util

  /** The points still have the features and categories recorded in ps (their values may differ). */
  predicate SameFeatures(pts: seq<Point>, ps: seq<Sample>)
    reads pts
  {
    |ps| == |pts| && forall p :: 0 <= p < |pts| ==> pts[p].dimension == ps[p].x && pts[p].category == ps[p].cat
  }

  // ----- alter_coefficients -----

  /** Coefficient i after alter_coefficients: the modified value when it differs by more than TOLERANCE. */
  function KeptCoefficient(c: seq<real>, m: seq<real>, i: nat): real
    requires i < |c| && i < |m|
  {
    if Util.MyAbs(c[i] - m[i]) > Tolerance then m[i] else c[i]
  }

  /** The hyperplane once the first n coefficients have been considered. */
  function KeptTo(c: seq<real>, m: seq<real>, n: nat): (r: seq<real>)
    requires |c| == |m| && n <= |c|
    ensures |r| == |c|
  {
    seq(|c|, i requires 0 <= i < |c| => if i < n then KeptCoefficient(c, m, i) else c[i])
  }

  /** The hyperplane alter_coefficients leaves behind. */
  function Kept(c: seq<real>, m: seq<real>): (r: seq<real>)
    requires |c| == |m|
    ensures |r| == |c|
  {
    KeptTo(c, m, |c|)
  }

  /** One of the first n coefficients of m differs from that of c by more than TOLERANCE. */
  predicate MovedBeyond(c: seq<real>, m: seq<real>, n: nat)
    requires n <= |c| && n <= |m|
  {
    exists i :: 0 <= i < n && Util.MyAbs(c[i] - m[i]) > Tolerance
  }

  /**
   * What alter_coefficients makes of the hyperplane: every coefficient ends
   * within TOLERANCE of the modified one, it changes only where it differed
   * by more, and nothing changes exactly when nothing differed by more.
   */
  lemma KeptMeaning(c: seq<real>, m: seq<real>)
    requires |c| == |m|
    ensures forall i :: 0 <= i < |c| ==> Util.MyAbs(Kept(c, m)[i] - m[i]) <= Tolerance
    ensures forall i :: 0 <= i < |c| ==> Kept(c, m)[i] == c[i] || Kept(c, m)[i] == m[i]
    ensures Kept(c, m) == c <==> !MovedBeyond(c, m, |c|)
    ensures Kept(Kept(c, m), m) == Kept(c, m)
  {
    var r := Kept(c, m);
    if r == c {
      forall i | 0 <= i < |c| ensures Util.MyAbs(c[i] - m[i]) <= Tolerance {
        assert r[i] == c[i];
      }
    }
    if !MovedBeyond(c, m, |c|) {
      assert forall i :: 0 <= i < |c| ==> r[i] == c[i];
    }
  }

  /**
   * The points' values once the hyperplane has gone from c0 to c: each
   * value of before has moved by the change of the hyperplane's value at
   * the point's features.
   */
  function AlteredValues(before: seq<Sample>, c0: seq<real>, c: seq<real>): (r: seq<real>)
    requires FitsPlane(before, c0) && |c| == |c0|
    ensures |r| == |before|
  {
    seq(|before|, p requires 0 <= p < |before| =>
      before[p].val + (HyperplaneValue(c, before[p].x) - HyperplaneValue(c0, before[p].x)))
  }

  /**
   * Changing coefficient i to v: values ps that are the altered values for
   * c, moved by (v - c[i]) times their coordinate i, are the altered values
   * for the new hyperplane.
   */
  lemma AlteredShift(before: seq<Sample>, c0: seq<real>, c: seq<real>, i: nat, v: real, ps: seq<Sample>, delta: real, c': seq<real>)
    requires FitsPlane(before, c0) && |c| == |c0| && i < |c| && |ps| == |before|
    requires delta == v - c[i] && c' == c[i := v]
    requires forall p :: 0 <= p < |ps| ==> ps[p].x == before[p].x && ps[p].val == AlteredValues(before, c0, c)[p]
    ensures forall p :: 0 <= p < |ps| ==> ShiftedValues(ps, i, delta)[p] == AlteredValues(before, c0, c')[p]
  {
    forall p | 0 <= p < |ps|
      ensures ShiftedValues(ps, i, delta)[p] == AlteredValues(before, c0, c')[p]
    {
      HyperplaneUpdate(c, before[p].x, i, v);
    }
  }

  /** One point's update in alter_coefficients' inner loops. */
  method ShiftPoint(pt: Point, delta: real)
    modifies pt`val
    ensures pt.val == old(pt.val) + delta
  {
    pt.val := pt.val + delta;
  }

  /**
   * The inner loops of alter_coefficients for coefficient i, counting j
   * from 1: every point's value moves by delta times its coordinate i (by
   * delta for the constant term), and j ends one past the last point. ps
   * is the points' state on entry.
   */
  method ShiftValues(pts: seq<Point>, ghost ps: seq<Sample>, i: nat, d: nat, delta: real) returns (j: nat)
    requires Distinct(pts) && Snapshot(pts, ps) && i <= d
    requires forall p :: 0 <= p < |ps| ==> |ps[p].x| == d
    modifies pts
    ensures j == |pts| + 1 && SameFeatures(pts, ps)
    ensures forall p :: 0 <= p < |pts| ==> pts[p].val == ShiftedValues(ps, i, delta)[p]
  {
    ghost var vs := ShiftedValues(ps, i, delta);
    j := 1;
    if i != d {
      while j <= |pts|
        invariant 1 <= j <= |pts| + 1 && SameFeatures(pts, ps)
        invariant forall p :: 0 <= p < j - 1 ==> pts[p].val == vs[p]
        invariant forall p :: j - 1 <= p < |pts| ==> pts[p].val == ps[p].val
      {
        ShiftPoint(pts[j - 1], delta * pts[j - 1].dimension[i]);
        j := j + 1;
      }
    } else {
      while j <= |pts|
        invariant 1 <= j <= |pts| + 1 && SameFeatures(pts, ps)
        invariant forall p :: 0 <= p < j - 1 ==> pts[p].val == vs[p]
        invariant forall p :: j - 1 <= p < |pts| ==> pts[p].val == ps[p].val
      {
        ShiftPoint(pts[j - 1], delta);
        j := j + 1;
      }
    }
  }

  /**
   * The state of alter_coefficients after its first i coefficients: the
   * hyperplane is KeptTo(c0, m, i), the points' values are the altered
   * values for it, and j is non-zero exactly when some coefficient has
   * changed.
   */
  ghost predicate AlteredTo(w: Workspace, pts: seq<Point>, before: seq<Sample>, c0: seq<real>, i: nat, j: nat)
    reads w, w.coeffArray, w.modifiedCoeffArray, pts
  {
    && |c0| == w.coeffArray.Length == w.modifiedCoeffArray.Length == w.noOfDimensions + 1 && i <= |c0|
    && SameFeatures(pts, before) && SamplesWellFormed(before, w.noOfDimensions, w.noOfCategories)
    && w.coeffArray[..] == KeptTo(c0, w.modifiedCoeffArray[..], i)
    && (forall p :: 0 <= p < |pts| ==> pts[p].val == AlteredValues(before, c0, w.coeffArray[..])[p])
    && (j != 0 <==> MovedBeyond(c0, w.modifiedCoeffArray[..], i))
  }

  /** Iteration i of alter_coefficients' outer loop. */
  method AlterStep(w: Workspace, pts: seq<Point>, ghost before: seq<Sample>, ghost c0: seq<real>, i: nat, j: nat)
    returns (j': nat)
    requires w.Valid() && Distinct(pts) && i <= w.noOfDimensions
    requires AlteredTo(w, pts, before, c0, i, j)
    modifies w.coeffArray, pts
    ensures AlteredTo(w, pts, before, c0, i + 1, j')
  {
    if Util.MyAbs(w.coeffArray[i] - w.modifiedCoeffArray[i]) > Tolerance {
      j' := AlterMove(w, pts, before, c0, i, j);
    } else {
      j' := j;
      KeptStep(c0, w.modifiedCoeffArray[..], i);
    }
  }

  /** Iteration i of alter_coefficients' outer loop when coefficient i moved by more than TOLERANCE. */
  method AlterMove(w: Workspace, pts: seq<Point>, ghost before: seq<Sample>, ghost c0: seq<real>, i: nat, j: nat)
    returns (j': nat)
    requires w.Valid() && Distinct(pts) && i <= w.noOfDimensions
    requires AlteredTo(w, pts, before, c0, i, j)
    requires Util.MyAbs(w.coeffArray[i] - w.modifiedCoeffArray[i]) > Tolerance
    modifies w.coeffArray, pts
    ensures AlteredTo(w, pts, before, c0, i + 1, j')
  {
    var c, m := w.coeffArray, w.modifiedCoeffArray;
    ghost var cs, ms := c[..], m[..];
    ghost var ps := Samples(pts);
    var v := m[i];
    var delta := v - c[i];
    assert cs[i] == c0[i] && KeptCoefficient(c0, ms, i) == v;
    KeptStep(c0, ms, i);
    AlteredShift(before, c0, cs, i, v, ps, delta, cs[i := v]);
    j' := ShiftValues(pts, ps, i, w.noOfDimensions, delta);
    c[i] := v;
    assert c[..] == cs[i := v];
    assert forall p :: 0 <= p < |pts| ==> pts[p].val == AlteredValues(before, c0, c[..])[p];
  }

  /** Considering coefficient i: KeptTo takes its kept value, and MovedBeyond grows by whether it moved. */
  lemma KeptStep(c: seq<real>, m: seq<real>, i: nat)
    requires |c| == |m| && i < |c|
    ensures KeptTo(c, m, i + 1) == KeptTo(c, m, i)[i := KeptCoefficient(c, m, i)]
    ensures MovedBeyond(c, m, i + 1) <==> MovedBeyond(c, m, i) || Util.MyAbs(c[i] - m[i]) > Tolerance
  {
    assert KeptTo(c, m, i + 1) == KeptTo(c, m, i)[i := KeptCoefficient(c, m, i)];
  }

  /**
   * alter_coefficients: every coefficient that the perturbation moved by more
   * than TOLERANCE is copied into the current hyperplane and the points'
   * values are moved along with it, so values that matched the old
   * hyperplane match the new one; when anything changed the counts are
   * redone by sign and the result is true. c0 is the hyperplane on entry and
   * before the points' state on entry.
   */
  method AlterCoefficients(w: Workspace, pts: seq<Point>) returns (changed: bool, ghost before: seq<Sample>, ghost c0: seq<real>)
    requires w.Valid() && Distinct(pts) && WellFormed(pts, w.noOfDimensions, w.noOfCategories)
    requires !w.coeffModified
    modifies w.coeffArray, w.leftCount, w.rightCount, pts, w`coeffModified
    ensures before == old(Samples(pts)) && c0 == old(w.coeffArray[..]) && !w.coeffModified
    ensures w.coeffArray[..] == Kept(c0, w.modifiedCoeffArray[..])
    ensures changed <==> MovedBeyond(c0, w.modifiedCoeffArray[..], |c0|)
    ensures SameFeatures(pts, before) && WellFormed(pts, w.noOfDimensions, w.noOfCategories)
    ensures forall p :: 0 <= p < |pts| ==> pts[p].val == AlteredValues(before, c0, w.coeffArray[..])[p]
    ensures SamplesMatch(before, c0) ==> ValsMatch(pts, w.coeffArray[..])
    ensures changed ==> w.leftCount[..] == Tally(LeftCats(Cats(pts), Vals(pts), |pts|), w.noOfCategories)
    ensures changed ==> w.rightCount[..] == Tally(RightCats(Cats(pts), Vals(pts), |pts|), w.noOfCategories)
    ensures !changed ==> w.leftCount[..] == old(w.leftCount[..]) && w.rightCount[..] == old(w.rightCount[..])
  {
    before, c0 := Samples(pts), w.coeffArray[..];
    var j := AlterLoop(w, pts, before, c0);
    if j != 0 {
      SetCounts(w, pts, 1);
      changed := true;
    } else {
      changed := false;
    }
    AlteredMatch(before, c0, w.coeffArray[..]);
  }

  /** The outer loop of alter_coefficients over every coefficient, the constant term last. */
  method AlterLoop(w: Workspace, pts: seq<Point>, ghost before: seq<Sample>, ghost c0: seq<real>) returns (j: nat)
    requires w.Valid() && Distinct(pts) && WellFormed(pts, w.noOfDimensions, w.noOfCategories)
    requires before == Samples(pts) && c0 == w.coeffArray[..]
    modifies w.coeffArray, pts
    ensures AlteredTo(w, pts, before, c0, |c0|, j)
  {
    SnapshotMeaning(pts, before, c0, w.noOfDimensions, w.noOfCategories);
    j := 0;
    assert w.coeffArray[..] == KeptTo(c0, w.modifiedCoeffArray[..], 0);
    for i := 0 to w.noOfDimensions + 1
      invariant AlteredTo(w, pts, before, c0, i, j)
    {
      j := AlterStep(w, pts, before, c0, i, j);
    }
  }

  /** Values that matched c0 become, once altered, the values of c. */
  lemma AlteredMatch(before: seq<Sample>, c0: seq<real>, c: seq<real>)
    requires FitsPlane(before, c0) && |c| == |c0|
    ensures SamplesMatch(before, c0) ==> forall p :: 0 <= p < |before| ==> AlteredValues(before, c0, c)[p] == HyperplaneValue(c, before[p].x)
  {
  }

  // ----- axis_parallel_split -----

  /** The hyperplane x_j + b of axis_parallel_split: coefficient j is 1, the constant term b, and every other coefficient 0. */
  function AxisPlane(d: nat, j: nat, b: real): (c: seq<real>)
    requires j < d
    ensures |c| == d + 1
  {
    Zeros(d + 1)[j := 1.0][d := b]
  }

  lemma {:induction false} DotZeros(x: seq<real>, m: nat)
    requires m <= |x|
    ensures Dot(Zeros(|x| + 1), x, m) == 0.0
  {
    if m > 0 { DotZeros(x, m - 1); }
  }

  /** The value of AxisPlane(d, j, b) at a point is its coordinate j plus b. */
  lemma AxisPlaneValue(d: nat, j: nat, b: real, x: seq<real>)
    requires |x| == d && j < d
    ensures HyperplaneValue(AxisPlane(d, j, b), x) == x[j] + b
  {
    var z := Zeros(d + 1);
    DotZeros(x, d);
    HyperplaneUpdate(z, x, j, 1.0);
    HyperplaneUpdate(z[j := 1.0], x, d, b);
  }

  /** The candidates of axis_parallel_split's round j: every point offers its coordinate j. */
  function AxisCandidates(ps: seq<Sample>, j: nat): (s: seq<Unidim>)
    ensures |s| == |ps|
  {
    seq(|ps|, i requires 0 <= i < |ps| => Unidim(Coordinate(ps[i].x, j), ps[i].cat))
  }

  /** The values of the hyperplane x_j + b at every point. */
  function AxisValues(ps: seq<Sample>, j: nat, b: real): (r: seq<real>)
    ensures |r| == |ps|
  {
    seq(|ps|, i requires 0 <= i < |ps| => Coordinate(ps[i].x, j) + b)
  }

  /** With d features per point, AxisValues are the values of AxisPlane. */
  lemma AxisIsHyperplane(ps: seq<Sample>, d: nat, k: nat, j: nat, b: real)
    requires SamplesWellFormed(ps, d, k) && j < d
    ensures AxisValues(ps, j, b) == PlaneValues(ps, AxisPlane(d, j, b))
  {
    forall i | 0 <= i < |ps|
      ensures AxisValues(ps, j, b)[i] == PlaneValues(ps, AxisPlane(d, j, b))[i]
    {
      AxisPlaneValue(d, j, b, ps[i].x);
    }
  }

  /** The candidate loop of axis_parallel_split for feature j. */
  method FillAxisCandidates(a: array<Unidim>, pts: seq<Point>, ghost ps: seq<Sample>, j: nat)
    requires SameFeatures(pts, ps) && |pts| <= a.Length
    requires forall p :: 0 <= p < |pts| ==> j < |pts[p].dimension|
    modifies a
    ensures a[..|pts|] == AxisCandidates(ps, j)
  {
    for p := 0 to |pts|
      invariant forall q :: 0 <= q < p ==> a[q] == AxisCandidates(ps, j)[q]
    {
      a[p] := Unidim(pts[p].dimension[j], pts[p].category);
    }
    assert a[..|pts|] == AxisCandidates(ps, j);
  }

  /** find_values on the hyperplane x_j + b, marked as modified. */
  method AxisValuesUpdate(w: Workspace, pts: seq<Point>, ghost ps: seq<Sample>, j: nat, b: real)
    requires w.Valid() && Distinct(pts) && SameFeatures(pts, ps) && SamplesWellFormed(ps, w.noOfDimensions, w.noOfCategories)
    requires j < w.noOfDimensions && w.coeffArray[..] == AxisPlane(w.noOfDimensions, j, b)
    modifies pts, w`coeffModified
    ensures !w.coeffModified && SameFeatures(pts, ps) && WellFormed(pts, w.noOfDimensions, w.noOfCategories)
    ensures forall p :: 0 <= p < |pts| ==> pts[p].val == AxisValues(ps, j, b)[p]
  {
    w.coeffModified := true;
    FindValues(w, pts);
    AxisIsHyperplane(ps, w.noOfDimensions, w.noOfCategories, j, b);
  }

  /**
   * The second half of axis_parallel_split's round j: the constant term
   * becomes b, and the values are brought up to date and the points
   * counted by sign.
   */
  method AxisRecount(w: Workspace, pts: seq<Point>, ghost ps: seq<Sample>, j: nat, b: real, measure: Measure)
    returns (d: real)
    requires w.Valid() && Distinct(pts) && SameFeatures(pts, ps) && SamplesWellFormed(ps, w.noOfDimensions, w.noOfCategories)
    requires j < w.noOfDimensions && w.coeffArray[..] == Zeros(w.noOfDimensions + 1)[j := 1.0]
    modifies w.coeffArray, w.leftCount, w.rightCount, pts, w`coeffModified
    ensures w.coeffArray[..] == AxisPlane(w.noOfDimensions, j, b)
    ensures !w.coeffModified && SameFeatures(pts, ps)
    ensures forall p :: 0 <= p < |pts| ==> pts[p].val == AxisValues(ps, j, b)[p]
    ensures Recounted(w, ps, AxisValues(ps, j, b), false, measure, d)
  {
    ghost var k := w.noOfCategories;
    PlaceConstant(w, j, b);
    AxisValuesUpdate(w, pts, ps, j, b);
    SetCounts(w, pts, 1);
    ghost var cs, vs := SampleCats(ps), AxisValues(ps, j, b);
    assert Vals(pts) == vs;
    assert Cats(pts) == cs;
    SplitCountsAreTallies(cs, vs, |ps|, k);
    SplitCountsTotal(cs, vs, |ps|, k);
    d := ComputeImpurity(w, |pts|, measure);
  }

  /** axis_parallel_split's best so far: the feature, its constant term and its impurity. */
  datatype Choice = Choice(at: nat, bias: real, err: real)

  /**
   * What round j of axis_parallel_split leaves behind: the buffer, the
   * oracle position after linear_split, the threshold and the constant
   * term, the points' values, the counts, the impurity, and the best
   * choice kept once the round is over.
   */
  datatype AxisTrial = AxisTrial(buf: seq<Unidim>, next: nat, split: real, bias: real,
                                 vals: seq<real>, left: seq<int>, right: seq<int>, err: real, kept: Choice)

  /**
   * Round j of axis_parallel_split, drawing from index on: the buffer holds
   * linear_split's outcome `split` on the coordinates j, the constant term
   * is -split, the values are those of the hyperplane x_j + bias, the
   * counts tally their sides and err is their impurity.
   */
  ghost predicate AxisTried(r: AxisTrial, ps: seq<Sample>, j: nat, k: nat, measure: Measure, draws: nat -> real, index: nat)
  {
    && r.bias == -1.0 * r.split
    && SplitOf(r.buf, AxisCandidates(ps, j), k, measure, draws, index, r.split, r.next)
    && r.vals == AxisValues(ps, j, r.bias)
    && r.left == Tally(LeftCats(SampleCats(ps), r.vals, |ps|), k)
    && r.right == Tally(RightCats(SampleCats(ps), r.vals, |ps|), k)
    && r.err == Impurity(r.left, r.right, |ps|, measure)
  }

  /** The workspace and the points hold what round r left behind. */
  ghost predicate HoldsTrial(w: Workspace, pts: seq<Point>, r: AxisTrial)
    reads w, w.candidates, w.leftCount, w.rightCount, pts
  {
    && w.candidates[..] == r.buf
    && |r.vals| == |pts| && (forall p :: 0 <= p < |pts| ==> pts[p].val == r.vals[p])
    && w.leftCount[..] == r.left && w.rightCount[..] == r.right
  }

  /**
   * One round of axis_parallel_split for feature j, from an all-zero
   * hyperplane: coefficient j becomes 1, linear_split picks the threshold
   * on the coordinates j, the constant term becomes minus that threshold,
   * and the points are recounted; the round's record carries the choice
   * KeepBest makes from the best so far, prev.
   */
  method AxisTry(w: Workspace, pts: seq<Point>, ghost ps: seq<Sample>, j: nat, measure: Measure, rng: Util.Oracle,
                 ghost prev: Choice)
    returns (bias: real, err: real, ghost r: AxisTrial)
    requires w.Valid() && rng.Valid() && Distinct(pts) && SameFeatures(pts, ps)
    requires SamplesWellFormed(ps, w.noOfDimensions, w.noOfCategories)
    requires j < w.noOfDimensions && |pts| <= w.candidates.Length
    requires w.coeffArray[..] == Zeros(w.noOfDimensions + 1)
    modifies w.coeffArray, w.candidates, w.leftCount, w.rightCount, pts, w`coeffModified, rng`index
    ensures AxisTried(r, ps, j, w.noOfCategories, measure, rng.draws, old(rng.index))
    ensures r.next == rng.index && r.bias == bias && r.err == err && r.kept == KeepBest(j, bias, err, prev)
    ensures w.coeffArray[..] == AxisPlane(w.noOfDimensions, j, bias)
    ensures !w.coeffModified && SameFeatures(pts, ps) && HoldsTrial(w, pts, r)
  {
    var split;
    ghost var buf;
    split, buf := AxisSplit(w, pts, ps, j, measure, rng);
    bias := -1.0 * split;
    err := AxisRecount(w, pts, ps, j, bias, measure);
    r := AxisTrial(buf, rng.index, split, bias, AxisValues(ps, j, bias), w.leftCount[..], w.rightCount[..], err,
                   KeepBest(j, bias, err, prev));
  }

  /** The first half of a round: coefficient j becomes 1 and linear_split picks the threshold on the coordinates j. */
  method AxisSplit(w: Workspace, pts: seq<Point>, ghost ps: seq<Sample>, j: nat, measure: Measure, rng: Util.Oracle)
    returns (split: real, ghost buf: seq<Unidim>)
    requires w.Valid() && rng.Valid() && SameFeatures(pts, ps)
    requires SamplesWellFormed(ps, w.noOfDimensions, w.noOfCategories)
    requires j < w.noOfDimensions && |pts| <= w.candidates.Length
    requires w.coeffArray[..] == Zeros(w.noOfDimensions + 1)
    modifies w.coeffArray, w.candidates, w.leftCount, w.rightCount, rng`index
    ensures w.coeffArray[..] == Zeros(w.noOfDimensions + 1)[j := 1.0]
    ensures w.candidates[..] == buf
    ensures SplitOf(buf, AxisCandidates(ps, j), w.noOfCategories, measure, rng.draws, old(rng.index), split, rng.index)
  {
    PlaceUnit(w, j);
    ghost var s := AxisCandidates(ps, j);
    FillAxisCandidates(w.candidates, pts, ps, j);
    AxisCandidatesWithin(ps, j, w.noOfDimensions, w.noOfCategories);
    split := SplitCandidates(w, |pts|, measure, rng, s);
    buf := w.candidates[..];
  }

  /** Every axis candidate's category is that of its point. */
  lemma AxisCandidatesWithin(ps: seq<Sample>, j: nat, d: nat, k: nat)
    requires SamplesWellFormed(ps, d, k)
    ensures CatsWithin(AxisCandidates(ps, j), k)
  {
  }

  /** coeff_array[cur_coeff] = 1 on the all-zero hyperplane. */
  method PlaceUnit(w: Workspace, j: nat)
    requires w.Valid() && j < w.noOfDimensions && w.coeffArray[..] == Zeros(w.noOfDimensions + 1)
    modifies w.coeffArray
    ensures w.coeffArray[..] == Zeros(w.noOfDimensions + 1)[j := 1.0]
  {
    w.coeffArray[j] := 1.0;
  }

  /** The constant term of the axis-parallel hyperplane x_j + b. */
  method PlaceConstant(w: Workspace, j: nat, b: real)
    requires w.Valid() && j < w.noOfDimensions && w.coeffArray[..] == Zeros(w.noOfDimensions + 1)[j := 1.0]
    modifies w.coeffArray
    ensures w.coeffArray[..] == AxisPlane(w.noOfDimensions, j, b)
  {
    w.coeffArray[w.noOfDimensions] := b;
  }
  /**
   * The choice rule of axis_parallel_split: the first round is kept, and a
   * later round u replaces the best so far only when its impurity is
   * strictly lower.
   */
  function KeepBest(u: nat, bias: real, err: real, prev: Choice): Choice
  {
    if u == 0 || err < prev.err then Choice(u, bias, err) else prev
  }

  /** The choice before round u: that kept by round u - 1 (the initial one is never looked at). */
  function PrevKept(rs: seq<AxisTrial>, u: nat): Choice
    requires u <= |rs|
  {
    if u == 0 then Choice(0, 0.0, 0.0) else rs[u - 1].kept
  }

  /** Where round u's draws start: at index for the first round, after round u - 1 for the others. */
  function StartOf(rs: seq<AxisTrial>, index: nat, u: nat): (i: nat)
    requires u <= |rs|
    ensures u >= 1 ==> i == rs[u - 1].next
  {
    if u == 0 then index else rs[u - 1].next
  }

  /** Every round keeps its choice by KeepBest from the one before. */
  predicate KeptChain(rs: seq<AxisTrial>)
  {
    forall u {:trigger PrevKept(rs, u)} :: 0 <= u < |rs| ==> rs[u].kept == KeepBest(u, rs[u].bias, rs[u].err, PrevKept(rs, u))
  }

  /**
   * The record of axis_parallel_split's rounds so far (round u tries
   * feature u): each round draws from where the one before stopped and
   * keeps its choice by KeepBest.
   */
  ghost predicate AxisRounds(rs: seq<AxisTrial>, ps: seq<Sample>, k: nat, measure: Measure, draws: nat -> real, index: nat)
  {
    && (forall u {:trigger AxisTried(rs[u], ps, u, k, measure, draws, StartOf(rs, index, u))}
         :: 0 <= u < |rs| ==> AxisTried(rs[u], ps, u, k, measure, draws, StartOf(rs, index, u)))
    && KeptChain(rs)
  }

  /** After every round but the last the best impurity so far was not zero, so the loop went on. */
  predicate KeptGoing(rs: seq<AxisTrial>)
  {
    forall u :: 0 <= u < |rs| - 1 ==> rs[u].kept.err != 0.0
  }

  /** The impurities of the rounds, in order. */
  function Errs(rs: seq<AxisTrial>): (es: seq<real>)
    ensures |es| == |rs| && forall u :: 0 <= u < |rs| ==> es[u] == rs[u].err
  {
    seq(|rs|, u requires 0 <= u < |rs| => rs[u].err)
  }

  /** Appending a round appends its impurity. */
  lemma ErrsAppend(rs: seq<AxisTrial>, r: AxisTrial)
    ensures Errs(rs + [r]) == Errs(rs) + [r.err]
  {
    assert forall u :: 0 <= u < |rs| ==> (rs + [r])[u] == rs[u];
  }

  /**
   * The choice kept after n rounds is the first round of least impurity
   * among them (FirstMinTo), with its constant term and impurity.
   */
  lemma {:induction false} KeptIsFirstMin(rs: seq<AxisTrial>, n: nat)
    requires KeptChain(rs) && 1 <= n <= |rs|
    ensures rs[n - 1].kept.at == FirstMinTo(Errs(rs), n) < n
    ensures rs[n - 1].kept.bias == rs[FirstMinTo(Errs(rs), n)].bias
    ensures rs[n - 1].kept.err == rs[FirstMinTo(Errs(rs), n)].err
  {
    assert rs[n - 1].kept == KeepBest(n - 1, rs[n - 1].bias, rs[n - 1].err, PrevKept(rs, n - 1));
    if n > 1 {
      KeptIsFirstMin(rs, n - 1);
    }
  }

  lemma AxisRoundsExtend(rs: seq<AxisTrial>, ps: seq<Sample>, k: nat, measure: Measure, draws: nat -> real, index: nat,
                         r: AxisTrial)
    requires AxisRounds(rs, ps, k, measure, draws, index)
    requires AxisTried(r, ps, |rs|, k, measure, draws, StartOf(rs, index, |rs|))
    requires r.kept == KeepBest(|rs|, r.bias, r.err, PrevKept(rs, |rs|))
    ensures AxisRounds(rs + [r], ps, k, measure, draws, index)
  {
    var rs' := rs + [r];
    forall u | 0 <= u < |rs'|
      ensures AxisTried(rs'[u], ps, u, k, measure, draws, StartOf(rs', index, u))
      ensures rs'[u].kept == KeepBest(u, rs'[u].bias, rs'[u].err, PrevKept(rs', u))
    {
      if u < |rs| {
        assert rs'[u] == rs[u] && StartOf(rs', index, u) == StartOf(rs, index, u) && PrevKept(rs', u) == PrevKept(rs, u);
        assert AxisTried(rs[u], ps, u, k, measure, draws, StartOf(rs, index, u));
      } else {
        assert StartOf(rs', index, u) == StartOf(rs, index, |rs|) && PrevKept(rs', u) == PrevKept(rs, |rs|);
      }
    }
  }

  /**
   * The record of axis_parallel_split's rounds rs as values: the rounds
   * are recorded, the loop has not met a zero best impurity before the
   * last of them, and best, bestSplitAt and bestError are the last
   * round's choice.
   */
  ghost predicate AxisRecord(ps: seq<Sample>, k: nat, measure: Measure, draws: nat -> real, index: nat,
                             rs: seq<AxisTrial>, best: nat, bestSplitAt: real, bestError: real)
  {
    && AxisRounds(rs, ps, k, measure, draws, index)
    && KeptGoing(rs)
    && (|rs| >= 1 ==> rs[|rs| - 1].kept == Choice(best, bestSplitAt, bestError))
  }

  /** One more round extends the record. */
  lemma AxisRecordExtend(ps: seq<Sample>, k: nat, measure: Measure, draws: nat -> real, index: nat,
                         rs: seq<AxisTrial>, best: nat, bestSplitAt: real, bestError: real, r: AxisTrial)
    requires AxisRecord(ps, k, measure, draws, index, rs, best, bestSplitAt, bestError)
    requires |rs| == 0 || bestError != 0.0
    requires AxisTried(r, ps, |rs|, k, measure, draws, StartOf(rs, index, |rs|))
    requires r.kept == KeepBest(|rs|, r.bias, r.err, Choice(best, bestSplitAt, bestError))
    ensures AxisRecord(ps, k, measure, draws, index, rs + [r], r.kept.at, r.kept.bias, r.kept.err)
  {
    AxisRoundsExtend(rs, ps, k, measure, draws, index, r);
    var rs' := rs + [r];
    forall u | 0 <= u < |rs'| - 1
      ensures rs'[u].kept.err != 0.0
    {
      assert rs'[u] == rs[u];
    }
  }

  /**
   * axis_parallel_split's state after the rounds rs: the record, the
   * hyperplane back to all zeros, and the buffer, values and counts of the
   * last round.
   */
  ghost predicate AxisSearched(w: Workspace, pts: seq<Point>, ps: seq<Sample>, measure: Measure, draws: nat -> real,
                               index: nat, rs: seq<AxisTrial>, best: nat, bestSplitAt: real, bestError: real)
    reads w, w.coeffArray, w.candidates, w.leftCount, w.rightCount, pts
  {
    && AxisRecord(ps, w.noOfCategories, measure, draws, index, rs, best, bestSplitAt, bestError)
    && SameFeatures(pts, ps)
    && w.coeffArray[..] == Zeros(w.noOfDimensions + 1)
    && (|rs| >= 1 ==> HoldsTrial(w, pts, rs[|rs| - 1]))
  }

  /** The reset at the end of a round: coefficient j and the constant term go back to 0. */
  method ClearAxis(w: Workspace, j: nat, ghost b: real)
    requires w.Valid() && j < w.noOfDimensions && w.coeffArray[..] == AxisPlane(w.noOfDimensions, j, b)
    modifies w.coeffArray
    ensures w.coeffArray[..] == Zeros(w.noOfDimensions + 1)
  {
    w.coeffArray[j] := 0.0;
    w.coeffArray[w.noOfDimensions] := 0.0;
    assert w.coeffArray[..] == Zeros(w.noOfDimensions + 1);
  }

  /** Round t of axis_parallel_split's loop: try feature t, keep it if it is the first or strictly better, and clear the hyperplane. */
  method AxisRound(w: Workspace, pts: seq<Point>, ghost ps: seq<Sample>, t: nat, measure: Measure, rng: Util.Oracle,
                   best: nat, bestSplitAt: real, bestError: real, ghost index: nat, ghost rs: seq<AxisTrial>)
    returns (best': nat, bestSplitAt': real, bestError': real, ghost rs': seq<AxisTrial>)
    requires w.Valid() && rng.Valid() && Distinct(pts) && SamplesWellFormed(ps, w.noOfDimensions, w.noOfCategories)
    requires t < w.noOfDimensions && |pts| <= w.candidates.Length && |rs| == t
    requires AxisSearched(w, pts, ps, measure, rng.draws, index, rs, best, bestSplitAt, bestError)
    requires t == 0 || bestError != 0.0
    requires StartOf(rs, index, t) == rng.index
    modifies w.coeffArray, w.candidates, w.leftCount, w.rightCount, pts, w`coeffModified, rng`index
    ensures |rs'| == t + 1 && rs'[t].next == rng.index && !w.coeffModified
    ensures AxisSearched(w, pts, ps, measure, rng.draws, index, rs', best', bestSplitAt', bestError')
  {
    var bias, err;
    ghost var r;
    bias, err, r := AxisTry(w, pts, ps, t, measure, rng, Choice(best, bestSplitAt, bestError));
    best', bestSplitAt', bestError' := AxisKeep(t, bias, err, best, bestSplitAt, bestError);
    AxisRecordExtend(ps, w.noOfCategories, measure, rng.draws, index, rs, best, bestSplitAt, bestError, r);
    rs' := rs + [r];
    ClearAxis(w, t, bias);
  }

  /** The choice at the end of round t, by KeepBest. */
  method AxisKeep(t: nat, bias: real, err: real, best: nat, bestSplitAt: real, bestError: real)
    returns (best': nat, bestSplitAt': real, bestError': real)
    ensures Choice(best', bestSplitAt', bestError') == KeepBest(t, bias, err, Choice(best, bestSplitAt, bestError))
  {
    best', bestSplitAt', bestError' := best, bestSplitAt, bestError;
    if t == 0 || err < bestError {
      best', bestSplitAt', bestError' := t, bias, err;
    }
  }

  /** The first loop of axis_parallel_split: every coefficient becomes 0. */
  method ZeroCoefficients(w: Workspace)
    requires w.Valid()
    modifies w.coeffArray
    ensures w.coeffArray[..] == Zeros(w.noOfDimensions + 1)
  {
    var c := w.coeffArray;
    for i := 0 to c.Length
      invariant forall p :: 0 <= p < i ==> c[p] == 0.0
    {
      c[i] := 0.0;
    }
    assert c[..] == Zeros(w.noOfDimensions + 1);
  }

  /**
   * The loop of axis_parallel_split over the features: it stops after the
   * last feature or as soon as the best impurity so far is zero; rs
   * records the rounds run.
   */
  method AxisSearch(w: Workspace, pts: seq<Point>, ghost ps: seq<Sample>, measure: Measure, rng: Util.Oracle)
    returns (best: nat, bestSplitAt: real, bestError: real, ghost rs: seq<AxisTrial>)
    requires w.Valid() && rng.Valid() && Distinct(pts) && SameFeatures(pts, ps)
    requires SamplesWellFormed(ps, w.noOfDimensions, w.noOfCategories)
    requires 1 <= w.noOfDimensions && |pts| <= w.candidates.Length
    requires w.coeffArray[..] == Zeros(w.noOfDimensions + 1)
    modifies w.coeffArray, w.candidates, w.leftCount, w.rightCount, pts, w`coeffModified, rng`index
    ensures 1 <= |rs| <= w.noOfDimensions && rs[|rs| - 1].next == rng.index
    ensures AxisSearched(w, pts, ps, measure, rng.draws, old(rng.index), rs, best, bestSplitAt, bestError)
    ensures |rs| == w.noOfDimensions || bestError == 0.0
  {
    ghost var index := rng.index;
    rs := [];
    best, bestSplitAt, bestError := 0, 0.0, 0.0;
    var cur := 0;
    while cur < w.noOfDimensions
      invariant cur <= w.noOfDimensions && |rs| == cur
      invariant AxisSearched(w, pts, ps, measure, rng.draws, index, rs, best, bestSplitAt, bestError)
      invariant cur == 0 || bestError != 0.0
      invariant rng.Valid() && StartOf(rs, index, cur) == rng.index
    {
      best, bestSplitAt, bestError, rs := AxisRound(w, pts, ps, cur, measure, rng, best, bestSplitAt, bestError, index, rs);
      cur := cur + 1;
      if bestError == 0.0 {
        break;
      }
    }
  }

  /** The end of axis_parallel_split: the best feature's hyperplane, marked as modified. */
  method PlaceBest(w: Workspace, best: nat, bestSplitAt: real)
    requires w.Valid() && best < w.noOfDimensions && w.coeffArray[..] == Zeros(w.noOfDimensions + 1)
    modifies w.coeffArray, w`coeffModified
    ensures w.coeffArray[..] == AxisPlane(w.noOfDimensions, best, bestSplitAt) && w.coeffModified
  {
    w.coeffArray[best] := 1.0;
    w.coeffArray[w.noOfDimensions] := bestSplitAt;
    w.coeffModified := true;
  }

  /**
   * The outcome of axis_parallel_split when linear_split draws from index
   * to index': the rounds rs were run (one per feature, or fewer when a
   * zero impurity stopped the loop), the result is the impurity of the
   * choice kept by the last round, whose hyperplane x_at + bias is now the
   * current one, marked as modified; the buffer, the points' values and
   * the counts are those of the last round.
   */
  ghost predicate AxisOutcome(w: Workspace, pts: seq<Point>, ps: seq<Sample>, measure: Measure, draws: nat -> real,
                              index: nat, index': nat, rs: seq<AxisTrial>, err: real)
    reads w, w.coeffArray, w.candidates, w.tempVal, w.leftCount, w.rightCount, pts
  {
    && 1 <= |rs| <= w.noOfDimensions
    && var last := rs[|rs| - 1];
    && AxisRounds(rs, ps, w.noOfCategories, measure, draws, index) && KeptGoing(rs)
    && last.next == index' && last.kept.at < |rs| && err == last.kept.err
    && (|rs| == w.noOfDimensions || err == 0.0)
    && w.coeffArray[..] == AxisPlane(w.noOfDimensions, last.kept.at, last.kept.bias) && w.coeffModified
    && SameFeatures(pts, ps)
    && HoldsTrial(w, pts, last)
    && Recounted(w, ps, last.vals, false, measure, last.err)
  }

  /**
   * axis_parallel_split: for each feature in turn, the hyperplane x_j - s
   * with linear_split's threshold s on the coordinates j is tried, until a
   * zero impurity is found; the hyperplane of the first feature of least
   * impurity becomes the current one and its impurity is the result. ps
   * is the points' state on entry.
   */
  method AxisParallelSplit(w: Workspace, pts: seq<Point>, measure: Measure, rng: Util.Oracle)
    returns (err: real, ghost ps: seq<Sample>, ghost rs: seq<AxisTrial>)
    requires w.Valid() && rng.Valid() && Distinct(pts) && WellFormed(pts, w.noOfDimensions, w.noOfCategories)
    requires 1 <= w.noOfDimensions && |pts| <= w.candidates.Length
    modifies w.coeffArray, w.candidates, w.leftCount, w.rightCount, pts, w`coeffModified, rng`index
    ensures ps == old(Samples(pts))
    ensures AxisOutcome(w, pts, ps, measure, rng.draws, old(rng.index), rng.index, rs, err)
  {
    ps := Samples(pts);
    SnapshotMeaning(pts, ps, w.coeffArray[..], w.noOfDimensions, w.noOfCategories);
    ZeroCoefficients(w);
    err, rs := AxisSearchAndPlace(w, pts, ps, measure, rng);
  }

  /** axis_parallel_split from the all-zero hyperplane, with ps the points' features and categories: the loop and the final placement. */
  method AxisSearchAndPlace(w: Workspace, pts: seq<Point>, ghost ps: seq<Sample>, measure: Measure, rng: Util.Oracle)
    returns (err: real, ghost rs: seq<AxisTrial>)
    requires w.Valid() && rng.Valid() && Distinct(pts) && SameFeatures(pts, ps)
    requires SamplesWellFormed(ps, w.noOfDimensions, w.noOfCategories)
    requires 1 <= w.noOfDimensions && |pts| <= w.candidates.Length
    requires w.coeffArray[..] == Zeros(w.noOfDimensions + 1)
    modifies w.coeffArray, w.candidates, w.leftCount, w.rightCount, pts, w`coeffModified, rng`index
    ensures AxisOutcome(w, pts, ps, measure, rng.draws, old(rng.index), rng.index, rs, err)
  {
    var bestCoeff, bestSplitAt;
    bestCoeff, bestSplitAt, err, rs := AxisSearch(w, pts, ps, measure, rng);
    KeptIsFirstMin(rs, |rs|);
    LastRecounted(w, pts, ps, measure, rng.draws, old(rng.index), rs);
    PlaceBest(w, bestCoeff, bestSplitAt);
  }

  /** The last round's counts are the tallies of its values, and its impurity theirs. */
  lemma LastRecounted(w: Workspace, pts: seq<Point>, ps: seq<Sample>, measure: Measure, draws: nat -> real,
                      index: nat, rs: seq<AxisTrial>)
    requires w.Valid() && |rs| >= 1 && |ps| == |pts|
    requires AxisRounds(rs, ps, w.noOfCategories, measure, draws, index) && HoldsTrial(w, pts, rs[|rs| - 1])
    ensures Recounted(w, ps, rs[|rs| - 1].vals, false, measure, rs[|rs| - 1].err)
  {
    var u := |rs| - 1;
    assert AxisTried(rs[u], ps, u, w.noOfCategories, measure, draws, StartOf(rs, index, u));
  }

  /**
   * What axis_parallel_split's choice means: the chosen feature is the
   * first of least impurity among the rounds run, its constant term is
   * that of its round, and the loop stopped early only at a zero
   * impurity: after every round before the last, the best so far was not
   * zero.
   */
  lemma AxisChoiceIsBest(w: Workspace, pts: seq<Point>, ps: seq<Sample>, measure: Measure, draws: nat -> real,
                         index: nat, index': nat, rs: seq<AxisTrial>, err: real)
    requires AxisOutcome(w, pts, ps, measure, draws, index, index', rs, err)
    ensures var b := rs[|rs| - 1].kept.at;
      && b < |rs| && err == rs[b].err && rs[|rs| - 1].kept.bias == rs[b].bias
      && (forall u :: 0 <= u < |rs| ==> err <= rs[u].err)
      && (forall u :: 0 <= u < b ==> err < rs[u].err)
    ensures |rs| < w.noOfDimensions ==> err == 0.0
    ensures forall u :: 1 <= u < |rs| ==> Errs(rs)[FirstMinTo(Errs(rs), u)] != 0.0
  {
    KeptIsFirstMin(rs, |rs|);
    FirstMinIsFirstMinimum(Errs(rs), |rs|);
    forall u | 1 <= u < |rs|
      ensures Errs(rs)[FirstMinTo(Errs(rs), u)] != 0.0
    {
      KeptIsFirstMin(rs, u);
    }
  }
}
