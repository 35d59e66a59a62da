/**
 * The count layer of compute_impurity.c: the left/right count vectors of the
 * workspace, the first-maximum rule, the stop-splitting short cut, the lazy
 * recomputation of the cached point values and the impurity dispatcher.
 */
module Counts {
  import opened Oc1

  /** An impurity measure: a function of the left and right count vectors (the IMPURITY macro, oc1.h:23). */
  type Measure = (seq<int>, seq<int>) -> real

  /** The position, 1..n, of the first maximum among s[0..n). */
  function FirstMaxOf(s: seq<int>, n: nat): (m: nat)
    requires 1 <= n <= |s|
    ensures 1 <= m <= n
  {
    if n == 1 then 1
    else
      var m := FirstMaxOf(s, n - 1);
      if s[n - 1] > s[m - 1] then n else m
  }

  /** The position, 1..|s|, of the first maximum of s. */
  function FirstMax(s: seq<int>): (m: nat)
    requires |s| >= 1
    ensures 1 <= m <= |s|
  {
    FirstMaxOf(s, |s|)
  }

  /** FirstMaxOf picks a maximum of the prefix, and no earlier entry reaches it. */
  lemma {:induction false} FirstMaxIsFirstMaximum(s: seq<int>, n: nat)
    requires 1 <= n <= |s|
    ensures forall i :: 0 <= i < n ==> s[i] <= s[FirstMaxOf(s, n) - 1]
    ensures forall i :: 0 <= i < FirstMaxOf(s, n) - 1 ==> s[i] < s[FirstMaxOf(s, n) - 1]
  {
    if n > 1 { FirstMaxIsFirstMaximum(s, n - 1); }
  }

  /** All of s's weight is at category c. */
  predicate PureAt(s: seq<int>, c: int)
  {
    forall i :: 0 <= i < |s| && i != c - 1 ==> s[i] == 0
  }

  /** Both sides are homogeneous and their majority categories differ (stop_splitting). */
  predicate IsStop(l: seq<int>, r: seq<int>)
    requires |l| >= 1 && |r| >= 1
  {
    l[FirstMax(l) - 1] == Sum(l) && r[FirstMax(r) - 1] == Sum(r) && FirstMax(l) != FirstMax(r)
  }

  /** The value compute_impurity returns for n points and these counts. */
  function Impurity(l: seq<int>, r: seq<int>, n: int, measure: Measure): real
    requires |l| >= 1 && |r| >= 1
  {
    if n <= 1 then 0.0 else if IsStop(l, r) then 0.0 else measure(l, r)
  }

  /** The sum of the first n entries except the one at position m (1-based). */
  function SumExcept(s: seq<int>, n: nat, m: int): int
    requires n <= |s|
  {
    if n == 0 then 0 else SumExcept(s, n - 1, m) + (if n == m then 0 else s[n - 1])
  }

  lemma {:induction false} SumExceptIsSumMinusEntry(s: seq<int>, n: nat, m: int)
    requires n <= |s|
    ensures SumExcept(s, n, m) == SumTo(s, n) - (if 1 <= m <= n then s[m - 1] else 0)
  {
    if n > 0 { SumExceptIsSumMinusEntry(s, n - 1, m); }
  }

  /**
   * For a non-negative vector, holding the whole sum at the first maximum
   * means being homogeneous in that category; an all-zero vector (an empty
   * side) has its first maximum at category 1 and is homogeneous there.
   */
  lemma {:induction false} FullAtMaxIffPure(s: seq<int>)
    requires |s| >= 1 && NonNegative(s)
    ensures s[FirstMax(s) - 1] == Sum(s) <==> PureAt(s, FirstMax(s))
    ensures Sum(s) == 0 ==> FirstMax(s) == 1 && PureAt(s, 1)
  {
    var m := FirstMax(s);
    FirstMaxIsFirstMaximum(s, |s|);
    SumExceptIsSumMinusEntry(s, |s|, m);
    SumExceptZeroIff(s, |s|, m);
    if Sum(s) == 0 {
      forall i | 0 <= i < |s| ensures s[i] == 0 { EntryAtMostSum(s, |s|, i); }
      assert s[0] == s[m - 1];
    }
  }

  /** With non-negative entries, the sum without entry m vanishes exactly when the prefix is homogeneous in m. */
  lemma {:induction false} SumExceptZeroIff(s: seq<int>, n: nat, m: int)
    requires n <= |s| && NonNegative(s)
    ensures SumExcept(s, n, m) == 0 <==> forall i :: 0 <= i < n && i != m - 1 ==> s[i] == 0
  {
    if n > 0 {
      SumExceptZeroIff(s, n - 1, m);
      SumExceptNonNegative(s, n - 1, m);
    }
  }

  lemma {:induction false} SumExceptNonNegative(s: seq<int>, n: nat, m: int)
    requires n <= |s| && NonNegative(s)
    ensures SumExcept(s, n, m) >= 0
  {
    if n > 0 { SumExceptNonNegative(s, n - 1, m); }
  }

  /**
   * stop_splitting holds exactly when each side is homogeneous and the two
   * sides' categories differ, an empty side counting as homogeneous in
   * category 1.
   */
  lemma StopSplittingMeaning(l: seq<int>, r: seq<int>)
    requires |l| >= 1 && |r| >= 1 && NonNegative(l) && NonNegative(r)
    ensures IsStop(l, r) <==>
      PureAt(l, FirstMax(l)) && PureAt(r, FirstMax(r)) && FirstMax(l) != FirstMax(r)
    ensures Sum(l) == 0 ==> FirstMax(l) == 1 && PureAt(l, 1)
  {
    FullAtMaxIffPure(l);
    FullAtMaxIffPure(r);
  }

  /** A homogeneous side with some points has its first maximum at its category. */
  lemma PureFirstMax(s: seq<int>, c: int)
    requires 1 <= c <= |s| && NonNegative(s) && PureAt(s, c) && s[c - 1] > 0
    ensures FirstMax(s) == c
  {
    FirstMaxIsFirstMaximum(s, |s|);
  }

  /** reset_counts: every entry of both count vectors becomes 0. */
  method ResetCounts(w: Workspace)
    requires w.Valid()
    modifies w.leftCount, w.rightCount
    ensures w.leftCount[..] == seq(w.noOfCategories, _ => 0)
    ensures w.rightCount[..] == seq(w.noOfCategories, _ => 0)
  {
    for i := 0 to w.noOfCategories
      invariant forall c :: 0 <= c < i ==> w.leftCount[c] == 0 && w.rightCount[c] == 0
    {
      w.leftCount[i] := 0;
      w.rightCount[i] := 0;
    }
  }

  /**
   * find_values: when the hyperplane has changed since the cached values were
   * computed, recompute every point's value against coeffArray and clear the
   * flag; otherwise do nothing.
   */
  method FindValues(w: Workspace, pts: seq<Point>)
    requires w.Valid() && Distinct(pts)
    requires forall i :: 0 <= i < |pts| ==> |pts[i].dimension| == w.noOfDimensions
    modifies pts, w`coeffModified
    ensures !w.coeffModified
    ensures old(w.coeffModified) ==> ValsMatch(pts, w.coeffArray[..])
    ensures !old(w.coeffModified) ==> forall i :: 0 <= i < |pts| ==> pts[i].val == old(pts[i].val)
    ensures forall i :: 0 <= i < |pts| ==>
      pts[i].dimension == old(pts[i].dimension) && pts[i].category == old(pts[i].category)
  {
    if w.coeffModified == false { return; }
    var d := w.noOfDimensions;
    ghost var c := w.coeffArray[..];
    for i := 0 to |pts|
      invariant forall p :: 0 <= p < |pts| ==>
        pts[p].dimension == old(pts[p].dimension) && pts[p].category == old(pts[p].category)
      invariant forall p :: 0 <= p < i ==> pts[p].val == HyperplaneValue(c, pts[p].dimension)
    {
      var pt: Point := pts[i];
      var x := pt.dimension;
      pt.val := w.coeffArray[d];
      for j := 0 to d
        modifies pt`val
        invariant pt.val == w.coeffArray[d] + Dot(c, x, j)
      {
        pt.val := pt.val + x[j] * w.coeffArray[j];
      }
    }
    w.coeffModified := false;
  }

  /**
   * set_counts: with flag 0 every point is counted on the right; otherwise the
   * cached values are brought up to date and a point counts on the left
   * exactly when its value is negative.
   */
  method SetCounts(w: Workspace, pts: seq<Point>, flag: int)
    requires w.Valid() && Distinct(pts) && WellFormed(pts, w.noOfDimensions, w.noOfCategories)
    modifies w.leftCount, w.rightCount, pts, w`coeffModified
    ensures WellFormed(pts, w.noOfDimensions, w.noOfCategories)
    ensures forall i :: 0 <= i < |pts| ==>
      pts[i].dimension == old(pts[i].dimension) && pts[i].category == old(pts[i].category)
    ensures flag == 0 ==>
      && w.leftCount[..] == seq(w.noOfCategories, _ => 0)
      && w.rightCount[..] == Tally(Cats(pts), w.noOfCategories)
      && w.coeffModified == old(w.coeffModified)
      && forall i :: 0 <= i < |pts| ==> pts[i].val == old(pts[i].val)
    ensures flag != 0 ==>
      && !w.coeffModified
      && (old(w.coeffModified) ==> ValsMatch(pts, w.coeffArray[..]))
      && (!old(w.coeffModified) ==> forall i :: 0 <= i < |pts| ==> pts[i].val == old(pts[i].val))
      && w.leftCount[..] == Tally(LeftCats(Cats(pts), Vals(pts), |pts|), w.noOfCategories)
      && w.rightCount[..] == Tally(RightCats(Cats(pts), Vals(pts), |pts|), w.noOfCategories)
  {
    ResetCounts(w);
    if flag == 0 {
      CountAllRight(w.rightCount, pts);
    } else {
      RecountBySign(w, pts);
    }
  }

  /** The flag-1 branch of set_counts: refresh the cached values, then count by sign. */
  method RecountBySign(w: Workspace, pts: seq<Point>)
    requires w.Valid() && Distinct(pts) && WellFormed(pts, w.noOfDimensions, w.noOfCategories)
    requires w.leftCount[..] == seq(w.noOfCategories, _ => 0)
    requires w.rightCount[..] == seq(w.noOfCategories, _ => 0)
    modifies w.leftCount, w.rightCount, pts, w`coeffModified
    ensures forall i :: 0 <= i < |pts| ==>
      pts[i].dimension == old(pts[i].dimension) && pts[i].category == old(pts[i].category)
    ensures !w.coeffModified
    ensures old(w.coeffModified) ==> ValsMatch(pts, w.coeffArray[..])
    ensures !old(w.coeffModified) ==> forall i :: 0 <= i < |pts| ==> pts[i].val == old(pts[i].val)
    ensures WellFormed(pts, w.noOfDimensions, w.noOfCategories)
    ensures w.leftCount[..] == Tally(LeftCats(Cats(pts), Vals(pts), |pts|), w.noOfCategories)
    ensures w.rightCount[..] == Tally(RightCats(Cats(pts), Vals(pts), |pts|), w.noOfCategories)
  {
    FindValues(w, pts);
    ghost var cs, vs := Cats(pts), Vals(pts);
    CountBySign(w.leftCount, w.rightCount, pts, cs, vs);
    assert cs == Cats(pts) && vs == Vals(pts);
    SplitCountsAreTallies(cs, vs, |pts|, w.noOfCategories);
  }

  /** The flag-0 loop of set_counts: each point adds one to its category on the right. */
  method CountAllRight(right: array<int>, pts: seq<Point>)
    requires forall i :: 0 <= i < |pts| ==> 1 <= pts[i].category <= right.Length
    requires right[..] == seq(right.Length, _ => 0)
    modifies right
    ensures right[..] == Tally(Cats(pts), right.Length)
  {
    var k := right.Length;
    ghost var cs := Cats(pts);
    for i := 0 to |pts|
      invariant right[..] == TallyTo(cs, i, k)
    {
      var c := pts[i].category;
      assert c == cs[i];
      right[c - 1] := right[c - 1] + 1;
    }
  }

  /** The flag-1 loop of set_counts: a point counts on the left exactly when its value is negative. */
  method CountBySign(left: array<int>, right: array<int>, pts: seq<Point>, ghost cs: seq<int>, ghost vs: seq<real>)
    requires left != right && left.Length == right.Length
    requires |cs| == |pts| == |vs|
    requires forall i :: 0 <= i < |pts| ==> pts[i].category == cs[i] && pts[i].val == vs[i]
    requires forall i :: 0 <= i < |pts| ==> 1 <= pts[i].category <= left.Length
    requires left[..] == seq(left.Length, _ => 0) && right[..] == seq(right.Length, _ => 0)
    modifies left, right
    ensures left[..] == SplitCounts(cs, vs, |pts|, left.Length).0
    ensures right[..] == SplitCounts(cs, vs, |pts|, left.Length).1
  {
    var k := left.Length;
    for i := 0 to |pts|
      invariant left[..] == SplitCounts(cs, vs, i, k).0
      invariant right[..] == SplitCounts(cs, vs, i, k).1
    {
      var c, v := pts[i].category, pts[i].val;
      if v < 0.0 {
        left[c - 1] := left[c - 1] + 1;
      } else {
        right[c - 1] := right[c - 1] + 1;
      }
    }
  }

  /** largest_element: the position, 1..count, of the first maximum among a[0..count). */
  method LargestElement(a: array<int>, count: nat) returns (major: nat)
    requires 1 <= count <= a.Length
    ensures 1 <= major <= count
    ensures forall i :: 0 <= i < count ==> a[i] <= a[major - 1]
    ensures forall i :: 0 <= i < major - 1 ==> a[i] < a[major - 1]
    ensures major == FirstMaxOf(a[..], count)
  {
    ghost var s := a[..];
    major := 1;
    for i := 1 to count
      invariant 1 <= major <= i
      invariant major == FirstMaxOf(s, i)
    {
      assert a[i] == s[i] && a[major - 1] == s[major - 1];
      if a[i] > a[major - 1] {
        major := i + 1;
      }
    }
    FirstMaxIsFirstMaximum(s, count);
  }

  /** stop_splitting over the workspace's count vectors. */
  method StopSplitting(w: Workspace) returns (stop: bool)
    requires w.Valid()
    ensures stop == IsStop(w.leftCount[..], w.rightCount[..])
  {
    var k, left, right := w.noOfCategories, w.leftCount, w.rightCount;
    ghost var l, r := left[..], right[..];
    var lpt, rpt := 0, 0;
    for i := 0 to k
      invariant lpt == SumTo(l, i) && rpt == SumTo(r, i)
    {
      lpt := lpt + left[i];
      rpt := rpt + right[i];
    }
    var leftCat := LargestElement(left, k);
    var rightCat := LargestElement(right, k);
    stop := left[leftCat - 1] == lpt && right[rightCat - 1] == rpt && leftCat != rightCat;
  }

  /**
   * compute_impurity: 0 for at most one point or when stop_splitting holds,
   * the measure of the counts otherwise. The source stops with an error unless
   * the counts add up to n; here that is the caller's obligation.
   */
  method ComputeImpurity(w: Workspace, n: int, measure: Measure) returns (r: real)
    requires w.Valid()
    requires n <= 1 || Sum(w.leftCount[..]) + Sum(w.rightCount[..]) == n
    ensures r == Impurity(w.leftCount[..], w.rightCount[..], n, measure)
    ensures n <= 1 ==> r == 0.0
    ensures n > 1 && !IsStop(w.leftCount[..], w.rightCount[..]) ==> r == measure(w.leftCount[..], w.rightCount[..])
  {
    if n <= 1 { return 0.0; }
    var j := 0;
    for i := 0 to w.noOfCategories
      invariant j == SumTo(w.leftCount[..], i) + SumTo(w.rightCount[..], i)
    {
      j := j + w.leftCount[i] + w.rightCount[i];
    }
    assert j == n;
    var stop := StopSplitting(w);
    if stop { return 0.0; }
    r := measure(w.leftCount[..], w.rightCount[..]);
  }
}
