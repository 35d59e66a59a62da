/**
 * The data model and limits of OC1 (oc1.h), the global split-search state
 * that mktree.c declares, and the arithmetic on them that every other
 * module shares: count vectors, per-category tallies and the value of a
 * hyperplane at a point.
 *
 * Indexing: the C arrays are 1-based. Here every array and sequence is
 * 0-based, so count entry c-1 holds category c (categories stay 1..K, as in
 * the data files) and coefficient entry j-1 holds the source's coefficient j;
 * the constant term, the source's coefficient D+1, is entry D.
 */
module Oc1 {
  // Limits (oc1.h:33-60).
  const Tolerance: real := 0.0001
  const MaxCoefficient: real := 1.0
  const MaxDtDepth: nat := 50
  const MaxNoOfStagnantPerturbations: int := 10
  const MaxCartCycles: int := 100
  const TooSmallForAnySplit: int := 3
  const NoOfStdErrors: real := 0.0

  // Orders of perturbation (oc1.h:35-37).
  const Sequential: int := 0
  const BestFirst: int := 1
  const RandomOrder: int := 2

  /** A projected value and its category: struct unidim. */
  datatype Unidim = Unidim(value: real, cat: int)

  /** struct point: coordinates, category and the cached hyperplane value. */
  class Point {
    var dimension: seq<real>
    var category: int
    var val: real

    constructor (dimension: seq<real>, category: int)
      ensures this.dimension == dimension && this.category == category && val == 0.0
    {
      this.dimension := dimension;
      this.category := category;
      val := 0.0;
    }
  }

  /**
   * The run-time options of mktree.c (mktree.c:42-76) that the split search
   * reads: number of restarts, order of perturbation and the cycle count used
   * by the random order, the random jumps per restart, which kinds of split to
   * try and the bias towards axis-parallel splits.
   */
  datatype Options = Options(
    noOfRestarts: int,
    orderOfPerturbation: int,
    cycleCount: int,
    maxNoOfRandomPerturbations: int,
    normalize: bool,
    oblique: bool,
    axisParallel: bool,
    cartMode: bool,
    apBias: real)

  /** The defaults of mktree.c:42-76 (`cycle_count` is set from the options; 0 by default). */
  const DefaultOptions := Options(20, BestFirst, 0, 5, true, true, true, false, 1.0)

  /**
   * The global scratch state of the split search (mktree.c:42-76): count
   * vectors, the current, modified and best hyperplanes, the candidate buffer
   * of linear_split, the attribute minima used by normalisation, the dirty
   * flag of the cached point values and the stagnation counter.
   */
  class Workspace {
    const noOfDimensions: nat
    const noOfCategories: nat
    const leftCount: array<int>
    const rightCount: array<int>
    const coeffArray: array<real>
    const modifiedCoeffArray: array<real>
    const bestCoeffArray: array<real>
    const attributeMin: array<real>
    const candidates: array<Unidim>
    const tempVal: array<real>
    var coeffModified: bool
    var noOfStagnantPerturbations: int

    predicate Valid() {
      && noOfCategories >= 1
      && leftCount.Length == noOfCategories && rightCount.Length == noOfCategories
      && leftCount != rightCount
      && coeffArray.Length == noOfDimensions + 1
      && modifiedCoeffArray.Length == noOfDimensions + 1
      && bestCoeffArray.Length == noOfDimensions + 1
      && coeffArray != modifiedCoeffArray && coeffArray != bestCoeffArray
      && modifiedCoeffArray != bestCoeffArray
      && attributeMin.Length == noOfDimensions
      && candidates.Length >= 1
      && tempVal.Length == candidates.Length
      && tempVal != coeffArray && tempVal != modifiedCoeffArray && tempVal != bestCoeffArray && tempVal != attributeMin
    }

    /** allocate_structures: buffers for D dimensions, K categories and a candidate buffer of the given size. */
    constructor (d: nat, k: nat, capacity: nat)
      requires k >= 1 && capacity >= 1
      ensures Valid() && noOfDimensions == d && noOfCategories == k
      ensures candidates.Length == capacity && !coeffModified
      ensures fresh(leftCount) && fresh(rightCount) && fresh(coeffArray)
      ensures fresh(modifiedCoeffArray) && fresh(bestCoeffArray) && fresh(attributeMin) && fresh(candidates)
      ensures fresh(tempVal)
    {
      noOfDimensions := d;
      noOfCategories := k;
      leftCount := new int[k](_ => 0);
      rightCount := new int[k](_ => 0);
      coeffArray := new real[d + 1](_ => 0.0);
      modifiedCoeffArray := new real[d + 1](_ => 0.0);
      bestCoeffArray := new real[d + 1](_ => 0.0);
      attributeMin := new real[d](_ => 0.0);
      candidates := new Unidim[capacity](_ => Unidim(0.0, 1));
      tempVal := new real[capacity](_ => 0.0);
      coeffModified := false;
      noOfStagnantPerturbations := 0;
    }
  }

  // ----- Count vectors -----
  // Every accumulation is defined on a prefix length n rather than on a
  // shrinking slice, so that a loop's invariant can name the prefix it has
  // processed directly.

  /** s[0] + … + s[n-1]. */
  function SumTo(s: seq<int>, n: nat): int
    requires n <= |s|
  {
    if n == 0 then 0 else SumTo(s, n - 1) + s[n - 1]
  }

  function Sum(s: seq<int>): int
  {
    SumTo(s, |s|)
  }

  /** s[0] + … + s[n-1] over reals. */
  function RealSumTo(s: seq<real>, n: nat): real
    requires n <= |s|
  {
    if n == 0 then 0.0 else RealSumTo(s, n - 1) + s[n - 1]
  }

  predicate NonNegative(s: seq<int>)
  {
    forall i :: 0 <= i < |s| ==> s[i] >= 0
  }

  /** Every category lies in 1..k. */
  predicate InRange(cats: seq<int>, k: nat)
  {
    forall i :: 0 <= i < |cats| ==> 1 <= cats[i] <= k
  }

  /** The number of the first n entries of `cats` equal to `c`. */
  function CountTo(cats: seq<int>, n: nat, c: int): (r: nat)
    requires n <= |cats|
    ensures r <= n
  {
    if n == 0 then 0 else CountTo(cats, n - 1, c) + (if cats[n - 1] == c then 1 else 0)
  }

  /**
   * The count vector of the first n items: entry c-1 counts category c
   * (items outside 1..k are not counted).
   */
  function TallyTo(cats: seq<int>, n: nat, k: nat): (t: seq<int>)
    requires n <= |cats|
    ensures |t| == k
  {
    if n == 0 then seq(k, _ => 0)
    else
      var t := TallyTo(cats, n - 1, k);
      var c := cats[n - 1];
      if 1 <= c <= k then t[c - 1 := t[c - 1] + 1] else t
  }

  /** The count vector of all the items. */
  function Tally(cats: seq<int>, k: nat): (t: seq<int>)
    ensures |t| == k
  {
    TallyTo(cats, |cats|, k)
  }

  lemma {:induction false} SumNonNegative(s: seq<int>, n: nat)
    requires n <= |s| && NonNegative(s)
    ensures SumTo(s, n) >= 0
  {
    if n > 0 { SumNonNegative(s, n - 1); }
  }

  /** Every entry of a non-negative vector is at most its sum. */
  lemma {:induction false} EntryAtMostSum(s: seq<int>, n: nat, i: nat)
    requires NonNegative(s) && i < n <= |s|
    ensures s[i] <= SumTo(s, n)
  {
    if i < n - 1 {
      EntryAtMostSum(s, n - 1, i);
    } else {
      SumNonNegative(s, n - 1);
    }
  }

  /** Adding d to entry c adds d to every prefix sum that covers c. */
  lemma {:induction false} SumIncrement(s: seq<int>, n: nat, c: nat, d: int)
    requires n <= |s| && c < |s|
    ensures SumTo(s[c := s[c] + d], n) == SumTo(s, n) + (if c < n then d else 0)
  {
    if n > 0 { SumIncrement(s, n - 1, c, d); }
  }

  lemma {:induction false} ZerosSum(k: nat, n: nat)
    requires n <= k
    ensures SumTo(seq(k, _ => 0), n) == 0
  {
    if n > 0 { ZerosSum(k, n - 1); }
  }

  /** Entry e of a tally counts the items of category e+1. */
  lemma {:induction false} TallyCounts(cats: seq<int>, n: nat, k: nat)
    requires n <= |cats|
    ensures forall e :: 0 <= e < k ==> TallyTo(cats, n, k)[e] == CountTo(cats, n, e + 1)
  {
    if n > 0 { TallyCounts(cats, n - 1, k); }
  }

  /** The entries of a tally add up to the number of items tallied. */
  lemma {:induction false} TallySum(cats: seq<int>, n: nat, k: nat)
    requires n <= |cats| && InRange(cats, k)
    ensures Sum(TallyTo(cats, n, k)) == n
  {
    if n == 0 {
      ZerosSum(k, k);
    } else {
      TallySum(cats, n - 1, k);
      SumIncrement(TallyTo(cats, n - 1, k), k, cats[n - 1] - 1, 1);
    }
  }

  lemma {:induction false} TallyNonNegative(cats: seq<int>, n: nat, k: nat)
    requires n <= |cats|
    ensures NonNegative(TallyTo(cats, n, k))
  {
    if n > 0 { TallyNonNegative(cats, n - 1, k); }
  }

  /** A tally depends only on the items it covers. */
  lemma {:induction false} TallyPrefix(a: seq<int>, b: seq<int>, n: nat, k: nat)
    requires n <= |a| && n <= |b| && a[..n] == b[..n]
    ensures TallyTo(a, n, k) == TallyTo(b, n, k)
  {
    if n > 0 {
      assert a[n - 1] == a[..n][n - 1] == b[..n][n - 1] == b[n - 1];
      assert a[..n - 1] == a[..n][..n - 1] == b[..n][..n - 1] == b[..n - 1];
      TallyPrefix(a, b, n - 1, k);
    }
  }

  /** Appending an item of category c adds one to entry c-1 of the tally. */
  lemma TallySnoc(cats: seq<int>, c: int, k: nat)
    ensures 1 <= c <= k ==> Tally(cats + [c], k) == Tally(cats, k)[c - 1 := Tally(cats, k)[c - 1] + 1]
    ensures !(1 <= c <= k) ==> Tally(cats + [c], k) == Tally(cats, k)
  {
    assert (cats + [c])[..|cats|] == cats[..|cats|];
    TallyPrefix(cats + [c], cats, |cats|, k);
  }

  // ----- Hyperplanes -----

  /** n zero coefficients. */
  function Zeros(n: nat): (r: seq<real>)
    ensures |r| == n
  {
    seq(n, _ => 0.0)
  }

  /** Σ c[j]·x[j] over the first m coordinates. */
  function Dot(c: seq<real>, x: seq<real>, m: nat): real
    requires m <= |c| && m <= |x|
  {
    if m == 0 then 0.0 else Dot(c, x, m - 1) + c[m - 1] * x[m - 1]
  }

  /**
   * The value of the hyperplane with coefficients `c` at the point `x`: the
   * constant term c[D] plus Σ c[j]·x[j]. A point lies on the left of the
   * hyperplane when this value is negative.
   */
  function HyperplaneValue(c: seq<real>, x: seq<real>): real
    requires |c| == |x| + 1
  {
    c[|x|] + Dot(c, x, |x|)
  }

  /** Changing one feature coefficient by δ changes the dot product by δ·x[i]. */
  lemma {:induction false} DotUpdate(c: seq<real>, x: seq<real>, m: nat, i: nat, v: real)
    requires m <= |c| && m <= |x| && i < |c|
    ensures Dot(c[i := v], x, m) == Dot(c, x, m) + (if i < m then (v - c[i]) * x[i] else 0.0)
  {
    if m > 0 { DotUpdate(c, x, m - 1, i, v); }
  }

  lemma {:induction false} DotLinear(c: seq<real>, r: seq<real>, a: real, x: seq<real>, m: nat)
    requires |c| == |r| && m <= |c| && m <= |x|
    ensures Dot(Moved(c, r, a), x, m) == Dot(c, x, m) + Dot(r, x, m) * a
  {
    if m > 0 { DotLinear(c, r, a, x, m - 1); }
  }

  /** Entry j of the point x extended by a constant 1: x[j] for a feature, 1 for the constant term. */
  function Coordinate(x: seq<real>, j: nat): real
  {
    if j < |x| then x[j] else 1.0
  }

  /** Replacing coefficient i by v moves the value by the change times coordinate i. */
  lemma HyperplaneUpdate(c: seq<real>, x: seq<real>, i: nat, v: real)
    requires |c| == |x| + 1 && i < |c|
    ensures HyperplaneValue(c[i := v], x) == HyperplaneValue(c, x) + (v - c[i]) * Coordinate(x, i)
  {
    DotUpdate(c, x, |x|, i, v);
  }

  /** c + r·a: the coefficients moved a times along the direction r. */
  function Moved(c: seq<real>, r: seq<real>, a: real): (m: seq<real>)
    requires |r| == |c|
    ensures |m| == |c| && forall j :: 0 <= j < |c| ==> m[j] == c[j] + r[j] * a
  {
    seq(|c|, j requires 0 <= j < |c| => c[j] + r[j] * a)
  }

  /** Moving the coefficients a times along r adds a times r's value at every point. */
  lemma HyperplaneLinear(c: seq<real>, r: seq<real>, a: real, x: seq<real>)
    requires |c| == |x| + 1 && |r| == |c|
    ensures HyperplaneValue(Moved(c, r, a), x) == HyperplaneValue(c, x) + HyperplaneValue(r, x) * a
  {
    DotLinear(c, r, a, x, |x|);
  }

  // ----- Point sets -----

  /** The pointer array holds each point once. */
  predicate Distinct(pts: seq<Point>)
  {
    forall i, j :: 0 <= i < j < |pts| ==> pts[i] != pts[j]
  }

  /** The categories of the points, in order. */
  function Cats(pts: seq<Point>): (r: seq<int>)
    reads pts
    ensures |r| == |pts| && forall i :: 0 <= i < |pts| ==> r[i] == pts[i].category
  {
    seq(|pts|, i requires 0 <= i < |pts| reads pts => pts[i].category)
  }

  /** The cached hyperplane values of the points, in order. */
  function Vals(pts: seq<Point>): (r: seq<real>)
    reads pts
    ensures |r| == |pts| && forall i :: 0 <= i < |pts| ==> r[i] == pts[i].val
  {
    seq(|pts|, i requires 0 <= i < |pts| reads pts => pts[i].val)
  }

  /** Categories of the first n items whose value is negative (the left side), in order. */
  function LeftCats(cats: seq<int>, vals: seq<real>, n: nat): (r: seq<int>)
    requires n <= |cats| && n <= |vals|
  {
    if n == 0 then []
    else LeftCats(cats, vals, n - 1) + (if vals[n - 1] < 0.0 then [cats[n - 1]] else [])
  }

  /** Categories of the first n items whose value is not negative (the right side), in order. */
  function RightCats(cats: seq<int>, vals: seq<real>, n: nat): (r: seq<int>)
    requires n <= |cats| && n <= |vals|
  {
    if n == 0 then []
    else RightCats(cats, vals, n - 1) + (if vals[n - 1] < 0.0 then [] else [cats[n - 1]])
  }

  /** Every point's dimension vector has D entries and its category lies in 1..K. */
  predicate WellFormed(pts: seq<Point>, d: nat, k: nat)
    reads pts
  {
    forall i :: 0 <= i < |pts| ==> |pts[i].dimension| == d && 1 <= pts[i].category <= k
  }

  /** The cached values are those of the hyperplane c. */
  predicate ValsMatch(pts: seq<Point>, c: seq<real>)
    reads pts
  {
    forall i :: 0 <= i < |pts| ==>
      |pts[i].dimension| + 1 == |c| && pts[i].val == HyperplaneValue(c, pts[i].dimension)
  }

  /** A point's state as a value: its features, its category and its cached hyperplane value. */
  datatype Sample = Sample(x: seq<real>, cat: int, val: real)

  /** ps records the current state of the points, one sample per point. */
  predicate Snapshot(pts: seq<Point>, ps: seq<Sample>)
    reads pts
  {
    |ps| == |pts| &&
    forall i :: 0 <= i < |pts| ==>
      pts[i].dimension == ps[i].x && pts[i].category == ps[i].cat && pts[i].val == ps[i].val
  }

  /** The current state of the points as samples. */
  function Samples(pts: seq<Point>): (ps: seq<Sample>)
    reads pts
    ensures Snapshot(pts, ps)
  {
    seq(|pts|, i requires 0 <= i < |pts| reads pts => Sample(pts[i].dimension, pts[i].category, pts[i].val))
  }

  /** The categories of the samples, in order. */
  function SampleCats(ps: seq<Sample>): (r: seq<int>)
    ensures |r| == |ps| && forall i :: 0 <= i < |ps| ==> r[i] == ps[i].cat
  {
    seq(|ps|, i requires 0 <= i < |ps| => ps[i].cat)
  }

  /** Every sample has D features and a category in 1..K. */
  predicate SamplesWellFormed(ps: seq<Sample>, d: nat, k: nat)
  {
    forall i :: 0 <= i < |ps| ==> |ps[i].x| == d && 1 <= ps[i].cat <= k
  }

  /** The cached values of the samples are those of the hyperplane c. */
  predicate SamplesMatch(ps: seq<Sample>, c: seq<real>)
  {
    forall i :: 0 <= i < |ps| ==> |ps[i].x| + 1 == |c| && ps[i].val == HyperplaneValue(c, ps[i].x)
  }

  /** The values of the hyperplane c at every sample, in order. */
  function PlaneValues(ps: seq<Sample>, c: seq<real>): (r: seq<real>)
    requires forall i :: 0 <= i < |ps| ==> |ps[i].x| + 1 == |c|
    ensures |r| == |ps| && forall i :: 0 <= i < |ps| ==> r[i] == HyperplaneValue(c, ps[i].x)
  {
    seq(|ps|, i requires 0 <= i < |ps| => HyperplaneValue(c, ps[i].x))
  }

  /** Reading the state of the points as samples. */
  lemma SnapshotMeaning(pts: seq<Point>, ps: seq<Sample>, c: seq<real>, d: nat, k: nat)
    requires Snapshot(pts, ps)
    ensures SampleCats(ps) == Cats(pts)
    ensures WellFormed(pts, d, k) ==> SamplesWellFormed(ps, d, k)
    ensures ValsMatch(pts, c) ==> SamplesMatch(ps, c)
  {
  }

  /**
   * The left and right count vectors of the first n items, accumulated item
   * by item as set_counts does; SplitCountsAreTallies says what they are.
   */
  function SplitCounts(cats: seq<int>, vals: seq<real>, n: nat, k: nat): (p: (seq<int>, seq<int>))
    requires n <= |cats| && n <= |vals|
    ensures |p.0| == k && |p.1| == k
  {
    if n == 0 then (seq(k, _ => 0), seq(k, _ => 0))
    else
      var p := SplitCounts(cats, vals, n - 1, k);
      var c := cats[n - 1];
      if !(1 <= c <= k) then p
      else if vals[n - 1] < 0.0 then (p.0[c - 1 := p.0[c - 1] + 1], p.1)
      else (p.0, p.1[c - 1 := p.1[c - 1] + 1])
  }

  /** The accumulated vectors are the tallies of the two sides. */
  lemma SplitCountsAreTallies(cats: seq<int>, vals: seq<real>, n: nat, k: nat)
    requires n <= |cats| && n <= |vals|
    ensures SplitCounts(cats, vals, n, k).0 == Tally(LeftCats(cats, vals, n), k)
    ensures SplitCounts(cats, vals, n, k).1 == Tally(RightCats(cats, vals, n), k)
  {
    LeftCountsAreTallies(cats, vals, n, k);
    RightCountsAreTallies(cats, vals, n, k);
  }

  lemma {:induction false} LeftCountsAreTallies(cats: seq<int>, vals: seq<real>, n: nat, k: nat)
    requires n <= |cats| && n <= |vals|
    ensures SplitCounts(cats, vals, n, k).0 == Tally(LeftCats(cats, vals, n), k)
  {
    if n > 0 {
      LeftCountsAreTallies(cats, vals, n - 1, k);
      var l := LeftCats(cats, vals, n - 1);
      var c := cats[n - 1];
      if vals[n - 1] < 0.0 {
        assert LeftCats(cats, vals, n) == l + [c];
        TallySnoc(l, c, k);
      } else {
        assert LeftCats(cats, vals, n) == l;
      }
    }
  }

  lemma {:induction false} RightCountsAreTallies(cats: seq<int>, vals: seq<real>, n: nat, k: nat)
    requires n <= |cats| && n <= |vals|
    ensures SplitCounts(cats, vals, n, k).1 == Tally(RightCats(cats, vals, n), k)
  {
    if n > 0 {
      RightCountsAreTallies(cats, vals, n - 1, k);
      var r := RightCats(cats, vals, n - 1);
      var c := cats[n - 1];
      if vals[n - 1] < 0.0 {
        assert RightCats(cats, vals, n) == r;
      } else {
        assert RightCats(cats, vals, n) == r + [c];
        TallySnoc(r, c, k);
      }
    }
  }

  /** Every item lands on exactly one side, keeping its category. */
  lemma {:induction false} SidesPartition(cats: seq<int>, vals: seq<real>, n: nat, k: nat)
    requires n <= |cats| && n <= |vals| && InRange(cats, k)
    ensures |LeftCats(cats, vals, n)| + |RightCats(cats, vals, n)| == n
    ensures InRange(LeftCats(cats, vals, n), k) && InRange(RightCats(cats, vals, n), k)
  {
    if n > 0 {
      SidesPartition(cats, vals, n - 1, k);
    }
  }

  /** Counting every item on one side or the other accounts for all n of them. */
  lemma SplitCountsTotal(cats: seq<int>, vals: seq<real>, n: nat, k: nat)
    requires n <= |cats| && n <= |vals| && InRange(cats, k)
    ensures Sum(SplitCounts(cats, vals, n, k).0) + Sum(SplitCounts(cats, vals, n, k).1) == n
  {
    SplitCountsAreTallies(cats, vals, n, k);
    SidesPartition(cats, vals, n, k);
    var l, r := LeftCats(cats, vals, n), RightCats(cats, vals, n);
    TallySum(l, |l|, k);
    TallySum(r, |r|, k);
  }
}
