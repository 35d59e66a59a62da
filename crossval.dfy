/**
 * k-fold cross-validation (cross_validate of mktree.c). The points are cut
 * into consecutive folds of n/k points, the last fold running to the end;
 * each fold in turn is the test set for a tree grown on all the other
 * points, and the per-fold outcomes are summed into an overall summary
 * whose accuracy is the number of correctly labelled points out of n.
 *
 * Indices are 0-based: the fold the source writes as fold_begin..fold_end
 * (1-based, inclusive) is Fold(fold_begin - 1, fold_end) here.
 */
module CrossVal {
  import opened Wrappers
  import opened Oc1
  import opened Counts
  import opened Trees
  import Mktree
  import Classify
  import Build
  import Util

  // ---------------------------------------------------------------- folds

  /** The test range of one fold: the points at indices lo..hi-1. */
  datatype Fold = Fold(lo: nat, hi: nat)

  /** The folds are non-empty, consecutive, and run from lo to n. */
  predicate TilesFrom(folds: seq<Fold>, lo: nat, n: nat)
  {
    && |folds| > 0 && folds[0].lo == lo && folds[|folds| - 1].hi == n
    && (forall i :: 0 <= i < |folds| ==> folds[i].lo < folds[i].hi)
    && (forall i :: 0 <= i < |folds| - 1 ==> folds[i].hi == folds[i + 1].lo)
  }

  /**
   * The folds cross_validate visits as written, from the fold starting at lo:
   * a fold ends size points on, or at n when fewer than size points would
   * be left after it, and the loop stops after the fold that reaches n.
   * Nothing bounds the number of folds by the k the results array was sized for.
   */
  function AsWrittenFrom(n: nat, size: nat, lo: nat): seq<Fold>
    requires 1 <= size && lo < n
    decreases n - lo
  {
    var hi := if n - (lo + size) < size then n else lo + size;
    if hi == n then [Fold(lo, n)] else [Fold(lo, hi)] + AsWrittenFrom(n, size, hi)
  }

  /** The folds of n points for k-fold cross-validation, as the source computes them. */
  function AsWrittenFolds(n: nat, k: nat): seq<Fold>
    requires 1 <= k <= n
  {
    AsWrittenFrom(n, n / k, 0)
  }

  /**
   * The folds as written tile the points: all but the last hold size points
   * and the last holds size..2·size-1 of them.
   */
  lemma {:induction false} AsWrittenTiles(n: nat, size: nat, lo: nat)
    requires 1 <= size && lo < n && size <= n - lo
    ensures TilesFrom(AsWrittenFrom(n, size, lo), lo, n)
    ensures forall i :: 0 <= i < |AsWrittenFrom(n, size, lo)| - 1 ==>
      AsWrittenFrom(n, size, lo)[i].hi - AsWrittenFrom(n, size, lo)[i].lo == size
    ensures var f := AsWrittenFrom(n, size, lo)[|AsWrittenFrom(n, size, lo)| - 1]; size <= f.hi - f.lo < 2 * size
    decreases n - lo
  {
    var hi := if n - (lo + size) < size then n else lo + size;
    if hi != n {
      AsWrittenTiles(n, size, hi);
      var rest := AsWrittenFrom(n, size, hi);
      assert AsWrittenFrom(n, size, lo) == [Fold(lo, hi)] + rest;
    }
  }

  /** There are (n - lo) / size folds as written: one per whole block of size points. */
  lemma {:induction false} AsWrittenCount(n: nat, size: nat, lo: nat)
    requires 1 <= size && lo < n && size <= n - lo
    ensures |AsWrittenFrom(n, size, lo)| == (n - lo) / size
    decreases n - lo
  {
    var hi := if n - (lo + size) < size then n else lo + size;
    if hi == n {
      DivOne(n - lo, size);
    } else {
      AsWrittenCount(n, size, hi);
      DivStep(n - lo, size);
    }
  }

  // ----- integer arithmetic for the fold bounds -----

  lemma MulSucc(i: int, s: int)
    ensures (i + 1) * s == i * s + s
  {
  }

  lemma {:induction false} MulMono(a: nat, b: nat, s: nat)
    requires a <= b
    ensures a * s <= b * s
    decreases b - a
  {
    if a < b {
      MulMono(a, b - 1, s);
      MulSucc(b - 1, s);
    }
  }

  lemma MulSub(a: int, b: int, s: int)
    ensures (a - b) * s == a * s - b * s
  {
  }

  /** q and m are the quotient and remainder of x by s. */
  lemma DivUnique(x: int, s: nat, q: nat, m: int)
    requires 1 <= s && x == q * s + m && 0 <= m < s
    ensures x / s == q && x % s == m
  {
    var q', m' := x / s, x % s;
    assert x == q' * s + m' && 0 <= m' < s;
    if q' < q {
      MulMono(q' + 1, q, s);
      MulSucc(q', s);
      assert false;
    } else if q < q' {
      MulMono(q + 1, q', s);
      MulSucc(q, s);
      assert false;
    }
  }

  lemma DivOne(x: nat, s: nat)
    requires 1 <= s <= x < 2 * s
    ensures x / s == 1
  {
    DivUnique(x, s, 1, x - s);
  }

  lemma DivStep(x: nat, s: nat)
    requires 1 <= s <= x
    ensures (x - s) / s + 1 == x / s
  {
    var q, m := (x - s) / s, (x - s) % s;
    MulSucc(q, s);
    DivUnique(x, s, q + 1, m);
  }

  /** n/k is at least 1, k whole folds of it fit in n, and n mod k points are left over. */
  lemma FoldArith(n: nat, k: nat)
    requires 1 <= k <= n
    ensures n / k >= 1 && k * (n / k) + n % k == n && 0 <= n % k < k
    ensures (k - 1) * (n / k) + n / k == k * (n / k)
  {
    var s, m := n / k, n % k;
    assert n == s * k + m;
    if s == 0 {
      assert false;
    }
    MulSucc(k - 1, s);
  }

  /**
   * As written, 10 points in 4 folds give folds of 2 points and 5 folds
   * (1-2, 3-4, 5-6, 7-8 and 9-10), one more than the results array holds.
   */
  lemma FoldCountAsWritten()
    ensures |AsWrittenFolds(10, 4)| == 5 > 4
  {
    AsWrittenCount(10, 2, 0);
  }

  /** The corrected folds: k of them, n/k points each, the last one running to n. */
  function Folds(n: nat, k: nat): (r: seq<Fold>)
    requires 1 <= k <= n
    ensures |r| == k
  {
    seq(k, i requires 0 <= i < k => Fold(i * (n / k), if i == k - 1 then n else (i + 1) * (n / k)))
  }

  /** The corrected folds tile the points; all but the last hold n/k points, the last n/k + n mod k. */
  lemma FoldsTile(n: nat, k: nat)
    requires 1 <= k <= n
    ensures TilesFrom(Folds(n, k), 0, n)
    ensures forall i :: 0 <= i < k - 1 ==> Folds(n, k)[i].hi - Folds(n, k)[i].lo == n / k
    ensures Folds(n, k)[k - 1].hi - Folds(n, k)[k - 1].lo == n / k + n % k
  {
    var s := n / k;
    var f := Folds(n, k);
    FoldArith(n, k);
    forall i | 0 <= i < k
      ensures f[i].lo < f[i].hi && (i < k - 1 ==> f[i].hi - f[i].lo == s)
    {
      MulSucc(i, s);
    }
    forall i | 0 <= i < k - 1
      ensures f[i].hi == f[i + 1].lo
    {
    }
  }

  /** When n mod k < n/k the folds as written are the corrected ones. */
  lemma AsWrittenAgrees(n: nat, k: nat)
    requires 1 <= k <= n && n % k < n / k
    ensures AsWrittenFolds(n, k) == Folds(n, k)
  {
    AsWrittenSuffix(n, k, 0);
  }

  lemma {:induction false} AsWrittenSuffix(n: nat, k: nat, i: nat)
    requires 1 <= k <= n && n % k < n / k && i < k
    ensures i * (n / k) < n
    ensures AsWrittenFrom(n, n / k, i * (n / k)) == Folds(n, k)[i..]
    decreases k - i
  {
    var s := n / k;
    var lo := i * s;
    FoldArith(n, k);
    MulSub(k, i, s);
    MulSucc(i, s);
    assert n - lo == (k - i) * s + n % k;
    if i == k - 1 {
      assert n - (lo + s) == n % k;
    } else {
      MulMono(2, k - i, s);
      assert n - (lo + s) >= s;
      AsWrittenSuffix(n, k, i + 1);
      assert Folds(n, k)[i..] == [Folds(n, k)[i]] + Folds(n, k)[i + 1..];
    }
  }

  /** The end of fold `count` of the corrected loop, which stops after fold k. */
  function FoldEnd(n: nat, k: nat, lo: nat, count: nat): nat
    requires 1 <= k
  {
    if n - (lo + n / k) < n / k || count + 1 == k then n else lo + n / k
  }

  /** The corrected loop's fold `count` starting at count·(n/k) is fold `count` of Folds. */
  lemma FoldEndMeaning(n: nat, k: nat, count: nat)
    requires 1 <= k <= n && count < k
    ensures Fold(count * (n / k), FoldEnd(n, k, count * (n / k), count)) == Folds(n, k)[count]
    ensures count + 1 < k ==> FoldEnd(n, k, count * (n / k), count) == (count + 1) * (n / k) < n
  {
    var s := n / k;
    FoldArith(n, k);
    MulSucc(count, s);
    if count + 1 < k {
      MulMono(count + 2, k, s);
      MulSucc(count + 1, s);
    }
  }

  // ---------------------------------------------------------------- the summary

  /** The overall result of cross_validate: average leaves and depth, accuracy and summed tallies. */
  datatype Summary = Summary(leafCount: real, treeDepth: real, accuracy: real, classTally: seq<int>)

  /** Every outcome has m tally entries. */
  predicate Shaped(rs: seq<Classify.TestOutcome>, m: nat)
  {
    forall f :: 0 <= f < |rs| ==> |rs[f].classTally| == m
  }

  /** An outcome for k categories: per category, the number correct lies between 0 and the number tested. */
  predicate Sound(o: Classify.TestOutcome, k: nat)
  {
    |o.classTally| == 2 * k && forall c :: 0 <= c < k ==> 0 <= o.classTally[2 * c] <= o.classTally[2 * c + 1]
  }

  /** Entry j of the tallies of the first f outcomes, summed. */
  function Column(rs: seq<Classify.TestOutcome>, f: nat, j: nat): int
    requires f <= |rs| && forall g :: 0 <= g < |rs| ==> j < |rs[g].classTally|
  {
    if f == 0 then 0 else Column(rs, f - 1, j) + rs[f - 1].classTally[j]
  }

  /** The m summed tally entries of the first f outcomes. */
  function Columns(rs: seq<Classify.TestOutcome>, f: nat, m: nat): (r: seq<int>)
    requires f <= |rs| && Shaped(rs, m)
    ensures |r| == m
  {
    seq(m, j requires 0 <= j < m => Column(rs, f, j))
  }

  /** The leaf counts of the first f outcomes, summed. */
  function LeafTotal(rs: seq<Classify.TestOutcome>, f: nat): nat
    requires f <= |rs|
  {
    if f == 0 then 0 else LeafTotal(rs, f - 1) + rs[f - 1].leafCount
  }

  /** The depths of the first f outcomes, summed. */
  function DepthTotal(rs: seq<Classify.TestOutcome>, f: nat): nat
    requires f <= |rs|
  {
    if f == 0 then 0 else DepthTotal(rs, f - 1) + rs[f - 1].treeDepth
  }

  /** The numbers correct of the first c categories in a tally (entries 0, 2, .., 2c-2). */
  function EvenSum(t: seq<int>, c: nat): int
    requires 2 * c <= |t|
  {
    if c == 0 then 0 else EvenSum(t, c - 1) + t[2 * (c - 1)]
  }

  /** A total over f folds, averaged. */
  function Average(total: nat, f: nat): real
    requires f > 0
  {
    total as real / f as real
  }

  /** 100 times the numbers correct of the k categories of a tally, out of n points. */
  function OverallAccuracy(t: seq<int>, n: nat, k: nat): real
    requires 2 * k <= |t| && n > 0
  {
    100.0 * EvenSum(t, k) as real / n as real
  }

  /** The summary of the fold outcomes for n points and k categories. */
  function SummaryOf(rs: seq<Classify.TestOutcome>, n: nat, k: nat): Summary
    requires |rs| > 0 && n > 0 && Shaped(rs, 2 * k)
  {
    var t := Columns(rs, |rs|, 2 * k);
    Summary(Average(LeafTotal(rs, |rs|), |rs|), Average(DepthTotal(rs, |rs|), |rs|), OverallAccuracy(t, n, k), t)
  }

  /**
   * The summing loops of cross_validate: the leaf counts, the depths and
   * every tally entry are added up over the folds, the first two are
   * averaged, and the numbers correct of all categories give the accuracy.
   */
  method Summarize(results: seq<Classify.TestOutcome>, n: nat, k: nat) returns (s: Summary)
    requires |results| > 0 && n > 0 && Shaped(results, 2 * k)
    ensures s == SummaryOf(results, n, k)
  {
    var leafCount, treeDepth := 0.0, 0.0;
    var tally := new int[2 * k](_ => 0);
    for i := 0 to |results|
      invariant leafCount == LeafTotal(results, i) as real && treeDepth == DepthTotal(results, i) as real
      invariant tally[..] == Columns(results, i, 2 * k)
    {
      leafCount := leafCount + results[i].leafCount as real;
      treeDepth := treeDepth + results[i].treeDepth as real;
      for j := 0 to 2 * k
        invariant forall x :: 0 <= x < j ==> tally[x] == Column(results, i + 1, x)
        invariant forall x :: j <= x < 2 * k ==> tally[x] == Column(results, i, x)
      {
        tally[j] := tally[j] + results[i].classTally[j];
      }
      assert tally[..] == Columns(results, i + 1, 2 * k);
    }
    leafCount := leafCount / |results| as real;
    treeDepth := treeDepth / |results| as real;
    var corrects := 0;
    for c := 0 to k
      invariant corrects == EvenSum(tally[..], c)
    {
      corrects := corrects + tally[2 * c];
    }
    s := Summary(leafCount, treeDepth, 100.0 * corrects as real / n as real, tally[..]);
  }

  /** In every column of correct counts, the sum lies between 0 and the sum of the matching column of tested counts. */
  lemma {:induction false} ColumnSound(rs: seq<Classify.TestOutcome>, f: nat, k: nat, c: nat)
    requires f <= |rs| && c < k && Shaped(rs, 2 * k) && forall g :: 0 <= g < |rs| ==> Sound(rs[g], k)
    ensures 0 <= Column(rs, f, 2 * c) <= Column(rs, f, 2 * c + 1)
  {
    if f > 0 {
      ColumnSound(rs, f - 1, k, c);
      assert Sound(rs[f - 1], k);
    }
  }

  /** Correct counts bounded entry by entry by b sum to at most the sum of b. */
  lemma {:induction false} EvenSumBound(t: seq<int>, b: seq<int>, c: nat)
    requires 2 * c <= |t| && c <= |b|
    requires forall x :: 0 <= x < c ==> 0 <= t[2 * x] <= b[x]
    ensures 0 <= EvenSum(t, c) <= SumTo(b, c)
  {
    if c > 0 {
      EvenSumBound(t, b, c - 1);
    }
  }

  /**
   * When the tested counts of the folds add up, per category, to the tally
   * of all n points, the overall accuracy is a percentage.
   */
  lemma SummaryMeaning(rs: seq<Classify.TestOutcome>, cats: seq<int>, k: nat)
    requires |rs| > 0 && |cats| > 0 && InRange(cats, k) && Shaped(rs, 2 * k)
    requires forall f :: 0 <= f < |rs| ==> Sound(rs[f], k)
    requires forall c :: 0 <= c < k ==> Column(rs, |rs|, 2 * c + 1) == Tally(cats, k)[c]
    ensures 0.0 <= SummaryOf(rs, |cats|, k).accuracy <= 100.0
  {
    var t := Columns(rs, |rs|, 2 * k);
    forall c | 0 <= c < k
      ensures 0 <= t[2 * c] <= Tally(cats, k)[c]
    {
      ColumnSound(rs, |rs|, k, c);
      assert t[2 * c] == Column(rs, |rs|, 2 * c);
    }
    EvenSumBound(t, Tally(cats, k), k);
    TallySum(cats, |cats|, k);
    var corrects := EvenSum(t, k);
    assert 0 <= corrects <= |cats|;
    AccuracyBound(t, |cats|, k);
    assert SummaryOf(rs, |cats|, k).accuracy == OverallAccuracy(t, |cats|, k);
  }

  lemma AccuracyBound(t: seq<int>, n: nat, k: nat)
    requires 2 * k <= |t| && 0 <= EvenSum(t, k) <= n && n > 0
    ensures 0.0 <= OverallAccuracy(t, n, k) <= 100.0
  {
    Classify.Percentage(EvenSum(t, k), n);
  }

  // ---------------------------------------------------------------- tallies of the folds

  /** The tally of two runs of categories is the sum of their tallies. */
  lemma {:induction false} TallyAppend(a: seq<int>, b: seq<int>, k: nat)
    ensures forall c :: 0 <= c < k ==> Tally(a + b, k)[c] == Tally(a, k)[c] + Tally(b, k)[c]
    decreases |b|
  {
    if |b| == 0 {
      assert a + b == a;
      assert Tally(b, k) == seq(k, _ => 0);
    } else {
      var b', x := b[..|b| - 1], b[|b| - 1];
      TallyAppend(a, b', k);
      assert b == b' + [x];
      assert a + b == (a + b') + [x];
      TallySnoc(a + b', x, k);
      TallySnoc(b', x, k);
    }
  }

  /** Summing one more outcome: entry j of the first f outcomes does not change. */
  lemma {:induction false} ColumnPrefix(rs: seq<Classify.TestOutcome>, o: Classify.TestOutcome, f: nat, j: nat)
    requires f <= |rs| && j < |o.classTally| && forall g :: 0 <= g < |rs| ==> j < |rs[g].classTally|
    ensures Column(rs + [o], f, j) == Column(rs, f, j)
  {
    if f > 0 {
      ColumnPrefix(rs, o, f - 1, j);
      assert (rs + [o])[f - 1] == rs[f - 1];
    }
  }

  /**
   * When the folds so far tested cats[..lo] and the next one tests
   * cats[lo..hi], the folds then tested cats[..hi].
   */
  lemma ColumnStep(rs: seq<Classify.TestOutcome>, o: Classify.TestOutcome, cats: seq<int>, lo: nat, hi: nat, k: nat)
    requires lo <= hi <= |cats| && Sound(o, k) && Shaped(rs, 2 * k) && forall f :: 0 <= f < |rs| ==> Sound(rs[f], k)
    requires forall c :: 0 <= c < k ==> Column(rs, |rs|, 2 * c + 1) == Tally(cats[..lo], k)[c]
    requires forall c :: 0 <= c < k ==> o.classTally[2 * c + 1] == Tally(cats[lo..hi], k)[c]
    ensures Shaped(rs + [o], 2 * k) && forall f :: 0 <= f < |rs + [o]| ==> Sound((rs + [o])[f], k)
    ensures forall c :: 0 <= c < k ==> Column(rs + [o], |rs + [o]|, 2 * c + 1) == Tally(cats[..hi], k)[c]
  {
    assert cats[..hi] == cats[..lo] + cats[lo..hi];
    TallyAppend(cats[..lo], cats[lo..hi], k);
    forall c | 0 <= c < k
      ensures Column(rs + [o], |rs + [o]|, 2 * c + 1) == Tally(cats[..hi], k)[c]
    {
      ColumnPrefix(rs, o, |rs|, 2 * c + 1);
    }
  }

  /** Every outcome estimate_accuracy reports is sound. */
  lemma OutcomeSound(ps: seq<Sample>, t: Tree, d: nat, k: nat)
    requires t.Tree? && SamplesWellFormed(ps, d, k) && Planes(t, d)
    ensures Sound(Classify.OutcomeOf(ps, t, k), k)
  {
    var n := |ps|;
    var correct, incorrect := Classify.CorrectTo(ps, t, n, k), Classify.IncorrectTo(ps, t, n, k);
    Classify.CorrectTotal(ps, t, n, k);
    IncorrectNonNegative(ps, t, n, k);
    forall c | 0 <= c < k
      ensures 0 <= Classify.OutcomeOf(ps, t, k).classTally[2 * c] <= Classify.OutcomeOf(ps, t, k).classTally[2 * c + 1]
    {
      Classify.ClassTallyEntries(correct, incorrect, k, c);
    }
  }

  /** No category has a negative number of misclassified samples. */
  lemma {:induction false} IncorrectNonNegative(ps: seq<Sample>, t: Tree, n: nat, k: nat)
    requires n <= |ps| && t.Tree? && forall i :: 0 <= i < |ps| ==> Planes(t, |ps[i].x|)
    ensures NonNegative(Classify.IncorrectTo(ps, t, n, k))
  {
    if n > 0 {
      IncorrectNonNegative(ps, t, n - 1, k);
    }
  }

  // ---------------------------------------------------------------- one fold

  function Clamp(x: nat, i: nat): nat
  {
    if x < i then x else i
  }

  /**
   * The partition loop of one fold: every point's value is cleared, the
   * points at lo..hi-1 become the test points and all the others, in
   * order, the training points.
   */
  method SplitFold(points: seq<Point>, lo: nat, hi: nat) returns (test: seq<Point>, train: seq<Point>)
    requires lo <= hi <= |points|
    modifies points
    ensures test == points[lo..hi] && train == points[..lo] + points[hi..]
    ensures forall i :: 0 <= i < |points| ==> points[i].val == 0.0
    ensures forall i :: 0 <= i < |points| ==>
      points[i].dimension == old(points[i].dimension) && points[i].category == old(points[i].category)
  {
    test, train := [], [];
    for i := 0 to |points|
      invariant test == points[Clamp(lo, i)..Clamp(hi, i)]
      invariant train == points[..Clamp(lo, i)] + points[Clamp(hi, i)..i]
      invariant forall j :: 0 <= j < i ==> points[j].val == 0.0
      invariant forall j :: 0 <= j < |points| ==>
        points[j].dimension == old(points[j].dimension) && points[j].category == old(points[j].category)
    {
      points[i].val := 0.0;
      if lo <= i < hi {
        test := test + [points[i]];
      } else {
        train := train + [points[i]];
      }
    }
    assert points[Clamp(hi, |points|)..|points|] == points[hi..];
  }

  /** Leaving out a run of a distinct sequence keeps it distinct. */
  lemma SpliceDistinct(pts: seq<Point>, lo: nat, hi: nat)
    requires lo <= hi <= |pts| && Distinct(pts)
    ensures Distinct(pts[..lo] + pts[hi..])
  {
    var t := pts[..lo] + pts[hi..];
    forall i, j | 0 <= i < j < |t|
      ensures t[i] != t[j]
    {
      var a := if i < lo then i else i + hi - lo;
      var b := if j < lo then j else j + hi - lo;
      assert t[i] == pts[a] && t[j] == pts[b];
    }
  }

  /**
   * One pass of the fold loop: split the points, grow a tree on the
   * training points (fatal when no split is found) and estimate its
   * accuracy on the test points. The outcome counts exactly the test
   * points' categories.
   */
  method RunFold(w: Workspace, points: seq<Point>, ghost ps0: seq<Sample>, lo: nat, hi: nat, opts: Options,
                 cycleCount: int, fuel: nat, measure: Measure, rng: Util.Oracle)
    returns (r: Result<Classify.TestOutcome>, cycleCount': int, ghost root: Tree)
    requires w.Valid() && rng.Valid() && Distinct(points) && Mktree.SameFeatures(points, ps0)
    requires SamplesWellFormed(ps0, w.noOfDimensions, w.noOfCategories)
    requires 1 <= w.noOfDimensions && |points| <= w.candidates.Length && lo < hi <= |points|
    modifies w.coeffArray, w.modifiedCoeffArray, w.bestCoeffArray, w.candidates, w.tempVal, w.leftCount, w.rightCount
    modifies w.attributeMin, points, w`coeffModified, w`noOfStagnantPerturbations, rng`index
    ensures Mktree.SameFeatures(points, ps0)
    ensures r.Fatal? ==> r.message == Build.NoSplitMessage
    ensures r.Ok? ==> root.Tree? && Build.Grown(root, "", w.noOfDimensions, w.noOfCategories)
    ensures r.Ok? ==> r.value.leafCount == LeafCount(root) && r.value.treeDepth == TreeDepth(root)
    ensures r.Ok? ==> Sound(r.value, w.noOfCategories)
    ensures r.Ok? ==> forall c :: 0 <= c < w.noOfCategories ==>
      r.value.classTally[2 * c + 1] == Tally(SampleCats(ps0)[lo..hi], w.noOfCategories)[c]
  {
    var built, test;
    built, test, cycleCount' := TrainFold(w, points, ps0, lo, hi, opts, cycleCount, fuel, measure, rng);
    if built.Fatal? {
      return Fatal(built.message), cycleCount', Nil;
    }
    var tree := built.value;
    root := tree;
    var outcome := TestFold(test, ps0[lo..hi], tree, w.noOfDimensions, w.noOfCategories);
    assert SampleCats(ps0[lo..hi]) == SampleCats(ps0)[lo..hi];
    r := Ok(outcome);
  }

  /** The training half of a fold: split the points and grow a tree on those outside lo..hi-1. */
  method TrainFold(w: Workspace, points: seq<Point>, ghost ps0: seq<Sample>, lo: nat, hi: nat, opts: Options,
                   cycleCount: int, fuel: nat, measure: Measure, rng: Util.Oracle)
    returns (built: Result<Tree>, test: seq<Point>, cycleCount': int)
    requires w.Valid() && rng.Valid() && Distinct(points) && Mktree.SameFeatures(points, ps0)
    requires SamplesWellFormed(ps0, w.noOfDimensions, w.noOfCategories)
    requires 1 <= w.noOfDimensions && |points| <= w.candidates.Length && lo < hi <= |points|
    modifies w.coeffArray, w.modifiedCoeffArray, w.bestCoeffArray, w.candidates, w.tempVal, w.leftCount, w.rightCount
    modifies w.attributeMin, points, w`coeffModified, w`noOfStagnantPerturbations, rng`index
    ensures Mktree.SameFeatures(points, ps0) && test == points[lo..hi]
    ensures built.Fatal? ==> built.message == Build.NoSplitMessage
    ensures built.Ok? ==> built.value.Tree? && Build.Grown(built.value, "", w.noOfDimensions, w.noOfCategories)
  {
    var train;
    test, train := SplitFold(points, lo, hi);
    SpliceDistinct(points, lo, hi);
    assert WellFormed(train, w.noOfDimensions, w.noOfCategories);
    label Built:
    ghost var cur;
    built, cycleCount', cur := Build.BuildTree(w, train, opts, cycleCount, fuel, measure, rng);
    forall i | 0 <= i < |points|
      ensures points[i].dimension == ps0[i].x && points[i].category == ps0[i].cat
    {
      if points[i] in train {
        assert points[i].dimension == old@Built(points[i].dimension);
      }
    }
  }

  /** The testing half of a fold: estimate_accuracy of the tree on the test points, which it leaves alone. */
  method TestFold(test: seq<Point>, ghost ps: seq<Sample>, tree: Tree, d: nat, k: nat) returns (o: Classify.TestOutcome)
    requires Mktree.SameFeatures(test, ps) && SamplesWellFormed(ps, d, k) && |ps| > 0 && tree.Tree? && Planes(tree, d)
    ensures o.leafCount == LeafCount(tree) && o.treeDepth == TreeDepth(tree) && Sound(o, k)
    ensures forall c :: 0 <= c < k ==> o.classTally[2 * c + 1] == Tally(SampleCats(ps), k)[c]
  {
    ghost var now := Samples(test);
    assert SampleCats(now) == SampleCats(ps);
    assert SamplesWellFormed(now, d, k);
    var estimate := Classify.EstimateAccuracy(test, now, tree, d, k);
    Classify.OutcomeMeaning(now, tree, d, k);
    OutcomeSound(now, tree, d, k);
    o := estimate.value;
  }

  // ---------------------------------------------------------------- cross_validate

  /** Outcome f counted, per category, the points of fold f. */
  predicate Tested(outcomes: seq<Classify.TestOutcome>, folds: seq<Fold>, cats: seq<int>, k: nat)
  {
    && |outcomes| == |folds|
    && forall f :: 0 <= f < |folds| ==>
         && folds[f].lo <= folds[f].hi <= |cats| && 2 * k <= |outcomes[f].classTally|
         && forall c :: 0 <= c < k ==> outcomes[f].classTally[2 * c + 1] == Tally(cats[folds[f].lo..folds[f].hi], k)[c]
  }

  /**
   * The outcomes of the folds so far: each is sound and counted its own
   * fold, and together they tested, per category, the points before lo.
   */
  ghost predicate FoldsDone(results: seq<Classify.TestOutcome>, folds: seq<Fold>, cats: seq<int>, k: nat, lo: nat)
  {
    && lo <= |cats| && Shaped(results, 2 * k) && (forall f :: 0 <= f < |results| ==> Sound(results[f], k))
    && Tested(results, folds, cats, k)
    && forall c :: 0 <= c < k ==> Column(results, |results|, 2 * c + 1) == Tally(cats[..lo], k)[c]
  }

  /** One more fold, testing cats[lo..hi], keeps the record of the folds. */
  lemma FoldsDoneStep(results: seq<Classify.TestOutcome>, folds: seq<Fold>, o: Classify.TestOutcome, cats: seq<int>,
                      k: nat, lo: nat, hi: nat)
    requires FoldsDone(results, folds, cats, k, lo) && lo <= hi <= |cats| && Sound(o, k)
    requires forall c :: 0 <= c < k ==> o.classTally[2 * c + 1] == Tally(cats[lo..hi], k)[c]
    ensures FoldsDone(results + [o], folds + [Fold(lo, hi)], cats, k, hi)
  {
    ColumnStep(results, o, cats, lo, hi, k);
    var rs, fs := results + [o], folds + [Fold(lo, hi)];
    forall f | 0 <= f < |fs|
      ensures fs[f].lo <= fs[f].hi <= |cats| && 2 * k <= |rs[f].classTally|
      ensures forall c :: 0 <= c < k ==> rs[f].classTally[2 * c + 1] == Tally(cats[fs[f].lo..fs[f].hi], k)[c]
    {
      if f < |folds| {
        assert rs[f] == results[f] && fs[f] == folds[f];
      }
    }
  }

  /**
   * The fold loop of cross_validate, stopped after k folds: fold i tests
   * the points from i·(n/k) on, and the last fold runs to n. A fold whose
   * tree cannot be grown is fatal.
   */
  method RunFolds(w: Workspace, points: seq<Point>, ghost ps0: seq<Sample>, noOfFolds: nat, opts: Options,
                  cycleCount: int, fuel: nat, measure: Measure, rng: Util.Oracle)
    returns (r: Result<seq<Classify.TestOutcome>>, cycleCount': int, ghost folds: seq<Fold>)
    requires w.Valid() && rng.Valid() && Distinct(points) && Mktree.SameFeatures(points, ps0)
    requires SamplesWellFormed(ps0, w.noOfDimensions, w.noOfCategories)
    requires 1 <= w.noOfDimensions && |points| <= w.candidates.Length && 2 <= noOfFolds <= |points|
    modifies w.coeffArray, w.modifiedCoeffArray, w.bestCoeffArray, w.candidates, w.tempVal, w.leftCount, w.rightCount
    modifies w.attributeMin, points, w`coeffModified, w`noOfStagnantPerturbations, rng`index
    ensures Mktree.SameFeatures(points, ps0)
    ensures r.Fatal? ==> r.message == Build.NoSplitMessage
    ensures r.Ok? ==> folds == Folds(|points|, noOfFolds) && |r.value| == noOfFolds
    ensures r.Ok? ==> FoldsDone(r.value, folds, SampleCats(ps0), w.noOfCategories, |points|)
  {
    var n, k := |points|, w.noOfCategories;
    ghost var cats := SampleCats(ps0);
    var foldSize := n / noOfFolds;
    var foldBegin := 0;
    var count := 0;
    var results: seq<Classify.TestOutcome> := [];
    cycleCount' := cycleCount;
    folds := [];
    FoldArith(n, noOfFolds);
    while true
      invariant count < noOfFolds && foldBegin == count * foldSize && foldBegin < n
      invariant |results| == count && folds == Folds(n, noOfFolds)[..count]
      invariant Mktree.SameFeatures(points, ps0)
      invariant FoldsDone(results, folds, cats, k, foldBegin)
      decreases noOfFolds - count
    {
      var foldEnd := foldBegin + foldSize;
      if n - foldEnd < foldSize || count + 1 == noOfFolds {
        foldEnd := n;
      }
      FoldEndMeaning(n, noOfFolds, count);
      var outcome;
      ghost var root;
      outcome, cycleCount', root := RunFold(w, points, ps0, foldBegin, foldEnd, opts, cycleCount', fuel, measure, rng);
      if outcome.Fatal? {
        return Fatal(outcome.message), cycleCount', folds;
      }
      FoldsDoneStep(results, folds, outcome.value, cats, k, foldBegin, foldEnd);
      results := results + [outcome.value];
      folds := folds + [Fold(foldBegin, foldEnd)];
      count := count + 1;
      if foldEnd == n {
        break;
      }
      foldBegin := foldEnd;
    }
    r := Ok(results);
  }

  /**
   * cross_validate, with the fold loop stopped after k folds: the outcomes
   * of the folds are summed into the summary. Each point is tested exactly
   * once, so per category the tested counts add up to the tally of all
   * points, and the accuracy is a percentage.
   */
  method CrossValidate(w: Workspace, points: seq<Point>, noOfFolds: nat, opts: Options, cycleCount: int, fuel: nat,
                       measure: Measure, rng: Util.Oracle)
    returns (r: Result<Summary>, cycleCount': int, ghost folds: seq<Fold>, ghost outcomes: seq<Classify.TestOutcome>)
    requires w.Valid() && rng.Valid() && Distinct(points) && WellFormed(points, w.noOfDimensions, w.noOfCategories)
    requires 1 <= w.noOfDimensions && |points| <= w.candidates.Length && 2 <= noOfFolds <= |points|
    modifies w.coeffArray, w.modifiedCoeffArray, w.bestCoeffArray, w.candidates, w.tempVal, w.leftCount, w.rightCount
    modifies w.attributeMin, points, w`coeffModified, w`noOfStagnantPerturbations, rng`index
    ensures forall i :: 0 <= i < |points| ==>
      points[i].dimension == old(points[i].dimension) && points[i].category == old(points[i].category)
    ensures r.Fatal? ==> r.message == Build.NoSplitMessage
    ensures r.Ok? ==> folds == Folds(|points|, noOfFolds) && Tested(outcomes, folds, old(Cats(points)), w.noOfCategories)
    ensures r.Ok? ==> Shaped(outcomes, 2 * w.noOfCategories) && r.value == SummaryOf(outcomes, |points|, w.noOfCategories)
    ensures r.Ok? ==> forall c :: 0 <= c < w.noOfCategories ==>
      r.value.classTally[2 * c + 1] == Tally(old(Cats(points)), w.noOfCategories)[c]
    ensures r.Ok? ==> 0.0 <= r.value.accuracy <= 100.0
  {
    var n, k := |points|, w.noOfCategories;
    ghost var ps0 := Samples(points);
    ghost var cats := SampleCats(ps0);
    assert cats == Cats(points);
    var done;
    done, cycleCount', folds := RunFolds(w, points, ps0, noOfFolds, opts, cycleCount, fuel, measure, rng);
    if done.Fatal? {
      return Fatal(done.message), cycleCount', folds, [];
    }
    var results := done.value;
    assert cats[..n] == cats;
    SummaryMeaning(results, cats, k);
    var summary := Summarize(results, n, k);
    r := Ok(summary);
    outcomes := results;
  }
}
