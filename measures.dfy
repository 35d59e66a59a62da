/**
 * The impurity measures of impurity_measures.c, each a read-only function of
 * the two count vectors (variance sorts them in place and puts them back).
 * Every measure has a pure definition here and a method that computes it the
 * way the source does, proved equal to the definition; the lemmas state what
 * the measures mean.
 *
 * Count vectors are 0-based: entry i holds category i+1, so the source's
 * category number i is i+1 here.
 */
module Measures {
  import opened Oc1
  import opened Counts
  import Sorting

  /** A double that may be HUGE_VAL (+infinity), as twoing and info_gain return. */
  datatype Extended = Finite(value: real) | HugeVal

  // ----- maxminority and summinority -----

  /** A side's minority: its points outside its first-maximum category (0 for no categories). */
  function Minority(s: seq<int>): int
  {
    if |s| == 0 then 0 else SumExcept(s, |s|, FirstMax(s))
  }

  lemma MinorityMeaning(s: seq<int>)
    requires |s| >= 1 && NonNegative(s)
    ensures Minority(s) == Sum(s) - s[FirstMax(s) - 1]
    ensures 0 <= Minority(s) <= Sum(s)
    ensures Minority(s) == 0 <==> PureAt(s, FirstMax(s))
  {
    SumExceptIsSumMinusEntry(s, |s|, FirstMax(s));
    SumExceptNonNegative(s, |s|, FirstMax(s));
    SumExceptZeroIff(s, |s|, FirstMax(s));
  }

  /** maxminority: the larger of the two minorities. */
  function MaxMinority(l: seq<int>, r: seq<int>): real
  {
    if Minority(l) > Minority(r) then Minority(l) as real else Minority(r) as real
  }

  /** summinority: the sum of the two minorities. */
  function SumMinority(l: seq<int>, r: seq<int>): real
  {
    (Minority(l) + Minority(r)) as real
  }

  /** maxminority is at most summinority, and both lie between 0 and the number of points. */
  lemma MinoritiesBounded(l: seq<int>, r: seq<int>)
    requires |l| >= 1 && |r| >= 1 && NonNegative(l) && NonNegative(r)
    ensures 0.0 <= MaxMinority(l, r) <= SumMinority(l, r) <= (Sum(l) + Sum(r)) as real
    ensures MaxMinority(l, r) == 0.0 <==> PureAt(l, FirstMax(l)) && PureAt(r, FirstMax(r))
  {
    MinorityMeaning(l);
    MinorityMeaning(r);
  }

  /** One side's minority, as the two loops of maxminority and summinority compute it. */
  method SideMinority(a: array<int>) returns (minor: int)
    requires a.Length >= 1
    ensures minor == Minority(a[..])
  {
    var k := a.Length;
    var i := LargestElement(a, k);
    minor := 0;
    if i <= k {
      for j := 1 to k + 1
        invariant minor == SumExcept(a[..], j - 1, i)
      {
        if i != j {
          minor := minor + a[j - 1];
        }
      }
    }
  }

  /** maxminority over the workspace's count vectors. */
  method ComputeMaxMinority(w: Workspace) returns (v: real)
    requires w.Valid()
    ensures v == MaxMinority(w.leftCount[..], w.rightCount[..])
  {
    var lminor := SideMinority(w.leftCount);
    var rminor := SideMinority(w.rightCount);
    if lminor > rminor {
      v := lminor as real;
    } else {
      v := rminor as real;
    }
  }

  /** summinority over the workspace's count vectors. */
  method ComputeSumMinority(w: Workspace) returns (v: real)
    requires w.Valid()
    ensures v == SumMinority(w.leftCount[..], w.rightCount[..])
  {
    var lminor := SideMinority(w.leftCount);
    var rminor := SideMinority(w.rightCount);
    v := (lminor + rminor) as real;
  }

  // ----- variance -----

  /** The key var_compare orders by: the count itself. */
  function AsReal(x: int): real
  {
    x as real
  }

  predicate Ascending(s: seq<int>)
  {
    forall i, j :: 0 <= i < j < |s| ==> s[i] <= s[j]
  }

  /** x inserted into an ascending sequence. */
  function InsertAscending(x: int, s: seq<int>): (r: seq<int>)
    ensures |r| == |s| + 1
  {
    if s == [] then [x]
    else if x <= s[0] then [x] + s
    else [s[0]] + InsertAscending(x, s[1..])
  }

  lemma {:induction false} InsertAscendingMultiset(x: int, s: seq<int>)
    ensures multiset(InsertAscending(x, s)) == multiset(s) + multiset{x}
  {
    if s != [] && x > s[0] {
      var t := s[1..];
      InsertAscendingMultiset(x, t);
      assert s == [s[0]] + t;
      calc {
        multiset(InsertAscending(x, s));
        multiset([s[0]] + InsertAscending(x, t));
        multiset{s[0]} + multiset(InsertAscending(x, t));
        multiset{s[0]} + multiset(t) + multiset{x};
      }
    }
  }

  lemma {:induction false} InsertAscendingSorted(x: int, s: seq<int>)
    requires Ascending(s)
    ensures Ascending(InsertAscending(x, s))
  {
    if s != [] && x > s[0] {
      InsertAscendingSorted(x, s[1..]);
      InsertAscendingMultiset(x, s[1..]);
      var t := InsertAscending(x, s[1..]);
      forall e | e in multiset(t) ensures s[0] <= e {
        assert e in multiset(s[1..]) || e == x;
        if e in multiset(s[1..]) {
          var j :| 0 <= j < |s[1..]| && s[1..][j] == e;
          assert s[j + 1] == e;
        }
      }
      forall j | 0 <= j < |t| ensures s[0] <= t[j] {
        assert t[j] in multiset(t);
      }
    }
  }

  /** The counts in ascending order: what qsort with var_compare leaves. */
  function SortedCounts(s: seq<int>): (r: seq<int>)
    ensures |r| == |s|
  {
    if s == [] then [] else InsertAscending(s[0], SortedCounts(s[1..]))
  }

  /** Sorting only rearranges the counts. */
  lemma {:induction false} SortedCountsMultiset(s: seq<int>)
    ensures multiset(SortedCounts(s)) == multiset(s)
  {
    if s != [] {
      SortedCountsMultiset(s[1..]);
      InsertAscendingMultiset(s[0], SortedCounts(s[1..]));
      assert s == [s[0]] + s[1..];
    }
  }

  lemma {:induction false} SortedCountsAscending(s: seq<int>)
    ensures Ascending(SortedCounts(s))
  {
    if s != [] {
      SortedCountsAscending(s[1..]);
      InsertAscendingSorted(s[0], SortedCounts(s[1..]));
    }
  }

  /** An ascending arrangement of a multiset is unique. */
  lemma {:induction false} AscendingUnique(a: seq<int>, b: seq<int>)
    requires Ascending(a) && Ascending(b) && multiset(a) == multiset(b)
    ensures a == b
  {
    assert |a| == |multiset(a)| == |multiset(b)| == |b|;
    if |a| > 0 {
      AscendingHeadsEqual(a, b);
      TailsSameMultiset(a, b);
      AscendingUnique(a[1..], b[1..]);
      assert a == [a[0]] + a[1..] && b == [b[0]] + b[1..];
    }
  }

  lemma AscendingHeadsEqual(a: seq<int>, b: seq<int>)
    requires Ascending(a) && Ascending(b) && multiset(a) == multiset(b) && |a| > 0 && |b| > 0
    ensures a[0] == b[0]
  {
    assert a[0] in multiset(b) && b[0] in multiset(a);
    var i :| 0 <= i < |b| && b[i] == a[0];
    var j :| 0 <= j < |a| && a[j] == b[0];
    assert b[0] <= b[i] && a[0] <= a[j];
  }

  lemma TailsSameMultiset(a: seq<int>, b: seq<int>)
    requires multiset(a) == multiset(b) && |a| > 0 && |b| > 0 && a[0] == b[0]
    ensures multiset(a[1..]) == multiset(b[1..])
  {
    assert a == [a[0]] + a[1..] && b == [b[0]] + b[1..];
    assert multiset(a[1..]) == multiset(a) - multiset{a[0]};
    assert multiset(b[1..]) == multiset(b) - multiset{b[0]};
  }

  /** Σ (i+1)·s[i] over the first n entries: each count weighted by its category number. */
  function WeightedSumTo(s: seq<int>, n: nat): int
    requires n <= |s|
  {
    if n == 0 then 0 else WeightedSumTo(s, n - 1) + n * s[n - 1]
  }

  /** The mean category number of a side, 0 for an empty side. */
  function SideMean(s: seq<int>): real
  {
    if Sum(s) != 0 then WeightedSumTo(s, |s|) as real / Sum(s) as real else 0.0
  }

  /** One category's share of the squared error: count·(category − avg)². */
  function SquaredTerm(count: int, category: int, avg: real): real
  {
    (count as real) * (category as real - avg) * (category as real - avg)
  }

  /** Σ s[i]·((i+1) − avg)² over the first n entries. */
  function SquaredErrorTo(s: seq<int>, avg: real, n: nat): real
    requires n <= |s|
  {
    if n == 0 then 0.0 else SquaredErrorTo(s, avg, n - 1) + SquaredTerm(s[n - 1], n, avg)
  }

  function SideVariance(s: seq<int>): real
  {
    SquaredErrorTo(s, SideMean(s), |s|)
  }

  /**
   * variance: the two sides' squared errors of the category numbers, with the
   * categories first renumbered in ascending order of their count when there
   * are more than two of them.
   */
  function Variance(l: seq<int>, r: seq<int>): real
  {
    if |l| > 2 then SideVariance(SortedCounts(l)) + SideVariance(SortedCounts(r))
    else SideVariance(l) + SideVariance(r)
  }

  lemma WeightedSquareNonNegative(c: real, d: real)
    requires c >= 0.0
    ensures c * d * d >= 0.0
  {
    assert d * d >= 0.0;
    assert c * d * d == c * (d * d);
  }

  lemma {:induction false} SquaredErrorNonNegative(s: seq<int>, avg: real, n: nat)
    requires n <= |s| && NonNegative(s)
    ensures SquaredErrorTo(s, avg, n) >= 0.0
  {
    if n > 0 {
      SquaredErrorNonNegative(s, avg, n - 1);
      WeightedSquareNonNegative(s[n - 1] as real, n as real - avg);
      assert SquaredTerm(s[n - 1], n, avg) == (s[n - 1] as real) * (n as real - avg) * (n as real - avg);
    }
  }

  lemma SortedCountsNonNegative(s: seq<int>)
    requires NonNegative(s)
    ensures NonNegative(SortedCounts(s))
  {
    var t := SortedCounts(s);
    SortedCountsMultiset(s);
    forall i | 0 <= i < |t| ensures t[i] >= 0 {
      assert t[i] in multiset(t);
      var j :| 0 <= j < |s| && s[j] == t[i];
    }
  }

  /** With non-negative counts the variance measure is non-negative. */
  lemma VarianceNonNegative(l: seq<int>, r: seq<int>)
    requires NonNegative(l) && NonNegative(r)
    ensures Variance(l, r) >= 0.0
  {
    SortedCountsNonNegative(l);
    SortedCountsNonNegative(r);
    SquaredErrorNonNegative(l, SideMean(l), |l|);
    SquaredErrorNonNegative(r, SideMean(r), |r|);
    SquaredErrorNonNegative(SortedCounts(l), SideMean(SortedCounts(l)), |l|);
    SquaredErrorNonNegative(SortedCounts(r), SideMean(SortedCounts(r)), |r|);
  }

  /** A copy of a's entries in a fresh array (the temp1/temp2 buffers of variance). */
  method CopyCounts(a: array<int>) returns (b: array<int>)
    ensures fresh(b) && b[..] == a[..]
  {
    b := new int[a.Length];
    for i := 0 to a.Length
      invariant b[..i] == a[..i]
    {
      b[i] := a[i];
    }
  }

  /** Puts back the saved entries of a. */
  method RestoreCounts(a: array<int>, saved: array<int>)
    requires a != saved && a.Length == saved.Length
    modifies a
    ensures a[..] == saved[..]
  {
    for i := 0 to a.Length
      invariant a[..i] == saved[..i]
    {
      a[i] := saved[i];
    }
  }

  /** Sorts a count vector ascending in place; the result is the unique ascending arrangement. */
  method SortCounts(a: array<int>)
    modifies a
    ensures a[..] == SortedCounts(old(a[..]))
  {
    Sorting.QSort(a, a.Length, AsReal);
    assert a[..a.Length] == a[..] && old(a[..])[..a.Length] == old(a[..]);
    assert Ascending(a[..]) by {
      forall i, j | 0 <= i < j < a.Length ensures a[i] <= a[j] {
        assert AsReal(a[..a.Length][i]) <= AsReal(a[..a.Length][j]);
      }
    }
    SortedCountsAscending(old(a[..]));
    SortedCountsMultiset(old(a[..]));
    AscendingUnique(a[..], SortedCounts(old(a[..])));
  }

  /** The squared error of one side, as the second loop of variance computes it. */
  method SideSquaredError(a: array<int>) returns (err: real)
    ensures err == SideVariance(a[..])
  {
    ghost var s := a[..];
    var sum1, sum2 := 0, 0;
    for i := 0 to a.Length
      invariant sum1 == SumTo(s, i) && sum2 == WeightedSumTo(s, i)
    {
      sum1 := sum1 + a[i];
      sum2 := sum2 + (i + 1) * a[i];
    }
    var avg := 0.0;
    if sum1 != 0 {
      avg := sum2 as real / sum1 as real;
    }
    assert avg == SideMean(s);
    err := 0.0;
    for i := 0 to a.Length
      invariant err == SquaredErrorTo(s, avg, i)
    {
      err := err + SquaredTerm(a[i], i + 1, avg);
    }
  }

  /** Sorts a side, measures its squared error and restores it, as the k > 2 branch of variance does. */
  method SortedSideError(a: array<int>) returns (e: real)
    modifies a
    ensures e == SideVariance(SortedCounts(old(a[..])))
    ensures a[..] == old(a[..])
  {
    var saved := CopyCounts(a);
    SortCounts(a);
    e := SideSquaredError(a);
    RestoreCounts(a, saved);
  }

  /** variance over two count vectors of the same length; both vectors end as they started. */
  method VarianceOfCounts(left: array<int>, right: array<int>) returns (v: real)
    requires left != right && left.Length == right.Length
    modifies left, right
    ensures v == Variance(old(left[..]), old(right[..]))
    ensures left[..] == old(left[..])
    ensures right[..] == old(right[..])
  {
    if left.Length > 2 {
      var lerror := SortedSideError(left);
      var rerror := SortedSideError(right);
      v := lerror + rerror;
    } else {
      var lerror := SideSquaredError(left);
      var rerror := SideSquaredError(right);
      v := lerror + rerror;
    }
  }

  /** variance over the workspace's count vectors, which it leaves as they were. */
  method ComputeVariance(w: Workspace) returns (v: real)
    requires w.Valid()
    modifies w.leftCount, w.rightCount
    ensures v == Variance(old(w.leftCount[..]), old(w.rightCount[..]))
    ensures w.leftCount[..] == old(w.leftCount[..])
    ensures w.rightCount[..] == old(w.rightCount[..])
  {
    v := VarianceOfCounts(w.leftCount, w.rightCount);
  }

  // ----- gini_index -----

  /** Σ (s[i]/t)² over the first n entries. */
  function SquaredSharesTo(s: seq<int>, t: int, n: nat): real
    requires n <= |s| && t != 0
  {
    if n == 0 then 0.0
    else
      var p := (s[n - 1] as real) / (t as real);
      SquaredSharesTo(s, t, n - 1) + p * p
  }

  /** One side's gini impurity 1 − Σ p², 0 for an empty side. */
  function SideGini(s: seq<int>): real
  {
    if Sum(s) != 0 then 1.0 - SquaredSharesTo(s, Sum(s), |s|) else 0.0
  }

  /**
   * gini_index: the count-weighted mean of the two sides' gini impurities.
   * With no points at all the source divides 0 by 0; that case is 0 here.
   */
  function Gini(l: seq<int>, r: seq<int>): real
  {
    var tl, tr := Sum(l), Sum(r);
    if tl + tr == 0 then 0.0 else WeightedMean(tl, SideGini(l), tr, SideGini(r))
  }

  /** (tl·gl + tr·gr)/(tl + tr): the two sides' values weighted by their point counts. */
  function WeightedMean(tl: int, gl: real, tr: int, gr: real): real
    requires tl + tr != 0
  {
    ((tl as real) * gl + (tr as real) * gr) / ((tl + tr) as real)
  }

  /** Σ (s[i]/t)² of a side pure in category c is 1 once the prefix reaches c, and 0 before. */
  lemma {:induction false} PureSquaredShares(s: seq<int>, c: int, n: nat)
    requires 1 <= c <= |s| && n <= |s| && PureAt(s, c) && s[c - 1] != 0
    ensures SquaredSharesTo(s, s[c - 1], n) == if c <= n then 1.0 else 0.0
  {
    if n > 0 {
      PureSquaredShares(s, c, n - 1);
      var t := s[c - 1] as real;
      if n == c {
        assert (s[n - 1] as real) / t == 1.0;
      } else {
        assert s[n - 1] == 0;
      }
    }
  }

  /** A side made of a single category contributes no gini impurity. */
  lemma PureSideGiniZero(s: seq<int>, c: int)
    requires 1 <= c <= |s| && NonNegative(s) && PureAt(s, c)
    ensures SideGini(s) == 0.0
  {
    SumExceptIsSumMinusEntry(s, |s|, c);
    SumExceptZeroIff(s, |s|, c);
    if Sum(s) != 0 {
      PureSquaredShares(s, c, |s|);
    }
  }

  /** Two homogeneous sides give a gini index of 0. */
  lemma PureSidesGiniZero(l: seq<int>, r: seq<int>, cl: int, cr: int)
    requires 1 <= cl <= |l| && 1 <= cr <= |r| && NonNegative(l) && NonNegative(r)
    requires PureAt(l, cl) && PureAt(r, cr)
    ensures Gini(l, r) == 0.0
  {
    PureSideGiniZero(l, cl);
    PureSideGiniZero(r, cr);
  }

  /** The totals of both sides, as the first loop of gini_index and twoing computes them. */
  method Totals(w: Workspace) returns (tl: int, tr: int)
    requires w.Valid()
    ensures tl == Sum(w.leftCount[..]) && tr == Sum(w.rightCount[..])
  {
    tl, tr := 0, 0;
    for i := 0 to w.noOfCategories
      invariant tl == SumTo(w.leftCount[..], i) && tr == SumTo(w.rightCount[..], i)
    {
      tl := tl + w.leftCount[i];
      tr := tr + w.rightCount[i];
    }
  }

  /** 1 − Σ (a[i]/t)², the second loop of gini_index for one side. */
  method SideGiniLoop(a: array<int>, t: int) returns (g: real)
    requires t != 0 && t == Sum(a[..])
    ensures g == SideGini(a[..])
  {
    g := 0.0;
    for i := 0 to a.Length
      invariant g == SquaredSharesTo(a[..], t, i)
    {
      var temp := (1.0 * a[i] as real) / (t as real);
      g := g + temp * temp;
    }
    g := 1.0 - g;
  }

  /** gini_index over the workspace's count vectors. */
  method ComputeGini(w: Workspace) returns (v: real)
    requires w.Valid()
    ensures v == Gini(w.leftCount[..], w.rightCount[..])
  {
    var tl, tr := Totals(w);
    var giniLeft, giniRight := 0.0, 0.0;
    if tl != 0 {
      giniLeft := SideGiniLoop(w.leftCount, tl);
    }
    if tr != 0 {
      giniRight := SideGiniLoop(w.rightCount, tr);
    }
    assert giniLeft == SideGini(w.leftCount[..]) && giniRight == SideGini(w.rightCount[..]);
    if tl + tr == 0 {
      v := 0.0;
    } else {
      v := WeightedMean(tl, giniLeft, tr, giniRight);
    }
  }

  // ----- twoing -----

  /** |p_l(i) − p_r(i)| for one category: a side with no points contributes 0 to the difference. */
  function ShareGap(a: int, b: int, tl: real, tr: real): real
  {
    var temp := (if tl != 0.0 then a as real / tl else 0.0) - (if tr != 0.0 then b as real / tr else 0.0);
    if temp < 0.0 then -1.0 * temp else temp
  }

  /** Σ |p_l(i) − p_r(i)| over the first n categories. */
  function GoodnessTo(l: seq<int>, r: seq<int>, tl: real, tr: real, n: nat): real
    requires n <= |l| && n <= |r|
  {
    if n == 0 then 0.0 else GoodnessTo(l, r, tl, tr, n - 1) + ShareGap(l[n - 1], r[n - 1], tl, tr)
  }

  /** The twoing value p_L·p_R·(Σ|p_l(i) − p_r(i)|)²/4 of the two count vectors. */
  function TwoingValue(l: seq<int>, r: seq<int>): real
    requires |l| == |r| && Sum(l) + Sum(r) != 0
  {
    var tl, tr := Sum(l) as real, Sum(r) as real;
    var total := tl + tr;
    var g := GoodnessTo(l, r, tl, tr, |l|);
    (tl / total) * (tr / total) * g * g / 4.0
  }

  /** twoing: 0 with no points, HUGE_VAL for a twoing value of 0, its reciprocal otherwise. */
  function Twoing(l: seq<int>, r: seq<int>): Extended
    requires |l| == |r|
  {
    if Sum(l) + Sum(r) == 0 then Finite(0.0)
    else if TwoingValue(l, r) == 0.0 then HugeVal
    else Finite(1.0 / TwoingValue(l, r))
  }

  lemma {:induction false} GoodnessNonNegative(l: seq<int>, r: seq<int>, tl: real, tr: real, n: nat)
    requires n <= |l| && n <= |r|
    ensures GoodnessTo(l, r, tl, tr, n) >= 0.0
  {
    if n > 0 { GoodnessNonNegative(l, r, tl, tr, n - 1); }
  }

  lemma ProductOfNonNegatives(a: real, b: real, g: real)
    requires a >= 0.0 && b >= 0.0
    ensures a * b * g * g / 4.0 >= 0.0
  {
    assert a * b >= 0.0;
    assert g * g >= 0.0;
    assert a * b * g * g == (a * b) * (g * g);
  }

  lemma EmptyFactorZero(a: real, b: real, g: real)
    requires a == 0.0 || b == 0.0
    ensures a * b * g * g / 4.0 == 0.0
  {
  }

  lemma QuotientNonNegative(a: real, b: real)
    requires a >= 0.0 && b > 0.0
    ensures a / b >= 0.0
  {
  }

  lemma ReciprocalPositive(x: real)
    requires x > 0.0
    ensures 1.0 / x > 0.0
  {
  }

  /**
   * With non-negative counts and some points, twoing is HUGE_VAL whenever a
   * side is empty, and otherwise either HUGE_VAL or a positive finite value.
   */
  lemma TwoingCases(l: seq<int>, r: seq<int>)
    requires |l| == |r| && NonNegative(l) && NonNegative(r) && Sum(l) + Sum(r) != 0
    ensures Sum(l) == 0 || Sum(r) == 0 ==> Twoing(l, r) == HugeVal
    ensures Twoing(l, r).Finite? ==> Twoing(l, r).value > 0.0
  {
    SumNonNegative(l, |l|);
    SumNonNegative(r, |r|);
    var tl, tr := Sum(l) as real, Sum(r) as real;
    var total := tl + tr;
    var g := GoodnessTo(l, r, tl, tr, |l|);
    QuotientNonNegative(tl, total);
    QuotientNonNegative(tr, total);
    ProductOfNonNegatives(tl / total, tr / total, g);
    if Sum(l) == 0 || Sum(r) == 0 {
      EmptyFactorZero(tl / total, tr / total, g);
    }
    if TwoingValue(l, r) != 0.0 {
      ReciprocalPositive(TwoingValue(l, r));
    }
  }

  /** Σ |a[i]/tl − b[i]/tr| over the categories, the second loop of twoing. */
  method Goodness(a: array<int>, b: array<int>, tl: real, tr: real) returns (g: real)
    requires a.Length == b.Length
    ensures g == GoodnessTo(a[..], b[..], tl, tr, a.Length)
  {
    g := 0.0;
    for i := 0 to a.Length
      invariant g == GoodnessTo(a[..], b[..], tl, tr, i)
    {
      var temp := 0.0;
      if tl != 0.0 { temp := a[i] as real / tl; }
      if tr != 0.0 { temp := temp - b[i] as real / tr; }
      if temp < 0.0 {
        g := g + -1.0 * temp;
      } else {
        g := g + temp;
      }
    }
  }

  /** twoing over the workspace's count vectors. */
  method ComputeTwoing(w: Workspace) returns (v: Extended)
    requires w.Valid()
    ensures v == Twoing(w.leftCount[..], w.rightCount[..])
  {
    var l, r := Totals(w);
    var tl, tr := l as real, r as real;
    var total := tl + tr;
    if total == 0.0 { return Finite(0.0); }
    var goodness := Goodness(w.leftCount, w.rightCount, tl, tr);
    tl := tl / total;
    tr := tr / total;
    var twoingVal := tl * tr * goodness * goodness / 4.0;
    if twoingVal == 0.0 {
      v := HugeVal;
    } else {
      v := Finite(1.0 / twoingVal);
    }
  }

  // ----- info_gain (branch structure) -----

  /**
   * The outcome of info_gain for a given information gain: a zero gain gives
   * 0 when one category holds every point and HUGE_VAL otherwise; any other
   * gain gives its reciprocal. The entropy arithmetic that produces the gain
   * is not part of this model.
   */
  function InfoGain(l: seq<int>, r: seq<int>, gain: real): Extended
    requires |l| == |r|
  {
    if gain != 0.0 then Finite(1.0 / gain)
    else if exists i :: 0 <= i < |l| && l[i] + r[i] == Sum(l) + Sum(r) then Finite(0.0)
    else HugeVal
  }

  /** The zero-gain branch of info_gain, with the gain supplied by the caller. */
  method ComputeInfoGain(w: Workspace, gain: real) returns (v: Extended)
    requires w.Valid()
    ensures v == InfoGain(w.leftCount[..], w.rightCount[..], gain)
  {
    var tl, tr := Totals(w);
    var totalCount := tl + tr;
    if gain == 0.0 {
      for i := 0 to w.noOfCategories
        invariant forall j :: 0 <= j < i ==> w.leftCount[j] + w.rightCount[j] != totalCount
      {
        if w.leftCount[i] + w.rightCount[i] == totalCount {
          return Finite(0.0);
        }
      }
      v := HugeVal;
    } else {
      v := Finite(1.0 / gain);
    }
  }
}
