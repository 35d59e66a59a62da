/**
 * The one-dimensional threshold search of perturb.c (linear_split with its
 * comparison function compare), and the coefficient perturbations built on
 * it: suggest_perturbation, perturb_randomly, cart_perturb and
 * cart_perturb_constant.
 */
module Perturb {
  import opened Oc1
  import opened Counts
  import Sorting
  import Util

  /** The key compare orders candidates by: their projected value. */
  function Value(u: Unidim): real
  {
    u.value
  }

  /** The categories of a candidate sequence, in order. */
  function CandCats(s: seq<Unidim>): (r: seq<int>)
    ensures |r| == |s| && forall i :: 0 <= i < |s| ==> r[i] == s[i].cat
  {
    seq(|s|, i requires 0 <= i < |s| => s[i].cat)
  }

  /** Entry-wise difference of two count vectors. */
  function Minus(a: seq<int>, b: seq<int>): (r: seq<int>)
    requires |a| == |b|
    ensures |r| == |a| && forall i :: 0 <= i < |a| ==> r[i] == a[i] - b[i]
  {
    seq(|a|, i requires 0 <= i < |a| => a[i] - b[i])
  }

  // ----- Cuts of the sorted candidates -----

  /** The left counts once the first b candidates have moved left. */
  function CutLeft(s: seq<Unidim>, k: nat, b: nat): (t: seq<int>)
    requires b <= |s|
    ensures |t| == k
  {
    TallyTo(CandCats(s), b, k)
  }

  /** The right counts once the first b candidates have moved left: everything not yet moved. */
  function CutRight(s: seq<Unidim>, k: nat, b: nat): (t: seq<int>)
    requires b <= |s|
    ensures |t| == k
  {
    Minus(TallyTo(CandCats(s), |s|, k), CutLeft(s, k, b))
  }

  /** compute_impurity at the cut after the first b candidates. */
  function CutImpurity(s: seq<Unidim>, k: nat, measure: Measure, b: nat): real
    requires k >= 1 && b <= |s|
  {
    Impurity(CutLeft(s, k, b), CutRight(s, k, b), |s|, measure)
  }

  /** For every category, the two sides of a cut together hold all its candidates. */
  lemma CutConserves(s: seq<Unidim>, k: nat, b: nat)
    requires b <= |s|
    ensures forall e :: 0 <= e < k ==>
      CutLeft(s, k, b)[e] + CutRight(s, k, b)[e] == CountTo(CandCats(s), |s|, e + 1)
  {
    TallyCounts(CandCats(s), |s|, k);
  }

  lemma {:induction false} SumMinus(a: seq<int>, b: seq<int>, n: nat)
    requires |a| == |b| && n <= |a|
    ensures SumTo(Minus(a, b), n) == SumTo(a, n) - SumTo(b, n)
  {
    if n > 0 { SumMinus(a, b, n - 1); }
  }

  /** With every category in range, the counts of a cut add up to the number of candidates. */
  lemma CutCountsSum(s: seq<Unidim>, k: nat, b: nat)
    requires b <= |s| && InRange(CandCats(s), k)
    ensures Sum(CutLeft(s, k, b)) + Sum(CutRight(s, k, b)) == |s|
  {
    var cs := CandCats(s);
    TallySum(cs, b, k);
    TallySum(cs, |s|, k);
    SumMinus(TallyTo(cs, |s|, k), TallyTo(cs, b, k), k);
  }

  /** Moving candidate b to the left adds one to its category on the left and removes one on the right. */
  lemma CutStep(s: seq<Unidim>, k: nat, b: nat)
    requires b < |s| && 1 <= s[b].cat <= k
    ensures CutLeft(s, k, b + 1) == CutLeft(s, k, b)[s[b].cat - 1 := CutLeft(s, k, b)[s[b].cat - 1] + 1]
    ensures CutRight(s, k, b + 1) == CutRight(s, k, b)[s[b].cat - 1 := CutRight(s, k, b)[s[b].cat - 1] - 1]
  {
    assert CandCats(s)[b] == s[b].cat;
  }

  // ----- Runs of equal values -----

  /** Where the run of values equal to s[from] ends, scanning on from `to`. */
  function RunEnd(s: seq<Unidim>, from: nat, to: nat): (e: nat)
    requires from < to <= |s|
    ensures to <= e <= |s|
    decreases |s| - to
  {
    if to < |s| && s[to].value == s[from].value then RunEnd(s, from, to + 1) else to
  }

  /** A run ends where the value changes or the candidates end. */
  lemma {:induction false} RunEndIsRunEnd(s: seq<Unidim>, from: nat, to: nat)
    requires from < to <= |s|
    requires forall j :: from <= j < to ==> s[j].value == s[from].value
    ensures forall j :: from <= j < RunEnd(s, from, to) ==> s[j].value == s[from].value
    ensures RunEnd(s, from, to) == |s| || s[RunEnd(s, from, to)].value != s[from].value
    decreases |s| - to
  {
    if to < |s| && s[to].value == s[from].value {
      RunEndIsRunEnd(s, from, to + 1);
    }
  }

  /** A cut after b candidates that does not separate two equal values. */
  predicate RunBoundary(s: seq<Unidim>, b: nat)
  {
    0 < b <= |s| && (b == |s| || s[b - 1].value != s[b].value)
  }

  // ----- The sweep of linear_split -----

  /**
   * The state of linear_split's sweep: the best impurity so far and the cut
   * it was found at, the position of the next draw of the random stream, and
   * the cut processed last (where the count vectors stand).
   */
  datatype SweepState = SweepState(best: real, bestsplit: nat, index: nat, last: nat)

  /**
   * Whether the cut after the run starting at i replaces the best one: its
   * impurity is strictly lower, or equal and the next draw is below 0.5.
   */
  predicate RunTaken(s: seq<Unidim>, k: nat, measure: Measure, draws: nat -> real, i: nat, st: SweepState)
    requires k >= 1 && i < |s|
  {
    var temp := CutImpurity(s, k, measure, RunEnd(s, i, i + 1));
    temp < st.best || (temp == st.best && draws(st.index) < 0.5)
  }

  /**
   * One round of the sweep: the run starting at i moves left as a whole and
   * its cut is kept or not; a draw is consumed only when the impurities tie.
   */
  function SweepStep(s: seq<Unidim>, k: nat, measure: Measure, draws: nat -> real, i: nat, st: SweepState): (r: SweepState)
    requires k >= 1 && i < |s|
    ensures r.last == RunEnd(s, i, i + 1)
  {
    var to := RunEnd(s, i, i + 1);
    var temp := CutImpurity(s, k, measure, to);
    var index := if !(temp < st.best) && temp == st.best then st.index + 1 else st.index;
    if RunTaken(s, k, measure, draws, i, st) then SweepState(temp, to, index, to)
    else SweepState(st.best, st.bestsplit, index, to)
  }

  /** The sweep from cut i on, stopping as soon as a kept impurity is 0. */
  function SweepFrom(s: seq<Unidim>, k: nat, measure: Measure, draws: nat -> real, i: nat, st: SweepState): (r: SweepState)
    requires k >= 1 && i <= |s|
    ensures st.bestsplit <= |s| && st.last <= |s| ==> r.bestsplit <= |s| && r.last <= |s|
    decreases |s| - i
  {
    if i == |s| then st
    else
      var next := SweepStep(s, k, measure, draws, i, st);
      if RunTaken(s, k, measure, draws, i, st) && next.best == 0.0 then next
      else SweepFrom(s, k, measure, draws, next.last, next)
  }

  /** The whole sweep: every candidate starts on the right, with its impurity as the best so far. */
  function LinearSweep(s: seq<Unidim>, k: nat, measure: Measure, draws: nat -> real, index: nat): (r: SweepState)
    requires k >= 1
    ensures r.bestsplit <= |s| && r.last <= |s|
  {
    SweepFrom(s, k, measure, draws, 0, SweepState(CutImpurity(s, k, measure, 0), 0, index, 0))
  }

  /** The value linear_split returns for the kept cut b among the first n candidates. */
  function SplitValue(a: seq<Unidim>, n: nat, b: nat): real
    requires 1 <= |a| && b <= n <= |a|
  {
    if b == 0 then a[0].value - Tolerance
    else if b == n then a[b - 1].value
    else (a[b - 1].value + a[b].value) / 2.0
  }

  /**
   * The sweep keeps only cuts at run boundaries, never one beyond its last
   * processed cut, and its kept impurity never grows and is always the
   * impurity of the kept cut.
   */
  lemma {:induction false} SweepKeepsBoundaries(s: seq<Unidim>, k: nat, measure: Measure, draws: nat -> real, i: nat, st: SweepState)
    requires k >= 1 && i <= |s| && st.last == i && st.bestsplit <= i
    requires st.bestsplit == 0 || RunBoundary(s, st.bestsplit)
    requires st.best == CutImpurity(s, k, measure, st.bestsplit)
    ensures var r := SweepFrom(s, k, measure, draws, i, st);
      && (r.bestsplit == 0 || RunBoundary(s, r.bestsplit))
      && r.bestsplit <= r.last <= |s| && i <= r.last
      && r.best <= st.best && r.best == CutImpurity(s, k, measure, r.bestsplit)
    decreases |s| - i
  {
    if i < |s| {
      RunEndIsRunEnd(s, i, i + 1);
      var next := SweepStep(s, k, measure, draws, i, st);
      assert s[next.last - 1].value == s[i].value;
      if !(RunTaken(s, k, measure, draws, i, st) && next.best == 0.0) {
        SweepKeepsBoundaries(s, k, measure, draws, next.last, next);
      }
    }
  }

  /** The sweep runs to the end, or stops right after keeping a cut of impurity 0. */
  lemma {:induction false} SweepStopsOnlyAtZero(s: seq<Unidim>, k: nat, measure: Measure, draws: nat -> real, i: nat, st: SweepState)
    requires k >= 1 && i <= |s| && st.last == i
    ensures var r := SweepFrom(s, k, measure, draws, i, st);
      r.last == |s| || (r.best == 0.0 && r.last == r.bestsplit)
    decreases |s| - i
  {
    if i < |s| {
      var next := SweepStep(s, k, measure, draws, i, st);
      if !(RunTaken(s, k, measure, draws, i, st) && next.best == 0.0) {
        SweepStopsOnlyAtZero(s, k, measure, draws, next.last, next);
      }
    }
  }

  /** The kept impurity never grows. */
  lemma {:induction false} SweepBestDecreases(s: seq<Unidim>, k: nat, measure: Measure, draws: nat -> real, i: nat, st: SweepState)
    requires k >= 1 && i <= |s|
    ensures SweepFrom(s, k, measure, draws, i, st).best <= st.best
    decreases |s| - i
  {
    if i < |s| {
      var next := SweepStep(s, k, measure, draws, i, st);
      if !(RunTaken(s, k, measure, draws, i, st) && next.best == 0.0) {
        SweepBestDecreases(s, k, measure, draws, next.last, next);
      }
    }
  }

  /** No run boundary lies strictly inside a run of equal values. */
  lemma NoBoundaryInsideRun(s: seq<Unidim>, i: nat, b: nat)
    requires i < b <= |s| && RunBoundary(s, b)
    ensures RunEnd(s, i, i + 1) <= b
  {
    RunEndIsRunEnd(s, i, i + 1);
  }

  /** One round keeps an impurity no larger than the old best or the impurity of the cut it reaches. */
  lemma StepBestBound(s: seq<Unidim>, k: nat, measure: Measure, draws: nat -> real, i: nat, st: SweepState)
    requires k >= 1 && i < |s|
    ensures SweepStep(s, k, measure, draws, i, st).best <= CutImpurity(s, k, measure, RunEnd(s, i, i + 1))
    ensures SweepStep(s, k, measure, draws, i, st).best <= st.best
  {
  }

  /** A bound on every boundary after the end of the run starting at i extends to the run's own end. */
  lemma BoundAcrossRun(s: seq<Unidim>, k: nat, measure: Measure, i: nat, last: nat, best: real)
    requires k >= 1 && i < |s| && RunEnd(s, i, i + 1) <= last <= |s|
    requires best <= CutImpurity(s, k, measure, RunEnd(s, i, i + 1))
    requires forall b :: RunEnd(s, i, i + 1) < b <= last && RunBoundary(s, b) ==> best <= CutImpurity(s, k, measure, b)
    ensures forall b :: i < b <= last && RunBoundary(s, b) ==> best <= CutImpurity(s, k, measure, b)
  {
    forall b | i < b <= last && RunBoundary(s, b)
      ensures best <= CutImpurity(s, k, measure, b)
    {
      NoBoundaryInsideRun(s, i, b);
    }
  }

  /**
   * The kept impurity is at most the impurity of every run boundary the sweep
   * passed: with no early stop, the kept cut is a best one.
   */
  lemma {:induction false} SweepIsMinimal(s: seq<Unidim>, k: nat, measure: Measure, draws: nat -> real, i: nat, st: SweepState)
    requires k >= 1 && i <= |s| && st.last == i
    ensures var r := SweepFrom(s, k, measure, draws, i, st);
      forall b :: i < b <= r.last && RunBoundary(s, b) ==> r.best <= CutImpurity(s, k, measure, b)
    decreases |s| - i
  {
    if i < |s| {
      var next := SweepStep(s, k, measure, draws, i, st);
      StepBestBound(s, k, measure, draws, i, st);
      if RunTaken(s, k, measure, draws, i, st) && next.best == 0.0 {
        BoundAcrossRun(s, k, measure, i, next.last, next.best);
      } else {
        var r := SweepFrom(s, k, measure, draws, next.last, next);
        SweepIsMinimal(s, k, measure, draws, next.last, next);
        SweepBestDecreases(s, k, measure, draws, next.last, next);
        SweepKeepsLast(s, k, measure, draws, next.last, next);
        BoundAcrossRun(s, k, measure, i, r.last, r.best);
      }
    }
  }

  /** The sweep never ends before the cut it starts from. */
  lemma {:induction false} SweepKeepsLast(s: seq<Unidim>, k: nat, measure: Measure, draws: nat -> real, i: nat, st: SweepState)
    requires k >= 1 && i <= |s| && st.last == i
    ensures i <= SweepFrom(s, k, measure, draws, i, st).last <= |s|
    decreases |s| - i
  {
    if i < |s| {
      var next := SweepStep(s, k, measure, draws, i, st);
      if !(RunTaken(s, k, measure, draws, i, st) && next.best == 0.0) {
        SweepKeepsLast(s, k, measure, draws, next.last, next);
      }
    }
  }

  /** What the whole sweep promises: the kept cut and its impurity. */
  lemma LinearSweepMeaning(s: seq<Unidim>, k: nat, measure: Measure, draws: nat -> real, index: nat)
    requires k >= 1
    ensures var r := LinearSweep(s, k, measure, draws, index);
      && (r.bestsplit == 0 || RunBoundary(s, r.bestsplit))
      && r.bestsplit <= r.last <= |s|
      && r.best <= CutImpurity(s, k, measure, 0)
      && r.best == CutImpurity(s, k, measure, r.bestsplit)
      && (r.last == |s| || (r.best == 0.0 && r.last == r.bestsplit))
      && forall b :: 0 < b <= r.last && RunBoundary(s, b) ==> r.best <= CutImpurity(s, k, measure, b)
  {
    var st := SweepState(CutImpurity(s, k, measure, 0), 0, index, 0);
    SweepKeepsBoundaries(s, k, measure, draws, 0, st);
    SweepStopsOnlyAtZero(s, k, measure, draws, 0, st);
    SweepIsMinimal(s, k, measure, draws, 0, st);
  }

  /**
   * On sorted candidates, the value returned for a cut at a run boundary
   * separates the two sides: below every candidate when nothing moved left,
   * strictly between the sides for an inner cut, and the maximum when
   * everything moved left (so candidates equal to it are not below it).
   */
  lemma SplitValueSeparates(a: seq<Unidim>, n: nat, b: nat)
    requires 1 <= |a| && b <= n <= |a| && Sorting.SortedBy(a[..n], Value)
    requires b == 0 || RunBoundary(a[..n], b)
    ensures b == 0 ==> forall i :: 0 <= i < n ==> SplitValue(a, n, b) < a[i].value
    ensures 0 < b < n ==> forall i :: 0 <= i < b ==> a[i].value < SplitValue(a, n, b)
    ensures 0 < b < n ==> forall i :: b <= i < n ==> SplitValue(a, n, b) < a[i].value
    ensures 0 < b == n ==> forall i :: 0 <= i < n ==> a[i].value <= SplitValue(a, n, b)
  {
    var s := a[..n];
    forall i, j | 0 <= i < j < n ensures a[i].value <= a[j].value {
      assert Value(s[i]) <= Value(s[j]);
    }
    if 0 < b < n {
      assert s[b - 1].value != s[b].value;
    }
  }

  // ----- linear_split -----

  /** The loop of linear_split that counts every candidate on the right. */
  method CountCandidatesRight(right: array<int>, a: array<Unidim>, n: nat, ghost s: seq<Unidim>)
    requires n <= a.Length && s == a[..n] && InRange(CandCats(s), right.Length)
    requires right[..] == seq(right.Length, _ => 0)
    modifies right
    ensures right[..] == CutRight(s, right.Length, 0)
  {
    var k := right.Length;
    ghost var cs := CandCats(s);
    for i := 0 to n
      invariant right[..] == TallyTo(cs, i, k)
    {
      assert cs[i] == a[i].cat;
      right[a[i].cat - 1] := right[a[i].cat - 1] + 1;
    }
    assert CutRight(s, k, 0) == TallyTo(cs, n, k);
  }

  /** The inner scan of linear_split: the end of the run of values equal to a[from]. */
  method FindRunEnd(a: array<Unidim>, n: nat, from: nat) returns (to: nat)
    requires from < n <= a.Length
    ensures to == RunEnd(a[..n], from, from + 1)
  {
    to := from + 1;
    while to < n && a[to].value == a[from].value
      invariant from < to <= n
      invariant RunEnd(a[..n], from, to) == RunEnd(a[..n], from, from + 1)
      decreases n - to
    {
      to := to + 1;
    }
  }

  /** Moves candidates from..to-1 from the right counts to the left counts. */
  method MoveRunLeft(left: array<int>, right: array<int>, a: array<Unidim>, from: nat, to: nat, ghost cs: seq<int>)
    requires left != right && left.Length == right.Length
    requires from <= to <= |cs| <= a.Length
    requires forall i :: 0 <= i < |cs| ==> a[i].cat == cs[i]
    requires InRange(cs, left.Length)
    requires left[..] == TallyTo(cs, from, left.Length)
    requires right[..] == Minus(TallyTo(cs, |cs|, left.Length), TallyTo(cs, from, left.Length))
    modifies left, right
    ensures left[..] == TallyTo(cs, to, left.Length)
    ensures right[..] == Minus(TallyTo(cs, |cs|, left.Length), TallyTo(cs, to, left.Length))
  {
    var k := left.Length;
    ghost var total := TallyTo(cs, |cs|, k);
    for j := from to to
      invariant left[..] == TallyTo(cs, j, k)
      invariant right[..] == Minus(total, TallyTo(cs, j, k))
    {
      var c := a[j].cat;
      assert c == cs[j];
      ghost var l, r := left[..], right[..];
      left[c - 1] := left[c - 1] + 1;
      assert left[..] == l[c - 1 := l[c - 1] + 1];
      right[c - 1] := right[c - 1] - 1;
      assert right[..] == r[c - 1 := r[c - 1] - 1];
      MinusStep(total, l, c - 1);
    }
  }

  lemma MinusStep(a: seq<int>, b: seq<int>, e: nat)
    requires |a| == |b| && e < |a|
    ensures Minus(a, b[e := b[e] + 1]) == Minus(a, b)[e := Minus(a, b)[e] - 1]
  {
  }

  /** The start of linear_split's sweep: every candidate counted on the right, and that cut's impurity. */
  method SweepStart(w: Workspace, n: nat, measure: Measure) returns (impurity: real)
    requires w.Valid() && n <= w.candidates.Length
    requires InRange(CandCats(w.candidates[..n]), w.noOfCategories)
    modifies w.leftCount, w.rightCount
    ensures impurity == CutImpurity(w.candidates[..n], w.noOfCategories, measure, 0)
    ensures w.leftCount[..] == CutLeft(w.candidates[..n], w.noOfCategories, 0)
    ensures w.rightCount[..] == CutRight(w.candidates[..n], w.noOfCategories, 0)
  {
    ghost var s := w.candidates[..n];
    ResetCounts(w);
    CountCandidatesRight(w.rightCount, w.candidates, n, s);
    assert w.leftCount[..] == CutLeft(s, w.noOfCategories, 0);
    CutCountsSum(s, w.noOfCategories, 0);
    impurity := ComputeImpurity(w, n, measure);
  }

  /**
   * One round of linear_split's sweep (SweepStep): the run starting at i
   * moves left, and its cut is kept when its impurity is lower, or equal and
   * the coin falls below 0.5.
   */
  method SweepRound(w: Workspace, n: nat, measure: Measure, rng: Util.Oracle, i: nat, best: real, split: nat)
      returns (to: nat, best': real, split': nat, take: bool)
    requires w.Valid() && rng.Valid() && i < n <= w.candidates.Length
    requires InRange(CandCats(w.candidates[..n]), w.noOfCategories)
    requires w.leftCount[..] == CutLeft(w.candidates[..n], w.noOfCategories, i)
    requires w.rightCount[..] == CutRight(w.candidates[..n], w.noOfCategories, i)
    modifies w.leftCount, w.rightCount, rng`index
    ensures SweepState(best', split', rng.index, to) ==
      SweepStep(w.candidates[..n], w.noOfCategories, measure, rng.draws, i, SweepState(best, split, old(rng.index), i))
    ensures take == RunTaken(w.candidates[..n], w.noOfCategories, measure, rng.draws, i, SweepState(best, split, old(rng.index), i))
    ensures w.leftCount[..] == CutLeft(w.candidates[..n], w.noOfCategories, to)
    ensures w.rightCount[..] == CutRight(w.candidates[..n], w.noOfCategories, to)
  {
    var k, a := w.noOfCategories, w.candidates;
    ghost var s := a[..n];
    to := FindRunEnd(a, n, i);
    MoveRunLeft(w.leftCount, w.rightCount, a, i, to, CandCats(s));
    CutCountsSum(s, k, to);
    var temp := ComputeImpurity(w, n, measure);
    take := temp < best;
    if !take && temp == best {
      var u := rng.Next();
      take := Util.MyRandom(0.0, 1.0, u) < 0.5;
    }
    best', split' := best, split;
    if take {
      best', split' := temp, to;
    }
  }

  /**
   * The sweep of linear_split over the first n candidates, as LinearSweep
   * describes. Returns the kept cut; the count vectors end at the last
   * processed cut.
   */
  method SweepCandidates(w: Workspace, n: nat, measure: Measure, rng: Util.Oracle) returns (bestsplit: nat)
    requires w.Valid() && rng.Valid() && n <= w.candidates.Length
    requires InRange(CandCats(w.candidates[..n]), w.noOfCategories)
    modifies w.leftCount, w.rightCount, rng`index
    ensures bestsplit == LinearSweep(w.candidates[..n], w.noOfCategories, measure, rng.draws, old(rng.index)).bestsplit
    ensures rng.index == LinearSweep(w.candidates[..n], w.noOfCategories, measure, rng.draws, old(rng.index)).index
    ensures w.leftCount[..] ==
      CutLeft(w.candidates[..n], w.noOfCategories, LinearSweep(w.candidates[..n], w.noOfCategories, measure, rng.draws, old(rng.index)).last)
    ensures w.rightCount[..] ==
      CutRight(w.candidates[..n], w.noOfCategories, LinearSweep(w.candidates[..n], w.noOfCategories, measure, rng.draws, old(rng.index)).last)
  {
    ghost var s, k, draws := w.candidates[..n], w.noOfCategories, rng.draws;
    var impurity1d := SweepStart(w, n, measure);
    bestsplit := 0;
    ghost var target := LinearSweep(s, k, measure, draws, old(rng.index));
    var i := 0;
    while i < n
      invariant i <= n && bestsplit <= i
      invariant w.leftCount[..] == CutLeft(s, k, i)
      invariant w.rightCount[..] == CutRight(s, k, i)
      invariant SweepFrom(s, k, measure, draws, i, SweepState(impurity1d, bestsplit, rng.index, i)) == target
      decreases n - i
    {
      var take;
      i, impurity1d, bestsplit, take := SweepRound(w, n, measure, rng, i, impurity1d, bestsplit);
      if take && impurity1d == 0.0 {
        break;
      }
    }
  }

  /**
   * linear_split: sorts the first n candidates by value, sweeps the cuts
   * between runs of equal values, and returns the value of the kept cut.
   */
  method LinearSplit(w: Workspace, n: nat, measure: Measure, rng: Util.Oracle) returns (newval: real)
    requires w.Valid() && rng.Valid() && n <= w.candidates.Length
    requires forall i :: 0 <= i < n ==> 1 <= w.candidates[i].cat <= w.noOfCategories
    modifies w.candidates, w.leftCount, w.rightCount, rng`index
    ensures Sorting.SortedBy(w.candidates[..n], Value)
    ensures multiset(w.candidates[..n]) == multiset(old(w.candidates[..n]))
    ensures w.candidates[n..] == old(w.candidates[n..])
    ensures newval == SplitValue(w.candidates[..], n,
      LinearSweep(w.candidates[..n], w.noOfCategories, measure, rng.draws, old(rng.index)).bestsplit)
    ensures rng.index == LinearSweep(w.candidates[..n], w.noOfCategories, measure, rng.draws, old(rng.index)).index
    ensures w.leftCount[..] ==
      CutLeft(w.candidates[..n], w.noOfCategories, LinearSweep(w.candidates[..n], w.noOfCategories, measure, rng.draws, old(rng.index)).last)
    ensures w.rightCount[..] ==
      CutRight(w.candidates[..n], w.noOfCategories, LinearSweep(w.candidates[..n], w.noOfCategories, measure, rng.draws, old(rng.index)).last)
  {
    ghost var c0 := w.candidates[..n];
    Sorting.QSort(w.candidates, n, Value);
    PermutedCatsInRange(c0, w.candidates[..n], w.noOfCategories);
    var bestsplit := SweepCandidates(w, n, measure, rng);
    newval := CutValue(w.candidates, n, bestsplit);
  }

  /** The three-case return of linear_split. */
  method CutValue(a: array<Unidim>, n: nat, bestsplit: nat) returns (newval: real)
    requires 1 <= a.Length && bestsplit <= n <= a.Length
    ensures newval == SplitValue(a[..], n, bestsplit)
  {
    if bestsplit == 0 {
      newval := a[0].value - Tolerance;
    } else if bestsplit == n {
      newval := a[bestsplit - 1].value;
    } else {
      newval := (a[bestsplit - 1].value + a[bestsplit].value) / 2.0;
    }
  }

  /** Reordering the candidates keeps every category in range. */
  lemma PermutedCatsInRange(c0: seq<Unidim>, s: seq<Unidim>, k: nat)
    requires multiset(s) == multiset(c0)
    requires forall i :: 0 <= i < |c0| ==> 1 <= c0[i].cat <= k
    ensures InRange(CandCats(s), k)
  {
    forall i | 0 <= i < |s| ensures 1 <= CandCats(s)[i] <= k {
      assert s[i] in multiset(c0);
    }
  }

  // ----- Shared steps of the perturbations -----

  /**
   * v and index' are what linear_split returns for the candidate set s when
   * the oracle starts at index: the buffer a holds s sorted by value, and v
   * is the cut value of the sweep over it.
   */
  ghost predicate SplitOf(a: seq<Unidim>, s: seq<Unidim>, k: nat, measure: Measure, draws: nat -> real, index: nat, v: real, index': nat)
  {
    && 1 <= |a| && |s| <= |a| && k >= 1
    && Sorting.SortedBy(a[..|s|], Value)
    && multiset(a[..|s|]) == multiset(s)
    && v == SplitValue(a, |s|, LinearSweep(a[..|s|], k, measure, draws, index).bestsplit)
    && index' == LinearSweep(a[..|s|], k, measure, draws, index).index
  }

  /** The candidate buffer holds the outcome of linear_split on s: SplitOf over the workspace. */
  ghost predicate Proposed(w: Workspace, s: seq<Unidim>, measure: Measure, draws: nat -> real, index: nat, v: real, index': nat)
    reads w.candidates
  {
    SplitOf(w.candidates[..], s, w.noOfCategories, measure, draws, index, v, index')
  }

  /**
   * The state a perturbation's recount leaves: temp_val (when `stored`) holds
   * the points' new values `vals`, the counts are the tallies of the two sides
   * of those values, and d is their impurity.
   */
  ghost predicate Recounted(w: Workspace, ps: seq<Sample>, vals: seq<real>, stored: bool, measure: Measure, d: real)
    reads w.tempVal, w.leftCount, w.rightCount
  {
    && |vals| == |ps| && w.noOfCategories >= 1
    && (stored ==> |ps| <= w.tempVal.Length && w.tempVal[..|ps|] == vals)
    && w.leftCount[..] == Tally(LeftCats(SampleCats(ps), vals, |ps|), w.noOfCategories)
    && w.rightCount[..] == Tally(RightCats(SampleCats(ps), vals, |ps|), w.noOfCategories)
    && |w.leftCount[..]| >= 1 && |w.rightCount[..]| >= 1
    && d == Impurity(w.leftCount[..], w.rightCount[..], |ps|, measure)
  }

  /** Every candidate's category lies in 1..k. */
  predicate CatsWithin(s: seq<Unidim>, k: nat)
  {
    forall i :: 0 <= i < |s| ==> 1 <= s[i].cat <= k
  }

  /**
   * The counting step every perturbation repeats for point i: the point,
   * of category c and new value v, counts on the left exactly when v is
   * negative.
   */
  method CountPoint(left: array<int>, right: array<int>, ghost cs: seq<int>, ghost vs: seq<real>, i: nat, k: nat, c: int, v: real)
    requires left.Length == k && right.Length == k && left != right
    requires i < |cs| && i < |vs| && c == cs[i] && v == vs[i] && 1 <= c <= k
    requires left[..] == SplitCounts(cs, vs, i, k).0 && right[..] == SplitCounts(cs, vs, i, k).1
    modifies left, right
    ensures left[..] == SplitCounts(cs, vs, i + 1, k).0 && right[..] == SplitCounts(cs, vs, i + 1, k).1
  {
    if v < 0.0 {
      left[c - 1] := left[c - 1] + 1;
    } else {
      right[c - 1] := right[c - 1] + 1;
    }
  }

  /** The first step of every perturbation: the modified hyperplane starts as a copy of the current one. */
  method CopyCoefficients(w: Workspace)
    requires w.Valid()
    modifies w.modifiedCoeffArray
    ensures w.modifiedCoeffArray[..] == w.coeffArray[..]
  {
    var m, c := w.modifiedCoeffArray, w.coeffArray;
    for i := 0 to m.Length
      invariant forall p :: 0 <= p < i ==> m[p] == c[p]
    {
      m[i] := c[i];
    }
  }

  /** linear_split over the first n buffered candidates, stated as SplitOf. */
  method SplitCandidates(w: Workspace, n: nat, measure: Measure, rng: Util.Oracle, ghost s: seq<Unidim>) returns (v: real)
    requires w.Valid() && rng.Valid() && n <= w.candidates.Length
    requires w.candidates[..n] == s && CatsWithin(s, w.noOfCategories)
    modifies w.candidates, w.leftCount, w.rightCount, rng`index
    ensures SplitOf(w.candidates[..], s, w.noOfCategories, measure, rng.draws, old(rng.index), v, rng.index)
    ensures w.candidates[n..] == old(w.candidates[n..])
  {
    v := LinearSplit(w, n, measure, rng);
  }

  // ----- suggest_perturbation -----

  /**
   * The candidates suggest_perturbation offers linear_split for coefficient
   * j, whose current value is cj: each of the first n points whose
   * coordinate j is non-zero proposes the value of coefficient j that puts
   * it on the hyperplane (SuggestedValueZeroes).
   */
  function SuggestCandidates(ps: seq<Sample>, j: nat, cj: real, n: nat): (r: seq<Unidim>)
    requires n <= |ps|
    ensures |r| <= n
  {
    if n == 0 then []
    else
      var z := Coordinate(ps[n - 1].x, j);
      SuggestCandidates(ps, j, cj, n - 1) +
        (if z != 0.0 then [Unidim(cj - ps[n - 1].val / z, ps[n - 1].cat)] else [])
  }

  lemma {:induction false} SuggestCandidatesWithin(ps: seq<Sample>, j: nat, cj: real, n: nat, d: nat, k: nat)
    requires n <= |ps| && SamplesWellFormed(ps, d, k)
    ensures CatsWithin(SuggestCandidates(ps, j, cj, n), k)
  {
    if n > 0 { SuggestCandidatesWithin(ps, j, cj, n - 1, d, k); }
  }

  /**
   * What a suggested value means: for a point whose value v is that of the
   * hyperplane c, setting coefficient j to c[j] - v / x_j puts the point on
   * the hyperplane.
   */
  lemma SuggestedValueZeroes(c: seq<real>, x: seq<real>, j: nat)
    requires |c| == |x| + 1 && j < |c| && Coordinate(x, j) != 0.0
    ensures HyperplaneValue(c[j := c[j] - HyperplaneValue(c, x) / Coordinate(x, j)], x) == 0.0
  {
    var v, z := HyperplaneValue(c, x), Coordinate(x, j);
    HyperplaneUpdate(c, x, j, c[j] - v / z);
    assert (c[j] - v / z - c[j]) * z == -v;
  }

  /** The loop of suggest_perturbation that fills the candidate buffer, for a feature coefficient j. */
  method FillFeatureCandidates(a: array<Unidim>, pts: seq<Point>, ghost ps: seq<Sample>, j: nat, cj: real) returns (m: nat)
    requires |pts| <= a.Length && Snapshot(pts, ps)
    requires forall i :: 0 <= i < |pts| ==> j < |pts[i].dimension|
    modifies a
    ensures m <= |pts|
    ensures a[..m] == SuggestCandidates(ps, j, cj, |pts|)
  {
    m := 0;
    for i := 0 to |pts|
      invariant m <= i
      invariant a[..m] == SuggestCandidates(ps, j, cj, i)
    {
      var x := pts[i].dimension[j];
      if x != 0.0 {
        a[m] := Unidim(cj - pts[i].val / x, pts[i].category);
        m := m + 1;
      }
    }
  }

  /** The same loop for the constant term, whose coordinate is 1 at every point. */
  method FillConstantCandidates(a: array<Unidim>, pts: seq<Point>, ghost ps: seq<Sample>, j: nat, cj: real) returns (m: nat)
    requires |pts| <= a.Length && Snapshot(pts, ps)
    requires forall i :: 0 <= i < |pts| ==> |pts[i].dimension| == j
    modifies a
    ensures m == |pts|
    ensures a[..m] == SuggestCandidates(ps, j, cj, |pts|)
  {
    m := 0;
    for i := 0 to |pts|
      invariant m == i
      invariant a[..m] == SuggestCandidates(ps, j, cj, i)
    {
      assert Coordinate(ps[i].x, j) == 1.0;
      a[m] := Unidim(cj - pts[i].val, pts[i].category);
      m := m + 1;
    }
  }

  /** Every point's value after coefficient j moves by `change`. */
  function ShiftedValues(ps: seq<Sample>, j: nat, change: real): (r: seq<real>)
    ensures |r| == |ps|
    ensures forall i :: 0 <= i < |ps| ==> r[i] == ps[i].val + change * Coordinate(ps[i].x, j)
  {
    seq(|ps|, i requires 0 <= i < |ps| => ps[i].val + change * Coordinate(ps[i].x, j))
  }

  /** With current cached values, the shifted values are those of the hyperplane with coefficient j replaced. */
  lemma ShiftedIsHyperplane(ps: seq<Sample>, c: seq<real>, j: nat, v: real)
    requires SamplesMatch(ps, c) && j < |c|
    ensures ShiftedValues(ps, j, v - c[j]) == PlaneValues(ps, c[j := v])
  {
    var shifted, plane := ShiftedValues(ps, j, v - c[j]), PlaneValues(ps, c[j := v]);
    forall i | 0 <= i < |ps|
      ensures shifted[i] == plane[i]
    {
      HyperplaneUpdate(c, ps[i].x, j, v);
    }
  }

  /** One round of the counting loop of suggest_perturbation, for point i. */
  method ShiftStep(tv: array<real>, left: array<int>, right: array<int>, pts: seq<Point>, ghost ps: seq<Sample>,
                   j: nat, d: nat, change: real, i: nat, k: nat)
    requires Snapshot(pts, ps) && i < |pts| <= tv.Length && 1 <= ps[i].cat <= k && |ps[i].x| == d && j <= d
    requires left.Length == k && right.Length == k && left != right
    requires left[..] == SplitCounts(SampleCats(ps), ShiftedValues(ps, j, change), i, k).0
    requires right[..] == SplitCounts(SampleCats(ps), ShiftedValues(ps, j, change), i, k).1
    modifies tv, left, right
    ensures tv[i] == ShiftedValues(ps, j, change)[i]
    ensures forall p :: 0 <= p < tv.Length && p != i ==> tv[p] == old(tv[p])
    ensures left[..] == SplitCounts(SampleCats(ps), ShiftedValues(ps, j, change), i + 1, k).0
    ensures right[..] == SplitCounts(SampleCats(ps), ShiftedValues(ps, j, change), i + 1, k).1
  {
    tv[i] := pts[i].val;
    if j == d {
      tv[i] := tv[i] + change;
    } else {
      tv[i] := tv[i] + change * pts[i].dimension[j];
    }
    CountPoint(left, right, SampleCats(ps), ShiftedValues(ps, j, change), i, k, pts[i].category, tv[i]);
  }

  /**
   * The counting loop of suggest_perturbation: temp_val gets each point's
   * value moved by the change of coefficient j, and the point counts left
   * exactly when that value is negative.
   */
  method ShiftAndCount(w: Workspace, pts: seq<Point>, ghost ps: seq<Sample>, j: nat, change: real)
    requires w.Valid() && Snapshot(pts, ps) && SamplesWellFormed(ps, w.noOfDimensions, w.noOfCategories)
    requires j <= w.noOfDimensions && |pts| <= w.tempVal.Length
    requires w.leftCount[..] == seq(w.noOfCategories, _ => 0)
    requires w.rightCount[..] == seq(w.noOfCategories, _ => 0)
    modifies w.tempVal, w.leftCount, w.rightCount
    ensures w.tempVal[..|pts|] == ShiftedValues(ps, j, change)
    ensures w.leftCount[..] == SplitCounts(SampleCats(ps), ShiftedValues(ps, j, change), |pts|, w.noOfCategories).0
    ensures w.rightCount[..] == SplitCounts(SampleCats(ps), ShiftedValues(ps, j, change), |pts|, w.noOfCategories).1
  {
    var d, k, tv, left, right := w.noOfDimensions, w.noOfCategories, w.tempVal, w.leftCount, w.rightCount;
    ghost var cs, ts := SampleCats(ps), ShiftedValues(ps, j, change);
    for i := 0 to |pts|
      invariant forall p :: 0 <= p < i ==> tv[p] == ts[p]
      invariant left[..] == SplitCounts(cs, ts, i, k).0
      invariant right[..] == SplitCounts(cs, ts, i, k).1
    {
      ShiftStep(tv, left, right, pts, ps, j, d, change, i, k);
    }
  }

  /** suggest_perturbation's rejection rule: a worse impurity, or a tie within TOLERANCE once the stagnation counter is past its limit. */
  predicate Rejects(curError: real, d: real, stagnant: int)
  {
    curError < d || (Util.MyAbs(curError - d) <= Tolerance && stagnant > MaxNoOfStagnantPerturbations)
  }

  /** suggest_perturbation's proposal: gather the candidates for coefficient j and split them. */
  method SuggestSplit(w: Workspace, pts: seq<Point>, ghost ps: seq<Sample>, j: nat, measure: Measure, rng: Util.Oracle)
    returns (newval: real)
    requires w.Valid() && rng.Valid() && Snapshot(pts, ps) && SamplesWellFormed(ps, w.noOfDimensions, w.noOfCategories)
    requires j <= w.noOfDimensions && |pts| <= w.candidates.Length
    modifies w.candidates, w.leftCount, w.rightCount, rng`index
    ensures Proposed(w, SuggestCandidates(ps, j, w.coeffArray[j], |ps|), measure, rng.draws, old(rng.index), newval, rng.index)
  {
    var m: nat;
    if j == w.noOfDimensions {
      m := FillConstantCandidates(w.candidates, pts, ps, j, w.coeffArray[j]);
    } else {
      m := FillFeatureCandidates(w.candidates, pts, ps, j, w.coeffArray[j]);
    }
    SuggestCandidatesWithin(ps, j, w.coeffArray[j], |ps|, w.noOfDimensions, w.noOfCategories);
    newval := SplitCandidates(w, m, measure, rng, SuggestCandidates(ps, j, w.coeffArray[j], |ps|));
  }

  /** The recount of suggest_perturbation: the counts and impurity of the points once coefficient j moves by `change`. */
  method ShiftedImpurity(w: Workspace, pts: seq<Point>, ghost ps: seq<Sample>, j: nat, change: real, measure: Measure)
    returns (d: real)
    requires w.Valid() && Snapshot(pts, ps) && SamplesWellFormed(ps, w.noOfDimensions, w.noOfCategories)
    requires j <= w.noOfDimensions && |pts| <= w.tempVal.Length
    modifies w.tempVal, w.leftCount, w.rightCount
    ensures Recounted(w, ps, ShiftedValues(ps, j, change), true, measure, d)
  {
    ghost var cs, ts := SampleCats(ps), ShiftedValues(ps, j, change);
    ResetCounts(w);
    ShiftAndCount(w, pts, ps, j, change);
    SplitCountsAreTallies(cs, ts, |ps|, w.noOfCategories);
    SplitCountsTotal(cs, ts, |ps|, w.noOfCategories);
    d := ComputeImpurity(w, |pts|, measure);
  }

  /**
   * ps is the state of the points `before` once find_values has run: the
   * features and categories are those of before, and the cached values are
   * those of the hyperplane c when the hyperplane had changed (wasModified)
   * and untouched otherwise.
   */
  ghost predicate Refreshed(before: seq<Sample>, ps: seq<Sample>, wasModified: bool, c: seq<real>)
  {
    && |ps| == |before|
    && (forall i :: 0 <= i < |ps| ==> ps[i].x == before[i].x && ps[i].cat == before[i].cat)
    && (wasModified ==> SamplesMatch(ps, c))
    && (!wasModified ==> ps == before)
  }

  /**
   * The start of every perturbation: the modified hyperplane becomes a copy
   * of the current one and the cached values are refreshed; ps is the
   * points' state afterwards.
   */
  method Refresh(w: Workspace, pts: seq<Point>) returns (ghost ps: seq<Sample>)
    requires w.Valid() && Distinct(pts) && WellFormed(pts, w.noOfDimensions, w.noOfCategories)
    modifies w.modifiedCoeffArray, pts, w`coeffModified
    ensures w.modifiedCoeffArray[..] == w.coeffArray[..]
    ensures Snapshot(pts, ps) && SamplesWellFormed(ps, w.noOfDimensions, w.noOfCategories)
    ensures !w.coeffModified && Refreshed(old(Samples(pts)), ps, old(w.coeffModified), w.coeffArray[..])
  {
    CopyCoefficients(w);
    ps := CurrentValues(w, pts);
  }

  /** find_values, followed by a record ps of the points' state. */
  method CurrentValues(w: Workspace, pts: seq<Point>) returns (ghost ps: seq<Sample>)
    requires w.Valid() && Distinct(pts) && WellFormed(pts, w.noOfDimensions, w.noOfCategories)
    modifies pts, w`coeffModified
    ensures Snapshot(pts, ps) && SamplesWellFormed(ps, w.noOfDimensions, w.noOfCategories)
    ensures !w.coeffModified && Refreshed(old(Samples(pts)), ps, old(w.coeffModified), w.coeffArray[..])
  {
    FindValues(w, pts);
    ps := Samples(pts);
    SnapshotMeaning(pts, ps, w.coeffArray[..], w.noOfDimensions, w.noOfCategories);
  }

  /**
   * The outcome of suggest_perturbation for the proposal nv of impurity d,
   * given the counter's value `stagnant` before the call: a rejected move
   * returns curError and leaves the modified hyperplane and the counter
   * alone; an accepted one sets coefficient j to nv, and either counts one
   * more stagnant step (a tie within TOLERANCE, result curError) or resets
   * the counter (result d).
   */
  ghost predicate Decided(w: Workspace, j: nat, nv: real, curError: real, d: real, stagnant: int, err: real)
    reads w, w.modifiedCoeffArray, w.coeffArray
  {
    && (Rejects(curError, d, stagnant) ==>
         err == curError && w.modifiedCoeffArray[..] == w.coeffArray[..] && w.noOfStagnantPerturbations == stagnant)
    && (!Rejects(curError, d, stagnant) ==>
         j < w.coeffArray.Length && w.modifiedCoeffArray[..] == w.coeffArray[..][j := nv])
    && (!Rejects(curError, d, stagnant) && Util.MyAbs(curError - d) <= Tolerance ==>
         err == curError && w.noOfStagnantPerturbations == stagnant + 1)
    && (!Rejects(curError, d, stagnant) && Util.MyAbs(curError - d) > Tolerance ==>
         err == d && w.noOfStagnantPerturbations == 0)
  }

  /** suggest_perturbation's decision on the proposed value nv, whose impurity is d. */
  method Decide(w: Workspace, j: nat, nv: real, curError: real, d: real) returns (err: real)
    requires w.Valid() && j <= w.noOfDimensions
    requires w.modifiedCoeffArray[..] == w.coeffArray[..]
    modifies w.modifiedCoeffArray, w`noOfStagnantPerturbations
    ensures err <= curError
    ensures Decided(w, j, nv, curError, d, old(w.noOfStagnantPerturbations), err)
  {
    if curError < d || (Util.MyAbs(curError - d) <= Tolerance && w.noOfStagnantPerturbations > MaxNoOfStagnantPerturbations) {
      return curError;
    }
    w.modifiedCoeffArray[j] := nv;
    if Util.MyAbs(curError - d) <= Tolerance {
      w.noOfStagnantPerturbations := w.noOfStagnantPerturbations + 1;
      err := curError;
    } else {
      w.noOfStagnantPerturbations := 0;
      err := d;
    }
  }

  /** suggest_perturbation once the cached values are current: ps is the points' state. */
  method SuggestMove(w: Workspace, pts: seq<Point>, ghost ps: seq<Sample>, j: nat, curError: real, measure: Measure, rng: Util.Oracle)
    returns (err: real, ghost newval: real, ghost change: real, ghost d: real)
    requires w.Valid() && rng.Valid() && Snapshot(pts, ps) && SamplesWellFormed(ps, w.noOfDimensions, w.noOfCategories)
    requires j <= w.noOfDimensions && |pts| <= w.candidates.Length
    requires w.modifiedCoeffArray[..] == w.coeffArray[..]
    modifies w.modifiedCoeffArray, w.candidates, w.tempVal, w.leftCount, w.rightCount
    modifies w`noOfStagnantPerturbations, rng`index
    ensures Proposed(w, SuggestCandidates(ps, j, w.coeffArray[j], |ps|), measure, rng.draws, old(rng.index), newval, rng.index)
    ensures change == newval - w.coeffArray[j]
    ensures Recounted(w, ps, ShiftedValues(ps, j, change), true, measure, d)
    ensures err <= curError
    ensures Decided(w, j, newval, curError, d, old(w.noOfStagnantPerturbations), err)
  {
    var nv := SuggestSplit(w, pts, ps, j, measure, rng);
    newval := nv;
    var delta := nv - w.coeffArray[j];
    change := delta;
    var e := ShiftedImpurity(w, pts, ps, j, delta, measure);
    d := e;
    err := Decide(w, j, nv, curError, e);
  }

  /**
   * suggest_perturbation: linear_split proposes a new value for coefficient
   * j; the move is kept in modifiedCoeffArray unless Rejects holds, a tie
   * within TOLERANCE increments the stagnation counter and a real
   * improvement resets it and becomes the result. The result never exceeds
   * curError. ps is the points' state after the cached values are refreshed.
   */
  method SuggestPerturbation(w: Workspace, pts: seq<Point>, j: nat, curError: real, measure: Measure, rng: Util.Oracle)
    returns (err: real, ghost ps: seq<Sample>, ghost newval: real, ghost change: real, ghost d: real)
    requires w.Valid() && rng.Valid() && Distinct(pts) && WellFormed(pts, w.noOfDimensions, w.noOfCategories)
    requires j <= w.noOfDimensions && |pts| <= w.candidates.Length
    modifies w.modifiedCoeffArray, w.candidates, w.tempVal, w.leftCount, w.rightCount, pts
    modifies w`coeffModified, w`noOfStagnantPerturbations, rng`index
    ensures Snapshot(pts, ps) && SamplesWellFormed(ps, w.noOfDimensions, w.noOfCategories)
    ensures !w.coeffModified && Refreshed(old(Samples(pts)), ps, old(w.coeffModified), w.coeffArray[..])
    ensures Proposed(w, SuggestCandidates(ps, j, w.coeffArray[j], |ps|), measure, rng.draws, old(rng.index), newval, rng.index)
    ensures change == newval - w.coeffArray[j]
    ensures Recounted(w, ps, ShiftedValues(ps, j, change), true, measure, d)
    ensures err <= curError
    ensures Decided(w, j, newval, curError, d, old(w.noOfStagnantPerturbations), err)
  {
    ps := Refresh(w, pts);
    err, newval, change, d := SuggestMove(w, pts, ps, j, curError, measure, rng);
  }

  // ----- perturb_randomly -----

  /** Every sample has one feature fewer than the hyperplane r has coefficients. */
  predicate FitsPlane(ps: seq<Sample>, r: seq<real>)
  {
    forall i :: 0 <= i < |ps| ==> |ps[i].x| + 1 == |r|
  }

  /**
   * The candidates perturb_randomly offers linear_split for the direction r:
   * each of the first n points at which r's value t is non-zero proposes the
   * step -(val / t) along r that puts it on the moved hyperplane
   * (RandomStepZeroes).
   */
  function RandomCandidates(ps: seq<Sample>, r: seq<real>, n: nat): (s: seq<Unidim>)
    requires n <= |ps| && FitsPlane(ps, r)
    ensures |s| <= n
  {
    if n == 0 then []
    else
      var t := HyperplaneValue(r, ps[n - 1].x);
      RandomCandidates(ps, r, n - 1) +
        (if t != 0.0 then [Unidim(-1.0 * (ps[n - 1].val / t), ps[n - 1].cat)] else [])
  }

  lemma {:induction false} RandomCandidatesWithin(ps: seq<Sample>, r: seq<real>, n: nat, d: nat, k: nat)
    requires n <= |ps| && FitsPlane(ps, r) && SamplesWellFormed(ps, d, k)
    ensures CatsWithin(RandomCandidates(ps, r, n), k)
  {
    if n > 0 { RandomCandidatesWithin(ps, r, n - 1, d, k); }
  }

  /** There are no candidates exactly when r's value is 0 at each of the first n points. */
  lemma {:induction false} NoRandomCandidates(ps: seq<Sample>, r: seq<real>, n: nat)
    requires n <= |ps| && FitsPlane(ps, r)
    ensures RandomCandidates(ps, r, n) == [] <==> forall i :: 0 <= i < n ==> HyperplaneValue(r, ps[i].x) == 0.0
  {
    if n > 0 { NoRandomCandidates(ps, r, n - 1); }
  }

  /**
   * What a candidate means: for a point whose value v is that of the
   * hyperplane c, where the direction r has the non-zero value t, moving c
   * by -(v / t) along r puts the point on the hyperplane.
   */
  lemma RandomStepZeroes(c: seq<real>, r: seq<real>, x: seq<real>)
    requires |c| == |x| + 1 && |r| == |c| && HyperplaneValue(r, x) != 0.0
    ensures HyperplaneValue(Moved(c, r, -1.0 * (HyperplaneValue(c, x) / HyperplaneValue(r, x))), x) == 0.0
  {
    var v, t := HyperplaneValue(c, x), HyperplaneValue(r, x);
    HyperplaneLinear(c, r, -1.0 * (v / t), x);
    assert t * (-1.0 * (v / t)) == -v;
  }

  /** The value of the hyperplane held in rv at the point x, accumulated as perturb_randomly does. */
  method DirectionValue(rv: array<real>, ghost r: seq<real>, x: seq<real>) returns (t: real)
    requires rv[..] == r && |r| == |x| + 1
    ensures t == HyperplaneValue(r, x)
  {
    var d := |x|;
    t := rv[d];
    for j := 0 to d
      invariant t == r[d] + Dot(r, x, j)
    {
      t := t + rv[j] * x[j];
    }
  }

  /** One round of the first loop of perturb_randomly: point i gets its value on rv and, when it is non-zero, a candidate. */
  method ProposeRandom(a: array<Unidim>, tv: array<real>, pts: seq<Point>, ghost ps: seq<Sample>,
                       rv: array<real>, ghost r: seq<real>, i: nat, m: nat) returns (m': nat)
    requires i < |pts| <= a.Length && |pts| <= tv.Length && Snapshot(pts, ps)
    requires rv[..] == r && FitsPlane(ps, r) && rv != tv
    requires m <= i && a[..m] == RandomCandidates(ps, r, i)
    modifies tv, a
    ensures m' <= i + 1 && a[..m'] == RandomCandidates(ps, r, i + 1)
    ensures tv[i] == HyperplaneValue(r, ps[i].x)
    ensures forall p :: 0 <= p < tv.Length && p != i ==> tv[p] == old(tv[p])
  {
    var t := DirectionValue(rv, r, pts[i].dimension);
    tv[i] := t;
    m' := m;
    if t != 0.0 {
      a[m] := Unidim(-1.0 * (pts[i].val / t), pts[i].category);
      m' := m + 1;
    }
  }

  /**
   * The first loop of perturb_randomly: temp_val gets the value of the
   * random hyperplane rv at every point, and each point where it is
   * non-zero adds a candidate.
   */
  method FillRandomCandidates(a: array<Unidim>, tv: array<real>, pts: seq<Point>, ghost ps: seq<Sample>,
                              rv: array<real>, ghost r: seq<real>) returns (m: nat)
    requires |pts| <= a.Length && |pts| <= tv.Length && Snapshot(pts, ps)
    requires rv[..] == r && FitsPlane(ps, r) && rv != tv
    modifies tv, a
    ensures m <= |pts|
    ensures tv[..|pts|] == PlaneValues(ps, r)
    ensures a[..m] == RandomCandidates(ps, r, |ps|)
  {
    ghost var ts := PlaneValues(ps, r);
    m := 0;
    for i := 0 to |pts|
      invariant m <= i
      invariant rv[..] == r
      invariant forall p :: 0 <= p < i ==> tv[p] == ts[p]
      invariant a[..m] == RandomCandidates(ps, r, i)
    {
      m := ProposeRandom(a, tv, pts, ps, rv, r, i, m);
    }
  }

  /** Every point's value after the hyperplane moves alpha times along a direction whose values are ts. */
  function ScaledValues(ps: seq<Sample>, ts: seq<real>, alpha: real): (r: seq<real>)
    requires |ts| == |ps|
    ensures |r| == |ps|
    ensures forall i :: 0 <= i < |ps| ==> r[i] == ts[i] * alpha + ps[i].val
  {
    seq(|ps|, i requires 0 <= i < |ps| => ts[i] * alpha + ps[i].val)
  }

  /** With current cached values, the scaled values are those of the hyperplane moved alpha times along r. */
  lemma MovedIsHyperplane(ps: seq<Sample>, c: seq<real>, r: seq<real>, alpha: real)
    requires SamplesMatch(ps, c) && |r| == |c|
    ensures FitsPlane(ps, r)
    ensures ScaledValues(ps, PlaneValues(ps, r), alpha) == PlaneValues(ps, Moved(c, r, alpha))
  {
    var scaled, plane := ScaledValues(ps, PlaneValues(ps, r), alpha), PlaneValues(ps, Moved(c, r, alpha));
    forall i | 0 <= i < |ps|
      ensures scaled[i] == plane[i]
    {
      HyperplaneLinear(c, r, alpha, ps[i].x);
    }
  }

  /** One round of the counting loop of perturb_randomly, for point i. */
  method ScaleStep(tv: array<real>, left: array<int>, right: array<int>, pts: seq<Point>, ghost ps: seq<Sample>,
                   alpha: real, ghost ts: seq<real>, i: nat, k: nat)
    requires Snapshot(pts, ps) && i < |pts| <= tv.Length && |ts| == |pts| && 1 <= ps[i].cat <= k
    requires left.Length == k && right.Length == k && left != right
    requires tv[i] == ts[i]
    requires left[..] == SplitCounts(SampleCats(ps), ScaledValues(ps, ts, alpha), i, k).0
    requires right[..] == SplitCounts(SampleCats(ps), ScaledValues(ps, ts, alpha), i, k).1
    modifies tv, left, right
    ensures tv[i] == ScaledValues(ps, ts, alpha)[i]
    ensures forall p :: 0 <= p < tv.Length && p != i ==> tv[p] == old(tv[p])
    ensures left[..] == SplitCounts(SampleCats(ps), ScaledValues(ps, ts, alpha), i + 1, k).0
    ensures right[..] == SplitCounts(SampleCats(ps), ScaledValues(ps, ts, alpha), i + 1, k).1
  {
    tv[i] := tv[i] * alpha;
    tv[i] := tv[i] + pts[i].val;
    CountPoint(left, right, SampleCats(ps), ScaledValues(ps, ts, alpha), i, k, pts[i].category, tv[i]);
  }

  /** The counting loop of perturb_randomly: temp_val is scaled by alpha and shifted by each point's value, and counted by sign. */
  method ScaleAndCount(w: Workspace, pts: seq<Point>, ghost ps: seq<Sample>, alpha: real, ghost ts: seq<real>)
    requires w.Valid() && Snapshot(pts, ps) && SamplesWellFormed(ps, w.noOfDimensions, w.noOfCategories)
    requires |pts| <= w.tempVal.Length && |ts| == |pts| && w.tempVal[..|pts|] == ts
    requires w.leftCount[..] == seq(w.noOfCategories, _ => 0)
    requires w.rightCount[..] == seq(w.noOfCategories, _ => 0)
    modifies w.tempVal, w.leftCount, w.rightCount
    ensures w.tempVal[..|pts|] == ScaledValues(ps, ts, alpha)
    ensures w.leftCount[..] == SplitCounts(SampleCats(ps), ScaledValues(ps, ts, alpha), |pts|, w.noOfCategories).0
    ensures w.rightCount[..] == SplitCounts(SampleCats(ps), ScaledValues(ps, ts, alpha), |pts|, w.noOfCategories).1
  {
    var k, tv, left, right := w.noOfCategories, w.tempVal, w.leftCount, w.rightCount;
    ghost var vs := ScaledValues(ps, ts, alpha);
    for i := 0 to |pts|
      invariant forall p :: 0 <= p < i ==> tv[p] == vs[p]
      invariant forall p :: i <= p < |pts| ==> tv[p] == ts[p]
      invariant left[..] == SplitCounts(SampleCats(ps), vs, i, k).0
      invariant right[..] == SplitCounts(SampleCats(ps), vs, i, k).1
    {
      ScaleStep(tv, left, right, pts, ps, alpha, ts, i, k);
    }
  }

  /** The recount of perturb_randomly: the counts and impurity once the hyperplane moves alpha times along the direction whose values are ts. */
  method ScaledImpurity(w: Workspace, pts: seq<Point>, ghost ps: seq<Sample>, alpha: real, ghost ts: seq<real>, measure: Measure)
    returns (d: real)
    requires w.Valid() && Snapshot(pts, ps) && SamplesWellFormed(ps, w.noOfDimensions, w.noOfCategories)
    requires |pts| <= w.tempVal.Length && |ts| == |pts| && w.tempVal[..|pts|] == ts
    modifies w.tempVal, w.leftCount, w.rightCount
    ensures Recounted(w, ps, ScaledValues(ps, ts, alpha), true, measure, d)
  {
    ghost var cs, vs := SampleCats(ps), ScaledValues(ps, ts, alpha);
    ResetCounts(w);
    ScaleAndCount(w, pts, ps, alpha, ts);
    SplitCountsAreTallies(cs, vs, |ps|, w.noOfCategories);
    SplitCountsTotal(cs, vs, |ps|, w.noOfCategories);
    d := ComputeImpurity(w, |pts|, measure);
  }

  /**
   * The outcome of perturb_randomly for a step alpha along r of impurity d,
   * given the counter's value `stagnant` before the call: a strictly better
   * impurity moves the modified hyperplane alpha times along r, resets the
   * counter and is the result; otherwise nothing changes and the result is
   * curError.
   */
  ghost predicate RandomDecided(w: Workspace, r: seq<real>, alpha: real, curError: real, d: real, stagnant: int, err: real)
    reads w, w.modifiedCoeffArray, w.coeffArray
  {
    && (curError > d ==>
         |r| == w.coeffArray.Length && w.modifiedCoeffArray[..] == Moved(w.coeffArray[..], r, alpha)
         && err == d && w.noOfStagnantPerturbations == 0)
    && (curError <= d ==>
         w.modifiedCoeffArray[..] == w.coeffArray[..] && err == curError && w.noOfStagnantPerturbations == stagnant)
  }

  /** The last step of perturb_randomly: keep the move alpha·rv when it strictly improves on curError. */
  method RandomDecide(w: Workspace, rv: array<real>, alpha: real, curError: real, d: real) returns (err: real)
    requires w.Valid() && rv.Length == w.noOfDimensions + 1 && rv != w.modifiedCoeffArray
    requires w.modifiedCoeffArray[..] == w.coeffArray[..]
    modifies w.modifiedCoeffArray, w`noOfStagnantPerturbations
    ensures err <= curError
    ensures RandomDecided(w, rv[..], alpha, curError, d, old(w.noOfStagnantPerturbations), err)
  {
    err := curError;
    if curError > d {
      w.noOfStagnantPerturbations := 0;
      var mc := w.modifiedCoeffArray;
      for i := 0 to mc.Length
        modifies mc
        invariant forall p :: 0 <= p < i ==> mc[p] == w.coeffArray[p] + rv[p] * alpha
        invariant forall p :: i <= p < mc.Length ==> mc[p] == w.coeffArray[p]
      {
        mc[i] := mc[i] + rv[i] * alpha;
      }
      ghost var moved := Moved(w.coeffArray[..], rv[..], alpha);
      assert |moved| == mc.Length;
      assert forall p :: 0 <= p < mc.Length ==> moved[p] == w.coeffArray[p] + rv[p] * alpha;
      assert mc[..] == moved;
      err := d;
    }
  }

  /**
   * The outcome of perturb_randomly for the direction r, once the cached
   * values are current (ps), linear_split drawing from `index` on and the
   * counter and counts starting as stagnant, left0 and right0: with no
   * candidate the result is 0 (the source's FALSE) and nothing else
   * changes; otherwise linear_split picks the step alpha, the points are
   * recounted at their moved values, and RandomDecided holds.
   */
  ghost predicate RandomOutcome(w: Workspace, ps: seq<Sample>, r: seq<real>, measure: Measure, draws: nat -> real,
                                index: nat, index': nat, curError: real, stagnant: int, left0: seq<int>, right0: seq<int>,
                                alpha: real, d: real, err: real)
    reads w, w.modifiedCoeffArray, w.coeffArray, w.candidates, w.tempVal, w.leftCount, w.rightCount
  {
    && FitsPlane(ps, r)
    && (RandomCandidates(ps, r, |ps|) == [] ==>
         && err == 0.0 && w.modifiedCoeffArray[..] == w.coeffArray[..]
         && w.noOfStagnantPerturbations == stagnant && index' == index
         && w.leftCount[..] == left0 && w.rightCount[..] == right0)
    && (RandomCandidates(ps, r, |ps|) != [] ==>
         && Proposed(w, RandomCandidates(ps, r, |ps|), measure, draws, index, alpha, index')
         && Recounted(w, ps, ScaledValues(ps, PlaneValues(ps, r), alpha), true, measure, d)
         && err <= curError
         && RandomDecided(w, r, alpha, curError, d, stagnant, err))
  }

  /** perturb_randomly's proposal: evaluate the direction at every point, gather the candidates and, when there are any, split them. */
  method RandomSplit(w: Workspace, pts: seq<Point>, ghost ps: seq<Sample>, rv: array<real>, ghost r: seq<real>,
                     measure: Measure, rng: Util.Oracle)
    returns (found: bool, alpha: real)
    requires w.Valid() && rng.Valid() && Snapshot(pts, ps) && SamplesWellFormed(ps, w.noOfDimensions, w.noOfCategories)
    requires |pts| <= w.candidates.Length && rv.Length == w.noOfDimensions + 1 && rv[..] == r && rv != w.tempVal
    modifies w.candidates, w.tempVal, w.leftCount, w.rightCount, rng`index
    ensures FitsPlane(ps, r) && w.tempVal[..|pts|] == PlaneValues(ps, r)
    ensures found <==> RandomCandidates(ps, r, |ps|) != []
    ensures !found ==> rng.index == old(rng.index) && w.leftCount[..] == old(w.leftCount[..]) && w.rightCount[..] == old(w.rightCount[..])
    ensures found ==> Proposed(w, RandomCandidates(ps, r, |ps|), measure, rng.draws, old(rng.index), alpha, rng.index)
  {
    ghost var s := RandomCandidates(ps, r, |ps|);
    var m := FillRandomCandidates(w.candidates, w.tempVal, pts, ps, rv, r);
    if m == 0 {
      return false, 0.0;
    }
    RandomCandidatesWithin(ps, r, |ps|, w.noOfDimensions, w.noOfCategories);
    found := true;
    alpha := SplitCandidates(w, m, measure, rng, s);
  }

  /** perturb_randomly once the random direction rv is drawn and the cached values are current (ps). */
  method RandomMove(w: Workspace, pts: seq<Point>, ghost ps: seq<Sample>, rv: array<real>, ghost r: seq<real>,
                    curError: real, measure: Measure, rng: Util.Oracle)
    returns (err: real, ghost alpha: real, ghost d: real)
    requires w.Valid() && rng.Valid() && Snapshot(pts, ps) && SamplesWellFormed(ps, w.noOfDimensions, w.noOfCategories)
    requires |pts| <= w.candidates.Length && rv.Length == w.noOfDimensions + 1 && rv[..] == r
    requires rv != w.tempVal && rv != w.modifiedCoeffArray
    requires w.modifiedCoeffArray[..] == w.coeffArray[..]
    modifies w.modifiedCoeffArray, w.candidates, w.tempVal, w.leftCount, w.rightCount
    modifies w`noOfStagnantPerturbations, rng`index
    ensures RandomOutcome(w, ps, r, measure, rng.draws, old(rng.index), rng.index, curError,
                          old(w.noOfStagnantPerturbations), old(w.leftCount[..]), old(w.rightCount[..]), alpha, d, err)
  {
    var found, a := RandomSplit(w, pts, ps, rv, r, measure, rng);
    if !found {
      return 0.0, 0.0, 0.0;
    }
    alpha := a;
    var e := ScaledImpurity(w, pts, ps, a, PlaneValues(ps, r), measure);
    d := e;
    err := RandomDecide(w, rv, a, curError, e);
  }

  /** The random direction of perturb_randomly: D+1 successive draws of myrandom(-MAX_COEFFICIENT, MAX_COEFFICIENT). */
  ghost predicate RandomDirection(r: seq<real>, d: nat, draws: nat -> real, index: nat)
  {
    |r| == d + 1 &&
    forall i :: 0 <= i <= d ==>
      0.0 <= draws(index + i) < 1.0 && r[i] == Util.MyRandom(-1.0 * MaxCoefficient, MaxCoefficient, draws(index + i))
  }

  /** The start of perturb_randomly: copy the hyperplane into modifiedCoeffArray and draw the random direction rv. */
  method RandomStart(w: Workspace, rng: Util.Oracle) returns (rv: array<real>, ghost r: seq<real>)
    requires w.Valid() && rng.Valid()
    modifies w.modifiedCoeffArray, rng`index
    ensures fresh(rv) && rv.Length == w.noOfDimensions + 1 && rv[..] == r
    ensures w.modifiedCoeffArray[..] == w.coeffArray[..]
    ensures RandomDirection(r, w.noOfDimensions, rng.draws, old(rng.index))
    ensures rng.index == old(rng.index) + w.noOfDimensions + 1
  {
    CopyCoefficients(w);
    rv := new real[w.noOfDimensions + 1];
    Util.GenerateRandomHyperplane(rv, w.noOfDimensions + 1, MaxCoefficient, rng);
    r := rv[..];
  }

  /** perturb_randomly once the random direction rv is drawn: refresh the cached values (ps), then RandomMove. */
  method RandomFromValues(w: Workspace, pts: seq<Point>, rv: array<real>, ghost r: seq<real>,
                          curError: real, measure: Measure, rng: Util.Oracle)
    returns (ghost ps: seq<Sample>, err: real, ghost alpha: real, ghost d: real,
             ghost before: seq<Sample>, ghost index0: nat, ghost stagnant: int, ghost left0: seq<int>, ghost right0: seq<int>)
    requires w.Valid() && rng.Valid() && Distinct(pts) && WellFormed(pts, w.noOfDimensions, w.noOfCategories)
    requires |pts| <= w.candidates.Length && rv.Length == w.noOfDimensions + 1 && rv[..] == r
    requires rv != w.tempVal && rv != w.modifiedCoeffArray
    requires w.modifiedCoeffArray[..] == w.coeffArray[..]
    modifies w.modifiedCoeffArray, w.candidates, w.tempVal, w.leftCount, w.rightCount, pts
    modifies w`coeffModified, w`noOfStagnantPerturbations, rng`index
    ensures before == old(Samples(pts)) && index0 == old(rng.index) && stagnant == old(w.noOfStagnantPerturbations)
    ensures left0 == old(w.leftCount[..]) && right0 == old(w.rightCount[..])
    ensures Snapshot(pts, ps) && SamplesWellFormed(ps, w.noOfDimensions, w.noOfCategories)
    ensures !w.coeffModified && Refreshed(before, ps, old(w.coeffModified), w.coeffArray[..])
    ensures RandomOutcome(w, ps, r, measure, rng.draws, index0, rng.index, curError, stagnant, left0, right0, alpha, d, err)
  {
    before, index0, stagnant, left0, right0 := Samples(pts), rng.index, w.noOfStagnantPerturbations, w.leftCount[..], w.rightCount[..];
    ps := CurrentValues(w, pts);
    err, alpha, d := RandomMove(w, pts, ps, rv, r, curError, measure, rng);
  }

  /**
   * perturb_randomly: draw a random direction r, let linear_split choose the
   * step alpha along it, and keep the moved hyperplane in modifiedCoeffArray
   * (resetting the stagnation counter) only when it is strictly better than
   * curError. With no effective point the result is 0 and the modified
   * hyperplane stays a copy of the current one. ps is the points' state after
   * the cached values are refreshed.
   */
  method PerturbRandomly(w: Workspace, pts: seq<Point>, curError: real, measure: Measure, rng: Util.Oracle)
    returns (err: real, ghost before: seq<Sample>, ghost ps: seq<Sample>, ghost r: seq<real>, ghost start: nat,
             ghost first: nat, ghost stagnant: int, ghost left0: seq<int>, ghost right0: seq<int>, ghost alpha: real, ghost d: real)
    requires w.Valid() && rng.Valid() && Distinct(pts) && WellFormed(pts, w.noOfDimensions, w.noOfCategories)
    requires |pts| <= w.candidates.Length
    modifies w.modifiedCoeffArray, w.candidates, w.tempVal, w.leftCount, w.rightCount, pts
    modifies w`coeffModified, w`noOfStagnantPerturbations, rng`index
    ensures before == old(Samples(pts)) && stagnant == old(w.noOfStagnantPerturbations) && first == old(rng.index)
    ensures left0 == old(w.leftCount[..]) && right0 == old(w.rightCount[..])
    ensures Snapshot(pts, ps) && SamplesWellFormed(ps, w.noOfDimensions, w.noOfCategories)
    ensures !w.coeffModified && Refreshed(before, ps, old(w.coeffModified), w.coeffArray[..])
    ensures RandomDirection(r, w.noOfDimensions, rng.draws, first) && start == first + w.noOfDimensions + 1
    ensures RandomOutcome(w, ps, r, measure, rng.draws, start, rng.index, curError, stagnant, left0, right0, alpha, d, err)
  {
    before, stagnant, first := Samples(pts), w.noOfStagnantPerturbations, rng.index;
    left0, right0 := w.leftCount[..], w.rightCount[..];
    var rv;
    rv, r := RandomStart(w, rng);
    start := rng.index;
    ghost var before1, index1, stagnant1, left1, right1;
    ps, err, alpha, d, before1, index1, stagnant1, left1, right1 := RandomFromValues(w, pts, rv, r, curError, measure, rng);
  }
}
