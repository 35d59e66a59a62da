/**
 * The CART-style perturbations of perturb.c: cart_perturb, which moves one
 * feature coefficient together with the constant term along the lines
 * chosen by the parameter gamma, and cart_perturb_constant, which moves
 * the constant term alone. Both pick the step with linear_split and leave
 * the outcome in the modified hyperplane for their caller to judge.
 */
module Cart {
  import opened Oc1
  import opened Counts
  import opened Perturb
  import Util

  // ----- cart_perturb -----

  /**
   * The value of gamma in round t of cart_perturb's loop: -0.25, 0 and
   * 0.25, and 0.5 once the loop is over (all exact in binary floating point).
   */
  function Gamma(t: nat): real
  {
    if t == 0 then -0.25 else if t == 1 then 0.0 else if t == 2 then 0.25 else 0.5
  }

  /**
   * The candidates cart_perturb offers linear_split for coefficient j and
   * the value g of gamma: each of the first n points whose coordinate j
   * plus g is non-zero proposes the step val / (x_j + g) that puts it on
   * the moved hyperplane (CartCandidateZeroes).
   */
  function CartCandidates(ps: seq<Sample>, j: nat, g: real, n: nat): (s: seq<Unidim>)
    requires n <= |ps|
    ensures |s| <= n
  {
    if n == 0 then []
    else
      var z := Coordinate(ps[n - 1].x, j) + g;
      CartCandidates(ps, j, g, n - 1) + (if z != 0.0 then [Unidim(ps[n - 1].val / z, ps[n - 1].cat)] else [])
  }

  lemma {:induction false} CartCandidatesWithin(ps: seq<Sample>, j: nat, g: real, n: nat, d: nat, k: nat)
    requires n <= |ps| && SamplesWellFormed(ps, d, k)
    ensures CatsWithin(CartCandidates(ps, j, g, n), k)
  {
    if n > 0 { CartCandidatesWithin(ps, j, g, n - 1, d, k); }
  }

  /** There are no candidates exactly when coordinate j plus g is 0 at each of the first n points. */
  lemma {:induction false} NoCartCandidates(ps: seq<Sample>, j: nat, g: real, n: nat)
    requires n <= |ps|
    ensures CartCandidates(ps, j, g, n) == [] <==> forall i :: 0 <= i < n ==> Coordinate(ps[i].x, j) + g == 0.0
  {
    if n > 0 { NoCartCandidates(ps, j, g, n - 1); }
  }

  /**
   * Every point's value once coefficient j drops by lambda and the constant
   * term by lambda times g.
   */
  function CartValues(ps: seq<Sample>, j: nat, g: real, lambda: real): (r: seq<real>)
    ensures |r| == |ps|
    ensures forall i :: 0 <= i < |ps| ==> r[i] == ps[i].val - lambda * (Coordinate(ps[i].x, j) + g)
  {
    seq(|ps|, i requires 0 <= i < |ps| => ps[i].val - lambda * (Coordinate(ps[i].x, j) + g))
  }

  /** The hyperplane cart_perturb proposes: coefficient j less lambda, the constant term less lambda times g. */
  function CartMoved(c: seq<real>, j: nat, g: real, lambda: real): (m: seq<real>)
    requires j < |c|
    ensures |m| == |c|
  {
    var c1 := c[j := c[j] - lambda];
    c1[|c| - 1 := c1[|c| - 1] - lambda * g]
  }

  /** With current cached values, the values cart_perturb counts are those of the moved hyperplane. */
  lemma CartIsHyperplane(ps: seq<Sample>, c: seq<real>, j: nat, g: real, lambda: real)
    requires SamplesMatch(ps, c) && j + 1 < |c|
    ensures CartValues(ps, j, g, lambda) == PlaneValues(ps, CartMoved(c, j, g, lambda))
  {
    var vals, plane := CartValues(ps, j, g, lambda), PlaneValues(ps, CartMoved(c, j, g, lambda));
    forall i | 0 <= i < |ps|
      ensures vals[i] == plane[i]
    {
      CartPointMoves(c, ps[i].x, j, g, lambda);
    }
  }

  /** At one point x: the moved hyperplane's value is the old one less lambda times (x_j + g). */
  lemma CartPointMoves(c: seq<real>, x: seq<real>, j: nat, g: real, lambda: real)
    requires |c| == |x| + 1 && j < |x|
    ensures HyperplaneValue(CartMoved(c, j, g, lambda), x) == HyperplaneValue(c, x) - lambda * (x[j] + g)
  {
    var c1 := c[j := c[j] - lambda];
    HyperplaneUpdate(c, x, j, c[j] - lambda);
    HyperplaneUpdate(c1, x, |x|, c1[|x|] - lambda * g);
  }

  /**
   * What a candidate means: for a point whose value v is that of the
   * hyperplane c and whose coordinate j plus g is non-zero, the step
   * v / (x_j + g) puts the point on the moved hyperplane.
   */
  lemma CartCandidateZeroes(c: seq<real>, x: seq<real>, j: nat, g: real)
    requires |c| == |x| + 1 && j < |x| && x[j] + g != 0.0
    ensures HyperplaneValue(CartMoved(c, j, g, HyperplaneValue(c, x) / (x[j] + g)), x) == 0.0
  {
    var v, z := HyperplaneValue(c, x), x[j] + g;
    CartPointMoves(c, x, j, g, v / z);
    assert v / z * z == v;
  }

  /** The first loop of a cart_perturb round: fill the candidate buffer for coefficient j and gamma g. */
  method FillCartCandidates(a: array<Unidim>, pts: seq<Point>, ghost ps: seq<Sample>, j: nat, g: real) returns (m: nat)
    requires |pts| <= a.Length && Snapshot(pts, ps)
    requires forall i :: 0 <= i < |pts| ==> j < |pts[i].dimension|
    modifies a
    ensures m <= |pts|
    ensures a[..m] == CartCandidates(ps, j, g, |pts|)
  {
    m := 0;
    for i := 0 to |pts|
      invariant m <= i
      invariant a[..m] == CartCandidates(ps, j, g, i)
    {
      var z := pts[i].dimension[j] + g;
      if z != 0.0 {
        a[m] := Unidim(pts[i].val / z, pts[i].category);
        m := m + 1;
      }
    }
  }

  /** One round of the counting loop of cart_perturb, for point i. */
  method CartStep(left: array<int>, right: array<int>, pts: seq<Point>, ghost ps: seq<Sample>,
                  j: nat, g: real, lambda: real, i: nat, k: nat)
    requires Snapshot(pts, ps) && i < |pts| && 1 <= ps[i].cat <= k && j < |ps[i].x|
    requires left.Length == k && right.Length == k && left != right
    requires left[..] == SplitCounts(SampleCats(ps), CartValues(ps, j, g, lambda), i, k).0
    requires right[..] == SplitCounts(SampleCats(ps), CartValues(ps, j, g, lambda), i, k).1
    modifies left, right
    ensures left[..] == SplitCounts(SampleCats(ps), CartValues(ps, j, g, lambda), i + 1, k).0
    ensures right[..] == SplitCounts(SampleCats(ps), CartValues(ps, j, g, lambda), i + 1, k).1
  {
    var v := pts[i].val - lambda * (pts[i].dimension[j] + g);
    CountPoint(left, right, SampleCats(ps), CartValues(ps, j, g, lambda), i, k, pts[i].category, v);
  }

  /** The counting loop of cart_perturb: each point counts left exactly when its moved value is negative. */
  method CartCount(w: Workspace, pts: seq<Point>, ghost ps: seq<Sample>, j: nat, g: real, lambda: real)
    requires w.Valid() && Snapshot(pts, ps) && SamplesWellFormed(ps, w.noOfDimensions, w.noOfCategories)
    requires j < w.noOfDimensions
    requires w.leftCount[..] == seq(w.noOfCategories, _ => 0)
    requires w.rightCount[..] == seq(w.noOfCategories, _ => 0)
    modifies w.leftCount, w.rightCount
    ensures w.leftCount[..] == SplitCounts(SampleCats(ps), CartValues(ps, j, g, lambda), |pts|, w.noOfCategories).0
    ensures w.rightCount[..] == SplitCounts(SampleCats(ps), CartValues(ps, j, g, lambda), |pts|, w.noOfCategories).1
  {
    var k, left, right := w.noOfCategories, w.leftCount, w.rightCount;
    ghost var cs, vs := SampleCats(ps), CartValues(ps, j, g, lambda);
    for i := 0 to |pts|
      invariant left[..] == SplitCounts(cs, vs, i, k).0
      invariant right[..] == SplitCounts(cs, vs, i, k).1
    {
      CartStep(left, right, pts, ps, j, g, lambda, i, k);
    }
  }

  /** The recount of a cart_perturb round: the counts and impurity of the points at their moved values. */
  method CartImpurity(w: Workspace, pts: seq<Point>, ghost ps: seq<Sample>, j: nat, g: real, lambda: real, measure: Measure)
    returns (d: real)
    requires w.Valid() && Snapshot(pts, ps) && SamplesWellFormed(ps, w.noOfDimensions, w.noOfCategories)
    requires j < w.noOfDimensions
    modifies w.leftCount, w.rightCount
    ensures Recounted(w, ps, CartValues(ps, j, g, lambda), false, measure, d)
  {
    ghost var cs, vs := SampleCats(ps), CartValues(ps, j, g, lambda);
    ResetCounts(w);
    CartCount(w, pts, ps, j, g, lambda);
    SplitCountsAreTallies(cs, vs, |ps|, w.noOfCategories);
    SplitCountsTotal(cs, vs, |ps|, w.noOfCategories);
    d := ComputeImpurity(w, |pts|, measure);
  }

  /**
   * Round u of cart_perturb, as it stands once the round is over: the
   * buffer buf holds linear_split's outcome lambda on the candidates for
   * gamma = Gamma(u), drawing from index to index', and imp is the
   * impurity of the points at their values moved by lambda.
   */
  ghost predicate CartTried(buf: seq<Unidim>, ps: seq<Sample>, j: nat, k: nat, measure: Measure, draws: nat -> real,
                            u: nat, index: nat, index': nat, lambda: real, imp: real)
  {
    && SplitOf(buf, CartCandidates(ps, j, Gamma(u), |ps|), k, measure, draws, index, lambda, index')
    && imp == Impurity(Tally(LeftCats(SampleCats(ps), CartValues(ps, j, Gamma(u), lambda), |ps|), k),
                       Tally(RightCats(SampleCats(ps), CartValues(ps, j, Gamma(u), lambda), |ps|), k), |ps|, measure)
  }

  /** One round of cart_perturb for gamma g: gather the candidates, split them, and recount. */
  method CartTry(w: Workspace, pts: seq<Point>, ghost ps: seq<Sample>, j: nat, g: real, measure: Measure, rng: Util.Oracle)
    returns (lambda: real, d: real)
    requires w.Valid() && rng.Valid() && Snapshot(pts, ps) && SamplesWellFormed(ps, w.noOfDimensions, w.noOfCategories)
    requires j < w.noOfDimensions && |pts| <= w.candidates.Length
    modifies w.candidates, w.leftCount, w.rightCount, rng`index
    ensures Proposed(w, CartCandidates(ps, j, g, |ps|), measure, rng.draws, old(rng.index), lambda, rng.index)
    ensures Recounted(w, ps, CartValues(ps, j, g, lambda), false, measure, d)
  {
    ghost var s := CartCandidates(ps, j, g, |ps|);
    var m := FillCartCandidates(w.candidates, pts, ps, j, g);
    CartCandidatesWithin(ps, j, g, |ps|, w.noOfDimensions, w.noOfCategories);
    lambda := SplitCandidates(w, m, measure, rng, s);
    d := CartImpurity(w, pts, ps, j, g, lambda, measure);
  }

  /** The position of the first smallest of the first n impurities. */
  function FirstMinTo(ds: seq<real>, n: nat): (b: nat)
    requires 1 <= n <= |ds|
    ensures b < n
  {
    if n == 1 then 0
    else
      var b := FirstMinTo(ds, n - 1);
      if ds[b] > ds[n - 1] then n - 1 else b
  }

  /** FirstMinTo is a minimum, and every earlier position is strictly worse. */
  lemma {:induction false} FirstMinIsFirstMinimum(ds: seq<real>, n: nat)
    requires 1 <= n <= |ds|
    ensures forall i :: 0 <= i < n ==> ds[FirstMinTo(ds, n)] <= ds[i]
    ensures forall i :: 0 <= i < FirstMinTo(ds, n) ==> ds[i] > ds[FirstMinTo(ds, n)]
  {
    if n > 1 { FirstMinIsFirstMinimum(ds, n - 1); }
  }

  /** Appending one impurity: the first minimum moves to it exactly when it is strictly lower. */
  lemma {:induction false} FirstMinExtend(ds: seq<real>, x: real)
    requires 1 <= |ds|
    ensures FirstMinTo(ds + [x], |ds| + 1) == if ds[FirstMinTo(ds, |ds|)] > x then |ds| else FirstMinTo(ds, |ds|)
  {
    FirstMinPrefix(ds, [x], |ds|);
  }

  /** The first minimum of a prefix does not depend on what follows it. */
  lemma {:induction false} FirstMinPrefix(ds: seq<real>, more: seq<real>, n: nat)
    requires 1 <= n <= |ds|
    ensures FirstMinTo(ds + more, n) == FirstMinTo(ds, n)
  {
    if n > 1 { FirstMinPrefix(ds, more, n - 1); }
  }

  /**
   * The record of cart_perturb's first t rounds: their buffers, steps,
   * impurities and draw positions (idx[u] to idx[u + 1] for round u).
   */
  ghost predicate CartRounds(bufs: seq<seq<Unidim>>, ps: seq<Sample>, j: nat, k: nat, measure: Measure, draws: nat -> real,
                             idx: seq<nat>, lambdas: seq<real>, imps: seq<real>, t: nat)
  {
    && |bufs| == t && |lambdas| == t && |imps| == t && |idx| == t + 1
    && forall u :: 0 <= u < t ==> CartTried(bufs[u], ps, j, k, measure, draws, u, idx[u], idx[u + 1], lambdas[u], imps[u])
  }

  lemma CartRoundsExtend(bufs: seq<seq<Unidim>>, ps: seq<Sample>, j: nat, k: nat, measure: Measure, draws: nat -> real,
                         idx: seq<nat>, lambdas: seq<real>, imps: seq<real>, t: nat,
                         buf: seq<Unidim>, index': nat, lambda: real, imp: real)
    requires CartRounds(bufs, ps, j, k, measure, draws, idx, lambdas, imps, t)
    requires CartTried(buf, ps, j, k, measure, draws, t, idx[t], index', lambda, imp)
    ensures CartRounds(bufs + [buf], ps, j, k, measure, draws, idx + [index'], lambdas + [lambda], imps + [imp], t + 1)
  {
    var bufs', idx', lambdas', imps' := bufs + [buf], idx + [index'], lambdas + [lambda], imps + [imp];
    forall u | 0 <= u < t + 1
      ensures CartTried(bufs'[u], ps, j, k, measure, draws, u, idx'[u], idx'[u + 1], lambdas'[u], imps'[u])
    {
      if u < t {
        assert bufs'[u] == bufs[u] && idx'[u] == idx[u] && idx'[u + 1] == idx[u + 1];
        assert lambdas'[u] == lambdas[u] && imps'[u] == imps[u];
      }
    }
  }

  /**
   * cart_perturb's state after t rounds: the rounds are recorded, the best
   * step is that of the first round of least impurity, and the buffer and
   * counts are those of the last round.
   */
  ghost predicate Searched(w: Workspace, ps: seq<Sample>, j: nat, measure: Measure, draws: nat -> real,
                           t: nat, bufs: seq<seq<Unidim>>, idx: seq<nat>, lambdas: seq<real>, imps: seq<real>,
                           best: nat, bestLambda: real, bestGamma: real, bestImpurity: real)
    reads w.candidates, w.tempVal, w.leftCount, w.rightCount
  {
    && CartRounds(bufs, ps, j, w.noOfCategories, measure, draws, idx, lambdas, imps, t)
    && (t >= 1 ==>
         && best == FirstMinTo(imps, t)
         && bestLambda == lambdas[best] && bestGamma == Gamma(best) && bestImpurity == imps[best]
         && w.candidates[..] == bufs[t - 1]
         && Recounted(w, ps, CartValues(ps, j, Gamma(t - 1), lambdas[t - 1]), false, measure, imps[t - 1]))
  }

  /** Round t of cart_perturb's loop, with gamma = Gamma(t): try it, and keep it if it is the first or strictly better. */
  method CartRound(w: Workspace, pts: seq<Point>, ghost ps: seq<Sample>, j: nat, gamma: real, ghost t: nat,
                   measure: Measure, rng: Util.Oracle,
                   bestLambda: real, bestGamma: real, bestImpurity: real,
                   ghost bufs: seq<seq<Unidim>>, ghost idx: seq<nat>, ghost lambdas: seq<real>, ghost imps: seq<real>, ghost best: nat)
    returns (bestLambda': real, bestGamma': real, bestImpurity': real,
             ghost bufs': seq<seq<Unidim>>, ghost idx': seq<nat>, ghost lambdas': seq<real>, ghost imps': seq<real>, ghost best': nat)
    requires w.Valid() && rng.Valid() && Snapshot(pts, ps) && SamplesWellFormed(ps, w.noOfDimensions, w.noOfCategories)
    requires j < w.noOfDimensions && |pts| <= w.candidates.Length
    requires gamma == Gamma(t)
    requires Searched(w, ps, j, measure, rng.draws, t, bufs, idx, lambdas, imps, best, bestLambda, bestGamma, bestImpurity)
    requires idx[t] == rng.index
    modifies w.candidates, w.leftCount, w.rightCount, rng`index
    ensures Searched(w, ps, j, measure, rng.draws, t + 1, bufs', idx', lambdas', imps', best', bestLambda', bestGamma', bestImpurity')
    ensures idx'[0] == idx[0] && idx'[t + 1] == rng.index
  {
    var k := w.noOfCategories;
    var lambda, d := CartTry(w, pts, ps, j, gamma, measure, rng);
    CartRoundsExtend(bufs, ps, j, k, measure, rng.draws, idx, lambdas, imps, t, w.candidates[..], rng.index, lambda, d);
    bufs', idx', lambdas', imps' := bufs + [w.candidates[..]], idx + [rng.index], lambdas + [lambda], imps + [d];
    bestLambda', bestGamma', bestImpurity', best' :=
      CartKeep(gamma, t, lambda, d, bestLambda, bestGamma, bestImpurity, lambdas, imps, best);
  }

  /**
   * The choice at the end of round t: the first round is kept, and a later
   * one replaces the best so far only when its impurity d is strictly lower.
   */
  method CartKeep(gamma: real, ghost t: nat, lambda: real, d: real, bestLambda: real, bestGamma: real, bestImpurity: real,
                  ghost lambdas: seq<real>, ghost imps: seq<real>, ghost best: nat)
    returns (bestLambda': real, bestGamma': real, bestImpurity': real, ghost best': nat)
    requires gamma == Gamma(t) && |lambdas| == t && |imps| == t
    requires t >= 1 ==> best == FirstMinTo(imps, t) && bestLambda == lambdas[best] && bestGamma == Gamma(best) && bestImpurity == imps[best]
    ensures best' == FirstMinTo(imps + [d], t + 1)
    ensures bestLambda' == (lambdas + [lambda])[best'] && bestGamma' == Gamma(best') && bestImpurity' == (imps + [d])[best']
  {
    bestLambda', bestGamma', bestImpurity', best' := bestLambda, bestGamma, bestImpurity, best;
    if t >= 1 {
      FirstMinExtend(imps, d);
      FirstMinPrefix(imps, [d], t);
    }
    if gamma == -0.25 {
      bestLambda', bestGamma', bestImpurity' := lambda, gamma, d;
      best' := t;
    } else if bestImpurity > d {
      bestLambda', bestGamma', bestImpurity' := lambda, gamma, d;
      best' := t;
    }
  }

  /**
   * cart_perturb's loop over gamma = -0.25, 0, 0.25: each round splits and
   * recounts, and the first round, then any strictly lower impurity, is
   * kept as the best step (bestLambda, bestGamma, bestImpurity).
   */
  method CartSearch(w: Workspace, pts: seq<Point>, ghost ps: seq<Sample>, j: nat, measure: Measure, rng: Util.Oracle)
    returns (bestLambda: real, bestGamma: real, bestImpurity: real,
             ghost bufs: seq<seq<Unidim>>, ghost idx: seq<nat>, ghost lambdas: seq<real>, ghost imps: seq<real>, ghost best: nat)
    requires w.Valid() && rng.Valid() && Snapshot(pts, ps) && SamplesWellFormed(ps, w.noOfDimensions, w.noOfCategories)
    requires j < w.noOfDimensions && |pts| <= w.candidates.Length
    modifies w.candidates, w.leftCount, w.rightCount, rng`index
    ensures Searched(w, ps, j, measure, rng.draws, 3, bufs, idx, lambdas, imps, best, bestLambda, bestGamma, bestImpurity)
    ensures idx[0] == old(rng.index) && idx[3] == rng.index
  {
    bufs, idx, lambdas, imps, best := [], [rng.index], [], [], 0;
    bestLambda, bestGamma, bestImpurity := 0.0, 0.0, 0.0;
    var gamma := -0.25;
    for t := 0 to 3
      invariant gamma == Gamma(t)
      invariant Searched(w, ps, j, measure, rng.draws, t, bufs, idx, lambdas, imps, best, bestLambda, bestGamma, bestImpurity)
      invariant rng.Valid() && idx[0] == old(rng.index) && idx[t] == rng.index
    {
      bestLambda, bestGamma, bestImpurity, bufs, idx, lambdas, imps, best :=
        CartRound(w, pts, ps, j, gamma, t, measure, rng, bestLambda, bestGamma, bestImpurity, bufs, idx, lambdas, imps, best);
      gamma := gamma + 0.25;
    }
  }

  /** The last step of cart_perturb: move coefficient j by the best lambda and the constant term by lambda times gamma. */
  method CartUpdate(w: Workspace, j: nat, bestLambda: real, bestGamma: real)
    requires w.Valid() && j < w.noOfDimensions
    requires w.modifiedCoeffArray[..] == w.coeffArray[..]
    modifies w.modifiedCoeffArray
    ensures w.modifiedCoeffArray[..] == CartMoved(w.coeffArray[..], j, bestGamma, bestLambda)
  {
    var mc, d := w.modifiedCoeffArray, w.noOfDimensions;
    mc[j] := mc[j] - bestLambda;
    mc[d] := mc[d] - bestLambda * bestGamma;
  }

  /**
   * The outcome of cart_perturb for coefficient j once the cached values
   * are current (ps) and linear_split draws from index on: the three
   * rounds are recorded in bufs, idx, lambdas and imps; the result is the
   * impurity of the first best round `best`, whose move is left in the
   * modified hyperplane; the buffer and the counts are those of the last
   * round.
   */
  ghost predicate CartOutcome(w: Workspace, ps: seq<Sample>, j: nat, measure: Measure, draws: nat -> real,
                              index: nat, index': nat, bufs: seq<seq<Unidim>>, idx: seq<nat>,
                              lambdas: seq<real>, imps: seq<real>, best: nat, err: real)
    reads w, w.modifiedCoeffArray, w.coeffArray, w.candidates, w.tempVal, w.leftCount, w.rightCount
  {
    && |lambdas| == 3 && best < 3
    && Searched(w, ps, j, measure, draws, 3, bufs, idx, lambdas, imps, best, lambdas[best], Gamma(best), err)
    && idx[0] == index && idx[3] == index'
    && j < w.coeffArray.Length
    && w.modifiedCoeffArray[..] == CartMoved(w.coeffArray[..], j, Gamma(best), lambdas[best])
  }

  /** cart_perturb once the cached values are current (ps). */
  method CartMove(w: Workspace, pts: seq<Point>, ghost ps: seq<Sample>, j: nat, measure: Measure, rng: Util.Oracle)
    returns (err: real, ghost bufs: seq<seq<Unidim>>, ghost idx: seq<nat>, ghost lambdas: seq<real>,
             ghost imps: seq<real>, ghost best: nat)
    requires w.Valid() && rng.Valid() && Snapshot(pts, ps) && SamplesWellFormed(ps, w.noOfDimensions, w.noOfCategories)
    requires j < w.noOfDimensions && |pts| <= w.candidates.Length
    requires w.modifiedCoeffArray[..] == w.coeffArray[..]
    modifies w.modifiedCoeffArray, w.candidates, w.leftCount, w.rightCount, rng`index
    ensures CartOutcome(w, ps, j, measure, rng.draws, old(rng.index), rng.index, bufs, idx, lambdas, imps, best, err)
  {
    var bestLambda, bestGamma;
    bestLambda, bestGamma, err, bufs, idx, lambdas, imps, best := CartSearch(w, pts, ps, j, measure, rng);
    CartUpdate(w, j, bestLambda, bestGamma);
  }

  /**
   * cart_perturb on coefficient j (a feature, never the constant term):
   * three rounds with gamma = -0.25, 0 and 0.25 each let linear_split pick
   * a step lambda; the first round of least impurity gives the result, and
   * its move of coefficient j and the constant term is left in the
   * modified hyperplane whether or not it improves on the current
   * impurity. Neither temp_val nor the stagnation counter changes. ps is
   * the points' state after the cached values are refreshed.
   */
  method CartPerturb(w: Workspace, pts: seq<Point>, j: nat, measure: Measure, rng: Util.Oracle)
    returns (err: real, ghost ps: seq<Sample>, ghost bufs: seq<seq<Unidim>>, ghost idx: seq<nat>,
             ghost lambdas: seq<real>, ghost imps: seq<real>, ghost best: nat)
    requires w.Valid() && rng.Valid() && Distinct(pts) && WellFormed(pts, w.noOfDimensions, w.noOfCategories)
    requires j < w.noOfDimensions && |pts| <= w.candidates.Length
    modifies w.modifiedCoeffArray, w.candidates, w.leftCount, w.rightCount, pts, w`coeffModified, rng`index
    ensures Snapshot(pts, ps) && SamplesWellFormed(ps, w.noOfDimensions, w.noOfCategories)
    ensures !w.coeffModified && Refreshed(old(Samples(pts)), ps, old(w.coeffModified), w.coeffArray[..])
    ensures CartOutcome(w, ps, j, measure, rng.draws, old(rng.index), rng.index, bufs, idx, lambdas, imps, best, err)
  {
    ps := Refresh(w, pts);
    err, bufs, idx, lambdas, imps, best := CartMove(w, pts, ps, j, measure, rng);
  }

  // ----- cart_perturb_constant -----

  /** The candidates cart_perturb_constant offers linear_split: every one of the first n points, at its value. */
  function ConstantCandidates(ps: seq<Sample>, n: nat): (s: seq<Unidim>)
    requires n <= |ps|
    ensures |s| == n
    ensures forall i :: 0 <= i < n ==> s[i] == Unidim(ps[i].val, ps[i].cat)
  {
    if n == 0 then [] else ConstantCandidates(ps, n - 1) + [Unidim(ps[n - 1].val, ps[n - 1].cat)]
  }

  lemma ConstantCandidatesWithin(ps: seq<Sample>, d: nat, k: nat)
    requires SamplesWellFormed(ps, d, k)
    ensures CatsWithin(ConstantCandidates(ps, |ps|), k)
  {
    var s := ConstantCandidates(ps, |ps|);
    forall i | 0 <= i < |s| ensures 1 <= s[i].cat <= k {
      assert s[i] == Unidim(ps[i].val, ps[i].cat);
    }
  }

  /** Every point's value once the constant term drops by lambda. */
  function ConstantValues(ps: seq<Sample>, lambda: real): (r: seq<real>)
    ensures |r| == |ps|
    ensures forall i :: 0 <= i < |ps| ==> r[i] == ps[i].val - lambda
  {
    seq(|ps|, i requires 0 <= i < |ps| => ps[i].val - lambda)
  }

  /** With current cached values, those values are the ones of the hyperplane with its constant term lowered by lambda. */
  lemma ConstantIsHyperplane(ps: seq<Sample>, c: seq<real>, lambda: real)
    requires SamplesMatch(ps, c) && |c| >= 1
    ensures ConstantValues(ps, lambda) == PlaneValues(ps, c[|c| - 1 := c[|c| - 1] - lambda])
  {
    var vals, plane := ConstantValues(ps, lambda), PlaneValues(ps, c[|c| - 1 := c[|c| - 1] - lambda]);
    forall i | 0 <= i < |ps|
      ensures vals[i] == plane[i]
    {
      HyperplaneUpdate(c, ps[i].x, |c| - 1, c[|c| - 1] - lambda);
    }
  }

  /** The first loop of cart_perturb_constant: every point becomes a candidate. */
  method FillConstantCart(a: array<Unidim>, pts: seq<Point>, ghost ps: seq<Sample>) returns (m: nat)
    requires |pts| <= a.Length && Snapshot(pts, ps)
    modifies a
    ensures m == |pts|
    ensures a[..m] == ConstantCandidates(ps, |pts|)
  {
    m := 0;
    for i := 0 to |pts|
      invariant m == i
      invariant a[..m] == ConstantCandidates(ps, i)
    {
      a[m] := Unidim(pts[i].val, pts[i].category);
      m := m + 1;
    }
  }

  /** The counting loop of cart_perturb_constant: each point counts left exactly when val - lambda is negative. */
  method ConstantCount(w: Workspace, pts: seq<Point>, ghost ps: seq<Sample>, lambda: real)
    requires w.Valid() && Snapshot(pts, ps) && SamplesWellFormed(ps, w.noOfDimensions, w.noOfCategories)
    requires w.leftCount[..] == seq(w.noOfCategories, _ => 0)
    requires w.rightCount[..] == seq(w.noOfCategories, _ => 0)
    modifies w.leftCount, w.rightCount
    ensures w.leftCount[..] == SplitCounts(SampleCats(ps), ConstantValues(ps, lambda), |pts|, w.noOfCategories).0
    ensures w.rightCount[..] == SplitCounts(SampleCats(ps), ConstantValues(ps, lambda), |pts|, w.noOfCategories).1
  {
    var k, left, right := w.noOfCategories, w.leftCount, w.rightCount;
    ghost var cs, vs := SampleCats(ps), ConstantValues(ps, lambda);
    for i := 0 to |pts|
      invariant left[..] == SplitCounts(cs, vs, i, k).0
      invariant right[..] == SplitCounts(cs, vs, i, k).1
    {
      CountPoint(left, right, cs, vs, i, k, pts[i].category, pts[i].val - lambda);
    }
  }

  /** The recount of cart_perturb_constant: the counts and impurity of the points at val - lambda. */
  method ConstantImpurity(w: Workspace, pts: seq<Point>, ghost ps: seq<Sample>, lambda: real, measure: Measure)
    returns (d: real)
    requires w.Valid() && Snapshot(pts, ps) && SamplesWellFormed(ps, w.noOfDimensions, w.noOfCategories)
    modifies w.leftCount, w.rightCount
    ensures Recounted(w, ps, ConstantValues(ps, lambda), false, measure, d)
  {
    ghost var cs, vs := SampleCats(ps), ConstantValues(ps, lambda);
    ResetCounts(w);
    ConstantCount(w, pts, ps, lambda);
    SplitCountsAreTallies(cs, vs, |ps|, w.noOfCategories);
    SplitCountsTotal(cs, vs, |ps|, w.noOfCategories);
    d := ComputeImpurity(w, |pts|, measure);
  }

  /** The proposal of cart_perturb_constant: split all the points' values and recount at the chosen lambda. */
  method ConstantTry(w: Workspace, pts: seq<Point>, ghost ps: seq<Sample>, measure: Measure, rng: Util.Oracle)
    returns (lambda: real, d: real)
    requires w.Valid() && rng.Valid() && Snapshot(pts, ps) && SamplesWellFormed(ps, w.noOfDimensions, w.noOfCategories)
    requires |pts| <= w.candidates.Length
    modifies w.candidates, w.leftCount, w.rightCount, rng`index
    ensures Proposed(w, ConstantCandidates(ps, |ps|), measure, rng.draws, old(rng.index), lambda, rng.index)
    ensures Recounted(w, ps, ConstantValues(ps, lambda), false, measure, d)
  {
    ghost var s := ConstantCandidates(ps, |ps|);
    var m := FillConstantCart(w.candidates, pts, ps);
    ConstantCandidatesWithin(ps, w.noOfDimensions, w.noOfCategories);
    lambda := SplitCandidates(w, m, measure, rng, s);
    d := ConstantImpurity(w, pts, ps, lambda, measure);
  }

  /** cart_perturb_constant once the cached values are current (ps). */
  method ConstantMove(w: Workspace, pts: seq<Point>, ghost ps: seq<Sample>, measure: Measure, rng: Util.Oracle)
    returns (err: real, ghost lambda: real)
    requires w.Valid() && rng.Valid() && Snapshot(pts, ps) && SamplesWellFormed(ps, w.noOfDimensions, w.noOfCategories)
    requires |pts| <= w.candidates.Length
    requires w.modifiedCoeffArray[..] == w.coeffArray[..]
    modifies w.modifiedCoeffArray, w.candidates, w.leftCount, w.rightCount, rng`index
    ensures Proposed(w, ConstantCandidates(ps, |ps|), measure, rng.draws, old(rng.index), lambda, rng.index)
    ensures Recounted(w, ps, ConstantValues(ps, lambda), false, measure, err)
    ensures w.modifiedCoeffArray[..] == w.coeffArray[..][w.noOfDimensions := w.coeffArray[w.noOfDimensions] - lambda]
  {
    var l;
    l, err := ConstantTry(w, pts, ps, measure, rng);
    lambda := l;
    ConstantUpdate(w, l);
  }

  /** The last step of cart_perturb_constant: lower the constant term by lambda. */
  method ConstantUpdate(w: Workspace, lambda: real)
    requires w.Valid() && w.modifiedCoeffArray[..] == w.coeffArray[..]
    modifies w.modifiedCoeffArray
    ensures w.modifiedCoeffArray[..] == w.coeffArray[..][w.noOfDimensions := w.coeffArray[w.noOfDimensions] - lambda]
  {
    var d := w.noOfDimensions;
    w.modifiedCoeffArray[d] := w.modifiedCoeffArray[d] - lambda;
  }

  /**
   * cart_perturb_constant: linear_split over all the points' values picks
   * lambda, the result is the impurity once the constant term drops by
   * lambda, and that move is left in the modified hyperplane whether or not
   * it improves on the current impurity. ps is the points' state after the
   * cached values are refreshed.
   */
  method CartPerturbConstant(w: Workspace, pts: seq<Point>, measure: Measure, rng: Util.Oracle)
    returns (err: real, ghost ps: seq<Sample>, ghost lambda: real)
    requires w.Valid() && rng.Valid() && Distinct(pts) && WellFormed(pts, w.noOfDimensions, w.noOfCategories)
    requires |pts| <= w.candidates.Length
    modifies w.modifiedCoeffArray, w.candidates, w.leftCount, w.rightCount, pts, w`coeffModified, rng`index
    ensures Snapshot(pts, ps) && SamplesWellFormed(ps, w.noOfDimensions, w.noOfCategories)
    ensures !w.coeffModified && Refreshed(old(Samples(pts)), ps, old(w.coeffModified), w.coeffArray[..])
    ensures Proposed(w, ConstantCandidates(ps, |ps|), measure, rng.draws, old(rng.index), lambda, rng.index)
    ensures Recounted(w, ps, ConstantValues(ps, lambda), false, measure, err)
    ensures w.modifiedCoeffArray[..] == w.coeffArray[..][w.noOfDimensions := w.coeffArray[w.noOfDimensions] - lambda]
  {
    ps := Refresh(w, pts);
    err, lambda := ConstantMove(w, pts, ps, measure, rng);
  }
}
