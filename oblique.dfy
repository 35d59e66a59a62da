/**
 * The hill-climbing split searches of mktree.c: oblique_split, which
 * perturbs one coefficient at a time, jumps in random directions when that
 * fails and keeps the best hyperplane over several random restarts, and
 * cart_split, the CART linear-combination search.
 *
 * The steps below expose only what the searches rely on from each
 * perturbation (the detailed contracts are those of Perturb, Cart and
 * Mktree): the points keep their features, the cached values stay current,
 * and a step never makes the running impurity worse.
 */
module Oblique {
  import opened Oc1
  import opened Counts
  import opened Perturb
  import opened Cart
  import opened Mktree
  import Util

  // ----- The state the searches keep -----

  /** The workspace and the points as every step of a search needs them: the points keep the features and categories of ps. */
  ghost predicate Points(w: Workspace, pts: seq<Point>, ps: seq<Sample>)
    reads w, pts
  {
    && w.Valid() && Distinct(pts) && |pts| <= w.candidates.Length
    && SameFeatures(pts, ps) && SamplesWellFormed(ps, w.noOfDimensions, w.noOfCategories)
    && WellFormed(pts, w.noOfDimensions, w.noOfCategories)
  }

  /** Points, and the cached values are not marked stale. */
  ghost predicate Climbing(w: Workspace, pts: seq<Point>, ps: seq<Sample>)
    reads w, pts
  {
    Points(w, pts, ps) && !w.coeffModified
  }

  /** The impurity compute_impurity reports once the points of ps are counted by the sign of the hyperplane c. */
  ghost function PlaneImpurity(ps: seq<Sample>, c: seq<real>, k: nat, measure: Measure): real
    requires k >= 1 && forall i :: 0 <= i < |ps| ==> |ps[i].x| + 1 == |c|
  {
    var vals := PlaneValues(ps, c);
    Impurity(Tally(LeftCats(SampleCats(ps), vals, |ps|), k), Tally(RightCats(SampleCats(ps), vals, |ps|), k), |ps|, measure)
  }

  /** The cached values are those of the hyperplane c and the counts are the tallies of their two sides. */
  ghost predicate CountedAt(w: Workspace, pts: seq<Point>, ps: seq<Sample>, c: seq<real>)
    reads w.leftCount, w.rightCount, pts
  {
    && |ps| == |pts| && (forall i :: 0 <= i < |ps| ==> |ps[i].x| + 1 == |c|)
    && ValsMatch(pts, c)
    && w.leftCount[..] == Tally(LeftCats(SampleCats(ps), PlaneValues(ps, c), |ps|), w.noOfCategories)
    && w.rightCount[..] == Tally(RightCats(SampleCats(ps), PlaneValues(ps, c), |ps|), w.noOfCategories)
  }

  /**
   * find_values followed by set_counts with flag 1 once the hyperplane has
   * been marked as modified: the values are recomputed and counted by sign.
   */
  method Recount(w: Workspace, pts: seq<Point>, ghost ps: seq<Sample>)
    requires Points(w, pts, ps) && w.coeffModified
    modifies w.leftCount, w.rightCount, pts, w`coeffModified
    ensures Climbing(w, pts, ps) && CountedAt(w, pts, ps, w.coeffArray[..])
  {
    SetCounts(w, pts, 1);
    assert SameFeatures(pts, ps);
    ghost var c := w.coeffArray[..];
    assert Cats(pts) == SampleCats(ps);
    assert Vals(pts) == PlaneValues(ps, c);
  }

  /** Recount, then compute_impurity: the result is the impurity of the current hyperplane. */
  method Evaluate(w: Workspace, pts: seq<Point>, ghost ps: seq<Sample>, measure: Measure) returns (err: real)
    requires Points(w, pts, ps) && w.coeffModified
    modifies w.leftCount, w.rightCount, pts, w`coeffModified
    ensures Climbing(w, pts, ps) && CountedAt(w, pts, ps, w.coeffArray[..])
    ensures err == PlaneImpurity(ps, w.coeffArray[..], w.noOfCategories, measure)
  {
    Recount(w, pts, ps);
    ghost var cs, vs := SampleCats(ps), PlaneValues(ps, w.coeffArray[..]);
    SplitCountsAreTallies(cs, vs, |ps|, w.noOfCategories);
    SplitCountsTotal(cs, vs, |ps|, w.noOfCategories);
    err := ComputeImpurity(w, |pts|, measure);
  }

  // ----- One perturbation, as the searches see it -----

  /** Moving some coefficient by more than TOLERANCE is a change of the hyperplane. */
  lemma MovedBeyondDiffers(c: seq<real>, m: seq<real>)
    requires |c| == |m| && MovedBeyond(c, m, |c|)
    ensures c != m
  {
    var i :| 0 <= i < |c| && Util.MyAbs(c[i] - m[i]) > Tolerance;
    assert c[i] != m[i];
  }

  /** suggest_perturbation on coefficient j: the modified hyperplane gets a proposal no worse than curError. */
  method Suggest(w: Workspace, pts: seq<Point>, ghost ps: seq<Sample>, j: nat, curError: real, measure: Measure, rng: Util.Oracle)
    returns (err: real)
    requires Climbing(w, pts, ps) && rng.Valid() && j <= w.noOfDimensions
    modifies w.modifiedCoeffArray, w.candidates, w.tempVal, w.leftCount, w.rightCount, pts
    modifies w`coeffModified, w`noOfStagnantPerturbations, rng`index
    ensures Climbing(w, pts, ps) && err <= curError
  {
    ghost var before := Samples(pts);
    ghost var ps1, nv, ch, d;
    err, ps1, nv, ch, d := SuggestPerturbation(w, pts, j, curError, measure, rng);
    assert ps1 == before;
  }

  /** perturb_randomly: its result is no worse than curError unless it left the modified hyperplane as the current one. */
  method Jump(w: Workspace, pts: seq<Point>, ghost ps: seq<Sample>, curError: real, measure: Measure, rng: Util.Oracle)
    returns (err: real)
    requires Climbing(w, pts, ps) && rng.Valid()
    modifies w.modifiedCoeffArray, w.candidates, w.tempVal, w.leftCount, w.rightCount, pts
    modifies w`coeffModified, w`noOfStagnantPerturbations, rng`index
    ensures Climbing(w, pts, ps)
    ensures err <= curError || w.modifiedCoeffArray[..] == w.coeffArray[..]
  {
    ghost var before := Samples(pts);
    ghost var b, ps1, r, start, first, stagnant, left0, right0, alpha, d;
    err, b, ps1, r, start, first, stagnant, left0, right0, alpha, d := PerturbRandomly(w, pts, curError, measure, rng);
    assert ps1 == before;
  }

  /** alter_coefficients: it reports a change exactly when the hyperplane changed, which needs a modified hyperplane that differs; values that matched the hyperplane match the one it leaves. */
  method Alter(w: Workspace, pts: seq<Point>, ghost ps: seq<Sample>) returns (changed: bool)
    requires Climbing(w, pts, ps)
    modifies w.coeffArray, w.leftCount, w.rightCount, pts, w`coeffModified
    ensures Climbing(w, pts, ps)
    ensures changed <==> w.coeffArray[..] != old(w.coeffArray[..])
    ensures changed ==> old(w.coeffArray[..]) != w.modifiedCoeffArray[..]
    ensures old(ValsMatch(pts, w.coeffArray[..])) ==> ValsMatch(pts, w.coeffArray[..])
  {
    ghost var b0 := Samples(pts);
    SnapshotMeaning(pts, b0, w.coeffArray[..], w.noOfDimensions, w.noOfCategories);
    assert forall p :: 0 <= p < |pts| ==> b0[p].x == ps[p].x && b0[p].cat == ps[p].cat;
    ghost var before, c0;
    changed, before, c0 := AlterCoefficients(w, pts);
    assert before == b0;
    assert SameFeatures(pts, ps);
    assert w.Valid() && Distinct(pts) && WellFormed(pts, w.noOfDimensions, w.noOfCategories);
    KeptMeaning(c0, w.modifiedCoeffArray[..]);
    if changed {
      MovedBeyondDiffers(c0, w.modifiedCoeffArray[..]);
    }
  }

  /**
   * The hill-climbing step of the random and sequential orders: suggest a
   * new value for coefficient j and keep it when it is no worse and
   * alter_coefficients changes the hyperplane. The running impurity never
   * increases, and it stays put when nothing is kept.
   */
  method HillClimb(w: Workspace, pts: seq<Point>, ghost ps: seq<Sample>, j: nat, curError: real, measure: Measure, rng: Util.Oracle)
    returns (err: real, improved: bool)
    requires Climbing(w, pts, ps) && rng.Valid() && j <= w.noOfDimensions
    modifies w.coeffArray, w.modifiedCoeffArray, w.candidates, w.tempVal, w.leftCount, w.rightCount, pts
    modifies w`coeffModified, w`noOfStagnantPerturbations, rng`index
    ensures Climbing(w, pts, ps) && err <= curError
    ensures improved <==> w.coeffArray[..] != old(w.coeffArray[..])
    ensures !improved ==> err == curError
  {
    var e := Suggest(w, pts, ps, j, curError, measure, rng);
    err, improved := curError, false;
    if e <= curError {
      improved := Alter(w, pts, ps);
      if improved {
        err := e;
      }
    }
  }

  /** The best-first step on the chosen coefficient j: suggest and keep whatever alter_coefficients changes. */
  method ClimbAt(w: Workspace, pts: seq<Point>, ghost ps: seq<Sample>, j: nat, curError: real, measure: Measure, rng: Util.Oracle)
    returns (err: real, improved: bool)
    requires Climbing(w, pts, ps) && rng.Valid() && j <= w.noOfDimensions
    modifies w.coeffArray, w.modifiedCoeffArray, w.candidates, w.tempVal, w.leftCount, w.rightCount, pts
    modifies w`coeffModified, w`noOfStagnantPerturbations, rng`index
    ensures Climbing(w, pts, ps) && err <= curError
    ensures improved <==> w.coeffArray[..] != old(w.coeffArray[..])
    ensures !improved ==> err == curError
  {
    var e := Suggest(w, pts, ps, j, curError, measure, rng);
    improved := Alter(w, pts, ps);
    err := if improved then e else curError;
  }

  /** One random jump: perturb_randomly, kept when alter_coefficients changes the hyperplane. */
  method JumpStep(w: Workspace, pts: seq<Point>, ghost ps: seq<Sample>, curError: real, measure: Measure, rng: Util.Oracle)
    returns (err: real, improved: bool)
    requires Climbing(w, pts, ps) && rng.Valid()
    modifies w.coeffArray, w.modifiedCoeffArray, w.candidates, w.tempVal, w.leftCount, w.rightCount, pts
    modifies w`coeffModified, w`noOfStagnantPerturbations, rng`index
    ensures Climbing(w, pts, ps) && err <= curError
    ensures improved <==> w.coeffArray[..] != old(w.coeffArray[..])
    ensures !improved ==> err == curError
  {
    var e := Jump(w, pts, ps, curError, measure, rng);
    improved := Alter(w, pts, ps);
    err := if improved then e else curError;
  }

  /**
   * The random jumps tried when hill climbing fails: at most maxJumps
   * calls of perturb_randomly, stopping at the first that changes the
   * hyperplane or once the impurity is zero. Without a change the
   * hyperplane and the impurity are those on entry.
   */
  method RandomJumps(w: Workspace, pts: seq<Point>, ghost ps: seq<Sample>, curError: real, maxJumps: int,
                     measure: Measure, rng: Util.Oracle)
    returns (err: real, improved: bool)
    requires Climbing(w, pts, ps) && rng.Valid()
    modifies w.coeffArray, w.modifiedCoeffArray, w.candidates, w.tempVal, w.leftCount, w.rightCount, pts
    modifies w`coeffModified, w`noOfStagnantPerturbations, rng`index
    ensures Climbing(w, pts, ps) && err <= curError
    ensures !improved ==> err == curError && w.coeffArray[..] == old(w.coeffArray[..])
  {
    err, improved := curError, false;
    var j := 0;
    while err != 0.0 && !improved && j + 1 <= maxJumps
      invariant Climbing(w, pts, ps) && rng.Valid() && err <= curError
      invariant !improved ==> err == curError && w.coeffArray[..] == old(w.coeffArray[..])
      decreases maxJumps - j
    {
      j := j + 1;
      err, improved := JumpStep(w, pts, ps, err, measure, rng);
    }
  }

  // ----- The random order -----

  /**
   * The coefficient the random order perturbs: (int) myrandom(1, D+2),
   * drawn again while it is 0, as a 0-based index. One draw always
   * suffices, since myrandom lies in [1, D+2).
   */
  method DrawCoefficient(w: Workspace, rng: Util.Oracle) returns (j: nat)
    requires w.Valid() && rng.Valid()
    modifies rng`index
    ensures j <= w.noOfDimensions && rng.index == old(rng.index) + 1
    ensures j + 1 == Util.MyRandom(1.0, (w.noOfDimensions + 2) as real, rng.draws(old(rng.index))).Floor
  {
    var cur := 0;
    while cur == 0
      invariant 0 <= cur <= w.noOfDimensions + 1
      invariant cur == 0 ==> rng.index == old(rng.index)
      invariant cur != 0 ==> rng.index == old(rng.index) + 1
      invariant cur != 0 ==> cur == Util.MyRandom(1.0, (w.noOfDimensions + 2) as real, rng.draws(old(rng.index))).Floor
      decreases if cur == 0 then 1 else 0
    {
      var u := rng.Next();
      cur := Util.MyRandom(1.0, (w.noOfDimensions + 2) as real, u).Floor;
    }
    j := cur - 1;
  }

  /** The bound on the random order's steps: cycle_count, or 10 per coefficient when it is not positive. */
  function CycleBound(cycleCount: int, d: nat): (r: int)
    ensures r >= 1 && (cycleCount >= 1 ==> r == cycleCount)
  {
    if cycleCount <= 0 then 10 * (d + 1) else cycleCount
  }

  /** One step of the random order: hill climb on a random coefficient, and jump when that changes nothing. */
  method RandomStep(w: Workspace, pts: seq<Point>, ghost ps: seq<Sample>, curError: real, maxJumps: int,
                    measure: Measure, rng: Util.Oracle)
    returns (err: real, improved: bool)
    requires Climbing(w, pts, ps) && rng.Valid()
    modifies w.coeffArray, w.modifiedCoeffArray, w.candidates, w.tempVal, w.leftCount, w.rightCount, pts
    modifies w`coeffModified, w`noOfStagnantPerturbations, rng`index
    ensures Climbing(w, pts, ps) && err <= curError
  {
    var j := DrawCoefficient(w, rng);
    err, improved := HillClimb(w, pts, ps, j, curError, measure, rng);
    if !improved {
      err, improved := RandomJumps(w, pts, ps, err, maxJumps, measure, rng);
    }
  }

  /** A restart in the random order: up to `cycles` steps, stopping once the impurity is zero. */
  method RandomRestart(w: Workspace, pts: seq<Point>, ghost ps: seq<Sample>, curError: real, cycles: int, maxJumps: int,
                       measure: Measure, rng: Util.Oracle)
    returns (err: real)
    requires Climbing(w, pts, ps) && rng.Valid()
    modifies w.coeffArray, w.modifiedCoeffArray, w.candidates, w.tempVal, w.leftCount, w.rightCount, pts
    modifies w`coeffModified, w`noOfStagnantPerturbations, rng`index
    ensures Climbing(w, pts, ps) && err <= curError
  {
    err := curError;
    var i := 1;
    while i <= cycles
      invariant Climbing(w, pts, ps) && rng.Valid() && err <= curError
      decreases cycles - i
    {
      if err == 0.0 {
        break;
      }
      var improved;
      err, improved := RandomStep(w, pts, ps, err, maxJumps, measure, rng);
      if improved && err == 0.0 {
        break;
      }
      i := i + 1;
    }
  }

  // ----- The sequential and best-first orders -----

  /** A sequential cycle's loop over the features: hill climb on each in turn, stopping once the impurity is zero. */
  method SequentialSweep(w: Workspace, pts: seq<Point>, ghost ps: seq<Sample>, curError: real, measure: Measure, rng: Util.Oracle)
    returns (err: real, improved: bool)
    requires Climbing(w, pts, ps) && rng.Valid()
    modifies w.coeffArray, w.modifiedCoeffArray, w.candidates, w.tempVal, w.leftCount, w.rightCount, pts
    modifies w`coeffModified, w`noOfStagnantPerturbations, rng`index
    ensures Climbing(w, pts, ps) && err <= curError
    ensures !improved ==> err == curError && w.coeffArray[..] == old(w.coeffArray[..])
  {
    err, improved := curError, false;
    for j := 0 to w.noOfDimensions
      invariant Climbing(w, pts, ps) && rng.Valid() && err <= curError
      invariant !improved ==> err == curError && w.coeffArray[..] == old(w.coeffArray[..])
    {
      var e, kept := HillClimb(w, pts, ps, j, err, measure, rng);
      if kept {
        err, improved := e, true;
        if err == 0.0 {
          break;
        }
      }
    }
  }

  /**
   * A best-first cycle's loop over the features: each is offered to
   * suggest_perturbation but none is kept, the stagnation counter is put
   * back after each, and the first feature of least suggested impurity is
   * remembered (`found` stands for the source's HUGE_VAL start having been
   * replaced); the loop stops once a suggestion reaches zero.
   */
  method BestFirstSweep(w: Workspace, pts: seq<Point>, ghost ps: seq<Sample>, curError: real, measure: Measure, rng: Util.Oracle)
    returns (found: bool, bestError: real, bestCoeff: nat)
    requires Climbing(w, pts, ps) && rng.Valid()
    modifies w.modifiedCoeffArray, w.candidates, w.tempVal, w.leftCount, w.rightCount, pts
    modifies w`coeffModified, w`noOfStagnantPerturbations, rng`index
    ensures Climbing(w, pts, ps) && w.noOfStagnantPerturbations == old(w.noOfStagnantPerturbations)
    ensures found <==> w.noOfDimensions >= 1
    ensures found ==> bestError <= curError && bestCoeff < w.noOfDimensions
  {
    var oldNsp := w.noOfStagnantPerturbations;
    found, bestError, bestCoeff := false, 0.0, 0;
    for j := 0 to w.noOfDimensions
      invariant Climbing(w, pts, ps) && rng.Valid() && w.noOfStagnantPerturbations == oldNsp
      invariant found <==> j >= 1
      invariant found ==> bestError <= curError && bestCoeff < j
    {
      var e := Suggest(w, pts, ps, j, curError, measure, rng);
      if !found || e < bestError {
        found, bestError, bestCoeff := true, e, j;
      }
      w.noOfStagnantPerturbations := oldNsp;
      if bestError == 0.0 {
        break;
      }
    }
  }

  /**
   * One cycle of the sequential or best-first order: the sweep over the
   * features (best first: then the best feature is perturbed again and
   * kept), and random jumps when nothing was kept.
   */
  method OrderedCycle(w: Workspace, pts: seq<Point>, ghost ps: seq<Sample>, curError: real, bestFirst: bool, maxJumps: int,
                      measure: Measure, rng: Util.Oracle)
    returns (err: real, improved: bool)
    requires Climbing(w, pts, ps) && rng.Valid()
    modifies w.coeffArray, w.modifiedCoeffArray, w.candidates, w.tempVal, w.leftCount, w.rightCount, pts
    modifies w`coeffModified, w`noOfStagnantPerturbations, rng`index
    ensures Climbing(w, pts, ps) && err <= curError
  {
    err, improved := curError, false;
    if bestFirst {
      var found, bestError, bestCoeff := BestFirstSweep(w, pts, ps, curError, measure, rng);
      if found && bestError <= curError {
        err, improved := ClimbAt(w, pts, ps, bestCoeff, curError, measure, rng);
      }
    } else {
      err, improved := SequentialSweep(w, pts, ps, curError, measure, rng);
    }
    if err != 0.0 && !improved {
      err, improved := RandomJumps(w, pts, ps, err, maxJumps, measure, rng);
    }
  }

  /**
   * A restart in the sequential or best-first order: cycles run while the
   * last one kept something and the impurity is not zero, at most `fuel`
   * of them; `cycles` counts them (the source's cycle_count).
   */
  method OrderedRestart(w: Workspace, pts: seq<Point>, ghost ps: seq<Sample>, curError: real, bestFirst: bool, maxJumps: int,
                        fuel: nat, measure: Measure, rng: Util.Oracle)
    returns (err: real, cycles: nat)
    requires Climbing(w, pts, ps) && rng.Valid()
    modifies w.coeffArray, w.modifiedCoeffArray, w.candidates, w.tempVal, w.leftCount, w.rightCount, pts
    modifies w`coeffModified, w`noOfStagnantPerturbations, rng`index
    ensures Climbing(w, pts, ps) && err <= curError && cycles <= fuel
  {
    err, cycles := curError, 0;
    var improved := true;
    while improved && cycles < fuel
      invariant Climbing(w, pts, ps) && rng.Valid() && err <= curError && cycles <= fuel
      decreases fuel - cycles
    {
      if err == 0.0 {
        break;
      }
      cycles := cycles + 1;
      err, improved := OrderedCycle(w, pts, ps, err, bestFirst, maxJumps, measure, rng);
    }
  }

  /**
   * The climb of one restart from impurity curError: the stagnation counter
   * starts at 0, then the order of perturbation decides the steps. The
   * result never exceeds curError; cycleCount' is the source's cycle_count
   * afterwards.
   */
  method Climb(w: Workspace, pts: seq<Point>, ghost ps: seq<Sample>, curError: real, opts: Options, cycleCount: int,
               fuel: nat, measure: Measure, rng: Util.Oracle)
    returns (err: real, cycleCount': int)
    requires Climbing(w, pts, ps) && rng.Valid()
    modifies w.coeffArray, w.modifiedCoeffArray, w.candidates, w.tempVal, w.leftCount, w.rightCount, pts
    modifies w`coeffModified, w`noOfStagnantPerturbations, rng`index
    ensures Climbing(w, pts, ps) && err <= curError
    ensures opts.orderOfPerturbation == RandomOrder ==> cycleCount' == CycleBound(cycleCount, w.noOfDimensions)
    ensures opts.orderOfPerturbation != RandomOrder ==> 0 <= cycleCount' <= fuel
  {
    w.noOfStagnantPerturbations := 0;
    if opts.orderOfPerturbation == RandomOrder {
      cycleCount' := CycleBound(cycleCount, w.noOfDimensions);
      err := RandomRestart(w, pts, ps, curError, cycleCount', opts.maxNoOfRandomPerturbations, measure, rng);
    } else {
      var cycles;
      err, cycles := OrderedRestart(w, pts, ps, curError, opts.orderOfPerturbation == BestFirst,
                                    opts.maxNoOfRandomPerturbations, fuel, measure, rng);
      cycleCount' := cycles;
    }
  }

  // ----- Restarts -----

  /** The outcome of a restart: the impurity it started from, the one it reached and the hyperplane it reached it with. */
  datatype Restart = Restart(from: real, err: real, plane: seq<real>)

  /**
   * The record of oblique_split's restarts: ends[0] is the starting
   * hyperplane and its impurity, ends[u] for u >= 1 the outcome of restart
   * u, the first of which climbs from the starting impurity. No climb ends
   * above where it started, and the kept entry b holds the least impurity.
   */
  ghost predicate Record(ends: seq<Restart>, b: nat, least: real)
  {
    && 1 <= |ends| && ends[0].from == ends[0].err
    && (forall u :: 0 <= u < |ends| ==> ends[u].err <= ends[u].from)
    && (|ends| >= 2 ==> ends[1].from == ends[0].err)
    && b < |ends| && least == ends[b].err
    && (forall u :: 0 <= u < |ends| ==> least <= ends[u].err)
  }

  /** The least impurity among the first n entries. */
  function LeastTo(ends: seq<Restart>, n: nat): real
    requires 1 <= n <= |ends|
  {
    if n == 1 then ends[0].err
    else if ends[n - 1].err < LeastTo(ends, n - 1) then ends[n - 1].err
    else LeastTo(ends, n - 1)
  }

  /** LeastTo is the minimum of the first n impurities, and it never increases as entries are added. */
  lemma {:induction false} LeastToIsMinimum(ends: seq<Restart>, n: nat)
    requires 1 <= n <= |ends|
    ensures forall u :: 0 <= u < n ==> LeastTo(ends, n) <= ends[u].err
    ensures exists u :: 0 <= u < n && LeastTo(ends, n) == ends[u].err
    ensures n >= 2 ==> LeastTo(ends, n) <= LeastTo(ends, n - 1)
  {
    if n > 1 {
      LeastToIsMinimum(ends, n - 1);
    } else {
      assert LeastTo(ends, n) == ends[0].err;
    }
  }

  /**
   * What the record says about oblique_split's result: it is the least
   * impurity over all restarts, never above the starting one, and the
   * least so far never increased from one restart to the next.
   */
  lemma RecordIsLeast(ends: seq<Restart>, b: nat, least: real)
    requires Record(ends, b, least)
    ensures least == LeastTo(ends, |ends|) && least <= ends[0].err
    ensures forall n :: 2 <= n <= |ends| ==> LeastTo(ends, n) <= LeastTo(ends, n - 1)
  {
    LeastToIsMinimum(ends, |ends|);
    forall n | 2 <= n <= |ends|
      ensures LeastTo(ends, n) <= LeastTo(ends, n - 1)
    {
      LeastToIsMinimum(ends, n);
    }
  }

  /** Adding restart u's outcome, kept or not by the choice rule, keeps the record. */
  lemma RecordExtend(ends: seq<Restart>, b: nat, least: real, r: Restart, kept: bool, least': real, b': nat)
    requires Record(ends, b, least) && r.err <= r.from && (|ends| == 1 ==> r.from == ends[0].err)
    requires kept ==> r.err <= least && least' == r.err && b' == |ends|
    requires !kept ==> least <= r.err && least' == least && b' == b
    ensures Record(ends + [r], b', least')
  {
    var ends' := ends + [r];
    assert forall u :: 0 <= u < |ends| ==> ends'[u] == ends[u];
  }

  /** The copy of the current hyperplane into best_coeff_array. */
  method CopyToBest(w: Workspace)
    requires w.Valid()
    modifies w.bestCoeffArray
    ensures w.bestCoeffArray[..] == w.coeffArray[..]
  {
    var b, c := w.bestCoeffArray, w.coeffArray;
    for i := 0 to b.Length
      invariant forall p :: 0 <= p < i ==> b[p] == c[p]
    {
      b[i] := c[i];
    }
  }

  /**
   * The choice at the end of a restart: its hyperplane replaces the best
   * when its impurity is strictly lower, or equal and a draw of
   * myrandom(0, 1) exceeds 0.5 (drawn only on a tie).
   */
  method KeepRestart(w: Workspace, curError: real, leastError: real, rng: Util.Oracle) returns (kept: bool, leastError': real)
    requires w.Valid() && rng.Valid()
    modifies w.bestCoeffArray, rng`index
    ensures kept <==> curError < leastError
                      || (curError == leastError && Util.MyRandom(0.0, 1.0, rng.draws(old(rng.index))) > 0.5)
    ensures rng.index == old(rng.index) + (if curError == leastError then 1 else 0)
    ensures kept ==> leastError' == curError && w.bestCoeffArray[..] == w.coeffArray[..]
    ensures !kept ==> leastError' == leastError && w.bestCoeffArray[..] == old(w.bestCoeffArray[..])
  {
    kept := curError < leastError;
    if curError == leastError {
      var u := rng.Next();
      kept := Util.MyRandom(0.0, 1.0, u) > 0.5;
    }
    leastError' := leastError;
    if kept {
      leastError' := curError;
      CopyToBest(w);
    }
  }

  /** A fresh random hyperplane, marked as modified, recounted and evaluated. */
  method NewStart(w: Workspace, pts: seq<Point>, ghost ps: seq<Sample>, ghost best: seq<real>, measure: Measure, rng: Util.Oracle)
    returns (err: real)
    requires Points(w, pts, ps) && rng.Valid() && w.bestCoeffArray[..] == best
    modifies w.coeffArray, w.leftCount, w.rightCount, pts, w`coeffModified, rng`index
    ensures Climbing(w, pts, ps) && CountedAt(w, pts, ps, w.coeffArray[..]) && w.bestCoeffArray[..] == best
    ensures RandomDirection(w.coeffArray[..], w.noOfDimensions, rng.draws, old(rng.index))
    ensures err == PlaneImpurity(ps, w.coeffArray[..], w.noOfCategories, measure)
  {
    Util.GenerateRandomHyperplane(w.coeffArray, w.noOfDimensions + 1, MaxCoefficient, rng);
    assert RandomDirection(w.coeffArray[..], w.noOfDimensions, rng.draws, old(rng.index));
    assert Points(w, pts, ps);
    w.coeffModified := true;
    err := Evaluate(w, pts, ps, measure);
  }

  /**
   * One pass of oblique_split's restart loop: climb from curError, record
   * the outcome, choose, and draw the next random start when another
   * restart is due. rc is the source's restart_count.
   */
  method RestartRound(w: Workspace, pts: seq<Point>, ghost ps: seq<Sample>, opts: Options, fuel: nat, measure: Measure,
                      rng: Util.Oracle, curError: real, leastError: real, rc: int, cycleCount: int,
                      ghost ends: seq<Restart>, ghost b: nat)
    returns (curError': real, leastError': real, rc': int, cycleCount': int, ghost ends': seq<Restart>, ghost b': nat)
    requires Climbing(w, pts, ps) && rng.Valid()
    requires Record(ends, b, leastError) && w.bestCoeffArray[..] == ends[b].plane
    requires |ends| == 1 ==> curError == ends[0].err
    modifies w.coeffArray, w.modifiedCoeffArray, w.bestCoeffArray, w.candidates, w.tempVal, w.leftCount, w.rightCount, pts
    modifies w`coeffModified, w`noOfStagnantPerturbations, rng`index
    ensures Climbing(w, pts, ps) && Record(ends', b', leastError') && w.bestCoeffArray[..] == ends'[b'].plane
    ensures |ends'| == |ends| + 1 && ends'[0] == ends[0]
    ensures rc' == if leastError' != 0.0 then rc + 1 else rc
    ensures opts.orderOfPerturbation == RandomOrder ==> cycleCount' == CycleBound(cycleCount, w.noOfDimensions)
    ensures opts.orderOfPerturbation != RandomOrder ==> 0 <= cycleCount' <= fuel
  {
    var err;
    err, cycleCount' := Climb(w, pts, ps, curError, opts, cycleCount, fuel, measure, rng);
    ghost var r := Restart(curError, err, w.coeffArray[..]);
    var kept;
    kept, leastError' := KeepRestart(w, err, leastError, rng);
    b' := if kept then |ends| else b;
    RecordExtend(ends, b, leastError, r, kept, leastError', b');
    ends' := ends + [r];
    rc', curError' := rc, err;
    if leastError' != 0.0 {
      rc' := rc + 1;
      if rc' <= opts.noOfRestarts {
        curError' := NewStart(w, pts, ps, ends'[b'].plane, measure, rng);
      }
    }
  }

  /**
   * oblique_split's restart loop: run while the least impurity is not zero
   * and restart_count (from 1) has not passed no_of_restarts.
   */
  method Restarts(w: Workspace, pts: seq<Point>, ghost ps: seq<Sample>, opts: Options, fuel: nat, measure: Measure,
                  rng: Util.Oracle, curError: real, cycleCount: int, ghost start: seq<real>)
    returns (leastError: real, cycleCount': int, ghost ends: seq<Restart>, ghost b: nat)
    requires Climbing(w, pts, ps) && rng.Valid()
    requires w.bestCoeffArray[..] == start
    modifies w.coeffArray, w.modifiedCoeffArray, w.bestCoeffArray, w.candidates, w.tempVal, w.leftCount, w.rightCount, pts
    modifies w`coeffModified, w`noOfStagnantPerturbations, rng`index
    ensures Climbing(w, pts, ps) && Record(ends, b, leastError) && w.bestCoeffArray[..] == ends[b].plane
    ensures ends[0] == Restart(curError, curError, start)
    ensures |ends| == 1 || |ends| - 1 <= opts.noOfRestarts
    ensures opts.orderOfPerturbation == RandomOrder && |ends| >= 2 ==> cycleCount' == CycleBound(cycleCount, w.noOfDimensions)
    ensures opts.orderOfPerturbation != RandomOrder && |ends| >= 2 ==> 0 <= cycleCount' <= fuel
    ensures |ends| == 1 ==> cycleCount' == cycleCount
  {
    leastError, cycleCount' := curError, cycleCount;
    var cur, rc := curError, 1;
    ends, b := [Restart(curError, curError, start)], 0;
    while leastError != 0.0 && rc <= opts.noOfRestarts
      invariant Climbing(w, pts, ps) && rng.Valid()
      invariant Record(ends, b, leastError) && w.bestCoeffArray[..] == ends[b].plane
      invariant ends[0] == Restart(curError, curError, start)
      invariant |ends| == 1 ==> cur == curError && rc == 1 && cycleCount' == cycleCount
      invariant |ends| >= 2 ==> |ends| - 1 <= opts.noOfRestarts && (rc == |ends| || (leastError == 0.0 && rc == |ends| - 1))
      invariant opts.orderOfPerturbation == RandomOrder && |ends| >= 2 ==> cycleCount' == CycleBound(cycleCount, w.noOfDimensions)
      invariant opts.orderOfPerturbation != RandomOrder && |ends| >= 2 ==> 0 <= cycleCount' <= fuel
      decreases (if leastError == 0.0 then 0 else 1) + opts.noOfRestarts + 1 - rc
    {
      cur, leastError, rc, cycleCount', ends, b :=
        RestartRound(w, pts, ps, opts, fuel, measure, rng, cur, leastError, rc, cycleCount', ends, b);
    }
  }

  /** The starting hyperplane: the given one, or a random direction drawn from index on. */
  ghost predicate Started(start: seq<real>, axisParallel: bool, given: seq<real>, d: nat, draws: nat -> real, index: nat)
  {
    (axisParallel ==> start == given) && (!axisParallel ==> RandomDirection(start, d, draws, index))
  }

  /** What the restarts of oblique_split leave: a record from the start whose least impurity is err, after at most r restarts. */
  ghost predicate Searched(ends: seq<Restart>, b: nat, err: real, start: seq<real>, r: int)
  {
    Record(ends, b, err) && ends[0].plane == start && err <= ends[0].err && (|ends| == 1 || |ends| - 1 <= r)
  }

  /**
   * The start of oblique_split: a random hyperplane unless the axis-parallel
   * one is to be improved, then find_values, set_counts and
   * compute_impurity, and the hyperplane becomes the best so far. ps
   * records the points' features and categories.
   */
  method ObliqueStart(w: Workspace, pts: seq<Point>, ghost ps: seq<Sample>, axisParallel: bool, measure: Measure, rng: Util.Oracle)
    returns (err: real, ghost start: seq<real>)
    requires Points(w, pts, ps) && rng.Valid()
    modifies w.coeffArray, w.bestCoeffArray, w.leftCount, w.rightCount, pts, w`coeffModified, rng`index
    ensures Climbing(w, pts, ps)
    ensures start == w.coeffArray[..] && w.bestCoeffArray[..] == start
    ensures Started(start, axisParallel, old(w.coeffArray[..]), w.noOfDimensions, rng.draws, old(rng.index))
    ensures old(w.coeffModified) || !axisParallel ==> err == PlaneImpurity(ps, start, w.noOfCategories, measure)
  {
    if !axisParallel {
      RandomPlane(w, rng);
    }
    start := w.coeffArray[..];
    err := StartImpurity(w, pts, ps, measure);
    CopyToBest(w);
  }

  /** The random start of oblique_split: generate_random_hyperplane over every coefficient, marked as modified. */
  method RandomPlane(w: Workspace, rng: Util.Oracle)
    requires w.Valid() && rng.Valid()
    modifies w.coeffArray, w`coeffModified, rng`index
    ensures w.coeffModified && RandomDirection(w.coeffArray[..], w.noOfDimensions, rng.draws, old(rng.index))
  {
    Util.GenerateRandomHyperplane(w.coeffArray, w.noOfDimensions + 1, MaxCoefficient, rng);
    w.coeffModified := true;
  }

  /** find_values, set_counts and compute_impurity at the start of oblique_split: the impurity of the current hyperplane when it is marked as modified. */
  method StartImpurity(w: Workspace, pts: seq<Point>, ghost ps: seq<Sample>, measure: Measure) returns (err: real)
    requires Points(w, pts, ps)
    modifies w.leftCount, w.rightCount, pts, w`coeffModified
    ensures Climbing(w, pts, ps)
    ensures old(w.coeffModified) ==> err == PlaneImpurity(ps, w.coeffArray[..], w.noOfCategories, measure)
    ensures old(w.coeffModified) || old(ValsMatch(pts, w.coeffArray[..])) ==> ValsMatch(pts, w.coeffArray[..])
  {
    if w.coeffModified {
      err := Evaluate(w, pts, ps, measure);
    } else {
      err := EvaluateAsIs(w, pts, ps, measure);
    }
  }

  /** find_values, set_counts and compute_impurity when the cached values are not marked stale: they are counted as they are. */
  method EvaluateAsIs(w: Workspace, pts: seq<Point>, ghost ps: seq<Sample>, measure: Measure) returns (err: real)
    requires Climbing(w, pts, ps)
    modifies w.leftCount, w.rightCount, pts, w`coeffModified
    ensures Climbing(w, pts, ps)
    ensures old(ValsMatch(pts, w.coeffArray[..])) ==> ValsMatch(pts, w.coeffArray[..])
  {
    ghost var before := Samples(pts);
    SnapshotMeaning(pts, before, w.coeffArray[..], w.noOfDimensions, w.noOfCategories);
    assert forall p :: 0 <= p < |before| ==> before[p].x == ps[p].x && before[p].cat == ps[p].cat;
    CountAsIs(w, pts);
    Restored(pts, before, ps, w.coeffArray[..]);
    err := ComputeImpurity(w, |pts|, measure);
  }

  /** set_counts on values not marked stale: the points are left as they were and the counts are the tallies of each side. */
  method CountAsIs(w: Workspace, pts: seq<Point>)
    requires w.Valid() && Distinct(pts) && WellFormed(pts, w.noOfDimensions, w.noOfCategories) && !w.coeffModified
    modifies w.leftCount, w.rightCount, pts, w`coeffModified
    ensures Snapshot(pts, old(Samples(pts))) && !w.coeffModified
    ensures Sum(w.leftCount[..]) + Sum(w.rightCount[..]) == |pts|
  {
    ghost var before := Samples(pts);
    SetCounts(w, pts, 1);
    assert Snapshot(pts, before);
    ghost var cs, vs := Cats(pts), Vals(pts);
    SplitCountsAreTallies(cs, vs, |pts|, w.noOfCategories);
    SplitCountsTotal(cs, vs, |pts|, w.noOfCategories);
  }

  /** The end of oblique_split: the best hyperplane becomes the current one, marked as modified, and the points are recounted on it. */
  method ObliqueFinish(w: Workspace, pts: seq<Point>, ghost ps: seq<Sample>, ghost best: seq<real>)
    requires Points(w, pts, ps) && w.bestCoeffArray[..] == best
    modifies w.coeffArray, w.leftCount, w.rightCount, pts, w`coeffModified
    ensures Climbing(w, pts, ps) && w.coeffArray[..] == w.bestCoeffArray[..] == best
    ensures CountedAt(w, pts, ps, w.coeffArray[..])
  {
    var b, c := w.bestCoeffArray, w.coeffArray;
    for i := 0 to c.Length
      modifies c
      invariant forall p :: 0 <= p < i ==> c[p] == b[p]
    {
      c[i] := b[i];
    }
    assert c[..] == b[..];
    w.coeffModified := true;
    Recount(w, pts, ps);
  }

  /**
   * oblique_split: from the starting hyperplane (the current one, or a
   * random one when axis-parallel splits are off), climb by perturbations
   * and random jumps in the chosen order, restart from fresh random
   * hyperplanes at most no_of_restarts times in all, and keep the
   * hyperplane of least impurity. The result is that least impurity, never
   * above the starting one (RecordIsLeast); the best hyperplane is copied
   * back into coeff_array and the points are recounted on it. fuel bounds
   * the cycles of the sequential and best-first orders.
   */
  method ObliqueSplit(w: Workspace, pts: seq<Point>, opts: Options, cycleCount: int, fuel: nat, measure: Measure, rng: Util.Oracle)
    returns (err: real, cycleCount': int, ghost ps: seq<Sample>, ghost start: seq<real>, ghost ends: seq<Restart>, ghost b: nat)
    requires w.Valid() && rng.Valid() && Distinct(pts) && WellFormed(pts, w.noOfDimensions, w.noOfCategories)
    requires |pts| <= w.candidates.Length
    modifies w.coeffArray, w.modifiedCoeffArray, w.bestCoeffArray, w.candidates, w.tempVal, w.leftCount, w.rightCount, pts
    modifies w`coeffModified, w`noOfStagnantPerturbations, rng`index
    ensures ps == old(Samples(pts)) && Climbing(w, pts, ps)
    ensures Started(start, opts.axisParallel, old(w.coeffArray[..]), w.noOfDimensions, rng.draws, old(rng.index))
    ensures Searched(ends, b, err, start, opts.noOfRestarts)
    ensures old(w.coeffModified) || !opts.axisParallel ==> ends[0].err == PlaneImpurity(ps, start, w.noOfCategories, measure)
    ensures w.coeffArray[..] == w.bestCoeffArray[..] == ends[b].plane
    ensures CountedAt(w, pts, ps, w.coeffArray[..])
  {
    ps := Samples(pts);
    SnapshotMeaning(pts, ps, w.coeffArray[..], w.noOfDimensions, w.noOfCategories);
    var cur;
    cur, start := ObliqueStart(w, pts, ps, opts.axisParallel, measure, rng);
    err, cycleCount', ends, b := Restarts(w, pts, ps, opts, fuel, measure, rng, cur, cycleCount, start);
    ObliqueFinish(w, pts, ps, ends[b].plane);
  }

  // ----- cart_split -----

  /**
   * cart_perturb on feature j, as cart_split sees it: the points keep their
   * features, coeff_array is not touched and the cached values are left as
   * they were (find_values does nothing while coeff_modified is clear), so
   * values that matched the hyperplane still match it.
   */
  method CartStepAt(w: Workspace, pts: seq<Point>, ghost ps: seq<Sample>, j: nat, measure: Measure, rng: Util.Oracle)
    returns (err: real)
    requires Climbing(w, pts, ps) && rng.Valid() && j < w.noOfDimensions
    modifies w.modifiedCoeffArray, w.candidates, w.leftCount, w.rightCount, pts, w`coeffModified, rng`index
    ensures Climbing(w, pts, ps)
    ensures old(ValsMatch(pts, w.coeffArray[..])) ==> ValsMatch(pts, w.coeffArray[..])
  {
    ghost var before := Samples(pts);
    SnapshotMeaning(pts, before, w.coeffArray[..], w.noOfDimensions, w.noOfCategories);
    assert forall p :: 0 <= p < |before| ==> before[p].x == ps[p].x && before[p].cat == ps[p].cat;
    err := CartProposal(w, pts, j, measure, rng);
    Restored(pts, before, ps, w.coeffArray[..]);
  }

  /** The call of cart_perturb: the points are left in the state they were in. */
  method CartProposal(w: Workspace, pts: seq<Point>, j: nat, measure: Measure, rng: Util.Oracle) returns (err: real)
    requires w.Valid() && rng.Valid() && Distinct(pts) && WellFormed(pts, w.noOfDimensions, w.noOfCategories)
    requires j < w.noOfDimensions && |pts| <= w.candidates.Length && !w.coeffModified
    modifies w.modifiedCoeffArray, w.candidates, w.leftCount, w.rightCount, pts, w`coeffModified, rng`index
    ensures Snapshot(pts, old(Samples(pts))) && !w.coeffModified
  {
    ghost var before := Samples(pts);
    ghost var ps1, bufs, idx, lambdas, imps, best;
    err, ps1, bufs, idx, lambdas, imps, best := CartPerturb(w, pts, j, measure, rng);
    assert ps1 == before;
  }

  /** cart_perturb_constant, as cart_split sees it: as CartStepAt, for the constant term. */
  method CartConstantStep(w: Workspace, pts: seq<Point>, ghost ps: seq<Sample>, measure: Measure, rng: Util.Oracle)
    returns (err: real)
    requires Climbing(w, pts, ps) && rng.Valid()
    modifies w.modifiedCoeffArray, w.candidates, w.leftCount, w.rightCount, pts, w`coeffModified, rng`index
    ensures Climbing(w, pts, ps)
    ensures old(ValsMatch(pts, w.coeffArray[..])) ==> ValsMatch(pts, w.coeffArray[..])
  {
    ghost var before := Samples(pts);
    SnapshotMeaning(pts, before, w.coeffArray[..], w.noOfDimensions, w.noOfCategories);
    assert forall p :: 0 <= p < |before| ==> before[p].x == ps[p].x && before[p].cat == ps[p].cat;
    err := ConstantProposal(w, pts, measure, rng);
    Restored(pts, before, ps, w.coeffArray[..]);
  }

  /** The call of cart_perturb_constant: the points are left in the state they were in. */
  method ConstantProposal(w: Workspace, pts: seq<Point>, measure: Measure, rng: Util.Oracle) returns (err: real)
    requires w.Valid() && rng.Valid() && Distinct(pts) && WellFormed(pts, w.noOfDimensions, w.noOfCategories)
    requires |pts| <= w.candidates.Length && !w.coeffModified
    modifies w.modifiedCoeffArray, w.candidates, w.leftCount, w.rightCount, pts, w`coeffModified, rng`index
    ensures Snapshot(pts, old(Samples(pts))) && !w.coeffModified
  {
    ghost var before := Samples(pts);
    ghost var ps1, lambda;
    err, ps1, lambda := CartPerturbConstant(w, pts, measure, rng);
    assert ps1 == before;
  }

  /**
   * Points back in a state recorded earlier keep the features recorded in
   * ps, and match c if the recorded values did.
   */
  lemma Restored(pts: seq<Point>, before: seq<Sample>, ps: seq<Sample>, c: seq<real>)
    requires Snapshot(pts, before) && |before| == |ps|
    requires forall p :: 0 <= p < |before| ==> before[p].x == ps[p].x && before[p].cat == ps[p].cat
    ensures SameFeatures(pts, ps)
    ensures SamplesMatch(before, c) ==> ValsMatch(pts, c)
  {
  }

  /**
   * One cycle of cart_split: cart_perturb on every feature in turn, then
   * cart_perturb_constant unless the impurity is zero; a perturbation's
   * impurity becomes the running one whenever alter_coefficients changes
   * the hyperplane, better or not.
   */
  method CartCycle(w: Workspace, pts: seq<Point>, ghost ps: seq<Sample>, curError: real, measure: Measure, rng: Util.Oracle)
    returns (err: real)
    requires Climbing(w, pts, ps) && rng.Valid()
    modifies w.coeffArray, w.modifiedCoeffArray, w.candidates, w.leftCount, w.rightCount, pts, w`coeffModified, rng`index
    ensures Climbing(w, pts, ps)
    ensures old(ValsMatch(pts, w.coeffArray[..])) ==> ValsMatch(pts, w.coeffArray[..])
  {
    ghost var tracks := ValsMatch(pts, w.coeffArray[..]);
    err := curError;
    for j := 0 to w.noOfDimensions
      invariant Climbing(w, pts, ps) && rng.Valid()
      invariant tracks ==> ValsMatch(pts, w.coeffArray[..])
    {
      var e := CartStepAt(w, pts, ps, j, measure, rng);
      var changed := Alter(w, pts, ps);
      if changed {
        err := e;
        if err == 0.0 {
          break;
        }
      }
    }
    if err != 0.0 {
      var e := CartConstantStep(w, pts, ps, measure, rng);
      var changed := Alter(w, pts, ps);
      if changed {
        err := e;
      }
    }
  }

  /**
   * cart_split: from the current (axis-parallel) hyperplane, run CART
   * cycles until the impurity is zero, more than MAX_CART_CYCLES cycles
   * have run, or a cycle after the first changes the impurity by less than
   * TOLERANCE. cycles is the source's cycle_count afterwards and prev the
   * impurity before the last cycle. Started on values that are current (or
   * marked stale, as build_subtree leaves them), the values stay those of
   * the hyperplane, which build_subtree then splits the points by.
   */
  method CartSplit(w: Workspace, pts: seq<Point>, measure: Measure, rng: Util.Oracle)
    returns (err: real, cycles: int, ghost prev: real, ghost ps: seq<Sample>)
    requires w.Valid() && rng.Valid() && Distinct(pts) && WellFormed(pts, w.noOfDimensions, w.noOfCategories)
    requires |pts| <= w.candidates.Length
    modifies w.coeffArray, w.modifiedCoeffArray, w.candidates, w.leftCount, w.rightCount, pts, w`coeffModified, rng`index
    ensures ps == old(Samples(pts)) && Climbing(w, pts, ps)
    ensures 0 <= cycles <= MaxCartCycles + 1
    ensures err == 0.0 || cycles == MaxCartCycles + 1 || (cycles >= 2 && Util.MyAbs(prev - err) < Tolerance)
    ensures old(w.coeffModified) || old(ValsMatch(pts, w.coeffArray[..])) ==> ValsMatch(pts, w.coeffArray[..])
  {
    ps := Samples(pts);
    SnapshotMeaning(pts, ps, w.coeffArray[..], w.noOfDimensions, w.noOfCategories);
    err := StartImpurity(w, pts, ps, measure);
    ghost var tracks := ValsMatch(pts, w.coeffArray[..]);
    cycles, prev := 0, 0.0;
    var prevImpurity := 0.0;
    while true
      invariant Climbing(w, pts, ps) && rng.Valid() && 0 <= cycles <= MaxCartCycles && prev == prevImpurity
      invariant tracks ==> ValsMatch(pts, w.coeffArray[..])
      decreases MaxCartCycles - cycles
    {
      if err == 0.0 {
        break;
      }
      cycles := cycles + 1;
      if cycles != 1 {
        prevImpurity := err;
        prev := err;
      }
      err := CartCycle(w, pts, ps, err, measure, rng);
      if cycles > MaxCartCycles {
        break;
      }
      if cycles != 1 && Util.MyAbs(prevImpurity - err) < Tolerance {
        break;
      }
    }
  }
}
