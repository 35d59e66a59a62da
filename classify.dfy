/**
 * classify.c: the walk that sends a point down the tree, the labelling of
 * points by that walk, and estimate_accuracy's per-category tallies of
 * correct and incorrect predictions.
 */
module Classify {
  import opened Wrappers
  import opened Oc1
  import opened Counts
  import opened Trees

  /**
   * The category the tree gives x: at each node x goes left when the
   * hyperplane value is negative and right otherwise, and the first absent
   * child on the way decides, through that side's majority category.
   */
  function Predict(t: Tree, x: seq<real>): int
    requires t.Tree? && Planes(t, |x|)
  {
    if HyperplaneValue(t.node.coefficients, x) < 0.0 then
      if t.left.Nil? then t.node.leftCat else Predict(t.left, x)
    else
      if t.right.Nil? then t.node.rightCat else Predict(t.right, x)
  }

  /** In a tree whose majority categories are first maxima of K counts, every prediction is a category 1..K. */
  lemma {:induction false} PredictInRange(t: Tree, x: seq<real>, k: nat)
    requires t.Tree? && Planes(t, |x|) && Counted(t, k)
    ensures 1 <= Predict(t, x) <= k
  {
    if HyperplaneValue(t.node.coefficients, x) < 0.0 {
      if t.left.Tree? { PredictInRange(t.left, x, k); }
    } else {
      if t.right.Tree? { PredictInRange(t.right, x, k); }
    }
  }

  /** The side test of classify and estimate_accuracy: the constant, then each coefficient times its coordinate. */
  method PlaneSum(c: seq<real>, x: seq<real>) returns (sum: real)
    requires |c| == |x| + 1
    ensures sum == HyperplaneValue(c, x)
  {
    sum := c[|x|];
    for j := 0 to |x|
      invariant sum == c[|x|] + Dot(c, x, j)
    {
      sum := sum + c[j] * x[j];
    }
  }

  /** The inner while loop: walk from the root until a child slot is empty and take that side's category. */
  method Descend(root: Tree, x: seq<real>) returns (cat: int)
    requires root.Tree? && Planes(root, |x|)
    ensures cat == Predict(root, x)
  {
    var cur := root;
    while true
      invariant cur.Tree? && Planes(cur, |x|) && Predict(cur, x) == Predict(root, x)
      decreases cur
    {
      var sum := PlaneSum(cur.node.coefficients, x);
      if sum < 0.0 {
        if cur.left.Nil? {
          return cur.node.leftCat;
        }
        cur := cur.left;
      } else {
        if cur.right.Nil? {
          return cur.node.rightCat;
        }
        cur := cur.right;
      }
    }
  }

  /**
   * classify: overwrite each point's category with the tree's prediction;
   * an empty tree leaves every category as it was. Coordinates and cached
   * values are untouched.
   */
  method ClassifyPoints(points: seq<Point>, root: Tree, d: nat)
    requires Planes(root, d) && forall i :: 0 <= i < |points| ==> |points[i].dimension| == d
    modifies points
    ensures forall i :: 0 <= i < |points| ==>
      points[i].dimension == old(points[i].dimension) && points[i].val == old(points[i].val)
    ensures forall i :: 0 <= i < |points| ==>
      points[i].category == if root.Nil? then old(points[i].category) else Predict(root, points[i].dimension)
  {
    if root.Nil? {
      return;
    }
    for i := 0 to |points|
      invariant forall p :: 0 <= p < |points| ==>
        points[p].dimension == old(points[p].dimension) && points[p].val == old(points[p].val)
      invariant forall p :: 0 <= p < i ==> points[p].category == Predict(root, points[p].dimension)
    {
      var cat := Descend(root, points[i].dimension);
      points[i].category := cat;
    }
  }

  // ---------------------------------------------------------------- accuracy

  /** Per category (entry c-1 for category c), how many of the first n samples the tree labels correctly. */
  function CorrectTo(ps: seq<Sample>, t: Tree, n: nat, k: nat): (r: seq<int>)
    requires n <= |ps| && t.Tree? && forall i :: 0 <= i < |ps| ==> Planes(t, |ps[i].x|)
    ensures |r| == k
  {
    if n == 0 then seq(k, _ => 0)
    else
      var r := CorrectTo(ps, t, n - 1, k);
      var c := ps[n - 1].cat;
      if 1 <= c <= k && Predict(t, ps[n - 1].x) == c then r[c - 1 := r[c - 1] + 1] else r
  }

  /** Per category, how many of the first n samples the tree labels incorrectly. */
  function IncorrectTo(ps: seq<Sample>, t: Tree, n: nat, k: nat): (r: seq<int>)
    requires n <= |ps| && t.Tree? && forall i :: 0 <= i < |ps| ==> Planes(t, |ps[i].x|)
    ensures |r| == k
  {
    if n == 0 then seq(k, _ => 0)
    else
      var r := IncorrectTo(ps, t, n - 1, k);
      var c := ps[n - 1].cat;
      if 1 <= c <= k && Predict(t, ps[n - 1].x) != c then r[c - 1 := r[c - 1] + 1] else r
  }

  /** Every sample labelled c is counted once, as correct or as incorrect. */
  lemma {:induction false} CorrectPlusIncorrect(ps: seq<Sample>, t: Tree, n: nat, k: nat, c: nat)
    requires n <= |ps| && t.Tree? && forall i :: 0 <= i < |ps| ==> Planes(t, |ps[i].x|)
    requires c < k
    ensures CorrectTo(ps, t, n, k)[c] + IncorrectTo(ps, t, n, k)[c] == TallyTo(SampleCats(ps), n, k)[c]
  {
    if n > 0 {
      CorrectPlusIncorrect(ps, t, n - 1, k, c);
    }
  }

  /** The correct predictions among the first n samples number at most n, and none is negative. */
  lemma {:induction false} CorrectTotal(ps: seq<Sample>, t: Tree, n: nat, k: nat)
    requires n <= |ps| && t.Tree? && forall i :: 0 <= i < |ps| ==> Planes(t, |ps[i].x|)
    ensures 0 <= Sum(CorrectTo(ps, t, n, k)) <= n
    ensures NonNegative(CorrectTo(ps, t, n, k))
  {
    var r := CorrectTo(ps, t, n, k);
    if n == 0 {
      ZerosSum(k, k);
    } else {
      var q := CorrectTo(ps, t, n - 1, k);
      CorrectTotal(ps, t, n - 1, k);
      var c := ps[n - 1].cat;
      if 1 <= c <= k && Predict(t, ps[n - 1].x) == c {
        SumIncrement(q, k, c - 1, 1);
      }
    }
  }

  /** result.class for the first n categories: the number correct in each, then the number labelled with it. */
  function ClassTally(correct: seq<int>, incorrect: seq<int>, n: nat): (r: seq<int>)
    requires n <= |correct| == |incorrect|
    ensures |r| == 2 * n
  {
    if n == 0 then [] else ClassTally(correct, incorrect, n - 1) + [correct[n - 1], correct[n - 1] + incorrect[n - 1]]
  }

  /** Entry 2(c-1) of result.class is the number correct in category c, entry 2(c-1)+1 the number labelled c. */
  lemma {:induction false} ClassTallyEntries(correct: seq<int>, incorrect: seq<int>, n: nat, c: nat)
    requires n <= |correct| == |incorrect| && c < n
    ensures ClassTally(correct, incorrect, n)[2 * c] == correct[c]
    ensures ClassTally(correct, incorrect, n)[2 * c + 1] == correct[c] + incorrect[c]
  {
    if c < n - 1 {
      ClassTallyEntries(correct, incorrect, n - 1, c);
    }
  }

  /** 100·correct/n; with no points the division is 0/0, a NaN, written None. */
  function Accuracy(correct: int, n: nat): Option<real>
  {
    if n == 0 then None else Some(100.0 * correct as real / n as real)
  }

  /** struct test_outcome: leaf count, depth, accuracy and the per-category tallies. */
  datatype TestOutcome = TestOutcome(leafCount: nat, treeDepth: nat, accuracy: Option<real>, classTally: seq<int>)

  /** What estimate_accuracy reports for the samples and a non-empty tree. */
  function OutcomeOf(ps: seq<Sample>, t: Tree, k: nat): TestOutcome
    requires t.Tree? && forall i :: 0 <= i < |ps| ==> Planes(t, |ps[i].x|)
  {
    var correct := CorrectTo(ps, t, |ps|, k);
    TestOutcome(LeafCount(t), TreeDepth(t), Accuracy(Sum(correct), |ps|),
                ClassTally(correct, IncorrectTo(ps, t, |ps|, k), k))
  }

  /** The tally loop of estimate_accuracy: each point counts as correct or incorrect in its own category. */
  method CountPredictions(points: seq<Point>, ghost ps: seq<Sample>, root: Tree, d: nat, k: nat)
    returns (correct: array<int>, incorrect: array<int>)
    requires Snapshot(points, ps) && SamplesWellFormed(ps, d, k) && Planes(root, d) && root.Tree?
    ensures fresh(correct) && fresh(incorrect)
    ensures correct[..] == CorrectTo(ps, root, |ps|, k) && incorrect[..] == IncorrectTo(ps, root, |ps|, k)
  {
    correct := new int[k](_ => 0);
    incorrect := new int[k](_ => 0);
    for i := 0 to |points|
      modifies correct, incorrect
      invariant correct[..] == CorrectTo(ps, root, i, k) && incorrect[..] == IncorrectTo(ps, root, i, k)
    {
      CountPoint(correct, incorrect, root, points[i], ps, i, k);
    }
  }

  /** One pass of the tally loop: the point at index i of the samples adds one to its category, correct or not. */
  method CountPoint(correct: array<int>, incorrect: array<int>, root: Tree, pt: Point, ghost ps: seq<Sample>, ghost i: nat, k: nat)
    requires i < |ps| && root.Tree? && forall j :: 0 <= j < |ps| ==> Planes(root, |ps[j].x|)
    requires pt.dimension == ps[i].x && pt.category == ps[i].cat && 1 <= pt.category <= k
    requires correct != incorrect && correct[..] == CorrectTo(ps, root, i, k) && incorrect[..] == IncorrectTo(ps, root, i, k)
    modifies correct, incorrect
    ensures correct[..] == CorrectTo(ps, root, i + 1, k) && incorrect[..] == IncorrectTo(ps, root, i + 1, k)
  {
    var cat := Descend(root, pt.dimension);
    var c := pt.category;
    if cat == c {
      correct[c - 1] := correct[c - 1] + 1;
    } else {
      incorrect[c - 1] := incorrect[c - 1] + 1;
    }
  }

  /** total_corrects: the sum of the per-category counts. */
  method Total(a: array<int>) returns (t: int)
    ensures t == Sum(a[..])
  {
    t := 0;
    for c := 0 to a.Length
      invariant t == SumTo(a[..], c)
    {
      t := t + a[c];
    }
  }

  /** The result.class array: for each category its number correct, then its number of points. */
  method TallyArray(correct: array<int>, incorrect: array<int>) returns (tally: array<int>)
    requires correct.Length == incorrect.Length
    ensures fresh(tally) && tally[..] == ClassTally(correct[..], incorrect[..], correct.Length)
  {
    var k := correct.Length;
    tally := new int[2 * k];
    ghost var t: seq<int> := [];
    for c := 0 to k
      modifies tally
      invariant t == ClassTally(correct[..], incorrect[..], c)
      invariant forall j :: 0 <= j < 2 * c ==> tally[j] == t[j]
    {
      tally[2 * c] := correct[c];
      tally[2 * c + 1] := correct[c] + incorrect[c];
      t := t + [correct[c], correct[c] + incorrect[c]];
    }
    assert tally[..] == t;
  }

  const EmptyTree := "Esimate_Accuracy : Called with empty decision tree."

  /**
   * The accuracy is a percentage, and the per-category entries of the tally
   * count every labelled sample once: the totals of the odd entries add up
   * to the number of samples.
   */
  lemma OutcomeMeaning(ps: seq<Sample>, t: Tree, d: nat, k: nat)
    requires t.Tree? && SamplesWellFormed(ps, d, k) && |ps| > 0 && Planes(t, d)
    ensures OutcomeOf(ps, t, k).accuracy.Some?
    ensures 0.0 <= OutcomeOf(ps, t, k).accuracy.value <= 100.0
    ensures forall c :: 0 <= c < k ==>
      OutcomeOf(ps, t, k).classTally[2 * c + 1] == Tally(SampleCats(ps), k)[c]
  {
    var n := |ps|;
    CorrectTotal(ps, t, n, k);
    Percentage(Sum(CorrectTo(ps, t, n, k)), n);
    forall c | 0 <= c < k
      ensures OutcomeOf(ps, t, k).classTally[2 * c + 1] == Tally(SampleCats(ps), k)[c]
    {
      CorrectPlusIncorrect(ps, t, n, k, c);
      ClassTallyEntries(CorrectTo(ps, t, n, k), IncorrectTo(ps, t, n, k), k, c);
    }
  }

  /** s out of n, as a percentage, lies in 0..100. */
  lemma Percentage(s: int, n: nat)
    requires 0 <= s <= n && n > 0
    ensures 0.0 <= 100.0 * s as real / n as real <= 100.0
  {
    var q := 100.0 * s as real / n as real;
    assert q * n as real == 100.0 * s as real;
    assert 100.0 * s as real <= 100.0 * n as real;
  }

  /**
   * estimate_accuracy: fatal on an empty tree; otherwise classify every
   * point, tally correct and incorrect predictions per category of the
   * point's own label, and report them with the accuracy.
   */
  method EstimateAccuracy(points: seq<Point>, ghost ps: seq<Sample>, root: Tree, d: nat, k: nat)
    returns (r: Result<TestOutcome>)
    requires Snapshot(points, ps) && SamplesWellFormed(ps, d, k) && Planes(root, d)
    ensures root.Nil? ==> r == Fatal(EmptyTree)
    ensures root.Tree? ==> r == Ok(OutcomeOf(ps, root, k))
  {
    if root.Nil? {
      return Fatal(EmptyTree);
    }
    var correct, incorrect := CountPredictions(points, ps, root, d, k);
    var totalCorrects := Total(correct);
    var accuracy := if |points| == 0 then None else Some(100.0 * totalCorrects as real / |points| as real);
    var tally := TallyArray(correct, incorrect);
    assert correct[..] == CorrectTo(ps, root, |ps|, k) && incorrect[..] == IncorrectTo(ps, root, |ps|, k);
    assert totalCorrects == Sum(CorrectTo(ps, root, |ps|, k));
    assert accuracy == Accuracy(Sum(CorrectTo(ps, root, |ps|, k)), |ps|);
    r := Ok(TestOutcome(LeafCount(root), TreeDepth(root), accuracy, tally[..]));
  }
}
