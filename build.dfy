/**
 * Growing the tree (build_tree, build_subtree and create_tree_node of
 * mktree.c): at each node the counts of the node's points are taken, a
 * split is searched for (axis-parallel, CART or oblique, with the oblique
 * search run on normalised points), the node is created when the split
 * lowers the impurity, and the points are divided by the sign of their
 * value and handed to the children, whose labels extend the node's label
 * by "l" or "r". A side whose points are all of one category gets no child.
 */
module Build {
  import opened Wrappers
  import opened Oc1
  import opened Counts
  import opened Trees
  import Prune
  import Mktree
  import Oblique
  import Normalize
  import Util

  // ----- Dividing the points -----

  /** The items among the first n of s whose value is negative, in order. */
  function LeftOf<T>(s: seq<T>, vals: seq<real>, n: nat): seq<T>
    requires n <= |s| && n <= |vals|
  {
    if n == 0 then [] else LeftOf(s, vals, n - 1) + (if vals[n - 1] < 0.0 then [s[n - 1]] else [])
  }

  /** The items among the first n of s whose value is not negative, in order. */
  function RightOf<T>(s: seq<T>, vals: seq<real>, n: nat): seq<T>
    requires n <= |s| && n <= |vals|
  {
    if n == 0 then [] else RightOf(s, vals, n - 1) + (if vals[n - 1] < 0.0 then [] else [s[n - 1]])
  }

  /** Every one of the first n items goes to exactly one side. */
  lemma {:induction false} SidesLength<T>(s: seq<T>, vals: seq<real>, n: nat)
    requires n <= |s| && n <= |vals|
    ensures |LeftOf(s, vals, n)| + |RightOf(s, vals, n)| == n
  {
    if n > 0 {
      SidesLength(s, vals, n - 1);
    }
  }

  /** An item is on the left exactly when one of the first n positions holds it with a negative value; likewise on the right. */
  lemma SidesMembers<T>(s: seq<T>, vals: seq<real>, n: nat, x: T)
    requires n <= |s| && n <= |vals|
    ensures x in LeftOf(s, vals, n) <==> exists i :: 0 <= i < n && s[i] == x && vals[i] < 0.0
    ensures x in RightOf(s, vals, n) <==> exists i :: 0 <= i < n && s[i] == x && !(vals[i] < 0.0)
  {
    LeftMembers(s, vals, n, x);
    RightMembers(s, vals, n, x);
  }

  lemma {:induction false} LeftMembers<T>(s: seq<T>, vals: seq<real>, n: nat, x: T)
    requires n <= |s| && n <= |vals|
    ensures x in LeftOf(s, vals, n) <==> exists i :: 0 <= i < n && s[i] == x && vals[i] < 0.0
  {
    if n > 0 {
      LeftMembers(s, vals, n - 1, x);
      if vals[n - 1] < 0.0 {
        assert LeftOf(s, vals, n) == LeftOf(s, vals, n - 1) + [s[n - 1]];
      } else {
        assert LeftOf(s, vals, n) == LeftOf(s, vals, n - 1);
      }
    }
  }

  lemma {:induction false} RightMembers<T>(s: seq<T>, vals: seq<real>, n: nat, x: T)
    requires n <= |s| && n <= |vals|
    ensures x in RightOf(s, vals, n) <==> exists i :: 0 <= i < n && s[i] == x && !(vals[i] < 0.0)
  {
    if n > 0 {
      RightMembers(s, vals, n - 1, x);
      if vals[n - 1] < 0.0 {
        assert RightOf(s, vals, n) == RightOf(s, vals, n - 1);
      } else {
        assert RightOf(s, vals, n) == RightOf(s, vals, n - 1) + [s[n - 1]];
      }
    }
  }

  /** l and r together hold the items of s, each as often as s does. */
  ghost predicate Partitions<T>(l: seq<T>, r: seq<T>, s: seq<T>)
  {
    multiset(l) + multiset(r) == multiset(s)
  }

  /** The two sides together are the first n items, each once. */
  lemma {:induction false} SidesPermutation<T>(s: seq<T>, vals: seq<real>, n: nat)
    requires n <= |s| && n <= |vals|
    ensures Partitions(LeftOf(s, vals, n), RightOf(s, vals, n), s[..n])
  {
    if n == 0 {
      assert s[..n] == [];
    } else {
      SidesPermutation(s, vals, n - 1);
      SidesStep(s, vals, n);
    }
  }

  /** Taking one more item adds it to exactly one side. */
  lemma SidesStep<T>(s: seq<T>, vals: seq<real>, n: nat)
    requires 0 < n <= |s| && n <= |vals|
    requires Partitions(LeftOf(s, vals, n - 1), RightOf(s, vals, n - 1), s[..n - 1])
    ensures Partitions(LeftOf(s, vals, n), RightOf(s, vals, n), s[..n])
  {
    var l, r, x := LeftOf(s, vals, n - 1), RightOf(s, vals, n - 1), s[n - 1];
    assert s[..n] == s[..n - 1] + [x];
    if vals[n - 1] < 0.0 {
      assert multiset(l + [x]) == multiset(l) + multiset{x};
    } else {
      assert multiset(r + [x]) == multiset(r) + multiset{x};
    }
  }

  /** The categories of the points on each side are the side's categories LeftCats and RightCats count. */
  lemma {:induction false} SidesCats(pts: seq<Point>, vals: seq<real>, n: nat)
    requires n <= |pts| && n <= |vals|
    ensures Cats(LeftOf(pts, vals, n)) == LeftCats(Cats(pts), vals, n)
    ensures Cats(RightOf(pts, vals, n)) == RightCats(Cats(pts), vals, n)
  {
    if n > 0 {
      SidesCats(pts, vals, n - 1);
      var l, r := LeftOf(pts, vals, n - 1), RightOf(pts, vals, n - 1);
      if vals[n - 1] < 0.0 {
        assert Cats(l + [pts[n - 1]]) == Cats(l) + [pts[n - 1].category];
        assert Cats(r + []) == Cats(r);
      } else {
        assert Cats(l + []) == Cats(l);
        assert Cats(r + [pts[n - 1]]) == Cats(r) + [pts[n - 1].category];
      }
    }
  }

  /** Each side of a pointer array without repeats has no repeats either. */
  lemma {:induction false} SidesDistinct(pts: seq<Point>, vals: seq<real>, n: nat)
    requires n <= |pts| && n <= |vals| && Distinct(pts)
    ensures Distinct(LeftOf(pts, vals, n)) && Distinct(RightOf(pts, vals, n))
  {
    if n > 0 {
      SidesDistinct(pts, vals, n - 1);
      var l, r := LeftOf(pts, vals, n - 1), RightOf(pts, vals, n - 1);
      SidesMembers(pts, vals, n - 1, pts[n - 1]);
      if vals[n - 1] < 0.0 {
        DistinctSnoc(l, pts[n - 1]);
        assert RightOf(pts, vals, n) == r + [];
      } else {
        DistinctSnoc(r, pts[n - 1]);
        assert LeftOf(pts, vals, n) == l + [];
      }
    }
  }

  lemma DistinctSnoc(s: seq<Point>, p: Point)
    requires Distinct(s) && p !in s
    ensures Distinct(s + [p])
  {
  }

  /** The count vectors of the two sides add up, category by category, to the count vector of all n items. */
  lemma {:induction false} SidesTally(cats: seq<int>, vals: seq<real>, n: nat, k: nat)
    requires n <= |cats| && n <= |vals|
    ensures Prune.Combined(Tally(LeftCats(cats, vals, n), k), Tally(RightCats(cats, vals, n), k)) == TallyTo(cats, n, k)
  {
    if n > 0 {
      SidesTally(cats, vals, n - 1, k);
      var l, r := LeftCats(cats, vals, n - 1), RightCats(cats, vals, n - 1);
      var c := cats[n - 1];
      if vals[n - 1] < 0.0 {
        assert LeftCats(cats, vals, n) == l + [c];
        assert RightCats(cats, vals, n) == r + [] == r;
        TallySnoc(l, c, k);
      } else {
        assert LeftCats(cats, vals, n) == l + [] == l;
        assert RightCats(cats, vals, n) == r + [c];
        TallySnoc(r, c, k);
      }
    }
  }

  /**
   * The partition loop of build_subtree: the points of negative value go to
   * the left array and the others to the right one, in order, each array
   * filled only when it was allocated (the side is not homogeneous).
   */
  method SplitPoints(pts: seq<Point>, wantLeft: bool, wantRight: bool) returns (lpoints: seq<Point>, rpoints: seq<Point>)
    ensures lpoints == (if wantLeft then LeftOf(pts, Vals(pts), |pts|) else [])
    ensures rpoints == (if wantRight then RightOf(pts, Vals(pts), |pts|) else [])
  {
    ghost var vals := Vals(pts);
    lpoints, rpoints := [], [];
    for i := 0 to |pts|
      invariant lpoints == (if wantLeft then LeftOf(pts, vals, i) else [])
      invariant rpoints == (if wantRight then RightOf(pts, vals, i) else [])
    {
      if pts[i].val < 0.0 {
        if wantLeft {
          lpoints := lpoints + [pts[i]];
        }
      } else {
        if wantRight {
          rpoints := rpoints + [pts[i]];
        }
      }
    }
  }

  // ----- The node -----

  /**
   * create_tree_node: a node holding a copy of the current hyperplane and
   * count vectors, whose categories on either side are the first
   * categories of largest count. The alpha field, which the source leaves
   * uninitialised, is 0; the label and point count are set by the caller.
   */
  method CreateTreeNode(w: Workspace) returns (node: Node)
    requires w.Valid()
    ensures node.coefficients == w.coeffArray[..]
    ensures node.leftCount == w.leftCount[..] && node.rightCount == w.rightCount[..]
    ensures node.leftCat == FirstMax(w.leftCount[..]) && node.rightCat == FirstMax(w.rightCount[..])
    ensures node.alpha == 0.0 && node.nodeLabel == "" && node.noOfPoints == 0
  {
    var leftCat := LargestElement(w.leftCount, w.noOfCategories);
    var rightCat := LargestElement(w.rightCount, w.noOfCategories);
    node := Node(w.coeffArray[..], w.leftCount[..], w.rightCount[..], leftCat, rightCat, "", 0.0, 0);
  }

  /** The lpt/rpt loop of build_subtree: the number of points on either side. */
  method SideTotals(w: Workspace) returns (lpt: int, rpt: int)
    requires w.Valid()
    ensures lpt == Sum(w.leftCount[..]) && rpt == Sum(w.rightCount[..])
  {
    lpt, rpt := 0, 0;
    for i := 0 to w.noOfCategories
      invariant lpt == SumTo(w.leftCount[..], i) && rpt == SumTo(w.rightCount[..], i)
    {
      lpt := lpt + w.leftCount[i];
      rpt := rpt + w.rightCount[i];
    }
  }

  // ----- The split search of build_subtree -----

  /** axis_parallel_split as build_subtree uses it: the best axis-parallel hyperplane becomes the current one, marked as modified. */
  method AxisStage(w: Workspace, pts: seq<Point>, measure: Measure, rng: Util.Oracle)
    returns (err: real, ghost j: nat, ghost bias: real)
    requires w.Valid() && rng.Valid() && Distinct(pts) && WellFormed(pts, w.noOfDimensions, w.noOfCategories)
    requires 1 <= w.noOfDimensions && |pts| <= w.candidates.Length
    modifies w.coeffArray, w.candidates, w.leftCount, w.rightCount, pts, w`coeffModified, rng`index
    ensures Mktree.SameFeatures(pts, old(Samples(pts))) && WellFormed(pts, w.noOfDimensions, w.noOfCategories)
    ensures w.coeffModified && j < w.noOfDimensions && w.coeffArray[..] == Mktree.AxisPlane(w.noOfDimensions, j, bias)
  {
    ghost var ps, rs;
    err, ps, rs := Mktree.AxisParallelSplit(w, pts, measure, rng);
    j, bias := rs[|rs| - 1].kept.at, rs[|rs| - 1].kept.bias;
    assert forall i :: 0 <= i < |pts| ==> pts[i].dimension == ps[i].x && pts[i].category == ps[i].cat;
  }

  /** The loop of build_subtree that zeroes attribute_min after unnormalising. */
  method ClearMinima(w: Workspace)
    requires w.Valid()
    modifies w.attributeMin
    ensures w.attributeMin[..] == Zeros(w.noOfDimensions)
  {
    for i := 0 to w.noOfDimensions
      modifies w.attributeMin
      invariant forall a :: 0 <= a < i ==> w.attributeMin[a] == 0.0
    {
      w.attributeMin[i] := 0.0;
    }
  }

  /** The hyperplane values a translated point takes are those of the unnormalised hyperplane at the original point. */
  lemma RestoredMatch(pts: seq<Point>, xs: seq<seq<real>>, c: seq<real>, m: seq<real>)
    requires |xs| == |pts| && |c| == |m| + 1
    requires forall i :: 0 <= i < |pts| ==> |xs[i]| == |m| && pts[i].dimension == xs[i]
    requires forall i :: 0 <= i < |pts| ==> pts[i].val == HyperplaneValue(c, Normalize.Translated(xs[i], m))
    ensures ValsMatch(pts, Normalize.UnnormalizedPlane(c, m))
  {
    forall i | 0 <= i < |pts|
      ensures pts[i].val == HyperplaneValue(Normalize.UnnormalizedPlane(c, m), pts[i].dimension)
    {
      Normalize.UnnormalizedValue(c, m, xs[i]);
    }
  }

  /** oblique_split as build_subtree uses it: the points keep their features and their cached values are those of the best hyperplane found, now the current one. */
  method ObliqueStep(w: Workspace, pts: seq<Point>, opts: Options, cycleCount: int, fuel: nat, measure: Measure, rng: Util.Oracle)
    returns (err: real, cycleCount': int, ghost ends: seq<Oblique.Restart>, ghost b: nat)
    requires w.Valid() && rng.Valid() && Distinct(pts) && WellFormed(pts, w.noOfDimensions, w.noOfCategories)
    requires |pts| <= w.candidates.Length
    modifies w.coeffArray, w.modifiedCoeffArray, w.bestCoeffArray, w.candidates, w.tempVal, w.leftCount, w.rightCount
    modifies pts, w`coeffModified, w`noOfStagnantPerturbations, rng`index
    ensures Mktree.SameFeatures(pts, old(Samples(pts))) && WellFormed(pts, w.noOfDimensions, w.noOfCategories)
    ensures !w.coeffModified && ValsMatch(pts, w.coeffArray[..])
    ensures 1 <= |ends| && Oblique.Searched(ends, b, err, ends[0].plane, opts.noOfRestarts)
    ensures w.coeffArray[..] == ends[b].plane
  {
    ghost var ps, start;
    err, cycleCount', ps, start, ends, b := Oblique.ObliqueSplit(w, pts, opts, cycleCount, fuel, measure, rng);
  }

  /**
   * unnormalize_data, unnormalize_hyperplane and the clearing of
   * attribute_min: points translated from xs by the minima m get back
   * their features, and the hyperplane c their values matched moves so
   * that they match it at the original features.
   */
  method Unnormalize(w: Workspace, pts: seq<Point>, ghost xs: seq<seq<real>>, ghost c: seq<real>)
    requires w.Valid() && Distinct(pts) && |xs| == |pts| && c == w.coeffArray[..]
    requires forall i :: 0 <= i < |pts| ==> |xs[i]| == w.noOfDimensions && pts[i].dimension == Normalize.Translated(xs[i], w.attributeMin[..])
    requires ValsMatch(pts, c)
    modifies w.coeffArray, w.attributeMin, pts
    ensures forall i :: 0 <= i < |pts| ==> pts[i].dimension == xs[i] && pts[i].category == old(pts[i].category)
    ensures ValsMatch(pts, w.coeffArray[..]) && w.coeffArray[..] == Normalize.UnnormalizedPlane(c, old(w.attributeMin[..]))
    ensures w.attributeMin[..] == Zeros(w.noOfDimensions)
  {
    ghost var m := w.attributeMin[..];
    assert forall i :: 0 <= i < |pts| ==> pts[i].val == HyperplaneValue(c, Normalize.Translated(xs[i], m));
    Normalize.UnnormalizeData(w, pts);
    forall i | 0 <= i < |pts|
      ensures pts[i].dimension == xs[i]
    {
      Normalize.RestoredTranslated(xs[i], m);
    }
    Normalize.UnnormalizeHyperplane(w);
    RestoredMatch(pts, xs, c, m);
    ClearMinima(w);
  }

  /**
   * The oblique search of build_subtree with its normalisation: when
   * normalize is set the points are translated into the positive quadrant,
   * oblique_split runs on them, and the points, the hyperplane and
   * attribute_min are put back, so that the points keep their features and
   * the unnormalised hyperplane takes at every original point the value
   * cached for it. m is attribute_min while the search runs.
   */
  method NormalizedOblique(w: Workspace, pts: seq<Point>, opts: Options, cycleCount: int, fuel: nat, measure: Measure, rng: Util.Oracle)
    returns (err: real, cycleCount': int, ghost ends: seq<Oblique.Restart>, ghost b: nat, ghost m: seq<real>)
    requires w.Valid() && rng.Valid() && Distinct(pts) && WellFormed(pts, w.noOfDimensions, w.noOfCategories)
    requires 1 <= |pts| <= w.candidates.Length
    modifies w.coeffArray, w.modifiedCoeffArray, w.bestCoeffArray, w.candidates, w.tempVal, w.leftCount, w.rightCount
    modifies w.attributeMin, pts, w`coeffModified, w`noOfStagnantPerturbations, rng`index
    ensures Mktree.SameFeatures(pts, old(Samples(pts))) && WellFormed(pts, w.noOfDimensions, w.noOfCategories)
    ensures !w.coeffModified && ValsMatch(pts, w.coeffArray[..])
    ensures 1 <= |ends| && Oblique.Searched(ends, b, err, ends[0].plane, opts.noOfRestarts)
    ensures |ends[b].plane| == w.noOfDimensions + 1
    ensures |m| == w.noOfDimensions
    ensures opts.normalize ==>
      && Normalize.Minima(old(Normalize.Dims(pts)), m)
      && w.coeffArray[..] == Normalize.UnnormalizedPlane(ends[b].plane, m)
      && w.attributeMin[..] == Zeros(w.noOfDimensions)
    ensures !opts.normalize ==> w.coeffArray[..] == ends[b].plane && w.attributeMin[..] == old(w.attributeMin[..])
  {
    ghost var ps0 := Samples(pts);
    ghost var xs := Normalize.Dims(pts);
    if opts.normalize {
      Normalize.NormalizeData(w, pts);
    }
    m := w.attributeMin[..];
    err, cycleCount', ends, b := ObliqueStep(w, pts, opts, cycleCount, fuel, measure, rng);
    if opts.normalize {
      Unnormalize(w, pts, xs, w.coeffArray[..]);
    }
    assert forall i :: 0 <= i < |pts| ==> pts[i].dimension == ps0[i].x && pts[i].category == ps0[i].cat;
  }

  /** The copy of ap_coeff_array back into coeff_array. */
  method RestoreCoefficients(w: Workspace, ap: seq<real>)
    requires w.Valid() && |ap| == w.noOfDimensions + 1
    modifies w.coeffArray
    ensures w.coeffArray[..] == ap
  {
    for i := 0 to w.noOfDimensions + 1
      modifies w.coeffArray
      invariant forall a :: 0 <= a < i ==> w.coeffArray[a] == ap[a]
    {
      w.coeffArray[i] := ap[i];
    }
  }

  /**
   * The oblique stage of build_subtree: the current hyperplane is saved,
   * the oblique search runs (with normalisation when it is set), and its
   * hyperplane is kept only when ap_bias times its impurity is below the
   * current impurity; otherwise the saved hyperplane comes back, marked as
   * modified, and the impurity stays. obl is the oblique search's result,
   * the least impurity over its restarts.
   */
  method ObliqueStage(w: Workspace, pts: seq<Point>, opts: Options, cur: real, cycleCount: int, fuel: nat, measure: Measure,
                      rng: Util.Oracle)
    returns (cur': real, cycleCount': int, obl: real, ghost ends: seq<Oblique.Restart>, ghost b: nat)
    requires w.Valid() && rng.Valid() && Distinct(pts) && WellFormed(pts, w.noOfDimensions, w.noOfCategories)
    requires 1 <= |pts| <= w.candidates.Length
    modifies w.coeffArray, w.modifiedCoeffArray, w.bestCoeffArray, w.candidates, w.tempVal, w.leftCount, w.rightCount
    modifies w.attributeMin, pts, w`coeffModified, w`noOfStagnantPerturbations, rng`index
    ensures Mktree.SameFeatures(pts, old(Samples(pts))) && WellFormed(pts, w.noOfDimensions, w.noOfCategories)
    ensures 1 <= |ends| && Oblique.Searched(ends, b, obl, ends[0].plane, opts.noOfRestarts)
    ensures opts.apBias * obl >= cur ==> cur' == cur && w.coeffArray[..] == old(w.coeffArray[..]) && w.coeffModified
    ensures opts.apBias * obl < cur ==> cur' == obl && !w.coeffModified && ValsMatch(pts, w.coeffArray[..])
    ensures w.attributeMin[..] == if opts.normalize then Zeros(w.noOfDimensions) else old(w.attributeMin[..])
  {
    var ap := w.coeffArray[..];
    ghost var m;
    obl, cycleCount', ends, b, m := NormalizedOblique(w, pts, opts, cycleCount, fuel, measure, rng);
    if opts.apBias * obl >= cur {
      RestoreCoefficients(w, ap);
      w.coeffModified := true;
      cur' := cur;
    } else {
      cur' := obl;
    }
  }

  /** cart_split as build_subtree uses it: the points keep their features and, the hyperplane having been marked as modified, its values are those of the hyperplane cart_split leaves. */
  method CartStage(w: Workspace, pts: seq<Point>, measure: Measure, rng: Util.Oracle) returns (err: real, cycles: int)
    requires w.Valid() && rng.Valid() && Distinct(pts) && WellFormed(pts, w.noOfDimensions, w.noOfCategories)
    requires |pts| <= w.candidates.Length
    modifies w.coeffArray, w.modifiedCoeffArray, w.candidates, w.leftCount, w.rightCount, pts, w`coeffModified, rng`index
    ensures Mktree.SameFeatures(pts, old(Samples(pts))) && WellFormed(pts, w.noOfDimensions, w.noOfCategories)
    ensures 0 <= cycles <= MaxCartCycles + 1
    ensures old(w.coeffModified) ==> ValsMatch(pts, w.coeffArray[..])
  {
    ghost var prev, ps;
    err, cycles, prev, ps := Oblique.CartSplit(w, pts, measure, rng);
  }

  /**
   * The CART branch of build_subtree's choice of split: the best
   * axis-parallel split, refined by cart_split unless its impurity is zero
   * or the node is neither the root nor larger than 2·D points. prior is
   * the axis-parallel impurity and ran says whether cart_split ran.
   */
  method CartChoice(w: Workspace, pts: seq<Point>, nodeStr: string, cycleCount: int, measure: Measure, rng: Util.Oracle)
    returns (cur: real, cycleCount': int, ghost prior: real, ran: bool)
    requires w.Valid() && rng.Valid() && Distinct(pts) && WellFormed(pts, w.noOfDimensions, w.noOfCategories)
    requires 1 <= w.noOfDimensions && |pts| <= w.candidates.Length
    modifies w.coeffArray, w.modifiedCoeffArray, w.candidates, w.leftCount, w.rightCount, pts, w`coeffModified, rng`index
    ensures Mktree.SameFeatures(pts, old(Samples(pts))) && WellFormed(pts, w.noOfDimensions, w.noOfCategories)
    ensures ran <==> prior != 0.0 && (|nodeStr| == 0 || |pts| > 2 * w.noOfDimensions)
    ensures !ran ==> cur == prior && cycleCount' == cycleCount && w.coeffModified
    ensures w.coeffModified || ValsMatch(pts, w.coeffArray[..])
  {
    ghost var ps0 := Samples(pts);
    ghost var j, bias;
    cycleCount' := cycleCount;
    cur, j, bias := AxisStage(w, pts, measure, rng);
    prior := cur;
    ran := cur != 0.0 && (|nodeStr| == 0 || |pts| > 2 * w.noOfDimensions);
    if ran {
      ghost var ps1 := Samples(pts);
      cur, cycleCount' := CartStage(w, pts, measure, rng);
      assert forall i :: 0 <= i < |pts| ==> ps1[i] .x == ps0[i].x && ps1[i].cat == ps0[i].cat;
    }
  }

  /**
   * The branch of build_subtree's choice of split without CART: the
   * axis-parallel split when enabled, then the oblique stage when that
   * left a non-zero impurity, oblique splits are enabled and there are
   * more than 2·D points. prior is the impurity before the oblique stage
   * (that of the unsplit node, `initial`, when axis-parallel splits are
   * off), ran says whether the oblique stage ran, and the points' cached
   * values match the current hyperplane unless it is marked as modified.
   */
  method PlainChoice(w: Workspace, pts: seq<Point>, opts: Options, initial: real, cycleCount: int, fuel: nat,
                     measure: Measure, rng: Util.Oracle)
    returns (cur: real, cycleCount': int, ghost prior: real, ran: bool, obl: real)
    requires w.Valid() && rng.Valid() && Distinct(pts) && WellFormed(pts, w.noOfDimensions, w.noOfCategories)
    requires 1 <= w.noOfDimensions && 1 <= |pts| <= w.candidates.Length
    modifies w.coeffArray, w.modifiedCoeffArray, w.bestCoeffArray, w.candidates, w.tempVal, w.leftCount, w.rightCount
    modifies w.attributeMin, pts, w`coeffModified, w`noOfStagnantPerturbations, rng`index
    ensures Mktree.SameFeatures(pts, old(Samples(pts))) && WellFormed(pts, w.noOfDimensions, w.noOfCategories)
    ensures !opts.axisParallel ==> prior == initial
    ensures ran <==> prior != 0.0 && opts.oblique && |pts| > 2 * w.noOfDimensions
    ensures !ran ==> cur == prior
    ensures ran ==> cur == if opts.apBias * obl >= prior then prior else obl
    ensures opts.axisParallel || ran ==> w.coeffModified || ValsMatch(pts, w.coeffArray[..])
    ensures w.attributeMin[..] == if ran && opts.normalize then Zeros(w.noOfDimensions) else old(w.attributeMin[..])
  {
    ghost var ps0 := Samples(pts);
    cycleCount', obl := cycleCount, 0.0;
    cur := initial;
    if opts.axisParallel {
      ghost var j, bias;
      cur, j, bias := AxisStage(w, pts, measure, rng);
    }
    prior := cur;
    ran := cur != 0.0 && opts.oblique && |pts| > 2 * w.noOfDimensions;
    if ran {
      ghost var ps1 := Samples(pts);
      ghost var ends, b;
      cur, cycleCount', obl, ends, b := ObliqueStage(w, pts, opts, cur, cycleCount', fuel, measure, rng);
      assert forall i :: 0 <= i < |pts| ==> ps1[i] .x == ps0[i].x && ps1[i].cat == ps0[i].cat;
    }
  }

  // ----- The tree -----

  /** The majority category cat of s holds every point of s: the side is homogeneous. */
  predicate Homogeneous(s: seq<int>, cat: int)
  {
    1 <= cat <= |s| && s[cat - 1] == Sum(s)
  }

  /** No node of t has a child on a homogeneous side. */
  predicate PureSidesAreLeaves(t: Tree)
  {
    t.Tree? ==>
      && (Homogeneous(t.node.leftCount, t.node.leftCat) ==> t.left.Nil?)
      && (Homogeneous(t.node.rightCount, t.node.rightCat) ==> t.right.Nil?)
      && PureSidesAreLeaves(t.left) && PureSidesAreLeaves(t.right)
  }

  /** Every label in t leaves room in a MAX_DT_DEPTH buffer for one more character: |label| + 1 <= MAX_DT_DEPTH. */
  predicate Bounded(t: Tree)
  {
    t.Tree? ==> |t.node.nodeLabel| + 1 <= MaxDtDepth && Bounded(t.left) && Bounded(t.right)
  }

  /**
   * The shape of every tree build_subtree grows from a node labelled lbl:
   * labels follow the paths, every node has D+1 coefficients and K counts
   * per side with its majority categories and point total, each child's
   * counts add up to its parent's counts on that side, labels fit the
   * depth limit, and homogeneous sides have no children.
   */
  predicate Grown(t: Tree, lbl: string, d: nat, k: nat)
  {
    && Labelled(t, lbl) && Counted(t, k) && Planes(t, d) && Prune.Sized(t, k) && Prune.Consistent(t)
    && Bounded(t) && PureSidesAreLeaves(t)
  }

  /** The impurity compute_impurity gives a node before any split: every point on the right. */
  function InitialImpurity(cats: seq<int>, k: nat, measure: Measure): real
    requires k >= 1
  {
    Impurity(seq(k, _ => 0), Tally(cats, k), |cats|, measure)
  }

  /** Each side of well-formed points is well formed and made of those points. */
  lemma {:induction false} SidesWellFormed(pts: seq<Point>, vals: seq<real>, n: nat, d: nat, k: nat)
    requires n <= |pts| && n <= |vals|
    ensures forall p :: p in LeftOf(pts, vals, n) ==> p in pts
    ensures forall p :: p in RightOf(pts, vals, n) ==> p in pts
    ensures WellFormed(pts, d, k) ==> WellFormed(LeftOf(pts, vals, n), d, k) && WellFormed(RightOf(pts, vals, n), d, k)
  {
    if n > 0 {
      SidesWellFormed(pts, vals, n - 1, d, k);
    }
  }

  /** The counts of a node: both sides hold K entries and n points in all, and together they are the tally of its points. */
  lemma NodeCounts(cats: seq<int>, vals: seq<real>, k: nat)
    requires |cats| == |vals| && InRange(cats, k)
    ensures Sum(Tally(LeftCats(cats, vals, |cats|), k)) + Sum(Tally(RightCats(cats, vals, |cats|), k)) == |cats|
    ensures Prune.Combined(Tally(LeftCats(cats, vals, |cats|), k), Tally(RightCats(cats, vals, |cats|), k)) == Tally(cats, k)
  {
    var l, r := LeftCats(cats, vals, |cats|), RightCats(cats, vals, |cats|);
    SidesPartition(cats, vals, |cats|, k);
    TallySum(l, |l|, k);
    TallySum(r, |r|, k);
    SidesTally(cats, vals, |cats|, k);
  }

  /**
   * Count vectors l and r and hyperplane c as set_counts leaves them for
   * points of categories cats and features xs: the division of the
   * categories by the sign of vs, which are the values of c at xs, with
   * totals adding up to the number of points.
   */
  ghost predicate SidesBuilt(l: seq<int>, r: seq<int>, c: seq<real>, cats: seq<int>, xs: seq<seq<real>>, vs: seq<real>,
                             k: nat)
  {
    && |cats| == |vs| == |xs| && |l| == |r|
    && Sum(l) + Sum(r) == |cats|
    && Prune.Combined(l, r) == Tally(cats, k)
    && l == Tally(LeftCats(cats, vs, |cats|), k)
    && r == Tally(RightCats(cats, vs, |cats|), k)
    && forall i :: 0 <= i < |xs| ==> |c| == |xs[i]| + 1 && vs[i] == HyperplaneValue(c, xs[i])
  }

  /** What a node says about the points it was grown from: their number and the sides set_counts divided them into. */
  ghost predicate NodeBuilt(node: Node, cats: seq<int>, xs: seq<seq<real>>, vs: seq<real>, k: nat)
  {
    node.noOfPoints == |cats| && SidesBuilt(node.leftCount, node.rightCount, node.coefficients, cats, xs, vs, k)
  }

  /** A node as build_subtree creates it under label lbl. */
  predicate NodeFits(node: Node, lbl: string, d: nat, k: nat)
  {
    NodeCounted(node, k) && |node.coefficients| == d + 1 && node.nodeLabel == lbl && |lbl| + 1 <= MaxDtDepth
  }

  /** A grown child under label lbl whose counts add up to side, its parent's counts on that side. */
  predicate ChildFits(child: Tree, side: seq<int>, lbl: string, d: nat, k: nat)
  {
    && Grown(child, lbl, d, k)
    && (child.Tree? ==> |child.node.leftCount| == |child.node.rightCount|
                        && Prune.Combined(child.node.leftCount, child.node.rightCount) == side)
  }

  /** A node with fitting children and no child on a homogeneous side is a grown tree. */
  lemma GrownNode(node: Node, left: Tree, right: Tree, lbl: string, d: nat, k: nat)
    requires NodeFits(node, lbl, d, k)
    requires ChildFits(left, node.leftCount, lbl + "l", d, k) && ChildFits(right, node.rightCount, lbl + "r", d, k)
    requires Homogeneous(node.leftCount, node.leftCat) ==> left.Nil?
    requires Homogeneous(node.rightCount, node.rightCat) ==> right.Nil?
    ensures Grown(Tree(node, left, right), lbl, d, k)
  {
  }

  /**
   * build_subtree: no node for at most TOO_SMALL_FOR_ANY_SPLIT points, for
   * a label with no room for a child's label, for points that are already
   * pure, or when no split lowers the impurity; otherwise a node on the
   * chosen hyperplane whose non-homogeneous sides are grown the same way.
   * cur is the impurity of the chosen split and vs the values by whose
   * sign the points were divided.
   */
  method BuildSubtree(w: Workspace, nodeStr: string, curPoints: seq<Point>, opts: Options, cycleCount: int, fuel: nat,
                      measure: Measure, rng: Util.Oracle)
    returns (t: Tree, cycleCount': int, cur: real, ghost vs: seq<real>)
    requires w.Valid() && rng.Valid() && Distinct(curPoints) && WellFormed(curPoints, w.noOfDimensions, w.noOfCategories)
    requires 1 <= w.noOfDimensions && |curPoints| <= w.candidates.Length
    modifies w.coeffArray, w.modifiedCoeffArray, w.bestCoeffArray, w.candidates, w.tempVal, w.leftCount, w.rightCount
    modifies w.attributeMin, curPoints, w`coeffModified, w`noOfStagnantPerturbations, rng`index
    decreases MaxDtDepth - |nodeStr|, 4
    ensures forall p :: p in curPoints ==> p.dimension == old(p.dimension) && p.category == old(p.category)
    ensures t.Tree? <==>
      && |curPoints| > TooSmallForAnySplit && |nodeStr| + 1 <= MaxDtDepth
      && InitialImpurity(old(Cats(curPoints)), w.noOfCategories, measure) != 0.0
      && cur < InitialImpurity(old(Cats(curPoints)), w.noOfCategories, measure)
    ensures Grown(t, nodeStr, w.noOfDimensions, w.noOfCategories)
    ensures t.Tree? ==> NodeBuilt(t.node, old(Cats(curPoints)), old(Normalize.Dims(curPoints)), vs, w.noOfCategories)
    ensures t.Tree? && cur == 0.0 ==> t.left.Nil? && t.right.Nil?
  {
    var n := |curPoints|;
    ghost var cats, xs := Cats(curPoints), Normalize.Dims(curPoints);
    cycleCount', cur, vs := cycleCount, 0.0, [];
    if n <= TooSmallForAnySplit {
      return Nil, cycleCount', cur, vs;
    }
    if |nodeStr| + 1 > MaxDtDepth {
      return Nil, cycleCount', cur, vs;
    }
    var initialImpurity := StartImpurity(w, curPoints, measure);
    if initialImpurity == 0.0 {
      return Nil, cycleCount', initialImpurity, vs;
    }
    cur, cycleCount' := ChooseSplit(w, curPoints, nodeStr, opts, initialImpurity, cycleCount', fuel, measure, rng);
    if cur >= initialImpurity {
      return Nil, cycleCount', cur, vs;
    }
    t, cycleCount', vs := GrowNode(w, nodeStr, curPoints, cats, xs, opts, cur, cycleCount', fuel, measure, rng);
  }

  /** The set_counts(0) and compute_impurity calls of build_subtree: the impurity of the node before any split. */
  method StartImpurity(w: Workspace, curPoints: seq<Point>, measure: Measure) returns (initialImpurity: real)
    requires w.Valid() && Distinct(curPoints) && WellFormed(curPoints, w.noOfDimensions, w.noOfCategories)
    modifies w.leftCount, w.rightCount, curPoints, w`coeffModified
    ensures Cats(curPoints) == old(Cats(curPoints)) && Normalize.Dims(curPoints) == old(Normalize.Dims(curPoints))
    ensures WellFormed(curPoints, w.noOfDimensions, w.noOfCategories) && w.coeffModified == old(w.coeffModified)
    ensures forall i :: 0 <= i < |curPoints| ==> curPoints[i].val == old(curPoints[i].val)
    ensures initialImpurity == InitialImpurity(old(Cats(curPoints)), w.noOfCategories, measure)
  {
    var n := |curPoints|;
    ghost var cats := Cats(curPoints);
    SetCounts(w, curPoints, 0);
    assert Cats(curPoints) == cats;
    ZerosSum(w.noOfCategories, w.noOfCategories);
    TallySum(cats, n, w.noOfCategories);
    initialImpurity := ComputeImpurity(w, n, measure);
  }

  /** The choice of split of build_subtree: CART mode, or the axis-parallel and oblique stages. */
  method ChooseSplit(w: Workspace, curPoints: seq<Point>, nodeStr: string, opts: Options, initial: real, cycleCount: int,
                     fuel: nat, measure: Measure, rng: Util.Oracle)
    returns (cur: real, cycleCount': int)
    requires w.Valid() && rng.Valid() && Distinct(curPoints) && WellFormed(curPoints, w.noOfDimensions, w.noOfCategories)
    requires 1 <= w.noOfDimensions && 1 <= |curPoints| <= w.candidates.Length
    modifies w.coeffArray, w.modifiedCoeffArray, w.bestCoeffArray, w.candidates, w.tempVal, w.leftCount, w.rightCount
    modifies w.attributeMin, curPoints, w`coeffModified, w`noOfStagnantPerturbations, rng`index
    ensures Cats(curPoints) == old(Cats(curPoints)) && Normalize.Dims(curPoints) == old(Normalize.Dims(curPoints))
    ensures WellFormed(curPoints, w.noOfDimensions, w.noOfCategories)
    ensures cur < initial ==> w.coeffModified || ValsMatch(curPoints, w.coeffArray[..])
  {
    ghost var ps := Samples(curPoints);
    ghost var prior, ran, obl;
    if opts.cartMode {
      cur, cycleCount', prior, ran := CartChoice(w, curPoints, nodeStr, cycleCount, measure, rng);
    } else {
      cur, cycleCount', prior, ran, obl := PlainChoice(w, curPoints, opts, initial, cycleCount, fuel, measure, rng);
    }
    assert forall i :: 0 <= i < |curPoints| ==> curPoints[i].dimension == ps[i].x && curPoints[i].category == ps[i].cat;
  }

  /**
   * The values and counts brought up to date once a split is chosen
   * (find_values, set_counts), the node created on it, and the number of
   * points on either side (lpt, rpt). vs are the values afterwards.
   */
  method PrepareNode(w: Workspace, nodeStr: string, curPoints: seq<Point>, ghost cats: seq<int>, ghost xs: seq<seq<real>>)
    returns (node: Node, lpt: int, rpt: int, ghost vs: seq<real>)
    requires w.Valid() && Distinct(curPoints) && WellFormed(curPoints, w.noOfDimensions, w.noOfCategories)
    requires |nodeStr| + 1 <= MaxDtDepth
    requires w.coeffModified || ValsMatch(curPoints, w.coeffArray[..])
    requires cats == Cats(curPoints) && xs == Normalize.Dims(curPoints)
    modifies w.leftCount, w.rightCount, curPoints, w`coeffModified
    ensures cats == Cats(curPoints) && xs == Normalize.Dims(curPoints) && WellFormed(curPoints, w.noOfDimensions, w.noOfCategories)
    ensures vs == Vals(curPoints)
    ensures NodeFits(node, nodeStr, w.noOfDimensions, w.noOfCategories) && node.alpha == 0.0
    ensures NodeBuilt(node, cats, xs, vs, w.noOfCategories)
    ensures lpt == Sum(node.leftCount) && rpt == Sum(node.rightCount)
  {
    vs := CountSides(w, curPoints, cats, xs);
    lpt, rpt := SideTotals(w);
    node := CreateTreeNode(w);
    node := node.(noOfPoints := |curPoints|, nodeLabel := nodeStr);
  }

  /** The find_values and set_counts calls of build_subtree once a split is chosen. */
  method CountSides(w: Workspace, curPoints: seq<Point>, ghost cats: seq<int>, ghost xs: seq<seq<real>>)
    returns (ghost vs: seq<real>)
    requires w.Valid() && Distinct(curPoints) && WellFormed(curPoints, w.noOfDimensions, w.noOfCategories)
    requires w.coeffModified || ValsMatch(curPoints, w.coeffArray[..])
    requires cats == Cats(curPoints) && xs == Normalize.Dims(curPoints)
    modifies w.leftCount, w.rightCount, curPoints, w`coeffModified
    ensures cats == Cats(curPoints) && xs == Normalize.Dims(curPoints) && WellFormed(curPoints, w.noOfDimensions, w.noOfCategories)
    ensures vs == Vals(curPoints) && |vs| == |cats|
    ensures SidesBuilt(w.leftCount[..], w.rightCount[..], w.coeffArray[..], cats, xs, vs, w.noOfCategories)
  {
    ghost var ps := Samples(curPoints);
    FindValues(w, curPoints);
    assert forall i :: 0 <= i < |curPoints| ==> curPoints[i].dimension == ps[i].x && curPoints[i].category == ps[i].cat;
    assert Cats(curPoints) == cats;
    assert Normalize.Dims(curPoints) == xs;
    vs := SetSides(w, curPoints, cats, xs);
  }

  /** The set_counts call of build_subtree, once find_values has brought the values up to date. */
  method SetSides(w: Workspace, curPoints: seq<Point>, ghost cats: seq<int>, ghost xs: seq<seq<real>>)
    returns (ghost vs: seq<real>)
    requires w.Valid() && Distinct(curPoints) && WellFormed(curPoints, w.noOfDimensions, w.noOfCategories)
    requires w.coeffModified || ValsMatch(curPoints, w.coeffArray[..])
    requires cats == Cats(curPoints) && xs == Normalize.Dims(curPoints)
    modifies w.leftCount, w.rightCount, curPoints, w`coeffModified
    ensures cats == Cats(curPoints) && xs == Normalize.Dims(curPoints) && WellFormed(curPoints, w.noOfDimensions, w.noOfCategories)
    ensures vs == Vals(curPoints) && |vs| == |cats|
    ensures SidesBuilt(w.leftCount[..], w.rightCount[..], w.coeffArray[..], cats, xs, vs, w.noOfCategories)
  {
    ghost var ps := Samples(curPoints);
    SetCounts(w, curPoints, 1);
    vs := Vals(curPoints);
    assert forall i :: 0 <= i < |curPoints| ==> curPoints[i].dimension == ps[i].x && curPoints[i].category == ps[i].cat;
    assert Cats(curPoints) == cats;
    assert Normalize.Dims(curPoints) == xs;
    assert ValsMatch(curPoints, w.coeffArray[..]);
    assert InRange(cats, w.noOfCategories);
    CountedSides(w.leftCount[..], w.rightCount[..], w.coeffArray[..], curPoints, cats, xs, vs, w.noOfCategories);
  }

  /** The counts set_counts leaves for the points, read through their categories, features and values. */
  lemma CountedSides(l: seq<int>, r: seq<int>, c: seq<real>, pts: seq<Point>, cats: seq<int>, xs: seq<seq<real>>,
                     vs: seq<real>, k: nat)
    requires cats == Cats(pts) && xs == Normalize.Dims(pts) && vs == Vals(pts) && InRange(cats, k)
    requires l == Tally(LeftCats(cats, vs, |cats|), k) && r == Tally(RightCats(cats, vs, |cats|), k)
    requires ValsMatch(pts, c)
    ensures SidesBuilt(l, r, c, cats, xs, vs, k)
  {
    NodeCounts(cats, vs, k);
  }

  /** The two sides of points without repeats share no point. */
  lemma SidesDisjoint(pts: seq<Point>, vals: seq<real>, n: nat)
    requires n <= |pts| && n <= |vals| && Distinct(pts)
    ensures forall p :: p in LeftOf(pts, vals, n) ==> p !in RightOf(pts, vals, n)
  {
    forall p | p in LeftOf(pts, vals, n)
      ensures p !in RightOf(pts, vals, n)
    {
      SidesMembers(pts, vals, n, p);
    }
  }

  /** What the two sides that build_subtree divides off bring to the recursive calls. */
  lemma SplitReady(pts: seq<Point>, vs: seq<real>, d: nat, k: nat, wantLeft: bool, wantRight: bool,
                   lpoints: seq<Point>, rpoints: seq<Point>, lside: seq<int>, rside: seq<int>)
    requires |vs| == |pts| && Distinct(pts) && WellFormed(pts, d, k)
    requires lpoints == (if wantLeft then LeftOf(pts, vs, |pts|) else [])
    requires rpoints == (if wantRight then RightOf(pts, vs, |pts|) else [])
    requires lside == Tally(LeftCats(Cats(pts), vs, |pts|), k) && rside == Tally(RightCats(Cats(pts), vs, |pts|), k)
    ensures Distinct(lpoints) && WellFormed(lpoints, d, k) && |lpoints| <= |pts|
    ensures Distinct(rpoints) && WellFormed(rpoints, d, k) && |rpoints| <= |pts|
    ensures wantLeft ==> lside == Tally(Cats(lpoints), k)
    ensures wantRight ==> rside == Tally(Cats(rpoints), k)
    ensures forall p :: p in lpoints ==> p !in rpoints
    ensures forall i :: 0 <= i < |lpoints| ==> lpoints[i] in pts
    ensures forall i :: 0 <= i < |rpoints| ==> rpoints[i] in pts
  {
    var n := |pts|;
    SidesLength(pts, vs, n);
    SidesWellFormed(pts, vs, n, d, k);
    SidesDistinct(pts, vs, n);
    SidesCats(pts, vs, n);
    SidesDisjoint(pts, vs, n);
  }

  /**
   * The second half of build_subtree, once a split of impurity cur below
   * the node's has been found: the node is created, and unless cur is zero
   * each side that is not homogeneous is divided off and grown with the
   * label extended by "l" or "r".
   */
  method GrowNode(w: Workspace, nodeStr: string, curPoints: seq<Point>, ghost cats: seq<int>, ghost xs: seq<seq<real>>, opts: Options, cur: real, cycleCount: int, fuel: nat,
                  measure: Measure, rng: Util.Oracle)
    returns (t: Tree, cycleCount': int, ghost vs: seq<real>)
    requires w.Valid() && rng.Valid() && Distinct(curPoints) && WellFormed(curPoints, w.noOfDimensions, w.noOfCategories)
    requires 1 <= w.noOfDimensions && |curPoints| <= w.candidates.Length && |nodeStr| + 1 <= MaxDtDepth
    requires w.coeffModified || ValsMatch(curPoints, w.coeffArray[..])
    requires cats == Cats(curPoints) && xs == Normalize.Dims(curPoints)
    modifies w.coeffArray, w.modifiedCoeffArray, w.bestCoeffArray, w.candidates, w.tempVal, w.leftCount, w.rightCount
    modifies w.attributeMin, curPoints, w`coeffModified, w`noOfStagnantPerturbations, rng`index
    decreases MaxDtDepth - |nodeStr|, 3
    ensures forall p :: p in curPoints ==> p.dimension == old(p.dimension) && p.category == old(p.category)
    ensures t.Tree? && Grown(t, nodeStr, w.noOfDimensions, w.noOfCategories)
    ensures NodeBuilt(t.node, cats, xs, vs, w.noOfCategories)
    ensures cur == 0.0 ==> t.left.Nil? && t.right.Nil?
  {
    var n := |curPoints|;
    var k := w.noOfCategories;
    var node, lpt, rpt;
    node, lpt, rpt, vs := PrepareNode(w, nodeStr, curPoints, cats, xs);
    cycleCount' := cycleCount;
    if cur == 0.0 {
      GrownNode(node, Nil, Nil, nodeStr, w.noOfDimensions, k);
      return Tree(node, Nil, Nil), cycleCount', vs;
    }
    t, cycleCount' := SplitNode(w, nodeStr, curPoints, cats, vs, node, lpt, rpt, opts, cycleCount', fuel, measure, rng);
  }

  /**
   * The tail of build_subtree for a node that splits its points: each side
   * whose majority category does not hold all of its points (lpt, rpt) is
   * divided off by the sign of the points' values and grown.
   */
  method SplitNode(w: Workspace, nodeStr: string, curPoints: seq<Point>, ghost cats: seq<int>, ghost vs: seq<real>, node: Node,
                   lpt: int, rpt: int, opts: Options, cycleCount: int, fuel: nat, measure: Measure, rng: Util.Oracle)
    returns (t: Tree, cycleCount': int)
    requires w.Valid() && rng.Valid() && Distinct(curPoints) && WellFormed(curPoints, w.noOfDimensions, w.noOfCategories)
    requires 1 <= w.noOfDimensions && |curPoints| <= w.candidates.Length && |nodeStr| + 1 <= MaxDtDepth
    requires cats == Cats(curPoints) && vs == Vals(curPoints)
    requires NodeFits(node, nodeStr, w.noOfDimensions, w.noOfCategories)
    requires node.leftCount == Tally(LeftCats(cats, vs, |cats|), w.noOfCategories)
    requires node.rightCount == Tally(RightCats(cats, vs, |cats|), w.noOfCategories)
    requires lpt == Sum(node.leftCount) && rpt == Sum(node.rightCount)
    modifies w.coeffArray, w.modifiedCoeffArray, w.bestCoeffArray, w.candidates, w.tempVal, w.leftCount, w.rightCount
    modifies w.attributeMin, curPoints, w`coeffModified, w`noOfStagnantPerturbations, rng`index
    decreases MaxDtDepth - |nodeStr|, 2
    ensures forall p :: p in curPoints ==> p.dimension == old(p.dimension) && p.category == old(p.category)
    ensures t.Tree? && t.node == node && Grown(t, nodeStr, w.noOfDimensions, w.noOfCategories)
  {
    var k := w.noOfCategories;
    var wantLeft := node.leftCount[node.leftCat - 1] != lpt;
    var wantRight := node.rightCount[node.rightCat - 1] != rpt;
    assert wantLeft == !Homogeneous(node.leftCount, node.leftCat) && wantRight == !Homogeneous(node.rightCount, node.rightCat);
    var lpoints, rpoints := SplitPoints(curPoints, wantLeft, wantRight);
    SplitReady(curPoints, vs, w.noOfDimensions, k, wantLeft, wantRight, lpoints, rpoints, node.leftCount, node.rightCount);
    var left, right;
    left, right, cycleCount' := GrowChildren(w, nodeStr, curPoints, lpoints, rpoints, wantLeft, wantRight, node.leftCount, node.rightCount,
                                             opts, cycleCount, fuel, measure, rng);
    GrownNode(node, left, right, nodeStr, w.noOfDimensions, k);
    t := Tree(node, left, right);
  }

  /** The recursive calls of build_subtree on the two sides, each made only when wanted (lpoints and rpoints are disjoint). */
  method GrowChildren(w: Workspace, nodeStr: string, ghost pts: seq<Point>, lpoints: seq<Point>, rpoints: seq<Point>, wantLeft: bool, wantRight: bool,
                      ghost lside: seq<int>, ghost rside: seq<int>, opts: Options, cycleCount: int, fuel: nat,
                      measure: Measure, rng: Util.Oracle)
    returns (left: Tree, right: Tree, cycleCount': int)
    requires w.Valid() && rng.Valid() && 1 <= w.noOfDimensions && |nodeStr| + 1 <= MaxDtDepth
    requires Distinct(lpoints) && WellFormed(lpoints, w.noOfDimensions, w.noOfCategories) && |lpoints| <= w.candidates.Length
    requires Distinct(rpoints) && WellFormed(rpoints, w.noOfDimensions, w.noOfCategories) && |rpoints| <= w.candidates.Length
    requires wantLeft ==> lside == Tally(Cats(lpoints), w.noOfCategories)
    requires wantRight ==> rside == Tally(Cats(rpoints), w.noOfCategories)
    requires forall p :: p in lpoints ==> p !in rpoints
    requires forall i :: 0 <= i < |lpoints| ==> lpoints[i] in pts
    requires forall i :: 0 <= i < |rpoints| ==> rpoints[i] in pts
    modifies w.coeffArray, w.modifiedCoeffArray, w.bestCoeffArray, w.candidates, w.tempVal, w.leftCount, w.rightCount
    modifies w.attributeMin, pts, w`coeffModified, w`noOfStagnantPerturbations, rng`index
    decreases MaxDtDepth - |nodeStr|, 1
    ensures forall p :: p in pts ==> p.dimension == old(p.dimension) && p.category == old(p.category)
    ensures ChildFits(left, lside, nodeStr + "l", w.noOfDimensions, w.noOfCategories) && (!wantLeft ==> left.Nil?)
    ensures ChildFits(right, rside, nodeStr + "r", w.noOfDimensions, w.noOfCategories) && (!wantRight ==> right.Nil?)
  {
    left, right, cycleCount' := Nil, Nil, cycleCount;
    if wantLeft {
      left, cycleCount' := GrowSide(w, nodeStr + "l", lpoints, lside, opts, cycleCount', fuel, measure, rng);
    }
    assert Cats(rpoints) == old(Cats(rpoints));
    if wantRight {
      right, cycleCount' := GrowSide(w, nodeStr + "r", rpoints, rside, opts, cycleCount', fuel, measure, rng);
    }
  }

  /** One side of a node grown by build_subtree under label lbl from its points, whose tally is the parent's count vector side. */
  method GrowSide(w: Workspace, lbl: string, pts: seq<Point>, ghost side: seq<int>, opts: Options, cycleCount: int, fuel: nat,
                  measure: Measure, rng: Util.Oracle)
    returns (child: Tree, cycleCount': int)
    requires w.Valid() && rng.Valid() && Distinct(pts) && WellFormed(pts, w.noOfDimensions, w.noOfCategories)
    requires 1 <= w.noOfDimensions && |pts| <= w.candidates.Length && 1 <= |lbl| <= MaxDtDepth
    requires side == Tally(Cats(pts), w.noOfCategories)
    modifies w.coeffArray, w.modifiedCoeffArray, w.bestCoeffArray, w.candidates, w.tempVal, w.leftCount, w.rightCount
    modifies w.attributeMin, pts, w`coeffModified, w`noOfStagnantPerturbations, rng`index
    decreases MaxDtDepth - |lbl| + 1, 0
    ensures forall p :: p in pts ==> p.dimension == old(p.dimension) && p.category == old(p.category)
    ensures ChildFits(child, side, lbl, w.noOfDimensions, w.noOfCategories)
  {
    ghost var cur, vs;
    child, cycleCount', cur, vs := BuildSubtree(w, lbl, pts, opts, cycleCount, fuel, measure, rng);
  }

  // ----- The whole tree -----

  /**
   * build_tree: the tree build_subtree grows from all points under the
   * empty label, or the fatal error build_tree reports when not even the
   * root splits. Pruning is disabled in build_tree, so the grown tree is
   * the result.
   */
  method BuildTree(w: Workspace, points: seq<Point>, opts: Options, cycleCount: int, fuel: nat, measure: Measure,
                   rng: Util.Oracle)
    returns (r: Result<Tree>, cycleCount': int, ghost cur: real)
    requires w.Valid() && rng.Valid() && Distinct(points) && WellFormed(points, w.noOfDimensions, w.noOfCategories)
    requires 1 <= w.noOfDimensions && |points| <= w.candidates.Length
    modifies w.coeffArray, w.modifiedCoeffArray, w.bestCoeffArray, w.candidates, w.tempVal, w.leftCount, w.rightCount
    modifies w.attributeMin, points, w`coeffModified, w`noOfStagnantPerturbations, rng`index
    ensures forall p :: p in points ==> p.dimension == old(p.dimension) && p.category == old(p.category)
    ensures r.Ok? <==>
      && |points| > TooSmallForAnySplit
      && InitialImpurity(old(Cats(points)), w.noOfCategories, measure) != 0.0
      && cur < InitialImpurity(old(Cats(points)), w.noOfCategories, measure)
    ensures r.Ok? ==> r.value.Tree? && Grown(r.value, "", w.noOfDimensions, w.noOfCategories)
                      && r.value.node.noOfPoints == |points| && TreeDepth(r.value) <= MaxDtDepth
    ensures r.Fatal? ==> r.message == NoSplitMessage
  {
    var root;
    ghost var vs;
    root, cycleCount', cur, vs := BuildSubtree(w, "", points, opts, cycleCount, fuel, measure, rng);
    if root.Nil? {
      return Fatal(NoSplitMessage), cycleCount', cur;
    }
    DepthWithinLimit(root, "");
    r := Ok(root);
  }

  /** The first line build_tree prints before exiting when the root does not split. */
  const NoSplitMessage := "No split could be found with the current parameter settings."

  /** The label test of build_subtree bounds the depth: a tree grown under label s is at most MAX_DT_DEPTH - |s| deep. */
  lemma {:induction false} DepthWithinLimit(t: Tree, s: string)
    requires Labelled(t, s) && Bounded(t) && |s| <= MaxDtDepth
    ensures |s| + TreeDepth(t) <= MaxDtDepth
  {
    if t.Tree? {
      DepthWithinLimit(t.left, s + "l");
      DepthWithinLimit(t.right, s + "r");
    }
  }

  /** The cost-complexity measure of every grown tree is not negative, as pruning it requires. */
  lemma GrownAlpha(t: Tree, lbl: string, d: nat, k: nat, total: nat)
    requires t.Tree? && Grown(t, lbl, d, k) && total > 0
    ensures Prune.Alpha(t, k, total) >= 0.0
  {
    Prune.AlphaNonNegative(t, k, total);
  }

  // ----- The label buffers of build_subtree -----

  /** The bytes strcpy and strcat write for a child label s + "l" or s + "r", with the terminating NUL. */
  function ChildLabelBytes(s: string): (r: nat)
    ensures r == |s + "l"| + 1 && r == |s + "r"| + 1
  {
    |s| + 2
  }

  /** Every node of t can write its children's labels into a buffer of size bytes. */
  predicate LabelsFit(t: Tree, size: nat)
  {
    t.Tree? ==> ChildLabelBytes(t.node.nodeLabel) <= size && LabelsFit(t.left, size) && LabelsFit(t.right, size)
  }

  /**
   * As written, lnode_str and rnode_str hold MAX_DT_DEPTH bytes: a node
   * whose label has MAX_DT_DEPTH - 1 characters passes the depth test and
   * its child's label then needs MAX_DT_DEPTH + 1 bytes.
   */
  lemma LabelBufferAsWritten()
    ensures exists t :: Bounded(t) && !LabelsFit(t, MaxDtDepth)
  {
    var lbl := seq(MaxDtDepth - 1, _ => 'l');
    var t := Tree(Node([], [], [], 1, 1, lbl, 0.0, 0), Nil, Nil);
    assert Bounded(t) && ChildLabelBytes(lbl) == MaxDtDepth + 1;
  }

  /** The buffer size the depth test evidently calls for: room for MAX_DT_DEPTH characters and the NUL. */
  const ChildLabelBuffer: nat := MaxDtDepth + 1

  /** With ChildLabelBuffer bytes every node of a tree whose labels pass the depth test writes its children's labels in bounds. */
  lemma {:induction false} LabelBufferCorrected(t: Tree)
    requires Bounded(t)
    ensures LabelsFit(t, ChildLabelBuffer)
  {
    if t.Tree? {
      LabelBufferCorrected(t.left);
      LabelBufferCorrected(t.right);
    }
  }
}
