/**
 * myprune.c: Breiman et al.'s error-complexity pruning. The cost of a node
 * and of the subtree below it, the weight alpha of every node, the cutting
 * of the weakest links, and the choice of a tree from the sequence of ever
 * smaller trees by its accuracy on a separate pruning set.
 */
module Prune {
  import opened Wrappers
  import opened Oc1
  import opened Counts
  import opened Trees
  import opened Classify

  // ---------------------------------------------------------------- costs

  /** Every node of t has K counts on each side (no_of_categories). */
  predicate Sized(t: Tree, k: nat)
  {
    t.Tree? ==> |t.node.leftCount| == k && |t.node.rightCount| == k && Sized(t.left, k) && Sized(t.right, k)
  }

  /** The counts of a node without regard to side: left_count[i] + right_count[i]. */
  function Combined(l: seq<int>, r: seq<int>): (c: seq<int>)
    requires |l| == |r|
    ensures |c| == |l| && forall i :: 0 <= i < |l| ==> c[i] == l[i] + r[i]
  {
    seq(|l|, i requires 0 <= i < |l| => l[i] + r[i])
  }

  /** The points of one side outside category cat: the misclassified of subtree_cost's leaf slots. */
  function SideErrors(s: seq<int>, cat: int): int
  {
    SumExcept(s, |s|, cat)
  }

  /** node_cost's numerator: the node's points outside the first maximum of its combined counts. */
  function NodeErrors(n: Node): int
    requires |n.leftCount| == |n.rightCount|
  {
    var c := Combined(n.leftCount, n.rightCount);
    if |c| == 0 then 0 else SideErrors(c, FirstMax(c))
  }

  /** node_cost: the misclassified fraction of total_points if the node were a leaf. */
  function NodeCost(n: Node, total: nat): real
    requires |n.leftCount| == |n.rightCount| && total > 0
  {
    NodeErrors(n) as real / total as real
  }

  /** subtree_cost's numerator: over every absent child slot, that side's points outside its majority category. */
  function SubtreeErrors(t: Tree): int
    requires t.Tree?
  {
    (if t.left.Nil? then SideErrors(t.node.leftCount, t.node.leftCat) else SubtreeErrors(t.left))
    + (if t.right.Nil? then SideErrors(t.node.rightCount, t.node.rightCat) else SubtreeErrors(t.right))
  }

  /** subtree_cost: the sum, over the absent child slots, of their misclassified fraction of total_points. */
  function SubtreeCost(t: Tree, total: nat): real
    requires t.Tree? && total > 0
  {
    (if t.left.Nil? then SideErrors(t.node.leftCount, t.node.leftCat) as real / total as real
     else SubtreeCost(t.left, total))
    + (if t.right.Nil? then SideErrors(t.node.rightCount, t.node.rightCat) as real / total as real
       else SubtreeCost(t.right, total))
  }

  /** The sum of the slot fractions is the fraction of the summed errors. */
  lemma {:induction false} SubtreeCostIsErrors(t: Tree, total: nat)
    requires t.Tree? && total > 0
    ensures SubtreeCost(t, total) == SubtreeErrors(t) as real / total as real
  {
    var a := if t.left.Nil? then SideErrors(t.node.leftCount, t.node.leftCat) else SubtreeErrors(t.left);
    var b := if t.right.Nil? then SideErrors(t.node.rightCount, t.node.rightCat) else SubtreeErrors(t.right);
    if t.left.Tree? { SubtreeCostIsErrors(t.left, total); }
    if t.right.Tree? { SubtreeCostIsErrors(t.right, total); }
    Fractions(a, b, total);
  }

  lemma Fractions(a: int, b: int, total: nat)
    requires total > 0
    ensures a as real / total as real + b as real / total as real == (a + b) as real / total as real
  {
  }

  /** Every node's children split its side counts: a child's combined counts are its parent's counts on that side. */
  predicate Consistent(t: Tree)
  {
    t.Tree? ==>
      (t.left.Tree? ==> |t.left.node.leftCount| == |t.left.node.rightCount|
                        && Combined(t.left.node.leftCount, t.left.node.rightCount) == t.node.leftCount)
      && (t.right.Tree? ==> |t.right.node.leftCount| == |t.right.node.rightCount|
                            && Combined(t.right.node.leftCount, t.right.node.rightCount) == t.node.rightCount)
      && Consistent(t.left) && Consistent(t.right)
  }

  lemma {:induction false} SumCombined(l: seq<int>, r: seq<int>, n: nat)
    requires |l| == |r| && n <= |l|
    ensures SumTo(Combined(l, r), n) == SumTo(l, n) + SumTo(r, n)
  {
    if n > 0 { SumCombined(l, r, n - 1); }
  }

  /**
   * Giving each side its own first-maximum category never misclassifies
   * more than giving both sides any one category m.
   */
  lemma SidesWithinNode(l: seq<int>, r: seq<int>, m: nat)
    requires |l| == |r| >= 1 && 1 <= m <= |l|
    ensures SideErrors(l, FirstMax(l)) + SideErrors(r, FirstMax(r)) <= SideErrors(Combined(l, r), m)
  {
    var k := |l|;
    SumExceptIsSumMinusEntry(l, k, FirstMax(l));
    SumExceptIsSumMinusEntry(r, k, FirstMax(r));
    SumExceptIsSumMinusEntry(Combined(l, r), k, m);
    FirstMaxIsFirstMaximum(l, k);
    FirstMaxIsFirstMaximum(r, k);
    SumCombined(l, r, k);
  }

  /** With consistent counts and first-maximum majorities, a subtree misclassifies no more than its root would alone. */
  lemma {:induction false} SubtreeWithinNode(t: Tree, k: nat)
    requires t.Tree? && Counted(t, k) && Consistent(t)
    ensures SubtreeErrors(t) <= NodeErrors(t.node)
  {
    var n := t.node;
    if t.left.Tree? { SubtreeWithinNode(t.left, k); }
    if t.right.Tree? { SubtreeWithinNode(t.right, k); }
    SidesWithinNode(n.leftCount, n.rightCount, FirstMax(Combined(n.leftCount, n.rightCount)));
  }

  // ---------------------------------------------------------------- alpha

  /** compute_alpha at one node: the cost saved by the subtree per extra leaf; the divisor is at least one. */
  function Alpha(t: Tree, k: nat, total: nat): real
    requires t.Tree? && Sized(t, k) && total > 0
  {
    (NodeCost(t.node, total) - SubtreeCost(t, total)) / (LeafCount(t) - 1) as real
  }

  /** The divisor of alpha: a non-empty tree has at least two absent child slots. */
  lemma AlphaDivisor(t: Tree)
    requires t.Tree?
    ensures LeafCount(t) - 1 >= 1
  {
    LeafCountIsSizePlusOne(t);
  }

  /** Pruning never pays less than nothing: with consistent counts alpha is not negative. */
  lemma AlphaNonNegative(t: Tree, k: nat, total: nat)
    requires t.Tree? && Counted(t, k) && Sized(t, k) && Consistent(t) && total > 0
    ensures Alpha(t, k, total) >= 0.0
  {
    SubtreeWithinNode(t, k);
    SubtreeCostIsErrors(t, total);
    AlphaDivisor(t);
    var saved := NodeErrors(t.node) as real / total as real - SubtreeErrors(t) as real / total as real;
    Fractions(NodeErrors(t.node) - SubtreeErrors(t), SubtreeErrors(t), total);
    assert saved == (NodeErrors(t.node) - SubtreeErrors(t)) as real / total as real;
    assert saved >= 0.0;
  }

  /** alpha_array after compute_alpha: every node's alpha, in preorder. */
  function Alphas(t: Tree, k: nat, total: nat): (r: seq<real>)
    requires Sized(t, k) && total > 0
    ensures |r| == Size(t)
  {
    if t.Nil? then [] else [Alpha(t, k, total)] + Alphas(t.left, k, total) + Alphas(t.right, k, total)
  }

  /** The tree after compute_alpha: every node carries its alpha. */
  function WithAlphas(t: Tree, k: nat, total: nat): (r: Tree)
    requires Sized(t, k) && total > 0
    ensures Size(r) == Size(t)
  {
    if t.Nil? then Nil
    else Tree(t.node.(alpha := Alpha(t, k, total)), WithAlphas(t.left, k, total), WithAlphas(t.right, k, total))
  }

  /** The alpha fields of a list of nodes. */
  function AlphaList(ns: seq<Node>): (r: seq<real>)
    ensures |r| == |ns|
  {
    if ns == [] then [] else [ns[0].alpha] + AlphaList(ns[1..])
  }

  lemma {:induction false} AlphaListAppend(a: seq<Node>, b: seq<Node>)
    ensures AlphaList(a + b) == AlphaList(a) + AlphaList(b)
  {
    if a == [] {
      assert a + b == b;
    } else {
      assert (a + b)[1..] == a[1..] + b;
      AlphaListAppend(a[1..], b);
    }
  }

  lemma {:induction false} AlphaListIndex(ns: seq<Node>, i: nat)
    requires i < |ns|
    ensures AlphaList(ns)[i] == ns[i].alpha
  {
    if i > 0 { AlphaListIndex(ns[1..], i - 1); }
  }

  /** alpha_array lists the alpha fields compute_alpha wrote, in preorder. */
  lemma {:induction false} AlphasInPreorder(t: Tree, k: nat, total: nat)
    requires Sized(t, k) && total > 0
    ensures Alphas(t, k, total) == AlphaList(Preorder(WithAlphas(t, k, total)))
  {
    if t.Tree? {
      var u := WithAlphas(t, k, total);
      AlphasInPreorder(t.left, k, total);
      AlphasInPreorder(t.right, k, total);
      AlphaListAppend([u.node] + Preorder(u.left), Preorder(u.right));
      AlphaListAppend([u.node], Preorder(u.left));
    }
  }

  // ---------------------------------------------------------------- cuts

  /**
   * cut_subtrees: a visited node other than the root whose alpha equals the
   * threshold is detached with everything below it; every other visited
   * node keeps its place with alpha reset to zero.
   */
  function CutSubtrees(t: Tree, threshold: real, isRoot: bool): (r: Tree)
    ensures Size(r) <= Size(t)
  {
    if t.Nil? then Nil
    else if !isRoot && t.node.alpha == threshold then Nil
    else Tree(t.node.(alpha := 0.0), CutSubtrees(t.left, threshold, false), CutSubtrees(t.right, threshold, false))
  }

  /** u is t with some subtrees removed: the same nodes at the same places, alpha aside. */
  predicate PrunedFrom(u: Tree, t: Tree)
  {
    u.Tree? ==> t.Tree? && u.node == t.node.(alpha := u.node.alpha)
                && PrunedFrom(u.left, t.left) && PrunedFrom(u.right, t.right)
  }

  lemma {:induction false} PrunedFromTransitive(u: Tree, t: Tree, s: Tree)
    requires PrunedFrom(u, t) && PrunedFrom(t, s)
    ensures PrunedFrom(u, s)
  {
    if u.Tree? {
      PrunedFromTransitive(u.left, t.left, s.left);
      PrunedFromTransitive(u.right, t.right, s.right);
    }
  }

  /** Every node of t has alpha zero. */
  predicate AlphasCleared(t: Tree)
  {
    t.Tree? ==> t.node.alpha == 0.0 && AlphasCleared(t.left) && AlphasCleared(t.right)
  }

  /**
   * Cutting removes subtrees and nothing else, never the root, and leaves
   * every remaining node with alpha zero.
   */
  lemma {:induction false} CutIsPruning(t: Tree, threshold: real, isRoot: bool)
    ensures PrunedFrom(CutSubtrees(t, threshold, isRoot), t)
    ensures AlphasCleared(CutSubtrees(t, threshold, isRoot))
    ensures isRoot && t.Tree? ==> CutSubtrees(t, threshold, isRoot).Tree?
  {
    if t.Tree? {
      CutIsPruning(t.left, threshold, false);
      CutIsPruning(t.right, threshold, false);
    }
  }

  /** A node whose alpha is the threshold, at preorder position i other than a protected root, is cut: the tree shrinks. */
  lemma {:induction false} CutShrinks(t: Tree, threshold: real, isRoot: bool, i: nat)
    requires i < Size(t) && (isRoot ==> i >= 1) && Preorder(t)[i].alpha == threshold
    ensures Size(CutSubtrees(t, threshold, isRoot)) < Size(t)
  {
    var p := Preorder(t);
    if i == 0 || (!isRoot && t.node.alpha == threshold) {
    } else if i <= Size(t.left) {
      assert p == [t.node] + Preorder(t.left) + Preorder(t.right);
      assert p[i] == Preorder(t.left)[i - 1];
      CutShrinks(t.left, threshold, false, i - 1);
    } else {
      assert p == [t.node] + Preorder(t.left) + Preorder(t.right);
      assert p[i] == Preorder(t.right)[i - 1 - Size(t.left)];
      CutShrinks(t.right, threshold, false, i - 1 - Size(t.left));
    }
  }

  /** Removing subtrees keeps the shape of the nodes that remain. */
  lemma {:induction false} PrunedKeepsShape(u: Tree, t: Tree, d: nat, k: nat)
    requires PrunedFrom(u, t)
    ensures Planes(t, d) ==> Planes(u, d)
    ensures Sized(t, k) ==> Sized(u, k)
    ensures Counted(t, k) ==> Counted(u, k)
  {
    if u.Tree? {
      PrunedKeepsShape(u.left, t.left, d, k);
      PrunedKeepsShape(u.right, t.right, d, k);
    }
  }

  /** compute_alpha changes the alpha fields and nothing else. */
  lemma {:induction false} WithAlphasIsPruning(t: Tree, k: nat, total: nat)
    requires Sized(t, k) && total > 0
    ensures PrunedFrom(WithAlphas(t, k, total), t) && PrunedFrom(t, WithAlphas(t, k, total))
  {
    if t.Tree? {
      WithAlphasIsPruning(t.left, k, total);
      WithAlphasIsPruning(t.right, k, total);
    }
  }

  /** The position, among 1..n-1, of the first minimum of a[1..n): the loop of cut_weakest_links, which skips the root. */
  function FirstMinFrom(a: seq<real>, n: nat): (m: nat)
    requires 2 <= n <= |a|
    ensures 1 <= m < n
  {
    if n == 2 then 1
    else
      var m := FirstMinFrom(a, n - 1);
      if a[n - 1] < a[m] then n - 1 else m
  }

  /** The weakest link is a minimum of the non-root alphas, and every earlier one is strictly larger. */
  lemma {:induction false} FirstMinMeaning(a: seq<real>, n: nat)
    requires 2 <= n <= |a|
    ensures forall j :: 1 <= j < n ==> a[FirstMinFrom(a, n)] <= a[j]
    ensures forall j :: 1 <= j < FirstMinFrom(a, n) ==> a[FirstMinFrom(a, n)] < a[j]
  {
    if n > 2 { FirstMinMeaning(a, n - 1); }
  }

  /**
   * cut_weakest_links: NULL when the tree has one internal node; otherwise
   * the tree with alphas computed and the nodes at the weakest non-root
   * alpha cut off.
   */
  function WeakestCut(t: Tree, k: nat, total: nat): Option<Tree>
    requires t.Tree? && Sized(t, k) && total > 0
  {
    if LeafCount(t) - 1 == 1 then None
    else
      LeafCountIsSizePlusOne(t);
      var a := Alphas(t, k, total);
      Some(CutSubtrees(WithAlphas(t, k, total), a[FirstMinFrom(a, |a|)], true))
  }

  /**
   * A cut keeps the root, removes only subtrees, clears every alpha and
   * strictly lowers the leaf count: the weakest link is a node other than
   * the root and carries the threshold.
   */
  lemma WeakestCutShrinks(t: Tree, k: nat, total: nat)
    requires t.Tree? && Sized(t, k) && total > 0
    ensures LeafCount(t) <= 2 <==> WeakestCut(t, k, total).None?
    ensures WeakestCut(t, k, total).Some? ==>
      var u := WeakestCut(t, k, total).value;
      u.Tree? && Sized(u, k) && PrunedFrom(u, t) && AlphasCleared(u) && LeafCount(u) < LeafCount(t)
  {
    LeafCountIsSizePlusOne(t);
    if LeafCount(t) > 2 {
      var a := Alphas(t, k, total);
      var w := WithAlphas(t, k, total);
      var i := FirstMinFrom(a, |a|);
      var u := CutSubtrees(w, a[i], true);
      AlphasInPreorder(t, k, total);
      AlphaListIndex(Preorder(w), i);
      CutShrinks(w, a[i], true, i);
      CutIsPruning(w, a[i], true);
      WithAlphasIsPruning(t, k, total);
      PrunedFromTransitive(u, w, t);
      PrunedKeepsShape(u, t, 0, k);
      LeafCountIsSizePlusOne(u);
    }
  }

  // ---------------------------------------------------------------- the sequence of pruned trees

  /** The trees error_complexity_prune evaluates: the tree, then the result of each cut until none is possible. */
  function Chain(t: Tree, k: nat, total: nat): (c: seq<Tree>)
    requires t.Tree? && Sized(t, k) && total > 0
    ensures |c| >= 1 && c[0] == t
    decreases LeafCount(t)
  {
    WeakestCutShrinks(t, k, total);
    match WeakestCut(t, k, total)
    case None => [t]
    case Some(u) => [t] + Chain(u, k, total)
  }

  /** Every tree of the chain is a pruning of the first and has at least i leaves fewer at position i. */
  lemma {:induction false} ChainShapes(t: Tree, k: nat, total: nat)
    requires t.Tree? && Sized(t, k) && total > 0
    ensures forall i :: 0 <= i < |Chain(t, k, total)| ==>
      var c := Chain(t, k, total);
      c[i].Tree? && Sized(c[i], k) && PrunedFrom(c[i], t) && LeafCount(c[i]) + i <= LeafCount(t)
    decreases LeafCount(t)
  {
    var c := Chain(t, k, total);
    WeakestCutShrinks(t, k, total);
    PrunedFromItself(t);
    if u :| WeakestCut(t, k, total) == Some(u) {
      assert c == [t] + Chain(u, k, total);
      ChainShapes(u, k, total);
      forall i | 1 <= i < |c|
        ensures PrunedFrom(c[i], t)
      {
        PrunedFromTransitive(c[i], u, t);
      }
    }
  }

  /** Each tree of the chain but the last is cut into the next one, and the last cannot be cut. */
  lemma ChainStep(t: Tree, k: nat, total: nat, i: nat)
    requires t.Tree? && Sized(t, k) && total > 0 && i < |Chain(t, k, total)|
    ensures Chain(t, k, total)[i].Tree? && Sized(Chain(t, k, total)[i], k)
    ensures i + 1 < |Chain(t, k, total)| ==> WeakestCut(Chain(t, k, total)[i], k, total) == Some(Chain(t, k, total)[i + 1])
    ensures i + 1 == |Chain(t, k, total)| ==> WeakestCut(Chain(t, k, total)[i], k, total).None?
  {
    var c := Chain(t, k, total);
    ChainSuffix(t, k, total, i);
    assert Chain(c[i], k, total) == c[i..];
  }

  /** The chain has at most as many trees as the first tree has nodes. */
  lemma ChainLength(t: Tree, k: nat, total: nat)
    requires t.Tree? && Sized(t, k) && total > 0
    ensures |Chain(t, k, total)| <= Size(t)
  {
    var c := Chain(t, k, total);
    ChainShapes(t, k, total);
    LeafCountIsSizePlusOne(t);
    assert c[|c| - 1].Tree?;
  }

  /** The leaf counts along the chain strictly decrease. */
  lemma {:induction false} ChainDecreasing(t: Tree, k: nat, total: nat)
    requires t.Tree? && Sized(t, k) && total > 0
    ensures forall i, j :: 0 <= i < j < |Chain(t, k, total)| ==>
      LeafCount(Chain(t, k, total)[j]) < LeafCount(Chain(t, k, total)[i])
  {
    ChainShapes(t, k, total);
    var c := Chain(t, k, total);
    forall i, j | 0 <= i < j < |c|
      ensures LeafCount(c[j]) < LeafCount(c[i])
    {
      ChainSuffix(t, k, total, i);
      ChainShapes(c[i], k, total);
      assert Chain(c[i], k, total)[j - i] == c[j];
      assert LeafCount(c[j]) + (j - i) <= LeafCount(c[i]);
    }
  }

  /** The chain from its i-th tree is the rest of the chain. */
  lemma {:induction false} ChainSuffix(t: Tree, k: nat, total: nat, i: nat)
    requires t.Tree? && Sized(t, k) && total > 0 && i < |Chain(t, k, total)|
    ensures Chain(t, k, total)[i].Tree? && Sized(Chain(t, k, total)[i], k)
    ensures Chain(Chain(t, k, total)[i], k, total) == Chain(t, k, total)[i..]
    decreases i
  {
    var c := Chain(t, k, total);
    WeakestCutShrinks(t, k, total);
    if i > 0 {
      var u := WeakestCut(t, k, total).value;
      assert c == [t] + Chain(u, k, total);
      ChainSuffix(u, k, total, i - 1);
      assert c[i..] == Chain(u, k, total)[i - 1..];
    }
  }

  lemma {:induction false} PrunedFromItself(t: Tree)
    ensures PrunedFrom(t, t)
  {
    if t.Tree? {
      PrunedFromItself(t.left);
      PrunedFromItself(t.right);
    }
  }

  // ---------------------------------------------------------------- tree_array

  /** The entries error_complexity_prune allocates for tree_array: one per internal node. */
  function TreeArrayAsWritten(t: Tree): nat
  {
    LeafCount(t) - 1
  }

  /**
   * The loop stores its NULL terminator at position |chain| + 1 (counting
   * from 1). For a tree of two nodes the chain has two trees, as many as
   * tree_array has entries, so the terminator lands past its end.
   */
  lemma TreeArrayOverflows(t: Tree, k: nat, total: nat)
    requires t.Tree? && Sized(t, k) && total > 0 && Size(t) == 2
    ensures |Chain(t, k, total)| + 1 > TreeArrayAsWritten(t)
  {
    var c := Chain(t, k, total);
    LeafCountIsSizePlusOne(t);
    WeakestCutShrinks(t, k, total);
    var u := WeakestCut(t, k, total).value;
    assert c == [t] + Chain(u, k, total);
  }

  /** One entry more than there are internal nodes: room for every tree of the chain and the terminator. */
  function TreeArraySlots(t: Tree): nat
  {
    LeafCount(t)
  }

  lemma TreeArrayFits(t: Tree, k: nat, total: nat)
    requires t.Tree? && Sized(t, k) && total > 0
    ensures |Chain(t, k, total)| + 1 <= TreeArraySlots(t)
  {
    ChainLength(t, k, total);
    LeafCountIsSizePlusOne(t);
  }

  // ---------------------------------------------------------------- selection

  /** The comparison largest_element makes on the accuracies; an undefined accuracy (no pruning points) is never greater. */
  predicate Greater(a: Option<real>, b: Option<real>)
  {
    a.Some? && b.Some? && a.value > b.value
  }

  /** largest_element over the accuracies: the position, 0..n-1, of the first maximum. */
  function FirstMaxAccuracy(a: seq<Option<real>>, n: nat): (m: nat)
    requires 1 <= n <= |a|
    ensures m < n
  {
    if n == 1 then 0
    else
      var m := FirstMaxAccuracy(a, n - 1);
      if Greater(a[n - 1], a[m]) then n - 1 else m
  }

  /** With every accuracy defined, the first maximum is a maximum and no earlier tree reaches it. */
  lemma {:induction false} FirstMaxAccuracyMeaning(a: seq<Option<real>>, n: nat)
    requires 1 <= n <= |a| && forall j :: 0 <= j < n ==> a[j].Some?
    ensures forall j :: 0 <= j < n ==> a[j].value <= a[FirstMaxAccuracy(a, n)].value
    ensures forall j :: 0 <= j < FirstMaxAccuracy(a, n) ==> a[j].value < a[FirstMaxAccuracy(a, n)].value
  {
    if n > 1 { FirstMaxAccuracyMeaning(a, n - 1); }
  }

  /** With no accuracy defined, the first tree is taken. */
  lemma {:induction false} FirstMaxAccuracyUndefined(a: seq<Option<real>>, n: nat)
    requires 1 <= n <= |a| && forall j :: 0 <= j < n ==> a[j].None?
    ensures FirstMaxAccuracy(a, n) == 0
  {
    if n > 1 { FirstMaxAccuracyUndefined(a, n - 1); }
  }

  /**
   * The test of the selection loop: the tree's misclassification rate is
   * within NO_OF_STD_ERRORS standard errors se of the best tree's; false
   * when either accuracy is undefined.
   */
  predicate Within(a: Option<real>, best: Option<real>, se: real)
  {
    a.Some? && best.Some? && 1.0 - a.value / 100.0 <= (1.0 - best.value / 100.0) + NoOfStdErrors * se
  }

  /** With NO_OF_STD_ERRORS = 0, a tree is within reach of the best exactly when it is as accurate. */
  lemma WithinZeroErrors(a: Option<real>, best: Option<real>, se: real)
    requires a.Some? && best.Some? && a.value <= best.value
    ensures Within(a, best, se) <==> a.value == best.value
  {
  }

  /** selected_tree after the first n trees of the selection loop, starting from best. */
  function SelectTo(a: seq<Option<real>>, l: seq<nat>, best: nat, se: real, n: nat): (s: nat)
    requires |a| == |l| && best < |a| && n <= |a|
    ensures s < |a|
  {
    if n == 0 then best
    else
      var s := SelectTo(a, l, best, se, n - 1);
      if Within(a[n - 1], a[best], se) && l[n - 1] < l[s] then n - 1 else s
  }

  /** The selected tree is the best one or a smaller one within reach of it, and no tree within reach has fewer leaves. */
  lemma {:induction false} SelectToMeaning(a: seq<Option<real>>, l: seq<nat>, best: nat, se: real, n: nat)
    requires |a| == |l| && best < |a| && n <= |a|
    ensures var s := SelectTo(a, l, best, se, n);
      (s == best || (Within(a[s], a[best], se) && l[s] < l[best]))
      && forall j :: 0 <= j < n && Within(a[j], a[best], se) ==> l[s] <= l[j]
  {
    if n > 0 { SelectToMeaning(a, l, best, se, n - 1); }
  }

  /** With no accuracy defined, nothing is within reach and the best tree stays selected. */
  lemma {:induction false} SelectToUndefined(a: seq<Option<real>>, l: seq<nat>, best: nat, se: real, n: nat)
    requires |a| == |l| && best < |a| && n <= |a| && a[best].None?
    ensures SelectTo(a, l, best, se, n) == best
  {
    if n > 0 { SelectToUndefined(a, l, best, se, n - 1); }
  }

  /** The tree the selection picks among trees with accuracies a and leaf counts l. */
  function Selected(a: seq<Option<real>>, l: seq<nat>, se: real): nat
    requires |a| == |l| >= 1
  {
    SelectTo(a, l, FirstMaxAccuracy(a, |a|), se, |a|)
  }

  /** The first loop of node_cost: the first category, 1..K, of largest combined count (1 when K is 0). */
  method CombinedMax(l: seq<int>, r: seq<int>) returns (max: nat)
    requires |l| == |r|
    ensures |l| >= 1 ==> max == FirstMax(Combined(l, r))
    ensures |l| == 0 ==> max == 1
  {
    ghost var c := Combined(l, r);
    max := 1;
    var i := 1;
    while i < |l|
      invariant 1 <= i && (|l| == 0 ==> max == 1)
      invariant |l| >= 1 ==> i <= |l| && max == FirstMaxOf(c, i)
    {
      if l[i] + r[i] > l[max - 1] + r[max - 1] {
        max := i + 1;
      }
      i := i + 1;
    }
  }

  /** One tree_array entry: a tree and what estimate_accuracy reported for it. */
  datatype Entry = Entry(root: Tree, cresult: TestOutcome)

  /** The accuracies of the first entries, as copied into the accuracies vector. */
  function AccuracyColumn(es: seq<Entry>): (r: seq<Option<real>>)
    ensures |r| == |es| && forall i :: 0 <= i < |es| ==> r[i] == es[i].cresult.accuracy
  {
    seq(|es|, i requires 0 <= i < |es| => es[i].cresult.accuracy)
  }

  /** The leaf counts of the entries. */
  function LeafColumn(es: seq<Entry>): (r: seq<nat>)
    ensures |r| == |es| && forall i :: 0 <= i < |es| ==> r[i] == es[i].cresult.leafCount
  {
    seq(|es|, i requires 0 <= i < |es| => es[i].cresult.leafCount)
  }

  /** What estimate_accuracy reports for a tree of D dimensions, or nothing for a tree it cannot be asked about. */
  function EntryFor(ps: seq<Sample>, t: Tree, d: nat, k: nat): (e: Entry)
    ensures e.root == t
  {
    if t.Tree? && Planes(t, d) && SamplesWellFormed(ps, d, k) then Entry(t, OutcomeOf(ps, t, k))
    else Entry(t, TestOutcome(0, 0, None, []))
  }

  /** The tree_array entries for the trees of c. */
  function Entries(c: seq<Tree>, ps: seq<Sample>, d: nat, k: nat): (r: seq<Entry>)
    ensures |r| == |c| && forall i :: 0 <= i < |c| ==> r[i] == EntryFor(ps, c[i], d, k)
  {
    seq(|c|, i requires 0 <= i < |c| => EntryFor(ps, c[i], d, k))
  }

  lemma ChainPlanes(t: Tree, d: nat, k: nat, total: nat)
    requires t.Tree? && Planes(t, d) && Sized(t, k) && total > 0
    ensures forall i :: 0 <= i < |Chain(t, k, total)| ==> Chain(t, k, total)[i].Tree? && Planes(Chain(t, k, total)[i], d)
  {
    ChainShapes(t, k, total);
    forall i | 0 <= i < |Chain(t, k, total)|
      ensures Planes(Chain(t, k, total)[i], d)
    {
      PrunedKeepsShape(Chain(t, k, total)[i], t, d, k);
    }
  }

  /** error_complexity_prune: the selected tree of the chain. */
  function Pruned(t: Tree, ps: seq<Sample>, d: nat, k: nat, total: nat, se: real): Tree
    requires t.Tree? && Planes(t, d) && Sized(t, k) && total > 0 && SamplesWellFormed(ps, d, k)
  {
    var c := Chain(t, k, total);
    var es := Entries(c, ps, d, k);
    c[Selected(AccuracyColumn(es), LeafColumn(es), se)]
  }

  /**
   * With every accuracy defined and leaf counts strictly decreasing, the
   * selection picks a most accurate tree, and the last one of those.
   */
  lemma SelectedIsLastMostAccurate(a: seq<Option<real>>, l: seq<nat>, se: real)
    requires |a| == |l| >= 1
    requires forall j :: 0 <= j < |a| ==> a[j].Some?
    requires forall i, j :: 0 <= i < j < |l| ==> l[j] < l[i]
    ensures forall j :: 0 <= j < |a| ==> a[j].value <= a[Selected(a, l, se)].value
    ensures forall j :: 0 <= j < |a| && a[j] == a[Selected(a, l, se)] ==> j <= Selected(a, l, se)
  {
    var best := FirstMaxAccuracy(a, |a|);
    FirstMaxAccuracyMeaning(a, |a|);
    var s := Selected(a, l, se);
    SelectToMeaning(a, l, best, se, |a|);
    WithinZeroErrors(a[s], a[best], se);
    forall j | 0 <= j < |a| && a[j] == a[s]
      ensures j <= s
    {
      WithinZeroErrors(a[j], a[best], se);
    }
  }

  /**
   * With pruning samples, the pruned tree has the highest accuracy of the
   * chain and is the last tree to reach it, the one with the fewest leaves.
   */
  lemma PrunedIsMostAccurateSmallest(t: Tree, ps: seq<Sample>, d: nat, k: nat, total: nat, se: real)
    requires t.Tree? && Planes(t, d) && Sized(t, k) && total > 0 && SamplesWellFormed(ps, d, k) && |ps| > 0
    ensures var c := Chain(t, k, total);
      var a := AccuracyColumn(Entries(c, ps, d, k));
      var s := Selected(a, LeafColumn(Entries(c, ps, d, k)), se);
      (forall j :: 0 <= j < |c| ==> a[j].Some?)
      && (forall j :: 0 <= j < |c| ==> a[j].value <= a[s].value)
      && (forall j :: 0 <= j < |c| && a[j] == a[s] ==> j <= s)
      && Pruned(t, ps, d, k, total, se) == c[s]
  {
    ChainPlanes(t, d, k, total);
    var c := Chain(t, k, total);
    var a := AccuracyColumn(Entries(c, ps, d, k));
    var l := LeafColumn(Entries(c, ps, d, k));
    AccuraciesDefined(c, ps, d, k);
    ChainDecreasing(t, k, total);
    SelectedIsLastMostAccurate(a, l, se);
  }

  /** With pruning samples every tree's accuracy is defined. */
  lemma AccuraciesDefined(c: seq<Tree>, ps: seq<Sample>, d: nat, k: nat)
    requires forall i :: 0 <= i < |c| ==> c[i].Tree? && Planes(c[i], d)
    requires SamplesWellFormed(ps, d, k) && |ps| > 0
    ensures forall j :: 0 <= j < |c| ==> AccuracyColumn(Entries(c, ps, d, k))[j].Some?
    ensures forall j :: 0 <= j < |c| ==> LeafColumn(Entries(c, ps, d, k))[j] == LeafCount(c[j])
  {
    var es := Entries(c, ps, d, k);
    forall j | 0 <= j < |c|
      ensures AccuracyColumn(es)[j].Some? && LeafColumn(es)[j] == LeafCount(c[j])
    {
      assert es[j] == Entry(c[j], OutcomeOf(ps, c[j], k));
      OutcomeMeaning(ps, c[j], d, k);
    }
  }

  /** Without pruning samples every accuracy is undefined and the tree is kept whole. */
  lemma NoSamplesNoPruning(t: Tree, ps: seq<Sample>, d: nat, k: nat, total: nat, se: real)
    requires t.Tree? && Planes(t, d) && Sized(t, k) && total > 0 && SamplesWellFormed(ps, d, k) && |ps| == 0
    ensures Pruned(t, ps, d, k, total, se) == t
  {
    ChainPlanes(t, d, k, total);
    var c := Chain(t, k, total);
    var a := AccuracyColumn(Entries(c, ps, d, k));
    FirstMaxAccuracyUndefined(a, |a|);
    SelectToUndefined(a, LeafColumn(Entries(c, ps, d, k)), 0, se, |a|);
  }

  /** prune: the tree itself when it has at most two leaves, otherwise error_complexity_prune's choice. */
  function PruneResult(t: Tree, ps: seq<Sample>, d: nat, k: nat, se: real): Tree
    requires t.Tree? && Planes(t, d) && Sized(t, k) && t.node.noOfPoints > 0 && SamplesWellFormed(ps, d, k)
  {
    if LeafCount(t) <= 2 then t else Pruned(t, ps, d, k, t.node.noOfPoints, se)
  }

  /** Pruning only removes subtrees: the result keeps the root and is a pruning of the input. */
  lemma PruneIsPruning(t: Tree, ps: seq<Sample>, d: nat, k: nat, se: real)
    requires t.Tree? && Planes(t, d) && Sized(t, k) && t.node.noOfPoints > 0 && SamplesWellFormed(ps, d, k)
    ensures PruneResult(t, ps, d, k, se).Tree? && PrunedFrom(PruneResult(t, ps, d, k, se), t)
    ensures LeafCount(PruneResult(t, ps, d, k, se)) <= LeafCount(t)
    ensures LeafCount(t) <= 2 ==> PruneResult(t, ps, d, k, se) == t
  {
    PrunedFromItself(t);
    ChainShapes(t, k, t.node.noOfPoints);
  }

  // ---------------------------------------------------------------- the pruning loops

  /** The misclassified loop of subtree_cost and node_cost: the entries of s outside category cat. */
  method Misclassified(s: seq<int>, cat: int) returns (m: int)
    ensures m == SideErrors(s, cat)
  {
    m := 0;
    for i := 0 to |s|
      invariant m == SumExcept(s, i, cat)
    {
      if i + 1 != cat {
        m := m + s[i];
      }
    }
  }

  /** largest_element on the accuracies vector. */
  method LargestAccuracy(a: array<Option<real>>) returns (major: nat)
    requires a.Length >= 1
    ensures major == FirstMaxAccuracy(a[..], a.Length)
  {
    major := 0;
    for i := 1 to a.Length
      invariant major == FirstMaxAccuracy(a[..], i)
    {
      if Greater(a[i], a[major]) {
        major := i;
      }
    }
  }

  /** The copy of the accuracies of tree_array into the accuracies vector. */
  method CopyAccuracies(treeArray: array<Entry>, noOfTrees: nat) returns (accuracies: array<Option<real>>)
    requires noOfTrees <= treeArray.Length
    ensures fresh(accuracies) && accuracies[..] == AccuracyColumn(treeArray[..noOfTrees])
  {
    accuracies := new Option<real>[noOfTrees](_ => None);
    for i := 0 to noOfTrees
      invariant forall j :: 0 <= j < i ==> accuracies[j] == treeArray[j].cresult.accuracy
    {
      accuracies[i] := treeArray[i].cresult.accuracy;
    }
  }

  /**
   * The selection of error_complexity_prune over the first noOfTrees
   * entries: the first maximum accuracy, then the entry with the fewest
   * leaves within reach of it.
   */
  method SelectTree(treeArray: array<Entry>, noOfTrees: nat, se: real) returns (selected: nat)
    requires 1 <= noOfTrees <= treeArray.Length
    ensures selected == Selected(AccuracyColumn(treeArray[..noOfTrees]), LeafColumn(treeArray[..noOfTrees]), se)
  {
    var accuracies := CopyAccuracies(treeArray, noOfTrees);
    var best := LargestAccuracy(accuracies);
    selected := SelectionLoop(accuracies, treeArray, best, se);
  }

  /** The loop that moves to a tree with fewer leaves whose misclassification rate is within reach of the best. */
  method SelectionLoop(accuracies: array<Option<real>>, treeArray: array<Entry>, best: nat, se: real) returns (selected: nat)
    requires best < accuracies.Length <= treeArray.Length
    ensures selected == SelectTo(accuracies[..], LeafColumn(treeArray[..accuracies.Length]), best, se, accuracies.Length)
  {
    ghost var a, l := accuracies[..], LeafColumn(treeArray[..accuracies.Length]);
    selected := best;
    for i := 0 to accuracies.Length
      invariant selected == SelectTo(a, l, best, se, i)
    {
      if Within(accuracies[i], accuracies[best], se) && treeArray[i].cresult.leafCount < treeArray[selected].cresult.leafCount {
        selected := i;
      }
    }
  }

  lemma Regroup(a: seq<real>, b: seq<real>, c: seq<real>, d: seq<real>)
    ensures ((a + b) + c) + d == a + (b + c + d)
  {
  }

  /**
   * The state myprune.c keeps for one call of prune: no_of_categories,
   * total_points (the root's point count) and alpha_array with its fill
   * index alpha_index.
   */
  class Pruner {
    const k: nat
    const total: nat
    var alphaArray: array<real>
    var alphaIndex: nat

    constructor (k: nat, total: nat)
      ensures this.k == k && this.total == total && alphaIndex == 0
    {
      this.k := k;
      this.total := total;
      alphaArray := new real[0];
      alphaIndex := 0;
    }

    /** node_cost: the first maximum of the combined counts, then the points outside it, over total_points. */
    method NodeCostOf(n: Node) returns (cost: real)
      requires |n.leftCount| == k && |n.rightCount| == k && total > 0
      ensures cost == NodeCost(n, total)
    {
      var max := CombinedMax(n.leftCount, n.rightCount);
      var misclassified := Misclassified(Combined(n.leftCount, n.rightCount), max);
      cost := misclassified as real / total as real;
    }

    /** subtree_cost: the misclassified fraction of every absent child slot, recursing into present children. */
    method SubtreeCostOf(t: Tree) returns (cost: real)
      requires t.Tree? && total > 0
      ensures cost == SubtreeCost(t, total)
      decreases t
    {
      cost := 0.0;
      if t.left.Nil? {
        var misclassified := Misclassified(t.node.leftCount, t.node.leftCat);
        cost := cost + misclassified as real / total as real;
      } else {
        var c := SubtreeCostOf(t.left);
        cost := cost + c;
      }
      if t.right.Nil? {
        var misclassified := Misclassified(t.node.rightCount, t.node.rightCat);
        cost := cost + misclassified as real / total as real;
      } else {
        var c := SubtreeCostOf(t.right);
        cost := cost + c;
      }
    }

    /** The alpha of one node: (node_cost - subtree_cost) / (leaf_count - 1). */
    method AlphaOf(t: Tree) returns (alpha: real)
      requires t.Tree? && Sized(t, k) && total > 0
      ensures alpha == Alpha(t, k, total)
    {
      var ncost := NodeCostOf(t.node);
      var scost := SubtreeCostOf(t);
      alpha := (ncost - scost) / (LeafCount(t) - 1) as real;
    }

    /** The alphas stored so far: alpha_array[1..alpha_index]. */
    ghost function Filled(): seq<real>
      reads this, alphaArray
      requires alphaIndex <= alphaArray.Length
    {
      alphaArray[..alphaIndex]
    }

    /** alpha_array[++alpha_index] = alpha. */
    method Record(alpha: real)
      requires alphaIndex < alphaArray.Length
      modifies this, alphaArray
      ensures alphaArray == old(alphaArray) && alphaIndex == old(alphaIndex) + 1
      ensures Filled() == old(Filled()) + [alpha]
    {
      alphaArray[alphaIndex] := alpha;
      alphaIndex := alphaIndex + 1;
    }

    /**
     * compute_alpha: in preorder, set each node's alpha and append it to
     * alpha_array.
     */
    method ComputeAlpha(t: Tree) returns (u: Tree)
      requires Sized(t, k) && total > 0 && alphaIndex + Size(t) <= alphaArray.Length
      modifies this, alphaArray
      ensures alphaArray == old(alphaArray) && alphaIndex == old(alphaIndex) + Size(t)
      ensures Filled() == old(Filled()) + Alphas(t, k, total)
      ensures u == WithAlphas(t, k, total)
      decreases t
    {
      if t.Nil? {
        return Nil;
      }
      ghost var before := Filled();
      var alpha := AlphaOf(t);
      Record(alpha);
      var left := ComputeAlpha(t.left);
      var right := ComputeAlpha(t.right);
      Regroup(before, [alpha], Alphas(t.left, k, total), Alphas(t.right, k, total));
      u := Tree(t.node.(alpha := alpha), left, right);
    }
  
    /** The loop of cut_weakest_links over alpha_array: the first minimum among the entries after the root's. */
    method WeakestLink() returns (index: nat)
      requires 2 <= alphaArray.Length
      ensures index == FirstMinFrom(alphaArray[..], alphaArray.Length)
    {
      index := 1;
      for i := 2 to alphaArray.Length
        invariant index == FirstMinFrom(alphaArray[..], i)
      {
        if alphaArray[i] < alphaArray[index] {
          index := i;
        }
      }
    }

    /** A fresh alpha_array, filled by compute_alpha. */
    method FreshAlphas(t: Tree) returns (u: Tree)
      requires Sized(t, k) && total > 0
      modifies this
      ensures alphaArray[..] == Alphas(t, k, total) && u == WithAlphas(t, k, total)
    {
      alphaArray := new real[Size(t)];
      alphaIndex := 0;
      u := ComputeAlpha(t);
      assert alphaArray[..] == Filled();
    }

    /**
     * cut_weakest_links: NULL for a tree with one internal node; otherwise
     * a fresh alpha_array, compute_alpha, and cut_subtrees at the weakest
     * link's alpha.
     */
    method CutWeakestLinks(t: Tree) returns (r: Option<Tree>)
      requires t.Tree? && Sized(t, k) && total > 0
      modifies this
      ensures r == WeakestCut(t, k, total)
    {
      var internalNodes := LeafCount(t) - 1;
      if internalNodes == 1 {
        return None;
      }
      LeafCountIsSizePlusOne(t);
      var u := FreshAlphas(t);
      var index := WeakestLink();
      r := Some(CutSubtrees(u, alphaArray[index], true));
    }

    /**
     * The first loop of error_complexity_prune over the chain c of root:
     * tree_array[i] holds the i-th tree of the chain and its
     * estimate_accuracy result, followed by the NULL that ends the loop.
     * The array has one entry more than the tree has internal nodes.
     */
    method BuildChain(root: Tree, ghost c: seq<Tree>, points: seq<Point>, ghost ps: seq<Sample>, d: nat)
      returns (treeArray: array<Entry>, noOfTrees: nat)
      requires root.Tree? && Planes(root, d) && Sized(root, k) && total > 0 && c == Chain(root, k, total)
      requires Snapshot(points, ps) && SamplesWellFormed(ps, d, k)
      modifies this
      ensures fresh(treeArray) && treeArray.Length == TreeArraySlots(root)
      ensures noOfTrees == |c| < treeArray.Length
      ensures treeArray[..noOfTrees] == Entries(c, ps, d, k)
      ensures treeArray[noOfTrees].root.Nil?
    {
      treeArray := StartChain(root, c, points, ps, d);
      var treeIndex := 0;
      var more := true;
      while more
        invariant treeIndex < |c| && Snapshot(points, ps)
        invariant forall i :: 0 <= i <= treeIndex ==> treeArray[i] == EntryFor(ps, c[i], d, k)
        invariant !more ==> treeIndex + 1 == |c| && treeArray[treeIndex + 1].root.Nil?
        decreases |c| - treeIndex, more
      {
        more := Extend(treeArray, treeIndex, root, c, points, ps, d);
        if more {
          treeIndex := treeIndex + 1;
        }
      }
      noOfTrees := treeIndex + 1;
    }

    /** tree_array with the tree itself and its estimate_accuracy result in the first entry. */
    method StartChain(root: Tree, ghost c: seq<Tree>, points: seq<Point>, ghost ps: seq<Sample>, d: nat)
      returns (treeArray: array<Entry>)
      requires root.Tree? && Planes(root, d) && Sized(root, k) && total > 0 && c == Chain(root, k, total)
      requires Snapshot(points, ps) && SamplesWellFormed(ps, d, k)
      ensures fresh(treeArray) && treeArray.Length == TreeArraySlots(root) > |c|
      ensures treeArray[0] == EntryFor(ps, c[0], d, k)
    {
      TreeArrayFits(root, k, total);
      treeArray := new Entry[LeafCount(root)](_ => Entry(Nil, TestOutcome(0, 0, None, [])));
      var outcome := EstimateAccuracy(points, ps, root, d, k);
      treeArray[0] := Entry(root, outcome.value);
    }

    /** One round of the first loop: cut the latest tree, and store the cut tree with its evaluation, or the NULL. */
    method Extend(treeArray: array<Entry>, treeIndex: nat, root: Tree, ghost c: seq<Tree>,
                  points: seq<Point>, ghost ps: seq<Sample>, d: nat)
      returns (more: bool)
      requires root.Tree? && Planes(root, d) && Sized(root, k) && total > 0 && c == Chain(root, k, total)
      requires Snapshot(points, ps) && SamplesWellFormed(ps, d, k)
      requires treeIndex < |c| < treeArray.Length && treeArray[treeIndex].root == c[treeIndex]
      modifies this, treeArray
      ensures more <==> treeIndex + 1 < |c|
      ensures forall i :: 0 <= i < treeArray.Length && i != treeIndex + 1 ==> treeArray[i] == old(treeArray[i])
      ensures more ==> treeArray[treeIndex + 1] == EntryFor(ps, c[treeIndex + 1], d, k)
      ensures !more ==> treeArray[treeIndex + 1].root.Nil?
    {
      ChainStep(root, k, total, treeIndex);
      var next := CutWeakestLinks(treeArray[treeIndex].root);
      if next.None? {
        treeArray[treeIndex + 1] := treeArray[treeIndex + 1].(root := Nil);
        return false;
      }
      ChainPlanes(root, d, k, total);
      assert next.value == c[treeIndex + 1];
      var outcome := EstimateAccuracy(points, ps, next.value, d, k);
      treeArray[treeIndex + 1] := Entry(next.value, outcome.value);
      more := true;
    }

    /** The replay of error_complexity_prune: cut a fresh copy of the tree until the selected tree is reached. */
    method Replay(root: Tree, selected: nat) returns (pruned: Tree)
      requires root.Tree? && Sized(root, k) && total > 0 && selected < |Chain(root, k, total)|
      modifies this
      ensures pruned == Chain(root, k, total)[selected]
    {
      pruned := root;
      var treeIndex := 0;
      while treeIndex < selected
        invariant treeIndex <= selected && pruned == Chain(root, k, total)[treeIndex]
      {
        ChainStep(root, k, total, treeIndex);
        var next := CutWeakestLinks(pruned);
        pruned := next.value;
        treeIndex := treeIndex + 1;
      }
    }

    /** error_complexity_prune: evaluate the chain on the pruning points, select a tree, rebuild it. */
    method ErrorComplexityPrune(root: Tree, points: seq<Point>, ghost ps: seq<Sample>, d: nat, se: real)
      returns (pruned: Tree)
      requires root.Tree? && Planes(root, d) && Sized(root, k) && total > 0
      requires Snapshot(points, ps) && SamplesWellFormed(ps, d, k)
      modifies this
      ensures pruned == Pruned(root, ps, d, k, total, se)
    {
      ghost var c := Chain(root, k, total);
      var treeArray, noOfTrees := BuildChain(root, c, points, ps, d);
      var selected := SelectTree(treeArray, noOfTrees, se);
      pruned := Replay(root, selected);
    }
  }

  /**
   * prune: total_points is the root's point count (read before the NULL
   * test, so the root must exist); a tree with at most two leaves is
   * returned as it is.
   */
  method Prune(dtree: Tree, points: seq<Point>, ghost ps: seq<Sample>, d: nat, k: nat, se: real) returns (r: Tree)
    requires dtree.Tree? && dtree.node.noOfPoints > 0 && Planes(dtree, d) && Sized(dtree, k)
    requires Snapshot(points, ps) && SamplesWellFormed(ps, d, k)
    ensures r == PruneResult(dtree, ps, d, k, se)
  {
    var total := dtree.node.noOfPoints;
    if LeafCount(dtree) <= 2 {
      return dtree;
    }
    var pruner := new Pruner(k, total);
    r := pruner.ErrorComplexityPrune(dtree, points, ps, d, se);
  }
}
