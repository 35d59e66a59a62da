/**
 * Decision trees (struct tree_node of oc1.h) and the structural utilities
 * shared by tree_util.c and classify_util.c: leaf_count, tree_depth and the
 * isleftchild/isrightchild label tests. A tree is a value here; the parent
 * back-pointer of each node is implied by its position in the tree.
 */
module Trees {
  import opened Oc1
  import opened Counts

  /**
   * One node: the hyperplane (D+1 coefficients, the constant last), the
   * per-category counts on either side, the majority category on either
   * side, the label ("" for the root, then one "l"/"r" per level), the
   * pruning weight alpha and the number of points that reached the node.
   */
  datatype Node = Node(
    coefficients: seq<real>,
    leftCount: seq<int>,
    rightCount: seq<int>,
    leftCat: int,
    rightCat: int,
    nodeLabel: string,
    alpha: real,
    noOfPoints: int)

  /** A NULL pointer or a node with its two subtrees. */
  datatype Tree = Nil | Tree(node: Node, left: Tree, right: Tree)

  /** The number of nodes. */
  function Size(t: Tree): nat
  {
    if t.Nil? then 0 else 1 + Size(t.left) + Size(t.right)
  }

  /** leaf_count: one for every absent child slot, so an empty tree counts one. */
  function LeafCount(t: Tree): (r: nat)
    ensures r >= 1
  {
    if t.Nil? then 1 else LeafCount(t.left) + LeafCount(t.right)
  }

  /** A binary tree has one more absent slot than it has nodes. */
  lemma {:induction false} LeafCountIsSizePlusOne(t: Tree)
    ensures LeafCount(t) == Size(t) + 1
  {
    if t.Tree? {
      LeafCountIsSizePlusOne(t.left);
      LeafCountIsSizePlusOne(t.right);
    }
  }

  /** tree_depth: the number of nodes on the longest path from the root. */
  function TreeDepth(t: Tree): nat
  {
    if t.Nil? then 0
    else
      var l, r := TreeDepth(t.left), TreeDepth(t.right);
      if l >= r then l + 1 else r + 1
  }

  function Pow2(n: nat): (r: nat)
    ensures r >= 1
  {
    if n == 0 then 1 else 2 * Pow2(n - 1)
  }

  /**
   * The depth is zero exactly for the empty tree, never exceeds the number
   * of nodes, and a tree of depth h has at most 2^h leaves.
   */
  lemma {:induction false} DepthBounds(t: Tree)
    ensures TreeDepth(t) == 0 <==> t.Nil?
    ensures TreeDepth(t) <= Size(t)
    ensures LeafCount(t) <= Pow2(TreeDepth(t))
  {
    if t.Tree? {
      DepthBounds(t.left);
      DepthBounds(t.right);
      PowMonotone(TreeDepth(t.left), TreeDepth(t) - 1);
      PowMonotone(TreeDepth(t.right), TreeDepth(t) - 1);
    }
  }

  lemma {:induction false} PowMonotone(a: nat, b: nat)
    requires a <= b
    ensures Pow2(a) <= Pow2(b)
  {
    if a < b { PowMonotone(a, b - 1); }
  }

  /** isleftchild: x's label is y's label followed by "l". */
  predicate IsLeftChild(x: Node, y: Node)
  {
    x.nodeLabel == y.nodeLabel + "l"
  }

  /** isrightchild: x's label is y's label followed by "r". */
  predicate IsRightChild(x: Node, y: Node)
  {
    x.nodeLabel == y.nodeLabel + "r"
  }

  /** Every node of t is labelled by the path to it from a node labelled lbl, one "l" or "r" per step. */
  predicate Labelled(t: Tree, lbl: string)
  {
    t.Tree? ==> t.node.nodeLabel == lbl && Labelled(t.left, lbl + "l") && Labelled(t.right, lbl + "r")
  }

  /**
   * In a labelled tree the children pass the label tests of their parent
   * and no other: the left child is a left child and not a right child,
   * and the other way round.
   */
  lemma ChildTests(t: Tree, lbl: string)
    requires Labelled(t, lbl) && t.Tree?
    ensures t.left.Tree? ==> IsLeftChild(t.left.node, t.node) && !IsRightChild(t.left.node, t.node)
    ensures t.right.Tree? ==> IsRightChild(t.right.node, t.node) && !IsLeftChild(t.right.node, t.node)
  {
    if t.left.Tree? {
      assert t.left.node.nodeLabel[|lbl|] == 'l';
    }
    if t.right.Tree? {
      assert t.right.node.nodeLabel[|lbl|] == 'r';
    }
  }

  /** A node is never both a left and a right child of the same node, and a child's label is one longer. */
  lemma ChildTestsExclusive(x: Node, y: Node)
    ensures IsLeftChild(x, y) ==> !IsRightChild(x, y) && |x.nodeLabel| == |y.nodeLabel| + 1
    ensures IsRightChild(x, y) ==> !IsLeftChild(x, y) && |x.nodeLabel| == |y.nodeLabel| + 1
  {
    if IsLeftChild(x, y) {
      assert x.nodeLabel[|y.nodeLabel|] == 'l';
    }
    if IsRightChild(x, y) {
      assert x.nodeLabel[|y.nodeLabel|] == 'r';
    }
  }

  /** The nodes in preorder: a node, then its left subtree, then its right subtree. */
  function Preorder(t: Tree): (r: seq<Node>)
    ensures |r| == Size(t)
  {
    if t.Nil? then [] else [t.node] + Preorder(t.left) + Preorder(t.right)
  }

  /** The node's majority categories are the first maxima of its counts, and its point count is their total (create_tree_node, read_hp). */
  predicate NodeCounted(n: Node, k: nat)
  {
    k >= 1 && |n.leftCount| == k && |n.rightCount| == k
    && n.leftCat == FirstMax(n.leftCount) && n.rightCat == FirstMax(n.rightCount)
    && n.noOfPoints == Sum(n.leftCount) + Sum(n.rightCount)
  }

  /** Every node of t has D+1 coefficients. */
  predicate Planes(t: Tree, d: nat)
  {
    t.Tree? ==> |t.node.coefficients| == d + 1 && Planes(t.left, d) && Planes(t.right, d)
  }

  /** Every node of t is NodeCounted with K categories. */
  predicate Counted(t: Tree, k: nat)
  {
    t.Tree? ==> NodeCounted(t.node, k) && Counted(t.left, k) && Counted(t.right, k)
  }

  /** The shape of a tree built for D dimensions and K categories. */
  predicate Shaped(t: Tree, d: nat, k: nat)
  {
    Planes(t, d) && Counted(t, k)
  }
}
