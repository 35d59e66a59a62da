/**
 * Reading and writing decision-tree files (tree_util.c, train_util.c,
 * classify_util.c). The text format is modelled one field per token; the
 * writers produce token sequences and the readers consume them. The reader
 * is specified by functions over the remaining suffix of the input and
 * implemented by the class Reader, whose position moves through the tokens
 * the way the file pointer moves through the file, with the one-node
 * lookahead of read_subtree held in its field extra.
 */
module TreeIO {
  import opened Wrappers
  import opened Oc1
  import opened Counts
  import opened Trees

  /**
   * The fields of a decision-tree file:
   *   Heading(field, left, right)    "<label> Hyperplane: Left = [..], Right = [..]"
   *   Coefficient(value, index)      "<value> x[<index>] +"
   *   Constant(value)                "<value> = 0"
   *   NameField(text)                "Training set: <text>, "
   *   Sizes(d, k)                    "Dimensions: <d>, Categories: <k>"
   *   Parameters(iterations, order)  "Program Parameters: Iter: <n>, " then "Order: <word>", if any
   */
  datatype Token =
    | Heading(field: string, left: seq<int>, right: seq<int>)
    | Coefficient(value: real, index: int)
    | Constant(value: real)
    | NameField(text: string)
    | Sizes(dimensions: nat, categories: nat)
    | Parameters(iterations: int, order: Option<string>)

  const EquationMissing: string := "Invalid/Absent hyperplane equation."
  const BadIndex: string := "Invalid coefficient index in decision tree."
  const TreeMissing: string := "Decision tree invalid/absent."

  /** a is what is left of s after a prefix has been consumed. */
  predicate IsSuffix(a: seq<Token>, s: seq<Token>)
  {
    |a| <= |s| && a == s[|s| - |a|..]
  }

  // ---------------------------------------------------------------- writing

  /** The label field of a record: "Root" stands for the root's empty label. */
  function LabelField(lbl: string): (r: string)
    ensures r != ""
  {
    if lbl == "" then "Root" else lbl
  }

  /** The terms "<c[j]> x[j+1] +" for the non-zero entries c[j] with i <= j < n, lowest index first. */
  function Terms(c: seq<real>, i: nat, n: nat): (r: seq<Token>)
    requires i <= n <= |c|
    ensures |r| <= n - i
    decreases n - i
  {
    if i == n then []
    else (if c[i] != 0.0 then [Coefficient(c[i], i + 1)] else []) + Terms(c, i + 1, n)
  }

  function HeadingOf(n: Node): Token
  {
    Heading(LabelField(n.nodeLabel), n.leftCount, n.rightCount)
  }

  /** write_hp of tree_util.c: the heading, the non-zero coefficient terms, and the constant, zero or not. */
  function WriteHp(n: Node, d: nat): seq<Token>
    requires |n.coefficients| == d + 1
  {
    [HeadingOf(n)] + Terms(n.coefficients, 0, d) + [Constant(n.coefficients[d])]
  }

  /** write_hp of train_util.c: as WriteHp, except that a zero constant is not written at all. */
  function WriteHpTrain(n: Node, d: nat): seq<Token>
    requires |n.coefficients| == d + 1
  {
    [HeadingOf(n)] + Terms(n.coefficients, 0, d)
    + (if n.coefficients[d] != 0.0 then [Constant(n.coefficients[d])] else [])
  }

  /** write_subtree of tree_util.c: the records in preorder. */
  function WriteSubtree(t: Tree, d: nat): seq<Token>
    requires Planes(t, d)
  {
    if t.Nil? then [] else WriteHp(t.node, d) + WriteSubtree(t.left, d) + WriteSubtree(t.right, d)
  }

  /** write_subtree of train_util.c, with its write_hp. */
  function WriteSubtreeTrain(t: Tree, d: nat): seq<Token>
    requires Planes(t, d)
  {
    if t.Nil? then [] else WriteHpTrain(t.node, d) + WriteSubtreeTrain(t.left, d) + WriteSubtreeTrain(t.right, d)
  }

  /** The header values a writer takes from its globals. */
  datatype Header = Header(trainingSet: string, dimensions: nat, categories: nat, iterations: int, order: int, cycleCount: int)

  function DigitChar(n: nat): char
    requires n < 10
  {
    "0123456789"[n]
  }

  /** The decimal digits of n, most significant first. */
  function Digits(n: nat): (r: string)
    ensures |r| >= 1
    ensures forall i :: 0 <= i < |r| ==> '0' <= r[i] <= '9'
    ensures n < 10 <==> |r| == 1
  {
    if n < 10 then [DigitChar(n)] else Digits(n / 10) + [DigitChar(n % 10)]
  }

  /** "%d". */
  function Decimal(n: int): string
  {
    if n < 0 then "-" + Digits(-n) else Digits(n)
  }

  /** The word after "Order: " in train_util.c's write_header; none for an unknown order. */
  function OrderWord(order: int, cycleCount: int): Option<string>
  {
    if order == Sequential then Some("Sequential")
    else if order == BestFirst then Some("Best")
    else if order == RandomOrder then Some("Random" + Decimal(cycleCount))
    else None
  }

  /** write_header of tree_util.c. */
  function WriteHeader(h: Header): seq<Token>
  {
    [NameField(h.trainingSet), Sizes(h.dimensions, h.categories)]
  }

  /** write_header of train_util.c: the program parameters follow the sizes. */
  function WriteHeaderTrain(h: Header): seq<Token>
  {
    WriteHeader(h) + [Parameters(h.iterations, OrderWord(h.order, h.cycleCount))]
  }

  /** write_tree of tree_util.c. */
  function WriteTree(h: Header, t: Tree): seq<Token>
    requires Planes(t, h.dimensions)
  {
    WriteHeader(h) + WriteSubtree(t, h.dimensions)
  }

  /** write_tree as train_util.c composes it. */
  function WriteTreeTrain(h: Header, t: Tree): seq<Token>
    requires Planes(t, h.dimensions)
  {
    WriteHeaderTrain(h) + WriteSubtreeTrain(t, h.dimensions)
  }

  /** train_util.c's writer with the constant written always, as tree_util.c's write_hp does. */
  function WriteTreeTrainCorrected(h: Header, t: Tree): seq<Token>
    requires Planes(t, h.dimensions)
  {
    WriteHeaderTrain(h) + WriteSubtree(t, h.dimensions)
  }

  // ---------------------------------------------------------------- reading

  /** "%[^,]" matches a non-empty text without a comma, which ", " then ends. */
  predicate NameOk(text: string)
  {
    text != "" && ',' !in text
  }

  /** What read_header stores: parameters only in classify_util.c's version. */
  datatype HeaderRead = HeaderRead(trainingSet: string, dimensions: nat, categories: nat, parameters: Option<(int, string)>)

  /**
   * read_header: the name and sizes, and with parameters also the iterations
   * and the order word; None where read_header returns 0.
   */
  function ReadHeaderFields(s: seq<Token>, parameters: bool): (r: Option<(HeaderRead, seq<Token>)>)
    ensures r.Some? ==> IsSuffix(r.value.1, s) && NameOk(r.value.0.trainingSet)
    ensures r.Some? ==> (r.value.0.parameters.Some? <==> parameters)
  {
    if |s| < 2 || !s[0].NameField? || !NameOk(s[0].text) || !s[1].Sizes? then None
    else if !parameters then Some((HeaderRead(s[0].text, s[1].dimensions, s[1].categories, None), s[2..]))
    else if |s| < 3 || !s[2].Parameters? || s[2].order.None? then None
    else Some((HeaderRead(s[0].text, s[1].dimensions, s[1].categories, Some((s[2].iterations, s[2].order.value))), s[3..]))
  }

  /**
   * The equation loop of read_hp: terms set coefficients until the
   * constant ends the equation. Returns the coefficients and the number of
   * tokens used; anything but a term or the constant is fatal.
   */
  function ReadEquation(s: seq<Token>, c: seq<real>, d: nat): (r: (Result<seq<real>>, nat))
    requires |c| == d + 1
    ensures r.0.Ok? ==> 1 <= r.1 <= |s| && |r.0.value| == d + 1
    decreases |s|
  {
    if |s| == 0 then (Fatal(EquationMissing), 0)
    else match s[0]
      case Coefficient(v, j) =>
        if j <= 0 || j > d + 1 then (Fatal(BadIndex), 0)
        else
          var e := ReadEquation(s[1..], c[j - 1 := v], d);
          (e.0, e.1 + 1)
      case Constant(v) => (Ok(c[d := v]), 1)
      case _ => (Fatal(EquationMissing), 0)
  }

  /** The majority category read_hp computes: the first maximum, 1 when there is nothing to compare. */
  function Majority(s: seq<int>): (m: int)
    ensures |s| >= 1 ==> m == FirstMax(s)
  {
    if |s| == 0 then 1 else FirstMax(s)
  }

  /** read_hp's outcomes: NULL, a fatal error, or a node and the number of tokens it used. */
  datatype Hp = NoNode | Broken(message: string) | Got(node: Node, used: nat)

  /**
   * read_hp: NULL unless a heading with K counts on each side comes next;
   * "Root" is read back as the empty label, the point count is the total
   * of the counts and the majority categories are their first maxima.
   */
  function ReadRecord(s: seq<Token>, d: nat, k: nat): (r: Hp)
    ensures r.Got? ==> 1 <= r.used <= |s| && |r.node.coefficients| == d + 1
    ensures r.Got? ==> |r.node.leftCount| == k && |r.node.rightCount| == k
  {
    if |s| == 0 || !s[0].Heading? || |s[0].left| != k || |s[0].right| != k then NoNode
    else
      var e := ReadEquation(s[1..], Zeros(d + 1), d);
      match e.0
      case Fatal(m) => Broken(m)
      case Ok(c) =>
        var h := s[0];
        Got(Node(c, h.left, h.right, Majority(h.left), Majority(h.right),
                 if h.field == "Root" then "" else h.field, 0.0, Sum(h.left) + Sum(h.right)),
            e.1 + 1)
  }

  /** The next node for read_subtree: the lookahead if there is one, else the next record. */
  datatype Taken = Taken(node: Option<Node>, rest: seq<Token>)

  function Pending(s: seq<Token>, extra: Option<Node>, d: nat, k: nat): (r: Result<Taken>)
    ensures r.Ok? ==> |r.value.rest| <= |s|
    ensures r.Ok? && extra.None? && r.value.node.Some? ==> |r.value.rest| < |s|
    ensures r.Ok? && extra.Some? ==> r.value == Taken(extra, s)
  {
    if extra.Some? then Ok(Taken(extra, s))
    else match ReadRecord(s, d, k)
      case NoNode => Ok(Taken(None, s))
      case Broken(m) => Fatal(m)
      case Got(n, u) => Ok(Taken(Some(n), s[u..]))
  }

  /** What read_subtree leaves: the two subtrees of its root, the input left, and the lookahead. */
  datatype Scan = Scan(left: Tree, right: Tree, rest: seq<Token>, extra: Option<Node>)

  /**
   * read_subtree: a node read that is the left child of root becomes its
   * left subtree, read recursively, and the node after it is the candidate
   * right child; otherwise the node read is the candidate right child.
   */
  function ReadChildren(s: seq<Token>, extra: Option<Node>, root: Node, d: nat, k: nat): (r: Result<Scan>)
    ensures r.Ok? ==> |r.value.rest| <= |s|
    decreases |s|, if extra.Some? then 3 else 0
  {
    match Pending(s, extra, d, k)
    case Fatal(m) => Fatal(m)
    case Ok(Taken(None, s1)) => Ok(Scan(Nil, Nil, s1, None))
    case Ok(Taken(Some(cur), s1)) =>
      if IsLeftChild(cur, root) then
        match ReadChildren(s1, None, cur, d, k)
        case Fatal(m) => Fatal(m)
        case Ok(sc) => AfterLeft(Tree(cur, sc.left, sc.right), sc.rest, sc.extra, root, d, k)
      else RightPart(Nil, cur, s1, root, d, k)
  }

  /** read_subtree after the left subtree: the next node, if any, is the candidate right child. */
  function AfterLeft(left: Tree, s: seq<Token>, extra: Option<Node>, root: Node, d: nat, k: nat): (r: Result<Scan>)
    ensures r.Ok? ==> |r.value.rest| <= |s|
    decreases |s|, 2
  {
    match Pending(s, extra, d, k)
    case Fatal(m) => Fatal(m)
    case Ok(Taken(None, s2)) => Ok(Scan(left, Nil, s2, None))
    case Ok(Taken(Some(next), s2)) => RightPart(left, next, s2, root, d, k)
  }

  /**
   * read_subtree's candidate right child: if it is the right child of root
   * it becomes the right subtree, read recursively; any other node is kept
   * as the lookahead for an ancestor.
   */
  function RightPart(left: Tree, next: Node, s: seq<Token>, root: Node, d: nat, k: nat): (r: Result<Scan>)
    ensures r.Ok? ==> |r.value.rest| <= |s|
    decreases |s|, 1
  {
    if IsRightChild(next, root) then
      match ReadChildren(s, None, next, d, k)
      case Fatal(m) => Fatal(m)
      case Ok(sc) => Ok(Scan(left, Tree(next, sc.left, sc.right), sc.rest, sc.extra))
    else Ok(Scan(left, Nil, s, Some(next)))
  }

  /** read_tree: the header, the root record, and the subtrees read after it; whatever follows is ignored. */
  function ReadTreeFile(s: seq<Token>, parameters: bool): Result<(HeaderRead, Tree)>
  {
    match ReadHeaderFields(s, parameters)
    case None => Fatal(TreeMissing)
    case Some((h, s1)) => ReadRoot(s1, h)
  }

  /** read_tree after the header: the root record (NULL is fatal) and the subtrees read after it. */
  function ReadRoot(s: seq<Token>, h: HeaderRead): Result<(HeaderRead, Tree)>
  {
    match ReadRecord(s, h.dimensions, h.categories)
    case NoNode => Fatal(TreeMissing)
    case Broken(m) => Fatal(m)
    case Got(root, u) =>
      match ReadChildren(s[u..], None, root, h.dimensions, h.categories)
      case Fatal(m) => Fatal(m)
      case Ok(sc) => Ok((h, Tree(root, sc.left, sc.right)))
  }

  /** A reader's result and state agree with the outcome of a read_subtree specification. */
  predicate Scanned(r: Result<(Tree, Tree)>, spec: Result<Scan>, rest: seq<Token>, extra: Option<Node>)
  {
    match spec
    case Fatal(m) => r == Fatal(m)
    case Ok(sc) => r == Ok((sc.left, sc.right)) && rest == sc.rest && extra == sc.extra
  }

  // ---------------------------------------------------------------- the reader

  /** The file being read, the read position, and read_subtree's lookahead node extra_node. */
  class Reader {
    const toks: seq<Token>
    var pos: nat
    var extra: Option<Node>

    constructor (toks: seq<Token>)
      ensures this.toks == toks && pos == 0 && extra.None?
    {
      this.toks := toks;
      pos := 0;
      extra := None;
    }

    ghost predicate Valid()
      reads this
    {
      pos <= |toks|
    }

    /** read_header: consumes the header fields. */
    method ReadHeader(parameters: bool) returns (r: Option<HeaderRead>)
      requires Valid()
      modifies this`pos
      ensures Valid()
      ensures match ReadHeaderFields(toks[old(pos)..], parameters)
        case None => r.None?
        case Some((h, rest)) => r == Some(h) && toks[pos..] == rest
    {
      if pos + 2 > |toks| || !toks[pos].NameField? || !NameOk(toks[pos].text) || !toks[pos + 1].Sizes? {
        return None;
      }
      var name, sizes := toks[pos], toks[pos + 1];
      if !parameters {
        r := Some(HeaderRead(name.text, sizes.dimensions, sizes.categories, None));
        pos := pos + 2;
        return;
      }
      if pos + 3 > |toks| || !toks[pos + 2].Parameters? || toks[pos + 2].order.None? {
        return None;
      }
      var p := toks[pos + 2];
      r := Some(HeaderRead(name.text, sizes.dimensions, sizes.categories, Some((p.iterations, p.order.value))));
      pos := pos + 3;
    }

    /** read_hp: one record, with the equation read term by term. */
    method ReadHp(d: nat, k: nat) returns (h: Hp)
      requires Valid()
      modifies this`pos
      ensures Valid()
      ensures h == ReadRecord(toks[old(pos)..], d, k)
      ensures h.Got? ==> pos == old(pos) + h.used
      ensures !h.Got? ==> pos == old(pos)
    {
      if pos == |toks| || !toks[pos].Heading? || |toks[pos].left| != k || |toks[pos].right| != k {
        return NoNode;
      }
      ghost var s := toks[pos..];
      assert s[1..] == toks[pos + 1..];
      var head := toks[pos];
      var c, used := ReadEquationAt(pos + 1, d);
      if c.Fatal? {
        return Broken(c.message);
      }
      h := Got(Node(c.value, head.left, head.right, Majority(head.left), Majority(head.right),
                    if head.field == "Root" then "" else head.field, 0.0, Sum(head.left) + Sum(head.right)),
               used + 1);
      pos := pos + used + 1;
    }

    /** read_hp's equation loop from token i0 on: the coefficients, or the fatal error, and the tokens used. */
    method ReadEquationAt(i0: nat, d: nat) returns (c: Result<seq<real>>, used: nat)
      requires i0 <= |toks|
      ensures (c, used) == ReadEquation(toks[i0..], Zeros(d + 1), d)
    {
      var z := Zeros(d + 1);
      var i := i0;
      ghost var goal := ReadEquation(toks[i0..], z, d);
      while true
        invariant i0 <= i <= |toks| && |z| == d + 1
        invariant ReadEquation(toks[i..], z, d).0 == goal.0
        invariant ReadEquation(toks[i..], z, d).1 + (i - i0) == goal.1
        decreases |toks| - i
      {
        if i == |toks| {
          return Fatal(EquationMissing), i - i0;
        }
        assert toks[i..][1..] == toks[i + 1..];
        match toks[i]
        case Coefficient(v, j) =>
          if j <= 0 || j > d + 1 {
            return Fatal(BadIndex), i - i0;
          }
          z := z[j - 1 := v];
          i := i + 1;
        case Constant(v) =>
          return Ok(z[d := v]), i + 1 - i0;
        case _ =>
          return Fatal(EquationMissing), i - i0;
      }
    }

    /** The next node for read_subtree: extra_node if set (clearing it), else read_hp's record. */
    method Next(d: nat, k: nat) returns (r: Result<Option<Node>>)
      requires Valid()
      modifies this
      ensures Valid() && old(pos) <= pos && extra.None?
      ensures match Pending(toks[old(pos)..], old(extra), d, k)
        case Fatal(m) => r == Fatal(m)
        case Ok(tk) => r == Ok(tk.node) && toks[pos..] == tk.rest
    {
      if extra.Some? {
        r := Ok(extra);
        extra := None;
        return;
      }
      var h := ReadHp(d, k);
      match h
      case NoNode => r := Ok(None);
      case Broken(m) => r := Fatal(m);
      case Got(n, u) =>
        r := Ok(Some(n));
        assert toks[old(pos)..][u..] == toks[pos..];
    }

    /** read_subtree: reads the subtrees of root, leaving any node that is not one of its children in extra. */
    method ReadSubtree(root: Node, d: nat, k: nat) returns (r: Result<(Tree, Tree)>)
      requires Valid()
      modifies this
      ensures Valid() && old(pos) <= pos
      ensures Scanned(r, ReadChildren(toks[old(pos)..], old(extra), root, d, k), toks[pos..], extra)
      decreases |toks| - pos, if extra.Some? then 2 else 0
    {
      ghost var s0, e0 := toks[pos..], extra;
      var cur := Next(d, k);
      if cur.Fatal? {
        return Fatal(cur.message);
      }
      if cur.value.None? {
        return Ok((Nil, Nil));
      }
      var node := cur.value.value;
      var left := Nil;
      if IsLeftChild(node, root) {
        ghost var s1 := toks[pos..];
        var sub := ReadSubtree(node, d, k);
        if sub.Fatal? {
          return Fatal(sub.message);
        }
        left := Tree(node, sub.value.0, sub.value.1);
        ghost var s2, e2 := toks[pos..], extra;
        assert ReadChildren(s0, e0, root, d, k) == AfterLeft(left, s2, e2, root, d, k);
        cur := Next(d, k);
        if cur.Fatal? {
          return Fatal(cur.message);
        }
        if cur.value.None? {
          return Ok((left, Nil));
        }
        node := cur.value.value;
        assert ReadChildren(s0, e0, root, d, k) == RightPart(left, node, toks[pos..], root, d, k);
      } else {
        assert ReadChildren(s0, e0, root, d, k) == RightPart(Nil, node, toks[pos..], root, d, k);
      }
      r := ReadRight(left, node, root, d, k);
    }

    /** The end of read_subtree: the candidate node becomes the right subtree or the lookahead. */
    method ReadRight(left: Tree, node: Node, root: Node, d: nat, k: nat) returns (r: Result<(Tree, Tree)>)
      requires Valid() && extra.None?
      modifies this
      ensures Valid() && old(pos) <= pos
      ensures Scanned(r, RightPart(left, node, toks[old(pos)..], root, d, k), toks[pos..], extra)
      decreases |toks| - pos, 1
    {
      if IsRightChild(node, root) {
        var sub := ReadSubtree(node, d, k);
        if sub.Fatal? {
          return Fatal(sub.message);
        }
        r := Ok((left, Tree(node, sub.value.0, sub.value.1)));
      } else {
        extra := Some(node);
        r := Ok((left, Nil));
      }
    }

    /** read_tree: the header, then the root and its subtrees. */
    method ReadTree(parameters: bool) returns (r: Result<(HeaderRead, Tree)>)
      requires Valid()
      modifies this
      ensures r == ReadTreeFile(toks[old(pos)..], parameters)
    {
      ghost var s0 := toks[pos..];
      var h := ReadHeader(parameters);
      if h.None? {
        return Fatal(TreeMissing);
      }
      assert ReadTreeFile(s0, parameters) == ReadRoot(toks[pos..], h.value);
      r := ReadRootTree(h.value);
    }

    /** The rest of read_tree: the root (NULL is fatal), then its subtrees with no lookahead. */
    method ReadRootTree(hr: HeaderRead) returns (r: Result<(HeaderRead, Tree)>)
      requires Valid()
      modifies this
      ensures r == ReadRoot(toks[old(pos)..], hr)
    {
      ghost var s := toks[pos..];
      var root := ReadHp(hr.dimensions, hr.categories);
      if root.NoNode? {
        return Fatal(TreeMissing);
      }
      if root.Broken? {
        return Fatal(root.message);
      }
      assert s[root.used..] == toks[pos..];
      extra := None;
      var sub := ReadSubtree(root.node, hr.dimensions, hr.categories);
      if sub.Fatal? {
        return Fatal(sub.message);
      }
      r := Ok((hr, Tree(root.node, sub.value.0, sub.value.1)));
    }
  }

  // ---------------------------------------------------------------- properties

  /** A node as read back: read_hp does not read alpha, which the model reads as zero. */
  function Stored(n: Node): Node
  {
    n.(alpha := 0.0)
  }

  function StoredTree(t: Tree): (r: Tree)
    ensures Size(r) == Size(t)
  {
    if t.Nil? then Nil else Tree(Stored(t.node), StoredTree(t.left), StoredTree(t.right))
  }

  /** z with entry j replaced by c[j] for every non-zero c[j] with i <= j < n, as the terms of Terms(c, i, n) do. */
  function Applied(z: seq<real>, c: seq<real>, i: nat, n: nat): (r: seq<real>)
    requires i <= n <= |c| && |z| == |c|
    ensures |r| == |z|
    decreases n - i
  {
    if i == n then z
    else Applied(if c[i] != 0.0 then z[i := c[i]] else z, c, i + 1, n)
  }

  /** The terms set exactly the non-zero coefficients among them. */
  lemma {:induction false} AppliedEntry(z: seq<real>, c: seq<real>, i: nat, n: nat, j: nat)
    requires i <= n <= |c| && |z| == |c| && j < |c|
    ensures Applied(z, c, i, n)[j] == if i <= j < n && c[j] != 0.0 then c[j] else z[j]
    decreases n - i
  {
    if i < n {
      AppliedEntry(if c[i] != 0.0 then z[i := c[i]] else z, c, i + 1, n, j);
    }
  }

  /** An equation result with m more tokens used. */
  function Later(e: (Result<seq<real>>, nat), m: nat): (Result<seq<real>>, nat)
  {
    (e.0, e.1 + m)
  }

  /** Every token of p is a coefficient term with a valid index. */
  predicate AllTerms(p: seq<Token>, d: nat)
  {
    |p| > 0 ==> p[0].Coefficient? && 1 <= p[0].index <= d + 1 && AllTerms(p[1..], d)
  }

  /** z after the terms of p, first to last. */
  function ApplyTerms(z: seq<real>, p: seq<Token>, d: nat): (r: seq<real>)
    requires AllTerms(p, d) && |z| == d + 1
    ensures |r| == d + 1
    decreases |p|
  {
    if |p| == 0 then z else ApplyTerms(z[p[0].index - 1 := p[0].value], p[1..], d)
  }

  /** The equation loop reads a run of terms one by one and then carries on with what follows them. */
  lemma {:induction false} ReadPrefix(p: seq<Token>, s: seq<Token>, z: seq<real>, d: nat)
    requires AllTerms(p, d) && |z| == d + 1
    ensures ReadEquation(p + s, z, d) == Later(ReadEquation(s, ApplyTerms(z, p, d), d), |p|)
  {
    if |p| == 0 {
      assert p + s == s;
    } else {
      assert (p + s)[1..] == p[1..] + s;
      ReadPrefix(p[1..], s, z[p[0].index - 1 := p[0].value], d);
    }
  }

  /** The written terms are a run of terms that set exactly what Applied sets. */
  lemma {:induction false} TermsApply(c: seq<real>, i: nat, n: nat, z: seq<real>, d: nat)
    requires i <= n <= d && |c| == d + 1 && |z| == d + 1
    ensures AllTerms(Terms(c, i, n), d) && ApplyTerms(z, Terms(c, i, n), d) == Applied(z, c, i, n)
    decreases n - i
  {
    if i < n {
      var y := if c[i] != 0.0 then z[i := c[i]] else z;
      var w, t := Terms(c, i, n), Terms(c, i + 1, n);
      TermsApply(c, i + 1, n, y, d);
      if c[i] != 0.0 {
        assert w == [Coefficient(c[i], i + 1)] + t;
        assert w[1..] == t;
        assert ApplyTerms(z, w, d) == ApplyTerms(y, t, d);
      } else {
        assert w == t;
      }
    }
  }

  /** The equation loop reads the written terms and then carries on with what follows them. */
  lemma ReadTerms(c: seq<real>, i: nat, n: nat, z: seq<real>, s: seq<Token>, d: nat)
    requires i <= n <= d && |c| == d + 1 && |z| == d + 1
    ensures ReadEquation(Terms(c, i, n) + s, z, d) == Later(ReadEquation(s, Applied(z, c, i, n), d), |Terms(c, i, n)|)
  {
    TermsApply(c, i, n, z, d);
    ReadPrefix(Terms(c, i, n), s, z, d);
  }

  /** read_hp reads back what write_hp of tree_util.c wrote, with alpha zero, and uses exactly its tokens. */
  lemma ReadRecordOfWritten(n: Node, d: nat, k: nat, rest: seq<Token>)
    requires NodeCounted(n, k) && |n.coefficients| == d + 1 && n.nodeLabel != "Root"
    ensures ReadRecord(WriteHp(n, d) + rest, d, k) == Got(Stored(n), |WriteHp(n, d)|)
  {
    var c := n.coefficients;
    var s := WriteHp(n, d) + rest;
    var tail := [Constant(c[d])] + rest;
    assert s[1..] == Terms(c, 0, d) + tail;
    ReadTerms(c, 0, d, Zeros(d + 1), tail, d);
    var a := Applied(Zeros(d + 1), c, 0, d);
    forall j | 0 <= j < d + 1
      ensures a[d := c[d]][j] == c[j]
    {
      AppliedEntry(Zeros(d + 1), c, 0, d, j);
    }
    assert a[d := c[d]] == c;
  }

  /** Every character of the label is an "l" or an "r". */
  predicate Path(lbl: string)
  {
    forall i :: 0 <= i < |lbl| ==> lbl[i] == 'l' || lbl[i] == 'r'
  }

  lemma PathStep(lbl: string, ch: char)
    requires Path(lbl) && (ch == 'l' || ch == 'r')
    ensures Path(lbl + [ch]) && lbl + [ch] != "Root"
  {
    assert (lbl + [ch])[0] != 'R';
  }

  /** a is a label below the node labelled lbl. */
  predicate Extends(a: string, lbl: string)
  {
    |a| > |lbl| && a[..|lbl|] == lbl
  }

  /**
   * What follows the records of a subtree labelled lbl does not continue
   * that subtree: it is the end of the records, or a record whose label is
   * not below lbl.
   */
  predicate Follows(rest: seq<Token>, lbl: string, d: nat, k: nat)
  {
    match ReadRecord(rest, d, k)
    case NoNode => true
    case Broken(_) => false
    case Got(n, _) => !Extends(n.nodeLabel, lbl)
  }

  /** The lookahead read_subtree is left with after a subtree followed by rest. */
  function Lookahead(rest: seq<Token>, d: nat, k: nat): Option<Node>
  {
    match ReadRecord(rest, d, k)
    case Got(n, _) => Some(n)
    case _ => None
  }

  /** The input read_subtree is left with after a subtree followed by rest. */
  function After(rest: seq<Token>, d: nat, k: nat): seq<Token>
  {
    match ReadRecord(rest, d, k)
    case Got(_, u) => rest[u..]
    case _ => rest
  }

  lemma NotBelowNotChild(n: Node, root: Node)
    requires !Extends(n.nodeLabel, root.nodeLabel)
    ensures !IsLeftChild(n, root) && !IsRightChild(n, root)
  {
    var lbl := root.nodeLabel;
    assert (lbl + "l")[..|lbl|] == lbl;
    assert (lbl + "r")[..|lbl|] == lbl;
  }

  lemma ExtendsShorter(a: string, lbl: string, ch: char)
    requires Extends(a, lbl + [ch])
    ensures Extends(a, lbl)
  {
    assert a[..|lbl|] == a[..|lbl| + 1][..|lbl|];
    assert (lbl + [ch])[..|lbl|] == lbl;
  }

  lemma FollowsBelow(rest: seq<Token>, lbl: string, ch: char, d: nat, k: nat)
    requires Follows(rest, lbl, d, k)
    ensures Follows(rest, lbl + [ch], d, k)
  {
    if ReadRecord(rest, d, k).Got? {
      var a := ReadRecord(rest, d, k).node.nodeLabel;
      if Extends(a, lbl + [ch]) {
        ExtendsShorter(a, lbl, ch);
      }
    }
  }

  /** t is a subtree as it was built: labelled from lbl, with D+1 coefficients and K counted categories at every node. */
  predicate Sub(t: Tree, lbl: string, d: nat, k: nat)
  {
    Labelled(t, lbl) && Shaped(t, d, k)
  }

  /**
   * l and r are the subtrees below root, whose label is a path, and what
   * follows their records does not continue them.
   */
  predicate Fits(l: Tree, r: Tree, root: Node, rest: seq<Token>, d: nat, k: nat)
  {
    Path(root.nodeLabel) && Sub(l, root.nodeLabel + "l", d, k) && Sub(r, root.nodeLabel + "r", d, k)
    && Follows(rest, root.nodeLabel, d, k)
  }

  /** The records of the children of a written subtree, followed by rest. */
  function Below(t: Tree, rest: seq<Token>, d: nat): seq<Token>
    requires t.Tree? && Planes(t, d)
  {
    WriteSubtree(t.left, d) + (WriteSubtree(t.right, d) + rest)
  }

  /** The first record of a written subtree is its root, read back, and its children's records come next. */
  lemma FirstRecord(t: Tree, lbl: string, rest: seq<Token>, d: nat, k: nat)
    requires t.Tree? && Path(lbl) && Sub(t, lbl, d, k) && lbl != "Root"
    ensures ReadRecord(WriteSubtree(t, d) + rest, d, k) == Got(Stored(t.node), |WriteHp(t.node, d)|)
    ensures (WriteSubtree(t, d) + rest)[|WriteHp(t.node, d)|..] == Below(t, rest, d)
  {
    var x := Below(t, rest, d);
    assert WriteSubtree(t, d) + rest == WriteHp(t.node, d) + x;
    ReadRecordOfWritten(t.node, d, k, x);
  }

  /** The records of a right subtree follow those of its left sibling. */
  lemma FollowsSibling(r: Tree, rest: seq<Token>, lbl: string, d: nat, k: nat)
    requires Path(lbl) && Sub(r, lbl + "r", d, k) && Follows(rest, lbl, d, k)
    ensures Follows(WriteSubtree(r, d) + rest, lbl + "l", d, k)
  {
    if r.Nil? {
      assert WriteSubtree(r, d) + rest == rest;
      FollowsBelow(rest, lbl, 'l', d, k);
    } else {
      PathStep(lbl, 'r');
      FirstRecord(r, lbl + "r", rest, d, k);
    }
  }

  /** read_subtree with no lookahead and a record that is the left child of root next. */
  lemma LeftStep(s: seq<Token>, root: Node, n: Node, u: nat, sc: Scan, d: nat, k: nat)
    requires ReadRecord(s, d, k) == Got(n, u) && IsLeftChild(n, root) && ReadChildren(s[u..], None, n, d, k) == Ok(sc)
    ensures ReadChildren(s, None, root, d, k) == AfterLeft(Tree(n, sc.left, sc.right), sc.rest, sc.extra, root, d, k)
  {
  }

  /** read_subtree with no lookahead and a record that is not the left child of root next. */
  lemma RightStep(s: seq<Token>, root: Node, n: Node, u: nat, d: nat, k: nat)
    requires ReadRecord(s, d, k) == Got(n, u) && !IsLeftChild(n, root)
    ensures ReadChildren(s, None, root, d, k) == RightPart(Nil, n, s[u..], root, d, k)
  {
  }

  /**
   * read_subtree reads back what write_subtree wrote: below a node labelled
   * by a path, the records of its labelled subtrees become those subtrees,
   * and a following record not below the node is left as the lookahead.
   */
  lemma {:induction false} ReadsBack(l: Tree, r: Tree, root: Node, rest: seq<Token>, d: nat, k: nat)
    requires Fits(l, r, root, rest, d, k)
    ensures ReadChildren(WriteSubtree(l, d) + (WriteSubtree(r, d) + rest), None, root, d, k)
         == Ok(Scan(StoredTree(l), StoredTree(r), After(rest, d, k), Lookahead(rest, d, k)))
    decreases Size(l) + Size(r), 3
  {
    if l.Tree? {
      ReadsBackLeft(l, r, root, rest, d, k);
    } else if r.Tree? {
      assert WriteSubtree(l, d) + (WriteSubtree(r, d) + rest) == WriteSubtree(r, d) + rest;
      ReadsBackRight(r, root, rest, d, k);
    } else {
      assert WriteSubtree(l, d) + (WriteSubtree(r, d) + rest) == rest;
      if ReadRecord(rest, d, k).Got? {
        NotBelowNotChild(ReadRecord(rest, d, k).node, root);
      }
    }
  }

  /** ReadsBack when there is a left subtree: its records come first. */
  lemma {:induction false} ReadsBackLeft(l: Tree, r: Tree, root: Node, rest: seq<Token>, d: nat, k: nat)
    requires l.Tree? && Fits(l, r, root, rest, d, k)
    ensures ReadChildren(WriteSubtree(l, d) + (WriteSubtree(r, d) + rest), None, root, d, k)
         == Ok(Scan(StoredTree(l), StoredTree(r), After(rest, d, k), Lookahead(rest, d, k)))
    decreases Size(l) + Size(r), 2
  {
    var lbl := root.nodeLabel;
    var wr := WriteSubtree(r, d) + rest;
    PathStep(lbl, 'l');
    FirstRecord(l, lbl + "l", wr, d, k);
    FollowsSibling(r, rest, lbl, d, k);
    ReadsBack(l.left, l.right, Stored(l.node), wr, d, k);
    LeftStep(WriteSubtree(l, d) + wr, root, Stored(l.node), |WriteHp(l.node, d)|,
             Scan(StoredTree(l.left), StoredTree(l.right), After(wr, d, k), Lookahead(wr, d, k)), d, k);
    AfterLeftOfWritten(StoredTree(l), r, root, rest, d, k);
  }

  /** ReadsBack when there is only a right subtree: its root record is not a left child. */
  lemma {:induction false} ReadsBackRight(r: Tree, root: Node, rest: seq<Token>, d: nat, k: nat)
    requires r.Tree? && Fits(Nil, r, root, rest, d, k)
    ensures ReadChildren(WriteSubtree(r, d) + rest, None, root, d, k)
         == Ok(Scan(Nil, StoredTree(r), After(rest, d, k), Lookahead(rest, d, k)))
    decreases Size(r), 2
  {
    PathStep(root.nodeLabel, 'r');
    FirstRecord(r, root.nodeLabel + "r", rest, d, k);
    ChildTestsExclusive(Stored(r.node), root);
    RightStep(WriteSubtree(r, d) + rest, root, Stored(r.node), |WriteHp(r.node, d)|, d, k);
    RightOfWritten(Nil, r, root, rest, d, k);
  }

  /** After a left subtree, the records of the right subtree and then rest are read as they were written. */
  lemma {:induction false} AfterLeftOfWritten(left: Tree, r: Tree, root: Node, rest: seq<Token>, d: nat, k: nat)
    requires Fits(Nil, r, root, rest, d, k)
    ensures AfterLeft(left, After(WriteSubtree(r, d) + rest, d, k), Lookahead(WriteSubtree(r, d) + rest, d, k), root, d, k)
         == Ok(Scan(left, StoredTree(r), After(rest, d, k), Lookahead(rest, d, k)))
    decreases Size(r), 1
  {
    if r.Tree? {
      PathStep(root.nodeLabel, 'r');
      FirstRecord(r, root.nodeLabel + "r", rest, d, k);
      RightOfWritten(left, r, root, rest, d, k);
    } else {
      assert WriteSubtree(r, d) + rest == rest;
      if ReadRecord(rest, d, k).Got? {
        NotBelowNotChild(ReadRecord(rest, d, k).node, root);
      }
    }
  }

  /** A written right subtree, its root record already read, is read back as it was written. */
  lemma {:induction false} RightOfWritten(left: Tree, r: Tree, root: Node, rest: seq<Token>, d: nat, k: nat)
    requires r.Tree? && Fits(Nil, r, root, rest, d, k)
    ensures RightPart(left, Stored(r.node), Below(r, rest, d), root, d, k)
         == Ok(Scan(left, StoredTree(r), After(rest, d, k), Lookahead(rest, d, k)))
    decreases Size(r), 0
  {
    PathStep(root.nodeLabel, 'r');
    FollowsBelow(rest, root.nodeLabel, 'r', d, k);
    ReadsBack(r.left, r.right, Stored(r.node), rest, d, k);
  }

  /** The records of a whole tree are read back as the tree, with nothing left over and no lookahead. */
  lemma ReadsWholeTree(t: Tree, d: nat, k: nat)
    requires t.Tree? && Sub(t, "", d, k)
    ensures ReadRecord(WriteSubtree(t, d), d, k) == Got(Stored(t.node), |WriteHp(t.node, d)|)
    ensures ReadChildren(WriteSubtree(t, d)[|WriteHp(t.node, d)|..], None, Stored(t.node), d, k)
         == Ok(Scan(StoredTree(t.left), StoredTree(t.right), [], None))
  {
    assert WriteSubtree(t, d) + [] == WriteSubtree(t, d);
    FirstRecord(t, "", [], d, k);
    ReadsBack(t.left, t.right, Stored(t.node), [], d, k);
  }

  /** read_header of tree_util.c reads back write_header's name and sizes, exactly when the name is readable. */
  lemma HeaderRoundTrip(h: Header, rest: seq<Token>)
    ensures ReadHeaderFields(WriteHeader(h) + rest, false)
         == if NameOk(h.trainingSet) then Some((HeaderRead(h.trainingSet, h.dimensions, h.categories, None), rest)) else None
  {
    assert (WriteHeader(h) + rest)[2..] == rest;
  }

  /**
   * read_header of classify_util.c reads back train_util.c's header, the
   * order word included, exactly when the name is readable and the order is
   * one of the three known ones.
   */
  lemma HeaderTrainRoundTrip(h: Header, rest: seq<Token>)
    ensures ReadHeaderFields(WriteHeaderTrain(h) + rest, true)
         == if NameOk(h.trainingSet) && OrderWord(h.order, h.cycleCount).Some?
            then Some((HeaderRead(h.trainingSet, h.dimensions, h.categories,
                                  Some((h.iterations, OrderWord(h.order, h.cycleCount).value))), rest))
            else None
  {
    assert (WriteHeaderTrain(h) + rest)[3..] == rest;
  }

  /** read_tree of tree_util.c reads back what its write_tree wrote, for a tree built with labels from the root. */
  lemma RoundTrip(h: Header, t: Tree)
    requires t.Tree? && Sub(t, "", h.dimensions, h.categories) && NameOk(h.trainingSet)
    ensures ReadTreeFile(WriteTree(h, t), false)
         == Ok((HeaderRead(h.trainingSet, h.dimensions, h.categories, None), StoredTree(t)))
  {
    HeaderRoundTrip(h, WriteSubtree(t, h.dimensions));
    ReadsWholeTree(t, h.dimensions, h.categories);
  }

  /** With the constant always written, classify_util.c's read_tree reads back train_util.c's file. */
  lemma RoundTripTrainCorrected(h: Header, t: Tree)
    requires t.Tree? && Sub(t, "", h.dimensions, h.categories) && NameOk(h.trainingSet)
    requires OrderWord(h.order, h.cycleCount).Some?
    ensures ReadTreeFile(WriteTreeTrainCorrected(h, t), true)
         == Ok((HeaderRead(h.trainingSet, h.dimensions, h.categories,
                           Some((h.iterations, OrderWord(h.order, h.cycleCount).value))), StoredTree(t)))
  {
    HeaderTrainRoundTrip(h, WriteSubtree(t, h.dimensions));
    ReadsWholeTree(t, h.dimensions, h.categories);
  }

  /** train_util.c's records start with a heading, when there are any. */
  lemma TrainRecordsStart(t: Tree, d: nat)
    requires Planes(t, d)
    ensures WriteSubtreeTrain(t, d) == [] || WriteSubtreeTrain(t, d)[0].Heading?
  {
    if t.Tree? {
      assert WriteSubtreeTrain(t, d)[0] == HeadingOf(t.node);
    }
  }

  /**
   * train_util.c's writer loses a root whose constant is zero: the equation
   * runs into the next heading, or the end of the file, and reading it is
   * fatal.
   */
  lemma ZeroConstantUnreadable(h: Header, t: Tree)
    requires t.Tree? && Planes(t, h.dimensions) && t.node.coefficients[h.dimensions] == 0.0
    requires |t.node.leftCount| == h.categories && |t.node.rightCount| == h.categories
    requires NameOk(h.trainingSet) && OrderWord(h.order, h.cycleCount).Some?
    ensures ReadTreeFile(WriteTreeTrain(h, t), true) == Fatal(EquationMissing)
  {
    var d := h.dimensions;
    var w := WriteSubtreeTrain(t, d);
    var tail := WriteSubtreeTrain(t.left, d) + WriteSubtreeTrain(t.right, d);
    HeaderTrainRoundTrip(h, w);
    assert w == WriteHpTrain(t.node, d) + tail;
    TrainRecordsStart(t.left, d);
    TrainRecordsStart(t.right, d);
    if WriteSubtreeTrain(t.left, d) == [] {
      assert tail == WriteSubtreeTrain(t.right, d);
    } else {
      assert tail[0] == WriteSubtreeTrain(t.left, d)[0];
    }
    ZeroConstantRecord(t.node, d, h.categories, tail, w);
  }

  /** A record written by train_util.c with a zero constant, followed by a heading or nothing, is fatal to read. */
  lemma ZeroConstantRecord(n: Node, d: nat, k: nat, tail: seq<Token>, w: seq<Token>)
    requires |n.coefficients| == d + 1 && n.coefficients[d] == 0.0 && |n.leftCount| == k && |n.rightCount| == k
    requires (tail == [] || tail[0].Heading?) && w == WriteHpTrain(n, d) + tail
    ensures ReadRecord(w, d, k) == Broken(EquationMissing)
  {
    var c := n.coefficients;
    assert w == [HeadingOf(n)] + (Terms(c, 0, d) + tail);
    assert w[1..] == Terms(c, 0, d) + tail;
    ReadTerms(c, 0, d, Zeros(d + 1), tail, d);
  }

  /** A one-node tree, the split x[1] = 0, and its header. */
  const ExampleHeader: Header := Header("train.dat", 1, 2, 20, BestFirst, 0)
  const ExampleTree: Tree := Tree(Node([1.0, 0.0], [3, 0], [0, 2], 1, 2, "", 0.0, 5), Nil, Nil)

  /** The example is lost by train_util.c's writer and kept by the corrected one. */
  lemma ZeroConstantExample()
    ensures Sub(ExampleTree, "", 1, 2)
    ensures ReadTreeFile(WriteTreeTrain(ExampleHeader, ExampleTree), true).Fatal?
    ensures ReadTreeFile(WriteTreeTrainCorrected(ExampleHeader, ExampleTree), true).Ok?
  {
    assert FirstMax([3, 0]) == 1 && FirstMax([0, 2]) == 2;
    assert Sum([3, 0]) + Sum([0, 2]) == 5;
    assert NameOk(ExampleHeader.trainingSet);
    ZeroConstantUnreadable(ExampleHeader, ExampleTree);
    RoundTripTrainCorrected(ExampleHeader, ExampleTree);
  }

  /** Every constant of t is non-zero. */
  predicate NonzeroConstants(t: Tree, d: nat)
    requires Planes(t, d)
  {
    t.Tree? ==> t.node.coefficients[d] != 0.0 && NonzeroConstants(t.left, d) && NonzeroConstants(t.right, d)
  }

  /** The two writers agree on trees whose constants are all non-zero. */
  lemma {:induction false} WritersAgree(t: Tree, d: nat)
    requires Planes(t, d) && NonzeroConstants(t, d)
    ensures WriteSubtreeTrain(t, d) == WriteSubtree(t, d)
  {
    if t.Tree? {
      WritersAgree(t.left, d);
      WritersAgree(t.right, d);
    }
  }

  /** The headings of a token sequence, in order. */
  function Headings(s: seq<Token>): (r: seq<Token>)
    ensures |r| <= |s|
  {
    if |s| == 0 then [] else (if s[0].Heading? then [s[0]] else []) + Headings(s[1..])
  }

  lemma {:induction false} HeadingsAppend(a: seq<Token>, b: seq<Token>)
    ensures Headings(a + b) == Headings(a) + Headings(b)
  {
    if |a| == 0 {
      assert a + b == b;
    } else {
      var h := if a[0].Heading? then [a[0]] else [];
      assert (a + b)[0] == a[0];
      assert (a + b)[1..] == a[1..] + b;
      HeadingsAppend(a[1..], b);
      assert Headings(a + b) == h + (Headings(a[1..]) + Headings(b));
      assert Headings(a) == h + Headings(a[1..]);
    }
  }

  lemma {:induction false} TermsHaveNoHeadings(c: seq<real>, i: nat, n: nat)
    requires i <= n <= |c|
    ensures Headings(Terms(c, i, n)) == []
    decreases n - i
  {
    if i < n {
      TermsHaveNoHeadings(c, i + 1, n);
      var e := if c[i] != 0.0 then [Coefficient(c[i], i + 1)] else [];
      HeadingsAppend(e, Terms(c, i + 1, n));
      if c[i] != 0.0 {
        assert e[1..] == [];
      }
    }
  }

  function HeadingsOf(ns: seq<Node>): (r: seq<Token>)
    ensures |r| == |ns|
  {
    if |ns| == 0 then [] else [HeadingOf(ns[0])] + HeadingsOf(ns[1..])
  }

  lemma {:induction false} HeadingsOfAppend(a: seq<Node>, b: seq<Node>)
    ensures HeadingsOf(a + b) == HeadingsOf(a) + HeadingsOf(b)
  {
    if |a| == 0 {
      assert a + b == b;
    } else {
      assert (a + b)[1..] == a[1..] + b;
      HeadingsOfAppend(a[1..], b);
    }
  }

  /** write_subtree writes one record per node, in preorder. */
  lemma {:induction false} RecordsInPreorder(t: Tree, d: nat)
    requires Planes(t, d)
    ensures Headings(WriteSubtree(t, d)) == HeadingsOf(Preorder(t))
  {
    if t.Tree? {
      var n := t.node;
      RecordsInPreorder(t.left, d);
      RecordsInPreorder(t.right, d);
      TermsHaveNoHeadings(n.coefficients, 0, d);
      var hp := WriteHp(n, d);
      HeadingsAppend([HeadingOf(n)], Terms(n.coefficients, 0, d));
      HeadingsAppend([HeadingOf(n)] + Terms(n.coefficients, 0, d), [Constant(n.coefficients[d])]);
      assert Headings([Constant(n.coefficients[d])]) == [];
      assert Headings([HeadingOf(n)]) == [HeadingOf(n)];
      HeadingsAppend(hp, WriteSubtree(t.left, d));
      HeadingsAppend(hp + WriteSubtree(t.left, d), WriteSubtree(t.right, d));
      HeadingsOfAppend([n], Preorder(t.left));
      HeadingsOfAppend([n] + Preorder(t.left), Preorder(t.right));
    }
  }

  /** Every node of t is the left or right child, by label, of its parent in t. */
  predicate Linked(t: Tree)
  {
    t.Tree? ==>
      (t.left.Tree? ==> IsLeftChild(t.left.node, t.node)) && (t.right.Tree? ==> IsRightChild(t.right.node, t.node))
      && Linked(t.left) && Linked(t.right)
  }

  /** Whatever read_subtree builds, from any input, links children to parents by their labels. */
  lemma {:induction false} ReadLinked(s: seq<Token>, extra: Option<Node>, root: Node, d: nat, k: nat)
    requires ReadChildren(s, extra, root, d, k).Ok?
    ensures Linked(Tree(root, ReadChildren(s, extra, root, d, k).value.left, ReadChildren(s, extra, root, d, k).value.right))
    decreases |s|, if extra.Some? then 3 else 0
  {
    match Pending(s, extra, d, k)
    case Ok(Taken(None, _)) =>
    case Ok(Taken(Some(cur), s1)) =>
      if IsLeftChild(cur, root) {
        ReadLinked(s1, None, cur, d, k);
        var sc := ReadChildren(s1, None, cur, d, k).value;
        AfterLeftLinked(Tree(cur, sc.left, sc.right), sc.rest, sc.extra, root, d, k);
      } else {
        RightPartLinked(Nil, cur, s1, root, d, k);
      }
  }

  lemma {:induction false} AfterLeftLinked(left: Tree, s: seq<Token>, extra: Option<Node>, root: Node, d: nat, k: nat)
    requires Linked(left) && (left.Tree? ==> IsLeftChild(left.node, root))
    requires AfterLeft(left, s, extra, root, d, k).Ok?
    ensures Linked(Tree(root, AfterLeft(left, s, extra, root, d, k).value.left, AfterLeft(left, s, extra, root, d, k).value.right))
    decreases |s|, 2
  {
    match Pending(s, extra, d, k)
    case Ok(Taken(None, _)) =>
    case Ok(Taken(Some(next), s2)) => RightPartLinked(left, next, s2, root, d, k);
  }

  lemma {:induction false} RightPartLinked(left: Tree, next: Node, s: seq<Token>, root: Node, d: nat, k: nat)
    requires Linked(left) && (left.Tree? ==> IsLeftChild(left.node, root))
    requires RightPart(left, next, s, root, d, k).Ok?
    ensures Linked(Tree(root, RightPart(left, next, s, root, d, k).value.left, RightPart(left, next, s, root, d, k).value.right))
    decreases |s|, 1
  {
    if IsRightChild(next, root) {
      ReadLinked(s, None, next, d, k);
    }
  }

  /** Every tree read_tree returns is linked by its labels. */
  lemma ReadTreeLinked(s: seq<Token>, parameters: bool)
    requires ReadTreeFile(s, parameters).Ok?
    ensures Linked(ReadTreeFile(s, parameters).value.1)
  {
    var (h, s1) := ReadHeaderFields(s, parameters).value;
    var u := ReadRecord(s1, h.dimensions, h.categories).used;
    ReadLinked(s1[u..], None, ReadRecord(s1, h.dimensions, h.categories).node, h.dimensions, h.categories);
  }
}
