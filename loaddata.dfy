/**
 * The parts of load_data.c that act on points once they are read: the
 * category bookkeeping of load_points (discovering labels in order of first
 * appearance, refusing labels outside 1..K when K is known, and remapping
 * discovered labels to 1..K), fill_missing_values and shuffle_points.
 * Category arrays are 1-based in the C code; here entry c of a category
 * array is category c + 1.
 */
module LoadData {
  import opened Wrappers
  import opened Oc1
  import opened Util
  import TreeIO

  // ---------------------------------------------------------------------
  // Category discovery (load_points, categories unknown)
  // ---------------------------------------------------------------------

  /** The position of the first x in s. */
  function FirstIndex(s: seq<int>, x: int): (r: nat)
    requires x in s
    ensures r < |s| && s[r] == x && x !in s[..r]
  {
    var p := s[..|s| - 1];
    if x in p then FirstIndex(p, x) else |s| - 1
  }

  /** The labels of labels, each once, in the order they first appear. */
  function Discovered(labels: seq<int>): seq<int>
  {
    if |labels| == 0 then []
    else
      var p := Discovered(labels[..|labels| - 1]);
      var i := labels[|labels| - 1];
      if i in p then p else p + [i]
  }

  /** No two entries of s are equal. */
  predicate NoRepeats(s: seq<int>)
  {
    forall a, b :: 0 <= a < b < |s| ==> s[a] != s[b]
  }

  /**
   * The discovered categories are distinct, are exactly the labels read,
   * and appear in the order of their first occurrence among the labels.
   */
  lemma {:induction false} DiscoveredMeaning(labels: seq<int>)
    ensures NoRepeats(Discovered(labels))
    ensures forall x :: x in Discovered(labels) <==> x in labels
    ensures forall a, b :: 0 <= a < b < |Discovered(labels)| ==>
      FirstIndex(labels, Discovered(labels)[a]) < FirstIndex(labels, Discovered(labels)[b])
  {
    if |labels| > 0 {
      var q := labels[..|labels| - 1];
      var i := labels[|labels| - 1];
      DiscoveredMeaning(q);
      var p := Discovered(q);
      assert labels == q + [i];
      forall x | x in q
        ensures FirstIndex(labels, x) == FirstIndex(q, x)
      {
        assert labels[..|labels| - 1] == q;
      }
      if i !in p {
        assert i !in q;
        assert FirstIndex(labels, i) == |labels| - 1;
        forall a | 0 <= a < |p|
          ensures FirstIndex(labels, p[a]) < |labels| - 1
        {
          assert p[a] in q;
        }
      }
    }
  }

  /** no_of_categories, the length of the discovered array, is the number of distinct labels. */
  lemma {:induction false} DiscoveredCount(labels: seq<int>)
    ensures |Discovered(labels)| == |set x | x in labels|
  {
    if |labels| > 0 {
      var q := labels[..|labels| - 1];
      var i := labels[|labels| - 1];
      DiscoveredCount(q);
      DiscoveredMeaning(q);
      assert labels == q + [i];
      var before := set x | x in q;
      assert (set x | x in labels) == before + {i};
      if i in Discovered(q) {
        assert i in before;
        assert before + {i} == before;
      } else {
        assert i !in before;
        assert |before + {i}| == |before| + 1;
      }
    }
  }

  /**
   * The lookup of load_points: search the categories found so far for the
   * label and append it when it is not among them.
   */
  method NoteCategory(categoryArray: seq<int>, i: int) returns (r: seq<int>)
    ensures i in categoryArray ==> r == categoryArray
    ensures i !in categoryArray ==> r == categoryArray + [i]
  {
    var j := 0;
    while j < |categoryArray| && categoryArray[j] != i
      invariant 0 <= j <= |categoryArray|
      invariant i !in categoryArray[..j]
    {
      j := j + 1;
    }
    if j == |categoryArray| {
      assert categoryArray[..j] == categoryArray;
      r := categoryArray + [i];
    } else {
      r := categoryArray;
    }
  }

  /** The category array that load_points builds while reading labels; its length is no_of_categories. */
  method DiscoverCategories(labels: seq<int>) returns (categoryArray: seq<int>)
    ensures categoryArray == Discovered(labels)
  {
    categoryArray := [];
    for n := 0 to |labels|
      invariant categoryArray == Discovered(labels[..n])
    {
      assert labels[..n + 1][..n] == labels[..n];
      categoryArray := NoteCategory(categoryArray, labels[n]);
    }
    assert labels[..|labels|] == labels;
  }

  // ---------------------------------------------------------------------
  // Known categories
  // ---------------------------------------------------------------------

  /** The label check of load_points when the number of categories K is known. */
  function KnownLabel(i: int, k: int): (r: Result<int>)
    ensures r.Ok? <==> 1 <= i <= k
    ensures r.Ok? ==> r.value == i
    ensures r.Fatal? ==> r.message == "Load_Points: Classes should be integers in [1," + TreeIO.Decimal(k) + "]."
  {
    if i < 1 || i > k then Fatal("Load_Points: Classes should be integers in [1," + TreeIO.Decimal(k) + "].")
    else Ok(i)
  }

  // ---------------------------------------------------------------------
  // Remapping
  // ---------------------------------------------------------------------

  /** Some entry of the category array is not a category number 1..K, K being its length. */
  predicate NeedsRemap(categoryArray: seq<int>)
  {
    exists c :: 0 <= c < |categoryArray| && !(1 <= categoryArray[c] <= |categoryArray|)
  }

  /** The scan of load_points that decides whether remapping is needed. */
  method OutOfRange(categoryArray: seq<int>) returns (b: bool)
    ensures b <==> NeedsRemap(categoryArray)
  {
    var i := 0;
    while i < |categoryArray| && 1 <= categoryArray[i] <= |categoryArray|
      invariant 0 <= i <= |categoryArray|
      invariant forall c :: 0 <= c < i ==> 1 <= categoryArray[c] <= |categoryArray|
    {
      i := i + 1;
    }
    b := i < |categoryArray|;
  }

  /** The number a label is remapped to: its first position in the category array, counted from 1; a label not in the array keeps its value. */
  function Remapped(categoryArray: seq<int>, lab: int): int
  {
    if lab in categoryArray then FirstIndex(categoryArray, lab) + 1 else lab
  }

  /** The category a point ends with: remapped when some entry needs it, as it was otherwise. */
  function FinalCategory(categoryArray: seq<int>, lab: int): int
  {
    if NeedsRemap(categoryArray) then Remapped(categoryArray, lab) else lab
  }

  /**
   * Remapping loses nothing: a label of the array becomes a number in 1..K
   * whose entry is that label, and two different labels of the array get
   * different numbers.
   */
  lemma RemappedMeaning(categoryArray: seq<int>, lab: int, other: int)
    requires lab in categoryArray && other in categoryArray
    ensures 1 <= Remapped(categoryArray, lab) <= |categoryArray|
    ensures categoryArray[Remapped(categoryArray, lab) - 1] == lab
    ensures Remapped(categoryArray, lab) == Remapped(categoryArray, other) <==> lab == other
  {
  }

  /**
   * Whether or not remapping happens, every label found in the category
   * array ends as a category 1..K whose array entry is the label or, when
   * no remapping was needed, the label itself.
   */
  lemma {:induction false} FinalCategoryInRange(categoryArray: seq<int>, lab: int)
    requires lab in categoryArray
    ensures 1 <= FinalCategory(categoryArray, lab) <= |categoryArray|
    ensures NeedsRemap(categoryArray) ==> categoryArray[FinalCategory(categoryArray, lab) - 1] == lab
    ensures !NeedsRemap(categoryArray) ==> FinalCategory(categoryArray, lab) == lab
  {
    if !NeedsRemap(categoryArray) {
      var c := FirstIndex(categoryArray, lab);
      assert 1 <= categoryArray[c] <= |categoryArray|;
    }
  }

  /** The points of a set after loading, discovering from their own labels, carry categories 1..K. */
  lemma DiscoveredCategoriesInRange(labels: seq<int>, n: nat)
    requires n < |labels|
    ensures 1 <= FinalCategory(Discovered(labels), labels[n]) <= |Discovered(labels)|
  {
    DiscoveredMeaning(labels);
    FinalCategoryInRange(Discovered(labels), labels[n]);
  }

  /**
   * The remapping of load_points: when some entry of the category array
   * lies outside 1..K, each point takes the first position of its label in
   * the array; the points are distinct objects.
   */
  method RemapCategories(points: seq<Point>, categoryArray: seq<int>)
    requires forall a, b :: 0 <= a < b < |points| ==> points[a] != points[b]
    modifies set p | p in points
    ensures forall i :: 0 <= i < |points| ==>
      points[i].category == FinalCategory(categoryArray, old(points[i].category))
    ensures forall i :: 0 <= i < |points| ==>
      points[i].dimension == old(points[i].dimension) && points[i].val == old(points[i].val)
  {
    var remap := OutOfRange(categoryArray);
    if !remap {
      return;
    }
    for i := 0 to |points|
      invariant forall a :: 0 <= a < i ==> points[a].category == Remapped(categoryArray, old(points[a].category))
      invariant forall a :: i <= a < |points| ==> points[a].category == old(points[a].category)
      invariant forall a :: 0 <= a < |points| ==>
        points[a].dimension == old(points[a].dimension) && points[a].val == old(points[a].val)
    {
      var j := Lookup(categoryArray, points[i].category);
      if j < |categoryArray| {
        points[i].category := j + 1;
      }
    }
  }

  /** The inner search of the remapping loop: the first position of the label, or K when it is absent. */
  method Lookup(categoryArray: seq<int>, lab: int) returns (j: nat)
    ensures j <= |categoryArray|
    ensures j < |categoryArray| <==> lab in categoryArray
    ensures j < |categoryArray| ==> j == FirstIndex(categoryArray, lab)
  {
    j := 0;
    while j < |categoryArray| && categoryArray[j] != lab
      invariant 0 <= j <= |categoryArray|
      invariant lab !in categoryArray[..j]
    {
      j := j + 1;
    }
    if j == |categoryArray| {
      assert categoryArray[..j] == categoryArray;
    } else {
      FirstIndexUnique(categoryArray, lab, j);
    }
  }

  lemma FirstIndexUnique(s: seq<int>, x: int, j: nat)
    requires j < |s| && s[j] == x && x !in s[..j]
    ensures FirstIndex(s, x) == j
  {
  }

  // ---------------------------------------------------------------------
  // fill_missing_values
  // ---------------------------------------------------------------------

  /** An attribute value as read: MISSING_VALUE or a number. */
  datatype Value = Missing | Known(v: real)

  /** The attribute values of the points, D per point. */
  predicate Table(rows: seq<seq<Value>>, d: nat)
  {
    forall i :: 0 <= i < |rows| ==> |rows[i]| == d
  }

  /** A value, with MISSING_VALUE counted as 0 (the temp vector of fill_missing_values). */
  function OrZero(v: Value): real
  {
    if v.Missing? then 0.0 else v.v
  }

  /** Column j of the table with missing values as 0. */
  function Column(rows: seq<seq<Value>>, j: nat): (r: seq<real>)
    requires forall i :: 0 <= i < |rows| ==> j < |rows[i]|
    ensures |r| == |rows|
    ensures forall i :: 0 <= i < |rows| ==> r[i] == OrZero(rows[i][j])
  {
    seq(|rows|, i requires 0 <= i < |rows| => OrZero(rows[i][j]))
  }

  /** The fill value for attribute j: the mean over all the points, missing entries counting 0. */
  function ColumnMean(rows: seq<seq<Value>>, j: nat): real
    requires |rows| > 0 && forall i :: 0 <= i < |rows| ==> j < |rows[i]|
  {
    RealSumTo(Column(rows, j), |rows|) / (|rows| as real)
  }

  /** One value after filling column j: a missing value becomes the mean. */
  function FillCell(rows: seq<seq<Value>>, i: nat, j: nat): Value
    requires i < |rows| && forall a :: 0 <= a < |rows| ==> j < |rows[a]|
  {
    if rows[i][j].Missing? then Known(ColumnMean(rows, j)) else rows[i][j]
  }

  /** The table with its first m columns filled. */
  function FilledTo(rows: seq<seq<Value>>, d: nat, m: nat): (r: seq<seq<Value>>)
    requires Table(rows, d) && m <= d
    ensures |r| == |rows| && Table(r, d)
  {
    seq(|rows|, i requires 0 <= i < |rows| =>
      seq(d, j requires 0 <= j < d => if j < m then FillCell(rows, i, j) else rows[i][j]))
  }

  /** The table fill_missing_values leaves. */
  function Filled(rows: seq<seq<Value>>, d: nat): (r: seq<seq<Value>>)
    requires Table(rows, d)
    ensures |r| == |rows| && Table(r, d)
  {
    FilledTo(rows, d, d)
  }

  /** A table without missing values. */
  predicate Complete(rows: seq<seq<Value>>)
  {
    forall i, j :: 0 <= i < |rows| && 0 <= j < |rows[i]| ==> rows[i][j].Known?
  }

  /**
   * After filling, value j of point i is known: unchanged when it was
   * known, and when it was missing the mean of column j over all n points
   * with missing entries as 0.
   */
  lemma FilledMeaning(rows: seq<seq<Value>>, d: nat, i: nat, j: nat)
    requires Table(rows, d) && i < |rows| && j < d
    ensures Filled(rows, d)[i][j].Known?
    ensures rows[i][j].Known? ==> Filled(rows, d)[i][j] == rows[i][j]
    ensures rows[i][j].Missing? ==> Filled(rows, d)[i][j] == Known(ColumnMean(rows, j))
  {
    FilledCell(rows, d, d, i, j);
  }

  /** The fill value times the number of points is the sum of the column's known values. */
  lemma ColumnMeanMeaning(rows: seq<seq<Value>>, j: nat)
    requires |rows| > 0 && forall i :: 0 <= i < |rows| ==> j < |rows[i]|
    ensures ColumnMean(rows, j) * (|rows| as real) == RealSumTo(Column(rows, j), |rows|)
  {
  }

  /** No value is missing after filling. */
  lemma FilledComplete(rows: seq<seq<Value>>, d: nat)
    requires Table(rows, d)
    ensures Complete(Filled(rows, d))
  {
    forall i, j | 0 <= i < |rows| && 0 <= j < d
      ensures Filled(rows, d)[i][j].Known?
    {
      FilledCell(rows, d, d, i, j);
    }
  }

  lemma FilledCell(rows: seq<seq<Value>>, d: nat, m: nat, i: nat, j: nat)
    requires Table(rows, d) && m <= d && i < |rows| && j < d
    ensures FilledTo(rows, d, m)[i][j] == if j < m then FillCell(rows, i, j) else rows[i][j]
  {
  }

  lemma FilledToNone(rows: seq<seq<Value>>, d: nat)
    requires Table(rows, d)
    ensures FilledTo(rows, d, 0) == rows
  {
    var f := FilledTo(rows, d, 0);
    forall i | 0 <= i < |rows|
      ensures f[i] == rows[i]
    {
      assert |f[i]| == |rows[i]|;
    }
  }

  lemma {:induction false} SumOfSameColumn(a: seq<seq<Value>>, b: seq<seq<Value>>, j: nat, n: nat)
    requires n <= |a| == |b|
    requires forall i :: 0 <= i < |a| ==> j < |a[i]| && j < |b[i]| && a[i][j] == b[i][j]
    ensures RealSumTo(Column(a, j), n) == RealSumTo(Column(b, j), n)
  {
    if n > 0 {
      SumOfSameColumn(a, b, j, n - 1);
    }
  }

  /** Filling a table that has nothing missing changes nothing, so fill_missing_values is idempotent. */
  lemma FillIdempotent(rows: seq<seq<Value>>, d: nat)
    requires Table(rows, d)
    ensures Filled(Filled(rows, d), d) == Filled(rows, d)
  {
    FilledComplete(rows, d);
    CompleteUnchanged(Filled(rows, d), d);
  }

  lemma CompleteUnchanged(rows: seq<seq<Value>>, d: nat)
    requires Table(rows, d) && Complete(rows)
    ensures Filled(rows, d) == rows
  {
    var f := Filled(rows, d);
    forall i | 0 <= i < |rows|
      ensures f[i] == rows[i]
    {
      assert |f[i]| == |rows[i]|;
      forall j | 0 <= j < d
        ensures f[i][j] == rows[i][j]
      {
        assert rows[i][j].Known?;
      }
    }
  }

  /**
   * fill_missing_values: for each attribute, when some point lacks it,
   * every missing value becomes the average of the column with missing
   * entries counted as 0.
   */
  method FillMissingValues(rows: array<seq<Value>>, d: nat)
    requires Table(rows[..], d)
    modifies rows
    ensures rows[..] == Filled(old(rows[..]), d)
  {
    ghost var rows0 := rows[..];
    FilledToNone(rows0, d);
    for j := 0 to d
      invariant Table(rows[..], d)
      invariant rows[..] == FilledTo(rows0, d, j)
    {
      ghost var before := rows[..];
      FillColumn(rows, d, j);
      ColumnStep(rows0, before, rows[..], d, j);
    }
  }

  lemma ColumnStep(rows0: seq<seq<Value>>, before: seq<seq<Value>>, after: seq<seq<Value>>, d: nat, j: nat)
    requires Table(rows0, d) && j < d && before == FilledTo(rows0, d, j)
    requires |after| == |before| && Table(after, d)
    requires forall i :: 0 <= i < |before| ==> after[i] == before[i][j := FillCell(before, i, j)]
    ensures after == FilledTo(rows0, d, j + 1)
  {
    var want := FilledTo(rows0, d, j + 1);
    if |rows0| > 0 {
      SumOfSameColumn(before, rows0, j, |rows0|);
    }
    forall i | 0 <= i < |after|
      ensures after[i] == want[i]
    {
      assert |after[i]| == |want[i]|;
    }
  }

  /** One pass of fill_missing_values over attribute j. */
  method FillColumn(rows: array<seq<Value>>, d: nat, j: nat)
    requires forall i :: 0 <= i < rows.Length ==> |rows[i]| == d
    requires j < d
    modifies rows
    ensures Table(rows[..], d)
    ensures forall i :: 0 <= i < rows.Length ==> rows[i] == old(rows[i][j := FillCell(rows[..], i, j)])
  {
    var n := rows.Length;
    var temp, count := ColumnValues(rows, d, j);
    if count == 0 {
      NoneMissing(rows[..], j, n);
      forall i | 0 <= i < n
        ensures rows[i] == rows[i][j := FillCell(rows[..], i, j)]
      {
        assert rows[..][i] == rows[i];
      }
      return;
    }
    MissingCountMonotone(rows[..], j, 0, n);
    var avg := Average(temp, n);
    DivideBack(avg, RealSumTo(temp[..], n), n as real);
    ReplaceMissing(rows, d, j, avg, count);
  }

  lemma DivideBack(a: real, s: real, n: real)
    requires n > 0.0 && a * n == s
    ensures a == s / n
  {
  }

  /** The first loop of fill_missing_values: the column with missing values as 0, and how many are missing. */
  method ColumnValues(rows: array<seq<Value>>, d: nat, j: nat) returns (temp: array<real>, count: nat)
    requires forall i :: 0 <= i < rows.Length ==> |rows[i]| == d
    requires j < d
    ensures fresh(temp) && temp[..] == Column(rows[..], j)
    ensures count == MissingCount(rows[..], j, rows.Length)
  {
    var n := rows.Length;
    temp := new real[n];
    count := 0;
    for i := 0 to n
      modifies temp
      invariant forall a :: 0 <= a < i ==> temp[a] == OrZero(rows[a][j])
      invariant count == MissingCount(rows[..], j, i)
    {
      MissingCountStep(rows[..], j, i);
      if rows[i][j].Missing? {
        count := count + 1;
        temp[i] := 0.0;
      } else {
        temp[i] := rows[i][j].v;
      }
    }
    assert temp[..] == Column(rows[..], j);
  }

  /**
   * The second loop of fill_missing_values: every missing value of
   * attribute j becomes avg, stopping once the count of missing values
   * seen reaches the total.
   */
  method ReplaceMissing(rows: array<seq<Value>>, d: nat, j: nat, avg: real, count0: nat)
    requires forall i :: 0 <= i < rows.Length ==> |rows[i]| == d
    requires j < d && count0 == MissingCount(rows[..], j, rows.Length)
    modifies rows
    ensures forall i :: 0 <= i < rows.Length ==>
      rows[i] == old(if rows[i][j].Missing? then rows[i][j := Known(avg)] else rows[i])
  {
    var n := rows.Length;
    ghost var rows0 := rows[..];
    var count := count0;
    var i := 0;
    while i < n && count > 0
      invariant 0 <= i <= n
      invariant count == MissingCount(rows0, j, n) - MissingCount(rows0, j, i)
      invariant forall a :: 0 <= a < i ==> rows[a] == if rows0[a][j].Missing? then rows0[a][j := Known(avg)] else rows0[a]
      invariant forall a :: i <= a < n ==> rows[a] == rows0[a]
    {
      MissingCountStep(rows0, j, i);
      if rows[i][j].Missing? {
        count := count - 1;
        rows[i] := rows[i][j := Known(avg)];
      }
      i := i + 1;
    }
    forall a | i <= a < n
      ensures rows0[a][j].Known?
    {
      MissingCountMonotone(rows0, j, i, n);
      MissingCountAfter(rows0, j, i, a);
    }
  }

  /** The number of missing values of attribute j among the first n points. */
  function MissingCount(rows: seq<seq<Value>>, j: nat, n: nat): nat
    requires n <= |rows| && forall i :: 0 <= i < |rows| ==> j < |rows[i]|
  {
    if n == 0 then 0 else MissingCount(rows, j, n - 1) + (if rows[n - 1][j].Missing? then 1 else 0)
  }

  lemma MissingCountStep(rows: seq<seq<Value>>, j: nat, n: nat)
    requires n < |rows| && forall i :: 0 <= i < |rows| ==> j < |rows[i]|
    ensures MissingCount(rows, j, n + 1) == MissingCount(rows, j, n) + (if rows[n][j].Missing? then 1 else 0)
  {
  }

  lemma {:induction false} MissingCountMonotone(rows: seq<seq<Value>>, j: nat, a: nat, b: nat)
    requires a <= b <= |rows| && forall i :: 0 <= i < |rows| ==> j < |rows[i]|
    ensures MissingCount(rows, j, a) <= MissingCount(rows, j, b)
  {
    if a < b {
      MissingCountMonotone(rows, j, a, b - 1);
    }
  }

  /** Once the missing values before position i account for all of them, none follows. */
  lemma MissingCountAfter(rows: seq<seq<Value>>, j: nat, i: nat, a: nat)
    requires i <= a < |rows| && forall x :: 0 <= x < |rows| ==> j < |rows[x]|
    requires MissingCount(rows, j, |rows|) == MissingCount(rows, j, i)
    ensures rows[a][j].Known?
  {
    MissingCountMonotone(rows, j, i, a);
    MissingCountMonotone(rows, j, a + 1, |rows|);
  }

  lemma {:induction false} NoneMissing(rows: seq<seq<Value>>, j: nat, n: nat)
    requires n <= |rows| && forall i :: 0 <= i < |rows| ==> j < |rows[i]|
    requires MissingCount(rows, j, n) == 0
    ensures forall i :: 0 <= i < n ==> rows[i][j].Known?
  {
    if n > 0 {
      NoneMissing(rows, j, n - 1);
    }
  }

  // ---------------------------------------------------------------------
  // shuffle_points
  // ---------------------------------------------------------------------

  /** (int)myrandom(1.0, count) for one draw u: a position 1..count-1, or 1 when count is 1. */
  function ShufflePosition(count: nat, u: real): (r: nat)
    requires count >= 1 && 0.0 <= u < 1.0
    ensures 1 <= r <= count
    ensures count > 1 ==> r < count
  {
    if count == 1 then 1 else MyRandom(1.0, count as real, u).Floor as nat
  }

  /** s with entries i and j exchanged. */
  function Swap<T>(s: seq<T>, i: nat, j: nat): (r: seq<T>)
    requires i < |s| && j < |s|
    ensures |r| == |s| && r[i] == s[j] && r[j] == s[i]
    ensures forall x :: 0 <= x < |s| && x != i && x != j ==> r[x] == s[x]
  {
    s[i := s[j]][j := s[i]]
  }

  /** The order after the first n swaps of shuffle_points, draws being taken from position start on. */
  function ShuffledTo<T>(s: seq<T>, count: nat, draws: nat -> real, start: nat, n: nat): (r: seq<T>)
    requires count <= |s| && n <= count
    requires forall x :: 0.0 <= draws(x) < 1.0
    ensures |r| == |s|
  {
    if n == 0 then s
    else Swap(ShuffledTo(s, count, draws, start, n - 1), n - 1, ShufflePosition(count, draws(start + n - 1)) - 1)
  }

  /** Every swap sequence is a permutation that leaves the entries past count in place. */
  lemma {:induction false} ShuffledIsPermutation<T>(s: seq<T>, count: nat, draws: nat -> real, start: nat, n: nat)
    requires count <= |s| && n <= count
    requires forall x :: 0.0 <= draws(x) < 1.0
    ensures multiset(ShuffledTo(s, count, draws, start, n)) == multiset(s)
    ensures ShuffledTo(s, count, draws, start, n)[count..] == s[count..]
  {
    if n > 0 {
      ShuffledIsPermutation(s, count, draws, start, n - 1);
      var p := ShuffledTo(s, count, draws, start, n - 1);
      var j := ShufflePosition(count, draws(start + n - 1)) - 1;
      SwapIsPermutation(p, n - 1, j);
      assert ShuffledTo(s, count, draws, start, n) == Swap(p, n - 1, j);
      assert multiset(Swap(p, n - 1, j)) == multiset(p) == multiset(s);
    }
  }

  lemma SwapIsPermutation<T>(s: seq<T>, i: nat, j: nat)
    requires i < |s| && j < |s|
    ensures multiset(Swap(s, i, j)) == multiset(s)
  {
    var t := s[i := s[j]];
    assert multiset(t) == multiset(s) - multiset{s[i]} + multiset{s[j]};
    assert multiset(t[j := s[i]]) == multiset(t) - multiset{t[j]} + multiset{s[i]};
  }

  /**
   * shuffle_points: for i = 1..count, exchange point i with the point at
   * (int)myrandom(1.0, count). The first count cells of the array become a
   * permutation of what they held, and nothing past them moves.
   */
  method ShufflePoints(arrayName: array<Point>, count: nat, rng: Oracle)
    requires count <= arrayName.Length && rng.Valid()
    modifies arrayName, rng`index
    ensures rng.index == old(rng.index) + count
    ensures arrayName[..] == ShuffledTo(old(arrayName[..]), count, rng.draws, old(rng.index), count)
    ensures multiset(arrayName[..]) == multiset(old(arrayName[..]))
  {
    ghost var s := arrayName[..];
    ghost var start := rng.index;
    for i := 0 to count
      invariant rng.index == start + i && rng.Valid()
      invariant arrayName[..] == ShuffledTo(s, count, rng.draws, start, i)
    {
      var u := rng.Next();
      var newPosition := ShufflePosition(count, u) - 1;
      var tempPoint := arrayName[i];
      arrayName[i] := arrayName[newPosition];
      arrayName[newPosition] := tempPoint;
    }
    ShuffledIsPermutation(s, count, rng.draws, start, count);
  }
}
