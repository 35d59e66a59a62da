/**
 * The qsort calls of linear_split (perturb.c:439-441, ordering by compare)
 * and variance (impurity_measures.c:139-140, ordering by var_compare): an
 * in-place ascending sort of the first n cells. qsort is not stable, so the
 * contract fixes only what every ascending sort guarantees.
 */
module Sorting {
  predicate SortedBy<T>(s: seq<T>, key: T -> real)
  {
    forall i, j :: 0 <= i < j < |s| ==> key(s[i]) <= key(s[j])
  }

  method QSort<T>(a: array<T>, n: nat, key: T -> real)
    requires n <= a.Length
    modifies a
    ensures SortedBy(a[..n], key)
    ensures multiset(a[..n]) == multiset(old(a[..n]))
    ensures a[n..] == old(a[n..])
  {
    for i := 0 to n
      invariant SortedBy(a[..i], key)
      invariant multiset(a[..n]) == multiset(old(a[..n]))
      invariant a[n..] == old(a[n..])
    {
      Insert(a, i, n, key);
      assert forall p, q :: 0 <= p < q <= i ==> key(a[p]) <= key(a[q]);
    }
  }

  /** Moves a[i] down past every larger predecessor, so that a[..i+1] becomes sorted. */
  method Insert<T>(a: array<T>, i: nat, n: nat, key: T -> real)
    requires i < n <= a.Length
    requires forall p, q :: 0 <= p < q < i ==> key(a[p]) <= key(a[q])
    modifies a
    ensures forall p, q :: 0 <= p < q <= i ==> key(a[p]) <= key(a[q])
    ensures multiset(a[..n]) == multiset(old(a[..n]))
    ensures a[n..] == old(a[n..])
  {
    var j := i;
    while j > 0 && key(a[j - 1]) > key(a[j])
      invariant 0 <= j <= i
      invariant forall p, q :: 0 <= p < q <= i && p != j && q != j ==> key(a[p]) <= key(a[q])
      invariant forall q :: j < q <= i ==> key(a[j]) < key(a[q])
      invariant multiset(a[..n]) == multiset(old(a[..n]))
      invariant a[n..] == old(a[n..])
    {
      Swap(a, j - 1, n);
      j := j - 1;
    }
  }

  method Swap<T>(a: array<T>, k: nat, n: nat)
    requires k + 1 < n <= a.Length
    modifies a
    ensures a[k] == old(a[k + 1]) && a[k + 1] == old(a[k])
    ensures forall m :: 0 <= m < a.Length && m != k && m != k + 1 ==> a[m] == old(a[m])
    ensures multiset(a[..n]) == multiset(old(a[..n]))
    ensures a[n..] == old(a[n..])
  {
    a[k], a[k + 1] := a[k + 1], a[k];
    assert a[..n] == old(a[..n])[k := old(a[k + 1])][k + 1 := old(a[k])];
  }
}
