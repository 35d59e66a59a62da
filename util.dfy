/** Small numeric helpers of util.c, with drand48 replaced by an oracle. */
module Util {
  import opened Oc1

  /** myabs. */
  function MyAbs(x: real): (r: real)
    ensures r >= 0.0 && (r == x || r == -x)
  {
    if x < 0.0 then -1.0 * x else x
  }

  /**
   * The stream drand48 would produce: draw i is the i-th call's result, a
   * number in [0, 1). Seeding and the generator itself are not modelled.
   */
  class Oracle {
    const draws: nat -> real
    var index: nat

    ghost predicate Valid() {
      forall i :: 0.0 <= draws(i) < 1.0
    }

    constructor (draws: nat -> real)
      requires forall i :: 0.0 <= draws(i) < 1.0
      ensures Valid() && this.draws == draws && index == 0
    {
      this.draws := draws;
      index := 0;
    }

    /** One call of drand48. */
    method Next() returns (u: real)
      requires Valid()
      modifies this`index
      ensures u == draws(old(index)) && index == old(index) + 1
      ensures 0.0 <= u < 1.0
    {
      u := draws(index);
      index := index + 1;
    }
  }

  lemma MulPositive(a: real, b: real)
    requires a > 0.0 && b > 0.0
    ensures a * b > 0.0
  {
  }

  /** u·w for a draw u in [0, 1) and a positive width w. */
  function Scaled(u: real, w: real): (r: real)
    requires 0.0 <= u < 1.0 && w > 0.0
    ensures 0.0 <= r < w
  {
    MulPositive(1.0 - u, w);
    u * w
  }

  /** myrandom over one draw u of drand48: scales u into [above, below). */
  function MyRandom(above: real, below: real, u: real): (r: real)
    requires above < below && 0.0 <= u < 1.0
    ensures above <= r < below
  {
    above + Scaled(u, below - above)
  }

  /** min: the first entry, replaced by every strictly smaller one. */
  method Min(a: array<real>, n: nat) returns (xmin: real)
    requires 1 <= n <= a.Length
    ensures exists i :: 0 <= i < n && xmin == a[i]
    ensures forall i :: 0 <= i < n ==> xmin <= a[i]
  {
    xmin := a[0];
    ghost var at := 0;
    for i := 1 to n
      invariant 0 <= at < i && xmin == a[at]
      invariant forall j :: 0 <= j < i ==> xmin <= a[j]
    {
      if a[i] < xmin {
        xmin := a[i];
        at := i;
      }
    }
  }

  /** average: the sum of the first n entries divided by n. */
  method Average(a: array<real>, n: nat) returns (avg: real)
    requires 1 <= n <= a.Length
    ensures avg * (n as real) == RealSumTo(a[..], n)
  {
    var sum := 0.0;
    for i := 0 to n
      invariant sum == RealSumTo(a[..], i)
    {
      sum := sum + a[i];
    }
    avg := sum / (n as real);
  }

  /**
   * generate_random_hyperplane: entries 0..length-1 each get
   * myrandom(-maxValue, maxValue) from successive draws; nothing else in the
   * array changes.
   */
  method GenerateRandomHyperplane(arrayName: array<real>, length: nat, maxValue: real, rng: Oracle)
    requires length <= arrayName.Length && maxValue > 0.0 && rng.Valid()
    modifies arrayName, rng`index
    ensures rng.index == old(rng.index) + length
    ensures forall i :: 0 <= i < length ==>
      arrayName[i] == MyRandom(-1.0 * maxValue, maxValue, rng.draws(old(rng.index) + i))
    ensures forall i :: 0 <= i < length ==> -maxValue <= arrayName[i] < maxValue
    ensures arrayName[length..] == old(arrayName[length..])
  {
    for i := 0 to length
      invariant rng.index == old(rng.index) + i
      invariant forall j :: 0 <= j < i ==>
        arrayName[j] == MyRandom(-1.0 * maxValue, maxValue, rng.draws(old(rng.index) + j))
      invariant arrayName[length..] == old(arrayName[length..])
    {
      var u := rng.Next();
      arrayName[i] := MyRandom(-1.0 * maxValue, maxValue, u);
    }
  }
}
