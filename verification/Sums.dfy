/** Sums over a table, in its own order or along a list of places. */
module Sums {

  function Sum(g: seq<int>, n: nat): int
    requires n <= |g|
  {
    if n == 0 then 0 else Sum(g, n - 1) + g[n - 1]
  }

  ghost predicate Places(vs: seq<int>, n: nat) {
    forall i :: 0 <= i < |vs| ==> 0 <= vs[i] < n
  }

  /** The sum of the entries of g at the first k places of vs. */
  function SumAlong(g: seq<int>, vs: seq<int>, k: nat): int
    requires k <= |vs| && Places(vs, |g|)
  {
    if k == 0 then 0 else SumAlong(g, vs, k - 1) + g[vs[k - 1]]
  }

  ghost predicate NoRepeats(vs: seq<int>) {
    forall i, j :: 0 <= i < j < |vs| ==> vs[i] != vs[j]
  }

  lemma {:induction false} SumUpdate(g: seq<int>, n: nat, v: nat, x: int)
    requires n <= |g| && v < |g|
    ensures Sum(g[v := x], n) == Sum(g, n) + (if v < n then x - g[v] else 0)
    decreases n
  {
    if n > 0 {
      SumUpdate(g, n - 1, v, x);
    }
  }

  lemma {:induction false} SumOfZeros(g: seq<int>, n: nat)
    requires n <= |g| && forall v :: 0 <= v < n ==> g[v] == 0
    ensures Sum(g, n) == 0
    decreases n
  {
    if n > 0 {
      SumOfZeros(g, n - 1);
    }
  }

  lemma {:induction false} SumAlongFrame(g: seq<int>, h: seq<int>, vs: seq<int>, k: nat)
    requires k <= |vs| && Places(vs, |g|) && |g| == |h|
    requires forall i :: 0 <= i < k ==> g[vs[i]] == h[vs[i]]
    ensures SumAlong(g, vs, k) == SumAlong(h, vs, k)
    decreases k
  {
    if k > 0 {
      SumAlongFrame(g, h, vs, k - 1);
    }
  }

  /** A list without repeats that misses only zeros sums up the whole table. */
  lemma {:induction false} SumInAnyOrder(g: seq<int>, vs: seq<int>, k: nat)
    requires k <= |vs| && Places(vs, |g|) && NoRepeats(vs)
    requires forall v :: 0 <= v < |g| && v !in vs[..k] ==> g[v] == 0
    ensures SumAlong(g, vs, k) == Sum(g, |g|)
    decreases k
  {
    if k == 0 {
      SumOfZeros(g, |g|);
    } else {
      var v := vs[k - 1];
      var h := g[v := 0];
      assert vs[..k] == vs[..k - 1] + [v];
      SumInAnyOrder(h, vs, k - 1);
      SumAlongFrame(g, h, vs, k - 1);
      SumUpdate(g, |g|, v, 0);
    }
  }

  lemma {:induction false} SumFrame(g: seq<int>, h: seq<int>, n: nat)
    requires n <= |g| && n <= |h| && forall v :: 0 <= v < n ==> g[v] == h[v]
    ensures Sum(g, n) == Sum(h, n)
    decreases n
  {
    if n > 0 {
      SumFrame(g, h, n - 1);
    }
  }

  /** Trailing zeros add nothing. */
  lemma {:induction false} SumOfPrefix(g: seq<int>, m: nat, n: nat)
    requires m <= n <= |g| && forall v :: m <= v < n ==> g[v] == 0
    ensures Sum(g, n) == Sum(g, m)
    decreases n
  {
    if n > m {
      SumOfPrefix(g, m, n - 1);
    }
  }
}
