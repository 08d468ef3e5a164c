/**
 What any prefix code must cost. Nodes are numbered places in the tables; a code gives each
 node of a set a length, within the Kraft inequality. Merging the two lightest nodes turns a
 lower bound for the smaller set into one for the larger.
 */
module OptimalCodes {
  import opened Arithmetic
  import opened Sums

  ghost function CostTable(q: set<int>, w: seq<int>, l: seq<int>): (t: seq<int>)
    requires |w| == |l|
    ensures |t| == |w| && forall v :: 0 <= v < |w| ==> t[v] == if v in q then w[v] * l[v] else 0
  {
    seq(|w|, v requires 0 <= v < |w| => if v in q then w[v] * l[v] else 0)
  }

  /** The sum of weight times length over the nodes of q. */
  ghost function Cost(q: set<int>, w: seq<int>, l: seq<int>): int
    requires |w| == |l|
  {
    Sum(CostTable(q, w, l), |w|)
  }

  ghost function Space(l: int, max: nat): nat {
    if 0 <= l <= max then Pow2(max - l) else 0
  }

  ghost function SpaceTable(q: set<int>, l: seq<int>, max: nat): (t: seq<int>)
    ensures |t| == |l| && forall v :: 0 <= v < |l| ==> t[v] == if v in q then Space(l[v], max) else 0
  {
    seq(|l|, v requires 0 <= v < |l| => if v in q then Space(l[v], max) else 0)
  }

  ghost function TotalSpace(q: set<int>, l: seq<int>, max: nat): int {
    Sum(SpaceTable(q, l, max), |l|)
  }

  ghost predicate Within(q: set<int>, l: seq<int>, max: nat) {
    forall v :: v in q ==> 0 <= v < |l| && 0 <= l[v] <= max
  }

  /** Lengths up to `max` that some prefix code has, by the Kraft inequality. */
  ghost predicate PrefixLengths(q: set<int>, l: seq<int>, max: nat) {
    Within(q, l, max) && TotalSpace(q, l, max) <= Pow2(max)
  }

  /** No prefix code for q costs less than c. */
  ghost predicate CostsAtLeast(q: set<int>, w: seq<int>, c: int) {
    forall l: seq<int>, max: nat :: |l| == |w| && PrefixLengths(q, l, max) ==> Cost(q, w, l) >= c
  }

  lemma CostUpdate(q: set<int>, w: seq<int>, l: seq<int>, v: int, x: int)
    requires |w| == |l| && v in q && 0 <= v < |l|
    ensures Cost(q, w, l[v := x]) == Cost(q, w, l) + w[v] * x - w[v] * l[v]
  {
    assert CostTable(q, w, l[v := x]) == CostTable(q, w, l)[v := w[v] * x];
    SumUpdate(CostTable(q, w, l), |w|, v, w[v] * x);
  }

  lemma SpaceUpdate(q: set<int>, l: seq<int>, max: nat, v: int, x: int)
    requires v in q && 0 <= v < |l|
    ensures TotalSpace(q, l[v := x], max) == TotalSpace(q, l, max) + Space(x, max) - Space(l[v], max)
  {
    assert SpaceTable(q, l[v := x], max) == SpaceTable(q, l, max)[v := Space(x, max)];
    SumUpdate(SpaceTable(q, l, max), |l|, v, Space(x, max));
  }

  lemma {:induction false} SumDoubles(g: seq<int>, h: seq<int>, n: nat)
    requires n <= |g| == |h| && forall v :: 0 <= v < n ==> g[v] == 2 * h[v]
    ensures Sum(g, n) == 2 * Sum(h, n)
    decreases n
  {
    if n > 0 {
      SumDoubles(g, h, n - 1);
    }
  }

  /** When no length reaches `max`, the space doubles with every further bit. */
  lemma SpaceDoubles(q: set<int>, l: seq<int>, max: nat)
    requires max >= 1 && Within(q, l, max - 1)
    ensures TotalSpace(q, l, max) == 2 * TotalSpace(q, l, max - 1)
  {
    SumDoubles(SpaceTable(q, l, max), SpaceTable(q, l, max - 1), |l|);
  }

  /** Exchanging the lengths of two nodes. */
  function Swapped(l: seq<int>, a: int, b: int): seq<int>
    requires 0 <= a < |l| && 0 <= b < |l|
  {
    l[a := l[b]][b := l[a]]
  }

  lemma SwapKeepsCode(q: set<int>, l: seq<int>, max: nat, a: int, b: int)
    requires PrefixLengths(q, l, max) && a in q && b in q
    ensures PrefixLengths(q, Swapped(l, a, b), max)
  {
    SpaceUpdate(q, l, max, a, l[b]);
    SpaceUpdate(q, l[a := l[b]], max, b, l[a]);
  }

  /** Giving the lighter node the greater length costs nothing. */
  lemma SwapIsNoDearer(q: set<int>, w: seq<int>, l: seq<int>, a: int, b: int)
    requires |w| == |l| && a in q && b in q && 0 <= a < |l| && 0 <= b < |l|
    requires w[a] <= w[b] && l[a] <= l[b]
    ensures Cost(q, w, Swapped(l, a, b)) <= Cost(q, w, l)
  {
    CostUpdate(q, w, l, a, l[b]);
    CostUpdate(q, w, l[a := l[b]], b, l[a]);
    MulNonNegative(w[b] - w[a], l[b] - l[a]);
    assert (w[b] - w[a]) * (l[b] - l[a]) == w[b] * l[b] - w[b] * l[a] - w[a] * l[b] + w[a] * l[a];
  }

  /** a and b are different nodes of the greatest length, and it is not 0. */
  ghost predicate DeepPair(q: set<int>, l: seq<int>, max: nat, a: int, b: int) {
    && a in q && b in q && a != b && max >= 1
    && 0 <= a < |l| && 0 <= b < |l| && l[a] == l[b] == max
  }

  lemma TwoNodes(q: set<int>, a: int)
    requires |q| >= 2
    ensures exists b :: b in q && b != a
  {
    if forall b :: b in q ==> b == a {
      assert q <= {a};
      SubsetSize(q, {a});
    }
  }

  lemma {:induction false} SubsetSize<T>(p: set<T>, q: set<T>)
    requires p <= q
    ensures |p| <= |q|
    decreases q
  {
    if x :| x in p {
      SubsetSize(p - {x}, q - {x});
    }
  }

  /** Two nodes of length 0 do not fit. */
  lemma {:induction false} SpaceOfTwo(q: set<int>, l: seq<int>, max: nat, a: int, b: int)
    requires Within(q, l, max) && a in q && b in q && a != b && l[a] == l[b] == max
    ensures TotalSpace(q, l, max) >= 2
  {
    var t := SpaceTable(q, l, max);
    SumUpdate(t, |l|, a, 0);
    SumUpdate(t[a := 0], |l|, b, 0);
    SumNatural(t[a := 0][b := 0], |l|);
    assert Pow2(0) == 1;
  }

  lemma {:induction false} SumNatural(g: seq<int>, n: nat)
    requires n <= |g| && forall v :: 0 <= v < n ==> g[v] >= 0
    ensures Sum(g, n) >= 0
    decreases n
  {
    if n > 0 {
      SumNatural(g, n - 1);
    }
  }

  /** A node alone at the greatest length can be moved up. */
  lemma MoveUp(q: set<int>, w: seq<int>, l: seq<int>, max: nat, a: int)
    requires |w| == |l| && PrefixLengths(q, l, max) && max >= 1
    requires a in q && l[a] == max && w[a] >= 0 && forall b :: b in q && b != a ==> l[b] != max
    ensures PrefixLengths(q, l[a := max - 1], max - 1) && Cost(q, w, l[a := max - 1]) <= Cost(q, w, l)
  {
    hide Cost, TotalSpace;
    var l' := l[a := max - 1];
    SpaceUpdate(q, l, max, a, max - 1);
    assert Pow2(1) == 2 && Pow2(0) == 1;
    SpaceDoubles(q, l', max);
    CostUpdate(q, w, l, a, max - 1);
    assert w[a] * max - w[a] * (max - 1) == w[a];
  }

  /** When no node has the greatest length allowed, less is enough. */
  lemma NoneDeep(q: set<int>, l: seq<int>, max: nat)
    requires PrefixLengths(q, l, max) && |q| >= 2 && forall v :: v in q ==> l[v] != max
    ensures max >= 1 && PrefixLengths(q, l, max - 1)
  {
    TwoNodes(q, -1);
    SpaceDoubles(q, l, max);
  }

  lemma DeepIsNotZero(q: set<int>, l: seq<int>, max: nat, a: int)
    requires PrefixLengths(q, l, max) && |q| >= 2 && a in q && l[a] == max
    ensures max >= 1
  {
    TwoNodes(q, a);
    if max == 0 {
      var b :| b in q && b != a;
      SpaceOfTwo(q, l, 0, a, b);
    }
  }

  /** A code that costs at most c, with a and b deepest. */
  ghost predicate Deepened(q: set<int>, w: seq<int>, c: int, l: seq<int>, max: nat, a: int, b: int) {
    |l| == |w| && PrefixLengths(q, l, max) && DeepPair(q, l, max, a, b) && Cost(q, w, l) <= c
  }

  /** A code that costs at most c. */
  ghost predicate Affordable(q: set<int>, w: seq<int>, c: int, l: seq<int>, max: nat) {
    |l| == |w| && PrefixLengths(q, l, max) && Cost(q, w, l) <= c
  }

  /** Without two deepest nodes, a bit can be saved. */
  lemma SaveBit(q: set<int>, w: seq<int>, c: int, l: seq<int>, max: nat) returns (l': seq<int>)
    requires Affordable(q, w, c, l, max) && |q| >= 2
    requires forall v :: v in q ==> w[v] >= 0
    requires forall u, v :: u in q && v in q && u != v && l[u] == max ==> l[v] != max
    ensures max >= 1 && Affordable(q, w, c, l', max - 1) && forall v :: v in q ==> l'[v] <= l[v]
  {
    if v :| v in q && l[v] == max {
      DeepIsNotZero(q, l, max, v);
      MoveUp(q, w, l, max, v);
      l' := l[v := max - 1];
    } else {
      NoneDeep(q, l, max);
      l' := l;
    }
  }

  /** Every code can be changed, at no cost, so that two nodes share the greatest length. */
  lemma {:induction false} SomeDeepPair(q: set<int>, w: seq<int>, c: int, l: seq<int>, max: nat)
    returns (l': seq<int>, max': nat, a: int, b: int)
    requires Affordable(q, w, c, l, max) && |q| >= 2
    requires forall v :: v in q ==> w[v] >= 0
    ensures Deepened(q, w, c, l', max', a, b) && forall v :: v in q ==> l'[v] <= l[v]
    decreases max
  {
    if u, v :| u in q && v in q && u != v && l[u] == max && l[v] == max {
      DeepIsNotZero(q, l, max, v);
      l', max', a, b := l, max, u, v;
    } else {
      var l1 := SaveBit(q, w, c, l, max);
      l', max', a, b := SomeDeepPair(q, w, c, l1, max - 1);
    }
  }

  /** n and m are the two lightest nodes of q. */
  ghost predicate TwoLightest(q: set<int>, w: seq<int>, n: int, m: int) {
    && n in q && m in q && n != m && 0 <= n < |w| && 0 <= m < |w|
    && (forall v :: v in q ==> 0 <= v < |w| && 0 <= w[n] <= w[v])
    && (forall v :: v in q && v != n ==> w[m] <= w[v])
  }

  /** The lighter of two nodes takes the place of a deepest one. */
  lemma TakePlace(q: set<int>, w: seq<int>, c: int, l: seq<int>, max: nat, n: int, a: int, b: int)
    returns (l': seq<int>, b': int)
    requires Deepened(q, w, c, l, max, a, b) && n in q && w[n] <= w[a]
    ensures Deepened(q, w, c, l', max, n, b')
    ensures b' == if b == n then a else b
  {
    SwapKeepsCode(q, l, max, n, a);
    SwapIsNoDearer(q, w, l, n, a);
    l', b' := Swapped(l, n, a), if b == n then a else b;
  }

  /** Every code can be changed, at no cost, so that the two lightest nodes have the greatest length. */
  lemma LightestDeepest(q: set<int>, w: seq<int>, l: seq<int>, max: nat, n: int, m: int)
    returns (l': seq<int>, max': nat)
    requires |w| == |l| && PrefixLengths(q, l, max) && TwoLightest(q, w, n, m)
    ensures Deepened(q, w, Cost(q, w, l), l', max', n, m)
  {
    SubsetSize({n, m}, q);
    var c := Cost(q, w, l);
    var l1, d, a, b := SomeDeepPair(q, w, c, l, max);
    var l2, b' := TakePlace(q, w, c, l1, d, n, a, b);
    var l3, n' := TakePlace(q, w, c, l2, d, m, b', n);
    l', max' := l3, d;
  }

  lemma ShorterPair(a: int, b: int, k: int)
    ensures (a + b) * (k - 1) == a * k + b * k - a - b
  {
  }

  lemma JoinTable(q: set<int>, w: seq<int>, l: seq<int>, n: int, m: int, node: int, x: int)
    requires |w| == |l| && n in q && m in q && 0 <= n < |w| && 0 <= m < |w| && n != m
    requires node !in q && 0 <= node < |w|
    ensures CostTable(q - {n, m} + {node}, w[node := w[n] + w[m]], l[node := x]) ==
            CostTable(q, w, l)[n := 0][m := 0][node := (w[n] + w[m]) * x]
  {
  }

  /** The code for the merged set that a code with n and m side by side gives. */
  lemma JoinPair(q: set<int>, w: seq<int>, l: seq<int>, max: nat, n: int, m: int, node: int)
    requires |w| == |l| && PrefixLengths(q, l, max) && DeepPair(q, l, max, n, m)
    requires node !in q && 0 <= node < |w|
    ensures PrefixLengths(q - {n, m} + {node}, l[node := max - 1], max)
    ensures Cost(q - {n, m} + {node}, w[node := w[n] + w[m]], l[node := max - 1]) == Cost(q, w, l) - w[n] - w[m]
  {
    hide PrefixLengths, Sum;
    JoinSpace(q, l, max, n, m, node);
    var t := CostTable(q, w, l);
    var x := (w[n] + w[m]) * (max - 1);
    JoinTable(q, w, l, n, m, node, max - 1);
    SumUpdate(t, |w|, n, 0);
    SumUpdate(t[n := 0], |w|, m, 0);
    SumUpdate(t[n := 0][m := 0], |w|, node, x);
    ShorterPair(w[n], w[m], max);
  }

  lemma {:induction false} JoinSpace(q: set<int>, l: seq<int>, max: nat, n: int, m: int, node: int)
    requires PrefixLengths(q, l, max) && DeepPair(q, l, max, n, m) && node !in q && 0 <= node < |l|
    ensures PrefixLengths(q - {n, m} + {node}, l[node := max - 1], max)
  {
    var q', l' := q - {n, m} + {node}, l[node := max - 1];
    var t := SpaceTable(q, l, max);
    assert Pow2(1) == 2 && Pow2(0) == 1;
    assert SpaceTable(q', l', max) == t[n := 0][m := 0][node := 2];
    SumUpdate(t, |l|, n, 0);
    SumUpdate(t[n := 0], |l|, m, 0);
    SumUpdate(t[n := 0][m := 0], |l|, node, 2);
  }

  /** Merging the two lightest nodes costs their weights and nothing more. */
  lemma MergeBound(q: set<int>, w: seq<int>, n: int, m: int, node: int, c: int)
    requires TwoLightest(q, w, n, m) && node !in q && 0 <= node < |w|
    requires CostsAtLeast(q - {n, m} + {node}, w[node := w[n] + w[m]], c)
    ensures CostsAtLeast(q, w, c + w[n] + w[m])
  {
    forall l: seq<int>, max: nat | |l| == |w| && PrefixLengths(q, l, max)
      ensures Cost(q, w, l) >= c + w[n] + w[m]
    {
      var l', max' := LightestDeepest(q, w, l, max, n, m);
      JoinPair(q, w, l', max', n, m, node);
    }
  }

  lemma NothingIsFree(q: set<int>, w: seq<int>)
    requires forall v :: v in q ==> 0 <= v < |w| && w[v] >= 0
    ensures CostsAtLeast(q, w, 0)
  {
    forall l: seq<int>, max: nat | |l| == |w| && PrefixLengths(q, l, max)
      ensures Cost(q, w, l) >= 0
    {
      forall v | 0 <= v < |w|
        ensures CostTable(q, w, l)[v] >= 0
      {
        if v in q {
          MulNonNegative(w[v], l[v]);
        }
      }
      SumNatural(CostTable(q, w, l), |w|);
    }
  }
}
