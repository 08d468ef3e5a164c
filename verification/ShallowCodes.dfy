/**
 How long the longest word of a cheapest prefix code must be. Nodes have a weight and a height, that of the tree below them.
 Merging the two lightest nodes, of equally light ones the lowest, loses no code that is both cheap and short.
 */
module ShallowCodes {
  import opened OptimalCodes

  /** No word is longer than b, when the trees below the nodes are counted in. */
  ghost predicate Reaches(q: set<int>, l: seq<int>, hs: seq<int>, b: int) {
    forall v :: v in q ==> 0 <= v < |l| && v < |hs| && l[v] + hs[v] <= b
  }

  /** A code that costs at most c, and reaches down to b. */
  ghost predicate Low(q: set<int>, w: seq<int>, hs: seq<int>, c: int, b: int, l: seq<int>, max: nat) {
    Affordable(q, w, c, l, max) && Reaches(q, l, hs, b)
  }

  ghost predicate HasLow(q: set<int>, w: seq<int>, hs: seq<int>, c: int, b: int) {
    exists l: seq<int>, max: nat :: Low(q, w, hs, c, b, l, max)
  }

  /** There is a prefix code that costs at most c, and has no word longer than b. */
  ghost predicate HasShort(q: set<int>, w: seq<int>, c: int, b: int) {
    exists l: seq<int>, max: nat :: Affordable(q, w, c, l, max) && forall v :: v in q ==> l[v] <= b
  }

  /** n comes before v: it is lighter, or as light and not higher. */
  predicate Before(w: seq<int>, hs: seq<int>, n: int, v: int)
    requires 0 <= n < |w| && n < |hs| && 0 <= v < |w| && v < |hs|
  {
    w[n] < w[v] || (w[n] == w[v] && hs[n] <= hs[v])
  }

  /** n and m are the two that come first in q. */
  ghost predicate TwoFirst(q: set<int>, w: seq<int>, hs: seq<int>, n: int, m: int) {
    && TwoLightest(q, w, n, m) && |hs| == |w|
    && (forall v :: v in q ==> Before(w, hs, n, v))
    && (forall v :: v in q && v != n ==> Before(w, hs, m, v))
  }

  lemma SwapCost(q: set<int>, w: seq<int>, l: seq<int>, a: int, b: int)
    requires |w| == |l| && a in q && b in q && 0 <= a < |l| && 0 <= b < |l|
    ensures Cost(q, w, Swapped(l, a, b)) == Cost(q, w, l) - (w[b] - w[a]) * (l[b] - l[a])
  {
    CostUpdate(q, w, l, a, l[b]);
    CostUpdate(q, w, l[a := l[b]], b, l[a]);
    assert (w[b] - w[a]) * (l[b] - l[a]) == w[b] * l[b] - w[b] * l[a] - w[a] * l[b] + w[a] * l[a];
  }

  lemma Saving(x: int, y: int)
    requires x >= 1 && y >= 1
    ensures x * y >= 1
  {
  }

  /** In a cheapest code, a node that comes first takes the place of a deepest one, and no word gets longer. */
  lemma {:induction false} TakePlaceLow(q: set<int>, w: seq<int>, hs: seq<int>, c: int, bound: int, l: seq<int>, max: nat, n: int, a: int, b: int)
    returns (l': seq<int>, b': int)
    requires Deepened(q, w, c, l, max, a, b) && CostsAtLeast(q, w, c) && Reaches(q, l, hs, bound)
    requires n in q && |hs| == |w| && 0 <= n < |w| && Before(w, hs, n, a)
    ensures Deepened(q, w, c, l', max, n, b') && Reaches(q, l', hs, bound)
    ensures b' == if b == n then a else b
  {
    hide Cost, TotalSpace;
    SwapKeepsCode(q, l, max, n, a);
    SwapIsNoDearer(q, w, l, n, a);
    SwapCost(q, w, l, n, a);
    l', b' := Swapped(l, n, a), if b == n then a else b;
    if w[n] < w[a] && l[n] < max {
      Saving(w[a] - w[n], l[a] - l[n]);
      assert false;
    }
  }

  /** The code for the merged set reaches no deeper. */
  lemma {:induction false} JoinLow(q: set<int>, w: seq<int>, hs: seq<int>, c: int, bound: int, l: seq<int>, max: nat, n: int, m: int, node: int,
                                   hs': seq<int>)
    requires Deepened(q, w, c, l, max, n, m) && Reaches(q, l, hs, bound) && node !in q && 0 <= node < |w| == |hs|
    requires hs' == hs[node := 1 + if hs[n] <= hs[m] then hs[m] else hs[n]]
    ensures Low(q - {n, m} + {node}, w[node := w[n] + w[m]], hs', c - w[n] - w[m], bound, l[node := max - 1], max)
  {
    hide Cost, TotalSpace;
    JoinPair(q, w, l, max, n, m, node);
  }

  /** Merging the two that come first loses no cheapest code that reaches down to the bound. */
  lemma {:induction false} MergeKeepsLow(q: set<int>, w: seq<int>, hs: seq<int>, n: int, m: int, node: int, c: int, bound: int, hs': seq<int>)
    requires TwoFirst(q, w, hs, n, m) && node !in q && 0 <= node < |w|
    requires hs' == hs[node := 1 + if hs[n] <= hs[m] then hs[m] else hs[n]]
    requires CostsAtLeast(q - {n, m} + {node}, w[node := w[n] + w[m]], c) && HasLow(q, w, hs, c + w[n] + w[m], bound)
    ensures HasLow(q - {n, m} + {node}, w[node := w[n] + w[m]], hs', c, bound)
  {
    hide Cost, TotalSpace, CostsAtLeast, PrefixLengths;
    var c' := c + w[n] + w[m];
    MergeBound(q, w, n, m, node, c);
    SubsetSize({n, m}, q);
    var l: seq<int>, max: nat :| Low(q, w, hs, c', bound, l, max);
    var l1, d, a, b := SomeDeepPair(q, w, c', l, max);
    var l2, b' := TakePlaceLow(q, w, hs, c', bound, l1, d, n, a, b);
    var l3, n' := TakePlaceLow(q, w, hs, c', bound, l2, d, m, b', n);
    JoinLow(q, w, hs, c', bound, l3, d, n, m, node, hs');
  }

  /** What is known of codes for q: of every short code for q0 that costs what has been paid more than q must, a low one is left for q. */
  ghost predicate Narrowed(q: set<int>, w: seq<int>, hs: seq<int>, q0: set<int>, w0: seq<int>, paid: int) {
    forall c, b :: CostsAtLeast(q, w, c) && HasShort(q0, w0, c + paid, b) ==> HasLow(q, w, hs, c, b)
  }

  lemma {:induction false} MergeNarrows(q: set<int>, w: seq<int>, hs: seq<int>, q0: set<int>, w0: seq<int>, paid: int, n: int, m: int, node: int,
                                        hs': seq<int>)
    requires Narrowed(q, w, hs, q0, w0, paid) && TwoFirst(q, w, hs, n, m) && node !in q && 0 <= node < |w|
    requires 0 <= n < |w| && 0 <= m < |w| && hs' == hs[node := 1 + if hs[n] <= hs[m] then hs[m] else hs[n]]
    ensures Narrowed(q - {n, m} + {node}, w[node := w[n] + w[m]], hs', q0, w0, paid + w[n] + w[m])
  {
    hide CostsAtLeast, HasShort, HasLow, TwoFirst;
    FirstAreLightest(q, w, hs, n, m);
    var q', w' := q - {n, m} + {node}, w[node := w[n] + w[m]];
    forall c, b | CostsAtLeast(q', w', c) && HasShort(q0, w0, c + (paid + w[n] + w[m]), b)
      ensures HasLow(q', w', hs', c, b)
    {
      MergeBound(q, w, n, m, node, c);
      assert c + (paid + w[n] + w[m]) == (c + w[n] + w[m]) + paid;
      assert HasLow(q, w, hs, c + w[n] + w[m], b);
      MergeKeepsLow(q, w, hs, n, m, node, c, b, hs');
    }
  }

  lemma FirstAreLightest(q: set<int>, w: seq<int>, hs: seq<int>, n: int, m: int)
    requires TwoFirst(q, w, hs, n, m)
    ensures TwoLightest(q, w, n, m) && |hs| == |w|
  {
  }

  /** At the start nothing has been merged. */
  lemma {:induction false} NarrowedAtFirst(q: set<int>, w: seq<int>, hs: seq<int>)
    requires forall v :: v in q ==> 0 <= v < |w| == |hs| && hs[v] == 0
    ensures Narrowed(q, w, hs, q, w, 0)
  {
    hide CostsAtLeast, PrefixLengths, Cost;
    forall c, b | CostsAtLeast(q, w, c) && HasShort(q, w, c + 0, b)
      ensures HasLow(q, w, hs, c, b)
    {
      var l: seq<int>, max: nat :| Affordable(q, w, c + 0, l, max) && forall v :: v in q ==> l[v] <= b;
      assert Low(q, w, hs, c, b, l, max);
    }
  }

  /** In the end there is one node: no code that costs what has been paid is shorter than it is high. */
  lemma {:induction false} HeightIsNeeded(root: int, w: seq<int>, hs: seq<int>, q0: set<int>, w0: seq<int>, paid: int, b: int)
    requires Narrowed({root}, w, hs, q0, w0, paid) && 0 <= root < |w| == |hs| && w[root] >= 0 && HasShort(q0, w0, paid, b)
    ensures hs[root] <= b
  {
    hide HasShort;
    NothingIsFree({root}, w);
    assert HasShort(q0, w0, 0 + paid, b);
    assert HasLow({root}, w, hs, 0, b);
  }
}
