/** Counts that are powers of two and add up to one: then there is only one optimal tree, as far as depths go. */
module DyadicCounts {
  import opened Arithmetic
  import opened CanonicalCodes
  import opened Sums
  import opened CodeLengths
  import opened OptimalCodes
  import opened HuffmanShape
  import opened TreeCost
  import opened TreeSpec
  import opened DeepTrees

  /** Every symbol counts a power of two, all together 2 to the `max`; `e` says by how much less each counts. */
  ghost predicate Dyadic(symbols: set<int>, f: seq<int>, e: seq<int>, elems: int, max: nat) {
    && 0 <= elems <= |f| == |e| && Sum(f, elems) == Pow2(max)
    && (forall v :: v in symbols ==> 0 <= v < elems && 0 <= e[v] <= max && f[v] == Pow2(max - e[v]))
    && (forall v :: 0 <= v < elems && v !in symbols ==> f[v] == 0)
  }

  /** Taking x from an exponent leaves at least what taking that share x times would; exactly so only for 0 and -1. */
  lemma {:induction false} ShareBound(t: nat, x: int)
    requires x <= t
    ensures Pow2(t - x) >= Pow2(t) * (1 - x) && (Pow2(t - x) == Pow2(t) * (1 - x) ==> x == 0 || x == -1)
    decreases if x < 0 then -x else x
  {
    if x >= 1 {
      assert Pow2(t) * (1 - x) <= 0;
    } else if x < -1 {
      ShareBound(t, x + 1);
      assert Pow2(t) * (1 - x) == Pow2(t) * (1 - (x + 1)) + Pow2(t);
      assert Pow2(t) * (1 - (x + 1)) >= Pow2(t) * 2;
    }
  }

  /** What the leaves among the first k nodes would cost with the lengths e. */
  ghost function PlanCost(s: Shape, w: seq<int>, order: seq<int>, e: seq<int>, k: nat): int
    requires |w| == s.Size() == |order| && k <= |order| && forall j :: 0 <= j < |order| && s.leaf[j] ==> 0 <= order[j] < |e|
  {
    if k == 0 then 0 else PlanCost(s, w, order, e, k - 1) + (if s.leaf[k - 1] then w[k - 1] * e[order[k - 1]] else 0)
  }

  /** The leaves weigh the powers of two that e says. */
  ghost predicate Plan(s: Shape, w: seq<int>, order: seq<int>, e: seq<int>, max: nat) {
    && s.WellFormed() && |w| == s.Size() == |order|
    && forall j :: 0 <= j < |order| && s.leaf[j] ==> 0 <= order[j] < |e| && 0 <= e[order[j]] <= max && w[j] == Pow2(max - e[order[j]])
  }

  /** A leaf at depth d has at least the share that its plan e and the difference give; exactly so only at depth e or e - 1. */
  lemma {:induction false} LeafShare(deep: nat, max: nat, d: nat, e: nat)
    requires d <= deep && e <= max
    ensures var share, plan := Pow2(max) * Pow2(deep - d), Pow2(deep) * (Pow2(max - e) * (1 - (d - e)));
            share >= plan && (share == plan ==> d == e || d == e - 1)
  {
    hide Pow2;
    var t := deep + (max - e);
    Pow2Add(max, deep - d);
    Pow2Add(deep, max - e);
    ShareBound(t, d - e);
    assert t - (d - e) == max + (deep - d);
    assert Pow2(deep) * (Pow2(max - e) * (1 - (d - e))) == (Pow2(deep) * Pow2(max - e)) * (1 - (d - e));
  }

  /** How much more room the first k nodes take than their plan and its cost allow. */
  ghost function Slack(s: Shape, w: seq<int>, order: seq<int>, e: seq<int>, max: nat, deep: nat, k: nat): int
    requires Plan(s, w, order, e, max) && k <= |order|
  {
    Pow2(max) * LeafWeight(s, deep, k) - Pow2(deep) * (LeafSum(s, w, k) - DepthCost(s, w, k) + PlanCost(s, w, order, e, k))
  }

  lemma SlackStep(p: int, q: int, a: int, b: int, share: int, w: int, d: int, e: int)
    ensures p * (a + share) - q * (b + w - w * d + w * e) == (p * a - q * b) + (p * share - q * (w * (1 - (d - e))))
  {
    assert w * (1 - (d - e)) == w - w * d + w * e;
    assert q * (b + w - w * d + w * e) == q * b + q * (w - w * d + w * e);
    assert p * (a + share) == p * a + p * share;
  }

  /** There is no negative slack, and none at all only if every leaf is at its planned depth, or one above. */
  lemma {:induction false} SlackIsNatural(s: Shape, w: seq<int>, order: seq<int>, e: seq<int>, max: nat, deep: nat, k: nat)
    requires Plan(s, w, order, e, max) && k <= |order| && forall j :: 0 <= j < |order| ==> s.Depth(j) <= deep
    ensures Slack(s, w, order, e, max, deep, k) >= 0
    ensures Slack(s, w, order, e, max, deep, k) == 0 ==>
              forall j :: 0 <= j < k && s.leaf[j] ==> s.Depth(j) == e[order[j]] || s.Depth(j) == e[order[j]] - 1
    decreases k
  {
    hide Pow2, Shape.WellFormed, Shape.Depth;
    if k == 0 {
      assert Pow2(max) * 0 == 0 && Pow2(deep) * 0 == 0;
    } else {
      SlackIsNatural(s, w, order, e, max, deep, k - 1);
      var i := k - 1;
      if s.leaf[i] {
        var d, x := s.Depth(i), e[order[i]];
        LeafShare(deep, max, d, x);
        SlackStep(Pow2(max), Pow2(deep), LeafWeight(s, deep, i), LeafSum(s, w, i) - DepthCost(s, w, i) + PlanCost(s, w, order, e, i),
                  Pow2(deep - d), w[i], d, x);
      }
    }
  }

  /** Where no leaf is deeper than planned the cost is no greater, and the same only if all are as planned. */
  lemma {:induction false} NoneHigher(s: Shape, w: seq<int>, order: seq<int>, e: seq<int>, max: nat, k: nat)
    requires Plan(s, w, order, e, max) && k <= |order|
    requires forall j :: 0 <= j < k && s.leaf[j] ==> s.Depth(j) == e[order[j]] || s.Depth(j) == e[order[j]] - 1
    ensures DepthCost(s, w, k) <= PlanCost(s, w, order, e, k)
    ensures DepthCost(s, w, k) == PlanCost(s, w, order, e, k) ==> forall j :: 0 <= j < k && s.leaf[j] ==> s.Depth(j) == e[order[j]]
    decreases k
  {
    hide Shape.WellFormed, Shape.Depth, Pow2;
    if k > 0 {
      NoneHigher(s, w, order, e, max, k - 1);
      var i := k - 1;
      if s.leaf[i] {
        assert s.Depth(i) == e[order[i]] - 1 ==> w[i] * s.Depth(i) == w[i] * e[order[i]] - w[i];
      }
    }
  }

  lemma {:induction false} DepthBelow(s: Shape, i: nat)
    requires s.WellFormed() && i < s.Size()
    ensures s.Depth(i) <= i
    decreases i
  {
    if i > 0 {
      assert s.HangsWell(i);
      DepthBelow(s, s.parent[i]);
    }
  }

  lemma {:induction false} NoneDeep(s: Shape, max: nat, k: nat)
    requires s.WellFormed() && k <= s.Size() && forall j :: 0 <= j < s.Size() ==> s.Depth(j) <= max
    ensures Deep(s, max, k) == 0
    decreases k
  {
    hide Shape.WellFormed, Shape.Depth;
    if k > 0 {
      NoneDeep(s, max, k - 1);
    }
  }

  /** What the plan costs, by symbol. */
  lemma {:induction false} PlanAlong(order: seq<int>, w: seq<int>, elems: int, symbols: set<int>, f: seq<int>, e: seq<int>, s: Shape, k: nat)
    requires Huffman(order, w, elems, symbols, f) && s == ShapeOf(order, elems) && |e| == |f| >= elems >= 0
    requires Places(order, elems + |symbols|) && k <= |order|
    ensures PlanCost(s, w, order, e, k) == SumAlong(CountTable(CostTable(symbols, f, e), elems, |symbols|), order, k)
    decreases k
  {
    hide Shallow, CostsAtLeast, ParentIndex, KidIndex, Shape.WellFormed, Shape.Depth, WeighedTree, WeightBelowRoot;
    if k > 0 {
      PlanAlong(order, w, elems, symbols, f, e, s, k - 1);
    }
  }

  lemma {:induction false} PlanIsCost(order: seq<int>, w: seq<int>, elems: int, symbols: set<int>, f: seq<int>, e: seq<int>, s: Shape)
    requires Huffman(order, w, elems, symbols, f) && s == ShapeOf(order, elems) && |e| == |f| >= elems >= 0
    ensures |w| == |order| && forall j :: 0 <= j < |order| && s.leaf[j] ==> 0 <= order[j] < |e|
    ensures PlanCost(s, w, order, e, |order|) == Cost(symbols, f, e)
  {
    HuffmanHasNoRepeats(order, w, elems, symbols, f);
    SymbolsInside(order, w, elems, symbols, f);
    var t := CostTable(symbols, f, e);
    PlanAlong(order, w, elems, symbols, f, e, s, |order|);
    hide Huffman;
    TableSum(order, elems, symbols, t);
    SumOfPrefix(t, elems, |f|);
  }

  lemma SymbolsInside(order: seq<int>, w: seq<int>, elems: int, symbols: set<int>, f: seq<int>)
    requires Huffman(order, w, elems, symbols, f)
    ensures forall v :: v in symbols ==> 0 <= v < elems
  {
  }

  /** The plan is that of a prefix code. */
  lemma {:induction false} PlanIsCode(symbols: set<int>, f: seq<int>, e: seq<int>, elems: int, max: nat)
    requires Dyadic(symbols, f, e, elems, max)
    ensures PrefixLengths(symbols, e, max)
  {
    hide Pow2;
    var t := SpaceTable(symbols, e, max);
    SumFrame(t, f, elems);
    SumOfPrefix(t, elems, |e|);
  }

  lemma {:induction false} PlanCostsMore(order: seq<int>, w: seq<int>, elems: int, symbols: set<int>, f: seq<int>, e: seq<int>, max: nat)
    requires Huffman(order, w, elems, symbols, f) && Dyadic(symbols, f, e, elems, max)
    ensures Cost(symbols, f, e) >= WeightBelowRoot(w, |w|)
  {
    PlanIsCode(symbols, f, e, elems, max);
    hide Pow2, Cost, Dyadic, WeighedTree, PrefixLengths, WeightBelowRoot, ShapeOf;
    assert CostsAtLeast(symbols, f, WeightBelowRoot(w, |w|));
  }

  lemma {:induction false} PlanOfTree(order: seq<int>, w: seq<int>, elems: int, symbols: set<int>, f: seq<int>, e: seq<int>, max: nat, s: Shape)
    requires Huffman(order, w, elems, symbols, f) && s == ShapeOf(order, elems) && Dyadic(symbols, f, e, elems, max)
    ensures Plan(s, w, order, e, max) && WeighedTree(s, w)
  {
    hide Pow2, CostsAtLeast, Shape.WellFormed;
  }

  /** A tree of the planned weights that costs no more than planned is as planned. */
  lemma {:induction false} DepthsFollow(s: Shape, w: seq<int>, order: seq<int>, e: seq<int>, max: nat)
    requires Plan(s, w, order, e, max) && LeafSum(s, w, |order|) == Pow2(max) && DepthCost(s, w, |order|) <= PlanCost(s, w, order, e, |order|)
    ensures forall j :: 0 <= j < |order| && s.leaf[j] ==> s.Depth(j) == e[order[j]]
  {
    hide Pow2, Shape.Depth;
    var n := |order|;
    forall j | 0 <= j < n
      ensures s.Depth(j) <= n
    {
      DepthBelow(s, j);
    }
    NoneDeep(s, n, n);
    KraftOfCutTree(s, n);
    SlackIsNatural(s, w, order, e, max, n, n);
    NoSlackLeft(Pow2(max), Pow2(n), DepthCost(s, w, n), PlanCost(s, w, order, e, n));
    NoneHigher(s, w, order, e, max, n);
  }

  /** In every optimal tree over dyadic counts each symbol lies at the depth that its count says. */
  lemma {:induction false} DyadicDepths(order: seq<int>, w: seq<int>, elems: int, symbols: set<int>, f: seq<int>, e: seq<int>, max: nat, s: Shape)
    requires Huffman(order, w, elems, symbols, f) && s == ShapeOf(order, elems) && Dyadic(symbols, f, e, elems, max)
    ensures s.WellFormed() && s.Size() == |order|
    ensures forall j :: 0 <= j < |order| && s.leaf[j] ==> 0 <= order[j] < |e| && s.Depth(j) == e[order[j]]
  {
    hide Huffman, Pow2, WeighedTree, Cost, Shape.Depth, Shape.WellFormed, LeafSum, DepthCost, WeightBelowRoot, PlanCost;
    HuffmanIsTree(order, w, elems, symbols, f);
    PlanOfTree(order, w, elems, symbols, f, e, max, s);
    PlanCostsMore(order, w, elems, symbols, f, e, max);
    PlanIsCost(order, w, elems, symbols, f, e, s);
    RootCountsAll(order, w, elems, symbols, f);
    RootIsLeafSum(order, w, elems, symbols, f);
    CostOfTree(s, w);
    DepthsFollow(s, w, order, e, max);
  }

  lemma NoSlackLeft(p: int, q: int, cost: int, plan: int)
    requires p >= 1 && q >= 1 && cost <= plan && p * q - q * (p - cost + plan) >= 0
    ensures cost == plan && p * q - q * (p - cost + plan) == 0
  {
    assert q * (p - cost + plan) == q * p + q * (plan - cost);
  }
}
