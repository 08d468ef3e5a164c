/** When a Huffman tree stays within a limit: exactly if some cheapest prefix code does. */
module LimitedCodes {
  import opened Arithmetic
  import opened Sums
  import opened CodeLengths
  import opened OptimalCodes
  import opened ShallowCodes
  import opened HuffmanShape
  import opened TreeCost
  import opened TreeSpec
  import opened DeepTrees
  import opened DyadicCounts

  /** Some prefix code for q keeps all lengths within the limit, and none is cheaper. */
  ghost predicate KeepsLimit(q: set<int>, w: seq<int>, max: nat) {
    exists l: seq<int> :: |l| == |w| && PrefixLengths(q, l, max) && CostsAtLeast(q, w, Cost(q, w, l))
  }

  /** The depths in a tree, by symbol. */
  ghost function DepthCode(order: seq<int>, s: Shape, elems: nat, n: nat): (l: seq<int>)
    requires s.WellFormed() && s.Size() == |order|
    ensures |l| == n && forall v :: 0 <= v < n ==> l[v] == if v < elems && v in order then s.Depth(IndexOf(order, v)) else 0
  {
    seq(n, v requires 0 <= v => if v < elems && v in order then s.Depth(IndexOf(order, v)) else 0)
  }

  /** Every symbol has its depth for a length. */
  ghost predicate ByDepth(order: seq<int>, s: Shape, e: seq<int>)
    requires s.WellFormed() && s.Size() == |order|
  {
    forall j: nat :: j < |order| && s.leaf[j] ==> 0 <= order[j] < |e| && e[order[j]] == s.Depth(j)
  }

  lemma DepthCodeIsByDepth(order: seq<int>, s: Shape, elems: nat, n: nat)
    requires s.WellFormed() && s.Size() == |order| && NoRepeats(order) && elems <= n
    requires forall j: nat :: j < |order| && s.leaf[j] ==> 0 <= order[j] < elems
    ensures ByDepth(order, s, DepthCode(order, s, elems, n))
  {
    hide Shape.WellFormed, Shape.Depth, IndexOf;
    forall j: nat | j < |order| && s.leaf[j]
      ensures DepthCode(order, s, elems, n)[order[j]] == s.Depth(j)
    {
      assert order[j] in order && order[IndexOf(order, order[j])] == order[j];
    }
  }

  lemma {:induction false} DepthsCost(order: seq<int>, w: seq<int>, s: Shape, e: seq<int>, k: nat)
    requires s.WellFormed() && s.Size() == |w| == |order| && ByDepth(order, s, e) && k <= |order|
    requires forall j :: 0 <= j < |order| && s.leaf[j] ==> 0 <= order[j] < |e|
    ensures PlanCost(s, w, order, e, k) == DepthCost(s, w, k)
    decreases k
  {
    hide Shape.WellFormed, Shape.Depth;
    if k > 0 {
      DepthsCost(order, w, s, e, k - 1);
    }
  }

  /** The code space of the leaves, by symbol. */
  lemma {:induction false} SpaceAlong(order: seq<int>, elems: nat, symbols: set<int>, s: Shape, e: seq<int>, max: nat, k: nat)
    requires s.WellFormed() && s.Size() == |order| && Places(order, elems + |symbols|) && elems <= |e| && k <= |order| && ByDepth(order, s, e)
    requires forall j: nat :: j < |order| ==> s.Depth(j) <= max && (s.leaf[j] <==> order[j] < elems) && (s.leaf[j] ==> order[j] in symbols)
    ensures LeafWeight(s, max, k) == SumAlong(CountTable(SpaceTable(symbols, e, max), elems, |symbols|), order, k)
    decreases k
  {
    hide Shape.WellFormed, Shape.Depth, Pow2;
    if k > 0 {
      SpaceAlong(order, elems, symbols, s, e, max, k - 1);
    }
  }

  lemma {:induction false} DepthsFill(order: seq<int>, elems: nat, symbols: set<int>, s: Shape, e: seq<int>, max: nat)
    requires s.WellFormed() && s.Size() == |order| && NoRepeats(order) && Places(order, elems + |symbols|) && elems <= |e| && ByDepth(order, s, e)
    requires forall j: nat :: j < |order| ==> s.Depth(j) <= max && (s.leaf[j] <==> order[j] < elems) && (s.leaf[j] ==> order[j] in symbols)
    requires forall v :: v in symbols ==> 0 <= v < elems && v in order
    ensures PrefixLengths(symbols, e, max)
  {
    hide Shape.WellFormed, Shape.Depth, Pow2, LeafWeight, SumAlong, Sum, Deep;
    var t := SpaceTable(symbols, e, max);
    DyadicCounts.NoneDeep(s, max, |order|);
    KraftOfCutTree(s, max);
    SpaceAlong(order, elems, symbols, s, e, max, |order|);
    TableSum(order, elems, symbols, t);
    SumOfPrefix(t, elems, |e|);
    forall v | v in symbols
      ensures 0 <= e[v] <= max
    {
      var j: nat :| j < |order| && order[j] == v;
      assert s.leaf[j];
    }
  }

  lemma HuffmanFacts(order: seq<int>, w: seq<int>, elems: int, symbols: set<int>, f: seq<int>)
    requires Huffman(order, w, elems, symbols, f)
    ensures |order| == |w| > 0 && (forall v :: v in symbols ==> 0 <= v < elems && v < |f|) && ShapeOf(order, elems).WellFormed()
    ensures WeighedTree(ShapeOf(order, elems), w) && (forall j :: 0 <= j < |order| && order[j] < elems ==> order[j] in symbols)
    ensures CostsAtLeast(symbols, f, WeightBelowRoot(w, |w|)) && Shallow(ShapeOf(order, elems), symbols, f, WeightBelowRoot(w, |w|))
  {
  }

  /** A Huffman tree whose nodes keep the limit gives a cheapest code that does. */
  lemma {:induction false} TreeIsCode(order: seq<int>, w: seq<int>, elems: nat, symbols: set<int>, f: seq<int>, max: nat) returns (e: seq<int>)
    requires Huffman(order, w, elems, symbols, f) && elems <= |f| && ShapeOf(order, elems).WellFormed()
    requires forall j :: 0 <= j < |order| ==> ShapeOf(order, elems).Depth(j) <= max
    ensures |e| == |f| && PrefixLengths(symbols, e, max) && Cost(symbols, f, e) == WeightBelowRoot(w, |w|)
  {
    hide Huffman, Shape.WellFormed, Shape.Depth, ParentIndex, KidIndex, PrefixLengths, Cost, WeighedTree, DepthCost, PlanCost, WeightBelowRoot;
    var s := ShapeOf(order, elems);
    HuffmanFacts(order, w, elems, symbols, f);
    HuffmanHasNoRepeats(order, w, elems, symbols, f);
    e := DepthCode(order, s, elems, |f|);
    DepthCodeIsByDepth(order, s, elems, |f|);
    hide IndexOf;
    DepthsFill(order, elems, symbols, s, e, max);
    PlanIsCost(order, w, elems, symbols, f, e, s);
    DepthsCost(order, w, s, e, |order|);
    CostOfTree(s, w);
  }

  lemma DepthsBelow(s: Shape)
    requires s.WellFormed()
    ensures forall j :: 0 <= j < s.Size() ==> s.Depth(j) <= s.Size()
  {
    forall j | 0 <= j < s.Size()
      ensures s.Depth(j) <= s.Size()
    {
      DepthBelow(s, j);
    }
  }

  lemma {:induction false} NotAllKeep(order: seq<int>, w: seq<int>, elems: nat, symbols: set<int>, f: seq<int>, max: nat)
    requires Huffman(order, w, elems, symbols, f) && elems <= |f| && ShapeOf(order, elems).WellFormed() && !KeepsLimit(symbols, f, max)
    ensures exists j: nat :: j < |order| && ShapeOf(order, elems).Depth(j) > max
  {
    hide Huffman, Shape.WellFormed, Shape.Depth, ParentIndex, KidIndex, PrefixLengths, Cost, WeighedTree, WeightBelowRoot;
    if forall j: nat :: j < |order| ==> ShapeOf(order, elems).Depth(j) <= max {
      HuffmanFacts(order, w, elems, symbols, f);
      var e := TreeIsCode(order, w, elems, symbols, f, max);
      assert false;
    }
  }

  /** All nodes of a Huffman tree keep the limit exactly if some cheapest prefix code for its symbols does. */
  lemma {:induction false} LimitIsKept(order: seq<int>, w: seq<int>, elems: nat, symbols: set<int>, f: seq<int>, max: nat)
    requires Huffman(order, w, elems, symbols, f) && elems <= |f|
    ensures ShapeOf(order, elems).WellFormed() && ShapeOf(order, elems).Size() == |order|
    ensures (forall j: nat :: j < |order| ==> ShapeOf(order, elems).Depth(j) <= max) <==> KeepsLimit(symbols, f, max)
  {
    hide Huffman, Shape.WellFormed, Shape.Depth, ParentIndex, KidIndex, PrefixLengths, Cost, WeighedTree, WeightBelowRoot;
    var s, c := ShapeOf(order, elems), WeightBelowRoot(w, |w|);
    HuffmanFacts(order, w, elems, symbols, f);
    if KeepsLimit(symbols, f, max) {
      var l: seq<int> :| |l| == |f| && PrefixLengths(symbols, l, max) && CostsAtLeast(symbols, f, Cost(symbols, f, l));
      DepthsBelow(s);
      var e := TreeIsCode(order, w, elems, symbols, f, |order|);
      assert Cost(symbols, f, l) <= Cost(symbols, f, e);
      ShortEnough(symbols, f, c, l, max);
      assert forall j: nat :: j < s.Size() ==> s.Depth(j) <= max;
    } else {
      NotAllKeep(order, w, elems, symbols, f, max);
    }
  }

  lemma ShortEnough(q: set<int>, w: seq<int>, c: int, l: seq<int>, max: nat)
    requires |l| == |w| && PrefixLengths(q, l, max) && Cost(q, w, l) <= c
    ensures HasShort(q, w, c, max)
  {
    hide Cost, TotalSpace;
    assert Affordable(q, w, c, l, max);
  }
}
