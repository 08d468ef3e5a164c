/** What a finished tree says about its symbols, in the order of the symbols. */
module TreeSymbols {
  import opened CodeLengths
  import opened LengthCounts
  import opened LengthPass
  import opened SymbolLengths
  import opened Sums
  import opened TreeCost
  import opened OptimalCodes

  /** The sum of `count * per` over the first n symbols. */
  function Price(f: seq<int>, per: seq<int>, n: nat): int
    requires n <= |f| && n <= |per|
  {
    if n == 0 then 0 else Price(f, per, n - 1) + f[n - 1] * per[n - 1]
  }

  /** Every node of the tree has its length, and no other symbol has one. */
  ghost predicate Finished(order: seq<int>, s: Shape, elems: int, max: nat, dl: seq<int>) {
    && s.WellFormed() && s.Size() == |order| && 0 <= elems <= |dl|
    && NoRepeats(order) && Places(order, |dl|)
    && (forall j :: 0 <= j < |order| ==> (s.leaf[j] <==> order[j] < elems))
    && (forall j :: 0 <= j < |order| ==> Done(order, s, max, dl, j))
    && (forall v :: 0 <= v < elems && v !in order ==> dl[v] == 0)
  }

  lemma PassFinishes(order: seq<int>, s: Shape, elems: int, max: nat, dl0: seq<int>, dl: seq<int>)
    requires Grown(order, s, elems, dl0) && Assigned(order, s, max, dl0, dl, |order|) && 0 <= elems <= |dl|
    requires forall v :: 0 <= v < elems && v !in order ==> dl0[v] == 0
    ensures Finished(order, s, elems, max, dl)
  {
    forall i, j | 0 <= i < j < |order|
      ensures order[i] != order[j]
    {
      if i > 0 {
        assert Hung(order, s, dl0, i);
      }
      assert Alone(order, i);
    }
    forall v | 0 <= v < elems && v !in order
      ensures dl[v] == 0
    {
      assert Kept(dl0, dl, v);
    }
  }

  /** A table along the nodes is summed over all symbols when it is zero elsewhere. */
  lemma SumOfSymbols(order: seq<int>, s: Shape, elems: int, max: nat, dl: seq<int>, g: seq<int>)
    requires Finished(order, s, elems, max, dl) && |g| == |dl|
    requires forall v :: elems <= v < |g| ==> g[v] == 0
    requires forall v :: 0 <= v < elems && v !in order ==> g[v] == 0
    ensures SumAlong(g, order, |order|) == Sum(g, elems)
  {
    assert order[..|order|] == order;
    SumInAnyOrder(g, order, |order|);
    SumOfPrefix(g, elems, |g|);
  }

  ghost function HasLength(dl: seq<int>, elems: int, b: int): (g: seq<int>)
    ensures |g| == |dl|
    ensures forall v :: 0 <= v < |dl| ==> g[v] == if v < elems && dl[v] == b then 1 else 0
  {
    seq(|dl|, v requires 0 <= v < |dl| => if v < elems && dl[v] == b then 1 else 0)
  }

  lemma {:induction false} HistogramAlong(order: seq<int>, s: Shape, elems: int, max: nat, dl: seq<int>, k: nat, b: nat)
    requires Finished(order, s, elems, max, dl) && k <= |order| && b <= max < COUNTS
    ensures Histogram(s, max, k)[b] == SumAlong(HasLength(dl, elems, b), order, k)
    decreases k
  {
    if k > 0 {
      HistogramAlong(order, s, elems, max, dl, k - 1, b);
      assert Done(order, s, max, dl, k - 1);
    }
  }

  lemma {:induction false} SumCounts(dl: seq<int>, elems: int, b: int, n: nat, m: nat)
    requires n <= m <= elems <= |dl|
    ensures Sum(HasLength(dl, elems, b), n) == CountOf(dl[..m], n, b)
    decreases n
  {
    if n > 0 {
      SumCounts(dl, elems, b, n - 1, m);
    }
  }

  /** The histogram of the tree counts the lengths of the symbols. */
  lemma HistogramCounts(order: seq<int>, s: Shape, elems: int, max: nat, dl: seq<int>, n: nat)
    requires Finished(order, s, elems, max, dl) && n <= elems && 1 <= max < COUNTS && !s.leaf[0]
    requires forall j :: 0 <= j < |order| && s.leaf[j] ==> order[j] < n
    ensures Counts(Histogram(s, max, |order|), dl[..n], max)
  {
    NoEmptyCodes(s, max, |order|);
    forall b | 1 <= b <= max
      ensures Histogram(s, max, |order|)[b] == CountOf(dl[..n], n, b)
    {
      HistogramAlong(order, s, elems, max, dl, |order|, b);
      SumOfSymbols(order, s, elems, max, dl, HasLength(dl, elems, b));
      SumOfPrefix(HasLength(dl, elems, b), n, elems);
      SumCounts(dl, elems, b, n, n);
    }
  }

  ghost function PriceTable(f: seq<int>, per: seq<int>, elems: int): (g: seq<int>)
    requires 0 <= elems <= |f| && elems <= |per|
    ensures |g| == |f| && forall v :: 0 <= v < |f| ==> g[v] == if v < elems then f[v] * per[v] else 0
  {
    seq(|f|, v requires 0 <= v < |f| => if v < elems then f[v] * per[v] else 0)
  }

  lemma {:induction false} SumIsPrice(f: seq<int>, per: seq<int>, elems: int, n: nat)
    requires 0 <= n <= elems <= |f| && elems <= |per|
    ensures Sum(PriceTable(f, per, elems), n) == Price(f, per, n)
    decreases n
  {
    if n > 0 {
      SumIsPrice(f, per, elems, n - 1);
    }
  }

  ghost predicate Unused(order: seq<int>, elems: int, f: seq<int>)
    requires elems <= |f|
  {
    forall v :: 0 <= v < elems && v !in order ==> f[v] == 0
  }

  lemma {:induction false} FlatCostAlong(order: seq<int>, s: Shape, elems: int, max: nat, dl: seq<int>, f: seq<int>, per: seq<int>, k: nat)
    requires Finished(order, s, elems, max, dl) && |f| == |dl| && |per| == elems && k <= |order|
    ensures FlatCost(order, s, f, per, k) == SumAlong(PriceTable(f, per, elems), order, k)
    decreases k
  {
    if k > 0 {
      FlatCostAlong(order, s, elems, max, dl, f, per, k - 1);
    }
  }

  /** The price of the tree for given lengths is the price of the symbols. */
  lemma FlatCostIsPrice(order: seq<int>, s: Shape, elems: int, max: nat, dl: seq<int>, f: seq<int>, per: seq<int>)
    requires Finished(order, s, elems, max, dl) && |f| == |dl| && |per| == elems && Unused(order, elems, f)
    ensures FlatCost(order, s, f, per, |order|) == Price(f, per, elems)
  {
    FlatCostAlong(order, s, elems, max, dl, f, per, |order|);
    SumOfSymbols(order, s, elems, max, dl, PriceTable(f, per, elems));
    SumIsPrice(f, per, elems, elems);
  }

  /** Length and extra bits of every symbol. */
  ghost function WithExtra(dl: seq<int>, extra: seq<int>): (r: seq<int>)
    requires |extra| <= |dl|
    ensures |r| == |extra| && forall v :: 0 <= v < |r| ==> r[v] == dl[v] + extra[v]
  {
    seq(|extra|, v requires 0 <= v < |extra| => dl[v] + extra[v])
  }

  lemma {:induction false} BitCostIsFlat(order: seq<int>, s: Shape, elems: int, max: nat, dl: seq<int>, f: seq<int>, extra: seq<int>, k: nat)
    requires Finished(order, s, elems, max, dl) && |f| == |dl| && |extra| == elems && k <= |order|
    ensures BitCost(order, s, max, f, extra, k) == FlatCost(order, s, f, WithExtra(dl, extra), k)
    decreases k
  {
    if k > 0 {
      BitCostIsFlat(order, s, elems, max, dl, f, extra, k - 1);
      assert Done(order, s, max, dl, k - 1);
    }
  }

  /** The bits charged for the tree are the bits its symbols take. */
  lemma BitCostIsPrice(order: seq<int>, s: Shape, elems: int, max: nat, dl: seq<int>, f: seq<int>, extra: seq<int>)
    requires Finished(order, s, elems, max, dl) && |f| == |dl| && |extra| == elems && Unused(order, elems, f)
    ensures BitCost(order, s, max, f, extra, |order|) == Price(f, WithExtra(dl, extra), elems)
  {
    BitCostIsFlat(order, s, elems, max, dl, f, extra, |order|);
    FlatCostIsPrice(order, s, elems, max, dl, f, WithExtra(dl, extra));
  }

  /** The weights of the nodes, from the root on. */
  ghost function WeightsOf(order: seq<int>, f: seq<int>): (w: seq<int>)
    requires Places(order, |f|)
    ensures |w| == |order| && forall i :: 0 <= i < |order| ==> w[i] == f[order[i]]
  {
    seq(|order|, i requires 0 <= i < |order| => f[order[i]])
  }

  lemma {:induction false} NoneDeeper(s: Shape, max: nat, i: nat, k: nat)
    requires s.WellFormed() && i < k <= s.Size() && Deep(s, max, k) == 0
    ensures s.Depth(i) <= max
    decreases k
  {
    if i < k - 1 {
      NoneDeeper(s, max, i, k - 1);
    }
  }

  lemma {:induction false} CostAlong(order: seq<int>, s: Shape, elems: int, max: nat, dl: seq<int>, f: seq<int>, q: set<int>, k: nat)
    requires Finished(order, s, elems, max, dl) && |f| == |dl| && k <= |order| && Deep(s, max, |order|) == 0
    requires forall j :: 0 <= j < |order| ==> (order[j] in q <==> s.leaf[j])
    ensures SumAlong(CostTable(q, f, dl), order, k) == DepthCost(s, WeightsOf(order, f), k)
    decreases k
  {
    if k > 0 {
      CostAlong(order, s, elems, max, dl, f, q, k - 1);
      assert Done(order, s, max, dl, k - 1);
      NoneDeeper(s, max, k - 1, |order|);
    }
  }

  /** When nothing is cut off, the symbols cost what the tree weighs below its root. */
  lemma CostOfSymbols(order: seq<int>, s: Shape, elems: int, max: nat, dl: seq<int>, f: seq<int>, q: set<int>)
    requires Finished(order, s, elems, max, dl) && |f| == |dl| && Deep(s, max, |order|) == 0
    requires forall j :: 0 <= j < |order| ==> (order[j] in q <==> s.leaf[j])
    requires forall v :: v in q ==> v in order
    requires WeighedTree(s, WeightsOf(order, f))
    ensures Cost(q, f, dl) == WeightBelowRoot(WeightsOf(order, f), |order|)
  {
    var t := CostTable(q, f, dl);
    CostAlong(order, s, elems, max, dl, f, q, |order|);
    CostOfTree(s, WeightsOf(order, f));
    assert order[..|order|] == order;
    SumInAnyOrder(t, order, |order|);
  }
}
