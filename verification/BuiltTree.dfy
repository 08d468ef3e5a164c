/** What the finished tree means for the symbols: who gets a length, and how good the lengths are. */
module BuiltTree {
  import opened Arithmetic
  import opened CodeLengths
  import opened LengthLimit
  import opened LengthCounts
  import opened HuffmanMerge
  import opened HuffmanShape
  import opened HuffmanWeights
  import opened HuffmanLevels
  import opened ShallowCodes
  import opened CountedSymbols
  import opened LengthPass
  import opened SymbolLengths
  import opened CanonicalCodes
  import opened OptimalCodes
  import opened Sums
  import opened TreeCost
  import opened TreeSymbols
  import opened RenewedLengths
  import opened TreeSpec

  /** Exactly the given symbols have a length, between 1 and the maximum. */
  ghost predicate LengthsFor(symbols: seq<int>, elems: int, max: nat, dl: seq<int>) {
    && 0 <= elems <= |dl|
    && (forall v :: 0 <= v < elems ==> 0 <= dl[v] <= max)
    && (forall v :: 0 <= v < elems ==> (dl[v] > 0 <==> v in symbols))
  }

  lemma TreeHasSymbol(order: seq<int>, elems: int, symbols: seq<int>, dl0: seq<int>, v: int)
    requires Tree(order, elems, SetOf(symbols), dl0) && v < elems
    ensures v in order <==> v in symbols
  {
    NodeListed(order, elems, SetOf(symbols), dl0, v);
  }

  lemma LengthOfSymbol(order: seq<int>, s: Shape, elems: int, max: nat, dl: seq<int>, v: int)
    requires Finished(order, s, elems, max, dl) && !s.leaf[0] && max >= 1 && 0 <= v < elems
    ensures 0 <= dl[v] <= max && (dl[v] > 0 <==> v in order)
  {
    if v in order {
      var j :| 0 <= j < |order| && order[j] == v;
      assert Done(order, s, max, dl, j);
    }
  }

  /** The leaves of the tree, and only they, have lengths. */
  lemma LengthsOfTree(order: seq<int>, s: Shape, elems: int, max: nat, symbols: seq<int>, dl0: seq<int>, dl: seq<int>)
    requires Tree(order, elems, SetOf(symbols), dl0)
    requires Finished(order, s, elems, max, dl) && !s.leaf[0] && max >= 1
    ensures LengthsFor(symbols, elems, max, dl)
  {
    forall v | 0 <= v < elems
      ensures 0 <= dl[v] <= max && (dl[v] > 0 <==> v in symbols)
    {
      LengthOfSymbol(order, s, elems, max, dl, v);
      TreeHasSymbol(order, elems, symbols, dl0, v);
    }
  }

  lemma {:induction false} SpaceOfPrefix(lens: seq<int>, max: nat, n: nat, m: nat)
    requires n <= m <= |lens| && LengthsUpTo(lens, max) && forall v :: n <= v < m ==> lens[v] == 0
    ensures CodeSpace(lens, max, m) == CodeSpace(lens, max, n)
    decreases m
  {
    if n < m {
      SpaceOfPrefix(lens, max, n, m - 1);
    }
  }

  /** The lengths fill the code space exactly, up to what was cut off. */
  lemma SpaceOfTree(order: seq<int>, s: Shape, elems: int, max: nat, dl: seq<int>)
    requires Finished(order, s, elems, max, dl) && !s.leaf[0] && 1 <= max < COUNTS
    requires LengthsUpTo(dl[..elems], max)
    ensures 2 * CodeSpace(dl[..elems], max, elems) == 2 * Pow2(max) + Deep(s, max, |order|)
  {
    HistogramCounts(order, s, elems, max, dl, elems);
    KraftOfLengths(Histogram(s, max, |order|), dl[..elems], max);
    CountsOfTree(s, max);
  }

  /** Without cut-off the histogram and the lengths are fit for the code generator. */
  lemma TreeIsCodable(order: seq<int>, s: Shape, elems: int, max: nat, dl: seq<int>, n: nat)
    requires Finished(order, s, elems, max, dl) && !s.leaf[0] && 1 <= max <= MAX_BITS
    requires n <= elems && (forall j :: 0 <= j < |order| && s.leaf[j] ==> order[j] < n)
    requires LengthsUpTo(dl[..elems], max) && Deep(s, max, |order|) == 0
    ensures Codable(Histogram(s, max, |order|), dl[..n], MAX_BITS)
  {
    HistogramCounts(order, s, elems, max, dl, n);
    CountsOfTree(s, max);
    MoreBits(Histogram(s, max, |order|), dl[..n], max, MAX_BITS);
  }

  /** The leaves of s are the nodes of q. */
  ghost predicate LeavesAre(order: seq<int>, s: Shape, elems: int, q: set<int>)
    requires s.Size() == |order|
  {
    && (forall j :: 0 <= j < |order| ==> (order[j] in q <==> s.leaf[j]))
    && (forall v :: v in q ==> v in order && 0 <= v < elems)
  }

  lemma SymbolsAreLeaves(order: seq<int>, elems: int, q: set<int>, dl0: seq<int>)
    requires Tree(order, elems, q, dl0)
    ensures LeavesAre(order, ShapeOf(order, elems), elems, q)
  {
    forall j | 0 <= j < |order|
      ensures order[j] in q <==> order[j] < elems
    {
      assert order[j] in order;
      NodeListed(order, elems, q, dl0, order[j]);
    }
    forall v | v in q
      ensures v in order
    {
      NodeListed(order, elems, q, dl0, v);
    }
  }

  /** No prefix code for the symbols is cheaper than the lengths of a tree that was not cut off. */
  lemma LengthsAreOptimal(order: seq<int>, s: Shape, elems: int, max: nat, q: set<int>, dl: seq<int>, f0: seq<int>, f: seq<int>)
    requires Finished(order, s, elems, max, dl) && Deep(s, max, |order|) == 0 && LeavesAre(order, s, elems, q)
    requires |f0| == |f| == |dl| && forall v :: 0 <= v < elems ==> f[v] == f0[v]
    requires WeighedTree(s, WeightsOf(order, f))
    requires CostsAtLeast(q, f0, WeightBelowRoot(WeightsOf(order, f), |order|))
    ensures CostsAtLeast(q, f0, Cost(q, f0, dl))
  {
    CostOfSymbols(order, s, elems, max, dl, f, q);
    assert CostTable(q, f, dl) == CostTable(q, f0, dl);
  }

  lemma {:induction false} PriceUpdate(f: seq<int>, per: seq<int>, n: nat, x: nat, v: int)
    requires n <= |f| && n <= |per| && x < n
    ensures Price(f[x := v], per, n) == Price(f, per, n) + (v - f[x]) * per[x]
    decreases n
  {
    if x < n - 1 {
      PriceUpdate(f, per, n - 1, x, v);
    } else {
      PriceFrame(f, f[x := v], per, n - 1);
      assert (v - f[x]) * per[x] == v * per[x] - f[x] * per[x];
    }
  }

  lemma {:induction false} PriceFrame(f: seq<int>, g: seq<int>, per: seq<int>, n: nat)
    requires n <= |f| && n <= |g| && n <= |per| && forall v :: 0 <= v < n ==> f[v] == g[v]
    ensures Price(f, per, n) == Price(g, per, n)
    decreases n
  {
    if n > 0 {
      PriceFrame(f, g, per, n - 1);
    }
  }

  /** Symbols forced with count 1 add their lengths to the price. */
  lemma {:induction false} PriceOfForced(f: seq<int>, forced: seq<int>, per: seq<int>, n: nat)
    requires n <= |f| && n == |per| && Distinct(forced)
    requires forall i :: 0 <= i < |forced| ==> 0 <= forced[i] < n && f[forced[i]] == 0
    ensures Price(Marked(f, forced, 1), per, n) == Price(f, per, n) + SumOver(per, forced)
    decreases |forced|
  {
    if forced != [] {
      var init, x := forced[..|forced| - 1], forced[|forced| - 1];
      PriceOfForced(f, init, per, n);
      var g := Marked(f, init, 1);
      assert g[x] == 0;
      PriceUpdate(g, per, n, x, 1);
      assert Marked(f, forced, 1) == g[x := 1];
    }
  }

  /** The two leaves of the smallest tree have one bit each. */
  lemma TwoLeaves(order: seq<int>, s: Shape, elems: int, max: nat, dl: seq<int>, v: int)
    requires Finished(order, s, elems, max, dl) && |order| == 3 && !s.leaf[0] && max >= 1
    requires 0 <= v < elems && v in order
    ensures dl[v] == 1
  {
    var j :| 0 <= j < 3 && order[j] == v;
    assert s.leaf[j];
    assert Done(order, s, max, dl, j);
    assert s.BranchesWell(0);
    assert s.parent[1] == 0 && s.parent[2] == 0;
    assert s.Depth(0) == 0 && s.Depth(1) == 1 && s.Depth(2) == 1;
  }

  /** When symbols had to be forced, they take one bit each, which is what the correction took off. */
  lemma {:induction false} ForcedPrice(f: seq<int>, elems: int, max: nat, dl: seq<int>, extra: seq<int>, forced: seq<int>, f1: seq<int>,
                                       overlong: int, order: seq<int>, w: seq<int>)
    requires 3 <= elems <= |f| && elems == |extra| && forced == Forced(Counted(f, elems)) && f1 == Marked(f, forced, 1) && 1 <= max < COUNTS
    requires Measured(Symbols(f, elems), elems, max, f1, dl, overlong, order, w)
    requires forall x :: 0 <= x < 3 ==> extra[x] == 0
    ensures var per := WithExtra(Charged(order, elems, max, dl, overlong), extra); Price(f1, per, elems) == Price(f, per, elems) + |forced|
  {
    hide Charged, Huffman, CutLengths;
    HuffmanIsTree(order, w, elems, SetOf(Symbols(f, elems)), f1);
    var per := WithExtra(Charged(order, elems, max, dl, overlong), extra);
    ForcedAreUncounted(f, elems);
    PriceOfForced(f, forced, per, elems);
    if forced != [] {
      ForcedIsShort(f, elems, max, dl, forced, f1, overlong, order, w);
      forall i | 0 <= i < |forced|
        ensures per[forced[i]] == 1
      {
        assert forced[i] in Symbols(f, elems);
      }
    }
    SumOfOnes(per, forced);
  }

  lemma ForcedMakesTwo(f: seq<int>, elems: int)
    requires 3 <= elems <= |f| && Forced(Counted(f, elems)) != []
    ensures |Symbols(f, elems)| == 2
  {
  }

  lemma {:induction false} ForcedIsShort(f: seq<int>, elems: int, max: nat, dl: seq<int>, forced: seq<int>, f1: seq<int>,
                                         overlong: int, order: seq<int>, w: seq<int>)
    requires 3 <= elems <= |f| && forced == Forced(Counted(f, elems)) && 1 <= max < COUNTS && forced != []
    requires Measured(Symbols(f, elems), elems, max, f1, dl, overlong, order, w)
    ensures ShapeOf(order, elems).WellFormed()
    ensures |Symbols(f, elems)| == 2 && Charged(order, elems, max, dl, overlong) == dl[..elems]
  {
    hide Huffman, CostsAtLeast, CodeSpace, Pow2, Symbols, Forced, Counted, LengthsFor, LengthsUpTo, Shape.WellFormed;
    ForcedMakesTwo(f, elems);
    ForcedAreUncounted(f, elems);
    DistinctToSet(Symbols(f, elems));
    HuffmanIsTree(order, w, elems, SetOf(Symbols(f, elems)), f1);
    TwoAreNotDeep(ShapeOf(order, elems), max);
  }

  /** The same for the fixed lengths: what is charged for forced symbols was taken off before. */
  lemma ForcedFixedPrice(f: seq<int>, elems: int, fixed: seq<int>, flat: seq<int>, forced: seq<int>, f1: seq<int>)
    requires 3 <= elems <= |f| && elems == |fixed| && forced == Forced(Counted(f, elems)) && f1 == Marked(f, forced, 1)
    requires forall x :: 0 <= x < 3 ==> fixed[x] == if x < |flat| then flat[x] else 0
    ensures Price(f1, fixed, elems) == Price(f, fixed, elems) + SumOver(flat, forced)
  {
    ForcedAreUncounted(f, elems);
    PriceOfForced(f, forced, fixed, elems);
    SameOver(fixed, flat, forced);
  }

  lemma {:induction false} SameOver(f: seq<int>, g: seq<int>, places: seq<int>)
    requires forall i :: 0 <= i < |places| ==> 0 <= places[i] < |f| && f[places[i]] == if places[i] < |g| then g[places[i]] else 0
    ensures SumOver(f, places) == SumOver(g, places)
    decreases |places|
  {
    if places != [] {
      SameOver(f, g, places[..|places| - 1]);
    }
  }

  lemma ForcedAreUncounted(f: seq<int>, elems: int)
    requires 3 <= elems <= |f|
    ensures var forced := Forced(Counted(f, elems));
            && Distinct(forced) && Distinct(Symbols(f, elems))
            && forall i :: 0 <= i < |forced| ==> 0 <= forced[i] < 3 && f[forced[i]] == 0
  {
    var forced := Forced(Counted(f, elems));
    SymbolsInRange(f, elems);
    CountedIncreases(f, elems);
    SymbolsAreDistinct(Counted(f, elems));
    forall i | 0 <= i < |forced|
      ensures f[forced[i]] == 0
    {
      CountedExactly(f, elems, forced[i]);
    }
  }

  lemma {:induction false} SumOfOnes(per: seq<int>, places: seq<int>)
    requires forall i :: 0 <= i < |places| ==> 0 <= places[i] < |per| && per[places[i]] == 1
    ensures SumOver(per, places) == |places|
    decreases |places|
  {
    if places != [] {
      SumOfOnes(per, places[..|places| - 1]);
    }
  }

  /** The tree is complete: `h` holds it from `top` on, over `symbols` with the weights f1. */
  ghost predicate Ripe(h: seq<int>, top: int, elems: int, symbols: seq<int>, f1: seq<int>, f: seq<int>, dl: seq<int>, maxCode: int) {
    && |h| == HEAP_SIZE && 0 <= top < HEAP_SIZE && 3 <= elems <= |f| == |f1| == |dl|
    && Tree(h[top..], elems, SetOf(symbols), dl)
    && Distinct(symbols) && |symbols| <= elems
    && PairSums(h, elems, f, |symbols| - 1)
    && (forall p :: top <= p < HEAP_SIZE ==> 0 <= h[p] < |f|) && Descending(h, top, f)
    && CostsAtLeast(SetOf(symbols), f1, BackWeight(f, h, top + 1))
    && Crowned(h, top, elems, |symbols| - 1, SetOf(symbols), f1, BackWeight(f, h, top + 1))
    && (forall v :: 0 <= v < elems ==> f[v] == f1[v])
    && (forall v :: 0 <= v < elems && v !in symbols ==> dl[v] == 0 && f1[v] == 0)
    && maxCode in symbols && (forall v :: v in symbols ==> 0 <= v <= maxCode < elems)
  }

  /** A ripe tree is ready to be measured. */
  lemma RipeIsGrown(h: seq<int>, top: int, elems: int, symbols: seq<int>, f1: seq<int>, f: seq<int>, dl: seq<int>, maxCode: int,
                    order: seq<int>, extra: seq<int>, fixed: seq<int>)
    requires Ripe(h, top, elems, symbols, f1, f, dl, maxCode) && order == h[top..] && |extra| == |fixed| == elems
    ensures |order| == 2 * |symbols| - 1 <= 2 * elems - 1 && Places(order, |f|)
    ensures Grown(order, ShapeOf(order, elems), elems, dl)
    ensures Fits(order, ShapeOf(order, elems), f, extra, fixed)
    ensures forall j :: 0 <= j < |order| && order[j] < elems ==> order[j] <= maxCode
    ensures forall v :: 0 <= v < elems && v !in order ==> dl[v] == 0 && f[v] == 0
  {
    DistinctToSet(symbols);
    TreeIsGrown(order, elems, SetOf(symbols), dl);
    TreeInRange(order, elems, SetOf(symbols), dl);
    forall v | 0 <= v < elems && v !in order
      ensures dl[v] == 0 && f[v] == 0
    {
      TreeHasSymbol(order, elems, symbols, dl, v);
    }
  }

  /** What measuring a ripe tree gives, whether or not it is cut off. */
  lemma MeasuredLengths(h: seq<int>, top: int, elems: int, max: nat, symbols: seq<int>, f1: seq<int>, f: seq<int>, dl0: seq<int>,
                        maxCode: int, order: seq<int>, s: Shape, dl: seq<int>)
    requires Ripe(h, top, elems, symbols, f1, f, dl0, maxCode) && order == h[top..] && s == ShapeOf(order, elems)
    requires s.WellFormed() && 1 <= max <= MAX_BITS && Finished(order, s, elems, max, dl) && !s.leaf[0]
    ensures LengthsFor(symbols, elems, max, dl) && LengthsUpTo(dl[..elems], max)
    ensures 2 * CodeSpace(dl[..elems], max, elems) == 2 * Pow2(max) + Deep(s, max, |order|)
  {
    LengthsOfTree(order, s, elems, max, symbols, dl0, dl);
    SpaceOfTree(order, s, elems, max, dl);
  }

  /** The weights of a ripe tree: no code is cheaper, and they are sorted. */
  lemma {:induction false} RipeIsWeighed(h: seq<int>, top: int, elems: int, symbols: seq<int>, f1: seq<int>, f: seq<int>, dl0: seq<int>,
                                         maxCode: int, order: seq<int>, w: seq<int>)
    requires Ripe(h, top, elems, symbols, f1, f, dl0, maxCode) && order == h[top..] && Places(order, |f|) && w == WeightsOf(order, f)
    requires |order| == 2 * |SetOf(symbols)| - 1
    ensures WeighedTree(ShapeOf(order, elems), w) && CostsAtLeast(SetOf(symbols), f1, WeightBelowRoot(w, |w|))
    ensures Crowned(h, top, elems, |symbols| - 1, SetOf(symbols), f1, WeightBelowRoot(w, |w|))
  {
    hide Tree, CostsAtLeast, WeighedTree, Crowned;
    DistinctToSet(symbols);
    TreeIsWeighed(h, order, elems, SetOf(symbols), dl0, f);
    BackWeightOfTree(h, order, f, top, |order|);
  }

  lemma RipeDescends(h: seq<int>, top: int, f: seq<int>, order: seq<int>, w: seq<int>)
    requires 0 <= top <= |h| && (forall p :: top <= p < |h| ==> 0 <= h[p] < |f|) && Descending(h, top, f)
    requires order == h[top..] && Places(order, |f|) && w == WeightsOf(order, f)
    ensures forall i, j :: 0 <= i <= j < |w| ==> w[j] <= w[i]
  {
    forall i, j | 0 <= i <= j < |w|
      ensures w[j] <= w[i]
    {
      assert h[top + i] == order[i] && h[top + j] == order[j];
    }
  }

  lemma {:induction false} KidsAreLower(h: seq<int>, top: int, elems: int, symbols: set<int>, dl: seq<int>, f: seq<int>, cost: int, hs: seq<int>,
                                        order: seq<int>, p: nat)
    requires Crown(h, top, elems, |symbols| - 1, symbols, f, cost, hs) && order == h[top..] && Tree(order, elems, symbols, dl)
    requires p < |order| && order[p] >= elems
    ensures var c := KidIndex(order, elems, p);
            c + 1 < |order| && 0 <= order[p] < |hs| && 0 <= order[c] < |hs| && 0 <= order[c + 1] < |hs|
            && hs[order[c]] < hs[order[p]] && hs[order[c + 1]] < hs[order[p]]
  {
    hide HasShort, LinkedOk;
    assert order[p] in order;
    NodeListed(order, elems, symbols, dl, order[p]);
    KidsAreListed(order, elems, symbols, dl, p);
    assert PairHeight(h, elems, hs, order[p] - elems);
  }

  /** Every node is lower than its father. */
  ghost predicate Stacked(s: Shape, lv: seq<int>) {
    && s.WellFormed() && |lv| == s.Size() && (forall i :: 0 <= i < |lv| ==> lv[i] >= 0)
    && forall i: nat :: 1 <= i < |lv| ==> s.parent[i] < |lv| && lv[i] < lv[s.parent[i]]
  }

  /** Under a root of a certain height no node lies deeper. */
  lemma {:induction false} DepthAndHeight(s: Shape, lv: seq<int>, i: nat)
    requires Stacked(s, lv) && i < |lv|
    ensures s.Depth(i) + lv[i] <= lv[0]
    decreases i
  {
    if i > 0 {
      assert s.HangsWell(i);
      DepthAndHeight(s, lv, s.parent[i]);
    }
  }

  lemma ParentIsListed(order: seq<int>, elems: int, symbols: set<int>, dl: seq<int>, i: nat)
    requires Tree(order, elems, symbols, dl) && 1 <= i < |order|
    ensures var p := ParentIndex(order, elems, i);
            p < i && order[p] >= elems && (i == KidIndex(order, elems, p) || i == KidIndex(order, elems, p) + 1)
  {
    FatherIsListed(order, elems, symbols, dl, i);
  }

  lemma {:induction false} LowerThanFather(h: seq<int>, top: int, elems: int, symbols: set<int>, dl: seq<int>, f: seq<int>, cost: int, hs: seq<int>,
                                           order: seq<int>, i: nat)
    requires Crown(h, top, elems, |symbols| - 1, symbols, f, cost, hs) && order == h[top..] && Tree(order, elems, symbols, dl) && 1 <= i < |order|
    ensures var p := ParentIndex(order, elems, i);
            p < |order| && 0 <= order[p] < |hs| && 0 <= order[i] < |hs| && hs[order[i]] < hs[order[p]]
  {
    hide Tree, Crown, ParentIndex, KidIndex;
    ParentIsListed(order, elems, symbols, dl, i);
    KidsAreLower(h, top, elems, symbols, dl, f, cost, hs, order, ParentIndex(order, elems, i));
  }

  lemma {:induction false} CrownStacks(h: seq<int>, top: int, elems: int, symbols: set<int>, dl: seq<int>, f: seq<int>, cost: int, hs: seq<int>,
                                       order: seq<int>, lv: seq<int>)
    requires Crown(h, top, elems, |symbols| - 1, symbols, f, cost, hs) && order == h[top..] && Tree(order, elems, symbols, dl)
    requires |lv| == |order| && forall i :: 0 <= i < |order| ==> 0 <= order[i] < |hs| && lv[i] == hs[order[i]] >= 0
    ensures Stacked(ShapeOf(order, elems), lv)
  {
    hide Tree, Crown, ParentIndex, KidIndex;
    var s := ShapeOf(order, elems);
    TreeIsWellFormed(order, elems, symbols, dl);
    hide Shape.WellFormed;
    forall i: nat | 1 <= i < |lv|
      ensures s.parent[i] < |lv| && lv[i] < lv[s.parent[i]]
    {
      LowerThanFather(h, top, elems, symbols, dl, f, cost, hs, order, i);
    }
  }

  lemma {:induction false} CrownedIsShallow(h: seq<int>, top: int, elems: int, symbols: set<int>, dl: seq<int>, f: seq<int>, cost: int, order: seq<int>)
    requires Crowned(h, top, elems, |symbols| - 1, symbols, f, cost) && 0 <= top <= |h| && order == h[top..] && Tree(order, elems, symbols, dl)
    ensures ShapeOf(order, elems).WellFormed() && Shallow(ShapeOf(order, elems), symbols, f, cost)
  {
    hide Tree, Shape.Depth, Shape.WellFormed, PairHeight, HasShort;
    var hs :| Crown(h, top, elems, |symbols| - 1, symbols, f, cost, hs);
    forall i | 0 <= i < |order|
      ensures 0 <= order[i] < |hs| && hs[order[i]] >= 0
    {
      assert order[i] == h[top + i];
    }
    var s, lv := ShapeOf(order, elems), seq(|order|, i requires 0 <= i < |order| => hs[order[i]]);
    CrownStacks(h, top, elems, symbols, dl, f, cost, hs, order, lv);
    forall j: nat | j < |order|
      ensures s.Depth(j) <= hs[h[top]]
    {
      DepthAndHeight(s, lv, j);
    }
  }

  /** A ripe tree is an optimal tree over the symbols, with its nodes sorted by weight. */
  lemma {:induction false} RipeIsHuffman(h: seq<int>, top: int, elems: int, symbols: seq<int>, f1: seq<int>, f: seq<int>, dl0: seq<int>,
                                         maxCode: int, order: seq<int>)
    requires Ripe(h, top, elems, symbols, f1, f, dl0, maxCode) && order == h[top..]
    ensures Places(order, |f|) && Huffman(order, WeightsOf(order, f), elems, SetOf(symbols), f1)
  {
    hide WeighedTree, CostsAtLeast, BackWeight, WeightBelowRoot, PairSums, Ids, Descending, LinkedOk, Shape.WellFormed, Shallow, Crowned;
    TreeInRange(order, elems, SetOf(symbols), dl0);
    RipeIsWeighed(h, top, elems, symbols, f1, f, dl0, maxCode, order, WeightsOf(order, f));
    DistinctToSet(symbols);
    CrownedIsShallow(h, top, elems, SetOf(symbols), dl0, f1, WeightBelowRoot(WeightsOf(order, f), |order|), order);
    RipeDescends(h, top, f, order, WeightsOf(order, f));
  }

  /** What measuring a ripe tree gives when nothing is cut off: a code, and the best one. */
  lemma MeasuredCode(h: seq<int>, top: int, elems: int, max: nat, symbols: seq<int>, f1: seq<int>, f: seq<int>, dl0: seq<int>,
                     maxCode: int, order: seq<int>, s: Shape, dl: seq<int>)
    requires Ripe(h, top, elems, symbols, f1, f, dl0, maxCode) && order == h[top..] && s == ShapeOf(order, elems)
    requires s.WellFormed() && 1 <= max <= MAX_BITS && Finished(order, s, elems, max, dl) && !s.leaf[0]
    requires |dl| == |f| && Deep(s, max, |order|) == 0 && LengthsUpTo(dl[..elems], max)
    ensures Codable(Histogram(s, max, |order|), dl[..maxCode + 1], MAX_BITS)
    ensures CostsAtLeast(SetOf(symbols), f1, Cost(SetOf(symbols), f1, dl))
  {
    var q := SetOf(symbols);
    DistinctToSet(symbols);
    SymbolsAreLeaves(order, elems, q, dl0);
    TreeInRange(order, elems, q, dl0);
    TreeIsCodable(order, s, elems, max, dl, maxCode + 1);
    RipeIsHuffman(h, top, elems, symbols, f1, f, dl0, maxCode, order);
    LengthsAreOptimal(order, s, elems, max, q, dl, f1, f);
  }

  /**
   The lengths are those of the optimal tree `order` over `symbols`, cut off; `overlong` of its nodes lie too deep.
   So they fill the code space up to what was cut off, and no code is cheaper if nothing was.
   */
  ghost predicate Measured(symbols: seq<int>, elems: int, max: nat, f1: seq<int>, dl: seq<int>, overlong: int, order: seq<int>, w: seq<int>) {
    && Huffman(order, w, elems, SetOf(symbols), f1) && CutLengths(order, elems, max, dl, overlong)
    && LengthsFor(symbols, elems, max, dl) && LengthsUpTo(dl[..elems], max) && |f1| == |dl|
    && 2 * CodeSpace(dl[..elems], max, elems) == 2 * Pow2(max) + overlong
    && (|symbols| == 2 ==> forall v :: v in symbols ==> 0 <= v < elems && dl[v] == 1)
    && (overlong == 0 ==> CostsAtLeast(SetOf(symbols), f1, Cost(SetOf(symbols), f1, dl)))
  }

  lemma FinishedIsCut(order: seq<int>, elems: int, max: nat, dl: seq<int>)
    requires Finished(order, ShapeOf(order, elems), elems, max, dl)
    ensures CutLengths(order, elems, max, dl, Deep(ShapeOf(order, elems), max, |order|))
  {
    var s := ShapeOf(order, elems);
    forall j | 0 <= j < |order| && s.leaf[j]
      ensures dl[order[j]] == CutDepth(s, max, j)
    {
      assert Done(order, s, max, dl, j);
    }
  }

  /** What measuring a ripe tree gives. */
  lemma MeasuredTree(h: seq<int>, top: int, elems: int, max: nat, symbols: seq<int>, f1: seq<int>, f: seq<int>, dl0: seq<int>,
                     maxCode: int, order: seq<int>, s: Shape, dl: seq<int>, extra: seq<int>, fixed: seq<int>)
    requires Ripe(h, top, elems, symbols, f1, f, dl0, maxCode) && order == h[top..] && s == ShapeOf(order, elems)
    requires 1 <= max <= MAX_BITS && |extra| == |fixed| == elems && Fits(order, s, f, extra, fixed)
    requires Grown(order, s, elems, dl0) && Assigned(order, s, max, dl0, dl, |order|)
    ensures Places(order, |f|) && Places(order, |dl|)
    ensures Measured(symbols, elems, max, f1, dl, Deep(s, max, |order|), order, WeightsOf(order, f))
    ensures Deep(s, max, |order|) == 0 ==> Codable(Histogram(s, max, |order|), dl[..maxCode + 1], MAX_BITS)
    ensures FlatCost(order, s, f, fixed, |order|) == Price(f1, fixed, elems)
    ensures Expense(order, s, elems, max, f, dl, extra) == Price(f1, WithExtra(Charged(order, elems, max, dl, Deep(s, max, |order|)), extra), elems)
  {
    hide Charged, Expense, BitCost, FlatCost, Renewal, NewTable, Repaired, Histogram, Price, WithExtra, Huffman, CutLengths, CostsAtLeast, CodeSpace, Pow2;
    RipeIsGrown(h, top, elems, symbols, f1, f, dl0, maxCode, order, extra, fixed);
    PassFinishes(order, s, elems, max, dl0, dl);
    MeasuredLengths(h, top, elems, max, symbols, f1, f, dl0, maxCode, order, s, dl);
    RipeIsHuffman(h, top, elems, symbols, f1, f, dl0, maxCode, order);
    FinishedIsCut(order, elems, max, dl);
    MeasuredPrices(order, s, elems, max, f1, f, dl, extra, fixed);
    if |symbols| == 2 {
      forall v | v in symbols
        ensures dl[v] == 1
      {
        TreeHasSymbol(order, elems, symbols, dl0, v);
        TwoLeaves(order, s, elems, max, dl, v);
      }
    }
    if Deep(s, max, |order|) == 0 {
      MeasuredCode(h, top, elems, max, symbols, f1, f, dl0, maxCode, order, s, dl);
    }
  }

  /** What is charged along a tree: the lengths cut off, and the difference to new ones if any was. */
  ghost function Expense(order: seq<int>, s: Shape, elems: int, max: nat, f: seq<int>, dl: seq<int>, extra: seq<int>): int
    requires s.WellFormed() && s.Size() == |order| && 1 <= max < COUNTS && Places(order, |f|) && Places(order, |dl|)
    requires forall j :: 0 <= j < |order| && s.leaf[j] ==> order[j] < |extra|
  {
    BitCost(order, s, max, f, extra, |order|)
    + if Deep(s, max, |order|) == 0 then 0
      else Renewal(order, s, f, dl, Repaired(Histogram(s, max, |order|), max, Deep(s, max, |order|)), max, 0)
  }

  /** It is what the symbols take with the lengths charged for. */
  lemma {:induction false} ExpenseIsPrice(order: seq<int>, s: Shape, elems: int, max: nat, f1: seq<int>, f: seq<int>, dl: seq<int>, extra: seq<int>)
    requires Finished(order, s, elems, max, dl) && |f| == |dl| && |f1| == |f| && Unused(order, elems, f)
    requires s == ShapeOf(order, elems) && 1 <= max < COUNTS && |extra| == elems && forall v :: 0 <= v < elems ==> f[v] == f1[v]
    ensures Expense(order, s, elems, max, f, dl, extra) == Price(f1, WithExtra(Charged(order, elems, max, dl, Deep(s, max, |order|)), extra), elems)
  {
    hide BitCost, FlatCost, Renewal, NewTable, Repaired, Histogram, Price, Deep, Shape.WellFormed, ShapeOf;
    var deep := Deep(s, max, |order|);
    var per := WithExtra(Charged(order, elems, max, dl, deep), extra);
    PriceFrame(f, f1, per, elems);
    if deep == 0 {
      BitCostIsPrice(order, s, elems, max, dl, f, extra);
      assert per == WithExtra(dl, extra);
    } else {
      RenewedPrice(order, s, elems, max, dl, f, extra, Repaired(Histogram(s, max, |order|), max, deep));
    }
  }

  lemma {:induction false} MeasuredPrices(order: seq<int>, s: Shape, elems: int, max: nat, f1: seq<int>, f: seq<int>, dl: seq<int>, extra: seq<int>,
                                          fixed: seq<int>)
    requires Finished(order, s, elems, max, dl) && Fits(order, s, f, extra, fixed) && |f| == |dl| && |f1| == |f| && Unused(order, elems, f)
    requires s == ShapeOf(order, elems) && 1 <= max < COUNTS && |extra| == |fixed| == elems && forall v :: 0 <= v < elems ==> f[v] == f1[v]
    ensures FlatCost(order, s, f, fixed, |order|) == Price(f1, fixed, elems)
    ensures Expense(order, s, elems, max, f, dl, extra) == Price(f1, WithExtra(Charged(order, elems, max, dl, Deep(s, max, |order|)), extra), elems)
  {
    hide Expense, Charged, FlatCost, Price, Shape.WellFormed, ShapeOf, WithExtra;
    FlatCostIsPrice(order, s, elems, max, dl, f, fixed);
    PriceFrame(f, f1, fixed, elems);
    ExpenseIsPrice(order, s, elems, max, f1, f, dl, extra);
  }

  /** The smallest tree is never cut off. */
  lemma TwoAreNotDeep(s: Shape, max: nat)
    requires s.WellFormed() && s.Size() == 3 && !s.leaf[0] && max >= 1
    ensures Deep(s, max, 3) == 0
  {
    assert s.BranchesWell(0);
    assert s.parent[1] == 0 && s.parent[2] == 0;
    assert s.Depth(0) == 0 && s.Depth(1) == 1 && s.Depth(2) == 1;
    assert Deep(s, max, 1) == Deep(s, max, 0) == 0;
    assert Deep(s, max, 2) == Deep(s, max, 1);
  }
}
