/** How heavy a tree must be to be deep: along every path the weights grow at least like the Fibonacci numbers. */
module DeepTrees {
  import opened CodeLengths
  import opened Sums
  import opened HuffmanMerge
  import opened HuffmanShape
  import opened TreeCost
  import opened TreeSpec

  function Fib(n: nat): (r: nat)
    ensures n >= 1 ==> r >= 1
  {
    if n < 2 then n else Fib(n - 1) + Fib(n - 2)
  }

  /** A tree whose nodes are listed from the heaviest to the lightest. */
  ghost predicate SortedTree(s: Shape, w: seq<int>) {
    WeighedTree(s, w) && forall i, j :: 0 <= i <= j < |w| ==> w[j] <= w[i]
  }

  /** The other son of the father of node i. */
  ghost function Brother(s: Shape, i: nat): (b: nat)
    requires s.WellFormed() && 1 <= i < s.Size()
    ensures 1 <= b < s.Size() && s.parent[b] == s.parent[i] && b != i && (b == i + 1 || b == i - 1)
  {
    assert s.HangsWell(i);
    assert s.BranchesWell(s.parent[i]);
    if i == s.kid[s.parent[i]] then i + 1 else i - 1
  }

  /** A node and its brother make up their father. */
  lemma FatherWeighsBoth(s: Shape, w: seq<int>, i: nat)
    requires WeighedTree(s, w) && 1 <= i < s.Size()
    ensures s.parent[i] < i && w[s.parent[i]] == w[i] + w[Brother(s, i)]
  {
    assert s.HangsWell(i);
    assert s.BranchesWell(s.parent[i]);
    assert BalancedAt(s, w, s.parent[i]);
  }

  /** An uncle is no lighter than his nephew. */
  lemma UncleIsHeavier(s: Shape, w: seq<int>, i: nat)
    requires SortedTree(s, w) && 1 <= i < s.Size() && s.parent[i] >= 1
    ensures s.parent[i] < i && w[i] <= w[Brother(s, s.parent[i])]
  {
    assert s.HangsWell(i);
    var p := s.parent[i];
    assert s.HangsWell(p) && s.BranchesWell(p);
    var u := Brother(s, p);
    assert s.parent[u] == s.parent[p] < p;
    assert u != s.kid[p] && u != s.kid[p] + 1;
  }

  /** Climbing from node i, one of whose sons weighs at least Fib(m). */
  lemma {:induction false} Climb(s: Shape, w: seq<int>, i: nat, x: nat, m: nat)
    requires SortedTree(s, w) && i < x < s.Size() && s.parent[x] == i && w[x] >= Fib(m) && w[i] >= Fib(m + 1)
    ensures w[0] >= Fib(m + 1 + s.Depth(i))
    decreases i
  {
    if i > 0 {
      FatherWeighsBoth(s, w, i);
      UncleIsHeavier(s, w, x);
      Climb(s, w, s.parent[i], i, m + 1);
    }
  }

  /** A tree of positive weights with a node at depth d weighs at least Fib(d + 2). */
  lemma DeepNodeIsHeavy(s: Shape, w: seq<int>, x: nat)
    requires SortedTree(s, w) && x < s.Size() && forall j :: 0 <= j < |w| ==> w[j] >= 1
    ensures w[0] >= Fib(s.Depth(x) + 2)
  {
    if x > 0 {
      FatherWeighsBoth(s, w, x);
      Climb(s, w, s.parent[x], x, 2);
    }
  }

  lemma {:induction false} SomeDeepNode(s: Shape, max: nat, k: nat) returns (x: nat)
    requires s.WellFormed() && k <= s.Size() && Deep(s, max, k) > 0
    ensures x < k && s.Depth(x) > max
    decreases k
  {
    if s.Depth(k - 1) > max {
      x := k - 1;
    } else {
      x := SomeDeepNode(s, max, k - 1);
    }
  }

  lemma {:induction false} FibGrows(m: nat, n: nat)
    requires m <= n
    ensures Fib(m) <= Fib(n)
    decreases n
  {
    if m < n {
      FibGrows(m, n - 1);
    }
  }

  /** A tree is cut off only if its counts add up to a Fibonacci number: the root weighs at least Fib(max + 3). */
  lemma DeepTreeIsHeavy(order: seq<int>, w: seq<int>, elems: int, symbols: set<int>, f: seq<int>, max: nat)
    requires Huffman(order, w, elems, symbols, f) && forall v :: v in symbols ==> f[v] >= 1
    requires Deep(ShapeOf(order, elems), max, |order|) > 0
    ensures w[0] >= Fib(max + 3)
  {
    hide Huffman, Fib, Deep, Shape.Depth;
    var s := ShapeOf(order, elems);
    HuffmanIsSorted(order, w, elems, symbols, f);
    AllArePositive(order, w, elems, symbols, f);
    var x := SomeDeepNode(s, max, |order|);
    DeepNodeIsHeavy(s, w, x);
    FibGrows(max + 3, s.Depth(x) + 2);
  }

  lemma HuffmanIsSorted(order: seq<int>, w: seq<int>, elems: int, symbols: set<int>, f: seq<int>)
    requires Huffman(order, w, elems, symbols, f)
    ensures SortedTree(ShapeOf(order, elems), w) && ShapeOf(order, elems).Size() == |order| == |w| > 0
  {
  }

  /** The last node is a symbol, so every node weighs at least what some symbol counts. */
  lemma AllArePositive(order: seq<int>, w: seq<int>, elems: int, symbols: set<int>, f: seq<int>)
    requires Huffman(order, w, elems, symbols, f) && forall v :: v in symbols ==> f[v] >= 1
    ensures forall j :: 0 <= j < |w| ==> w[j] >= 1
  {
    var s, last := ShapeOf(order, elems), |order| - 1;
    assert s.leaf[last] || s.BranchesWell(last);
    assert order[last] < elems;
  }

  // The root weighs what the symbols count together.

  ghost function StandingSum(s: Shape, w: seq<int>, k: nat, h: nat): int
    requires s.WellFormed() && |w| == s.Size() && k <= s.Size()
  {
    if k == 0 then 0 else StandingSum(s, w, k - 1, h) + Standing(s, w, k - 1, h)
  }

  lemma {:induction false} VisitTakes(s: Shape, w: seq<int>, k: nat, h: nat)
    requires s.WellFormed() && |w| == s.Size() && 1 <= h < s.Size() && k <= h
    ensures s.parent[h] < h
    ensures StandingSum(s, w, k, h) == StandingSum(s, w, k, h + 1) + (if s.parent[h] < k then w[h] else 0)
    decreases k
  {
    assert s.HangsWell(h);
    if k > 0 {
      VisitTakes(s, w, k - 1, h);
      StandingStep(s, w, k - 1, h);
    }
  }

  lemma {:induction false} RootStands(s: Shape, w: seq<int>, h: nat)
    requires WeighedTree(s, w) && 1 <= h <= s.Size()
    ensures StandingSum(s, w, h, h) == w[0]
    decreases h
  {
    if h == 1 {
      assert StandingSum(s, w, 1, 1) == StandingSum(s, w, 0, 1) + Standing(s, w, 0, 1);
      if !s.leaf[0] {
        assert s.BranchesWell(0);
        assert BalancedAt(s, w, 0);
      }
    } else {
      var i := h - 1;
      RootStands(s, w, i);
      VisitTakes(s, w, i, i);
      if !s.leaf[i] {
        assert s.BranchesWell(i);
        assert BalancedAt(s, w, i);
      }
    }
  }

  /** The weight of the leaves among the first k nodes. */
  ghost function LeafSum(s: Shape, w: seq<int>, k: nat): int
    requires |w| == s.Size() && k <= s.Size()
  {
    if k == 0 then 0 else LeafSum(s, w, k - 1) + (if s.leaf[k - 1] then w[k - 1] else 0)
  }

  lemma {:induction false} AllStand(s: Shape, w: seq<int>, k: nat)
    requires s.WellFormed() && |w| == s.Size() && k <= s.Size()
    ensures StandingSum(s, w, k, s.Size()) == LeafSum(s, w, k)
    decreases k
  {
    if k > 0 {
      AllStand(s, w, k - 1);
      if !s.leaf[k - 1] {
        assert s.BranchesWell(k - 1);
      }
    }
  }

  lemma RootWeighsLeaves(s: Shape, w: seq<int>)
    requires WeighedTree(s, w)
    ensures w[0] == LeafSum(s, w, s.Size())
  {
    RootStands(s, w, s.Size());
    AllStand(s, w, s.Size());
  }

  lemma HuffmanHasNoRepeats(order: seq<int>, w: seq<int>, elems: int, symbols: set<int>, f: seq<int>)
    requires Huffman(order, w, elems, symbols, f)
    ensures NoRepeats(order) && Places(order, elems + |symbols|)
    ensures forall v :: v in order <==> v in symbols || elems <= v < elems + |symbols| - 1
  {
    forall i, j | 0 <= i < j < |order|
      ensures order[i] != order[j]
    {
      OnceOnly(symbols, elems, elems + |symbols| - 1, order[i]);
      if order[i] == order[j] {
        TwicePresent(order, i, j);
      }
    }
    forall v
      ensures v in order <==> v in symbols || elems <= v < elems + |symbols| - 1
    {
      OnceOnly(symbols, elems, elems + |symbols| - 1, v);
      assert v in order <==> v in multiset(order);
    }
    forall i | 0 <= i < |order|
      ensures 0 <= order[i] < elems + |symbols|
    {
      assert order[i] in order;
    }
  }

  /** The counts of the symbols, by node; inner nodes count nothing. */
  ghost function CountTable(f: seq<int>, elems: nat, n: nat): (g: seq<int>)
    requires elems <= |f|
    ensures |g| == elems + n && forall v :: 0 <= v < |g| ==> g[v] == if v < elems then f[v] else 0
  {
    seq(elems + n, v requires 0 <= v => if v < elems then f[v] else 0)
  }

  lemma {:induction false} LeafSumAlong(order: seq<int>, w: seq<int>, elems: int, symbols: set<int>, f: seq<int>, k: nat)
    requires 0 <= elems <= |f| && Places(order, elems + |symbols|) && k <= |order| == |w|
    requires forall j :: 0 <= j < |order| && order[j] < elems ==> w[j] == f[order[j]]
    ensures LeafSum(ShapeOf(order, elems), w, k) == SumAlong(CountTable(f, elems, |symbols|), order, k)
    decreases k
  {
    if k > 0 {
      LeafSumAlong(order, w, elems, symbols, f, k - 1);
    }
  }

  lemma {:induction false} TableSum(order: seq<int>, elems: nat, symbols: set<int>, f: seq<int>)
    requires elems <= |f| && NoRepeats(order) && Places(order, elems + |symbols|)
    requires forall v :: 0 <= v < elems && v !in order ==> f[v] == 0
    ensures SumAlong(CountTable(f, elems, |symbols|), order, |order|) == Sum(f, elems)
  {
    hide SumAlong, Sum;
    var g := CountTable(f, elems, |symbols|);
    assert order[..|order|] == order;
    SumInAnyOrder(g, order, |order|);
    SumOfPrefix(g, elems, |g|);
    SumFrame(g, f, elems);
  }

  lemma RootIsLeafSum(order: seq<int>, w: seq<int>, elems: int, symbols: set<int>, f: seq<int>)
    requires Huffman(order, w, elems, symbols, f)
    ensures |order| == |w| > 0 && ShapeOf(order, elems).Size() == |order| && w[0] == LeafSum(ShapeOf(order, elems), w, |order|)
    ensures forall j :: 0 <= j < |order| && order[j] < elems <= |f| ==> 0 <= order[j] && w[j] == f[order[j]]
  {
    hide LeafSum;
    RootWeighsLeaves(ShapeOf(order, elems), w);
  }

  /** The root weighs what all symbols count together. */
  lemma RootCountsAll(order: seq<int>, w: seq<int>, elems: int, symbols: set<int>, f: seq<int>)
    requires Huffman(order, w, elems, symbols, f) && 0 <= elems <= |f| && forall v :: 0 <= v < elems && v !in symbols ==> f[v] == 0
    ensures |w| > 0 && w[0] == Sum(f, elems)
  {
    hide Huffman, WeighedTree, LeafSum, SumAlong, Sum, ParentIndex, KidIndex;
    HuffmanHasNoRepeats(order, w, elems, symbols, f);
    RootIsLeafSum(order, w, elems, symbols, f);
    LeafSumAlong(order, w, elems, symbols, f, |order|);
    TableSum(order, elems, symbols, f);
  }
}
