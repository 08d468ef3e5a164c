/** The leaves of a weighed tree, weighted by their depth, cost what all nodes below the root weigh. */
module TreeCost {
  import opened CodeLengths

  /** Every inner node weighs what its two children weigh. */
  ghost predicate WeighedTree(s: Shape, w: seq<int>) {
    && s.WellFormed() && |w| == s.Size()
    && forall i :: 0 <= i < s.Size() && !s.leaf[i] ==> BalancedAt(s, w, i)
  }

  ghost predicate BalancedAt(s: Shape, w: seq<int>, i: nat)
    requires s.WellFormed() && |w| == s.Size() && i < s.Size() && !s.leaf[i]
  {
    assert s.BranchesWell(i);
    w[i] == w[s.kid[i]] + w[s.kid[i] + 1]
  }

  /** The sum of weight times depth over the leaves among the first k nodes. */
  ghost function DepthCost(s: Shape, w: seq<int>, k: nat): int
    requires s.WellFormed() && |w| == s.Size() && k <= s.Size()
  {
    if k == 0 then 0 else DepthCost(s, w, k - 1) + (if s.leaf[k - 1] then w[k - 1] * s.Depth(k - 1) else 0)
  }

  /** The weight of the first h nodes, without the root. */
  ghost function WeightBelowRoot(w: seq<int>, h: nat): int
    requires h <= |w|
  {
    if h <= 1 then 0 else WeightBelowRoot(w, h - 1) + w[h - 1]
  }

  /** What node i still stands for when the nodes below position h have been visited. */
  ghost function Standing(s: Shape, w: seq<int>, i: nat, h: nat): int
    requires s.WellFormed() && |w| == s.Size() && i < s.Size()
  {
    if s.leaf[i] then w[i]
    else
      assert s.BranchesWell(i);
      (if s.kid[i] >= h then w[s.kid[i]] else 0) + (if s.kid[i] + 1 >= h then w[s.kid[i] + 1] else 0)
  }

  ghost function Frontier(s: Shape, w: seq<int>, k: nat, h: nat): int
    requires s.WellFormed() && |w| == s.Size() && k <= s.Size()
  {
    if k == 0 then 0 else Frontier(s, w, k - 1, h) + s.Depth(k - 1) * Standing(s, w, k - 1, h)
  }

  lemma Difference(d: int, a: int, b: int)
    ensures d * (a + b) == d * a + d * b
  {
  }

  /** Visiting a node takes its weight from its parent and from nobody else. */
  lemma StandingStep(s: Shape, w: seq<int>, i: nat, h: nat)
    requires s.WellFormed() && |w| == s.Size() && i < h && 1 <= h < s.Size()
    ensures Standing(s, w, i, h) == Standing(s, w, i, h + 1) + (if s.parent[h] == i then w[h] else 0)
  {
    assert s.HangsWell(h);
    if !s.leaf[i] {
      assert s.BranchesWell(i);
    }
  }

  lemma {:induction false} VisitMovesWeight(s: Shape, w: seq<int>, k: nat, h: nat)
    requires s.WellFormed() && |w| == s.Size() && 1 <= h < s.Size() && k <= h
    ensures s.parent[h] < h
    ensures Frontier(s, w, k, h) ==
            Frontier(s, w, k, h + 1) + (if s.parent[h] < k then s.Depth(s.parent[h]) * w[h] else 0)
    decreases k
  {
    assert s.HangsWell(h);
    if k > 0 {
      VisitMovesWeight(s, w, k - 1, h);
      StandingStep(s, w, k - 1, h);
      Difference(s.Depth(k - 1), Standing(s, w, k - 1, h + 1), w[h]);
    }
  }

  lemma {:induction false} FrontierCost(s: Shape, w: seq<int>, h: nat)
    requires WeighedTree(s, w) && 1 <= h <= s.Size()
    ensures Frontier(s, w, h, h) == WeightBelowRoot(w, h)
    decreases h
  {
    if h == 1 {
      assert Frontier(s, w, 1, 1) == Frontier(s, w, 0, 1) + s.Depth(0) * Standing(s, w, 0, 1);
    } else {
      var i := h - 1;
      FrontierCost(s, w, i);
      VisitMovesWeight(s, w, i, i);
      NewNodeStands(s, w, i);
      Difference(w[i], s.Depth(s.parent[i]), 1);
    }
  }

  lemma NewNodeStands(s: Shape, w: seq<int>, i: nat)
    requires WeighedTree(s, w) && 1 <= i < s.Size()
    ensures s.parent[i] < i
    ensures s.Depth(i) * Standing(s, w, i, i + 1) == w[i] * (s.Depth(s.parent[i]) + 1)
  {
    assert s.HangsWell(i);
    if !s.leaf[i] {
      assert s.BranchesWell(i);
      assert BalancedAt(s, w, i);
    }
    assert Standing(s, w, i, i + 1) == w[i];
  }

  lemma {:induction false} AllVisited(s: Shape, w: seq<int>, k: nat)
    requires s.WellFormed() && |w| == s.Size() && k <= s.Size()
    ensures Frontier(s, w, k, s.Size()) == DepthCost(s, w, k)
    decreases k
  {
    if k > 0 {
      AllVisited(s, w, k - 1);
      if !s.leaf[k - 1] {
        assert s.BranchesWell(k - 1);
        assert Standing(s, w, k - 1, s.Size()) == 0;
      }
    }
  }

  /** The cost of a weighed tree. */
  lemma CostOfTree(s: Shape, w: seq<int>)
    requires WeighedTree(s, w)
    ensures DepthCost(s, w, s.Size()) == WeightBelowRoot(w, s.Size())
  {
    FrontierCost(s, w, s.Size());
    AllVisited(s, w, s.Size());
  }
}
