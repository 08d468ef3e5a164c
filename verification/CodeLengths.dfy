/**
 Full binary trees laid out with every parent before its children, the depths of their
 nodes, and the Kraft sums of their leaves when depths are cut off at a maximum.
 */
module CodeLengths {
  import opened Arithmetic

  /**
   Node 0 is the root. Node i > 0 hangs under `parent[i]`; a node that is not a leaf has its two
   children side by side, at `kid[i]` and `kid[i] + 1`.
   */
  datatype Shape = Shape(parent: seq<nat>, kid: seq<nat>, leaf: seq<bool>) {

    function Size(): nat {
      |leaf|
    }

    ghost predicate HangsWell(i: nat)
      requires |parent| == |kid| == |leaf| && i < |leaf|
    {
      && parent[i] < i && !leaf[parent[i]]
      && (i == kid[parent[i]] || i == kid[parent[i]] + 1)
    }

    ghost predicate BranchesWell(i: nat)
      requires |parent| == |kid| == |leaf| && i < |leaf|
    {
      && i < kid[i] && kid[i] + 1 < |leaf|
      && parent[kid[i]] == i && parent[kid[i] + 1] == i
    }

    ghost predicate WellFormed() {
      && |parent| == |kid| == |leaf| >= 1
      && (forall i :: 1 <= i < |leaf| ==> HangsWell(i))
      && (forall i :: 0 <= i < |leaf| && !leaf[i] ==> BranchesWell(i))
    }

    ghost function Depth(i: nat): nat
      requires WellFormed() && i < Size()
    {
      if i == 0 then 0 else assert HangsWell(i); Depth(parent[i]) + 1
    }
  }

  function Min(a: nat, b: nat): nat {
    if a <= b then a else b
  }

  /** The weight of a code length, counted in codes of length `max`. */
  ghost function Weight(s: Shape, max: nat, i: nat): (w: nat)
    requires s.WellFormed() && i < s.Size()
    ensures w >= 1
  {
    Pow2(max - Min(s.Depth(i), max))
  }

  /** How many of the first k nodes lie deeper than `max`. */
  ghost function Deep(s: Shape, max: nat, k: nat): nat
    requires s.WellFormed() && k <= s.Size()
  {
    if k == 0 then 0 else Deep(s, max, k - 1) + (if s.Depth(k - 1) > max then 1 else 0)
  }

  /** How many of the first k nodes lie exactly at depth `max`. */
  ghost function Level(s: Shape, max: nat, k: nat): nat
    requires s.WellFormed() && k <= s.Size()
  {
    if k == 0 then 0 else Level(s, max, k - 1) + (if s.Depth(k - 1) == max then 1 else 0)
  }

  /** The Kraft sum of the leaves among the first k nodes, their depths cut off at `max`. */
  ghost function LeafWeight(s: Shape, max: nat, k: nat): nat
    requires s.WellFormed() && k <= s.Size()
  {
    if k == 0 then 0 else LeafWeight(s, max, k - 1) + (if s.leaf[k - 1] then Weight(s, max, k - 1) else 0)
  }

  /** How many leaves among the first k nodes lie at depth `max` or deeper. */
  ghost function LowLeaves(s: Shape, max: nat, k: nat): nat
    requires s.WellFormed() && k <= s.Size()
  {
    if k == 0 then 0 else LowLeaves(s, max, k - 1) + (if s.leaf[k - 1] && s.Depth(k - 1) >= max then 1 else 0)
  }

  /** The children of node i that lie at position h or later. */
  ghost function Open(s: Shape, i: nat, h: nat): nat
    requires s.WellFormed() && i < s.Size() && !s.leaf[i]
  {
    (if s.kid[i] >= h then 1 else 0) + (if s.kid[i] + 1 >= h then 1 else 0)
  }

  /** Twice the weight a node still stands for, once the nodes below position h have been expanded. */
  ghost function Share(s: Shape, max: nat, i: nat, h: nat): nat
    requires s.WellFormed() && i < s.Size()
  {
    if s.leaf[i] then 2 * Weight(s, max, i) else Open(s, i, h) * Weight(s, max, i)
  }

  ghost function Shares(s: Shape, max: nat, k: nat, h: nat): nat
    requires s.WellFormed() && k <= s.Size()
  {
    if k == 0 then 0 else Shares(s, max, k - 1, h) + Share(s, max, k - 1, h)
  }

  lemma ShareAfterReach(s: Shape, max: nat, i: nat, h: nat)
    requires s.WellFormed() && 1 <= h < s.Size() && i < h
    ensures Share(s, max, i, h) == Share(s, max, i, h + 1) + (if s.parent[h] == i then Weight(s, max, i) else 0)
  {
    hide Weight;
    assert s.HangsWell(h);
    if !s.leaf[i] {
      assert s.BranchesWell(i);
      assert Open(s, i, h) == Open(s, i, h + 1) + (if s.parent[h] == i then 1 else 0);
    }
  }

  /** Reaching a node takes one share from its parent and from nobody else. */
  lemma {:induction false} ReachTakesOneShare(s: Shape, max: nat, k: nat, h: nat)
    requires s.WellFormed() && 1 <= h < s.Size() && k <= h
    ensures Shares(s, max, k, h) ==
            Shares(s, max, k, h + 1) + (if s.parent[h] < k then Weight(s, max, s.parent[h]) else 0)
    decreases k
  {
    if k > 0 {
      ReachTakesOneShare(s, max, k - 1, h);
      ShareAfterReach(s, max, k - 1, h);
    }
  }

  /** Expanding the tree node by node adds half a unit for every node that is cut off. */
  lemma {:induction false} SharesAreKept(s: Shape, max: nat, h: nat)
    requires s.WellFormed() && 1 <= h <= s.Size()
    ensures Shares(s, max, h, h) == 2 * Pow2(max) + Deep(s, max, h)
    decreases h
  {
    if h == 1 {
      assert Shares(s, max, 1, 1) == Shares(s, max, 0, 1) + Share(s, max, 0, 1);
      if !s.leaf[0] {
        assert s.BranchesWell(0);
      }
    } else {
      var i := h - 1;
      SharesAreKept(s, max, i);
      ReachTakesOneShare(s, max, i, i);
      assert s.HangsWell(i);
      if !s.leaf[i] {
        assert s.BranchesWell(i);
      }
      assert Share(s, max, i, h) == 2 * Weight(s, max, i);
    }
  }

  lemma {:induction false} AllReached(s: Shape, max: nat, k: nat)
    requires s.WellFormed() && k <= s.Size()
    ensures Shares(s, max, k, s.Size()) == 2 * LeafWeight(s, max, k)
    decreases k
  {
    if k > 0 {
      AllReached(s, max, k - 1);
      if !s.leaf[k - 1] {
        assert s.BranchesWell(k - 1);
      }
    }
  }

  /** The Kraft sum exceeds 1 by half a unit for every node below the maximal depth. */
  lemma KraftOfCutTree(s: Shape, max: nat)
    requires s.WellFormed()
    ensures 2 * LeafWeight(s, max, s.Size()) == 2 * Pow2(max) + Deep(s, max, s.Size())
  {
    SharesAreKept(s, max, s.Size());
    AllReached(s, max, s.Size());
  }

  /** The share of a node when everything below depth `max` counts as one piece with its ancestor there. */
  ghost function TopShare(s: Shape, max: nat, i: nat, h: nat): nat
    requires s.WellFormed() && i < s.Size()
  {
    if s.Depth(i) < max then Share(s, max, i, h) else if s.Depth(i) == max then 2 else 0
  }

  ghost function TopShares(s: Shape, max: nat, k: nat, h: nat): nat
    requires s.WellFormed() && k <= s.Size()
  {
    if k == 0 then 0 else TopShares(s, max, k - 1, h) + TopShare(s, max, k - 1, h)
  }

  lemma {:induction false} ReachTakesOneTopShare(s: Shape, max: nat, k: nat, h: nat)
    requires s.WellFormed() && 1 <= h < s.Size() && k <= h
    ensures TopShares(s, max, k, h) ==
            TopShares(s, max, k, h + 1)
            + (if s.parent[h] < k && s.Depth(s.parent[h]) < max then Weight(s, max, s.parent[h]) else 0)
    decreases k
  {
    if k > 0 {
      ReachTakesOneTopShare(s, max, k - 1, h);
      var i := k - 1;
      assert s.HangsWell(h);
      if !s.leaf[i] {
        assert s.BranchesWell(i);
      }
    }
  }

  lemma {:induction false} TopSharesAreKept(s: Shape, max: nat, h: nat)
    requires s.WellFormed() && 1 <= h <= s.Size()
    ensures TopShares(s, max, h, h) == 2 * Pow2(max)
    decreases h
  {
    if h == 1 {
      assert TopShares(s, max, 1, 1) == TopShares(s, max, 0, 1) + TopShare(s, max, 0, 1);
      if !s.leaf[0] {
        assert s.BranchesWell(0);
      }
    } else {
      var i := h - 1;
      TopSharesAreKept(s, max, i);
      ReachTakesOneTopShare(s, max, i, i);
      assert s.HangsWell(i);
      if !s.leaf[i] {
        assert s.BranchesWell(i);
      }
      assert Share(s, max, i, h) == 2 * Weight(s, max, i);
      assert s.Depth(s.parent[i]) < max ==> Weight(s, max, s.parent[i]) == 2 * Weight(s, max, i);
      assert s.Depth(i) == max ==> Weight(s, max, i) == 1;
    }
  }

  lemma {:induction false} TopAllReached(s: Shape, max: nat, k: nat)
    requires s.WellFormed() && k <= s.Size()
    ensures TopShares(s, max, k, s.Size()) ==
            2 * LeafWeight(s, max, k) - 2 * LowLeaves(s, max, k) + 2 * Level(s, max, k)
    decreases k
  {
    if k > 0 {
      TopAllReached(s, max, k - 1);
      if !s.leaf[k - 1] {
        assert s.BranchesWell(k - 1);
      }
    }
  }

  lemma {:induction false} LevelCounts(s: Shape, max: nat, i: nat, k: nat)
    requires s.WellFormed() && i < k <= s.Size() && s.Depth(i) == max
    ensures Level(s, max, k) >= 1
    decreases k
  {
    if i < k - 1 {
      LevelCounts(s, max, i, k - 1);
    }
  }

  /** Below every depth a deeper node leaves an ancestor behind. */
  lemma {:induction false} DeepNodeHasAncestor(s: Shape, max: nat, i: nat)
    requires s.WellFormed() && i < s.Size() && s.Depth(i) >= max
    ensures Level(s, max, s.Size()) >= 1
    decreases i
  {
    if s.Depth(i) == max {
      LevelCounts(s, max, i, s.Size());
    } else {
      assert s.HangsWell(i);
      DeepNodeHasAncestor(s, max, s.parent[i]);
    }
  }

  lemma {:induction false} DeepMeansLevel(s: Shape, max: nat, k: nat)
    requires s.WellFormed() && k <= s.Size() && Deep(s, max, k) > 0
    ensures Level(s, max, s.Size()) >= 1
    decreases k
  {
    if s.Depth(k - 1) > max {
      DeepNodeHasAncestor(s, max, k - 1);
    } else {
      DeepMeansLevel(s, max, k - 1);
    }
  }

  /** Of the leaves cut off at the maximum there is always one more than repairs will need. */
  lemma EnoughLowLeaves(s: Shape, max: nat)
    requires s.WellFormed() && Deep(s, max, s.Size()) > 0
    ensures 2 * LowLeaves(s, max, s.Size()) >= Deep(s, max, s.Size()) + 2
  {
    KraftOfCutTree(s, max);
    TopSharesAreKept(s, max, s.Size());
    TopAllReached(s, max, s.Size());
    DeepMeansLevel(s, max, s.Size());
  }
}
