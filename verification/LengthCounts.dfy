/** How many leaves of a tree get each code length, and what that histogram adds up to. */
module LengthCounts {
  import opened Arithmetic
  import opened CodeLengths
  import opened LengthLimit

  const COUNTS := 16

  /** The code length of node i: its depth, cut off at the maximum. */
  ghost function CutDepth(s: Shape, max: nat, i: nat): nat
    requires s.WellFormed() && i < s.Size()
  {
    Min(s.Depth(i), max)
  }

  /** The histogram of the code lengths of the leaves among the first k nodes. */
  ghost function Histogram(s: Shape, max: nat, k: nat): (c: seq<int>)
    requires s.WellFormed() && k <= s.Size() && max < COUNTS
    ensures |c| == COUNTS
    ensures forall b :: 0 <= b < COUNTS ==> c[b] >= 0
    ensures forall b :: max < b < COUNTS ==> c[b] == 0
  {
    if k == 0 then seq(COUNTS, _ => 0)
    else
      var c := Histogram(s, max, k - 1);
      if s.leaf[k - 1] then var b := CutDepth(s, max, k - 1); c[b := c[b] + 1] else c
  }

  ghost function Leaves(s: Shape, k: nat): nat
    requires k <= s.Size()
  {
    if k == 0 then 0 else Leaves(s, k - 1) + (if s.leaf[k - 1] then 1 else 0)
  }

  lemma {:induction false} NoCountsNoWeight(max: nat, k: nat, c: seq<int>)
    requires k <= |c| && k <= max + 1 && forall b :: 0 <= b < |c| ==> c[b] == 0
    ensures Kraft(c, max, k) == 0 && Total(c, k) == 0
    decreases k
  {
    if k > 0 {
      NoCountsNoWeight(max, k - 1, c);
    }
  }

  /** The histogram weighs what the leaves weigh. */
  lemma {:induction false} HistogramWeighsLeaves(s: Shape, max: nat, k: nat)
    requires s.WellFormed() && k <= s.Size() && max < COUNTS
    ensures Kraft(Histogram(s, max, k), max, max + 1) == LeafWeight(s, max, k)
    ensures Total(Histogram(s, max, k), max + 1) == Leaves(s, k)
    ensures Histogram(s, max, k)[max] == LowLeaves(s, max, k)
    decreases k
  {
    if k == 0 {
      NoCountsNoWeight(max, max + 1, Histogram(s, max, 0));
    } else {
      HistogramWeighsLeaves(s, max, k - 1);
      if s.leaf[k - 1] {
        var c, b := Histogram(s, max, k - 1), CutDepth(s, max, k - 1);
        KraftUpdate(c, max, max + 1, b, c[b] + 1);
        TotalUpdate(c, max + 1, b, c[b] + 1);
        assert (c[b] + 1 - c[b]) * Pow2(max - b) == Pow2(max - b);
      }
    }
  }

  lemma {:induction false} LeavesWeighOne(s: Shape, k: nat)
    requires s.WellFormed() && k <= s.Size()
    ensures LeafWeight(s, 0, k) == Leaves(s, k)
    ensures k > 0 ==> Deep(s, 0, k) == k - 1
    decreases k
  {
    if k > 0 {
      LeavesWeighOne(s, k - 1);
    }
  }

  /** A full binary tree has one more leaf than inner nodes. */
  lemma OneMoreLeaf(s: Shape)
    requires s.WellFormed()
    ensures 2 * Leaves(s, s.Size()) == s.Size() + 1
  {
    KraftOfCutTree(s, 0);
    LeavesWeighOne(s, s.Size());
  }

  /** No leaf is counted at length 0 unless the tree is a single leaf. */
  lemma {:induction false} NoEmptyCodes(s: Shape, max: nat, k: nat)
    requires s.WellFormed() && k <= s.Size() && 1 <= max < COUNTS && !s.leaf[0]
    ensures Histogram(s, max, k)[0] == 0
    decreases k
  {
    if k > 0 {
      NoEmptyCodes(s, max, k - 1);
    }
  }

  /** What the histogram of a tree says before it is repaired. */
  lemma CountsOfTree(s: Shape, max: nat)
    requires s.WellFormed() && 1 <= max < COUNTS && !s.leaf[0]
    ensures var c, deep := Histogram(s, max, s.Size()), Deep(s, max, s.Size());
            && c[0] == 0
            && 2 * Kraft(c, max, max + 1) == 2 * Pow2(max) + deep
            && 2 * Total(c, max + 1) == s.Size() + 1
            && (deep > 0 ==> 2 * c[max] >= deep + 2)
  {
    HistogramWeighsLeaves(s, max, s.Size());
    KraftOfCutTree(s, max);
    OneMoreLeaf(s);
    NoEmptyCodes(s, max, s.Size());
    if Deep(s, max, s.Size()) > 0 {
      EnoughLowLeaves(s, max);
    }
  }
}
