/**
 What building a tree promises: the nodes form an optimal tree over the symbols, sorted by weight, and the
 lengths are the depths in that tree, cut off at the maximum.
 */
module TreeSpec {
  import opened CodeLengths
  import opened LengthLimit
  import opened LengthCounts
  import opened HuffmanMerge
  import opened HuffmanShape
  import opened OptimalCodes
  import opened RenewedLengths
  import opened TreeCost
  import opened ShallowCodes

  /**
   `order` lists the nodes of a tree over `symbols` from the root on, heaviest first, with the weights w: symbols
   weigh their counts f, inner nodes what their sons weigh; no prefix code for the symbols is cheaper, and none as cheap
   is shorter.
   */
  ghost predicate Huffman(order: seq<int>, w: seq<int>, elems: int, symbols: set<int>, f: seq<int>) {
    && |symbols| >= 2 && |order| == |w| == 2 * |symbols| - 1
    && (forall v :: v in symbols ==> 0 <= v < elems && v < |f|)
    && multiset(order) == multiset(symbols) + multiset(Ids(elems, elems + |symbols| - 1))
    && WeighedTree(ShapeOf(order, elems), w) && !ShapeOf(order, elems).leaf[0]
    && (forall j :: 0 <= j < |order| && order[j] < elems ==> order[j] in symbols && w[j] == f[order[j]])
    && (forall i, j :: 0 <= i <= j < |w| ==> w[j] <= w[i])
    && CostsAtLeast(symbols, f, WeightBelowRoot(w, |w|)) && Shallow(ShapeOf(order, elems), symbols, f, WeightBelowRoot(w, |w|))
  }

  /** No node lies deeper than the longest word of any prefix code for the symbols that costs at most c. */
  ghost predicate Shallow(s: Shape, symbols: set<int>, f: seq<int>, c: int)
    requires s.WellFormed()
  {
    forall b :: HasShort(symbols, f, c, b) ==> forall j: nat :: j < s.Size() ==> s.Depth(j) <= b
  }

  /** Every symbol has its depth for a length, cut off at the maximum; `overlong` nodes lie deeper. */
  ghost predicate CutLengths(order: seq<int>, elems: int, max: nat, dl: seq<int>, overlong: int)
    requires ShapeOf(order, elems).WellFormed()
  {
    var s := ShapeOf(order, elems);
    && 0 <= elems <= |dl| && overlong == Deep(s, max, |order|)
    && (forall j :: 0 <= j < |order| && s.leaf[j] ==> 0 <= order[j] && dl[order[j]] == CutDepth(s, max, j))
    && (forall v :: 0 <= v < elems && v !in order ==> dl[v] == 0)
  }

  /** The lengths charged for: those of the symbols, or new ones for the repaired counts if some were cut off. */
  ghost function Charged(order: seq<int>, elems: nat, max: nat, dl: seq<int>, overlong: int): (t: seq<int>)
    requires ShapeOf(order, elems).WellFormed() && 1 <= max < COUNTS && elems <= |dl|
    ensures |t| == elems
  {
    var s := ShapeOf(order, elems);
    if overlong == 0 then dl[..elems] else NewTable(order, s, elems, Repaired(Histogram(s, max, |order|), max, overlong), max)
  }

  lemma HuffmanIsTree(order: seq<int>, w: seq<int>, elems: int, symbols: set<int>, f: seq<int>)
    requires Huffman(order, w, elems, symbols, f)
    ensures ShapeOf(order, elems).WellFormed() && !ShapeOf(order, elems).leaf[0] && |order| == |w| == 2 * |symbols| - 1 >= 3
  {
  }
}
