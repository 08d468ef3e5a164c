/**
 The pass over a finished tree that gives every node its length: what it has done after k
 nodes, and how one more node changes that.
 */
module LengthPass {
  import opened HuffmanShape
  import opened CodeLengths
  import opened LengthCounts

  /** The first k nodes of the tree have been given their lengths; the others still name their fathers. */
  ghost predicate Assigned(order: seq<int>, s: Shape, max: nat, dl0: seq<int>, dl: seq<int>, k: int)
    requires s.WellFormed() && s.Size() == |order|
  {
    && |dl| == |dl0| && 0 <= k <= |order|
    && (forall j :: 0 <= j < |order| ==> 0 <= order[j] < |dl|)
    && (forall j :: 0 <= j < k ==> Done(order, s, max, dl, j))
    && (forall j :: k <= j < |order| ==> Kept(dl0, dl, order[j]))
    && (forall v :: 0 <= v < |dl| && v !in order ==> Kept(dl0, dl, v))
  }

  ghost predicate Done(order: seq<int>, s: Shape, max: nat, dl: seq<int>, j: int)
    requires s.WellFormed() && s.Size() == |order| && 0 <= j < |order| && 0 <= order[j] < |dl|
  {
    dl[order[j]] == CutDepth(s, max, j)
  }

  ghost predicate Kept(dl0: seq<int>, dl: seq<int>, v: int)
    requires |dl| == |dl0| && 0 <= v < |dl|
  {
    dl[v] == dl0[v]
  }

  /** The sum of `count * (length + extra)` over the leaves among the first k nodes. */
  ghost function BitCost(order: seq<int>, s: Shape, max: nat, fc: seq<int>, extra: seq<int>, k: nat): int
    requires s.WellFormed() && s.Size() == |order| && k <= |order|
    requires forall j :: 0 <= j < |order| ==> 0 <= order[j] < |fc|
    requires forall j :: 0 <= j < |order| && s.leaf[j] ==> order[j] < |extra|
  {
    if k == 0 then 0
    else
      BitCost(order, s, max, fc, extra, k - 1)
      + (if s.leaf[k - 1] then fc[order[k - 1]] * (CutDepth(s, max, k - 1) + extra[order[k - 1]]) else 0)
  }

  /** The sum of `count * length` over the leaves among the first k nodes, for given lengths. */
  ghost function FlatCost(order: seq<int>, s: Shape, fc: seq<int>, length: seq<int>, k: nat): int
    requires s.Size() == |order| && k <= |order|
    requires forall j :: 0 <= j < |order| ==> 0 <= order[j] < |fc|
    requires forall j :: 0 <= j < |order| && s.leaf[j] ==> order[j] < |length|
  {
    if k == 0 then 0
    else
      FlatCost(order, s, fc, length, k - 1)
      + (if s.leaf[k - 1] then fc[order[k - 1]] * length[order[k - 1]] else 0)
  }

  /** The quantities the first pass over the tree keeps up to date. */
  datatype Pass = Pass(dl: seq<int>, count: seq<int>, overflow: int, optLen: int, staticLen: int)

  /** The shape, the frequencies and the tables fit the list of nodes. */
  ghost predicate Fits(order: seq<int>, s: Shape, fc: seq<int>, extra: seq<int>, fixed: seq<int>) {
    && s.WellFormed() && s.Size() == |order|
    && (forall j :: 0 <= j < |order| ==> 0 <= order[j] < |fc|)
    && (forall j :: 0 <= j < |order| && s.leaf[j] ==> order[j] < |extra| && order[j] < |fixed|)
  }

  /** What the first pass has done after k nodes of the tree. */
  ghost predicate Passed(order: seq<int>, s: Shape, max: nat, fc: seq<int>, extra: seq<int>, fixed: seq<int>,
                         from: Pass, to: Pass, k: int)
    requires Fits(order, s, fc, extra, fixed) && max < COUNTS
  {
    && Assigned(order, s, max, from.dl, to.dl, k)
    && to.count == Histogram(s, max, k)
    && to.overflow == Deep(s, max, k)
    && to.optLen == from.optLen + BitCost(order, s, max, fc, extra, k)
    && to.staticLen == from.staticLen + FlatCost(order, s, fc, fixed, k)
  }

  /** One node: an inner node only gets its length, a leaf is counted and charged for as well. */
  ghost predicate PassStep(n: int, leaf: bool, max: nat, fc: seq<int>, extra: seq<int>, fixed: seq<int>, from: Pass, to: Pass)
    requires 0 <= n < |fc| && 0 <= n < |from.dl| && (leaf ==> n < |extra| && n < |fixed|)
    requires 0 <= from.dl[n] < |from.dl|
  {
    var deeper := from.dl[from.dl[n]] + 1;
    var bits := if deeper > max then max else deeper;
    && to.dl == from.dl[n := bits]
    && to.overflow == from.overflow + (if deeper > max then 1 else 0)
    && (!leaf ==> to.count == from.count && to.optLen == from.optLen && to.staticLen == from.staticLen)
    && (leaf ==>
          && 0 <= bits < |from.count|
          && to.count == from.count[bits := from.count[bits] + 1]
          && to.optLen == from.optLen + fc[n] * (bits + extra[n])
          && to.staticLen == from.staticLen + fc[n] * fixed[n])
  }

  lemma CutDepthStep(s: Shape, max: nat, k: nat)
    requires s.WellFormed() && 1 <= k < s.Size()
    ensures s.parent[k] < k
    ensures CutDepth(s, max, k) == Min(CutDepth(s, max, s.parent[k]) + 1, max)
    ensures s.Depth(k) > max <==> CutDepth(s, max, s.parent[k]) + 1 > max
  {
    assert s.HangsWell(k);
  }

  lemma TreeInRange(order: seq<int>, elems: int, symbols: set<int>, dl: seq<int>)
    requires Tree(order, elems, symbols, dl)
    ensures forall j :: 0 <= j < |order| ==> 0 <= order[j] < |dl|
    ensures forall j :: 0 <= j < |order| && order[j] < elems ==> order[j] in symbols
    ensures order[0] >= elems
  {
    forall j | 0 <= j < |order|
      ensures 0 <= order[j] < |dl| && (order[j] < elems ==> order[j] in symbols)
    {
      assert order[j] in order;
      NodeListed(order, elems, symbols, dl, order[j]);
      if j > 0 {
        assert LinkedOk(order, elems, dl, j);
      }
    }
    FatherIsListed(order, elems, symbols, dl, 1);
  }

  /** The father a node names is the node its shape hangs it under. */
  lemma FatherIsParent(order: seq<int>, elems: int, symbols: set<int>, dl: seq<int>, k: nat)
    requires Tree(order, elems, symbols, dl) && 1 <= k < |order|
    ensures ShapeOf(order, elems).parent[k] < k
    ensures 0 <= order[k] < |dl| && dl[order[k]] == order[ShapeOf(order, elems).parent[k]]
  {
    assert LinkedOk(order, elems, dl, k);
    FatherIsListed(order, elems, symbols, dl, k);
  }

  /** The length given to node k is its depth, cut off at the maximum. */
  lemma NextBits(order: seq<int>, s: Shape, max: nat, dl0: seq<int>, dl: seq<int>, k: int)
    requires s.WellFormed() && s.Size() == |order| && 1 <= k < |order| && Assigned(order, s, max, dl0, dl, k)
    requires s.parent[k] < k && dl0[order[k]] == order[s.parent[k]]
    ensures 0 <= dl[order[k]] < |dl| && 0 <= dl[dl[order[k]]]
    ensures var deeper := dl[dl[order[k]]] + 1;
            && CutDepth(s, max, k) == (if deeper > max then max else deeper)
            && (s.Depth(k) > max <==> deeper > max)
  {
    assert Kept(dl0, dl, order[k]);
    assert Done(order, s, max, dl, s.parent[k]);
    CutDepthStep(s, max, k);
  }

  lemma AssignNext(order: seq<int>, s: Shape, max: nat, dl0: seq<int>, dl: seq<int>, k: int, dl': seq<int>, k': int)
    requires s.WellFormed() && s.Size() == |order|
    requires 0 <= k < |order| && k' == k + 1 && Assigned(order, s, max, dl0, dl, k)
    requires Alone(order, k)
    requires dl' == dl[order[k] := CutDepth(s, max, k)]
    ensures Assigned(order, s, max, dl0, dl', k')
  {
    forall j | 0 <= j < k'
      ensures Done(order, s, max, dl', j)
    {
      assert j < k ==> Done(order, s, max, dl, j);
    }
    forall j | k' <= j < |order|
      ensures Kept(dl0, dl', order[j])
    {
      assert Kept(dl0, dl, order[j]);
    }
    forall v | 0 <= v < |dl'| && v !in order
      ensures Kept(dl0, dl', v)
    {
      assert Kept(dl0, dl, v);
    }
  }

  /** Node k names the node its shape hangs it under. */
  ghost predicate Hung(order: seq<int>, s: Shape, dl: seq<int>, k: nat)
    requires s.WellFormed() && s.Size() == |order| && k < |order|
  {
    && s.parent[k] < k && 0 <= order[k] < |dl| && dl[order[k]] == order[s.parent[k]]
    && Alone(order, k)
  }

  ghost predicate Alone(order: seq<int>, k: nat)
    requires k < |order|
  {
    forall j :: 0 <= j < |order| && j != k ==> order[j] != order[k]
  }

  /** `order` and `dl` hold a tree of shape s: leaves are symbols, and every node names its father. */
  ghost predicate Grown(order: seq<int>, s: Shape, elems: int, dl: seq<int>) {
    && s.WellFormed() && s.Size() == |order| && !s.leaf[0]
    && Alone(order, 0)
    && (forall j :: 0 <= j < |order| ==> 0 <= order[j] < |dl| && (s.leaf[j] <==> order[j] < elems))
    && (forall k :: 1 <= k < |order| ==> Hung(order, s, dl, k))
  }

  lemma TreeIsGrown(order: seq<int>, elems: int, symbols: set<int>, dl: seq<int>)
    requires Tree(order, elems, symbols, dl)
    ensures Grown(order, ShapeOf(order, elems), elems, dl)
  {
    TreeIsWellFormed(order, elems, symbols, dl);
    TreeInRange(order, elems, symbols, dl);
    NodeIsAlone(order, elems, symbols, dl, 0);
    forall k | 1 <= k < |order|
      ensures Hung(order, ShapeOf(order, elems), dl, k)
    {
      FatherIsParent(order, elems, symbols, dl, k);
      NodeIsAlone(order, elems, symbols, dl, k);
    }
  }

  lemma NodeIsAlone(order: seq<int>, elems: int, symbols: set<int>, dl: seq<int>, k: nat)
    requires Tree(order, elems, symbols, dl) && k < |order|
    ensures Alone(order, k)
  {
    forall j | 0 <= j < |order| && j != k
      ensures order[j] != order[k]
    {
      if order[j] == order[k] {
        NodesDistinct(order, elems, symbols, dl, j, k);
      }
    }
  }

  lemma PassBegins(order: seq<int>, s: Shape, elems: int, max: nat, fc: seq<int>, extra: seq<int>, fixed: seq<int>,
                   start: Pass, to: Pass)
    requires Fits(order, s, fc, extra, fixed) && max < COUNTS && Grown(order, s, elems, start.dl)
    requires start.overflow == 0 && start.count == seq(COUNTS, _ => 0)
    requires to == start.(dl := start.dl[order[0] := 0])
    ensures Passed(order, s, max, fc, extra, fixed, start, to, 1)
  {
    AssignNext(order, s, max, start.dl, start.dl, 0, to.dl, 1);
    assert Histogram(s, max, 1) == Histogram(s, max, 0);
    assert Deep(s, max, 1) == Deep(s, max, 0);
    assert BitCost(order, s, max, fc, extra, 1) == BitCost(order, s, max, fc, extra, 0);
    assert FlatCost(order, s, fc, fixed, 1) == FlatCost(order, s, fc, fixed, 0);
  }

  lemma {:induction false} PassGoesOn(order: seq<int>, s: Shape, max: nat, fc: seq<int>, extra: seq<int>, fixed: seq<int>,
                   start: Pass, from: Pass, to: Pass, k: int, n: int, leaf: bool, k': int)
    requires Fits(order, s, fc, extra, fixed) && max < COUNTS && 1 <= k < |order| && k' == k + 1
    requires Passed(order, s, max, fc, extra, fixed, start, from, k)
    requires Hung(order, s, start.dl, k)
    requires n == order[k] && leaf == s.leaf[k]
    requires 0 <= from.dl[n] < |from.dl|
    requires PassStep(n, leaf, max, fc, extra, fixed, from, to)
    ensures Passed(order, s, max, fc, extra, fixed, start, to, k')
  {
    NextBits(order, s, max, start.dl, from.dl, k);
    AssignNext(order, s, max, start.dl, from.dl, k, to.dl, k');
  }
}
