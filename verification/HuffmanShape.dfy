/**
 The finished tree, read off the back of the heap array: `order` lists its nodes from the
 root on; symbols are numbered below `elems`, inner nodes from `elems` on.
 */
module HuffmanShape {
  import opened HuffmanMerge
  import opened CodeLengths

  /** The array position of entry i of `order`. */
  function Position(order: seq<int>, i: int): int {
    HEAP_SIZE - |order| + i
  }

  ghost predicate LinkedOk(order: seq<int>, elems: int, dl: seq<int>, i: int)
    requires 0 <= i < |order|
  {
    && 0 <= order[i] < |dl| && dl[order[i]] == Father(elems, Position(order, i))
    && (order[i] >= elems ==> Position(order, i) < HEAP_SIZE - 2 - 2 * (order[i] - elems))
  }

  /** `order` is a whole tree over `symbols`, and `dl` gives the father of every node but the root. */
  ghost predicate Tree(order: seq<int>, elems: int, symbols: set<int>, dl: seq<int>) {
    && 3 <= elems && |symbols| >= 2 && |order| == 2 * |symbols| - 1 <= HEAP_SIZE
    && (forall s :: s in symbols ==> 0 <= s < elems)
    && multiset(order) == multiset(symbols) + multiset(Ids(elems, elems + |symbols| - 1))
    && 0 <= order[0] < |dl|
    && forall i :: 1 <= i < |order| ==> LinkedOk(order, elems, dl, i)
  }

  /** Merging down to one waiting node, and putting it in front, leaves a whole tree. */
  lemma MergingEndsInTree(h: seq<int>, top: int, elems: int, node: int, symbols: set<int>, dl: seq<int>)
    requires Merging(h, 1, top, elems, node, symbols, dl) && |symbols| >= 2
    ensures Tree([h[1]] + h[top..], elems, symbols, dl)
  {
    var order := [h[1]] + h[top..];
    assert h[1..2] == [h[1]];
    WaitingRange(h, 1, top, elems, node, symbols, dl, 1);
    forall i | 1 <= i < |order|
      ensures LinkedOk(order, elems, dl, i)
    {
      assert MergedOk(h, elems, dl, top + (i - 1));
    }
  }

  function IndexOf(order: seq<int>, v: int): (i: nat)
    requires v in order
    ensures i < |order| && order[i] == v
  {
    if order[0] == v then 0 else 1 + IndexOf(order[1..], v)
  }

  lemma NodeListed(order: seq<int>, elems: int, symbols: set<int>, dl: seq<int>, v: int)
    requires Tree(order, elems, symbols, dl)
    ensures v in order <==> v in symbols || elems <= v < elems + |symbols| - 1
    ensures multiset(order)[v] <= 1
  {
    OnceOnly(symbols, elems, elems + |symbols| - 1, v);
    assert v in order <==> v in multiset(order);
  }

  lemma TwicePresent(s: seq<int>, i: nat, j: nat)
    requires i < j < |s| && s[i] == s[j]
    ensures multiset(s)[s[i]] >= 2
  {
    assert s == s[..j] + [s[j]] + s[j + 1..];
    assert s[i] == s[..j][i];
    assert s[i] in multiset(s[..j]);
  }

  lemma NodesDistinct(order: seq<int>, elems: int, symbols: set<int>, dl: seq<int>, i: nat, j: nat)
    requires Tree(order, elems, symbols, dl) && i < |order| && j < |order| && order[i] == order[j]
    ensures i == j
  {
    NodeListed(order, elems, symbols, dl, order[i]);
    if i < j {
      TwicePresent(order, i, j);
    } else if j < i {
      TwicePresent(order, j, i);
    }
  }

  /** The index of the father of entry i. */
  ghost function ParentIndex(order: seq<int>, elems: int, i: nat): nat {
    var v := Father(elems, Position(order, i));
    if v in order then IndexOf(order, v) else 0
  }

  /** The index of the first child of entry i. */
  ghost function KidIndex(order: seq<int>, elems: int, i: nat): nat
    requires i < |order|
  {
    var k := HEAP_SIZE - 2 - 2 * (order[i] - elems) - Position(order, 0);
    if k < 0 then 0 else k
  }

  ghost function ShapeOf(order: seq<int>, elems: int): (s: Shape)
    ensures |s.parent| == |s.kid| == |s.leaf| == |order|
    ensures forall i :: 0 <= i < |order| ==> s.parent[i] == ParentIndex(order, elems, i)
    ensures forall i :: 0 <= i < |order| ==> s.kid[i] == KidIndex(order, elems, i)
    ensures forall i :: 0 <= i < |order| ==> s.leaf[i] == (order[i] < elems)
  {
    Shape(seq(|order|, i requires 0 <= i => ParentIndex(order, elems, i)),
          seq(|order|, i requires 0 <= i < |order| => KidIndex(order, elems, i)),
          seq(|order|, i requires 0 <= i < |order| => order[i] < elems))
  }

  lemma FatherIsListed(order: seq<int>, elems: int, symbols: set<int>, dl: seq<int>, i: nat)
    requires Tree(order, elems, symbols, dl) && 1 <= i < |order|
    ensures var v := Father(elems, Position(order, i));
            && v in order && elems <= v && IndexOf(order, v) < i
            && (i == KidIndex(order, elems, IndexOf(order, v)) || i == KidIndex(order, elems, IndexOf(order, v)) + 1)
  {
    var v := Father(elems, Position(order, i));
    NodeListed(order, elems, symbols, dl, v);
    var q := IndexOf(order, v);
    if q > 0 {
      assert LinkedOk(order, elems, dl, q);
    }
  }

  lemma KidsAreListed(order: seq<int>, elems: int, symbols: set<int>, dl: seq<int>, i: nat)
    requires Tree(order, elems, symbols, dl) && i < |order| && order[i] >= elems
    ensures var c := KidIndex(order, elems, i);
            && i < c && c + 1 < |order| && ParentIndex(order, elems, c) == i && ParentIndex(order, elems, c + 1) == i
  {
    assert order[i] in order;
    NodeListed(order, elems, symbols, dl, order[i]);
    if i > 0 {
      assert LinkedOk(order, elems, dl, i);
    }
    var c := KidIndex(order, elems, i);
    assert Father(elems, Position(order, c)) == order[i] && Father(elems, Position(order, c + 1)) == order[i];
    NodesDistinct(order, elems, symbols, dl, i, IndexOf(order, order[i]));
  }

  /** Every finished tree is a full binary tree with each father in front of its sons. */
  lemma TreeIsWellFormed(order: seq<int>, elems: int, symbols: set<int>, dl: seq<int>)
    requires Tree(order, elems, symbols, dl)
    ensures ShapeOf(order, elems).WellFormed()
  {
    var s := ShapeOf(order, elems);
    forall i | 1 <= i < |s.leaf|
      ensures s.HangsWell(i)
    {
      FatherIsListed(order, elems, symbols, dl, i);
    }
    forall i | 0 <= i < |s.leaf| && !s.leaf[i]
      ensures s.BranchesWell(i)
    {
      KidsAreListed(order, elems, symbols, dl, i);
    }
  }
}
