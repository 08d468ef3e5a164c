/** Counts that are Fibonacci numbers: every tree built from them is a chain, the deepest there is for its weight. */
module FibonacciCounts {
  import opened CodeLengths
  import opened CountedSymbols
  import opened HuffmanShape
  import opened TreeCost
  import opened TreeSpec
  import opened DeepTrees
  import opened Sums

  /** A tree over symbols that count 1, 1, 2, 3, 5 and so on. */
  ghost predicate FibTree(order: seq<int>, w: seq<int>, elems: int, names: seq<int>, f: seq<int>) {
    && Huffman(order, w, elems, SetOf(names), f) && Distinct(names) && |names| >= 2
    && (forall i :: 0 <= i < |names| ==> 0 <= names[i] < elems && names[i] < |f| && f[names[i]] == Fib(i + 1))
  }

  /** The node v is one of the j-th pair from the back of the list. */
  ghost predicate InPair(order: seq<int>, v: int, j: nat) {
    v in order && (IndexOf(order, v) == |order| - 2 - 2 * j || IndexOf(order, v) == |order| - 1 - 2 * j)
  }

  /** The node that the chain has reached before pair j. */
  function Reached(elems: int, names: seq<int>, j: nat): int
    requires |names| > 0
  {
    if j == 0 then names[0] else elems + j - 1
  }

  /** Pair j joins the next symbol to the chain. */
  ghost predicate ChainPair(order: seq<int>, elems: int, names: seq<int>, j: nat)
    requires j + 1 < |names|
  {
    InPair(order, names[j + 1], j) && InPair(order, Reached(elems, names, j), j)
  }

  lemma AtPlace(order: seq<int>, p: nat)
    requires NoRepeats(order) && p < |order|
    ensures order[p] in order && IndexOf(order, order[p]) == p
  {
  }

  /** What a tree over Fibonacci counts lists. */
  lemma Listed(order: seq<int>, w: seq<int>, elems: int, names: seq<int>, f: seq<int>)
    requires FibTree(order, w, elems, names, f)
    ensures |order| == 2 * |names| - 1 && NoRepeats(order) && |SetOf(names)| == |names|
    ensures forall v :: v in order <==> v in names || elems <= v < elems + |names| - 1
  {
    DistinctToSet(names);
    HuffmanHasNoRepeats(order, w, elems, SetOf(names), f);
  }

  /** A symbol weighs its count. */
  lemma SymbolWeighs(order: seq<int>, w: seq<int>, elems: int, names: seq<int>, f: seq<int>, i: nat)
    requires FibTree(order, w, elems, names, f) && i < |names|
    ensures names[i] in order && w[IndexOf(order, names[i])] == Fib(i + 1)
  {
    Listed(order, w, elems, names, f);
    assert names[i] in names;
    assert order[IndexOf(order, names[i])] < elems;
  }

  /** The inner node numbered j comes before pair j, and weighs what that pair weighs. */
  ghost predicate FatherOfPair(order: seq<int>, w: seq<int>, elems: int, j: nat)
    requires |w| == |order|
  {
    var v := elems + j;
    && v in order && 2 * j + 2 < |order| && IndexOf(order, v) < |order| - 2 - 2 * j
    && w[IndexOf(order, v)] == w[|order| - 2 - 2 * j] + w[|order| - 1 - 2 * j]
  }

  lemma SonsOf(s: Shape, w: seq<int>, p: nat)
    requires WeighedTree(s, w) && p < s.Size() && !s.leaf[p]
    ensures p < s.kid[p] && s.kid[p] + 1 < s.Size() && w[p] == w[s.kid[p]] + w[s.kid[p] + 1]
    ensures s.parent[s.kid[p]] == s.parent[s.kid[p] + 1] == p
  {
    assert s.BranchesWell(p) && BalancedAt(s, w, p);
  }

  lemma {:induction false} NodeIsFather(order: seq<int>, w: seq<int>, elems: int, s: Shape, j: nat)
    requires s == ShapeOf(order, elems) && WeighedTree(s, w) && elems + j in order
    ensures |w| == |order| && FatherOfPair(order, w, elems, j)
    ensures s.parent[|order| - 2 - 2 * j] == s.parent[|order| - 1 - 2 * j] == IndexOf(order, elems + j)
  {
    hide WeighedTree, Shape.WellFormed, ParentIndex, IndexOf;
    var p := IndexOf(order, elems + j);
    WeighedIsTree(s, w);
    SonsOf(s, w, p);
    assert s.kid[p] == KidIndex(order, elems, p);
  }

  lemma WeighedIsTree(s: Shape, w: seq<int>)
    requires WeighedTree(s, w)
    ensures s.WellFormed() && |w| == s.Size()
  {
  }

  /** The list, as far as weights and places are concerned. */
  ghost predicate Layout(order: seq<int>, w: seq<int>, elems: int, names: seq<int>) {
    && |names| >= 2 && |order| == |w| == 2 * |names| - 1 && NoRepeats(order) && Distinct(names)
    && (forall v :: v in order <==> v in names || elems <= v < elems + |names| - 1)
    && (forall i :: 0 <= i < |names| ==> names[i] < elems && names[i] in order && w[IndexOf(order, names[i])] == Fib(i + 1))
    && (forall j: nat :: j + 1 < |names| ==> FatherOfPair(order, w, elems, j))
    && (forall i, j :: 0 <= i <= j < |w| ==> w[j] <= w[i])
  }

  lemma {:induction false} LaidOut(order: seq<int>, w: seq<int>, elems: int, names: seq<int>, f: seq<int>)
    requires FibTree(order, w, elems, names, f)
    ensures Layout(order, w, elems, names)
  {
    Listed(order, w, elems, names, f);
    forall i | 0 <= i < |names|
      ensures names[i] in order && w[IndexOf(order, names[i])] == Fib(i + 1)
    {
      SymbolWeighs(order, w, elems, names, f, i);
    }
    forall j: nat | j + 1 < |names|
      ensures FatherOfPair(order, w, elems, j)
    {
      NodeIsFather(order, w, elems, ShapeOf(order, elems), j);
    }
  }

  lemma PairWeighs(order: seq<int>, w: seq<int>, a: int, b: int, j: nat)
    requires |w| == |order| && InPair(order, a, j) && InPair(order, b, j) && a != b && 2 * j + 2 <= |order|
    ensures w[|order| - 2 - 2 * j] + w[|order| - 1 - 2 * j] == w[IndexOf(order, a)] + w[IndexOf(order, b)]
  {
    assert order[IndexOf(order, a)] != order[IndexOf(order, b)];
  }

  /** The chain up to pair j weighs one less than the next Fibonacci number but one. */
  lemma {:induction false} ChainWeighs(order: seq<int>, w: seq<int>, elems: int, names: seq<int>, j: nat)
    requires Layout(order, w, elems, names) && 1 <= j < |names|
    requires forall i: nat :: i < j ==> ChainPair(order, elems, names, i)
    ensures w[IndexOf(order, elems + j - 1)] == Fib(j + 3) - 1
    decreases j
  {
    var i := j - 1;
    assert FatherOfPair(order, w, elems, i);
    assert ChainPair(order, elems, names, i);
    assert names[0] < elems && names[j] < elems;
    PairWeighs(order, w, names[j], Reached(elems, names, i), i);
    if i == 0 {
      assert Fib(1) == 1 && Fib(2) == 1 && Fib(4) == 3;
    } else {
      ChainWeighs(order, w, elems, names, i);
      assert Fib(j + 3) == Fib(j + 2) + Fib(j + 1);
    }
  }

  /** What lies in pair j is the node the chain has reached, or a symbol that comes later. */
  lemma {:induction false} PairHolds(order: seq<int>, w: seq<int>, elems: int, names: seq<int>, j: nat, q: nat)
    requires Layout(order, w, elems, names) && j + 1 < |names|
    requires forall i: nat :: i < j ==> ChainPair(order, elems, names, i)
    requires q == |order| - 2 - 2 * j || q == |order| - 1 - 2 * j
    ensures order[q] == Reached(elems, names, j) || (exists i: nat :: j < i < |names| && order[q] == names[i])
  {
    AtPlace(order, q);
    var v := order[q];
    if v in names {
      var i :| 0 <= i < |names| && names[i] == v;
      var k := if i == 0 then 0 else i - 1;
      assert k < j ==> ChainPair(order, elems, names, k);
    } else {
      var k := v - elems;
      assert FatherOfPair(order, w, elems, k);
      assert k + 1 < j ==> ChainPair(order, elems, names, k + 1);
    }
  }

  /** A later symbol does not lie in a pair of the chain. */
  lemma {:induction false} NotInPair(order: seq<int>, w: seq<int>, elems: int, names: seq<int>, i: nat, j: nat, q: nat)
    requires Layout(order, w, elems, names) && i < j && j + 1 < |names| && ChainPair(order, elems, names, i)
    requires q == |order| - 2 - 2 * i || q == |order| - 1 - 2 * i
    ensures order[q] != names[j + 1]
  {
    AtPlace(order, q);
    assert names[i + 1] != names[j + 1] && names[0] != names[j + 1] && names[j + 1] < elems;
  }

  /** Behind pair j there is nothing but the chain so far. */
  lemma {:induction false} BehindIsChain(order: seq<int>, w: seq<int>, elems: int, names: seq<int>, j: nat)
    requires Layout(order, w, elems, names) && j + 1 < |names|
    requires forall i: nat :: i < j ==> ChainPair(order, elems, names, i)
    ensures IndexOf(order, names[j + 1]) <= |order| - 1 - 2 * j
  {
    hide ChainPair;
    var p := IndexOf(order, names[j + 1]);
    if p > |order| - 1 - 2 * j {
      NotInPair(order, w, elems, names, (|order| - 1 - p) / 2, j, p);
    }
  }

  /** The node the chain has reached lies in pair j or before it, and is lighter than two of the later symbols. */
  lemma {:induction false} ReachedIsLight(order: seq<int>, w: seq<int>, elems: int, names: seq<int>, j: nat)
    requires Layout(order, w, elems, names) && j + 1 < |names|
    requires forall i: nat :: i < j ==> ChainPair(order, elems, names, i)
    ensures var r := Reached(elems, names, j); r in order && IndexOf(order, r) <= |order| - 1 - 2 * j && w[IndexOf(order, r)] < Fib(j + 3)
  {
    if j > 0 {
      assert FatherOfPair(order, w, elems, j - 1);
      ChainWeighs(order, w, elems, names, j);
    } else {
      assert w[IndexOf(order, names[0])] == Fib(1) == 1 && Fib(3) == 2;
    }
  }

  /** The node the chain has reached is in the next pair: later symbols are heavier. */
  lemma {:induction false} ReachedIsNext(order: seq<int>, w: seq<int>, elems: int, names: seq<int>, j: nat)
    requires Layout(order, w, elems, names) && j + 1 < |names|
    requires forall i: nat :: i < j ==> ChainPair(order, elems, names, i)
    ensures InPair(order, Reached(elems, names, j), j)
  {
    hide Fib, ChainPair, FatherOfPair;
    var q0, q1, r := |order| - 2 - 2 * j, |order| - 1 - 2 * j, Reached(elems, names, j);
    PairHolds(order, w, elems, names, j, q0);
    PairHolds(order, w, elems, names, j, q1);
    AtPlace(order, q0);
    AtPlace(order, q1);
    ReachedIsLight(order, w, elems, names, j);
    if order[q0] != r && order[q1] != r {
      var i0: nat :| j < i0 < |names| && order[q0] == names[i0];
      var i1: nat :| j < i1 < |names| && order[q1] == names[i1];
      FibGrows(j + 3, (if i0 < i1 then i1 else i0) + 1);
    }
  }

  lemma {:induction false} PairIsChain(order: seq<int>, w: seq<int>, elems: int, names: seq<int>, j: nat)
    requires Layout(order, w, elems, names) && j + 1 < |names|
    requires forall i: nat :: i < j ==> ChainPair(order, elems, names, i)
    ensures ChainPair(order, elems, names, j)
  {
    var q0, q1, r := |order| - 2 - 2 * j, |order| - 1 - 2 * j, Reached(elems, names, j);
    ReachedIsNext(order, w, elems, names, j);
    BehindIsChain(order, w, elems, names, j);
    var q := if IndexOf(order, r) == q0 then q1 else q0;
    PairHolds(order, w, elems, names, j, q);
    AtPlace(order, q);
    assert order[q] != r;
    var i: nat :| j < i < |names| && order[q] == names[i];
    if i != j + 1 {
      FibGrows(j + 3, i + 1);
      assert Fib(j + 3) == Fib(j + 2) + Fib(j + 1);
    }
  }

  lemma {:induction false} PairsAreChain(order: seq<int>, w: seq<int>, elems: int, names: seq<int>, j: nat)
    requires Layout(order, w, elems, names) && j < |names|
    ensures forall i: nat :: i < j ==> ChainPair(order, elems, names, i)
    decreases j
  {
    if j > 0 {
      PairsAreChain(order, w, elems, names, j - 1);
      PairIsChain(order, w, elems, names, j - 1);
    }
  }

  /** The nodes of pair j hang under the inner node numbered j. */
  ghost predicate PairHangs(s: Shape, order: seq<int>, elems: int, j: nat)
    requires s.WellFormed() && s.Size() == |order|
  {
    && elems + j in order && 2 * j + 2 < |order|
    && s.parent[|order| - 2 - 2 * j] == s.parent[|order| - 1 - 2 * j] == IndexOf(order, elems + j)
  }

  ghost predicate AllHang(s: Shape, order: seq<int>, elems: int, n: nat) {
    s.WellFormed() && s.Size() == |order| == 2 * n - 1 && forall j: nat :: j + 1 < n ==> PairHangs(s, order, elems, j)
  }

  lemma {:induction false} PairsHang(order: seq<int>, w: seq<int>, elems: int, names: seq<int>, f: seq<int>, s: Shape)
    requires FibTree(order, w, elems, names, f) && s == ShapeOf(order, elems)
    ensures AllHang(s, order, elems, |names|)
  {
    Listed(order, w, elems, names, f);
    WeighedIsTree(s, w);
    hide WeighedTree, Shape.WellFormed, ParentIndex, IndexOf, FibTree;
    forall j: nat | j + 1 < |names|
      ensures PairHangs(s, order, elems, j)
    {
      FibTreeIsWeighed(order, w, elems, names, f);
      NodeIsFather(order, w, elems, s, j);
    }
  }

  lemma FibTreeIsWeighed(order: seq<int>, w: seq<int>, elems: int, names: seq<int>, f: seq<int>)
    requires FibTree(order, w, elems, names, f)
    ensures WeighedTree(ShapeOf(order, elems), w)
  {
  }

  /** A node of pair j lies one deeper than the inner node numbered j. */
  lemma {:induction false} HangsDeeper(s: Shape, order: seq<int>, elems: int, n: nat, v: int, j: nat)
    requires AllHang(s, order, elems, n) && j + 1 < n && InPair(order, v, j)
    ensures elems + j in order && s.Depth(IndexOf(order, v)) == s.Depth(IndexOf(order, elems + j)) + 1
  {
    assert PairHangs(s, order, elems, j);
    assert s.HangsWell(IndexOf(order, v));
  }

  /** The inner node numbered j lies as deep as there are symbols still to join. */
  lemma {:induction false} ChainDepths(s: Shape, order: seq<int>, w: seq<int>, elems: int, names: seq<int>, j: nat)
    requires Layout(order, w, elems, names) && AllHang(s, order, elems, |names|) && j + 1 < |names|
    ensures elems + j in order && s.Depth(IndexOf(order, elems + j)) == |names| - 2 - j
    decreases |names| - j
  {
    assert PairHangs(s, order, elems, j);
    if j + 2 == |names| {
      assert FatherOfPair(order, w, elems, j);
    } else {
      PairsAreChain(order, w, elems, names, j + 2);
      assert ChainPair(order, elems, names, j + 1);
      ChainDepths(s, order, w, elems, names, j + 1);
      HangsDeeper(s, order, elems, |names|, elems + j, j + 1);
    }
  }

  lemma {:induction false} SymbolDepth(s: Shape, order: seq<int>, w: seq<int>, elems: int, names: seq<int>, i: nat)
    requires Layout(order, w, elems, names) && AllHang(s, order, elems, |names|) && i < |names|
    ensures names[i] in order && s.Depth(IndexOf(order, names[i])) == if i == 0 then |names| - 1 else |names| - i
  {
    var j := if i == 0 then 0 else i - 1;
    PairsAreChain(order, w, elems, names, j + 1);
    assert ChainPair(order, elems, names, j);
    ChainDepths(s, order, w, elems, names, j);
    HangsDeeper(s, order, elems, |names|, names[i], j);
  }

  /** In every tree built from Fibonacci counts the symbols lie at all depths, the first two as deep as can be. */
  lemma {:induction false} FibonacciIsChain(order: seq<int>, w: seq<int>, elems: int, names: seq<int>, f: seq<int>, s: Shape, i: nat)
    requires FibTree(order, w, elems, names, f) && s == ShapeOf(order, elems) && i < |names|
    ensures s.WellFormed() && s.Size() == |order| && names[i] in order
    ensures s.Depth(IndexOf(order, names[i])) == if i == 0 then |names| - 1 else |names| - i
  {
    LaidOut(order, w, elems, names, f);
    PairsHang(order, w, elems, names, f, s);
    hide FibTree, Layout, PairHangs;
    SymbolDepth(s, order, w, elems, names, i);
  }
}
