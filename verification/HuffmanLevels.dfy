/**
 The heights of the trees under construction. The depths by which the builder resolves ties are not these heights, but
 they order equally heavy nodes in the same way.
 */
module HuffmanLevels {
  import opened HuffmanHeap
  import opened HuffmanMerge
  import opened HuffmanWeights
  import opened OptimalCodes
  import opened ShallowCodes

  /** A symbol, or an inner node made so far. */
  ghost predicate Made(v: int, elems: int, node: int, symbols: set<int>) {
    v in symbols || elems <= v < node
  }

  function Higher(a: int, b: int): int {
    1 + if a <= b then b else a
  }

  /** The depth noted for the father of two nodes. */
  function NotedDepth(n: int, m: int): int {
    if n > m + 1 then n else m + 1
  }

  /** The father of pair j is one higher than the higher son; of two equally heavy sons the one taken first was not deeper. */
  ghost predicate PairLevel(h: seq<int>, elems: int, f: seq<int>, dep: seq<int>, hs: seq<int>, j: int)
    requires |h| == HEAP_SIZE
  {
    var p := HEAP_SIZE - 2 - 2 * j;
    && 0 <= p < HEAP_SIZE - 1 && 0 <= h[p] < |f| && 0 <= h[p + 1] < |f| && 0 <= elems + j < |f| == |hs| <= |dep|
    && hs[elems + j] == Higher(hs[h[p + 1]], hs[h[p]]) && dep[elems + j] == NotedDepth(dep[h[p + 1]], dep[h[p]])
    && (f[h[p + 1]] == f[h[p]] ==> dep[h[p + 1]] <= dep[h[p]])
  }

  /** Depths and heights put u and v in the same order, if they weigh the same. */
  ghost predicate Agree(f: seq<int>, dep: seq<int>, hs: seq<int>, u: int, v: int)
    requires 0 <= u < |f| && 0 <= v < |f| && |f| == |hs| <= |dep|
  {
    f[u] == f[v] ==> (dep[u] <= dep[v] <==> hs[u] <= hs[v])
  }

  /** Symbols lie at the bottom, and inner nodes do not. */
  ghost predicate Grounded(elems: int, node: int, symbols: set<int>, dep: seq<int>, hs: seq<int>) {
    forall v :: Made(v, elems, node, symbols) ==>
      0 <= v < |hs| <= |dep| && (if v < elems then dep[v] == hs[v] == 0 else dep[v] >= 1 && hs[v] >= 1)
  }

  /** Everything that waits or has been merged is a symbol or an inner node made so far. */
  ghost predicate AllMade(h: seq<int>, len: int, top: int, elems: int, node: int, symbols: set<int>)
    requires |h| == HEAP_SIZE && 1 <= len < top <= HEAP_SIZE
  {
    && (forall p :: top <= p < HEAP_SIZE ==> Made(h[p], elems, node, symbols))
    && (forall v :: v in Waiting(h, len) ==> Made(v, elems, node, symbols))
  }

  /** Depths and heights after `node - elems` merges. */
  ghost predicate Leveled(h: seq<int>, len: int, top: int, elems: int, node: int, symbols: set<int>, f: seq<int>, dep: seq<int>, hs: seq<int>) {
    && |h| == HEAP_SIZE && 1 <= len < top <= HEAP_SIZE && top == HEAP_SIZE - 2 * (node - elems)
    && 0 <= elems <= node <= |f| == |hs| <= |dep| && (forall v :: v in symbols ==> 0 <= v < elems)
    && AllMade(h, len, top, elems, node, symbols) && Grounded(elems, node, symbols, dep, hs)
    && (forall j :: 0 <= j < node - elems ==> PairLevel(h, elems, f, dep, hs, j))
    && (forall u, v :: Made(u, elems, node, symbols) && Made(v, elems, node, symbols) ==> Agree(f, dep, hs, u, v))
  }

  /** n is first in the order of the heap. */
  ghost predicate Foremost(f: seq<int>, dep: seq<int>, n: int, w: multiset<int>)
    requires 0 <= n < |f| <= |dep|
  {
    forall v :: v in w ==> 0 <= v < |f| && Smaller(f, dep, n, v)
  }

  lemma FrontIsForemost(h: seq<int>, len: int, f: seq<int>, dep: seq<int>)
    requires Nodes(h, len, f, dep) && Ordered(h, len, f, dep, 1) && 1 <= len
    ensures Foremost(f, dep, h[1], Waiting(h, len))
  {
    forall v | v in Waiting(h, len)
      ensures 0 <= v < |f| && Smaller(f, dep, h[1], v)
    {
      assert v in h[1..len + 1];
      var i :| 0 <= i < len && h[1..len + 1][i] == v;
      FrontIsLeast(h, len, f, dep, i + 1);
    }
  }

  /** n and m have been joined, n before m, as the first two in the order of weight and height. */
  ghost predicate JoinedLow(h: seq<int>, len: int, f: seq<int>, hs: seq<int>, n: int, m: int)
    requires 0 <= len < |h|
  {
    && 0 <= n < |f| == |hs| && 0 <= m < |f|
    && (forall v :: v in Waiting(h, len) ==> 0 <= v < |f| && Before(f, hs, n, v))
    && (forall v :: v in Waiting(h, len) - multiset{n} ==> 0 <= v < |f| && Before(f, hs, m, v))
  }

  lemma ForemostIsLow(h: seq<int>, len: int, top: int, elems: int, node: int, symbols: set<int>, f: seq<int>, dep: seq<int>, hs: seq<int>, n: int, m: int)
    requires Leveled(h, len, top, elems, node, symbols, f, dep, hs) && 0 <= n < |f| && 0 <= m < |f|
    requires n in Waiting(h, len) && m in Waiting(h, len)
    requires Foremost(f, dep, n, Waiting(h, len)) && Foremost(f, dep, m, Waiting(h, len) - multiset{n})
    ensures JoinedLow(h, len, f, hs, n, m)
  {
    forall v | v in Waiting(h, len)
      ensures Before(f, hs, n, v) && (v in Waiting(h, len) - multiset{n} ==> Before(f, hs, m, v))
    {
      assert Made(v, elems, node, symbols) && Made(n, elems, node, symbols) && Made(m, elems, node, symbols);
      assert Agree(f, dep, hs, n, v) && Agree(f, dep, hs, m, v);
    }
    forall v | v in Waiting(h, len) - multiset{n}
      ensures Before(f, hs, m, v)
    {
      assert v in Waiting(h, len);
    }
  }

  /** At equal weight symbols are joined before merged nodes: where a merged node is joined, every symbol that goes on waiting is heavier. */
  lemma SymbolsFirst(h: seq<int>, len: int, top: int, elems: int, node: int, symbols: set<int>, f: seq<int>, dep: seq<int>, hs: seq<int>, n: int, m: int,
                     v: int)
    requires Leveled(h, len, top, elems, node, symbols, f, dep, hs) && JoinedLow(h, len, f, hs, n, m)
    requires n in Waiting(h, len) && m in Waiting(h, len) && v in Waiting(h, len) && v in symbols && v != n
    ensures (n >= elems ==> f[n] < f[v]) && (v != m && m >= elems ==> f[m] < f[v])
  {
    assert Made(n, elems, node, symbols) && Made(m, elems, node, symbols) && Made(v, elems, node, symbols);
    assert v in Waiting(h, len) - multiset{n};
  }

  /** The front, and the front once it is out, are the first two. */
  lemma LowestTwo(h: seq<int>, len: int, top: int, elems: int, node: int, symbols: set<int>, f: seq<int>, dep: seq<int>, hs: seq<int>, h1: seq<int>, n: int)
    requires Leveled(h, len, top, elems, node, symbols, f, dep, hs) && 2 <= len && |h1| == HEAP_SIZE && 0 <= n < |f| && 0 <= h1[1] < |f|
    requires multiset{n} + Waiting(h1, len - 1) == Waiting(h, len)
    requires Foremost(f, dep, n, Waiting(h, len)) && Foremost(f, dep, h1[1], Waiting(h1, len - 1))
    ensures JoinedLow(h, len, f, hs, n, h1[1]) && Smaller(f, dep, n, h1[1])
  {
    WaitingNode(h1, len - 1, 1);
    assert h1[1] in multiset{n} + Waiting(h1, len - 1) && n in multiset{n} + Waiting(h1, len - 1);
    assert Waiting(h, len) - multiset{n} == Waiting(h1, len - 1);
    ForemostIsLow(h, len, top, elems, node, symbols, f, dep, hs, n, h1[1]);
  }

  /** A father that is as heavy as the new one has sons as heavy as those of the new one. */
  lemma {:induction false} SameSons(h: seq<int>, len: int, top: int, elems: int, node: int, symbols: set<int>, f0: seq<int>, f: seq<int>, n: int, m: int,
                                    j: int)
    requires Weighed(h, len, top, elems, node, symbols, f0, f) && n in Waiting(h, len) && m in Waiting(h, len)
    requires 0 <= j < node - elems && 0 <= n < |f| && 0 <= m < |f| && 0 <= elems + j < |f| && f[elems + j] == f[n] + f[m]
    ensures var p := HEAP_SIZE - 2 - 2 * j;
            top <= p < HEAP_SIZE - 1 && 0 <= h[p] < node && 0 <= h[p + 1] < node && f[h[p]] == f[h[p + 1]] == f[n] == f[m]
  {
    assert PairSum(h, elems, f, j);
  }

  /** The new father agrees with every other node. */
  lemma {:induction false} FatherAgrees(h: seq<int>, len: int, top: int, elems: int, node: int, symbols: set<int>, f0: seq<int>, f: seq<int>,
                                        dep: seq<int>, hs: seq<int>, n: int, m: int, v: int)
    requires Weighed(h, len, top, elems, node, symbols, f0, f) && Leveled(h, len, top, elems, node, symbols, f, dep, hs)
    requires n in Waiting(h, len) && m in Waiting(h, len) && 0 <= n < |f| && 0 <= m < |f| && Smaller(f, dep, n, m)
    requires Made(v, elems, node, symbols) && f[v] == f[n] + f[m]
    ensures NotedDepth(dep[n], dep[m]) <= dep[v] <==> Higher(hs[n], hs[m]) <= hs[v]
    ensures dep[v] <= NotedDepth(dep[n], dep[m]) <==> hs[v] <= Higher(hs[n], hs[m])
  {
    hide Weighed;
    assert Made(n, elems, node, symbols) && Made(m, elems, node, symbols);
    if v >= elems {
      var j := v - elems;
      var p := HEAP_SIZE - 2 - 2 * j;
      SameSons(h, len, top, elems, node, symbols, f0, f, n, m, j);
      assert PairLevel(h, elems, f, dep, hs, j);
      assert Made(h[p], elems, node, symbols) && Made(h[p + 1], elems, node, symbols);
      assert Agree(f, dep, hs, h[p + 1], h[p]) && Agree(f, dep, hs, n, m);
      assert Agree(f, dep, hs, h[p], m) && Agree(f, dep, hs, m, h[p]);
    }
  }

  lemma {:induction false} JoinKeepsPairLevels(h: seq<int>, h': seq<int>, top: int, elems: int, node: int, f: seq<int>, dep: seq<int>, hs: seq<int>,
                                               f': seq<int>, dep': seq<int>, hs': seq<int>, n: int, m: int)
    requires |h| == |h'| == HEAP_SIZE && 2 <= top == HEAP_SIZE - 2 * (node - elems) && 0 <= elems <= node < |f| == |hs| <= |dep|
    requires 0 <= n < node && 0 <= m < node && h'[top - 1] == n && h'[top - 2] == m && SameBack(h, h', top)
    requires forall p :: top <= p < HEAP_SIZE ==> 0 <= h[p] < node
    requires forall j :: 0 <= j < node - elems ==> PairLevel(h, elems, f, dep, hs, j)
    requires f' == f[node := f[n] + f[m]] && hs' == hs[node := Higher(hs[n], hs[m])] && dep' == dep[node := NotedDepth(dep[n], dep[m])]
    requires Smaller(f, dep, n, m)
    ensures forall j :: 0 <= j < node + 1 - elems ==> PairLevel(h', elems, f', dep', hs', j)
  {
    forall j | 0 <= j < node + 1 - elems
      ensures PairLevel(h', elems, f', dep', hs', j)
    {
      if j < node - elems {
        assert PairLevel(h, elems, f, dep, hs, j);
      }
    }
  }

  lemma {:induction false} JoinKeepsMade(h: seq<int>, len: int, top: int, elems: int, node: int, symbols: set<int>, f: seq<int>, h': seq<int>, len': int,
                                         top': int, f': seq<int>, n: int, m: int)
    requires Joined(h, len, top, node, f, h', len', top', f', n, m) && AllMade(h, len, top, elems, node, symbols) && elems <= node
    requires n in Waiting(h, len) && m in Waiting(h, len)
    ensures AllMade(h', len', top', elems, node + 1, symbols)
  {
    forall v | v in Waiting(h', len')
      ensures Made(v, elems, node + 1, symbols)
    {
      assert v in Waiting(h', len') + multiset{n, m};
    }
    forall p | top' <= p < HEAP_SIZE
      ensures Made(h'[p], elems, node + 1, symbols)
    {
      assert p >= top ==> h'[p] == h[p];
    }
  }

  /** Joining the two first nodes of the heap keeps depths and heights in step. */
  lemma {:induction false} JoinKeepsLevels(h: seq<int>, len: int, top: int, elems: int, node: int, symbols: set<int>, f0: seq<int>, f: seq<int>,
                                           dep: seq<int>, hs: seq<int>, h': seq<int>, len': int, top': int, node': int, f': seq<int>, dep': seq<int>,
                                           hs': seq<int>, n: int, m: int)
    requires Weighed(h, len, top, elems, node, symbols, f0, f) && Leveled(h, len, top, elems, node, symbols, f, dep, hs) && node' == node + 1
    requires Joined(h, len, top, node, f, h', len', top', f', n, m) && n in Waiting(h, len) && m in Waiting(h, len) && Smaller(f, dep, n, m)
    requires dep' == dep[node := NotedDepth(dep[n], dep[m])] && hs' == hs[node := Higher(hs[n], hs[m])]
    ensures Leveled(h', len', top', elems, node', symbols, f', dep', hs')
  {
    hide Weighed, AllMade, PairLevel;
    MadeBelow(h, len, top, elems, node, symbols);
    JoinKeepsMade(h, len, top, elems, node, symbols, f, h', len', top', f', n, m);
    JoinKeepsPairLevels(h, h', top, elems, node, f, dep, hs, f', dep', hs', n, m);
    forall u, v | Made(u, elems, node', symbols) && Made(v, elems, node', symbols)
      ensures Agree(f', dep', hs', u, v)
    {
      if u != node && v != node {
        assert Made(u, elems, node, symbols) && Made(v, elems, node, symbols) && Agree(f, dep, hs, u, v);
      } else if u == node && v != node && f'[u] == f'[v] {
        FatherAgrees(h, len, top, elems, node, symbols, f0, f, dep, hs, n, m, v);
      } else if v == node && u != node && f'[u] == f'[v] {
        FatherAgrees(h, len, top, elems, node, symbols, f0, f, dep, hs, n, m, u);
      }
    }
  }

  lemma MadeBelow(h: seq<int>, len: int, top: int, elems: int, node: int, symbols: set<int>)
    requires |h| == HEAP_SIZE && 1 <= len < top <= HEAP_SIZE && AllMade(h, len, top, elems, node, symbols)
    requires 0 <= elems <= node && forall v :: v in symbols ==> 0 <= v < elems
    ensures forall p :: top <= p < HEAP_SIZE ==> 0 <= h[p] < node
    ensures forall v :: v in Waiting(h, len) ==> Made(v, elems, node, symbols)
  {
  }

  /** The two nodes joined come first in the queue. */
  lemma LowAreFirst(h: seq<int>, len: int, f: seq<int>, hs: seq<int>, node: int, n: int, m: int)
    requires 0 <= len < |h| && JoinedLow(h, len, f, hs, n, m) && n != m && 0 <= node <= |f| && Single(Waiting(h, len), f, node)
    requires n in Waiting(h, len) && m in Waiting(h, len)
    ensures TwoFirst(Queue(h, len), f, hs, n, m)
  {
    forall v | v in Queue(h, len) && v != n
      ensures Before(f, hs, m, v)
    {
      assert v in Waiting(h, len) - multiset{n};
    }
  }

  /** Joining the two loses no cheap code that is short. */
  lemma {:induction false} JoinKeepsNarrow(h: seq<int>, len: int, top: int, elems: int, node: int, symbols: set<int>, f0: seq<int>, f: seq<int>,
                                           hs: seq<int>, h': seq<int>, len': int, top': int, f': seq<int>, hs': seq<int>, n: int, m: int)
    requires Weighed(h, len, top, elems, node, symbols, f0, f) && Joined(h, len, top, node, f, h', len', top', f', n, m)
    requires |hs| == |f| && JoinedLow(h, len, f, hs, n, m) && hs' == hs[node := Higher(hs[n], hs[m])]
    requires Narrowed(Queue(h, len), f, hs, symbols, f0, BackWeight(f, h, top))
    ensures (forall p :: top' <= p < HEAP_SIZE ==> 0 <= h'[p] < |f'|) && Narrowed(Queue(h', len'), f', hs', symbols, f0, BackWeight(f', h', top'))
  {
    hide Narrowed, Reduced, NoneLighter, Descending, PairSums, Before;
    QueueAfterJoin(h, len, h', len', node, n, m);
    JoinPays(h, f, h', f', top, node, top');
    LowAreFirst(h, len, f, hs, node, n, m);
    MergeNarrows(Queue(h, len), f, hs, symbols, f0, BackWeight(f, h, top), n, m, node, hs');
  }

  /** The heights are kept, and every short code is accounted for. */
  ghost predicate Rising(h: seq<int>, len: int, top: int, elems: int, node: int, symbols: set<int>, f0: seq<int>, f: seq<int>, dep: seq<int>,
                         hs: seq<int>)
  {
    && Leveled(h, len, top, elems, node, symbols, f, dep, hs) && (forall p :: top <= p < HEAP_SIZE ==> 0 <= h[p] < |f|)
    && Narrowed(Queue(h, len), f, hs, symbols, f0, BackWeight(f, h, top))
  }

  lemma RisingIsLeveled(h: seq<int>, len: int, top: int, elems: int, node: int, symbols: set<int>, f0: seq<int>, f: seq<int>, dep: seq<int>, hs: seq<int>)
    requires Rising(h, len, top, elems, node, symbols, f0, f, dep, hs)
    ensures Leveled(h, len, top, elems, node, symbols, f, dep, hs)
  {
  }

  /** At the start only symbols wait. */
  lemma {:induction false} StartLevels(h: seq<int>, len: int, elems: int, symbols: set<int>, f: seq<int>, dep: seq<int>)
    requires |h| == HEAP_SIZE && 1 <= len < HEAP_SIZE && 0 <= elems <= |f| <= |dep|
    requires Waiting(h, len) == multiset(symbols) && forall v :: v in symbols ==> 0 <= v < elems && dep[v] == 0
    ensures exists hs :: Rising(h, len, HEAP_SIZE, elems, elems, symbols, f, f, dep, hs)
  {
    hide Narrowed;
    var hs := seq(|f|, _ => 0);
    assert Queue(h, len) == symbols;
    NarrowedAtFirst(symbols, f, hs);
    assert Rising(h, len, HEAP_SIZE, elems, elems, symbols, f, f, dep, hs);
  }

  /** Joining the two first nodes of the heap keeps all of this. */
  lemma {:induction false} JoinKeepsRising(h: seq<int>, len: int, top: int, elems: int, node: int, symbols: set<int>, f0: seq<int>, f: seq<int>,
                                           dep: seq<int>, hs: seq<int>, h': seq<int>, len': int, top': int, node': int, f': seq<int>, dep': seq<int>,
                                           n: int, m: int)
    requires Weighed(h, len, top, elems, node, symbols, f0, f) && Rising(h, len, top, elems, node, symbols, f0, f, dep, hs) && node' == node + 1
    requires Joined(h, len, top, node, f, h', len', top', f', n, m) && JoinedLow(h, len, f, hs, n, m)
    requires Smaller(f, dep, n, m) && dep' == dep[node := NotedDepth(dep[n], dep[m])]
    ensures exists hs' :: Rising(h', len', top', elems, node', symbols, f0, f', dep', hs')
  {
    hide Weighed, Leveled, Narrowed, Before;
    var hs' := hs[node := Higher(hs[n], hs[m])];
    JoinedWaited(h, len, top, elems, node, symbols, f0, f, h', len', top', f', n, m);
    JoinKeepsLevels(h, len, top, elems, node, symbols, f0, f, dep, hs, h', len', top', node', f', dep', hs', n, m);
    JoinKeepsNarrow(h, len, top, elems, node, symbols, f0, f, hs, h', len', top', f', hs', n, m);
    assert Rising(h', len', top', elems, node', symbols, f0, f', dep', hs');
  }

  lemma JoinedWaited(h: seq<int>, len: int, top: int, elems: int, node: int, symbols: set<int>, f0: seq<int>, f: seq<int>, h': seq<int>, len': int,
                     top': int, f': seq<int>, n: int, m: int)
    requires Weighed(h, len, top, elems, node, symbols, f0, f) && Joined(h, len, top, node, f, h', len', top', f', n, m)
    ensures n != m && n in Waiting(h, len) && m in Waiting(h, len)
  {
    QueueAfterJoin(h, len, h', len', node, n, m);
  }

  /** The father of pair j is one higher than the higher son. */
  ghost predicate PairHeight(h: seq<int>, elems: int, hs: seq<int>, j: int)
    requires |h| == HEAP_SIZE
  {
    var p := HEAP_SIZE - 2 - 2 * j;
    && 0 <= p < HEAP_SIZE - 1 && 0 <= h[p] < |hs| && 0 <= h[p + 1] < |hs| && 0 <= elems + j < |hs|
    && hs[elems + j] == Higher(hs[h[p + 1]], hs[h[p]])
  }

  /** Heights of the nodes of a tree with k inner nodes whose root stands at `top`; no code for q at that cost is shorter than the root is high. */
  ghost predicate Crown(h: seq<int>, top: int, elems: int, k: int, q: set<int>, w: seq<int>, cost: int, hs: seq<int>) {
    && |h| == HEAP_SIZE && 0 <= top < HEAP_SIZE && (forall p :: top <= p < HEAP_SIZE ==> 0 <= h[p] < |hs| && hs[h[p]] >= 0)
    && (forall j :: 0 <= j < k ==> PairHeight(h, elems, hs, j))
    && (forall b :: HasShort(q, w, cost, b) ==> hs[h[top]] <= b)
  }

  ghost predicate Crowned(h: seq<int>, top: int, elems: int, k: int, q: set<int>, w: seq<int>, cost: int) {
    exists hs :: Crown(h, top, elems, k, q, w, cost, hs)
  }

  /** When one node is left, it is the root. */
  lemma {:induction false} RisenIsCrowned(h: seq<int>, top: int, elems: int, node: int, symbols: set<int>, f0: seq<int>, f: seq<int>, dep: seq<int>,
                                          hs: seq<int>, h': seq<int>)
    requires Rising(h, 1, top, elems, node, symbols, f0, f, dep, hs) && Weighed(h, 1, top, elems, node, symbols, f0, f)
    requires 1 <= top && h' == h[top - 1 := h[1]]
    ensures (forall p :: top <= p < HEAP_SIZE ==> 0 <= h[p] < |f|) && Crowned(h', top - 1, elems, node - elems, symbols, f0, BackWeight(f, h, top))
  {
    hide Narrowed, HasShort;
    assert h[1..2] == [h[1]];
    WaitingNode(h, 1, 1);
    assert Queue(h, 1) == {h[1]};
    assert Made(h[1], elems, node, symbols);
    forall b | HasShort(symbols, f0, BackWeight(f, h, top), b)
      ensures hs[h[1]] <= b
    {
      HeightIsNeeded(h[1], f, hs, symbols, f0, BackWeight(f, h, top), b);
    }
    forall j | 0 <= j < node - elems
      ensures PairHeight(h', elems, hs, j)
    {
      assert PairLevel(h, elems, f, dep, hs, j);
    }
    forall p | top - 1 <= p < HEAP_SIZE
      ensures 0 <= h'[p] < |hs| && hs[h'[p]] >= 0
    {
      assert p >= top ==> Made(h[p], elems, node, symbols);
    }
    assert Crown(h', top - 1, elems, node - elems, symbols, f0, BackWeight(f, h, top), hs);
  }

  /** The tree with its root in front: its weights, its cost and its height. */
  lemma {:induction false} RootIsReady(h: seq<int>, top: int, elems: int, node: int, symbols: set<int>, f0: seq<int>, f: seq<int>, dep: seq<int>,
                                       h': seq<int>)
    requires Weighed(h, 1, top, elems, node, symbols, f0, f) && exists hs :: Rising(h, 1, top, elems, node, symbols, f0, f, dep, hs)
    requires 1 <= top && h' == h[top - 1 := h[1]]
    ensures |h'| == HEAP_SIZE && PairSums(h', elems, f, node - elems) && (forall p :: top - 1 <= p < HEAP_SIZE ==> 0 <= h'[p] < |f|)
    ensures Descending(h', top - 1, f) && CostsAtLeast(symbols, f0, BackWeight(f, h', top))
    ensures Crowned(h', top - 1, elems, node - elems, symbols, f0, BackWeight(f, h', top))
  {
    hide Rising, Crowned, Reduced, CostsAtLeast, PairSum;
    var hs :| Rising(h, 1, top, elems, node, symbols, f0, f, dep, hs);
    AllPaid(h, top, elems, node, symbols, f0, f);
    WaitingNode(h, 1, 1);
    assert h[1..2] == [h[1]];
    RootInFront(h, h', top, elems, f, node - elems);
    RisenIsCrowned(h, top, elems, node, symbols, f0, f, dep, hs, h');
  }
}
