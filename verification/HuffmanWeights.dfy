/**
 The weights of the tree under construction: a father weighs what its sons weigh together, and
 the merged nodes together weigh what every prefix code has to pay.
 */
module HuffmanWeights {
  import opened HuffmanHeap
  import opened HuffmanMerge
  import opened HuffmanShape
  import opened OptimalCodes
  import opened Sums
  import opened TreeCost
  import opened TreeSymbols

  /** The nodes waiting in the queue, as a set. */
  ghost function Queue(h: seq<int>, len: int): set<int>
    requires 0 <= len < |h|
  {
    set v | v in Waiting(h, len)
  }

  /** The weights of the nodes from position `top` on. */
  ghost function BackWeight(f: seq<int>, h: seq<int>, top: int): int
    requires 0 <= top <= |h| && forall p :: top <= p < |h| ==> 0 <= h[p] < |f|
    decreases |h| - top
  {
    if top == |h| then 0 else f[h[top]] + BackWeight(f, h, top + 1)
  }

  lemma {:induction false} BackWeightFrame(f: seq<int>, h: seq<int>, f': seq<int>, h': seq<int>, top: int)
    requires 0 <= top <= |h| == |h'| && forall p :: top <= p < |h| ==> h'[p] == h[p]
    requires forall p :: top <= p < |h| ==> 0 <= h[p] < |f| && h[p] < |f'| && f'[h[p]] == f[h[p]]
    ensures BackWeight(f', h', top) == BackWeight(f, h, top)
    decreases |h| - top
  {
    if top < |h| {
      BackWeightFrame(f, h, f', h', top + 1);
    }
  }

  /** The father numbered `elems + j` weighs what the two nodes of its pair weigh. */
  ghost predicate PairSum(h: seq<int>, elems: int, f: seq<int>, j: int)
    requires |h| == HEAP_SIZE
  {
    var p := HEAP_SIZE - 2 - 2 * j;
    && 0 <= p < HEAP_SIZE - 1 && 0 <= h[p] < |f| && 0 <= h[p + 1] < |f| && 0 <= elems + j < |f|
    && f[elems + j] == f[h[p]] + f[h[p + 1]]
  }

  /** The weights after `node - elems` merges, starting from the weights f0 of the symbols. */
  ghost predicate Weighed(h: seq<int>, len: int, top: int, elems: int, node: int, symbols: set<int>,
                          f0: seq<int>, f: seq<int>)
  {
    && |h| == HEAP_SIZE && 1 <= len < top <= HEAP_SIZE && top == HEAP_SIZE - 2 * (node - elems)
    && 0 <= elems <= node <= |f|
    && (forall p :: top <= p < HEAP_SIZE ==> 0 <= h[p] < node)
    && PairSums(h, elems, f, node - elems)
    && Single(Waiting(h, len), f, node)
    && Descending(h, top, f) && NoneLighter(h, top, f, Waiting(h, len))
    && Reduced(Queue(h, len), f, symbols, f0, BackWeight(f, h, top))
  }

  /** The nodes from position `top` on are sorted by weight, the heaviest first. */
  ghost predicate Descending(h: seq<int>, top: int, f: seq<int>)
    requires 0 <= top && forall p :: top <= p < |h| ==> 0 <= h[p] < |f|
  {
    forall p, q :: top <= p <= q < |h| ==> f[h[q]] <= f[h[p]]
  }

  /** No waiting node is lighter than the merged ones. */
  ghost predicate NoneLighter(h: seq<int>, top: int, f: seq<int>, w: multiset<int>)
    requires 0 <= top && forall p :: top <= p < |h| ==> 0 <= h[p] < |f|
  {
    forall v :: v in w ==> 0 <= v < |f| && forall p :: top <= p < |h| ==> f[h[p]] <= f[v]
  }

  ghost predicate PairSums(h: seq<int>, elems: int, f: seq<int>, k: int)
    requires |h| == HEAP_SIZE
  {
    forall j :: 0 <= j < k ==> PairSum(h, elems, f, j)
  }

  /** Nodes numbered below `node`, once each, with their weights. */
  ghost predicate Single(w: multiset<int>, f: seq<int>, node: int)
    requires node <= |f|
  {
    forall v :: v in w ==> 0 <= v < node && f[v] >= 0 && w[v] == 1
  }

  /** A bound for q gives a bound for q0 that is higher by what has been paid. */
  ghost predicate Reduced(q: set<int>, f: seq<int>, q0: set<int>, f0: seq<int>, paid: int) {
    forall c :: CostsAtLeast(q, f, c) ==> CostsAtLeast(q0, f0, c + paid)
  }

  /** n and m, the two lightest waiting nodes, have been put aside under a new father. */
  ghost predicate Joined(h: seq<int>, len: int, top: int, node: int, f: seq<int>,
                         h': seq<int>, len': int, top': int, f': seq<int>, n: int, m: int)
  {
    && |h| == |h'| == HEAP_SIZE && 1 <= len' == len - 1 && len < top && top' == top - 2 && len' < top' && top <= HEAP_SIZE
    && Waiting(h, len) + multiset{node} == Waiting(h', len') + multiset{n, m}
    && h'[top - 1] == n && h'[top - 2] == m && SameBack(h, h', top)
    && 0 <= n < node < |f| && 0 <= m < node && f' == f[node := f[n] + f[m]]
    && Lightest(f, n, Waiting(h, len))
    && Lightest(f, m, Waiting(h, len) - multiset{n})
  }

  ghost predicate Lightest(f: seq<int>, n: int, w: multiset<int>)
    requires 0 <= n < |f|
  {
    forall v :: v in w ==> 0 <= v < |f| && f[n] <= f[v]
  }

  lemma FrontIsLightest(h: seq<int>, len: int, f: seq<int>, depth: seq<int>)
    requires Nodes(h, len, f, depth) && Ordered(h, len, f, depth, 1) && 1 <= len
    ensures Lightest(f, h[1], Waiting(h, len))
  {
    forall v | v in Waiting(h, len)
      ensures 0 <= v < |f| && f[h[1]] <= f[v]
    {
      assert v in h[1..len + 1];
      var i :| 0 <= i < len && h[1..len + 1][i] == v;
      FrontIsLeast(h, len, f, depth, i + 1);
    }
  }

  /** Taking out the front and setting it aside with the next front joins the two lightest. */
  lemma JoinKeepsCounts(h: seq<int>, len: int, top: int, elems: int, node: int, f: seq<int>,
                        h': seq<int>, len': int, top': int, f': seq<int>, n: int, m: int)
    requires Joined(h, len, top, node, f, h', len', top', f', n, m) && 0 <= elems <= node
    ensures |f'| == |f| && elems <= |f| && f'[..elems] == f[..elems]
  {
  }

  lemma JoinedInTwo(h: seq<int>, len: int, top: int, node: int, f: seq<int>, h1: seq<int>,
                    h': seq<int>, len': int, top': int, f': seq<int>, n: int)
    requires |h| == |h1| == |h'| == HEAP_SIZE && 1 <= len' == len - 1 && len < top && top' == top - 2 && len' < top' && top <= HEAP_SIZE
    requires multiset{n} + Waiting(h1, len') == Waiting(h, len)
    requires SetAside(h1, len', top, node, h', n) && SameBack(h, h1, top)
    requires 0 <= n < node < |f| && 0 <= h1[1] < node && f' == f[node := f[n] + f[h1[1]]]
    requires Lightest(f, n, Waiting(h, len)) && Lightest(f, h1[1], Waiting(h1, len'))
    ensures Joined(h, len, top, node, f, h', len', top', f', n, h1[1])
  {
    assert Waiting(h, len) - multiset{n} == Waiting(h1, len');
    assert multiset{n, h1[1]} == multiset{n} + multiset{h1[1]};
    AddBoth(Waiting(h, len), Waiting(h1, len'), Waiting(h', len'), multiset{n}, multiset{h1[1]}, multiset{node});
  }

  lemma AddBoth(w: multiset<int>, w1: multiset<int>, w': multiset<int>, n: multiset<int>, m: multiset<int>, node: multiset<int>)
    requires n + w1 == w && w' + m == w1 + node
    ensures w + node == w' + (n + m)
  {
    forall v
      ensures (w + node)[v] == (w' + (n + m))[v]
    {
      assert (n + w1)[v] == w[v] && (w' + m)[v] == (w1 + node)[v];
    }
  }

  lemma QueueAfterJoin(h: seq<int>, len: int, h': seq<int>, len': int, node: int, n: int, m: int)
    requires 0 <= len < |h| && 0 <= len' < |h'| && n != node && m != node
    requires Waiting(h, len) + multiset{node} == Waiting(h', len') + multiset{n, m}
    requires forall v :: v in Waiting(h, len) ==> v < node && Waiting(h, len)[v] == 1
    ensures n != m && n in Queue(h, len) && m in Queue(h, len) && node !in Queue(h, len)
    ensures Queue(h', len') == Queue(h, len) - {n, m} + {node}
    ensures forall v :: v in Waiting(h', len') ==> Waiting(h', len')[v] == 1
  {
    var w, w' := Waiting(h, len), Waiting(h', len');
    forall v
      ensures w[v] + multiset{node}[v] == w'[v] + multiset{n, m}[v]
    {
      assert (w + multiset{node})[v] == (w' + multiset{n, m})[v];
    }
    assert w[n] >= 1 && w[m] >= 1 && w[n] <= 1 && w[m] <= 1;
    assert w[node] == 0;
    assert multiset{n, m}[n] == if n == m then 2 else 1;
  }

  lemma JoinKeepsPairs(h: seq<int>, elems: int, f: seq<int>, h': seq<int>, top: int, node: int, f': seq<int>, k: int, k': int)
    requires |h| == |h'| == HEAP_SIZE && top == HEAP_SIZE - 2 * k && top >= 2 && 0 <= k == node - elems && k' == k + 1
    requires 0 <= elems && node < |f| && PairSums(h, elems, f, k)
    requires forall p :: top <= p < HEAP_SIZE ==> h'[p] == h[p] && 0 <= h[p] < node
    requires 0 <= h'[top - 2] < node && 0 <= h'[top - 1] < node && f' == f[node := f[h'[top - 2]] + f[h'[top - 1]]]
    ensures PairSums(h', elems, f', k')
  {
    forall j | 0 <= j < k'
      ensures PairSum(h', elems, f', j)
    {
      assert j < k ==> PairSum(h, elems, f, j);
    }
  }

  lemma JoinKeepsSingle(w: multiset<int>, w': multiset<int>, f: seq<int>, f': seq<int>, node: int, n: int, m: int, node': int)
    requires w + multiset{node} == w' + multiset{n, m} && node' == node + 1 && 0 <= node < |f|
    requires Single(w, f, node) && (forall v :: v in w' ==> w'[v] == 1)
    requires 0 <= n < node && 0 <= m < node && n in w && m in w && f' == f[node := f[n] + f[m]]
    ensures Single(w', f', node')
  {
    forall v | v in w'
      ensures 0 <= v < node' && f'[v] >= 0
    {
      assert v in w' + multiset{n, m};
    }
  }

  lemma JoinPays(h: seq<int>, f: seq<int>, h': seq<int>, f': seq<int>, top: int, node: int, top': int)
    requires 2 <= top <= |h| == |h'| && top' == top - 2 && 0 <= node < |f| == |f'|
    requires forall p :: top <= p < |h| ==> h'[p] == h[p] && 0 <= h[p] < node
    requires 0 <= h'[top - 2] < node && 0 <= h'[top - 1] < node
    requires forall v :: 0 <= v < node ==> f'[v] == f[v]
    ensures BackWeight(f', h', top') == BackWeight(f, h, top) + f[h'[top - 1]] + f[h'[top - 2]]
  {
    BackWeightFrame(f, h, f', h', top);
    assert BackWeight(f', h', top') == f[h'[top - 2]] + BackWeight(f', h', top - 1);
    assert BackWeight(f', h', top - 1) == f[h'[top - 1]] + BackWeight(f', h', top);
  }

  /** Merged nodes are put in front of lighter ones. */
  lemma {:induction false} JoinKeepsOrder(h: seq<int>, len: int, top: int, node: int, f: seq<int>, h': seq<int>, len': int, top': int, f': seq<int>,
                                          n: int, m: int)
    requires Joined(h, len, top, node, f, h', len', top', f', n, m)
    requires forall p :: top <= p < HEAP_SIZE ==> 0 <= h[p] < node
    requires Descending(h, top, f) && NoneLighter(h, top, f, Waiting(h, len)) && Single(Waiting(h, len), f, node)
    requires n != m && n in Waiting(h, len) && m in Waiting(h, len)
    ensures forall p :: top' <= p < HEAP_SIZE ==> 0 <= h'[p] < node
    ensures Descending(h', top', f') && NoneLighter(h', top', f', Waiting(h', len'))
  {
    hide Waiting;
    var w, w' := Waiting(h, len), Waiting(h', len');
    assert m in w - multiset{n};
    forall p | top' <= p < HEAP_SIZE
      ensures 0 <= h'[p] < node && f'[h'[p]] <= f[m] && (p >= top ==> h'[p] == h[p] && f[h[p]] <= f[n])
    {
      assert p >= top ==> h'[p] == h[p];
    }
    forall v | v in w'
      ensures 0 <= v < |f'| && f[m] <= f'[v]
    {
      assert v in w' + multiset{n, m};
      if v != node {
        LeftOver(w, w', node, n, m, v);
      }
    }
  }

  lemma LeftOver(w: multiset<int>, w': multiset<int>, node: int, n: int, m: int, v: int)
    requires w + multiset{node} == w' + multiset{n, m} && v in w' && v != node && n != m
    ensures v in w && v in w - multiset{n}
  {
    assert (w + multiset{node})[v] == (w' + multiset{n, m})[v];
    assert v == n ==> multiset{n, m}[v] >= 1;
  }

  /** Joining two nodes keeps the books. */
  lemma {:induction false} JoinKeepsWeights(h: seq<int>, len: int, top: int, elems: int, node: int, symbols: set<int>, f0: seq<int>, f: seq<int>,
                         h': seq<int>, len': int, top': int, node': int, f': seq<int>, n: int, m: int)
    requires Weighed(h, len, top, elems, node, symbols, f0, f) && node' == node + 1
    requires Joined(h, len, top, node, f, h', len', top', f', n, m)
    ensures Weighed(h', len', top', elems, node', symbols, f0, f')
  {
    var q := Queue(h, len);
    QueueAfterJoin(h, len, h', len', node, n, m);
    JoinKeepsSingle(Waiting(h, len), Waiting(h', len'), f, f', node, n, m, node');
    JoinKeepsPairs(h, elems, f, h', top, node, f', node - elems, node' - elems);
    JoinPays(h, f, h', f', top, node, top');
    AreLightest(Waiting(h, len), q, f, node, n, m);
    JoinKeepsOrder(h, len, top, node, f, h', len', top', f', n, m);
    JoinReduces(q, f, symbols, f0, BackWeight(f, h, top), n, m, node, f');
  }

  lemma AreLightest(w: multiset<int>, q: set<int>, f: seq<int>, node: int, n: int, m: int)
    requires q == (set v | v in w) && 0 <= node <= |f| && Single(w, f, node)
    requires n in w && m in w && n != m && 0 <= n < |f| && 0 <= m < |f|
    requires Lightest(f, n, w) && Lightest(f, m, w - multiset{n})
    ensures TwoLightest(q, f, n, m)
  {
  }

  lemma JoinReduces(q: set<int>, f: seq<int>, q0: set<int>, f0: seq<int>, paid: int, n: int, m: int, node: int, f': seq<int>)
    requires Reduced(q, f, q0, f0, paid) && TwoLightest(q, f, n, m) && node !in q && 0 <= node < |f|
    requires f' == f[node := f[n] + f[m]]
    ensures Reduced(q - {n, m} + {node}, f', q0, f0, paid + f[n] + f[m])
  {
    forall c | CostsAtLeast(q - {n, m} + {node}, f', c)
      ensures CostsAtLeast(q0, f0, c + (paid + f[n] + f[m]))
    {
      MergeBound(q, f, n, m, node, c);
      assert c + (paid + f[n] + f[m]) == (c + f[n] + f[m]) + paid;
    }
  }

  /** At the end no prefix code for the symbols costs less than the merged nodes weigh. */
  lemma AllPaid(h: seq<int>, top: int, elems: int, node: int, symbols: set<int>, f0: seq<int>, f: seq<int>)
    requires Weighed(h, 1, top, elems, node, symbols, f0, f)
    ensures CostsAtLeast(symbols, f0, BackWeight(f, h, top))
  {
    NothingIsFree(Queue(h, 1), f);
    assert CostsAtLeast(symbols, f0, 0 + BackWeight(f, h, top));
  }

  /** At the start nothing has been merged and nothing paid. */
  lemma StartWeights(h: seq<int>, len: int, elems: int, symbols: set<int>, f: seq<int>)
    requires |h| == HEAP_SIZE && 1 <= len < HEAP_SIZE && 0 <= elems <= |f|
    requires Waiting(h, len) == multiset(symbols)
    requires forall v :: v in symbols ==> 0 <= v < elems && f[v] >= 0
    ensures Weighed(h, len, HEAP_SIZE, elems, elems, symbols, f, f)
  {
    assert Queue(h, len) == symbols;
  }

  /** In the finished tree, too, a father weighs what its sons weigh together. */
  lemma TreeIsWeighed(h: seq<int>, order: seq<int>, elems: int, symbols: set<int>, dl: seq<int>, f: seq<int>)
    requires |h| == HEAP_SIZE && |order| <= HEAP_SIZE && order == h[HEAP_SIZE - |order|..] && Tree(order, elems, symbols, dl)
    requires Places(order, |f|) && PairSums(h, elems, f, |symbols| - 1)
    ensures WeighedTree(ShapeOf(order, elems), WeightsOf(order, f))
  {
    var s, w := ShapeOf(order, elems), WeightsOf(order, f);
    TreeIsWellFormed(order, elems, symbols, dl);
    hide Tree;
    forall i | 0 <= i < s.Size() && !s.leaf[i]
      ensures BalancedAt(s, w, i)
    {
      KidsAreListed(order, elems, symbols, dl, i);
      assert order[i] in order;
      NodeListed(order, elems, symbols, dl, order[i]);
      assert PairSum(h, elems, f, order[i] - elems);
    }
  }

  /** The nodes behind the root weigh what the tree weighs below its root. */
  lemma {:induction false} BackWeightOfTree(h: seq<int>, order: seq<int>, f: seq<int>, top: int, i: nat)
    requires 0 <= top < |h| && order == h[top..] && Places(order, |f|) && 1 <= i <= |order|
    ensures forall p :: top <= p < |h| ==> 0 <= h[p] < |f|
    ensures WeightBelowRoot(WeightsOf(order, f), i) + BackWeight(f, h, top + i) == BackWeight(f, h, top + 1)
    decreases i
  {
    forall p | top <= p < |h|
      ensures 0 <= h[p] < |f|
    {
      assert h[p] == order[p - top];
    }
    if i > 1 {
      BackWeightOfTree(h, order, f, top, i - 1);
    }
  }

  /** Putting the root in front of the merged nodes. */
  lemma RootInFront(h: seq<int>, h': seq<int>, top: int, elems: int, f: seq<int>, k: int)
    requires |h| == |h'| == HEAP_SIZE && 1 <= top <= HEAP_SIZE && top == HEAP_SIZE - 2 * k && h' == h[top - 1 := h'[top - 1]]
    requires (forall p :: top <= p < HEAP_SIZE ==> 0 <= h[p] < |f|) && PairSums(h, elems, f, k)
    requires Descending(h, top, f) && 0 <= h'[top - 1] < |f| && NoneLighter(h, top, f, multiset{h'[top - 1]})
    ensures PairSums(h', elems, f, k) && BackWeight(f, h', top) == BackWeight(f, h, top)
    ensures forall p :: top - 1 <= p < HEAP_SIZE ==> 0 <= h'[p] < |f|
    ensures Descending(h', top - 1, f)
  {
    BackWeightFrame(f, h, f, h', top);
    forall j | 0 <= j < k
      ensures PairSum(h', elems, f, j)
    {
      assert PairSum(h, elems, f, j);
    }
  }
}
