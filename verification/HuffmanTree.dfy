/**
 The tree builder of the deflate encoder: collects the symbols in use, merges the two least
 frequent nodes until one is left, and turns the tree into code lengths and codes.
 */
module HuffmanTree {
  import opened Arithmetic
  import opened HuffmanHeap
  import opened HuffmanMerge
  import opened HuffmanShape
  import opened CodeLengths
  import opened LengthLimit
  import opened LengthCounts
  import opened CountedSymbols
  import opened LengthPass
  import opened RenewedLengths
  import opened TreeSpec
  import opened SymbolLengths
  import opened CanonicalCodes
  import opened Sums
  import opened OptimalCodes
  import opened TreeSymbols
  import opened BuiltTree
  import opened HuffmanWeights
  import opened HuffmanLevels

  /** The codes in `f` are the codes for the lengths in `d` and the counts in `c`. */
  ghost predicate CodesSet(d: seq<int>, f: seq<int>, c: seq<int>, largest: int) {
    && 0 <= largest < |d| == |f| && |c| == MAX_BITS + 1
    && NaturalCounts(c) && LengthsUpTo(d[..largest + 1], MAX_BITS)
    && forall v :: 0 <= v <= largest && d[v] > 0 ==> f[v] == SentCode(c, d[..largest + 1], v)
  }

  class TreeBuilder {
    const elems: int
    const maxLength: int
    const extraBits: seq<int>
    const extraBase: int
    const staticLengths: seq<int>  // empty when there is no static tree

    const fc: array<int>
    const dl: array<int>
    const heap: array<int>
    const depth: array<int>
    const blCount: array<int>

    var heapLen: int
    var heapMax: int
    var maxCode: int
    var optLen: int
    var staticLen: int

    ghost predicate Sized() {
      && 3 <= elems <= 286
      && fc.Length == dl.Length == 2 * elems + 1
      && heap.Length == depth.Length == HEAP_SIZE
      && blCount.Length == MAX_BITS + 1
      && (staticLengths == [] || |staticLengths| >= elems)
      && fc != dl && fc != heap && fc != depth && fc != blCount
      && dl != heap && dl != depth && dl != blCount
      && heap != depth && heap != blCount && depth != blCount
      && 1 <= maxLength <= MAX_BITS && elems <= Pow2(maxLength)
      && 0 <= extraBase && elems <= extraBase + |extraBits|
    }

    constructor (elems: int, maxLength: int, extraBits: seq<int>, extraBase: int, staticLengths: seq<int>, freq: seq<int>)
      requires 3 <= elems <= 286 && 1 <= maxLength <= MAX_BITS && elems <= Pow2(maxLength) && elems <= |freq|
      requires (staticLengths == [] || |staticLengths| >= elems) && 0 <= extraBase && elems <= extraBase + |extraBits|
      ensures Sized() && this.elems == elems && this.maxLength == maxLength && this.extraBits == extraBits
      ensures this.extraBase == extraBase && this.staticLengths == staticLengths && optLen == 0 && staticLen == 0
      ensures fc[..elems] == freq[..elems]
      ensures fresh(fc) && fresh(dl) && fresh(heap) && fresh(depth) && fresh(blCount)
    {
      this.elems, this.maxLength, this.extraBits, this.extraBase, this.staticLengths :=
        elems, maxLength, extraBits, extraBase, staticLengths;
      heapLen, heapMax, maxCode, optLen, staticLen := 0, 0, 0, 0, 0;
      fc := new int[2 * elems + 1](i requires 0 <= i => if i < elems then freq[i] else 0);
      dl := new int[2 * elems + 1](_ => 0);
      heap := new int[HEAP_SIZE](_ => 0);
      depth := new int[HEAP_SIZE](_ => 0);
      blCount := new int[MAX_BITS + 1](_ => 0);
    }

    /** The length of a symbol in the static tree. */
    function StaticLength(s: int): int {
      if 0 <= s < |staticLengths| then staticLengths[s] else 0
    }

    /** Looks at one symbol: a counted one goes into the heap. */
    method GatherOne(n: int, ghost f: seq<int>, ghost n': int)
      requires Sized() && 0 <= n < elems && n' == n + 1 && f == fc[..]
      requires Gathered(f, n, heap[..], heapLen, maxCode)
      modifies this`heapLen, this`maxCode, heap, depth, dl
      ensures Gathered(f, n', heap[..], heapLen, maxCode)
      ensures f[n] == 0 ==> dl[..] == old(dl[..])[n := 0] && depth[..] == old(depth[..])
      ensures f[n] != 0 ==> dl[..] == old(dl[..]) && depth[..] == old(depth[..])[n := 0]
    {
      ghost var h, len, largest := heap[..], heapLen, maxCode;
      if fc[n] != 0 {
        heapLen := heapLen + 1;
        heap[heapLen] := n;
        maxCode := n;
        depth[n] := 0;
      } else {
        dl[n] := 0;
      }
      GatherStep(f, n, n', h, len, largest, heap[..], heapLen, maxCode);
    }

    /** Collects the counted symbols in the heap. */
    method Gather(ghost f: seq<int>)
      requires Sized() && f == fc[..]
      modifies this`heapLen, this`heapMax, this`maxCode, heap, depth, dl
      ensures heapMax == HEAP_SIZE && Gathered(f, elems, heap[..], heapLen, maxCode)
      ensures forall v :: 0 <= v < elems ==> if f[v] == 0 then dl[v] == 0 else depth[v] == 0
    {
      maxCode := -1;
      heapLen := 0;
      heapMax := HEAP_SIZE;
      var n := 0;
      while n < elems
        invariant 0 <= n <= elems && heapMax == HEAP_SIZE && f == fc[..]
        invariant Gathered(f, n, heap[..], heapLen, maxCode)
        invariant forall v :: 0 <= v < n ==> if f[v] == 0 then dl[v] == 0 else depth[v] == 0
      {
        GatherOne(n, f, n + 1);
        n := n + 1;
      }
    }

    /** Forces one more symbol: the next after the largest, or 0. */
    method ForceOne()
      requires Sized() && 0 <= heapLen < elems && -1 <= maxCode < elems
      modifies this`heapLen, this`maxCode, this`optLen, this`staticLen, heap, depth, fc
      ensures heapLen == old(heapLen) + 1
      ensures var x := NextForced(old(maxCode));
              && maxCode == (if old(maxCode) < 2 then x else old(maxCode))
              && heap[..] == old(heap[..])[heapLen := x]
              && fc[..] == old(fc[..])[x := 1]
              && depth[..] == old(depth[..])[x := 0]
              && optLen == old(optLen) - 1
              && staticLen == old(staticLen) - StaticLength(x)
    {
      var xnew := 0;
      if maxCode < 2 {
        maxCode := maxCode + 1;
        xnew := maxCode;
      }
      heapLen := heapLen + 1;
      heap[heapLen] := xnew;
      fc[xnew] := 1;
      depth[xnew] := 0;
      optLen := optLen - 1;
      if staticLengths != [] {
        staticLen := staticLen - staticLengths[xnew];
      }
    }

    /** Forces at least two symbols, so that every code has at least one bit. */
    method ForceTwo(ghost counted: seq<int>, ghost forced: seq<int>, ghost symbols: seq<int>)
      requires Sized() && |counted| == heapLen <= elems && forced == Forced(counted) && symbols == counted + forced
      requires Forcing(counted, 0, heap[..], maxCode, fc[..], fc[..], depth[..], depth[..])
      requires Increasing(counted) && forall i :: 0 <= i < |counted| ==> 0 <= counted[i] < elems
      modifies this`heapLen, this`maxCode, this`optLen, this`staticLen, heap, depth, fc
      ensures 2 <= heapLen == |symbols| < HEAP_SIZE && heap[..][1..heapLen + 1] == symbols
      ensures maxCode in symbols && forall s :: s in symbols ==> s <= maxCode
      ensures fc[..] == Marked(old(fc[..]), forced, 1) && depth[..] == Marked(old(depth[..]), forced, 0)
      ensures optLen == old(optLen) - |forced|
      ensures staticLen == old(staticLen) - SumOver(staticLengths, forced)
    {
      hide Forcing, Forced, Marked, Increasing;
      ghost var fc0, depth0 := fc[..], depth[..];
      ghost var k := 0;
      while heapLen < 2
        invariant heapLen == |counted| + k && 0 <= k <= |forced|
        invariant Forcing(counted, k, heap[..], maxCode, fc0, fc[..], depth0, depth[..])
        invariant optLen == old(optLen) - k
        invariant staticLen == old(staticLen) - SumOver(staticLengths, forced[..k])
        decreases 2 - heapLen
      {
        ForceStep(counted, k, heap[..], maxCode, fc0, fc[..], depth0, depth[..]);
        ForcingRange(counted, k, heap[..], maxCode, fc0, fc[..], depth0, depth[..], elems);
        SumOverStep(staticLengths, forced, k);
        ForceOne();
        k := k + 1;
      }
      ForcingDone(counted, k, heap[..], maxCode, fc0, fc[..], depth0, depth[..]);
    }

    /** Merging is under way: `symbols` are being merged and `node` is the next inner node. */
    ghost predicate Queued(node: int, symbols: set<int>)
      reads this`heapLen, this`heapMax, heap, dl, fc, depth
    {
      && Merging(heap[..], heapLen, heapMax, elems, node, symbols, dl[..])
      && Nodes(heap[..], heapLen, fc[..], depth[..])
      && Ordered(heap[..], heapLen, fc[..], depth[..], 1)
    }

    /** Takes the least node out of the queue. */
    method TakeLeast(ghost node: int, ghost symbols: set<int>) returns (n: int)
      requires Sized() && Queued(node, symbols) && heapLen >= 2
      modifies this`heapLen, heap
      ensures heapLen == old(heapLen) - 1
      ensures OneOut(heap[..], heapLen, heapMax, elems, node, symbols, dl[..], n)
      ensures Nodes(heap[..], heapLen, fc[..], depth[..]) && Ordered(heap[..], heapLen, fc[..], depth[..], 1)
      ensures multiset{n} + Waiting(heap[..], heapLen) == old(Waiting(heap[..], heapLen))
      ensures 0 <= n < fc.Length && Lightest(fc[..], n, old(Waiting(heap[..], heapLen)))
      ensures Foremost(fc[..], depth[..], n, old(Waiting(heap[..], heapLen)))
      ensures SameBack(old(heap[..]), heap[..], heapMax)
    {
      hide Waiting, OneOut, Lightest, Foremost, Merged, MergedOk, Ids;
      ghost var h, len := heap[..], heapLen;
      FrontIsLightest(h, len, fc[..], depth[..]);
      FrontIsForemost(h, len, fc[..], depth[..]);
      n := heap[1];
      heap[1] := heap[heapLen];
      heapLen := heapLen - 1;
      assert heap[..] == h[1 := h[len]];
      OrderedBelowFront(h, len, fc[..], depth[..], h[len], len - 1);
      PqDownHeap(heap, heapLen, fc, depth, 1);
      TakeFront(h, len, heapMax, elems, node, symbols, dl[..], heap[..]);
    }

    /** Writes down the pair n, m and its father `node`, which takes the front of the queue. */
    method PutAside(n: int, m: int, node: int)
      requires Sized() && 3 <= heapMax <= HEAP_SIZE && 1 <= heapLen < heapMax - 2
      requires 0 <= n < node && 0 <= m < node < fc.Length
      requires Nodes(heap[..], heapLen, fc[..], depth[..]) && Ordered(heap[..], heapLen, fc[..], depth[..], 1)
      requires forall j :: 1 <= j <= heapLen ==> 0 <= heap[j] < node
      modifies this`heapMax, heap, fc, dl, depth
      ensures heapMax == old(heapMax) - 2
      ensures heap[..] == old(heap[..])[old(heapMax) - 1 := n][old(heapMax) - 2 := m][1 := node]
      ensures fc[..] == old(fc[..])[node := old(fc[n]) + old(fc[m])]
      ensures dl[..] == old(dl[..])[n := node][m := node]
      ensures depth[..] == old(depth[..])[node := NotedDepth(old(depth[n]), old(depth[m]))]
      ensures Nodes(heap[..], heapLen, fc[..], depth[..]) && Ordered(heap[..], heapLen, fc[..], depth[..], 2)
    {
      heap[heapMax - 1] := n;
      heap[heapMax - 2] := m;
      heapMax := heapMax - 2;
      fc[node] := fc[n] + fc[m];
      depth[node] := if depth[n] > depth[m] + 1 then depth[n] else depth[m] + 1;
      dl[m] := node;
      dl[n] := node;
      heap[1] := node;
      FatherInFront(old(heap[..]), heap[..], heapLen, old(heapMax), n, m, node,
                    old(fc[..]), old(depth[..]), fc[..], depth[..]);
    }

    /** Puts n and the new least node aside under `node`, which still has to sink. */
    method PutPairAside(n: int, node: int, ghost symbols: set<int>)
      requires Sized() && OneOut(heap[..], heapLen, heapMax, elems, node, symbols, dl[..], n)
      requires Nodes(heap[..], heapLen, fc[..], depth[..]) && Ordered(heap[..], heapLen, fc[..], depth[..], 1)
      modifies this`heapMax, heap, fc, dl, depth
      ensures 0 <= n < node < fc.Length && 0 <= old(heap[1]) < node
      ensures (n in symbols || n >= elems) && (old(heap[1]) in symbols || old(heap[1]) >= elems)
      ensures heapMax == old(heapMax) - 2
      ensures heap[..] == old(heap[..])[old(heapMax) - 1 := n][old(heapMax) - 2 := old(heap[1])][1 := node]
      ensures fc[..] == old(fc[..])[node := old(fc[n]) + old(fc[heap[1]])]
      ensures dl[..] == old(dl[..])[n := node][old(heap[1]) := node]
      ensures depth[..] == old(depth[..])[node := NotedDepth(old(depth[n]), old(depth[heap[1]]))]
      ensures Nodes(heap[..], heapLen, fc[..], depth[..]) && Ordered(heap[..], heapLen, fc[..], depth[..], 2)
    {
      PairIsNew(heap[..], heapLen, heapMax, elems, node, symbols, dl[..], n);
      WaitingBelow(node, symbols, n);
      PutAside(n, heap[1], node);
    }

    /** Puts n and the new least node aside and makes `node` their father, with the sum of their counts. */
    method JoinUnder(n: int, node: int, ghost symbols: set<int>, ghost h: seq<int>, ghost f: seq<int>)
      requires h == heap[..] && f == fc[..]
      requires Sized() && OneOut(heap[..], heapLen, heapMax, elems, node, symbols, dl[..], n)
      requires Nodes(heap[..], heapLen, fc[..], depth[..]) && Ordered(heap[..], heapLen, fc[..], depth[..], 1)
      modifies this`heapMax, heap, fc, dl, depth
      ensures Queued(node + 1, symbols)
      ensures 0 <= n < node < |f| && |h| == HEAP_SIZE && 0 <= h[1] < node
      ensures fc[..] == f[node := f[n] + f[h[1]]]
      ensures depth[..] == old(depth[..])[node := NotedDepth(old(depth[n]), old(depth[h[1]]))]
      ensures forall v :: 0 <= v < elems && v !in symbols ==> dl[v] == old(dl[v])
      ensures heapMax == old(heapMax) - 2 && 1 <= heapLen < heapMax
      ensures SetAside(h, heapLen, old(heapMax), node, heap[..], n)
    {
      hide OneOut, Nodes, Ordered, SetAside, TreeBuilder.Queued;
      ghost var top, d := heapMax, dl[..];
      PutPairAside(n, node, symbols);
      assert forall v :: 0 <= v < elems && v !in symbols ==> dl[..][v] == d[v];
      SinkFather(n, node, symbols, h, top, d);
    }

    method SinkFather(ghost n: int, ghost node: int, ghost symbols: set<int>, ghost h: seq<int>, ghost top: int, ghost d: seq<int>)
      requires Sized() && OneOut(h, heapLen, top, elems, node, symbols, d, n)
      requires 0 <= n < |d| && 0 <= h[1] < |d|
      requires heap[..] == h[top - 1 := n][top - 2 := h[1]][1 := node]
      requires heapMax == top - 2 && dl[..] == d[n := node][h[1] := node]
      requires Nodes(heap[..], heapLen, fc[..], depth[..]) && Ordered(heap[..], heapLen, fc[..], depth[..], 2)
      modifies heap
      ensures Queued(node + 1, symbols) && 1 <= heapLen < heapMax
      ensures SetAside(h, heapLen, top, node, heap[..], n)
    {
      hide Ordered, SetAside, Merging, Waiting;
      PqDownHeap(heap, heapLen, fc, depth, 1);
      PutPair(h, heapLen, top, elems, node, symbols, d, n, heap[..], heapMax, node + 1, dl[..]);
    }

    lemma FatherInFront(h: seq<int>, h': seq<int>, len: int, top: int, n: int, m: int, node: int,
                        f: seq<int>, dep: seq<int>, f': seq<int>, dep': seq<int>)
      requires |h| == HEAP_SIZE && 1 <= len < top - 2 && top <= HEAP_SIZE
      requires h' == h[top - 1 := n][top - 2 := m][1 := node]
      requires Nodes(h, len, f, dep) && Ordered(h, len, f, dep, 1)
      requires forall j :: 1 <= j <= len ==> 0 <= h[j] < node
      requires 0 <= node < |f| == |f'| && |dep| == |dep'|
      requires f' == f[node := f'[node]] && dep' == dep[node := dep'[node]]
      ensures Nodes(h', len, f', dep') && Ordered(h', len, f', dep', 2)
    {
      var h1 := h[top - 1 := n][top - 2 := m];
      SameTailSameOrder(h, h1, len, f, dep, 1);
      OrderedFrame(h1, len, f, dep, f', dep', 1);
      OrderedBelowFront(h1, len, f', dep', node, len);
    }

    lemma WaitingBelow(node: int, symbols: set<int>, n: int)
      requires Sized() && OneOut(heap[..], heapLen, heapMax, elems, node, symbols, dl[..], n)
      ensures forall j :: 1 <= j <= heapLen ==> 0 <= heap[j] < node
    {
      forall j | 1 <= j <= heapLen
        ensures 0 <= heap[j] < node
      {
        WaitingNode(heap[..], heapLen, j);
        OnceOnly(symbols, elems, node, heap[j]);
      }
    }

    /** Merges the two least nodes under a new one: the lightest, and of equally light ones the lowest, by the heights hs. */
    method MergeOnce(node: int, ghost symbols: set<int>, ghost hs: seq<int>) returns (ghost n: int, ghost m: int)
      requires Sized() && Queued(node, symbols) && heapLen >= 2 && elems <= node
      requires Leveled(heap[..], heapLen, heapMax, elems, node, symbols, fc[..], depth[..], hs)
      modifies this`heapLen, this`heapMax, heap, fc, dl, depth
      ensures Queued(node + 1, symbols) && heapLen == old(heapLen) - 1
      ensures Joined(old(heap[..]), old(heapLen), old(heapMax), node, old(fc[..]), heap[..], heapLen, heapMax, fc[..], n, m)
      ensures JoinedLow(old(heap[..]), old(heapLen), old(fc[..]), hs, n, m) && Smaller(old(fc[..]), old(depth[..]), n, m)
      ensures depth[..] == old(depth[..])[node := NotedDepth(old(depth[..])[n], old(depth[..])[m])]
      ensures forall v :: 0 <= v < elems && v !in symbols ==> dl[v] == old(dl[v])
    {
      hide Leveled, JoinedLow, Foremost, Lightest, SetAside, SameBack, Joined, Nodes, Ordered, Waiting;
      ghost var h0, len0, top0, f, dep := heap[..], heapLen, heapMax, fc[..], depth[..];
      var least := TakeLeast(node, symbols);
      assert fc[..] == f && depth[..] == dep;
      ghost var h := heap[..];
      FrontIsLightest(h, heapLen, f, dep);
      FrontIsForemost(h, heapLen, f, dep);
      WaitingNode(h, heapLen, 1);
      n, m := least, heap[1];
      JoinUnder(least, node, symbols, h, f);
      JoinedInTwo(h0, len0, top0, node, f, h, heap[..], heapLen, heapMax, fc[..], n);
      LowestTwo(h0, len0, top0, elems, node, symbols, f, dep, hs, h, n);
    }

    /** The state of the queue and the weights while merging. */
    ghost predicate Growing(node: int, symbols: set<int>, f0: seq<int>)
      reads this`heapLen, this`heapMax, heap, dl, fc, depth
    {
      && Queued(node, symbols)
      && Weighed(heap[..], heapLen, heapMax, elems, node, symbols, f0, fc[..])
      && exists hs :: Rising(heap[..], heapLen, heapMax, elems, node, symbols, f0, fc[..], depth[..], hs)
    }

    /** Merges the two least nodes, and keeps the account of the weights. */
    method MergeWeighed(node: int, ghost symbols: set<int>, ghost f0: seq<int>)
      requires Sized() && Growing(node, symbols, f0) && heapLen >= 2 && elems <= node
      modifies this`heapLen, this`heapMax, heap, fc, dl, depth
      ensures Growing(node + 1, symbols, f0) && heapLen == old(heapLen) - 1
      ensures fc[..elems] == old(fc[..elems])
      ensures forall v :: 0 <= v < elems && v !in symbols ==> dl[v] == old(dl[v])
    {
      hide Weighed, Nodes, Ordered, TreeBuilder.Queued, Leveled, Rising, JoinedLow, Smaller, Joined;
      ghost var h, len, top, f, dep := heap[..], heapLen, heapMax, fc[..], depth[..];
      ghost var hs :| Rising(h, len, top, elems, node, symbols, f0, f, dep, hs);
      RisingIsLeveled(h, len, top, elems, node, symbols, f0, f, dep, hs);
      ghost var n, m := MergeOnce(node, symbols, hs);
      JoinKeepsWeights(h, len, top, elems, node, symbols, f0, f, heap[..], heapLen, heapMax, node + 1, fc[..], n, m);
      JoinKeepsRising(h, len, top, elems, node, symbols, f0, f, dep, hs, heap[..], heapLen, heapMax, node + 1, fc[..], depth[..], n, m);
      JoinKeepsCounts(h, len, top, elems, node, f, heap[..], heapLen, heapMax, fc[..], n, m);
    }

    /** Merges until one node is left. */
    method MergeAll(ghost symbols: set<int>) returns (ghost node': int)
      requires Sized() && Growing(elems, symbols, fc[..]) && heapLen >= 2 && |symbols| >= 2
      modifies this`heapLen, this`heapMax, heap, fc, dl, depth
      ensures Growing(node', symbols, old(fc[..])) && heapLen == 1
      ensures fc[..elems] == old(fc[..elems])
      ensures forall v :: 0 <= v < elems && v !in symbols ==> dl[v] == old(dl[v])
    {
      hide TreeBuilder.Growing;
      var node := elems;
      while heapLen >= 2
        invariant Growing(node, symbols, old(fc[..])) && elems <= node && heapLen >= 1
        invariant fc[..elems] == old(fc[..elems])
        invariant forall v :: 0 <= v < elems && v !in symbols ==> dl[v] == old(dl[v])
        decreases heapLen
      {
        MergeWeighed(node, symbols, old(fc[..]));
        node := node + 1;
      }
      node' := node;
    }

    /** Puts the last node in front of the merged ones. */
    method CloseTree(ghost node: int, ghost symbols: set<int>, ghost f0: seq<int>)
      requires Sized() && Growing(node, symbols, f0) && heapLen == 1 && |symbols| >= 2
      modifies this`heapMax, heap
      ensures 0 <= heapMax < HEAP_SIZE && Tree(heap[heapMax..], elems, symbols, dl[..])
      ensures PairSums(heap[..], elems, fc[..], |symbols| - 1)
      ensures forall p :: heapMax <= p < HEAP_SIZE ==> 0 <= heap[p] < fc.Length
      ensures Descending(heap[..], heapMax, fc[..])
      ensures CostsAtLeast(symbols, f0, BackWeight(fc[..], heap[..], heapMax + 1))
      ensures Crowned(heap[..], heapMax, elems, |symbols| - 1, symbols, f0, BackWeight(fc[..], heap[..], heapMax + 1))
    {
      hide Weighed, Rising, Crowned, Tree, PairSums, Descending, CostsAtLeast, BackWeight, Nodes, Ordered;
      ghost var h, top := heap[..], heapMax;
      MergingEndsInTree(h, top, elems, node, symbols, dl[..]);
      heapMax := heapMax - 1;
      heap[heapMax] := heap[1];
      RootIsReady(h, top, elems, node, symbols, f0, fc[..], depth[..], heap[..]);
      assert heap[heapMax..] == [h[1]] + h[top..];
    }

    /** Collects the symbols that get a code. */
    method Collect(ghost f0: seq<int>, ghost counted: seq<int>, ghost forced: seq<int>, ghost symbols: seq<int>)
      requires Sized() && f0 == fc[..] && counted == Counted(f0, elems) && forced == Forced(counted)
      requires symbols == counted + forced
      modifies this, heap, depth, dl, fc
      ensures heapMax == HEAP_SIZE && 2 <= heapLen == |symbols| < HEAP_SIZE
      ensures heap[..][1..heapLen + 1] == symbols
      ensures fc[..] == Marked(f0, forced, 1) && forall s :: s in symbols ==> 0 <= s < elems && depth[s] == 0
      ensures maxCode in symbols && forall s :: s in symbols ==> s <= maxCode
      ensures forall v :: 0 <= v < elems && f0[v] == 0 ==> dl[v] == 0
      ensures optLen == old(optLen) - |forced|
      ensures staticLen == old(staticLen) - SumOver(staticLengths, forced)
    {
      hide Forcing, Marked, Increasing, Forced, CountedSymbols.Counted;
      CountedIncreases(f0, elems);
      Gather(f0);
      GatheringDone(f0, elems, heap[..], heapLen, maxCode, depth[..]);
      ghost var d := depth[..];
      ForceTwo(counted, forced, symbols);
      SymbolsAtBottom(f0, elems, d, depth[..]);
    }

    /** Queues the collected symbols. */
    method Enqueue(ghost symbols: seq<int>)
      requires Sized() && heapMax == HEAP_SIZE && 2 <= heapLen == |symbols| <= elems
      requires heap[..][1..heapLen + 1] == symbols && Distinct(symbols)
      requires forall s :: s in symbols ==> 0 <= s < elems && fc[s] >= 0 && depth[s] == 0
      modifies heap
      ensures Growing(elems, SetOf(symbols), fc[..])
    {
      ghost var h := heap[..];
      forall j | 1 <= j <= heapLen
        ensures 0 <= heap[j] < elems
      {
        assert heap[j] == heap[..][1..heapLen + 1][j - 1] == symbols[j - 1];
        assert symbols[j - 1] in symbols;
      }
      Heapify(heap, heapLen, fc, depth);
      StartMerging(h, heap[..], symbols, elems, dl[..]);
      StartWeights(heap[..], heapLen, elems, SetOf(symbols), fc[..]);
      StartLevels(heap[..], heapLen, elems, SetOf(symbols), fc[..], depth[..]);
    }

    /** The number of extra bits that follow the code of a symbol. */
    function Extra(n: int): int {
      if extraBase <= n < extraBase + |extraBits| then extraBits[n - extraBase] else 0
    }

    function StaticWithExtra(n: int): int {
      if staticLengths == [] then 0 else StaticLength(n) + Extra(n)
    }

    ghost function Extras(): seq<int>
      requires elems >= 0
    {
      seq(elems, i => Extra(i))
    }

    ghost function Statics(): seq<int>
      requires elems >= 0
    {
      seq(elems, i => StaticWithExtra(i))
    }

    /** The current state of the first pass. */
    ghost function PassNow(overflow: int): Pass
      reads dl, blCount, this`optLen, this`staticLen
    {
      Pass(dl[..], blCount[..], overflow, optLen, staticLen)
    }

    /** Counts a leaf and charges for it. */
    method CountLeaf(n: int, bits: int)
      requires Sized() && 0 <= n < elems && 0 <= bits <= maxLength
      modifies blCount, this`optLen, this`staticLen
      ensures blCount[..] == old(blCount[..])[bits := old(blCount[bits]) + 1]
      ensures optLen == old(optLen) + fc[n] * (bits + Extra(n))
      ensures staticLen == old(staticLen) + fc[n] * StaticWithExtra(n)
    {
      blCount[bits] := blCount[bits] + 1;
      var xbits := 0;
      if n >= extraBase {
        xbits := extraBits[n - extraBase];
      }
      var f := fc[n];
      optLen := optLen + f * (bits + xbits);
      if staticLengths != [] {
        staticLen := staticLen + f * (staticLengths[n] + xbits);
      }
    }

    /** Gives one more node its length, and counts it if it is a leaf. */
    method AssignOne(n: int, overflow: int, ghost f: seq<int>, ghost ex: seq<int>, ghost fx: seq<int>)
      returns (overflow': int)
      requires Sized() && f == fc[..] && ex == Extras() && fx == Statics()
      requires 0 <= n < fc.Length && 0 <= dl[n] < fc.Length
      requires (n > maxCode <==> n >= elems) && 0 <= dl[dl[n]]
      modifies dl, blCount, this`optLen, this`staticLen
      ensures PassStep(n, n < elems, maxLength, f, ex, fx, old(PassNow(overflow)), PassNow(overflow'))
    {
      overflow' := overflow;
      var bits := dl[dl[n]] + 1;
      if bits > maxLength {
        bits := maxLength;
        overflow' := overflow' + 1;
      }
      dl[n] := bits;
      if n > maxCode {
        return;
      }
      CountLeaf(n, bits);
    }

    method ClearCounts()
      requires Sized()
      modifies blCount
      ensures blCount[..] == seq(COUNTS, _ => 0)
    {
      var bits := 0;
      while bits <= MAX_BITS
        invariant 0 <= bits <= MAX_BITS + 1
        invariant forall b :: 0 <= b < bits ==> blCount[b] == 0
      {
        blCount[bits] := 0;
        bits := bits + 1;
      }
    }

    /** Starts the first pass at the root. */
    method AssignRoot(ghost order: seq<int>, ghost s: Shape, ghost f: seq<int>, ghost ex: seq<int>, ghost fx: seq<int>)
      requires Sized() && 0 <= heapMax < HEAP_SIZE && order == heap[heapMax..]
      requires Grown(order, s, elems, dl[..]) && Fits(order, s, f, ex, fx)
      modifies dl, blCount
      ensures Passed(order, s, maxLength, f, ex, fx,
                     Pass(old(dl[..]), seq(COUNTS, _ => 0), 0, optLen, staticLen), PassNow(0), 1)
    {
      ClearCounts();
      ghost var start := Pass(dl[..], blCount[..], 0, optLen, staticLen);
      dl[heap[heapMax]] := 0;
      PassBegins(order, s, elems, maxLength, f, ex, fx, start, PassNow(0));
    }

    method AssignNode(h: int, overflow: int, ghost order: seq<int>, ghost s: Shape, ghost start: Pass,
                      ghost f: seq<int>, ghost ex: seq<int>, ghost fx: seq<int>, ghost k: int, ghost k': int)
      returns (overflow': int)
      requires Sized() && 0 <= heapMax < h < HEAP_SIZE && order == heap[heapMax..] && h == heapMax + k && k' == k + 1
      requires f == fc[..] && ex == Extras() && fx == Statics()
      requires Grown(order, s, elems, start.dl) && Fits(order, s, f, ex, fx)
      requires maxCode < elems && forall j :: 0 <= j < |order| && order[j] < elems ==> order[j] <= maxCode
      requires Passed(order, s, maxLength, f, ex, fx, start, PassNow(overflow), k)
      modifies dl, blCount, this`optLen, this`staticLen
      ensures Passed(order, s, maxLength, f, ex, fx, start, PassNow(overflow'), k')
    {
      ghost var from := PassNow(overflow);
      assert heap[h] == order[k];
      assert Hung(order, s, start.dl, k);
      NextBits(order, s, maxLength, start.dl, dl[..], k);
      overflow' := AssignOne(heap[h], overflow, f, ex, fx);
      PassGoesOn(order, s, maxLength, f, ex, fx, start, from, PassNow(overflow'), k, heap[h], heap[h] < elems, k');
    }

    /** The first pass: every node gets its depth, cut off at the maximum; leaves are counted and charged for. */
    method AssignLengths(ghost order: seq<int>, ghost s: Shape, ghost f: seq<int>, ghost ex: seq<int>, ghost fx: seq<int>)
      returns (overflow: int)
      requires Sized() && 0 <= heapMax < HEAP_SIZE && order == heap[heapMax..]
      requires f == fc[..] && ex == Extras() && fx == Statics()
      requires Grown(order, s, elems, dl[..]) && Fits(order, s, f, ex, fx)
      requires maxCode < elems && forall j :: 0 <= j < |order| && order[j] < elems ==> order[j] <= maxCode
      modifies dl, blCount, this`optLen, this`staticLen
      ensures Passed(order, s, maxLength, f, ex, fx,
                     Pass(old(dl[..]), seq(COUNTS, _ => 0), 0, old(optLen), old(staticLen)), PassNow(overflow), |order|)
    {
      ghost var start := Pass(dl[..], seq(COUNTS, _ => 0), 0, optLen, staticLen);
      AssignRoot(order, s, f, ex, fx);
      overflow := 0;
      var h := heapMax + 1;
      ghost var k := 1;
      while h < HEAP_SIZE
        invariant heapMax < h <= HEAP_SIZE && h == heapMax + k
        invariant Passed(order, s, maxLength, f, ex, fx, start, PassNow(overflow), k)
      {
        ghost var k' := k + 1;
        overflow := AssignNode(h, overflow, order, s, start, f, ex, fx, k, k');
        h := h + 1;
        k := k';
      }
      assert k == |order|;
    }

    /** Gives the leaf in front of position h its new length, if there is a leaf. */
    method RecomputeOne(h: int, bits: int, ghost order: seq<int>, ghost s: Shape, ghost f: seq<int>, ghost d: seq<int>, ghost count: seq<int>,
                        ghost k: nat) returns (leaf: bool)
      requires Sized() && 0 <= heapMax < HEAP_SIZE && order == heap[heapMax..] && h == heapMax + k && k < |order|
      requires s.Size() == |order| && maxLength < |count| && Places(order, |f|) && NoRepeats(order) && d == dl[..] && |f| == |d|
      requires s.leaf[k] <==> order[k] <= maxCode
      requires Renewed(order, s, f, fc[..], d, count, maxLength, k + 1)
      requires s.leaf[k] ==> bits == NewLength(s, count, maxLength, k)
      modifies fc, this`optLen
      ensures leaf == s.leaf[k] && Renewed(order, s, f, fc[..], d, count, maxLength, k)
      ensures optLen == old(optLen) + Renewal(order, s, f, d, count, maxLength, k) - Renewal(order, s, f, d, count, maxLength, k + 1)
    {
      hide NewLength, Renewal, Renewed;
      ghost var fc0 := fc[..];
      var m := heap[h];
      assert m == order[k];
      leaf := m <= maxCode;
      if leaf && dl[m] != bits {
        RenewNext(order, s, f, fc0, d, count, maxLength, k, fc0[m := bits], bits);
        optLen := optLen + (bits - dl[m]) * fc[m];
        fc[m] := bits;
        assert fc[..] == fc0[m := bits];
      } else {
        RenewNext(order, s, f, fc0, d, count, maxLength, k, fc0, bits);
        assert leaf ==> (bits - d[m]) * f[m] == 0;
      }
    }

    /**
     Recomputes the lengths from the repaired counts, from the last leaf on. The new length of a leaf
     goes into its frequency, not into `dl`, which keeps the length that was cut off.
     */
    method Recompute(ghost order: seq<int>, ghost s: Shape, ghost f: seq<int>, ghost d: seq<int>, ghost count: seq<int>)
      requires Sized() && 0 <= heapMax < HEAP_SIZE && order == heap[heapMax..] && f == fc[..] && d == dl[..] && count == blCount[..]
      requires s.WellFormed() && s.Size() == |order| && Places(order, |f|) && NoRepeats(order)
      requires forall j :: 0 <= j < |order| ==> (s.leaf[j] <==> order[j] <= maxCode)
      requires count[0] == 0 && forall b :: 0 <= b <= maxLength ==> count[b] >= 0
      requires Total(count, maxLength + 1) == Leaves(s, |order|)
      modifies fc, this`optLen
      ensures Renewed(order, s, f, fc[..], d, count, maxLength, 0)
      ensures optLen == old(optLen) + Renewal(order, s, f, d, count, maxLength, 0)
    {
      hide Renewed, NewLength, Renewal;
      var h := HEAP_SIZE;
      ghost var k := |order|;
      NothingRenewed(order, s, f, d, count, maxLength);
      var bits := maxLength;
      while bits != 0
        invariant 0 <= bits <= maxLength && 0 <= k <= |order| && h == heapMax + k
        invariant Leaves(s, k) == Total(count, bits + 1)
        invariant Renewed(order, s, f, fc[..], d, count, maxLength, k)
        invariant optLen == old(optLen) + Renewal(order, s, f, d, count, maxLength, k)
        decreases bits
      {
        var n := blCount[bits];
        TotalIsNatural(count, bits);
        while n != 0
          invariant 0 <= n <= count[bits] && 0 <= k <= |order| && h == heapMax + k
          invariant Leaves(s, k) == Total(count, bits) + n && Total(count, bits) >= 0
          invariant Renewed(order, s, f, fc[..], d, count, maxLength, k)
          invariant optLen == old(optLen) + Renewal(order, s, f, d, count, maxLength, k)
          decreases k
        {
          assert k > 0;
          h := h - 1;
          k := k - 1;
          NextLength(s, count, maxLength, k, bits, n);
          var leaf := RecomputeOne(h, bits, order, s, f, d, count, k);
          if leaf {
            n := n - 1;
          }
        }
        bits := bits - 1;
      }
      assert Total(count, 1) == 0;
      RenewalEnds(order, s, f, fc[..], d, count, maxLength, k);
    }

    /** Turns the tree into code lengths; returns how many nodes lie below the maximal length. */
    method GenBitlen(ghost order: seq<int>, ghost s: Shape, ghost f: seq<int>, ghost ex: seq<int>, ghost fx: seq<int>)
      returns (overlong: int)
      requires Sized() && 0 <= heapMax < HEAP_SIZE && order == heap[heapMax..] && |order| <= 2 * elems - 1
      requires f == fc[..] && ex == Extras() && fx == Statics()
      requires Grown(order, s, elems, dl[..]) && Fits(order, s, f, ex, fx)
      requires maxCode < elems && forall j :: 0 <= j < |order| && order[j] < elems ==> order[j] <= maxCode
      modifies dl, blCount, fc, this`optLen, this`staticLen
      ensures overlong == Deep(s, maxLength, |order|)
      ensures Assigned(order, s, maxLength, old(dl[..]), dl[..], |order|)
      ensures Kraft(blCount[..], maxLength, maxLength + 1) == Pow2(maxLength) && NaturalCounts(blCount[..])
      ensures overlong == 0 ==> fc[..] == f && blCount[..] == Histogram(s, maxLength, |order|)
      ensures overlong == 0 ==> optLen == old(optLen) + BitCost(order, s, maxLength, f, ex, |order|)
      ensures overlong > 0 ==> blCount[..] == Repaired(Histogram(s, maxLength, |order|), maxLength, overlong)
      ensures overlong > 0 ==> optLen == old(optLen) + BitCost(order, s, maxLength, f, ex, |order|)
                                         + Renewal(order, s, f, dl[..], blCount[..], maxLength, 0)
      ensures staticLen == old(staticLen) + FlatCost(order, s, f, fx, |order|)
    {
      hide BitCost, FlatCost, Renewal, Renewed, Histogram, Kraft, Pow2, Deep, Assigned;
      GrownHasNoRepeats(order, s, elems, dl[..]);
      overlong := AssignLengths(order, s, f, ex, fx);
      CountsOfTree(s, maxLength);
      if overlong == 0 {
        return;
      }
      HistogramWeighsLeaves(s, maxLength, |order|);
      RepairCounts(blCount, maxLength, overlong);
      Recompute(order, s, f, dl[..], blCount[..]);
    }

    /** Queues the counted and forced symbols. */
    method GrowQueue(ghost f0: seq<int>, ghost counted: seq<int>, ghost forced: seq<int>, ghost symbols: seq<int>, ghost f1: seq<int>)
      requires Sized() && f0 == fc[..] && counted == Counted(f0, elems) && forced == Forced(counted)
      requires symbols == counted + forced && f1 == Marked(f0, forced, 1)
      requires forall v :: 0 <= v < elems ==> f0[v] >= 0
      modifies this, heap, depth, dl, fc
      ensures Growing(elems, SetOf(symbols), f1) && fc[..] == f1 && heapLen == |symbols| >= 2
      ensures maxCode in symbols && forall s :: s in symbols ==> s <= maxCode
      ensures forall v :: 0 <= v < elems && f0[v] == 0 ==> dl[v] == 0
      ensures optLen == old(optLen) - |forced|
      ensures staticLen == old(staticLen) - SumOver(staticLengths, forced)
    {
      SymbolsInRange(f0, elems);
      Collect(f0, counted, forced, symbols);
      Enqueue(symbols);
    }

    /** Merges the queue into a tree. */
    method GrowTree(ghost symbols: seq<int>, ghost f1: seq<int>)
      requires Sized() && Growing(elems, SetOf(symbols), f1) && fc[..] == f1 && heapLen == |symbols| >= 2
      requires Distinct(symbols) && maxCode in symbols && forall v :: v in symbols ==> 0 <= v <= maxCode < elems
      requires forall v :: 0 <= v < elems && v !in symbols ==> dl[v] == 0 && f1[v] == 0
      modifies this`heapLen, this`heapMax, heap, fc, dl, depth
      ensures 0 <= heapMax < HEAP_SIZE && Ripe(heap[..], heapMax, elems, symbols, f1, fc[..], dl[..], maxCode)
    {
      hide Tree, PairSums, CostsAtLeast, BackWeight, Weighed, Ordered, Nodes, Crowned;
      DistinctToSet(symbols);
      assert |symbols| <= elems;
      hide TreeBuilder.Growing;
      ghost var node := MergeAll(SetOf(symbols));
      assert forall v :: 0 <= v < elems ==> fc[..elems][v] == f1[..elems][v];
      CloseTree(node, SetOf(symbols), f1);
    }

    /** Turns the tree into code lengths. */
    method MeasureTree(ghost symbols: seq<int>, ghost f1: seq<int>, ghost ex: seq<int>, ghost fx: seq<int>)
      returns (overlong: int, ghost order: seq<int>, ghost w: seq<int>)
      requires Sized() && Ripe(heap[..], heapMax, elems, symbols, f1, fc[..], dl[..], maxCode)
      requires 0 <= heapMax < HEAP_SIZE && 0 <= maxCode < elems && ex == Extras() && fx == Statics()
      modifies dl, blCount, fc, this`optLen, this`staticLen
      ensures Measured(symbols, elems, maxLength, f1, dl[..], overlong, order, w)
      ensures Kraft(blCount[..], maxLength, maxLength + 1) == Pow2(maxLength) && NaturalCounts(blCount[..])
      ensures staticLen == old(staticLen) + Price(f1, fx, elems)
      ensures optLen == old(optLen) + Price(f1, WithExtra(Charged(order, elems, maxLength, dl[..], overlong), ex), elems)
      ensures overlong == 0 ==> Codable(blCount[..], dl[..][..maxCode + 1], MAX_BITS)
    {
      hide Ripe, Measured, Grown, Fits, Assigned, Kraft, NaturalCounts, Codable, Price, WithExtra, Pow2, ShapeOf, Charged, Renewal, BitCost,
           FlatCost, Repaired, Histogram, Deep;
      ghost var h, f, d := heap[..], fc[..], dl[..];
      order := h[heapMax..];
      ghost var s := ShapeOf(order, elems);
      RipeIsGrown(h, heapMax, elems, symbols, f1, f, d, maxCode, order, ex, fx);
      overlong := GenBitlen(order, s, f, ex, fx);
      MeasuredTree(h, heapMax, elems, maxLength, symbols, f1, f, d, maxCode, order, s, dl[..], ex, fx);
      w := WeightsOf(order, f);
    }

    /** Turns the tree into lengths and codes. */
    method FinishTree(ghost symbols: seq<int>, ghost f1: seq<int>, ghost ex: seq<int>, ghost fx: seq<int>)
      returns (overlong: int, ghost order: seq<int>, ghost w: seq<int>)
      requires Sized() && Ripe(heap[..], heapMax, elems, symbols, f1, fc[..], dl[..], maxCode)
      requires 0 <= heapMax < HEAP_SIZE && 0 <= maxCode < elems && ex == Extras() && fx == Statics()
      modifies dl, blCount, fc, this`optLen, this`staticLen
      ensures Measured(symbols, elems, maxLength, f1, dl[..], overlong, order, w)
      ensures Kraft(blCount[..], maxLength, maxLength + 1) == Pow2(maxLength)
      ensures staticLen == old(staticLen) + Price(f1, fx, elems)
      ensures optLen == old(optLen) + Price(f1, WithExtra(Charged(order, elems, maxLength, dl[..], overlong), ex), elems)
      ensures overlong == 0 ==> Codable(blCount[..], dl[..][..maxCode + 1], MAX_BITS)
      ensures CodesSet(dl[..], fc[..], blCount[..], maxCode)
    {
      hide Ripe, Codable, Charged, Huffman, CutLengths;
      overlong, order, w := MeasureTree(symbols, f1, ex, fx);
      ghost var d, c := dl[..], blCount[..];
      ghost var lens := d[..maxCode + 1];
      GenCodes(dl, fc, blCount, maxCode, c, lens);
      assert dl[..] == d && blCount[..] == c;
    }

    /**
     Builds the tree for the counts in `fc` and leaves lengths in `dl` and codes in `fc`.
     Returns how many nodes of the tree lie deeper than the maximal length, and the tree.
     */
    method BuildTree(ghost f0: seq<int>, ghost symbols: seq<int>, ghost f1: seq<int>)
      returns (overlong: int, ghost order: seq<int>, ghost w: seq<int>)
      requires Sized() && f0 == fc[..] && (forall v :: 0 <= v < elems ==> f0[v] >= 0)
      requires symbols == Symbols(f0, elems) && f1 == Marked(f0, Forced(Counted(f0, elems)), 1)
      requires forall x :: 0 <= x < 3 ==> Extra(x) == 0
      modifies this, heap, depth, dl, fc, blCount
      ensures 0 <= maxCode < elems && Measured(symbols, elems, maxLength, f1, dl[..], overlong, order, w)
      ensures maxCode in symbols && forall v :: v in symbols ==> v <= maxCode
      ensures Kraft(blCount[..], maxLength, maxLength + 1) == Pow2(maxLength)
      ensures staticLen == old(staticLen) + Price(f0, Statics(), elems)
      ensures optLen == old(optLen) + Price(f0, WithExtra(Charged(order, elems, maxLength, dl[..], overlong), Extras()), elems)
      ensures overlong == 0 ==> Codable(blCount[..], dl[..][..maxCode + 1], MAX_BITS)
      ensures CodesSet(dl[..], fc[..], blCount[..], maxCode)
    {
      hide Growing, Ripe, Measured, Codable, CodesSet, CountedSymbols.Symbols, Charged;
      ghost var counted := Counted(f0, elems);
      ghost var forced, ex, fx := Forced(counted), Extras(), Statics();
      QueuedSymbols(f0, elems, symbols, counted, forced);
      GrowQueue(f0, counted, forced, symbols, f1);
      GrowTree(symbols, f1);
      overlong, order, w := FinishTree(symbols, f1, ex, fx);
      ForcedPrice(f0, elems, maxLength, dl[..], ex, forced, f1, overlong, order, w);
      ForcedFixedPrice(f0, elems, fx, staticLengths, forced, f1);
    }
  }
}
