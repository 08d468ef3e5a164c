/**
 The priority queue of the tree builder: `heap[1..heapLen]` holds tree nodes, the least
 frequent one in front; ties go to the shallower subtree.
 */
module HuffmanHeap {

  /** `zip_SMALLER`: by frequency first, by depth second. */
  predicate Smaller(fc: seq<int>, depth: seq<int>, n: int, m: int)
    requires 0 <= n < |fc| && 0 <= m < |fc| && |fc| <= |depth|
  {
    fc[n] < fc[m] || (fc[n] == fc[m] && depth[n] <= depth[m])
  }

  /** All entries are nodes of the tree. */
  ghost predicate Nodes(h: seq<int>, len: int, fc: seq<int>, depth: seq<int>) {
    && 0 <= len < |h| && |fc| <= |depth|
    && forall j :: 1 <= j <= len ==> 0 <= h[j] < |fc|
  }

  ghost predicate InOrder(h: seq<int>, len: int, fc: seq<int>, depth: seq<int>, j: int)
    requires Nodes(h, len, fc, depth) && 2 <= j <= len
  {
    Smaller(fc, depth, h[j / 2], h[j])
  }

  /** Every father from position `lo` on is smaller than its sons. */
  ghost predicate Ordered(h: seq<int>, len: int, fc: seq<int>, depth: seq<int>, lo: int)
    requires Nodes(h, len, fc, depth)
  {
    forall j :: 2 <= j <= len && 2 * lo <= j ==> InOrder(h, len, fc, depth, j)
  }

  /** The front of an ordered heap is a least element. */
  lemma {:induction false} FrontIsLeast(h: seq<int>, len: int, fc: seq<int>, depth: seq<int>, j: int)
    requires Nodes(h, len, fc, depth) && Ordered(h, len, fc, depth, 1) && 1 <= j <= len
    ensures Smaller(fc, depth, h[1], h[j])
    decreases j
  {
    if j > 1 {
      FrontIsLeast(h, len, fc, depth, j / 2);
      assert InOrder(h, len, fc, depth, j);
    }
  }

  /** The heap with a hole at k, into which v is going to fall. */
  ghost predicate OrderedButHole(h: seq<int>, len: int, fc: seq<int>, depth: seq<int>, lo: int, k: int, v: int)
    requires Nodes(h, len, fc, depth)
  {
    && 1 <= lo <= k <= len && 0 <= v < |fc|
    && (forall j :: 2 <= j <= len && 2 * lo <= j && j / 2 != k && j != k ==> InOrder(h, len, fc, depth, j))
    && (k > lo ==> k / 2 >= lo && Smaller(fc, depth, h[k / 2], v))
    && (k > lo ==> forall c :: k == c / 2 && c <= len ==> Smaller(fc, depth, h[k / 2], h[c]))
  }

  lemma HoleMoves(h: seq<int>, len: int, fc: seq<int>, depth: seq<int>, lo: int, k: int, v: int, j: int)
    requires Nodes(h, len, fc, depth) && OrderedButHole(h, len, fc, depth, lo, k, v)
    requires j / 2 == k && j <= len
    requires forall c :: k == c / 2 && c <= len ==> Smaller(fc, depth, h[j], h[c])
    requires !Smaller(fc, depth, v, h[j])
    ensures Nodes(h[k := h[j]], len, fc, depth)
    ensures OrderedButHole(h[k := h[j]], len, fc, depth, lo, j, v)
  {
    var h' := h[k := h[j]];
    forall i | 2 <= i <= len && 2 * lo <= i && i / 2 != j && i != j
      ensures InOrder(h', len, fc, depth, i)
    {
      if i / 2 == k {
        assert Smaller(fc, depth, h[j], h[i]);
      } else if i == k {
        assert Smaller(fc, depth, h[k / 2], h[j]);
      } else {
        assert InOrder(h, len, fc, depth, i);
      }
    }
    forall c | j == c / 2 && c <= len
      ensures Smaller(fc, depth, h'[j / 2], h'[c])
    {
      assert InOrder(h, len, fc, depth, c);
    }
  }

  lemma HoleFilled(h: seq<int>, len: int, fc: seq<int>, depth: seq<int>, lo: int, k: int, v: int)
    requires Nodes(h, len, fc, depth) && OrderedButHole(h, len, fc, depth, lo, k, v)
    requires forall c :: k == c / 2 && c <= len ==> Smaller(fc, depth, v, h[c])
    ensures Nodes(h[k := v], len, fc, depth)
    ensures Ordered(h[k := v], len, fc, depth, lo)
  {
    var h' := h[k := v];
    forall j | 2 <= j <= len && 2 * lo <= j
      ensures InOrder(h', len, fc, depth, j)
    {
      if j / 2 == k {
        assert Smaller(fc, depth, v, h[j]);
      } else if j != k {
        assert InOrder(h, len, fc, depth, j);
      }
    }
  }

  lemma HoleKeepsElements(h: seq<int>, k: int, j: int, v: int)
    requires 0 <= k < |h| && 0 <= j < |h| && j != k
    ensures multiset(h[k := h[j]][j := v]) == multiset(h[k := v])
  {
  }

  /** The smaller of the two sons of k. */
  method SmallestSon(heap: array<int>, heapLen: int, fc: array<int>, depth: array<int>, k: int) returns (j: int)
    requires Nodes(heap[..], heapLen, fc[..], depth[..]) && 1 <= k && 2 * k <= heapLen
    ensures j / 2 == k && j <= heapLen
    ensures forall c :: k == c / 2 && c <= heapLen ==> Smaller(fc[..], depth[..], heap[j], heap[c])
  {
    j := 2 * k;
    var left := heap[j];
    if j < heapLen {
      var right := heap[j + 1];
      if fc[right] < fc[left] || (fc[right] == fc[left] && depth[right] <= depth[left]) {
        j := j + 1;
      }
    }
  }

  /** `v`, taken from position `lo` of `h0`, is on its way down and has come to position k. */
  ghost predicate Sinking(h: seq<int>, h0: seq<int>, len: int, fc: seq<int>, depth: seq<int>, lo: int, k: int, v: int) {
    && |h| == |h0|
    && Nodes(h, len, fc, depth)
    && OrderedButHole(h, len, fc, depth, lo, k, v)
    && multiset(h[k := v]) == multiset(h0)
    && forall i :: 0 <= i < |h| && (i < lo || i > len) ==> h[i] == h0[i]
  }

  lemma StartSinking(h: seq<int>, len: int, fc: seq<int>, depth: seq<int>, lo: int)
    requires Nodes(h, len, fc, depth) && 1 <= lo <= len && Ordered(h, len, fc, depth, lo + 1)
    ensures Sinking(h, h, len, fc, depth, lo, lo, h[lo])
  {
    assert h[lo := h[lo]] == h;
    forall i | 2 <= i <= len && 2 * lo <= i && i / 2 != lo && i != lo
      ensures InOrder(h, len, fc, depth, i)
    {
    }
  }

  /** One exchange with the smallest son, unless the node is smaller than both. */
  method SinkOnce(heap: array<int>, heapLen: int, fc: array<int>, depth: array<int>, k: int, v: int,
                  ghost h0: seq<int>, ghost lo: int) returns (k': int, stop: bool)
    requires heap != fc && heap != depth
    requires Sinking(heap[..], h0, heapLen, fc[..], depth[..], lo, k, v) && 2 * k <= heapLen
    modifies heap
    ensures Sinking(heap[..], h0, heapLen, fc[..], depth[..], lo, k', v)
    ensures stop ==> forall c :: k' == c / 2 && c <= heapLen ==> Smaller(fc[..], depth[..], v, heap[c])
    ensures !stop ==> k < k' <= heapLen
  {
    var j := SmallestSon(heap, heapLen, fc, depth, k);
    if fc[v] < fc[heap[j]] || (fc[v] == fc[heap[j]] && depth[v] <= depth[heap[j]]) {
      return k, true;
    }
    ghost var h := heap[..];
    HoleMoves(h, heapLen, fc[..], depth[..], lo, k, v, j);
    HoleKeepsElements(h, k, j, v);
    heap[k] := heap[j];
    assert heap[..] == h[k := h[j]];
    return j, false;
  }

  /** `zip_pqdownheap`: moves the node at `k0` down to where the order is restored. */
  method PqDownHeap(heap: array<int>, heapLen: int, fc: array<int>, depth: array<int>, k0: int)
    requires heap != fc && heap != depth
    requires Nodes(heap[..], heapLen, fc[..], depth[..]) && 1 <= k0 <= heapLen
    requires Ordered(heap[..], heapLen, fc[..], depth[..], k0 + 1)
    modifies heap
    ensures Nodes(heap[..], heapLen, fc[..], depth[..])
    ensures Ordered(heap[..], heapLen, fc[..], depth[..], k0)
    ensures multiset(heap[..]) == multiset(old(heap[..]))
    ensures forall i :: 0 <= i < heap.Length && (i < k0 || i > heapLen) ==> heap[i] == old(heap[i])
  {
    var k := k0;
    var v := heap[k];
    var stop := false;
    ghost var h0 := heap[..];
    StartSinking(h0, heapLen, fc[..], depth[..], k0);
    while 2 * k <= heapLen && !stop
      invariant Sinking(heap[..], h0, heapLen, fc[..], depth[..], k0, k, v)
      invariant stop ==> forall c :: k == c / 2 && c <= heapLen ==> Smaller(fc[..], depth[..], v, heap[c])
      decreases !stop, heapLen - k
    {
      k, stop := SinkOnce(heap, heapLen, fc, depth, k, v, h0, k0);
    }
    ghost var h := heap[..];
    HoleFilled(h, heapLen, fc[..], depth[..], k0, k, v);
    heap[k] := v;
    assert heap[..] == h[k := v];
  }

  /** Order only depends on the frequencies and depths of the nodes that are waiting. */
  lemma OrderedFrame(h: seq<int>, len: int, fc: seq<int>, depth: seq<int>, fc': seq<int>, depth': seq<int>, lo: int)
    requires Nodes(h, len, fc, depth) && Ordered(h, len, fc, depth, lo)
    requires |fc'| == |fc| && |depth'| == |depth|
    requires forall j :: 1 <= j <= len ==> fc'[h[j]] == fc[h[j]] && depth'[h[j]] == depth[h[j]]
    ensures Nodes(h, len, fc', depth') && Ordered(h, len, fc', depth', lo)
  {
    forall j | 2 <= j <= len && 2 * lo <= j
      ensures InOrder(h, len, fc', depth', j)
    {
      assert InOrder(h, len, fc, depth, j);
    }
  }

  /** Giving up the last place and putting anything in front leaves the sons of the front in order. */
  lemma OrderedBelowFront(h: seq<int>, len: int, fc: seq<int>, depth: seq<int>, x: int, len': int)
    requires Nodes(h, len, fc, depth) && Ordered(h, len, fc, depth, 1)
    requires 1 <= len' <= len && 0 <= x < |fc|
    ensures Nodes(h[1 := x], len', fc, depth) && Ordered(h[1 := x], len', fc, depth, 2)
  {
    var h' := h[1 := x];
    forall j | 2 <= j <= len' && 4 <= j
      ensures InOrder(h', len', fc, depth, j)
    {
      assert InOrder(h, len, fc, depth, j);
    }
  }

  lemma SameTailSameOrder(h: seq<int>, h': seq<int>, len: int, fc: seq<int>, depth: seq<int>, lo: int)
    requires Nodes(h, len, fc, depth) && Ordered(h, len, fc, depth, lo)
    requires |h'| == |h| && forall j :: 1 <= j <= len ==> h'[j] == h[j]
    ensures Nodes(h', len, fc, depth) && Ordered(h', len, fc, depth, lo)
  {
    forall j | 2 <= j <= len && 2 * lo <= j
      ensures InOrder(h', len, fc, depth, j)
    {
      assert InOrder(h, len, fc, depth, j);
    }
  }

  /** Builds the heap from its leaves upwards. */
  method Heapify(heap: array<int>, heapLen: int, fc: array<int>, depth: array<int>)
    requires heap != fc && heap != depth
    requires Nodes(heap[..], heapLen, fc[..], depth[..])
    modifies heap
    ensures Nodes(heap[..], heapLen, fc[..], depth[..])
    ensures Ordered(heap[..], heapLen, fc[..], depth[..], 1)
    ensures multiset(heap[..]) == multiset(old(heap[..]))
    ensures heap[0] == old(heap[0]) && forall i :: heapLen < i < heap.Length ==> heap[i] == old(heap[i])
  {
    var n := heapLen / 2;
    while n >= 1
      invariant 0 <= n <= heapLen / 2
      invariant Nodes(heap[..], heapLen, fc[..], depth[..])
      invariant Ordered(heap[..], heapLen, fc[..], depth[..], n + 1)
      invariant multiset(heap[..]) == multiset(old(heap[..]))
      invariant heap[0] == old(heap[0]) && forall i :: heapLen < i < heap.Length ==> heap[i] == old(heap[i])
    {
      PqDownHeap(heap, heapLen, fc, depth, n);
      n := n - 1;
    }
  }
}
