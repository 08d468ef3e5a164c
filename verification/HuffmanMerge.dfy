/**
 What merging leaves in the heap array: nodes still to be merged in front, merged nodes at
 the back in pairs, the father of every pair known from where the pair lies.
 */
module HuffmanMerge {

  const HEAP_SIZE := 573

  /** The nodes waiting in the queue. */
  function Waiting(h: seq<int>, len: int): multiset<int>
    requires 0 <= len < |h|
  {
    multiset(h[1..len + 1])
  }

  /** The nodes already merged. */
  function Merged(h: seq<int>, top: int): multiset<int>
    requires 0 <= top <= |h|
  {
    multiset(h[top..])
  }

  /** The numbers from lo up to, not including, hi. */
  function Ids(lo: int, hi: int): (r: set<int>)
    ensures forall x :: x in r <==> lo <= x < hi
    decreases hi - lo
  {
    if lo >= hi then {} else Ids(lo, hi - 1) + {hi - 1}
  }

  /** The father of the pair that position p of the array belongs to. */
  function Father(elems: int, p: int): int {
    elems + (HEAP_SIZE - 1 - p) / 2
  }

  ghost predicate MergedOk(h: seq<int>, elems: int, dl: seq<int>, p: int)
    requires 0 <= p < |h|
  {
    && 0 <= h[p] < |dl| && dl[h[p]] == Father(elems, p)
    && (h[p] >= elems ==> p < HEAP_SIZE - 2 - 2 * (h[p] - elems))
  }

  /**
   After `node - elems` merges: every symbol and every new node is waiting or merged, exactly
   once; merged nodes lie in pairs, know their father, and were created before their own pair.
   */
  ghost predicate Merging(h: seq<int>, len: int, top: int, elems: int, node: int, symbols: set<int>, dl: seq<int>) {
    && |h| == HEAP_SIZE && 3 <= elems <= 286 && |dl| == 2 * elems + 1
    && (forall s :: s in symbols ==> 0 <= s < elems)
    && elems <= node && 1 <= len && len + (node - elems) == |symbols| <= elems
    && top == HEAP_SIZE - 2 * (node - elems)
    && Waiting(h, len) + Merged(h, top) == multiset(symbols) + multiset(Ids(elems, node))
    && forall p :: top <= p < HEAP_SIZE ==> MergedOk(h, elems, dl, p)
  }

  lemma OnceOnly(symbols: set<int>, elems: int, node: int, x: int)
    requires forall s :: s in symbols ==> 0 <= s < elems
    ensures (multiset(symbols) + multiset(Ids(elems, node)))[x] <= 1
    ensures x in multiset(symbols) + multiset(Ids(elems, node)) <==> x in symbols || elems <= x < node
  {
  }

  /** A sink that keeps the elements of the whole array and its tail keeps what is waiting. */
  lemma SinkKeepsWaiting(h: seq<int>, h': seq<int>, len: int)
    requires |h| == |h'| && 0 <= len < |h| && multiset(h) == multiset(h')
    requires h'[0] == h[0] && forall i :: len < i < |h| ==> h'[i] == h[i]
    ensures Waiting(h', len) == Waiting(h, len)
  {
    assert h == h[..1] + h[1..len + 1] + h[len + 1..];
    assert h' == h'[..1] + h'[1..len + 1] + h'[len + 1..];
    assert h[..1] == h'[..1] && h[len + 1..] == h'[len + 1..];
    assert multiset(h) == multiset(h[..1]) + Waiting(h, len) + multiset(h[len + 1..]);
    assert multiset(h') == multiset(h'[..1]) + Waiting(h', len) + multiset(h'[len + 1..]);
    forall x
      ensures Waiting(h', len)[x] == Waiting(h, len)[x]
    {
      assert multiset(h)[x] == multiset(h')[x];
    }
  }

  lemma WaitingNode(h: seq<int>, len: int, j: int)
    requires 1 <= j <= len < |h|
    ensures h[j] in Waiting(h, len)
  {
    assert h[j] == h[1..len + 1][j - 1];
  }

  lemma MergedNode(h: seq<int>, top: int, p: int)
    requires 0 <= top <= p < |h|
    ensures h[p] in Merged(h, top)
  {
    assert h[p] == h[top..][p - top];
  }

  lemma WaitingRange(h: seq<int>, len: int, top: int, elems: int, node: int, symbols: set<int>, dl: seq<int>, j: int)
    requires Merging(h, len, top, elems, node, symbols, dl) && 1 <= j <= len
    ensures 0 <= h[j] < node && (h[j] in symbols || elems <= h[j])
  {
    WaitingNode(h, len, j);
    OnceOnly(symbols, elems, node, h[j]);
  }

  /** The state after the front has been taken out and the last node has sunk in its place. */
  ghost predicate OneOut(h: seq<int>, len: int, top: int, elems: int, node: int, symbols: set<int>, dl: seq<int>, n: int) {
    && |h| == HEAP_SIZE && 3 <= elems <= 286 && |dl| == 2 * elems + 1
    && (forall s :: s in symbols ==> 0 <= s < elems)
    && elems <= node && 1 <= len && len + 1 + (node - elems) == |symbols| <= elems
    && top == HEAP_SIZE - 2 * (node - elems)
    && multiset{n} + Waiting(h, len) + Merged(h, top) == multiset(symbols) + multiset(Ids(elems, node))
    && forall p :: top <= p < HEAP_SIZE ==> MergedOk(h, elems, dl, p)
  }

  lemma FrontOut(h: seq<int>, len: int, h': seq<int>)
    requires |h| == |h'| == HEAP_SIZE && 2 <= len < HEAP_SIZE && multiset(h') == multiset(h[1 := h[len]])
    requires h'[0] == h[0] && forall i :: len - 1 < i < HEAP_SIZE ==> h'[i] == h[i]
    ensures multiset{h[1]} + Waiting(h', len - 1) == Waiting(h, len)
  {
    var h1 := h[1 := h[len]];
    SinkKeepsWaiting(h1, h', len - 1);
    assert h[1..len + 1] == [h[1]] + h[2..len] + [h[len]];
    assert h1[1..len] == [h[len]] + h[2..len];
  }

  lemma TakeFront(h: seq<int>, len: int, top: int, elems: int, node: int, symbols: set<int>, dl: seq<int>, h': seq<int>)
    requires Merging(h, len, top, elems, node, symbols, dl) && 2 <= len
    requires |h'| == HEAP_SIZE && multiset(h') == multiset(h[1 := h[len]])
    requires h'[0] == h[0] && forall i :: len - 1 < i < HEAP_SIZE ==> h'[i] == h[i]
    ensures OneOut(h', len - 1, top, elems, node, symbols, dl, h[1])
    ensures multiset{h[1]} + Waiting(h', len - 1) == Waiting(h, len)
  {
    FrontOut(h, len, h');
    assert Merged(h', top) == Merged(h, top) by { assert h'[top..] == h[top..]; }
    hide Waiting, Merged, Ids;
    forall p | top <= p < HEAP_SIZE
      ensures MergedOk(h', elems, dl, p)
    {
      assert MergedOk(h, elems, dl, p);
    }
  }

  lemma PairIsNew(h: seq<int>, len: int, top: int, elems: int, node: int, symbols: set<int>, dl: seq<int>, n: int)
    requires OneOut(h, len, top, elems, node, symbols, dl, n)
    ensures n != h[1] && n !in Merged(h, top) && h[1] !in Merged(h, top)
    ensures 0 <= n < node && 0 <= h[1] < node
    ensures (n in symbols || n >= elems) && (h[1] in symbols || h[1] >= elems)
  {
    WaitingNode(h, len, 1);
    OnceOnly(symbols, elems, node, n);
    OnceOnly(symbols, elems, node, h[1]);
  }

  /** The arrays agree from position `top` on. */
  ghost predicate SameBack(h: seq<int>, h': seq<int>, top: int)
    requires |h| == |h'| == HEAP_SIZE && 0 <= top
  {
    forall p :: top <= p < HEAP_SIZE ==> h'[p] == h[p]
  }

  /** n and the front have been put aside, and a new node waits in place of the front. */
  ghost predicate SetAside(h: seq<int>, len: int, top: int, node: int, h': seq<int>, n: int)
    requires |h| == |h'| == HEAP_SIZE && 1 <= len < top - 2 && top <= HEAP_SIZE
  {
    && Waiting(h', len) + multiset{h[1]} == Waiting(h, len) + multiset{node}
    && h'[top - 1] == n && h'[top - 2] == h[1]
    && SameBack(h, h', top)
  }

  lemma {:induction false} PairKeepsNodes(h: seq<int>, len: int, top: int, elems: int, node: int, symbols: set<int>, n: int, h': seq<int>)
    requires |h| == |h'| == HEAP_SIZE && 1 <= len < top - 2 && top <= HEAP_SIZE && 0 <= elems <= node
    requires multiset{n} + Waiting(h, len) + Merged(h, top) == multiset(symbols) + multiset(Ids(elems, node))
    requires multiset(h') == multiset(h[top - 1 := n][top - 2 := h[1]][1 := node])
    requires h'[0] == h[0] && h'[top - 1] == n && h'[top - 2] == h[1]
    requires forall i :: len < i < HEAP_SIZE && i != top - 1 && i != top - 2 ==> h'[i] == h[i]
    ensures Waiting(h', len) + Merged(h', top - 2) == multiset(symbols) + multiset(Ids(elems, node + 1))
    ensures SetAside(h, len, top, node, h', n)
  {
    var rest := multiset(h[2..len + 1]);
    assert Waiting(h, len) == multiset{h[1]} + rest by {
      assert h[1..len + 1] == [h[1]] + h[2..len + 1];
    }
    assert Waiting(h', len) == multiset{node} + rest by {
      var h1 := h[top - 1 := n][top - 2 := h[1]][1 := node];
      SinkKeepsWaiting(h1, h', len);
      assert h1[1..len + 1] == [node] + h[2..len + 1];
    }
    assert Merged(h', top - 2) == multiset{h[1], n} + Merged(h, top) by {
      assert h'[top - 2..] == [h[1], n] + h[top..];
    }
    OneMoreId(elems, node);
    Regroup(rest, Merged(h, top), multiset(symbols) + multiset(Ids(elems, node)), h[1], n, node);
  }

  lemma Regroup(rest: multiset<int>, back: multiset<int>, all: multiset<int>, m: int, n: int, node: int)
    requires multiset{n} + (multiset{m} + rest) + back == all
    ensures (multiset{node} + rest) + (multiset{m, n} + back) == all + multiset{node}
  {
    assert multiset{m, n} == multiset{m} + multiset{n};
  }

  lemma OneMoreId(elems: int, node: int)
    requires elems <= node
    ensures multiset(Ids(elems, node + 1)) == multiset(Ids(elems, node)) + multiset{node}
  {
  }

  /** The state after n and the new front have been put aside under a new father. */
  lemma PutPair(h: seq<int>, len: int, top: int, elems: int, node: int, symbols: set<int>, dl: seq<int>, n: int,
                h': seq<int>, top': int, node': int, dl': seq<int>)
    requires OneOut(h, len, top, elems, node, symbols, dl, n) && 0 <= n < |dl| && 0 <= h[1] < |dl|
    requires |h'| == HEAP_SIZE && multiset(h') == multiset(h[top - 1 := n][top - 2 := h[1]][1 := node])
    requires h'[0] == h[0] && h'[top - 1] == n && h'[top - 2] == h[1]
    requires forall i :: len < i < HEAP_SIZE && i != top - 1 && i != top - 2 ==> h'[i] == h[i]
    requires top' == top - 2 && node' == node + 1 && dl' == dl[n := node][h[1] := node]
    ensures Merging(h', len, top', elems, node', symbols, dl')
    ensures SetAside(h, len, top, node, h', n)
  {
    PairIsNew(h, len, top, elems, node, symbols, dl, n);
    PairKeepsNodes(h, len, top, elems, node, symbols, n, h');
    forall p | top' <= p < HEAP_SIZE
      ensures MergedOk(h', elems, dl', p)
    {
      if p >= top {
        assert MergedOk(h, elems, dl, p);
        MergedNode(h, top, p);
      }
    }
  }
}
