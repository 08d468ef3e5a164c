/** Which symbols get a code: the counted ones, and forced ones when there are fewer than two. */
module CountedSymbols {
  import opened HuffmanMerge

  /** The symbols below n that have been counted, in order. */
  function Counted(fc: seq<int>, n: nat): (r: seq<int>)
    requires n <= |fc|
    ensures |r| <= n
    ensures forall i :: 0 <= i < |r| ==> 0 <= r[i] < n
  {
    if n == 0 then [] else if fc[n - 1] != 0 then Counted(fc, n - 1) + [n - 1] else Counted(fc, n - 1)
  }

  ghost predicate Increasing(s: seq<int>) {
    forall i, j :: 0 <= i < j < |s| ==> s[i] < s[j]
  }

  lemma {:induction false} CountedIncreases(fc: seq<int>, n: nat)
    requires n <= |fc|
    ensures Increasing(Counted(fc, n))
    decreases n
  {
    if n > 0 {
      CountedIncreases(fc, n - 1);
    }
  }

  lemma {:induction false} CountedExactly(fc: seq<int>, n: nat, s: int)
    requires n <= |fc|
    ensures s in Counted(fc, n) <==> 0 <= s < n && fc[s] != 0
    decreases n
  {
    if n > 0 {
      CountedExactly(fc, n - 1, s);
    }
  }

  /** The symbols added when fewer than two have been counted. */
  function Forced(counted: seq<int>): seq<int> {
    if |counted| >= 2 then []
    else if |counted| == 0 then [0, 1]
    else if counted[0] < 2 then [counted[0] + 1]
    else [0]
  }

  /** The symbols that get a code. */
  function Symbols(fc: seq<int>, n: nat): seq<int>
    requires n <= |fc|
  {
    Counted(fc, n) + Forced(Counted(fc, n))
  }

  ghost predicate Distinct(s: seq<int>) {
    forall i, j :: 0 <= i < j < |s| ==> s[i] != s[j]
  }

  function SetOf(s: seq<int>): set<int> {
    set x | x in s
  }

  lemma {:induction false} DistinctToSet(s: seq<int>)
    requires Distinct(s)
    ensures multiset(s) == multiset(SetOf(s)) && |SetOf(s)| == |s|
    decreases |s|
  {
    if s != [] {
      var init, last := s[..|s| - 1], s[|s| - 1];
      DistinctToSet(init);
      assert s == init + [last];
      assert last !in init;
      assert SetOf(s) == SetOf(init) + {last};
    }
  }

  lemma SymbolsAreDistinct(counted: seq<int>)
    requires Increasing(counted)
    requires |counted| > 0 ==> 0 <= counted[0]
    ensures Distinct(counted + Forced(counted))
  {
  }

  lemma SymbolsInRange(fc: seq<int>, n: nat)
    requires 3 <= n <= |fc|
    ensures forall s :: s in Symbols(fc, n) ==> 0 <= s < n
    ensures 2 <= |Symbols(fc, n)| <= n && Distinct(Symbols(fc, n))
    ensures forall s :: 0 <= s < n && fc[s] != 0 ==> s in Symbols(fc, n)
  {
    var counted := Counted(fc, n);
    CountedIncreases(fc, n);
    SymbolsAreDistinct(counted);
    forall s | 0 <= s < n && fc[s] != 0
      ensures s in counted
    {
      CountedExactly(fc, n, s);
    }
  }

  lemma QueuedSymbols(fc: seq<int>, n: nat, symbols: seq<int>, counted: seq<int>, forced: seq<int>)
    requires 3 <= n <= |fc| && symbols == Symbols(fc, n) && counted == Counted(fc, n) && forced == Forced(counted)
    ensures symbols == counted + forced && Distinct(symbols) && forall v :: v in symbols ==> 0 <= v < n
    ensures forall v :: 0 <= v < n && v !in symbols ==> fc[v] == 0 && Marked(fc, forced, 1)[v] == 0
  {
    SymbolsInRange(fc, n);
  }

  /** The symbols waiting in any order are ready to be merged. */
  lemma StartMerging(h: seq<int>, h': seq<int>, symbols: seq<int>, elems: int, dl: seq<int>)
    requires |h| == |h'| == HEAP_SIZE && 3 <= elems <= 286 && |dl| == 2 * elems + 1
    requires 1 <= |symbols| <= elems && h[1..|symbols| + 1] == symbols && Distinct(symbols)
    requires multiset(h') == multiset(h) && h'[0] == h[0] && forall i :: |symbols| < i < HEAP_SIZE ==> h'[i] == h[i]
    requires forall s :: s in symbols ==> 0 <= s < elems
    ensures Merging(h', |symbols|, HEAP_SIZE, elems, elems, SetOf(symbols), dl)
    ensures Waiting(h', |symbols|) == multiset(SetOf(symbols))
  {
    DistinctToSet(symbols);
    SinkKeepsWaiting(h, h', |symbols|);
    assert h'[HEAP_SIZE..] == [];
  }

  /** The heap array holds the counted symbols below n, and the largest of them is known. */
  ghost predicate Gathered(fc: seq<int>, n: int, h: seq<int>, len: int, maxCode: int) {
    && 0 <= n <= |fc| && 0 <= len <= n && len < |h|
    && h[1..len + 1] == Counted(fc, n)
    && maxCode == (if len == 0 then -1 else h[len])
  }

  lemma GatherStep(fc: seq<int>, n: int, n': int, h: seq<int>, len: int, maxCode: int, h': seq<int>, len': int, maxCode': int)
    requires Gathered(fc, n, h, len, maxCode) && n < |fc| && n' == n + 1 && len + 1 < |h|
    requires fc[n] != 0 ==> len' == len + 1 && h' == h[len + 1 := n] && maxCode' == n
    requires fc[n] == 0 ==> len' == len && h' == h && maxCode' == maxCode
    ensures Gathered(fc, n', h', len', maxCode')
  {
    if fc[n] != 0 {
      assert h'[1..len' + 1] == h[1..len + 1] + [n];
    }
  }

  lemma GatheringDone(fc: seq<int>, n: int, h: seq<int>, len: int, maxCode: int, depth: seq<int>)
    requires Gathered(fc, n, h, len, maxCode)
    ensures |Counted(fc, n)| == len
    ensures Forcing(Counted(fc, n), 0, h, maxCode, fc, fc, depth, depth)
  {
    var counted := Counted(fc, n);
    assert |counted| > 0 ==> counted[|counted| - 1] == h[len];
    assert Forced(counted)[..0] == [];
  }

  /** `f` with the value v at every place listed in s. */
  function Marked(f: seq<int>, s: seq<int>, v: int): (r: seq<int>)
    ensures |r| == |f|
    ensures forall i :: 0 <= i < |f| ==> r[i] == if i in s then v else f[i]
  {
    if s == [] then f
    else
      var r := Marked(f, s[..|s| - 1], v);
      assert s == s[..|s| - 1] + [s[|s| - 1]];
      if 0 <= s[|s| - 1] < |f| then r[s[|s| - 1] := v] else r
  }

  function SumOver(f: seq<int>, s: seq<int>): int {
    if s == [] then 0
    else SumOver(f, s[..|s| - 1]) + (if 0 <= s[|s| - 1] < |f| then f[s[|s| - 1]] else 0)
  }

  lemma SumOverStep(f: seq<int>, s: seq<int>, k: int)
    requires 0 <= k < |s|
    ensures SumOver(f, s[..k + 1]) == SumOver(f, s[..k]) + (if 0 <= s[k] < |f| then f[s[k]] else 0)
  {
    assert s[..k + 1][..k] == s[..k];
  }

  /** After k forced symbols: the heap, the largest symbol, the frequencies and the depths. */
  ghost predicate Forcing(counted: seq<int>, k: int, h: seq<int>, maxCode: int,
                          fc0: seq<int>, fc: seq<int>, depth0: seq<int>, depth: seq<int>)
  {
    && 0 <= k <= |Forced(counted)| && |counted| + k < |h|
    && h[1..|counted| + k + 1] == counted + Forced(counted)[..k]
    && maxCode == LargestAfter(counted, k)
    && fc == Marked(fc0, Forced(counted)[..k], 1)
    && depth == Marked(depth0, Forced(counted)[..k], 0)
  }

  function LargestAfter(counted: seq<int>, k: int): int
    requires 0 <= k <= |Forced(counted)|
  {
    if |counted| == 0 then k - 1
    else if |counted| >= 2 then counted[|counted| - 1]
    else if k == 1 && counted[0] < 2 then counted[0] + 1
    else counted[0]
  }

  function NextForced(maxCode: int): int {
    if maxCode < 2 then maxCode + 1 else 0
  }

  lemma MarkedStep(f: seq<int>, s: seq<int>, k: nat, v: int)
    requires k < |s| && 0 <= s[k] < |f|
    ensures Marked(f, s[..k + 1], v) == Marked(f, s[..k], v)[s[k] := v]
  {
    assert s[..k + 1][..k] == s[..k];
  }

  lemma ForceStep(counted: seq<int>, k: int, h: seq<int>, maxCode: int,
                  fc0: seq<int>, fc: seq<int>, depth0: seq<int>, depth: seq<int>)
    requires Forcing(counted, k, h, maxCode, fc0, fc, depth0, depth) && |counted| + k < 2
    requires |fc0| >= 3 && |depth0| >= 3 && |h| >= 4 && (|counted| == 1 ==> 0 <= counted[0])
    ensures var x := NextForced(maxCode);
            && k < |Forced(counted)| && x == Forced(counted)[k]
            && Forcing(counted, k + 1, h[|counted| + k + 1 := x], if maxCode < 2 then x else maxCode,
                       fc0, fc[x := 1], depth0, depth[x := 0])
  {
    hide Marked;
    var forced := Forced(counted);
    assert forced[..k + 1] == forced[..k] + [forced[k]];
    MarkedStep(fc0, forced, k, 1);
    MarkedStep(depth0, forced, k, 0);
    var n, x := |counted| + k + 1, NextForced(maxCode);
    assert h[n := x][1..n + 1] == h[1..n] + [x];
  }

  lemma ForcingRange(counted: seq<int>, k: int, h: seq<int>, maxCode: int,
                     fc0: seq<int>, fc: seq<int>, depth0: seq<int>, depth: seq<int>, elems: int)
    requires Forcing(counted, k, h, maxCode, fc0, fc, depth0, depth) && elems >= 3
    requires forall i :: 0 <= i < |counted| ==> 0 <= counted[i] < elems
    ensures -1 <= maxCode < elems
  {
  }

  lemma {:induction false} ForcingDone(counted: seq<int>, k: int, h: seq<int>, maxCode: int,
                    fc0: seq<int>, fc: seq<int>, depth0: seq<int>, depth: seq<int>)
    requires Forcing(counted, k, h, maxCode, fc0, fc, depth0, depth) && |counted| + k >= 2
    requires Increasing(counted)
    requires |counted| > 0 ==> counted[0] >= 0
    ensures k == |Forced(counted)| && Forced(counted)[..k] == Forced(counted)
    ensures |counted + Forced(counted)| == |counted| + k < |h| && h[1..|counted| + k + 1] == counted + Forced(counted)
    ensures fc == Marked(fc0, Forced(counted), 1) && depth == Marked(depth0, Forced(counted), 0)
    ensures maxCode in counted + Forced(counted)
    ensures forall s :: s in counted + Forced(counted) ==> s <= maxCode
  {
    var all := counted + Forced(counted);
    assert all[|all| - 1] in all && all[0] in all;
  }

  /** Counted symbols and forced ones have depth 0. */
  lemma SymbolsAtBottom(f: seq<int>, elems: nat, depth0: seq<int>, depth: seq<int>)
    requires 3 <= elems <= |f| && elems <= |depth0| && forall v :: 0 <= v < elems && f[v] != 0 ==> depth0[v] == 0
    requires depth == Marked(depth0, Forced(Counted(f, elems)), 0)
    ensures forall s :: s in Counted(f, elems) + Forced(Counted(f, elems)) ==> 0 <= s < elems && depth[s] == 0
  {
    SymbolsInRange(f, elems);
    forall s | s in Counted(f, elems)
      ensures f[s] != 0
    {
      CountedExactly(f, elems, s);
    }
  }
}
