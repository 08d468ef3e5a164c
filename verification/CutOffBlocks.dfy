/** When the lengths of a code are cut off: an input for which they are, and how small a block must be to be safe. */
module CutOffBlocks {
  import opened Sums
  import opened Lz77Format
  import opened CountedSymbols
  import opened CanonicalCodes
  import opened BlockCost
  import opened CodeLengthRuns
  import opened HuffmanShape
  import opened CodeLengths
  import opened TreeSpec
  import opened DeepTrees
  import opened FibonacciCounts
  import opened DeflateTables
  import opened BlockFormat
  import opened BlockTrees
  import opened TokenBuffer
  import opened BuiltTree
  import opened FixedCodes
  import opened LimitedCodes
  import opened BlockFlush

  lemma {:induction false} DeepNodeCounts(s: Shape, max: nat, k: nat, j: nat)
    requires s.WellFormed() && j < k <= s.Size() && s.Depth(j) > max
    ensures Deep(s, max, k) > 0
    decreases k
  {
    if j < k - 1 {
      DeepNodeCounts(s, max, k - 1, j);
    }
  }

  /** Lengths are cut off exactly if a node of the tree lies deeper than the limit. */
  lemma {:induction false} CutOffIffDeep(r: BuiltCode, freq: seq<int>, elems: int, max: nat, extra: seq<int>, order: seq<int>, w: seq<int>, f: seq<int>)
    requires 3 <= elems <= |freq| && elems <= |r.dl| && |extra| == elems && 1 <= max <= MAX_BITS
    requires GrownFrom(r, freq, elems, max, extra, order, w, f)
    ensures ShapeOf(order, elems).WellFormed() && ShapeOf(order, elems).Size() == |order|
    ensures r.overlong > 0 <==> exists j: nat :: j < |order| && ShapeOf(order, elems).Depth(j) > max
  {
    var s := ShapeOf(order, elems);
    HuffmanIsTree(order, w, elems, SetOf(Symbols(freq, elems)), f);
    if r.overlong > 0 {
      var x := SomeDeepNode(s, max, |order|);
    }
    if j: nat :| j < |order| && s.Depth(j) > max {
      DeepNodeCounts(s, max, |order|, j);
    }
  }

  /** Lengths are cut off exactly if no prefix code within the limit is a cheapest one for the counts. */
  lemma {:induction false} CutOffExactly(r: BuiltCode, freq: seq<int>, elems: int, max: nat, extra: seq<int>, order: seq<int>, w: seq<int>, f: seq<int>)
    requires 3 <= elems <= |freq| && elems <= |r.dl| && |extra| == elems && 1 <= max <= MAX_BITS
    requires GrownFrom(r, freq, elems, max, extra, order, w, f)
    ensures r.overlong > 0 <==> !KeepsLimit(SetOf(Symbols(freq, elems)), f, max)
  {
    hide Huffman, CutLengths, KeepsLimit, Symbols, Shape.WellFormed, Shape.Depth, ShapeOf;
    CutOffIffDeep(r, freq, elems, max, extra, order, w, f);
    LimitIsKept(order, w, elems, SetOf(Symbols(freq, elems)), f, max);
  }

  /** The symbols `names`, and no others, have been counted: 1, 1, 2, 3, 5 and so on. */
  ghost predicate CountFibonacci(names: seq<int>, freq: seq<int>, elems: int) {
    && elems <= |freq| && Distinct(names)
    && (forall i :: 0 <= i < |names| ==> 0 <= names[i] < elems && freq[names[i]] == Fib(i + 1))
    && (forall v :: 0 <= v < elems && v !in names ==> freq[v] == 0)
  }

  lemma FibonacciSymbols(names: seq<int>, freq: seq<int>, elems: nat)
    requires CountFibonacci(names, freq, elems) && |names| >= 2
    ensures SetOf(Symbols(freq, elems)) == SetOf(names) && TreeCounts(freq, elems) == freq
  {
    var counted := CountedSymbols.Counted(freq, elems);
    forall v
      ensures v in counted <==> v in names
    {
      CountedExactly(freq, elems, v);
    }
    assert names[0] != names[1] && names[0] in counted && names[1] in counted;
    assert |counted| >= 2;
    assert TreeCounts(freq, elems) == freq;
    assert Symbols(freq, elems) == counted;
  }

  /** Every code built from max + 2 Fibonacci counts is cut off, however ties between equal counts are resolved. */
  lemma {:induction false} FibonacciIsCutOff(r: BuiltCode, freq: seq<int>, elems: int, max: nat, extra: seq<int>, names: seq<int>)
    requires 3 <= elems <= |freq| && elems <= |r.dl| && |extra| == elems && 1 <= max <= MAX_BITS && HasTree(r, freq, elems, max, extra)
    requires CountFibonacci(names, freq, elems) && |names| >= max + 2
    ensures r.overlong > 0
  {
    hide Huffman, CutLengths, Symbols, TreeCounts;
    var order, w, f :| GrownFrom(r, freq, elems, max, extra, order, w, f);
    FibonacciSymbols(names, freq, elems);
    assert FibTree(order, w, elems, names, f);
    FibonacciIsChain(order, w, elems, names, f, ShapeOf(order, elems), 0);
    CutOffIffDeep(r, freq, elems, max, extra, order, w, f);
    assert ShapeOf(order, elems).Depth(IndexOf(order, names[0])) > max;
  }

  lemma FibonacciNumbers()
    ensures Fib(15) == 610 && Fib(16) == 987 && Fib(17) == 1597 && Fib(18) == 2584 && Fib(19) == 4181
  {
    assert Fib(7) == 13 && Fib(8) == 21;
    assert Fib(13) == 233 && Fib(14) == 377;
    assert Fib(16) == 987 && Fib(17) == 1597;
  }

  lemma TrioHasTrees(t: Trio, f: seq<int>, g: seq<int>, h: seq<int>)
    requires t.From(f, g, h)
    ensures L_CODES <= |f| && L_CODES <= |t.l.dl| && |LitExtras()| == L_CODES && HasTree(t.l, f, L_CODES, MAX_BITS, LitExtras())
    ensures D_CODES <= |g| && D_CODES <= |t.d.dl| && |DistExtras()| == D_CODES && HasTree(t.d, g, D_CODES, MAX_BITS, DistExtras())
    ensures BL_CODES <= |h| && BL_CODES <= |t.b.dl| && |RunExtras()| == BL_CODES && HasTree(t.b, h, BL_CODES, MAX_BL_BITS, RunExtras())
  {
    hide HasTree, BuiltLengths, RunsCounted, FixedLens, FixedDists, Ends;
  }

  lemma {:induction false} TreeCountsKept(freq: seq<int>, elems: nat)
    requires 3 <= elems <= |freq| && |SetOf(Symbols(freq, elems))| != 2
    ensures TreeCounts(freq, elems) == freq && forall v :: 0 <= v < elems ==> (v in SetOf(Symbols(freq, elems)) <==> freq[v] != 0)
  {
    CountedSymbols.SymbolsInRange(freq, elems);
    DistinctToSet(Symbols(freq, elems));
    forall v | 0 <= v < elems
      ensures v in CountedSymbols.Counted(freq, elems) <==> freq[v] != 0
    {
      CountedExactly(freq, elems, v);
    }
  }

  /** A code whose counts add up to less than Fib(max + 3) is never cut off. */
  lemma {:induction false} LightIsNotCutOff(r: BuiltCode, freq: seq<int>, elems: int, max: nat, extra: seq<int>)
    requires 3 <= elems <= |freq| && elems <= |r.dl| && |extra| == elems && 1 <= max <= MAX_BITS && HasTree(r, freq, elems, max, extra)
    requires (forall v :: 0 <= v < elems ==> freq[v] >= 0) && Sum(freq, elems) < Fib(max + 3)
    ensures r.overlong == 0
  {
    hide Huffman, Symbols, TreeCounts, Fib, Sum, Deep, Charged;
    var order, w, f :| GrownFrom(r, freq, elems, max, extra, order, w, f);
    var symbols, s := SetOf(Symbols(freq, elems)), ShapeOf(order, elems);
    HuffmanIsTree(order, w, elems, symbols, f);
    if |symbols| == 2 {
      TwoAreNotDeep(s, max);
    } else if r.overlong > 0 {
      TreeCountsKept(freq, elems);
      SymbolsAreCounted(order, w, elems, symbols, f);
      DeepTreeIsHeavy(order, w, elems, symbols, f, max);
      RootCountsAll(order, w, elems, symbols, f);
      SumFrame(f, freq, elems);
    }
  }

  lemma SymbolsAreCounted(order: seq<int>, w: seq<int>, elems: int, symbols: set<int>, f: seq<int>)
    requires Huffman(order, w, elems, symbols, f)
    ensures forall v :: v in symbols ==> 0 <= v < elems && v < |f|
  {
  }

  lemma {:induction false} OneMoreCounted(f: seq<int>, g: seq<int>, n: nat, s: int)
    requires n <= |f| && n <= |g| && 0 <= s < n && forall v :: 0 <= v < n ==> g[v] == f[v] + if v == s then 1 else 0
    ensures Sum(g, n) == Sum(f, n) + 1
  {
    SumUpdate(f, n, s, f[s] + 1);
    SumFrame(g, f[s := f[s] + 1], n);
  }

  /** All tokens are counted once, as literals or lengths. */
  lemma {:induction false} LitCountsAddUp(tables: Tables, ts: seq<Token>, k: nat, f: seq<int>)
    requires tables.Valid() && TokensOk(ts) && k <= |ts| && |f| >= L_CODES
    requires forall s :: 0 <= s < L_CODES ==> f[s] == LitCount(tables, ts, k, s)
    ensures Sum(f, L_CODES) == k
    decreases k
  {
    hide CoversLength, CoversDist, CoversStretch, LitSymbol;
    if k == 0 {
      SumOfZeros(f, L_CODES);
    } else {
      var before := seq(L_CODES, s => LitCount(tables, ts, k - 1, s));
      LitCountsAddUp(tables, ts, k - 1, before);
      TokenBuffer.SymbolsInRange(tables, ts[k - 1]);
      OneMoreCounted(before, f, L_CODES, LitSymbol(tables, ts[k - 1]));
    }
  }

  /** No more distances than tokens are counted. */
  lemma {:induction false} DistCountsAddUp(tables: Tables, ts: seq<Token>, k: nat, f: seq<int>)
    requires tables.Valid() && TokensOk(ts) && k <= |ts| && |f| >= D_CODES
    requires forall s :: 0 <= s < D_CODES ==> f[s] == DistCount(tables, ts, k, s)
    ensures Sum(f, D_CODES) <= k
    decreases k
  {
    hide CoversLength, CoversDist, CoversStretch, DistSymbol;
    if k == 0 {
      SumOfZeros(f, D_CODES);
    } else {
      var before := seq(D_CODES, s => DistCount(tables, ts, k - 1, s));
      DistCountsAddUp(tables, ts, k - 1, before);
      TokenBuffer.SymbolsInRange(tables, ts[k - 1]);
      if ts[k - 1].Match? {
        OneMoreCounted(before, f, D_CODES, DistSymbol(tables, ts[k - 1]));
      } else {
        SumFrame(before, f, D_CODES);
      }
    }
  }

  /** In a block of fewer than 2583 tokens only the code of the lengths themselves can be cut off. */
  lemma {:induction false} SmallBlockIsKept(t: Trio, tables: Tables, ts: seq<Token>)
    requires TreesOf(t, tables, ts) && |ts| + 1 < 2584
    ensures t.l.overlong == 0 && t.d.overlong == 0
  {
    hide Tables.Valid, HasTree, LitExtras, DistExtras, RunExtras, Trio.From, Fib;
    FibonacciNumbers();
    var f, g, h :| LitsCounted(tables, ts, f) && DistsCounted(tables, ts, g) && t.From(f, g, h);
    TrioHasTrees(t, f, g, h);
    LitCountsAddUp(tables, ts, |ts|, f[END_BLOCK := f[END_BLOCK] - 1]);
    SumUpdate(f, L_CODES, END_BLOCK, f[END_BLOCK] - 1);
    LightIsNotCutOff(t.l, f, L_CODES, MAX_BITS, LitExtras());
    DistCountsAddUp(tables, ts, |ts|, g);
    LightIsNotCutOff(t.d, g, D_CODES, MAX_BITS, DistExtras());
  }
}
