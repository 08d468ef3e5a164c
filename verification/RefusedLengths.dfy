/** What the trees of the refused text are: its lengths are those of the plan, and the code of the lengths is cut off. */
module RefusedLengths {
  import opened Arithmetic
  import opened Sums
  import opened CanonicalCodes
  import opened CountedSymbols
  import opened HuffmanShape
  import opened CodeLengths
  import opened TreeSymbols
  import opened TreeSpec
  import opened DeepTrees
  import opened DyadicCounts
  import opened DeflateTables
  import opened BlockFormat
  import opened CodeLengthRuns
  import opened BlockCost
  import opened BlockTrees
  import opened TokenBuffer
  import opened FixedCodes
  import opened StoredBlocks
  import opened BlockFlush
  import opened BlockPrices
  import opened CutOffBlocks
  import opened StretchRuns
  import opened LengthPlan
  import opened RefusedText

  /** The counts are powers of two, by lengths up to k, and add up to 2 to the k. */
  ghost predicate DyadicTable(freq: seq<int>, e: seq<int>, elems: int, k: nat) {
    && 0 <= elems <= |freq| && |e| == elems && Sum(freq, elems) == Pow2(k)
    && forall v :: 0 <= v < elems ==> 0 <= e[v] <= k && freq[v] == if e[v] == 0 then 0 else Pow2(k - e[v])
  }

  /** Where at least two symbols are counted, they are the symbols of the tree, with their counts. */
  lemma CountedAreSymbols(freq: seq<int>, elems: nat, a: int, b: int)
    requires elems <= |freq| && 0 <= a < b < elems && freq[a] != 0 && freq[b] != 0
    ensures TreeCounts(freq, elems) == freq && forall v :: v in SetOf(Symbols(freq, elems)) <==> 0 <= v < elems && freq[v] != 0
  {
    var counted := CountedSymbols.Counted(freq, elems);
    forall v
      ensures v in counted <==> 0 <= v < elems && freq[v] != 0
    {
      CountedExactly(freq, elems, v);
    }
    assert a in counted && b in counted;
    assert |counted| >= 2;
    assert Symbols(freq, elems) == counted;
  }

  /** Every code built from dyadic counts has the lengths that the counts say. */
  lemma {:induction false} DyadicLengths(r: BuiltCode, freq: seq<int>, elems: int, max: nat, extra: seq<int>, e: seq<int>, k: nat, a: int, b: int)
    requires 3 <= elems <= |freq| && elems <= |r.dl| && |extra| == elems && 1 <= max <= MAX_BITS && HasTree(r, freq, elems, max, extra)
    requires DyadicTable(freq, e, elems, k) && k <= max && 0 <= a < b < elems && e[a] > 0 && e[b] > 0
    ensures forall v :: 0 <= v < elems ==> r.dl[v] == e[v]
  {
    hide Pow2, Huffman, Symbols, TreeCounts, Shape.WellFormed, Shape.Depth;
    var order, w, f :| GrownFrom(r, freq, elems, max, extra, order, w, f);
    var symbols, s := SetOf(Symbols(freq, elems)), ShapeOf(order, elems);
    CountedAreSymbols(freq, elems, a, b);
    var plan := seq(|f|, v requires 0 <= v < |f| => if v < elems then e[v] else 0);
    SumFrame(f, freq, elems);
    assert Dyadic(symbols, f, plan, elems, k);
    DyadicDepths(order, w, elems, symbols, f, plan, k, s);
    HuffmanHasNoRepeats(order, w, elems, symbols, f);
    forall v | 0 <= v < elems
      ensures r.dl[v] == e[v]
    {
      if v in order {
        var j := IndexOf(order, v);
        assert s.leaf[j] && s.Depth(j) == e[v];
      }
    }
  }

  /** In a tree of two symbols both have one bit. */
  lemma {:induction false} TwoLengths(order: seq<int>, w: seq<int>, elems: int, symbols: set<int>, f: seq<int>, max: nat, dl: seq<int>,
                                      overlong: int, v: int)
    requires Huffman(order, w, elems, symbols, f) && |symbols| == 2 && v in symbols && max >= 1
    requires ShapeOf(order, elems).WellFormed() && CutLengths(order, elems, max, dl, overlong)
    ensures 0 <= v < |dl| && dl[v] == 1
  {
    HuffmanIsTree(order, w, elems, symbols, f);
    HuffmanHasNoRepeats(order, w, elems, symbols, f);
    SymbolsInside(order, w, elems, symbols, f);
    hide Huffman, Shape.Depth, Shape.WellFormed, ParentIndex, KidIndex;
    var j, s := IndexOf(order, v), ShapeOf(order, elems);
    assert s.leaf[j];
    SonOfRoot(s, j);
  }

  /** Where nothing is counted, two symbols of one bit are forced. */
  lemma {:induction false} ForcedLengths(r: BuiltCode, freq: seq<int>, elems: int, max: nat, extra: seq<int>)
    requires 3 <= elems <= |freq| && elems <= |r.dl| && |extra| == elems && 1 <= max <= MAX_BITS && HasTree(r, freq, elems, max, extra)
    requires forall v :: 0 <= v < elems ==> freq[v] == 0
    ensures Symbols(freq, elems) == [0, 1] && r.dl[0] == 1 && r.dl[1] == 1
  {
    NothingCounted(freq, elems);
    var symbols := ForcedSet(freq, elems);
    hide *;
    var order, w, f := SomeTree(r, freq, elems, max, extra);
    TwoLengths(order, w, elems, symbols, f, max, r.dl, r.overlong, 0);
    TwoLengths(order, w, elems, symbols, f, max, r.dl, r.overlong, 1);
  }

  lemma ForcedSet(freq: seq<int>, elems: nat) returns (symbols: set<int>)
    requires elems <= |freq| && Symbols(freq, elems) == [0, 1]
    ensures symbols == SetOf(Symbols(freq, elems)) && |symbols| == 2 && 0 in symbols && 1 in symbols
  {
    symbols := {0, 1};
  }

  lemma SomeTree(r: BuiltCode, freq: seq<int>, elems: int, max: nat, extra: seq<int>) returns (order: seq<int>, w: seq<int>, f: seq<int>)
    requires 3 <= elems <= |freq| && elems <= |r.dl| && |extra| == elems && 1 <= max <= MAX_BITS && HasTree(r, freq, elems, max, extra)
    ensures Huffman(order, w, elems, SetOf(Symbols(freq, elems)), f)
    ensures ShapeOf(order, elems).WellFormed() && CutLengths(order, elems, max, r.dl, r.overlong)
  {
    hide Huffman, Symbols, TreeCounts, CutLengths, Charged, Price, WithExtra, SetOf;
    order, w, f :| GrownFrom(r, freq, elems, max, extra, order, w, f);
    HuffmanIsTree(order, w, elems, SetOf(Symbols(freq, elems)), f);
  }

  lemma {:induction false} NothingCounted(freq: seq<int>, elems: nat)
    requires elems <= |freq| && forall v :: 0 <= v < elems ==> freq[v] == 0
    ensures CountedSymbols.Counted(freq, elems) == [] && Symbols(freq, elems) == [0, 1]
  {
    var counted := CountedSymbols.Counted(freq, elems);
    if counted != [] {
      CountedExactly(freq, elems, counted[0]);
    }
  }

  lemma SonOfRoot(s: Shape, j: nat)
    requires s.WellFormed() && s.Size() == 3 && !s.leaf[0] && j < 3 && s.leaf[j]
    ensures s.Depth(j) == 1
  {
    assert s.BranchesWell(0);
    assert s.HangsWell(1) && s.HangsWell(2);
    assert s.Depth(0) == 0;
  }

  /** The largest symbol with a length is one of the tree. */
  lemma LargestSymbol(r: BuiltCode, freq: seq<int>, elems: int, max: nat, extra: seq<int>, fixed: seq<int>)
    requires Built(r, freq, elems, max, extra, fixed)
    ensures 0 <= r.maxCode < elems <= |freq| && elems <= |r.dl| && r.maxCode in Symbols(freq, elems)
    ensures forall v :: r.maxCode < v < elems ==> r.dl[v] == 0
  {
    hide HasTree, CodesFit;
  }

  lemma TrioSymbols(t: Trio, f: seq<int>, g: seq<int>, h: seq<int>)
    requires t.From(f, g, h)
    ensures 0 <= t.l.maxCode < L_CODES <= |f| && L_CODES <= |t.l.dl| && t.l.maxCode in Symbols(f, L_CODES)
    ensures forall v :: t.l.maxCode < v < L_CODES ==> t.l.dl[v] == 0
    ensures 0 <= t.d.maxCode < D_CODES <= |g| && D_CODES <= |t.d.dl| && t.d.maxCode in Symbols(g, D_CODES)
    ensures forall v :: t.d.maxCode < v < D_CODES ==> t.d.dl[v] == 0
  {
    hide Built, RunsCounted, Ends, StaticTable, LitExtras, DistExtras, RunExtras, Symbols;
    LargestSymbol(t.l, f, L_CODES, MAX_BITS, LitExtras(), StaticTable(FixedLens(), LitExtras(), L_CODES));
    LargestSymbol(t.d, g, D_CODES, MAX_BITS, DistExtras(), StaticTable(FixedDists(), DistExtras(), D_CODES));
  }

  /** The lengths of the plan, for all literals and lengths of matches. */
  function PlanTable(): (e: seq<int>)
    requires |Lens()| == 257
    ensures |e| == L_CODES && forall v :: 0 <= v < L_CODES ==> e[v] == Planned(v)
  {
    seq(L_CODES, v => Planned(v))
  }

  /** The counts of the text are dyadic. */
  lemma {:induction false} TextIsDyadic(tables: Tables, f: seq<int>)
    requires tables.Valid() && TokensOk(Literals(Text())) && LitsCounted(tables, Literals(Text()), f) && |Lens()| == 257
    ensures DyadicTable(f, PlanTable(), L_CODES, 8)
  {
    hide Tables.Valid, Text, Lens, Planned, LitCount;
    var ts := Literals(Text());
    forall v | 0 <= v < L_CODES
      ensures 0 <= Planned(v) <= 8 && f[v] == if Planned(v) == 0 then 0 else Pow2(8 - Planned(v))
    {
      TextCounts(tables, f, v);
    }
    SmallPowers();
    LitCountsAddUp(tables, ts, |ts|, f[END_BLOCK := f[END_BLOCK] - 1]);
    SumUpdate(f, L_CODES, END_BLOCK, f[END_BLOCK] - 1);
  }

  /** The literal tree of the text has the lengths of the plan. */
  lemma {:induction false} TextLengths(t: Trio, tables: Tables, f: seq<int>, g: seq<int>, h: seq<int>)
    requires tables.Valid() && TokensOk(Literals(Text())) && LitsCounted(tables, Literals(Text()), f) && t.From(f, g, h)
    ensures |Lens()| == 257 && t.l.maxCode == 256 && |t.l.dl| > 257 && t.l.dl[..257] == Lens()
    ensures DyadicTable(f, PlanTable(), L_CODES, 8) && forall v :: 0 <= v < L_CODES ==> t.l.dl[v] == Planned(v)
  {
    hide Tables.Valid, Text, Lens, LitsCounted, Trio.From, HasTree, Symbols, LitExtras, DistExtras, RunExtras, Pow2;
    LensAre();
    TextIsDyadic(tables, f);
    TrioHasTrees(t, f, g, h);
    TrioSymbols(t, f, g, h);
    assert Lens()[0] == Lens()[..5][0] && Lens()[1] == Lens()[..5][1];
    DyadicLengths(t.l, f, L_CODES, MAX_BITS, LitExtras(), PlanTable(), 8, 0, 1);
    CountedAreSymbols(f, L_CODES, 0, 1);
    assert t.l.maxCode in SetOf(Symbols(f, L_CODES));
    assert t.l.dl[256] == 8;
  }

  /** Without matches two distances get one bit each. */
  lemma {:induction false} NoDistanceLengths(t: Trio, f: seq<int>, g: seq<int>, h: seq<int>)
    requires t.From(f, g, h) && |g| >= D_CODES && forall v :: 0 <= v < D_CODES ==> g[v] == 0
    ensures 0 <= t.d.maxCode && t.d.maxCode + 1 <= |t.d.dl| && t.d.dl[..t.d.maxCode + 1] == [1, 1]
  {
    hide Trio.From, HasTree, Symbols, LitExtras, DistExtras, RunExtras;
    TrioHasTrees(t, f, g, h);
    TrioSymbols(t, f, g, h);
    ForcedLengths(t.d, g, D_CODES, MAX_BITS, DistExtras());
  }

  lemma TwoOnes(c: int)
    ensures Times(RunsOf([1, 1]), c) == if c == 1 then 2 else 0
  {
    var s := Stretch(1, 2);
    OneStretch(s);
    assert Copies(1, 2) == [1, 1];
    RunsOfStretches([s]);
    assert Emitted(s) == [Run(1, 0), Run(1, 0)];
    FewTimes(Emitted(s), c);
  }

  /** How often each symbol of the code length alphabet is sent. */
  function RunCount(c: int): nat {
    if c == 8 then 34 else if c == 0 then 21 else if c == REP_3_6 then 13 else if c == REPZ_3_10 then 8
    else if c == REPZ_11_138 then 5 else if c == 3 then 3 else if c == 1 then 2 else if c == 6 || c == 2 then 1 else 0
  }

  function RunNames(): seq<int> {
    [6, 2, 1, 3, REPZ_11_138, REPZ_3_10, REP_3_6, 0, 8]
  }

  lemma NineFibonacci()
    ensures Fib(1) == 1 && Fib(2) == 1 && Fib(3) == 2 && Fib(4) == 3 && Fib(5) == 5 && Fib(6) == 8 && Fib(7) == 13 && Fib(8) == 21 && Fib(9) == 34
  {
  }

  /** The runs of the plan and of two distances count 1, 1, 2, 3, 5 and so on. */
  lemma {:induction false} RunsAreFibonacci(h: seq<int>)
    requires RunsCounted(h, Lens(), [1, 1])
    ensures CountFibonacci(RunNames(), h, BL_CODES) && forall c :: 0 <= c < BL_CODES ==> h[c] == RunCount(c)
  {
    hide RunsOf, Times, Lens, Fib;
    NineFibonacci();
    forall c | 0 <= c < BL_CODES
      ensures h[c] == RunCount(c)
    {
      PlanTimes(c);
      TwoOnes(c);
    }
  }

  /** So the code of the lengths is cut off. */
  lemma {:induction false} TextIsCutOff(t: Trio, tables: Tables, f: seq<int>, g: seq<int>, h: seq<int>)
    requires tables.Valid() && TokensOk(Literals(Text())) && LitsCounted(tables, Literals(Text()), f)
    requires DistsCounted(tables, Literals(Text()), g) && t.From(f, g, h)
    ensures t.b.overlong > 0 && |h| >= BL_CODES && forall c :: 0 <= c < BL_CODES ==> h[c] == RunCount(c)
    ensures forall v :: 0 <= v < D_CODES ==> g[v] == 0
  {
    hide Tables.Valid, Text, Lens, LitsCounted, Trio.From, HasTree, CountFibonacci, LitExtras, DistExtras, RunExtras, RunsCounted, Lengths, RunCount;
    var ts := Literals(Text());
    forall v | 0 <= v < D_CODES
      ensures g[v] == 0
    {
      NoDistances(tables, ts, |ts|, v);
    }
    TextLengths(t, tables, f, g, h);
    NoDistanceLengths(t, f, g, h);
    TrioRuns(t, f, g, h);
    RunsAreFibonacci(h);
    TrioHasTrees(t, f, g, h);
    FibonacciIsCutOff(t.b, h, BL_CODES, MAX_BL_BITS, RunExtras(), RunNames());
  }
}
