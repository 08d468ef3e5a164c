/** Blocks with few different symbols: the code of their lengths is never cut off. */
module FewSymbols {
  import opened Bytes
  import opened Options
  import opened Sums
  import opened Lz77Format
  import opened CanonicalCodes
  import opened CountedSymbols
  import opened OptimalCodes
  import opened DeepTrees
  import opened DeflateTables
  import opened BlockFormat
  import opened CodeLengthRuns
  import opened BlockCost
  import opened BlockTrees
  import opened TokenBuffer
  import opened FixedCodes
  import opened BlockFlush
  import opened BlockLog
  import opened BlockPrices
  import opened BitWriter
  import opened BlockStream
  import opened CutOffBlocks
  import opened DeflateEncoder
  import opened UniqueTexts

  /** How many of the first n lengths are not zero. */
  function Used(lens: seq<int>, n: nat): nat
    requires n <= |lens|
  {
    if n == 0 then 0 else Used(lens, n - 1) + if lens[n - 1] != 0 then 1 else 0
  }

  /** A stretch of zeros ends at n. */
  predicate ZerosEnd(lens: seq<int>, n: nat) {
    0 < n <= |lens| && lens[n - 1] == 0 && LengthAt(lens, n) != 0
  }

  /** At most three symbols are sent for each length in use, two for zeros at the end, and one for every 138 lengths. */
  ghost predicate Bounded(s: Scan, lens: seq<int>, n: nat) {
    && s.count <= n <= |lens|
    && |s.out| <= 3 * Used(lens, n - s.count) + (if ZerosEnd(lens, n - s.count) then 2 else 0) + (n - s.count) / 138
  }

  lemma {:induction false} UsedStretch(lens: seq<int>, n: nat, k: nat, v: int)
    requires n + k <= |lens| && forall i :: n <= i < n + k ==> lens[i] == v
    ensures Used(lens, n + k) == Used(lens, n) + if v != 0 then k else 0
    decreases k
  {
    if k > 0 {
      UsedStretch(lens, n, k - 1, v);
    }
  }

  lemma FlushedSize(cur: int, prev: int, count: nat, minCount: nat)
    requires count >= 1 && minCount >= 3
    ensures |Flushed(cur, prev, count, minCount)| <= count
    ensures cur == 0 && minCount == 3 ==> |Flushed(cur, prev, count, minCount)| <= 2
    ensures cur == 0 && minCount == 3 && count >= 3 ==> |Flushed(cur, prev, count, minCount)| == 1
  {
  }

  lemma {:induction false} StepBounded(s: Scan, lens: seq<int>, n: nat)
    requires Lengths(lens) && n < |lens| && Scanning(s, lens, n) && Bounded(s, lens, n)
    ensures Bounded(Step(s, lens[n], LengthAt(lens, n + 1)), lens, n + 1)
  {
    hide Sends, Flushed, Used;
    var cur, next, count := lens[n], LengthAt(lens, n + 1), s.count + 1;
    if !(count < s.maxCount && cur == next) {
      FlushedSize(cur, s.prev, count, s.minCount);
      UsedStretch(lens, n - s.count, count, cur);
      if cur == 0 && next == 0 {
        assert count == 138;
      }
    }
  }

  lemma {:induction false} ScanBounded(lens: seq<int>, n: nat)
    requires Lengths(lens) && n <= |lens|
    ensures Bounded(ScanOf(lens, n), lens, n)
    decreases n
  {
    hide Sends, Flushed;
    if n > 0 {
      ScanBounded(lens, n - 1);
      ScanKeepsScanning(lens, n - 1);
      StepBounded(ScanOf(lens, n - 1), lens, n - 1);
    }
  }

  /** The number of runs sent is bounded by the number of lengths in use. */
  lemma {:induction false} RunsByUse(lens: seq<int>)
    requires Lengths(lens)
    ensures |RunsOf(lens)| <= 3 * Used(lens, |lens|) + 2 + |lens| / 138
  {
    hide Sends, Flushed, Used;
    ScanBounded(lens, |lens|);
    ScanKeepsScanning(lens, |lens|);
    var s := ScanOf(lens, |lens|);
    assert LengthAt(lens, |lens|) == GUARD;
  }

  /** Lengths in use belong to the symbols of a set. */
  lemma {:induction false} UsedAtMost(lens: seq<int>, n: nat, symbols: set<int>)
    requires n <= |lens| && forall v :: 0 <= v < n && lens[v] != 0 ==> v in symbols
    ensures Used(lens, n) <= |symbols|
    decreases n
  {
    if n > 0 {
      if lens[n - 1] != 0 {
        var rest := symbols - {n - 1};
        assert |rest| == |symbols| - 1;
        UsedAtMost(lens, n - 1, rest);
      } else {
        UsedAtMost(lens, n - 1, symbols);
      }
    }
  }

  /** The literal and length symbols of the tokens. */
  ghost function LitSet(tables: Tables, ts: seq<Token>): set<int>
    requires tables.Valid() && TokensOk(ts)
  {
    set i | 0 <= i < |ts| :: LitSymbol(tables, ts[i])
  }

  /** The distance symbols of the tokens. */
  ghost function DistSet(tables: Tables, ts: seq<Token>): set<int>
    requires tables.Valid() && TokensOk(ts)
  {
    set i | 0 <= i < |ts| && ts[i].Match? :: DistSymbol(tables, ts[i])
  }

  lemma {:induction false} CountedOccurs(tables: Tables, ts: seq<Token>, k: nat, s: int)
    requires tables.Valid() && TokensOk(ts) && k <= |ts|
    ensures LitCount(tables, ts, k, s) > 0 ==> s in LitSet(tables, ts)
    ensures DistCount(tables, ts, k, s) > 0 ==> s in DistSet(tables, ts)
    decreases k
  {
    hide CoversLength, CoversDist, CoversStretch;
    if k > 0 {
      CountedOccurs(tables, ts, k - 1, s);
    }
  }

  /** A built code uses no lengths but those of its symbols. */
  lemma UseOfCode(r: BuiltCode, freq: seq<int>, elems: int, max: nat, extra: seq<int>, fixed: seq<int>)
    requires Built(r, freq, elems, max, extra, fixed)
    ensures 0 <= r.maxCode < elems <= |freq| && elems <= |r.dl|
    ensures Used(r.dl[..r.maxCode + 1], r.maxCode + 1) <= |SetOf(Symbols(freq, elems))|
  {
    hide HasTree, CodesFit, Symbols;
    var lens := r.dl[..r.maxCode + 1];
    forall v | 0 <= v < |lens| && lens[v] != 0
      ensures v in SetOf(Symbols(freq, elems))
    {
      assert r.dl[v] > 0;
    }
    UsedAtMost(lens, |lens|, SetOf(Symbols(freq, elems)));
  }

  lemma {:induction false} LitSymbolsAre(tables: Tables, ts: seq<Token>, f: seq<int>)
    requires tables.Valid() && TokensOk(ts) && LitsCounted(tables, ts, f)
    ensures |SetOf(Symbols(f, L_CODES))| <= |LitSet(tables, ts)| + 2
  {
    hide Tables.Valid, LitSet, LitCount;
    var counted, all := CountedSymbols.Counted(f, L_CODES), LitSet(tables, ts) + {END_BLOCK, 0};
    CountedExactly(f, L_CODES, END_BLOCK);
    forall v | v in SetOf(Symbols(f, L_CODES))
      ensures v in all
    {
      CountedExactly(f, L_CODES, v);
      if v in counted && v != END_BLOCK {
        CountedOccurs(tables, ts, |ts|, v);
      }
    }
    SubsetSize(SetOf(Symbols(f, L_CODES)), all);
    UnionSize(LitSet(tables, ts), END_BLOCK, 0);
  }

  lemma UnionSize(s: set<int>, a: int, b: int)
    ensures |s + {a, b}| <= |s| + 2
  {
    assert s + {a, b} == s + {a} + {b};
    assert |s + {a}| <= |s| + 1;
  }

  lemma {:induction false} DistSymbolsAre(tables: Tables, ts: seq<Token>, g: seq<int>)
    requires tables.Valid() && TokensOk(ts) && DistsCounted(tables, ts, g)
    ensures |SetOf(Symbols(g, D_CODES))| <= |DistSet(tables, ts)| + 2
  {
    hide Tables.Valid, DistSet, DistCount;
    var counted := CountedSymbols.Counted(g, D_CODES);
    var forced := Forced(counted);
    var x, y := if |forced| > 0 then forced[0] else 0, if |forced| > 1 then forced[1] else 0;
    var all := DistSet(tables, ts) + {x, y};
    forall v | v in SetOf(Symbols(g, D_CODES))
      ensures v in all
    {
      CountedExactly(g, D_CODES, v);
      if v in counted {
        CountedOccurs(tables, ts, |ts|, v);
      }
    }
    SubsetSize(SetOf(Symbols(g, D_CODES)), all);
    UnionSize(DistSet(tables, ts), x, y);
  }

  /** Fewer than 55 runs: then the code of the lengths is not cut off. */
  lemma {:induction false} FewRunsAreKept(t: Trio, f: seq<int>, g: seq<int>, h: seq<int>)
    requires t.From(f, g, h) && 0 <= t.l.maxCode < |t.l.dl| && 0 <= t.d.maxCode < |t.d.dl|
    requires |RunsOf(t.l.dl[..t.l.maxCode + 1])| + |RunsOf(t.d.dl[..t.d.maxCode + 1])| < 55
    ensures t.b.overlong == 0
  {
    hide Trio.From, HasTree, RunsOf, Times, RunExtras, LitExtras, DistExtras, Lengths, Fib;
    TrioHasTrees(t, f, g, h);
    TrioRuns(t, f, g, h);
    RunsSum(h, t.l.dl[..t.l.maxCode + 1], t.d.dl[..t.d.maxCode + 1]);
    TenthFibonacci();
    LightIsNotCutOff(t.b, h, BL_CODES, MAX_BL_BITS, RunExtras());
  }

  lemma TenthFibonacci()
    ensures Fib(10) == 55
  {
    assert Fib(7) == 13 && Fib(8) == 21;
  }

  lemma {:induction false} RunsSum(h: seq<int>, llens: seq<int>, dlens: seq<int>)
    requires RunsCounted(h, llens, dlens)
    ensures Sum(h, BL_CODES) <= |RunsOf(llens)| + |RunsOf(dlens)| && forall c :: 0 <= c < BL_CODES ==> h[c] >= 0
  {
    hide RunsOf, Times;
    var a, b := seq(BL_CODES, c => Times(RunsOf(llens), c)), seq(BL_CODES, c => Times(RunsOf(dlens), c));
    SumOfTimes(RunsOf(llens), a);
    SumOfTimes(RunsOf(dlens), b);
    SumAdds(a, b, h, BL_CODES);
  }

  lemma TrioUse(t: Trio, f: seq<int>, g: seq<int>, h: seq<int>)
    requires t.From(f, g, h)
    ensures 0 <= t.l.maxCode < L_CODES <= |f| && L_CODES <= |t.l.dl| && 0 <= t.d.maxCode < D_CODES <= |g| && D_CODES <= |t.d.dl|
    ensures Used(t.l.dl[..t.l.maxCode + 1], t.l.maxCode + 1) <= |SetOf(Symbols(f, L_CODES))|
    ensures Used(t.d.dl[..t.d.maxCode + 1], t.d.maxCode + 1) <= |SetOf(Symbols(g, D_CODES))|
  {
    hide Built, RunsCounted, Ends, StaticTable, LitExtras, DistExtras, RunExtras, Symbols, Used;
    UseOfCode(t.l, f, L_CODES, MAX_BITS, LitExtras(), StaticTable(FixedLens(), LitExtras(), L_CODES));
    UseOfCode(t.d, g, D_CODES, MAX_BITS, DistExtras(), StaticTable(FixedDists(), DistExtras(), D_CODES));
  }

  /** Fewer than 2583 tokens of at most 12 different symbols: then nothing is cut off. */
  lemma {:induction false} FewSymbolsAreKept(t: Trio, tables: Tables, ts: seq<Token>)
    requires TreesOf(t, tables, ts) && |ts| + 1 < 2584 && |LitSet(tables, ts)| + |DistSet(tables, ts)| <= 12
    ensures t.Unclamped()
  {
    hide Tables.Valid, TokensOk, LitsCounted, DistsCounted, Trio.From, LitSet, DistSet, RunsOf, Used, Lengths, Symbols, SetOf;
    SmallBlockIsKept(t, tables, ts);
    var f, g, h :| LitsCounted(tables, ts, f) && DistsCounted(tables, ts, g) && t.From(f, g, h);
    LitSymbolsAre(tables, ts, f);
    DistSymbolsAre(tables, ts, g);
    TrioUse(t, f, g, h);
    TrioRuns(t, f, g, h);
    RunsByUse(t.l.dl[..t.l.maxCode + 1]);
    RunsByUse(t.d.dl[..t.d.maxCode + 1]);
    FewRunsAreKept(t, f, g, h);
  }

  /** Fewer than 2583 tokens of at most 12 different symbols. */
  ghost predicate Few(ts: seq<Token>) {
    && |ts| + 1 < 2584 && TokensOk(ts)
    && forall tables: Tables :: tables.Valid() ==> |LitSet(tables, ts)| + |DistSet(tables, ts)| <= 12
  }

  lemma {:induction false} FewIsSent(b: Ended)
    requires Recorded(b) && Few(b.tokens)
    ensures b.kind != CutOff
  {
    hide LitSet, DistSet, Size, OptLen, StaticLen, TreesOf, Tables.Valid, TokensOk;
    var tables :| TreesOf(b.trees, tables, b.tokens);
    ValidTables(b.trees, tables, b.tokens);
    FewSymbolsAreKept(b.trees, tables, b.tokens);
  }

  lemma ValidTables(t: Trio, tables: Tables, ts: seq<Token>)
    requires TreesOf(t, tables, ts)
    ensures tables.Valid()
  {
    hide Tables.Valid, Trio.From, LitsCounted, DistsCounted;
  }

  /** If all blocks are such, all are sent. */
  lemma {:induction false} FewAreSent(blocks: seq<Ended>, tokens: seq<Token>)
    requires Log(blocks, tokens) && forall i :: 0 <= i < |blocks| ==> Few(blocks[i].tokens)
    ensures AllSent(blocks)
  {
    hide Few, Recorded;
    forall i | 0 <= i < |blocks|
      ensures blocks[i].kind != CutOff
    {
      assert Recorded(blocks[i]) && Few(blocks[i].tokens);
      FewIsSent(blocks[i]);
    }
  }

  lemma {:induction false} SetSizes(tables: Tables, ts: seq<Token>)
    requires tables.Valid() && TokensOk(ts)
    ensures |LitSet(tables, ts)| <= |ts| && |DistSet(tables, ts)| <= |ts|
    decreases |ts|
  {
    hide CoversLength, CoversDist, CoversStretch, LitSymbol, DistSymbol;
    if ts == [] {
      assert LitSet(tables, ts) == {} && DistSet(tables, ts) == {};
    } else {
      var init, last := ts[..|ts| - 1], ts[|ts| - 1];
      SetSizes(tables, init);
      assert LitSet(tables, ts) <= LitSet(tables, init) + {LitSymbol(tables, last)};
      SubsetSize(LitSet(tables, ts), LitSet(tables, init) + {LitSymbol(tables, last)});
      var more := if last.Match? then {DistSymbol(tables, last)} else {};
      assert DistSet(tables, ts) <= DistSet(tables, init) + more;
      SubsetSize(DistSet(tables, ts), DistSet(tables, init) + more);
    }
  }

  /** Six tokens have at most twelve symbols. */
  lemma {:induction false} SixAreFew(ts: seq<Token>)
    requires |ts| <= 6 && TokensOk(ts)
    ensures Few(ts)
  {
    hide LitSet, DistSet, Tables.Valid, TokensOk;
    forall tables: Tables | tables.Valid()
      ensures |LitSet(tables, ts)| + |DistSet(tables, ts)| <= 12
    {
      SetSizes(tables, ts);
    }
  }

  lemma {:induction false} BlockFits(blocks: seq<Ended>, i: nat)
    requires i < |blocks|
    ensures |blocks[i].tokens| <= |Joined(blocks)|
    decreases |blocks|
  {
    if i < |blocks| - 1 {
      BlockFits(blocks[..|blocks| - 1], i);
    }
  }

  lemma RecordedIsOk(b: Ended)
    requires Recorded(b)
    ensures TokensOk(b.tokens)
  {
  }

  lemma {:induction false} NoMoreTokens(tokens: seq<Token>)
    requires Expand(tokens).Some?
    ensures |tokens| <= |Expand(tokens).value|
    decreases |tokens|
  {
    if tokens != [] {
      NoMoreTokens(tokens[..|tokens| - 1]);
    }
  }

  /** A text of at most six bytes is always sent. */
  lemma {:induction false} ShortTextIsSent(text: seq<byte>, tokens: seq<Token>, blocks: seq<Ended>)
    requires |text| <= 6 && Expand(tokens) == Some(text) && Log(blocks, tokens)
    ensures AllSent(blocks)
  {
    hide Recorded, Few;
    NoMoreTokens(tokens);
    forall i | 0 <= i < |blocks|
      ensures Few(blocks[i].tokens)
    {
      BlockFits(blocks, i);
      RecordedIsOk(blocks[i]);
      SixAreFew(blocks[i].tokens);
    }
    FewAreSent(blocks, tokens);
  }

  lemma {:induction false} BlockHolds(blocks: seq<Ended>, i: nat, k: nat)
    requires i < |blocks| && k < |blocks[i].tokens|
    ensures blocks[i].tokens[k] in Joined(blocks)
    decreases |blocks|
  {
    if i < |blocks| - 1 {
      BlockHolds(blocks[..|blocks| - 1], i, k);
    }
  }

  /** So is a text without three bytes that repeat, if it has at most 12 different ones. */
  lemma {:induction false} FewBytesAreSent(text: seq<byte>, tokens: seq<Token>, blocks: seq<Ended>, bytes: set<int>)
    requires Expand(tokens) == Some(text) && Log(blocks, tokens) && Repeatless(text) && |text| + 1 < 2584
    requires |bytes| <= 12 && forall i :: 0 <= i < |text| ==> text[i] as int in bytes
    ensures AllSent(blocks)
  {
    hide Recorded, Expand, Repeatless;
    OnlyItsLiterals(tokens, text, text);
    forall i | 0 <= i < |blocks|
      ensures Few(blocks[i].tokens)
    {
      var ts := blocks[i].tokens;
      BlockFits(blocks, i);
      RecordedIsOk(blocks[i]);
      forall k | 0 <= k < |ts|
        ensures ts[k].Literal? && ts[k].lit as int in bytes
      {
        BlockHolds(blocks, i, k);
      }
      LiteralsAreFew(ts, bytes);
    }
    FewAreSent(blocks, tokens);
  }

  lemma {:induction false} LiteralsAreFew(ts: seq<Token>, bytes: set<int>)
    requires |ts| + 1 < 2584 && TokensOk(ts) && |bytes| <= 12 && forall k :: 0 <= k < |ts| ==> ts[k].Literal? && ts[k].lit as int in bytes
    ensures Few(ts)
  {
    forall tables: Tables | tables.Valid()
      ensures |LitSet(tables, ts)| + |DistSet(tables, ts)| <= 12
    {
      hide CoversLength, CoversDist, CoversStretch;
      assert DistSet(tables, ts) == {};
      SubsetSize(LitSet(tables, ts), bytes);
    }
  }

  ghost function BytesOf(text: seq<byte>): set<int> {
    set i | 0 <= i < |text| :: text[i] as int
  }

  /** At most six bytes, or fewer than 2583 without three that repeat, of at most 12 different ones. */
  ghost predicate Plain(text: seq<byte>) {
    |text| <= 6 || (Repeatless(text) && |text| + 1 < 2584 && |BytesOf(text)| <= 12)
  }

  /** Compressed at any level, such a text is always given back. */
  method CompressPlain(text: seq<byte>, level: int) returns (out: seq<byte>)
    requires text != [] && Plain(text)
    ensures Inflate(BitsOfBytes(out)) == Some(text)
  {
    hide Expand, Log, Cut, AllSent, Inflate, BitsOfBytes, Repeatless;
    var ok;
    ghost var tokens, blocks, tables, held, bases, end;
    out, ok, tokens, blocks, tables, held, bases, end := Compress(text, level);
    if |text| <= 6 {
      ShortTextIsSent(text, tokens, blocks);
    } else {
      FewBytesAreSent(text, tokens, blocks, BytesOf(text));
    }
  }
}
