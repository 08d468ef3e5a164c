/** How many bits a block takes, from the counts of its symbols. */
module BlockCost {
  import opened Arithmetic
  import opened BitStrings
  import opened Lz77Format
  import opened CanonicalCodes
  import opened PrefixCodes
  import opened DeflateTables
  import opened BlockFormat
  import opened BlockHeader
  import opened CodeLengthRuns
  import opened TokenBuffer
  import opened TreeSymbols
  import opened BuiltTree
  import opened BlockEncoder

  /** Extra bits by symbol. */
  function LitExtra(n: int): nat {
    if LITERALS < n <= LITERALS + LENGTH_CODES then LengthExtra(n - LITERALS - 1) else 0
  }

  function LitExtras(): (r: seq<int>)
    ensures |r| == L_CODES && forall n :: 0 <= n < L_CODES ==> r[n] == LitExtra(n)
  {
    seq(L_CODES, n => LitExtra(n))
  }

  function DistExtras(): (r: seq<int>)
    ensures |r| == D_CODES && forall n :: 0 <= n < D_CODES ==> r[n] == DistExtra(n)
  {
    seq(D_CODES, n requires 0 <= n < D_CODES => DistExtra(n))
  }

  function RunExtras(): (r: seq<int>)
    ensures |r| == BL_CODES && forall n :: 0 <= n < BL_CODES ==> r[n] == RunBits(n)
  {
    seq(BL_CODES, n => RunBits(n))
  }

  /** The lengths of all coded symbols are those of the table dl. */
  ghost predicate SameLengths(dl: seq<int>, lens: seq<int>, n: nat) {
    n <= |dl| && forall v :: 0 <= v < n && Coded(lens, v) ==> dl[v] == lens[v]
  }

  ghost function LitFreq(tables: Tables, ts: seq<Token>, k: nat): (f: seq<int>)
    requires tables.Valid() && TokensOk(ts) && k <= |ts|
    ensures |f| == L_CODES && forall s :: 0 <= s < L_CODES ==> f[s] == LitCount(tables, ts, k, s)
  {
    seq(L_CODES, s => LitCount(tables, ts, k, s))
  }

  ghost function DistFreq(tables: Tables, ts: seq<Token>, k: nat): (f: seq<int>)
    requires tables.Valid() && TokensOk(ts) && k <= |ts|
    ensures |f| == D_CODES && forall s :: 0 <= s < D_CODES ==> f[s] == DistCount(tables, ts, k, s)
  {
    seq(D_CODES, s => DistCount(tables, ts, k, s))
  }

  lemma {:induction false} PriceOfNothing(f: seq<int>, per: seq<int>, n: nat)
    requires n <= |f| && n <= |per| && forall v :: 0 <= v < n ==> f[v] == 0
    ensures Price(f, per, n) == 0
    decreases n
  {
    if n > 0 {
      PriceOfNothing(f, per, n - 1);
    }
  }

  /** One more symbol raises the price by what it takes. */
  lemma OneMoreSymbol(f: seq<int>, per: seq<int>, n: nat, s: int)
    requires n <= |f| && n <= |per| && 0 <= s < n
    ensures Price(f[s := f[s] + 1], per, n) == Price(f, per, n) + per[s]
  {
    PriceUpdate(f, per, n, s, f[s] + 1);
    assert (f[s] + 1 - f[s]) * per[s] == per[s];
  }

  /** The bits of a token: what its symbols take. */
  lemma TokenCost(tables: Tables, llens: seq<int>, dlens: seq<int>, ldl: seq<int>, ddl: seq<int>, t: Token)
    requires tables.Valid() && IsCode(llens) && IsCode(dlens) && Sendable(tables, llens, dlens, t)
    requires SameLengths(ldl, llens, L_CODES) && SameLengths(ddl, dlens, D_CODES)
    ensures 0 <= LitSymbol(tables, t) < L_CODES && (t.Match? ==> 0 <= DistSymbol(tables, t) < D_CODES)
    ensures |TokenBits(tables, llens, dlens, t)| ==
            WithExtra(ldl, LitExtras())[LitSymbol(tables, t)]
            + if t.Match? then WithExtra(ddl, DistExtras())[DistSymbol(tables, t)] else 0
  {
    hide IsCode, Word, Bits, LengthExtra, LengthBase, DistExtra, DistBase, Pow2, CoversStretch;
    SymbolsInRange(tables, t);
    if t.Match? {
      TokenCodes(tables, t);
    }
  }

  lemma {:induction false} TokensCost(tables: Tables, llens: seq<int>, dlens: seq<int>, ldl: seq<int>, ddl: seq<int>, ts: seq<Token>, k: nat)
    requires tables.Valid() && IsCode(llens) && IsCode(dlens) && TokensOk(ts) && AllSendable(tables, llens, dlens, ts) && k <= |ts|
    requires SameLengths(ldl, llens, L_CODES) && SameLengths(ddl, dlens, D_CODES)
    ensures |TokensBits(tables, llens, dlens, ts[..k])| ==
            Price(LitFreq(tables, ts, k), WithExtra(ldl, LitExtras()), L_CODES)
            + Price(DistFreq(tables, ts, k), WithExtra(ddl, DistExtras()), D_CODES)
    decreases k
  {
    hide IsCode, TokenBits, Sendable, CoversLength, CoversDist, CoversStretch, WithExtra, LitExtras, DistExtras;
    var lper, dper := WithExtra(ldl, LitExtras()), WithExtra(ddl, DistExtras());
    if k == 0 {
      PriceOfNothing(LitFreq(tables, ts, 0), lper, L_CODES);
      PriceOfNothing(DistFreq(tables, ts, 0), dper, D_CODES);
    } else {
      var t := ts[k - 1];
      TokensCost(tables, llens, dlens, ldl, ddl, ts, k - 1);
      TokensBitsAppend(tables, llens, dlens, ts, k - 1);
      assert Sendable(tables, llens, dlens, t);
      TokenCost(tables, llens, dlens, ldl, ddl, t);
      var f, g, c := LitFreq(tables, ts, k - 1), DistFreq(tables, ts, k - 1), LitSymbol(tables, t);
      OneMoreSymbol(f, lper, L_CODES, c);
      assert LitFreq(tables, ts, k) == f[c := f[c] + 1];
      if t.Match? {
        var d := DistSymbol(tables, t);
        OneMoreSymbol(g, dper, D_CODES, d);
        assert DistFreq(tables, ts, k) == g[d := g[d] + 1];
      } else {
        assert DistFreq(tables, ts, k) == g;
      }
    }
  }

  /** A block takes exactly what its counted symbols take. */
  lemma BlockDataCost(tables: Tables, llens: seq<int>, dlens: seq<int>, ldl: seq<int>, ddl: seq<int>, ts: seq<Token>, f: seq<int>, g: seq<int>)
    requires tables.Valid() && IsCode(llens) && IsCode(dlens) && TokensOk(ts) && AllSendable(tables, llens, dlens, ts)
    requires Coded(llens, END_BLOCK) && SameLengths(ldl, llens, L_CODES) && SameLengths(ddl, dlens, D_CODES)
    requires LitsCounted(tables, ts, f) && DistsCounted(tables, ts, g)
    ensures |BlockData(tables, llens, dlens, ts)| ==
            Price(f, WithExtra(ldl, LitExtras()), L_CODES) + Price(g, WithExtra(ddl, DistExtras()), D_CODES)
  {
    hide IsCode, TokensBits, Sendable, CoversLength, CoversDist, CoversStretch, LengthExtra, DistExtra;
    var lper, dper := WithExtra(ldl, LitExtras()), WithExtra(ddl, DistExtras());
    TokensCost(tables, llens, dlens, ldl, ddl, ts, |ts|);
    assert ts[..|ts|] == ts;
    var lf, df := LitFreq(tables, ts, |ts|), DistFreq(tables, ts, |ts|);
    OneMoreSymbol(lf, lper, L_CODES, END_BLOCK);
    PriceFrame(f, lf[END_BLOCK := lf[END_BLOCK] + 1], lper, L_CODES);
    PriceFrame(g, df, dper, D_CODES);
  }

  ghost function RunFreq(runs: seq<Run>): (f: seq<int>)
    ensures |f| == BL_CODES && forall c :: 0 <= c < BL_CODES ==> f[c] == Times(runs, c)
  {
    seq(BL_CODES, c => Times(runs, c))
  }

  /** The bits of run-length coded lengths: what their symbols take. */
  lemma {:induction false} RunsCost(bl: seq<int>, runs: seq<Run>, k: nat)
    requires IsCode(bl) && |bl| == BL_CODES && RunsOk(bl, runs) && k <= |runs|
    ensures |RunsBits(bl, runs[..k])| == Price(RunFreq(runs[..k]), WithExtra(bl, RunExtras()), BL_CODES)
    decreases k
  {
    hide IsCode, Word, Bits, Pow2;
    var per := WithExtra(bl, RunExtras());
    if k == 0 {
      PriceOfNothing(RunFreq(runs[..0]), per, BL_CODES);
    } else {
      RunsCost(bl, runs, k - 1);
      RunsBitsStep(bl, runs, k - 1);
      var f, c := RunFreq(runs[..k - 1]), runs[k - 1].symbol;
      assert RunOk(bl, runs[k - 1]);
      OneMoreSymbol(f, per, BL_CODES, c);
      assert runs[..k][..k - 1] == runs[..k - 1];
      assert RunFreq(runs[..k]) == f[c := f[c] + 1];
    }
  }

  lemma {:induction false} CodeCodeCost(bl: seq<int>, i: nat, k: nat)
    requires i <= k <= BL_CODES && |bl| == BL_CODES && forall v :: 0 <= v < BL_CODES ==> 0 <= bl[v] < 8
    ensures |CodeCodeBits(bl, i, k)| == 3 * (k - i)
    decreases k - i
  {
    hide Order, Bits;
    if i < k {
      RankOfOrder(i);
      CodeCodeCost(bl, i + 1, k);
    }
  }

  /** The trees of a dynamic block take 14 bits, 3 for each code length of the code length code, and the runs. */
  lemma TreeBitsCost(bl: seq<int>, blcodes: nat, llens: seq<int>, dlens: seq<int>, f: seq<int>)
    requires HeaderFits(bl, blcodes, llens, dlens) && |f| >= BL_CODES
    requires forall c :: 0 <= c < BL_CODES ==> f[c] == Times(RunsOf(llens), c) + Times(RunsOf(dlens), c)
    ensures |TreeBits(bl, blcodes, llens, dlens)| == 14 + 3 * blcodes + Price(f, WithExtra(bl, RunExtras()), BL_CODES)
  {
    hide IsCode, Bits, RunsBits, CodeCodeBits, Order, RunsOf, Times, Price;
    var l, d := RunsOf(llens), RunsOf(dlens);
    CodeCodeCost(bl, 0, blcodes);
    RunsBitsAppend(bl, l, d);
    RunsCost(bl, l + d, |l + d|);
    assert (l + d)[..|l + d|] == l + d;
    forall c | 0 <= c < BL_CODES
      ensures f[c] == RunFreq(l + d)[c]
    {
      TimesAppend(l, d, c);
    }
    PriceFrame(f, RunFreq(l + d), WithExtra(bl, RunExtras()), BL_CODES);
  }
}
