/** Bounds on what is charged for a block, and on how many runs its lengths take. */
module BlockPrices {
  import opened Sums
  import opened Lz77Format
  import opened CanonicalCodes
  import opened CountedSymbols
  import opened LengthCounts
  import opened HuffmanShape
  import opened TreeSymbols
  import opened TreeSpec
  import opened DeflateTables
  import opened BlockFormat
  import opened BlockEncoder
  import opened CodeLengthRuns
  import opened BlockCost
  import opened BlockTrees
  import opened TokenBuffer
  import opened FixedCodes
  import opened BlockFlush
  import opened CutOffBlocks

  lemma {:induction false} PriceUpdate(f: seq<int>, per: seq<int>, n: nat, v: nat, x: int)
    requires n <= |f| && n <= |per| && v < n
    ensures Price(f, per, n) == Price(f, per[v := x], n) - f[v] * (x - per[v])
    decreases n
  {
    if v < n - 1 {
      PriceUpdate(f, per, n - 1, v, x);
    } else {
      SamePrices(f, per, per[v := x], n - 1);
      assert f[v] * (x - per[v]) == f[v] * x - f[v] * per[v];
    }
  }

  lemma {:induction false} SamePrices(f: seq<int>, per: seq<int>, per': seq<int>, n: nat)
    requires n <= |f| && n <= |per| && n <= |per'| && forall v :: 0 <= v < n ==> per[v] == per'[v]
    ensures Price(f, per, n) == Price(f, per', n)
    decreases n
  {
    if n > 0 {
      SamePrices(f, per, per', n - 1);
    }
  }

  lemma {:induction false} PriceAtMost(f: seq<int>, per: seq<int>, n: nat, hi: int)
    requires n <= |f| && n <= |per| && forall v :: 0 <= v < n ==> f[v] >= 0 && (f[v] > 0 ==> per[v] <= hi)
    ensures Price(f, per, n) <= hi * Sum(f, n)
    decreases n
  {
    if n > 0 {
      PriceAtMost(f, per, n - 1, hi);
      assert (hi - per[n - 1]) * f[n - 1] >= 0;
      assert hi * Sum(f, n) == hi * Sum(f, n - 1) + hi * f[n - 1];
    }
  }

  lemma {:induction false} PriceAtLeast(f: seq<int>, per: seq<int>, n: nat, lo: int)
    requires n <= |f| && n <= |per| && forall v :: 0 <= v < n ==> f[v] >= 0 && (f[v] > 0 ==> per[v] >= lo)
    ensures Price(f, per, n) >= lo * Sum(f, n)
    decreases n
  {
    if n > 0 {
      PriceAtLeast(f, per, n - 1, lo);
      assert (per[n - 1] - lo) * f[n - 1] >= 0;
      assert lo * Sum(f, n) == lo * Sum(f, n - 1) + lo * f[n - 1];
    }
  }

  lemma {:induction false} FreePrice(f: seq<int>, per: seq<int>, n: nat)
    requires n <= |f| && n <= |per| && forall v :: 0 <= v < n ==> f[v] == 0
    ensures Price(f, per, n) == 0
    decreases n
  {
    if n > 0 {
      FreePrice(f, per, n - 1);
    }
  }

  /** No length charged for is greater than the maximum. */
  lemma {:induction false} ChargedAtMost(order: seq<int>, elems: nat, max: nat, dl: seq<int>, overlong: int, v: int)
    requires ShapeOf(order, elems).WellFormed() && 1 <= max < COUNTS && elems <= |dl| && CutLengths(order, elems, max, dl, overlong) && 0 <= v < elems
    ensures Charged(order, elems, max, dl, overlong)[v] <= max
  {
    if v in order {
      assert ShapeOf(order, elems).leaf[IndexOf(order, v)];
    }
  }

  /** What is charged for a tree whose symbols do not occur. */
  lemma {:induction false} NothingCharged(r: BuiltCode, g: seq<int>, elems: int, max: nat, extra: seq<int>)
    requires 3 <= elems <= |g| && elems <= |r.dl| && |extra| == elems && 1 <= max <= MAX_BITS && HasTree(r, g, elems, max, extra)
    requires forall v :: 0 <= v < elems ==> g[v] == 0
    ensures r.optLen == 0
  {
    hide Huffman, CutLengths, Symbols, TreeCounts, Charged;
    var order, w, c :| GrownFrom(r, g, elems, max, extra, order, w, c);
    HuffmanIsTree(order, w, elems, SetOf(Symbols(g, elems)), c);
    FreePrice(g, WithExtra(Charged(order, elems, max, r.dl, r.overlong), extra), elems);
  }

  /** The prices with the fixed codes. */
  lemma TrioPrices(t: Trio, f: seq<int>, g: seq<int>, h: seq<int>)
    requires t.From(f, g, h)
    ensures L_CODES <= |f| && t.l.staticLen == Price(f, StaticTable(FixedLens(), LitExtras(), L_CODES), L_CODES)
    ensures D_CODES <= |g| && t.d.staticLen == Price(g, StaticTable(FixedDists(), DistExtras(), D_CODES), D_CODES)
    ensures BL_CODES <= |h| && t.b.staticLen == Price(h, StaticTable([], RunExtras(), BL_CODES), BL_CODES)
  {
    hide HasTree, BuiltLengths, RunsCounted, FixedLens, FixedDists, Ends, LitExtras, DistExtras, RunExtras, Price, StaticTable, SendsCode;
  }

  /** The lengths that are sent as runs. */
  lemma TrioRuns(t: Trio, f: seq<int>, g: seq<int>, h: seq<int>)
    requires t.From(f, g, h)
    ensures 0 <= t.l.maxCode < L_CODES <= |t.l.dl| && 0 <= t.d.maxCode < D_CODES <= |t.d.dl| && 0 <= t.last < BL_CODES
    ensures RunsCounted(h, t.l.dl[..t.l.maxCode + 1], t.d.dl[..t.d.maxCode + 1])
    ensures Lengths(t.l.dl[..t.l.maxCode + 1]) && Lengths(t.d.dl[..t.d.maxCode + 1])
  {
    hide Built, RunsCounted, FixedLens, FixedDists, Ends, LitExtras, DistExtras, RunExtras, StaticTable;
    BuiltBounds(t.l, f, L_CODES, MAX_BITS, LitExtras(), StaticTable(FixedLens(), LitExtras(), L_CODES));
    BuiltBounds(t.d, g, D_CODES, MAX_BITS, DistExtras(), StaticTable(FixedDists(), DistExtras(), D_CODES));
  }

  lemma NoStaticTree(h: seq<int>)
    requires BL_CODES <= |h| && forall v :: 0 <= v < BL_CODES ==> h[v] >= 0
    ensures Price(h, StaticTable([], RunExtras(), BL_CODES), BL_CODES) >= 0
  {
    PriceAtLeast(h, StaticTable([], RunExtras(), BL_CODES), BL_CODES, 0);
  }

  lemma {:induction false} SumOfTimes(runs: seq<Run>, f: seq<int>)
    requires |f| >= BL_CODES && forall c :: 0 <= c < BL_CODES ==> f[c] == Times(runs, c)
    ensures Sum(f, BL_CODES) <= |runs|
    decreases |runs|
  {
    if runs == [] {
      SumOfZeros(f, BL_CODES);
    } else {
      var init, last := runs[..|runs| - 1], runs[|runs| - 1].symbol;
      var before := seq(BL_CODES, c => Times(init, c));
      SumOfTimes(init, before);
      if 0 <= last < BL_CODES {
        OneMoreCounted(before, f, BL_CODES, last);
      } else {
        SumFrame(before, f, BL_CODES);
      }
    }
  }

  lemma {:induction false} SumAdds(a: seq<int>, b: seq<int>, c: seq<int>, n: nat)
    requires n <= |a| && n <= |b| && n <= |c| && forall v :: 0 <= v < n ==> c[v] == a[v] + b[v]
    ensures Sum(c, n) == Sum(a, n) + Sum(b, n)
    decreases n
  {
    if n > 0 {
      SumAdds(a, b, c, n - 1);
    }
  }

  /** Literals only: no distance is counted. */
  lemma {:induction false} NoDistances(tables: Tables, ts: seq<Token>, k: nat, s: int)
    requires tables.Valid() && TokensOk(ts) && k <= |ts| && forall i :: 0 <= i < |ts| ==> ts[i].Literal?
    ensures DistCount(tables, ts, k, s) == 0
    decreases k
  {
    if k > 0 {
      NoDistances(tables, ts, k - 1, s);
    }
  }

  lemma {:induction false} SizeOfLiterals(ts: seq<Token>)
    requires forall i :: 0 <= i < |ts| ==> ts[i].Literal?
    ensures Size(ts) == |ts|
    decreases |ts|
  {
    if ts != [] {
      SizeOfLiterals(ts[..|ts| - 1]);
    }
  }
}
