/** Building the code of one alphabet from the counts of its symbols. */
module BlockTrees {
  import opened Arithmetic
  import opened SymbolLengths
  import opened CanonicalCodes
  import opened PrefixCodes
  import opened BitStrings
  import opened CountedSymbols
  import opened OptimalCodes
  import opened TreeSymbols
  import opened BuiltTree
  import opened TreeSpec
  import opened CodeLengths
  import opened HuffmanShape
  import opened HuffmanTree
  import opened BlockEncoder

  /** The codes and lengths of a tree, its largest symbol, the bits charged, and how many nodes were cut off. */
  datatype BuiltCode = BuiltCode(fc: seq<int>, dl: seq<int>, maxCode: int, optLen: int, staticLen: int, overlong: int)

  /** Extra bits by symbol, from a table that starts at the symbol `base`. */
  function ExtraTable(bits: seq<int>, base: int, elems: nat): (r: seq<int>)
    ensures |r| == elems && forall i :: 0 <= i < elems ==> r[i] == if base <= i < base + |bits| then bits[i - base] else 0
  {
    seq(elems, i => if base <= i < base + |bits| then bits[i - base] else 0)
  }

  /** Fixed lengths and extra bits by symbol; zero when there is no static tree. */
  function StaticTable(lengths: seq<int>, extra: seq<int>, elems: nat): (r: seq<int>)
    requires |extra| == elems && (lengths == [] || |lengths| >= elems)
    ensures |r| == elems && forall i :: 0 <= i < elems ==> r[i] == if lengths == [] then 0 else lengths[i] + extra[i]
  {
    seq(elems, i requires 0 <= i < elems => if lengths == [] then 0 else lengths[i] + extra[i])
  }

  lemma {:induction false} CountedFrame(f: seq<int>, g: seq<int>, n: nat)
    requires n <= |f| && n <= |g| && f[..n] == g[..n]
    ensures CountedSymbols.Counted(f, n) == CountedSymbols.Counted(g, n)
    decreases n
  {
    if n > 0 {
      assert f[n - 1] == f[..n][n - 1] && g[n - 1] == g[..n][n - 1];
      assert f[..n - 1] == f[..n][..n - 1] && g[..n - 1] == g[..n][..n - 1];
      CountedFrame(f, g, n - 1);
    }
  }

  /** The codes in the table are the words of the code, also when symbols without a code are counted in. */
  lemma CodesSend(fc: seq<int>, dl: seq<int>, count: seq<int>, largest: int, n: nat)
    requires CodesSet(dl, fc, count, largest) && Codable(count, dl[..largest + 1], MAX_BITS)
    requires largest < n <= |dl| && forall v :: largest < v < n ==> dl[v] == 0
    ensures SendsCode(fc, dl, dl[..n])
  {
    hide Pow2, FirstCode, CountOf, CountsOf;
    var lens, k := dl[..n], largest + 1;
    assert lens[..k] == dl[..k];
    SameCounts(count, lens, k);
    forall v | Coded(lens, v)
      ensures CodeSent(fc, dl, lens, v)
    {
      assert v < k && Coded(lens[..k], v);
      SentIsWord(count, lens, k, v);
    }
  }

  /** The lengths of a built code: those of the symbols, with half a unit of code space too much for each node cut off. */
  ghost predicate BuiltLengths(r: BuiltCode, freq: seq<int>, elems: int, max: nat)
    requires 0 <= elems <= |freq| && elems <= |r.dl| && 0 <= r.maxCode
  {
    && LengthsFor(Symbols(freq, elems), elems, max, r.dl)
    && r.maxCode in Symbols(freq, elems) && (forall v :: r.maxCode < v < elems ==> r.dl[v] == 0)
    && LengthsUpTo(r.dl[..elems], max) && 2 * CodeSpace(r.dl[..elems], max, elems) == 2 * Pow2(max) + r.overlong && r.overlong >= 0
  }

  /** The counts the tree is built from: those of the symbols, and 1 for each that had to be forced. */
  function TreeCounts(freq: seq<int>, elems: nat): seq<int>
    requires elems <= |freq|
  {
    Marked(freq, Forced(CountedSymbols.Counted(freq, elems)), 1)
  }

  /**
   The code comes from the tree `order`: it is optimal for the counts, the lengths are its depths cut off at the
   maximum, `overlong` counts the nodes that lie deeper, and the lengths charged for are those, or new ones if any does.
   */
  ghost predicate GrownFrom(r: BuiltCode, freq: seq<int>, elems: int, max: nat, extra: seq<int>, order: seq<int>, w: seq<int>, f: seq<int>)
    requires 3 <= elems <= |freq| && elems <= |r.dl| && |extra| == elems && 1 <= max <= MAX_BITS
  {
    && |f| >= elems && (forall v :: 0 <= v < elems ==> f[v] == TreeCounts(freq, elems)[v])
    && Huffman(order, w, elems, SetOf(Symbols(freq, elems)), f) && CutLengths(order, elems, max, r.dl, r.overlong)
    && r.optLen == Price(freq, WithExtra(Charged(order, elems, max, r.dl, r.overlong), extra), elems)
  }

  ghost predicate HasTree(r: BuiltCode, freq: seq<int>, elems: int, max: nat, extra: seq<int>)
    requires 3 <= elems <= |freq| && elems <= |r.dl| && |extra| == elems && 1 <= max <= MAX_BITS
  {
    exists order, w, f :: GrownFrom(r, freq, elems, max, extra, order, w, f)
  }

  /** Every code fits its length, cut off or not. */
  ghost predicate CodesFit(r: BuiltCode, elems: int)
    requires 0 <= elems <= |r.dl| && |r.fc| == |r.dl|
  {
    forall v :: 0 <= v < elems && r.dl[v] > 0 ==> Coding(r.fc, r.dl).Sends(v)
  }

  lemma CodesSetFit(r: BuiltCode, elems: int, count: seq<int>)
    requires 0 <= r.maxCode < elems <= |r.dl| == |r.fc| && CodesSet(r.dl, r.fc, count, r.maxCode)
    requires forall v :: r.maxCode < v < elems ==> r.dl[v] == 0
    ensures CodesFit(r, elems)
  {
    hide Pow2, FirstCode, CountOf;
    var lens := r.dl[..r.maxCode + 1];
    forall v | 0 <= v < elems && r.dl[v] > 0
      ensures Coding(r.fc, r.dl).Sends(v)
    {
      assert lens[v] == r.dl[v];
      FirstCodeIsNatural(count, lens[v]);
      ReversedIsCode(CodeValue(count, lens, v), lens[v]);
    }
  }

  /** What a built code promises. */
  ghost predicate Built(r: BuiltCode, freq: seq<int>, elems: int, max: nat, extra: seq<int>, fixed: seq<int>) {
    && 3 <= elems <= |freq| && |r.fc| == |r.dl| == 2 * elems + 1 && 0 <= r.maxCode < elems && |extra| == |fixed| == elems
    && 1 <= max <= MAX_BITS && BuiltLengths(r, freq, elems, max)
    && HasTree(r, freq, elems, max, extra) && CodesFit(r, elems)
    && r.staticLen == Price(freq, fixed, elems)
    && (r.overlong == 0 ==>
          && r.optLen == Price(freq, WithExtra(r.dl, extra), elems)
          && SendsCode(r.fc, r.dl, r.dl[..r.maxCode + 1])
          && SendsCode(r.fc, r.dl, r.dl[..elems]))
  }

  lemma NoneBehind(symbols: seq<int>, elems: int, max: nat, dl: seq<int>, largest: int)
    requires LengthsFor(symbols, elems, max, dl) && -1 <= largest && forall v :: v in symbols ==> v <= largest
    ensures forall v :: largest < v < elems ==> dl[v] == 0
  {
    forall v | largest < v < elems
      ensures dl[v] == 0
    {
      assert v !in symbols;
    }
  }

  lemma SameSymbols(f: seq<int>, g: seq<int>, elems: nat)
    requires elems <= |f| && elems <= |g| && f[..elems] == g[..elems]
    ensures Symbols(f, elems) == Symbols(g, elems)
  {
    CountedFrame(f, g, elems);
  }

  lemma SamePrice(f: seq<int>, g: seq<int>, prices: seq<int>, elems: nat)
    requires elems <= |f| && elems <= |g| && elems <= |prices| && f[..elems] == g[..elems]
    ensures Price(f, prices, elems) == Price(g, prices, elems)
  {
    forall v | 0 <= v < elems
      ensures f[v] == g[v]
    {
      assert f[v] == f[..elems][v] && g[v] == g[..elems][v];
    }
    PriceFrame(f, g, prices, elems);
  }

  lemma LengthsOk(r: BuiltCode, freq: seq<int>, elems: int, max: nat, symbols: seq<int>, f1: seq<int>,
                  order: seq<int>, w: seq<int>)
    requires 3 <= elems <= |freq| && |r.dl| == 2 * elems + 1 && 0 <= r.maxCode < elems && symbols == Symbols(freq, elems)
    requires r.maxCode in symbols && (forall v :: v in symbols ==> v <= r.maxCode) && Measured(symbols, elems, max, f1, r.dl, r.overlong, order, w)
    ensures BuiltLengths(r, freq, elems, max) && forall v :: r.maxCode < v < elems ==> r.dl[v] == 0
  {
    hide Pow2, CodeSpace, Symbols, LengthsFor, LengthsUpTo, CostsAtLeast, Cost, SetOf;
    NoneBehind(symbols, elems, max, r.dl, r.maxCode);
  }

  lemma MeasuredIsTree(symbols: seq<int>, elems: int, max: nat, f1: seq<int>, dl: seq<int>, overlong: int, order: seq<int>, w: seq<int>)
    requires Measured(symbols, elems, max, f1, dl, overlong, order, w)
    ensures ShapeOf(order, elems).WellFormed()
  {
  }

  lemma ChargedDepths(order: seq<int>, elems: int, max: nat, dl: seq<int>, extra: seq<int>)
    requires ShapeOf(order, elems).WellFormed() && 1 <= max <= MAX_BITS && 0 <= elems <= |dl| && |extra| == elems
    ensures WithExtra(Charged(order, elems, max, dl, 0), extra) == WithExtra(dl, extra)
  {
  }

  lemma {:induction false} GrownOk(r: BuiltCode, f0: seq<int>, freq: seq<int>, elems: int, max: nat, extra: seq<int>,
                                   symbols: seq<int>, f1: seq<int>, order: seq<int>, w: seq<int>)
    requires 3 <= elems <= |freq| && |r.dl| == 2 * elems + 1 && |extra| == elems && 1 <= max <= MAX_BITS
    requires elems <= |f0| && f0[..elems] == freq[..elems] && symbols == Symbols(f0, elems) && f1 == TreeCounts(f0, elems)
    requires Measured(symbols, elems, max, f1, r.dl, r.overlong, order, w)
    requires r.optLen == Price(f0, WithExtra(Charged(order, elems, max, r.dl, r.overlong), extra), elems)
    ensures GrownFrom(r, freq, elems, max, extra, order, w, f1)
    ensures r.optLen == Price(freq, WithExtra(Charged(order, elems, max, r.dl, r.overlong), extra), elems)
  {
    hide Price, Symbols, Huffman, CutLengths, Charged, WithExtra, LengthsFor, LengthsUpTo, CodeSpace, Pow2, CostsAtLeast;
    HuffmanIsTree(order, w, elems, SetOf(symbols), f1);
    SameSymbols(f0, freq, elems);
    SamePrice(f0, freq, WithExtra(Charged(order, elems, max, r.dl, r.overlong), extra), elems);
    CountedFrame(f0, freq, elems);
    forall v | 0 <= v < elems
      ensures f1[v] == TreeCounts(freq, elems)[v]
    {
      assert f0[v] == f0[..elems][v] && freq[v] == freq[..elems][v];
    }
  }

  /** What building the tree gives is what a built code promises. */
  lemma {:induction false} BuiltOk(r: BuiltCode, f0: seq<int>, freq: seq<int>, elems: int, max: nat, extra: seq<int>, fixed: seq<int>,
                symbols: seq<int>, f1: seq<int>, count: seq<int>, order: seq<int>, w: seq<int>)
    requires 3 <= elems <= |freq| && |r.fc| == |r.dl| == 2 * elems + 1 && 0 <= r.maxCode < elems && |extra| == |fixed| == elems
    requires elems <= |f0| && f0[..elems] == freq[..elems] && symbols == Symbols(f0, elems) && 1 <= max <= MAX_BITS
    requires r.maxCode in symbols && (forall v :: v in symbols ==> v <= r.maxCode) && Measured(symbols, elems, max, f1, r.dl, r.overlong, order, w)
    requires r.staticLen == Price(f0, fixed, elems) && CodesSet(r.dl, r.fc, count, r.maxCode)
    requires f1 == TreeCounts(f0, elems)
    requires r.optLen == Price(f0, WithExtra(Charged(order, elems, max, r.dl, r.overlong), extra), elems)
    requires r.overlong == 0 ==> Codable(count, r.dl[..r.maxCode + 1], MAX_BITS)
    ensures Built(r, freq, elems, max, extra, fixed)
  {
    hide Codable, CodesSet, SendsCode, Price, Symbols, WithExtra, Measured, BuiltLengths, GrownFrom, Charged, ShapeOf, Shape.WellFormed, TreeCounts,
         CodesFit;
    SameSymbols(f0, freq, elems);
    LengthsOk(r, freq, elems, max, symbols, f1, order, w);
    SamePrice(f0, freq, fixed, elems);
    MeasuredIsTree(symbols, elems, max, f1, r.dl, r.overlong, order, w);
    GrownOk(r, f0, freq, elems, max, extra, symbols, f1, order, w);
    NoneAfter(r, freq, elems, max);
    CodesSetFit(r, elems, count);
    if r.overlong == 0 {
      assert WithExtra(Charged(order, elems, max, r.dl, 0), extra) == WithExtra(r.dl, extra) by {
        ChargedDepths(order, elems, max, r.dl, extra);
      }
      CodesSend(r.fc, r.dl, count, r.maxCode, r.maxCode + 1);
      CodesSend(r.fc, r.dl, count, r.maxCode, elems);
    }
  }

  lemma NoneAfter(r: BuiltCode, freq: seq<int>, elems: int, max: nat)
    requires 0 <= elems <= |freq| && elems <= |r.dl| && 0 <= r.maxCode && BuiltLengths(r, freq, elems, max)
    ensures forall v :: r.maxCode < v < elems ==> r.dl[v] == 0
  {
  }

  /** Builds the code of an alphabet. */
  method BuildCode(freq: seq<int>, elems: int, maxLength: int, extraBits: seq<int>, extraBase: int, staticLengths: seq<int>,
                   ghost extra: seq<int>, ghost fixed: seq<int>)
    returns (r: BuiltCode)
    requires 3 <= elems <= 286 && 1 <= maxLength <= MAX_BITS && elems <= Pow2(maxLength) && elems <= |freq|
    requires (staticLengths == [] || |staticLengths| >= elems) && 0 <= extraBase && elems <= extraBase + |extraBits|
    requires forall v :: 0 <= v < elems ==> freq[v] >= 0
    requires extra == ExtraTable(extraBits, extraBase, elems) && (forall x :: 0 <= x < 3 ==> extra[x] == 0)
    requires fixed == StaticTable(staticLengths, extra, elems)
    ensures Built(r, freq, elems, maxLength, extra, fixed)
  {
    hide Codable, CodesSet, Measured, Built, Pow2, Price, Symbols, CountedSymbols.Counted, Forced, Marked, Charged, WithExtra;
    var t := new TreeBuilder(elems, maxLength, extraBits, extraBase, staticLengths, freq);
    ghost var f0 := t.fc[..];
    assert f0[..elems] == freq[..elems];
    ghost var symbols := Symbols(f0, elems);
    ghost var f1 := Marked(f0, Forced(CountedSymbols.Counted(f0, elems)), 1);
    forall v | 0 <= v < elems
      ensures f0[v] >= 0
    {
      assert f0[v] == f0[..elems][v] && freq[v] == freq[..elems][v];
    }
    forall x | 0 <= x < 3
      ensures t.Extra(x) == 0
    {
      assert t.Extra(x) == extra[x];
    }
    assert t.Extras() == extra && t.Statics() == fixed;
    var overlong;
    ghost var order, w;
    overlong, order, w := t.BuildTree(f0, symbols, f1);
    r := BuiltCode(t.fc[..], t.dl[..], t.maxCode, t.optLen, t.staticLen, overlong);
    BuiltOk(r, f0, freq, elems, maxLength, extra, fixed, symbols, f1, t.blCount[..], order, w);
  }

  lemma {:induction false} SpaceScales(lens: seq<int>, max: nat, d: nat, n: nat)
    requires n <= |lens| && LengthsUpTo(lens, max)
    ensures LengthsUpTo(lens, max + d) && CodeSpace(lens, max + d, n) == Pow2(d) * CodeSpace(lens, max, n)
    decreases n
  {
    if n > 0 {
      SpaceScales(lens, max, d, n - 1);
      if lens[n - 1] > 0 {
        Pow2Add(d, max - lens[n - 1]);
        ScaledSum(Pow2(d), CodeSpace(lens, max, n - 1), 1, Pow2(max - lens[n - 1]));
      }
    }
  }

  /** The lengths that are left after building the tree are those of a prefix code exactly when none was cut off. */
  lemma CodeIffNotCutOff(r: BuiltCode, freq: seq<int>, elems: int, max: nat, extra: seq<int>, fixed: seq<int>)
    requires Built(r, freq, elems, max, extra, fixed) && max <= MAX_BITS
    ensures IsCode(r.dl[..elems]) <==> r.overlong == 0
  {
    hide Pow2, SendsCode, Price, LengthsFor, CodeSpace;
    var lens := r.dl[..elems];
    SpaceScales(lens, max, MAX_BITS - max, elems);
    Pow2Add(MAX_BITS - max, max);
    SameScale(Pow2(MAX_BITS - max), CodeSpace(lens, max, elems), Pow2(max));
  }

  lemma SameScale(p: int, a: int, b: int)
    requires p >= 1
    ensures p * a <= p * b <==> a <= b
  {
    if a <= b {
      MulMonotone(p, a, b);
    } else {
      MulMonotone(p, b + 1, a);
      assert p * (b + 1) == p * b + p;
    }
  }
}
