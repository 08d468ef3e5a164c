/** Ending a block: builds its codes, chooses the cheapest form and sends it. */
module BlockFlush {
  import opened Arithmetic
  import opened BitStrings
  import opened Bytes
  import opened Lz77Format
  import opened Options
  import opened PrefixCodes
  import opened CanonicalCodes
  import opened SymbolLengths
  import opened CountedSymbols
  import opened TreeSymbols
  import opened BuiltTree
  import opened DeflateTables
  import opened CodeLengthRuns
  import opened BlockFormat
  import opened BlockHeader
  import opened TokenBuffer
  import opened BitWriter
  import opened BlockEncoder
  import opened BlockCost
  import opened BlockTrees
  import opened BlockStream
  import opened StoredBlocks
  import opened FixedCodes

  const MAX_BL_BITS := 7

  lemma {:induction false} LitCountAtLeast(tables: Tables, ts: seq<Token>, k: nat, i: int)
    requires tables.Valid() && TokensOk(ts) && 0 <= i < k <= |ts|
    ensures LitCount(tables, ts, k, LitSymbol(tables, ts[i])) > 0
    ensures ts[i].Match? ==> DistCount(tables, ts, k, DistSymbol(tables, ts[i])) > 0
    decreases k
  {
    hide CoversLength, CoversDist, CoversStretch;
    if i < k - 1 {
      LitCountAtLeast(tables, ts, k - 1, i);
    }
  }

  /** A counted symbol has a code. */
  lemma CountedIsCoded(r: BuiltCode, freq: seq<int>, elems: int, max: nat, extra: seq<int>, fixed: seq<int>, s: int)
    requires Built(r, freq, elems, max, extra, fixed) && 0 <= s < elems && freq[s] != 0
    ensures s <= r.maxCode && Coded(r.dl[..r.maxCode + 1], s) && Coded(r.dl[..elems], s)
  {
    hide HasTree;
    CountedSymbols.SymbolsInRange(freq, elems);
    assert s in Symbols(freq, elems);
    assert r.dl[s] > 0;
  }

  /** The symbols of all tokens have codes. */
  lemma TokensAreCoded(tables: Tables, ts: seq<Token>, f: seq<int>, g: seq<int>, l: BuiltCode, d: BuiltCode,
                       lex: seq<int>, lfx: seq<int>, dex: seq<int>, dfx: seq<int>)
    requires tables.Valid() && TokensOk(ts) && LitsCounted(tables, ts, f) && DistsCounted(tables, ts, g)
    requires Built(l, f, L_CODES, MAX_BITS, lex, lfx) && Built(d, g, D_CODES, MAX_BITS, dex, dfx)
    ensures AllSendable(tables, l.dl[..l.maxCode + 1], d.dl[..d.maxCode + 1], ts)
    ensures Coded(l.dl[..l.maxCode + 1], END_BLOCK) && l.maxCode >= END_BLOCK
  {
    hide Built, CoversLength, CoversDist, CoversStretch, Coded;
    CountedIsCoded(l, f, L_CODES, MAX_BITS, lex, lfx, END_BLOCK);
    BuiltBounds(l, f, L_CODES, MAX_BITS, lex, lfx);
    BuiltBounds(d, g, D_CODES, MAX_BITS, dex, dfx);
    forall i | 0 <= i < |ts|
      ensures Sendable(tables, l.dl[..l.maxCode + 1], d.dl[..d.maxCode + 1], ts[i])
    {
      TokenBuffer.SymbolsInRange(tables, ts[i]);
      LitCountAtLeast(tables, ts, |ts|, i);
      CountedIsCoded(l, f, L_CODES, MAX_BITS, lex, lfx, LitSymbol(tables, ts[i]));
      if ts[i].Match? {
        CountedIsCoded(d, g, D_CODES, MAX_BITS, dex, dfx, DistSymbol(tables, ts[i]));
      }
    }
  }

  lemma BuiltBounds(r: BuiltCode, freq: seq<int>, elems: int, max: nat, extra: seq<int>, fixed: seq<int>)
    requires Built(r, freq, elems, max, extra, fixed)
    ensures |r.fc| == |r.dl| == 2 * elems + 1 && 0 <= r.maxCode < elems
    ensures forall v :: 0 <= v < elems ==> 0 <= r.dl[v] <= max
  {
  }

  /** The counts of the code length alphabet are those of the runs of both trees. */
  ghost predicate RunsCounted(f: seq<int>, llens: seq<int>, dlens: seq<int>) {
    |f| >= BL_CODES && forall c :: 0 <= c < BL_CODES ==> f[c] == Times(RunsOf(llens), c) + Times(RunsOf(dlens), c)
  }

  lemma RunsAreCoded(runs: seq<Run>, f: seq<int>, bl: BuiltCode, ex: seq<int>, fx: seq<int>)
    requires Built(bl, f, BL_CODES, MAX_BL_BITS, ex, fx) && RunsFit(runs)
    requires forall i :: 0 <= i < |runs| ==> f[runs[i].symbol] > 0
    ensures RunsOk(bl.dl[..BL_CODES], runs)
  {
    hide Built;
    RunPowers();
    BuiltBounds(bl, f, BL_CODES, MAX_BL_BITS, ex, fx);
    forall i | 0 <= i < |runs|
      ensures RunOk(bl.dl[..BL_CODES], runs[i])
    {
      assert RunFits(runs[i]);
      CountedIsCoded(bl, f, BL_CODES, MAX_BL_BITS, ex, fx, runs[i].symbol);
    }
  }

  lemma RunPowers()
    ensures Pow2(0) == 1 && Pow2(2) == 4 && Pow2(3) == 8 && Pow2(7) == 128
  {
    assert Pow2(4) == 16;
  }

  lemma RunSymbolsCount(f: seq<int>, llens: seq<int>, dlens: seq<int>)
    requires Lengths(llens) && Lengths(dlens) && RunsCounted(f, llens, dlens)
    ensures RunsFit(RunsOf(llens)) && RunsFit(RunsOf(dlens))
    ensures forall i :: 0 <= i < |RunsOf(llens)| ==> f[RunsOf(llens)[i].symbol] > 0
    ensures forall i :: 0 <= i < |RunsOf(dlens)| ==> f[RunsOf(dlens)[i].symbol] > 0
  {
    hide Times, Lengths;
    var l, d := RunsOf(llens), RunsOf(dlens);
    ScanFits(llens, |llens|);
    ScanFits(dlens, |dlens|);
    forall i | 0 <= i < |l|
      ensures f[l[i].symbol] > 0
    {
      assert RunFits(l[i]);
      OccursCounts(l, i);
    }
    forall i | 0 <= i < |d|
      ensures f[d[i].symbol] > 0
    {
      assert RunFits(d[i]);
      OccursCounts(d, i);
    }
  }

  /** The symbols of plain lengths come behind the three repeat symbols. */
  lemma PlainComesLater(c: int)
    requires 0 <= c <= LONGEST
    ensures 3 <= Rank(c) < BL_CODES && Order(Rank(c)) == c
  {
  }

  /** The codes of the three alphabets, and the last place of the order with a length. */
  datatype Trio = Trio(l: BuiltCode, d: BuiltCode, b: BuiltCode, last: nat) {

    /** All three have been built from the counts, f and g of the tokens, h of the runs. */
    ghost predicate From(f: seq<int>, g: seq<int>, h: seq<int>) {
      && Built(l, f, L_CODES, MAX_BITS, LitExtras(), StaticTable(FixedLens(), LitExtras(), L_CODES))
      && Built(d, g, D_CODES, MAX_BITS, DistExtras(), StaticTable(FixedDists(), DistExtras(), D_CODES))
      && Built(b, h, BL_CODES, MAX_BL_BITS, RunExtras(), StaticTable([], RunExtras(), BL_CODES))
      && RunsCounted(h, l.dl[..l.maxCode + 1], d.dl[..d.maxCode + 1])
      && 2 <= last < BL_CODES && Ends(b.dl, last)
    }

    /** No length was cut off. */
    predicate Unclamped() {
      l.overlong == 0 && d.overlong == 0 && b.overlong == 0
    }

    function Codes(): Codes
      requires 0 <= l.maxCode < |l.dl| && 0 <= d.maxCode < |d.dl| && BL_CODES <= |b.dl|
    {
      BlockStream.Codes(l.dl[..l.maxCode + 1], d.dl[..d.maxCode + 1], b.dl[..BL_CODES], last + 1)
    }

    function L(): Coding {
      Coding(l.fc, l.dl)
    }

    function D(): Coding {
      Coding(d.fc, d.dl)
    }

    function B(): Coding {
      Coding(b.fc, b.dl)
    }

    /** Trees and tokens can be sent, cut off or not. */
    ghost predicate Ready(tables: Tables, ts: seq<Token>) {
      && tables.Valid() && 0 <= l.maxCode < |l.dl| && 0 <= d.maxCode < |d.dl| && BL_CODES <= |b.dl|
      && HeaderShape(Codes().bl, Codes().blcodes, Codes().llens, Codes().dlens)
      && RunsReady(B(), RunsOf(Codes().llens)) && RunsReady(B(), RunsOf(Codes().dlens))
      && AllReady(tables, L(), D(), ts) && L().Sends(END_BLOCK)
    }

    /** The bits sent for a block with its own codes, cut off or not. */
    ghost function Sent(tables: Tables, ts: seq<Token>, final: bool): seq<bool>
      requires Ready(tables, ts)
    {
      Bits(2 * DYN_TREES + Flag(final), 3) + TreesSent(B(), Codes().bl, Codes().blcodes, Codes().llens, Codes().dlens)
      + DataSent(tables, L(), D(), ts)
    }
  }

  /** Behind place `last` of the order there are no lengths, and there is one, if it is not among the first three. */
  ghost predicate Ends(bdl: seq<int>, last: nat) {
    && |bdl| >= BL_CODES && (forall i :: last < i < BL_CODES ==> 0 <= Order(i) < BL_CODES && bdl[Order(i)] == 0)
    && (2 < last < BL_CODES ==> 0 <= Order(last) < BL_CODES && bdl[Order(last)] != 0)
  }

  lemma TrioBounds(t: Trio, f: seq<int>, g: seq<int>, h: seq<int>)
    requires t.From(f, g, h)
    ensures |t.l.fc| == |t.l.dl| == 2 * L_CODES + 1 && 0 <= t.l.maxCode < L_CODES
    ensures |t.d.fc| == |t.d.dl| == 2 * D_CODES + 1 && 0 <= t.d.maxCode < D_CODES
    ensures |t.b.fc| == |t.b.dl| == 2 * BL_CODES + 1
    ensures Lengths(t.l.dl[..t.l.maxCode + 1]) && Lengths(t.d.dl[..t.d.maxCode + 1])
    ensures forall v :: 0 <= v < BL_CODES ==> 0 <= t.b.dl[..BL_CODES][v] < 8
  {
    hide Built, LitExtras, DistExtras, RunExtras, StaticTable, FixedLens, FixedDists, RunsCounted, Ends;
    BuiltBounds(t.l, f, L_CODES, MAX_BITS, LitExtras(), StaticTable(FixedLens(), LitExtras(), L_CODES));
    BuiltBounds(t.d, g, D_CODES, MAX_BITS, DistExtras(), StaticTable(FixedDists(), DistExtras(), D_CODES));
    BuiltBounds(t.b, h, BL_CODES, MAX_BL_BITS, RunExtras(), StaticTable([], RunExtras(), BL_CODES));
  }

  lemma TrioCodes(t: Trio, f: seq<int>, g: seq<int>, h: seq<int>)
    requires t.From(f, g, h) && t.Unclamped()
    ensures |t.l.dl| > t.l.maxCode >= 0 && SendsCode(t.l.fc, t.l.dl, t.l.dl[..t.l.maxCode + 1])
    ensures |t.d.dl| > t.d.maxCode >= 0 && SendsCode(t.d.fc, t.d.dl, t.d.dl[..t.d.maxCode + 1])
    ensures |t.b.dl| >= BL_CODES && SendsCode(t.b.fc, t.b.dl, t.b.dl[..BL_CODES])
  {
    hide HasTree;
    hide SendsCode, LengthsFor, StaticTable, LitExtras, DistExtras, RunExtras, Price, CodeSpace, Symbols;
  }

  /** The trees have the shape a header needs, at least four lengths of the code length code are sent, and all tokens have lengths. */
  lemma CodesHaveShape(tables: Tables, ts: seq<Token>, f: seq<int>, g: seq<int>, h: seq<int>, t: Trio, c: Codes)
    requires tables.Valid() && TokensOk(ts) && LitsCounted(tables, ts, f) && DistsCounted(tables, ts, g) && t.From(f, g, h)
    requires 0 <= t.l.maxCode < |t.l.dl| && 0 <= t.d.maxCode < |t.d.dl| && BL_CODES <= |t.b.dl| && c == t.Codes()
    ensures HeaderShape(c.bl, c.blcodes, c.llens, c.dlens)
    ensures AllSendable(tables, c.llens, c.dlens, ts) && Coded(c.llens, END_BLOCK)
  {
    hide Order, Rank, RunsOf, LitsCounted, DistsCounted, AllSendable, RunsOk, Tables.Valid, RunsCounted, Built,
         LitExtras, DistExtras, RunExtras, StaticTable, FixedLens, FixedDists, Ends;
    var lex, dex, bex := LitExtras(), DistExtras(), RunExtras();
    var bfx := StaticTable([], bex, BL_CODES);
    TrioBounds(t, f, g, h);
    TokensAreCoded(tables, ts, f, g, t.l, t.d, lex, StaticTable(FixedLens(), lex, L_CODES),
                   dex, StaticTable(FixedDists(), dex, D_CODES));
    RunSymbolsCount(h, c.llens, c.dlens);
    RunsAreCoded(RunsOf(c.llens), h, t.b, bex, bfx);
    RunsAreCoded(RunsOf(c.dlens), h, t.b, bex, bfx);
    FourLengths(h, t.b, bex, bfx, c.llens, END_BLOCK, t.last);
    EndsInCode(t.b.dl, t.last);
  }

  /** The codes of a dynamic block that were not cut off are fit to send its tokens. */
  lemma CodesAreFit(tables: Tables, ts: seq<Token>, f: seq<int>, g: seq<int>, h: seq<int>, t: Trio, c: Codes)
    requires tables.Valid() && TokensOk(ts) && LitsCounted(tables, ts, f) && DistsCounted(tables, ts, g)
    requires t.From(f, g, h) && t.Unclamped()
    requires 0 <= t.l.maxCode < |t.l.dl| && 0 <= t.d.maxCode < |t.d.dl| && BL_CODES <= |t.b.dl| && c == t.Codes()
    ensures c.Fit(tables, ts)
  {
    hide IsCode, LitsCounted, DistsCounted, AllSendable, Tables.Valid, SendsCode, HeaderShape, Trio.From;
    TrioCodes(t, f, g, h);
    SendersAreCodes(t.l.fc, t.l.dl, c.llens);
    SendersAreCodes(t.d.fc, t.d.dl, c.dlens);
    SendersAreCodes(t.b.fc, t.b.dl, c.bl);
    CodesHaveShape(tables, ts, f, g, h, t, c);
  }

  /** A symbol with a length can be sent. */
  lemma CodedIsSent(r: BuiltCode, freq: seq<int>, elems: int, max: nat, extra: seq<int>, fixed: seq<int>, n: nat, v: int)
    requires Built(r, freq, elems, max, extra, fixed) && n <= elems && Coded(r.dl[..n], v)
    ensures Coding(r.fc, r.dl).Sends(v)
  {
    hide HasTree, SendsCode, BuiltLengths, Coding.Sends;
  }

  lemma TokensAreReady(tables: Tables, ts: seq<Token>, f: seq<int>, g: seq<int>, h: seq<int>, t: Trio, c: Codes)
    requires tables.Valid() && t.From(f, g, h)
    requires 0 <= t.l.maxCode < |t.l.dl| && 0 <= t.d.maxCode < |t.d.dl| && BL_CODES <= |t.b.dl| && c == t.Codes()
    requires AllSendable(tables, c.llens, c.dlens, ts) && Coded(c.llens, END_BLOCK)
    ensures AllReady(tables, t.L(), t.D(), ts) && t.L().Sends(END_BLOCK)
  {
    hide Built, CoversLength, CoversDist, CoversStretch, Coding.Sends, LitExtras, DistExtras, RunExtras, StaticTable, FixedLens, FixedDists,
         RunsCounted, Ends, LitSymbol, DistSymbol;
    var lex, dex := LitExtras(), DistExtras();
    var lfx, dfx := StaticTable(FixedLens(), lex, L_CODES), StaticTable(FixedDists(), dex, D_CODES);
    TrioBounds(t, f, g, h);
    forall i | 0 <= i < |ts|
      ensures TokenReady(tables, t.L(), t.D(), ts[i])
    {
      assert Sendable(tables, c.llens, c.dlens, ts[i]);
      CodedIsSent(t.l, f, L_CODES, MAX_BITS, lex, lfx, t.l.maxCode + 1, LitSymbol(tables, ts[i]));
      if ts[i].Match? {
        CodedIsSent(t.d, g, D_CODES, MAX_BITS, dex, dfx, t.d.maxCode + 1, DistSymbol(tables, ts[i]));
      }
    }
    CodedIsSent(t.l, f, L_CODES, MAX_BITS, lex, lfx, t.l.maxCode + 1, END_BLOCK);
  }

  lemma RunsAreSendable(t: Trio, f: seq<int>, g: seq<int>, h: seq<int>, runs: seq<Run>)
    requires t.From(f, g, h) && BL_CODES <= |t.b.dl| && RunsOk(t.b.dl[..BL_CODES], runs)
    ensures RunsReady(t.B(), runs)
  {
    hide Built, Coding.Sends, LitExtras, DistExtras, RunExtras, StaticTable, FixedLens, FixedDists, RunsCounted, Ends, Pow2;
    forall i | 0 <= i < |runs|
      ensures RunReady(t.B(), runs[i])
    {
      assert RunOk(t.b.dl[..BL_CODES], runs[i]);
      CodedIsSent(t.b, h, BL_CODES, MAX_BL_BITS, RunExtras(), StaticTable([], RunExtras(), BL_CODES), BL_CODES, runs[i].symbol);
    }
  }

  /** Whatever was cut off, trees and tokens can be sent. */
  lemma TrioIsReady(tables: Tables, ts: seq<Token>, f: seq<int>, g: seq<int>, h: seq<int>, t: Trio)
    requires tables.Valid() && TokensOk(ts) && LitsCounted(tables, ts, f) && DistsCounted(tables, ts, g) && t.From(f, g, h)
    ensures t.Ready(tables, ts)
  {
    hide LitsCounted, DistsCounted, AllSendable, AllReady, Tables.Valid, Trio.From, RunsOf, RunsOk, RunsReady, Coding.Sends;
    TrioBounds(t, f, g, h);
    var c := t.Codes();
    CodesHaveShape(tables, ts, f, g, h, t, c);
    TokensAreReady(tables, ts, f, g, h, t, c);
    RunsAreSendable(t, f, g, h, RunsOf(c.llens));
    RunsAreSendable(t, f, g, h, RunsOf(c.dlens));
  }

  /** What is sent for a block that was not cut off. */
  lemma SentIsDynamicBlock(tables: Tables, ts: seq<Token>, f: seq<int>, g: seq<int>, h: seq<int>, t: Trio, c: Codes, final: bool)
    requires t.From(f, g, h) && t.Unclamped() && t.Ready(tables, ts)
    requires c == t.Codes() && c.Fit(tables, ts)
    ensures t.Sent(tables, ts, final) == DynamicBlock(tables, c, ts, final)
  {
    hide Tables.Valid, AllSendable, AllReady, IsCode, SendsCode, HeaderFits, HeaderShape, RunsReady, Trio.From, TreesSent, DataSent, TreeBits, BlockData,
         Coding.Sends, Bits, RunsOf;
    TrioCodes(t, f, g, h);
    HeaderHasCode(c.bl, c.blcodes, c.llens, c.dlens);
    TreesSentAreCoded(t.B(), c.bl, c.blcodes, c.llens, c.dlens);
    DataSentIsCoded(tables, t.L(), t.D(), c.llens, c.dlens, ts);
  }

  /** Zeros behind the lengths of a code do not matter. */
  lemma {:induction false} CodeWithZeros(lens: seq<int>, k: nat)
    requires k <= |lens| && LengthsUpTo(lens, MAX_BITS) && IsCode(lens[..k]) && forall v :: k <= v < |lens| ==> lens[v] == 0
    ensures IsCode(lens)
  {
    hide Pow2;
    SpaceOfPrefix(lens, MAX_BITS, k, |lens|);
    SpaceFrame(lens, k, k);
  }

  lemma {:induction false} SpaceFrame(lens: seq<int>, k: nat, n: nat)
    requires n <= k <= |lens| && LengthsUpTo(lens, MAX_BITS)
    ensures LengthsUpTo(lens[..k], MAX_BITS) && CodeSpace(lens[..k], MAX_BITS, n) == CodeSpace(lens, MAX_BITS, n)
    decreases n
  {
    hide Pow2;
    if n > 0 {
      SpaceFrame(lens, k, n - 1);
    }
  }

  /** Lengths that were cut off are those of no code, also without the zeros behind them. */
  lemma {:induction false} CutOffIsNone(r: BuiltCode, freq: seq<int>, elems: int, max: nat, extra: seq<int>, fixed: seq<int>)
    requires Built(r, freq, elems, max, extra, fixed) && max <= MAX_BITS && r.overlong != 0
    ensures !IsCode(r.dl[..elems]) && !IsCode(r.dl[..r.maxCode + 1])
  {
    hide HasTree, SendsCode, CodesFit, IsCode, CodeSpace, LengthsFor;
    CodeIffNotCutOff(r, freq, elems, max, extra, fixed);
    var lens := r.dl[..elems];
    assert lens[..r.maxCode + 1] == r.dl[..r.maxCode + 1];
    if IsCode(r.dl[..r.maxCode + 1]) {
      CodeWithZeros(lens, r.maxCode + 1);
    }
  }

  lemma TrioCutOff(t: Trio, f: seq<int>, g: seq<int>, h: seq<int>)
    requires t.From(f, g, h)
    ensures BL_CODES <= |t.b.dl| && 0 <= t.l.maxCode < |t.l.dl| && 0 <= t.d.maxCode < |t.d.dl|
    ensures t.b.overlong != 0 ==> !IsCode(t.Codes().bl)
    ensures t.b.overlong == 0 ==> IsCode(t.Codes().bl) && SendsCode(t.b.fc, t.b.dl, t.Codes().bl)
    ensures t.l.overlong != 0 ==> !IsCode(t.Codes().llens)
    ensures t.d.overlong != 0 ==> !IsCode(t.Codes().dlens)
  {
    hide Built, LitExtras, DistExtras, RunExtras, StaticTable, FixedLens, FixedDists, RunsCounted, Ends, IsCode, SendsCode;
    TrioBounds(t, f, g, h);
    var lex, dex, bex := LitExtras(), DistExtras(), RunExtras();
    var bfx := StaticTable([], bex, BL_CODES);
    if t.l.overlong != 0 {
      CutOffIsNone(t.l, f, L_CODES, MAX_BITS, lex, StaticTable(FixedLens(), lex, L_CODES));
    }
    if t.d.overlong != 0 {
      CutOffIsNone(t.d, g, D_CODES, MAX_BITS, dex, StaticTable(FixedDists(), dex, D_CODES));
    }
    if t.b.overlong != 0 {
      CutOffIsNone(t.b, h, BL_CODES, MAX_BL_BITS, bex, bfx);
    } else {
      KeptSends(t.b, h, BL_CODES, MAX_BL_BITS, bex, bfx);
      SendersAreCodes(t.b.fc, t.b.dl, t.Codes().bl);
    }
  }

  lemma KeptSends(r: BuiltCode, freq: seq<int>, elems: int, max: nat, extra: seq<int>, fixed: seq<int>)
    requires Built(r, freq, elems, max, extra, fixed) && r.overlong == 0
    ensures SendsCode(r.fc, r.dl, r.dl[..elems])
  {
    hide HasTree, SendsCode, CodesFit;
  }

  /** A decoder refuses a block whose lengths were cut off, whatever follows. */
  lemma {:induction false} CutOffIsRefused(tables: Tables, ts: seq<Token>, f: seq<int>, g: seq<int>, h: seq<int>, t: Trio, final: bool)
    requires t.From(f, g, h) && !t.Unclamped() && t.Ready(tables, ts)
    ensures Refused(t.Sent(tables, ts, final))
  {
    hide Tables.Valid, AllReady, IsCode, SendsCode, HeaderShape, RunsReady, Trio.From, DataSent, HeadBits, TreeBits, TreesSent, Coding.Sends, Bits, RunsOf,
         ReadDynamic, ReadNumber, RunsSent;
    TrioCutOff(t, f, g, h);
    var c, data := t.Codes(), DataSent(tables, t.L(), t.D(), ts);
    var trees := TreesSent(t.B(), c.bl, c.blcodes, c.llens, c.dlens);
    forall rest: seq<bool>
      ensures ReadBlock(t.Sent(tables, ts, final) + rest) == None
    {
      var body := trees + data + rest;
      assert t.Sent(tables, ts, final) + rest == Bits(2 * DYN_TREES + Flag(final), 3) + body;
      KindBits(DYN_TREES, final, body);
      if t.b.overlong != 0 {
        var behind := TreesBehindHead(t.B(), c, data + rest);
        assert body == trees + (data + rest);
        HeadRefused(c.bl, c.blcodes, c.llens, c.dlens, behind);
      } else {
        TreesSentAreCoded(t.B(), c.bl, c.blcodes, c.llens, c.dlens);
        assert body == TreeBits(c.bl, c.blcodes, c.llens, c.dlens) + (data + rest);
        TreesRefused(c.bl, c.blcodes, c.llens, c.dlens, data + rest);
      }
    }
  }

  lemma TreesBehindHead(b: Coding, c: Codes, rest: seq<bool>) returns (behind: seq<bool>)
    requires HeaderShape(c.bl, c.blcodes, c.llens, c.dlens) && RunsReady(b, RunsOf(c.llens)) && RunsReady(b, RunsOf(c.dlens))
    ensures TreesSent(b, c.bl, c.blcodes, c.llens, c.dlens) + rest == HeadBits(c.bl, c.blcodes, c.llens, c.dlens) + behind
  {
    hide HeadBits, RunsSent, HeaderShape, RunsReady, RunsOf;
    var l, d := RunsSent(b, RunsOf(c.llens), |RunsOf(c.llens)|), RunsSent(b, RunsOf(c.dlens), |RunsOf(c.dlens)|);
    behind := l + d + rest;
    assert HeadBits(c.bl, c.blcodes, c.llens, c.dlens) + l + d + rest == HeadBits(c.bl, c.blcodes, c.llens, c.dlens) + (l + d + rest);
  }

  lemma SendersAreCodes(fc: seq<int>, dl: seq<int>, lens: seq<int>)
    requires SendsCode(fc, dl, lens)
    ensures IsCode(lens)
  {
  }

  lemma EndsInCode(bdl: seq<int>, last: nat)
    requires Ends(bdl, last)
    ensures forall i :: last + 1 <= i < BL_CODES ==> 0 <= Order(i) < BL_CODES && bdl[..BL_CODES][Order(i)] == 0
  {
  }

  /** At least four lengths of the code length code are sent. */
  lemma FourLengths(h: seq<int>, b: BuiltCode, bex: seq<int>, bfx: seq<int>, llens: seq<int>, n: int, last: nat)
    requires Built(b, h, BL_CODES, MAX_BL_BITS, bex, bfx) && Lengths(llens) && Coded(llens, n) && RunsFit(RunsOf(llens))
    requires forall i :: 0 <= i < |RunsOf(llens)| ==> h[RunsOf(llens)[i].symbol] > 0
    requires Ends(b.dl, last)
    ensures last >= 3
  {
    hide Order, Rank, RunsOf;
    var i := SomePlainLength(llens, n);
    var s := RunsOf(llens)[i].symbol;
    assert RunFits(RunsOf(llens)[i]);
    CountedIsCoded(b, h, BL_CODES, MAX_BL_BITS, bex, bfx, s);
    PlainComesLater(s);
  }

  /** Counts the runs of both trees and sets the guards. */
  method ScanBoth(l: BuiltCode, d: BuiltCode) returns (freq: seq<int>, ldl: seq<int>, ddl: seq<int>)
    requires 0 <= l.maxCode && l.maxCode + 1 < |l.dl| && Lengths(l.dl[..l.maxCode + 1])
    requires 0 <= d.maxCode && d.maxCode + 1 < |d.dl| && Lengths(d.dl[..d.maxCode + 1])
    ensures ldl == l.dl[l.maxCode + 1 := GUARD] && ddl == d.dl[d.maxCode + 1 := GUARD]
    ensures |freq| == BL_CODES && RunsCounted(freq, l.dl[..l.maxCode + 1], d.dl[..d.maxCode + 1])
    ensures forall c :: 0 <= c < BL_CODES ==> freq[c] >= 0
  {
    hide RunsOf, Times, Lengths;
    ghost var llens, dlens := l.dl[..l.maxCode + 1], d.dl[..d.maxCode + 1];
    var fc := new int[BL_CODES](_ => 0);
    var la := new int[|l.dl|](i requires 0 <= i < |l.dl| => l.dl[i]);
    var da := new int[|d.dl|](i requires 0 <= i < |d.dl| => d.dl[i]);
    assert la[..] == l.dl && da[..] == d.dl;
    assert la[..l.maxCode + 1] == llens && da[..d.maxCode + 1] == dlens;
    ghost var zero := fc[..];
    ScanTree(la, l.maxCode, fc);
    assert la[..l.maxCode + 1] == llens;
    ghost var once := fc[..];
    ScanTree(da, d.maxCode, fc);
    assert da[..d.maxCode + 1] == dlens;
    freq, ldl, ddl := fc[..], la[..], da[..];
    assert Tallied(zero, once, RunsOf(llens)) && Tallied(once, freq, RunsOf(dlens));
  }

  /** The last place of the order with a length. */
  method LastLength(bdl: seq<int>) returns (last: nat)
    requires |bdl| >= BL_CODES
    ensures 2 <= last < BL_CODES && Ends(bdl, last)
  {
    hide Order, Rank;
    RankOfOrderAlways();
    last := BL_CODES - 1;
    while last >= 3
      invariant 2 <= last < BL_CODES
      invariant forall i :: last < i < BL_CODES ==> 0 <= Order(i) < BL_CODES && bdl[Order(i)] == 0
    {
      if bdl[Order(last)] != 0 {
        break;
      }
      last := last - 1;
    }
  }

  /** The bits charged for a dynamic block. */
  function OptLen(t: Trio): int {
    t.l.optLen + t.d.optLen + t.b.optLen + 3 * (t.last + 1) + 5 + 5 + 4
  }

  /** The bits charged for a block with the fixed codes. */
  function StaticLen(t: Trio): int {
    t.l.staticLen + t.d.staticLen + t.b.staticLen
  }

  /** When nothing is cut off, the bits charged for a dynamic block are the bits sent for it. */
  lemma {:induction false} OptLenIsExact(tables: Tables, ts: seq<Token>, f: seq<int>, g: seq<int>, h: seq<int>, t: Trio, c: Codes)
    requires tables.Valid() && TokensOk(ts) && LitsCounted(tables, ts, f) && DistsCounted(tables, ts, g)
    requires t.From(f, g, h) && t.Unclamped()
    requires 0 <= t.l.maxCode < |t.l.dl| && 0 <= t.d.maxCode < |t.d.dl| && BL_CODES <= |t.b.dl| && c == t.Codes()
    ensures c.Fit(tables, ts)
    ensures OptLen(t) == |TreeBits(c.bl, c.blcodes, c.llens, c.dlens)| + |BlockData(tables, c.llens, c.dlens, ts)|
  {
    hide HasTree, CodesFit;
    hide LitsCounted, DistsCounted, AllSendable, Tables.Valid, HeaderFits, SendsCode, IsCode, Price, LengthsFor, CodeSpace,
         TreeBits, BlockData, StaticTable, FixedLens, FixedDists, Symbols, Ends;
    CodesAreFit(tables, ts, f, g, h, t, c);
    BlockDataCost(tables, c.llens, c.dlens, t.l.dl, t.d.dl, ts, f, g);
    TreeBitsCost(c.bl, c.blcodes, c.llens, c.dlens, h);
    assert WithExtra(c.bl, RunExtras()) == WithExtra(t.b.dl, RunExtras());
  }

  /** The bits charged for the fixed codes are the bits sent with them, cut off or not. */
  lemma StaticLenIsExact(tables: Tables, ts: seq<Token>, f: seq<int>, g: seq<int>, h: seq<int>, t: Trio)
    requires tables.Valid() && TokensOk(ts) && LitsCounted(tables, ts, f) && DistsCounted(tables, ts, g)
    requires t.From(f, g, h)
    ensures IsCode(FixedLens()) && IsCode(FixedDists()) && AllSendable(tables, FixedLens(), FixedDists(), ts)
    ensures Coded(FixedLens(), END_BLOCK)
    ensures StaticLen(t) == |BlockData(tables, FixedLens(), FixedDists(), ts)|
  {
    hide HasTree, CodesFit;
    hide LitsCounted, DistsCounted, AllSendable, Tables.Valid, SendsCode, IsCode, Price, LengthsFor, CodeSpace, BlockData, Symbols,
         Ends, RunsCounted;
    FixedAreCodes();
    FixedSendable(tables, ts);
    BlockDataCost(tables, FixedLens(), FixedDists(), FixedLens(), FixedDists(), ts, f, g);
    assert StaticTable(FixedLens(), LitExtras(), L_CODES) == WithExtra(FixedLens(), LitExtras());
    assert StaticTable(FixedDists(), DistExtras(), D_CODES) == WithExtra(FixedDists(), DistExtras());
    FreeOfCharge(h, StaticTable([], RunExtras(), BL_CODES), BL_CODES);
  }

  lemma {:induction false} FreeOfCharge(f: seq<int>, per: seq<int>, n: nat)
    requires n <= |f| && n <= |per| && forall v :: 0 <= v < n ==> per[v] == 0
    ensures Price(f, per, n) == 0
    decreases n
  {
    if n > 0 {
      FreeOfCharge(f, per, n - 1);
    }
  }

  lemma {:induction false} CountsAreNatural(tables: Tables, ts: seq<Token>, f: seq<int>, g: seq<int>)
    requires tables.Valid() && TokensOk(ts) && LitsCounted(tables, ts, f) && DistsCounted(tables, ts, g)
    ensures forall v :: 0 <= v < L_CODES ==> f[v] >= 0
    ensures forall v :: 0 <= v < D_CODES ==> g[v] >= 0
  {
  }

  /** Extra bits of the length codes, as a table. */
  function LengthExtras(): (r: seq<int>)
    ensures |r| == LENGTH_CODES && forall c :: 0 <= c < LENGTH_CODES ==> r[c] == LengthExtra(c)
  {
    seq(LENGTH_CODES, c requires 0 <= c < LENGTH_CODES => LengthExtra(c))
  }

  lemma ExtraTables()
    ensures ExtraTable(LengthExtras(), LITERALS + 1, L_CODES) == LitExtras()
    ensures ExtraTable(DistExtras(), 0, D_CODES) == DistExtras()
    ensures ExtraTable(RunExtras(), 0, BL_CODES) == RunExtras()
    ensures forall x :: 0 <= x < 3 ==> LitExtras()[x] == 0 && DistExtras()[x] == 0 && RunExtras()[x] == 0
    ensures L_CODES <= Pow2(MAX_BITS) && D_CODES <= Pow2(MAX_BITS) && BL_CODES <= Pow2(MAX_BL_BITS)
  {
    FixedPowers();
    RunPowers();
  }

  /** Builds the codes of the three alphabets for the counts of a block. */
  method BuildTrees(f: seq<int>, g: seq<int>) returns (t: Trio, ldl: seq<int>, ddl: seq<int>, ghost h: seq<int>)
    requires |f| >= L_CODES && |g| >= D_CODES
    requires (forall v :: 0 <= v < L_CODES ==> f[v] >= 0) && (forall v :: 0 <= v < D_CODES ==> g[v] >= 0)
    ensures t.From(f, g, h)
    ensures |t.l.dl| > t.l.maxCode + 1 > 0 && ldl == t.l.dl[t.l.maxCode + 1 := GUARD]
    ensures |t.d.dl| > t.d.maxCode + 1 > 0 && ddl == t.d.dl[t.d.maxCode + 1 := GUARD]
  {
    hide Built, Pow2, LitExtras, DistExtras, RunExtras, LengthExtras, StaticTable, ExtraTable, FixedLens, FixedDists, RunsCounted, Ends;
    ExtraTables();
    var l := BuildCode(f, L_CODES, MAX_BITS, LengthExtras(), LITERALS + 1, FixedLens(), LitExtras(),
                       StaticTable(FixedLens(), LitExtras(), L_CODES));
    var d := BuildCode(g, D_CODES, MAX_BITS, DistExtras(), 0, FixedDists(), DistExtras(),
                       StaticTable(FixedDists(), DistExtras(), D_CODES));
    BuiltBounds(l, f, L_CODES, MAX_BITS, LitExtras(), StaticTable(FixedLens(), LitExtras(), L_CODES));
    BuiltBounds(d, g, D_CODES, MAX_BITS, DistExtras(), StaticTable(FixedDists(), DistExtras(), D_CODES));
    var freq;
    freq, ldl, ddl := ScanBoth(l, d);
    h := freq;
    var b := BuildCode(freq, BL_CODES, MAX_BL_BITS, RunExtras(), 0, [], RunExtras(), StaticTable([], RunExtras(), BL_CODES));
    BuiltBounds(b, freq, BL_CODES, MAX_BL_BITS, RunExtras(), StaticTable([], RunExtras(), BL_CODES));
    var last := LastLength(b.dl);
    t := Trio(l, d, b, last);
  }

  /** How a block is sent. `CutOff` is a dynamic block whose lengths were cut off. */
  datatype Kind = Stored | Static | Dynamic | CutOff

  function InBytes(bits: int): int {
    (bits + 3 + 7) / 8
  }

  /** The form chosen for a block: the stored form where it is shortest, else the shorter of the other two. */
  function Choice(optLen: int, staticLen: int, storedLen: int, blockStart: int): Kind {
    var shorter := if InBytes(staticLen) <= InBytes(optLen) then InBytes(staticLen) else InBytes(optLen);
    if storedLen + 4 <= shorter && blockStart >= 0 then Stored
    else if InBytes(staticLen) == shorter then Static
    else Dynamic
  }

  /** `sent` is a block that reads back as the tokens, and is no longer in bytes than with the fixed codes. */
  ghost predicate SentAs(before: nat, sent: seq<bool>, tables: Tables, ts: seq<Token>, final: bool) {
    && tables.Valid() && TokensOk(ts) && ReadsAs(before, sent, ts, final)
    && |sent| >= 3 && (|sent| + 7) / 8 <= (|StaticBlock(tables, ts, final)| + 7) / 8
  }

  /** Sends a block with the fixed codes. */
  method SendStatic(w: Writer, tables: Tables, lBuf: seq<int>, dBuf: seq<int>, flagBuf: seq<int>, lastLit: int,
                    slfc: seq<int>, sdfc: seq<int>, eof: bool, ghost ts: seq<Token>)
    requires w.Valid() && tables.Valid() && Unpacks(lBuf, dBuf, flagBuf, ts) && lastLit == |ts| && TokensOk(ts)
    requires SendsCode(slfc, FixedLens(), FixedLens()) && SendsCode(sdfc, FixedDists(), FixedDists())
    modifies w, w.sink.repr
    ensures w.Valid() && fresh(w.sink.repr - old(w.sink.repr)) && w.sink.taken == old(w.sink.taken)
    ensures w.Stream() == old(w.Stream()) + StaticBlock(tables, ts, eof)
  {
    hide Writer.Valid, Writer.Stream, Bits, SendsCode, IsCode, BlockData, Unpacks, Pow2, FixedLens, FixedDists, Tables.Valid, AllSendable, AllReady,
         DataSent, Coding.Sends;
    FixedAreCodes();
    FixedSendable(tables, ts);
    KindBits(STATIC_TREES, eof, []);
    w.SendBits(2 * STATIC_TREES + Flag(eof), 3);
    var l, d := Coding(slfc, FixedLens()), Coding(sdfc, FixedDists());
    DataSentIsCoded(tables, l, d, FixedLens(), FixedDists(), ts);
    CompressBlock(w, tables, lBuf, dBuf, flagBuf, lastLit, l, d, ts);
  }

  /** Sends a block with its own codes. */
  method SendDynamic(w: Writer, tables: Tables, lBuf: seq<int>, dBuf: seq<int>, flagBuf: seq<int>, lastLit: int,
                     t: Trio, ldl: seq<int>, ddl: seq<int>, eof: bool, ghost ts: seq<Token>)
    requires w.Valid() && Unpacks(lBuf, dBuf, flagBuf, ts) && lastLit == |ts| && t.Ready(tables, ts)
    requires |t.l.dl| > t.l.maxCode + 1 > 0 && ldl == t.l.dl[t.l.maxCode + 1 := GUARD]
    requires |t.d.dl| > t.d.maxCode + 1 > 0 && ddl == t.d.dl[t.d.maxCode + 1 := GUARD]
    modifies w, w.sink.repr
    ensures w.Valid() && fresh(w.sink.repr - old(w.sink.repr)) && w.sink.taken == old(w.sink.taken)
    ensures w.Stream() == old(w.Stream()) + t.Sent(tables, ts, eof)
  {
    hide Writer.Valid, Writer.Stream, Bits, Unpacks, Pow2, Tables.Valid, AllReady, HeaderShape, RunsReady, TreesSent, DataSent, Coding.Sends, RunsOf;
    ghost var c := t.Codes();
    KindBits(DYN_TREES, eof, []);
    w.SendBits(2 * DYN_TREES + Flag(eof), 3);
    assert ldl[..t.l.maxCode + 1] == c.llens && ddl[..t.d.maxCode + 1] == c.dlens;
    SendAllTrees(w, t.l.maxCode + 1, t.d.maxCode + 1, t.last + 1, ldl, ddl, t.B(), c.llens, c.dlens, c.bl);
    CompressBlock(w, tables, lBuf, dBuf, flagBuf, lastLit, t.L(), t.D(), ts);
  }

  lemma HeaderHasCode(bl: seq<int>, blcodes: nat, llens: seq<int>, dlens: seq<int>)
    requires HeaderFits(bl, blcodes, llens, dlens)
    ensures IsCode(bl)
  {
  }

  lemma StaticSent(before: nat, tables: Tables, ts: seq<Token>, final: bool)
    requires tables.Valid() && TokensOk(ts)
    ensures SentAs(before, StaticBlock(tables, ts, final), tables, ts, final) && |StaticBlock(tables, ts, final)| >= 3
  {
    hide ReadBlock, Tables.Valid, BlockData, Bits, FixedLens, FixedDists, AllSendable, IsCode;
    forall rest: seq<bool>
      ensures ReadBlock(StaticBlock(tables, ts, final) + rest) == Some(Block(final, ts, rest))
    {
      StaticReadBack(tables, ts, final, rest);
    }
  }

  lemma DynamicSent(before: nat, tables: Tables, ts: seq<Token>, final: bool, f: seq<int>, g: seq<int>, h: seq<int>, t: Trio, c: Codes)
    requires tables.Valid() && TokensOk(ts) && LitsCounted(tables, ts, f) && DistsCounted(tables, ts, g)
    requires t.From(f, g, h) && t.Unclamped() && InBytes(OptLen(t)) < InBytes(StaticLen(t))
    requires 0 <= t.l.maxCode < |t.l.dl| && 0 <= t.d.maxCode < |t.d.dl| && BL_CODES <= |t.b.dl| && c == t.Codes()
    ensures c.Fit(tables, ts) && SentAs(before, DynamicBlock(tables, c, ts, final), tables, ts, final)
    ensures |DynamicBlock(tables, c, ts, final)| >= 3
  {
    hide ReadBlock, Tables.Valid, LitsCounted, DistsCounted, Trio.From, Codes.Fit, BlockData, TreeBits, Bits, FixedLens, FixedDists,
         AllSendable, IsCode, OptLen, StaticLen;
    OptLenIsExact(tables, ts, f, g, h, t, c);
    StaticLenIsExact(tables, ts, f, g, h, t);
    forall rest: seq<bool>
      ensures ReadBlock(DynamicBlock(tables, c, ts, final) + rest) == Some(Block(final, ts, rest))
    {
      DynamicBlockReadBack(tables, c, ts, final, rest);
    }
  }

  /** w and b share no memory. */
  ghost predicate Separate(w: Writer, b: Buffer)
    reads w.sink
  {
    && b !in w.sink.repr && b.lBuf !in w.sink.repr && b.dBuf !in w.sink.repr && b.flagBuf !in w.sink.repr
    && b.lFreq !in w.sink.repr && b.dFreq !in w.sink.repr
  }

  /** Sends a stored block: the bits up to the byte boundary, the length, its complement, and the bytes. */
  method SendStored(w: Writer, bytes: seq<byte>, eof: bool) returns (ghost pad: nat)
    requires w.Valid() && |bytes| < 65536
    modifies w, w.sink.repr
    ensures w.Valid() && fresh(w.sink.repr - old(w.sink.repr)) && w.sink.taken == old(w.sink.taken)
    ensures pad < 8 && w.Stream() == old(w.Stream()) + StoredBlock(pad, bytes, eof) && (|old(w.Stream())| + 3 + pad) % 8 == 0
  {
    hide Writer.Valid, Writer.Stream, Bits, BitsOfBytes, Pow2, Zeros;
    ghost var before, kind := w.Stream(), Bits(2 * STORED_BLOCK + Flag(eof), 3);
    KindBits(STORED_BLOCK, eof, []);
    w.SendBits(2 * STORED_BLOCK + Flag(eof), 3);
    ghost var stream := w.Stream();
    w.BiWindup();
    pad :| 0 <= pad < 8 && w.Stream() == stream + Zeros(pad);
    AlignedStream(w);
    ghost var first, second := Bits(|bytes|, 16), Bits(65535 - |bytes|, 16);
    w.PutWord(|bytes|);
    w.PutWord(65535 - |bytes|);
    w.PutBytes(bytes);
    assert before + kind + Zeros(pad) + first + second + BitsOfBytes(bytes)
        == before + (kind + (Zeros(pad) + (first + (second + BitsOfBytes(bytes)))));
  }

  lemma AlignedStream(w: Writer)
    requires w.biValid == 0
    ensures |w.Stream()| % 8 == 0
  {
    EightBitsEach(w.sink.put);
  }

  lemma StoredSent(before: nat, pad: nat, bytes: seq<byte>, final: bool)
    requires pad < 8 && |bytes| < 65536 && (before + 3 + pad) % 8 == 0
    ensures ReadsAs(before, StoredBlock(pad, bytes, final), Literals(bytes), final) && |StoredBlock(pad, bytes, final)| >= 3
  {
    hide ReadBlock, Bits, BitsOfBytes, Literals;
    var sent := StoredBlock(pad, bytes, final);
    EightBitsEach(bytes);
    forall rest: seq<bool> | (before + |sent| + |rest|) % 8 == 0
      ensures ReadBlock(sent + rest) == Some(Block(final, Literals(bytes), rest))
    {
      StoredBlockReadBack(pad, bytes, final, rest);
    }
  }

  /** The trees built from the counts of the tokens. */
  ghost predicate TreesOf(t: Trio, tables: Tables, ts: seq<Token>) {
    && tables.Valid() && TokensOk(ts)
    && exists f, g, h :: LitsCounted(tables, ts, f) && DistsCounted(tables, ts, g) && t.From(f, g, h)
  }

  /** How a block with these trees is sent. */
  function Decision(t: Trio, storedLen: int, blockStart: int): Kind {
    var kind := Choice(OptLen(t), StaticLen(t), storedLen, blockStart);
    if kind == Dynamic && !t.Unclamped() then CutOff else kind
  }

  /** The form chosen is the shortest in bytes, counting four for the lengths of a stored block. */
  lemma {:induction false} DecisionIsShortest(t: Trio, tables: Tables, ts: seq<Token>, storedLen: int, blockStart: int, final: bool)
    requires TreesOf(t, tables, ts) && t.Unclamped()
    requires 0 <= t.l.maxCode < |t.l.dl| && 0 <= t.d.maxCode < |t.d.dl| && BL_CODES <= |t.b.dl|
    ensures t.Codes().Fit(tables, ts)
    ensures var kind := Decision(t, storedLen, blockStart);
            var fixed, own := (|StaticBlock(tables, ts, final)| + 7) / 8, (|DynamicBlock(tables, t.Codes(), ts, final)| + 7) / 8;
            && (kind == Stored <==> blockStart >= 0 && storedLen + 4 <= fixed && storedLen + 4 <= own)
            && (kind == Static <==> kind != Stored && fixed <= own)
            && (kind == Dynamic <==> kind != Stored && own < fixed)
  {
    hide LitsCounted, DistsCounted, Trio.From, Codes.Fit, Tables.Valid, TokensOk, OptLen, StaticLen, BlockData, TreeBits, Bits, FixedLens,
         FixedDists, AllSendable, IsCode;
    var f, g, h :| LitsCounted(tables, ts, f) && DistsCounted(tables, ts, g) && t.From(f, g, h);
    OptLenIsExact(tables, ts, f, g, h, t, t.Codes());
    StaticLenIsExact(tables, ts, f, g, h, t);
  }

  /** The lengths of all three codes are those of prefix codes exactly if none was cut off. */
  lemma {:induction false} CutOffIsNoCode(t: Trio, tables: Tables, ts: seq<Token>)
    requires TreesOf(t, tables, ts) && L_CODES <= |t.l.dl| && D_CODES <= |t.d.dl| && BL_CODES <= |t.b.dl|
    ensures t.Unclamped() <==> IsCode(t.l.dl[..L_CODES]) && IsCode(t.d.dl[..D_CODES]) && IsCode(t.b.dl[..BL_CODES])
  {
    hide LitsCounted, DistsCounted, Built, Tables.Valid, TokensOk, IsCode, FixedLens, FixedDists, RunsCounted, Ends, LitExtras, DistExtras,
         RunExtras, StaticTable;
    var f, g, h :| LitsCounted(tables, ts, f) && DistsCounted(tables, ts, g) && t.From(f, g, h);
    CodeIffNotCutOff(t.l, f, L_CODES, MAX_BITS, LitExtras(), StaticTable(FixedLens(), LitExtras(), L_CODES));
    CodeIffNotCutOff(t.d, g, D_CODES, MAX_BITS, DistExtras(), StaticTable(FixedDists(), DistExtras(), D_CODES));
    CodeIffNotCutOff(t.b, h, BL_CODES, MAX_BL_BITS, RunExtras(), StaticTable([], RunExtras(), BL_CODES));
  }

  /**
   Ends the block: sends what has been tallied in the form that was chosen, and starts a new block.
   `bytes` are the bytes of the block, as far as the window still shows them.
   */
  method FlushBlock(w: Writer, b: Buffer, slfc: seq<int>, sdfc: seq<int>, bytes: seq<byte>, storedLen: int, blockStart: int, eof: bool)
    returns (kind: Kind, ghost sent: seq<bool>, ghost t: Trio)
    requires w.Valid() && b.Valid() && Separate(w, b)
    requires blockStart >= 0 ==> |bytes| == storedLen < 65536
    requires SendsCode(slfc, FixedLens(), FixedLens()) && SendsCode(sdfc, FixedDists(), FixedDists())
    modifies w, w.sink.repr, b, b.flagBuf, b.lFreq, b.dFreq
    ensures w.Valid() && fresh(w.sink.repr - old(w.sink.repr)) && w.sink.taken == old(w.sink.taken)
    ensures b.Valid() && b.tokens == [] && Separate(w, b)
    ensures w.Stream() == old(w.Stream()) + sent
    ensures kind == Static || kind == Dynamic ==> |sent| >= 3 && SentAs(|old(w.Stream())|, sent, b.tables, old(b.tokens), eof)
    ensures kind == Stored ==> |sent| >= 3 && blockStart >= 0 && ReadsAs(|old(w.Stream())|, sent, Literals(bytes), eof)
    ensures kind == CutOff ==> Refused(sent)
    ensures TreesOf(t, b.tables, old(b.tokens)) && kind == Decision(t, storedLen, blockStart)
  {
    hide Writer.Valid, Writer.Stream, Buffer.Stored, Buffer.Flagged, SendsCode, SentAs, StaticBlock, DynamicBlock, StoredBlock, ReadsAs, OptLen, StaticLen,
         Trio.From, Codes.Fit, LitsCounted, DistsCounted, Unpacks, FixedLens, FixedDists, Tables.Valid, Literals, Trio.Ready, Trio.Sent, Refused;
    b.SaveFlags();
    ghost var ts, before := b.tokens, |w.Stream()|;
    var lBuf, dBuf, flagBuf, lastLit := b.lBuf[..], b.dBuf[..], b.flagBuf[..], b.lastLit;
    var f, g := b.lFreq[..], b.dFreq[..];
    CountsAreNatural(b.tables, ts, f, g);
    var trees, ldl, ddl, h := BuildTrees(f, g);
    t := trees;
    kind := Choice(OptLen(trees), StaticLen(trees), storedLen, blockStart);
    sent := [];
    if kind == Stored {
      ghost var pad := SendStored(w, bytes, eof);
      StoredSent(before, pad, bytes, eof);
      sent := StoredBlock(pad, bytes, eof);
    } else if kind == Static {
      SendStatic(w, b.tables, lBuf, dBuf, flagBuf, lastLit, slfc, sdfc, eof, ts);
      StaticSent(before, b.tables, ts, eof);
      sent := StaticBlock(b.tables, ts, eof);
    } else {
      TrioIsReady(b.tables, ts, f, g, h, trees);
      TrioBounds(t, f, g, h);
      SendDynamic(w, b.tables, lBuf, dBuf, flagBuf, lastLit, trees, ldl, ddl, eof, ts);
      sent := t.Sent(b.tables, ts, eof);
      if trees.Unclamped() {
        ghost var c := t.Codes();
        DynamicSent(before, b.tables, ts, eof, f, g, h, t, c);
        SentIsDynamicBlock(b.tables, ts, f, g, h, t, c, eof);
      } else {
        CutOffIsRefused(b.tables, ts, f, g, h, t, eof);
        kind := CutOff;
      }
    }
    b.InitBlock();
  }
}
