/** The refused text is to be sent with its own codes, so no decoder gets it back. */
module RefusedOutput {
  import opened Arithmetic
  import opened Bytes
  import opened Options
  import opened Sums
  import opened Lz77Format
  import opened CanonicalCodes
  import opened CountedSymbols
  import opened TreeSymbols
  import opened TreeSpec
  import opened DeepTrees
  import opened DeflateTables
  import opened BlockFormat
  import opened CodeLengthRuns
  import opened BlockCost
  import opened BlockEncoder
  import opened BlockTrees
  import opened TokenBuffer
  import opened FixedCodes
  import opened StoredBlocks
  import opened BlockFlush
  import opened BlockLog
  import opened BitWriter
  import opened BlockStream
  import opened BlockPrices
  import opened CutOffBlocks
  import opened Lz77Matcher
  import opened DeflateEncoder
  import opened UniqueTexts
  import opened LengthPlan
  import opened RefusedText
  import opened RefusedLengths

  /** The counts and lengths of the text. */
  ghost predicate TextTable(f: seq<int>, e: seq<int>) {
    && |f| >= L_CODES && |e| == L_CODES && Sum(f, L_CODES) == 256 && f[END_BLOCK] == 1
    && (forall v :: 0 <= v < L_CODES ==> f[v] >= 0 && (f[v] > 0 ==> v <= END_BLOCK && e[v] <= 8))
    && f[0] == 4 && f[1] == 32 && f[2] == 32 && f[3] == 32 && f[4] == 64
    && e[0] == 6 && e[1] == 3 && e[2] == 3 && e[3] == 3 && e[4] == 2
  }

  lemma PlannedHead()
    ensures |Lens()| == 257 && Planned(0) == 6 && Planned(1) == 3 && Planned(2) == 3 && Planned(3) == 3 && Planned(4) == 2 && Planned(END_BLOCK) == 8
    ensures forall v :: END_BLOCK < v < L_CODES ==> Planned(v) == 0
  {
    hide Lens;
    LensBegin();
  }

  lemma {:induction false} TextIsTable(f: seq<int>)
    requires |Lens()| == 257 && DyadicTable(f, PlanTable(), L_CODES, 8)
    ensures TextTable(f, PlanTable())
  {
    hide Lens, Sum, Pow2, Planned;
    PlannedHead();
    SmallPowers();
  }

  /** What the literals cost with the lengths of the plan. */
  lemma {:induction false} LiteralPrice(f: seq<int>, e: seq<int>, per: seq<int>)
    requires TextTable(f, e) && |per| == L_CODES && forall v :: 0 <= v <= END_BLOCK ==> per[v] == e[v]
    ensures Price(f, per, L_CODES) <= 1176
  {
    hide Price, Sum;
    var p0 := per[0 := 8];
    var p1 := p0[1 := 8];
    var p2 := p1[2 := 8];
    var p3 := p2[3 := 8];
    var p4 := p3[4 := 8];
    PriceUpdate(f, per, L_CODES, 0, 8);
    PriceUpdate(f, p0, L_CODES, 1, 8);
    PriceUpdate(f, p1, L_CODES, 2, 8);
    PriceUpdate(f, p2, L_CODES, 3, 8);
    PriceUpdate(f, p3, L_CODES, 4, 8);
    PriceAtMost(f, p4, L_CODES, 8);
  }

  /** What they cost with the fixed codes. */
  lemma {:induction false} LiteralFixedPrice(f: seq<int>, e: seq<int>)
    requires TextTable(f, e)
    ensures Price(f, StaticTable(FixedLens(), LitExtras(), L_CODES), L_CODES) >= 2047
  {
    hide Price, Sum, LengthExtra;
    var per := StaticTable(FixedLens(), LitExtras(), L_CODES);
    assert per[END_BLOCK] == 7;
    PriceUpdate(f, per, L_CODES, END_BLOCK, 8);
    PriceAtLeast(f, per[END_BLOCK := 8], L_CODES, 8);
  }

  /** How the runs count. */
  ghost predicate RunTable(h: seq<int>) {
    && |h| >= BL_CODES && Sum(h, BL_CODES) == 88 && h[REP_3_6] == 13 && h[REPZ_3_10] == 8 && h[REPZ_11_138] == 5
    && forall c :: 0 <= c < BL_CODES ==> h[c] >= 0
  }

  lemma {:induction false} RunsAreTable(h: seq<int>)
    requires |h| >= BL_CODES && forall c :: 0 <= c < BL_CODES ==> h[c] == RunCount(c)
    ensures RunTable(h)
  {
    FourMore(h, 0);
    FourMore(h, 4);
    FourMore(h, 8);
    FourMore(h, 12);
    assert Sum(h, 0) == 0;
    assert Sum(h, 19) == Sum(h, 18) + h[18] && Sum(h, 18) == Sum(h, 17) + h[17] && Sum(h, 17) == Sum(h, 16) + h[16];
  }

  lemma FourMore(h: seq<int>, n: nat)
    requires n + 4 <= |h|
    ensures Sum(h, n + 4) == Sum(h, n) + h[n] + h[n + 1] + h[n + 2] + h[n + 3]
  {
    assert Sum(h, n + 1) == Sum(h, n) + h[n] && Sum(h, n + 2) == Sum(h, n + 1) + h[n + 1];
    assert Sum(h, n + 3) == Sum(h, n + 2) + h[n + 2];
  }

  /** What the lengths cost, with at most seven bits each and their extra bits. */
  lemma {:induction false} RunPrice(h: seq<int>, per: seq<int>)
    requires RunTable(h) && |per| == BL_CODES && forall c :: 0 <= c < BL_CODES ==> per[c] <= 7 + RunBits(c)
    ensures Price(h, per, BL_CODES) <= 701
  {
    hide Price, Sum;
    var p0 := per[REP_3_6 := 7];
    var p1 := p0[REPZ_3_10 := 7];
    var p2 := p1[REPZ_11_138 := 7];
    PriceUpdate(h, per, BL_CODES, REP_3_6, 7);
    PriceUpdate(h, p0, BL_CODES, REPZ_3_10, 7);
    PriceUpdate(h, p1, BL_CODES, REPZ_11_138, 7);
    PriceAtMost(h, p2, BL_CODES, 7);
  }

  lemma {:induction false} RunsCharged(r: BuiltCode, h: seq<int>)
    requires BL_CODES <= |h| && BL_CODES <= |r.dl| && HasTree(r, h, BL_CODES, MAX_BL_BITS, RunExtras()) && RunTable(h)
    ensures r.optLen <= 701
  {
    hide Huffman, CutLengths, Symbols, TreeCounts, Charged, RunTable;
    var order, w, c :| GrownFrom(r, h, BL_CODES, MAX_BL_BITS, RunExtras(), order, w, c);
    HuffmanIsTree(order, w, BL_CODES, SetOf(Symbols(h, BL_CODES)), c);
    var per := WithExtra(Charged(order, BL_CODES, MAX_BL_BITS, r.dl, r.overlong), RunExtras());
    forall v | 0 <= v < BL_CODES
      ensures per[v] <= 7 + RunBits(v)
    {
      ChargedAtMost(order, BL_CODES, MAX_BL_BITS, r.dl, r.overlong, v);
    }
    RunPrice(h, per);
  }

  /** Lengths that were not cut off are charged as they are. */
  lemma KeptCharge(t: Trio, f: seq<int>, g: seq<int>, h: seq<int>)
    requires t.From(f, g, h) && t.l.overlong == 0
    ensures L_CODES <= |f| && L_CODES <= |t.l.dl| && t.l.optLen == Price(f, WithExtra(t.l.dl, LitExtras()), L_CODES)
  {
    hide HasTree, BuiltLengths, RunsCounted, FixedLens, FixedDists, Ends, LitExtras, DistExtras, RunExtras, Price, StaticTable, SendsCode, CodesFit;
  }

  lemma {:induction false} LiteralsCharged(t: Trio, tables: Tables, f: seq<int>, g: seq<int>, h: seq<int>)
    requires tables.Valid() && TokensOk(Literals(Text())) && LitsCounted(tables, Literals(Text()), f) && t.From(f, g, h)
    ensures t.l.optLen <= 1176 && |Lens()| == 257 && TextTable(f, PlanTable())
  {
    hide Tables.Valid, Text, Lens, LitsCounted, Trio.From, HasTree, TextTable, DyadicTable, Fib, Price, LengthExtra, PlanTable;
    TextLengths(t, tables, f, g, h);
    TextIsTable(f);
    TrioHasTrees(t, f, g, h);
    TableFacts(f, PlanTable());
    FibonacciNumbers();
    LightIsNotCutOff(t.l, f, L_CODES, MAX_BITS, LitExtras());
    KeptCharge(t, f, g, h);
    LiteralPrice(f, PlanTable(), WithExtra(t.l.dl, LitExtras()));
  }

  lemma TableFacts(f: seq<int>, e: seq<int>)
    requires TextTable(f, e)
    ensures |f| >= L_CODES && Sum(f, L_CODES) == 256 && forall v :: 0 <= v < L_CODES ==> f[v] >= 0
  {
  }

  /** With its own codes the block is charged less than with the fixed ones, and less than stored. */
  lemma {:induction false} OwnCodesAreCheapest(t: Trio, tables: Tables)
    requires TreesOf(t, tables, Literals(Text()))
    ensures OptLen(t) <= 1948 && StaticLen(t) >= 2047 && t.b.overlong > 0
  {
    hide Text, Tables.Valid, LitsCounted, DistsCounted, Trio.From, HasTree, RunCount, LitExtras, DistExtras, RunExtras, TextTable, RunTable, Price,
         StaticTable, FixedLens, FixedDists, RunsCounted, Lengths, Lens, PlanTable;
    var f, g, h :| LitsCounted(tables, Literals(Text()), f) && DistsCounted(tables, Literals(Text()), g) && t.From(f, g, h);
    TextIsCutOff(t, tables, f, g, h);
    LiteralsCharged(t, tables, f, g, h);
    RunsAreTable(h);
    RunFacts(h);
    TrioHasTrees(t, f, g, h);
    TrioPrices(t, f, g, h);
    TrioRuns(t, f, g, h);
    NothingCharged(t.d, g, D_CODES, MAX_BITS, DistExtras());
    RunsCharged(t.b, h);
    LiteralFixedPrice(f, PlanTable());
    FreePrice(g, StaticTable(FixedDists(), DistExtras(), D_CODES), D_CODES);
    NoStaticTree(h);
  }

  lemma RunFacts(h: seq<int>)
    requires RunTable(h)
    ensures |h| >= BL_CODES && forall c :: 0 <= c < BL_CODES ==> h[c] >= 0
  {
  }

  /** Wherever it begins, the block of the text is cut off. */
  lemma {:induction false} TextBlockIsCutOff(t: Trio, tables: Tables, blockStart: int)
    requires TreesOf(t, tables, Literals(Text()))
    ensures Decision(t, Size(Literals(Text())), blockStart) == CutOff
  {
    hide TreesOf, Text, OptLen, StaticLen;
    OwnCodesAreCheapest(t, tables);
    SizeOfLiterals(Literals(Text()));
  }

  lemma {:induction false} FewDists(ts: seq<Token>)
    ensures |Dists(ts)| <= |ts|
    decreases |ts|
  {
    if ts != [] {
      FewDists(ts[..|ts| - 1]);
    }
  }

  lemma NoneDue(tables: Tables, ts: seq<Token>, level: int, inLength: nat)
    requires 1 <= |ts| < 4096 && tables.Valid() && TokensOk(ts)
    ensures !Due(tables, ts, level, inLength)
  {
    hide TokensOk, CoversLength, CoversDist, CoversStretch, Dists;
    FewDists(ts);
  }

  /** A block of fewer than 4096 tokens does not end before the last token. */
  lemma NotDue(tables: Tables, ts: seq<Token>, level: int, k: nat)
    requires |ts| < 4096
    ensures !DueAt(tables, ts, level, k)
  {
    hide TokensOk, CoversLength, CoversDist, CoversStretch, Due;
    if 1 <= k <= |ts| && tables.Valid() && TokensOk(ts[..k]) {
      NoneDue(tables, ts[..k], level, InLength(ts[..k], level));
    }
  }

  lemma {:induction false} FirstFits(blocks: seq<Ended>)
    requires blocks != []
    ensures |blocks[0].tokens| <= |Joined(blocks)|
    decreases |blocks|
  {
    if |blocks| > 1 {
      FirstFits(blocks[..|blocks| - 1]);
    }
  }

  /** Fewer than 4096 tokens are sent in one block. */
  lemma {:induction false} OneBlock(tokens: seq<Token>, blocks: seq<Ended>, tables: Tables, level: int, held: bool)
    requires Log(blocks, tokens) && Cut(blocks, tables, level, held) && |tokens| < 4096
    ensures |blocks| == 1 && blocks[0].tokens == tokens
  {
    hide Recorded, Undue, DueAt;
    FirstFits(blocks);
    if |blocks| > 1 {
      NotDue(tables, blocks[0].tokens, level, |blocks[0].tokens|);
    }
    assert blocks[..0] == [];
  }

  /** However the text is cut into tokens and blocks, one of them is cut off. */
  lemma {:induction false} TextIsRefused(tokens: seq<Token>, blocks: seq<Ended>, tables: Tables, level: int, held: bool)
    requires Expand(tokens) == Some(Text()) && Log(blocks, tokens) && Cut(blocks, tables, level, held)
    ensures !AllSent(blocks)
  {
    hide Text, Expand, TreesOf, Cut, Decision, Repeatless, Made;
    TextIsMade();
    MadeIsRepeatless(Text(), Singles());
    OnlyItsLiterals(tokens, Text(), Text());
    OneBlock(tokens, blocks, tables, level, held);
    assert Recorded(blocks[0]);
    var own :| TreesOf(blocks[0].trees, own, blocks[0].tokens);
    TextBlockIsCutOff(blocks[0].trees, own, blocks[0].blockStart);
  }

  /** The text is compressed at every level into an output that a decoder refuses. */
  method CompressText(level: int) returns (out: seq<byte>)
    ensures Inflate(BitsOfBytes(out)) == None
  {
    hide Text, Expand, Log, Cut, AllSent, Inflate, BitsOfBytes;
    var ok;
    ghost var tokens, blocks, tables, held, bases, end;
    var text := Text();
    out, ok, tokens, blocks, tables, held, bases, end := Compress(text, level);
    TextIsRefused(tokens, blocks, tables, EffectiveLevel(level), held);
  }
}
