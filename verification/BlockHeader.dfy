/**
 The header of a block with dynamic codes (section 3.2.7 of RFC 1951): the numbers of lengths, the
 code length code, and the run-length coded lengths of the two alphabets.
 */
module BlockHeader {
  import opened Arithmetic
  import opened BitStrings
  import opened Options
  import opened PrefixCodes
  import opened CanonicalCodes
  import opened CodeLengthRuns
  import opened BlockFormat
  import opened Lz77Format

  /** The order in which the lengths of the code length code are sent. */
  function Order(i: int): int
    requires 0 <= i < BL_CODES
  {
    [16, 17, 18, 0, 8, 7, 9, 6, 10, 5, 11, 4, 12, 3, 13, 2, 14, 1, 15][i]
  }

  /** The place of a symbol in that order. */
  function Rank(v: int): int
    requires 0 <= v < BL_CODES
  {
    [3, 17, 15, 13, 11, 9, 7, 5, 4, 6, 8, 10, 12, 14, 16, 18, 0, 1, 2][v]
  }

  lemma RankOfOrder(i: int)
    requires 0 <= i < BL_CODES
    ensures 0 <= Order(i) < BL_CODES && Rank(Order(i)) == i
  {
  }

  lemma OrderOfRank(v: int)
    requires 0 <= v < BL_CODES
    ensures 0 <= Rank(v) < BL_CODES && Order(Rank(v)) == v
  {
  }

  /** Reads lengths of 3 bits for the places i up to k of the order. */
  function ReadCodeCode(i: nat, k: nat, table: seq<int>, bits: seq<bool>): Option<(seq<int>, seq<bool>)>
    requires i <= k <= BL_CODES && |table| == BL_CODES
    decreases k - i
  {
    RankOfOrderAlways();
    if i == k then Some((table, bits))
    else
      match ReadNumber(3, bits)
      case None => None
      case Some(r) => ReadCodeCode(i + 1, k, table[Order(i) := r.0], r.1)
  }

  lemma RankOfOrderAlways()
    ensures forall i {:trigger Order(i)} :: 0 <= i < BL_CODES ==> 0 <= Order(i) < BL_CODES && Rank(Order(i)) == i
  {
    forall i | 0 <= i < BL_CODES
      ensures 0 <= Order(i) < BL_CODES && Rank(Order(i)) == i
    {
      RankOfOrder(i);
    }
  }

  /** The lengths sent for the places i up to k of the order. */
  ghost function CodeCodeBits(bl: seq<int>, i: nat, k: nat): seq<bool>
    requires i <= k <= BL_CODES && |bl| == BL_CODES && forall v :: 0 <= v < BL_CODES ==> 0 <= bl[v] < 8
    decreases k - i
  {
    RankOfOrderAlways();
    if i == k then [] else Bits(bl[Order(i)], 3) + CodeCodeBits(bl, i + 1, k)
  }

  /** The lengths known once the first i places have been read. */
  ghost function Partial(bl: seq<int>, i: nat): (t: seq<int>)
    requires |bl| == BL_CODES
    ensures |t| == BL_CODES
    ensures forall v :: 0 <= v < BL_CODES ==> t[v] == if Rank(v) < i then bl[v] else 0
  {
    seq(BL_CODES, v requires 0 <= v < BL_CODES => if Rank(v) < i then bl[v] else 0)
  }

  lemma PartialStep(bl: seq<int>, i: nat)
    requires |bl| == BL_CODES && i < BL_CODES
    ensures 0 <= Order(i) < BL_CODES && Partial(bl, i + 1) == Partial(bl, i)[Order(i) := bl[Order(i)]]
  {
    RankOfOrder(i);
    var was, now := Partial(bl, i), Partial(bl, i + 1);
    forall v | 0 <= v < BL_CODES
      ensures now[v] == was[Order(i) := bl[Order(i)]][v]
    {
      OrderOfRank(v);
    }
  }

  lemma {:induction false} CodeCodeReadBack(bl: seq<int>, i: nat, k: nat, rest: seq<bool>)
    requires i <= k <= BL_CODES && |bl| == BL_CODES && forall v :: 0 <= v < BL_CODES ==> 0 <= bl[v] < 8
    ensures ReadCodeCode(i, k, Partial(bl, i), CodeCodeBits(bl, i, k) + rest) == Some((Partial(bl, k), rest))
    decreases k - i
  {
    hide Order, Rank, Partial, Bits, ReadNumber;
    if i == k {
      assert CodeCodeBits(bl, i, k) + rest == rest;
    } else {
      PartialStep(bl, i);
      var after := CodeCodeBits(bl, i + 1, k) + rest;
      assert CodeCodeBits(bl, i, k) + rest == Bits(bl[Order(i)], 3) + after;
      assert Pow2(3) == 8;
      NumberReadBack(bl[Order(i)], 3, after);
      CodeCodeReadBack(bl, i + 1, k, rest);
    }
  }

  lemma PartialEnds(bl: seq<int>, k: nat)
    requires |bl| == BL_CODES && k <= BL_CODES && forall i :: k <= i < BL_CODES ==> 0 <= Order(i) < BL_CODES && bl[Order(i)] == 0
    ensures Partial(bl, k) == bl && Partial(bl, 0) == seq(BL_CODES, _ => 0)
  {
    forall v | 0 <= v < BL_CODES
      ensures Partial(bl, k)[v] == bl[v] && Partial(bl, 0)[v] == 0
    {
      OrderOfRank(v);
    }
  }

  /** Reads symbols of the code length code until `total` lengths are known. */
  ghost function ReadLengths(bl: seq<int>, total: nat, sofar: seq<int>, bits: seq<bool>): Option<(seq<int>, seq<bool>)>
    requires IsCode(bl)
    decreases |bits|
  {
    if |sofar| == total then Some((sofar, bits))
    else if |sofar| > total then None
    else
      match ReadSymbol(bl, bits)
      case None => None
      case Some(symbol) =>
        match ReadNumber(RunBits(symbol.0), symbol.1)
        case None => None
        case Some(extra) =>
          match ReadRun(Run(symbol.0, extra.0), sofar)
          case None => None
          case Some(next) => ReadLengths(bl, total, next, extra.1)
  }

  /** The symbol has a code and its value fits the extra bits. */
  ghost predicate RunOk(bl: seq<int>, run: Run) {
    Coded(bl, run.symbol) && 0 <= run.value < Pow2(RunBits(run.symbol))
  }

  ghost predicate RunsOk(bl: seq<int>, runs: seq<Run>) {
    forall i :: 0 <= i < |runs| ==> RunOk(bl, runs[i])
  }

  ghost function RunsBits(bl: seq<int>, runs: seq<Run>): seq<bool>
    requires IsCode(bl) && RunsOk(bl, runs)
  {
    if runs == [] then []
    else Word(bl, runs[0].symbol) + Bits(runs[0].value, RunBits(runs[0].symbol)) + RunsBits(bl, runs[1..])
  }

  lemma RunAddsLengths(run: Run, sofar: seq<int>)
    ensures ReadRun(run, sofar).Some? ==> |ReadRun(run, sofar).value| > |sofar|
  {
  }

  lemma {:induction false} RunsAddLengths(runs: seq<Run>, sofar: seq<int>)
    ensures ReadRuns(runs, sofar).Some? ==> |ReadRuns(runs, sofar).value| >= |sofar| + |runs|
    decreases |runs|
  {
    if runs != [] {
      RunAddsLengths(runs[0], sofar);
      match ReadRun(runs[0], sofar)
      case None =>
      case Some(next) => RunsAddLengths(runs[1..], next);
    }
  }

  /** The lengths are read back from the bits of their runs. */
  lemma {:induction false} LengthsReadBack(bl: seq<int>, runs: seq<Run>, sofar: seq<int>, all: seq<int>, rest: seq<bool>)
    requires IsCode(bl) && RunsOk(bl, runs) && ReadRuns(runs, sofar) == Some(all)
    ensures ReadLengths(bl, |all|, sofar, RunsBits(bl, runs) + rest) == Some((all, rest))
    decreases |runs|
  {
    hide IsCode, Word, ReadSymbol, Bits, ReadNumber, ReadRun;
    RunsAddLengths(runs, sofar);
    if runs == [] {
      assert RunsBits(bl, runs) + rest == rest;
    } else {
      var n, v := runs[0].symbol, runs[0].value;
      var after := RunsBits(bl, runs[1..]) + rest;
      var extra := Bits(v, RunBits(n));
      assert RunsBits(bl, runs) + rest == Word(bl, n) + (extra + after);
      assert RunOk(bl, runs[0]);
      SymbolReadBack(bl, n, extra + after);
      NumberReadBack(v, RunBits(n), after);
      var next := ReadRun(runs[0], sofar).value;
      LengthsReadBack(bl, runs[1..], next, all, rest);
    }
  }

  lemma {:induction false} RunsBitsAppend(bl: seq<int>, a: seq<Run>, b: seq<Run>)
    requires IsCode(bl) && RunsOk(bl, a) && RunsOk(bl, b)
    ensures RunsOk(bl, a + b) && RunsBits(bl, a + b) == RunsBits(bl, a) + RunsBits(bl, b)
    decreases |a|
  {
    hide IsCode, Word, Bits, RunOk;
    if a == [] {
      assert a + b == b;
    } else {
      assert (a + b)[0] == a[0] && (a + b)[1..] == a[1..] + b;
      RunsBitsAppend(bl, a[1..], b);
    }
  }

  /** The lengths of the two alphabets, as a decoder of a dynamic block finds them, and what follows. */
  datatype Header = Header(llens: seq<int>, dlens: seq<int>, rest: seq<bool>)

  /** Reads the lengths once their numbers are known. */
  ghost function ReadTrees(lcodes: nat, dcodes: nat, blcodes: nat, bits: seq<bool>): Option<Header>
    requires blcodes <= BL_CODES
  {
    match ReadCodeCode(0, blcodes, seq(BL_CODES, _ => 0), bits)
    case None => None
    case Some(code) =>
      if !IsCode(code.0) then None
      else
        match ReadLengths(code.0, lcodes + dcodes, [], code.1)
        case None => None
        case Some(all) =>
          if |all.0| != lcodes + dcodes then None else Some(Header(all.0[..lcodes], all.0[lcodes..], all.1))
  }

  ghost function ReadHeader(bits: seq<bool>): Option<Header> {
    match ReadNumber(5, bits)
    case None => None
    case Some(hlit) =>
      match ReadNumber(5, hlit.1)
      case None => None
      case Some(hdist) =>
        match ReadNumber(4, hdist.1)
        case None => None
        case Some(hclen) =>
          if hclen.0 + 4 > BL_CODES then None else ReadTrees(hlit.0 + 257, hdist.0 + 1, hclen.0 + 4, hclen.1)
  }

  /** A block with dynamic codes: the tokens, and what follows the block. */
  ghost function ReadDynamic(bits: seq<bool>): Option<(seq<Token>, seq<bool>)> {
    match ReadHeader(bits)
    case None => None
    case Some(h) => if IsCode(h.llens) && IsCode(h.dlens) then ReadTokens(h.llens, h.dlens, h.rest) else None
  }

  /** The lengths `bl`, of which the first `blcodes` places are sent, fit the two trees, whether or not they are those of a code. */
  ghost predicate HeaderShape(bl: seq<int>, blcodes: nat, llens: seq<int>, dlens: seq<int>) {
    && |bl| == BL_CODES && (forall v :: 0 <= v < BL_CODES ==> 0 <= bl[v] < 8)
    && 4 <= blcodes <= BL_CODES
    && (forall i :: blcodes <= i < BL_CODES ==> 0 <= Order(i) < BL_CODES && bl[Order(i)] == 0)
    && Lengths(llens) && Lengths(dlens) && 257 <= |llens| <= 286 && 1 <= |dlens| <= 30
    && RunsOk(bl, RunsOf(llens)) && RunsOk(bl, RunsOf(dlens))
  }

  /** The code length code `bl`, of which the first `blcodes` places are sent, fits the two trees. */
  ghost predicate HeaderFits(bl: seq<int>, blcodes: nat, llens: seq<int>, dlens: seq<int>) {
    HeaderShape(bl, blcodes, llens, dlens) && IsCode(bl)
  }

  /** The bits sent for the numbers of lengths and for the lengths of the code length code. */
  ghost function HeadBits(bl: seq<int>, blcodes: nat, llens: seq<int>, dlens: seq<int>): seq<bool>
    requires HeaderShape(bl, blcodes, llens, dlens)
  {
    Bits(|llens| - 257, 5) + Bits(|dlens| - 1, 5) + Bits(blcodes - 4, 4) + CodeCodeBits(bl, 0, blcodes)
  }

  /** The bits sent for the trees of a dynamic block. */
  ghost function TreeBits(bl: seq<int>, blcodes: nat, llens: seq<int>, dlens: seq<int>): seq<bool>
    requires HeaderFits(bl, blcodes, llens, dlens)
  {
    HeadBits(bl, blcodes, llens, dlens) + RunsBits(bl, RunsOf(llens)) + RunsBits(bl, RunsOf(dlens))
  }

  lemma TreesReadBack(bl: seq<int>, blcodes: nat, llens: seq<int>, dlens: seq<int>, rest: seq<bool>)
    requires HeaderFits(bl, blcodes, llens, dlens)
    ensures ReadTrees(|llens|, |dlens|, blcodes,
                      CodeCodeBits(bl, 0, blcodes) + (RunsBits(bl, RunsOf(llens)) + RunsBits(bl, RunsOf(dlens)) + rest))
            == Some(Header(llens, dlens, rest))
  {
    hide IsCode, RunsBits, CodeCodeBits, RunsOf, ReadLengths, ReadCodeCode, Partial, Order;
    var lruns, druns := RunsOf(llens), RunsOf(dlens);
    var lens := RunsBits(bl, lruns) + RunsBits(bl, druns) + rest;
    PartialEnds(bl, blcodes);
    CodeCodeReadBack(bl, 0, blcodes, lens);
    RunsReadBack(llens, []);
    RunsReadBack(dlens, llens);
    assert [] + llens == llens;
    ReadAppend(lruns, druns, []);
    RunsBitsAppend(bl, lruns, druns);
    LengthsReadBack(bl, lruns + druns, [], llens + dlens, rest);
    assert (llens + dlens)[..|llens|] == llens && (llens + dlens)[|llens|..] == dlens;
  }

  lemma PowersOfHeader()
    ensures Pow2(4) == 16 && Pow2(5) == 32
  {
  }

  /** Behind the numbers come the trees. */
  lemma HeadReadBack(bl: seq<int>, blcodes: nat, llens: seq<int>, dlens: seq<int>, rest: seq<bool>)
    requires HeaderShape(bl, blcodes, llens, dlens)
    ensures ReadHeader(HeadBits(bl, blcodes, llens, dlens) + rest)
         == ReadTrees(|llens|, |dlens|, blcodes, CodeCodeBits(bl, 0, blcodes) + rest)
  {
    hide RunsBits, CodeCodeBits, RunsOf, ReadTrees, Bits, ReadNumber, Pow2, Order;
    PowersOfHeader();
    var trees := CodeCodeBits(bl, 0, blcodes) + rest;
    var hclen := Bits(blcodes - 4, 4) + trees;
    var hdist := Bits(|dlens| - 1, 5) + hclen;
    assert HeadBits(bl, blcodes, llens, dlens) + rest == Bits(|llens| - 257, 5) + hdist;
    NumberReadBack(|llens| - 257, 5, hdist);
    NumberReadBack(|dlens| - 1, 5, hclen);
    NumberReadBack(blcodes - 4, 4, trees);
  }

  /** The header is read back from the bits sent for it. */
  lemma HeaderReadBack(bl: seq<int>, blcodes: nat, llens: seq<int>, dlens: seq<int>, rest: seq<bool>)
    requires HeaderFits(bl, blcodes, llens, dlens)
    ensures ReadHeader(TreeBits(bl, blcodes, llens, dlens) + rest) == Some(Header(llens, dlens, rest))
  {
    hide IsCode, RunsBits, CodeCodeBits, RunsOf, ReadTrees, HeadBits, ReadHeader;
    var l, d := RunsBits(bl, RunsOf(llens)), RunsBits(bl, RunsOf(dlens));
    assert TreeBits(bl, blcodes, llens, dlens) + rest == HeadBits(bl, blcodes, llens, dlens) + (l + d + rest);
    HeadReadBack(bl, blcodes, llens, dlens, l + d + rest);
    TreesReadBack(bl, blcodes, llens, dlens, rest);
  }

  /** A decoder refuses a header whose code length code is none. */
  lemma HeadRefused(bl: seq<int>, blcodes: nat, llens: seq<int>, dlens: seq<int>, rest: seq<bool>)
    requires HeaderShape(bl, blcodes, llens, dlens) && !IsCode(bl)
    ensures ReadDynamic(HeadBits(bl, blcodes, llens, dlens) + rest) == None
  {
    hide IsCode, RunsOf, CodeCodeBits, HeadBits, ReadHeader, ReadCodeCode, Partial, Order;
    HeadReadBack(bl, blcodes, llens, dlens, rest);
    PartialEnds(bl, blcodes);
    CodeCodeReadBack(bl, 0, blcodes, rest);
  }

  /** A decoder refuses a block if the lengths of one of its alphabets are those of no code. */
  lemma TreesRefused(bl: seq<int>, blcodes: nat, llens: seq<int>, dlens: seq<int>, rest: seq<bool>)
    requires HeaderFits(bl, blcodes, llens, dlens) && !(IsCode(llens) && IsCode(dlens))
    ensures ReadDynamic(TreeBits(bl, blcodes, llens, dlens) + rest) == None
  {
    hide IsCode, TreeBits, ReadHeader, HeaderFits;
    HeaderReadBack(bl, blcodes, llens, dlens, rest);
  }

  /** A whole dynamic block reads back as its tokens, whatever follows. */
  lemma DynamicReadBack(tables: Tables, bl: seq<int>, blcodes: nat, llens: seq<int>, dlens: seq<int>, ts: seq<Token>, rest: seq<bool>)
    requires HeaderFits(bl, blcodes, llens, dlens) && IsCode(llens) && IsCode(dlens)
    requires tables.Valid() && AllSendable(tables, llens, dlens, ts) && Coded(llens, END_BLOCK)
    ensures ReadDynamic(TreeBits(bl, blcodes, llens, dlens) + BlockData(tables, llens, dlens, ts) + rest) == Some((ts, rest))
  {
    hide IsCode, TreeBits, BlockData, ReadHeader, ReadTokens, HeaderFits, AllSendable;
    var data := BlockData(tables, llens, dlens, ts);
    assert TreeBits(bl, blcodes, llens, dlens) + data + rest == TreeBits(bl, blcodes, llens, dlens) + (data + rest);
    HeaderReadBack(bl, blcodes, llens, dlens, data + rest);
    BlockReadBack(tables, llens, dlens, ts, rest);
  }
}
