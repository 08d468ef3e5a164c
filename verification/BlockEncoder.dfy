/** Sending a block: codes, tokens and trees go through the bit writer. */
module BlockEncoder {
  import opened Arithmetic
  import opened BitStrings
  import opened Lz77Format
  import opened CanonicalCodes
  import opened PrefixCodes
  import opened DeflateTables
  import opened BlockFormat
  import opened TokenBuffer
  import opened BitWriter
  import opened CodeLengthRuns
  import opened BlockHeader

  /** The codes and lengths of a tree send each symbol as the word a decoder expects. */
  ghost predicate SendsCode(fc: seq<int>, dl: seq<int>, lens: seq<int>) {
    && IsCode(lens) && |lens| <= |fc| == |dl|
    && forall n :: Coded(lens, n) ==> CodeSent(fc, dl, lens, n)
  }

  ghost predicate CodeSent(fc: seq<int>, dl: seq<int>, lens: seq<int>, n: int)
    requires IsCode(lens) && |lens| <= |fc| == |dl| && Coded(lens, n)
  {
    dl[n] == lens[n] && 0 <= fc[n] < Pow2(dl[n]) && Bits(fc[n], dl[n]) == Word(lens, n)
  }

  /** The codes and lengths of a tree, as they are sent. */
  datatype Coding = Coding(fc: seq<int>, dl: seq<int>) {

    ghost predicate Sends(c: int) {
      0 <= c < |fc| && c < |dl| && 0 <= dl[c] <= MAX_BITS && 0 <= fc[c] < Pow2(dl[c])
    }

    ghost function Sent(c: int): seq<bool>
      requires Sends(c)
    {
      Bits(fc[c], dl[c])
    }
  }

  /** Where the codes are those of a prefix code, the word of the code is sent. */
  lemma SentIsCodeWord(t: Coding, lens: seq<int>, c: int)
    requires SendsCode(t.fc, t.dl, lens) && Coded(lens, c)
    ensures t.Sends(c) && t.Sent(c) == Word(lens, c)
  {
    hide Word, Bits, Pow2;
    assert CodeSent(t.fc, t.dl, lens, c);
  }

  /** Sends the code of symbol c. */
  method SendCode(w: Writer, t: Coding, c: int)
    requires w.Valid() && t.Sends(c)
    modifies w, w.sink.repr
    ensures w.Valid() && fresh(w.sink.repr - old(w.sink.repr)) && w.sink.taken == old(w.sink.taken)
    ensures w.Stream() == old(w.Stream()) + t.Sent(c)
  {
    hide Writer.Valid, Writer.Stream, Bits, Pow2;
    w.SendBits(t.fc[c], t.dl[c]);
  }

  /** Sends extra bits, if there are any. */
  method SendExtra(w: Writer, value: int, base: int, extra: int)
    requires w.Valid() && 0 <= extra <= 16 && (extra != 0 ==> 0 <= value - base < Pow2(extra))
    modifies w, w.sink.repr
    ensures w.Valid() && fresh(w.sink.repr - old(w.sink.repr)) && w.sink.taken == old(w.sink.taken)
    ensures w.Stream() == old(w.Stream()) + if extra == 0 then [] else Bits(value - base, extra)
  {
    hide Writer.Valid, Writer.Stream, Bits, Pow2;
    if extra != 0 {
      w.SendBits(value - base, extra);
    }
  }

  lemma ExtraBits(c: int, length: int)
    requires CoversLength(c, length)
    ensures LengthExtra(c) <= 16 && 0 <= length - LengthBase(c) < Pow2(LengthExtra(c))
    ensures LengthExtra(c) != 0 ==> c < LENGTH_CODES - 1
    ensures LengthExtra(c) == 0 ==> Bits(length - LengthBase(c), LengthExtra(c)) == []
  {
  }

  lemma ExtraDistBits(c: int, distance: int)
    requires CoversDist(c, distance)
    ensures DistExtra(c) <= 16 && 0 <= distance - DistBase(c) < Pow2(DistExtra(c))
    ensures DistExtra(c) == 0 ==> Bits(distance - DistBase(c), DistExtra(c)) == []
  {
  }

  /** The symbols of a token can be sent. */
  ghost predicate TokenReady(tables: Tables, l: Coding, d: Coding, t: Token)
    requires tables.Valid()
  {
    TokenOk(t) && l.Sends(LitSymbol(tables, t)) && (t.Match? ==> d.Sends(DistSymbol(tables, t)))
  }

  ghost predicate AllReady(tables: Tables, l: Coding, d: Coding, ts: seq<Token>)
    requires tables.Valid()
  {
    forall i :: 0 <= i < |ts| ==> TokenReady(tables, l, d, ts[i])
  }

  /** The bits sent for the distance of a match. */
  ghost function DistSent(tables: Tables, d: Coding, t: Token): seq<bool>
    requires tables.Valid() && TokenOk(t) && t.Match? && d.Sends(DistSymbol(tables, t))
  {
    TokenCodes(tables, t);
    var c := DistSymbol(tables, t);
    d.Sent(c) + Bits(t.distance - DistBase(c), DistExtra(c))
  }

  /** The bits sent for a token. */
  ghost function TokenSent(tables: Tables, l: Coding, d: Coding, t: Token): seq<bool>
    requires tables.Valid() && TokenReady(tables, l, d, t)
  {
    if t.Literal? then l.Sent(t.lit)
    else
      TokenCodes(tables, t);
      var c := LitSymbol(tables, t);
      l.Sent(c) + (Bits(t.length - LengthBase(c - LITERALS - 1), LengthExtra(c - LITERALS - 1)) + DistSent(tables, d, t))
  }

  /** The bits sent for the first k tokens. */
  ghost function TokensSent(tables: Tables, l: Coding, d: Coding, ts: seq<Token>, k: nat): seq<bool>
    requires tables.Valid() && AllReady(tables, l, d, ts) && k <= |ts|
    decreases k
  {
    if k == 0 then [] else TokensSent(tables, l, d, ts, k - 1) + TokenSent(tables, l, d, ts[k - 1])
  }

  /** The bits sent for the data of a block. */
  ghost function DataSent(tables: Tables, l: Coding, d: Coding, ts: seq<Token>): seq<bool>
    requires tables.Valid() && AllReady(tables, l, d, ts) && l.Sends(END_BLOCK)
  {
    TokensSent(tables, l, d, ts, |ts|) + l.Sent(END_BLOCK)
  }

  /** Where both codes are prefix codes, the bits sent are those a decoder reads back. */
  lemma TokenSentIsCoded(tables: Tables, l: Coding, d: Coding, llens: seq<int>, dlens: seq<int>, t: Token)
    requires tables.Valid() && SendsCode(l.fc, l.dl, llens) && SendsCode(d.fc, d.dl, dlens) && Sendable(tables, llens, dlens, t)
    ensures TokenReady(tables, l, d, t) && TokenSent(tables, l, d, t) == TokenBits(tables, llens, dlens, t)
  {
    hide SendsCode, Word, Bits, Coding.Sent, Coding.Sends, CoversLength, CoversDist, CoversStretch, LengthBase, LengthExtra, DistBase, DistExtra,
         LitSymbol, DistSymbol;
    AreCodes(l.fc, l.dl, llens);
    AreCodes(d.fc, d.dl, dlens);
    LiteralSymbol(tables, t);
    SentIsCodeWord(l, llens, LitSymbol(tables, t));
    if t.Match? {
      TokenCodes(tables, t);
      SentIsCodeWord(d, dlens, DistSymbol(tables, t));
    }
  }

  lemma LiteralSymbol(tables: Tables, t: Token)
    requires tables.Valid() && TokenOk(t)
    ensures t.Literal? ==> LitSymbol(tables, t) == t.lit
  {
  }

  lemma AreCodes(fc: seq<int>, dl: seq<int>, lens: seq<int>)
    requires SendsCode(fc, dl, lens)
    ensures IsCode(lens)
  {
  }

  lemma AllAreReady(tables: Tables, l: Coding, d: Coding, llens: seq<int>, dlens: seq<int>, ts: seq<Token>)
    requires tables.Valid() && SendsCode(l.fc, l.dl, llens) && SendsCode(d.fc, d.dl, dlens) && AllSendable(tables, llens, dlens, ts)
    ensures AllReady(tables, l, d, ts)
  {
    hide SendsCode, Tables.Valid, Sendable, TokenReady, TokenSent, TokenBits, IsCode;
    AreCodes(l.fc, l.dl, llens);
    AreCodes(d.fc, d.dl, dlens);
    forall i | 0 <= i < |ts|
      ensures TokenReady(tables, l, d, ts[i])
    {
      TokenSentIsCoded(tables, l, d, llens, dlens, ts[i]);
    }
  }

  lemma {:induction false} TokensSentAreCoded(tables: Tables, l: Coding, d: Coding, llens: seq<int>, dlens: seq<int>, ts: seq<Token>, k: nat)
    requires tables.Valid() && SendsCode(l.fc, l.dl, llens) && SendsCode(d.fc, d.dl, dlens) && IsCode(llens) && IsCode(dlens)
    requires AllSendable(tables, llens, dlens, ts) && AllReady(tables, l, d, ts) && k <= |ts|
    ensures TokensSent(tables, l, d, ts, k) == TokensBits(tables, llens, dlens, ts[..k])
    decreases k
  {
    hide SendsCode, Tables.Valid, Sendable, TokenReady, TokenSent, TokenBits, IsCode;
    if k > 0 {
      TokensSentAreCoded(tables, l, d, llens, dlens, ts, k - 1);
      TokenSentIsCoded(tables, l, d, llens, dlens, ts[k - 1]);
      TokensBitsAppend(tables, llens, dlens, ts, k - 1);
    }
  }

  /** Where both codes are prefix codes, the data sent is the data a decoder reads back. */
  lemma {:induction false} DataSentIsCoded(tables: Tables, l: Coding, d: Coding, llens: seq<int>, dlens: seq<int>, ts: seq<Token>)
    requires tables.Valid() && SendsCode(l.fc, l.dl, llens) && SendsCode(d.fc, d.dl, dlens) && IsCode(llens) && IsCode(dlens)
    requires AllSendable(tables, llens, dlens, ts) && Coded(llens, END_BLOCK)
    ensures AllReady(tables, l, d, ts) && l.Sends(END_BLOCK) && DataSent(tables, l, d, ts) == BlockData(tables, llens, dlens, ts)
  {
    hide SendsCode, Tables.Valid, AllSendable, AllReady, TokensSent, TokensBits, IsCode, Word, Coding.Sent, Coding.Sends;
    AllAreReady(tables, l, d, llens, dlens, ts);
    TokensSentAreCoded(tables, l, d, llens, dlens, ts, |ts|);
    SentIsCodeWord(l, llens, END_BLOCK);
    assert ts[..|ts|] == ts;
  }

  /** Sends the distance of a match. */
  method SendDistance(w: Writer, tables: Tables, dist: int, d: Coding, ghost t: Token)
    requires w.Valid() && tables.Valid() && TokenOk(t) && t.Match? && d.Sends(DistSymbol(tables, t)) && dist == t.distance - 1
    modifies w, w.sink.repr
    ensures w.Valid() && fresh(w.sink.repr - old(w.sink.repr)) && w.sink.taken == old(w.sink.taken)
    ensures w.Stream() == old(w.Stream()) + DistSent(tables, d, t)
  {
    hide Writer.Valid, Writer.Stream, Coding.Sent, Coding.Sends, Bits, Pow2, DistBase, DistExtra, CoversStretch;
    TokenCodes(tables, t);
    var code := DCode(tables.distCode, dist);
    ExtraDistBits(code, t.distance);
    SendCode(w, d, code);
    SendExtra(w, dist, tables.baseDist[code], DistExtra(code));
  }

  /** Sends a match. */
  method SendMatch(w: Writer, tables: Tables, lc: int, dist: int, l: Coding, d: Coding, ghost t: Token)
    requires w.Valid() && tables.Valid() && TokenReady(tables, l, d, t) && t.Match? && lc == t.length - MIN_MATCH && dist == t.distance - 1
    modifies w, w.sink.repr
    ensures w.Valid() && fresh(w.sink.repr - old(w.sink.repr)) && w.sink.taken == old(w.sink.taken)
    ensures w.Stream() == old(w.Stream()) + TokenSent(tables, l, d, t)
  {
    hide Writer.Valid, Writer.Stream, Coding.Sent, Coding.Sends, Bits, Pow2, LengthBase, LengthExtra, DistSent;
    TokenCodes(tables, t);
    var code := tables.lengthCode[lc];
    ExtraBits(code, t.length);
    SendCode(w, l, code + LITERALS + 1);
    SendExtra(w, lc, tables.baseLength[code], LengthExtra(code));
    SendDistance(w, tables, dist, d, t);
  }

  /** The flags not yet used at position x of the tokens. */
  ghost function FlagsFrom(ts: seq<Token>, x: int): int
    requires 0 <= x < |ts|
  {
    Number(Marks(Group(ts, x / 8))[x % 8..])
  }

  lemma FlagsAtGroup(ts: seq<Token>, x: int)
    requires 0 <= x < |ts| && x % 8 == 0
    ensures FlagsFrom(ts, x) == FlagByte(ts, x / 8)
  {
    var m := Marks(Group(ts, x / 8));
    assert m[0..] == m;
  }

  /** The lowest flag belongs to token x; the others belong to the tokens behind it. */
  lemma FlagsStep(ts: seq<Token>, x: int)
    requires 0 <= x < |ts|
    ensures FlagsFrom(ts, x) % 2 == (if ts[x].Match? then 1 else 0)
    ensures (x + 1) % 8 != 0 && x + 1 < |ts| ==> FlagsFrom(ts, x) / 2 == FlagsFrom(ts, x + 1)
  {
    hide Number;
    var k, i := x / 8, x % 8;
    var g := Group(ts, k);
    var m := Marks(g);
    assert g[i] == ts[x];
    assert m[i..][0] == ts[x].Match? && m[i..][1..] == m[i + 1..];
    NumberHead(m[i..]);
    if (x + 1) % 8 != 0 {
      assert (x + 1) / 8 == k && (x + 1) % 8 == i + 1;
    }
  }

  lemma NumberHead(m: seq<bool>)
    requires m != []
    ensures Number(m) == Digit(m[0]) + 2 * Number(m[1..])
  {
  }

  lemma {:induction false} TokensBitsAppend(tables: Tables, llens: seq<int>, dlens: seq<int>, ts: seq<Token>, k: nat)
    requires tables.Valid() && IsCode(llens) && IsCode(dlens) && AllSendable(tables, llens, dlens, ts) && k < |ts|
    ensures TokensBits(tables, llens, dlens, ts[..k + 1]) ==
            TokensBits(tables, llens, dlens, ts[..k]) + TokenBits(tables, llens, dlens, ts[k])
    decreases k
  {
    hide Tables.Valid, IsCode, Sendable, TokenBits;
    assert ts[..k + 1][0] == ts[0] && ts[..k + 1][1..] == ts[1..][..k];
    if k == 0 {
      assert ts[..1][1..] == [] && ts[..0] == [];
      assert TokensBits(tables, llens, dlens, ts[..1]) == TokenBits(tables, llens, dlens, ts[0]) + [];
    } else {
      assert ts[..k][0] == ts[0] && ts[..k][1..] == ts[1..][..k - 1];
      TokensBitsAppend(tables, llens, dlens, ts[1..], k - 1);
    }
  }

  /** Where unpacking stands after x tokens: the next distance, the next flag byte, the flags in use. */
  ghost predicate At(ts: seq<Token>, x: int, dx: int, fx: int, flag: int) {
    && 0 <= x <= |ts| && dx == |Dists(ts[..x])| && fx == (x + 7) / 8
    && (x % 8 != 0 && x < |ts| ==> flag == FlagsFrom(ts, x))
  }

  /** What unpacking finds at token x, and where it stands behind it. */
  lemma NextToken(lBuf: seq<int>, dBuf: seq<int>, flagBuf: seq<int>, ts: seq<Token>, x: int, dx: int, fx: int, flag: int, f: int)
    requires Unpacks(lBuf, dBuf, flagBuf, ts) && At(ts, x, dx, fx, flag) && x < |ts|
    requires x % 8 != 0 ==> f == flag
    requires x % 8 == 0 ==> 0 <= fx < |flagBuf| && f == flagBuf[fx]
    ensures f % 2 == (if ts[x].Match? then 1 else 0)
    ensures ts[x].Match? ==> 0 <= dx < |dBuf| && dBuf[dx] == ts[x].distance - 1
    ensures At(ts, x + 1, if ts[x].Match? then dx + 1 else dx, if x % 8 == 0 then fx + 1 else fx, f / 2)
  {
    hide FlagByte, FlagsFrom;
    if x % 8 == 0 {
      FlagsAtGroup(ts, x);
    }
    FlagsStep(ts, x);
    DistsStep(ts, x);
    DistsGrow(ts, x + 1, |ts|);
    assert ts[..|ts|] == ts;
  }

  lemma LitByteInRange(t: Token)
    requires TokenOk(t)
    ensures 0 <= LitByte(t) < 256
  {
  }

  lemma FlagIsThere(lBuf: seq<int>, dBuf: seq<int>, flagBuf: seq<int>, ts: seq<Token>, k: int)
    requires Unpacks(lBuf, dBuf, flagBuf, ts) && 0 <= k && 8 * k < |ts|
    ensures k < |flagBuf|
  {
    assert flagBuf[k] == FlagByte(ts, k);
  }

  /** Sends the next token of the buffers. */
  method SendNext(w: Writer, tables: Tables, lBuf: seq<int>, dBuf: seq<int>, flagBuf: seq<int>, l: Coding, d: Coding,
                  lx: int, dx0: int, fx0: int, flag0: int, ghost ts: seq<Token>)
    returns (dx: int, fx: int, flag: int)
    requires w.Valid() && tables.Valid() && Unpacks(lBuf, dBuf, flagBuf, ts) && At(ts, lx, dx0, fx0, flag0) && lx < |ts|
    requires TokenReady(tables, l, d, ts[lx])
    modifies w, w.sink.repr
    ensures w.Valid() && fresh(w.sink.repr - old(w.sink.repr)) && w.sink.taken == old(w.sink.taken)
    ensures At(ts, lx + 1, dx, fx, flag)
    ensures w.Stream() == old(w.Stream()) + TokenSent(tables, l, d, ts[lx])
  {
    hide Writer.Valid, Writer.Stream, TokenSent, Tables.Valid, Coding.Sends, FlagsFrom, FlagByte;
    dx, fx, flag := dx0, fx0, flag0;
    if lx % 8 == 0 {
      FlagIsThere(lBuf, dBuf, flagBuf, ts, fx);
      flag := flagBuf[fx];
      fx := fx + 1;
    }
    var lc := lBuf[lx] % 256;
    LitByteInRange(ts[lx]);
    NextToken(lBuf, dBuf, flagBuf, ts, lx, dx0, fx0, flag0, flag);
    if flag % 2 == 0 {
      SendLiteral(w, tables, lc, l, d, ts[lx]);
    } else {
      var dist := dBuf[dx];
      dx := dx + 1;
      SendMatch(w, tables, lc, dist, l, d, ts[lx]);
    }
    flag := flag / 2;
  }

  /** Sends the compressed data of a block. */
  method CompressBlock(w: Writer, tables: Tables, lBuf: seq<int>, dBuf: seq<int>, flagBuf: seq<int>, lastLit: int,
                       l: Coding, d: Coding, ghost ts: seq<Token>)
    requires w.Valid() && tables.Valid() && Unpacks(lBuf, dBuf, flagBuf, ts) && lastLit == |ts|
    requires AllReady(tables, l, d, ts) && l.Sends(END_BLOCK)
    modifies w, w.sink.repr
    ensures w.Valid() && fresh(w.sink.repr - old(w.sink.repr)) && w.sink.taken == old(w.sink.taken)
    ensures w.Stream() == old(w.Stream()) + DataSent(tables, l, d, ts)
  {
    hide Writer.Valid, Writer.Stream, Coding.Sent, Coding.Sends, TokenSent, Tables.Valid, Unpacks, TokenReady, FlagsFrom;
    ghost var start := w.Stream();
    var lx, dx, fx, flag := 0, 0, 0, 0;
    if lastLit != 0 {
      while true
        invariant 0 <= lx < lastLit && w.Valid() && fresh(w.sink.repr - old(w.sink.repr)) && w.sink.taken == old(w.sink.taken)
        invariant At(ts, lx, dx, fx, flag)
        invariant w.Stream() == start + TokensSent(tables, l, d, ts, lx)
        decreases lastLit - lx
      {
        assert TokenReady(tables, l, d, ts[lx]);
        dx, fx, flag := SendNext(w, tables, lBuf, dBuf, flagBuf, l, d, lx, dx, fx, flag, ts);
        lx := lx + 1;
        if lx >= lastLit {
          break;
        }
      }
    }
    SendCode(w, l, END_BLOCK);
  }

  /** Sends a literal. */
  method SendLiteral(w: Writer, tables: Tables, lc: int, l: Coding, ghost d: Coding, ghost t: Token)
    requires w.Valid() && tables.Valid() && TokenReady(tables, l, d, t) && t.Literal? && lc == t.lit
    modifies w, w.sink.repr
    ensures w.Valid() && fresh(w.sink.repr - old(w.sink.repr)) && w.sink.taken == old(w.sink.taken)
    ensures w.Stream() == old(w.Stream()) + TokenSent(tables, l, d, t)
  {
    hide Writer.Valid, Writer.Stream, Coding.Sent, Coding.Sends;
    SendCode(w, l, lc);
  }

  /** The bits sent for one symbol of the code length alphabet. */
  ghost function RunWord(bl: seq<int>, run: Run): seq<bool>
    requires IsCode(bl) && RunOk(bl, run)
  {
    Word(bl, run.symbol) + Bits(run.value, RunBits(run.symbol))
  }

  lemma RunsBitsStep(bl: seq<int>, runs: seq<Run>, k: nat)
    requires IsCode(bl) && RunsOk(bl, runs) && k < |runs|
    ensures RunsBits(bl, runs[..k + 1]) == RunsBits(bl, runs[..k]) + RunWord(bl, runs[k])
  {
    hide IsCode, Word, Bits, RunOk;
    var last := [runs[k]];
    assert runs[..k + 1] == runs[..k] + last;
    RunsBitsAppend(bl, runs[..k], last);
    assert last[1..] == [];
    assert RunsBits(bl, last) == RunWord(bl, runs[k]) + [];
  }

  /** The symbol can be sent and its value fits the extra bits. */
  ghost predicate RunReady(b: Coding, run: Run) {
    b.Sends(run.symbol) && 0 <= run.value < Pow2(RunBits(run.symbol))
  }

  ghost predicate RunsReady(b: Coding, runs: seq<Run>) {
    forall i :: 0 <= i < |runs| ==> RunReady(b, runs[i])
  }

  /** The bits sent for the first k symbols of the code length alphabet. */
  ghost function RunsSent(b: Coding, runs: seq<Run>, k: nat): seq<bool>
    requires RunsReady(b, runs) && k <= |runs|
    decreases k
  {
    if k == 0 then []
    else RunsSent(b, runs, k - 1) + (b.Sent(runs[k - 1].symbol) + Bits(runs[k - 1].value, RunBits(runs[k - 1].symbol)))
  }

  lemma RunsAreReady(b: Coding, bl: seq<int>, runs: seq<Run>)
    requires SendsCode(b.fc, b.dl, bl) && RunsOk(bl, runs)
    ensures RunsReady(b, runs)
  {
    hide SendsCode, IsCode, Word, Coding.Sent, Coding.Sends, Pow2;
    forall i | 0 <= i < |runs|
      ensures RunReady(b, runs[i])
    {
      assert RunOk(bl, runs[i]);
      AreCodes(b.fc, b.dl, bl);
      SentIsCodeWord(b, bl, runs[i].symbol);
    }
  }

  lemma {:induction false} RunsSentAreCoded(b: Coding, bl: seq<int>, runs: seq<Run>, k: nat)
    requires SendsCode(b.fc, b.dl, bl) && IsCode(bl) && RunsOk(bl, runs) && RunsReady(b, runs) && k <= |runs|
    ensures RunsSent(b, runs, k) == RunsBits(bl, runs[..k])
    decreases k
  {
    hide SendsCode, IsCode, Word, Coding.Sent, Coding.Sends, Bits, Pow2;
    if k > 0 {
      RunsSentAreCoded(b, bl, runs, k - 1);
      assert RunOk(bl, runs[k - 1]);
      SentIsCodeWord(b, bl, runs[k - 1].symbol);
      RunsBitsStep(bl, runs, k - 1);
    }
  }

  /** Sends symbols of the code length alphabet. */
  method SendRuns(w: Writer, runs: seq<Run>, b: Coding)
    requires w.Valid() && RunsReady(b, runs)
    modifies w, w.sink.repr
    ensures w.Valid() && fresh(w.sink.repr - old(w.sink.repr)) && w.sink.taken == old(w.sink.taken)
    ensures w.Stream() == old(w.Stream()) + RunsSent(b, runs, |runs|)
  {
    hide Writer.Valid, Writer.Stream, Coding.Sent, Coding.Sends, Bits, Pow2;
    var k := 0;
    while k < |runs|
      invariant 0 <= k <= |runs| && w.Valid() && fresh(w.sink.repr - old(w.sink.repr)) && w.sink.taken == old(w.sink.taken)
      invariant w.Stream() == old(w.Stream()) + RunsSent(b, runs, k)
    {
      assert RunReady(b, runs[k]);
      SendCode(w, b, runs[k].symbol);
      SendExtra(w, runs[k].value, 0, RunBits(runs[k].symbol));
      NoExtra(runs[k]);
      k := k + 1;
    }
  }

  lemma NoExtra(run: Run)
    requires run.value >= 0
    ensures RunBits(run.symbol) == 0 ==> Bits(run.value, RunBits(run.symbol)) == []
  {
  }

  /** The bits sent for the trees of a dynamic block. */
  ghost function TreesSent(b: Coding, bl: seq<int>, blcodes: nat, llens: seq<int>, dlens: seq<int>): seq<bool>
    requires HeaderShape(bl, blcodes, llens, dlens) && RunsReady(b, RunsOf(llens)) && RunsReady(b, RunsOf(dlens))
  {
    HeadBits(bl, blcodes, llens, dlens) + RunsSent(b, RunsOf(llens), |RunsOf(llens)|) + RunsSent(b, RunsOf(dlens), |RunsOf(dlens)|)
  }

  /** Where the code length code is a prefix code, they are those a decoder reads back. */
  lemma TreesSentAreCoded(b: Coding, bl: seq<int>, blcodes: nat, llens: seq<int>, dlens: seq<int>)
    requires HeaderFits(bl, blcodes, llens, dlens) && SendsCode(b.fc, b.dl, bl)
    ensures RunsReady(b, RunsOf(llens)) && RunsReady(b, RunsOf(dlens))
    ensures TreesSent(b, bl, blcodes, llens, dlens) == TreeBits(bl, blcodes, llens, dlens)
  {
    hide SendsCode, IsCode, RunsOf, HeadBits, RunsBits, RunsSent, RunsReady, RunsOk;
    var l, d := RunsOf(llens), RunsOf(dlens);
    RunsAreReady(b, bl, l);
    RunsAreReady(b, bl, d);
    RunsSentAreCoded(b, bl, l, |l|);
    RunsSentAreCoded(b, bl, d, |d|);
    assert l[..|l|] == l && d[..|d|] == d;
  }

  /** Sends the trees of a dynamic block. */
  method SendAllTrees(w: Writer, lcodes: int, dcodes: int, blcodes: nat, ldl: seq<int>, ddl: seq<int>, b: Coding,
                      ghost llens: seq<int>, ghost dlens: seq<int>, ghost bl: seq<int>)
    requires w.Valid() && 0 < lcodes && 0 < dcodes && Guarded(ldl, lcodes - 1) && Guarded(ddl, dcodes - 1)
    requires llens == ldl[..lcodes] && dlens == ddl[..dcodes] && |b.dl| >= BL_CODES && bl == b.dl[..BL_CODES]
    requires HeaderShape(bl, blcodes, llens, dlens) && RunsReady(b, RunsOf(llens)) && RunsReady(b, RunsOf(dlens))
    modifies w, w.sink.repr
    ensures w.Valid() && fresh(w.sink.repr - old(w.sink.repr)) && w.sink.taken == old(w.sink.taken)
    ensures w.Stream() == old(w.Stream()) + TreesSent(b, bl, blcodes, llens, dlens)
  {
    hide Writer.Valid, Writer.Stream, Bits, Pow2, RunsOf, CodeCodeBits, Order, RunsSent, RunsReady;
    PowersOfHeader();
    w.SendBits(lcodes - 257, 5);
    w.SendBits(dcodes - 1, 5);
    w.SendBits(blcodes - 4, 4);
    SendCodeCode(w, blcodes, b.dl, bl);
    var lruns := SendTree(ldl, lcodes - 1);
    SendRuns(w, lruns, b);
    var druns := SendTree(ddl, dcodes - 1);
    SendRuns(w, druns, b);
  }

  /** Sends the lengths of the code length code. */
  method SendCodeCode(w: Writer, blcodes: int, bdl: seq<int>, ghost bl: seq<int>)
    requires w.Valid() && 0 <= blcodes <= BL_CODES <= |bdl| && bl == bdl[..BL_CODES]
    requires forall v :: 0 <= v < BL_CODES ==> 0 <= bl[v] < 8
    modifies w, w.sink.repr
    ensures w.Valid() && fresh(w.sink.repr - old(w.sink.repr)) && w.sink.taken == old(w.sink.taken)
    ensures w.Stream() == old(w.Stream()) + CodeCodeBits(bl, 0, blcodes)
  {
    hide Writer.Valid, Writer.Stream, Bits, CodeCodeBits, Order, Pow2;
    EightIsThreeBits();
    NoPlaces(bl);
    var rank := 0;
    while rank < blcodes
      invariant 0 <= rank <= blcodes && w.Valid() && fresh(w.sink.repr - old(w.sink.repr)) && w.sink.taken == old(w.sink.taken)
      invariant w.Stream() == old(w.Stream()) + CodeCodeBits(bl, 0, rank)
    {
      RankOfOrder(rank);
      OneMorePlace(bl, 0, rank);
      assert bdl[Order(rank)] == bl[Order(rank)];
      w.SendBits(bdl[Order(rank)], 3);
      rank := rank + 1;
    }
  }

  lemma EightIsThreeBits()
    ensures Pow2(3) == 8
  {
  }

  lemma NoPlaces(bl: seq<int>)
    requires |bl| == BL_CODES && forall v :: 0 <= v < BL_CODES ==> 0 <= bl[v] < 8
    ensures CodeCodeBits(bl, 0, 0) == []
  {
  }

  lemma {:induction false} OneMorePlace(bl: seq<int>, i: nat, k: nat)
    requires i <= k < BL_CODES && |bl| == BL_CODES && forall v :: 0 <= v < BL_CODES ==> 0 <= bl[v] < 8
    ensures 0 <= Order(k) < BL_CODES && CodeCodeBits(bl, i, k + 1) == CodeCodeBits(bl, i, k) + Bits(bl[Order(k)], 3)
    decreases k - i
  {
    hide Bits, Order;
    RankOfOrder(k);
    RankOfOrder(i);
    if i < k {
      OneMorePlace(bl, i + 1, k);
      var first, middle, last := Bits(bl[Order(i)], 3), CodeCodeBits(bl, i + 1, k), Bits(bl[Order(k)], 3);
      assert first + (middle + last) == (first + middle) + last;
    }
  }
}
