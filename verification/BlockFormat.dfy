/**
 The compressed data of a block (sections 3.2.3, 3.2.5 and 3.2.7 of RFC 1951): what a decoder reads,
 and what the encoder sends for a list of tokens.
 */
module BlockFormat {
  import opened Arithmetic
  import opened BitStrings
  import opened Lz77Format
  import opened Options
  import opened PrefixCodes
  import opened CanonicalCodes
  import opened DeflateTables

  const END_BLOCK := 256
  const LITERALS := 256

  /** The next n bits as a number, and what follows them. */
  function ReadNumber(n: nat, bits: seq<bool>): Option<(nat, seq<bool>)> {
    if n <= |bits| then Some((Number(bits[..n]), bits[n..])) else None
  }

  lemma NumberReadBack(v: nat, n: nat, rest: seq<bool>)
    requires v < Pow2(n)
    ensures ReadNumber(n, Bits(v, n) + rest) == Some((v, rest))
  {
    var bits := Bits(v, n) + rest;
    assert bits[..n] == Bits(v, n) && bits[n..] == rest;
    NumberOfBits(v, n);
  }

  /** A distance: its code and extra bits. */
  ghost function ReadDistance(dlens: seq<int>, bits: seq<bool>): (r: Option<(nat, seq<bool>)>)
    requires IsCode(dlens)
    ensures r.Some? ==> |r.value.1| < |bits|
  {
    match ReadSymbol(dlens, bits)
    case None => None
    case Some(symbol) =>
      if !(0 <= symbol.0 < D_CODES) then None
      else
        match ReadNumber(DistExtra(symbol.0), symbol.1)
        case None => None
        case Some(extra) => Some((DistBase(symbol.0) + extra.0, extra.1))
  }

  /** A match: its length code c has been read; extra bits and distance follow. */
  ghost function ReadMatch(dlens: seq<int>, c: int, bits: seq<bool>): (r: Option<(Token, seq<bool>)>)
    requires IsCode(dlens) && 0 <= c < LENGTH_CODES
    ensures r.Some? ==> |r.value.1| < |bits|
  {
    match ReadNumber(LengthExtra(c), bits)
    case None => None
    case Some(extra) =>
      match ReadDistance(dlens, extra.1)
      case None => None
      case Some(dist) => Some((Match(dist.0, LengthBase(c) + extra.0), dist.1))
  }

  /** The tokens up to the end of the block, and what follows. */
  ghost function ReadTokens(llens: seq<int>, dlens: seq<int>, bits: seq<bool>): Option<(seq<Token>, seq<bool>)>
    requires IsCode(llens) && IsCode(dlens)
    decreases |bits|
  {
    match ReadSymbol(llens, bits)
    case None => None
    case Some(symbol) =>
      if symbol.0 == END_BLOCK then Some(([], symbol.1))
      else if 0 <= symbol.0 < LITERALS then Then(Literal(symbol.0), ReadTokens(llens, dlens, symbol.1))
      else if LITERALS < symbol.0 <= LITERALS + LENGTH_CODES then
        match ReadMatch(dlens, symbol.0 - LITERALS - 1, symbol.1)
        case None => None
        case Some(found) => Then(found.0, ReadTokens(llens, dlens, found.1))
      else None
  }

  function Then(first: Token, rest: Option<(seq<Token>, seq<bool>)>): Option<(seq<Token>, seq<bool>)> {
    match rest
    case None => None
    case Some(r) => Some(([first] + r.0, r.1))
  }

  /** The lookup tables of the encoder. */
  datatype Tables = Tables(lengthCode: seq<int>, baseLength: seq<int>, distCode: seq<int>, baseDist: seq<int>) {

    ghost predicate Valid() {
      LengthTable(lengthCode, baseLength) && DistTable(distCode, baseDist)
    }
  }

  /** A token the format can express. */
  predicate TokenOk(t: Token) {
    t.Match? ==> MIN_MATCH <= t.length <= MAX_MATCH && 1 <= t.distance <= MAX_BACK
  }

  /** The symbol of the literal and length alphabet that a token begins with. */
  function LitSymbol(tables: Tables, t: Token): int
    requires |tables.lengthCode| == 256 && TokenOk(t)
  {
    match t
    case Literal(lit) => lit
    case Match(_, length) => tables.lengthCode[length - MIN_MATCH] + LITERALS + 1
  }

  /** The distance symbol of a match. */
  function DistSymbol(tables: Tables, t: Token): int
    requires |tables.distCode| == 512 && TokenOk(t) && t.Match?
  {
    DCode(tables.distCode, t.distance - 1)
  }

  /** All symbols of a token have a code. */
  ghost predicate Sendable(tables: Tables, llens: seq<int>, dlens: seq<int>, t: Token)
    requires tables.Valid()
  {
    TokenOk(t) && Coded(llens, LitSymbol(tables, t)) && (t.Match? ==> Coded(dlens, DistSymbol(tables, t)))
  }

  lemma TokenCodes(tables: Tables, t: Token)
    requires tables.Valid() && TokenOk(t) && t.Match?
    ensures CoversLength(LitSymbol(tables, t) - LITERALS - 1, t.length)
    ensures CoversDist(DistSymbol(tables, t), t.distance)
  {
    assert CoversLength(tables.lengthCode[t.length - MIN_MATCH], t.length - MIN_MATCH + 3);
    DCodeCovers(tables.distCode, tables.baseDist, t.distance - 1);
  }

  /** The distance code and extra bits of a match. */
  ghost function DistBits(tables: Tables, dlens: seq<int>, t: Token): seq<bool>
    requires tables.Valid() && IsCode(dlens) && TokenOk(t) && t.Match? && Coded(dlens, DistSymbol(tables, t))
  {
    TokenCodes(tables, t);
    var d := DistSymbol(tables, t);
    Word(dlens, d) + Bits(t.distance - DistBase(d), DistExtra(d))
  }

  /** The length extra bits, the distance code and the distance extra bits of a match. */
  ghost function MatchBits(tables: Tables, dlens: seq<int>, t: Token): seq<bool>
    requires tables.Valid() && IsCode(dlens) && TokenOk(t) && t.Match? && Coded(dlens, DistSymbol(tables, t))
  {
    TokenCodes(tables, t);
    var c := LitSymbol(tables, t) - LITERALS - 1;
    Bits(t.length - LengthBase(c), LengthExtra(c)) + DistBits(tables, dlens, t)
  }

  ghost function TokenBits(tables: Tables, llens: seq<int>, dlens: seq<int>, t: Token): seq<bool>
    requires tables.Valid() && IsCode(llens) && IsCode(dlens) && Sendable(tables, llens, dlens, t)
  {
    if t.Literal? then Word(llens, t.lit)
    else Word(llens, LitSymbol(tables, t)) + MatchBits(tables, dlens, t)
  }

  ghost predicate AllSendable(tables: Tables, llens: seq<int>, dlens: seq<int>, ts: seq<Token>)
    requires tables.Valid()
  {
    forall i :: 0 <= i < |ts| ==> Sendable(tables, llens, dlens, ts[i])
  }

  ghost function TokensBits(tables: Tables, llens: seq<int>, dlens: seq<int>, ts: seq<Token>): seq<bool>
    requires tables.Valid() && IsCode(llens) && IsCode(dlens) && AllSendable(tables, llens, dlens, ts)
  {
    if ts == [] then [] else TokenBits(tables, llens, dlens, ts[0]) + TokensBits(tables, llens, dlens, ts[1..])
  }

  /** The compressed data of a block. */
  ghost function BlockData(tables: Tables, llens: seq<int>, dlens: seq<int>, ts: seq<Token>): seq<bool>
    requires tables.Valid() && IsCode(llens) && IsCode(dlens) && AllSendable(tables, llens, dlens, ts)
    requires Coded(llens, END_BLOCK)
  {
    TokensBits(tables, llens, dlens, ts) + Word(llens, END_BLOCK)
  }

  lemma DistReadBack(tables: Tables, dlens: seq<int>, t: Token, rest: seq<bool>)
    requires tables.Valid() && IsCode(dlens) && TokenOk(t) && t.Match? && Coded(dlens, DistSymbol(tables, t))
    ensures ReadDistance(dlens, DistBits(tables, dlens, t) + rest) == Some((t.distance, rest))
  {
    hide IsCode, DistBase, DistExtra, Word, Pow2, Bits, ReadSymbol, ReadNumber;
    TokenCodes(tables, t);
    var d := DistSymbol(tables, t);
    var extra := Bits(t.distance - DistBase(d), DistExtra(d));
    assert DistBits(tables, dlens, t) + rest == Word(dlens, d) + (extra + rest);
    SymbolReadBack(dlens, d, extra + rest);
    NumberReadBack(t.distance - DistBase(d), DistExtra(d), rest);
  }

  lemma MatchReadBack(tables: Tables, dlens: seq<int>, t: Token, rest: seq<bool>)
    requires tables.Valid() && IsCode(dlens) && TokenOk(t) && t.Match? && Coded(dlens, DistSymbol(tables, t))
    ensures CoversLength(LitSymbol(tables, t) - LITERALS - 1, t.length)
    ensures ReadMatch(dlens, LitSymbol(tables, t) - LITERALS - 1, MatchBits(tables, dlens, t) + rest) == Some((t, rest))
  {
    hide IsCode, LengthBase, LengthExtra, Word, Pow2, Bits, ReadDistance, DistBits, ReadNumber;
    TokenCodes(tables, t);
    var c := LitSymbol(tables, t) - LITERALS - 1;
    var extra, dist := Bits(t.length - LengthBase(c), LengthExtra(c)), DistBits(tables, dlens, t);
    assert MatchBits(tables, dlens, t) + rest == extra + (dist + rest);
    NumberReadBack(t.length - LengthBase(c), LengthExtra(c), dist + rest);
    DistReadBack(tables, dlens, t, rest);
  }

  /** One token is read back from its bits, and reading goes on behind it. */
  lemma {:induction false} TokenReadBack(tables: Tables, llens: seq<int>, dlens: seq<int>, t: Token, rest: seq<bool>)
    requires tables.Valid() && IsCode(llens) && IsCode(dlens) && Sendable(tables, llens, dlens, t)
    ensures ReadTokens(llens, dlens, TokenBits(tables, llens, dlens, t) + rest) == Then(t, ReadTokens(llens, dlens, rest))
  {
    hide IsCode, Word, ReadSymbol, ReadMatch, MatchBits;
    if t.Literal? {
      SymbolReadBack(llens, t.lit, rest);
    } else {
      var n, more := LitSymbol(tables, t), MatchBits(tables, dlens, t);
      assert TokenBits(tables, llens, dlens, t) + rest == Word(llens, n) + (more + rest);
      SymbolReadBack(llens, n, more + rest);
      MatchReadBack(tables, dlens, t, rest);
    }
  }

  /** The compressed data of a block reads back as its tokens, whatever follows. */
  lemma {:induction false} BlockReadBack(tables: Tables, llens: seq<int>, dlens: seq<int>, ts: seq<Token>, rest: seq<bool>)
    requires tables.Valid() && IsCode(llens) && IsCode(dlens) && AllSendable(tables, llens, dlens, ts)
    requires Coded(llens, END_BLOCK)
    ensures ReadTokens(llens, dlens, BlockData(tables, llens, dlens, ts) + rest) == Some((ts, rest))
    decreases |ts|
  {
    hide IsCode, Word, ReadSymbol, Sendable, TokenBits, Tables.Valid;
    if ts == [] {
      SymbolReadBack(llens, END_BLOCK, rest);
      assert BlockData(tables, llens, dlens, ts) == Word(llens, END_BLOCK);
    } else {
      var first := TokenBits(tables, llens, dlens, ts[0]);
      var after := BlockData(tables, llens, dlens, ts[1..]) + rest;
      assert BlockData(tables, llens, dlens, ts) + rest == first + after;
      TokenReadBack(tables, llens, dlens, ts[0], after);
      BlockReadBack(tables, llens, dlens, ts[1..], rest);
      assert [ts[0]] + ts[1..] == ts;
    }
  }
}
