/** Blocks with their headers, one after the other (section 3.2.3 of RFC 1951). */
module BlockStream {
  import opened Arithmetic
  import opened BitStrings
  import opened Bytes
  import opened Lz77Format
  import opened Options
  import opened PrefixCodes
  import opened CanonicalCodes
  import opened BlockFormat
  import opened BlockHeader
  import opened FixedCodes
  import opened TokenBuffer
  import opened DeflateTables
  import opened StoredBlocks

  const STATIC_TREES := 1
  const DYN_TREES := 2

  /** A block: whether it is the last one, its tokens, and what follows it. */
  datatype Block = Block(final: bool, tokens: seq<Token>, rest: seq<bool>)

  function AsBlock(final: bool, r: Option<(seq<Token>, seq<bool>)>): Option<Block> {
    match r
    case None => None
    case Some(p) => Some(Block(final, p.0, p.1))
  }

  /** Reads a block. The bytes of a stored block are read as literals. */
  ghost function ReadBlock(bits: seq<bool>): Option<Block>
  {
    match ReadNumber(1, bits)
    case None => None
    case Some(last) =>
      match ReadNumber(2, last.1)
      case None => None
      case Some(kind) =>
        if kind.0 == STORED_BLOCK then AsBlock(last.0 == 1, ReadStored(kind.1))
        else if kind.0 == STATIC_TREES then FixedAreCodes(); AsBlock(last.0 == 1, ReadTokens(FixedLens(), FixedDists(), kind.1))
        else if kind.0 == DYN_TREES then AsBlock(last.0 == 1, ReadDynamic(kind.1))
        else None
  }

  lemma FixedAreCodes()
    ensures IsCode(FixedLens()) && IsCode(FixedDists())
  {
    FixedIsCode();
    FixedDistsAreCode();
  }

  function Flag(final: bool): nat {
    if final then 1 else 0
  }

  /** The three bits sent for the kind of a block are the final flag and the kind. */
  lemma KindBits(kind: nat, final: bool, rest: seq<bool>)
    requires kind < 4
    ensures var bits := Bits(2 * kind + Flag(final), 3) + rest;
            ReadNumber(1, bits) == Some((Flag(final), Bits(kind, 2) + rest))
            && ReadNumber(2, Bits(kind, 2) + rest) == Some((kind, rest))
            && 2 * kind + Flag(final) < Pow2(3)
  {
    hide Bits, ReadNumber, Pow2;
    var v := 2 * kind + Flag(final);
    SmallKinds(kind, final);
    BitsAppend(v, 1, 2);
    assert Bits(v, 3) + rest == Bits(Flag(final), 1) + (Bits(kind, 2) + rest);
    NumberReadBack(Flag(final), 1, Bits(kind, 2) + rest);
    NumberReadBack(kind, 2, rest);
  }

  lemma SmallKinds(kind: nat, final: bool)
    requires kind < 4
    ensures Pow2(1) == 2 && Pow2(2) == 4 && Pow2(3) == 8
    ensures Bits(2 * kind + Flag(final), 1) == Bits(Flag(final), 1) && Shr(2 * kind + Flag(final), 1) == kind
  {
  }

  /** Every symbol has a fixed code. */
  lemma FixedSendable(tables: Tables, ts: seq<Token>)
    requires tables.Valid() && TokensOk(ts)
    ensures AllSendable(tables, FixedLens(), FixedDists(), ts) && Coded(FixedLens(), END_BLOCK)
  {
    hide CoversLength, CoversDist, CoversStretch;
    forall i | 0 <= i < |ts|
      ensures Sendable(tables, FixedLens(), FixedDists(), ts[i])
    {
      SymbolsInRange(tables, ts[i]);
    }
  }

  /** The bits of a block with the fixed codes. */
  ghost function StaticBlock(tables: Tables, ts: seq<Token>, final: bool): seq<bool>
    requires tables.Valid() && TokensOk(ts)
  {
    FixedAreCodes();
    FixedSendable(tables, ts);
    Bits(2 * STATIC_TREES + Flag(final), 3) + BlockData(tables, FixedLens(), FixedDists(), ts)
  }

  /** A block with the fixed codes reads back as its tokens. */
  lemma StaticReadBack(tables: Tables, ts: seq<Token>, final: bool, rest: seq<bool>)
    requires tables.Valid() && TokensOk(ts)
    ensures ReadBlock(StaticBlock(tables, ts, final) + rest) == Some(Block(final, ts, rest))
  {
    hide IsCode, Bits, BlockData, ReadTokens, ReadNumber, Tables.Valid, FixedLens, FixedDists, AllSendable;
    FixedAreCodes();
    FixedSendable(tables, ts);
    var data := BlockData(tables, FixedLens(), FixedDists(), ts);
    assert StaticBlock(tables, ts, final) + rest == Bits(2 * STATIC_TREES + Flag(final), 3) + (data + rest);
    KindBits(STATIC_TREES, final, data + rest);
    BlockReadBack(tables, FixedLens(), FixedDists(), ts, rest);
  }

  /** The codes of a dynamic block, fit to send the tokens. */
  datatype Codes = Codes(llens: seq<int>, dlens: seq<int>, bl: seq<int>, blcodes: nat) {

    ghost predicate Fit(tables: Tables, ts: seq<Token>) {
      && HeaderFits(bl, blcodes, llens, dlens) && IsCode(llens) && IsCode(dlens)
      && tables.Valid() && AllSendable(tables, llens, dlens, ts) && Coded(llens, END_BLOCK)
    }
  }

  /** The bits of a block with codes of its own. */
  ghost function DynamicBlock(tables: Tables, c: Codes, ts: seq<Token>, final: bool): seq<bool>
    requires c.Fit(tables, ts)
  {
    Bits(2 * DYN_TREES + Flag(final), 3) + TreeBits(c.bl, c.blcodes, c.llens, c.dlens) + BlockData(tables, c.llens, c.dlens, ts)
  }

  /** A block with codes of its own reads back as its tokens. */
  lemma DynamicBlockReadBack(tables: Tables, c: Codes, ts: seq<Token>, final: bool, rest: seq<bool>)
    requires c.Fit(tables, ts)
    ensures ReadBlock(DynamicBlock(tables, c, ts, final) + rest) == Some(Block(final, ts, rest))
  {
    hide IsCode, Bits, BlockData, TreeBits, ReadDynamic, ReadNumber, Tables.Valid, AllSendable, HeaderFits;
    var body := TreeBits(c.bl, c.blcodes, c.llens, c.dlens) + BlockData(tables, c.llens, c.dlens, ts);
    assert DynamicBlock(tables, c, ts, final) + rest == Bits(2 * DYN_TREES + Flag(final), 3) + (body + rest);
    KindBits(DYN_TREES, final, body + rest);
    DynamicReadBack(tables, c.bl, c.blcodes, c.llens, c.dlens, ts, rest);
  }

  /** The bits of a stored block, with the padding up to the byte boundary. */
  ghost function StoredBlock(pad: nat, bytes: seq<byte>, final: bool): seq<bool>
    requires |bytes| < 65536
  {
    Bits(2 * STORED_BLOCK + Flag(final), 3) + StoredBits(pad, bytes)
  }

  lemma {:induction false} StoredBlockReadBack(pad: nat, bytes: seq<byte>, final: bool, rest: seq<bool>)
    requires pad < 8 && |bytes| < 65536 && |rest| % 8 == 0
    ensures ReadBlock(StoredBlock(pad, bytes, final) + rest) == Some(Block(final, Literals(bytes), rest))
  {
    hide Bits, StoredBits, ReadStored, ReadNumber, Literals;
    var body := StoredBits(pad, bytes);
    assert StoredBlock(pad, bytes, final) + rest == Bits(2 * STORED_BLOCK + Flag(final), 3) + (body + rest);
    KindBits(STORED_BLOCK, final, body + rest);
    StoredReadBack(pad, bytes, rest);
  }

  /** Sent after `before` bits, and followed by whole bytes up to the end, the block reads back as the tokens. */
  ghost predicate ReadsAs(before: nat, sent: seq<bool>, tokens: seq<Token>, final: bool) {
    forall rest: seq<bool> :: (before + |sent| + |rest|) % 8 == 0 ==> ReadBlock(sent + rest) == Some(Block(final, tokens, rest))
  }

  /** Reads blocks up to and including the final one: all their tokens. What follows is ignored. */
  ghost function ReadBlocks(bits: seq<bool>): Option<seq<Token>>
    decreases |bits|
  {
    match ReadBlock(bits)
    case None => None
    case Some(block) =>
      if block.final then Some(block.tokens)
      else if |block.rest| >= |bits| then None
      else
        match ReadBlocks(block.rest)
        case None => None
        case Some(more) => Some(block.tokens + more)
  }

  /** What a decoder makes of a bit stream of compressed blocks. */
  ghost function Inflate(bits: seq<bool>): Option<seq<byte>> {
    match ReadBlocks(bits)
    case None => None
    case Some(tokens) => Expand(tokens)
  }

  /** Bits after which any further blocks, up to a whole number of bytes, add their tokens to the given ones, or make a decoder fail. */
  ghost predicate Carries(bits: seq<bool>, tokens: seq<Token>) {
    forall more: seq<bool> :: (|bits| + |more|) % 8 == 0 ==> ReadBlocks(bits + more) == Behind(tokens, ReadBlocks(more))
  }

  function Behind(tokens: seq<Token>, r: Option<seq<Token>>): Option<seq<Token>> {
    match r
    case None => None
    case Some(ts) => Some(tokens + ts)
  }

  /** Bits that a decoder refuses, whatever follows up to a whole number of bytes. */
  ghost predicate Broken(bits: seq<bool>) {
    forall more: seq<bool> :: (|bits| + |more|) % 8 == 0 ==> ReadBlocks(bits + more) == None
  }

  /** A block that a decoder refuses, whatever follows. */
  ghost predicate Refused(sent: seq<bool>) {
    forall rest: seq<bool> :: ReadBlock(sent + rest) == None
  }

  /** A block that is not the final one, and what follows. */
  lemma {:induction false} ReadFirst(bits: seq<bool>, block: seq<Token>, rest: seq<bool>)
    requires ReadBlock(bits) == Some(Block(false, block, rest)) && |rest| < |bits|
    ensures ReadBlocks(bits) == Behind(block, ReadBlocks(rest))
  {
    hide ReadBlock;
  }

  lemma {:induction false} ReadFinal(bits: seq<bool>, block: seq<Token>, rest: seq<bool>)
    requires ReadBlock(bits) == Some(Block(true, block, rest))
    ensures ReadBlocks(bits) == Some(block)
  {
    hide ReadBlock;
  }

  lemma {:induction false} ReadNone(bits: seq<bool>)
    requires ReadBlock(bits) == None
    ensures ReadBlocks(bits) == None
  {
    hide ReadBlock;
  }

  lemma {:induction false} NothingCarriesNothing()
    ensures Carries([], [])
  {
    forall more: seq<bool> | (0 + |more|) % 8 == 0
      ensures ReadBlocks([] + more) == Behind([], ReadBlocks(more))
    {
      assert [] + more == more;
      if ReadBlocks(more).Some? {
        assert [] + ReadBlocks(more).value == ReadBlocks(more).value;
      }
    }
  }

  /** One more block, not the final one, carries its tokens along. */
  lemma {:induction false} OneMoreBlock(bits: seq<bool>, tokens: seq<Token>, sent: seq<bool>, block: seq<Token>)
    requires Carries(bits, tokens) && sent != [] && ReadsAs(|bits|, sent, block, false)
    ensures Carries(bits + sent, tokens + block)
  {
    hide ReadBlock, ReadBlocks;
    forall more: seq<bool> | (|bits + sent| + |more|) % 8 == 0
      ensures ReadBlocks((bits + sent) + more) == Behind(tokens + block, ReadBlocks(more))
    {
      ReadFirst(sent + more, block, more);
      assert ReadBlocks(bits + (sent + more)) == Behind(tokens, ReadBlocks(sent + more));
      assert (bits + sent) + more == bits + (sent + more);
      if ReadBlocks(more).Some? {
        var ts := ReadBlocks(more).value;
        assert (tokens + block) + ts == tokens + (block + ts);
      }
    }
  }

  /** A block that is refused breaks the stream. */
  lemma {:induction false} RefusedBreaks(bits: seq<bool>, tokens: seq<Token>, sent: seq<bool>)
    requires Carries(bits, tokens) && Refused(sent)
    ensures Broken(bits + sent)
  {
    hide ReadBlock, ReadBlocks;
    forall more: seq<bool> | (|bits + sent| + |more|) % 8 == 0
      ensures ReadBlocks((bits + sent) + more) == None
    {
      ReadNone(sent + more);
      assert (bits + sent) + more == bits + (sent + more);
    }
  }

  lemma {:induction false} BrokenStays(bits: seq<bool>, sent: seq<bool>)
    requires Broken(bits)
    ensures Broken(bits + sent)
  {
    hide ReadBlock, ReadBlocks;
    forall more: seq<bool> | (|bits + sent| + |more|) % 8 == 0
      ensures ReadBlocks((bits + sent) + more) == None
    {
      assert (bits + sent) + more == bits + (sent + more);
    }
  }

  /** The final block ends the stream, whatever padding follows. */
  lemma LastBlock(bits: seq<bool>, tokens: seq<Token>, sent: seq<bool>, block: seq<Token>, pad: seq<bool>)
    requires Carries(bits, tokens) && ReadsAs(|bits|, sent, block, true) && |bits + sent + pad| % 8 == 0
    ensures ReadBlocks(bits + sent + pad) == Some(tokens + block)
  {
    hide ReadBlock, ReadBlocks;
    ReadFinal(sent + pad, block, pad);
    assert ReadBlocks(bits + (sent + pad)) == Behind(tokens, ReadBlocks(sent + pad));
    assert bits + sent + pad == bits + (sent + pad);
  }

  /** An empty output is no stream at all. */
  lemma NothingIsNoStream()
    ensures Inflate([]) == None
  {
    assert ReadNumber(1, []) == None;
  }
}
