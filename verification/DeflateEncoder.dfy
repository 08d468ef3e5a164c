/** The whole encoder: text to tokens, tokens to blocks, blocks to bytes. */
module DeflateEncoder {
  import opened Bytes
  import opened Options
  import opened Lz77Format
  import opened HashChains
  import opened Lz77Matcher
  import opened DeflateTables
  import opened BlockFormat
  import opened TokenBuffer
  import opened BitWriter
  import opened BlockEncoder
  import opened StoredBlocks
  import opened BlockStream
  import opened BlockFlush
  import opened BlockLog
  import opened FixedCodes
  import opened OutputQueue

  /** A stream that expands to something has only tokens the format can express. */
  lemma {:induction false} ExpandedAreOk(tokens: seq<Token>)
    requires Expand(tokens).Some?
    ensures TokensOk(tokens)
    decreases |tokens|
  {
    if tokens != [] {
      var init := tokens[..|tokens| - 1];
      ExpandedAreOk(init);
      forall i | 0 <= i < |tokens|
        ensures TokenOk(tokens[i])
      {
        assert i < |init| ==> tokens[i] == init[i];
      }
    }
  }

  /** Builds the tables and an empty token buffer. */
  method Setup() returns (b: TokenBuffer.Buffer, slfc: seq<int>, sdfc: seq<int>)
    ensures b.Valid() && b.tokens == []
    ensures fresh(b) && fresh(b.lBuf) && fresh(b.dBuf) && fresh(b.flagBuf) && fresh(b.lFreq) && fresh(b.dFreq)
    ensures SendsCode(slfc, FixedLens(), FixedLens()) && SendsCode(sdfc, FixedDists(), FixedDists())
  {
    hide SendsCode, FixedLens, FixedDists, LengthTable, DistTable;
    var lengthCode, baseLength := BuildLengthTable();
    var distCode, baseDist := BuildDistTable();
    var lfc, ldl := BuildStaticTree();
    var dfc, ddl := BuildStaticDists();
    slfc, sdfc := lfc[..], dfc[..];
    b := new TokenBuffer.Buffer(Tables(lengthCode[..], baseLength[..], distCode[..], baseDist[..]));
    b.InitBlock();
  }

  /** Everything the encoder works on is its own. */
  ghost predicate Working(w: Writer, b: TokenBuffer.Buffer)
    reads w, w.sink, w.sink.repr, b, b.lBuf, b.dBuf, b.flagBuf, b.lFreq, b.dFreq
  {
    w.Valid() && b.Valid() && Separate(w, b)
  }

  /** The bytes of the block that reaches from `start` to `pos`, as far as the window, which begins at `base`, still shows them. */
  function Shown(text: seq<byte>, start: nat, pos: nat, base: int): seq<byte>
    requires start <= pos <= |text|
  {
    if start - base >= 0 then text[start..pos] else []
  }

  /** The tokens a decoder reads for a block: those tallied, or the bytes of a stored block. */
  ghost predicate BlockOf(block: seq<Token>, tallied: seq<Token>, text: seq<byte>, start: nat, pos: nat)
    requires start <= pos <= |text|
  {
    block == tallied || block == Literals(text[start..pos])
  }

  /** Ends a block that reaches from `start` to `pos`. The window begins at `base`. */
  method EndBlock(w: Writer, b: TokenBuffer.Buffer, slfc: seq<int>, sdfc: seq<int>, text: seq<byte>, start: nat, pos: nat, base: int, eof: bool)
    returns (ok: bool, ghost sent: seq<bool>, ghost block: seq<Token>, ghost ended: Ended)
    requires Working(w, b) && start <= pos <= |text| && Size(b.tokens) == pos - start && pos - base < WINDOW_SIZE
    requires SendsCode(slfc, FixedLens(), FixedLens()) && SendsCode(sdfc, FixedDists(), FixedDists())
    modifies w, w.sink.repr, b, b.flagBuf, b.lFreq, b.dFreq
    ensures Working(w, b) && fresh(w.sink.repr - old(w.sink.repr)) && w.sink.taken == old(w.sink.taken)
    ensures b.tokens == [] && w.Stream() == old(w.Stream()) + sent
    ensures ended.tokens == old(b.tokens) && ended.blockStart == start - base && Recorded(ended) && (ok <==> ended.kind != CutOff)
    ensures ok ==> sent != [] && ReadsAs(|old(w.Stream())|, sent, block, eof) && BlockOf(block, old(b.tokens), text, start, pos)
    ensures !ok ==> Refused(sent)
  {
    hide Writer.Valid, Writer.Stream, TokenBuffer.Buffer.Valid, SendsCode, FixedLens, FixedDists, ReadsAs, Literals, StaticBlock, TreesOf, OptLen,
         StaticLen, Size, Decision, Refused;
    block := b.tokens;
    var kind;
    ghost var t;
    kind, sent, t := FlushBlock(w, b, slfc, sdfc, Shown(text, start, pos, base), pos - start, start - base, eof);
    ok := kind != CutOff;
    ended := Ended(block, t, start - base, kind);
    if kind == Stored {
      block := Literals(text[start..pos]);
    }
  }

  /** Tallies one token. Says whether the block is due to end. */
  method TallyToken(b: TokenBuffer.Buffer, t: Token, level: int, inLength: nat) returns (full: bool)
    requires b.Valid() && TokenOk(t) && |b.tokens| < LIT_BUFSIZE - 1
    modifies b, b.lBuf, b.dBuf, b.flagBuf, b.lFreq, b.dFreq
    ensures b.Valid() && b.tokens == old(b.tokens) + [t] && (full <==> Due(b.tables, b.tokens, level, inLength))
  {
    hide TokenBuffer.Buffer.Stored, TokenBuffer.Buffer.Flagged, Due;
    if t.Literal? {
      full := b.Tally(0, t.lit, level, inLength);
    } else {
      full := b.Tally(t.distance, t.length - MIN_MATCH, level, inLength);
    }
  }

  /** Tallies one token, which ends at `pos`, and ends the block when that is due. */
  method EncodeToken(w: Writer, b: TokenBuffer.Buffer, t: Token, level: int, inLength: nat, slfc: seq<int>, sdfc: seq<int>,
                     text: seq<byte>, start: nat, pos: nat, base: int)
    returns (full: bool, ok: bool, ghost sent: seq<bool>, ghost block: seq<Token>, ghost ended: Ended)
    requires Working(w, b) && TokenOk(t) && |b.tokens| < LIT_BUFSIZE - 1 && start <= pos <= |text| && Size(b.tokens + [t]) == pos - start
    requires pos - base < WINDOW_SIZE
    requires SendsCode(slfc, FixedLens(), FixedLens()) && SendsCode(sdfc, FixedDists(), FixedDists())
    modifies w, w.sink.repr, b, b.lBuf, b.dBuf, b.flagBuf, b.lFreq, b.dFreq
    ensures Working(w, b) && fresh(w.sink.repr - old(w.sink.repr)) && w.sink.taken == old(w.sink.taken)
    ensures |b.tokens| < LIT_BUFSIZE - 1 && w.Stream() == old(w.Stream()) + sent
    ensures b.tables.Valid() && TokensOk(old(b.tokens) + [t]) && (full <==> Due(b.tables, old(b.tokens) + [t], level, inLength))
    ensures !full ==> ok && sent == [] && b.tokens == old(b.tokens) + [t]
    ensures full ==>
              && b.tokens == [] && ended.tokens == old(b.tokens) + [t] && ended.blockStart == start - base
              && Recorded(ended) && (ok <==> ended.kind != CutOff)
    ensures full && ok ==>
              sent != [] && ReadsAs(|old(w.Stream())|, sent, block, false) && BlockOf(block, old(b.tokens) + [t], text, start, pos)
    ensures !ok ==> Refused(sent)
  {
    hide Writer.Valid, Writer.Stream, TokenBuffer.Buffer.Valid, SendsCode, ReadsAs, BlockOf, FixedLens, FixedDists, Recorded, Size, Refused;
    full := TallyToken(b, t, level, inLength);
    WorkingTokens(b);
    ok, sent, block, ended := true, [], [], *;
    if full {
      ok, sent, block, ended := EndBlock(w, b, slfc, sdfc, text, start, pos, base, false);
    }
  }

  lemma WorkingTokens(b: TokenBuffer.Buffer)
    requires b.Valid()
    ensures b.tables.Valid() && TokensOk(b.tokens)
  {
  }

  /** What has been sent carries the text of all tokens but those still in the buffer. */
  ghost predicate InStep(stream: seq<bool>, tokens: seq<Token>, i: int, pending: seq<Token>, carried: seq<Token>) {
    && 0 <= |pending| <= i <= |tokens| && pending == tokens[i - |pending|..i]
    && Carries(stream, carried) && Expand(carried) == Expand(tokens[..i - |pending|])
  }

  lemma {:induction false} StepKept(stream: seq<bool>, tokens: seq<Token>, i: int, pending: seq<Token>, carried: seq<Token>)
    requires InStep(stream, tokens, i, pending, carried) && i < |tokens|
    ensures InStep(stream + [], tokens, i + 1, pending + [tokens[i]], carried)
  {
    hide Carries, Expand;
    assert stream + [] == stream;
    assert tokens[..i + 1 - |pending + [tokens[i]]|] == tokens[..i - |pending|];
  }

  /** A block that reads as its tokens, or as its bytes, adds the same text. */
  lemma {:induction false} BlockAddsText(tokens: seq<Token>, text: seq<byte>, from: nat, i: nat, carried: seq<Token>, block: seq<Token>)
    requires Expand(tokens) == Some(text) && from <= i <= |tokens| && Expand(carried) == Expand(tokens[..from])
    requires Size(tokens[..from]) <= Size(tokens[..i]) <= |text|
    requires BlockOf(block, tokens[from..i], text, Size(tokens[..from]), Size(tokens[..i]))
    ensures Expand(carried + block) == Expand(tokens[..i])
  {
    hide Expand, Size, Literals;
    PrefixExpands(tokens, text, from);
    PrefixExpands(tokens, text, i);
    if block == tokens[from..i] {
      ExpandSame(carried, tokens[..from], block);
      assert tokens[..from] + block == tokens[..i];
    } else {
      var start := Size(tokens[..from]);
      ExpandLiterals(carried, text, start, Size(tokens[..i]) - start);
    }
  }

  lemma {:induction false} StepSent(stream: seq<bool>, tokens: seq<Token>, text: seq<byte>, i: int, pending: seq<Token>, carried: seq<Token>,
                                    sent: seq<bool>, block: seq<Token>)
    requires InStep(stream, tokens, i, pending, carried) && i < |tokens| && sent != [] && ReadsAs(|stream|, sent, block, false)
    requires Expand(carried + block) == Expand(tokens[..i + 1])
    ensures InStep(stream + sent, tokens, i + 1, [], carried + block)
  {
    hide Carries, ReadsAs, Expand;
    OneMoreBlock(stream, carried, sent, block);
  }

  /** Where the encoder is after i tokens: the bytes reached, the block begun, the blocks ended; and what has been sent so far is good, or broken. */
  ghost predicate Along(stream: seq<bool>, tokens: seq<Token>, i: int, pending: seq<Token>, carried: seq<Token>, blocks: seq<Ended>,
                        bases: seq<int>, start: int, pos: int)
  {
    && |bases| == |tokens| && Anchored(blocks, bases)
    && |pending| <= i <= |tokens| && pending == tokens[i - |pending|..i] && Log(blocks, tokens[..i - |pending|])
    && 0 <= start == Size(tokens[..i - |pending|]) <= pos == Size(tokens[..i]) && Size(pending) == pos - start
    && if AllSent(blocks) then InStep(stream, tokens, i, pending, carried) else Broken(stream)
  }

  /** One more token, when it does not end the block. */
  lemma {:induction false} AlongKept(stream: seq<bool>, tokens: seq<Token>, i: int, pending: seq<Token>, carried: seq<Token>, blocks: seq<Ended>,
                                     bases: seq<int>, start: int, pos: int, pos': int)
    requires Along(stream, tokens, i, pending, carried, blocks, bases, start, pos) && i < |tokens|
    requires pos <= pos' == Size(tokens[..i + 1]) && Size(pending + [tokens[i]]) == pos' - start
    ensures Along(stream + [], tokens, i + 1, pending + [tokens[i]], carried, blocks, bases, start, pos')
  {
    hide InStep, Log, AllSent, Size, Broken, Anchored;
    if AllSent(blocks) {
      StepKept(stream, tokens, i, pending, carried);
    } else {
      BrokenStays(stream, []);
    }
  }

  /** One more token, when it ends the block. */
  lemma {:induction false} AlongEnded(stream: seq<bool>, tokens: seq<Token>, text: seq<byte>, i: int, pending: seq<Token>, carried: seq<Token>,
                                      blocks: seq<Ended>, bases: seq<int>, start: int, pos: int, pos': int, sent: seq<bool>, block: seq<Token>, ended: Ended)
    requires Along(stream, tokens, i, pending, carried, blocks, bases, start, pos) && i < |tokens| && pos <= pos' == Size(tokens[..i + 1]) <= |text|
    requires Expand(tokens) == Some(text) && Recorded(ended) && ended.tokens == pending + [tokens[i]] && ended.blockStart == start - bases[i]
    requires ended.kind != CutOff ==>
               sent != [] && ReadsAs(|stream|, sent, block, false) && BlockOf(block, pending + [tokens[i]], text, start, pos')
    requires ended.kind == CutOff ==> Refused(sent)
    ensures Along(stream + sent, tokens, i + 1, [], carried + block, blocks + [ended], bases, pos', pos')
    ensures AllSent(blocks + [ended]) <==> AllSent(blocks) && ended.kind != CutOff
  {
    hide Log, Recorded, Expand, ReadsAs, BlockOf, Carries, AllSent, Broken, Refused, Anchored;
    LogGrows(blocks, tokens[..i - |pending|], ended);
    AnchorNext(blocks, tokens, bases, i, pending, ended);
    assert tokens[..i - |pending|] + ended.tokens == tokens[..i + 1];
    if !AllSent(blocks) {
      BrokenStays(stream, sent);
    } else if ended.kind == CutOff {
      RefusedBreaks(stream, carried, sent);
    } else {
      StepOn(stream, tokens, text, i, pending, carried, sent, block);
    }
  }

  lemma AnchorNext(blocks: seq<Ended>, tokens: seq<Token>, bases: seq<int>, i: nat, pending: seq<Token>, ended: Ended)
    requires |pending| <= i < |tokens| == |bases| && Log(blocks, tokens[..i - |pending|]) && Anchored(blocks, bases)
    requires ended.tokens == pending + [tokens[i]] && ended.blockStart == Size(tokens[..i - |pending|]) - bases[i]
    ensures Anchored(blocks + [ended], bases)
  {
    hide Size, Anchored, Recorded;
    AnchoredGrows(blocks, bases, ended);
  }

  /**
   Encodes all tokens of a text. The last one may have been held back; then it is tallied without ending a block.
   A decoder gives the text back if no block had its lengths cut off, and otherwise refuses the stream.
   */
  method EncodeTokens(tokens: seq<Token>, held: bool, bases: seq<int>, end: int, level: int, text: seq<byte>)
    returns (w: Writer, ok: bool, ghost blocks: seq<Ended>, ghost tables: Tables)
    requires TokensOk(tokens) && Expand(tokens) == Some(text) && (held ==> tokens != [] && level > 3)
    requires Placed(tokens, bases) && Shows(end, |text|)
    ensures fresh(w) && fresh(w.sink.repr) && w.Valid() && w.biValid == 0 && w.sink.taken == []
    ensures Log(blocks, tokens) && Cut(blocks, tables, level, held) && AllAnchored(blocks, bases, end) && (ok <==> AllSent(blocks))
    ensures Inflate(w.Stream()) == if ok then Some(text) else None
  {
    hide Writer.Valid, Writer.Stream, TokenBuffer.Buffer.Valid, SendsCode, FixedLens, FixedDists, ReadsAs, BlockOf, Expand, Inflate,
         Log, Recorded, AllSent, Along, Size, Refused, Due, Tables.Valid, DueAt, Undue, Closed, InLength, Placed, AllAnchored;
    var b, slfc, sdfc := Setup();
    w := new Writer();
    ok, blocks, tables := true, [], b.tables;
    WorkingTokens(b);
    NothingDue(tables, level);
    var i, start, pos := 0, 0, 0;
    ghost var carried: seq<Token> := [];
    StreamBegins(tokens, bases);
    while i < if held then |tokens| - 1 else |tokens|
      invariant 0 <= i <= (if held then |tokens| - 1 else |tokens|) && Working(w, b) && |b.tokens| < LIT_BUFSIZE - 1 && w.sink.taken == []
      invariant fresh(w) && fresh(w.sink.repr) && fresh(b) && fresh(b.lBuf) && fresh(b.dBuf) && fresh(b.flagBuf)
      invariant fresh(b.lFreq) && fresh(b.dFreq)
      invariant 0 <= start <= pos && Along(w.Stream(), tokens, i, b.tokens, carried, blocks, bases, start, pos) && (ok <==> AllSent(blocks))
      invariant b.tables == tables && tables.Valid() && Undue(tables, b.tokens, level, |b.tokens|)
      invariant forall j :: 0 <= j < |blocks| ==> Closed(tables, blocks[j].tokens, level)
    {
      ghost var stream, pending, before := w.Stream(), b.tokens, pos;
      SizeStep(tokens, text, i, stream, pending, carried, blocks, bases, start, pos);
      var inLength := pos - start + if level <= 3 then 0 else 1;
      pos := pos + if tokens[i].Literal? then 1 else tokens[i].length;
      var full, fine;
      ghost var sent, block, ended;
      full, fine, sent, block, ended := EncodeToken(w, b, tokens[i], level, inLength, slfc, sdfc, text, start, pos, bases[i]);
      CutNext(tables, pending, tokens[i], level, inLength, full);
      if full {
        AlongEnded(stream, tokens, text, i, pending, carried, blocks, bases, start, before, pos, sent, block, ended);
        carried, blocks, start := carried + block, blocks + [ended], pos;
      } else {
        AlongKept(stream, tokens, i, pending, carried, blocks, bases, start, before, pos);
      }
      ok := ok && fine;
      i := i + 1;
    }
    if held {
      ghost var stream, pending, before := w.Stream(), b.tokens, pos;
      SizeStep(tokens, text, i, stream, pending, carried, blocks, bases, start, pos);
      var _ := TallyToken(b, tokens[i], level, pos - start + 1);
      pos := pos + if tokens[i].Literal? then 1 else tokens[i].length;
      AlongKept(stream, tokens, i, pending, carried, blocks, bases, start, before, pos);
      UndueGrows(tables, pending, tokens[i], level);
      assert stream + [] == w.Stream();
    }
    var fine;
    ghost var ended;
    fine, ended := EndStream(w, b, slfc, sdfc, text, start, pos, end, tokens, carried, blocks, bases);
    ok, blocks := ok && fine, blocks + [ended];
  }

  /** Ends the last block and fills up the last byte. */
  method EndStream(w: Writer, b: TokenBuffer.Buffer, slfc: seq<int>, sdfc: seq<int>, text: seq<byte>, start: nat, pos: nat, end: int,
                   ghost tokens: seq<Token>, ghost carried: seq<Token>, ghost blocks: seq<Ended>, ghost bases: seq<int>)
    returns (fine: bool, ghost ended: Ended)
    requires Working(w, b) && SendsCode(slfc, FixedLens(), FixedLens()) && SendsCode(sdfc, FixedDists(), FixedDists())
    requires Expand(tokens) == Some(text) && Along(w.Stream(), tokens, |tokens|, b.tokens, carried, blocks, bases, start, pos) && Shows(end, |text|)
    modifies w, w.sink.repr, b, b.flagBuf, b.lFreq, b.dFreq
    ensures w.Valid() && w.biValid == 0 && fresh(w.sink.repr - old(w.sink.repr)) && w.sink.taken == old(w.sink.taken)
    ensures ended.tokens == old(b.tokens) && Log(blocks + [ended], tokens) && AllAnchored(blocks + [ended], bases, end)
    ensures (AllSent(blocks + [ended]) <==> AllSent(blocks) && fine)
    ensures Inflate(w.Stream()) == if AllSent(blocks + [ended]) then Some(text) else None
  {
    hide Writer.Valid, Writer.Stream, TokenBuffer.Buffer.Valid, SendsCode, FixedLens, FixedDists, ReadsAs, BlockOf, Expand, Inflate,
         Log, Recorded, AllSent, Along, Size, Refused;
    ghost var stream, pending := w.Stream(), b.tokens;
    AllTokens(tokens, text, stream, pending, carried, blocks, bases, start, pos);
    ghost var sent, block;
    fine, sent, block, ended := EndBlock(w, b, slfc, sdfc, text, start, pos, end, true);
    w.BiWindup();
    AlignedStream(w);
    StreamEnds(stream, tokens, text, pending, carried, blocks, bases, start, sent, block, ended, w.Stream(), end);
  }

  lemma NothingDue(tables: Tables, level: int)
    ensures Undue(tables, [], level, 0)
  {
  }

  /** What one more token means for the end of the block. */
  lemma CutNext(tables: Tables, pending: seq<Token>, t: Token, level: int, inLength: nat, full: bool)
    requires tables.Valid() && TokensOk(pending + [t]) && Undue(tables, pending, level, |pending|)
    requires inLength == Size(pending) + (if level <= 3 then 0 else 1) && (full <==> Due(tables, pending + [t], level, inLength))
    ensures if full then Closed(tables, pending + [t], level) && Undue(tables, [], level, 0)
            else Undue(tables, pending + [t], level, |pending| + 1)
  {
    hide Due, Size, Undue;
    UndueGrows(tables, pending, t, level);
    DueNow(tables, pending, t, level);
    NothingDue(tables, level);
  }

  lemma StreamBegins(tokens: seq<Token>, bases: seq<int>)
    requires Placed(tokens, bases)
    ensures Along([], tokens, 0, [], [], [], bases, 0, 0) && AllSent([])
  {
    hide Shows, Recorded, ReadBlocks;
    NothingCarriesNothing();
    assert tokens[..0] == [];
  }

  lemma {:induction false} SizeStep(tokens: seq<Token>, text: seq<byte>, i: nat, stream: seq<bool>, pending: seq<Token>, carried: seq<Token>,
                                    blocks: seq<Ended>, bases: seq<int>, start: int, pos: int)
    requires Expand(tokens) == Some(text) && Placed(tokens, bases) && i < |tokens| && Along(stream, tokens, i, pending, carried, blocks, bases, start, pos)
    ensures Size(tokens[..i + 1]) == pos + (if tokens[i].Literal? then 1 else tokens[i].length) <= |text|
    ensures Size(pending + [tokens[i]]) == Size(tokens[..i + 1]) - start && Size(pending) == pos - start
    ensures |bases| == |tokens| && Size(tokens[..i + 1]) - bases[i] < WINDOW_SIZE
  {
    hide Expand, InStep, Log, AllSent, Broken, Anchored;
    assert Shows(bases[i], Size(tokens[..i + 1]));
    assert tokens[..i + 1][..i] == tokens[..i];
    assert (pending + [tokens[i]])[..|pending|] == pending;
    PrefixExpands(tokens, text, i + 1);
  }

  lemma AllTokens(tokens: seq<Token>, text: seq<byte>, stream: seq<bool>, pending: seq<Token>, carried: seq<Token>, blocks: seq<Ended>,
                  bases: seq<int>, start: int, pos: int)
    requires Expand(tokens) == Some(text) && Along(stream, tokens, |tokens|, pending, carried, blocks, bases, start, pos)
    ensures start <= pos == |text| && Size(pending) == pos - start && start == Size(tokens[..|tokens| - |pending|])
  {
    hide Expand, InStep, Log, AllSent, Broken, Anchored;
    SizeOfExpanded(tokens);
    assert tokens[..|tokens|] == tokens;
  }

  lemma {:induction false} StepOn(stream: seq<bool>, tokens: seq<Token>, text: seq<byte>, i: int, pending: seq<Token>, carried: seq<Token>,
                                  sent: seq<bool>, block: seq<Token>)
    requires InStep(stream, tokens, i, pending, carried) && i < |tokens| && sent != [] && ReadsAs(|stream|, sent, block, false)
    requires Expand(tokens) == Some(text) && Size(tokens[..i - |pending|]) <= Size(tokens[..i + 1]) <= |text|
    requires BlockOf(block, pending + [tokens[i]], text, Size(tokens[..i - |pending|]), Size(tokens[..i + 1]))
    ensures InStep(stream + sent, tokens, i + 1, [], carried + block)
  {
    hide Carries, ReadsAs, Expand, Size, BlockOf;
    assert tokens[i - |pending|..i + 1] == pending + [tokens[i]];
    BlockAddsText(tokens, text, i - |pending|, i + 1, carried, block);
    StepSent(stream, tokens, text, i, pending, carried, sent, block);
  }

  lemma {:induction false} StreamEnds(stream: seq<bool>, tokens: seq<Token>, text: seq<byte>, pending: seq<Token>, carried: seq<Token>,
                                      blocks: seq<Ended>, bases: seq<int>, start: int, sent: seq<bool>, block: seq<Token>, ended: Ended, all: seq<bool>,
                                      end: int)
    requires Along(stream, tokens, |tokens|, pending, carried, blocks, bases, start, |text|) && Expand(tokens) == Some(text)
    requires Recorded(ended) && ended.tokens == pending && ended.blockStart == start - end
    requires ended.kind != CutOff ==> ReadsAs(|stream|, sent, block, true) && BlockOf(block, pending, text, start, |text|)
    requires ended.kind == CutOff ==> Refused(sent)
    requires |all| % 8 == 0 && exists k :: 0 <= k < 8 && all == stream + sent + Zeros(k)
    ensures Log(blocks + [ended], tokens) && (AllSent(blocks + [ended]) <==> AllSent(blocks) && ended.kind != CutOff)
    ensures AllAnchored(blocks + [ended], bases, end)
    ensures Inflate(all) == if AllSent(blocks + [ended]) then Some(text) else None
  {
    hide ReadBlocks, Carries, ReadsAs, Expand, Size, BlockOf, Log, Recorded, AllSent, Refused, Anchored;
    LastAnchored(blocks, tokens[..|tokens| - |pending|], bases, ended, end);
    LogGrows(blocks, tokens[..|tokens| - |pending|], ended);
    assert tokens[..|tokens| - |pending|] + ended.tokens == tokens;
    var k :| 0 <= k < 8 && all == stream + sent + Zeros(k);
    if !AllSent(blocks) {
      assert stream + sent + Zeros(k) == stream + (sent + Zeros(k));
    } else if ended.kind == CutOff {
      RefusedBreaks(stream, carried, sent);
    } else {
      assert tokens[..|tokens|] == tokens && tokens[|tokens| - |pending|..] == pending;
      BlockAddsText(tokens, text, |tokens| - |pending|, |tokens|, carried, block);
      LastBlock(stream, carried, sent, block, Zeros(k));
    }
  }

  lemma LastAnchored(blocks: seq<Ended>, tokens: seq<Token>, bases: seq<int>, ended: Ended, end: int)
    requires Log(blocks, tokens) && Anchored(blocks, bases) && ended.blockStart == Size(tokens) - end
    ensures AllAnchored(blocks + [ended], bases, end)
  {
    hide Anchored, Size, Recorded;
    assert (blocks + [ended])[..|blocks|] == blocks;
  }

  /** Copies everything out. */
  method Drain(out: Output) returns (all: seq<byte>)
    requires out.Valid() && out.taken == []
    modifies out.repr
    ensures all == old(out.put)
  {
    hide Output.Valid;
    var buff := new byte[1024](_ => 0);
    all := [];
    while true
      invariant out.Valid() && out.repr == old(out.repr) && buff !in out.repr && fresh(buff)
      invariant all == out.taken && out.put == old(out.put)
      decreases |out.put| - |out.taken|
    {
      out.TakenWasPut();
      var n := out.QCopy(buff, 0, 1024);
      out.TakenWasPut();
      all := all + buff[..n];
      if n == 0 {
        break;
      }
    }
  }

  /**
   Compresses a text. An empty text gives no output at all. Any other is cut into tokens that expand to it, and these into
   blocks, each of which ends where it is due and begins where the window says. A decoder gives the text back if no block had its lengths cut off, and
   otherwise refuses the output.
   */
  method Compress(text: seq<byte>, level: int)
    returns (out: seq<byte>, ok: bool, ghost tokens: seq<Token>, ghost blocks: seq<Ended>, ghost tables: Tables, ghost held: bool,
             ghost bases: seq<int>, ghost end: int)
    ensures text == [] ==> out == [] && ok
    ensures Expand(tokens) == Some(text) && Log(blocks, tokens) && (ok <==> AllSent(blocks))
    ensures text != [] ==> Chosen(text, EffectiveLevel(level), tokens, bases)
    ensures text != [] ==> Cut(blocks, tables, EffectiveLevel(level), held)
    ensures text != [] ==> Placed(tokens, bases) && Shows(end, |text|) && AllAnchored(blocks, bases, end)
    ensures text != [] ==> Inflate(BitsOfBytes(out)) == if ok then Some(text) else None
  {
    hide Writer.Valid, Output.Valid, Inflate, BitsOfBytes, Cut, Placed, AllAnchored, Chosen;
    out, ok, tokens, blocks, tables, held, bases, end := [], true, [], [], *, false, [], 0;
    if text != [] {
      var cut, back, at, last := Tokenize(text, level);
      ExpandedAreOk(cut);
      var w;
      w, ok, blocks, tables := EncodeTokens(cut, back, at, last, EffectiveLevel(level), text);
      tokens, held, bases, end := cut, back, at, last;
      StreamIsBytes(w);
      out := Drain(w.sink);
    }
  }

  lemma StreamIsBytes(w: Writer)
    requires w.Valid() && w.biValid == 0
    ensures w.sink.Valid() && w.Stream() == BitsOfBytes(w.sink.put)
  {
    w.WholeBytes();
  }
}
