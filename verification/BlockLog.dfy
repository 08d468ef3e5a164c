/** The blocks an encoder has ended, and what decides whether all of them could be sent. */
module BlockLog {
  import opened Lz77Format
  import opened BlockFormat
  import opened TokenBuffer
  import opened BlockFlush

  /** A block: its tokens, the trees built for them, where it begins in the window, and the form chosen. */
  datatype Ended = Ended(tokens: seq<Token>, trees: Trio, blockStart: int, kind: Kind)

  /** The trees are those of the tokens, and the form is the one chosen for them. */
  ghost predicate Recorded(b: Ended) {
    && (exists tables :: TreesOf(b.trees, tables, b.tokens))
    && b.kind == Decision(b.trees, Size(b.tokens), b.blockStart)
  }

  function Joined(blocks: seq<Ended>): seq<Token> {
    if blocks == [] then [] else Joined(blocks[..|blocks| - 1]) + blocks[|blocks| - 1].tokens
  }

  /** The blocks hold the tokens, in order, and nothing else. */
  ghost predicate Log(blocks: seq<Ended>, tokens: seq<Token>) {
    Joined(blocks) == tokens && forall i :: 0 <= i < |blocks| ==> Recorded(blocks[i])
  }

  predicate AllSent(blocks: seq<Ended>) {
    forall i :: 0 <= i < |blocks| ==> blocks[i].kind != CutOff
  }

  /** Every block begins in the window where the blocks before it end; the window is the one at its last token. */
  ghost predicate Anchored(blocks: seq<Ended>, bases: seq<int>) {
    forall i: nat :: i < |blocks| ==> AnchoredAt(blocks, bases, i)
  }

  ghost predicate AnchoredAt(blocks: seq<Ended>, bases: seq<int>, i: nat)
    requires i < |blocks|
  {
    var n := |Joined(blocks[..i + 1])|;
    1 <= n <= |bases| && blocks[i].blockStart == Size(Joined(blocks[..i])) - bases[n - 1]
  }

  /** So does the last block; its window is the one at the end. */
  ghost predicate AllAnchored(blocks: seq<Ended>, bases: seq<int>, end: int) {
    && blocks != [] && Anchored(blocks[..|blocks| - 1], bases)
    && blocks[|blocks| - 1].blockStart == Size(Joined(blocks[..|blocks| - 1])) - end
  }

  lemma JoinedGrows(blocks: seq<Ended>, b: Ended)
    ensures Joined(blocks + [b]) == Joined(blocks) + b.tokens
  {
    assert (blocks + [b])[..|blocks|] == blocks;
  }

  lemma {:induction false} AnchoredBefore(blocks: seq<Ended>, bases: seq<int>, b: Ended, i: nat)
    requires i < |blocks| && AnchoredAt(blocks, bases, i)
    ensures AnchoredAt(blocks + [b], bases, i)
  {
    hide Joined, Size;
    assert (blocks + [b])[..i] == blocks[..i] && (blocks + [b])[..i + 1] == blocks[..i + 1];
  }

  lemma {:induction false} AnchoredGrows(blocks: seq<Ended>, bases: seq<int>, b: Ended)
    requires Anchored(blocks, bases) && 1 <= |Joined(blocks) + b.tokens| <= |bases|
    requires b.blockStart == Size(Joined(blocks)) - bases[|Joined(blocks) + b.tokens| - 1]
    ensures Anchored(blocks + [b], bases)
  {
    hide Size, Joined;
    var all := blocks + [b];
    JoinedGrows(blocks, b);
    forall i: nat | i < |all|
      ensures AnchoredAt(all, bases, i)
    {
      if i < |blocks| {
        AnchoredBefore(blocks, bases, b, i);
      } else {
        assert all[..i] == blocks && all[..i + 1] == all;
      }
    }
  }

  /** How many bytes of a block have been passed when its last token is tallied; the lazy matcher is one byte ahead. */
  function InLength(ts: seq<Token>, level: int): nat
    requires ts != []
  {
    Size(ts[..|ts| - 1]) + if level <= 3 then 0 else 1
  }

  /** The first k tokens of a block make it end. */
  ghost predicate DueAt(tables: Tables, ts: seq<Token>, level: int, k: nat) {
    1 <= k <= |ts| && tables.Valid() && TokensOk(ts[..k]) && Due(tables, ts[..k], level, InLength(ts[..k], level))
  }

  /** None of the first n tokens makes the block end. */
  ghost predicate Undue(tables: Tables, ts: seq<Token>, level: int, n: int) {
    forall k: nat :: k <= n ==> !DueAt(tables, ts, level, k)
  }

  /** The block ends where it is due, and nowhere earlier. */
  ghost predicate Closed(tables: Tables, ts: seq<Token>, level: int) {
    DueAt(tables, ts, level, |ts|) && Undue(tables, ts, level, |ts| - 1)
  }

  /** Every block but the last ends where it is due, and none before; a token that was held back does not end the last. */
  ghost predicate Cut(blocks: seq<Ended>, tables: Tables, level: int, held: bool) {
    && tables.Valid() && blocks != [] && (forall i :: 0 <= i < |blocks| - 1 ==> Closed(tables, blocks[i].tokens, level))
    && Undue(tables, blocks[|blocks| - 1].tokens, level, |blocks[|blocks| - 1].tokens| - if held then 1 else 0)
  }

  /** One more token that does not end the block. */
  lemma UndueGrows(tables: Tables, ts: seq<Token>, t: Token, level: int)
    requires Undue(tables, ts, level, |ts|)
    ensures Undue(tables, ts + [t], level, |ts|)
    ensures !DueAt(tables, ts + [t], level, |ts| + 1) ==> Undue(tables, ts + [t], level, |ts| + 1)
  {
    forall k: nat | k <= |ts|
      ensures !DueAt(tables, ts + [t], level, k)
    {
      assert (ts + [t])[..k] == ts[..k];
      assert !DueAt(tables, ts, level, k);
    }
  }

  lemma DueNow(tables: Tables, ts: seq<Token>, t: Token, level: int)
    requires tables.Valid() && TokensOk(ts + [t])
    ensures InLength(ts + [t], level) == Size(ts) + if level <= 3 then 0 else 1
    ensures DueAt(tables, ts + [t], level, |ts| + 1) <==> Due(tables, ts + [t], level, InLength(ts + [t], level))
  {
    assert (ts + [t])[..|ts| + 1] == ts + [t] && (ts + [t])[..|ts|] == ts;
  }

  lemma LogGrows(blocks: seq<Ended>, tokens: seq<Token>, b: Ended)
    requires Log(blocks, tokens) && Recorded(b)
    ensures Log(blocks + [b], tokens + b.tokens) && (AllSent(blocks + [b]) <==> AllSent(blocks) && b.kind != CutOff)
  {
    hide Recorded;
    var all := blocks + [b];
    assert all[..|blocks|] == blocks && all[|blocks|] == b;
    assert forall i :: 0 <= i < |blocks| ==> all[i] == blocks[i];
  }
}
