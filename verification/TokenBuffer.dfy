/**
 The token buffer of a block: literals and lengths, distances, and one flag bit per token, packed by
 eight, with the counts of all symbols; and the loop that unpacks and sends them.
 */
module TokenBuffer {
  import opened Arithmetic
  import opened BitStrings
  import opened Lz77Format
  import opened DeflateTables
  import opened BlockFormat

  const LIT_BUFSIZE := 8192
  const L_CODES := 286

  /** The byte stored for a token: the literal, or the length without 3. */
  function LitByte(t: Token): int {
    match t
    case Literal(lit) => lit
    case Match(_, length) => length - MIN_MATCH
  }

  /** The distances of the matches among the tokens, without 1. */
  function Dists(ts: seq<Token>): seq<int> {
    if ts == [] then []
    else
      var t := ts[|ts| - 1];
      if t.Match? then Dists(ts[..|ts| - 1]) + [t.distance - 1] else Dists(ts[..|ts| - 1])
  }

  lemma DistsStep(ts: seq<Token>, k: nat)
    requires k < |ts|
    ensures Dists(ts[..k + 1]) == if ts[k].Match? then Dists(ts[..k]) + [ts[k].distance - 1] else Dists(ts[..k])
  {
    assert ts[..k + 1][..k] == ts[..k];
  }

  lemma {:induction false} DistsGrow(ts: seq<Token>, j: nat, k: nat)
    requires j <= k <= |ts|
    ensures Dists(ts[..j]) <= Dists(ts[..k])
    decreases k
  {
    if j < k {
      DistsStep(ts, k - 1);
      DistsGrow(ts, j, k - 1);
    }
  }

  /** Which of the tokens are matches. */
  function Marks(ts: seq<Token>): (r: seq<bool>)
    ensures |r| == |ts| && forall i :: 0 <= i < |ts| ==> r[i] == ts[i].Match?
  {
    seq(|ts|, i requires 0 <= i < |ts| => ts[i].Match?)
  }

  /** How many of the first k tokens begin with the given symbol. */
  function LitCount(tables: Tables, ts: seq<Token>, k: nat, s: int): nat
    requires |tables.lengthCode| == 256 && k <= |ts| && forall i :: 0 <= i < |ts| ==> TokenOk(ts[i])
  {
    if k == 0 then 0 else LitCount(tables, ts, k - 1, s) + (if LitSymbol(tables, ts[k - 1]) == s then 1 else 0)
  }

  /** How many of the first k tokens have the given distance symbol. */
  function DistCount(tables: Tables, ts: seq<Token>, k: nat, s: int): nat
    requires |tables.distCode| == 512 && k <= |ts| && forall i :: 0 <= i < |ts| ==> TokenOk(ts[i])
  {
    if k == 0 then 0
    else DistCount(tables, ts, k - 1, s) + (if ts[k - 1].Match? && DistSymbol(tables, ts[k - 1]) == s then 1 else 0)
  }

  lemma {:induction false} CountsOfLonger(tables: Tables, ts: seq<Token>, t: Token, k: nat, s: int)
    requires |tables.lengthCode| == 256 && |tables.distCode| == 512 && k <= |ts|
    requires TokenOk(t) && forall i :: 0 <= i < |ts| ==> TokenOk(ts[i])
    ensures LitCount(tables, ts + [t], k, s) == LitCount(tables, ts, k, s)
    ensures DistCount(tables, ts + [t], k, s) == DistCount(tables, ts, k, s)
    decreases k
  {
    if k > 0 {
      CountsOfLonger(tables, ts, t, k - 1, s);
    }
  }

  /** The flag bytes of the full groups of eight. */
  ghost predicate FlagsPacked(flagBuf: seq<int>, ts: seq<Token>, groups: int) {
    && 0 <= groups <= |flagBuf| && 8 * groups <= |ts|
    && forall k :: 0 <= k < groups ==> flagBuf[k] == FlagByte(ts, k)
  }

  /** Group k of eight tokens, or what there is of it. */
  ghost function Group(ts: seq<Token>, k: int): seq<Token>
    requires 0 <= k && 8 * k <= |ts|
  {
    ts[8 * k..if 8 * k + 8 <= |ts| then 8 * k + 8 else |ts|]
  }

  ghost function FlagByte(ts: seq<Token>, k: int): int
    requires 0 <= k && 8 * k <= |ts|
  {
    Number(Marks(Group(ts, k)))
  }

  lemma FlagByteKept(ts: seq<Token>, t: Token, k: int)
    requires 0 <= k && 8 * k + 8 <= |ts|
    ensures FlagByte(ts + [t], k) == FlagByte(ts, k)
  {
    assert Group(ts + [t], k) == Group(ts, k);
  }

  lemma NumberOfOne(b: bool)
    ensures Number([b]) == Digit(b)
  {
    assert [b][1..] == [];
  }

  lemma GroupGrows(ts: seq<Token>, t: Token, k: int)
    requires 0 <= k && 8 * k <= |ts| < 8 * k + 8
    ensures Group(ts + [t], k) == Group(ts, k) + [t] && |Group(ts, k)| == |ts| - 8 * k
  {
    assert Group(ts, k) == ts[8 * k..];
    assert Group(ts + [t], k) == (ts + [t])[8 * k..];
  }

  lemma NumberOfMarks(ts: seq<Token>, t: Token)
    ensures Number(Marks(ts + [t])) == Number(Marks(ts)) + if t.Match? then Pow2(|ts|) else 0
  {
    hide Number, Pow2;
    var m, b := Marks(ts), t.Match?;
    assert Marks(ts + [t]) == m + [b];
    NumberAppend(m, [b]);
    NumberOfOne(b);
    var p := Pow2(|m|);
    assert p * 1 == p && p * 0 == 0;
  }

  /** One more flag bit on top of those of the last group. */
  lemma FlagByteGrows(ts: seq<Token>, t: Token, k: int)
    requires 0 <= k && 8 * k <= |ts| < 8 * k + 8
    ensures FlagByte(ts + [t], k) == FlagByte(ts, k) + if t.Match? then Pow2(|ts| - 8 * k) else 0
  {
    GroupGrows(ts, t, k);
    NumberOfMarks(Group(ts, k), t);
  }

  /** Every token is one the format can express. */
  ghost predicate TokensOk(ts: seq<Token>) {
    forall i :: 0 <= i < |ts| ==> TokenOk(ts[i])
  }

  /** The counts of the literal and length symbols; the end of the block counts once. */
  ghost predicate LitsCounted(tables: Tables, ts: seq<Token>, f: seq<int>)
    requires tables.Valid() && TokensOk(ts)
  {
    && |f| >= L_CODES
    && forall s :: 0 <= s < L_CODES ==> f[s] == LitCount(tables, ts, |ts|, s) + if s == END_BLOCK then 1 else 0
  }

  /** The counts of the distance symbols. */
  ghost predicate DistsCounted(tables: Tables, ts: seq<Token>, f: seq<int>)
    requires tables.Valid() && TokensOk(ts)
  {
    |f| >= D_CODES && forall s :: 0 <= s < D_CODES ==> f[s] == DistCount(tables, ts, |ts|, s)
  }

  lemma CountLit(tables: Tables, ts: seq<Token>, t: Token, f: seq<int>)
    requires tables.Valid() && TokensOk(ts) && TokenOk(t) && LitsCounted(tables, ts, f)
    ensures var c := LitSymbol(tables, t); TokensOk(ts + [t]) && 0 <= c < |f| && LitsCounted(tables, ts + [t], f[c := f[c] + 1])
  {
    hide CoversLength, CoversDist, CoversStretch;
    SymbolsInRange(tables, t);
    forall s
      ensures LitCount(tables, ts + [t], |ts|, s) == LitCount(tables, ts, |ts|, s)
    {
      CountsOfLonger(tables, ts, t, |ts|, s);
    }
  }

  lemma CountDist(tables: Tables, ts: seq<Token>, t: Token, f: seq<int>)
    requires tables.Valid() && TokensOk(ts) && TokenOk(t) && DistsCounted(tables, ts, f)
    ensures TokensOk(ts + [t])
    ensures t.Literal? ==> DistsCounted(tables, ts + [t], f)
    ensures t.Match? ==> var d := DistSymbol(tables, t); 0 <= d < |f| && DistsCounted(tables, ts + [t], f[d := f[d] + 1])
  {
    hide CoversLength, CoversDist, CoversStretch;
    SymbolsInRange(tables, t);
    forall s
      ensures DistCount(tables, ts + [t], |ts|, s) == DistCount(tables, ts, |ts|, s)
    {
      CountsOfLonger(tables, ts, t, |ts|, s);
    }
  }

  class Buffer {
    const tables: Tables
    const lBuf: array<int>
    const dBuf: array<int>
    const flagBuf: array<int>
    const lFreq: array<int>
    const dFreq: array<int>
    var lastLit: int
    var lastDist: int
    var lastFlags: int
    var flags: int
    var flagBit: int
    ghost var tokens: seq<Token>

    ghost predicate Sized() {
      && tables.Valid()
      && lBuf.Length >= LIT_BUFSIZE && dBuf.Length == LIT_BUFSIZE && flagBuf.Length == LIT_BUFSIZE / 8
      && lFreq.Length >= L_CODES && dFreq.Length >= D_CODES
      && lBuf != dBuf && lBuf != flagBuf && lBuf != lFreq && lBuf != dFreq
      && dBuf != flagBuf && dBuf != lFreq && dBuf != dFreq
      && flagBuf != lFreq && flagBuf != dFreq && lFreq != dFreq
    }

    /** The literals and lengths, and the distances, are stored. */
    ghost predicate Stored(ts: seq<Token>)
      reads this`lastLit, this`lastDist, lBuf, dBuf
    {
      && TokensOk(ts) && lastLit == |ts| < LIT_BUFSIZE <= lBuf.Length
      && (forall i :: 0 <= i < lastLit ==> lBuf[i] == LitByte(ts[i]))
      && 0 <= lastDist <= lastLit && lastDist <= dBuf.Length && dBuf[..lastDist] == Dists(ts)
    }

    /** The flags are packed. */
    ghost predicate Flagged(ts: seq<Token>)
      reads this`lastFlags, this`flags, this`flagBit, flagBuf
    {
      && lastFlags == |ts| / 8 && flagBit == Pow2(|ts| % 8)
      && FlagsPacked(flagBuf[..], ts, lastFlags) && flags == FlagByte(ts, lastFlags)
    }

    /** The symbols are counted. */
    ghost predicate Counted(ts: seq<Token>)
      reads lFreq, dFreq
      requires tables.Valid() && TokensOk(ts)
    {
      LitsCounted(tables, ts, lFreq[..]) && DistsCounted(tables, ts, dFreq[..])
    }

    ghost predicate Valid()
      reads this, lBuf, dBuf, flagBuf, lFreq, dFreq
    {
      Sized() && TokensOk(tokens) && Stored(tokens) && Flagged(tokens) && Counted(tokens)
    }

    constructor (tables: Tables)
      requires tables.Valid()
      ensures Sized() && this.tables == tables
      ensures fresh(lBuf) && fresh(dBuf) && fresh(flagBuf) && fresh(lFreq) && fresh(dFreq)
    {
      this.tables := tables;
      lBuf := new int[LIT_BUFSIZE];
      dBuf := new int[LIT_BUFSIZE];
      flagBuf := new int[LIT_BUFSIZE / 8];
      lFreq := new int[L_CODES];
      dFreq := new int[D_CODES];
    }

    /** Starts a block. */
    method InitBlock()
      requires Sized()
      modifies this, lFreq, dFreq
      ensures Valid() && tokens == []
    {
      var n := 0;
      while n < L_CODES
        invariant 0 <= n <= L_CODES && forall s :: 0 <= s < n ==> lFreq[s] == 0
      {
        lFreq[n] := 0;
        n := n + 1;
      }
      n := 0;
      while n < D_CODES
        invariant 0 <= n <= D_CODES && forall s :: 0 <= s < n ==> dFreq[s] == 0
        invariant forall s :: 0 <= s < L_CODES ==> lFreq[s] == 0
      {
        dFreq[n] := 0;
        n := n + 1;
      }
      lFreq[END_BLOCK] := 1;
      lastLit, lastDist, lastFlags := 0, 0, 0;
      flags := 0;
      flagBit := 1;
      tokens := [];
    }

    /** Stores a token. */
    method StoreToken(dist: int, lc: int, ghost ts: seq<Token>, ghost t: Token, ghost ts': seq<Token>)
      requires Sized() && Stored(ts) && |ts| < LIT_BUFSIZE - 1 && TokenOk(t) && ts' == ts + [t]
      requires lc == LitByte(t) && dist == if t.Match? then t.distance else 0
      modifies this`lastLit, this`lastDist, lBuf, dBuf
      ensures Stored(ts') && lastLit == |ts'|
    {
      DistsStep(ts', |ts|);
      assert ts'[..|ts|] == ts && ts'[..|ts| + 1] == ts';
      lBuf[lastLit] := lc;
      lastLit := lastLit + 1;
      if dist != 0 {
        dBuf[lastDist] := dist - 1;
        lastDist := lastDist + 1;
        assert dBuf[..lastDist] == old(dBuf[..lastDist]) + [dist - 1];
      }
    }

    /** Notes whether a token is a match. */
    method FlagToken(isMatch: bool, ghost ts: seq<Token>, ghost t: Token, ghost ts': seq<Token>)
      requires Sized() && Flagged(ts) && |ts| < LIT_BUFSIZE - 1 && isMatch == t.Match? && ts' == ts + [t] && lastLit == |ts'|
      modifies this`flags, this`flagBit, this`lastFlags, flagBuf
      ensures Flagged(ts')
    {
      hide FlagByte, Pow2;
      FlagByteGrows(ts, t, |ts| / 8);
      NextFlagBit(|ts|);
      OldGroups(flagBuf[..], ts, t, lastFlags);
      if isMatch {
        flags := flags + flagBit;
      }
      flagBit := flagBit * 2;
      if lastLit % 8 == 0 {
        flagBuf[lastFlags] := flags;
        lastFlags := lastFlags + 1;
        flags := 0;
        flagBit := 1;
        NoFlags(ts', lastFlags);
      }
    }

    /** Counts the symbols of a token. */
    method CountToken(dist: int, lc: int, ghost ts: seq<Token>, ghost t: Token, ghost ts': seq<Token>)
      requires Sized() && TokensOk(ts) && Counted(ts) && TokenOk(t) && ts' == ts + [t]
      requires lc == LitByte(t) && dist == if t.Match? then t.distance else 0
      modifies lFreq, dFreq
      ensures TokensOk(ts') && Counted(ts')
    {
      hide DistsCounted, LitsCounted, CoversLength, CoversDist, CoversStretch;
      SymbolsInRange(tables, t);
      CountLit(tables, ts, t, lFreq[..]);
      CountDist(tables, ts, t, dFreq[..]);
      if dist == 0 {
        lFreq[lc] := lFreq[lc] + 1;
      } else {
        var c := tables.lengthCode[lc] + LITERALS + 1;
        lFreq[c] := lFreq[c] + 1;
        var d := DCode(tables.distCode, dist - 1);
        dFreq[d] := dFreq[d] + 1;
      }
    }

    /** Saves the flags of the last group. */
    method SaveFlags()
      requires Valid()
      modifies flagBuf
      ensures Valid() && Unpacks(lBuf[..], dBuf[..], flagBuf[..], tokens) && lastLit == |tokens|
    {
      hide FlagByte, LitsCounted, DistsCounted;
      flagBuf[lastFlags] := flags;
    }

    /** Guesses whether it pays to end the block here: its distances are few, and it is less than half of its input. */
    method Guess(level: int, inLength: nat, ghost ts: seq<Token>) returns (pays: bool)
      requires Sized() && TokensOk(ts) && Counted(ts) && lastLit == |ts| && lastDist == |Dists(ts)|
      ensures pays <==> Pays(tables, ts, level, inLength)
    {
      hide Tables.Valid, TokensOk, LitsCounted, DistExtra;
      pays := false;
      if level > 2 && lastLit % 4096 == 0 {
        var outLength := lastLit * 8;
        var dcode := 0;
        while dcode < D_CODES
          invariant 0 <= dcode <= D_CODES && outLength == 8 * lastLit + FiveBitCost(dFreq[..], dcode)
        {
          outLength := outLength + dFreq[dcode] * (5 + DistExtra(dcode));
          dcode := dcode + 1;
        }
        CostByCount(tables, ts, |ts|, dFreq[..]);
        outLength := outLength / 8;
        pays := lastDist < lastLit / 2 && outLength < inLength / 2;
      }
    }

    /**
     Adds a token to the block: a literal when `dist` is 0, a match otherwise. Says whether the block must end here;
     `inLength` bytes of the input have been passed since it began.
     */
    method Tally(dist: int, lc: int, level: int, inLength: nat) returns (flush: bool)
      requires Valid() && |tokens| < LIT_BUFSIZE - 1 && 0 <= lc < 256 && 0 <= dist <= MAX_BACK
      modifies this, lBuf, dBuf, flagBuf, lFreq, dFreq
      ensures Valid() && tokens == old(tokens) + [if dist == 0 then Literal(lc) else Match(dist, lc + MIN_MATCH)]
      ensures flush <==> Due(tables, tokens, level, inLength)
    {
      hide Flagged, Counted, Pays;
      ghost var t := if dist == 0 then Literal(lc) else Match(dist, lc + MIN_MATCH);
      ghost var ts := tokens;
      ghost var ts' := ts + [t];
      StoreToken(dist, lc, ts, t, ts');
      CountToken(dist, lc, ts, t, ts');
      FlagToken(dist != 0, ts, t, ts');
      var pays := Guess(level, inLength, ts');
      flush := pays || lastLit == LIT_BUFSIZE - 1 || lastDist == LIT_BUFSIZE;
      tokens := ts';
    }
  }

  /** What the counted distances cost with five bits each and their extra bits, up to symbol n. */
  function FiveBitCost(f: seq<int>, n: nat): int
    requires n <= D_CODES <= |f|
  {
    if n == 0 then 0 else FiveBitCost(f, n - 1) + f[n - 1] * (5 + DistExtra(n - 1))
  }

  /** What the distances of the first k tokens cost so. */
  ghost function DistCost(tables: Tables, ts: seq<Token>, k: nat): nat
    requires tables.Valid() && TokensOk(ts) && k <= |ts|
  {
    if k == 0 then 0
    else
      SymbolsInRange(tables, ts[k - 1]);
      DistCost(tables, ts, k - 1) + if ts[k - 1].Match? then 5 + DistExtra(DistSymbol(tables, ts[k - 1])) else 0
  }

  lemma {:induction false} OneMoreDist(f: seq<int>, g: seq<int>, n: nat, s: int)
    requires n <= D_CODES <= |f| && D_CODES <= |g| && 0 <= s < D_CODES
    requires forall v :: 0 <= v < n ==> g[v] == f[v] + if v == s then 1 else 0
    ensures FiveBitCost(g, n) == FiveBitCost(f, n) + if s < n then 5 + DistExtra(s) else 0
    decreases n
  {
    hide DistExtra;
    if n > 0 {
      OneMoreDist(f, g, n - 1, s);
      var e := 5 + DistExtra(n - 1);
      assert (f[n - 1] + 1) * e == f[n - 1] * e + e;
    }
  }

  lemma {:induction false} SameDists(f: seq<int>, g: seq<int>, n: nat)
    requires n <= D_CODES <= |f| && D_CODES <= |g| && forall v :: 0 <= v < n ==> g[v] == f[v]
    ensures FiveBitCost(g, n) == FiveBitCost(f, n)
    decreases n
  {
    hide DistExtra;
    if n > 0 {
      SameDists(f, g, n - 1);
    }
  }

  lemma {:induction false} NoDistCost(f: seq<int>, n: nat)
    requires n <= D_CODES <= |f| && forall v :: 0 <= v < n ==> f[v] == 0
    ensures FiveBitCost(f, n) == 0
    decreases n
  {
    hide DistExtra;
    if n > 0 {
      NoDistCost(f, n - 1);
    }
  }

  /** Adding up by symbol gives what the tokens cost one by one. */
  lemma {:induction false} CostByCount(tables: Tables, ts: seq<Token>, k: nat, f: seq<int>)
    requires tables.Valid() && TokensOk(ts) && k <= |ts| && |f| >= D_CODES
    requires forall s :: 0 <= s < D_CODES ==> f[s] == DistCount(tables, ts, k, s)
    ensures FiveBitCost(f, D_CODES) == DistCost(tables, ts, k)
    decreases k
  {
    hide CoversLength, CoversDist, CoversStretch, DistExtra, DistSymbol, FiveBitCost;
    if k == 0 {
      NoDistCost(f, D_CODES);
    } else {
      var before := seq(D_CODES, s => DistCount(tables, ts, k - 1, s));
      CostByCount(tables, ts, k - 1, before);
      SymbolsInRange(tables, ts[k - 1]);
      if ts[k - 1].Match? {
        OneMoreDist(before, f, D_CODES, DistSymbol(tables, ts[k - 1]));
      } else {
        SameDists(before, f, D_CODES);
      }
    }
  }

  /** Every 4096 tokens: fewer than half are matches, and an estimate of the output is less than half of the input. */
  ghost predicate Pays(tables: Tables, ts: seq<Token>, level: int, inLength: nat)
    requires tables.Valid() && TokensOk(ts)
  {
    && level > 2 && |ts| % 4096 == 0 && |Dists(ts)| < |ts| / 2
    && (8 * |ts| + DistCost(tables, ts, |ts|)) / 8 < inLength / 2
  }

  /** The block ends: it pays, or a buffer is full. */
  ghost predicate Due(tables: Tables, ts: seq<Token>, level: int, inLength: nat)
    requires tables.Valid() && TokensOk(ts)
  {
    Pays(tables, ts, level, inLength) || |ts| == LIT_BUFSIZE - 1 || |Dists(ts)| == LIT_BUFSIZE
  }

  /** The buffers hold the tokens ts, packed, the last flags included. */
  ghost predicate Unpacks(lBuf: seq<int>, dBuf: seq<int>, flagBuf: seq<int>, ts: seq<Token>) {
    && |ts| <= |lBuf| && TokensOk(ts)
    && (forall i :: 0 <= i < |ts| ==> lBuf[i] == LitByte(ts[i]))
    && Dists(ts) <= dBuf
    && (forall k :: 0 <= k && 8 * k < |ts| ==> k < |flagBuf| && flagBuf[k] == FlagByte(ts, k))
  }

  lemma NextFlagBit(n: nat)
    ensures (n + 1) % 8 != 0 ==> Pow2((n + 1) % 8) == 2 * Pow2(n % 8) && (n + 1) / 8 == n / 8
    ensures (n + 1) % 8 == 0 ==> (n + 1) / 8 == n / 8 + 1 && Pow2(0) == 1
    ensures n - 8 * (n / 8) == n % 8
  {
  }

  lemma OldGroups(flagBuf: seq<int>, ts: seq<Token>, t: Token, groups: int)
    requires FlagsPacked(flagBuf, ts, groups)
    ensures FlagsPacked(flagBuf, ts + [t], groups)
  {
    forall k | 0 <= k < groups
      ensures flagBuf[k] == FlagByte(ts + [t], k)
    {
      FlagByteKept(ts, t, k);
    }
  }

  lemma NoFlags(ts: seq<Token>, k: int)
    requires 0 <= k && 8 * k == |ts|
    ensures FlagByte(ts, k) == 0
  {
    assert Marks(Group(ts, k)) == [];
  }

  /** Every symbol lies in its alphabet. */
  lemma SymbolsInRange(tables: Tables, t: Token)
    requires tables.Valid() && TokenOk(t)
    ensures 0 <= LitSymbol(tables, t) < L_CODES && LitSymbol(tables, t) != END_BLOCK
    ensures t.Match? ==> 0 <= DistSymbol(tables, t) < D_CODES
  {
    if t.Match? {
      TokenCodes(tables, t);
    }
  }
}
