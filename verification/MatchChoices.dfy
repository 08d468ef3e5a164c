/**
 Which matches are chosen, in terms of the text alone: the longest among the nearest earlier strings that have been filed
 with the same key, and of equally long ones the nearest.
 */
module MatchChoices {
  import opened Bytes
  import opened Lz77Format
  import opened RollingHash
  import opened HashChains

  const TOO_FAR := 4096
  const MIN_LOOKAHEAD := MAX_MATCH + MIN_MATCH + 1
  const MAX_DIST := WSIZE - MIN_LOOKAHEAD

  datatype Configuration = Configuration(goodLength: nat, maxLazy: nat, maxChain: nat)

  /** How many strings may be tried when a match of the given length is at hand. */
  function Budget(cfg: Configuration, length: int): int {
    if length >= cfg.goodLength then cfg.maxChain / 4 else cfg.maxChain
  }

  /** The length found, when a short match that is too far does not count. */
  function NotTooFar(length: int, distance: int): int {
    if length == MIN_MATCH && distance > TOO_FAR then length - 1 else length
  }

  /** An earlier string with the same key, filed, and not at the very beginning of the window. */
  ghost predicate Usable(text: seq<byte>, filed: set<int>, base: int, p: int, c: int) {
    c in filed && 0 <= base < c < p < |text| - 2 && KeyAt(text, c) == KeyAt(text, p)
  }

  ghost predicate Near(text: seq<byte>, filed: set<int>, base: int, p: int, far: int, c: int) {
    Usable(text, filed, base, p, c) && p - c <= far
  }

  /** The nearest of these strings, nearest first: all there are, or as many as may be tried. */
  ghost predicate Nearest(near: seq<int>, text: seq<byte>, filed: set<int>, base: int, p: int, far: int, budget: int) {
    && (forall i :: 0 <= i < |near| ==> Near(text, filed, base, p, far, near[i]))
    && (forall i, j :: 0 <= i < j < |near| ==> near[j] < near[i])
    && (forall c :: Near(text, filed, base, p, far, c) && c !in near ==> |near| == budget && forall i :: 0 <= i < |near| ==> c < near[i])
  }

  /** How far back a string may lie; the last place of all only counts if there is no nearer one. */
  ghost predicate Reach(text: seq<byte>, filed: set<int>, base: int, p: int, far: int) {
    far == MAX_DIST - 1 || (far == MAX_DIST && forall c :: Usable(text, filed, base, p, c) ==> p - c >= MAX_DIST)
  }

  /** The match at c, of length n, is the longest over these strings, and the first of that length; or none is longer than `least`. */
  ghost predicate Longest(text: seq<byte>, p: int, near: seq<int>, least: int, n: int, c: int) {
    if n > least then
      && n <= MAX_MATCH && Repeats(text, p, p - c, n)
      && (n == MAX_MATCH || forall x :: x in near ==> !Repeats(text, p, p - x, n + 1))
      && exists i: nat :: First(text, p, near, i, n, c)
    else forall x :: x in near ==> !Repeats(text, p, p - x, least + 1)
  }

  ghost predicate First(text: seq<byte>, p: int, near: seq<int>, i: nat, n: int, c: int) {
    i < |near| && near[i] == c && (n == |text| - p || forall j :: 0 <= j < i ==> !Repeats(text, p, p - near[j], n))
  }

  /** What a search for the string at p finds. */
  ghost predicate Finds(text: seq<byte>, filed: set<int>, base: int, p: int, budget: int, least: int, n: int, c: int) {
    exists near, far :: Reach(text, filed, base, p, far) && Nearest(near, text, filed, base, p, far, budget) && Longest(text, p, near, least, n, c)
  }

  function Covered(p: int, n: nat): (r: set<int>)
    ensures forall c :: c in r <==> p <= c < p + n
  {
    if n == 0 then {} else Covered(p, n - 1) + {p + n - 1}
  }

  // The greedy matcher.

  /** How many of its strings, from its first one on, a token has filed: all of a match that is not long, else one. */
  function FiledCount(t: Token, maxLazy: nat): nat {
    if t.Match? && 0 <= t.length <= maxLazy then t.length else 1
  }

  /** The strings filed by the greedy matcher. */
  function FiledBy(tokens: seq<Token>, maxLazy: nat): set<int> {
    if tokens == [] then {}
    else
      var init := tokens[..|tokens| - 1];
      FiledBy(init, maxLazy) + Covered(Size(init), FiledCount(tokens[|tokens| - 1], maxLazy))
  }

  lemma FiledByAppend(tokens: seq<Token>, t: Token, maxLazy: nat)
    ensures FiledBy(tokens + [t], maxLazy) == FiledBy(tokens, maxLazy) + Covered(Size(tokens), FiledCount(t, maxLazy))
  {
    assert (tokens + [t])[..|tokens|] == tokens;
  }

  /** The token at p is the match that a search finds, or the byte if there is none. */
  ghost predicate GreedyToken(text: seq<byte>, filed: set<int>, base: int, p: int, cfg: Configuration, t: Token) {
    && 0 <= p < |text|
    && if |text| - p < MIN_MATCH then t == Literal(text[p])
       else exists n, c :: GreedyChoice(text, filed, base, p, cfg, t, n, c)
  }

  ghost predicate GreedyChoice(text: seq<byte>, filed: set<int>, base: int, p: int, cfg: Configuration, t: Token, n: int, c: int) {
    && 0 <= p < |text| && Finds(text, filed, base, p, Budget(cfg, MIN_MATCH - 1), MIN_MATCH - 1, n, c)
    && t == if n >= MIN_MATCH then Match(p - c, n) else Literal(text[p])
  }

  /** Every token is chosen so, each among the strings filed before it. */
  ghost predicate GreedyTokens(text: seq<byte>, cfg: Configuration, tokens: seq<Token>, bases: seq<int>) {
    |bases| == |tokens| && forall i :: 0 <= i < |tokens| ==>
      GreedyToken(text, FiledBy(tokens[..i], cfg.maxLazy), bases[i], Size(tokens[..i]), cfg, tokens[i])
  }

  lemma {:induction false} GreedyAppend(text: seq<byte>, cfg: Configuration, tokens: seq<Token>, bases: seq<int>, t: Token, base: int)
    requires GreedyTokens(text, cfg, tokens, bases) && GreedyToken(text, FiledBy(tokens, cfg.maxLazy), base, Size(tokens), cfg, t)
    ensures GreedyTokens(text, cfg, tokens + [t], bases + [base])
  {
    hide GreedyToken, FiledBy, Size;
    var all := tokens + [t];
    forall i | 0 <= i < |all|
      ensures GreedyToken(text, FiledBy(all[..i], cfg.maxLazy), (bases + [base])[i], Size(all[..i]), cfg, all[i])
    {
      assert all[..i] == tokens[..i];
      assert i == |tokens| ==> tokens[..i] == tokens;
    }
  }

  // The lazy matcher, which files every string.

  /** What a search for the string at p finds while a match of length `least` is held back; none takes place if that is long. */
  ghost predicate LazyFinds(text: seq<byte>, cfg: Configuration, base: int, p: int, least: int, n: int, c: int) {
    if 0 <= p <= |text| - MIN_MATCH && least < cfg.maxLazy
    then exists m :: Finds(text, Covered(0, p), base, p, Budget(cfg, least), least, m, c) && n == NotTooFar(m, p - c)
    else n < MIN_MATCH
  }

  /** What is held back at the beginning of a token: a match of length n with the string at c, or none. */
  datatype Holding = Holding(n: int, c: int)

  ghost predicate Holds(text: seq<byte>, cfg: Configuration, base: int, p: int, least: int, h: Holding, n: int, c: int) {
    LazyFinds(text, cfg, base, p, least, n, c) && if n >= MIN_MATCH then h == Holding(n, c) else h.n < MIN_MATCH
  }

  /** The match held back before token i: only a literal leaves one. */
  function LeastAt(tokens: seq<Token>, found: seq<Holding>, i: int): int
    requires 0 <= i <= |tokens| && i <= |found|
  {
    if i == 0 || tokens[i - 1].Match? then MIN_MATCH - 1 else found[i - 1].n
  }

  ghost predicate HeldAt(text: seq<byte>, cfg: Configuration, tokens: seq<Token>, found: seq<Holding>, i: int)
    requires 0 <= i <= |tokens| && i < |found|
  {
    exists base, n, c :: Holds(text, cfg, base, Size(tokens[..i]), LeastAt(tokens, found, i), found[i], n, c)
  }

  ghost predicate NotLongerNext(text: seq<byte>, cfg: Configuration, base: int, p: int, h: Holding, n: int, c: int) {
    LazyFinds(text, cfg, base, p + 1, h.n, n, c) && n <= h.n
  }

  /** A match is emitted if the next string has no longer one; a byte, if it begins no match or the next string a longer one. */
  ghost predicate LazyToken(text: seq<byte>, cfg: Configuration, tokens: seq<Token>, found: seq<Holding>, i: int)
    requires 0 <= i < |tokens| && i < |found|
  {
    var p, h := Size(tokens[..i]), found[i];
    match tokens[i]
    case Match(d, length) =>
      h == Holding(length, p - d) && length >= MIN_MATCH && exists base, n, c :: NotLongerNext(text, cfg, base, p, h, n, c)
    case Literal(b) =>
      p < |text| && b == text[p] && (h.n < MIN_MATCH || (i + 1 < |found| && found[i + 1].n > h.n))
  }

  /** Every token is chosen so; one more match or byte may be held back. */
  ghost predicate LazyTokens(text: seq<byte>, cfg: Configuration, tokens: seq<Token>, found: seq<Holding>) {
    && |tokens| <= |found| <= |tokens| + 1
    && (forall i :: 0 <= i < |tokens| ==> LazyToken(text, cfg, tokens, found, i))
    && (forall i :: 0 <= i < |found| ==> HeldAt(text, cfg, tokens, found, i))
  }

  /** What is held back before token i depends on the tokens before it alone. */
  lemma {:induction false} HeldFrame(text: seq<byte>, cfg: Configuration, tokens: seq<Token>, found: seq<Holding>, all: seq<Token>, more: seq<Holding>, i: int)
    requires 0 <= i <= |tokens| && i < |found| && tokens <= all && HeldAt(text, cfg, tokens, found, i)
    ensures HeldAt(text, cfg, all, found + more, i)
  {
    hide Size, Holds;
    var base, n, c :| Holds(text, cfg, base, Size(tokens[..i]), LeastAt(tokens, found, i), found[i], n, c);
    assert all[..i] == tokens[..i];
    assert Holds(text, cfg, base, Size(all[..i]), LeastAt(all, found + more, i), (found + more)[i], n, c);
  }

  lemma {:induction false} TokenFrame(text: seq<byte>, cfg: Configuration, tokens: seq<Token>, found: seq<Holding>, all: seq<Token>, more: seq<Holding>, i: int)
    requires 0 <= i < |tokens| && i < |found| && tokens <= all && LazyToken(text, cfg, tokens, found, i)
    ensures LazyToken(text, cfg, all, found + more, i)
  {
    hide Size, NotLongerNext;
    assert all[..i] == tokens[..i];
    if tokens[i].Match? {
      var base, n, c :| NotLongerNext(text, cfg, base, Size(tokens[..i]), found[i], n, c);
      assert NotLongerNext(text, cfg, base, Size(all[..i]), (found + more)[i], n, c);
    }
  }

  /** With more tokens or more held back, what was known remains so. */
  lemma {:induction false} LazyFrame(text: seq<byte>, cfg: Configuration, tokens: seq<Token>, found: seq<Holding>, all: seq<Token>, more: seq<Holding>)
    requires LazyTokens(text, cfg, tokens, found) && tokens <= all
    ensures forall i :: 0 <= i < |tokens| ==> LazyToken(text, cfg, all, found + more, i)
    ensures forall i :: 0 <= i < |found| ==> HeldAt(text, cfg, all, found + more, i)
  {
    hide LazyToken, HeldAt;
    forall i | 0 <= i < |tokens|
      ensures LazyToken(text, cfg, all, found + more, i)
    {
      TokenFrame(text, cfg, tokens, found, all, more, i);
    }
    forall i | 0 <= i < |found|
      ensures HeldAt(text, cfg, all, found + more, i)
    {
      HeldFrame(text, cfg, tokens, found, all, more, i);
    }
  }

  /** Something comes to be held back before the next token. */
  lemma {:induction false} HeldNext(text: seq<byte>, cfg: Configuration, tokens: seq<Token>, found: seq<Holding>, base: int, h: Holding, n: int, c: int)
    requires |found| == |tokens| && Holds(text, cfg, base, Size(tokens), LeastAt(tokens, found, |tokens|), h, n, c)
    ensures HeldAt(text, cfg, tokens, found + [h], |tokens|)
  {
    hide Size, Holds;
    assert tokens[..|tokens|] == tokens;
    assert Holds(text, cfg, base, Size(tokens[..|tokens|]), LeastAt(tokens, found + [h], |tokens|), (found + [h])[|tokens|], n, c);
  }

  lemma {:induction false} HoldAppend(text: seq<byte>, cfg: Configuration, tokens: seq<Token>, found: seq<Holding>, base: int, h: Holding, n: int, c: int)
    requires LazyTokens(text, cfg, tokens, found) && |found| == |tokens|
    requires Holds(text, cfg, base, Size(tokens), LeastAt(tokens, found, |tokens|), h, n, c)
    ensures LazyTokens(text, cfg, tokens, found + [h])
  {
    hide Size, Holds, HeldAt, LazyToken, LeastAt;
    LazyFrame(text, cfg, tokens, found, tokens, [h]);
    HeldNext(text, cfg, tokens, found, base, h, n, c);
  }

  /** The match held back is emitted. */
  lemma {:induction false} LazyAppendMatch(text: seq<byte>, cfg: Configuration, tokens: seq<Token>, found: seq<Holding>, t: Token, base: int, n: int, c: int)
    requires LazyTokens(text, cfg, tokens, found) && |found| == |tokens| + 1
    requires t.Match? && found[|tokens|] == Holding(t.length, Size(tokens) - t.distance) && t.length >= MIN_MATCH
    requires NotLongerNext(text, cfg, base, Size(tokens), found[|tokens|], n, c)
    ensures LazyTokens(text, cfg, tokens + [t], found)
  {
    hide Size, NotLongerNext, HeldAt;
    LazyFrame(text, cfg, tokens, found, tokens + [t], []);
    assert found + [] == found && (tokens + [t])[..|tokens|] == tokens;
  }

  lemma SizeOfLiteral(tokens: seq<Token>, t: Token)
    requires t.Literal?
    ensures Size(tokens + [t]) == Size(tokens) + 1
  {
    assert (tokens + [t])[..|tokens|] == tokens;
  }

  /** The byte held back is emitted, and the next one held back in its place. */
  lemma {:induction false} LazyAppendLiteral(text: seq<byte>, cfg: Configuration, tokens: seq<Token>, found: seq<Holding>, t: Token, base: int,
                                             h: Holding, n: int, c: int)
    requires LazyTokens(text, cfg, tokens, found) && |found| == |tokens| + 1 && 0 <= Size(tokens) < |text| && t == Literal(text[Size(tokens)])
    requires found[|tokens|].n < MIN_MATCH || h.n > found[|tokens|].n
    requires Holds(text, cfg, base, Size(tokens) + 1, found[|tokens|].n, h, n, c)
    ensures LazyTokens(text, cfg, tokens + [t], found + [h])
  {
    hide Size, Holds, NotLongerNext, HeldAt;
    SizeOfLiteral(tokens, t);
    LazyFrame(text, cfg, tokens, found, tokens + [t], [h]);
    assert (tokens + [t])[..|tokens|] == tokens;
    HeldNext(text, cfg, tokens + [t], found, base, h, n, c);
  }

  /** At the end the byte held back is emitted. */
  lemma {:induction false} LazyEnd(text: seq<byte>, cfg: Configuration, tokens: seq<Token>, found: seq<Holding>, t: Token)
    requires LazyTokens(text, cfg, tokens, found) && |found| == |tokens| + 1 && 0 <= Size(tokens) < |text| && t == Literal(text[Size(tokens)])
    requires found[|tokens|].n < MIN_MATCH
    ensures LazyTokens(text, cfg, tokens + [t], found)
  {
    hide Size, NotLongerNext, HeldAt;
    LazyFrame(text, cfg, tokens, found, tokens + [t], []);
    assert found + [] == found && (tokens + [t])[..|tokens|] == tokens;
  }
}
