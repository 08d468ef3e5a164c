/**
 The string matcher of the deflate encoder: a 64K window over the input, a dictionary of
 hash chains threaded through `prev`, and the greedy and the lazy way of choosing matches.
 */
module Lz77Matcher {
  import opened Bytes
  import opened Lz77Format
  import opened Options
  import opened RollingHash
  import opened HashChains
  import opened MatchChoices

  /** A window cell: undefined until something has been read into it. */
  datatype Cell = Hole | Byte(value: byte)

  /** `cell & 0xff`, where undefined counts as 0. */
  function Masked(cell: Cell): byte {
    if cell.Hole? then 0 else cell.value
  }

  function Min(a: int, b: int): int {
    if a <= b then a else b
  }

  const CONFIGURATIONS := [
    Configuration(0, 0, 0), Configuration(4, 4, 4), Configuration(4, 5, 8), Configuration(4, 6, 32),
    Configuration(4, 4, 16), Configuration(8, 16, 32), Configuration(8, 16, 128), Configuration(8, 32, 256),
    Configuration(32, 128, 1024), Configuration(32, 258, 4096)]

  /** The level in force: 0 stands for the default, and the rest is clipped to 1..9. */
  function EffectiveLevel(level: int): (r: int)
    ensures 1 <= r <= 9 && (1 <= level <= 9 ==> r == level)
  {
    if level == 0 then 6 else if level < 1 then 1 else if level > 9 then 9 else level
  }

  /** A window that begins at `base` has been moved by halves only, when the string at `index` in it was near its end. */
  ghost predicate Moved(base: int, index: int) {
    0 <= base && base % WSIZE == 0 && (base > 0 ==> index >= MAX_DIST)
  }

  /** A window that begins at `base` still shows the input before `pos`. */
  ghost predicate Shows(base: int, pos: int) {
    Moved(base, pos - base) && pos - base < WINDOW_SIZE
  }

  /** Where the window begins when each token is tallied. */
  ghost predicate Placed(tokens: seq<Token>, bases: seq<int>) {
    |bases| == |tokens| && forall i :: 0 <= i < |tokens| ==> Shows(bases[i], Size(tokens[..i + 1]))
  }

  lemma PlacedAppend(tokens: seq<Token>, bases: seq<int>, t: Token, base: int)
    requires Placed(tokens, bases) && Expand(tokens + [t]).Some? && Shows(base, |Expand(tokens + [t]).value|)
    ensures Placed(tokens + [t], bases + [base])
  {
    hide Shows, Expand, Size;
    SizeOfExpanded(tokens + [t]);
    forall i | 0 <= i < |tokens + [t]|
      ensures Shows((bases + [base])[i], Size((tokens + [t])[..i + 1]))
    {
      if i < |tokens| {
        assert (tokens + [t])[..i + 1] == tokens[..i + 1];
      } else {
        assert (tokens + [t])[..i + 1] == tokens + [t];
      }
    }
  }

  /** A search for the string at one place: its key, how far back it went, what was tried, and the best of it. */
  datatype Lookup = Lookup(key: int, limit: int, tried: seq<int>, best: int, start: int)

  /** The latest strings filed with the key were tried; one at the limit itself only if there is none after it. */
  ghost predicate Looked(keys: map<int, int>, s: int, limit: int, budget: int, l: Lookup) {
    && (l.limit == limit || (l.limit == limit - 1 >= 0 && forall c :: !Filed(keys, s, l.key, limit, c)))
    && Latest(l.tried, keys, s, l.key, l.limit, budget)
  }

  /** The positions from `from` up to `to` have been filed, and no others. */
  ghost predicate FiledMore(was: map<int, int>, now: map<int, int>, from: int, to: int) {
    forall p :: p in now <==> p in was || from <= p < to
  }

  /** The same positions are filed in a window that begins d later. */
  ghost predicate Renamed(was: map<int, int>, now: map<int, int>, d: int) {
    d >= 0 && forall p :: p in now <==> 0 <= p && p + d in was
  }

  /** The positions filed in a window that begins at `base` are those of the set. */
  ghost predicate FiledAs(keys: map<int, int>, base: int, filed: set<int>) {
    forall q :: q in keys <==> 0 <= q && base + q in filed
  }

  lemma FiledAsMore(was: map<int, int>, now: map<int, int>, base: int, from: int, to: int, filed: set<int>)
    requires FiledAs(was, base, filed) && FiledMore(was, now, from, to) && 0 <= from <= to
    ensures FiledAs(now, base, filed + Covered(base + from, to - from))
  {
  }

  lemma FiledAsRenamed(was: map<int, int>, now: map<int, int>, d: int, base: int, filed: set<int>)
    requires FiledAs(was, base, filed) && Renamed(was, now, d)
    ensures FiledAs(now, base + d, filed)
  {
    forall q
      ensures q in now <==> 0 <= q && (base + d) + q in filed
    {
      assert q + d in was <==> 0 <= q + d && base + (q + d) in filed;
      assert (base + d) + q == base + (q + d);
    }
  }

  lemma RenamedTwice(was: map<int, int>, mid: map<int, int>, now: map<int, int>, d: int, e: int)
    requires Renamed(was, mid, d) && Renamed(mid, now, e)
    ensures Renamed(was, now, d + e)
  {
  }

  /** Filing the string at s itself does not matter to a search for it. */
  lemma {:induction false} LatestFrame(tried: seq<int>, keys: map<int, int>, s: int, h: int, key: int, limit: int, budget: int)
    ensures Latest(tried, keys[s := h], s, key, limit, budget) <==> Latest(tried, keys, s, key, limit, budget)
  {
    assert forall c :: Filed(keys[s := h], s, key, limit, c) <==> Filed(keys, s, key, limit, c);
  }

  class Matcher {
    const text: seq<byte>
    const window: array<Cell>
    const prev: array<int>  // links in the lower half, hash heads from WSIZE on

    var insH: int
    var hashHead: int
    var prevMatch: int
    var matchAvailable: bool
    var matchLength: int
    var prevLength: int
    var strstart: int
    var matchStart: int
    var eofile: bool
    var lookahead: int
    var maxChainLength: nat
    var maxLazyMatch: nat
    var goodMatch: nat
    var deflatePos: int
    var tokens: seq<Token>  // everything tallied so far
    var bases: seq<int>     // where the window began then

    ghost const code: seq<int>    // the keys of the strings of the input
    ghost const prime: seq<int>   // the hashes of their first two bytes
    ghost var base: int           // input position of window index 0
    ghost var keys: map<int, int> // window positions filed in the dictionary, with their keys
    ghost var found: seq<Holding> // what the lazy matcher held back at the beginning of each token

    /** The window shows the input from `base` up to the last byte read. */
    ghost predicate Filled()
      reads this`base, this`deflatePos, this`eofile, window
    {
      && window.Length == WINDOW_SIZE && prev.Length == WINDOW_SIZE
      && 0 <= base <= deflatePos <= |text|
      && deflatePos - base <= WINDOW_SIZE
      && (eofile ==> deflatePos == |text| && deflatePos - base < WINDOW_SIZE)
      && Indexed(text, code, prime)
      && forall i :: 0 <= i < deflatePos - base ==> window[i] == Byte(text[base + i])
    }

    /** The dictionary is sound and holds only positions below `next`. */
    ghost predicate Sound(next: int)
      reads this`base, this`keys, prev
    {
      Chains(code, base, prev[..], keys, next) && Whole(prev[..], keys, next)
    }

    /** The key of the current string, as it is rolled out of the hash. */
    function NextKey(): int
      reads this`insH, this`strstart, window
      requires 0 <= insH && 0 <= strstart
    {
      UpdateHash(insH, Masked(At(strstart + 2)))
    }

    /** Every string before the current one is filed. */
    ghost predicate AllFiled()
      reads this`keys, this`strstart
    {
      forall p :: 0 <= p < strstart ==> p in keys
    }

    /** The hash has taken in the first two bytes of the current string. */
    ghost predicate HashPrimed()
      reads this`insH, this`base, this`strstart
    {
      && 0 <= insH < HASH_SIZE
      && 0 <= base + strstart
      && (base + strstart < |prime| ==> insH % 256 == prime[base + strstart])
    }

    /** What holds after every string: the window follows the input and the dictionary is sound. */
    ghost predicate Steady()
      reads this`base, this`deflatePos, this`eofile, this`keys, this`insH, this`strstart, this`lookahead,
            this`maxChainLength, this`maxLazyMatch, window, prev
    {
      && Filled()
      && 0 <= strstart && 0 <= lookahead
      && base + strstart + lookahead == deflatePos
      && Sound(strstart)
      && HashPrimed()
      && maxChainLength >= 4
      && 4 <= maxLazyMatch <= MAX_MATCH
    }

    /** What holds before every string: moreover, enough input is at hand. */
    ghost predicate Ready()
      reads this`base, this`deflatePos, this`eofile, this`keys, this`insH, this`strstart, this`lookahead,
            this`maxChainLength, this`maxLazyMatch, window, prev
    {
      Steady() && (lookahead < MIN_LOOKAHEAD ==> eofile)
    }

    /** The current string is filed, and the hash is primed for the next one. */
    ghost predicate StringFiled()
      reads this`base, this`deflatePos, this`eofile, this`keys, this`insH, this`strstart, window, prev
    {
      && Filled()
      && 0 <= strstart
      && Sound(strstart + 1)
      && 0 <= insH < HASH_SIZE
      && (base + strstart < |code| ==> insH % 256 == prime[base + strstart + 1])
    }

    /** Once the current string is filed. */
    ghost predicate Ready'()
      reads this`base, this`deflatePos, this`eofile, this`keys, this`insH, this`strstart, this`lookahead,
            this`maxChainLength, this`maxLazyMatch, window, prev
    {
      && StringFiled()
      && 0 <= lookahead
      && base + strstart + lookahead == deflatePos
      && (lookahead < MIN_LOOKAHEAD ==> eofile)
      && maxChainLength >= 4
      && 4 <= maxLazyMatch <= MAX_MATCH
    }

    /** Reading past the end of the array gives undefined. */
    function At(i: int): Cell
      reads window
      requires 0 <= i
    {
      if i < window.Length then window[i] else Hole
    }

    /** The strings at `strstart` and at `start` agree from their fourth byte on. */
    ghost predicate Agree(start: int, length: int)
      reads this`strstart, window
      requires 0 <= start && 0 <= strstart
    {
      forall k :: strstart + 3 <= k < strstart + length ==> At(k) == At(start + (k - strstart))
    }

    /** The strings at `strstart` and at `start` differ in one of the bytes 0..last. */
    ghost predicate Differ(start: int, last: int)
      reads this`strstart, window
      requires 0 <= start && 0 <= strstart
    {
      exists k :: strstart <= k <= strstart + last && At(k) != At(start + (k - strstart))
    }

    /** The input repeats at `strstart` what starts at `start`, as far as it has been read. */
    ghost predicate Found(start: int, length: int)
      reads this`base, this`strstart, this`deflatePos
    {
      && 0 < start < strstart && strstart - start <= MAX_DIST
      && 0 <= base + strstart <= deflatePos
      && Repeats(text, base + strstart, strstart - start, Min(length, deflatePos - base - strstart))
    }

    lemma SizedArrays()
      requires Filled()
      ensures window.Length == prev.Length == WINDOW_SIZE && 0 <= base <= deflatePos <= |text| && deflatePos - base <= WINDOW_SIZE
      ensures eofile ==> deflatePos == |text| && deflatePos - base < WINDOW_SIZE
      ensures |code| == (if |text| < 2 then 0 else |text| - 2) && |prime| == if |text| < 1 then 0 else |text| - 1
    {
    }

    lemma KeysNatural(next: int)
      requires Sound(next)
      ensures Renamed(keys, keys, 0)
    {
    }

    /** The input has ended. */
    method EndInput()
      requires Filled() && deflatePos == |text| && deflatePos - base < WINDOW_SIZE
      modifies this`eofile
      ensures Filled() && eofile
    {
      eofile := true;
    }

    /** Rolls the third byte of the current string into the hash. */
    method NextHash() returns (h: int)
      requires Filled() && HashPrimed()
      requires 0 <= strstart < WINDOW_SIZE
      requires base + strstart + 2 < deflatePos || deflatePos == |text|
      ensures 0 <= h < HASH_SIZE && h == NextKey()
      ensures base + strstart < |code| ==> h == code[base + strstart] && h % 256 == prime[base + strstart + 1]
    {
      h := UpdateHash(insH, Masked(At(strstart + 2)));
      ghost var s := base + strstart;
      if s < |code| {
        assert window[strstart + 2] == Byte(text[base + (strstart + 2)]);
        assert prime[s] == PrimeAt(text, s) && prime[s + 1] == PrimeAt(text, s + 1) && code[s] == KeyAt(text, s);
        PrimedRolls(insH, text[s], text[s + 1], text[s + 2]);
      }
    }

    method InsertString()
      requires Filled() && Sound(strstart) && HashPrimed()
      requires 0 <= strstart < WINDOW_SIZE
      requires base + strstart + 2 < deflatePos || deflatePos == |text|
      modifies this`insH, this`hashHead, this`keys, prev
      ensures StringFiled()
      ensures keys == old(keys)[strstart := insH] && insH == old(NextKey())
      ensures LinkOk(keys, strstart, hashHead) && LinkWhole(keys, strstart, hashHead) && prev[strstart % WSIZE] == hashHead
    {
      hide Indexed, Chains, Whole, LinkOk, LinkWhole, Matcher.Filled, UpdateHash;
      SizedArrays();
      KeysBelow(code, base, prev[..], keys, strstart);
      insH := NextHash();
      InsertKeepsChains(code, base, prev[..], keys, strstart, insH);
      InsertKeepsWhole(prev[..], keys, strstart, insH);
      hashHead := prev[WSIZE + insH];
      prev[strstart % WSIZE] := hashHead;
      prev[WSIZE + insH] := strstart;
      keys := keys[strstart := insH];
      assert prev[..] == Inserted(old(prev[..]), strstart, insH);
    }

    /** Compares byte by byte from the fourth byte on, looking at the bound every eighth time. */
    method ScanMatch(start: int) returns (length: int)
      requires 0 <= start && 0 <= strstart
      ensures 3 <= length <= MAX_MATCH
      ensures Agree(start, length)
      ensures length < MAX_MATCH ==> Differ(start, length)
    {
      var strend := strstart + MAX_MATCH;
      var scan, m := strstart + 2, start + 2;
      var equal := true;
      while equal
        invariant scan - strstart == m - start
        invariant strstart + 2 <= scan <= strend
        invariant equal ==> (scan - strstart) % 8 == 2 && scan < strend
        invariant !equal ==> scan >= strstart + 3 && (scan == strend || At(scan) != At(m))
        invariant Agree(start, scan - strstart)
        invariant equal && scan > strstart + 2 ==> At(scan) == At(m)
        decreases equal, strend - scan
      {
        var k := 0;
        ghost var from := scan;
        while k < 8 && equal
          invariant 0 <= k <= 8 && scan == from + k && scan - strstart == m - start
          invariant k == 0 ==> equal
          invariant !equal ==> At(scan) != At(m)
          invariant Agree(start, scan - strstart)
          invariant equal && scan > strstart + 2 ==> At(scan) == At(m)
          decreases 8 - k
        {
          scan, m, k := scan + 1, m + 1, k + 1;
          if At(scan) != At(m) {
            equal := false;
          }
        }
        if !(scan < strend) {
          equal := false;
        }
      }
      length := MAX_MATCH - (strend - scan);
    }

    /** A position that the current string may be matched with. */
    ghost predicate Candidate(start: int)
      reads this`strstart, this`keys
    {
      && 0 < start < strstart && strstart - start <= MAX_DIST
      && strstart in keys && start in keys && keys[start] == keys[strstart]
    }

    /** The length of the match at `start`, or 0 when it cannot be longer than `best`. */
    method MatchAt(start: int, best: int) returns (length: int)
      requires Filled() && Sound(strstart + 1) && base + strstart <= deflatePos && Candidate(start)
      requires best >= 1
      ensures length == 0 || (0 < length <= MAX_MATCH && Found(start, length))
      ensures length == 0 ==> Differ(start, best)
      ensures 0 < length < MAX_MATCH ==> Differ(start, length)
    {
      hide Chains, Whole, Matcher.Filled, Matcher.Found, Matcher.Agree;
      var scanEnd1, scanEnd := At(strstart + best - 1), At(strstart + best);
      if || At(start + best) != scanEnd
         || At(start + best - 1) != scanEnd1
         || At(start) != At(strstart)
         || At(start + 1) != At(strstart + 1)
      {
        assert At(strstart + best) != At(start + (strstart + best - strstart))
            || At(strstart + best - 1) != At(start + (strstart + best - 1 - strstart))
            || At(strstart) != At(start + (strstart - strstart))
            || At(strstart + 1) != At(start + (strstart + 1 - strstart));
        return 0;
      }
      length := ScanMatch(start);
      MatchIsReal(start, length);
    }

    function Settings(): Configuration
      reads this`maxChainLength, this`maxLazyMatch, this`goodMatch
    {
      Configuration(goodMatch, maxLazyMatch, maxChainLength)
    }

    /** How many candidates may be tried. */
    function ChainBudget(): int
      reads this`maxChainLength, this`maxLazyMatch, this`prevLength, this`goodMatch
    {
      Budget(Settings(), prevLength)
    }

    /** Matches farther back than this are not tried. */
    function Limit(): int
      reads this`strstart
    {
      if strstart > MAX_DIST then strstart - MAX_DIST else NIL
    }

    lemma NextCandidate(start: int)
      requires prev.Length == WINDOW_SIZE && Sound(strstart + 1) && Candidate(start) && prev[start % WSIZE] > Limit()
      ensures Candidate(prev[start % WSIZE])
    {
      assert LinkOk(keys, start, Link(prev[..], start));
    }

    /** `best` is the length of the longest match among `visited`, found first at `start`, if one beats `least`. */
    ghost predicate BestOf(least: int, visited: seq<int>, best: int, start: int, oldStart: int)
      reads this`base, this`strstart, this`deflatePos, window
    {
      && (|| (best == least && start == oldStart)
          || (least < best <= MAX_MATCH && Found(start, best) && exists i: nat :: FirstAt(visited, i, start, best)))
      && 0 <= strstart
      && (best < MAX_MATCH ==> forall c :: c in visited ==> 0 <= c && Differ(c, best))
    }

    /** Candidate i is `start`, and none before it is as long. */
    ghost predicate FirstAt(visited: seq<int>, i: nat, start: int, best: int)
      reads this`strstart, window
    {
      && i < |visited| && visited[i] == start && 0 <= strstart
      && forall j :: 0 <= j < i ==> 0 <= visited[j] && Differ(visited[j], best - 1)
    }

    /** A match of full length stays the best, whatever else there is to try. */
    lemma FullIsBest(least: int, visited: seq<int>, rest: seq<int>, start: int, oldStart: int)
      requires BestOf(least, visited, MAX_MATCH, start, oldStart) && least < MAX_MATCH
      ensures BestOf(least, visited + rest, MAX_MATCH, start, oldStart)
    {
      var i: nat :| FirstAt(visited, i, start, MAX_MATCH);
      assert FirstAt(visited + rest, i, start, MAX_MATCH);
    }

    lemma NothingTried()
      requires 0 <= strstart
      ensures BestOf(prevLength, [], prevLength, matchStart, matchStart)
    {
    }

    /** Tries one more candidate. */
    method Consider(cur: int, best: int, start: int, ghost visited: seq<int>, ghost oldStart: int)
      returns (best': int, start': int)
      requires Filled() && Sound(strstart + 1) && base + strstart <= deflatePos && Candidate(cur)
      requires 1 <= prevLength <= best && BestOf(prevLength, visited, best, start, oldStart)
      ensures BestOf(prevLength, visited + [cur], best', start', oldStart) && best' >= best
    {
      hide Matcher.Filled, Chains, Whole, Matcher.BestOf, Matcher.Found, Matcher.Differ;
      best', start' := best, start;
      var length := MatchAt(cur, best);
      if length > best {
        best', start' := length, cur;
        Better(visited, best, start, oldStart, cur, length);
      } else {
        NotBetter(visited, best, start, oldStart, cur, length);
      }
    }

    lemma DifferLater(c: int, k: int, n: int)
      requires 0 <= c && 0 <= strstart && Differ(c, k) && k <= n
      ensures Differ(c, n)
    {
    }

    lemma Better(visited: seq<int>, best: int, start: int, oldStart: int, cur: int, length: int)
      requires BestOf(prevLength, visited, best, start, oldStart) && best < length <= MAX_MATCH && Found(cur, length) && prevLength <= best
      requires 0 <= cur && (length < MAX_MATCH ==> Differ(cur, length))
      ensures BestOf(prevLength, visited + [cur], length, cur, oldStart)
    {
      hide Matcher.Differ, Matcher.Found;
      forall c | c in visited
        ensures 0 <= c && Differ(c, length - 1) && Differ(c, length)
      {
        DifferLater(c, best, length - 1);
        DifferLater(c, best, length);
      }
      assert forall j :: 0 <= j < |visited| ==> (visited + [cur])[j] == visited[j] && visited[j] in visited;
      assert FirstAt(visited + [cur], |visited|, cur, length);
    }

    lemma NotBetter(visited: seq<int>, best: int, start: int, oldStart: int, cur: int, length: int)
      requires BestOf(prevLength, visited, best, start, oldStart) && length <= best && 0 <= cur
      requires (length == 0 ==> Differ(cur, best)) && (0 < length < MAX_MATCH ==> Differ(cur, length)) && 0 <= length
      ensures BestOf(prevLength, visited + [cur], best, start, oldStart)
    {
      hide Matcher.Differ, Matcher.Found;
      if 0 < length < MAX_MATCH {
        DifferLater(cur, length, best);
      }
      if !(best == prevLength && start == oldStart) {
        var i: nat :| FirstAt(visited, i, start, best);
        assert FirstAt(visited + [cur], i, start, best);
      }
    }

    /** The longest match among the candidates of the chain, if it beats `prevLength`. */
    method LongestMatch(head: int) returns (best: int)
      requires Filled() && Sound(strstart + 1) && base + strstart <= deflatePos && Candidate(head)
      requires 1 <= prevLength < MAX_MATCH && maxChainLength >= 4
      modifies this`matchStart
      ensures BestOf(prevLength, ChainFrom(prev[..], head, Limit(), ChainBudget()), best, matchStart, old(matchStart))
    {
      hide Matcher.BestOf;
      var start;
      best, start := SearchChain(head);
      matchStart := start;
    }

    method SearchChain(head: int) returns (best: int, start: int)
      requires Filled() && Sound(strstart + 1) && base + strstart <= deflatePos && Candidate(head)
      requires 1 <= prevLength < MAX_MATCH && maxChainLength >= 4
      ensures BestOf(prevLength, ChainFrom(prev[..], head, Limit(), ChainBudget()), best, start, matchStart)
    {
      hide Chains, Whole, Matcher.Filled, Matcher.BestOf;
      SizedArrays();
      NothingTried();
      var chainLength := maxChainLength;
      var cur := head;
      best, start := prevLength, matchStart;
      ghost var tried := [];
      var limit := if strstart > MAX_DIST then strstart - MAX_DIST else NIL;
      if prevLength >= goodMatch {
        chainLength := chainLength / 4;
      }
      ghost var whole := ChainFrom(prev[..], head, limit, chainLength);
      while true
        invariant Candidate(cur) && chainLength >= 1 && best >= prevLength
        invariant whole == tried + ChainFrom(prev[..], cur, limit, chainLength)
        invariant BestOf(prevLength, tried, best, start, matchStart)
        decreases chainLength
      {
        var was := best;
        best, start := Consider(cur, best, start, tried, matchStart);
        ChainStep(prev[..], tried, cur, limit, chainLength);
        tried := tried + [cur];
        var next := prev[cur % WSIZE];
        if best > was && best >= MAX_MATCH {
          BestAtMost(tried, best, start, matchStart);
          FullIsBest(prevLength, tried, if next > limit && chainLength > 1 then ChainFrom(prev[..], next, limit, chainLength - 1) else [], start, matchStart);
          assert tried + [] == tried;
          break;
        }
        if !(next > limit) {
          break;
        }
        chainLength := chainLength - 1;
        if chainLength == 0 {
          break;
        }
        NextCandidate(cur);
        cur := next;
      }
    }

    lemma BestAtMost(visited: seq<int>, best: int, start: int, oldStart: int)
      requires BestOf(prevLength, visited, best, start, oldStart) && prevLength <= MAX_MATCH
      ensures best <= MAX_MATCH
    {
    }

    /** The third byte need not be compared: strings on one chain have equal keys. */
    lemma MatchIsReal(start: int, length: int)
      requires Filled() && Sound(strstart + 1) && base + strstart <= deflatePos && 0 <= length
      requires strstart in keys && start in keys && keys[start] == keys[strstart]
      requires 0 < start < strstart && strstart - start <= MAX_DIST
      requires At(start) == At(strstart) && At(start + 1) == At(strstart + 1)
      requires Agree(start, length)
      ensures Found(start, length)
    {
      hide Whole, HeadsOk, LinksOk, LinkOk;
      var s, distance := base + strstart, strstart - start;
      forall k | s <= k < s + length && k < deflatePos
        ensures Echoes(text, k, distance)
      {
        var i := k - s;
        assert window[strstart + i] == Byte(text[base + (strstart + i)]);
        assert window[start + i] == Byte(text[base + (start + i)]);
        if i >= 3 {
          assert At(strstart + i) == At(start + ((strstart + i) - strstart));
        } else if i == 2 {
          assert window[start + 0] == Byte(text[base + (start + 0)]);
          assert window[start + 1] == Byte(text[base + (start + 1)]);
          assert window[strstart + 0] == Byte(text[base + (strstart + 0)]);
          assert window[strstart + 1] == Byte(text[base + (strstart + 1)]);
          assert code[s] == KeyAt(text, s) && code[base + start] == KeyAt(text, base + start);
          SameKeySameThirdByte(text[s], text[s + 1], text[s + 2], text[base + start + 2]);
        } else if i < 2 {
          assert At(start + i) == At(strstart + i);
        }
      }
    }

    /** Moves the upper half of the window, and every position with it, down by WSIZE. */
    method SlideWindow()
      requires Filled() && Sound(strstart) && WSIZE <= strstart <= deflatePos - base
      modifies this`matchStart, this`strstart, this`base, this`keys, window, prev
      ensures Filled() && Sound(strstart)
      ensures base == old(base) + WSIZE && Renamed(old(keys), keys, WSIZE)
      ensures base + strstart == old(base + strstart) && base + matchStart == old(base + matchStart)
    {
      hide Chains, Whole, Renamed, Indexed;
      LowerWindow();
      matchStart := matchStart - WSIZE;
      strstart := strstart - WSIZE;
      LowerTable(strstart + WSIZE);
      base := base + WSIZE;
      forall i | 0 <= i < deflatePos - base
        ensures window[i] == Byte(text[base + i])
      {
        assert old(window[i + WSIZE]) == Byte(text[old(base) + (i + WSIZE)]);
      }
    }

    method LowerWindow()
      requires window.Length == WINDOW_SIZE
      modifies window
      ensures forall i :: 0 <= i < WSIZE ==> window[i] == old(window[i + WSIZE])
    {
      var n := 0;
      while n < WSIZE
        invariant 0 <= n <= WSIZE
        invariant forall i :: 0 <= i < n ==> window[i] == old(window[i + WSIZE])
        invariant forall i :: n <= i < WINDOW_SIZE ==> window[i] == old(window[i])
      {
        window[n] := window[n + WSIZE];
        n := n + 1;
      }
    }

    method LowerTable(ghost next: int)
      requires Sound(next)
      modifies prev, this`keys
      ensures Chains(code, base + WSIZE, prev[..], keys, next - WSIZE) && Whole(prev[..], keys, next - WSIZE)
      ensures Renamed(old(keys), keys, WSIZE)
    {
      LowerLinks();
      ghost var keys' := SlideKeys(keys);
      SlideKeepsChains(code, base, old(prev[..]), prev[..], keys, keys', next);
      SlideKeepsWhole(old(prev[..]), prev[..], keys, keys', next);
      keys := keys';
    }

    method LowerLinks()
      requires prev.Length == WINDOW_SIZE
      modifies prev
      ensures Slid(old(prev[..]), prev[..])
    {
      var n := 0;
      while n < HASH_SIZE
        invariant 0 <= n <= HASH_SIZE
        invariant forall i :: 0 <= i < WSIZE ==> prev[i] == old(prev[i])
        invariant forall i :: WSIZE <= i < WSIZE + n ==> prev[i] == Lowered(old(prev[i]))
        invariant forall i :: WSIZE + n <= i < WSIZE + HASH_SIZE ==> prev[i] == old(prev[i])
      {
        var m := prev[WSIZE + n];
        prev[WSIZE + n] := if m >= WSIZE then m - WSIZE else NIL;
        n := n + 1;
      }
      n := 0;
      while n < WSIZE
        invariant 0 <= n <= WSIZE
        invariant forall i :: 0 <= i < n ==> prev[i] == Lowered(old(prev[i]))
        invariant forall i :: n <= i < WSIZE ==> prev[i] == old(prev[i])
        invariant forall i :: WSIZE <= i < WSIZE + HASH_SIZE ==> prev[i] == Lowered(old(prev[i]))
      {
        var m := prev[n];
        prev[n] := if m >= WSIZE then m - WSIZE else NIL;
        n := n + 1;
      }
    }

    /** Reads up to `n` more bytes of the input into the window. */
    method ReadBuff(offset: int, n: int) returns (count: int)
      requires Filled() && offset == deflatePos - base && 0 <= n && offset + n <= WINDOW_SIZE
      modifies this`deflatePos, window
      ensures Filled()
      ensures 0 <= count <= n && deflatePos == old(deflatePos) + count
      ensures count == n || deflatePos == |text|
    {
      count := 0;
      while count < n && deflatePos < |text|
        invariant 0 <= count <= n && deflatePos == old(deflatePos) + count
        invariant Filled()
      {
        window[offset + count] := Byte(text[deflatePos]);
        deflatePos := deflatePos + 1;
        count := count + 1;
      }
    }

    method FillWindow()
      requires Filled() && Sound(strstart)
      requires 0 <= strstart && 0 <= lookahead < MIN_LOOKAHEAD && base + strstart + lookahead == deflatePos
      requires !eofile && Moved(base, strstart)
      modifies this`matchStart, this`strstart, this`base, this`keys, this`deflatePos, this`eofile, this`lookahead, window, prev
      ensures Filled() && Sound(strstart)
      ensures 0 <= strstart && old(lookahead) <= lookahead && base + strstart + lookahead == deflatePos
      ensures base + strstart == old(base + strstart) && base + matchStart == old(base + matchStart)
      ensures strstart == old(strstart) || strstart >= MAX_DIST
      ensures Moved(base, strstart) && (eofile || old(deflatePos) < deflatePos)
      ensures Renamed(old(keys), keys, base - old(base))
    {
      hide Chains, Whole, Matcher.Filled, Renamed;
      SizedArrays();
      KeysNatural(strstart);
      var more := WINDOW_SIZE - lookahead - strstart;
      if more == -1 {
        more := more - 1;
      } else if strstart >= WSIZE + MAX_DIST {
        SlideWindow();
        more := more + WSIZE;
      }
      if !eofile {
        var n := ReadBuff(strstart + lookahead, more);
        SizedArrays();
        if n <= 0 {
          EndInput();
        } else {
          lookahead := lookahead + n;
        }
      }
    }

    method Refill()
      requires Steady() && Moved(base, strstart)
      modifies this`matchStart, this`strstart, this`base, this`keys, this`deflatePos, this`eofile, this`lookahead, window, prev
      ensures Ready() && Moved(base, strstart) && Renamed(old(keys), keys, base - old(base))
      ensures old(lookahead) <= lookahead
      ensures base + strstart == old(base + strstart) && base + matchStart == old(base + matchStart)
      ensures strstart == old(strstart) || strstart >= MAX_DIST
    {
      hide Matcher.Sound, Matcher.Filled, Renamed;
      KeysNatural(strstart);
      while lookahead < MIN_LOOKAHEAD && !eofile
        invariant Steady() && Moved(base, strstart) && old(lookahead) <= lookahead && Renamed(old(keys), keys, base - old(base))
        invariant base + strstart == old(base + strstart) && base + matchStart == old(base + matchStart)
        invariant strstart == old(strstart) || strstart >= MAX_DIST
        decreases !eofile, |text| - deflatePos
      {
        ghost var was, at := keys, base;
        FillWindow();
        RenamedTwice(old(keys), was, keys, at - old(base), base - at);
        SizedArrays();
      }
    }

    /** Files the next `count` strings after the current one. */
    method InsertFollowing(count: int)
      requires StringFiled() && 1 <= count && base + strstart + count < deflatePos
      requires base + strstart + count + 2 < deflatePos || deflatePos == |text|
      modifies this`insH, this`hashHead, this`keys, this`strstart, prev
      ensures StringFiled() && strstart == old(strstart) + count && FiledMore(old(keys), keys, old(strstart) + 1, strstart + 1)
    {
      hide Matcher.Sound, Matcher.Filled, LinkOk, LinkWhole;
      SizedArrays();
      var left := count;
      while left != 0
        invariant 0 <= left <= count && strstart == old(strstart) + (count - left)
        invariant StringFiled() && FiledMore(old(keys), keys, old(strstart) + 1, strstart + 1)
      {
        strstart := strstart + 1;
        InsertString();
        left := left - 1;
      }
    }

    /** Starts the hash afresh from the first two bytes of the current string. */
    method Reprime()
      requires Filled() && 0 <= strstart && (base + strstart + 1 < deflatePos || deflatePos == |text|)
      modifies this`insH
      ensures HashPrimed()
    {
      insH := Masked(At(strstart));
      insH := UpdateHash(insH, Masked(At(strstart + 1)));
      ghost var s := base + strstart;
      if s < |prime| {
        assert window[strstart] == Byte(text[base + strstart]);
        assert window[strstart + 1] == Byte(text[base + (strstart + 1)]);
        assert prime[s] == PrimeAt(text, s);
        FreshStartPrimes(text[s], text[s + 1]);
      }
    }

    /** Hands a token to the block under construction, which may then have to be flushed. */
    method Tally(distance: int, lc: int) returns (flush: bool)
      requires 0 <= distance && 0 <= lc < 256
      modifies this`tokens, this`bases
      ensures tokens == old(tokens) + [if distance == 0 then Literal(lc) else Match(distance, lc + MIN_MATCH)]
      ensures bases == old(bases) + [deflatePos - lookahead - strstart]
    {
      tokens := tokens + [if distance == 0 then Literal(lc) else Match(distance, lc + MIN_MATCH)];
      bases := bases + [deflatePos - lookahead - strstart];
      flush := *;
    }

    /** Tallies a match that really is one: the stream stays in step with the text. */
    method EmitMatch(ghost at: int, distance: int, length: int) returns (flush: bool)
      requires 0 <= at && Repeats(text, at, distance, length)
      requires distance <= MAX_DIST && MIN_MATCH <= length <= MAX_MATCH
      requires Expand(tokens) == Some(text[..at]) && Placed(tokens, bases)
      requires base + strstart + lookahead == deflatePos && Shows(base, at + length)
      modifies this`tokens, this`bases
      ensures Expand(tokens) == Some(text[..at + length]) && Placed(tokens, bases)
      ensures tokens == old(tokens) + [Match(distance, length)] && bases == old(bases) + [base]
    {
      hide Placed, Shows, Expand;
      AppendMatch(tokens, text, at, distance, length);
      PlacedAppend(tokens, bases, Match(distance, length), base);
      flush := Tally(distance, length - MIN_MATCH);
    }

    method EmitLiteral(index: int) returns (flush: bool)
      requires Filled() && 0 <= index < deflatePos - base && Expand(tokens) == Some(text[..base + index]) && Placed(tokens, bases)
      requires base + strstart + lookahead == deflatePos && Shows(base, base + index + 1)
      modifies this`tokens, this`bases
      ensures tokens != [] && Expand(tokens) == Some(text[..base + index + 1]) && Placed(tokens, bases)
      ensures tokens == old(tokens) + [Literal(text[base + index])] && bases == old(bases) + [base]
    {
      hide Placed, Shows, Expand;
      assert window[index] == Byte(text[base + index]);
      AppendLiteral(tokens, text, base + index);
      PlacedAppend(tokens, bases, Literal(text[base + index]), base);
      flush := Tally(0, Masked(At(index)));
    }

    /** Everything up to `length` bytes behind the current string lies in the window. */
    lemma InWindow(length: int)
      requires Ready'() && Moved(base, strstart) && 0 <= length <= lookahead && length <= MAX_MATCH
      ensures Shows(base, base + strstart + length)
    {
    }

    ghost predicate FastInvariant()
      reads this, window, prev
    {
      && Steady()
      && matchLength < MIN_MATCH && prevLength == MIN_MATCH - 1
      && Expand(tokens) == Some(text[..base + strstart]) && Moved(base, strstart) && Placed(tokens, bases)
    }

    /** Passes over a match, filing its strings only when it is short. */
    method PassMatch()
      requires StringFiled() && MIN_MATCH <= matchLength && base + strstart + matchLength <= deflatePos
      requires base + strstart + matchLength + 1 < deflatePos || deflatePos == |text|
      requires 4 <= maxLazyMatch
      modifies this`insH, this`hashHead, this`keys, this`strstart, this`matchLength, prev
      ensures Filled() && Sound(strstart) && HashPrimed()
      ensures strstart == old(strstart + matchLength) && matchLength == 0
      ensures FiledMore(old(keys), keys, old(strstart) + 1, if old(matchLength) <= maxLazyMatch then strstart else old(strstart) + 1)
    {
      hide Chains, Whole, Matcher.Filled;
      SizedArrays();
      if matchLength <= maxLazyMatch {
        InsertFollowing(matchLength - 1);
        matchLength := 0;
        strstart := strstart + 1;
      } else {
        ChainsWeaken(code, base, prev[..], keys, strstart + 1, strstart + matchLength);
        WholeWeakens(prev[..], keys, strstart + 1, strstart + matchLength);
        strstart := strstart + matchLength;
        matchLength := 0;
        Reprime();
      }
    }

    /** The text at `strstart` repeats, for `length` bytes, what starts at `matchStart`. */
    ghost predicate MatchHere(length: int)
      reads this`base, this`strstart, this`matchStart
    {
      && strstart - matchStart <= MAX_DIST
      && Repeats(text, base + strstart, strstart - matchStart, length)
    }

    /** Looks up the current string, cutting the match off at the end of the input. */
    method Search() returns (length: int, ghost l: Lookup)
      requires Ready'() && lookahead >= 1 && 1 <= prevLength < MAX_MATCH && Candidate(hashHead) && LinkWhole(keys, strstart, hashHead)
      modifies this`matchStart
      ensures 1 <= length <= lookahead && length == Min(l.best, lookahead)
      ensures length > prevLength ==> length <= MAX_MATCH && MatchHere(length)
      ensures BestOf(prevLength, l.tried, l.best, l.start, old(matchStart)) && l.start == matchStart && l.key == keys[strstart]
      ensures Looked(keys, strstart, Limit(), ChainBudget(), l)
    {
      hide Matcher.Sound, Matcher.Filled, Looked, LinkWhole, Latest;
      SizedArrays();
      length := LongestMatch(hashHead);
      l := Lookup(keys[strstart], if hashHead > Limit() then Limit() else Limit() - 1, ChainFrom(prev[..], hashHead, Limit(), ChainBudget()), length,
                  matchStart);
      TriedIsLatest(l);
      if length > lookahead {
        length := lookahead;
      }
    }

    /** The candidates of the chain are the latest strings filed with the key. */
    lemma TriedIsLatest(l: Lookup)
      requires StringFiled() && maxChainLength >= 4 && Candidate(hashHead) && LinkWhole(keys, strstart, hashHead)
      requires l.key == keys[strstart] && l.limit == if hashHead > Limit() then Limit() else Limit() - 1
      requires l.tried == ChainFrom(prev[..], hashHead, Limit(), ChainBudget())
      ensures Looked(keys, strstart, Limit(), ChainBudget(), l)
    {
      hide Matcher.Filled, Latest;
      if hashHead > Limit() {
        ChainIsLatest(prev[..], keys, strstart + 1, strstart, hashHead, Limit(), ChainBudget());
      } else {
        HeadAlone(l);
      }
    }

    lemma HeadAlone(l: Lookup)
      requires StringFiled() && maxChainLength >= 4 && Candidate(hashHead) && LinkWhole(keys, strstart, hashHead) && hashHead <= Limit()
      requires l.key == keys[strstart] && l.limit == Limit() - 1
      requires l.tried == ChainFrom(prev[..], hashHead, Limit(), ChainBudget())
      ensures Looked(keys, strstart, Limit(), ChainBudget(), l)
    {
      hide Matcher.Filled, Whole, KeysOk, HeadsOk;
      assert LinkOk(keys, hashHead, Link(prev[..], hashHead));
    }

    /** Files the current string; the previous head of its chain may be matched with it. */
    method FileString()
      requires Ready() && lookahead != 0
      modifies this`insH, this`hashHead, this`keys, prev
      ensures Ready'() && keys == old(keys)[strstart := old(NextKey())] && LinkWhole(keys, strstart, hashHead)
      ensures hashHead != NIL && strstart - hashHead <= MAX_DIST ==> Candidate(hashHead)
    {
      hide Chains, Whole, LinkWhole, Matcher.Filled;
      SizedArrays();
      KeysBelow(code, base, prev[..], keys, strstart);
      InsertString();
    }

    /** Without a head in reach there is nothing to try. */
    lemma NothingFiled(l: Lookup)
      requires 0 <= strstart && LinkWhole(keys, strstart, hashHead) && !(hashHead != NIL && strstart - hashHead <= MAX_DIST)
      requires l.key == keys[strstart] && l.limit == Limit() && l.tried == []
      ensures Looked(keys, strstart, Limit(), ChainBudget(), l)
    {
    }

    lemma LookedBefore(was: map<int, int>, l: Lookup)
      requires strstart in keys && keys == was[strstart := keys[strstart]] && Looked(keys, strstart, Limit(), ChainBudget(), l)
      ensures Looked(was, strstart, Limit(), ChainBudget(), l)
    {
      hide Latest;
      LatestFrame(l.tried, was, strstart, keys[strstart], l.key, l.limit, ChainBudget());
      assert forall c :: Filed(keys, strstart, l.key, Limit(), c) <==> Filed(was, strstart, l.key, Limit(), c);
    }

    /** Files the current string and looks for an earlier occurrence. */
    method FastLookup() returns (ghost l: Lookup)
      requires Ready() && lookahead != 0 && matchLength < MIN_MATCH && prevLength == MIN_MATCH - 1
      modifies this`insH, this`hashHead, this`keys, this`matchLength, this`matchStart, prev
      ensures Ready'() && keys == old(keys)[strstart := old(NextKey())]
      ensures matchLength >= MIN_MATCH ==> matchLength <= MAX_MATCH && matchLength <= lookahead && MatchHere(matchLength)
      ensures BestOf(prevLength, l.tried, l.best, l.start, old(matchStart)) && l.key == old(NextKey())
      ensures Looked(old(keys), strstart, Limit(), ChainBudget(), l)
      ensures Min(l.best, lookahead) >= MIN_MATCH ==> matchLength == Min(l.best, lookahead) && matchStart == l.start
      ensures Min(l.best, lookahead) < MIN_MATCH ==> matchLength < MIN_MATCH
    {
      hide Looked, Matcher.Candidate, LinkWhole, Matcher.MatchHere, Matcher.Sound, Matcher.Filled, Matcher.BestOf;
      SizedArrays();
      ghost var was := keys;
      FileString();
      if hashHead != NIL && strstart - hashHead <= MAX_DIST {
        matchLength, l := Search();
      } else {
        l := Lookup(keys[strstart], Limit(), [], prevLength, matchStart);
        NothingFiled(l);
        NothingTried();
      }
      LookedBefore(was, l);
    }

    /** A difference before the end of what has been read is one of the text. */
    lemma DifferIsReal(c: int, k: int)
      requires Filled() && 0 <= c < strstart && Differ(c, k) && 0 <= k < deflatePos - base - strstart
      ensures !Repeats(text, base + strstart, strstart - c, k + 1)
    {
      var i :| strstart <= i <= strstart + k && At(i) != At(c + (i - strstart));
      assert window[i] == Byte(text[base + i]) && window[c + (i - strstart)] == Byte(text[base + (c + (i - strstart))]);
      assert !Echoes(text, base + i, strstart - c);
    }

    /** Not even the next byte of the text can be matched. */
    lemma AtEnd(c: int, k: int)
      requires k > |text| - (base + strstart)
      ensures !Repeats(text, base + strstart, strstart - c, k)
    {
    }

    lemma NotLonger(c: int, k: int)
      requires Ready'() && 0 <= c < strstart && Differ(c, k) && 0 <= k < MAX_MATCH
      ensures !Repeats(text, base + strstart, strstart - c, k + 1)
    {
      hide Matcher.Sound, Matcher.Filled, Matcher.Differ, Repeats;
      SizedArrays();
      if k < lookahead {
        DifferIsReal(c, k);
      } else {
        AtEnd(c, k + 1);
      }
    }

    /** Positions are filed under the key of their string. */
    lemma FiledHere(c: int)
      requires Ready'() && lookahead >= MIN_MATCH && c in keys && 0 <= c <= strstart
      ensures 0 <= base + c < |text| - 2 && keys[c] == KeyAt(text, base + c)
    {
      hide HeadsOk, LinksOk, Whole, Matcher.HashPrimed;
      assert base + c < |code| && code[base + c] == KeyAt(text, base + c);
    }

    lemma {:induction false} FiledIsUsable(l: Lookup, was: map<int, int>, filed: set<int>, limit: int, far: int, c: int)
      requires Ready'() && lookahead >= MIN_MATCH && strstart in keys && keys == was[strstart := keys[strstart]] && l.key == keys[strstart]
      requires FiledAs(was, base, filed)
      requires (limit == Limit() && far == MAX_DIST - 1) || (limit == Limit() - 1 >= 0 && far == MAX_DIST)
      ensures Filed(was, strstart, l.key, limit, c) <==> Near(text, filed, base, base + strstart, far, base + c)
    {
      hide Matcher.Ready', KeyAt;
      SizedAhead();
      FiledHere(strstart);
      if c in was && c < strstart {
        FiledHere(c);
      }
    }

    /** The strings tried are the nearest ones in the text. */
    lemma {:induction false} TriedAreNearest(l: Lookup, was: map<int, int>, filed: set<int>, budget: int, near: seq<int>, far: int)
      requires Ready'() && lookahead >= MIN_MATCH && strstart in keys && keys == was[strstart := keys[strstart]] && l.key == keys[strstart]
      requires Looked(was, strstart, Limit(), budget, l) && FiledAs(was, base, filed)
      requires far == if l.limit == Limit() then MAX_DIST - 1 else MAX_DIST
      requires |near| == |l.tried| && forall i :: 0 <= i < |near| ==> near[i] == base + l.tried[i]
      ensures Reach(text, filed, base, base + strstart, far) && Nearest(near, text, filed, base, base + strstart, far, budget)
    {
      hide Matcher.Ready', Usable, Filed;
      var p := base + strstart;
      forall c
        ensures Filed(was, strstart, l.key, l.limit, c) <==> Near(text, filed, base, p, far, base + c)
      {
        FiledIsUsable(l, was, filed, l.limit, far, c);
      }
      forall c | Near(text, filed, base, p, far, c) && c !in near
        ensures |near| == budget && forall i :: 0 <= i < |near| ==> c < near[i]
      {
        assert Filed(was, strstart, l.key, l.limit, c - base);
        assert forall i :: 0 <= i < |near| ==> l.tried[i] == near[i] - base;
        assert c - base !in l.tried;
      }
      if far == MAX_DIST {
        forall c | Usable(text, filed, base, p, c)
          ensures p - c >= MAX_DIST
        {
          FiledIsUsable(l, was, filed, Limit(), MAX_DIST - 1, c - base);
          assert !Filed(was, strstart, l.key, Limit(), c - base);
        }
      }
    }

    /** The best of what was tried is the longest in the text. */
    lemma {:induction false} BestIsLongest(l: Lookup, least: int, oldStart: int, near: seq<int>)
      requires Ready'() && lookahead >= 1 && 1 <= least < MAX_MATCH && BestOf(least, l.tried, l.best, l.start, oldStart)
      requires |near| == |l.tried| && forall i :: 0 <= i < |near| ==> near[i] == base + l.tried[i] && 0 < l.tried[i] < strstart
      ensures Longest(text, base + strstart, near, least, Min(l.best, lookahead), base + l.start)
    {
      hide Matcher.Ready', Matcher.Differ, Repeats;
      var p, n := base + strstart, Min(l.best, lookahead);
      SizedAhead();
      if n > least {
        var i: nat :| FirstAt(l.tried, i, l.start, l.best);
        forall j | 0 <= j < i
          ensures n == |text| - p || !Repeats(text, p, p - near[j], n)
        {
          if n == l.best {
            NotLonger(l.tried[j], l.best - 1);
          }
        }
        assert First(text, p, near, i, n, base + l.start);
        forall x | x in near && n < MAX_MATCH
          ensures !Repeats(text, p, p - x, n + 1)
        {
          var k :| 0 <= k < |near| && near[k] == x;
          if n == l.best {
            NotLonger(l.tried[k], l.best);
          } else {
            AtEnd(l.tried[k], n + 1);
          }
        }
      } else {
        forall x | x in near
          ensures !Repeats(text, p, p - x, least + 1)
        {
          var k :| 0 <= k < |near| && near[k] == x;
          if l.best == least {
            NotLonger(l.tried[k], least);
          } else {
            AtEnd(l.tried[k], least + 1);
          }
        }
      }
    }

    lemma SizedAhead()
      requires Ready'()
      ensures 0 <= base && 0 <= strstart && 0 <= lookahead && base + strstart + lookahead == deflatePos <= |text| && maxLazyMatch <= MAX_MATCH
      ensures lookahead < MIN_LOOKAHEAD ==> deflatePos == |text|
    {
    }

    /** What a lookup means for the text. */
    lemma {:induction false} LookupFinds(l: Lookup, least: int, oldStart: int, was: map<int, int>, filed: set<int>, budget: int)
      requires Ready'() && lookahead >= MIN_MATCH && strstart in keys && keys == was[strstart := keys[strstart]] && l.key == keys[strstart]
      requires Looked(was, strstart, Limit(), budget, l) && FiledAs(was, base, filed)
      requires 1 <= least < MAX_MATCH && BestOf(least, l.tried, l.best, l.start, oldStart)
      ensures Finds(text, filed, base, base + strstart, budget, least, Min(l.best, lookahead), base + l.start)
    {
      hide Matcher.Ready', Matcher.BestOf, Nearest, Reach, Longest;
      var b := base;
      var near := seq(|l.tried|, i requires 0 <= i < |l.tried| => b + l.tried[i]);
      var far := if l.limit == Limit() then MAX_DIST - 1 else MAX_DIST;
      assert forall i :: 0 <= i < |near| ==> Filed(was, strstart, l.key, l.limit, l.tried[i]);
      TriedAreNearest(l, was, filed, budget, near, far);
      BestIsLongest(l, least, oldStart, near);
    }

    /** The token that the greedy matcher is about to emit. */
    ghost function FastToken(): Token
      reads this`base, this`strstart, this`matchStart, this`matchLength
      requires 0 <= base + strstart < |text| && (matchLength >= MIN_MATCH ==> matchStart <= strstart)
    {
      if matchLength >= MIN_MATCH then Match(strstart - matchStart, matchLength) else Literal(text[base + strstart])
    }

    lemma FoundIsChosen(l: Lookup, oldStart: int, was: map<int, int>, filed: set<int>)
      requires Ready'() && lookahead != 0 && strstart in keys && keys == was[strstart := keys[strstart]] && l.key == keys[strstart]
      requires prevLength == MIN_MATCH - 1 && Looked(was, strstart, Limit(), ChainBudget(), l) && FiledAs(was, base, filed)
      requires BestOf(prevLength, l.tried, l.best, l.start, oldStart)
      requires 0 <= base + strstart < |text| && (matchLength >= MIN_MATCH ==> matchStart <= strstart)
      requires if Min(l.best, lookahead) >= MIN_MATCH then matchLength == Min(l.best, lookahead) && matchStart == l.start else matchLength < MIN_MATCH
      ensures GreedyToken(text, filed, base, base + strstart, Settings(), FastToken())
    {
      hide Matcher.Ready', Matcher.BestOf, Looked, FiledAs, Finds;
      SizedAhead();
      if lookahead >= MIN_MATCH {
        LookupFinds(l, prevLength, oldStart, was, filed, ChainBudget());
        assert GreedyChoice(text, filed, base, base + strstart, Settings(), FastToken(), Min(l.best, lookahead), base + l.start);
      }
    }

    /** Looks up the current string, and tells which token comes next. */
    method FastFind(ghost filed: set<int>) returns (ghost l: Lookup, ghost t: Token)
      requires Ready() && lookahead != 0 && matchLength < MIN_MATCH && prevLength == MIN_MATCH - 1
      modifies this`insH, this`hashHead, this`keys, this`matchLength, this`matchStart, prev
      ensures Ready'() && keys == old(keys)[strstart := old(NextKey())]
      ensures matchLength >= MIN_MATCH ==> matchLength <= MAX_MATCH && matchLength <= lookahead && MatchHere(matchLength)
      ensures BestOf(prevLength, l.tried, l.best, l.start, old(matchStart)) && l.key == old(NextKey())
      ensures Looked(old(keys), strstart, Limit(), ChainBudget(), l)
      ensures Min(l.best, lookahead) >= MIN_MATCH ==> matchLength == Min(l.best, lookahead) && matchStart == l.start
      ensures Min(l.best, lookahead) < MIN_MATCH ==> matchLength < MIN_MATCH
      ensures 0 <= base + strstart < |text| && (matchLength >= MIN_MATCH ==> matchStart <= strstart) && t == FastToken()
      ensures FiledAs(old(keys), base, filed) ==> GreedyToken(text, filed, base, base + strstart, Settings(), t)
    {
      hide Matcher.Ready, Matcher.Ready', Matcher.BestOf, Looked, FiledAs, GreedyToken;
      ghost var was, oldStart := keys, matchStart;
      l := FastLookup();
      SizedAhead();
      t := FastToken();
      if FiledAs(was, base, filed) {
        FoundIsChosen(l, oldStart, was, filed);
      }
    }

    /** One string of the greedy matcher: a match, if there is one, else a literal. */
    method FastStep(ghost filed: set<int>) returns (flush: bool, ghost l: Lookup, ghost t: Token)
      requires Ready() && FastInvariant() && lookahead != 0
      modifies this`insH, this`hashHead, this`keys, this`strstart, this`lookahead, this`matchLength, this`matchStart,
               this`tokens, this`bases, prev
      ensures FastInvariant() && base + strstart > old(base + strstart) && strstart < WINDOW_SIZE
      ensures l.key == old(NextKey()) && Looked(old(keys), old(strstart), old(Limit()), old(ChainBudget()), l)
      ensures old(BestOf(MIN_MATCH - 1, l.tried, l.best, l.start, matchStart))
      ensures var n := Min(l.best, old(lookahead));
              && base + strstart == old(base + strstart) + (if n >= MIN_MATCH then n else 1)
              && tokens == old(tokens) + [if n >= MIN_MATCH then Match(old(strstart) - l.start, n) else Literal(text[old(base + strstart)])]
      ensures tokens == old(tokens) + [t] && bases == old(bases) + [base] && FiledMore(old(keys), keys, old(strstart), old(strstart) + FiledCount(t, maxLazyMatch))
      ensures FiledAs(old(keys), base, filed) ==> GreedyToken(text, filed, base, old(base + strstart), Settings(), t)
    {
      hide Placed, Expand, Looked, Matcher.BestOf, Matcher.Sound, Matcher.Filled, FiledAs, GreedyToken, Repeats, Budget;
      SizedArrays();
      ghost var before := strstart;
      l, t := FastFind(filed);
      if matchLength >= MIN_MATCH {
        flush := FastMatch();
      } else {
        flush := FastLiteral();
      }
      InsideWindow(before);
    }

    /** A step never reaches the end of the window, so all bytes of a block that began in it can be counted in 16 bits. */
    lemma InsideWindow(before: int)
      requires Steady() && strstart <= before + MAX_MATCH && (eofile || before + MIN_LOOKAHEAD <= deflatePos - base)
      ensures strstart < WINDOW_SIZE
    {
    }

    method StepOver()
      requires Ready'() && lookahead >= 1
      modifies this`lookahead, this`strstart
      ensures Steady() && strstart == old(strstart) + 1 && lookahead == old(lookahead) - 1
    {
      lookahead := lookahead - 1;
      strstart := strstart + 1;
    }

    method FastMatch() returns (flush: bool)
      requires Ready'() && MIN_MATCH <= matchLength <= MAX_MATCH && matchLength <= lookahead && MatchHere(matchLength)
      requires Expand(tokens) == Some(text[..base + strstart]) && Moved(base, strstart) && Placed(tokens, bases)
      modifies this`insH, this`hashHead, this`keys, this`strstart, this`lookahead, this`matchLength, this`tokens, this`bases, prev
      ensures strstart == old(strstart + matchLength) && matchLength == 0
      ensures Steady() && Expand(tokens) == Some(text[..base + strstart]) && Placed(tokens, bases)
      ensures tokens == old(tokens) + [Match(old(strstart - matchStart), old(matchLength))] && bases == old(bases) + [base]
      ensures FiledMore(old(keys), keys, old(strstart) + 1, if old(matchLength) <= maxLazyMatch then strstart else old(strstart) + 1)
    {
      hide Placed, Expand, Shows, Repeats, Matcher.Sound, Matcher.Filled;
      SizedArrays();
      InWindow(matchLength);
      flush := EmitMatch(base + strstart, strstart - matchStart, matchLength);
      lookahead := lookahead - matchLength;
      PassMatch();
    }

    method FastLiteral() returns (flush: bool)
      requires Ready'() && lookahead >= 1 && Expand(tokens) == Some(text[..base + strstart]) && Moved(base, strstart) && Placed(tokens, bases)
      modifies this`tokens, this`bases, this`lookahead, this`strstart
      ensures strstart == old(strstart) + 1 && lookahead == old(lookahead) - 1
      ensures tokens == old(tokens) + [Literal(text[old(base + strstart)])] && bases == old(bases) + [base]
      ensures Steady() && Expand(tokens) == Some(text[..base + strstart]) && Placed(tokens, bases)
    {
      hide Placed, Expand, Shows, Matcher.Sound;
      InWindow(1);
      flush := EmitLiteral(strstart);
      StepOver();
    }

    /** The tokens so far are those of the greedy choice, and its strings are filed. */
    ghost predicate GreedySoFar()
      reads this`base, this`keys, this`tokens, this`bases, this`maxChainLength, this`maxLazyMatch, this`goodMatch
    {
      GreedyTokens(text, Settings(), tokens, bases) && FiledAs(keys, base, FiledBy(tokens, maxLazyMatch))
    }

    /** At the beginning nothing is filed. */
    lemma NothingChosen()
      requires Ready() && base + strstart == 0 && tokens == [] && bases == []
      ensures Expand(tokens) == Some(text[..0]) && Placed(tokens, bases) && GreedySoFar()
    {
      KeysBelow(code, base, prev[..], keys, strstart);
    }

    lemma GreedyGoesOn(was: map<int, int>, had: seq<Token>, at: seq<int>, t: Token, from: int)
      requires Size(had) == base + from && 0 <= from
      requires GreedyTokens(text, Settings(), had, at) && FiledAs(was, base, FiledBy(had, maxLazyMatch))
      requires tokens == had + [t] && bases == at + [base] && FiledMore(was, keys, from, from + FiledCount(t, maxLazyMatch))
      requires GreedyToken(text, FiledBy(had, maxLazyMatch), base, base + from, Settings(), t)
      ensures GreedySoFar()
    {
      hide GreedyTokens, GreedyToken, FiledAs, FiledMore, FiledBy, Size;
      GreedyAppend(text, Settings(), had, at, t, base);
      FiledByAppend(had, t, maxLazyMatch);
      FiledAsMore(was, keys, base, from, from + FiledCount(t, maxLazyMatch), FiledBy(had, maxLazyMatch));
    }

    lemma GreedyMoves(was: map<int, int>, b: int)
      requires Renamed(was, keys, base - b) && GreedyTokens(text, Settings(), tokens, bases) && FiledAs(was, b, FiledBy(tokens, maxLazyMatch))
      ensures GreedySoFar()
    {
      hide GreedyTokens, Renamed, FiledAs;
      FiledAsRenamed(was, keys, base - b, b, FiledBy(tokens, maxLazyMatch));
    }

    method FastAdvance() returns (flush: bool)
      requires Ready() && FastInvariant() && lookahead != 0 && GreedySoFar()
      modifies this`insH, this`hashHead, this`keys, this`strstart, this`lookahead, this`matchLength, this`matchStart,
               this`tokens, this`bases, prev
      ensures FastInvariant() && base + strstart > old(base + strstart) && GreedySoFar()
    {
      hide Placed, Expand, Looked, Matcher.BestOf, Matcher.Sound, Matcher.Filled, FiledMore, GreedyToken, GreedyTokens, FiledAs, FiledBy, FiledCount,
           Matcher.Limit, Budget;
      ghost var l, t;
      ghost var was, had, at, from := keys, tokens, bases, strstart;
      SizedArrays();
      SizeOfExpanded(tokens);
      flush, l, t := FastStep(FiledBy(tokens, maxLazyMatch));
      GreedyGoesOn(was, had, at, t, from);
    }

    method FastRound() returns (flush: bool)
      requires Ready() && FastInvariant() && lookahead != 0 && GreedySoFar()
      modifies this`insH, this`hashHead, this`keys, this`strstart, this`lookahead, this`matchLength, this`matchStart,
               this`tokens, this`bases, this`base, this`deflatePos, this`eofile, window, prev
      ensures Ready() && FastInvariant() && base + strstart > old(base + strstart) && GreedySoFar()
    {
      hide Placed, Expand, Matcher.Sound, Matcher.Filled, Renamed, GreedyTokens, FiledAs, FiledBy;
      flush := FastAdvance();
      ghost var was, b := keys, base;
      Refill();
      GreedyMoves(was, b);
    }

    /** The greedy matcher runs until the input is used up or output is waiting to be taken. */
    method DeflateFast()
      requires Ready() && FastInvariant() && lookahead != 0 && GreedySoFar()
      modifies this`insH, this`hashHead, this`keys, this`strstart, this`lookahead, this`matchLength, this`matchStart,
               this`tokens, this`bases, this`base, this`deflatePos, this`eofile, window, prev
      ensures Ready() && FastInvariant() && base + strstart > old(base + strstart) && GreedySoFar()
    {
      hide Matcher.GreedySoFar;
      var flush := FastRound();
      var drained := true;
      if flush {
        drained := *;
      }
      while lookahead != 0 && drained
        invariant Ready() && FastInvariant() && GreedySoFar()
        invariant base + strstart > old(base + strstart)
        decreases |text| - (base + strstart)
      {
        flush := FastRound();
        if flush {
          drained := *;
        }
      }
    }

    /** The match found one byte earlier, on which the lazy matcher has not decided yet. */
    ghost predicate Pending(start: int, length: int)
      reads this`base, this`strstart, this`lookahead
    {
      && 1 <= length <= MAX_MATCH
      && (length >= MIN_MATCH ==>
            && strstart - 1 - start <= MAX_DIST && length <= lookahead + 1
            && Repeats(text, base + strstart - 1, strstart - 1 - start, length))
    }

    /** The stream stops at the current string, or one byte short of it while a byte is held back. */
    ghost predicate InStep()
      reads this`base, this`strstart, this`matchAvailable, this`tokens, this`bases
    {
      && 0 <= base + strstart <= |text|
      && (matchAvailable ==> strstart >= 1 && base + strstart >= 1)
      && Expand(tokens) == Some(text[..base + strstart - (if matchAvailable then 1 else 0)])
      && Moved(base, strstart) && Placed(tokens, bases)
    }

    ghost predicate LazyInvariant()
      reads this`base, this`deflatePos, this`eofile, this`keys, this`insH, this`strstart, this`lookahead,
            this`maxChainLength, this`maxLazyMatch, this`matchStart, this`matchLength, this`matchAvailable,
            this`tokens, this`bases, window, prev
    {
      && Steady()
      && Pending(matchStart, matchLength)
      && (matchLength >= MIN_MATCH ==> matchAvailable)
      && InStep() && AllFiled()
    }

    /** Files the current string and looks for a match longer than the one held back. */
    method LazyLookup() returns (ghost l: Lookup)
      requires Ready() && lookahead != 0 && Pending(matchStart, matchLength)
      modifies this`insH, this`hashHead, this`keys, this`matchLength, this`matchStart, this`prevLength, this`prevMatch, prev
      ensures Ready'() && keys == old(keys)[strstart := old(NextKey())]
      ensures prevLength == old(matchLength) && prevMatch == old(matchStart)
      ensures 1 <= matchLength
      ensures matchLength > prevLength && matchLength >= MIN_MATCH ==>
                matchLength <= MAX_MATCH && matchLength <= lookahead && MatchHere(matchLength)
      ensures prevLength >= maxLazyMatch ==> matchLength == MIN_MATCH - 1
      ensures prevLength < maxLazyMatch ==> LazilyFound(l, old(keys), old(NextKey()), old(matchStart))
    {
      hide Matcher.Ready, Matcher.Ready', Matcher.MatchHere, Matcher.Candidate, Looked, LinkWhole, Matcher.BestOf;
      ghost var was := keys;
      prevLength, prevMatch := matchLength, matchStart;
      FileString();
      matchLength, l := LazySearch();
      if prevLength < maxLazyMatch {
        LookedBefore(was, l);
      }
    }

    /** The longest match over what was tried, if it beats the one held back, is what counts now. */
    ghost predicate LazilyFound(l: Lookup, filed: map<int, int>, key: int, oldStart: int)
      reads this`base, this`strstart, this`deflatePos, this`prevLength, this`maxChainLength, this`maxLazyMatch, this`goodMatch, this`lookahead,
            this`matchLength, this`matchStart, window
    {
      && l.key == key && Looked(filed, strstart, Limit(), ChainBudget(), l) && BestOf(prevLength, l.tried, l.best, l.start, oldStart)
      && var n := NotTooFar(Min(l.best, lookahead), strstart - l.start);
         if n > prevLength && n >= MIN_MATCH then matchLength == n && matchStart == l.start else matchLength <= prevLength || matchLength < MIN_MATCH
    }

    /** The length of a match longer than the one held back; short matches must not be too far. */
    method LazySearch() returns (length: int, ghost l: Lookup)
      requires Ready'() && lookahead != 0 && prevLength >= 1 && strstart in keys && LinkWhole(keys, strstart, hashHead)
      requires hashHead != NIL && strstart - hashHead <= MAX_DIST ==> Candidate(hashHead)
      modifies this`matchStart
      ensures 1 <= length
      ensures length > prevLength && length >= MIN_MATCH ==>
                length <= MAX_MATCH && length <= lookahead && MatchHere(length)
      ensures prevLength >= maxLazyMatch ==> length == MIN_MATCH - 1
      ensures prevLength < maxLazyMatch ==>
                && l.key == keys[strstart] && Looked(keys, strstart, Limit(), ChainBudget(), l)
                && BestOf(prevLength, l.tried, l.best, l.start, old(matchStart))
                && var n := NotTooFar(Min(l.best, lookahead), strstart - l.start);
                   if n > prevLength && n >= MIN_MATCH then length == n && matchStart == l.start else length <= prevLength || length < MIN_MATCH
    {
      hide Looked, LinkWhole, Matcher.Candidate, Matcher.Sound, Matcher.Filled, Matcher.BestOf, Matcher.MatchHere;
      length := MIN_MATCH - 1;
      l := Lookup(keys[strstart], Limit(), [], prevLength, matchStart);
      NothingTried();
      if hashHead != NIL && prevLength < maxLazyMatch && strstart - hashHead <= MAX_DIST {
        length, l := Search();
        if length == MIN_MATCH && strstart - matchStart > TOO_FAR {
          length := length - 1;
        }
      } else if prevLength < maxLazyMatch {
        NothingFiled(l);
      }
    }

    /** Passes over the rest of the match held back, filing all its strings. */
    method PassHeldMatch()
      requires Ready'() && MIN_MATCH <= prevLength <= MAX_MATCH && prevLength <= lookahead + 1
      modifies this`insH, this`hashHead, this`keys, this`strstart, this`lookahead, this`prevLength, prev
      ensures Steady() && strstart == old(strstart + prevLength - 1) && FiledMore(old(keys), keys, old(strstart) + 1, strstart)
    {
      hide Matcher.Sound, Matcher.Filled;
      SizedArrays();
      lookahead := lookahead - (prevLength - 1);
      prevLength := prevLength - 2;
      InsertFollowing(prevLength);
      prevLength := 0;
      strstart := strstart + 1;
    }

    /** Goes on after a match with nothing held back. */
    method ForgetHeldMatch()
      requires Steady() && Expand(tokens) == Some(text[..base + strstart]) && Moved(base, strstart) && Placed(tokens, bases) && AllFiled()
      modifies this`matchLength, this`matchAvailable
      ensures LazyInvariant() && !matchAvailable && matchLength == MIN_MATCH - 1
    {
      matchAvailable := false;
      matchLength := MIN_MATCH - 1;
    }

    /** Emits the match held back. */
    method LazyMatch() returns (flush: bool)
      requires Ready'() && prevLength >= MIN_MATCH && Pending(prevMatch, prevLength) && matchAvailable && InStep()
      requires AllFiled() && strstart in keys
      modifies this`insH, this`hashHead, this`keys, this`strstart, this`lookahead, this`matchLength,
               this`prevLength, this`matchAvailable, this`tokens, this`bases, prev
      ensures LazyInvariant() && base + strstart > old(base + strstart) && strstart <= old(strstart) + MAX_MATCH
      ensures tokens == old(tokens) + [Match(old(strstart - 1 - prevMatch), old(prevLength))] && !matchAvailable && matchLength == MIN_MATCH - 1
    {
      hide Placed, Expand, Matcher.Sound, Matcher.Filled, Shows, Repeats;
      InWindow(prevLength - 1);
      flush := EmitMatch(base + strstart - 1, strstart - 1 - prevMatch, prevLength);
      PassHeldMatch();
      ForgetHeldMatch();
    }

    /** Emits the byte held back, if there is one, and holds back the current one. */
    method LazyLiteral() returns (flush: bool)
      requires Ready'() && lookahead >= 1 && InStep() && 1 <= matchLength <= MAX_MATCH && AllFiled() && strstart in keys
      requires matchLength >= MIN_MATCH ==> matchLength <= lookahead && MatchHere(matchLength)
      modifies this`strstart, this`lookahead, this`matchAvailable, this`tokens, this`bases
      ensures LazyInvariant() && strstart == old(strstart) + 1 && matchAvailable
      ensures tokens == old(tokens) + if old(matchAvailable) then [Literal(text[old(base + strstart) - 1])] else []
    {
      hide Matcher.Filled, Matcher.Sound, Matcher.HashPrimed, Repeats, Expand, Placed;
      SizedAhead();
      InWindow(0);
      flush := false;
      if matchAvailable {
        flush := EmitLiteral(strstart - 1);
      } else {
        matchAvailable := true;
      }
      StepOver();
    }

    /** Emits the match held back if the one found now is not longer, and otherwise a byte held back. */
    method LazyDecide() returns (flush: bool)
      requires Ready'() && lookahead >= 1 && InStep() && AllFiled() && strstart in keys && 1 <= matchLength
      requires Pending(prevMatch, prevLength) && (prevLength >= MIN_MATCH ==> matchAvailable)
      requires matchLength > prevLength && matchLength >= MIN_MATCH ==> matchLength <= MAX_MATCH && matchLength <= lookahead && MatchHere(matchLength)
      modifies this`insH, this`hashHead, this`keys, this`strstart, this`lookahead, this`matchLength,
               this`prevLength, this`matchAvailable, this`tokens, this`bases, prev
      ensures LazyInvariant() && base + strstart > old(base + strstart) && strstart < WINDOW_SIZE
      ensures if old(prevLength) >= MIN_MATCH && old(matchLength <= prevLength)
              then tokens == old(tokens) + [Match(old(strstart - 1 - prevMatch), old(prevLength))] && !matchAvailable && matchLength == MIN_MATCH - 1
              else
                && tokens == old(tokens) + (if old(matchAvailable) then [Literal(text[old(base + strstart) - 1])] else [])
                && matchAvailable && matchLength == old(matchLength)
    {
      hide Placed, Expand, Matcher.Sound, Matcher.Filled, Repeats, FiledMore, Moved;
      SizedArrays();
      ghost var before := strstart;
      if prevLength >= MIN_MATCH && matchLength <= prevLength {
        flush := LazyMatch();
      } else {
        flush := LazyLiteral();
      }
      InsideWindow(before);
    }

    lemma FoundLazily(l: Lookup, was: map<int, int>, oldStart: int, n: int)
      requires Ready'() && lookahead != 0 && strstart in keys && keys == was[strstart := keys[strstart]]
      requires FiledAs(was, base, Covered(0, base + strstart)) && prevLength >= 1
      requires prevLength < maxLazyMatch ==> LazilyFound(l, was, keys[strstart], oldStart)
      requires n == if prevLength < maxLazyMatch then NotTooFar(Min(l.best, lookahead), strstart - l.start) else MIN_MATCH - 1
      ensures LazyFinds(text, Settings(), base, base + strstart, prevLength, n, base + l.start)
    {
      hide Matcher.Ready', Matcher.BestOf, Looked, FiledAs, Finds, Covered;
      SizedAhead();
      if lookahead >= MIN_MATCH && prevLength < maxLazyMatch {
        LookupFinds(l, prevLength, oldStart, was, Covered(0, base + strstart), ChainBudget());
      }
    }

    /** Looks up the current string, and tells what that means for the text. */
    method LazyFind() returns (ghost l: Lookup, ghost n: int)
      requires Ready() && lookahead != 0 && Pending(matchStart, matchLength) && AllFiled()
      modifies this`insH, this`hashHead, this`keys, this`matchLength, this`matchStart, this`prevLength, this`prevMatch, prev
      ensures Ready'() && keys == old(keys)[strstart := old(NextKey())]
      ensures prevLength == old(matchLength) && prevMatch == old(matchStart)
      ensures 1 <= matchLength
      ensures matchLength > prevLength && matchLength >= MIN_MATCH ==>
                matchLength <= MAX_MATCH && matchLength <= lookahead && MatchHere(matchLength)
      ensures prevLength >= maxLazyMatch ==> matchLength == MIN_MATCH - 1
      ensures prevLength < maxLazyMatch ==> LazilyFound(l, old(keys), old(NextKey()), old(matchStart))
      ensures n == if prevLength < maxLazyMatch then NotTooFar(Min(l.best, lookahead), strstart - l.start) else MIN_MATCH - 1
      ensures LazyFinds(text, Settings(), base, base + strstart, prevLength, n, base + l.start)
    {
      hide Matcher.Ready, Matcher.Ready', Matcher.LazilyFound, Matcher.MatchHere, FiledAs, LazyFinds, Covered;
      ghost var was, oldStart := keys, matchStart;
      AllAsCovered();
      l := LazyLookup();
      n := if prevLength < maxLazyMatch then NotTooFar(Min(l.best, lookahead), strstart - l.start) else MIN_MATCH - 1;
      FoundLazily(l, was, oldStart, n);
    }

    lemma AllAsCovered()
      requires Ready() && AllFiled()
      ensures FiledAs(keys, base, Covered(0, base + strstart))
    {
      hide Matcher.Filled, Whole;
      KeysBelow(code, base, prev[..], keys, strstart);
    }

    /** One string of the lazy matcher: a match is adopted only if the next one is not longer. */
    method LazyStep() returns (flush: bool, ghost l: Lookup, ghost n: int)
      requires Ready() && LazyInvariant() && lookahead != 0
      modifies this`insH, this`hashHead, this`keys, this`strstart, this`lookahead, this`matchLength, this`matchStart,
               this`prevLength, this`prevMatch, this`matchAvailable, this`tokens, this`bases, prev
      ensures LazyInvariant() && base + strstart > old(base + strstart) && strstart < WINDOW_SIZE
      ensures n == if old(matchLength) < maxLazyMatch then NotTooFar(Min(l.best, old(lookahead)), old(strstart) - l.start) else MIN_MATCH - 1
      ensures old(matchLength) < maxLazyMatch ==>
                && l.key == old(NextKey()) && Looked(old(keys), old(strstart), old(Limit()), old(Budget(Settings(), matchLength)), l)
                && old(BestOf(matchLength, l.tried, l.best, l.start, matchStart))
      ensures if old(matchLength) >= MIN_MATCH && n <= old(matchLength)
              then tokens == old(tokens) + [Match(old(strstart - 1 - matchStart), old(matchLength))] && !matchAvailable && matchLength == MIN_MATCH - 1
              else
                && tokens == old(tokens) + (if old(matchAvailable) then [Literal(text[old(base + strstart) - 1])] else [])
                && matchAvailable && (if n >= MIN_MATCH then matchLength == n && matchStart == l.start else matchLength < MIN_MATCH)
      ensures LazyFinds(text, Settings(), base, old(base + strstart), old(matchLength), n, base + l.start)
    {
      hide Placed, Expand, Looked, Matcher.BestOf, Matcher.Sound, Matcher.Filled, Repeats, Moved, Matcher.MatchHere, LazyFinds;
      l, n := LazyFind();
      flush := LazyDecide();
    }

    /** The tokens so far are those of the lazy choice, as is what is held back. */
    ghost predicate LazySoFar()
      reads this`base, this`tokens, this`found, this`matchAvailable, this`matchLength, this`matchStart, this`maxChainLength, this`maxLazyMatch,
            this`goodMatch
    {
      && LazyTokens(text, Settings(), tokens, found)
      && LazyHeld(tokens, found, matchAvailable, matchLength, base + matchStart)
    }

    /** What is held back was found at the beginning of the next token. */
    ghost predicate LazyHeld(had: seq<Token>, was: seq<Holding>, available: bool, length: int, start: int) {
      if available then |was| == |had| + 1 && was[|had|].n == length && (length >= MIN_MATCH ==> was[|had|].c == start)
      else |was| == |had| && length == MIN_MATCH - 1 && (had == [] || had[|had| - 1].Match?)
    }

    lemma LazyGoesOn(had: seq<Token>, was: seq<Holding>, available: bool, length: int, start: int, p: int, n: int, c: int)
      requires LazyTokens(text, Settings(), had, was) && LazyHeld(had, was, available, length, start) && (length >= MIN_MATCH ==> available)
      requires 0 <= p < |text| && Size(had) == p - (if available then 1 else 0) && LazyFinds(text, Settings(), base, p, length, n, c)
      requires if length >= MIN_MATCH && n <= length
               then p - 1 - start >= 0 && tokens == had + [Match(p - 1 - start, length)] && !matchAvailable && matchLength == MIN_MATCH - 1 && found == was
               else
                 && tokens == had + (if available then [Literal(text[p - 1])] else [])
                 && matchAvailable && (if n >= MIN_MATCH then matchLength == n && base + matchStart == c else matchLength < MIN_MATCH)
                 && found == was + [Holding(matchLength, base + matchStart)]
      ensures LazySoFar()
    {
      hide LazyTokens, LazyFinds, Size;
      var h := Holding(matchLength, base + matchStart);
      if length >= MIN_MATCH && n <= length {
        LazyAppendMatch(text, Settings(), had, was, Match(p - 1 - start, length), base, n, c);
      } else if available {
        LazyAppendLiteral(text, Settings(), had, was, Literal(text[p - 1]), base, h, n, c);
      } else {
        HoldAppend(text, Settings(), had, was, base, h, n, c);
        assert had + [] == had;
      }
    }

    lemma HeldIsEarlier()
      requires Pending(matchStart, matchLength)
      ensures matchLength >= MIN_MATCH ==> matchStart < strstart - 1
    {
    }

    method LazyAdvance() returns (flush: bool)
      requires Ready() && LazyInvariant() && lookahead != 0 && LazySoFar()
      modifies this`insH, this`hashHead, this`keys, this`strstart, this`lookahead, this`matchLength, this`matchStart,
               this`prevLength, this`prevMatch, this`matchAvailable, this`tokens, this`bases, this`found, prev
      ensures LazyInvariant() && base + strstart > old(base + strstart) && LazySoFar()
    {
      hide Placed, Expand, Looked, Matcher.BestOf, Matcher.Sound, Matcher.Filled, Repeats, Moved, LazyFinds, LazyTokens, Matcher.Limit, Budget;
      ghost var l, n;
      ghost var had, available, length, start, p := tokens, matchAvailable, matchLength, base + matchStart, base + strstart;
      SizedArrays();
      SizeOfExpanded(tokens);
      HeldIsEarlier();
      flush, l, n := LazyStep();
      if matchAvailable {
        found := found + [Holding(matchLength, base + matchStart)];
      }
      LazyGoesOn(had, old(found), available, length, start, p, n, base + l.start);
    }

    method LazyRound() returns (flush: bool)
      requires Ready() && LazyInvariant() && lookahead != 0 && LazySoFar()
      modifies this`insH, this`hashHead, this`keys, this`strstart, this`lookahead, this`matchLength, this`matchStart,
               this`prevLength, this`prevMatch, this`matchAvailable, this`tokens, this`bases, this`found, this`base, this`deflatePos,
               this`eofile, window, prev
      ensures Ready() && LazyInvariant() && base + strstart > old(base + strstart) && LazySoFar()
    {
      hide Matcher.Filled, Matcher.Sound, Matcher.HashPrimed, Repeats, Expand, LazyTokens;
      flush := LazyAdvance();
      Refill();
    }

    /** The lazy matcher runs until the input is used up or output is waiting to be taken. */
    method DeflateBetter()
      requires Ready() && LazyInvariant() && lookahead != 0 && LazySoFar()
      modifies this`insH, this`hashHead, this`keys, this`strstart, this`lookahead, this`matchLength, this`matchStart,
               this`prevLength, this`prevMatch, this`matchAvailable, this`tokens, this`bases, this`found, this`base, this`deflatePos,
               this`eofile, window, prev
      ensures Ready() && LazyInvariant() && base + strstart > old(base + strstart) && LazySoFar()
    {
      hide Matcher.LazySoFar;
      var flush := LazyRound();
      var drained := true;
      if flush {
        drained := *;
      }
      while lookahead != 0 && drained
        invariant Ready() && LazyInvariant() && LazySoFar()
        invariant base + strstart > old(base + strstart)
        decreases |text| - (base + strstart)
      {
        flush := LazyRound();
        if flush {
          drained := *;
        }
      }
    }

    constructor (input: seq<byte>, configuration: Configuration)
      ensures text == input && tokens == [] && bases == [] && matchAvailable == false
      ensures fresh(window) && fresh(prev) && window.Length == WINDOW_SIZE && prev.Length == WINDOW_SIZE
      ensures Indexed(text, code, prime)
      ensures deflatePos == 0 && base == 0 && keys == map[] && found == [] && !eofile
      ensures maxChainLength == configuration.maxChain && maxLazyMatch == configuration.maxLazy && goodMatch == configuration.goodLength
    {
      text := input;
      window := new Cell[WINDOW_SIZE];
      prev := new int[WINDOW_SIZE];
      code := seq(if |input| < 2 then 0 else |input| - 2, i requires 0 <= i < |input| - 2 => KeyAt(input, i));
      prime := seq(if |input| < 1 then 0 else |input| - 1, i requires 0 <= i < |input| - 1 => PrimeAt(input, i));
      tokens, bases := [], [];
      matchAvailable := false;
      eofile := false;
      deflatePos, base, keys, found := 0, 0, map[], [];
      maxChainLength, maxLazyMatch := configuration.maxChain, configuration.maxLazy;
      goodMatch := configuration.goodLength;
    }

    /** Empties the dictionary. */
    method ClearHeads()
      requires prev.Length == WINDOW_SIZE && base == 0 && keys == map[]
      modifies prev
      ensures Sound(0)
    {
      var j := 0;
      while j < HASH_SIZE
        invariant 0 <= j <= HASH_SIZE
        invariant forall i :: WSIZE <= i < WSIZE + j ==> prev[i] == NIL
      {
        prev[WSIZE + j] := NIL;
        j := j + 1;
      }
    }

    method InitHash()
      requires Filled() && strstart == 0 && base == 0 && (2 <= deflatePos || deflatePos == |text|)
      modifies this`insH
      ensures HashPrimed()
    {
      insH := UpdateHash(0, Masked(At(0)));
      insH := UpdateHash(insH, Masked(At(1)));
      if 0 < |prime| {
        assert window[0] == Byte(text[base + 0]) && window[1] == Byte(text[base + 1]);
        assert prime[0] == PrimeAt(text, 0);
        TwoBytesPrime(0, text[0], text[1]);
      }
    }

    /** Reads the first window full of input and primes the hash. */
    method LmInit()
      requires window.Length == WINDOW_SIZE && prev.Length == WINDOW_SIZE && Indexed(text, code, prime)
      requires deflatePos == 0 && base == 0 && keys == map[] && !eofile
      requires maxChainLength >= 4 && 4 <= maxLazyMatch <= MAX_MATCH
      modifies this`strstart, this`lookahead, this`eofile, this`deflatePos, this`insH, this`matchStart,
               this`base, this`keys, window, prev
      ensures lookahead == 0 ==> text == []
      ensures lookahead != 0 ==> Ready() && base + strstart == 0 && Moved(base, strstart)
    {
      hide Chains, Whole, Renamed, Matcher.HashPrimed;
      ClearHeads();
      strstart := 0;
      lookahead := ReadBuff(0, WINDOW_SIZE);
      if lookahead <= 0 {
        eofile := true;
        lookahead := 0;
        return;
      }
      while lookahead < MIN_LOOKAHEAD && !eofile
        invariant Filled() && Sound(strstart) && 0 <= strstart && 0 < lookahead && base + strstart == 0 && lookahead == deflatePos
        invariant Moved(base, strstart)
        decreases !eofile, |text| - deflatePos
      {
        FillWindow();
      }
      InitHash();
    }
  }

  method RunFast(m: Matcher)
    requires m.Ready() && m.base + m.strstart == 0 && m.tokens == [] && m.bases == [] && !m.matchAvailable && Moved(m.base, m.strstart)
    modifies m, m.window, m.prev
    ensures m.Filled() && Expand(m.tokens) == Some(m.text) && !m.matchAvailable
    ensures Placed(m.tokens, m.bases) && m.base == m.deflatePos - m.strstart && Shows(m.base, |m.text|)
    ensures GreedyTokens(m.text, old(m.Settings()), m.tokens, m.bases)
  {
    hide Placed, Expand, Matcher.Sound, Matcher.Filled, GreedyTokens, FiledAs;
    m.prevLength := MIN_MATCH - 1;
    m.matchLength := 0;
    m.NothingChosen();
    while m.lookahead != 0
      invariant m.Ready() && m.FastInvariant() && !m.matchAvailable && m.GreedySoFar() && m.Settings() == old(m.Settings())
      decreases |m.text| - (m.base + m.strstart)
    {
      m.DeflateFast();
      m.SizedArrays();
    }
    m.SizedArrays();
    assert m.text[..|m.text|] == m.text;
  }

  method RunLazy(m: Matcher)
    requires m.Ready() && m.base + m.strstart == 0 && m.tokens == [] && m.bases == [] && !m.matchAvailable && Moved(m.base, m.strstart)
    requires m.found == []
    modifies m, m.window, m.prev
    ensures m.Filled() && m.InStep() && m.base + m.strstart == m.deflatePos == |m.text| && m.lookahead == 0 && Shows(m.base, |m.text|)
    ensures LazyTokens(m.text, old(m.Settings()), m.tokens, m.found)
    ensures if m.matchAvailable then |m.found| == |m.tokens| + 1 && m.found[|m.tokens|].n < MIN_MATCH else |m.found| == |m.tokens|
  {
    m.matchLength := MIN_MATCH - 1;
    while m.lookahead != 0
      invariant m.Ready() && m.LazyInvariant() && m.LazySoFar() && m.Settings() == old(m.Settings())
      decreases |m.text| - (m.base + m.strstart)
    {
      m.DeflateBetter();
    }
  }

  /** The tokens are those of the greedy choice at the lower levels, and of the lazy one at the others. */
  ghost predicate Chosen(text: seq<byte>, level: int, tokens: seq<Token>, bases: seq<int>)
    requires 1 <= level <= 9
  {
    if level <= 3 then GreedyTokens(text, CONFIGURATIONS[level], tokens, bases)
    else exists found :: |found| == |tokens| && LazyTokens(text, CONFIGURATIONS[level], tokens, found)
  }

  /** Runs the matcher of the given level over the whole input. Tells where the window began at each token, and at the end. */
  method Tokenize(text: seq<byte>, level: int) returns (tokens: seq<Token>, held: bool, bases: seq<int>, end: int)
    ensures Expand(tokens) == Some(text) && (held ==> tokens != [] && EffectiveLevel(level) > 3)
    ensures Placed(tokens, bases) && Shows(end, |text|)
    ensures Chosen(text, EffectiveLevel(level), tokens, bases)
  {
    hide Placed, Expand, GreedyTokens, LazyTokens, LazyToken, HeldAt, Matcher.Sound, Matcher.HashPrimed, Moved;
    held := false;
    var effective := EffectiveLevel(level);
    var m := new Matcher(text, CONFIGURATIONS[effective]);
    m.LmInit();
    NothingPlaced();
    if m.lookahead == 0 {
      NothingToChoose(CONFIGURATIONS[effective]);
      return [], false, [], 0;
    }
    if effective <= 3 {
      RunFast(m);
    } else {
      RunLazy(m);
      assert text[..|text|] == text;
      if m.matchAvailable {
        SizeOfExpanded(m.tokens);
        LazyEnd(text, CONFIGURATIONS[effective], m.tokens, m.found, Literal(text[|text| - 1]));
        var _ := m.EmitLiteral(m.strstart - 1);
        held := true;
      }
    }
    tokens, bases, end := m.tokens, m.bases, m.deflatePos - m.strstart;
  }

  lemma NothingToChoose(cfg: Configuration)
    ensures GreedyTokens([], cfg, [], []) && LazyTokens([], cfg, [], [])
  {
  }

  lemma NothingPlaced()
    ensures Expand([]) == Some([]) && Placed([], []) && Shows(0, 0)
  {
  }
}
