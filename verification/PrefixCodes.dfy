/** Reading symbols of a canonical prefix code that is given by its code lengths alone. */
module PrefixCodes {
  import opened Arithmetic
  import opened BitStrings
  import opened SymbolLengths
  import opened CanonicalCodes
  import opened Options

  /** Lengths of a prefix code. */
  ghost predicate IsCode(lens: seq<int>) {
    LengthsUpTo(lens, MAX_BITS) && CodeSpace(lens, MAX_BITS, |lens|) <= Pow2(MAX_BITS)
  }

  lemma CodeIsCodable(lens: seq<int>)
    requires IsCode(lens)
    ensures Codable(CountsOf(lens, MAX_BITS, |lens|), lens, MAX_BITS)
  {
    CodeSpaceOfCounts(lens, MAX_BITS, |lens|);
  }

  /** The bits that stand for symbol n. */
  ghost function Word(lens: seq<int>, n: int): (w: seq<bool>)
    requires IsCode(lens) && Coded(lens, n)
    ensures |w| == lens[n]
  {
    CodeIsCodable(lens);
    CodeWord(CountsOf(lens, MAX_BITS, |lens|), lens, MAX_BITS, n)
  }

  ghost predicate Begins(lens: seq<int>, n: int, bits: seq<bool>)
    requires IsCode(lens)
  {
    Coded(lens, n) && Word(lens, n) <= bits
  }

  /** The symbol at the front of a bit string, and what follows it. */
  ghost function ReadSymbol(lens: seq<int>, bits: seq<bool>): (r: Option<(int, seq<bool>)>)
    requires IsCode(lens)
    ensures r.Some? ==> |r.value.1| < |bits|
  {
    if n :| Begins(lens, n, bits) then Some((n, bits[lens[n]..])) else None
  }

  lemma PrefixesOfOne(a: seq<bool>, b: seq<bool>, bits: seq<bool>)
    requires a <= bits && b <= bits && |a| <= |b|
    ensures a <= b
  {
  }

  lemma OnlyOneBegins(lens: seq<int>, n: int, m: int, bits: seq<bool>)
    requires IsCode(lens) && Begins(lens, n, bits) && Begins(lens, m, bits)
    ensures n == m
  {
    CodeIsCodable(lens);
    var count := CountsOf(lens, MAX_BITS, |lens|);
    if n != m {
      PrefixFree(count, lens, MAX_BITS, n, m);
      PrefixFree(count, lens, MAX_BITS, m, n);
      if lens[n] <= lens[m] {
        PrefixesOfOne(Word(lens, n), Word(lens, m), bits);
      } else {
        PrefixesOfOne(Word(lens, m), Word(lens, n), bits);
      }
    }
  }

  /** A symbol is read back from its bits, whatever follows. */
  lemma SymbolReadBack(lens: seq<int>, n: int, rest: seq<bool>)
    requires IsCode(lens) && Coded(lens, n)
    ensures ReadSymbol(lens, Word(lens, n) + rest) == Some((n, rest))
  {
    var bits := Word(lens, n) + rest;
    assert Begins(lens, n, bits);
    var m :| Begins(lens, m, bits) && ReadSymbol(lens, bits) == Some((m, bits[lens[m]..]));
    OnlyOneBegins(lens, n, m, bits);
    assert bits[lens[n]..] == rest;
  }

  lemma {:induction false} FirstCodeFrame(c: seq<int>, d: seq<int>, b: nat)
    requires b <= |c| && b <= |d| && forall i :: 0 <= i < b ==> c[i] == d[i]
    ensures FirstCode(c, b) == FirstCode(d, b)
    decreases b
  {
    if b > 0 {
      FirstCodeFrame(c, d, b - 1);
    }
  }

  lemma {:induction false} CountOfZeros(lens: seq<int>, k: nat, n: nat, b: int)
    requires k <= n <= |lens| && b > 0 && forall i :: k <= i < n ==> lens[i] == 0
    ensures CountOf(lens, n, b) == CountOf(lens, k, b)
    decreases n
  {
    if k < n {
      CountOfZeros(lens, k, n - 1, b);
    }
  }

  lemma {:induction false} CountOfPrefix(lens: seq<int>, k: nat, n: nat, b: int)
    requires n <= k <= |lens|
    ensures CountOf(lens[..k], n, b) == CountOf(lens, n, b)
    decreases n
  {
    if n > 0 {
      CountOfPrefix(lens, k, n - 1, b);
    }
  }

  /** Symbols without a code at the end do not change the histogram. */
  lemma SameCounts(count: seq<int>, lens: seq<int>, k: nat)
    requires k <= |lens| && |count| == MAX_BITS + 1 && Codable(count, lens[..k], MAX_BITS)
    requires forall i :: k <= i < |lens| ==> lens[i] == 0
    ensures count == CountsOf(lens, MAX_BITS, |lens|) && IsCode(lens)
  {
    var all := CountsOf(lens, MAX_BITS, |lens|);
    forall b | 1 <= b <= MAX_BITS
      ensures count[b] == all[b]
    {
      CountOfZeros(lens, k, |lens|, b);
      CountOfPrefix(lens, k, k, b);
    }
    assert count == all;
    forall i | 0 <= i < |lens|
      ensures 0 <= lens[i] <= MAX_BITS
    {
      assert i < k ==> lens[i] == lens[..k][i];
    }
    CodeSpaceOfCounts(lens, MAX_BITS, |lens|);
  }

  /** The code sent for a symbol is the word it is read by. */
  lemma {:induction false} SentIsWord(count: seq<int>, lens: seq<int>, k: nat, n: int)
    requires k <= |lens| && |count| == MAX_BITS + 1 && NaturalCounts(count) && LengthsUpTo(lens[..k], MAX_BITS)
    requires IsCode(lens) && count == CountsOf(lens, MAX_BITS, |lens|) && Coded(lens[..k], n)
    ensures Coded(lens, n) && SentCode(count, lens[..k], n) < Pow2(lens[n])
    ensures Bits(SentCode(count, lens[..k], n), lens[n]) == Word(lens, n)
  {
    hide Bits, Codable, FirstCode, CountOf, CountsOf;
    CountOfPrefix(lens, k, n, lens[n]);
    CodeIsCodable(lens);
    CodeFits(count, lens, MAX_BITS, n);
    ReversedIsCode(CodeValue(count, lens, n), lens[n]);
  }
}
