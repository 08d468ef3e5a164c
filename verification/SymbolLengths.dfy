/** Code lengths listed by symbol: how often each length occurs, and what they weigh together. */
module SymbolLengths {
  import opened Arithmetic
  import opened LengthLimit

  /** How many of the first n symbols have length b. */
  function CountOf(lens: seq<int>, n: nat, b: int): nat
    requires n <= |lens|
  {
    if n == 0 then 0 else CountOf(lens, n - 1, b) + (if lens[n - 1] == b then 1 else 0)
  }

  /** Lengths up to `max`; 0 marks a symbol without a code. */
  ghost predicate LengthsUpTo(lens: seq<int>, max: nat) {
    forall i :: 0 <= i < |lens| ==> 0 <= lens[i] <= max
  }

  /** `count` is the histogram of the nonzero lengths. */
  ghost predicate Counts(count: seq<int>, lens: seq<int>, max: nat) {
    && max < |count| && count[0] == 0
    && forall b :: 1 <= b <= max ==> count[b] == CountOf(lens, |lens|, b)
  }

  /** The Kraft sum of the first n symbols, in units of 2^-max. */
  function CodeSpace(lens: seq<int>, max: nat, n: nat): nat
    requires n <= |lens| && LengthsUpTo(lens, max)
  {
    if n == 0 then 0 else CodeSpace(lens, max, n - 1) + (if lens[n - 1] > 0 then Pow2(max - lens[n - 1]) else 0)
  }

  /** The histogram of the first n symbols. */
  function CountsOf(lens: seq<int>, max: nat, n: nat): (c: seq<int>)
    requires n <= |lens|
    ensures |c| == max + 1 && c[0] == 0
    ensures forall b :: 1 <= b <= max ==> c[b] == CountOf(lens, n, b)
  {
    seq(max + 1, b requires 0 <= b => if b == 0 then 0 else CountOf(lens, n, b))
  }

  lemma {:induction false} KraftFrame(c: seq<int>, d: seq<int>, max: nat, k: nat)
    requires k <= |c| && k <= |d| && k <= max + 1 && forall b :: 0 <= b < k ==> c[b] == d[b]
    ensures Kraft(c, max, k) == Kraft(d, max, k)
    decreases k
  {
    if k > 0 {
      KraftFrame(c, d, max, k - 1);
    }
  }

  lemma {:induction false} CodeSpaceOfCounts(lens: seq<int>, max: nat, n: nat)
    requires n <= |lens| && LengthsUpTo(lens, max)
    ensures Kraft(CountsOf(lens, max, n), max, max + 1) == CodeSpace(lens, max, n)
    decreases n
  {
    if n == 0 {
      OnlyLongest(CountsOf(lens, max, 0), max, max);
    } else {
      CodeSpaceOfCounts(lens, max, n - 1);
      var c, b := CountsOf(lens, max, n - 1), lens[n - 1];
      if b == 0 {
        assert CountsOf(lens, max, n) == c;
      } else {
        assert CountsOf(lens, max, n) == c[b := c[b] + 1];
        KraftUpdate(c, max, max + 1, b, c[b] + 1);
        assert (c[b] + 1 - c[b]) * Pow2(max - b) == Pow2(max - b);
      }
    }
  }

  /** A histogram weighs as much as the lengths it counts. */
  lemma KraftOfLengths(count: seq<int>, lens: seq<int>, max: nat)
    requires Counts(count, lens, max) && LengthsUpTo(lens, max)
    ensures Kraft(count, max, max + 1) == CodeSpace(lens, max, |lens|)
  {
    KraftFrame(count, CountsOf(lens, max, |lens|), max, max + 1);
    CodeSpaceOfCounts(lens, max, |lens|);
  }
}
