/** The fixed codes (section 3.2.6 of RFC 1951) and the static trees the encoder builds for them. */
module FixedCodes {
  import opened Arithmetic
  import opened BitStrings
  import opened SymbolLengths
  import opened CanonicalCodes
  import opened PrefixCodes
  import opened BlockEncoder

  const FIXED_CODES := 288
  const FIXED_DISTS := 30

  /** The length of a literal or length symbol in the fixed code. */
  function FixedLength(n: int): int {
    if n <= 143 then 8 else if n <= 255 then 9 else if n <= 279 then 7 else 8
  }

  function FixedLens(): (lens: seq<int>)
    ensures |lens| == FIXED_CODES && forall n :: 0 <= n < FIXED_CODES ==> lens[n] == FixedLength(n)
  {
    seq(FIXED_CODES, n => FixedLength(n))
  }

  /** All distance symbols have five bits. */
  function FixedDists(): (lens: seq<int>)
    ensures |lens| == FIXED_DISTS && forall n :: 0 <= n < FIXED_DISTS ==> lens[n] == 5
  {
    seq(FIXED_DISTS, _ => 5)
  }

  lemma {:induction false} SpaceOfStretch(lens: seq<int>, max: nat, i: nat, j: nat, b: nat)
    requires i <= j <= |lens| && LengthsUpTo(lens, max) && 0 < b <= max && forall n :: i <= n < j ==> lens[n] == b
    ensures CodeSpace(lens, max, j) == CodeSpace(lens, max, i) + (j - i) * Pow2(max - b)
    decreases j
  {
    if i < j {
      SpaceOfStretch(lens, max, i, j - 1, b);
      assert (j - i) * Pow2(max - b) == (j - 1 - i) * Pow2(max - b) + Pow2(max - b);
    }
  }

  lemma {:induction false} CountOfStretch(lens: seq<int>, i: nat, j: nat, b: int, c: int)
    requires i <= j <= |lens| && forall n :: i <= n < j ==> lens[n] == b
    ensures CountOf(lens, j, c) == CountOf(lens, i, c) + if c == b then j - i else 0
    decreases j
  {
    if i < j {
      CountOfStretch(lens, i, j - 1, b, c);
    }
  }

  lemma FixedPowers()
    ensures Pow2(15) == 32768 && Pow2(6) == 64 && Pow2(7) == 128 && Pow2(8) == 256 && Pow2(10) == 1024
  {
    assert Pow2(5) == 32;
    assert Pow2(10) == 1024;
  }

  /** The fixed code fills the code space exactly. */
  lemma FixedIsCode()
    ensures IsCode(FixedLens()) && CodeSpace(FixedLens(), MAX_BITS, FIXED_CODES) == Pow2(MAX_BITS)
  {
    hide Pow2, CodeSpace;
    var lens := FixedLens();
    FixedPowers();
    NoSpace(lens);
    SpaceOfStretch(lens, MAX_BITS, 0, 144, 8);
    SpaceOfStretch(lens, MAX_BITS, 144, 256, 9);
    SpaceOfStretch(lens, MAX_BITS, 256, 280, 7);
    SpaceOfStretch(lens, MAX_BITS, 280, 288, 8);
  }

  lemma NoSpace(lens: seq<int>)
    requires LengthsUpTo(lens, MAX_BITS)
    ensures CodeSpace(lens, MAX_BITS, 0) == 0
  {
  }

  lemma FixedDistsAreCode()
    ensures IsCode(FixedDists())
  {
    hide Pow2, CodeSpace;
    FixedPowers();
    NoSpace(FixedDists());
    SpaceOfStretch(FixedDists(), MAX_BITS, 0, FIXED_DISTS, 5);
  }

  /** How often each length occurs in the fixed code. */
  lemma {:induction false} FixedCounts(b: int)
    ensures CountOf(FixedLens(), FIXED_CODES, b) == if b == 8 then 152 else if b == 9 then 112 else if b == 7 then 24 else 0
  {
    var lens := FixedLens();
    CountOfStretch(lens, 0, 144, 8, b);
    CountOfStretch(lens, 144, 256, 9, b);
    CountOfStretch(lens, 256, 280, 7, b);
    CountOfStretch(lens, 280, 288, 8, b);
  }

  /** Gives the symbols up to `last` the same length and counts them. */
  method FillStretch(dl: array<int>, blCount: array<int>, from: int, last: int, b: int) returns (n: int)
    requires dl != blCount && blCount.Length == MAX_BITS + 1 && 0 <= from <= last + 1 <= dl.Length && 0 <= b <= MAX_BITS
    modifies dl, blCount
    ensures n == last + 1
    ensures forall i :: 0 <= i < from ==> dl[i] == old(dl[i])
    ensures forall i :: from <= i < n ==> dl[i] == b
    ensures blCount[..] == old(blCount[..])[b := old(blCount[b]) + (last + 1 - from)]
  {
    n := from;
    while n <= last
      invariant from <= n <= last + 1
      invariant forall i :: 0 <= i < from ==> dl[i] == old(dl[i])
      invariant forall i :: from <= i < n ==> dl[i] == b
      invariant blCount[..] == old(blCount[..])[b := old(blCount[b]) + (n - from)]
    {
      dl[n] := b;
      n := n + 1;
      blCount[b] := blCount[b] + 1;
    }
  }

  /** Gives all symbols their fixed lengths and counts them. */
  method FillFixed(dl: array<int>, blCount: array<int>)
    requires dl != blCount && dl.Length == FIXED_CODES && blCount.Length == MAX_BITS + 1
    requires forall b :: 0 <= b <= MAX_BITS ==> blCount[b] == 0
    modifies dl, blCount
    ensures dl[..] == FixedLens() && FixedHistogramIs(blCount[..])
  {
    var n := FillStretch(dl, blCount, 0, 143, 8);
    n := FillStretch(dl, blCount, n, 255, 9);
    n := FillStretch(dl, blCount, n, 279, 7);
    n := FillStretch(dl, blCount, n, 287, 8);
  }

  /** Builds the static literal tree. */
  method BuildStaticTree() returns (fc: array<int>, dl: array<int>)
    ensures dl[..] == FixedLens() && SendsCode(fc[..], dl[..], FixedLens())
    ensures fresh(fc) && fresh(dl)
  {
    hide IsCode, SendsCode, FixedHistogramIs, FixedLens, CountsOf, Pow2, CodeSpace, FirstCode, CountOf, SentCode;
    fc, dl := new int[FIXED_CODES], new int[FIXED_CODES];
    var blCount := new int[MAX_BITS + 1](_ => 0);
    FillFixed(dl, blCount);
    ghost var count, lens := blCount[..], FixedLens();
    FixedHistogram(count);
    FixedIsCode();
    UpToMaxBits(lens);
    assert dl[..FIXED_CODES] == dl[..];
    GenCodes(dl, fc, blCount, FIXED_CODES - 1, count, lens);
    GivenSends(fc[..], count, lens);
  }

  lemma UpToMaxBits(lens: seq<int>)
    requires IsCode(lens)
    ensures LengthsUpTo(lens, MAX_BITS)
  {
  }

  ghost predicate FixedHistogramIs(count: seq<int>) {
    && |count| == MAX_BITS + 1
    && forall b :: 0 <= b <= MAX_BITS ==> count[b] == if b == 8 then 152 else if b == 9 then 112 else if b == 7 then 24 else 0
  }

  lemma FixedHistogram(count: seq<int>)
    requires FixedHistogramIs(count)
    ensures NaturalCounts(count) && count == CountsOf(FixedLens(), MAX_BITS, FIXED_CODES)
  {
    forall b | 0 <= b <= MAX_BITS
      ensures count[b] == CountsOf(FixedLens(), MAX_BITS, FIXED_CODES)[b]
    {
      FixedCounts(b);
    }
  }

  /** Codes generated for lengths with their own histogram are the words of the code. */
  lemma GivenSends(fc: seq<int>, count: seq<int>, lens: seq<int>)
    requires IsCode(lens) && |fc| == |lens| && |count| == MAX_BITS + 1 && NaturalCounts(count)
    requires count == CountsOf(lens, MAX_BITS, |lens|)
    requires forall v :: 0 <= v < |lens| && Coded(lens, v) ==> fc[v] == SentCode(count, lens, v)
    ensures SendsCode(fc, lens, lens)
  {
    assert lens[..|lens|] == lens;
    forall n | Coded(lens, n)
      ensures CodeSent(fc, lens, lens, n)
    {
      SentIsWord(count, lens, |lens|, n);
    }
  }

  lemma NoShorterCodes(count: seq<int>, b: nat)
    requires b <= |count| && forall i :: 0 <= i < b ==> count[i] == 0
    ensures FirstCode(count, b) == 0
    decreases b
  {
    if b > 0 {
      NoShorterCodes(count, b - 1);
    }
  }

  /** The fixed code of a distance symbol is its number. */
  lemma FixedDistWord(n: int)
    requires 0 <= n < FIXED_DISTS
    ensures IsCode(FixedDists()) && Word(FixedDists(), n) == Code(n, 5)
  {
    hide Pow2, Code, CodeSpace, FirstCode;
    FixedDistsAreCode();
    var lens := FixedDists();
    var count := CountsOf(lens, MAX_BITS, |lens|);
    forall b | 0 <= b < 5
      ensures count[b] == 0
    {
      CountOfStretch(lens, 0, FIXED_DISTS, 5, b);
    }
    NoShorterCodes(count, 5);
    CountOfStretch(lens, 0, n, 5, 5);
  }

  /** Builds the static distance tree. */
  method BuildStaticDists() returns (fc: array<int>, dl: array<int>)
    ensures dl[..] == FixedDists() && SendsCode(fc[..], dl[..], FixedDists())
    ensures fresh(fc) && fresh(dl)
  {
    hide IsCode, Word, Pow2, Code, Reversed;
    FixedDistsAreCode();
    fc, dl := new int[FIXED_DISTS], new int[FIXED_DISTS];
    ghost var lens := FixedDists();
    var n := 0;
    while n < FIXED_DISTS
      invariant 0 <= n <= FIXED_DISTS
      invariant forall i :: 0 <= i < n ==> dl[i] == 5 && fc[i] == Reversed(i, 5)
    {
      dl[n] := 5;
      fc[n] := BiReverse(n, 5);
      n := n + 1;
    }
    assert dl[..] == lens;
    forall i | Coded(lens, i)
      ensures CodeSent(fc[..], dl[..], lens, i)
    {
      FixedDistWord(i);
      ReversedIsCode(i, 5);
    }
  }
}
