/**
 Canonical prefix codes (section 3.2.2 of RFC 1951): the codes follow from the code lengths
 alone. Codes are compared left-justified to `max` bits.
 */
module CanonicalCodes {
  import opened Arithmetic
  import opened BitStrings
  import opened LengthLimit
  import opened SymbolLengths

  const MAX_BITS := 15

  /** The first code of length b. */
  function FirstCode(count: seq<int>, b: nat): int
    requires b <= |count|
  {
    if b == 0 then 0 else 2 * (FirstCode(count, b - 1) + count[b - 1])
  }

  /** Left-justified, the first code of length b stands where the shorter codes end. */
  lemma {:induction false} FirstCodeWeighs(count: seq<int>, max: nat, b: nat)
    requires b <= max < |count|
    ensures FirstCode(count, b) * Pow2(max - b) == Kraft(count, max, b)
    decreases b
  {
    if b > 0 {
      FirstCodeWeighs(count, max, b - 1);
      var p, c := Pow2(max - b), FirstCode(count, b - 1) + count[b - 1];
      DoubleProduct(p, c);
      assert Pow2(max - (b - 1)) == 2 * p;
      assert (FirstCode(count, b - 1) + count[b - 1]) * (2 * p) == FirstCode(count, b - 1) * (2 * p) + count[b - 1] * (2 * p);
    }
  }

  /** Lengths that leave room for a prefix code, with their histogram. */
  ghost predicate Codable(count: seq<int>, lens: seq<int>, max: nat) {
    && Counts(count, lens, max) && LengthsUpTo(lens, max)
    && Kraft(count, max, max + 1) <= Pow2(max)
  }

  /** Symbol n has a code. */
  predicate Coded(lens: seq<int>, n: int) {
    0 <= n < |lens| && lens[n] > 0
  }

  /** The code of symbol n. */
  function CodeValue(count: seq<int>, lens: seq<int>, n: int): int
    requires Coded(lens, n) && lens[n] < |count|
  {
    FirstCode(count, lens[n]) + CountOf(lens, n, lens[n])
  }

  /** The code of symbol n, left-justified. */
  ghost function Place(count: seq<int>, lens: seq<int>, max: nat, n: int): int
    requires Coded(lens, n) && lens[n] <= max < |count|
  {
    CodeValue(count, lens, n) * Pow2(max - lens[n])
  }

  lemma {:induction false} CountOfGrows(lens: seq<int>, n: nat, m: nat, b: int)
    requires n <= m <= |lens|
    ensures CountOf(lens, n, b) <= CountOf(lens, m, b)
    ensures n < m && lens[n] == b ==> CountOf(lens, n, b) < CountOf(lens, m, b)
    decreases m
  {
    if n < m {
      CountOfGrows(lens, n, m - 1, b);
    }
  }

  lemma {:induction false} KraftGrows(count: seq<int>, max: nat, j: nat, k: nat)
    requires j <= k <= max + 1 <= |count| && forall b :: 0 <= b <= max ==> count[b] >= 0
    ensures Kraft(count, max, j) <= Kraft(count, max, k)
    decreases k
  {
    if j < k {
      KraftGrows(count, max, j, k - 1);
      MulNonNegative(count[k - 1], Pow2(max - (k - 1)));
    }
  }

  lemma Spread(f: int, k: int, c: int, p: int)
    requires 0 <= k && k + 1 <= c && p >= 1
    ensures (f + k) * p == f * p + k * p && k * p >= 0
    ensures (f + k) * p + p <= f * p + c * p
  {
    MulMonotone(p, k + 1, c);
    MulNonNegative(k, p);
  }

  /** The codes of length b fill the space between the shorter and the longer codes. */
  lemma CodeLiesWithItsLength(count: seq<int>, lens: seq<int>, max: nat, n: int)
    requires Codable(count, lens, max) && Coded(lens, n)
    ensures var b := lens[n];
            && Kraft(count, max, b) <= Place(count, lens, max, n)
            && Place(count, lens, max, n) + Pow2(max - b) <= Kraft(count, max, b + 1)
            && Place(count, lens, max, n) == Kraft(count, max, b) + CountOf(lens, n, b) * Pow2(max - b)
  {
    var b := lens[n];
    FirstCodeWeighs(count, max, b);
    CountOfGrows(lens, n, |lens|, b);
    Spread(FirstCode(count, b), CountOf(lens, n, b), count[b], Pow2(max - b));
  }

  /** Shorter codes first, codes of the same length in the order of their symbols. */
  predicate Before(lens: seq<int>, n: int, m: int)
    requires Coded(lens, n) && Coded(lens, m)
  {
    lens[n] < lens[m] || (lens[n] == lens[m] && n < m)
  }

  /** Codes take up consecutive stretches in the canonical order. */
  lemma CodesInOrder(count: seq<int>, lens: seq<int>, max: nat, n: int, m: int)
    requires Codable(count, lens, max) && Coded(lens, n) && Coded(lens, m) && Before(lens, n, m)
    ensures Place(count, lens, max, n) + Pow2(max - lens[n]) <= Place(count, lens, max, m)
  {
    CodeLiesWithItsLength(count, lens, max, n);
    CodeLiesWithItsLength(count, lens, max, m);
    if lens[n] < lens[m] {
      KraftGrows(count, max, lens[n] + 1, lens[m]);
    } else {
      CountOfGrows(lens, n, m, lens[n]);
      Spread(0, CountOf(lens, n, lens[n]), CountOf(lens, m, lens[n]), Pow2(max - lens[n]));
    }
  }

  lemma Quotient(v: int, p: int, q: int)
    requires p >= 1 && 0 <= v * p && v * p + p <= q * p
    ensures 0 <= v < q
  {
    if v < 0 {
      MulMonotone(p, v, -1);
    } else if v >= q {
      MulMonotone(p, q, v);
    }
  }

  /** Every code fits its length. */
  lemma CodeFits(count: seq<int>, lens: seq<int>, max: nat, n: int)
    requires Codable(count, lens, max) && Coded(lens, n)
    ensures 0 <= CodeValue(count, lens, n) < Pow2(lens[n])
  {
    var b := lens[n];
    CodeLiesWithItsLength(count, lens, max, n);
    KraftGrows(count, max, b + 1, max + 1);
    KraftGrows(count, max, 0, b);
    Pow2Add(b, max - b);
    Quotient(CodeValue(count, lens, n), Pow2(max - b), Pow2(b));
  }

  lemma {:induction false} Pow2Add(a: nat, b: nat)
    ensures Pow2(a + b) == Pow2(a) * Pow2(b)
    decreases a
  {
    if a > 0 {
      Pow2Add(a - 1, b);
      DoubleProduct(Pow2(a - 1), Pow2(b));
    }
  }

  /** The code of symbol n as it is read from the stream. */
  ghost function CodeWord(count: seq<int>, lens: seq<int>, max: nat, n: int): seq<bool>
    requires Codable(count, lens, max) && Coded(lens, n)
  {
    CodeFits(count, lens, max, n);
    Code(CodeValue(count, lens, n), lens[n])
  }

  /** No code begins with another one. */
  lemma PrefixFree(count: seq<int>, lens: seq<int>, max: nat, n: int, m: int)
    requires Codable(count, lens, max) && Coded(lens, n) && Coded(lens, m) && n != m
    ensures !(CodeWord(count, lens, max, n) <= CodeWord(count, lens, max, m))
  {
    if CodeWord(count, lens, max, n) <= CodeWord(count, lens, max, m) {
      CodeFits(count, lens, max, n);
      CodeFits(count, lens, max, m);
      var a, b := lens[n], lens[m];
      var v, w := CodeValue(count, lens, n), CodeValue(count, lens, m);
      PrefixRange(v, a, w, b);
      Scale(v, w, Pow2(b - a), Pow2(max - b));
      Pow2Add(b - a, max - b);
      if Before(lens, n, m) {
        CodesInOrder(count, lens, max, n, m);
      } else {
        CodesInOrder(count, lens, max, m, n);
      }
    }
  }

  lemma Scale(v: nat, w: nat, p: nat, q: nat)
    requires p * v <= w < p * v + p && q >= 1
    ensures v * (p * q) <= w * q < v * (p * q) + p * q
  {
    MulMonotone(q, p * v, w);
    MulMonotone(q, w + 1, p * v + p);
    assert q * (p * v) == v * (p * q);
    assert q * (p * v + p) == v * (p * q) + p * q;
    assert q * (w + 1) == w * q + q;
  }

  lemma ScaledSum(p: int, a: int, c: int, q: int)
    ensures p * (a + c * q) == p * a + c * (p * q)
  {
    assert c * (p * q) == p * (c * q);
  }

  lemma {:induction false} KraftScales(count: seq<int>, max: nat, d: nat, k: nat)
    requires k <= |count| && k <= max + 1
    ensures Kraft(count, max + d, k) == Pow2(d) * Kraft(count, max, k)
    decreases k
  {
    if k > 0 {
      KraftScales(count, max, d, k - 1);
      Pow2Add(d, max - (k - 1));
      ScaledSum(Pow2(d), Kraft(count, max, k - 1), count[k - 1], Pow2(max - (k - 1)));
    }
  }

  lemma {:induction false} NoLongerCodes(count: seq<int>, max: nat, j: nat, k: nat)
    requires j <= k <= |count| && k <= max + 1 && forall b :: j <= b < k ==> count[b] == 0
    ensures Kraft(count, max, k) == Kraft(count, max, j)
    decreases k
  {
    if j < k {
      NoLongerCodes(count, max, j, k - 1);
    }
  }

  lemma {:induction false} NoSuchLength(lens: seq<int>, n: nat, max: nat, b: int)
    requires n <= |lens| && LengthsUpTo(lens, max) && b > max
    ensures CountOf(lens, n, b) == 0
    decreases n
  {
    if n > 0 {
      NoSuchLength(lens, n - 1, max, b);
    }
  }

  /** Lengths that can be coded within `max` bits can be coded within more. */
  lemma MoreBits(count: seq<int>, lens: seq<int>, max: nat, wide: nat)
    requires Codable(count, lens, max) && max <= wide < |count| && forall b :: max < b <= wide ==> count[b] == 0
    ensures Codable(count, lens, wide)
  {
    KraftScales(count, max, wide - max, max + 1);
    NoLongerCodes(count, wide, max + 1, wide + 1);
    Pow2Add(wide - max, max);
    MulMonotone(Pow2(wide - max), Kraft(count, max, max + 1), Pow2(max));
    forall b | 1 <= b <= wide
      ensures count[b] == CountOf(lens, |lens|, b)
    {
      if b > max {
        NoSuchLength(lens, |lens|, max, b);
      }
    }
  }

  /** The space taken by those of the first k symbols that come before symbol n. */
  ghost function SpaceBefore(lens: seq<int>, max: nat, n: int, k: nat): nat
    requires Coded(lens, n) && k <= |lens| && LengthsUpTo(lens, max)
  {
    if k == 0 then 0
    else
      SpaceBefore(lens, max, n, k - 1)
      + (if Coded(lens, k - 1) && Before(lens, k - 1, n) then Pow2(max - lens[k - 1]) else 0)
  }

  lemma {:induction false} SpaceOfFirst(lens: seq<int>, max: nat, n: int, k: nat)
    requires Coded(lens, n) && k <= |lens| && LengthsUpTo(lens, max)
    ensures var b := lens[n];
            SpaceBefore(lens, max, n, k) ==
            Kraft(CountsOf(lens, max, k), max, b) + CountOf(lens, if k <= n then k else n, b) * Pow2(max - b)
    decreases k
  {
    var b := lens[n];
    if k == 0 {
      OnlyLongest(CountsOf(lens, max, 0), max, b);
    } else {
      SpaceOfFirst(lens, max, n, k - 1);
      var c, l := CountsOf(lens, max, k - 1), lens[k - 1];
      if l == 0 {
        assert CountsOf(lens, max, k) == c;
      } else {
        assert CountsOf(lens, max, k) == c[l := c[l] + 1];
        KraftUpdate(c, max, b, l, c[l] + 1);
        assert (c[l] + 1 - c[l]) * Pow2(max - l) == Pow2(max - l);
        assert (CountOf(lens, k - 1, b) + 1) * Pow2(max - b) == CountOf(lens, k - 1, b) * Pow2(max - b) + Pow2(max - b);
      }
    }
  }

  /** The canonical code: each symbol's code begins where the codes before it, laid end to end, stop. */
  lemma CodeIsCanonical(count: seq<int>, lens: seq<int>, max: nat, n: int)
    requires Codable(count, lens, max) && Coded(lens, n)
    ensures Place(count, lens, max, n) == SpaceBefore(lens, max, n, |lens|)
  {
    CodeLiesWithItsLength(count, lens, max, n);
    SpaceOfFirst(lens, max, n, |lens|);
    KraftFrame(count, CountsOf(lens, max, |lens|), max, lens[n]);
  }

  /** Codes of the same length, with no such code between their symbols, are consecutive. */
  lemma ConsecutiveCodes(count: seq<int>, lens: seq<int>, max: nat, n: int, m: int)
    requires Codable(count, lens, max) && Coded(lens, n) && Coded(lens, m) && n < m && lens[n] == lens[m]
    requires forall k :: n < k < m ==> lens[k] != lens[n]
    ensures CodeValue(count, lens, m) == CodeValue(count, lens, n) + 1
  {
    NoneBetween(lens, n + 1, m, lens[n]);
  }

  lemma {:induction false} NoneBetween(lens: seq<int>, n: nat, m: nat, b: int)
    requires n <= m <= |lens| && forall k :: n <= k < m ==> lens[k] != b
    ensures CountOf(lens, n, b) == CountOf(lens, m, b)
    decreases m
  {
    if n < m {
      NoneBetween(lens, n, m - 1, b);
    }
  }

  /** The first code of every length. */
  method StartCodes(blCount: array<int>) returns (nextCode: array<int>)
    requires blCount.Length == MAX_BITS + 1
    ensures fresh(nextCode) && nextCode.Length == MAX_BITS + 1
    ensures forall b :: 1 <= b <= MAX_BITS ==> nextCode[b] == FirstCode(blCount[..], b)
  {
    nextCode := new int[MAX_BITS + 1];
    var code, bits := 0, 1;
    while bits <= MAX_BITS
      invariant 1 <= bits <= MAX_BITS + 1 && code == FirstCode(blCount[..], bits - 1)
      invariant forall b :: 1 <= b < bits ==> nextCode[b] == FirstCode(blCount[..], b)
    {
      code := (code + blCount[bits - 1]) * 2;
      nextCode[bits] := code;
      bits := bits + 1;
    }
  }

  ghost predicate NaturalCounts(count: seq<int>) {
    forall b :: 0 <= b < |count| ==> count[b] >= 0
  }

  lemma {:induction false} FirstCodeIsNatural(count: seq<int>, b: nat)
    requires NaturalCounts(count) && b <= |count|
    ensures FirstCode(count, b) >= 0
    decreases b
  {
    if b > 0 {
      FirstCodeIsNatural(count, b - 1);
    }
  }

  /** The reversed code of symbol n, as it is handed to the bit writer. */
  ghost function SentCode(count: seq<int>, lens: seq<int>, n: int): nat
    requires Coded(lens, n) && lens[n] < |count| && NaturalCounts(count)
  {
    FirstCodeIsNatural(count, lens[n]);
    Reversed(CodeValue(count, lens, n), lens[n])
  }

  /** The next code of every length, after the first n symbols. */
  ghost predicate NextCodes(next: seq<int>, count: seq<int>, lens: seq<int>, n: int) {
    && |next| == |count| == MAX_BITS + 1 && 0 <= n <= |lens|
    && forall b :: 1 <= b <= MAX_BITS ==> next[b] == FirstCode(count, b) + CountOf(lens, n, b)
  }

  /** The first n symbols have got their codes; all other entries are as before. */
  ghost predicate Given(fc0: seq<int>, fc: seq<int>, count: seq<int>, lens: seq<int>, n: int) {
    && 0 <= n <= |lens| <= |fc| == |fc0| && |count| == MAX_BITS + 1 && LengthsUpTo(lens, MAX_BITS) && NaturalCounts(count)
    && (forall v :: 0 <= v < |fc| && (v >= n || !Coded(lens, v)) ==> fc[v] == fc0[v])
    && (forall v :: 0 <= v < n && Coded(lens, v) ==> fc[v] == SentCode(count, lens, v))
  }

  /** Gives one symbol its code. */
  method GenCode(n: int, dl: array<int>, fc: array<int>, nextCode: array<int>,
                 ghost fc0: seq<int>, ghost count: seq<int>, ghost lens: seq<int>)
    requires fc != dl && fc != nextCode && 0 <= n < |lens| <= dl.Length == fc.Length && lens == dl[..|lens|]
    requires nextCode != dl && nextCode.Length == MAX_BITS + 1
    requires NextCodes(nextCode[..], count, lens, n) && Given(fc0, fc[..], count, lens, n)
    modifies fc, nextCode
    ensures NextCodes(nextCode[..], count, lens, n + 1) && Given(fc0, fc[..], count, lens, n + 1)
  {
    var len := dl[n];
    assert len == lens[n];
    if len == 0 {
      return;
    }
    FirstCodeIsNatural(count, len);
    fc[n] := BiReverse(nextCode[len], len);
    nextCode[len] := nextCode[len] + 1;
  }

  /** Gives every symbol with a length its code. */
  method GenCodes(dl: array<int>, fc: array<int>, blCount: array<int>, maxCode: int,
                  ghost count: seq<int>, ghost lens: seq<int>)
    requires dl != fc && fc != blCount && 0 <= maxCode < dl.Length == fc.Length
    requires blCount.Length == MAX_BITS + 1 && count == blCount[..] && lens == dl[..maxCode + 1]
    requires NaturalCounts(count) && LengthsUpTo(lens, MAX_BITS)
    modifies fc
    ensures Given(old(fc[..]), fc[..], count, lens, maxCode + 1)
  {
    var nextCode := StartCodes(blCount);
    var n := 0;
    while n <= maxCode
      invariant 0 <= n <= maxCode + 1
      invariant NextCodes(nextCode[..], count, lens, n)
      invariant Given(old(fc[..]), fc[..], count, lens, n)
    {
      GenCode(n, dl, fc, nextCode, old(fc[..]), count, lens);
      n := n + 1;
    }
  }
}
