/**
 Limiting code lengths: when leaves have been cut off at the maximal length, shorter codes
 are lengthened one after the other until the lengths describe a complete code again.
 */
module LengthLimit {
  import opened Arithmetic

  /** The Kraft sum of the first k entries of a length histogram, in units of 2^-max. */
  function Kraft(count: seq<int>, max: nat, k: nat): int
    requires k <= |count| && k <= max + 1
  {
    if k == 0 then 0 else Kraft(count, max, k - 1) + count[k - 1] * Pow2(max - (k - 1))
  }

  function Total(count: seq<int>, k: nat): int
    requires k <= |count|
  {
    if k == 0 then 0 else Total(count, k - 1) + count[k - 1]
  }

  lemma {:induction false} TotalIsNatural(count: seq<int>, k: nat)
    requires k <= |count| && forall b :: 0 <= b < k ==> count[b] >= 0
    ensures Total(count, k) >= 0
    decreases k
  {
    if k > 0 {
      TotalIsNatural(count, k - 1);
    }
  }

  lemma {:induction false} KraftUpdate(count: seq<int>, max: nat, k: nat, b: nat, v: int)
    requires k <= |count| && k <= max + 1 && b < |count| && b <= max
    ensures Kraft(count[b := v], max, k) ==
            Kraft(count, max, k) + (if b < k then (v - count[b]) * Pow2(max - b) else 0)
    decreases k
  {
    if k > 0 {
      KraftUpdate(count, max, k - 1, b, v);
    }
  }

  lemma {:induction false} TotalUpdate(count: seq<int>, k: nat, b: nat, v: int)
    requires k <= |count| && b < |count|
    ensures Total(count[b := v], k) == Total(count, k) + (if b < k then v - count[b] else 0)
    decreases k
  {
    if k > 0 {
      TotalUpdate(count, k - 1, b, v);
    }
  }

  /** One leaf of length b moves down; its new brother comes from the overlong ones. */
  function Moved(count: seq<int>, max: nat, b: nat): seq<int>
    requires b < max < |count|
  {
    var c1 := count[b := count[b] - 1];
    var c2 := c1[b + 1 := c1[b + 1] + 2];
    c2[max := c2[max] - 1]
  }

  /** Such a move lowers the Kraft sum by exactly one unit and keeps the number of leaves. */
  lemma {:induction false} MoveLowersKraft(count: seq<int>, max: nat, b: nat)
    requires b < max < |count|
    ensures Kraft(Moved(count, max, b), max, max + 1) == Kraft(count, max, max + 1) - 1
    ensures Total(Moved(count, max, b), max + 1) == Total(count, max + 1)
  {
    var c1 := count[b := count[b] - 1];
    var c2 := c1[b + 1 := c1[b + 1] + 2];
    KraftUpdate(count, max, max + 1, b, count[b] - 1);
    KraftUpdate(c1, max, max + 1, b + 1, c1[b + 1] + 2);
    KraftUpdate(c2, max, max + 1, max, c2[max] - 1);
    TotalUpdate(count, max + 1, b, count[b] - 1);
    TotalUpdate(c1, max + 1, b + 1, c1[b + 1] + 2);
    TotalUpdate(c2, max + 1, max, c2[max] - 1);
    assert Pow2(max - b) == 2 * Pow2(max - b - 1);
    assert (count[b] - 1 - count[b]) * Pow2(max - b) + Pow2(max - b) == 0;
    assert (c1[b + 1] + 2 - c1[b + 1]) * Pow2(max - (b + 1)) == 2 * Pow2(max - b - 1);
    assert Pow2(max - max) == 1;
  }

  /** When only codes of the maximal length are in use, the Kraft sum is their number. */
  lemma {:induction false} OnlyLongest(count: seq<int>, max: nat, k: nat)
    requires k <= max < |count|
    requires forall b :: 0 <= b < k ==> count[b] == 0
    ensures Kraft(count, max, k) == 0 && Total(count, k) == 0
    decreases k
  {
    if k > 0 {
      OnlyLongest(count, max, k - 1);
    }
  }

  /** As long as the Kraft sum exceeds what the leaves could weigh at the bottom, some code is shorter. */
  lemma SomeShorterCode(count: seq<int>, max: nat)
    requires 1 <= max < |count|
    requires Kraft(count, max, max + 1) > Pow2(max) >= Total(count, max + 1)
    ensures exists b :: 0 <= b < max && count[b] != 0
  {
    if forall b :: 0 <= b < max ==> count[b] == 0 {
      OnlyLongest(count, max, max);
    }
  }

  /** The greatest length up to b that is in use, or 0. */
  function Shorter(count: seq<int>, b: nat): (r: nat)
    requires b < |count|
    ensures r <= b
  {
    if b == 0 || count[b] != 0 then b else Shorter(count, b - 1)
  }

  /** The histogram after all moves: each time the longest of the shorter codes makes room. */
  function Repaired(count: seq<int>, max: nat, overflow: int): (r: seq<int>)
    requires 1 <= max < |count|
    ensures |r| == |count|
    decreases overflow
  {
    if overflow <= 0 then count else Repaired(Moved(count, max, Shorter(count, max - 1)), max, overflow - 2)
  }

  /** A histogram with `overflow` half units too many, and enough leaves at the bottom to make up for them. */
  ghost predicate Repairable(count: seq<int>, max: nat, overflow: int) {
    && 1 <= max < |count| && overflow >= 0 && count[0] == 0 && (forall b :: 0 <= b <= max ==> count[b] >= 0)
    && 2 * Kraft(count, max, max + 1) == 2 * Pow2(max) + overflow && Total(count, max + 1) <= Pow2(max)
    && 2 * count[max] >= overflow + 2
  }

  lemma {:induction false} ShorterIsUsed(count: seq<int>, b: nat, c: nat)
    requires c <= b < |count| && count[c] != 0
    ensures c <= Shorter(count, b) && count[Shorter(count, b)] != 0
    decreases b
  {
    if count[b] == 0 {
      ShorterIsUsed(count, b - 1, c);
    }
  }

  /** Each move takes two half units and leaves a histogram of as many codes. */
  lemma {:induction false} MoveRepairs(count: seq<int>, max: nat, overflow: int)
    requires Repairable(count, max, overflow) && overflow > 0
    ensures var b := Shorter(count, max - 1);
            && 1 <= b < max && count[b] > 0 && Repairable(Moved(count, max, b), max, overflow - 2)
            && Total(Moved(count, max, b), max + 1) == Total(count, max + 1)
            && forall c :: max < c < |count| ==> Moved(count, max, b)[c] == count[c]
  {
    hide Kraft, Total, Pow2;
    SomeShorterCode(count, max);
    var c :| 0 <= c < max && count[c] != 0;
    ShorterIsUsed(count, max - 1, c);
    MoveLowersKraft(count, max, Shorter(count, max - 1));
  }

  /** Moves one leaf of the longest of the shorter codes down. */
  method MoveOne(blCount: array<int>, maxLength: int)
    requires 1 <= maxLength < blCount.Length
    requires var b := Shorter(blCount[..], maxLength - 1); b >= 1 && blCount[b] != 0
    modifies blCount
    ensures blCount[..] == Moved(old(blCount[..]), maxLength, Shorter(old(blCount[..]), maxLength - 1))
  {
    ghost var count := blCount[..];
    var bits := maxLength - 1;
    while blCount[bits] == 0
      invariant 1 <= bits < maxLength && Shorter(count, maxLength - 1) == Shorter(count, bits)
      decreases bits
    {
      bits := bits - 1;
    }
    blCount[bits] := blCount[bits] - 1;
    blCount[bits + 1] := blCount[bits + 1] + 2;
    blCount[maxLength] := blCount[maxLength] - 1;
  }

  /** Repairs the histogram until it is that of a complete code again. */
  method RepairCounts(blCount: array<int>, maxLength: int, overlong: int)
    requires maxLength >= 1 && Repairable(blCount[..], maxLength, overlong) && overlong > 0
    modifies blCount
    ensures blCount[..] == Repaired(old(blCount[..]), maxLength, overlong)
    ensures Kraft(blCount[..], maxLength, maxLength + 1) == Pow2(maxLength)
    ensures Total(blCount[..], maxLength + 1) == old(Total(blCount[..], maxLength + 1))
    ensures forall b :: 0 <= b <= maxLength ==> blCount[b] >= 0
    ensures blCount[0] == 0
    ensures forall b :: maxLength < b < blCount.Length ==> blCount[b] == old(blCount[b])
  {
    hide Kraft, Total, Pow2, Moved;
    var overflow := overlong;
    while overflow > 0
      invariant Repairable(blCount[..], maxLength, overflow)
      invariant Repaired(blCount[..], maxLength, overflow) == Repaired(old(blCount[..]), maxLength, overlong)
      invariant Total(blCount[..], maxLength + 1) == old(Total(blCount[..], maxLength + 1))
      invariant forall b :: maxLength < b < blCount.Length ==> blCount[b] == old(blCount[b])
    {
      ghost var count := blCount[..];
      MoveRepairs(count, maxLength, overflow);
      MoveOne(blCount, maxLength);
      overflow := overflow - 2;
    }
  }
}
