/**
 The lengths computed anew after some were cut off: from the lightest leaf on, the repaired counts are
 used up, the longest lengths first. They are charged for, but they do not reach the table of lengths.
 */
module RenewedLengths {
  import opened CodeLengths
  import opened LengthLimit
  import opened LengthCounts
  import opened LengthPass
  import opened HuffmanShape
  import opened Sums
  import opened TreeSymbols

  /** The length of leaf j, counted from the lightest, when count[b] leaves have length b. */
  function LengthAt(count: seq<int>, max: nat, j: int): (b: nat)
    requires max < |count|
    ensures b <= max
  {
    if max == 0 || j < count[max] then max else LengthAt(count, max - 1, j - count[max])
  }

  lemma {:induction false} LengthAtIs(count: seq<int>, max: nat, bits: nat, j: int)
    requires bits <= max < |count| && forall b :: 0 <= b <= max ==> count[b] >= 0
    requires Total(count, max + 1) - Total(count, bits + 1) <= j < Total(count, max + 1) - Total(count, bits)
    ensures LengthAt(count, max, j) == bits
    decreases max
  {
    if bits < max {
      TotalGrows(count, bits + 1, max);
      LengthAtIs(count, max - 1, bits, j - count[max]);
    }
  }

  lemma {:induction false} TotalGrows(count: seq<int>, k: nat, n: nat)
    requires k <= n <= |count| && forall b :: 0 <= b < n ==> count[b] >= 0
    ensures Total(count, k) <= Total(count, n)
    decreases n
  {
    if k < n {
      TotalGrows(count, k, n - 1);
    }
  }

  /** The new length of the leaf at position i of the tree: leaves lie the lighter, the further back they are. */
  ghost function NewLength(s: Shape, count: seq<int>, max: nat, i: nat): (b: nat)
    requires i < s.Size() && max < |count|
    ensures b <= max
  {
    LengthAt(count, max, Leaves(s, s.Size()) - Leaves(s, i + 1))
  }

  /** What the new lengths of the leaves from position k on cost more than the old ones. */
  ghost function Renewal(order: seq<int>, s: Shape, f: seq<int>, dl: seq<int>, count: seq<int>, max: nat, k: nat): int
    requires s.Size() == |order| && k <= |order| && max < |count| && Places(order, |f|) && Places(order, |dl|)
    decreases |order| - k
  {
    if k == |order| then 0
    else
      Renewal(order, s, f, dl, count, max, k + 1)
      + (if s.leaf[k] then (NewLength(s, count, max, k) - dl[order[k]]) * f[order[k]] else 0)
  }

  /** The lengths after the leaves from position k on got new ones; they are put where the counts were. */
  ghost predicate Renewed(order: seq<int>, s: Shape, f: seq<int>, fc: seq<int>, dl: seq<int>, count: seq<int>, max: nat, k: nat)
    requires s.Size() == |order| && max < |count| && Places(order, |f|) && Places(order, |dl|)
  {
    && |fc| == |f|
    && (forall i :: 0 <= i < |order| ==> fc[order[i]] == Put(order, s, f, dl, count, max, k, i))
    && (forall v :: 0 <= v < |f| && v !in order ==> fc[v] == f[v])
  }

  ghost function Put(order: seq<int>, s: Shape, f: seq<int>, dl: seq<int>, count: seq<int>, max: nat, k: nat, i: nat): int
    requires s.Size() == |order| && max < |count| && Places(order, |f|) && Places(order, |dl|) && i < |order|
  {
    if i >= k && s.leaf[i] && dl[order[i]] != NewLength(s, count, max, i) then NewLength(s, count, max, i) else f[order[i]]
  }

  /** One leaf more. */
  lemma {:induction false} RenewNext(order: seq<int>, s: Shape, f: seq<int>, fc: seq<int>, dl: seq<int>, count: seq<int>, max: nat, k: nat,
                                     fc': seq<int>, bits: int)
    requires s.Size() == |order| && max < |count| && Places(order, |f|) && Places(order, |dl|) && NoRepeats(order)
    requires k < |order| && Renewed(order, s, f, fc, dl, count, max, k + 1)
    requires if s.leaf[k] && dl[order[k]] != bits then fc' == fc[order[k] := bits] else fc' == fc
    requires s.leaf[k] ==> bits == NewLength(s, count, max, k)
    ensures fc[order[k]] == f[order[k]] && Renewed(order, s, f, fc', dl, count, max, k)
    ensures Renewal(order, s, f, dl, count, max, k)
         == Renewal(order, s, f, dl, count, max, k + 1) + (if s.leaf[k] then (bits - dl[order[k]]) * f[order[k]] else 0)
  {
    hide NewLength;
    forall i | 0 <= i < |order|
      ensures fc'[order[i]] == Put(order, s, f, dl, count, max, k, i)
    {
      assert fc[order[i]] == Put(order, s, f, dl, count, max, k + 1, i);
    }
    forall v | 0 <= v < |f| && v !in order
      ensures fc'[v] == f[v]
    {
    }
  }

  /** In front of the first leaf there is nothing to renew. */
  lemma {:induction false} RenewalEnds(order: seq<int>, s: Shape, f: seq<int>, fc: seq<int>, dl: seq<int>, count: seq<int>, max: nat, k: nat)
    requires s.Size() == |order| && max < |count| && Places(order, |f|) && Places(order, |dl|)
    requires k <= |order| && Leaves(s, k) == 0 && Renewed(order, s, f, fc, dl, count, max, k)
    ensures Renewed(order, s, f, fc, dl, count, max, 0)
    ensures Renewal(order, s, f, dl, count, max, 0) == Renewal(order, s, f, dl, count, max, k)
    decreases k
  {
    if k > 0 {
      forall i | 0 <= i < |order|
        ensures fc[order[i]] == Put(order, s, f, dl, count, max, k - 1, i)
      {
        assert fc[order[i]] == Put(order, s, f, dl, count, max, k, i);
      }
      RenewalEnds(order, s, f, fc, dl, count, max, k - 1);
    }
  }

  lemma NothingRenewed(order: seq<int>, s: Shape, f: seq<int>, dl: seq<int>, count: seq<int>, max: nat)
    requires s.Size() == |order| && max < |count| && Places(order, |f|) && Places(order, |dl|)
    ensures Renewed(order, s, f, f, dl, count, max, |order|) && Renewal(order, s, f, dl, count, max, |order|) == 0
  {
  }

  /** With n leaves of length `bits` still to come, the leaf at position k, if it is one, is the next of them. */
  lemma NextLength(s: Shape, count: seq<int>, max: nat, k: nat, bits: nat, n: int)
    requires k < s.Size() && 1 <= bits <= max < |count| && 0 < n <= count[bits]
    requires (forall b :: 0 <= b <= max ==> count[b] >= 0) && Total(count, max + 1) == Leaves(s, s.Size())
    requires Leaves(s, k + 1) == Total(count, bits) + n
    ensures s.leaf[k] ==> bits == NewLength(s, count, max, k)
  {
    LengthAtIs(count, max, bits, Leaves(s, s.Size()) - Leaves(s, k + 1));
  }

  lemma GrownHasNoRepeats(order: seq<int>, s: Shape, elems: int, dl: seq<int>)
    requires Grown(order, s, elems, dl)
    ensures NoRepeats(order) && Places(order, |dl|)
  {
    forall i, j | 0 <= i < j < |order|
      ensures order[i] != order[j]
    {
      if i > 0 {
        assert Hung(order, s, dl, i);
      }
      assert Alone(order, i);
    }
  }

  /** The new lengths by symbol. */
  ghost function NewTable(order: seq<int>, s: Shape, elems: nat, count: seq<int>, max: nat): (t: seq<int>)
    requires s.Size() == |order| && max < |count|
    ensures |t| == elems
    ensures forall v :: 0 <= v < elems ==> t[v] == if v in order then NewLength(s, count, max, IndexOf(order, v)) else 0
  {
    seq(elems, v requires 0 <= v < elems => if v in order then NewLength(s, count, max, IndexOf(order, v)) else 0)
  }

  /** The new lengths with extra bits, by position. */
  ghost predicate NewAlong(order: seq<int>, s: Shape, count: seq<int>, max: nat, extra: seq<int>, per: seq<int>)
    requires s.Size() == |order| && max < |count|
  {
    forall i :: 0 <= i < |order| && s.leaf[i] ==>
      0 <= order[i] < |per| && order[i] < |extra| && per[order[i]] == NewLength(s, count, max, i) + extra[order[i]]
  }

  lemma {:induction false} CostOfStep(f: int, cut: int, renewed: int, extra: int)
    ensures f * (cut + extra) + (renewed - cut) * f == f * (renewed + extra)
  {
    assert (renewed - cut) * f == f * renewed - f * cut;
    assert f * (cut + extra) == f * cut + f * extra && f * (renewed + extra) == f * renewed + f * extra;
  }

  /** Charging for the lengths cut off, and then for the difference, is charging for the new lengths. */
  lemma {:induction false} RenewedCost(order: seq<int>, s: Shape, elems: int, max: nat, dl: seq<int>, f: seq<int>, extra: seq<int>, count: seq<int>,
                                       per: seq<int>, k: nat)
    requires Finished(order, s, elems, max, dl) && |f| == |dl| && |extra| == elems == |per| && k <= |order| && max < |count|
    requires NewAlong(order, s, count, max, extra, per)
    ensures BitCost(order, s, max, f, extra, k) + Renewal(order, s, f, dl, count, max, 0)
         == FlatCost(order, s, f, per, k) + Renewal(order, s, f, dl, count, max, k)
    decreases k
  {
    hide NewLength, CutDepth, Shape.WellFormed;
    if k > 0 {
      var i := k - 1;
      RenewedCost(order, s, elems, max, dl, f, extra, count, per, i);
      if s.leaf[i] {
        assert Done(order, s, max, dl, i);
        CostOfStep(f[order[i]], dl[order[i]], NewLength(s, count, max, i), extra[order[i]]);
      }
    }
  }

  /** What is charged in the end for a tree with lengths cut off. */
  lemma {:induction false} RenewedPrice(order: seq<int>, s: Shape, elems: int, max: nat, dl: seq<int>, f: seq<int>, extra: seq<int>, count: seq<int>)
    requires Finished(order, s, elems, max, dl) && |f| == |dl| && |extra| == elems && max < |count| && Unused(order, elems, f)
    ensures BitCost(order, s, max, f, extra, |order|) + Renewal(order, s, f, dl, count, max, 0)
         == Price(f, WithExtra(NewTable(order, s, elems, count, max), extra), elems)
  {
    var per := WithExtra(NewTable(order, s, elems, count, max), extra);
    forall i | 0 <= i < |order| && s.leaf[i]
      ensures 0 <= order[i] < elems && per[order[i]] == NewLength(s, count, max, i) + extra[order[i]]
    {
      assert IndexOf(order, order[i]) == i;
    }
    RenewedCost(order, s, elems, max, dl, f, extra, count, per, |order|);
    FlatCostIsPrice(order, s, elems, max, dl, f, per);
  }
}
