/** Numbers as strings of bits, least significant bit first. */
module BitStrings {
  import opened Arithmetic

  /** The lowest n bits of v, lowest first. */
  function Bits(v: nat, n: nat): (r: seq<bool>)
    ensures |r| == n
  {
    if n == 0 then [] else [v % 2 == 1] + Bits(v / 2, n - 1)
  }

  function Digit(b: bool): nat {
    if b then 1 else 0
  }

  /** The number a bit string stands for, lowest bit first. */
  function Number(bs: seq<bool>): nat {
    if bs == [] then 0 else Digit(bs[0]) + 2 * Number(bs[1..])
  }

  /** v without its lowest n bits. */
  function Shr(v: nat, n: nat): nat {
    if n == 0 then v else Shr(v / 2, n - 1)
  }

  lemma {:induction false} NumberOfBits(v: nat, n: nat)
    requires v < Pow2(n)
    ensures Number(Bits(v, n)) == v
    decreases n
  {
    if n > 0 {
      assert Bits(v, n)[1..] == Bits(v / 2, n - 1);
      NumberOfBits(v / 2, n - 1);
    }
  }

  lemma {:induction false} BitsOfNumber(bs: seq<bool>)
    ensures Bits(Number(bs), |bs|) == bs && Number(bs) < Pow2(|bs|)
    decreases |bs|
  {
    if bs != [] {
      BitsOfNumber(bs[1..]);
      assert bs == [bs[0]] + bs[1..];
    }
  }

  lemma {:induction false} NumberAppend(a: seq<bool>, b: seq<bool>)
    ensures Number(a + b) == Number(a) + Pow2(|a|) * Number(b)
    decreases |a|
  {
    if a == [] {
      assert a + b == b;
    } else {
      var tail, p, high := a[1..], Pow2(|a| - 1), Number(b);
      NumberAppend(tail, b);
      assert Number(a + b) == Digit(a[0]) + 2 * Number(tail + b) by {
        assert (a + b)[1..] == tail + b;
      }
      DoubleProduct(p, high);
    }
  }

  lemma {:induction false} BitsAppend(v: nat, m: nat, n: nat)
    ensures Bits(v, m + n) == Bits(v, m) + Bits(Shr(v, m), n)
    decreases m
  {
    if m > 0 {
      BitsAppend(v / 2, m - 1, n);
      assert Bits(v, m + n) == [v % 2 == 1] + Bits(v / 2, m - 1 + n);
    }
  }

  /** A number is its low bits and the rest, shifted up. */
  lemma {:induction false} LowAndHigh(v: nat, n: nat)
    ensures v == Number(Bits(v, n)) + Pow2(n) * Shr(v, n)
    decreases n
  {
    if n > 0 {
      LowAndHigh(v / 2, n - 1);
      assert Bits(v, n)[1..] == Bits(v / 2, n - 1);
      DoubleProduct(Pow2(n - 1), Shr(v, n));
    }
  }

  lemma {:induction false} ShrStep(v: nat, n: nat)
    ensures Shr(v, n + 1) == Shr(v, n) / 2
    decreases n
  {
    if n > 0 {
      ShrStep(v / 2, n - 1);
    }
  }

  lemma {:induction false} ShrFits(v: nat, m: nat, n: nat)
    requires v < Pow2(m + n)
    ensures Shr(v, m) < Pow2(n)
    decreases m
  {
    if m > 0 {
      ShrFits(v / 2, m - 1, n);
    }
  }

  /** A number put on top of n lower bits. */
  lemma {:induction false} OnTop(low: nat, high: nat, n: nat)
    requires low < Pow2(n)
    ensures Bits(low + Pow2(n) * high, n) == Bits(low, n) && Shr(low + Pow2(n) * high, n) == high
    decreases n
  {
    if n > 0 {
      var p := Pow2(n - 1) * high;
      DoubleProduct(Pow2(n - 1), high);
      MulNonNegative(Pow2(n - 1), high);
      assert (low + 2 * p) / 2 == low / 2 + p && (low + 2 * p) % 2 == low % 2;
      OnTop(low / 2, high, n - 1);
    }
  }

  lemma {:induction false} ShrTwice(v: nat, m: nat, n: nat)
    ensures Shr(Shr(v, m), n) == Shr(v, m + n)
    decreases m
  {
    if m > 0 {
      ShrTwice(v / 2, m - 1, n);
    }
  }

  lemma ByteOf(v: nat)
    ensures Bits(v % 256, 8) == Bits(v, 8) && Shr(v, 8) == v / 256
  {
    assert Pow2(8) == 256 by {
      assert Pow2(4) == 16;
    }
    var low, high := v % 256, v / 256;
    assert v == low + Pow2(8) * high;
    OnTop(low, high, 8);
  }

  function Flip(bs: seq<bool>): (r: seq<bool>)
    ensures |r| == |bs|
    ensures forall i :: 0 <= i < |bs| ==> r[i] == bs[|bs| - 1 - i]
  {
    if bs == [] then [] else Flip(bs[1..]) + [bs[0]]
  }

  lemma FlipTwice(bs: seq<bool>)
    ensures Flip(Flip(bs)) == bs
  {
  }

  lemma FlipAppend(a: seq<bool>, b: seq<bool>)
    ensures Flip(a + b) == Flip(b) + Flip(a)
  {
  }

  /** The lowest n bits of v, highest first: how a code of n bits is read. */
  function Code(v: nat, n: nat): (r: seq<bool>)
    ensures |r| == n
  {
    Flip(Bits(v, n))
  }

  /** v with its lowest n bits in the opposite order. */
  function Reversed(v: nat, n: nat): nat {
    Number(Code(v, n))
  }

  /** Reversing twice gives the number back. */
  lemma ReversedTwice(v: nat, n: nat)
    requires v < Pow2(n)
    ensures Reversed(v, n) < Pow2(n) && Reversed(Reversed(v, n), n) == v
  {
    BitsOfNumber(Code(v, n));
    FlipTwice(Bits(v, n));
    NumberOfBits(v, n);
  }

  /** The low-first bits of the reversed code are the high-first bits of the code. */
  lemma ReversedIsCode(v: nat, n: nat)
    ensures Bits(Reversed(v, n), n) == Code(v, n) && Reversed(v, n) < Pow2(n)
  {
    BitsOfNumber(Code(v, n));
  }

  lemma ReversedStep(v: nat, n: nat)
    ensures Reversed(v, n + 1) == 2 * Reversed(v, n) + Shr(v, n) % 2
  {
    var top := Shr(v, n) % 2 == 1;
    BitsAppend(v, n, 1);
    assert Bits(Shr(v, n), 1) == [top];
    FlipAppend(Bits(v, n), [top]);
    assert Code(v, n + 1) == [top] + Code(v, n);
    assert Code(v, n + 1)[1..] == Code(v, n);
  }

  /** Reverses the lowest bits of a code. */
  method BiReverse(value: nat, length: int) returns (r: nat)
    requires length >= 1
    ensures r == Reversed(value, length)
  {
    var code, len, res := value, length, 0;
    ghost var i: nat := 0;
    while true
      invariant 0 <= i == length - len && len >= 1
      invariant code == Shr(value, i) && res == 2 * Reversed(value, i)
      decreases len
    {
      ReversedStep(value, i);
      ShrStep(value, i);
      res := res + code % 2;
      code := code / 2;
      res := res * 2;
      len := len - 1;
      i := i + 1;
      if len <= 0 {
        break;
      }
    }
    r := res / 2;
  }

  lemma SameCode(v: nat, w: nat, n: nat)
    requires v < Pow2(n) && w < Pow2(n) && Code(v, n) == Code(w, n)
    ensures v == w
  {
    FlipTwice(Bits(v, n));
    FlipTwice(Bits(w, n));
    NumberOfBits(v, n);
    NumberOfBits(w, n);
  }

  lemma HighCode(w: nat, low: nat, n: nat)
    ensures Code(w, low + n) == Code(Shr(w, low), n) + Code(w, low)
  {
    BitsAppend(w, low, n);
    FlipAppend(Bits(w, low), Bits(Shr(w, low), n));
  }

  /** A code that begins with another one lies in the range that one spans. */
  lemma PrefixRange(v: nat, n: nat, w: nat, m: nat)
    requires n <= m && v < Pow2(n) && w < Pow2(m) && Code(v, n) <= Code(w, m)
    ensures Pow2(m - n) * v <= w < Pow2(m - n) * v + Pow2(m - n)
  {
    hide Pow2, Bits, Code, Number, Shr;
    var high := Shr(w, m - n);
    ShrFits(w, m - n, n);
    HighCode(w, m - n, n);
    assert Code(v, n) == Code(w, m)[..n] == Code(high, n);
    SameCode(v, high, n);
    LowAndHigh(w, m - n);
    BitsOfNumber(Bits(w, m - n));
  }
}
