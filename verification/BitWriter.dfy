/**
 The bit writer: values of up to 16 bits are packed into bytes, least significant bit first
 (section 3.1.1 of RFC 1951).
 */
module BitWriter {
  import opened Arithmetic
  import opened Bytes
  import opened BitStrings
  import opened OutputQueue

  const BUF_SIZE := 16

  /** The bits of a byte string, each byte from its lowest bit on. */
  function BitsOfBytes(bytes: seq<byte>): seq<bool> {
    if bytes == [] then [] else BitsOfBytes(bytes[..|bytes| - 1]) + Bits(bytes[|bytes| - 1], 8)
  }

  lemma OneMoreByte(bytes: seq<byte>, c: byte)
    ensures BitsOfBytes(bytes + [c]) == BitsOfBytes(bytes) + Bits(c, 8)
  {
    assert (bytes + [c])[..|bytes|] == bytes;
  }

  lemma {:induction false} MoreBytes(bytes: seq<byte>, more: seq<byte>)
    ensures BitsOfBytes(bytes + more) == BitsOfBytes(bytes) + BitsOfBytes(more)
    decreases |more|
  {
    hide Bits;
    if more == [] {
      assert bytes + more == bytes;
    } else {
      var init, last := more[..|more| - 1], more[|more| - 1];
      MoreBytes(bytes, init);
      assert bytes + more == (bytes + init) + [last];
      OneMoreByte(bytes + init, last);
    }
  }

  lemma TwoMoreBytes(bytes: seq<byte>, v: nat)
    ensures BitsOfBytes(bytes + [v % 256, (v / 256) % 256]) == BitsOfBytes(bytes) + Bits(v, 16)
  {
    hide Bits, BitsOfBytes;
    var low, high := v % 256, (v / 256) % 256;
    assert bytes + [low, high] == (bytes + [low]) + [high];
    OneMoreByte(bytes, low);
    OneMoreByte(bytes + [low], high);
    ByteOf(v);
    ByteOf(v / 256);
    BitsAppend(v, 8, 8);
  }

  /** Splitting a value on top of n pending bits at 16 bits. */
  lemma {:induction false} SplitAtWord(buf: nat, n: nat, value: nat, length: nat)
    requires n <= BUF_SIZE && length <= BUF_SIZE < n + length && buf < Pow2(n) && value < Pow2(length)
    ensures var word := buf + Pow2(n) * value;
            && Bits(word, BUF_SIZE) + Bits(Shr(value, BUF_SIZE - n), n + length - BUF_SIZE) == Bits(buf, n) + Bits(value, length)
            && Shr(value, BUF_SIZE - n) < Pow2(n + length - BUF_SIZE)
  {
    hide Pow2, Bits, Shr;
    var word := buf + Pow2(n) * value;
    MulNonNegative(Pow2(n), value);
    OnTop(buf, value, n);
    BitsAppend(word, n, BUF_SIZE - n);
    BitsAppend(value, BUF_SIZE - n, n + length - BUF_SIZE);
    ShrFits(value, BUF_SIZE - n, n + length - BUF_SIZE);
  }

  /** Adding a value on top of n pending bits. */
  lemma JoinOnTop(buf: nat, n: nat, value: nat, length: nat)
    requires buf < Pow2(n) && value < Pow2(length)
    ensures var word := buf + Pow2(n) * value;
            0 <= word < Pow2(n + length) && Bits(word, n + length) == Bits(buf, n) + Bits(value, length)
  {
    var word := buf + Pow2(n) * value;
    MulNonNegative(Pow2(n), value);
    OnTop(buf, value, n);
    BitsAppend(word, n, length);
    NumberAppend(Bits(buf, n), Bits(value, length));
    NumberOfBits(buf, n);
    NumberOfBits(value, length);
    BitsOfNumber(Bits(buf, n) + Bits(value, length));
  }

  function Zeros(n: nat): (r: seq<bool>)
    ensures |r| == n
  {
    seq(n, _ => false)
  }

  lemma {:induction false} BitsOfZero(n: nat)
    ensures Bits(0, n) == Zeros(n)
    decreases n
  {
    if n > 0 {
      BitsOfZero(n - 1);
    }
  }

  /** Bits beyond the value of a number are zero. */
  lemma Padded(buf: nat, n: nat, m: nat)
    requires n <= m && buf < Pow2(n)
    ensures Bits(buf, m) == Bits(buf, n) + Zeros(m - n)
  {
    OnTop(buf, 0, n);
    BitsAppend(buf, n, m - n);
    BitsOfZero(m - n);
  }

  class Writer {
    const sink: Output
    var biBuf: nat
    var biValid: nat

    ghost predicate Valid()
      reads this, sink, sink.repr
    {
      && sink.Valid() && sink.outoff == 0 && this !in sink.repr
      && biValid <= BUF_SIZE && biBuf < Pow2(biValid)
    }

    /** Every bit sent so far: those in whole bytes and those still pending. */
    ghost function Stream(): seq<bool>
      reads this, sink
    {
      BitsOfBytes(sink.put) + Bits(biBuf, biValid)
    }

    constructor ()
      ensures Valid() && Stream() == [] && sink.taken == [] && fresh(sink) && fresh(sink.repr)
    {
      sink := new Output();
      biBuf := 0;
      biValid := 0;
    }

    /** Completes a word of 16 bits with the value, and keeps the bits that are left over. */
    method SendWord(value: nat, length: nat)
      requires Valid() && length <= BUF_SIZE < biValid + length && value < Pow2(length)
      modifies this, sink.repr
      ensures Valid() && fresh(sink.repr - old(sink.repr)) && sink.taken == old(sink.taken)
      ensures Stream() == old(Stream()) + Bits(value, length)
    {
      hide Output.Valid, BitsOfBytes, Bits, Pow2;
      ghost var bytes, n, buf := sink.put, biValid, biBuf;
      SplitAtWord(biBuf, biValid, value, length);
      WordIsNatural(biBuf, biValid, value);
      biBuf := biBuf + Pow2(biValid) * value;
      TwoMoreBytes(bytes, biBuf);
      ghost var word := Bits(biBuf, BUF_SIZE);
      sink.PutShort(biBuf);
      biBuf := Shr(value, BUF_SIZE - biValid);
      biValid := biValid + length - BUF_SIZE;
      Regroup(BitsOfBytes(bytes), word, Bits(biBuf, biValid), Bits(buf, n), Bits(value, length));
    }

    /** Sends the lowest `length` bits of a value. */
    method SendBits(value: nat, length: nat)
      requires Valid() && length <= BUF_SIZE && value < Pow2(length)
      modifies this, sink.repr
      ensures Valid() && fresh(sink.repr - old(sink.repr)) && sink.taken == old(sink.taken)
      ensures Stream() == old(Stream()) + Bits(value, length)
    {
      hide Output.Valid, BitsOfBytes, Bits, Pow2;
      if biValid > BUF_SIZE - length {
        SendWord(value, length);
      } else {
        ghost var n, buf := biValid, biBuf;
        JoinOnTop(biBuf, biValid, value, length);
        biBuf := biBuf + Pow2(biValid) * value;
        biValid := biValid + length;
        Regroup(BitsOfBytes(sink.put), Bits(biBuf, biValid), [], Bits(buf, n), Bits(value, length));
        assert BitsOfBytes(sink.put) + Bits(biBuf, biValid) + [] == BitsOfBytes(sink.put) + Bits(biBuf, biValid);
      }
    }

    /** Fills up the last byte with zero bits. */
    method BiWindup()
      requires Valid()
      modifies this, sink.repr
      ensures Valid() && fresh(sink.repr - old(sink.repr)) && sink.taken == old(sink.taken)
      ensures biValid == 0 && exists k :: 0 <= k < 8 && Stream() == old(Stream()) + Zeros(k)
    {
      hide Output.Valid, BitsOfBytes;
      ghost var bytes, n, buf := sink.put, biValid, biBuf;
      ghost var k := 0;
      if biValid > 8 {
        TwoMoreBytes(bytes, biBuf);
        Padded(biBuf, biValid, 16);
        sink.PutShort(biBuf);
        k := 16 - n;
      } else if biValid > 0 {
        ByteFits(biBuf, biValid);
        OneMoreByte(bytes, biBuf);
        Padded(biBuf, biValid, 8);
        sink.PutByte(biBuf);
        k := 8 - n;
      }
      biBuf := 0;
      biValid := 0;
      assert Stream() == old(Stream()) + Zeros(k);
    }

    /** Puts a word at a byte boundary. */
    method PutWord(value: nat)
      requires Valid() && biValid == 0
      modifies this, sink.repr
      ensures Valid() && fresh(sink.repr - old(sink.repr)) && sink.taken == old(sink.taken)
      ensures biValid == 0 && Stream() == old(Stream()) + Bits(value, 16)
    {
      hide Output.Valid, BitsOfBytes, Pow2;
      TwoMoreBytes(sink.put, value);
      sink.PutShort(value);
    }

    /** Puts bytes at a byte boundary. */
    method PutBytes(bytes: seq<byte>)
      requires Valid() && biValid == 0
      modifies this, sink.repr
      ensures Valid() && fresh(sink.repr - old(sink.repr)) && sink.taken == old(sink.taken)
      ensures biValid == 0 && Stream() == old(Stream()) + BitsOfBytes(bytes)
    {
      hide Output.Valid, Pow2, Bits, BitsOfBytes;
      ghost var before := sink.put;
      WholeBytes();
      for i := 0 to |bytes|
        invariant Valid() && fresh(sink.repr - old(sink.repr)) && sink.taken == old(sink.taken)
        invariant biValid == 0 && sink.put == before + bytes[..i]
      {
        sink.PutByte(bytes[i]);
      }
      assert bytes[..|bytes|] == bytes;
      WholeBytes();
      MoreBytes(before, bytes);
    }

    lemma WholeBytes()
      requires biValid == 0
      ensures Stream() == BitsOfBytes(sink.put)
    {
    }
  }

  lemma Regroup(bytes: seq<bool>, word: seq<bool>, rest: seq<bool>, pending: seq<bool>, value: seq<bool>)
    requires word + rest == pending + value
    ensures (bytes + word) + rest == (bytes + pending) + value
  {
    assert (bytes + word) + rest == bytes + (word + rest);
    assert (bytes + pending) + value == bytes + (pending + value);
  }

  lemma WordIsNatural(buf: nat, n: nat, value: nat)
    ensures buf + Pow2(n) * value >= 0
  {
    MulNonNegative(Pow2(n), value);
  }

  lemma ByteFits(buf: nat, n: nat)
    requires n <= 8 && buf < Pow2(n)
    ensures buf < 256
  {
    NumberOfBits(buf, n);
    Padded(buf, n, 8);
    OnTop(buf, 0, n);
    BitsOfNumber(Bits(buf, n) + Zeros(8 - n));
    assert Pow2(8) == 256 by {
      assert Pow2(4) == 16;
    }
    Pow2Grows(n, 8);
  }

  lemma {:induction false} Pow2Grows(m: nat, n: nat)
    requires m <= n
    ensures Pow2(m) <= Pow2(n)
    decreases n
  {
    if m < n {
      Pow2Grows(m, n - 1);
    }
  }
}
