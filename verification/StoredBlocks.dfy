/**
 Stored blocks (section 3.2.4 of RFC 1951): after the bits up to the next byte boundary come the
 length, its complement, and the bytes themselves. A reader takes the bytes as literals.
 */
module StoredBlocks {
  import opened Arithmetic
  import opened BitStrings
  import opened Bytes
  import opened Options
  import opened Lz77Format
  import opened BlockFormat
  import opened BitWriter

  const STORED_BLOCK := 0

  function Literals(bytes: seq<byte>): seq<Token> {
    seq(|bytes|, i requires 0 <= i < |bytes| => Literal(bytes[i]))
  }

  lemma ByteNumber(bits: seq<bool>)
    requires |bits| == 8
    ensures Number(bits) < 256
  {
    BitsOfNumber(bits);
    assert Pow2(8) == 256 by {
      assert Pow2(4) == 16;
    }
  }

  /** Reads n bytes. */
  function ReadBytes(n: nat, bits: seq<bool>): Option<(seq<byte>, seq<bool>)>
    decreases n
  {
    if n == 0 then Some(([], bits))
    else if |bits| < 8 then None
    else
      ByteNumber(bits[..8]);
      match ReadBytes(n - 1, bits[8..])
      case None => None
      case Some(r) => Some(([Number(bits[..8])] + r.0, r.1))
  }

  /** Reads a stored block. The whole stream consists of bytes, so what is left shows where the next byte begins. */
  function ReadStored(bits: seq<bool>): Option<(seq<Token>, seq<bool>)> {
    match ReadNumber(16, bits[|bits| % 8..])
    case None => None
    case Some(len) =>
      match ReadNumber(16, len.1)
      case None => None
      case Some(check) =>
        if len.0 + check.0 != 65535 then None
        else
          match ReadBytes(len.0, check.1)
          case None => None
          case Some(r) => Some((Literals(r.0), r.1))
  }

  /** What is sent after the kind of a stored block. */
  ghost function StoredBits(pad: nat, bytes: seq<byte>): seq<bool>
    requires |bytes| < 65536
  {
    Zeros(pad) + (Bits(|bytes|, 16) + (Bits(65535 - |bytes|, 16) + BitsOfBytes(bytes)))
  }

  lemma {:induction false} BytesReadBack(bytes: seq<byte>, rest: seq<bool>)
    ensures ReadBytes(|bytes|, BitsOfBytes(bytes) + rest) == Some((bytes, rest))
    decreases |bytes|
  {
    hide Bits, BitsOfBytes, Number;
    if bytes == [] {
      assert BitsOfBytes(bytes) == [] by { NoBytes(); }
      assert [] + rest == rest;
    } else {
      var c, more := bytes[0], bytes[1..];
      assert bytes == [c] + more && [] + [c] == [c];
      MoreBytes([c], more);
      OneMoreByte([], c);
      NoBytes();
      var bits := BitsOfBytes(bytes) + rest;
      assert bits[..8] == Bits(c, 8) && bits[8..] == BitsOfBytes(more) + rest;
      ByteBack(c);
      BytesReadBack(more, rest);
    }
  }

  lemma NoBytes()
    ensures BitsOfBytes([]) == []
  {
  }

  lemma ByteBack(c: byte)
    ensures Number(Bits(c, 8)) == c
  {
    assert Pow2(8) == 256 by {
      assert Pow2(4) == 16;
    }
    NumberOfBits(c, 8);
  }

  lemma {:induction false} EightBitsEach(bytes: seq<byte>)
    ensures |BitsOfBytes(bytes)| == 8 * |bytes|
    decreases |bytes|
  {
    if bytes != [] {
      EightBitsEach(bytes[..|bytes| - 1]);
    }
  }

  lemma WordsFit()
    ensures Pow2(16) == 65536
  {
    assert Pow2(4) == 16;
    assert Pow2(8) == 256;
    assert Pow2(12) == 4096;
  }

  /** A stored block reads back as its bytes, when whole bytes follow. */
  lemma StoredReadBack(pad: nat, bytes: seq<byte>, rest: seq<bool>)
    requires pad < 8 && |bytes| < 65536 && |rest| % 8 == 0
    ensures ReadStored(StoredBits(pad, bytes) + rest) == Some((Literals(bytes), rest))
  {
    hide Bits, BitsOfBytes, ReadNumber, ReadBytes, Literals, Pow2;
    var data := BitsOfBytes(bytes) + rest;
    var second := Bits(65535 - |bytes|, 16) + data;
    var first := Bits(|bytes|, 16) + second;
    var all := StoredBits(pad, bytes) + rest;
    assert all == Zeros(pad) + first;
    EightBitsEach(bytes);
    assert |all| % 8 == pad;
    assert all[pad..] == first;
    WordsFit();
    NumberReadBack(|bytes|, 16, second);
    NumberReadBack(65535 - |bytes|, 16, data);
    BytesReadBack(bytes, rest);
  }

  // What literals stand for.

  lemma OneMoreLiteral(bytes: seq<byte>, c: byte)
    ensures Literals(bytes + [c]) == Literals(bytes) + [Literal(c)]
  {
  }

  lemma {:induction false} ExpandLiterals(tokens: seq<Token>, text: seq<byte>, at: nat, n: nat)
    requires at + n <= |text| && Expand(tokens) == Some(text[..at])
    ensures Expand(tokens + Literals(text[at..at + n])) == Some(text[..at + n])
    decreases n
  {
    hide Expand;
    if n == 0 {
      assert tokens + Literals(text[at..at]) == tokens;
    } else {
      hide Literals;
      var before := tokens + Literals(text[at..at + n - 1]);
      ExpandLiterals(tokens, text, at, n - 1);
      AppendLiteral(before, text, at + n - 1);
      OneMoreLiteral(text[at..at + n - 1], text[at + n - 1]);
      assert text[at..at + n] == text[at..at + n - 1] + [text[at + n - 1]];
      assert tokens + Literals(text[at..at + n]) == before + [Literal(text[at + n - 1])];
    }
  }

  /** Only what has been written before matters to the tokens that follow. */
  lemma {:induction false} ExpandSame(a: seq<Token>, b: seq<Token>, more: seq<Token>)
    requires Expand(a) == Expand(b)
    ensures Expand(a + more) == Expand(b + more)
    decreases |more|
  {
    if more == [] {
      assert a + more == a && b + more == b;
    } else {
      var n := |more| - 1;
      ExpandSame(a, b, more[..n]);
      assert (a + more)[..|a + more| - 1] == a + more[..n];
      assert (b + more)[..|b + more| - 1] == b + more[..n];
    }
  }
}
