/**
 Length and distance codes. The bases and extra bits are those of section 3.2.5 of RFC 1951; the
 lookup tables are built by the encoder when it starts.
 */
module DeflateTables {
  import opened Arithmetic

  const LENGTH_CODES := 29
  const D_CODES := 30

  /** Extra bits of the length codes 257 to 285. */
  function LengthExtra(c: int): nat
    requires 0 <= c < LENGTH_CODES
  {
    [0, 0, 0, 0, 0, 0, 0, 0, 1, 1, 1, 1, 2, 2, 2, 2, 3, 3, 3, 3, 4, 4, 4, 4, 5, 5, 5, 5, 0][c]
  }

  /** Smallest match length of the length codes 257 to 285. */
  function LengthBase(c: int): nat
    requires 0 <= c < LENGTH_CODES
  {
    [3, 4, 5, 6, 7, 8, 9, 10, 11, 13, 15, 17, 19, 23, 27, 31, 35, 43, 51, 59, 67, 83, 99, 115, 131, 163, 195, 227, 258][c]
  }

  /** Extra bits of the distance codes 0 to 29. */
  function DistExtra(c: int): nat
    requires 0 <= c < D_CODES
  {
    [0, 0, 0, 0, 1, 1, 2, 2, 3, 3, 4, 4, 5, 5, 6, 6, 7, 7, 8, 8, 9, 9, 10, 10, 11, 11, 12, 12, 13, 13][c]
  }

  /** Smallest distance of the distance codes 0 to 29. */
  function DistBase(c: int): nat
    requires 0 <= c < D_CODES
  {
    [1, 2, 3, 4, 5, 7, 9, 13, 17, 25, 33, 49, 65, 97, 129, 193, 257, 385, 513, 769, 1025, 1537, 2049, 3073,
     4097, 6145, 8193, 12289, 16385, 24577][c]
  }

  lemma SmallPowers()
    ensures Pow2(0) == 1 && Pow2(1) == 2 && Pow2(2) == 4 && Pow2(3) == 8 && Pow2(4) == 16 && Pow2(5) == 32
    ensures Pow2(6) == 64 && Pow2(7) == 128 && Pow2(8) == 256
  {
  }

  /** Each length code but the last takes over where the one before ends. */
  lemma {:induction false} LengthCodesAdjoin(c: nat)
    requires c < LENGTH_CODES - 2
    ensures LengthBase(c + 1) == LengthBase(c) + Pow2(LengthExtra(c))
  {
    SmallPowers();
  }

  lemma LengthCodesEnd()
    ensures LengthBase(0) == 3 && LengthBase(27) + Pow2(LengthExtra(27)) == 259
  {
    SmallPowers();
  }

  /** Code c stands for match lengths that include `length`. */
  ghost predicate CoversLength(c: int, length: int) {
    0 <= c < LENGTH_CODES && LengthBase(c) <= length < LengthBase(c) + Pow2(LengthExtra(c))
  }

  /** The lookup table from length - 3 to length code, and the bases without 3. */
  ghost predicate LengthTable(codes: seq<int>, base: seq<int>) {
    && |codes| == 256 && |base| == LENGTH_CODES
    && (forall c :: 0 <= c < LENGTH_CODES - 1 ==> base[c] == LengthBase(c) - 3)
    && forall l :: 0 <= l < 256 ==> CoversLength(codes[l], l + 3)
  }

  /** Enters one length code for all the lengths it stands for. */
  method FillLengths(lengthCode: array<int>, code: int, from: int) returns (length: int)
    requires lengthCode.Length == 256 && 0 <= code < LENGTH_CODES - 1 && from == LengthBase(code) - 3
    requires 0 <= from && from + Pow2(LengthExtra(code)) <= 256
    modifies lengthCode
    ensures length == from + Pow2(LengthExtra(code))
    ensures forall l :: 0 <= l < from ==> lengthCode[l] == old(lengthCode[l])
    ensures forall l :: from <= l < length ==> CoversLength(lengthCode[l], l + 3)
  {
    hide Pow2, LengthBase, LengthExtra;
    length := from;
    var n := 0;
    while n < Pow2(LengthExtra(code))
      invariant 0 <= n <= Pow2(LengthExtra(code)) && length == from + n
      invariant forall l :: 0 <= l < from ==> lengthCode[l] == old(lengthCode[l])
      invariant forall l :: from <= l < length ==> lengthCode[l] == code
    {
      lengthCode[length] := code;
      length := length + 1;
      n := n + 1;
    }
  }

  lemma {:induction false} LengthsFit(c: nat)
    requires c < LENGTH_CODES - 1
    ensures 3 <= LengthBase(c) && LengthBase(c) + Pow2(LengthExtra(c)) <= 259
  {
    SmallPowers();
  }

  /** Builds the table of length codes. */
  method BuildLengthTable() returns (lengthCode: array<int>, baseLength: array<int>)
    ensures LengthTable(lengthCode[..], baseLength[..]) && fresh(lengthCode) && fresh(baseLength)
  {
    hide Pow2, CoversLength, LengthBase, LengthExtra;
    lengthCode, baseLength := new int[256], new int[LENGTH_CODES];
    var length, code := 0, 0;
    LengthCodesEnd();
    while code < LENGTH_CODES - 1
      invariant 0 <= code <= LENGTH_CODES - 1
      invariant length == if code < LENGTH_CODES - 1 then LengthBase(code) - 3 else 256
      invariant forall c :: 0 <= c < code ==> baseLength[c] == LengthBase(c) - 3
      invariant forall l :: 0 <= l < length <= 256 ==> CoversLength(lengthCode[l], l + 3)
    {
      baseLength[code] := length;
      LengthsFit(code);
      length := FillLengths(lengthCode, code, length);
      if code + 1 < LENGTH_CODES - 1 {
        LengthCodesAdjoin(code);
      }
      code := code + 1;
    }
    lengthCode[length - 1] := code;
    LongestLength();
  }

  /** The last code stands for the longest match alone. */
  lemma LongestLength()
    ensures CoversLength(LENGTH_CODES - 1, 258)
  {
    SmallPowers();
  }

  /** Each distance code takes over where the one before ends. */
  lemma {:induction false} NearCodesAdjoin(c: nat)
    requires c < 15
    ensures DistBase(c + 1) == DistBase(c) + Pow2(DistExtra(c))
  {
    SmallPowers();
  }

  lemma LargePowers()
    ensures Pow2(7) == 128 && Pow2(8) == 256 && Pow2(9) == 512 && Pow2(10) == 1024 && Pow2(11) == 2048
    ensures Pow2(12) == 4096 && Pow2(13) == 8192
  {
    SmallPowers();
  }

  lemma FarCodesAdjoin(c: nat)
    requires 15 <= c < D_CODES - 1
    ensures DistBase(c + 1) == DistBase(c) + Pow2(DistExtra(c))
  {
    LargePowers();
    SmallPowers();
  }

  /** Code c stands for distances that include `distance`. */
  ghost predicate CoversDist(c: int, distance: int) {
    0 <= c < D_CODES && DistBase(c) <= distance < DistBase(c) + Pow2(DistExtra(c))
  }

  /** Code c stands for all distances from 128 * h + 1 to 128 * h + 128. */
  ghost predicate CoversStretch(c: int, h: int) {
    0 <= c < D_CODES && DistBase(c) <= 128 * h + 1 && 128 * h + 128 < DistBase(c) + Pow2(DistExtra(c))
  }

  /** The lookup table for distances up to 256 and, in stretches of 128, for the others; the bases without 1. */
  ghost predicate DistTable(codes: seq<int>, base: seq<int>) {
    && |codes| == 512 && |base| == D_CODES
    && (forall c :: 0 <= c < D_CODES ==> base[c] == DistBase(c) - 1)
    && (forall d :: 0 <= d < 256 ==> CoversDist(codes[d], d + 1))
    && (forall i :: 258 <= i < 512 ==> CoversStretch(codes[i], i - 256))
  }

  /** The distance code of a distance, given without 1. */
  function DCode(codes: seq<int>, dist: int): int
    requires |codes| == 512 && 0 <= dist < 32768
  {
    if dist < 256 then codes[dist] else codes[256 + dist / 128]
  }

  /** Every distance finds its code. */
  lemma DCodeCovers(codes: seq<int>, base: seq<int>, dist: int)
    requires DistTable(codes, base) && 0 <= dist < 32768
    ensures CoversDist(DCode(codes, dist), dist + 1)
  {
    hide DistBase, DistExtra, Pow2;
    if dist >= 256 {
      assert CoversStretch(codes[256 + dist / 128], dist / 128);
    }
  }

  lemma {:induction false} NearDistsFit(c: nat)
    requires c < 16
    ensures 1 <= DistBase(c) && DistBase(c) + Pow2(DistExtra(c)) <= 257
  {
    SmallPowers();
  }

  lemma {:induction false} FarDistsFit(c: nat)
    requires 16 <= c < D_CODES
    ensures DistExtra(c) >= 7 && Pow2(DistExtra(c)) == 128 * Pow2(DistExtra(c) - 7)
    ensures 257 <= DistBase(c) && DistBase(c) + Pow2(DistExtra(c)) <= 32769
  {
    SmallPowers();
    LargePowers();
  }

  lemma {:induction false} DistCodesEnd()
    ensures DistBase(0) == 1 && DistBase(15) + Pow2(DistExtra(15)) == 257 && DistBase(16) == 257
    ensures DistBase(29) + Pow2(DistExtra(29)) == 32769
  {
    SmallPowers();
    LargePowers();
  }

  /** Enters one distance code for all the small distances it stands for. */
  method FillNear(distCode: array<int>, code: int, from: int) returns (dist: int)
    requires distCode.Length == 512 && 0 <= code < 16 && from == DistBase(code) - 1
    requires 0 <= from && from + Pow2(DistExtra(code)) <= 256
    modifies distCode
    ensures dist == from + Pow2(DistExtra(code))
    ensures forall d :: 0 <= d < from ==> distCode[d] == old(distCode[d])
    ensures forall d :: from <= d < dist ==> CoversDist(distCode[d], d + 1)
  {
    hide Pow2, DistBase, DistExtra;
    dist := from;
    var n := 0;
    while n < Pow2(DistExtra(code))
      invariant 0 <= n <= Pow2(DistExtra(code)) && dist == from + n
      invariant forall d :: 0 <= d < from ==> distCode[d] == old(distCode[d])
      invariant forall d :: from <= d < dist ==> distCode[d] == code
    {
      distCode[dist] := code;
      dist := dist + 1;
      n := n + 1;
    }
  }

  /** Enters one distance code for all the stretches it stands for. */
  method FillFar(distCode: array<int>, code: int, from: int) returns (dist: int)
    requires distCode.Length == 512 && 16 <= code < D_CODES && 128 * from == DistBase(code) - 1
    requires DistExtra(code) >= 7 && Pow2(DistExtra(code)) == 128 * Pow2(DistExtra(code) - 7)
    requires 2 <= from && from + Pow2(DistExtra(code) - 7) <= 256
    modifies distCode
    ensures dist == from + Pow2(DistExtra(code) - 7)
    ensures forall d :: 0 <= d < 256 + from ==> distCode[d] == old(distCode[d])
    ensures forall i :: 256 + from <= i < 256 + dist ==> CoversStretch(distCode[i], i - 256)
  {
    hide Pow2, DistBase, DistExtra;
    dist := from;
    var n := 0;
    while n < Pow2(DistExtra(code) - 7)
      invariant 0 <= n <= Pow2(DistExtra(code) - 7) && dist == from + n
      invariant forall d :: 0 <= d < 256 + from ==> distCode[d] == old(distCode[d])
      invariant forall i :: 256 + from <= i < 256 + dist ==> distCode[i] == code
    {
      distCode[256 + dist] := code;
      dist := dist + 1;
      n := n + 1;
    }
  }

  /** Builds the table of distance codes. */
  method BuildDistTable() returns (distCode: array<int>, baseDist: array<int>)
    ensures DistTable(distCode[..], baseDist[..]) && fresh(distCode) && fresh(baseDist)
  {
    hide Pow2, DistBase, DistExtra, CoversDist, CoversStretch;
    distCode, baseDist := new int[512], new int[D_CODES];
    DistCodesEnd();
    var dist, code := 0, 0;
    while code < 16
      invariant 0 <= code <= 16
      invariant dist == if code < 16 then DistBase(code) - 1 else 256
      invariant forall c :: 0 <= c < code ==> baseDist[c] == DistBase(c) - 1
      invariant forall d :: 0 <= d < dist <= 256 ==> CoversDist(distCode[d], d + 1)
    {
      baseDist[code] := dist;
      NearDistsFit(code);
      dist := FillNear(distCode, code, dist);
      if code < 15 {
        NearCodesAdjoin(code);
      }
      code := code + 1;
    }
    dist := dist / 128;
    while code < D_CODES
      invariant 16 <= code <= D_CODES && 2 <= dist
      invariant 128 * dist + 1 == if code < D_CODES then DistBase(code) else 32769
      invariant forall c :: 0 <= c < code ==> baseDist[c] == DistBase(c) - 1
      invariant forall d :: 0 <= d < 256 ==> CoversDist(distCode[d], d + 1)
      invariant forall i :: 258 <= i < 256 + dist <= 512 ==> CoversStretch(distCode[i], i - 256)
    {
      baseDist[code] := dist * 128;
      FarDistsFit(code);
      dist := FillFar(distCode, code, dist);
      if code < D_CODES - 1 {
        FarCodesAdjoin(code);
      }
      code := code + 1;
    }
  }
}
