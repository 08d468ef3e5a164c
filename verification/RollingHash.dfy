/**
 The rolling hash of the dictionary: 13 bits, shifted by 5 for every byte. After
 MIN_MATCH = 3 bytes nothing is left of older ones, and the newest byte can be read back.
 */
module RollingHash {
  import opened Arithmetic
  import opened Bytes
  import opened HashChains

  /** Bitwise exclusive or. */
  function Xor(x: nat, y: nat): nat
    decreases x + y
  {
    if x == 0 && y == 0 then 0
    else (if x % 2 == y % 2 then 0 else 1) + 2 * Xor(x / 2, y / 2)
  }

  /** `((h << 5) ^ b) & HASH_MASK` */
  function UpdateHash(h: nat, b: byte): nat {
    Xor(32 * h, b) % HASH_SIZE
  }

  /** The key under which a string is filed: the hash of its first three bytes. */
  function HashOf(a: byte, b: byte, c: byte): nat {
    UpdateHash(UpdateHash(UpdateHash(0, a), b), c)
  }

  /** The hash of two bytes, as far as it matters for the key of a string that begins with them. */
  function PrimeOf(a: byte, b: byte): nat {
    UpdateHash(UpdateHash(0, a), b) % 256
  }

  /** `h` has taken in `a` and `b`, so that one more byte completes the key of a string. */
  ghost predicate Primed(h: nat, a: byte, b: byte) {
    h % 256 == PrimeOf(a, b)
  }

  function KeyAt(text: seq<byte>, i: int): nat
    requires 0 <= i < |text| - 2
  {
    HashOf(text[i], text[i + 1], text[i + 2])
  }

  function PrimeAt(text: seq<byte>, i: int): nat
    requires 0 <= i < |text| - 1
  {
    PrimeOf(text[i], text[i + 1])
  }

  /** `code` lists the keys of all strings of `text`, `prime` the hashes of their first two bytes. */
  ghost predicate Indexed(text: seq<byte>, code: seq<int>, prime: seq<int>) {
    && |code| == (if |text| < 2 then 0 else |text| - 2)
    && |prime| == (if |text| < 1 then 0 else |text| - 1)
    && (forall i {:trigger KeyAt(text, i)} :: 0 <= i < |code| ==> code[i] == KeyAt(text, i))
    && (forall i {:trigger PrimeAt(text, i)} :: 0 <= i < |prime| ==> prime[i] == PrimeAt(text, i))
  }

  lemma {:induction false} XorLowBit(u: nat, b: nat, p: nat)
    requires p >= 1
    ensures Xor(u, b) % (2 * p) == (if u % 2 == b % 2 then 0 else 1) + 2 * (Xor(u / 2, b / 2) % p)
  {
    ShiftInMod(if u % 2 == b % 2 then 0 else 1, Xor(u / 2, b / 2), p);
  }

  /** The low bits of an exclusive or come from the low bits of its operands. */
  lemma {:induction false} XorLowBits(u: nat, v: nat, b: nat, n: nat)
    requires u % Pow2(n) == v % Pow2(n)
    ensures Xor(u, b) % Pow2(n) == Xor(v, b) % Pow2(n)
    decreases n
  {
    if n == 0 {
      assert Pow2(n) == 1;
    } else {
      var p := Pow2(n - 1);
      ShiftInMod(u % 2, u / 2, p);
      ShiftInMod(v % 2, v / 2, p);
      XorLowBits(u / 2, v / 2, b / 2, n - 1);
      XorLowBit(u, b, p);
      XorLowBit(v, b, p);
    }
  }

  lemma {:induction false} XorCancels(u: nat, b: nat, c: nat, n: nat)
    requires b < Pow2(n) && c < Pow2(n)
    requires Xor(u, b) % Pow2(n) == Xor(u, c) % Pow2(n)
    ensures b == c
    decreases n
  {
    if n > 0 {
      XorLowBit(u, b, Pow2(n - 1));
      XorLowBit(u, c, Pow2(n - 1));
      XorCancels(u / 2, b / 2, c / 2, n - 1);
    }
  }

  lemma Pow2Table()
    ensures Pow2(0) == 1 && Pow2(5) == 32 && Pow2(8) == 256 && Pow2(10) == 1024 && Pow2(13) == HASH_SIZE
  {
    assert Pow2(3) == 8;
    assert Pow2(6) == 64;
    assert Pow2(9) == 512;
    assert Pow2(11) == 2048;
  }

  lemma ShiftedLowBits(h: nat)
    ensures (32 * h) % 32 == 0 && (32 * h) % 1024 == 32 * (h % 32) && (32 * h) % HASH_SIZE == 32 * (h % 256)
  {
  }

  lemma MaskedLowBits(x: nat)
    ensures x % HASH_SIZE % 32 == x % 32 && x % HASH_SIZE % 256 == x % 256 && x % HASH_SIZE % 1024 == x % 1024
  {
    ModOfMod(x, 32, 256);
    ModOfMod(x, 256, 32);
    ModOfMod(x, 1024, 8);
  }

  /** Hashes that agree on their low bits agree on five more of them one byte later. */
  lemma UpdateWidens(h: nat, k: nat, b: byte, n: nat)
    requires n in {0, 5, 8} && h % Pow2(n) == k % Pow2(n)
    ensures UpdateHash(h, b) % Pow2(n + 5) == UpdateHash(k, b) % Pow2(n + 5)
  {
    Pow2Table();
    ShiftedLowBits(h);
    ShiftedLowBits(k);
    XorLowBits(32 * h, 32 * k, b, n + 5);
    MaskedLowBits(Xor(32 * h, b));
    MaskedLowBits(Xor(32 * k, b));
  }

  lemma Rehash(h: nat, k: nat, b: byte)
    requires h % 256 == k % 256
    ensures UpdateHash(h, b) == UpdateHash(k, b)
  {
    Pow2Table();
    UpdateWidens(h, k, b, 8);
  }

  lemma LowByteOfLow10(x: nat, y: nat)
    requires x % 1024 == y % 1024
    ensures x % 256 == y % 256
  {
    ModOfMod(x, 256, 4);
    ModOfMod(y, 256, 4);
  }

  /** Two bytes rolled into anything prime the hash. */
  lemma TwoBytesPrime(h: nat, a: byte, b: byte)
    ensures Primed(UpdateHash(UpdateHash(h, a), b), a, b)
  {
    Pow2Table();
    UpdateWidens(h, 0, a, 0);
    UpdateWidens(UpdateHash(h, a), UpdateHash(0, a), b, 5);
    LowByteOfLow10(UpdateHash(UpdateHash(h, a), b), UpdateHash(UpdateHash(0, a), b));
  }

  /** Completing one key primes the hash for the string that starts one byte later. */
  lemma PrimedRolls(h: nat, a: byte, b: byte, c: byte)
    requires Primed(h, a, b)
    ensures UpdateHash(h, c) == HashOf(a, b, c)
    ensures Primed(UpdateHash(h, c), b, c)
  {
    Rehash(h, UpdateHash(UpdateHash(0, a), b), c);
    TwoBytesPrime(UpdateHash(0, a), b, c);
  }

  /** Strings with equal keys that agree on two bytes agree on the third. */
  lemma SameKeySameThirdByte(a: byte, b: byte, c: byte, d: byte)
    requires HashOf(a, b, c) == HashOf(a, b, d)
    ensures c == d
  {
    Pow2Table();
    var h := 32 * UpdateHash(UpdateHash(0, a), b);
    MaskedLowBits(Xor(h, c));
    MaskedLowBits(Xor(h, d));
    XorCancels(h, c, d, 8);
  }

  lemma {:induction false} XorZero(b: nat)
    ensures Xor(0, b) == b
    decreases b
  {
    if b > 0 {
      XorZero(b / 2);
    }
  }

  /** A byte, taken as it is and followed by another, primes the hash too. */
  lemma FreshStartPrimes(a: byte, b: byte)
    ensures Primed(UpdateHash(a, b), a, b)
  {
    XorZero(a);
  }
}
