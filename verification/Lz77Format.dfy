/**
 The LZ77 layer of the deflate format (section 3.2.3 of RFC 1951): a stream of literal
 bytes and of (length, backward distance) pairs, and what that stream stands for.
 */
module Lz77Format {
  import opened Bytes
  import opened Options

  const MIN_MATCH := 3
  const MAX_MATCH := 258
  const MAX_BACK := 32768

  datatype Token = Literal(lit: byte) | Match(distance: nat, length: nat)

  /** Copies `length` bytes, one at a time, from `distance` bytes back; the source may overlap the copy. */
  function CopyBack(out: seq<byte>, distance: nat, length: nat): (r: seq<byte>)
    requires 1 <= distance <= |out|
    ensures |r| == |out| + length && out <= r
    decreases length
  {
    if length == 0 then out
    else CopyBack(out + [out[|out| - distance]], distance, length - 1)
  }

  /** What a conforming decoder writes for a token stream; None when a pair is malformed. */
  function Expand(tokens: seq<Token>): Option<seq<byte>> {
    if tokens == [] then Some([])
    else
      match Expand(tokens[..|tokens| - 1])
      case None => None
      case Some(out) =>
        match tokens[|tokens| - 1]
        case Literal(lit) => Some(out + [lit])
        case Match(distance, length) =>
          if 1 <= distance <= |out| && distance <= MAX_BACK && MIN_MATCH <= length <= MAX_MATCH
          then Some(CopyBack(out, distance, length))
          else None
  }

  /** Byte `k` of the text equals the byte `distance` places before it. */
  ghost predicate Echoes(text: seq<byte>, k: int, distance: int) {
    0 <= k - distance && 0 <= k < |text| && 0 < distance && text[k] == text[k - distance]
  }

  /** `text` repeats at position `at` what it holds `distance` bytes earlier, for `length` bytes. */
  ghost predicate Repeats(text: seq<byte>, at: int, distance: int, length: int) {
    && 1 <= distance <= at
    && 0 <= length <= |text| - at
    && forall k :: at <= k < at + length ==> Echoes(text, k, distance)
  }

  lemma {:induction false} CopyBackRepeats(text: seq<byte>, at: nat, distance: nat, length: nat)
    requires Repeats(text, at, distance, length)
    ensures CopyBack(text[..at], distance, length) == text[..at + length]
    decreases length
  {
    if length > 0 {
      assert Echoes(text, at, distance);
      assert text[..at] + [text[at]] == text[..at + 1];
      CopyBackRepeats(text, at + 1, distance, length - 1);
    }
  }

  /** One more literal keeps a stream in step with the text it encodes. */
  lemma AppendLiteral(tokens: seq<Token>, text: seq<byte>, at: nat)
    requires at < |text| && Expand(tokens) == Some(text[..at])
    ensures Expand(tokens + [Literal(text[at])]) == Some(text[..at + 1])
  {
    assert (tokens + [Literal(text[at])])[..|tokens|] == tokens;
    assert text[..at] + [text[at]] == text[..at + 1];
  }

  /** So does one more pair, wherever the text really repeats itself. */
  lemma AppendMatch(tokens: seq<Token>, text: seq<byte>, at: nat, distance: nat, length: nat)
    requires Repeats(text, at, distance, length)
    requires Expand(tokens) == Some(text[..at])
    requires distance <= MAX_BACK && MIN_MATCH <= length <= MAX_MATCH
    ensures Expand(tokens + [Match(distance, length)]) == Some(text[..at + length])
  {
    assert (tokens + [Match(distance, length)])[..|tokens|] == tokens;
    CopyBackRepeats(text, at, distance, length);
  }

  /** How many bytes the tokens stand for. */
  function Size(tokens: seq<Token>): nat {
    if tokens == [] then 0
    else
      var t := tokens[|tokens| - 1];
      Size(tokens[..|tokens| - 1]) + if t.Literal? then 1 else t.length
  }

  /** The first tokens of a stream stand for the beginning of its text. */
  lemma {:induction false} PrefixExpands(tokens: seq<Token>, text: seq<byte>, i: nat)
    requires Expand(tokens) == Some(text) && i <= |tokens|
    ensures Size(tokens[..i]) <= |text| && Expand(tokens[..i]) == Some(text[..Size(tokens[..i])])
    decreases |tokens|
  {
    SizeOfExpanded(tokens);
    if i == |tokens| {
      assert tokens[..i] == tokens && text[..|text|] == text;
    } else {
      var init := tokens[..|tokens| - 1];
      var out := Expand(init).value;
      assert init[..i] == tokens[..i];
      PrefixExpands(init, out, i);
      assert out <= text;
      assert out[..Size(tokens[..i])] == text[..Size(tokens[..i])];
    }
  }

  lemma {:induction false} SizeOfExpanded(tokens: seq<Token>)
    requires Expand(tokens).Some?
    ensures |Expand(tokens).value| == Size(tokens)
    decreases |tokens|
  {
    if tokens != [] {
      SizeOfExpanded(tokens[..|tokens| - 1]);
    }
  }
}
