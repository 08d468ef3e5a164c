/** Texts in which no three bytes in a row occur twice: there is nothing to match. */
module UniqueTexts {
  import opened Bytes
  import opened Options
  import opened Lz77Format
  import opened StoredBlocks

  /** The three bytes at i are those at j. */
  predicate SameThree(text: seq<byte>, i: int, j: int) {
    && 0 <= i && i + 2 < |text| && 0 <= j && j + 2 < |text|
    && text[i] == text[j] && text[i + 1] == text[j + 1] && text[i + 2] == text[j + 2]
  }

  /** No three bytes in a row occur at two places. */
  ghost predicate Repeatless(text: seq<byte>) {
    forall i, j :: i < j ==> !SameThree(text, i, j)
  }

  /** Byte k of a copy is the byte `distance` places before it. */
  lemma {:induction false} CopyEchoes(out: seq<byte>, distance: nat, length: nat, k: nat)
    requires 1 <= distance <= |out| && |out| <= k < |out| + length
    ensures var r := CopyBack(out, distance, length); r[k] == r[k - distance]
    decreases length
  {
    var next := out + [out[|out| - distance]];
    if k > |out| {
      CopyEchoes(next, distance, length - 1, k);
    } else {
      var r := CopyBack(next, distance, length - 1);
      assert r[k] == next[k] && r[k - distance] == next[k - distance];
    }
  }

  /** A match repeats three bytes. */
  lemma MatchRepeats(out: seq<byte>, distance: nat, length: nat, text: seq<byte>)
    requires 1 <= distance <= |out| && length >= 3 && CopyBack(out, distance, length) <= text
    ensures SameThree(text, |out| - distance, |out|)
  {
    hide CopyBack;
    var at := |out|;
    forall k | at <= k < at + 3
      ensures text[k] == text[k - distance]
    {
      CopyEchoes(out, distance, length, k);
    }
  }

  /** In such a text there is no match: only its literals expand to it. */
  lemma {:induction false} OnlyItsLiterals(tokens: seq<Token>, text: seq<byte>, whole: seq<byte>)
    requires Expand(tokens) == Some(text) && text <= whole && Repeatless(whole)
    ensures tokens == Literals(text)
    decreases |tokens|
  {
    hide CopyBack, SameThree;
    if tokens != [] {
      var init, last := tokens[..|tokens| - 1], tokens[|tokens| - 1];
      var out := Expand(init).value;
      if last.Match? {
        MatchRepeats(out, last.distance, last.length, whole);
        assert false;
      }
      OnlyItsLiterals(init, out, whole);
      assert tokens == init + [last];
    }
  }

  /** A byte that occurs nowhere else. */
  ghost predicate Lonely(text: seq<byte>, k: int) {
    0 <= k < |text| && forall j :: 0 <= j < |text| && text[j] == text[k] ==> j == k
  }

  /** Where every three bytes in a row hold one that occurs nowhere else, nothing repeats. */
  lemma LonelyIsRepeatless(text: seq<byte>)
    requires forall i :: 0 <= i && i + 2 < |text| ==> Lonely(text, i) || Lonely(text, i + 1) || Lonely(text, i + 2)
    ensures Repeatless(text)
  {
    forall i, j | i < j
      ensures !SameThree(text, i, j)
    {
      if 0 <= i && i + 2 < |text| {
        assert Lonely(text, i) || Lonely(text, i + 1) || Lonely(text, i + 2);
      }
    }
  }
}
