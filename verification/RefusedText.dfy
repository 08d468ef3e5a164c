/**
 A text of 255 bytes that is compressed, at every level, into an output that a decoder refuses. No three bytes of it
 repeat, so it is sent as literals; the code of the code lengths is cut off.
 */
module RefusedText {
  import opened Arithmetic
  import opened Bytes
  import opened DeflateTables
  import opened BlockFormat
  import opened TokenBuffer
  import opened StoredBlocks
  import opened UniqueTexts
  import opened LengthPlan

  /** The frequent byte of group g. */
  function Frequent(g: nat): byte {
    if g < 32 then 4 else if g < 48 then 1 else if g < 64 then 2 else if g < 80 then 3 else 0
  }

  /** Byte p of the text: 82 groups of a byte that occurs once and a frequent one twice, then the other single bytes. */
  function ByteAt(singles: seq<int>, p: nat): byte
    requires p < 255 && |singles| == 91 && forall i :: 0 <= i < 91 ==> 5 <= singles[i] < 256
  {
    if p >= 246 then singles[p - 164] else if p % 3 == 0 then singles[p / 3] else Frequent(p / 3)
  }

  function Text(): (text: seq<byte>)
    ensures |text| == 255
  {
    SinglesAre();
    seq(255, p requires 0 <= p < 255 => ByteAt(Singles(), p))
  }

  /** Where a single byte stands. */
  function PlaceOf(i: nat): nat {
    if i < 82 then 3 * i else i + 164
  }

  /** The text, for any choice of the single bytes. */
  ghost predicate Made(text: seq<byte>, singles: seq<int>) {
    && |text| == 255 && |singles| == 91 && (forall i :: 0 <= i < 91 ==> 5 <= singles[i] < 256)
    && (forall i, j :: 0 <= i < j < 91 ==> singles[i] != singles[j])
    && (forall p :: 0 <= p < 255 ==> text[p] == ByteAt(singles, p))
  }

  lemma TextIsMade()
    ensures |Lens()| == 257 && Made(Text(), Singles())
  {
    SinglesAre();
  }

  /** Byte p is the i-th single one only in its place. */
  lemma SingleAt(text: seq<byte>, singles: seq<int>, p: nat, i: nat)
    requires Made(text, singles) && p < 255 && i < 91
    ensures PlaceOf(i) < 255 && (text[p] == singles[i] <==> p == PlaceOf(i))
  {
    if p >= 246 {
      assert text[p] == singles[p - 164];
    } else if p % 3 == 0 {
      assert text[p] == singles[p / 3];
    }
  }

  lemma {:induction false} MadeIsRepeatless(text: seq<byte>, singles: seq<int>)
    requires Made(text, singles)
    ensures Repeatless(text)
  {
    hide ByteAt;
    forall i | 0 <= i < 91
      ensures Lonely(text, PlaceOf(i))
    {
      SingleAt(text, singles, PlaceOf(i), i);
      forall j | 0 <= j < 255 && text[j] == text[PlaceOf(i)]
        ensures j == PlaceOf(i)
      {
        SingleAt(text, singles, j, i);
      }
    }
    forall i | 0 <= i && i + 2 < |text|
      ensures Lonely(text, i) || Lonely(text, i + 1) || Lonely(text, i + 2)
    {
      var k := if i >= 244 then i + 2 else if i % 3 == 0 then i else if i % 3 == 1 then i + 2 else i + 1;
      var n := if k < 246 then k / 3 else k - 164;
      assert Lonely(text, PlaceOf(n));
      assert PlaceOf(n) == k;
    }
    LonelyIsRepeatless(text);
  }

  /** How many of the first p bytes are the frequent byte of the groups from g0 up to g1. */
  function SoFar(p: nat, g0: nat, g1: nat): int {
    if p <= 3 * g0 then 0 else if p >= 3 * g1 then 2 * (g1 - g0) else (p - 3 * g0) - (p - 3 * g0 + 2) / 3
  }

  /** The groups of a frequent byte. */
  function FirstGroup(h: nat): nat {
    if h == 4 then 0 else if h == 1 then 32 else if h == 2 then 48 else if h == 3 then 64 else 80
  }

  function EndGroup(h: nat): nat {
    if h == 4 then 32 else if h == 1 then 48 else if h == 2 then 64 else if h == 3 then 80 else 82
  }

  lemma FrequentAt(text: seq<byte>, singles: seq<int>, p: nat, h: nat)
    requires Made(text, singles) && p < 255 && h <= 4
    ensures text[p] == h <==> p < 246 && p % 3 != 0 && FirstGroup(h) <= p / 3 < EndGroup(h)
  {
    assert text[p] == ByteAt(singles, p);
  }

  lemma OneMore(p: nat, g0: nat, g1: nat)
    requires g0 <= g1
    ensures SoFar(p + 1, g0, g1) == SoFar(p, g0, g1) + if p % 3 != 0 && g0 <= p / 3 < g1 then 1 else 0
  {
  }

  lemma {:induction false} FrequentCount(tables: Tables, text: seq<byte>, singles: seq<int>, k: nat, h: nat)
    requires tables.Valid() && Made(text, singles) && k <= 255 && h <= 4 && TokensOk(Literals(text))
    ensures LitCount(tables, Literals(text), k, h) == SoFar(k, FirstGroup(h), EndGroup(h))
    decreases k
  {
    hide Made, SoFar, CoversLength, CoversDist, CoversStretch, FirstGroup, EndGroup;
    GroupBounds(h);
    if k == 0 {
      NoneSoFar(FirstGroup(h), EndGroup(h));
    } else {
      FrequentCount(tables, text, singles, k - 1, h);
      FrequentAt(text, singles, k - 1, h);
      OneMore(k - 1, FirstGroup(h), EndGroup(h));
      MadeSize(text, singles);
    }
  }

  lemma NoneSoFar(g0: nat, g1: nat)
    requires g0 <= g1
    ensures SoFar(0, g0, g1) == 0
  {
  }

  lemma GroupBounds(h: nat)
    requires h <= 4
    ensures FirstGroup(h) <= EndGroup(h) <= 82
  {
  }

  lemma MadeSize(text: seq<byte>, singles: seq<int>)
    requires Made(text, singles)
    ensures |text| == 255 && |singles| == 91 && forall i :: 0 <= i < 91 ==> 5 <= singles[i] < 256
  {
  }

  lemma {:induction false} SingleCount(tables: Tables, text: seq<byte>, singles: seq<int>, k: nat, i: nat)
    requires tables.Valid() && Made(text, singles) && k <= 255 && i < 91 && TokensOk(Literals(text))
    ensures LitCount(tables, Literals(text), k, singles[i]) == if PlaceOf(i) < k then 1 else 0
    decreases k
  {
    hide CoversLength, CoversDist, CoversStretch, ByteAt, PlaceOf;
    if k > 0 {
      SingleCount(tables, text, singles, k - 1, i);
      SingleAt(text, singles, k - 1, i);
    }
  }

  lemma {:induction false} OtherCount(tables: Tables, text: seq<byte>, singles: seq<int>, k: nat, v: int)
    requires tables.Valid() && Made(text, singles) && k <= 255 && (v < 0 || v > 4) && v !in singles && TokensOk(Literals(text))
    ensures LitCount(tables, Literals(text), k, v) == 0
    decreases k
  {
    hide CoversLength, CoversDist, CoversStretch;
    if k > 0 {
      OtherCount(tables, text, singles, k - 1, v);
      assert text[k - 1] == ByteAt(singles, k - 1);
    }
  }

  /** The length that the plan has for a symbol. */
  function Planned(v: int): int
    requires |Lens()| == 257
  {
    if 0 <= v < 257 then Lens()[v] else 0
  }

  /** The plan: short codes for the frequent bytes, 8 bits for the single bytes and the end of the block. */
  lemma PlanFor(v: int)
    requires 0 <= v < L_CODES && |Lens()| == 257
    ensures Planned(v) == if v == 0 then 6 else if v <= 3 then 3 else if v == 4 then 2 else if v == END_BLOCK || v in Singles() then 8 else 0
  {
    hide Lens, Singles;
    SinglesAre();
    LensAre();
    if v <= 4 {
      assert Lens()[v] == Lens()[..5][v];
    } else if v in Singles() {
      var i :| 0 <= i < 91 && Singles()[i] == v;
    }
  }

  lemma {:induction false} TextCount(tables: Tables, v: int)
    requires tables.Valid() && TokensOk(Literals(Text())) && |Text()| == 255 && 0 <= v < L_CODES && |Lens()| == 257
    ensures 0 <= Planned(v) <= 8
    ensures LitCount(tables, Literals(Text()), 255, v) + (if v == END_BLOCK then 1 else 0) == if Planned(v) == 0 then 0 else Pow2(8 - Planned(v))
  {
    hide Text, Singles, Lens, Planned, Made, SoFar, LitCount, FirstGroup, EndGroup, PlaceOf, Pow2, TokensOk, CoversLength, CoversDist, CoversStretch;
    var text, singles := Text(), Singles();
    TextIsMade();
    PlanFor(v);
    MadeSize(text, singles);
    SmallPowers();
    if v <= 4 {
      FrequentCount(tables, text, singles, 255, v);
      FrequentTotal(v);
    } else if v in singles {
      var i :| 0 <= i < 91 && singles[i] == v;
      SingleCount(tables, text, singles, 255, i);
      PlaceInText(i);
    } else {
      OtherCount(tables, text, singles, 255, v);
    }
  }

  lemma PlaceInText(i: nat)
    requires i < 91
    ensures PlaceOf(i) < 255
  {
  }

  /** The bytes of the text, and the end of the block, count the powers of two that the plan says. */
  lemma {:induction false} TextCounts(tables: Tables, f: seq<int>, v: int)
    requires tables.Valid() && TokensOk(Literals(Text())) && LitsCounted(tables, Literals(Text()), f) && 0 <= v < L_CODES && |Lens()| == 257
    ensures 0 <= Planned(v) <= 8 && f[v] == if Planned(v) == 0 then 0 else Pow2(8 - Planned(v))
  {
    hide Text, CoversLength, CoversDist, CoversStretch, Lens, Made, LitCount, Planned, Pow2;
    TextIsMade();
    MadeSize(Text(), Singles());
    TextCount(tables, v);
  }

  lemma FrequentTotal(h: nat)
    requires h <= 4
    ensures SoFar(255, FirstGroup(h), EndGroup(h)) == if h == 4 then 64 else if h == 0 then 4 else 32
  {
  }
}
