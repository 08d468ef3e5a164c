/** Code lengths for 257 symbols whose runs count 1, 1, 2, 3, 5 and so on, together with those of two distances. */
module LengthPlan {
  import opened CodeLengthRuns
  import opened StretchRuns

  /** The five frequent symbols: one of 6 bits, three of 3, one of 2. */
  function Head(): seq<Stretch> {
    [Stretch(6, 1), Stretch(3, 3), Stretch(2, 1)]
  }

  /** Some symbols that do not occur, and then some that occur once. */
  function Gap(z: nat, k: nat): seq<Stretch> {
    [Stretch(0, z), Stretch(8, k)]
  }

  function Tail(): seq<Stretch> {
    Repeated(Gap(8, 6), 6) + (Repeated(Gap(8, 5), 2) + (Repeated(Gap(15, 5), 5) + Repeated(Gap(1, 1), 21)))
  }

  function Plan(): seq<Stretch> {
    Head() + Tail()
  }

  /** The lengths of the symbols 0 to 256. */
  function Lens(): seq<int> {
    Laid(Plan())
  }

  /** From a gap on: zeros and eights in turn, beginning with zeros and ending with eights. */
  ghost predicate Gaps(ss: seq<Stretch>) {
    && Neat(ss) && ss != [] && ss[0].value == 0 && ss[|ss| - 1].value == 8
    && forall i :: 0 <= i < |ss| ==> ss[i].value == 0 || ss[i].value == 8
  }

  lemma GapsAppend(a: seq<Stretch>, b: seq<Stretch>)
    requires Gaps(a) && Gaps(b)
    ensures Gaps(a + b)
  {
    var c := a + b;
    forall i | 0 <= i < |c|
      ensures Short(c[i]) && (i > 0 ==> c[i].value != c[i - 1].value) && (c[i].value == 0 || c[i].value == 8)
    {
      assert i < |a| ==> c[i] == a[i];
      assert i >= |a| ==> c[i] == b[i - |a|];
    }
  }

  lemma {:induction false} RepeatedGaps(z: nat, k: nat, n: nat)
    requires 1 <= z <= 138 && 1 <= k <= 7 && n >= 1
    ensures Gaps(Repeated(Gap(z, k), n))
    decreases n
  {
    assert Gaps(Gap(z, k));
    if n == 1 {
      assert Repeated(Gap(z, k), 0) + Gap(z, k) == Gap(z, k);
    } else {
      RepeatedGaps(z, k, n - 1);
      GapsAppend(Repeated(Gap(z, k), n - 1), Gap(z, k));
    }
  }

  lemma TailGaps()
    ensures Gaps(Tail())
  {
    hide Gaps, Repeated, Gap;
    RepeatedGaps(8, 6, 6);
    RepeatedGaps(8, 5, 2);
    RepeatedGaps(15, 5, 5);
    RepeatedGaps(1, 1, 21);
    GapsAppend(Repeated(Gap(15, 5), 5), Repeated(Gap(1, 1), 21));
    GapsAppend(Repeated(Gap(8, 5), 2), Repeated(Gap(15, 5), 5) + Repeated(Gap(1, 1), 21));
    GapsAppend(Repeated(Gap(8, 6), 6), Repeated(Gap(8, 5), 2) + (Repeated(Gap(15, 5), 5) + Repeated(Gap(1, 1), 21)));
  }

  lemma PlanIsNeat()
    ensures Neat(Plan())
  {
    hide Tail;
    TailGaps();
    var a, b := Head(), Tail();
    var c := a + b;
    forall i | 0 <= i < |c|
      ensures Short(c[i]) && (i > 0 ==> c[i].value != c[i - 1].value)
    {
      assert i >= |a| ==> c[i] == b[i - |a|];
      assert Neat(a) && i < |a| ==> c[i] == a[i];
    }
  }

  /** What one stretch lays out and sends. */
  lemma OneStretch(s: Stretch)
    ensures Laid([s]) == Copies(s.value, s.times) && AllEmitted([s]) == Emitted(s)
    ensures forall v :: Tally([s], v) == if s.value == v then s.times else 0
  {
    assert [s][..0] == [];
  }

  lemma JoinTimes(a: seq<Stretch>, b: seq<Stretch>, c: int)
    ensures Times(AllEmitted(a + b), c) == Times(AllEmitted(a), c) + Times(AllEmitted(b), c)
  {
    EmittedAppend(a, b);
    TimesAppend(AllEmitted(a), AllEmitted(b), c);
  }

  lemma FewTimes(runs: seq<Run>, c: int)
    requires 1 <= |runs| <= 3
    ensures Times(runs, c) == (if runs[0].symbol == c then 1 else 0) + (if |runs| > 1 && runs[1].symbol == c then 1 else 0)
                              + (if |runs| > 2 && runs[2].symbol == c then 1 else 0)
    decreases |runs|
  {
    if |runs| == 1 {
      assert runs[..0] == [];
    } else {
      FewTimes(runs[..|runs| - 1], c);
    }
  }

  /** How often the symbols of a gap occur. */
  lemma GapTimes(z: nat, k: nat, c: int)
    requires (z == 1 || z == 8 || z == 15) && (k == 1 || k == 5 || k == 6)
    ensures Times(AllEmitted(Gap(z, k)), c)
         == (if c == (if z == 1 then 0 else if z == 8 then REPZ_3_10 else REPZ_11_138) then 1 else 0)
            + (if c == 8 then 1 else 0) + (if c == REP_3_6 && k > 1 then 1 else 0)
  {
    hide Times, AllEmitted;
    var a, b := Stretch(0, z), Stretch(8, k);
    assert Gap(z, k) == [a] + [b];
    JoinTimes([a], [b], c);
    OneStretch(a);
    OneStretch(b);
    FewTimes(Emitted(a), c);
    FewTimes(Emitted(b), c);
  }

  lemma HeadTimes(c: int)
    ensures Times(AllEmitted(Head()), c) == if c == 6 || c == 2 then 1 else if c == 3 then 3 else 0
  {
    hide Times, AllEmitted;
    var x, y, z := Stretch(6, 1), Stretch(3, 3), Stretch(2, 1);
    assert Head() == [x] + ([y] + [z]);
    JoinTimes([x], [y] + [z], c);
    JoinTimes([y], [z], c);
    OneStretch(x);
    OneStretch(y);
    OneStretch(z);
    FewTimes(Emitted(x), c);
    FewTimes(Emitted(y), c);
    FewTimes(Emitted(z), c);
  }

  lemma {:induction false} EmittedTimes(c: int)
    ensures Times(AllEmitted(Plan()), c)
         == if c == 8 then 34 else if c == 0 then 21 else if c == REP_3_6 then 13 else if c == REPZ_3_10 then 8
            else if c == REPZ_11_138 then 5 else if c == 3 then 3 else if c == 6 || c == 2 then 1 else 0
  {
    hide Times, AllEmitted, Repeated, Head, Gap;
    var p1, p2, p3, p4 := Repeated(Gap(8, 6), 6), Repeated(Gap(8, 5), 2), Repeated(Gap(15, 5), 5), Repeated(Gap(1, 1), 21);
    JoinTimes(Head(), Tail(), c);
    JoinTimes(p1, p2 + (p3 + p4), c);
    JoinTimes(p2, p3 + p4, c);
    JoinTimes(p3, p4, c);
    TimesRepeated(Gap(8, 6), 6, c);
    TimesRepeated(Gap(8, 5), 2, c);
    TimesRepeated(Gap(15, 5), 5, c);
    TimesRepeated(Gap(1, 1), 21, c);
    GapTimes(8, 6, c);
    GapTimes(8, 5, c);
    GapTimes(15, 5, c);
    GapTimes(1, 1, c);
    HeadTimes(c);
  }

  /** How often each symbol is sent for the plan. */
  lemma {:induction false} PlanTimes(c: int)
    ensures Times(RunsOf(Lens()), c)
         == if c == 8 then 34 else if c == 0 then 21 else if c == REP_3_6 then 13 else if c == REPZ_3_10 then 8
            else if c == REPZ_11_138 then 5 else if c == 3 then 3 else if c == 6 || c == 2 then 1 else 0
  {
    hide Times, AllEmitted, RunsOf, Plan, Laid, Neat;
    PlanIsNeat();
    RunsOfStretches(Plan());
    EmittedTimes(c);
  }

  /** The size and the eights of n gaps. */
  lemma GapSizes(z: nat, k: nat, n: nat)
    ensures |Laid(Repeated(Gap(z, k), n))| == n * (z + k) && Tally(Repeated(Gap(z, k), n), 8) == n * k
  {
    hide Laid, Tally, Repeated;
    var a, b := Stretch(0, z), Stretch(8, k);
    assert Gap(z, k) == [a] + [b];
    LaidAppend([a], [b]);
    TallyAppend([a], [b], 8);
    OneStretch(a);
    OneStretch(b);
    SizeRepeated(Gap(z, k), n, 8);
  }

  lemma HeadLaid()
    ensures Laid(Head()) == [6, 3, 3, 3, 2] && Tally(Head(), 8) == 0
  {
    hide Laid, Tally;
    var x, y, z := Stretch(6, 1), Stretch(3, 3), Stretch(2, 1);
    assert Head() == [x] + ([y] + [z]);
    LaidAppend([x], [y] + [z]);
    LaidAppend([y], [z]);
    TallyAppend([x], [y] + [z], 8);
    TallyAppend([y], [z], 8);
    OneStretch(x);
    OneStretch(y);
    OneStretch(z);
    assert Copies(6, 1) == [6] && Copies(3, 3) == [3, 3, 3] && Copies(2, 1) == [2];
  }

  lemma SizesJoin(a: seq<Stretch>, b: seq<Stretch>)
    ensures |Laid(a + b)| == |Laid(a)| + |Laid(b)| && Tally(a + b, 8) == Tally(a, 8) + Tally(b, 8)
  {
    LaidAppend(a, b);
    TallyAppend(a, b, 8);
  }

  lemma {:induction false} TailSize()
    ensures |Laid(Tail())| == 252 && Tally(Tail(), 8) == 92
  {
    hide Laid, Tally, Repeated, Gap;
    var p1, p2, p3, p4 := Repeated(Gap(8, 6), 6), Repeated(Gap(8, 5), 2), Repeated(Gap(15, 5), 5), Repeated(Gap(1, 1), 21);
    SizesJoin(p1, p2 + (p3 + p4));
    SizesJoin(p2, p3 + p4);
    SizesJoin(p3, p4);
    GapSizes(8, 6, 6);
    GapSizes(8, 5, 2);
    GapSizes(15, 5, 5);
    GapSizes(1, 1, 21);
  }

  /** There are 257 lengths, 92 of them 8; the first five are frequent symbols, the last one occurs. */
  lemma {:induction false} LensAre()
    ensures |Lens()| == 257 && Tally(Plan(), 8) == 92 && Lens()[256] == 8 && Lens()[..5] == [6, 3, 3, 3, 2]
    ensures forall v :: 5 <= v < 257 ==> Lens()[v] == 0 || Lens()[v] == 8
  {
    hide Laid, Tally, Tail, Head, Neat;
    TailGaps();
    TailSize();
    HeadLaid();
    LaidAppend(Head(), Tail());
    SizesJoin(Head(), Tail());
    LaidLengths(Tail());
    OnlyThese(Tail());
  }

  lemma LensBegin()
    ensures |Lens()| == 257 && Lens()[0] == 6 && Lens()[1] == 3 && Lens()[2] == 3 && Lens()[3] == 3 && Lens()[4] == 2 && Lens()[256] == 8
  {
    hide Laid, Tally, Plan;
    LensAre();
    var lens := Lens();
    assert lens[0] == lens[..5][0] && lens[1] == lens[..5][1] && lens[2] == lens[..5][2] && lens[3] == lens[..5][3] && lens[4] == lens[..5][4];
  }

  lemma {:induction false} OnlyThese(ss: seq<Stretch>)
    requires forall i :: 0 <= i < |ss| ==> ss[i].value == 0 || ss[i].value == 8
    ensures forall v :: 0 <= v < |Laid(ss)| ==> Laid(ss)[v] == 0 || Laid(ss)[v] == 8
    decreases |ss|
  {
    if ss != [] {
      OnlyThese(ss[..|ss| - 1]);
    }
  }

  /** The symbols below n of length 8. */
  function Eights(lens: seq<int>, n: nat): (r: seq<int>)
    requires n <= |lens|
    ensures forall i :: 0 <= i < |r| ==> 0 <= r[i] < n && lens[r[i]] == 8
    ensures forall i, j :: 0 <= i < j < |r| ==> r[i] < r[j]
    ensures forall v :: 0 <= v < n && lens[v] == 8 ==> v in r
  {
    if n == 0 then [] else if lens[n - 1] == 8 then Eights(lens, n - 1) + [n - 1] else Eights(lens, n - 1)
  }

  lemma {:induction false} EightsOfPrefix(a: seq<int>, b: seq<int>, n: nat)
    requires n <= |a|
    ensures Eights(a + b, n) == Eights(a, n)
    decreases n
  {
    if n > 0 {
      EightsOfPrefix(a, b, n - 1);
    }
  }

  lemma {:induction false} EightsOfCopies(a: seq<int>, v: int, m: nat, n: nat)
    requires n <= m
    ensures |Eights(a + Copies(v, m), |a| + n)| == |Eights(a, |a|)| + if v == 8 then n else 0
    decreases n
  {
    if n == 0 {
      EightsOfPrefix(a, Copies(v, m), |a|);
    } else {
      EightsOfCopies(a, v, m, n - 1);
    }
  }

  /** As many symbols have length 8 as the stretches say. */
  lemma {:induction false} EightsTallied(ss: seq<Stretch>)
    ensures |Eights(Laid(ss), |Laid(ss)|)| == Tally(ss, 8)
    decreases |ss|
  {
    if ss != [] {
      var init, last := ss[..|ss| - 1], ss[|ss| - 1];
      EightsTallied(init);
      EightsOfCopies(Laid(init), last.value, last.times, last.times);
    }
  }

  /** The 91 bytes that occur once. */
  function Singles(): seq<int>
    requires |Lens()| == 257
  {
    Eights(Lens(), 256)
  }

  lemma {:induction false} SinglesAre()
    ensures |Lens()| == 257 && |Singles()| == 91
    ensures forall i :: 0 <= i < 91 ==> 5 <= Singles()[i] < 256 && Lens()[Singles()[i]] == 8
    ensures forall i, j :: 0 <= i < j < 91 ==> Singles()[i] != Singles()[j]
    ensures forall v :: 0 <= v < 256 && Lens()[v] == 8 ==> v in Singles()
  {
    hide Lens, Tally, Plan, Eights;
    LensAre();
    LastEight(Lens());
    LensAreLaid();
    forall v | 0 <= v < 5
      ensures Lens()[v] != 8
    {
      assert Lens()[v] == Lens()[..5][v];
    }
  }

  lemma LensAreLaid()
    ensures |Eights(Lens(), |Lens()|)| == Tally(Plan(), 8)
  {
    hide Laid, Tally, Plan, Eights;
    EightsTallied(Plan());
  }

  lemma LastEight(lens: seq<int>)
    requires |lens| == 257 && lens[256] == 8
    ensures |Eights(lens, 257)| == |Eights(lens, 256)| + 1
  {
  }
}
