/** The symbols sent for lengths that are laid out in stretches of equal ones. */
module StretchRuns {
  import opened CodeLengthRuns

  datatype Stretch = Stretch(value: int, times: nat)

  /** The lengths of all stretches, one after the other. */
  function Laid(ss: seq<Stretch>): seq<int> {
    if ss == [] then [] else Laid(ss[..|ss| - 1]) + Copies(ss[|ss| - 1].value, ss[|ss| - 1].times)
  }

  /** A stretch that is sent at once. */
  predicate Short(s: Stretch) {
    0 <= s.value <= LONGEST && 1 <= s.times <= if s.value == 0 then 138 else 7
  }

  /** All stretches are short, and neighbours differ. */
  ghost predicate Neat(ss: seq<Stretch>) {
    && (forall i :: 0 <= i < |ss| ==> Short(ss[i]))
    && (forall i :: 0 < i < |ss| ==> ss[i].value != ss[i - 1].value)
  }

  /** The symbols sent for one stretch. */
  function Emitted(s: Stretch): seq<Run> {
    Flushed(s.value, -1, s.times, if s.value == 0 then 3 else 4)
  }

  function AllEmitted(ss: seq<Stretch>): seq<Run> {
    if ss == [] then [] else AllEmitted(ss[..|ss| - 1]) + Emitted(ss[|ss| - 1])
  }

  /** From p on there are n lengths v, and then another one. */
  ghost predicate Stands(lens: seq<int>, p: nat, n: nat, v: int) {
    && p + n <= |lens| && Short(Stretch(v, n))
    && (forall i :: p <= i < p + n ==> lens[i] == v) && LengthAt(lens, p + n) != v
  }

  /** Within a stretch the scan only counts. */
  lemma {:induction false} StretchPending(lens: seq<int>, p: nat, n: nat, v: int, i: nat)
    requires Stands(lens, p, n, v) && i < n && ScanOf(lens, p).count == 0 && Limits(ScanOf(lens, p), v) && ScanOf(lens, p).prev != v
    ensures ScanOf(lens, p + i) == ScanOf(lens, p).(count := i)
    decreases i
  {
    if i > 0 {
      StretchPending(lens, p, n, v, i - 1);
      assert lens[p + i - 1] == v && LengthAt(lens, p + i) == v;
    }
  }

  /** At its end it is sent. */
  lemma {:induction false} StretchSent(lens: seq<int>, p: nat, n: nat, v: int)
    requires Stands(lens, p, n, v) && ScanOf(lens, p).count == 0 && Limits(ScanOf(lens, p), v) && ScanOf(lens, p).prev != v
    ensures var s := ScanOf(lens, p + n); s.count == 0 && s.out == ScanOf(lens, p).out + Emitted(Stretch(v, n))
  {
    StretchPending(lens, p, n, v, n - 1);
    assert lens[p + n - 1] == v;
  }

  lemma {:induction false} LaidPrefix(ss: seq<Stretch>, k: nat)
    requires k <= |ss|
    ensures Laid(ss[..k]) <= Laid(ss)
    decreases |ss|
  {
    if k == |ss| {
      assert ss[..k] == ss;
    } else {
      assert ss[..|ss| - 1][..k] == ss[..k];
      LaidPrefix(ss[..|ss| - 1], k);
    }
  }

  lemma {:induction false} LaidLengths(ss: seq<Stretch>)
    requires Neat(ss)
    ensures Lengths(Laid(ss)) && (ss != [] ==> Laid(ss) != [] && Laid(ss)[|Laid(ss)| - 1] == ss[|ss| - 1].value)
    decreases |ss|
  {
    if ss != [] {
      LaidLengths(ss[..|ss| - 1]);
      assert Short(ss[|ss| - 1]);
    }
  }

  /** Stretch k in its place. */
  lemma {:induction false} StretchStands(ss: seq<Stretch>, k: nat)
    requires Neat(ss) && k < |ss|
    ensures Stands(Laid(ss), |Laid(ss[..k])|, ss[k].times, ss[k].value)
    ensures |Laid(ss[..k + 1])| == |Laid(ss[..k])| + ss[k].times
  {
    var lens, p, n := Laid(ss), |Laid(ss[..k])|, ss[k].times;
    assert ss[..k + 1][..k] == ss[..k];
    LaidPrefix(ss, k + 1);
    assert Short(ss[k]);
    forall i | p <= i < p + n
      ensures lens[i] == ss[k].value
    {
      assert Laid(ss[..k + 1])[i] == ss[k].value;
    }
    if k + 1 < |ss| {
      assert ss[..k + 2][..k + 1] == ss[..k + 1] && Short(ss[k + 1]);
      LaidPrefix(ss, k + 2);
      assert Laid(ss[..k + 2])[p + n] == ss[k + 1].value;
      assert lens[p + n] == ss[k + 1].value;
    } else {
      assert ss[..k + 1] == ss;
    }
  }

  lemma {:induction false} StretchesSent(ss: seq<Stretch>, k: nat)
    requires Neat(ss) && k <= |ss|
    ensures |Laid(ss[..k])| <= |Laid(ss)|
    ensures var s := ScanOf(Laid(ss), |Laid(ss[..k])|); s.count == 0 && s.out == AllEmitted(ss[..k])
    decreases k
  {
    hide ScanOf, Flushed, Neat, Lengths;
    var lens := Laid(ss);
    LaidPrefix(ss, k);
    if k == 0 {
      NothingScanned(lens);
    } else {
      var p, t := |Laid(ss[..k - 1])|, ss[k - 1];
      StretchesSent(ss, k - 1);
      StretchStands(ss, k - 1);
      LaidLengths(ss);
      ScanKeepsScanning(lens, p);
      BeforeStretch(ss, k - 1);
      StretchSent(lens, p, t.times, t.value);
      assert ss[..k][..k - 1] == ss[..k - 1];
    }
  }

  lemma NothingScanned(lens: seq<int>)
    ensures ScanOf(lens, 0).count == 0 && ScanOf(lens, 0).out == []
  {
  }

  /** What comes before a stretch is different. */
  lemma {:induction false} BeforeStretch(ss: seq<Stretch>, k: nat)
    requires Neat(ss) && k < |ss|
    ensures var p := |Laid(ss[..k])|; p <= |Laid(ss)| && (p > 0 ==> Laid(ss)[p - 1] != ss[k].value) && 0 <= ss[k].value
  {
    LaidPrefix(ss, k);
    LaidLengths(ss[..k]);
    assert Short(ss[k]);
  }

  /** The symbols sent for stretches are those of each. */
  lemma {:induction false} RunsOfStretches(ss: seq<Stretch>)
    requires Neat(ss)
    ensures RunsOf(Laid(ss)) == AllEmitted(ss)
  {
    StretchesSent(ss, |ss|);
    assert ss[..|ss|] == ss;
  }

  /** A pattern, n times. */
  function Repeated(ss: seq<Stretch>, n: nat): seq<Stretch> {
    if n == 0 then [] else Repeated(ss, n - 1) + ss
  }

  lemma {:induction false} EmittedAppend(a: seq<Stretch>, b: seq<Stretch>)
    ensures AllEmitted(a + b) == AllEmitted(a) + AllEmitted(b)
    decreases |b|
  {
    hide Emitted;
    if b == [] {
      assert a + b == a;
    } else {
      assert (a + b)[..|a + b| - 1] == a + b[..|b| - 1];
      EmittedAppend(a, b[..|b| - 1]);
    }
  }

  lemma {:induction false} TimesRepeated(ss: seq<Stretch>, n: nat, symbol: int)
    ensures Times(AllEmitted(Repeated(ss, n)), symbol) == n * Times(AllEmitted(ss), symbol)
    decreases n
  {
    hide AllEmitted, Times;
    if n == 0 {
      NothingEmitted(symbol);
    } else {
      TimesRepeated(ss, n - 1, symbol);
      EmittedAppend(Repeated(ss, n - 1), ss);
      TimesAppend(AllEmitted(Repeated(ss, n - 1)), AllEmitted(ss), symbol);
    }
  }

  lemma NothingEmitted(symbol: int)
    ensures Times(AllEmitted([]), symbol) == 0
  {
  }

  lemma {:induction false} LaidAppend(a: seq<Stretch>, b: seq<Stretch>)
    ensures Laid(a + b) == Laid(a) + Laid(b)
    decreases |b|
  {
    if b == [] {
      assert a + b == a;
    } else {
      assert (a + b)[..|a + b| - 1] == a + b[..|b| - 1];
      LaidAppend(a, b[..|b| - 1]);
    }
  }

  /** How many lengths of the stretches are v. */
  function Tally(ss: seq<Stretch>, v: int): nat {
    if ss == [] then 0 else Tally(ss[..|ss| - 1], v) + if ss[|ss| - 1].value == v then ss[|ss| - 1].times else 0
  }

  lemma {:induction false} TallyAppend(a: seq<Stretch>, b: seq<Stretch>, v: int)
    ensures Tally(a + b, v) == Tally(a, v) + Tally(b, v)
    decreases |b|
  {
    if b == [] {
      assert a + b == a;
    } else {
      assert (a + b)[..|a + b| - 1] == a + b[..|b| - 1];
      TallyAppend(a, b[..|b| - 1], v);
    }
  }

  /** A pattern of the given size, laid out n times. */
  lemma {:induction false} SizeRepeated(ss: seq<Stretch>, n: nat, v: int)
    ensures |Laid(Repeated(ss, n))| == n * |Laid(ss)| && Tally(Repeated(ss, n), v) == n * Tally(ss, v)
    decreases n
  {
    hide Laid, Tally;
    if n == 0 {
      NothingLaid(v);
    } else {
      SizeRepeated(ss, n - 1, v);
      LaidAppend(Repeated(ss, n - 1), ss);
      TallyAppend(Repeated(ss, n - 1), ss, v);
      assert n * |Laid(ss)| == (n - 1) * |Laid(ss)| + |Laid(ss)| && n * Tally(ss, v) == (n - 1) * Tally(ss, v) + Tally(ss, v);
    }
  }

  lemma NothingLaid(v: int)
    ensures Laid([]) == [] && Tally([], v) == 0
  {
  }
}
