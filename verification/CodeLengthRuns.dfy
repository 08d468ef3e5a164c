/**
 Run-length coding of code lengths: the encoder's scan and send loops over a tree, and the
 decoder of section 3.2.7 of RFC 1951.
 */
module CodeLengthRuns {
  import opened Options

  const REP_3_6 := 16
  const REPZ_3_10 := 17
  const REPZ_11_138 := 18
  const GUARD := 0xffff
  const LONGEST := 15

  /** One symbol of the code length alphabet, with the value of its extra bits. */
  datatype Run = Run(symbol: int, value: int)

  /** How many extra bits follow a symbol of the code length alphabet. */
  function RunBits(symbol: int): nat {
    if symbol == REP_3_6 then 2 else if symbol == REPZ_3_10 then 3 else if symbol == REPZ_11_138 then 7 else 0
  }

  function Copies(v: int, n: nat): (r: seq<int>)
    ensures |r| == n && forall i :: 0 <= i < n ==> r[i] == v
  {
    seq(n, _ => v)
  }

  /** What one symbol adds to the lengths read so far, as the standard has it. */
  function ReadRun(run: Run, sofar: seq<int>): Option<seq<int>> {
    if run.value < 0 then None
    else if 0 <= run.symbol <= LONGEST then Some(sofar + [run.symbol])
    else if run.symbol == REP_3_6 then
      if sofar == [] || run.value > 3 then None else Some(sofar + Copies(sofar[|sofar| - 1], 3 + run.value))
    else if run.symbol == REPZ_3_10 then
      if run.value > 7 then None else Some(sofar + Copies(0, 3 + run.value))
    else if run.symbol == REPZ_11_138 then
      if run.value > 127 then None else Some(sofar + Copies(0, 11 + run.value))
    else None
  }

  function ReadRuns(runs: seq<Run>, sofar: seq<int>): Option<seq<int>> {
    if runs == [] then Some(sofar)
    else
      match ReadRun(runs[0], sofar)
      case None => None
      case Some(next) => ReadRuns(runs[1..], next)
  }

  lemma {:induction false} ReadAppend(a: seq<Run>, b: seq<Run>, sofar: seq<int>)
    ensures ReadRuns(a + b, sofar) ==
            (match ReadRuns(a, sofar) case None => None case Some(next) => ReadRuns(b, next))
    decreases |a|
  {
    if a == [] {
      assert a + b == b;
    } else {
      assert (a + b)[1..] == a[1..] + b;
      match ReadRun(a[0], sofar)
      case None =>
      case Some(next) => ReadAppend(a[1..], b, next);
    }
  }

  /** How often a symbol occurs. */
  function Times(runs: seq<Run>, symbol: int): nat {
    if runs == [] then 0 else Times(runs[..|runs| - 1], symbol) + (if runs[|runs| - 1].symbol == symbol then 1 else 0)
  }

  lemma {:induction false} TimesAppend(a: seq<Run>, b: seq<Run>, symbol: int)
    ensures Times(a + b, symbol) == Times(a, symbol) + Times(b, symbol)
    decreases |b|
  {
    if b == [] {
      assert a + b == a;
    } else {
      assert (a + b)[..|a + b| - 1] == a + b[..|b| - 1];
      TimesAppend(a, b[..|b| - 1], symbol);
    }
  }

  /** The symbols that stand for `count` lengths `cur` after the length `prev`. */
  function Flushed(cur: int, prev: int, count: nat, minCount: nat): seq<Run> {
    if count < minCount then seq(count, _ => Run(cur, 0))
    else if cur != 0 then
      if cur != prev then [Run(cur, 0), Run(REP_3_6, count - 1 - 3)] else [Run(REP_3_6, count - 3)]
    else if count <= 10 then [Run(REPZ_3_10, count - 3)]
    else [Run(REPZ_11_138, count - 11)]
  }

  /** The state of the scan between two symbols of the tree. */
  datatype Scan = Scan(prev: int, count: nat, maxCount: nat, minCount: nat, out: seq<Run>)

  /** The length of symbol n, or the guard behind the last symbol. */
  function LengthAt(lens: seq<int>, n: nat): int {
    if n < |lens| then lens[n] else GUARD
  }

  function Start(lens: seq<int>): Scan {
    if LengthAt(lens, 0) == 0 then Scan(-1, 0, 138, 3, []) else Scan(-1, 0, 7, 4, [])
  }

  /** One more symbol of length `cur`, followed by one of length `next`. */
  function Step(s: Scan, cur: int, next: int): Scan {
    var count := s.count + 1;
    if count < s.maxCount && cur == next then s.(count := count)
    else
      var out := s.out + Flushed(cur, s.prev, count, s.minCount);
      if next == 0 then Scan(cur, 0, 138, 3, out)
      else if cur == next then Scan(cur, 0, 6, 3, out)
      else Scan(cur, 0, 7, 4, out)
  }

  /** The scan after n symbols. */
  function ScanOf(lens: seq<int>, n: nat): Scan
    requires n <= |lens|
  {
    if n == 0 then Start(lens) else Step(ScanOf(lens, n - 1), lens[n - 1], LengthAt(lens, n))
  }

  /** The symbols sent for the lengths of a tree. */
  function RunsOf(lens: seq<int>): seq<Run> {
    ScanOf(lens, |lens|).out
  }

  ghost predicate Lengths(lens: seq<int>) {
    forall i :: 0 <= i < |lens| ==> 0 <= lens[i] <= LONGEST
  }

  /** The limits fit a pending run of value v after the length prev. */
  ghost predicate Limits(s: Scan, v: int) {
    if v == 0 then s.maxCount == 138 && s.minCount == 3
    else if v == s.prev then s.maxCount == 6 && s.minCount == 3
    else s.maxCount == 7 && s.minCount == 4
  }

  /** What has been sent stands for all lengths but the pending ones, which are equal. */
  ghost predicate Scanning(s: Scan, lens: seq<int>, n: nat) {
    && s.count <= n <= |lens| && s.count < s.maxCount && Limits(s, LengthAt(lens, n))
    && s.prev == (if n == s.count then -1 else lens[n - s.count - 1])
    && (forall i :: n - s.count <= i < n ==> lens[i] == LengthAt(lens, n))
    && Sends(s.out, lens[..n - s.count])
  }

  /** After whatever lengths came before, `out` adds exactly `lens`. */
  ghost predicate Sends(out: seq<Run>, lens: seq<int>) {
    forall sofar: seq<int> :: ReadRuns(out, sofar) == Some(sofar + lens)
  }

  lemma {:induction false} CopiesRead(v: int, n: nat, sofar: seq<int>)
    requires 0 <= v <= LONGEST
    ensures ReadRuns(seq(n, _ => Run(v, 0)), sofar) == Some(sofar + Copies(v, n))
    decreases n
  {
    var runs := seq(n, _ => Run(v, 0));
    if n == 0 {
      assert sofar + Copies(v, 0) == sofar;
    } else {
      assert runs[1..] == seq(n - 1, _ => Run(v, 0));
      CopiesRead(v, n - 1, sofar + [v]);
      assert sofar + [v] + Copies(v, n - 1) == sofar + Copies(v, n);
    }
  }

  /** The flushed symbols stand for the pending run. */
  lemma FlushedRead(s: Scan, cur: int, count: nat, sofar: seq<int>)
    requires 0 <= cur <= LONGEST && 1 <= count <= s.maxCount && Limits(s, cur)
    requires cur == s.prev && cur != 0 ==> sofar != [] && sofar[|sofar| - 1] == cur
    ensures ReadRuns(Flushed(cur, s.prev, count, s.minCount), sofar) == Some(sofar + Copies(cur, count))
  {
    var out := Flushed(cur, s.prev, count, s.minCount);
    if count < s.minCount {
      CopiesRead(cur, count, sofar);
    } else if cur != 0 && cur != s.prev {
      var rest := [Run(REP_3_6, count - 4)];
      assert out[1..] == rest && rest[1..] == [];
      assert ReadRuns(rest, sofar + [cur]) == Some(sofar + [cur] + Copies(cur, count - 1));
      assert sofar + [cur] + Copies(cur, count - 1) == sofar + Copies(cur, count);
    } else {
      assert out[1..] == [];
    }
  }

  lemma {:induction false} StepKeepsScanning(s: Scan, lens: seq<int>, n: nat)
    requires Lengths(lens) && n < |lens| && Scanning(s, lens, n)
    ensures Scanning(Step(s, lens[n], LengthAt(lens, n + 1)), lens, n + 1)
  {
    var cur, next, count := lens[n], LengthAt(lens, n + 1), s.count + 1;
    if !(count < s.maxCount && cur == next) {
      var k := n + 1 - count;
      var out := s.out + Flushed(cur, s.prev, count, s.minCount);
      assert lens[..n + 1] == lens[..k] + Copies(cur, count);
      forall sofar: seq<int>
        ensures ReadRuns(out, sofar) == Some(sofar + lens[..n + 1])
      {
        ReadAppend(s.out, Flushed(cur, s.prev, count, s.minCount), sofar);
        FlushedRead(s, cur, count, sofar + lens[..k]);
        assert sofar + lens[..k] + Copies(cur, count) == sofar + lens[..n + 1];
      }
    } else {
      assert n + 1 - count == n - s.count;
    }
  }

  lemma {:induction false} ScanKeepsScanning(lens: seq<int>, n: nat)
    requires Lengths(lens) && n <= |lens|
    ensures Scanning(ScanOf(lens, n), lens, n)
    decreases n
  {
    if n == 0 {
      forall sofar: seq<int>
        ensures ReadRuns([], sofar) == Some(sofar + lens[..0])
      {
        assert sofar + lens[..0] == sofar;
      }
    } else {
      ScanKeepsScanning(lens, n - 1);
      StepKeepsScanning(ScanOf(lens, n - 1), lens, n - 1);
    }
  }

  /** The symbols sent for a tree read back as its lengths, whatever lengths were read before. */
  lemma RunsReadBack(lens: seq<int>, sofar: seq<int>)
    requires Lengths(lens)
    ensures ReadRuns(RunsOf(lens), sofar) == Some(sofar + lens)
  {
    ScanKeepsScanning(lens, |lens|);
    var s := ScanOf(lens, |lens|);
    assert LengthAt(lens, |lens|) == GUARD;
    assert lens[..|lens|] == lens;
  }

  /** A symbol of the alphabet, with a value its extra bits can hold. */
  predicate RunFits(run: Run) {
    && 0 <= run.symbol < BL_CODES
    && 0 <= run.value < (if run.symbol == REP_3_6 then 4 else if run.symbol == REPZ_3_10 then 8
                         else if run.symbol == REPZ_11_138 then 128 else 1)
  }

  ghost predicate RunsFit(runs: seq<Run>) {
    forall i :: 0 <= i < |runs| ==> RunFits(runs[i])
  }

  lemma FlushedFit(s: Scan, cur: int, count: nat)
    requires 0 <= cur <= LONGEST && 1 <= count <= s.maxCount && Limits(s, cur)
    ensures RunsFit(Flushed(cur, s.prev, count, s.minCount))
  {
  }

  lemma {:induction false} ScanFits(lens: seq<int>, n: nat)
    requires Lengths(lens) && n <= |lens|
    ensures RunsFit(ScanOf(lens, n).out)
    decreases n
  {
    if n > 0 {
      ScanFits(lens, n - 1);
      ScanKeepsScanning(lens, n - 1);
      var s := ScanOf(lens, n - 1);
      FlushedFit(s, lens[n - 1], s.count + 1);
    }
  }

  /** Nothing but repeats, read after zeros, gives nothing but zeros. */
  lemma {:induction false} RepeatsGiveZeros(runs: seq<Run>, sofar: seq<int>, all: seq<int>)
    requires forall i :: 0 <= i < |runs| ==> runs[i].symbol > LONGEST
    requires (forall i :: 0 <= i < |sofar| ==> sofar[i] == 0) && ReadRuns(runs, sofar) == Some(all)
    ensures forall i :: 0 <= i < |all| ==> all[i] == 0
    decreases |runs|
  {
    if runs != [] {
      var next := ReadRun(runs[0], sofar).value;
      RepeatsGiveZeros(runs[1..], next, all);
    }
  }

  /** A tree with any code at all sends some length as it is. */
  lemma SomePlainLength(lens: seq<int>, n: int) returns (i: int)
    requires Lengths(lens) && 0 <= n < |lens| && lens[n] != 0
    ensures 0 <= i < |RunsOf(lens)| && 0 <= RunsOf(lens)[i].symbol <= LONGEST
  {
    var runs := RunsOf(lens);
    ScanFits(lens, |lens|);
    if j :| 0 <= j < |runs| && runs[j].symbol <= LONGEST {
      assert RunFits(runs[j]);
      i := j;
    } else {
      RunsReadBack(lens, []);
      assert [] + lens == lens;
      RepeatsGiveZeros(runs, [], lens);
      assert false;
    }
  }

  /** A symbol that occurs is counted. */
  lemma {:induction false} OccursCounts(runs: seq<Run>, i: int)
    requires 0 <= i < |runs|
    ensures Times(runs, runs[i].symbol) > 0
    decreases |runs|
  {
    if i < |runs| - 1 {
      OccursCounts(runs[..|runs| - 1], i);
    }
  }

  /** A length table with the guard behind the last symbol. */
  ghost predicate Guarded(dl: seq<int>, maxCode: int) {
    0 <= maxCode && maxCode + 1 < |dl| && dl[maxCode + 1] == GUARD
  }

  /** Sends the code of a length `count` times. */
  method SendCopies(curlen: int, count0: int) returns (out: seq<Run>)
    requires count0 >= 1
    ensures out == seq(count0, _ => Run(curlen, 0))
  {
    out := [];
    var count := count0;
    while true
      invariant 1 <= count <= count0 && out == seq(count0 - count, _ => Run(curlen, 0))
      decreases count
    {
      out := out + [Run(curlen, 0)];
      count := count - 1;
      if count == 0 {
        break;
      }
    }
  }

  /** Sends one finished run of lengths. */
  method SendRun(curlen: int, prevlen: int, count0: int, minCount: int) returns (out: seq<Run>)
    requires count0 >= 1 && minCount >= 1
    ensures out == Flushed(curlen, prevlen, count0, minCount)
  {
    var count := count0;
    if count < minCount {
      out := SendCopies(curlen, count);
    } else if curlen != 0 {
      out := [];
      if curlen != prevlen {
        out := out + [Run(curlen, 0)];
        count := count - 1;
      }
      out := out + [Run(REP_3_6, count - 3)];
    } else if count <= 10 {
      out := [Run(REPZ_3_10, count - 3)];
    } else {
      out := [Run(REPZ_11_138, count - 11)];
    }
  }

  /** Sends the lengths of a tree. */
  method SendTree(dl: seq<int>, maxCode: int) returns (out: seq<Run>)
    requires Guarded(dl, maxCode) && Lengths(dl[..maxCode + 1])
    ensures out == RunsOf(dl[..maxCode + 1])
    ensures forall sofar: seq<int> :: ReadRuns(out, sofar) == Some(sofar + dl[..maxCode + 1])
  {
    ghost var lens := dl[..maxCode + 1];
    var prevlen, nextlen, count, maxCount, minCount := -1, dl[0], 0, 7, 4;
    if nextlen == 0 {
      maxCount := 138;
      minCount := 3;
    }
    out := [];
    var n := 0;
    while n <= maxCode
      invariant 0 <= n <= maxCode + 1 && nextlen == LengthAt(lens, n) && count >= 0 && minCount >= 1 && maxCount >= 0
      invariant ScanOf(lens, n) == Scan(prevlen, count, maxCount, minCount, out)
    {
      var curlen := nextlen;
      nextlen := dl[n + 1];
      n := n + 1;
      count := count + 1;
      if count < maxCount && curlen == nextlen {
        continue;
      }
      var run := SendRun(curlen, prevlen, count, minCount);
      out := out + run;
      count := 0;
      prevlen := curlen;
      if nextlen == 0 {
        maxCount := 138;
        minCount := 3;
      } else if curlen == nextlen {
        maxCount := 6;
        minCount := 3;
      } else {
        maxCount := 7;
        minCount := 4;
      }
    }
    forall sofar: seq<int>
      ensures ReadRuns(out, sofar) == Some(sofar + lens)
    {
      RunsReadBack(lens, sofar);
    }
  }

  const BL_CODES := 19

  /** The counts of the code length alphabet, increased by how often each symbol occurs. */
  ghost predicate Tallied(before: seq<int>, after: seq<int>, runs: seq<Run>) {
    && |before| == |after| && BL_CODES <= |after|
    && forall c :: 0 <= c < |after| ==> after[c] == before[c] + Times(runs, c)
  }

  lemma {:induction false} TimesOfCopies(cur: int, n: nat, c: int)
    ensures Times(seq(n, _ => Run(cur, 0)), c) == if c == cur then n else 0
    decreases n
  {
    if n > 0 {
      assert seq(n, _ => Run(cur, 0))[..n - 1] == seq(n - 1, _ => Run(cur, 0));
      TimesOfCopies(cur, n - 1, c);
    }
  }

  /** How often each symbol occurs among the flushed ones. */
  lemma TimesFlushed(cur: int, prev: int, count: nat, minCount: nat, c: int)
    requires minCount >= 1
    ensures Times(Flushed(cur, prev, count, minCount), c) ==
            if count < minCount then (if c == cur then count else 0)
            else if cur != 0 then (if c == cur && cur != prev then 1 else 0) + (if c == REP_3_6 then 1 else 0)
            else if c == (if count <= 10 then REPZ_3_10 else REPZ_11_138) then 1 else 0
  {
    var out := Flushed(cur, prev, count, minCount);
    if count < minCount {
      TimesOfCopies(cur, count, c);
    } else if |out| == 2 {
      TimesAppend([out[0]], [out[1]], c);
      assert out == [out[0]] + [out[1]];
      assert [out[0]][..0] == [] && [out[1]][..0] == [];
    } else {
      assert out[..0] == [];
    }
  }

  /** Counts the symbols of one finished run. */
  method CountRun(fc: array<int>, curlen: int, prevlen: int, count: int, minCount: int)
    requires fc.Length >= BL_CODES && 0 <= curlen <= LONGEST && count >= 1 && minCount >= 1
    modifies fc
    ensures Tallied(old(fc[..]), fc[..], Flushed(curlen, prevlen, count, minCount))
  {
    if count < minCount {
      fc[curlen] := fc[curlen] + count;
    } else if curlen != 0 {
      if curlen != prevlen {
        fc[curlen] := fc[curlen] + 1;
      }
      fc[REP_3_6] := fc[REP_3_6] + 1;
    } else if count <= 10 {
      fc[REPZ_3_10] := fc[REPZ_3_10] + 1;
    } else {
      fc[REPZ_11_138] := fc[REPZ_11_138] + 1;
    }
    forall c | 0 <= c < fc.Length
      ensures fc[c] == old(fc[c]) + Times(Flushed(curlen, prevlen, count, minCount), c)
    {
      TimesFlushed(curlen, prevlen, count, minCount, c);
    }
  }

  lemma TallyMore(before: seq<int>, now: seq<int>, after: seq<int>, a: seq<Run>, b: seq<Run>)
    requires Tallied(before, now, a) && Tallied(now, after, b)
    ensures Tallied(before, after, a + b)
  {
    forall c | 0 <= c < |after|
      ensures after[c] == before[c] + Times(a + b, c)
    {
      TimesAppend(a, b, c);
    }
  }

  /** Counts the symbols that sending the tree will take, and sets the guard. */
  method ScanTree(dl: array<int>, maxCode: int, fc: array<int>)
    requires fc != dl && 0 <= maxCode && maxCode + 1 < dl.Length && Lengths(dl[..maxCode + 1]) && fc.Length >= BL_CODES
    modifies dl, fc
    ensures dl[..] == old(dl[..])[maxCode + 1 := GUARD]
    ensures Tallied(old(fc[..]), fc[..], RunsOf(dl[..maxCode + 1]))
  {
    ghost var lens, before := dl[..maxCode + 1], fc[..];
    var prevlen, nextlen, count, maxCount, minCount := -1, dl[0], 0, 7, 4;
    if nextlen == 0 {
      maxCount := 138;
      minCount := 3;
    }
    dl[maxCode + 1] := GUARD;
    ghost var out: seq<Run> := [];
    var n := 0;
    while n <= maxCode
      invariant 0 <= n <= maxCode + 1 && nextlen == LengthAt(lens, n) && count >= 0 && minCount >= 1 && maxCount >= 0
      invariant dl[..] == old(dl[..])[maxCode + 1 := GUARD]
      invariant ScanOf(lens, n) == Scan(prevlen, count, maxCount, minCount, out)
      invariant Tallied(before, fc[..], out)
    {
      var curlen := nextlen;
      nextlen := dl[n + 1];
      n := n + 1;
      count := count + 1;
      if count < maxCount && curlen == nextlen {
        continue;
      }
      ghost var now, run := fc[..], Flushed(curlen, prevlen, count, minCount);
      CountRun(fc, curlen, prevlen, count, minCount);
      TallyMore(before, now, fc[..], out, run);
      out := out + run;
      count := 0;
      prevlen := curlen;
      if nextlen == 0 {
        maxCount := 138;
        minCount := 3;
      } else if curlen == nextlen {
        maxCount := 6;
        minCount := 3;
      } else {
        maxCount := 7;
        minCount := 4;
      }
    }
    assert dl[..maxCode + 1] == lens;
  }
}
