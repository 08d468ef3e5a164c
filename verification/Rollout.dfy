/**
 Rolling a new pod template out over the racks of a cluster: one pass walks over the racks in topology
 order, and stops at the first that is written, not running, or still under way.
 */
module Rollout {
  import opened Options
  import opened RackActions

  /** The status of a rack: its phase, and its last action. */
  datatype RackStatus = RackStatus(running: bool, action: Progress, start: Option<int>)

  /** A rack: whether its StatefulSet carries the new template, and its status. */
  datatype Rack = Rack(updated: bool, status: RackStatus)

  /** What the cluster answers about one rack. */
  datatype RackAnswers = RackAnswers(
    seen: bool,       // the StatefulSet could be read at the start of the visit
    seenAgain: bool,  // and again before it is written
    ready: bool,      // all its replicas are ready
    settled: bool,    // all its pods have the current template
    writeOk: bool)    // it could be written

  /** What the cluster answers in a pass; disruption and joining nodes concern the cluster as a whole. */
  datatype Answers = Answers(now: int, noDisruption: bool, joining: bool, racks: seq<RackAnswers>, endWrite: bool)

  /** The next status of a rack: an action that ended, or a template to bring in. */
  function NextStatus(s: RackStatus, updated: bool, r: RackAnswers, a: Answers): RackStatus {
    if JustStarted(s.start, a.now) then s
    else if (s.action == Ongoing || s.action == Continue) && r.settled then s.(action := Done)
    else if a.noDisruption && s.action != Ongoing && s.action != ToDo && s.action != Finalizing then
      if !updated then s.(action := ToDo, start := None)
      else if !r.settled then s.(action := Ongoing, start := Some(a.now))
      else s
    else s
  }

  /** What a visit to a rack does: the rack it leaves, whether the StatefulSet was written, and whether the pass goes on. */
  datatype Visit = Visit(rack: Rack, wrote: bool, goesOn: bool)

  function Look(rack: Rack, r: RackAnswers, a: Answers): RackStatus {
    if r.seen then NextStatus(rack.status.(running := r.ready), rack.updated, r, a) else rack.status
  }

  /** The pass may go on to the next rack. */
  predicate Quiet(s: RackStatus) {
    s.running && s.action != Ongoing && s.action != Finalizing
  }

  function VisitRack(rack: Rack, r: RackAnswers, a: Answers): Visit {
    var s := Look(rack, r, a);
    if r.seen && a.joining then
      Visit(rack.(status := s), false, s.running && s.action != ToDo && s.action != Ongoing && s.action != Continue)
    else if !a.noDisruption || !r.seenAgain || rack.updated then Visit(rack.(status := s), false, Quiet(s))
    else
      Visit(Rack(r.writeOk, if s.action == ToDo || s.action == Done then s.(action := Ongoing, start := Some(a.now)) else s), r.writeOk, false)
  }

  /** The walk over the racks from rack i on: the racks it leaves, and the rack written, if any. */
  function Walk(racks: seq<Rack>, i: nat, a: Answers): (seq<Rack>, Option<nat>)
    requires i <= |racks| == |a.racks|
    decreases |racks| - i
  {
    if i == |racks| then (racks, None)
    else
      var v := VisitRack(racks[i], a.racks[i], a);
      var now := racks[i := v.rack];
      if v.goesOn then Walk(now, i + 1, a) else (now, if v.wrote then Some(i) else None)
  }

  lemma {:induction false} WalkKeepsLength(racks: seq<Rack>, i: nat, a: Answers)
    requires i <= |racks| == |a.racks|
    ensures |Walk(racks, i, a).0| == |racks|
    decreases |racks| - i
  {
    if i < |racks| {
      WalkKeepsLength(racks[i := VisitRack(racks[i], a.racks[i], a).rack], i + 1, a);
    }
  }

  /** The racks with the new template come first. */
  ghost predicate Prefix(racks: seq<Rack>) {
    forall i, j :: 0 <= i < j < |racks| && racks[j].updated ==> racks[i].updated
  }

  /** Every StatefulSet can be read. */
  ghost predicate Readable(a: Answers) {
    forall i :: 0 <= i < |a.racks| ==> a.racks[i].seen && a.racks[i].seenAgain
  }

  /** The racks before rack k are running and have nothing under way. */
  ghost predicate QuietBefore(racks: seq<Rack>, k: int) {
    forall j :: 0 <= j < k && j < |racks| ==> Quiet(racks[j].status)
  }

  /** A StatefulSet without the new template would be written here: it can be read, and no nodes are seen to join. */
  predicate Writable(r: RackAnswers, a: Answers) {
    r.seenAgain && !(a.joining && r.seen)
  }

  /**
   What a walk from rack i on may do to the templates: bring it to at most one rack, when there is no disruption. It passes over
   racks that have it already, or could not be written; over quiet racks only, unless nodes are joining; and over a rack that was
   under way only if its pods have the current template.
   */
  ghost predicate WalkOk(was: seq<Rack>, now: seq<Rack>, wrote: Option<nat>, i: nat, a: Answers)
    requires |was| == |a.racks|
  {
    && |now| == |was|
    && (wrote.None? ==> forall j :: 0 <= j < |was| ==> now[j].updated == was[j].updated)
    && (wrote.Some? ==>
          && i <= wrote.value < |was| && !was[wrote.value].updated && now[wrote.value].updated
          && a.noDisruption && Writable(a.racks[wrote.value], a)
          && (forall j :: 0 <= j < |was| && j != wrote.value ==> now[j].updated == was[j].updated)
          && (forall j :: i <= j < wrote.value ==> was[j].updated || !Writable(a.racks[j], a))
          && (forall j :: i <= j < wrote.value && was[j].status.action == Ongoing ==> a.racks[j].seen && a.racks[j].settled)
          && (!a.joining ==> QuietBefore(now, wrote.value)))
  }

  lemma {:induction false} WalkFrom(racks: seq<Rack>, i: nat, a: Answers)
    requires i <= |racks| == |a.racks| && (!a.joining ==> QuietBefore(racks, i))
    ensures WalkOk(racks, Walk(racks, i, a).0, Walk(racks, i, a).1, i, a)
    decreases |racks| - i
  {
    if i < |racks| {
      var v := VisitRack(racks[i], a.racks[i], a);
      if v.goesOn {
        assert v.rack.updated == racks[i].updated;
        WalkFrom(racks[i := v.rack], i + 1, a);
      }
    }
  }

  /** While there is a disruption no StatefulSet is written, nor while nodes are joining, if every one can be read. */
  lemma {:induction false} NothingWritten(racks: seq<Rack>, i: nat, a: Answers)
    requires i <= |racks| == |a.racks| && (!a.noDisruption || (a.joining && forall j :: 0 <= j < |racks| ==> a.racks[j].seen))
    ensures var w := Walk(racks, i, a);
            w.1.None? && |w.0| == |racks| && forall j :: 0 <= j < |racks| ==> w.0[j].updated == racks[j].updated
    decreases |racks| - i
  {
    if i < |racks| {
      NothingWritten(racks[i := VisitRack(racks[i], a.racks[i], a).rack], i + 1, a);
    }
  }

  /** The racks stored after a pass: StatefulSets as they were written, statuses as far as they could be stored. */
  function Stored(was: seq<Rack>, now: seq<Rack>, a: Answers): (r: seq<Rack>)
    requires |was| == |now|
    ensures |r| == |was| && forall i :: 0 <= i < |was| ==> r[i].updated == now[i].updated
  {
    seq(|was|, i requires 0 <= i < |was| => if a.endWrite then now[i] else Rack(now[i].updated, was[i].status))
  }

  function AfterPass(racks: seq<Rack>, a: Answers): (r: seq<Rack>)
    requires |a.racks| == |racks|
    ensures |r| == |racks|
  {
    WalkKeepsLength(racks, 0, a);
    Stored(racks, Walk(racks, 0, a).0, a)
  }

  /** The first rack without the new template. */
  function FirstOld(racks: seq<Rack>, i: nat): (k: nat)
    requires i <= |racks|
    ensures i <= k <= |racks| && (k < |racks| ==> !racks[k].updated) && forall j :: i <= j < k ==> racks[j].updated
    decreases |racks| - i
  {
    if i == |racks| || !racks[i].updated then i else FirstOld(racks, i + 1)
  }

  /** The guards under which a pass leaves a rack as it is and goes on to the next. */
  predicate PassedOver(rack: Rack, r: RackAnswers, a: Answers) {
    var s := Look(rack, r, a);
    if r.seen && a.joining then s.running && s.action != ToDo && s.action != Ongoing && s.action != Continue
    else (!a.noDisruption || !r.seenAgain || rack.updated) && Quiet(s)
  }

  /** The guards under which a pass that comes to a rack writes it. */
  predicate Written(rack: Rack, r: RackAnswers, a: Answers) {
    a.noDisruption && Writable(r, a) && r.writeOk && !rack.updated
  }

  /** The walk writes rack j exactly if it passes over all racks before it. */
  lemma {:induction false} WalkWrites(racks: seq<Rack>, i: nat, a: Answers, j: nat)
    requires i <= j < |racks| == |a.racks|
    ensures Walk(racks, i, a).1 == Some(j) <==>
            Written(racks[j], a.racks[j], a) && forall k :: i <= k < j ==> PassedOver(racks[k], a.racks[k], a)
    decreases |racks| - i
  {
    var v := VisitRack(racks[i], a.racks[i], a);
    assert v.goesOn <==> PassedOver(racks[i], a.racks[i], a);
    if v.goesOn {
      if i < j {
        WalkWrites(racks[i := v.rack], i + 1, a, j);
      } else {
        WalkFurther(racks[i := v.rack], i + 1, a);
      }
    }
  }

  lemma {:induction false} WalkFurther(racks: seq<Rack>, i: nat, a: Answers)
    requires i <= |racks| == |a.racks|
    ensures Walk(racks, i, a).1.Some? ==> i <= Walk(racks, i, a).1.value < |racks|
    decreases |racks| - i
  {
    if i < |racks| {
      WalkFurther(racks[i := VisitRack(racks[i], a.racks[i], a).rack], i + 1, a);
    }
  }

  /** No rack behind the first without the new template would be written while all racks before it are passed over. */
  predicate InOrder(racks: seq<Rack>, a: Answers)
    requires |a.racks| == |racks|
  {
    forall j :: FirstOld(racks, 0) < j < |racks| && Written(racks[j], a.racks[j], a) ==>
      exists k :: 0 <= k < j && !PassedOver(racks[k], a.racks[k], a)
  }

  /** A pass adds at most one rack, and keeps the racks with the new template in front exactly when it is in order. */
  lemma PassKeepsPrefix(racks: seq<Rack>, a: Answers)
    requires |a.racks| == |racks| && Prefix(racks)
    ensures Prefix(AfterPass(racks, a)) <==> InOrder(racks, a)
    ensures WalkOk(racks, Walk(racks, 0, a).0, Walk(racks, 0, a).1, 0, a)
  {
    hide PassedOver, Written;
    WalkFrom(racks, 0, a);
    var k, wrote, after := FirstOld(racks, 0), Walk(racks, 0, a).1, AfterPass(racks, a);
    if wrote.Some? && k < wrote.value {
      assert !after[k].updated && after[wrote.value].updated;
      WalkWrites(racks, 0, a, wrote.value);
    } else {
      forall j | k < j < |racks| && Written(racks[j], a.racks[j], a)
        ensures exists i :: 0 <= i < j && !PassedOver(racks[i], a.racks[i], a)
      {
        WalkWrites(racks, 0, a, j);
      }
    }
  }

  /** When every StatefulSet can be read, a pass is in order. */
  lemma ReadableIsInOrder(racks: seq<Rack>, a: Answers)
    requires |a.racks| == |racks| && Readable(a)
    ensures InOrder(racks, a)
  {
    var k := FirstOld(racks, 0);
    forall j | k < j < |racks| && Written(racks[j], a.racks[j], a)
      ensures exists i :: 0 <= i < j && !PassedOver(racks[i], a.racks[i], a)
    {
      assert !PassedOver(racks[k], a.racks[k], a);
    }
  }

  ghost predicate PrefixThroughout(racks: seq<Rack>, run: seq<Answers>)
    requires forall k :: 0 <= k < |run| ==> |run[k].racks| == |racks|
    decreases |run|
  {
    Prefix(racks) && (run == [] || PrefixThroughout(AfterPass(racks, run[0]), run[1..]))
  }

  ghost predicate InOrderThroughout(racks: seq<Rack>, run: seq<Answers>)
    requires forall k :: 0 <= k < |run| ==> |run[k].racks| == |racks|
    decreases |run|
  {
    run == [] || (InOrder(racks, run[0]) && InOrderThroughout(AfterPass(racks, run[0]), run[1..]))
  }

  /** Over every run of passes, whatever is lost and whatever fails, the rollout follows the topology exactly as long as passes are in order. */
  lemma {:induction false} RolloutExactly(racks: seq<Rack>, run: seq<Answers>)
    requires (forall k :: 0 <= k < |run| ==> |run[k].racks| == |racks|) && Prefix(racks)
    ensures PrefixThroughout(racks, run) <==> InOrderThroughout(racks, run)
    decreases |run|
  {
    if run != [] {
      PassKeepsPrefix(racks, run[0]);
      if InOrder(racks, run[0]) { RolloutExactly(AfterPass(racks, run[0]), run[1..]); }
    }
  }

  /** So it does whenever all StatefulSets can be read. */
  lemma {:induction false} RolloutInOrder(racks: seq<Rack>, run: seq<Answers>)
    requires forall k :: 0 <= k < |run| ==> |run[k].racks| == |racks| && Readable(run[k])
    requires Prefix(racks)
    ensures PrefixThroughout(racks, run)
    decreases |run|
  {
    if run != [] {
      ReadableIsInOrder(racks, run[0]);
      PassKeepsPrefix(racks, run[0]);
      RolloutInOrder(AfterPass(racks, run[0]), run[1..]);
    }
  }

  /** The cluster does what it is asked to: everything can be read and written, is ready and settled, and no action has just started. */
  ghost predicate Cooperates(racks: seq<Rack>, a: Answers) {
    && |a.racks| == |racks| && a.noDisruption && !a.joining && a.endWrite
    && forall i :: 0 <= i < |racks| ==>
         && a.racks[i].seen && a.racks[i].seenAgain && a.racks[i].ready && a.racks[i].settled && a.racks[i].writeOk
         && !JustStarted(racks[i].status.start, a.now)
  }

  /** How many racks have not got the new template yet. */
  function Old(racks: seq<Rack>): nat {
    if racks == [] then 0 else Old(racks[..|racks| - 1]) + if racks[|racks| - 1].updated then 0 else 1
  }

  lemma {:induction false} OldFrame(was: seq<Rack>, now: seq<Rack>)
    requires |was| == |now| && forall i :: 0 <= i < |was| ==> was[i].updated == now[i].updated
    ensures Old(was) == Old(now)
    decreases |was|
  {
    if was != [] {
      OldFrame(was[..|was| - 1], now[..|was| - 1]);
    }
  }

  /** One rack more. */
  lemma {:induction false} OneFewer(was: seq<Rack>, now: seq<Rack>, k: nat)
    requires |was| == |now| && k < |was| && !was[k].updated && now[k].updated
    requires forall i :: 0 <= i < |was| && i != k ==> was[i].updated == now[i].updated
    ensures Old(now) == Old(was) - 1
    decreases |was|
  {
    var n := |was| - 1;
    if k < n {
      OneFewer(was[..n], now[..n], k);
    } else {
      OldFrame(was[..n], now[..n]);
    }
  }

  lemma {:induction false} NoneOld(racks: seq<Rack>)
    ensures Old(racks) == 0 <==> forall i :: 0 <= i < |racks| ==> racks[i].updated
    decreases |racks|
  {
    if racks != [] {
      NoneOld(racks[..|racks| - 1]);
      assert forall i :: 0 <= i < |racks| - 1 ==> racks[i] == racks[..|racks| - 1][i];
    }
  }

  /** No rack before the first old one waits for its action to be finalized. */
  predicate Clear(racks: seq<Rack>) {
    forall j :: 0 <= j < FirstOld(racks, 0) ==> racks[j].status.action != Finalizing
  }

  /** A pass in which the cluster cooperates brings the template to the first old rack exactly if the way is clear. */
  lemma {:induction false} PassProgresses(racks: seq<Rack>, a: Answers)
    requires Cooperates(racks, a)
    ensures var k, after := FirstOld(racks, 0), AfterPass(racks, a);
            && (forall i :: 0 <= i < |racks| ==> after[i].updated == (racks[i].updated || (i == k && Clear(racks))))
            && Old(after) == if k < |racks| && Clear(racks) then Old(racks) - 1 else Old(racks)
  {
    var k, after := FirstOld(racks, 0), AfterPass(racks, a);
    WalkFrom(racks, 0, a);
    forall j | 0 <= j < k
      ensures PassedOver(racks[j], a.racks[j], a) <==> racks[j].status.action != Finalizing
    {
    }
    forall j | k <= j < |racks|
      ensures Walk(racks, 0, a).1 == Some(j) <==> j == k && Clear(racks)
    {
      WalkWrites(racks, 0, a, j);
      assert !PassedOver(racks[k], a.racks[k], a);
    }
    if k < |racks| && Clear(racks) {
      assert Walk(racks, 0, a).1 == Some(k);
      OneFewer(racks, after, k);
    } else {
      OldFrame(racks, after);
    }
  }

  /** No old rack comes behind one that waits for its action to be finalized. */
  predicate Free(racks: seq<Rack>) {
    forall i, j :: 0 <= i < j < |racks| && !racks[j].updated ==> racks[i].status.action != Finalizing
  }

  /** No pass begins or ends the finalizing of an action. */
  lemma {:induction false} FinalizingStays(racks: seq<Rack>, i: nat, a: Answers)
    requires i <= |racks| == |a.racks|
    ensures |Walk(racks, i, a).0| == |racks|
    ensures forall j :: 0 <= j < |racks| ==> (Walk(racks, i, a).0[j].status.action == Finalizing <==> racks[j].status.action == Finalizing)
    decreases |racks| - i
  {
    if i < |racks| {
      FinalizingStays(racks[i := VisitRack(racks[i], a.racks[i], a).rack], i + 1, a);
    }
  }

  /** A pass in which the cluster cooperates leaves the racks free exactly if they were, when the way was clear. */
  lemma FreeStays(racks: seq<Rack>, a: Answers)
    requires Cooperates(racks, a) && Clear(racks)
    ensures Free(AfterPass(racks, a)) <==> Free(racks)
  {
    hide Walk, Old;
    PassProgresses(racks, a);
    FinalizingStays(racks, 0, a);
  }

  function Rolled(racks: seq<Rack>, run: seq<Answers>): (r: seq<Rack>)
    requires forall k :: 0 <= k < |run| ==> |run[k].racks| == |racks|
    ensures |r| == |racks|
    decreases |run|
  {
    if run == [] then racks else Rolled(AfterPass(racks, run[0]), run[1..])
  }

  ghost predicate CooperativeRun(racks: seq<Rack>, run: seq<Answers>)
    decreases |run|
  {
    run == [] || (Cooperates(racks, run[0]) && CooperativeRun(AfterPass(racks, run[0]), run[1..]))
  }

  lemma {:induction false} SameRacks(racks: seq<Rack>, run: seq<Answers>)
    requires CooperativeRun(racks, run)
    ensures forall k :: 0 <= k < |run| ==> |run[k].racks| == |racks|
    decreases |run|
  {
    if run != [] {
      SameRacks(AfterPass(racks, run[0]), run[1..]);
      assert forall k :: 1 <= k < |run| ==> run[k] == run[1..][k - 1];
    }
  }

  /** With the way blocked, no pass brings the template to another rack. */
  lemma {:induction false} BlockedForEver(racks: seq<Rack>, run: seq<Answers>)
    requires CooperativeRun(racks, run) && !Clear(racks)
    ensures forall k :: 0 <= k < |run| ==> |run[k].racks| == |racks|
    ensures Old(Rolled(racks, run)) == Old(racks)
    decreases |run|
  {
    SameRacks(racks, run);
    if run != [] {
      PassProgresses(racks, run[0]);
      FinalizingStays(racks, 0, run[0]);
      BlockedForEver(AfterPass(racks, run[0]), run[1..]);
    }
  }

  /**
   With a cluster that cooperates, every pass brings the template to one more rack until all have it, if the racks are free;
   and they all get it only if the racks are free.
   */
  lemma {:induction false} RolloutEnds(racks: seq<Rack>, run: seq<Answers>)
    requires CooperativeRun(racks, run)
    ensures forall k :: 0 <= k < |run| ==> |run[k].racks| == |racks|
    ensures Free(racks) ==> Old(Rolled(racks, run)) == if |run| >= Old(racks) then 0 else Old(racks) - |run|
    ensures Old(Rolled(racks, run)) == 0 ==> Free(racks)
    decreases |run|
  {
    SameRacks(racks, run);
    NoneOld(racks);
    if run != [] {
      PassProgresses(racks, run[0]);
      if Clear(racks) {
        FreeStays(racks, run[0]);
        RolloutEnds(AfterPass(racks, run[0]), run[1..]);
      } else if FirstOld(racks, 0) < |racks| {
        BlockedForEver(racks, run);
      } else {
        RolloutEnds(AfterPass(racks, run[0]), run[1..]);
      }
    }
  }

  /** The operator finalizes operations on pods, but never an action: from racks without one, no run leads to any, so they are always free. */
  lemma {:induction false} AlwaysFree(racks: seq<Rack>, run: seq<Answers>)
    requires (forall k :: 0 <= k < |run| ==> |run[k].racks| == |racks|) && forall i :: 0 <= i < |racks| ==> racks[i].status.action != Finalizing
    ensures forall i :: 0 <= i < |racks| ==> Rolled(racks, run)[i].status.action != Finalizing
    ensures Free(Rolled(racks, run))
    decreases |run|
  {
    if run != [] {
      FinalizingStays(racks, 0, run[0]);
      AlwaysFree(AfterPass(racks, run[0]), run[1..]);
    }
  }

  /** An action under way ends only when the rack is seen, its pods have the current template, and it did not just start. */
  lemma EndsWhenSettled(rack: Rack, r: RackAnswers, a: Answers)
    requires rack.status.action == Ongoing || rack.status.action == Continue
    ensures Look(rack, r, a).action == Done <==> r.seen && r.settled && !JustStarted(rack.status.start, a.now)
    ensures rack.status.action == Ongoing && Look(rack, r, a).action != Done ==> Look(rack, r, a).action == Ongoing
  {
  }

  /** An action begins only where none is under way or to do, without disruption and delay: to bring in the template, or because pods change. */
  lemma BeginsExactly(rack: Rack, r: RackAnswers, a: Answers)
    requires rack.status.action != Ongoing && rack.status.action != ToDo
    ensures var s, free := Look(rack, r, a), r.seen && a.noDisruption && !JustStarted(rack.status.start, a.now) && rack.status.action != Finalizing;
            && (s.action == ToDo <==> free && !rack.updated && !(rack.status.action == Continue && r.settled))
            && (s.action == Ongoing <==> free && rack.updated && !r.settled)
            && (s.action == Ongoing ==> s.start == Some(a.now)) && (s.action == ToDo ==> s.start == None)
            && s.running == if r.seen then r.ready else rack.status.running
  {
  }

  /** A rack with the new template whose pods still change is passed over exactly if it is ready and nothing is noted as under way. */
  lemma UnsettledExactly(rack: Rack, r: RackAnswers, a: Answers)
    requires rack.updated && r.seen && !r.settled && a.noDisruption && !a.joining
    ensures PassedOver(rack, r, a) <==>
            r.ready && if JustStarted(rack.status.start, a.now) then rack.status.action != Ongoing && rack.status.action != Finalizing else rack.status.action == ToDo
  {
  }

  /** What holds from rest on while every status is stored: racks with the new template are under way, or done for long enough. */
  ghost predicate Lined(racks: seq<Rack>, t: int) {
    forall i :: 0 <= i < |racks| ==> LinedRack(racks[i], t)
  }

  predicate LinedRack(rack: Rack, t: int) {
    && (rack.status.action == Done || rack.status.action == Ongoing || (rack.status.action == ToDo && !rack.updated))
    && (rack.status.action == Done ==> !JustStarted(rack.status.start, t))
  }

  lemma VisitKeepsLined(rack: Rack, r: RackAnswers, a: Answers, t: int)
    requires LinedRack(rack, t) && t <= a.now
    ensures LinedRack(VisitRack(rack, r, a).rack, a.now)
  {
  }

  lemma {:induction false} WalkKeepsLined(racks: seq<Rack>, i: nat, a: Answers, t: int)
    requires i <= |racks| == |a.racks| && Lined(racks, t) && t <= a.now
    ensures Lined(Walk(racks, i, a).0, a.now)
    decreases |racks| - i
  {
    hide VisitRack, LinedRack;
    LaterIsLined(racks, t, a.now);
    if i < |racks| {
      VisitKeepsLined(racks[i], a.racks[i], a, t);
      WalkKeepsLined(racks[i := VisitRack(racks[i], a.racks[i], a).rack], i + 1, a, a.now);
    }
  }

  lemma LaterIsLined(racks: seq<Rack>, t: int, now: int)
    requires Lined(racks, t) && t <= now
    ensures Lined(racks, now)
  {
  }

  /** Whenever a rack is written, the pods of every rack before it that can be read have the current template. */
  ghost predicate Alone(racks: seq<Rack>, a: Answers)
    requires |a.racks| == |racks|
  {
    Walk(racks, 0, a).1.Some? ==>
      forall j :: 0 <= j < Walk(racks, 0, a).1.value && j < |racks| && a.racks[j].seen && racks[j].updated ==> a.racks[j].settled
  }

  lemma {:induction false} LinedIsAlone(racks: seq<Rack>, a: Answers, t: int)
    requires |a.racks| == |racks| && Lined(racks, t) && t <= a.now
    ensures Alone(racks, a)
  {
    hide PassedOver, Written, Walk;
    WalkFrom(racks, 0, a);
    var wrote := Walk(racks, 0, a).1;
    if wrote.Some? {
      WalkWrites(racks, 0, a, wrote.value);
      forall j | 0 <= j < wrote.value && a.racks[j].seen && racks[j].updated
        ensures a.racks[j].settled
      {
        assert LinedRack(racks[j], t) && PassedOver(racks[j], a.racks[j], a);
        PassedIsSettled(racks[j], a.racks[j], a, t);
      }
    }
  }

  lemma PassedIsSettled(rack: Rack, r: RackAnswers, a: Answers, t: int)
    requires LinedRack(rack, t) && t <= a.now && rack.updated && r.seen && PassedOver(rack, r, a) && a.noDisruption
    ensures r.settled
  {
  }

  /** The clock does not go back, and every status is stored. */
  ghost predicate StoredRun(racks: seq<Rack>, t: int, run: seq<Answers>)
    decreases |run|
  {
    run == [] || (|run[0].racks| == |racks| && t <= run[0].now && run[0].endWrite && StoredRun(AfterPass(racks, run[0]), run[0].now, run[1..]))
  }

  ghost predicate AloneThroughout(racks: seq<Rack>, run: seq<Answers>)
    decreases |run|
  {
    run == [] || (|run[0].racks| == |racks| && Alone(racks, run[0]) && AloneThroughout(AfterPass(racks, run[0]), run[1..]))
  }

  /** From rest on, while every status is stored, no rack is written while the pods of one before it still change. */
  lemma {:induction false} OneRackAtATime(racks: seq<Rack>, t: int, run: seq<Answers>)
    requires Lined(racks, t) && StoredRun(racks, t, run)
    ensures AloneThroughout(racks, run)
    decreases |run|
  {
    hide Lined, Walk, Alone;
    if run != [] {
      LinedIsAlone(racks, run[0], t);
      PassKeepsLined(racks, run[0], t);
      OneRackAtATime(AfterPass(racks, run[0]), run[0].now, run[1..]);
    }
  }

  lemma PassKeepsLined(racks: seq<Rack>, a: Answers, t: int)
    requires |a.racks| == |racks| && Lined(racks, t) && t <= a.now && a.endWrite
    ensures Lined(AfterPass(racks, a), a.now)
  {
    hide LinedRack, Walk;
    WalkKeepsLength(racks, 0, a);
    WalkKeepsLined(racks, 0, a, t);
  }

  /** A rack that was to be updated, and whose status could not be stored when it was, is passed over while its pods change. */
  lemma LostStatusOverlaps()
    ensures var racks := [Rack(false, RackStatus(true, ToDo, None)), Rack(false, RackStatus(true, Done, None))];
            var good := RackAnswers(true, true, true, true, true);
            var a := Answers(100, true, false, [good, good], false);
            var b := Answers(200, true, false, [good.(settled := false), good], true);
            && Walk(racks, 0, a).1 == Some(0) && Walk(AfterPass(racks, a), 0, b).1 == Some(1) && !Alone(AfterPass(racks, a), b)
  {
    var good := RackAnswers(true, true, true, true, true);
    var racks := [Rack(false, RackStatus(true, ToDo, None)), Rack(false, RackStatus(true, Done, None))];
    var a := Answers(100, true, false, [good, good], false);
    var b := Answers(200, true, false, [good.(settled := false), good], true);
    WalkWrites(racks, 0, a, 0);
    var after := AfterPass(racks, a);
    assert after[0] == Rack(true, RackStatus(true, ToDo, None)) && after[1] == racks[1];
    WalkWrites(after, 0, b, 1);
  }

  /** Two racks to update, of which the first cannot be read when it is to be written. */
  function UnreadableExample(): seq<Rack> {
    var s := RackStatus(true, Done, None);
    [Rack(false, s), Rack(false, s)]
  }

  function UnreadableAnswers(): Answers {
    Answers(0, true, false, [RackAnswers(true, false, true, true, true), RackAnswers(true, true, true, true, true)], true)
  }

  /** When a StatefulSet cannot be read, its rack is passed over and the next one is written. */
  lemma UnreadableIsPassedOver()
    ensures Prefix(UnreadableExample()) && !Readable(UnreadableAnswers()) && !Prefix(AfterPass(UnreadableExample(), UnreadableAnswers()))
  {
    var racks, a := UnreadableExample(), UnreadableAnswers();
    var v := VisitRack(racks[0], a.racks[0], a);
    assert v.goesOn;
    var now := racks[0 := v.rack];
    assert Walk(racks, 0, a) == Walk(now, 1, a);
    assert Walk(now, 1, a).1 == Some(1);
    assert !AfterPass(racks, a)[0].updated && AfterPass(racks, a)[1].updated;
  }

  /** The reconciler at work on the racks of a cluster. */
  class Reconciler {
    var racks: seq<Rack>
    var wrote: Option<nat>

    constructor (racks: seq<Rack>)
      ensures this.racks == racks && wrote == None
    {
      this.racks, wrote := racks, None;
    }

    /** Looks at one rack: its phase, and whether an action ended or has to be started. */
    method UpdateStatus(i: int, a: Answers)
      requires 0 <= i < |racks| == |a.racks|
      modifies this`racks
      ensures racks == old(racks)[i := old(racks)[i].(status := Look(old(racks)[i], a.racks[i], a))]
    {
      var r := a.racks[i];
      if !r.seen {
        return;
      }
      var s := racks[i].status;
      s := s.(running := r.ready);
      if !JustStarted(s.start, a.now) {
        if (s.action == Ongoing || s.action == Continue) && r.settled {
          s := s.(action := Done);
        } else if a.noDisruption && s.action != Ongoing && s.action != ToDo && s.action != Finalizing {
          if !racks[i].updated {
            s := s.(action := ToDo, start := None);
          } else if !r.settled {
            s := s.(action := Ongoing, start := Some(a.now));
          }
        }
      }
      racks := racks[i := racks[i].(status := s)];
    }

    /** Writes the StatefulSet of one rack if it has to change. Says whether the pass ends here. */
    method CreateOrUpdateStatefulSet(i: int, a: Answers) returns (stop: bool)
      requires 0 <= i < |racks| == |a.racks|
      modifies this`racks, this`wrote
      ensures !a.noDisruption || !a.racks[i].seenAgain || old(racks)[i].updated ==> !stop && racks == old(racks) && wrote == old(wrote)
      ensures a.noDisruption && a.racks[i].seenAgain && !old(racks)[i].updated ==>
                && stop && wrote == (if a.racks[i].writeOk then Some(i) else old(wrote))
                && var s := old(racks)[i].status;
                   racks == old(racks)[i := Rack(a.racks[i].writeOk,
                                                 if s.action == ToDo || s.action == Done then s.(action := Ongoing, start := Some(a.now)) else s)]
    {
      if !a.noDisruption || !a.racks[i].seenAgain || racks[i].updated {
        return false;
      }
      var s := racks[i].status;
      if s.action == ToDo || s.action == Done {
        s := s.(action := Ongoing, start := Some(a.now));
      }
      racks := racks[i := Rack(a.racks[i].writeOk, s)];
      if a.racks[i].writeOk {
        wrote := Some(i);
      }
      return true;
    }

    /** Walks over the racks. At most one gets the new template, the first that is not passed over. */
    method ReconcileRack(a: Answers)
      requires |a.racks| == |racks| && wrote == None
      modifies this
      ensures (racks, wrote) == Walk(old(racks), 0, a)
      ensures WalkOk(old(racks), racks, wrote, 0, a)
    {
      WalkFrom(racks, 0, a);
      var i := 0;
      while i < |racks|
        invariant 0 <= i <= |racks| == |a.racks| && wrote == None
        invariant Walk(racks, i, a) == Walk(old(racks), 0, a)
      {
        ghost var was := racks;
        UpdateStatus(i, a);
        if a.racks[i].seen && a.joining {
          var s := racks[i].status;
          if !s.running || s.action == ToDo || s.action == Ongoing || s.action == Continue {
            return;
          }
          i := i + 1;
          continue;
        }
        var stop := CreateOrUpdateStatefulSet(i, a);
        assert racks == was[i := VisitRack(was[i], a.racks[i], a).rack];
        if stop {
          return;
        }
        if !racks[i].status.running || racks[i].status.action == Ongoing || racks[i].status.action == Finalizing {
          return;
        }
        i := i + 1;
      }
    }
  }
}
