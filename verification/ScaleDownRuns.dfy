/**
 Runs of a scale-down: passes of the reconciler, in between the pod that was scaled away disappears.
 The target is fixed and nothing else about the cluster is asked to change.
 */
module ScaleDownRuns {
  import opened Options
  import opened RackActions
  import opened ScaleDown

  /**
   The pods have the ordinals 0 to replicas - 1, and `extra` more above them are still being removed;
   `status` is what is stored, `clock` the time of the last pass, `claims` the ordinals with a data claim.
   */
  datatype World = World(replicas: int, extra: int, status: Rack, clock: int, claims: set<nat>)

  /** The answers fit the state of the cluster. */
  ghost predicate Truthful(w: World, a: Answers) {
    && w.clock <= a.now && a.statusReplicas == w.replicas + w.extra
    && (a.last.NoPods? <==> w.replicas + w.extra == 0)
    && (!a.last.NoPods? ==> a.last.ordinal == w.replicas + w.extra - 1)
    && (w.status.op.pods != [] && a.named == Present ==> w.status.op.pods[0] < w.replicas + w.extra)
    && (w.status.op.pods != [] && a.named == NotFound ==> w.status.op.pods[0] >= w.replicas + w.extra)
  }

  function After(target: int, w: World, a: Answers): Outcome {
    Pass(target, w.replicas, w.status, a)
  }

  /** The status stored after a pass: that of its end, or one written on the way, or the old one. */
  function StoredAfter(w: World, o: Outcome, a: Answers): Rack {
    if a.endWrite then o.rack else if o.stored.Some? then o.stored.value else w.status
  }

  function Next(target: int, w: World, a: Answers): World {
    var o := After(target, w, a);
    World(o.replicas, if o.replicas < w.replicas then w.extra + 1 else w.extra, StoredAfter(w, o, a), a.now,
          if o.claim.Some? then w.claims - {o.claim.value} else w.claims)
  }

  /** The pass lowers the replicas. */
  predicate Lowers(target: int, w: World, a: Answers) {
    After(target, w, a).replicas < w.replicas
  }

  /** The pass asks for a decommission, perhaps anew. */
  predicate Begins(target: int, w: World, a: Answers) {
    && !Waiting(w.status.action, a.now) && a.noDisruption && target < w.replicas
    && w.status.action.status != Ongoing && w.status.action.status != ToDo && w.status.action.status != Finalizing
  }

  /** The last pod is due to be told to leave. */
  predicate Due(target: int, w: World, a: Answers) {
    || Begins(target, w, a)
    || (Scaling(w.status) && w.status.op.decommission && (w.status.op.status == ToDo || w.status.op.status == Continue))
  }

  /** The pod that was told to leave is found to have left. */
  predicate FoundGone(target: int, w: World, a: Answers) {
    && !Begins(target, w, a) && Scaling(w.status) && w.status.op.decommission && w.status.op.status == Ongoing && w.status.op.pods != []
    && a.named == Present && (a.mode == Some(DECOMMISSIONED) || a.mode == Some(UNKNOWN))
  }

  /** The guards under which a pass lowers the replicas. */
  predicate LowersNow(target: int, w: World, a: Answers) {
    && a.noDisruption && a.updateOk && target < w.replicas
    && ((Due(target, w, a) && a.last.Unschedulable?) || FoundGone(target, w, a))
  }

  /** A running pod that can be told to leave. */
  predicate Obeys(a: Answers) {
    a.last.Running? && a.mode != None && a.mode != Some(DECOMMISSIONED) && a.mode != Some(UNKNOWN) && a.mode != Some(LEAVING)
  }

  /** The guards under which a pass tells a pod to leave. */
  predicate TellsNow(target: int, w: World, a: Answers) {
    Due(target, w, a) && Obeys(a)
  }

  /** The guards under which a pass deletes the claim of the pod that was scaled away. */
  predicate DeletesNow(target: int, w: World, a: Answers) {
    && !Begins(target, w, a) && Scaling(w.status) && w.status.op.decommission && w.status.op.status == Finalizing && w.status.op.pods != []
    && a.named == NotFound && a.claim == Deleted
  }

  /** The status stored by a pass that lowers the replicas says so: at its end, or on the way when a pod is found gone. */
  predicate Remembers(target: int, w: World, a: Answers) {
    LowersNow(target, w, a) ==> a.endWrite || (a.midWrite && FoundGone(target, w, a))
  }

  /** A pod that could not be scheduled and was scaled away is gone before the next pass. */
  predicate Settled(w: World) {
    w.status.action.status == Continue && w.status.op.status == Finalizing ==> w.extra == 0
  }

  /** The StatefulSet is ready when the pod that was scaled away has disappeared. */
  predicate ReadyWhenGone(w: World, a: Answers) {
    w.status.op.status == Finalizing && a.named == NotFound ==> a.ready
  }

  /** The cluster and its storage behave, as far as the safety of a pass depends on them. */
  ghost predicate Kept(target: int, w: World, a: Answers) {
    Truthful(w, a) && Remembers(target, w, a) && Settled(w)
  }

  ghost predicate Sound(target: int, w: World, a: Answers) {
    Kept(target, w, a) && ReadyWhenGone(w, a)
  }

  /** The last pod of the StatefulSet, of ordinal k, has left the ring or could never be scheduled. */
  predicate HasLeft(k: int, r: Rack, a: Answers) {
    || (Scaling(r) && r.op.decommission && r.op.status == Ongoing && r.op.pods == [k] && a.named == Present
        && (a.mode == Some(DECOMMISSIONED) || a.mode == Some(UNKNOWN)))
    || (a.last.Unschedulable? && a.last.ordinal == k)
  }

  /** What a pass must never do otherwise. */
  ghost predicate Safe(target: int, w: World, a: Answers) {
    var o := After(target, w, a);
    // replicas go down one at a time, not below the target, and only when the pod that goes has left
    && (Lowers(target, w, a) ==> o.replicas == w.replicas - 1 >= target && HasLeft(w.replicas - 1, w.status, a))
    // replicas do not go up
    && o.replicas <= w.replicas
    // only the last pod is told to leave
    && (o.told.Some? ==> o.told.value == w.replicas - 1 && a.last == Running(w.replicas - 1))
    // a claim goes only when its pod is gone for good
    && (o.claim.Some? ==> w.replicas + w.extra <= o.claim.value && target <= o.claim.value)
    // the action becomes done only at the target
    && (o.rack.action == w.status.action.(status := Done) && w.status.action.status != Done && w.status.action.name == ScaleDownAction
        ==> w.replicas == target && w.extra == 0)
  }

  /** No pod below the target is told to leave. */
  ghost predicate Spares(target: int, w: World, a: Answers) {
    var o := After(target, w, a);
    o.told.Some? ==> target <= o.told.value
  }

  predicate Idle(r: Rack) {
    r.action.status == Done
  }

  /** Nothing is going on, and if there is something to do the last action started long enough ago. */
  ghost predicate AtRest(target: int, w: World) {
    && Idle(w.status) && w.extra == 0 && target <= w.replicas
    && (target < w.replicas ==> !Waiting(w.status.action, w.clock))
  }

  /** A pod is to be told to leave. */
  ghost predicate Asked(target: int, w: World) {
    && w.status.action.name == ScaleDownAction && w.status.action.status == ToDo && w.status.op.decommission
    && w.status.op.status == ToDo && w.extra == 0 && target < w.replicas
  }

  /** The last pod is leaving the ring. */
  ghost predicate Leaving(target: int, w: World) {
    && w.status.action.name == ScaleDownAction && w.status.action.status == ToDo && w.status.op.decommission
    && w.status.op.status == Ongoing && w.status.op.pods == [w.replicas - 1] && w.extra == 0 && target < w.replicas
  }

  /** The last pod has left the ring; the StatefulSet has been lowered, or its write failed. */
  ghost predicate Going(target: int, w: World) {
    && Scaling(w.status) && w.status.op.decommission && w.status.op.status == Finalizing
    && |w.status.op.pods| == 1 && 0 <= w.extra <= 1 && target <= w.replicas
    && (w.status.op.pods[0] == w.replicas || (w.status.op.pods[0] == w.replicas - 1 && w.extra == 0 && target < w.replicas))
  }

  /** The pod is gone and its claim dealt with. */
  ghost predicate Gone(target: int, w: World) {
    && Scaling(w.status) && w.status.op.decommission && w.status.op.status == Done && w.status.op.podsOK != []
    && w.extra == 0 && target <= w.replicas
  }

  /** Every state a scale-down from rest goes through, when the StatefulSet is ready whenever a pod is gone. */
  ghost predicate Inv(target: int, w: World) {
    0 <= target && (AtRest(target, w) || Asked(target, w) || Leaving(target, w) || Going(target, w) || Gone(target, w))
  }

  lemma {:induction false} RestSpares(target: int, w: World, a: Answers)
    requires 0 <= target && AtRest(target, w) && Sound(target, w, a)
    ensures Spares(target, w, a) && Inv(target, Next(target, w, a))
  {
  }

  lemma {:induction false} AskedSpares(target: int, w: World, a: Answers)
    requires 0 <= target && Asked(target, w) && Sound(target, w, a)
    ensures Spares(target, w, a) && Inv(target, Next(target, w, a))
  {
  }

  lemma {:induction false} LeavingSpares(target: int, w: World, a: Answers)
    requires 0 <= target && Leaving(target, w) && Sound(target, w, a)
    ensures Spares(target, w, a) && Inv(target, Next(target, w, a))
  {
  }

  lemma {:induction false} GoingSpares(target: int, w: World, a: Answers)
    requires 0 <= target && Going(target, w) && Sound(target, w, a)
    ensures Spares(target, w, a) && Inv(target, Next(target, w, a))
  {
    var r := NextStatus(w.status.(running := a.ready), w.status.op, target, w.replicas, a);
    if r.op.status == ToDo {
      assert r == AskDecommission(w.status) && target < w.replicas && w.extra == 0;
    } else {
      assert r == w.status.(running := a.ready);
    }
  }

  /** What the next status can be once the pod is gone: unchanged, done, or the next pod is asked for. */
  lemma GoneNext(target: int, w: World, a: Answers) returns (r: Rack)
    requires Gone(target, w) && Truthful(w, a)
    ensures r == NextStatus(w.status.(running := a.ready), w.status.op, target, w.replicas, a)
    ensures || r == w.status.(running := a.ready)
            || (r == w.status.(running := a.ready, action := w.status.action.(status := Done)) && w.replicas == target)
            || (r == AskDecommission(w.status) && target < w.replicas && Begins(target, w, a))
  {
    r := NextStatus(w.status.(running := a.ready), w.status.op, target, w.replicas, a);
  }

  lemma {:induction false} GoneSpares(target: int, w: World, a: Answers)
    requires 0 <= target && Gone(target, w) && Sound(target, w, a)
    ensures Spares(target, w, a) && Inv(target, Next(target, w, a))
  {
    hide NextStatus;
    var r := GoneNext(target, w, a);
    if r == AskDecommission(w.status) {
      AskedPass(w, r, a);
    }
  }

  /** What becomes of a decommission that is to do. */
  lemma AskedPass(w: World, r: Rack, a: Answers)
    requires Scaling(r) && r.op.decommission && (r.op.status == ToDo || r.op.status == Continue) && Truthful(w, a)
    ensures var v, last := PodOperation(r, a), w.replicas + w.extra - 1;
            || v == Stop(r)
            || (a.last == Running(last) && v == Verdict(SetOp(r, Ongoing, [last]), true, false, Some(last), None))
            || (a.last == Unschedulable(last)
                && v == Verdict(SetOp(r, Finalizing, [last]).(action := r.action.(status := Continue)), false, false, None, None))
  {
  }

  // Safety of every run, also when writes are lost, pods linger, or the StatefulSet is not ready.

  /** No scale-down is under way, and if there is one to begin the last action started long enough ago. */
  ghost predicate Resting(target: int, w: World) {
    Idle(w.status) && (target < w.replicas ==> !Waiting(w.status.action, w.clock))
  }

  /** A pod is to be told to leave, perhaps once more. */
  ghost predicate AskedAgain(w: World) {
    Scaling(w.status) && w.status.op.decommission && (w.status.op.status == ToDo || w.status.op.status == Continue)
  }

  /** The last pod is leaving the ring, or it did so and was scaled away without a note of it. */
  ghost predicate LeavingAgain(w: World) {
    && Scaling(w.status) && w.status.op.decommission && w.status.op.status == Ongoing
    && |w.status.op.pods| == 1 && (w.replicas <= w.status.op.pods[0] || (w.replicas - 1 == w.status.op.pods[0] && w.extra == 0))
  }

  /** The last pod has left the ring; the StatefulSet has been lowered, or is not going to be. */
  ghost predicate GoingAgain(w: World) {
    && Scaling(w.status) && w.status.op.decommission && w.status.op.status == Finalizing
    && |w.status.op.pods| == 1 && (w.replicas <= w.status.op.pods[0] || (w.replicas - 1 == w.status.op.pods[0] && w.extra == 0))
  }

  /** A pod is gone and its claim dealt with. */
  ghost predicate GoneAgain(w: World) {
    Scaling(w.status) && w.status.op.decommission && w.status.op.status == Done && w.status.op.podsOK != []
  }

  /** Every state a scale-down from rest goes through, as long as all its passes were safe. */
  ghost predicate Orderly(target: int, w: World) {
    && 0 <= target <= w.replicas && 0 <= w.extra <= 1
    && (Resting(target, w) || AskedAgain(w) || LeavingAgain(w) || GoingAgain(w) || GoneAgain(w))
  }

  /** A pod that was scaled away is still there, and yet the pass lowers the replicas again or tells it to leave. */
  ghost predicate Careless(target: int, w: World, a: Answers) {
    w.extra > 0 && (LowersNow(target, w, a) || TellsNow(target, w, a))
  }

  /** What the next status can be: unchanged, ended, or a decommission is asked for. */
  lemma NextIs(target: int, w: World, a: Answers) returns (r: Rack)
    requires Orderly(target, w) && Truthful(w, a)
    ensures r == NextStatus(w.status.(running := a.ready), w.status.op, target, w.replicas, a)
    ensures Begins(target, w, a) ==> r == AskDecommission(w.status)
    ensures !Begins(target, w, a) ==>
              || r == w.status.(running := a.ready)
              || (r == w.status.(running := a.ready, action := w.status.action.(status := Done)) && GoneAgain(w) && w.replicas == target && w.extra == 0)
  {
    r := NextStatus(w.status.(running := a.ready), w.status.op, target, w.replicas, a);
  }

  /** The pass does what it should, and leaves a state in order. */
  ghost predicate Judged(target: int, w: World, a: Answers) {
    && (Lowers(target, w, a) <==> LowersNow(target, w, a)) && (After(target, w, a).told.Some? <==> TellsNow(target, w, a))
    && (After(target, w, a).told.Some? ==> After(target, w, a).told.value == w.replicas + w.extra - 1)
    && After(target, w, a).claim == (if DeletesNow(target, w, a) then Some(w.status.op.pods[0]) else None)
    && (Safe(target, w, a) <==> !Careless(target, w, a))
    && (!Careless(target, w, a) ==> Orderly(target, Next(target, w, a)))
  }

  lemma {:induction false} BegunPass(target: int, w: World, a: Answers)
    requires Orderly(target, w) && Truthful(w, a) && Begins(target, w, a)
    ensures Judged(target, w, a)
  {
    hide NextStatus, PodOperation;
    var r := NextIs(target, w, a);
    AskedPass(w, r, a);
    AskedActs(w, r, a);
  }

  /** When a decommission to do acts. */
  lemma AskedActs(w: World, r: Rack, a: Answers)
    requires Scaling(r) && r.op.decommission && (r.op.status == ToDo || r.op.status == Continue) && Truthful(w, a)
    ensures PodOperation(r, a).told.Some? <==> Obeys(a)
    ensures !PodOperation(r, a).stop <==> a.last.Unschedulable?
  {
  }

  lemma {:induction false} AskedIsJudged(target: int, w: World, a: Answers)
    requires Orderly(target, w) && Truthful(w, a) && AskedAgain(w) && !Begins(target, w, a)
    ensures Judged(target, w, a)
  {
    hide NextStatus, PodOperation;
    var r := NextIs(target, w, a);
    AskedPass(w, r, a);
    AskedActs(w, r, a);
  }

  lemma {:induction false} RestIsJudged(target: int, w: World, a: Answers)
    requires Orderly(target, w) && Truthful(w, a) && Resting(target, w) && !Begins(target, w, a)
    ensures Judged(target, w, a)
  {
  }

  /** What becomes of a decommission under way. */
  lemma LeavingPass(r: Rack, a: Answers)
    requires Scaling(r) && r.op.decommission && r.op.status == Ongoing && r.op.pods != []
    ensures var v := PodOperation(r, a);
            if a.named == Present && (a.mode == Some(DECOMMISSIONED) || a.mode == Some(UNKNOWN))
            then v == Verdict(r.(op := r.op.(status := Finalizing)), false, true, None, None)
            else v == Stop(r) || v == Stop(r.(op := r.op.(status := ToDo)))
  {
  }

  lemma {:induction false} FoundGoneIsJudged(target: int, w: World, a: Answers)
    requires Orderly(target, w) && Truthful(w, a) && LeavingAgain(w) && FoundGone(target, w, a)
    ensures Judged(target, w, a)
  {
    hide NextStatus, PodOperation;
    var r := NextIs(target, w, a);
    LeavingPass(r, a);
  }

  lemma {:induction false} LeavingIsJudged(target: int, w: World, a: Answers)
    requires Orderly(target, w) && Truthful(w, a) && LeavingAgain(w) && !Begins(target, w, a)
    ensures Judged(target, w, a)
  {
    hide NextStatus, PodOperation, WriteStatefulSet;
    if FoundGone(target, w, a) {
      FoundGoneIsJudged(target, w, a);
    } else {
      var r := NextIs(target, w, a);
      LeavingPass(r, a);
    }
  }

  lemma {:induction false} GoingIsJudged(target: int, w: World, a: Answers)
    requires Orderly(target, w) && Truthful(w, a) && GoingAgain(w) && !Begins(target, w, a)
    ensures Judged(target, w, a)
  {
    hide NextStatus;
    var r := NextIs(target, w, a);
  }

  lemma {:induction false} GoneIsJudged(target: int, w: World, a: Answers)
    requires Orderly(target, w) && Truthful(w, a) && GoneAgain(w) && !Begins(target, w, a)
    ensures Judged(target, w, a)
  {
    hide NextStatus;
    var r := NextIs(target, w, a);
  }

  /** What a pass does to the status when a decommission is due, for every answer. */
  lemma {:induction false} DueInFull(target: int, w: World, a: Answers)
    requires Orderly(target, w) && Truthful(w, a) && Due(target, w, a)
    ensures var r, last, o := if Begins(target, w, a) then AskDecommission(w.status) else w.status.(running := a.ready), w.replicas + w.extra - 1, After(target, w, a).rack;
            if Obeys(a) then o == r.(op := PodOp(true, Ongoing, [last], []))
            else if a.last.Unschedulable? then o == r.(op := PodOp(true, Finalizing, [last], []), action := r.action.(status := Continue))
            else o == r
  {
    hide NextStatus;
    var r := NextIs(target, w, a);
  }

  /** While a pod leaves: when it is asked for again, and when it is found gone. */
  lemma {:induction false} LeavingInFull(target: int, w: World, a: Answers)
    requires Orderly(target, w) && Truthful(w, a) && !Due(target, w, a) && Scaling(w.status) && w.status.op.status == Ongoing
    ensures var r, o, op := w.status.(running := a.ready), After(target, w, a).rack, w.status.op;
            if FoundGone(target, w, a) then
              && o.op == op.(status := Finalizing)
              && o.action == (if a.noDisruption && target < w.replicas && r.action.status == ToDo then r.action.(status := Ongoing, start := Some(a.now)) else r.action)
            else o == r.(op := op.(status := if a.named == Present && a.mode == Some(NORMAL) && a.overdue then ToDo else Ongoing))
  {
  }

  /** And otherwise, once it has left or is gone: when it is done with, and when the action goes on or ends. */
  lemma {:induction false} PassInFull(target: int, w: World, a: Answers)
    requires Orderly(target, w) && Truthful(w, a) && !Due(target, w, a) && Scaling(w.status) && w.status.op.status != Ongoing
    ensures var r, o, op := w.status.(running := a.ready), After(target, w, a).rack, w.status.op;
            if op.status == Finalizing then
              if a.named == NotFound && a.claim != ClaimLookupFailed then o == r.(op := PodOp(true, if a.ready then Done else Continue, [], op.pods))
              else o == r
            else if !Waiting(r.action, a.now) && r.action.status != ToDo && w.replicas == target && w.extra == 0
              then o.action == r.action.(status := Done) && o.op == a.otherOp
              else o == r.(action := r.action.(status := Continue))
  {
  }

  /** A pass is safe exactly if it is not careless, and then leaves a state in order. */
  lemma {:induction false} PassIsSafe(target: int, w: World, a: Answers)
    requires Orderly(target, w) && Truthful(w, a)
    ensures Judged(target, w, a)
  {
    hide Judged, Begins, Truthful;
    if Begins(target, w, a) {
      BegunPass(target, w, a);
    } else if AskedAgain(w) {
      AskedIsJudged(target, w, a);
    } else if LeavingAgain(w) {
      LeavingIsJudged(target, w, a);
    } else if GoingAgain(w) {
      GoingIsJudged(target, w, a);
    } else if GoneAgain(w) {
      GoneIsJudged(target, w, a);
    } else {
      RestIsJudged(target, w, a);
    }
  }

  /** Something happens: a pass, or the highest pod being removed disappears. */
  datatype Event = PassOver(a: Answers) | PodDisappears

  function Happens(target: int, w: World, e: Event): World {
    match e
    case PassOver(a) => Next(target, w, a)
    case PodDisappears => if w.extra > 0 then w.(extra := w.extra - 1) else w
  }

  /** The answers fit the state of the cluster in every pass of the run. */
  ghost predicate TruthfulRun(target: int, w: World, run: seq<Event>)
    decreases |run|
  {
    run == [] || ((run[0].PassOver? ==> Truthful(w, run[0].a)) && TruthfulRun(target, Happens(target, w, run[0]), run[1..]))
  }

  /** No pass of the run is careless. */
  ghost predicate CarefulRun(target: int, w: World, run: seq<Event>)
    decreases |run|
  {
    run == [] || ((run[0].PassOver? ==> !Careless(target, w, run[0].a)) && CarefulRun(target, Happens(target, w, run[0]), run[1..]))
  }

  /** Every pass of the run is safe. */
  ghost predicate SafeRun(target: int, w: World, run: seq<Event>)
    decreases |run|
  {
    run == [] || ((run[0].PassOver? ==> Safe(target, w, run[0].a)) && SafeRun(target, Happens(target, w, run[0]), run[1..]))
  }

  /** Whatever writes are lost, whatever pods linger: a run from rest is safe exactly if no pass of it is careless. */
  lemma {:induction false} RunIsSafe(target: int, w: World, run: seq<Event>)
    requires Orderly(target, w) && TruthfulRun(target, w, run)
    ensures SafeRun(target, w, run) <==> CarefulRun(target, w, run)
    decreases |run|
  {
    hide Safe, Truthful, Careless, Next;
    if run != [] {
      if run[0].PassOver? {
        PassIsSafe(target, w, run[0].a);
      }
      if run[0].PassOver? ==> !Careless(target, w, run[0].a) {
        RunIsSafe(target, Happens(target, w, run[0]), run[1..]);
      }
    }
  }

  /** In every pass of the run the pods that were scaled away are gone. */
  ghost predicate PromptRun(target: int, w: World, run: seq<Event>)
    decreases |run|
  {
    run == [] || ((run[0].PassOver? ==> w.extra == 0) && PromptRun(target, Happens(target, w, run[0]), run[1..]))
  }

  lemma {:induction false} PromptIsCareful(target: int, w: World, run: seq<Event>)
    requires PromptRun(target, w, run)
    ensures CarefulRun(target, w, run)
    decreases |run|
  {
    hide Happens, LowersNow, TellsNow;
    if run != [] {
      PromptIsCareful(target, Happens(target, w, run[0]), run[1..]);
    }
  }

  /** Where pods that are scaled away are gone before the next pass, every run is safe, whatever writes are lost. */
  lemma PromptRunIsSafe(target: int, w: World, run: seq<Event>)
    requires Orderly(target, w) && TruthfulRun(target, w, run) && PromptRun(target, w, run)
    ensures SafeRun(target, w, run)
  {
    hide Orderly, TruthfulRun, PromptRun, SafeRun, CarefulRun;
    PromptIsCareful(target, w, run);
    RunIsSafe(target, w, run);
  }

  /** Although the target is reached and no pod is left to go, one more is told to leave. */
  ghost predicate Needless(target: int, w: World, a: Answers) {
    w.replicas == target && w.extra == 0 && TellsNow(target, w, a)
  }

  lemma {:induction false} PassSpares(target: int, w: World, a: Answers)
    requires Orderly(target, w) && Truthful(w, a)
    ensures Spares(target, w, a) <==> !Needless(target, w, a)
  {
    hide PodOperation, NextStatus;
    PassIsSafe(target, w, a);
  }

  ghost predicate NeedlessFree(target: int, w: World, run: seq<Event>)
    decreases |run|
  {
    run == [] || ((run[0].PassOver? ==> !Needless(target, w, run[0].a)) && NeedlessFree(target, Happens(target, w, run[0]), run[1..]))
  }

  /** A careful run spares all pods below the target exactly if no pass of it is needless. */
  lemma {:induction false} RunSparesExactly(target: int, w: World, run: seq<Event>)
    requires Orderly(target, w) && TruthfulRun(target, w, run) && CarefulRun(target, w, run)
    ensures SparingRun(target, w, run) <==> NeedlessFree(target, w, run)
    decreases |run|
  {
    hide Spares, Safe, Truthful, Careless, Needless, Next;
    if run != [] {
      if run[0].PassOver? {
        PassIsSafe(target, w, run[0].a);
        PassSpares(target, w, run[0].a);
      }
      RunSparesExactly(target, Happens(target, w, run[0]), run[1..]);
    }
  }

  /** Moreover, the StatefulSet is ready whenever a pod is gone. */
  ghost predicate SoundRun(target: int, w: World, run: seq<Event>)
    decreases |run|
  {
    run == [] || ((run[0].PassOver? ==> Sound(target, w, run[0].a)) && SoundRun(target, Happens(target, w, run[0]), run[1..]))
  }

  ghost predicate SparingRun(target: int, w: World, run: seq<Event>)
    decreases |run|
  {
    run == [] || ((run[0].PassOver? ==> Spares(target, w, run[0].a)) && SparingRun(target, Happens(target, w, run[0]), run[1..]))
  }

  lemma StepSpares(target: int, w: World, e: Event)
    requires Inv(target, w) && (e.PassOver? ==> Sound(target, w, e.a))
    ensures Inv(target, Happens(target, w, e)) && (e.PassOver? ==> Spares(target, w, e.a))
  {
    hide Spares, Next;
    if e.PassOver? {
      if AtRest(target, w) {
        RestSpares(target, w, e.a);
      } else if Asked(target, w) {
        AskedSpares(target, w, e.a);
      } else if Leaving(target, w) {
        LeavingSpares(target, w, e.a);
      } else if Going(target, w) {
        GoingSpares(target, w, e.a);
      } else {
        GoneSpares(target, w, e.a);
      }
    }
  }

  /** Then no pod below the target is told to leave, over the whole run. */
  lemma {:induction false} RunSparesPods(target: int, w: World, run: seq<Event>)
    requires Inv(target, w) && SoundRun(target, w, run)
    ensures SparingRun(target, w, run)
    decreases |run|
  {
    hide Spares, Sound, Inv, Happens;
    if run != [] {
      StepSpares(target, w, run[0]);
      RunSparesPods(target, Happens(target, w, run[0]), run[1..]);
    }
  }

  /** The target is reached and the rack is at rest. */
  ghost predicate Finished(target: int, w: World) {
    AtRest(target, w) && w.replicas == target
  }

  /** How far the scale-down still has to go: the replicas too many, and the stage of the one at hand. */
  ghost function Rank(target: int, w: World): int {
    var more := 5 * (w.replicas - target);
    if Idle(w.status) then (if w.replicas == target then 0 else more + 4)
    else if AskedAgain(w) then more + 3
    else if LeavingAgain(w) then more + if w.status.action.status == Continue then 4 else 2
    else if GoingAgain(w) then more + 6
    else if w.status.action.status == Continue then more + 4
    else more + 5
  }

  /**
   The decommission waits for ever: for a pod that has left the ring to disappear, although the StatefulSet still asks for
   it, or for a pod to leave the ring that is not there any more.
   */
  ghost predicate Stuck(target: int, w: World) {
    && Scaling(w.status) && w.status.op.decommission && w.extra == 0 && |w.status.op.pods| == 1
    && !(w.status.action.status == Continue && target < w.replicas)
    && ((w.status.op.status == Finalizing && w.status.op.pods[0] < w.replicas) || (w.status.op.status == Ongoing && w.replicas <= w.status.op.pods[0]))
  }

  /** Nothing has changed but the clock, and whether the rack is said to be running. */
  ghost predicate Unmoved(w: World, n: World) {
    && n.replicas == w.replicas && n.extra == w.extra && n.claims == w.claims
    && n.status.action == w.status.action && n.status.op == w.status.op
  }

  /** Every pass keeps such a state, whatever the cluster answers. */
  lemma {:induction false} StuckStays(target: int, w: World, a: Answers)
    requires Stuck(target, w) && target <= w.replicas && Truthful(w, a)
    ensures Unmoved(w, Next(target, w, a)) && Stuck(target, Next(target, w, a))
  {
  }

  /** Where a run ends. */
  function EndOf(target: int, w: World, run: seq<Event>): World
    decreases |run|
  {
    if run == [] then w else EndOf(target, Happens(target, w, run[0]), run[1..])
  }

  /** So does every run. */
  lemma {:induction false} StuckForEver(target: int, w: World, run: seq<Event>)
    requires Stuck(target, w) && target <= w.replicas && TruthfulRun(target, w, run)
    ensures Unmoved(w, EndOf(target, w, run)) && Stuck(target, EndOf(target, w, run))
    decreases |run|
  {
    hide Next, Truthful;
    if run != [] {
      if run[0].PassOver? {
        StuckStays(target, w, run[0].a);
      }
      StuckForEver(target, Happens(target, w, run[0]), run[1..]);
    }
  }

  /** The pods that were scaled away are gone. */
  function Settle(w: World): World {
    w.(extra := 0)
  }

  /**
   While the last pod leaves, a pass gets stuck exactly if it finds that the pod has left, and of its two writes, that of
   the StatefulSet and that of the status, exactly one goes through.
   */
  lemma {:induction false} StuckExactly(target: int, w: World, a: Answers)
    requires 0 <= target && Leaving(target, w) && Truthful(w, a)
    ensures Stuck(target, Settle(Next(target, w, a))) <==>
            FoundGone(target, w, a) && ((a.noDisruption && a.updateOk) != (a.midWrite || a.endWrite))
  {
    hide NextStatus, PodOperation;
    var r := NextIs(target, w, a);
    LeavingPass(r, a);
  }

  /** The last pod answers that it is leaving or has left, although no decommission is noted. */
  predicate LeftUnasked(a: Answers) {
    a.last.Running? && (a.mode == Some(LEAVING) || a.mode == Some(DECOMMISSIONED) || a.mode == Some(UNKNOWN))
  }

  /** A pod that was told to leave when the status could not be written is asked for once more. */
  lemma ToldIsForgotten(target: int, w: World, a: Answers)
    requires 0 <= target && Asked(target, w) && Truthful(w, a) && Obeys(a) && !a.endWrite
    ensures After(target, w, a).told == Some((w.replicas - 1) as nat) && Next(target, w, a).status == w.status
    ensures Asked(target, Next(target, w, a))
  {
  }

  /** While a pod is to be told to leave, a pass moves on exactly if the pod can be told, or cannot be scheduled, and something is written. */
  lemma {:induction false} AskedMovesExactly(target: int, w: World, a: Answers)
    requires 0 <= target && Asked(target, w) && Truthful(w, a)
    ensures Unmoved(w, Next(target, w, a)) <==>
            !((Obeys(a) && a.endWrite) || (a.last.Unschedulable? && (a.endWrite || (a.noDisruption && a.updateOk))))
  {
  }

  /** In every pass of the run the last pod answers so. */
  ghost predicate LeftRun(target: int, w: World, run: seq<Event>)
    decreases |run|
  {
    run == [] || ((run[0].PassOver? ==> Truthful(w, run[0].a) && LeftUnasked(run[0].a)) && LeftRun(target, Happens(target, w, run[0]), run[1..]))
  }

  /** Then nothing is ever done. */
  lemma {:induction false} LeftForEver(target: int, w: World, run: seq<Event>)
    requires 0 <= target && Asked(target, w) && LeftRun(target, w, run)
    ensures Unmoved(w, EndOf(target, w, run))
    decreases |run|
  {
    hide Next, Truthful;
    if run != [] {
      if run[0].PassOver? {
        AskedMovesExactly(target, w, run[0].a);
      }
      LeftForEver(target, Happens(target, w, run[0]), run[1..]);
    }
  }

  /** The target is reached, and yet one more pod is to be told to leave, or is leaving. */
  ghost predicate Overdone(target: int, w: World) {
    && Scaling(w.status) && w.status.op.decommission && w.extra == 0 && w.replicas == target
    && (w.status.op.status == ToDo || w.status.op.status == Continue || (w.status.op.status == Ongoing && w.status.op.pods == [w.replicas - 1]))
  }

  /** The scale-down cannot end any more. */
  ghost predicate Doomed(target: int, w: World) {
    Stuck(target, w) || Overdone(target, w)
  }

  lemma {:induction false} OverdoneStays(target: int, w: World, a: Answers)
    requires 0 <= target && Overdone(target, w) && Truthful(w, a)
    ensures Doomed(target, Next(target, w, a)) && Next(target, w, a).replicas == w.replicas
  {
  }

  /** Whatever the cluster answers, it goes on for ever, and no pod is removed any more. */
  lemma {:induction false} DoomedForEver(target: int, w: World, run: seq<Event>)
    requires 0 <= target <= w.replicas && Doomed(target, w) && TruthfulRun(target, w, run)
    ensures Doomed(target, EndOf(target, w, run)) && EndOf(target, w, run).replicas == w.replicas
    ensures !Finished(target, EndOf(target, w, run))
    decreases |run|
  {
    hide Next, Truthful;
    if run != [] {
      if run[0].PassOver? {
        if Stuck(target, w) {
          StuckStays(target, w, run[0].a);
        } else {
          OverdoneStays(target, w, run[0].a);
        }
      }
      DoomedForEver(target, Happens(target, w, run[0]), run[1..]);
    }
  }

  /**
   The cluster does what it is asked to: there is no disruption, no delay, and every write and lookup succeeds; a pod that
   is due can be told, one that was told has left, and the StatefulSet is ready.
   */
  ghost predicate Cooperates(target: int, w: World, a: Answers) {
    && Truthful(w, a) && a.statusReplicas == w.replicas
    && a.noDisruption && a.updateOk && a.midWrite && a.endWrite && !Waiting(w.status.action, a.now)
    && a.named != LookupFailed && a.claim != ClaimLookupFailed && (a.named == NotFound ==> a.ready)
    && (Due(target, w, a) ==> a.last.Unschedulable? || Obeys(a))
    && (!Due(target, w, a) && w.status.op.status == Ongoing && a.named == Present ==> a.mode == Some(DECOMMISSIONED) || a.mode == Some(UNKNOWN))
  }

  /** The pass brings the scale-down nearer to its end, and does not spoil it. */
  ghost predicate Nears(target: int, w: World, a: Answers) {
    Rank(target, Next(target, w, a)) < Rank(target, w) && !Doomed(target, Settle(Next(target, w, a)))
  }

  lemma {:induction false} DueProgresses(target: int, w: World, a: Answers)
    requires Orderly(target, w) && w.extra == 0 && !Doomed(target, w) && Cooperates(target, w, a) && Due(target, w, a)
    ensures Nears(target, w, a)
  {
    hide NextStatus, PodOperation;
    var r := NextIs(target, w, a);
    AskedPass(w, r, a);
    AskedActs(w, r, a);
  }

  lemma {:induction false} LeavingProgresses(target: int, w: World, a: Answers)
    requires Orderly(target, w) && w.extra == 0 && !Doomed(target, w) && Cooperates(target, w, a) && !Due(target, w, a) && LeavingAgain(w)
    ensures Nears(target, w, a)
  {
  }

  lemma {:induction false} GoingProgresses(target: int, w: World, a: Answers)
    requires Orderly(target, w) && w.extra == 0 && !Doomed(target, w) && Cooperates(target, w, a) && !Due(target, w, a) && GoingAgain(w)
    ensures Nears(target, w, a)
  {
  }

  lemma {:induction false} GoneProgresses(target: int, w: World, a: Answers)
    requires Orderly(target, w) && w.extra == 0 && Cooperates(target, w, a) && !Due(target, w, a) && GoneAgain(w)
    ensures Nears(target, w, a)
  {
  }

  /** Before its end, a scale-down at rest has a pod that is due. */
  lemma RestIsDue(target: int, w: World, a: Answers)
    requires Orderly(target, w) && w.extra == 0 && Idle(w.status) && !Finished(target, w) && Cooperates(target, w, a)
    ensures Due(target, w, a)
  {
  }

  lemma CooperationIsCareful(target: int, w: World, a: Answers)
    requires w.extra == 0 && Cooperates(target, w, a)
    ensures Truthful(w, a) && !Careless(target, w, a)
  {
  }

  /** A pass in which the cluster cooperates brings a scale-down that can end nearer to its end, and keeps it so. */
  lemma {:induction false} PassProgresses(target: int, w: World, a: Answers)
    requires Orderly(target, w) && w.extra == 0 && !Finished(target, w) && !Doomed(target, w) && Cooperates(target, w, a)
    ensures Orderly(target, Next(target, w, a)) && !Doomed(target, Settle(Next(target, w, a)))
    ensures Rank(target, Next(target, w, a)) < Rank(target, w)
  {
    hide Cooperates, Next, Safe, Rank, Doomed, Due, Careless, Truthful, After, Lowers;
    CooperationIsCareful(target, w, a);
    PassIsSafe(target, w, a);
    if Due(target, w, a) {
      DueProgresses(target, w, a);
    } else if AskedAgain(w) {
      AskedIsDue(target, w, a);
    } else if LeavingAgain(w) {
      LeavingProgresses(target, w, a);
    } else if GoingAgain(w) {
      GoingProgresses(target, w, a);
    } else if GoneAgain(w) {
      GoneProgresses(target, w, a);
    } else {
      RestIsDue(target, w, a);
    }
  }

  lemma AskedIsDue(target: int, w: World, a: Answers)
    requires AskedAgain(w)
    ensures Due(target, w, a)
  {
  }

  /** Once the pods that were scaled away are gone. */
  lemma SettledIsOrderly(target: int, w: World)
    requires Orderly(target, w)
    ensures Orderly(target, Settle(w)) && Rank(target, Settle(w)) <= Rank(target, w)
    ensures 0 <= Rank(target, Settle(w)) && (Rank(target, Settle(w)) == 0 ==> Finished(target, Settle(w)))
  {
  }

  /** In every pass up to the end the pods that were scaled away are gone, and the cluster cooperates. */
  ghost predicate CooperativeRun(target: int, w: World, answers: seq<Answers>)
    decreases |answers|
  {
    || answers == [] || Finished(target, Settle(w))
    || (Cooperates(target, Settle(w), answers[0]) && CooperativeRun(target, Next(target, Settle(w), answers[0]), answers[1..]))
  }

  /** Where the run has come when it is over or finished. */
  ghost function Arrives(target: int, w: World, answers: seq<Answers>): World
    decreases |answers|
  {
    if answers == [] || Finished(target, Settle(w)) then Settle(w) else Arrives(target, Next(target, Settle(w), answers[0]), answers[1..])
  }

  /** A scale-down that can end does so, at its target, after at most as many cooperative passes as its rank says. */
  lemma {:induction false} ScaleDownEnds(target: int, w: World, answers: seq<Answers>)
    requires Orderly(target, w) && !Doomed(target, Settle(w)) && CooperativeRun(target, w, answers) && |answers| >= Rank(target, w)
    ensures Finished(target, Arrives(target, w, answers))
    decreases |answers|
  {
    hide Orderly, Cooperates, Rank, Next, Finished, Doomed;
    SettledIsOrderly(target, w);
    if answers != [] && !Finished(target, Settle(w)) {
      PassProgresses(target, Settle(w), answers[0]);
      ScaleDownEnds(target, Next(target, Settle(w), answers[0]), answers[1..]);
    }
  }

  /** Answers of a cluster that cooperates. */
  function Ideal(target: int, w: World): Answers {
    var start := if w.status.action.start.Some? then w.status.action.start.value + DELAY else 0;
    var left := w.status.op.pods == [] || w.status.op.pods[0] >= w.replicas;
    var leaving := w.status.op.status == Ongoing && Scaling(w.status) && !(w.status.action.status == Continue && target < w.replicas);
    Answers(if w.clock < start then start else w.clock, true, true, w.replicas,
            if w.replicas <= 0 then NoPods else Running(w.replicas - 1), if left then NotFound else Present,
            Some(if leaving then DECOMMISSIONED else NORMAL), false, Missing, true, true, true, PodOp(false, Done, [], []), false)
  }

  lemma IdealCooperates(target: int, w: World)
    requires Orderly(target, w) && w.extra == 0 && !Finished(target, w) && !Doomed(target, w)
    ensures Cooperates(target, w, Ideal(target, w))
  {
  }

  /** Cooperative answers up to the end. */
  lemma {:induction false} SomeRunEnds(target: int, w: World) returns (answers: seq<Answers>)
    requires Orderly(target, w) && !Doomed(target, Settle(w))
    ensures CooperativeRun(target, w, answers) && Finished(target, Arrives(target, w, answers))
    decreases Rank(target, Settle(w))
  {
    hide Orderly, Cooperates, Rank, Next, Finished, Doomed, Ideal;
    answers := [];
    SettledIsOrderly(target, w);
    if !Finished(target, Settle(w)) {
      var a := Ideal(target, Settle(w));
      IdealCooperates(target, Settle(w));
      PassProgresses(target, Settle(w), a);
      var n := Next(target, Settle(w), a);
      SettledIsOrderly(target, n);
      var rest := SomeRunEnds(target, n);
      answers := [a] + rest;
      assert answers[1..] == rest;
    }
  }

  lemma {:induction false} DoomedNeverEnds(target: int, w: World, answers: seq<Answers>)
    requires 0 <= target <= w.replicas && Doomed(target, Settle(w)) && CooperativeRun(target, w, answers)
    ensures !Finished(target, Arrives(target, w, answers))
    decreases |answers|
  {
    hide Next, Cooperates;
    if answers != [] {
      var n := Next(target, Settle(w), answers[0]);
      CooperationIsCareful(target, Settle(w), answers[0]);
      if Stuck(target, Settle(w)) {
        StuckStays(target, Settle(w), answers[0]);
      } else {
        OverdoneStays(target, Settle(w), answers[0]);
      }
      assert n.extra == 0 && Settle(n) == n;
      DoomedNeverEnds(target, n, answers[1..]);
    }
  }

  /** From any state of a run that was safe, a cluster that cooperates from now on can end the scale-down exactly if it is not doomed. */
  lemma {:induction false} EndsExactly(target: int, w: World)
    requires Orderly(target, w)
    ensures (exists answers :: CooperativeRun(target, w, answers) && Finished(target, Arrives(target, w, answers))) <==> !Doomed(target, Settle(w))
  {
    hide Finished, Arrives, CooperativeRun, Doomed;
    if Doomed(target, Settle(w)) {
      forall answers | CooperativeRun(target, w, answers)
        ensures !Finished(target, Arrives(target, w, answers))
      {
        DoomedNeverEnds(target, w, answers);
      }
    } else {
      var answers := SomeRunEnds(target, w);
    }
  }

  /** A pod is found to have left, but only one of StatefulSet and status can be written, and no new decommission is to begin. */
  predicate HalfWritten(target: int, w: World, a: Answers) {
    && FoundGone(target, w, a) && ((a.noDisruption && a.updateOk) != (a.midWrite || a.endWrite))
    && !(w.status.action.status == Continue && target < w.replicas - if a.noDisruption && a.updateOk then 1 else 0)
  }

  /** The last pod to go is scaled away because it cannot be scheduled, and what is stored still asks for one. */
  predicate HalfScaled(target: int, w: World, a: Answers) {
    && Due(target, w, a) && a.last.Unschedulable? && a.noDisruption && a.updateOk && !a.endWrite && target == w.replicas - 1
    && Scaling(w.status) && w.status.op.decommission
    && (w.status.op.status == ToDo || w.status.op.status == Continue || w.status.op.status == Ongoing)
  }

  /** The last pod to go has disappeared while the StatefulSet is not ready, and that is stored. */
  ghost predicate GoneUnready(target: int, w: World, a: Answers) {
    && GoingAgain(w) && w.replicas == target && a.named == NotFound && a.claim != ClaimLookupFailed && !a.ready && a.endWrite
  }

  ghost predicate Dooms(target: int, w: World, a: Answers) {
    HalfWritten(target, w, a) || HalfScaled(target, w, a) || GoneUnready(target, w, a)
  }

  lemma {:induction false} DueDooms(target: int, w: World, a: Answers)
    requires Orderly(target, w) && w.extra == 0 && !Doomed(target, w) && Truthful(w, a) && Due(target, w, a)
    ensures Doomed(target, Settle(Next(target, w, a))) <==> Dooms(target, w, a)
  {
    hide NextStatus, PodOperation;
    var r := NextIs(target, w, a);
    AskedPass(w, r, a);
    AskedActs(w, r, a);
  }

  lemma {:induction false} LeavingDooms(target: int, w: World, a: Answers)
    requires Orderly(target, w) && w.extra == 0 && !Doomed(target, w) && Truthful(w, a) && !Due(target, w, a) && LeavingAgain(w)
    ensures Doomed(target, Settle(Next(target, w, a))) <==> Dooms(target, w, a)
  {
    hide NextStatus, PodOperation;
    var r := NextIs(target, w, a);
    LeavingPass(r, a);
  }

  lemma {:induction false} OtherDooms(target: int, w: World, a: Answers)
    requires Orderly(target, w) && w.extra == 0 && !Doomed(target, w) && Truthful(w, a) && !Due(target, w, a) && !LeavingAgain(w)
    ensures Doomed(target, Settle(Next(target, w, a))) <==> Dooms(target, w, a)
  {
    hide NextStatus;
    var r := NextIs(target, w, a);
  }

  /** A pass dooms a scale-down that could end exactly under one of these three guards. */
  lemma {:induction false} DoomsExactly(target: int, w: World, a: Answers)
    requires Orderly(target, w) && w.extra == 0 && !Doomed(target, w) && Truthful(w, a)
    ensures Doomed(target, Settle(Next(target, w, a))) <==> Dooms(target, w, a)
  {
    hide Orderly, Doomed, Truthful, Due, Dooms, Next;
    if Due(target, w, a) {
      DueDooms(target, w, a);
    } else if LeavingAgain(w) {
      LeavingDooms(target, w, a);
    } else {
      OtherDooms(target, w, a);
    }
  }

  /** No pass of the run dooms the scale-down. */
  ghost predicate DoomFree(target: int, w: World, run: seq<Event>)
    decreases |run|
  {
    run == [] || ((run[0].PassOver? ==> !Dooms(target, w, run[0].a)) && DoomFree(target, Happens(target, w, run[0]), run[1..]))
  }

  lemma {:induction false} StaysDoomed(target: int, w: World, run: seq<Event>)
    requires 0 <= target <= w.replicas && 0 <= w.extra && Doomed(target, Settle(w)) && TruthfulRun(target, w, run) && PromptRun(target, w, run)
    ensures Doomed(target, Settle(EndOf(target, w, run)))
    decreases |run|
  {
    hide Next, Truthful;
    if run != [] {
      var n := Happens(target, w, run[0]);
      if run[0].PassOver? {
        assert Settle(w) == w;
        if Stuck(target, w) {
          StuckStays(target, w, run[0].a);
        } else {
          OverdoneStays(target, w, run[0].a);
        }
        assert Settle(n) == n;
      } else {
        assert Settle(n) == Settle(w);
      }
      StaysDoomed(target, n, run[1..]);
    }
  }

  /** Where pods that are scaled away are gone before the next pass, a run leaves a scale-down that can end exactly if no pass of it dooms it. */
  lemma {:induction false} RunDoomsExactly(target: int, w: World, run: seq<Event>)
    requires Orderly(target, w) && !Doomed(target, Settle(w)) && TruthfulRun(target, w, run) && PromptRun(target, w, run)
    ensures Doomed(target, Settle(EndOf(target, w, run))) <==> !DoomFree(target, w, run)
    decreases |run|
  {
    hide Next, Truthful, Doomed, Dooms, Safe, Lowers, After;
    if run != [] {
      var n := Happens(target, w, run[0]);
      if run[0].PassOver? {
        assert Settle(w) == w;
        PassIsSafe(target, w, run[0].a);
        DoomsExactly(target, w, run[0].a);
      } else {
        assert Settle(n) == Settle(w);
      }
      if Doomed(target, Settle(n)) {
        StaysDoomed(target, n, run[1..]);
      } else {
        RunDoomsExactly(target, n, run[1..]);
      }
    }
  }

  /** A rack to be scaled down from two nodes to one whose last pod cannot be scheduled: it is scaled away, and no status is written. */
  lemma HalfScaledIsDoomed()
    ensures var w := World(2, 0, Rack(false, Action(ScaleDownAction, ToDo, None), PodOp(true, ToDo, [], [])), 0, {0, 1});
            var a := ExampleAnswers(true, 2).(last := Unschedulable(1));
            Inv(1, w) && Truthful(w, a) && Overdone(1, Happens(1, Next(1, w, a), PodDisappears))
  {
  }

  /** A rack of three nodes whose last has left the ring; a disruption keeps the StatefulSet from being written. */
  lemma DisruptionSticks()
    ensures var a := ExampleAnswers(false, 3).(noDisruption := false);
            Inv(1, Example()) && Truthful(Example(), a) && Stuck(1, Next(1, Example(), a))
  {
  }

  /** The same rack; the StatefulSet is written, but no status, and then the pod disappears. */
  lemma LostWriteSticks()
    ensures var a := ExampleAnswers(true, 3);
            Truthful(Example(), a) && Stuck(1, Happens(1, Next(1, Example(), a), PodDisappears))
  {
  }

  /** A rack of three nodes; the last one is told to leave, no status is written, and it leaves. */
  lemma ForgottenSticks()
    ensures var w, a := PendingExample(), ExampleAnswers(true, 3).(mode := Some(NORMAL));
            && Inv(1, w) && Truthful(w, a) && After(1, w, a).told == Some(2)
            && var n, b := Next(1, w, a), ExampleAnswers(false, 3).(mode := Some(LEAVING));
               Asked(1, n) && Truthful(n, b) && LeftUnasked(b) && Unmoved(n, Next(1, n, b))
  {
  }

  /** A rack at its target whose last pod disappears while the StatefulSet is not ready: one more pod is to leave, and it never ends. */
  lemma UnreadyIsDoomed()
    ensures var a := UnreadyAnswers(NotFound);
            Inv(1, UnreadyExample()) && Truthful(UnreadyExample(), a) && Overdone(1, Next(1, UnreadyExample(), a))
  {
  }

  /** A pod that could not be scheduled was scaled away and lingers: the pass is unsafe exactly if it looks for changes and acts. */
  lemma {:induction false} LingeringExactly(target: int, w: World, a: Answers)
    requires Orderly(target, w) && Truthful(w, a) && GoingAgain(w) && w.status.action.status == Continue && w.extra == 1
    ensures Safe(target, w, a) <==>
            !(&& !Waiting(w.status.action, a.now) && a.noDisruption && target < w.replicas
              && ((a.last.Unschedulable? && a.updateOk) || Obeys(a)))
  {
    hide Safe, Next, After;
    PassIsSafe(target, w, a);
  }

  /**
   While the last pod leaves: the pass after the next is unsafe exactly if that one lowers the replicas, no write of it
   succeeds, and the pod still answers that it has left although there is one more replica to lower.
   */
  lemma {:induction false} LostWriteExactly(target: int, w: World, a: Answers, b: Answers)
    requires 0 <= target && Leaving(target, w) && Truthful(w, a) && Truthful(Next(target, w, a), b)
    ensures Safe(target, Next(target, w, a), b) <==>
            !(&& LowersNow(target, w, a) && !a.midWrite && !a.endWrite
              && b.noDisruption && b.updateOk && target < w.replicas - 1
              && b.named == Present && (b.mode == Some(DECOMMISSIONED) || b.mode == Some(UNKNOWN)))
  {
    hide Safe;
    PassIsSafe(target, w, a);
    PassIsSafe(target, Next(target, w, a), b);
  }

  /**
   From a state in order, the next pass but one tells a pod below the target to leave exactly if the first finds the last
   pod to go has disappeared while the StatefulSet is not ready, and stores that.
   */
  lemma {:induction false} UnreadyExactly(target: int, w: World, a: Answers, b: Answers)
    requires Inv(target, w) && Kept(target, w, a) && Truthful(Next(target, w, a), b)
    ensures Spares(target, Next(target, w, a), b) <==>
            !(&& Going(target, w) && w.replicas == target && w.extra == 0
              && a.named == NotFound && a.claim != ClaimLookupFailed && !a.ready && a.endWrite && Obeys(b))
  {
    hide Spares, Safe;
    PassIsSafe(target, w, a);
    PassSpares(target, Next(target, w, a), b);
  }

  /**
   An action was started a moment ago: then the replicas are lowered although no pod has been told to leave. The only way to
   such an idle rack is an upsize that ends within the delay after its start: other actions are not ended before.
   */
  lemma {:induction false} WaitingExactly(target: int, w: World, a: Answers)
    requires 0 <= target <= w.replicas && 0 <= w.extra && Idle(w.status) && Waiting(w.status.action, a.now) && Truthful(w, a)
    ensures Safe(target, w, a) <==>
            !(&& a.noDisruption && a.updateOk && target < w.replicas && !a.otherStop
              && a.last != Unschedulable(w.replicas - 1))
    ensures After(target, w, a).rack ==
            Rack(a.ready,
                 if a.noDisruption && !a.otherStop && target < w.replicas then Action(UpdateStatefulSetAction, Ongoing, Some(a.now)) else w.status.action,
                 a.otherOp)
  {
  }

  /** A rack of three nodes, its last node just gone from the ring, to be scaled down to one. */
  function Example(): World {
    World(3, 0, Rack(false, Action(ScaleDownAction, ToDo, None), PodOp(true, Ongoing, [2], [])), 0, {0, 1, 2})
  }

  function ExampleAnswers(lost: bool, pods: nat): Answers
    requires pods > 0
  {
    Answers(0, true, false, pods, Running(pods - 1), Present, Some(DECOMMISSIONED), false, Missing, true, !lost, !lost,
            PodOp(false, Done, [], []), false)
  }

  /**
   When the status of a pass that lowers the replicas is lost, the next pass lowers them again although the pod
   that goes is still in the ring.
   */
  lemma LostWriteIsUnsafe()
    ensures Inv(1, Example())
    ensures var a := ExampleAnswers(true, 3);
            && Truthful(Example(), a) && Settled(Example()) && ReadyWhenGone(Example(), a) && !Remembers(1, Example(), a)
    ensures var w, a := Next(1, Example(), ExampleAnswers(true, 3)), ExampleAnswers(true, 3);
            && Truthful(w, a) && Lowers(1, w, a) && !HasLeft(w.replicas - 1, w.status, a)
  {
  }

  /** A rack at its target, the pod that was scaled away gone, but its StatefulSet not ready. */
  function UnreadyExample(): World {
    World(1, 0, Rack(false, Action(ScaleDownAction, Ongoing, None), PodOp(true, Finalizing, [1], [])), 0, {0, 1})
  }

  function UnreadyAnswers(named: Named): Answers {
    Answers(0, true, false, 1, Running(0), named, Some(NORMAL), false, Missing, true, true, true, PodOp(false, Done, [], []), false)
  }

  /** When the StatefulSet is not ready at the moment the pod has disappeared, one more node is told to leave, below the target. */
  lemma UnreadyIsUnsafe()
    ensures Inv(1, UnreadyExample())
    ensures var a := UnreadyAnswers(NotFound); Truthful(UnreadyExample(), a) && !ReadyWhenGone(UnreadyExample(), a)
    ensures var w, a := Next(1, UnreadyExample(), UnreadyAnswers(NotFound)), UnreadyAnswers(Present);
            Truthful(w, a) && After(1, w, a).told == Some(0)
  {
  }

  /** A rack of three nodes of which the last cannot be scheduled, to be scaled down to one. */
  function PendingExample(): World {
    World(3, 0, Rack(false, Action(ScaleDownAction, ToDo, None), PodOp(true, ToDo, [], [])), 0, {0, 1, 2})
  }

  function PendingAnswers(): Answers {
    Answers(0, true, false, 3, Unschedulable(2), Present, None, false, Missing, true, true, true, PodOp(false, Done, [], []), false)
  }

  /** When such a pod is still there in the next pass, the replicas are lowered again although the pod that goes has not left. */
  lemma UnsettledIsUnsafe()
    ensures Inv(1, PendingExample()) && Sound(1, PendingExample(), PendingAnswers())
    ensures var w, a := Next(1, PendingExample(), PendingAnswers()), PendingAnswers();
            && Truthful(w, a) && !Settled(w) && Lowers(1, w, a) && !HasLeft(w.replicas - 1, w.status, a)
  {
  }
}
