/**
 Scaling a rack down: one pass of the reconciler over the rack, as a function of the stored status and
 of what the cluster answers. Every pass starts from the status as stored and may store it anew.
 */
module ScaleDown {
  import opened Options
  import opened RackActions

  datatype Mode = NORMAL | LEAVING | DECOMMISSIONED | UNKNOWN | OtherMode

  datatype ActionName = ScaleDownAction | ScaleUpAction | UpdateStatefulSetAction | OtherAction

  datatype Action = Action(name: ActionName, status: Progress, start: Option<int>)

  /** The last operation on pods; pods are named by their ordinals. */
  datatype PodOp = PodOp(decommission: bool, status: Progress, pods: seq<nat>, podsOK: seq<nat>)

  /** The status of a rack. */
  datatype Rack = Rack(running: bool, action: Action, op: PodOp)

  /** The pod with the highest ordinal, as it is found. */
  datatype Last = NoPods | Unschedulable(ordinal: nat) | NotRunning(ordinal: nat) | Running(ordinal: nat)

  datatype Named = Present | NotFound | LookupFailed

  datatype Claim = Deleted | DeleteFailed | Missing | ClaimLookupFailed

  /** Everything the cluster answers during a pass. */
  datatype Answers = Answers(
    now: int,
    noDisruption: bool,
    ready: bool,
    statusReplicas: int,
    last: Last,
    named: Named,
    mode: Option<Mode>,
    overdue: bool,      // the decommission was asked for long enough ago
    claim: Claim,
    updateOk: bool,     // the StatefulSet could be written
    midWrite: bool,     // the status could be written in the middle of the pass
    endWrite: bool,     // the status could be written at the end of the pass
    otherOp: PodOp,     // what other operations on pods leave behind
    otherStop: bool)    // other operations on pods, or joining nodes, end the pass

  /** The operator still waits for the action to start. */
  predicate Waiting(action: Action, now: int) {
    JustStarted(action.start, now)
  }

  /** The rack is being scaled down. */
  predicate Scaling(r: Rack) {
    r.action.name == ScaleDownAction && (r.action.status == ToDo || r.action.status == Ongoing || r.action.status == Continue)
  }

  /** The scale-down has ended: no replica too many, and the stored operation is done. */
  predicate Ended(r: Rack, stored: PodOp, target: int, a: Answers) {
    && r.action.name == ScaleDownAction && (r.action.status == Ongoing || r.action.status == Continue)
    && target == a.statusReplicas && stored.decommission && stored.status == Done
  }

  /** A decommission is asked for. */
  function AskDecommission(r: Rack): Rack {
    Rack(false, Action(ScaleDownAction, ToDo, None), PodOp(true, ToDo, [], []))
  }

  /** The next status of the rack: an action that ended, or a change of the number of nodes. */
  function NextStatus(r: Rack, stored: PodOp, target: int, replicas: int, a: Answers): Rack {
    if Waiting(r.action, a.now) then r
    else if Ended(r, stored, target, a) then r.(action := r.action.(status := Done))
    else if a.noDisruption && r.action.status != Ongoing && r.action.status != ToDo && r.action.status != Finalizing
            && target != replicas then
      if target > replicas then r.(action := Action(ScaleUpAction, ToDo, None)) else AskDecommission(r)
    else r
  }

  /** What an operation on pods leaves: the status, whether the pass ends here, whether the status is written at once,
      the node told to leave, and the claim deleted. */
  datatype Verdict = Verdict(rack: Rack, stop: bool, write: bool, told: Option<nat>, claim: Option<nat>)

  function Stop(r: Rack): Verdict {
    Verdict(r, true, false, None, None)
  }

  function SetOp(r: Rack, status: Progress, pods: seq<nat>): Rack {
    r.(op := r.op.(status := status, pods := pods, podsOK := []))
  }

  /** A decommission still to do: the last pod is told to leave, unless it cannot even be scheduled. */
  function DecommissionToDo(r: Rack, a: Answers): Verdict {
    match a.last
    case NoPods => Stop(r)
    case Unschedulable(p) =>
      Verdict(SetOp(r, Finalizing, [p]).(action := r.action.(status := Continue)), false, false, None, None)
    case NotRunning(_) => Stop(r)
    case Running(p) =>
      if a.mode == None || a.mode == Some(DECOMMISSIONED) || a.mode == Some(UNKNOWN) || a.mode == Some(LEAVING) then Stop(r)
      else Verdict(SetOp(r, Ongoing, [p]), true, false, Some(p), None)
  }

  /** The pod is gone: its claim is deleted. */
  function DeleteClaim(r: Rack, a: Answers): Verdict
    requires r.op.pods != []
  {
    if a.claim == ClaimLookupFailed then Stop(r)
    else
      Verdict(r.(op := r.op.(status := if a.ready then Done else Continue, podsOK := r.op.pods, pods := [])), true, false, None,
              if a.claim == Deleted then Some(r.op.pods[0]) else None)
  }

  function DecommissionOngoing(r: Rack, a: Answers): Verdict {
    if r.op.pods == [] || a.named != Present || a.mode == None then Stop(r)
    else if a.mode == Some(NORMAL) then Stop(if a.overdue then r.(op := r.op.(status := ToDo)) else r)
    else if a.mode == Some(DECOMMISSIONED) || a.mode == Some(UNKNOWN) then
      Verdict(r.(op := r.op.(status := Finalizing)), false, true, None, None)
    else Stop(r)
  }

  function EnsureDecommission(r: Rack, a: Answers): Verdict {
    if !r.op.decommission then Verdict(r, false, false, None, None)
    else
      match r.op.status
      case ToDo => DecommissionToDo(r, a)
      case Continue => DecommissionToDo(r, a)
      case Finalizing =>
        if r.op.pods == [] || a.named != NotFound then Stop(r) else DeleteClaim(r, a)
      case Ongoing => DecommissionOngoing(r, a)
      case Done => if r.op.podsOK == [] then Stop(r) else Stop(r.(action := r.action.(status := Continue)))
      case Configuring => Verdict(r, false, false, None, None)
  }

  function PodOperation(r: Rack, a: Answers): Verdict {
    if Scaling(r) then EnsureDecommission(r, a) else Verdict(r.(op := a.otherOp), a.otherStop, false, None, None)
  }

  /** One replica at a time towards the target. */
  function Nearer(target: int, replicas: int): int {
    if target - replicas > 1 then replicas + 1 else if target - replicas < -1 then replicas - 1 else target
  }

  /** Writing the StatefulSet: the status and the replicas it leaves. */
  function WriteStatefulSet(r: Rack, target: int, replicas: int, a: Answers): (Rack, int) {
    if !a.noDisruption || Nearer(target, replicas) == replicas then (r, replicas)
    else
      var action :=
        if r.action.status == ToDo then r.action.(status := Ongoing, start := Some(a.now))
        else if r.action.status == Done then Action(UpdateStatefulSetAction, Ongoing, Some(a.now))
        else r.action;
      (r.(action := action), if a.updateOk then Nearer(target, replicas) else replicas)
  }

  /** What a pass leaves: the status in memory, the replicas, a status stored on the way, and what it did to pods and claims. */
  datatype Outcome = Outcome(rack: Rack, replicas: int, stored: Option<Rack>, told: Option<nat>, claim: Option<nat>)

  /** One pass over the rack. */
  function Pass(target: int, replicas: int, stored: Rack, a: Answers): Outcome {
    var r := NextStatus(stored.(running := a.ready), stored.op, target, replicas, a);
    var v := PodOperation(r, a);
    var onTheWay := if v.write && a.midWrite then Some(v.rack) else None;
    if v.stop then Outcome(v.rack, replicas, onTheWay, v.told, v.claim)
    else
      var (r', replicas') := WriteStatefulSet(v.rack, target, replicas, a);
      Outcome(r', replicas', onTheWay, v.told, v.claim)
  }
}
