/** The reconciler at work on the scale-down of a rack. */
module ScaleDownReconciler {
  import opened Options
  import opened RackActions
  import opened ScaleDown
  import opened ScaleDownRuns

  /** The reconciler at work on one rack: the status in memory, and what it writes to the cluster. */
  class RackReconciler {
    const target: int
    const stored: Rack
    var running: bool
    var action: Action
    var op: PodOp
    var replicas: int
    var onTheWay: Option<Rack>
    var told: Option<nat>
    var claim: Option<nat>

    constructor (target: int, replicas: int, stored: Rack)
      ensures this.target == target && this.stored == stored && this.replicas == replicas && Status() == stored
      ensures onTheWay == None && told == None && claim == None
    {
      this.target, this.stored, this.replicas := target, stored, replicas;
      running, action, op := stored.running, stored.action, stored.op;
      onTheWay, told, claim := None, None, None;
    }

    function Status(): Rack
      reads this
    {
      Rack(running, action, op)
    }

    /** Asks for a decommission. */
    method SetDecommissionStatus()
      modifies this`running, this`action, this`op
      ensures Status() == AskDecommission(old(Status()))
    {
      running := false;
      action := Action(ScaleDownAction, ToDo, None);
      op := PodOp(true, ToDo, [], []);
    }

    /** Looks for an action that ended, or else for a change of the number of nodes. */
    method GetNextStatus(a: Answers)
      modifies this`running, this`action, this`op
      ensures Status() == NextStatus(old(Status()), stored.op, target, replicas, a)
    {
      if Waiting(action, a.now) {
        return;
      }
      if Ended(Status(), stored.op, target, a) {
        action := action.(status := Done);
        return;
      }
      if a.noDisruption && action.status != Ongoing && action.status != ToDo && action.status != Finalizing {
        if target != replicas {
          if target > replicas {
            action := Action(ScaleUpAction, ToDo, None);
          } else {
            SetDecommissionStatus();
          }
        }
      }
    }

    /** Tells the last pod to leave the ring, unless it cannot be scheduled anyway. Says whether the pass ends here. */
    method EnsureDecommissionToDo(a: Answers) returns (stop: bool)
      modifies this`action, this`op, this`told
      ensures Status() == DecommissionToDo(old(Status()), a).rack && stop == DecommissionToDo(old(Status()), a).stop
      ensures told == (if DecommissionToDo(old(Status()), a).told.Some? then DecommissionToDo(old(Status()), a).told else old(told))
    {
      if a.last.NoPods? {
        return true;
      }
      if a.last.Unschedulable? {
        op := op.(status := Finalizing, podsOK := [], pods := [a.last.ordinal]);
        action := action.(status := Continue);
        return false;
      }
      if !a.last.Running? || a.mode == None {
        return true;
      }
      if a.mode == Some(DECOMMISSIONED) || a.mode == Some(UNKNOWN) || a.mode == Some(LEAVING) {
        return true;
      }
      op := op.(status := Ongoing, pods := [a.last.ordinal], podsOK := []);
      told := Some(a.last.ordinal);
      return true;
    }

    /** Deletes the claim of the pod that is gone. */
    method DeletePodClaim(a: Answers) returns (stop: bool)
      requires op.pods != []
      modifies this`op, this`claim
      ensures Status() == DeleteClaim(old(Status()), a).rack && stop
      ensures claim == (if DeleteClaim(old(Status()), a).claim.Some? then DeleteClaim(old(Status()), a).claim else old(claim))
    {
      if a.claim == Deleted {
        claim := Some(op.pods[0]);
      } else if a.claim == ClaimLookupFailed {
        return true;
      }
      if a.ready {
        op := op.(status := Done);
      } else {
        op := op.(status := Continue);
      }
      op := op.(podsOK := op.pods);
      op := op.(pods := []);
      return true;
    }

    /** The rack and what was written on the way. */
    ghost predicate Shows(v: Verdict, a: Answers, was: Option<Rack>)
      reads this
    {
      Status() == v.rack && onTheWay == (if v.write && a.midWrite then Some(v.rack) else was) && told == v.told && claim == v.claim
    }

    /** Goes on with the decommission of the last pod. */
    method Decommission(a: Answers) returns (stop: bool)
      requires told == None && claim == None
      modifies this`action, this`op, this`told, this`claim, this`onTheWay
      ensures Shows(EnsureDecommission(old(Status()), a), a, old(onTheWay)) && stop == EnsureDecommission(old(Status()), a).stop
    {
      if !op.decommission {
        return false;
      }
      match op.status
      case ToDo =>
        stop := EnsureDecommissionToDo(a);
      case Continue =>
        stop := EnsureDecommissionToDo(a);
      case Finalizing =>
        if op.pods == [] || a.named != NotFound {
          return true;
        }
        stop := DeletePodClaim(a);
      case Ongoing =>
        if op.pods == [] || a.named != Present || a.mode == None {
          return true;
        }
        if a.mode == Some(NORMAL) {
          if a.overdue {
            op := op.(status := ToDo);
          }
          return true;
        }
        if a.mode == Some(DECOMMISSIONED) || a.mode == Some(UNKNOWN) {
          op := op.(status := Finalizing);
          if a.midWrite {
            onTheWay := Some(Status());
          }
          return false;
        }
        return true;
      case Done =>
        if op.podsOK != [] {
          action := action.(status := Continue);
        }
        return true;
      case Configuring =>
        return false;
    }

    /** Writes the StatefulSet, one replica nearer to the target. */
    method CreateOrUpdateStatefulSet(a: Answers)
      modifies this`action, this`replicas
      ensures (Status(), replicas) == WriteStatefulSet(old(Status()), target, old(replicas), a)
    {
      if !a.noDisruption {
        return;
      }
      var wanted := target;
      var diff := wanted - replicas;
      if diff > 1 || diff < -1 {
        var increment := 1;
        if diff < 0 {
          increment := -1;
        }
        wanted := replicas + increment;
      }
      if wanted == replicas {
        return;
      }
      if action.status == ToDo {
        action := action.(status := Ongoing, start := Some(a.now));
      } else if action.status == Done {
        action := Action(UpdateStatefulSetAction, Ongoing, Some(a.now));
      }
      if a.updateOk {
        replicas := wanted;
      }
    }

    /**
     One pass over the rack of a cluster in the state w. Unless it is careless, the fields afterwards say: at most one
     replica less, not below the target, and only when the pod that goes has left; only the last pod told to leave; only
     the claim of a pod that is gone deleted, each exactly under its guards; and what is stored is in order for the next pass.
     */
    method ReconcileRack(a: Answers, ghost w: World)
      requires Status() == stored && onTheWay == None && told == None && claim == None
      modifies this
      ensures Outcome(Status(), replicas, onTheWay, told, claim) == Pass(target, old(replicas), stored, a)
      ensures w.status == stored && w.replicas == old(replicas) && Orderly(target, w) && Truthful(w, a) && !Careless(target, w, a) ==>
                && (replicas == old(replicas) || (replicas == old(replicas) - 1 >= target && HasLeft(replicas, stored, a)))
                && (told.Some? <==> TellsNow(target, w, a)) && (told.Some? ==> told.value == old(replicas) - 1)
                && (replicas < old(replicas) <==> LowersNow(target, w, a))
                && claim == (if DeletesNow(target, w, a) then Some(stored.op.pods[0]) else None)
                && (claim.Some? ==> old(replicas) + w.extra <= claim.value && target <= claim.value)
                && Orderly(target, w.(replicas := replicas, extra := w.extra + old(replicas) - replicas, clock := a.now,
                                      status := StoredAfter(w, Outcome(Status(), replicas, onTheWay, told, claim), a)))
    {
      hide NextStatus, EnsureDecommission, WriteStatefulSet, Orderly, Truthful, Careless, HasLeft, StoredAfter;
      running := a.ready;
      GetNextStatus(a);
      var stop := false;
      if Scaling(Status()) {
        stop := Decommission(a);
      } else {
        op := a.otherOp;
        stop := a.otherStop;
      }
      if !stop {
        CreateOrUpdateStatefulSet(a);
      }
      ghost var o := Outcome(Status(), replicas, onTheWay, told, claim);
      assert o == Pass(target, old(replicas), stored, a);
      hide Pass;
      if w.status == stored && w.replicas == old(replicas) && Orderly(target, w) && Truthful(w, a) && !Careless(target, w, a) {
        PassOnFields(target, w, a, o);
      }
    }
  }

  /** What a pass that is not careless leaves. */
  lemma PassOnFields(target: int, w: World, a: Answers, o: Outcome)
    requires o == Pass(target, w.replicas, w.status, a) && Orderly(target, w) && Truthful(w, a) && !Careless(target, w, a)
    ensures o.replicas == w.replicas || (o.replicas == w.replicas - 1 >= target && HasLeft(o.replicas, w.status, a))
    ensures (o.told.Some? <==> TellsNow(target, w, a)) && (o.told.Some? ==> o.told.value == w.replicas - 1)
    ensures (o.replicas < w.replicas <==> LowersNow(target, w, a))
    ensures o.claim == if DeletesNow(target, w, a) then Some(w.status.op.pods[0]) else None
    ensures o.claim.Some? ==> w.replicas + w.extra <= o.claim.value && target <= o.claim.value
    ensures Orderly(target, w.(replicas := o.replicas, extra := w.extra + w.replicas - o.replicas, clock := a.now, status := StoredAfter(w, o, a)))
  {
    hide Pass, Truthful, Careless, HasLeft;
    PassIsSafe(target, w, a);
    ClaimsDoNotMatter(target, w, a, o);
  }

  lemma ClaimsDoNotMatter(target: int, w: World, a: Answers, o: Outcome)
    requires o == After(target, w, a) && (o.replicas == w.replicas || o.replicas == w.replicas - 1) && Orderly(target, Next(target, w, a))
    ensures Orderly(target, w.(replicas := o.replicas, extra := w.extra + w.replicas - o.replicas, clock := a.now, status := StoredAfter(w, o, a)))
  {
    hide Pass;
  }
}
