/**
 Growing the data volumes of a rack: the StatefulSet is remembered in the rack status, deleted without its
 pods, created again with the new capacity, and then the claims are resized one after the other.
 */
module StorageUpsize {
  import opened Options

  const DATA := "data"

  /** A claim template; a missing request counts as capacity 0. */
  datatype ClaimTemplate = ClaimTemplate(name: string, request: Option<int>)

  /** A StatefulSet: the number of replicas, the pod template, the claim templates, and the capacity noted as last applied. */
  datatype StatefulSet = StatefulSet(replicas: int, template: int, claims: seq<ClaimTemplate>, applied: Option<int>)

  /** A claim: the capacity it requests and the capacity its filesystem has. */
  datatype Claim = Claim(request: int, filesystem: int)

  /** What the rack status says about the upsize. */
  datatype RackStatus = RackStatus(started: bool, snapshot: Option<StatefulSet>)

  /** The place of the data claim template, or None. */
  function DataIndex(ts: seq<ClaimTemplate>): (r: Option<nat>)
    ensures r.Some? ==> r.value < |ts| && ts[r.value].name == DATA && forall i :: 0 <= i < r.value ==> ts[i].name != DATA
    ensures r.None? ==> forall i :: 0 <= i < |ts| ==> ts[i].name != DATA
  {
    if ts == [] then None
    else if ts[0].name == DATA then Some(0)
    else
      match DataIndex(ts[1..])
      case None => None
      case Some(i) => Some(i + 1)
  }

  /** The capacity of the data claim template. */
  function Capacity(s: StatefulSet): int {
    match DataIndex(s.claims)
    case None => 0
    case Some(i) => if s.claims[i].request.Some? then s.claims[i].request.value else 0
  }

  /** The StatefulSet with another capacity of the data claim, and nothing else changed but the note of it. */
  function Resized(s: StatefulSet, capacity: int): StatefulSet {
    match DataIndex(s.claims)
    case None => s
    case Some(i) =>
      s.(claims := s.claims[i := s.claims[i].(request := Some(capacity))],
         applied := if s.applied.Some? then Some(capacity) else None)
  }

  lemma {:induction false} SameIndex(ts: seq<ClaimTemplate>, i: nat, request: Option<int>)
    requires i < |ts|
    ensures DataIndex(ts[i := ts[i].(request := request)]) == DataIndex(ts)
    decreases |ts|
  {
    if i > 0 {
      assert ts[i := ts[i].(request := request)][1..] == ts[1..][i - 1 := ts[i].(request := request)];
      SameIndex(ts[1..], i - 1, request);
    } else {
      assert ts[0 := ts[0].(request := request)][1..] == ts[1..];
    }
  }

  /** Resizing sets the capacity and keeps replicas, template and all other claims; twice is once. */
  lemma ResizedHasCapacity(s: StatefulSet, capacity: int)
    requires DataIndex(s.claims).Some?
    ensures var r := Resized(s, capacity);
            && Capacity(r) == capacity && r.replicas == s.replicas && r.template == s.template
            && |r.claims| == |s.claims| && DataIndex(r.claims) == DataIndex(s.claims) && Resized(r, capacity) == r
            && forall i :: 0 <= i < |s.claims| && i != DataIndex(s.claims).value ==> r.claims[i] == s.claims[i]
  {
    SameIndex(s.claims, DataIndex(s.claims).value, Some(capacity));
  }

  /** What the cluster answers during a pass. */
  datatype Answers = Answers(
    readFailed: bool,        // the StatefulSet could not be read, for another reason than its absence
    looks: bool,             // changes are looked for: no disruption, no delay, no other action under way
    stopped: bool,           // operations on pods end the pass
    deleteOk: bool,
    createOk: bool,
    listOk: bool,
    updateOk: seq<bool>,     // which claim updates succeed
    stsReady: bool,
    pods: Option<seq<bool>>, // the pods, ready or not
    other: StatefulSet,      // what the cluster description asks for meanwhile
    endWrite: bool)          // the status could be stored

  /** What a pass leaves: the status in memory, the StatefulSet, the claims. */
  datatype State = State(status: RackStatus, sts: Option<StatefulSet>, claims: seq<Claim>)

  /** One claim asks for the new capacity, if its update succeeds. */
  function ResizeClaim(c: Claim, capacity: int, ok: bool): Claim {
    if c.request != capacity && ok then c.(request := capacity) else c
  }

  function Ok(oks: seq<bool>, i: nat): bool {
    i < |oks| && oks[i]
  }

  /** All claims after one round of updates. */
  function ResizeClaims(cs: seq<Claim>, capacity: int, oks: seq<bool>): (r: seq<Claim>)
    ensures |r| == |cs| && forall i :: 0 <= i < |cs| ==> r[i] == ResizeClaim(cs[i], capacity, Ok(oks, i))
  {
    seq(|cs|, i requires 0 <= i < |cs| => ResizeClaim(cs[i], capacity, Ok(oks, i)))
  }

  predicate Requested(cs: seq<Claim>, capacity: int) {
    forall i :: 0 <= i < |cs| ==> cs[i].request == capacity
  }

  predicate Grown(cs: seq<Claim>, capacity: int) {
    forall i :: 0 <= i < |cs| ==> cs[i].filesystem == capacity
  }

  /** All pods the StatefulSet asks for are there and ready. */
  predicate AllReady(s: StatefulSet, a: Answers) {
    a.stsReady && a.pods.Some? && |a.pods.value| == s.replicas && forall i :: 0 <= i < |a.pods.value| ==> a.pods.value[i]
  }

  /**
   The steps of the upsize, up to the first that fails or has something to do. `capacity` is what the
   datacenter asks for, `global` what the cluster asks for.
   */
  function Steps(capacity: int, global: int, s: State, a: Answers): State {
    if s.status.snapshot.None? then
      if s.sts.None? then s else s.(status := s.status.(snapshot := s.sts))
    else if s.sts.Some? && Capacity(s.sts.value) != global then
      if a.deleteOk then s.(sts := None) else s
    else if s.sts.None? then
      if DataIndex(s.status.snapshot.value.claims).Some? && a.createOk
      then s.(sts := Some(Resized(s.status.snapshot.value, capacity))) else s
    else if !a.listOk || |s.claims| != s.sts.value.replicas then s
    else if !Requested(s.claims, capacity) then s.(claims := ResizeClaims(s.claims, capacity, a.updateOk))
    else if !Grown(s.claims, capacity) then s
    else if AllReady(s.sts.value, a) then s.(status := RackStatus(false, None))
    else s
  }

  /** One pass over the rack. Other changes are made only while no upsize is under way, and never to the capacity. */
  function RackPass(capacity: int, global: int, s: State, a: Answers): State {
    if a.readFailed then
      if s.status.started then s else Other(s, a)
    else if s.sts.None? then
      if s.status.started then Steps(capacity, global, s, a) else Other(s, a)
    else
      var begun := if !s.status.started && a.looks && Capacity(s.sts.value) != capacity then s.(status := s.status.(started := true)) else s;
      if a.stopped then begun
      else if begun.status.started then Steps(capacity, global, begun, a)
      else Other(begun, a)
  }

  /** What passes without an upsize do to the StatefulSet: replicas and template follow the cluster description. */
  function Other(s: State, a: Answers): State {
    match s.sts
    case None => s.(sts := Some(a.other))
    case Some(x) => s.(sts := Some(x.(replicas := a.other.replicas, template := a.other.template)))
  }

  /** An upsize is looked at in this pass. */
  predicate Works(s: State, a: Answers) {
    s.status.started && !a.readFailed && !(s.sts.Some? && a.stopped)
  }

  /** It has come to its claims. */
  predicate ReachesClaims(global: int, s: State, a: Answers) {
    && Works(s, a) && s.status.snapshot.Some? && s.sts.Some? && Capacity(s.sts.value) == global
    && a.listOk && |s.claims| == s.sts.value.replicas
  }

  /**
   When a pass begins an upsize, and what else it then does: it remembers the StatefulSet, unless operations on pods end it
   before. Otherwise replicas and template follow the cluster description, and the capacity stays.
   */
  lemma BeginsExactly(capacity: int, global: int, s: State, a: Answers)
    requires !s.status.started && s.status.snapshot.None?
    ensures var n := RackPass(capacity, global, s, a);
            && (n.status.started <==> !a.readFailed && a.looks && s.sts.Some? && Capacity(s.sts.value) != capacity)
            && (n.status.started ==> n.sts == s.sts && n.claims == s.claims && n.status.snapshot == if a.stopped then None else s.sts)
            && (s.sts.Some? && a.stopped && !a.readFailed ==> n == s.(status := s.status.(started := n.status.started)))
            && (!n.status.started && !(s.sts.Some? && a.stopped && !a.readFailed) ==>
                  n == s.(sts := Some(if s.sts.None? then a.other else s.sts.value.(replicas := a.other.replicas, template := a.other.template))))
  {
  }

  /** What a pass does to an upsize under way, effect by effect. */
  lemma PassExactly(capacity: int, global: int, s: State, a: Answers)
    requires s.status.started
    ensures var n := RackPass(capacity, global, s, a);
            && (!Works(s, a) ==> n == s)
            && (s.sts.Some? && n.sts.None? <==> Works(s, a) && s.status.snapshot.Some? && s.sts.Some? && Capacity(s.sts.value) != global && a.deleteOk)
            && (s.sts.None? && n.sts.Some? <==>
                  Works(s, a) && s.sts.None? && s.status.snapshot.Some? && DataIndex(s.status.snapshot.value.claims).Some? && a.createOk)
            && (s.sts.None? && n.sts.Some? ==> n.sts == Some(Resized(s.status.snapshot.value, capacity)))
            && (s.sts.Some? && n.sts.Some? ==> n.sts == s.sts)
            && n.claims == (if ReachesClaims(global, s, a) then ResizeClaims(s.claims, capacity, a.updateOk) else s.claims)
            && (!n.status.started <==>
                  && ReachesClaims(global, s, a) && Requested(s.claims, capacity) && Grown(s.claims, capacity) && a.stsReady
                  && a.pods.Some? && |a.pods.value| == s.sts.value.replicas && forall i :: 0 <= i < |a.pods.value| ==> a.pods.value[i])
            && n.status.snapshot == (if !n.status.started then None else if Works(s, a) && s.status.snapshot.None? then s.sts else s.status.snapshot)
  {
    if Requested(s.claims, capacity) {
      assert ResizeClaims(s.claims, capacity, a.updateOk) == s.claims;
    }
  }

  /** The StatefulSet is there, or it can be made again from what is remembered. */
  ghost predicate Recoverable(s: State) {
    && (s.sts.Some? ==> DataIndex(s.sts.value.claims).Some?)
    && (s.sts.None? ==> s.status.started && s.status.snapshot.Some?)
    && (s.status.snapshot.Some? ==> DataIndex(s.status.snapshot.value.claims).Some?)
  }

  lemma PassRecovers(capacity: int, global: int, s: State, a: Answers)
    ensures Recoverable(s) ==> Recoverable(RackPass(capacity, global, s, a))
  {
    if s.status.snapshot.Some? && DataIndex(s.status.snapshot.value.claims).Some? {
      ResizedHasCapacity(s.status.snapshot.value, capacity);
    }
  }

  lemma PassRemembers(capacity: int, global: int, s: State, a: Answers)
    ensures var n := RackPass(capacity, global, s, a);
            && (s.sts.Some? && n.sts.None? ==>
                  n.status.started && s.status.snapshot == n.status.snapshot && n.status.snapshot.Some? && Capacity(s.sts.value) != global)
            && (s.status.started && s.status.snapshot.Some? ==>
                  n.sts == s.sts || n.sts.None? || (s.sts.None? && n.sts == Some(Resized(s.status.snapshot.value, capacity))))
  {
  }

  lemma PassEnds(capacity: int, global: int, s: State, a: Answers)
    ensures var n := RackPass(capacity, global, s, a);
            s.status.started && !n.status.started ==>
              && n.sts == s.sts && n.sts.Some? && Capacity(n.sts.value) == global
              && Requested(n.claims, capacity) && Grown(n.claims, capacity) && AllReady(n.sts.value, a) && a.stsReady
  {
  }

  /** How a step ends. */
  datatype StepResult = Error | Break | Pass

  /** The reconciler at work on the upsize of one rack. */
  class Upsizer {
    const capacity: int
    const global: int
    var started: bool
    var snapshot: Option<StatefulSet>
    var sts: Option<StatefulSet>
    var claims: seq<Claim>

    constructor (capacity: int, global: int, s: State)
      ensures this.capacity == capacity && this.global == global && Now() == s
    {
      this.capacity, this.global := capacity, global;
      started, snapshot, sts, claims := s.status.started, s.status.snapshot, s.sts, s.claims;
    }

    function Now(): State
      reads this
    {
      State(RackStatus(started, snapshot), sts, claims)
    }

    /** Remembers the StatefulSet. */
    method MakeOldStatefulSetSnapshot() returns (r: StepResult)
      modifies this`snapshot
      ensures old(snapshot).Some? ==> r == StepResult.Pass && Now() == old(Now())
      ensures old(snapshot).None? ==> r != StepResult.Pass && snapshot == sts
    {
      if snapshot.Some? {
        return StepResult.Pass;
      }
      if sts.None? {
        return Error;
      }
      snapshot := sts;
      return Break;
    }

    /** Deletes a StatefulSet of another capacity, and leaves its pods alone. */
    method RemoveStatefulSetOrphan(a: Answers) returns (r: StepResult)
      modifies this`sts
      ensures old(sts).None? || Capacity(old(sts).value) == global ==> r == StepResult.Pass && sts == old(sts)
      ensures old(sts).Some? && Capacity(old(sts).value) != global ==>
                r != StepResult.Pass && sts == if a.deleteOk then None else old(sts)
    {
      if sts.None? || Capacity(sts.value) == global {
        return StepResult.Pass;
      }
      if !a.deleteOk {
        return Error;
      }
      sts := None;
      return Break;
    }

    /** Creates the remembered StatefulSet with the new capacity. */
    method RecreateStatefulSet(a: Answers) returns (r: StepResult)
      requires snapshot.Some?
      modifies this`sts
      ensures old(sts).Some? ==> r == StepResult.Pass && sts == old(sts)
      ensures old(sts).None? ==>
                && r != StepResult.Pass
                && sts == if DataIndex(snapshot.value.claims).Some? && a.createOk then Some(Resized(snapshot.value, capacity)) else None
    {
      if sts.Some? {
        return StepResult.Pass;
      }
      var made := snapshot.value;
      match DataIndex(made.claims)
      case None =>
        return Error;
      case Some(i) =>
        made := made.(claims := made.claims[i := made.claims[i].(request := Some(capacity))]);
        if made.applied.Some? {
          made := made.(applied := Some(capacity));
        }
        if !a.createOk {
          return Error;
        }
        sts := Some(made);
        return Break;
    }

    /** Asks for the new capacity of every claim that has not got it yet; goes on after a failed update. */
    method EnsureAllClaims(a: Answers) returns (r: StepResult)
      modifies this`claims
      ensures old(Requested(claims, capacity)) ==> r == StepResult.Pass && claims == old(claims)
      ensures !old(Requested(claims, capacity)) ==> r != StepResult.Pass && claims == ResizeClaims(old(claims), capacity, a.updateOk)
    {
      var changed, failed := false, false;
      var i := 0;
      while i < |claims|
        invariant 0 <= i <= |claims| == |old(claims)|
        invariant forall k :: 0 <= k < i ==> claims[k] == ResizeClaim(old(claims)[k], capacity, Ok(a.updateOk, k))
        invariant forall k :: i <= k < |claims| ==> claims[k] == old(claims)[k]
        invariant changed <==> exists k :: 0 <= k < i && old(claims)[k].request != capacity
        invariant failed ==> changed
      {
        if claims[i].request != capacity {
          changed := true;
          if Ok(a.updateOk, i) {
            claims := claims[i := claims[i].(request := capacity)];
          } else {
            failed := true;
          }
        }
        i := i + 1;
      }
      if failed {
        return Error;
      }
      if changed {
        return Break;
      }
      assert claims == old(claims);
      return StepResult.Pass;
    }

    /** Waits until every filesystem has the new capacity. */
    method WaitForFilesystems() returns (r: StepResult)
      ensures r == if Grown(claims, capacity) then StepResult.Pass else Break
    {
      var behind: seq<nat> := [];
      var i := 0;
      while i < |claims|
        invariant 0 <= i <= |claims|
        invariant behind == [] <==> forall k :: 0 <= k < i ==> claims[k].filesystem == capacity
      {
        if claims[i].filesystem != capacity {
          behind := behind + [i];
        }
        i := i + 1;
      }
      r := if behind == [] then StepResult.Pass else Break;
    }

    /** Ends the upsize once the StatefulSet has the new capacity and all its pods are ready. */
    method WaitForPods(a: Answers) returns (r: StepResult)
      requires sts.Some? && Capacity(sts.value) == global
      modifies this`started, this`snapshot
      ensures AllReady(sts.value, a) ==> !started && snapshot == None
      ensures !AllReady(sts.value, a) ==> started == old(started) && snapshot == old(snapshot)
    {
      if !a.stsReady {
        return Break;
      }
      if a.pods.None? || |a.pods.value| != sts.value.replicas {
        return Error;
      }
      var i := 0;
      while i < |a.pods.value|
        invariant 0 <= i <= |a.pods.value| && forall k :: 0 <= k < i ==> a.pods.value[k]
      {
        if !a.pods.value[i] {
          return Break;
        }
        i := i + 1;
      }
      started := false;
      snapshot := None;
      return StepResult.Pass;
    }

    /** Goes through the steps, up to the first that fails or breaks. */
    method Reconcile(a: Answers)
      modifies this
      ensures Now() == Steps(capacity, global, old(Now()), a)
    {
      var r := MakeOldStatefulSetSnapshot();
      if r != StepResult.Pass {
        return;
      }
      r := RemoveStatefulSetOrphan(a);
      if r != StepResult.Pass {
        return;
      }
      r := RecreateStatefulSet(a);
      if r != StepResult.Pass {
        return;
      }
      if !a.listOk || |claims| != sts.value.replicas {
        return;
      }
      r := EnsureAllClaims(a);
      if r != StepResult.Pass {
        return;
      }
      r := WaitForFilesystems();
      if r != StepResult.Pass {
        return;
      }
      r := WaitForPods(a);
    }

    /**
     One pass over the rack. It never loses the StatefulSet, deletes it only after it was remembered and while the cluster
     asks for another capacity, makes it again as it was remembered, resized, and ends the upsize only when all is grown.
     */
    method ReconcileRack(a: Answers)
      modifies this
      ensures Now() == RackPass(capacity, global, old(Now()), a)
      ensures old(Recoverable(Now())) ==> Recoverable(Now())
      ensures old(sts).Some? && sts.None? ==> started && old(snapshot) == snapshot && snapshot.Some? && Capacity(old(sts).value) != global
      ensures old(started) && old(snapshot).Some? ==>
                sts == old(sts) || sts.None? || (old(sts).None? && sts == Some(Resized(old(snapshot).value, capacity)))
      ensures old(started) && !started ==>
                && sts == old(sts) && sts.Some? && Capacity(sts.value) == global
                && Requested(claims, capacity) && Grown(claims, capacity) && AllReady(sts.value, a) && a.stsReady
      ensures !old(started) && old(snapshot).None? ==>
                (started <==> !a.readFailed && a.looks && old(sts).Some? && Capacity(old(sts).value) != capacity)
      ensures old(sts).Some? && a.stopped && !a.readFailed ==> Now() == old(Now()).(status := RackStatus(started, old(snapshot)))
    {
      if !a.readFailed && sts.Some? && !started && a.looks && Capacity(sts.value) != capacity {
        started := true;
      }
      if !a.readFailed && sts.Some? && a.stopped {
        // operations on pods end the pass here
      } else if started {
        if !a.readFailed {
          Reconcile(a);
        }
      } else if sts.None? {
        sts := Some(a.other);
      } else {
        sts := Some(sts.value.(replicas := a.other.replicas, template := a.other.template));
      }
      assert Now() == RackPass(capacity, global, old(Now()), a);
      if !old(started) && old(snapshot).None? {
        BeginsExactly(capacity, global, old(Now()), a);
      }
      hide RackPass, Recoverable, AllReady;
      PassRecovers(capacity, global, old(Now()), a);
      PassRemembers(capacity, global, old(Now()), a);
      PassEnds(capacity, global, old(Now()), a);
    }
  }
}
