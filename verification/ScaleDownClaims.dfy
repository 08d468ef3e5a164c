/** What a scale-down leaves of the data claims: those of the pods that stay, unless a claim is forgotten on the way. */
module ScaleDownClaims {
  import opened Options
  import opened RackActions
  import opened ScaleDown
  import opened ScaleDownRuns

  /** The pod that was last told to leave, or scaled away, is not done with yet. */
  ghost predicate Unfinished(w: World, c: nat) {
    && Scaling(w.status) && w.status.op.decommission && (w.status.op.status == Finalizing || w.status.op.status == Ongoing)
    && w.status.op.pods == [c]
  }

  /** Only pods that stay have claims, and perhaps the one that is not done with yet. */
  ghost predicate Tidy(w: World) {
    forall c :: c in w.claims ==> c < w.replicas || Unfinished(w, c)
  }

  /** The claim of a pod that is gone is found and deleted, or it is not there. */
  ghost predicate ClaimsAnswered(w: World, a: Answers) {
    (a.claim == Deleted || a.claim == Missing) && (a.claim == Missing && w.status.op.pods != [] ==> w.status.op.pods[0] !in w.claims)
  }

  /** A new decommission begins before the claim of a pod that was scaled away is deleted. */
  ghost predicate Forgets(target: int, w: World, a: Answers) {
    Begins(target, w, a) && exists c :: c in w.claims && c >= w.replicas && Unfinished(w, c)
  }

  /** What a pass in which every write succeeds leaves of replicas, claims and status. */
  lemma AfterCooperation(target: int, w: World, a: Answers)
    requires w.extra == 0 && Cooperates(target, w, a) && Judged(target, w, a)
    ensures Next(target, w, a).replicas == w.replicas - if LowersNow(target, w, a) then 1 else 0
    ensures Next(target, w, a).claims == if DeletesNow(target, w, a) then w.claims - {w.status.op.pods[0]} else w.claims
    ensures Next(target, w, a).status == After(target, w, a).rack
  {
    hide After;
  }

  lemma {:induction false} StaysTidy(target: int, w: World, a: Answers)
    requires Orderly(target, w) && w.extra == 0 && !Doomed(target, w) && Cooperates(target, w, a) && ClaimsAnswered(w, a)
    requires Tidy(w) && !Forgets(target, w, a)
    ensures Tidy(Settle(Next(target, w, a)))
  {
    hide Orderly, Doomed, Safe, Careless;
    CooperationIsCareful(target, w, a);
    PassIsSafe(target, w, a);
    if Due(target, w, a) {
      DueIsTidy(target, w, a);
    } else if Scaling(w.status) {
      OtherIsTidy(target, w, a);
    } else {
      RestIsTidy(target, w, a);
    }
  }

  lemma {:induction false} DueIsTidy(target: int, w: World, a: Answers)
    requires Orderly(target, w) && w.extra == 0 && !Doomed(target, w) && Cooperates(target, w, a) && Due(target, w, a)
    requires Judged(target, w, a) && Tidy(w) && !Forgets(target, w, a)
    ensures Tidy(Settle(Next(target, w, a)))
  {
    hide Safe, Careless, After, Next, Judged;
    AfterCooperation(target, w, a);
    DueInFull(target, w, a);
    forall c | c in w.claims
      ensures c < w.replicas
    {
      assert Unfinished(w, c) ==> Begins(target, w, a);
    }
  }

  lemma {:induction false} OtherIsTidy(target: int, w: World, a: Answers)
    requires Orderly(target, w) && w.extra == 0 && !Doomed(target, w) && Cooperates(target, w, a) && !Due(target, w, a) && Scaling(w.status)
    requires ClaimsAnswered(w, a) && Judged(target, w, a) && Tidy(w)
    ensures Tidy(Settle(Next(target, w, a)))
  {
    hide Safe, Careless, After, Next, Judged;
    AfterCooperation(target, w, a);
    if w.status.op.status == Ongoing {
      LeavingInFull(target, w, a);
    } else {
      PassInFull(target, w, a);
    }
  }

  lemma {:induction false} RestIsTidy(target: int, w: World, a: Answers)
    requires Orderly(target, w) && w.extra == 0 && !Due(target, w, a) && !Scaling(w.status) && Judged(target, w, a) && Tidy(w) && Cooperates(target, w, a)
    ensures Tidy(Settle(Next(target, w, a)))
  {
    hide Safe, Careless, After, Next, Judged;
    AfterCooperation(target, w, a);
    var r := NextIs(target, w, a);
  }

  /** A claim that nobody will delete any more: the pods to come have lower ordinals. */
  ghost predicate Forgotten(w: World, c: nat) {
    && c in w.claims && w.replicas <= c
    && (Scaling(w.status) ==> forall i :: 0 <= i < |w.status.op.pods| ==> w.status.op.pods[i] < c)
  }

  lemma RestRests(target: int, w: World, a: Answers)
    requires Orderly(target, w) && w.extra == 0 && Cooperates(target, w, a) && !Due(target, w, a) && !Scaling(w.status)
    ensures !Scaling(After(target, w, a).rack)
  {
  }

  lemma {:induction false} StaysForgotten(target: int, w: World, a: Answers, c: nat)
    requires Orderly(target, w) && w.extra == 0 && !Doomed(target, w) && Cooperates(target, w, a)
    requires Forgotten(w, c) || (Begins(target, w, a) && c in w.claims && c >= w.replicas)
    ensures Forgotten(Next(target, w, a), c)
  {
    hide Safe, Careless, After, Next, Judged;
    CooperationIsCareful(target, w, a);
    PassIsSafe(target, w, a);
    AfterCooperation(target, w, a);
    if Due(target, w, a) {
      DueInFull(target, w, a);
    } else if Scaling(w.status) && w.status.op.status == Ongoing {
      LeavingInFull(target, w, a);
    } else if Scaling(w.status) {
      PassInFull(target, w, a);
    } else {
      RestRests(target, w, a);
    }
  }

  /** Every claim that is asked for is answered, up to the end. */
  ghost predicate AnsweredRun(target: int, w: World, answers: seq<Answers>)
    decreases |answers|
  {
    || answers == [] || Finished(target, Settle(w))
    || (ClaimsAnswered(Settle(w), answers[0]) && AnsweredRun(target, Next(target, Settle(w), answers[0]), answers[1..]))
  }

  /** No claim is forgotten up to the end. */
  ghost predicate Mindful(target: int, w: World, answers: seq<Answers>)
    decreases |answers|
  {
    || answers == [] || Finished(target, Settle(w))
    || (!Forgets(target, Settle(w), answers[0]) && Mindful(target, Next(target, Settle(w), answers[0]), answers[1..]))
  }

  lemma {:induction false} ForgottenForEver(target: int, w: World, answers: seq<Answers>, c: nat)
    requires Orderly(target, w) && !Doomed(target, Settle(w)) && CooperativeRun(target, w, answers) && Forgotten(Settle(w), c)
    ensures Forgotten(Arrives(target, w, answers), c)
    decreases |answers|
  {
    hide Orderly, Cooperates, Next, Finished, Doomed, Rank;
    SettledIsOrderly(target, w);
    if answers != [] && !Finished(target, Settle(w)) {
      PassProgresses(target, Settle(w), answers[0]);
      StaysForgotten(target, Settle(w), answers[0], c);
      ForgottenForEver(target, Next(target, Settle(w), answers[0]), answers[1..], c);
    }
  }

  /**
   A scale-down that ends leaves claims only to the pods that stay, exactly if no decommission begins before the claim of
   the pod scaled away last is deleted.
   */
  lemma {:induction false} ClaimsExactly(target: int, w: World, answers: seq<Answers>)
    requires Orderly(target, w) && !Doomed(target, Settle(w)) && Tidy(Settle(w))
    requires CooperativeRun(target, w, answers) && AnsweredRun(target, w, answers) && |answers| >= Rank(target, w)
    ensures Finished(target, Arrives(target, w, answers))
    ensures (forall c :: c in Arrives(target, w, answers).claims ==> c < target) <==> Mindful(target, w, answers)
    decreases |answers|
  {
    hide Orderly, Cooperates, Next, Doomed, Rank, ClaimsAnswered, Forgets, Unfinished;
    ScaleDownEnds(target, w, answers);
    SettledIsOrderly(target, w);
    if answers == [] || Finished(target, Settle(w)) {
      NothingUnfinished(target, Settle(w));
    } else {
      var n := Next(target, Settle(w), answers[0]);
      PassProgresses(target, Settle(w), answers[0]);
      if Forgets(target, Settle(w), answers[0]) {
        var c := ForgottenClaim(target, Settle(w), answers[0]);
        StaysForgotten(target, Settle(w), answers[0], c);
        ForgottenForEver(target, n, answers[1..], c);
      } else {
        StaysTidy(target, Settle(w), answers[0]);
        ClaimsExactly(target, n, answers[1..]);
      }
    }
  }

  lemma NothingUnfinished(target: int, w: World)
    requires Finished(target, w) && Tidy(w)
    ensures forall c :: c in w.claims ==> c < target
  {
  }

  lemma ForgottenClaim(target: int, w: World, a: Answers) returns (c: nat)
    requires Forgets(target, w, a)
    ensures Begins(target, w, a) && c in w.claims && c >= w.replicas
  {
    c :| c in w.claims && c >= w.replicas && Unfinished(w, c);
  }

  /** A rack to be scaled down from three nodes to one whose last pod could not be scheduled and is gone: its claim is forgotten. */
  lemma ClaimIsForgotten()
    ensures var w := World(2, 0, Rack(false, Action(ScaleDownAction, Continue, None), PodOp(true, Finalizing, [2], [])), 0, {0, 1, 2});
            var a := ExampleAnswers(false, 2).(mode := Some(NORMAL), named := NotFound, ready := true);
            Orderly(1, w) && !Doomed(1, w) && Tidy(w) && Cooperates(1, w, a) && Forgets(1, w, a) && Forgotten(Next(1, w, a), 2)
  {
    var w := World(2, 0, Rack(false, Action(ScaleDownAction, Continue, None), PodOp(true, Finalizing, [2], [])), 0, {0, 1, 2});
    var a := ExampleAnswers(false, 2).(mode := Some(NORMAL), named := NotFound, ready := true);
    assert 2 in w.claims && Unfinished(w, 2);
    StaysForgotten(1, w, a, 2);
  }
}
