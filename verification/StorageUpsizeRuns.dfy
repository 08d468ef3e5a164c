/**
 Runs of a storage upsize: passes of the reconciler with whatever calls fail and whatever status writes are
 lost, and filesystems that grow in between. The capacity asked for is fixed.
 */
module StorageUpsizeRuns {
  import opened Options
  import opened StorageUpsize

  /**
   `now` holds the stored status, the StatefulSet and the claims. `deletes` and `creates` count what
   happened to the StatefulSet; `began` is the StatefulSet when the upsize under way was first stored.
   */
  datatype World = World(now: State, deletes: nat, creates: nat, began: StatefulSet)

  datatype Event = PassOver(a: Answers) | FilesystemsChange(sizes: seq<int>)

  function AfterPass(capacity: int, global: int, w: World, a: Answers): World {
    var s := RackPass(capacity, global, w.now, a);
    var status := if a.endWrite then s.status else w.now.status;
    World(s.(status := status),
          if w.now.sts.Some? && s.sts.None? then w.deletes + 1 else w.deletes,
          if w.now.sts.None? && s.sts.Some? then w.creates + 1 else w.creates,
          if !w.now.status.started && status.started && w.now.sts.Some? then w.now.sts.value else w.began)
  }

  /** Filesystems change their sizes; what the claims request stays. */
  function Regrown(cs: seq<Claim>, sizes: seq<int>): (r: seq<Claim>)
    ensures |r| == |cs| && forall i :: 0 <= i < |cs| ==> r[i].request == cs[i].request
  {
    seq(|cs|, i requires 0 <= i < |cs| => if i < |sizes| then cs[i].(filesystem := sizes[i]) else cs[i])
  }

  function Happens(capacity: int, global: int, w: World, e: Event): World {
    match e
    case PassOver(a) => AfterPass(capacity, global, w, a)
    case FilesystemsChange(sizes) => w.(now := w.now.(claims := Regrown(w.now.claims, sizes)))
  }

  /** The StatefulSet is there, or can be made again from what is stored. */
  ghost predicate Recreatable(w: World) {
    w.now.sts.None? ==> w.now.status.started && w.now.status.snapshot.Some?
                        && DataIndex(w.now.status.snapshot.value.claims).Some? && w.now.status.snapshot == Some(w.began)
  }

  /** While an upsize is under way the StatefulSet is the one it began with, absent, or that one resized. */
  ghost predicate Untouched(capacity: int, w: World) {
    w.now.status.started ==>
      && DataIndex(w.began.claims).Some? && Capacity(w.began) != capacity
      && (w.now.status.snapshot.None? ==> w.now.sts == Some(w.began))
      && (w.now.status.snapshot.Some? ==>
            && w.now.status.snapshot == Some(w.began)
            && (w.now.sts.None? || w.now.sts == Some(w.began) || w.now.sts == Some(Resized(w.began, capacity))))
  }

  /** What holds in every state, under any failures and any capacities. */
  ghost predicate Inv(capacity: int, w: World) {
    && Recreatable(w) && Untouched(capacity, w)
    && (!w.now.status.started ==> w.now.status.snapshot.None?)
    && (w.now.sts.Some? ==> DataIndex(w.now.sts.value.claims).Some?)
  }

  lemma StepsKeepInv(capacity: int, global: int, w: World, a: Answers)
    requires Inv(capacity, w)
    ensures Inv(capacity, AfterPass(capacity, global, w, a))
  {
    if w.now.status.snapshot.Some? {
      ResizedHasCapacity(w.now.status.snapshot.value, capacity);
    }
  }

  ghost predicate Always(capacity: int, global: int, w: World, run: seq<Event>)
    decreases |run|
  {
    Inv(capacity, w) && (run == [] || Always(capacity, global, Happens(capacity, global, w, run[0]), run[1..]))
  }

  /**
   Under any interleaving of failed calls, lost status writes and other requests: whenever the StatefulSet is absent
   the stored status holds the means to make it again, and it never becomes anything but itself or itself resized.
   */
  lemma {:induction false} AlwaysRecreatable(capacity: int, global: int, w: World, run: seq<Event>)
    requires Inv(capacity, w)
    ensures Always(capacity, global, w, run)
    decreases |run|
  {
    hide Inv, AfterPass;
    if run != [] {
      if run[0].PassOver? {
        StepsKeepInv(capacity, global, w, run[0].a);
      } else {
        GrowthKeepsInv(capacity, w, run[0].sizes);
      }
      AlwaysRecreatable(capacity, global, Happens(capacity, global, w, run[0]), run[1..]);
    }
  }

  lemma GrowthKeepsInv(capacity: int, w: World, sizes: seq<int>)
    requires Inv(capacity, w)
    ensures Inv(capacity, w.(now := w.now.(claims := Regrown(w.now.claims, sizes))))
  {
  }

  /** The pass ends the upsize. */
  predicate Ends(capacity: int, global: int, w: World, a: Answers) {
    w.now.status.started && !RackPass(capacity, global, w.now, a).status.started
  }

  /**
   An upsize ends only with every claim and every filesystem at the new capacity and all pods there and ready. The
   StatefulSet is then the one it began with: resized, if datacenter and cluster ask for the same capacity, else not.
   */
  lemma EndsResized(capacity: int, global: int, w: World, a: Answers)
    requires Inv(capacity, w) && Ends(capacity, global, w, a)
    ensures w.now.sts == Some(if capacity == global then Resized(w.began, capacity) else w.began)
    ensures Capacity(w.now.sts.value) == global
    ensures w.now.sts.value.replicas == w.began.replicas && w.now.sts.value.template == w.began.template
    ensures Requested(w.now.claims, capacity) && Grown(w.now.claims, capacity) && AllReady(w.now.sts.value, a)
  {
    ResizedHasCapacity(w.began, capacity);
  }

  /** An upsize that ends without the new capacity starts again as soon as changes are looked for. */
  lemma StartsAgain(capacity: int, global: int, w: World, a: Answers, b: Answers)
    requires Inv(capacity, w) && Ends(capacity, global, w, a) && a.endWrite && !b.readFailed && b.looks
    ensures RackPass(capacity, global, AfterPass(capacity, global, w, a).now, b).status.started <==> capacity != global
  {
    EndsResized(capacity, global, w, a);
  }

  /** How often the StatefulSet has been deleted and created, when datacenter and cluster ask for the same capacity. */
  ghost predicate CountsInOrder(capacity: int, w: World) {
    && (w.now.sts.None? ==> w.now.status.started && w.deletes == 1 && w.creates == 0)
    && (w.now.sts.Some? ==> w.deletes == w.creates <= 1 && (Capacity(w.now.sts.value) != capacity ==> w.deletes == 0))
  }

  lemma PassKeepsCounts(capacity: int, w: World, a: Answers)
    requires Inv(capacity, w) && CountsInOrder(capacity, w)
    ensures CountsInOrder(capacity, AfterPass(capacity, capacity, w, a))
  {
    if DataIndex(w.began.claims).Some? {
      ResizedHasCapacity(w.began, capacity);
    }
  }

  ghost predicate AtMostOnce(capacity: int, global: int, w: World, run: seq<Event>)
    decreases |run|
  {
    w.deletes <= 1 && w.creates <= 1 && (run == [] || AtMostOnce(capacity, global, Happens(capacity, global, w, run[0]), run[1..]))
  }

  /** Over a whole run at most one delete and one create succeed, when datacenter and cluster ask for the same capacity. */
  lemma {:induction false} DeletesAtMostOnce(capacity: int, w: World, run: seq<Event>)
    requires Inv(capacity, w) && CountsInOrder(capacity, w)
    ensures AtMostOnce(capacity, capacity, w, run)
    decreases |run|
  {
    hide Inv, AfterPass;
    if run != [] {
      if run[0].PassOver? {
        StepsKeepInv(capacity, capacity, w, run[0].a);
        PassKeepsCounts(capacity, w, run[0].a);
      } else {
        GrowthKeepsInv(capacity, w, run[0].sizes);
      }
      DeletesAtMostOnce(capacity, Happens(capacity, capacity, w, run[0]), run[1..]);
    }
  }

  /** Answers in which nothing fails. */
  function AllGood(): Answers {
    Answers(false, true, false, true, true, true, [], true, None, StatefulSet(0, 0, [], None), true)
  }

  /** No upsize is under way, and nothing has been deleted or created yet. */
  ghost predicate AtRest(capacity: int, w: World) {
    Inv(capacity, w) && !w.now.status.started && w.deletes == 0 && w.creates == 0
  }

  /** A StatefulSet of this capacity is there, and never was deleted; with an upsize to another under way, or without. */
  ghost predicate Spared(capacity: int, global: int, w: World) {
    && w.now.sts.Some? && w.deletes == 0 && w.creates == 0
    && (Capacity(w.now.sts.value) == global || (Capacity(w.now.sts.value) == capacity && !w.now.status.started))
  }

  lemma StepSpares(capacity: int, global: int, w: World, e: Event)
    requires Spared(capacity, global, w)
    ensures Spared(capacity, global, Happens(capacity, global, w, e))
  {
  }

  /** Where the StatefulSet has the capacity of the cluster, or none is due, nothing is ever deleted. */
  lemma {:induction false} NeverDeletes(capacity: int, global: int, w: World, run: seq<Event>)
    requires Spared(capacity, global, w)
    ensures AtMostOnce(capacity, global, w, run)
    decreases |run|
  {
    hide Happens;
    if run != [] {
      StepSpares(capacity, global, w, run[0]);
      NeverDeletes(capacity, global, Happens(capacity, global, w, run[0]), run[1..]);
    }
  }

  /** A StatefulSet resized to what the datacenter asks for, while the cluster asks for something else. */
  ghost predicate Torn(capacity: int, global: int, w: World) {
    && Inv(capacity, w) && capacity != global && w.now.status.started && w.now.status.snapshot.Some?
    && w.now.sts == Some(Resized(w.began, capacity))
  }

  /** The StatefulSet, the datacenter and the cluster have three different capacities. */
  predicate Apart(capacity: int, global: int, w: World) {
    && w.now.sts.Some? && capacity != global
    && Capacity(w.now.sts.value) != capacity && Capacity(w.now.sts.value) != global
  }

  /** From rest, three passes in which nothing fails delete the StatefulSet once and leave it torn. */
  lemma RestToTorn(capacity: int, global: int, w: World)
    requires AtRest(capacity, w) && Apart(capacity, global, w)
    ensures var w1 := AfterPass(capacity, global, w, AllGood());
            var w2 := AfterPass(capacity, global, w1, AllGood());
            var w3 := AfterPass(capacity, global, w2, AllGood());
            && w1.deletes == 0 && w1.creates == 0 && w2.deletes == 1 && w2.creates == 0
            && Torn(capacity, global, w3) && w3.deletes == 1 && w3.creates == 1
  {
    var w1 := AfterPass(capacity, global, w, AllGood());
    var w2 := AfterPass(capacity, global, w1, AllGood());
    StepsKeepInv(capacity, global, w, AllGood());
    StepsKeepInv(capacity, global, w1, AllGood());
    StepsKeepInv(capacity, global, w2, AllGood());
  }

  lemma TornAgain(capacity: int, global: int, w: World)
    requires Torn(capacity, global, w)
    ensures var w2 := AfterPass(capacity, global, AfterPass(capacity, global, w, AllGood()), AllGood());
            Torn(capacity, global, w2) && w2.deletes == w.deletes + 1
  {
    ResizedHasCapacity(w.began, capacity);
    StepsKeepInv(capacity, global, w, AllGood());
    StepsKeepInv(capacity, global, AfterPass(capacity, global, w, AllGood()), AllGood());
  }

  function Repeated(capacity: int, global: int, w: World, n: nat): World
    decreases n
  {
    if n == 0 then w
    else Repeated(capacity, global, AfterPass(capacity, global, AfterPass(capacity, global, w, AllGood()), AllGood()), n - 1)
  }

  /** A torn StatefulSet can be deleted and created again and again. */
  lemma {:induction false} RecreatesForEver(capacity: int, global: int, w: World, n: nat)
    requires Torn(capacity, global, w)
    ensures Repeated(capacity, global, w, n).deletes == w.deletes + n
    decreases n
  {
    if n > 0 {
      TornAgain(capacity, global, w);
      RecreatesForEver(capacity, global, AfterPass(capacity, global, AfterPass(capacity, global, w, AllGood()), AllGood()), n - 1);
    }
  }

  lemma {:induction false} DeletesTwice(capacity: int, global: int, w: World)
    requires AtRest(capacity, w) && Apart(capacity, global, w)
    ensures exists run :: !AtMostOnce(capacity, global, w, run)
  {
    hide AfterPass, Inv;
    var good := PassOver(AllGood());
    var w1 := Happens(capacity, global, w, good);
    var w2 := Happens(capacity, global, w1, good);
    var w3 := Happens(capacity, global, w2, good);
    RestToTorn(capacity, global, w);
    TornAgain(capacity, global, w3);
    var w4 := Happens(capacity, global, w3, good);
    assert !AtMostOnce(capacity, global, Happens(capacity, global, w4, good), []);
    var one := [good];
    assert one[1..] == [] && !AtMostOnce(capacity, global, w4, one);
    var two := [good] + one;
    assert two[1..] == one && !AtMostOnce(capacity, global, w3, two);
    var three := [good] + two;
    assert three[1..] == two && !AtMostOnce(capacity, global, w2, three);
    var four := [good] + three;
    assert four[1..] == three && !AtMostOnce(capacity, global, w1, four);
    var run := [good] + four;
    assert run[1..] == four && !AtMostOnce(capacity, global, w, run);
  }

  /**
   From rest, no run deletes or creates the StatefulSet twice, exactly if two of these are the same: what the
   StatefulSet has, what the datacenter asks for, and what the cluster asks for.
   */
  lemma {:induction false} AtMostOnceExactly(capacity: int, global: int, w: World)
    requires AtRest(capacity, w)
    ensures (forall run :: AtMostOnce(capacity, global, w, run)) <==> !Apart(capacity, global, w)
  {
    if Apart(capacity, global, w) {
      DeletesTwice(capacity, global, w);
    } else {
      forall run
        ensures AtMostOnce(capacity, global, w, run)
      {
        if capacity == global {
          DeletesAtMostOnce(capacity, w, run);
        } else {
          NeverDeletes(capacity, global, w, run);
        }
      }
    }
  }

  /** How many claims do not request the new capacity yet. */
  function Lagging(cs: seq<Claim>, capacity: int): nat {
    if cs == [] then 0 else Lagging(cs[..|cs| - 1], capacity) + (if cs[|cs| - 1].request != capacity then 1 else 0)
  }

  lemma {:induction false} LaggingBounds(cs: seq<Claim>, capacity: int)
    ensures Lagging(cs, capacity) <= |cs| && (Lagging(cs, capacity) == 0 <==> Requested(cs, capacity))
    decreases |cs|
  {
    if cs != [] {
      LaggingBounds(cs[..|cs| - 1], capacity);
      assert forall i :: 0 <= i < |cs| - 1 ==> cs[i] == cs[..|cs| - 1][i];
    }
  }

  /** Updates leave no claim further behind, and one more up to date for every one that succeeds. */
  lemma {:induction false} UpdatesHelp(cs: seq<Claim>, ds: seq<Claim>, capacity: int)
    requires |cs| == |ds| && forall i :: 0 <= i < |cs| ==> ds[i].request == cs[i].request || ds[i].request == capacity
    ensures Lagging(ds, capacity) <= Lagging(cs, capacity)
    ensures (exists i :: 0 <= i < |cs| && cs[i].request != capacity && ds[i].request == capacity) ==>
              Lagging(ds, capacity) < Lagging(cs, capacity)
    decreases |cs|
  {
    if cs != [] {
      var n := |cs| - 1;
      UpdatesHelp(cs[..n], ds[..n], capacity);
      if i :| 0 <= i < |cs| && cs[i].request != capacity && ds[i].request == capacity {
        if i < n {
          assert cs[..n][i].request != capacity && ds[..n][i].request == capacity;
        }
      }
    }
  }

  /** How far the upsize still has to go: its stage, and the claims that lag behind. */
  ghost function Rank(capacity: int, w: World): nat {
    var n := |w.now.claims|;
    if !w.now.status.started then (if w.now.sts.Some? && Capacity(w.now.sts.value) == capacity then 0 else n + 5)
    else if w.now.status.snapshot.None? then n + 4
    else if w.now.sts.None? then n + 2
    else if Capacity(w.now.sts.value) != capacity then n + 3
    else 1 + Lagging(w.now.claims, capacity)
  }

  lemma ClaimsNeverFallBack(capacity: int, w: World, a: Answers)
    ensures var s := RackPass(capacity, capacity, w.now, a);
            && |s.claims| == |w.now.claims| && Lagging(s.claims, capacity) <= Lagging(w.now.claims, capacity)
  {
    var s := RackPass(capacity, capacity, w.now, a);
    UpdatesHelp(w.now.claims, s.claims, capacity);
  }

  /** No pass, whatever fails in it, takes the upsize back. */
  lemma {:induction false} NeverBack(capacity: int, w: World, a: Answers)
    requires Inv(capacity, w)
    ensures Rank(capacity, AfterPass(capacity, capacity, w, a)) <= Rank(capacity, w)
  {
    ClaimsNeverFallBack(capacity, w, a);
    LaggingBounds(w.now.claims, capacity);
    LaggingBounds(RackPass(capacity, capacity, w.now, a).claims, capacity);
    if DataIndex(w.began.claims).Some? {
      ResizedHasCapacity(w.began, capacity);
    }
  }

  ghost predicate Finished(capacity: int, w: World) {
    !w.now.status.started && w.now.sts.Some? && Capacity(w.now.sts.value) == capacity
  }

  /** The filesystems have grown as far as their claims request. */
  function Settle(w: World): (r: World)
    ensures |r.now.claims| == |w.now.claims| && forall i :: 0 <= i < |w.now.claims| ==> r.now.claims[i].request == w.now.claims[i].request
  {
    w.(now := w.now.(claims := seq(|w.now.claims|, i requires 0 <= i < |w.now.claims| =>
      w.now.claims[i].(filesystem := w.now.claims[i].request))))
  }

  /** The filesystems grow, and then there is a pass. */
  function Round(capacity: int, global: int, w: World, a: Answers): World {
    AfterPass(capacity, global, Settle(w), a)
  }

  /** This is something that can happen. */
  lemma SettleHappens(capacity: int, global: int, w: World)
    ensures exists e :: Settle(w) == Happens(capacity, global, w, e)
  {
    var cs := w.now.claims;
    var sizes := seq(|cs|, i requires 0 <= i < |cs| => cs[i].request);
    assert Regrown(cs, sizes) == Settle(w).now.claims;
    assert Settle(w) == Happens(capacity, global, w, FilesystemsChange(sizes));
  }

  /** The number of replicas of the StatefulSet that is, or is to be, resized. */
  ghost function Replicas(w: World): int {
    if w.now.status.started || w.now.sts.None? then w.began.replicas else w.now.sts.value.replicas
  }

  /** There are as many claims as replicas. */
  ghost predicate Fits(w: World) {
    |w.now.claims| == Replicas(w)
  }

  /**
   The cluster does what it is asked to: calls and writes succeed, of the claims that lag behind at least one is updated,
   and when none does the pods are there and ready.
   */
  ghost predicate Cooperates(capacity: int, w: World, a: Answers) {
    && !a.readFailed && a.looks && !a.stopped && a.deleteOk && a.createOk && a.listOk && a.endWrite
    && (!Requested(w.now.claims, capacity) ==>
          exists i :: 0 <= i < |w.now.claims| && w.now.claims[i].request != capacity && Ok(a.updateOk, i))
    && (Requested(w.now.claims, capacity) && w.now.sts.Some? ==> AllReady(w.now.sts.value, a))
  }

  lemma {:induction false} SettledProgresses(capacity: int, w: World, a: Answers)
    requires Inv(capacity, w) && !Finished(capacity, w) && Fits(w) && Cooperates(capacity, w, a)
    requires Requested(w.now.claims, capacity) ==> Grown(w.now.claims, capacity)
    ensures Rank(capacity, AfterPass(capacity, capacity, w, a)) < Rank(capacity, w) && Fits(AfterPass(capacity, capacity, w, a))
  {
    var cs, s := w.now.claims, RackPass(capacity, capacity, w.now, a);
    LaggingBounds(cs, capacity);
    LaggingBounds(s.claims, capacity);
    UpdatesHelp(cs, s.claims, capacity);
    if w.now.status.started {
      ResizedHasCapacity(w.began, capacity);
      if w.now.sts == Some(Resized(w.began, capacity)) && w.now.status.snapshot.Some? && !Requested(cs, capacity) {
        var i :| 0 <= i < |cs| && cs[i].request != capacity && Ok(a.updateOk, i);
        assert s.claims[i].request == capacity;
      }
    }
  }

  /** A pass in which the cluster cooperates brings the upsize nearer to its end, if there are as many claims as replicas. */
  lemma {:induction false} PassProgresses(capacity: int, w: World, a: Answers)
    requires Inv(capacity, w) && !Finished(capacity, w) && Fits(w) && Cooperates(capacity, Settle(w), a)
    ensures Rank(capacity, Round(capacity, capacity, w, a)) < Rank(capacity, w)
    ensures Inv(capacity, Round(capacity, capacity, w, a)) && Fits(Round(capacity, capacity, w, a))
  {
    hide Cooperates, AfterPass;
    UpdatesHelp(w.now.claims, Settle(w).now.claims, capacity);
    SettledProgresses(capacity, Settle(w), a);
    StepsKeepInv(capacity, capacity, Settle(w), a);
  }

  /** In every round up to the end the cluster cooperates. */
  ghost predicate CooperativeRun(capacity: int, global: int, w: World, answers: seq<Answers>)
    decreases |answers|
  {
    || answers == [] || Finished(capacity, w)
    || (Cooperates(capacity, Settle(w), answers[0]) && CooperativeRun(capacity, global, Round(capacity, global, w, answers[0]), answers[1..]))
  }

  ghost function Arrives(capacity: int, global: int, w: World, answers: seq<Answers>): World
    decreases |answers|
  {
    if answers == [] || Finished(capacity, w) then w
    else Arrives(capacity, global, Round(capacity, global, w, answers[0]), answers[1..])
  }

  /** An upsize with as many claims as replicas ends after at most as many cooperative rounds as its rank says. */
  lemma {:induction false} UpsizeEnds(capacity: int, w: World, answers: seq<Answers>)
    requires Inv(capacity, w) && Fits(w) && CooperativeRun(capacity, capacity, w, answers) && |answers| >= Rank(capacity, w)
    ensures Finished(capacity, Arrives(capacity, capacity, w, answers))
    decreases |answers|
  {
    hide Inv, Cooperates, Rank, Finished, Fits, Round;
    RankZero(capacity, w);
    if answers != [] && !Finished(capacity, w) {
      PassProgresses(capacity, w, answers[0]);
      UpsizeEnds(capacity, Round(capacity, capacity, w, answers[0]), answers[1..]);
    }
  }

  lemma RankZero(capacity: int, w: World)
    ensures Rank(capacity, w) == 0 ==> Finished(capacity, w)
  {
  }

  /** Answers of a cluster that cooperates. */
  function Ideal(w: World): Answers {
    AllGood().(updateOk := seq(|w.now.claims|, _ => true), pods := Some(seq(|w.now.claims|, _ => true)))
  }

  lemma IdealCooperates(capacity: int, w: World)
    requires Inv(capacity, w) && Fits(w)
    ensures Cooperates(capacity, Settle(w), Ideal(Settle(w)))
  {
    if w.now.status.started {
      ResizedHasCapacity(w.began, capacity);
    }
  }

  /** Cooperative answers up to the end. */
  lemma {:induction false} SomeRunEnds(capacity: int, w: World) returns (answers: seq<Answers>)
    requires Inv(capacity, w) && Fits(w)
    ensures CooperativeRun(capacity, capacity, w, answers) && Finished(capacity, Arrives(capacity, capacity, w, answers))
    decreases Rank(capacity, w)
  {
    hide Inv, Cooperates, Rank, Finished, Fits, Round, Ideal;
    answers := [];
    if !Finished(capacity, w) {
      var a := Ideal(Settle(w));
      IdealCooperates(capacity, w);
      PassProgresses(capacity, w, a);
      var rest := SomeRunEnds(capacity, Round(capacity, capacity, w, a));
      answers := [a] + rest;
      assert answers[1..] == rest;
    }
  }

  /** Where a run ends. */
  function EndOf(capacity: int, global: int, w: World, run: seq<Event>): World
    decreases |run|
  {
    if run == [] then w else EndOf(capacity, global, Happens(capacity, global, w, run[0]), run[1..])
  }

  /** An upsize is under way with more or fewer claims than replicas. */
  ghost predicate Unfit(capacity: int, w: World) {
    Inv(capacity, w) && w.now.status.started && !Fits(w)
  }

  lemma UnfitStays(capacity: int, global: int, w: World, e: Event)
    requires Unfit(capacity, w)
    ensures Unfit(capacity, Happens(capacity, global, w, e))
  {
    if e.PassOver? {
      StepsKeepInv(capacity, global, w, e.a);
      ResizedHasCapacity(w.began, capacity);
    }
  }

  /** Such an upsize is never over, whatever happens. */
  lemma {:induction false} UnfitForEver(capacity: int, global: int, w: World, run: seq<Event>)
    requires Unfit(capacity, w)
    ensures Unfit(capacity, EndOf(capacity, global, w, run))
    decreases |run|
  {
    hide Unfit, Happens;
    if run != [] {
      UnfitStays(capacity, global, w, run[0]);
      UnfitForEver(capacity, global, Happens(capacity, global, w, run[0]), run[1..]);
    }
  }

  /** A rack of one node, scaled down from two, whose second claim could not be deleted. */
  function LeftClaimExample(): World {
    var sts := StatefulSet(1, 0, [ClaimTemplate(DATA, Some(1))], None);
    World(State(RackStatus(false, None), Some(sts), [Claim(1, 1), Claim(1, 1)]), 0, 0, sts)
  }

  /** Its upsize begins in a pass in which nothing fails, and is never over. */
  lemma LeftClaimSticks(run: seq<Event>)
    ensures AtRest(2, LeftClaimExample())
    ensures EndOf(2, 2, AfterPass(2, 2, LeftClaimExample(), AllGood()), run).now.status.started
  {
    var w := LeftClaimExample();
    assert Unfit(2, AfterPass(2, 2, w, AllGood()));
    UnfitForEver(2, 2, AfterPass(2, 2, w, AllGood()), run);
  }

  /** With more or fewer claims than replicas, a cooperative round does not end the upsize. */
  lemma {:induction false} UnfitRound(capacity: int, global: int, w: World, a: Answers)
    requires Inv(capacity, w) && !Finished(capacity, w) && !Fits(w) && Cooperates(capacity, Settle(w), a)
    ensures var n := Round(capacity, global, w, a); Inv(capacity, n) && !Finished(capacity, n) && !Fits(n)
  {
    StepsKeepInv(capacity, global, Settle(w), a);
    if w.now.status.started {
      ResizedHasCapacity(w.began, capacity);
    }
  }

  /** Nor does anything, when datacenter and cluster ask for different capacities. */
  lemma ApartStays(capacity: int, global: int, w: World, e: Event)
    requires Inv(capacity, w) && !Finished(capacity, w) && capacity != global
    ensures var n := Happens(capacity, global, w, e); Inv(capacity, n) && !Finished(capacity, n)
  {
    if e.PassOver? {
      StepsKeepInv(capacity, global, w, e.a);
    }
  }

  lemma {:induction false} NeverEnds(capacity: int, global: int, w: World, answers: seq<Answers>)
    requires Inv(capacity, w) && !Finished(capacity, w) && (capacity != global || !Fits(w)) && CooperativeRun(capacity, global, w, answers)
    ensures !Finished(capacity, Arrives(capacity, global, w, answers))
    decreases |answers|
  {
    hide Inv, Cooperates, Finished, Fits, AfterPass;
    if answers != [] {
      if capacity != global {
        SettledInv(capacity, w);
        ApartStays(capacity, global, Settle(w), PassOver(answers[0]));
      } else {
        UnfitRound(capacity, global, w, answers[0]);
      }
      NeverEnds(capacity, global, Round(capacity, global, w, answers[0]), answers[1..]);
    }
  }

  lemma SettledInv(capacity: int, w: World)
    requires Inv(capacity, w)
    ensures Inv(capacity, Settle(w)) && (Finished(capacity, Settle(w)) <==> Finished(capacity, w))
  {
  }

  /**
   With a cluster that cooperates from now on an upsize can end exactly if datacenter and cluster ask for the same
   capacity, and there are as many claims as replicas.
   */
  lemma {:induction false} EndsExactly(capacity: int, global: int, w: World)
    requires Inv(capacity, w) && !Finished(capacity, w)
    ensures (exists answers :: CooperativeRun(capacity, global, w, answers) && Finished(capacity, Arrives(capacity, global, w, answers)))
            <==> capacity == global && Fits(w)
  {
    hide Inv, Finished, Arrives, CooperativeRun, Fits;
    if capacity == global && Fits(w) {
      var answers := SomeRunEnds(capacity, w);
    } else {
      forall answers | CooperativeRun(capacity, global, w, answers)
        ensures !Finished(capacity, Arrives(capacity, global, w, answers))
      {
        NeverEnds(capacity, global, w, answers);
      }
    }
  }
}
