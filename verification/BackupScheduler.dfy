/**
 The schedule of backups: a table of the backups with a cron job, kept beside the table of the cron client.
 Seen from outside it is a plain map from the name of a backup to its schedule and task.
 */
module BackupScheduler {

  /** A cron job, with the backup it was made for. */
  datatype Job = Job(backup: string, schedule: string, task: nat)

  datatype Entry = Entry(id: int, schedule: string)

  datatype Plan = Plan(schedule: string, task: nat)

  /** The live jobs of the cron client. Identifiers are not used twice. */
  class Cron {
    var jobs: map<int, Job>
    var lastId: int

    ghost predicate Valid()
      reads this
    {
      forall id :: id in jobs ==> id <= lastId
    }

    constructor ()
      ensures Valid() && jobs == map[]
    {
      jobs, lastId := map[], 0;
    }

    /** Adds a job, unless its schedule is refused. */
    method AddFunc(job: Job, accepted: bool) returns (id: int)
      requires Valid()
      modifies this
      ensures Valid()
      ensures if accepted then id !in old(jobs) && jobs == old(jobs)[id := job] else jobs == old(jobs)
    {
      if !accepted {
        return 0;
      }
      lastId := lastId + 1;
      id := lastId;
      jobs := jobs[id := job];
    }

    method Remove(id: int)
      requires Valid()
      modifies this
      ensures Valid() && jobs == old(jobs) - {id}
    {
      jobs := jobs - {id};
    }
  }

  /** Every backup in the table has its own live job, and every live job belongs to a backup in the table. */
  ghost predicate Matched(entries: map<string, Entry>, jobs: map<int, Job>) {
    && (forall name :: name in entries ==>
          var e := entries[name];
          e.id in jobs && jobs[e.id].backup == name && jobs[e.id].schedule == e.schedule)
    && (forall id :: id in jobs ==> jobs[id].backup in entries && entries[jobs[id].backup].id == id)
  }

  /** What is planned: for each backup, when its job runs and what it does. */
  ghost function Planned(entries: map<string, Entry>, jobs: map<int, Job>): map<string, Plan>
    requires Matched(entries, jobs)
  {
    map name | name in entries :: Plan(entries[name].schedule, jobs[entries[name].id].task)
  }

  /** What is asked of the scheduler. */
  datatype Request =
    | AddOrUpdate(backup: string, schedule: string, task: nat, accepted: bool)
    | Remove(backup: string)

  predicate Skips(plans: map<string, Plan>, r: Request) {
    r.AddOrUpdate? && r.backup in plans && plans[r.backup].schedule == r.schedule
  }

  /** A request, on the plain map. A backup whose new schedule is refused loses the old one. */
  function After(plans: map<string, Plan>, r: Request): map<string, Plan> {
    if Skips(plans, r) then plans
    else if r.AddOrUpdate? && r.accepted then plans[r.backup := Plan(r.schedule, r.task)]
    else plans - {r.backup}
  }

  lemma RemoveThenAdd(plans: map<string, Plan>, r: Request)
    requires r.AddOrUpdate? && !Skips(plans, r)
    ensures var without := After(plans, Request.Remove(r.backup));
            After(plans, r) == if r.accepted then without[r.backup := Plan(r.schedule, r.task)] else without
  {
  }

  function AfterAll(plans: map<string, Plan>, history: seq<Request>): map<string, Plan> {
    if history == [] then plans
    else After(AfterAll(plans, history[..|history| - 1]), history[|history| - 1])
  }

  lemma AddKeepsMatched(entries: map<string, Entry>, jobs: map<int, Job>, id: int, job: Job)
    requires Matched(entries, jobs) && id !in jobs && job.backup !in entries
    ensures var entries', jobs' := entries[job.backup := Entry(id, job.schedule)], jobs[id := job];
            Matched(entries', jobs') && Planned(entries', jobs') == Planned(entries, jobs)[job.backup := Plan(job.schedule, job.task)]
  {
  }

  lemma RemoveKeepsMatched(entries: map<string, Entry>, jobs: map<int, Job>, name: string)
    requires Matched(entries, jobs) && name in entries
    ensures var entries', jobs' := entries - {name}, jobs - {entries[name].id};
            Matched(entries', jobs') && Planned(entries', jobs') == Planned(entries, jobs) - {name}
  {
  }

  class Scheduler {
    var entries: map<string, Entry>
    const cronClient: Cron

    ghost predicate Valid()
      reads this, cronClient
    {
      cronClient.Valid() && Matched(entries, cronClient.jobs)
    }

    ghost function Plans(): map<string, Plan>
      requires Valid()
      reads this, cronClient
    {
      Planned(entries, cronClient.jobs)
    }

    constructor ()
      ensures Valid() && Plans() == map[] && fresh(cronClient)
    {
      entries := map[];
      cronClient := new Cron();
    }

    predicate Contains(name: string)
      reads this
    {
      name in entries
    }

    method Remove(name: string)
      requires Valid()
      modifies this, cronClient
      ensures Valid() && Plans() == After(old(Plans()), Request.Remove(name))
      ensures name !in entries
    {
      if Contains(name) {
        RemoveKeepsMatched(entries, cronClient.jobs, name);
        cronClient.Remove(entries[name].id);
        entries := entries - {name};
      }
    }

    method AddOrUpdate(name: string, schedule: string, task: nat, accepted: bool) returns (skipped: bool, failed: bool)
      requires Valid()
      modifies this, cronClient
      ensures Valid() && Plans() == After(old(Plans()), Request.AddOrUpdate(name, schedule, task, accepted))
      ensures skipped <==> Skips(old(Plans()), Request.AddOrUpdate(name, schedule, task, accepted))
      ensures failed <==> !skipped && !accepted
    {
      if Contains(name) && entries[name].schedule == schedule {
        return true, false;
      }
      ghost var plans, r := Plans(), Request.AddOrUpdate(name, schedule, task, accepted);
      assert !Skips(plans, r);
      hide Matched, Planned, After, Skips;
      RemoveThenAdd(plans, r);
      Remove(name);
      var job := Job(name, schedule, task);
      ghost var jobs := cronClient.jobs;
      var id := cronClient.AddFunc(job, accepted);
      if accepted {
        AddKeepsMatched(entries, jobs, id, job);
        entries := entries[name := Entry(id, schedule)];
      }
      return false, !accepted;
    }
  }

  /** Any history of requests leaves what the plain map says, and exactly one live job for each backup in it. */
  method Perform(history: seq<Request>) returns (s: Scheduler)
    ensures s.Valid() && s.Plans() == AfterAll(map[], history)
  {
    s := new Scheduler();
    for i := 0 to |history|
      invariant s.Valid() && fresh(s) && fresh(s.cronClient)
      invariant s.Plans() == AfterAll(map[], history[..i])
    {
      assert history[..i + 1][..i] == history[..i];
      match history[i] {
        case AddOrUpdate(name, schedule, task, accepted) =>
          var skipped, failed := s.AddOrUpdate(name, schedule, task, accepted);
        case Remove(name) =>
          s.Remove(name);
      }
    }
    assert history[..|history|] == history;
  }

  // What the plain map says.

  /** The requests that concern one backup. */
  function Concerning(history: seq<Request>, name: string): seq<Request> {
    if history == [] then []
    else
      var n := |history| - 1;
      Concerning(history[..n], name) + if history[n].backup == name then [history[n]] else []
  }

  /** The plan of a backup. */
  function PlanOf(plans: map<string, Plan>, name: string): map<string, Plan> {
    map k | k in plans && k == name :: plans[k]
  }

  lemma AfterOne(plans: map<string, Plan>, r: Request, name: string)
    ensures PlanOf(After(plans, r), name) == if r.backup == name then After(PlanOf(plans, name), r) else PlanOf(plans, name)
  {
  }

  /** A backup is planned as if it were alone: requests for others do not matter to it. */
  lemma {:induction false} PlannedAlone(history: seq<Request>, name: string)
    ensures PlanOf(AfterAll(map[], history), name) == AfterAll(map[], Concerning(history, name))
  {
    if history != [] {
      var n := |history| - 1;
      var before, mine := history[..n], Concerning(history[..n], name);
      PlannedAlone(before, name);
      AfterOne(AfterAll(map[], before), history[n], name);
      if history[n].backup == name {
        assert (mine + [history[n]])[..|mine|] == mine;
      } else {
        assert mine + [] == mine;
      }
    }
  }

  /** There are as many live jobs as planned backups. */
  lemma {:induction false} AsManyJobs(entries: map<string, Entry>, jobs: map<int, Job>)
    requires Matched(entries, jobs)
    ensures |jobs| == |entries|
    decreases |entries|
  {
    assert forall id :: id in jobs ==> jobs[id].backup in entries;
    if name :| name in entries {
      var id := entries[name].id;
      RemoveKeepsMatched(entries, jobs, name);
      var entries', jobs' := entries - {name}, jobs - {id};
      assert entries == entries'[name := entries[name]];
      assert jobs == jobs'[id := jobs[id]];
      AsManyJobs(entries', jobs');
    } else {
      assert entries == map[];
      assert jobs.Keys == {};
    }
  }

  /** The last request decides: the backup is planned unless it was removed or refused, with the schedule asked for. */
  lemma {:induction false} LastRequestDecides(history: seq<Request>, r: Request)
    ensures var plans := AfterAll(map[], history + [r]);
            if r.Remove? then r.backup !in plans
            else if r.accepted || Skips(AfterAll(map[], history), r) then r.backup in plans && plans[r.backup].schedule == r.schedule
            else r.backup !in plans
    ensures var before, plans := AfterAll(map[], history), AfterAll(map[], history + [r]);
            !r.Remove? && r.backup in plans ==>
              (plans[r.backup].task == r.task <==> !Skips(before, r) || before[r.backup].task == r.task)
  {
    assert (history + [r])[..|history|] == history;
  }

  /** A request with the same schedule and another task is skipped: the old task stays. */
  lemma OldTaskStays()
    ensures var plans := AfterAll(map[], [Request.AddOrUpdate("b", "s", 1, true), Request.AddOrUpdate("b", "s", 2, true)]);
            "b" in plans && plans["b"].task == 1
  {
    var first := [Request.AddOrUpdate("b", "s", 1, true)];
    assert [first[0], Request.AddOrUpdate("b", "s", 2, true)][..1] == first && first[..0] == [];
    assert AfterAll(map[], first) == After(AfterAll(map[], []), first[0]);
  }
}
