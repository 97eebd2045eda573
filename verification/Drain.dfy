/**
 One node that empties the scheduler on its own: with every build succeeding and nothing arriving,
 dying or being cancelled, the tasks it is given follow a simple plan.
 */
module Drain {
  import opened Types
  import opened Schedule

  /** Reports of finished jobs that reach the pool between two requests for work. */
  type Reports = seq<(JobSetIdentifier, string)>

  function Report(s: Sched, reports: Reports): Sched
    decreases |reports|
  {
    if reports == [] then s else Report(FinishJob(s, reports[0].0, reports[0].1), reports[1..])
  }

  /** The scheduler when the next request comes, and the reports that are still to come after it. */
  function Reported(s: Sched, reports: seq<Reports>): Sched {
    if reports == [] then s else Report(s, reports[0])
  }

  function Later(reports: seq<Reports>): seq<Reports> {
    if reports == [] then [] else reports[1..]
  }

  /** The set a node has compiled after a task. */
  function Compiled(current: JobSetIdentifier, task: JobResponse): JobSetIdentifier {
    if task.Build? then task.ident else current
  }

  /**
   `tasks` is what a node is given from this state until the first `EmptyJobs`, when `reports[k]`
   reach the pool before its k-th request (none once the list is used up).
   */
  ghost predicate IsDrain(s: Sched, current: JobSetIdentifier, caps: set<string>, failures: set<JobSetIdentifier>,
                          node: nat, reports: seq<Reports>, tasks: seq<JobResponse>)
    decreases |tasks|
  {
    var (t, task) := FetchNewTask(Reported(s, reports), current, caps, failures, node);
    if tasks == [] then task.EmptyJobs?
    else
      && task == tasks[0] && !task.EmptyJobs?
      && IsDrain(t, Compiled(current, task), caps, failures, node, Later(reports), tasks[1..])
  }

  /** The answers are determined, so there is one drain only. */
  lemma {:induction false} DrainIsUnique(s: Sched, current: JobSetIdentifier, caps: set<string>, failures: set<JobSetIdentifier>,
                                         node: nat, reports: seq<Reports>, a: seq<JobResponse>, b: seq<JobResponse>)
    requires IsDrain(s, current, caps, failures, node, reports, a)
    requires IsDrain(s, current, caps, failures, node, reports, b)
    ensures a == b
    decreases |a|
  {
    if a != [] && b != [] {
      var (t, task) := FetchNewTask(Reported(s, reports), current, caps, failures, node);
      DrainIsUnique(t, Compiled(current, task), caps, failures, node, Later(reports), a[1..], b[1..]);
    }
  }

  // ---------------------------------------------------------------- the plan

  datatype Entry = Entry(ident: JobSetIdentifier, jobs: seq<Job>)

  /** A set's jobs are run from the back of its list. */
  function Runs(e: Entry): seq<JobResponse>
    decreases |e.jobs|
  {
    if e.jobs == [] then []
    else [Run(e.ident, e.jobs[|e.jobs| - 1])] + Runs(e.(jobs := e.jobs[..|e.jobs| - 1]))
  }

  /** Set after set: one build, then all its jobs. */
  function Tasks(plan: seq<Entry>): seq<JobResponse> {
    if plan == [] then [] else [Build(plan[0].ident)] + Runs(plan[0]) + Tasks(plan[1..])
  }

  /** The plan lists exactly the eligible sets with their remaining jobs, in order. */
  ghost predicate IsPlan(s: Sched, caps: set<string>, failures: set<JobSetIdentifier>, plan: seq<Entry>) {
    && (forall i :: 0 <= i < |plan| ==>
          Eligible(s, plan[i].ident, caps, failures) && s.sets[plan[i].ident].remaining == plan[i].jobs)
    && (forall id :: Eligible(s, id, caps, failures) ==> exists i :: 0 <= i < |plan| && plan[i].ident == id)
    && (forall i, j :: 0 <= i < j < |plan| ==> Earlier(s, plan[i].ident, plan[j].ident))
  }

  // ---------------------------------------------------------------- every state has a plan

  ghost function First(s: Sched, ids: set<JobSetIdentifier>): JobSetIdentifier
    requires ids != {}
  {
    var gpu := set id | id in ids && id in s.sets && GPU in s.sets[id].requirements;
    if gpu != {} then Least(gpu) else Least(ids)
  }

  ghost function Plan(s: Sched, ids: set<JobSetIdentifier>): seq<Entry>
    requires forall id <- ids :: id in s.sets
  {
    if ids == {} then []
    else
      var id := First(s, ids);
      [Entry(id, s.sets[id].remaining)] + Plan(s, ids - {id})
  }

  lemma FirstIsEarlier(s: Sched, ids: set<JobSetIdentifier>, id: JobSetIdentifier)
    requires s.Valid() && (forall x <- ids :: x in s.sets) && id in ids && id != First(s, ids)
    ensures First(s, ids) in ids && Earlier(s, First(s, ids), id)
  {
    var gpu := set x | x in ids && x in s.sets && GPU in s.sets[x].requirements;
    assert GPU in s.sets[id].requirements ==> id in gpu;
  }

  lemma {:induction false} PlanEntries(s: Sched, ids: set<JobSetIdentifier>, i: nat)
    requires s.Valid() && (forall id <- ids :: id in s.sets) && i < |Plan(s, ids)|
    ensures Plan(s, ids)[i].ident in ids && s.sets[Plan(s, ids)[i].ident].remaining == Plan(s, ids)[i].jobs
  {
    if i > 0 {
      PlanEntries(s, ids - {First(s, ids)}, i - 1);
    }
  }

  lemma {:induction false} PlanCovers(s: Sched, ids: set<JobSetIdentifier>, id: JobSetIdentifier) returns (i: nat)
    requires s.Valid() && (forall x <- ids :: x in s.sets) && id in ids
    ensures i < |Plan(s, ids)| && Plan(s, ids)[i].ident == id
  {
    var first := First(s, ids);
    if id == first {
      i := 0;
    } else {
      var j := PlanCovers(s, ids - {first}, id);
      i := j + 1;
    }
  }

  lemma {:induction false} PlanIsOrdered(s: Sched, ids: set<JobSetIdentifier>, i: nat, j: nat)
    requires s.Valid() && (forall id <- ids :: id in s.sets) && i < j < |Plan(s, ids)|
    ensures Plan(s, ids)[i].ident in s.sets && Plan(s, ids)[j].ident in s.sets
    ensures Earlier(s, Plan(s, ids)[i].ident, Plan(s, ids)[j].ident)
  {
    var first := First(s, ids);
    PlanEntries(s, ids - {first}, j - 1);
    if i == 0 {
      FirstIsEarlier(s, ids, Plan(s, ids)[j].ident);
    } else {
      PlanIsOrdered(s, ids - {first}, i - 1, j - 1);
    }
  }

  lemma PlanIsPlan(s: Sched, caps: set<string>, failures: set<JobSetIdentifier>)
    requires s.Valid()
    ensures IsPlan(s, caps, failures, Plan(s, EligibleIds(s, false, caps, failures)))
  {
    var ids := EligibleIds(s, false, caps, failures);
    var plan := Plan(s, ids);
    forall i | 0 <= i < |plan|
      ensures Eligible(s, plan[i].ident, caps, failures) && s.sets[plan[i].ident].remaining == plan[i].jobs
    {
      PlanEntries(s, ids, i);
    }
    forall id | Eligible(s, id, caps, failures) ensures exists i :: 0 <= i < |plan| && plan[i].ident == id {
      var i := PlanCovers(s, ids, id);
    }
    forall i, j | 0 <= i < j < |plan| ensures Earlier(s, plan[i].ident, plan[j].ident) {
      PlanIsOrdered(s, ids, i, j);
    }
  }

  ghost function ThePlan(s: Sched, caps: set<string>, failures: set<JobSetIdentifier>): (plan: seq<Entry>)
    requires s.Valid()
    ensures IsPlan(s, caps, failures, plan)
  {
    PlanIsPlan(s, caps, failures);
    Plan(s, EligibleIds(s, false, caps, failures))
  }

  // ---------------------------------------------------------------- following the plan

  /** What is left to do when `current` is compiled. */
  function Left(plan: seq<Entry>, current: JobSetIdentifier): seq<JobResponse> {
    if plan != [] && plan[0].ident == current then Runs(plan[0]) + Tasks(plan[1..]) else Tasks(plan)
  }

  /** The plan after one more job of its first set. */
  function Advance(plan: seq<Entry>): seq<Entry>
    requires plan != [] && plan[0].jobs != []
  {
    var e := plan[0];
    if |e.jobs| == 1 then plan[1..] else plan[0 := e.(jobs := e.jobs[..|e.jobs| - 1])]
  }

  /** The node has compiled nothing, a set that is used up, or the first set of the plan. */
  predicate AtFront(plan: seq<Entry>, current: JobSetIdentifier) {
    forall i :: 0 < i < |plan| ==> plan[i].ident != current
  }

  lemma ReportKeepsPlan(s: Sched, caps: set<string>, failures: set<JobSetIdentifier>, plan: seq<Entry>,
                        id: JobSetIdentifier, name: string)
    requires s.Valid() && IsPlan(s, caps, failures, plan)
    ensures FinishJob(s, id, name).Valid() && IsPlan(FinishJob(s, id, name), caps, failures, plan)
  {
    var t := FinishJob(s, id, name);
    forall i | 0 <= i < |plan|
      ensures Eligible(t, plan[i].ident, caps, failures) && t.sets[plan[i].ident].remaining == plan[i].jobs
           && t.sets[plan[i].ident].requirements == s.sets[plan[i].ident].requirements
    {
      assert Eligible(s, plan[i].ident, caps, failures);
    }
    forall x | Eligible(t, x, caps, failures) ensures exists i :: 0 <= i < |plan| && plan[i].ident == x {
      assert Eligible(s, x, caps, failures);
    }
    forall i, j | 0 <= i < j < |plan| ensures Earlier(t, plan[i].ident, plan[j].ident) {
      assert Earlier(s, plan[i].ident, plan[j].ident);
    }
  }

  lemma {:induction false} ReportsKeepPlan(s: Sched, caps: set<string>, failures: set<JobSetIdentifier>,
                                           plan: seq<Entry>, reports: Reports)
    requires s.Valid() && IsPlan(s, caps, failures, plan)
    ensures Report(s, reports).Valid() && IsPlan(Report(s, reports), caps, failures, plan)
    decreases |reports|
  {
    if reports != [] {
      ReportKeepsPlan(s, caps, failures, plan, reports[0].0, reports[0].1);
      ReportsKeepPlan(FinishJob(s, reports[0].0, reports[0].1), caps, failures, plan, reports[1..]);
    }
  }

  lemma PlannedWorkIsFound(s: Sched, current: JobSetIdentifier, caps: set<string>, failures: set<JobSetIdentifier>,
                           node: nat, plan: seq<Entry>)
    requires IsPlan(s, caps, failures, plan) && plan != []
    requires current in s.sets ==> s.sets[current].requirements <= caps
    ensures !FetchNewTask(s, current, caps, failures, node).1.EmptyJobs?
  {
    EmptyJobsIffNothingEligible(s, current, caps, failures, node);
    assert Eligible(s, plan[0].ident, caps, failures);
  }

  /** One request: build the plan's first set, or run its last job, or nothing is left. */
  lemma FetchFollowsPlan(s: Sched, current: JobSetIdentifier, caps: set<string>, failures: set<JobSetIdentifier>,
                         node: nat, plan: seq<Entry>)
    requires s.Valid() && IsPlan(s, caps, failures, plan) && AtFront(plan, current)
    requires current in s.sets ==> s.sets[current].requirements <= caps
    ensures var r := FetchNewTask(s, current, caps, failures, node);
            if plan == [] then r == (s, EmptyJobs)
            else if plan[0].ident == current then r == RunNext(s, current, node)
            else r == (s, Build(plan[0].ident))
  {
    EmptyJobsIffNothingEligible(s, current, caps, failures, node);
    FetchPriority(s, current, caps, failures, node);
    FetchEffect(s, current, caps, failures, node);
    var (t, task) := FetchNewTask(s, current, caps, failures, node);
    if plan != [] {
      var first := plan[0].ident;
      PlannedWorkIsFound(s, current, caps, failures, node, plan);
      var i :| 0 <= i < |plan| && plan[i].ident == task.ident;
      assert i > 0 ==> Earlier(s, first, task.ident);
    } else {
      assert forall id <- s.sets :: !Eligible(s, id, caps, failures);
    }
  }

  lemma FirstOfPlan(s: Sched, caps: set<string>, failures: set<JobSetIdentifier>, plan: seq<Entry>)
    requires s.Valid() && IsPlan(s, caps, failures, plan) && plan != []
    ensures Eligible(s, plan[0].ident, caps, failures) && plan[0].jobs == s.sets[plan[0].ident].remaining != []
    ensures forall i :: 0 < i < |plan| ==> plan[i].ident != plan[0].ident
  {
    assert Eligible(s, plan[0].ident, caps, failures);
    forall i | 0 < i < |plan| ensures plan[i].ident != plan[0].ident {
      assert Earlier(s, plan[0].ident, plan[i].ident);
    }
  }

  /** What one `Run` of the compiled set does to the scheduler, as far as plans are concerned. */
  ghost predicate Ran(s: Sched, t: Sched, current: JobSetIdentifier, caps: set<string>, failures: set<JobSetIdentifier>) {
    && current in s.sets && s.sets[current].remaining != [] && t.sets.Keys == s.sets.Keys
    && (forall id <- s.sets :: t.sets[id].requirements == s.sets[id].requirements)
    && (forall id <- s.sets | id != current :: t.sets[id] == s.sets[id])
    && t.sets[current].remaining == s.sets[current].remaining[..|s.sets[current].remaining| - 1]
    && (forall id :: Eligible(t, id, caps, failures) <==>
          Eligible(s, id, caps, failures) && (id == current ==> |s.sets[current].remaining| > 1))
  }

  lemma RunRan(s: Sched, current: JobSetIdentifier, caps: set<string>, failures: set<JobSetIdentifier>, node: nat)
    requires s.Valid() && current in s.sets && s.sets[current].remaining != []
    ensures var t := RunNext(s, current, node).0; t.Valid() && Ran(s, t, current, caps, failures)
  {
  }

  lemma RunAdvancesPlan(s: Sched, current: JobSetIdentifier, caps: set<string>, failures: set<JobSetIdentifier>,
                        node: nat, plan: seq<Entry>)
    requires s.Valid() && IsPlan(s, caps, failures, plan) && plan != [] && plan[0].ident == current
    requires current in s.sets && s.sets[current].remaining != []
    ensures var t := RunNext(s, current, node).0;
            t.Valid() && plan[0].jobs != [] && IsPlan(t, caps, failures, Advance(plan)) && AtFront(Advance(plan), current)
            && current in t.sets && t.sets[current].requirements == s.sets[current].requirements
  {
    var t := RunNext(s, current, node).0;
    RunRan(s, current, caps, failures, node);
    FirstOfPlan(s, caps, failures, plan);
    if |plan[0].jobs| == 1 {
      DropFirst(s, t, caps, failures, plan, plan[1..]);
    } else {
      ShortenFirst(s, t, caps, failures, plan, Advance(plan));
    }
  }

  lemma DropFirst(s: Sched, t: Sched, caps: set<string>, failures: set<JobSetIdentifier>, plan: seq<Entry>, next: seq<Entry>)
    requires s.Valid() && IsPlan(s, caps, failures, plan) && plan != [] && Ran(s, t, plan[0].ident, caps, failures)
    requires |plan[0].jobs| == 1 && |next| == |plan| - 1 && forall i :: 0 <= i < |next| ==> next[i] == plan[i + 1]
    ensures IsPlan(t, caps, failures, next)
  {
    FirstOfPlan(s, caps, failures, plan);
    forall i | 0 <= i < |next|
      ensures Eligible(t, next[i].ident, caps, failures) && t.sets[next[i].ident].remaining == next[i].jobs
    {
      assert Eligible(s, plan[i + 1].ident, caps, failures);
    }
    forall id | Eligible(t, id, caps, failures) ensures exists i :: 0 <= i < |next| && next[i].ident == id {
      assert Eligible(s, id, caps, failures);
      var i :| 0 <= i < |plan| && plan[i].ident == id;
      assert next[i - 1].ident == id;
    }
    forall i, j | 0 <= i < j < |next| ensures Earlier(t, next[i].ident, next[j].ident) {
      assert Earlier(s, plan[i + 1].ident, plan[j + 1].ident);
    }
  }

  lemma ShortenFirst(s: Sched, t: Sched, caps: set<string>, failures: set<JobSetIdentifier>, plan: seq<Entry>, next: seq<Entry>)
    requires s.Valid() && IsPlan(s, caps, failures, plan) && plan != [] && Ran(s, t, plan[0].ident, caps, failures)
    requires |plan[0].jobs| > 1 && |next| == |plan|
    requires next[0] == plan[0].(jobs := plan[0].jobs[..|plan[0].jobs| - 1]) && forall i :: 0 < i < |next| ==> next[i] == plan[i]
    ensures IsPlan(t, caps, failures, next)
  {
    FirstOfPlan(s, caps, failures, plan);
    forall i | 0 <= i < |next|
      ensures Eligible(t, next[i].ident, caps, failures) && t.sets[next[i].ident].remaining == next[i].jobs
    {
      assert Eligible(s, plan[i].ident, caps, failures);
    }
    forall id | Eligible(t, id, caps, failures) ensures exists i :: 0 <= i < |next| && next[i].ident == id {
      assert Eligible(s, id, caps, failures);
      var i :| 0 <= i < |plan| && plan[i].ident == id;
      assert next[i].ident == id;
    }
    forall i, j | 0 <= i < j < |next| ensures Earlier(t, next[i].ident, next[j].ident) {
      assert Earlier(s, plan[i].ident, plan[j].ident);
    }
  }

  lemma RunsUnfolds(e: Entry, rest: seq<JobResponse>)
    requires e.jobs != []
    ensures Runs(e) + rest
         == [Run(e.ident, e.jobs[|e.jobs| - 1])] + (Runs(e.(jobs := e.jobs[..|e.jobs| - 1])) + rest)
  {
    var front := Runs(e.(jobs := e.jobs[..|e.jobs| - 1]));
    assert [Run(e.ident, e.jobs[|e.jobs| - 1])] + front + rest == [Run(e.ident, e.jobs[|e.jobs| - 1])] + (front + rest);
  }

  /** A set that is not compiled is built first. */
  lemma LeftStartsWithBuild(plan: seq<Entry>, current: JobSetIdentifier)
    requires plan != [] && plan[0].ident != current
    ensures Left(plan, current) == [Build(plan[0].ident)] + Left(plan, plan[0].ident)
  {
    var rest := Tasks(plan[1..]);
    assert [Build(plan[0].ident)] + Runs(plan[0]) + rest == [Build(plan[0].ident)] + (Runs(plan[0]) + rest);
  }

  /** A compiled set goes on with its last job. */
  lemma LeftStartsWithRun(plan: seq<Entry>, current: JobSetIdentifier)
    requires plan != [] && plan[0].ident == current && plan[0].jobs != []
    requires forall i :: 0 < i < |plan| ==> plan[i].ident != current
    ensures Left(plan, current) == [Run(current, plan[0].jobs[|plan[0].jobs| - 1])] + Left(Advance(plan), current)
  {
    var e, rest := plan[0], plan[1..];
    RunsUnfolds(e, Tasks(rest));
    if |e.jobs| == 1 {
      assert [] + Tasks(rest) == Tasks(rest);
      assert rest != [] ==> rest[0] == plan[1];
    } else {
      assert Advance(plan)[1..] == rest;
    }
  }

  /** What is left starts with the last job of the compiled set, or with a build. */
  lemma LeftUnfolds(plan: seq<Entry>, current: JobSetIdentifier)
    requires plan != [] && plan[0].jobs != []
    requires forall i :: 0 < i < |plan| ==> plan[i].ident != plan[0].ident
    ensures if plan[0].ident == current
            then Left(plan, current) == [Run(current, plan[0].jobs[|plan[0].jobs| - 1])] + Left(Advance(plan), current)
            else Left(plan, current) == [Build(plan[0].ident)] + Left(plan, plan[0].ident)
  {
    if plan[0].ident == current {
      LeftStartsWithRun(plan, current);
    } else {
      LeftStartsWithBuild(plan, current);
    }
  }

  function Jobs(plan: seq<Entry>): nat {
    if plan == [] then 0 else |plan[0].jobs| + Jobs(plan[1..])
  }

  /** A task, and then what is left. */
  lemma OneMoreTask(s: Sched, current: JobSetIdentifier, caps: set<string>, failures: set<JobSetIdentifier>, node: nat,
                    reports: seq<Reports>, task: JobResponse, t: Sched, tasks: seq<JobResponse>)
    requires FetchNewTask(Reported(s, reports), current, caps, failures, node) == (t, task) && !task.EmptyJobs?
    requires IsDrain(t, Compiled(current, task), caps, failures, node, Later(reports), tasks)
    ensures IsDrain(s, current, caps, failures, node, reports, [task] + tasks)
  {
    assert ([task] + tasks)[1..] == tasks;
  }

  lemma AdvanceCounts(plan: seq<Entry>)
    requires plan != [] && plan[0].jobs != []
    ensures Jobs(Advance(plan)) == Jobs(plan) - 1
  {
    if |plan[0].jobs| > 1 {
      assert Advance(plan)[1..] == plan[1..];
    }
  }

  lemma {:induction false} ReportsKeepRequirements(s: Sched, reports: Reports, id: JobSetIdentifier)
    ensures id in Report(s, reports).sets ==> id in s.sets && Report(s, reports).sets[id].requirements == s.sets[id].requirements
    decreases |reports|
  {
    if reports != [] {
      ReportsKeepRequirements(FinishJob(s, reports[0].0, reports[0].1), reports[1..], id);
    }
  }

  /** Requests still to come: one for each job, and one more before the plan's first set is built. */
  function Due(plan: seq<Entry>, current: JobSetIdentifier): nat {
    2 * Jobs(plan) + (if plan != [] && plan[0].ident == current then 0 else 1)
  }

  lemma DueDecreases(plan: seq<Entry>, current: JobSetIdentifier)
    requires plan != [] && plan[0].jobs != []
    ensures if plan[0].ident == current then Due(Advance(plan), current) < Due(plan, current)
            else Due(plan, plan[0].ident) < Due(plan, current)
  {
    AdvanceCounts(plan);
  }

  /** What is left of a plan after one task of it, and what the node has compiled then. */
  function Rest(plan: seq<Entry>, current: JobSetIdentifier): seq<Entry>
    requires plan != [] && plan[0].jobs != []
  {
    if plan[0].ident == current then Advance(plan) else plan
  }

  /** One request against a plan that is not done: the next task, and a plan for the rest. */
  lemma PlanStep(s: Sched, current: JobSetIdentifier, caps: set<string>, failures: set<JobSetIdentifier>, node: nat,
                 plan: seq<Entry>)
    requires s.Valid() && IsPlan(s, caps, failures, plan) && AtFront(plan, current) && plan != []
    requires current in s.sets ==> s.sets[current].requirements <= caps
    ensures plan[0].jobs != [] && forall i :: 0 < i < |plan| ==> plan[i].ident != plan[0].ident
    ensures var (t, task) := FetchNewTask(s, current, caps, failures, node);
            var c, next := plan[0].ident, Rest(plan, current);
            && task == (if plan[0].ident == current then Run(current, plan[0].jobs[|plan[0].jobs| - 1]) else Build(c))
            && t.Valid() && IsPlan(t, caps, failures, next) && AtFront(next, c)
            && (c in t.sets ==> t.sets[c].requirements <= caps)
  {
    FetchFollowsPlan(s, current, caps, failures, node, plan);
    FirstOfPlan(s, caps, failures, plan);
    if plan[0].ident == current {
      RunAdvancesPlan(s, current, caps, failures, node, plan);
    }
  }

  lemma ReportedKeepsPlan(s: Sched, current: JobSetIdentifier, caps: set<string>, failures: set<JobSetIdentifier>,
                          reports: seq<Reports>, plan: seq<Entry>)
    requires s.Valid() && IsPlan(s, caps, failures, plan)
    requires current in s.sets ==> s.sets[current].requirements <= caps
    ensures var t := Reported(s, reports);
            && t.Valid() && IsPlan(t, caps, failures, plan)
            && (current in t.sets ==> t.sets[current].requirements <= caps)
  {
    if reports != [] {
      ReportsKeepPlan(s, caps, failures, plan, reports[0]);
      ReportsKeepRequirements(s, reports[0], current);
    }
  }

  lemma {:induction false} PlanIsDrained(s: Sched, current: JobSetIdentifier, caps: set<string>, failures: set<JobSetIdentifier>,
                                         node: nat, reports: seq<Reports>, plan: seq<Entry>, tasks: seq<JobResponse>)
    requires s.Valid() && IsPlan(s, caps, failures, plan) && AtFront(plan, current)
    requires current in s.sets ==> s.sets[current].requirements <= caps
    requires tasks == Left(plan, current)
    ensures IsDrain(s, current, caps, failures, node, reports, tasks)
    decreases Due(plan, current)
  {
    var s' := Reported(s, reports);
    ReportedKeepsPlan(s, current, caps, failures, reports, plan);
    if plan == [] {
      FetchFollowsPlan(s', current, caps, failures, node, plan);
    } else {
      PlanStep(s', current, caps, failures, node, plan);
      var (t, task) := FetchNewTask(s', current, caps, failures, node);
      var c, next := plan[0].ident, Rest(plan, current);
      var later := Left(next, c);
      LeftUnfolds(plan, current);
      assert tasks == [task] + later;
      DueDecreases(plan, current);
      PlanIsDrained(t, c, caps, failures, node, Later(reports), next, later);
      OneMoreTask(s, current, caps, failures, node, reports, task, t, later);
    }
  }

  /**
   A node that starts with nothing compiled is given: for the GPU sets it can take in ascending
   identifier, and then for the other sets it can take in ascending identifier, one build and then
   that set's jobs from the back of its list; then nothing.  It does not matter which jobs are
   reported finished in between.  By `DrainIsUnique` it is given nothing else.
   */
  lemma SingleNodeDrain(s: Sched, caps: set<string>, failures: set<JobSetIdentifier>, node: nat, reports: seq<Reports>)
    requires s.Valid()
    ensures IsDrain(s, NoSet, caps, failures, node, reports, Tasks(ThePlan(s, caps, failures)))
  {
    var plan := ThePlan(s, caps, failures);
    forall i | 0 <= i < |plan| ensures plan[i].ident != NoSet {
      assert Eligible(s, plan[i].ident, caps, failures);
    }
    PlanIsDrained(s, NoSet, caps, failures, node, reports, plan, Tasks(plan));
  }
}
