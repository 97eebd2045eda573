/**
 The scheduler as a function on values: what each operation of `GpuPriority` does to the map of
 job sets, and the policy that follows from it.  `Scheduler.dfy` proves the imperative
 scheduler against these functions.
 */
module Schedule {
  import opened Types

  datatype Sched = Sched(sets: map<JobSetIdentifier, JobSet>, last: nat) {
    /** Keys are identities that were handed out; `NoSet` is never one of them. */
    ghost predicate Valid() {
      forall id <- sets :: id.Identity? && 1 <= id.number <= last
    }
  }

  // ---------------------------------------------------------------- job sets

  function RemoveFirst(running: seq<RunningJob>, name: string): (r: seq<RunningJob>)
    ensures |r| <= |running|
  {
    if running == [] then []
    else if running[0].jobName == name then running[1..]
    else [running[0]] + RemoveFirst(running[1..], name)
  }

  function NextJob(js: JobSet, node: nat): JobSet
    requires js.remaining != []
  {
    js.(remaining := js.remaining[..|js.remaining| - 1],
        running := js.running + [RunningJob(js.remaining[|js.remaining| - 1].name, node)])
  }

  function AddErroredJob(js: JobSet, job: Job): JobSet {
    js.(running := RemoveFirst(js.running, job.name), remaining := js.remaining + [job])
  }

  /** The names of the running jobs, with their multiplicity. */
  function RunningNames(running: seq<RunningJob>): (r: multiset<string>)
    ensures |r| == |running|
  {
    if running == [] then multiset{} else multiset{running[0].jobName} + RunningNames(running[1..])
  }

  lemma {:induction false} RunningNamesAppend(running: seq<RunningJob>, j: RunningJob)
    ensures RunningNames(running + [j]) == RunningNames(running) + multiset{j.jobName}
  {
    if running == [] {
      assert running + [j] == [j];
    } else {
      RunningNamesAppend(running[1..], j);
      assert (running + [j])[1..] == running[1..] + [j];
    }
  }

  /** Removing by name takes away exactly one occurrence of that name, if there is one. */
  lemma {:induction false} RemoveFirstTakesOne(running: seq<RunningJob>, name: string)
    ensures RunningNames(RemoveFirst(running, name)) == RunningNames(running) - multiset{name}
  {
    if running != [] && running[0].jobName != name {
      RemoveFirstTakesOne(running[1..], name);
      var r := RemoveFirst(running[1..], name);
      assert ([running[0]] + r)[1..] == r;
    }
  }

  lemma RemoveFirstCount(running: seq<RunningJob>, name: string, other: string)
    requires RunningNames(running)[name] > 0
    ensures RunningNames(RemoveFirst(running, name))[other]
         == RunningNames(running)[other] - (if other == name then 1 else 0)
  {
    RemoveFirstTakesOne(running, name);
  }

  // ---------------------------------------------------------------- choosing a set

  /** A set this node may be given: work left, requirements met, and never failed to build here. */
  predicate Eligible(s: Sched, id: JobSetIdentifier, caps: set<string>, failures: set<JobSetIdentifier>) {
    id in s.sets && s.sets[id].remaining != [] && s.sets[id].requirements <= caps && id !in failures
  }

  ghost function EligibleIds(s: Sched, gpuOnly: bool, caps: set<string>, failures: set<JobSetIdentifier>)
    : set<JobSetIdentifier>
  {
    set id | id in s.sets && Eligible(s, id, caps, failures) && (gpuOnly ==> GPU in s.sets[id].requirements)
  }

  ghost predicate IsLeast(id: JobSetIdentifier, ids: set<JobSetIdentifier>) {
    id in ids && forall other <- ids :: other == id || Before(id, other)
  }

  lemma {:induction false} LeastExists(ids: set<JobSetIdentifier>)
    requires ids != {}
    ensures exists id :: IsLeast(id, ids)
  {
    var x :| x in ids;
    if ids == {x} {
      assert IsLeast(x, ids);
    } else {
      LeastExists(ids - {x});
      var y :| IsLeast(y, ids - {x});
      var z := if Before(x, y) then x else y;
      forall other <- ids ensures other == z || Before(z, other) {
        assert other == x || other in ids - {x};
      }
      assert IsLeast(z, ids);
    }
  }

  ghost function Least(ids: set<JobSetIdentifier>): (id: JobSetIdentifier)
    requires ids != {}
    ensures IsLeast(id, ids)
  {
    LeastExists(ids);
    var id :| IsLeast(id, ids);
    id
  }

  lemma LeastIsUnique(id: JobSetIdentifier, ids: set<JobSetIdentifier>)
    requires IsLeast(id, ids)
    ensures id == Least(ids)
  {
  }

  // ---------------------------------------------------------------- operations

  function RunNext(s: Sched, id: JobSetIdentifier, node: nat): (Sched, JobResponse)
    requires id in s.sets && s.sets[id].remaining != []
  {
    var js := s.sets[id];
    (s.(sets := s.sets[id := NextJob(js, node)]), Run(id, js.remaining[|js.remaining| - 1]))
  }

  ghost function FetchNewTask(s: Sched, current: JobSetIdentifier, caps: set<string>,
                              failures: set<JobSetIdentifier>, node: nat): (Sched, JobResponse)
  {
    var gpu := EligibleIds(s, true, caps, failures);
    var all := EligibleIds(s, false, caps, failures);
    if gpu != {} then
      if current == Least(gpu) then RunNext(s, current, node) else (s, Build(Least(gpu)))
    else if current !in failures && current in s.sets && s.sets[current].remaining != [] then
      RunNext(s, current, node)
    else if all != {} then (s, Build(Least(all)))
    else (s, EmptyJobs)
  }

  function InsertNewBatch(s: Sched, jobs: Jobs): Sched {
    Sched(s.sets[Identity(s.last + 1) := JobSet(jobs.batchName, jobs.capabilities, jobs.jobs, [])], s.last + 1)
  }

  function AddJobBack(s: Sched, job: Job, id: JobSetIdentifier): Sched {
    if id in s.sets then s.(sets := s.sets[id := AddErroredJob(s.sets[id], job)]) else s
  }

  function FinishJob(s: Sched, id: JobSetIdentifier, name: string): Sched {
    if id !in s.sets then s
    else
      var running := RemoveFirst(s.sets[id].running, name);
      if s.sets[id].remaining == [] && running == [] then s.(sets := s.sets - {id})
      else s.(sets := s.sets[id := s.sets[id].(running := running)])
  }

  /** The remaining jobs go, the set stays: running jobs are still to be reported. */
  function CancelBatch(s: Sched, id: JobSetIdentifier): Sched {
    if id in s.sets then s.(sets := s.sets[id := s.sets[id].(remaining := [])]) else s
  }

  ghost function IdsNamed(s: Sched, name: string): set<JobSetIdentifier> {
    set id | id in s.sets && s.sets[id].batchName == name
  }

  ghost function IdentifierByName(s: Sched, name: string): Option<JobSetIdentifier> {
    if IdsNamed(s, name) == {} then None else Some(Least(IdsNamed(s, name)))
  }

  /** What a user is told about one job set. */
  datatype RemainingJobs = RemainingJobs(batchName: string, jobsLeft: seq<string>, running: seq<RunningJob>)

  function Describe(js: JobSet): RemainingJobs {
    RemainingJobs(js.batchName, seq(|js.remaining|, k requires 0 <= k < |js.remaining| => js.remaining[k].name), js.running)
  }

  /** The sets up to identifier `n`, described in key order. */
  function Described(s: Sched, n: nat): seq<RemainingJobs> {
    if n == 0 then []
    else Described(s, n - 1) + (if Identity(n) in s.sets then [Describe(s.sets[Identity(n)])] else [])
  }

  ghost function IdsUpTo(s: Sched, n: nat): set<JobSetIdentifier> {
    set id | id in s.sets && id.Identity? && 1 <= id.number <= n
  }

  lemma IdsUpToStep(s: Sched, n: nat)
    requires n > 0
    ensures |IdsUpTo(s, n)| == |IdsUpTo(s, n - 1)| + (if Identity(n) in s.sets then 1 else 0)
  {
    var fewer := IdsUpTo(s, n - 1);
    assert IdsUpTo(s, n) == if Identity(n) in s.sets then fewer + {Identity(n)} else fewer;
  }

  lemma {:induction false} DescribedUpTo(s: Sched, n: nat)
    ensures |Described(s, n)| == |IdsUpTo(s, n)|
  {
    if n == 0 {
      assert IdsUpTo(s, 0) == {};
    } else {
      DescribedUpTo(s, n - 1);
      IdsUpToStep(s, n);
    }
  }

  lemma {:induction false} DescribedAt(s: Sched, n: nat, k: nat)
    requires 1 <= k <= n && Identity(k) in s.sets
    ensures var i := |IdsUpTo(s, k - 1)|;
            i < |Described(s, n)| && Described(s, n)[i] == Describe(s.sets[Identity(k)])
  {
    if k == n {
      DescribedUpTo(s, n - 1);
    } else {
      DescribedAt(s, n - 1, k);
    }
  }

  /** An entry tells the name of its set, the names of the jobs left, in order, and every running job with its node. */
  ghost predicate Tells(r: RemainingJobs, js: JobSet) {
    && r.batchName == js.batchName && r.running == js.running
    && |r.jobsLeft| == |js.remaining| && forall k :: 0 <= k < |r.jobsLeft| ==> r.jobsLeft[k] == js.remaining[k].name
  }

  /** One entry for each set, and the entry of a set is at the place its identifier has among the keys. */
  ghost predicate TellsAll(told: seq<RemainingJobs>, s: Sched) {
    && |told| == |s.sets|
    && forall id <- s.sets ::
         id.Identity? && id.number > 0
         && var i := |IdsUpTo(s, id.number - 1)|; i < |told| && Tells(told[i], s.sets[id])
  }

  /** Every set in the map is described once, behind those with smaller identifiers. */
  lemma DescribedInOrder(s: Sched)
    requires s.Valid()
    ensures TellsAll(Described(s, s.last), s)
  {
    DescribedUpTo(s, s.last);
    assert IdsUpTo(s, s.last) == s.sets.Keys;
    forall id <- s.sets
      ensures var i := |IdsUpTo(s, id.number - 1)|;
              i < |s.sets| && Tells(Described(s, s.last)[i], s.sets[id])
    {
      DescribedAt(s, s.last, id.number);
    }
  }

  /** GPU sets before the others, and by identifier within each kind. */
  predicate Earlier(s: Sched, a: JobSetIdentifier, b: JobSetIdentifier)
    requires a in s.sets && b in s.sets
  {
    var ga, gb := GPU in s.sets[a].requirements, GPU in s.sets[b].requirements;
    (ga && !gb) || (ga == gb && Before(a, b))
  }

  // ---------------------------------------------------------------- policy

  /**
   What a node compiled is either nothing or a set whose requirements it meets.  The cluster
   invariant establishes this for every request a node ever sends.
   */
  predicate CompiledAllowed(s: Sched, current: JobSetIdentifier, caps: set<string>) {
    current in s.sets ==> s.sets[current].requirements <= caps
  }

  /**
   Work conservation: a node is sent away empty-handed exactly when no set is eligible for it.
   */
  lemma EmptyJobsIffNothingEligible(s: Sched, current: JobSetIdentifier, caps: set<string>,
                                    failures: set<JobSetIdentifier>, node: nat)
    requires CompiledAllowed(s, current, caps)
    ensures FetchNewTask(s, current, caps, failures, node).1.EmptyJobs?
       <==> forall id <- s.sets :: !Eligible(s, id, caps, failures)
  {
    var all := EligibleIds(s, false, caps, failures);
    var gpu := EligibleIds(s, true, caps, failures);
    forall id <- s.sets ensures id in all <==> Eligible(s, id, caps, failures) {}
    assert gpu <= all;
    if all != {} {
      assert Least(all) in s.sets;
    }
  }

  /**
   Priority: whatever set the answer names is eligible, and it is the least GPU set if there is
   an eligible one; failing that the set already compiled; failing that the least set of all.
   The node is told to compile exactly when the chosen set is not the one it has compiled.
   */
  lemma FetchPriority(s: Sched, current: JobSetIdentifier, caps: set<string>,
                      failures: set<JobSetIdentifier>, node: nat)
    requires CompiledAllowed(s, current, caps)
    ensures var r := FetchNewTask(s, current, caps, failures, node).1;
            !r.EmptyJobs? ==>
              && Eligible(s, r.ident, caps, failures)
              && (r.Run? <==> r.ident == current)
              && (forall id :: Eligible(s, id, caps, failures) && Before(id, r.ident) ==>
                    || (GPU in s.sets[r.ident].requirements && GPU !in s.sets[id].requirements)
                    || (r.ident == current && GPU !in s.sets[id].requirements))
              && (forall id :: Eligible(s, id, caps, failures) && GPU in s.sets[id].requirements ==>
                    GPU in s.sets[r.ident].requirements)
              && (Eligible(s, current, caps, failures) && r.ident != current ==> GPU in s.sets[r.ident].requirements)
  {
    var all := EligibleIds(s, false, caps, failures);
    var gpu := EligibleIds(s, true, caps, failures);
    assert forall id :: id in all <==> Eligible(s, id, caps, failures);
    assert forall id :: id in gpu <==> Eligible(s, id, caps, failures) && GPU in s.sets[id].requirements;
    if current in s.sets && s.sets[current].remaining != [] && current !in failures {
      assert current in all;
    }
  }

  /**
   The two answers a node task treats as a bug never come: a node that compiled nothing is not
   told to run, and a node is not told to compile what it has compiled.
   */
  lemma AnswerFitsTheAsker(s: Sched, current: JobSetIdentifier, caps: set<string>,
                           failures: set<JobSetIdentifier>, node: nat)
    requires s.Valid()
    ensures var r := FetchNewTask(s, current, caps, failures, node).1;
            && (r.Run? ==> r.ident == current && current != NoSet)
            && (r.Build? ==> r.ident != current && Eligible(s, r.ident, caps, failures) && r.ident != NoSet)
  {
    var all := EligibleIds(s, false, caps, failures);
    var gpu := EligibleIds(s, true, caps, failures);
    assert forall id :: id in all <==> Eligible(s, id, caps, failures);
    assert forall id :: id in gpu <==> Eligible(s, id, caps, failures) && GPU in s.sets[id].requirements;
  }

  /** The last remaining job of one set becomes its newest running job, noted with the node; nothing else changes. */
  ghost predicate HandsOut(s: Sched, t: Sched, id: JobSetIdentifier, job: Job, node: nat) {
    && id in s.sets && id in t.sets && t.last == s.last && t.sets.Keys == s.sets.Keys
    && s.sets[id].remaining == t.sets[id].remaining + [job]
    && t.sets[id].running == s.sets[id].running + [RunningJob(job.name, node)]
    && t.sets[id].batchName == s.sets[id].batchName && t.sets[id].requirements == s.sets[id].requirements
    && forall other <- s.sets :: other != id ==> t.sets[other] == s.sets[other]
  }

  lemma RunNextHandsOut(s: Sched, id: JobSetIdentifier, node: nat)
    requires id in s.sets && s.sets[id].remaining != []
    ensures var (t, r) := RunNext(s, id, node); r.Run? && r.ident == id && HandsOut(s, t, id, r.job, node)
  {
    var js := s.sets[id];
    assert js.remaining == js.remaining[..|js.remaining| - 1] + [js.remaining[|js.remaining| - 1]];
  }

  /** Removing by name undoes noting a job under a name that was not running. */
  lemma {:induction false} RemoveFirstUndoesAppend(running: seq<RunningJob>, j: RunningJob)
    requires forall k :: 0 <= k < |running| ==> running[k].jobName != j.jobName
    ensures RemoveFirst(running + [j], j.jobName) == running
  {
    if running == [] {
      assert (running + [j])[1..] == [];
    } else {
      RemoveFirstUndoesAppend(running[1..], j);
      assert (running + [j])[1..] == running[1..] + [j];
    }
  }

  /** Giving a job back undoes handing it out, whichever node had it, if no other job of its name is running. */
  lemma ReturnUndoesHandOut(s: Sched, t: Sched, id: JobSetIdentifier, job: Job, node: nat)
    requires HandsOut(s, t, id, job, node)
    requires forall k :: 0 <= k < |s.sets[id].running| ==> s.sets[id].running[k].jobName != job.name
    ensures AddJobBack(t, job, id) == s
  {
    RemoveFirstUndoesAppend(s.sets[id].running, RunningJob(job.name, node));
    assert AddErroredJob(t.sets[id], job) == s.sets[id];
    assert AddJobBack(t, job, id).sets == s.sets;
  }

  /**
   Fetching either leaves the scheduler alone or hands out the last remaining job of the set the asker
   has compiled, noted with the asker.
   */
  lemma FetchEffect(s: Sched, current: JobSetIdentifier, caps: set<string>,
                    failures: set<JobSetIdentifier>, node: nat)
    ensures var (t, r) := FetchNewTask(s, current, caps, failures, node);
            if r.Run? then
              && r.ident in s.sets && s.sets[r.ident].remaining != []
              && r.ident == current && r.ident !in failures
              && (t, r) == RunNext(s, r.ident, node)
              && HandsOut(s, t, current, r.job, node)
            else
              t == s
  {
    var gpu := EligibleIds(s, true, caps, failures);
    if gpu != {} {
      assert Least(gpu) in gpu;
    }
    if FetchNewTask(s, current, caps, failures, node).1.Run? {
      RunNextHandsOut(s, current, node);
    }
  }

  /** `NoSet` stays out of the map and identifiers stay within what was handed out. */
  lemma OperationsKeepValid(s: Sched, id: JobSetIdentifier, job: Job, jobs: Jobs, caps: set<string>,
                            failures: set<JobSetIdentifier>, node: nat)
    requires s.Valid()
    ensures FetchNewTask(s, id, caps, failures, node).0.Valid()
    ensures InsertNewBatch(s, jobs).Valid() && Identity(s.last + 1) !in s.sets
    ensures AddJobBack(s, job, id).Valid() && FinishJob(s, id, job.name).Valid() && CancelBatch(s, id).Valid()
  {
    FetchEffect(s, id, caps, failures, node);
  }
}
