/**
 Exactly when the running list can be trusted: for a batch whose jobs all have different names it
 always names the node that has a job; for any other batch there is a run in which it does not.
 */
module ClusterTwins {
  import opened Types
  import opened JobPool
  import opened Cluster
  import opened ClusterInvariant
  import opened ClusterTheorems
  import opened ClusterRuns
  import opened ClusterNotes
  import opened ClusterWitnesses
  import Schedule
  import Node

  // ---------------------------------------------------------------- one of several nodes

  lemma MovesOne(s: State, i: nat, e: Node.Event) returns (t: State)
    requires Reachable(s) && i < |s.nodes| && Node.Step(s.nodes[i], i, e).leak.None?
    ensures Reachable(t)
    ensures var m := Node.Step(s.nodes[i], i, e); t == s.(nodes := s.nodes[i := m.node], queue := s.queue + m.sends)
  {
    t := Apply(s, NodeMoves(i, e));
    StepReaches(s, NodeMoves(i, e));
  }

  /** The same state with one node in another phase. */
  function InPhase(s: State, i: nat, phase: Node.Phase): State
    requires i < |s.nodes|
  {
    s.(nodes := s.nodes[i := s.nodes[i].(phase := phase)])
  }

  lemma SamePhase(s: State, i: nat)
    requires i < |s.nodes|
    ensures InPhase(s, i, s.nodes[i].phase) == s
  {
    assert s.nodes[i := s.nodes[i]] == s.nodes;
  }

  /** An event with which a node sends nothing to the pool. */
  lemma MovesOn(s: State, i: nat, from: Node.Phase, e: Node.Event, phase: Node.Phase)
    requires i < |s.nodes| && Reachable(InPhase(s, i, from))
    requires var n := s.nodes[i].(phase := from); Node.Step(n, i, e) == Node.Goto(n, phase)
    ensures Reachable(InPhase(s, i, phase))
  {
    var t := MovesOne(InPhase(s, i, from), i, e);
    assert s.queue + [] == s.queue;
    assert t == InPhase(s, i, phase);
  }

  /** The answer to a node which asks while there is one set in the map, and that one it could do. */
  lemma AsksOne(s: State, i: nat, id: JobSetIdentifier) returns (t: State)
    requires Reachable(s) && s.queue == [] && i < |s.nodes| && CouldDo(s, s.nodes[i], id) && s.sched.sets.Keys == {id}
    requires s.nodes[i].phase == Node.PrepareBuild || s.nodes[i].phase == Node.Built(id)
    ensures Reachable(t)
    ensures var (sched, reply) := Schedule.RunNext(s.sched, id, i);
            t == if s.nodes[i].phase.Built?
                 then InPhase(s.(sched := sched), i, Node.JobAssigned(id, reply.job))
                 else InPhase(s, i, Node.BuildAssigned(id))
  {
    var u := MovesOne(s, i, Node.KeepaliveAnswered);
    assert u.queue == [Node.Request(s.nodes[i], i)];
    OnlySetIsAnswered(u, id);
    t := Apply(u, PoolServes);
    StepReaches(u, PoolServes);
    assert t.nodes == s.nodes[i := t.nodes[i]];
  }

  lemma OnlySetIsAnswered(s: State, id: JobSetIdentifier)
    requires Reachable(s) && |s.queue| == 1 && s.queue[0].NewJob? && s.sched.sets.Keys == {id}
    requires s.queue[0].node < |s.nodes| && CouldDo(s, s.nodes[s.queue[0].node], id)
    ensures Answers(s, Served(s), s.queue[0].node, Reply(s))
    ensures !Reply(s).EmptyJobs? && Reply(s).ident == id
    ensures Reply(s).Run? <==> Node.AssignedSet(s.nodes[s.queue[0].node].phase) == Some(id)
  {
    ReachableInv(s);
    NoNodeIdlesWithWork(s);
    ServedAnswers(s);
    assert CouldDo(s, s.nodes[s.queue[0].node], Reply(s).ident);
  }

  /** A fresh node connects and builds the one set there is. */
  lemma Builds(s: State, i: nat, id: JobSetIdentifier)
    requires Reachable(s) && s.queue == [] && i < |s.nodes| && s.nodes[i].phase == Node.Uninit
    requires CouldDo(s, s.nodes[i], id) && s.sched.sets.Keys == {id}
    ensures Reachable(InPhase(s, i, Node.Built(id)))
  {
    SamePhase(s, i);
    MovesOn(s, i, Node.Uninit, Node.Connected, Node.PrepareBuild);
    var u := AsksOne(InPhase(s, i, Node.PrepareBuild), i, id);
    assert u == InPhase(s, i, Node.BuildAssigned(id));
    Compiles(s, i, id);
  }

  lemma Compiles(s: State, i: nat, id: JobSetIdentifier)
    requires i < |s.nodes| && Reachable(InPhase(s, i, Node.BuildAssigned(id)))
    ensures Reachable(InPhase(s, i, Node.Built(id)))
  {
    MovesOn(s, i, Node.BuildAssigned(id), Node.Sent, Node.SendingBuild(id));
    MovesOn(s, i, Node.SendingBuild(id), Node.Sent, Node.Building(id));
    MovesOn(s, i, Node.Building(id), Node.Compiled(true), Node.Built(id));
  }

  lemma RunsJob(s: State, i: nat, id: JobSetIdentifier, job: Job)
    requires i < |s.nodes| && Reachable(InPhase(s, i, Node.JobAssigned(id, job)))
    ensures Reachable(InPhase(s, i, Node.ReceivingResults(id, job)))
  {
    MovesOn(s, i, Node.JobAssigned(id, job), Node.Sent, Node.SendingJob(id, job));
    MovesOn(s, i, Node.SendingJob(id, job), Node.Sent, Node.Executing(id, job, false));
    MovesOn(s, i, Node.Executing(id, job, false), Node.Reported(Successful), Node.ReceivingResults(id, job));
  }

  /** It runs it to its end and reports it. */
  lemma ReportsJob(s: State, i: nat, id: JobSetIdentifier, job: Job) returns (t: State)
    requires Reachable(s) && s.queue == [] && i < |s.nodes| && s.nodes[i].phase == Node.JobAssigned(id, job)
    ensures Reachable(t) && t == InPhase(s, i, Node.Built(id)).(queue := [FinishJob(id, job)])
  {
    SamePhase(s, i);
    RunsJob(s, i, id, job);
    t := MovesOne(InPhase(s, i, Node.ReceivingResults(id, job)), i, Node.ResultsReceived);
    assert t.nodes == InPhase(s, i, Node.Built(id)).nodes;
  }

  // ---------------------------------------------------------------- one batch and two nodes

  /** Any node may do the one batch; its first `k` jobs are waiting. */
  ghost predicate Stands(s: State, jobs: seq<Job>, k: nat, running: seq<RunningJob>) {
    && Reachable(s) && s.queue == [] && k <= |jobs|
    && s.sched.sets.Keys == {FIRST} && s.sched.sets[FIRST] == JobSet("", {}, jobs[..k], running)
    && FIRST in s.books && s.books[FIRST].initial == jobs
    && |s.nodes| == 2 && s.nodes[0].errored == {} && s.nodes[1].errored == {}
  }

  lemma BatchStands(jobs: seq<Job>) returns (s: State)
    ensures Stands(s, jobs, |jobs|, []) && s.nodes[0].phase == Node.Uninit && s.nodes[1].phase == Node.Uninit
  {
    var none: seq<Event> := [];
    s := Init([{}, {}]);
    assert s == RunFrom(Init([{}, {}]), none);
    s := Enqueues(s, UserSubmits(Jobs("", {}, jobs)), AddJobSet(Jobs("", {}, jobs)));
    assert s.queue == [AddJobSet(Jobs("", {}, jobs))];
    StepReaches(s, PoolServes);
    s := Apply(s, PoolServes);
    assert jobs[..|jobs|] == jobs;
  }

  lemma BothBuilt(jobs: seq<Job>) returns (s: State)
    requires jobs != []
    ensures Stands(s, jobs, |jobs|, []) && s.nodes[0].phase == Node.Built(FIRST) && s.nodes[1].phase == Node.Built(FIRST)
  {
    s := BatchStands(jobs);
    Builds(s, 0, FIRST);
    s := InPhase(s, 0, Node.Built(FIRST));
    Builds(s, 1, FIRST);
    s := InPhase(s, 1, Node.Built(FIRST));
  }

  /** A node that has built the set is given its last job. */
  lemma Takes(s: State, i: nat, jobs: seq<Job>, k: nat, running: seq<RunningJob>) returns (t: State)
    requires Stands(s, jobs, k, running) && k > 0 && i < 2 && s.nodes[i].phase == Node.Built(FIRST)
    ensures Stands(t, jobs, k - 1, running + [RunningJob(jobs[k - 1].name, i)])
    ensures t.nodes == s.nodes[i := s.nodes[i].(phase := Node.JobAssigned(FIRST, jobs[k - 1]))]
  {
    t := AsksOne(s, i, FIRST);
    assert jobs[..k][..k - 1] == jobs[..k - 1];
  }

  /** And reports it; the first running entry of its name goes. */
  lemma Reports(s: State, i: nat, jobs: seq<Job>, k: nat, running: seq<RunningJob>, job: Job) returns (t: State)
    requires Stands(s, jobs, k, running) && i < 2 && s.nodes[i].phase == Node.JobAssigned(FIRST, job)
    requires k > 0 || Schedule.RemoveFirst(running, job.name) != []
    ensures Stands(t, jobs, k, Schedule.RemoveFirst(running, job.name))
    ensures t.nodes == s.nodes[i := s.nodes[i].(phase := Node.Built(FIRST))]
  {
    t := ReportsJob(s, i, FIRST, job);
    StepReaches(t, PoolServes);
    t := Apply(t, PoolServes);
  }

  /** A node works the jobs off from the back, down to the first `n`, while none of their names is running. */
  lemma {:induction false} WorksOff(s: State, i: nat, jobs: seq<Job>, k: nat, n: nat, running: seq<RunningJob>) returns (t: State)
    requires Stands(s, jobs, k, running) && 0 < n <= k && i < 2 && s.nodes[i].phase == Node.Built(FIRST)
    requires forall j, r :: n <= j < k && 0 <= r < |running| ==> running[r].jobName != jobs[j].name
    ensures Stands(t, jobs, n, running) && t.nodes == s.nodes
    decreases k
  {
    if n == k {
      t := s;
    } else {
      var job := jobs[k - 1];
      t := Takes(s, i, jobs, k, running);
      t := Reports(t, i, jobs, k - 1, running + [RunningJob(job.name, i)], job);
      Schedule.RemoveFirstUndoesAppend(running, RunningJob(job.name, i));
      assert t.nodes == s.nodes;
      t := WorksOff(t, i, jobs, k - 1, n, running);
    }
  }

  /** Two jobs of one name with none of that name between them. */
  ghost predicate Twins(jobs: seq<Job>, p: nat, q: nat) {
    && p < q < |jobs| && jobs[p].name == jobs[q].name
    && forall j :: p < j < q ==> jobs[j].name != jobs[q].name
  }

  lemma {:induction false} TwinsWithin(jobs: seq<Job>, j: nat, k: nat) returns (p: nat)
    requires j < k < |jobs| && jobs[j].name == jobs[k].name
    ensures Twins(jobs, p, k)
    decreases k - j
  {
    if between :| j < between < k && jobs[between].name == jobs[k].name {
      p := TwinsWithin(jobs, between, k);
    } else {
      p := j;
    }
  }

  lemma TwinsAreOut(jobs: seq<Job>, p: nat, q: nat) returns (s: State)
    requires Twins(jobs, p, q)
    ensures Stands(s, jobs, p, [RunningJob(jobs[q].name, 0), RunningJob(jobs[q].name, 1)])
    ensures s.nodes[0].phase == Node.JobAssigned(FIRST, jobs[q]) && s.nodes[1].phase == Node.JobAssigned(FIRST, jobs[p])
  {
    var first, second := RunningJob(jobs[q].name, 0), RunningJob(jobs[q].name, 1);
    s := BothBuilt(jobs);
    s := WorksOff(s, 0, jobs, |jobs|, q + 1, []);
    s := Takes(s, 0, jobs, q + 1, []);
    assert [] + [first] == [first] && [first] + [second] == [first, second];
    s := WorksOff(s, 1, jobs, q, p + 1, [first]);
    s := Takes(s, 1, jobs, p + 1, [first]);
  }

  /**
   With two jobs of one name the running list can name the wrong node: both are out, the second node
   reports its own, and the entry that goes is the first node's.
   */
  lemma TwinsMislead(jobs: seq<Job>, p: nat, q: nat) returns (s: State)
    requires Twins(jobs, p, q)
    ensures Stands(s, jobs, p, [RunningJob(jobs[q].name, 1)]) && OnNode(s, 0, FIRST, jobs[q])
  {
    var running := [RunningJob(jobs[q].name, 0), RunningJob(jobs[q].name, 1)];
    assert running[1..] == [RunningJob(jobs[q].name, 1)];
    s := TwinsAreOut(jobs, p, q);
    s := Reports(s, 1, jobs, p, running, jobs[p]);
  }

  // ---------------------------------------------------------------- exactly when

  /** The scheduler notes the job as running on this node and no other. */
  ghost predicate NotedRight(s: State, i: nat, id: JobSetIdentifier, job: Job) {
    id in s.sched.sets && forall k :: RunningJob(job.name, k) in s.sched.sets[id].running <==> k == i
  }

  /** In every run, whenever a job of a batch of these jobs is on a node, that node is the one noted. */
  ghost predicate AlwaysNotedRight(jobs: seq<Job>) {
    forall s, i: nat, id, job ::
      Reachable(s) && id in s.books && s.books[id].initial == jobs && OnNode(s, i, id, job) ==> NotedRight(s, i, id, job)
  }

  /** What users are told about running jobs is right in every run exactly if no two jobs of the batch share a name. */
  lemma RunningListIsRightIff(jobs: seq<Job>)
    ensures AlwaysNotedRight(jobs) <==> DistinctNames(jobs)
  {
    if DistinctNames(jobs) {
      forall s, i: nat, id, job | Reachable(s) && id in s.books && s.books[id].initial == jobs && OnNode(s, i, id, job)
        ensures NotedRight(s, i, id, job)
      {
        RunningListNamesTheNode(s, i, id, job);
      }
    } else {
      var j, k :| 0 <= j < k < |jobs| && jobs[j].name == jobs[k].name;
      var p := TwinsWithin(jobs, j, k);
      var s := TwinsMislead(jobs, p, k);
      assert RunningJob(jobs[k].name, 0) !in s.sched.sets[FIRST].running;
      assert !NotedRight(s, 0, FIRST, jobs[k]);
    }
  }

  lemma {:induction false} NameTwice(jobs: seq<Job>, j: nat, k: nat)
    requires j < k < |jobs| && jobs[j].name == jobs[k].name
    ensures Tally(jobs, ByName(jobs[j].name)) >= 2
  {
    var n := |jobs| - 1;
    if k == n {
      NameOnce(jobs[..n], j);
    } else {
      NameTwice(jobs[..n], j, k);
    }
  }

  lemma {:induction false} NameOnce(jobs: seq<Job>, j: nat)
    requires j < |jobs|
    ensures Tally(jobs, ByName(jobs[j].name)) >= 1
  {
    var n := |jobs| - 1;
    if j < n {
      NameOnce(jobs[..n], j);
    }
  }

  /**
   The client's check of a batch before it submits it: for each job, how many have its name.  A batch
   passes exactly if the running list will be right about it in every run.
   */
  method CheckHasDuplicates(jobs: seq<Job>) returns (duplicate: Option<string>)
    ensures duplicate.None? <==> AlwaysNotedRight(jobs)
    ensures duplicate.Some? ==> exists j, k :: 0 <= j < k < |jobs| && jobs[j].name == jobs[k].name == duplicate.value
  {
    RunningListIsRightIff(jobs);
    for i := 0 to |jobs|
      invariant forall j :: 0 <= j < i ==> Tally(jobs, ByName(jobs[j].name)) <= 1
    {
      var count := 0;
      for j := 0 to |jobs|
        invariant count == Tally(jobs[..j], ByName(jobs[i].name))
      {
        assert jobs[..j + 1][..j] == jobs[..j];
        if jobs[j].name == jobs[i].name {
          count := count + 1;
        }
      }
      assert jobs[..|jobs|] == jobs;
      if count > 1 {
        CountedTwice(jobs, jobs[i].name);
        return Some(jobs[i].name);
      }
    }
    forall j, k | 0 <= j < k < |jobs| ensures jobs[j].name != jobs[k].name {
      if jobs[j].name == jobs[k].name {
        NameTwice(jobs, j, k);
      }
    }
    return None;
  }

  lemma {:induction false} CountedTwice(jobs: seq<Job>, name: string)
    requires Tally(jobs, ByName(name)) > 1
    ensures exists j, k :: 0 <= j < k < |jobs| && jobs[j].name == jobs[k].name == name
  {
    var n := |jobs| - 1;
    if jobs[n].name != name || Tally(jobs[..n], ByName(name)) > 1 {
      CountedTwice(jobs[..n], name);
      var j, k :| 0 <= j < k < n && jobs[..n][j].name == jobs[..n][k].name == name;
      assert jobs[j].name == jobs[k].name == name;
    } else if j :| 0 <= j < n && jobs[j].name == name {
      assert jobs[j].name == jobs[n].name == name;
    } else {
      NoneOfThatName(jobs[..n], name);
    }
  }
}
