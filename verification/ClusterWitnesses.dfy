/**
 Runs that lead to the states in which the server falls short of what its comments say: an emptied
 set that stays, one that takes the cancellations of its name, a leaked job, and a cancelled job
 that is handed out again.  One node and one or two batches are enough for each.
 */
module ClusterWitnesses {
  import opened Types
  import opened JobPool
  import opened Cluster
  import opened ClusterInvariant
  import opened ClusterTheorems
  import opened ClusterRuns
  import opened ClusterDrops
  import Schedule
  import Node

  const FIRST := Identity(1)
  const SECOND := Identity(2)

  function SetOf(jobs: Jobs): JobSet {
    JobSet(jobs.batchName, jobs.capabilities, jobs.jobs, [])
  }

  // ---------------------------------------------------------------- single events

  lemma Moves(s: State, n: Node.Node, e: Node.Event) returns (t: State)
    requires Reachable(s) && s.nodes == [n] && Node.Step(n, 0, e).leak.None?
    ensures Reachable(t)
    ensures t == s.(nodes := [Node.Step(n, 0, e).node], queue := s.queue + Node.Step(n, 0, e).sends)
  {
    t := Apply(s, NodeMoves(0, e));
    StepReaches(s, NodeMoves(0, e));
    assert [n][0 := Node.Step(n, 0, e).node] == [Node.Step(n, 0, e).node];
  }

  lemma Enqueues(s: State, ev: Event, req: JobRequest) returns (t: State)
    requires Reachable(s)
    requires (ev.UserSubmits? && req == AddJobSet(ev.jobs)) || (ev.UserCancels? && req == CancelBatchByName(ev.batchName))
    ensures Reachable(t) && t == s.(queue := s.queue + [req])
  {
    t := Apply(s, ev);
    StepReaches(s, ev);
  }

  /** A fresh server with one node is given a batch. */
  lemma Submitted(caps: set<string>, jobs: Jobs) returns (s: State)
    ensures Reachable(s)
    ensures s == State(Schedule.Sched(map[FIRST := SetOf(jobs)], 1), [], [Node.Node(caps, {}, Node.Uninit, [])],
                       map[FIRST := Account(jobs.capabilities, jobs.jobs, [], [], [])], {})
  {
    var none: seq<Event> := [];
    s := Init([caps]);
    assert s == RunFrom(Init([caps]), none);
    assert s.nodes == [Node.Node(caps, {}, Node.Uninit, [])];
    s := Enqueues(s, UserSubmits(jobs), AddJobSet(jobs));
    assert s.queue == [AddJobSet(jobs)];
    StepReaches(s, PoolServes);
    s := Apply(s, PoolServes);
  }

  /** A cancellation by name is served while `id` is the set it resolves to. */
  lemma CancelServed(s: State, n: Node.Node, id: JobSetIdentifier) returns (t: State)
    requires Reachable(s) && s.nodes == [n] && s.queue != [] && CancelsNext(s, id) && id in s.books && id in s.sched.sets
    ensures Reachable(t)
    ensures t == State(Schedule.CancelBatch(s.sched, id), s.queue[1..], [Hears(n, id)],
                       s.books[id := s.books[id].(cancelled := s.books[id].cancelled + s.sched.sets[id].remaining)],
                       s.cancels + {id})
  {
    t := Apply(s, PoolServes);
    StepReaches(s, PoolServes);
    assert t.nodes == [Hears(n, id)];
  }

  /** With one set in the map its name resolves to it. */
  lemma OnlyNameResolves(s: Schedule.Sched, id: JobSetIdentifier)
    requires s.sets.Keys == {id}
    ensures Schedule.IdentifierByName(s, s.sets[id].batchName) == Some(id)
  {
    assert Schedule.IdsNamed(s, s.sets[id].batchName) == {id};
  }

  /** With one set in the map that a node could do, the node is told to build it, or to run its last job. */
  lemma OnlySetIsGiven(s: State, n: Node.Node, c: JobSetIdentifier, id: JobSetIdentifier) returns (t: State)
    requires Reachable(s) && s.nodes == [n] && s.queue == [NewJob(0, c, n.caps, n.errored)]
    requires s.sched.sets.Keys == {id} && CouldDo(s, n, id)
    ensures Reachable(t)
    ensures t == if c == id
                 then s.(sched := Schedule.RunNext(s.sched, id, 0).0, queue := [],
                         nodes := [Node.Receive(n, Schedule.RunNext(s.sched, id, 0).1)])
                 else s.(queue := [], nodes := [Node.Receive(n, Build(id))])
  {
    ReachableInv(s);
    NoNodeIdlesWithWork(s);
    var r := s.queue[0];
    Schedule.FetchEffect(s.sched, c, n.caps, n.errored, 0);
    Schedule.AnswerFitsTheAsker(s.sched, c, n.caps, n.errored, 0);
    assert CouldDo(s, n, Reply(s).ident) && Reply(s).ident == id;
    assert Reply(s).Run? <==> c == id by {
      assert RequestOk(s, r);
    }
    t := Apply(s, PoolServes);
    StepReaches(s, PoolServes);
    assert t.nodes == [Node.Receive(n, Reply(s))];
  }

  // ---------------------------------------------------------------- an emptied set that stays

  /** A batch that is cancelled before any node asked for it is never dropped. */
  lemma IdleIsReachable(caps: set<string>, jobs: Jobs) returns (s: State)
    ensures Reachable(s) && Idle(s, FIRST) && FIRST in s.cancels && s.sched.last == 1 && s.queue == []
    ensures s.sched.sets == map[FIRST := SetOf(jobs).(remaining := [])] && s.books.Keys == {FIRST}
    ensures s.nodes == [Node.Node(caps, {}, Node.Uninit, [FIRST])]
    ensures forall events :: Idle(RunFrom(s, events), FIRST)
  {
    s := Submitted(caps, jobs);
    s := Enqueues(s, UserCancels(jobs.batchName), CancelBatchByName(jobs.batchName));
    OnlyNameResolves(s.sched, FIRST);
    var n := Node.Node(caps, {}, Node.Uninit, []);
    s := CancelServed(s, n, FIRST);
    assert Hears(n, FIRST).tokens == [FIRST];
    HoldsNothing(s, FIRST);
    ReachableInv(s);
    forall events ensures Idle(RunFrom(s, events), FIRST) {
      IdleForever(s, events, FIRST);
    }
  }

  lemma HoldsNothing(s: State, id: JobSetIdentifier)
    requires |s.nodes| == 1 && Node.HeldJob(s.nodes[0].phase).None? && s.queue == []
    ensures forall k :: Outstanding(s, id, k) == 0
  {
    forall k ensures Outstanding(s, id, k) == 0 {
      assert s.nodes[1..] == [] && Held([], id, k) == 0;
    }
  }

  /**
   Then the same batch is submitted again and cancelled by its name: the cancellation takes the old,
   empty set and leaves all jobs of the new one waiting.
   */
  lemma ShadowIsReachable(caps: set<string>, jobs: Jobs) returns (s: State)
    ensures Reachable(s) && CancelsNext(s, FIRST) && s.queue[0].batchName == jobs.batchName
    ensures s.sched.sets.Keys == {FIRST, SECOND} && s.sched.sets[SECOND] == SetOf(jobs)
    ensures Reachable(Served(s)) && SECOND in Served(s).sched.sets && Served(s).sched.sets[SECOND].remaining == jobs.jobs
  {
    s := IdleIsReachable(caps, jobs);
    s := Enqueues(s, UserSubmits(jobs), AddJobSet(jobs));
    assert s.queue == [AddJobSet(jobs)];
    StepReaches(s, PoolServes);
    s := Apply(s, PoolServes);
    assert s.queue == [] && s.sched.sets.Keys == {FIRST, SECOND};
    s := Enqueues(s, UserCancels(jobs.batchName), CancelBatchByName(jobs.batchName));
    var named := Schedule.IdsNamed(s.sched, jobs.batchName);
    assert named == {FIRST, SECOND};
    assert Schedule.IsLeast(FIRST, named);
    Schedule.LeastIsUnique(FIRST, named);
    StepReaches(s, PoolServes);
  }

  // ---------------------------------------------------------------- jobs on their way

  /** A node connects and is told to build the only batch. */
  lemma BuildIsAssigned(caps: set<string>, jobs: Jobs) returns (s: State)
    requires jobs.jobs != [] && jobs.capabilities <= caps
    ensures Reachable(s)
    ensures s == State(Schedule.Sched(map[FIRST := SetOf(jobs)], 1), [],
                       [Node.Node(caps, {}, Node.BuildAssigned(FIRST), [])],
                       map[FIRST := Account(jobs.capabilities, jobs.jobs, [], [], [])], {})
  {
    var n := Node.Node(caps, {}, Node.Uninit, []);
    s := Submitted(caps, jobs);
    s := Moves(s, n, Node.Connected);
    s := Moves(s, n.(phase := Node.PrepareBuild), Node.KeepaliveAnswered);
    assert s.queue == [NewJob(0, NoSet, caps, {})];
    s := OnlySetIsGiven(s, n.(phase := Node.AwaitBuild), NoSet, FIRST);
  }

  /** It builds it and is told to run its last job. */
  lemma JobIsAssigned(caps: set<string>, jobs: Jobs) returns (s: State)
    requires jobs.jobs != [] && jobs.capabilities <= caps
    ensures Reachable(s) && s.queue == [] && s.cancels == {}
    ensures s.sched == Schedule.RunNext(Schedule.Sched(map[FIRST := SetOf(jobs)], 1), FIRST, 0).0
    ensures s.books == map[FIRST := Account(jobs.capabilities, jobs.jobs, [], [], [])]
    ensures s.nodes == [Node.Node(caps, {}, Node.JobAssigned(FIRST, jobs.jobs[|jobs.jobs| - 1]), [])]
  {
    var n := Node.Node(caps, {}, Node.Uninit, []);
    s := BuildIsAssigned(caps, jobs);
    s := BuildsIt(s, n);
    s := OnlySetIsGiven(s, n.(phase := Node.AwaitTask(FIRST)), FIRST, FIRST);
  }

  lemma BuildsIt(s: State, n: Node.Node) returns (t: State)
    requires Reachable(s) && s.queue == [] && s.nodes == [n.(phase := Node.BuildAssigned(FIRST))]
    ensures Reachable(t)
    ensures t == s.(nodes := [n.(phase := Node.AwaitTask(FIRST))], queue := [NewJob(0, FIRST, n.caps, n.errored)])
  {
    t := Moves(s, n.(phase := Node.BuildAssigned(FIRST)), Node.Sent);
    t := Moves(t, n.(phase := Node.SendingBuild(FIRST)), Node.Sent);
    t := Moves(t, n.(phase := Node.Building(FIRST)), Node.Compiled(true));
    t := Moves(t, n.(phase := Node.Built(FIRST)), Node.KeepaliveAnswered);
  }

  /** A send of `ExecuteJob` that fails leaks its job, and its set is in the map for good. */
  lemma LeakIsReachable(caps: set<string>, jobs: Jobs) returns (s: State)
    requires jobs.jobs != [] && jobs.capabilities <= caps
    ensures Reachable(s) && FIRST in s.books && s.books[FIRST].leaked == [jobs.jobs[|jobs.jobs| - 1]]
    ensures forall events :: FIRST in RunFrom(s, events).sched.sets
  {
    s := JobIsAssigned(caps, jobs);
    StepReaches(s, NodeMoves(0, Node.Error));
    s := Apply(s, NodeMoves(0, Node.Error));
    ReachableInv(s);
    forall events ensures FIRST in RunFrom(s, events).sched.sets {
      LeakPinsTheSet(s, events, FIRST, jobs.jobs[|jobs.jobs| - 1]);
    }
  }

  /** A batch is cancelled while a node holds its last job. */
  lemma HeldJobIsCancelled(caps: set<string>, jobs: Jobs) returns (s: State)
    requires jobs.jobs != [] && jobs.capabilities <= caps
    ensures Reachable(s) && s.queue == [] && s.cancels == {FIRST} && s.books.Keys == {FIRST}
    ensures s.books[FIRST].requirements == jobs.capabilities
    ensures s.sched.sets.Keys == {FIRST} && s.sched.sets[FIRST].remaining == []
    ensures s.nodes == [Node.Node(caps, {}, Node.SendingJob(FIRST, jobs.jobs[|jobs.jobs| - 1]), [FIRST])]
  {
    var job := jobs.jobs[|jobs.jobs| - 1];
    var n := Node.Node(caps, {}, Node.SendingJob(FIRST, job), []);
    s := JobIsAssigned(caps, jobs);
    s := Moves(s, n.(phase := Node.JobAssigned(FIRST, job)), Node.Sent);
    s := Enqueues(s, UserCancels(jobs.batchName), CancelBatchByName(jobs.batchName));
    OnlyNameResolves(s.sched, FIRST);
    s := CancelServed(s, n, FIRST);
    assert Hears(n, FIRST).tokens == [FIRST];
  }

  /** Then the node dies: the job is work again, although its batch was cancelled. */
  lemma ReturnIsReachable(caps: set<string>, jobs: Jobs) returns (s: State)
    requires jobs.jobs != [] && jobs.capabilities <= caps
    ensures Reachable(s) && |s.nodes| == 1 && FIRST in s.cancels && PoolTakesBack(s, PoolServes, FIRST)
    ensures FIRST in Served(s).sched.sets && Served(s).sched.sets[FIRST].remaining == [jobs.jobs[|jobs.jobs| - 1]]
    ensures CouldDo(Served(s), s.nodes[0], FIRST)
  {
    var job := jobs.jobs[|jobs.jobs| - 1];
    s := HeldJobIsCancelled(caps, jobs);
    s := Moves(s, s.nodes[0], Node.Error);
    assert s.queue == [DeadNode(FIRST, job)];
    CancelledJobComesBack(s, PoolServes, FIRST, s.nodes[0]);
    assert [] + [job] == [job];
  }
}
