/** Every event keeps the cluster invariant; so it holds in every state of every run. */
module ClusterInvariant {
  import opened Types
  import opened JobPool
  import opened Cluster
  import Schedule
  import Node

  // ---------------------------------------------------------------- one set's balance

  lemma FinishBalance(js: JobSet, a: Account, out: nat, job: Job, k: Pick)
    requires Balanced(js, a, out + Hit(k, job), k) && Schedule.RunningNames(js.running)[job.name] > 0
    ensures Balanced(js.(running := Schedule.RemoveFirst(js.running, job.name)), a.(finished := a.finished + [job]), out, k)
  {
    TallyAppend(a.finished, job, k);
    if k.ByName? {
      Schedule.RemoveFirstCount(js.running, job.name, k.name);
    }
  }

  lemma ReturnBalance(js: JobSet, a: Account, out: nat, job: Job, k: Pick)
    requires Balanced(js, a, out + Hit(k, job), k) && Schedule.RunningNames(js.running)[job.name] > 0
    ensures Balanced(Schedule.AddErroredJob(js, job), a, out, k)
  {
    TallyAppend(js.remaining, job, k);
    if k.ByName? {
      Schedule.RemoveFirstCount(js.running, job.name, k.name);
    }
  }

  lemma HandOutBalance(js: JobSet, a: Account, out: nat, node: nat, k: Pick)
    requires js.remaining != [] && Balanced(js, a, out, k)
    ensures Balanced(Schedule.NextJob(js, node), a, out + Hit(k, js.remaining[|js.remaining| - 1]), k)
  {
    Schedule.RunningNamesAppend(js.running, RunningJob(js.remaining[|js.remaining| - 1].name, node));
  }

  lemma CancelBalance(js: JobSet, a: Account, out: nat, k: Pick)
    requires Balanced(js, a, out, k)
    ensures Balanced(js.(remaining := []), a.(cancelled := a.cancelled + js.remaining), out, k)
  {
    TallyConcat(a.cancelled, js.remaining, k);
  }

  lemma LeakBalance(js: JobSet, a: Account, out: nat, job: Job, k: Pick)
    requires Balanced(js, a, out + Hit(k, job), k)
    ensures Balanced(js, a.(leaked := a.leaked + [job]), out, k)
  {
    TallyAppend(a.leaked, job, k);
  }

  // ---------------------------------------------------------------- node moves

  /** Nothing is lost or made up by a node's move, apart from what it leaks. */
  lemma NodeMoveBalance(s: State, i: nat, e: Node.Event, id: JobSetIdentifier, k: Pick)
    requires i < |s.nodes|
    ensures Outstanding(Apply(s, NodeMoves(i, e)), id, k) + TallyOne(Node.Step(s.nodes[i], i, e).leak, id, k)
         == Outstanding(s, id, k)
  {
    var n, m := s.nodes[i], Node.Step(s.nodes[i], i, e);
    Node.StepKeepsTheJob(n, i, e);
    HeldUpdate(s.nodes, i, m.node, id, k);
    if m.sends == [] {
      assert s.queue + [] == s.queue;
    } else {
      assert m.sends == [m.sends[0]];
      QueuedAppend(s.queue, m.sends[0], id, k);
    }
  }

  lemma NodeMoveConserves(s: State, i: nat, e: Node.Event, id: JobSetIdentifier, k: Pick)
    requires Inv(s) && i < |s.nodes|
    ensures Conserved(Apply(s, NodeMoves(i, e)), id, k)
  {
    var t := Apply(s, NodeMoves(i, e));
    var leak := Node.Step(s.nodes[i], i, e).leak;
    NodeMoveBalance(s, i, e, id, k);
    assert Conserved(s, id, k);
    if leak.Some? {
      Node.StepKeepsTheJob(s.nodes[i], i, e);
      assert NodeOk(s, s.nodes[i]);
      HeldAtLeast(s.nodes, i, leak.value.0, ByJob(leak.value.1));
      assert Conserved(s, leak.value.0, ByJob(leak.value.1));
      LeakConserves(s, t, leak.value.0, leak.value.1, id, k);
    }
  }

  lemma LeakConserves(s: State, t: State, ident: JobSetIdentifier, job: Job, id: JobSetIdentifier, k: Pick)
    requires ident in s.sched.sets && ident in s.books && t.sched == s.sched
    requires t.books == s.books[ident := s.books[ident].(leaked := s.books[ident].leaked + [job])]
    requires Conserved(s, id, k)
    requires Outstanding(t, id, k) + (if id == ident then Hit(k, job) else 0) == Outstanding(s, id, k)
    ensures Conserved(t, id, k)
  {
    if id == ident {
      LeakBalance(s.sched.sets[id], s.books[id], Outstanding(t, id, k), job, k);
    }
  }

  /** What another node relies on in the books, and what a run never takes back. */
  ghost predicate Extends(t: State, s: State) {
    && (forall id <- s.books :: id in t.books && t.books[id].requirements == s.books[id].requirements
                                             && t.books[id].initial == s.books[id].initial)
    && s.cancels <= t.cancels
  }

  lemma NodeOkExtends(s: State, t: State, n: Node.Node)
    requires NodeOk(s, n) && Extends(t, s)
    ensures NodeOk(t, n)
  {
  }

  lemma MovedNodeOk(s: State, i: nat, e: Node.Event)
    requires Inv(s) && i < |s.nodes|
    ensures NodeOk(s, Node.Step(s.nodes[i], i, e).node)
  {
    assert NodeOk(s, s.nodes[i]);
  }

  /** A waiting node stays as it is, and a node that does not wait has no request in the queue. */
  lemma NodeMoveQueueOk(s: State, i: nat, e: Node.Event)
    requires Inv(s) && i < |s.nodes|
    ensures QueueOk(Apply(s, NodeMoves(i, e)))
  {
    var t := Apply(s, NodeMoves(i, e));
    var n, m := s.nodes[i], Node.Step(s.nodes[i], i, e);
    Node.StepKeepsTheJob(n, i, e);
    if Node.Asked(n.phase).Some? {
      assert m.node == n && m.sends == [];
      QueueOkUnchanged(s, t);
    } else if m.sends == [] {
      QueueOkOtherNode(s, t, i);
    } else {
      QueueOkSend(s, t, i, m.node, m.sends[0]);
    }
  }

  lemma QueueOkUnchanged(s: State, t: State)
    requires QueueOk(s) && t.queue == s.queue && t.nodes == s.nodes
    ensures QueueOk(t)
  {
    assert forall k :: 0 <= k < |s.queue| ==> RequestOk(s, s.queue[k]);
  }

  lemma QueueOkOtherNode(s: State, t: State, i: nat)
    requires QueueOk(s) && t.queue == s.queue && i < |s.nodes| == |t.nodes| && Node.Asked(s.nodes[i].phase).None?
    requires forall j :: 0 <= j < |s.nodes| && j != i ==> t.nodes[j] == s.nodes[j]
    ensures QueueOk(t)
  {
    assert forall k :: 0 <= k < |s.queue| ==> RequestOk(s, s.queue[k]);
  }

  lemma QueueOkSend(s: State, t: State, i: nat, n: Node.Node, req: JobRequest)
    requires QueueOk(s) && i < |s.nodes| && Node.Asked(s.nodes[i].phase).None?
    requires t.queue == s.queue + [req] && t.nodes == s.nodes[i := n]
    requires req.NewJob? ==>
      req.node == i && Node.Asked(n.phase) == Some(req.initialized) && req.caps == n.caps && req.failures == n.errored
    ensures QueueOk(t)
  {
    assert forall k :: 0 <= k < |s.queue| ==> RequestOk(s, s.queue[k]) && t.queue[k] == s.queue[k];
    assert t.queue[|s.queue|] == req;
  }

  lemma NodeMoveInv(s: State, i: nat, e: Node.Event)
    requires Inv(s) && i < |s.nodes|
    ensures Inv(Apply(s, NodeMoves(i, e))) && Extends(Apply(s, NodeMoves(i, e)), s)
  {
    var t := Apply(s, NodeMoves(i, e));
    forall id, k ensures Conserved(t, id, k) {
      NodeMoveConserves(s, i, e, id, k);
    }
    assert Extends(t, s);
    forall k | 0 <= k < |t.nodes| ensures NodeOk(t, t.nodes[k]) {
      if k == i {
        MovedNodeOk(s, i, e);
      }
      NodeOkExtends(s, t, t.nodes[k]);
    }
    NodeMoveQueueOk(s, i, e);
  }

  // ---------------------------------------------------------------- the pool

  ghost function Served(s: State): State
    requires s.queue != []
  {
    Apply(s, PoolServes)
  }

  /** A request that concerns no node: the queue moves on, and no node changes phase. */
  ghost predicate Quiet(s: State, t: State) {
    && s.queue != [] && t.queue == s.queue[1..] && |t.nodes| == |s.nodes|
    && forall i :: 0 <= i < |s.nodes| ==> t.nodes[i].phase == s.nodes[i].phase
  }

  lemma QuietOutstanding(s: State, t: State, id: JobSetIdentifier, k: Pick)
    requires Quiet(s, t)
    ensures Outstanding(s, id, k) == Outstanding(t, id, k) + TallyOne(Node.CarriedJob(s.queue[0]), id, k)
  {
    HeldByPhase(t.nodes, s.nodes, id, k);
  }

  lemma ServedQuiet(s: State)
    requires PoolCanServe(s) && !s.queue[0].NewJob?
    ensures Quiet(s, Served(s))
  {
  }

  /** The set a returned job belongs to is still in the map, with the job's name among the running ones. */
  lemma ReturnedJobIsKnown(s: State)
    requires Inv(s) && PoolCanServe(s) && Node.CarriedJob(s.queue[0]).Some?
    ensures var (id, job) := Node.CarriedJob(s.queue[0]).value;
            && id in s.sched.sets && id in s.books
            && Schedule.RunningNames(s.sched.sets[id].running)[job.name] > 0
  {
    var (id, job) := Node.CarriedJob(s.queue[0]).value;
    QueuedAtLeast(s.queue, 0, id, ByName(job.name));
    assert Conserved(s, id, ByName(job.name));
  }

  /** A set with nothing running has nothing in transit and leaked nothing. */
  lemma NothingRunning(js: JobSet, t: State, a: Account, id: JobSetIdentifier, k: Pick)
    requires forall name ::
      Schedule.RunningNames(js.running)[name] == Outstanding(t, id, ByName(name)) + Tally(a.leaked, ByName(name))
    requires js.running == []
    ensures Outstanding(t, id, k) == 0 && Tally(a.leaked, k) == 0
  {
    match k
    case ByName(name) => assert Schedule.RunningNames(js.running)[name] == 0;
    case ByJob(job) =>
      assert Schedule.RunningNames(js.running)[job.name] == 0;
      JobsAreNamed(t, id, job);
      TalliesAreNamed(a.leaked, job);
  }

  /** The finished job's set as it stands before the test whether to drop it. */
  function Lightened(js: JobSet, name: string): JobSet {
    js.(running := Schedule.RemoveFirst(js.running, name))
  }

  /** Serving a `FinishJob`: its set loses one running entry, and goes if that was the last of it. */
  ghost predicate Finishes(s: State, t: State, id: JobSetIdentifier, job: Job) {
    && Quiet(s, t) && s.queue[0] == FinishJob(id, job) && id in s.sched.sets && id in s.books
    && t.books == s.books[id := s.books[id].(finished := s.books[id].finished + [job])]
    && t.sched.last == s.sched.last && t.cancels == s.cancels
    && var js := Lightened(s.sched.sets[id], job.name);
       t.sched.sets == if js.remaining == [] && js.running == [] then s.sched.sets - {id} else s.sched.sets[id := js]
  }

  lemma FinishedBalance(s: State, t: State, id: JobSetIdentifier, job: Job, k: Pick)
    requires Finishes(s, t, id, job) && Schedule.RunningNames(s.sched.sets[id].running)[job.name] > 0
    requires Conserved(s, id, k)
    ensures Balanced(Lightened(s.sched.sets[id], job.name), t.books[id], Outstanding(t, id, k), k)
  {
    QuietOutstanding(s, t, id, k);
    FinishBalance(s.sched.sets[id], s.books[id], Outstanding(t, id, k), job, k);
  }

  /** A set that is dropped is settled. */
  lemma DroppedIsSettled(js: JobSet, t: State, a: Account, id: JobSetIdentifier, k: Pick)
    requires js.remaining == [] && js.running == []
    requires forall l :: Balanced(js, a, Outstanding(t, id, l), l)
    ensures Outstanding(t, id, k) == 0 && Settled(a, k)
  {
    forall name ensures Schedule.RunningNames(js.running)[name]
                     == Outstanding(t, id, ByName(name)) + Tally(a.leaked, ByName(name))
    {
      assert Balanced(js, a, Outstanding(t, id, ByName(name)), ByName(name));
    }
    NothingRunning(js, t, a, id, k);
    assert Balanced(js, a, Outstanding(t, id, k), k);
  }

  lemma FinishConserves(s: State, t: State, ident: JobSetIdentifier, job: Job, id: JobSetIdentifier, k: Pick)
    requires Finishes(s, t, ident, job) && Schedule.RunningNames(s.sched.sets[ident].running)[job.name] > 0
    requires forall l :: Conserved(s, id, l)
    ensures Conserved(t, id, k)
  {
    assert Conserved(s, id, k);
    if id != ident {
      QuietOutstanding(s, t, id, k);
    } else if id in t.sched.sets {
      FinishedBalance(s, t, id, job, k);
    } else {
      forall l ensures Balanced(Lightened(s.sched.sets[id], job.name), t.books[id], Outstanding(t, id, l), l) {
        assert Conserved(s, id, l);
        FinishedBalance(s, t, id, job, l);
      }
      DroppedIsSettled(Lightened(s.sched.sets[id], job.name), t, t.books[id], id, k);
    }
  }

  /** Serving a `DeadNode`: the job goes back to the end of its set's remaining jobs. */
  ghost predicate TakesBack(s: State, t: State, id: JobSetIdentifier, job: Job) {
    && Quiet(s, t) && s.queue[0] == DeadNode(id, job) && id in s.sched.sets
    && t.books == s.books && t.sched.last == s.sched.last && t.cancels == s.cancels
    && t.sched.sets == s.sched.sets[id := Schedule.AddErroredJob(s.sched.sets[id], job)]
  }

  lemma TakeBackConserves(s: State, t: State, ident: JobSetIdentifier, job: Job, id: JobSetIdentifier, k: Pick)
    requires TakesBack(s, t, ident, job) && Schedule.RunningNames(s.sched.sets[ident].running)[job.name] > 0
    requires Conserved(s, id, k)
    ensures Conserved(t, id, k)
  {
    QuietOutstanding(s, t, id, k);
    if id == ident {
      ReturnBalance(s.sched.sets[id], s.books[id], Outstanding(t, id, k), job, k);
    }
  }

  lemma ServedReturn(s: State)
    requires Inv(s) && PoolCanServe(s) && Node.CarriedJob(s.queue[0]).Some?
    ensures var (id, job) := Node.CarriedJob(s.queue[0]).value;
            && id in s.sched.sets && Schedule.RunningNames(s.sched.sets[id].running)[job.name] > 0
            && if s.queue[0].FinishJob? then Finishes(s, Served(s), id, job) else TakesBack(s, Served(s), id, job)
  {
    ReturnedJobIsKnown(s);
    ServedQuiet(s);
  }

  /** Serving a cancellation that resolves to a set: its remaining jobs are cancelled, nothing else. */
  ghost predicate Empties(s: State, t: State, id: JobSetIdentifier) {
    && Quiet(s, t) && Node.CarriedJob(s.queue[0]).None? && id in s.sched.sets && id in s.books
    && t.sched.last == s.sched.last && t.cancels == s.cancels + {id}
    && t.sched.sets == s.sched.sets[id := s.sched.sets[id].(remaining := [])]
    && t.books == s.books[id := s.books[id].(cancelled := s.books[id].cancelled + s.sched.sets[id].remaining)]
  }

  lemma EmptyConserves(s: State, t: State, ident: JobSetIdentifier, id: JobSetIdentifier, k: Pick)
    requires Empties(s, t, ident) && Conserved(s, id, k)
    ensures Conserved(t, id, k)
  {
    QuietOutstanding(s, t, id, k);
    if id == ident {
      CancelBalance(s.sched.sets[id], s.books[id], Outstanding(s, id, k), k);
    }
  }

  /** Serving a submission: a set under a fresh identifier. */
  ghost predicate Submits(s: State, t: State, jobs: Jobs) {
    && Quiet(s, t) && Node.CarriedJob(s.queue[0]).None? && t.cancels == s.cancels
    && t.sched == Schedule.InsertNewBatch(s.sched, jobs) && s.sched.last < U64_MAX
    && t.books == s.books[Identity(s.sched.last + 1) := Account(jobs.capabilities, jobs.jobs, [], [], [])]
  }

  lemma SubmitConserves(s: State, t: State, jobs: Jobs, id: JobSetIdentifier, k: Pick)
    requires Submits(s, t, jobs) && BooksComplete(s) && Conserved(s, id, k)
    ensures Conserved(t, id, k)
  {
    QuietOutstanding(s, t, id, k);
  }

  /** A user's request is a submission, a cancellation of some set, or has no effect. */
  lemma ServedUser(s: State)
    requires Inv(s) && PoolCanServe(s) && Node.CarriedJob(s.queue[0]).None? && !s.queue[0].NewJob?
    ensures var t := Served(s);
            || (s.queue[0].AddJobSet? && Submits(s, t, s.queue[0].jobs))
            || (s.queue[0].CancelBatchByName? && exists id :: Empties(s, t, id))
            || (Quiet(s, t) && t.sched == s.sched && t.books == s.books && t.cancels == s.cancels)
  {
    ServedQuiet(s);
    match s.queue[0]
    case AddJobSet(jobs) => assert Submits(s, Served(s), jobs);
    case QueryRemainingJobs =>
    case CancelBatchByName(name) =>
      var found := Schedule.IdentifierByName(s.sched, name);
      if found.Some? && |s.nodes| > 0 {
        assert found.value in s.sched.sets;
        assert Empties(s, Served(s), found.value);
      }
  }

  /** Serving a request for work: the asker gets the reply; a run task also takes the job out of its set. */
  ghost predicate Answers(s: State, t: State, i: nat, reply: JobResponse) {
    && i < |s.nodes| && s.queue != [] && s.queue[0].NewJob?
    && t.queue == s.queue[1..] && t.books == s.books && t.cancels == s.cancels && t.sched.last == s.sched.last
    && t.nodes == s.nodes[i := Node.Receive(s.nodes[i], reply)]
    && if reply.Run? then
         && reply.ident in s.sched.sets && s.sched.sets[reply.ident].remaining != []
         && s.nodes[i].phase == Node.AwaitTask(reply.ident)
         && (t.sched, reply) == Schedule.RunNext(s.sched, reply.ident, i)
       else
         && t.sched == s.sched
         && (reply.Build? ==>
               && Schedule.Eligible(s.sched, reply.ident, s.nodes[i].caps, s.nodes[i].errored)
               && s.nodes[i].phase != Node.AwaitTask(reply.ident))
  }

  /** What the pool answers to the request at the head of its queue. */
  ghost function Reply(s: State): JobResponse
    requires s.queue != [] && s.queue[0].NewJob?
  {
    var r := s.queue[0];
    Schedule.FetchNewTask(s.sched, r.initialized, r.caps, r.failures, r.node).1
  }

  lemma ServedAnswers(s: State)
    requires Inv(s) && PoolCanServe(s) && s.queue[0].NewJob?
    ensures Answers(s, Served(s), s.queue[0].node, Reply(s)) && Node.Asked(s.nodes[s.queue[0].node].phase).Some?
  {
    var r := s.queue[0];
    assert RequestOk(s, s.queue[0]);
    Schedule.FetchEffect(s.sched, r.initialized, r.caps, r.failures, r.node);
    Schedule.AnswerFitsTheAsker(s.sched, r.initialized, r.caps, r.failures, r.node);
  }

  /** An answer puts the job of a run task on the asker, and nothing else. */
  lemma AnswerOutstanding(s: State, t: State, i: nat, reply: JobResponse, id: JobSetIdentifier, k: Pick)
    requires Answers(s, t, i, reply) && Node.Asked(s.nodes[i].phase).Some?
    ensures Outstanding(t, id, k)
         == Outstanding(s, id, k) + (if reply.Run? && reply.ident == id then Hit(k, reply.job) else 0)
  {
    HeldUpdate(s.nodes, i, Node.Receive(s.nodes[i], reply), id, k);
  }

  lemma AnswerConserves(s: State, t: State, i: nat, reply: JobResponse, id: JobSetIdentifier, k: Pick)
    requires Answers(s, t, i, reply) && Node.Asked(s.nodes[i].phase).Some? && Conserved(s, id, k)
    ensures Conserved(t, id, k)
    ensures Outstanding(t, id, k)
         == Outstanding(s, id, k) + (if reply.Run? && reply.ident == id then Hit(k, reply.job) else 0)
  {
    AnswerOutstanding(s, t, i, reply, id, k);
    if reply.Run? && reply.ident == id {
      HandOutBalance(s.sched.sets[id], s.books[id], Outstanding(s, id, k), i, k);
    }
  }

  lemma ServedConserves(s: State, id: JobSetIdentifier, k: Pick)
    requires Inv(s) && PoolCanServe(s)
    ensures Conserved(Served(s), id, k)
  {
    var t := Served(s);
    assert Conserved(s, id, k);
    match s.queue[0]
    case FinishJob(ident, job) => ServedReturn(s); FinishConserves(s, t, ident, job, id, k);
    case DeadNode(ident, job) => ServedReturn(s); TakeBackConserves(s, t, ident, job, id, k);
    case NewJob(node, _, _, _) => ServedAnswers(s); AnswerConserves(s, t, node, Reply(s), id, k);
    case AddJobSet(jobs) => ServedUser(s); SubmitConserves(s, t, jobs, id, k);
    case QueryRemainingJobs => ServedUser(s); QuietOutstanding(s, t, id, k);
    case CancelBatchByName(_) =>
      ServedUser(s);
      if ident :| Empties(s, t, ident) {
        EmptyConserves(s, t, ident, id, k);
      } else {
        QuietOutstanding(s, t, id, k);
      }
  }

  lemma ReturnBooks(s: State, t: State, id: JobSetIdentifier, job: Job)
    requires BooksComplete(s) && (Finishes(s, t, id, job) || TakesBack(s, t, id, job))
    ensures BooksComplete(t) && Extends(t, s)
  {
  }

  lemma AnswerBooks(s: State, t: State, i: nat, reply: JobResponse)
    requires BooksComplete(s) && Answers(s, t, i, reply)
    ensures BooksComplete(t) && Extends(t, s)
  {
  }

  lemma EmptyBooks(s: State, t: State, id: JobSetIdentifier)
    requires BooksComplete(s) && Empties(s, t, id)
    ensures BooksComplete(t) && Extends(t, s)
  {
  }

  lemma SubmitBooks(s: State, t: State, jobs: Jobs)
    requires BooksComplete(s) && Submits(s, t, jobs)
    ensures BooksComplete(t) && Extends(t, s)
  {
  }

  lemma ServedBooks(s: State)
    requires Inv(s) && PoolCanServe(s)
    ensures BooksComplete(Served(s)) && Extends(Served(s), s)
  {
    var t := Served(s);
    match s.queue[0]
    case NewJob(i, _, _, _) => ServedAnswers(s); AnswerBooks(s, t, i, Reply(s));
    case FinishJob(id, job) => ServedReturn(s); ReturnBooks(s, t, id, job);
    case DeadNode(id, job) => ServedReturn(s); ReturnBooks(s, t, id, job);
    case AddJobSet(jobs) => ServedUser(s); SubmitBooks(s, t, jobs);
    case QueryRemainingJobs => ServedUser(s);
    case CancelBatchByName(_) =>
      ServedUser(s);
      if id :| Empties(s, t, id) {
        EmptyBooks(s, t, id);
      }
  }

  /** The answer a node gets is a set it may work on, so none of its panics is reached. */
  lemma AnsweredNodeOk(s: State, t: State, i: nat, reply: JobResponse)
    requires Answers(s, t, i, reply) && BooksComplete(s) && NodeOk(s, s.nodes[i]) && Node.Asked(s.nodes[i].phase).Some?
    ensures NodeOk(t, t.nodes[i])
  {
  }

  lemma ServedQueueOk(s: State)
    requires Inv(s) && PoolCanServe(s)
    ensures QueueOk(Served(s))
  {
    var t := Served(s);
    forall k | 0 <= k < |t.queue| ensures RequestOk(t, t.queue[k]) {
      assert t.queue[k] == s.queue[k + 1];
      assert RequestOk(s, s.queue[k + 1]);
    }
  }

  lemma ServedInv(s: State)
    requires Inv(s) && PoolCanServe(s)
    ensures Inv(Served(s)) && Extends(Served(s), s)
  {
    var t := Served(s);
    ServedBooks(s);
    forall id, k ensures Conserved(t, id, k) {
      ServedConserves(s, id, k);
    }
    forall k | 0 <= k < |t.nodes| ensures NodeOk(t, t.nodes[k]) {
      assert NodeOk(s, s.nodes[k]);
      if s.queue[0].NewJob? && s.queue[0].node == k {
        ServedAnswers(s);
        AnsweredNodeOk(s, t, k, Reply(s));
      } else {
        NodeOkExtends(s, t, s.nodes[k]);
      }
    }
    ServedQueueOk(s);
  }

  // ---------------------------------------------------------------- users and the broadcast

  lemma EnqueueInv(s: State, req: JobRequest)
    requires Inv(s) && !req.NewJob? && Node.CarriedJob(req).None?
    ensures Inv(s.(queue := s.queue + [req]))
  {
    var t := s.(queue := s.queue + [req]);
    forall id, k ensures Conserved(t, id, k) {
      QueuedAppend(s.queue, req, id, k);
      assert Conserved(s, id, k);
    }
    forall k | 0 <= k < |t.nodes| ensures NodeOk(t, t.nodes[k]) {
      NodeOkExtends(s, t, s.nodes[k]);
    }
    forall k | 0 <= k < |t.queue| ensures RequestOk(t, t.queue[k]) {
      assert k < |s.queue| ==> RequestOk(s, s.queue[k]);
    }
  }

  lemma LagInv(s: State, i: nat, lost: nat)
    requires Inv(s)
    ensures Inv(Apply(s, ReceiverLags(i, lost)))
  {
    var t := Apply(s, ReceiverLags(i, lost));
    if t != s {
      forall id, k ensures Conserved(t, id, k) {
        HeldByPhase(t.nodes, s.nodes, id, k);
        assert Conserved(s, id, k);
      }
      forall k | 0 <= k < |t.nodes| ensures NodeOk(t, t.nodes[k]) {
        assert NodeOk(s, s.nodes[k]);
        assert forall x <- t.nodes[k].tokens :: x in s.nodes[k].tokens;
      }
      forall k | 0 <= k < |t.queue| ensures RequestOk(t, t.queue[k]) {
        assert RequestOk(s, s.queue[k]);
      }
    }
  }

  // ---------------------------------------------------------------- every run

  lemma StepInv(s: State, ev: Event)
    requires Inv(s)
    ensures Inv(Apply(s, ev)) && Extends(Apply(s, ev), s)
  {
    match ev
    case NodeMoves(i, e) => if i < |s.nodes| { NodeMoveInv(s, i, e); }
    case PoolServes => if PoolCanServe(s) { ServedInv(s); }
    case UserSubmits(jobs) => EnqueueInv(s, AddJobSet(jobs));
    case UserCancels(name) => EnqueueInv(s, CancelBatchByName(name));
    case UserQueries => EnqueueInv(s, QueryRemainingJobs);
    case ReceiverLags(i, lost) => LagInv(s, i, lost);
  }

  lemma {:induction false} RunInv(s: State, events: seq<Event>)
    requires Inv(s)
    ensures Inv(RunFrom(s, events)) && Extends(RunFrom(s, events), s)
    decreases |events|
  {
    if events != [] {
      StepInv(s, events[0]);
      RunInv(Apply(s, events[0]), events[1..]);
    }
  }

  /** The invariant holds in every state of every run of every cluster. */
  lemma EveryRunKeepsInv(caps: seq<set<string>>, events: seq<Event>)
    ensures Inv(RunFrom(Init(caps), events))
  {
    InitInv(caps);
    RunInv(Init(caps), events);
  }
}
