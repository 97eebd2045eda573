/**
 The job pool: one task that owns the scheduler and serves one request at a time.
 */
module JobPool {
  import opened Types
  import opened Schedule
  import opened Scheduler

  /**
   What node tasks and users send.  `FinishJob` in the source carries the job's name; here it
   carries the job so that a run's books can say which job it was, and the pool reads its name.
   */
  datatype JobRequest =
    | NewJob(node: nat, initialized: JobSetIdentifier, caps: set<string>, failures: set<JobSetIdentifier>)
    | DeadNode(ident: JobSetIdentifier, job: Job)
    | FinishJob(ident: JobSetIdentifier, job: Job)
    | AddJobSet(jobs: Jobs)
    | QueryRemainingJobs
    | CancelBatchByName(batchName: string)

  datatype CancelResult = BatchNameMissing | NoBroadcastNodes | Success

  /** The answer to a user's request. */
  datatype Answer = Remaining(sets: seq<RemainingJobs>) | Cancellation(result: CancelResult)

  /** What serving one request does: the new scheduler, the reply to a `NewJob`, the token broadcast, the answer to a user. */
  datatype Outcome = Outcome(
    sched: Sched,
    reply: Option<JobResponse>,
    token: Option<JobSetIdentifier>,
    answer: Option<Answer>)

  /** `receivers` is the number of node tasks listening on the cancellation broadcast. */
  ghost function Serve(s: Sched, req: JobRequest, receivers: nat): Outcome {
    match req
    case NewJob(node, initialized, caps, failures) =>
      var (t, reply) := Schedule.FetchNewTask(s, initialized, caps, failures, node);
      Outcome(t, Some(reply), None, None)
    case DeadNode(id, job) => Outcome(Schedule.AddJobBack(s, job, id), None, None, None)
    case FinishJob(id, job) => Outcome(Schedule.FinishJob(s, id, job.name), None, None, None)
    case AddJobSet(jobs) => Outcome(Schedule.InsertNewBatch(s, jobs), None, None, None)
    case QueryRemainingJobs => Outcome(s, None, None, Some(Remaining(Described(s, s.last))))
    case CancelBatchByName(name) =>
      match Schedule.IdentifierByName(s, name)
      case None => Outcome(s, None, None, Some(Cancellation(BatchNameMissing)))
      case Some(id) =>
        if receivers == 0 then Outcome(s, None, None, Some(Cancellation(NoBroadcastNodes)))
        else Outcome(CancelBatch(s, id), None, Some(id), Some(Cancellation(Success)))
  }

  /** The submission that would overflow the identifier counter stops the pool, before it changes anything. */
  predicate Stops(s: Sched, req: JobRequest) {
    req.AddJobSet? && s.last >= U64_MAX
  }

  /** What leaves the pool: a task to the node that asked, a token to every node, an answer to the user who asked. */
  datatype Sent = ToNode(node: nat, reply: JobResponse) | ToAll(token: JobSetIdentifier) | ToUser(answer: Answer)

  /** What one request sends, in order. */
  function Sends(req: JobRequest, o: Outcome): seq<Sent> {
    (if req.NewJob? && o.reply.Some? then [ToNode(req.node, o.reply.value)] else [])
    + (if o.token.Some? then [ToAll(o.token.value)] else [])
    + (if o.answer.Some? then [ToUser(o.answer.value)] else [])
  }

  /**
   Who hears of a request: the node that asks gets the one answer to its own request and nobody else
   gets a task; every node hears of a cancellation that resolves to a set, while there are nodes;
   a user who asks or cancels gets one answer, behind the tokens.  Reports and submissions are not answered.
   */
  lemma SendsReachTheAsker(s: Sched, req: JobRequest, receivers: nat)
    requires s.Valid()
    ensures var sent := Sends(req, Serve(s, req, receivers));
            match req
            case NewJob(node, initialized, caps, failures) =>
              && |sent| == 1 && sent[0].ToNode? && sent[0].node == node
              && sent[0].reply == Schedule.FetchNewTask(s, initialized, caps, failures, node).1
            case QueryRemainingJobs => |sent| == 1 && sent[0].ToUser? && sent[0].answer.Remaining? && TellsAll(sent[0].answer.sets, s)
            case CancelBatchByName(name) =>
              var named := IdsNamed(s, name);
              var verdict := sent[|sent| - 1];
              && |sent| == (if named != {} && receivers > 0 then 2 else 1)
              && (|sent| == 2 ==> sent[0].ToAll? && IsLeast(sent[0].token, named))
              && verdict.ToUser? && verdict.answer.Cancellation?
              && (verdict.answer.result.BatchNameMissing? <==> named == {})
              && (verdict.answer.result.NoBroadcastNodes? <==> named != {} && receivers == 0)
            case _ => sent == []
  {
    DescribedInOrder(s);
  }

  /** Which sets a request leaves as they are: a cancellation without nodes or without such a set changes nothing at all. */
  lemma CancellationTakesEffectIff(s: Sched, name: string, receivers: nat)
    ensures var t := Serve(s, CancelBatchByName(name), receivers).sched;
            && (forall id <- s.sets :: id in t.sets && (t.sets[id] == s.sets[id] || t.sets[id] == s.sets[id].(remaining := [])))
            && t.sets.Keys == s.sets.Keys && t.last == s.last
            && (forall id <- s.sets ::
                  t.sets[id].remaining == [] <==>
                    s.sets[id].remaining == [] || (receivers > 0 && IsLeast(id, IdsNamed(s, name))))
  {
    forall id | IsLeast(id, IdsNamed(s, name)) ensures IdentifierByName(s, name) == Some(id) {
      LeastIsUnique(id, IdsNamed(s, name));
    }
  }

  /** Serving a queue in order: the final scheduler, everything sent, and whether the pool is still there. */
  ghost function ServeAll(s: Sched, reqs: seq<JobRequest>, receivers: nat): (Sched, seq<Sent>, bool)
    decreases |reqs|
  {
    if reqs == [] then (s, [], true)
    else if Stops(s, reqs[0]) then (s, [], false)
    else
      var o := Serve(s, reqs[0], receivers);
      var (t, sent, alive) := ServeAll(o.sched, reqs[1..], receivers);
      (t, Sends(reqs[0], o) + sent, alive)
  }

  /** A queue is served from its front: what is behind meets the scheduler as what is in front left it. */
  lemma {:induction false} ServeAllConcat(s: Sched, a: seq<JobRequest>, b: seq<JobRequest>, receivers: nat)
    ensures var (t, sent, alive) := ServeAll(s, a, receivers);
            var (t', more, still) := ServeAll(t, b, receivers);
            ServeAll(s, a + b, receivers) == if alive then (t', sent + more, still) else (t, sent, false)
    decreases |a|
  {
    if a == [] {
      assert a + b == b;
      assert [] + ServeAll(s, b, receivers).1 == ServeAll(s, b, receivers).1;
    } else {
      assert (a + b)[0] == a[0] && (a + b)[1..] == a[1..] + b;
      if !Stops(s, a[0]) {
        var o := Serve(s, a[0], receivers);
        ServeAllConcat(o.sched, a[1..], b, receivers);
        var (t, sent, alive) := ServeAll(o.sched, a[1..], receivers);
        var more := ServeAll(t, b, receivers).1;
        assert Sends(a[0], o) + (sent + more) == Sends(a[0], o) + sent + more;
      }
    }
  }

  /** `all` is the outcome of serving a queue of which `rest` is left, with `sent` already sent. */
  ghost predicate Serving(all: (Sched, seq<Sent>, bool), sent: seq<Sent>, s: Sched, rest: seq<JobRequest>, receivers: nat) {
    var (t, more, alive) := ServeAll(s, rest, receivers);
    all == (t, sent + more, alive)
  }

  lemma ServingRound(all: (Sched, seq<Sent>, bool), sent: seq<Sent>, s: Sched, rest: seq<JobRequest>, receivers: nat)
    requires Serving(all, sent, s, rest, receivers)
    ensures if rest == [] then all == (s, sent, true)
            else if Stops(s, rest[0]) then all == (s, sent, false)
            else
              var o := Serve(s, rest[0], receivers);
              Serving(all, sent + Sends(rest[0], o), o.sched, rest[1..], receivers)
  {
    assert sent + [] == sent;
    if rest != [] && !Stops(s, rest[0]) {
      var o := Serve(s, rest[0], receivers);
      var more := ServeAll(o.sched, rest[1..], receivers).1;
      assert sent + (Sends(rest[0], o) + more) == sent + Sends(rest[0], o) + more;
    }
  }

  class JobPool {
    const remainingJobs: GpuPriority
    const receivers: nat
    var sent: seq<Sent>

    ghost predicate Valid()
      reads this, remainingJobs
    {
      remainingJobs.Valid()
    }

    constructor (scheduler: GpuPriority, receivers: nat)
      requires scheduler.Valid()
      ensures Valid() && remainingJobs == scheduler && this.receivers == receivers && sent == []
    {
      this.remainingJobs := scheduler;
      this.receivers := receivers;
      sent := [];
    }

    /** `disk` is what a cancellation finds when it deletes files. */
    method HandleRequest(req: JobRequest, disk: Disk) returns (alive: bool)
      requires Valid()
      modifies this, remainingJobs
      ensures Valid() && (alive <==> !Stops(old(remainingJobs.State()), req))
      ensures var o := Serve(old(remainingJobs.State()), req, receivers);
              if alive then remainingJobs.State() == o.sched && sent == old(sent) + Sends(req, o)
              else remainingJobs.State() == old(remainingJobs.State()) && sent == old(sent)
    {
      alive := true;
      match req {
        case FinishJob(id, job) => remainingJobs.FinishJob(id, job.name);
        case NewJob(node, initialized, caps, failures) =>
          var task := remainingJobs.FetchNewTask(initialized, caps, failures, node);
          sent := sent + [ToNode(node, task)];
        case DeadNode(id, job) => remainingJobs.AddJobBack(job, id);
        case AddJobSet(jobs) => alive := remainingJobs.InsertNewBatch(jobs);
        case QueryRemainingJobs =>
          var sets := remainingJobs.RemainingJobs();
          sent := sent + [ToUser(Remaining(sets))];
        case CancelBatchByName(name) =>
          var found := remainingJobs.IdentifierByName(name);
          if found.Some? {
            if receivers > 0 {
              sent := sent + [ToAll(found.value)];
              remainingJobs.CancelBatch(found.value, disk);
              sent := sent + [ToUser(Cancellation(Success))];
            } else {
              sent := sent + [ToUser(Cancellation(NoBroadcastNodes))];
            }
          } else {
            sent := sent + [ToUser(Cancellation(BatchNameMissing))];
          }
      }
    }

    /** The pool's loop, over the requests that are in the channel until it closes. */
    method Spawn(requests: seq<JobRequest>, disk: Disk) returns (alive: bool)
      requires Valid()
      modifies this, remainingJobs
      ensures Valid()
      ensures var (t, more, still) := ServeAll(old(remainingJobs.State()), requests, receivers);
              remainingJobs.State() == t && sent == old(sent) + more && alive == still
    {
      ghost var (final, more, still) := ServeAll(remainingJobs.State(), requests, receivers);
      ghost var all := (final, sent + more, still);
      var rest := requests;
      alive := true;
      while rest != [] && alive
        invariant Valid()
        invariant if alive then Serving(all, sent, remainingJobs.State(), rest, receivers)
                  else all == (remainingJobs.State(), sent, false)
        decreases |rest|
      {
        ServingRound(all, sent, remainingJobs.State(), rest, receivers);
        alive := HandleRequest(rest[0], disk);
        rest := rest[1..];
      }
      if alive {
        ServingRound(all, sent, remainingJobs.State(), rest, receivers);
      }
    }
  }
}
