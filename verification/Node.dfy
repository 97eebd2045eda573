/**
 One server-side node task: the loop of `run_all_jobs` cut at its awaits.  A task is in one
 phase; an event is the outcome of the await it sits on.
 */
module Node {
  import opened Types
  import opened JobPool
  import opened Scheduler
  import Schedule

  datatype Phase =
    | Uninit
    | PrepareBuild
    | AwaitBuild                                        // asked the pool, with nothing compiled
    | BuildAssigned(ident: JobSetIdentifier)            // InitializeJob not sent yet
    | SendingBuild(ident: JobSetIdentifier)
    | Building(ident: JobSetIdentifier)
    | Built(ident: JobSetIdentifier)
    | AwaitTask(ident: JobSetIdentifier)                // asked the pool, with ident compiled
    | Reassigned(ident: JobSetIdentifier)               // ReturnPrepareBuild not sent yet
    | JobAssigned(ident: JobSetIdentifier, job: Job)    // ExecuteJob not sent yet
    | SendingJob(ident: JobSetIdentifier, job: Job)
    | Executing(ident: JobSetIdentifier, job: Job, cancelled: bool)
    | ReceivingResults(ident: JobSetIdentifier, job: Job)
    | Panicked

  datatype Event =
    | Connected                        // the version handshake went through
    | KeepaliveAnswered                // so the task goes on to ask the pool
    | Sent                             // the message, or all the files, of this phase went out
    | Compiled(ok: bool)
    | Token(connects: bool)            // the next broadcast token is read; the cancel port answers or not
    | Reported(report: RunReport)   // the client's report came and was confirmed
    | ResultsReceived
    | Error                            // any error of this phase, a missed keepalive included

  /** `tokens` is this task's receiver on the cancellation broadcast; `errored` survives reconnects. */
  datatype Node = Node(caps: set<string>, errored: set<JobSetIdentifier>, phase: Phase, tokens: seq<JobSetIdentifier>)

  /** A task's move: its next state, what it sends to the pool, and the job it drops on the floor if it does. */
  datatype Move = Move(node: Node, sends: seq<JobRequest>, leak: Option<(JobSetIdentifier, Job)>)

  function Goto(n: Node, p: Phase): Move {
    Move(n.(phase := p), [], None)
  }

  function GotoSending(n: Node, p: Phase, req: JobRequest): Move {
    Move(n.(phase := p), [req], None)
  }

  /** An event the phase does not await leaves the task alone. */
  function Step(n: Node, me: nat, ev: Event): Move {
    match (n.phase, ev)
    case (Uninit, Connected) => Goto(n, PrepareBuild)
    case (PrepareBuild, KeepaliveAnswered) => GotoSending(n, AwaitBuild, NewJob(me, NoSet, n.caps, n.errored))
    case (BuildAssigned(id), Sent) => Goto(n, SendingBuild(id))
    case (SendingBuild(id), Sent) => Goto(n, Building(id))
    case (Building(id), Compiled(ok)) =>
      if ok then Goto(n, Built(id)) else Goto(n.(errored := n.errored + {id}), PrepareBuild)
    case (Built(id), KeepaliveAnswered) => GotoSending(n, AwaitTask(id), NewJob(me, id, n.caps, n.errored))
    case (Reassigned(_), Sent) => Goto(n, PrepareBuild)
    case (JobAssigned(id, job), Sent) => Goto(n, SendingJob(id, job))
    // the error is that of the built state, which no longer knows the job: nothing is sent to the pool
    case (JobAssigned(id, job), Error) => Move(n.(phase := Uninit), [], Some((id, job)))
    case (SendingJob(id, job), Sent) => Goto(n, Executing(id, job, false))
    case (SendingJob(id, job), Error) => GotoSending(n, Uninit, DeadNode(id, job))
    case (Executing(id, job, cancelled), Token(connects)) =>
      if n.tokens == [] then Goto(n, n.phase)
      else Goto(n.(tokens := n.tokens[1..]), Executing(id, job, cancelled || (n.tokens[0] == id && connects)))
    case (Executing(id, job, _), Reported(report)) =>
      if report.Cancelled? then GotoSending(n, PrepareBuild, FinishJob(id, job)) else Goto(n, ReceivingResults(id, job))
    case (Executing(id, job, _), Error) => GotoSending(n, Uninit, DeadNode(id, job))
    case (ReceivingResults(id, job), ResultsReceived) => GotoSending(n, Built(id), FinishJob(id, job))
    case (ReceivingResults(id, job), Error) => GotoSending(n, Uninit, DeadNode(id, job))
    case (AwaitBuild, Error) => Goto(n, n.phase)
    case (AwaitTask(_), Error) => Goto(n, n.phase)
    case (Panicked, _) => Goto(n, n.phase)
    case (_, Error) => Goto(n, Uninit)
    case _ => Goto(n, n.phase)
  }

  /** The pool's reply reaches the task that waits for it. */
  function Receive(n: Node, reply: JobResponse): Node {
    match (n.phase, reply)
    case (AwaitBuild, EmptyJobs) => n.(phase := PrepareBuild)
    case (AwaitBuild, Build(id)) => n.(phase := BuildAssigned(id))
    case (AwaitBuild, Run(_, _)) => n.(phase := Panicked)
    case (AwaitTask(c), EmptyJobs) => n.(phase := Built(c))
    case (AwaitTask(c), Build(id)) => n.(phase := if id == c then Panicked else Reassigned(c))
    case (AwaitTask(_), Run(id, job)) => n.(phase := JobAssigned(id, job))
    case _ => n
  }

  /** The job a task is responsible for. */
  function HeldJob(p: Phase): Option<(JobSetIdentifier, Job)> {
    match p
    case JobAssigned(id, job) => Some((id, job))
    case SendingJob(id, job) => Some((id, job))
    case Executing(id, job, _) => Some((id, job))
    case ReceivingResults(id, job) => Some((id, job))
    case _ => None
  }

  /** The set a task was told to compile, or has compiled. */
  function AssignedSet(p: Phase): Option<JobSetIdentifier> {
    match p
    case BuildAssigned(id) => Some(id)
    case SendingBuild(id) => Some(id)
    case Building(id) => Some(id)
    case Built(id) => Some(id)
    case AwaitTask(id) => Some(id)
    case Reassigned(id) => Some(id)
    case _ => if HeldJob(p).Some? then Some(HeldJob(p).value.0) else None
  }

  /** The identifier a waiting task gave in its request. */
  function Asked(p: Phase): Option<JobSetIdentifier> {
    match p
    case AwaitBuild => Some(NoSet)
    case AwaitTask(id) => Some(id)
    case _ => None
  }

  /** The job of a request that gives a job back to the pool. */
  function CarriedJob(req: JobRequest): Option<(JobSetIdentifier, Job)> {
    match req
    case DeadNode(id, job) => Some((id, job))
    case FinishJob(id, job) => Some((id, job))
    case _ => None
  }

  /**
   A task's own conservation law: whatever job it held it still holds, or it gave it to the pool
   in exactly one message, or it leaked it; and it never comes by a job on its own.  After an error the
   message gives the job back, otherwise it reports it finished.  A leak is the failed send of
   `ExecuteJob` and nothing else.
   */
  lemma StepKeepsTheJob(n: Node, me: nat, ev: Event)
    ensures var m := Step(n, me, ev);
            var held := HeldJob(n.phase);
            && |m.sends| <= 1
            && (m.leak.Some? <==> n.phase.JobAssigned? && ev.Error?)
            && (held.None? ==> HeldJob(m.node.phase).None? && m.leak.None? && forall r <- m.sends :: CarriedJob(r).None?)
            && (held.Some? ==>
                  || (HeldJob(m.node.phase) == held && m.sends == [] && m.leak.None?)
                  || (HeldJob(m.node.phase).None? && |m.sends| == 1 && CarriedJob(m.sends[0]) == held && m.leak.None?
                      && (m.sends[0].DeadNode? <==> ev.Error?))
                  || (HeldJob(m.node.phase).None? && m.sends == [] && m.leak == held))
  {
  }

  /** What a task asks the pool: for itself, with what it has compiled, can do, and failed to build. */
  function Request(n: Node, me: nat): JobRequest {
    NewJob(me, if n.phase.Built? then n.phase.ident else NoSet, n.caps, n.errored)
  }

  /**
   A round of asking.  A task that asks and is given nothing is where it was, to ask the same again.
   Told to compile, it sends the build if it has compiled nothing, and else first takes its node back to
   where it has compiled nothing.  Told to run a job it sends the job.  The other answers are bugs.
   */
  lemma AskingRound(n: Node, me: nat, id: JobSetIdentifier, job: Job)
    requires n.phase.PrepareBuild? || n.phase.Built?
    ensures var m := Step(n, me, KeepaliveAnswered);
            && m.sends == [Request(n, me)] && m.leak.None?
            && Receive(m.node, EmptyJobs) == n
            && Step(Receive(m.node, Build(id)), me, Sent).node == n.(
                 phase := if n.phase.PrepareBuild? then SendingBuild(id) else if n.phase.ident == id then Panicked else PrepareBuild)
            && Step(Receive(m.node, Run(id, job)), me, Sent).node == n.(
                 phase := if n.phase.PrepareBuild? then Panicked else SendingJob(id, job))
  {
  }

  /** Apart from the phase a move changes two things: a failed build is recorded, and a token that is read is gone. */
  lemma StepKeepsTheRest(n: Node, me: nat, ev: Event, reply: JobResponse)
    ensures var m := Step(n, me, ev).node;
            && m.caps == n.caps
            && m.errored == n.errored + (if n.phase.Building? && ev == Compiled(false) then {n.phase.ident} else {})
            && m.tokens == if n.phase.Executing? && ev.Token? && n.tokens != [] then n.tokens[1..] else n.tokens
    ensures Receive(n, reply) == n.(phase := Receive(n, reply).phase)
  {
  }

  // ---------------------------------------------------------------- the cancellation monitor

  /** Reading the whole of a task's token buffer while it executes. */
  function ReadTokens(n: Node, connects: seq<bool>): Node
    requires n.phase.Executing? && |connects| == |n.tokens|
    decreases |connects|
  {
    if connects == [] then n else ReadTokens(Step(n, 0, Token(connects[0])).node, connects[1..])
  }

  lemma {:induction false} ReadTokensMarks(n: Node, connects: seq<bool>)
    requires n.phase.Executing? && |connects| == |n.tokens|
    ensures var p := n.phase;
            ReadTokens(n, connects) == n.(
              tokens := [],
              phase := Executing(p.ident, p.job,
                p.cancelled || exists k :: 0 <= k < |connects| && n.tokens[k] == p.ident && connects[k]))
    decreases |connects|
  {
    if connects != [] {
      var m := Step(n, 0, Token(connects[0])).node;
      ReadTokensMarks(m, connects[1..]);
      assert forall k :: 0 <= k < |m.tokens| ==> m.tokens[k] == n.tokens[k + 1] && connects[1..][k] == connects[k + 1];
      if k :| 0 <= k < |connects| && n.tokens[k] == n.phase.ident && connects[k] {
        assert k == 0 || (m.tokens[k - 1] == n.phase.ident && connects[1..][k - 1]);
      }
      if k :| 0 <= k < |m.tokens| && m.tokens[k] == n.phase.ident && connects[1..][k] {
        assert n.tokens[k + 1] == n.phase.ident && connects[k + 1];
      }
    }
  }

  /** The monitor as a loop over the tokens received while a job runs. */
  method CheckBroadcastForMatchingToken(ident: JobSetIdentifier, job: Job, tokens: seq<JobSetIdentifier>, connects: seq<bool>)
    returns (cancelled: bool)
    requires |connects| == |tokens|
    ensures cancelled <==> exists k :: 0 <= k < |tokens| && tokens[k] == ident && connects[k]
    ensures ReadTokens(Node({}, {}, Executing(ident, job, false), tokens), connects)
         == Node({}, {}, Executing(ident, job, cancelled), [])
  {
    cancelled := false;
    for i := 0 to |tokens|
      invariant cancelled <==> exists k :: 0 <= k < i && tokens[k] == ident && connects[k]
    {
      if tokens[i] == ident {
        if connects[i] {
          cancelled := true;
        }
      }
    }
    ReadTokensMarks(Node({}, {}, Executing(ident, job, false), tokens), connects);
  }

  // ---------------------------------------------------------------- the build loop

  /**
   What one round of the build loop meets: the scheduler as others have left it by then, and whether
   the connection and the keepalive hold throughout the round.
   */
  datatype Round = Round(sched: Schedule.Sched, connected: bool)

  datatype BuildResult = BuiltSet(ident: JobSetIdentifier) | Disconnected | StillAsking

  /**
   What became of a round: nothing could be given to the node (`None`), or a set it was given did not
   compile.  In the first case no set that is eligible compiles; in the second the set was eligible.
   */
  ghost predicate RoundAccounted(round: Round, tried: Option<JobSetIdentifier>, caps: set<string>,
                                 errored: set<JobSetIdentifier>, compiles: JobSetIdentifier -> bool)
  {
    && round.connected
    && match tried
       case None => forall id :: Schedule.Eligible(round.sched, id, caps, errored) ==> !compiles(id)
       case Some(id) => Schedule.Eligible(round.sched, id, caps, errored) && !compiles(id)
  }

  /** The sets that were tried are the ones recorded since the start, each of them tried once. */
  ghost predicate TriedOnce(tried: seq<Option<JobSetIdentifier>>, errored: set<JobSetIdentifier>, failures: set<JobSetIdentifier>) {
    && errored <= failures
    && (forall k :: 0 <= k < |tried| && tried[k].Some? ==> tried[k].value in failures - errored)
    && (forall id <- failures - errored :: Some(id) in tried)
    && (forall j, k :: 0 <= j < k < |tried| && tried[j].Some? ==> tried[j] != tried[k])
  }

  /** Nothing is left that would compile, or the first set that does, or one that was not tried yet and does not. */
  ghost predicate AnswerServes(round: Round, task: JobResponse, caps: set<string>, errored: set<JobSetIdentifier>,
                               failures: set<JobSetIdentifier>, compiles: JobSetIdentifier -> bool)
  {
    match task
    case EmptyJobs => RoundAccounted(round, None, caps, errored, compiles)
    case Run(_, _) => false
    case Build(b) =>
      && Schedule.Eligible(round.sched, b, caps, failures)
      && (compiles(b) ==>
            forall id :: Schedule.Eligible(round.sched, id, caps, errored) && compiles(id) ==>
              id == b || Schedule.Earlier(round.sched, b, id))
      && (!compiles(b) ==> RoundAccounted(round, Some(b), caps, errored, compiles))
  }

  /** The answer to a request from a node without a compiled set, whose recorded sets do not compile. */
  lemma RoundAnswer(round: Round, caps: set<string>, errored: set<JobSetIdentifier>, failures: set<JobSetIdentifier>,
                    node: nat, compiles: JobSetIdentifier -> bool)
    requires round.sched.Valid() && round.connected && errored <= failures
    requires forall id <- failures - errored :: !compiles(id)
    ensures AnswerServes(round, Schedule.FetchNewTask(round.sched, NoSet, caps, failures, node).1, caps, errored, failures, compiles)
  {
    Schedule.EmptyJobsIffNothingEligible(round.sched, NoSet, caps, failures, node);
    Schedule.FetchPriority(round.sched, NoSet, caps, failures, node);
    Schedule.AnswerFitsTheAsker(round.sched, NoSet, caps, failures, node);
  }

  /** One request of the build loop, to the scheduler as others have left it. */
  method FetchBuild(scheduler: GpuPriority, round: Round, caps: set<string>, ghost errored: set<JobSetIdentifier>,
                    failures: set<JobSetIdentifier>, node: nat, ghost compiles: JobSetIdentifier -> bool)
    returns (task: JobResponse)
    requires round.sched.Valid() && round.sched.last <= U64_MAX && round.connected && errored <= failures
    requires forall id <- failures - errored :: !compiles(id)
    modifies scheduler
    ensures AnswerServes(round, task, caps, errored, failures, compiles)
  {
    RoundAnswer(round, caps, errored, failures, node, compiles);
    scheduler.sets, scheduler.lastIdentifier := round.sched.sets, round.sched.last;
    task := scheduler.FetchNewTask(NoSet, caps, failures, node);
  }

  /**
   The build loop: ask for a set, compile it, and on a failed build record it and ask again, while
   other nodes and users change the scheduler in between and the connection may break.  The node ends
   with the set that comes first among those it could take and compile at that moment.  A set is
   never tried twice, so however long the loop goes on, builds fail at most once a set.
   */
  method PrepareBuildToBuilt(scheduler: GpuPriority, caps: set<string>, errored: set<JobSetIdentifier>, node: nat,
                             compiles: JobSetIdentifier -> bool, rounds: seq<Round>)
    returns (r: BuildResult, failures: set<JobSetIdentifier>, tried: seq<Option<JobSetIdentifier>>)
    requires forall k :: 0 <= k < |rounds| ==> rounds[k].sched.Valid() && rounds[k].sched.last <= U64_MAX
    modifies scheduler
    ensures |tried| <= |rounds| && TriedOnce(tried, errored, failures)
    ensures forall k :: 0 <= k < |tried| ==> RoundAccounted(rounds[k], tried[k], caps, errored, compiles)
    ensures match r
            case StillAsking => |tried| == |rounds|
            case Disconnected => |tried| < |rounds| && !rounds[|tried|].connected
            case BuiltSet(b) =>
              && |tried| < |rounds| && rounds[|tried|].connected
              && Schedule.Eligible(rounds[|tried|].sched, b, caps, failures) && compiles(b)
              && forall id :: Schedule.Eligible(rounds[|tried|].sched, id, caps, errored) && compiles(id) ==>
                   id == b || Schedule.Earlier(rounds[|tried|].sched, b, id)
  {
    failures, tried := errored, [];
    while |tried| < |rounds|
      invariant |tried| <= |rounds| && TriedOnce(tried, errored, failures)
      invariant forall id <- failures - errored :: !compiles(id)
      invariant forall k :: 0 <= k < |tried| ==> RoundAccounted(rounds[k], tried[k], caps, errored, compiles)
    {
      var round := rounds[|tried|];
      if !round.connected {
        return Disconnected, failures, tried;
      }
      var task := FetchBuild(scheduler, round, caps, errored, failures, node, compiles);
      match task {
        case EmptyJobs =>
          tried := tried + [None];
        case Run(_, _) => assert false;
        case Build(id) =>
          if compiles(id) {
            return BuiltSet(id), failures, tried;
          }
          TriedOnceMore(tried, errored, failures, id);
          failures := failures + {id};
          tried := tried + [Some(id)];
      }
    }
    return StillAsking, failures, tried;
  }

  lemma TriedOnceMore(tried: seq<Option<JobSetIdentifier>>, errored: set<JobSetIdentifier>,
                      failures: set<JobSetIdentifier>, id: JobSetIdentifier)
    requires TriedOnce(tried, errored, failures) && id !in failures
    ensures TriedOnce(tried + [Some(id)], errored, failures + {id})
  {
    var more := tried + [Some(id)];
    assert more[|tried|] == Some(id);
    forall x <- failures + {id} - errored ensures Some(x) in more {
      assert x in failures - errored ==> Some(x) in tried;
    }
  }
}
