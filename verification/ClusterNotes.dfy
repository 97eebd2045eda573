/** What the scheduler notes about running jobs is true: the node it names is the one that has the job. */
module ClusterNotes {
  import opened Types
  import opened JobPool
  import opened Cluster
  import opened ClusterInvariant
  import opened ClusterTheorems
  import Schedule
  import Node

  // ---------------------------------------------------------------- names that occur once

  ghost predicate DistinctNames(jobs: seq<Job>) {
    forall j, k :: 0 <= j < k < |jobs| ==> jobs[j].name != jobs[k].name
  }

  lemma {:induction false} NoneOfThatName(jobs: seq<Job>, name: string)
    requires forall k :: 0 <= k < |jobs| ==> jobs[k].name != name
    ensures Tally(jobs, ByName(name)) == 0
  {
    if jobs != [] {
      NoneOfThatName(jobs[..|jobs| - 1], name);
    }
  }

  lemma {:induction false} DistinctNamesTally(jobs: seq<Job>, name: string)
    requires DistinctNames(jobs)
    ensures Tally(jobs, ByName(name)) <= 1
  {
    if jobs != [] {
      var front, last := jobs[..|jobs| - 1], jobs[|jobs| - 1];
      if last.name == name {
        assert forall k :: 0 <= k < |front| ==> front[k].name == jobs[k].name != name;
        NoneOfThatName(front, name);
      } else {
        DistinctNamesTally(front, name);
      }
    }
  }

  lemma {:induction false} RemoveFirstKeepsOthers(running: seq<RunningJob>, name: string, j: RunningJob)
    requires j in running && j.jobName != name
    ensures j in Schedule.RemoveFirst(running, name)
  {
    if running[0].jobName != name && running[0] != j {
      RemoveFirstKeepsOthers(running[1..], name, j);
    }
  }

  lemma {:induction false} RunningNamesAt(running: seq<RunningJob>, k: nat)
    requires k < |running|
    ensures Schedule.RunningNames(running)[running[k].jobName] > 0
  {
    if k > 0 {
      RunningNamesAt(running[1..], k - 1);
    }
  }

  /** Two entries of one name count twice. */
  lemma {:induction false} TwoOfOneName(running: seq<RunningJob>, j: nat, k: nat)
    requires j < k < |running| && running[j].jobName == running[k].jobName
    ensures Schedule.RunningNames(running)[running[j].jobName] >= 2
  {
    if j == 0 {
      RunningNamesAt(running[1..], k - 1);
    } else {
      TwoOfOneName(running[1..], j - 1, k - 1);
    }
  }

  // ---------------------------------------------------------------- the notes of a run

  /** Node `i` is noted for the job it has, if the job names of its set are distinct. */
  ghost predicate NotedOn(s: State, i: nat, id: JobSetIdentifier, job: Job) {
    OnNode(s, i, id, job) && id in s.books && DistinctNames(s.books[id].initial) ==>
      id in s.sched.sets && RunningJob(job.name, i) in s.sched.sets[id].running
  }

  ghost predicate Noted(s: State) {
    forall i: nat, id, job :: NotedOn(s, i, id, job)
  }

  /** The set of a job on a node is in the map. */
  lemma OnNodeIsKnown(s: State, i: nat, id: JobSetIdentifier, job: Job)
    requires Inv(s) && OnNode(s, i, id, job)
    ensures id in s.sched.sets && id in s.books && Outstanding(s, id, ByName(job.name)) > 0
  {
    HeldAtLeast(s.nodes, i, id, ByName(job.name));
    assert Conserved(s, id, ByName(job.name));
  }

  /** Another job of the set that is reported while this one is on a node has another name. */
  lemma ReportedHasOtherName(s: State, i: nat, id: JobSetIdentifier, job: Job)
    requires Inv(s) && OnNode(s, i, id, job) && s.queue != []
    requires id in s.books && DistinctNames(s.books[id].initial)
    ensures Node.CarriedJob(s.queue[0]).Some? && Node.CarriedJob(s.queue[0]).value.0 == id ==>
              Node.CarriedJob(s.queue[0]).value.1.name != job.name
  {
    var k := ByName(job.name);
    OnNodeIsKnown(s, i, id, job);
    HeldAtLeast(s.nodes, i, id, k);
    QueuedAtLeast(s.queue, 0, id, k);
    DistinctNamesTally(s.books[id].initial, job.name);
    assert Conserved(s, id, k);
  }

  lemma AnswerNotes(s: State, t: State, reply: JobResponse, i: nat, id: JobSetIdentifier, job: Job)
    requires Inv(s) && NotedOn(s, i, id, job) && OnNode(t, i, id, job)
    requires s.queue != [] && s.queue[0].NewJob? && Answers(s, t, s.queue[0].node, reply)
    requires Node.Asked(s.nodes[s.queue[0].node].phase).Some?
    ensures NotedOn(t, i, id, job)
  {
    if reply.Run? {
      Schedule.RunNextHandsOut(s.sched, reply.ident, s.queue[0].node);
    }
  }

  lemma ReturnNotes(s: State, t: State, i: nat, id: JobSetIdentifier, job: Job)
    requires Inv(s) && Inv(t) && PoolCanServe(s) && t == Served(s) && Node.CarriedJob(s.queue[0]).Some?
    requires NotedOn(s, i, id, job) && OnNode(t, i, id, job)
    ensures NotedOn(t, i, id, job)
  {
    var (ident, returned) := Node.CarriedJob(s.queue[0]).value;
    ServedReturn(s);
    OnNodeIsKnown(t, i, id, job);
    assert OnNode(s, i, id, job);
    OnNodeIsKnown(s, i, id, job);
    if id == ident && DistinctNames(s.books[id].initial) {
      ReportedHasOtherName(s, i, id, job);
      RemoveFirstKeepsOthers(s.sched.sets[id].running, returned.name, RunningJob(job.name, i));
    }
  }

  lemma ServedNotes(s: State, i: nat, id: JobSetIdentifier, job: Job)
    requires Inv(s) && PoolCanServe(s) && NotedOn(s, i, id, job)
    ensures NotedOn(Served(s), i, id, job)
  {
    var t := Served(s);
    ServedInv(s);
    if OnNode(t, i, id, job) {
      if s.queue[0].NewJob? {
        ServedAnswers(s);
        AnswerNotes(s, t, Reply(s), i, id, job);
      } else if Node.CarriedJob(s.queue[0]).Some? {
        ReturnNotes(s, t, i, id, job);
      } else {
        ServedQuiet(s);
        ServedUser(s);
        OnNodeIsKnown(s, i, id, job);
      }
    }
  }

  lemma StepNotes(s: State, ev: Event, i: nat, id: JobSetIdentifier, job: Job)
    requires Inv(s) && NotedOn(s, i, id, job)
    ensures NotedOn(Apply(s, ev), i, id, job)
  {
    match ev
    case NodeMoves(j, e) => if j < |s.nodes| { Node.StepKeepsTheJob(s.nodes[j], j, e); }
    case PoolServes => if PoolCanServe(s) { ServedNotes(s, i, id, job); }
    case _ =>
  }

  lemma {:induction false} RunNotes(s: State, events: seq<Event>)
    requires Inv(s) && Noted(s)
    ensures Noted(RunFrom(s, events))
    decreases |events|
  {
    if events != [] {
      StepInv(s, events[0]);
      forall i: nat, id, job ensures NotedOn(Apply(s, events[0]), i, id, job) {
        StepNotes(s, events[0], i, id, job);
      }
      RunNotes(Apply(s, events[0]), events[1..]);
    }
  }

  /**
   The running list is right.  In every reachable state, for a set whose jobs have distinct names, a
   job that is on a node is noted as running on that node and on no other.
   */
  lemma RunningListNamesTheNode(s: State, i: nat, id: JobSetIdentifier, job: Job)
    requires Reachable(s) && OnNode(s, i, id, job) && id in s.books && DistinctNames(s.books[id].initial)
    ensures id in s.sched.sets
    ensures forall k :: RunningJob(job.name, k) in s.sched.sets[id].running <==> k == i
  {
    var caps: seq<set<string>>, events: seq<Event> :| s == RunFrom(Init(caps), events);
    InitInv(caps);
    RunNotes(Init(caps), events);
    ReachableInv(s);
    assert NotedOn(s, i, id, job);
    var running := s.sched.sets[id].running;
    assert Conserved(s, id, ByName(job.name));
    DistinctNamesTally(s.books[id].initial, job.name);
    forall k | RunningJob(job.name, k) in running ensures k == i {
      var x :| 0 <= x < |running| && running[x] == RunningJob(job.name, k);
      var y :| 0 <= y < |running| && running[y] == RunningJob(job.name, i);
      if x < y {
        TwoOfOneName(running, x, y);
      } else if y < x {
        TwoOfOneName(running, y, x);
      }
    }
  }

  /** And so is what users are told: the answer to a query has an entry of the job's batch which names the node. */
  lemma UsersAreToldTheNode(s: State, i: nat, id: JobSetIdentifier, job: Job)
    requires Reachable(s) && PoolCanServe(s) && s.queue[0] == QueryRemainingJobs
    requires OnNode(s, i, id, job) && id in s.books && DistinctNames(s.books[id].initial)
    ensures var sent := Sends(s.queue[0], Serve(s.sched, s.queue[0], |s.nodes|));
            && |sent| == 1 && sent[0].ToUser? && sent[0].answer.Remaining?
            && id in s.sched.sets
            && exists r <- sent[0].answer.sets ::
                 && r.batchName == s.sched.sets[id].batchName && RunningJob(job.name, i) in r.running
                 && forall k :: RunningJob(job.name, k) in r.running ==> k == i
  {
    ReachableInv(s);
    RunningListNamesTheNode(s, i, id, job);
    SendsReachTheAsker(s.sched, s.queue[0], |s.nodes|);
    var told := Sends(s.queue[0], Serve(s.sched, s.queue[0], |s.nodes|))[0].answer.sets;
    var place := |Schedule.IdsUpTo(s.sched, id.number - 1)|;
    assert Schedule.Tells(told[place], s.sched.sets[id]) && told[place] in told;
  }

  /** What a user submits is what is kept: the set's name, what it requires, and all its jobs in order, none running. */
  lemma SubmittedSetIsWhole(s: State)
    requires Reachable(s) && PoolCanServe(s) && s.queue[0].AddJobSet?
    ensures var t, id, jobs := Served(s), Identity(s.sched.last + 1), s.queue[0].jobs;
            && id !in s.sched.sets && id in t.sched.sets && id in t.books
            && t.sched.sets[id] == JobSet(jobs.batchName, jobs.capabilities, jobs.jobs, [])
            && t.books[id] == Account(jobs.capabilities, jobs.jobs, [], [], [])
            && forall other <- s.sched.sets :: other in t.sched.sets && t.sched.sets[other] == s.sched.sets[other]
  {
    ReachableInv(s);
  }

  // ---------------------------------------------------------------- nodes and tokens

  /** A node's capabilities are what they were at the start, in every state of every run. */
  lemma {:induction false} CapabilitiesStay(s: State, events: seq<Event>, i: nat)
    requires i < |s.nodes|
    ensures i < |RunFrom(s, events).nodes| && RunFrom(s, events).nodes[i].caps == s.nodes[i].caps
    decreases |events|
  {
    if events != [] {
      CapabilitiesStep(s, events[0], i);
      CapabilitiesStay(Apply(s, events[0]), events[1..], i);
    }
  }

  lemma CapabilitiesStep(s: State, ev: Event, i: nat)
    requires i < |s.nodes|
    ensures |Apply(s, ev).nodes| == |s.nodes| && Apply(s, ev).nodes[i].caps == s.nodes[i].caps
  {
    if ev.NodeMoves? && ev.node == i {
      Node.StepKeepsTheRest(s.nodes[i], i, ev.event, EmptyJobs);
    }
  }

  /** The token a step broadcasts. */
  ghost function Token(s: State, ev: Event): seq<JobSetIdentifier> {
    if !(ev.PoolServes? && PoolCanServe(s)) then []
    else
      var token := Serve(s.sched, s.queue[0], |s.nodes|).token;
      if token.Some? then [token.value] else []
  }

  ghost function Tokens(s: State, events: seq<Event>): seq<JobSetIdentifier>
    decreases |events|
  {
    if events == [] then [] else Token(s, events[0]) + Tokens(Apply(s, events[0]), events[1..])
  }

  /** `buffer` is the end of `all`. */
  ghost predicate IsEnd(buffer: seq<JobSetIdentifier>, all: seq<JobSetIdentifier>) {
    |buffer| <= |all| && buffer == all[|all| - |buffer|..]
  }

  lemma IsEndLoses(buffer: seq<JobSetIdentifier>, all: seq<JobSetIdentifier>, lost: nat)
    requires IsEnd(buffer, all) && lost <= |buffer|
    ensures IsEnd(buffer[lost..], all)
  {
  }

  lemma IsEndHears(buffer: seq<JobSetIdentifier>, all: seq<JobSetIdentifier>, token: seq<JobSetIdentifier>)
    requires IsEnd(buffer, all)
    ensures IsEnd(buffer + token, all + token)
  {
  }

  lemma TokensStep(s: State, ev: Event, i: nat, all: seq<JobSetIdentifier>)
    requires i < |s.nodes| && IsEnd(s.nodes[i].tokens, all)
    ensures i < |Apply(s, ev).nodes| && IsEnd(Apply(s, ev).nodes[i].tokens, all + Token(s, ev))
  {
    var n, t := s.nodes[i], Apply(s, ev);
    assert all + [] == all && n.tokens + [] == n.tokens;
    IsEndHears(n.tokens, all, Token(s, ev));
    match ev
    case NodeMoves(j, e) =>
      Node.StepKeepsTheRest(n, i, e, EmptyJobs);
      if n.tokens != [] {
        IsEndLoses(n.tokens, all, 1);
      }
    case ReceiverLags(j, lost) => if lost <= |n.tokens| { IsEndLoses(n.tokens, all, lost); }
    case _ =>
  }

  lemma Regroup(a: seq<JobSetIdentifier>, b: seq<JobSetIdentifier>, c: seq<JobSetIdentifier>)
    ensures a + b + c == a + (b + c)
  {
  }

  lemma {:induction false} TokensRun(s: State, events: seq<Event>, i: nat, all: seq<JobSetIdentifier>)
    requires i < |s.nodes| && IsEnd(s.nodes[i].tokens, all)
    ensures i < |RunFrom(s, events).nodes| && IsEnd(RunFrom(s, events).nodes[i].tokens, all + Tokens(s, events))
    decreases |events|
  {
    if events == [] {
      assert all + [] == all;
    } else {
      TokensStep(s, events[0], i, all);
      TokensRun(Apply(s, events[0]), events[1..], i, all + Token(s, events[0]));
      Regroup(all, Token(s, events[0]), Tokens(Apply(s, events[0]), events[1..]));
    }
  }

  /**
   Every node hears every cancellation, in the order they were served: what it has still to read is
   always the end of the list of all tokens broadcast so far.
   */
  lemma NodesHearInOrder(caps: seq<set<string>>, events: seq<Event>, i: nat)
    requires i < |caps|
    ensures var t := RunFrom(Init(caps), events);
            i < |t.nodes| && t.nodes[i].caps == caps[i] && IsEnd(t.nodes[i].tokens, Tokens(Init(caps), events))
  {
    CapabilitiesStay(Init(caps), events, i);
    TokensRun(Init(caps), events, i, []);
    assert [] + Tokens(Init(caps), events) == Tokens(Init(caps), events);
  }

  // ---------------------------------------------------------------- the books

  /** A set's finished jobs grow when the pool serves a report of one of its jobs, and by that job. */
  lemma FinishedGrowsByReports(s: State, ev: Event, id: JobSetIdentifier)
    requires Inv(s) && id in s.books
    ensures var t := Apply(s, ev);
            id in t.books && t.books[id].finished == s.books[id].finished +
              (if ev.PoolServes? && s.queue != [] && s.queue[0].FinishJob? && s.queue[0].ident == id
               then [s.queue[0].job] else [])
  {
    assert s.books[id].finished + [] == s.books[id].finished;
    if ev.PoolServes? && PoolCanServe(s) && s.queue[0].FinishJob? {
      ServedReturn(s);
    }
  }

  /** Its cancelled jobs grow when the pool serves a cancellation that resolves to it, by the jobs that were left. */
  lemma CancelledGrowsByTokens(s: State, ev: Event, id: JobSetIdentifier)
    requires Inv(s) && id in s.books
    ensures var t := Apply(s, ev);
            id in t.books && t.books[id].cancelled == s.books[id].cancelled +
              (if id in s.sched.sets && Token(s, ev) == [id] then s.sched.sets[id].remaining else [])
  {
    assert s.books[id].cancelled + [] == s.books[id].cancelled;
  }
}
