/** Facts about whole continuations: when a set is dropped, what pins it, what a cancellation guarantees. */
module ClusterRuns {
  import opened Types
  import opened JobPool
  import opened Cluster
  import opened ClusterInvariant
  import opened ClusterTheorems
  import Schedule
  import Node

  // ---------------------------------------------------------------- when a set is dropped

  /** Nothing of the set waits, is on a node, or is on its way back. */
  ghost predicate Idle(s: State, id: JobSetIdentifier) {
    && id in s.sched.sets && s.sched.sets[id].remaining == []
    && forall k :: Outstanding(s, id, k) == 0
  }

  /**
   A set leaves the map in one way only: the pool serves the `FinishJob` of its last job in
   transit, with nothing remaining and nothing ever leaked.
   */
  lemma DroppedExactlyAtLastReport(s: State, ev: Event, id: JobSetIdentifier)
    requires Reachable(s) && id in s.sched.sets
    ensures id in s.books
    ensures id !in Apply(s, ev).sched.sets <==>
      && ev.PoolServes? && s.queue != [] && s.queue[0].FinishJob? && s.queue[0].ident == id
      && s.sched.sets[id].remaining == []
      && s.books[id].leaked == []
      && InTransit(s, id) == [s.queue[0].job]
  {
    ReachableInv(s);
    assert Conserved(s, id, ByName(""));
    if ev.PoolServes? && PoolCanServe(s) {
      if s.queue[0].NewJob? {
        ServedAnswers(s);
      } else if s.queue[0].FinishJob? && s.queue[0].ident == id {
        LastRunning(s, id);
      }
    }
  }

  /** Serving a report empties the running list exactly when the reported job is all that is in transit or leaked. */
  lemma LastRunning(s: State, id: JobSetIdentifier)
    requires Reachable(s) && PoolCanServe(s) && s.queue[0].FinishJob? && s.queue[0].ident == id
    requires id in s.sched.sets && id in s.books
    ensures Schedule.RemoveFirst(s.sched.sets[id].running, s.queue[0].job.name) == []
       <==> s.books[id].leaked == [] && InTransit(s, id) == [s.queue[0].job]
  {
    ReachableInv(s);
    var job, running := s.queue[0].job, s.sched.sets[id].running;
    JobsAreConserved(s, id);
    ReturnedJobIsKnown(s);
    Schedule.RemoveFirstTakesOne(running, job.name);
    assert |Schedule.RunningNames(Schedule.RemoveFirst(running, job.name))| == |running| - 1;
    NamesLength(InTransit(s, id) + s.books[id].leaked);
    QueueHeadInTransit(s, id);
  }

  lemma {:induction false} NamesLength(jobs: seq<Job>)
    ensures |Names(jobs)| == |jobs|
  {
    if jobs != [] {
      NamesLength(jobs[..|jobs| - 1]);
    }
  }

  lemma QueueHeadInTransit(s: State, id: JobSetIdentifier)
    requires s.queue != [] && s.queue[0].FinishJob? && s.queue[0].ident == id
    ensures s.queue[0].job in InTransit(s, id)
  {
    assert QueuedJobs(s.queue, id)[0] == s.queue[0].job;
    assert InTransit(s, id)[|HeldJobs(s.nodes, id)|] == s.queue[0].job;
  }

  /** With nothing waiting and nothing in transit, no event ever changes the set again. */
  lemma IdleStep(s: State, ev: Event, id: JobSetIdentifier)
    requires Inv(s) && Idle(s, id)
    ensures Idle(Apply(s, ev), id) && Apply(s, ev).sched.sets[id] == s.sched.sets[id]
  {
    var t := Apply(s, ev);
    StepInv(s, ev);
    match ev
    case NodeMoves(i, e) =>
      if i < |s.nodes| {
        forall k ensures Outstanding(t, id, k) == 0 {
          NodeMoveBalance(s, i, e, id, k);
          assert Outstanding(s, id, k) == 0;
        }
      }
    case PoolServes => if PoolCanServe(s) { IdleServe(s, id); }
    case UserSubmits(jobs) => IdleEnqueue(s, AddJobSet(jobs), id);
    case UserCancels(name) => IdleEnqueue(s, CancelBatchByName(name), id);
    case UserQueries => IdleEnqueue(s, QueryRemainingJobs, id);
    case ReceiverLags(i, lost) =>
      if t != s {
        forall k ensures Outstanding(t, id, k) == 0 {
          HeldByPhase(t.nodes, s.nodes, id, k);
          assert Outstanding(s, id, k) == 0;
        }
      }
  }

  lemma IdleEnqueue(s: State, req: JobRequest, id: JobSetIdentifier)
    requires Idle(s, id) && Node.CarriedJob(req).None?
    ensures Idle(s.(queue := s.queue + [req]), id)
  {
    forall k ensures Outstanding(s.(queue := s.queue + [req]), id, k) == 0 {
      QueuedAppend(s.queue, req, id, k);
      assert Outstanding(s, id, k) == 0;
    }
  }

  lemma IdleServe(s: State, id: JobSetIdentifier)
    requires Inv(s) && Idle(s, id) && PoolCanServe(s)
    ensures Idle(Served(s), id) && Served(s).sched.sets[id] == s.sched.sets[id]
  {
    var t, req := Served(s), s.queue[0];
    if req.NewJob? {
      ServedAnswers(s);
      forall k ensures Outstanding(t, id, k) == 0 {
        assert Conserved(s, id, k) && Outstanding(s, id, k) == 0;
        AnswerConserves(s, t, req.node, Reply(s), id, k);
      }
    } else {
      ServedQuiet(s);
      forall k ensures Outstanding(t, id, k) == 0 {
        QuietOutstanding(s, Served(s), id, k);
        assert Outstanding(s, id, k) == 0;
      }
      NotReturned(s, id);
      if Node.CarriedJob(req).Some? {
        ServedReturn(s);
      } else {
        ServedUser(s);
      }
    }
  }

  lemma NotReturned(s: State, id: JobSetIdentifier)
    requires Idle(s, id) && s.queue != []
    ensures Node.CarriedJob(s.queue[0]).Some? ==> Node.CarriedJob(s.queue[0]).value.0 != id
  {
    if Node.CarriedJob(s.queue[0]).Some? {
      assert Outstanding(s, id, ByJob(Node.CarriedJob(s.queue[0]).value.1)) == 0;
    }
  }

  /**
   A cancelled set is not always dropped later on.  If nothing of it is in transit when its last
   remaining jobs go, no report is left to come: it stays in the map, empty, in every continuation.
   */
  lemma {:induction false} IdleForever(s: State, events: seq<Event>, id: JobSetIdentifier)
    requires Inv(s) && Idle(s, id)
    ensures Idle(RunFrom(s, events), id) && RunFrom(s, events).sched.sets[id] == s.sched.sets[id]
    decreases |events|
  {
    if events != [] {
      IdleStep(s, events[0], id);
      StepInv(s, events[0]);
      IdleForever(Apply(s, events[0]), events[1..], id);
    }
  }

  /** A leaked job keeps its set in the map for good, with its name among the running ones. */
  lemma {:induction false} LeakPinsTheSet(s: State, events: seq<Event>, id: JobSetIdentifier, job: Job)
    requires Inv(s) && id in s.books && job in s.books[id].leaked
    ensures var t := RunFrom(s, events);
            && id in t.sched.sets && id in t.books && job in t.books[id].leaked
            && job.name in Schedule.RunningNames(t.sched.sets[id].running)
    decreases |events|
  {
    if events == [] {
      TallyIsMultiplicity(s.books[id].leaked, job);
      TalliesAreNamed(s.books[id].leaked, job);
      assert Conserved(s, id, ByName(job.name));
    } else {
      StepInv(s, events[0]);
      LeaksOnlyGrow(s, events[0], id);
      LeakPinsTheSet(Apply(s, events[0]), events[1..], id, job);
    }
  }

  /** The leaked jobs change only when a node fails to send `ExecuteJob`, and then by that job. */
  lemma LeaksOnlyGrow(s: State, ev: Event, id: JobSetIdentifier)
    requires Inv(s) && id in s.books
    ensures var t := Apply(s, ev);
            id in t.books && t.books[id].leaked == s.books[id].leaked +
              (if ev.NodeMoves? && ev.node < |s.nodes| && ev.event.Error?
                  && s.nodes[ev.node].phase.JobAssigned? && s.nodes[ev.node].phase.ident == id
               then [s.nodes[ev.node].phase.job] else [])
  {
    assert s.books[id].leaked + [] == s.books[id].leaked;
    if ev.NodeMoves? && ev.node < |s.nodes| {
      Node.StepKeepsTheJob(s.nodes[ev.node], ev.node, ev.event);
    }
  }

  // ---------------------------------------------------------------- an idle set shadows its name

  /** No set named like the idle one, and younger, is among the cancelled, unless it was before. */
  ghost predicate Shadowed(t: State, name: string, id: JobSetIdentifier, before: set<JobSetIdentifier>) {
    forall j <- t.sched.sets :: t.sched.sets[j].batchName == name && Before(id, j) && j in t.cancels ==> j in before
  }

  /**
   As long as an idle set is in the map, a batch submitted under the same name cannot be
   cancelled: the name resolves to the idle set.
   */
  lemma {:induction false} IdleSetShadowsItsName(s: State, events: seq<Event>, id: JobSetIdentifier,
                                                 before: set<JobSetIdentifier>)
    requires Inv(s) && Idle(s, id) && Shadowed(s, s.sched.sets[id].batchName, id, before)
    ensures Shadowed(RunFrom(s, events), s.sched.sets[id].batchName, id, before)
    decreases |events|
  {
    if events != [] {
      var name := s.sched.sets[id].batchName;
      var t := Apply(s, events[0]);
      StepInv(s, events[0]);
      IdleStep(s, events[0], id);
      forall j <- t.sched.sets | t.sched.sets[j].batchName == name && Before(id, j) && j in t.cancels
        ensures j in before
      {
        ShadowStep(s, events[0], id, j);
      }
      IdleSetShadowsItsName(t, events[1..], id, before);
    }
  }

  lemma ShadowStep(s: State, ev: Event, id: JobSetIdentifier, j: JobSetIdentifier)
    requires Inv(s) && id in s.sched.sets
    requires j in Apply(s, ev).sched.sets && j in Apply(s, ev).cancels && Before(id, j)
    requires Apply(s, ev).sched.sets[j].batchName == s.sched.sets[id].batchName
    ensures j in s.sched.sets && j in s.cancels && s.sched.sets[j].batchName == s.sched.sets[id].batchName
  {
    if ev.PoolServes? && PoolCanServe(s) {
      var req := s.queue[0];
      if req.NewJob? {
        ServedAnswers(s);
      } else if req.CancelBatchByName? {
        assert Schedule.IsLeast(j, Schedule.IdsNamed(s.sched, req.batchName)) || j in s.cancels;
        assert s.sched.sets[id].batchName == req.batchName ==> id in Schedule.IdsNamed(s.sched, req.batchName);
      }
    }
  }

  // ---------------------------------------------------------------- what a node is given

  /**
   Whatever set a node compiles, has compiled or runs a job of: the node has all the capabilities
   it asks for, and never recorded a failed build of it.  No node reaches a panic.
   */
  lemma TasksFitTheirNode(s: State, i: nat)
    requires Reachable(s) && i < |s.nodes|
    ensures !s.nodes[i].phase.Panicked?
    ensures var n := s.nodes[i];
            var set_ := Node.AssignedSet(n.phase);
            set_.Some? ==> set_.value in s.books && s.books[set_.value].requirements <= n.caps && set_.value !in n.errored
  {
    ReachableInv(s);
    assert NodeOk(s, s.nodes[i]);
  }

  /** What a node may be given next: work left, its capabilities suffice, and it never failed to build the set. */
  ghost predicate CouldDo(s: State, n: Node.Node, id: JobSetIdentifier) {
    && id in s.sched.sets && s.sched.sets[id].remaining != []
    && s.sched.sets[id].requirements <= n.caps && id !in n.errored
  }

  /**
   No node idles while there is work for it: whenever the pool serves a request for work, the
   answer is `EmptyJobs` exactly when no set in the map is one the asking node could do.  Otherwise
   it names a set the node could do, a GPU set if there is one, and asks for a build exactly when
   it is not the set the node has compiled; a run task carries that set's last remaining job.
   */
  lemma NoNodeIdlesWithWork(s: State)
    requires Reachable(s) && PoolCanServe(s) && s.queue[0].NewJob?
    ensures s.queue[0].node < |s.nodes|
    ensures var n, r := s.nodes[s.queue[0].node], Reply(s);
            && (r.EmptyJobs? <==> forall id :: !CouldDo(s, n, id))
            && (!r.EmptyJobs? ==>
                  && CouldDo(s, n, r.ident)
                  && (r.Run? <==> Node.AssignedSet(n.phase) == Some(r.ident))
                  && (r.Run? ==> r.job == s.sched.sets[r.ident].remaining[|s.sched.sets[r.ident].remaining| - 1])
                  && ((exists id :: CouldDo(s, n, id) && GPU in s.sched.sets[id].requirements) ==>
                        GPU in s.sched.sets[r.ident].requirements))
  {
    ReachableInv(s);
    ServedAnswers(s);
    var r := s.queue[0];
    assert RequestOk(s, r);
    var n := s.nodes[r.node];
    assert NodeOk(s, n);
    Schedule.EmptyJobsIffNothingEligible(s.sched, r.initialized, r.caps, r.failures, r.node);
    Schedule.FetchPriority(s.sched, r.initialized, r.caps, r.failures, r.node);
    Schedule.AnswerFitsTheAsker(s.sched, r.initialized, r.caps, r.failures, r.node);
    Schedule.FetchEffect(s.sched, r.initialized, r.caps, r.failures, r.node);
    assert forall id :: CouldDo(s, n, id) ==> id in s.sched.sets;
    assert forall id :: Schedule.Eligible(s.sched, id, r.caps, r.failures) ==> CouldDo(s, n, id);
  }

  /** The failed builds node `i` reports in a run. */
  ghost function FailedBuilds(s: State, events: seq<Event>, i: nat): nat
    requires i < |s.nodes|
    decreases |events|
  {
    if events == [] then 0
    else
      (if s.nodes[i].phase.Building? && events[0] == NodeMoves(i, Node.Compiled(false)) then 1 else 0)
      + FailedBuilds(Apply(s, events[0]), events[1..], i)
  }

  /** Each failed build is one more recorded set: a node never fails to build the same set twice. */
  lemma {:induction false} FailedBuildsAreRecorded(s: State, events: seq<Event>, i: nat)
    requires Inv(s) && i < |s.nodes|
    ensures var t := RunFrom(s, events);
            && |t.nodes| == |s.nodes| && s.nodes[i].errored <= t.nodes[i].errored
            && |t.nodes[i].errored| == |s.nodes[i].errored| + FailedBuilds(s, events, i)
    decreases |events|
  {
    if events != [] {
      StepInv(s, events[0]);
      BuildIsRecorded(s, events[0], i);
      FailedBuildsAreRecorded(Apply(s, events[0]), events[1..], i);
    }
  }

  lemma MoveRecords(n: Node.Node, me: nat, e: Node.Event)
    ensures Node.Step(n, me, e).node.errored
         == if n.phase.Building? && e == Node.Compiled(false) then n.errored + {n.phase.ident} else n.errored
  {
  }

  lemma ServeRecordsNothing(s: State, i: nat)
    requires PoolCanServe(s) && i < |s.nodes|
    ensures |Served(s).nodes| == |s.nodes| && Served(s).nodes[i].errored == s.nodes[i].errored
  {
  }

  lemma BuildIsRecorded(s: State, ev: Event, i: nat)
    requires Inv(s) && i < |s.nodes|
    ensures var t := Apply(s, ev);
            && |t.nodes| == |s.nodes|
            && if s.nodes[i].phase.Building? && ev == NodeMoves(i, Node.Compiled(false)) then
                 && s.nodes[i].phase.ident !in s.nodes[i].errored
                 && t.nodes[i].errored == s.nodes[i].errored + {s.nodes[i].phase.ident}
               else t.nodes[i].errored == s.nodes[i].errored
  {
    assert NodeOk(s, s.nodes[i]);
    if ev.NodeMoves? && ev.node == i {
      MoveRecords(s.nodes[i], i, ev.event);
    } else if ev.PoolServes? && PoolCanServe(s) {
      ServeRecordsNothing(s, i);
    }
  }

  /**
   Over a node's whole life, through every reconnect, it fails at most as many builds as sets were
   submitted; so the loop that asks for another set after a failed build cannot go on for ever.
   */
  lemma FailedBuildsAreBounded(caps: seq<set<string>>, events: seq<Event>, i: nat)
    requires i < |caps|
    ensures FailedBuilds(Init(caps), events, i) <= RunFrom(Init(caps), events).sched.last
  {
    var s, t := Init(caps), RunFrom(Init(caps), events);
    InitInv(caps);
    FailedBuildsAreRecorded(s, events, i);
    EveryRunKeepsInv(caps, events);
    assert NodeOk(t, t.nodes[i]);
    Identities(t.sched.last);
    var all := set n | 1 <= n <= t.sched.last :: Identity(n);
    assert t.nodes[i].errored <= all;
    SubsetSize(t.nodes[i].errored, all);
  }

  lemma {:induction false} Identities(last: nat)
    ensures |set n | 1 <= n <= last :: Identity(n)| == last
  {
    var all := set n | 1 <= n <= last :: Identity(n);
    if last == 0 {
      assert all == {};
    } else {
      Identities(last - 1);
      var fewer := set n | 1 <= n <= last - 1 :: Identity(n);
      assert all == fewer + {Identity(last)} && Identity(last) !in fewer;
    }
  }

  lemma {:induction false} SubsetSize<T>(a: set<T>, b: set<T>)
    requires a <= b
    ensures |a| <= |b|
  {
    if a != {} {
      var x :| x in a;
      SubsetSize(a - {x}, b - {x});
    }
  }

  // ---------------------------------------------------------------- cancellation

  /**
   No spurious cancellation: a job is marked cancelled on a node only if the pool has served a
   cancellation that resolved to the job's own set, however many tokens were buffered before.
   */
  lemma NoSpuriousCancellation(s: State, i: nat)
    requires Reachable(s) && i < |s.nodes| && s.nodes[i].phase.Executing? && s.nodes[i].phase.cancelled
    ensures s.nodes[i].phase.ident in s.cancels
  {
    ReachableInv(s);
    assert NodeOk(s, s.nodes[i]);
  }

  /** A set joins the cancelled ones only when the pool serves a cancellation by its name. */
  lemma CancelsAreServed(s: State, ev: Event, id: JobSetIdentifier)
    requires id !in s.cancels && id in Apply(s, ev).cancels
    ensures ev.PoolServes? && s.queue != [] && s.queue[0].CancelBatchByName?
    ensures id in s.sched.sets && s.sched.sets[id].batchName == s.queue[0].batchName
  {
  }

  /** Identifiers are never reused: a submitted set gets one no account, node, message or token knows. */
  lemma IdentifiersAreFresh(s: State)
    requires Reachable(s) && PoolCanServe(s) && s.queue[0].AddJobSet?
    ensures var id := Identity(s.sched.last + 1);
            && id !in s.books && id in Served(s).books && id !in s.cancels
            && InTransit(s, id) == []
            && forall i :: 0 <= i < |s.nodes| ==>
                 id !in s.nodes[i].tokens && id !in s.nodes[i].errored && Node.AssignedSet(s.nodes[i].phase) != Some(id)
  {
    ReachableInv(s);
    var id := Identity(s.sched.last + 1);
    forall k ensures Tally(InTransit(s, id), k) == 0 {
      InTransitTally(s, id, k);
      assert Conserved(s, id, k);
    }
    NoTallyIsEmpty(InTransit(s, id));
    forall i | 0 <= i < |s.nodes|
      ensures id !in s.nodes[i].tokens && id !in s.nodes[i].errored && Node.AssignedSet(s.nodes[i].phase) != Some(id)
    {
      assert NodeOk(s, s.nodes[i]);
    }
  }

  /** The pool answers with a task of this set. */
  ghost predicate Issues(s: State, ev: Event, id: JobSetIdentifier) {
    && ev.PoolServes? && PoolCanServe(s) && s.queue[0].NewJob?
    && !Reply(s).EmptyJobs? && Reply(s).ident == id
  }

  /** The pool takes back a job of this set. */
  ghost predicate PoolTakesBack(s: State, ev: Event, id: JobSetIdentifier) {
    ev.PoolServes? && PoolCanServe(s) && s.queue[0].DeadNode? && s.queue[0].ident == id
  }

  ghost function Issued(s: State, events: seq<Event>, id: JobSetIdentifier): nat
    decreases |events|
  {
    if events == [] then 0
    else (if Issues(s, events[0], id) then 1 else 0) + Issued(Apply(s, events[0]), events[1..], id)
  }

  ghost function TakenBack(s: State, events: seq<Event>, id: JobSetIdentifier): nat
    decreases |events|
  {
    if events == [] then 0
    else (if PoolTakesBack(s, events[0], id) then 1 else 0) + TakenBack(Apply(s, events[0]), events[1..], id)
  }

  /**
   After a cancellation emptied a set, no task of it is issued until a dead node gives a job of it
   back.
   */
  lemma {:induction false} CancelledSetIssuesNothing(s: State, events: seq<Event>, id: JobSetIdentifier)
    requires Inv(s) && id in s.books && (id in s.sched.sets ==> s.sched.sets[id].remaining == [])
    requires TakenBack(s, events, id) == 0
    ensures Issued(s, events, id) == 0
    decreases |events|
  {
    if events != [] {
      StepInv(s, events[0]);
      EmptiedStaysEmpty(s, events[0], id);
      CancelledSetIssuesNothing(Apply(s, events[0]), events[1..], id);
    }
  }

  /**
   And then it is: the returned job is work again for every node that meets the set's requirements
   and never failed to build it, although the set was cancelled.
   */
  lemma CancelledJobComesBack(s: State, ev: Event, id: JobSetIdentifier, n: Node.Node)
    requires Reachable(s) && id in s.cancels && PoolTakesBack(s, ev, id)
    requires id in s.books && s.books[id].requirements <= n.caps && id !in n.errored
    ensures id in s.sched.sets && id in Apply(s, ev).sched.sets
    ensures Apply(s, ev).sched.sets[id].remaining == s.sched.sets[id].remaining + [s.queue[0].job]
    ensures CouldDo(Apply(s, ev), n, id)
  {
    ReachableInv(s);
    ServedReturn(s);
  }

  lemma EmptiedStaysEmpty(s: State, ev: Event, id: JobSetIdentifier)
    requires Inv(s) && id in s.books && (id in s.sched.sets ==> s.sched.sets[id].remaining == [])
    requires !PoolTakesBack(s, ev, id)
    ensures !Issues(s, ev, id)
    ensures var t := Apply(s, ev); id in t.sched.sets ==> t.sched.sets[id].remaining == []
  {
    if ev.PoolServes? && PoolCanServe(s) && s.queue[0].NewJob? {
      ServedAnswers(s);
    }
  }
}
