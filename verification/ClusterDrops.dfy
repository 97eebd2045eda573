/** When a cancelled set leaves the map, over whole continuations of a run. */
module ClusterDrops {
  import opened Types
  import opened JobPool
  import opened Cluster
  import opened ClusterInvariant
  import opened ClusterTheorems
  import opened ClusterRuns
  import Schedule
  import Node

  /** Nothing is noted as running exactly when nothing is in transit and nothing was leaked. */
  lemma NothingRunningIff(s: State, id: JobSetIdentifier)
    requires Inv(s) && id in s.sched.sets
    ensures id in s.books
    ensures s.sched.sets[id].running == [] <==> InTransit(s, id) == [] && s.books[id].leaked == []
  {
    assert Conserved(s, id, ByName(""));
    var js, a := s.sched.sets[id], s.books[id];
    forall name ensures Schedule.RunningNames(js.running)[name]
                     == Outstanding(s, id, ByName(name)) + Tally(a.leaked, ByName(name))
    {
      assert Conserved(s, id, ByName(name));
    }
    if js.running == [] {
      forall k ensures Tally(InTransit(s, id), k) == 0 && Tally(a.leaked, k) == 0 {
        NothingRunning(js, s, a, id, k);
        InTransitTally(s, id, k);
      }
      NoTallyIsEmpty(InTransit(s, id));
      NoTallyIsEmpty(a.leaked);
    } else {
      var name := js.running[0].jobName;
      InTransitTally(s, id, ByName(name));
      assert Schedule.RunningNames(js.running)[name] > 0;
    }
  }

  /** A set that is gone has nothing in transit and leaked nothing. */
  lemma GoneHasNothing(s: State, id: JobSetIdentifier)
    requires Inv(s) && id in s.books && id !in s.sched.sets
    ensures InTransit(s, id) == [] && s.books[id].leaked == []
  {
    forall k ensures Tally(InTransit(s, id), k) == 0 && Tally(s.books[id].leaked, k) == 0 {
      InTransitTally(s, id, k);
      assert Conserved(s, id, k);
    }
    NoTallyIsEmpty(InTransit(s, id));
    NoTallyIsEmpty(s.books[id].leaked);
  }

  /** A set that is gone, or that has no jobs left to hand out and only waits for reports. */
  ghost predicate Ending(s: State, id: JobSetIdentifier) {
    id in s.books && (id in s.sched.sets ==> s.sched.sets[id].remaining == [] && s.sched.sets[id].running != [])
  }

  lemma FinishEnding(s: State, t: State, ident: JobSetIdentifier, job: Job, id: JobSetIdentifier)
    requires Finishes(s, t, ident, job) && Ending(s, id)
    ensures Ending(t, id)
  {
  }

  lemma TakeBackEnding(s: State, t: State, ident: JobSetIdentifier, job: Job, id: JobSetIdentifier)
    requires TakesBack(s, t, ident, job) && ident != id && Ending(s, id)
    ensures Ending(t, id)
  {
  }

  lemma AnswerEnding(s: State, t: State, i: nat, reply: JobResponse, id: JobSetIdentifier)
    requires Answers(s, t, i, reply) && Ending(s, id)
    ensures Ending(t, id)
  {
  }

  lemma EmptyEnding(s: State, t: State, ident: JobSetIdentifier, id: JobSetIdentifier)
    requires Empties(s, t, ident) && Ending(s, id)
    ensures Ending(t, id)
  {
  }

  lemma SubmitEnding(s: State, t: State, jobs: Jobs, id: JobSetIdentifier)
    requires Submits(s, t, jobs) && BooksComplete(s) && Ending(s, id)
    ensures Ending(t, id)
  {
  }

  lemma ServedEnding(s: State, id: JobSetIdentifier)
    requires Inv(s) && PoolCanServe(s) && Ending(s, id) && !PoolTakesBack(s, PoolServes, id)
    ensures Ending(Served(s), id)
  {
    var t := Served(s);
    match s.queue[0]
    case NewJob(i, _, _, _) => ServedAnswers(s); AnswerEnding(s, t, i, Reply(s), id);
    case FinishJob(ident, job) => ServedReturn(s); FinishEnding(s, t, ident, job, id);
    case DeadNode(ident, job) => ServedReturn(s); TakeBackEnding(s, t, ident, job, id);
    case AddJobSet(jobs) => ServedUser(s); SubmitEnding(s, t, jobs, id);
    case QueryRemainingJobs => ServedUser(s);
    case CancelBatchByName(_) =>
      ServedUser(s);
      if ident :| Empties(s, t, ident) {
        EmptyEnding(s, t, ident, id);
      }
  }

  lemma EndingStep(s: State, ev: Event, id: JobSetIdentifier)
    requires Inv(s) && Ending(s, id) && !PoolTakesBack(s, ev, id)
    ensures Ending(Apply(s, ev), id)
  {
    if ev.PoolServes? && PoolCanServe(s) {
      ServedEnding(s, id);
    }
  }

  lemma {:induction false} EndingRun(s: State, events: seq<Event>, id: JobSetIdentifier)
    requires Inv(s) && Ending(s, id) && TakenBack(s, events, id) == 0
    ensures Inv(RunFrom(s, events)) && Ending(RunFrom(s, events), id)
    decreases |events|
  {
    if events != [] {
      StepInv(s, events[0]);
      EndingStep(s, events[0], id);
      EndingRun(Apply(s, events[0]), events[1..], id);
    }
  }

  /**
   A set with no jobs left to hand out and some on their way leaves the map as the reports come in:
   in every continuation which returns none of its jobs, it is gone exactly when nothing of it is in
   transit and nothing of it was ever leaked.
   */
  lemma EmptiedSetLeavesWithItsLastReport(s: State, events: seq<Event>, id: JobSetIdentifier)
    requires Reachable(s) && Ending(s, id) && TakenBack(s, events, id) == 0
    ensures var t := RunFrom(s, events);
            && id in t.books
            && (id !in t.sched.sets <==> InTransit(t, id) == [] && t.books[id].leaked == [])
  {
    ReachableInv(s);
    EndingRun(s, events, id);
    var t := RunFrom(s, events);
    if id in t.sched.sets {
      NothingRunningIff(t, id);
    } else {
      GoneHasNothing(t, id);
    }
  }

  /** The pool is about to serve a cancellation which resolves to this set. */
  ghost predicate CancelsNext(s: State, id: JobSetIdentifier) {
    && s.queue != [] && s.queue[0].CancelBatchByName? && |s.nodes| > 0
    && Schedule.IdentifierByName(s.sched, s.queue[0].batchName) == Some(id)
  }

  lemma CancelledSetIsEmptied(s: State, id: JobSetIdentifier)
    requires Inv(s) && CancelsNext(s, id)
    ensures Inv(Served(s)) && id in s.sched.sets && id in Served(s).sched.sets && id in Served(s).books
    ensures Served(s).sched.sets[id] == s.sched.sets[id].(remaining := []) && id in Served(s).cancels
  {
    StepInv(s, PoolServes);
    assert Conserved(Served(s), id, ByName(""));
  }

  /** A set with nothing running when it is emptied is idle. */
  lemma NothingRunningIsIdle(s: State, id: JobSetIdentifier)
    requires Inv(s) && id in s.sched.sets && s.sched.sets[id].remaining == [] && s.sched.sets[id].running == []
    ensures Idle(s, id)
  {
    NothingRunningIff(s, id);
    forall k ensures Outstanding(s, id, k) == 0 {
      InTransitTally(s, id, k);
    }
  }

  /**
   What a cancellation comes to.  In every continuation which returns none of the set's jobs, the
   cancelled set leaves the map if and only if something of it was running when it was cancelled,
   everything in transit has been reported, and nothing of it was ever leaked.  With nothing running
   at that moment it never leaves.
   */
  lemma CancelledSetLeavesIff(s: State, events: seq<Event>, id: JobSetIdentifier)
    requires Reachable(s) && CancelsNext(s, id) && TakenBack(Served(s), events, id) == 0
    ensures id in s.sched.sets
    ensures var t := RunFrom(Served(s), events);
            && id in t.books
            && (id !in t.sched.sets <==>
                  s.sched.sets[id].running != [] && InTransit(t, id) == [] && t.books[id].leaked == [])
  {
    ReachableInv(s);
    CancelledSetIsEmptied(s, id);
    var u := Served(s);
    StepReaches(s, PoolServes);
    if s.sched.sets[id].running == [] {
      NothingRunningIsIdle(u, id);
      IdleForever(u, events, id);
      RunInv(u, events);
      NothingRunningIff(RunFrom(u, events), id);
    } else {
      EmptiedSetLeavesWithItsLastReport(u, events, id);
    }
  }
}
