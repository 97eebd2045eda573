/** What the cluster invariant means for users, nodes and the scheduler, in every run. */
module ClusterTheorems {
  import opened Types
  import opened JobPool
  import opened Cluster
  import opened ClusterInvariant
  import Schedule
  import Node

  /** A state some run of some cluster reaches. */
  ghost predicate Reachable(s: State) {
    exists caps: seq<set<string>>, events: seq<Event> :: s == RunFrom(Init(caps), events)
  }

  lemma ReachableInv(s: State)
    requires Reachable(s)
    ensures Inv(s)
  {
    var caps: seq<set<string>>, events: seq<Event> :| s == RunFrom(Init(caps), events);
    EveryRunKeepsInv(caps, events);
  }

  lemma {:induction false} RunFromSnoc(s: State, events: seq<Event>, ev: Event)
    ensures RunFrom(s, events + [ev]) == Apply(RunFrom(s, events), ev)
    decreases |events|
  {
    if events == [] {
      assert [ev][1..] == [];
    } else {
      assert (events + [ev])[1..] == events[1..] + [ev];
      RunFromSnoc(Apply(s, events[0]), events[1..], ev);
    }
  }

  /** One event more is still a run. */
  lemma StepReaches(s: State, ev: Event)
    requires Reachable(s)
    ensures Reachable(Apply(s, ev))
  {
    var caps: seq<set<string>>, events: seq<Event> :| s == RunFrom(Init(caps), events);
    RunFromSnoc(Init(caps), events, ev);
    assert Apply(s, ev) == RunFrom(Init(caps), events + [ev]);
  }

  /** The books are only written: the system itself moves the same whatever they say. */
  lemma {:induction false} BooksAreNotRead(s: State, t: State, events: seq<Event>)
    requires s == t.(books := s.books, cancels := s.cancels)
    ensures var s', t' := RunFrom(s, events), RunFrom(t, events);
            s' == t'.(books := s'.books, cancels := s'.cancels)
    decreases |events|
  {
    if events != [] {
      BooksAreNotRead(Apply(s, events[0]), Apply(t, events[0]), events[1..]);
    }
  }

  // ---------------------------------------------------------------- conservation

  function JobOf(held: Option<(JobSetIdentifier, Job)>, id: JobSetIdentifier): seq<Job> {
    if held.Some? && held.value.0 == id then [held.value.1] else []
  }

  /** The jobs of a set on the node tasks. */
  function HeldJobs(nodes: seq<Node.Node>, id: JobSetIdentifier): seq<Job> {
    if nodes == [] then [] else JobOf(Node.HeldJob(nodes[0].phase), id) + HeldJobs(nodes[1..], id)
  }

  /** The jobs of a set inside queued `DeadNode` and `FinishJob` messages. */
  function QueuedJobs(queue: seq<JobRequest>, id: JobSetIdentifier): seq<Job> {
    if queue == [] then [] else JobOf(Node.CarriedJob(queue[0]), id) + QueuedJobs(queue[1..], id)
  }

  function InTransit(s: State, id: JobSetIdentifier): seq<Job> {
    HeldJobs(s.nodes, id) + QueuedJobs(s.queue, id)
  }

  function Names(jobs: seq<Job>): seq<string> {
    if jobs == [] then [] else Names(jobs[..|jobs| - 1]) + [jobs[|jobs| - 1].name]
  }

  lemma {:induction false} NamesTally(jobs: seq<Job>, name: string)
    ensures multiset(Names(jobs))[name] == Tally(jobs, ByName(name))
  {
    if jobs != [] {
      NamesTally(jobs[..|jobs| - 1], name);
    }
  }

  lemma {:induction false} HeldJobsTally(nodes: seq<Node.Node>, id: JobSetIdentifier, k: Pick)
    ensures Tally(HeldJobs(nodes, id), k) == Held(nodes, id, k)
  {
    if nodes != [] {
      HeldJobsTally(nodes[1..], id, k);
      TallyConcat(JobOf(Node.HeldJob(nodes[0].phase), id), HeldJobs(nodes[1..], id), k);
    }
  }

  lemma {:induction false} QueuedJobsTally(queue: seq<JobRequest>, id: JobSetIdentifier, k: Pick)
    ensures Tally(QueuedJobs(queue, id), k) == Queued(queue, id, k)
  {
    if queue != [] {
      QueuedJobsTally(queue[1..], id, k);
      TallyConcat(JobOf(Node.CarriedJob(queue[0]), id), QueuedJobs(queue[1..], id), k);
    }
  }

  lemma InTransitTally(s: State, id: JobSetIdentifier, k: Pick)
    ensures Tally(InTransit(s, id), k) == Outstanding(s, id, k)
  {
    HeldJobsTally(s.nodes, id, k);
    QueuedJobsTally(s.queue, id, k);
    TallyConcat(HeldJobs(s.nodes, id), QueuedJobs(s.queue, id), k);
  }

  lemma SameTallies(a: seq<Job>, b: seq<Job>)
    requires forall job :: Tally(a, ByJob(job)) == Tally(b, ByJob(job))
    ensures multiset(a) == multiset(b)
  {
    forall job ensures multiset(a)[job] == multiset(b)[job] {
      TallyIsMultiplicity(a, job);
      TallyIsMultiplicity(b, job);
    }
  }

  function Accounted(s: State, id: JobSetIdentifier): seq<Job>
    requires id in s.sched.sets && id in s.books
  {
    s.sched.sets[id].remaining + InTransit(s, id) + s.books[id].finished + s.books[id].cancelled + s.books[id].leaked
  }

  lemma AccountedTally(s: State, id: JobSetIdentifier, k: Pick)
    requires id in s.sched.sets && id in s.books
    ensures var a := s.books[id];
            Tally(Accounted(s, id), k) == Tally(s.sched.sets[id].remaining, k) + Outstanding(s, id, k)
              + Tally(a.finished, k) + Tally(a.cancelled, k) + Tally(a.leaked, k)
  {
    var a := s.books[id];
    var one := s.sched.sets[id].remaining + InTransit(s, id);
    InTransitTally(s, id, k);
    TallyConcat(s.sched.sets[id].remaining, InTransit(s, id), k);
    TallyConcat(one, a.finished, k);
    TallyConcat(one + a.finished, a.cancelled, k);
    TallyConcat(one + a.finished + a.cancelled, a.leaked, k);
  }

  /**
   Conservation of jobs.  In every reachable state, everything that was submitted with a live set
   is waiting, on a node, on its way back, finished, cancelled or leaked, each exactly as often as
   it was submitted; and the names noted as running are exactly those in transit or leaked.
   */
  lemma JobsAreConserved(s: State, id: JobSetIdentifier)
    requires Reachable(s) && id in s.sched.sets
    ensures id in s.books
    ensures multiset(s.books[id].initial) == multiset(Accounted(s, id))
    ensures Schedule.RunningNames(s.sched.sets[id].running) == multiset(Names(InTransit(s, id) + s.books[id].leaked))
  {
    ReachableInv(s);
    var a := s.books[id];
    forall job ensures Tally(a.initial, ByJob(job)) == Tally(Accounted(s, id), ByJob(job)) {
      assert Conserved(s, id, ByJob(job));
      AccountedTally(s, id, ByJob(job));
    }
    SameTallies(a.initial, Accounted(s, id));
    var busy := InTransit(s, id) + a.leaked;
    forall name ensures Schedule.RunningNames(s.sched.sets[id].running)[name] == multiset(Names(busy))[name] {
      assert Conserved(s, id, ByName(name));
      InTransitTally(s, id, ByName(name));
      TallyConcat(InTransit(s, id), a.leaked, ByName(name));
      NamesTally(busy, name);
    }
  }

  /** A set that was dropped from the map left nothing behind: all of it was finished or cancelled. */
  lemma DroppedSetIsSettled(s: State, id: JobSetIdentifier)
    requires Reachable(s) && id in s.books && id !in s.sched.sets
    ensures InTransit(s, id) == [] && s.books[id].leaked == []
    ensures multiset(s.books[id].initial) == multiset(s.books[id].finished + s.books[id].cancelled)
  {
    ReachableInv(s);
    var a := s.books[id];
    forall k ensures Tally(InTransit(s, id), k) == 0 && Tally(a.leaked, k) == 0
                  && Tally(a.initial, k) == Tally(a.finished + a.cancelled, k)
    {
      InTransitTally(s, id, k);
      assert Conserved(s, id, k);
      TallyConcat(a.finished, a.cancelled, k);
    }
    NoTallyIsEmpty(InTransit(s, id));
    NoTallyIsEmpty(a.leaked);
    SameTallies(a.initial, a.finished + a.cancelled);
  }

  lemma NoTallyIsEmpty(jobs: seq<Job>)
    requires forall k :: Tally(jobs, k) == 0
    ensures jobs == []
  {
    if jobs != [] {
      assert Tally(jobs, ByJob(jobs[|jobs| - 1])) > 0;
    }
  }

  /** However often nodes die and jobs are handed out again, no job is reported finished more often than it was submitted. */
  lemma FinishedAtMostOnce(s: State, id: JobSetIdentifier)
    requires Reachable(s) && id in s.books
    ensures multiset(s.books[id].finished) <= multiset(s.books[id].initial)
  {
    ReachableInv(s);
    var a := s.books[id];
    forall job ensures multiset(a.finished)[job] <= multiset(a.initial)[job] {
      assert Conserved(s, id, ByJob(job));
      TallyIsMultiplicity(a.finished, job);
      TallyIsMultiplicity(a.initial, job);
    }
  }

  lemma {:induction false} HeldTwice(nodes: seq<Node.Node>, i: nat, j: nat, id: JobSetIdentifier, k: Pick)
    requires i < j < |nodes|
    ensures TallyOne(Node.HeldJob(nodes[i].phase), id, k) + TallyOne(Node.HeldJob(nodes[j].phase), id, k)
         <= Held(nodes, id, k)
  {
    if i == 0 {
      HeldAtLeast(nodes[1..], j - 1, id, k);
    } else {
      HeldTwice(nodes[1..], i - 1, j - 1, id, k);
    }
  }

  lemma {:induction false} QueuedTwice(queue: seq<JobRequest>, i: nat, j: nat, id: JobSetIdentifier, k: Pick)
    requires i < j < |queue|
    ensures TallyOne(Node.CarriedJob(queue[i]), id, k) + TallyOne(Node.CarriedJob(queue[j]), id, k)
         <= Queued(queue, id, k)
  {
    if i == 0 {
      QueuedAtLeast(queue[1..], j - 1, id, k);
    } else {
      QueuedTwice(queue[1..], i - 1, j - 1, id, k);
    }
  }

  ghost predicate OnNode(s: State, i: nat, id: JobSetIdentifier, job: Job) {
    i < |s.nodes| && Node.HeldJob(s.nodes[i].phase) == Some((id, job))
  }

  ghost predicate InQueue(s: State, i: nat, id: JobSetIdentifier, job: Job) {
    i < |s.queue| && Node.CarriedJob(s.queue[i]) == Some((id, job))
  }

  /**
   A job submitted once is in one place at a time: never on two nodes, in two messages, or on a node
   and in a message; and while it is anywhere on its way it is not waiting, finished, cancelled or
   leaked.
   */
  lemma OnePlaceAtATime(s: State, id: JobSetIdentifier, job: Job)
    requires Reachable(s) && id in s.books && multiset(s.books[id].initial)[job] == 1
    ensures forall i: nat, j: nat :: OnNode(s, i, id, job) && OnNode(s, j, id, job) ==> i == j
    ensures forall i: nat, j: nat :: InQueue(s, i, id, job) && InQueue(s, j, id, job) ==> i == j
    ensures forall i: nat, j: nat :: OnNode(s, i, id, job) ==> !InQueue(s, j, id, job)
    ensures (exists i: nat :: OnNode(s, i, id, job) || InQueue(s, i, id, job)) ==>
              && id in s.sched.sets && job !in s.sched.sets[id].remaining
              && job !in s.books[id].finished && job !in s.books[id].cancelled && job !in s.books[id].leaked
  {
    var k := ByJob(job);
    AtMostOneOutstanding(s, id, job);
    forall i: nat, j: nat | OnNode(s, i, id, job) && OnNode(s, j, id, job) ensures i == j {
      if i < j {
        HeldTwice(s.nodes, i, j, id, k);
      } else if j < i {
        HeldTwice(s.nodes, j, i, id, k);
      }
    }
    forall i: nat, j: nat | InQueue(s, i, id, job) && InQueue(s, j, id, job) ensures i == j {
      if i < j {
        QueuedTwice(s.queue, i, j, id, k);
      } else if j < i {
        QueuedTwice(s.queue, j, i, id, k);
      }
    }
    forall i: nat, j: nat | OnNode(s, i, id, job) ensures !InQueue(s, j, id, job) {
      HeldAtLeast(s.nodes, i, id, k);
      if j < |s.queue| {
        QueuedAtLeast(s.queue, j, id, k);
      }
    }
    if i: nat :| OnNode(s, i, id, job) || InQueue(s, i, id, job) {
      if OnNode(s, i, id, job) {
        HeldAtLeast(s.nodes, i, id, k);
      } else {
        QueuedAtLeast(s.queue, i, id, k);
      }
    }
  }

  lemma AtMostOneOutstanding(s: State, id: JobSetIdentifier, job: Job)
    requires Reachable(s) && id in s.books && multiset(s.books[id].initial)[job] == 1
    ensures Outstanding(s, id, ByJob(job)) <= 1
    ensures Outstanding(s, id, ByJob(job)) == 1 ==>
              && id in s.sched.sets && job !in s.sched.sets[id].remaining
              && job !in s.books[id].finished && job !in s.books[id].cancelled && job !in s.books[id].leaked
  {
    ReachableInv(s);
    assert Conserved(s, id, ByJob(job));
    var a := s.books[id];
    TallyIsMultiplicity(a.initial, job);
    if id in s.sched.sets {
      TallyIsMultiplicity(s.sched.sets[id].remaining, job);
      TallyIsMultiplicity(a.finished, job);
      TallyIsMultiplicity(a.cancelled, job);
      TallyIsMultiplicity(a.leaked, job);
    }
  }

  /**
   A set is never removed while a node holds, or a message carries, one of its jobs.  So the pool
   never serves a returned job whose set is gone, nor one whose name is not noted as running.
   */
  lemma NothingReturnsToARemovedSet(s: State, id: JobSetIdentifier, job: Job)
    requires Reachable(s)
    requires (exists i :: 0 <= i < |s.nodes| && Node.HeldJob(s.nodes[i].phase) == Some((id, job)))
          || (exists i :: 0 <= i < |s.queue| && Node.CarriedJob(s.queue[i]) == Some((id, job)))
    ensures id in s.sched.sets && job.name in Schedule.RunningNames(s.sched.sets[id].running)
  {
    ReachableInv(s);
    if i :| 0 <= i < |s.nodes| && Node.HeldJob(s.nodes[i].phase) == Some((id, job)) {
      HeldAtLeast(s.nodes, i, id, ByName(job.name));
    } else {
      var i :| 0 <= i < |s.queue| && Node.CarriedJob(s.queue[i]) == Some((id, job));
      QueuedAtLeast(s.queue, i, id, ByName(job.name));
    }
    assert Conserved(s, id, ByName(job.name));
  }
}
