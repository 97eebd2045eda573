/**
 The whole server: the scheduler behind its pool queue, the cancellation broadcast, and any
 number of node tasks, with users submitting and cancelling sets at any time.  A run is a list of
 events applied in order, so a statement about every list of events is a statement about every
 run.  Next to the system's own state a run keeps books on every set ever submitted; no step
 reads the books.
 */
module Cluster {
  import opened Types
  import opened JobPool
  import Schedule
  import Node

  /**
   The books on one set: what was submitted, what was reported finished, what a cancellation
   threw away, and what was dropped when `ExecuteJob` could not be sent.
   */
  datatype Account = Account(
    requirements: set<string>,
    initial: seq<Job>,
    finished: seq<Job>,
    cancelled: seq<Job>,
    leaked: seq<Job>)

  type Books = map<JobSetIdentifier, Account>

  datatype State = State(
    sched: Schedule.Sched,
    queue: seq<JobRequest>,
    nodes: seq<Node.Node>,
    books: Books,
    cancels: set<JobSetIdentifier>)    // sets for which the pool has processed a cancellation

  datatype Event =
    | NodeMoves(node: nat, event: Node.Event)
    | PoolServes                              // the request at the head of the queue
    | UserSubmits(jobs: Jobs)
    | UserCancels(batchName: string)
    | UserQueries
    | ReceiverLags(node: nat, lost: nat)      // a full broadcast buffer loses its oldest tokens

  /** A fresh server for nodes with the given capabilities. */
  function Init(caps: seq<set<string>>): State {
    State(Schedule.Sched(map[], 0), [],
          seq(|caps|, i requires 0 <= i < |caps| => Node.Node(caps[i], {}, Node.Uninit, [])), map[], {})
  }

  // ---------------------------------------------------------------- steps

  function Leak(b: Books, leak: Option<(JobSetIdentifier, Job)>): Books {
    if leak.Some? && leak.value.0 in b then
      var id := leak.value.0;
      b[id := b[id].(leaked := b[id].leaked + [leak.value.1])]
    else b
  }

  /** What serving a request means for the books. */
  ghost function Book(b: Books, s: Schedule.Sched, req: JobRequest, token: Option<JobSetIdentifier>): Books {
    if req.FinishJob? && req.ident in s.sets && req.ident in b then
      b[req.ident := b[req.ident].(finished := b[req.ident].finished + [req.job])]
    else if req.AddJobSet? then
      b[Identity(s.last + 1) := Account(req.jobs.capabilities, req.jobs.jobs, [], [], [])]
    else if token.Some? && token.value in s.sets && token.value in b then
      var id := token.value;
      b[id := b[id].(cancelled := b[id].cancelled + s.sets[id].remaining)]
    else b
  }

  function Hears(n: Node.Node, token: JobSetIdentifier): Node.Node {
    n.(tokens := n.tokens + [token])
  }

  function Broadcast(nodes: seq<Node.Node>, token: Option<JobSetIdentifier>): (r: seq<Node.Node>)
    ensures |r| == |nodes|
    ensures token.Some? ==> forall i :: 0 <= i < |nodes| ==> r[i] == Hears(nodes[i], token.value)
  {
    if token.None? then nodes else seq(|nodes|, i requires 0 <= i < |nodes| => Hears(nodes[i], token.value))
  }

  function Deliver(nodes: seq<Node.Node>, req: JobRequest, reply: Option<JobResponse>): seq<Node.Node> {
    if req.NewJob? && reply.Some? && req.node < |nodes| then
      nodes[req.node := Node.Receive(nodes[req.node], reply.value)]
    else nodes
  }

  /** What the nodes are after one thing the pool sends. */
  function Arrive(nodes: seq<Node.Node>, m: Sent): seq<Node.Node> {
    match m
    case ToNode(i, reply) => if i < |nodes| then nodes[i := Node.Receive(nodes[i], reply)] else nodes
    case ToAll(token) => seq(|nodes|, i requires 0 <= i < |nodes| => Hears(nodes[i], token))
    case ToUser(_) => nodes
  }

  function ArriveAll(nodes: seq<Node.Node>, sent: seq<Sent>): seq<Node.Node>
    decreases |sent|
  {
    if sent == [] then nodes else ArriveAll(Arrive(nodes, sent[0]), sent[1..])
  }

  /** What reaches the nodes is what the pool sends, in the order it sends it. */
  lemma NodesHearWhatIsSent(s: State)
    requires PoolCanServe(s)
    ensures Apply(s, PoolServes).nodes
         == ArriveAll(s.nodes, Sends(s.queue[0], Serve(s.sched, s.queue[0], |s.nodes|)))
  {
    var o := Serve(s.sched, s.queue[0], |s.nodes|);
    var sent := Sends(s.queue[0], o);
    var once := if sent == [] then s.nodes else Arrive(s.nodes, sent[0]);
    assert ArriveAll(s.nodes, sent) == if sent == [] then once else ArriveAll(once, sent[1..]);
    assert |sent| == 2 ==> sent[1..] == [sent[1]] && sent[1..][1..] == [];
    assert Broadcast(Deliver(s.nodes, s.queue[0], o.reply), o.token) == once;
  }

  /** The pool stops for good at the submission that would overflow its 64-bit identifier. */
  predicate PoolCanServe(s: State) {
    s.queue != [] && !Stops(s.sched, s.queue[0])
  }

  ghost function Apply(s: State, ev: Event): State {
    match ev
    case NodeMoves(i, e) =>
      if i >= |s.nodes| then s
      else
        var m := Node.Step(s.nodes[i], i, e);
        s.(nodes := s.nodes[i := m.node], queue := s.queue + m.sends, books := Leak(s.books, m.leak))
    case PoolServes =>
      if !PoolCanServe(s) then s
      else
        var req := s.queue[0];
        var o := Serve(s.sched, req, |s.nodes|);
        State(o.sched, s.queue[1..], Broadcast(Deliver(s.nodes, req, o.reply), o.token),
              Book(s.books, s.sched, req, o.token),
              s.cancels + (if o.token.Some? then {o.token.value} else {}))
    case UserSubmits(jobs) => s.(queue := s.queue + [AddJobSet(jobs)])
    case UserCancels(name) => s.(queue := s.queue + [CancelBatchByName(name)])
    case UserQueries => s.(queue := s.queue + [QueryRemainingJobs])
    case ReceiverLags(i, lost) =>
      if i >= |s.nodes| || lost > |s.nodes[i].tokens| then s
      else s.(nodes := s.nodes[i := s.nodes[i].(tokens := s.nodes[i].tokens[lost..])])
  }

  ghost function RunFrom(s: State, events: seq<Event>): State
    decreases |events|
  {
    if events == [] then s else RunFrom(Apply(s, events[0]), events[1..])
  }

  // ---------------------------------------------------------------- jobs in transit

  /** What is being counted: copies of one job, or jobs of one name. */
  datatype Pick = ByJob(job: Job) | ByName(name: string)

  function Hit(k: Pick, job: Job): nat {
    if (match k case ByJob(j) => j == job case ByName(n) => n == job.name) then 1 else 0
  }

  function Tally(jobs: seq<Job>, k: Pick): nat {
    if jobs == [] then 0 else Tally(jobs[..|jobs| - 1], k) + Hit(k, jobs[|jobs| - 1])
  }

  function TallyOne(held: Option<(JobSetIdentifier, Job)>, id: JobSetIdentifier, k: Pick): nat {
    if held.Some? && held.value.0 == id then Hit(k, held.value.1) else 0
  }

  /** What all node tasks together hold of a set. */
  function Held(nodes: seq<Node.Node>, id: JobSetIdentifier, k: Pick): nat {
    if nodes == [] then 0 else TallyOne(Node.HeldJob(nodes[0].phase), id, k) + Held(nodes[1..], id, k)
  }

  /** What is on its way back to the pool. */
  function Queued(queue: seq<JobRequest>, id: JobSetIdentifier, k: Pick): nat {
    if queue == [] then 0 else TallyOne(Node.CarriedJob(queue[0]), id, k) + Queued(queue[1..], id, k)
  }

  function Outstanding(s: State, id: JobSetIdentifier, k: Pick): nat {
    Held(s.nodes, id, k) + Queued(s.queue, id, k)
  }

  lemma {:induction false} TallyConcat(a: seq<Job>, b: seq<Job>, k: Pick)
    ensures Tally(a + b, k) == Tally(a, k) + Tally(b, k)
  {
    if b == [] {
      assert a + b == a;
    } else {
      TallyConcat(a, b[..|b| - 1], k);
      assert (a + b)[..|a + b| - 1] == a + b[..|b| - 1];
    }
  }

  lemma TallyAppend(a: seq<Job>, job: Job, k: Pick)
    ensures Tally(a + [job], k) == Tally(a, k) + Hit(k, job)
  {
    assert (a + [job])[..|a|] == a;
  }

  lemma {:induction false} TallyIsMultiplicity(jobs: seq<Job>, job: Job)
    ensures Tally(jobs, ByJob(job)) == multiset(jobs)[job]
  {
    if jobs != [] {
      var n := |jobs| - 1;
      TallyIsMultiplicity(jobs[..n], job);
      assert jobs == jobs[..n] + [jobs[n]];
    }
  }

  lemma {:induction false} HeldUpdate(nodes: seq<Node.Node>, i: nat, n: Node.Node, id: JobSetIdentifier, k: Pick)
    requires i < |nodes|
    ensures Held(nodes[i := n], id, k) + TallyOne(Node.HeldJob(nodes[i].phase), id, k)
         == Held(nodes, id, k) + TallyOne(Node.HeldJob(n.phase), id, k)
  {
    if i == 0 {
      assert nodes[0 := n][1..] == nodes[1..];
    } else {
      assert nodes[i := n][1..] == nodes[1..][i - 1 := n];
      HeldUpdate(nodes[1..], i - 1, n, id, k);
    }
  }

  /** Only the phases matter. */
  lemma {:induction false} HeldByPhase(a: seq<Node.Node>, b: seq<Node.Node>, id: JobSetIdentifier, k: Pick)
    requires |a| == |b|
    requires forall i :: 0 <= i < |a| ==> a[i].phase == b[i].phase
    ensures Held(a, id, k) == Held(b, id, k)
  {
    if a != [] {
      assert forall i :: 0 <= i < |a[1..]| ==> a[1..][i].phase == a[i + 1].phase == b[i + 1].phase == b[1..][i].phase;
      HeldByPhase(a[1..], b[1..], id, k);
    }
  }

  lemma {:induction false} QueuedAppend(queue: seq<JobRequest>, req: JobRequest, id: JobSetIdentifier, k: Pick)
    ensures Queued(queue + [req], id, k) == Queued(queue, id, k) + TallyOne(Node.CarriedJob(req), id, k)
  {
    if queue == [] {
      assert queue + [req] == [req];
    } else {
      assert (queue + [req])[1..] == queue[1..] + [req];
      QueuedAppend(queue[1..], req, id, k);
    }
  }

  /** A job is also a job of its name. */
  lemma {:induction false} JobsAreNamed(s: State, id: JobSetIdentifier, job: Job)
    ensures Held(s.nodes, id, ByJob(job)) <= Held(s.nodes, id, ByName(job.name))
    ensures Queued(s.queue, id, ByJob(job)) <= Queued(s.queue, id, ByName(job.name))
    decreases |s.nodes| + |s.queue|
  {
    if s.nodes != [] {
      JobsAreNamed(s.(nodes := s.nodes[1..]), id, job);
    }
    if s.queue != [] {
      JobsAreNamed(s.(queue := s.queue[1..]), id, job);
    }
  }

  lemma {:induction false} TalliesAreNamed(jobs: seq<Job>, job: Job)
    ensures Tally(jobs, ByJob(job)) <= Tally(jobs, ByName(job.name))
  {
    if jobs != [] {
      TalliesAreNamed(jobs[..|jobs| - 1], job);
    }
  }

  lemma {:induction false} HeldAtLeast(nodes: seq<Node.Node>, i: nat, id: JobSetIdentifier, k: Pick)
    requires i < |nodes|
    ensures TallyOne(Node.HeldJob(nodes[i].phase), id, k) <= Held(nodes, id, k)
  {
    if i > 0 {
      HeldAtLeast(nodes[1..], i - 1, id, k);
    }
  }

  lemma {:induction false} QueuedAtLeast(queue: seq<JobRequest>, i: nat, id: JobSetIdentifier, k: Pick)
    requires i < |queue|
    ensures TallyOne(Node.CarriedJob(queue[i]), id, k) <= Queued(queue, id, k)
  {
    if i > 0 {
      QueuedAtLeast(queue[1..], i - 1, id, k);
    }
  }

  // ---------------------------------------------------------------- the invariant

  /** Every identifier handed out has an account, and nothing else has. */
  ghost predicate BooksComplete(s: State) {
    && s.sched.Valid()
    && (forall id :: id in s.books <==> id.Identity? && 1 <= id.number <= s.sched.last)
    && (forall id <- s.sched.sets :: id in s.books && s.sched.sets[id].requirements == s.books[id].requirements)
    && s.cancels <= s.books.Keys
    && s.sched.last <= U64_MAX
  }

  /**
   The conservation law of one set.  While it is in the map, everything submitted is waiting, in
   transit, finished, cancelled or leaked, and the names noted as running are those of the jobs in
   transit or leaked.  Once it is gone nothing of it is in transit and nothing was leaked.
   */
  ghost predicate Balanced(js: JobSet, a: Account, outstanding: nat, k: Pick) {
    && Tally(a.initial, k)
       == Tally(js.remaining, k) + outstanding + Tally(a.finished, k) + Tally(a.cancelled, k) + Tally(a.leaked, k)
    && (k.ByName? ==> Schedule.RunningNames(js.running)[k.name] == outstanding + Tally(a.leaked, k))
  }

  ghost predicate Settled(a: Account, k: Pick) {
    Tally(a.initial, k) == Tally(a.finished, k) + Tally(a.cancelled, k) && Tally(a.leaked, k) == 0
  }

  ghost predicate Conserved(s: State, id: JobSetIdentifier, k: Pick) {
    if id in s.sched.sets then
      id in s.books && Balanced(s.sched.sets[id], s.books[id], Outstanding(s, id, k), k)
    else
      Outstanding(s, id, k) == 0 && (id in s.books ==> Settled(s.books[id], k))
  }

  /** A set a node may work on: known, within the node's capabilities, and not one it failed to build. */
  ghost predicate Workable(b: Books, n: Node.Node, id: JobSetIdentifier) {
    id in b && b[id].requirements <= n.caps && id !in n.errored
  }

  ghost predicate NodeOk(s: State, n: Node.Node) {
    && !n.phase.Panicked?
    && (Node.AssignedSet(n.phase).Some? ==> Workable(s.books, n, Node.AssignedSet(n.phase).value))
    && n.errored <= s.books.Keys
    && (forall t <- n.tokens :: t in s.cancels)
    && (n.phase.Executing? && n.phase.cancelled ==> n.phase.ident in s.cancels)
  }

  /** A request for work in the queue is the one its node waits on, with the node's own data. */
  ghost predicate RequestOk(s: State, req: JobRequest) {
    req.NewJob? ==>
      && req.node < |s.nodes|
      && var n := s.nodes[req.node];
         Node.Asked(n.phase) == Some(req.initialized) && req.caps == n.caps && req.failures == n.errored
  }

  ghost predicate QueueOk(s: State) {
    && (forall k :: 0 <= k < |s.queue| ==> RequestOk(s, s.queue[k]))
    && (forall j, k :: 0 <= j < k < |s.queue| && s.queue[j].NewJob? && s.queue[k].NewJob? ==>
          s.queue[j].node != s.queue[k].node)
  }

  ghost predicate Inv(s: State) {
    && BooksComplete(s)
    && (forall id, k :: Conserved(s, id, k))
    && (forall i :: 0 <= i < |s.nodes| ==> NodeOk(s, s.nodes[i]))
    && QueueOk(s)
  }

  lemma {:induction false} InitHoldsNothing(nodes: seq<Node.Node>, id: JobSetIdentifier, k: Pick)
    requires forall i :: 0 <= i < |nodes| ==> nodes[i].phase == Node.Uninit
    ensures Held(nodes, id, k) == 0
  {
    if nodes != [] {
      InitHoldsNothing(nodes[1..], id, k);
    }
  }

  lemma InitInv(caps: seq<set<string>>)
    ensures Inv(Init(caps))
  {
    var s := Init(caps);
    forall id, k ensures Conserved(s, id, k) {
      InitHoldsNothing(s.nodes, id, k);
    }
  }
}
