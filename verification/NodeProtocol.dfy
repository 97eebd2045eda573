/**
 The server's end of the phase protocol is the node task of the cluster, seen message by message:
 every run of the protocol is matched, step for step, by moves the node task has.
 */
module NodeProtocol {
  import opened Types
  import JobPool
  import Node
  import Protocol

  /** The node task's phase behind a state of the protocol's server. */
  function PhaseOf(p: Protocol.Server): Node.Phase {
    match p
    case Uninit => Node.Uninit
    case AwaitVersion => Node.Uninit
    case VerdictDue => Node.Uninit
    case Prepare => Node.PrepareBuild
    case SendBuild(id, _) => Node.SendingBuild(id)
    case AwaitCompiled(id) => Node.Building(id)
    case Built(id) => Node.Built(id)
    case SendJob(id, job, _) => Node.SendingJob(id, job)
    case AwaitFinished(id, job, cancelled) => Node.Executing(id, job, cancelled)
    case ConfirmDue(id, job, cancelled, _) => Node.Executing(id, job, cancelled)
    case ReceiveResults(id, job, _) => Node.ReceivingResults(id, job)
  }

  /** What happens to a node task: an event of its own, the pool's reply, a broadcast token. */
  datatype Turn = Does(event: Node.Event) | Told(reply: JobResponse) | Hears(token: JobSetIdentifier)

  function Take(n: Node.Node, me: nat, turn: Turn): (Node.Node, seq<JobPool.JobRequest>) {
    match turn
    case Does(ev) => (Node.Step(n, me, ev).node, Node.Step(n, me, ev).sends)
    case Told(reply) => (Node.Receive(n, reply), [])
    case Hears(token) => (n.(tokens := n.tokens + [token]), [])
  }

  /** A task after some turns, and what it sent to the pool. */
  function Follow(n: Node.Node, me: nat, turns: seq<Turn>): (Node.Node, seq<JobPool.JobRequest>)
    decreases |turns|
  {
    if turns == [] then (n, [])
    else
      var (m, sent) := Take(n, me, turns[0]);
      var (last, later) := Follow(m, me, turns[1..]);
      (last, sent + later)
  }

  lemma {:induction false} FollowConcat(n: Node.Node, me: nat, a: seq<Turn>, b: seq<Turn>)
    ensures var (m, sent) := Follow(n, me, a);
            var (last, later) := Follow(m, me, b);
            Follow(n, me, a + b) == (last, sent + later)
    decreases |a|
  {
    if a == [] {
      assert a + b == b && [] + Follow(n, me, b).1 == Follow(n, me, b).1;
    } else {
      assert (a + b)[1..] == a[1..] + b;
      var (m, sent) := Take(n, me, a[0]);
      FollowConcat(m, me, a[1..], b);
      var (m', sent') := Follow(m, me, a[1..]);
      assert sent + (sent' + Follow(m', me, b).1) == (sent + sent') + Follow(m', me, b).1;
    }
  }

  /** Some set other than this one. */
  function OtherThan(id: JobSetIdentifier): JobSetIdentifier {
    if id == Identity(1) then Identity(2) else Identity(1)
  }

  /** The node task's turns behind one message of the server. */
  function TurnsOfSend(p: Protocol.Server, m: Protocol.ServerMsg): seq<Turn> {
    match m
    case VersionsMatched => [Does(Node.Connected)]
    case InitializeJob(id) => [Does(Node.KeepaliveAnswered), Told(Build(id)), Does(Node.Sent)]
    case ReturnPrepareBuild =>
      [Does(Node.KeepaliveAnswered), Told(Build(if p.Built? then OtherThan(p.set_) else NoSet)), Does(Node.Sent)]
    case ExecuteJob(id, job) => [Does(Node.KeepaliveAnswered), Told(Run(id, job)), Does(Node.Sent)]
    case FinishFiles => [Does(Node.Sent)]
    case OverrideWithCancellation => ConfirmTurns(p)
    case Continue => ConfirmTurns(p)
    case _ => []
  }

  function ConfirmTurns(p: Protocol.Server): seq<Turn> {
    if p.ConfirmDue? then [Does(Node.Reported(p.report))] else []
  }

  function TurnsOfReceive(m: Protocol.ClientMsg, p': Protocol.Server): seq<Turn> {
    match m
    case Compiled(ok) => [Does(Node.Compiled(ok))]
    case FinishFilesC => if p'.Built? then [Does(Node.ResultsReceived)] else []
    case _ => []
  }

  /** The job the server's end is responsible for. */
  function JobOf(p: Protocol.Server): Option<(JobSetIdentifier, Job)> {
    Node.HeldJob(PhaseOf(p))
  }

  /** What a task must have sent to the pool when its job went from `before` to `after`. */
  ghost predicate ReportsTheJob(before: Option<(JobSetIdentifier, Job)>, after: Option<(JobSetIdentifier, Job)>,
                                sent: seq<JobPool.JobRequest>)
  {
    if before.Some? && after.None? then sent == [JobPool.FinishJob(before.value.0, before.value.1)]
    else forall r <- sent :: r.NewJob?
  }

  lemma SendIsNodeMove(n: Node.Node, me: nat, p: Protocol.Server, m: Protocol.ServerMsg, p': Protocol.Server)
    requires n.phase == PhaseOf(p) && Protocol.ServerSends(p, m, p')
    ensures var (n', sent) := Follow(n, me, TurnsOfSend(p, m));
            && n'.phase == PhaseOf(p') && n'.tokens == n.tokens
            && ReportsTheJob(JobOf(p), JobOf(p'), sent)
  {
    var turns := TurnsOfSend(p, m);
    if |turns| == 1 {
      FollowOne(n, me, turns[0]);
    } else if |turns| == 3 {
      AnswerIsNodeMove(n, me, p, m, p');
    }
  }

  /** The three messages that pass on an answer of the pool. */
  lemma AnswerIsNodeMove(n: Node.Node, me: nat, p: Protocol.Server, m: Protocol.ServerMsg, p': Protocol.Server)
    requires n.phase == PhaseOf(p) && Protocol.ServerSends(p, m, p') && |TurnsOfSend(p, m)| == 3
    ensures var (n', sent) := Follow(n, me, TurnsOfSend(p, m));
            n'.phase == PhaseOf(p') && n'.tokens == n.tokens && JobOf(p).None? && forall r <- sent :: r.NewJob?
  {
    var turns := TurnsOfSend(p, m);
    FollowThree(n, me, turns[0], turns[1], turns[2]);
  }

  lemma FollowOne(n: Node.Node, me: nat, turn: Turn)
    ensures Follow(n, me, [turn]) == Take(n, me, turn)
  {
    var (m, sent) := Take(n, me, turn);
    assert [turn][1..] == [] && Follow(m, me, []) == (m, []) && sent + [] == sent;
  }

  lemma FollowThree(n: Node.Node, me: nat, a: Turn, b: Turn, c: Turn)
    ensures var (n1, s1) := Take(n, me, a);
            var (n2, s2) := Take(n1, me, b);
            var (n3, s3) := Take(n2, me, c);
            Follow(n, me, [a, b, c]) == (n3, s1 + s2 + s3)
  {
    FollowConcat(n, me, [a], [b, c]);
    FollowConcat(Take(n, me, a).0, me, [b], [c]);
    FollowOne(n, me, a);
    FollowOne(Take(n, me, a).0, me, b);
    FollowOne(Take(Take(n, me, a).0, me, b).0, me, c);
    var s1, s2, s3 := Take(n, me, a).1, Take(Take(n, me, a).0, me, b).1, Take(Take(Take(n, me, a).0, me, b).0, me, c).1;
    assert s1 + (s2 + s3) == s1 + s2 + s3;
    assert [a, b, c] == [a] + [b, c] && [b, c] == [b] + [c];
  }

  lemma ReceiveIsNodeMove(n: Node.Node, me: nat, p: Protocol.Server, m: Protocol.ClientMsg, p': Protocol.Server)
    requires n.phase == PhaseOf(p) && Protocol.ServerReceives(p, m) == Some(p')
    ensures var (n', sent) := Follow(n, me, TurnsOfReceive(m, p'));
            && n'.phase == PhaseOf(p') && n'.tokens == n.tokens
            && ReportsTheJob(JobOf(p), JobOf(p'), sent)
  {
    var turns := TurnsOfReceive(m, p');
    if |turns| == 1 {
      FollowOne(n, me, turns[0]);
    }
  }

  lemma TokenIsNodeMove(n: Node.Node, me: nat, p: Protocol.Server)
    requires n.phase == PhaseOf(p) && p.AwaitFinished? && n.tokens == []
    ensures var (n', sent) := Follow(n, me, [Hears(p.set_), Does(Node.Token(true))]);
            n'.phase == PhaseOf(Protocol.AwaitFinished(p.set_, p.job, true)) && n'.tokens == [] && sent == []
  {
    FollowOne(Take(n, me, Hears(p.set_)).0, me, Does(Node.Token(true)));
    assert [Hears(p.set_), Does(Node.Token(true))][1..] == [Does(Node.Token(true))];
  }

  /** A missed keepalive is an error of the phase, and costs no job. */
  lemma MissIsNodeMove(n: Node.Node, me: nat, p: Protocol.Server)
    requires n.phase == PhaseOf(p) && (p.Prepare? || p.Built?)
    ensures var (n', sent) := Follow(n, me, [Does(Node.Error)]);
            n'.phase == Node.Uninit && n'.tokens == n.tokens && sent == [] && JobOf(p).None?
  {
    FollowOne(n, me, Does(Node.Error));
  }

  /** How the server moves from `p` to `q`: it sends, receives, reads a token, or starts over. */
  ghost predicate ServerMoves(p: Protocol.Server, q: Protocol.Server) {
    || (exists m :: Protocol.ServerSends(p, m, q))
    || (exists m :: Protocol.ServerReceives(p, m) == Some(q))
    || (p.AwaitFinished? && q == Protocol.AwaitFinished(p.set_, p.job, true))
    || ((p.Prepare? || p.Built?) && q == Protocol.Uninit)
  }

  lemma ClientStepLeavesTheServer(s: Protocol.State, t: Protocol.State)
    requires Protocol.ClientStep(s, t)
    ensures t.server == s.server
  {
  }

  lemma ServerStepMovesIt(s: Protocol.State, t: Protocol.State)
    requires Protocol.ServerStep(s, t)
    ensures ServerMoves(s.server, t.server)
  {
    if m, p :| Protocol.ServerSends(s.server, m, p) && t == Protocol.ServerSent(s, m, p) {
      assert Protocol.ServerSends(s.server, m, t.server);
    }
  }

  lemma ServerMoveIsNodeMoves(n: Node.Node, me: nat, p: Protocol.Server, q: Protocol.Server) returns (turns: seq<Turn>)
    requires n.phase == PhaseOf(p) && n.tokens == [] && ServerMoves(p, q)
    ensures var (n', sent) := Follow(n, me, turns);
            n'.phase == PhaseOf(q) && n'.tokens == [] && ReportsTheJob(JobOf(p), JobOf(q), sent)
  {
    if m :| Protocol.ServerSends(p, m, q) {
      turns := TurnsOfSend(p, m);
      SendIsNodeMove(n, me, p, m, q);
    } else if m :| Protocol.ServerReceives(p, m) == Some(q) {
      turns := TurnsOfReceive(m, q);
      ReceiveIsNodeMove(n, me, p, m, q);
    } else if p.AwaitFinished? {
      turns := [Hears(p.set_), Does(Node.Token(true))];
      TokenIsNodeMove(n, me, p);
    } else {
      turns := [Does(Node.Error)];
      MissIsNodeMove(n, me, p);
    }
  }

  /** One step of the protocol is some turns of the node task, with the reports to the pool it owes. */
  lemma StepIsNodeMoves(n: Node.Node, me: nat, s: Protocol.State, t: Protocol.State) returns (turns: seq<Turn>)
    requires n.phase == PhaseOf(s.server) && n.tokens == [] && Protocol.Step(s, t)
    ensures var (n', sent) := Follow(n, me, turns);
            && n'.phase == PhaseOf(t.server) && n'.tokens == []
            && ReportsTheJob(JobOf(s.server), JobOf(t.server), sent)
  {
    if Protocol.ServerStep(s, t) {
      ServerStepMovesIt(s, t);
      turns := ServerMoveIsNodeMoves(n, me, s.server, t.server);
    } else {
      ClientStepLeavesTheServer(s, t);
      turns := [];
    }
  }

  // ---------------------------------------------------------------- the other direction

  /** What the server's end does on the wire: it sends, receives, reads a token that ends the job, or starts over. */
  datatype Action = Out(sent: Protocol.ServerMsg) | In(received: Protocol.ClientMsg) | Mark | StartOver

  ghost predicate Acts(p: Protocol.Server, a: Action, q: Protocol.Server) {
    match a
    case Out(m) => Protocol.ServerSends(p, m, q)
    case In(m) => Protocol.ServerReceives(p, m) == Some(q)
    case Mark => p.AwaitFinished? && q == Protocol.AwaitFinished(p.set_, p.job, true)
    case StartOver => q == Protocol.Uninit
  }

  ghost predicate Leads(p: Protocol.Server, actions: seq<Action>, q: Protocol.Server)
    decreases |actions|
  {
    if actions == [] then p == q
    else exists between :: Acts(p, actions[0], between) && Leads(between, actions[1..], q)
  }

  lemma {:induction false} LeadsConcat(p: Protocol.Server, a: seq<Action>, between: Protocol.Server, b: seq<Action>, q: Protocol.Server)
    requires Leads(p, a, between) && Leads(between, b, q)
    ensures Leads(p, a + b, q)
    decreases |a|
  {
    if a == [] {
      assert a + b == b;
    } else {
      var next :| Acts(p, a[0], next) && Leads(next, a[1..], between);
      LeadsConcat(next, a[1..], between, b, q);
      assert (a + b)[0] == a[0] && (a + b)[1..] == a[1..] + b;
    }
  }

  lemma LeadsOne(p: Protocol.Server, a: Action, q: Protocol.Server)
    requires Acts(p, a, q)
    ensures Leads(p, [a], q)
  {
    assert Leads(q, [a][1..], q);
  }

  /** The state of the server's end behind a phase of the task; while files go either way, the one between two files. */
  function StateOf(q: Node.Phase): Protocol.Server {
    match q
    case Uninit => Protocol.Uninit
    case PrepareBuild => Protocol.Prepare
    case AwaitBuild => Protocol.Prepare
    case BuildAssigned(_) => Protocol.Prepare
    case SendingBuild(id) => Protocol.SendBuild(id, Protocol.Ready)
    case Building(id) => Protocol.AwaitCompiled(id)
    case Built(id) => Protocol.Built(id)
    case AwaitTask(id) => Protocol.Built(id)
    case Reassigned(id) => Protocol.Built(id)
    case JobAssigned(id, _) => Protocol.Built(id)
    case SendingJob(id, job) => Protocol.SendJob(id, job, Protocol.Ready)
    case Executing(id, job, cancelled) => Protocol.AwaitFinished(id, job, cancelled)
    case ReceivingResults(id, job) => Protocol.ReceiveResults(id, job, Protocol.AwaitFile)
    case Panicked => Protocol.Uninit
  }

  /** What a turn of the task is on the wire; asking the pool and hearing from it are nothing there. */
  function WireOf(n: Node.Node, turn: Turn): seq<Action> {
    if !turn.Does? then []
    else match turn.event
      case Connected =>
        if n.phase.Uninit? then [Out(Protocol.RequestVersion), In(Protocol.ResponseVersion), Out(Protocol.VersionsMatched)]
        else []
      case KeepaliveAnswered => []
      case Sent =>
        (match n.phase
         case BuildAssigned(id) => [Out(Protocol.InitializeJob(id))]
         case SendingBuild(_) => [Out(Protocol.FinishFiles)]
         case Reassigned(_) => [Out(Protocol.ReturnPrepareBuild)]
         case JobAssigned(id, job) => [Out(Protocol.ExecuteJob(id, job))]
         case SendingJob(_, _) => [Out(Protocol.FinishFiles)]
         case _ => [])
      case Compiled(ok) => if n.phase.Building? then [In(Protocol.Compiled(ok))] else []
      case Token(connects) =>
        if n.phase.Executing? && n.tokens != [] && n.tokens[0] == n.phase.ident && connects then [Mark] else []
      case Reported(report) => if n.phase.Executing? then ReportOnWire(report, n.phase.cancelled) else []
      case ResultsReceived => if n.phase.ReceivingResults? then [In(Protocol.FinishFilesC)] else []
      case Error => if Node.Asked(n.phase).Some? then [] else [StartOver]
  }

  /** A run that came to its own end is overridden if the task has read a token meanwhile. */
  function ReportOnWire(report: RunReport, cancelled: bool): seq<Action> {
    [In(Protocol.Finished(report)),
     Out(if cancelled && !report.Cancelled? then Protocol.OverrideWithCancellation else Protocol.Continue)]
  }

  /** The pool's answers as they come: a job only of the compiled set, a build only of another one. */
  predicate Sensible(q: Node.Phase, turn: Turn) {
    match turn
    case Told(Run(id, _)) => !q.AwaitBuild? && (q.AwaitTask? ==> q.ident == id)
    case Told(Build(id)) => q.AwaitTask? ==> q.ident != id
    case _ => true
  }

  lemma HandshakeOnWire()
    ensures Leads(Protocol.Uninit, [Out(Protocol.RequestVersion), In(Protocol.ResponseVersion), Out(Protocol.VersionsMatched)],
                  Protocol.Prepare)
  {
    LeadsOne(Protocol.VerdictDue, Out(Protocol.VersionsMatched), Protocol.Prepare);
    LeadsOne(Protocol.AwaitVersion, In(Protocol.ResponseVersion), Protocol.VerdictDue);
    LeadsOne(Protocol.Uninit, Out(Protocol.RequestVersion), Protocol.AwaitVersion);
    var a, b, c := Out(Protocol.RequestVersion), In(Protocol.ResponseVersion), Out(Protocol.VersionsMatched);
    LeadsConcat(Protocol.AwaitVersion, [b], Protocol.VerdictDue, [c], Protocol.Prepare);
    LeadsConcat(Protocol.Uninit, [a], Protocol.AwaitVersion, [b] + [c], Protocol.Prepare);
    assert [a] + ([b] + [c]) == [a, b, c];
  }

  lemma ReportedOnWire(id: JobSetIdentifier, job: Job, cancelled: bool, report: RunReport)
    ensures Leads(Protocol.AwaitFinished(id, job, cancelled), ReportOnWire(report, cancelled),
                  if report.Cancelled? then Protocol.Prepare else Protocol.ReceiveResults(id, job, Protocol.AwaitFile))
  {
    var wire := ReportOnWire(report, cancelled);
    var p, q := Protocol.AwaitFinished(id, job, cancelled), Protocol.ConfirmDue(id, job, cancelled, report);
    var r := if report.Cancelled? then Protocol.Prepare else Protocol.ReceiveResults(id, job, Protocol.AwaitFile);
    LeadsOne(p, wire[0], q);
    LeadsOne(q, wire[1], r);
    LeadsConcat(p, [wire[0]], q, [wire[1]], r);
    assert [wire[0]] + [wire[1]] == wire;
  }

  /** Each turn of the task is, on the wire, a way from the one state of the server's end to the other. */
  lemma TurnIsOnTheWire(n: Node.Node, me: nat, turn: Turn)
    requires !n.phase.Panicked? && Sensible(n.phase, turn)
    ensures var (n', _) := Take(n, me, turn);
            !n'.phase.Panicked? && Leads(StateOf(n.phase), WireOf(n, turn), StateOf(n'.phase))
  {
    var (n', _) := Take(n, me, turn);
    var wire := WireOf(n, turn);
    if |wire| == 1 {
      LeadsOne(StateOf(n.phase), wire[0], StateOf(n'.phase));
    } else if |wire| == 2 {
      ReportedOnWire(n.phase.ident, n.phase.job, n.phase.cancelled, turn.event.report);
    } else if |wire| == 3 {
      HandshakeOnWire();
    }
  }

  /** Every answer in a list of turns is sensible when it comes. */
  predicate AllSensible(n: Node.Node, me: nat, turns: seq<Turn>)
    decreases |turns|
  {
    turns == [] || (Sensible(n.phase, turns[0]) && AllSensible(Take(n, me, turns[0]).0, me, turns[1..]))
  }

  function WireOfAll(n: Node.Node, me: nat, turns: seq<Turn>): seq<Action>
    decreases |turns|
  {
    if turns == [] then [] else WireOf(n, turns[0]) + WireOfAll(Take(n, me, turns[0]).0, me, turns[1..])
  }

  /**
   The converse refinement: whatever a task does and hears, as long as the pool answers as it is proved
   to, the server's end has a way to do on the wire, message by message.
   */
  lemma {:induction false} NodeRunsAreOnTheWire(n: Node.Node, me: nat, turns: seq<Turn>)
    requires !n.phase.Panicked? && AllSensible(n, me, turns)
    ensures var (n', _) := Follow(n, me, turns);
            !n'.phase.Panicked? && Leads(StateOf(n.phase), WireOfAll(n, me, turns), StateOf(n'.phase))
    decreases |turns|
  {
    if turns != [] {
      var (m, _) := Take(n, me, turns[0]);
      TurnIsOnTheWire(n, me, turns[0]);
      NodeRunsAreOnTheWire(m, me, turns[1..]);
      LeadsConcat(StateOf(n.phase), WireOf(n, turns[0]), StateOf(m.phase), WireOfAll(m, me, turns[1..]),
                  StateOf(Follow(m, me, turns[1..]).0.phase));
    }
  }

  /** Asking a number of times and being given nothing each time. */
  function AskInVain(times: nat): seq<Turn> {
    if times == 0 then [] else [Does(Node.KeepaliveAnswered), Told(EmptyJobs)] + AskInVain(times - 1)
  }

  function SameRequest(n: Node.Node, me: nat, times: nat): seq<JobPool.JobRequest> {
    seq(times, _ => Node.Request(n, me))
  }

  /** However often a task is given nothing, it is where it was, and has asked the same every time. */
  lemma {:induction false} AskingInVainChangesNothing(n: Node.Node, me: nat, times: nat)
    requires n.phase.PrepareBuild? || n.phase.Built?
    ensures Follow(n, me, AskInVain(times)) == (n, SameRequest(n, me, times))
    ensures WireOfAll(n, me, AskInVain(times)) == []
  {
    if times == 0 {
      assert SameRequest(n, me, 0) == [];
    } else {
      var ask, told := Does(Node.KeepaliveAnswered), Told(EmptyJobs);
      var rest := AskInVain(times - 1);
      var asking := Node.Step(n, me, Node.KeepaliveAnswered).node;
      Node.AskingRound(n, me, NoSet, Job("", 0));
      AskingInVainChangesNothing(n, me, times - 1);
      var turns := AskInVain(times);
      assert turns[0] == ask && turns[1..] == [told] + rest && ([told] + rest)[1..] == rest;
      assert Follow(asking, me, [told] + rest) == (n, [] + SameRequest(n, me, times - 1));
      assert [Node.Request(n, me)] + ([] + SameRequest(n, me, times - 1)) == SameRequest(n, me, times);
      assert WireOfAll(asking, me, [told] + rest) == [];
    }
  }

  // ---------------------------------------------------------------- whole runs

  type Assignment = (JobSetIdentifier, Job)

  /** The jobs a list of requests reports finished, in order. */
  function Reported(sent: seq<JobPool.JobRequest>): seq<Assignment> {
    if sent == [] then [] else OwnReport(sent[0]) + Reported(sent[1..])
  }

  function OwnReport(req: JobPool.JobRequest): seq<Assignment> {
    if req.FinishJob? then [(req.ident, req.job)] else []
  }

  /** The job the server lets go of in this step, if it does. */
  function Released(s: Protocol.State, t: Protocol.State): seq<Assignment> {
    if JobOf(s.server).Some? && JobOf(t.server).None? then [JobOf(s.server).value] else []
  }

  /** The jobs the server took on and let go of in a run, in order. */
  function Completed(run: seq<Protocol.State>): seq<Assignment> {
    if |run| < 2 then []
    else Completed(run[..|run| - 1]) + Released(run[|run| - 2], run[|run| - 1])
  }

  lemma {:induction false} ReportedConcat(a: seq<JobPool.JobRequest>, b: seq<JobPool.JobRequest>)
    ensures Reported(a + b) == Reported(a) + Reported(b)
  {
    if a == [] {
      assert a + b == b;
    } else {
      assert (a + b)[0] == a[0] && (a + b)[1..] == a[1..] + b;
      ReportedConcat(a[1..], b);
      var head, rest := OwnReport(a[0]), Reported(a[1..]);
      assert head + (rest + Reported(b)) == head + rest + Reported(b);
    }
  }

  lemma {:induction false} NothingReported(sent: seq<JobPool.JobRequest>)
    requires forall r <- sent :: r.NewJob?
    ensures Reported(sent) == []
  {
    if sent != [] {
      assert sent[0] in sent && forall r <- sent[1..] :: r in sent;
      NothingReported(sent[1..]);
    }
  }

  lemma OneReported(id: JobSetIdentifier, job: Job)
    ensures Reported([JobPool.FinishJob(id, job)]) == [(id, job)]
  {
    var sent := [JobPool.FinishJob(id, job)];
    assert sent[1..] == [] && Reported([]) == [];
  }

  lemma OneMoreStep(n: Node.Node, me: nat, earlier: seq<Turn>, s: Protocol.State, t: Protocol.State) returns (turns: seq<Turn>)
    requires var (m, _) := Follow(n, me, earlier); m.phase == PhaseOf(s.server) && m.tokens == []
    requires Protocol.Step(s, t)
    ensures var (n', sent) := Follow(n, me, turns);
            && n'.phase == PhaseOf(t.server) && n'.tokens == []
            && Reported(sent) == Reported(Follow(n, me, earlier).1) + Released(s, t)
  {
    var (m, sent) := Follow(n, me, earlier);
    var last := StepIsNodeMoves(m, me, s, t);
    var (_, later) := Follow(m, me, last);
    turns := earlier + last;
    FollowConcat(n, me, earlier, last);
    ReportedConcat(sent, later);
    if Released(s, t) == [] {
      NothingReported(later);
    } else {
      OneReported(JobOf(s.server).value.0, JobOf(s.server).value.1);
    }
  }

  lemma FrontIsRun(run: seq<Protocol.State>)
    requires Protocol.IsRun(run) && |run| > 1
    ensures var front := run[..|run| - 1];
            Protocol.IsRun(front) && front[|front| - 1] == run[|run| - 2] && Protocol.Step(run[|run| - 2], run[|run| - 1])
  {
    assert Protocol.Step(run[|run| - 2], run[|run| - 2 + 1]);
    forall i | 0 <= i < |run| - 2 ensures Protocol.Step(run[i], run[i + 1]) {}
  }

  /**
   Refinement: behind every run of the protocol there is a run of the node task which ends in the
   same phase and has reported to the pool, in order, exactly the jobs that were handed to the client
   and given up again, each in one `FinishJob`.
   */
  lemma {:induction false} RunsAreNodeRuns(n: Node.Node, me: nat, run: seq<Protocol.State>) returns (turns: seq<Turn>)
    requires n.phase == Node.Uninit && n.tokens == [] && Protocol.IsRun(run)
    ensures var (n', sent) := Follow(n, me, turns);
            && n'.phase == PhaseOf(run[|run| - 1].server) && n'.tokens == []
            && Reported(sent) == Completed(run)
    decreases |run|
  {
    if |run| == 1 {
      turns := [];
    } else {
      FrontIsRun(run);
      var earlier := RunsAreNodeRuns(n, me, run[..|run| - 1]);
      turns := OneMoreStep(n, me, earlier, run[|run| - 2], run[|run| - 1]);
    }
  }
}
