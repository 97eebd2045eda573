/**
 The two ends of one connection: the server's task for a node and the node's own loop.  They share
 a socket whose message type is re-declared at every change of state, so each receive decodes
 whatever comes as the alphabet of the reader's state.  This module models both ends and the two
 byte streams between them as queues of tagged messages, for as long as the connection holds.  The
 keepalive check before the server asks for work may fail: that is no error of the connection, so
 the server starts over on the same socket, and the client is not told.
 */
module Protocol {
  import opened Types

  // ---------------------------------------------------------------- messages

  datatype ServerMsg =
    // uninit
    | RequestVersion | VersionsMatched | VersionMismatch
    // prepare build
    | InitializeJob(set_: JobSetIdentifier)
    // built
    | ReturnPrepareBuild | ExecuteJob(task: JobSetIdentifier, job: Job)
    // executing
    | OverrideWithCancellation | Continue
    // send files, server sending
    | SaveFile | FileMarker | FileBody | FinishFiles
    // send files, server receiving
    | ReceivedFile | AwaitingLargeFile | DontSendLargeFile

  datatype ClientMsg =
    | ResponseVersion
    | Compiled(ok: bool)
    | Finished(report: RunReport)
    | SaveFileC | FileMarkerC | FileBodyC | FinishFilesC
    | ReceivedFileC | AwaitingLargeFileC | DontSendLargeFileC

  /** The message enums of the protocol's states; a large file's body is raw bytes between two messages. */
  datatype Alphabet = UninitMsgs | PrepareMsgs | BuildingMsgs | BuiltMsgs | ExecutingMsgs | FileMsgs | FileAcks | RawBody

  function ServerAlphabet(m: ServerMsg): Alphabet {
    match m
    case RequestVersion => UninitMsgs
    case VersionsMatched => UninitMsgs
    case VersionMismatch => UninitMsgs
    case InitializeJob(_) => PrepareMsgs
    case ReturnPrepareBuild => BuiltMsgs
    case ExecuteJob(_, _) => BuiltMsgs
    case OverrideWithCancellation => ExecutingMsgs
    case Continue => ExecutingMsgs
    case SaveFile => FileMsgs
    case FileMarker => FileMsgs
    case FinishFiles => FileMsgs
    case FileBody => RawBody
    case ReceivedFile => FileAcks
    case AwaitingLargeFile => FileAcks
    case DontSendLargeFile => FileAcks
  }

  function ClientAlphabet(m: ClientMsg): Alphabet {
    match m
    case ResponseVersion => UninitMsgs
    case Compiled(_) => BuildingMsgs
    case Finished(_) => ExecutingMsgs
    case SaveFileC => FileMsgs
    case FileMarkerC => FileMsgs
    case FinishFilesC => FileMsgs
    case FileBodyC => RawBody
    case ReceivedFileC => FileAcks
    case AwaitingLargeFileC => FileAcks
    case DontSendLargeFileC => FileAcks
  }

  // ---------------------------------------------------------------- the two machines

  /** The sending half of a file transfer: about to send, or waiting for one of its three replies. */
  datatype Sending = Ready | AwaitAck | AwaitReply | BodyDue | AwaitBodyAck

  /** The receiving half: waiting for a file message or a body, or about to answer. */
  datatype Receiving = AwaitFile | AckDue | ReplyDue | AwaitBody

  datatype Server =
    | Uninit
    | AwaitVersion
    | VerdictDue
    | Prepare                                                  // InitializeJob is due
    | SendBuild(set_: JobSetIdentifier, out: Sending)
    | AwaitCompiled(set_: JobSetIdentifier)
    | Built(set_: JobSetIdentifier)                            // ExecuteJob or ReturnPrepareBuild is due
    | SendJob(set_: JobSetIdentifier, job: Job, out: Sending)
    | AwaitFinished(set_: JobSetIdentifier, job: Job, cancelled: bool)
    | ConfirmDue(set_: JobSetIdentifier, job: Job, cancelled: bool, report: RunReport)
    | ReceiveResults(set_: JobSetIdentifier, job: Job, in_: Receiving)

  datatype Client =
    | AwaitRequest
    | VersionDue
    | AwaitVerdict
    | AwaitInitialize
    | ReceiveBuild(build: JobSetIdentifier, in_: Receiving)
    | Compiling(build: JobSetIdentifier)                       // the compile result is due
    | AwaitInstructions(build: JobSetIdentifier)
    | ReceiveJob(build: JobSetIdentifier, task: JobSetIdentifier, job: Job, in_: Receiving)
    | Running(build: JobSetIdentifier, task: JobSetIdentifier, job: Job)    // the run's result is due
    | AwaitConfirm(build: JobSetIdentifier, report: RunReport)
    | SendResults(build: JobSetIdentifier, out: Sending)
    | HungUp                                                   // the client has closed the socket

  /**
   What has happened on this socket: the server has sent `OverrideWithCancellation`, a keepalive was
   missed before the server asked for work, a message was decoded as one of another enum.
   */
  datatype State = State(
    server: Server,
    client: Client,
    toClient: seq<ServerMsg>,
    toServer: seq<ClientMsg>,
    overridden: bool,
    missed: bool,
    misread: bool)

  function Init(): State {
    State(Uninit, AwaitRequest, [], [], false, false, false)
  }

  /** Two ends with nothing in flight on a socket where nothing has gone wrong. */
  function Quiet(server: Server, client: Client): State {
    Init().(server := server, client := client)
  }

  /** What a message is decoded as at a receive; `None` where the machine does not receive. */
  function ServerExpects(p: Server): Option<Alphabet> {
    match p
    case AwaitVersion => Some(UninitMsgs)
    case SendBuild(_, out) => SenderExpects(out)
    case AwaitCompiled(_) => Some(BuildingMsgs)
    case SendJob(_, _, out) => SenderExpects(out)
    case AwaitFinished(_, _, _) => Some(ExecutingMsgs)
    case ReceiveResults(_, _, in_) => ReceiverExpects(in_)
    case _ => None
  }

  function ClientExpects(p: Client): Option<Alphabet> {
    match p
    case AwaitRequest => Some(UninitMsgs)
    case AwaitVerdict => Some(UninitMsgs)
    case AwaitInitialize => Some(PrepareMsgs)
    case ReceiveBuild(_, in_) => ReceiverExpects(in_)
    case AwaitInstructions(_) => Some(BuiltMsgs)
    case ReceiveJob(_, _, _, in_) => ReceiverExpects(in_)
    case AwaitConfirm(_, _) => Some(ExecutingMsgs)
    case SendResults(_, out) => SenderExpects(out)
    case _ => None
  }

  function SenderExpects(out: Sending): Option<Alphabet> {
    if out.Ready? || out.BodyDue? then None else Some(FileAcks)
  }

  function ReceiverExpects(in_: Receiving): Option<Alphabet> {
    match in_
    case AwaitFile => Some(FileMsgs)
    case AwaitBody => Some(RawBody)
    case _ => None
  }

  // ---------------------------------------------------------------- receiving

  /** The part of a file transfer that is the same in both directions. */
  datatype FileMove = Small | Marker | Body | Finish | Ack | Accept | Refuse | NotFiles

  function FileMoveS(m: ServerMsg): FileMove {
    match m
    case SaveFile => Small
    case FileMarker => Marker
    case FileBody => Body
    case FinishFiles => Finish
    case ReceivedFile => Ack
    case AwaitingLargeFile => Accept
    case DontSendLargeFile => Refuse
    case _ => NotFiles
  }

  function FileMoveC(m: ClientMsg): FileMove {
    match m
    case SaveFileC => Small
    case FileMarkerC => Marker
    case FileBodyC => Body
    case FinishFilesC => Finish
    case ReceivedFileC => Ack
    case AwaitingLargeFileC => Accept
    case DontSendLargeFileC => Refuse
    case _ => NotFiles
  }

  /** A sender takes any reply as the acknowledgement; only after a marker does it matter which one came. */
  function SenderTakes(out: Sending, f: FileMove): Option<Sending> {
    if !(f.Ack? || f.Accept? || f.Refuse?) then None
    else match out
      case AwaitAck => Some(Ready)
      case AwaitBodyAck => Some(Ready)
      case AwaitReply => Some(if f.Accept? then BodyDue else Ready)
      case _ => None
  }

  /** The end of the files is not a state of the receiving half: the machine moves on. */
  function ReceiverTakes(in_: Receiving, f: FileMove): Option<Receiving> {
    match (in_, f)
    case (AwaitFile, Small) => Some(AckDue)
    case (AwaitFile, Marker) => Some(ReplyDue)
    case (AwaitBody, Body) => Some(AckDue)
    case _ => None
  }

  /**
   The server's state after receiving a message; `None` when the message is not one its state can
   act on, which includes every message of another alphabet.
   */
  function ServerReceives(p: Server, m: ClientMsg): Option<Server> {
    match p
    case AwaitVersion => if m.ResponseVersion? then Some(VerdictDue) else None
    case SendBuild(id, out) =>
      (match SenderTakes(out, FileMoveC(m)) case None => None case Some(out') => Some(SendBuild(id, out')))
    case AwaitCompiled(id) => if m.Compiled? then Some(if m.ok then Built(id) else Prepare) else None
    case SendJob(id, job, out) =>
      (match SenderTakes(out, FileMoveC(m)) case None => None case Some(out') => Some(SendJob(id, job, out')))
    case AwaitFinished(id, job, cancelled) =>
      if m.Finished? then Some(ConfirmDue(id, job, cancelled, m.report)) else None
    case ReceiveResults(id, job, in_) =>
      if in_.AwaitFile? && m.FinishFilesC? then Some(Built(id))
      else (match ReceiverTakes(in_, FileMoveC(m)) case None => None case Some(i) => Some(ReceiveResults(id, job, i)))
    case _ => None
  }

  function ClientReceives(p: Client, m: ServerMsg): Option<Client> {
    match p
    // whatever comes first from the server is answered with the version
    case AwaitRequest => if ServerAlphabet(m).UninitMsgs? then Some(VersionDue) else None
    case AwaitVerdict =>
      if m.VersionsMatched? then Some(AwaitInitialize) else if m.VersionMismatch? then Some(AwaitRequest) else None
    case AwaitInitialize => if m.InitializeJob? then Some(ReceiveBuild(m.set_, AwaitFile)) else None
    case ReceiveBuild(id, in_) =>
      if in_.AwaitFile? && m.FinishFiles? then Some(Compiling(id))
      else (match ReceiverTakes(in_, FileMoveS(m)) case None => None case Some(i) => Some(ReceiveBuild(id, i)))
    case AwaitInstructions(b) =>
      if m.ReturnPrepareBuild? then Some(AwaitInitialize)
      else if m.ExecuteJob? then Some(ReceiveJob(b, m.task, m.job, AwaitFile)) else None
    case ReceiveJob(b, id, job, in_) =>
      if in_.AwaitFile? && m.FinishFiles? then Some(Running(b, id, job))
      else (match ReceiverTakes(in_, FileMoveS(m)) case None => None case Some(i) => Some(ReceiveJob(b, id, job, i)))
    case AwaitConfirm(b, report) =>
      if m.OverrideWithCancellation? || (m.Continue? && report.Cancelled?) then Some(AwaitInitialize)
      else if m.Continue? then Some(SendResults(b, Ready)) else None
    case SendResults(b, out) =>
      (match SenderTakes(out, FileMoveS(m)) case None => None case Some(out') => Some(SendResults(b, out')))
    case _ => None
  }

  /**
   `RequestVersion` is the first variant of its enum and has no payload.  Decoded as an instruction it
   is the first variant there, `ReturnPrepareBuild`.  Decoded as an order to build it is the start of
   an `InitializeJob` whose payload is missing; the client takes that for an error of the connection
   and closes it.
   */
  function ClientMisreads(p: Client, m: ServerMsg): Option<Client> {
    if !m.RequestVersion? then None
    else match p
         case AwaitInstructions(_) => Some(AwaitInitialize)
         case AwaitInitialize => Some(HungUp)
         case _ => None
  }

  // ---------------------------------------------------------------- sending

  /**
   What the server can send from a state, and where that leads.  The choices stand for what is not
   in the state: the client's version, the pool's answer, the files to send.
   */
  ghost predicate ServerSends(p: Server, m: ServerMsg, p': Server) {
    match p
    case Uninit => m == RequestVersion && p' == AwaitVersion
    case VerdictDue => (m == VersionsMatched && p' == Prepare) || (m == VersionMismatch && p' == Uninit)
    case Prepare => m.InitializeJob? && p' == SendBuild(m.set_, Ready)
    case SendBuild(id, out) =>
      if m.FinishFiles? then out.Ready? && p' == AwaitCompiled(id)
      else p'.SendBuild? && p'.set_ == id && SenderSends(out, FileMoveS(m), p'.out)
    case Built(id) =>
      || (m == ReturnPrepareBuild && p' == Prepare)
      || (m.ExecuteJob? && m.task == id && p' == SendJob(id, m.job, Ready))
    case SendJob(id, job, out) =>
      if m.FinishFiles? then out.Ready? && p' == AwaitFinished(id, job, false)
      else p'.SendJob? && p'.set_ == id && p'.job == job && SenderSends(out, FileMoveS(m), p'.out)
    case ConfirmDue(id, job, cancelled, report) =>
      if report.Cancelled? then m == Continue && p' == Prepare
      else m == (if cancelled then OverrideWithCancellation else Continue) && p' == ReceiveResults(id, job, AwaitFile)
    case ReceiveResults(id, job, in_) =>
      p'.ReceiveResults? && p'.set_ == id && p'.job == job && ReceiverSends(in_, FileMoveS(m), p'.in_)
    case _ => false
  }

  ghost predicate ClientSends(p: Client, m: ClientMsg, p': Client) {
    match p
    case VersionDue => m == ResponseVersion && p' == AwaitVerdict
    case ReceiveBuild(id, in_) => p'.ReceiveBuild? && p'.build == id && ReceiverSends(in_, FileMoveC(m), p'.in_)
    case Compiling(id) => m.Compiled? && p' == if m.ok then AwaitInstructions(id) else AwaitInitialize
    case ReceiveJob(b, id, job, in_) =>
      p'.ReceiveJob? && p'.build == b && p'.task == id && p'.job == job && ReceiverSends(in_, FileMoveC(m), p'.in_)
    case Running(b, _, _) => m.Finished? && p' == AwaitConfirm(b, m.report)
    case SendResults(b, out) =>
      if m.FinishFilesC? then out.Ready? && p' == AwaitInstructions(b)
      else p'.SendResults? && p'.build == b && SenderSends(out, FileMoveC(m), p'.out)
    case _ => false
  }

  ghost predicate SenderSends(out: Sending, f: FileMove, out': Sending) {
    || (out.Ready? && f.Small? && out'.AwaitAck?)
    || (out.Ready? && f.Marker? && out'.AwaitReply?)
    || (out.BodyDue? && f.Body? && out'.AwaitBodyAck?)
  }

  /** A refused large file is not acknowledged again. */
  ghost predicate ReceiverSends(in_: Receiving, f: FileMove, in_': Receiving) {
    || (in_.AckDue? && f.Ack? && in_'.AwaitFile?)
    || (in_.ReplyDue? && f.Accept? && in_'.AwaitBody?)
    || (in_.ReplyDue? && f.Refuse? && in_'.AwaitFile?)
  }

  // ---------------------------------------------------------------- steps and runs

  function ServerSent(s: State, m: ServerMsg, p: Server): State {
    s.(server := p, toClient := s.toClient + [m], overridden := s.overridden || m.OverrideWithCancellation?)
  }

  function ClientSent(s: State, m: ClientMsg, p: Client): State {
    s.(client := p, toServer := s.toServer + [m])
  }

  function ServerReceived(s: State, p: Server): State
    requires s.toServer != []
  {
    s.(server := p, toServer := s.toServer[1..])
  }

  function ClientReceived(s: State, p: Client): State
    requires s.toClient != []
  {
    s.(client := p, toClient := s.toClient[1..])
  }

  /** A cancellation token for this job was read and the client's cancel port answered. */
  function Marked(s: State): State
    requires s.server.AwaitFinished?
  {
    s.(server := AwaitFinished(s.server.set_, s.server.job, true))
  }

  /** The keepalive check in front of the next request for work fails, and the server starts over. */
  function KeepaliveMissed(s: State): State {
    s.(server := Uninit, missed := true)
  }

  function ClientMisread(s: State, p: Client): State
    requires s.toClient != []
  {
    ClientReceived(s, p).(misread := true)
  }

  ghost predicate ServerStep(s: State, t: State) {
    || (exists m, p :: ServerSends(s.server, m, p) && t == ServerSent(s, m, p))
    || (s.toServer != [] && exists p :: ServerReceives(s.server, s.toServer[0]) == Some(p) && t == ServerReceived(s, p))
    || (s.server.AwaitFinished? && t == Marked(s))
    || ((s.server.Prepare? || s.server.Built?) && t == KeepaliveMissed(s))
  }

  ghost predicate ClientStep(s: State, t: State) {
    || (exists m, p :: ClientSends(s.client, m, p) && t == ClientSent(s, m, p))
    || (s.toClient != [] && exists p :: ClientReceives(s.client, s.toClient[0]) == Some(p) && t == ClientReceived(s, p))
    || (s.toClient != [] && exists p :: ClientMisreads(s.client, s.toClient[0]) == Some(p) && t == ClientMisread(s, p))
  }

  /** A message that the reader's state cannot act on leaves the reader where it is, for good. */
  ghost predicate Step(s: State, t: State) {
    ServerStep(s, t) || ClientStep(s, t)
  }

  ghost predicate IsRun(run: seq<State>) {
    && run != [] && run[0] == Init()
    && forall i :: 0 <= i < |run| - 1 ==> Step(run[i], run[i + 1])
  }

  ghost predicate Reachable(s: State) {
    exists run :: IsRun(run) && run[|run| - 1] == s
  }

  // ---------------------------------------------------------------- the invariant

  /** The client's state once it has taken everything on its way to it. */
  function ClientAfter(p: Client, pending: seq<ServerMsg>): Option<Client>
    decreases |pending|
  {
    if pending == [] then Some(p)
    else match ClientReceives(p, pending[0])
         case None => None
         case Some(p') => ClientAfter(p', pending[1..])
  }

  lemma {:induction false} ClientAfterSnoc(p: Client, pending: seq<ServerMsg>, m: ServerMsg)
    ensures ClientAfter(p, pending + [m])
         == match ClientAfter(p, pending) case None => None case Some(p') => ClientReceives(p', m)
    decreases |pending|
  {
    if pending == [] {
      assert [m][1..] == [];
    } else {
      assert (pending + [m])[1..] == pending[1..] + [m];
      match ClientReceives(p, pending[0])
      case None =>
      case Some(p') => ClientAfterSnoc(p', pending[1..], m);
    }
  }

  /** The two halves of a transfer match. */
  ghost predicate Transfer(out: Sending, in_: Receiving, reply: Option<FileMove>) {
    match reply
    case None =>
      || (out.Ready? && in_.AwaitFile?)
      || ((out.AwaitAck? || out.AwaitBodyAck?) && in_.AckDue?)
      || (out.AwaitReply? && in_.ReplyDue?)
      || (out.BodyDue? && in_.AwaitBody?)
    case Some(f) =>
      || ((out.AwaitAck? || out.AwaitBodyAck?) && in_.AwaitFile? && f.Ack?)
      || (out.AwaitReply? && in_.AwaitBody? && f.Accept?)
      || (out.AwaitReply? && in_.AwaitFile? && f.Refuse?)
  }

  function OnlyMsg(ms: seq<ClientMsg>): Option<ClientMsg> {
    if |ms| == 1 then Some(ms[0]) else None
  }

  /**
   Lockstep: server and client are in the same place of the protocol, up to the one message on its
   way to the server, and agree on the set compiled and the job run.
   */
  ghost predicate Together(server: Server, client: Client, m: Option<ClientMsg>) {
    match server
    case Uninit => m.None? && client == AwaitRequest
    case AwaitVersion => (m.None? && client == VersionDue) || (m == Some(ResponseVersion) && client == AwaitVerdict)
    case VerdictDue => m.None? && client == AwaitVerdict
    case Prepare => m.None? && client == AwaitInitialize
    case SendBuild(id, out) =>
      && client.ReceiveBuild? && client.build == id
      && Transfer(out, client.in_, if m.None? then None else Some(FileMoveC(m.value)))
    case AwaitCompiled(id) =>
      || (m.None? && client == Compiling(id))
      || (m == Some(Compiled(true)) && client == AwaitInstructions(id))
      || (m == Some(Compiled(false)) && client == AwaitInitialize)
    case Built(id) => m.None? && client == AwaitInstructions(id)
    case SendJob(id, job, out) =>
      && client.ReceiveJob? && client.build == id && client.task == id && client.job == job
      && Transfer(out, client.in_, if m.None? then None else Some(FileMoveC(m.value)))
    case AwaitFinished(id, job, _) =>
      || (m.None? && client == Running(id, id, job))
      || (m.Some? && m.value.Finished? && client == AwaitConfirm(id, m.value.report))
    case ConfirmDue(id, job, _, report) => m.None? && client == AwaitConfirm(id, report)
    case ReceiveResults(id, job, in_) =>
      || (m == Some(FinishFilesC) && in_.AwaitFile? && client == AwaitInstructions(id))
      || (client.SendResults? && client.build == id
          && match m
             case None => Transfer(client.out, in_, None)
             case Some(c) =>
               || (c == SaveFileC && client.out.AwaitAck? && in_.AwaitFile?)
               || (c == FileMarkerC && client.out.AwaitReply? && in_.AwaitFile?)
               || (c == FileBodyC && client.out.AwaitBodyAck? && in_.AwaitBody?))
  }

  /** After the override: the server waits for results, the client for a set to build. */
  ghost predicate Stalled(server: Server, client: Client) {
    server.ReceiveResults? && server.in_.AwaitFile? && client == AwaitInitialize
  }

  /** Nothing has gone wrong but an override. */
  ghost predicate InStep(s: State) {
    && !s.misread
    && (s.toServer == [] || (|s.toServer| == 1 && s.toClient == []))
    && match ClientAfter(s.client, s.toClient)
       case None => false
       case Some(client) =>
         if s.overridden then s.toServer == [] && Stalled(s.server, client)
         else Together(s.server, client, OnlyMsg(s.toServer))
  }

  predicate AwaitsWork(p: Client) {
    p.AwaitInitialize? || p.AwaitInstructions?
  }

  /** The client will wait for work when it has taken these messages. */
  predicate EndsAwaitingWork(p: Client, pending: seq<ServerMsg>) {
    ClientAfter(p, pending).Some? && AwaitsWork(ClientAfter(p, pending).value)
  }

  /**
   After a missed keepalive: the server is about to ask for the version, has asked while the client
   is on its way to waiting for work, or waits for the version of a client that has misread it.
   */
  ghost predicate Misaligned(s: State) {
    && s.toServer == [] && !s.overridden
    && (|| (s.server == Uninit && !s.misread && EndsAwaitingWork(s.client, s.toClient))
        || (s.server == AwaitVersion && !s.misread && s.toClient != [] && s.toClient[|s.toClient| - 1] == RequestVersion
            && EndsAwaitingWork(s.client, s.toClient[..|s.toClient| - 1]))
        || (s.server == AwaitVersion && s.misread && s.toClient == [] && (s.client.AwaitInitialize? || s.client.HungUp?)))
  }

  ghost predicate Inv(s: State) {
    if s.missed then Misaligned(s) else InStep(s)
  }

  // ---------------------------------------------------------------- every step keeps it

  /** Whoever has something to read is waiting to read it. */
  lemma ReadersWait(s: State)
    requires InStep(s)
    ensures s.toServer != [] ==> ServerExpects(s.server).Some? && ClientExpects(s.client).Some?
    ensures s.toClient != [] ==> ClientExpects(s.client).Some?
  {
    if s.toServer != [] {
      assert Together(s.server, s.client, Some(s.toServer[0]));
    }
  }

  lemma SendersDoNotWait(p: Server, m: ServerMsg, p': Server, q: Client, c: ClientMsg, q': Client)
    ensures ServerSends(p, m, p') ==> ServerExpects(p).None?
    ensures ClientSends(q, c, q') ==> ClientExpects(q).None?
  {
  }

  /** A message sent in lockstep is one the client acts on, and the two stay in lockstep unless it overrides a result. */
  lemma SentTogether(server: Server, client: Client, m: ServerMsg, p: Server)
    requires Together(server, client, None) && ServerSends(server, m, p)
    ensures ClientReceives(client, m).Some?
    ensures var q := ClientReceives(client, m).value;
            if m.OverrideWithCancellation? then Stalled(p, q) else Together(p, q, None)
  {
  }

  lemma ServerSendKeeps(s: State, m: ServerMsg, p: Server)
    requires InStep(s) && ServerSends(s.server, m, p)
    ensures InStep(ServerSent(s, m, p))
  {
    ReadersWait(s);
    SendersDoNotWait(s.server, m, p, s.client, ResponseVersion, s.client);
    StalledDoesNotSend(s, m, p);
    var client := ClientAfter(s.client, s.toClient).value;
    SentTogether(s.server, client, m, p);
    ClientAfterSnoc(s.client, s.toClient, m);
  }

  lemma StalledDoesNotSend(s: State, m: ServerMsg, p: Server)
    requires InStep(s) && ServerSends(s.server, m, p)
    ensures !s.overridden
  {
  }

  lemma ClientSendKeeps(s: State, m: ClientMsg, p: Client)
    requires InStep(s) && ClientSends(s.client, m, p)
    ensures InStep(ClientSent(s, m, p))
  {
    ReadersWait(s);
    SendersDoNotWait(s.server, RequestVersion, s.server, s.client, m, p);
  }

  lemma ServerReceiveKeeps(s: State)
    requires InStep(s) && s.toServer != []
    ensures ServerReceives(s.server, s.toServer[0]).Some?
    ensures InStep(ServerReceived(s, ServerReceives(s.server, s.toServer[0]).value))
  {
    assert Together(s.server, s.client, Some(s.toServer[0]));
  }

  lemma ClientReceiveKeeps(s: State)
    requires InStep(s) && s.toClient != []
    ensures ClientReceives(s.client, s.toClient[0]).Some?
    ensures InStep(ClientReceived(s, ClientReceives(s.client, s.toClient[0]).value))
  {
  }

  lemma MissKeeps(s: State)
    requires InStep(s) && (s.server.Prepare? || s.server.Built?)
    ensures Misaligned(KeepaliveMissed(s)) && !s.overridden
  {
    if s.toServer != [] {
      ReadersWait(s);
    }
  }

  /** In step, the client understands whatever comes, so nothing is misread. */
  lemma NothingIsMisread(s: State)
    requires InStep(s) && s.toClient != []
    ensures ClientMisreads(s.client, s.toClient[0]).None?
  {
    ClientReceiveKeeps(s);
  }

  lemma InStepKeeps(s: State, t: State)
    requires !s.missed && InStep(s) && Step(s, t)
    ensures Inv(t)
  {
    if s.toClient != [] {
      NothingIsMisread(s);
    }
    if m, p :| ServerSends(s.server, m, p) && t == ServerSent(s, m, p) {
      ServerSendKeeps(s, m, p);
    } else if m, p :| ClientSends(s.client, m, p) && t == ClientSent(s, m, p) {
      ClientSendKeeps(s, m, p);
    } else if s.toServer != [] && t == ServerReceived(s, t.server) {
      ServerReceiveKeeps(s);
    } else if s.toClient != [] && t == ClientReceived(s, t.client) {
      ClientReceiveKeeps(s);
    } else if (s.server.Prepare? || s.server.Built?) && t == KeepaliveMissed(s) {
      MissKeeps(s);
    }
  }

  /** A client that is misaligned sends nothing. */
  lemma MisalignedClientWaits(s: State, m: ClientMsg, p: Client)
    requires Misaligned(s)
    ensures !ClientSends(s.client, m, p)
  {
    if s.toClient != [] && s.server == AwaitVersion {
      var front := s.toClient[..|s.toClient| - 1];
      assert front != [] ==> ClientReceives(s.client, front[0]).Some?;
    }
  }

  lemma RequestIsNotWork(p: Client)
    ensures !EndsAwaitingWork(p, [RequestVersion])
  {
    assert [RequestVersion][1..] == [];
    if ClientReceives(p, RequestVersion).Some? {
      assert ClientAfter(VersionDue, []) == Some(VersionDue);
    }
  }

  /** The head of a misaligned stream is understood, unless it is the misplaced request. */
  lemma MisalignedHead(s: State)
    requires Misaligned(s) && s.toClient != []
    ensures s.toClient == [RequestVersion] ==>
              && s.server == AwaitVersion && AwaitsWork(s.client) && !s.misread
              && ClientReceives(s.client, RequestVersion).None? && ClientMisreads(s.client, RequestVersion).Some?
    ensures s.toClient != [RequestVersion] ==>
              && ClientReceives(s.client, s.toClient[0]).Some? && ClientMisreads(s.client, s.toClient[0]).None?
              && Misaligned(ClientReceived(s, ClientReceives(s.client, s.toClient[0]).value))
  {
    if s.toClient == [RequestVersion] {
      RequestIsNotWork(s.client);
    }
    if s.server == AwaitVersion {
      var front := s.toClient[..|s.toClient| - 1];
      if front == [] {
        assert s.toClient == [RequestVersion];
      } else {
        assert s.toClient[1..][..|s.toClient| - 2] == front[1..];
      }
    }
  }

  lemma MisalignedKeeps(s: State, t: State)
    requires s.missed && Misaligned(s) && Step(s, t)
    ensures t.missed && Misaligned(t)
  {
    if s.toClient != [] {
      MisalignedHead(s);
    }
    if m, p :| ServerSends(s.server, m, p) && t == ServerSent(s, m, p) {
      assert t.toClient[..|t.toClient| - 1] == s.toClient;
    } else if m, p :| ClientSends(s.client, m, p) && t == ClientSent(s, m, p) {
      MisalignedClientWaits(s, m, p);
    }
  }

  lemma StepKeeps(s: State, t: State)
    requires Inv(s) && Step(s, t)
    ensures Inv(t)
  {
    if s.missed {
      MisalignedKeeps(s, t);
    } else {
      InStepKeeps(s, t);
    }
  }

  lemma {:induction false} RunKeeps(run: seq<State>, i: nat)
    requires IsRun(run) && i < |run|
    ensures Inv(run[i])
  {
    if i > 0 {
      RunKeeps(run, i - 1);
      StepKeeps(run[i - 1], run[i]);
    }
  }

  lemma ReachableInv(s: State)
    requires Reachable(s)
    ensures Inv(s)
  {
    var run :| IsRun(run) && run[|run| - 1] == s;
    RunKeeps(run, |run| - 1);
  }

  // ---------------------------------------------------------------- what it means

  /** The head of each stream is of the enum its reader decodes, and is one its reader acts on. */
  ghost predicate HeadsFit(s: State) {
    && (s.toServer != [] ==>
          && ServerExpects(s.server) == Some(ClientAlphabet(s.toServer[0]))
          && ServerReceives(s.server, s.toServer[0]).Some?)
    && (s.toClient != [] ==>
          && ClientExpects(s.client) == Some(ServerAlphabet(s.toClient[0]))
          && ClientReceives(s.client, s.toClient[0]).Some?)
  }

  /**
   Every message is read as the enum it was written as, and is one the reader's state acts on, with
   one exception: the request for the version which a server sends after a missed keepalive, when the
   client has nothing else left to read.
   */
  lemma DecodesAreCorrect(s: State)
    requires Reachable(s)
    ensures HeadsFit(s) <==> !(s.missed && s.toClient == [RequestVersion])
  {
    ReachableInv(s);
    if s.toServer != [] {
      ServerReceiveKeeps(s);
      ServerActsOnItsAlphabet(s.server, s.toServer[0]);
    }
    if s.toClient != [] {
      if s.missed {
        MisalignedHead(s);
      } else {
        ClientReceiveKeeps(s);
      }
      ClientActsOnItsAlphabet(s.client, s.toClient[0]);
    }
  }

  lemma ServerActsOnItsAlphabet(p: Server, m: ClientMsg)
    ensures ServerReceives(p, m).Some? ==> ServerExpects(p) == Some(ClientAlphabet(m))
  {
  }

  lemma ClientActsOnItsAlphabet(p: Client, m: ServerMsg)
    ensures ClientReceives(p, m).Some? ==> ClientExpects(p) == Some(ServerAlphabet(m))
  {
  }

  /** How many messages a client can take before it has to send one. */
  function Patience(p: Client): nat {
    match p
    case AwaitVerdict => 3
    case AwaitInstructions(_) => 3
    case AwaitConfirm(_, _) => 3
    case AwaitInitialize => 2
    case _ => if ClientExpects(p).Some? then 1 else 0
  }

  lemma {:induction false} PendingWithinPatience(p: Client, pending: seq<ServerMsg>)
    requires ClientAfter(p, pending).Some?
    ensures |pending| + Patience(ClientAfter(p, pending).value) <= Patience(p)
    decreases |pending|
  {
    if pending != [] {
      PendingWithinPatience(ClientReceives(p, pending[0]).value, pending[1..]);
    }
  }

  /** At most three messages are on their way to the client, at most one to the server, and never both ways at once. */
  lemma FewMessagesInFlight(s: State)
    requires Reachable(s)
    ensures |s.toClient| <= 3 && |s.toServer| <= 1
    ensures s.toClient == [] || s.toServer == []
  {
    ReachableInv(s);
    if ClientAfter(s.client, s.toClient).Some? {
      PendingWithinPatience(s.client, s.toClient);
    } else {
      PendingWithinPatience(s.client, s.toClient[..|s.toClient| - 1]);
    }
  }

  /** The client takes a file body next; it gets there by sending, never by receiving. */
  predicate AwaitsBody(p: Client) {
    (p.ReceiveBuild? || p.ReceiveJob?) && p.in_.AwaitBody?
  }

  lemma {:induction false} BodyIsAllThatIsPending(p: Client, pending: seq<ServerMsg>)
    requires ClientAfter(p, pending).Some? && FileBody in pending
    ensures pending == [FileBody] && AwaitsBody(p)
    decreases |pending|
  {
    var q := ClientReceives(p, pending[0]).value;
    if pending[0] == FileBody {
      PendingWithinPatience(q, pending[1..]);
    } else {
      BodyIsAllThatIsPending(q, pending[1..]);
    }
  }

  lemma NoBodyOnTheWayToWork(p: Client, pending: seq<ServerMsg>)
    requires EndsAwaitingWork(p, pending)
    ensures FileBody !in pending
  {
    if FileBody in pending {
      BodyIsAllThatIsPending(p, pending);
    }
  }

  /**
   A large file's body travels alone: while one is in a stream, in either direction, nothing is
   behind it, before it, or on its way back.  The raw copying loops, which do not stop at the end
   of a body, rely on it.
   */
  lemma BodyTravelsAlone(s: State)
    requires Reachable(s)
    ensures FileBody in s.toClient ==> s.toClient == [FileBody] && s.toServer == []
    ensures FileBodyC in s.toServer ==> s.toServer == [FileBodyC] && s.toClient == []
  {
    ReachableInv(s);
    if FileBody in s.toClient {
      if ClientAfter(s.client, s.toClient).Some? {
        BodyIsAllThatIsPending(s.client, s.toClient);
      } else {
        var front := s.toClient[..|s.toClient| - 1];
        assert s.toClient == front + [RequestVersion];
        NoBodyOnTheWayToWork(s.client, front);
      }
    }
  }

  /** A client that runs a job runs the one its server holds, with the set it compiled. */
  lemma ClientRunsTheServersJob(s: State)
    requires Reachable(s) && s.client.Running?
    ensures s.server.AwaitFinished? && s.server.set_ == s.client.task == s.client.build && s.server.job == s.client.job
  {
    ReachableInv(s);
  }

  /** The states of the two machines as the source names them. */
  datatype Stage = Handshake | PrepareBuild | BuildFiles | Building | BuiltStage | JobFiles | Executing | ResultFiles | Gone

  function ServerStage(p: Server): Stage {
    match p
    case Uninit => Handshake
    case AwaitVersion => Handshake
    case VerdictDue => Handshake
    case Prepare => PrepareBuild
    case SendBuild(_, _) => BuildFiles
    case AwaitCompiled(_) => Building
    case Built(_) => BuiltStage
    case SendJob(_, _, _) => JobFiles
    case AwaitFinished(_, _, _) => Executing
    case ConfirmDue(_, _, _, _) => Executing
    case ReceiveResults(_, _, _) => ResultFiles
  }

  function ClientStage(p: Client): Stage {
    match p
    case AwaitRequest => Handshake
    case VersionDue => Handshake
    case AwaitVerdict => Handshake
    case AwaitInitialize => PrepareBuild
    case ReceiveBuild(_, _) => BuildFiles
    case Compiling(_) => Building
    case AwaitInstructions(_) => BuiltStage
    case ReceiveJob(_, _, _, _) => JobFiles
    case Running(_, _, _) => Executing
    case AwaitConfirm(_, _) => Executing
    case SendResults(_, _) => ResultFiles
    case HungUp => Gone
  }

  /** With nothing in flight the two ends are in the same stage, unless a result was overridden or a keepalive missed. */
  lemma SameStageIffNothingWentWrong(s: State)
    requires Reachable(s) && s.toClient == [] && s.toServer == []
    ensures ServerStage(s.server) == ClientStage(s.client) <==> !s.overridden && !s.missed
  {
    ReachableInv(s);
  }

  ghost predicate Blocked(s: State) {
    && s.toServer == [] && s.toClient == []
    && ServerExpects(s.server).Some? && ClientExpects(s.client).Some?
  }

  /**
   The only deadlocks: both ends wait for the other with nothing in flight exactly when the client
   has read `OverrideWithCancellation`, or has read a request for the version as an instruction.
   */
  lemma BlockedIffOverriddenOrMisread(s: State)
    requires Reachable(s)
    ensures Blocked(s) <==> s.toClient == [] && (s.overridden || (s.misread && !s.client.HungUp?))
  {
    ReachableInv(s);
  }

  ghost predicate Over(s: State) {
    forall t :: !Step(s, t)
  }

  /** And they are for ever; a client that closed the socket is the only other end, and in every other state something can move. */
  lemma OverIffOverriddenOrMisread(s: State)
    requires Reachable(s)
    ensures Over(s) <==> s.toClient == [] && (s.overridden || s.misread)
  {
    ReachableInv(s);
    if s.missed {
      MisalignedMoves(s);
    } else if !(s.overridden && s.toClient == []) {
      InStepMoves(s);
    }
  }

  lemma InStepMoves(s: State)
    requires InStep(s) && !(s.overridden && s.toClient == [])
    ensures exists t :: Step(s, t)
  {
    if s.toClient != [] {
      ClientReceiveKeeps(s);
      assert Step(s, ClientReceived(s, ClientReceives(s.client, s.toClient[0]).value));
    } else if s.toServer != [] {
      ServerReceiveKeeps(s);
      assert Step(s, ServerReceived(s, ServerReceives(s.server, s.toServer[0]).value));
    } else if ServerExpects(s.server).None? {
      var (m, p) := ServerCanSend(s.server);
      assert Step(s, ServerSent(s, m, p));
    } else {
      var (m, p) := ClientCanSend(s.client);
      assert Step(s, ClientSent(s, m, p));
    }
  }

  lemma MisalignedMoves(s: State)
    requires Misaligned(s)
    ensures (exists t :: Step(s, t)) <==> !s.misread
    ensures s.misread ==> s.toClient == []
  {
    if s.misread {
      forall t ensures !Step(s, t) {
        forall m, p ensures !ClientSends(s.client, m, p) {
          MisalignedClientWaits(s, m, p);
        }
      }
    } else if s.server == Uninit {
      assert Step(s, ServerSent(s, RequestVersion, AwaitVersion));
    } else {
      MisalignedHead(s);
      if s.toClient == [RequestVersion] {
        assert Step(s, ClientMisread(s, ClientMisreads(s.client, RequestVersion).value));
      } else {
        assert Step(s, ClientReceived(s, ClientReceives(s.client, s.toClient[0]).value));
      }
    }
  }

  /**
   A message is decoded as one of another enum only on a socket where a keepalive was missed; and
   there it always comes to that, before the two ends have done all they can.
   */
  lemma MisreadIffKeepaliveMissed(s: State)
    requires Reachable(s)
    ensures s.misread ==> s.missed
    ensures Over(s) ==> (s.misread <==> s.missed)
  {
    ReachableInv(s);
    if s.missed {
      MisalignedMoves(s);
    }
  }

  /** A machine that does not wait has something to send. */
  ghost function ServerCanSend(p: Server): (r: (ServerMsg, Server))
    requires ServerExpects(p).None?
    ensures ServerSends(p, r.0, r.1)
  {
    match p
    case Uninit => (RequestVersion, AwaitVersion)
    case VerdictDue => (VersionsMatched, Prepare)
    case Prepare => (InitializeJob(NoSet), SendBuild(NoSet, Ready))
    case SendBuild(id, out) => if out.Ready? then (FinishFiles, AwaitCompiled(id)) else (FileBody, SendBuild(id, AwaitBodyAck))
    case Built(id) => (ReturnPrepareBuild, Prepare)
    case SendJob(id, job, out) =>
      if out.Ready? then (FinishFiles, AwaitFinished(id, job, false)) else (FileBody, SendJob(id, job, AwaitBodyAck))
    case ConfirmDue(id, job, cancelled, report) =>
      if report.Cancelled? then (Continue, Prepare)
      else (if cancelled then OverrideWithCancellation else Continue, ReceiveResults(id, job, AwaitFile))
    case ReceiveResults(id, job, in_) =>
      if in_.AckDue? then (ReceivedFile, ReceiveResults(id, job, AwaitFile))
      else (DontSendLargeFile, ReceiveResults(id, job, AwaitFile))
  }

  ghost function ClientCanSend(p: Client): (r: (ClientMsg, Client))
    requires ClientExpects(p).None? && !p.HungUp?
    ensures ClientSends(p, r.0, r.1)
  {
    match p
    case VersionDue => (ResponseVersion, AwaitVerdict)
    case ReceiveBuild(id, in_) =>
      if in_.AckDue? then (ReceivedFileC, ReceiveBuild(id, AwaitFile)) else (DontSendLargeFileC, ReceiveBuild(id, AwaitFile))
    case Compiling(id) => (Compiled(true), AwaitInstructions(id))
    case ReceiveJob(b, id, job, in_) =>
      if in_.AckDue? then (ReceivedFileC, ReceiveJob(b, id, job, AwaitFile))
      else (DontSendLargeFileC, ReceiveJob(b, id, job, AwaitFile))
    case Running(b, _, _) => (Finished(Successful), AwaitConfirm(b, Successful))
    case SendResults(b, out) =>
      if out.Ready? then (FinishFilesC, AwaitInstructions(b)) else (FileBodyC, SendResults(b, AwaitBodyAck))
  }

  lemma ExtendRun(run: seq<State>, t: State)
    requires IsRun(run) && Step(run[|run| - 1], t)
    ensures IsRun(run + [t])
  {
    forall i | 0 <= i < |run| ensures Step((run + [t])[i], (run + [t])[i + 1]) {
      if i < |run| - 1 {
        assert Step(run[i], run[i + 1]);
      }
    }
  }

  lemma StepReaches(s: State, t: State)
    requires Reachable(s) && Step(s, t)
    ensures Reachable(t)
  {
    var run :| IsRun(run) && run[|run| - 1] == s;
    var longer := run + [t];
    ExtendRun(run, t);
    assert longer[|longer| - 1] == t;
  }

  lemma ServerTalks(s: State, m: ServerMsg, p: Server, q: Client) returns (t: State)
    requires Reachable(s) && s.toClient == [] && ServerSends(s.server, m, p) && ClientReceives(s.client, m) == Some(q)
    ensures Reachable(t) && t == s.(server := p, client := q, overridden := s.overridden || m.OverrideWithCancellation?)
  {
    var u := ServerSent(s, m, p);
    assert Step(s, u);
    StepReaches(s, u);
    t := ClientReceived(u, q);
    assert Step(u, t);
    StepReaches(u, t);
  }

  lemma ClientTalks(s: State, m: ClientMsg, p: Client, q: Server) returns (t: State)
    requires Reachable(s) && s.toServer == [] && ClientSends(s.client, m, p) && ServerReceives(s.server, m) == Some(q)
    ensures Reachable(t) && t == s.(client := p, server := q)
  {
    var u := ClientSent(s, m, p);
    assert Step(s, u);
    StepReaches(s, u);
    t := ServerReceived(u, q);
    assert Step(u, t);
    StepReaches(u, t);
  }

  /** A server and a client that have just compiled a set, without any files. */
  lemma BuiltIsReachable(id: JobSetIdentifier)
    ensures Reachable(Quiet(Prepare, AwaitInitialize)) && Reachable(Quiet(Built(id), AwaitInstructions(id)))
  {
    var s := Init();
    assert IsRun([s]) && [s][|[s]| - 1] == s;
    s := ServerTalks(s, RequestVersion, AwaitVersion, VersionDue);
    s := ClientTalks(s, ResponseVersion, AwaitVerdict, VerdictDue);
    s := ServerTalks(s, VersionsMatched, Prepare, AwaitInitialize);
    s := ServerTalks(s, InitializeJob(id), SendBuild(id, Ready), ReceiveBuild(id, AwaitFile));
    s := ServerTalks(s, FinishFiles, AwaitCompiled(id), Compiling(id));
    s := ClientTalks(s, Compiled(true), AwaitInstructions(id), Built(id));
  }

  /**
   The first deadlock is real: a job that ends by itself just after its set was cancelled leads to
   it, the server waiting for results and the client for a set to build.
   */
  lemma OverrideDeadlocks(id: JobSetIdentifier, job: Job) returns (s: State)
    ensures Reachable(s) && Blocked(s) && s.overridden
    ensures s.server == ReceiveResults(id, job, AwaitFile) && s.client == AwaitInitialize
  {
    BuiltIsReachable(id);
    s := Quiet(Built(id), AwaitInstructions(id));
    s := ServerTalks(s, ExecuteJob(id, job), SendJob(id, job, Ready), ReceiveJob(id, id, job, AwaitFile));
    s := ServerTalks(s, FinishFiles, AwaitFinished(id, job, false), Running(id, id, job));
    var t := Marked(s);
    assert Step(s, t);
    StepReaches(s, t);
    s := ClientTalks(t, Finished(Successful), AwaitConfirm(id, Successful), ConfirmDue(id, job, true, Successful));
    s := ServerTalks(s, OverrideWithCancellation, ReceiveResults(id, job, AwaitFile), AwaitInitialize);
  }

  /** A keepalive is missed with nothing in flight: the server asks for the version and the client misreads it. */
  lemma MissAndMisread(s: State, p: Client) returns (t: State)
    requires Reachable(s) && (s.server.Prepare? || s.server.Built?) && s.toClient == []
    requires ClientMisreads(s.client, RequestVersion) == Some(p)
    ensures Reachable(t) && t == s.(server := AwaitVersion, client := p, missed := true, misread := true)
  {
    var u := KeepaliveMissed(s);
    assert Step(s, u);
    StepReaches(s, u);
    var v := ServerSent(u, RequestVersion, AwaitVersion);
    assert ServerSends(u.server, RequestVersion, AwaitVersion);
    assert Step(u, v);
    StepReaches(u, v);
    t := ClientMisread(v, p);
    assert Step(v, t);
    StepReaches(v, t);
  }

  /**
   So is the second: a keepalive missed while the client waits for instructions leaves the server
   waiting for a version and the client for a set to build.  If the client had compiled nothing it
   closes the socket instead.
   */
  lemma MissedKeepaliveDeadlocks(id: JobSetIdentifier) returns (s: State, t: State)
    ensures Reachable(s) && Blocked(s) && s.misread && s.server == AwaitVersion && s.client == AwaitInitialize
    ensures Reachable(t) && Over(t) && t.misread && t.client == HungUp
  {
    BuiltIsReachable(id);
    s := MissAndMisread(Quiet(Built(id), AwaitInstructions(id)), AwaitInitialize);
    t := MissAndMisread(Quiet(Prepare, AwaitInitialize), HungUp);
    OverIffOverriddenOrMisread(t);
  }
}
