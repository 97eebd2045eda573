/**
 What the two ends say to each other when nothing goes wrong, message by message: the handshake, a
 build, a job with its results, and whole sessions of them with any files.
 */
module ProtocolScripts {
  import opened Types
  import opened Protocol

  datatype Said = ByServer(server: ServerMsg) | ByClient(client: ClientMsg)

  /** The states of the two ends. */
  datatype Ends = Ends(server: Server, client: Client)

  /** One end says something and the other takes it. */
  ghost predicate Says(a: Ends, m: Said, b: Ends) {
    match m
    case ByServer(x) => ServerSends(a.server, x, b.server) && ClientReceives(a.client, x) == Some(b.client)
    case ByClient(x) => ClientSends(a.client, x, b.client) && ServerReceives(a.server, x) == Some(b.server)
  }

  /** A script takes the two ends from one pair of states to another. */
  ghost predicate Talk(a: Ends, script: seq<Said>, b: Ends)
    decreases |script|
  {
    if script == [] then a == b
    else exists next :: Says(a, script[0], next) && Talk(next, script[1..], b)
  }

  /** One message in front of a script. */
  lemma TalkFirst(a: Ends, m: Said, next: Ends, rest: seq<Said>, b: Ends)
    requires Says(a, m, next) && Talk(next, rest, b)
    ensures Talk(a, [m] + rest, b)
  {
    assert ([m] + rest)[0] == m && ([m] + rest)[1..] == rest;
  }

  lemma {:induction false} TalkConcat(a: Ends, front: seq<Said>, b: Ends, back: seq<Said>, c: Ends)
    requires Talk(a, front, b) && Talk(b, back, c)
    ensures Talk(a, front + back, c)
    decreases |front|
  {
    if front == [] {
      assert front + back == back;
    } else {
      var next := TalkBegins(a, front, b);
      TalkConcat(next, front[1..], b, back, c);
      TalkFirst(a, front[0], next, front[1..] + back, c);
      Regroup(front, back);
    }
  }

  lemma TalkBegins(a: Ends, script: seq<Said>, b: Ends) returns (next: Ends)
    requires script != [] && Talk(a, script, b)
    ensures Says(a, script[0], next) && Talk(next, script[1..], b)
  {
    next :| Says(a, script[0], next) && Talk(next, script[1..], b);
  }

  lemma Regroup(front: seq<Said>, back: seq<Said>)
    requires front != []
    ensures [front[0]] + (front[1..] + back) == front + back
  {
  }

  lemma TalkOne(a: Ends, m: Said, b: Ends)
    requires Says(a, m, b)
    ensures Talk(a, [m], b)
  {
    TalkFirst(a, m, b, [], b);
    assert [m] + [] == [m];
  }

  lemma TalkTwo(a: Ends, m: Said, b: Ends, n: Said, c: Ends)
    requires Says(a, m, b) && Says(b, n, c)
    ensures Talk(a, [m, n], c)
  {
    TalkOne(b, n, c);
    TalkFirst(a, m, b, [n], c);
    assert [m] + [n] == [m, n];
  }

  lemma TalkFour(a: Ends, m: Said, b: Ends, n: Said, c: Ends, m': Said, d: Ends, n': Said, e: Ends)
    requires Says(a, m, b) && Says(b, n, c) && Says(c, m', d) && Says(d, n', e)
    ensures Talk(a, [m, n, m', n'], e)
  {
    TalkTwo(a, m, b, n, c);
    TalkTwo(c, m', d, n', e);
    TalkConcat(a, [m, n], c, [m', n'], e);
    assert [m, n] + [m', n'] == [m, n, m', n'];
  }

  // ---------------------------------------------------------------- files

  /** How a file fares: it is small, or large and accepted, or large and refused. */
  datatype Kind = SmallFile | LargeFile | RefusedFile

  /** A file on its way to the client.  A refusal ends it there: nothing more is said. */
  function ToClient(k: Kind): seq<Said> {
    match k
    case SmallFile => [ByServer(SaveFile), ByClient(ReceivedFileC)]
    case LargeFile => [ByServer(FileMarker), ByClient(AwaitingLargeFileC), ByServer(FileBody), ByClient(ReceivedFileC)]
    case RefusedFile => [ByServer(FileMarker), ByClient(DontSendLargeFileC)]
  }

  function ToServer(k: Kind): seq<Said> {
    match k
    case SmallFile => [ByClient(SaveFileC), ByServer(ReceivedFile)]
    case LargeFile => [ByClient(FileMarkerC), ByServer(AwaitingLargeFile), ByClient(FileBodyC), ByServer(ReceivedFile)]
    case RefusedFile => [ByClient(FileMarkerC), ByServer(DontSendLargeFile)]
  }

  function AllToClient(files: seq<Kind>): seq<Said> {
    if files == [] then [] else ToClient(files[0]) + AllToClient(files[1..])
  }

  function AllToServer(files: seq<Kind>): seq<Said> {
    if files == [] then [] else ToServer(files[0]) + AllToServer(files[1..])
  }

  /** The two ends between two files of a build, of a job, and of its results. */
  function InBuild(id: JobSetIdentifier): Ends {
    Ends(SendBuild(id, Ready), ReceiveBuild(id, AwaitFile))
  }

  function InJob(id: JobSetIdentifier, job: Job): Ends {
    Ends(SendJob(id, job, Ready), ReceiveJob(id, id, job, AwaitFile))
  }

  function InResults(id: JobSetIdentifier, job: Job): Ends {
    Ends(ReceiveResults(id, job, AwaitFile), SendResults(id, Ready))
  }

  lemma BuildLargeFile(id: JobSetIdentifier)
    ensures Talk(InBuild(id), ToClient(LargeFile), InBuild(id))
  {
    var a, script := InBuild(id), ToClient(LargeFile);
    var asked := Ends(SendBuild(id, AwaitReply), ReceiveBuild(id, ReplyDue));
    TalkFour(a, script[0], asked, script[1], Ends(SendBuild(id, BodyDue), ReceiveBuild(id, AwaitBody)),
             script[2], Ends(SendBuild(id, AwaitBodyAck), ReceiveBuild(id, AckDue)), script[3], a);
  }

  lemma BuildFile(id: JobSetIdentifier, k: Kind)
    ensures Talk(InBuild(id), ToClient(k), InBuild(id))
  {
    var a, script := InBuild(id), ToClient(k);
    var asked := Ends(SendBuild(id, AwaitReply), ReceiveBuild(id, ReplyDue));
    match k
    case SmallFile => TalkTwo(a, script[0], Ends(SendBuild(id, AwaitAck), ReceiveBuild(id, AckDue)), script[1], a);
    case RefusedFile => TalkTwo(a, script[0], asked, script[1], a);
    case LargeFile => BuildLargeFile(id);
  }

  lemma JobLargeFile(id: JobSetIdentifier, job: Job)
    ensures Talk(InJob(id, job), ToClient(LargeFile), InJob(id, job))
  {
    var a, script := InJob(id, job), ToClient(LargeFile);
    var asked := Ends(SendJob(id, job, AwaitReply), ReceiveJob(id, id, job, ReplyDue));
    TalkFour(a, script[0], asked, script[1], Ends(SendJob(id, job, BodyDue), ReceiveJob(id, id, job, AwaitBody)),
             script[2], Ends(SendJob(id, job, AwaitBodyAck), ReceiveJob(id, id, job, AckDue)), script[3], a);
  }

  lemma JobFile(id: JobSetIdentifier, job: Job, k: Kind)
    ensures Talk(InJob(id, job), ToClient(k), InJob(id, job))
  {
    var a, script := InJob(id, job), ToClient(k);
    var asked := Ends(SendJob(id, job, AwaitReply), ReceiveJob(id, id, job, ReplyDue));
    match k
    case SmallFile => TalkTwo(a, script[0], Ends(SendJob(id, job, AwaitAck), ReceiveJob(id, id, job, AckDue)), script[1], a);
    case RefusedFile => TalkTwo(a, script[0], asked, script[1], a);
    case LargeFile => JobLargeFile(id, job);
  }

  lemma ResultLargeFile(id: JobSetIdentifier, job: Job)
    ensures Talk(InResults(id, job), ToServer(LargeFile), InResults(id, job))
  {
    var a, script := InResults(id, job), ToServer(LargeFile);
    var asked := Ends(ReceiveResults(id, job, ReplyDue), SendResults(id, AwaitReply));
    TalkFour(a, script[0], asked, script[1], Ends(ReceiveResults(id, job, AwaitBody), SendResults(id, BodyDue)),
             script[2], Ends(ReceiveResults(id, job, AckDue), SendResults(id, AwaitBodyAck)), script[3], a);
  }

  lemma ResultFile(id: JobSetIdentifier, job: Job, k: Kind)
    ensures Talk(InResults(id, job), ToServer(k), InResults(id, job))
  {
    var a, script := InResults(id, job), ToServer(k);
    var asked := Ends(ReceiveResults(id, job, ReplyDue), SendResults(id, AwaitReply));
    match k
    case SmallFile => TalkTwo(a, script[0], Ends(ReceiveResults(id, job, AckDue), SendResults(id, AwaitAck)), script[1], a);
    case RefusedFile => TalkTwo(a, script[0], asked, script[1], a);
    case LargeFile => ResultLargeFile(id, job);
  }

  lemma {:induction false} BuildFiles(id: JobSetIdentifier, files: seq<Kind>)
    ensures Talk(InBuild(id), AllToClient(files), InBuild(id))
  {
    if files != [] {
      BuildFile(id, files[0]);
      BuildFiles(id, files[1..]);
      TalkConcat(InBuild(id), ToClient(files[0]), InBuild(id), AllToClient(files[1..]), InBuild(id));
    }
  }

  lemma {:induction false} JobFiles(id: JobSetIdentifier, job: Job, files: seq<Kind>)
    ensures Talk(InJob(id, job), AllToClient(files), InJob(id, job))
  {
    if files != [] {
      JobFile(id, job, files[0]);
      JobFiles(id, job, files[1..]);
      TalkConcat(InJob(id, job), ToClient(files[0]), InJob(id, job), AllToClient(files[1..]), InJob(id, job));
    }
  }

  lemma {:induction false} ResultFiles(id: JobSetIdentifier, job: Job, files: seq<Kind>)
    ensures Talk(InResults(id, job), AllToServer(files), InResults(id, job))
  {
    if files != [] {
      ResultFile(id, job, files[0]);
      ResultFiles(id, job, files[1..]);
      TalkConcat(InResults(id, job), ToServer(files[0]), InResults(id, job), AllToServer(files[1..]), InResults(id, job));
    }
  }

  // ---------------------------------------------------------------- builds and jobs

  /** What a session consists of, after the handshake. */
  datatype Task =
    | BuildTask(set_: JobSetIdentifier, files: seq<Kind>, ok: bool)
    | JobTask(job: Job, files: seq<Kind>, report: RunReport, results: seq<Kind>)
    | ReturnTask

  /** The two ends between tasks, with a set compiled or none. */
  function At(compiled: Option<JobSetIdentifier>): Ends {
    match compiled
    case None => Ends(Prepare, AwaitInitialize)
    case Some(id) => Ends(Built(id), AwaitInstructions(id))
  }

  /** A build comes when nothing is compiled, a job or the way back when something is. */
  predicate Fits(compiled: Option<JobSetIdentifier>, t: Task) {
    t.BuildTask? <==> compiled.None?
  }

  /** A set is compiled after its build unless that fails, and until its node goes back or a job is cancelled. */
  function After(compiled: Option<JobSetIdentifier>, t: Task): Option<JobSetIdentifier> {
    match t
    case BuildTask(id, _, ok) => if ok then Some(id) else None
    case JobTask(_, _, report, _) => if report.Cancelled? then None else compiled
    case ReturnTask => None
  }

  /** The messages of a task.  A cancelled job has no results. */
  function Script(compiled: Option<JobSetIdentifier>, t: Task): seq<Said>
    requires Fits(compiled, t)
  {
    match t
    case BuildTask(id, files, ok) =>
      [ByServer(InitializeJob(id))] + AllToClient(files) + [ByServer(FinishFiles), ByClient(Compiled(ok))]
    case JobTask(job, files, report, results) =>
      [ByServer(ExecuteJob(compiled.value, job))] + AllToClient(files)
      + [ByServer(FinishFiles), ByClient(Finished(report))]
      + ResultScript(report, results)
    case ReturnTask => [ByServer(ReturnPrepareBuild)]
  }

  lemma BuildTalk(id: JobSetIdentifier, files: seq<Kind>, ok: bool)
    ensures Talk(At(None), Script(None, BuildTask(id, files, ok)), At(if ok then Some(id) else None))
  {
    var start, end := At(None), At(if ok then Some(id) else None);
    var order, last := ByServer(InitializeJob(id)), [ByServer(FinishFiles), ByClient(Compiled(ok))];
    BuildFiles(id, files);
    TalkFirst(start, order, InBuild(id), AllToClient(files), InBuild(id));
    TalkTwo(InBuild(id), last[0], Ends(AwaitCompiled(id), Compiling(id)), last[1], end);
    TalkConcat(start, [order] + AllToClient(files), InBuild(id), last, end);
  }

  /** What is said of a run's result, and of the files it left. */
  function ResultScript(report: RunReport, results: seq<Kind>): seq<Said> {
    [ByServer(Continue)] + if report.Cancelled? then [] else AllToServer(results) + [ByClient(FinishFilesC)]
  }

  lemma ResultTalk(id: JobSetIdentifier, job: Job, report: RunReport, results: seq<Kind>)
    ensures Talk(Ends(ConfirmDue(id, job, false, report), AwaitConfirm(id, report)), ResultScript(report, results),
                 At(if report.Cancelled? then None else Some(id)))
  {
    var a, end := Ends(ConfirmDue(id, job, false, report), AwaitConfirm(id, report)), At(if report.Cancelled? then None else Some(id));
    if report.Cancelled? {
      TalkFirst(a, ByServer(Continue), end, [], end);
    } else {
      ResultFiles(id, job, results);
      TalkOne(InResults(id, job), ByClient(FinishFilesC), end);
      TalkConcat(InResults(id, job), AllToServer(results), InResults(id, job), [ByClient(FinishFilesC)], end);
      TalkFirst(a, ByServer(Continue), InResults(id, job), AllToServer(results) + [ByClient(FinishFilesC)], end);
    }
  }

  lemma JobTalk(id: JobSetIdentifier, job: Job, files: seq<Kind>, report: RunReport, results: seq<Kind>)
    ensures Talk(At(Some(id)), Script(Some(id), JobTask(job, files, report, results)),
                 At(if report.Cancelled? then None else Some(id)))
  {
    var start, end := At(Some(id)), At(if report.Cancelled? then None else Some(id));
    var order, run := ByServer(ExecuteJob(id, job)), [ByServer(FinishFiles), ByClient(Finished(report))];
    var done := Ends(ConfirmDue(id, job, false, report), AwaitConfirm(id, report));
    JobFiles(id, job, files);
    TalkFirst(start, order, InJob(id, job), AllToClient(files), InJob(id, job));
    TalkTwo(InJob(id, job), run[0], Ends(AwaitFinished(id, job, false), Running(id, id, job)), run[1], done);
    TalkConcat(start, [order] + AllToClient(files), InJob(id, job), run, done);
    ResultTalk(id, job, report, results);
    TalkConcat(start, [order] + AllToClient(files) + run, done, ResultScript(report, results), end);
  }

  /** A task is carried out by its messages, in their order. */
  lemma TaskTalk(compiled: Option<JobSetIdentifier>, t: Task)
    requires Fits(compiled, t)
    ensures Talk(At(compiled), Script(compiled, t), At(After(compiled, t)))
  {
    match t
    case BuildTask(id, files, ok) => BuildTalk(id, files, ok);
    case JobTask(job, files, report, results) => JobTalk(compiled.value, job, files, report, results);
    case ReturnTask => TalkOne(At(compiled), ByServer(ReturnPrepareBuild), At(None));
  }

  // ---------------------------------------------------------------- sessions

  predicate AllFit(compiled: Option<JobSetIdentifier>, tasks: seq<Task>)
    decreases |tasks|
  {
    tasks == [] || (Fits(compiled, tasks[0]) && AllFit(After(compiled, tasks[0]), tasks[1..]))
  }

  function AfterAll(compiled: Option<JobSetIdentifier>, tasks: seq<Task>): Option<JobSetIdentifier>
    decreases |tasks|
  {
    if tasks == [] then compiled else AfterAll(After(compiled, tasks[0]), tasks[1..])
  }

  function Scripts(compiled: Option<JobSetIdentifier>, tasks: seq<Task>): seq<Said>
    requires AllFit(compiled, tasks)
    decreases |tasks|
  {
    if tasks == [] then [] else Script(compiled, tasks[0]) + Scripts(After(compiled, tasks[0]), tasks[1..])
  }

  lemma {:induction false} TasksTalk(compiled: Option<JobSetIdentifier>, tasks: seq<Task>)
    requires AllFit(compiled, tasks)
    ensures Talk(At(compiled), Scripts(compiled, tasks), At(AfterAll(compiled, tasks)))
    decreases |tasks|
  {
    if tasks != [] {
      var next := After(compiled, tasks[0]);
      TaskTalk(compiled, tasks[0]);
      TasksTalk(next, tasks[1..]);
      TalkConcat(At(compiled), Script(compiled, tasks[0]), At(next), Scripts(next, tasks[1..]), At(AfterAll(compiled, tasks)));
    }
  }

  const HANDSHAKE := [ByServer(RequestVersion), ByClient(ResponseVersion), ByServer(VersionsMatched)]

  lemma HandshakeTalk()
    ensures Talk(Ends(Uninit, AwaitRequest), HANDSHAKE, At(None))
  {
    var a, b, c := HANDSHAKE[0], HANDSHAKE[1], HANDSHAKE[2];
    var asked := Ends(AwaitVersion, VersionDue);
    TalkTwo(asked, b, Ends(VerdictDue, AwaitVerdict), c, At(None));
    TalkFirst(Ends(Uninit, AwaitRequest), a, asked, [b, c], At(None));
    assert [a] + [b, c] == HANDSHAKE;
  }

  /** Two ends with nothing in flight on a socket where nothing has gone wrong. */
  function Idle(a: Ends): State {
    Quiet(a.server, a.client)
  }

  /** A script that overrides nothing is a run of the protocol, with nothing in flight at its end. */
  lemma {:induction false} TalkIsRun(a: Ends, script: seq<Said>, b: Ends)
    requires Reachable(Idle(a)) && Talk(a, script, b)
    requires ByServer(OverrideWithCancellation) !in script
    ensures Reachable(Idle(b))
    decreases |script|
  {
    if script != [] {
      var next :| Says(a, script[0], next) && Talk(next, script[1..], b);
      match script[0] {
        case ByServer(m) => var t := ServerTalks(Idle(a), m, next.server, next.client);
        case ByClient(m) => var t := ClientTalks(Idle(a), m, next.client, next.server);
      }
      TalkIsRun(next, script[1..], b);
    }
  }

  lemma {:induction false} FilesOverrideNothing(files: seq<Kind>)
    ensures ByServer(OverrideWithCancellation) !in AllToClient(files)
    ensures ByServer(OverrideWithCancellation) !in AllToServer(files)
  {
    if files != [] {
      FilesOverrideNothing(files[1..]);
    }
  }

  lemma {:induction false} ScriptsOverrideNothing(compiled: Option<JobSetIdentifier>, tasks: seq<Task>)
    requires AllFit(compiled, tasks)
    ensures ByServer(OverrideWithCancellation) !in Scripts(compiled, tasks)
    decreases |tasks|
  {
    if tasks != [] {
      match tasks[0] {
        case BuildTask(_, files, _) => FilesOverrideNothing(files);
        case JobTask(_, files, _, results) => FilesOverrideNothing(files); FilesOverrideNothing(results);
        case ReturnTask =>
      }
      ScriptsOverrideNothing(After(compiled, tasks[0]), tasks[1..]);
    }
  }

  /**
   Every session goes through.  Any list of builds, jobs and ways back that fit one another, each with
   any files, small, large or refused, is carried out by exactly these messages in this order, and
   ends with both ends in the same place and nothing in flight.
   */
  lemma SessionGoesThrough(tasks: seq<Task>)
    requires AllFit(None, tasks)
    ensures var end := At(AfterAll(None, tasks));
            && Talk(Ends(Uninit, AwaitRequest), HANDSHAKE + Scripts(None, tasks), end)
            && Reachable(Idle(end))
  {
    var start, end := Ends(Uninit, AwaitRequest), At(AfterAll(None, tasks));
    HandshakeTalk();
    TasksTalk(None, tasks);
    TalkConcat(start, HANDSHAKE, At(None), Scripts(None, tasks), end);
    ScriptsOverrideNothing(None, tasks);
    assert IsRun([Init()]) && [Init()][|[Init()]| - 1] == Idle(start);
    TalkIsRun(start, HANDSHAKE + Scripts(None, tasks), end);
  }
}
