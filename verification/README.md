# Distribute: jobs, nodes and files, verified in Dafny

Distribute hands batches of jobs to compute nodes. A server keeps a scheduler behind a pool task,
one task per node drives that node through a phase protocol, and files travel over length-prefixed
messages on one socket per node. This project models that system and proves what it guarantees in
every run.

- **Scheduling.** `Schedule.dfy` says what each scheduler operation does to the map of job sets, as
  functions on values, and proves the policy that follows. `Scheduler.dfy` is the scheduler as an
  object that updates its map in place, each method proved equal to its function. `Drain.dfy` shows
  that one node emptying the scheduler follows a simple plan.
- **The server as a whole.** `JobPool.dfy` serves one request at a time; `Node.dfy` is one node task
  cut at its awaits. `Cluster.dfy` puts the scheduler, the pool's queue, the cancellation broadcast
  and any number of node tasks together, with users submitting and cancelling at any time. A run is
  any list of events. `ClusterInvariant.dfy` proves that every event keeps one invariant;
  `ClusterTheorems.dfy`, `ClusterRuns.dfy` and `ClusterDrops.dfy` say what it means: jobs are
  conserved, no set is dropped while a job of it is in transit, a cancelled set leaves exactly when
  its last report is in, no panic is reached, no job is cancelled without a cancellation of its set.
  `ClusterNotes.dfy` proves that what is noted and told about running jobs is right and that tokens and
  submissions arrive as they were sent, `ClusterTwins.dfy` for exactly which batches the notes are right.
  `ClusterWitnesses.dfy` has the runs to the states in which the server does less than its comments
  say. Next to the system's state a run keeps books on every submitted set;
  `BooksAreNotRead` shows that no step depends on them.
- **The phase protocol.** `Protocol.dfy` is both ends of one connection with the two byte streams
  between them as queues of tagged messages, for as long as the connection holds: every message is
  decoded as the enum it was written as unless a keepalive was missed, and the only deadlocks are
  the ones that `OverrideWithCancellation` and a missed keepalive cause. `ProtocolScripts.dfy` proves that
  every session goes through, and by which messages. `NodeProtocol.dfy` proves that the server's end is the
  node task of the cluster seen message by message, in both directions.
- **Files.** `Framing.dfy` is the framing and the streaming of large bodies for every way a stream
  splits its reads; `FileTransfer.dfy` the ack-based transfer; `FolderWalk.dfy` the walk that result
  transfer starts from; `HashedFiles.dfy` the two hops from the user to the server and on to a node.
- **Small algorithms.** `Processes.dfy` is the one-pass search for child processes, `Durations.dfy`
  the duration parser and the hour/minute/second split, `Text.dfy` the decimal numbers in durations and
  hashed names.

Where the code and its own comments disagree the model follows the code. The comment on
`cancel_batch` (src/server/schedule.rs:319-326) says the cancelled set is dropped in a later call.
`ClusterDrops.CancelledSetLeavesIff` says when it is. It never is if nothing of the set was running
when it was cancelled (`ClusterRuns.IdleForever`) or if one of its jobs was leaked by a failed send of
`ExecuteJob` (`ClusterRuns.LeakPinsTheSet`); and a set that stays behind empty takes the cancellations
of every later set of its name (`ClusterRuns.IdleSetShadowsItsName`). All of these are reachable.

Eight promises hold only under a condition, which is proved to be exact: a cancelled set whose jobs do
not come back leaves the map if and only if something of it was running when it was cancelled, all of
that has been reported and none of it leaked; both ends of a connection agree on their stage if and
only if no result was overridden and no keepalive missed, and messages are decoded as what they are
if and only if none was missed; the running list names the node that has a job, in every run, if and only
if no two jobs of the batch share a name, which the client checks before it submits a batch
(`ClusterTwins.CheckHasDuplicates`) and the server does not; a well-formed duration is read right if and only if it fits 64 bits;
a large body is copied exactly for every chunking if and only if
nothing follows it in the stream; sending a file ends, however it is read, if and only if it is as
long as announced; the process search finds every descendant if and only if parents are listed first.

## Model

| member | source | states |
|---|---|---|
| Schedule.RemoveFirstTakesOne | src/server/schedule.rs:395-413 | taking a running job out by name removes exactly one occurrence of that name and no other, and nothing if the name is missing |
| Schedule.EmptyJobsIffNothingEligible | src/server/schedule.rs:143-190 | work conservation: the answer is `EmptyJobs` exactly when no set has jobs left, requirements the node meets, and no recorded build failure |
| Schedule.FetchPriority | src/server/schedule.rs:143-190 | the answer names an eligible set: the least GPU set if there is one, else the compiled set, else the least of all; it is a run task exactly when that set is the compiled one |
| Schedule.AnswerFitsTheAsker | src/server/schedule.rs:76-139 | a node that compiled nothing is never told to run and a node is never told to compile what it has compiled |
| Schedule.FetchEffect | src/server/schedule.rs:369-383 | fetching changes nothing, or takes the last remaining job off the list of the asker's own set and notes it behind the running ones with the asker's own node; no other set and nothing else of this one changes |
| Schedule.ReturnUndoesHandOut | src/server/schedule.rs:389-393 | giving a job back undoes handing it out, whichever node had it, unless another job of its name is running |
| Schedule.OperationsKeepValid | src/server/schedule.rs:192-203 | no operation puts `None` among the keys or hands an identifier out twice |
| Scheduler.RemoveRunningJobByName | src/server/schedule.rs:395-413 | the search by index removes the first entry of that name |
| Scheduler.DeleteFiles | src/config/common.rs:218-224 | one job: its files are deleted up to the first that cannot be, and it succeeds exactly if there is none such |
| Scheduler.ClearRemainingJobs | src/server/schedule.rs:440-458 | no job remains; of all the jobs' files, in order, those are gone that come before the first one that cannot be deleted, and all of them exactly if there is none such |
| Scheduler.GpuPriority.FirstEligible | src/server/schedule.rs:151-161 | walking the map in key order stops at the least set that passes all filters, and finds none exactly when there is none |
| Scheduler.GpuPriority.TakeFirstJob | src/server/schedule.rs:76-101 | a build order for the least eligible set, or nothing; never a job |
| Scheduler.GpuPriority.NextJob | src/server/schedule.rs:369-383 | the last remaining job leaves the list and is noted, with the asking node, behind the running ones; nothing else changes |
| Scheduler.GpuPriority.JobById | src/server/schedule.rs:106-139 | a job of the compiled set, noted as running on the asking node, exactly when the set did not fail to build here and has jobs left; else no change |
| Scheduler.GpuPriority.FetchNewTask | src/server/schedule.rs:143-190 | the three-way choice, new state and answer, equals the policy function; a run task is noted on the asking node, any other answer changes nothing |
| Scheduler.GpuPriority.InsertNewBatch | src/server/schedule.rs:192-203 | the new set sits under an identifier no set has; with the 64-bit counter used up nothing changes and the caller is told |
| Scheduler.GpuPriority.AddJobBack | src/server/schedule.rs:205-215 | the job returns to the end of its set's list, cancelled or not, and is dropped if the set is gone |
| Scheduler.GpuPriority.FinishJob | src/server/schedule.rs:217-263 | one running entry goes, and the set with it exactly when nothing remains and nothing runs |
| Scheduler.GpuPriority.CancelBatch | src/server/schedule.rs:327-348 | the remaining jobs go and the set stays |
| Scheduler.GpuPriority.IdentifierByName | src/server/schedule.rs:272-278 | the least set with this batch name, or none if no set has it |
| Scheduler.GpuPriority.RemainingJobs | src/server/schedule.rs:424-438 | one entry for every set in the map, at the place of its identifier among the keys, with the set's name, the names of all its remaining jobs in order, and every running job with its node |
| Schedule.DescribedInOrder | src/server/schedule.rs:265-270 | there are as many entries as sets, and the entry of a set, at the place its identifier has among the keys, has its name, the names of its remaining jobs in order and its running jobs: no set and no running job is left out |
| Drain.SingleNodeDrain | src/server/schedule.rs:143-190 | a single node is given, for its GPU sets and then its other sets in ascending identifier, one build and then that set's jobs from the back, then nothing, whatever finishes in between |
| Drain.DrainIsUnique | src/server/schedule.rs:143-190 | it is given nothing else: two drains from one state are equal |
| Drain.PlanIsPlan | src/server/schedule.rs:76-101 | the plan lists exactly the eligible sets, each once, in scheduling order |
| Drain.FetchFollowsPlan | src/server/schedule.rs:143-190 | one request gives the head of the plan |
| Drain.ReportKeepsPlan | src/server/schedule.rs:217-263 | a report of a finished job, even one that drops a set, leaves the plan as it is |
| JobPool.JobPool.HandleRequest | src/server/job_pool.rs:21-121 | one message: the new scheduler state, and behind what was sent before exactly what this message sends, of which `JobPool.SendsReachTheAsker` says to whom; the submission that overflows the identifier counter stops the pool and changes nothing |
| JobPool.SendsReachTheAsker | src/server/job_pool.rs:33-113 | a request for work is answered once, to the node that sent it; a query with every set; a cancellation with `BatchNameMissing` exactly if no set has the name, `NoBroadcastNodes` exactly if one has and no node listens, else with success behind a token of the least such set to every node; reports and submissions are not answered |
| JobPool.CancellationTakesEffectIff | src/server/job_pool.rs:84-113 | a cancellation empties a set exactly if some node listens and it is the least of that name; every other set and the rest of this one stay as they are |
| JobPool.ServeAllConcat | src/server/job_pool.rs:21-23 | requests are served in the order of the queue, and those behind one that stops the pool not at all |
| JobPool.JobPool.Spawn | src/server/job_pool.rs:21-126 | a whole queue is served in order: final state, everything sent and to whom, and whether the pool is still there |
| Node.StepKeepsTheJob | src/server/node.rs:54-187 | a node task keeps its job, gives it to the pool in exactly one message, or leaks it; the message returns the job after an error and reports it finished otherwise; it leaks exactly on a failed send of `ExecuteJob` |
| Node.AskingRound | src/server/node.rs:256-309 | a task asks for itself, with what it has compiled and its own record; given nothing it is where it was; told to compile it sends the build, or first takes its node back if something is compiled; told to run a job it sends the job; the two answers that do not fit are bugs |
| Node.StepKeepsTheRest | src/server/node.rs:54-187 | a move changes no capabilities, adds to the record only the set whose build failed, and takes at most the first token; an answer changes nothing but the phase |
| Node.ReadTokensMarks | src/server/node.rs:367-391 | reading the token buffer marks the job cancelled exactly if one of the tokens is its own set's and the node's cancel port answered |
| Node.CheckBroadcastForMatchingToken | src/server/node.rs:367-391 | the monitor loop sets its flag exactly for those tokens |
| Node.PrepareBuildToBuilt | src/server/node.rs:190-217 | the retry loop, with others changing the scheduler between the rounds and the connection breaking at any round: no set is tried twice, the recorded sets are those given and not compiled, a round without a build had nothing the node could compile, and the loop ends with the first in scheduling order of the sets the node could take and compile at that moment |
| Cluster.InitInv | src/server/node.rs:19-50 | a fresh server satisfies the invariant |
| Cluster.NodesHearWhatIsSent | src/server/job_pool.rs:33-113 | in the cluster the nodes are reached by what the pool sends and nothing else, each message by the node it is for, in the order sent |
| ClusterInvariant.NodeMoveBalance | src/server/node.rs:54-187 | no move of a node task loses or makes up a job, apart from the one it leaks |
| ClusterInvariant.ReturnedJobIsKnown | src/server/schedule.rs:205-263 | whenever the pool serves a returned job its set is still there with the name among the running ones |
| ClusterInvariant.FinishConserves | src/server/schedule.rs:217-263 | serving a finished job keeps every set's balance, also when the set is dropped |
| ClusterInvariant.TakeBackConserves | src/server/schedule.rs:205-215 | serving a dead node's job keeps every set's balance |
| ClusterInvariant.EmptyConserves | src/server/schedule.rs:327-348 | serving a cancellation keeps every set's balance |
| ClusterInvariant.AnswerConserves | src/server/job_pool.rs:33-49 | answering a node keeps every set's balance and puts exactly the run task's job in transit |
| ClusterInvariant.ServedInv | src/server/job_pool.rs:21-126 | serving any request keeps the invariant |
| ClusterInvariant.NodeMoveInv | src/server/node.rs:54-187 | any move of any node task keeps the invariant |
| ClusterInvariant.StepInv | src/server/job_pool.rs:21-126 | any event at all keeps the invariant, and nothing on the books is taken back |
| ClusterInvariant.EveryRunKeepsInv | src/server/node.rs:54-187 | the invariant holds in every state of every run of every cluster |
| ClusterTheorems.BooksAreNotRead | src/server/job_pool.rs:21-126 | the accounting beside the state has no influence on any run |
| ClusterTheorems.JobsAreConserved | src/server/schedule.rs:205-263 | conservation: what was submitted with a live set is remaining, on a node, queued, finished, cancelled or leaked, as multisets; the running names are exactly those in transit or leaked |
| ClusterTheorems.DroppedSetIsSettled | src/server/schedule.rs:217-262 | a dropped set left nothing in transit, leaked nothing, and everything of it was finished or cancelled |
| ClusterTheorems.FinishedAtMostOnce | src/server/node.rs:112-187 | no job is reported finished more often than it was submitted, however often nodes die |
| ClusterTheorems.OnePlaceAtATime | src/server/node.rs:54-187 | a job submitted once is never on two nodes, in two messages, or on a node and in a message, and while it is on its way it is not waiting, finished, cancelled or leaked |
| ClusterTheorems.NothingReturnsToARemovedSet | src/server/schedule.rs:205-262 | while a node holds or a message carries a job its set is in the map and its name is noted as running, so both branches the source calls impossible are |
| ClusterRuns.DroppedExactlyAtLastReport | src/server/schedule.rs:217-262 | a set leaves the map if and only if the pool serves the report of its last job in transit, with nothing remaining and nothing leaked |
| ClusterRuns.IdleForever | src/server/schedule.rs:319-348 | an emptied set with nothing in transit stays in the map, empty, in every continuation |
| ClusterDrops.EmptiedSetLeavesWithItsLastReport | src/server/schedule.rs:217-262 | a set with no jobs left to hand out and some running: in every continuation which returns none of its jobs it is gone from the map if and only if nothing of it is in transit and nothing of it was leaked |
| ClusterDrops.CancelledSetLeavesIff | src/server/schedule.rs:319-348 | what the comment on `cancel_batch` promises, over whole continuations which return none of the set's jobs: the cancelled set leaves the map if and only if something of it was running when it was cancelled, all of it has been reported, and none was leaked |
| ClusterWitnesses.IdleIsReachable | src/server/schedule.rs:319-348 | a run to a cancelled set that never leaves: any batch cancelled before a node asked for it |
| ClusterWitnesses.ShadowIsReachable | src/server/schedule.rs:272-278 | and on: the batch is submitted again, and its cancellation takes the old set and leaves every new job waiting |
| ClusterWitnesses.LeakIsReachable | src/protocol/built.rs:256-262 | a run to a leaked job, for every batch with jobs and every node that can take it |
| ClusterWitnesses.ReturnIsReachable | src/server/schedule.rs:389-393 | a run in which a job of a cancelled set comes back from a dead node and is work again |
| ClusterRuns.LeakPinsTheSet | src/protocol/built.rs:256-262 | a leaked job keeps its set in the map and its name among the running ones in every continuation |
| ClusterRuns.LeaksOnlyGrow | src/server/node.rs:67-75 | the leaked jobs of a set grow by one job exactly when a node of that set fails to send `ExecuteJob` |
| ClusterRuns.IdleSetShadowsItsName | src/server/schedule.rs:272-278 | while such an emptied set is in the map no younger set of its name can be cancelled |
| ClusterRuns.TasksFitTheirNode | src/server/schedule.rs:106-139 | whatever set a node compiles, compiled or runs, it meets all its requirements and never failed to build it; no node task reaches a panic |
| ClusterRuns.NoNodeIdlesWithWork | src/server/job_pool.rs:33-49 | in every reachable state a request is answered `EmptyJobs` exactly when no set in the map is one the asking node could do; otherwise with one it could do, GPU sets first |
| ClusterRuns.FailedBuildsAreRecorded | src/protocol/compiling.rs:199-230 | each failed build of a node is one more recorded set, so it never fails to build the same set twice, across reconnects |
| ClusterRuns.FailedBuildsAreBounded | src/server/node.rs:190-217 | over its whole life a node fails at most as many builds as sets were submitted |
| ClusterRuns.NoSpuriousCancellation | src/server/node.rs:367-391 | a job is marked cancelled only if the pool served a cancellation that resolved to its own set, however many tokens were buffered |
| ClusterRuns.CancelsAreServed | src/server/job_pool.rs:84-113 | a set joins the cancelled ones only when the pool serves a cancellation by its name |
| ClusterRuns.IdentifiersAreFresh | src/server/schedule.rs:192-203 | a submitted set gets an identifier no account, node, message or buffered token knows |
| ClusterRuns.CancelledSetIssuesNothing | src/server/schedule.rs:327-348 | after a cancellation no task of the set is issued until the pool takes a job of it back |
| ClusterRuns.CancelledJobComesBack | src/server/schedule.rs:389-393 | and then it is handed out again: the returned job is work for every node that could do the set, cancelled or not |
| ClusterNotes.RunningListNamesTheNode | src/server/schedule.rs:369-383 | in every reachable state, for a batch whose job names are distinct, a job on a node is noted as running on that node and on no other |
| ClusterNotes.UsersAreToldTheNode | src/server/schedule.rs:424-438 | and so the answer to a user's query has an entry of the job's batch which names that node and no other |
| ClusterTwins.TwinsMislead | src/server/schedule.rs:395-413 | a run, for every batch with two jobs of one name, after which a job is on the first node and the list names only the second |
| ClusterTwins.RunningListIsRightIff | src/server/schedule.rs:369-413 | the list names the right node in every run if and only if no two jobs of the batch share a name |
| ClusterTwins.CheckHasDuplicates | src/add.rs:128-145 | the client's check of a batch passes exactly if what users are told about its running jobs is right in every run; a name it complains of occurs twice |
| ClusterNotes.SubmittedSetIsWhole | src/server/schedule.rs:192-203 | what a user submits is kept whole under a fresh identifier: name, requirements, all jobs in order, none running; no other set changes |
| ClusterNotes.NodesHearInOrder | src/server/job_pool.rs:84-96 | a node keeps its capabilities through every run, and what it has still to read is always the end of the list of all tokens broadcast so far, in order |
| ClusterNotes.FinishedGrowsByReports | src/server/job_pool.rs:25-33 | the finished jobs of a set grow exactly by the job of a served report of that set |
| ClusterNotes.CancelledGrowsByTokens | src/server/job_pool.rs:84-96 | its cancelled jobs grow exactly by what was remaining when a cancellation resolved to it |
| Protocol.StepKeeps | src/client/mod.rs:209-262 | every step of either end keeps the two in lockstep, up to an override or a missed keepalive |
| Protocol.DecodesAreCorrect | src/transport.rs:281-288 | in every reachable state the message at the head of each stream belongs to the enum its reader decodes, and is one its reader acts on, if and only if it is not the request for the version that follows a missed keepalive |
| Protocol.MisreadIffKeepaliveMissed | src/server/node.rs:36-44 | on a socket that has run its course a message was decoded as one of another enum if and only if a keepalive was missed before the server asked for work |
| Protocol.FewMessagesInFlight | src/server/node.rs:54-109 | at most three messages are on their way to the client, at most one to the server, never both ways at once |
| Protocol.BodyTravelsAlone | src/protocol/send_files/sender.rs:318-336 | while a large file's body is in a stream, in either direction, nothing else is in it and nothing is on its way back |
| Protocol.ClientRunsTheServersJob | src/protocol/built.rs:48-106 | a client that runs a job runs the one its server holds, with the set it compiled |
| Protocol.SameStageIffNothingWentWrong | src/protocol/executing.rs:108-152 | with nothing in flight both ends are in the same stage if and only if no result was overridden and no keepalive missed |
| Protocol.BlockedIffOverriddenOrMisread | src/protocol/executing.rs:271-347 | both ends wait with nothing in flight if and only if the client has read `OverrideWithCancellation`, or a request for the version as an instruction |
| Protocol.OverIffOverriddenOrMisread | src/protocol/executing.rs:271-347 | that is for good; otherwise, unless the client has closed the socket over a misread request, something can move |
| Protocol.OverrideDeadlocks | src/protocol/executing.rs:326-345 | the deadlock is reachable: a job that ends by itself just after its set was cancelled |
| Protocol.MissedKeepaliveDeadlocks | src/protocol/built.rs:269-275 | so is the other: a keepalive missed while the client waits for instructions leaves the server waiting for a version and the client for a set to build; a client that has compiled nothing closes the socket |
| ProtocolScripts.TaskTalk | src/client/mod.rs:209-262 | a build, a job with its results, or the way back is carried out by exactly the listed messages in their order, with any files: a refused large file ends with the refusal, a cancelled job has no results |
| ProtocolScripts.SessionGoesThrough | src/client/mod.rs:177-262 | every list of builds, jobs and ways back that fit one another, with any files, goes through from the handshake on and ends with both ends in the same place and nothing in flight |
| NodeProtocol.SendIsNodeMove | src/server/node.rs:54-109 | each message the server sends is some moves of the node task of the cluster |
| NodeProtocol.ReceiveIsNodeMove | src/server/node.rs:112-187 | so is each message it receives |
| NodeProtocol.RunsAreNodeRuns | src/server/node.rs:54-187 | behind every run of the protocol there is a run of the node task, in the same phase at the end, which reported in order exactly the jobs handed over and given up, each in one `FinishJob` |
| NodeProtocol.TurnIsOnTheWire | src/server/node.rs:54-187 | the other direction: whatever a task does or hears is, message by message, a way of the server's end from the state behind the one phase to the state behind the other; an error while it does not wait for the pool starts over |
| NodeProtocol.NodeRunsAreOnTheWire | src/server/node.rs:54-187 | so is any list of turns, as long as the pool answers as it is proved to |
| NodeProtocol.AskingInVainChangesNothing | src/server/node.rs:299-303 | however often a task is given nothing it is where it was, has asked the same every time, and has said nothing to its client |
| Framing.FromToLe | src/transport.rs:329-329 | a 64-bit length survives its eight bytes; `Framing.ToLeAt` fixes their order |
| Framing.ToFromLe | src/transport.rs:385-389 | eight bytes are the length they were read as, so no two byte strings give one length; `Framing.ToLeAt` fixes their order |
| Framing.ToLeAt | src/transport.rs:329-329 | the byte order: the i-th byte has the weight 256 to the i, the lowest first |
| Framing.FrameOnTheWire | src/transport.rs:327-333 | a frame is eight bytes of the length, the lowest first, and behind them the message as it is |
| Framing.UnframeIffFramed | src/transport.rs:306-409 | a stream gives a message and a rest if and only if it is that message framed, followed by that rest, and the message is not empty |
| Framing.EmptyFrameIsRefused | src/transport.rs:467-493 | an empty message can be sent but is taken for a closed connection |
| Framing.ConversationRoundTrip | src/transport.rs:306-409 | any sequence of non-empty messages is read back as it was sent, and not a byte more is taken |
| Framing.ByteStream.Read | src/transport.rs:476-479 | a read takes some of what is there, as much as it likes but not nothing, and at most the room in the buffer; each read of a stream's life is decided anew |
| Framing.ReadBufferBytes | src/transport.rs:468-493 | the buffer is filled with the next bytes of the stream for every way it splits reads, and fails exactly on an empty buffer or too short a stream |
| Framing.Transport | src/transport.rs:306-336 | the stream grows by the frame of the message: the length in eight bytes, the lowest first, and the message |
| Framing.Receive | src/transport.rs:378-409 | whatever the chunks, the result is the first message of the stream, its length read low byte first as `UnframeIffFramed` and `FrameOnTheWire` fix it, and exactly its bytes are gone |
| Framing.TransportFromReader | src/transport.rs:339-375 | for a file of any length, whatever was announced: the announced length goes out in eight bytes, the lowest first; then whether the loop ends, what it has sent and what it has not read |
| Framing.SendingEndsIffLengthHolds | src/transport.rs:339-375 | the loop ends for every way of reading the file if and only if the file is as long as announced, and then it has sent the file |
| Framing.ReceiveToWriter | src/transport.rs:414-463 | what is written, what is left and whether it succeeds, for the chunks the stream gives: always a front of the stream and its rest, of the announced length if it succeeds, and all there was if not |
| Framing.PumpOutcome | src/transport.rs:433-460 | the same of the copying loop, whatever the chunks and the length |
| Framing.StreamingIsExactIffNothingFollows | src/transport.rs:433-460 | wherever the body starts, it is copied exactly for every chunking if and only if it is not empty and nothing follows it in the stream |
| Framing.CopyLargeFile | src/protocol/send_files/sender.rs:318-336 | across a stream that is otherwise empty, as it is in the transfer protocol, every large file arrives as it is |
| FileTransfer.Receiver.SaveFile | src/protocol/send_files/receiver.rs:266-311 | a small file or directory is placed where it belongs, as far as it can be written, or not at all, and is acknowledged either way |
| FileTransfer.Receiver.FileMarker | src/protocol/send_files/receiver.rs:314-345 | a large file is awaited exactly if its file could be created |
| FileTransfer.Receiver.HandleMessage | src/protocol/send_files/receiver.rs:257-393 | one round on the streams: a frame is read, acted on and answered by exactly the frame the source sends, a refused large file once, the end not at all; anything else on the stream is an error |
| FileTransfer.Receiver.HandleBody | src/protocol/send_files/receiver.rs:347-356 | an awaited body is written and acknowledged, and a failed write gives up the connection |
| FileTransfer.SendLarge | src/protocol/send_files/sender.rs:308-345 | announcement, answer, body and acknowledgement leave both streams empty, with the file placed or refused |
| FileTransfer.SendFiles | src/protocol/send_files/sender.rs:277-381 | with every message, answer and body on the streams: the list is delivered in order, whatever is large, refused, unreadable or cut short, the receiver is finished and both streams are empty; it stops early exactly at a large body that could not be written |
| FileTransfer.TransferDelivers | src/protocol/send_files/sender.rs:277-381 | what a transfer leaves is the delivery of the whole list, or of its front up to such a body |
| FileTransfer.TransferEndsIff | src/protocol/send_files/sender.rs:305-336 | the transfer comes to its end exactly if on the way no file of more than 10 to the 9 bytes that could be created was left unfinished by a failed write |
| FileTransfer.DeliveredTree | src/protocol/send_files/receiver.rs:257-393 | whatever goes wrong and whatever was there before, the save location is what it was, overlaid with exactly the entries that arrive: not lost, nothing of another kind in their place, and in a directory that was there or arrives |
| FileTransfer.RebuiltIffParentsFirst | src/protocol/send_files/receiver.rs:266-311 | a list of a tree rebuilds it in a fresh location if and only if each directory comes before what is in it |
| FileTransfer.ArrivesFresh | src/protocol/send_files/receiver.rs:300-309 | in a fresh location what arrives is what is not lost and not below anything lost |
| FileTransfer.FlatDelivery | src/protocol/send_files/receiver.rs:266-297 | of several files with one path the last one stays, and no other path changes |
| FolderWalk.WalkLists | src/client/utils.rs:13-23 | the walk without its root lists every file and folder once, under its relative path |
| FolderWalk.WalkHasParentsFirst | src/client/utils.rs:13-23 | and each folder before what is in it |
| FolderWalk.ResultsAreRebuilt | src/protocol/send_files/sender.rs:37-43 | a result folder sent to a fresh save location is rebuilt with every file's content and nothing else |
| FolderWalk.LossesAreSubtrees | src/protocol/send_files/sender.rs:277-381 | with losses, what is missing is what was lost and everything below it |
| FolderWalk.ResultsOverlay | src/protocol/send_files/receiver.rs:257-393 | results sent into a location with earlier ones overlay them |
| FolderWalk.SendResults | src/protocol/send_files/sender.rs:277-381 | the node's sending loop achieves this over any streams into any save location, unless a large file could not be written |
| HashedFiles.TailsAreDistinct | src/config/apptainer.rs:128-164 | the part of a hashed name behind the hash tells which file of the batch it is |
| HashedFiles.NamesAreDistinct | src/config/apptainer.rs:196-233 | within a batch no two files get one hashed name, even if all hashes are equal |
| HashedFiles.NamesAsWritten | src/config/apptainer.rs:135-204 | the names as they are written, for the image, a file of the initialization and a file of a job |
| HashedFiles.AllFilesAreListed | src/config/apptainer.rs:73-83 | the user sends every file of the batch exactly once: the image, the initialization's files, and each job's, in the order of the batch |
| HashedFiles.NormalizePaths | src/config/apptainer.rs:86-106 | the hashed path of every file is normalized in place, and nothing else of it changes |
| HashedFiles.NormalizedIsStored | src/config/common.rs:143-149 | a normalized relative path is read in the directory the file was received in; below an absolute directory normalizing again changes nothing |
| HashedFiles.HashedNamesHoldTheFiles | src/server/user_conn.rs:86-92 | after the first hop each normalized hashed path holds its file's bytes, and other paths are as before |
| HashedFiles.OtherBatchesDoNotInterfere | src/server/user_conn.rs:124-175 | a batch with other hashed names leaves them alone |
| HashedFiles.SecondHop | src/config/common.rs:194-201 | from the server the files of a job reach a node under their own names with the user's bytes if and only if files of one name have the same bytes |
| HashedFiles.TwoHops | src/config/common.rs:177-215 | both hops together, by hashed path out, normalized path in, and own name on the node |
| HashedFiles.NamesCollide | src/config/common.rs:81-93 | two files of one name and different bytes in one job: the node gets the second one for both |
| Processes.FindAllChildProcs | src/pause/unix.rs:139-158 | the roots, and behind them the picked processes in the order of the list |
| Processes.PickedInListOrder | src/pause/unix.rs:145-158 | the picked processes are in the order of the list and each once: as many as are picked, and each behind those picked before it |
| Processes.PickedDescends | src/pause/unix.rs:139-158 | nothing is picked that does not descend from a root |
| Processes.AllDescendantsPickedIffParentsFirst | src/pause/unix.rs:139-158 | every descendant is picked if and only if parents are listed before children |
| Processes.SortedListIsEnough | src/pause/unix.rs:145-149 | in particular when no process is listed before its own parent |
| Processes.GrandchildListedFirstIsMissed | src/pause/unix.rs:145-149 | a grandchild listed before its parent is left running |
| Durations.SplitIsExact | src/server_status.rs:43-68 | minutes and seconds are below 60 and the parts add up to the duration |
| Durations.ParseTimeInput | src/pause/mod.rs:49-69 | the loop reads what the grammar's reading function reads, in either kind of build |
| Durations.AcceptedIffWellFormed | src/pause/mod.rs:49-96 | with overflow checks a text is accepted as a duration if and only if it is numbers with units that add up to it within 64 bits |
| Durations.ReadRightIffFits | src/pause/mod.rs:49-96 | in either build a well-formed text is read as the duration it denotes if and only if that fits 64 bits |
| Durations.AcceptedIsWellFormed | src/pause/mod.rs:49-96 | and neither build accepts any other text |
| Durations.RefusedIff | src/pause/mod.rs:56-93 | with overflow checks, `BadStringSlice` exactly for numbers with units that fit and then a number without one, `InvalidCharacter` exactly for a character that stands where a unit should |
| Durations.RefusedHere | src/pause/mod.rs:56-93 | and in either build that is what one round makes of such a text |
| Durations.KnownHourAndMinutes | src/pause/mod.rs:171-177 | the text of the source's test, `1h30m`, is 5400 seconds in either build |
| Durations.ConcatenationAdds | src/pause/mod.rs:49-96 | writing one duration behind another adds them |
| Durations.SplitThenParse | src/server_status.rs:43-68 | any 64-bit number of seconds, split and written out without colons, is read back as itself |
| Durations.PaddedWidth | src/server_status.rs:36-36 | each part is shown with two digits, or as many as it needs |
| Durations.ShownExample | src/server_status.rs:36-36 | 3723 seconds are shown as `01h:02m:03s` |
| Durations.ShownIsRefused | src/server_status.rs:36-36 | the form in which the program shows a duration, with colons, is not one the parser takes: it panics |
| Durations.ProductOverflow | src/pause/mod.rs:56-61 | a number whose seconds do not fit stops a build with overflow checks, and is read modulo 2 to the 64 without them |
| Text.DecimalDenotes | src/pause/mod.rs:73-86 | decimal text is read as the number it was written for |
| Text.DecimalIsShortest | src/config/apptainer.rs:146-146 | a number is written without zeros in front |

## Left out

- The tokio runtime, sockets, sleeps, timeouts and real keepalive timing: they are outcomes of events, or the sizes of reads.
- Serialization with bincode: a message is a non-empty byte string in the framing, a tagged value in the protocol, and in `FileTransfer` the output of a codec of which only this is known, that it is read back.
- The keepalive check while a job runs, which ends the job as an error of the node task in `Node` and `Cluster`, is not a step of `Protocol`; the one before the server asks for work is.
- Liveness when connections fail: only safety is stated there. A node task that panics is one that never moves again.
- The loops of src/server/node.rs and src/client/mod.rs as such: `Node` and `Protocol` are the same loops cut at their awaits, as steps of a state machine, because other events come in between.
- Scheduler.GpuPriority.InsertNewBatch: with the 64-bit counter used up the pool stops, as a build with overflow checks does; one without them would go on from identifier 0. `JobSet::from_config` has an error type and no failing path, so it has no failing case here.
- Bounded channels: the pool's queue takes any number of requests. A full broadcast buffer is modelled as the loss of any number of its oldest tokens.
- `mark_build_failure`: nothing in the repository sends `MarkBuildFailure`, and its handler drops sets regardless of running jobs, so it is not part of the wired system.
- The payload of a build (namespace, batch name, initialization): no step reads it.
- Scheduler.GpuPriority.RemainingJobs: how long each running job has been running is left out with the clock.
- `FinishJob` messages carry the whole job so that the books can name it; the pool reads only its name, as in the source.
- After `OverrideWithCancellation` the server's end waits for results while the client waits for a set to build; in the cluster such a node task simply holds its job until an error comes.
- FileTransfer.SendFiles: a large file that vanishes between its metadata and its opening stops the sender with a panic, and one that changes its length in between is covered by `Framing.SendingEndsIffLengthHolds` only.
- HashedFiles.TwoHops: all files of the batch can be read; one that cannot is skipped by the sender, as `FileTransfer.DeliveredTree` says.
- Symbolic links, and directories the walk cannot enter.
- File names with a separator in them: a name or alias is a single path component.
- SHA-1 and hashes of different batches: `filename_hash` is any string of 40 hex digits, so only names within a batch are known to differ. The python batches' hashed names are not modelled.
- Deleting a batch's files from the server after it finished or was cancelled.
- The pull command, SLURM overrides, templates, matrix notifications and command lines: easy, or input and output only.
- Reading `/proc` and sending signals: the process search starts from the lists it is given.
