/** Values shared by the scheduler, the job pool and the node tasks. */
module Types {
  datatype Option<+T> = None | Some(value: T)

  const U64_MAX: nat := 0xFFFF_FFFF_FFFF_FFFF

  /** The capability that puts a job set ahead of the others. */
  const GPU := "gpu"

  /** Identifies a submitted job set; `NoSet` is what a node reports before it has compiled anything. */
  datatype JobSetIdentifier = Identity(number: nat) | NoSet

  /** The derived order: identities by number, and every identity before `NoSet`. */
  predicate Before(a: JobSetIdentifier, b: JobSetIdentifier) {
    a.Identity? && (b.NoSet? || a.number < b.number)
  }

  /** A job is popped, shipped to a node and pushed back as a whole; `input` stands for its files. */
  datatype Job = Job(name: string, input: int)

  /** The scheduler remembers a running job only by its name and its node. */
  datatype RunningJob = RunningJob(jobName: string, node: nat)

  datatype JobSet = JobSet(
    batchName: string,
    requirements: set<string>,
    remaining: seq<Job>,
    running: seq<RunningJob>)

  /** What a user submits. */
  datatype Jobs = Jobs(batchName: string, capabilities: set<string>, jobs: seq<Job>)

  /** How a run of a job ended, as the node reports it. */
  datatype RunReport = Cancelled | Successful | Failed

  /** The scheduler's answer to a node: compile this set, run this job, or nothing to do. */
  datatype JobResponse = EmptyJobs | Build(ident: JobSetIdentifier) | Run(ident: JobSetIdentifier, job: Job)
}
