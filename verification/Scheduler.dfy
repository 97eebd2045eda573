/**
 The scheduler as the source writes it: an object that updates its map of job sets in place.
 Every method is proved to do what the function of the same name in `Schedule` says.
 */
module Scheduler {
  import opened Types
  import Schedule

  /** Removing by name passes over a front without that name. */
  lemma {:induction false} RemoveFirstPasses(a: seq<RunningJob>, b: seq<RunningJob>, name: string)
    requires forall k :: 0 <= k < |a| ==> a[k].jobName != name
    ensures Schedule.RemoveFirst(a + b, name) == a + Schedule.RemoveFirst(b, name)
  {
    var rest := Schedule.RemoveFirst(b, name);
    if a == [] {
      assert a + b == b && a + rest == rest;
    } else {
      RemoveFirstPasses(a[1..], b, name);
      assert (a + b)[0] == a[0] && (a + b)[1..] == a[1..] + b;
      assert [a[0]] + (a[1..] + rest) == a + rest;
    }
  }

  lemma RemoveFirstAt(running: seq<RunningJob>, name: string, idx: nat)
    requires idx <= |running| && forall k :: 0 <= k < idx ==> running[k].jobName != name
    requires idx < |running| ==> running[idx].jobName == name
    ensures Schedule.RemoveFirst(running, name)
         == running[..idx] + if idx < |running| then running[idx + 1..] else []
  {
    assert running == running[..idx] + running[idx..];
    RemoveFirstPasses(running[..idx], running[idx..], name);
    if idx < |running| {
      assert running[idx..][0] == running[idx] && running[idx..][1..] == running[idx + 1..];
    } else {
      assert running[idx..] == [];
    }
  }

  /** Take the first running job with this name out of the list, if there is one. */
  method RemoveRunningJobByName(running: seq<RunningJob>, name: string) returns (r: seq<RunningJob>)
    ensures r == Schedule.RemoveFirst(running, name)
  {
    var idx := 0;
    while idx < |running| && running[idx].jobName != name
      invariant idx <= |running| && forall k :: 0 <= k < idx ==> running[k].jobName != name
    {
      idx := idx + 1;
    }
    RemoveFirstAt(running, name, idx);
    r := running[..idx] + if idx < |running| then running[idx + 1..] else [];
  }

  /** Which files a job has on disk, in the order they are deleted in, and which of them can be deleted. */
  datatype Disk = Disk(filesOf: Job -> seq<string>, deletes: string -> bool)

  function FilesOf(jobs: seq<Job>, disk: Disk): seq<string> {
    if jobs == [] then [] else disk.filesOf(jobs[0]) + FilesOf(jobs[1..], disk)
  }

  lemma {:induction false} FilesConcat(a: seq<Job>, b: seq<Job>, disk: Disk)
    ensures FilesOf(a + b, disk) == FilesOf(a, disk) + FilesOf(b, disk)
  {
    if a == [] {
      assert a + b == b;
    } else {
      FilesConcat(a[1..], b, disk);
      assert (a + b)[0] == a[0] && (a + b)[1..] == a[1..] + b;
      var head, rest := disk.filesOf(a[0]), FilesOf(a[1..], disk);
      assert head + (rest + FilesOf(b, disk)) == head + rest + FilesOf(b, disk);
    }
  }

  /** The files that are gone are all of them, or those in front of the first that cannot be deleted. */
  ghost predicate DeletedUpToFailure(files: seq<string>, deleted: seq<string>, disk: Disk, ok: bool) {
    && deleted <= files && (forall f <- deleted :: disk.deletes(f))
    && (if ok then deleted == files else |deleted| < |files| && !disk.deletes(files[|deleted|]))
  }

  /** The files of one job, one by one, until a deletion fails. */
  method DeleteFiles(files: seq<string>, disk: Disk) returns (deleted: seq<string>, ok: bool)
    ensures DeletedUpToFailure(files, deleted, disk, ok)
  {
    deleted, ok := [], true;
    while |deleted| < |files|
      invariant deleted <= files && forall f <- deleted :: disk.deletes(f)
    {
      if !disk.deletes(files[|deleted|]) {
        return deleted, false;
      }
      deleted := deleted + [files[|deleted|]];
    }
  }

  /**
   Drain the remaining jobs from the front and delete the files of each.  The first deletion that
   fails ends the loop, and the rest of the range is then dropped with its files left on disk.
   */
  method ClearRemainingJobs(js: JobSet, disk: Disk) returns (r: JobSet, deleted: seq<string>, ok: bool)
    ensures r.remaining == [] && r == js.(remaining := r.remaining)
    ensures DeletedUpToFailure(FilesOf(js.remaining, disk), deleted, disk, ok)
  {
    r, deleted, ok := js, [], true;
    ghost var drained: seq<Job> := [];
    while r.remaining != [] && ok
      invariant r == js.(remaining := r.remaining) && js.remaining == drained + r.remaining
      invariant DeletedUpToFailure(FilesOf(drained, disk), deleted, disk, ok)
      decreases |r.remaining|
    {
      var job := r.remaining[0];
      r := r.(remaining := r.remaining[1..]);
      var gone, all := DeleteFiles(disk.filesOf(job), disk);
      OneMoreJob(drained, job, deleted, gone, disk, all);
      drained := drained + [job];
      deleted, ok := deleted + gone, all;
    }
    assert r.remaining == [] ==> drained + r.remaining == drained;
    FilesConcat(drained, r.remaining, disk);
    r := r.(remaining := []);
  }

  lemma OneMoreJob(drained: seq<Job>, job: Job, deleted: seq<string>, gone: seq<string>, disk: Disk, all: bool)
    requires DeletedUpToFailure(FilesOf(drained, disk), deleted, disk, true)
    requires DeletedUpToFailure(disk.filesOf(job), gone, disk, all)
    ensures DeletedUpToFailure(FilesOf(drained + [job], disk), deleted + gone, disk, all)
  {
    FilesConcat(drained, [job], disk);
    assert [job][1..] == [] && FilesOf([job], disk) == disk.filesOf(job) + [];
    assert disk.filesOf(job) + [] == disk.filesOf(job);
  }

  class GpuPriority {
    var sets: map<JobSetIdentifier, JobSet>
    var lastIdentifier: nat

    ghost function State(): Schedule.Sched
      reads this
    {
      Schedule.Sched(sets, lastIdentifier)
    }

    ghost predicate Valid()
      reads this
    {
      State().Valid() && lastIdentifier <= U64_MAX
    }

    constructor ()
      ensures Valid() && State() == Schedule.Sched(map[], 0)
    {
      sets, lastIdentifier := map[], 0;
    }

    /** Walk the map in key order and stop at the first set that passes the filters. */
    method FirstEligible(gpuOnly: bool, caps: set<string>, failures: set<JobSetIdentifier>)
      returns (found: Option<JobSetIdentifier>)
      requires Valid()
      ensures found.None? <==> Schedule.EligibleIds(State(), gpuOnly, caps, failures) == {}
      ensures found.Some? ==> Schedule.IsLeast(found.value, Schedule.EligibleIds(State(), gpuOnly, caps, failures))
    {
      ghost var ids := Schedule.EligibleIds(State(), gpuOnly, caps, failures);
      var n := 1;
      while n <= lastIdentifier
        invariant n >= 1
        invariant forall id <- ids :: id.number >= n
      {
        var id := Identity(n);
        if id in sets {
          var js := sets[id];
          if (gpuOnly ==> GPU in js.requirements) && js.remaining != [] && js.requirements <= caps && id !in failures {
            assert id in ids;
            return Some(id);
          }
        }
        assert id !in ids;
        n := n + 1;
      }
      return None;
    }

    /** Only ever an order to compile, or nothing. */
    method TakeFirstJob(caps: set<string>, failures: set<JobSetIdentifier>) returns (r: JobResponse)
      requires Valid()
      ensures var all := Schedule.EligibleIds(State(), false, caps, failures);
              r == if all == {} then EmptyJobs else Build(Schedule.Least(all))
    {
      var first := FirstEligible(false, caps, failures);
      match first
      case None => r := EmptyJobs;
      case Some(id) =>
        Schedule.LeastIsUnique(id, Schedule.EligibleIds(State(), false, caps, failures));
        r := Build(id);
    }

    /** Pop the last remaining job of a set that has one and note it as running. */
    method NextJob(id: JobSetIdentifier, node: nat) returns (job: Job)
      requires Valid() && id in sets && sets[id].remaining != []
      modifies this
      ensures Valid() && (State(), Run(id, job)) == Schedule.RunNext(old(State()), id, node)
      ensures Schedule.HandsOut(old(State()), State(), id, job, node)
    {
      Schedule.RunNextHandsOut(State(), id, node);
      var js := sets[id];
      job := js.remaining[|js.remaining| - 1];
      js := js.(remaining := js.remaining[..|js.remaining| - 1]);
      js := js.(running := js.running + [RunningJob(job.name, node)]);
      sets := sets[id := js];
    }

    method JobById(id: JobSetIdentifier, failures: set<JobSetIdentifier>, node: nat) returns (r: Option<JobResponse>)
      requires Valid()
      modifies this
      ensures Valid()
      ensures if id !in failures && id in old(sets) && old(sets)[id].remaining != []
              then r.Some? && (State(), r.value) == Schedule.RunNext(old(State()), id, node)
              else r.None? && State() == old(State())
      ensures r.Some? ==> r.value.Run? && Schedule.HandsOut(old(State()), State(), id, r.value.job, node)
    {
      if id in failures {
        return None;
      }
      if id in sets && sets[id].remaining != [] {
        var job := NextJob(id, node);
        return Some(Run(id, job));
      }
      return None;
    }

    method FetchNewTask(current: JobSetIdentifier, caps: set<string>, failures: set<JobSetIdentifier>, node: nat)
      returns (r: JobResponse)
      requires Valid()
      modifies this
      ensures Valid()
      ensures (State(), r) == Schedule.FetchNewTask(old(State()), current, caps, failures, node)
      ensures if r.Run? then r.ident == current && Schedule.HandsOut(old(State()), State(), current, r.job, node)
              else State() == old(State())
    {
      ghost var gpuIds := Schedule.EligibleIds(State(), true, caps, failures);
      var gpu := FirstEligible(true, caps, failures);
      if gpu.Some? {
        Schedule.LeastIsUnique(gpu.value, gpuIds);
        if current == gpu.value {
          var job := NextJob(current, node);
          r := Run(current, job);
        } else {
          r := Build(gpu.value);
        }
      } else {
        var mine := JobById(current, failures, node);
        if mine.Some? {
          r := mine.value;
        } else {
          r := TakeFirstJob(caps, failures);
        }
      }
    }

    /** The identifier counter is a 64-bit word: the addition that would overflow it stops the caller. */
    method InsertNewBatch(jobs: Jobs) returns (ok: bool)
      requires Valid()
      modifies this
      ensures Valid() && (ok <==> old(lastIdentifier) < U64_MAX)
      ensures State() == if ok then Schedule.InsertNewBatch(old(State()), jobs) else old(State())
      ensures ok ==> Identity(lastIdentifier) !in old(sets) && lastIdentifier == old(lastIdentifier) + 1
      ensures ok ==>
        sets == old(sets)[Identity(lastIdentifier) := JobSet(jobs.batchName, jobs.capabilities, jobs.jobs, [])]
    {
      if lastIdentifier == U64_MAX {
        return false;
      }
      lastIdentifier := lastIdentifier + 1;
      sets := sets[Identity(lastIdentifier) := JobSet(jobs.batchName, jobs.capabilities, jobs.jobs, [])];
      return true;
    }

    /** One entry for each set, in key order. */
    method RemainingJobs() returns (r: seq<Schedule.RemainingJobs>)
      requires Valid()
      ensures r == Schedule.Described(State(), lastIdentifier)
      ensures Schedule.TellsAll(r, State())
    {
      r := [];
      for n := 1 to lastIdentifier + 1
        invariant r == Schedule.Described(State(), n - 1)
      {
        if Identity(n) in sets {
          r := r + [Schedule.Describe(sets[Identity(n)])];
        }
      }
      Schedule.DescribedInOrder(State());
    }

    method AddJobBack(job: Job, id: JobSetIdentifier)
      requires Valid()
      modifies this
      ensures Valid() && State() == Schedule.AddJobBack(old(State()), job, id)
      ensures id in old(sets) ==>
        && id in sets && sets[id].remaining == old(sets)[id].remaining + [job]
        && sets[id].running == Schedule.RemoveFirst(old(sets)[id].running, job.name)
    {
      if id in sets {
        var running := RemoveRunningJobByName(sets[id].running, job.name);
        var js := sets[id].(running := running);
        sets := sets[id := js.(remaining := js.remaining + [job])];
      }
    }

    method FinishJob(id: JobSetIdentifier, name: string)
      requires Valid()
      modifies this
      ensures Valid() && State() == Schedule.FinishJob(old(State()), id, name)
      ensures id in old(sets) ==>
        var running := Schedule.RemoveFirst(old(sets)[id].running, name);
        && (id !in sets <==> old(sets)[id].remaining == [] && running == [])
        && (id in sets ==> sets[id] == old(sets)[id].(running := running))
    {
      if id in sets {
        var running := RemoveRunningJobByName(sets[id].running, name);
        ghost var before := sets;
        sets := sets[id := sets[id].(running := running)];
        if sets[id].remaining == [] && sets[id].running == [] {
          sets := sets - {id};
          assert sets == before - {id};
        }
      }
    }

    method CancelBatch(id: JobSetIdentifier, disk: Disk)
      requires Valid()
      modifies this
      ensures Valid() && State() == Schedule.CancelBatch(old(State()), id)
      ensures id in old(sets) ==> id in sets && sets[id] == old(sets)[id].(remaining := [])
    {
      if id in sets {
        var js, deleted, ok := ClearRemainingJobs(sets[id], disk);
        sets := sets[id := js];
      }
    }

    /** The first set in key order with this batch name. */
    method IdentifierByName(name: string) returns (found: Option<JobSetIdentifier>)
      requires Valid()
      ensures found == Schedule.IdentifierByName(State(), name)
    {
      ghost var ids := Schedule.IdsNamed(State(), name);
      var n := 1;
      while n <= lastIdentifier
        invariant n >= 1
        invariant forall id <- ids :: id.number >= n
      {
        var id := Identity(n);
        if id in sets && sets[id].batchName == name {
          Schedule.LeastIsUnique(id, ids);
          return Some(id);
        }
        assert id !in ids;
        n := n + 1;
      }
      return None;
    }
  }
}
