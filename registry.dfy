/** `JobQueue`: the in-memory job registry (a map from id to job record,
    updated in place) and the admission counter. */
module Registry {
  import opened Text
  import opened Jobs
  import Admission

  class JobQueue {
    var jobs: map<Id, Job>
    var activeWorkers: nat
    const maxConcurrentWorkers: nat

    /** Every record sits under its own id, and the counter never exceeds
        the capacity. */
    ghost predicate Valid()
      reads this
    {
      && maxConcurrentWorkers == Admission.Capacity
      && activeWorkers <= maxConcurrentWorkers
      && forall id :: id in jobs ==> jobs[id].exportId == id
    }

    constructor ()
      ensures Valid()
      ensures jobs == map[] && activeWorkers == 0
    {
      jobs := map[];
      activeWorkers := 0;
      maxConcurrentWorkers := Admission.Capacity;
    }

    /** `createJob`: records a new pending job under a fresh id. The UUID
        generator's promise that the id is new is the precondition. */
    method CreateJob(id: Id, filters: Filters, columns: Option<string>, csvOptions: CsvOptions, now: Time)
      returns (job: Job)
      requires Valid()
      requires id !in jobs
      modifies this
      ensures Valid()
      ensures job.exportId == id && job.filters == filters && job.columns == columns
      ensures job.csvOptions == csvOptions && job.createdAt == now
      ensures job.status == Pending && job.progress == Progress(0, 0)
      ensures job.error == None && job.completedAt == None && !job.cancelled
      ensures jobs == old(jobs)[id := job] && |jobs| == |old(jobs)| + 1
      ensures activeWorkers == old(activeWorkers)
    {
      job := Job(id, filters, columns, csvOptions, Pending, Progress(0, 0), None, now, None, false);
      jobs := jobs[id := job];
    }

    /** `getJob`: the record filed under `id`, if any. */
    function GetJob(id: Id): (r: Option<Job>)
      reads this
      requires Valid()
      ensures r.Some? <==> id in jobs
      ensures r.Some? ==> r.value == jobs[id] && r.value.exportId == id
    {
      if id in jobs then Some(jobs[id]) else None
    }

    /** `removeJob`: forgets the record filed under `id`. */
    method RemoveJob(id: Id)
      requires Valid()
      modifies this
      ensures Valid()
      ensures jobs == old(jobs) - {id} && activeWorkers == old(activeWorkers)
    {
      jobs := jobs - {id};
    }

    /** `setJobStatus`: sets the status, and stamps `completedAt` when the
        new status is terminal; an unknown id changes nothing. */
    method SetJobStatus(id: Id, status: Status, now: Time)
      requires Valid()
      modifies this
      ensures Valid() && activeWorkers == old(activeWorkers)
      ensures id !in old(jobs) ==> jobs == old(jobs)
      ensures id in old(jobs) ==>
        jobs == old(jobs)[id := old(jobs)[id].(
          status := status,
          completedAt := if IsTerminal(status) then Some(now) else old(jobs)[id].completedAt)]
    {
      if id in jobs {
        var job := jobs[id];
        job := job.(status := status);
        if status == Completed || status == Failed || status == Cancelled {
          job := job.(completedAt := Some(now));
        }
        jobs := jobs[id := job];
      }
    }

    /** `setJobProgress`: overwrites both counters; an unknown id changes
        nothing. */
    method SetJobProgress(id: Id, processedRows: nat, totalRows: nat)
      requires Valid()
      modifies this
      ensures Valid() && activeWorkers == old(activeWorkers)
      ensures id !in old(jobs) ==> jobs == old(jobs)
      ensures id in old(jobs) ==>
        jobs == old(jobs)[id := old(jobs)[id].(progress := Progress(totalRows, processedRows))]
    {
      if id in jobs {
        jobs := jobs[id := jobs[id].(progress := Progress(totalRows, processedRows))];
      }
    }

    /** `setJobError`: records the message, fails the job and stamps
        `completedAt` in one step; an unknown id changes nothing. */
    method SetJobError(id: Id, error: string, now: Time)
      requires Valid()
      modifies this
      ensures Valid() && activeWorkers == old(activeWorkers)
      ensures id !in old(jobs) ==> jobs == old(jobs)
      ensures id in old(jobs) ==>
        jobs == old(jobs)[id := old(jobs)[id].(error := Some(error), status := Failed, completedAt := Some(now))]
    {
      if id in jobs {
        jobs := jobs[id := jobs[id].(error := Some(error), status := Failed, completedAt := Some(now))];
      }
    }

    /** `cancelJob`: raises the cooperative cancellation flag and nothing
        else; an unknown id changes nothing. */
    method CancelJob(id: Id)
      requires Valid()
      modifies this
      ensures Valid() && activeWorkers == old(activeWorkers)
      ensures id !in old(jobs) ==> jobs == old(jobs)
      ensures id in old(jobs) ==> jobs == old(jobs)[id := old(jobs)[id].(cancelled := true)]
    {
      if id in jobs {
        jobs := jobs[id := jobs[id].(cancelled := true)];
      }
    }

    /** One step of `enqueueJob`: takes a slot when one is free; otherwise
        the job is still waiting and nothing changes. */
    method EnqueueJob() returns (admitted: bool)
      requires Valid()
      modifies this
      ensures Valid() && jobs == old(jobs)
      ensures admitted == Admission.CanStart(old(activeWorkers))
      ensures activeWorkers == Admission.Step(old(activeWorkers), Admission.Enqueue)
    {
      admitted := activeWorkers < maxConcurrentWorkers;
      if admitted {
        activeWorkers := activeWorkers + 1;
      }
    }

    /** `dequeueJob`: gives a slot back, saturating at zero. */
    method DequeueJob()
      requires Valid()
      modifies this
      ensures Valid() && jobs == old(jobs)
      ensures activeWorkers == Admission.Step(old(activeWorkers), Admission.Dequeue)
    {
      activeWorkers := if activeWorkers - 1 < 0 then 0 else activeWorkers - 1;
    }
  }
}
