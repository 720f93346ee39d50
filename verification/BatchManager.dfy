/** The batch manager as the object it is: tables and semaphores updated in place. */
module BatchManager {
  import opened Wrappers
  import opened BatchJobs

  class BatchJobManager {
    var jobs: seq<Job>               // the batch_jobs table
    var items: seq<Item>             // the batch_job_items table and its tasks
    var permits: map<HostId, nat>    // host_semaphores; a missing host has all its permits
    var active: set<JobId>           // active_jobs

    ghost function Now(): State
      reads this
    {
      State(jobs, items, permits, active)
    }

    ghost predicate Valid()
      reads this
    {
      Inv(Now())
    }

    constructor ()
      ensures Now() == Init() && Valid()
    {
      jobs, items, permits, active := [], [], map[], {};
      new;
      Reachable([]);
    }

    /** create_job: total_items counts every requested id, rows exist only for those found. */
    method CreateJob(requested: seq<Option<HostId>>) returns (j: JobId)
      requires Valid()
      modifies this
      ensures j == |old(jobs)|
      ensures Now() == ApplyCreate(old(Now()), requested)
      ensures Valid()
    {
      CreateKeepsInv(Now(), requested);
      j := |jobs|;
      jobs := jobs + [Job(|requested|, 0, 0, 0, 0, JobQueued, Created)];
      var added := [];
      for k := 0 to |requested|
        invariant added == NewItems(j, requested[..k])
        invariant jobs == old(jobs) + [Job(|requested|, 0, 0, 0, 0, JobQueued, Created)]
        invariant items == old(items) && permits == old(permits) && active == old(active)
      {
        assert requested[..k + 1][..k] == requested[..k];
        match requested[k] {
          case None =>
            assert added + [] == added;
          case Some(h) =>
            added := added + [NewItem(j, h)];
        }
      }
      assert requested[..|requested|] == requested;
      items := items + added;
      active := active + {j};
    }

    /** Resumes the task of _process_job until its next await; ok says whether the block it
        runs or the broadcast it awaits succeeds. */
    method ProcessJob(j: JobId, ok: bool)
      requires Valid() && Enabled(Now(), JobStep(j, ok))
      modifies this
      ensures Now() == ApplyJob(old(Now()), j, ok)
      ensures Valid()
    {
      JobKeepsInv(Now(), j, ok);
      var job := jobs[j];
      match job.pc {
        case Created =>
          if ok {
            job := job.(status := JobRunning, pc := AnnouncingStart);
          } else {
            job := job.(pc := Crashing);
          }
        case AnnouncingStart =>
          job := job.(pc := if ok then Spawning else Crashing);
        case Spawning =>
          SpawnItems(j);
          job := job.(pc := Gathering);
        case Gathering =>
          if !ok {
            job := job.(pc := Crashing);
          } else {
            if job.error > 0 && job.success > 0 {
              job := job.(status := Partial);
            } else if job.error > 0 {
              job := job.(status := Failed);
            } else {
              job := job.(status := Completed);
            }
            job := job.(pc := AnnouncingEnd);
          }
        case AnnouncingEnd =>
          job := job.(pc := if ok then CleaningUp else Crashing);
        case Crashing =>
          if ok {
            job := job.(status := Failed);
          }
          job := job.(pc := CleaningUp);
        case CleaningUp =>
          active := active - {j};
          job := job.(pc := Done);
        case Done =>
      }
      jobs := jobs[j := job];
    }

    /** The task-spawning loop: one task per queued item of the job. */
    method SpawnItems(j: JobId)
      modifies this`items
      ensures items == Spawn(old(items), j)
    {
      for i := 0 to |items|
        invariant |items| == |old(items)|
        invariant forall k | 0 <= k < |items| ::
                    items[k] == if k < i then SpawnItem(old(items)[k], j) else old(items)[k]
      {
        if items[i].job == j && items[i].pc.Unspawned? && items[i].status == Queued {
          items := items[i := items[i].(pc := Waiting)];
        }
      }
    }

    /** Resumes the task of _process_item until its next await. */
    method ProcessItem(i: ItemId, ok: bool, outcome: Outcome)
      requires Valid() && Enabled(Now(), ItemStep(i, ok, outcome))
      modifies this
      ensures Now() == ApplyItem(old(Now()), i, ok, outcome)
      ensures Valid()
    {
      ItemKeepsInv(Now(), i, ok, outcome);
      var it := items[i];
      var j := it.job;
      match it.pc {
        case Waiting =>
          permits := permits[it.host := Available(permits, it.host) - 1];
          it := it.(pc := Starting);
        case Starting =>
          it := if ok then it.(status := Running, pc := Announcing) else it.(pc := Failing);
        case Announcing =>
          it := it.(pc := if ok then Loading else Failing);
        case Loading =>
          it := it.(pc := if ok then Executing else Failing);
        case Executing =>
          it := it.(pc := Committing(outcome));
        case Committing(result) =>
          if ok {
            it := it.(status := Finished(result), first := Some(result), pc := Reporting);
            var job := jobs[j];
            job := job.(completed := job.completed + 1);
            if result == Success {
              job := job.(success := job.success + 1);
            } else if result == Error {
              job := job.(error := job.error + 1);
            } else if result == Skipped {
              job := job.(skipped := job.skipped + 1);
            }
            jobs := jobs[j := job];
          } else {
            it := it.(pc := Failing);
          }
        case Reporting =>
          it := it.(pc := if ok then Releasing else Failing);
        case Failing =>
          if ok {
            it := it.(rewritten := it.first.Some?, first := if it.first.Some? then it.first else Some(Error),
                      status := Finished(Error), pc := ReportingFailure);
            var job := jobs[j];
            jobs := jobs[j := job.(completed := job.completed + 1, error := job.error + 1)];
          } else {
            it := it.(pc := Releasing);
          }
        case ReportingFailure =>
          it := it.(pc := Releasing);
        case Releasing =>
          permits := permits[it.host := Available(permits, it.host) + 1];
          it := it.(pc := Ended);
        case _ =>
      }
      items := items[i := it];
    }
  }
}
