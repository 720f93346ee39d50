/**
  What in a schedule brings the batch engine to miscount, to strand items or to end in a wrong
  status: each fault of the final state is traced to the steps that cause it, exactly.
*/
module BatchCauses {
  import opened Wrappers
  import opened BatchJobs
  import opened BatchResults

  // ---------------------------------------------------------------- what happened

  /** The n-th step was taken, and was the step of item i at pc. */
  ghost predicate ItemStepAt(schedule: seq<Action>, n: nat, i: ItemId, pc: ItemPc, ok: bool)
    requires n < |schedule|
  {
    var s, a := Exec(Init(), schedule[..n]), schedule[n];
    a.ItemStep? && a.item == i && a.ok == ok && Enabled(s, a) && s.items[i].pc == pc
  }

  ghost predicate JobStepAt(schedule: seq<Action>, n: nat, j: JobId, pc: JobPc, ok: bool)
    requires n < |schedule|
  {
    var s, a := Exec(Init(), schedule[..n]), schedule[n];
    a.JobStep? && a.job == j && a.ok == ok && Enabled(s, a) && s.jobs[j].pc == pc
  }

  ghost predicate ItemDid(schedule: seq<Action>, i: ItemId, pc: ItemPc, ok: bool) {
    exists n | 0 <= n < |schedule| :: ItemStepAt(schedule, n, i, pc, ok)
  }

  ghost predicate JobDid(schedule: seq<Action>, j: JobId, pc: JobPc, ok: bool) {
    exists n | 0 <= n < |schedule| :: JobStepAt(schedule, n, j, pc, ok)
  }

  lemma ItemDidNext(schedule: seq<Action>, i: ItemId, pc: ItemPc, ok: bool)
    requires schedule != []
    ensures var last := |schedule| - 1;
            ItemDid(schedule, i, pc, ok) <==>
            ItemDid(schedule[..last], i, pc, ok) || ItemStepAt(schedule, last, i, pc, ok)
  {
    var last := |schedule| - 1;
    forall n | 0 <= n < last ensures ItemStepAt(schedule[..last], n, i, pc, ok) <==> ItemStepAt(schedule, n, i, pc, ok) {
      assert schedule[..last][..n] == schedule[..n];
    }
  }

  lemma JobDidNext(schedule: seq<Action>, j: JobId, pc: JobPc, ok: bool)
    requires schedule != []
    ensures var last := |schedule| - 1;
            JobDid(schedule, j, pc, ok) <==>
            JobDid(schedule[..last], j, pc, ok) || JobStepAt(schedule, last, j, pc, ok)
  {
    var last := |schedule| - 1;
    forall n | 0 <= n < last ensures JobStepAt(schedule[..last], n, j, pc, ok) <==> JobStepAt(schedule, n, j, pc, ok) {
      assert schedule[..last][..n] == schedule[..n];
    }
  }

  // ---------------------------------------------------------------- miscounting

  /** The broadcast of the item's committed result raised. */
  ghost predicate BroadcastRaised(schedule: seq<Action>, i: ItemId) {
    ItemDid(schedule, i, Reporting, false)
  }

  /** The except branch committed for the item. */
  ghost predicate ErrorRecorded(schedule: seq<Action>, i: ItemId) {
    ItemDid(schedule, i, Failing, true)
  }

  /** What the row of an item says about its past. */
  ghost predicate PastOk(it: Item, raised: bool, recorded: bool) {
    && (it.rewritten <==> raised && recorded)
    && (raised ==> it.first.Some? && PcWork(it.pc) < PcWork(Reporting))
    && (recorded ==> PcWork(it.pc) < PcWork(Failing))
    && (it.pc.Failing? && it.first.Some? ==> raised)
  }

  lemma PastNext(it: Item, raised: bool, recorded: bool, ok: bool, outcome: Outcome)
    requires ItemOk(it) && PastOk(it, raised, recorded) && !it.pc.Unspawned? && !it.pc.Ended?
    ensures PastOk(Advance(it, ok, outcome), raised || (it.pc.Reporting? && !ok), recorded || (it.pc.Failing? && ok))
  {
  }

  lemma {:induction false} NothingYet(schedule: seq<Action>, i: ItemId, pc: ItemPc, ok: bool)
    requires i >= |Exec(Init(), schedule).items|
    ensures !ItemDid(schedule, i, pc, ok)
  {
    if schedule != [] {
      var last := |schedule| - 1;
      var before, a := Exec(Init(), schedule[..last]), schedule[last];
      assert |before.items| <= |Exec(Init(), schedule).items|;
      NothingYet(schedule[..last], i, pc, ok);
      ItemDidNext(schedule, i, pc, ok);
    }
  }

  /** A step of another task at most spawns the item. */
  lemma OtherItemKept(s: State, a: Action, i: ItemId)
    requires Enabled(s, a) && i < |s.items| && !(a.ItemStep? && a.item == i)
    ensures i < |Apply(s, a).items|
    ensures Apply(s, a).items[i] == s.items[i] ||
            (s.items[i].pc.Unspawned? && Apply(s, a).items[i] == s.items[i].(pc := Waiting))
  {
  }

  lemma NewItemIsFresh(s: State, a: Action, i: ItemId)
    requires Enabled(s, a) && |s.items| <= i < |Apply(s, a).items|
    ensures PastOk(Apply(s, a).items[i], false, false) && ResultOk(Apply(s, a).items[i], false, false, false)
  {
    NewItemsFresh(|s.jobs|, a.requested);
    assert Apply(s, a).items[i] == NewItems(|s.jobs|, a.requested)[i - |s.items|];
  }

  lemma {:induction false} PastRemembered(schedule: seq<Action>, i: ItemId)
    requires i < |Exec(Init(), schedule).items|
    ensures PastOk(Exec(Init(), schedule).items[i], BroadcastRaised(schedule, i), ErrorRecorded(schedule, i))
  {
    if schedule != [] {
      var last := |schedule| - 1;
      var s, a := Exec(Init(), schedule[..last]), schedule[last];
      Reachable(schedule[..last]);
      ItemDidNext(schedule, i, Reporting, false);
      ItemDidNext(schedule, i, Failing, true);
      if i < |s.items| {
        PastRemembered(schedule[..last], i);
        var it := s.items[i];
        assert ItemOk(it);
        if a.ItemStep? && a.item == i && Enabled(s, a) {
          PastNext(it, BroadcastRaised(schedule[..last], i), ErrorRecorded(schedule[..last], i), a.ok, a.outcome);
        } else if Enabled(s, a) {
          OtherItemKept(s, a, i);
        }
      } else {
        NothingYet(schedule[..last], i, Reporting, false);
        NothingYet(schedule[..last], i, Failing, true);
        NewItemIsFresh(s, a, i);
      }
    }
  }

  /** A committed result is overwritten exactly when its broadcast raises and the except
      branch then commits. */
  lemma OverwrittenIff(schedule: seq<Action>, i: ItemId)
    requires i < |Exec(Init(), schedule).items|
    ensures Exec(Init(), schedule).items[i].rewritten <==>
            BroadcastRaised(schedule, i) && ErrorRecorded(schedule, i)
  {
    PastRemembered(schedule, i);
  }

  /** An outcome was committed for the item. */
  ghost predicate OutcomeCommitted(schedule: seq<Action>, i: ItemId) {
    exists o :: ItemDid(schedule, i, Committing(o), true)
  }

  /** The block that records the item's error failed. */
  ghost predicate ErrorLost(schedule: seq<Action>, i: ItemId) {
    ItemDid(schedule, i, Failing, false)
  }

  /** What the row says about where its result came from. */
  ghost predicate ResultOk(it: Item, committed: bool, recorded: bool, lost: bool) {
    && (it.first.Some? <==> committed || recorded)
    && (recorded || lost ==> PcWork(it.pc) < PcWork(Failing))
    && !(recorded && lost)
    && (it.first.None? && PcWork(it.pc) < PcWork(Failing) ==> lost)
  }

  lemma ResultNext(it: Item, committed: bool, recorded: bool, lost: bool, ok: bool, outcome: Outcome)
    requires ItemOk(it) && ResultOk(it, committed, recorded, lost) && !it.pc.Unspawned? && !it.pc.Ended?
    ensures ResultOk(Advance(it, ok, outcome), committed || (it.pc.Committing? && ok),
                     recorded || (it.pc.Failing? && ok), lost || (it.pc.Failing? && !ok))
  {
  }

  lemma CommittedNext(schedule: seq<Action>, i: ItemId)
    requires schedule != []
    ensures var last := |schedule| - 1;
            var s, a := Exec(Init(), schedule[..last]), schedule[last];
            OutcomeCommitted(schedule, i) <==>
            OutcomeCommitted(schedule[..last], i) ||
            (a.ItemStep? && a.item == i && a.ok && Enabled(s, a) && s.items[i].pc.Committing?)
  {
    var last := |schedule| - 1;
    var s, a := Exec(Init(), schedule[..last]), schedule[last];
    forall o ensures ItemDid(schedule, i, Committing(o), true) <==>
                     ItemDid(schedule[..last], i, Committing(o), true) ||
                     ItemStepAt(schedule, last, i, Committing(o), true) {
      ItemDidNext(schedule, i, Committing(o), true);
    }
    if a.ItemStep? && a.item == i && a.ok && Enabled(s, a) && s.items[i].pc.Committing? {
      assert ItemStepAt(schedule, last, i, Committing(s.items[i].pc.result), true);
    }
  }

  lemma {:induction false} ResultRemembered(schedule: seq<Action>, i: ItemId)
    requires i < |Exec(Init(), schedule).items|
    ensures ResultOk(Exec(Init(), schedule).items[i], OutcomeCommitted(schedule, i), ErrorRecorded(schedule, i),
                     ErrorLost(schedule, i))
  {
    if schedule != [] {
      var last := |schedule| - 1;
      var s, a := Exec(Init(), schedule[..last]), schedule[last];
      Reachable(schedule[..last]);
      CommittedNext(schedule, i);
      ItemDidNext(schedule, i, Failing, true);
      ItemDidNext(schedule, i, Failing, false);
      if i < |s.items| {
        ResultRemembered(schedule[..last], i);
        if a.ItemStep? && a.item == i && Enabled(s, a) {
          assert ItemOk(s.items[i]);
          ResultNext(s.items[i], OutcomeCommitted(schedule[..last], i), ErrorRecorded(schedule[..last], i),
                     ErrorLost(schedule[..last], i), a.ok, a.outcome);
        } else if Enabled(s, a) {
          OtherItemKept(s, a, i);
        }
      } else {
        NoResultYet(schedule[..last], i);
        NewItemIsFresh(s, a, i);
      }
    }
  }

  lemma NoResultYet(schedule: seq<Action>, i: ItemId)
    requires i >= |Exec(Init(), schedule).items|
    ensures !OutcomeCommitted(schedule, i) && !ErrorRecorded(schedule, i) && !ErrorLost(schedule, i)
  {
    forall o ensures !ItemDid(schedule, i, Committing(o), true) {
      NothingYet(schedule, i, Committing(o), true);
    }
    NothingYet(schedule, i, Failing, true);
    NothingYet(schedule, i, Failing, false);
  }

  /** An item that has ended is without a result exactly if no outcome of it was committed and
      the block that records its error failed. */
  lemma NoResultIff(schedule: seq<Action>, i: ItemId)
    requires i < |Exec(Init(), schedule).items| && Exec(Init(), schedule).items[i].pc.Ended?
    ensures !Exec(Init(), schedule).items[i].status.Finished? <==>
            ErrorLost(schedule, i) && !OutcomeCommitted(schedule, i)
  {
    Reachable(schedule);
    ResultRemembered(schedule, i);
    assert ItemOk(Exec(Init(), schedule).items[i]);
  }

  ghost predicate CountersAgree(s: State, j: JobId, visible: set<HostId>)
    requires j < |s.jobs|
  {
    var job, shown := s.jobs[j], Recount(s.items, j, visible);
    && job.completed == shown.completed && job.success == shown.success
    && job.error == shown.error && job.skipped == shown.skipped
  }

  lemma NoneRewritten(s: State, j: JobId, o: Outcome)
    requires forall i | 0 <= i < |s.items| && s.items[i].job == j :: !s.items[i].rewritten
    ensures Tally(Rewritten(j), s.items) == 0 && Tally(RewrittenFrom(j, o), s.items) == 0
  {
    TallyAllZero(Rewritten(j), s.items);
    TallyAllZero(RewrittenFrom(j, o), s.items);
  }

  /** The stored counters equal the recount exactly on the schedules in which no item of the job
      had the broadcast of its result raise and the resulting error committed. */
  lemma CountersAgreeIff(schedule: seq<Action>, j: JobId, visible: set<HostId>)
    requires j < |Exec(Init(), schedule).jobs|
    requires SeesAll(Exec(Init(), schedule).items, j, visible)
    ensures CountersAgree(Exec(Init(), schedule), j, visible) <==>
            forall i | 0 <= i < |Exec(Init(), schedule).items| && Exec(Init(), schedule).items[i].job == j ::
              !(BroadcastRaised(schedule, i) && ErrorRecorded(schedule, i))
  {
    var s := Exec(Init(), schedule);
    CountersMatchRecount(schedule, j, visible);
    TallyPositive(Rewritten(j), s.items);
    forall i | 0 <= i < |s.items| ensures s.items[i].rewritten <==> BroadcastRaised(schedule, i) && ErrorRecorded(schedule, i) {
      OverwrittenIff(schedule, i);
    }
    if i :| 0 <= i < |s.items| && s.items[i].job == j && s.items[i].rewritten {
      assert Share(Rewritten(j), s.items[i]) > 0;
    } else {
      NoneRewritten(s, j, Success);
      NoneRewritten(s, j, Error);
      NoneRewritten(s, j, Skipped);
    }
  }

  /** In particular the counters are right as long as no broadcast of a committed result raises. */
  lemma CountersRightWithoutRaises(schedule: seq<Action>, j: JobId, visible: set<HostId>)
    requires j < |Exec(Init(), schedule).jobs|
    requires SeesAll(Exec(Init(), schedule).items, j, visible)
    requires forall i: ItemId :: !BroadcastRaised(schedule, i)
    ensures CountersAgree(Exec(Init(), schedule), j, visible)
  {
    CountersAgreeIff(schedule, j, visible);
  }

  // ---------------------------------------------------------------- the status of a job

  /** A step of the job's task failed at pc: a database block or a broadcast there raised. */
  ghost predicate FailedAt(schedule: seq<Action>, j: JobId, pc: JobPc) {
    JobDid(schedule, j, pc, false)
  }

  /** The except branch of the job's task committed. */
  ghost predicate CrashRecorded(schedule: seq<Action>, j: JobId) {
    JobDid(schedule, j, Crashing, true)
  }

  /** The job crashed before it spawned any item task. */
  ghost predicate CrashedEarly(schedule: seq<Action>, j: JobId) {
    FailedAt(schedule, j, Created) || FailedAt(schedule, j, AnnouncingStart)
  }

  datatype Past = Past(created: bool, announced: bool, gathered: bool, reported: bool, recorded: bool)

  ghost function PastOf(schedule: seq<Action>, j: JobId): Past {
    Past(FailedAt(schedule, j, Created), FailedAt(schedule, j, AnnouncingStart), FailedAt(schedule, j, Gathering),
         FailedAt(schedule, j, AnnouncingEnd), CrashRecorded(schedule, j))
  }

  /** The status that a crashed or finished job must have. */
  function StatusAfter(p: Past, job: Job): JobStatus {
    if p.recorded then Failed
    else if p.created then JobQueued
    else if p.announced || p.gathered then JobRunning
    else Verdict(job)
  }

  /** What the failing steps so far say about the job and its items. */
  ghost predicate JobPastOk(s: State, j: JobId, p: Past)
    requires j < |s.jobs|
  {
    var job := s.jobs[j];
    match job.pc
    case Created => p == Past(false, false, false, false, false) && job.status == JobQueued
    case AnnouncingEnd => p == Past(false, false, false, false, false)
    case Crashing => !p.recorded && job.status == StatusAfter(p, job) && ItemsSpawned(s, j, p)
    case CleaningUp => job.status == StatusAfter(p, job) && ItemsSpawned(s, j, p)
    case Done => job.status == StatusAfter(p, job) && ItemsSpawned(s, j, p)
    case _ => p == Past(false, false, false, false, false) && job.status == JobRunning
  }

  ghost predicate ItemsSpawned(s: State, j: JobId, p: Past) {
    if p.created || p.announced then AllUnspawned(s.items, j) else AllEnded(s.items, j)
  }

  function PastNextJob(p: Past, pc: JobPc, ok: bool): Past {
    Past(p.created || (pc.Created? && !ok), p.announced || (pc.AnnouncingStart? && !ok),
         p.gathered || (pc.Gathering? && !ok), p.reported || (pc.AnnouncingEnd? && !ok),
         p.recorded || (pc.Crashing? && ok))
  }

  /** A step of the job's own task. */
  lemma OwnStepKeepsPast(s: State, j: JobId, ok: bool, p: Past)
    requires Inv(s) && Enabled(s, JobStep(j, ok)) && JobPastOk(s, j, p)
    ensures JobPastOk(ApplyJob(s, j, ok), j, PastNextJob(p, s.jobs[j].pc, ok))
  {
    assert PhaseOk(s, j);
  }

  /** A step of an item: it does not move items that are unspawned or ended. */
  lemma ItemStepKeepsPast(s: State, i: ItemId, ok: bool, outcome: Outcome, j: JobId, p: Past)
    requires Enabled(s, ItemStep(i, ok, outcome)) && j < |s.jobs| && JobPastOk(s, j, p)
    ensures JobPastOk(ApplyItem(s, i, ok, outcome), j, p)
  {
    var s' := ApplyItem(s, i, ok, outcome);
    if s.items[i].job != j {
      assert s'.jobs[j] == s.jobs[j];
    } else {
      assert !AllUnspawned(s.items, j) && !AllEnded(s.items, j);
    }
  }

  lemma OtherStepKeepsPast(s: State, a: Action, j: JobId, p: Past)
    requires Inv(s) && Enabled(s, a) && j < |s.jobs| && JobPastOk(s, j, p)
    requires a.JobStep? ==> a.job != j
    ensures JobPastOk(Apply(s, a), j, p)
  {
    match a
    case Create(requested) =>
      var s' := ApplyCreate(s, requested);
      NewItemsFresh(|s.jobs|, requested);
      forall i | |s.items| <= i < |s'.items| ensures s'.items[i].job == |s.jobs| {
        assert s'.items[i] == NewItems(|s.jobs|, requested)[i - |s.items|];
      }
    case JobStep(k, ok) =>
      forall i | 0 <= i < |s.items| && s.items[i].job == j ensures ApplyJob(s, k, ok).items[i] == s.items[i] {
      }
    case ItemStep(i, ok, outcome) =>
      ItemStepKeepsPast(s, i, ok, outcome, j, p);
  }

  lemma {:induction false} NoJobYet(schedule: seq<Action>, j: JobId, pc: JobPc, ok: bool)
    requires j >= |Exec(Init(), schedule).jobs|
    ensures !JobDid(schedule, j, pc, ok)
  {
    if schedule != [] {
      var last := |schedule| - 1;
      var before := Exec(Init(), schedule[..last]);
      assert |before.jobs| <= |Exec(Init(), schedule).jobs|;
      NoJobYet(schedule[..last], j, pc, ok);
      JobDidNext(schedule, j, pc, ok);
    }
  }

  lemma NoPastYet(schedule: seq<Action>, j: JobId)
    requires j >= |Exec(Init(), schedule).jobs|
    ensures PastOf(schedule, j) == Past(false, false, false, false, false)
  {
    NoJobYet(schedule, j, Created, false);
    NoJobYet(schedule, j, AnnouncingStart, false);
    NoJobYet(schedule, j, Gathering, false);
    NoJobYet(schedule, j, AnnouncingEnd, false);
    NoJobYet(schedule, j, Crashing, true);
  }

  lemma PastOfNext(schedule: seq<Action>, j: JobId)
    requires schedule != []
    ensures var last := |schedule| - 1;
            var s, a := Exec(Init(), schedule[..last]), schedule[last];
            PastOf(schedule, j) ==
            if a.JobStep? && a.job == j && Enabled(s, a)
            then PastNextJob(PastOf(schedule[..last], j), s.jobs[j].pc, a.ok)
            else PastOf(schedule[..last], j)
  {
    JobDidNext(schedule, j, Created, false);
    JobDidNext(schedule, j, AnnouncingStart, false);
    JobDidNext(schedule, j, Gathering, false);
    JobDidNext(schedule, j, AnnouncingEnd, false);
    JobDidNext(schedule, j, Crashing, true);
  }

  lemma {:induction false} JobPastRemembered(schedule: seq<Action>, j: JobId)
    requires j < |Exec(Init(), schedule).jobs|
    ensures JobPastOk(Exec(Init(), schedule), j, PastOf(schedule, j))
  {
    if schedule != [] {
      var last := |schedule| - 1;
      var s, a := Exec(Init(), schedule[..last]), schedule[last];
      Reachable(schedule[..last]);
      PastOfNext(schedule, j);
      if j >= |s.jobs| {
        NoPastYet(schedule[..last], j);
      } else {
        JobPastRemembered(schedule[..last], j);
        if Enabled(s, a) {
          if a.JobStep? && a.job == j {
            OwnStepKeepsPast(s, j, a.ok, PastOf(schedule[..last], j));
          } else {
            OtherStepKeepsPast(s, a, j, PastOf(schedule[..last], j));
          }
        }
      }
    }
  }

  /** The status of a job at any time of any schedule: failed if the except branch committed,
      else whatever the last committed block left, and the verdict on the results from the
      final block on. A job that reads completed or partial reports its results truly, and
      one that reads failed does so unless the except branch wrote it. */
  lemma LastingStatus(schedule: seq<Action>, j: JobId)
    requires j < |Exec(Init(), schedule).jobs|
    ensures var job := Exec(Init(), schedule).jobs[j];
            job.status ==
            if CrashRecorded(schedule, j) then Failed
            else if job.pc.Created? || FailedAt(schedule, j, Created) then JobQueued
            else if job.pc.AnnouncingStart? || job.pc.Spawning? || job.pc.Gathering? then JobRunning
            else if FailedAt(schedule, j, AnnouncingStart) || FailedAt(schedule, j, Gathering) then JobRunning
            else Verdict(job)
    ensures var s := Exec(Init(), schedule);
            var failed := exists i :: 0 <= i < |s.items| && s.items[i].job == j && s.items[i].status == Finished(Error);
            var succeeded := exists i :: 0 <= i < |s.items| && s.items[i].job == j && s.items[i].first == Some(Success);
            && (s.jobs[j].status.Completed? ==> AllEnded(s.items, j) && !failed)
            && (s.jobs[j].status.Partial? ==> AllEnded(s.items, j) && failed && succeeded)
            && (s.jobs[j].status.Failed? && !CrashRecorded(schedule, j) ==>
                  AllEnded(s.items, j) && failed && !succeeded)
  {
    var s := Exec(Init(), schedule);
    Reachable(schedule);
    JobPastRemembered(schedule, j);
    CounterSigns(s, j);
    assert PhaseOk(s, j);
  }

  /** The items of a done job: left queued exactly if the start could not be committed or announced. */
  lemma LeftQueuedIff(schedule: seq<Action>, j: JobId, i: ItemId)
    requires j < |Exec(Init(), schedule).jobs| && Exec(Init(), schedule).jobs[j].pc.Done?
    requires i < |Exec(Init(), schedule).items| && Exec(Init(), schedule).items[i].job == j
    ensures var it := Exec(Init(), schedule).items[i];
            && (it.pc.Unspawned? && it.status == Queued <==> CrashedEarly(schedule, j))
            && (it.pc.Ended? <==> !CrashedEarly(schedule, j))
  {
    Reachable(schedule);
    JobPastRemembered(schedule, j);
    assert ItemOk(Exec(Init(), schedule).items[i]);
  }

  /** A done job reads as its results say, all of them in, exactly if its task met no failure
      before the end and the except branch did not commit over the final status, or if it
      did but the results are failures anyway: some item in error, no result a success. */
  lemma TruthfulIff(schedule: seq<Action>, j: JobId)
    requires j < |Exec(Init(), schedule).jobs| && Exec(Init(), schedule).jobs[j].pc.Done?
    ensures var s := Exec(Init(), schedule);
            var failed := exists i :: 0 <= i < |s.items| && s.items[i].job == j && s.items[i].status == Finished(Error);
            var succeeded := exists i :: 0 <= i < |s.items| && s.items[i].job == j && s.items[i].first == Some(Success);
            s.jobs[j].status == Verdict(s.jobs[j]) && AllEnded(s.items, j) <==>
            !CrashedEarly(schedule, j) &&
            if CrashRecorded(schedule, j) then failed && !succeeded else !FailedAt(schedule, j, Gathering)
  {
    var s := Exec(Init(), schedule);
    Reachable(schedule);
    JobPastRemembered(schedule, j);
    CounterSigns(s, j);
    if CrashedEarly(schedule, j) {
      UnspawnedVerdict(s, j);
    }
  }

  lemma UnspawnedVerdict(s: State, j: JobId)
    requires Inv(s) && j < |s.jobs| && AllUnspawned(s.items, j)
    ensures Verdict(s.jobs[j]) == Completed
  {
    CounterSigns(s, j);
    forall i | 0 <= i < |s.items| && s.items[i].job == j ensures s.items[i].status == Queued {
      assert ItemOk(s.items[i]);
    }
  }

  /** When no task can go on, every job is out of active_jobs, and each item has run to its end
      unless its job could not commit or announce its start. */
  lemma Quiescence(schedule: seq<Action>, i: ItemId)
    requires forall a :: Enabled(Exec(Init(), schedule), a) ==> a.Create?
    ensures var s := Exec(Init(), schedule);
            && s.active == {}
            && (forall j | 0 <= j < |s.jobs| :: s.jobs[j].pc.Done?)
            && (i < |s.items| ==>
                  && (s.items[i].pc.Unspawned? <==> CrashedEarly(schedule, s.items[i].job))
                  && (s.items[i].pc.Ended? <==> !CrashedEarly(schedule, s.items[i].job)))
  {
    var s := Exec(Init(), schedule);
    Reachable(schedule);
    if !Settled(s) {
      var a := NextStep(s);
      assert false;
    }
    if i < |s.items| {
      LeftQueuedIff(schedule, s.items[i].job, i);
      assert ItemOk(s.items[i]);
    }
  }

  // ---------------------------------------------------------------- runs that go wrong

  /** The only job takes a step that spawns nothing and is not its last. */
  lemma ExtendStranded(schedule: seq<Action>, job: Job, item: Item, ok: bool) returns (schedule': seq<Action>)
    requires Exec(Init(), schedule) == State([job], [item], map[], {0})
    requires job.pc.Created? || job.pc.AnnouncingStart? || job.pc.Crashing?
    ensures Exec(Init(), schedule') == State([AdvanceJob(job, ok)], [item], map[], {0})
  {
    var s, a := State([job], [item], map[], {0}), JobStep(0, ok);
    schedule' := schedule + [a];
    ExecStep(schedule, s, a, Apply(s, a));
  }

  /** A job that crashes on announcing its start ends failed with its only item left queued. */
  lemma StrandedRun() returns (schedule: seq<Action>)
    ensures var s := Exec(Init(), schedule);
            && s.jobs == [Job(1, 0, 0, 0, 0, Failed, Done)] && s.items == [NewItem(0, "host")]
            && s.active == {} && Settled(s)
  {
    var job, item := Job(1, 0, 0, 0, 0, JobQueued, Created), NewItem(0, "host");
    assert NewItems(0, [Some("host")]) == [item] by {
      assert [Some("host")][..0] == [];
    }
    var s := Init();
    schedule := [];
    schedule, s := Extend(schedule, s, Create([Some("host")]));
    assert s == State([job], [item], map[], {0});
    schedule := ExtendStranded(schedule, job, item, true);
    schedule := ExtendStranded(schedule, job.(status := JobRunning, pc := AnnouncingStart), item, false);
    schedule := ExtendStranded(schedule, job.(status := JobRunning, pc := Crashing), item, true);
    s := State([job.(status := Failed, pc := CleaningUp)], [item], map[], {0});
    schedule, s := Extend(schedule, s, JobStep(0, true));
    assert s == State([job.(status := Failed, pc := Done)], [item], map[], {});
  }

  /** A job whose only item succeeded ends failed because its final broadcast raises. */
  lemma OverwrittenStatusRun() returns (schedule: seq<Action>)
    ensures var s := Exec(Init(), schedule);
            && s.jobs == [Job(1, 1, 1, 0, 0, Failed, Done)]
            && |s.items| == 1 && s.items[0].status == Finished(Success) && s.items[0].pc.Ended?
  {
    var job, item := Job(1, 1, 1, 0, 0, JobRunning, Gathering),
                     Item(0, "host", Finished(Success), Ended, Some(Success), false);
    schedule := OneExecute();
    schedule := ExtendPair(schedule, job.(completed := 0, success := 0),
                           NewItem(0, "host").(status := Running, pc := Committing(Success)), 4, true, Success);
    schedule := ExtendPair(schedule, job, item.(pc := Reporting), 4, true, Success);
    schedule := ExtendPair(schedule, job, item.(pc := Releasing), 4, true, Success);
    schedule := EndPair(schedule, job, item);
  }

  /** The job's last steps when its final broadcast raises. */
  lemma EndPair(schedule: seq<Action>, job: Job, item: Item) returns (schedule': seq<Action>)
    requires Exec(Init(), schedule) == OnePair(job, item, 5)
    requires job.pc.Gathering? && item.job == 0 && item.pc.Ended?
    ensures var s := Exec(Init(), schedule');
            s.jobs == [job.(status := Failed, pc := Done)] && s.items == [item]
  {
    var s := OnePair(job, item, 5);
    schedule' := schedule;
    schedule', s := Extend(schedule', s, JobStep(0, true));
    assert s == OnePair(job.(status := Verdict(job), pc := AnnouncingEnd), item, 5);
    schedule', s := Extend(schedule', s, JobStep(0, false));
    assert s == OnePair(job.(status := Verdict(job), pc := Crashing), item, 5);
    schedule', s := Extend(schedule', s, JobStep(0, true));
    schedule', s := Extend(schedule', s, JobStep(0, true));
    assert s.jobs == [job.(status := Failed, pc := Done)];
  }
}
