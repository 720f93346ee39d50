/** What every interleaving of the batch engine guarantees. */
module BatchResults {
  import opened Wrappers
  import opened BatchJobs

  // ---------------------------------------------------------------- counters

  datatype Counters = Counters(total: nat, completed: nat, success: nat, error: nat, skipped: nat)

  /** The items get_batch_job keeps for a viewer who sees only the given hosts. */
  function VisibleItems(items: seq<Item>, j: JobId, visible: set<HostId>): seq<Item> {
    if items == [] then []
    else
      var it := items[|items| - 1];
      VisibleItems(items[..|items| - 1], j, visible) + (if it.job == j && it.host in visible then [it] else [])
  }

  function CountStatus(items: seq<Item>, o: Outcome): nat {
    if items == [] then 0
    else CountStatus(items[..|items| - 1], o) + Bit(items[|items| - 1].status == Finished(o))
  }

  function CountTerminal(items: seq<Item>): nat {
    if items == [] then 0
    else CountTerminal(items[..|items| - 1]) + Bit(items[|items| - 1].status.Finished?)
  }

  /** The counters get_batch_job recomputes from the visible items. */
  function Recount(items: seq<Item>, j: JobId, visible: set<HostId>): Counters {
    var shown := VisibleItems(items, j, visible);
    Counters(|shown|, CountTerminal(shown), CountStatus(shown, Success), CountStatus(shown, Error),
             CountStatus(shown, Skipped))
  }

  ghost predicate SeesAll(items: seq<Item>, j: JobId, visible: set<HostId>) {
    forall i | 0 <= i < |items| && items[i].job == j :: items[i].host in visible
  }

  lemma CountNext(shown: seq<Item>, it: Item, o: Outcome)
    ensures CountStatus(shown + [it], o) == CountStatus(shown, o) + Bit(it.status == Finished(o))
    ensures CountTerminal(shown + [it]) == CountTerminal(shown) + Bit(it.status.Finished?)
  {
    assert (shown + [it])[..|shown|] == shown;
  }

  /** How the visible items grow with one more item of the table. */
  lemma VisibleNext(items: seq<Item>, it: Item, j: JobId, visible: set<HostId>)
    requires it.job == j ==> it.host in visible
    ensures VisibleItems(items + [it], j, visible) ==
            if it.job == j then VisibleItems(items, j, visible) + [it] else VisibleItems(items, j, visible)
  {
    assert (items + [it])[..|items|] == items;
  }

  /** The recount of one kind of item and the tally of the table grow alike. */
  ghost predicate CountsAlike(items: seq<Item>, j: JobId, visible: set<HostId>, o: Outcome) {
    var shown := VisibleItems(items, j, visible);
    && CountTerminal(shown) == Tally(Terminal(j), items)
    && CountStatus(shown, o) == Tally(Having(j, o), items)
  }

  lemma CountsNext(items: seq<Item>, it: Item, j: JobId, visible: set<HostId>, o: Outcome)
    requires CountsAlike(items, j, visible, o)
    requires it.job == j ==> it.host in visible
    ensures CountsAlike(items + [it], j, visible, o)
  {
    VisibleNext(items, it, j, visible);
    CountNext(VisibleItems(items, j, visible), it, o);
    TallyNext(Terminal(j), items, it);
    TallyNext(Having(j, o), items, it);
  }

  lemma {:induction false} RecountIsTally(items: seq<Item>, j: JobId, visible: set<HostId>, o: Outcome)
    requires SeesAll(items, j, visible)
    ensures CountsAlike(items, j, visible, o)
  {
    if items != [] {
      var before, it := items[..|items| - 1], items[|items| - 1];
      RecountIsTally(before, j, visible, o);
      CountsNext(before, it, j, visible, o);
      assert items == before + [it];
    }
  }

  /** In every interleaving a job's counters exceed a recount of its items by exactly the
      results that a raising broadcast made the except branch commit over. */
  lemma CountersMatchRecount(schedule: seq<Action>, j: JobId, visible: set<HostId>)
    requires j < |Exec(Init(), schedule).jobs|
    requires SeesAll(Exec(Init(), schedule).items, j, visible)
    ensures var s := Exec(Init(), schedule);
            var job, shown := s.jobs[j], Recount(s.items, j, visible);
            && job.completed == job.success + job.error + job.skipped
            && job.completed == shown.completed + Tally(Rewritten(j), s.items)
            && job.success == shown.success + Tally(RewrittenFrom(j, Success), s.items)
            && job.error == shown.error + Tally(RewrittenFrom(j, Error), s.items)
            && job.skipped == shown.skipped + Tally(RewrittenFrom(j, Skipped), s.items)
  {
    var s := Exec(Init(), schedule);
    Reachable(schedule);
    RecountIsTally(s.items, j, visible, Success);
    RecountIsTally(s.items, j, visible, Error);
    RecountIsTally(s.items, j, visible, Skipped);
    assert CountersOk(s, j);
    assert Counter(s.jobs[j], Success) == s.jobs[j].success;
    assert Counter(s.jobs[j], Error) == s.jobs[j].error;
    assert Counter(s.jobs[j], Skipped) == s.jobs[j].skipped;
  }

  /** Whatever hosts a viewer sees, the recount is consistent in itself. */
  lemma {:induction false} ScopedRecountAddsUp(items: seq<Item>, j: JobId, visible: set<HostId>)
    ensures var shown := Recount(items, j, visible);
            shown.completed == shown.success + shown.error + shown.skipped <= shown.total
  {
    CountsAddUp(VisibleItems(items, j, visible));
  }

  lemma {:induction false} CountsAddUp(items: seq<Item>)
    ensures CountTerminal(items) == CountStatus(items, Success) + CountStatus(items, Error) + CountStatus(items, Skipped)
    ensures CountTerminal(items) <= |items|
  {
    if items != [] {
      CountsAddUp(items[..|items| - 1]);
      var status := items[|items| - 1].status;
      match status
      case Finished(Success) => case Finished(Error) => case Finished(Skipped) => case _ =>
    }
  }

  datatype Pick = Any | WithResult | WithOutcome(o: Outcome)

  predicate Fits(status: ItemStatus, pick: Pick) {
    match pick
    case Any => true
    case WithResult => status.Finished?
    case WithOutcome(o) => status == Finished(o)
  }

  /** The items of the job on a host the viewer sees, with a status of the given kind. */
  function Shown(items: seq<Item>, j: JobId, visible: set<HostId>, pick: Pick): set<ItemId> {
    set i | 0 <= i < |items| && items[i].job == j && items[i].host in visible && Fits(items[i].status, pick)
  }

  function CountPicked(items: seq<Item>, pick: Pick): nat {
    match pick
    case Any => |items|
    case WithResult => CountTerminal(items)
    case WithOutcome(o) => CountStatus(items, o)
  }

  lemma ShownNext(before: seq<Item>, it: Item, j: JobId, visible: set<HostId>, pick: Pick)
    ensures |Shown(before + [it], j, visible, pick)| ==
            |Shown(before, j, visible, pick)| + Bit(it.job == j && it.host in visible && Fits(it.status, pick))
  {
    assert Shown(before + [it], j, visible, pick) ==
           Shown(before, j, visible, pick) +
           if it.job == j && it.host in visible && Fits(it.status, pick) then {|before|} else {};
  }

  lemma RecountNext(before: seq<Item>, it: Item, j: JobId, visible: set<HostId>, pick: Pick)
    ensures CountPicked(VisibleItems(before + [it], j, visible), pick) ==
            CountPicked(VisibleItems(before, j, visible), pick) +
            Bit(it.job == j && it.host in visible && Fits(it.status, pick))
  {
    var shown := VisibleItems(before, j, visible);
    assert (before + [it])[..|before|] == before;
    assert shown + [] == shown;
    CountNext(shown, it, if pick.WithOutcome? then pick.o else Error);
  }

  /** Whatever hosts a viewer sees, the recount counts just the job's items there by their status. */
  lemma {:induction false} RecountCounts(items: seq<Item>, j: JobId, visible: set<HostId>, pick: Pick)
    ensures CountPicked(VisibleItems(items, j, visible), pick) == |Shown(items, j, visible, pick)|
  {
    if items == [] {
      assert Shown(items, j, visible, pick) == {};
    } else {
      var before, it := items[..|items| - 1], items[|items| - 1];
      RecountCounts(before, j, visible, pick);
      RecountNext(before, it, j, visible, pick);
      ShownNext(before, it, j, visible, pick);
      assert items == before + [it];
    }
  }

  /** So every counter a viewer is shown is the number of such items. */
  lemma RecountIs(items: seq<Item>, j: JobId, visible: set<HostId>)
    ensures var r := Recount(items, j, visible);
            && r.total == |set i | 0 <= i < |items| && items[i].job == j && items[i].host in visible|
            && r.completed == |Shown(items, j, visible, WithResult)|
            && r.success == |Shown(items, j, visible, WithOutcome(Success))|
            && r.error == |Shown(items, j, visible, WithOutcome(Error))|
            && r.skipped == |Shown(items, j, visible, WithOutcome(Skipped))|
  {
    RecountCounts(items, j, visible, Any);
    RecountCounts(items, j, visible, WithResult);
    RecountCounts(items, j, visible, WithOutcome(Success));
    RecountCounts(items, j, visible, WithOutcome(Error));
    RecountCounts(items, j, visible, WithOutcome(Skipped));
    assert Shown(items, j, visible, Any) == set i | 0 <= i < |items| && items[i].job == j && items[i].host in visible;
  }

  lemma {:induction false} HiddenItemInvisible(items: seq<Item>, i: nat, it: Item, j: JobId, visible: set<HostId>)
    requires i < |items| && items[i].host !in visible && it.host !in visible
    ensures VisibleItems(items[i := it], j, visible) == VisibleItems(items, j, visible)
  {
    var n := |items| - 1;
    if i == n {
      assert items[i := it][..n] == items[..n];
    } else {
      HiddenItemInvisible(items[..n], i, it, j, visible);
      assert items[i := it][..n] == items[..n][i := it];
    }
  }

  /** The recount reveals nothing of work on hidden hosts: no step of an item there changes it. */
  lemma HiddenWorkInvisible(s: State, i: ItemId, ok: bool, outcome: Outcome, j: JobId, visible: set<HostId>)
    requires Enabled(s, ItemStep(i, ok, outcome)) && s.items[i].host !in visible
    ensures Recount(ApplyItem(s, i, ok, outcome).items, j, visible) == Recount(s.items, j, visible)
  {
    HiddenItemInvisible(s.items, i, Advance(s.items[i], ok, outcome), j, visible);
  }

  // ---------------------------------------------------------------- throttling

  function Holders(items: seq<Item>, h: HostId): set<ItemId> {
    set i | 0 <= i < |items| && items[i].host == h && Holding(items[i].pc)
  }

  lemma {:induction false} HoldersTally(items: seq<Item>, h: HostId)
    ensures |Holders(items, h)| == Tally(HoldingOn(h), items)
  {
    if items == [] {
      assert Holders(items, h) == {};
    } else {
      var n := |items| - 1;
      HoldersTally(items[..n], h);
      assert Holders(items, h) ==
        Holders(items[..n], h) + (if items[n].host == h && Holding(items[n].pc) then {n} else {});
    }
  }

  /** Across all jobs, at most five items of one host are between acquire and release. */
  lemma AtMostFivePerHost(schedule: seq<Action>, h: HostId)
    ensures |Holders(Exec(Init(), schedule).items, h)| <= 5
    ensures |Holders(Exec(Init(), schedule).items, h)| + Available(Exec(Init(), schedule).permits, h)
            == 5
  {
    var s := Exec(Init(), schedule);
    Reachable(schedule);
    HoldersTally(s.items, h);
    assert PermitsOk(s, h);
  }

  // ---------------------------------------------------------------- progress

  ghost predicate Settled(s: State) {
    && (forall j | 0 <= j < |s.jobs| :: s.jobs[j].pc.Done?)
    && (forall i | 0 <= i < |s.items| :: s.items[i].pc.Unspawned? || s.items[i].pc.Ended?)
  }

  /** While any task has not ended, some task can take a step. */
  lemma NeverStuck(schedule: seq<Action>) returns (a: Action)
    requires !Settled(Exec(Init(), schedule))
    ensures Enabled(Exec(Init(), schedule), a) && !a.Create?
  {
    Reachable(schedule);
    a := NextStep(Exec(Init(), schedule));
  }

  lemma NextStep(s: State) returns (a: Action)
    requires Inv(s) && !Settled(s)
    ensures Enabled(s, a) && !a.Create?
  {
    if i :| 0 <= i < |s.items| && !s.items[i].pc.Unspawned? && !s.items[i].pc.Ended? {
      if s.items[i].pc.Waiting? && Available(s.permits, s.items[i].host) == 0 {
        // All five permits are out, so someone holds one and can go on.
        var h := s.items[i].host;
        assert PermitsOk(s, h);
        TallyPositive(HoldingOn(h), s.items);
        var k :| 0 <= k < |s.items| && Share(HoldingOn(h), s.items[k]) > 0;
        a := ItemStep(k, true, Success);
      } else {
        a := ItemStep(i, true, Success);
      }
    } else {
      var j :| 0 <= j < |s.jobs| && !s.jobs[j].pc.Done?;
      a := JobStep(j, true);
    }
  }

  function JobPcWork(pc: JobPc): nat {
    match pc
    case Created => 7 case AnnouncingStart => 6 case Spawning => 5 case Gathering => 4
    case AnnouncingEnd => 3 case Crashing => 2 case CleaningUp => 1 case Done => 0
  }

  function JobsWork(jobs: seq<Job>): nat {
    if jobs == [] then 0 else JobsWork(jobs[..|jobs| - 1]) + JobPcWork(jobs[|jobs| - 1].pc)
  }

  function Work(s: State): nat {
    Tally(ItemWork, s.items) + JobsWork(s.jobs)
  }

  lemma {:induction false} JobsWorkUpdate(jobs: seq<Job>, j: nat, job: Job)
    requires j < |jobs|
    ensures JobsWork(jobs[j := job]) + JobPcWork(jobs[j].pc) == JobsWork(jobs) + JobPcWork(job.pc)
  {
    var n := |jobs| - 1;
    if j == n {
      assert jobs[j := job][..n] == jobs[..n];
    } else {
      JobsWorkUpdate(jobs[..n], j, job);
      assert jobs[j := job][..n] == jobs[..n][j := job];
    }
  }

  lemma AdvanceWorks(it: Item, ok: bool, outcome: Outcome)
    requires !it.pc.Unspawned? && !it.pc.Ended?
    ensures PcWork(Advance(it, ok, outcome).pc) < PcWork(it.pc)
  {
  }

  lemma CountIntoWorks(jobs: seq<Job>, j: JobId, counted: Option<Outcome>)
    requires j < |jobs|
    ensures JobsWork(CountInto(jobs, j, counted)) == JobsWork(jobs)
  {
    if counted.Some? {
      JobsWorkUpdate(jobs, j, AddOutcome(jobs[j], counted.value));
    }
  }

  lemma JobStepWorks(s: State, j: JobId, ok: bool)
    requires Enabled(s, JobStep(j, ok))
    ensures Work(ApplyJob(s, j, ok)) < Work(s)
  {
    JobsWorkUpdate(s.jobs, j, AdvanceJob(s.jobs[j], ok));
    TallyPointwise(ItemWork, s.items, ApplyJob(s, j, ok).items);
  }

  lemma ItemStepWorks(s: State, i: ItemId, ok: bool, outcome: Outcome)
    requires Enabled(s, ItemStep(i, ok, outcome))
    ensures Work(ApplyItem(s, i, ok, outcome)) < Work(s)
  {
    var it := s.items[i];
    AdvanceWorks(it, ok, outcome);
    TallyUpdate(ItemWork, s.items, i, Advance(it, ok, outcome));
    CountIntoWorks(s.jobs, it.job, Counted(it, ok));
  }

  /** Every step but the creation of a job brings termination closer. */
  lemma StepWorks(s: State, a: Action)
    requires Enabled(s, a) && !a.Create?
    ensures Work(Apply(s, a)) < Work(s)
  {
    match a
    case JobStep(j, ok) => JobStepWorks(s, j, ok);
    case ItemStep(i, ok, outcome) => ItemStepWorks(s, i, ok, outcome);
  }

  const JOB_WORK: nat := 7    // of a job just created
  const ITEM_WORK: nat := 11  // of an item just created

  /** The work that creating a job with n requested ids can bring. */
  function CreatedWork(schedule: seq<Action>): nat {
    if schedule == [] then 0
    else CreatedWork(schedule[..|schedule| - 1]) +
         match schedule[|schedule| - 1]
         case Create(requested) => JOB_WORK + ITEM_WORK * |requested|
         case _ => 0
  }

  /** How many steps of the schedule, other than creations, are really taken. */
  function StepsTaken(s: State, schedule: seq<Action>): nat {
    if schedule == [] then 0
    else
      var prefix, a := schedule[..|schedule| - 1], schedule[|schedule| - 1];
      StepsTaken(s, prefix) + Bit(!a.Create? && Enabled(Exec(s, prefix), a))
  }

  lemma NewItemWork(j: JobId, before: seq<Option<HostId>>, id: Option<HostId>)
    ensures Tally(ItemWork, NewItems(j, before + [id])) <= Tally(ItemWork, NewItems(j, before)) + ITEM_WORK
  {
    NewItemsNext(j, before, id);
    if id.Some? {
      TallyNext(ItemWork, NewItems(j, before), NewItem(j, id.value));
    }
  }

  lemma NewItemsNext(j: JobId, before: seq<Option<HostId>>, id: Option<HostId>)
    ensures NewItems(j, before + [id]) ==
            if id.Some? then NewItems(j, before) + [NewItem(j, id.value)] else NewItems(j, before)
  {
    assert (before + [id])[..|before|] == before;
  }

  lemma {:induction false} NewItemsWork(j: JobId, requested: seq<Option<HostId>>)
    ensures Tally(ItemWork, NewItems(j, requested)) <= ITEM_WORK * |requested|
  {
    if requested != [] {
      var before, id := requested[..|requested| - 1], requested[|requested| - 1];
      NewItemsWork(j, before);
      NewItemWork(j, before, id);
      assert requested == before + [id];
    }
  }

  /** Every run is finite: what it can do is bounded by the jobs that were created. */
  lemma {:induction false} StepsBounded(schedule: seq<Action>)
    ensures StepsTaken(Init(), schedule) + Work(Exec(Init(), schedule)) <= CreatedWork(schedule)
  {
    if schedule != [] {
      var prefix, a := schedule[..|schedule| - 1], schedule[|schedule| - 1];
      StepsBounded(prefix);
      var s := Exec(Init(), prefix);
      match a
      case Create(requested) =>
        NewItemsWork(|s.jobs|, requested);
        TallyConcat(ItemWork, s.items, NewItems(|s.jobs|, requested));
        var job := Job(|requested|, 0, 0, 0, 0, JobQueued, Created);
        assert (s.jobs + [job])[..|s.jobs|] == s.jobs;
      case _ =>
        if Enabled(s, a) {
          StepWorks(s, a);
        }
    }
  }

  /** From every reachable state the tasks can be carried to their end without new jobs. */
  lemma {:induction false} Completes(schedule: seq<Action>) returns (more: seq<Action>)
    ensures Settled(Exec(Init(), schedule + more))
    ensures forall a | a in more :: !a.Create?
    ensures |more| <= Work(Exec(Init(), schedule))
    decreases Work(Exec(Init(), schedule))
  {
    var s := Exec(Init(), schedule);
    if Settled(s) {
      more := [];
      assert schedule + more == schedule;
    } else {
      var a := NeverStuck(schedule);
      StepWorks(s, a);
      ExecStep(schedule, s, a, Apply(s, a));
      var rest := Completes(schedule + [a]);
      more := [a] + rest;
      assert schedule + more == (schedule + [a]) + rest;
    }
  }

  // ---------------------------------------------------------------- the final status

  /** No database fault ever strikes the block that records an item's error. */
  ghost predicate ErrorBlocksCommit(s: State, schedule: seq<Action>) {
    schedule == [] ||
    (var prefix, a := schedule[..|schedule| - 1], schedule[|schedule| - 1];
     var before := Exec(s, prefix);
     && ErrorBlocksCommit(s, prefix)
     && (a.ItemStep? && Enabled(before, a) && before.items[a.item].pc.Failing? ==> a.ok))
  }

  ghost predicate NoResultLost(s: State) {
    forall i | 0 <= i < |s.items| ::
      s.items[i].pc.Releasing? || s.items[i].pc.Ended? ==> s.items[i].status.Finished?
  }

  lemma {:induction false} ResultsRecorded(schedule: seq<Action>)
    requires ErrorBlocksCommit(Init(), schedule)
    ensures NoResultLost(Exec(Init(), schedule))
  {
    if schedule != [] {
      var prefix, a := schedule[..|schedule| - 1], schedule[|schedule| - 1];
      ResultsRecorded(prefix);
      Reachable(prefix);
      var s := Exec(Init(), prefix);
      match a
      case Create(requested) =>
        NewItemsFresh(|s.jobs|, requested);
        var s' := ApplyCreate(s, requested);
        assert forall i | |s.items| <= i < |s'.items| ::
          s'.items[i] == NewItems(|s.jobs|, requested)[i - |s.items|];
      case JobStep(_, _) =>
      case ItemStep(i, ok, outcome) =>
        if Enabled(s, a) {
          assert ItemOk(s.items[i]);
        }
    }
  }

  /** The error counter is positive exactly when an item ended in error, the success counter
      exactly when an item's first committed result was a success. */
  lemma CounterSigns(s: State, j: JobId)
    requires Inv(s) && j < |s.jobs|
    ensures s.jobs[j].error > 0 <==>
            exists i :: 0 <= i < |s.items| && s.items[i].job == j && s.items[i].status == Finished(Error)
    ensures s.jobs[j].success > 0 <==>
            exists i :: 0 <= i < |s.items| && s.items[i].job == j && s.items[i].first == Some(Success)
  {
    assert CountersOk(s, j);
    assert Counter(s.jobs[j], Error) == s.jobs[j].error && Counter(s.jobs[j], Success) == s.jobs[j].success;
    TallyPositive(Having(j, Error), s.items);
    TallyPositive(RewrittenFrom(j, Error), s.items);
    TallyPositive(Having(j, Success), s.items);
    TallyPositive(RewrittenFrom(j, Success), s.items);
    forall i | 0 <= i < |s.items|
      ensures s.items[i].job == j && s.items[i].status == Finished(Error) <==> Share(Having(j, Error), s.items[i]) > 0
      ensures Share(RewrittenFrom(j, Error), s.items[i]) > 0 ==> Share(Having(j, Error), s.items[i]) > 0
      ensures s.items[i].job == j && s.items[i].first == Some(Success) <==>
              Share(Having(j, Success), s.items[i]) > 0 || Share(RewrittenFrom(j, Success), s.items[i]) > 0
    {
      assert ItemOk(s.items[i]);
    }
  }

  /** When a job's final status is committed, all its items have ended, each with a result
      unless recording its error failed in the database, and the status says which results
      there were. */
  lemma FinalStatus(schedule: seq<Action>, j: JobId)
    requires Enabled(Exec(Init(), schedule), JobStep(j, true)) && Exec(Init(), schedule).jobs[j].pc.Gathering?
    ensures var s := Exec(Init(), schedule);
            var status := Apply(s, JobStep(j, true)).jobs[j].status;
            var failed := exists i :: 0 <= i < |s.items| && s.items[i].job == j && s.items[i].status == Finished(Error);
            var succeeded := exists i :: 0 <= i < |s.items| && s.items[i].job == j && s.items[i].first == Some(Success);
            && (status.Partial? <==> failed && succeeded)
            && (status.Failed? <==> failed && !succeeded)
            && (status.Completed? <==> !failed)
            && AllEnded(s.items, j)
    ensures ErrorBlocksCommit(Init(), schedule) ==>
            forall i | 0 <= i < |Exec(Init(), schedule).items| && Exec(Init(), schedule).items[i].job == j ::
              Exec(Init(), schedule).items[i].status.Finished?
  {
    var s := Exec(Init(), schedule);
    Reachable(schedule);
    CounterSigns(s, j);
    assert PhaseOk(s, j);
    if ErrorBlocksCommit(Init(), schedule) {
      ResultsRecorded(schedule);
    }
  }

  // ---------------------------------------------------------------- a single raising broadcast

  lemma ExecStep(schedule: seq<Action>, s: State, a: Action, s': State)
    requires Exec(Init(), schedule) == s && Enabled(s, a) && Apply(s, a) == s'
    ensures Exec(Init(), schedule + [a]) == s'
  {
    assert (schedule + [a])[..|schedule|] == schedule;
  }

  /** The state of a run with one job and one item on one host. */
  function OnePair(job: Job, it: Item, free: nat): State {
    State([job], [it], map["host" := free], {0})
  }

  lemma OneLaunch() returns (schedule: seq<Action>)
    ensures Exec(Init(), schedule) ==
            State([Job(1, 0, 0, 0, 0, JobRunning, Gathering)], [NewItem(0, "host").(pc := Waiting)], map[], {0})
  {
    var job, item := Job(1, 0, 0, 0, 0, JobQueued, Created), NewItem(0, "host");
    assert NewItems(0, [Some("host")]) == [item] by {
      assert [Some("host")][..0] == [];
    }
    var s := Init();
    schedule := [];
    schedule, s := Extend(schedule, s, Create([Some("host")]));
    assert s == State([job], [item], map[], {0});
    schedule, s := Extend(schedule, s, JobStep(0, true));
    schedule, s := Extend(schedule, s, JobStep(0, true));
    assert s == State([job.(status := JobRunning, pc := Spawning)], [item], map[], {0});
    schedule, s := Extend(schedule, s, JobStep(0, true));
    assert s.items == [item.(pc := Waiting)];
  }

  /** The item takes a step while the job waits. */
  lemma ExtendPair(schedule: seq<Action>, job: Job, it: Item, free: nat, ok: bool, outcome: Outcome)
      returns (schedule': seq<Action>)
    requires Exec(Init(), schedule) == OnePair(job, it, free) && it.job == 0 && it.host == "host"
    requires !it.pc.Unspawned? && !it.pc.Waiting? && !it.pc.Ended?
    ensures var counted := Counted(it, ok);
            Exec(Init(), schedule') ==
            OnePair(if counted.Some? then AddOutcome(job, counted.value) else job, Advance(it, ok, outcome),
                    if it.pc.Releasing? then free + 1 else free)
  {
    var s, a := OnePair(job, it, free), ItemStep(0, ok, outcome);
    schedule' := schedule + [a];
    ExecStep(schedule, s, a, Apply(s, a));
  }

  lemma OneExecute() returns (schedule: seq<Action>)
    ensures Exec(Init(), schedule) ==
            OnePair(Job(1, 0, 0, 0, 0, JobRunning, Gathering),
                    NewItem(0, "host").(status := Running, pc := Committing(Success)), 4)
  {
    var job, item := Job(1, 0, 0, 0, 0, JobRunning, Gathering), NewItem(0, "host");
    schedule := OneLaunch();
    var s := Exec(Init(), schedule);
    schedule, s := Extend(schedule, s, ItemStep(0, true, Success));
    assert s == OnePair(job, item.(pc := Starting), 4);
    schedule := ExtendPair(schedule, job, item.(pc := Starting), 4, true, Success);
    schedule := ExtendPair(schedule, job, item.(status := Running, pc := Announcing), 4, true, Success);
    schedule := ExtendPair(schedule, job, item.(status := Running, pc := Loading), 4, true, Success);
    schedule := ExtendPair(schedule, job, item.(status := Running, pc := Executing), 4, true, Success);
  }

  lemma OneOverwrite() returns (schedule: seq<Action>)
    ensures Exec(Init(), schedule) ==
            OnePair(Job(1, 2, 1, 1, 0, JobRunning, Gathering),
                    Item(0, "host", Finished(Error), ReportingFailure, Some(Success), true), 4)
  {
    var job, item := Job(1, 1, 1, 0, 0, JobRunning, Gathering),
                     Item(0, "host", Finished(Success), Reporting, Some(Success), false);
    schedule := OneExecute();
    schedule := ExtendPair(schedule, job.(completed := 0, success := 0),
                           NewItem(0, "host").(status := Running, pc := Committing(Success)), 4, true, Success);
    schedule := ExtendPair(schedule, job, item, 4, false, Success);
    schedule := ExtendPair(schedule, job, item.(pc := Failing), 4, true, Success);
  }

  /** A job with one item, whose action succeeded and was recorded, reads 'partial' when
      the broadcast of that success raises. */
  lemma LoneSuccessReadsPartial() returns (schedule: seq<Action>)
    ensures var s := Exec(Init(), schedule);
            && |s.items| == 1 && s.items[0].first == Some(Success) && s.items[0].status == Finished(Error)
            && |s.jobs| == 1 && s.jobs[0].status == Partial
            && s.jobs[0].completed == 2 && s.jobs[0].total == 1
  {
    var job, item := Job(1, 2, 1, 1, 0, JobRunning, Gathering),
                     Item(0, "host", Finished(Error), ReportingFailure, Some(Success), true);
    schedule := OneOverwrite();
    schedule := ExtendPair(schedule, job, item, 4, true, Success);
    schedule := ExtendPair(schedule, job, item.(pc := Releasing), 4, true, Success);
    var s := Exec(Init(), schedule);
    assert s == OnePair(job, item.(pc := Ended), 5);
    schedule, s := Extend(schedule, s, JobStep(0, true));
  }

  lemma Extend(schedule: seq<Action>, s: State, a: Action) returns (schedule': seq<Action>, s': State)
    requires Exec(Init(), schedule) == s && Enabled(s, a)
    ensures schedule' == schedule + [a] && s' == Apply(s, a) && Exec(Init(), schedule') == s'
  {
    schedule', s' := schedule + [a], Apply(s, a);
    ExecStep(schedule, s, a, s');
  }
}
