/**
  The batch job engine of backend/batch_manager.py as a state machine.

  A job task (_process_job) and one task per item (_process_item) run interleaved. Each
  `with session` block is one atomic step and each `await` is an interleaving point, so a
  step resumes one task and carries it to its next such point. What the environment decides
  (whether a database block commits, whether a broadcast raises, what an action returns) is
  part of the step, and a schedule is any sequence of steps: a property of every schedule is
  a property of every interleaving of every number of jobs.
*/
module BatchJobs {
  import opened Wrappers

  type HostId = string
  type JobId = nat   // index into the job table
  type ItemId = nat  // index into the item table: ids are handed out in order, rows are never deleted

  datatype Outcome = Success | Error | Skipped

  datatype ItemStatus = Queued | Running | Finished(outcome: Outcome)

  /** Where an item task stands. It holds a permit of its host from Starting to Releasing. */
  datatype ItemPc =
    | Unspawned           // the row exists, the task does not
    | Waiting             // for the host's semaphore
    | Starting            // about to commit status 'running'
    | Announcing          // broadcasting 'running'
    | Loading             // reading the job's action and parameters
    | Executing           // inside _execute_action
    | Committing(result: Outcome)
    | Reporting           // broadcasting the committed result
    | Failing             // about to commit the error of the except branch
    | ReportingFailure    // broadcasting that error
    | Releasing           // leaving the semaphore
    | Ended

  /** `first` and `rewritten` record history: the outcome of the first terminal commit, and
      whether the except branch committed on top of it. */
  datatype Item = Item(job: JobId, host: HostId, status: ItemStatus, pc: ItemPc,
                       first: Option<Outcome>, rewritten: bool)

  datatype JobStatus = JobQueued | JobRunning | Completed | Partial | Failed

  datatype JobPc =
    | Created         // the task exists and has not run
    | AnnouncingStart
    | Spawning
    | Gathering       // waiting for the item tasks, then committing the final status
    | AnnouncingEnd
    | Crashing        // in the except branch
    | CleaningUp      // in the finally branch
    | Done

  datatype Job = Job(total: nat, completed: nat, success: nat, error: nat, skipped: nat,
                     status: JobStatus, pc: JobPc)

  datatype State = State(jobs: seq<Job>, items: seq<Item>, permits: map<HostId, nat>, active: set<JobId>)

  const PERMITS_PER_HOST: nat := 5

  datatype Action =
    | Create(requested: seq<Option<HostId>>)  // None: an id that create_job does not find
    | JobStep(job: JobId, ok: bool)
    | ItemStep(item: ItemId, ok: bool, outcome: Outcome)

  function Init(): State {
    State([], [], map[], {})
  }

  // ---------------------------------------------------------------- items

  predicate Holding(pc: ItemPc) {
    !pc.Unspawned? && !pc.Waiting? && !pc.Ended?
  }

  function NewItem(j: JobId, h: HostId): Item {
    Item(j, h, Queued, Unspawned, None, false)
  }

  /** The rows create_job adds: ids that are not found are skipped. */
  function NewItems(j: JobId, requested: seq<Option<HostId>>): seq<Item> {
    if requested == [] then []
    else NewItems(j, requested[..|requested| - 1]) +
         match requested[|requested| - 1]
         case None => []
         case Some(h) => [NewItem(j, h)]
  }

  /** One step of _process_item on the item's own row and program counter. */
  function Advance(it: Item, ok: bool, outcome: Outcome): Item {
    match it.pc
    case Waiting => it.(pc := Starting)
    case Starting => if ok then it.(status := Running, pc := Announcing) else it.(pc := Failing)
    case Announcing => it.(pc := if ok then Loading else Failing)
    case Loading => it.(pc := if ok then Executing else Failing)
    case Executing => it.(pc := Committing(outcome))
    case Committing(o) =>
      if ok then it.(status := Finished(o), first := Some(o), pc := Reporting) else it.(pc := Failing)
    case Reporting => it.(pc := if ok then Releasing else Failing)
    case Failing =>
      if ok then
        it.(status := Finished(Error), pc := ReportingFailure,
            first := if it.first.Some? then it.first else Some(Error),
            rewritten := it.first.Some?)
      else it.(pc := Releasing)
    case ReportingFailure => it.(pc := Releasing)
    case Releasing => it.(pc := Ended)
    case _ => it
  }

  /** The outcome that this step adds to the job's counters, if any. */
  function Counted(it: Item, ok: bool): Option<Outcome> {
    match it.pc
    case Committing(o) => if ok then Some(o) else None
    case Failing => if ok then Some(Error) else None
    case _ => None
  }

  function AddOutcome(job: Job, o: Outcome): Job {
    match o
    case Success => job.(completed := job.completed + 1, success := job.success + 1)
    case Error => job.(completed := job.completed + 1, error := job.error + 1)
    case Skipped => job.(completed := job.completed + 1, skipped := job.skipped + 1)
  }

  // ---------------------------------------------------------------- steps

  function Available(permits: map<HostId, nat>, h: HostId): nat {
    if h in permits then permits[h] else PERMITS_PER_HOST
  }

  predicate Gathered(items: seq<Item>, j: JobId) {
    forall i | 0 <= i < |items| :: items[i].job == j && !items[i].pc.Unspawned? ==> items[i].pc.Ended?
  }

  function SpawnItem(it: Item, j: JobId): Item {
    if it.job == j && it.pc.Unspawned? && it.status == Queued then it.(pc := Waiting) else it
  }

  function Spawn(items: seq<Item>, j: JobId): (r: seq<Item>)
    ensures |r| == |items|
    ensures forall i | 0 <= i < |items| :: r[i] == SpawnItem(items[i], j)
  {
    seq(|items|, i requires 0 <= i < |items| => SpawnItem(items[i], j))
  }

  function Verdict(job: Job): JobStatus {
    if job.error > 0 && job.success > 0 then Partial
    else if job.error > 0 then Failed
    else Completed
  }

  predicate Enabled(s: State, a: Action) {
    match a
    case Create(_) => true
    case JobStep(j, _) =>
      && j < |s.jobs|
      && !s.jobs[j].pc.Done?
      && (s.jobs[j].pc.Gathering? ==> Gathered(s.items, j))
    case ItemStep(i, _, _) =>
      && i < |s.items|
      && s.items[i].job < |s.jobs|
      && !s.items[i].pc.Unspawned? && !s.items[i].pc.Ended?
      && (s.items[i].pc.Waiting? ==> Available(s.permits, s.items[i].host) > 0)
  }

  function ApplyCreate(s: State, requested: seq<Option<HostId>>): State {
    s.(jobs := s.jobs + [Job(|requested|, 0, 0, 0, 0, JobQueued, Created)],
       items := s.items + NewItems(|s.jobs|, requested),
       active := s.active + {|s.jobs|})
  }

  function AdvanceJob(job: Job, ok: bool): Job {
    match job.pc
    case Created => if ok then job.(status := JobRunning, pc := AnnouncingStart) else job.(pc := Crashing)
    case AnnouncingStart => job.(pc := if ok then Spawning else Crashing)
    case Spawning => job.(pc := Gathering)
    case Gathering => if ok then job.(status := Verdict(job), pc := AnnouncingEnd) else job.(pc := Crashing)
    case AnnouncingEnd => job.(pc := if ok then CleaningUp else Crashing)
    case Crashing => if ok then job.(status := Failed, pc := CleaningUp) else job.(pc := CleaningUp)
    case CleaningUp => job.(pc := Done)
    case Done => job
  }

  function ApplyJob(s: State, j: JobId, ok: bool): State
    requires j < |s.jobs|
  {
    s.(jobs := s.jobs[j := AdvanceJob(s.jobs[j], ok)],
       items := if s.jobs[j].pc.Spawning? then Spawn(s.items, j) else s.items,
       active := if s.jobs[j].pc.CleaningUp? then s.active - {j} else s.active)
  }

  function PermitsAfter(permits: map<HostId, nat>, it: Item): map<HostId, nat>
    requires it.pc.Waiting? ==> Available(permits, it.host) > 0
  {
    match it.pc
    case Waiting => permits[it.host := Available(permits, it.host) - 1]
    case Releasing => permits[it.host := Available(permits, it.host) + 1]
    case _ => permits
  }

  function CountInto(jobs: seq<Job>, j: JobId, counted: Option<Outcome>): seq<Job>
    requires j < |jobs|
  {
    match counted
    case None => jobs
    case Some(o) => jobs[j := AddOutcome(jobs[j], o)]
  }

  function ApplyItem(s: State, i: ItemId, ok: bool, outcome: Outcome): State
    requires Enabled(s, ItemStep(i, ok, outcome))
  {
    var it := s.items[i];
    s.(items := s.items[i := Advance(it, ok, outcome)],
       jobs := CountInto(s.jobs, it.job, Counted(it, ok)),
       permits := PermitsAfter(s.permits, it))
  }

  function Apply(s: State, a: Action): State
    requires Enabled(s, a)
  {
    match a
    case Create(requested) => ApplyCreate(s, requested)
    case JobStep(j, ok) => ApplyJob(s, j, ok)
    case ItemStep(i, ok, outcome) => ApplyItem(s, i, ok, outcome)
  }

  /** Runs a schedule; a step that is not enabled when its turn comes is passed over. */
  function Exec(s: State, schedule: seq<Action>): State {
    if schedule == [] then s
    else
      var before := Exec(s, schedule[..|schedule| - 1]);
      var a := schedule[|schedule| - 1];
      if Enabled(before, a) then Apply(before, a) else before
  }

  // ---------------------------------------------------------------- counting items

  datatype Query =
    | Terminal(j: JobId)
    | Having(j: JobId, o: Outcome)
    | Rewritten(j: JobId)
    | RewrittenFrom(j: JobId, o: Outcome)
    | HoldingOn(h: HostId)
    | ItemWork

  function PcWork(pc: ItemPc): nat {
    match pc
    case Unspawned => 11 case Waiting => 10 case Starting => 9 case Announcing => 8
    case Loading => 7 case Executing => 6 case Committing(_) => 5 case Reporting => 4
    case Failing => 3 case ReportingFailure => 2 case Releasing => 1 case Ended => 0
  }

  function Bit(b: bool): nat { if b then 1 else 0 }

  function Share(q: Query, it: Item): nat {
    match q
    case Terminal(j) => Bit(it.job == j && it.status.Finished?)
    case Having(j, o) => Bit(it.job == j && it.status == Finished(o))
    case Rewritten(j) => Bit(it.job == j && it.rewritten)
    case RewrittenFrom(j, o) => Bit(it.job == j && it.rewritten && it.first == Some(o))
    case HoldingOn(h) => Bit(it.host == h && Holding(it.pc))
    case ItemWork => PcWork(it.pc)
  }

  function Tally(q: Query, items: seq<Item>): nat {
    if items == [] then 0
    else Tally(q, items[..|items| - 1]) + Share(q, items[|items| - 1])
  }

  lemma {:induction false} TallyUpdate(q: Query, items: seq<Item>, i: nat, it: Item)
    requires i < |items|
    ensures Tally(q, items[i := it]) + Share(q, items[i]) == Tally(q, items) + Share(q, it)
  {
    var n := |items| - 1;
    if i == n {
      assert items[i := it][..n] == items[..n];
    } else {
      TallyUpdate(q, items[..n], i, it);
      assert items[i := it][..n] == items[..n][i := it];
    }
  }

  lemma TallyNext(q: Query, items: seq<Item>, it: Item)
    ensures Tally(q, items + [it]) == Tally(q, items) + Share(q, it)
  {
    assert (items + [it])[..|items|] == items;
  }

  lemma {:induction false} TallyConcat(q: Query, a: seq<Item>, b: seq<Item>)
    ensures Tally(q, a + b) == Tally(q, a) + Tally(q, b)
  {
    if b == [] {
      assert a + b == a;
    } else {
      var n := |b| - 1;
      TallyConcat(q, a, b[..n]);
      assert (a + b)[..|a + b| - 1] == a + b[..n];
    }
  }

  lemma {:induction false} TallyPointwise(q: Query, a: seq<Item>, b: seq<Item>)
    requires |a| == |b|
    ensures (forall i | 0 <= i < |a| :: Share(q, a[i]) == Share(q, b[i])) ==> Tally(q, a) == Tally(q, b)
    ensures (forall i | 0 <= i < |a| :: Share(q, a[i]) >= Share(q, b[i])) ==> Tally(q, a) >= Tally(q, b)
  {
    if a != [] {
      var n := |a| - 1;
      TallyPointwise(q, a[..n], b[..n]);
    }
  }

  lemma {:induction false} TallyPositive(q: Query, items: seq<Item>)
    ensures Tally(q, items) > 0 <==> exists i :: 0 <= i < |items| && Share(q, items[i]) > 0
  {
    if items != [] {
      var n := |items| - 1;
      TallyPositive(q, items[..n]);
      if Tally(q, items[..n]) > 0 {
        var i :| 0 <= i < n && Share(q, items[..n][i]) > 0;
        assert Share(q, items[i]) > 0;
      }
      if i :| 0 <= i < |items| && Share(q, items[i]) > 0 {
        if i < n {
          assert Share(q, items[..n][i]) > 0;
        }
      }
    }
  }

  lemma {:induction false} NewItemsFresh(j: JobId, requested: seq<Option<HostId>>)
    ensures |NewItems(j, requested)| <= |requested|
    ensures forall i | 0 <= i < |NewItems(j, requested)| ::
              exists h :: NewItems(j, requested)[i] == NewItem(j, h)
  {
    if requested != [] {
      NewItemsFresh(j, requested[..|requested| - 1]);
    }
  }

  lemma {:induction false} TallyAllZero(q: Query, items: seq<Item>)
    requires forall i | 0 <= i < |items| :: Share(q, items[i]) == 0
    ensures Tally(q, items) == 0
  {
    if items != [] {
      TallyAllZero(q, items[..|items| - 1]);
    }
  }

  // ---------------------------------------------------------------- the invariant

  /** What one item's row, history and program counter say about each other. */
  predicate ItemOk(it: Item) {
    && (it.status.Finished? <==> it.first.Some?)
    && (it.first.Some? ==> it.status == Finished(if it.rewritten then Error else it.first.value))
    && (it.rewritten ==> it.first.Some? && (it.pc.ReportingFailure? || it.pc.Releasing? || it.pc.Ended?))
    && (it.pc.Unspawned? ==> it.status == Queued)
    && (PcWork(it.pc) >= 5 ==> it.first.None?)
    && (it.pc.Reporting? || it.pc.ReportingFailure? ==> it.first.Some?)
  }

  /** The counters of a job against a recount of its items: every overwritten result is
      counted a second time, as an error. */
  ghost predicate CountersOk(s: State, j: JobId)
    requires j < |s.jobs|
  {
    var job := s.jobs[j];
    && job.completed == Tally(Terminal(j), s.items) + Tally(Rewritten(j), s.items)
    && CounterOk(s, j, Success) && CounterOk(s, j, Error) && CounterOk(s, j, Skipped)
    && job.completed == job.success + job.error + job.skipped
  }

  ghost predicate CounterOk(s: State, j: JobId, o: Outcome)
    requires j < |s.jobs|
  {
    Counter(s.jobs[j], o) == Tally(Having(j, o), s.items) + Tally(RewrittenFrom(j, o), s.items)
  }

  function Counter(job: Job, o: Outcome): nat {
    match o
    case Success => job.success
    case Error => job.error
    case Skipped => job.skipped
  }

  ghost predicate AllUnspawned(items: seq<Item>, j: JobId) {
    forall i | 0 <= i < |items| && items[i].job == j :: items[i].pc.Unspawned?
  }

  ghost predicate NoneUnspawned(items: seq<Item>, j: JobId) {
    forall i | 0 <= i < |items| && items[i].job == j :: !items[i].pc.Unspawned?
  }

  ghost predicate AllEnded(items: seq<Item>, j: JobId) {
    forall i | 0 <= i < |items| && items[i].job == j :: items[i].pc.Ended?
  }

  /** What a job's program counter and status say about its items. */
  ghost predicate PhaseOk(s: State, j: JobId)
    requires j < |s.jobs|
  {
    var job := s.jobs[j];
    && (job.pc.Created? || job.pc.AnnouncingStart? || job.pc.Spawning? ==> AllUnspawned(s.items, j))
    && (job.pc.Gathering? ==> NoneUnspawned(s.items, j))
    && (job.pc.AnnouncingEnd? ==> AllEnded(s.items, j) && job.status == Verdict(job))
    && (job.pc.Crashing? || job.pc.CleaningUp? || job.pc.Done? ==>
          AllUnspawned(s.items, j) || AllEnded(s.items, j))
    && (job.status.Completed? || job.status.Partial? ==> AllEnded(s.items, j) && job.status == Verdict(job))
  }

  ghost predicate PermitsOk(s: State, h: HostId) {
    Available(s.permits, h) + Tally(HoldingOn(h), s.items) == PERMITS_PER_HOST
  }

  ghost predicate ItemsOk(s: State) {
    forall i | 0 <= i < |s.items| :: s.items[i].job < |s.jobs| && ItemOk(s.items[i])
  }

  ghost predicate ActiveOk(s: State) {
    s.active == set j | 0 <= j < |s.jobs| && !s.jobs[j].pc.Done?
  }

  ghost predicate Inv(s: State) {
    && ItemsOk(s)
    && (forall j | 0 <= j < |s.jobs| :: CountersOk(s, j) && PhaseOk(s, j))
    && (forall h :: PermitsOk(s, h))
    && ActiveOk(s)
  }

  /** Counters stay right when neither they nor the tallies they are compared with change. */
  lemma CountersFrame(s: State, s': State, j: JobId)
    requires j < |s.jobs| && j < |s'.jobs| && CountersOk(s, j)
    requires s'.jobs[j] == s.jobs[j].(status := s'.jobs[j].status, pc := s'.jobs[j].pc)
    requires forall q: Query | !q.ItemWork? :: Tally(q, s'.items) == Tally(q, s.items)
    ensures CountersOk(s', j)
  {
    assert CounterOk(s', j, Success) && CounterOk(s', j, Error) && CounterOk(s', j, Skipped);
  }

  lemma CreateTallies(s: State, requested: seq<Option<HostId>>, q: Query)
    requires !q.ItemWork?
    ensures Tally(q, ApplyCreate(s, requested).items) == Tally(q, s.items)
  {
    var added := NewItems(|s.jobs|, requested);
    NewItemsFresh(|s.jobs|, requested);
    TallyConcat(q, s.items, added);
    TallyAllZero(q, added);
  }

  lemma CreateItems(s: State, requested: seq<Option<HostId>>)
    requires ItemsOk(s)
    ensures ItemsOk(ApplyCreate(s, requested))
    ensures AllUnspawned(ApplyCreate(s, requested).items, |s.jobs|)
  {
    var s' := ApplyCreate(s, requested);
    NewItemsFresh(|s.jobs|, requested);
    forall i | 0 <= i < |s'.items|
      ensures s'.items[i].job < |s'.jobs| && ItemOk(s'.items[i])
      ensures s'.items[i].job == |s.jobs| ==> s'.items[i].pc.Unspawned?
    {
      if i >= |s.items| {
        assert s'.items[i] == NewItems(|s.jobs|, requested)[i - |s.items|];
      }
    }
  }

  /** No item refers to a job that does not exist yet. */
  lemma NoItemsYet(s: State, q: Query)
    requires ItemsOk(s)
    requires q.Terminal? || q.Having? || q.Rewritten? || q.RewrittenFrom?
    requires q.j == |s.jobs|
    ensures Tally(q, s.items) == 0
  {
    TallyAllZero(q, s.items);
  }

  lemma CreatePhase(s: State, requested: seq<Option<HostId>>, j: JobId)
    requires ItemsOk(s) && j < |s.jobs| && PhaseOk(s, j)
    ensures PhaseOk(ApplyCreate(s, requested), j)
  {
    var s' := ApplyCreate(s, requested);
    NewItemsFresh(|s.jobs|, requested);
    assert s'.jobs[j] == s.jobs[j];
    assert forall i | 0 <= i < |s'.items| && s'.items[i].job == j :: i < |s.items| by {
      assert forall i | |s.items| <= i < |s'.items| ::
          s'.items[i] == NewItems(|s.jobs|, requested)[i - |s.items|];
    }
  }

  lemma CreateKeepsInv(s: State, requested: seq<Option<HostId>>)
    requires Inv(s)
    ensures Inv(ApplyCreate(s, requested))
  {
    var s' := ApplyCreate(s, requested);
    var k := |s.jobs|;
    CreateItems(s, requested);
    forall q: Query | !q.ItemWork? ensures Tally(q, s'.items) == Tally(q, s.items) {
      CreateTallies(s, requested, q);
    }
    forall j | 0 <= j < |s'.jobs| ensures CountersOk(s', j) && PhaseOk(s', j) {
      if j < k {
        CountersFrame(s, s', j);
        CreatePhase(s, requested, j);
      } else {
        NoItemsYet(s, Terminal(k));
        NoItemsYet(s, Rewritten(k));
        forall o ensures CounterOk(s', k, o) {
          NoItemsYet(s, Having(k, o));
          NoItemsYet(s, RewrittenFrom(k, o));
        }
      }
    }
    forall h ensures PermitsOk(s', h) {
      assert PermitsOk(s, h);
    }
  }

  lemma JobTallies(s: State, j: JobId, ok: bool, q: Query)
    requires j < |s.jobs| && !q.ItemWork?
    ensures Tally(q, ApplyJob(s, j, ok).items) == Tally(q, s.items)
  {
    TallyPointwise(q, s.items, ApplyJob(s, j, ok).items);
  }

  lemma JobPhase(s: State, j: JobId, ok: bool, k: JobId)
    requires ItemsOk(s) && Enabled(s, JobStep(j, ok)) && k < |s.jobs| && PhaseOk(s, k)
    ensures PhaseOk(ApplyJob(s, j, ok), k)
  {
    var s' := ApplyJob(s, j, ok);
    if s.jobs[j].pc.Spawning? {
      if k == j {
        assert AllUnspawned(s.items, j);
        assert NoneUnspawned(s'.items, j);
      }
    }
  }

  lemma JobKeepsInv(s: State, j: JobId, ok: bool)
    requires Inv(s) && Enabled(s, JobStep(j, ok))
    ensures Inv(ApplyJob(s, j, ok))
  {
    var s' := ApplyJob(s, j, ok);
    forall q: Query | !q.ItemWork? ensures Tally(q, s'.items) == Tally(q, s.items) {
      JobTallies(s, j, ok, q);
    }
    forall k | 0 <= k < |s'.jobs| ensures CountersOk(s', k) && PhaseOk(s', k) {
      CountersFrame(s, s', k);
      JobPhase(s, j, ok, k);
    }
    forall h ensures PermitsOk(s', h) {
      assert PermitsOk(s, h);
    }
  }

  /** A step moves an item between the tallies exactly as it moves the job's counters. */
  lemma StepShares(it: Item, ok: bool, outcome: Outcome, j: JobId, o: Outcome)
    requires ItemOk(it)
    ensures var it' := Advance(it, ok, outcome);
            && Share(Having(j, o), it') + Share(RewrittenFrom(j, o), it')
               == Share(Having(j, o), it) + Share(RewrittenFrom(j, o), it)
                  + Bit(it.job == j && Counted(it, ok) == Some(o))
            && Share(Terminal(j), it') + Share(Rewritten(j), it')
               == Share(Terminal(j), it) + Share(Rewritten(j), it) + Bit(it.job == j && Counted(it, ok).Some?)
  {
  }

  lemma CountIntoCounter(jobs: seq<Job>, k: JobId, counted: Option<Outcome>, j: JobId, o: Outcome)
    requires j < |jobs| && k < |jobs|
    ensures Counter(CountInto(jobs, k, counted)[j], o) == Counter(jobs[j], o) + Bit(k == j && counted == Some(o))
    ensures CountInto(jobs, k, counted)[j].completed == jobs[j].completed + Bit(k == j && counted.Some?)
  {
  }

  lemma ItemKeepsCounter(s: State, i: ItemId, ok: bool, outcome: Outcome, j: JobId, o: Outcome)
    requires ItemsOk(s) && Enabled(s, ItemStep(i, ok, outcome)) && j < |s.jobs| && CounterOk(s, j, o)
    ensures CounterOk(ApplyItem(s, i, ok, outcome), j, o)
  {
    var it := s.items[i];
    var it' := Advance(it, ok, outcome);
    TallyUpdate(Having(j, o), s.items, i, it');
    TallyUpdate(RewrittenFrom(j, o), s.items, i, it');
    StepShares(it, ok, outcome, j, o);
    CountIntoCounter(s.jobs, it.job, Counted(it, ok), j, o);
  }

  lemma ItemKeepsCompleted(s: State, i: ItemId, ok: bool, outcome: Outcome, j: JobId)
    requires ItemsOk(s) && Enabled(s, ItemStep(i, ok, outcome)) && j < |s.jobs|
    requires s.jobs[j].completed == Tally(Terminal(j), s.items) + Tally(Rewritten(j), s.items)
    ensures var s' := ApplyItem(s, i, ok, outcome);
            s'.jobs[j].completed == Tally(Terminal(j), s'.items) + Tally(Rewritten(j), s'.items)
  {
    var it := s.items[i];
    var it' := Advance(it, ok, outcome);
    TallyUpdate(Terminal(j), s.items, i, it');
    TallyUpdate(Rewritten(j), s.items, i, it');
    StepShares(it, ok, outcome, j, Success);
    CountIntoCounter(s.jobs, it.job, Counted(it, ok), j, Success);
  }

  lemma ItemKeepsCounters(s: State, i: ItemId, ok: bool, outcome: Outcome, j: JobId)
    requires ItemsOk(s) && Enabled(s, ItemStep(i, ok, outcome)) && j < |s.jobs| && CountersOk(s, j)
    ensures CountersOk(ApplyItem(s, i, ok, outcome), j)
  {
    ItemKeepsCompleted(s, i, ok, outcome, j);
    ItemKeepsCounter(s, i, ok, outcome, j, Success);
    ItemKeepsCounter(s, i, ok, outcome, j, Error);
    ItemKeepsCounter(s, i, ok, outcome, j, Skipped);
  }

  lemma ItemPhase(s: State, i: ItemId, ok: bool, outcome: Outcome, j: JobId)
    requires Enabled(s, ItemStep(i, ok, outcome)) && j < |s.jobs| && PhaseOk(s, j)
    ensures PhaseOk(ApplyItem(s, i, ok, outcome), j)
  {
    var s' := ApplyItem(s, i, ok, outcome);
    assert s'.jobs[j].pc == s.jobs[j].pc && s'.jobs[j].status == s.jobs[j].status;
    if s.items[i].job == j {
      assert !AllUnspawned(s.items, j) && !AllEnded(s.items, j);
    } else {
      assert s'.jobs[j] == s.jobs[j];
    }
  }

  lemma ItemKeepsPermits(s: State, i: ItemId, ok: bool, outcome: Outcome, h: HostId)
    requires Enabled(s, ItemStep(i, ok, outcome)) && PermitsOk(s, h)
    ensures PermitsOk(ApplyItem(s, i, ok, outcome), h)
  {
    TallyUpdate(HoldingOn(h), s.items, i, Advance(s.items[i], ok, outcome));
  }

  lemma ItemKeepsItems(s: State, i: ItemId, ok: bool, outcome: Outcome)
    requires ItemsOk(s) && Enabled(s, ItemStep(i, ok, outcome))
    ensures ItemsOk(ApplyItem(s, i, ok, outcome))
  {
    assert ItemOk(s.items[i]) && ItemOk(Advance(s.items[i], ok, outcome));
  }

  lemma ItemKeepsInv(s: State, i: ItemId, ok: bool, outcome: Outcome)
    requires Inv(s) && Enabled(s, ItemStep(i, ok, outcome))
    ensures Inv(ApplyItem(s, i, ok, outcome))
  {
    var s' := ApplyItem(s, i, ok, outcome);
    ItemKeepsItems(s, i, ok, outcome);
    forall j | 0 <= j < |s'.jobs| ensures CountersOk(s', j) && PhaseOk(s', j) {
      ItemKeepsCounters(s, i, ok, outcome, j);
      ItemPhase(s, i, ok, outcome, j);
    }
    forall h ensures PermitsOk(s', h) {
      assert PermitsOk(s, h);
      ItemKeepsPermits(s, i, ok, outcome, h);
    }
    assert forall j | 0 <= j < |s.jobs| :: s'.jobs[j].pc == s.jobs[j].pc;
  }

  lemma {:induction false} Reachable(schedule: seq<Action>)
    ensures Inv(Exec(Init(), schedule))
  {
    if schedule != [] {
      var prefix, a := schedule[..|schedule| - 1], schedule[|schedule| - 1];
      Reachable(prefix);
      var s := Exec(Init(), prefix);
      if Enabled(s, a) {
        match a
        case Create(requested) => CreateKeepsInv(s, requested);
        case JobStep(j, ok) => JobKeepsInv(s, j, ok);
        case ItemStep(i, ok, outcome) => ItemKeepsInv(s, i, ok, outcome);
      }
    }
  }
}
