/**
  What becomes of every retry row while any number of sends, retries and evaluations run
  interleaved: its own history alone decides, by the law of a single row.
*/
module RetryResults {
  import opened Wrappers
  import opened RetryQueue
  import opened SendMachine
  import opened SendResults

  // ---------------------------------------------------------------- the history of a row

  /** What the step does to the row, if anything: a send of its alert requeues it, or its own
      retry ends. When the requeue's block fails, the retry counts like one that never sent. */
  function EventOn(s: State, a: Action, id: RowId): Option<RowEvent>
    requires Enabled(s, a) && id in s.rows
  {
    if !a.Check? && !a.Dispatch? then None
    else
      match Ending(s, a)
      case None => None
      case Some(e) =>
        var task := s.tasks[a.task];
        var requeued := e.verdict.AllFailed? && a.db.queue && s.rows[id].alert == task.alert;
        if task.caller == Retrying(id) && a.db.book then
          Some(Attempted(if e.verdict.AllFailed? && !requeued then Unsent else e.verdict, a.at))
        else if requeued then Some(Requeued(a.at))
        else None
  }

  datatype Log = Log(alert: AlertId, queuedAt: int, events: seq<RowEvent>)

  function Appended(log: Log, e: Option<RowEvent>): Log {
    if e.Some? then log.(events := log.events + [e.value]) else log
  }

  /** The history of row number id: when and for which alert it was queued, and its events
      for as long as it was in the table. */
  function LogOf(schedule: seq<Action>, id: RowId): Option<Log> {
    if schedule == [] then None
    else
      var last := |schedule| - 1;
      var s, a, log := Exec(schedule[..last]), schedule[last], LogOf(schedule[..last], id);
      if !Enabled(s, a) then log
      else if log.Some? then
        (if id in s.rows then Some(Appended(log.value, EventOn(s, a, id))) else log)
      else if s.nextId <= id < Apply(s, a).nextId && a.Dispatch? then Some(Log(s.tasks[a.task].alert, a.at, []))
      else None
  }

  function RowOf(s: State, id: RowId): Option<Retry> {
    if id in s.rows then Some(s.rows[id]) else None
  }

  function FateOf(log: Log): Option<Retry> {
    Fate(NewRow(log.alert, log.queuedAt), log.events)
  }

  // ---------------------------------------------------------------- one step

  lemma RowNext(s: State, a: Action, id: RowId)
    requires Inv(s) && Enabled(s, a) && id in s.rows
    ensures var e := EventOn(s, a, id);
            RowOf(Apply(s, a), id) == if e.Some? then After(Some(s.rows[id]), e.value) else Some(s.rows[id])
  {
    if (a.Check? || a.Dispatch?) && Ending(s, a).Some? {
      var e, task := Ending(s, a).value, s.tasks[a.task];
      assert TaskOk(s, a.task);
      RowQueued(s, id, task.alert, e.verdict, a.at, a.db);
      RowRecorded(RowsQueued(s, task.alert, e.verdict, a.at, a.db), id, task.caller, e.verdict, a.at, a.db);
    }
  }

  /** What a call that ends leaves of the row before its caller takes over. */
  lemma RowQueued(s: State, id: RowId, alert: AlertId, v: Verdict, at: int, db: Db)
    requires RowsOk(s.rows, s.nextId) && id in s.rows
    ensures var rows := RowsQueued(s, alert, v, at, db);
            id in rows &&
            rows[id] == if v.AllFailed? && db.queue && s.rows[id].alert == alert then Requeue(s.rows[id], at)
                        else s.rows[id]
  {
    QueuedRows(s.rows, s.nextId, alert, at);
  }

  /** What the caller leaves of it. */
  lemma RowRecorded(rows: map<RowId, Retry>, id: RowId, caller: Caller, v: Verdict, at: int, db: Db)
    requires id in rows
    ensures var rows' := RowsRecorded(rows, caller, v, at, db);
            (if id in rows' then Some(rows'[id]) else None) ==
            if caller == Retrying(id) && db.book then Record(rows[id], v.Delivered?, at) else Some(rows[id])
  {
  }

  lemma RowStaysAway(s: State, a: Action, id: RowId)
    requires Inv(s) && Enabled(s, a) && id !in s.rows && id < s.nextId
    ensures id !in Apply(s, a).rows
  {
    if (a.Check? || a.Dispatch?) && Ending(s, a).Some? {
      ConcludeRows(s, a.task, Ending(s, a).value, a.at, a.db);
    }
  }

  lemma RowBorn(s: State, a: Action)
    requires Inv(s) && Enabled(s, a)
    ensures s.nextId <= Apply(s, a).nextId <= s.nextId + 1
    ensures Apply(s, a).nextId == s.nextId + 1 ==>
              a.Dispatch? && RowOf(Apply(s, a), s.nextId) == Some(NewRow(s.tasks[a.task].alert, a.at))
  {
    if (a.Check? || a.Dispatch?) && Ending(s, a).Some? {
      assert TaskOk(s, a.task);
    }
  }

  lemma FateNext(log: Log, e: RowEvent)
    ensures FateOf(Appended(log, Some(e))) == After(FateOf(log), e)
  {
    assert (log.events + [e])[..|log.events|] == log.events;
  }

  /** In every interleaving each row that was ever queued is what the law of a single row
      makes of its own history, whatever happened to other rows and alerts. */
  lemma {:induction false} RowFollowsLaw(schedule: seq<Action>, id: RowId)
    ensures LogOf(schedule, id).Some? <==> id < Exec(schedule).nextId
    ensures LogOf(schedule, id).Some? ==> RowOf(Exec(schedule), id) == FateOf(LogOf(schedule, id).value)
    ensures LogOf(schedule, id).None? ==> RowOf(Exec(schedule), id) == None
  {
    if schedule == [] {
      assert Exec(schedule) == Init();
    } else {
      var last := |schedule| - 1;
      var s, a := Exec(schedule[..last]), schedule[last];
      RowFollowsLaw(schedule[..last], id);
      Reachable(schedule[..last]);
      if Enabled(s, a) {
        RowBorn(s, a);
        StepKeepsInv(s, a);
        var log := LogOf(schedule[..last], id);
        if id in s.rows {
          RowNext(s, a, id);
          if EventOn(s, a, id).Some? {
            FateNext(log.value, EventOn(s, a, id).value);
          }
        } else if id < s.nextId {
          RowStaysAway(s, a, id);
        }
      }
    }
  }

  /** A row is still queued exactly if no retry of it delivered and no five retries in a row
      went by without a requeue; its stored count is the number of retries since the last. */
  lemma RowDroppedIff(schedule: seq<Action>, id: RowId)
    requires id < Exec(schedule).nextId
    ensures LogOf(schedule, id).Some?
    ensures var s, events := Exec(schedule), LogOf(schedule, id).value.events;
            && (id in s.rows <==> Survives(events))
            && (id in s.rows ==> s.rows[id].attempts == Level(events))
  {
    RowFollowsLaw(schedule, id);
    var log := LogOf(schedule, id).value;
    RowLaw(log.alert, log.queuedAt, log.events);
  }

  // ---------------------------------------------------------------- timeliness

  predicate LastRequeued(events: seq<RowEvent>) {
    events != [] && events[|events| - 1].Requeued?
  }

  /** The n-th event came to a row that was still there and, if it is a retry, not before the
      row was due, unless the row was requeued while the retry was under way. */
  predicate EventTimely(log: Log, n: nat)
    requires n < |log.events|
  {
    var row := Fate(NewRow(log.alert, log.queuedAt), log.events[..n]);
    && row.Some?
    && (log.events[n].Attempted? ==> log.events[n].t >= row.value.due || LastRequeued(log.events[..n]))
  }

  ghost predicate LogTimely(log: Log) {
    forall n | 0 <= n < |log.events| :: EventTimely(log, n)
  }

  /** The call is under way and retries the row. */
  predicate Retries(s: State, t: TaskId, id: RowId)
    requires t < |s.tasks|
  {
    s.tasks[t].caller == Retrying(id) && !s.tasks[t].pc.Over?
  }

  /** While a retry is under way its row has come due, or was requeued meanwhile. */
  ghost predicate RetriesTimely(s: State, log: Log, id: RowId) {
    id in s.rows ==>
      forall t | 0 <= t < |s.tasks| && Retries(s, t, id) :: s.rows[id].due <= s.clock || LastRequeued(log.events)
  }

  lemma LogTimelyNext(log: Log, e: RowEvent)
    requires LogTimely(log) && FateOf(log).Some?
    requires e.Attempted? ==> e.t >= FateOf(log).value.due || LastRequeued(log.events)
    ensures LogTimely(Appended(log, Some(e)))
  {
    var longer := Appended(log, Some(e));
    forall n | 0 <= n < |longer.events| ensures EventTimely(longer, n) {
      if n < |log.events| {
        assert longer.events[..n] == log.events[..n];
        assert EventTimely(log, n);
      } else {
        assert longer.events[..n] == log.events;
      }
    }
  }

  /** A step that leaves the row alone. */
  lemma TimelyWithoutEvent(s: State, a: Action, log: Log, id: RowId)
    requires Inv(s) && Enabled(s, a) && id in s.rows && EventOn(s, a, id).None?
    requires RetriesTimely(s, log, id)
    ensures RetriesTimely(Apply(s, a), log, id)
  {
    var s' := Apply(s, a);
    RowNext(s, a, id);
    ClockGrows(s, a);
    forall t | 0 <= t < |s'.tasks| && Retries(s', t, id)
      ensures s'.rows[id].due <= s'.clock || LastRequeued(log.events)
    {
      if t < |s.tasks| {
        assert Retries(s, t, id);
      } else if a.StartPass? {
        PassTasksOk(s.rows, s.alerts, a.at, s.nextId);
        assert PassTaskOk(PassTasks(s.rows, s.alerts, a.at, s.nextId)[t - |s.tasks|], s.rows, s.alerts, a.at, s.nextId);
      }
    }
  }

  /** A step that ends the row's retry or requeues the row. */
  lemma TimelyWithEvent(s: State, a: Action, log: Log, id: RowId)
    requires Inv(s) && Enabled(s, a) && id in s.rows && EventOn(s, a, id).Some?
    requires RetriesTimely(s, log, id) && FateOf(log) == Some(s.rows[id]) && LogTimely(log)
    ensures var log' := Appended(log, EventOn(s, a, id));
            RetriesTimely(Apply(s, a), log', id) && LogTimely(log')
  {
    var s', e := Apply(s, a), EventOn(s, a, id).value;
    if e.Attempted? {
      assert Retries(s, a.task, id);
      forall t | 0 <= t < |s'.tasks| ensures !Retries(s', t, id) {
      }
    }
    LogTimelyNext(log, e);
  }

  lemma NoRetryOfNewRow(s: State, id: RowId, t: TaskId)
    requires Inv(s) && t < |s.tasks| && id >= s.nextId
    ensures !Retries(s, t, id)
  {
    assert TaskOk(s, t);
  }

  lemma {:induction false} HistoriesTimely(schedule: seq<Action>, id: RowId)
    requires LogOf(schedule, id).Some?
    ensures LogTimely(LogOf(schedule, id).value)
    ensures RetriesTimely(Exec(schedule), LogOf(schedule, id).value, id)
  {
    var last := |schedule| - 1;
    var s, a, log := Exec(schedule[..last]), schedule[last], LogOf(schedule[..last], id);
    Reachable(schedule[..last]);
    RowFollowsLaw(schedule[..last], id);
    if log.Some? {
      HistoriesTimely(schedule[..last], id);
      if Enabled(s, a) {
        if id !in s.rows {
          RowStaysAway(s, a, id);
        } else if EventOn(s, a, id).None? {
          TimelyWithoutEvent(s, a, log.value, id);
        } else {
          TimelyWithEvent(s, a, log.value, id);
        }
      }
    } else {
      var s' := Apply(s, a);
      forall t | 0 <= t < |s'.tasks| ensures !Retries(s', t, id) {
        NoRetryOfNewRow(s, id, t);
      }
    }
  }

  // ---------------------------------------------------------------- the two fates

  lemma TimelyWithoutRequeues(log: Log)
    requires LogTimely(log) && forall n | 0 <= n < |log.events| :: log.events[n].Attempted?
    ensures Timely(NewRow(log.alert, log.queuedAt), log.events)
  {
    forall n | 0 <= n < |log.events| && Fate(NewRow(log.alert, log.queuedAt), log.events[..n]).Some?
      ensures log.events[n].t >= Fate(NewRow(log.alert, log.queuedAt), log.events[..n]).value.due
    {
      assert EventTimely(log, n);
    }
  }

  function TimesOf(events: seq<RowEvent>): (ts: seq<int>)
    ensures |ts| == |events| && forall k | 0 <= k < |ts| :: ts[k] == events[k].t
  {
    seq(|events|, k requires 0 <= k < |events| => events[k].t)
  }

  /** A row whose retries neither send nor requeue is retried five times at most, and is gone
      exactly after the fifth, at least the whole schedule after it was queued. */
  lemma UnsentRowGivesUp(schedule: seq<Action>, id: RowId)
    requires LogOf(schedule, id).Some?
    requires forall n | 0 <= n < |LogOf(schedule, id).value.events| ::
               LogOf(schedule, id).value.events[n].Attempted? && LogOf(schedule, id).value.events[n].v.Unsent?
    ensures var log := LogOf(schedule, id).value;
            && |log.events| <= 5
            && (id in Exec(schedule).rows <==> |log.events| < 5)
            && (|log.events| == 5 ==> log.events[4].t - log.queuedAt >= 60 + 300 + 900 + 3600 + 21600)
  {
    var log := LogOf(schedule, id).value;
    var row := NewRow(log.alert, log.queuedAt);
    RowFollowsLaw(schedule, id);
    HistoriesTimely(schedule, id);
    TimelyWithoutRequeues(log);
    LevelOfUnsent(log.events);
    RowLaw(log.alert, log.queuedAt, log.events);
    if |log.events| >= 5 {
      var five := log.events[..5];
      TimelyPrefix(row, log.events, 5);
      assert five == Skips(TimesOf(five));
      GivesUpAfterFive(log.alert, log.queuedAt, TimesOf(five));
      assert |log.events| > 5 ==> EventTimely(log, 5);
    }
  }

  lemma {:induction false} LevelOfUnsent(events: seq<RowEvent>)
    requires forall n | 0 <= n < |events| :: events[n].Attempted? && events[n].v.Unsent?
    ensures Level(events) == |events|
    ensures |events| < MAX_RETRIES ==> Survives(events)
  {
    if events != [] {
      var n := |events| - 1;
      LevelOfUnsent(events[..n]);
      SurvivesNext(events);
    }
  }

  /** A row whose retries fail on all channels stays in the queue for ever, at count one, and
      is retried every five minutes or more. */
  lemma FailingRowStays(schedule: seq<Action>, id: RowId)
    requires LogOf(schedule, id).Some?
    requires forall n | 0 <= n < |LogOf(schedule, id).value.events| ::
               LogOf(schedule, id).value.events[n].Attempted? && LogOf(schedule, id).value.events[n].v.AllFailed?
    ensures var s, events := Exec(schedule), LogOf(schedule, id).value.events;
            && id in s.rows
            && (events != [] ==> s.rows[id].attempts == 1)
            && (forall n | 0 < n < |events| :: events[n].t >= events[n - 1].t + 300)
  {
    var log := LogOf(schedule, id).value;
    RowFollowsLaw(schedule, id);
    HistoriesTimely(schedule, id);
    TimelyWithoutRequeues(log);
    NeverGivesUp(log.alert, log.queuedAt, log.events);
  }

  /** At any time an alert has one retry row at most, and every stored count is 0 to 4. */
  lemma OneRow(schedule: seq<Action>, a: RowId, b: RowId)
    requires a in Exec(schedule).rows && b in Exec(schedule).rows
    ensures Exec(schedule).rows[a].alert == Exec(schedule).rows[b].alert ==> a == b
    ensures 0 <= Exec(schedule).rows[a].attempts <= 4
  {
    Reachable(schedule);
  }
}
