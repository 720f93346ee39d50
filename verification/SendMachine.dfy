/**
  Sending alerts in backend/notifications.py as a state machine: any number of calls of
  send_alert_v2 run interleaved, made directly, by the retry loop or by the evaluation service.

  A caller holds a snapshot of the alert row; the duplicate check reads the snapshot. From the
  check on, the call is at an await for each channel, and what follows the last channel (the
  requeue or the note on the alert row, and what the caller writes about the outcome) is one
  step, without an await in between. Which channels answer, which database blocks commit and
  all times are part of the step.
*/
module SendMachine {
  import opened Wrappers
  import opened RetryQueue

  type TaskId = nat

  const DUPLICATE_WINDOW: int := 5

  datatype Alert = Alert(notifiedAt: Option<int>, notifications: nat, resolved: bool, suppressed: bool)

  /** `channels`: how many are configured, or None when the rule's list does not parse. */
  datatype Rule = Rule(channels: Option<nat>, autoResolve: bool)

  /** Which database blocks commit, and whether the evaluation service gives up after a day. */
  datatype Db = Db(queue: bool, note: bool, book: bool, giveUp: bool)

  datatype Caller = Direct | Evaluating | Retrying(row: RowId)

  datatype Pc =
    | Ready                       // holds its snapshot
    | Sending(left: nat, successes: nat, autoResolve: bool, checkedAt: int)
    | Over(verdict: Verdict)

  /** `seen`: the snapshot's notified_at. */
  datatype Task = Task(alert: AlertId, caller: Caller, seen: Option<int>, pc: Pc)

  datatype State = State(alerts: map<AlertId, Alert>, rows: map<RowId, Retry>, nextId: RowId, tasks: seq<Task>,
                         clock: int)

  datatype Action =
    | Raise(alert: AlertId)                       // a new alert
    | Clear(alert: AlertId)                       // the engine resets notified_at
    | Call(alert: AlertId, evaluating: bool)      // takes a snapshot
    | StartPass(at: int)                          // the retry loop takes snapshots for all due rows
    | Check(task: TaskId, at: int, rule: Option<Rule>, blackout: bool, prepared: bool, db: Db)
    | Dispatch(task: TaskId, at: int, ok: bool, db: Db)  // one channel has answered

  function Init(): State {
    State(map[], map[], 0, [], 0)
  }

  predicate Idle(tasks: seq<Task>) {
    forall t | 0 <= t < |tasks| :: tasks[t].caller.Retrying? ==> tasks[t].pc.Over?
  }

  predicate Enabled(s: State, a: Action) {
    match a
    case Raise(alert) => alert !in s.alerts
    case Clear(alert) => alert in s.alerts
    case Call(alert, _) => alert in s.alerts
    case StartPass(at) => at >= s.clock && Idle(s.tasks)  // there is one loop, and it awaits its sends
    case Check(t, at, _, _, _, _) =>
      t < |s.tasks| && s.tasks[t].alert in s.alerts && s.tasks[t].pc.Ready? && at >= s.clock
    case Dispatch(t, at, _, _) =>
      t < |s.tasks| && s.tasks[t].alert in s.alerts && s.tasks[t].pc.Sending? && at >= s.clock
  }

  // ---------------------------------------------------------------- one call

  /** The duplicate check, on the snapshot. */
  predicate Duplicate(seen: Option<int>, now: int) {
    seen.Some? && now - seen.value < DUPLICATE_WINDOW
  }

  /** How a call ends. `permanent`: the evaluation service will not try again. */
  datatype End = End(verdict: Verdict, checkedAt: int, autoResolve: bool, suppress: bool, permanent: bool)

  predicate NoChannels(rule: Option<Rule>) {
    rule.None? || rule.value.channels.None? || rule.value.channels.value == 0
  }

  /** How the call ends in this step, if it does. */
  function Ending(s: State, a: Action): Option<End>
    requires Enabled(s, a)
  {
    match a
    case Check(t, at, rule, blackout, prepared, _) =>
      if Duplicate(s.tasks[t].seen, at) then Some(End(Unsent, at, false, false, NoChannels(rule)))
      else if NoChannels(rule) then Some(End(Unsent, at, false, false, true))
      else if blackout then Some(End(Unsent, at, false, true, false))
      else if !prepared then Some(End(Unsent, at, false, false, false))
      else None
    case Dispatch(t, _, ok, _) =>
      var pc := s.tasks[t].pc;
      if pc.left > 1 then None
      else Some(End(if ok || pc.successes > 0 then Delivered else AllFailed, pc.checkedAt, pc.autoResolve, false, false))
    case _ => None
  }

  /** The alert row when the call has ended. */
  function AlertAfter(alert: Alert, caller: Caller, e: End, at: int, db: Db): Alert {
    var noted :=
      if e.verdict.Delivered? && db.note then
        alert.(notifiedAt := Some(at), notifications := alert.notifications + 1,
               resolved := alert.resolved || e.autoResolve)
      else if e.suppress then alert.(suppressed := true)
      else alert;
    if caller.Evaluating? && db.book then
      noted.(notifications := noted.notifications + 1,
             notifiedAt := if e.verdict.Delivered? || e.permanent || db.giveUp then Some(e.checkedAt)
                           else noted.notifiedAt)
    else noted
  }

  /** The rows after _queue_retry, if the call gets there. */
  function RowsQueued(s: State, alert: AlertId, v: Verdict, at: int, db: Db): map<RowId, Retry> {
    if v.AllFailed? && db.queue then Queued(s.rows, s.nextId, alert, at) else s.rows
  }

  function NextIdQueued(s: State, alert: AlertId, v: Verdict, db: Db): RowId {
    if v.AllFailed? && db.queue && !HasRow(s.rows, alert) then s.nextId + 1 else s.nextId
  }

  /** The rows after the retry loop has recorded the outcome, if it is the caller. */
  function RowsRecorded(rows: map<RowId, Retry>, caller: Caller, v: Verdict, at: int, db: Db): map<RowId, Retry> {
    if caller.Retrying? && db.book && caller.row in rows then
      var left := Record(rows[caller.row], v.Delivered?, at);
      if left.Some? then rows[caller.row := left.value] else rows - {caller.row}
    else rows
  }

  function Conclude(s: State, t: TaskId, e: End, at: int, db: Db): State
    requires t < |s.tasks| && s.tasks[t].alert in s.alerts
  {
    var task := s.tasks[t];
    State(s.alerts[task.alert := AlertAfter(s.alerts[task.alert], task.caller, e, at, db)],
          RowsRecorded(RowsQueued(s, task.alert, e.verdict, at, db), task.caller, e.verdict, at, db),
          NextIdQueued(s, task.alert, e.verdict, db),
          s.tasks[t := task.(pc := Over(e.verdict))],
          at)
  }

  /** Where a call stands that goes on. */
  function Onward(pc: Pc, a: Action): Pc {
    match a
    case Check(_, at, Some(Rule(Some(n), autoResolve)), _, _, _) => Sending(n, 0, autoResolve, at)
    case Dispatch(_, _, ok, _) =>
      (match pc
       case Sending(left, successes, autoResolve, checkedAt) =>
         Sending(if left > 0 then left - 1 else 0, if ok then successes + 1 else successes, autoResolve, checkedAt)
       case _ => pc)
    case _ => pc
  }

  function Proceed(s: State, a: Action): State
    requires Enabled(s, a) && (a.Check? || a.Dispatch?)
  {
    match Ending(s, a)
    case Some(e) => Conclude(s, a.task, e, a.at, a.db)
    case None =>
      s.(tasks := s.tasks[a.task := s.tasks[a.task].(pc := Onward(s.tasks[a.task].pc, a))], clock := a.at)
  }

  // ---------------------------------------------------------------- steps

  predicate Due(rows: map<RowId, Retry>, alerts: map<AlertId, Alert>, id: RowId, now: int) {
    id in rows && rows[id].due <= now && rows[id].alert in alerts
  }

  /** The calls of a pass, for the due rows below n. */
  function PassTasks(rows: map<RowId, Retry>, alerts: map<AlertId, Alert>, now: int, n: RowId): seq<Task> {
    if n == 0 then []
    else PassTasks(rows, alerts, now, n - 1) +
         if Due(rows, alerts, n - 1, now)
         then [Task(rows[n - 1].alert, Retrying(n - 1), alerts[rows[n - 1].alert].notifiedAt, Ready)]
         else []
  }

  function Apply(s: State, a: Action): State
    requires Enabled(s, a)
  {
    match a
    case Raise(alert) => s.(alerts := s.alerts[alert := Alert(None, 0, false, false)])
    case Clear(alert) => s.(alerts := s.alerts[alert := s.alerts[alert].(notifiedAt := None)])
    case Call(alert, evaluating) =>
      s.(tasks := s.tasks + [Task(alert, if evaluating then Evaluating else Direct, s.alerts[alert].notifiedAt, Ready)])
    case StartPass(at) => s.(tasks := s.tasks + PassTasks(s.rows, s.alerts, at, s.nextId), clock := at)
    case _ => Proceed(s, a)
  }

  /** Runs a schedule; a step that is not enabled when its turn comes is passed over. */
  function Exec(schedule: seq<Action>): State {
    if schedule == [] then Init()
    else
      var before := Exec(schedule[..|schedule| - 1]);
      var a := schedule[|schedule| - 1];
      if Enabled(before, a) then Apply(before, a) else before
  }

  // ---------------------------------------------------------------- the invariant

  ghost predicate TaskOk(s: State, t: TaskId)
    requires t < |s.tasks|
  {
    var task := s.tasks[t];
    && task.alert in s.alerts
    && (task.caller.Retrying? ==>
          task.caller.row < s.nextId &&
          (task.caller.row in s.rows ==> s.rows[task.caller.row].alert == task.alert))
    && (task.pc.Sending? ==>
          task.pc.left > 0 && !Duplicate(task.seen, task.pc.checkedAt) && task.pc.checkedAt <= s.clock)
  }

  /** No two calls under way retry the same row. */
  ghost predicate OneRetryPerRow(s: State) {
    forall t, u | 0 <= t < |s.tasks| && 0 <= u < |s.tasks| && s.tasks[t].caller.Retrying?
                  && s.tasks[t].caller == s.tasks[u].caller && !s.tasks[t].pc.Over? && !s.tasks[u].pc.Over? :: t == u
  }

  ghost predicate Inv(s: State) {
    && RowsOk(s.rows, s.nextId)
    && (forall t | 0 <= t < |s.tasks| :: TaskOk(s, t))
    && OneRetryPerRow(s)
  }

  /** A call of a pass stands for a due row and has a fresh snapshot of its alert. */
  predicate PassTaskOk(task: Task, rows: map<RowId, Retry>, alerts: map<AlertId, Alert>, now: int, n: RowId) {
    && task.pc.Ready? && task.caller.Retrying? && task.caller.row < n
    && Due(rows, alerts, task.caller.row, now)
    && task.alert == rows[task.caller.row].alert
    && task.seen == alerts[task.alert].notifiedAt
  }

  predicate RowBelow(task: Task, n: RowId) {
    task.caller.Retrying? && task.caller.row < n
  }

  predicate PassOk(tasks: seq<Task>, rows: map<RowId, Retry>, alerts: map<AlertId, Alert>, now: int, n: RowId) {
    && (forall k | 0 <= k < |tasks| :: PassTaskOk(tasks[k], rows, alerts, now, n))
    && (forall k, l | 0 <= k < l < |tasks| ::
          tasks[l].caller.Retrying? && RowBelow(tasks[k], tasks[l].caller.row))
  }

  lemma {:induction false} PassTasksOk(rows: map<RowId, Retry>, alerts: map<AlertId, Alert>, now: int, n: RowId)
    ensures PassOk(PassTasks(rows, alerts, now, n), rows, alerts, now, n)
  {
    if n > 0 {
      PassTasksOk(rows, alerts, now, n - 1);
      var before, tasks := PassTasks(rows, alerts, now, n - 1), PassTasks(rows, alerts, now, n);
      forall k | 0 <= k < |tasks| ensures PassTaskOk(tasks[k], rows, alerts, now, n) {
        if k < |before| {
          assert PassTaskOk(before[k], rows, alerts, now, n - 1);
        }
      }
      forall k, l | 0 <= k < l < |tasks| ensures tasks[l].caller.Retrying? && RowBelow(tasks[k], tasks[l].caller.row) {
        assert PassTaskOk(before[k], rows, alerts, now, n - 1);
        if l < |before| {
          assert RowBelow(before[k], before[l].caller.row);
        }
      }
    }
  }

  lemma QueuedRows(rows: map<RowId, Retry>, nextId: RowId, alert: AlertId, now: int)
    requires RowsOk(rows, nextId)
    ensures var next := if HasRow(rows, alert) then nextId else nextId + 1;
            && RowsOk(Queued(rows, nextId, alert, now), next)
            && rows.Keys <= Queued(rows, nextId, alert, now).Keys
            && (forall id | id in rows :: Queued(rows, nextId, alert, now)[id] ==
                  if rows[id].alert == alert then Requeue(rows[id], now) else rows[id])
  {
  }

  lemma RecordedRows(rows: map<RowId, Retry>, nextId: RowId, caller: Caller, v: Verdict, at: int, db: Db)
    requires RowsOk(rows, nextId)
    ensures var rows' := RowsRecorded(rows, caller, v, at, db);
            && RowsOk(rows', nextId)
            && rows'.Keys <= rows.Keys
            && (forall id | id in rows' :: rows'[id].alert == rows[id].alert)
  {
  }

  /** What the end of a call does to the table. */
  lemma ConcludeRows(s: State, t: TaskId, e: End, at: int, db: Db)
    requires RowsOk(s.rows, s.nextId) && t < |s.tasks| && s.tasks[t].alert in s.alerts
    ensures var s' := Conclude(s, t, e, at, db);
            && RowsOk(s'.rows, s'.nextId)
            && s'.nextId >= s.nextId
            && (forall id | id in s'.rows && id < s.nextId :: id in s.rows && s'.rows[id].alert == s.rows[id].alert)
  {
    var task := s.tasks[t];
    QueuedRows(s.rows, s.nextId, task.alert, at);
    RecordedRows(RowsQueued(s, task.alert, e.verdict, at, db), NextIdQueued(s, task.alert, e.verdict, db),
                 task.caller, e.verdict, at, db);
  }

  lemma ConcludeKeepsInv(s: State, t: TaskId, e: End, at: int, db: Db)
    requires Inv(s) && t < |s.tasks| && at >= s.clock
    ensures s.tasks[t].alert in s.alerts
    ensures Inv(Conclude(s, t, e, at, db))
  {
    assert TaskOk(s, t);
    var s' := Conclude(s, t, e, at, db);
    ConcludeRows(s, t, e, at, db);
    forall u | 0 <= u < |s'.tasks| ensures TaskOk(s', u) {
      assert TaskOk(s, u);
    }
  }

  lemma PassKeepsInv(s: State, at: int)
    requires Inv(s) && Enabled(s, StartPass(at))
    ensures Inv(Apply(s, StartPass(at)))
  {
    var s' := Apply(s, StartPass(at));
    PassTasksOk(s.rows, s.alerts, at, s.nextId);
    var added := PassTasks(s.rows, s.alerts, at, s.nextId);
    forall t | 0 <= t < |s'.tasks| ensures TaskOk(s', t) {
      if t < |s.tasks| {
        assert TaskOk(s, t);
      } else {
        assert PassTaskOk(added[t - |s.tasks|], s.rows, s.alerts, at, s.nextId);
      }
    }
    forall t, u | 0 <= t < u < |s'.tasks| && s'.tasks[t].caller.Retrying? && !s'.tasks[t].pc.Over?
      ensures s'.tasks[t].caller != s'.tasks[u].caller
    {
      assert t >= |s.tasks|;
      assert RowBelow(added[t - |s.tasks|], added[u - |s.tasks|].caller.row);
    }
  }

  lemma StepKeepsInv(s: State, a: Action)
    requires Inv(s) && Enabled(s, a)
    ensures Inv(Apply(s, a))
  {
    var s' := Apply(s, a);
    match a
    case StartPass(at) => PassKeepsInv(s, at);
    case Raise(_) =>
      forall t | 0 <= t < |s'.tasks| ensures TaskOk(s', t) {
        assert TaskOk(s, t);
      }
    case Clear(_) =>
      forall t | 0 <= t < |s'.tasks| ensures TaskOk(s', t) {
        assert TaskOk(s, t);
      }
    case Call(_, _) =>
      forall t | 0 <= t < |s'.tasks| ensures TaskOk(s', t) {
        assert t < |s.tasks| ==> TaskOk(s, t);
      }
    case _ =>
      if Ending(s, a).Some? {
        ConcludeKeepsInv(s, a.task, Ending(s, a).value, a.at, a.db);
      } else {
        forall t | 0 <= t < |s'.tasks| ensures TaskOk(s', t) {
          assert TaskOk(s, t);
        }
      }
  }

  lemma {:induction false} Reachable(schedule: seq<Action>)
    ensures Inv(Exec(schedule))
  {
    if schedule != [] {
      var prefix, a := schedule[..|schedule| - 1], schedule[|schedule| - 1];
      Reachable(prefix);
      if Enabled(Exec(prefix), a) {
        StepKeepsInv(Exec(prefix), a);
      }
    }
  }
}
