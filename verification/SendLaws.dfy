/**
  What each call of send_alert_v2 does, in terms of what it was given: the snapshot, the rule, the
  blackout, the answers of its channels and the blocks that committed.
*/
module SendLaws {
  import opened Wrappers
  import opened RetryQueue
  import opened SendMachine
  import opened SendResults
  import opened RetryResults

  // ---------------------------------------------------------------- one call

  /** The check the call made, if it has come to that. */
  function CheckOf(schedule: seq<Action>, t: TaskId): (c: Option<Action>)
    ensures c.Some? ==> c.value.Check?
  {
    if schedule == [] then None
    else
      var last := |schedule| - 1;
      if Enabled(Exec(schedule[..last]), schedule[last]) && schedule[last].Check? && schedule[last].task == t
      then Some(schedule[last])
      else CheckOf(schedule[..last], t)
  }

  /** The answers its channels have given, in order. */
  function AnswersOf(schedule: seq<Action>, t: TaskId): seq<bool> {
    if schedule == [] then []
    else
      var last := |schedule| - 1;
      AnswersOf(schedule[..last], t) +
      if Enabled(Exec(schedule[..last]), schedule[last]) && schedule[last].Dispatch? && schedule[last].task == t
      then [schedule[last].ok] else []
  }

  predicate HasChannels(rule: Option<Rule>) {
    rule.Some? && rule.value.channels.Some? && rule.value.channels.value > 0
  }

  /** The snapshot is no reason to hold the check back. */
  predicate NotRecent(seen: Option<int>, c: Action)
    requires c.Check?
  {
    seen.None? || c.at - seen.value >= 5
  }

  /** Everything that must hold for a single message to go out. */
  predicate Passes(seen: Option<int>, c: Action)
    requires c.Check?
  {
    NotRecent(seen, c) && HasChannels(c.rule) && !c.blackout && c.prepared
  }

  /** Where a call stands that got past its check with n channels configured. */
  predicate SendingOk(pc: Pc, c: Action, n: nat, answers: seq<bool>)
    requires c.Check? && c.rule.Some?
  {
    if |answers| < n then
      && pc.Sending? && pc.left == n - |answers| && pc.checkedAt == c.at
      && pc.autoResolve == c.rule.value.autoResolve
      && (pc.successes > 0 <==> true in answers)
    else |answers| == n && pc == Over(if true in answers then Delivered else AllFailed)
  }

  predicate CallOk(task: Task, check: Option<Action>, answers: seq<bool>)
    requires check.Some? ==> check.value.Check?
  {
    match check
    case None => task.pc == Ready && answers == []
    case Some(c) =>
      if Passes(task.seen, c) then SendingOk(task.pc, c, c.rule.value.channels.value, answers)
      else task.pc == Over(Unsent) && answers == []
  }

  lemma CheckMade(s: State, a: Action)
    requires a.Check? && Enabled(s, a) && CallOk(s.tasks[a.task], None, [])
    ensures CallOk(Apply(s, a).tasks[a.task], Some(a), [])
  {
  }

  lemma AnswerCame(s: State, a: Action, c: Action, answers: seq<bool>)
    requires a.Dispatch? && c.Check? && Enabled(s, a) && CallOk(s.tasks[a.task], Some(c), answers)
    ensures CallOk(Apply(s, a).tasks[a.task], Some(c), answers + [a.ok])
  {
    assert true in answers + [a.ok] <==> true in answers || a.ok;
  }

  lemma OtherCallKept(s: State, a: Action, t: TaskId)
    requires Enabled(s, a) && t < |s.tasks| && !((a.Check? || a.Dispatch?) && a.task == t)
    ensures t < |Apply(s, a).tasks| && Apply(s, a).tasks[t] == s.tasks[t]
  {
  }

  lemma NewCallReady(s: State, a: Action, t: TaskId)
    requires Enabled(s, a) && |s.tasks| <= t < |Apply(s, a).tasks|
    ensures Apply(s, a).tasks[t].pc == Ready
  {
    if a.StartPass? {
      PassTasksOk(s.rows, s.alerts, a.at, s.nextId);
      assert PassTaskOk(PassTasks(s.rows, s.alerts, a.at, s.nextId)[t - |s.tasks|], s.rows, s.alerts, a.at, s.nextId);
    }
  }

  /** The whole of a call, on any schedule: it sends nothing unless its snapshot shows no
      notification within five seconds, its rule has channels, no blackout is on and the message
      could be prepared; it then asks each channel once, and has delivered exactly if one
      channel said so. */
  lemma {:induction false} CallLaw(schedule: seq<Action>, t: TaskId)
    ensures t < |Exec(schedule).tasks| ==>
              CallOk(Exec(schedule).tasks[t], CheckOf(schedule, t), AnswersOf(schedule, t))
    ensures t >= |Exec(schedule).tasks| ==> CheckOf(schedule, t) == None && AnswersOf(schedule, t) == []
  {
    if schedule != [] {
      var last := |schedule| - 1;
      var s, a := Exec(schedule[..last]), schedule[last];
      var check, answers := CheckOf(schedule[..last], t), AnswersOf(schedule[..last], t);
      CallLaw(schedule[..last], t);
      assert answers + [] == answers;
      if Enabled(s, a) {
        if t >= |s.tasks| {
          if t < |Apply(s, a).tasks| {
            NewCallReady(s, a, t);
          }
        } else if a.Check? && a.task == t {
          CheckMade(s, a);
        } else if a.Dispatch? && a.task == t {
          AnswerCame(s, a, check.value, answers);
        } else {
          OtherCallKept(s, a, t);
        }
      }
    }
  }

  /** A call that meets a blackout sends nothing and queues nothing. */
  lemma BlackoutHolds(schedule: seq<Action>, a: Action)
    requires Enabled(Exec(schedule), a) && a.Check? && a.blackout
    ensures var s, s' := Exec(schedule), Apply(Exec(schedule), a);
            && s'.tasks[a.task].pc == Over(Unsent) && s'.nextId == s.nextId
            && (NotRecent(s.tasks[a.task].seen, a) && HasChannels(a.rule) ==>
                  s'.alerts[s.tasks[a.task].alert].suppressed)
  {
    CallLaw(schedule, a.task);
    CallLaw(schedule + [a], a.task);
    assert (schedule + [a])[..|schedule|] == schedule;
  }

  // ---------------------------------------------------------------- the alert row

  /** The n-th step is a check of the alert that a blackout alone, or with a failed preparation,
      kept from sending. */
  ghost predicate HeldAt(schedule: seq<Action>, n: nat, alert: AlertId)
    requires n < |schedule|
  {
    var s, a := Exec(schedule[..n]), schedule[n];
    && a.Check? && Enabled(s, a) && s.tasks[a.task].alert == alert
    && NotRecent(s.tasks[a.task].seen, a) && HasChannels(a.rule) && a.blackout
  }

  ghost predicate Held(schedule: seq<Action>, alert: AlertId) {
    exists n | 0 <= n < |schedule| :: HeldAt(schedule, n, alert)
  }

  lemma HeldNext(schedule: seq<Action>, alert: AlertId)
    requires schedule != []
    ensures var last := |schedule| - 1;
            Held(schedule, alert) <==> Held(schedule[..last], alert) || HeldAt(schedule, last, alert)
  {
    var last := |schedule| - 1;
    forall n | 0 <= n < last ensures HeldAt(schedule[..last], n, alert) <==> HeldAt(schedule, n, alert) {
      assert schedule[..last][..n] == schedule[..n];
    }
  }

  lemma SuppressedNext(s: State, a: Action, alert: AlertId)
    requires Enabled(s, a)
    ensures alert in s.alerts ==>
              alert in Apply(s, a).alerts &&
              (Apply(s, a).alerts[alert].suppressed <==>
                s.alerts[alert].suppressed ||
                (a.Check? && s.tasks[a.task].alert == alert && NotRecent(s.tasks[a.task].seen, a) &&
                 HasChannels(a.rule) && a.blackout))
    ensures alert !in s.alerts && alert in Apply(s, a).alerts ==> !Apply(s, a).alerts[alert].suppressed
  {
  }

  /** An alert is marked as suppressed exactly if some call for it had channels, was no
      duplicate and met a blackout. */
  lemma {:induction false} SuppressedIff(schedule: seq<Action>, alert: AlertId)
    ensures Held(schedule, alert) <==> alert in Exec(schedule).alerts && Exec(schedule).alerts[alert].suppressed
  {
    if schedule != [] {
      var last := |schedule| - 1;
      var s, a := Exec(schedule[..last]), schedule[last];
      SuppressedIff(schedule[..last], alert);
      HeldNext(schedule, alert);
      if Enabled(s, a) {
        SuppressedNext(s, a, alert);
      }
    }
  }

  /** A delivery is noted exactly when the last channel has answered, one channel delivered and
      the block commits. */
  lemma NotedIff(schedule: seq<Action>, a: Action, alert: AlertId)
    requires a.Dispatch? && Enabled(Exec(schedule), a)
    ensures CheckOf(schedule, a.task).Some? && CheckOf(schedule, a.task).value.rule.Some?
            && CheckOf(schedule, a.task).value.rule.value.channels.Some?
    ensures var answers := AnswersOf(schedule, a.task) + [a.ok];
            var rule := CheckOf(schedule, a.task).value.rule.value;
            Noted(Exec(schedule), a, alert) <==>
            && Exec(schedule).tasks[a.task].alert == alert && a.db.note
            && |answers| == rule.channels.value && true in answers
    ensures Noted(Exec(schedule), a, alert) ==>
              (Ending(Exec(schedule), a).value.autoResolve <==> CheckOf(schedule, a.task).value.rule.value.autoResolve)
  {
    CallLaw(schedule, a.task);
    var answers := AnswersOf(schedule, a.task);
    assert true in answers + [a.ok] <==> true in answers || a.ok;
  }

  /** What the evaluation service writes when its call ends with verdict v: one more attempt, and
      as the time of notification that of the check, if the call delivered, could never
      deliver for want of channels, or a day has gone by. */
  lemma EvaluationWrites(schedule: seq<Action>, a: Action, v: Verdict)
    requires (a.Check? || a.Dispatch?) && Enabled(Exec(schedule), a)
    requires Exec(schedule).tasks[a.task].caller == Evaluating
    requires Apply(Exec(schedule), a).tasks[a.task].pc == Over(v) && a.db.book
    ensures var s, s' := Exec(schedule), Apply(Exec(schedule), a);
            var alert := s.tasks[a.task].alert;
            var noted := v == Delivered && a.db.note;
            var check := if a.Check? then Some(a) else CheckOf(schedule, a.task);
            && alert in s.alerts && alert in s'.alerts && check.Some?
            && s'.alerts[alert].notifications == s.alerts[alert].notifications + (if noted then 2 else 1)
            && s'.alerts[alert].notifiedAt ==
               if v == Delivered || !HasChannels(check.value.rule) || a.db.giveUp then Some(check.value.at)
               else s.alerts[alert].notifiedAt
  {
    CallLaw(schedule, a.task);
  }

  // ---------------------------------------------------------------- retry rows

  /** A row is added exactly when a call's last channel has answered, none delivered, the block
      commits and the alert has no row yet. */
  lemma QueuedIff(schedule: seq<Action>, a: Action)
    requires Enabled(Exec(schedule), a)
    ensures var s, s' := Exec(schedule), Apply(Exec(schedule), a);
            s'.nextId != s.nextId <==>
            && a.Dispatch? && s'.tasks[a.task].pc == Over(AllFailed) && a.db.queue
            && forall id | id in s.rows :: s.rows[id].alert != s.tasks[a.task].alert
  {
    if a.Check? || a.Dispatch? {
      CallLaw(schedule, a.task);
    }
  }

  /** The history of a row records just how calls end: a retry of it that ends with verdict v is an
      attempt; any other call for its alert that fails on all channels requeues it. */
  lemma EventIff(schedule: seq<Action>, a: Action, id: RowId)
    requires Enabled(Exec(schedule), a) && id in Exec(schedule).rows
    ensures var s, s' := Exec(schedule), Apply(Exec(schedule), a);
            EventOn(s, a, id) ==
            if (a.Check? || a.Dispatch?) && s'.tasks[a.task].pc.Over? then
              var v := s'.tasks[a.task].pc.verdict;
              var requeued := v == AllFailed && a.db.queue && s.rows[id].alert == s.tasks[a.task].alert;
              if s.tasks[a.task].caller == Retrying(id) && a.db.book then
                Some(Attempted(if v == AllFailed && !requeued then Unsent else v, a.at))
              else if requeued then Some(Requeued(a.at))
              else None
            else None
  {
  }

  /** When each row is due: a minute after it was queued or requeued, and 5, 15, 60 and 360 minutes
      after its first to fourth retry since. */
  lemma DueAt(schedule: seq<Action>, id: RowId)
    requires id in Exec(schedule).rows
    ensures LogOf(schedule, id).Some?
    ensures var log, row := LogOf(schedule, id).value, Exec(schedule).rows[id];
            if log.events == [] then row.due == log.queuedAt + 60 && row.attempts == 0
            else
              match log.events[|log.events| - 1]
              case Requeued(t) => row.due == t + 60 && row.attempts == 0
              case Attempted(_, t) =>
                1 <= row.attempts <= 4 &&
                row.due == t + match row.attempts case 1 => 300 case 2 => 900 case 3 => 3600 case _ => 21600
  {
    RowFollowsLaw(schedule, id);
    var log := LogOf(schedule, id).value;
    DueLaw(log.alert, log.queuedAt, log.events);
    RowLaw(log.alert, log.queuedAt, log.events);
  }

  // ---------------------------------------------------------------- a pass of the retry loop

  lemma {:induction false} PassComplete(rows: map<RowId, Retry>, alerts: map<AlertId, Alert>, now: int, n: RowId, id: RowId)
    requires id < n && id in rows && rows[id].due <= now && rows[id].alert in alerts
    ensures exists k :: 0 <= k < |PassTasks(rows, alerts, now, n)| &&
              PassTasks(rows, alerts, now, n)[k] == Task(rows[id].alert, Retrying(id), alerts[rows[id].alert].notifiedAt, Ready)
  {
    var before, tasks := PassTasks(rows, alerts, now, n - 1), PassTasks(rows, alerts, now, n);
    var task := Task(rows[id].alert, Retrying(id), alerts[rows[id].alert].notifiedAt, Ready);
    if id < n - 1 {
      PassComplete(rows, alerts, now, n - 1, id);
      var k :| 0 <= k < |before| && before[k] == task;
      assert tasks[k] == task;
    } else {
      assert tasks == before + [task];
      assert tasks[|before|] == task;
    }
  }

  /** The call number k was begun by the pass for the row. */
  predicate BegunFor(s: State, s': State, k: int, id: RowId) {
    |s.tasks| <= k < |s'.tasks| && s'.tasks[k].caller == Retrying(id)
  }

  /** A pass begins a call for a row exactly if the row is due and its alert still exists, whatever
      its count; one call only, with the row's alert and a fresh snapshot; and nothing else. */
  lemma PassTakesDueRows(schedule: seq<Action>, at: int, id: RowId)
    requires Enabled(Exec(schedule), StartPass(at))
    ensures var s, s' := Exec(schedule), Apply(Exec(schedule), StartPass(at));
            && ((id in s.rows && s.rows[id].due <= at && s.rows[id].alert in s.alerts) <==>
                exists k :: BegunFor(s, s', k, id))
            && (forall k, l :: BegunFor(s, s', k, id) && BegunFor(s, s', l, id) ==> k == l)
            && (forall k :: BegunFor(s, s', k, id) && id in s.rows && s.rows[id].alert in s.alerts ==>
                  s'.tasks[k] == Task(s.rows[id].alert, Retrying(id), s.alerts[s.rows[id].alert].notifiedAt, Ready))
            && s'.tasks[..|s.tasks|] == s.tasks && s'.rows == s.rows && s'.alerts == s.alerts
            && forall k | |s.tasks| <= k < |s'.tasks| :: s'.tasks[k].caller.Retrying?
  {
    var s, s' := Exec(schedule), Apply(Exec(schedule), StartPass(at));
    var added := PassTasks(s.rows, s.alerts, at, s.nextId);
    Reachable(schedule);
    PassTasksOk(s.rows, s.alerts, at, s.nextId);
    forall k | |s.tasks| <= k < |s'.tasks|
      ensures s'.tasks[k] == added[k - |s.tasks|] && PassTaskOk(s'.tasks[k], s.rows, s.alerts, at, s.nextId)
    {
      assert PassTaskOk(added[k - |s.tasks|], s.rows, s.alerts, at, s.nextId);
    }
    forall k, l | BegunFor(s, s', k, id) && BegunFor(s, s', l, id) ensures k == l {
    }
    if id in s.rows && s.rows[id].due <= at && s.rows[id].alert in s.alerts {
      PassComplete(s.rows, s.alerts, at, s.nextId, id);
      var k :| 0 <= k < |added| && added[k].caller == Retrying(id);
      assert BegunFor(s, s', |s.tasks| + k, id);
    }
  }
}
