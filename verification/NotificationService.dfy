/** The notification service of backend/notifications.py as the object it is. */
module NotificationService {
  import opened Wrappers
  import opened RetryQueue
  import opened SendMachine

  class NotificationService {
    var alerts: map<AlertId, Alert>   // alerts_v2
    var rows: map<RowId, Retry>       // notification_retries
    var nextId: RowId                 // its autoincrement
    var tasks: seq<Task>              // the calls of send_alert_v2
    var clock: int

    ghost function Now(): State
      reads this
    {
      State(alerts, rows, nextId, tasks, clock)
    }

    ghost predicate Valid()
      reads this
    {
      Inv(Now())
    }

    constructor ()
      ensures Now() == Init() && Valid()
    {
      alerts, rows, nextId, tasks, clock := map[], map[], 0, [], 0;
      new;
      Reachable([]);
    }

    /** A caller takes its snapshot of a stored alert. */
    method Begin(alert: AlertId, evaluating: bool) returns (t: TaskId)
      requires Valid() && alert in alerts
      modifies this`tasks
      ensures t == |old(tasks)| && Now() == Apply(old(Now()), Call(alert, evaluating)) && Valid()
    {
      StepKeepsInv(Now(), Call(alert, evaluating));
      t := |tasks|;
      tasks := tasks + [Task(alert, if evaluating then Evaluating else Direct, alerts[alert].notifiedAt, Ready)];
    }

    /** _process_retry_queue up to its first await: the due rows, with snapshots of their alerts. */
    method ProcessRetryQueue(at: int)
      requires Valid() && Enabled(Now(), StartPass(at))
      modifies this`tasks, this`clock
      ensures Now() == Apply(old(Now()), StartPass(at)) && Valid()
    {
      StepKeepsInv(Now(), StartPass(at));
      var retries := [];
      for id := 0 to nextId
        invariant retries == PassTasks(rows, alerts, at, id)
        invariant Now() == old(Now())
      {
        if id in rows && rows[id].due <= at && rows[id].alert in alerts {
          var alert := rows[id].alert;
          retries := retries + [Task(alert, Retrying(id), alerts[alert].notifiedAt, Ready)];
        } else {
          assert retries + [] == retries;
        }
      }
      tasks := tasks + retries;
      clock := at;
    }

    /** send_alert_v2 up to its first await. */
    method SendAlert(t: TaskId, at: int, rule: Option<Rule>, blackout: bool, prepared: bool, db: Db)
      requires Valid() && Enabled(Now(), Check(t, at, rule, blackout, prepared, db))
      modifies this
      ensures Now() == Apply(old(Now()), Check(t, at, rule, blackout, prepared, db)) && Valid()
    {
      StepKeepsInv(Now(), Check(t, at, rule, blackout, prepared, db));
      var task := tasks[t];
      clock := at;
      if task.seen.Some? && at - task.seen.value < DUPLICATE_WINDOW {
        Return(t, End(Unsent, at, false, false, NoChannels(rule)), at, db);
      } else if rule.None? || rule.value.channels.None? || rule.value.channels.value == 0 {
        Return(t, End(Unsent, at, false, false, true), at, db);
      } else if blackout {
        alerts := alerts[task.alert := alerts[task.alert].(suppressed := true)];
        Return(t, End(Unsent, at, false, true, false), at, db);
      } else if !prepared {
        Return(t, End(Unsent, at, false, false, false), at, db);
      } else {
        tasks := tasks[t := task.(pc := Sending(rule.value.channels.value, 0, rule.value.autoResolve, at))];
      }
    }

    /** What follows the answer of a channel: the next channel, or the end of the call. */
    method ChannelAnswered(t: TaskId, at: int, ok: bool, db: Db)
      requires Valid() && Enabled(Now(), Dispatch(t, at, ok, db))
      modifies this
      ensures Now() == Apply(old(Now()), Dispatch(t, at, ok, db)) && Valid()
    {
      StepKeepsInv(Now(), Dispatch(t, at, ok, db));
      assert TaskOk(Now(), t);
      var pc := tasks[t].pc;
      var alert := tasks[t].alert;
      var successes := if ok then pc.successes + 1 else pc.successes;
      clock := at;
      if pc.left > 1 {
        tasks := tasks[t := tasks[t].(pc := Sending(pc.left - 1, successes, pc.autoResolve, pc.checkedAt))];
        return;
      }
      var committed := successes > 0;
      if successes == 0 && db.queue {
        QueueRetry(alert, at);
      }
      if committed && db.note {
        var row := alerts[alert];
        row := row.(notifiedAt := Some(at), notifications := row.notifications + 1);
        if pc.autoResolve {
          row := row.(resolved := true);
        }
        alerts := alerts[alert := row];
      }
      Return(t, End(if committed then Delivered else AllFailed, pc.checkedAt, pc.autoResolve, false, false), at, db);
    }

    method QueueRetry(alert: AlertId, now: int)
      requires RowsOk(rows, nextId)
      modifies this`rows, this`nextId
      ensures RowsOk(rows, nextId)
      ensures rows == Queued(old(rows), old(nextId), alert, now)
      ensures nextId == if HasRow(old(rows), alert) then old(nextId) else old(nextId) + 1
    {
      var existing := FindRow(alert);
      if existing.Some? {
        var id := existing.value;
        rows := rows[id := Requeue(rows[id], now)];
      } else {
        rows := rows[nextId := NewRow(alert, now)];
        nextId := nextId + 1;
      }
    }

    method FindRow(alert: AlertId) returns (r: Option<RowId>)
      requires RowsOk(rows, nextId)
      ensures r.Some? ==> r.value in rows && rows[r.value].alert == alert
      ensures r.Some? <==> HasRow(rows, alert)
    {
      for id := 0 to nextId
        invariant forall k | k in rows && k < id :: rows[k].alert != alert
      {
        if id in rows && rows[id].alert == alert {
          return Some(id);
        }
      }
      return None;
    }

    /** The call returns to its caller, which writes down the outcome without another await:
        the retry loop on the row, the evaluation service on the alert. */
    method Return(t: TaskId, e: End, at: int, db: Db)
      requires t < |tasks| && tasks[t].alert in alerts
      modifies this`tasks, this`rows, this`alerts
      ensures tasks == old(tasks)[t := old(tasks)[t].(pc := Over(e.verdict))]
      ensures rows == RowsRecorded(old(rows), old(tasks)[t].caller, e.verdict, at, db)
      ensures var task := old(tasks)[t];
              var before := old(alerts)[task.alert];
              alerts == old(alerts)[task.alert :=
                if task.caller.Evaluating? && db.book then
                  before.(notifications := before.notifications + 1,
                          notifiedAt := if e.verdict.Delivered? || e.permanent || db.giveUp then Some(e.checkedAt)
                                        else before.notifiedAt)
                else before]
    {
      var task := tasks[t];
      tasks := tasks[t := task.(pc := Over(e.verdict))];
      match task.caller {
        case Direct =>
        case Retrying(id) =>
          if db.book && id in rows {
            if e.verdict.Delivered? {
              rows := rows - {id};
            } else {
              var attempts := rows[id].attempts + 1;
              if attempts >= MAX_RETRIES {
                rows := rows - {id};
              } else {
                rows := rows[id := rows[id].(attempts := attempts, due := at + Backoff(attempts))];
              }
            }
          }
        case Evaluating =>
          if db.book {
            var row := alerts[task.alert];
            row := row.(notifications := row.notifications + 1);
            if e.verdict.Delivered? || e.permanent || db.giveUp {
              row := row.(notifiedAt := Some(e.checkedAt));
            }
            alerts := alerts[task.alert := row];
          }
      }
    }
  }
}
