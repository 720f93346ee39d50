/** What every interleaving of sends, retries and evaluations guarantees about alerts and retry rows. */
module SendResults {
  import opened Wrappers
  import opened RetryQueue
  import opened SendMachine

  // ---------------------------------------------------------------- notes

  predicate Ends(s: State, a: Action, alert: AlertId) {
    (a.Check? || a.Dispatch?) && Enabled(s, a) && Ending(s, a).Some? && s.tasks[a.task].alert == alert
  }

  /** The step ends a call that delivered, and send_alert_v2 notes it on the alert's row. */
  predicate Noted(s: State, a: Action, alert: AlertId) {
    Ends(s, a, alert) && Ending(s, a).value.verdict.Delivered? && a.db.note
  }

  /** The step ends a call of the evaluation service, which records its attempt on the row. */
  predicate Evaluated(s: State, a: Action, alert: AlertId) {
    Ends(s, a, alert) && s.tasks[a.task].caller.Evaluating? && a.db.book
  }

  predicate NotedAt(schedule: seq<Action>, n: nat, alert: AlertId)
    requires n < |schedule|
  {
    Noted(Exec(schedule[..n]), schedule[n], alert)
  }

  predicate EvaluatedAt(schedule: seq<Action>, n: nat, alert: AlertId)
    requires n < |schedule|
  {
    Evaluated(Exec(schedule[..n]), schedule[n], alert)
  }

  function NotedSteps(schedule: seq<Action>, alert: AlertId): set<nat> {
    set n | 0 <= n < |schedule| && NotedAt(schedule, n, alert)
  }

  function EvaluatedSteps(schedule: seq<Action>, alert: AlertId): set<nat> {
    set n | 0 <= n < |schedule| && EvaluatedAt(schedule, n, alert)
  }

  lemma StepsNext(schedule: seq<Action>, alert: AlertId)
    requires schedule != []
    ensures var last := |schedule| - 1;
            && NotedSteps(schedule, alert) ==
               NotedSteps(schedule[..last], alert) + (if NotedAt(schedule, last, alert) then {last} else {})
            && EvaluatedSteps(schedule, alert) ==
               EvaluatedSteps(schedule[..last], alert) + (if EvaluatedAt(schedule, last, alert) then {last} else {})
  {
    var last := |schedule| - 1;
    forall n: nat | n < last
      ensures NotedAt(schedule[..last], n, alert) <==> NotedAt(schedule, n, alert)
      ensures EvaluatedAt(schedule[..last], n, alert) <==> EvaluatedAt(schedule, n, alert)
    {
      assert schedule[..last][..n] == schedule[..n];
    }
  }

  /** What a step writes on an alert row. */
  lemma AlertNext(s: State, a: Action, alert: AlertId)
    requires Enabled(s, a) && alert in s.alerts
    ensures alert in Apply(s, a).alerts
    ensures var old_, new_ := s.alerts[alert], Apply(s, a).alerts[alert];
            && new_.notifications == old_.notifications + (if Noted(s, a, alert) then 1 else 0)
                                     + (if Evaluated(s, a, alert) then 1 else 0)
            && (new_.resolved <==> old_.resolved || (Noted(s, a, alert) && Ending(s, a).value.autoResolve))
  {
  }

  lemma {:induction false} NoNoteBeforeAlert(schedule: seq<Action>, alert: AlertId)
    requires alert !in Exec(schedule).alerts
    ensures NotedSteps(schedule, alert) == {} && EvaluatedSteps(schedule, alert) == {}
  {
    if schedule != [] {
      var last := |schedule| - 1;
      var s, a := Exec(schedule[..last]), schedule[last];
      if alert in s.alerts && Enabled(s, a) {
        AlertNext(s, a, alert);
      }
      NoNoteBeforeAlert(schedule[..last], alert);
      StepsNext(schedule, alert);
    }
  }

  /** notification_count is not the number of deliveries: it grows once for each delivery that
      send_alert_v2 notes and once more for each attempt the evaluation service records. */
  lemma {:induction false} DeliveriesCounted(schedule: seq<Action>, alert: AlertId)
    requires alert in Exec(schedule).alerts
    ensures Exec(schedule).alerts[alert].notifications ==
            |NotedSteps(schedule, alert)| + |EvaluatedSteps(schedule, alert)|
  {
    var last := |schedule| - 1;
    var s, a := Exec(schedule[..last]), schedule[last];
    StepsNext(schedule, alert);
    if alert in s.alerts {
      DeliveriesCounted(schedule[..last], alert);
      if Enabled(s, a) {
        AlertNext(s, a, alert);
      }
    } else {
      NoNoteBeforeAlert(schedule[..last], alert);
    }
  }

  /** Sending resolves an alert exactly when a rule with auto_resolve made a noted delivery. */
  lemma {:induction false} ResolvedIff(schedule: seq<Action>, alert: AlertId)
    requires alert in Exec(schedule).alerts
    ensures Exec(schedule).alerts[alert].resolved <==>
            exists n :: n in NotedSteps(schedule, alert) && Ending(Exec(schedule[..n]), schedule[n]).value.autoResolve
  {
    var last := |schedule| - 1;
    var s, a := Exec(schedule[..last]), schedule[last];
    StepsNext(schedule, alert);
    forall n | n in NotedSteps(schedule[..last], alert) ensures schedule[..last][..n] == schedule[..n] {
    }
    if alert in s.alerts {
      ResolvedIff(schedule[..last], alert);
      if Enabled(s, a) {
        AlertNext(s, a, alert);
      }
    } else {
      NoNoteBeforeAlert(schedule[..last], alert);
    }
  }

  // ---------------------------------------------------------------- the duplicate check

  /** The position of the step that began the call, and took its snapshot. */
  function StartOf(schedule: seq<Action>, t: TaskId): (n: nat)
    requires t < |Exec(schedule).tasks|
    ensures n < |schedule|
  {
    var last := |schedule| - 1;
    if t < |Exec(schedule[..last]).tasks| then StartOf(schedule[..last], t) else last
  }

  lemma TasksKept(s: State, a: Action, t: TaskId)
    requires Enabled(s, a) && t < |s.tasks|
    ensures t < |Apply(s, a).tasks|
    ensures Apply(s, a).tasks[t] == s.tasks[t].(pc := Apply(s, a).tasks[t].pc)
  {
  }

  /** A call works with the notified_at that the row had when the call began. */
  lemma {:induction false} SeenAtStart(schedule: seq<Action>, t: TaskId)
    requires t < |Exec(schedule).tasks|
    ensures var task, then_ := Exec(schedule).tasks[t], Exec(schedule[..StartOf(schedule, t)]);
            task.alert in then_.alerts && task.seen == then_.alerts[task.alert].notifiedAt
  {
    var last := |schedule| - 1;
    var s, a := Exec(schedule[..last]), schedule[last];
    if t < |s.tasks| {
      SeenAtStart(schedule[..last], t);
      assert schedule[..last][..StartOf(schedule, t)] == schedule[..StartOf(schedule, t)];
      if Enabled(s, a) {
        TasksKept(s, a, t);
      }
    } else if a.StartPass? {
      PassTasksOk(s.rows, s.alerts, a.at, s.nextId);
      assert PassTaskOk(PassTasks(s.rows, s.alerts, a.at, s.nextId)[t - |s.tasks|], s.rows, s.alerts, a.at, s.nextId);
    }
  }

  /** What the step writes to notified_at, if it does; the evaluation service writes last. */
  function Stamp(s: State, a: Action, alert: AlertId): Option<Option<int>> {
    if a.Clear? && a.alert == alert then Some(None)
    else if Evaluated(s, a, alert) &&
            (Ending(s, a).value.verdict.Delivered? || Ending(s, a).value.permanent || a.db.giveUp)
      then Some(Some(Ending(s, a).value.checkedAt))
    else if Noted(s, a, alert) then Some(Some(a.at))
    else None
  }

  /** The last time that was written, by whoever wrote it. */
  function LastStamp(schedule: seq<Action>, alert: AlertId): Option<int> {
    if schedule == [] then None
    else
      var last := |schedule| - 1;
      var s, a := Exec(schedule[..last]), schedule[last];
      if Enabled(s, a) && Stamp(s, a, alert).Some? then Stamp(s, a, alert).value
      else LastStamp(schedule[..last], alert)
  }

  lemma StampWritten(s: State, a: Action, alert: AlertId)
    requires Enabled(s, a) && alert in s.alerts
    ensures alert in Apply(s, a).alerts
    ensures Apply(s, a).alerts[alert].notifiedAt ==
            if Stamp(s, a, alert).Some? then Stamp(s, a, alert).value else s.alerts[alert].notifiedAt
  {
  }

  lemma NoStampYet(s: State, a: Action, alert: AlertId)
    requires Enabled(s, a) && alert !in s.alerts
    ensures Stamp(s, a, alert).None?
    ensures alert in Apply(s, a).alerts ==> Apply(s, a).alerts[alert].notifiedAt.None?
  {
  }

  lemma {:induction false} StampKept(schedule: seq<Action>, alert: AlertId)
    ensures if alert in Exec(schedule).alerts then Exec(schedule).alerts[alert].notifiedAt == LastStamp(schedule, alert)
            else LastStamp(schedule, alert) == None
  {
    if schedule != [] {
      var last := |schedule| - 1;
      var s, a := Exec(schedule[..last]), schedule[last];
      StampKept(schedule[..last], alert);
      if Enabled(s, a) {
        if alert in s.alerts {
          StampWritten(s, a, alert);
        } else {
          NoStampYet(s, a, alert);
        }
      }
    }
  }

  /** Whoever writes the stamp: a call is let through by the duplicate check if and only if the
      last time written before its snapshot was taken, if any, lies five seconds back or more. */
  lemma LetThroughByLastStamp(schedule: seq<Action>, t: TaskId, now: int)
    requires t < |Exec(schedule).tasks|
    ensures var stamp := LastStamp(schedule[..StartOf(schedule, t)], Exec(schedule).tasks[t].alert);
            !Duplicate(Exec(schedule).tasks[t].seen, now) <==>
            stamp.None? || stamp.value + DUPLICATE_WINDOW <= now
  {
    SeenAtStart(schedule, t);
    StampKept(schedule[..StartOf(schedule, t)], Exec(schedule).tasks[t].alert);
  }

  /** Something else than a note writes notified_at: a reset, or the evaluation service, which
      puts down the time of the check. */
  predicate Disturbs(s: State, a: Action, alert: AlertId) {
    || (a.Clear? && a.alert == alert && Enabled(s, a))
    || (Evaluated(s, a, alert) &&
        (Ending(s, a).value.verdict.Delivered? || Ending(s, a).value.permanent || a.db.giveUp))
  }

  ghost predicate Undisturbed(schedule: seq<Action>, alert: AlertId) {
    forall n | 0 <= n < |schedule| :: !Disturbs(Exec(schedule[..n]), schedule[n], alert)
  }

  lemma UndisturbedPrefix(schedule: seq<Action>, k: nat, alert: AlertId)
    requires k <= |schedule| && Undisturbed(schedule, alert)
    ensures Undisturbed(schedule[..k], alert)
  {
    forall n | 0 <= n < k ensures !Disturbs(Exec(schedule[..k][..n]), schedule[..k][n], alert) {
      assert schedule[..k][..n] == schedule[..n];
    }
  }

  lemma StampNext(s: State, a: Action, alert: AlertId)
    requires Enabled(s, a) && alert in s.alerts && !Disturbs(s, a, alert)
    ensures alert in Apply(s, a).alerts
    ensures Apply(s, a).alerts[alert].notifiedAt ==
            if Noted(s, a, alert) then Some(a.at) else s.alerts[alert].notifiedAt
    ensures Apply(s, a).clock >= s.clock && (Noted(s, a, alert) ==> Apply(s, a).clock == a.at)
  {
  }

  /** The stored time is that of the latest note. */
  ghost predicate StampOk(schedule: seq<Action>, alert: AlertId) {
    var s := Exec(schedule);
    && (alert in s.alerts && s.alerts[alert].notifiedAt.Some? ==>
          exists n :: n in NotedSteps(schedule, alert) && schedule[n].at == s.alerts[alert].notifiedAt.value)
    && (forall n | n in NotedSteps(schedule, alert) ::
          && schedule[n].at <= s.clock
          && alert in s.alerts && s.alerts[alert].notifiedAt.Some?
          && schedule[n].at <= s.alerts[alert].notifiedAt.value)
  }

  lemma ClockGrows(s: State, a: Action)
    requires Enabled(s, a)
    ensures Apply(s, a).clock >= s.clock
  {
  }

  lemma {:induction false} StampIsLatest(schedule: seq<Action>, alert: AlertId)
    requires Undisturbed(schedule, alert)
    ensures StampOk(schedule, alert)
  {
    if schedule != [] {
      var last := |schedule| - 1;
      var s, a := Exec(schedule[..last]), schedule[last];
      UndisturbedPrefix(schedule, last, alert);
      StampIsLatest(schedule[..last], alert);
      StepsNext(schedule, alert);
      assert schedule[..last] == schedule[..|schedule| - 1];
      forall n | n in NotedSteps(schedule[..last], alert) ensures schedule[..last][n] == schedule[n] {
      }
      if Enabled(s, a) {
        ClockGrows(s, a);
        if alert in s.alerts {
          StampNext(s, a, alert);
        } else {
          NoNoteBeforeAlert(schedule[..last], alert);
        }
      }
    }
  }

  /** The exact reach of the duplicate check, for any call of any schedule, where nothing but
      notes wrote the stamp: a call that checks at time `now` is let through if and only if
      every delivery noted before its snapshot was taken lies five seconds back or more.
      Deliveries noted after the snapshot never hold it back. */
  lemma LetThroughIff(schedule: seq<Action>, t: TaskId, now: int)
    requires t < |Exec(schedule).tasks|
    requires Undisturbed(schedule[..StartOf(schedule, t)], Exec(schedule).tasks[t].alert)
    ensures var task := Exec(schedule).tasks[t];
            !Duplicate(task.seen, now) <==>
            forall n | 0 <= n < StartOf(schedule, t) && NotedAt(schedule, n, task.alert) ::
              schedule[n].at + DUPLICATE_WINDOW <= now
  {
    var task, k := Exec(schedule).tasks[t], StartOf(schedule, t);
    var before := schedule[..k];
    SeenAtStart(schedule, t);
    StampIsLatest(before, task.alert);
    forall n: nat | n < k
      ensures n in NotedSteps(before, task.alert) <==> NotedAt(schedule, n, task.alert)
      ensures before[n] == schedule[n]
    {
      assert before[..n] == schedule[..n];
    }
  }

  /** From a note on, without a reset or an evaluation, the stored time is no older. */
  lemma {:induction false} StampSince(schedule: seq<Action>, m: nat, alert: AlertId)
    requires m < |schedule| && NotedAt(schedule, m, alert)
    requires forall d | m <= d < |schedule| :: !Disturbs(Exec(schedule[..d]), schedule[d], alert)
    ensures var s := Exec(schedule);
            && s.clock >= schedule[m].at
            && alert in s.alerts && s.alerts[alert].notifiedAt.Some?
            && s.alerts[alert].notifiedAt.value >= schedule[m].at
  {
    var last := |schedule| - 1;
    var s, a := Exec(schedule[..last]), schedule[last];
    assert !Disturbs(s, a, alert);
    if m == last {
      StampNext(s, a, alert);
    } else {
      var before := schedule[..last];
      forall d | m <= d < last ensures before[..d] == schedule[..d] && before[d] == schedule[d] {
      }
      StampSince(before, m, alert);
      if Enabled(s, a) {
        StampNext(s, a, alert);
      }
    }
  }

  /** A delivery that comes within five seconds of an earlier one was checked within them. */
  lemma CheckedInTime(schedule: seq<Action>, n: nat, alert: AlertId)
    requires n < |schedule| && NotedAt(schedule, n, alert)
    ensures var s, t := Exec(schedule[..n]), schedule[n].task;
            && t < |s.tasks| && s.tasks[t].alert == alert && s.tasks[t].pc.Sending?
            && s.tasks[t].pc.checkedAt <= schedule[n].at && !Duplicate(s.tasks[t].seen, s.tasks[t].pc.checkedAt)
  {
    Reachable(schedule[..n]);
    assert TaskOk(Exec(schedule[..n]), schedule[n].task);
  }

  /** On any schedule, two noted deliveries of an alert come closer than five seconds only if
      the second call had taken its snapshot when the first was noted, or a reset or the
      evaluation service wrote over the first note, at once or before that snapshot. */
  lemma CloseDeliveriesOverlap(schedule: seq<Action>, m: nat, n: nat, alert: AlertId)
    requires m < n < |schedule| && NotedAt(schedule, m, alert) && NotedAt(schedule, n, alert)
    requires schedule[n].at < schedule[m].at + DUPLICATE_WINDOW
    ensures var k := StartOf(schedule[..n], schedule[n].task);
            k < m || exists d :: m <= d < k && Disturbs(Exec(schedule[..d]), schedule[d], alert)
  {
    CheckedInTime(schedule, n, alert);
    var prefix, t := schedule[..n], schedule[n].task;
    var k := StartOf(prefix, t);
    assert prefix[..k] == schedule[..k];
    SeenAtStart(prefix, t);
    if k == m {
      StartsAreNoNotes(prefix, t, alert);
    }
    if m < k && forall d | m <= d < k :: !Disturbs(Exec(schedule[..d]), schedule[d], alert) {
      var before := schedule[..k];
      forall d | 0 <= d < k ensures before[..d] == schedule[..d] && before[d] == schedule[d] {
      }
      StampSince(before, m, alert);
      assert false;
    }
  }

  /** The step that begins a call ends none. */
  lemma {:induction false} StartsAreNoNotes(schedule: seq<Action>, t: TaskId, alert: AlertId)
    requires t < |Exec(schedule).tasks|
    ensures !NotedAt(schedule, StartOf(schedule, t), alert)
  {
    var last := |schedule| - 1;
    var k := StartOf(schedule, t);
    if t < |Exec(schedule[..last]).tasks| {
      StartsAreNoNotes(schedule[..last], t, alert);
      assert schedule[..last][..k] == schedule[..k];
    }
  }

  // ---------------------------------------------------------------- deliveries too close

  lemma Extend(schedule: seq<Action>, s: State, a: Action) returns (schedule': seq<Action>, s': State)
    requires Exec(schedule) == s && Enabled(s, a)
    ensures schedule' == schedule + [a] && s' == Apply(s, a) && Exec(schedule') == s'
    ensures forall alert :: NotedAt(schedule', |schedule|, alert) <==> Noted(s, a, alert)
    ensures forall n, alert | 0 <= n < |schedule| :: NotedAt(schedule', n, alert) <==> NotedAt(schedule, n, alert)
  {
    schedule', s' := schedule + [a], Apply(s, a);
    assert schedule'[..|schedule|] == schedule;
    assert forall n | 0 <= n < |schedule| :: schedule'[..n] == schedule[..n];
  }

  const ALL_OK := Db(true, true, true, false)
  const ONE_CHANNEL := Some(Rule(Some(1), false))

  /** Two calls with snapshots from before either delivery both deliver, one second apart. */
  lemma OverlappingSends() returns (schedule: seq<Action>)
    ensures |schedule| == 7 && NotedAt(schedule, 5, "a") && NotedAt(schedule, 6, "a")
    ensures schedule[6].at == schedule[5].at + 1
    ensures Undisturbed(schedule, "a")
  {
    var s := Init();
    schedule := [];
    schedule, s := Extend(schedule, s, Raise("a"));
    schedule, s := Extend(schedule, s, Call("a", false));
    schedule, s := Extend(schedule, s, Call("a", false));
    var alert, task := Alert(None, 0, false, false), Task("a", Direct, None, Ready);
    assert s == State(map["a" := alert], map[], 0, [task, task], 0);
    schedule, s := Extend(schedule, s, Check(0, 0, ONE_CHANNEL, false, true, ALL_OK));
    schedule, s := Extend(schedule, s, Check(1, 1, ONE_CHANNEL, false, true, ALL_OK));
    assert s.tasks == [task.(pc := Sending(1, 0, false, 0)), task.(pc := Sending(1, 0, false, 1))];
    schedule, s := Extend(schedule, s, Dispatch(0, 2, true, ALL_OK));
    schedule, s := Extend(schedule, s, Dispatch(1, 3, true, ALL_OK));
    forall n | 0 <= n < 7 ensures !Disturbs(Exec(schedule[..n]), schedule[n], "a") {
      if n == 5 || n == 6 {
        assert NotedAt(schedule, n, "a");
      }
      NoEvaluation(schedule, n);
    }
  }

  /** Without a call by the evaluation service no attempt of it is recorded. */
  lemma {:induction false} NoEvaluation(schedule: seq<Action>, n: nat)
    requires n < |schedule| && forall k | 0 <= k < |schedule| :: schedule[k].Call? ==> !schedule[k].evaluating
    ensures forall t | 0 <= t < |Exec(schedule[..n]).tasks| :: !Exec(schedule[..n]).tasks[t].caller.Evaluating?
  {
    if n > 0 {
      NoEvaluation(schedule, n - 1);
      var s, a := Exec(schedule[..n - 1]), schedule[n - 1];
      assert schedule[..n][..n - 1] == schedule[..n - 1];
      if a.StartPass? {
        PassTasksOk(s.rows, s.alerts, a.at, s.nextId);
        var added := PassTasks(s.rows, s.alerts, a.at, s.nextId);
        assert forall k | 0 <= k < |added| :: PassTaskOk(added[k], s.rows, s.alerts, a.at, s.nextId);
      }
    }
  }

  /** Where the evaluation service puts the stamp back to the time of its check, even calls
      that follow each other deliver within five seconds. */
  lemma BackdatedStamp() returns (schedule: seq<Action>)
    ensures |schedule| == 7 && NotedAt(schedule, 3, "a") && NotedAt(schedule, 6, "a")
    ensures schedule[6].at == schedule[3].at + 1
    ensures 1 < |Exec(schedule[..6]).tasks| && schedule[6].task == 1 && StartOf(schedule[..6], 1) == 4
    ensures Exec(schedule).alerts["a"].notifications == 3
  {
    var s := Init();
    schedule := [];
    schedule, s := Extend(schedule, s, Raise("a"));
    schedule, s := Extend(schedule, s, Call("a", true));
    var task := Task("a", Evaluating, None, Ready);
    assert s == State(map["a" := Alert(None, 0, false, false)], map[], 0, [task], 0);
    schedule, s := Extend(schedule, s, Check(0, 0, ONE_CHANNEL, false, true, ALL_OK));
    schedule, s := Extend(schedule, s, Dispatch(0, 10, true, ALL_OK));
    assert s.alerts["a"] == Alert(Some(0), 2, false, false);
    ghost var four := schedule;
    schedule, s := Extend(schedule, s, Call("a", false));
    schedule, s := Extend(schedule, s, Check(1, 10, ONE_CHANNEL, false, true, ALL_OK));
    ghost var six := schedule;
    schedule, s := Extend(schedule, s, Dispatch(1, 11, true, ALL_OK));
    assert schedule[..6] == six && six[..5] == four + [Call("a", false)] && six[..5][..4] == four;
    assert |Exec(six[..5]).tasks| == 2 && |Exec(four).tasks| == 1;
  }
}
