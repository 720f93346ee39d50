/**
  The retry rows of backend/notifications.py: what _queue_retry and one retry of
  _process_retry_queue do to a row, and what becomes of a row in the end. Times are seconds.
*/
module RetryQueue {
  import opened Wrappers

  type AlertId = string
  type RowId = nat   // rows are numbered in order; the column is autoincrement, so no number returns

  const MAX_RETRIES: nat := 5
  const FIRST_RETRY: int := 60

  /** How a call of send_alert_v2 ends: a channel delivered; every channel failed, so a retry
      was queued; or nothing was sent and nothing was queued. */
  datatype Verdict = Delivered | AllFailed | Unsent

  /** `queuedAt` records when the row was last (re)queued by _queue_retry. */
  datatype Retry = Retry(alert: AlertId, attempts: nat, due: int, queuedAt: int)

  // ---------------------------------------------------------------- one row

  function NewRow(alert: AlertId, now: int): Retry {
    Retry(alert, 0, now + FIRST_RETRY, now)
  }

  function Requeue(row: Retry, now: int): Retry {
    row.(attempts := 0, due := now + FIRST_RETRY, queuedAt := now)
  }

  function Backoff(attempts: nat): int {
    [60, 300, 900, 3600, 21600][if attempts < 4 then attempts else 4]
  }

  /** What the retry loop leaves of the row when a send returns at time t. */
  function Record(row: Retry, delivered: bool, t: int): Option<Retry> {
    if delivered || row.attempts + 1 >= MAX_RETRIES then None
    else Some(row.(attempts := row.attempts + 1, due := t + Backoff(row.attempts + 1)))
  }

  /** What a retry that ended with verdict v at time t leaves of its row: failing on all
      channels, it has requeued the row before it records the attempt. */
  function Attempt(row: Retry, v: Verdict, t: int): Option<Retry> {
    Record(if v.AllFailed? then Requeue(row, t) else row, v.Delivered?, t)
  }

  /** What can happen to a row: a send outside the retry loop requeues it, or a retry ends. */
  datatype RowEvent = Requeued(t: int) | Attempted(v: Verdict, t: int)

  function After(row: Option<Retry>, e: RowEvent): Option<Retry> {
    match row
    case None => None
    case Some(r) =>
      match e
      case Requeued(t) => Some(Requeue(r, t))
      case Attempted(v, t) => Attempt(r, v, t)
  }

  function Fate(row: Retry, events: seq<RowEvent>): Option<Retry> {
    if events == [] then Some(row)
    else After(Fate(row, events[..|events| - 1]), events[|events| - 1])
  }

  /** The retries since the last reset; a retry that fails on all channels resets and counts. */
  function Level(events: seq<RowEvent>): nat {
    if events == [] then 0
    else
      match events[|events| - 1]
      case Requeued(_) => 0
      case Attempted(AllFailed, _) => 1
      case Attempted(_, _) => Level(events[..|events| - 1]) + 1
  }

  /** The n-th event did not deliver, nor was it the fifth retry without a reset. */
  predicate SurvivesAt(events: seq<RowEvent>, n: nat)
    requires 0 < n <= |events|
  {
    Level(events[..n]) < MAX_RETRIES && !(events[n - 1].Attempted? && events[n - 1].v.Delivered?)
  }

  /** Nothing was delivered, and no five retries went by without a reset. */
  ghost predicate Survives(events: seq<RowEvent>) {
    forall n | 0 < n <= |events| :: SurvivesAt(events, n)
  }

  /** Over any interleaving of retries and requeues, a row is dropped exactly when one retry
      delivers or five in a row go by without a reset; until then its count, 0 to 4, is the
      number of retries since the last reset. */
  lemma {:induction false} RowLaw(alert: AlertId, queuedAt: int, events: seq<RowEvent>)
    ensures Fate(NewRow(alert, queuedAt), events).Some? <==> Survives(events)
    ensures var row := Fate(NewRow(alert, queuedAt), events);
            row.Some? ==> row.value.alert == alert && row.value.attempts == Level(events) < MAX_RETRIES
  {
    if events != [] {
      var n := |events| - 1;
      var prefix, e := events[..n], events[n];
      RowLaw(alert, queuedAt, prefix);
      SurvivesNext(events);
    }
  }

  lemma SurvivesAtPrefix(events: seq<RowEvent>, n: nat, m: nat)
    requires 0 < m <= n <= |events|
    ensures SurvivesAt(events[..n], m) <==> SurvivesAt(events, m)
  {
    assert events[..n][..m] == events[..m];
  }

  lemma SurvivesNext(events: seq<RowEvent>)
    requires events != []
    ensures var n := |events| - 1;
            Survives(events) <==>
            && Survives(events[..n])
            && Level(events) < MAX_RETRIES
            && !(events[n].Attempted? && events[n].v.Delivered?)
  {
    var n := |events| - 1;
    assert events[..|events|] == events;
    forall m | 0 < m <= n ensures SurvivesAt(events[..n], m) <==> SurvivesAt(events, m) {
      SurvivesAtPrefix(events, n, m);
    }
    SurvivesSplit(events, n);
  }

  lemma SurvivesSplit(events: seq<RowEvent>, n: nat)
    requires |events| == n + 1
    requires forall m | 0 < m <= n :: SurvivesAt(events[..n], m) <==> SurvivesAt(events, m)
    ensures Survives(events) <==> Survives(events[..n]) && SurvivesAt(events, n + 1)
  {
    if Survives(events) {
      forall m | 0 < m <= n ensures SurvivesAt(events[..n], m) {
        assert SurvivesAt(events, m);
      }
    }
    if Survives(events[..n]) && SurvivesAt(events, n + 1) {
      forall m | 0 < m <= n + 1 ensures SurvivesAt(events, m) {
        assert m <= n ==> SurvivesAt(events[..n], m);
      }
    }
  }

  /** When the row is due next: a minute after it was queued or requeued, and after a retry the
      longer the more retries it has had since. */
  lemma DueLaw(alert: AlertId, queuedAt: int, events: seq<RowEvent>)
    requires Fate(NewRow(alert, queuedAt), events).Some?
    ensures var due := Fate(NewRow(alert, queuedAt), events).value.due;
            if events == [] then due == queuedAt + 60
            else
              match events[|events| - 1]
              case Requeued(t) => due == t + 60
              case Attempted(v, t) =>
                1 <= Level(events) <= 4 && !v.Delivered? &&
                due == t + match Level(events) case 1 => 300 case 2 => 900 case 3 => 3600 case _ => 21600
  {
    RowLaw(alert, queuedAt, events);
  }

  /** Each retry comes when its row is due. */
  ghost predicate Timely(row: Retry, events: seq<RowEvent>) {
    forall n | 0 <= n < |events| && events[n].Attempted? ::
      Fate(row, events[..n]).Some? ==> events[n].t >= Fate(row, events[..n]).value.due
  }

  /** A row whose retries never send nor requeue goes with the fifth retry, not before, and
      not earlier than the whole schedule after it was queued. */
  lemma GivesUpAfterFive(alert: AlertId, queuedAt: int, ts: seq<int>)
    requires |ts| == 5
    requires Timely(NewRow(alert, queuedAt), Skips(ts))
    ensures forall n | 0 <= n < 5 :: Fate(NewRow(alert, queuedAt), Skips(ts)[..n]).Some?
    ensures Fate(NewRow(alert, queuedAt), Skips(ts)).None?
    ensures ts[4] - queuedAt >= 60 + 300 + 900 + 3600 + 21600
  {
    var row, events := NewRow(alert, queuedAt), Skips(ts);
    assert Fate(row, events[..0]) == Some(row);
    FateStep(row, events, 0);
    FateStep(row, events, 1);
    FateStep(row, events, 2);
    FateStep(row, events, 3);
    FateStep(row, events, 4);
    assert events[..5] == events;
  }

  function Skips(ts: seq<int>): (events: seq<RowEvent>)
    ensures |events| == |ts|
    ensures forall k | 0 <= k < |ts| :: events[k] == Attempted(Unsent, ts[k])
  {
    seq(|ts|, k requires 0 <= k < |ts| => Attempted(Unsent, ts[k]))
  }

  lemma FateStep(row: Retry, events: seq<RowEvent>, n: nat)
    requires n < |events|
    ensures Fate(row, events[..n + 1]) == After(Fate(row, events[..n]), events[n])
  {
    assert events[..n + 1][..n] == events[..n];
  }

  lemma TimelyPrefix(row: Retry, events: seq<RowEvent>, k: nat)
    requires Timely(row, events) && k <= |events|
    ensures Timely(row, events[..k])
  {
    assert forall n | 0 <= n < k :: events[..k][..n] == events[..n];
  }

  /** A row whose retries fail on all channels is never dropped: its count stays at one, and
      its retries come at least five minutes apart, however many there are. */
  lemma {:induction false} NeverGivesUp(alert: AlertId, queuedAt: int, events: seq<RowEvent>)
    requires forall n | 0 <= n < |events| :: events[n].Attempted? && events[n].v.AllFailed?
    requires Timely(NewRow(alert, queuedAt), events)
    ensures Fate(NewRow(alert, queuedAt), events).Some?
    ensures events != [] ==>
            var row := Fate(NewRow(alert, queuedAt), events).value;
            row.attempts == 1 && row.due == events[|events| - 1].t + 300
    ensures forall n | 0 < n < |events| :: events[n].t >= events[n - 1].t + 300
  {
    if events != [] {
      var k := |events| - 1;
      var prefix, row := events[..k], NewRow(alert, queuedAt);
      TimelyPrefix(row, events, k);
      NeverGivesUp(alert, queuedAt, prefix);
      assert Fate(row, events) == Attempt(Fate(row, prefix).value, AllFailed, events[k].t);
      assert events[k].t >= Fate(row, prefix).value.due;
    }
  }

  // ---------------------------------------------------------------- the table

  ghost predicate OneRowPerAlert(rows: map<RowId, Retry>) {
    forall a, b | a in rows && b in rows && rows[a].alert == rows[b].alert :: a == b
  }

  ghost predicate RowsOk(rows: map<RowId, Retry>, nextId: RowId) {
    && OneRowPerAlert(rows)
    && (forall id | id in rows :: id < nextId && rows[id].attempts < MAX_RETRIES)
  }

  predicate HasRow(rows: map<RowId, Retry>, alert: AlertId) {
    exists id | id in rows :: rows[id].alert == alert
  }

  /** The table after _queue_retry. */
  function Queued(rows: map<RowId, Retry>, nextId: RowId, alert: AlertId, now: int): map<RowId, Retry> {
    if HasRow(rows, alert) then
      map id | id in rows :: if rows[id].alert == alert then Requeue(rows[id], now) else rows[id]
    else rows[nextId := NewRow(alert, now)]
  }
}
