/** The debounced status of an HTTP health check, backend/main.py. */
module HealthCheck {
  datatype Status = Unknown | Healthy | Unhealthy

  /** What the check has stored: the two counters and the status. */
  datatype Stored = Stored(successes: int, failures: int, status: Status)

  datatype Thresholds = Thresholds(success: int, failure: int)

  function For(t: Thresholds, ok: bool): int {
    if ok then t.success else t.failure
  }

  function Kind(ok: bool): Status {
    if ok then Healthy else Unhealthy
  }

  function Step(t: Thresholds, c: Stored, ok: bool): Stored {
    var successes := if ok then c.successes + 1 else 0;
    var failures := if ok then 0 else c.failures + 1;
    Stored(successes, failures,
           if ok && successes >= t.success then Healthy
           else if !ok && failures >= t.failure then Unhealthy
           else c.status)
  }

  /** What is stored after a whole history of results. */
  function After(t: Thresholds, initial: Status, history: seq<bool>): Stored {
    if history == [] then Stored(0, 0, initial)
    else Step(t, After(t, initial, history[..|history| - 1]), history[|history| - 1])
  }

  // ---------------------------------------------------------------- in terms of the history

  /** The history ends in exactly k results of one kind. */
  predicate EndsIn(history: seq<bool>, ok: bool, k: int) {
    && 0 <= k <= |history|
    && (forall i | |history| - k <= i < |history| :: history[i] == ok)
    && (k < |history| ==> history[|history| - k - 1] != ok)
  }

  /** The result before position n completes or prolongs a streak of its own threshold. */
  predicate Decisive(t: Thresholds, history: seq<bool>, n: int) {
    && 0 < n <= |history|
    && For(t, history[n - 1]) <= n
    && forall i | 0 <= i < n && n - For(t, history[n - 1]) <= i :: history[i] == history[n - 1]
  }

  /** The last position at which a streak stood at its threshold. */
  predicate LastDecisive(t: Thresholds, history: seq<bool>, n: int) {
    && Decisive(t, history, n)
    && forall m | n < m <= |history| :: !Decisive(t, history, m)
  }

  predicate Undecided(t: Thresholds, history: seq<bool>) {
    forall n | 0 < n <= |history| :: !Decisive(t, history, n)
  }

  lemma DecisiveInPrefix(t: Thresholds, before: seq<bool>, later: seq<bool>, n: int)
    requires n <= |before|
    ensures Decisive(t, before, n) <==> Decisive(t, before + later, n)
  {
    assert forall i | 0 <= i < |before| :: (before + later)[i] == before[i];
  }

  lemma EndsInNext(before: seq<bool>, result: bool, ok: bool, k: int)
    requires EndsIn(before, ok, k)
    ensures EndsIn(before + [result], ok, if result == ok then k + 1 else 0)
  {
  }

  /** The counters are the lengths of the trailing streaks, and one of them is zero. */
  lemma {:induction false} CountersAreStreaks(t: Thresholds, initial: Status, history: seq<bool>)
    ensures EndsIn(history, true, After(t, initial, history).successes)
    ensures EndsIn(history, false, After(t, initial, history).failures)
    ensures After(t, initial, history).successes == 0 || After(t, initial, history).failures == 0
  {
    if history != [] {
      var before, result := history[..|history| - 1], history[|history| - 1];
      CountersAreStreaks(t, initial, before);
      EndsInNext(before, result, true, After(t, initial, before).successes);
      EndsInNext(before, result, false, After(t, initial, before).failures);
      assert history == before + [result];
    }
  }

  /** A result that decides nothing leaves the last decision where it was. */
  lemma LastDecisionKept(t: Thresholds, before: seq<bool>, result: bool)
    requires !Decisive(t, before + [result], |before| + 1)
    ensures Undecided(t, before) ==> Undecided(t, before + [result])
    ensures forall n | LastDecisive(t, before, n) :: LastDecisive(t, before + [result], n)
  {
    forall n | n <= |before| ensures Decisive(t, before, n) <==> Decisive(t, before + [result], n) {
      DecisiveInPrefix(t, before, [result], n);
    }
  }

  /** The stored status is the kind of the last result at which a streak stood at its
      threshold, or the initial status when that never happened. Any thresholds. */
  lemma {:induction false} StatusIsLastDecision(t: Thresholds, initial: Status, history: seq<bool>)
    ensures var status := After(t, initial, history).status;
            || (Undecided(t, history) && status == initial)
            || exists n :: LastDecisive(t, history, n) && status == Kind(history[n - 1])
  {
    if history != [] {
      var last := |history| - 1;
      var before := history[..last];
      assert history == before + [history[last]];
      CountersAreStreaks(t, initial, history);
      DecisiveIffCounter(t, initial, history);
      if Decisive(t, history, |history|) {
        assert LastDecisive(t, history, |history|);
      } else {
        StatusIsLastDecision(t, initial, before);
        LastDecisionKept(t, before, history[last]);
        if !Undecided(t, before) {
          var n :| LastDecisive(t, before, n) && After(t, initial, before).status == Kind(before[n - 1]);
          assert LastDecisive(t, history, n);
        }
      }
    }
  }

  /** The counter of the newest result's kind reaches its threshold exactly when the newest
      results, as many as the threshold says, are all of that kind. */
  lemma DecisiveIffCounter(t: Thresholds, initial: Status, history: seq<bool>)
    requires history != []
    ensures var c, ok := After(t, initial, history), history[|history| - 1];
            Decisive(t, history, |history|) <==> (if ok then c.successes else c.failures) >= For(t, ok)
  {
    CountersAreStreaks(t, initial, history);
    var c, ok := After(t, initial, history), history[|history| - 1];
    var k := if ok then c.successes else c.failures;
    assert EndsIn(history, ok, k);
  }

  /** A status never changes without a streak that completes in between: when it differs
      after further results, one of them is decisive for the new status. */
  lemma FlipNeedsStreak(t: Thresholds, initial: Status, before: seq<bool>, later: seq<bool>)
    requires After(t, initial, before).status != After(t, initial, before + later).status
    ensures exists n | |before| < n <= |before + later| ::
              && Decisive(t, before + later, n)
              && After(t, initial, before + later).status == Kind((before + later)[n - 1])
  {
    var all := before + later;
    StatusIsLastDecision(t, initial, before);
    StatusIsLastDecision(t, initial, all);
    forall n | n <= |before| ensures Decisive(t, before, n) <==> Decisive(t, all, n) {
      DecisiveInPrefix(t, before, later, n);
    }
    if !Undecided(t, all) {
      var n :| LastDecisive(t, all, n) && After(t, initial, all).status == Kind(all[n - 1]);
      assert n > |before|;
    }
  }

  // ---------------------------------------------------------------- the row

  class ContainerHttpHealthCheck {
    var successThreshold: int
    var failureThreshold: int
    var consecutiveSuccesses: int
    var consecutiveFailures: int
    var currentStatus: Status

    function Limits(): Thresholds
      reads this
    {
      Thresholds(successThreshold, failureThreshold)
    }

    function Contents(): Stored
      reads this
    {
      Stored(consecutiveSuccesses, consecutiveFailures, currentStatus)
    }

    /** Records one result of a test. */
    method RecordResult(isSuccess: bool)
      modifies this
      ensures Limits() == old(Limits())
      ensures Contents() == Step(old(Limits()), old(Contents()), isSuccess)
      ensures forall initial, history ::
                old(Contents() == After(Limits(), initial, history)) ==>
                Contents() == After(Limits(), initial, history + [isSuccess])
    {
      if isSuccess {
        consecutiveSuccesses := consecutiveSuccesses + 1;
        consecutiveFailures := 0;
      } else {
        consecutiveFailures := consecutiveFailures + 1;
        consecutiveSuccesses := 0;
      }
      if isSuccess && consecutiveSuccesses >= successThreshold {
        currentStatus := Healthy;
      } else if !isSuccess && consecutiveFailures >= failureThreshold {
        currentStatus := Unhealthy;
      }
      assert forall history: seq<bool> :: (history + [isSuccess])[..|history|] == history;
    }
  }
}
