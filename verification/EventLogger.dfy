/** The event logger of backend/event_logger.py with its dictionaries updated in place. */
module EventLogger {
  import opened Basics
  import opened OldestFirst
  import opened DedupCache

  type CorrelationId = string

  const MAX_CORRELATIONS: nat := 1_000
  const CORRELATION_TTL: int := 3_600_000
  const HEADROOM: nat := 50

  function Young(stamps: map<CorrelationId, int>, now: int): map<CorrelationId, int> {
    map k | k in stamps && now - stamps[k] <= CORRELATION_TTL :: stamps[k]
  }

  /** How many correlations a cleanup leaves of n that are young enough. */
  function Remaining(n: nat): nat {
    if n <= MAX_CORRELATIONS then n else MAX_CORRELATIONS - Min(HEADROOM, n - MAX_CORRELATIONS)
  }

  lemma YoungSize(stamps: map<CorrelationId, int>, now: int)
    ensures var n := |set k | k in stamps && now - stamps[k] <= 3_600_000|;
            && |Young(stamps, now)| == n
            && Remaining(n) == if n <= 1_000 then n else 1_000 - (if n - 1_000 < 50 then n - 1_000 else 50)
  {
    assert Young(stamps, now).Keys == set k | k in stamps && now - stamps[k] <= 3_600_000;
    assert |Young(stamps, now)| == |Young(stamps, now).Keys|;
  }

  class EventLogger {
    var recent: Cache                                // _recent_events
    var correlations: map<CorrelationId, seq<string>>  // _active_correlations
    var stamps: map<CorrelationId, int>              // _correlation_timestamps

    /** The two correlation dictionaries have the same keys. */
    ghost predicate Valid()
      reads this
    {
      correlations.Keys == stamps.Keys
    }

    constructor ()
      ensures Valid() && recent == map[] && correlations == map[]
    {
      recent, correlations, stamps := map[], map[], map[];
    }

    /** The deduplication of log_event: whether the event is logged. */
    method LogEvent(e: Event) returns (accepted: bool)
      modifies this`recent
      ensures accepted <==> !(e.key in old(recent) && e.at - old(recent)[e.key] < 3_000)
      ensures Logged(old(recent), e, recent)
      ensures accepted ==> |recent| <= 5_000
    {
      if e.key in recent {
        if e.at - recent[e.key] < WINDOW {
          return false;
        }
      }
      recent := recent[e.key := e.at];
      if |recent| > CLEANUP_ABOVE {
        recent := Unexpired(recent, e.at);
        if |recent| > MAX_RECENT {
          recent := TrimOldest(recent, |recent| - MAX_RECENT);
        }
      }
      return true;
    }

    /** create_correlation_id with a fresh id */
    method CreateCorrelation(id: CorrelationId, now: int)
      requires Valid()
      modifies this
      ensures Valid()
      ensures correlations == old(correlations)[id := []] && stamps == old(stamps)[id := now]
      ensures recent == old(recent)
    {
      correlations := correlations[id := []];
      stamps := stamps[id := now];
    }

    method EndCorrelation(id: CorrelationId)
      requires Valid()
      modifies this
      ensures Valid()
      ensures correlations == old(correlations) - {id} && stamps == old(stamps) - {id}
      ensures recent == old(recent)
    {
      if id in correlations {
        correlations := correlations - {id};
      }
      if id in stamps {
        stamps := stamps - {id};
      }
    }

    /** _cleanup_stale_correlations: what is older than the TTL goes; if too many are left,
        the oldest go until 50 places, or as many as were in excess, are free. */
    method CleanupStaleCorrelations(now: int)
      requires Valid()
      modifies this
      ensures Valid() && recent == old(recent)
      ensures forall k | k in stamps :: now - stamps[k] <= 3_600_000
      ensures var n := |set k | k in old(stamps) && now - old(stamps)[k] <= 3_600_000|;
              |correlations| == if n <= 1_000 then n else 1_000 - (if n - 1_000 < 50 then n - 1_000 else 50)
      ensures var young := Young(old(stamps), now);
              OldestRemoved(young, |young| - Remaining(|young|), stamps)
      ensures |correlations| == Remaining(|Young(old(stamps), now)|)
      ensures forall k | k in correlations :: k in old(correlations) && correlations[k] == old(correlations)[k]
    {
      var stale := set k | k in stamps && now - stamps[k] > CORRELATION_TTL;
      Delete(stale);
      ghost var young := Young(old(stamps), now);
      assert stamps == young;
      YoungSize(old(stamps), now);
      EqualSizes();
      if |correlations| > MAX_CORRELATIONS {
        var excess := |correlations| - MAX_CORRELATIONS;
        var headroom := Min(HEADROOM, excess);
        var toRemove := Min(excess + headroom, |stamps|);
        var kept := TrimOldest(stamps, toRemove);
        Delete(stamps.Keys - kept.Keys);
        assert stamps == kept;
        EqualSizes();
      }
    }

    /** Deletes the ids from both dictionaries. */
    method Delete(ids: set<CorrelationId>)
      requires Valid()
      modifies this`correlations, this`stamps
      ensures Valid()
      ensures correlations == old(correlations) - ids && stamps == old(stamps) - ids
    {
      correlations := correlations - ids;
      stamps := stamps - ids;
    }

    lemma EqualSizes()
      requires Valid()
      ensures |correlations| == |stamps|
    {
      assert |correlations.Keys| == |stamps.Keys|;
    }
  }

  // ---------------------------------------------------------------- the event processor

  datatype Read = Got(event: nat) | QueueError | Cancelled

  const MAX_CONSECUTIVE_QUEUE_ERRORS: nat := 5

  /** How many queue errors in a row end the reads. */
  function ErrorsInARow(answers: seq<Read>): nat {
    if answers != [] && answers[|answers| - 1].QueueError? then ErrorsInARow(answers[..|answers| - 1]) + 1 else 0
  }

  function Events(answers: seq<Read>): seq<nat> {
    if answers == [] then []
    else
      match answers[|answers| - 1]
      case Got(e) => Events(answers[..|answers| - 1]) + [e]
      case _ => Events(answers[..|answers| - 1])
  }

  /** Five errors in a row are five errors at the end. */
  lemma {:induction false} RowIff(answers: seq<Read>, n: nat)
    ensures ErrorsInARow(answers) >= n <==>
            n <= |answers| && forall m | |answers| - n <= m < |answers| :: answers[m].QueueError?
  {
    if answers != [] && n > 0 {
      var last := |answers| - 1;
      if answers[last].QueueError? {
        RowIff(answers[..last], n - 1);
      }
    }
  }

  /** The five reads before the n-th were errors. */
  predicate FiveErrors(answers: seq<Read>, n: nat)
    requires n <= |answers|
  {
    n >= 5 && forall m | n - 5 <= m < n :: answers[m].QueueError?
  }

  lemma RowsOfFive(answers: seq<Read>)
    ensures forall n | 0 <= n <= |answers| :: ErrorsInARow(answers[..n]) >= 5 <==> FiveErrors(answers, n)
  {
    forall n | 0 <= n <= |answers| ensures ErrorsInARow(answers[..n]) >= 5 <==> FiveErrors(answers, n) {
      RowIff(answers[..n], 5);
    }
  }

  /** The events handled are those that were read, in their order. */
  lemma {:induction false} EventsInOrder(answers: seq<Read>, i: nat)
    requires i < |answers|
    ensures |Events(answers[..i])| <= |Events(answers)|
    ensures answers[i].Got? ==>
              |Events(answers[..i])| < |Events(answers)| &&
              Events(answers)[|Events(answers[..i])|] == answers[i].event
    ensures !answers[i].Got? ==> Events(answers[..i + 1]) == Events(answers[..i])
  {
    var last := |answers| - 1;
    assert answers[..i + 1][..i] == answers[..i];
    if i < last {
      EventsInOrder(answers[..last], i);
      assert answers[..last][..i] == answers[..i];
    } else {
      assert answers[..i + 1] == answers;
    }
  }

  /** _process_events over what the queue answers: it gives up at the first fifth queue error
      in a row, stops when cancelled, and handles every event read until then. */
  method ProcessEvents(answers: seq<Read>) returns (handled: seq<nat>, failed: bool, n: nat)
    ensures n <= |answers| && handled == Events(answers[..n])
    ensures forall m | 0 <= m < n - 1 :: !answers[m].Cancelled?
    ensures failed <==> FiveErrors(answers, n)
    ensures forall m | 0 <= m < n :: !FiveErrors(answers, m)
    ensures n == |answers| || failed || (n > 0 && answers[n - 1].Cancelled?)
  {
    handled, failed, n := [], false, 0;
    RowsOfFive(answers);
    var errors := 0;
    while n < |answers|
      invariant n <= |answers| && !failed && handled == Events(answers[..n])
      invariant errors == ErrorsInARow(answers[..n]) < MAX_CONSECUTIVE_QUEUE_ERRORS
      invariant forall m | 0 <= m < n :: ErrorsInARow(answers[..m]) < MAX_CONSECUTIVE_QUEUE_ERRORS
      invariant forall m | 0 <= m < n :: !answers[m].Cancelled?
    {
      assert answers[..n + 1][..n] == answers[..n];
      n := n + 1;
      match answers[n - 1] {
        case Got(e) =>
          errors := 0;
          handled := handled + [e];
        case Cancelled =>
          return;
        case QueueError =>
          errors := errors + 1;
          if errors >= MAX_CONSECUTIVE_QUEUE_ERRORS {
            failed := true;
            return;
          }
      }
    }
  }
}
