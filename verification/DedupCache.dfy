/**
  The bounded cache with which backend/event_logger.py drops repeated events (log_event),
  against an unbounded record of when each key was last accepted. Times are milliseconds.
*/
module DedupCache {
  import opened Basics
  import opened OldestFirst

  type EventKey = string

  datatype Event = Event(key: EventKey, at: int)

  type Cache = map<EventKey, int>

  const WINDOW: int := 3_000
  const TTL: int := 300_000
  const MAX_RECENT: nat := 5_000
  const CLEANUP_ABOVE: nat := 4_000   // MAX_RECENT_EVENTS * 0.8

  /** The event is not a repetition of one recorded less than three seconds before. */
  predicate Accepts(recent: Cache, e: Event) {
    !(e.key in recent && e.at - recent[e.key] < WINDOW)
  }

  function Unexpired(recent: Cache, now: int): Cache {
    map k | k in recent && recent[k] >= now - TTL :: recent[k]
  }

  /** What recording the event may leave in the cache: among equally old entries any may go. */
  ghost predicate Recorded(recent: Cache, e: Event, recent': Cache) {
    var added := recent[e.key := e.at];
    var fresh_ := Unexpired(added, e.at);
    if |added| <= CLEANUP_ABOVE then recent' == added
    else if |fresh_| <= MAX_RECENT then recent' == fresh_
    else OldestRemoved(fresh_, |fresh_| - MAX_RECENT, recent')
  }

  ghost predicate Logged(recent: Cache, e: Event, recent': Cache) {
    if Accepts(recent, e) then Recorded(recent, e, recent') else recent' == recent
  }

  // ---------------------------------------------------------------- the reference

  /** When each key was last accepted, remembered without bound. */
  function Last(trace: seq<Event>): map<EventKey, int> {
    if trace == [] then map[]
    else
      var e := trace[|trace| - 1];
      var before := Last(trace[..|trace| - 1]);
      if Accepts(before, e) then before[e.key := e.at] else before
  }

  predicate AcceptedAt(trace: seq<Event>, i: nat)
    requires i < |trace|
  {
    Accepts(Last(trace[..i]), trace[i])
  }

  predicate Monotone(trace: seq<Event>) {
    forall i, j | 0 <= i <= j < |trace| :: trace[i].at <= trace[j].at
  }

  /** The keys recorded in the window of three seconds from a time on. */
  function RecordedIn(trace: seq<Event>, start: int): set<EventKey> {
    set i | 0 <= i < |trace| && AcceptedAt(trace, i) && start <= trace[i].at < start + WINDOW :: trace[i].key
  }

  ghost predicate RateBounded(trace: seq<Event>) {
    forall start: int :: |RecordedIn(trace, start)| <= MAX_RECENT
  }

  /** The caches of a run over the trace, from the empty one on. */
  ghost predicate IsRun(trace: seq<Event>, caches: seq<Cache>) {
    && |caches| == |trace| + 1
    && caches[0] == map[]
    && forall i | 0 <= i < |trace| :: Logged(caches[i], trace[i], caches[i + 1])
  }

  /** After every part of the trace, cache and reference decide alike on whatever comes next. */
  ghost predicate DecidesAlike(trace: seq<Event>, caches: seq<Cache>)
    requires |caches| == |trace| + 1
  {
    forall n, e: Event | 0 <= n <= |trace| && (n > 0 ==> e.at >= trace[n - 1].at) ::
      Accepts(caches[n], e) <==> Accepts(Last(trace[..n]), e)
  }

  // ---------------------------------------------------------------- the cap

  lemma RecordedSize(recent: Cache, e: Event, recent': Cache)
    requires Recorded(recent, e, recent')
    ensures |recent'| <= MAX_RECENT
  {
  }

  /** On any run, whatever the times, the cache never holds more than 5000 entries. */
  lemma {:induction false} NeverOverfull(trace: seq<Event>, caches: seq<Cache>, n: nat)
    requires IsRun(trace, caches) && n <= |trace|
    ensures |caches[n]| <= 5_000
  {
    if n > 0 {
      NeverOverfull(trace, caches, n - 1);
      assert Logged(caches[n - 1], trace[n - 1], caches[n]);
      if Accepts(caches[n - 1], trace[n - 1]) {
        RecordedSize(caches[n - 1], trace[n - 1], caches[n]);
      }
    }
  }

  // ---------------------------------------------------------------- agreement

  lemma {:induction false} LastAccepted(trace: seq<Event>, k: EventKey) returns (i: nat)
    requires k in Last(trace)
    ensures i < |trace| && AcceptedAt(trace, i) && trace[i] == Event(k, Last(trace)[k])
  {
    var n := |trace| - 1;
    if AcceptedAt(trace, n) && trace[n].key == k {
      i := n;
    } else {
      i := LastAccepted(trace[..n], k);
      assert trace[..n][..i] == trace[..i];
    }
  }

  lemma {:induction false} LastNewest(trace: seq<Event>, i: nat)
    requires Monotone(trace) && i < |trace| && AcceptedAt(trace, i)
    ensures trace[i].key in Last(trace) && Last(trace)[trace[i].key] >= trace[i].at
    ensures forall k | k in Last(trace) :: Last(trace)[k] <= trace[|trace| - 1].at
  {
    var n := |trace| - 1;
    if i < n {
      assert trace[..n][..i] == trace[..i];
      LastNewest(trace[..n], i);
    } else {
      forall k | k in Last(trace[..n]) ensures Last(trace[..n])[k] <= trace[n].at {
        var j := LastAccepted(trace[..n], k);
      }
    }
  }

  /** The cache says nothing wrong, and lacks only keys out of their window. */
  ghost predicate Faithful(last: map<EventKey, int>, recent: Cache, now: int) {
    && (forall k | k in recent :: k in last && recent[k] == last[k])
    && (forall k | k in last && k !in recent :: now - last[k] >= WINDOW)
  }

  lemma FaithfulDecides(last: map<EventKey, int>, recent: Cache, now: int, e: Event)
    requires Faithful(last, recent, now) && e.at >= now
    ensures Accepts(recent, e) <==> Accepts(last, e)
  {
  }

  lemma KeysOfRecordedIn(trace: seq<Event>, start: int, keys: set<EventKey>)
    requires Monotone(trace) && trace != [] && trace[|trace| - 1].at < start + WINDOW
    requires forall k | k in keys :: k in Last(trace) && Last(trace)[k] >= start
    ensures keys <= RecordedIn(trace, start)
  {
    forall k | k in keys ensures k in RecordedIn(trace, start) {
      var i := LastAccepted(trace, k);
    }
  }

  lemma FewRecorded(trace: seq<Event>, start: int, keys: set<EventKey>)
    requires RateBounded(trace) && keys <= RecordedIn(trace, start)
    ensures |keys| <= MAX_RECENT
  {
    SubsetSize(keys, RecordedIn(trace, start));
  }

  /** Evicting for lack of room only hits entries out of their window. */
  lemma EvictionFaithful(trace: seq<Event>, added: Cache, recent': Cache)
    requires Monotone(trace) && trace != [] && RateBounded(trace)
    requires |added| > MAX_RECENT && OldestRemoved(added, |added| - MAX_RECENT, recent')
    requires Faithful(Last(trace), added, trace[|trace| - 1].at)
    ensures Faithful(Last(trace), recent', trace[|trace| - 1].at)
  {
    var last, now := Last(trace), trace[|trace| - 1].at;
    forall k | k in last && k !in recent' ensures now - last[k] >= WINDOW {
      if k in added && now - last[k] < WINDOW {
        var keys := recent'.Keys + {k};
        assert |keys| == MAX_RECENT + 1;
        KeysOfRecordedIn(trace, last[k], keys);
        FewRecorded(trace, last[k], keys);
        assert false;
      }
    }
  }

  lemma StepFaithful(trace: seq<Event>, recent: Cache, recent': Cache)
    requires Monotone(trace) && trace != [] && RateBounded(trace)
    requires var n := |trace| - 1;
             && (if n == 0 then Last(trace[..n]) == map[] && recent == map[]
                 else Faithful(Last(trace[..n]), recent, trace[n - 1].at))
             && Logged(recent, trace[n], recent')
    ensures Faithful(Last(trace), recent', trace[|trace| - 1].at)
  {
    var n := |trace| - 1;
    var e, before, last := trace[n], Last(trace[..n]), Last(trace);
    assert Faithful(before, recent, e.at);
    FaithfulDecides(before, recent, e.at, e);
    if Accepts(recent, e) {
      var added := recent[e.key := e.at];
      var fresh_ := Unexpired(added, e.at);
      assert Faithful(last, added, e.at);
      assert Faithful(last, fresh_, e.at);
      if |added| > CLEANUP_ABOVE && |fresh_| > MAX_RECENT {
        EvictionFaithful(trace, fresh_, recent');
      }
    }
  }

  lemma {:induction false} BoundedPrefix(trace: seq<Event>, n: nat)
    requires RateBounded(trace) && n <= |trace|
    ensures RateBounded(trace[..n])
  {
    forall start: int ensures |RecordedIn(trace[..n], start)| <= MAX_RECENT {
      PrefixRecords(trace, n, start);
      SubsetSize(RecordedIn(trace[..n], start), RecordedIn(trace, start));
    }
  }

  lemma PrefixRecords(trace: seq<Event>, n: nat, start: int)
    requires n <= |trace|
    ensures RecordedIn(trace[..n], start) <= RecordedIn(trace, start)
  {
    forall i | 0 <= i < n ensures AcceptedAt(trace[..n], i) <==> AcceptedAt(trace, i) {
      assert trace[..n][..i] == trace[..i];
    }
  }

  lemma {:induction false} RunFaithful(trace: seq<Event>, caches: seq<Cache>)
    requires Monotone(trace) && RateBounded(trace) && IsRun(trace, caches) && trace != []
    ensures Faithful(Last(trace), caches[|trace|], trace[|trace| - 1].at)
  {
    var n := |trace| - 1;
    BoundedPrefix(trace, n);
    assert IsRun(trace[..n], caches[..n + 1]);
    if n > 0 {
      RunFaithful(trace[..n], caches[..n + 1]);
    }
    StepFaithful(trace, caches[n], caches[n + 1]);
  }

  /** If no more than 5000 distinct keys are recorded in any three seconds, the bounded cache
      decides like the unbounded record throughout. */
  lemma BoundedRateAgrees(trace: seq<Event>, caches: seq<Cache>)
    requires Monotone(trace) && IsRun(trace, caches) && RateBounded(trace)
    ensures DecidesAlike(trace, caches)
  {
    forall n, e: Event | 0 <= n <= |trace| && (n > 0 ==> e.at >= trace[n - 1].at)
      ensures Accepts(caches[n], e) <==> Accepts(Last(trace[..n]), e)
    {
      if n > 0 {
        BoundedPrefix(trace, n);
        assert IsRun(trace[..n], caches[..n + 1]);
        RunFaithful(trace[..n], caches[..n + 1]);
        FaithfulDecides(Last(trace[..n]), caches[n], trace[n - 1].at, e);
      }
    }
  }

  lemma NoneRecorded(start: int)
    ensures RecordedIn([], start) == {}
  {
  }

  /** A window filled over the limit by the last event: a repetition is let through. */
  lemma OverfullWindow(trace: seq<Event>, recent: Cache, start: int) returns (e: Event)
    requires Monotone(trace) && trace != [] && |recent| <= MAX_RECENT
    requires |RecordedIn(trace, start)| > MAX_RECENT
    requires trace[|trace| - 1].at < start + WINDOW
    ensures e.at == trace[|trace| - 1].at && Accepts(recent, e) && !Accepts(Last(trace), e)
  {
    var keys := RecordedIn(trace, start);
    if keys <= recent.Keys {
      SubsetSize(keys, recent.Keys);
      assert false;
    }
    var k :| k in keys && k !in recent.Keys;
    var i :| 0 <= i < |trace| && AcceptedAt(trace, i) && start <= trace[i].at < start + WINDOW && trace[i].key == k;
    LastNewest(trace, i);
    e := Event(k, trace[|trace| - 1].at);
  }

  /** Conversely, once more than 5000 keys are recorded within three seconds, a repetition of
      one of them is let through. */
  lemma {:induction false} ExcessDisagrees(trace: seq<Event>, caches: seq<Cache>, start: int) returns (n: nat, e: Event)
    requires Monotone(trace) && IsRun(trace, caches) && |RecordedIn(trace, start)| > MAX_RECENT
    ensures n <= |trace| && (n > 0 ==> e.at >= trace[n - 1].at)
    ensures Accepts(caches[n], e) && !Accepts(Last(trace[..n]), e)
  {
    NoneRecorded(start);
    var k := |trace| - 1;
    if |RecordedIn(trace[..k], start)| > MAX_RECENT {
      n, e := ExcessDisagrees(trace[..k], caches[..k + 1], start);
      assert trace[..k][..n] == trace[..n];
    } else {
      NewlyRecorded(trace, start);
      NeverOverfull(trace, caches, |trace|);
      n := |trace|;
      assert trace[..n] == trace;
      e := OverfullWindow(trace, caches[n], start);
    }
  }

  lemma NewlyRecorded(trace: seq<Event>, start: int)
    requires trace != []
    requires |RecordedIn(trace, start)| > MAX_RECENT >= |RecordedIn(trace[..|trace| - 1], start)|
    ensures start <= trace[|trace| - 1].at < start + WINDOW
  {
    var n := |trace| - 1;
    if !(start <= trace[n].at < start + WINDOW) {
      forall k | k in RecordedIn(trace, start) ensures k in RecordedIn(trace[..n], start) {
        var i :| 0 <= i < |trace| && AcceptedAt(trace, i) && start <= trace[i].at < start + WINDOW && trace[i].key == k;
        assert trace[..n][..i] == trace[..i];
        assert AcceptedAt(trace[..n], i);
      }
      SubsetSize(RecordedIn(trace, start), RecordedIn(trace[..n], start));
    }
  }

  /** The cache is as good as the unbounded record exactly on the traces that respect the rate. */
  lemma AgreesIff(trace: seq<Event>, caches: seq<Cache>)
    requires Monotone(trace) && IsRun(trace, caches)
    ensures DecidesAlike(trace, caches) <==> RateBounded(trace)
  {
    if RateBounded(trace) {
      BoundedRateAgrees(trace, caches);
    } else {
      var start: int :| |RecordedIn(trace, start)| > MAX_RECENT;
      var n, e := ExcessDisagrees(trace, caches, start);
    }
  }

  // ---------------------------------------------------------------- a trace beyond the rate

  /** Keys of different lengths. */
  function KeyNo(n: nat): EventKey {
    seq(n, _ => 'x')
  }

  /** n events of different keys at one moment. */
  function Burst(n: nat): seq<Event> {
    seq(n, i requires 0 <= i < n => Event(KeyNo(i), 0))
  }

  lemma KeysDiffer(i: nat, j: nat)
    requires i < j
    ensures KeyNo(i) != KeyNo(j)
  {
    assert |KeyNo(i)| == i && |KeyNo(j)| == j;
  }

  lemma BurstAccepts(n: nat, i: nat)
    requires i < n
    ensures AcceptedAt(Burst(n), i)
  {
    var trace := Burst(n);
    if KeyNo(i) in Last(trace[..i]) {
      var j := LastAccepted(trace[..i], KeyNo(i));
      KeysDiffer(j, i);
      assert false;
    }
  }

  /** All of them are recorded. */
  lemma {:induction false} BurstRecords(n: nat)
    ensures |RecordedIn(Burst(n), 0)| == n
    ensures forall k | k in RecordedIn(Burst(n), 0) :: |k| < n
  {
    if n == 0 {
      NoneRecorded(0);
      assert Burst(0) == [];
    } else {
      BurstRecords(n - 1);
      BurstSplits(n);
      assert |KeyNo(n - 1)| == n - 1;
    }
  }

  lemma BurstSplits(n: nat)
    requires n > 0
    ensures RecordedIn(Burst(n), 0) == RecordedIn(Burst(n - 1), 0) + {KeyNo(n - 1)}
  {
    var all, fewer := RecordedIn(Burst(n), 0), RecordedIn(Burst(n - 1), 0);
    forall k ensures k in all <==> k in fewer || k == KeyNo(n - 1) {
      if k in all {
        var i :| 0 <= i < n && AcceptedAt(Burst(n), i) && Burst(n)[i].key == k;
        if i < n - 1 {
          BurstAccepts(n - 1, i);
          assert Burst(n - 1)[i].key == k;
        }
      }
      if k in fewer {
        var i :| 0 <= i < n - 1 && AcceptedAt(Burst(n - 1), i) && Burst(n - 1)[i].key == k;
        BurstAccepts(n, i);
        assert Burst(n)[i].key == k;
      }
      if k == KeyNo(n - 1) {
        BurstAccepts(n, n - 1);
        assert Burst(n)[n - 1].key == k;
      }
    }
  }

  lemma LoggedExists(recent: Cache, e: Event) returns (recent': Cache)
    ensures Logged(recent, e, recent')
  {
    if !Accepts(recent, e) {
      recent' := recent;
    } else {
      var added := recent[e.key := e.at];
      var fresh_ := Unexpired(added, e.at);
      if |added| <= CLEANUP_ABOVE {
        recent' := added;
      } else if |fresh_| <= MAX_RECENT {
        recent' := fresh_;
      } else {
        recent' := RemovalExists(fresh_, |fresh_| - MAX_RECENT);
      }
    }
  }

  /** Every trace has a run. */
  lemma {:induction false} RunExists(trace: seq<Event>) returns (caches: seq<Cache>)
    ensures IsRun(trace, caches)
  {
    if trace == [] {
      caches := [map[]];
    } else {
      var n := |trace| - 1;
      var before := RunExists(trace[..n]);
      var next := LoggedExists(before[n], trace[n]);
      caches := before + [next];
      forall i | 0 <= i < |trace| ensures Logged(caches[i], trace[i], caches[i + 1]) {
        if i < n {
          assert Logged(before[i], trace[..n][i], before[i + 1]);
        }
      }
    }
  }

  /** 5001 keys at one moment: whatever is evicted, the cache then lets a repetition through
      that the unbounded record stops. */
  lemma BurstDisagrees(caches: seq<Cache>)
    requires IsRun(Burst(MAX_RECENT + 1), caches)
    ensures !DecidesAlike(Burst(MAX_RECENT + 1), caches)
  {
    BurstRecords(MAX_RECENT + 1);
    assert !RateBounded(Burst(MAX_RECENT + 1));
    AgreesIff(Burst(MAX_RECENT + 1), caches);
  }

  lemma BurstHasRun() returns (caches: seq<Cache>)
    ensures IsRun(Burst(MAX_RECENT + 1), caches) && !DecidesAlike(Burst(MAX_RECENT + 1), caches)
  {
    caches := RunExists(Burst(MAX_RECENT + 1));
    BurstDisagrees(caches);
  }

  // ---------------------------------------------------------------- decisions and clean-up, exactly

  /** The reference in terms of the trace: an event is accepted exactly if no event of its key was
      accepted less than three seconds before. */
  lemma AcceptedIff(trace: seq<Event>, i: nat)
    requires Monotone(trace) && i < |trace|
    ensures AcceptedAt(trace, i) <==>
            !exists j :: 0 <= j < i && AcceptedAt(trace, j) && trace[j].key == trace[i].key
                         && trace[i].at - trace[j].at < 3_000
  {
    var before := trace[..i];
    forall j: nat | j < i ensures AcceptedAt(before, j) <==> AcceptedAt(trace, j) {
      assert before[..j] == trace[..j];
    }
    if trace[i].key in Last(before) {
      var j := LastAccepted(before, trace[i].key);
      assert AcceptedAt(trace, j) && trace[j] == before[j];
    }
    if j :| 0 <= j < i && AcceptedAt(trace, j) && trace[j].key == trace[i].key && trace[i].at - trace[j].at < 3_000 {
      assert before[j] == trace[j];
      LastNewest(before, j);
    }
  }

  /** What recording an event does to the cache: nothing is forgotten up to 4000 entries; beyond, an
      entry is forgotten exactly if it is older than five minutes, or, when more than 5000
      are younger, just so many that 5000 are left, none of them older than one forgotten. */
  lemma RecordingKeeps(recent: Cache, e: Event, recent': Cache)
    requires Recorded(recent, e, recent')
    ensures var added := recent[e.key := e.at];
            var young := map k | k in added && added[k] >= e.at - 300_000 :: added[k];
            && (forall k | k in recent' :: k in added && recent'[k] == added[k])
            && (|added| <= 4_000 ==> recent' == added)
            && (|added| > 4_000 && |young| <= 5_000 ==> recent' == young)
            && (|added| > 4_000 && |young| > 5_000 ==>
                  |recent'| == 5_000 && recent'.Keys <= young.Keys &&
                  forall k, l | k in young && k !in recent' && l in recent' :: young[k] <= recent'[l])
  {
    var added := recent[e.key := e.at];
    assert Unexpired(added, e.at) == map k | k in added && added[k] >= e.at - 300_000 :: added[k];
  }
}
