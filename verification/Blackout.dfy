/** Blackout windows of backend/blackout_manager.py. Times are microseconds. */
module Blackout {
  import opened Wrappers

  const MINUTE: int := 60_000_000
  const DAY: int := 86_400_000_000
  const WEEK: int := 604_800_000_000

  type TimeOfDay = t: int | 0 <= t < 86_400_000_000

  /** A configured window. Start or end is None when its text does not parse; days are
      numbered from Monday = 0, and other numbers match no day. */
  datatype Window = Window(enabled: bool, days: seq<int>, start: Option<TimeOfDay>, end: Option<TimeOfDay>,
                           name: string)

  /** The position in the week, from Monday midnight, of a time since the epoch (a Thursday)
      in the user's time zone. */
  function WeekPosition(nowUtc: int, offsetMinutes: int): int {
    (nowUtc + offsetMinutes * MINUTE + 3 * DAY) % WEEK
  }

  predicate WellFormed(w: Window) {
    w.enabled && w.start.Some? && w.end.Some?
  }

  /** The position lies on the arc of the weekly circle that starts at w.start on day d and
      is as long as the way from start to end on the daily circle. */
  predicate OnArc(w: Window, d: int, position: int)
    requires WellFormed(w)
  {
    (position - (d * DAY + w.start.value)) % WEEK < (w.end.value - w.start.value) % DAY
  }

  predicate Covers(w: Window, position: int) {
    WellFormed(w) && exists d | 0 <= d < 7 :: d in w.days && OnArc(w, d, position)
  }

  // ---------------------------------------------------------------- the branches of the code

  /** What the branches decide for a window with parsed times. */
  predicate Matches(w: Window, weekday: int, time: TimeOfDay)
    requires WellFormed(w)
  {
    var start, end := w.start.value, w.end.value;
    if start > end then
      if time >= start then weekday in w.days
      else time < end && (weekday - 1) % 7 in w.days
    else weekday in w.days && start <= time < end
  }

  lemma ModWeek(x: int, k: int, r: int)
    requires x == k * WEEK + r && 0 <= r < WEEK
    ensures x % WEEK == r
  {
  }

  /** The arc that starts on day d, seen from a day e in the week. */
  lemma ArcByDay(w: Window, d: int, e: int, time: TimeOfDay)
    requires WellFormed(w) && 0 <= d < 7 && 0 <= e < 7
    ensures var start, end := w.start.value, w.end.value;
            OnArc(w, d, e * DAY + time) <==>
            if start > end then (e == d && time >= start) || (e == (d + 1) % 7 && time < end)
            else e == d && start <= time < end
  {
    var start, end := w.start.value, w.end.value;
    var x := e * DAY + time - (d * DAY + start);
    var length := (end - start) % DAY;
    assert length == if start > end then end - start + DAY else end - start;
    assert x == (e - d) * DAY + (time - start);
    if x >= 0 {
      assert x < WEEK;
      ModWeek(x, 0, x);
    } else {
      assert x + WEEK >= 0;
      ModWeek(x, -1, x + WEEK);
    }
  }

  /** The branches decide exactly whether some listed day's arc covers the position. */
  lemma MatchesIffCovers(w: Window, position: int)
    requires WellFormed(w) && 0 <= position < WEEK
    ensures Matches(w, position / DAY, position % DAY) <==> Covers(w, position)
  {
    var e, time := position / DAY, position % DAY;
    assert position == e * DAY + time && 0 <= e < 7;
    forall d | 0 <= d < 7
      ensures OnArc(w, d, position) <==>
              if w.start.value > w.end.value
              then (e == d && time >= w.start.value) || (e == (d + 1) % 7 && time < w.end.value)
              else e == d && w.start.value <= time < w.end.value
    {
      ArcByDay(w, d, e, time);
    }
    var yesterday := (e - 1) % 7;
    assert 0 <= yesterday < 7 && (yesterday + 1) % 7 == e;
    if Matches(w, e, time) {
      var d := if w.start.value > w.end.value && time < w.start.value then yesterday else e;
      assert d in w.days && OnArc(w, d, position);
    }
    if Covers(w, position) {
      var d :| 0 <= d < 7 && d in w.days && OnArc(w, d, position);
      assert d == e || d == yesterday;
    }
  }

  /** is_in_blackout_window: the name of the first window that covers the present, if any. */
  method IsInBlackoutWindow(windows: seq<Window>, nowUtc: int, offsetMinutes: int) returns (name: Option<string>)
    ensures var position := WeekPosition(nowUtc, offsetMinutes);
            match name
            case None => forall i | 0 <= i < |windows| :: !Covers(windows[i], position)
            case Some(n) =>
              exists i :: 0 <= i < |windows| && Covers(windows[i], position) && windows[i].name == n &&
                forall k | 0 <= k < i :: !Covers(windows[k], position)
  {
    var position := WeekPosition(nowUtc, offsetMinutes);
    var weekday, time := position / DAY, position % DAY;
    for i := 0 to |windows|
      invariant forall k | 0 <= k < i :: !Covers(windows[k], position)
    {
      var w := windows[i];
      if w.enabled && w.start.Some? && w.end.Some? {
        MatchesIffCovers(w, position);
        var start, end := w.start.value, w.end.value;
        if start > end {
          if time >= start {
            if weekday in w.days {
              return Some(w.name);
            }
          } else if time < end {
            var yesterday := (weekday - 1) % 7;
            if yesterday in w.days {
              return Some(w.name);
            }
          }
        } else {
          if weekday in w.days && start <= time < end {
            return Some(w.name);
          }
        }
      }
    }
    return None;
  }

  // ---------------------------------------------------------------- the monitor loop

  /** One turn of monitor_loop: the status found, and whether a broadcast would get through. */
  datatype Turn = Turn(blackout: bool, delivers: bool)

  predicate Alternating(statuses: seq<bool>) {
    forall i | 0 <= i < |statuses| :: statuses[i] == (i % 2 == 0)
  }

  /** The status the clients were told last; at first there is no blackout. */
  function Told(statuses: seq<bool>): bool {
    statuses != [] && statuses[|statuses| - 1]
  }

  /** Announces each change once: the announced statuses alternate, starting with a blackout,
      a failed broadcast is tried again as long as the change lasts, and after any turn
      whose broadcast would get through the clients know the status. Without a connection
      manager (not `connected`) nothing is announced. */
  method MonitorLoop(connected: bool, turns: seq<Turn>) returns (announced: seq<bool>)
    ensures !connected ==> announced == []
    ensures Alternating(announced)
    ensures connected && turns != [] && turns[|turns| - 1].delivers ==> Told(announced) == turns[|turns| - 1].blackout
  {
    announced := [];
    var wasInBlackout := false;
    for i := 0 to |turns|
      invariant Alternating(announced)
      invariant connected ==> Told(announced) == wasInBlackout && wasInBlackout == (|announced| % 2 == 1)
      invariant !connected ==> announced == []
      invariant connected && i > 0 && turns[i - 1].delivers ==> Told(announced) == turns[i - 1].blackout
    {
      if wasInBlackout != turns[i].blackout && connected {
        if !turns[i].delivers {
          continue;   // the exception skips the assignment below
        }
        announced := announced + [turns[i].blackout];
      }
      wasInBlackout := turns[i].blackout;
    }
  }

  // ---------------------------------------------------------------- the calendar

  /** The position in the week is fixed by three facts: 5 January 1970, midnight UTC, was the
      start of a Monday; a microsecond later is a microsecond further; and an offset of a
      minute is like a minute later. */
  lemma CalendarLaw(nowUtc: int, offsetMinutes: int, later: nat)
    ensures WeekPosition(4 * 86_400_000_000, 0) == 0
    ensures 0 <= WeekPosition(nowUtc, offsetMinutes) < 7 * 86_400_000_000
    ensures WeekPosition(nowUtc + later, offsetMinutes) ==
            (WeekPosition(nowUtc, offsetMinutes) + later) % (7 * 86_400_000_000)
    ensures WeekPosition(nowUtc, offsetMinutes) == WeekPosition(nowUtc + offsetMinutes * 60_000_000, 0)
  {
    var x := nowUtc + offsetMinutes * MINUTE + 3 * DAY;
    var q, p := x / WEEK, x % WEEK;
    assert x == q * WEEK + p;
    var r := p + later;
    var k := r / WEEK;
    assert r == k * WEEK + r % WEEK;
    assert x + later == (q + k) * WEEK + r % WEEK;
    ModWeek(x + later, q + k, r % WEEK);
  }

  /** What makes a window cover the present, in its own fields. */
  lemma CoversIff(w: Window, position: int)
    ensures Covers(w, position) <==>
            && w.enabled && w.start.Some? && w.end.Some?
            && exists d | 0 <= d < 7 ::
                 d in w.days &&
                 (position - (d * 86_400_000_000 + w.start.value)) % 604_800_000_000
                 < (w.end.value - w.start.value) % 86_400_000_000
  {
    if WellFormed(w) {
      forall d | 0 <= d < 7
        ensures OnArc(w, d, position) <==>
                (position - (d * 86_400_000_000 + w.start.value)) % 604_800_000_000
                < (w.end.value - w.start.value) % 86_400_000_000
      {
      }
    }
  }
}
