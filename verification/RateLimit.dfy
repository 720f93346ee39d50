/** Rate limits of notification channels in backend/notifications.py. Times are seconds. */
module RateLimit {
  type Channel = string

  type Limits = map<Channel, int>

  /** A channel's service asked to be left alone until a time, or a send asks whether it may go. */
  datatype Event = Limited(channel: Channel, until: int) | Asked(channel: Channel, at: int)

  /** The latest wish of each channel, none ever forgotten. */
  function Wishes(events: seq<Event>): Limits {
    if events == [] then map[]
    else
      match events[|events| - 1]
      case Limited(c, until) => Wishes(events[..|events| - 1])[c := until]
      case Asked(_, _) => Wishes(events[..|events| - 1])
  }

  predicate Blocked(limits: Limits, channel: Channel, now: int) {
    channel in limits && now < limits[channel]
  }

  /** The service's dictionary, which forgets what it finds expired. */
  function After(events: seq<Event>): Limits {
    if events == [] then map[]
    else
      var before := After(events[..|events| - 1]);
      match events[|events| - 1]
      case Limited(c, until) => before[c := until]
      case Asked(c, at) => if Blocked(before, c, at) then before else before - {c}
  }

  /** Forgetting expired entries changes no answer: from the last question on, a channel is
      held back exactly while its latest wish lies in the future. */
  lemma {:induction false} ForgettingIsHarmless(events: seq<Event>, channel: Channel, now: int)
    requires forall i | 0 <= i < |events| && events[i].Asked? :: events[i].at <= now
    ensures Blocked(After(events), channel, now) <==> Blocked(Wishes(events), channel, now)
    ensures channel in After(events) ==> channel in Wishes(events) && After(events)[channel] == Wishes(events)[channel]
  {
    if events != [] {
      ForgettingIsHarmless(events[..|events| - 1], channel, now);
    }
  }

  class NotificationChannels {
    var limits: Limits   // _rate_limited_channels

    constructor ()
      ensures limits == map[]
    {
      limits := map[];
    }

    method Limit(channel: Channel, until: int)
      modifies this
      ensures limits == old(limits)[channel := until]
      ensures forall events :: old(limits == After(events)) ==> limits == After(events + [Limited(channel, until)])
    {
      limits := limits[channel := until];
      assert forall events: seq<Event>, e: Event :: (events + [e])[..|events|] == events;
    }

    /** _is_rate_limited; an expired entry is forgotten. */
    method IsRateLimited(channel: Channel, now: int) returns (limited: bool)
      modifies this
      ensures limited <==> channel in old(limits) && now < old(limits)[channel]
      ensures limits == if limited then old(limits) else old(limits) - {channel}
      ensures forall events :: old(limits == After(events)) ==> limits == After(events + [Asked(channel, now)])
    {
      assert forall events: seq<Event>, e: Event :: (events + [e])[..|events|] == events;
      if channel in limits {
        if now < limits[channel] {
          return true;
        }
        limits := limits - {channel};
      }
      assert channel !in old(limits) ==> limits - {channel} == limits;
      return false;
    }
  }
}
