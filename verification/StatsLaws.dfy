/** What each call of the stats client achieves, step by step, in terms of the object's own fields. */
module StatsLaws {
  import opened Wrappers
  import opened StatsAuth

  ghost predicate Open(s: State, k: SessionId) {
    k < |s.sessions| && !s.sessions[k].closed
  }

  // ---------------------------------------------------------------- sessions

  /** A call of _get_session returns the cached session, and it is open when it does; so if a
      session was open, the call returns that very one. */
  lemma ReturnsOpenSession(schedule: seq<Action>, a: Action)
    requires a.Step? && Enabled(Exec(Init(), schedule), a)
    requires Apply(Exec(Init(), schedule), a).tasks[a.task].pc.Returned?
    ensures var s, s' := Exec(Init(), schedule), Apply(Exec(Init(), schedule), a);
            var k := s'.tasks[a.task].pc.session;
            && s'.session == Some(k) && Open(s', k)
            && (forall m: SessionId :: Open(s, m) ==> m == k)
  {
    Reachable(schedule);
    var s := Exec(Init(), schedule);
    StepKeepsInv(s, a);
    assert TaskSessionOk(s, a.task);
  }

  /** A session is created only when none is open, with the token its task loaded. */
  lemma CreatesWhenNoneOpen(schedule: seq<Action>, a: Action)
    requires Enabled(Exec(Init(), schedule), a)
    requires |Apply(Exec(Init(), schedule), a).sessions| != |Exec(Init(), schedule).sessions|
    ensures var s, s' := Exec(Init(), schedule), Apply(Exec(Init(), schedule), a);
            && (forall m: SessionId :: !Open(s, m))
            && |s'.sessions| == |s.sessions| + 1
            && a.Step? && s.tasks[a.task].pc.SessionCreate?
            && s'.sessions[|s.sessions|].token == s.tasks[a.task].pc.token
            && Open(s', |s.sessions|)
  {
    Reachable(schedule);
    var s := Exec(Init(), schedule);
    assert TaskSessionOk(s, a.task);
  }

  /** A session is closed only by close or by an invalidation that found it open, or never. */
  lemma ClosesOnlyOnPurpose(schedule: seq<Action>, a: Action, k: SessionId)
    requires Enabled(Exec(Init(), schedule), a)
    requires Open(Exec(Init(), schedule), k) && !Open(Apply(Exec(Init(), schedule), a), k)
    ensures var s := Exec(Init(), schedule);
            a.Step? && (s.tasks[a.task].pc == Closing(k) || s.tasks[a.task].pc == DropClose(k))
  {
  }

  /** close: it ends at once if no session is open, and else goes for the open one and has
      closed it when it ends. */
  lemma CloseCloses(schedule: seq<Action>, a: Action)
    requires a.Step? && Enabled(Exec(Init(), schedule), a)
    requires Exec(Init(), schedule).tasks[a.task].pc.CloseCheck? || Exec(Init(), schedule).tasks[a.task].pc.Closing?
    ensures var s, s' := Exec(Init(), schedule), Apply(Exec(Init(), schedule), a);
            match s.tasks[a.task].pc
            case CloseCheck =>
              && (forall k :: s'.tasks[a.task].pc == Closing(k) <==> Open(s, k))
              && (s'.tasks[a.task].pc == Closed <==> forall k :: !Open(s, k))
            case Closing(k) => s'.tasks[a.task].pc == Closed && !Open(s', k)
            case _ => true
  {
    Reachable(schedule);
    var s := Exec(Init(), schedule);
    if Live(s) {
      assert Open(s, s.session.value);
    }
  }

  /** An invalidation clears the cached token when it says so, and when it ends no session is
      cached or open. */
  lemma InvalidationLeavesNothing(schedule: seq<Action>, a: Action)
    requires a.Step? && Enabled(Exec(Init(), schedule), a)
    ensures var s, s' := Exec(Init(), schedule), Apply(Exec(Init(), schedule), a);
            && (s'.tasks[a.task].pc == DropWait ==> s'.token == None)
            && (s'.tasks[a.task].pc == Invalidated ==> s'.session == None && forall k :: !Open(s', k))
  {
    Reachable(schedule);
    StepKeepsInv(Exec(Init(), schedule), a);
  }

  // ---------------------------------------------------------------- tokens

  predicate InRead(pc: Pc) {
    pc.TokenRead? || pc.TokenSleep?
  }

  predicate Uncached(token: Option<Token>) {
    token.None? || token.value.text == ""
  }

  lemma UncachedKept(s: State, a: Action, t: TaskId)
    requires LocksOk(s) && Enabled(s, a) && t < |Apply(s, a).tasks| && InRead(Apply(s, a).tasks[t].pc)
    requires t < |s.tasks| && InRead(s.tasks[t].pc) ==> Uncached(s.token)
    ensures Uncached(Apply(s, a).token)
  {
    if t < |s.tasks| && a.Step? && a.task != t && InRead(s.tasks[t].pc) {
      assert HoldsToken(s.tasks[t].pc);
      assert !HoldsToken(s.tasks[a.task].pc);
    }
  }

  /** While a task reads the file, no usable token is cached: only it could cache one. */
  lemma {:induction false} ReadsOnlyUncached(schedule: seq<Action>, t: TaskId)
    requires t < |Exec(Init(), schedule).tasks| && InRead(Exec(Init(), schedule).tasks[t].pc)
    ensures Uncached(Exec(Init(), schedule).token)
  {
    var last := |schedule| - 1;
    var s, a := Exec(Init(), schedule[..last]), schedule[last];
    if t < |s.tasks| && InRead(s.tasks[t].pc) {
      ReadsOnlyUncached(schedule[..last], t);
    }
    if Enabled(s, a) {
      Reachable(schedule[..last]);
      UncachedKept(s, a, t);
    }
  }

  /** A task goes on with the cached token, which is not empty, or with one that it has read
      from the file at this very step and has cached, and only if none was cached. */
  lemma TokenSource(schedule: seq<Action>, a: Action, token: Token)
    requires a.Step? && Enabled(Exec(Init(), schedule), a)
    requires var pc := Apply(Exec(Init(), schedule), a).tasks[a.task].pc; pc == Loaded(token) || pc == SessionCreate(token)
    ensures var s, s' := Exec(Init(), schedule), Apply(Exec(Init(), schedule), a);
            && s'.token == Some(token)
            && (if s.token.Some? && s.token.value.text != "" then s.token == Some(token)
                else a.file == Some(token.text) && token.readAt == s.clock)
  {
    var s := Exec(Init(), schedule);
    if InRead(s.tasks[a.task].pc) {
      ReadsOnlyUncached(schedule, a.task);
    }
  }

  /** How often the task found the file unreadable. */
  function FailedReads(schedule: seq<Action>, t: TaskId): nat {
    if schedule == [] then 0
    else
      var last := |schedule| - 1;
      var s, a := Exec(Init(), schedule[..last]), schedule[last];
      FailedReads(schedule[..last], t) +
      if a.Step? && a.task == t && a.file.None? && Enabled(s, a) && s.tasks[t].pc.TokenRead? then 1 else 0
  }

  ghost predicate ReadsOk(pc: Pc, failed: nat) {
    match pc
    case SessionCheck => failed == 0
    case SessionWait => failed == 0
    case SessionRecheck => failed == 0
    case TokenCheck(_) => failed == 0
    case TokenWait(_) => failed == 0
    case TokenRecheck(_) => failed == 0
    case TokenRead(_, attempt) => attempt == failed < 10
    case TokenSleep(_, attempt) => attempt + 1 == failed <= 10
    case Raised => failed <= 10
    case _ => failed < 10
  }

  lemma {:induction false} ReadsCounted(schedule: seq<Action>, t: TaskId)
    ensures t < |Exec(Init(), schedule).tasks| ==>
              ReadsOk(Exec(Init(), schedule).tasks[t].pc, FailedReads(schedule, t))
    ensures t >= |Exec(Init(), schedule).tasks| ==> FailedReads(schedule, t) == 0
  {
    if schedule != [] {
      ReadsCounted(schedule[..|schedule| - 1], t);
    }
  }

  /** _load_token gives up exactly with the tenth failed read: a task raises by itself, not by
      being cancelled, only then, and no task reads an eleventh time. */
  lemma GivesUpAfterTenReads(schedule: seq<Action>, a: Action)
    requires a.Step? && Enabled(Exec(Init(), schedule), a)
    ensures Apply(Exec(Init(), schedule), a).tasks[a.task].pc.Raised? <==>
            FailedReads(schedule, a.task) == 10
    ensures FailedReads(schedule, a.task) <= 10
  {
    ReadsCounted(schedule, a.task);
  }
}
