/** What every interleaving of the stats client's token and session handling guarantees. */
module StatsClient {
  import opened Wrappers
  import opened Basics
  import opened StatsAuth

  /** At most one session is open at any time, and it is the cached one. */
  lemma AtMostOneOpen(schedule: seq<Action>, k: SessionId, m: SessionId)
    requires k < |Exec(Init(), schedule).sessions| && !Exec(Init(), schedule).sessions[k].closed
    requires m < |Exec(Init(), schedule).sessions| && !Exec(Init(), schedule).sessions[m].closed
    ensures k == m && Exec(Init(), schedule).session == Some(k)
  {
    Reachable(schedule);
  }

  /** A session created after an invalidation finished uses a token read from the file after
      that invalidation began, and indeed after it cleared the cached token. */
  lemma CreatedAfterInvalidation(schedule: seq<Action>, i: TaskId, k: SessionId)
    requires i < |Exec(Init(), schedule).tasks| && k < |Exec(Init(), schedule).sessions|
    requires Exec(Init(), schedule).tasks[i].pc.Invalidated?
    requires Exec(Init(), schedule).sessions[k].createdAt > Exec(Init(), schedule).tasks[i].finished
    ensures var s := Exec(Init(), schedule);
            s.sessions[k].token.readAt > s.tasks[i].cleared > s.tasks[i].began
  {
    Reachable(schedule);
    assert SessionFresh(Exec(Init(), schedule), i, k);
  }

  /** A _get_session call made after an invalidation finished never returns a session with a
      token from before it: the retry after a 401 does get a fresh token. */
  lemma ReturnedAfterInvalidation(schedule: seq<Action>, i: TaskId, g: TaskId)
    requires i < |Exec(Init(), schedule).tasks| && g < |Exec(Init(), schedule).tasks|
    requires Exec(Init(), schedule).tasks[i].pc.Invalidated? && Exec(Init(), schedule).tasks[g].pc.Returned?
    requires Exec(Init(), schedule).tasks[g].began > Exec(Init(), schedule).tasks[i].finished
    ensures var s := Exec(Init(), schedule);
            var k := s.tasks[g].pc.session;
            k < |s.sessions| && s.sessions[k].token.readAt > s.tasks[i].cleared > s.tasks[i].began
  {
    Reachable(schedule);
    var s := Exec(Init(), schedule);
    assert ReturnedFresh(s, i, g);
    assert SessionFresh(s, i, s.tasks[g].pc.session);
  }

  // ---------------------------------------------------------------- progress

  /** While some task has not ended, some task can go on, whatever the token file does. */
  lemma NeverDeadlocked(schedule: seq<Action>, t: TaskId, file: Option<string>) returns (u: TaskId)
    requires t < |Exec(Init(), schedule).tasks| && !Terminal(Exec(Init(), schedule).tasks[t].pc)
    ensures Enabled(Exec(Init(), schedule), Step(u, file))
  {
    Reachable(schedule);
    var s := Exec(Init(), schedule);
    if s.tokenLock.Some? {
      u := s.tokenLock.value;      // the holder of the token lock waits for nothing
    } else if s.sessionLock.Some? {
      u := s.sessionLock.value;    // the holder of the session lock waits for the token lock at most
    } else {
      u := t;
    }
  }

  function PcWork(pc: Pc): nat {
    match pc
    case SessionCheck => 40 case SessionWait => 39 case SessionRecheck => 38
    case TokenCheck(_) => 37 case TokenWait(_) => 36 case TokenRecheck(_) => 35
    case TokenRead(_, attempt) => if attempt < MAX_ATTEMPTS then 14 + 2 * (MAX_ATTEMPTS - attempt) else 14
    case TokenSleep(_, attempt) => if attempt < MAX_ATTEMPTS then 13 + 2 * (MAX_ATTEMPTS - attempt) else 13
    case SessionCreate(_) => 2
    case ClearWait => 7 case Clear => 6 case DropWait => 5 case DropCheck => 4 case DropClose(_) => 3 case Drop => 2
    case CloseCheck => 2 case Closing(_) => 1
    case _ => 0
  }

  const CALL_WORK: nat := 40   // of a call just made

  function Work(tasks: seq<Task>): nat {
    if tasks == [] then 0 else Work(tasks[..|tasks| - 1]) + PcWork(tasks[|tasks| - 1].pc)
  }

  lemma {:induction false} WorkUpdate(tasks: seq<Task>, t: TaskId, task: Task)
    requires t < |tasks|
    ensures Work(tasks[t := task]) + PcWork(tasks[t].pc) == Work(tasks) + PcWork(task.pc)
  {
    var n := |tasks| - 1;
    if t == n {
      assert tasks[t := task][..n] == tasks[..n];
    } else {
      WorkUpdate(tasks[..n], t, task);
      assert tasks[t := task][..n] == tasks[..n][t := task];
    }
  }

  function Calls(schedule: seq<Action>): nat {
    if schedule == [] then 0
    else Calls(schedule[..|schedule| - 1]) + if schedule[|schedule| - 1].Spawn? then 1 else 0
  }

  function StepsTaken(schedule: seq<Action>): nat {
    if schedule == [] then 0
    else
      var prefix, a := schedule[..|schedule| - 1], schedule[|schedule| - 1];
      StepsTaken(prefix) + if !a.Spawn? && Enabled(Exec(Init(), prefix), a) then 1 else 0
  }

  lemma NextPcWorks(s: State, t: TaskId, file: Option<string>)
    requires t < |s.tasks| && !Terminal(s.tasks[t].pc)
    ensures PcWork(NextPc(s, t, file)) < PcWork(s.tasks[t].pc)
  {
  }

  lemma StepWorks(s: State, a: Action)
    requires Enabled(s, a) && !a.Spawn?
    ensures Work(Apply(s, a).tasks) < Work(s.tasks)
  {
    var t := a.task;
    var pc := if a.Step? then NextPc(s, t, a.file) else Raised;
    if a.Step? {
      NextPcWorks(s, t, a.file);
    }
    var task := Move(s, t, pc).tasks[t];
    assert Apply(s, a).tasks == s.tasks[t := task];
    WorkUpdate(s.tasks, t, task);
  }

  /** Every call ends: a run takes at most forty steps for each call made in it. */
  lemma {:induction false} StepsBounded(schedule: seq<Action>)
    ensures StepsTaken(schedule) + Work(Exec(Init(), schedule).tasks) <= CALL_WORK * Calls(schedule)
  {
    if schedule != [] {
      var prefix, a := schedule[..|schedule| - 1], schedule[|schedule| - 1];
      StepsBounded(prefix);
      var s := Exec(Init(), prefix);
      if a.Spawn? {
        assert Apply(s, a).tasks[..|s.tasks|] == s.tasks;
      } else if Enabled(s, a) {
        StepWorks(s, a);
      }
    }
  }

  // ---------------------------------------------------------------- the object

  /** The client object with the tasks that run its methods. */
  class StatsServiceClient {
    var token: Option<Token>
    var session: Option<SessionId>
    var sessions: seq<Session>        // every ClientSession ever created
    var tokenLock: Option<TaskId>
    var sessionLock: Option<TaskId>
    var tasks: seq<Task>
    var clock: nat

    ghost function Now(): State
      reads this
    {
      State(token, session, sessions, tokenLock, sessionLock, tasks, clock)
    }

    constructor ()
      ensures Now() == Init() && Inv(Now())
    {
      token, session, sessions, tokenLock, sessionLock, tasks, clock := None, None, [], None, None, [], 0;
      new;
      Reachable([]);
    }

    method Call(call: Call) returns (t: TaskId)
      requires Inv(Now())
      modifies this
      ensures t == |old(tasks)| && Now() == Apply(old(Now()), Spawn(call)) && Inv(Now())
    {
      StepKeepsInv(Now(), Spawn(call));
      t := |tasks|;
      tasks := tasks + [Task(StartPc(call), clock, 0, 0)];
      clock := clock + 1;
    }

    predicate HasSession()
      reads this
    {
      session.Some? && session.value < |sessions| && !sessions[session.value].closed
    }

    method MarkClosed(k: SessionId)
      modifies this`sessions
      ensures sessions == CloseSession(old(sessions), k)
    {
      if k < |sessions| {
        sessions := sessions[k := sessions[k].(closed := true)];
      }
    }

    /** The next statement of a task in _get_session. */
    method GetSessionStep(t: TaskId)
      requires t < |tasks|
      requires tasks[t].pc.SessionCheck? || tasks[t].pc.SessionWait? || tasks[t].pc.SessionRecheck? ||
               tasks[t].pc.SessionCreate?
      modifies this
      ensures Now() == StepTask(old(Now()), t, None)
    {
      var pc := tasks[t].pc;
      match pc {
        case SessionCheck =>
          pc := if HasSession() then Returned(session.value) else SessionWait;
        case SessionWait =>
          sessionLock := Some(t);
          pc := SessionRecheck;
        case SessionRecheck =>
          if HasSession() {
            sessionLock := None;
            pc := Returned(session.value);
          } else {
            pc := TokenCheck(true);
          }
        case SessionCreate(loaded) =>
          session := Some(|sessions|);
          pc := Returned(|sessions|);
          sessions := sessions + [Session(loaded, clock, false)];
          sessionLock := None;
      }
      tasks := tasks[t := tasks[t].(pc := pc)];
    }

    /** The next statement of a task in _load_token. */
    method LoadTokenStep(t: TaskId, file: Option<string>)
      requires t < |tasks|
      requires tasks[t].pc.TokenCheck? || tasks[t].pc.TokenWait? || tasks[t].pc.TokenRecheck? ||
               tasks[t].pc.TokenRead? || tasks[t].pc.TokenSleep?
      modifies this
      ensures Now() == StepTask(old(Now()), t, file)
    {
      var pc := tasks[t].pc;
      match pc {
        case TokenCheck(nested) =>
          pc := if Cached(token) then WithToken(nested, token.value) else TokenWait(nested);
        case TokenWait(nested) =>
          tokenLock := Some(t);
          pc := TokenRecheck(nested);
        case TokenRecheck(nested) =>
          if Cached(token) {
            tokenLock := None;
            pc := WithToken(nested, token.value);
          } else {
            pc := TokenRead(nested, 0);
          }
        case TokenRead(nested, attempt) =>
          if file.Some? {
            token := Some(Token(file.value, clock));
            tokenLock := None;
            pc := WithToken(nested, token.value);
          } else {
            pc := TokenSleep(nested, attempt);
          }
        case TokenSleep(nested, attempt) =>
          if attempt + 1 < MAX_ATTEMPTS {
            pc := TokenRead(nested, attempt + 1);
          } else {
            tokenLock := None;
            if nested {
              sessionLock := None;
            }
            pc := Raised;
          }
      }
      tasks := tasks[t := tasks[t].(pc := pc)];
    }

    /** The next statement of a task in _invalidate_auth. */
    method InvalidateAuthStep(t: TaskId)
      requires t < |tasks|
      requires tasks[t].pc.ClearWait? || tasks[t].pc.Clear? || tasks[t].pc.DropWait? || tasks[t].pc.DropCheck? ||
               tasks[t].pc.DropClose? || tasks[t].pc.Drop?
      modifies this
      ensures Now() == StepTask(old(Now()), t, None)
    {
      var task := tasks[t];
      match task.pc {
        case ClearWait =>
          tokenLock := Some(t);
          task := task.(pc := Clear);
        case Clear =>
          token := None;
          tokenLock := None;
          task := task.(cleared := clock, pc := DropWait);
        case DropWait =>
          sessionLock := Some(t);
          task := task.(pc := DropCheck);
        case DropCheck =>
          task := task.(pc := if HasSession() then DropClose(session.value) else Drop);
        case DropClose(k) =>
          MarkClosed(k);
          task := task.(pc := Drop);
        case Drop =>
          session := None;
          sessionLock := None;
          task := task.(finished := clock, pc := Invalidated);
      }
      tasks := tasks[t := task];
    }

    /** The next statement of a task in close. */
    method CloseStep(t: TaskId)
      requires t < |tasks|
      requires tasks[t].pc.CloseCheck? || tasks[t].pc.Closing?
      modifies this
      ensures Now() == StepTask(old(Now()), t, None)
    {
      var pc := tasks[t].pc;
      match pc {
        case CloseCheck =>
          pc := if HasSession() then Closing(session.value) else Closed;
        case Closing(k) =>
          MarkClosed(k);
          pc := Closed;
      }
      tasks := tasks[t := tasks[t].(pc := pc)];
    }

    /** Lets task t run its next statement. */
    method Resume(t: TaskId, file: Option<string>)
      requires Inv(Now()) && Enabled(Now(), Step(t, file))
      modifies this
      ensures Now() == Apply(old(Now()), Step(t, file)) && Inv(Now())
    {
      StepKeepsInv(Now(), Step(t, file));
      var pc := tasks[t].pc;
      if pc.SessionCheck? || pc.SessionWait? || pc.SessionRecheck? || pc.SessionCreate? {
        GetSessionStep(t);
      } else if pc.TokenCheck? || pc.TokenWait? || pc.TokenRecheck? || pc.TokenRead? || pc.TokenSleep? {
        LoadTokenStep(t, file);
      } else if pc.CloseCheck? || pc.Closing? {
        CloseStep(t);
      } else {
        InvalidateAuthStep(t);
      }
      clock := clock + 1;
    }
  }

  // ---------------------------------------------------------------- reconnect delays

  /** How one turn of _event_stream_loop goes; `connected`: the websocket was open first. */
  datatype Turn = Streamed | Unauthorized | Failure(connected: bool)

  const MAX_BACKOFF: nat := 30

  function Pow2(n: nat): nat {
    if n == 0 then 1 else 2 * Pow2(n - 1)
  }

  /** How many failures in a row end the history, counted from the last connection or 401. */
  function Streak(turns: seq<Turn>): nat {
    if turns == [] then 0
    else
      match turns[|turns| - 1]
      case Failure(connected) => if connected then 1 else Streak(turns[..|turns| - 1]) + 1
      case _ => 0
  }

  /** The sleeps of the loop: the n-th failure in a row waits min(2^(n-1), 30) seconds. */
  function Delays(turns: seq<Turn>): seq<nat> {
    if turns == [] then []
    else
      var n := Streak(turns);
      Delays(turns[..|turns| - 1]) + if n > 0 then [Min(Pow2(n - 1), MAX_BACKOFF)] else []
  }

  method EventStreamLoop(turns: seq<Turn>) returns (delays: seq<nat>)
    ensures delays == Delays(turns)
  {
    var backoff := 1;
    delays := [];
    for i := 0 to |turns|
      invariant backoff == Min(Pow2(Streak(turns[..i])), MAX_BACKOFF)
      invariant delays == Delays(turns[..i])
    {
      assert turns[..i + 1][..i] == turns[..i];
      match turns[i] {
        case Streamed =>
          backoff := 1;
        case Unauthorized =>
          backoff := 1;
        case Failure(connected) =>
          if connected {
            backoff := 1;
          }
          delays := delays + [backoff];
          backoff := Min(backoff * 2, MAX_BACKOFF);
      }
    }
    assert turns[..|turns|] == turns;
  }

  /** Without a connection or a 401 in between, delays never shrink, and none exceeds the cap. */
  lemma {:induction false} DelaysGrow(turns: seq<Turn>)
    requires forall k | 0 <= k < |turns| :: turns[k] == Failure(false)
    ensures |Delays(turns)| == |turns| && Streak(turns) == |turns|
    ensures forall k | 0 <= k < |turns| :: Delays(turns)[k] == if Pow2(k) < 30 then Pow2(k) else 30
    ensures forall k, m | 0 <= k <= m < |turns| :: Delays(turns)[k] <= Delays(turns)[m] <= 30
  {
    if turns != [] {
      var before := turns[..|turns| - 1];
      DelaysGrow(before);
      assert Delays(turns) == Delays(before) + [Min(Pow2(|before|), MAX_BACKOFF)];
    }
    forall k, m | 0 <= k <= m < |turns| ensures Delays(turns)[k] <= Delays(turns)[m] <= MAX_BACKOFF {
      Pow2Monotone(k, m);
    }
  }

  lemma {:induction false} Pow2Monotone(k: nat, m: nat)
    requires k <= m
    ensures Pow2(k) <= Pow2(m)
  {
    if k < m {
      Pow2Monotone(k, m - 1);
    }
  }

  /** A connection or a 401 starts the delays anew at one second. */
  lemma DelaysReset(turns: seq<Turn>, e: Turn, connected: bool)
    requires e == Streamed || e == Unauthorized
    ensures Delays(turns + [e] + [Failure(connected)]) == Delays(turns) + [1]
    ensures Delays(turns + [Failure(true)]) == Delays(turns) + [1]
    ensures Delays(turns + [Failure(true)] + [Failure(false)]) == Delays(turns) + [1, 2]
  {
    DelaysNext(turns, e);
    DelaysNext(turns + [e], Failure(connected));
    DelaysNext(turns, Failure(true));
    DelaysNext(turns + [Failure(true)], Failure(false));
    assert Pow2(0) == 1 && Pow2(1) == 2;
    assert Delays(turns) + [] == Delays(turns);
  }

  lemma DelaysNext(turns: seq<Turn>, e: Turn)
    ensures var n := if e == Failure(true) then 1 else if e == Failure(false) then Streak(turns) + 1 else 0;
            && Streak(turns + [e]) == n
            && Delays(turns + [e]) == Delays(turns) + if n > 0 then [Min(Pow2(n - 1), MAX_BACKOFF)] else []
  {
    assert (turns + [e])[..|turns|] == turns;
  }
}
