/**
  Token and session cache of backend/stats_client.py under its two locks.

  Any number of tasks run _get_session, _load_token, _invalidate_auth and close. A step takes
  one task over one statement, so tasks interleave at least as finely as the event loop lets
  them. The token file and exceptions are decided by the step: a read may fail, and a task may
  be cancelled (or have an exception raised in it) wherever it stands.
*/
module StatsAuth {
  import opened Wrappers

  type TaskId = nat
  type SessionId = nat

  /** A cached token: the stripped text of the file and the time it was read. */
  datatype Token = Token(text: string, readAt: nat)

  datatype Session = Session(token: Token, createdAt: nat, closed: bool)

  datatype Call = GetSession | LoadToken | Invalidate | Close

  /** `nested`: _load_token was called by _get_session, which holds the session lock. */
  datatype Pc =
    // _get_session
    | SessionCheck
    | SessionWait
    | SessionRecheck
    | SessionCreate(token: Token)
    | Returned(session: SessionId)
    // _load_token
    | TokenCheck(nested: bool)
    | TokenWait(nested: bool)
    | TokenRecheck(nested: bool)
    | TokenRead(nested: bool, attempt: nat)
    | TokenSleep(nested: bool, attempt: nat)
    | Loaded(token: Token)
    // _invalidate_auth
    | ClearWait
    | Clear
    | DropWait
    | DropCheck
    | DropClose(session: SessionId)
    | Drop
    | Invalidated
    // close
    | CloseCheck
    | Closing(session: SessionId)
    | Closed
    // an exception left the task
    | Raised

  /** `began`, `cleared` and `finished` are the times of the call, of the step that cleared the
      cached token and of the last step of an invalidation. */
  datatype Task = Task(pc: Pc, began: nat, cleared: nat, finished: nat)

  datatype State = State(token: Option<Token>, session: Option<SessionId>, sessions: seq<Session>,
                         tokenLock: Option<TaskId>, sessionLock: Option<TaskId>,
                         tasks: seq<Task>, clock: nat)

  datatype Action =
    | Spawn(call: Call)
    | Step(task: TaskId, file: Option<string>)  // None: the token file cannot be read now
    | Cancel(task: TaskId)

  const MAX_ATTEMPTS: nat := 10

  function Init(): State {
    State(None, None, [], None, None, [], 0)
  }

  predicate Terminal(pc: Pc) {
    pc.Returned? || pc.Loaded? || pc.Invalidated? || pc.Closed? || pc.Raised?
  }

  predicate HoldsToken(pc: Pc) {
    pc.TokenRecheck? || pc.TokenRead? || pc.TokenSleep? || pc.Clear?
  }

  /** The task is in _load_token on behalf of _get_session, or has its token. */
  predicate Creating(pc: Pc) {
    || (pc.TokenCheck? && pc.nested) || (pc.TokenWait? && pc.nested) || (pc.TokenRecheck? && pc.nested)
    || (pc.TokenRead? && pc.nested) || (pc.TokenSleep? && pc.nested)
    || pc.SessionCreate?
  }

  predicate HoldsSession(pc: Pc) {
    pc.SessionRecheck? || Creating(pc) || pc.DropCheck? || pc.DropClose? || pc.Drop?
  }

  /** Python's truth of the cached token: neither None nor the empty string. */
  predicate Cached(token: Option<Token>) {
    token.Some? && token.value.text != ""
  }

  predicate Live(s: State) {
    s.session.Some? && s.session.value < |s.sessions| && !s.sessions[s.session.value].closed
  }

  function StartPc(call: Call): Pc {
    match call
    case GetSession => SessionCheck
    case LoadToken => TokenCheck(false)
    case Invalidate => ClearWait
    case Close => CloseCheck
  }

  predicate Enabled(s: State, a: Action) {
    match a
    case Spawn(_) => true
    case Cancel(t) => t < |s.tasks| && !Terminal(s.tasks[t].pc)
    case Step(t, _) =>
      && t < |s.tasks|
      && !Terminal(s.tasks[t].pc)
      && (s.tasks[t].pc.TokenWait? || s.tasks[t].pc.ClearWait? ==> s.tokenLock.None?)
      && (s.tasks[t].pc.SessionWait? || s.tasks[t].pc.DropWait? ==> s.sessionLock.None?)
  }

  /** Where the task stands after its next statement. */
  function NextPc(s: State, t: TaskId, file: Option<string>): Pc
    requires t < |s.tasks|
  {
    match s.tasks[t].pc
    case SessionCheck => if Live(s) then Returned(s.session.value) else SessionWait
    case SessionWait => SessionRecheck
    case SessionRecheck => if Live(s) then Returned(s.session.value) else TokenCheck(true)
    case TokenCheck(nested) => if Cached(s.token) then WithToken(nested, s.token.value) else TokenWait(nested)
    case TokenWait(nested) => TokenRecheck(nested)
    case TokenRecheck(nested) => if Cached(s.token) then WithToken(nested, s.token.value) else TokenRead(nested, 0)
    case TokenRead(nested, attempt) =>
      if file.Some? then WithToken(nested, Token(file.value, s.clock)) else TokenSleep(nested, attempt)
    case TokenSleep(nested, attempt) =>
      if attempt + 1 < MAX_ATTEMPTS then TokenRead(nested, attempt + 1) else Raised
    case SessionCreate(_) => Returned(|s.sessions|)
    case ClearWait => Clear
    case Clear => DropWait
    case DropWait => DropCheck
    case DropCheck => if Live(s) then DropClose(s.session.value) else Drop
    case DropClose(_) => Drop
    case Drop => Invalidated
    case CloseCheck => if Live(s) then Closing(s.session.value) else Closed
    case Closing(_) => Closed
    case pc => pc
  }

  function WithToken(nested: bool, token: Token): Pc {
    if nested then SessionCreate(token) else Loaded(token)
  }

  function NextToken(token: Option<Token>, pc: Pc, file: Option<string>, clock: nat): Option<Token> {
    match pc
    case TokenRead(_, _) => if file.Some? then Some(Token(file.value, clock)) else token
    case Clear => None
    case _ => token
  }

  function NextSession(session: Option<SessionId>, pc: Pc, created: SessionId): Option<SessionId> {
    match pc
    case SessionCreate(_) => Some(created)
    case Drop => None
    case _ => session
  }

  function CloseSession(sessions: seq<Session>, k: SessionId): seq<Session> {
    if k < |sessions| then sessions[k := sessions[k].(closed := true)] else sessions
  }

  function NextSessions(sessions: seq<Session>, pc: Pc, clock: nat): seq<Session> {
    match pc
    case SessionCreate(token) => sessions + [Session(token, clock, false)]
    case DropClose(k) => CloseSession(sessions, k)
    case Closing(k) => CloseSession(sessions, k)
    case _ => sessions
  }

  /** `async with`: the task has the lock exactly while it is inside the block. */
  function LockAfter(lock: Option<TaskId>, t: TaskId, inside: bool, insideNext: bool): Option<TaskId> {
    if inside && !insideNext then None else if !inside && insideNext then Some(t) else lock
  }

  function Move(s: State, t: TaskId, pc: Pc): State
    requires t < |s.tasks|
  {
    var task := s.tasks[t];
    s.(tasks := s.tasks[t := Task(pc, task.began,
                                  if task.pc.Clear? && pc.DropWait? then s.clock else task.cleared,
                                  if pc.Invalidated? then s.clock else task.finished)],
       tokenLock := LockAfter(s.tokenLock, t, HoldsToken(task.pc), HoldsToken(pc)),
       sessionLock := LockAfter(s.sessionLock, t, HoldsSession(task.pc), HoldsSession(pc)))
  }

  /** One statement of the task. */
  function StepTask(s: State, t: TaskId, file: Option<string>): State
    requires t < |s.tasks|
  {
    var pc := s.tasks[t].pc;
    Move(s, t, NextPc(s, t, file)).(
      token := NextToken(s.token, pc, file, s.clock),
      session := NextSession(s.session, pc, |s.sessions|),
      sessions := NextSessions(s.sessions, pc, s.clock))
  }

  function Act(s: State, a: Action): State
    requires Enabled(s, a)
  {
    match a
    case Spawn(call) => s.(tasks := s.tasks + [Task(StartPc(call), s.clock, 0, 0)])
    case Step(t, file) => StepTask(s, t, file)
    case Cancel(t) => Move(s, t, Raised)  // an exception leaves the task
  }

  function Apply(s: State, a: Action): State
    requires Enabled(s, a)
  {
    Act(s, a).(clock := s.clock + 1)
  }

  /** Runs a schedule; a step that is not enabled when its turn comes is passed over. */
  function Exec(s: State, schedule: seq<Action>): State {
    if schedule == [] then s
    else
      var before := Exec(s, schedule[..|schedule| - 1]);
      var a := schedule[|schedule| - 1];
      if Enabled(before, a) then Apply(before, a) else before
  }

  // ---------------------------------------------------------------- the invariant

  ghost predicate LocksOk(s: State) {
    && (forall t | 0 <= t < |s.tasks| :: HoldsToken(s.tasks[t].pc) <==> s.tokenLock == Some(t))
    && (forall t | 0 <= t < |s.tasks| :: HoldsSession(s.tasks[t].pc) <==> s.sessionLock == Some(t))
    && (s.tokenLock.Some? ==> s.tokenLock.value < |s.tasks|)
    && (s.sessionLock.Some? ==> s.sessionLock.value < |s.tasks|)
  }

  /** The only session that can be open is the cached one. */
  ghost predicate OneOpen(s: State) {
    && (s.session.Some? ==> s.session.value < |s.sessions|)
    && (forall k | 0 <= k < |s.sessions| :: !s.sessions[k].closed ==> s.session == Some(k))
  }

  ghost predicate TaskSessionOk(s: State, t: TaskId)
    requires t < |s.tasks|
  {
    var pc := s.tasks[t].pc;
    && (Creating(pc) || pc.Drop? ==> !Live(s))
    && (pc.DropClose? ==> s.session == Some(pc.session))
    && (pc.Returned? ==> pc.session < |s.sessions|)
  }

  predicate PastClear(pc: Pc) {
    pc.DropWait? || pc.DropCheck? || pc.DropClose? || pc.Drop? || pc.Invalidated?
  }

  ghost predicate TimesOk(s: State) {
    && (forall k | 0 <= k < |s.sessions| :: s.sessions[k].createdAt < s.clock)
    && (forall t | 0 <= t < |s.tasks| ::
          && s.tasks[t].began < s.clock
          && (PastClear(s.tasks[t].pc) ==> s.tasks[t].began < s.tasks[t].cleared < s.clock)
          && (s.tasks[t].pc.Invalidated? ==> s.tasks[t].cleared < s.tasks[t].finished < s.clock))
  }

  /** Once invalidation i has cleared the cached token, a cached token is newer. */
  ghost predicate TokenFresh(s: State, i: TaskId)
    requires i < |s.tasks|
  {
    PastClear(s.tasks[i].pc) && s.token.Some? ==> s.token.value.readAt > s.tasks[i].cleared
  }

  /** Once invalidation i has finished, no task is left that would use an older token. */
  ghost predicate CreatorFresh(s: State, i: TaskId, t: TaskId)
    requires i < |s.tasks| && t < |s.tasks|
  {
    s.tasks[i].pc.Invalidated? && s.tasks[t].pc.SessionCreate? ==>
      s.tasks[t].pc.token.readAt > s.tasks[i].cleared
  }

  ghost predicate SessionFresh(s: State, i: TaskId, k: SessionId)
    requires i < |s.tasks| && k < |s.sessions|
  {
    s.tasks[i].pc.Invalidated? && s.sessions[k].createdAt > s.tasks[i].finished ==>
      s.sessions[k].token.readAt > s.tasks[i].cleared
  }

  ghost predicate CachedFresh(s: State, i: TaskId)
    requires i < |s.tasks| && (s.session.Some? ==> s.session.value < |s.sessions|)
  {
    s.tasks[i].pc.Invalidated? && s.session.Some? ==>
      s.sessions[s.session.value].createdAt > s.tasks[i].finished
  }

  ghost predicate ReturnedFresh(s: State, i: TaskId, t: TaskId)
    requires i < |s.tasks| && t < |s.tasks|
  {
    s.tasks[i].pc.Invalidated? && s.tasks[t].pc.Returned? && s.tasks[t].began > s.tasks[i].finished ==>
      s.tasks[t].pc.session < |s.sessions| && s.sessions[s.tasks[t].pc.session].createdAt > s.tasks[i].finished
  }

  ghost predicate Inv(s: State) {
    && LocksOk(s)
    && OneOpen(s)
    && TimesOk(s)
    && (forall t | 0 <= t < |s.tasks| :: TaskSessionOk(s, t) && TokenFresh(s, t) && CachedFresh(s, t))
    && (forall i, t | 0 <= i < |s.tasks| && 0 <= t < |s.tasks| :: CreatorFresh(s, i, t) && ReturnedFresh(s, i, t))
    && (forall i, k | 0 <= i < |s.tasks| && 0 <= k < |s.sessions| :: SessionFresh(s, i, k))
  }

  /** A move that takes only free locks. */
  lemma MoveKeepsLocks(s: State, t: TaskId, pc: Pc)
    requires LocksOk(s) && t < |s.tasks|
    requires HoldsToken(pc) && !HoldsToken(s.tasks[t].pc) ==> s.tokenLock.None?
    requires HoldsSession(pc) && !HoldsSession(s.tasks[t].pc) ==> s.sessionLock.None?
    ensures LocksOk(Move(s, t, pc))
  {
  }

  lemma StepTakesFreeLocks(s: State, t: TaskId, file: Option<string>)
    requires Enabled(s, Step(t, file))
    ensures HoldsToken(NextPc(s, t, file)) && !HoldsToken(s.tasks[t].pc) ==> s.tokenLock.None?
    ensures HoldsSession(NextPc(s, t, file)) && !HoldsSession(s.tasks[t].pc) ==> s.sessionLock.None?
  {
  }

  lemma LocksKept(s: State, a: Action)
    requires LocksOk(s) && Enabled(s, a)
    ensures LocksOk(Apply(s, a))
  {
    match a
    case Spawn(_) =>
    case Cancel(t) => MoveKeepsLocks(s, t, Raised);
    case Step(t, file) =>
      StepTakesFreeLocks(s, t, file);
      MoveKeepsLocks(s, t, NextPc(s, t, file));
  }

  lemma OneOpenKept(s: State, a: Action)
    requires LocksOk(s) && OneOpen(s) && Enabled(s, a)
    requires forall t | 0 <= t < |s.tasks| :: TaskSessionOk(s, t)
    ensures OneOpen(Apply(s, a))
  {
    match a
    case Step(t, file) => assert TaskSessionOk(s, t);
    case _ =>
  }

  /** Only the task inside the session lock creates or drops the cached session. */
  lemma OthersKeepSession(s: State, t: TaskId, file: Option<string>, u: TaskId)
    requires LocksOk(s) && t < |s.tasks| && u < |s.tasks| && u != t
    requires HoldsSession(s.tasks[u].pc)
    ensures StepTask(s, t, file).session == s.session
    ensures Live(StepTask(s, t, file)) ==> Live(s)
  {
    assert !HoldsSession(s.tasks[t].pc);
  }

  lemma OwnStepKeepsSession(s: State, t: TaskId, file: Option<string>)
    requires OneOpen(s) && t < |s.tasks| && TaskSessionOk(s, t)
    ensures TaskSessionOk(StepTask(s, t, file), t)
  {
  }

  lemma TaskSessionsKept(s: State, a: Action, u: TaskId)
    requires LocksOk(s) && OneOpen(s) && Enabled(s, a) && u < |Apply(s, a).tasks|
    requires forall t | 0 <= t < |s.tasks| :: TaskSessionOk(s, t)
    ensures TaskSessionOk(Apply(s, a), u)
  {
    match a
    case Spawn(_) => assert u < |s.tasks| ==> TaskSessionOk(s, u);
    case Cancel(t) => assert TaskSessionOk(s, u);
    case Step(t, file) =>
      assert TaskSessionOk(s, u);
      var s' := StepTask(s, t, file);
      if u == t {
        OwnStepKeepsSession(s, t, file);
      } else if HoldsSession(s.tasks[u].pc) {
        OthersKeepSession(s, t, file, u);
      } else {
        assert |s'.sessions| >= |s.sessions|;
      }
      assert TaskSessionOk(s', u);
  }

  lemma TimesKept(s: State, a: Action)
    requires TimesOk(s) && Enabled(s, a)
    ensures TimesOk(Apply(s, a))
  {
  }

  lemma TokenFreshKept(s: State, a: Action, i: TaskId)
    requires Inv(s) && Enabled(s, a) && i < |Apply(s, a).tasks|
    ensures TokenFresh(Apply(s, a), i)
  {
    assert i < |s.tasks| ==> TokenFresh(s, i);
  }

  /** A task comes to create with the cached token or with one read just now. A task that
      finishes an invalidation holds the session lock, so that no other is creating. */
  lemma StepKeepsCreatorFresh(s: State, a: Action, i: TaskId, t: TaskId)
    requires LocksOk(s) && TimesOk(s) && Enabled(s, a) && i < |s.tasks| && t < |s.tasks|
    requires TokenFresh(s, i) && CreatorFresh(s, i, t)
    ensures CreatorFresh(Apply(s, a), i, t)
  {
  }

  lemma CreatorFreshKept(s: State, a: Action, i: TaskId, t: TaskId)
    requires Inv(s) && Enabled(s, a) && i < |Apply(s, a).tasks| && t < |Apply(s, a).tasks|
    ensures CreatorFresh(Apply(s, a), i, t)
  {
    if i < |s.tasks| && t < |s.tasks| {
      assert TokenFresh(s, i) && CreatorFresh(s, i, t);
      StepKeepsCreatorFresh(s, a, i, t);
    }
  }

  lemma SessionFreshKept(s: State, a: Action, i: TaskId, k: SessionId)
    requires Inv(s) && Enabled(s, a) && i < |Apply(s, a).tasks| && k < |Apply(s, a).sessions|
    ensures SessionFresh(Apply(s, a), i, k)
  {
    if i < |s.tasks| {
      if k < |s.sessions| {
        assert SessionFresh(s, i, k);
      } else {
        assert CreatorFresh(s, i, a.task);
      }
    }
  }

  lemma CachedFreshKept(s: State, a: Action, i: TaskId)
    requires Inv(s) && Enabled(s, a) && i < |Apply(s, a).tasks|
    requires OneOpen(Apply(s, a))
    ensures CachedFresh(Apply(s, a), i)
  {
    assert i < |s.tasks| ==> CachedFresh(s, i);
  }

  lemma StepKeepsReturnedFresh(s: State, a: Action, i: TaskId, t: TaskId)
    requires OneOpen(s) && TimesOk(s) && Enabled(s, a) && i < |s.tasks| && t < |s.tasks|
    requires CachedFresh(s, i) && ReturnedFresh(s, i, t) && TaskSessionOk(s, t)
    requires TaskSessionOk(Apply(s, a), t)
    ensures ReturnedFresh(Apply(s, a), i, t)
  {
  }

  lemma ReturnedFreshKept(s: State, a: Action, i: TaskId, t: TaskId)
    requires Inv(s) && Enabled(s, a) && i < |Apply(s, a).tasks| && t < |Apply(s, a).tasks|
    requires TaskSessionOk(Apply(s, a), t)
    ensures ReturnedFresh(Apply(s, a), i, t)
  {
    if i < |s.tasks| && t < |s.tasks| {
      assert CachedFresh(s, i) && ReturnedFresh(s, i, t) && TaskSessionOk(s, t);
      StepKeepsReturnedFresh(s, a, i, t);
    }
  }

  lemma StepKeepsInv(s: State, a: Action)
    requires Inv(s) && Enabled(s, a)
    ensures Inv(Apply(s, a))
  {
    var s' := Apply(s, a);
    LocksKept(s, a);
    OneOpenKept(s, a);
    TimesKept(s, a);
    forall t | 0 <= t < |s'.tasks| ensures TaskSessionOk(s', t) && TokenFresh(s', t) && CachedFresh(s', t) {
      TaskSessionsKept(s, a, t);
      TokenFreshKept(s, a, t);
      CachedFreshKept(s, a, t);
    }
    forall i, t | 0 <= i < |s'.tasks| && 0 <= t < |s'.tasks|
      ensures CreatorFresh(s', i, t) && ReturnedFresh(s', i, t)
    {
      CreatorFreshKept(s, a, i, t);
      ReturnedFreshKept(s, a, i, t);
    }
    forall i, k | 0 <= i < |s'.tasks| && 0 <= k < |s'.sessions| ensures SessionFresh(s', i, k) {
      SessionFreshKept(s, a, i, k);
    }
  }

  lemma {:induction false} Reachable(schedule: seq<Action>)
    ensures Inv(Exec(Init(), schedule))
  {
    if schedule != [] {
      var prefix, a := schedule[..|schedule| - 1], schedule[|schedule| - 1];
      Reachable(prefix);
      if Enabled(Exec(Init(), prefix), a) {
        StepKeepsInv(Exec(Init(), prefix), a);
      }
    }
  }
}
