/** Stats subscriptions of backend/realtime.py: two dictionaries that must stay consistent. */
module Realtime {
  import opened Wrappers

  type StreamKey = string
  type Socket = nat
  type TaskId = nat

  /** `cancelled` and `nextTask` record history: how often each task was cancelled, and how
      many tasks were started. */
  datatype State = State(subscribers: map<StreamKey, set<Socket>>, tasks: map<StreamKey, TaskId>,
                         cancelled: multiset<TaskId>, nextTask: TaskId)

  datatype Op =
    | Subscribe(socket: Socket, container: string, host: string)
    | Revoke(socket: Socket, visible: Option<set<string>>)
    | Unsubscribe(socket: Socket, container: string, onHost: Option<string>)
    | UnsubscribeAll(socket: Socket)
    | DropDead(socket: Socket, key: StreamKey)   // a monitoring task found the socket dead
    | StartStream(container: string, host: string)
    | StopAll

  function KeyOf(host: string, container: string): StreamKey {
    host + ":" + container
  }

  /** host_of_composite_key: what precedes the first colon, or the whole key. */
  function HostOf(key: StreamKey): string {
    if key == "" || key[0] == ':' then "" else [key[0]] + HostOf(key[1..])
  }

  predicate EndsWith(s: string, suffix: string) {
    |suffix| <= |s| && s[|s| - |suffix|..] == suffix
  }

  /** Whether unsubscribe_from_stats looks at the key; without a host every host is meant. */
  predicate Targeted(key: StreamKey, container: string, host: Option<string>) {
    match host
    case Some(h) => key == KeyOf(h, container)
    case None => key == KeyOf("None", container) || EndsWith(key, ":" + container)
  }

  /** The keys that the operation drops its socket from. */
  function Targets(subscribers: map<StreamKey, set<Socket>>, op: Op): set<StreamKey> {
    match op
    case Revoke(_, visible) =>
      if visible.None? then {} else set k | k in subscribers && HostOf(k) !in visible.value
    case Unsubscribe(_, container, host) => set k | k in subscribers && Targeted(k, container, host)
    case UnsubscribeAll(_) => subscribers.Keys
    case DropDead(_, key) => {key} * subscribers.Keys
    case _ => {}
  }

  /** The keys left without subscribers when the socket is dropped from them. */
  function Emptied(subscribers: map<StreamKey, set<Socket>>, socket: Socket, keys: set<StreamKey>): set<StreamKey> {
    set k | k in keys && k in subscribers && subscribers[k] <= {socket}
  }

  function WithoutSocket(subscribers: map<StreamKey, set<Socket>>, socket: Socket, keys: set<StreamKey>)
    : map<StreamKey, set<Socket>>
  {
    map k | k in subscribers && !(k in keys && subscribers[k] <= {socket}) ::
      if k in keys then subscribers[k] - {socket} else subscribers[k]
  }

  function TasksOf(tasks: map<StreamKey, TaskId>, keys: set<StreamKey>): set<TaskId> {
    set k | k in keys && k in tasks :: tasks[k]
  }

  /** Cancels and forgets the tasks of the keys. */
  function CancelAll(s: State, keys: set<StreamKey>): State {
    s.(tasks := s.tasks - keys, cancelled := s.cancelled + multiset(TasksOf(s.tasks, keys)))
  }

  /** _drop_subscriber for every key of the set. */
  function Drop(s: State, socket: Socket, keys: set<StreamKey>): State {
    CancelAll(s, Emptied(s.subscribers, socket, keys)).(
      subscribers := WithoutSocket(s.subscribers, socket, keys))
  }

  function Apply(s: State, op: Op): State {
    match op
    case Subscribe(socket, container, host) =>
      var key := KeyOf(host, container);
      s.(subscribers := s.subscribers[key := (if key in s.subscribers then s.subscribers[key] else {}) + {socket}])
    case StartStream(container, host) =>
      var key := KeyOf(host, container);
      if key in s.tasks then s
      else s.(tasks := s.tasks[key := s.nextTask], nextTask := s.nextTask + 1)
    case StopAll =>
      CancelAll(s, s.tasks.Keys)
    case Revoke(socket, _) => Drop(s, socket, Targets(s.subscribers, op))
    case Unsubscribe(socket, _, _) => Drop(s, socket, Targets(s.subscribers, op))
    case UnsubscribeAll(socket) => Drop(s, socket, Targets(s.subscribers, op))
    case DropDead(socket, _) => Drop(s, socket, Targets(s.subscribers, op))
  }

  function Init(): State {
    State(map[], map[], multiset{}, 0)
  }

  function Exec(s: State, ops: seq<Op>): State {
    if ops == [] then s else Apply(Exec(s, ops[..|ops| - 1]), ops[|ops| - 1])
  }

  // ---------------------------------------------------------------- what every run keeps

  ghost predicate NoneEmpty(s: State) {
    forall k | k in s.subscribers :: s.subscribers[k] != {}
  }

  /** Every task ever started is either registered under exactly one key and not cancelled,
      or registered under none and cancelled exactly once. */
  ghost predicate Ledger(s: State) {
    && (forall k | k in s.tasks :: s.tasks[k] < s.nextTask && s.cancelled[s.tasks[k]] == 0)
    && (forall k, l | k in s.tasks && l in s.tasks && s.tasks[k] == s.tasks[l] :: k == l)
    && (forall t: TaskId | t < s.nextTask && t !in s.tasks.Values :: s.cancelled[t] == 1)
    && (forall t: TaskId | t >= s.nextTask :: s.cancelled[t] == 0)
  }

  ghost predicate TasksSubscribed(s: State) {
    s.tasks.Keys <= s.subscribers.Keys
  }

  /** Streams are started only for keys that are subscribed at that moment. */
  ghost predicate StartsSubscribed(s: State, ops: seq<Op>) {
    ops == [] ||
    (var prefix, op := ops[..|ops| - 1], ops[|ops| - 1];
     && StartsSubscribed(s, prefix)
     && (op.StartStream? ==> KeyOf(op.host, op.container) in Exec(s, prefix).subscribers))
  }

  lemma CancelLedger(s: State, gone: set<StreamKey>)
    requires Ledger(s)
    ensures Ledger(CancelAll(s, gone))
  {
    var s' := CancelAll(s, gone);
    assert forall k | k in s.tasks && k !in gone :: s'.tasks[k] == s.tasks[k] && s'.tasks[k] in s'.tasks.Values;
    forall t: TaskId | t < s'.nextTask && t !in s'.tasks.Values ensures s'.cancelled[t] == 1 {
      if t in s.tasks.Values {
        var k :| k in s.tasks && s.tasks[k] == t;
        assert t in TasksOf(s.tasks, gone);
      } else {
        assert t !in TasksOf(s.tasks, gone);
      }
    }
    forall k | k in s'.tasks ensures s'.cancelled[s'.tasks[k]] == 0 {
      assert s.tasks[k] !in TasksOf(s.tasks, gone);
    }
  }

  lemma StartLedger(s: State, key: StreamKey)
    requires Ledger(s) && key !in s.tasks
    ensures Ledger(s.(tasks := s.tasks[key := s.nextTask], nextTask := s.nextTask + 1))
  {
    var s' := s.(tasks := s.tasks[key := s.nextTask], nextTask := s.nextTask + 1);
    assert s'.tasks[key] == s.nextTask;
    assert forall k | k in s.tasks :: s'.tasks[k] == s.tasks[k] && s'.tasks[k] in s'.tasks.Values;
    assert s.tasks.Values <= s'.tasks.Values;
    assert s.nextTask in s'.tasks.Values;
  }

  lemma DropKeeps(s: State, socket: Socket, keys: set<StreamKey>)
    requires NoneEmpty(s) && Ledger(s)
    ensures NoneEmpty(Drop(s, socket, keys)) && Ledger(Drop(s, socket, keys))
    ensures TasksSubscribed(s) ==> TasksSubscribed(Drop(s, socket, keys))
  {
    CancelLedger(s, Emptied(s.subscribers, socket, keys));
    assert Ledger(Drop(s, socket, keys));
  }

  lemma StepKeeps(s: State, op: Op)
    requires NoneEmpty(s) && Ledger(s)
    ensures NoneEmpty(Apply(s, op)) && Ledger(Apply(s, op))
    ensures TasksSubscribed(s) && (op.StartStream? ==> KeyOf(op.host, op.container) in s.subscribers)
            ==> TasksSubscribed(Apply(s, op))
  {
    match op
    case Subscribe(_, _, _) =>
    case StartStream(container, host) =>
      if KeyOf(host, container) !in s.tasks {
        StartLedger(s, KeyOf(host, container));
      }
    case StopAll =>
      CancelLedger(s, s.tasks.Keys);
    case _ =>
      DropKeeps(s, op.socket, Targets(s.subscribers, op));
  }

  /** On every run no subscriber set is empty and every started task is accounted for; if
      streams start only for subscribed keys, only subscribed keys have a task. */
  lemma {:induction false} EveryRunConsistent(ops: seq<Op>)
    ensures NoneEmpty(Exec(Init(), ops)) && Ledger(Exec(Init(), ops))
    ensures StartsSubscribed(Init(), ops) ==> TasksSubscribed(Exec(Init(), ops))
  {
    if ops != [] {
      EveryRunConsistent(ops[..|ops| - 1]);
      StepKeeps(Exec(Init(), ops[..|ops| - 1]), ops[|ops| - 1]);
    }
  }

  predicate Listens(s: State, socket: Socket, k: StreamKey) {
    k in s.subscribers && socket in s.subscribers[k]
  }

  /** A drop takes from its socket exactly the targeted keys and leaves every other socket
      alone; a key loses its task exactly when its last subscriber goes. */
  lemma DropIsExact(s: State, op: Op, other: Socket, k: StreamKey)
    requires NoneEmpty(s) && (op.Revoke? || op.Unsubscribe? || op.UnsubscribeAll? || op.DropDead?)
    ensures var s' := Apply(s, op);
            && (Listens(s', other, k) <==>
                Listens(s, other, k) && !(other == op.socket && k in Targets(s.subscribers, op)))
            && (k in s'.tasks <==> k in s.tasks && (k in s.subscribers ==> k in s'.subscribers))
            && (k in s'.tasks ==> s'.tasks[k] == s.tasks[k])
  {
    var keys := Targets(s.subscribers, op);
    assert k in Emptied(s.subscribers, op.socket, keys) ==> k in s.subscribers;
  }

  // ---------------------------------------------------------------- the object

  class RealtimeMonitor {
    var subscribers: map<StreamKey, set<Socket>>   // stats_subscribers
    var tasks: map<StreamKey, TaskId>              // monitoring_tasks
    var nextTask: TaskId
    ghost var cancelled: multiset<TaskId>

    ghost function Now(): State
      reads this
    {
      State(subscribers, tasks, cancelled, nextTask)
    }

    constructor ()
      ensures Now() == Init()
    {
      subscribers, tasks, nextTask, cancelled := map[], map[], 0, multiset{};
    }

    method SubscribeToStats(socket: Socket, container: string, host: string)
      modifies this
      ensures Now() == Apply(old(Now()), Subscribe(socket, container, host))
    {
      var key := KeyOf(host, container);
      if key !in subscribers {
        subscribers := subscribers[key := {}];
      }
      subscribers := subscribers[key := subscribers[key] + {socket}];
    }

    /** _drop_subscriber */
    method DropSubscriber(socket: Socket, key: StreamKey)
      modifies this
      ensures Now() == Drop(old(Now()), socket, {key})
    {
      DropOne(Now(), socket, key);
      if key in subscribers {
        Discarded(subscribers, key, socket);
        subscribers := subscribers[key := subscribers[key] - {socket}];
        if subscribers[key] == {} {
          subscribers := subscribers - {key};
          if key in tasks {
            cancelled := cancelled + multiset{tasks[key]};
            tasks := tasks - {key};
          }
        }
      }
    }

    /** The loops over a snapshot of the keys, in any order. */
    method DropFrom(socket: Socket, keys: set<StreamKey>)
      requires Ledger(Now())
      modifies this
      ensures Now() == Drop(old(Now()), socket, keys)
    {
      var todo := keys;
      DropNothing(Now(), socket);
      while todo != {}
        invariant todo <= keys
        invariant Now() == Drop(old(Now()), socket, keys - todo)
        decreases todo
      {
        var key :| key in todo;
        DropOneMore(old(Now()), socket, keys - todo, key);
        assert keys - (todo - {key}) == (keys - todo) + {key};
        todo := todo - {key};
        DropSubscriber(socket, key);
      }
      assert keys - {} == keys;
    }

    method RevokeHiddenSubscriptions(socket: Socket, visible: Option<set<string>>)
      requires Ledger(Now())
      modifies this
      ensures Now() == Apply(old(Now()), Revoke(socket, visible))
    {
      DropNothing(Now(), socket);
      if visible.Some? {
        DropFrom(socket, set k | k in subscribers && HostOf(k) !in visible.value);
      }
    }

    method UnsubscribeFromStats(socket: Socket, container: string, host: Option<string>)
      requires Ledger(Now())
      modifies this
      ensures Now() == Apply(old(Now()), Unsubscribe(socket, container, host))
    {
      DropFrom(socket, set k | k in subscribers && Targeted(k, container, host));
    }

    method UnsubscribeAllStats(socket: Socket)
      requires Ledger(Now())
      modifies this
      ensures Now() == Apply(old(Now()), UnsubscribeAll(socket))
    {
      DropFrom(socket, subscribers.Keys);
    }

    method StartContainerStatsStream(container: string, host: string)
      modifies this
      ensures Now() == Apply(old(Now()), StartStream(container, host))
    {
      var key := KeyOf(host, container);
      if key in tasks {
        return;
      }
      tasks := tasks[key := nextTask];
      nextTask := nextTask + 1;
    }

    method StopAllMonitoring()
      modifies this
      ensures Now() == Apply(old(Now()), StopAll)
    {
      assert TasksOf(tasks, tasks.Keys) == tasks.Values;
      assert tasks - tasks.Keys == map[];
      cancelled := cancelled + multiset(tasks.Values);
      tasks := map[];
    }
  }

  lemma DropNothing(s: State, socket: Socket)
    ensures Drop(s, socket, {}) == s
  {
    assert Emptied(s.subscribers, socket, {}) == {};
    assert TasksOf(s.tasks, {}) == {};
    assert WithoutSocket(s.subscribers, socket, {}) == s.subscribers;
  }

  /** What dropping from a single key comes to. */
  lemma DropOne(s: State, socket: Socket, key: StreamKey)
    ensures Drop(s, socket, {key}) ==
            if key !in s.subscribers then s
            else if !(s.subscribers[key] <= {socket}) then
              s.(subscribers := s.subscribers[key := s.subscribers[key] - {socket}])
            else if key in s.tasks then
              s.(subscribers := s.subscribers - {key}, tasks := s.tasks - {key},
                 cancelled := s.cancelled + multiset{s.tasks[key]})
            else s.(subscribers := s.subscribers - {key})
  {
    var gone := Emptied(s.subscribers, socket, {key});
    assert gone == if key in s.subscribers && s.subscribers[key] <= {socket} then {key} else {};
    assert TasksOf(s.tasks, {key}) == if key in s.tasks then {s.tasks[key]} else {};
    assert TasksOf(s.tasks, {}) == {};
    assert s.tasks - {} == s.tasks;
    assert key !in s.tasks ==> s.tasks - {key} == s.tasks;
    var left := WithoutSocket(s.subscribers, socket, {key});
    if key !in s.subscribers {
      assert left == s.subscribers;
    } else if s.subscribers[key] <= {socket} {
      assert left == s.subscribers - {key};
    } else {
      assert left == s.subscribers[key := s.subscribers[key] - {socket}];
    }
  }

  lemma Discarded(subscribers: map<StreamKey, set<Socket>>, key: StreamKey, socket: Socket)
    requires key in subscribers
    ensures subscribers[key] - {socket} == {} <==> subscribers[key] <= {socket}
    ensures subscribers[key := subscribers[key] - {socket}] - {key} == subscribers - {key}
  {
  }

  lemma TasksOfTwo(tasks: map<StreamKey, TaskId>, a: set<StreamKey>, b: set<StreamKey>)
    requires a !! b
    requires forall k, l | k in tasks && l in tasks && tasks[k] == tasks[l] :: k == l
    ensures TasksOf(tasks - a, b) == TasksOf(tasks, b)
    ensures multiset(TasksOf(tasks, a + b)) == multiset(TasksOf(tasks, a)) + multiset(TasksOf(tasks, b))
  {
    var ta, tb := TasksOf(tasks, a), TasksOf(tasks, b);
    assert TasksOf(tasks, a + b) == ta + tb;
    assert ta !! tb;
    assert multiset(ta + tb) == multiset(ta) + multiset(tb);
  }

  /** Cancelling two disjoint sets of keys one after the other is cancelling both. */
  lemma CancelTwice(s: State, a: set<StreamKey>, b: set<StreamKey>)
    requires a !! b && Ledger(s)
    ensures CancelAll(CancelAll(s, a), b) == CancelAll(s, a + b)
  {
    TasksOfTwo(s.tasks, a, b);
    assert s.tasks - a - b == s.tasks - (a + b);
  }

  /** Dropping key by key is dropping all at once. */
  lemma DropOneMore(s: State, socket: Socket, keys: set<StreamKey>, key: StreamKey)
    requires key !in keys && Ledger(s)
    ensures Drop(Drop(s, socket, keys), socket, {key}) == Drop(s, socket, keys + {key})
  {
    var left := WithoutSocket(s.subscribers, socket, keys);
    var gone, gone1 := Emptied(s.subscribers, socket, keys), Emptied(left, socket, {key});
    assert gone1 == Emptied(s.subscribers, socket, {key});
    assert Emptied(s.subscribers, socket, keys + {key}) == gone + gone1;
    assert WithoutSocket(left, socket, {key}) == WithoutSocket(s.subscribers, socket, keys + {key});
    CancelTwice(s, gone, gone1);
  }

  // ---------------------------------------------------------------- keys of hosts and containers

  lemma {:induction false} HostOfKey(host: string, container: string)
    requires ':' !in host
    ensures HostOf(KeyOf(host, container)) == host
  {
    var key := KeyOf(host, container);
    if host != "" {
      assert key[0] == host[0] && key[1..] == KeyOf(host[1..], container);
      HostOfKey(host[1..], container);
    }
  }

  lemma KeyInjective(host: string, container: string, h: string, c: string)
    requires ':' !in host && ':' !in h
    ensures KeyOf(host, container) == KeyOf(h, c) <==> host == h && container == c
  {
    if KeyOf(host, container) == KeyOf(h, c) {
      HostOfKey(host, container);
      HostOfKey(h, c);
      assert KeyOf(host, container)[|host| + 1..] == container;
      assert KeyOf(h, c)[|h| + 1..] == c;
    }
  }

  lemma NoEarlierSuffix(host: string, c: string, container: string, at: nat)
    requires ':' !in container && at < |host|
    ensures KeyOf(host, c)[at..] != ":" + container
  {
    var tail, suffix, x := KeyOf(host, c)[at..], ":" + container, |host| - at;
    assert tail[x] == ':';
    assert x < |suffix| ==> suffix[x] == container[x - 1];
  }

  lemma EndsWithContainer(host: string, c: string, container: string)
    requires ':' !in c && ':' !in container
    ensures EndsWith(KeyOf(host, c), ":" + container) <==> c == container
  {
    var key, suffix := KeyOf(host, c), ":" + container;
    if c == container {
      assert key[|key| - |suffix|..] == suffix;
    }
    if EndsWith(key, suffix) {
      var at := |key| - |suffix|;
      assert key[at] == key[at..][0] == ':';
      if at < |host| {
        NoEarlierSuffix(host, c, container, at);
      }
      assert key[at + 1..] == c && suffix[1..] == container;
      assert key[at..][1..] == key[at + 1..];
    }
  }

  /** Revoking takes from the socket exactly the containers on hosts no longer visible. */
  lemma RevokeByHost(s: State, socket: Socket, visible: set<string>, host: string, container: string)
    requires NoneEmpty(s) && ':' !in host
    ensures Listens(Apply(s, Revoke(socket, Some(visible))), socket, KeyOf(host, container)) <==>
            Listens(s, socket, KeyOf(host, container)) && host in visible
    ensures Apply(s, Revoke(socket, None)).subscribers == s.subscribers
  {
    DropIsExact(s, Revoke(socket, Some(visible)), socket, KeyOf(host, container));
    HostOfKey(host, container);
    DropNothing(s, socket);
  }

  /** Unsubscribing takes the one container on the one host, or without a host on every host. */
  lemma UnsubscribeByContainer(s: State, socket: Socket, container: string, onHost: Option<string>, host: string,
                               other: string)
    requires NoneEmpty(s) && ':' !in host && ':' !in other && ':' !in container
    requires onHost.Some? ==> ':' !in onHost.value
    ensures Listens(Apply(s, Unsubscribe(socket, container, onHost)), socket, KeyOf(host, other)) <==>
            Listens(s, socket, KeyOf(host, other)) &&
            !(other == container && (onHost.None? || onHost.value == host))
  {
    DropIsExact(s, Unsubscribe(socket, container, onHost), socket, KeyOf(host, other));
    KeyInjective(host, other, "None", container);
    EndsWithContainer(host, other, container);
    if onHost.Some? {
      KeyInjective(host, other, onHost.value, container);
    }
  }

  /** A subscription adds the socket to its own key and nothing else; a socket leaving altogether
      keeps none; one found dead by a monitoring task loses just that task's key. */
  lemma SubscribeAndLeave(s: State, socket: Socket, host: string, container: string, other: Socket, k: StreamKey)
    requires NoneEmpty(s)
    ensures Listens(Apply(s, Subscribe(socket, container, host)), other, k) <==>
            Listens(s, other, k) || (other == socket && k == host + ":" + container)
    ensures !Listens(Apply(s, UnsubscribeAll(socket)), socket, k)
    ensures Listens(Apply(s, DropDead(socket, host + ":" + container)), other, k) <==>
            Listens(s, other, k) && !(other == socket && k == host + ":" + container)
  {
    DropIsExact(s, UnsubscribeAll(socket), socket, k);
    DropIsExact(s, DropDead(socket, host + ":" + container), other, k);
  }

  /** Starting adds a task for the one key unless it has one; stopping all leaves none, and
      neither touches a subscription. */
  lemma StartAndStop(s: State, host: string, container: string, k: StreamKey)
    ensures var s' := Apply(s, StartStream(container, host));
            && (k in s'.tasks <==> k in s.tasks || k == host + ":" + container)
            && (k in s.tasks ==> s'.tasks[k] == s.tasks[k])
            && s'.subscribers == s.subscribers
    ensures k !in Apply(s, StopAll).tasks && Apply(s, StopAll).subscribers == s.subscribers
  {
  }
}
