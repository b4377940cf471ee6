/**
  `device-logs/lib/backends/redis.ts`: a capped list per device with pub/sub fan-out, and a counter of the API
  instances that listen to a device, without which published lines are not fanned out.
 */
module RedisLogs {
  import opened Basics
  import opened DeviceLogs
  import opened LogReader

  // ---- Redis list commands ----

  /** The positions `start` to `stop` of a list, where a negative position counts from its end. */
  function Slice<T>(list: seq<T>, start: int, stop: int): seq<T> {
    var from := if start < 0 then |list| + start else start;
    var first := if from < 0 then 0 else from;
    var to := if stop < 0 then |list| + stop else stop;
    if first > to || first >= |list| then []
    else list[first..(if to >= |list| then |list| else to + 1)]
  }

  lemma SliceToEnd<T>(list: seq<T>, start: int)
    ensures start < 0 ==> Slice(list, start, -1) == list[(if |list| + start < 0 then 0 else |list| + start)..]
    ensures start >= 0 ==> Slice(list, start, -1) == list[(if start < |list| then start else |list|)..]
  {
  }

  // ---- the log list ----

  function ToStored(log: InternalLog): OutputLog {
    OutputLog(log.nanoTimestamp / 1_000_000, log.line)
  }

  function ToStoredAll(logs: seq<InternalLog>): (stored: seq<OutputLog>)
    ensures |stored| == |logs| && forall n :: 0 <= n < |logs| ==> stored[n] == ToStored(logs[n])
  {
    seq(|logs|, n requires 0 <= n < |logs| => ToStored(logs[n]))
  }

  datatype Count = Finite(count: int) | Infinity

  /** `!opts.count` asks for no history at all. */
  function History(list: seq<OutputLog>, count: Count, start: int): seq<OutputLog> {
    if count == Finite(0) then []
    else Filter(Slice(list, if count == Infinity then 0 else -count.count, -1), (log: OutputLog) => log.createdAt >= start)
  }

  class RedisServer {
    var list: seq<OutputLog>
    var subscribers: Option<int>
    var fannedOut: seq<OutputLog>

    constructor ()
      ensures list == [] && subscribers == None && fannedOut == []
    {
      list, subscribers, fannedOut := [], None, [];
    }

    /** The `publishLogs` script. It fails without lines, because `rpush` needs one. */
    method PublishLogs(logs: seq<OutputLog>, limit: nat) returns (ok: bool)
      modifies this`list, this`fannedOut
      ensures ok <==> logs != []
      ensures list == if ok then Newest(old(list) + logs, limit) else old(list)
      ensures fannedOut == old(fannedOut) + if ok && subscribers.Some? then logs else []
    {
      if logs == [] {
        return false;
      }
      list := list + logs;
      SliceToEnd(list, 0 - limit);
      list := Slice(list, 0 - limit, -1);
      if subscribers.Some? {
        var n := 0;
        while n < |logs|
          invariant 0 <= n <= |logs|
          invariant fannedOut == old(fannedOut) + logs[..n] && list == Newest(old(list) + logs, limit)
        {
          fannedOut := fannedOut + [logs[n]];
          n := n + 1;
        }
        assert logs[..n] == logs;
      }
      ok := true;
    }

    method IncrSubscribers()
      modifies this`subscribers
      ensures subscribers == Execute(old(subscribers), Incr)
    {
      subscribers := Some(subscribers.GetOr(0) + 1);
    }

    method DecrSubscribers() returns (current: int)
      modifies this`subscribers
      ensures subscribers == Execute(old(subscribers), Decr) && current == old(subscribers).GetOr(0) - 1
    {
      current := subscribers.GetOr(0) - 1;
      subscribers := Some(current);
      if current <= 0 {
        subscribers := None;
      }
    }
  }

  /** What happens to the list of a device: batches, each the result of one flush, and the expiry of the key. */
  datatype Publishing = Batch(logs: seq<InternalLog>) | KeyExpires

  function StoredAfter(limit: nat, list: seq<OutputLog>, ps: seq<Publishing>): seq<OutputLog>
    decreases |ps|
  {
    if ps == [] then list
    else
      match ps[0]
      case KeyExpires => StoredAfter(limit, [], ps[1..])
      case Batch(logs) => StoredAfter(limit, Newest(list + ToStoredAll(logs), limit), ps[1..])
  }

  /** The unbounded log: everything published since the key last expired. */
  function PublishedAfter(all: seq<OutputLog>, ps: seq<Publishing>): seq<OutputLog>
    decreases |ps|
  {
    if ps == [] then all
    else
      match ps[0]
      case KeyExpires => PublishedAfter([], ps[1..])
      case Batch(logs) => PublishedAfter(all + ToStoredAll(logs), ps[1..])
  }

  lemma NewestOfMore(limit: nat, all: seq<OutputLog>, more: seq<OutputLog>)
    ensures Newest(Newest(all, limit) + more, limit) == Newest(all + more, limit)
  {
  }

  /** The capped list is the end of the unbounded log. */
  lemma {:induction false} ListIsNewest(limit: nat, all: seq<OutputLog>, ps: seq<Publishing>)
    ensures StoredAfter(limit, Newest(all, limit), ps) == Newest(PublishedAfter(all, ps), limit)
    decreases |ps|
  {
    if ps != [] {
      match ps[0]
      case KeyExpires => ListIsNewest(limit, [], ps[1..]);
      case Batch(logs) =>
        NewestOfMore(limit, all, ToStoredAll(logs));
        ListIsNewest(limit, all + ToStoredAll(logs), ps[1..]);
    }
  }

  /** The newest lines that a history request sees: a negative count leaves out the oldest stored lines instead. */
  function Window(all: seq<OutputLog>, limit: nat, count: Count): seq<OutputLog> {
    match count
    case Infinity => Newest(all, limit)
    case Finite(n) =>
      if n == 0 then []
      else if n > 0 then Newest(all, if limit == 0 || n < limit then n else limit)
      else
        var stored := Newest(all, limit);
        stored[(if -n < |stored| then -n else |stored|)..]
  }

  /** The history is what the unbounded log would answer, whatever was published. */
  lemma HistoryRefinesUnboundedLog(limit: nat, ps: seq<Publishing>, count: Count, start: int)
    ensures History(StoredAfter(limit, [], ps), count, start)
         == Filter(Window(PublishedAfter([], ps), limit, count), (log: OutputLog) => log.createdAt >= start)
  {
    ListIsNewest(limit, [], ps);
    var all := PublishedAfter([], ps);
    var list := Newest(all, limit);
    if count.Finite? {
      SliceToEnd(list, -count.count);
    } else {
      SliceToEnd(list, 0);
    }
    assert count != Finite(0) ==>
      Slice(list, if count == Infinity then 0 else -count.count, -1) == Window(all, limit, count);
  }

  /** Lines accepted in order are stored in order; lines of the same millisecond share their time stamp. */
  lemma StoredInOrder(logs: seq<InternalLog>)
    requires forall i, j :: 0 <= i < j < |logs| ==> logs[i].nanoTimestamp <= logs[j].nanoTimestamp
    ensures InOrder(ToStoredAll(logs))
  {
  }

  lemma {:induction false} FilteredSuffix(all: seq<OutputLog>, start: int) returns (from: nat)
    requires InOrder(all)
    ensures from <= |all| && Filter(all, (log: OutputLog) => log.createdAt >= start) == all[from..]
  {
    if all == [] {
      from := 0;
    } else {
      var rest := FilteredSuffix(all[1..], start);
      if all[0].createdAt >= start {
        FilterKeepsAll(all, start);
        from := 0;
      } else {
        from := rest + 1;
      }
    }
  }

  lemma {:induction false} FilterKeepsAll(all: seq<OutputLog>, start: int)
    requires forall n :: 0 <= n < |all| ==> all[n].createdAt >= start
    ensures Filter(all, (log: OutputLog) => log.createdAt >= start) == all
  {
    if all != [] {
      FilterKeepsAll(all[1..], start);
    }
  }

  lemma WindowIsSuffix(all: seq<OutputLog>, limit: nat, count: Count) returns (skipped: nat)
    ensures skipped <= |all| && Window(all, limit, count) == all[skipped..]
  {
    skipped := |all| - |Window(all, limit, count)|;
  }

  /** For lines in order a history is a suffix of what was published, as the merge of a streaming read relies on. */
  lemma HistoryIsSuffix(limit: nat, ps: seq<Publishing>, count: Count, start: int) returns (from: nat)
    requires InOrder(PublishedAfter([], ps))
    ensures var all := PublishedAfter([], ps);
            from <= |all| && History(StoredAfter(limit, [], ps), count, start) == all[from..]
  {
    HistoryRefinesUnboundedLog(limit, ps, count, start);
    var all := PublishedAfter([], ps);
    var skipped := WindowIsSuffix(all, limit, count);
    var within := FilteredSuffix(all[skipped..], start);
    from := skipped + within;
    SuffixOfSuffix(all, skipped, within);
  }

  lemma SuffixOfSuffix<T>(all: seq<T>, skipped: nat, within: nat)
    requires skipped + within <= |all|
    ensures all[skipped..][within..] == all[skipped + within..]
  {
  }

  /** A stored line is the accepted one, stamped with the millisecond that its nanosecond lies in. */
  lemma StoredInItsMillisecond(log: InternalLog)
    ensures ToStored(log).line == log.line
    ensures ToStored(log).createdAt * 1_000_000 <= log.nanoTimestamp < (ToStored(log).createdAt + 1) * 1_000_000
  {
  }

  /**
    A history is what of the newest `count` stored lines is not older than `start`: none for 0, all for infinity, and for
    a negative count all but the `-count` oldest.
   */
  lemma HistoryTakesNewest(list: seq<OutputLog>, count: int, start: int)
    ensures var recent := (log: OutputLog) => log.createdAt >= start;
            && History(list, Infinity, start) == Filter(list, recent)
            && History(list, Finite(0), start) == []
            && (0 < count <= |list| ==> History(list, Finite(count), start) == Filter(list[|list| - count..], recent))
            && (count > |list| ==> History(list, Finite(count), start) == Filter(list, recent))
            && (0 < -count <= |list| ==> History(list, Finite(count), start) == Filter(list[-count..], recent))
            && (-count > |list| ==> History(list, Finite(count), start) == [])
  {
    assert list[0..] == list && list[|list|..] == [];
    SliceToEnd(list, 0);
    if count != 0 {
      HistoryFrom(list, count, start);
    }
  }

  /** The position from which a history for a finite count starts. */
  function HistoryStart(length: nat, count: int): (from: nat)
    requires count != 0
    ensures from <= length
  {
    if count > length then 0 else if count > 0 then length - count else if -count < length then -count else length
  }

  lemma SliceFrom(list: seq<OutputLog>, count: int)
    requires count != 0
    ensures Slice(list, -count, -1) == list[HistoryStart(|list|, count)..]
  {
    SliceToEnd(list, -count);
  }

  lemma HistoryFrom(list: seq<OutputLog>, count: int, start: int)
    requires count != 0
    ensures History(list, Finite(count), start)
         == Filter(list[HistoryStart(|list|, count)..], (log: OutputLog) => log.createdAt >= start)
  {
    SliceFrom(list, count);
  }

  /** The cap keeps the newest lines: as many as the limit, or all of them for a limit of 0. */
  lemma CapKeepsNewest(limit: nat, ps: seq<Publishing>)
    ensures var stored, all := StoredAfter(limit, [], ps), PublishedAfter([], ps);
            && |stored| == (if limit == 0 || |all| <= limit then |all| else limit)
            && stored == all[|all| - |stored|..]
  {
    ListIsNewest(limit, [], ps);
  }

  // ---- the subscriber counter ----

  type Instance = int
  type Listener = int
  type Key = int

  datatype Command = Incr | Decr

  /** An API instance's listeners for one device, and its commands that Redis has not executed yet. */
  datatype Client = Client(listeners: multiset<Listener>, outbox: seq<Command>)

  /** `counted` are the instances whose last executed command was an increment. */
  datatype Hub = Hub(counter: Option<int>, clients: map<Instance, Client>, counted: set<Instance>)

  datatype Action =
    | Subscribe(instance: Instance, listener: Listener, connected: bool)
    | Unsubscribe(instance: Instance, listener: Listener)
    | Executes(instance: Instance)

  function Subscribed(c: Client, listener: Listener, connected: bool): Client {
    if !connected then c
    else Client(c.listeners + multiset{listener}, if c.listeners == multiset{} then c.outbox + [Incr] else c.outbox)
  }

  function Unsubscribed(c: Client, listener: Listener): Client {
    var rest := c.listeners - multiset{listener};
    Client(rest, if rest == multiset{} then c.outbox + [Decr] else c.outbox)
  }

  function Execute(counter: Option<int>, command: Command): Option<int> {
    match command
    case Incr => Some(counter.GetOr(0) + 1)
    case Decr => if counter.GetOr(0) - 1 <= 0 then None else Some(counter.GetOr(0) - 1)
  }

  const NO_LISTENERS := Client(multiset{}, [])

  function ClientOf(h: Hub, i: Instance): Client {
    if i in h.clients then h.clients[i] else NO_LISTENERS
  }

  function Act(h: Hub, a: Action): Hub {
    var c := ClientOf(h, a.instance);
    match a
    case Subscribe(i, listener, connected) => h.(clients := h.clients[i := Subscribed(c, listener, connected)])
    case Unsubscribe(i, listener) => h.(clients := h.clients[i := Unsubscribed(c, listener)])
    case Executes(i) =>
      if c.outbox == [] then h
      else Hub(Execute(h.counter, c.outbox[0]), h.clients[i := c.(outbox := c.outbox[1..])],
               if c.outbox[0] == Incr then h.counted + {i} else h.counted - {i})
  }

  function ActAll(h: Hub, actions: seq<Action>): Hub
    decreases |actions|
  {
    if actions == [] then h else ActAll(Act(h, actions[0]), actions[1..])
  }

  lemma OnlyAt<K, V>(m: map<K, V>, k: K, v: V)
    ensures m[k := v] - {k} == m - {k}
  {
  }

  /** The part of `RedisBackend` that keeps listeners: one object per API instance. */
  class RedisBackend {
    var connected: bool
    var subscriptions: map<Key, multiset<Listener>>
    var subscriptionHeartbeats: set<Key>
    var outbox: map<Key, seq<Command>>

    constructor ()
      ensures Valid() && connected && subscriptions == map[] && outbox == map[]
    {
      connected, subscriptions, subscriptionHeartbeats, outbox := true, map[], {}, map[];
    }

    function Listeners(key: Key): multiset<Listener>
      reads this
    {
      if key in subscriptions then subscriptions[key] else multiset{}
    }

    function Value(key: Key): Client
      reads this
    {
      Client(Listeners(key), if key in outbox then outbox[key] else [])
    }

    /** Exactly the keys with a listener are kept alive. */
    ghost predicate Valid()
      reads this
    {
      && subscriptionHeartbeats <= subscriptions.Keys
      && forall key :: key in subscriptions ==> (key in subscriptionHeartbeats <==> subscriptions[key] != multiset{})
    }

    method Send(key: Key, command: Command)
      modifies this`outbox
      ensures outbox == old(outbox)[key := old(Value(key)).outbox + [command]]
    {
      outbox := outbox[key := (if key in outbox then outbox[key] else []) + [command]];
    }

    method AddListener(key: Key, listener: Listener)
      requires Valid()
      modifies this`subscriptions, this`subscriptionHeartbeats, this`outbox
      ensures Valid()
      ensures Value(key) == Subscribed(old(Value(key)), listener, connected)
      ensures subscriptions - {key} == old(subscriptions) - {key} && outbox - {key} == old(outbox) - {key}
    {
      if !connected {
        return;
      }
      if Listeners(key) == multiset{} {
        Send(key, Incr);
      }
      KeepListeners(key, Listeners(key) + multiset{listener});
    }

    method RemoveListener(key: Key, listener: Listener)
      requires Valid()
      modifies this`subscriptions, this`subscriptionHeartbeats, this`outbox
      ensures Valid()
      ensures Value(key) == Unsubscribed(old(Value(key)), listener)
      ensures subscriptions - {key} == old(subscriptions) - {key} && outbox - {key} == old(outbox) - {key}
    {
      var rest := Listeners(key) - multiset{listener};
      OnlyAt(subscriptions, key, rest);
      OnlyAt(outbox, key, Value(key).outbox + [Decr]);
      KeepListeners(key, rest);
      if rest == multiset{} {
        Send(key, Decr);
      }
    }

    /** The listeners of a key, and the heartbeat that goes with having any. */
    method KeepListeners(key: Key, listeners: multiset<Listener>)
      requires Valid()
      modifies this`subscriptions, this`subscriptionHeartbeats
      ensures Valid() && subscriptions == old(subscriptions)[key := listeners]
    {
      subscriptions := subscriptions[key := listeners];
      if listeners == multiset{} {
        subscriptionHeartbeats := subscriptionHeartbeats - {key};
      } else {
        subscriptionHeartbeats := subscriptionHeartbeats + {key};
      }
    }
  }

  /** The commands still to be executed take turns, starting from whether the instance is counted. */
  predicate Alternates(on: bool, outbox: seq<Command>)
    decreases |outbox|
  {
    outbox == [] || (outbox[0] == (if on then Decr else Incr) && Alternates(!on, outbox[1..]))
  }

  /** Whether the instance will be counted once its commands are executed. */
  predicate EndsOn(on: bool, outbox: seq<Command>) {
    if outbox == [] then on else outbox[|outbox| - 1] == Incr
  }

  lemma {:induction false} AlternatesAppended(on: bool, outbox: seq<Command>, command: Command)
    requires Alternates(on, outbox)
    ensures Alternates(on, outbox + [command]) <==> command == (if EndsOn(on, outbox) then Decr else Incr)
    decreases |outbox|
  {
    if outbox == [] {
      assert (outbox + [command])[1..] == [];
    } else {
      AlternatesAppended(!on, outbox[1..], command);
      assert (outbox + [command])[1..] == outbox[1..] + [command];
    }
  }

  ghost predicate ClientIsInStep(h: Hub, i: Instance) {
    var c := ClientOf(h, i);
    Alternates(i in h.counted, c.outbox) && (EndsOn(i in h.counted, c.outbox) <==> c.listeners != multiset{})
  }

  /** The counter counts instances, and is deleted at 0. */
  predicate CountsInstances(h: Hub) {
    h.counter == if h.counted == {} then None else Some(|h.counted|)
  }

  ghost predicate InStep(h: Hub) {
    CountsInstances(h) && forall i :: ClientIsInStep(h, i)
  }

  lemma SubscribeKeepsInStep(h: Hub, i: Instance, listener: Listener, connected: bool)
    requires InStep(h)
    ensures InStep(Act(h, Subscribe(i, listener, connected)))
  {
    var after := Act(h, Subscribe(i, listener, connected));
    assert ClientIsInStep(h, i);
    AlternatesAppended(i in h.counted, ClientOf(h, i).outbox, Incr);
    forall j | j != i ensures ClientIsInStep(after, j) {
      assert ClientIsInStep(h, j);
    }
  }

  /** An unsubscribe keeps the counter right exactly when the instance has a listener for the device. */
  lemma UnsubscribeKeepsInStepIff(h: Hub, i: Instance, listener: Listener)
    requires InStep(h)
    ensures InStep(Act(h, Unsubscribe(i, listener))) <==> ClientOf(h, i).listeners != multiset{}
  {
    var after, c := Act(h, Unsubscribe(i, listener)), ClientOf(h, i);
    assert ClientIsInStep(h, i);
    AlternatesAppended(i in h.counted, c.outbox, Decr);
    if c.listeners != multiset{} {
      forall j | j != i ensures ClientIsInStep(after, j) {
        assert ClientIsInStep(h, j) && ClientOf(after, j) == ClientOf(h, j);
      }
      assert ClientIsInStep(after, i);
    } else {
      assert !ClientIsInStep(after, i);
    }
  }

  lemma ExecuteKeepsInStep(h: Hub, i: Instance)
    requires InStep(h)
    ensures InStep(Act(h, Executes(i)))
  {
    var after, c := Act(h, Executes(i)), ClientOf(h, i);
    assert ClientIsInStep(h, i);
    forall j ensures ClientIsInStep(after, j) {
      assert ClientIsInStep(h, j);
    }
    if c.outbox != [] && c.outbox[0] == Decr {
      assert h.counted == after.counted + {i};
    }
  }

  predicate MatchedAction(h: Hub, a: Action) {
    a.Unsubscribe? ==> ClientOf(h, a.instance).listeners != multiset{}
  }

  lemma ActKeepsInStep(h: Hub, a: Action)
    requires InStep(h) && MatchedAction(h, a)
    ensures InStep(Act(h, a))
  {
    match a
    case Subscribe(i, listener, connected) => SubscribeKeepsInStep(h, i, listener, connected);
    case Unsubscribe(i, listener) => UnsubscribeKeepsInStepIff(h, i, listener);
    case Executes(i) => ExecuteKeepsInStep(h, i);
  }

  /** Every unsubscribe finds a listener of its instance. */
  predicate Matched(h: Hub, actions: seq<Action>)
    decreases |actions|
  {
    actions == [] || (MatchedAction(h, actions[0]) && Matched(Act(h, actions[0]), actions[1..]))
  }

  lemma {:induction false} MatchedRunKeepsInStep(h: Hub, actions: seq<Action>)
    requires InStep(h) && Matched(h, actions)
    ensures InStep(ActAll(h, actions))
    decreases |actions|
  {
    if actions != [] {
      ActKeepsInStep(h, actions[0]);
      MatchedRunKeepsInStep(Act(h, actions[0]), actions[1..]);
    }
  }

  ghost predicate Listening(h: Hub, i: Instance) {
    ClientOf(h, i).listeners != multiset{}
  }

  /**
    Whatever the interleaving of instances and of command execution: once all commands are executed, the subscriber
    key exists, and so lines are fanned out, exactly when some instance has a listener.
   */
  lemma KeyExistsIffSomeoneListens(h: Hub, actions: seq<Action>)
    requires h == Hub(None, map[], {}) && Matched(h, actions)
    requires forall i :: ClientOf(ActAll(h, actions), i).outbox == []
    ensures ActAll(h, actions).counter.Some? <==> exists i :: Listening(ActAll(h, actions), i)
  {
    assert InStep(h) by {
      forall i ensures ClientIsInStep(h, i) {
      }
    }
    MatchedRunKeepsInStep(h, actions);
    var end := ActAll(h, actions);
    forall i ensures Listening(end, i) <==> i in end.counted {
      assert ClientIsInStep(end, i);
    }
    if end.counted != {} {
      var i := Pick(end.counted);
      assert Listening(end, i);
    }
  }

  /** What the key promises: it exists exactly if some instance has a listener. */
  ghost predicate KeyTellsListening(h: Hub) {
    h.counter.Some? <==> exists i :: Listening(h, i)
  }

  /**
    Right after an unsubscribe by an instance without listeners has been executed, the promise is broken if and only
    if a single instance is counted. With more the key survives for the time being, with a count that is one short.
   */
  lemma UnmatchedUnsubscribeBreaksKeyIff(h: Hub, i: Instance, listener: Listener)
    requires InStep(h) && (forall j :: ClientOf(h, j).outbox == []) && ClientOf(h, i).listeners == multiset{}
    ensures !KeyTellsListening(Act(Act(h, Unsubscribe(i, listener)), Executes(i))) <==> |h.counted| == 1
  {
    var after := Act(Act(h, Unsubscribe(i, listener)), Executes(i));
    assert ClientIsInStep(h, i) && i !in h.counted;
    assert ClientOf(Act(h, Unsubscribe(i, listener)), i).outbox == [Decr];
    forall j ensures Listening(after, j) <==> j in h.counted {
      assert ClientIsInStep(h, j);
    }
    if h.counted != {} {
      var j := Pick(h.counted);
      assert Listening(after, j);
    }
  }

  /**
    It happens. A reader that came while the connection was down was never subscribed, and when it leaves it
    still decrements: the key of the only instance that listens is deleted, and its lines are no longer fanned out.
   */
  lemma UnmatchedUnsubscribeSilencesOthers(h: Hub, i: Instance, other: Instance, listener: Listener)
    requires InStep(h) && h.counted == {other} && i != other && ClientOf(h, i) == NO_LISTENERS
    requires ClientOf(h, other).outbox == []
    ensures var end := ActAll(h, [Subscribe(i, listener, false), Unsubscribe(i, listener), Executes(i)]);
            end.counter == None && Listening(end, other) && forall j :: j != other ==> ClientOf(end, j) == ClientOf(h, j)
  {
    var actions := [Subscribe(i, listener, false), Unsubscribe(i, listener), Executes(i)];
    var h1 := Act(h, actions[0]);
    var h2 := Act(h1, actions[1]);
    var h3 := Act(h2, actions[2]);
    assert actions[1..][1..] == [Executes(i)] && actions[1..][1..][1..] == [];
    assert ActAll(h2, [Executes(i)]) == h3;
    assert ClientIsInStep(h, other);
    assert ClientOf(h2, i).outbox == [Decr] && |{other}| == 1;
  }

  /** A connected subscribe adds one listener, and the matching unsubscribe takes exactly that one away. */
  lemma UnsubscribeUndoesSubscribe(c: Client, listener: Listener)
    ensures Subscribed(c, listener, true).listeners == c.listeners + multiset{listener}
    ensures Unsubscribed(Subscribed(c, listener, true), listener).listeners == c.listeners
    ensures Subscribed(c, listener, false) == c
  {
  }

  // ---- after an unmatched unsubscribe ----

  /**
    What an unmatched unsubscribe still does: its decrement is the n-th command that an instance has not executed yet,
    or the counter is one short, or nothing any more.
   */
  datatype Debt = Owed(instance: Instance, position: nat) | Short | Paid

  function Without<T>(s: seq<T>, n: nat): seq<T>
    requires n < |s|
  {
    s[..n] + s[n + 1..]
  }

  /** The hub without the unmatched decrement. */
  function Settled(h: Hub, d: Debt): Hub
    requires d.Owed? ==> d.position < |ClientOf(h, d.instance).outbox|
  {
    match d
    case Owed(i, n) => h.(clients := h.clients[i := ClientOf(h, i).(outbox := Without(ClientOf(h, i).outbox, n))])
    case Short => h.(counter := Some(|h.counted|))
    case Paid => h
  }

  /** In step but for the debt. */
  ghost predicate Owing(h: Hub, d: Debt) {
    match d
    case Owed(i, n) =>
      var outbox := ClientOf(h, i).outbox;
      n < |outbox| && outbox[n] == Decr && !EndsOn(i in h.counted, outbox[..n]) && InStep(Settled(h, d))
    case Short =>
      h.counted != {} && InStep(Settled(h, d)) && h.counter == (if |h.counted| == 1 then None else Some(|h.counted| - 1))
    case Paid => InStep(h)
  }

  /** The debt is paid as soon as nobody is counted. */
  function DebtAfter(h: Hub, d: Debt, a: Action): Debt {
    match d
    case Owed(i, n) =>
      if a != Executes(i) then d
      else if n > 0 then Owed(i, n - 1)
      else if h.counted == {} then Paid
      else Short
    case Short => if Act(h, a).counted == {} then Paid else Short
    case Paid => Paid
  }

  function DebtAfterAll(h: Hub, d: Debt, actions: seq<Action>): Debt
    decreases |actions|
  {
    if actions == [] then d else DebtAfterAll(Act(h, actions[0]), DebtAfter(h, d, actions[0]), actions[1..])
  }

  lemma ShortKeepsOwing(h: Hub, a: Action)
    requires Owing(h, Short) && MatchedAction(h, a)
    ensures Owing(Act(h, a), DebtAfter(h, Short, a))
  {
    var g, after := Settled(h, Short), Act(h, a);
    assert ClientIsInStep(g, a.instance);
    ActKeepsInStep(g, a);
    assert Act(g, a).clients == after.clients && Act(g, a).counted == after.counted;
    if a.Executes? && ClientOf(h, a.instance).outbox != [] {
      CountedChanges(h.counted, a.instance);
    }
    if after.counted != {} {
      assert Act(g, a) == Settled(after, Short);
    } else {
      assert Act(g, a) == after;
    }
  }

  lemma CountedChanges(counted: set<Instance>, i: Instance)
    ensures i in counted ==> |counted - {i}| == |counted| - 1
    ensures i !in counted ==> |counted + {i}| == |counted| + 1
  {
  }

  lemma OwedKeepsOwing(h: Hub, i: Instance, n: nat, a: Action)
    requires Owing(h, Owed(i, n)) && MatchedAction(h, a)
    ensures Owing(Act(h, a), DebtAfter(h, Owed(i, n), a))
  {
    if a != Executes(i) {
      OtherActionCommutes(h, i, n, a);
      SameListeners(h, i, n, a);
      ActKeepsInStep(Settled(h, Owed(i, n)), a);
    } else if n == 0 {
      DebtIsExecuted(h, i);
    } else {
      DebtComesNearer(h, i, n);
    }
  }

  lemma SameListeners(h: Hub, i: Instance, n: nat, a: Action)
    requires n < |ClientOf(h, i).outbox| && MatchedAction(h, a)
    ensures MatchedAction(Settled(h, Owed(i, n)), a)
  {
  }

  lemma DebtIsExecuted(h: Hub, i: Instance)
    requires Owing(h, Owed(i, 0))
    ensures Owing(Act(h, Executes(i)), if h.counted == {} then Paid else Short)
  {
    var g, c, after := Settled(h, Owed(i, 0)), ClientOf(h, i), Act(h, Executes(i));
    assert Without(c.outbox, 0) == c.outbox[1..] && c.outbox[..0] == [];
    assert h.counted - {i} == h.counted;
    assert after == g.(counter := Execute(h.counter, Decr));
    if h.counted == {} {
      assert after == g;
    } else {
      assert Settled(after, Short) == g;
    }
  }

  lemma DebtComesNearer(h: Hub, i: Instance, n: nat)
    requires n > 0 && Owing(h, Owed(i, n))
    ensures Owing(Act(h, Executes(i)), Owed(i, n - 1))
  {
    var g, c, after := Settled(h, Owed(i, n)), ClientOf(h, i), Act(h, Executes(i));
    ActKeepsInStep(g, Executes(i));
    assert Without(c.outbox, n)[0] == c.outbox[0] && Without(c.outbox, n)[1..] == Without(c.outbox[1..], n - 1);
    assert c.outbox[..n][1..] == c.outbox[1..][..n - 1];
    assert Act(g, Executes(i)).clients == Settled(after, Owed(i, n - 1)).clients;
    assert n > 1 ==> c.outbox[1..][..n - 1][n - 2] == c.outbox[..n][n - 1];
  }

  lemma OtherActionCommutes(h: Hub, i: Instance, n: nat, a: Action)
    requires a != Executes(i) && n < |ClientOf(h, i).outbox|
    ensures n < |ClientOf(Act(h, a), i).outbox|
    ensures ClientOf(Act(h, a), i).outbox[..n] == ClientOf(h, i).outbox[..n] && ClientOf(Act(h, a), i).outbox[n] == ClientOf(h, i).outbox[n]
    ensures (i in Act(h, a).counted) == (i in h.counted)
    ensures Act(Settled(h, Owed(i, n)), a) == Settled(Act(h, a), Owed(i, n))
  {
    var c := ClientOf(h, i);
    if a.instance == i {
      WithoutAppended(c.outbox, n, if a.Subscribe? then Incr else Decr);
      var g, x := Settled(h, Owed(i, n)), ClientOf(Act(h, a), i);
      assert ClientOf(g, i) == c.(outbox := Without(c.outbox, n));
      assert Act(g, a).clients[i] == x.(outbox := Without(x.outbox, n));
    } else {
      SettledElsewhere(h, i, n, a);
    }
  }

  lemma WithoutAppended(outbox: seq<Command>, n: nat, command: Command)
    requires n < |outbox|
    ensures Without(outbox + [command], n) == Without(outbox, n) + [command]
    ensures (outbox + [command])[..n] == outbox[..n]
  {
  }

  lemma SettledElsewhere(h: Hub, i: Instance, n: nat, a: Action)
    requires a.instance != i && n < |ClientOf(h, i).outbox|
    ensures ClientOf(Act(h, a), i) == ClientOf(h, i) && (i in Act(h, a).counted <==> i in h.counted)
    ensures Act(Settled(h, Owed(i, n)), a) == Settled(Act(h, a), Owed(i, n))
  {
    var settled := ClientOf(h, i).(outbox := Without(ClientOf(h, i).outbox, n));
    assert ClientOf(h.(clients := h.clients[i := settled]), a.instance) == ClientOf(h, a.instance);
    UpdatesCommute(h.clients, i, settled, a.instance, ClientOf(Act(h, a), a.instance));
  }

  lemma UpdatesCommute<K, V>(m: map<K, V>, j: K, v: V, k: K, w: V)
    requires j != k
    ensures m[j := v][k := w] == m[k := w][j := v]
  {
  }

  lemma {:induction false} RunKeepsOwing(h: Hub, d: Debt, actions: seq<Action>)
    requires Owing(h, d) && Matched(h, actions)
    ensures Owing(ActAll(h, actions), DebtAfterAll(h, d, actions))
    decreases |actions|
  {
    if actions != [] {
      assert MatchedAction(h, actions[0]);
      match d {
        case Owed(i, n) => OwedKeepsOwing(h, i, n, actions[0]);
        case Short => ShortKeepsOwing(h, actions[0]);
        case Paid => ActKeepsInStep(h, actions[0]);
      }
      RunKeepsOwing(Act(h, actions[0]), DebtAfter(h, d, actions[0]), actions[1..]);
    }
  }

  /**
    The whole story of one unmatched unsubscribe, through any matched actions in any interleaving: once all commands
    are executed the counter is one short until nobody has been counted for a moment, and so the promise is broken
    exactly while it is short and a single instance listens.
   */
  lemma KeyAfterUnmatchedUnsubscribeIff(h: Hub, i: Instance, listener: Listener, actions: seq<Action>)
    requires InStep(h) && ClientOf(h, i).listeners == multiset{}
    requires Matched(Act(h, Unsubscribe(i, listener)), actions)
    requires forall j :: ClientOf(ActAll(Act(h, Unsubscribe(i, listener)), actions), j).outbox == []
    ensures var after := Act(h, Unsubscribe(i, listener));
            var end := ActAll(after, actions);
            var debt := DebtAfterAll(after, Owed(i, |ClientOf(h, i).outbox|), actions);
            && (debt.Short? || debt.Paid?)
            && (forall j :: Listening(end, j) <==> j in end.counted)
            && (end.counter.Some? <==> |end.counted| >= if debt.Short? then 2 else 1)
            && (KeyTellsListening(end) <==> !(debt.Short? && |end.counted| == 1))
  {
    var after := Act(h, Unsubscribe(i, listener));
    var debt := Owed(i, |ClientOf(h, i).outbox|);
    UnmatchedUnsubscribeOwes(h, i, listener);
    RunKeepsOwing(after, debt, actions);
    NothingOutstanding(ActAll(after, actions), DebtAfterAll(after, debt, actions));
  }

  lemma UnmatchedUnsubscribeOwes(h: Hub, i: Instance, listener: Listener)
    requires InStep(h) && ClientOf(h, i).listeners == multiset{}
    ensures Owing(Act(h, Unsubscribe(i, listener)), Owed(i, |ClientOf(h, i).outbox|))
  {
    var after, c, n := Act(h, Unsubscribe(i, listener)), ClientOf(h, i), |ClientOf(h, i).outbox|;
    assert ClientIsInStep(h, i);
    assert (c.outbox + [Decr])[..n] == c.outbox && Without(c.outbox + [Decr], n) == c.outbox;
    var g := Settled(after, Owed(i, n));
    assert forall j :: ClientOf(g, j) == ClientOf(h, j);
    forall j ensures ClientIsInStep(g, j) {
      assert ClientIsInStep(h, j);
    }
  }

  lemma NothingOutstanding(h: Hub, d: Debt)
    requires Owing(h, d) && forall j :: ClientOf(h, j).outbox == []
    ensures (d.Short? || d.Paid?) && (forall j :: Listening(h, j) <==> j in h.counted)
    ensures h.counter.Some? <==> |h.counted| >= if d.Short? then 2 else 1
    ensures KeyTellsListening(h) <==> !(d.Short? && |h.counted| == 1)
  {
    forall j ensures Listening(h, j) <==> j in h.counted {
      assert ClientIsInStep(Settled(h, d), j);
    }
    if h.counted != {} {
      var j := Pick(h.counted);
      assert Listening(h, j);
    }
  }
}
