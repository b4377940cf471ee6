/**
  `device-heartbeat/index.ts`, one step per handler: the heartbeat state in the database, the write cache in Redis
  and the delayed message queue. Consumers may lag by any amount, and a consume may fail. The cache may lose an entry at
  any time, and the delete of a previous message may fail unnoticed; either leaves an orphaned message behind.
 */
module Heartbeat {
  import opened Basics

  type Device = int
  type MessageId = nat

  datatype OnlineState = Unknown | Timeout | Offline | Online

  /** A queued change of state; `due` is when its delay has passed. Times are in milliseconds. */
  datatype Message = Message(device: Device, next: OnlineState, due: int)

  /** A write cache entry: the id of the message queued with it, and when the database write it stands for was made. */
  datatype Entry = Entry(id: MessageId, state: OnlineState, updatedAt: Option<int>, expires: int)

  /** `cacheTimeout` is null, or how long a cached Online state spares the database; the other delay is in seconds. */
  datatype Config = Config(cacheTimeout: Option<nat>, offlineDelay: nat)

  datatype System = System(
    now: int,
    db: map<Device, OnlineState>,
    cache: map<Device, Entry>,
    queue: map<MessageId, Message>,
    nextId: MessageId)

  const SECOND := 1000
  /** How long a cache entry outlives the message queued with it. */
  const GRACE := 5 * SECOND

  function Lookup<K, V>(m: map<K, V>, k: K): Option<V> {
    if k in m then Some(m[k]) else None
  }

  /** The heartbeat state of a device in the database. */
  function StateOf(s: System, d: Device): OnlineState {
    Lookup(s.db, d).GetOr(Unknown)
  }

  // ---- the handlers ----

  /** The database is spared only by a cached Online state that is recent enough. */
  predicate Writes(c: Config, prev: Option<Entry>, now: int) {
    || prev.None?
    || prev.value.state != Online
    || (c.cacheTimeout.Some?
        && (prev.value.updatedAt.None? || now > prev.value.updatedAt.value + c.cacheTimeout.value))
  }

  /** The time stamp of a new entry: its own, or one carried over from an entry for the same state. */
  function Stamp(c: Config, prev: Option<Entry>, state: OnlineState, own: Option<int>): Option<int> {
    if c.cacheTimeout.Some? && prev.Some? && prev.value.state == state && own.None? then prev.value.updatedAt else own
  }

  /** Replace the message of the previous entry by a new one, and cache the state. A failing delete is ignored. */
  function Schedule(c: Config, s: System, d: Device, prev: Option<Entry>, state: OnlineState, next: OnlineState,
      delay: nat, own: Option<int>, deleteFails: bool): System
  {
    var rest := if prev.Some? && !deleteFails then s.queue - {prev.value.id} else s.queue;
    var entry := Entry(s.nextId, state, Stamp(c, prev, state, own), s.now + delay * SECOND + GRACE);
    s.(queue := rest[s.nextId := Message(d, next, s.now + delay * SECOND)],
       nextId := s.nextId + 1,
       cache := s.cache[d := entry])
  }

  /** A device asks for its state: `captureEventFor`. */
  function Poll(c: Config, s: System, d: Device, delay: nat, deleteFails: bool): System {
    var prev := Lookup(s.cache, d);
    var writes := Writes(c, prev, s.now);
    Schedule(c, if writes then s.(db := s.db[d := Online]) else s, d, prev, Online, Timeout, delay,
             if writes && c.cacheTimeout.Some? then Some(s.now) else None, deleteFails)
  }

  /** A consumer handles a message; a message for any other state is never deleted. */
  function Consume(c: Config, s: System, id: MessageId, deleteFails: bool): System {
    if id !in s.queue then s
    else
      var d := s.queue[id].device;
      match s.queue[id].next
      case Timeout =>
        var after :=
          Schedule(c, s.(db := s.db[d := Timeout]), d, Lookup(s.cache, d), Timeout, Offline, c.offlineDelay, None, deleteFails);
        after.(queue := after.queue - {id})
      case Offline => s.(db := s.db[d := Offline], cache := s.cache - {d}, queue := s.queue - {id})
      case _ => s
  }

  // ---- runs ----

  datatype Event =
    | Tick(to: int)
    | PollBy(device: Device, delay: nat, deleteFails: bool)
    | Consumed(id: MessageId, deleteFails: bool)
    | ConsumeFailed(id: MessageId)
    | Forget(device: Device)

  predicate Enabled(s: System, e: Event) {
    match e
    case Tick(to) => s.now <= to
    case PollBy(_, delay, _) => delay >= 1
    case Consumed(id, _) => id in s.queue && s.queue[id].due <= s.now
    case ConsumeFailed(id) => id in s.queue && s.queue[id].due <= s.now
    case Forget(d) => d in s.cache
  }

  function Step(c: Config, s: System, e: Event): System {
    match e
    case Tick(to) => s.(now := to)
    case PollBy(d, delay, deleteFails) => Poll(c, s, d, delay, deleteFails)
    case Consumed(id, deleteFails) => Consume(c, s, id, deleteFails)
    case ConsumeFailed(_) => s
    case Forget(d) => s.(cache := s.cache - {d})
  }

  predicate Legal(c: Config, s: System, es: seq<Event>)
    decreases |es|
  {
    es == [] || (Enabled(s, es[0]) && Legal(c, Step(c, s, es[0]), es[1..]))
  }

  function Run(c: Config, s: System, es: seq<Event>): System
    decreases |es|
  {
    if es == [] then s else Run(c, Step(c, s, es[0]), es[1..])
  }

  predicate Initial(s: System) {
    s.db == map[] && s.cache == map[] && s.queue == map[]
  }

  // ---- the manager as the code runs it ----

  class DeviceOnlineStateManager {
    const config: Config
    var now: int
    var db: map<Device, OnlineState>
    var cache: map<Device, Entry>
    var queue: map<MessageId, Message>
    var nextId: MessageId

    constructor (config: Config, s: System)
      ensures this.config == config && Value() == s
    {
      this.config := config;
      now, db, cache, queue, nextId := s.now, s.db, s.cache, s.queue, s.nextId;
    }

    ghost function Value(): System
      reads this
    {
      System(now, db, cache, queue, nextId)
    }

    method SendMessage(message: Message) returns (id: MessageId)
      modifies this`queue, this`nextId
      ensures id == old(nextId) && nextId == id + 1 && queue == old(queue)[id := message]
    {
      id := nextId;
      queue, nextId := queue[id := message], nextId + 1;
    }

    method ScheduleChangeOfStateForDevice(d: Device, previous: Option<Entry>, state: OnlineState, next: OnlineState,
        delay: nat, updatedAt: Option<int>, deleteFails: bool)
      modifies this`queue, this`nextId, this`cache
      ensures Value() == Schedule(config, old(Value()), d, previous, state, next, delay, updatedAt, deleteFails)
    {
      if previous.Some? && !deleteFails {
        queue := queue - {previous.value.id};
      }
      var newId := SendMessage(Message(d, next, now + delay * SECOND));
      var stamp := updatedAt;
      if config.cacheTimeout.Some? && previous.Some? && previous.value.state == state {
        if stamp.None? {
          stamp := previous.value.updatedAt;
        }
      }
      cache := cache[d := Entry(newId, state, stamp, now + (delay + 5) * SECOND)];
    }

    method CaptureEventFor(d: Device, timeoutSeconds: nat, deleteFails: bool)
      modifies this
      ensures Value() == Poll(config, old(Value()), d, timeoutSeconds, deleteFails)
    {
      var updatedAt: Option<int> := None;
      var previous := Lookup(cache, d);
      if Writes(config, previous, now) {
        db := db[d := Online];
        if config.cacheTimeout.Some? {
          updatedAt := Some(now);
        }
      }
      ScheduleChangeOfStateForDevice(d, previous, Online, Timeout, timeoutSeconds, updatedAt, deleteFails);
    }

    /** One round of `consume`; the database update may throw, and then the message stays. */
    method ConsumeMessage(id: MessageId, databaseFails: bool, deleteFails: bool) returns (ok: bool)
      modifies this
      ensures ok <==> id in old(queue) && old(queue)[id].next in {Timeout, Offline} && !databaseFails
      ensures Value() == if ok then Consume(config, old(Value()), id, deleteFails) else old(Value())
    {
      if id !in queue {
        return false;
      }
      var message := queue[id];
      if databaseFails || message.next !in {Timeout, Offline} {
        return false;
      }
      db := db[message.device := message.next];
      if message.next == Timeout {
        var previous := Lookup(cache, message.device);
        ScheduleChangeOfStateForDevice(message.device, previous, Timeout, Offline, config.offlineDelay, None, deleteFails);
      } else {
        cache := cache - {message.device};
      }
      queue := queue - {id};
      ok := true;
    }
  }

  // ---- cache, database and queue agree ----

  ghost predicate HasMessage(s: System, d: Device) {
    exists id :: id in s.queue && s.queue[id].device == d
  }

  /** A device that is Online or timing out has a queued message, so it cannot stay so for ever. */
  ghost predicate Supervised(s: System) {
    forall d :: StateOf(s, d) in {Online, Timeout} ==> HasMessage(s, d)
  }

  /** A cached state is the state in the database, and an entry names no message of another device. */
  ghost predicate CacheAgrees(s: System) {
    forall d :: d in s.cache ==>
      && s.cache[d].state == StateOf(s, d)
      && s.cache[d].id < s.nextId
      && (s.cache[d].id in s.queue ==> s.queue[s.cache[d].id].device == d)
  }

  ghost predicate QueueIsSound(s: System) {
    forall id :: id in s.queue ==> id < s.nextId && s.queue[id].next in {Timeout, Offline}
  }

  ghost predicate Inv(s: System) {
    Supervised(s) && CacheAgrees(s) && QueueIsSound(s)
  }

  lemma PollKeepsInv(c: Config, s: System, d: Device, delay: nat, deleteFails: bool)
    requires Inv(s)
    ensures Inv(Poll(c, s, d, delay, deleteFails)) && StateOf(Poll(c, s, d, delay, deleteFails), d) == Online
  {
    var after := Poll(c, s, d, delay, deleteFails);
    assert s.nextId in after.queue && after.queue[s.nextId].device == d;
    forall d' | d' != d && StateOf(after, d') in {Online, Timeout} ensures HasMessage(after, d') {
      assert StateOf(s, d') == StateOf(after, d');
      var id :| id in s.queue && s.queue[id].device == d';
      assert id in after.queue && after.queue[id].device == d';
    }
  }

  lemma ConsumeKeepsInv(c: Config, s: System, id: MessageId, deleteFails: bool)
    requires Inv(s) && id in s.queue
    ensures var after := Consume(c, s, id, deleteFails);
            Inv(after) && StateOf(after, s.queue[id].device) == s.queue[id].next
  {
    var after, d := Consume(c, s, id, deleteFails), s.queue[id].device;
    if s.queue[id].next == Timeout {
      assert s.nextId in after.queue && after.queue[s.nextId].device == d;
    }
    forall d' | d' != d && StateOf(after, d') in {Online, Timeout} ensures HasMessage(after, d') {
      assert StateOf(s, d') == StateOf(after, d');
      var m :| m in s.queue && s.queue[m].device == d';
      assert m in after.queue && after.queue[m].device == d';
    }
  }

  lemma StepKeepsInv(c: Config, s: System, e: Event)
    requires Inv(s) && Enabled(s, e)
    ensures Inv(Step(c, s, e))
  {
    var after := Step(c, s, e);
    match e
    case PollBy(d, delay, deleteFails) => PollKeepsInv(c, s, d, delay, deleteFails);
    case Consumed(id, deleteFails) => ConsumeKeepsInv(c, s, id, deleteFails);
    case _ =>
      forall d | StateOf(after, d) in {Online, Timeout} ensures HasMessage(after, d) {
        assert StateOf(s, d) == StateOf(after, d);
        var id :| id in s.queue && s.queue[id].device == d;
        assert id in after.queue && after.queue[id].device == d;
      }
  }

  lemma {:induction false} RunKeepsInv(c: Config, s: System, es: seq<Event>)
    requires Inv(s) && Legal(c, s, es)
    ensures Inv(Run(c, s, es))
    decreases |es|
  {
    if es != [] {
      StepKeepsInv(c, s, es[0]);
      RunKeepsInv(c, Step(c, s, es[0]), es[1..]);
    }
  }

  /** In every reachable state a poll leaves the device Online, whether or not it had to write. */
  lemma PollAlwaysLeavesOnline(c: Config, s: System, es: seq<Event>, d: Device, delay: nat, deleteFails: bool)
    requires Initial(s) && Legal(c, s, es)
    ensures StateOf(Poll(c, Run(c, s, es), d, delay, deleteFails), d) == Online
    ensures StateOf(Run(c, s, es), d) != Online ==> Writes(c, Lookup(Run(c, s, es).cache, d), Run(c, s, es).now)
  {
    RunKeepsInv(c, s, es);
    PollKeepsInv(c, Run(c, s, es), d, delay, deleteFails);
  }

  // ---- without polls the queue drains and every device ends Offline ----

  function MessagesFor(queue: map<MessageId, Message>, next: OnlineState): set<MessageId> {
    set id | id in queue && queue[id].next == next
  }

  function Measure(s: System): nat {
    2 * |MessagesFor(s.queue, Timeout)| + |MessagesFor(s.queue, Offline)|
  }

  /** A consumed Timeout leaves at most one more Offline in its place; a consumed Offline leaves nothing. */
  lemma ConsumedQueue(c: Config, s: System, id: MessageId, deleteFails: bool)
    requires Inv(s) && id in s.queue
    ensures var queue := Consume(c, s, id, deleteFails).queue;
            if s.queue[id].next == Timeout then
              && MessagesFor(queue, Timeout) <= MessagesFor(s.queue, Timeout) - {id}
              && MessagesFor(queue, Offline) <= MessagesFor(s.queue, Offline) + {s.nextId}
            else
              && MessagesFor(queue, Timeout) <= MessagesFor(s.queue, Timeout)
              && MessagesFor(queue, Offline) <= MessagesFor(s.queue, Offline) - {id}
  {
  }

  lemma ConsumeLowersMeasure(c: Config, s: System, id: MessageId, deleteFails: bool)
    requires Inv(s) && id in s.queue
    ensures Measure(Consume(c, s, id, deleteFails)) < Measure(s)
  {
    var after := Consume(c, s, id, deleteFails);
    var timeouts, offlines := MessagesFor(s.queue, Timeout), MessagesFor(s.queue, Offline);
    ConsumedQueue(c, s, id, deleteFails);
    if s.queue[id].next == Timeout {
      SubsetIsNotLarger(MessagesFor(after.queue, Timeout), timeouts - {id});
      SubsetIsNotLarger(MessagesFor(after.queue, Offline), offlines + {s.nextId});
    } else {
      SubsetIsNotLarger(MessagesFor(after.queue, Timeout), timeouts);
      SubsetIsNotLarger(MessagesFor(after.queue, Offline), offlines - {id});
    }
  }

  function Successes(es: seq<Event>): nat {
    if es == [] then 0 else (if es[0].Consumed? then 1 else 0) + Successes(es[1..])
  }

  lemma QuietStep(c: Config, s: System, e: Event)
    requires Inv(s) && Enabled(s, e) && !e.PollBy?
    ensures Measure(Step(c, s, e)) + (if e.Consumed? then 1 else 0) <= Measure(s)
    ensures forall d :: StateOf(s, d) != Unknown ==> StateOf(Step(c, s, e), d) != Unknown
  {
    if e.Consumed? {
      ConsumeLowersMeasure(c, s, e.id, e.deleteFails);
    }
  }

  /**
    With no more polls there are at most `Measure(s)` successful consumes, however they are ordered, delayed or mixed
    with failures and cache losses; and once the queue is empty every device that was ever seen is Offline, so that
    its next poll writes Online.
   */
  lemma {:induction false} QuietRunDrains(c: Config, s: System, es: seq<Event>)
    requires Inv(s) && Legal(c, s, es) && forall n :: 0 <= n < |es| ==> !es[n].PollBy?
    ensures Inv(Run(c, s, es))
    ensures Successes(es) + Measure(Run(c, s, es)) <= Measure(s)
    ensures Run(c, s, es).queue == map[] ==> forall d :: StateOf(s, d) != Unknown ==>
              StateOf(Run(c, s, es), d) == Offline && Writes(c, Lookup(Run(c, s, es).cache, d), Run(c, s, es).now)
    decreases |es|
  {
    if es == [] {
      forall d | s.queue == map[] && StateOf(s, d) != Unknown ensures StateOf(s, d) == Offline {
        assert !HasMessage(s, d);
      }
    } else {
      StepKeepsInv(c, s, es[0]);
      QuietStep(c, s, es[0]);
      QuietRunDrains(c, Step(c, s, es[0]), es[1..]);
    }
  }

  /** Until the queue is empty some message can still be consumed, once its delay has passed. */
  lemma QueuedMessageCanBeConsumed(c: Config, s: System, id: MessageId, deleteFails: bool)
    requires Inv(s) && id in s.queue
    ensures exists t :: Legal(c, s, [Tick(t), Consumed(id, deleteFails)]) && Measure(Run(c, s, [Tick(t), Consumed(id, deleteFails)])) < Measure(s)
  {
    var t := if s.now < s.queue[id].due then s.queue[id].due else s.now;
    var ticked := s.(now := t);
    StepKeepsInv(c, s, Tick(t));
    ConsumeLowersMeasure(c, ticked, id, deleteFails);
    assert [Tick(t), Consumed(id, deleteFails)][1..] == [Consumed(id, deleteFails)] && [Consumed(id, deleteFails)][1..] == [];
    assert Step(c, ticked, Consumed(id, deleteFails)) == Consume(c, ticked, id, deleteFails);
    assert Legal(c, Consume(c, ticked, id, deleteFails), []) && Run(c, Consume(c, ticked, id, deleteFails), []) == Consume(c, ticked, id, deleteFails);
    assert Legal(c, ticked, [Consumed(id, deleteFails)]) && Run(c, ticked, [Consumed(id, deleteFails)]) == Consume(c, ticked, id, deleteFails);
    assert Legal(c, s, [Tick(t), Consumed(id, deleteFails)]);
  }

  // ---- timely runs ----

  /** No message is left unconsumed for the whole grace period, the cache loses entries only by expiry, and polls delete. */
  predicate TimelyStep(s: System, e: Event) {
    match e
    case Tick(to) => forall id :: id in s.queue ==> to < s.queue[id].due + GRACE
    case Forget(d) => d in s.cache && s.cache[d].expires <= s.now
    case PollBy(_, _, deleteFails) => !deleteFails
    case _ => true
  }

  predicate Timely(c: Config, s: System, es: seq<Event>)
    decreases |es|
  {
    es == [] || (TimelyStep(s, es[0]) && Timely(c, Step(c, s, es[0]), es[1..]))
  }

  /** What the one message of a device in the given state will do. */
  function NextOf(state: OnlineState): OnlineState {
    if state == Online then Timeout else Offline
  }

  /** The queued messages of a device are exactly the one its cache entry names, and the entry outlives it. */
  ghost predicate InStep(s: System) {
    && (forall id :: id in s.queue ==> s.queue[id].device in s.cache && s.cache[s.queue[id].device].id == id)
    && (forall d :: d in s.cache ==> d in s.db && s.cache[d].state == s.db[d] && EntryIsBacked(s, d))
    && (forall d :: d in s.db && d !in s.cache ==> s.db[d] == Offline)
    && (forall id :: id in s.queue ==> id < s.nextId && s.now < s.queue[id].due + GRACE)
  }

  ghost predicate EntryIsBacked(s: System, d: Device)
    requires d in s.cache
  {
    var entry := s.cache[d];
    && entry.state in {Online, Timeout}
    && entry.id in s.queue
    && s.queue[entry.id] == Message(d, NextOf(entry.state), entry.expires - GRACE)
  }

  lemma PollKeepsInStep(c: Config, s: System, d: Device, delay: nat)
    requires InStep(s)
    ensures InStep(Poll(c, s, d, delay, false))
  {
    var after := Poll(c, s, d, delay, false);
    forall d' | d' in after.cache ensures d' in after.db && after.cache[d'].state == after.db[d'] && EntryIsBacked(after, d') {
      assert d' != d ==> EntryIsBacked(s, d');
      assert d in s.cache ==> EntryIsBacked(s, d);
    }
  }

  lemma ConsumeKeepsInStep(c: Config, s: System, id: MessageId, deleteFails: bool)
    requires InStep(s) && id in s.queue
    ensures InStep(Consume(c, s, id, deleteFails))
  {
    var after, owner := Consume(c, s, id, deleteFails), s.queue[id].device;
    assert EntryIsBacked(s, owner);
    forall d | d in after.cache ensures d in after.db && after.cache[d].state == after.db[d] && EntryIsBacked(after, d) {
      assert d != owner ==> EntryIsBacked(s, d);
    }
  }

  lemma TimelyStepKeepsInStep(c: Config, s: System, e: Event)
    requires InStep(s) && Enabled(s, e) && TimelyStep(s, e)
    ensures InStep(Step(c, s, e))
  {
    var after := Step(c, s, e);
    if e.Forget? {
      assert false;
    } else if e.PollBy? {
      PollKeepsInStep(c, s, e.device, e.delay);
    } else if e.Consumed? {
      ConsumeKeepsInStep(c, s, e.id, e.deleteFails);
    } else {
      forall d | d in after.cache ensures d in after.db && after.cache[d].state == after.db[d] && EntryIsBacked(after, d) {
        assert EntryIsBacked(s, d);
      }
    }
  }

  /**
    While every message is consumed before its cache entry expires, there are no orphans: a device has a message
    exactly when it is cached, it is the message the entry names, and the state it will set follows the database state.
   */
  lemma {:induction false} TimelyRunHasNoOrphans(c: Config, s: System, es: seq<Event>)
    requires InStep(s) && Legal(c, s, es) && Timely(c, s, es)
    ensures InStep(Run(c, s, es))
    decreases |es|
  {
    if es != [] {
      TimelyStepKeepsInStep(c, s, es[0]);
      TimelyRunHasNoOrphans(c, Step(c, s, es[0]), es[1..]);
    }
  }

  /** Time never reaches the due time of a message of the device: it polls again first. */
  predicate Punctual(c: Config, s: System, d: Device, es: seq<Event>)
    decreases |es|
  {
    es == [] || (
      && (es[0].Tick? ==> forall id :: id in s.queue && s.queue[id].device == d ==> es[0].to < s.queue[id].due)
      && Punctual(c, Step(c, s, es[0]), d, es[1..]))
  }

  ghost predicate Ahead(s: System, d: Device) {
    StateOf(s, d) == Online && forall id :: id in s.queue && s.queue[id].device == d ==> s.now < s.queue[id].due
  }

  lemma PunctualStep(c: Config, s: System, d: Device, e: Event)
    requires InStep(s) && Enabled(s, e) && TimelyStep(s, e) && Ahead(s, d)
    requires e.Tick? ==> forall id :: id in s.queue && s.queue[id].device == d ==> e.to < s.queue[id].due
    ensures Ahead(Step(c, s, e), d)
  {
    TimelyStepKeepsInStep(c, s, e);
    var after := Step(c, s, e);
    if e.Consumed? {
      assert s.queue[e.id].device != d;
    }
  }

  /** In a timely run a device that polls before each due time is never written Timeout or Offline. */
  lemma {:induction false} PunctualDeviceStaysOnline(c: Config, s: System, d: Device, es: seq<Event>)
    requires InStep(s) && Ahead(s, d)
    requires Legal(c, s, es) && Timely(c, s, es) && Punctual(c, s, d, es)
    ensures StateOf(Run(c, s, es), d) == Online
    decreases |es|
  {
    if es != [] {
      PunctualStep(c, s, d, es[0]);
      TimelyStepKeepsInStep(c, s, es[0]);
      PunctualDeviceStaysOnline(c, Step(c, s, es[0]), d, es[1..]);
    }
  }

  /** The first poll of a run puts a device ahead of its messages. */
  lemma PollPutsAhead(c: Config, s: System, d: Device, delay: nat)
    requires InStep(s) && delay >= 1
    ensures InStep(Poll(c, s, d, delay, false)) && Ahead(Poll(c, s, d, delay, false), d)
  {
    TimelyStepKeepsInStep(c, s, PollBy(d, delay, false));
    if d in s.cache {
      assert EntryIsBacked(s, d);
    }
  }

  // ---- orphans ----

  /** A queued message that the cache entry of its device does not name. */
  predicate Orphan(s: System, id: MessageId) {
    id in s.queue && (s.queue[id].device in s.cache ==> s.cache[s.queue[id].device].id != id)
  }

  /** The message that the device's entry names is not due: the device has polled in time. */
  predicate InTime(s: System, d: Device) {
    d in s.cache && s.cache[d].id in s.queue ==> s.now < s.queue[s.cache[d].id].due
  }

  predicate ConsumesOrphanOf(s: System, d: Device, e: Event) {
    e.Consumed? && Orphan(s, e.id) && s.queue[e.id].device == d
  }

  /** A device that polls in time leaves Online in a step exactly if the step consumes an orphaned message of it. */
  lemma LeavesOnlineIff(c: Config, s: System, d: Device, e: Event)
    requires Inv(s) && Enabled(s, e) && InTime(s, d) && StateOf(s, d) == Online
    ensures StateOf(Step(c, s, e), d) != Online <==> ConsumesOrphanOf(s, d, e)
  {
    if e.Consumed? {
      ConsumeKeepsInv(c, s, e.id, e.deleteFails);
    }
  }

  /** In every state of the run the device has polled in time. */
  predicate AlwaysInTime(c: Config, s: System, d: Device, es: seq<Event>)
    decreases |es|
  {
    InTime(s, d) && (es == [] || AlwaysInTime(c, Step(c, s, es[0]), d, es[1..]))
  }

  predicate AlwaysOnline(c: Config, s: System, d: Device, es: seq<Event>)
    decreases |es|
  {
    StateOf(s, d) == Online && (es == [] || AlwaysOnline(c, Step(c, s, es[0]), d, es[1..]))
  }

  predicate ConsumesNoOrphanOf(c: Config, s: System, d: Device, es: seq<Event>)
    decreases |es|
  {
    es == [] || (!ConsumesOrphanOf(s, d, es[0]) && ConsumesNoOrphanOf(c, Step(c, s, es[0]), d, es[1..]))
  }

  /** Over any run, timely or not: a device that polls in time stays Online exactly if no orphan of it is consumed. */
  lemma {:induction false} StaysOnlineIff(c: Config, s: System, d: Device, es: seq<Event>)
    requires Inv(s) && Legal(c, s, es) && AlwaysInTime(c, s, d, es) && StateOf(s, d) == Online
    ensures AlwaysOnline(c, s, d, es) <==> ConsumesNoOrphanOf(c, s, d, es)
    decreases |es|
  {
    if es != [] {
      LeavesOnlineIff(c, s, d, es[0]);
      StepKeepsInv(c, s, es[0]);
      if !ConsumesOrphanOf(s, d, es[0]) {
        StaysOnlineIff(c, Step(c, s, es[0]), d, es[1..]);
      }
    }
  }

  lemma RunCons(c: Config, s: System, e: Event, es: seq<Event>)
    ensures Legal(c, s, [e] + es) <==> Enabled(s, e) && Legal(c, Step(c, s, e), es)
    ensures Run(c, s, [e] + es) == Run(c, Step(c, s, e), es)
  {
    assert ([e] + es)[1..] == es;
  }

  /**
    Timeliness is needed. A lost cache entry orphans its message: the device polls again well before its new message
    is due, and the old one still times it out. Had the entry not been lost, the poll would have removed the message.
   */
  lemma LostEntryTimesOutPunctualDevice(c: Config, s: System, d: Device, delay: nat, t: int)
    requires Inv(s) && d in s.cache && s.cache[d].id in s.queue && s.queue[s.cache[d].id].next == Timeout
    requires s.now <= t && s.queue[s.cache[d].id].due <= t < s.now + delay * SECOND
    ensures var after := OldMessageComes(s, d, delay, t, false);
            && Legal(c, s, [Forget(d)] + after) && StateOf(Run(c, s, [Forget(d)] + after), d) == Timeout
            && !Legal(c, s, after)
  {
    var forgotten := Step(c, s, Forget(d));
    RunCons(c, s, Forget(d), OldMessageComes(s, d, delay, t, false));
    OldMessageRuns(c, s, forgotten, d, delay, t, false);
    OldMessageRuns(c, s, s, d, delay, t, false);
    ConsumeKeepsInv(c, s, s.cache[d].id, false);
  }

  /** The same happens without any loss when the poll fails to delete the old message. */
  lemma FailedDeleteTimesOutPunctualDevice(c: Config, s: System, d: Device, delay: nat, t: int)
    requires Inv(s) && d in s.cache && s.cache[d].id in s.queue && s.queue[s.cache[d].id].next == Timeout
    requires s.now <= t && s.queue[s.cache[d].id].due <= t < s.now + delay * SECOND
    ensures var after := OldMessageComes(s, d, delay, t, true);
            Legal(c, s, after) && StateOf(Run(c, s, after), d) == Timeout
  {
    OldMessageRuns(c, s, s, d, delay, t, true);
    ConsumeKeepsInv(c, s, s.cache[d].id, false);
  }

  /** A poll, and then the consumption of the message that was queued before it. */
  function OldMessageComes(s: System, d: Device, delay: nat, t: int, deleteFails: bool): seq<Event>
    requires d in s.cache
  {
    [PollBy(d, delay, deleteFails)] + ([Tick(t)] + ([Consumed(s.cache[d].id, false)] + []))
  }

  lemma OldMessageRuns(c: Config, s: System, from: System, d: Device, delay: nat, t: int, deleteFails: bool)
    requires Inv(s) && d in s.cache && s.cache[d].id in s.queue && delay >= 1 && from.now <= t
    ensures var id, polled, after := s.cache[d].id, Poll(c, from, d, delay, deleteFails), OldMessageComes(s, d, delay, t, deleteFails);
            && (Legal(c, from, after) <==> id in polled.queue && polled.queue[id].due <= t)
            && (Legal(c, from, after) ==> Run(c, from, after) == Consume(c, polled.(now := t), id, false))
  {
    var last := [Consumed(s.cache[d].id, false)] + [];
    var polled := Poll(c, from, d, delay, deleteFails);
    RunCons(c, from, PollBy(d, delay, deleteFails), [Tick(t)] + last);
    RunCons(c, polled, Tick(t), last);
    RunCons(c, polled.(now := t), Consumed(s.cache[d].id, false), []);
  }

  // ---- when messages are due, measured from the polls ----

  /**
    After a poll the device's entry names a Timeout message that is due exactly `timeout` seconds later, and outlives it
    by five seconds; a message that was queued before is gone unless its delete failed.
   */
  lemma PollQueuesTimeout(c: Config, s: System, d: Device, timeout: nat, deleteFails: bool)
    requires Inv(s)
    ensures var after := Poll(c, s, d, timeout, deleteFails);
            && d in after.cache && after.cache[d].state == Online && after.cache[d].id in after.queue
            && after.queue[after.cache[d].id] == Message(d, Timeout, s.now + timeout * 1000)
            && after.cache[d].expires == s.now + (timeout + 5) * 1000
            && (d in s.cache && s.cache[d].id in s.queue ==> (s.cache[d].id in after.queue <==> deleteFails))
  {
  }

  /** After a consumed Timeout the device is in Timeout, and its Offline message is due exactly `offlineDelay` seconds later. */
  lemma TimeoutQueuesOffline(c: Config, s: System, id: MessageId, deleteFails: bool)
    requires Inv(s) && id in s.queue && s.queue[id].next == Timeout
    ensures var after, d := Consume(c, s, id, deleteFails), s.queue[id].device;
            && StateOf(after, d) == Timeout && id !in after.queue
            && d in after.cache && after.cache[d].state == Timeout && after.cache[d].id in after.queue
            && after.queue[after.cache[d].id] == Message(d, Offline, s.now + c.offlineDelay * 1000)
            && after.cache[d].expires == s.now + (c.offlineDelay + 5) * 1000
  {
  }

  /** After a consumed Offline the device is Offline and forgotten, and nothing is queued in its place. */
  lemma OfflineQueuesNothing(c: Config, s: System, id: MessageId, deleteFails: bool)
    requires Inv(s) && id in s.queue && s.queue[id].next == Offline
    ensures var after, d := Consume(c, s, id, deleteFails), s.queue[id].device;
            StateOf(after, d) == Offline && d !in after.cache && after.queue == s.queue - {id}
  {
  }

  /** The device that an event is about, if any. */
  function About(s: System, e: Event): Option<Device> {
    match e
    case PollBy(d, _, _) => Some(d)
    case Consumed(id, _) => if id in s.queue then Some(s.queue[id].device) else None
    case Forget(d) => Some(d)
    case _ => None
  }

  /** Nothing happens to other devices. */
  lemma OthersAreUntouched(c: Config, s: System, e: Event, d: Device)
    requires Inv(s) && Enabled(s, e) && About(s, e) != Some(d)
    ensures var after := Step(c, s, e);
            && Lookup(after.db, d) == Lookup(s.db, d) && Lookup(after.cache, d) == Lookup(s.cache, d)
            && forall id :: (id in after.queue && after.queue[id].device == d) <==> (id in s.queue && s.queue[id].device == d)
  {
  }

  /** Each poll of the device comes less than the timeout of the poll before it after that poll, which was at `last`. */
  predicate PollsOften(c: Config, s: System, d: Device, last: int, timeout: nat, es: seq<Event>)
    decreases |es|
  {
    es == [] || (
      && (es[0].Tick? ==> es[0].to < last + timeout * 1000)
      && (if es[0].PollBy? && es[0].device == d
          then PollsOften(c, Step(c, s, es[0]), d, s.now, es[0].delay, es[1..])
          else PollsOften(c, Step(c, s, es[0]), d, last, timeout, es[1..])))
  }

  /** The device was last written Online, and its one message is due a timeout after its last poll. */
  ghost predicate Polled(s: System, d: Device, last: int, timeout: nat) {
    && StateOf(s, d) == Online && s.now < last + timeout * 1000
    && d in s.cache && s.cache[d].expires == last + (timeout + 5) * 1000
  }

  lemma PolledStep(c: Config, s: System, d: Device, last: int, timeout: nat, e: Event)
    requires InStep(s) && Enabled(s, e) && TimelyStep(s, e) && Polled(s, d, last, timeout)
    requires e.Tick? ==> e.to < last + timeout * 1000
    ensures var polls := e.PollBy? && e.device == d;
            Polled(Step(c, s, e), d, if polls then s.now else last, if polls then e.delay else timeout)
  {
    assert EntryIsBacked(s, d);
    if e.Consumed? {
      assert EntryIsBacked(s, s.queue[e.id].device);
    }
  }

  lemma {:induction false} PolledRun(c: Config, s: System, d: Device, last: int, timeout: nat, es: seq<Event>)
    requires InStep(s) && Polled(s, d, last, timeout)
    requires Legal(c, s, es) && Timely(c, s, es) && PollsOften(c, s, d, last, timeout, es)
    ensures AlwaysOnline(c, s, d, es)
    decreases |es|
  {
    if es != [] {
      var polls := es[0].PollBy? && es[0].device == d;
      PolledStep(c, s, d, last, timeout, es[0]);
      TimelyStepKeepsInStep(c, s, es[0]);
      PolledRun(c, Step(c, s, es[0]), d, if polls then s.now else last, if polls then es[0].delay else timeout, es[1..]);
    }
  }

  /** In a timely run a device whose polls are less than its own timeout apart is Online in every state after the first. */
  lemma FrequentPollsStayOnline(c: Config, s: System, d: Device, timeout: nat, es: seq<Event>)
    requires InStep(s) && timeout >= 1
    requires var polled := Poll(c, s, d, timeout, false);
             Legal(c, polled, es) && Timely(c, polled, es) && PollsOften(c, polled, d, s.now, timeout, es)
    ensures AlwaysOnline(c, Poll(c, s, d, timeout, false), d, es)
  {
    PollPutsAhead(c, s, d, timeout);
    PolledRun(c, Poll(c, s, d, timeout, false), d, s.now, timeout, es);
  }

  // ---- how often a poll writes ----

  /** Polls and the passing of time up to `until`: nothing is consumed and nothing is lost. */
  predicate OnlyPolls(es: seq<Event>, until: int) {
    forall n :: 0 <= n < |es| ==> es[n].PollBy? || (es[n].Tick? && es[n].to <= until)
  }

  /** No poll of the device in the run writes to the database. */
  predicate NeverWrites(c: Config, s: System, d: Device, es: seq<Event>)
    decreases |es|
  {
    es == [] || (
      && (es[0].PollBy? && es[0].device == d ==> !Writes(c, Lookup(s.cache, d), s.now))
      && NeverWrites(c, Step(c, s, es[0]), d, es[1..]))
  }

  lemma {:induction false} FreshStampSpares(c: Config, s: System, d: Device, at: int, es: seq<Event>)
    requires d in s.cache && s.cache[d].state == Online
    requires c.cacheTimeout.Some? ==>
               s.cache[d].updatedAt == Some(at) && s.now <= at + c.cacheTimeout.value && OnlyPolls(es, at + c.cacheTimeout.value)
    requires c.cacheTimeout.None? ==> forall n :: 0 <= n < |es| ==> es[n].PollBy? || es[n].Tick?
    ensures NeverWrites(c, s, d, es)
    decreases |es|
  {
    if es != [] {
      FreshStampSpares(c, Step(c, s, es[0]), d, at, es[1..]);
    }
  }

  /**
    After a poll that had to write, polls spare the database for the cache timeout, measured from that write however
    often the device polls, and for good without a cache timeout.
   */
  lemma WrittenPollSparesDatabase(c: Config, s: System, d: Device, timeout: nat, deleteFails: bool, es: seq<Event>)
    requires d !in s.cache || s.cache[d].state != Online
    requires c.cacheTimeout.Some? ==> OnlyPolls(es, s.now + c.cacheTimeout.value)
    requires c.cacheTimeout.None? ==> forall n :: 0 <= n < |es| ==> es[n].PollBy? || es[n].Tick?
    ensures NeverWrites(c, Poll(c, s, d, timeout, deleteFails), d, es)
    ensures StateOf(Poll(c, s, d, timeout, deleteFails), d) == Online
  {
    FreshStampSpares(c, Poll(c, s, d, timeout, deleteFails), d, s.now, es);
  }

  /** Once the cache timeout has passed since the stamped write, the next poll writes again and renews the stamp. */
  lemma StaleStampWrites(c: Config, s: System, d: Device, timeout: nat, deleteFails: bool)
    requires d in s.cache && s.cache[d].state == Online && c.cacheTimeout.Some?
    requires s.cache[d].updatedAt.Some? ==> s.cache[d].updatedAt.value + c.cacheTimeout.value < s.now
    ensures Writes(c, Lookup(s.cache, d), s.now)
    ensures var after := Poll(c, s, d, timeout, deleteFails);
            d in after.cache && after.cache[d].updatedAt == Some(s.now) && StateOf(after, d) == Online
  {
  }
}
