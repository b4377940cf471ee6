/**
  `device-heartbeat/index.ts` for one device, one step per await: any number of polls and consumers interleave, each
  may throw at any await, a message may be delivered twice, the delete of a previous message may fail unnoticed, and the
  cache may lose its entry at any time. A database write and its time stamp are one step.
 */
module HeartbeatAwait {
  import opened Basics
  import opened Heartbeat

  type TaskId = nat

  datatype Write = Write(state: OnlineState, at: int)

  datatype Delayed = Delayed(next: OnlineState, due: int)

  /** The arguments with which a handler enters `scheduleChangeOfStateForDevice`. */
  datatype Plan = Plan(prev: Option<Entry>, state: OnlineState, next: OnlineState, delay: nat, own: Option<int>)

  /** Where a handler is suspended. */
  datatype Stage =
    | Reading(delay: nat)
    | Deciding(prev: Option<Entry>, delay: nat)
    | Writing(prev: Option<Entry>, delay: nat)
    | Clearing(plan: Plan)
    | Sending(plan: Plan)
    | Caching(plan: Plan, newId: MessageId)
    | Received(id: MessageId, next: OnlineState)
    | Rereading(id: MessageId)
    | Uncaching(id: MessageId)
    | Removing(id: MessageId)

  /** `history` holds the writes of the heartbeat state to the database, the latest last. */
  datatype World = World(
    now: int,
    history: seq<Write>,
    cache: Option<Entry>,
    queue: map<MessageId, Delayed>,
    nextId: MessageId,
    tasks: map<TaskId, Stage>,
    nextTask: TaskId)

  datatype Happening =
    | Passes(to: int)
    | Polls(delay: nat)
    | Receives(id: MessageId)
    | Proceeds(task: TaskId)
    | ReadFails(task: TaskId)
    | DeleteFails(task: TaskId)
    | Throws(task: TaskId)
    | Loses

  function Database(w: World): OnlineState {
    if w.history == [] then Unknown else w.history[|w.history| - 1].state
  }

  predicate Possible(w: World, h: Happening) {
    match h
    case Passes(to) => w.now <= to
    case Polls(_) => true
    case Receives(id) => id in w.queue && w.queue[id].due <= w.now
    case Proceeds(t) => t in w.tasks && (w.tasks[t].Received? ==> w.tasks[t].next in {Timeout, Offline})
    case ReadFails(t) => t in w.tasks && (w.tasks[t].Reading? || w.tasks[t].Rereading?)
    case DeleteFails(t) => t in w.tasks && w.tasks[t].Clearing? && w.tasks[t].plan.prev.Some?
    case Throws(t) => t in w.tasks
    case Loses => true
  }

  function At(w: World, t: TaskId, stage: Stage): World {
    w.(tasks := w.tasks[t := stage])
  }

  function Ends(w: World, t: TaskId): World {
    w.(tasks := w.tasks - {t})
  }

  /** The consumer read the cache: the rescheduling starts as a task of its own, which nothing awaits. */
  function Forks(c: Config, w: World, t: TaskId, id: MessageId, prev: Option<Entry>): World {
    var plan := Plan(prev, Timeout, Offline, c.offlineDelay, None);
    w.(tasks := w.tasks[t := Removing(id)][w.nextTask := Clearing(plan)], nextTask := w.nextTask + 1)
  }

  /** One handler runs up to its next await. */
  function Proceed(c: Config, w: World, t: TaskId, stage: Stage): World {
    match stage
    case Reading(delay) => At(w, t, Deciding(w.cache, delay))
    case Deciding(prev, delay) =>
      At(w, t, if Writes(c, prev, w.now) then Writing(prev, delay) else Clearing(Plan(prev, Online, Timeout, delay, None)))
    case Writing(prev, delay) =>
      var own := if c.cacheTimeout.Some? then Some(w.now) else None;
      At(w.(history := w.history + [Write(Online, w.now)]), t, Clearing(Plan(prev, Online, Timeout, delay, own)))
    case Clearing(plan) =>
      At(if plan.prev.Some? then w.(queue := w.queue - {plan.prev.value.id}) else w, t, Sending(plan))
    case Sending(plan) =>
      At(w.(queue := w.queue[w.nextId := Delayed(plan.next, w.now + plan.delay * SECOND)], nextId := w.nextId + 1), t,
         Caching(plan, w.nextId))
    case Caching(plan, newId) =>
      var entry := Entry(newId, plan.state, Stamp(c, plan.prev, plan.state, plan.own), w.now + plan.delay * SECOND + GRACE);
      Ends(w.(cache := Some(entry)), t)
    case Received(id, next) =>
      At(w.(history := w.history + [Write(next, w.now)]), t, if next == Timeout then Rereading(id) else Uncaching(id))
    case Rereading(id) => Forks(c, w, t, id, w.cache)
    case Uncaching(id) => At(w.(cache := None), t, Removing(id))
    case Removing(id) => Ends(w.(queue := w.queue - {id}), t)
  }

  /** A failed cache read counts as an empty cache. */
  function Misread(c: Config, w: World, t: TaskId, stage: Stage): World {
    match stage
    case Reading(delay) => At(w, t, Deciding(None, delay))
    case Rereading(id) => Forks(c, w, t, id, None)
    case _ => w
  }

  function Happens(c: Config, w: World, h: Happening): World {
    match h
    case Passes(to) => w.(now := to)
    case Polls(delay) => At(w, w.nextTask, Reading(delay)).(nextTask := w.nextTask + 1)
    case Receives(id) =>
      if id in w.queue then At(w, w.nextTask, Received(id, w.queue[id].next)).(nextTask := w.nextTask + 1) else w
    case Proceeds(t) => if t in w.tasks then Proceed(c, w, t, w.tasks[t]) else w
    case ReadFails(t) => if t in w.tasks then Misread(c, w, t, w.tasks[t]) else w
    case DeleteFails(t) => if t in w.tasks && w.tasks[t].Clearing? then At(w, t, Sending(w.tasks[t].plan)) else w
    case Throws(t) => Ends(w, t)
    case Loses => w.(cache := None)
  }

  predicate Possibly(c: Config, w: World, hs: seq<Happening>)
    decreases |hs|
  {
    hs == [] || (Possible(w, hs[0]) && Possibly(c, Happens(c, w, hs[0]), hs[1..]))
  }

  function Outcome(c: Config, w: World, hs: seq<Happening>): World
    decreases |hs|
  {
    if hs == [] then w else Outcome(c, Happens(c, w, hs[0]), hs[1..])
  }

  predicate Untouched(w: World) {
    w.history == [] && w.cache == None && w.queue == map[] && w.tasks == map[]
  }

  // ---- every Online stamp is that of a real write ----

  ghost predicate WroteOnlineAt(history: seq<Write>, at: int) {
    exists i :: 0 <= i < |history| && history[i] == Write(Online, at)
  }

  ghost predicate GoodEntry(history: seq<Write>, entry: Option<Entry>) {
    var online := entry.Some? && entry.value.state == Online && entry.value.updatedAt.Some?;
    online ==> WroteOnlineAt(history, entry.value.updatedAt.value)
  }

  ghost predicate GoodPlan(history: seq<Write>, plan: Plan) {
    && GoodEntry(history, plan.prev)
    && (plan.state == Online && plan.own.Some? ==> WroteOnlineAt(history, plan.own.value))
  }

  ghost predicate GoodStage(history: seq<Write>, stage: Stage) {
    match stage
    case Deciding(prev, _) => GoodEntry(history, prev)
    case Writing(prev, _) => GoodEntry(history, prev)
    case Clearing(plan) => GoodPlan(history, plan)
    case Sending(plan) => GoodPlan(history, plan)
    case Caching(plan, _) => GoodPlan(history, plan)
    case _ => true
  }

  ghost predicate HistoryInOrder(w: World) {
    && (forall i, j :: 0 <= i < j < |w.history| ==> w.history[i].at <= w.history[j].at)
    && (forall i :: 0 <= i < |w.history| ==> w.history[i].at <= w.now)
  }

  ghost predicate StampsAreReal(w: World) {
    && HistoryInOrder(w)
    && GoodEntry(w.history, w.cache)
    && forall t :: t in w.tasks ==> GoodStage(w.history, w.tasks[t])
  }

  lemma WritesOnlyAdd(history: seq<Write>, more: Write, stage: Stage, entry: Option<Entry>)
    ensures GoodStage(history, stage) ==> GoodStage(history + [more], stage)
    ensures GoodEntry(history, entry) ==> GoodEntry(history + [more], entry)
  {
    forall at | WroteOnlineAt(history, at) ensures WroteOnlineAt(history + [more], at) {
      var i :| 0 <= i < |history| && history[i] == Write(Online, at);
      assert (history + [more])[i] == Write(Online, at);
    }
  }

  lemma ProceedKeepsStampsReal(c: Config, w: World, t: TaskId)
    requires StampsAreReal(w) && t in w.tasks
    ensures StampsAreReal(Proceed(c, w, t, w.tasks[t]))
  {
    var stage, after := w.tasks[t], Proceed(c, w, t, w.tasks[t]);
    assert GoodStage(w.history, stage);
    if stage.Writing? || stage.Received? {
      var more := Write(if stage.Writing? then Online else stage.next, w.now);
      assert after.history == w.history + [more];
      forall u | u in w.tasks ensures GoodStage(after.history, w.tasks[u]) {
        WritesOnlyAdd(w.history, more, w.tasks[u], w.cache);
      }
      WritesOnlyAdd(w.history, more, stage, w.cache);
      assert stage.Writing? ==> after.history[|w.history|] == Write(Online, w.now);
    }
  }

  lemma {:induction false} StampsStayReal(c: Config, w: World, hs: seq<Happening>)
    requires StampsAreReal(w) && Possibly(c, w, hs)
    ensures StampsAreReal(Outcome(c, w, hs))
    decreases |hs|
  {
    if hs != [] {
      if hs[0].Proceeds? {
        ProceedKeepsStampsReal(c, w, hs[0].task);
      }
      StampsStayReal(c, Happens(c, w, hs[0]), hs[1..]);
    }
  }

  /**
    Bounded staleness. With a cache timeout of `n`, a poll that decides more than `n` after some write of the database
    writes Online itself, unless an Online write at most `n` old was made after that one.
   */
  lemma PollSkipsOnlyAfterRecentOnline(c: Config, w: World, hs: seq<Happening>, t: TaskId, i: nat)
    requires Untouched(w) && Possibly(c, w, hs)
    requires var end := Outcome(c, w, hs);
             c.cacheTimeout.Some? && t in end.tasks && end.tasks[t].Deciding? && i < |end.history|
             && end.now > end.history[i].at + c.cacheTimeout.value
    ensures var end := Outcome(c, w, hs);
            || Happens(c, end, Proceeds(t)).tasks[t] == Writing(end.tasks[t].prev, end.tasks[t].delay)
            || exists j :: i < j < |end.history| && end.history[j].state == Online
                           && end.now <= end.history[j].at + c.cacheTimeout.value
  {
    StampsStayReal(c, w, hs);
    var end := Outcome(c, w, hs);
    var prev := end.tasks[t].prev;
    assert GoodStage(end.history, end.tasks[t]);
    if !Writes(c, prev, end.now) {
      var j :| 0 <= j < |end.history| && end.history[j] == Write(Online, prev.value.updatedAt.value);
      assert end.history[j].at > end.history[i].at;
      assert i < j;
    }
  }

  /** So a poll that skips the write leaves a wrong database state only if it was written within the cache timeout. */
  lemma SkippedWriteIsHarmless(c: Config, w: World, hs: seq<Happening>, t: TaskId)
    requires Untouched(w) && Possibly(c, w, hs)
    requires var end := Outcome(c, w, hs);
             c.cacheTimeout.Some? && t in end.tasks && end.tasks[t].Deciding?
             && Happens(c, end, Proceeds(t)).tasks[t].Clearing?
    ensures var end := Outcome(c, w, hs);
            || Database(end) == Online
            || (end.history != [] && end.now <= end.history[|end.history| - 1].at + c.cacheTimeout.value)
  {
    StampsStayReal(c, w, hs);
    var end := Outcome(c, w, hs);
    assert GoodStage(end.history, end.tasks[t]);
    assert !Writes(c, end.tasks[t].prev, end.now);
    var j :| 0 <= j < |end.history| && end.history[j] == Write(Online, end.tasks[t].prev.value.updatedAt.value);
    var last := |end.history| - 1;
    assert j < last ==> end.history[j].at <= end.history[last].at;
  }

  // ---- without a cache timeout the cache can drift from the database for ever ----

  lemma {:induction false} OutcomeConcat(c: Config, w: World, first: seq<Happening>, second: seq<Happening>)
    requires Possibly(c, w, first)
    ensures Possibly(c, w, first + second) <==> Possibly(c, Outcome(c, w, first), second)
    ensures Outcome(c, w, first + second) == Outcome(c, Outcome(c, w, first), second)
    decreases |first|
  {
    if first == [] {
      assert first + second == second;
    } else {
      assert (first + second)[0] == first[0] && (first + second)[1..] == first[1..] + second;
      OutcomeConcat(c, Happens(c, w, first[0]), first[1..], second);
    }
  }

  /** The happenings are possible in turn and end in `next`. */
  predicate Leads(c: Config, w: World, hs: seq<Happening>, next: World) {
    Possibly(c, w, hs) && Outcome(c, w, hs) == next
  }

  lemma LeadsBy(c: Config, w: World, h: Happening, next: World)
    requires Possible(w, h) && Happens(c, w, h) == next
    ensures Leads(c, w, [h], next)
  {
    assert [h][1..] == [];
    assert Possibly(c, next, []) && Outcome(c, next, []) == next;
  }

  lemma LeadsThen(c: Config, w: World, first: seq<Happening>, middle: World, second: seq<Happening>, end: World)
    requires Leads(c, w, first, middle) && Leads(c, middle, second, end)
    ensures Leads(c, w, first + second, end)
  {
    OutcomeConcat(c, w, first, second);
  }

  lemma ProceedsTo(c: Config, w: World, t: TaskId, stage: Stage, next: World)
    requires t in w.tasks && w.tasks[t] == stage && Possible(w, Proceeds(t)) && Proceed(c, w, t, stage) == next
    ensures Leads(c, w, [Proceeds(t)], next)
  {
    LeadsBy(c, w, Proceeds(t), next);
  }

  /** The cache says Online, nothing is under way, and the only message is the one it names. */
  predicate Drifted(w: World) {
    && Database(w) == Offline
    && w.cache.Some? && w.cache.value.state == Online
    && w.queue.Keys == {w.cache.value.id} && w.cache.value.id < w.nextId
    && w.tasks == map[]
  }

  /** A poll that nothing interrupts, as far as its decision. */
  function Approach(t: TaskId, delay: nat): seq<Happening> {
    [Polls(delay)] + [Proceeds(t)] + [Proceeds(t)]
  }

  function Decided(c: Config, w: World, delay: nat): World {
    var stage := if Writes(c, w.cache, w.now) then Writing(w.cache, delay) else Clearing(Plan(w.cache, Online, Timeout, delay, None));
    At(w, w.nextTask, stage).(nextTask := w.nextTask + 1)
  }

  lemma ApproachLeads(c: Config, w: World, delay: nat)
    ensures Leads(c, w, Approach(w.nextTask, delay), Decided(c, w, delay))
  {
    var t := w.nextTask;
    var w1 := At(w, t, Reading(delay)).(nextTask := t + 1);
    var w2 := At(w, t, Deciding(w.cache, delay)).(nextTask := t + 1);
    assert Proceed(c, w1, t, Reading(delay)).tasks == w2.tasks;
    assert Proceed(c, w2, t, Deciding(w.cache, delay)).tasks == Decided(c, w, delay).tasks;
    LeadsBy(c, w, Polls(delay), w1);
    ProceedsTo(c, w1, t, Reading(delay), w2);
    ProceedsTo(c, w2, t, Deciding(w.cache, delay), Decided(c, w, delay));
    LeadsThen(c, w, [Polls(delay)], w1, [Proceeds(t)], w2);
    LeadsThen(c, w, [Polls(delay)] + [Proceeds(t)], w2, [Proceeds(t)], Decided(c, w, delay));
  }

  /** The rescheduling of a task that nothing interrupts. */
  function Finish(t: TaskId): seq<Happening> {
    [Proceeds(t)] + [Proceeds(t)] + [Proceeds(t)]
  }

  function Rescheduled(c: Config, w: World, t: TaskId, plan: Plan): World {
    var rest := if plan.prev.Some? then w.queue - {plan.prev.value.id} else w.queue;
    var entry := Entry(w.nextId, plan.state, Stamp(c, plan.prev, plan.state, plan.own), w.now + plan.delay * SECOND + GRACE);
    w.(cache := Some(entry), queue := rest[w.nextId := Delayed(plan.next, w.now + plan.delay * SECOND)],
       nextId := w.nextId + 1, tasks := w.tasks - {t})
  }

  lemma FinishLeads(c: Config, w: World, t: TaskId, plan: Plan)
    requires t in w.tasks && w.tasks[t] == Clearing(plan)
    ensures Leads(c, w, Finish(t), Rescheduled(c, w, t, plan))
  {
    var w1 := Proceed(c, w, t, Clearing(plan));
    var w2 := Proceed(c, w1, t, Sending(plan));
    var w3 := Rescheduled(c, w, t, plan);
    assert Proceed(c, w2, t, Caching(plan, w.nextId)).tasks == w3.tasks;
    ProceedsTo(c, w, t, Clearing(plan), w1);
    ProceedsTo(c, w1, t, Sending(plan), w2);
    ProceedsTo(c, w2, t, Caching(plan, w.nextId), w3);
    LeadsThen(c, w, [Proceeds(t)], w1, [Proceeds(t)], w2);
    LeadsThen(c, w, [Proceeds(t)] + [Proceeds(t)], w2, [Proceeds(t)], w3);
  }

  /** The cached state spares the database: Online, and written recently enough. */
  predicate SparesDatabase(c: Config, w: World) {
    && w.cache.Some? && w.cache.value.state == Online
    && (c.cacheTimeout.Some? ==>
          w.cache.value.updatedAt.Some? && w.now <= w.cache.value.updatedAt.value + c.cacheTimeout.value)
  }

  /**
    A poll that nothing interrupts writes Online unless the cached state spares the database, and ends with an entry
    whose message is due exactly `timeout` seconds later; other handlers stay where they are.
   */
  lemma UninterruptedPoll(c: Config, w: World, timeout: nat) returns (hs: seq<Happening>, end: World)
    requires forall t :: t in w.tasks ==> t < w.nextTask
    ensures Leads(c, w, hs, end) && end.tasks == w.tasks && end.now == w.now
    ensures end.history == w.history + (if SparesDatabase(c, w) then [] else [Write(Online, w.now)])
    ensures end.cache.Some? && end.cache.value.state == Online && end.cache.value.expires == w.now + (timeout + 5) * 1000
    ensures end.cache.value.id in end.queue && end.queue[end.cache.value.id] == Delayed(Timeout, w.now + timeout * 1000)
  {
    var p := w.nextTask;
    var w1 := Decided(c, w, timeout);
    ApproachLeads(c, w, timeout);
    if SparesDatabase(c, w) {
      end := Rescheduled(c, w1, p, w1.tasks[p].plan);
      FinishLeads(c, w1, p, w1.tasks[p].plan);
      hs := Approach(p, timeout) + Finish(p);
      LeadsThen(c, w, Approach(p, timeout), w1, Finish(p), end);
    } else {
      var plan := Plan(w.cache, Online, Timeout, timeout, if c.cacheTimeout.Some? then Some(w.now) else None);
      var w2 := At(w1.(history := w.history + [Write(Online, w.now)]), p, Clearing(plan));
      ProceedsTo(c, w1, p, Writing(w.cache, timeout), w2);
      end := Rescheduled(c, w2, p, plan);
      FinishLeads(c, w2, p, plan);
      hs := Approach(p, timeout) + [Proceeds(p)] + Finish(p);
      LeadsThen(c, w, Approach(p, timeout), w1, [Proceeds(p)], w2);
      LeadsThen(c, w, Approach(p, timeout) + [Proceeds(p)], w2, Finish(p), end);
    }
  }

  /**
    A poll that cannot read the cache writes Online whatever is cached, and deletes no message: the one of the entry that
    it replaces stays behind.
   */
  lemma MisreadPoll(c: Config, w: World, timeout: nat) returns (hs: seq<Happening>, end: World)
    requires forall t :: t in w.tasks ==> t < w.nextTask
    ensures |hs| > 1 && hs[..2] == [Polls(timeout), ReadFails(w.nextTask)] && Leads(c, w, hs, end) && end.tasks == w.tasks
    ensures end.history == w.history + [Write(Online, w.now)]
    ensures end.queue == w.queue[w.nextId := Delayed(Timeout, w.now + timeout * 1000)]
    ensures end.cache.Some? && end.cache.value.id == w.nextId && end.cache.value.state == Online
  {
    var p := w.nextTask;
    var plan := Plan(None, Online, Timeout, timeout, if c.cacheTimeout.Some? then Some(w.now) else None);
    var written := At(w.(history := w.history + [Write(Online, w.now)], nextTask := p + 1), p, Clearing(plan));
    MisreadWrites(c, w, timeout);
    FinishLeads(c, written, p, plan);
    end := Rescheduled(c, written, p, plan);
    hs := Misreading(p, timeout) + Finish(p);
    LeadsThen(c, w, Misreading(p, timeout), written, Finish(p), end);
  }

  function Misreading(p: TaskId, timeout: nat): seq<Happening> {
    [Polls(timeout)] + [ReadFails(p)] + [Proceeds(p)] + [Proceeds(p)]
  }

  lemma MisreadWrites(c: Config, w: World, timeout: nat)
    ensures var p, own := w.nextTask, if c.cacheTimeout.Some? then Some(w.now) else None;
            var written := w.(history := w.history + [Write(Online, w.now)], nextTask := p + 1);
            Leads(c, w, Misreading(p, timeout), At(written, p, Clearing(Plan(None, Online, Timeout, timeout, own))))
  {
    var p := w.nextTask;
    var w1 := At(w, p, Reading(timeout)).(nextTask := p + 1);
    var w2 := At(w1, p, Deciding(None, timeout));
    var w3 := At(w2, p, Writing(None, timeout));
    var w4 := Proceed(c, w3, p, Writing(None, timeout));
    LeadsBy(c, w, Polls(timeout), w1);
    LeadsBy(c, w1, ReadFails(p), w2);
    ProceedsTo(c, w2, p, Deciding(None, timeout), w3);
    ProceedsTo(c, w3, p, Writing(None, timeout), w4);
    LeadsThen(c, w, [Polls(timeout)], w1, [ReadFails(p)], w2);
    LeadsThen(c, w, [Polls(timeout)] + [ReadFails(p)], w2, [Proceeds(p)], w3);
    LeadsThen(c, w, [Polls(timeout)] + [ReadFails(p)] + [Proceeds(p)], w3, [Proceeds(p)], w4);
    var own := if c.cacheTimeout.Some? then Some(w.now) else None;
    assert w4.tasks == w.tasks[p := Clearing(Plan(None, Online, Timeout, timeout, own))];
  }

  /** A consumer that cannot read the cache queues the Offline message, and leaves that of the entry behind. */
  lemma MisreadTimeout(c: Config, w: World, t: TaskId, id: MessageId) returns (hs: seq<Happening>, end: World)
    requires t in w.tasks && w.tasks[t] == Rereading(id) && forall u :: u in w.tasks ==> u < w.nextTask
    ensures hs != [] && hs[0] == ReadFails(t) && Leads(c, w, hs, end)
    ensures end.tasks == w.tasks[t := Removing(id)] && end.history == w.history
    ensures end.queue == w.queue[w.nextId := Delayed(Offline, w.now + c.offlineDelay * 1000)]
    ensures end.cache.Some? && end.cache.value.id == w.nextId && end.cache.value.state == Timeout
  {
    var p, plan := w.nextTask, Plan(None, Timeout, Offline, c.offlineDelay, None);
    var w1 := Forks(c, w, t, id, None);
    end := Rescheduled(c, w1, p, plan);
    LeadsBy(c, w, ReadFails(t), w1);
    FinishLeads(c, w1, p, plan);
    hs := [ReadFails(t)] + Finish(p);
    LeadsThen(c, w, [ReadFails(t)], w1, Finish(p), end);
  }

  // ---- the race ----

  /** The poll writes Online while the consumer already holds the Offline message. */
  function Overtaken(c: Config, w: World, p: TaskId, m: MessageId, delay: nat): World {
    var own := if c.cacheTimeout.Some? then Some(w.now) else None;
    var tasks := w.tasks[w.nextTask := Received(m, Offline)];
    w.(history := w.history + [Write(Online, w.now)], nextTask := w.nextTask + 1,
       tasks := tasks[p := Clearing(Plan(w.cache, Online, Timeout, delay, own))])
  }

  lemma RaceStarts(c: Config, w: World, p: TaskId, m: MessageId, delay: nat)
    requires p in w.tasks && w.tasks[p] == Writing(w.cache, delay) && p < w.nextTask
    requires m in w.queue && w.queue[m].next == Offline && w.queue[m].due <= w.now
    ensures Leads(c, w, [Receives(m)] + [Proceeds(p)], Overtaken(c, w, p, m, delay))
  {
    var w1 := At(w, w.nextTask, Received(m, Offline)).(nextTask := w.nextTask + 1);
    LeadsBy(c, w, Receives(m), w1);
    ProceedsTo(c, w1, p, Writing(w.cache, delay), Overtaken(c, w, p, m, delay));
    LeadsThen(c, w, [Receives(m)], w1, [Proceeds(p)], Overtaken(c, w, p, m, delay));
  }

  lemma GoesOffline(c: Config, w: World, q: TaskId, m: MessageId)
    requires q in w.tasks && w.tasks[q] == Received(m, Offline)
    ensures Leads(c, w, [Proceeds(q)] + [Proceeds(q)],
                  At(w, q, Removing(m)).(history := w.history + [Write(Offline, w.now)], cache := None))
  {
    var w1 := At(w.(history := w.history + [Write(Offline, w.now)]), q, Uncaching(m));
    var w2 := At(w, q, Removing(m)).(history := w.history + [Write(Offline, w.now)], cache := None);
    assert w1.tasks[q := Removing(m)] == w2.tasks;
    ProceedsTo(c, w, q, Received(m, Offline), w1);
    ProceedsTo(c, w1, q, Uncaching(m), w2);
    LeadsThen(c, w, [Proceeds(q)], w1, [Proceeds(q)], w2);
  }

  /** The poll caches Online, and the consumer removes its message. */
  lemma RaceEnds(c: Config, w: World, p: TaskId, q: TaskId, m: MessageId) returns (end: World)
    requires w.tasks.Keys == {p, q} && p != q && w.tasks[p].Clearing? && w.tasks[q] == Removing(m)
    requires Database(w) == Offline && w.tasks[p].plan.state == Online && w.queue.Keys <= {m} && m < w.nextId
    ensures Leads(c, w, Finish(p) + [Proceeds(q)], end) && Drifted(end)
  {
    var w1 := Rescheduled(c, w, p, w.tasks[p].plan);
    FinishLeads(c, w, p, w.tasks[p].plan);
    end := Ends(w1.(queue := w1.queue - {m}), q);
    ProceedsTo(c, w1, q, Removing(m), end);
    LeadsThen(c, w, Finish(p), w1, [Proceeds(q)], end);
    assert end.queue.Keys == {w.nextId} && end.tasks == map[];
  }

  /** The device has timed out and its Offline message is due. */
  predicate AboutToGoOffline(w: World) {
    && w.tasks == map[] && w.cache.Some? && w.cache.value.state == Timeout && w.cache.value.id < w.nextId
    && w.queue.Keys == {w.cache.value.id}
    && w.queue[w.cache.value.id].next == Offline && w.queue[w.cache.value.id].due <= w.now
  }

  /** The consumer takes the message and finishes its writes while the poll is writing Online. */
  function DriftingRun(w: World, m: MessageId, delay: nat): seq<Happening> {
    var p, q := w.nextTask, w.nextTask + 1;
    Approach(p, delay) + ([Receives(m)] + [Proceeds(p)]) + ([Proceeds(q)] + [Proceeds(q)]) + (Finish(p) + [Proceeds(q)])
  }

  /** A poll that races with the consumer of the Offline message can leave the database Offline and the cache Online. */
  lemma RaceDrifts(c: Config, w: World, delay: nat) returns (end: World)
    requires AboutToGoOffline(w)
    ensures Leads(c, w, DriftingRun(w, w.cache.value.id, delay), end) && Drifted(end)
  {
    var p, q, m := w.nextTask, w.nextTask + 1, w.cache.value.id;
    var w1 := Decided(c, w, delay);
    var w2 := Overtaken(c, w1, p, m, delay);
    var w3 := At(w2, q, Removing(m)).(history := w2.history + [Write(Offline, w2.now)], cache := None);
    var start, race, offline := Approach(p, delay), [Receives(m)] + [Proceeds(p)], [Proceeds(q)] + [Proceeds(q)];
    ApproachLeads(c, w, delay);
    RaceStarts(c, w1, p, m, delay);
    GoesOffline(c, w2, q, m);
    end := RaceEnds(c, w3, p, q, m);
    LeadsThen(c, w, start, w1, race, w2);
    LeadsThen(c, w, start + race, w2, offline, w3);
    LeadsThen(c, w, start + race + offline, w3, Finish(p) + [Proceeds(q)], end);
  }

  // ---- the race can happen ----

  /** After a first poll that nothing interrupted. */
  function PolledOnce(c: Config, w: World, delay: nat): World {
    var due := w.now + delay * SECOND;
    var entry := Entry(w.nextId, Online, if c.cacheTimeout.Some? then Some(w.now) else None, due + GRACE);
    World(w.now, [Write(Online, w.now)], Some(entry), map[w.nextId := Delayed(Timeout, due)], w.nextId + 1, map[], w.nextTask + 1)
  }

  lemma FirstPoll(c: Config, w: World, delay: nat)
    requires Untouched(w)
    ensures Leads(c, w, Approach(w.nextTask, delay) + [Proceeds(w.nextTask)] + Finish(w.nextTask), PolledOnce(c, w, delay))
  {
    var p, w1 := w.nextTask, Decided(c, w, delay);
    var plan := Plan(None, Online, Timeout, delay, if c.cacheTimeout.Some? then Some(w.now) else None);
    var w2 := w1.(history := [Write(Online, w.now)], tasks := map[p := Clearing(plan)]);
    assert w1.history + [Write(Online, w.now)] == [Write(Online, w.now)];
    ApproachLeads(c, w, delay);
    ProceedsTo(c, w1, p, Writing(None, delay), w2);
    FinishLeads(c, w2, p, plan);
    assert w2.tasks - {p} == map[];
    LeadsThen(c, w, Approach(p, delay), w1, [Proceeds(p)], w2);
    LeadsThen(c, w, Approach(p, delay) + [Proceeds(p)], w2, Finish(p), PolledOnce(c, w, delay));
  }

  /** The consumer of the only message, a Timeout, as far as its own part; its rescheduling has not started. */
  function TakenDown(c: Config, w: World): World {
    var plan := Plan(w.cache, Timeout, Offline, c.offlineDelay, None);
    World(w.now, w.history + [Write(Timeout, w.now)], w.cache, map[], w.nextId, map[w.nextTask + 1 := Clearing(plan)], w.nextTask + 2)
  }

  function TakeDown(q: TaskId, m: MessageId): seq<Happening> {
    [Receives(m)] + [Proceeds(q)] + ([Proceeds(q)] + [Proceeds(q)])
  }

  lemma TimeoutIsWritten(c: Config, w: World, m: MessageId)
    requires w.tasks == map[] && m in w.queue && w.queue[m].next == Timeout && w.queue[m].due <= w.now
    ensures Leads(c, w, [Receives(m)] + [Proceeds(w.nextTask)],
                  w.(tasks := map[w.nextTask := Rereading(m)], nextTask := w.nextTask + 1,
                     history := w.history + [Write(Timeout, w.now)]))
  {
    var q := w.nextTask;
    var w1 := w.(tasks := map[q := Received(m, Timeout)], nextTask := q + 1);
    var w2 := w1.(tasks := map[q := Rereading(m)], history := w.history + [Write(Timeout, w.now)]);
    LeadsBy(c, w, Receives(m), w1);
    ProceedsTo(c, w1, q, Received(m, Timeout), w2);
    LeadsThen(c, w, [Receives(m)], w1, [Proceeds(q)], w2);
  }

  lemma TimeoutIsRemoved(c: Config, w: World, q: TaskId, m: MessageId)
    requires w.tasks == map[q := Rereading(m)] && w.nextTask == q + 1 && w.queue.Keys == {m}
    ensures Leads(c, w, [Proceeds(q)] + [Proceeds(q)],
                  w.(tasks := map[q + 1 := Clearing(Plan(w.cache, Timeout, Offline, c.offlineDelay, None))],
                     nextTask := q + 2, queue := map[]))
  {
    var stage := Clearing(Plan(w.cache, Timeout, Offline, c.offlineDelay, None));
    var w1 := w.(tasks := map[q := Removing(m), q + 1 := stage], nextTask := q + 2);
    var w2 := w1.(tasks := map[q + 1 := stage], queue := map[]);
    ProceedsTo(c, w, q, Rereading(m), w1);
    assert w1.queue - {m} == map[] && w1.tasks - {q} == w2.tasks;
    ProceedsTo(c, w1, q, Removing(m), w2);
    LeadsThen(c, w, [Proceeds(q)], w1, [Proceeds(q)], w2);
  }

  lemma ConsumesTimeout(c: Config, w: World, m: MessageId)
    requires w.tasks == map[] && w.queue.Keys == {m} && w.queue[m].next == Timeout && w.queue[m].due <= w.now
    ensures Leads(c, w, TakeDown(w.nextTask, m), TakenDown(c, w))
  {
    var q := w.nextTask;
    var w1 := w.(tasks := map[q := Rereading(m)], nextTask := q + 1, history := w.history + [Write(Timeout, w.now)]);
    TimeoutIsWritten(c, w, m);
    TimeoutIsRemoved(c, w1, q, m);
    LeadsThen(c, w, [Receives(m)] + [Proceeds(q)], w1, [Proceeds(q)] + [Proceeds(q)], TakenDown(c, w));
  }

  /** The rescheduling after a Timeout, and the wait until the Offline message is due. */
  lemma Reschedules(c: Config, w: World, q: TaskId, later: int) returns (end: World)
    requires w.tasks.Keys == {q} && w.tasks[q].Clearing? && w.queue == map[]
    requires var plan := w.tasks[q].plan;
             plan.state == Timeout && plan.next == Offline && later == w.now + plan.delay * SECOND
    ensures Leads(c, w, Finish(q) + [Passes(later)], end) && AboutToGoOffline(end)
  {
    var w1 := Rescheduled(c, w, q, w.tasks[q].plan);
    FinishLeads(c, w, q, w.tasks[q].plan);
    end := w1.(now := later);
    LeadsBy(c, w1, Passes(later), end);
    LeadsThen(c, w, Finish(q), w1, [Passes(later)], end);
    assert end.tasks == map[] && end.queue.Keys == {w.nextId};
  }

  /** From the start a device can come to have its Offline message due. */
  lemma TimesOut(c: Config, w: World) returns (hs: seq<Happening>, end: World)
    requires Untouched(w)
    ensures Leads(c, w, hs, end) && AboutToGoOffline(end)
  {
    var p, m, due := w.nextTask, w.nextId, w.now + SECOND;
    var poll := Approach(p, 1) + [Proceeds(p)] + Finish(p);
    var w1 := PolledOnce(c, w, 1);
    var w2 := w1.(now := due);
    var w3 := TakenDown(c, w2);
    var later := due + c.offlineDelay * SECOND;
    FirstPoll(c, w, 1);
    LeadsBy(c, w1, Passes(due), w2);
    ConsumesTimeout(c, w2, m);
    end := Reschedules(c, w3, p + 2, later);
    LeadsThen(c, w, poll, w1, [Passes(due)], w2);
    LeadsThen(c, w, poll + [Passes(due)], w2, TakeDown(p + 1, m), w3);
    LeadsThen(c, w, poll + [Passes(due)] + TakeDown(p + 1, m), w3, Finish(p + 2) + [Passes(later)], end);
    hs := poll + [Passes(due)] + TakeDown(p + 1, m) + (Finish(p + 2) + [Passes(later)]);
  }

  /** From the start, and under every configuration, some run ends with the database Offline and the cache Online. */
  lemma DriftIsReachable(c: Config, w: World)
    requires Untouched(w)
    ensures exists hs :: Possibly(c, w, hs) && Drifted(Outcome(c, w, hs))
  {
    var first, middle := TimesOut(c, w);
    var end := RaceDrifts(c, middle, 1);
    LeadsThen(c, w, first, middle, DriftingRun(middle, middle.cache.value.id, 1), end);
  }

  // ---- the drift lasts ----

  /** Polls that nothing interrupts, each after a pause. */
  function SilentPolls(t: TaskId, now: int, polls: seq<(nat, nat)>): seq<Happening>
    decreases |polls|
  {
    if polls == [] then []
    else
      var (pause, delay) := polls[0];
      [Passes(now + pause)] + (Approach(t, delay) + Finish(t)) + SilentPolls(t + 1, now + pause, polls[1..])
  }

  lemma SilentPollKeepsDrift(c: Config, w: World, delay: nat) returns (end: World)
    requires Drifted(w) && c.cacheTimeout.None?
    ensures Leads(c, w, Approach(w.nextTask, delay) + Finish(w.nextTask), end)
    ensures Drifted(end) && end.now == w.now && end.nextTask == w.nextTask + 1
  {
    var t, w1, plan := w.nextTask, Decided(c, w, delay), Plan(w.cache, Online, Timeout, delay, None);
    ApproachLeads(c, w, delay);
    FinishLeads(c, w1, t, plan);
    end := Rescheduled(c, w1, t, plan);
    LeadsThen(c, w, Approach(t, delay), w1, Finish(t), end);
    assert end.tasks == map[];
  }

  /** With no cache timeout no number of polls ever corrects the database. */
  lemma {:induction false} DriftLasts(c: Config, w: World, polls: seq<(nat, nat)>)
    requires Drifted(w) && c.cacheTimeout.None?
    ensures Possibly(c, w, SilentPolls(w.nextTask, w.now, polls))
    ensures Drifted(Outcome(c, w, SilentPolls(w.nextTask, w.now, polls)))
    decreases |polls|
  {
    if polls != [] {
      var t, pause, delay := w.nextTask, polls[0].0, polls[0].1;
      var w1 := w.(now := w.now + pause);
      LeadsBy(c, w, Passes(w1.now), w1);
      var w2 := SilentPollKeepsDrift(c, w1, delay);
      LeadsThen(c, w, [Passes(w1.now)], w1, Approach(t, delay) + Finish(t), w2);
      var rest := SilentPolls(t + 1, w1.now, polls[1..]);
      DriftLasts(c, w2, polls[1..]);
      OutcomeConcat(c, w, [Passes(w1.now)] + (Approach(t, delay) + Finish(t)), rest);
    }
  }
}
