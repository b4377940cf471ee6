/**
  `device-logs/lib/store.ts`, `handleStreamingWrite`: log lines are buffered and handed to the backend in batches, one
  batch at a time, under back-pressure.
 */
module LogWriter {
  import opened Basics
  import opened DeviceLogs
  import opened SemverText

  /** `taken` holds the lines that each flush took from the buffer, the suppressed ones included. */
  datatype State = State(
    buffer: seq<InternalLog>,
    paused: bool,
    scheduled: bool,
    timers: nat,
    inFlight: nat,
    taken: seq<seq<InternalLog>>)

  /** What can happen to a stream; `available` is what the backend reports at that moment. */
  datatype Event =
    | Data(log: InternalLog, available: bool)
    | TimerFires(available: bool)
    | PublishSettles(ok: bool)

  function SuppressionWarning(count: nat, first: InternalLog): InternalLog {
    var message := "Warning: Suppressed " + ToDecimal(count) + " message(s) due to rate limiting";
    InternalLog(first.nanoTimestamp, Line(first.line.timestamp, true, true, None, message))
  }

  /** The batch that is handed over for the lines of a flush: the oldest beyond the limit become one warning. */
  function Shown(limit: nat, lines: seq<InternalLog>): seq<InternalLog> {
    if |lines| <= limit then lines
    else [SuppressionWarning(|lines| - limit, lines[0])] + lines[|lines| - limit..]
  }

  function ShownAll(limit: nat, taken: seq<seq<InternalLog>>): (handed: seq<seq<InternalLog>>)
    ensures |handed| == |taken| && forall n :: 0 <= n < |taken| ==> handed[n] == Shown(limit, taken[n])
  {
    seq(|taken|, n requires 0 <= n < |taken| => Shown(limit, taken[n]))
  }

  lemma ShownOneMore(limit: nat, taken: seq<seq<InternalLog>>, lines: seq<InternalLog>)
    ensures ShownAll(limit, taken + [lines]) == ShownAll(limit, taken) + [Shown(limit, lines)]
  {
  }

  // ---- the handlers ----

  function Schedule(s: State): State {
    if s.scheduled then s else s.(timers := s.timers + 1, scheduled := true)
  }

  function Accept(limit: nat, s: State, log: InternalLog, available: bool): State {
    var s1 := if s.buffer == [] then Schedule(s) else s;
    var s2 := s1.(buffer := s1.buffer + [log]);
    if |s2.buffer| >= limit || !available then s2.(paused := true) else s2
  }

  /** The end of `tryPublish`, which a failed publish never reaches. */
  function Finish(s: State): State {
    var s1 := s.(scheduled := false);
    if s1.buffer != [] then Schedule(s1) else s1
  }

  function TryPublish(s: State, available: bool): State {
    if s.buffer != [] && available
    then s.(taken := s.taken + [s.buffer], buffer := [], paused := false, inFlight := s.inFlight + 1)
    else Finish(s)
  }

  predicate Enabled(s: State, e: Event) {
    match e
    case Data(_, _) => true
    case TimerFires(_) => s.timers > 0
    case PublishSettles(_) => s.inFlight > 0
  }

  function Step(limit: nat, s: State, e: Event): State {
    match e
    case Data(log, available) => Accept(limit, s, log, available)
    case TimerFires(available) => if s.timers == 0 then s else TryPublish(s.(timers := s.timers - 1), available)
    case PublishSettles(ok) =>
      if s.inFlight == 0 then s
      else if ok then Finish(s.(inFlight := s.inFlight - 1))
      else s.(inFlight := s.inFlight - 1)
  }

  predicate Legal(limit: nat, s: State, es: seq<Event>)
    decreases |es|
  {
    es == [] || (Enabled(s, es[0]) && Legal(limit, Step(limit, s, es[0]), es[1..]))
  }

  function Run(limit: nat, s: State, es: seq<Event>): State
    decreases |es|
  {
    if es == [] then s else Run(limit, Step(limit, s, es[0]), es[1..])
  }

  const START := State([], false, false, 0, 0, [])

  // ---- the stream as the code runs it ----

  /** The array that the stream fills and empties in place, and that `publish` is given. */
  class LogBuffer {
    var logs: seq<InternalLog>

    constructor ()
      ensures logs == []
    {
      logs := [];
    }

    method Push(log: InternalLog)
      modifies this
      ensures logs == old(logs) + [log]
    {
      logs := logs + [log];
    }

    /** `splice(0, count, replacement)`. */
    method ReplaceOldest(count: nat, replacement: InternalLog)
      requires count <= |logs|
      modifies this
      ensures logs == [replacement] + old(logs)[count..]
    {
      logs := [replacement] + logs[count..];
    }

    method Clear()
      modifies this
      ensures logs == []
    {
      logs := [];
    }
  }

  /** A backend; it must read the buffer within the call, because its caller empties it right afterwards. */
  class Backend {
    var available: bool
    var received: seq<seq<InternalLog>>

    constructor ()
      ensures available && received == []
    {
      available, received := true, [];
    }

    method Publish(buffer: LogBuffer)
      modifies this`received
      ensures received == old(received) + [buffer.logs]
    {
      received := received + [buffer.logs];
    }
  }

  class StreamingWriter {
    const bufferLimit: nat
    const buffer: LogBuffer
    const primary: Backend
    const secondary: Backend?
    var paused: bool
    var publishScheduled: bool
    var timers: nat
    var inFlight: nat
    ghost var taken: seq<seq<InternalLog>>

    constructor (writeLimit: nat, retentionLimit: nat, primary: Backend, secondary: Backend?)
      requires primary.received == [] && secondary != primary
      ensures bufferLimit == (if writeLimit < retentionLimit then writeLimit else retentionLimit)
      ensures this.primary == primary && this.secondary == secondary && fresh(buffer)
      ensures Valid() && Value() == START
    {
      bufferLimit := if writeLimit < retentionLimit then writeLimit else retentionLimit;
      buffer := new LogBuffer();
      this.primary, this.secondary := primary, secondary;
      paused, publishScheduled, timers, inFlight, taken := false, false, 0, 0, [];
    }

    ghost function Value(): State
      reads this, buffer
    {
      State(buffer.logs, paused, publishScheduled, timers, inFlight, taken)
    }

    /** What the primary backend was handed is what the flushes took, with the suppressed lines replaced. */
    ghost predicate Valid()
      reads this, primary
    {
      primary != secondary && primary.received == ShownAll(bufferLimit, taken)
    }

    method ScheduleFlush()
      requires Valid()
      modifies this`timers, this`publishScheduled
      ensures Valid() && Value() == Schedule(old(Value()))
    {
      if publishScheduled {
        return;
      }
      timers := timers + 1;
      publishScheduled := true;
    }

    method OnData(log: InternalLog)
      requires Valid()
      modifies this, buffer
      ensures Valid() && Value() == Step(bufferLimit, old(Value()), Data(log, primary.available))
    {
      if |buffer.logs| == 0 {
        ScheduleFlush();
      }
      buffer.Push(log);
      if |buffer.logs| >= bufferLimit || !primary.available {
        paused := true;
      }
    }

    method PublishBackend(toSecondary: bool)
      requires primary != secondary
      modifies primary`received, if toSecondary && secondary != null then {secondary} else {}
      ensures primary.received == old(primary.received) + [buffer.logs]
      ensures toSecondary && secondary != null ==> secondary.received == old(secondary.received) + [buffer.logs]
    {
      primary.Publish(buffer);
      if toSecondary && secondary != null {
        secondary.Publish(buffer);
      }
    }

    /** A timer fires: the part of `tryPublish` up to its await, or all of it. */
    method OnTimer(toSecondary: bool)
      requires Valid() && timers > 0
      modifies this, buffer, primary`received, if toSecondary && secondary != null then {secondary} else {}
      ensures Valid() && Value() == Step(bufferLimit, old(Value()), TimerFires(old(primary.available)))
    {
      timers := timers - 1;
      if |buffer.logs| != 0 && primary.available {
        taken := taken + [buffer.logs];
        if |buffer.logs| > bufferLimit {
          var deleteCount := |buffer.logs| - bufferLimit;
          buffer.ReplaceOldest(deleteCount, SuppressionWarning(deleteCount, buffer.logs[0]));
        }
        PublishBackend(toSecondary);
        ShownOneMore(bufferLimit, old(taken), old(buffer.logs));
        buffer.Clear();
        if paused {
          paused := false;
        }
        inFlight := inFlight + 1;
      } else {
        EndFlush();
      }
    }

    /** The publish promise settles: `tryPublish` goes on after its await, or ends in its catch. */
    method OnSettled(ok: bool)
      requires Valid() && inFlight > 0
      modifies this
      ensures Valid() && Value() == Step(bufferLimit, old(Value()), PublishSettles(ok))
    {
      inFlight := inFlight - 1;
      if ok {
        EndFlush();
      }
    }

    method EndFlush()
      requires Valid()
      modifies this`timers, this`publishScheduled
      ensures Valid() && Value() == Finish(old(Value()))
    {
      publishScheduled := false;
      if |buffer.logs| > 0 {
        ScheduleFlush();
      }
    }
  }

  // ---- nothing is lost, reordered or handed over twice ----

  function Accepted(es: seq<Event>): seq<InternalLog> {
    if es == [] then [] else (if es[0].Data? then [es[0].log] else []) + Accepted(es[1..])
  }

  lemma StepConserves(limit: nat, s: State, e: Event)
    ensures Flatten(Step(limit, s, e).taken) + Step(limit, s, e).buffer
         == Flatten(s.taken) + s.buffer + (if e.Data? then [e.log] else [])
  {
    if e.TimerFires? && s.timers > 0 && s.buffer != [] && e.available {
      FlattenConcat(s.taken, [s.buffer]);
      assert Flatten([s.buffer]) == s.buffer;
    }
  }

  /** The accepted lines are, in order, those of the flushes followed by those still buffered. */
  lemma {:induction false} RunConserves(limit: nat, s: State, es: seq<Event>)
    ensures Flatten(Run(limit, s, es).taken) + Run(limit, s, es).buffer == Flatten(s.taken) + s.buffer + Accepted(es)
    decreases |es|
  {
    if es != [] {
      StepConserves(limit, s, es[0]);
      RunConserves(limit, Step(limit, s, es[0]), es[1..]);
    }
  }

  /** A batch: the newest lines, as many as fit, after one warning that counts all the others. */
  lemma ShownAccountsForAll(limit: nat, lines: seq<InternalLog>)
    requires lines != []
    ensures var dropped := if |lines| > limit then |lines| - limit else 0;
            var kept := lines[dropped..];
            && |kept| <= limit && |Shown(limit, lines)| <= limit + 1
            && Shown(limit, lines) == (if dropped > 0 then [SuppressionWarning(dropped, lines[0])] else []) + kept
            && dropped + |kept| == |lines|
  {
  }

  function SuppressedIn(limit: nat, taken: seq<seq<InternalLog>>): nat {
    if taken == [] then 0
    else (if |taken[0]| > limit then |taken[0]| - limit else 0) + SuppressedIn(limit, taken[1..])
  }

  function KeptIn(limit: nat, taken: seq<seq<InternalLog>>): nat {
    if taken == [] then 0
    else (if |taken[0]| > limit then limit else |taken[0]|) + KeptIn(limit, taken[1..])
  }

  lemma {:induction false} FlattenedLength(limit: nat, taken: seq<seq<InternalLog>>)
    ensures |Flatten(taken)| == SuppressedIn(limit, taken) + KeptIn(limit, taken)
  {
    if taken != [] {
      FlattenedLength(limit, taken[1..]);
    }
  }

  /** Every accepted line was handed over, or is counted by exactly one warning, or is still buffered. */
  lemma AcceptedAreCounted(limit: nat, es: seq<Event>)
    ensures var end := Run(limit, START, es);
            |Accepted(es)| == KeptIn(limit, end.taken) + SuppressedIn(limit, end.taken) + |end.buffer|
  {
    RunConserves(limit, START, es);
    FlattenedLength(limit, Run(limit, START, es).taken);
    assert Flatten(START.taken) + START.buffer + Accepted(es) == Accepted(es);
  }

  // ---- flushes ----

  predicate Failed(es: seq<Event>) {
    exists n :: 0 <= n < |es| && es[n] == PublishSettles(false)
  }

  /** Nothing is scheduled or running, and nothing will be. */
  predicate Wedged(s: State) {
    s.scheduled && s.timers == 0 && s.inFlight == 0
  }

  /** One flush at a time, and as long as there is something to flush. */
  predicate Flushing(s: State) {
    && s.timers + s.inFlight == (if s.scheduled then 1 else 0)
    && (s.buffer != [] ==> s.scheduled)
    && (s.paused ==> s.buffer != [])
  }

  predicate Sound(limit: nat, s: State) {
    (Flushing(s) || Wedged(s)) && forall n :: 0 <= n < |s.taken| ==> s.taken[n] != []
  }

  lemma StepKeepsFlushing(limit: nat, s: State, e: Event)
    requires Sound(limit, s) && Enabled(s, e)
    ensures Sound(limit, Step(limit, s, e))
    ensures Wedged(Step(limit, s, e)) <==> Wedged(s) || e == PublishSettles(false)
  {
  }

  /**
    Publishes never overlap. Until one fails, a paused stream has something buffered, and a stream with something
    buffered has exactly one flush scheduled or running. The stream is stuck exactly when some publish failed.
   */
  lemma {:induction false} FlushesNeverOverlap(limit: nat, s: State, es: seq<Event>)
    requires Sound(limit, s) && Legal(limit, s, es)
    ensures var end := Run(limit, s, es);
            && Sound(limit, end) && end.inFlight <= 1
            && (Wedged(end) <==> Wedged(s) || Failed(es))
            && (!Wedged(end) ==> Flushing(end))
    decreases |es|
  {
    if es != [] {
      StepKeepsFlushing(limit, s, es[0]);
      FlushesNeverOverlap(limit, Step(limit, s, es[0]), es[1..]);
      assert Failed(es) <==> es[0] == PublishSettles(false) || Failed(es[1..]) by {
        if Failed(es[1..]) {
          var n :| 0 <= n < |es[1..]| && es[1..][n] == PublishSettles(false);
          assert es[n + 1] == PublishSettles(false);
        }
        if Failed(es) {
          var n :| 0 <= n < |es| && es[n] == PublishSettles(false);
          assert n > 0 ==> es[1..][n - 1] == PublishSettles(false);
        }
      }
    }
  }

  /** Once a publish has failed nothing is handed over any more: lines that still arrive stay in the buffer. */
  lemma {:induction false} WedgedForEver(limit: nat, s: State, es: seq<Event>)
    requires Wedged(s) && Legal(limit, s, es)
    ensures Run(limit, s, es).taken == s.taken && Run(limit, s, es).buffer == s.buffer + Accepted(es)
    decreases |es|
  {
    if es != [] {
      WedgedForEver(limit, Step(limit, s, es[0]), es[1..]);
    }
  }

  /** While the backend is available the next timer hands over everything that is buffered and lifts the pause. */
  lemma TimerFlushesAll(limit: nat, s: State)
    requires Flushing(s) && s.buffer != []
    ensures s.inFlight == 0 ==> Enabled(s, TimerFires(true)) && Step(limit, s, TimerFires(true)).taken == s.taken + [s.buffer]
                                && !Step(limit, s, TimerFires(true)).paused
    ensures s.inFlight > 0 ==> Enabled(Step(limit, s, PublishSettles(true)), TimerFires(true))
  {
  }

  // ---- back-pressure ----

  /** Lines alone pause a stream exactly when one of them came while the backend was unavailable, or filled the buffer. */
  lemma {:induction false} LinesPauseIff(limit: nat, s: State, es: seq<Event>)
    requires !s.paused && es != [] && forall n :: 0 <= n < |es| ==> es[n].Data?
    ensures var end := Run(limit, s, es);
            && |end.buffer| == |s.buffer| + |es|
            && (end.paused <==> |s.buffer| + |es| >= limit || exists n :: 0 <= n < |es| && !es[n].available)
    decreases |es|
  {
    var next := Step(limit, s, es[0]);
    if next.paused {
      StaysPaused(limit, next, es[1..]);
      assert |next.buffer| >= limit || !es[0].available;
    } else if |es| > 1 {
      LinesPauseIff(limit, next, es[1..]);
      assert forall n :: 0 <= n < |es| - 1 ==> es[1..][n] == es[n + 1];
      if n :| 0 <= n < |es| && !es[n].available {
        assert n > 0 && !es[1..][n - 1].available;
      }
    } else {
      assert Run(limit, next, es[1..]) == next;
    }
  }

  lemma {:induction false} StaysPaused(limit: nat, s: State, es: seq<Event>)
    requires s.paused && forall n :: 0 <= n < |es| ==> es[n].Data?
    ensures Run(limit, s, es).paused && |Run(limit, s, es).buffer| == |s.buffer| + |es|
    decreases |es|
  {
    if es != [] {
      StaysPaused(limit, Step(limit, s, es[0]), es[1..]);
    }
  }

  /** Only a flush lifts the pause, and nothing but a line sets it. */
  lemma PauseIsLiftedByFlush(limit: nat, s: State, e: Event)
    requires !e.Data? && Enabled(s, e)
    ensures var next := Step(limit, s, e);
            var flushes := e == TimerFires(true) && s.buffer != [];
            && (next.paused <==> s.paused && !flushes)
            && next.taken == s.taken + (if flushes then [s.buffer] else [])
            && next.buffer == (if flushes then [] else s.buffer)
  {
    assert s.taken + [] == s.taken;
  }

  /** Over any run, a stream that is not paused has room in its buffer. */
  lemma {:induction false} UnpausedHasRoom(limit: nat, s: State, es: seq<Event>)
    requires !s.paused ==> s.buffer == [] || |s.buffer| < limit
    ensures var end := Run(limit, s, es); !end.paused ==> end.buffer == [] || |end.buffer| < limit
    decreases |es|
  {
    if es != [] {
      UnpausedHasRoom(limit, Step(limit, s, es[0]), es[1..]);
    }
  }

  /** The warning tells how many lines were suppressed, as a system line with the time of the oldest of them. */
  lemma WarningTellsCount(m: nat, n: nat, first: InternalLog)
    ensures SuppressionWarning(m, first) == SuppressionWarning(n, first) ==> m == n
    ensures var warning := SuppressionWarning(n, first);
            && warning.nanoTimestamp == first.nanoTimestamp && warning.line.timestamp == first.line.timestamp
            && warning.line.isSystem && warning.line.isStdErr && warning.line.serviceId == None
  {
    var before, after := "Warning: Suppressed ", " message(s) due to rate limiting";
    if SuppressionWarning(m, first) == SuppressionWarning(n, first) {
      assert before + ToDecimal(m) + after == before + ToDecimal(n) + after;
      SameMiddle(before, ToDecimal(m), ToDecimal(n), after);
      ToDecimalInjective(m, n);
    }
  }
}
