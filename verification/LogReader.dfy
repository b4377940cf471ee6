/**
  `device-logs/lib/read.ts`, `handleStreamingRead`: a burst that merges the history with what was published meanwhile,
  then live lines, of which a slow reader misses some and is told how many.
 */
module LogReader {
  import opened Basics
  import opened DeviceLogs
  import opened SemverText

  // ---- the burst ----

  /** `findIndex(log => log.createdAt > afterDate)`, or the length if there is none. */
  function FirstAfter(logs: seq<OutputLog>, afterDate: int): nat {
    if logs == [] then 0
    else if logs[0].createdAt > afterDate then 0
    else 1 + FirstAfter(logs[1..], afterDate)
  }

  lemma {:induction false} FirstAfterIsFirst(logs: seq<OutputLog>, afterDate: int, n: nat)
    requires n <= |logs| && forall k :: 0 <= k < n ==> logs[k].createdAt <= afterDate
    requires n < |logs| ==> logs[n].createdAt > afterDate
    ensures FirstAfter(logs, afterDate) == n
  {
    if n > 0 {
      FirstAfterIsFirst(logs[1..], afterDate, n - 1);
    }
  }

  lemma {:induction false} FirstAfterSplits(logs: seq<OutputLog>, afterDate: int)
    ensures FirstAfter(logs, afterDate) <= |logs|
    ensures forall k :: 0 <= k < FirstAfter(logs, afterDate) ==> logs[k].createdAt <= afterDate
    ensures FirstAfter(logs, afterDate) < |logs| ==> logs[FirstAfter(logs, afterDate)].createdAt > afterDate
  {
    if logs != [] {
      FirstAfterSplits(logs[1..], afterDate);
    }
  }

  function AfterDate(history: seq<OutputLog>): int {
    if history == [] then 0 else history[|history| - 1].createdAt
  }

  /** A limit of 0 is no limit. */
  function Newest(logs: seq<OutputLog>, limit: nat): seq<OutputLog> {
    if limit != 0 && |logs| > limit then logs[|logs| - limit..] else logs
  }

  function Burst(history: seq<OutputLog>, buffer: seq<OutputLog>, limit: nat): seq<OutputLog> {
    var n := FirstAfter(buffer, AfterDate(history));
    Newest(history + (if n <= |buffer| then buffer[n..] else []), limit)
  }

  // ---- the stream ----

  datatype Mode = Buffering | Flushing | Writable | Saturated | Closed

  /** What the response was given: a line, the warning that stands for dropped lines, or a heartbeat. */
  datatype Segment = Sent(log: OutputLog) | Lost(logs: seq<OutputLog>, now: int) | Beat

  datatype Written = Printed(log: OutputLog) | Newline

  datatype State = State(
    mode: Mode,
    buffer: seq<OutputLog>,
    segments: seq<Segment>,
    pending: seq<OutputLog>,
    beating: bool,
    unsubscribes: nat)

  /** `accepted` is what `res.write` returns if the event writes. */
  datatype Event =
    | Arrives(log: OutputLog, accepted: bool)
    | Drains(now: int, accepted: bool)
    | BeatDue
    | HistoryIsRead(history: seq<OutputLog>)
    | Finishes

  const START := State(Buffering, [], [], [], true, 0)

  function SlowWarning(count: nat, now: int): OutputLog {
    var message := "Warning: Suppressed " + ToDecimal(count) + " message(s) due to slow reading";
    OutputLog(now, Line(now, true, true, None, message))
  }

  function Render(segment: Segment): Written {
    match segment
    case Sent(log) => Printed(log)
    case Lost(logs, now) => Printed(SlowWarning(|logs|, now))
    case Beat => Newline
  }

  function RenderAll(segments: seq<Segment>): (written: seq<Written>)
    ensures |written| == |segments| && forall n :: 0 <= n < |segments| ==> written[n] == Render(segments[n])
  {
    seq(|segments|, n requires 0 <= n < |segments| => Render(segments[n]))
  }

  /** `onLog` where it writes: `segment` goes out, and a reader that is full saturates a writable stream. */
  function Emit(s: State, segment: Segment, accepted: bool): State {
    s.(segments := s.segments + [segment], mode := if !accepted && s.mode == Writable then Saturated else s.mode)
  }

  function OnLog(s: State, log: OutputLog, accepted: bool): State {
    match s.mode
    case Buffering => s.(buffer := s.buffer + [log])
    case Saturated => s.(pending := s.pending + [log])
    case Closed => s
    case _ => Emit(s, Sent(log), accepted)
  }

  function OnDrain(s: State, now: int, accepted: bool): State {
    if s.mode == Closed then s
    else
      var s1 := if s.mode == Saturated then s.(mode := Writable) else s;
      if s1.pending == [] then s1 else Emit(s1.(pending := []), Lost(s1.pending, now), accepted)
  }

  function Close(s: State): State {
    var s1 := if s.mode != Closed then s.(mode := Closed, unsubscribes := s.unsubscribes + 1) else s;
    s1.(beating := false)
  }

  function SentAll(logs: seq<OutputLog>): (segments: seq<Segment>)
    ensures |segments| == |logs| && forall n :: 0 <= n < |logs| ==> segments[n] == Sent(logs[n])
  {
    seq(|logs|, n requires 0 <= n < |logs| => Sent(logs[n]))
  }

  function OnHistory(limit: nat, s: State, history: seq<OutputLog>): State {
    if s.mode == Closed then s
    else s.(mode := Writable, buffer := [], segments := s.segments + SentAll(Burst(history, s.buffer, limit)))
  }

  predicate Enabled(s: State, e: Event) {
    match e
    case BeatDue => s.beating
    case HistoryIsRead(_) => s.mode in {Buffering, Closed}
    case _ => true
  }

  function Step(limit: nat, s: State, e: Event): State {
    match e
    case Arrives(log, accepted) => OnLog(s, log, accepted)
    case Drains(now, accepted) => OnDrain(s, now, accepted)
    case BeatDue => if s.mode == Closed then Close(s) else s.(segments := s.segments + [Beat])
    case HistoryIsRead(history) => OnHistory(limit, s, history)
    case Finishes => Close(s)
  }

  predicate Legal(limit: nat, s: State, es: seq<Event>)
    decreases |es|
  {
    es == [] || (Enabled(s, es[0]) && Legal(limit, Step(limit, s, es[0]), es[1..]))
  }

  function Run(limit: nat, s: State, es: seq<Event>): State
    decreases |es|
  {
    if es == [] then s else Run(limit, Step(limit, s, es[0]), es[1..])
  }

  // ---- the stream as the code runs it ----

  class StreamingReader {
    const retentionLimit: nat
    var mode: Mode
    var dropped: nat
    var buffer: seq<OutputLog>
    var output: seq<Written>
    var beating: bool
    var unsubscribes: nat
    ghost var segments: seq<Segment>
    ghost var pending: seq<OutputLog>

    constructor (retentionLimit: nat)
      ensures this.retentionLimit == retentionLimit && Valid() && Value() == START && output == []
    {
      this.retentionLimit := retentionLimit;
      mode, dropped, buffer, output, beating, unsubscribes := Buffering, 0, [], [], true, 0;
      segments, pending := [], [];
    }

    ghost function Value(): State
      reads this
    {
      State(mode, buffer, segments, pending, beating, unsubscribes)
    }

    /** `dropped` counts the pending lines, and the response was given what the segments say. */
    ghost predicate Valid()
      reads this
    {
      dropped == |pending| && output == RenderAll(segments) && (dropped > 0 ==> mode in {Saturated, Closed})
    }

    method Write(ghost segment: Segment, data: Written)
      requires output == RenderAll(segments) && data == Render(segment)
      modifies this`output, this`segments
      ensures output == RenderAll(segments) && segments == old(segments) + [segment]
    {
      output := output + [data];
      segments := segments + [segment];
    }

    method OnLine(log: OutputLog, accepted: bool)
      requires Valid()
      modifies this
      ensures Valid() && Value() == OnLog(old(Value()), log, accepted)
    {
      if mode == Buffering {
        buffer := buffer + [log];
      } else if mode == Saturated {
        dropped := dropped + 1;
        pending := pending + [log];
      } else if mode != Closed {
        Write(Sent(log), Printed(log));
        if !accepted && mode == Writable {
          mode := Saturated;
        }
      }
    }

    method OnDrainEvent(now: int, accepted: bool)
      requires Valid()
      modifies this
      ensures Valid() && Value() == OnDrain(old(Value()), now, accepted)
    {
      if mode == Closed {
        return;
      }
      if mode == Saturated {
        mode := Writable;
      }
      if dropped != 0 {
        Write(Lost(pending, now), Printed(SlowWarning(dropped, now)));
        if !accepted && mode == Writable {
          mode := Saturated;
        }
        dropped, pending := 0, [];
      }
    }

    method OnHeartbeat()
      requires Valid() && beating
      modifies this
      ensures Valid() && Value() == Step(retentionLimit, old(Value()), BeatDue)
    {
      if mode == Closed {
        CloseStream();
        return;
      }
      Write(Beat, Newline);
    }

    method CloseStream()
      requires Valid()
      modifies this
      ensures Valid() && Value() == Close(old(Value()))
    {
      if mode != Closed {
        mode := Closed;
        unsubscribes := unsubscribes + 1;
      }
      beating := false;
    }

    method FindFirstAfter(afterDate: int) returns (index: int)
      ensures index == (if FirstAfter(buffer, afterDate) < |buffer| then FirstAfter(buffer, afterDate) else -1)
    {
      var k := 0;
      while k < |buffer|
        invariant 0 <= k <= |buffer|
        invariant forall j :: 0 <= j < k ==> buffer[j].createdAt <= afterDate
      {
        if buffer[k].createdAt > afterDate {
          FirstAfterIsFirst(buffer, afterDate, k);
          return k;
        }
        k := k + 1;
      }
      FirstAfterIsFirst(buffer, afterDate, k);
      index := -1;
    }

    /** Append what was buffered after the last line of the history, and keep the newest lines. */
    method MergeHistory(history: seq<OutputLog>) returns (logs: seq<OutputLog>)
      modifies this`buffer
      ensures logs == Burst(history, old(buffer), retentionLimit) && buffer == []
    {
      logs := history;
      FirstAfterSplits(buffer, AfterDate(history));
      var firstAfterDateIndex := FindFirstAfter(AfterDate(history));
      if firstAfterDateIndex > 0 {
        buffer := buffer[firstAfterDateIndex..];
      }
      if firstAfterDateIndex != -1 && |buffer| > 0 {
        logs := logs + buffer;
      }
      buffer := [];
      if retentionLimit != 0 && |logs| > retentionLimit {
        logs := logs[|logs| - retentionLimit..];
      }
    }

    method SendBurst(logs: seq<OutputLog>)
      requires Valid() && mode == Flushing
      modifies this
      ensures Valid() && Value() == old(Value()).(segments := old(segments) + SentAll(logs))
    {
      var k := 0;
      while k < |logs|
        invariant 0 <= k <= |logs| && Valid()
        invariant Value() == old(Value()).(segments := old(segments) + SentAll(logs[..k]))
      {
        OnLine(logs[k], true);
        assert SentAll(logs[..k + 1]) == SentAll(logs[..k]) + [Sent(logs[k])];
        k := k + 1;
      }
      assert logs[..k] == logs;
    }

    /** The history was read, or failed to be and is empty: merge, trim, burst, and go live. */
    method OnHistoryRead(history: seq<OutputLog>)
      requires Valid() && mode in {Buffering, Closed}
      modifies this
      ensures Valid() && Value() == OnHistory(retentionLimit, old(Value()), history)
    {
      if mode == Closed {
        return;
      }
      var logs := MergeHistory(history);
      mode := Flushing;
      SendBurst(logs);
      mode := Writable;
    }
  }

  // ---- what the burst is, for a published sequence ----

  predicate InOrder(published: seq<OutputLog>) {
    forall i, j :: 0 <= i < j < |published| ==> published[i].createdAt <= published[j].createdAt
  }

  /**
    The history is `published[i..h]`, read after subscribing, and the buffer is `published[s..b]`: what the
    subscription delivered by then.
   */
  predicate Overlapping(published: seq<OutputLog>, i: nat, h: nat, s: nat, b: nat) {
    i <= h <= |published| && s <= b <= |published| && s <= h
  }

  predicate PositiveDates(published: seq<OutputLog>) {
    forall k :: 0 <= k < |published| ==> published[k].createdAt > 0
  }

  function Max(a: nat, b: nat): nat {
    if a < b then b else a
  }

  /** Where the merge cuts the buffer, as a position in the published sequence. */
  function CutAt(published: seq<OutputLog>, i: nat, h: nat, s: nat, b: nat): nat
    requires Overlapping(published, i, h, s, b)
  {
    s + FirstAfter(published[s..b], AfterDate(published[i..h]))
  }

  /** The buffer is cut at the end of the history, or later if lines share the time stamp of the last one. */
  lemma CutIsAfterHistory(published: seq<OutputLog>, i: nat, h: nat, s: nat, b: nat)
    requires InOrder(published) && Overlapping(published, i, h, s, b) && i < h
    ensures var cut := CutAt(published, i, h, s, b);
            && cut <= b && (h <= b ==> h <= cut) && (b <= h ==> cut == b)
            && (h < b ==> (cut == h <==> published[h - 1].createdAt < published[h].createdAt))
  {
    var buffer, date := published[s..b], AfterDate(published[i..h]);
    assert date == published[h - 1].createdAt;
    FirstAfterSplits(buffer, date);
    var n := FirstAfter(buffer, date);
    if n < |buffer| {
      assert buffer[n] == published[s + n];
    }
    if h < b {
      assert buffer[h - s] == published[h];
    }
  }

  lemma CutOfWholeBuffer(published: seq<OutputLog>, h: nat, s: nat, b: nat)
    requires PositiveDates(published) && Overlapping(published, h, h, s, b)
    ensures CutAt(published, h, h, s, b) == s
  {
    assert published[h..h] == [];
    if s < b {
      assert published[s..b][0] == published[s];
    }
  }

  predicate IsSegment(published: seq<OutputLog>, burst: seq<OutputLog>, end: nat) {
    |burst| <= end <= |published| && burst == published[end - |burst|..end]
  }

  /** The end of a gap-free burst. */
  function BurstEnd(i: nat, h: nat, b: nat): nat {
    if i == h then b else Max(h, b)
  }

  function Limited(length: nat, limit: nat): nat {
    if limit != 0 && length > limit then limit else length
  }

  /** No line that was published while the history was read shares the time stamp of the last line of the history. */
  predicate NoTieAtTheSeam(published: seq<OutputLog>, i: nat, h: nat, b: nat)
    requires i <= h <= |published| && b <= |published|
  {
    i == h || b <= h || published[h - 1].createdAt < published[h].createdAt
  }

  lemma NewestIsSegment(published: seq<OutputLog>, from: nat, end: nat, limit: nat)
    requires from <= end <= |published|
    ensures IsSegment(published, Newest(published[from..end], limit), end)
  {
  }

  /** Without a tie at the seam the burst is the gap-free segment up to the last buffered line, cut to the limit. */
  lemma BurstIsContiguous(published: seq<OutputLog>, i: nat, h: nat, s: nat, b: nat, limit: nat)
    requires InOrder(published) && PositiveDates(published) && Overlapping(published, i, h, s, b)
    requires NoTieAtTheSeam(published, i, h, b)
    ensures var burst := Burst(published[i..h], published[s..b], limit);
            && IsSegment(published, burst, BurstEnd(i, h, b))
            && |burst| == Limited(BurstEnd(i, h, b) - (if i == h then s else i), limit)
  {
    if i == h {
      BurstWithoutHistory(published, h, s, b, limit);
      NewestIsSegment(published, s, b, limit);
    } else {
      CutIsAfterHistory(published, i, h, s, b);
      BurstWithHistory(published, i, h, s, b, limit);
      Joined(published, i, h, CutAt(published, i, h, s, b), b);
      NewestIsSegment(published, i, Max(h, b), limit);
    }
  }

  lemma Joined(published: seq<OutputLog>, i: nat, h: nat, cut: nat, b: nat)
    requires i <= h <= |published| && cut <= b <= |published| && (if h < b then cut == h else cut == b)
    ensures published[i..h] + published[cut..b] == published[i..Max(h, b)]
  {
  }

  lemma BurstWithoutHistory(published: seq<OutputLog>, h: nat, s: nat, b: nat, limit: nat)
    requires PositiveDates(published) && Overlapping(published, h, h, s, b)
    ensures Burst(published[h..h], published[s..b], limit) == Newest(published[s..b], limit)
  {
    CutOfWholeBuffer(published, h, s, b);
    assert published[h..h] + published[s..b][0..] == published[s..b];
  }

  lemma BurstWithHistory(published: seq<OutputLog>, i: nat, h: nat, s: nat, b: nat, limit: nat)
    requires InOrder(published) && Overlapping(published, i, h, s, b) && i < h
    ensures s <= CutAt(published, i, h, s, b) <= b
    ensures Burst(published[i..h], published[s..b], limit)
         == Newest(published[i..h] + published[CutAt(published, i, h, s, b)..b], limit)
  {
    CutIsAfterHistory(published, i, h, s, b);
    BurstAtCut(published, published[i..h], s, CutAt(published, i, h, s, b), b, limit);
  }

  lemma BurstAtCut(published: seq<OutputLog>, history: seq<OutputLog>, s: nat, cut: nat, b: nat, limit: nat)
    requires s <= cut <= b <= |published| && cut == s + FirstAfter(published[s..b], AfterDate(history))
    ensures Burst(history, published[s..b], limit) == Newest(history + published[cut..b], limit)
  {
    SliceOfSlice(published, s, cut, b);
    BurstAt(history, published[s..b], limit, published[cut..b]);
  }

  lemma BurstAt(history: seq<OutputLog>, buffer: seq<OutputLog>, limit: nat, late: seq<OutputLog>)
    requires var n := FirstAfter(buffer, AfterDate(history)); n <= |buffer| && buffer[n..] == late
    ensures Burst(history, buffer, limit) == Newest(history + late, limit)
  {
  }

  lemma SliceOfSlice(published: seq<OutputLog>, s: nat, cut: nat, b: nat)
    requires s <= cut <= b <= |published|
    ensures published[s..b][cut - s..] == published[cut..b]
  {
  }

  /**
    For distinct lines in order, the burst is such a segment exactly when there is no tie at the seam, or the limit
    leaves nothing of the history.
   */
  lemma BurstIsContiguousIff(published: seq<OutputLog>, i: nat, h: nat, s: nat, b: nat, limit: nat)
    requires InOrder(published) && PositiveDates(published) && Distinct(published) && Overlapping(published, i, h, s, b)
    ensures IsSegment(published, Burst(published[i..h], published[s..b], limit), BurstEnd(i, h, b))
       <==> NoTieAtTheSeam(published, i, h, b) || 0 < limit <= b - CutAt(published, i, h, s, b)
  {
    if NoTieAtTheSeam(published, i, h, b) {
      BurstIsContiguous(published, i, h, s, b, limit);
    } else {
      var cut := CutAt(published, i, h, s, b);
      CutIsAfterHistory(published, i, h, s, b);
      BurstWithHistory(published, i, h, s, b, limit);
      var burst := Burst(published[i..h], published[s..b], limit);
      if 0 < limit <= b - cut {
        assert burst == published[b - limit..b];
      } else {
        SeamIsAGap(published, i, h, cut, b, limit);
      }
    }
  }

  /** The last line of the history is in the burst, and the next one is not the next published line. */
  lemma SeamIsAGap(published: seq<OutputLog>, i: nat, h: nat, cut: nat, b: nat, limit: nat)
    requires Distinct(published) && i < h < cut <= b <= |published| && (limit == 0 || b - cut < limit)
    ensures !IsSegment(published, Newest(published[i..h] + published[cut..b], limit), b)
  {
    var burst := Newest(published[i..h] + published[cut..b], limit);
    var k := |burst| - (b - cut) - 1;
    assert burst[k] == published[h - 1];
    assert b - |burst| + k != h - 1;
  }

  /** The next live line is `published[b]`: it continues the burst if the subscription has caught up with the history. */
  lemma LiveLineContinuesBurst(published: seq<OutputLog>, i: nat, h: nat, s: nat, b: nat, limit: nat)
    requires InOrder(published) && PositiveDates(published) && Overlapping(published, i, h, s, b)
    requires NoTieAtTheSeam(published, i, h, b) && h <= b < |published|
    ensures IsSegment(published, Burst(published[i..h], published[s..b], limit) + [published[b]], b + 1)
  {
    BurstIsContiguous(published, i, h, s, b, limit);
    SegmentGrows(published, Burst(published[i..h], published[s..b], limit), b);
  }

  lemma SegmentGrows(published: seq<OutputLog>, burst: seq<OutputLog>, b: nat)
    requires IsSegment(published, burst, b) && b < |published|
    ensures IsSegment(published, burst + [published[b]], b + 1)
  {
  }

  /** A subscription repeats a line exactly if it lags behind the history by no more lines than the limit leaves of it. */
  lemma LaggingSubscriptionRepeats(published: seq<OutputLog>, i: nat, h: nat, s: nat, b: nat, limit: nat)
    requires InOrder(published) && PositiveDates(published) && Distinct(published) && Overlapping(published, i, h, s, b)
    requires NoTieAtTheSeam(published, i, h, b) && b < |published|
    ensures var burst := Burst(published[i..h], published[s..b], limit);
            published[b] in burst <==> i <= b < h && (limit == 0 || h - b <= limit)
  {
    BurstIsContiguous(published, i, h, s, b, limit);
    InSegment(published, Burst(published[i..h], published[s..b], limit), BurstEnd(i, h, b), b);
  }

  lemma InSegment(published: seq<OutputLog>, burst: seq<OutputLog>, end: nat, b: nat)
    requires Distinct(published) && IsSegment(published, burst, end) && b < |published|
    ensures published[b] in burst <==> end - |burst| <= b < end
  {
    if published[b] in burst {
      var k :| 0 <= k < |burst| && burst[k] == published[b];
      assert published[end - |burst| + k] == published[b];
    }
    if end - |burst| <= b < end {
      assert burst[b - (end - |burst|)] == published[b];
    }
  }

  // ---- saturation ----

  /** The lines a segment stands for. */
  function LinesOf(segment: Segment): seq<OutputLog> {
    match segment
    case Sent(log) => [log]
    case Lost(logs, _) => logs
    case Beat => []
  }

  function LinesOfAll(segments: seq<Segment>): seq<OutputLog> {
    if segments == [] then [] else LinesOfAll(segments[..|segments| - 1]) + LinesOf(segments[|segments| - 1])
  }

  lemma LinesOfAppended(segments: seq<Segment>, segment: Segment)
    ensures LinesOfAll(segments + [segment]) == LinesOfAll(segments) + LinesOf(segment)
  {
    assert (segments + [segment])[..|segments|] == segments;
  }

  lemma LinesOfAppendedLast(segments: seq<Segment>, more: seq<Segment>, last: Segment)
    ensures LinesOfAll(segments + (more + [last])) == LinesOfAll(segments + more) + LinesOf(last)
  {
    assert segments + (more + [last]) == segments + more + [last];
    LinesOfAppended(segments + more, last);
  }

  lemma {:induction false} LinesOfBurst(segments: seq<Segment>, logs: seq<OutputLog>)
    ensures LinesOfAll(segments + SentAll(logs)) == LinesOfAll(segments) + logs
    decreases |logs|
  {
    if logs == [] {
      assert segments + SentAll(logs) == segments;
    } else {
      var init, last := logs[..|logs| - 1], logs[|logs| - 1];
      LinesOfBurst(segments, init);
      SentAllSplits(init, last);
      LinesOfAppendedLast(segments, SentAll(init), Sent(last));
      Associative(LinesOfAll(segments), init, [last]);
      assert logs == init + [last];
    }
  }

  lemma SentAllSplits(init: seq<OutputLog>, last: OutputLog)
    ensures SentAll(init + [last]) == SentAll(init) + [Sent(last)]
  {
  }

  /** Everything that the response got or will be told about. */
  function Accounted(s: State): seq<OutputLog> {
    LinesOfAll(s.segments) + s.pending
  }

  /** Dropped lines wait for a warning only while saturated or closed, and a stream unsubscribes once, when closed. */
  predicate Sound(s: State) {
    && (s.pending != [] ==> s.mode in {Saturated, Closed})
    && (s.mode != Buffering ==> s.buffer == [] || s.mode == Closed)
    && s.mode != Flushing
    && s.unsubscribes == (if s.mode == Closed then 1 else 0)
    && (s.beating ==> s.mode != Closed)
  }

  lemma StepKeepsSound(limit: nat, s: State, e: Event)
    requires Sound(s) && Enabled(s, e)
    ensures Sound(Step(limit, s, e))
  {
  }

  /** The lines that arrive before the stream is closed. */
  function LiveLines(es: seq<Event>): seq<OutputLog> {
    if es == [] || es[0].Finishes? then []
    else (if es[0].Arrives? then [es[0].log] else []) + LiveLines(es[1..])
  }

  /** A line is written, dropped, or made up for by a warning; heartbeats count for nothing. */
  lemma WrittenIsAccounted(segments: seq<Segment>, log: OutputLog)
    ensures LinesOfAll(segments + [Sent(log)]) + [] == LinesOfAll(segments) + [] + [log]
  {
    LinesOfAppended(segments, Sent(log));
  }

  lemma DroppedIsAccounted(segments: seq<Segment>, pending: seq<OutputLog>, log: OutputLog)
    ensures LinesOfAll(segments) + (pending + [log]) == LinesOfAll(segments) + pending + [log]
  {
    Associative(LinesOfAll(segments), pending, [log]);
  }

  lemma WarnedIsAccounted(segments: seq<Segment>, pending: seq<OutputLog>, now: int)
    ensures LinesOfAll(segments + [Lost(pending, now)]) + [] == LinesOfAll(segments) + pending
  {
    LinesOfAppended(segments, Lost(pending, now));
  }

  lemma BeatIsAccounted(segments: seq<Segment>)
    ensures LinesOfAll(segments + [Beat]) == LinesOfAll(segments)
  {
    LinesOfAppended(segments, Beat);
    assert LinesOfAll(segments) + [] == LinesOfAll(segments);
  }

  lemma LiveStep(limit: nat, s: State, e: Event)
    requires Sound(s) && s.mode in {Writable, Saturated} && Enabled(s, e)
    ensures Accounted(Step(limit, s, e)) == Accounted(s) + (if e.Arrives? then [e.log] else [])
    ensures Step(limit, s, e).mode in {Writable, Saturated} <==> !e.Finishes?
  {
    match e
    case Arrives(log, _) =>
      if s.mode == Writable {
        WrittenIsAccounted(s.segments, log);
      } else {
        DroppedIsAccounted(s.segments, s.pending, log);
      }
    case Drains(now, _) =>
      WarnedIsAccounted(s.segments, s.pending, now);
    case BeatDue =>
      BeatIsAccounted(s.segments);
    case Finishes =>
    case HistoryIsRead(_) =>
  }

  lemma {:induction false} ClosedIsFinal(limit: nat, s: State, es: seq<Event>)
    requires s.mode == Closed && Sound(s) && Legal(limit, s, es)
    ensures Run(limit, s, es) == s.(beating := false) || Run(limit, s, es) == s
    decreases |es|
  {
    if es != [] {
      ClosedIsFinal(limit, Step(limit, s, es[0]), es[1..]);
    }
  }

  /**
    From going live on, every line that arrives before the close is, in order, written, or counted by exactly one
    warning written in its place, or still pending for one.
   */
  lemma {:induction false} LiveLinesAreAccounted(limit: nat, s: State, es: seq<Event>)
    requires Sound(s) && s.mode in {Writable, Saturated} && Legal(limit, s, es)
    ensures Sound(Run(limit, s, es))
    ensures Accounted(Run(limit, s, es)) == Accounted(s) + LiveLines(es)
    decreases |es|
  {
    if es != [] {
      StepKeepsSound(limit, s, es[0]);
      LiveStep(limit, s, es[0]);
      if es[0].Finishes? {
        ClosedIsFinal(limit, Step(limit, s, es[0]), es[1..]);
      } else {
        LiveLinesAreAccounted(limit, Step(limit, s, es[0]), es[1..]);
        Associative(Accounted(s), if es[0].Arrives? then [es[0].log] else [], LiveLines(es[1..]));
      }
    }
  }

  predicate StaysBuffering(es: seq<Event>) {
    forall n :: 0 <= n < |es| ==> !es[n].HistoryIsRead? && !es[n].Finishes?
  }

  lemma BufferingStep(limit: nat, s: State, e: Event)
    requires Sound(s) && s.mode == Buffering && Enabled(s, e) && !e.HistoryIsRead? && !e.Finishes?
    ensures var next := Step(limit, s, e);
            && Sound(next) && next.mode == Buffering && Accounted(next) == Accounted(s)
            && next.buffer == s.buffer + (if e.Arrives? then [e.log] else [])
  {
    BeatIsAccounted(s.segments);
  }

  lemma {:induction false} BufferingRun(limit: nat, s: State, es: seq<Event>)
    requires Sound(s) && s.mode == Buffering && StaysBuffering(es) && Legal(limit, s, es)
    ensures var end := Run(limit, s, es);
            Sound(end) && end.mode == Buffering && Accounted(end) == Accounted(s) && end.buffer == s.buffer + LiveLines(es)
    decreases |es|
  {
    if es != [] {
      var next := Step(limit, s, es[0]);
      BufferingStep(limit, s, es[0]);
      BufferingRun(limit, next, es[1..]);
      var arrived := if es[0].Arrives? then [es[0].log] else [];
      Associative(s.buffer, arrived, LiveLines(es[1..]));
    }
  }

  lemma GoesLive(limit: nat, s: State, history: seq<OutputLog>)
    requires Sound(s) && s.mode == Buffering
    ensures var live := OnHistory(limit, s, history);
            Sound(live) && live.mode == Writable && Accounted(live) == Accounted(s) + Burst(history, s.buffer, limit)
  {
    SendingAccounts(s, OnHistory(limit, s, history), Burst(history, s.buffer, limit));
  }

  lemma SendingAccounts(s: State, live: State, burst: seq<OutputLog>)
    requires s.pending == [] && live == s.(mode := Writable, buffer := [], segments := s.segments + SentAll(burst))
    ensures Accounted(live) == Accounted(s) + burst
  {
    LinesOfBurst(s.segments, burst);
    assert LinesOfAll(s.segments) + [] == LinesOfAll(s.segments);
    assert LinesOfAll(live.segments) + [] == LinesOfAll(live.segments);
  }

  lemma LiveStream(limit: nat, s: State, history: seq<OutputLog>, after: seq<Event>)
    requires Sound(s) && s.mode == Buffering && Legal(limit, OnHistory(limit, s, history), after)
    ensures Accounted(Run(limit, OnHistory(limit, s, history), after))
         == Accounted(s) + Burst(history, s.buffer, limit) + LiveLines(after)
  {
    GoesLive(limit, s, history);
    LiveLinesAreAccounted(limit, OnHistory(limit, s, history), after);
  }

  /**
    A whole stream: the burst merges the history with what arrived before it, and every later line is accounted for.
   */
  lemma StreamIsAccounted(limit: nat, s: State, before: seq<Event>, history: seq<OutputLog>, after: seq<Event>)
    requires s == START && StaysBuffering(before) && Legal(limit, s, before)
    requires Legal(limit, OnHistory(limit, Run(limit, s, before), history), after)
    ensures Accounted(Run(limit, OnHistory(limit, Run(limit, s, before), history), after))
         == Burst(history, LiveLines(before), limit) + LiveLines(after)
  {
    var end := Run(limit, s, before);
    BufferingRun(limit, s, before);
    StartIsEmpty(s, LiveLines(before));
    LiveStream(limit, end, history, after);
    assert [] + Burst(history, end.buffer, limit) == Burst(history, end.buffer, limit);
  }

  lemma StartIsEmpty(s: State, lines: seq<OutputLog>)
    requires s == START
    ensures Sound(s) && s.mode == Buffering && Accounted(s) == [] && s.buffer + lines == lines
  {
  }

  // ---- the same in numbers ----

  function LinesWritten(segments: seq<Segment>): nat {
    if segments == [] then 0
    else LinesWritten(segments[..|segments| - 1]) + (if segments[|segments| - 1].Sent? then 1 else 0)
  }

  function WarnedOf(segments: seq<Segment>): nat {
    if segments == [] then 0
    else
      var last := segments[|segments| - 1];
      WarnedOf(segments[..|segments| - 1]) + (if last.Lost? then |last.logs| else 0)
  }

  lemma {:induction false} AccountedCounts(segments: seq<Segment>)
    ensures |LinesOfAll(segments)| == LinesWritten(segments) + WarnedOf(segments)
  {
    if segments != [] {
      AccountedCounts(segments[..|segments| - 1]);
    }
  }

  /** Live lines = lines written + sum of the counts in the warnings written + `dropped`. */
  lemma LiveLinesAddUp(limit: nat, s: State, es: seq<Event>)
    requires Sound(s) && s.mode == Writable && Legal(limit, s, es)
    ensures var end := Run(limit, s, es);
            LinesWritten(s.segments) + WarnedOf(s.segments) + |LiveLines(es)|
            == LinesWritten(end.segments) + WarnedOf(end.segments) + |end.pending|
  {
    LiveLinesAreAccounted(limit, s, es);
    AccountedCounts(s.segments);
    AccountedCounts(Run(limit, s, es).segments);
  }

  // ---- when a stream saturates ----

  /** A line that reaches a writable stream is written, and saturates it exactly if the write was refused. */
  lemma SaturatesIff(limit: nat, s: State, log: OutputLog, accepted: bool)
    requires s.mode == Writable
    ensures var next := Step(limit, s, Arrives(log, accepted));
            && next.segments == s.segments + [Sent(log)] && next.pending == s.pending && next.buffer == s.buffer
            && (next.mode == Saturated <==> !accepted) && (next.mode == Writable <==> accepted)
  {
  }

  /** What was dropped is made up for at the drain, and the stream is full again exactly if that warning was refused. */
  lemma DrainReopensIff(limit: nat, s: State, now: int, accepted: bool)
    requires s.mode in {Writable, Saturated}
    ensures var next := Step(limit, s, Drains(now, accepted));
            && next.pending == []
            && next.segments == s.segments + (if s.pending == [] then [] else [Lost(s.pending, now)])
            && (next.mode == Saturated <==> s.pending != [] && !accepted) && (next.mode == Writable <==> s.pending == [] || accepted)
  {
    assert s.segments + [] == s.segments;
  }

  /** Nothing but heartbeats was added. */
  predicate AddsBeats(before: seq<Segment>, after: seq<Segment>) {
    |before| <= |after| && after[..|before|] == before && forall n :: |before| <= n < |after| ==> after[n] == Beat
  }

  lemma AddsMoreBeats(a: seq<Segment>, b: seq<Segment>, c: seq<Segment>)
    requires AddsBeats(a, b) && AddsBeats(b, c)
    ensures AddsBeats(a, c)
  {
    assert c[..|a|] == c[..|b|][..|a|];
    assert forall n :: 0 <= n < |b| ==> c[n] == c[..|b|][n];
  }

  /** After a refused write nothing but heartbeats goes out until a drain or the end, and every line is dropped. */
  lemma {:induction false} FullStreamDrops(limit: nat, s: State, es: seq<Event>)
    requires s.mode == Saturated && Legal(limit, s, es) && forall n :: 0 <= n < |es| ==> !es[n].Drains? && !es[n].Finishes?
    ensures var end := Run(limit, s, es);
            end.mode == Saturated && end.pending == s.pending + LiveLines(es) && AddsBeats(s.segments, end.segments)
    decreases |es|
  {
    if es == [] {
      assert s.pending + [] == s.pending;
    } else {
      var next := Step(limit, s, es[0]);
      FullStreamDrops(limit, next, es[1..]);
      AddsMoreBeats(s.segments, next.segments, Run(limit, next, es[1..]).segments);
      Associative(s.pending, if es[0].Arrives? then [es[0].log] else [], LiveLines(es[1..]));
      assert s.pending + [] == s.pending;
    }
  }

  predicate AllAccepted(es: seq<Event>) {
    forall n :: 0 <= n < |es| ==> (es[n].Arrives? || es[n].Drains? ==> es[n].accepted)
  }

  /** The lines that were written themselves. */
  function SentLines(segments: seq<Segment>): seq<OutputLog> {
    if segments == [] then []
    else SentLines(segments[..|segments| - 1]) + (if segments[|segments| - 1].Sent? then [segments[|segments| - 1].log] else [])
  }

  lemma SentAppended(segments: seq<Segment>, segment: Segment)
    ensures SentLines(segments + [segment]) == SentLines(segments) + (if segment.Sent? then [segment.log] else [])
  {
    assert (segments + [segment])[..|segments|] == segments;
  }

  /** While every write is accepted each line is written as it comes: nothing is dropped, and no warning is written. */
  lemma {:induction false} AcceptedLinesAreWritten(limit: nat, s: State, es: seq<Event>)
    requires Sound(s) && s.mode == Writable && s.pending == [] && Legal(limit, s, es) && AllAccepted(es)
    ensures var end := Run(limit, s, es);
            && end.pending == [] && SentLines(end.segments) == SentLines(s.segments) + LiveLines(es)
            && forall segment :: segment in end.segments && segment.Lost? ==> segment in s.segments
    decreases |es|
  {
    if es == [] {
      assert SentLines(s.segments) + [] == SentLines(s.segments);
    } else {
      var next := Step(limit, s, es[0]);
      assert AllAccepted(es[1..]);
      if es[0].Finishes? {
        StepKeepsSound(limit, s, es[0]);
        ClosedIsFinal(limit, next, es[1..]);
        assert SentLines(s.segments) + [] == SentLines(s.segments);
      } else {
        AcceptedStep(limit, s, es[0]);
        AcceptedLinesAreWritten(limit, next, es[1..]);
        Associative(SentLines(s.segments), if es[0].Arrives? then [es[0].log] else [], LiveLines(es[1..]));
      }
    }
  }

  lemma AcceptedStep(limit: nat, s: State, e: Event)
    requires Sound(s) && s.mode == Writable && s.pending == [] && Enabled(s, e) && !e.Finishes?
    requires e.Arrives? || e.Drains? ==> e.accepted
    ensures var next := Step(limit, s, e);
            && Sound(next) && next.mode == Writable && next.pending == []
            && SentLines(next.segments) == SentLines(s.segments) + (if e.Arrives? then [e.log] else [])
            && forall segment :: segment in next.segments && segment.Lost? ==> segment in s.segments
  {
    if e.Arrives? {
      SentAppended(s.segments, Sent(e.log));
    } else if e.BeatDue? {
      SentAppended(s.segments, Beat);
    }
    assert SentLines(s.segments) + [] == SentLines(s.segments);
  }

  /** Before it goes live a stream writes nothing but heartbeats, and keeps every line. */
  lemma {:induction false} BufferingWritesNothing(limit: nat, s: State, es: seq<Event>)
    requires s.mode == Buffering && s.pending == [] && StaysBuffering(es) && Legal(limit, s, es)
    ensures SentLines(Run(limit, s, es).segments) == SentLines(s.segments) && Run(limit, s, es).pending == s.pending
    decreases |es|
  {
    if es != [] {
      SentAppended(s.segments, Beat);
      assert SentLines(s.segments) + [] == SentLines(s.segments);
      BufferingWritesNothing(limit, Step(limit, s, es[0]), es[1..]);
    }
  }

  /** A closed stream writes nothing more, unsubscribes no more, and its heartbeat ends at the next beat. */
  lemma {:induction false} ClosedWritesNothing(limit: nat, s: State, es: seq<Event>)
    requires s.mode == Closed && Legal(limit, s, es)
    ensures var end := Run(limit, s, es);
            && end.segments == s.segments && end.unsubscribes == s.unsubscribes && end.mode == Closed
            && (BeatDue in es ==> !end.beating)
    decreases |es|
  {
    if es != [] {
      ClosedWritesNothing(limit, Step(limit, s, es[0]), es[1..]);
      assert es == [es[0]] + es[1..];
      if es[0] == BeatDue {
        StopsBeating(limit, Step(limit, s, es[0]), es[1..]);
      }
    }
  }

  lemma {:induction false} StopsBeating(limit: nat, s: State, es: seq<Event>)
    requires s.mode == Closed && !s.beating && Legal(limit, s, es)
    ensures !Run(limit, s, es).beating
    decreases |es|
  {
    if es != [] {
      StopsBeating(limit, Step(limit, s, es[0]), es[1..]);
    }
  }

  /** The warning tells how many lines were dropped: warnings for different counts differ, and all are system lines. */
  lemma WarningTellsCount(m: nat, n: nat, now: int)
    ensures SlowWarning(m, now) == SlowWarning(n, now) ==> m == n
    ensures SlowWarning(n, now).createdAt == now && SlowWarning(n, now).line.isSystem && SlowWarning(n, now).line.isStdErr
  {
    var before, after := "Warning: Suppressed ", " message(s) due to slow reading";
    if SlowWarning(m, now) == SlowWarning(n, now) {
      assert before + ToDecimal(m) + after == before + ToDecimal(n) + after;
      SameMiddle(before, ToDecimal(m), ToDecimal(n), after);
      ToDecimalInjective(m, n);
    }
  }
}
