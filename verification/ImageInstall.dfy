/**
  `device-state/state-patch-utils.ts`: reports about an image install are written through a throttle, whose memory of
  the last written report may be lost at any time.
 */
module ImageInstall {
  import opened Basics

  type Id = int
  type ReleaseId = int

  /** A reported or remembered progress: left out, null, or a percentage. */
  datatype Progress = Absent | Null | Percent(value: int)

  datatype Body = Body(status: Option<string>, release: ReleaseId, progress: Progress)

  datatype Remembered = Remembered(status: Option<string>, release: ReleaseId, progress: Progress, updateTime: int)

  datatype Row = Row(status: Option<string>, release: ReleaseId, progress: Option<int>)

  const KNOWN_STATUSES := [
    "Downloading", "Downloaded", "Installing", "Installed", "Starting", "Running", "Idle", "Handing over",
    "Awaiting handover", "Stopping", "Stopped", "exited", "Deleting", "deleted", "Dead", "paused", "restarting",
    "removing", "configuring", "Unknown"]

  function NormalizeStatus(status: Option<string>): Option<string> {
    if status.Some? && status.value in KNOWN_STATUSES then status else None
  }

  function BodyOf(report: Body): Body {
    report.(status := NormalizeStatus(report.status))
  }

  // ---- the throttle ----

  /** `interval` is in milliseconds. */
  predicate ShouldUpdate(interval: nat, last: Option<Remembered>, body: Body, now: int) {
    || last.None?
    || (last.value.progress != body.progress && last.value.updateTime + interval < now)
    || last.value.status != body.status
    || last.value.release != body.release
    || (!last.value.progress.Percent? && body.progress.Percent?)
    || (last.value.progress.Percent? && !body.progress.Percent?)
    || body.progress == Percent(100)
  }

  /** The last remembered progress is kept if the report does not include one. */
  function Remember(last: Option<Remembered>, body: Body, now: int): Remembered {
    var progress := if body.progress.Absent? && last.Some? then last.value.progress else body.progress;
    Remembered(body.status, body.release, progress, now)
  }

  function Apply(row: Row, body: Body): Row {
    Row(if body.status.Some? then body.status else row.status, body.release,
        match body.progress case Absent => row.progress case Null => None case Percent(value) => Some(value))
  }

  function Created(body: Body): Row {
    Apply(Row(None, body.release, None), body)
  }

  /** What an unthrottled writer stores. */
  function Store(row: Option<Row>, body: Body): Row {
    if row.None? then Created(body) else Apply(row.value, body)
  }

  // ---- one image install ----

  datatype Install = Install(row: Option<Row>, remembered: Option<Remembered>)

  /** A missing row is created past the throttle, which remembers nothing of it. */
  function Upsert(interval: nat, i: Install, report: Body, now: int): Install {
    var body := BodyOf(report);
    if i.row.None? then i.(row := Some(Created(body)))
    else if ShouldUpdate(interval, i.remembered, body, now)
    then Install(Some(Apply(i.row.value, body)), Some(Remember(i.remembered, body, now)))
    else i
  }

  class ImageInstalls {
    const interval: nat
    var rows: map<Id, Row>
    var lastReports: map<Id, Remembered>

    constructor (interval: nat)
      ensures this.interval == interval && rows == map[] && lastReports == map[]
    {
      this.interval, rows, lastReports := interval, map[], map[];
    }

    function Value(id: Id): Install
      reads this
    {
      Install(if id in rows then Some(rows[id]) else None, if id in lastReports then Some(lastReports[id]) else None)
    }

    method ShouldUpdateImageInstall(id: Id, body: Body, now: int) returns (should: bool)
      modifies this`lastReports
      ensures should == ShouldUpdate(interval, old(Value(id)).remembered, body, now)
      ensures lastReports == if should then old(lastReports)[id := Remember(old(Value(id)).remembered, body, now)] else old(lastReports)
    {
      var last := if id in lastReports then Some(lastReports[id]) else None;
      should := ShouldUpdate(interval, last, body, now);
      if should {
        var progress := if last.Some? then last.value.progress else Absent;
        if !body.progress.Absent? {
          progress := body.progress;
        }
        lastReports := lastReports[id := Remembered(body.status, body.release, progress, now)];
      }
    }

    method UpsertImageInstall(id: Id, report: Body, now: int)
      modifies this
      ensures Value(id) == Upsert(interval, old(Value(id)), report, now)
      ensures rows - {id} == old(rows) - {id} && lastReports - {id} == old(lastReports) - {id}
    {
      var body := report.(status := NormalizeStatus(report.status));
      if id !in rows {
        rows := rows[id := Row(body.status, body.release, if body.progress.Percent? then Some(body.progress.value) else None)];
      } else {
        var should := ShouldUpdateImageInstall(id, body, now);
        if should {
          var row := rows[id].(release := body.release);
          if body.status.Some? {
            row := row.(status := body.status);
          }
          if !body.progress.Absent? {
            row := row.(progress := if body.progress.Percent? then Some(body.progress.value) else None);
          }
          rows := rows[id := row];
        }
      }
    }
  }

  // ---- runs, beside an unthrottled writer ----

  /** A write, and whether it only brought a new percentage below 100. */
  datatype Write = Write(at: int, progressOnly: bool)

  /**
    `full` is the row of the unthrottled writer, and `download` the percentages reported since its progress was
    last null.
   */
  datatype World = World(now: int, install: Install, full: Option<Row>, download: set<int>, writes: seq<Write>)

  datatype Event = Reports(report: Body, after: nat) | Forgets

  predicate ProgressOnly(last: Option<Remembered>, body: Body) {
    && last.Some? && last.value.status == body.status && last.value.release == body.release
    && last.value.progress.Percent? && body.progress.Percent? && body.progress.value != 100
  }

  function Step(interval: nat, w: World, e: Event): World {
    match e
    case Forgets => w.(install := w.install.(remembered := None))
    case Reports(report, after) =>
      var now, body := w.now + after, BodyOf(report);
      var written := w.install.row.Some? && ShouldUpdate(interval, w.install.remembered, body, now);
      var full := Store(w.full, body);
      World(now, Upsert(interval, w.install, report, now), Some(full),
            if full.progress.None? then {} else w.download + {full.progress.value},
            if written then w.writes + [Write(now, ProgressOnly(w.install.remembered, body))] else w.writes)
  }

  function Run(interval: nat, w: World, es: seq<Event>): World
    decreases |es|
  {
    if es == [] then w else Run(interval, Step(interval, w, es[0]), es[1..])
  }

  /** The throttle remembers the status, release and progress that the row has, as far as it knows them. */
  predicate MemoryIsTrue(i: Install) {
    i.remembered.Some? ==>
      && i.row.Some?
      && (i.remembered.value.status.Some? ==> i.row.value.status == i.remembered.value.status)
      && i.row.value.release == i.remembered.value.release
      && (i.remembered.value.progress.Null? ==> i.row.value.progress == None)
      && (i.remembered.value.progress.Percent? ==> i.row.value.progress == Some(i.remembered.value.progress.value))
  }

  predicate StatusAgrees(w: World) {
    && (w.install.row.Some? <==> w.full.Some?)
    && (w.full.Some? ==> w.install.row.value.status == w.full.value.status && w.install.row.value.release == w.full.value.release)
  }

  lemma {:induction false} StatusAlwaysAgrees(interval: nat, w: World, es: seq<Event>)
    requires MemoryIsTrue(w.install) && StatusAgrees(w)
    ensures MemoryIsTrue(Run(interval, w, es).install) && StatusAgrees(Run(interval, w, es))
    decreases |es|
  {
    if es != [] {
      StatusAlwaysAgrees(interval, Step(interval, w, es[0]), es[1..]);
    }
  }

  // ---- progress ----

  /** The rows differ at most in which percentage they show. */
  predicate ProgressAgrees(w: World) {
    w.install.row.Some? && w.full.Some? ==> (w.install.row.value.progress.None? <==> w.full.value.progress.None?)
  }

  /**
    The report that is skipped wrongly: the progress ends while the throttle, not having seen one, takes it for ended
    already.
   */
  predicate EndsUnseenProgress(interval: nat, w: World, e: Event) {
    && e.Reports? && w.install.row.Some? && w.install.row.value.progress.Some?
    && BodyOf(e.report).progress.Null?
    && w.install.remembered.Some? && w.install.remembered.value.progress.Absent?
    && w.install.remembered.value.status == BodyOf(e.report).status
    && w.install.remembered.value.release == BodyOf(e.report).release
    && w.now + e.after <= w.install.remembered.value.updateTime + interval
  }

  /** A step keeps the progress in agreement exactly unless it is such a report. */
  lemma ProgressAgreesIff(interval: nat, w: World, e: Event)
    requires MemoryIsTrue(w.install) && StatusAgrees(w) && ProgressAgrees(w)
    ensures ProgressAgrees(Step(interval, w, e)) <==> !EndsUnseenProgress(interval, w, e)
  {
  }

  predicate NeverEndsUnseen(interval: nat, w: World, es: seq<Event>)
    decreases |es|
  {
    es == [] || (!EndsUnseenProgress(interval, w, es[0]) && NeverEndsUnseen(interval, Step(interval, w, es[0]), es[1..]))
  }

  /** The row shows a percentage that was reported in the download that is going on. */
  predicate ShowsDownload(w: World) {
    w.install.row.Some? && w.install.row.value.progress.Some? ==> w.install.row.value.progress.value in w.download
  }

  /** A finished download is shown as finished. */
  predicate CompletionAgrees(w: World) {
    && (w.install.row.Some? <==> w.full.Some?)
    && (w.full.Some? && w.full.value.progress == Some(100) ==> w.install.row.value.progress == Some(100))
  }

  /** 100% is never throttled, whatever memory is lost and whatever was reported before. */
  lemma {:induction false} MilestonesAreExact(interval: nat, w: World, es: seq<Event>)
    requires CompletionAgrees(w)
    ensures CompletionAgrees(Run(interval, w, es))
    decreases |es|
  {
    if es != [] {
      MilestonesAreExact(interval, Step(interval, w, es[0]), es[1..]);
    }
  }

  lemma DownloadStep(interval: nat, w: World, e: Event)
    requires MemoryIsTrue(w.install) && StatusAgrees(w) && ProgressAgrees(w) && ShowsDownload(w) && CompletionAgrees(w)
    requires !EndsUnseenProgress(interval, w, e)
    ensures var next := Step(interval, w, e);
            && MemoryIsTrue(next.install) && StatusAgrees(next)
            && ProgressAgrees(next) && ShowsDownload(next) && CompletionAgrees(next)
  {
  }

  /**
    In runs without such a report the rows differ only while a download is going on, and only in that the throttled
    one may show an earlier percentage of that download: never when it has ended, and never at 100.
   */
  lemma {:induction false} ProgressDiffersOnlyInValue(interval: nat, w: World, es: seq<Event>)
    requires MemoryIsTrue(w.install) && StatusAgrees(w) && NeverEndsUnseen(interval, w, es)
    requires ProgressAgrees(w) && ShowsDownload(w) && CompletionAgrees(w)
    ensures var end := Run(interval, w, es); ProgressAgrees(end) && ShowsDownload(end) && CompletionAgrees(end)
    decreases |es|
  {
    if es != [] {
      DownloadStep(interval, w, es[0]);
      ProgressDiffersOnlyInValue(interval, Step(interval, w, es[0]), es[1..]);
    }
  }

  /** It happens: after a memory loss a report without progress is followed by one that ends the progress. */
  lemma UnseenProgressStaysShown(interval: nat, w: World, status: Option<string>, release: ReleaseId)
    requires w.install.row.Some? && w.full == w.install.row && w.full.value.progress.Some?
    ensures var es := [Forgets, Reports(Body(status, release, Absent), 0), Reports(Body(status, release, Null), 0)];
            var end := Run(interval, w, es);
            && end.full.Some? && end.full.value.progress == None
            && end.install.row.Some? && end.install.row.value.progress == w.install.row.value.progress
  {
    var es := [Forgets, Reports(Body(status, release, Absent), 0), Reports(Body(status, release, Null), 0)];
    var w1 := Step(interval, w, es[0]);
    var w2 := Step(interval, w1, es[1]);
    var w3 := Step(interval, w2, es[2]);
    assert es[1..][1..] == [es[2]] && es[1..][1..][1..] == [];
    assert Run(interval, w2, [es[2]]) == w3;
    assert Run(interval, w1, es[1..]) == w3;
  }

  // ---- what is shown, and what is remembered ----

  /** The unthrottled row shows what was reported last: a known status, the release, and a progress that was not left out. */
  lemma UnthrottledShowsReport(interval: nat, w: World, report: Body, after: nat)
    ensures var next := Step(interval, w, Reports(report, after));
            var before := if w.full.Some? then w.full.value else Row(None, report.release, None);
            && next.now == w.now + after && next.full.Some? && next.full.value.release == report.release
            && next.full.value.status
               == (if report.status.Some? && report.status.value in KNOWN_STATUSES then report.status else before.status)
            && next.full.value.progress
               == (if report.progress.Absent? then before.progress
                   else if report.progress.Percent? then Some(report.progress.value) else None)
  {
  }

  /** A report is either skipped, memory and all, or shown like that and remembered from now on. */
  lemma ReportIsShownOrSkipped(interval: nat, w: World, report: Body, after: nat)
    requires w.install.row.Some?
    ensures var next, before := Step(interval, w, Reports(report, after)), w.install.row.value;
            || (next.install == w.install && next.writes == w.writes)
            || (&& next.install.row.Some? && next.install.row.value.release == report.release
                && next.install.row.value.status
                   == (if report.status.Some? && report.status.value in KNOWN_STATUSES then report.status else before.status)
                && next.install.row.value.progress
                   == (if report.progress.Absent? then before.progress
                       else if report.progress.Percent? then Some(report.progress.value) else None)
                && next.install.remembered.Some? && next.install.remembered.value.updateTime == w.now + after
                && next.install.remembered.value.release == report.release
                && |next.writes| == |w.writes| + 1)
  {
  }

  /** The throttle has a row, and remembers a progress, even if it is null. */
  predicate HasSeenProgress(w: World) {
    w.install.row.Some? && w.install.remembered.Some? && !w.install.remembered.value.progress.Absent?
  }

  /** Only a loss of memory makes the throttle forget that it has seen a progress. */
  lemma {:induction false} SeenUntilForgotten(interval: nat, w: World, es: seq<Event>)
    requires HasSeenProgress(w) && forall n :: 0 <= n < |es| ==> !es[n].Forgets?
    ensures HasSeenProgress(Run(interval, w, es)) && NeverEndsUnseen(interval, w, es)
    decreases |es|
  {
    if es != [] {
      SeenUntilForgotten(interval, Step(interval, w, es[0]), es[1..]);
    }
  }

  /** So without a loss of memory the rows differ only in the percentage of a download that is going on. */
  lemma SeenProgressAgrees(interval: nat, w: World, es: seq<Event>)
    requires MemoryIsTrue(w.install) && StatusAgrees(w) && HasSeenProgress(w)
    requires ProgressAgrees(w) && ShowsDownload(w) && CompletionAgrees(w)
    requires forall n :: 0 <= n < |es| ==> !es[n].Forgets?
    ensures var end := Run(interval, w, es); ProgressAgrees(end) && ShowsDownload(end) && CompletionAgrees(end)
  {
    SeenUntilForgotten(interval, w, es);
    ProgressDiffersOnlyInValue(interval, w, es);
  }

  /** The first progress that the throttle lets through is seen; a report that leaves it out keeps what was seen. */
  lemma ProgressIsSeen(interval: nat, w: World, report: Body, after: nat)
    requires w.install.row.Some? && (w.install.remembered.None? || w.install.remembered.value.progress.Absent?)
    requires report.progress.Percent?
    ensures HasSeenProgress(Step(interval, w, Reports(report, after)))
  {
  }

  // ---- the throttle throttles ----

  predicate WritesAreApart(interval: nat, writes: seq<Write>) {
    && (forall j, k :: 0 <= j < k < |writes| ==> writes[j].at <= writes[k].at)
    && (forall j, k :: 0 <= j < k < |writes| && writes[k].progressOnly ==> writes[j].at + interval < writes[k].at)
  }

  predicate MemoryIsDated(w: World) {
    && (w.writes != [] ==> w.writes[|w.writes| - 1].at <= w.now)
    && (w.install.remembered.Some? ==> w.writes != [] && w.install.remembered.value.updateTime == w.writes[|w.writes| - 1].at)
  }

  /** A write that, as far as the throttle remembers, only brings a percentage below 100 comes
    more than the interval after every earlier write. */
  lemma {:induction false} ProgressWritesAreApart(interval: nat, w: World, es: seq<Event>)
    requires WritesAreApart(interval, w.writes) && MemoryIsDated(w)
    ensures WritesAreApart(interval, Run(interval, w, es).writes)
    decreases |es|
  {
    if es != [] {
      var next := Step(interval, w, es[0]);
      if es[0].Reports? {
        WriteIsApart(interval, w, es[0].report, es[0].after);
        if next.writes != w.writes {
          AppendApart(interval, w.writes, next.writes[|w.writes|]);
        }
      }
      ProgressWritesAreApart(interval, next, es[1..]);
    }
  }

  /** A report is written now if at all, and not soon after the last write if it only brings a percentage. */
  lemma WriteIsApart(interval: nat, w: World, report: Body, after: nat)
    requires MemoryIsDated(w)
    ensures var next := Step(interval, w, Reports(report, after));
            && MemoryIsDated(next)
            && (next.writes == w.writes ||
                (|next.writes| == |w.writes| + 1 && next.writes == w.writes + [next.writes[|w.writes|]]
                 && LaterThanLast(interval, w.writes, next.writes[|w.writes|])))
  {
  }

  predicate LaterThanLast(interval: nat, writes: seq<Write>, more: Write) {
    writes != [] ==>
      var last := writes[|writes| - 1].at;
      last <= more.at && (more.progressOnly ==> last + interval < more.at)
  }

  lemma AppendApart(interval: nat, writes: seq<Write>, more: Write)
    requires WritesAreApart(interval, writes) && LaterThanLast(interval, writes, more)
    ensures WritesAreApart(interval, writes + [more])
  {
    forall j | 0 <= j < |writes| ensures writes[j].at <= writes[|writes| - 1].at {
    }
  }

  // ---- deletions ----

  /** `deleteOldImageInstalls` writes past the throttle. */
  function Deleted(i: Install): Install {
    i.(row := if i.row.Some? then Some(i.row.value.(status := Some("deleted"), progress := None)) else None)
  }

  /**
    What of a report decides whether it is stored when it is repeated after a deletion, given the progress that was
    remembered with it and when.
   */
  predicate StoredAgain(interval: nat, progress: Progress, remembered: Remembered, later: int) {
    var stale := remembered.updateTime + interval < later;
    match progress
    case Percent(value) => value == 100 || (remembered.progress != progress && stale)
    case Null => remembered.progress.Absent? && stale
    case Absent => remembered.progress.Percent? || (remembered.progress.Null? && stale)
  }

  /**
    A report is stored when it comes again after a deletion exactly in those cases. Otherwise the row stays as the
    deletion left it, although the device reports another status.
   */
  lemma RepeatedReportStaysDeleted(interval: nat, i: Install, report: Body, now: int, later: int)
    requires i.row.Some? && BodyOf(report).status.Some? && BodyOf(report).status.value != "deleted"
    ensures var before := Upsert(interval, i, report, now);
            var after := Upsert(interval, Deleted(before), report, later);
            var again := before.remembered.Some? && StoredAgain(interval, report.progress, before.remembered.value, later);
            && before.row.Some? && before.remembered.Some?
            && (after.row.value.status == BodyOf(report).status <==> again)
            && (!again ==> after == Deleted(before))
  {
  }

  /** The common case: a report of a percentage below 100 that was stored is never stored again, however late it comes. */
  lemma StoredPercentageStaysDeleted(interval: nat, i: Install, report: Body, now: int, later: int)
    requires i.row.Some? && ShouldUpdate(interval, i.remembered, BodyOf(report), now)
    requires report.progress.Percent? && report.progress.value != 100
    ensures Upsert(interval, Deleted(Upsert(interval, i, report, now)), report, later)
         == Deleted(Upsert(interval, i, report, now))
  {
  }

  /** A container that downloads, is deleted, and is reported downloading again at the same percentage. */
  lemma DeletedDownloadIsNotStored(interval: nat, later: int)
    ensures var i := Install(Some(Row(Some("Downloading"), 1, None)), None);
            var report := Body(Some("Downloading"), 1, Percent(50));
            var after := Upsert(interval, Deleted(Upsert(interval, i, report, 0)), report, later);
            after.row == Some(Row(Some("deleted"), 1, None))
  {
    assert "Downloading" == KNOWN_STATUSES[0] && "Downloading" in KNOWN_STATUSES;
  }
}
