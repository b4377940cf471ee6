/**
  `track-latest-release.ts`: the target release of a tracking application follows its latest trackable release,
  also through the nested PATCHes with which the versioning hooks take revisions away and hand them out.
 */
module TrackLatest {
  import opened Basics
  import opened Releases
  import opened SemverText

  /** A release row with the fields that decide whether it can be tracked. */
  datatype Tracked = Tracked(release: Release, status: string, isPassingTests: bool, isInvalidated: bool, start: int)

  datatype Application = Application(tracksLatest: bool, target: Option<Id>)

  /** The fields of a PATCH that the tracking hook reacts to, besides the revision. */
  datatype Fields = Fields(status: Option<string>, isPassingTests: Option<bool>, isInvalidated: Option<bool>)

  datatype State = State(releases: map<Id, Tracked>, apps: map<AppId, Application>)

  predicate Trackable(r: Tracked) {
    r.release.revision.Some? && r.isPassingTests && !r.isInvalidated && r.status == "success"
  }

  function TrackableOf(t: map<Id, Tracked>, a: AppId): set<Id> {
    set i | i in t && t[i].release.app == a && Trackable(t[i])
  }

  predicate DistinctStarts(t: map<Id, Tracked>) {
    forall i, j :: i in t && j in t && i != j ==> t[i].start != t[j].start
  }

  ghost predicate IsLatest(t: map<Id, Tracked>, a: AppId, i: Id) {
    i in TrackableOf(t, a) && forall j :: j in TrackableOf(t, a) ==> t[j].start <= t[i].start
  }

  lemma LatestExists(t: map<Id, Tracked>, a: AppId)
    requires TrackableOf(t, a) != {}
    ensures exists i :: IsLatest(t, a, i)
  {
    var starts := set i | i in TrackableOf(t, a) :: t[i].start;
    var i0 := Pick(TrackableOf(t, a));
    assert t[i0].start in starts;
    MaxExists(starts);
    var top :| top in starts && forall x :: x in starts ==> x <= top;
    var i :| i in TrackableOf(t, a) && t[i].start == top;
    forall j | j in TrackableOf(t, a) ensures t[j].start <= t[i].start {
      assert t[j].start in starts;
    }
    assert IsLatest(t, a, i);
  }

  /** `$top: 1` of the trackable releases of an application by descending start timestamp. */
  ghost function Latest(t: map<Id, Tracked>, a: AppId): (i: Id)
    requires TrackableOf(t, a) != {}
    ensures IsLatest(t, a, i)
  {
    LatestExists(t, a);
    var i :| IsLatest(t, a, i);
    i
  }

  predicate Owns(t: map<Id, Tracked>, a: AppId, ids: set<Id>) {
    exists i :: i in ids && i in t && t[i].release.app == a
  }

  // ---- the hook ----

  ghost function Retarget(t: map<Id, Tracked>, a: AppId, app: Application, ids: set<Id>): Application {
    if app.tracksLatest && Owns(t, a, ids) && TrackableOf(t, a) != {} then app.(target := Some(Latest(t, a))) else app
  }

  /** `updateLatestRelease`: every tracking application that owns one of the releases. */
  ghost function Track(s: State, ids: set<Id>): State {
    s.(apps := map a | a in s.apps :: Retarget(s.releases, a, s.apps[a], ids))
  }

  /** The nested PATCH that takes revisions away, and its hook. */
  ghost function Clear(s: State, ids: set<Id>): State {
    var t := s.releases;
    Track(s.(releases := t + map i | i in ids && i in t :: t[i].(release := Cleared(t[i].release))), ids)
  }

  /** The nested PATCH that gives one release a revision, and its hook. */
  ghost function Number(s: State, i: Id, b: Body, revision: nat, now: int): State {
    if i !in s.releases then s
    else
      var r := s.releases[i];
      Track(s.(releases := s.releases[i := r.(release := Numbered(r.release, b, revision, now))]), {i})
  }

  ghost function NumberAll(s: State, list: seq<(Id, nat)>, b: Body, now: int): State
    decreases |list|
  {
    if list == [] then s else NumberAll(Number(s, list[0].0, b, list[0].1, now), list[1..], b, now)
  }

  function WithFields(r: Tracked, b: Body, f: Fields): Tracked {
    r.(release := Updated(r.release, b), status := f.status.GetOr(r.status),
       isPassingTests := f.isPassingTests.GetOr(r.isPassingTests), isInvalidated := f.isInvalidated.GetOr(r.isInvalidated))
  }

  function MainUpdate(t: map<Id, Tracked>, ids: set<Id>, b: Body, f: Fields): map<Id, Tracked> {
    t + map i | i in ids && i in t :: WithFields(t[i], b, f)
  }

  predicate SetsField(f: Fields) {
    f.status.Some? || f.isPassingTests.Some? || f.isInvalidated.Some?
  }

  function FinalAmong(t: map<Id, Tracked>, ids: set<Id>, b: Body): set<Id> {
    set i | i in ids && i in t && ChangesKey(t[i].release, b)
  }

  /**
    A request. `numbers` are the revisions that the versioning hook hands out, whichever they are and in its order;
    the tracking hook of a PATCH runs beside it, after the first `at` of them.
   */
  datatype Request =
    | Post(id: Id, row: Tracked, isFinal: bool, revision: nat, now: int)
    | Patch(ids: set<Id>, body: Body, fields: Fields, numbers: seq<(Id, nat)>, at: nat, now: int)

  /** The request fits the table: a new draft with a new start timestamp, or a PATCH of existing releases. */
  ghost predicate Fits(s: State, q: Request) {
    match q
    case Post(id, row, _, _, _) =>
      && id !in s.releases && row.release.revision.None?
      && forall j :: j in s.releases ==> s.releases[j].start != row.start
    case Patch(ids, _, _, numbers, at, _) =>
      ids <= s.releases.Keys && at <= |numbers|
  }

  /** A new release is numbered when it is final; its own tracking hook finds it trackable or has nothing to do. */
  ghost function ServePost(s: State, id: Id, row: Tracked, isFinal: bool, revision: nat, now: int): State {
    var inserted := s.(releases := s.releases[id := row]);
    var body := Body(Some(isFinal), None, None, None);
    var numbered := if isFinal then Number(inserted, id, body, revision, now) else inserted;
    if id in numbered.releases && Trackable(numbered.releases[id]) then Track(numbered, {id}) else numbered
  }

  ghost function Serve(s: State, q: Request): State {
    match q
    case Post(id, row, isFinal, revision, now) => ServePost(s, id, row, isFinal, revision, now)
    case Patch(ids, b, f, numbers, at, now) =>
      if at > |numbers| then s
      else
        var cleared := Clear(s, FinalAmong(s.releases, ids, b));
        var updated := cleared.(releases := MainUpdate(cleared.releases, ids, b, f));
        var first := NumberAll(updated, numbers[..at], b, now);
        NumberAll(if SetsField(f) then Track(first, ids) else first, numbers[at..], b, now)
  }

  // ---- the hook as the code runs it ----

  class TrackingHooks {
    var releases: map<Id, Tracked>
    var apps: map<AppId, Application>

    constructor (releases: map<Id, Tracked>, apps: map<AppId, Application>)
      ensures this.releases == releases && this.apps == apps
    {
      this.releases, this.apps := releases, apps;
    }

    ghost function Value(): State
      reads this
    {
      State(releases, apps)
    }

    /** Read the tracking applications that own one of the releases, and patch the target of each. */
    method UpdateLatestRelease(ids: set<Id>)
      requires DistinctStarts(releases)
      modifies this`apps
      ensures Value() == Track(old(Value()), ids)
    {
      if ids == {} {
        assert apps == Track(old(Value()), ids).apps;
        return;
      }
      var appsToUpdate := set a | a in apps && apps[a].tracksLatest && Owns(releases, a, ids);
      var remaining := appsToUpdate;
      while remaining != {}
        invariant remaining <= appsToUpdate && apps.Keys == old(apps).Keys
        invariant forall a :: a in apps ==>
                    apps[a] == if a in appsToUpdate - remaining then Retarget(releases, a, old(apps)[a], ids) else old(apps)[a]
        decreases |remaining|
      {
        var a :| a in remaining;
        var trackable := TrackableOf(releases, a);
        if trackable != {} {
          var latest := FindLatest(trackable);
          LatestIsUnique(releases, a, latest, Latest(releases, a));
          apps := apps[a := apps[a].(target := Some(latest))];
        }
        remaining := remaining - {a};
      }
      assert apps == Track(old(Value()), ids).apps;
    }

    /** The top of the expand by descending start timestamp. */
    method FindLatest(trackable: set<Id>) returns (latest: Id)
      requires trackable != {} && forall i :: i in trackable ==> i in releases
      ensures latest in trackable && forall j :: j in trackable ==> releases[j].start <= releases[latest].start
    {
      var rest := trackable;
      ghost var some := Pick(rest);
      latest :| latest in rest;
      rest := rest - {latest};
      while rest != {}
        invariant rest <= trackable && latest in trackable
        invariant forall j :: j in trackable - rest ==> releases[j].start <= releases[latest].start
        decreases |rest|
      {
        ghost var other := Pick(rest);
        var j :| j in rest;
        if releases[j].start > releases[latest].start {
          latest := j;
        }
        rest := rest - {j};
      }
    }
  }

  lemma LatestIsUnique(t: map<Id, Tracked>, a: AppId, i: Id, j: Id)
    requires DistinctStarts(t) && IsLatest(t, a, i) && IsLatest(t, a, j)
    ensures i == j
  {
  }

  // ---- targets follow ----

  /** Outside `except`, every tracking application with something to track targets its latest trackable release. */
  ghost predicate TargetsLatest(s: State, except: set<AppId>) {
    forall a :: a in s.apps && a !in except && s.apps[a].tracksLatest && TrackableOf(s.releases, a) != {}
      ==> s.apps[a].target.Some? && IsLatest(s.releases, a, s.apps[a].target.value)
  }

  /** The releases of an application that can be tracked, and their start times, are the same. */
  ghost predicate SameTracking(t: map<Id, Tracked>, u: map<Id, Tracked>, a: AppId) {
    TrackableOf(t, a) == TrackableOf(u, a) && forall i :: i in TrackableOf(t, a) ==> t[i].start == u[i].start
  }

  lemma ChangesSpoilOnlyTheirApps(s: State, u: map<Id, Tracked>, except: set<AppId>, spoiled: set<AppId>)
    requires TargetsLatest(s, except)
    requires forall a :: a !in spoiled ==> SameTracking(s.releases, u, a)
    ensures TargetsLatest(s.(releases := u), except + spoiled)
  {
    forall a | a in s.apps && a !in except + spoiled && s.apps[a].tracksLatest && TrackableOf(u, a) != {}
      ensures s.apps[a].target.Some? && IsLatest(u, a, s.apps[a].target.value)
    {
      assert SameTracking(s.releases, u, a);
    }
  }

  /** The hook repairs every application that owns one of the releases. */
  lemma TrackRepairs(s: State, ids: set<Id>, except: set<AppId>, repaired: set<AppId>)
    requires TargetsLatest(s, except)
    requires forall a :: a in repaired ==> Owns(s.releases, a, ids)
    ensures TargetsLatest(Track(s, ids), except - repaired)
  {
  }

  lemma ClearKeepsTargets(s: State, ids: set<Id>)
    requires TargetsLatest(s, {}) && ids <= s.releases.Keys
    ensures TargetsLatest(Clear(s, ids), {})
    ensures SameStarts(s.releases, Clear(s, ids).releases)
  {
    var t := s.releases;
    var u := t + map i | i in ids && i in t :: t[i].(release := Cleared(t[i].release));
    var touched := set i | i in ids :: t[i].release.app;
    forall a | a !in touched ensures SameTracking(t, u, a) {
      forall i | i in t ensures i in TrackableOf(t, a) <==> i in TrackableOf(u, a) {
        if i in ids {
          assert t[i].release.app in touched;
        }
      }
    }
    ChangesSpoilOnlyTheirApps(s, u, {}, touched);
    forall a | a in touched ensures Owns(u, a, ids) {
      var i :| i in ids && t[i].release.app == a;
      assert u[i].release.app == a;
    }
    TrackRepairs(s.(releases := u), ids, touched, touched);
  }

  lemma NumberKeepsTargets(s: State, i: Id, b: Body, revision: nat, now: int, except: set<AppId>)
    requires TargetsLatest(s, except)
    ensures TargetsLatest(Number(s, i, b, revision, now), except)
    ensures SameApps(s.releases, Number(s, i, b, revision, now).releases)
  {
    if i in s.releases {
      var r := s.releases[i];
      var u := s.releases[i := r.(release := Numbered(r.release, b, revision, now))];
      var a := r.release.app;
      forall a' | a' !in {a} ensures SameTracking(s.releases, u, a') {
      }
      ChangesSpoilOnlyTheirApps(s, u, except, {a});
      assert u[i].release.app == a && i in {i};
      assert Owns(u, a, {i});
      TrackRepairs(s.(releases := u), {i}, except + {a}, {a});
      WiderException(Number(s, i, b, revision, now), except + {a} - {a}, except);
    }
  }

  lemma WiderException(s: State, narrow: set<AppId>, wide: set<AppId>)
    requires TargetsLatest(s, narrow) && narrow <= wide
    ensures TargetsLatest(s, wide)
  {
  }

  ghost predicate SameStarts(t: map<Id, Tracked>, u: map<Id, Tracked>) {
    t.Keys == u.Keys && forall i :: i in t ==> t[i].start == u[i].start
  }

  ghost predicate SameApps(t: map<Id, Tracked>, u: map<Id, Tracked>) {
    SameStarts(t, u) && forall i :: i in t ==> t[i].release.app == u[i].release.app
  }

  lemma {:induction false} NumberAllKeepsTargets(s: State, list: seq<(Id, nat)>, b: Body, now: int, except: set<AppId>)
    requires TargetsLatest(s, except)
    ensures TargetsLatest(NumberAll(s, list, b, now), except)
    ensures SameApps(s.releases, NumberAll(s, list, b, now).releases)
    decreases |list|
  {
    if list != [] {
      NumberKeepsTargets(s, list[0].0, b, list[0].1, now, except);
      NumberAllKeepsTargets(Number(s, list[0].0, b, list[0].1, now), list[1..], b, now, except);
    }
  }

  /** Once the selected releases are drafts, the main UPDATE changes tracking only through its own fields. */
  lemma MainUpdateSpoils(s: State, ids: set<Id>, b: Body, f: Fields) returns (spoiled: set<AppId>)
    requires TargetsLatest(s, {}) && ids <= s.releases.Keys
    requires forall i :: i in ids ==> !ChangesKey(s.releases[i].release, b)
    ensures TargetsLatest(s.(releases := MainUpdate(s.releases, ids, b, f)), spoiled)
    ensures !SetsField(f) ==> spoiled == {}
    ensures forall a :: a in spoiled ==> Owns(MainUpdate(s.releases, ids, b, f), a, ids)
    ensures SameStarts(s.releases, MainUpdate(s.releases, ids, b, f))
  {
    var t, u := s.releases, MainUpdate(s.releases, ids, b, f);
    forall i | i in ids && t[i].release.revision.Some? ensures u[i].release.app == t[i].release.app {
      assert !ChangesKey(t[i].release, b);
    }
    spoiled := if SetsField(f) then set i | i in ids :: u[i].release.app else {};
    forall a | a !in spoiled ensures SameTracking(t, u, a) {
      forall i | i in t ensures i in TrackableOf(t, a) <==> i in TrackableOf(u, a) {
        if i in ids && SetsField(f) {
          assert u[i].release.app in spoiled;
        }
      }
    }
    ChangesSpoilOnlyTheirApps(s, u, {}, spoiled);
    forall a | a in spoiled ensures Owns(u, a, ids) {
      var i :| i in ids && u[i].release.app == a;
    }
  }

  lemma PatchKeepsTargets(s: State, q: Request)
    requires q.Patch? && Fits(s, q) && TargetsLatest(s, {})
    ensures TargetsLatest(Serve(s, q), {})
    ensures SameStarts(s.releases, Serve(s, q).releases)
  {
    var ids, b, f := q.ids, q.body, q.fields;
    var finals := FinalAmong(s.releases, ids, b);
    ClearKeepsTargets(s, finals);
    var cleared := Clear(s, finals);
    forall i | i in ids ensures i in cleared.releases && !ChangesKey(cleared.releases[i].release, b) {
      assert i in finals <==> ChangesKey(s.releases[i].release, b);
    }
    var spoiled := MainUpdateSpoils(cleared, ids, b, f);
    var updated := cleared.(releases := MainUpdate(cleared.releases, ids, b, f));
    NumberAllKeepsTargets(updated, q.numbers[..q.at], b, q.now, spoiled);
    var first := NumberAll(updated, q.numbers[..q.at], b, q.now);
    forall a | a in spoiled ensures Owns(first.releases, a, ids) {
      var i :| i in ids && i in updated.releases && updated.releases[i].release.app == a;
      assert first.releases[i].release.app == a;
    }
    TrackRepairs(first, ids, spoiled, spoiled);
    var tracked := if SetsField(f) then Track(first, ids) else first;
    assert spoiled - spoiled == {};
    assert TargetsLatest(tracked, {});
    NumberAllKeepsTargets(tracked, q.numbers[q.at..], b, q.now, {});
  }

  lemma PostKeepsTargets(s: State, q: Request)
    requires q.Post? && Fits(s, q) && TargetsLatest(s, {})
    ensures TargetsLatest(Serve(s, q), {})
    ensures SameStarts(s.releases[q.id := q.row], Serve(s, q).releases)
  {
    var inserted := s.(releases := s.releases[q.id := q.row]);
    forall a | a !in {} ensures SameTracking(s.releases, inserted.releases, a) {
      assert TrackableOf(inserted.releases, a) == TrackableOf(s.releases, a);
    }
    ChangesSpoilOnlyTheirApps(s, inserted.releases, {}, {});
    assert inserted == s.(releases := inserted.releases);
    var body := Body(Some(q.isFinal), None, None, None);
    NumberKeepsTargets(inserted, q.id, body, q.revision, q.now, {});
    var numbered := if q.isFinal then Number(inserted, q.id, body, q.revision, q.now) else inserted;
    TrackRepairs(numbered, {q.id}, {}, {});
    var none: set<AppId> := {};
    assert none - none == none;
  }

  // ---- runs ----

  ghost predicate AllFit(s: State, qs: seq<Request>)
    decreases |qs|
  {
    qs == [] || (Fits(s, qs[0]) && AllFit(Serve(s, qs[0]), qs[1..]))
  }

  ghost function ServeAll(s: State, qs: seq<Request>): State
    decreases |qs|
  {
    if qs == [] then s else ServeAll(Serve(s, qs[0]), qs[1..])
  }

  /**
    After any run of POSTs and PATCHes, every tracking application that owns a trackable release targets the one
    that started last, and start timestamps stay distinct, so there is only one such release.
   */
  lemma {:induction false} TargetIsLatestTrackable(s: State, qs: seq<Request>)
    requires TargetsLatest(s, {}) && DistinctStarts(s.releases) && AllFit(s, qs)
    ensures TargetsLatest(ServeAll(s, qs), {}) && DistinctStarts(ServeAll(s, qs).releases)
    decreases |qs|
  {
    if qs != [] {
      if qs[0].Post? {
        PostKeepsTargets(s, qs[0]);
        assert DistinctStarts(s.releases[qs[0].id := qs[0].row]);
      } else {
        PatchKeepsTargets(s, qs[0]);
      }
      TargetIsLatestTrackable(Serve(s, qs[0]), qs[1..]);
    }
  }

  // ---- in the fields of the rows ----

  /** What may be tracked: finalized, successful, passing its tests and not invalidated. */
  predicate CanBeTarget(t: map<Id, Tracked>, a: AppId, i: Id) {
    && i in t && t[i].release.app == a && t[i].release.revision != None
    && t[i].status == "success" && t[i].isPassingTests && !t[i].isInvalidated
  }

  /** After any run a tracking application targets the one of these releases that started last, if it has any. */
  lemma TargetStartedLast(s: State, qs: seq<Request>, a: AppId, i: Id)
    requires TargetsLatest(s, {}) && DistinctStarts(s.releases) && AllFit(s, qs)
    requires var end := ServeAll(s, qs); a in end.apps && end.apps[a].tracksLatest && CanBeTarget(end.releases, a, i)
    ensures var end := ServeAll(s, qs);
            && end.apps[a].target.Some? && CanBeTarget(end.releases, a, end.apps[a].target.value)
            && end.releases[i].start <= end.releases[end.apps[a].target.value].start
            && (i != end.apps[a].target.value ==> end.releases[i].start < end.releases[end.apps[a].target.value].start)
  {
    TargetIsLatestTrackable(s, qs);
    var end := ServeAll(s, qs);
    assert i in TrackableOf(end.releases, a);
    assert IsLatest(end.releases, a, end.apps[a].target.value);
  }

  /** The hook changes targets only: of tracking applications, that own one of the releases and have one to target. */
  lemma HookChangesOnly(s: State, ids: set<Id>, a: AppId)
    requires a in s.apps
    ensures var after := Track(s, ids);
            && after.releases == s.releases && after.apps.Keys == s.apps.Keys
            && after.apps[a].tracksLatest == s.apps[a].tracksLatest
            && (after.apps[a].target != s.apps[a].target ==>
                  && s.apps[a].tracksLatest && (exists i :: i in ids && i in s.releases && s.releases[i].release.app == a)
                  && after.apps[a].target.Some? && CanBeTarget(s.releases, a, after.apps[a].target.value))
  {
  }

  lemma {:induction false} NumberingKeepsUntracked(s: State, list: seq<(Id, nat)>, b: Body, now: int, a: AppId)
    requires a in s.apps && !s.apps[a].tracksLatest
    ensures var after := NumberAll(s, list, b, now); a in after.apps && after.apps[a] == s.apps[a]
    decreases |list|
  {
    if list != [] {
      NumberingKeepsUntracked(Number(s, list[0].0, b, list[0].1, now), list[1..], b, now, a);
    }
  }

  /** Over any run an application that does not track keeps its target. */
  lemma {:induction false} UntrackedKeepTarget(s: State, qs: seq<Request>, a: AppId)
    requires a in s.apps && !s.apps[a].tracksLatest
    ensures var end := ServeAll(s, qs); a in end.apps && end.apps[a] == s.apps[a]
    decreases |qs|
  {
    if qs != [] {
      UntrackedServed(s, qs[0], a);
      UntrackedKeepTarget(Serve(s, qs[0]), qs[1..], a);
    }
  }

  lemma UntrackedServed(s: State, q: Request, a: AppId)
    requires a in s.apps && !s.apps[a].tracksLatest
    ensures a in Serve(s, q).apps && Serve(s, q).apps[a] == s.apps[a]
  {
    if q.Patch? && q.at <= |q.numbers| {
      var cleared := Clear(s, FinalAmong(s.releases, q.ids, q.body));
      var updated := cleared.(releases := MainUpdate(cleared.releases, q.ids, q.body, q.fields));
      NumberingKeepsUntracked(updated, q.numbers[..q.at], q.body, q.now, a);
      var first := NumberAll(updated, q.numbers[..q.at], q.body, q.now);
      NumberingKeepsUntracked(if SetsField(q.fields) then Track(first, q.ids) else first, q.numbers[q.at..], q.body, q.now, a);
    }
  }

  /** The fields that a PATCH leaves in a row that it does not number; rows it does not affect stay. */
  lemma MainUpdateMeaning(t: map<Id, Tracked>, ids: set<Id>, b: Body, f: Fields, i: Id)
    requires i in t
    ensures var u := MainUpdate(t, ids, b, f);
            && i in u && u[i].start == t[i].start && u[i].release.revision == t[i].release.revision
            && (i !in ids ==> u[i] == t[i])
            && (i in ids ==>
                  && u[i].status == (if f.status.Some? then f.status.value else t[i].status)
                  && u[i].isPassingTests == (if f.isPassingTests.Some? then f.isPassingTests.value else t[i].isPassingTests)
                  && u[i].isInvalidated == (if f.isInvalidated.Some? then f.isInvalidated.value else t[i].isInvalidated)
                  && u[i].release.app == (if b.app.Some? then b.app.value else t[i].release.app))
  {
  }
}
