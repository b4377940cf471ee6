/**
  The release table and the pure parts of `release-versioning.ts`: which releases a PATCH selects, what the
  main UPDATE writes, how the next revision of a key is found, and the check of user-provided `revN` tags.
 */
module Releases {
  import opened Basics
  import opened Grouping
  import opened SemverText

  type Id = int
  type AppId = int

  datatype Release = Release(
    app: AppId,
    parts: Parts,
    variant: string,
    revision: Option<nat>,
    finalizedAt: Option<int>)

  /** The parts of a release within which revisions are numbered. */
  datatype Key = Key(app: AppId, major: nat, minor: nat, patch: nat, prerelease: string, variant: string)

  type Table = map<Id, Release>

  /** The fields of interest of a request body; `None` is a field the request does not set. */
  datatype Body = Body(isFinal: Option<bool>, semver: Option<SemVer>, app: Option<AppId>, variant: Option<string>)

  /** A release as the selection of a PATCH read it. */
  datatype Choice = Choice(id: Id, row: Release)

  function KeyOf(r: Release): Key {
    Key(r.app, r.parts.major, r.parts.minor, r.parts.patch, r.parts.prerelease, r.variant)
  }

  function KeyFor(app: AppId, v: SemVer, variant: string): Key {
    Key(app, v.major, v.minor, v.patch, Join(v.prerelease, '.'), variant)
  }

  predicate IsFinal(r: Release) {
    r.revision.Some?
  }

  // ---- revisions in use ----

  function RevisionsOf(t: Table, k: Key): set<nat> {
    set i | i in t && KeyOf(t[i]) == k && t[i].revision.Some? :: t[i].revision.value
  }

  /** One more than the greatest element, or 0 for the empty set. */
  function Above(used: set<nat>): (next: nat)
    ensures forall r :: r in used ==> r < next
    ensures next > 0 ==> next - 1 in used
  {
    if used == {} then 0
    else
      MaxExists(used);
      var top :| top in used && forall x :: x in used ==> x <= top;
      top + 1
  }

  /** One more than the greatest revision of the key, or 0 when the key has none. */
  function NextRevision(t: Table, k: Key): nat {
    Above(RevisionsOf(t, k))
  }

  /** The next revision is unused, and either the first or the successor of a used one. */
  lemma NextRevisionIsNext(t: Table, k: Key)
    ensures forall i :: i in t && KeyOf(t[i]) == k && t[i].revision.Some? ==> t[i].revision.value < NextRevision(t, k)
    ensures NextRevision(t, k) == 0 <==> forall i :: i in t && KeyOf(t[i]) == k ==> t[i].revision.None?
    ensures NextRevision(t, k) > 0 ==> NextRevision(t, k) - 1 in RevisionsOf(t, k)
  {
    forall i | i in t && KeyOf(t[i]) == k && t[i].revision.Some? ensures t[i].revision.value in RevisionsOf(t, k) {
    }
  }

  /** No two finalized releases share a key and a revision. */
  ghost predicate Unique(t: Table) {
    forall i, j :: i in t && j in t && i != j && IsFinal(t[i]) && IsFinal(t[j]) && KeyOf(t[i]) == KeyOf(t[j])
      ==> t[i].revision != t[j].revision
  }

  // ---- user-provided revision tags ----

  /** The build identifiers that match `^rev(\d+)$`. */
  predicate IsRevisionTag(b: string) {
    |b| > 3 && b[..3] == "rev" && AllDigits(b[3..])
  }

  /** `checkNotDifferentRevision` does not throw. */
  predicate BuildAgrees(build: seq<string>, revision: nat) {
    forall b :: b in build && IsRevisionTag(b) ==> b[3..] == ToDecimal(revision)
  }

  /** The tags that count are `rev` followed by one or more digits, whatever the digits are. */
  lemma BuildAgreesIff(build: seq<string>, revision: nat)
    ensures BuildAgrees(build, revision)
       <==> forall d :: d != "" && AllDigits(d) && "rev" + d in build ==> d == ToDecimal(revision)
  {
    forall d: string ensures d != "" && AllDigits(d) <==> IsRevisionTag("rev" + d) {
      assert ("rev" + d)[..3] == "rev" && ("rev" + d)[3..] == d;
    }
    forall b: string | IsRevisionTag(b) ensures b == "rev" + b[3..] {
    }
  }

  /** Every `revN` tag in the build of a finalized release names its revision. */
  predicate TagsAgree(r: Release) {
    r.revision.Some? ==> BuildAgrees(Identifiers(r.parts.build), r.revision.value)
  }

  // ---- what a PATCH selects and writes ----

  /** A finalized release of which the body changes a part of the key. */
  predicate ChangesKey(r: Release, b: Body) {
    && r.revision.Some?
    && (|| (b.semver.Some? && !(&& r.parts.major == b.semver.value.major
                                && r.parts.minor == b.semver.value.minor
                                && r.parts.patch == b.semver.value.patch
                                && r.parts.prerelease == Join(b.semver.value.prerelease, '.')))
        || (b.app.Some? && r.app != b.app.value)
        || (b.variant.Some? && r.variant != b.variant.value))
  }

  predicate Selects(r: Release, b: Body) {
    (b.isFinal == Some(true) && r.revision.None?) || ChangesKey(r, b)
  }

  function Cleared(r: Release): Release {
    r.(revision := None)
  }

  /** The main UPDATE of a PATCH. */
  function Updated(r: Release, b: Body): Release {
    r.(app := b.app.GetOr(r.app), parts := if b.semver.Some? then Stored(b.semver.value) else r.parts,
       variant := b.variant.GetOr(r.variant))
  }

  /** The nested PATCH that assigns a revision. */
  function Numbered(r: Release, b: Body, revision: nat, now: int): Release {
    r.(revision := Some(revision),
       finalizedAt := if b.isFinal == Some(true) && r.finalizedAt.None? then Some(now) else r.finalizedAt)
  }

  /** The version from which the key of a selected release is derived: the body's, or the printed one parsed back. */
  function NumberingVersion(c: Choice, b: Body): Option<SemVer> {
    if b.semver.Some? then b.semver else Parse(PrintSemver(c.row.parts))
  }

  /** A version that came out of the parser and fits the columns. */
  predicate Storable(v: SemVer) {
    ValidParts(Stored(v)) && Restored(Stored(v)) == v
  }

  predicate ValidBody(b: Body) {
    b.semver.Some? ==> Storable(b.semver.value)
  }

  lemma ParsedBodyIsValid(text: string, b: Body)
    requires b.semver == Parse(text)
    requires b.semver.Some? ==> |Stored(b.semver.value).prerelease| <= MAX_PRERELEASE && |Stored(b.semver.value).build| <= MAX_BUILD
    ensures ValidBody(b)
  {
    if b.semver.Some? {
      ParsedVersionsAreStorable(text);
    }
  }

  /** The parts of a row within which revisions are numbered. */
  predicate SameKeyParts(r: Release, q: Release) {
    && r.app == q.app && r.variant == q.variant && r.parts.major == q.parts.major && r.parts.minor == q.parts.minor
    && r.parts.patch == q.parts.patch && r.parts.prerelease == q.parts.prerelease
  }

  /** The selection of a PATCH: drafts that it finalizes, and finalized releases whose key it changes. */
  lemma SelectsIff(r: Release, b: Body)
    ensures Selects(r, b) <==> if r.revision.None? then b.isFinal == Some(true) else !SameKeyParts(r, Updated(r, b))
  {
  }

  lemma ChangesKeyIff(r: Release, b: Body)
    ensures ChangesKey(r, b) <==> r.revision.Some? && !SameKeyParts(r, Updated(r, b))
  {
  }

  lemma SameKeyIff(r: Release, q: Release)
    ensures KeyOf(r) == KeyOf(q) <==> SameKeyParts(r, q)
  {
  }

  /** A release that a PATCH does not select keeps its key when it is finalized. */
  lemma UnselectedKeepsKey(r: Release, b: Body)
    requires r.revision.Some? && !Selects(r, b)
    ensures KeyOf(Updated(r, b)) == KeyOf(r)
  {
  }

  /**
    The key and the build under which a selected release is numbered are those the main UPDATE left in its row,
    even when they are read back from the printed version.
   */
  lemma NumberingMatchesRow(c: Choice, b: Body)
    requires ValidParts(c.row.parts) && ValidBody(b)
    ensures NumberingVersion(c, b).Some?
    ensures var v := NumberingVersion(c, b).value; var row := Updated(c.row, b);
            KeyFor(row.app, v, row.variant) == KeyOf(row) && v.build == Identifiers(row.parts.build)
  {
    SemverRoundTrip(c.row.parts);
  }

  // ---- groups of selected releases ----

  /** A group shares an application and a variant. */
  datatype Group = Group(app: AppId, variant: string, choices: seq<Choice>)

  function AppOf(c: Choice): AppId {
    c.row.app
  }

  function VariantOf(c: Choice): string {
    c.row.variant
  }

  /** By patched application, or by the application of each release; nothing selected means no groups. */
  function ByApp(selected: seq<Choice>, b: Body): seq<(AppId, seq<Choice>)> {
    if selected == [] then []
    else if b.app.Some? then [(b.app.value, selected)]
    else Grouped(selected, AppOf)
  }

  function ByVariant(choices: seq<Choice>, b: Body): seq<(string, seq<Choice>)> {
    if b.variant.Some? then [(b.variant.value, choices)] else Grouped(choices, VariantOf)
  }

  function VariantGroups(app: AppId, variants: seq<(string, seq<Choice>)>): seq<Group> {
    if variants == [] then []
    else [Group(app, variants[0].0, variants[0].1)] + VariantGroups(app, variants[1..])
  }

  function GroupsOfApps(apps: seq<(AppId, seq<Choice>)>, b: Body): seq<Group> {
    if apps == [] then []
    else VariantGroups(apps[0].0, ByVariant(apps[0].1, b)) + GroupsOfApps(apps[1..], b)
  }

  function Groups(selected: seq<Choice>, b: Body): seq<Group> {
    GroupsOfApps(ByApp(selected, b), b)
  }

  /** The group label of a selected release after the main UPDATE. */
  function LabelOf(c: Choice, b: Body): (AppId, string) {
    (b.app.GetOr(c.row.app), b.variant.GetOr(c.row.variant))
  }

  /** The selected releases with a given label, in selection order. */
  function InGroup(selected: seq<Choice>, b: Body, place: (AppId, string)): seq<Choice> {
    if selected == [] then []
    else (if LabelOf(selected[0], b) == place then [selected[0]] else []) + InGroup(selected[1..], b, place)
  }

  lemma {:induction false} InGroupMembers(selected: seq<Choice>, b: Body, place: (AppId, string))
    ensures forall c :: c in InGroup(selected, b, place) <==> c in selected && LabelOf(c, b) == place
    ensures Distinct(selected) ==> Distinct(InGroup(selected, b, place))
  {
    if selected != [] {
      var head, tail := selected[0], selected[1..];
      InGroupMembers(tail, b, place);
      assert selected == [head] + tail;
      var rest := InGroup(tail, b, place);
      if Distinct(selected) {
        assert Distinct(tail);
        forall j | 0 <= j < |rest| ensures rest[j] != head {
          assert rest[j] in rest;
        }
      }
    }
  }

  /** Grouping by application and then by variant is grouping by label. */
  lemma {:induction false} TwoLevels(selected: seq<Choice>, b: Body, app: AppId, variant: string)
    ensures b.app.None? && b.variant.None?
        ==> WithKey(WithKey(selected, AppOf, app), VariantOf, variant) == InGroup(selected, b, (app, variant))
    ensures b.app.None? && b.variant == Some(variant) ==> WithKey(selected, AppOf, app) == InGroup(selected, b, (app, variant))
    ensures b.app == Some(app) && b.variant.None? ==> WithKey(selected, VariantOf, variant) == InGroup(selected, b, (app, variant))
    ensures b.app == Some(app) && b.variant == Some(variant) ==> selected == InGroup(selected, b, (app, variant))
  {
    if selected != [] {
      TwoLevels(selected[1..], b, app, variant);
      var rest := WithKey(selected[1..], AppOf, app);
      assert ([selected[0]] + rest)[1..] == rest && [] + rest == rest;
    }
  }

  ghost predicate LabelsDistinct(groups: seq<Group>) {
    forall i, j :: 0 <= i < j < |groups| ==> (groups[i].app, groups[i].variant) != (groups[j].app, groups[j].variant)
  }

  /** Distinct labels; every group holds the selected releases with its label, in order; nothing selected is left out. */
  ghost predicate AreGroupsOf(groups: seq<Group>, selected: seq<Choice>, b: Body) {
    && LabelsDistinct(groups)
    && (forall j :: 0 <= j < |groups| ==> groups[j].choices == InGroup(selected, b, (groups[j].app, groups[j].variant)))
    && (forall c :: c in selected ==> HasLabel(groups, LabelOf(c, b)))
  }

  lemma {:induction false} VariantGroupsAt(app: AppId, variants: seq<(string, seq<Choice>)>)
    ensures var gs := VariantGroups(app, variants); |gs| == |variants|
    ensures forall j | 0 <= j < |variants| :: VariantGroups(app, variants)[j] == Group(app, variants[j].0, variants[j].1)
  {
    if variants != [] {
      VariantGroupsAt(app, variants[1..]);
    }
  }

  predicate HasApp(apps: seq<(AppId, seq<Choice>)>, app: AppId) {
    exists k :: 0 <= k < |apps| && apps[k].0 == app
  }

  /** The applications as the outer grouping leaves them. */
  ghost predicate AreAppGroups(selected: seq<Choice>, b: Body, apps: seq<(AppId, seq<Choice>)>) {
    && KeysDistinct(apps)
    && (forall j :: 0 <= j < |apps| ==> apps[j].1 == if b.app.Some? then selected else WithKey(selected, AppOf, apps[j].0))
    && (forall j :: 0 <= j < |apps| ==> b.app.Some? ==> apps[j].0 == b.app.value)
  }

  lemma ByAppFacts(selected: seq<Choice>, b: Body)
    ensures AreAppGroups(selected, b, ByApp(selected, b))
    ensures forall c :: c in selected ==> HasApp(ByApp(selected, b), LabelOf(c, b).0)
  {
    GroupedIsPartition(selected, AppOf);
    if selected != [] && b.app.Some? {
      assert ByApp(selected, b)[0].0 == b.app.value;
    }
    var apps := ByApp(selected, b);
    forall c | c in selected ensures HasApp(apps, LabelOf(c, b).0) {
      if b.app.None? {
        var j :| 0 <= j < |apps| && apps[j].0 == AppOf(c);
        assert apps[j].0 == LabelOf(c, b).0;
      }
    }
  }

  /** The groups of one application. */
  lemma AppGroups(selected: seq<Choice>, b: Body, app: AppId, choices: seq<Choice>)
    requires choices == if b.app.Some? then selected else WithKey(selected, AppOf, app)
    requires b.app.Some? ==> app == b.app.value
    ensures var gs := VariantGroups(app, ByVariant(choices, b));
            && LabelsDistinct(gs)
            && (forall j :: 0 <= j < |gs| ==> gs[j].app == app && gs[j].choices == InGroup(selected, b, (app, gs[j].variant)))
            && (forall c | c in selected && LabelOf(c, b).0 == app ::
                  exists j :: 0 <= j < |gs| && gs[j].variant == LabelOf(c, b).1)
  {
    var variants := ByVariant(choices, b);
    var gs := VariantGroups(app, variants);
    VariantGroupsAt(app, variants);
    GroupedIsPartition(choices, VariantOf);
    forall j | 0 <= j < |gs| ensures gs[j].app == app && gs[j].choices == InGroup(selected, b, (app, gs[j].variant)) {
      TwoLevels(selected, b, app, gs[j].variant);
    }
    forall c | c in selected && LabelOf(c, b).0 == app ensures exists j :: 0 <= j < |gs| && gs[j].variant == LabelOf(c, b).1 {
      if b.app.None? {
        WithKeyMembers(selected, AppOf, app);
      }
      assert c in choices;
      if b.variant.None? {
        var j :| 0 <= j < |variants| && variants[j].0 == VariantOf(c);
        assert gs[j].variant == LabelOf(c, b).1;
      } else {
        assert gs[0].variant == LabelOf(c, b).1;
      }
    }
  }

  ghost predicate HoldTheirLabel(gs: seq<Group>, selected: seq<Choice>, b: Body) {
    forall j :: 0 <= j < |gs| ==> gs[j].choices == InGroup(selected, b, (gs[j].app, gs[j].variant))
  }

  predicate HasLabel(gs: seq<Group>, l: (AppId, string)) {
    exists j :: 0 <= j < |gs| && (gs[j].app, gs[j].variant) == l
  }

  lemma HasLabelInEither(first: seq<Group>, rest: seq<Group>, l: (AppId, string))
    ensures HasLabel(first, l) || HasLabel(rest, l) ==> HasLabel(first + rest, l)
  {
    var gs := first + rest;
    if HasLabel(first, l) {
      var j :| 0 <= j < |first| && (first[j].app, first[j].variant) == l;
      assert gs[j] == first[j];
    } else if HasLabel(rest, l) {
      var j :| 0 <= j < |rest| && (rest[j].app, rest[j].variant) == l;
      assert gs[|first| + j] == rest[j];
    }
  }

  /** The groups of the first application, which are its own. */
  lemma FirstGroups(selected: seq<Choice>, b: Body, apps: seq<(AppId, seq<Choice>)>)
    requires AreAppGroups(selected, b, apps) && apps != []
    ensures var first := VariantGroups(apps[0].0, ByVariant(apps[0].1, b));
            && HoldTheirLabel(first, selected, b) && LabelsDistinct(first)
            && (forall j :: 0 <= j < |first| ==> first[j].app == apps[0].0)
    ensures AreAppGroups(selected, b, apps[1..])
  {
    AppGroups(selected, b, apps[0].0, apps[0].1);
  }

  lemma FirstGroupsCover(selected: seq<Choice>, b: Body, apps: seq<(AppId, seq<Choice>)>, c: Choice)
    requires AreAppGroups(selected, b, apps) && apps != [] && c in selected && LabelOf(c, b).0 == apps[0].0
    ensures HasLabel(VariantGroups(apps[0].0, ByVariant(apps[0].1, b)), LabelOf(c, b))
  {
    AppGroups(selected, b, apps[0].0, apps[0].1);
    var first := VariantGroups(apps[0].0, ByVariant(apps[0].1, b));
    var j :| 0 <= j < |first| && first[j].variant == LabelOf(c, b).1;
    assert (first[j].app, first[j].variant) == LabelOf(c, b);
  }

  lemma {:induction false} GroupsOfAppsHold(selected: seq<Choice>, b: Body, apps: seq<(AppId, seq<Choice>)>)
    requires AreAppGroups(selected, b, apps)
    ensures HoldTheirLabel(GroupsOfApps(apps, b), selected, b)
  {
    if apps != [] {
      FirstGroups(selected, b, apps);
      GroupsOfAppsHold(selected, b, apps[1..]);
    }
  }

  lemma {:induction false} GroupsOfAppsDiffer(selected: seq<Choice>, b: Body, apps: seq<(AppId, seq<Choice>)>)
    requires AreAppGroups(selected, b, apps)
    ensures LabelsDistinct(GroupsOfApps(apps, b))
    ensures forall j :: 0 <= j < |GroupsOfApps(apps, b)| ==> HasApp(apps, GroupsOfApps(apps, b)[j].app)
  {
    if apps != [] {
      FirstGroups(selected, b, apps);
      GroupsOfAppsDiffer(selected, b, apps[1..]);
      LabelsStayDistinct(apps, VariantGroups(apps[0].0, ByVariant(apps[0].1, b)), GroupsOfApps(apps[1..], b));
    }
  }

  /** Every selected release of one of the applications has its group. */
  lemma {:induction false} GroupsOfAppsCover(selected: seq<Choice>, b: Body, apps: seq<(AppId, seq<Choice>)>, c: Choice)
    requires AreAppGroups(selected, b, apps) && c in selected && HasApp(apps, LabelOf(c, b).0)
    ensures HasLabel(GroupsOfApps(apps, b), LabelOf(c, b))
  {
    FirstGroups(selected, b, apps);
    if LabelOf(c, b).0 == apps[0].0 {
      FirstGroupsCover(selected, b, apps, c);
    } else {
      var k :| 0 <= k < |apps| && apps[k].0 == LabelOf(c, b).0;
      assert apps[1..][k - 1] == apps[k];
      GroupsOfAppsCover(selected, b, apps[1..], c);
    }
    HasLabelInEither(VariantGroups(apps[0].0, ByVariant(apps[0].1, b)), GroupsOfApps(apps[1..], b), LabelOf(c, b));
  }

  lemma LabelsStayDistinct(apps: seq<(AppId, seq<Choice>)>, first: seq<Group>, rest: seq<Group>)
    requires apps != [] && KeysDistinct(apps)
    requires LabelsDistinct(first) && LabelsDistinct(rest)
    requires forall j :: 0 <= j < |first| ==> first[j].app == apps[0].0
    requires forall j :: 0 <= j < |rest| ==> HasApp(apps[1..], rest[j].app)
    ensures LabelsDistinct(first + rest)
    ensures forall j :: 0 <= j < |first + rest| ==> HasApp(apps, (first + rest)[j].app)
  {
    var gs := first + rest;
    forall j | 0 <= j < |rest| ensures rest[j].app != apps[0].0 && HasApp(apps, rest[j].app) {
      var k :| 0 <= k < |apps[1..]| && apps[1..][k].0 == rest[j].app;
      assert apps[k + 1].0 == rest[j].app;
    }
    forall j | 0 <= j < |gs| ensures HasApp(apps, gs[j].app) {
      assert j < |first| ==> apps[0].0 == gs[j].app;
    }
    forall i, j | 0 <= i < j < |gs| ensures (gs[i].app, gs[i].variant) != (gs[j].app, gs[j].variant) {
      assert i >= |first| ==> gs[i] == rest[i - |first|];
    }
  }

  /** The nested grouping of the PATCH hook is a partition of the selection by label. */
  lemma GroupsFacts(selected: seq<Choice>, b: Body)
    ensures AreGroupsOf(Groups(selected, b), selected, b)
    ensures forall j | 0 <= j < |Groups(selected, b)| :: HasApp(ByApp(selected, b), Groups(selected, b)[j].app)
  {
    ByAppFacts(selected, b);
    GroupsOfAppsHold(selected, b, ByApp(selected, b));
    GroupsOfAppsDiffer(selected, b, ByApp(selected, b));
    forall c | c in selected ensures HasLabel(Groups(selected, b), LabelOf(c, b)) {
      GroupsOfAppsCover(selected, b, ByApp(selected, b), c);
    }
  }
}
