/**
  The release hooks of one request, as the code runs them on its transaction's view of the table, proved against
  one-by-one numbering. A method that returns false has thrown, and the transaction is rolled back.
 */
module ReleaseHooks {
  import opened Basics
  import opened Grouping
  import opened Releases
  import opened Renumbering
  import Protocol = RevisionProtocol
  import opened ReleaseWrites
  import opened ReleaseSelection
  import opened SemverText

  /** No assigned revision contradicts a `revN` tag of its release. */
  ghost predicate AllTagsAgree(t: Table, b: Body, ids: seq<Id>, now: int) {
    forall n :: 0 <= n < |ids| ==> TagsAgreeAt(t, b, ids, now, n)
  }

  ghost predicate TagsAgreeAt(t: Table, b: Body, ids: seq<Id>, now: int, n: nat)
    requires n < |ids|
  {
    ids[n] in Renumber(t, b, ids, now) && TagsAgree(Renumber(t, b, ids, now)[ids[n]])
  }

  ghost predicate AwaitInGroup(t: Table, choices: seq<Choice>, b: Body, app: AppId, variant: string) {
    AwaitNumbers(t, choices, b) && forall c :: c in choices ==> LabelOf(c, b) == (app, variant)
  }

  /** No finalized release is asked to be a draft, except one whose revision was taken away before the check. */
  predicate StaysFinal(t: Table, ids: set<Id>, b: Body, checkFirst: bool) {
    b.isFinal == Some(false) ==>
      forall i :: i in ids && i in t && t[i].revision.Some? ==> !checkFirst && !SameKeyParts(t[i], Updated(t[i], b))
  }

  lemma FiltersSelect(drafts: seq<Filter>, keys: seq<Filter>, b: Body)
    requires drafts == if b.isFinal == Some(true) then [IsDraft] else []
    requires forall r :: MatchesAny(keys, r) <==> r.revision.Some? && !SameKeyParts(r, Updated(r, b))
    ensures forall r :: MatchesAny(drafts + keys, r) <==> Selects(r, b)
  {
    forall r ensures MatchesAny(drafts + keys, r) <==> Selects(r, b) {
      ChangesKeyIff(r, b);
      MatchesEither(drafts, keys, r);
      MatchesMore([], IsDraft, r);
      assert [] + [IsDraft] == [IsDraft];
    }
  }

  lemma QueryIsSelection(rows: seq<Choice>, t: Table, ids: set<Id>, filters: seq<Filter>, b: Body)
    requires Protocol.IdsDistinct(rows) && InOrder(rows) && forall r :: MatchesAny(filters, r) <==> Selects(r, b)
    requires forall c :: c in rows <==> c.id in ids && c.id in t && c.row == t[c.id] && MatchesAny(filters, c.row)
    ensures Protocol.IsSelection(rows, t, ids, b) && ChoosesThem(rows, t, ids, b)
  {
    forall i | i in ids && i in t && Selects(t[i], b) ensures i in Protocol.IdsOf(rows) {
      assert Choice(i, t[i]) in rows;
    }
    SelectionMeaning(rows, t, ids, b);
  }

  /** Without a release that the body selects, nothing is selected and nothing cleared. */
  lemma NothingSelected(t: Table, ids: set<Id>, b: Body)
    requires forall i :: i in ids && i in t ==> !Selects(t[i], b)
    ensures Protocol.IsSelection([], t, ids, b) && ChoosesThem([], t, ids, b)
    ensures t + Protocol.ClearedRows(t, []) == t
  {
    SelectionMeaning([], t, ids, b);
    assert forall i :: i !in Protocol.IdsOf([]);
    assert Protocol.ClearedRows(t, []).Keys == {};
  }

  /** A body that sets no part of the key selects drafts only. */
  lemma DraftsHaveNothingToClear(t: Table, ids: set<Id>, rows: seq<Choice>, b: Body)
    requires Protocol.IsSelection(rows, t, ids, b) && b.semver.None? && b.app.None? && b.variant.None?
    ensures t + Protocol.ClearedRows(t, rows) == t
  {
    forall i | i in Protocol.IdsOf(rows) && i in t ensures !IsFinal(t[i]) {
      var c :| c in rows && c.id == i;
    }
  }

  class ReleaseRequest {
    /** The transaction's view of the release table. */
    var releases: Table
    /** `custom.releasesToSetRevision`. */
    var selected: seq<Choice>

    constructor (table: Table)
      ensures releases == table && selected == []
    {
      releases, selected := table, [];
    }

    /**
      PRERUN: build the filters, query, keep the selection, and if a part of the key is patched take the revisions of
      the selected releases away.
     */
    method SetReleasesToSetRevision(ids: set<Id>, b: Body)
      requires selected == []
      modifies this
      ensures Protocol.IsSelection(selected, old(releases), ids, b)
      ensures releases == old(releases) + Protocol.ClearedRows(old(releases), selected)
      ensures ChoosesThem(selected, old(releases), ids, b)
    {
      var filters := [];
      if b.isFinal == Some(true) {
        filters := filters + [IsDraft];
      }
      ghost var drafts := filters;
      var uniqueConstraintPartFilters := UniqueConstraintPartFilters(b);
      filters := filters + uniqueConstraintPartFilters;
      FiltersSelect(drafts, uniqueConstraintPartFilters, b);
      if |filters| == 0 {
        NothingSelected(releases, ids, b);
        return;
      }
      if ids == {} {
        NothingSelected(releases, ids, b);
        return;
      }
      var releasesToSetRevision := Query(releases, ids, filters);
      QueryIsSelection(releasesToSetRevision, releases, ids, filters, b);
      if |releasesToSetRevision| == 0 {
        NothingSelected(releases, ids, b);
        return;
      }
      selected := releasesToSetRevision;
      if |uniqueConstraintPartFilters| == 0 {
        DraftsHaveNothingToClear(releases, ids, selected, b);
        return;
      }
      TakeRevisionsAway();
    }

    /** The nested PATCH of the selected releases that have a revision. */
    method TakeRevisionsAway()
      modifies this`releases
      ensures releases == old(releases) + Protocol.ClearedRows(old(releases), selected)
    {
      releases := map i | i in releases ::
        if i in Protocol.IdsOf(selected) && releases[i].revision.Some? then Cleared(releases[i]) else releases[i];
    }

    /** PRERUN: false when the body asks for a draft and an affected release is finalized. */
    method PreventChangingFinalToDraft(ids: set<Id>, b: Body) returns (ok: bool)
      ensures ok <==> b.isFinal == Some(false) ==> forall i :: i in ids && i in releases ==> releases[i].revision.None?
    {
      if b.isFinal != Some(false) {
        return true;
      }
      var finalized := set i | i in ids && i in releases && releases[i].revision.Some?;
      ok := finalized == {};
      if forall i :: i in ids && i in releases ==> releases[i].revision.None? {
        assert finalized == {};
      } else {
        var i :| i in ids && i in releases && releases[i].revision.Some?;
        assert i in finalized;
      }
    }

    /** One group of a PATCH that sets the version: read the next revision once, check all, then write all. */
    method NumberWithVersion(app: AppId, variant: string, choices: seq<Choice>, b: Body, now: int) returns (ok: bool)
      requires AwaitInGroup(releases, choices, b, app, variant) && ValidBody(b) && b.semver.Some?
      modifies this`releases
      ensures ok <==> AllTagsAgree(old(releases), b, IdsIn(choices), now)
      ensures ok ==> releases == Renumber(old(releases), b, IdsIn(choices), now)
    {
      ghost var t := releases;
      IdsInFacts(choices);
      var v := b.semver.value;
      var next := NextRevision(releases, KeyFor(app, v, variant));
      for index := 0 to |choices|
        invariant releases == t
        invariant forall k :: 0 <= k < index ==> TagsAgreeAt(t, b, IdsIn(choices), now, k)
      {
        SharedKeyTurn(t, choices, b, app, variant, now, index);
        if !BuildAgrees(v.build, next + index) {
          return false;
        }
      }
      for index := 0 to |choices|
        invariant releases == Renumber(t, b, IdsIn(choices[..index]), now)
      {
        NextInBatch(t, releases, choices, b, app, variant, now, index);
        var id := choices[index].id;
        releases := releases[id := Numbered(releases[id], b, next + index, now)];
      }
      assert choices[..|choices|] == choices;
      return true;
    }

    /** One group of a PATCH that keeps the versions: read, check and write release by release. */
    method NumberOneByOne(app: AppId, variant: string, choices: seq<Choice>, b: Body, now: int) returns (ok: bool)
      requires AwaitInGroup(releases, choices, b, app, variant) && ValidBody(b) && b.semver.None?
      modifies this`releases
      ensures ok <==> AllTagsAgree(old(releases), b, IdsIn(choices), now)
      ensures ok ==> releases == Renumber(old(releases), b, IdsIn(choices), now)
    {
      ghost var t := releases;
      IdsInFacts(choices);
      for n := 0 to |choices|
        invariant releases == Renumber(t, b, IdsIn(choices[..n]), now)
        invariant forall k :: 0 <= k < n ==> TagsAgreeAt(t, b, IdsIn(choices), now, k)
      {
        ok := NumberNext(app, variant, choices, n, b, now, t);
        if !ok {
          return;
        }
      }
      assert choices[..|choices|] == choices;
      return true;
    }

    /** The body of the loop over releases that keep their versions. */
    method NumberNext(app: AppId, variant: string, choices: seq<Choice>, n: nat, b: Body, now: int, ghost t: Table)
      returns (ok: bool)
      requires AwaitInGroup(t, choices, b, app, variant) && ValidBody(b) && b.semver.None? && n < |choices|
      requires releases == Renumber(t, b, IdsIn(choices[..n]), now)
      modifies this`releases
      ensures |IdsIn(choices)| == |choices|
      ensures ok <==> TagsAgreeAt(t, b, IdsIn(choices), now, n)
      ensures ok ==> releases == Renumber(t, b, IdsIn(choices[..n + 1]), now)
    {
      var release := choices[n];
      NextOneByOne(t, releases, choices, b, app, variant, now, n);
      var v := Parse(PrintSemver(release.row.parts));
      if v.None? {
        assert false;
      }
      var next := NextRevision(releases, KeyFor(app, v.value, variant));
      if !BuildAgrees(v.value.build, next) {
        return false;
      }
      releases := releases[release.id := Numbered(releases[release.id], b, next, now)];
      return true;
    }

    /** POSTRUN of a PATCH: by application, then by variant, number what was selected. */
    method NumberSelection(b: Body, now: int) returns (ok: bool)
      requires AwaitNumbers(releases, selected, b) && ValidBody(b)
      modifies this`releases
      ensures ok <==> AllTagsAgree(old(releases), b, IdsIn(selected), now)
      ensures ok ==> releases == Renumber(old(releases), b, IdsIn(selected), now)
    {
      ghost var t := releases;
      ghost var done: seq<Group> := [];
      var apps: seq<(AppId, seq<Choice>)> := [];
      if selected != [] {
        if b.app.Some? {
          apps := [(b.app.value, selected)];
        } else {
          apps := GroupByMap(selected, AppOf);
        }
      }
      assert apps == ByApp(selected, b);
      for a := 0 to |apps|
        invariant done == GroupsOfApps(apps[..a], b)
        invariant NumberedSoFar(t, releases, b, done, now)
      {
        var (app, releasesOfApp) := apps[a];
        ghost var before := done;
        ok, done := NumberApp(t, apps, a, done, b, now);
        if !ok {
          return;
        }
      }
      assert apps[..|apps|] == apps;
      AllNumbered(t, releases, selected, b, now);
      return true;
    }

    /** The body of the loop over applications. */
    method NumberApp(ghost t: Table, apps: seq<(AppId, seq<Choice>)>, a: nat, ghost before: seq<Group>, b: Body, now: int)
      returns (ok: bool, ghost done: seq<Group>)
      requires AwaitNumbers(t, selected, b) && ValidBody(b) && apps == ByApp(selected, b) && a < |apps|
      requires before == GroupsOfApps(apps[..a], b) && NumberedSoFar(t, releases, b, before, now)
      modifies this`releases
      ensures ok ==> done == GroupsOfApps(apps[..a + 1], b) && NumberedSoFar(t, releases, b, done, now)
      ensures !ok ==> !AllTagsAgree(t, b, IdsIn(selected), now)
    {
      var (app, releasesOfApp) := apps[a];
      var variants;
      if b.variant.Some? {
        variants := [(b.variant.value, releasesOfApp)];
      } else {
        variants := GroupByMap(releasesOfApp, VariantOf);
      }
      assert variants == ByVariant(releasesOfApp, b);
      done := before;
      for v := 0 to |variants|
        invariant done == before + VariantGroups(app, variants[..v])
        invariant NumberedSoFar(t, releases, b, done, now)
      {
        ghost var g := Group(app, variants[v].0, variants[v].1);
        NextInLine(apps, a, variants, v, b, done);
        NextGroupWaits(t, releases, selected, b, now, done, g);
        NextGroupCounts(t, releases, selected, b, now, done, g);
        if b.semver.Some? {
          ok := NumberWithVersion(app, variants[v].0, variants[v].1, b, now);
        } else {
          ok := NumberOneByOne(app, variants[v].0, variants[v].1, b, now);
        }
        if !ok {
          return;
        }
        done := done + [g];
      }
      assert variants[..|variants|] == variants;
      GroupsOfAppsStep(apps, a, b);
      ok := true;
    }

    /** A whole PATCH; the two PRERUN checks may run in either order. */
    method Patch(ids: set<Id>, b: Body, checkFirst: bool, now: int) returns (ok: bool)
      requires Unique(releases) && Protocol.ValidRows(releases) && ids <= releases.Keys && ValidBody(b) && selected == []
      modifies this
      ensures forall rows :: Protocol.IsSelection(rows, old(releases), ids, b) ==>
                (ok <==> StaysFinal(old(releases), ids, b, checkFirst)
                         && AllTagsAgree(AfterUpdate(old(releases), ids, rows, b), b, IdsIn(rows), now))
      ensures ok ==> Protocol.IsSelection(selected, old(releases), ids, b)
      ensures ok ==> releases == Renumber(AfterUpdate(old(releases), ids, selected, b), b, IdsIn(selected), now)
      ensures ok ==> Unique(releases)
      ensures ok ==> PatchLeaves(old(releases), releases, ids, b, now)
      ensures ok ==> forall i :: i in ids
                       ==> i in releases && (IsFinal(releases[i]) <==> b.isFinal == Some(true) || IsFinal(old(releases)[i]))
    {
      ghost var t := releases;
      ok := RunPrerun(ids, b, checkFirst);
      if !ok {
        return;
      }
      UpdatedSelection(t, ids, selected, b);
      FinalAfterwards(t, ids, selected, b, now);
      PatchMeaning(t, ids, selected, b, now);
      releases := releases + Protocol.UpdatedRows(releases, ids, b);
      assert releases == AfterUpdate(t, ids, selected, b);
      ok := NumberSelection(b, now);
      forall rows | Protocol.IsSelection(rows, t, ids, b) ensures rows == selected {
        SelectionIsUnique(rows, selected, t, ids, b);
      }
    }

    /** Both PRERUN hooks. */
    method RunPrerun(ids: set<Id>, b: Body, checkFirst: bool) returns (ok: bool)
      requires ids <= releases.Keys && selected == []
      modifies this
      ensures ok <==> StaysFinal(old(releases), ids, b, checkFirst)
      ensures ok ==> Protocol.IsSelection(selected, old(releases), ids, b)
      ensures ok ==> releases == old(releases) + Protocol.ClearedRows(old(releases), selected)
    {
      ghost var t := releases;
      if checkFirst {
        ok := PreventChangingFinalToDraft(ids, b);
        if ok {
          SetReleasesToSetRevision(ids, b);
        }
      } else {
        SetReleasesToSetRevision(ids, b);
        ok := PreventChangingFinalToDraft(ids, b);
        forall i | i in ids
          ensures i in releases && (b.isFinal == Some(false) ==> (releases[i].revision.Some? <==> t[i].revision.Some? && !ChangesKey(t[i], b)))
        {
          ClearedWhenSelected(t, ids, selected, b, i);
        }
      }
    }

    /** A whole POST: the row is inserted as a draft and numbered unless the body asks for a draft. */
    method Post(id: Id, app: AppId, semver: SemVer, variant: string, isFinal: bool, now: int) returns (ok: bool)
      requires Unique(releases) && id !in releases && Storable(semver)
      modifies this`releases
      ensures ok <==> isFinal ==> BuildAgrees(semver.build, NextRevision(old(releases), KeyFor(app, semver, variant)))
      ensures ok ==>
                releases == old(releases)[id := Release(app, Stored(semver), variant,
                  if isFinal then Some(NextRevision(old(releases), KeyFor(app, semver, variant))) else None,
                  if isFinal then Some(now) else None)]
      ensures ok ==> Unique(releases)
      ensures ok ==> PostLeaves(old(releases), releases, id, app, semver, variant, isFinal, now)
    {
      ghost var t := releases;
      PostMeaning(t, id, app, semver, variant, isFinal, now);
      releases := releases[id := Release(app, Stored(semver), variant, None, None)];
      if !isFinal {
        return true;
      }
      var key := KeyFor(app, semver, variant);
      InsertedDraft(t, id, releases[id], key);
      var revision := NextRevision(releases, key);
      if !BuildAgrees(semver.build, revision) {
        return false;
      }
      releases := releases[id := releases[id].(revision := Some(revision), finalizedAt := Some(now))];
      NextRevisionIsNext(t, key);
      return true;
    }
  }

  /** An inserted draft does not change the next revision. */
  lemma InsertedDraft(t: Table, id: Id, row: Release, k: Key)
    requires id !in t && row.revision.None?
    ensures NextRevision(t[id := row], k) == NextRevision(t, k)
  {
    var after := t[id := row];
    assert RevisionsOf(after, k) == RevisionsOf(t, k) by {
      forall r | r in RevisionsOf(t, k) ensures r in RevisionsOf(after, k) {
        var i :| i in t && KeyOf(t[i]) == k && t[i].revision == Some(r);
        assert after[i] == t[i];
      }
    }
  }

  // ---- one group ----

  /** The next revision of a key after part of a list has been numbered. */
  lemma {:induction false} NextAfterRenumber(t: Table, b: Body, ids: seq<Id>, now: int, k: Key)
    requires AreUnnumbered(t, ids)
    ensures NextRevision(Renumber(t, b, ids, now), k) == NextRevision(t, k) + |InKey(t, ids, k)|
    decreases |ids|
  {
    if ids != [] {
      var t1 := NumberOne(t, b, ids[0], now);
      NextAfterNumbering(t, b, ids[0], now, k);
      assert forall n :: 0 <= n < |ids| - 1 ==> ids[1..][n] == ids[n + 1];
      assert AreUnnumbered(t1, ids[1..]);
      NextAfterRenumber(t1, b, ids[1..], now, k);
      KeysSurvive(t, t1, ids[1..], k);
    }
  }

  lemma {:induction false} KeysSurvive(t: Table, u: Table, ids: seq<Id>, k: Key)
    requires forall n :: 0 <= n < |ids| ==> ids[n] in t && ids[n] in u && KeyOf(t[ids[n]]) == KeyOf(u[ids[n]])
    ensures InKey(t, ids, k) == InKey(u, ids, k)
  {
    if ids != [] {
      assert forall n :: 0 <= n < |ids| - 1 ==> ids[1..][n] == ids[n + 1];
      KeysSurvive(t, u, ids[1..], k);
    }
  }

  /** A waiting release has the key that the hook looks up, and the build that it checks. */
  lemma WaitingKey(t: Table, c: Choice, b: Body, app: AppId, variant: string)
    requires AwaitsNumber(t, c, b) && LabelOf(c, b) == (app, variant) && ValidBody(b)
    ensures NumberingVersion(c, b).Some?
    ensures KeyOf(t[c.id]) == KeyFor(app, NumberingVersion(c, b).value, variant)
    ensures Identifiers(t[c.id].parts.build) == NumberingVersion(c, b).value.build
  {
    NumberingMatchesRow(c, b);
  }

  lemma TakeIds(choices: seq<Choice>, n: nat)
    requires n < |choices|
    ensures IdsIn(choices[..n + 1]) == IdsIn(choices[..n]) + [choices[n].id]
    ensures IdsIn(choices) == IdsIn(choices[..n + 1]) + IdsIn(choices[n + 1..])
    ensures |IdsIn(choices)| == |choices| && IdsIn(choices)[n] == choices[n].id
  {
    var own := [choices[n]];
    assert choices[..n + 1] == choices[..n] + own && choices == choices[..n + 1] + choices[n + 1..];
    IdsInConcat(choices[..n], own);
    IdsInConcat(choices[..n + 1], choices[n + 1..]);
    assert own[1..] == [] && IdsIn(own) == [choices[n].id];
    IdsInFacts(choices);
  }

  /** Before the n-th release of a group: its row is untouched, and numbering it extends the numbered prefix. */
  lemma BeforeTurn(t: Table, choices: seq<Choice>, b: Body, now: int, n: nat)
    requires AwaitNumbers(t, choices, b) && n < |choices|
    ensures AreUnnumbered(t, IdsIn(choices[..n]))
    ensures var u, id := Renumber(t, b, IdsIn(choices[..n]), now), choices[n].id;
            && id in t && id in u && u[id] == t[id]
            && Renumber(t, b, IdsIn(choices[..n + 1]), now) == NumberOne(u, b, id, now)
  {
    AwaitingIsUnnumbered(t, choices, b);
    TakeIds(choices, n);
    var before, own, after := IdsIn(choices[..n]), [choices[n].id], IdsIn(choices[n + 1..]);
    assert IdsIn(choices) == before + (own + after);
    RenumberPrefix(t, b, before, own + after, now);
    RenumberConcat(t, b, before, own, now);
    RenumberFrame(t, b, before, now);
    DistinctHalves(before, own + after);
    assert choices[n].id !in before by {
      assert (own + after)[0] == choices[n].id;
      assert choices[n].id in own + after;
    }
    assert AwaitsNumber(t, choices[n], b);
    RenumberSingle(Renumber(t, b, before, now), b, choices[n].id, now);
  }

  lemma RenumberSingle(t: Table, b: Body, id: Id, now: int)
    ensures Renumber(t, b, [id], now) == NumberOne(t, b, id, now)
  {
    assert [id][1..] == [];
    assert Renumber(NumberOne(t, b, id, now), b, [], now) == NumberOne(t, b, id, now);
  }

  /** What the n-th release is given in its turn it has in the end. */
  lemma TurnIsFinal(t: Table, choices: seq<Choice>, b: Body, now: int, n: nat)
    requires AwaitNumbers(t, choices, b) && n < |choices|
    ensures |IdsIn(choices)| == |choices|
    ensures var after := Renumber(t, b, IdsIn(choices[..n + 1]), now);
            choices[n].id in after && (TagsAgreeAt(t, b, IdsIn(choices), now, n) <==> TagsAgree(after[choices[n].id]))
  {
    AwaitingIsUnnumbered(t, choices, b);
    TakeIds(choices, n);
    RenumberPrefix(t, b, IdsIn(choices[..n + 1]), IdsIn(choices[n + 1..]), now);
    assert (IdsIn(choices[..n]) + [choices[n].id])[|IdsIn(choices[..n])|] == choices[n].id;
    assert choices[n].id in IdsIn(choices[..n + 1]);
  }

  lemma BatchHasOneKey(t: Table, choices: seq<Choice>, b: Body, app: AppId, variant: string, n: nat)
    requires AwaitInGroup(t, choices, b, app, variant) && ValidBody(b) && b.semver.Some? && n <= |choices|
    ensures |InKey(t, IdsIn(choices[..n]), KeyFor(app, b.semver.value, variant))| == n
  {
    IdsInFacts(choices[..n]);
    forall k | 0 <= k < n ensures HasKey(t, IdsIn(choices[..n])[k], KeyFor(app, b.semver.value, variant)) {
      assert choices[k] in choices && AwaitsNumber(t, choices[k], b);
      WaitingKey(t, choices[k], b, app, variant);
    }
    OneKeyCount(t, IdsIn(choices[..n]), KeyFor(app, b.semver.value, variant));
  }

  /** With a patched version, the n-th release of the group is numbered `next + n`. */
  lemma NextInBatch(t: Table, u: Table, choices: seq<Choice>, b: Body, app: AppId, variant: string, now: int, n: nat)
    requires AwaitInGroup(t, choices, b, app, variant) && ValidBody(b) && b.semver.Some? && n < |choices|
    requires u == Renumber(t, b, IdsIn(choices[..n]), now)
    ensures var id, next := choices[n].id, NextRevision(t, KeyFor(app, b.semver.value, variant));
            && id in u && id in t && u[id] == t[id]
            && Renumber(t, b, IdsIn(choices[..n + 1]), now) == u[id := Numbered(u[id], b, next + n, now)]
  {
    BeforeTurn(t, choices, b, now, n);
    BatchHasOneKey(t, choices, b, app, variant, n);
    assert choices[n] in choices && AwaitsNumber(t, choices[n], b);
    WaitingKey(t, choices[n], b, app, variant);
    NextAfterRenumber(t, b, IdsIn(choices[..n]), now, KeyFor(app, b.semver.value, variant));
  }

  lemma SharedKeyTurn(t: Table, choices: seq<Choice>, b: Body, app: AppId, variant: string, now: int, n: nat)
    requires AwaitInGroup(t, choices, b, app, variant) && ValidBody(b) && b.semver.Some? && n < |choices|
    ensures |IdsIn(choices)| == |choices|
    ensures var next := NextRevision(t, KeyFor(app, b.semver.value, variant));
            TagsAgreeAt(t, b, IdsIn(choices), now, n) <==> BuildAgrees(b.semver.value.build, next + n)
  {
    TurnIsFinal(t, choices, b, now, n);
    NextInBatch(t, Renumber(t, b, IdsIn(choices[..n]), now), choices, b, app, variant, now, n);
    assert choices[n] in choices && AwaitsNumber(t, choices[n], b);
    WaitingKey(t, choices[n], b, app, variant);
  }

  /** Without a patched version, the key is read back from the printed version of the release. */
  lemma NextOneByOne(t: Table, u: Table, choices: seq<Choice>, b: Body, app: AppId, variant: string, now: int, n: nat)
    requires AwaitInGroup(t, choices, b, app, variant) && ValidBody(b) && b.semver.None? && n < |choices|
    requires u == Renumber(t, b, IdsIn(choices[..n]), now)
    ensures choices[n].id in u && Parse(PrintSemver(choices[n].row.parts)).Some? && |IdsIn(choices)| == |choices|
    ensures var id, v := choices[n].id, Parse(PrintSemver(choices[n].row.parts)).value;
            var next := NextRevision(u, KeyFor(app, v, variant));
            && Renumber(t, b, IdsIn(choices[..n + 1]), now) == u[id := Numbered(u[id], b, next, now)]
            && (TagsAgreeAt(t, b, IdsIn(choices), now, n) <==> BuildAgrees(v.build, next))
  {
    BeforeTurn(t, choices, b, now, n);
    TurnIsFinal(t, choices, b, now, n);
    assert choices[n] in choices && AwaitsNumber(t, choices[n], b);
    WaitingKey(t, choices[n], b, app, variant);
  }

  // ---- the nested loops ----

  /** The groups done so far have been numbered, and none contradicted a tag. */
  ghost predicate NumberedSoFar(t: Table, u: Table, b: Body, done: seq<Group>, now: int) {
    u == Renumber(t, b, IdsIn(Gathered(done)), now) && AllTagsAgree(t, b, IdsIn(Gathered(done)), now)
  }

  /** The ids of the groups around the next one. */
  lemma AroundGroup(selected: seq<Choice>, b: Body, done: seq<Group>, g: Group) returns (rest: seq<Group>)
    requires done + [g] <= Groups(selected, b)
    ensures IdsIn(Gathered(Groups(selected, b))) == IdsIn(Gathered(done)) + IdsIn(g.choices) + IdsIn(Gathered(rest))
    ensures IdsIn(Gathered(done + [g])) == IdsIn(Gathered(done)) + IdsIn(g.choices)
    ensures g in Groups(selected, b)
  {
    var all := Groups(selected, b);
    rest := all[|done| + 1..];
    assert all == done + [g] + rest;
    assert g == all[|done|];
    GatheredConcat(done + [g], rest);
    GatheredConcat(done, [g]);
    assert [g][1..] == [] && Gathered([g]) == g.choices + [] == g.choices;
    IdsInConcat(Gathered(done) + g.choices, Gathered(rest));
    IdsInConcat(Gathered(done), g.choices);
  }

  /** A group of the selection waits in its own label. */
  lemma GroupWaits(t: Table, selected: seq<Choice>, b: Body, g: Group)
    requires AwaitNumbers(t, selected, b) && g in Groups(selected, b)
    ensures AwaitInGroup(t, g.choices, b, g.app, g.variant)
  {
    GroupsFacts(selected, b);
    var n :| 0 <= n < |Groups(selected, b)| && Groups(selected, b)[n] == g;
    InGroupMembers(selected, b, (g.app, g.variant));
    GroupAwaits(t, selected, b, g);
  }

  /** No release of the next group has been numbered. */
  lemma NextGroupApart(t: Table, selected: seq<Choice>, b: Body, now: int, done: seq<Group>, g: Group)
    requires AwaitNumbers(t, selected, b) && done + [g] <= Groups(selected, b)
    ensures forall i :: i in IdsIn(g.choices) ==> i !in IdsIn(Gathered(done))
  {
    var rest := AroundGroup(selected, b, done, g);
    GatheredSelectionAwaits(t, selected, b);
    GroupedIsOneByOne(t, selected, b, now);
    ThreeStretches(IdsIn(Gathered(done)), IdsIn(g.choices), IdsIn(Gathered(rest)));
  }

  lemma ThreeStretches(before: seq<Id>, own: seq<Id>, after: seq<Id>)
    requires Distinct(before + own + after)
    ensures forall i :: i in own ==> i !in before
  {
    assert before + own + after == before + (own + after);
    DistinctHalves(before, own + after);
    assert forall i :: i in own ==> i in own + after;
  }

  /** A group next in line is still waiting after the groups before it. */
  lemma NextGroupWaits(t: Table, u: Table, selected: seq<Choice>, b: Body, now: int, done: seq<Group>, g: Group)
    requires AwaitNumbers(t, selected, b) && NumberedSoFar(t, u, b, done, now) && done + [g] <= Groups(selected, b)
    ensures AwaitInGroup(u, g.choices, b, g.app, g.variant)
  {
    NextGroupApart(t, selected, b, now, done, g);
    var rest := AroundGroup(selected, b, done, g);
    GroupWaits(t, selected, b, g);
    StillWaiting(t, b, IdsIn(Gathered(done)), g.choices, now);
  }

  lemma StillWaiting(t: Table, b: Body, before: seq<Id>, choices: seq<Choice>, now: int)
    requires AwaitNumbers(t, choices, b) && forall i :: i in IdsIn(choices) ==> i !in before
    ensures AwaitNumbers(Renumber(t, b, before, now), choices, b)
  {
    IdsInFacts(choices);
    RenumberFrame(t, b, before, now);
    forall c | c in choices ensures AwaitsNumber(Renumber(t, b, before, now), c, b) {
      assert AwaitsNumber(t, c, b);
      var n :| 0 <= n < |choices| && choices[n] == c;
      assert IdsIn(choices)[n] == c.id;
      assert c.id in IdsIn(choices);
    }
  }

  /** What happens to a group in its turn is what happens to it overall. */
  lemma NextGroupCounts(t: Table, u: Table, selected: seq<Choice>, b: Body, now: int, done: seq<Group>, g: Group)
    requires AwaitNumbers(t, selected, b) && NumberedSoFar(t, u, b, done, now) && done + [g] <= Groups(selected, b)
    ensures AllTagsAgree(t, b, IdsIn(selected), now) ==> AllTagsAgree(u, b, IdsIn(g.choices), now)
    ensures AllTagsAgree(u, b, IdsIn(g.choices), now)
        ==> NumberedSoFar(t, Renumber(u, b, IdsIn(g.choices), now), b, done + [g], now)
  {
    var rest := AroundGroup(selected, b, done, g);
    GatheredSelectionAwaits(t, selected, b);
    GroupedIsOneByOne(t, selected, b, now);
    var before, own, after := IdsIn(Gathered(done)), IdsIn(g.choices), IdsIn(Gathered(rest));
    SameTags(t, b, IdsIn(selected), before + own + after, now);
    TagsOfStretches(t, b, before, own, after, now);
    RenumberConcat(t, b, before, own, now);
  }

  /** Two schedules with one outcome agree on the tags. */
  lemma SameTags(t: Table, b: Body, ids: seq<Id>, other: seq<Id>, now: int)
    requires AreUnnumbered(t, ids) && AreUnnumbered(t, other) && Renumber(t, b, ids, now) == Renumber(t, b, other, now)
    ensures AllTagsAgree(t, b, ids, now) <==> AllTagsAgree(t, b, other, now)
  {
    ListedAreFinal(t, b, ids, now);
    ListedAreFinal(t, b, other, now);
    if AllTagsAgree(t, b, ids, now) {
      forall n | 0 <= n < |other| ensures TagsAgreeAt(t, b, other, now, n) {
        var m :| 0 <= m < |ids| && ids[m] == other[n];
        assert TagsAgreeAt(t, b, ids, now, m);
      }
    }
    if AllTagsAgree(t, b, other, now) {
      forall n | 0 <= n < |ids| ensures TagsAgreeAt(t, b, ids, now, n) {
        var m :| 0 <= m < |other| && other[m] == ids[n];
        assert TagsAgreeAt(t, b, other, now, m);
      }
    }
  }

  /** The listed releases are those that numbering finalizes. */
  lemma ListedAreFinal(t: Table, b: Body, ids: seq<Id>, now: int)
    requires AreUnnumbered(t, ids)
    ensures var after := Renumber(t, b, ids, now);
            && after.Keys == t.Keys
            && forall i :: i in t && t[i].revision.None? ==> (i in ids <==> IsFinal(after[i]))
  {
    RenumberFrame(t, b, ids, now);
    forall n | 0 <= n < |ids| ensures IsFinal(Renumber(t, b, ids, now)[ids[n]]) {
      RenumberAt(t, b, ids, now, n);
    }
  }

  lemma TagsOfStretches(t: Table, b: Body, before: seq<Id>, own: seq<Id>, after: seq<Id>, now: int)
    requires AreUnnumbered(t, before + own + after)
    ensures var u := Renumber(t, b, before, now);
            && (AllTagsAgree(t, b, before + own + after, now) ==> AllTagsAgree(u, b, own, now))
            && (AllTagsAgree(t, b, before, now) && AllTagsAgree(u, b, own, now) ==> AllTagsAgree(t, b, before + own, now))
  {
    var u := Renumber(t, b, before, now);
    var some, all := before + own, before + own + after;
    RenumberPrefix(t, b, some, after, now);
    RenumberPrefix(t, b, before, own, now);
    RenumberConcat(t, b, before, own, now);
    assert forall n :: 0 <= n < |some| ==> all[n] == some[n] && some[n] in some;
    forall n | 0 <= n < |some| ensures TagsAgreeAt(t, b, all, now, n) <==> TagsAgreeAt(t, b, some, now, n) {
    }
    forall n | 0 <= n < |own| ensures TagsAgreeAt(u, b, own, now, n) <==> TagsAgreeAt(t, b, some, now, |before| + n) {
      assert some[|before| + n] == own[n];
    }
    forall n | 0 <= n < |before| ensures TagsAgreeAt(t, b, before, now, n) <==> TagsAgreeAt(t, b, some, now, n) {
      assert some[n] == before[n] && before[n] in before;
    }
    if AllTagsAgree(t, b, before, now) && AllTagsAgree(u, b, own, now) {
      forall n | 0 <= n < |some| ensures TagsAgreeAt(t, b, some, now, n) {
        if n >= |before| {
          assert TagsAgreeAt(u, b, own, now, n - |before|);
        } else {
          assert TagsAgreeAt(t, b, before, now, n);
        }
      }
    }
  }

  lemma {:induction false} VariantGroupsConcat(app: AppId, a: seq<(string, seq<Choice>)>, b: seq<(string, seq<Choice>)>)
    ensures VariantGroups(app, a + b) == VariantGroups(app, a) + VariantGroups(app, b)
  {
    if a == [] {
      assert a + b == b;
    } else {
      assert (a + b)[1..] == a[1..] + b;
      VariantGroupsConcat(app, a[1..], b);
    }
  }

  lemma {:induction false} GroupsOfAppsConcat(x: seq<(AppId, seq<Choice>)>, y: seq<(AppId, seq<Choice>)>, b: Body)
    ensures GroupsOfApps(x + y, b) == GroupsOfApps(x, b) + GroupsOfApps(y, b)
  {
    if x == [] {
      assert x + y == y;
    } else {
      assert (x + y)[1..] == x[1..] + y;
      GroupsOfAppsConcat(x[1..], y, b);
    }
  }

  lemma GroupsOfAppsStep(apps: seq<(AppId, seq<Choice>)>, a: nat, b: Body)
    requires a < |apps|
    ensures GroupsOfApps(apps[..a + 1], b) == GroupsOfApps(apps[..a], b) + VariantGroups(apps[a].0, ByVariant(apps[a].1, b))
    ensures GroupsOfApps(apps, b) == GroupsOfApps(apps[..a + 1], b) + GroupsOfApps(apps[a + 1..], b)
  {
    assert apps[..a + 1] == apps[..a] + [apps[a]] && apps == apps[..a + 1] + apps[a + 1..];
    assert [apps[a]][1..] == [];
    GroupsOfAppsConcat(apps[..a], [apps[a]], b);
    GroupsOfAppsConcat(apps[..a + 1], apps[a + 1..], b);
  }

  lemma VariantGroupsStep(app: AppId, variants: seq<(string, seq<Choice>)>, v: nat)
    requires v < |variants|
    ensures VariantGroups(app, variants[..v + 1])
         == VariantGroups(app, variants[..v]) + [Group(app, variants[v].0, variants[v].1)]
    ensures VariantGroups(app, variants[..v + 1]) <= VariantGroups(app, variants)
  {
    assert variants[..v + 1] == variants[..v] + [variants[v]] && variants == variants[..v + 1] + variants[v + 1..];
    assert [variants[v]][1..] == [];
    VariantGroupsConcat(app, variants[..v], [variants[v]]);
    VariantGroupsConcat(app, variants[..v + 1], variants[v + 1..]);
  }

  /** The group that the nested loops reach next is the next of all groups. */
  lemma NextInLine(apps: seq<(AppId, seq<Choice>)>, a: nat, variants: seq<(string, seq<Choice>)>, v: nat, b: Body, done: seq<Group>)
    requires a < |apps| && variants == ByVariant(apps[a].1, b) && v < |variants|
    requires done == GroupsOfApps(apps[..a], b) + VariantGroups(apps[a].0, variants[..v])
    ensures var g := Group(apps[a].0, variants[v].0, variants[v].1);
            && done + [g] == GroupsOfApps(apps[..a], b) + VariantGroups(apps[a].0, variants[..v + 1])
            && done + [g] <= GroupsOfApps(apps, b)
  {
    GroupsOfAppsStep(apps, a, b);
    VariantGroupsStep(apps[a].0, variants, v);
  }

  lemma AllNumbered(t: Table, u: Table, selected: seq<Choice>, b: Body, now: int)
    requires AwaitNumbers(t, selected, b) && NumberedSoFar(t, u, b, Groups(selected, b), now)
    ensures u == Renumber(t, b, IdsIn(selected), now) && AllTagsAgree(t, b, IdsIn(selected), now)
  {
    GatheredSelectionAwaits(t, selected, b);
    GroupedIsOneByOne(t, selected, b, now);
    SameTags(t, b, IdsIn(selected), IdsIn(Gathered(Groups(selected, b))), now);
  }
}
