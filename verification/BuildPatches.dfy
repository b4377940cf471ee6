/**
  PATCHes that change only the build metadata of finalized releases: no hook renumbers them or checks their `revN`
  parts, and exactly when two releases print the same raw version afterwards.
 */
module BuildPatches {
  import opened Basics
  import opened RawVersion
  import opened Releases
  import Properties = RevisionProperties
  import Protocol = RevisionProtocol
  import opened RevisionRuns
  import opened SemverText

  /** A raw version names at most one finalized release of an application and variant. */
  ghost predicate NamesAreUnique(t: Table) {
    forall i, j :: SameShelf(t, i, j) && RawText(t[i], 0) == RawText(t[j], 0) ==> i == j
  }

  /** A PATCH whose body sets a version but changes no key part of a finalized release it affects, and finalizes none. */
  predicate IsBuildOnly(t: Table, ids: set<Id>, b: Body) {
    ids <= t.Keys && b.semver.Some? && b.app.None? && b.variant.None? && b.isFinal != Some(false) && SelectsNone(t, ids, b)
  }

  /** With this revision and build a release prints the build as it is: there is no tag to append. */
  predicate Bare(build: seq<string>, revision: nat) {
    revision == 0 || Tag(revision) in build
  }

  predicate AreFinalInKey(t: Table, i: Id, j: Id) {
    i != j && i in t && j in t && IsFinal(t[i]) && IsFinal(t[j]) && KeyOf(t[i]) == KeyOf(t[j])
  }

  /**
    What a caller can check beforehand, from the new build and the finalized releases of the key: revision 0 is not
    given the printed build of another release, and no two releases are given a build that neither adds its tag to.
   */
  ghost predicate BuildIsFree(t: Table, ids: set<Id>, build: seq<string>) {
    forall i, j | i in ids && AreFinalInKey(t, i, j) ::
      if j in ids then !(Bare(build, t[i].revision.value) && Bare(build, t[j].revision.value))
      else !(t[i].revision.value == 0 && build == TaggedIdentifiers(t[j]))
  }

  /** What the rules of the table give: revisions do not repeat, parts are as parsed, tags are honest. */
  ghost predicate IsSound(t: Table) {
    Unique(t) && Protocol.ValidRows(t) && Properties.RowsAgree(t)
  }

  function Patched(t: Table, ids: set<Id>, b: Body): Table {
    t + Protocol.UpdatedRows(t, ids, b)
  }

  lemma TagInjective(m: nat, n: nat)
    requires Tag(m) == Tag(n)
    ensures m == n
  {
    assert Tag(m)[3..] == ToDecimal(m) && Tag(n)[3..] == ToDecimal(n);
    ToDecimalInjective(m, n);
  }

  /** Two builds that were patched alike print alike exactly if neither revision is appended. */
  lemma BothPatched(r: Release, q: Release, build: seq<string>)
    requires IsFinal(r) && IsFinal(q) && r.revision != q.revision
    requires Identifiers(r.parts.build) == build && Identifiers(q.parts.build) == build
    ensures TaggedIdentifiers(r) == TaggedIdentifiers(q)
       <==> Bare(build, r.revision.value) && Bare(build, q.revision.value)
  {
    var a, b := TaggedIdentifiers(r), TaggedIdentifiers(q);
    if !Bare(build, r.revision.value) && !Bare(build, q.revision.value) && a == b {
      assert a[|build|] == Tag(r.revision.value) && b[|build|] == Tag(q.revision.value);
      TagInjective(r.revision.value, q.revision.value);
    }
  }

  /** A patched release prints like an honest one exactly if its revision is 0 and it was given what that one prints. */
  lemma OnePatched(r: Release, q: Release, build: seq<string>)
    requires IsFinal(r) && IsFinal(q) && r.revision != q.revision && TagsAgree(q)
    requires Identifiers(r.parts.build) == build
    ensures TaggedIdentifiers(r) == TaggedIdentifiers(q) <==> r.revision.value == 0 && build == TaggedIdentifiers(q)
  {
    var revision := r.revision.value;
    if revision > 0 && TaggedIdentifiers(r) == TaggedIdentifiers(q) {
      assert Tag(revision) in TaggedIdentifiers(r);
      TagsNameRevision(q);
      TagIsRevisionTag(revision);
      ToDecimalInjective(revision, q.revision.value);
    }
  }

  /** The row of an affected release after the PATCH. */
  lemma PatchedRow(t: Table, ids: set<Id>, b: Body, i: Id)
    requires Protocol.ValidRows(t) && ValidBody(b) && IsBuildOnly(t, ids, b) && i in t && IsFinal(t[i])
    ensures var u := Patched(t, ids, b);
            && i in u && u[i] == (if i in ids then Updated(t[i], b) else t[i])
            && u[i].revision == t[i].revision && KeyOf(u[i]) == KeyOf(t[i]) && ValidParts(u[i].parts)
            && (i in ids ==> Identifiers(u[i].parts.build) == b.semver.value.build)
  {
    if i in ids {
      UnselectedKeepsKey(t[i], b);
      assert Restored(Stored(b.semver.value)) == b.semver.value;
    }
  }

  lemma ClashIff(t: Table, ids: set<Id>, b: Body, i: Id, j: Id)
    requires IsSound(t) && ValidBody(b) && IsBuildOnly(t, ids, b) && AreFinalInKey(t, i, j)
    ensures var u, build := Patched(t, ids, b), b.semver.value.build;
            && i in u && j in u
            && (RawText(u[i], 0) == RawText(u[j], 0) <==>
                  if i in ids && j in ids then Bare(build, t[i].revision.value) && Bare(build, t[j].revision.value)
                  else if i in ids then t[i].revision.value == 0 && build == TaggedIdentifiers(t[j])
                  else if j in ids then t[j].revision.value == 0 && build == TaggedIdentifiers(t[i])
                  else false)
  {
    var u, build := Patched(t, ids, b), b.semver.value.build;
    PatchedRow(t, ids, b, i);
    PatchedRow(t, ids, b, j);
    assert KeyOf(u[i]) == KeyOf(u[j]);
    RawTextIff(u[i], u[j], 0, 0);
    if i in ids && j in ids {
      BothPatched(u[i], u[j], build);
    } else if i in ids {
      OnePatched(u[i], u[j], build);
    } else if j in ids {
      OnePatched(u[j], u[i], build);
    } else if TaggedIdentifiers(u[i]) == TaggedIdentifiers(u[j]) {
      SameIdentifiersSameRevision(u[i], u[j]);
    }
  }

  /** Only releases of one key can print alike. */
  lemma SameTextSameKey(t: Table, i: Id, j: Id)
    requires Protocol.ValidRows(t) && SameShelf(t, i, j) && RawText(t[i], 0) == RawText(t[j], 0)
    ensures KeyOf(t[i]) == KeyOf(t[j])
  {
    RawTextIff(t[i], t[j], 0, 0);
  }

  /** Raw versions still name releases after a build-only PATCH exactly if the build is free. */
  lemma NamesStayUniqueIff(t: Table, ids: set<Id>, b: Body)
    requires IsSound(t) && ValidBody(b) && IsBuildOnly(t, ids, b)
    ensures NamesAreUnique(Patched(t, ids, b)) <==> BuildIsFree(t, ids, b.semver.value.build)
  {
    var u := Patched(t, ids, b);
    forall i | i in u ensures i in t && ValidParts(u[i].parts) && u[i].revision == t[i].revision {
      if i in ids {
        assert u[i] == Updated(t[i], b);
      }
    }
    if BuildIsFree(t, ids, b.semver.value.build) {
      forall i, j | SameShelf(u, i, j) && RawText(u[i], 0) == RawText(u[j], 0) ensures i == j {
        SameTextSameKey(u, i, j);
        PatchedRow(t, ids, b, i);
        PatchedRow(t, ids, b, j);
        if i != j {
          assert AreFinalInKey(t, i, j) && AreFinalInKey(t, j, i);
          ClashIff(t, ids, b, i, j);
          assert false;
        }
      }
    }
    if NamesAreUnique(u) {
      forall i, j | i in ids && AreFinalInKey(t, i, j)
        ensures if j in ids then !(Bare(b.semver.value.build, t[i].revision.value) && Bare(b.semver.value.build, t[j].revision.value))
                else !(t[i].revision.value == 0 && b.semver.value.build == TaggedIdentifiers(t[j]))
      {
        ClashIff(t, ids, b, i, j);
        PatchedRow(t, ids, b, i);
        PatchedRow(t, ids, b, j);
        assert SameShelf(u, i, j);
      }
    }
  }

  /** The same for the request itself: it runs through, and leaves names unique exactly if the build is free. */
  lemma BuildOnlyPatchIff(c: Table, t: Protocol.TxId, ids: set<Id>, b: Body)
    requires IsSound(c) && ValidBody(b) && IsBuildOnly(c, ids, b)
    ensures var s := Protocol.State(c, map[]);
            && Protocol.Legal(s, UnselectedPatch(t, ids, b))
            && (NamesAreUnique(Protocol.Run(s, UnselectedPatch(t, ids, b)).committed) <==> BuildIsFree(c, ids, b.semver.value.build))
  {
    UnselectedPatchRuns(c, t, ids, b);
    NamesStayUniqueIff(c, ids, b);
  }

  // ---- a clash, from the empty table ----

  const PLAIN := SemVer(1, 0, 0, [], [])
  const TAGGED := SemVer(1, 0, 0, [], ["rev1"])

  /** Two releases 1.0.0 are posted, and the first is given the build `rev1`. */
  function ClashingRun(): seq<Protocol.Event> {
    FinalPost(1, 1, 7, PLAIN, "", 0) + FinalPost(2, 2, 7, PLAIN, "", 0)
      + UnselectedPatch(3, {1}, RETAG)
  }

  lemma VersionsAreStorable()
    ensures Storable(PLAIN) && Stored(PLAIN) == Parts(1, 0, 0, "", "")
    ensures Storable(TAGGED) && Stored(TAGGED) == Parts(1, 0, 0, "", "rev1")
    ensures Identifiers("rev1") == ["rev1"] && Identifiers("") == []
  {
    SplitConcat("rev1", '.', "");
    assert Join(["rev1"], '.') == "rev1";
  }

  function PostedRow(revision: nat): Release {
    Release(7, Parts(1, 0, 0, "", ""), "", Some(revision), Some(0))
  }

  lemma NextOfEmptyAndOne()
    ensures var k := KeyFor(7, PLAIN, "");
            NextRevision(map[], k) == 0 && NextRevision(map[1 := PostedRow(0)], k) == 1
  {
    var k := KeyFor(7, PLAIN, "");
    assert RevisionsOf(map[], k) == {};
    var one: Table := map[1 := PostedRow(0)];
    assert one[1].revision == Some(0) && KeyOf(one[1]) == k;
    assert RevisionsOf(one, k) == {0};
  }

  lemma BothArePosted()
    ensures RunsTo(Protocol.State(map[], map[]), FinalPost(1, 1, 7, PLAIN, "", 0) + FinalPost(2, 2, 7, PLAIN, "", 0),
                   Protocol.State(map[1 := PostedRow(0), 2 := PostedRow(1)], map[]))
  {
    VersionsAreStorable();
    NextOfEmptyAndOne();
    var one: Table := map[1 := PostedRow(0)];
    FinalPostRuns(map[], 1, 1, 7, PLAIN, "", 0);
    FinalPostRuns(one, 2, 2, 7, PLAIN, "", 0);
    assert one[2 := PostedRow(1)] == map[1 := PostedRow(0), 2 := PostedRow(1)];
    RunsThen(Protocol.State(map[], map[]), FinalPost(1, 1, 7, PLAIN, "", 0), Protocol.State(one, map[]),
             FinalPost(2, 2, 7, PLAIN, "", 0), Protocol.State(map[1 := PostedRow(0), 2 := PostedRow(1)], map[]));
  }

  function PostedTable(): Table {
    map[1 := PostedRow(0), 2 := PostedRow(1)]
  }

  const RETAG := Body(None, Some(TAGGED), None, None)

  lemma PostedTableIsSound()
    ensures IsSound(PostedTable()) && ValidBody(RETAG) && IsBuildOnly(PostedTable(), {1}, RETAG)
  {
    VersionsAreStorable();
  }

  lemma RetagIsNotFree()
    ensures !BuildIsFree(PostedTable(), {1}, ["rev1"])
  {
    var c := PostedTable();
    VersionsAreStorable();
    assert ToDecimal(1) == "1" && Tag(1) == "rev1";
    assert TaggedIdentifiers(c[2]) == ["rev1"];
    assert AreFinalInKey(c, 1, 2);
  }

  /** It happens in a legal run from the empty table: afterwards two finalized releases print `1.0.0+rev1`. */
  lemma BuildOnlyPatchCanClash(s: Protocol.State)
    requires s == Protocol.State(map[], map[])
    ensures Protocol.Initial(s) && Protocol.Legal(s, ClashingRun())
    ensures !NamesAreUnique(Protocol.Run(s, ClashingRun()).committed)
  {
    var c := PostedTable();
    BothArePosted();
    PostedTableIsSound();
    UnselectedPatchRuns(c, 3, {1}, RETAG);
    RunsThen(s, FinalPost(1, 1, 7, PLAIN, "", 0) + FinalPost(2, 2, 7, PLAIN, "", 0), Protocol.State(c, map[]),
             UnselectedPatch(3, {1}, RETAG), Protocol.State(Patched(c, {1}, RETAG), map[]));
    NamesStayUniqueIff(c, {1}, RETAG);
    RetagIsNotFree();
  }
}
