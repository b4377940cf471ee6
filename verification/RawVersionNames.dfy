/**
  How long raw versions go on naming one finalized release each: over any sequence of POSTs of final releases and
  PATCHes of build metadata, honest `revN` parts or not.
 */
module RawVersionNames {
  import opened Basics
  import opened BuildPatches
  import opened RawVersion
  import opened Releases
  import opened Renumbering
  import Protocol = RevisionProtocol
  import opened RevisionRuns
  import opened SemverText

  // ---- a POST ----

  datatype Posting = Posting(id: Id, app: AppId, version: SemVer, variant: string, now: int)

  function KeyOfPosting(p: Posting): Key {
    KeyFor(p.app, p.version, p.variant)
  }

  /** The POST goes through: a new id, a version from the parser, no `revN` part that contradicts the next revision. */
  predicate Postable(c: Table, p: Posting) {
    p.id !in c && Storable(p.version) && BuildAgrees(p.version.build, NextRevision(c, KeyOfPosting(p)))
  }

  function RowOfPosting(c: Table, p: Posting): Release {
    FinalRow(c, p.app, p.version, p.variant, p.now)
  }

  function Posted(c: Table, p: Posting): Table {
    c[p.id := RowOfPosting(c, p)]
  }

  lemma PostingFacts(c: Table, p: Posting)
    requires Postable(c, p)
    ensures var q := RowOfPosting(c, p);
            && KeyOf(q) == KeyOfPosting(p) && q.revision == Some(NextRevision(c, KeyOfPosting(p)))
            && ValidParts(q.parts) && Identifiers(q.parts.build) == p.version.build && TagsAgree(q)
  {
    assert Restored(Stored(p.version)) == p.version;
  }

  /** The finalized releases of the key that print what the new one prints: revision 0, and a build that says it all. */
  predicate TakesName(t: Table, i: Id, q: Release) {
    i in t && KeyOf(t[i]) == KeyOf(q) && t[i].revision == Some(0) && Identifiers(t[i].parts.build) == TaggedIdentifiers(q)
  }

  lemma PostClashIff(c: Table, p: Posting, i: Id)
    requires Protocol.ValidRows(c) && Postable(c, p) && i in c && IsFinal(c[i])
    requires c[i].app == p.app && c[i].variant == p.variant
    ensures RawText(c[i], 0) == RawText(RowOfPosting(c, p), 0) <==> TakesName(c, i, RowOfPosting(c, p))
  {
    var q := RowOfPosting(c, p);
    PostingFacts(c, p);
    RawTextIff(c[i], q, 0, 0);
    if KeyOf(c[i]) == KeyOf(q) {
      NextRevisionIsNext(c, KeyOf(q));
      OnePatched(c[i], q, Identifiers(c[i].parts.build));
    }
  }

  /** A POST keeps raw versions unique exactly if no release of revision 0 already prints the new release's. */
  lemma PostKeepsNamesIff(c: Table, p: Posting)
    requires Protocol.ValidRows(c) && NamesAreUnique(c) && Postable(c, p)
    ensures NamesAreUnique(Posted(c, p)) <==> forall i :: !TakesName(c, i, RowOfPosting(c, p))
  {
    var u, q := Posted(c, p), RowOfPosting(c, p);
    if forall i :: !TakesName(c, i, q) {
      forall i, j | SameShelf(u, i, j) && RawText(u[i], 0) == RawText(u[j], 0) ensures i == j {
        if i != j {
          if i == p.id {
            PostClashIff(c, p, j);
          } else if j == p.id {
            PostClashIff(c, p, i);
          } else {
            assert SameShelf(c, i, j);
          }
        }
      }
    }
    if NamesAreUnique(u) {
      forall i ensures !TakesName(c, i, q) {
        if TakesName(c, i, q) {
          PostClashIff(c, p, i);
          assert SameShelf(u, i, p.id);
          assert false;
        }
      }
    }
  }

  // ---- a PATCH of build metadata, on any table ----

  /** What a release prints as its build once it is given `build`. */
  function Retagged(build: seq<string>, revision: nat): seq<string> {
    build + (if Bare(build, revision) then [] else [Tag(revision)])
  }

  function BuildAfter(t: Table, ids: set<Id>, build: seq<string>, i: Id): seq<string>
    requires i in t && IsFinal(t[i])
  {
    if i in ids then Retagged(build, t[i].revision.value) else TaggedIdentifiers(t[i])
  }

  /** No affected release is left with the printed build of another of its key. */
  ghost predicate PatchIsFree(t: Table, ids: set<Id>, build: seq<string>) {
    forall i, j | i in ids && AreFinalInKey(t, i, j) :: BuildAfter(t, ids, build, i) != BuildAfter(t, ids, build, j)
  }

  lemma PatchedNames(t: Table, ids: set<Id>, b: Body, i: Id, j: Id)
    requires Protocol.ValidRows(t) && ValidBody(b) && IsBuildOnly(t, ids, b) && AreFinalInKey(t, i, j)
    ensures var u := Patched(t, ids, b);
            && i in u && j in u && SameShelf(u, i, j)
            && (RawText(u[i], 0) == RawText(u[j], 0)
                <==> BuildAfter(t, ids, b.semver.value.build, i) == BuildAfter(t, ids, b.semver.value.build, j))
  {
    var u := Patched(t, ids, b);
    PatchedRow(t, ids, b, i);
    PatchedRow(t, ids, b, j);
    assert KeyOf(u[i]) == KeyOf(u[j]);
    RawTextIff(u[i], u[j], 0, 0);
    assert TaggedIdentifiers(u[i]) == BuildAfter(t, ids, b.semver.value.build, i);
    assert TaggedIdentifiers(u[j]) == BuildAfter(t, ids, b.semver.value.build, j);
  }

  lemma PatchKeepsNamesIff(t: Table, ids: set<Id>, b: Body)
    requires Protocol.ValidRows(t) && NamesAreUnique(t) && ValidBody(b) && IsBuildOnly(t, ids, b)
    ensures NamesAreUnique(Patched(t, ids, b)) <==> PatchIsFree(t, ids, b.semver.value.build)
  {
    var u, build := Patched(t, ids, b), b.semver.value.build;
    PatchedIsValid(t, ids, b);
    if PatchIsFree(t, ids, build) {
      forall i, j | SameShelf(u, i, j) && RawText(u[i], 0) == RawText(u[j], 0) ensures i == j {
        PatchedPair(t, ids, b, i, j);
      }
    }
    if NamesAreUnique(u) {
      forall i, j | i in ids && AreFinalInKey(t, i, j) ensures BuildAfter(t, ids, build, i) != BuildAfter(t, ids, build, j) {
        PatchedNames(t, ids, b, i, j);
      }
    }
  }

  lemma PatchedIsValid(t: Table, ids: set<Id>, b: Body)
    requires Protocol.ValidRows(t) && ValidBody(b) && IsBuildOnly(t, ids, b)
    ensures var u := Patched(t, ids, b);
            && Protocol.ValidRows(u) && u.Keys == t.Keys
            && forall i :: i in t ==> u[i].revision == t[i].revision && (IsFinal(t[i]) ==> KeyOf(u[i]) == KeyOf(t[i]))
  {
    var u := Patched(t, ids, b);
    forall i | i in u
      ensures i in t && ValidParts(u[i].parts) && u[i].revision == t[i].revision
      ensures IsFinal(t[i]) ==> KeyOf(u[i]) == KeyOf(t[i])
    {
      if i in ids {
        assert u[i] == Updated(t[i], b);
        if IsFinal(t[i]) {
          UnselectedKeepsKey(t[i], b);
        }
      }
    }
  }

  lemma PatchedPair(t: Table, ids: set<Id>, b: Body, i: Id, j: Id)
    requires Protocol.ValidRows(t) && NamesAreUnique(t) && ValidBody(b) && IsBuildOnly(t, ids, b)
    requires PatchIsFree(t, ids, b.semver.value.build)
    requires var u := Patched(t, ids, b); SameShelf(u, i, j) && RawText(u[i], 0) == RawText(u[j], 0)
    ensures i == j
  {
    var u := Patched(t, ids, b);
    PatchedIsValid(t, ids, b);
    SameTextSameKey(u, i, j);
    if i != j {
      assert AreFinalInKey(t, i, j) && AreFinalInKey(t, j, i);
      PatchedNames(t, ids, b, i, j);
      if i !in ids && j !in ids {
        assert u[i] == t[i] && u[j] == t[j] && SameShelf(t, i, j);
      }
    }
  }

  // ---- names that later POSTs cannot take ----

  /** The build is what a release of revision `m` may print: it has that tag, and no other. */
  predicate Announces(build: seq<string>, m: nat) {
    Tag(m) in build && BuildAgrees(build, m)
  }

  /** No release of revision 0 announces a revision that its key has still to give. */
  ghost predicate LeavesRoom(t: Table) {
    forall i, m: nat | i in t && t[i].revision == Some(0) && Announces(Identifiers(t[i].parts.build), m) ::
      m < NextRevision(t, KeyOf(t[i]))
  }

  ghost predicate NamesLast(t: Table) {
    Protocol.ValidRows(t) && NamesAreUnique(t) && LeavesRoom(t)
  }

  lemma NextAfterPost(c: Table, p: Posting, k: Key)
    requires Postable(c, p)
    ensures NextRevision(Posted(c, p), k) == NextRevision(c, k) + (if k == KeyOfPosting(p) then 1 else 0)
  {
    var u, next := Posted(c, p), NextRevision(c, KeyOfPosting(p));
    PostingFacts(c, p);
    forall r | r in RevisionsOf(c, k) ensures r in RevisionsOf(u, k) {
      var i :| i in c && KeyOf(c[i]) == k && c[i].revision == Some(r);
      assert u[i] == c[i];
    }
    if k == KeyOfPosting(p) {
      assert u[p.id].revision == Some(next) && KeyOf(u[p.id]) == k;
      assert RevisionsOf(u, k) == RevisionsOf(c, k) + {next};
    } else {
      assert RevisionsOf(u, k) == RevisionsOf(c, k);
    }
    SameRevisionsSameNext(c, u, k, next, k == KeyOfPosting(p));
  }

  /** With room left, no release has the name that the new one will print. */
  lemma RoomKeepsNameFree(c: Table, p: Posting, i: Id)
    requires LeavesRoom(c) && Postable(c, p)
    ensures !TakesName(c, i, RowOfPosting(c, p))
  {
    var q := RowOfPosting(c, p);
    PostingFacts(c, p);
    if TakesName(c, i, q) {
      NextRevisionIsNext(c, KeyOf(q));
      assert c[i].revision.value < q.revision.value;
      TagsNameRevision(q);
      assert Announces(Identifiers(c[i].parts.build), q.revision.value);
      assert false;
    }
  }

  lemma PostKeepsRoom(c: Table, p: Posting)
    requires LeavesRoom(c) && Postable(c, p)
    ensures LeavesRoom(Posted(c, p))
  {
    var u := Posted(c, p);
    PostingFacts(c, p);
    forall i, m: nat | i in u && u[i].revision == Some(0) && Announces(Identifiers(u[i].parts.build), m)
      ensures m < NextRevision(u, KeyOf(u[i]))
    {
      NextAfterPost(c, p, KeyOf(u[i]));
      if i == p.id {
        TagIsRevisionTag(m);
        ToDecimalInjective(m, 0);
      }
    }
  }

  lemma PostKeepsNames(c: Table, p: Posting)
    requires NamesLast(c) && Postable(c, p)
    ensures NamesLast(Posted(c, p))
  {
    PostingFacts(c, p);
    forall i ensures !TakesName(c, i, RowOfPosting(c, p)) {
      RoomKeepsNameFree(c, p, i);
    }
    PostKeepsNamesIff(c, p);
    PostKeepsRoom(c, p);
  }

  /** No affected release of revision 0 is made to announce a revision that its key has still to give. */
  ghost predicate BuildLeavesRoom(t: Table, ids: set<Id>, build: seq<string>) {
    forall i, m: nat | i in ids && i in t && t[i].revision == Some(0) && Announces(build, m) :: m < NextRevision(t, KeyOf(t[i]))
  }

  lemma PatchedNext(t: Table, ids: set<Id>, b: Body, k: Key)
    requires Protocol.ValidRows(t) && ValidBody(b) && IsBuildOnly(t, ids, b)
    ensures NextRevision(Patched(t, ids, b), k) == NextRevision(t, k)
  {
    var u := Patched(t, ids, b);
    PatchedIsValid(t, ids, b);
    forall r ensures r in RevisionsOf(t, k) <==> r in RevisionsOf(u, k) {
      if r in RevisionsOf(t, k) {
        var i :| i in t && KeyOf(t[i]) == k && t[i].revision == Some(r);
        assert i in u && KeyOf(u[i]) == k;
      }
    }
  }

  /** A PATCH of build metadata keeps names unique for good exactly if its build is free and leaves room. */
  lemma PatchKeepsNamesLastingIff(t: Table, ids: set<Id>, b: Body)
    requires NamesLast(t) && ValidBody(b) && IsBuildOnly(t, ids, b)
    ensures NamesLast(Patched(t, ids, b))
       <==> PatchIsFree(t, ids, b.semver.value.build) && BuildLeavesRoom(t, ids, b.semver.value.build)
  {
    var u, build := Patched(t, ids, b), b.semver.value.build;
    PatchedIsValid(t, ids, b);
    PatchKeepsNamesIff(t, ids, b);
    forall i | i in t && t[i].revision == Some(0)
      ensures Identifiers(u[i].parts.build) == if i in ids then build else Identifiers(t[i].parts.build)
      ensures KeyOf(u[i]) == KeyOf(t[i]) && NextRevision(u, KeyOf(t[i])) == NextRevision(t, KeyOf(t[i]))
    {
      PatchedRow(t, ids, b, i);
      PatchedNext(t, ids, b, KeyOf(t[i]));
    }
    RoomAfterPatch(t, u, ids, build);
  }

  lemma RoomAfterPatch(t: Table, u: Table, ids: set<Id>, build: seq<string>)
    requires LeavesRoom(t) && u.Keys == t.Keys && forall i :: i in t ==> u[i].revision == t[i].revision
    requires forall i :: i in t && t[i].revision == Some(0) ==>
               && Identifiers(u[i].parts.build) == (if i in ids then build else Identifiers(t[i].parts.build))
               && KeyOf(u[i]) == KeyOf(t[i]) && NextRevision(u, KeyOf(t[i])) == NextRevision(t, KeyOf(t[i]))
    ensures LeavesRoom(u) <==> BuildLeavesRoom(t, ids, build)
  {
    if LeavesRoom(u) {
      forall i, m: nat | i in ids && i in t && t[i].revision == Some(0) && Announces(build, m) ensures m < NextRevision(t, KeyOf(t[i])) {
        assert Announces(Identifiers(u[i].parts.build), m);
      }
    }
    if BuildLeavesRoom(t, ids, build) {
      forall i, m: nat | i in u && u[i].revision == Some(0) && Announces(Identifiers(u[i].parts.build), m)
        ensures m < NextRevision(u, KeyOf(u[i]))
      {
        assert i in t;
      }
    }
  }

  // ---- sequences of POSTs and PATCHes of build metadata ----

  datatype Change = Posts(posting: Posting) | Rebuilds(ids: set<Id>, body: Body)

  predicate Allowed(c: Table, x: Change) {
    match x
    case Posts(p) => Postable(c, p)
    case Rebuilds(ids, b) => ValidBody(b) && IsBuildOnly(c, ids, b)
  }

  function Changed(c: Table, x: Change): Table {
    match x
    case Posts(p) => Posted(c, p)
    case Rebuilds(ids, b) => Patched(c, ids, b)
  }

  predicate AllAllowed(c: Table, xs: seq<Change>)
    decreases |xs|
  {
    xs == [] || (Allowed(c, xs[0]) && AllAllowed(Changed(c, xs[0]), xs[1..]))
  }

  function AfterAll(c: Table, xs: seq<Change>): Table
    decreases |xs|
  {
    if xs == [] then c else AfterAll(Changed(c, xs[0]), xs[1..])
  }

  predicate OnlyPosts(xs: seq<Change>) {
    forall n :: 0 <= n < |xs| ==> xs[n].Posts?
  }

  /** The condition on a change that its caller can check in the table before it. */
  ghost predicate IsFree(c: Table, x: Change) {
    x.Rebuilds? && x.body.semver.Some? ==>
      PatchIsFree(c, x.ids, x.body.semver.value.build) && BuildLeavesRoom(c, x.ids, x.body.semver.value.build)
  }

  ghost predicate AllFree(c: Table, xs: seq<Change>)
    decreases |xs|
  {
    xs == [] || (IsFree(c, xs[0]) && AllFree(Changed(c, xs[0]), xs[1..]))
  }

  ghost predicate AlwaysLast(c: Table, xs: seq<Change>)
    decreases |xs|
  {
    NamesLast(c) && (xs == [] || AlwaysLast(Changed(c, xs[0]), xs[1..]))
  }

  /** Over any such sequence raw versions stay unique for good exactly if every PATCH in it is free when it comes. */
  lemma {:induction false} NamesLastIff(c: Table, xs: seq<Change>)
    requires NamesLast(c) && AllAllowed(c, xs)
    ensures AlwaysLast(c, xs) <==> AllFree(c, xs)
    ensures AllFree(c, xs) ==> NamesAreUnique(AfterAll(c, xs))
    decreases |xs|
  {
    if xs != [] {
      match xs[0] {
        case Posts(p) => PostKeepsNames(c, p);
        case Rebuilds(ids, b) => PatchKeepsNamesLastingIff(c, ids, b);
      }
      if IsFree(c, xs[0]) {
        NamesLastIff(Changed(c, xs[0]), xs[1..]);
      }
    }
  }

  lemma {:induction false} PostsAreFree(c: Table, xs: seq<Change>)
    requires OnlyPosts(xs)
    ensures AllFree(c, xs)
    decreases |xs|
  {
    if xs != [] {
      PostsAreFree(Changed(c, xs[0]), xs[1..]);
    }
  }

  // ---- without room, POSTs lead to a clash ----

  lemma FreshId(c: Table) returns (id: Id)
    ensures id !in c
  {
    if c.Keys == {} {
      id := 0;
    } else {
      MaxExists(c.Keys);
      var top :| top in c.Keys && forall x :: x in c.Keys ==> x <= top;
      id := top + 1;
    }
  }

  lemma StoredVersionIsStorable(parts: Parts)
    requires ValidParts(parts)
    ensures Storable(Restored(parts)) && Stored(Restored(parts)) == parts
  {
    JoinSplit(parts.prerelease, '.');
    JoinSplit(parts.build, '.');
  }

  /** A POST of the parts of a release, with this build or with none. */
  lemma Reposting(c: Table, i: Id, build: string) returns (p: Posting)
    requires Protocol.ValidRows(c) && i in c && build in {"", c[i].parts.build}
    ensures p.id !in c && KeyOfPosting(p) == KeyOf(c[i]) && Storable(p.version) && p.version.build == Identifiers(build)
  {
    var id := FreshId(c);
    StoredVersionIsStorable(c[i].parts.(build := build));
    p := Posting(id, c[i].app, Restored(c[i].parts.(build := build)), c[i].variant, 0);
  }

  /** POSTs up to the announced revision, and then one with the build that announced it. */
  lemma {:induction false} AnnouncedClash(c: Table, i: Id, m: nat) returns (xs: seq<Change>)
    requires Protocol.ValidRows(c) && i in c && c[i].revision == Some(0)
    requires Announces(Identifiers(c[i].parts.build), m) && NextRevision(c, KeyOf(c[i])) <= m
    ensures OnlyPosts(xs) && AllAllowed(c, xs) && !NamesAreUnique(AfterAll(c, xs))
    decreases m - NextRevision(c, KeyOf(c[i]))
  {
    if NextRevision(c, KeyOf(c[i])) == m {
      var p := Reposting(c, i, c[i].parts.build);
      PostingFacts(c, p);
      xs := [Posts(p)];
      assert xs[1..] == [] && AfterAll(Posted(c, p), []) == Posted(c, p);
      RawTextIff(c[i], RowOfPosting(c, p), 0, 0);
      assert SameShelf(Posted(c, p), i, p.id);
    } else {
      var p := Reposting(c, i, "");
      PostingFacts(c, p);
      NextAfterPost(c, p, KeyOf(c[i]));
      var rest := AnnouncedClash(Posted(c, p), i, m);
      xs := [Posts(p)] + rest;
      assert xs[1..] == rest;
    }
  }

  /** Exactly when no following POSTs of final releases, however many, can make two releases print alike. */
  lemma PostsKeepNamesIff(c: Table)
    requires Protocol.ValidRows(c)
    ensures (forall xs :: OnlyPosts(xs) && AllAllowed(c, xs) ==> NamesAreUnique(AfterAll(c, xs))) <==> NamesLast(c)
  {
    if NamesLast(c) {
      forall xs | OnlyPosts(xs) && AllAllowed(c, xs) ensures NamesAreUnique(AfterAll(c, xs)) {
        PostsAreFree(c, xs);
        NamesLastIff(c, xs);
      }
    } else if NamesAreUnique(c) {
      var i, m: nat :| i in c && c[i].revision == Some(0) && Announces(Identifiers(c[i].parts.build), m)
                       && !(m < NextRevision(c, KeyOf(c[i])));
      var xs := AnnouncedClash(c, i, m);
    } else {
      assert OnlyPosts([]) && AllAllowed(c, []) && AfterAll(c, []) == c;
    }
  }

  /** So much for a PATCH of build metadata: its condition is the one that lasts over all following POSTs. */
  lemma PatchLastsOverPostsIff(t: Table, ids: set<Id>, b: Body)
    requires NamesLast(t) && ValidBody(b) && IsBuildOnly(t, ids, b)
    ensures var u := Patched(t, ids, b);
            (forall xs :: OnlyPosts(xs) && AllAllowed(u, xs) ==> NamesAreUnique(AfterAll(u, xs)))
            <==> PatchIsFree(t, ids, b.semver.value.build) && BuildLeavesRoom(t, ids, b.semver.value.build)
  {
    PatchedIsValid(t, ids, b);
    PatchKeepsNamesLastingIff(t, ids, b);
    PostsKeepNamesIff(Patched(t, ids, b));
  }

  // ---- tables with honest tags ----

  /** With honest tags names are unique and last, and a build is free in the simpler sense. */
  lemma SoundNamesLast(t: Table)
    requires IsSound(t)
    ensures NamesLast(t)
  {
    forall i, j | SameShelf(t, i, j) && RawText(t[i], 0) == RawText(t[j], 0) ensures i == j {
      RawTextInjective(t[i], t[j], 0, 0);
    }
    forall i, m: nat | i in t && t[i].revision == Some(0) && Announces(Identifiers(t[i].parts.build), m)
      ensures m < NextRevision(t, KeyOf(t[i]))
    {
      TagIsRevisionTag(m);
      ToDecimalInjective(m, 0);
      NextRevisionIsNext(t, KeyOf(t[i]));
    }
  }

  lemma SoundFreeIff(t: Table, ids: set<Id>, b: Body)
    requires IsSound(t) && ValidBody(b) && IsBuildOnly(t, ids, b)
    ensures PatchIsFree(t, ids, b.semver.value.build) <==> BuildIsFree(t, ids, b.semver.value.build)
  {
    SoundNamesLast(t);
    PatchKeepsNamesIff(t, ids, b);
    NamesStayUniqueIff(t, ids, b);
  }

  // ---- as runs of the protocol ----

  function EventsOf(t: Protocol.TxId, x: Change): seq<Protocol.Event> {
    match x
    case Posts(p) => FinalPost(t, p.id, p.app, p.version, p.variant, p.now)
    case Rebuilds(ids, b) => UnselectedPatch(t, ids, b)
  }

  function AllEvents(t: Protocol.TxId, xs: seq<Change>): seq<Protocol.Event> {
    if xs == [] then [] else EventsOf(t, xs[0]) + AllEvents(t, xs[1..])
  }

  /** Every such sequence is a legal run, one request after the other. */
  lemma {:induction false} ChangesRun(c: Table, t: Protocol.TxId, xs: seq<Change>)
    requires AllAllowed(c, xs)
    ensures RunsTo(Protocol.State(c, map[]), AllEvents(t, xs), Protocol.State(AfterAll(c, xs), map[]))
    decreases |xs|
  {
    if xs != [] {
      match xs[0] {
        case Posts(p) => FinalPostRuns(c, t, p.id, p.app, p.version, p.variant, p.now);
        case Rebuilds(ids, b) => UnselectedPatchRuns(c, t, ids, b);
      }
      ChangesRun(Changed(c, xs[0]), t, xs[1..]);
      RunsThen(Protocol.State(c, map[]), EventsOf(t, xs[0]), Protocol.State(Changed(c, xs[0]), map[]),
               AllEvents(t, xs[1..]), Protocol.State(AfterAll(c, xs), map[]));
    }
  }

  // ---- a clash that comes after the PATCH ----

  /** 1.0.0 is posted and given the build `rev1`, which is free; the next 1.0.0 prints `1.0.0+rev1` as well. */
  function LateClash(): seq<Change> {
    [Posts(Posting(1, 7, PLAIN, "", 0)), Rebuilds({1}, RETAG), Posts(Posting(2, 7, PLAIN, "", 0))]
  }

  lemma FreePatchCanClashLater(t: Protocol.TxId, one: Table)
    requires one == map[1 := PostedRow(0)]
    ensures IsSound(one) && IsBuildOnly(one, {1}, RETAG) && BuildIsFree(one, {1}, RETAG.semver.value.build)
    ensures NamesAreUnique(Patched(one, {1}, RETAG))
    ensures var s := Protocol.State(map[], map[]);
            && Protocol.Legal(s, AllEvents(t, LateClash()))
            && !NamesAreUnique(Protocol.Run(s, AllEvents(t, LateClash())).committed)
  {
    var p, u := Posting(2, 7, PLAIN, "", 0), Patched(one, {1}, RETAG);
    RetaggedRow(one);
    NamesStayUniqueIff(one, {1}, RETAG);
    LateClashIsAllowed(one, u, p);
    ChangesRun(map[], t, LateClash());
    LatePostClashes(one, u, p);
  }

  lemma RetaggedRow(one: Table)
    requires one == map[1 := PostedRow(0)]
    ensures IsSound(one) && ValidBody(RETAG) && IsBuildOnly(one, {1}, RETAG) && BuildIsFree(one, {1}, RETAG.semver.value.build)
    ensures var u := Patched(one, {1}, RETAG);
            u == map[1 := PostedRow(0).(parts := Parts(1, 0, 0, "", "rev1"))] && NextRevision(u, KeyFor(7, PLAIN, "")) == 1
  {
    VersionsAreStorable();
    NextOfEmptyAndOne();
    PatchedNext(one, {1}, RETAG, KeyFor(7, PLAIN, ""));
  }

  lemma LatePostClashes(one: Table, u: Table, p: Posting)
    requires one == map[1 := PostedRow(0)] && u == Patched(one, {1}, RETAG) && p == Posting(2, 7, PLAIN, "", 0)
    ensures !NamesAreUnique(Posted(u, p))
  {
    RetaggedRow(one);
    VersionsAreStorable();
    var q := RowOfPosting(u, p);
    assert ToDecimal(1) == "1" && Tag(1) == "rev1" && TaggedIdentifiers(q) == ["rev1"];
    RawTextIff(u[1], q, 0, 0);
    assert SameShelf(Posted(u, p), 1, 2);
  }

  lemma LateClashIsAllowed(one: Table, u: Table, p: Posting)
    requires one == map[1 := PostedRow(0)] && u == Patched(one, {1}, RETAG) && p == Posting(2, 7, PLAIN, "", 0)
    ensures AllAllowed(map[], LateClash()) && AfterAll(map[], LateClash()) == Posted(u, p)
  {
    VersionsAreStorable();
    NextOfEmptyAndOne();
    RetaggedRow(one);
    var xs := LateClash();
    assert Posted(map[], Posting(1, 7, PLAIN, "", 0)) == one;
    assert xs[1..] == [Rebuilds({1}, RETAG), Posts(p)] && xs[1..][1..] == [Posts(p)] && xs[1..][1..][1..] == [];
    assert AllAllowed(Posted(u, p), []) && AfterAll(Posted(u, p), []) == Posted(u, p);
    assert AllAllowed(u, [Posts(p)]) && AfterAll(u, [Posts(p)]) == Posted(u, p);
    assert AllAllowed(one, xs[1..]) && AfterAll(one, xs[1..]) == Posted(u, p);
  }
}
