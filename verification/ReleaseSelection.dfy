/** The query with which a PATCH of releases selects those that need a revision: its filters, and its order. */
module ReleaseSelection {
  import opened Basics
  import opened Releases
  import Protocol = RevisionProtocol
  import opened SemverText

  /** One filter of the query; all but the first also ask for a finalized release. */
  datatype Filter = IsDraft | OtherVersion(v: SemVer) | OtherApp(app: AppId) | OtherVariant(variant: string)

  predicate Matches(f: Filter, r: Release) {
    match f
    case IsDraft => r.revision.None?
    case OtherVersion(v) =>
      && r.revision.Some?
      && !(&& r.parts.major == v.major && r.parts.minor == v.minor && r.parts.patch == v.patch
           && r.parts.prerelease == Join(v.prerelease, '.'))
    case OtherApp(app) => r.revision.Some? && r.app != app
    case OtherVariant(variant) => r.revision.Some? && r.variant != variant
  }

  /** `$or` of the filters. */
  predicate MatchesAny(filters: seq<Filter>, r: Release) {
    exists n :: 0 <= n < |filters| && Matches(filters[n], r)
  }

  lemma MatchesMore(filters: seq<Filter>, more: Filter, r: Release)
    ensures MatchesAny(filters + [more], r) <==> MatchesAny(filters, r) || Matches(more, r)
  {
    var all := filters + [more];
    if n :| 0 <= n < |filters| && Matches(filters[n], r) {
      assert all[n] == filters[n];
    }
    if Matches(more, r) {
      assert all[|filters|] == more;
    }
  }

  lemma MatchesEither(a: seq<Filter>, b: seq<Filter>, r: Release)
    ensures MatchesAny(a + b, r) <==> MatchesAny(a, r) || MatchesAny(b, r)
  {
    var all := a + b;
    if n :| 0 <= n < |a| && Matches(a[n], r) {
      assert all[n] == a[n];
    }
    if n :| 0 <= n < |b| && Matches(b[n], r) {
      assert all[|a| + n] == b[n];
    }
    if n :| 0 <= n < |all| && Matches(all[n], r) {
      assert n < |a| ==> all[n] == a[n];
      assert n >= |a| ==> all[n] == b[n - |a|];
    }
  }

  /** The filters for the key parts that the body sets find the finalized releases that change their key. */
  method UniqueConstraintPartFilters(b: Body) returns (filters: seq<Filter>)
    ensures forall r :: MatchesAny(filters, r) <==> r.revision.Some? && !SameKeyParts(r, Updated(r, b))
    ensures filters == [] <==> b.semver.None? && b.app.None? && b.variant.None?
  {
    filters := [];
    if b.semver.Some? {
      filters := filters + [OtherVersion(b.semver.value)];
    }
    ghost var versions := filters;
    if b.app.Some? {
      filters := filters + [OtherApp(b.app.value)];
    }
    ghost var apps := filters;
    if b.variant.Some? {
      filters := filters + [OtherVariant(b.variant.value)];
    }
    forall r ensures MatchesAny(filters, r) <==> r.revision.Some? && !SameKeyParts(r, Updated(r, b)) {
      ChangesKeyIff(r, b);
      if b.semver.Some? {
        MatchesMore([], OtherVersion(b.semver.value), r);
        assert [] + [OtherVersion(b.semver.value)] == versions;
      }
      if b.app.Some? {
        MatchesMore(versions, OtherApp(b.app.value), r);
      }
      if b.variant.Some? {
        MatchesMore(apps, OtherVariant(b.variant.value), r);
      }
    }
  }

  /** Of the affected releases, the drafts that the body finalizes and the finalized ones whose key it changes. */
  ghost predicate ChoosesThem(rows: seq<Choice>, t: Table, ids: set<Id>, b: Body) {
    forall i :: i in ids && i in t ==>
      (i in Protocol.IdsOf(rows) <==>
         if t[i].revision.None? then b.isFinal == Some(true) else !SameKeyParts(t[i], Updated(t[i], b)))
  }

  lemma SelectionMeaning(rows: seq<Choice>, t: Table, ids: set<Id>, b: Body)
    requires Protocol.IsSelection(rows, t, ids, b)
    ensures ChoosesThem(rows, t, ids, b)
  {
    forall i | i in ids && i in t
      ensures i in Protocol.IdsOf(rows) <==>
          if t[i].revision.None? then b.isFinal == Some(true) else !SameKeyParts(t[i], Updated(t[i], b))
    {
      SelectsIff(t[i], b);
      if i in Protocol.IdsOf(rows) {
        var c :| c in rows && c.id == i;
      }
    }
  }

  // ---- the order ----

  lemma PrecedesIsTotal(a: Choice, b: Choice)
    requires a.id != b.id
    ensures Protocol.Precedes(a, b) != Protocol.Precedes(b, a)
  {
  }

  lemma PrecedesIsTransitive(a: Choice, b: Choice, c: Choice)
    requires Protocol.Precedes(a, b) && Protocol.Precedes(b, c)
    ensures Protocol.Precedes(a, c)
  {
  }

  /** The first of some rows in the order of the query. */
  method First(t: Table, ids: set<Id>) returns (first: Id)
    requires ids != {} && ids <= t.Keys
    ensures first in ids
    ensures forall i :: i in ids && i != first ==> Protocol.Precedes(Choice(first, t[first]), Choice(i, t[i]))
  {
    ghost var some := Pick(ids);
    first :| first in ids;
    var rest := ids - {first};
    while rest != {}
      invariant rest <= ids && first in ids - rest
      invariant forall i :: i in ids - rest && i != first ==> Protocol.Precedes(Choice(first, t[first]), Choice(i, t[i]))
      decreases |rest|
    {
      ghost var other := Pick(rest);
      var i :| i in rest;
      PrecedesIsTotal(Choice(first, t[first]), Choice(i, t[i]));
      if Protocol.Precedes(Choice(i, t[i]), Choice(first, t[first])) {
        forall j | j in ids - rest && j != first ensures Protocol.Precedes(Choice(i, t[i]), Choice(j, t[j])) {
          PrecedesIsTransitive(Choice(i, t[i]), Choice(first, t[first]), Choice(j, t[j]));
        }
        first := i;
      }
      rest := rest - {i};
    }
  }

  ghost predicate InOrder(rows: seq<Choice>) {
    forall i, j :: 0 <= i < j < |rows| ==> Protocol.Precedes(rows[i], rows[j])
  }

  /** The rows among `ids` that match a filter, by application, finalization date and id. */
  method Query(t: Table, ids: set<Id>, filters: seq<Filter>) returns (rows: seq<Choice>)
    ensures Protocol.IdsDistinct(rows) && InOrder(rows)
    ensures forall c :: c in rows <==> c.id in ids && c.id in t && c.row == t[c.id] && MatchesAny(filters, c.row)
  {
    var matching := set i | i in ids && i in t && MatchesAny(filters, t[i]);
    var rest := matching;
    rows := [];
    while rest != {}
      invariant rest <= matching && InOrder(rows)
      invariant forall n :: 0 <= n < |rows| ==> rows[n].id in matching - rest && rows[n].row == t[rows[n].id]
      invariant forall i :: i in matching - rest ==> Choice(i, t[i]) in rows
      invariant forall n, i :: 0 <= n < |rows| && i in rest ==> Protocol.Precedes(rows[n], Choice(i, t[i]))
      decreases |rest|
    {
      var first := First(t, rest);
      ghost var before := rows;
      rows := rows + [Choice(first, t[first])];
      rest := rest - {first};
      assert forall c :: c in before ==> c in rows;
      assert Choice(first, t[first]) in rows;
    }
    forall i, j | 0 <= i < j < |rows| ensures rows[i].id != rows[j].id {
      assert Protocol.Precedes(rows[i], rows[j]);
    }
    forall c: Choice | c.id in ids && c.id in t && c.row == t[c.id] && MatchesAny(filters, c.row) ensures c in rows {
      assert c.id in matching && c == Choice(c.id, t[c.id]);
    }
  }

  /** A selection is determined by the table, the ids and the body. */
  lemma SelectionIsUnique(a: seq<Choice>, b: seq<Choice>, t: Table, ids: set<Id>, body: Body)
    requires Protocol.IsSelection(a, t, ids, body) && Protocol.IsSelection(b, t, ids, body)
    ensures a == b
  {
    forall c ensures c in a <==> c in b {
      SelectedInBoth(a, b, t, ids, body, c);
      SelectedInBoth(b, a, t, ids, body, c);
    }
    SameInOrder(a, b);
  }

  lemma SelectedInBoth(a: seq<Choice>, b: seq<Choice>, t: Table, ids: set<Id>, body: Body, c: Choice)
    requires Protocol.IsSelection(a, t, ids, body) && Protocol.IsSelection(b, t, ids, body)
    ensures c in a ==> c in b
  {
    if c in a {
      assert c.id in Protocol.IdsOf(b);
      var d :| d in b && d.id == c.id;
      assert d == c;
    }
  }

  /** Two lists in order with the same elements are the same. */
  lemma {:induction false} SameInOrder(a: seq<Choice>, b: seq<Choice>)
    requires InOrder(a) && InOrder(b) && forall c :: c in a <==> c in b
    ensures a == b
  {
    if a == [] {
      assert forall n | 0 <= n < |b| :: b[n] in b;
    } else {
      assert a[0] in b && b[0] in a by {
        assert a[0] in a && b != [] ==> b[0] in b;
      }
      assert a[0] == b[0];
      forall c ensures c in a[1..] <==> c in b[1..] {
        assert c in a <==> c == a[0] || c in a[1..];
        assert c in b <==> c == b[0] || c in b[1..];
        assert a[0] !in a[1..] && b[0] !in b[1..];
      }
      SameInOrder(a[1..], b[1..]);
    }
  }
}
