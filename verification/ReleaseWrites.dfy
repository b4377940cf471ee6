/** What a PATCH and a POST of releases leave in the table, in the fields of its rows. */
module ReleaseWrites {
  import opened Basics
  import opened Releases
  import opened Renumbering
  import Protocol = RevisionProtocol
  import opened SemverText

  /** The main UPDATE after the selection has lost its revisions. */
  function AfterUpdate(t: Table, ids: set<Id>, selected: seq<Choice>, b: Body): Table {
    var cleared := t + Protocol.ClearedRows(t, selected);
    cleared + Protocol.UpdatedRows(cleared, ids, b)
  }

  lemma ClearedWhenSelected(t: Table, ids: set<Id>, rows: seq<Choice>, b: Body, i: Id)
    requires Protocol.IsSelection(rows, t, ids, b) && i in ids && i in t
    ensures i in Protocol.IdsOf(rows) <==> Selects(t[i], b)
    ensures (t + Protocol.ClearedRows(t, rows))[i] == if Selects(t[i], b) then Cleared(t[i]) else t[i]
  {
    if i in Protocol.IdsOf(rows) {
      var c :| c in rows && c.id == i;
    }
  }

  /** After the main UPDATE the selection waits for numbers, and nothing clashes. */
  lemma UpdatedSelection(t: Table, ids: set<Id>, rows: seq<Choice>, b: Body)
    requires Unique(t) && Protocol.ValidRows(t) && ids <= t.Keys && ValidBody(b) && Protocol.IsSelection(rows, t, ids, b)
    ensures AwaitNumbers(AfterUpdate(t, ids, rows, b), rows, b)
    ensures Unique(AfterUpdate(t, ids, rows, b))
  {
    var u := AfterUpdate(t, ids, rows, b);
    forall i | i in ids
      ensures i in u && u[i] == Updated(if Selects(t[i], b) then Cleared(t[i]) else t[i], b)
      ensures IsFinal(u[i]) ==> KeyOf(u[i]) == KeyOf(t[i]) && u[i].revision == t[i].revision
    {
      ClearedWhenSelected(t, ids, rows, b, i);
      if !Selects(t[i], b) && IsFinal(t[i]) {
        UnselectedKeepsKey(t[i], b);
      }
    }
    forall c | c in rows ensures AwaitsNumber(u, c, b) {
      assert c.id in ids && t[c.id] == c.row;
    }
    OthersUntouched(t, ids, rows, b);
  }

  lemma OthersUntouched(t: Table, ids: set<Id>, rows: seq<Choice>, b: Body)
    requires ids <= t.Keys && Protocol.IsSelection(rows, t, ids, b)
    ensures AfterUpdate(t, ids, rows, b).Keys == t.Keys
    ensures forall i :: i in t && i !in ids ==> AfterUpdate(t, ids, rows, b)[i] == t[i]
  {
  }

  lemma SelectedIds(t: Table, ids: set<Id>, rows: seq<Choice>, b: Body, i: Id)
    requires Protocol.IsSelection(rows, t, ids, b) && i in ids && i in t
    ensures i in IdsIn(rows) <==> Selects(t[i], b)
  {
    IdsInFacts(rows);
    ClearedWhenSelected(t, ids, rows, b, i);
    if Selects(t[i], b) {
      var c :| c in rows && c.id == i;
      var n :| 0 <= n < |rows| && rows[n] == c;
      assert IdsIn(rows)[n] == i;
    }
    if i in IdsIn(rows) {
      var n :| 0 <= n < |rows| && IdsIn(rows)[n] == i;
      assert rows[n] in rows;
    }
  }

  lemma FinalAfterwards(t: Table, ids: set<Id>, rows: seq<Choice>, b: Body, now: int)
    requires ids <= t.Keys && Protocol.IsSelection(rows, t, ids, b)
    requires AwaitNumbers(AfterUpdate(t, ids, rows, b), rows, b) && Unique(AfterUpdate(t, ids, rows, b))
    ensures var after := Renumber(AfterUpdate(t, ids, rows, b), b, IdsIn(rows), now);
            && Unique(after)
            && forall i :: i in ids ==> i in after && (IsFinal(after[i]) <==> b.isFinal == Some(true) || IsFinal(t[i]))
  {
    var u := AfterUpdate(t, ids, rows, b);
    AwaitingIsUnnumbered(u, rows, b);
    RenumberKeepsUnique(u, b, IdsIn(rows), now);
    RenumberFrame(u, b, IdsIn(rows), now);
    forall i | i in ids
      ensures i in u && (i in IdsIn(rows) <==> Selects(t[i], b))
      ensures u[i].revision.Some? <==> t[i].revision.Some? && !Selects(t[i], b)
    {
      ClearedWhenSelected(t, ids, rows, b, i);
      SelectedIds(t, ids, rows, b, i);
    }
  }

  // ---- in the fields of the rows ----

  /** The row of an affected release before and after: the fields of the body, its finality, and its date. */
  predicate RowLeft(r: Release, q: Release, b: Body, now: int) {
    && q.app == (if b.app.Some? then b.app.value else r.app)
    && q.variant == (if b.variant.Some? then b.variant.value else r.variant)
    && (b.semver.None? ==> q.parts == r.parts)
    && (b.semver.Some? ==>
          var v := b.semver.value;
          q.parts == Parts(v.major, v.minor, v.patch, Join(v.prerelease, '.'), Join(v.build, '.')))
    && (q.revision.Some? <==> b.isFinal == Some(true) || r.revision.Some?)
    && (r.revision.Some? && SameKeyParts(r, q) ==> q.revision == r.revision)
    && q.finalizedAt == (if r.finalizedAt.None? && b.isFinal == Some(true) && IsRenumbered(r, q) then Some(now) else r.finalizedAt)
  }

  /** The release is finalized, or moved to another key. */
  predicate IsRenumbered(r: Release, q: Release) {
    q.revision.Some? && (r.revision.None? || !SameKeyParts(r, q))
  }

  /** By application, then by finalization date with drafts last, then by id. */
  predicate ComesBefore(i: Id, r: Release, j: Id, q: Release) {
    || r.app < q.app
    || (r.app == q.app && r.finalizedAt.Some? && q.finalizedAt.None?)
    || (r.app == q.app && r.finalizedAt.Some? && q.finalizedAt.Some? && r.finalizedAt.value < q.finalizedAt.value)
    || (r.app == q.app && r.finalizedAt == q.finalizedAt && i < j)
  }

  /** Its revision is above every other of its key, but for those renumbered after it. */
  predicate IsInLine(t: Table, u: Table, i: Id, j: Id)
    requires i in t && i in u && j in t && j in u
  {
    i != j && u[i].revision.Some? && u[j].revision.Some? && SameKeyParts(u[i], u[j]) ==>
      if IsRenumbered(t[j], u[j]) then (u[j].revision.value < u[i].revision.value <==> ComesBefore(j, t[j], i, t[i]))
      else u[j].revision.value < u[i].revision.value
  }

  /** The revision below, unless it is 0, is in use in its key. */
  ghost predicate LeavesNoGap(u: Table, i: Id)
    requires i in u
  {
    u[i].revision.Some? && u[i].revision.value > 0 ==> exists j :: j in u && IsJustBelow(u[j], u[i])
  }

  predicate IsJustBelow(r: Release, q: Release) {
    SameKeyParts(r, q) && r.revision.Some? && q.revision == Some(r.revision.value + 1)
  }

  /**
    All that a PATCH leaves: rows it does not affect, the fields of those it affects, and the revisions of those it
    renumbers, which come in the order of the selection directly after the others of their key.
   */
  ghost predicate PatchLeaves(t: Table, u: Table, ids: set<Id>, b: Body, now: int) {
    && u.Keys == t.Keys
    && (forall i :: i in t && i !in ids ==> u[i] == t[i])
    && (forall i :: i in t && i in ids ==> RowLeft(t[i], u[i], b, now))
    && (forall i :: i in t && i in ids && IsRenumbered(t[i], u[i]) ==>
          LeavesNoGap(u, i) && forall j :: j in t ==> IsInLine(t, u, i, j))
  }

  /** All that a POST leaves: one more row, with the fields of the body, numbered directly after the others of its key. */
  ghost predicate PostLeaves(t: Table, u: Table, id: Id, app: AppId, v: SemVer, variant: string, isFinal: bool, now: int) {
    && u.Keys == t.Keys + {id}
    && (forall i :: i in t ==> u[i] == t[i])
    && u[id].app == app && u[id].variant == variant
    && u[id].parts == Parts(v.major, v.minor, v.patch, Join(v.prerelease, '.'), Join(v.build, '.'))
    && (u[id].revision.Some? <==> isFinal)
    && u[id].finalizedAt == (if isFinal then Some(now) else None)
    && LeavesNoGap(u, id)
    && (forall j :: j in t && SameKeyParts(t[j], u[id]) && t[j].revision.Some? && isFinal
                    ==> t[j].revision.value < u[id].revision.value)
  }

  lemma UnselectedRowIsLeft(r: Release, b: Body, now: int)
    requires !Selects(r, b)
    ensures RowLeft(r, Updated(r, b), b, now) && !IsRenumbered(r, Updated(r, b))
  {
    SelectsIff(r, b);
  }

  lemma SelectedRowIsLeft(r: Release, b: Body, revision: nat, now: int)
    requires Selects(r, b)
    ensures var q := Numbered(Updated(Cleared(r), b), b, revision, now); RowLeft(r, q, b, now) && IsRenumbered(r, q)
  {
    SelectsIff(r, b);
  }

  lemma RowIsLeft(t: Table, ids: set<Id>, rows: seq<Choice>, b: Body, now: int, i: Id)
    requires ids <= t.Keys && Protocol.IsSelection(rows, t, ids, b) && i in ids
    requires AwaitNumbers(AfterUpdate(t, ids, rows, b), rows, b)
    ensures var u := Renumber(AfterUpdate(t, ids, rows, b), b, IdsIn(rows), now);
            i in u && RowLeft(t[i], u[i], b, now) && (IsRenumbered(t[i], u[i]) <==> i in IdsIn(rows))
  {
    var v, list := AfterUpdate(t, ids, rows, b), IdsIn(rows);
    ClearedWhenSelected(t, ids, rows, b, i);
    SelectedIds(t, ids, rows, b, i);
    AwaitingIsUnnumbered(v, rows, b);
    RenumberFrame(v, b, list, now);
    if i in list {
      var n :| 0 <= n < |list| && list[n] == i;
      RenumberAt(v, b, list, now, n);
      SelectedRowIsLeft(t[i], b, NextRevision(v, KeyOf(v[i])) + CountBefore(v, list, n), now);
    } else {
      UnselectedRowIsLeft(t[i], b, now);
    }
  }

  // ---- the revisions of what is renumbered ----

  /** Later releases of one key have more earlier ones of it. */
  lemma CountGrows(t: Table, ids: seq<Id>, m: nat, n: nat)
    requires m < n < |ids| && ids[m] in t && ids[n] in t && KeyOf(t[ids[m]]) == KeyOf(t[ids[n]])
    ensures CountBefore(t, ids, m) < CountBefore(t, ids, n)
  {
    var k := KeyOf(t[ids[m]]);
    assert ids[..n] == ids[..m] + ([ids[m]] + ids[m + 1..n]);
    InKeyConcat(t, ids[..m], [ids[m]] + ids[m + 1..n], k);
    InKeyConcat(t, [ids[m]], ids[m + 1..n], k);
    assert [ids[m]][1..] == [];
  }

  /** For every count below that of the n-th there is an earlier release of the key with it. */
  lemma CountReached(t: Table, ids: seq<Id>, n: nat, count: nat) returns (m: nat)
    requires Distinct(ids) && n < |ids| && ids[n] in t && count < CountBefore(t, ids, n)
    ensures m < n && ids[m] in t && KeyOf(t[ids[m]]) == KeyOf(t[ids[n]]) && CountBefore(t, ids, m) == count
  {
    var k := KeyOf(t[ids[n]]);
    var own := InKey(t, ids[..n], k);
    InKeyMembers(t, ids[..n], k);
    assert own[count] in own;
    m :| 0 <= m < n && ids[..n][m] == own[count];
    assert Distinct(ids[..n]);
    PositionInKey(t, ids[..n], m);
    assert ids[..n][..m] == ids[..m];
    assert own[CountBefore(t, ids, m)] == own[count];
  }

  /** The n-th of the list has got the next revision of its key, plus one for each earlier one of its key. */
  ghost predicate IsRanked(v: Table, u: Table, list: seq<Id>, n: nat) {
    && n < |list| && list[n] in v && list[n] in u && KeyOf(u[list[n]]) == KeyOf(v[list[n]])
    && u[list[n]].revision == Some(NextRevision(v, KeyOf(v[list[n]])) + CountBefore(v, list, n))
  }

  /** `u` is `v` with the list renumbered. */
  ghost predicate AreRanked(v: Table, u: Table, list: seq<Id>) {
    && AreUnnumbered(v, list) && u.Keys == v.Keys
    && (forall n :: 0 <= n < |list| ==> IsRanked(v, u, list, n))
    && (forall i :: i in v && i !in list ==> u[i] == v[i])
  }

  lemma RenumberRanks(v: Table, b: Body, list: seq<Id>, now: int)
    requires AreUnnumbered(v, list)
    ensures AreRanked(v, Renumber(v, b, list, now), list)
  {
    RenumberFrame(v, b, list, now);
    forall n | 0 <= n < |list| ensures IsRanked(v, Renumber(v, b, list, now), list, n) {
      RenumberAt(v, b, list, now, n);
    }
  }

  lemma RanksGrow(v: Table, u: Table, list: seq<Id>, m: nat, n: nat)
    requires IsRanked(v, u, list, m) && IsRanked(v, u, list, n) && m < n && KeyOf(u[list[m]]) == KeyOf(u[list[n]])
    ensures u[list[m]].revision.value < u[list[n]].revision.value
  {
    CountGrows(v, list, m, n);
  }

  lemma RanksAboveOthers(v: Table, u: Table, list: seq<Id>, n: nat, j: Id)
    requires IsRanked(v, u, list, n) && j in v && j in u && u[j] == v[j] && u[j].revision.Some?
    requires KeyOf(u[j]) == KeyOf(u[list[n]])
    ensures u[j].revision.value < u[list[n]].revision.value
  {
    NextRevisionIsNext(v, KeyOf(v[list[n]]));
  }

  lemma RanksLeaveNoGap(v: Table, u: Table, list: seq<Id>, n: nat)
    requires AreRanked(v, u, list) && n < |list|
    ensures list[n] in u && LeavesNoGap(u, list[n])
  {
    assert IsRanked(v, u, list, n);
    var count := CountBefore(v, list, n);
    if count > 0 {
      RankBelow(v, u, list, n, count - 1);
    } else if NextRevision(v, KeyOf(v[list[n]])) > 0 {
      LastBelow(v, u, list, n);
    }
  }

  lemma RankBelow(v: Table, u: Table, list: seq<Id>, n: nat, count: nat)
    requires AreRanked(v, u, list) && IsRanked(v, u, list, n) && CountBefore(v, list, n) == count + 1
    ensures LeavesNoGap(u, list[n])
  {
    var m := CountReached(v, list, n, count);
    assert IsRanked(v, u, list, m);
    var i, j := list[n], list[m];
    SameKeyIff(u[j], u[i]);
    assert IsJustBelow(u[j], u[i]);
  }

  lemma LastBelow(v: Table, u: Table, list: seq<Id>, n: nat)
    requires AreRanked(v, u, list) && IsRanked(v, u, list, n) && CountBefore(v, list, n) == 0
    requires NextRevision(v, KeyOf(v[list[n]])) > 0
    ensures LeavesNoGap(u, list[n])
  {
    var k := KeyOf(v[list[n]]);
    NextRevisionIsNext(v, k);
    var i := list[n];
    var j :| j in v && KeyOf(v[j]) == k && v[j].revision == Some(NextRevision(v, k) - 1);
    assert j in u && j !in list;
    SameKeyIff(u[j], u[i]);
    assert IsJustBelow(u[j], u[i]);
  }

  /** The order of the selection, on the rows of the table. */
  lemma SelectionOrder(t: Table, ids: set<Id>, rows: seq<Choice>, b: Body, m: nat, n: nat)
    requires Protocol.IsSelection(rows, t, ids, b) && m < n < |rows|
    ensures rows[m].id in t && rows[n].id in t && rows[m].id != rows[n].id
    ensures var i, j := rows[m].id, rows[n].id; ComesBefore(i, t[i], j, t[j]) && !ComesBefore(j, t[j], i, t[i])
  {
    assert rows[m] in rows && rows[n] in rows;
    assert Protocol.Precedes(rows[m], rows[n]);
  }

  lemma SelectedAreInLine(t: Table, v: Table, u: Table, ids: set<Id>, rows: seq<Choice>, b: Body, m: nat, n: nat)
    requires Protocol.IsSelection(rows, t, ids, b) && AreRanked(v, u, IdsIn(rows)) && u.Keys == t.Keys
    requires |IdsIn(rows)| == |rows| && m < n < |rows| && IdsIn(rows)[m] == rows[m].id && IdsIn(rows)[n] == rows[n].id
    requires rows[m].id in t && rows[n].id in t
    requires IsRenumbered(t[rows[m].id], u[rows[m].id]) && IsRenumbered(t[rows[n].id], u[rows[n].id])
    ensures IsInLine(t, u, rows[m].id, rows[n].id) && IsInLine(t, u, rows[n].id, rows[m].id)
  {
    var i, j := rows[m].id, rows[n].id;
    SelectionOrder(t, ids, rows, b, m, n);
    assert IsRanked(v, u, IdsIn(rows), m) && IsRanked(v, u, IdsIn(rows), n);
    SameKeyIff(u[i], u[j]);
    if KeyOf(u[i]) == KeyOf(u[j]) {
      RanksGrow(v, u, IdsIn(rows), m, n);
    }
  }

  lemma OtherIsBelow(t: Table, v: Table, u: Table, list: seq<Id>, n: nat, j: Id)
    requires IsRanked(v, u, list, n) && list[n] in t && j in t && j in u && j in v && u[j] == v[j]
    requires !IsRenumbered(t[j], u[j])
    ensures IsInLine(t, u, list[n], j)
  {
    SameKeyIff(u[list[n]], u[j]);
    if u[j].revision.Some? && KeyOf(u[j]) == KeyOf(u[list[n]]) {
      RanksAboveOthers(v, u, list, n, j);
    }
  }

  /** A release that was not selected is not renumbered. */
  lemma OthersKeepTheirNumber(t: Table, ids: set<Id>, rows: seq<Choice>, b: Body, now: int, j: Id)
    requires ids <= t.Keys && Protocol.IsSelection(rows, t, ids, b) && j in t
    requires AwaitNumbers(AfterUpdate(t, ids, rows, b), rows, b)
    ensures var u := Renumber(AfterUpdate(t, ids, rows, b), b, IdsIn(rows), now);
            j in u && (IsRenumbered(t[j], u[j]) <==> j in IdsIn(rows)) && (j !in ids ==> u[j] == t[j])
  {
    if j in ids {
      RowIsLeft(t, ids, rows, b, now, j);
    } else {
      IdsInFacts(rows);
      OthersUntouched(t, ids, rows, b);
      RenumberFrame(AfterUpdate(t, ids, rows, b), b, IdsIn(rows), now);
      assert j !in IdsIn(rows) by {
        forall n | 0 <= n < |rows| ensures IdsIn(rows)[n] != j {
          assert rows[n] in rows;
        }
      }
    }
  }

  lemma RenumberedIsInLine(t: Table, v: Table, u: Table, ids: set<Id>, rows: seq<Choice>, b: Body, n: nat, j: Id)
    requires Protocol.IsSelection(rows, t, ids, b) && AreRanked(v, u, IdsIn(rows)) && u.Keys == t.Keys
    requires forall k :: k in t ==> (IsRenumbered(t[k], u[k]) <==> k in IdsIn(rows))
    requires n < |IdsIn(rows)| && IdsIn(rows)[n] in t && j in t
    ensures IsInLine(t, u, IdsIn(rows)[n], j)
  {
    var list := IdsIn(rows);
    IdsInFacts(rows);
    assert IsRanked(v, u, list, n) && list[n] in list;
    if j in list {
      var m :| 0 <= m < |list| && list[m] == j;
      if m < n {
        SelectedAreInLine(t, v, u, ids, rows, b, m, n);
      } else if n < m {
        SelectedAreInLine(t, v, u, ids, rows, b, n, m);
      }
    } else {
      OtherIsBelow(t, v, u, list, n, j);
    }
  }

  /** So a PATCH leaves what it should. */
  lemma PatchMeaning(t: Table, ids: set<Id>, rows: seq<Choice>, b: Body, now: int)
    requires ids <= t.Keys && Protocol.IsSelection(rows, t, ids, b)
    requires AwaitNumbers(AfterUpdate(t, ids, rows, b), rows, b)
    ensures PatchLeaves(t, Renumber(AfterUpdate(t, ids, rows, b), b, IdsIn(rows), now), ids, b, now)
  {
    var v, list := AfterUpdate(t, ids, rows, b), IdsIn(rows);
    var u := Renumber(v, b, list, now);
    OthersUntouched(t, ids, rows, b);
    AwaitingIsUnnumbered(v, rows, b);
    RenumberRanks(v, b, list, now);
    forall i | i in t ensures (IsRenumbered(t[i], u[i]) <==> i in list) && (i !in ids ==> u[i] == t[i]) {
      OthersKeepTheirNumber(t, ids, rows, b, now, i);
    }
    forall i | i in t && i in ids ensures RowLeft(t[i], u[i], b, now) {
      RowIsLeft(t, ids, rows, b, now, i);
    }
    RenumberedFallInLine(t, v, u, ids, rows, b);
  }

  lemma RenumberedFallInLine(t: Table, v: Table, u: Table, ids: set<Id>, rows: seq<Choice>, b: Body)
    requires Protocol.IsSelection(rows, t, ids, b) && AreRanked(v, u, IdsIn(rows)) && u.Keys == t.Keys
    requires forall k :: k in t ==> (IsRenumbered(t[k], u[k]) <==> k in IdsIn(rows))
    ensures forall i :: i in t && IsRenumbered(t[i], u[i])
              ==> LeavesNoGap(u, i) && forall j :: j in t ==> IsInLine(t, u, i, j)
  {
    forall i | i in t && IsRenumbered(t[i], u[i])
      ensures LeavesNoGap(u, i) && forall j :: j in t ==> IsInLine(t, u, i, j)
    {
      var n :| 0 <= n < |IdsIn(rows)| && IdsIn(rows)[n] == i;
      RanksLeaveNoGap(v, u, IdsIn(rows), n);
      forall j | j in t ensures IsInLine(t, u, i, j) {
        RenumberedIsInLine(t, v, u, ids, rows, b, n, j);
      }
    }
  }

  /** So does a POST. */
  lemma PostMeaning(t: Table, id: Id, app: AppId, v: SemVer, variant: string, isFinal: bool, now: int)
    requires id !in t
    ensures var next := NextRevision(t, KeyFor(app, v, variant));
            var row := Release(app, Stored(v), variant, if isFinal then Some(next) else None, if isFinal then Some(now) else None);
            PostLeaves(t, t[id := row], id, app, v, variant, isFinal, now)
  {
    var k := KeyFor(app, v, variant);
    var next := NextRevision(t, k);
    var row := Release(app, Stored(v), variant, if isFinal then Some(next) else None, if isFinal then Some(now) else None);
    var u := t[id := row];
    NextRevisionIsNext(t, k);
    forall j | j in t ensures KeyOf(t[j]) == k <==> SameKeyParts(t[j], row) {
      SameKeyIff(t[j], row);
    }
    if isFinal && next > 0 {
      var j :| j in t && KeyOf(t[j]) == k && t[j].revision == Some(next - 1);
      assert IsJustBelow(u[j], u[id]);
    }
  }
}
