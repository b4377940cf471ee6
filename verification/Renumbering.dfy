/**
  The numbering of a selection: one release at a time, in any schedule, and by the nested groups of the PATCH hook.
 */
module Renumbering {
  import opened Basics
  import opened Grouping
  import opened Releases
  import opened SemverText

  // ---- one release at a time ----

  function NumberOne(t: Table, b: Body, id: Id, now: int): Table {
    if id in t then t[id := Numbered(t[id], b, NextRevision(t, KeyOf(t[id])), now)] else t
  }

  /** The reference: each release in turn gets one more than the greatest revision of its key at that moment. */
  function Renumber(t: Table, b: Body, ids: seq<Id>, now: int): Table
    decreases |ids|
  {
    if ids == [] then t else Renumber(NumberOne(t, b, ids[0], now), b, ids[1..], now)
  }

  /** Only the listed releases change. */
  lemma {:induction false} RenumberFrame(t: Table, b: Body, ids: seq<Id>, now: int)
    ensures Renumber(t, b, ids, now).Keys == t.Keys
    ensures forall i :: i in t && i !in ids ==> Renumber(t, b, ids, now)[i] == t[i]
    decreases |ids|
  {
    if ids != [] {
      RenumberFrame(NumberOne(t, b, ids[0], now), b, ids[1..], now);
    }
  }

  /** Distinct releases of the table that have no revision yet. */
  predicate AreUnnumbered(t: Table, ids: seq<Id>) {
    Distinct(ids) && forall n :: 0 <= n < |ids| ==> ids[n] in t && t[ids[n]].revision.None?
  }

  /** How many earlier releases of the list share the key of the n-th. */
  function CountBefore(t: Table, ids: seq<Id>, n: nat): nat
    requires n < |ids| && ids[n] in t
  {
    |InKey(t, ids[..n], KeyOf(t[ids[n]]))|
  }

  predicate HasKey(t: Table, i: Id, k: Key) {
    i in t && KeyOf(t[i]) == k
  }

  /** The releases of the list that have key `k`, in order. */
  function InKey(t: Table, ids: seq<Id>, k: Key): seq<Id> {
    if ids == [] then []
    else (if HasKey(t, ids[0], k) then [ids[0]] else []) + InKey(t, ids[1..], k)
  }

  lemma {:induction false} InKeyConcat(t: Table, a: seq<Id>, b: seq<Id>, k: Key)
    ensures InKey(t, a + b, k) == InKey(t, a, k) + InKey(t, b, k)
  {
    if a == [] {
      assert a + b == b;
    } else {
      assert (a + b)[1..] == a[1..] + b;
      InKeyConcat(t, a[1..], b, k);
    }
  }

  lemma {:induction false} InKeyMembers(t: Table, ids: seq<Id>, k: Key)
    ensures forall i :: i in InKey(t, ids, k) <==> i in ids && HasKey(t, i, k)
    ensures (forall i :: i in ids ==> !HasKey(t, i, k)) ==> InKey(t, ids, k) == []
    ensures Distinct(ids) ==> Distinct(InKey(t, ids, k))
  {
    if ids != [] {
      InKeyMembers(t, ids[1..], k);
      assert ids == [ids[0]] + ids[1..];
      var rest := InKey(t, ids[1..], k);
      if Distinct(ids) {
        assert Distinct(ids[1..]);
        forall j | 0 <= j < |rest| ensures rest[j] != ids[0] {
          assert rest[j] in rest;
        }
      }
    }
  }

  lemma OneKeyCount(t: Table, ids: seq<Id>, k: Key)
    requires forall n :: 0 <= n < |ids| ==> HasKey(t, ids[n], k)
    ensures InKey(t, ids, k) == ids
  {
    if ids != [] {
      assert forall n :: 0 <= n < |ids| - 1 ==> ids[1..][n] == ids[n + 1];
      OneKeyCount(t, ids[1..], k);
    }
  }

  /** The n-th release sits at position `CountBefore` of its key's sublist. */
  lemma PositionInKey(t: Table, ids: seq<Id>, n: nat)
    requires n < |ids| && ids[n] in t
    ensures var own := InKey(t, ids, KeyOf(t[ids[n]]));
            CountBefore(t, ids, n) < |own| && own[CountBefore(t, ids, n)] == ids[n]
  {
    var k := KeyOf(t[ids[n]]);
    assert ids == ids[..n] + ids[n..];
    InKeyConcat(t, ids[..n], ids[n..], k);
  }

  /** Assigning the next revision of a key raises that key's next revision by one and no other's. */
  lemma NextAfterNumbering(t: Table, b: Body, id: Id, now: int, k: Key)
    requires id in t && t[id].revision.None?
    ensures NextRevision(NumberOne(t, b, id, now), k) == NextRevision(t, k) + (if KeyOf(t[id]) == k then 1 else 0)
  {
    var after := NumberOne(t, b, id, now);
    var next := NextRevision(t, KeyOf(t[id]));
    assert KeyOf(after[id]) == KeyOf(t[id]) && after[id].revision == Some(next);
    if KeyOf(t[id]) == k {
      assert RevisionsOf(after, k) == RevisionsOf(t, k) + {next} by {
        forall r | r in RevisionsOf(t, k) ensures r in RevisionsOf(after, k) {
          var i :| i in t && KeyOf(t[i]) == k && t[i].revision == Some(r);
          assert after[i] == t[i];
        }
      }
    } else {
      assert RevisionsOf(after, k) == RevisionsOf(t, k) by {
        forall r | r in RevisionsOf(t, k) ensures r in RevisionsOf(after, k) {
          var i :| i in t && KeyOf(t[i]) == k && t[i].revision == Some(r);
          assert after[i] == t[i];
        }
      }
    }
    SameRevisionsSameNext(t, after, k, next, KeyOf(t[id]) == k);
  }

  lemma SameRevisionsSameNext(t: Table, after: Table, k: Key, next: nat, grows: bool)
    requires grows ==> next == NextRevision(t, k) && RevisionsOf(after, k) == RevisionsOf(t, k) + {next}
    requires !grows ==> RevisionsOf(after, k) == RevisionsOf(t, k)
    ensures NextRevision(after, k) == NextRevision(t, k) + (if grows then 1 else 0)
  {
    RevisionsBelowNext(t, k);
    RevisionsBelowNext(after, k);
  }

  lemma RevisionsBelowNext(t: Table, k: Key)
    ensures forall r :: r in RevisionsOf(t, k) ==> r < NextRevision(t, k)
  {
  }

  /** Closed form: the next revision before the request plus the number of earlier releases with the same key. */
  lemma {:induction false} RenumberAt(t: Table, b: Body, ids: seq<Id>, now: int, n: nat)
    requires AreUnnumbered(t, ids) && n < |ids|
    ensures ids[n] in Renumber(t, b, ids, now) && Renumber(t, b, ids, now)[ids[n]]
         == Numbered(t[ids[n]], b, NextRevision(t, KeyOf(t[ids[n]])) + CountBefore(t, ids, n), now)
    decreases |ids|
  {
    var t1, rest := NumberOne(t, b, ids[0], now), ids[1..];
    var k := KeyOf(t[ids[n]]);
    if n == 0 {
      assert ids[0] !in rest;
      RenumberFrame(t1, b, rest, now);
    } else {
      forall i | i in rest ensures i in t1 && t1[i] == t[i] && i != ids[0] {
        var m :| 0 <= m < |rest| && rest[m] == i;
        assert ids[m + 1] == i;
      }
      RenumberAt(t1, b, rest, now, n - 1);
      NextAfterNumbering(t, b, ids[0], now, k);
      assert ids[..n] == [ids[0]] + ids[..n][1..] && ids[..n][1..] == rest[..n - 1];
      SameKeysSameSublist(t, t1, rest[..n - 1], k);
    }
  }

  lemma {:induction false} SameKeysSameSublist(t: Table, u: Table, ids: seq<Id>, k: Key)
    requires forall i :: i in ids ==> i in t && i in u && KeyOf(t[i]) == KeyOf(u[i])
    ensures InKey(t, ids, k) == InKey(u, ids, k)
  {
    if ids != [] {
      assert ids[0] in ids;
      SameKeysSameSublist(t, u, ids[1..], k);
    }
  }

  // ---- any schedule ----

  /** Two schedules of the same releases that treat the releases of each key in the same order. */
  ghost predicate SameOrderPerKey(t: Table, ids: seq<Id>, other: seq<Id>) {
    forall k :: InKey(t, ids, k) == InKey(t, other, k)
  }

  /** Where `i` first occurs. */
  function PositionOf(own: seq<Id>, i: Id): (m: nat)
    requires i in own
    ensures m < |own| && own[m] == i && i !in own[..m]
  {
    if own[0] == i then 0 else 1 + PositionOf(own[1..], i)
  }

  /** The row that numbering gives a release, from the list of the selected releases of its key alone. */
  function Turn(t: Table, b: Body, own: seq<Id>, i: Id, now: int): Release
    requires i in t && i in own
  {
    Numbered(t[i], b, NextRevision(t, KeyOf(t[i])) + PositionOf(own, i), now)
  }

  lemma PositionIsCount(t: Table, ids: seq<Id>, n: nat)
    requires Distinct(ids) && n < |ids| && ids[n] in t
    ensures ids[n] in InKey(t, ids, KeyOf(t[ids[n]]))
    ensures PositionOf(InKey(t, ids, KeyOf(t[ids[n]])), ids[n]) == CountBefore(t, ids, n)
  {
    PositionInKey(t, ids, n);
    InKeyMembers(t, ids, KeyOf(t[ids[n]]));
    DistinctPosition(InKey(t, ids, KeyOf(t[ids[n]])), CountBefore(t, ids, n), ids[n]);
  }

  /** A release gets its key's next revision plus its position among the selected releases of the key. */
  lemma RenumberIsTurn(t: Table, b: Body, ids: seq<Id>, now: int, n: nat)
    requires AreUnnumbered(t, ids) && n < |ids|
    ensures ids[n] in InKey(t, ids, KeyOf(t[ids[n]]))
    ensures ids[n] in Renumber(t, b, ids, now)
    ensures Renumber(t, b, ids, now)[ids[n]] == Turn(t, b, InKey(t, ids, KeyOf(t[ids[n]])), ids[n], now)
  {
    PositionIsCount(t, ids, n);
    RenumberAt(t, b, ids, now, n);
  }

  lemma DistinctPosition(own: seq<Id>, m: nat, i: Id)
    requires Distinct(own) && m < |own| && own[m] == i
    ensures PositionOf(own, i) == m
  {
  }

  /** Groups commute: only the order within each key decides which revisions are assigned. */
  lemma ScheduleIrrelevant(t: Table, b: Body, ids: seq<Id>, other: seq<Id>, now: int)
    requires AreUnnumbered(t, ids) && AreUnnumbered(t, other) && SameOrderPerKey(t, ids, other)
    ensures Renumber(t, b, ids, now) == Renumber(t, b, other, now)
  {
    RenumberFrame(t, b, ids, now);
    RenumberFrame(t, b, other, now);
    forall i | i in t ensures Renumber(t, b, ids, now)[i] == Renumber(t, b, other, now)[i] {
      InKeyMembers(t, ids, KeyOf(t[i]));
      InKeyMembers(t, other, KeyOf(t[i]));
      assert i in ids <==> i in InKey(t, ids, KeyOf(t[i]));
      assert i in other <==> i in InKey(t, other, KeyOf(t[i]));
      if i in ids {
        var n :| 0 <= n < |ids| && ids[n] == i;
        var m :| 0 <= m < |other| && other[m] == i;
        RenumberIsTurn(t, b, ids, now, n);
        RenumberIsTurn(t, b, other, now, m);
      }
    }
  }

  lemma DistinctHalves(done: seq<Id>, more: seq<Id>)
    requires Distinct(done + more)
    ensures Distinct(done) && forall i :: i in done ==> i !in more
  {
    var all := done + more;
    assert forall k :: 0 <= k < |done| ==> all[k] == done[k];
    assert forall k :: 0 <= k < |more| ==> all[|done| + k] == more[k];
  }

  /** Later releases do not change what earlier ones were given. */
  lemma RenumberPrefix(t: Table, b: Body, done: seq<Id>, more: seq<Id>, now: int)
    requires AreUnnumbered(t, done + more)
    ensures AreUnnumbered(t, done)
    ensures var x, y := Renumber(t, b, done, now), Renumber(t, b, done + more, now);
            forall i :: i in done ==> i in x && i in y && y[i] == x[i]
  {
    DistinctHalves(done, more);
    var all := done + more;
    assert forall n :: 0 <= n < |done| ==> all[n] == done[n];
    RenumberConcat(t, b, done, more, now);
    RenumberFrame(t, b, done, now);
    RenumberFrame(Renumber(t, b, done, now), b, more, now);
  }

  lemma {:induction false} RenumberConcat(t: Table, b: Body, done: seq<Id>, more: seq<Id>, now: int)
    ensures Renumber(t, b, done + more, now) == Renumber(Renumber(t, b, done, now), b, more, now)
    decreases |done|
  {
    if done == [] {
      assert done + more == more;
    } else {
      assert (done + more)[1..] == done[1..] + more;
      RenumberConcat(NumberOne(t, b, done[0], now), b, done[1..], more, now);
    }
  }

  /** Numbering keeps finalized releases of a key apart. */
  lemma {:induction false} RenumberKeepsUnique(t: Table, b: Body, ids: seq<Id>, now: int)
    requires Unique(t) && AreUnnumbered(t, ids)
    ensures Unique(Renumber(t, b, ids, now))
    ensures forall i :: i in ids ==> i in Renumber(t, b, ids, now) && IsFinal(Renumber(t, b, ids, now)[i])
    decreases |ids|
  {
    if ids != [] {
      RenumberFrame(NumberOne(t, b, ids[0], now), b, ids[1..], now);
      var t1 := NumberOne(t, b, ids[0], now);
      NextRevisionIsNext(t, KeyOf(t[ids[0]]));
      assert KeyOf(t1[ids[0]]) == KeyOf(t[ids[0]]);
      assert Unique(t1);
      assert ids == [ids[0]] + ids[1..];
      assert AreUnnumbered(t1, ids[1..]);
      RenumberKeepsUnique(t1, b, ids[1..], now);
      assert ids[0] !in ids[1..];
    }
  }

  // ---- the groups of the PATCH hook as a schedule ----

  function IdsIn(cs: seq<Choice>): seq<Id> {
    if cs == [] then [] else [cs[0].id] + IdsIn(cs[1..])
  }

  lemma {:induction false} IdsInFacts(cs: seq<Choice>)
    ensures |IdsIn(cs)| == |cs| && forall n :: 0 <= n < |cs| ==> IdsIn(cs)[n] == cs[n].id
  {
    if cs != [] {
      IdsInFacts(cs[1..]);
    }
  }

  lemma IdsInConcat(a: seq<Choice>, b: seq<Choice>)
    ensures IdsIn(a + b) == IdsIn(a) + IdsIn(b)
  {
    IdsInFacts(a);
    IdsInFacts(b);
    IdsInFacts(a + b);
  }

  function Gathered(groups: seq<Group>): seq<Choice> {
    if groups == [] then [] else groups[0].choices + Gathered(groups[1..])
  }

  lemma {:induction false} GatheredConcat(a: seq<Group>, b: seq<Group>)
    ensures Gathered(a + b) == Gathered(a) + Gathered(b)
  {
    if a == [] {
      assert a + b == b;
    } else {
      assert (a + b)[1..] == a[1..] + b;
      GatheredConcat(a[1..], b);
    }
  }

  /** Selected releases as the main UPDATE left them: in the table, without a revision, with the patched fields. */
  ghost predicate AwaitNumbers(t: Table, cs: seq<Choice>, b: Body) {
    && (forall i, j :: 0 <= i < j < |cs| ==> cs[i].id != cs[j].id)
    && (forall c :: c in cs ==> AwaitsNumber(t, c, b))
  }

  ghost predicate AwaitsNumber(t: Table, c: Choice, b: Body) {
    && c.id in t && t[c.id].revision.None? && ValidParts(c.row.parts)
    && (t[c.id].app, t[c.id].variant) == LabelOf(c, b)
    && t[c.id].parts == Updated(c.row, b).parts
  }

  lemma AwaitingIsUnnumbered(t: Table, cs: seq<Choice>, b: Body)
    requires AwaitNumbers(t, cs, b)
    ensures AreUnnumbered(t, IdsIn(cs))
  {
    IdsInFacts(cs);
    forall i | i in IdsIn(cs) ensures i in t && t[i].revision.None? {
      var n :| 0 <= n < |IdsIn(cs)| && IdsIn(cs)[n] == i;
      assert AwaitsNumber(t, cs[n], b);
    }
  }

  /** Within a key, a group lists the releases in selection order. */
  lemma {:induction false} InGroupInKey(t: Table, cs: seq<Choice>, b: Body, k: Key)
    requires forall c :: c in cs ==> AwaitsNumber(t, c, b)
    ensures InKey(t, IdsIn(InGroup(cs, b, (k.app, k.variant))), k) == InKey(t, IdsIn(cs), k)
  {
    if cs != [] {
      InGroupInKey(t, cs[1..], b, k);
      assert cs[0] in cs && AwaitsNumber(t, cs[0], b);
      var place := (k.app, k.variant);
      var own := if LabelOf(cs[0], b) == place then [cs[0]] else [];
      IdsInConcat(own, InGroup(cs[1..], b, place));
      assert [cs[0]][1..] == [] && IdsIn([cs[0]]) == [cs[0].id];
      InKeyConcat(t, IdsIn(own), IdsIn(InGroup(cs[1..], b, place)), k);
      assert [cs[0].id][1..] == [];
      assert InKey(t, IdsIn(own), k) == if HasKey(t, cs[0].id, k) then [cs[0].id] else [];
    }
  }

  /** A group of another label has no release of the key. */
  lemma OtherGroupInKey(t: Table, cs: seq<Choice>, b: Body, place: (AppId, string), k: Key)
    requires forall c :: c in cs ==> AwaitsNumber(t, c, b) && LabelOf(c, b) == place
    requires place != (k.app, k.variant)
    ensures InKey(t, IdsIn(cs), k) == []
  {
    IdsInFacts(cs);
    forall i | i in IdsIn(cs) ensures !HasKey(t, i, k) {
      var n :| 0 <= n < |IdsIn(cs)| && IdsIn(cs)[n] == i;
      assert AwaitsNumber(t, cs[n], b);
    }
    InKeyMembers(t, IdsIn(cs), k);
  }

  /** Every group holds releases of its own label, waiting for a number. */
  ghost predicate GroupsAwait(t: Table, groups: seq<Group>, b: Body) {
    && LabelsDistinct(groups)
    && forall n, c :: 0 <= n < |groups| && c in groups[n].choices
         ==> AwaitsNumber(t, c, b) && LabelOf(c, b) == (groups[n].app, groups[n].variant)
  }

  lemma {:induction false} GatheredOutOfKey(t: Table, groups: seq<Group>, b: Body, k: Key)
    requires GroupsAwait(t, groups, b)
    requires forall n :: 0 <= n < |groups| ==> (groups[n].app, groups[n].variant) != (k.app, k.variant)
    ensures InKey(t, IdsIn(Gathered(groups)), k) == []
  {
    if groups != [] {
      var first, rest := groups[0], groups[1..];
      TailAwaits(t, groups, b);
      GatheredOutOfKey(t, rest, b, k);
      OtherGroupInKey(t, first.choices, b, (first.app, first.variant), k);
      FirstOfGathered(t, groups, k);
    }
  }

  lemma TailAwaits(t: Table, groups: seq<Group>, b: Body)
    requires GroupsAwait(t, groups, b) && groups != []
    ensures GroupsAwait(t, groups[1..], b)
  {
    assert forall n :: 0 <= n < |groups[1..]| ==> groups[1..][n] == groups[n + 1];
  }

  lemma FirstOfGathered(t: Table, groups: seq<Group>, k: Key)
    requires groups != []
    ensures InKey(t, IdsIn(Gathered(groups)), k)
         == InKey(t, IdsIn(groups[0].choices), k) + InKey(t, IdsIn(Gathered(groups[1..])), k)
  {
    IdsInConcat(groups[0].choices, Gathered(groups[1..]));
    InKeyConcat(t, IdsIn(groups[0].choices), IdsIn(Gathered(groups[1..])), k);
  }

  /** The releases of a key among the gathered groups are those of its own group. */
  lemma {:induction false} GatheredInKey(t: Table, groups: seq<Group>, b: Body, k: Key, n: nat)
    requires GroupsAwait(t, groups, b)
    requires n < |groups| && (groups[n].app, groups[n].variant) == (k.app, k.variant)
    ensures InKey(t, IdsIn(Gathered(groups)), k) == InKey(t, IdsIn(groups[n].choices), k)
  {
    var first, rest := groups[0], groups[1..];
    TailAwaits(t, groups, b);
    FirstOfGathered(t, groups, k);
    if n == 0 {
      GatheredOutOfKey(t, rest, b, k);
    } else {
      OtherGroupInKey(t, first.choices, b, (first.app, first.variant), k);
      GatheredInKey(t, rest, b, k, n - 1);
    }
  }

  lemma NoGroupNoKey(t: Table, selected: seq<Choice>, b: Body, k: Key)
    requires forall c :: c in selected ==> AwaitsNumber(t, c, b)
    requires forall c :: c in selected ==> LabelOf(c, b) != (k.app, k.variant)
    ensures InKey(t, IdsIn(selected), k) == []
  {
    IdsInFacts(selected);
    forall i | i in IdsIn(selected) ensures !HasKey(t, i, k) {
      var n :| 0 <= n < |selected| && IdsIn(selected)[n] == i;
      assert AwaitsNumber(t, selected[n], b);
    }
    InKeyMembers(t, IdsIn(selected), k);
  }

  lemma GroupsOfSelectionAwait(t: Table, selected: seq<Choice>, b: Body, groups: seq<Group>)
    requires AwaitNumbers(t, selected, b) && AreGroupsOf(groups, selected, b)
    ensures GroupsAwait(t, groups, b)
  {
    forall n, c | 0 <= n < |groups| && c in groups[n].choices
      ensures AwaitsNumber(t, c, b) && LabelOf(c, b) == (groups[n].app, groups[n].variant)
    {
      InGroupMembers(selected, b, (groups[n].app, groups[n].variant));
    }
  }

  /** Working through the groups treats the releases of each key in selection order. */
  lemma GroupsAreASchedule(t: Table, selected: seq<Choice>, b: Body)
    requires AwaitNumbers(t, selected, b)
    ensures SameOrderPerKey(t, IdsIn(selected), IdsIn(Gathered(Groups(selected, b))))
  {
    var groups := Groups(selected, b);
    GroupsFacts(selected, b);
    GroupsOfSelectionAwait(t, selected, b, groups);
    forall k ensures InKey(t, IdsIn(selected), k) == InKey(t, IdsIn(Gathered(groups)), k) {
      InGroupInKey(t, selected, b, k);
      if n :| 0 <= n < |groups| && (groups[n].app, groups[n].variant) == (k.app, k.variant) {
        GatheredInKey(t, groups, b, k, n);
        assert groups[n].choices == InGroup(selected, b, (k.app, k.variant));
      } else {
        GatheredOutOfKey(t, groups, b, k);
        NoGroupNoKey(t, selected, b, k);
      }
    }
  }

  /** Distinct ids per group and distinct labels: no release is gathered twice. */
  lemma {:induction false} GatheredAwaits(t: Table, groups: seq<Group>, b: Body)
    requires GroupsAwait(t, groups, b)
    requires forall n :: 0 <= n < |groups| ==> AwaitNumbers(t, groups[n].choices, b)
    ensures AwaitNumbers(t, Gathered(groups), b)
    ensures forall c :: c in Gathered(groups) ==> exists n :: 0 <= n < |groups| && (groups[n].app, groups[n].variant) == LabelOf(c, b)
  {
    if groups != [] {
      var first, rest := groups[0], groups[1..];
      assert LabelsDistinct(rest);
      assert forall n :: 0 <= n < |rest| ==> rest[n] == groups[n + 1];
      GatheredAwaits(t, rest, b);
      var all, tail := Gathered(groups), Gathered(rest);
      assert all == first.choices + tail;
      forall c | c in all
        ensures AwaitsNumber(t, c, b)
        ensures exists n :: 0 <= n < |groups| && (groups[n].app, groups[n].variant) == LabelOf(c, b)
      {
        if c in first.choices {
          assert (groups[0].app, groups[0].variant) == LabelOf(c, b);
        } else {
          var n :| 0 <= n < |rest| && (rest[n].app, rest[n].variant) == LabelOf(c, b);
          assert (groups[n + 1].app, groups[n + 1].variant) == LabelOf(c, b);
        }
      }
      forall i, j | 0 <= i < j < |all| ensures all[i].id != all[j].id {
        if i < |first.choices| <= j {
          assert all[i] in first.choices && all[j] in tail;
          assert AwaitsNumber(t, all[i], b) && AwaitsNumber(t, all[j], b);
          var n :| 0 <= n < |rest| && (rest[n].app, rest[n].variant) == LabelOf(all[j], b);
        } else if i >= |first.choices| {
          assert all[i] == tail[i - |first.choices|] && all[j] == tail[j - |first.choices|];
        }
      }
    }
  }

  /** The groups together hold the selection, still to be numbered, each release once. */
  lemma GatheredSelectionAwaits(t: Table, selected: seq<Choice>, b: Body)
    requires AwaitNumbers(t, selected, b)
    ensures AwaitNumbers(t, Gathered(Groups(selected, b)), b)
    ensures AreUnnumbered(t, IdsIn(selected)) && AreUnnumbered(t, IdsIn(Gathered(Groups(selected, b))))
  {
    var groups := Groups(selected, b);
    GroupsFacts(selected, b);
    GroupsOfSelectionAwait(t, selected, b, groups);
    forall n | 0 <= n < |groups| ensures AwaitNumbers(t, groups[n].choices, b) {
      GroupAwaits(t, selected, b, groups[n]);
    }
    GatheredAwaits(t, groups, b);
    AwaitingIsUnnumbered(t, selected, b);
    AwaitingIsUnnumbered(t, Gathered(groups), b);
  }

  /** The nested groups give the revisions that numbering the selection one by one gives. */
  lemma GroupedIsOneByOne(t: Table, selected: seq<Choice>, b: Body, now: int)
    requires AwaitNumbers(t, selected, b)
    ensures Renumber(t, b, IdsIn(Gathered(Groups(selected, b))), now) == Renumber(t, b, IdsIn(selected), now)
  {
    GatheredSelectionAwaits(t, selected, b);
    GroupsAreASchedule(t, selected, b);
    ScheduleIrrelevant(t, b, IdsIn(selected), IdsIn(Gathered(Groups(selected, b))), now);
  }

  lemma GroupAwaits(t: Table, selected: seq<Choice>, b: Body, g: Group)
    requires AwaitNumbers(t, selected, b) && g.choices == InGroup(selected, b, (g.app, g.variant))
    ensures AwaitNumbers(t, g.choices, b)
  {
    InGroupMembers(selected, b, (g.app, g.variant));
    assert Distinct(selected);
    forall i, j | 0 <= i < j < |g.choices| ensures g.choices[i].id != g.choices[j].id {
      assert g.choices[i] in g.choices && g.choices[j] in g.choices;
    }
  }
}
