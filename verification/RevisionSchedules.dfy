/**
  The groups of a request work side by side. However their reads and assignments interleave, with each other and
  with other requests, the request numbers its selection as one release at a time in selection order would.
 */
module RevisionSchedules {
  import opened Basics
  import opened Grouping
  import opened Releases
  import opened Renumbering
  import opened RevisionProtocol
  import opened SemverText

  /**
    A row as far as it does not depend on the clock: each assignment takes the time of its own. Which dates are set, and
    what was a date before, does not.
   */
  function Undated(r: Release, before: Release): Release {
    if before.finalizedAt.Some? || r.finalizedAt.None? then r else r.(finalizedAt := Some(0))
  }

  // ---- the runs ----

  /** What `u` commits moves no finalized release out of a key of these applications. */
  ghost predicate TakesNoneFrom(c: Table, u: Tx, apps: set<AppId>) {
    forall i :: i in u.writes && i in c && IsFinal(c[i]) && c[i].app in apps ==> Kept(c, i, u.writes[i])
  }

  /** The request reads and assigns; others do anything but commit a move out of an application it has locked. */
  ghost predicate Meanwhile(s: State, t: TxId, e: Event) {
    && t in s.open
    && (e.tx == t ==> e.ReadNext? || e.Assign?)
    && (e.tx != t && e.Commit? && e.tx in s.open ==> TakesNoneFrom(s.committed, s.open[e.tx], s.open[t].locks))
  }

  ghost predicate NumbersAlong(s: State, t: TxId, es: seq<Event>)
    requires Legal(s, es)
    decreases |es|
  {
    es == [] || (Meanwhile(s, t, es[0]) && NumbersAlong(Apply(s, es[0]), t, es[1..]))
  }

  // ---- where a request stands ----

  /** The request as it began to number: what it saw, and the groups of its selection. */
  datatype Start = Start(view: Table, body: Body, ids: set<Id>, groups: seq<Group>, now: int)

  predicate InLabel(r: Release, g: Group) {
    r.app == g.app && r.variant == g.variant
  }

  /** The table after the first `m` releases of a group, one at a time. */
  function Reached(o: Start, g: Group, m: nat): Table
    requires m <= |g.choices|
  {
    Renumber(o.view, o.body, IdsIn(g.choices[..m]), o.now)
  }

  /** A release of the group has been given, or promised, what numbering one at a time gives it. */
  ghost predicate RowAt(o: Start, reached: Table, w: Work, i: Id, row: Release) {
    && i in o.view && i in reached
    && (i in w.pending ==> reached[i].revision == Some(w.pending[i]) && o.view[i].revision.None?)
    && Undated(row, o.view[i]) == Undated(if i in w.pending then o.view[i] else reached[i], o.view[i])
  }

  ghost predicate RowsAt(o: Start, g: Group, reached: Table, w: Work, rows: Table) {
    forall i :: i in rows && i in o.view && InLabel(o.view[i], g) ==> RowAt(o, reached, w, i, rows[i])
  }

  ghost predicate PromisesAt(o: Start, g: Group, pending: map<Id, nat>) {
    forall i :: i in pending ==> i in o.ids && i in o.view && InLabel(o.view[i], g)
  }

  /** A group of which the first `m` releases have been read. */
  ghost predicate ReadUpTo(o: Start, g: Group, m: nat, w: Work, rows: Table) {
    && w.app == g.app && w.variant == g.variant
    && m <= |g.choices| && w.waiting == g.choices[m..]
    && PromisesAt(o, g, w.pending)
    && RowsAt(o, g, Reached(o, g, m), w, rows)
  }

  ghost predicate GroupAt(o: Start, g: Group, w: Work, rows: Table) {
    |w.waiting| <= |g.choices| && ReadUpTo(o, g, |g.choices| - |w.waiting|, w, rows)
  }

  ghost predicate GroupsAt(o: Start, work: seq<Work>, rows: Table) {
    |work| == |o.groups| && forall n :: 0 <= n < |work| ==> GroupAt(o, o.groups[n], work[n], rows)
  }

  /** Rows outside every group are as they were. */
  ghost predicate RestAt(o: Start, rows: Table) {
    && rows.Keys == o.ids && o.ids <= o.view.Keys
    && forall i :: i in rows && !HasLabel(o.groups, (o.view[i].app, o.view[i].variant)) ==> rows[i] == o.view[i]
  }

  /** Nobody else has changed which revisions are in use in the locked applications. */
  ghost predicate OthersAt(o: Start, c: Table, apps: set<AppId>) {
    forall k: Key :: k.app in apps ==> RevisionsOf(c - o.ids, k) == RevisionsOf(o.view - o.ids, k)
  }

  ghost predicate ValidStart(o: Start) {
    && GroupsAwait(o.view, o.groups, o.body)
    && forall n :: 0 <= n < |o.groups| ==> ValidGroup(o, o.groups[n])
  }

  ghost predicate ValidGroup(o: Start, g: Group) {
    IdsDistinct(g.choices) && forall ch :: ch in g.choices ==> ch.id in o.ids && AwaitsNumber(o.view, ch, o.body)
  }

  ghost predicate At(o: Start, c: Table, x: Tx) {
    && x.phase.Numbering? && x.ids == o.ids && x.body == o.body
    && GroupsAt(o, x.phase.work, x.writes) && RestAt(o, x.writes) && OthersAt(o, c, x.locks)
  }

  // ---- numbering changes revisions and dates only ----

  lemma {:induction false} RenumberKeepsRest(t: Table, b: Body, ids: seq<Id>, now: int, i: Id)
    requires i in t
    ensures i in Renumber(t, b, ids, now)
    ensures var after := Renumber(t, b, ids, now)[i];
            if i in ids then after.revision.Some? && after == Numbered(t[i], b, after.revision.value, now) else after == t[i]
    decreases |ids|
  {
    if ids != [] {
      RenumberKeepsRest(NumberOne(t, b, ids[0], now), b, ids[1..], now, i);
    }
  }

  // ---- reading the next revision ----

  /** What the group sees in use under its keys is what numbering its earlier releases one at a time leaves. */
  lemma SeenIsReached(o: Start, c: Table, x: Tx, n: nat, m: nat, reached: Table, k: Key)
    requires At(o, c, x) && n < |x.phase.work| && x.phase.work[n].pending == map[] && k.app in x.locks
    requires ReadUpTo(o, o.groups[n], m, x.phase.work[n], x.writes) && reached == Reached(o, o.groups[n], m)
    requires k.app == o.groups[n].app && k.variant == o.groups[n].variant
    requires forall ch :: ch in o.groups[n].choices ==> ch.id in o.ids
    ensures NextRevision(View(c, x), k) == NextRevision(reached, k)
  {
    ReachedOutside(o, o.groups[n], m, reached);
    forall i | i in o.ids
      ensures i in reached && i in x.writes && (HasKey(reached, i, k) <==> HasKey(x.writes, i, k))
      ensures HasKey(reached, i, k) ==> x.writes[i].revision == reached[i].revision
    {
      SeenRow(o, c, x, n, m, reached, k, i);
    }
    SameRevisionsInUse(o.ids, View(c, x), reached, c, o.view, k);
  }

  lemma ReachedOutside(o: Start, g: Group, m: nat, reached: Table)
    requires m <= |g.choices| && reached == Reached(o, g, m) && forall ch :: ch in g.choices ==> ch.id in o.ids
    ensures forall i :: i !in o.ids ==> (i in reached <==> i in o.view) && (i in reached ==> reached[i] == o.view[i])
  {
    RenumberFrame(o.view, o.body, IdsIn(g.choices[..m]), o.now);
    IdsInFacts(g.choices[..m]);
    forall i | i in IdsIn(g.choices[..m]) ensures i in o.ids {
      var j :| 0 <= j < m && IdsIn(g.choices[..m])[j] == i;
      assert g.choices[j] in g.choices;
    }
  }

  lemma SeenRow(o: Start, c: Table, x: Tx, n: nat, m: nat, reached: Table, k: Key, i: Id)
    requires At(o, c, x) && n < |x.phase.work| && x.phase.work[n].pending == map[] && i in o.ids
    requires ReadUpTo(o, o.groups[n], m, x.phase.work[n], x.writes) && reached == Reached(o, o.groups[n], m)
    requires k.app == o.groups[n].app && k.variant == o.groups[n].variant
    ensures i in reached && i in x.writes && (HasKey(reached, i, k) <==> HasKey(x.writes, i, k))
    ensures HasKey(reached, i, k) ==> x.writes[i].revision == reached[i].revision
  {
    RenumberKeepsRest(o.view, o.body, IdsIn(o.groups[n].choices[..m]), o.now, i);
    LabelsStay(o, c, x, i);
    if InLabel(o.view[i], o.groups[n]) {
      assert RowAt(o, reached, x.phase.work[n], i, x.writes[i]);
    }
  }

  /** No assignment moves a release to another key. */
  lemma LabelsStay(o: Start, c: Table, x: Tx, i: Id)
    requires At(o, c, x) && i in o.ids
    ensures KeyOf(x.writes[i]) == KeyOf(o.view[i])
  {
    if HasLabel(o.groups, (o.view[i].app, o.view[i].variant)) {
      var n :| 0 <= n < |o.groups| && (o.groups[n].app, o.groups[n].variant) == (o.view[i].app, o.view[i].variant);
      var g, w := o.groups[n], x.phase.work[n];
      var m := |g.choices| - |w.waiting|;
      assert GroupAt(o, g, w, x.writes);
      assert RowAt(o, Reached(o, g, m), w, i, x.writes[i]);
      RenumberKeepsRest(o.view, o.body, IdsIn(g.choices[..m]), o.now, i);
    }
  }

  /** Two tables that agree on a key inside `ids`, over tables whose revisions of the key agree outside. */
  lemma SameRevisionsInUse(ids: set<Id>, a: Table, b: Table, c: Table, d: Table, k: Key)
    requires forall i :: i !in ids ==> (i in a <==> i in c) && (i in a ==> a[i] == c[i])
    requires forall i :: i !in ids ==> (i in b <==> i in d) && (i in b ==> b[i] == d[i])
    requires forall i :: i in ids ==> i in a && i in b && (HasKey(a, i, k) <==> HasKey(b, i, k))
    requires forall i :: i in ids && HasKey(b, i, k) ==> a[i].revision == b[i].revision
    requires RevisionsOf(c - ids, k) == RevisionsOf(d - ids, k)
    ensures NextRevision(a, k) == NextRevision(b, k)
  {
    UsedInside(ids, a, c, k);
    UsedInside(ids, b, d, k);
    assert (set i | i in ids && HasKey(a, i, k) && a[i].revision.Some? :: a[i].revision.value)
        == (set i | i in ids && HasKey(b, i, k) && b[i].revision.Some? :: b[i].revision.value);
  }

  /** The revisions of a key, split by where they are used. */
  lemma UsedInside(ids: set<Id>, a: Table, c: Table, k: Key)
    requires forall i :: i !in ids ==> (i in a <==> i in c) && (i in a ==> a[i] == c[i])
    ensures RevisionsOf(a, k)
         == RevisionsOf(c - ids, k) + set i | i in ids && HasKey(a, i, k) && a[i].revision.Some? :: a[i].revision.value
  {
    var outside := c - ids;
    assert forall i :: i in outside <==> i in a && i !in ids;
    forall r | r in RevisionsOf(a, k)
      ensures r in RevisionsOf(outside, k) || exists i :: i in ids && HasKey(a, i, k) && a[i].revision == Some(r)
    {
      var i :| i in a && KeyOf(a[i]) == k && a[i].revision == Some(r);
      if i in ids {
        assert HasKey(a, i, k);
      } else {
        assert outside[i] == a[i];
      }
    }
    forall r | r in RevisionsOf(outside, k) ensures r in RevisionsOf(a, k) {
      var i :| i in outside && KeyOf(outside[i]) == k && outside[i].revision == Some(r);
      assert a[i] == outside[i];
    }
  }

  /** A release later in its group than the first `m` is not among them. */
  lemma NotAmongFirst(cs: seq<Choice>, m: nat, n: nat)
    requires IdsDistinct(cs) && m <= n < |cs|
    ensures cs[n].id !in IdsIn(cs[..m])
  {
    IdsInFacts(cs[..m]);
    assert forall d :: 0 <= d < m ==> IdsIn(cs[..m])[d] == cs[d].id && cs[d].id != cs[n].id;
  }

  lemma NotYetReached(o: Start, g: Group, m: nat, n: nat)
    requires IdsDistinct(g.choices) && m <= n < |g.choices| && g.choices[n].id in o.view
    ensures g.choices[n].id in Reached(o, g, m) && Reached(o, g, m)[g.choices[n].id] == o.view[g.choices[n].id]
  {
    NotAmongFirst(g.choices, m, n);
    RenumberFrame(o.view, o.body, IdsIn(g.choices[..m]), o.now);
  }

  /** Releases of one key that have no number get consecutive ones. */
  lemma OneKeyNumbers(t: Table, b: Body, cs: seq<Choice>, now: int, key: Key)
    requires IdsDistinct(cs) && forall j :: 0 <= j < |cs| ==> HasKey(t, cs[j].id, key) && t[cs[j].id].revision.None?
    ensures var after := Renumber(t, b, IdsIn(cs), now);
            forall j :: 0 <= j < |cs| ==> cs[j].id in after && after[cs[j].id].revision == Some(NextRevision(t, key) + j)
  {
    IdsInFacts(cs);
    forall j | 0 <= j < |cs|
      ensures cs[j].id in Renumber(t, b, IdsIn(cs), now)
      ensures Renumber(t, b, IdsIn(cs), now)[cs[j].id].revision == Some(NextRevision(t, key) + j)
    {
      OneKeyBefore(t, IdsIn(cs), j, key);
      RenumberAt(t, b, IdsIn(cs), now, j);
    }
  }

  lemma OneKeyBefore(t: Table, ids: seq<Id>, n: nat, key: Key)
    requires n < |ids| && HasKey(t, ids[n], key) && forall j :: 0 <= j < n ==> HasKey(t, ids[j], key)
    ensures CountBefore(t, ids, n) == n
  {
    assert forall d :: 0 <= d < n ==> ids[..n][d] == ids[d];
    OneKeyCount(t, ids[..n], key);
  }

  lemma ReachedFurther(o: Start, g: Group, m: nat, batch: seq<Choice>)
    requires m + |batch| <= |g.choices| && batch == g.choices[m..m + |batch|]
    ensures Reached(o, g, m + |batch|) == Renumber(Reached(o, g, m), o.body, IdsIn(batch), o.now)
  {
    assert g.choices[..m + |batch|] == g.choices[..m] + batch;
    IdsInConcat(g.choices[..m], batch);
    RenumberConcat(o.view, o.body, IdsIn(g.choices[..m]), IdsIn(batch), o.now);
  }

  /** What numbering `batch` after the first `m` releases of its group does. */
  ghost predicate Continues(o: Start, before: Table, after: Table, batch: seq<Choice>, next: nat) {
    && before.Keys == o.view.Keys && after.Keys == o.view.Keys
    && (forall j :: 0 <= j < |batch| ==>
          && batch[j].id in o.view && before[batch[j].id] == o.view[batch[j].id] && o.view[batch[j].id].revision.None?
          && after[batch[j].id].revision == Some(next + j))
    && (forall i :: i in o.view && i !in IdsIn(batch) ==> after[i] == before[i])
  }

  lemma BatchIsUntouched(o: Start, g: Group, m: nat, batch: seq<Choice>)
    requires IdsDistinct(g.choices) && m + |batch| <= |g.choices| && batch == g.choices[m..m + |batch|]
    requires forall j :: 0 <= j < |batch| ==> batch[j].id in o.view
    ensures IdsDistinct(batch)
    ensures forall j :: 0 <= j < |batch| ==> batch[j].id in Reached(o, g, m) && Reached(o, g, m)[batch[j].id] == o.view[batch[j].id]
  {
    assert forall j :: 0 <= j < |batch| ==> batch[j] == g.choices[m + j];
    forall j | 0 <= j < |batch| ensures batch[j].id in Reached(o, g, m) && Reached(o, g, m)[batch[j].id] == o.view[batch[j].id] {
      NotYetReached(o, g, m, m + j);
    }
  }

  lemma RestIsUntouched(o: Start, g: Group, m: nat, batch: seq<Choice>)
    requires m + |batch| <= |g.choices| && batch == g.choices[m..m + |batch|]
    ensures var before, after := Reached(o, g, m), Reached(o, g, m + |batch|);
            && before.Keys == o.view.Keys && after.Keys == o.view.Keys
            && (forall i :: i in o.view && i !in IdsIn(batch) ==> after[i] == before[i])
  {
    ReachedFurther(o, g, m, batch);
    RenumberFrame(o.view, o.body, IdsIn(g.choices[..m]), o.now);
    RenumberFrame(Reached(o, g, m), o.body, IdsIn(batch), o.now);
  }

  /** A batch, numbered one at a time after the earlier releases of its group, gets consecutive revisions. */
  lemma BatchReached(o: Start, g: Group, m: nat, batch: seq<Choice>, key: Key, before: Table, after: Table)
    requires IdsDistinct(g.choices) && m + |batch| <= |g.choices| && batch == g.choices[m..m + |batch|]
    requires before == Reached(o, g, m) && after == Reached(o, g, m + |batch|)
    requires forall j :: 0 <= j < |batch| ==> HasKey(o.view, batch[j].id, key) && o.view[batch[j].id].revision.None?
    ensures Continues(o, before, after, batch, NextRevision(before, key))
  {
    BatchIsUntouched(o, g, m, batch);
    RestIsUntouched(o, g, m, batch);
    assert after == Renumber(before, o.body, IdsIn(batch), o.now) by {
      ReachedFurther(o, g, m, batch);
    }
    OneKeyNumbers(before, o.body, batch, o.now, key);
  }

  lemma PendingInGroup(o: Start, g: Group, batch: seq<Choice>, next: nat)
    requires IdsDistinct(batch)
    requires forall j :: 0 <= j < |batch| ==>
               batch[j].id in o.ids && batch[j].id in o.view && InLabel(o.view[batch[j].id], g)
    ensures PromisesAt(o, g, Consecutive(batch, next))
  {
    forall i | i in Consecutive(batch, next) ensures i in o.ids && i in o.view && InLabel(o.view[i], g) {
      var j := ConsecutiveAt(batch, next, i);
    }
  }

  lemma RowsPromised(o: Start, g: Group, before: Table, after: Table, w: Work, w': Work, batch: seq<Choice>, next: nat, rows: Table)
    requires RowsAt(o, g, before, w, rows) && w.pending == map[]
    requires IdsDistinct(batch) && w'.pending == Consecutive(batch, next) && Continues(o, before, after, batch, next)
    ensures RowsAt(o, g, after, w', rows)
  {
    forall i | i in rows && i in o.view && InLabel(o.view[i], g) ensures RowAt(o, after, w', i, rows[i]) {
      RowPromised(o, before, after, w, w', batch, next, i, rows[i]);
    }
  }

  lemma RowPromised(o: Start, before: Table, after: Table, w: Work, w': Work, batch: seq<Choice>, next: nat, i: Id, row: Release)
    requires IdsDistinct(batch) && Continues(o, before, after, batch, next)
    requires w.pending == map[] && w'.pending == Consecutive(batch, next) && RowAt(o, before, w, i, row)
    ensures RowAt(o, after, w', i, row)
  {
    if i in Consecutive(batch, next) {
      var j := ConsecutiveAt(batch, next, i);
    } else {
      BatchIsConsecutive(batch, next, i);
    }
  }

  lemma BatchIsConsecutive(batch: seq<Choice>, next: nat, i: Id)
    requires IdsDistinct(batch)
    ensures i in IdsIn(batch) ==> i in Consecutive(batch, next)
  {
    if i in IdsIn(batch) {
      IdsInFacts(batch);
      ConsecutiveFacts(batch, next);
      var j :| 0 <= j < |batch| && IdsIn(batch)[j] == i;
      assert batch[j].id in Consecutive(batch, next);
    }
  }

  /** The next releases of a group, all of one key and as they were. */
  ghost predicate NextBatch(o: Start, g: Group, w: Work, batch: seq<Choice>, key: Key) {
    && IdsDistinct(batch) && |batch| <= |w.waiting| && batch == w.waiting[..|batch|]
    && forall j :: 0 <= j < |batch| ==>
         && batch[j].id in o.ids && HasKey(o.view, batch[j].id, key)
         && o.view[batch[j].id].revision.None? && InLabel(o.view[batch[j].id], g)
  }

  /** Reading the next revision promises a batch what numbering it one at a time gives it. */
  lemma ReadKeepsGroup(o: Start, g: Group, m: nat, w: Work, w': Work, batch: seq<Choice>, next: nat, key: Key, rows: Table)
    requires ReadUpTo(o, g, m, w, rows) && w.pending == map[] && IdsDistinct(g.choices) && NextBatch(o, g, w, batch, key)
    requires w'.waiting == w.waiting[|batch|..] && w'.pending == Consecutive(batch, next)
    requires w'.app == w.app && w'.variant == w.variant && next == NextRevision(Reached(o, g, m), key)
    ensures GroupAt(o, g, w', rows)
  {
    TwoSlices(g.choices, m, |batch|, w.waiting);
    BatchStep(o, g, m, w, w', batch, next, key, rows);
    IsGroupAt(o, g, m + |batch|, w', rows);
  }

  lemma IsGroupAt(o: Start, g: Group, m: nat, w: Work, rows: Table)
    requires ReadUpTo(o, g, m, w, rows)
    ensures GroupAt(o, g, w, rows)
  {
  }

  lemma TwoSlices(cs: seq<Choice>, m: nat, n: nat, rest: seq<Choice>)
    requires m <= |cs| && rest == cs[m..] && n <= |rest|
    ensures m + n <= |cs| && rest[n..] == cs[m + n..] && rest[..n] == cs[m..m + n]
  {
  }

  lemma BatchStep(o: Start, g: Group, m: nat, w: Work, w': Work, batch: seq<Choice>, next: nat, key: Key, rows: Table)
    requires ReadUpTo(o, g, m, w, rows) && w.pending == map[] && IdsDistinct(g.choices) && NextBatch(o, g, w, batch, key)
    requires m + |batch| <= |g.choices| && batch == g.choices[m..m + |batch|] && w'.waiting == g.choices[m + |batch|..]
    requires w'.app == w.app && w'.variant == w.variant && w'.pending == Consecutive(batch, next)
    requires next == NextRevision(Reached(o, g, m), key)
    ensures ReadUpTo(o, g, m + |batch|, w', rows)
  {
    var before, after := Reached(o, g, m), Reached(o, g, m + |batch|);
    BatchReached(o, g, m, batch, key, before, after);
    RowsPromised(o, g, before, after, w, w', batch, next, rows);
    PendingInGroup(o, g, batch, next);
  }

  lemma BatchIsNext(o: Start, c: Table, x: Tx, n: nat, w: Work, batch: seq<Choice>, key: Key)
    requires At(o, c, x) && BaseInv(c, x)
    requires n < |x.phase.work| && w == x.phase.work[n] && WaitingInv(x, w)
    requires forall ch :: ch in o.groups[n].choices ==> ch.id in o.ids && AwaitsNumber(o.view, ch, o.body)
    requires w.waiting != [] && NumberingVersion(w.waiting[0], x.body).Some? && batch == Batch(w, x.body)
    requires key == KeyFor(w.app, NumberingVersion(w.waiting[0], x.body).value, w.variant)
    ensures NextBatch(o, o.groups[n], w, batch, key)
  {
    var g := o.groups[n];
    assert GroupAt(o, g, w, x.writes);
    forall j | 0 <= j < |batch|
      ensures batch[j].id in o.ids && HasKey(o.view, batch[j].id, key)
      ensures o.view[batch[j].id].revision.None? && InLabel(o.view[batch[j].id], g)
    {
      BatchRow(o, c, x, n, w, |g.choices| - |w.waiting|, batch, j);
    }
    assert forall j :: 0 <= j < |batch| ==> batch[j] == w.waiting[j];
  }

  lemma BatchRow(o: Start, c: Table, x: Tx, n: nat, w: Work, m: nat, batch: seq<Choice>, j: nat)
    requires At(o, c, x) && BaseInv(c, x)
    requires n < |x.phase.work| && w == x.phase.work[n] && WaitingInv(x, w)
    requires forall ch :: ch in o.groups[n].choices ==> ch.id in o.ids && AwaitsNumber(o.view, ch, o.body)
    requires w.waiting != [] && NumberingVersion(w.waiting[0], x.body).Some? && batch == Batch(w, x.body) && j < |batch|
    requires m + |w.waiting| == |o.groups[n].choices|
    ensures batch[j] == o.groups[n].choices[m + j] && batch[j].id in o.ids && o.view[batch[j].id].revision.None?
    ensures HasKey(o.view, batch[j].id, KeyFor(w.app, NumberingVersion(w.waiting[0], x.body).value, w.variant))
    ensures InLabel(o.view[batch[j].id], o.groups[n])
  {
    var g := o.groups[n];
    assert GroupAt(o, g, w, x.writes);
    BatchKey(c, x, w, j);
    assert g.choices[m + j] == w.waiting[j] && g.choices[m + j] in g.choices;
    assert AwaitsNumber(o.view, batch[j], o.body);
    LabelsStay(o, c, x, batch[j].id);
  }

  lemma ReadKeepsAt(o: Start, c: Table, x: Tx, y: Tx, n: nat, batch: seq<Choice>, w': Work)
    requires At(o, c, x) && ValidStart(o) && TxInv(c, x) && n < |x.phase.work|
    requires var w := x.phase.work[n];
             && w.pending == map[] && w.waiting != [] && NumberingVersion(w.waiting[0], x.body).Some?
             && batch == Batch(w, x.body)
             && w' == w.(waiting := w.waiting[|batch|..], pending := Consecutive(batch, NextFor(c, x, w)))
    requires y == x.(phase := Numbering(x.phase.work[n := w']))
    ensures At(o, c, y)
  {
    var g, w := o.groups[n], x.phase.work[n];
    assert GroupAt(o, g, w, x.writes) && ValidGroup(o, g) && WaitingInv(x, w);
    ReadKeepsOwn(o, c, x, n, |g.choices| - |w.waiting|, w, w', batch);
  }

  lemma ReadKeepsOwn(o: Start, c: Table, x: Tx, n: nat, m: nat, w: Work, w': Work, batch: seq<Choice>)
    requires At(o, c, x) && BaseInv(c, x) && n < |x.phase.work| && w == x.phase.work[n] && WaitingInv(x, w)
    requires ValidGroup(o, o.groups[n]) && ReadUpTo(o, o.groups[n], m, w, x.writes) && w.app in x.locks
    requires w.pending == map[] && w.waiting != [] && NumberingVersion(w.waiting[0], x.body).Some?
    requires batch == Batch(w, x.body)
    requires w' == w.(waiting := w.waiting[|batch|..], pending := Consecutive(batch, NextFor(c, x, w)))
    ensures GroupAt(o, o.groups[n], w', x.writes)
  {
    var key := KeyFor(w.app, NumberingVersion(w.waiting[0], x.body).value, w.variant);
    BatchIsNext(o, c, x, n, w, batch, key);
    SeenIsReached(o, c, x, n, m, Reached(o, o.groups[n], m), key);
    ReadKeepsGroup(o, o.groups[n], m, w, w', batch, NextFor(c, x, w), key, x.writes);
  }

  // ---- writing a revision ----

  lemma AssignKeepsAt(o: Start, c: Table, x: Tx, y: Tx, n: nat, id: Id, now: int)
    requires At(o, c, x) && ValidStart(o) && Assigned(x, y, n, id, now)
    ensures At(o, c, y)
  {
    assert GroupAt(o, o.groups[n], x.phase.work[n], x.writes);
    forall k | 0 <= k < |o.groups| ensures GroupAt(o, o.groups[k], y.phase.work[k], y.writes) {
      AssignKeepsGroup(o, x, y, n, id, now, k);
    }
    assert HasLabel(o.groups, (o.view[id].app, o.view[id].variant));
  }

  lemma AssignKeepsGroup(o: Start, x: Tx, y: Tx, n: nat, id: Id, now: int, k: nat)
    requires ValidStart(o) && Assigned(x, y, n, id, now) && x.body == o.body
    requires GroupsAt(o, x.phase.work, x.writes) && k < |o.groups|
    ensures GroupAt(o, o.groups[k], y.phase.work[k], y.writes)
  {
    var g, w, w' := o.groups[k], x.phase.work[k], y.phase.work[k];
    assert GroupAt(o, g, w, x.writes) && GroupAt(o, o.groups[n], x.phase.work[n], x.writes);
    if k != n {
      assert !InLabel(o.view[id], g);
      OtherRowSame(o, g, Reached(o, g, |g.choices| - |w.waiting|), w, id, x.writes, y.writes[id]);
    } else {
      RowAssigned(o, g, |g.choices| - |w.waiting|, w, w', id, now, x.writes, y.writes);
    }
  }

  lemma OtherRowSame(o: Start, g: Group, reached: Table, w: Work, id: Id, rows: Table, row: Release)
    requires RowsAt(o, g, reached, w, rows) && id in o.view && !InLabel(o.view[id], g)
    ensures RowsAt(o, g, reached, w, rows[id := row])
  {
  }

  lemma RowAssigned(o: Start, g: Group, m: nat, w: Work, w': Work, id: Id, now: int, rows: Table, rows': Table)
    requires m <= |g.choices| && RowsAt(o, g, Reached(o, g, m), w, rows) && PromisesAt(o, g, w.pending)
    requires id in w.pending && id in rows && w' == w.(pending := w.pending - {id})
    requires rows' == rows[id := Numbered(rows[id], o.body, w.pending[id], now)]
    ensures RowsAt(o, g, Reached(o, g, m), w', rows') && PromisesAt(o, g, w'.pending)
  {
    assert RowAt(o, Reached(o, g, m), w, id, rows[id]);
    RenumberKeepsRest(o.view, o.body, IdsIn(g.choices[..m]), o.now, id);
    forall i | i in rows' && i in o.view && InLabel(o.view[i], g) ensures RowAt(o, Reached(o, g, m), w', i, rows'[i]) {
      assert RowAt(o, Reached(o, g, m), w, i, rows[i]);
    }
  }

  // ---- what others commit ----

  lemma CommitKeepsOthers(o: Start, c: Table, x: Tx, u: Tx)
    requires OthersAt(o, c, x.locks) && BaseInv(c, u) && u.ids !! o.ids && u.locks !! x.locks && TakesNoneFrom(c, u, x.locks)
    ensures OthersAt(o, c + u.writes, x.locks)
  {
    forall k: Key | k.app in x.locks ensures RevisionsOf(c + u.writes - o.ids, k) == RevisionsOf(o.view - o.ids, k) {
      assert RevisionsOf(c - o.ids, k) == RevisionsOf(o.view - o.ids, k);
      CommitKeepsRevisions(c, x, u, o.ids, k);
    }
  }

  lemma CommitKeepsRevisions(c: Table, x: Tx, u: Tx, ids: set<Id>, k: Key)
    requires BaseInv(c, u) && u.ids !! ids && u.locks !! x.locks && TakesNoneFrom(c, u, x.locks) && k.app in x.locks
    ensures RevisionsOf(c + u.writes - ids, k) == RevisionsOf(c - ids, k)
  {
    var before, after := c - ids, c + u.writes - ids;
    forall r | r in RevisionsOf(before, k) ensures r in RevisionsOf(after, k) {
      var i :| i in before && KeyOf(before[i]) == k && before[i].revision == Some(r);
      assert KeyOf(after[i]) == k && after[i].revision == Some(r);
    }
    forall r | r in RevisionsOf(after, k) ensures r in RevisionsOf(before, k) {
      var i :| i in after && KeyOf(after[i]) == k && after[i].revision == Some(r);
      assert KeyOf(before[i]) == k && before[i].revision == Some(r);
    }
  }

  // ---- whole runs ----

  lemma StepKeepsAt(o: Start, s: State, t: TxId, e: Event, after: State)
    requires Inv(s) && Enabled(s, e) && after == Apply(s, e) && Meanwhile(s, t, e)
    requires ValidStart(o) && At(o, s.committed, s.open[t])
    ensures t in after.open && At(o, after.committed, after.open[t])
  {
    var c, x := s.committed, s.open[t];
    if e.tx == t {
      assert TxInv(c, x);
      OwnStepKeepsAt(o, s, x, e);
    } else if e.Commit? {
      CommitKeepsOthers(o, c, x, s.open[e.tx]);
    }
  }

  lemma OwnStepKeepsAt(o: Start, s: State, x: Tx, e: Event)
    requires TxInv(s.committed, x) && ValidStart(o) && At(o, s.committed, x)
    requires (e.ReadNext? || e.Assign?) && EnabledIn(s, x, e)
    ensures At(o, s.committed, Advance(s, x, e))
  {
    var y := Advance(s, x, e);
    if e.ReadNext? {
      ReadKeepsAt(o, s.committed, x, y, e.group, Batch(x.phase.work[e.group], x.body), y.phase.work[e.group]);
    } else {
      AssignKeepsAt(o, s.committed, x, y, e.group, e.id, e.now);
    }
  }

  lemma {:induction false} RunKeepsAt(o: Start, s: State, t: TxId, es: seq<Event>)
    requires Inv(s) && Legal(s, es) && NumbersAlong(s, t, es)
    requires t in s.open && ValidStart(o) && At(o, s.committed, s.open[t])
    ensures var end := Run(s, es); t in end.open && At(o, end.committed, end.open[t])
    decreases |es|
  {
    if es != [] {
      StepKeepsInv(s, es[0]);
      StepKeepsAt(o, s, t, es[0], Apply(s, es[0]));
      RunKeepsAt(o, Apply(s, es[0]), t, es[1..]);
    }
  }

  function StartOf(c: Table, x: Tx, now: int): Start {
    Start(View(c, x), x.body, x.ids, Groups(x.selected, x.body), now)
  }

  /** The selection of a request that is about to number waits for its numbers. */
  lemma SelectionAwaits(c: Table, x: Tx)
    requires TxInv(c, x) && x.phase.Locking?
    ensures AwaitNumbers(View(c, x), x.selected, x.body)
  {
    forall ch | ch in x.selected ensures AwaitsNumber(View(c, x), ch, x.body) {
      assert Awaits(x, ch, LabelOf(ch, x.body).0, LabelOf(ch, x.body).1);
    }
  }

  lemma StartIsValid(c: Table, x: Tx, now: int)
    requires TxInv(c, x) && x.phase.Locking?
    ensures ValidStart(StartOf(c, x, now))
  {
    var o := StartOf(c, x, now);
    SelectionAwaits(c, x);
    GroupsFacts(x.selected, x.body);
    GroupsOfSelectionAwait(o.view, x.selected, x.body, o.groups);
    forall n | 0 <= n < |o.groups| ensures ValidGroup(o, o.groups[n]) {
      GroupAwaits(o.view, x.selected, x.body, o.groups[n]);
      InGroupMembers(x.selected, x.body, (o.groups[n].app, o.groups[n].variant));
    }
  }

  lemma StartsAt(c: Table, x: Tx, now: int)
    requires TxInv(c, x) && x.phase.Locking?
    ensures At(StartOf(c, x, now), c, x.(phase := Numbering(WorkOf(Groups(x.selected, x.body)))))
  {
    var o := StartOf(c, x, now);
    var work := WorkOf(o.groups);
    forall n | 0 <= n < |o.groups| ensures GroupAt(o, o.groups[n], work[n], x.writes) {
      assert o.groups[n].choices[..0] == [];
      assert Reached(o, o.groups[n], 0) == o.view;
    }
    assert c - o.ids == o.view - o.ids;
  }

  /** One group, numbered on its own, gives its releases what numbering the whole selection gives them. */
  lemma GroupIsSelection(t: Table, selected: seq<Choice>, b: Body, g: Group, now: int, i: Id)
    requires AwaitNumbers(t, selected, b) && g.choices == InGroup(selected, b, (g.app, g.variant))
    requires i in t && InLabel(t[i], g)
    ensures i in Renumber(t, b, IdsIn(g.choices), now) && i in Renumber(t, b, IdsIn(selected), now)
    ensures Renumber(t, b, IdsIn(g.choices), now)[i] == Renumber(t, b, IdsIn(selected), now)[i]
  {
    var own, all, k := IdsIn(g.choices), IdsIn(selected), KeyOf(t[i]);
    GroupAwaits(t, selected, b, g);
    AwaitingIsUnnumbered(t, selected, b);
    AwaitingIsUnnumbered(t, g.choices, b);
    InGroupInKey(t, selected, b, k);
    InKeyMembers(t, own, k);
    InKeyMembers(t, all, k);
    RenumberFrame(t, b, own, now);
    RenumberFrame(t, b, all, now);
    assert i in own <==> i in InKey(t, own, k);
    assert i in all <==> i in InKey(t, all, k);
    if i in all {
      var n :| 0 <= n < |all| && all[n] == i;
      var m :| 0 <= m < |own| && own[m] == i;
      RenumberIsTurn(t, b, all, now, n);
      RenumberIsTurn(t, b, own, now, m);
    }
  }

  /** A release outside every group is not selected. */
  lemma RestIsUnselected(t: Table, selected: seq<Choice>, b: Body, groups: seq<Group>, now: int, i: Id)
    requires AwaitNumbers(t, selected, b) && AreGroupsOf(groups, selected, b)
    requires i in t && !HasLabel(groups, (t[i].app, t[i].variant))
    ensures i in Renumber(t, b, IdsIn(selected), now) && Renumber(t, b, IdsIn(selected), now)[i] == t[i]
  {
    RenumberFrame(t, b, IdsIn(selected), now);
    IdsInFacts(selected);
    forall n | 0 <= n < |selected| ensures IdsIn(selected)[n] != i {
      assert AwaitsNumber(t, selected[n], b) && HasLabel(groups, LabelOf(selected[n], b));
    }
  }

  /** The rows of the request are those of the table, but for the clock. */
  ghost predicate NumberedAs(rows: Table, ids: set<Id>, before: Table, t: Table) {
    rows.Keys == ids && forall i :: i in ids ==> i in t && i in before && Undated(rows[i], before[i]) == Undated(t[i], before[i])
  }

  lemma GroupEndsAsRenumber(o: Start, g: Group, w: Work, rows: Table, selected: seq<Choice>, i: Id)
    requires ReadUpTo(o, g, |g.choices|, w, rows) && w.pending == map[]
    requires AwaitNumbers(o.view, selected, o.body) && g.choices == InGroup(selected, o.body, (g.app, g.variant))
    requires i in rows && i in o.view && InLabel(o.view[i], g)
    ensures i in Renumber(o.view, o.body, IdsIn(selected), o.now)
    ensures Undated(rows[i], o.view[i]) == Undated(Renumber(o.view, o.body, IdsIn(selected), o.now)[i], o.view[i])
  {
    assert g.choices[..|g.choices|] == g.choices;
    assert RowAt(o, Reached(o, g, |g.choices|), w, i, rows[i]);
    GroupIsSelection(o.view, selected, o.body, g, o.now, i);
  }

  /** Once no group has anything left, every row is the one that numbering the selection gives, but for the clock. */
  lemma EndsAsRenumber(o: Start, c: Table, y: Tx, selected: seq<Choice>)
    requires At(o, c, y) && AwaitNumbers(o.view, selected, o.body) && AreGroupsOf(o.groups, selected, o.body)
    requires forall w :: w in y.phase.work ==> w.waiting == [] && w.pending == map[]
    ensures NumberedAs(y.writes, o.ids, o.view, Renumber(o.view, o.body, IdsIn(selected), o.now))
  {
    forall i | i in o.ids
      ensures i in Renumber(o.view, o.body, IdsIn(selected), o.now)
      ensures Undated(y.writes[i], o.view[i]) == Undated(Renumber(o.view, o.body, IdsIn(selected), o.now)[i], o.view[i])
    {
      if HasLabel(o.groups, (o.view[i].app, o.view[i].variant)) {
        var n :| 0 <= n < |o.groups| && (o.groups[n].app, o.groups[n].variant) == (o.view[i].app, o.view[i].variant);
        assert y.phase.work[n] in y.phase.work && GroupAt(o, o.groups[n], y.phase.work[n], y.writes);
        GroupEndsAsRenumber(o, o.groups[n], y.phase.work[n], y.writes, selected, i);
      } else {
        RestIsUnselected(o.view, selected, o.body, o.groups, o.now, i);
      }
    }
  }

  lemma RunStartsAndKeepsAt(s: State, t: TxId, first: State, es: seq<Event>, now: int)
    requires Inv(s) && Enabled(s, StartNumbering(t)) && first == Apply(s, StartNumbering(t))
    requires Legal(first, es) && NumbersAlong(first, t, es)
    ensures var end := Run(first, es); t in end.open && At(StartOf(s.committed, s.open[t], now), end.committed, end.open[t])
  {
    assert TxInv(s.committed, s.open[t]);
    StartIsValid(s.committed, s.open[t], now);
    StartsAt(s.committed, s.open[t], now);
    StepKeepsInv(s, StartNumbering(t));
    RunKeepsAt(StartOf(s.committed, s.open[t], now), first, t, es);
  }

  lemma NothingIsLeft(s: State, t: TxId)
    requires Enabled(s, Commit(t))
    ensures var y := s.open[t]; y.phase.Numbering? && forall w :: w in y.phase.work ==> w.waiting == [] && w.pending == map[]
  {
  }

  lemma EndsAsNumbered(c: Table, x: Tx, after: Table, y: Tx, now: int)
    requires TxInv(c, x) && x.phase.Locking? && At(StartOf(c, x, now), after, y)
    requires forall w :: w in y.phase.work ==> w.waiting == [] && w.pending == map[]
    ensures NumberedAs(y.writes, x.ids, View(c, x), Renumber(View(c, x), x.body, IdsIn(x.selected), now))
  {
    SelectionAwaits(c, x);
    GroupsFacts(x.selected, x.body);
    EndsAsRenumber(StartOf(c, x, now), after, y, x.selected);
  }

  /**
    Whatever the order in which the groups of a request read and assign, and whatever other requests do meanwhile
    short of moving finalized releases out of its locked applications, what the request commits is what numbering
    its selection one release at a time gives.
   */
  lemma InterleavingIsRenumber(s: State, t: TxId, first: State, es: seq<Event>, now: int)
    requires Inv(s) && Enabled(s, StartNumbering(t)) && first == Apply(s, StartNumbering(t))
    requires Legal(first, es) && NumbersAlong(first, t, es) && Enabled(Run(first, es), Commit(t))
    ensures var x, y := s.open[t], Run(first, es).open[t];
            && NumberedAs(y.writes, x.ids, View(s.committed, x), Renumber(View(s.committed, x), x.body, IdsIn(x.selected), now))
            && DatedAsAsked(y.writes, x.ids, View(s.committed, x), x.body, IdsIn(x.selected))
  {
    var x := s.open[t];
    RunStartsAndKeepsAt(s, t, first, es, now);
    var end := Run(first, es);
    NothingIsLeft(end, t);
    EndsAsNumbered(s.committed, x, end.committed, end.open[t], now);
    DatesFollow(end.open[t].writes, x.ids, View(s.committed, x), x.body, IdsIn(x.selected), now);
  }

  /** The finalization date is set exactly when the release was numbered, it was asked for and there was none. */
  ghost predicate DatedAsAsked(rows: Table, ids: set<Id>, before: Table, b: Body, numbered: seq<Id>) {
    forall i :: i in ids && i in rows && i in before ==>
      && (before[i].finalizedAt.Some? ==> rows[i].finalizedAt == before[i].finalizedAt)
      && (before[i].finalizedAt.None? ==> (rows[i].finalizedAt.Some? <==> b.isFinal == Some(true) && i in numbered))
  }

  lemma DatesFollow(rows: Table, ids: set<Id>, before: Table, b: Body, numbered: seq<Id>, now: int)
    requires NumberedAs(rows, ids, before, Renumber(before, b, numbered, now))
    ensures DatedAsAsked(rows, ids, before, b, numbered)
  {
    forall i | i in ids && i in rows && i in before
      ensures before[i].finalizedAt.Some? ==> rows[i].finalizedAt == before[i].finalizedAt
      ensures before[i].finalizedAt.None? ==> (rows[i].finalizedAt.Some? <==> b.isFinal == Some(true) && i in numbered)
    {
      RenumberKeepsRest(before, b, numbered, now, i);
    }
  }
}
