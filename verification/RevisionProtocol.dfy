/**
  Concurrent release requests as a state machine with one event per awaited database call.

  Every request runs in its own read-committed transaction: it sees the committed table overlaid with its own
  writes. A POST inserts a row; a PATCH first runs its two PRERUN checks side by side, then the main UPDATE; both
  then take the per-application advisory locks and hand out revisions, all groups of a request side by side.
  A check that throws is a request that can only abort. Open requests never affect the same release.
 */
module RevisionProtocol {
  import opened Basics
  import opened Releases
  import opened SemverText

  type TxId = int

  /** A group at work: releases still to be given a revision, and revisions computed but not yet written. */
  datatype Work = Work(app: AppId, variant: string, waiting: seq<Choice>, pending: map<Id, nat>)

  datatype SelectionStatus = Unread | Chosen | Nulled

  datatype Phase =
    | Prerun(selection: SelectionStatus, finalChecked: bool)
    | Locking(remaining: seq<AppId>)
    | Numbering(work: seq<Work>)

  datatype Tx = Tx(
    ids: set<Id>,
    body: Body,
    selected: seq<Choice>,
    writes: Table,
    locks: set<AppId>,
    phase: Phase)

  datatype State = State(committed: Table, open: map<TxId, Tx>)

  datatype Event =
    | Post(tx: TxId, id: Id, app: AppId, semver: SemVer, variant: string, isFinal: bool)
    | Patch(tx: TxId, ids: set<Id>, body: Body)
    | ReadSelection(tx: TxId, selected: seq<Choice>)
    | ClearRevisions(tx: TxId)
    | CheckFinal(tx: TxId)
    | Update(tx: TxId)
    | Lock(tx: TxId)
    | StartNumbering(tx: TxId)
    | ReadNext(tx: TxId, group: nat)
    | Assign(tx: TxId, group: nat, id: Id, now: int)
    | Commit(tx: TxId)
    | Abort(tx: TxId)

  function View(c: Table, x: Tx): Table {
    c + x.writes
  }

  predicate IdsDistinct(cs: seq<Choice>) {
    forall i, j :: 0 <= i < j < |cs| ==> cs[i].id != cs[j].id
  }

  function IdsOf(cs: seq<Choice>): set<Id> {
    set c | c in cs :: c.id
  }

  /** Ascending application, then finalization date with drafts last, then id. */
  predicate Precedes(a: Choice, b: Choice) {
    || a.row.app < b.row.app
    || (a.row.app == b.row.app
        && (|| (a.row.finalizedAt.Some? && b.row.finalizedAt.None?)
            || (a.row.finalizedAt.Some? && b.row.finalizedAt.Some? && a.row.finalizedAt.value < b.row.finalizedAt.value)
            || (a.row.finalizedAt == b.row.finalizedAt && a.id < b.id)))
  }

  /** What the selection query returns: each affected release that the filters match, once, as stored, in order. */
  ghost predicate IsSelection(selected: seq<Choice>, t: Table, ids: set<Id>, b: Body) {
    && IdsDistinct(selected)
    && (forall i, j :: 0 <= i < j < |selected| ==> Precedes(selected[i], selected[j]))
    && (forall c :: c in selected ==> c.id in ids && c.id in t && c.row == t[c.id] && Selects(c.row, b))
    && (forall i :: i in ids && i in t && Selects(t[i], b) ==> i in IdsOf(selected))
  }

  function InitialRow(app: AppId, semver: SemVer, variant: string): Release {
    Release(app, Stored(semver), variant, None, None)
  }

  function ClearedRows(t: Table, selected: seq<Choice>): Table {
    map i | i in IdsOf(selected) && i in t && IsFinal(t[i]) :: Cleared(t[i])
  }

  function UpdatedRows(t: Table, ids: set<Id>, b: Body): Table {
    map i | i in ids && i in t :: Updated(t[i], b)
  }

  function AppsToLock(selected: seq<Choice>, b: Body): seq<AppId> {
    var apps := ByApp(selected, b);
    seq(|apps|, n requires 0 <= n < |apps| => apps[n].0)
  }

  function WorkOf(groups: seq<Group>): seq<Work> {
    seq(|groups|, n requires 0 <= n < |groups| => Work(groups[n].app, groups[n].variant, groups[n].choices, map[]))
  }

  /** With a patched version a group is numbered in one go, otherwise release by release. */
  function Batch(w: Work, b: Body): seq<Choice>
    requires w.waiting != []
  {
    if b.semver.Some? then w.waiting else w.waiting[..1]
  }

  /** `next`, `next + 1`, ... for the releases of a batch. */
  function Consecutive(batch: seq<Choice>, next: nat): map<Id, nat> {
    if batch == [] then map[]
    else
      var n := |batch| - 1;
      Consecutive(batch[..n], next)[batch[n].id := next + n]
  }

  function NextFor(c: Table, x: Tx, w: Work): nat
    requires w.waiting != [] && NumberingVersion(w.waiting[0], x.body).Some?
  {
    NextRevision(View(c, x), KeyFor(w.app, NumberingVersion(w.waiting[0], x.body).value, w.variant))
  }

  /** `checkNotDifferentRevision` throws for no release of the batch. */
  ghost predicate ChecksPass(w: Work, b: Body, next: nat)
    requires w.waiting != [] && NumberingVersion(w.waiting[0], b).Some?
  {
    forall r: nat :: next <= r < next + |Batch(w, b)| ==> BuildAgrees(NumberingVersion(w.waiting[0], b).value.build, r)
  }

  // ---- events ----

  ghost predicate Enabled(s: State, e: Event) {
    if e.Post? then
      && e.tx !in s.open && e.id !in s.committed && Storable(e.semver)
      && (forall u :: u in s.open ==> e.id !in s.open[u].ids)
    else if e.Patch? then
      && e.tx !in s.open && e.ids <= s.committed.Keys && ValidBody(e.body)
      && (forall u :: u in s.open ==> e.ids !! s.open[u].ids)
    else
      && e.tx in s.open
      && EnabledIn(s, s.open[e.tx], e)
  }

  ghost predicate EnabledIn(s: State, x: Tx, e: Event)
    requires !e.Post? && !e.Patch?
  {
    match e
    case ReadSelection(_, selected) =>
      x.phase.Prerun? && x.phase.selection == Unread && IsSelection(selected, View(s.committed, x), x.ids, x.body)
    case ClearRevisions(_) =>
      x.phase.Prerun? && x.phase.selection == Chosen
    case CheckFinal(_) =>
      && x.phase.Prerun? && !x.phase.finalChecked
      && (x.body.isFinal == Some(false)
          ==> forall i :: i in x.ids && i in View(s.committed, x) ==> !IsFinal(View(s.committed, x)[i]))
    case Update(_) =>
      x.phase == Prerun(Nulled, true)
    case Lock(_) =>
      && x.phase.Locking? && x.phase.remaining != []
      && (forall u :: u in s.open && u != e.tx ==> x.phase.remaining[0] !in s.open[u].locks)
    case StartNumbering(_) =>
      x.phase == Locking([])
    case ReadNext(_, g) =>
      && x.phase.Numbering? && g < |x.phase.work|
      && var w := x.phase.work[g];
      && w.pending == map[] && w.waiting != [] && NumberingVersion(w.waiting[0], x.body).Some?
      && ChecksPass(w, x.body, NextFor(s.committed, x, w))
    case Assign(_, g, id, _) =>
      x.phase.Numbering? && g < |x.phase.work| && id in x.phase.work[g].pending && id in x.writes
    case Commit(_) =>
      x.phase.Numbering? && forall w :: w in x.phase.work ==> w.waiting == [] && w.pending == map[]
    case Abort(_) => true
  }

  ghost function Apply(s: State, e: Event): State
    requires Enabled(s, e)
  {
    match e
    case Post(_, _, _, _, _, _) => s.(open := s.open[e.tx := NewPost(e)])
    case Patch(_, ids, body) => s.(open := s.open[e.tx := Tx(ids, body, [], map[], {}, Prerun(Unread, false))])
    case Commit(_) => State(s.committed + s.open[e.tx].writes, s.open - {e.tx})
    case Abort(_) => s.(open := s.open - {e.tx})
    case _ => s.(open := s.open[e.tx := Advance(s, s.open[e.tx], e)])
  }

  function NewPost(e: Event): Tx
    requires e.Post?
  {
    var row := InitialRow(e.app, e.semver, e.variant);
    var body := Body(Some(e.isFinal), Some(e.semver), Some(e.app), Some(e.variant));
    if e.isFinal then Tx({e.id}, body, [Choice(e.id, row)], map[e.id := row], {}, Locking([e.app]))
    else Tx({e.id}, body, [], map[e.id := row], {}, Locking([]))
  }

  /** The effect of an event inside one open request. */
  ghost function Advance(s: State, x: Tx, e: Event): Tx
    requires !e.Post? && !e.Patch? && !e.Commit? && !e.Abort? && EnabledIn(s, x, e)
  {
    match e
    case ReadSelection(_, selected) => x.(selected := selected, phase := x.phase.(selection := Chosen))
    case ClearRevisions(_) =>
      x.(writes := ClearedRows(View(s.committed, x), x.selected), phase := x.phase.(selection := Nulled))
    case CheckFinal(_) => x.(phase := x.phase.(finalChecked := true))
    case Update(_) =>
      x.(writes := UpdatedRows(View(s.committed, x), x.ids, x.body), phase := Locking(AppsToLock(x.selected, x.body)))
    case Lock(_) =>
      x.(locks := x.locks + {x.phase.remaining[0]}, phase := Locking(x.phase.remaining[1..]))
    case StartNumbering(_) => x.(phase := Numbering(WorkOf(Groups(x.selected, x.body))))
    case ReadNext(_, g) =>
      var w := x.phase.work[g];
      var batch := Batch(w, x.body);
      x.(phase := Numbering(x.phase.work[g := w.(waiting := w.waiting[|batch|..],
                                                  pending := Consecutive(batch, NextFor(s.committed, x, w)))]))
    case Assign(_, g, id, now) =>
      var w := x.phase.work[g];
      x.(writes := x.writes[id := Numbered(x.writes[id], x.body, w.pending[id], now)],
         phase := Numbering(x.phase.work[g := w.(pending := w.pending - {id})]))
  }

  ghost predicate Legal(s: State, es: seq<Event>)
    decreases |es|
  {
    es == [] || (Enabled(s, es[0]) && Legal(Apply(s, es[0]), es[1..]))
  }

  ghost function Run(s: State, es: seq<Event>): State
    requires Legal(s, es)
    decreases |es|
  {
    if es == [] then s else Run(Apply(s, es[0]), es[1..])
  }

  /** No open requests, and a table whose finalized releases are numbered without repetition. */
  ghost predicate Initial(s: State) {
    s.open == map[] && Unique(s.committed) && ValidRows(s.committed)
  }

  // ---- the invariant ----

  ghost predicate ValidRows(t: Table) {
    forall i :: i in t ==> ValidParts(t[i].parts)
  }

  ghost predicate Kept(c: Table, i: Id, row: Release) {
    i in c && KeyOf(c[i]) == KeyOf(row) && c[i].revision == row.revision
  }

  /** The releases that are finalized once the request is through. */
  ghost predicate Expected(c: Table, x: Tx, i: Id) {
    x.body.isFinal == Some(true) || (i in c && IsFinal(c[i]))
  }

  ghost predicate BaseInv(c: Table, x: Tx) {
    && x.writes.Keys <= x.ids
    && Unique(View(c, x))
    && ValidRows(x.writes) && ValidBody(x.body)
    && (forall i :: i in x.writes && IsFinal(x.writes[i]) ==> Kept(c, i, x.writes[i]) || x.writes[i].app in x.locks)
    && IdsDistinct(x.selected)
    && (forall ch :: ch in x.selected ==> ch.id in x.ids && ValidParts(ch.row.parts))
  }

  ghost predicate PrerunInv(c: Table, x: Tx)
    requires x.phase.Prerun?
  {
    && x.ids <= c.Keys
    && (x.phase.selection == Unread ==> x.selected == [])
    && (x.phase.selection != Unread ==> IsSelection(x.selected, c, x.ids, x.body))
    && x.writes == (if x.phase.selection == Nulled then ClearedRows(c, x.selected) else map[])
  }

  /** A selected release still to be numbered sits in its group's application and variant, without a revision. */
  ghost predicate Awaits(x: Tx, ch: Choice, app: AppId, variant: string) {
    && ch.id in x.writes && x.writes[ch.id].revision.None?
    && x.writes[ch.id].app == app && x.writes[ch.id].variant == variant
    && x.writes[ch.id].parts == Updated(ch.row, x.body).parts
    && ValidParts(ch.row.parts)
  }

  ghost predicate LockingInv(c: Table, x: Tx)
    requires x.phase.Locking?
  {
    && x.writes.Keys == x.ids
    && (forall ch :: ch in x.selected ==> Awaits(x, ch, LabelOf(ch, x.body).0, LabelOf(ch, x.body).1))
    && (forall n :: 0 <= n < |ByApp(x.selected, x.body)|
          ==> ByApp(x.selected, x.body)[n].0 in x.locks || ByApp(x.selected, x.body)[n].0 in x.phase.remaining)
    && (forall i :: i in x.ids ==> (IsFinal(x.writes[i]) || i in IdsOf(x.selected) <==> Expected(c, x, i)))
  }

  ghost predicate WaitingInv(x: Tx, w: Work) {
    && IdsDistinct(w.waiting)
    && (forall ch :: ch in w.waiting ==> ch.id !in w.pending && Awaits(x, ch, w.app, w.variant))
  }

  /** A computed revision is unused under the key of its release, and is the one its build may mention. */
  ghost predicate PendingInv(c: Table, x: Tx, w: Work) {
    && (forall i :: i in w.pending ==>
          && i in x.writes && x.writes[i].revision.None?
          && x.writes[i].app == w.app && x.writes[i].variant == w.variant
          && BuildAgrees(Identifiers(x.writes[i].parts.build), w.pending[i]))
    && (forall i, j :: i in w.pending && j in View(c, x) && KeyOf(View(c, x)[j]) == KeyOf(x.writes[i])
          ==> View(c, x)[j].revision != Some(w.pending[i]))
    && (forall i, j :: i in w.pending && j in w.pending && i != j && KeyOf(x.writes[i]) == KeyOf(x.writes[j])
          ==> w.pending[i] != w.pending[j])
  }

  function Outstanding(w: Work): set<Id> {
    IdsOf(w.waiting) + w.pending.Keys
  }

  ghost predicate InWork(work: seq<Work>, i: Id) {
    exists n :: 0 <= n < |work| && i in Outstanding(work[n])
  }

  ghost predicate DistinctLabels(work: seq<Work>) {
    forall m, n :: 0 <= m < n < |work| ==> (work[m].app, work[m].variant) != (work[n].app, work[n].variant)
  }

  ghost predicate NumberingInv(c: Table, x: Tx)
    requires x.phase.Numbering?
  {
    && x.writes.Keys == x.ids
    && DistinctLabels(x.phase.work)
    && (forall n :: 0 <= n < |x.phase.work| ==>
          && x.phase.work[n].app in x.locks
          && WaitingInv(x, x.phase.work[n])
          && PendingInv(c, x, x.phase.work[n]))
    && (forall i :: i in x.ids ==> (IsFinal(x.writes[i]) || InWork(x.phase.work, i) <==> Expected(c, x, i)))
  }

  ghost predicate PhaseInv(c: Table, x: Tx) {
    match x.phase
    case Prerun(_, _) => PrerunInv(c, x)
    case Locking(_) => LockingInv(c, x)
    case Numbering(_) => NumberingInv(c, x)
  }

  ghost predicate TxInv(c: Table, x: Tx) {
    BaseInv(c, x) && PhaseInv(c, x)
  }

  ghost predicate Inv(s: State) {
    && Unique(s.committed) && ValidRows(s.committed)
    && (forall t :: t in s.open ==> TxInv(s.committed, s.open[t]))
    && (forall t, u :: t in s.open && u in s.open && t != u
          ==> s.open[t].ids !! s.open[u].ids && s.open[t].locks !! s.open[u].locks)
  }

  // ---- every event keeps the invariant ----

  lemma PostKeepsTx(c: Table, e: Event)
    requires e.Post? && Storable(e.semver) && e.id !in c && Unique(c)
    ensures TxInv(c, NewPost(e))
  {
    var x := NewPost(e);
    assert View(c, x) == c[e.id := InitialRow(e.app, e.semver, e.variant)];
    if e.isFinal {
      assert x.selected[0] == Choice(e.id, InitialRow(e.app, e.semver, e.variant));
      assert e.id in IdsOf(x.selected) by { assert x.selected[0] in x.selected; }
    }
  }

  lemma PatchKeepsTx(c: Table, ids: set<Id>, body: Body)
    requires Unique(c) && ids <= c.Keys && ValidBody(body)
    ensures TxInv(c, Tx(ids, body, [], map[], {}, Prerun(Unread, false)))
  {
    assert c + map[] == c;
  }

  lemma PrerunKeepsTx(s: State, x: Tx, e: Event)
    requires TxInv(s.committed, x) && Unique(s.committed) && ValidRows(s.committed)
    requires e.ReadSelection? || e.ClearRevisions? || e.CheckFinal?
    requires EnabledIn(s, x, e)
    ensures TxInv(s.committed, Advance(s, x, e))
  {
    var c := s.committed;
    if x.phase.selection != Nulled {
      assert View(c, x) == c;
    }
    if e.ReadSelection? {
      SelectingKeepsTx(c, x, Advance(s, x, e));
    } else if e.ClearRevisions? {
      ClearingKeepsTx(c, x, Advance(s, x, e));
    } else {
      SameRowsKeepBase(c, x, Advance(s, x, e));
    }
  }

  lemma SelectingKeepsTx(c: Table, x: Tx, y: Tx)
    requires TxInv(c, x) && x.phase.Prerun? && x.phase.selection == Unread && ValidRows(c)
    requires IsSelection(y.selected, c, x.ids, x.body)
    requires y == x.(selected := y.selected, phase := x.phase.(selection := Chosen))
    ensures TxInv(c, y)
  {
    assert View(c, y) == View(c, x);
  }

  lemma ClearingKeepsTx(c: Table, x: Tx, y: Tx)
    requires TxInv(c, x) && x.phase.Prerun? && x.phase.selection == Chosen && Unique(c) && ValidRows(c)
    requires y == x.(writes := ClearedRows(c, x.selected), phase := x.phase.(selection := Nulled))
    ensures TxInv(c, y)
  {
    ClearingKeepsUnique(c, y.writes);
    forall i | i in y.writes ensures i in x.ids && y.writes[i].revision.None? && ValidParts(y.writes[i].parts) {
      var ch :| ch in x.selected && ch.id == i;
    }
  }

  /** Taking revisions away cannot make two releases clash. */
  lemma ClearingKeepsUnique(c: Table, writes: Table)
    requires Unique(c)
    requires forall i :: i in writes ==> writes[i].revision.None?
    ensures Unique(c + writes)
  {
  }

  /** The rows a PATCH holds after its main UPDATE. */
  lemma UpdatedRow(c: Table, x: Tx, i: Id)
    requires TxInv(c, x) && x.phase == Prerun(Nulled, true) && i in x.ids
    ensures i in View(c, x) && i in c
    ensures i in IdsOf(x.selected)
        <==> Selects(c[i], x.body)
    ensures View(c, x)[i] == if i in IdsOf(x.selected) then Cleared(c[i]) else c[i]
  {
    if i in IdsOf(x.selected) {
      var ch :| ch in x.selected && ch.id == i;
      assert ch.row == c[i];
    }
  }

  lemma UpdateKeepsTx(c: Table, x: Tx, y: Tx)
    requires TxInv(c, x) && Unique(c) && ValidRows(c) && x.phase == Prerun(Nulled, true)
    requires y == x.(writes := UpdatedRows(View(c, x), x.ids, x.body), phase := Locking(AppsToLock(x.selected, x.body)))
    ensures TxInv(c, y)
  {
    forall i | i in x.ids ensures i in y.writes && y.writes[i] == Updated(View(c, x)[i], x.body) {
      UpdatedRow(c, x, i);
    }
    assert y.writes.Keys == x.ids;
    UpdateKeepsBase(c, x, y);
    forall ch | ch in x.selected ensures Awaits(y, ch, LabelOf(ch, x.body).0, LabelOf(ch, x.body).1) {
      assert ch.id in IdsOf(x.selected);
      UpdatedRow(c, x, ch.id);
    }
    forall n | 0 <= n < |ByApp(x.selected, x.body)| ensures ByApp(x.selected, x.body)[n].0 in y.phase.remaining {
      assert y.phase.remaining[n] == ByApp(x.selected, x.body)[n].0;
    }
    forall i | i in x.ids ensures IsFinal(y.writes[i]) || i in IdsOf(x.selected) <==> Expected(c, y, i) {
      UpdatedRow(c, x, i);
    }
  }

  lemma UpdateKeepsBase(c: Table, x: Tx, y: Tx)
    requires TxInv(c, x) && Unique(c) && ValidRows(c) && x.phase == Prerun(Nulled, true)
    requires y.writes.Keys == x.ids && y.ids == x.ids && y.body == x.body && y.selected == x.selected
    requires forall i :: i in x.ids ==> i in View(c, x) && y.writes[i] == Updated(View(c, x)[i], x.body)
    ensures BaseInv(c, y)
  {
    forall i | i in y.writes
      ensures ValidParts(y.writes[i].parts)
      ensures IsFinal(y.writes[i]) ==> Kept(c, i, y.writes[i])
    {
      UpdatedRow(c, x, i);
      if IsFinal(y.writes[i]) {
        UnselectedKeepsKey(c[i], x.body);
      }
    }
    KeptRowsKeepUnique(c, y.writes);
  }

  lemma KeptRowsKeepUnique(c: Table, writes: Table)
    requires Unique(c)
    requires forall i :: i in writes && IsFinal(writes[i]) ==> Kept(c, i, writes[i])
    ensures Unique(c + writes)
  {
  }

  lemma LockKeepsTx(c: Table, x: Tx, y: Tx)
    requires TxInv(c, x) && x.phase.Locking? && x.phase.remaining != []
    requires y == x.(locks := x.locks + {x.phase.remaining[0]}, phase := Locking(x.phase.remaining[1..]))
    ensures TxInv(c, y)
  {
    assert View(c, y) == View(c, x);
  }

  lemma StartKeepsTx(c: Table, x: Tx, y: Tx)
    requires TxInv(c, x) && x.phase == Locking([])
    requires y == x.(phase := Numbering(WorkOf(Groups(x.selected, x.body))))
    ensures TxInv(c, y)
  {
    var groups := Groups(x.selected, x.body);
    GroupsFacts(x.selected, x.body);
    assert View(c, y) == View(c, x);
    forall n | 0 <= n < |groups|
      ensures y.phase.work[n].app in y.locks && WaitingInv(y, y.phase.work[n]) && PendingInv(c, y, y.phase.work[n])
    {
      StartedWork(c, x, y, n);
    }
    forall i | i in x.ids ensures InWork(y.phase.work, i) <==> i in IdsOf(x.selected) {
      StartedIds(x, groups, i);
    }
  }

  lemma StartedWork(c: Table, x: Tx, y: Tx, n: nat)
    requires TxInv(c, x) && x.phase == Locking([])
    requires y == x.(phase := Numbering(WorkOf(Groups(x.selected, x.body))))
    requires n < |y.phase.work|
    ensures y.phase.work[n].app in y.locks && WaitingInv(y, y.phase.work[n]) && PendingInv(c, y, y.phase.work[n])
  {
    var groups := Groups(x.selected, x.body);
    GroupsFacts(x.selected, x.body);
    assert Distinct(x.selected);
    InGroupMembers(x.selected, x.body, (groups[n].app, groups[n].variant));
    DistinctChoicesHaveDistinctIds(x.selected, groups[n].choices);
  }

  lemma StartedIds(x: Tx, groups: seq<Group>, i: Id)
    requires AreGroupsOf(groups, x.selected, x.body)
    ensures InWork(WorkOf(groups), i) <==> i in IdsOf(x.selected)
  {
    var work := WorkOf(groups);
    if i in IdsOf(x.selected) {
      var ch :| ch in x.selected && ch.id == i;
      var n :| 0 <= n < |groups| && (groups[n].app, groups[n].variant) == LabelOf(ch, x.body);
      InGroupMembers(x.selected, x.body, (groups[n].app, groups[n].variant));
      assert ch in work[n].waiting;
      assert i in Outstanding(work[n]);
    }
    if InWork(work, i) {
      var n :| 0 <= n < |work| && i in Outstanding(work[n]);
      var ch :| ch in work[n].waiting && ch.id == i;
      InGroupMembers(x.selected, x.body, (groups[n].app, groups[n].variant));
    }
  }

  lemma DistinctChoicesHaveDistinctIds(all: seq<Choice>, some: seq<Choice>)
    requires IdsDistinct(all) && Distinct(some)
    requires forall ch :: ch in some ==> ch in all
    ensures IdsDistinct(some)
  {
    forall i, j | 0 <= i < j < |some| ensures some[i].id != some[j].id {
      assert some[i] in some && some[j] in some;
    }
  }

  lemma {:induction false} ConsecutiveFacts(batch: seq<Choice>, next: nat)
    requires IdsDistinct(batch)
    ensures Consecutive(batch, next).Keys == IdsOf(batch)
    ensures forall k :: 0 <= k < |batch| ==> batch[k].id in Consecutive(batch, next) && Consecutive(batch, next)[batch[k].id] == next + k
  {
    if batch != [] {
      var n := |batch| - 1;
      ConsecutiveFacts(batch[..n], next);
      assert batch == batch[..n] + [batch[n]];
    }
  }

  /** Every pending entry of a batch is one of its positions. */
  lemma ConsecutiveAt(batch: seq<Choice>, next: nat, i: Id) returns (k: nat)
    requires IdsDistinct(batch) && i in Consecutive(batch, next)
    ensures k < |batch| && batch[k].id == i && Consecutive(batch, next)[i] == next + k
  {
    ConsecutiveFacts(batch, next);
    var ch :| ch in batch && ch.id == i;
    k :| 0 <= k < |batch| && batch[k] == ch;
  }

  /** All releases of a batch have the key for which the next revision was read. */
  lemma BatchKey(c: Table, x: Tx, w: Work, k: nat)
    requires ValidBody(x.body) && WaitingInv(x, w) && w.waiting != [] && k < |Batch(w, x.body)|
    ensures NumberingVersion(w.waiting[0], x.body).Some?
    ensures var v := NumberingVersion(w.waiting[0], x.body).value;
            var ch := Batch(w, x.body)[k];
            && ch in w.waiting
            && KeyOf(x.writes[ch.id]) == KeyFor(w.app, v, w.variant)
            && v.build == Identifiers(x.writes[ch.id].parts.build)
  {
    var ch := Batch(w, x.body)[k];
    assert ch in w.waiting && w.waiting[0] in w.waiting;
    NumberingMatchesRow(ch, x.body);
    NumberingMatchesRow(w.waiting[0], x.body);
  }

  lemma SameRowsKeepBase(c: Table, x: Tx, y: Tx)
    requires BaseInv(c, x) && y == x.(phase := y.phase)
    ensures BaseInv(c, y)
  {
    assert View(c, y) == View(c, x);
  }

  /** Replacing a group by one in order, with the same outstanding releases. */
  lemma ReplacedWorkKeepsTx(c: Table, x: Tx, y: Tx, g: nat, w': Work)
    requires TxInv(c, x) && x.phase.Numbering? && g < |x.phase.work|
    requires y == x.(phase := Numbering(x.phase.work[g := w']))
    requires WaitingInv(x, w') && PendingInv(c, x, w')
    requires var w := x.phase.work[g]; Outstanding(w') == Outstanding(w) && w'.app == w.app && w'.variant == w.variant
    ensures TxInv(c, y)
  {
    SameRowsKeepBase(c, x, y);
    ReplacedWorkKeepsGroups(c, x, y, g, w');
    SameOutstanding(x.phase.work, y.phase.work);
  }

  lemma ReplacedWorkKeepsGroups(c: Table, x: Tx, y: Tx, g: nat, w': Work)
    requires x.phase.Numbering? && g < |x.phase.work| && NumberingInv(c, x)
    requires y == x.(phase := Numbering(x.phase.work[g := w']))
    requires WaitingInv(x, w') && PendingInv(c, x, w') && w'.app == x.phase.work[g].app
    ensures forall n :: 0 <= n < |y.phase.work| ==>
              WaitingInv(y, y.phase.work[n]) && PendingInv(c, y, y.phase.work[n]) && y.phase.work[n].app in y.locks
  {
    forall n | 0 <= n < |y.phase.work|
      ensures WaitingInv(y, y.phase.work[n]) && PendingInv(c, y, y.phase.work[n]) && y.phase.work[n].app in y.locks
    {
      SameRowsSameWork(c, x, y, y.phase.work[n]);
    }
  }

  lemma ReadNextKeepsTx(s: State, x: Tx, e: Event)
    requires TxInv(s.committed, x) && e.ReadNext? && EnabledIn(s, x, e)
    ensures TxInv(s.committed, Advance(s, x, e))
  {
    var y := Advance(s, x, e);
    var g := e.group;
    BatchBecomesPending(s.committed, x, x.phase.work[g], y.phase.work[g]);
    ReplacedWorkKeepsTx(s.committed, x, y, g, y.phase.work[g]);
  }

  /** A group's invariant looks at the rows and the body only. */
  lemma SameRowsSameWork(c: Table, x: Tx, y: Tx, w: Work)
    requires x.writes == y.writes && x.body == y.body
    ensures WaitingInv(x, w) ==> WaitingInv(y, w)
    ensures PendingInv(c, x, w) ==> PendingInv(c, y, w)
  {
    assert View(c, y) == View(c, x);
  }

  /** Reading the next revision moves a batch from waiting to pending. */
  lemma BatchBecomesPending(c: Table, x: Tx, w: Work, w': Work)
    requires BaseInv(c, x) && WaitingInv(x, w)
    requires w.pending == map[] && w.waiting != [] && NumberingVersion(w.waiting[0], x.body).Some?
    requires ChecksPass(w, x.body, NextFor(c, x, w))
    requires var batch := Batch(w, x.body);
             w' == w.(waiting := w.waiting[|batch|..], pending := Consecutive(batch, NextFor(c, x, w)))
    ensures WaitingInv(x, w') && PendingInv(c, x, w') && Outstanding(w') == Outstanding(w)
  {
    var batch := Batch(w, x.body);
    assert w.waiting == batch + w'.waiting;
    BatchLeavesWaiting(x, w, w', batch, NextFor(c, x, w));
    BatchIsPending(c, x, w, w');
  }

  lemma IdsOfTwo(a: seq<Choice>, b: seq<Choice>)
    ensures IdsOf(a + b) == IdsOf(a) + IdsOf(b)
  {
    assert forall ch :: ch in a + b <==> ch in a || ch in b;
  }

  lemma BatchLeavesWaiting(x: Tx, w: Work, w': Work, batch: seq<Choice>, next: nat)
    requires WaitingInv(x, w) && w.pending == map[]
    requires w.waiting == batch + w'.waiting && w'.pending == Consecutive(batch, next)
    requires w'.app == w.app && w'.variant == w.variant
    ensures WaitingInv(x, w') && Outstanding(w') == Outstanding(w)
  {
    assert forall k :: 0 <= k < |batch| ==> w.waiting[k] == batch[k];
    ConsecutiveFacts(batch, next);
    IdsOfTwo(batch, w'.waiting);
    assert forall m :: 0 <= m < |w'.waiting| ==> w.waiting[|batch| + m] == w'.waiting[m];
    forall ch | ch in w'.waiting ensures ch in w.waiting && ch.id !in w'.pending {
      var m :| 0 <= m < |w'.waiting| && w'.waiting[m] == ch;
      if ch.id in w'.pending {
        var k := ConsecutiveAt(batch, next, ch.id);
        assert false;
      }
    }
  }

  /** The release of a pending entry of a fresh batch: in the group, and in the key that was read. */
  lemma BatchEntry(c: Table, x: Tx, w: Work, next: nat, i: Id)
    requires ValidBody(x.body) && WaitingInv(x, w)
    requires w.waiting != [] && NumberingVersion(w.waiting[0], x.body).Some?
    requires i in Consecutive(Batch(w, x.body), next)
    ensures i in x.writes && x.writes[i].revision.None? && x.writes[i].app == w.app && x.writes[i].variant == w.variant
    ensures KeyOf(x.writes[i]) == KeyFor(w.app, NumberingVersion(w.waiting[0], x.body).value, w.variant)
    ensures NumberingVersion(w.waiting[0], x.body).value.build == Identifiers(x.writes[i].parts.build)
    ensures next <= Consecutive(Batch(w, x.body), next)[i] < next + |Batch(w, x.body)|
  {
    var batch := Batch(w, x.body);
    var k := ConsecutiveAt(batch, next, i);
    BatchKey(c, x, w, k);
    assert Awaits(x, batch[k], w.app, w.variant);
  }

  lemma BatchIsPending(c: Table, x: Tx, w: Work, w': Work)
    requires BaseInv(c, x) && WaitingInv(x, w)
    requires w.waiting != [] && NumberingVersion(w.waiting[0], x.body).Some?
    requires ChecksPass(w, x.body, NextFor(c, x, w))
    requires w'.pending == Consecutive(Batch(w, x.body), NextFor(c, x, w)) && w'.app == w.app && w'.variant == w.variant
    ensures PendingInv(c, x, w')
  {
    var batch, next := Batch(w, x.body), NextFor(c, x, w);
    var key := KeyFor(w.app, NumberingVersion(w.waiting[0], x.body).value, w.variant);
    var pending := w'.pending;
    NextRevisionIsNext(View(c, x), key);
    forall i | i in pending
      ensures i in x.writes && x.writes[i].revision.None? && x.writes[i].app == w.app && x.writes[i].variant == w.variant
      ensures BuildAgrees(Identifiers(x.writes[i].parts.build), pending[i])
      ensures KeyOf(x.writes[i]) == key && pending[i] >= next
    {
      BatchEntry(c, x, w, next, i);
    }
    forall i, j | i in pending && j in View(c, x) && KeyOf(View(c, x)[j]) == KeyOf(x.writes[i])
      ensures View(c, x)[j].revision != Some(pending[i])
    {
      assert KeyOf(View(c, x)[j]) == key;
    }
    ConsecutiveDiffer(batch, next);
  }

  lemma ConsecutiveDiffer(batch: seq<Choice>, next: nat)
    requires IdsDistinct(batch)
    ensures var p := Consecutive(batch, next); forall i, j :: i in p && j in p && i != j ==> p[i] != p[j]
  {
    var p := Consecutive(batch, next);
    forall i, j | i in p && j in p && i != j ensures p[i] != p[j] {
      var k := ConsecutiveAt(batch, next, i);
      var m := ConsecutiveAt(batch, next, j);
    }
  }

  lemma SameOutstanding(before: seq<Work>, after: seq<Work>)
    requires |before| == |after|
    requires forall n :: 0 <= n < |before| ==> Outstanding(before[n]) == Outstanding(after[n])
    ensures forall i :: InWork(before, i) <==> InWork(after, i)
  {
    forall i ensures InWork(before, i) <==> InWork(after, i) {
      if InWork(before, i) {
        var n :| 0 <= n < |before| && i in Outstanding(before[n]);
        assert i in Outstanding(after[n]);
      }
      if InWork(after, i) {
        var n :| 0 <= n < |after| && i in Outstanding(after[n]);
        assert i in Outstanding(before[n]);
      }
    }
  }

  /** `y` is `x` after one computed revision has been written. */
  ghost predicate Assigned(x: Tx, y: Tx, g: nat, id: Id, now: int) {
    && x.phase.Numbering? && g < |x.phase.work| && id in x.phase.work[g].pending && id in x.writes
    && var w := x.phase.work[g];
    y == x.(writes := x.writes[id := Numbered(x.writes[id], x.body, w.pending[id], now)],
            phase := Numbering(x.phase.work[g := w.(pending := w.pending - {id})]))
  }

  lemma AssignKeepsTx(c: Table, x: Tx, y: Tx, g: nat, id: Id, now: int)
    requires TxInv(c, x) && Assigned(x, y, g, id, now)
    ensures TxInv(c, y)
  {
    AssignKeepsBase(c, x, y, g, id, now);
    forall n | 0 <= n < |y.phase.work|
      ensures WaitingInv(y, y.phase.work[n]) && PendingInv(c, y, y.phase.work[n]) && y.phase.work[n].app in y.locks
    {
      AssignKeepsWork(c, x, y, g, id, now, n);
    }
    forall i | i in x.ids ensures IsFinal(y.writes[i]) || InWork(y.phase.work, i) <==> IsFinal(x.writes[i]) || InWork(x.phase.work, i) {
      AssignKeepsFinality(x, y, g, id, now, i);
    }
  }

  lemma AssignKeepsBase(c: Table, x: Tx, y: Tx, g: nat, id: Id, now: int)
    requires TxInv(c, x) && Assigned(x, y, g, id, now)
    ensures BaseInv(c, y)
  {
    var w := x.phase.work[g];
    assert PendingInv(c, x, w) && w.app in x.locks;
    var row := y.writes[id];
    assert KeyOf(row) == KeyOf(x.writes[id]) && row.revision == Some(w.pending[id]);
    assert View(c, y) == View(c, x)[id := row];
    UniqueWithUnused(View(c, x), id, row);
  }

  lemma UniqueWithUnused(t: Table, id: Id, row: Release)
    requires Unique(t)
    requires forall j :: j in t && KeyOf(t[j]) == KeyOf(row) ==> t[j].revision != row.revision
    ensures Unique(t[id := row])
  {
  }

  lemma AssignKeepsFinality(x: Tx, y: Tx, g: nat, id: Id, now: int, i: Id)
    requires Assigned(x, y, g, id, now) && i in x.writes
    ensures IsFinal(y.writes[i]) || InWork(y.phase.work, i) <==> IsFinal(x.writes[i]) || InWork(x.phase.work, i)
  {
    if i == id {
      assert i in Outstanding(x.phase.work[g]);
    } else {
      if InWork(x.phase.work, i) {
        var n :| 0 <= n < |x.phase.work| && i in Outstanding(x.phase.work[n]);
        assert i in Outstanding(y.phase.work[n]);
      }
      if InWork(y.phase.work, i) {
        var n :| 0 <= n < |y.phase.work| && i in Outstanding(y.phase.work[n]);
        assert i in Outstanding(x.phase.work[n]);
      }
    }
  }

  /** Writing one revision leaves every group, its own included, in order. */
  lemma AssignKeepsWork(c: Table, x: Tx, y: Tx, g: nat, id: Id, now: int, n: nat)
    requires TxInv(c, x) && Assigned(x, y, g, id, now) && n < |x.phase.work|
    ensures WaitingInv(y, y.phase.work[n]) && PendingInv(c, y, y.phase.work[n]) && y.phase.work[n].app in y.locks
  {
    AssignKeepsWaiting(c, x, y, g, id, now, n);
    AssignKeepsPending(c, x, y, g, id, now, n);
  }

  lemma AssignKeepsWaiting(c: Table, x: Tx, y: Tx, g: nat, id: Id, now: int, n: nat)
    requires TxInv(c, x) && Assigned(x, y, g, id, now) && n < |x.phase.work|
    ensures WaitingInv(y, y.phase.work[n])
  {
    var own, v, v' := x.phase.work[g], x.phase.work[n], y.phase.work[n];
    assert WaitingInv(x, v) && PendingInv(c, x, v) && PendingInv(c, x, own);
    if n != g {
      assert (v.app, v.variant) != (own.app, own.variant);
    }
    forall ch | ch in v'.waiting ensures ch.id != id && ch.id !in v'.pending && Awaits(y, ch, v'.app, v'.variant) {
      assert Awaits(x, ch, v.app, v.variant);
    }
  }

  /** The entries that stay pending, and their rows. */
  lemma AssignKeepsEntries(c: Table, x: Tx, y: Tx, g: nat, id: Id, now: int, n: nat)
    requires TxInv(c, x) && Assigned(x, y, g, id, now) && n < |x.phase.work|
    ensures var v, v' := x.phase.work[n], y.phase.work[n];
            && v'.app == v.app && v'.variant == v.variant && v.app in x.locks && y.locks == x.locks
            && (forall i :: i in v'.pending ==>
                  i in v.pending && v'.pending[i] == v.pending[i] && i != id && i in y.writes && y.writes[i] == x.writes[i])
            && (n != g ==> (v.app, v.variant) != (x.phase.work[g].app, x.phase.work[g].variant))
  {
    var own, v := x.phase.work[g], x.phase.work[n];
    assert PendingInv(c, x, v) && PendingInv(c, x, own);
    if n != g {
      assert (v.app, v.variant) != (own.app, own.variant);
      assert id !in v.pending;
    }
  }

  lemma AssignKeepsPending(c: Table, x: Tx, y: Tx, g: nat, id: Id, now: int, n: nat)
    requires TxInv(c, x) && Assigned(x, y, g, id, now) && n < |x.phase.work|
    ensures PendingInv(c, y, y.phase.work[n]) && y.phase.work[n].app in y.locks
  {
    var own, v, v' := x.phase.work[g], x.phase.work[n], y.phase.work[n];
    AssignKeepsEntries(c, x, y, g, id, now, n);
    assert PendingInv(c, x, v) && PendingInv(c, x, own);
    forall i, j | i in v'.pending && j in View(c, y) && KeyOf(View(c, y)[j]) == KeyOf(y.writes[i])
      ensures View(c, y)[j].revision != Some(v'.pending[i])
    {
      PendingStaysUnused(c, x, y, own, v, id, i, j);
    }
  }

  /** A pending entry other than the assigned one does not meet its revision in any row afterwards. */
  lemma PendingStaysUnused(c: Table, x: Tx, y: Tx, own: Work, v: Work, id: Id, i: Id, j: Id)
    requires PendingInv(c, x, own) && PendingInv(c, x, v) && id in own.pending && i in v.pending && i != id
    requires v == own || (v.app, v.variant) != (own.app, own.variant)
    requires id in y.writes && y.writes == x.writes[id := y.writes[id]]
    requires KeyOf(y.writes[id]) == KeyOf(x.writes[id]) && y.writes[id].revision == Some(own.pending[id])
    requires j in View(c, y) && KeyOf(View(c, y)[j]) == KeyOf(y.writes[i])
    ensures View(c, y)[j].revision != Some(v.pending[i])
  {
    if j == id {
      assert KeyOf(x.writes[id]) == KeyOf(x.writes[i]);
    } else {
      assert View(c, y)[j] == View(c, x)[j];
    }
  }

  lemma AdvanceKeepsTx(s: State, e: Event)
    requires Inv(s) && Enabled(s, e) && !e.Post? && !e.Patch? && !e.Commit? && !e.Abort?
    ensures TxInv(s.committed, Advance(s, s.open[e.tx], e))
  {
    var x := s.open[e.tx];
    match e
    case ReadSelection(_, _) => PrerunKeepsTx(s, x, e);
    case ClearRevisions(_) => PrerunKeepsTx(s, x, e);
    case CheckFinal(_) => PrerunKeepsTx(s, x, e);
    case Update(_) => UpdateKeepsTx(s.committed, x, Advance(s, x, e));
    case Lock(_) => LockKeepsTx(s.committed, x, Advance(s, x, e));
    case StartNumbering(_) => StartKeepsTx(s.committed, x, Advance(s, x, e));
    case ReadNext(_, _) => ReadNextKeepsTx(s, x, e);
    case Assign(_, g, id, now) => AssignKeepsTx(s.committed, x, Advance(s, x, e), g, id, now);
  }

  // ---- commits, seen by the other open requests ----

  /** What a commit can add to another request's view: nothing finalized under an application it has locked. */
  lemma CommittedRow(c: Table, x: Tx, u: Tx, j: Id)
    requires TxInv(c, x) && TxInv(c, u) && x.ids !! u.ids && x.locks !! u.locks
    requires j in c + x.writes && j !in u.writes && IsFinal((c + x.writes)[j])
    ensures Kept(c, j, (c + x.writes)[j]) || (c + x.writes)[j].app in x.locks
  {
  }

  lemma CommitKeepsUnique(c: Table, x: Tx, u: Tx)
    requires TxInv(c, x) && TxInv(c, u) && x.ids !! u.ids && x.locks !! u.locks && Unique(c)
    ensures Unique(View(c + x.writes, u))
  {
    var c' := c + x.writes;
    var v := View(c', u);
    forall i, j | i in u.writes && j in v && j !in u.writes && IsFinal(v[i]) && IsFinal(v[j]) && KeyOf(v[i]) == KeyOf(v[j])
      ensures v[i].revision != v[j].revision
    {
      CommittedRow(c, x, u, j);
      assert View(c, u)[i] == v[i];
      if Kept(c, j, v[j]) {
        assert View(c, u)[j] == c[j];
      } else {
        assert Kept(c, i, v[i]);
        assert View(c, x)[i] == c[i] && View(c, x)[j] == v[j];
      }
    }
    forall i, j | i in v && j in v && i != j && IsFinal(v[i]) && IsFinal(v[j]) && KeyOf(v[i]) == KeyOf(v[j])
      ensures v[i].revision != v[j].revision
    {
      if i in u.writes && j in u.writes {
        assert View(c, u)[i] == v[i] && View(c, u)[j] == v[j];
      } else if i !in u.writes && j !in u.writes {
        assert View(c, x)[i] == v[i] && View(c, x)[j] == v[j];
      }
    }
  }

  lemma CommitKeepsPending(c: Table, x: Tx, u: Tx, w: Work)
    requires TxInv(c, x) && TxInv(c, u) && x.ids !! u.ids && x.locks !! u.locks
    requires PendingInv(c, u, w) && w.app in u.locks
    ensures PendingInv(c + x.writes, u, w)
  {
    var c' := c + x.writes;
    forall i, j | i in w.pending && j in View(c', u) && KeyOf(View(c', u)[j]) == KeyOf(u.writes[i])
      ensures View(c', u)[j].revision != Some(w.pending[i])
    {
      if j in u.writes {
        assert View(c, u)[j] == View(c', u)[j];
      } else if IsFinal(c'[j]) {
        CommittedRow(c, x, u, j);
        assert View(c, u)[j] == c[j];
      }
    }
  }

  lemma CommitKeepsTx(c: Table, x: Tx, u: Tx)
    requires TxInv(c, x) && TxInv(c, u) && x.ids !! u.ids && x.locks !! u.locks && Unique(c)
    ensures TxInv(c + x.writes, u)
  {
    CommitKeepsUnique(c, x, u);
    SameOwnRows(c, x, u);
    assert BaseInv(c + x.writes, u);
    CommitKeepsPhase(c, x, u);
  }

  lemma SameOwnRows(c: Table, x: Tx, u: Tx)
    requires x.writes.Keys <= x.ids && x.ids !! u.ids
    ensures var c' := c + x.writes; forall i :: i in u.ids ==> (i in c' <==> i in c) && (i in c ==> c'[i] == c[i])
  {
  }

  lemma CommitKeepsPhase(c: Table, x: Tx, u: Tx)
    requires TxInv(c, x) && TxInv(c, u) && x.ids !! u.ids && x.locks !! u.locks
    ensures PhaseInv(c + x.writes, u)
  {
    match u.phase
    case Prerun(_, _) => CommitKeepsPrerun(c, x, u);
    case Locking(_) => CommitKeepsLocking(c, x, u);
    case Numbering(_) => CommitKeepsNumbering(c, x, u);
  }

  lemma CommitKeepsPrerun(c: Table, x: Tx, u: Tx)
    requires x.writes.Keys <= x.ids && x.ids !! u.ids && u.phase.Prerun? && PrerunInv(c, u)
    ensures PrerunInv(c + x.writes, u)
  {
    var c' := c + x.writes;
    SameOwnRows(c, x, u);
    if u.phase.selection != Unread {
      assert IsSelection(u.selected, c', u.ids, u.body);
      assert forall i :: i in IdsOf(u.selected) ==> i in u.ids;
      assert ClearedRows(c', u.selected) == ClearedRows(c, u.selected);
    }
  }

  lemma CommitKeepsLocking(c: Table, x: Tx, u: Tx)
    requires x.writes.Keys <= x.ids && x.ids !! u.ids && u.phase.Locking? && LockingInv(c, u)
    ensures LockingInv(c + x.writes, u)
  {
    SameOwnRows(c, x, u);
  }

  lemma CommitKeepsNumbering(c: Table, x: Tx, u: Tx)
    requires TxInv(c, x) && TxInv(c, u) && x.ids !! u.ids && x.locks !! u.locks && u.phase.Numbering?
    ensures NumberingInv(c + x.writes, u)
  {
    var c', work := c + x.writes, u.phase.work;
    SameOwnRows(c, x, u);
    assert forall i :: i in u.ids ==> (Expected(c', u, i) <==> Expected(c, u, i));
    forall n | 0 <= n < |work| ensures PendingInv(c', u, work[n]) && WaitingInv(u, work[n]) && work[n].app in u.locks {
      CommitKeepsPending(c, x, u, work[n]);
    }
  }

  lemma CommitKeepsInv(s: State, t: TxId)
    requires Inv(s) && Enabled(s, Commit(t))
    ensures Inv(Apply(s, Commit(t)))
  {
    var x := s.open[t];
    assert TxInv(s.committed, x);
    assert View(s.committed, x) == s.committed + x.writes;
    var after := Apply(s, Commit(t));
    forall u | u in after.open ensures TxInv(after.committed, after.open[u]) {
      CommitKeepsTx(s.committed, x, s.open[u]);
    }
  }

  lemma OthersKeepInv(s: State, t: TxId, y: Tx)
    requires Inv(s) && TxInv(s.committed, y)
    requires forall u :: u in s.open && u != t ==> y.ids !! s.open[u].ids && y.locks !! s.open[u].locks
    ensures Inv(s.(open := s.open[t := y]))
  {
  }

  lemma StepKeepsInv(s: State, e: Event)
    requires Inv(s) && Enabled(s, e)
    ensures Inv(Apply(s, e))
  {
    match e
    case Post(_, _, _, _, _, _) => PostKeepsInv(s, e);
    case Patch(_, _, _) => PatchKeepsInv(s, e);
    case Commit(t) => CommitKeepsInv(s, t);
    case Abort(t) => AbortKeepsInv(s, t);
    case _ => AdvanceKeepsInv(s, e);
  }

  lemma PostKeepsInv(s: State, e: Event)
    requires Inv(s) && Enabled(s, e) && e.Post?
    ensures Inv(Apply(s, e))
  {
    PostKeepsTx(s.committed, e);
    OthersKeepInv(s, e.tx, NewPost(e));
  }

  lemma PatchKeepsInv(s: State, e: Event)
    requires Inv(s) && Enabled(s, e) && e.Patch?
    ensures Inv(Apply(s, e))
  {
    PatchKeepsTx(s.committed, e.ids, e.body);
    OthersKeepInv(s, e.tx, Tx(e.ids, e.body, [], map[], {}, Prerun(Unread, false)));
  }

  lemma AbortKeepsInv(s: State, t: TxId)
    requires Inv(s) && Enabled(s, Abort(t))
    ensures Inv(Apply(s, Abort(t)))
  {
  }

  /** An event inside an open request: its ids stay, and its locks grow only by one that no other request holds. */
  lemma AdvanceKeepsInv(s: State, e: Event)
    requires Inv(s) && Enabled(s, e) && !e.Post? && !e.Patch? && !e.Commit? && !e.Abort?
    ensures Inv(Apply(s, e))
  {
    var x := s.open[e.tx];
    var y := Advance(s, x, e);
    AdvanceKeepsTx(s, e);
    assert y.ids == x.ids && (y.locks == x.locks || (e.Lock? && y.locks == x.locks + {x.phase.remaining[0]}));
    OthersKeepInv(s, e.tx, y);
  }

  lemma {:induction false} RunKeepsInv(s: State, es: seq<Event>)
    requires Inv(s) && Legal(s, es)
    ensures Inv(Run(s, es))
    decreases |es|
  {
    if es != [] {
      StepKeepsInv(s, es[0]);
      RunKeepsInv(Apply(s, es[0]), es[1..]);
    }
  }

  // ---- main results ----

  /** However requests interleave, no two committed finalized releases share a key and a revision. */
  lemma NoDuplicateRevisions(s: State, es: seq<Event>)
    requires Initial(s) && Legal(s, es)
    ensures Unique(Run(s, es).committed)
  {
    RunKeepsInv(s, es);
  }

  /**
    After a commit the affected releases that are finalized are those that were finalized before, and all of them
    when the request asked for it: nothing becomes a draft, and nothing is finalized unasked.
   */
  lemma CommitDecidesFinality(s: State, es: seq<Event>, t: TxId, i: Id)
    requires Initial(s) && Legal(s, es)
    requires Enabled(Run(s, es), Commit(t)) && i in Run(s, es).open[t].ids
    ensures var before := Run(s, es);
            var after := Apply(before, Commit(t)).committed;
            && i in after
            && (IsFinal(after[i])
                <==> before.open[t].body.isFinal == Some(true) || (i in before.committed && IsFinal(before.committed[i])))
  {
    RunKeepsInv(s, es);
    var before := Run(s, es);
    var x := before.open[t];
    assert TxInv(before.committed, x);
    assert forall n :: 0 <= n < |x.phase.work| ==> x.phase.work[n] in x.phase.work;
  }
}
