/** What follows from the protocol's invariant over whole runs: contiguous numbering, honest tags, no deadlock. */
module RevisionProperties {
  import opened Basics
  import opened Grouping
  import opened Releases
  import opened RevisionProtocol
  import opened SemverText

  // ---- contiguous numbering ----

  ghost predicate Used(t: Table, k: Key, r: nat) {
    exists i :: i in t && KeyOf(t[i]) == k && t[i].revision == Some(r)
  }

  /** A revision computed by a group of the request and not yet written. */
  ghost predicate Promised(x: Tx, k: Key, r: nat) {
    && x.phase.Numbering?
    && exists n, i :: 0 <= n < |x.phase.work| && PromisedTo(x, x.phase.work[n], i, k, r)
  }

  ghost predicate PromisedTo(x: Tx, w: Work, i: Id, k: Key, r: nat) {
    i in w.pending && i in x.writes && KeyOf(x.writes[i]) == k && w.pending[i] == r
  }

  ghost predicate Claimed(c: Table, x: Tx, k: Key, r: nat) {
    Used(View(c, x), k, r) || Promised(x, k, r)
  }

  ghost predicate Contiguous(t: Table) {
    forall k, r: nat :: r > 0 && Used(t, k, r) ==> Used(t, k, r - 1)
  }

  /** A request that takes no revision away and claims no revision above a gap. */
  ghost predicate ClaimsContiguously(c: Table, x: Tx) {
    && (forall k, r: nat :: r > 0 && Claimed(c, x, k, r) ==> Claimed(c, x, k, r - 1))
    && (forall i :: i in x.writes && i in c && IsFinal(c[i]) ==> Kept(c, i, x.writes[i]))
    && (forall ch :: ch in x.selected ==> ch.row.revision.None?)
  }

  ghost predicate ContiguousState(s: State) {
    && Contiguous(s.committed)
    && forall t :: t in s.open ==> ClaimsContiguously(s.committed, s.open[t])
  }

  /** POSTs and finalizations select drafts only; a PATCH that re-keys a finalized release does not. */
  ghost predicate ClearsNothing(e: Event) {
    e.ReadSelection? ==> forall ch :: ch in e.selected ==> ch.row.revision.None?
  }

  lemma BeginContiguously(s: State, e: Event)
    requires Inv(s) && ContiguousState(s) && Enabled(s, e) && (e.Post? || e.Patch?)
    ensures ContiguousState(Apply(s, e))
  {
    match e
    case Post(_, _, _, _, _, _) => PostContiguously(s, e);
    case Patch(_, _, _) => PatchContiguously(s, e);
  }

  /** A request that has written only new drafts claims nothing. */
  lemma NewRequestContiguously(c: Table, x: Tx)
    requires Contiguous(c) && !x.phase.Numbering?
    requires forall i :: i in x.writes ==> i !in c && x.writes[i].revision.None?
    requires forall ch :: ch in x.selected ==> ch.row.revision.None?
    ensures ClaimsContiguously(c, x)
  {
    forall k, r: nat ensures Claimed(c, x, k, r) <==> Used(c, k, r) {
      if Used(c, k, r) {
        var i :| i in c && KeyOf(c[i]) == k && c[i].revision == Some(r);
        assert View(c, x)[i] == c[i];
      }
    }
  }

  lemma PostContiguously(s: State, e: Event)
    requires ContiguousState(s) && Enabled(s, e) && e.Post?
    ensures ContiguousState(Apply(s, e))
  {
    NewRequestContiguously(s.committed, NewPost(e));
  }

  lemma PatchContiguously(s: State, e: Event)
    requires ContiguousState(s) && Enabled(s, e) && e.Patch?
    ensures ContiguousState(Apply(s, e))
  {
    NewRequestContiguously(s.committed, Tx(e.ids, e.body, [], map[], {}, Prerun(Unread, false)));
  }

  lemma PrerunContiguously(s: State, e: Event)
    requires Inv(s) && ContiguousState(s) && Enabled(s, e) && ClearsNothing(e)
    requires e.ReadSelection? || e.ClearRevisions? || e.CheckFinal?
    ensures ClaimsContiguously(s.committed, Advance(s, s.open[e.tx], e))
  {
    var c, x := s.committed, s.open[e.tx];
    var y := Advance(s, x, e);
    assert TxInv(c, x);
    if e.ClearRevisions? {
      assert View(c, x) == c;
      assert y.writes == map[] by {
        forall i | i in IdsOf(x.selected) && i in c ensures !IsFinal(c[i]) {
          var ch :| ch in x.selected && ch.id == i;
        }
      }
    }
    assert View(c, y) == View(c, x);
    assert forall k, r: nat :: Claimed(c, y, k, r) <==> Claimed(c, x, k, r);
  }

  lemma UpdateContiguously(s: State, e: Event)
    requires Inv(s) && ContiguousState(s) && Enabled(s, e) && e.Update?
    ensures ClaimsContiguously(s.committed, Advance(s, s.open[e.tx], e))
  {
    var c, x := s.committed, s.open[e.tx];
    var y := Advance(s, x, e);
    assert TxInv(c, x);
    forall i | i in x.ids
      ensures i in y.writes && i in c && y.writes[i].revision == c[i].revision
      ensures IsFinal(c[i]) ==> Kept(c, i, y.writes[i])
    {
      UpdatedRow(c, x, i);
      if i in IdsOf(x.selected) {
        var ch :| ch in x.selected && ch.id == i;
      } else if IsFinal(c[i]) {
        UnselectedKeepsKey(c[i], x.body);
      }
    }
    assert y.writes.Keys == x.ids;
    KeptRowsContiguously(c, y);
  }

  /** Rows written without touching keys and revisions claim what was used before. */
  lemma KeptRowsContiguously(c: Table, y: Tx)
    requires Contiguous(c) && !y.phase.Numbering?
    requires forall i :: i in y.writes ==> i in c && y.writes[i].revision == c[i].revision
    requires forall i :: i in y.writes && IsFinal(c[i]) ==> Kept(c, i, y.writes[i])
    requires forall ch :: ch in y.selected ==> ch.row.revision.None?
    ensures ClaimsContiguously(c, y)
  {
    forall k, r: nat ensures Claimed(c, y, k, r) <==> Used(c, k, r) {
      if Used(c, k, r) {
        var i :| i in c && KeyOf(c[i]) == k && c[i].revision == Some(r);
        assert KeyOf(View(c, y)[i]) == k && View(c, y)[i].revision == Some(r);
      }
      if Used(View(c, y), k, r) {
        var i :| i in View(c, y) && KeyOf(View(c, y)[i]) == k && View(c, y)[i].revision == Some(r);
        assert KeyOf(c[i]) == k && c[i].revision == Some(r);
      }
    }
  }

  lemma LocksContiguously(s: State, e: Event)
    requires Inv(s) && ContiguousState(s) && Enabled(s, e) && (e.Lock? || e.StartNumbering?)
    ensures ClaimsContiguously(s.committed, Advance(s, s.open[e.tx], e))
  {
    var c, x := s.committed, s.open[e.tx];
    var y := Advance(s, x, e);
    assert View(c, y) == View(c, x);
    assert forall k, r: nat :: !Promised(y, k, r);
    assert forall k, r: nat :: Claimed(c, y, k, r) <==> Claimed(c, x, k, r);
  }

  /** A batch claims the revisions that follow the greatest one in use. */
  lemma ReadNextContiguously(s: State, e: Event)
    requires Inv(s) && ContiguousState(s) && Enabled(s, e) && e.ReadNext?
    ensures ClaimsContiguously(s.committed, Advance(s, s.open[e.tx], e))
  {
    var c, x, g := s.committed, s.open[e.tx], e.group;
    var y := Advance(s, x, e);
    assert TxInv(c, x) && WaitingInv(x, x.phase.work[g]);
    BatchClaims(c, x, x.phase.work[g], y.phase.work[g]);
    NewClaimsFollowOld(c, x, y, g);
  }

  lemma BatchClaims(c: Table, x: Tx, w: Work, w': Work)
    requires ValidBody(x.body) && WaitingInv(x, w) && w.waiting != [] && NumberingVersion(w.waiting[0], x.body).Some?
    requires w'.pending == Consecutive(Batch(w, x.body), NextFor(c, x, w))
    ensures forall i, k, r: nat :: r > 0 && PromisedTo(x, w', i, k, r)
              ==> Used(View(c, x), k, r - 1) || PromisedBy(x, w', k, r - 1)
  {
    forall i, k, r: nat | r > 0 && PromisedTo(x, w', i, k, r)
      ensures Used(View(c, x), k, r - 1) || PromisedBy(x, w', k, r - 1)
    {
      BatchClaim(c, x, w, w', i, k, r);
    }
  }

  /** Adding promises that continue what is used keeps the claims contiguous. */
  lemma NewClaimsFollowOld(c: Table, x: Tx, y: Tx, g: nat)
    requires ClaimsContiguously(c, x) && x.phase.Numbering? && y.phase.Numbering?
    requires |x.phase.work| == |y.phase.work| && g < |x.phase.work| && x.phase.work[g].pending == map[]
    requires y.writes == x.writes && y.selected == x.selected
    requires forall n :: 0 <= n < |x.phase.work| && n != g ==> y.phase.work[n] == x.phase.work[n]
    requires forall i, k, r: nat :: r > 0 && PromisedTo(x, y.phase.work[g], i, k, r)
               ==> Used(View(c, x), k, r - 1) || PromisedBy(x, y.phase.work[g], k, r - 1)
    ensures ClaimsContiguously(c, y)
  {
    assert View(c, y) == View(c, x);
    forall k, r: nat | r > 0 && Claimed(c, y, k, r) ensures Claimed(c, y, k, r - 1) {
      OldClaims(c, x, y, g, k, r - 1);
      if Claimed(c, x, k, r) {
      } else {
        var n, i :| 0 <= n < |y.phase.work| && PromisedTo(y, y.phase.work[n], i, k, r);
        if n != g {
          assert PromisedTo(x, x.phase.work[n], i, k, r);
        }
        assert PromisedTo(x, y.phase.work[g], i, k, r);
        if PromisedBy(x, y.phase.work[g], k, r - 1) {
          var j :| PromisedTo(x, y.phase.work[g], j, k, r - 1);
          assert PromisedTo(y, y.phase.work[g], j, k, r - 1);
        }
      }
    }
  }

  ghost predicate PromisedBy(x: Tx, w: Work, k: Key, r: nat) {
    exists i :: PromisedTo(x, w, i, k, r)
  }

  lemma OldClaims(c: Table, x: Tx, y: Tx, g: nat, k: Key, r: nat)
    requires x.phase.Numbering? && y.phase.Numbering? && |x.phase.work| == |y.phase.work| && g < |x.phase.work|
    requires y.writes == x.writes && x.phase.work[g].pending == map[]
    requires forall n :: 0 <= n < |x.phase.work| && n != g ==> y.phase.work[n] == x.phase.work[n]
    ensures Claimed(c, x, k, r) ==> Claimed(c, y, k, r)
  {
    assert View(c, y) == View(c, x);
    if Promised(x, k, r) {
      var n, i :| 0 <= n < |x.phase.work| && PromisedTo(x, x.phase.work[n], i, k, r);
      assert PromisedTo(y, y.phase.work[n], i, k, r);
    }
  }

  lemma BatchClaim(c: Table, x: Tx, w: Work, w': Work, i: Id, k: Key, r: nat)
    requires ValidBody(x.body) && WaitingInv(x, w) && w.waiting != [] && NumberingVersion(w.waiting[0], x.body).Some?
    requires w'.pending == Consecutive(Batch(w, x.body), NextFor(c, x, w))
    requires r > 0 && PromisedTo(x, w', i, k, r)
    ensures Used(View(c, x), k, r - 1) || PromisedBy(x, w', k, r - 1)
  {
    var m := ClaimPosition(c, x, w, w', i, k, r);
    if m == 0 {
      BelowNextIsUsed(View(c, x), k, r);
    } else {
      EarlierClaim(c, x, w, w', m, k, r);
    }
  }

  /** A claim of a batch is the next revision of its key plus a position. */
  lemma ClaimPosition(c: Table, x: Tx, w: Work, w': Work, i: Id, k: Key, r: nat) returns (m: nat)
    requires ValidBody(x.body) && WaitingInv(x, w) && w.waiting != [] && NumberingVersion(w.waiting[0], x.body).Some?
    requires w'.pending == Consecutive(Batch(w, x.body), NextFor(c, x, w)) && PromisedTo(x, w', i, k, r)
    ensures k == KeyFor(w.app, NumberingVersion(w.waiting[0], x.body).value, w.variant)
    ensures m < |Batch(w, x.body)| && r == NextRevision(View(c, x), k) + m
  {
    m := ConsecutiveAt(Batch(w, x.body), NextFor(c, x, w), i);
    BatchEntry(c, x, w, NextFor(c, x, w), i);
  }

  /** The claim before that of the m-th release of a batch is that of its predecessor. */
  lemma EarlierClaim(c: Table, x: Tx, w: Work, w': Work, m: nat, k: Key, r: nat)
    requires ValidBody(x.body) && WaitingInv(x, w) && w.waiting != [] && NumberingVersion(w.waiting[0], x.body).Some?
    requires w'.pending == Consecutive(Batch(w, x.body), NextFor(c, x, w))
    requires 0 < m < |Batch(w, x.body)| && r == NextRevision(View(c, x), k) + m
    requires k == KeyFor(w.app, NumberingVersion(w.waiting[0], x.body).value, w.variant)
    ensures PromisedBy(x, w', k, r - 1)
  {
    var j := Batch(w, x.body)[m - 1].id;
    ConsecutiveFacts(Batch(w, x.body), NextFor(c, x, w));
    BatchEntry(c, x, w, NextFor(c, x, w), j);
    assert PromisedTo(x, w', j, k, r - 1);
  }

  lemma BelowNextIsUsed(t: Table, k: Key, next: nat)
    requires next > 0 && next == NextRevision(t, k)
    ensures Used(t, k, next - 1)
  {
    assert next - 1 in RevisionsOf(t, k);
  }

  lemma AssignContiguously(s: State, e: Event)
    requires Inv(s) && ContiguousState(s) && Enabled(s, e) && e.Assign?
    ensures ClaimsContiguously(s.committed, Advance(s, s.open[e.tx], e))
  {
    var c, x := s.committed, s.open[e.tx];
    var y := Advance(s, x, e);
    assert TxInv(c, x);
    var w := x.phase.work[e.group];
    assert PendingInv(c, x, w);
    forall k, r: nat ensures Claimed(c, y, k, r) <==> Claimed(c, x, k, r) {
      AssignMovesClaim(c, x, y, e.group, e.id, e.now, k, r);
    }
  }

  /** Writing a promised revision turns the promise into use. */
  lemma AssignMovesClaim(c: Table, x: Tx, y: Tx, g: nat, id: Id, now: int, k: Key, r: nat)
    requires TxInv(c, x) && Assigned(x, y, g, id, now)
    ensures Claimed(c, y, k, r) <==> Claimed(c, x, k, r)
  {
    PromiseIsUnique(c, x, g, id);
    assert View(c, y) == View(c, x)[id := y.writes[id]];
    assert y.writes[id].revision == Some(x.phase.work[g].pending[id]) && KeyOf(y.writes[id]) == KeyOf(x.writes[id]);
    if Claimed(c, x, k, r) {
      ClaimKept(c, x, y, g, id, now, k, r);
    }
    if Claimed(c, y, k, r) {
      ClaimNotNew(c, x, y, g, id, now, k, r);
    }
  }

  /** A release has a pending revision in one group only, and is not finalized yet. */
  lemma PromiseIsUnique(c: Table, x: Tx, g: nat, id: Id)
    requires TxInv(c, x) && x.phase.Numbering? && g < |x.phase.work| && id in x.phase.work[g].pending
    ensures id in x.writes && x.writes[id].revision.None?
    ensures forall n :: 0 <= n < |x.phase.work| && n != g ==> id !in x.phase.work[n].pending
  {
    assert PendingInv(c, x, x.phase.work[g]);
    forall n | 0 <= n < |x.phase.work| && n != g ensures id !in x.phase.work[n].pending {
      assert PendingInv(c, x, x.phase.work[n]);
    }
  }

  lemma ClaimKept(c: Table, x: Tx, y: Tx, g: nat, id: Id, now: int, k: Key, r: nat)
    requires Assigned(x, y, g, id, now) && x.writes[id].revision.None?
    requires forall n :: 0 <= n < |x.phase.work| && n != g ==> id !in x.phase.work[n].pending
    requires Claimed(c, x, k, r)
    ensures Claimed(c, y, k, r)
  {
    if Used(View(c, x), k, r) {
      var j :| j in View(c, x) && KeyOf(View(c, x)[j]) == k && View(c, x)[j].revision == Some(r);
      assert View(c, y)[j] == View(c, x)[j];
    } else {
      var n, i :| 0 <= n < |x.phase.work| && PromisedTo(x, x.phase.work[n], i, k, r);
      if i == id {
        assert View(c, y)[id].revision == Some(r) && KeyOf(View(c, y)[id]) == k;
      } else {
        assert PromisedTo(y, y.phase.work[n], i, k, r);
      }
    }
  }

  lemma ClaimNotNew(c: Table, x: Tx, y: Tx, g: nat, id: Id, now: int, k: Key, r: nat)
    requires Assigned(x, y, g, id, now)
    requires forall n :: 0 <= n < |x.phase.work| && n != g ==> id !in x.phase.work[n].pending
    requires Claimed(c, y, k, r)
    ensures Claimed(c, x, k, r)
  {
    if Used(View(c, y), k, r) {
      var j :| j in View(c, y) && KeyOf(View(c, y)[j]) == k && View(c, y)[j].revision == Some(r);
      if j == id {
        assert PromisedTo(x, x.phase.work[g], id, k, r);
      } else {
        assert View(c, x)[j] == View(c, y)[j];
      }
    } else {
      var n, i :| 0 <= n < |y.phase.work| && PromisedTo(y, y.phase.work[n], i, k, r);
      assert i != id;
      assert PromisedTo(x, x.phase.work[n], i, k, r);
    }
  }

  lemma AdvanceContiguously(s: State, e: Event)
    requires Inv(s) && ContiguousState(s) && Enabled(s, e) && ClearsNothing(e)
    requires !e.Post? && !e.Patch? && !e.Commit? && !e.Abort?
    ensures ClaimsContiguously(s.committed, Advance(s, s.open[e.tx], e))
  {
    match e
    case ReadSelection(_, _) => PrerunContiguously(s, e);
    case ClearRevisions(_) => PrerunContiguously(s, e);
    case CheckFinal(_) => PrerunContiguously(s, e);
    case Update(_) => UpdateContiguously(s, e);
    case Lock(_) => LocksContiguously(s, e);
    case StartNumbering(_) => LocksContiguously(s, e);
    case ReadNext(_, _) => ReadNextContiguously(s, e);
    case Assign(_, _, _, _) => AssignContiguously(s, e);
  }

  lemma CommitIsContiguous(c: Table, x: Tx)
    requires ClaimsContiguously(c, x) && x.phase.Numbering?
    requires forall w :: w in x.phase.work ==> w.pending == map[]
    ensures Contiguous(c + x.writes)
  {
    assert forall n :: 0 <= n < |x.phase.work| ==> x.phase.work[n] in x.phase.work;
    assert forall k, r: nat :: !Promised(x, k, r);
    forall k, r: nat | r > 0 && Used(c + x.writes, k, r) ensures Used(c + x.writes, k, r - 1) {
      assert View(c, x) == c + x.writes;
      assert Claimed(c, x, k, r);
      assert Claimed(c, x, k, r - 1);
    }
  }

  /** Another request's commit leaves this request's claims contiguous. */
  lemma CommitContiguously(c: Table, x: Tx, u: Tx)
    requires TxInv(c, x) && TxInv(c, u) && x.ids !! u.ids
    requires ClaimsContiguously(c, x) && ClaimsContiguously(c, u) && Contiguous(c + x.writes)
    ensures ClaimsContiguously(c + x.writes, u)
  {
    var c' := c + x.writes;
    SameOwnRows(c, x, u);
    forall k, r: nat ensures Claimed(c, u, k, r) ==> Claimed(c', u, k, r) {
      ClaimSurvivesCommit(c, x, u, k, r);
    }
    forall k, r: nat | Used(c', k, r) ensures Claimed(c', u, k, r) {
      var i :| i in c' && KeyOf(c'[i]) == k && c'[i].revision == Some(r);
      assert KeyOf(View(c', u)[i]) == k && View(c', u)[i].revision == Some(r);
    }
    forall k, r: nat | r > 0 && Claimed(c', u, k, r) ensures Claimed(c', u, k, r - 1) {
      if !Claimed(c, u, k, r) {
        NewUse(c, x, u, k, r);
        assert Used(c', k, r - 1);
      }
    }
  }

  /** What a commit lets another request see was used before or comes from the committed table. */
  lemma NewUse(c: Table, x: Tx, u: Tx, k: Key, r: nat)
    requires Used(View(c + x.writes, u), k, r)
    ensures Used(View(c, u), k, r) || Used(c + x.writes, k, r)
  {
    var v := View(c + x.writes, u);
    var i :| i in v && KeyOf(v[i]) == k && v[i].revision == Some(r);
    if i in u.writes {
      assert View(c, u)[i] == v[i];
    } else {
      assert (c + x.writes)[i] == v[i];
    }
  }

  lemma ClaimSurvivesCommit(c: Table, x: Tx, u: Tx, k: Key, r: nat)
    requires x.writes.Keys <= x.ids && u.writes.Keys <= u.ids && x.ids !! u.ids
    requires forall i :: i in x.writes && i in c && IsFinal(c[i]) ==> Kept(c, i, x.writes[i])
    ensures Claimed(c, u, k, r) ==> Claimed(c + x.writes, u, k, r)
  {
    var c' := c + x.writes;
    if Used(View(c, u), k, r) {
      var i :| i in View(c, u) && KeyOf(View(c, u)[i]) == k && View(c, u)[i].revision == Some(r);
      assert KeyOf(View(c', u)[i]) == k && View(c', u)[i].revision == Some(r);
    }
  }

  lemma StepKeepsContiguous(s: State, e: Event)
    requires Inv(s) && ContiguousState(s) && Enabled(s, e) && ClearsNothing(e)
    ensures ContiguousState(Apply(s, e))
  {
    match e
    case Post(_, _, _, _, _, _) => BeginContiguously(s, e);
    case Patch(_, _, _) => BeginContiguously(s, e);
    case Commit(t) => CommitKeepsContiguous(s, t);
    case Abort(_) =>
    case _ => AdvanceKeepsContiguous(s, e);
  }

  lemma AdvanceKeepsContiguous(s: State, e: Event)
    requires Inv(s) && ContiguousState(s) && Enabled(s, e) && ClearsNothing(e)
    requires !e.Post? && !e.Patch? && !e.Commit? && !e.Abort?
    ensures ContiguousState(Apply(s, e))
  {
    AdvanceContiguously(s, e);
    OthersContiguous(s, e.tx, Advance(s, s.open[e.tx], e));
  }

  lemma OthersContiguous(s: State, t: TxId, y: Tx)
    requires ContiguousState(s) && ClaimsContiguously(s.committed, y)
    ensures ContiguousState(s.(open := s.open[t := y]))
  {
  }

  lemma CommitKeepsContiguous(s: State, t: TxId)
    requires Inv(s) && ContiguousState(s) && Enabled(s, Commit(t))
    ensures ContiguousState(Apply(s, Commit(t)))
  {
    var x := s.open[t];
    assert TxInv(s.committed, x);
    CommitIsContiguous(s.committed, x);
    forall u | u in s.open && u != t ensures ClaimsContiguously(s.committed + x.writes, s.open[u]) {
      CommitContiguously(s.committed, x, s.open[u]);
    }
  }

  lemma {:induction false} RunKeepsContiguous(s: State, es: seq<Event>)
    requires Inv(s) && ContiguousState(s) && Legal(s, es)
    requires forall e :: e in es ==> ClearsNothing(e)
    ensures Contiguous(Run(s, es).committed)
    decreases |es|
  {
    if es != [] {
      StepKeepsInv(s, es[0]);
      StepKeepsContiguous(s, es[0]);
      RunKeepsContiguous(Apply(s, es[0]), es[1..]);
    }
  }

  function FinalIds(t: Table, k: Key): set<Id> {
    set i | i in t && KeyOf(t[i]) == k && IsFinal(t[i])
  }

  lemma {:induction false} AsManyRevisionsAsReleases(t: Table, k: Key, ids: set<Id>)
    requires Unique(t) && ids <= FinalIds(t, k)
    ensures |set i | i in ids :: t[i].revision.value| == |ids|
  {
    if ids != {} {
      var i := Pick(ids);
      AsManyRevisionsAsReleases(t, k, ids - {i});
      var rest := set j | j in ids - {i} :: t[j].revision.value;
      assert t[i].revision.value !in rest;
      assert (set j | j in ids :: t[j].revision.value) == rest + {t[i].revision.value};
    }
  }

  /**
    In runs of POSTs and finalizations, the n finalized releases of a key carry exactly the revisions 0 to n - 1.
   */
  lemma RevisionsAreInitialSegment(s: State, es: seq<Event>, k: Key)
    requires Initial(s) && Contiguous(s.committed) && Legal(s, es)
    requires forall e :: e in es ==> ClearsNothing(e)
    ensures var t := Run(s, es).committed;
            forall r: nat :: r in RevisionsOf(t, k) <==> r < |FinalIds(t, k)|
  {
    RunKeepsInv(s, es);
    RunKeepsContiguous(s, es);
    var t := Run(s, es).committed;
    var used := RevisionsOf(t, k);
    assert used == set i | i in FinalIds(t, k) :: t[i].revision.value;
    AsManyRevisionsAsReleases(t, k, FinalIds(t, k));
    forall r: nat | r + 1 in used ensures r in used {
      assert Used(t, k, r + 1);
      assert Used(t, k, r);
    }
    DownClosedIsInitialSegment(used);
  }

  // ---- honest tags ----

  ghost predicate TagsInv(s: State) {
    && (forall i :: i in s.committed ==> TagsAgree(s.committed[i]))
    && (forall t, i :: t in s.open && i in s.open[t].writes ==> TagsAgree(s.open[t].writes[i]))
  }

  /**
    The main UPDATE of a PATCH does not check the tags of a new build against a finalized release that keeps its
    revision. This is what such a release must satisfy before the call.
   */
  ghost predicate BuildFits(s: State, e: Event)
    requires Enabled(s, e)
  {
    e.Update? ==>
      var x := s.open[e.tx];
      x.body.semver.Some? ==>
        forall i :: i in View(s.committed, x) && i in x.ids && View(s.committed, x)[i].revision.Some?
          ==> BuildAgrees(x.body.semver.value.build, View(s.committed, x)[i].revision.value)
  }

  /** An UPDATE keeps every tag honest exactly when the new build fits the releases that stay finalized. */
  lemma UpdateKeepsTagsIff(s: State, e: Event)
    requires Inv(s) && TagsInv(s) && Enabled(s, e) && e.Update?
    ensures TagsInv(Apply(s, e)) <==> BuildFits(s, e)
  {
    var c, x := s.committed, s.open[e.tx];
    var after := Apply(s, e);
    var y := after.open[e.tx];
    assert TxInv(c, x);
    forall i | i in x.ids
      ensures i in View(c, x) && i in y.writes && y.writes[i] == Updated(View(c, x)[i], x.body)
      ensures TagsAgree(View(c, x)[i])
    {
      UpdatedRow(c, x, i);
    }
    assert y.writes.Keys == x.ids;
    assert forall t :: t in s.open && t != e.tx ==> after.open[t] == s.open[t];
  }

  ghost predicate RowsAgree(t: Table) {
    forall i :: i in t ==> TagsAgree(t[i])
  }

  lemma ReplacingKeepsTags(s: State, t: TxId, y: Tx)
    requires TagsInv(s) && RowsAgree(y.writes)
    ensures TagsInv(s.(open := s.open[t := y]))
  {
  }

  lemma AssignKeepsTags(s: State, e: Event)
    requires Inv(s) && TagsInv(s) && Enabled(s, e) && e.Assign?
    ensures RowsAgree(Advance(s, s.open[e.tx], e).writes)
  {
    var x := s.open[e.tx];
    assert TxInv(s.committed, x);
    assert PendingInv(s.committed, x, x.phase.work[e.group]);
    assert TagsAgree(Numbered(x.writes[e.id], x.body, x.phase.work[e.group].pending[e.id], e.now));
  }

  lemma StepKeepsTags(s: State, e: Event)
    requires Inv(s) && TagsInv(s) && Enabled(s, e) && BuildFits(s, e)
    ensures TagsInv(Apply(s, e))
  {
    if e.Update? {
      UpdateKeepsTagsIff(s, e);
    } else if e.Commit? || e.Abort? {
    } else if e.Post? || e.Patch? {
      BeginKeepsTags(s, e);
    } else {
      AdvanceKeepsTags(s, e);
      ReplacingKeepsTags(s, e.tx, Advance(s, s.open[e.tx], e));
    }
  }

  lemma BeginKeepsTags(s: State, e: Event)
    requires TagsInv(s) && Enabled(s, e) && (e.Post? || e.Patch?)
    ensures TagsInv(Apply(s, e))
  {
    var y := Apply(s, e).open[e.tx];
    assert RowsAgree(y.writes);
    ReplacingKeepsTags(s, e.tx, y);
  }

  lemma AdvanceKeepsTags(s: State, e: Event)
    requires Inv(s) && TagsInv(s) && Enabled(s, e)
    requires !e.Post? && !e.Patch? && !e.Commit? && !e.Abort? && !e.Update?
    ensures RowsAgree(Advance(s, s.open[e.tx], e).writes)
  {
    if e.Assign? {
      AssignKeepsTags(s, e);
    }
  }

  ghost predicate BuildsFit(s: State, es: seq<Event>)
    requires Legal(s, es)
    decreases |es|
  {
    es == [] || (BuildFits(s, es[0]) && BuildsFit(Apply(s, es[0]), es[1..]))
  }

  lemma {:induction false} RunKeepsTags(s: State, es: seq<Event>)
    requires Inv(s) && TagsInv(s) && Legal(s, es) && BuildsFit(s, es)
    ensures TagsInv(Run(s, es))
    decreases |es|
  {
    if es != [] {
      StepKeepsInv(s, es[0]);
      StepKeepsTags(s, es[0]);
      RunKeepsTags(Apply(s, es[0]), es[1..]);
    }
  }

  // ---- no deadlock ----

  predicate Ascending(apps: seq<AppId>) {
    forall i, j :: 0 <= i < j < |apps| ==> apps[i] < apps[j]
  }

  /** Locks are taken in ascending order of application. */
  ghost predicate LocksInOrder(x: Tx) {
    match x.phase
    case Prerun(selection, _) => x.locks == {} && (selection != Unread ==> SortedByApp(x.selected))
    case Locking(remaining) =>
      && Ascending(remaining)
      && (remaining != [] ==> forall a :: a in x.locks ==> a < remaining[0])
    case Numbering(_) => true
  }

  predicate SortedByApp(selected: seq<Choice>) {
    forall i, j :: 0 <= i < j < |selected| ==> selected[i].row.app <= selected[j].row.app
  }

  predicate AscendingKeys(gs: seq<(AppId, seq<Choice>)>) {
    forall i, j :: 0 <= i < j < |gs| ==> gs[i].0 < gs[j].0
  }

  predicate KeysAtMost(gs: seq<(AppId, seq<Choice>)>, app: AppId) {
    forall j :: 0 <= j < |gs| ==> gs[j].0 <= app
  }

  /** Grouping a list sorted by application keeps the order. */
  lemma {:induction false} GroupedAscending(selected: seq<Choice>, bound: AppId)
    requires SortedByApp(selected)
    requires forall i :: 0 <= i < |selected| ==> selected[i].row.app <= bound
    ensures AscendingKeys(Grouped(selected, AppOf)) && KeysAtMost(Grouped(selected, AppOf), bound)
  {
    if selected != [] {
      var front, last := selected[..|selected| - 1], selected[|selected| - 1];
      GroupedAscending(front, last.row.app);
      var before := Grouped(front, AppOf);
      assert Grouped(selected, AppOf) == Push(before, last.row.app, last);
      PushAscending(before, last.row.app, last);
    }
  }

  lemma PushAscending(gs: seq<(AppId, seq<Choice>)>, app: AppId, c: Choice)
    requires AscendingKeys(gs) && KeysAtMost(gs, app)
    ensures AscendingKeys(Push(gs, app, c)) && KeysAtMost(Push(gs, app, c), app)
  {
  }

  lemma AppsToLockAscend(selected: seq<Choice>, b: Body)
    requires SortedByApp(selected)
    ensures Ascending(AppsToLock(selected, b))
  {
    if selected != [] {
      GroupedAscending(selected, selected[|selected| - 1].row.app);
      if b.app.None? {
        assert AscendingKeys(ByApp(selected, b));
      }
    }
    var apps, locks := ByApp(selected, b), AppsToLock(selected, b);
    forall i, j | 0 <= i < j < |locks| ensures locks[i] < locks[j] {
      assert locks[i] == apps[i].0 && locks[j] == apps[j].0;
    }
  }

  ghost predicate LockOrderInv(s: State) {
    forall t :: t in s.open ==> LocksInOrder(s.open[t])
  }

  lemma StepKeepsLockOrder(s: State, e: Event)
    requires Inv(s) && LockOrderInv(s) && Enabled(s, e)
    ensures LockOrderInv(Apply(s, e))
  {
    if e.Update? {
      AppsToLockAscend(s.open[e.tx].selected, s.open[e.tx].body);
    }
    if !e.Commit? && !e.Abort? {
      OthersInOrder(s, e.tx, Apply(s, e).open[e.tx]);
    }
  }

  lemma OthersInOrder(s: State, t: TxId, y: Tx)
    requires LockOrderInv(s) && LocksInOrder(y)
    ensures LockOrderInv(s.(open := s.open[t := y]))
  {
  }

  lemma {:induction false} RunKeepsLockOrder(s: State, es: seq<Event>)
    requires Inv(s) && LockOrderInv(s) && Legal(s, es)
    ensures LockOrderInv(Run(s, es))
    decreases |es|
  {
    if es != [] {
      StepKeepsInv(s, es[0]);
      StepKeepsLockOrder(s, es[0]);
      RunKeepsLockOrder(Apply(s, es[0]), es[1..]);
    }
  }

  /** The request waits for a lock that another request holds. */
  ghost predicate Blocked(s: State, t: TxId)
    requires t in s.open
  {
    && s.open[t].phase.Locking? && s.open[t].phase.remaining != []
    && exists u :: u in s.open && u != t && s.open[t].phase.remaining[0] in s.open[u].locks
  }

  function Wanted(x: Tx): AppId {
    if x.phase.Locking? && x.phase.remaining != [] then x.phase.remaining[0] else 0
  }

  /** A holder that waits itself waits for a greater application. */
  lemma WaitingGoesUp(s: State, t: TxId) returns (u: TxId)
    requires LockOrderInv(s) && (forall t :: t in s.open ==> Blocked(s, t)) && t in s.open
    ensures u in s.open && Wanted(s.open[u]) > Wanted(s.open[t])
  {
    assert Blocked(s, t);
    u :| u in s.open && u != t && s.open[t].phase.remaining[0] in s.open[u].locks;
    assert Blocked(s, u) && LocksInOrder(s.open[u]);
  }

  lemma GreatestWanted(s: State) returns (t: TxId)
    requires s.open != map[]
    ensures t in s.open && forall u :: u in s.open ==> Wanted(s.open[u]) <= Wanted(s.open[t])
  {
    var wanted := set t | t in s.open :: Wanted(s.open[t]);
    var t0 := Pick(s.open.Keys);
    assert Wanted(s.open[t0]) in wanted;
    MaxExists(wanted);
    var top :| top in wanted && forall a :: a in wanted ==> a <= top;
    t :| t in s.open && Wanted(s.open[t]) == top;
    forall u | u in s.open ensures Wanted(s.open[u]) <= top {
      assert Wanted(s.open[u]) in wanted;
    }
  }

  /** The advisory locks never deadlock: while requests are open, some request is not waiting for one. */
  lemma SomeRequestIsNotBlocked(s: State, es: seq<Event>)
    requires Initial(s) && Legal(s, es) && Run(s, es).open != map[]
    ensures exists t :: t in Run(s, es).open && !Blocked(Run(s, es), t)
  {
    RunKeepsInv(s, es);
    RunKeepsLockOrder(s, es);
    var now := Run(s, es);
    var t := GreatestWanted(now);
    if forall u :: u in now.open ==> Blocked(now, u) {
      var u := WaitingGoesUp(now, t);
      assert false;
    }
  }
}
