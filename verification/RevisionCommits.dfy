/** What a request leaves in each row when it commits, in the fields of the row, however requests interleave. */
module RevisionCommits {
  import opened Basics
  import opened Releases
  import opened RevisionProtocol
  import opened SemverText

  /** The row of an affected release once the main UPDATE is through: updated, and with its revision unless selected. */
  ghost predicate RowFollows(c: Table, x: Tx, i: Id) {
    i in x.writes && i in c ==>
      && x.writes[i].app == Updated(c[i], x.body).app && x.writes[i].variant == Updated(c[i], x.body).variant
      && x.writes[i].parts == Updated(c[i], x.body).parts
      && (!Selects(c[i], x.body) ==> x.writes[i].revision == c[i].revision)
  }

  /** No finalized release was affected by a request for drafts, except those whose revisions it took away before. */
  ghost predicate StayedFinal(c: Table, x: Tx, i: Id) {
    i in c && x.body.isFinal == Some(false) ==> c[i].revision.None? || !SameKeyParts(c[i], Updated(c[i], x.body))
  }

  predicate IsChecked(x: Tx) {
    x.phase.Prerun? ==> x.phase.finalChecked
  }

  ghost predicate TxFollows(c: Table, x: Tx) {
    forall i :: i in x.ids ==>
      && (!x.phase.Prerun? ==> RowFollows(c, x, i))
      && (IsChecked(x) ==> StayedFinal(c, x, i))
  }

  ghost predicate AllFollow(s: State) {
    forall t :: t in s.open ==> TxFollows(s.committed, s.open[t])
  }

  // ---- every event keeps it ----

  lemma BeginFollows(s: State, e: Event)
    requires Inv(s) && AllFollow(s) && Enabled(s, e) && (e.Post? || e.Patch?)
    ensures AllFollow(Apply(s, e))
  {
    assert TxFollows(s.committed, Apply(s, e).open[e.tx]);
  }

  lemma CheckFollows(s: State, x: Tx, e: Event, i: Id)
    requires TxInv(s.committed, x) && e.CheckFinal? && EnabledIn(s, x, e) && i in x.ids
    ensures StayedFinal(s.committed, x, i)
  {
    var c := s.committed;
    ChangesKeyIff(c[i], x.body);
    if x.phase.selection == Nulled && i in IdsOf(x.selected) {
      var choice :| choice in x.selected && choice.id == i;
    }
  }

  lemma UpdateFollows(s: State, x: Tx, e: Event, i: Id)
    requires TxInv(s.committed, x) && e.Update? && EnabledIn(s, x, e) && i in x.ids
    ensures RowFollows(s.committed, Advance(s, x, e), i)
  {
    var c := s.committed;
    assert x.writes == ClearedRows(c, x.selected);
    if i in IdsOf(x.selected) {
      var choice :| choice in x.selected && choice.id == i;
      assert Selects(c[i], x.body);
    }
  }

  lemma AssignFollows(s: State, x: Tx, e: Event, i: Id)
    requires TxInv(s.committed, x) && e.Assign? && EnabledIn(s, x, e) && i in x.ids && RowFollows(s.committed, x, i)
    ensures RowFollows(s.committed, Advance(s, x, e), i)
  {
    var c, w := s.committed, x.phase.work[e.group];
    if i == e.id && i in c {
      assert PendingInv(c, x, w);
      assert i in Outstanding(w) && InWork(x.phase.work, i);
      assert Expected(c, x, i);
    }
  }

  lemma AdvanceFollows(s: State, x: Tx, e: Event)
    requires TxInv(s.committed, x) && TxFollows(s.committed, x)
    requires !e.Post? && !e.Patch? && !e.Commit? && !e.Abort? && EnabledIn(s, x, e)
    ensures TxFollows(s.committed, Advance(s, x, e))
  {
    var y := Advance(s, x, e);
    assert y.ids == x.ids && y.body == x.body;
    forall i | i in x.ids
      ensures !y.phase.Prerun? ==> RowFollows(s.committed, y, i)
      ensures IsChecked(y) ==> StayedFinal(s.committed, y, i)
    {
      if e.CheckFinal? {
        CheckFollows(s, x, e, i);
      } else if e.Update? {
        UpdateFollows(s, x, e, i);
      } else if e.Assign? {
        AssignFollows(s, x, e, i);
      }
    }
  }

  lemma CommitFollows(s: State, t: TxId)
    requires Inv(s) && AllFollow(s) && Enabled(s, Commit(t))
    ensures AllFollow(Apply(s, Commit(t)))
  {
    var x := s.open[t];
    assert TxInv(s.committed, x);
    forall u | u in s.open && u != t ensures TxFollows(s.committed + x.writes, s.open[u]) {
      assert TxFollows(s.committed, s.open[u]);
      assert s.open[u].ids !! x.ids;
    }
  }

  lemma StepFollows(s: State, e: Event)
    requires Inv(s) && AllFollow(s) && Enabled(s, e)
    ensures AllFollow(Apply(s, e))
  {
    match e
    case Post(_, _, _, _, _, _) => BeginFollows(s, e);
    case Patch(_, _, _) => BeginFollows(s, e);
    case Commit(t) => CommitFollows(s, t);
    case Abort(_) =>
    case _ => InsideFollows(s, e);
  }

  lemma InsideFollows(s: State, e: Event)
    requires Inv(s) && AllFollow(s) && Enabled(s, e) && !e.Post? && !e.Patch? && !e.Commit? && !e.Abort?
    ensures AllFollow(Apply(s, e))
  {
    AdvanceFollows(s, s.open[e.tx], e);
    OthersFollow(s, e.tx, Advance(s, s.open[e.tx], e));
  }

  lemma OthersFollow(s: State, t: TxId, y: Tx)
    requires AllFollow(s) && TxFollows(s.committed, y)
    ensures AllFollow(s.(open := s.open[t := y]))
  {
  }

  lemma {:induction false} RunFollows(s: State, es: seq<Event>)
    requires Inv(s) && AllFollow(s) && Legal(s, es)
    ensures AllFollow(Run(s, es))
    decreases |es|
  {
    if es != [] {
      StepKeepsInv(s, es[0]);
      StepFollows(s, es[0]);
      RunFollows(Apply(s, es[0]), es[1..]);
    }
  }

  /**
    A commit writes the fields of the body into every affected release and leaves the others. A finalized release keeps
    its revision if its key stays the same, and stays finalized; a request for drafts commits only if it affects no
    finalized release but those it moves to another key.
   */
  lemma CommitMeaning(s: State, es: seq<Event>, t: TxId, i: Id)
    requires Initial(s) && Legal(s, es) && Enabled(Run(s, es), Commit(t)) && i in Run(s, es).committed
    ensures var before := Run(s, es);
            var x, r := before.open[t], before.committed[i];
            var after := Apply(before, Commit(t)).committed;
            && i in after
            && (i !in x.ids ==> after[i] == r)
            && (i in x.ids ==>
                  var b, q := x.body, after[i];
                  && q.app == (if b.app.Some? then b.app.value else r.app)
                  && q.variant == (if b.variant.Some? then b.variant.value else r.variant)
                  && (b.semver.None? ==> q.parts == r.parts)
                  && (b.semver.Some? ==>
                        var v := b.semver.value;
                        q.parts == Parts(v.major, v.minor, v.patch, Join(v.prerelease, '.'), Join(v.build, '.')))
                  && (q.revision.Some? <==> b.isFinal == Some(true) || r.revision.Some?)
                  && (r.revision.Some? && SameKeyParts(r, q) ==> q.revision == r.revision)
                  && (b.isFinal == Some(false) && r.revision.Some? ==> !SameKeyParts(r, q)))
  {
    RunKeepsInv(s, es);
    RunFollows(s, es);
    var before := Run(s, es);
    var x, c := before.open[t], before.committed;
    assert TxInv(c, x) && TxFollows(c, x);
    if i in x.ids {
      CommitDecidesFinality(s, es, t, i);
      SelectsIff(c[i], x.body);
      assert RowFollows(c, x, i) && StayedFinal(c, x, i);
    }
  }

  /** The key under which a group reads is that of its first waiting row. */
  lemma ReadsItsKey(c: Table, x: Tx, w: Work)
    requires WaitingInv(x, w) && ValidBody(x.body) && w.waiting != [] && NumberingVersion(w.waiting[0], x.body).Some?
    ensures w.waiting[0].id in x.writes
    ensures NextFor(c, x, w) == NextRevision(View(c, x), KeyOf(x.writes[w.waiting[0].id]))
  {
    assert Awaits(x, w.waiting[0], w.app, w.variant);
    NumberingMatchesRow(w.waiting[0], x.body);
  }

  /** With a patched version the whole group gets `next`, `next + 1`, ...; otherwise its first release gets `next`. */
  ghost predicate HandsOut(w: Work, after: Work, b: Body, next: nat)
    requires w.waiting != []
  {
    if b.semver.Some? then
      && after.waiting == [] && after.pending.Keys == IdsOf(w.waiting)
      && (forall n :: 0 <= n < |w.waiting| ==>
            w.waiting[n].id in after.pending && after.pending[w.waiting[n].id] == next + n)
    else after.waiting == w.waiting[1..] && after.pending == map[w.waiting[0].id := next]
  }

  lemma BatchHandsOut(w: Work, after: Work, b: Body, next: nat)
    requires w.waiting != [] && IdsDistinct(w.waiting)
    requires after == w.(waiting := w.waiting[|Batch(w, b)|..], pending := Consecutive(Batch(w, b), next))
    ensures HandsOut(w, after, b, next)
  {
    if b.semver.Some? {
      ConsecutiveFacts(w.waiting, next);
    } else {
      assert w.waiting[..1][..0] == [] && Consecutive([], next) == map[];
    }
  }

  /** A read of the next revision hands out that of the key which the main UPDATE left in the first waiting row. */
  lemma ReadHandsOut(s: State, x: Tx, e: Event)
    requires TxInv(s.committed, x) && e.ReadNext? && EnabledIn(s, x, e)
    ensures var w, after := x.phase.work[e.group], Advance(s, x, e).phase.work[e.group];
            && w.waiting[0].id in x.writes
            && HandsOut(w, after, x.body, NextRevision(View(s.committed, x), KeyOf(x.writes[w.waiting[0].id])))
  {
    var w := x.phase.work[e.group];
    assert WaitingInv(x, w);
    ReadsItsKey(s.committed, x, w);
    BatchHandsOut(w, Advance(s, x, e).phase.work[e.group], x.body, NextFor(s.committed, x, w));
  }
}
