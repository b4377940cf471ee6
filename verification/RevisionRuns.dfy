/** Whole requests that run on their own, as runs of the protocol. */
module RevisionRuns {
  import opened Basics
  import opened Grouping
  import opened Releases
  import opened RevisionProtocol
  import opened SemverText

  /** The events are legal in turn and end in `end`. */
  ghost predicate RunsTo(s: State, es: seq<Event>, end: State) {
    Legal(s, es) && Run(s, es) == end
  }

  lemma RunsBy(s: State, e: Event, end: State)
    requires Enabled(s, e) && Apply(s, e) == end
    ensures RunsTo(s, [e], end)
  {
    assert [e][1..] == [];
    assert Legal(end, []) && Run(end, []) == end;
  }

  lemma {:induction false} RunsThen(s: State, first: seq<Event>, middle: State, second: seq<Event>, end: State)
    requires RunsTo(s, first, middle) && RunsTo(middle, second, end)
    ensures RunsTo(s, first + second, end)
    decreases |first|
  {
    if first == [] {
      assert first + second == second;
    } else {
      assert (first + second)[0] == first[0] && (first + second)[1..] == first[1..] + second;
      RunsThen(Apply(s, first[0]), first[1..], middle, second, end);
    }
  }

  /** One open request. */
  function With(c: Table, t: TxId, x: Tx): State {
    State(c, map[t := x])
  }

  lemma Advances(c: Table, t: TxId, x: Tx, e: Event, y: Tx)
    requires !e.Post? && !e.Patch? && !e.Commit? && !e.Abort? && e.tx == t
    requires EnabledIn(With(c, t, x), x, e) && Advance(With(c, t, x), x, e) == y
    ensures RunsTo(With(c, t, x), [e], With(c, t, y))
  {
    assert With(c, t, x).open[t := y] == map[t := y];
    RunsBy(With(c, t, x), e, With(c, t, y));
  }

  lemma Commits(c: Table, t: TxId, x: Tx)
    requires x.phase.Numbering? && forall w :: w in x.phase.work ==> w.waiting == [] && w.pending == map[]
    ensures RunsTo(With(c, t, x), [Commit(t)], State(c + x.writes, map[]))
  {
    assert With(c, t, x).open - {t} == map[];
    RunsBy(With(c, t, x), Commit(t), State(c + x.writes, map[]));
  }

  // ---- a PATCH that selects nothing ----

  /** A PATCH of which the hooks select no release, such as one that changes only build metadata. */
  function UnselectedPatch(t: TxId, ids: set<Id>, b: Body): seq<Event> {
    [Patch(t, ids, b)] + [ReadSelection(t, [])] + [ClearRevisions(t)] + [CheckFinal(t)] + [Update(t)] + [StartNumbering(t)]
      + [Commit(t)]
  }

  predicate SelectsNone(t: Table, ids: set<Id>, b: Body) {
    forall i :: i in ids && i in t ==> !Selects(t[i], b)
  }

  /** It goes through unchecked, and leaves what its main UPDATE wrote. */
  lemma UnselectedPatchRuns(c: Table, t: TxId, ids: set<Id>, b: Body)
    requires ids <= c.Keys && ValidBody(b) && SelectsNone(c, ids, b) && b.isFinal != Some(false)
    ensures RunsTo(State(c, map[]), UnselectedPatch(t, ids, b), State(c + UpdatedRows(c, ids, b), map[]))
  {
    var x0 := Tx(ids, b, [], map[], {}, Prerun(Unread, false));
    var x1 := x0.(phase := Prerun(Chosen, false));
    var x2 := x0.(phase := Prerun(Nulled, false));
    var x3 := x0.(phase := Prerun(Nulled, true));
    var x4 := x0.(writes := UpdatedRows(c, ids, b), phase := Locking([]));
    var x5 := x4.(phase := Numbering([]));
    NoSelection(c, ids, b);
    assert c + map[] == c;
    assert map[][t := x0] == map[t := x0];
    RunsBy(State(c, map[]), Patch(t, ids, b), With(c, t, x0));
    Advances(c, t, x0, ReadSelection(t, []), x1);
    Advances(c, t, x1, ClearRevisions(t), x2);
    Advances(c, t, x2, CheckFinal(t), x3);
    Advances(c, t, x3, Update(t), x4);
    Advances(c, t, x4, StartNumbering(t), x5);
    Commits(c, t, x5);
    var s := State(c, map[]);
    var es := [Patch(t, ids, b)];
    RunsThen(s, es, With(c, t, x0), [ReadSelection(t, [])], With(c, t, x1));
    es := es + [ReadSelection(t, [])];
    RunsThen(s, es, With(c, t, x1), [ClearRevisions(t)], With(c, t, x2));
    es := es + [ClearRevisions(t)];
    RunsThen(s, es, With(c, t, x2), [CheckFinal(t)], With(c, t, x3));
    es := es + [CheckFinal(t)];
    RunsThen(s, es, With(c, t, x3), [Update(t)], With(c, t, x4));
    es := es + [Update(t)];
    RunsThen(s, es, With(c, t, x4), [StartNumbering(t)], With(c, t, x5));
    es := es + [StartNumbering(t)];
    RunsThen(s, es, With(c, t, x5), [Commit(t)], State(c + x5.writes, map[]));
  }

  lemma NoSelection(c: Table, ids: set<Id>, b: Body)
    requires SelectsNone(c, ids, b)
    ensures IsSelection([], c, ids, b) && ClearedRows(c, []) == map[]
    ensures AppsToLock([], b) == [] && WorkOf(Groups([], b)) == []
  {
    assert forall i :: i !in IdsOf([]);
    assert ClearedRows(c, []).Keys == {};
  }

  // ---- a POST of a final release ----

  function FinalPost(t: TxId, id: Id, app: AppId, v: SemVer, variant: string, now: int): seq<Event> {
    ([Post(t, id, app, v, variant, true)] + [Lock(t)] + [StartNumbering(t)])
      + ([ReadNext(t, 0)] + [Assign(t, 0, id, now)] + [Commit(t)])
  }

  function FinalRow(c: Table, app: AppId, v: SemVer, variant: string, now: int): Release {
    Release(app, Stored(v), variant, Some(NextRevision(c, KeyFor(app, v, variant))), Some(now))
  }

  /** The request once it holds its lock and has its one group. */
  function ReadyPost(id: Id, app: AppId, v: SemVer, variant: string): Tx {
    var row := InitialRow(app, v, variant);
    Tx({id}, Body(Some(true), Some(v), Some(app), Some(variant)), [Choice(id, row)], map[id := row], {app},
       Numbering([Work(app, variant, [Choice(id, row)], map[])]))
  }

  /** It goes through if no `revN` part of its build contradicts the next revision. */
  lemma FinalPostRuns(c: Table, t: TxId, id: Id, app: AppId, v: SemVer, variant: string, now: int)
    requires id !in c && Storable(v) && BuildAgrees(v.build, NextRevision(c, KeyFor(app, v, variant)))
    ensures RunsTo(State(c, map[]), FinalPost(t, id, app, v, variant, now),
                   State(c[id := FinalRow(c, app, v, variant, now)], map[]))
  {
    var x := ReadyPost(id, app, v, variant);
    PostGetsReady(c, t, id, app, v, variant);
    ReadyPostCommits(c, t, id, app, v, variant, now);
    RunsThen(State(c, map[]), [Post(t, id, app, v, variant, true)] + [Lock(t)] + [StartNumbering(t)], With(c, t, x),
             [ReadNext(t, 0)] + [Assign(t, 0, id, now)] + [Commit(t)], State(c[id := FinalRow(c, app, v, variant, now)], map[]));
  }

  lemma PostGetsReady(c: Table, t: TxId, id: Id, app: AppId, v: SemVer, variant: string)
    requires id !in c && Storable(v)
    ensures RunsTo(State(c, map[]), [Post(t, id, app, v, variant, true)] + [Lock(t)] + [StartNumbering(t)],
                   With(c, t, ReadyPost(id, app, v, variant)))
  {
    var s, post, x2 := State(c, map[]), Post(t, id, app, v, variant, true), ReadyPost(id, app, v, variant);
    var x0 := NewPost(post);
    var x1 := x2.(phase := Locking([]));
    assert map[][t := x0] == map[t := x0];
    RunsBy(s, post, With(c, t, x0));
    assert [app][1..] == [] && {} + {app} == {app};
    Advances(c, t, x0, Lock(t), x1);
    OneGroup(x2.selected[0], x1.body, app, variant);
    Advances(c, t, x1, StartNumbering(t), x2);
    RunsThen(s, [post], With(c, t, x0), [Lock(t)], With(c, t, x1));
    RunsThen(s, [post] + [Lock(t)], With(c, t, x1), [StartNumbering(t)], With(c, t, x2));
  }

  lemma ReadyPostCommits(c: Table, t: TxId, id: Id, app: AppId, v: SemVer, variant: string, now: int)
    requires id !in c && BuildAgrees(v.build, NextRevision(c, KeyFor(app, v, variant)))
    ensures RunsTo(With(c, t, ReadyPost(id, app, v, variant)), [ReadNext(t, 0)] + [Assign(t, 0, id, now)] + [Commit(t)],
                   State(c[id := FinalRow(c, app, v, variant, now)], map[]))
  {
    var x, next := ReadyPost(id, app, v, variant), NextRevision(c, KeyFor(app, v, variant));
    var y := x.(phase := Numbering([Work(app, variant, [], map[id := next])]));
    var z := x.(writes := map[id := FinalRow(c, app, v, variant, now)], phase := Numbering([Work(app, variant, [], map[])]));
    DraftAddsNoRevision(c, id, x.writes[id], KeyFor(app, v, variant));
    ReadsNext(c, t, x, y, x.selected[0], v, app, variant, next);
    Assigns(c, t, y, z, id, next, now);
    Commits(c, t, z);
    assert c + z.writes == c[id := FinalRow(c, app, v, variant, now)];
    RunsThen(With(c, t, x), [ReadNext(t, 0)], With(c, t, y), [Assign(t, 0, id, now)], With(c, t, z));
    RunsThen(With(c, t, x), [ReadNext(t, 0)] + [Assign(t, 0, id, now)], With(c, t, z), [Commit(t)], State(c + z.writes, map[]));
  }

  lemma OneGroup(choice: Choice, b: Body, app: AppId, variant: string)
    requires b.app == Some(app) && b.variant == Some(variant)
    ensures WorkOf(Groups([choice], b)) == [Work(app, variant, [choice], map[])]
  {
    var apps, variants := [(app, [choice])], [(variant, [choice])];
    assert ByApp([choice], b) == apps && ByVariant([choice], b) == variants;
    assert apps[1..] == [] && variants[1..] == [];
    assert VariantGroups(app, variants) == [Group(app, variant, [choice])] + VariantGroups(app, variants[1..]);
    assert VariantGroups(app, variants[1..]) == [] && GroupsOfApps(apps[1..], b) == [];
    assert GroupsOfApps(apps, b) == VariantGroups(app, ByVariant(apps[0].1, b)) + GroupsOfApps(apps[1..], b);
    assert Groups([choice], b) == [Group(app, variant, [choice])];
  }

  lemma DraftAddsNoRevision(c: Table, id: Id, row: Release, k: Key)
    requires id !in c && row.revision.None?
    ensures NextRevision(c + map[id := row], k) == NextRevision(c, k)
  {
    var after := c + map[id := row];
    assert RevisionsOf(after, k) == RevisionsOf(c, k) by {
      forall r | r in RevisionsOf(c, k) ensures r in RevisionsOf(after, k) {
        var i :| i in c && KeyOf(c[i]) == k && c[i].revision == Some(r);
        assert after[i] == c[i];
      }
    }
  }

  lemma ReadsNext(c: Table, t: TxId, x: Tx, y: Tx, choice: Choice, v: SemVer, app: AppId, variant: string, next: nat)
    requires x.body.semver == Some(v) && x.phase == Numbering([Work(app, variant, [choice], map[])])
    requires next == NextRevision(View(c, x), KeyFor(app, v, variant)) && BuildAgrees(v.build, next)
    requires y == x.(phase := Numbering([Work(app, variant, [], map[choice.id := next])]))
    ensures RunsTo(With(c, t, x), [ReadNext(t, 0)], With(c, t, y))
  {
    var w := x.phase.work[0];
    assert Batch(w, x.body) == [choice] && NextFor(c, x, w) == next;
    assert [choice][1..] == [] && [choice][..0] == [];
    assert Consecutive([choice], next) == map[choice.id := next];
    assert ChecksPass(w, x.body, next);
    assert x.phase.work[0 := Work(app, variant, [], map[choice.id := next])] == y.phase.work;
    Advances(c, t, x, ReadNext(t, 0), y);
  }

  lemma Assigns(c: Table, t: TxId, x: Tx, y: Tx, id: Id, next: nat, now: int)
    requires x.phase.Numbering? && |x.phase.work| == 1 && x.phase.work[0].pending == map[id := next]
    requires x.writes.Keys == {id} && x.writes[id].finalizedAt.None? && x.body.isFinal == Some(true)
    requires y == x.(writes := map[id := x.writes[id].(revision := Some(next), finalizedAt := Some(now))],
                     phase := Numbering([x.phase.work[0].(pending := map[])]))
    ensures RunsTo(With(c, t, x), [Assign(t, 0, id, now)], With(c, t, y))
  {
    assert x.phase.work[0].pending - {id} == map[];
    assert x.writes[id := y.writes[id]] == y.writes;
    assert x.phase.work[0 := y.phase.work[0]] == y.phase.work;
    Advances(c, t, x, Assign(t, 0, id, now), y);
  }
}
