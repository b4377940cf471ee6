/**
  `hostapp/hooks/target-hostapp.ts`, device PATCHes: the target OS release of a device is never older than the OS
  version that the device reports.
 */
module HostApp {
  import opened Basics
  import opened Grouping

  type Id = int
  type ReleaseId = int

  /** A version string; `rank` is its place in the version order, and `None` if it cannot be parsed. */
  datatype Version = Version(raw: string, rank: Option<int>)

  /** `balena-semver` orders what it cannot parse before all versions. */
  predicate Less(a: Version, b: Version) {
    b.rank.Some? && (a.rank.None? || a.rank.value < b.rank.value)
  }

  /** `isZero`: the semver starts with 0.0.0, and the version is that of the first `version` tag, if there is one. */
  datatype Release = Release(semver: Version, isZero: bool, tag: Option<Version>, isSuccess: bool, isInvalidated: bool)

  datatype Device = Device(deviceType: int, osVersion: Option<Version>, osVariant: Option<string>, target: Option<ReleaseId>)

  type Table = map<Id, Device>

  /** What `getOSReleaseResource` searches for. */
  datatype Wanted = Wanted(deviceType: int, version: Version, variant: string)

  /** The releases, and the answers of `getOSReleaseResource`. */
  datatype Catalog = Catalog(releases: map<ReleaseId, Release>, found: map<Wanted, ReleaseId>)

  /** A field of a request: left out, set to null, or set to a value. */
  datatype Field<T> = Omitted | Null | Value(value: T)

  /** A target in a request: a number, or a string with the integer that `parseInt` finds in it. */
  datatype TargetId = Number(id: ReleaseId) | Text(parsed: Option<ReleaseId>)

  datatype Body = Body(target: Field<TargetId>, osVersion: Field<Version>, osVariant: Field<string>, deviceType: Option<int>)

  function BaseVersion(r: Release): Option<Version> {
    if r.isZero then r.tag else Some(r.semver)
  }

  predicate IsParsed(v: Option<Version>) {
    v.Some? && v.value.rank.Some?
  }

  predicate IsOsVariant(v: Option<string>) {
    v == Some("dev") || v == Some("prod")
  }

  // ---- the downgrade check ----

  /** A release that exists, is successful and, except for root, valid, with a version that is not below `os`. */
  predicate Accepts(cat: Catalog, r: ReleaseId, allowInvalidated: bool, os: Version) {
    && r in cat.releases && cat.releases[r].isSuccess && (allowInvalidated || !cat.releases[r].isInvalidated)
    && BaseVersion(cat.releases[r]).Some? && !Less(BaseVersion(cat.releases[r]).value, os)
  }

  predicate CheckPasses(cat: Catalog, t: Table, ids: seq<Id>, r: ReleaseId, allowInvalidated: bool) {
    forall i | i in ids && i in t && IsParsed(t[i].osVersion) :: Accepts(cat, r, allowInvalidated, t[i].osVersion.value)
  }

  // ---- the progress of the target ----

  predicate NeedsProgress(cat: Catalog, d: Device) {
    && IsParsed(d.osVersion) && IsOsVariant(d.osVariant)
    && (d.target.None? || d.target.value !in cat.releases
        || BaseVersion(cat.releases[d.target.value]).None?
        || Less(BaseVersion(cat.releases[d.target.value]).value, d.osVersion.value))
  }

  function WantedBy(d: Device): Wanted {
    Wanted(d.deviceType, d.osVersion.GetOr(Version("", None)), d.osVariant.GetOr(""))
  }

  function FoundFor(cat: Catalog, d: Device): Option<ReleaseId> {
    if WantedBy(d) in cat.found then Some(cat.found[WantedBy(d)]) else None
  }

  function Progressed(cat: Catalog, d: Device): Device {
    if NeedsProgress(cat, d) then d.(target := FoundFor(cat, d)) else d
  }

  function ProgressAll(cat: Catalog, t: Table, ids: seq<Id>): Table {
    map i | i in t :: if i in ids then Progressed(cat, t[i]) else t[i]
  }

  /** What the search finds passes the downgrade check of the nested PATCH by root. */
  predicate NestedAccepts(cat: Catalog, d: Device) {
    NeedsProgress(cat, d) && FoundFor(cat, d).Some? ==> Accepts(cat, FoundFor(cat, d).value, true, d.osVersion.value)
  }

  predicate NestedPasses(cat: Catalog, t: Table, ids: seq<Id>) {
    forall i | i in ids && i in t :: NestedAccepts(cat, t[i])
  }

  function Retargeted(t: Table, ids: seq<Id>, target: Option<ReleaseId>): Table {
    map i | i in t :: if i in ids then t[i].(target := target) else t[i]
  }

  // ---- a PATCH ----

  /** POSTPARSE: a new device type clears the target unless the request sets it. */
  function Parsed(b: Body): Body {
    if b.deviceType.Some? && b.target.Omitted? then b.(target := Null) else b
  }

  /** POSTPARSE refuses what is no integer, and the foreign key of the column what is no release. */
  predicate RejectsTarget(cat: Catalog, b: Body) {
    b.target.Value? && (TargetOf(b.target.value).None? || !IsKnown(cat, TargetOf(b.target.value)))
  }

  predicate IsKnown(cat: Catalog, target: Option<ReleaseId>) {
    target.Some? ==> target.value in cat.releases
  }

  predicate AllKnown(cat: Catalog, t: Table) {
    forall i | i in t :: IsKnown(cat, t[i].target)
  }

  function Set<T>(f: Field<T>, current: Option<T>): Option<T> {
    match f
    case Omitted => current
    case Null => None
    case Value(v) => Some(v)
  }

  function TargetOf(t: TargetId): Option<ReleaseId> {
    match t
    case Number(id) => Some(id)
    case Text(parsed) => parsed
  }

  function Written(d: Device, b: Body): Device {
    Device(b.deviceType.GetOr(d.deviceType), Set(b.osVersion, d.osVersion), Set(b.osVariant, d.osVariant),
           if b.target.Value? then TargetOf(b.target.value) else if b.target.Null? then None else d.target)
  }

  function WrittenAll(t: Table, ids: seq<Id>, b: Body): Table {
    map i | i in t :: if i in ids then Written(t[i], b) else t[i]
  }

  /** A string version decides alone: if it cannot be parsed, a variant in the same request changes nothing. */
  predicate TriggersProgress(b: Body) {
    if b.osVersion.Value? then b.osVersion.value.rank.Some? else IsOsVariant(Set(b.osVariant, None))
  }

  /** The check runs only for a target that is a number. */
  predicate TargetPasses(cat: Catalog, t: Table, ids: seq<Id>, b: Body, isRoot: bool) {
    b.target.Value? && b.target.value.Number? ==> CheckPasses(cat, t, ids, b.target.value.id, isRoot)
  }

  /** The table after a PATCH, or `None` when it throws and is rolled back. */
  function Patch(cat: Catalog, t: Table, ids: seq<Id>, body: Body, isRoot: bool): Option<Table> {
    var b := Parsed(body);
    var written := WrittenAll(t, ids, b);
    if RejectsTarget(cat, b) || !TargetPasses(cat, written, ids, b, isRoot) then None
    else if !TriggersProgress(b) then Some(written)
    else if !NestedPasses(cat, written, ids) then None
    else Some(ProgressAll(cat, written, ids))
  }

  // ---- the hooks as the code runs them ----

  class DeviceHooks {
    const catalog: Catalog
    var devices: Table

    constructor (catalog: Catalog, devices: Table)
      ensures this.catalog == catalog && this.devices == devices
    {
      this.catalog, this.devices := catalog, devices;
    }

    method MaxOsVersion(ids: seq<Id>) returns (max: Option<Version>)
      ensures max.None? ==> forall n :: 0 <= n < |ids| && ids[n] in devices ==> !IsParsed(devices[ids[n]].osVersion)
      ensures max.Some? ==> IsParsed(max) && exists n :: 0 <= n < |ids| && ids[n] in devices && devices[ids[n]].osVersion == max
      ensures max.Some? ==> forall n :: 0 <= n < |ids| && ids[n] in devices && IsParsed(devices[ids[n]].osVersion) ==>
                            !Less(max.value, devices[ids[n]].osVersion.value)
    {
      max := None;
      for k := 0 to |ids|
        invariant max.None? ==> forall n :: 0 <= n < k && ids[n] in devices ==> !IsParsed(devices[ids[n]].osVersion)
        invariant max.Some? ==> IsParsed(max) && exists n :: 0 <= n < k && ids[n] in devices && devices[ids[n]].osVersion == max
        invariant max.Some? ==> forall n :: 0 <= n < k && ids[n] in devices && IsParsed(devices[ids[n]].osVersion) ==>
                                !Less(max.value, devices[ids[n]].osVersion.value)
      {
        if ids[k] in devices && devices[ids[k]].osVersion.Some? {
          var version := devices[ids[k]].osVersion.value;
          if version.rank.Some? && (max.None? || Less(max.value, version)) {
            max := Some(version);
          }
        }
      }
    }

    method CheckHostappReleaseUpgrades(ids: seq<Id>, r: ReleaseId, allowInvalidated: bool) returns (ok: bool)
      ensures ok <==> CheckPasses(catalog, devices, ids, r, allowInvalidated)
    {
      var max := MaxOsVersion(ids);
      if max.None? {
        return true;
      }
      ghost var n :| 0 <= n < |ids| && ids[n] in devices && devices[ids[n]].osVersion == max;
      ghost var i := ids[n];
      assert i in ids && i in devices && IsParsed(devices[i].osVersion);
      assert CheckPasses(catalog, devices, ids, r, allowInvalidated)
        ==> Accepts(catalog, r, allowInvalidated, devices[i].osVersion.value);
      if r !in catalog.releases || !catalog.releases[r].isSuccess || (!allowInvalidated && catalog.releases[r].isInvalidated) {
        return false;
      }
      var version := BaseVersion(catalog.releases[r]);
      if version.None? {
        return false;
      }
      ok := !Less(version.value, max.value);
    }

    method SetTargets(ids: seq<Id>, target: Option<ReleaseId>)
      modifies this`devices
      ensures devices == Retargeted(old(devices), ids, target)
    {
      devices := map i | i in devices :: if i in ids then devices[i].(target := target) else devices[i];
    }

    /** One group of `progressTargetOSReleaseIfNewer`, with the check of the nested PATCH. */
    method ProgressGroup(wanted: Wanted, group: seq<Id>) returns (ok: bool)
      requires forall i | i in group && i in devices :: IsKnown(catalog, devices[i].target)
      modifies this`devices
      ensures var found := if wanted in catalog.found then Some(catalog.found[wanted]) else None;
              && (ok <==> found.Some? ==> CheckPasses(catalog, old(devices), group, found.value, true))
              && devices == Retargeted(old(devices), group, found)
    {
      var found := if wanted in catalog.found then Some(catalog.found[wanted]) else None;
      ok := true;
      if found.Some? {
        SetTargets(group, found);
        ok := CheckHostappReleaseUpgrades(group, found.value, true);
      } else {
        var affected := WithTarget(group);
        OnlySetTargets(devices, group, affected);
        if |affected| > 0 {
          SetTargets(affected, None);
        }
      }
    }

    /** Those with a target release; a target always refers to one. */
    method WithTarget(group: seq<Id>) returns (affected: seq<Id>)
      requires forall i | i in group && i in devices :: IsKnown(catalog, devices[i].target)
      ensures forall i :: i in affected <==> i in group && i in devices && devices[i].target.Some?
    {
      affected := [];
      for k := 0 to |group|
        invariant forall i :: i in affected <==> i in group[..k] && i in devices && devices[i].target.Some?
      {
        assert group[..k + 1] == group[..k] + [group[k]];
        if group[k] in devices && devices[group[k]].target.Some? && devices[group[k]].target.value in catalog.releases {
          affected := affected + [group[k]];
        }
      }
      assert group[..|group|] == group;
    }

    method Outdated(ids: seq<Id>) returns (outdated: seq<Id>)
      ensures forall i :: i in outdated <==> i in ids && i in devices && NeedsProgress(catalog, devices[i])
    {
      outdated := [];
      for k := 0 to |ids|
        invariant forall i :: i in outdated <==> i in ids[..k] && i in devices && NeedsProgress(catalog, devices[i])
      {
        assert ids[..k + 1] == ids[..k] + [ids[k]];
        if ids[k] in devices && NeedsProgress(catalog, devices[ids[k]]) {
          outdated := outdated + [ids[k]];
        }
      }
      assert ids[..|ids|] == ids;
    }

    method ProgressTargetOSReleaseIfNewer(ids: seq<Id>) returns (ok: bool)
      requires AllKnown(catalog, devices)
      modifies this`devices
      ensures ok <==> NestedPasses(catalog, old(devices), ids)
      ensures ok ==> devices == ProgressAll(catalog, old(devices), ids)
    {
      var read := devices;
      var outdated := Outdated(ids);
      var key := (i: Id) => KeyIn(read, i);
      var groups := GroupByMap(outdated, key);
      ok := true;
      var k := 0;
      while ok && k < |groups|
        invariant 0 <= k <= |groups|
        invariant ok ==> InProgress(catalog, read, outdated, groups[..k], devices)
        invariant !ok ==> !NestedPasses(catalog, read, ids)
      {
        ghost var before := devices;
        GroupUntouched(catalog, read, outdated, groups, key, k, before);
        ok := ProgressGroup(groups[k].0, groups[k].1);
        NextGroup(catalog, read, ids, outdated, groups, key, k, before, devices);
        k := k + 1;
      }
      if ok {
        assert groups[..k] == groups;
        AllGroups(catalog, read, ids, outdated, groups, key, devices);
      }
    }

    /** A PATCH of devices; `checkFirst` is the order in which the two hooks run after the update. */
    method PatchDevices(ids: seq<Id>, body: Body, isRoot: bool, checkFirst: bool) returns (ok: bool)
      requires AllKnown(catalog, devices)
      modifies this`devices
      ensures ok <==> Patch(catalog, old(devices), ids, body, isRoot).Some?
      ensures devices == Patch(catalog, old(devices), ids, body, isRoot).GetOr(old(devices))
    {
      var before := devices;
      var b := body;
      if b.deviceType.Some? && b.target.Omitted? {
        b := b.(target := Null);
      }
      if b.target.Value? && b.target.value.Text? && b.target.value.parsed.None? {
        return false;
      }
      if b.target.Value? && !IsKnown(catalog, TargetOf(b.target.value)) {
        return false;
      }
      devices := WrittenAll(devices, ids, b);
      ok := AfterUpdate(ids, b, isRoot, checkFirst);
      if !ok {
        devices := before;
      }
    }

    method AfterUpdate(ids: seq<Id>, b: Body, isRoot: bool, checkFirst: bool) returns (ok: bool)
      requires AllKnown(catalog, devices)
      modifies this`devices
      ensures ok <==> TargetPasses(catalog, old(devices), ids, b, isRoot)
                      && (TriggersProgress(b) ==> NestedPasses(catalog, old(devices), ids))
      ensures ok ==> devices == if TriggersProgress(b) then ProgressAll(catalog, old(devices), ids) else old(devices)
    {
      var written := devices;
      ok := true;
      if checkFirst {
        ok := RunCheck(ids, b, isRoot);
      }
      if ok && TriggersProgress(b) {
        ok := ProgressTargetOSReleaseIfNewer(ids);
      }
      if ok && !checkFirst {
        CheckReadsVersionsOnly(catalog, written, ids, b, isRoot);
        ok := RunCheck(ids, b, isRoot);
      }
    }

    method RunCheck(ids: seq<Id>, b: Body, isRoot: bool) returns (ok: bool)
      ensures ok <==> TargetPasses(catalog, devices, ids, b, isRoot)
    {
      ok := true;
      if b.target.Value? && b.target.value.Number? {
        ok := CheckHostappReleaseUpgrades(ids, b.target.value.id, isRoot);
      }
    }
  }

  lemma CheckReadsVersionsOnly(cat: Catalog, t: Table, ids: seq<Id>, b: Body, isRoot: bool)
    ensures TargetPasses(cat, t, ids, b, isRoot) <==> TargetPasses(cat, ProgressAll(cat, t, ids), ids, b, isRoot)
  {
    var after := ProgressAll(cat, t, ids);
    assert forall i | i in t :: after[i].osVersion == t[i].osVersion;
  }

  lemma OnlySetTargets(t: Table, group: seq<Id>, affected: seq<Id>)
    requires forall i :: i in affected <==> i in group && i in t && t[i].target.Some?
    ensures Retargeted(t, group, None) == Retargeted(t, affected, None)
  {
    forall i | i in t ensures Retargeted(t, group, None)[i] == Retargeted(t, affected, None)[i] {
      assert i in group && i !in affected ==> t[i].(target := None) == t[i];
    }
  }

  // ---- the groups ----

  function KeyIn(t: Table, i: Id): Wanted {
    if i in t then WantedBy(t[i]) else Wanted(0, Version("", None), "")
  }

  predicate HasGroup(groups: seq<(Wanted, seq<Id>)>, wanted: Wanted) {
    exists j :: 0 <= j < |groups| && groups[j].0 == wanted
  }

  /** The outdated devices of the groups were progressed, and no others. */
  ghost predicate GroupsDone(cat: Catalog, read: Table, outdated: seq<Id>, groups: seq<(Wanted, seq<Id>)>, t: Table) {
    && t.Keys == read.Keys
    && forall i | i in read ::
         t[i] == if i in outdated && HasGroup(groups, KeyIn(read, i)) then Progressed(cat, read[i]) else read[i]
  }

  ghost predicate GroupsPass(cat: Catalog, read: Table, outdated: seq<Id>, groups: seq<(Wanted, seq<Id>)>) {
    forall i :: i in outdated && i in read && HasGroup(groups, KeyIn(read, i)) ==> NestedAccepts(cat, read[i])
  }

  ghost predicate AreOutdated(cat: Catalog, read: Table, outdated: seq<Id>) {
    forall i :: i in outdated ==> i in read && NeedsProgress(cat, read[i])
  }

  lemma HasOneMore(groups: seq<(Wanted, seq<Id>)>, k: nat)
    requires KeysDistinct(groups) && k < |groups|
    ensures !HasGroup(groups[..k], groups[k].0)
    ensures forall w :: HasGroup(groups[..k] + [groups[k]], w) <==> HasGroup(groups[..k], w) || w == groups[k].0
  {
    var more := groups[..k] + [groups[k]];
    forall w ensures HasGroup(more, w) <==> HasGroup(groups[..k], w) || w == groups[k].0 {
      assert more[k].0 == groups[k].0;
      if j :| 0 <= j < k && groups[..k][j].0 == w {
        assert more[j].0 == w;
      }
    }
  }

  /** The devices of a group are still as they were read. */
  lemma GroupUntouched(cat: Catalog, read: Table, outdated: seq<Id>, groups: seq<(Wanted, seq<Id>)>, key: Id -> Wanted,
      k: nat, before: Table)
    requires AreOutdated(cat, read, outdated) && IsPartition(groups, outdated, key) && k < |groups|
    requires forall i :: key(i) == KeyIn(read, i)
    requires GroupsDone(cat, read, outdated, groups[..k], before)
    ensures forall i :: i in groups[k].1 ==> i in read && before[i] == read[i]
  {
    WithKeyMembers(outdated, key, groups[k].0);
    HasOneMore(groups, k);
    forall i | i in groups[k].1 ensures i in read && before[i] == read[i] {
      assert key(i) == KeyIn(read, i);
    }
  }

  lemma GroupStep(cat: Catalog, read: Table, outdated: seq<Id>, groups: seq<(Wanted, seq<Id>)>, key: Id -> Wanted, k: nat,
      before: Table, after: Table)
    requires AreOutdated(cat, read, outdated) && IsPartition(groups, outdated, key) && k < |groups|
    requires forall i :: key(i) == KeyIn(read, i)
    requires GroupsDone(cat, read, outdated, groups[..k], before)
    requires var found := if groups[k].0 in cat.found then Some(cat.found[groups[k].0]) else None;
             after == Retargeted(before, groups[k].1, found)
    ensures GroupsDone(cat, read, outdated, groups[..k] + [groups[k]], after)
  {
    WithKeyMembers(outdated, key, groups[k].0);
    HasOneMore(groups, k);
    forall i | i in read
      ensures after[i] == if i in outdated && HasGroup(groups[..k] + [groups[k]], KeyIn(read, i)) then Progressed(cat, read[i]) else read[i]
    {
      assert i in groups[k].1 <==> i in outdated && KeyIn(read, i) == groups[k].0;
    }
  }

  lemma GroupCheck(cat: Catalog, read: Table, outdated: seq<Id>, groups: seq<(Wanted, seq<Id>)>, key: Id -> Wanted, k: nat,
      before: Table)
    requires AreOutdated(cat, read, outdated) && IsPartition(groups, outdated, key) && k < |groups|
    requires forall i :: key(i) == KeyIn(read, i)
    requires GroupsDone(cat, read, outdated, groups[..k], before) && GroupsPass(cat, read, outdated, groups[..k])
    ensures var found := if groups[k].0 in cat.found then Some(cat.found[groups[k].0]) else None;
            (found.Some? ==> CheckPasses(cat, before, groups[k].1, found.value, true))
            <==> GroupsPass(cat, read, outdated, groups[..k] + [groups[k]])
  {
    var wanted, group := groups[k].0, groups[k].1;
    WithKeyMembers(outdated, key, wanted);
    HasOneMore(groups, k);
    forall i | i in group ensures i in outdated && KeyIn(read, i) == wanted && before[i] == read[i] {
      assert key(i) == KeyIn(read, i);
    }
    assert forall i :: i in outdated && KeyIn(read, i) == wanted ==> i in group;
    var found := if wanted in cat.found then Some(cat.found[wanted]) else None;
    assert forall i :: i in group ==> FoundFor(cat, read[i]) == found;
    if found.Some? {
      assert CheckPasses(cat, before, group, found.value, true) <==> forall i :: i in group ==> NestedAccepts(cat, read[i]);
    }
  }

  ghost predicate InProgress(cat: Catalog, read: Table, outdated: seq<Id>, groups: seq<(Wanted, seq<Id>)>, t: Table) {
    GroupsDone(cat, read, outdated, groups, t) && GroupsPass(cat, read, outdated, groups)
  }

  /** A group that passes extends the progress, and one that fails stays in the way of the whole PATCH. */
  lemma NextGroup(cat: Catalog, read: Table, ids: seq<Id>, outdated: seq<Id>, groups: seq<(Wanted, seq<Id>)>,
      key: Id -> Wanted, k: nat, before: Table, after: Table)
    requires forall i :: i in outdated <==> i in ids && i in read && NeedsProgress(cat, read[i])
    requires IsPartition(groups, outdated, key) && k < |groups| && forall i :: key(i) == KeyIn(read, i)
    requires InProgress(cat, read, outdated, groups[..k], before)
    requires var found := if groups[k].0 in cat.found then Some(cat.found[groups[k].0]) else None;
             after == Retargeted(before, groups[k].1, found)
    ensures var found := if groups[k].0 in cat.found then Some(cat.found[groups[k].0]) else None;
            if found.Some? ==> CheckPasses(cat, before, groups[k].1, found.value, true)
            then InProgress(cat, read, outdated, groups[..k + 1], after)
            else !NestedPasses(cat, read, ids)
  {
    GroupStep(cat, read, outdated, groups, key, k, before, after);
    GroupCheck(cat, read, outdated, groups, key, k, before);
    assert groups[..k + 1] == groups[..k] + [groups[k]];
    if NestedPasses(cat, read, ids) {
      assert GroupsPass(cat, read, outdated, groups[..k + 1]);
    }
  }

  lemma AllGroups(cat: Catalog, read: Table, ids: seq<Id>, outdated: seq<Id>, groups: seq<(Wanted, seq<Id>)>,
      key: Id -> Wanted, t: Table)
    requires forall i :: i in outdated <==> i in ids && i in read && NeedsProgress(cat, read[i])
    requires IsPartition(groups, outdated, key) && forall i :: key(i) == KeyIn(read, i)
    requires InProgress(cat, read, outdated, groups, t)
    ensures t == ProgressAll(cat, read, ids) && NestedPasses(cat, read, ids)
  {
    forall i | i in outdated ensures HasGroup(groups, KeyIn(read, i)) {
      assert key(i) == KeyIn(read, i);
    }
    assert forall i | i in read :: t[i] == ProgressAll(cat, read, ids)[i];
  }

  // ---- the target is never older than the reported version ----

  predicate AtLeast(cat: Catalog, r: ReleaseId, os: Version) {
    && r in cat.releases && BaseVersion(cat.releases[r]).Some?
    && !Less(BaseVersion(cat.releases[r]).value, os)
  }

  /** The invariant for one device: it speaks of known versions, the dev and prod variants, and devices with a target. */
  predicate IsCurrent(cat: Catalog, d: Device) {
    && IsKnown(cat, d.target)
    && (IsParsed(d.osVersion) && IsOsVariant(d.osVariant) && d.target.Some? ==> AtLeast(cat, d.target.value, d.osVersion.value))
  }

  predicate AllCurrent(cat: Catalog, t: Table) {
    forall i | i in t :: IsCurrent(cat, t[i])
  }

  /** Whatever the search answers: the nested PATCH lets a release through only if it is recent enough. */
  lemma ProgressMakesCurrent(cat: Catalog, d: Device)
    requires NestedAccepts(cat, d) && IsKnown(cat, d.target)
    ensures IsCurrent(cat, Progressed(cat, d))
  {
  }

  /** A patched device that the hooks leave alone is current if its new target passed the check. */
  lemma WrittenIsCurrent(cat: Catalog, d: Device, b: Body, allowInvalidated: bool)
    requires IsCurrent(cat, d) && !TriggersProgress(b) && !RejectsTarget(cat, b) && !TargetIsText(b)
    requires b.deviceType.Some? ==> !b.target.Omitted?
    requires b.target.Value? && IsParsed(Written(d, b).osVersion) ==>
               Accepts(cat, b.target.value.id, allowInvalidated, Written(d, b).osVersion.value)
    ensures IsCurrent(cat, Written(d, b))
  {
  }

  predicate TargetIsText(b: Body) {
    b.target.Value? && b.target.value.Text?
  }

  /** A PATCH whose target is not text either throws, or leaves every device current. */
  lemma PatchKeepsCurrent(cat: Catalog, t: Table, ids: seq<Id>, body: Body, isRoot: bool)
    requires AllCurrent(cat, t) && !TargetIsText(body)
    ensures var after := Patch(cat, t, ids, body, isRoot); after.Some? ==> AllCurrent(cat, after.value)
  {
    var b := Parsed(body);
    var written := WrittenAll(t, ids, b);
    if Patch(cat, t, ids, body, isRoot).Some? {
      forall i | i in t && i in ids ensures IsCurrent(cat, if TriggersProgress(b) then Progressed(cat, written[i]) else written[i]) {
        if TriggersProgress(b) {
          assert NestedAccepts(cat, written[i]);
          ProgressMakesCurrent(cat, written[i]);
        } else {
          if b.target.Value? && IsParsed(written[i].osVersion) {
            assert Accepts(cat, b.target.value.id, isRoot, written[i].osVersion.value);
          }
          WrittenIsCurrent(cat, t[i], b, isRoot);
        }
      }
    }
  }

  /**
    A target given as text skips the downgrade check: unless the request also reports a version or variant that
    makes the target progress, the devices are current afterwards exactly when the release happens to be recent enough.
   */
  lemma TextTargetIsUnchecked(cat: Catalog, t: Table, ids: seq<Id>, body: Body, isRoot: bool)
    requires AllCurrent(cat, t) && TargetIsText(body) && !RejectsTarget(cat, body)
    ensures var written, after := WrittenAll(t, ids, body), Patch(cat, t, ids, body, isRoot);
            && (!TriggersProgress(body) ==> after == Some(written))
            && (after.Some? ==>
                  (AllCurrent(cat, after.value) <==>
                     || TriggersProgress(body)
                     || forall i | i in ids && i in t && IsParsed(written[i].osVersion) && IsOsVariant(written[i].osVariant) ::
                          AtLeast(cat, body.target.value.parsed.value, written[i].osVersion.value)))
  {
    var written := WrittenAll(t, ids, body);
    if TriggersProgress(body) && NestedPasses(cat, written, ids) {
      forall i | i in t && i in ids ensures IsCurrent(cat, Progressed(cat, written[i])) {
        assert NestedAccepts(cat, written[i]);
        ProgressMakesCurrent(cat, written[i]);
      }
    }
  }

  /** A downgrade that is refused as a number goes through as text. */
  lemma TextTargetDowngrades(cat: Catalog, i: Id, d: Device, r: ReleaseId, isRoot: bool)
    requires r in cat.releases && IsParsed(d.osVersion) && IsOsVariant(d.osVariant) && !AtLeast(cat, r, d.osVersion.value)
    ensures Patch(cat, map[i := d], [i], Body(Value(Number(r)), Omitted, Omitted, None), isRoot) == None
    ensures var after := Patch(cat, map[i := d], [i], Body(Value(Text(Some(r))), Omitted, Omitted, None), isRoot);
            after.Some? && after.value[i].target == Some(r) && !AllCurrent(cat, after.value)
  {
    var number := Body(Value(Number(r)), Omitted, Omitted, None);
    var written := WrittenAll(map[i := d], [i], number);
    assert i in [i] && i in written && written[i].osVersion == d.osVersion;
    var text := Body(Value(Text(Some(r))), Omitted, Omitted, None);
    var after := Patch(cat, map[i := d], [i], text, isRoot);
    assert after.Some? && after.value[i] == Written(d, text);
    assert !IsCurrent(cat, after.value[i]);
  }

  // ---- when a PATCH throws ----

  /** A release that the search finds is successful and has the version that was searched for. */
  predicate SearchIsSound(cat: Catalog) {
    forall w | w in cat.found :: Accepts(cat, cat.found[w], true, w.version)
  }

  lemma NestedPatchesNeverThrow(cat: Catalog, t: Table, ids: seq<Id>)
    requires SearchIsSound(cat)
    ensures NestedPasses(cat, t, ids)
  {
    forall i | i in ids && i in t ensures NestedAccepts(cat, t[i]) {
      if NeedsProgress(cat, t[i]) && FoundFor(cat, t[i]).Some? {
        assert WantedBy(t[i]) in cat.found && WantedBy(t[i]).version == t[i].osVersion.value;
      }
    }
  }

  /** If the search is sound, a PATCH throws only because of the target it sets. */
  lemma PatchThrowsOnlyForItsTarget(cat: Catalog, t: Table, ids: seq<Id>, body: Body, isRoot: bool)
    requires SearchIsSound(cat)
    ensures Patch(cat, t, ids, body, isRoot).None?
       <==> RejectsTarget(cat, body) || !TargetPasses(cat, WrittenAll(t, ids, Parsed(body)), ids, body, isRoot)
  {
    NestedPatchesNeverThrow(cat, WrittenAll(t, ids, Parsed(body)), ids);
  }

  /**
    If it is not, a device with no target cannot report the version at all: the report is refused exactly when the
    search answers with a release that the nested PATCH does not accept for that version.
   */
  lemma ReportIsRefusedIff(cat: Catalog, i: Id, d: Device, version: Version, isRoot: bool)
    requires version.rank.Some? && IsOsVariant(d.osVariant) && d.target.None?
    ensures var reported := d.(osVersion := Some(version));
            Patch(cat, map[i := d], [i], Body(Omitted, Value(version), Omitted, None), isRoot).None?
            <==> WantedBy(reported) in cat.found && !Accepts(cat, cat.found[WantedBy(reported)], true, version)
  {
    var b := Body(Omitted, Value(version), Omitted, None);
    var written := WrittenAll(map[i := d], [i], b);
    assert written[i] == d.(osVersion := Some(version)) && i in [i];
    assert NestedPasses(cat, written, [i]) <==> NestedAccepts(cat, written[i]);
  }

  // ---- runs ----

  datatype Request = Request(ids: seq<Id>, body: Body, isRoot: bool)

  function Serve(cat: Catalog, t: Table, qs: seq<Request>): Table
    decreases |qs|
  {
    if qs == [] then t else Serve(cat, Patch(cat, t, qs[0].ids, qs[0].body, qs[0].isRoot).GetOr(t), qs[1..])
  }

  /** After any run of PATCHes with numeric target ids, no target is older than the version the device reports. */
  lemma {:induction false} TargetsStayCurrent(cat: Catalog, t: Table, qs: seq<Request>)
    requires AllCurrent(cat, t) && forall n :: 0 <= n < |qs| ==> !TargetIsText(qs[n].body)
    ensures AllCurrent(cat, Serve(cat, t, qs))
    decreases |qs|
  {
    if qs != [] {
      PatchKeepsCurrent(cat, t, qs[0].ids, qs[0].body, qs[0].isRoot);
      TargetsStayCurrent(cat, Patch(cat, t, qs[0].ids, qs[0].body, qs[0].isRoot).GetOr(t), qs[1..]);
    }
  }

  // ---- what a PATCH does to a device, field by field ----

  function Reported<T>(f: Field<T>, before: Option<T>): Option<T> {
    if f.Value? then Some(f.value) else if f.Null? then None else before
  }

  /** The target that the request asks for; a new device type alone clears it. */
  function AskedTarget(d: Device, body: Body): Option<ReleaseId> {
    if body.target.Value? then (if body.target.value.Number? then Some(body.target.value.id) else body.target.value.parsed)
    else if body.target.Null? || body.deviceType.Some? then None
    else d.target
  }

  /** The version of a release: that of its first `version` tag if its semver starts with 0.0.0. */
  predicate HasVersion(r: Release, v: Version) {
    if r.isZero then r.tag == Some(v) else r.semver == v
  }

  /** No release, or one whose version is missing or lower than what is reported. */
  ghost predicate IsBehind(cat: Catalog, target: Option<ReleaseId>, rank: int) {
    target.Some? && target.value in cat.releases ==>
      forall v: Version | HasVersion(cat.releases[target.value], v) :: v.rank.None? || v.rank.value < rank
  }

  /** The request reports a version that can be parsed, or no version and a known variant. */
  predicate Reports(body: Body) {
    if body.osVersion.Value? then body.osVersion.value.rank.Some?
    else body.osVariant == Value("dev") || body.osVariant == Value("prod")
  }

  /** The target has to follow: the device has a known version and variant, and the target asked for is behind. */
  ghost predicate MustFollow(cat: Catalog, asked: Option<ReleaseId>, version: Option<Version>, variant: Option<string>) {
    && version.Some? && version.value.rank.Some? && (variant == Some("dev") || variant == Some("prod"))
    && IsBehind(cat, asked, version.value.rank.value)
  }

  /**
    After a successful PATCH every affected device has the fields of the request. Its target is the one asked for,
    unless that is behind the version that a report leaves it with: then it is the release that the catalog holds for its
    device type, version and variant, or none if it holds none. Other devices keep their rows.
   */
  lemma PatchMeaning(cat: Catalog, t: Table, ids: seq<Id>, body: Body, isRoot: bool, i: Id)
    requires i in t && Patch(cat, t, ids, body, isRoot).Some? && AllKnown(cat, t)
    ensures var after, before := Patch(cat, t, ids, body, isRoot).value, t[i];
            && i in after
            && (i !in ids ==> after[i] == before)
            && (i in ids ==>
                  var d, asked := after[i], AskedTarget(before, body);
                  && d.deviceType == (if body.deviceType.Some? then body.deviceType.value else before.deviceType)
                  && d.osVersion == Reported(body.osVersion, before.osVersion)
                  && d.osVariant == Reported(body.osVariant, before.osVariant)
                  && (if Reports(body) && MustFollow(cat, asked, d.osVersion, d.osVariant) then
                        var wanted := Wanted(d.deviceType, d.osVersion.value, d.osVariant.value);
                        d.target == if wanted in cat.found then Some(cat.found[wanted]) else None
                      else d.target == asked))
  {
    if i in ids {
      var d := Written(t[i], Parsed(body));
      assert d.target == AskedTarget(t[i], body);
      if IsParsed(d.osVersion) {
        BehindIffNeeded(cat, d);
      }
    }
  }

  lemma BehindIffNeeded(cat: Catalog, d: Device)
    requires IsParsed(d.osVersion)
    ensures NeedsProgress(cat, d) <==> IsOsVariant(d.osVariant) && IsBehind(cat, d.target, d.osVersion.value.rank.value)
  {
    if d.target.Some? && d.target.value in cat.releases {
      var r := cat.releases[d.target.value];
      if BaseVersion(r).Some? {
        assert HasVersion(r, BaseVersion(r).value);
      }
    }
  }

  /** No affected device reports a version, that can be parsed, above the one of the release. */
  ghost predicate SuitsAll(cat: Catalog, t: Table, ids: seq<Id>, r: Release) {
    forall i | i in ids && i in t && t[i].osVersion.Some? && t[i].osVersion.value.rank.Some? ::
      exists v: Version :: HasVersion(r, v) && v.rank.Some? && t[i].osVersion.value.rank.value <= v.rank.value
  }

  /**
    A request that only sets a numeric target is refused exactly for a release that does not exist, or, if any affected
    device has a version that can be parsed, one that failed, is invalidated (except for root), or is older.
   */
  lemma NumericTargetIsRefusedIff(cat: Catalog, t: Table, ids: seq<Id>, id: ReleaseId, isRoot: bool)
    ensures Patch(cat, t, ids, Body(Value(Number(id)), Omitted, Omitted, None), isRoot).None?
       <==> id !in cat.releases
            || ((exists i :: i in ids && i in t && t[i].osVersion.Some? && t[i].osVersion.value.rank.Some?)
                && !(var r := cat.releases[id]; r.isSuccess && (isRoot || !r.isInvalidated) && SuitsAll(cat, t, ids, r)))
  {
    var body := Body(Value(Number(id)), Omitted, Omitted, None);
    var written := WrittenAll(t, ids, body);
    if id in cat.releases {
      var r := cat.releases[id];
      forall i | i in ids && i in t && IsParsed(t[i].osVersion)
        ensures Accepts(cat, id, isRoot, written[i].osVersion.value)
           <==> r.isSuccess && (isRoot || !r.isInvalidated)
                && exists v: Version :: HasVersion(r, v) && v.rank.Some? && t[i].osVersion.value.rank.value <= v.rank.value
      {
        AcceptsIff(cat, id, isRoot, t[i].osVersion.value);
      }
    }
  }

  lemma AcceptsIff(cat: Catalog, id: ReleaseId, isRoot: bool, os: Version)
    requires id in cat.releases && os.rank.Some?
    ensures var r := cat.releases[id];
            Accepts(cat, id, isRoot, os)
            <==> r.isSuccess && (isRoot || !r.isInvalidated)
                 && exists v: Version :: HasVersion(r, v) && v.rank.Some? && os.rank.value <= v.rank.value
  {
    var r := cat.releases[id];
    if BaseVersion(r).Some? {
      assert HasVersion(r, BaseVersion(r).value);
    }
  }
}
