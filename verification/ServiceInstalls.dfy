/**
  `tasks/service-installs.ts` and `hooks/service-installs.ts`: time-limited tasks that give every device a
  service_install row for each of its target services, and queue a follow-up task for the devices they did not get to.
 */
module ServiceInstalls {
  import opened Basics

  type Device = int
  type Service = int
  datatype Row = Row(device: Device, service: Service)

  /** The services of the releases that each existing device should run, as often as they are listed. */
  type Targets = map<Device, seq<Service>>

  // ---- one run of a service-install task ----

  function ServiceIds(targets: Targets, devices: set<Device>): set<Service> {
    set d, s | d in devices && d in targets && s in targets[d] :: s
  }

  function Missing(targets: Targets, installed: set<Row>, d: Device): set<Service> {
    if d in targets then set s | s in targets[d] && Row(d, s) !in installed else {}
  }

  function RowsFor(d: Device, services: set<Service>): set<Row> {
    set s | s in services :: Row(d, s)
  }

  function Handle(targets: Targets, installed: set<Row>, d: Device): set<Row> {
    installed + RowsFor(d, Missing(targets, installed, d))
  }

  function HandleAll(targets: Targets, installed: set<Row>, ds: seq<Device>): set<Row>
    decreases |ds|
  {
    if ds == [] then installed
    else
      var init := HandleAll(targets, installed, ds[..|ds| - 1]);
      Handle(targets, init, ds[|ds| - 1])
  }

  predicate LacksOneOf(targets: Targets, installed: set<Row>, services: set<Service>, d: Device) {
    d in targets && exists s :: s in services && Row(d, s) !in installed
  }

  /** The devices that lack one of the services of all devices together: a superset of those that lack one of theirs. */
  function ToDo(targets: Targets, installed: set<Row>, devices: set<Device>): set<Device> {
    set d | d in devices && LacksOneOf(targets, installed, ServiceIds(targets, devices), d)
  }

  /** An order in which the database may return the devices to do. */
  ghost predicate IsOrder(targets: Targets, installed: set<Row>, devices: set<Device>, order: seq<Device>) {
    Distinct(order) && Elements(order) == ToDo(targets, installed, devices)
  }

  function Elements<T>(s: seq<T>): set<T> {
    set x | x in s
  }

  lemma ElementsOf<T>(s: seq<T>)
    ensures forall x :: x in Elements(s) <==> x in s
  {
  }

  lemma ElementsAppended<T>(s: seq<T>, x: T)
    ensures Elements(s + [x]) == Elements(s) + {x}
  {
    ElementsOf(s);
    ElementsOf(s + [x]);
  }

  /** The rows after a run, the devices of the follow-up task if there is one, and the total that is reported. */
  datatype Outcome = Outcome(installed: set<Row>, again: Option<set<Device>>, total: int)

  function HandledCount(order: seq<Device>, budget: nat): nat {
    if budget < |order| then budget else |order|
  }

  /** `budget` is how many devices the run handles before its time is up. */
  function RunTask(targets: Targets, installed: set<Row>, devices: set<Device>, order: seq<Device>, budget: nat): Outcome {
    if ServiceIds(targets, devices) == {} then Outcome(installed, None, 0)
    else
      var handled := order[..HandledCount(order, budget)];
      var after := HandleAll(targets, installed, handled);
      Outcome(after, if budget < |order| then Some(devices - Elements(handled)) else None, |after| - |installed|)
  }

  // ---- a service-install task as the code runs it ----

  class Database {
    var rows: seq<Row>
    var tasks: seq<seq<Device>>

    constructor ()
      ensures Valid() && rows == [] && tasks == []
    {
      rows, tasks := [], [];
    }

    ghost function Installed(): set<Row>
      reads this
    {
      Elements(rows)
    }

    /** No pair of a device and a service was inserted twice. */
    ghost predicate Valid()
      reads this
    {
      Distinct(rows)
    }

    /** `new Set(services)`, in the order of first occurrence. */
    method Unique(services: seq<Service>) returns (unique: seq<Service>)
      ensures Distinct(unique) && Elements(unique) == Elements(services)
    {
      unique := [];
      var k := 0;
      while k < |services|
        invariant 0 <= k <= |services| && Distinct(unique)
        invariant Elements(unique) == Elements(services[..k])
      {
        assert services[..k + 1] == services[..k] + [services[k]];
        ElementsAppended(services[..k], services[k]);
        ElementsOf(unique);
        ElementsAppended(unique, services[k]);
        if services[k] !in unique {
          unique := unique + [services[k]];
        }
        k := k + 1;
      }
      assert services[..k] == services;
    }

    /** Insert a row for every target service that the device lacked when the rows were read. */
    method InstallMissing(targets: Targets, d: Device, existing: set<Service>) returns (created: nat)
      requires Valid() && d in targets
      requires forall s :: s in existing <==> Row(d, s) in rows
      modifies this`rows
      ensures Valid() && Installed() == Handle(targets, old(Installed()), d)
      ensures |rows| == old(|rows|) + created && rows[..old(|rows|)] == old(rows)
      ensures forall r :: r in rows && r !in old(rows) ==> r.device == d
    {
      var services := Unique(targets[d]);
      ElementsOf(services);
      ElementsOf(targets[d]);
      created := 0;
      var k := 0;
      while k < |services|
        invariant 0 <= k <= |services| && Distinct(rows)
        invariant |rows| == old(|rows|) + created && rows[..old(|rows|)] == old(rows)
        invariant forall r :: r in rows <==> r in old(rows) || (r.device == d && r.service in services[..k] && r.service !in existing)
      {
        assert services[..k + 1] == services[..k] + [services[k]];
        assert services[k] !in services[..k];
        if services[k] !in existing {
          assert Row(d, services[k]).service !in services[..k];
          assert Row(d, services[k]) !in rows;
          rows := rows + [Row(d, services[k])];
          created := created + 1;
        }
        k := k + 1;
      }
      assert services[..k] == services;
      ElementsOf(rows);
      forall r: Row ensures r in Installed() <==> r in old(rows) || (r.device == d && r.service in targets[d] && Row(d, r.service) !in old(rows)) {
        assert r == Row(r.device, r.service);
      }
      HandledRows(targets, old(rows), d, Installed());
    }

    /** `createServiceInstalls`, for the devices to do in the order the database returns them. */
    method CreateServiceInstalls(targets: Targets, devices: seq<Device>, order: seq<Device>, budget: nat) returns (total: nat)
      requires Valid() && IsOrder(targets, Installed(), Elements(devices), order)
      modifies this
      ensures var outcome := RunTask(targets, old(Installed()), Elements(devices), order, budget);
              && Valid() && Installed() == outcome.installed && total == outcome.total
              && (outcome.again.None? ==> tasks == old(tasks))
              && (outcome.again.Some? ==> |tasks| == |old(tasks)| + 1 && tasks[..|old(tasks)|] == old(tasks)
                                          && Elements(tasks[|old(tasks)|]) == outcome.again.value)
      ensures |rows| == old(|rows|) + total && rows[..old(|rows|)] == old(rows)
    {
      if ServiceIds(targets, Elements(devices)) == {} {
        return 0;
      }
      total := 0;
      var snapshot := rows;
      var remaining := Elements(devices);
      var k := 0;
      while k < |order|
        invariant 0 <= k <= |order| && k <= budget && Valid()
        invariant Installed() == HandleAll(targets, Elements(snapshot), order[..k])
        invariant |rows| == |snapshot| + total && rows[..|snapshot|] == snapshot
        invariant forall r :: r in rows && r !in snapshot ==> r.device in order[..k]
        invariant remaining == Elements(devices) - Elements(order[..k]) && tasks == old(tasks)
      {
        if k >= budget {
          var rest := AsSequence(remaining);
          tasks := tasks + [rest];
          DistinctCount(rows);
          DistinctCount(snapshot);
          return;
        }
        OrderedHaveTargets(targets, Elements(snapshot), Elements(devices), order, k);
        ExistingRows(rows, snapshot, order, k);
        var existing := set r | r in snapshot && r.device == order[k] :: r.service;
        var created := InstallMissing(targets, order[k], existing);
        total := total + created;
        remaining := remaining - {order[k]};
        OneMore(targets, Elements(snapshot), order, k);
        k := k + 1;
      }
      assert order[..k] == order;
      DistinctCount(rows);
      DistinctCount(snapshot);
    }

    /** `Array.from(set)`. */
    method AsSequence(devices: set<Device>) returns (s: seq<Device>)
      ensures Elements(s) == devices && Distinct(s)
    {
      s := [];
      var rest := devices;
      while rest != {}
        invariant rest <= devices && Elements(s) == devices - rest && Distinct(s)
        decreases |rest|
      {
        ghost var some := Pick(rest);
        var d :| d in rest;
        ElementsOf(s);
        ElementsAppended(s, d);
        s, rest := s + [d], rest - {d};
      }
    }

    /** `createServiceInstallsAsync`: one task for each batch of devices. */
    method PostTasks(devices: seq<Device>, batchSize: nat)
      modifies this`tasks
      ensures tasks == old(tasks) + Chunks(devices, batchSize)
    {
      var chunks := Chunks(devices, batchSize);
      var k := 0;
      while k < |chunks|
        invariant 0 <= k <= |chunks| && tasks == old(tasks) + chunks[..k]
      {
        tasks := tasks + [chunks[k]];
        k := k + 1;
      }
      assert chunks[..k] == chunks;
    }
  }

  lemma HandledRows(targets: Targets, rows: seq<Row>, d: Device, after: set<Row>)
    requires d in targets
    requires forall r :: r in after <==> r in rows || (r.device == d && r.service in targets[d] && Row(d, r.service) !in rows)
    ensures after == Handle(targets, Elements(rows), d)
  {
    ElementsOf(rows);
    forall r: Row ensures r in after <==> r in Handle(targets, Elements(rows), d) {
      var missing := Missing(targets, Elements(rows), d);
      assert r == Row(r.device, r.service);
      if r.device == d && r.service in missing {
        assert Row(d, r.service) in RowsFor(d, missing);
      }
    }
  }

  lemma OneMore(targets: Targets, installed: set<Row>, order: seq<Device>, k: nat)
    requires k < |order|
    ensures HandleAll(targets, installed, order[..k + 1]) == Handle(targets, HandleAll(targets, installed, order[..k]), order[k])
    ensures Elements(order[..k + 1]) == Elements(order[..k]) + {order[k]}
    ensures forall d :: d in order[..k + 1] <==> d in order[..k] || d == order[k]
  {
    assert order[..k + 1][..k] == order[..k] && order[..k + 1] == order[..k] + [order[k]];
    ElementsAppended(order[..k], order[k]);
  }

  lemma OrderedHaveTargets(targets: Targets, installed: set<Row>, devices: set<Device>, order: seq<Device>, k: nat)
    requires IsOrder(targets, installed, devices, order) && k < |order|
    ensures order[k] in targets && order[k] in devices
  {
    assert order[k] in Elements(order);
  }

  /** The rows of a device that was not handled yet are those that were there before. */
  lemma ExistingRows(rows: seq<Row>, snapshot: seq<Row>, order: seq<Device>, k: nat)
    requires Distinct(order) && k < |order| && |snapshot| <= |rows| && rows[..|snapshot|] == snapshot
    requires forall r :: r in rows && r !in snapshot ==> r.device in order[..k]
    ensures forall s :: s in (set r | r in snapshot && r.device == order[k] :: r.service) <==> Row(order[k], s) in rows
  {
    forall s | Row(order[k], s) in snapshot ensures s in (set r | r in snapshot && r.device == order[k] :: r.service) {
      assert Row(order[k], s).device == order[k];
    }
    forall s | Row(order[k], s) in rows ensures Row(order[k], s) in snapshot {
      assert Row(order[k], s).device !in order[..k];
    }
    forall s | Row(order[k], s) in snapshot ensures Row(order[k], s) in rows {
      var n :| 0 <= n < |snapshot| && snapshot[n] == Row(order[k], s);
      assert rows[n] == snapshot[n];
    }
  }

  // ---- batches ----

  /** `_.chunk`, which yields nothing for a size of 0. */
  function Chunks<T>(s: seq<T>, size: nat): seq<seq<T>>
    decreases |s|
  {
    if s == [] || size == 0 then []
    else if |s| <= size then [s]
    else [s[..size]] + Chunks(s[size..], size)
  }

  /** With a positive size the batches are the devices, cut into non-empty pieces of at most that size. */
  lemma {:induction false} ChunksCoverAll<T>(s: seq<T>, size: nat)
    requires size > 0
    ensures Flatten(Chunks(s, size)) == s
    ensures forall n :: 0 <= n < |Chunks(s, size)| ==> 0 < |Chunks(s, size)[n]| <= size
    decreases |s|
  {
    if |s| > size {
      ChunksCoverAll(s[size..], size);
      assert s == s[..size] + s[size..];
    } else if s != [] {
      assert Flatten([s]) == s + Flatten([]);
    }
  }

  predicate InSome<T(==)>(ss: seq<seq<T>>, x: T) {
    exists n :: 0 <= n < |ss| && x in ss[n]
  }

  lemma {:induction false} InFlattened<T>(ss: seq<seq<T>>, x: T)
    requires x in Flatten(ss)
    ensures InSome(ss, x)
  {
    if x in ss[0] {
    } else {
      InFlattened(ss[1..], x);
      var n :| 0 <= n < |ss[1..]| && x in ss[1..][n];
      assert x in ss[n + 1];
    }
  }

  /** Every device is in some task exactly when the configured batch size is positive, or there are no devices. */
  lemma EveryDeviceIsInATask(devices: seq<Device>, size: nat)
    ensures (forall d :: d in devices ==> InSome(Chunks(devices, size), d)) <==> size > 0 || devices == []
  {
    if size > 0 {
      ChunksCoverAll(devices, size);
      forall d | d in devices ensures InSome(Chunks(devices, size), d) {
        InFlattened(Chunks(devices, size), d);
      }
    } else if devices != [] {
      assert !InSome(Chunks(devices, size), devices[0]);
    }
  }

  // ---- what a run leaves behind ----

  predicate Done(targets: Targets, installed: set<Row>, d: Device) {
    d in targets ==> forall s :: s in targets[d] ==> Row(d, s) in installed
  }

  lemma HandleIsMonotonic(targets: Targets, installed: set<Row>, d: Device)
    ensures installed <= Handle(targets, installed, d)
    ensures Done(targets, Handle(targets, installed, d), d)
    ensures forall r :: r in Handle(targets, installed, d) && r !in installed
              ==> r.device == d && r.device in targets && r.service in targets[r.device]
  {
  }

  lemma {:induction false} HandleAllDoes(targets: Targets, installed: set<Row>, ds: seq<Device>)
    ensures installed <= HandleAll(targets, installed, ds)
    ensures forall d :: d in ds ==> Done(targets, HandleAll(targets, installed, ds), d)
    ensures forall r :: r in HandleAll(targets, installed, ds) && r !in installed
              ==> r.device in ds && r.device in targets && r.service in targets[r.device]
    decreases |ds|
  {
    if ds != [] {
      var init, last := ds[..|ds| - 1], ds[|ds| - 1];
      HandleAllDoes(targets, installed, init);
      HandleIsMonotonic(targets, HandleAll(targets, installed, init), last);
      assert forall d :: d in ds ==> d in init || d == last;
    }
  }

  /**
    After a run every device has all its target services or is in the follow-up task; only target services are added,
    none for a device in the follow-up task, and the total is the number of new rows.
   */
  lemma RunLeavesNobodyOut(targets: Targets, installed: set<Row>, devices: set<Device>, order: seq<Device>, budget: nat)
    requires IsOrder(targets, installed, devices, order)
    ensures var out := RunTask(targets, installed, devices, order, budget);
            && installed <= out.installed && out.total == |out.installed| - |installed| && out.total >= 0
            && (forall d :: d in devices ==> Done(targets, out.installed, d) || (out.again.Some? && d in out.again.value))
            && (forall r :: r in out.installed - installed ==>
                  && r.device in targets && r.service in targets[r.device]
                  && r.device in devices && !(out.again.Some? && r.device in out.again.value))
  {
    var out := RunTask(targets, installed, devices, order, budget);
    var services := ServiceIds(targets, devices);
    var handled := order[..HandledCount(order, budget)];
    HandleAllDoes(targets, installed, handled);
    forall d | d in handled ensures d in devices && d in Elements(handled) {
      assert d in Elements(order);
    }
    forall d | d in devices ensures Done(targets, out.installed, d) || (out.again.Some? && d in out.again.value) {
      if d in targets && !Done(targets, installed, d) {
        var s :| s in targets[d] && Row(d, s) !in installed;
        assert s in services;
        assert LacksOneOf(targets, installed, services, d);
        assert d in ToDo(targets, installed, devices);
      }
    }
    SubsetIsNotLarger(installed, out.installed);
  }

  /** A run that handles a device leaves fewer devices to its follow-up; one that handles none leaves them all. */
  lemma FollowUpIsSmaller(targets: Targets, installed: set<Row>, devices: set<Device>, order: seq<Device>, budget: nat)
    requires IsOrder(targets, installed, devices, order)
    ensures var out := RunTask(targets, installed, devices, order, budget);
            out.again.Some? ==> out.again.value <= devices && |out.again.value| == |devices| - budget
  {
    var out := RunTask(targets, installed, devices, order, budget);
    if out.again.Some? {
      var handled := order[..budget];
      DistinctCount(handled);
      forall d | d in handled ensures d in devices {
        assert d in Elements(order);
      }
      assert devices == (devices - Elements(handled)) + Elements(handled);
    }
  }

  /** The devices that a run handles: those that lack a service of any of the devices, whether or not it is one of theirs. */
  lemma ToDoIff(targets: Targets, installed: set<Row>, devices: set<Device>, d: Device)
    ensures d in ToDo(targets, installed, devices)
       <==> && d in devices && d in targets
            && exists e, s :: e in devices && e in targets && s in targets[e] && Row(d, s) !in installed
  {
    forall e, s | e in devices && e in targets && s in targets[e] ensures s in ServiceIds(targets, devices) {
    }
  }

  /** A run asks for a follow-up exactly if its time is up before the last device, and then for those it did not handle. */
  lemma FollowUpIff(targets: Targets, installed: set<Row>, devices: set<Device>, order: seq<Device>, budget: nat)
    requires IsOrder(targets, installed, devices, order)
    ensures var outcome := RunTask(targets, installed, devices, order, budget);
            && (outcome.again.Some? <==> |order| > budget)
            && (outcome.again.Some? ==> forall d :: d in outcome.again.value <==> d in devices && d !in order[..budget])
            && (outcome.again.None? && order == [] ==> outcome.installed == installed && outcome.total == 0)
  {
    if ServiceIds(targets, devices) == {} && order != [] {
      ElementsOf(order);
      assert order[0] in ToDo(targets, installed, devices);
      ToDoIff(targets, installed, devices, order[0]);
    }
  }

  lemma {:induction false} DistinctCount<T>(s: seq<T>)
    requires Distinct(s)
    ensures |Elements(s)| == |s|
  {
    if s != [] {
      var init, last := s[..|s| - 1], s[|s| - 1];
      DistinctCount(init);
      assert s == init + [last] && last !in init;
      assert Elements(s) == Elements(init) + {last};
    }
  }

  // ---- chains of runs ----

  /** A run of the chain: the order its query returns, and how many devices it handles in time. */
  datatype Attempt = Attempt(order: seq<Device>, budget: nat)

  datatype Progress = Progress(installed: set<Row>, pending: Option<set<Device>>, total: int)

  function Next(targets: Targets, p: Progress, a: Attempt): Progress {
    if p.pending.None? then p
    else
      var out := RunTask(targets, p.installed, p.pending.value, a.order, a.budget);
      Progress(out.installed, out.again, p.total + out.total)
  }

  function Chain(targets: Targets, p: Progress, attempts: seq<Attempt>): Progress
    decreases |attempts|
  {
    if attempts == [] then p else Chain(targets, Next(targets, p, attempts[0]), attempts[1..])
  }

  /** Each attempt runs a pending task. */
  ghost predicate IsChain(targets: Targets, p: Progress, attempts: seq<Attempt>)
    decreases |attempts|
  {
    attempts == [] || (
      && p.pending.Some? && IsOrder(targets, p.installed, p.pending.value, attempts[0].order)
      && IsChain(targets, Next(targets, p, attempts[0]), attempts[1..]))
  }

  predicate Covered(targets: Targets, p: Progress, devices: set<Device>) {
    forall d :: d in devices ==> Done(targets, p.installed, d) || (p.pending.Some? && d in p.pending.value)
  }

  lemma DoneIsKept(targets: Targets, small: set<Row>, large: set<Row>, devices: set<Device>)
    requires small <= large
    ensures forall d :: d in devices && Done(targets, small, d) ==> Done(targets, large, d)
  {
  }

  /** Over any chain of timed-out runs every original device has its services or is still in a pending task. */
  lemma {:induction false} ChainLeavesNobodyOut(targets: Targets, p: Progress, devices: set<Device>, attempts: seq<Attempt>)
    requires Covered(targets, p, devices) && IsChain(targets, p, attempts)
    ensures Covered(targets, Chain(targets, p, attempts), devices)
    decreases |attempts|
  {
    if attempts != [] {
      var a := attempts[0];
      RunLeavesNobodyOut(targets, p.installed, p.pending.value, a.order, a.budget);
      var next := Next(targets, p, a);
      DoneIsKept(targets, p.installed, next.installed, devices);
      ChainLeavesNobodyOut(targets, next, devices, attempts[1..]);
    }
  }

  /** The totals of a chain add up to the rows it inserted. */
  lemma {:induction false} ChainTotals(targets: Targets, p: Progress, attempts: seq<Attempt>)
    requires IsChain(targets, p, attempts)
    ensures Chain(targets, p, attempts).total - p.total == |Chain(targets, p, attempts).installed| - |p.installed|
    ensures p.installed <= Chain(targets, p, attempts).installed
    decreases |attempts|
  {
    if attempts != [] {
      var a := attempts[0];
      RunLeavesNobodyOut(targets, p.installed, p.pending.value, a.order, a.budget);
      ChainTotals(targets, Next(targets, p, a), attempts[1..]);
    }
  }

  /** If each run handles at least one device, a chain has at most one run more than there are devices. */
  lemma {:induction false} ChainEnds(targets: Targets, p: Progress, attempts: seq<Attempt>)
    requires IsChain(targets, p, attempts) && forall n :: 0 <= n < |attempts| ==> attempts[n].budget >= 1
    ensures p.pending.Some? ==> |attempts| <= |p.pending.value| + 1
    ensures p.pending.None? ==> attempts == []
    ensures p.pending.Some? && |attempts| == |p.pending.value| + 1 ==> Chain(targets, p, attempts).pending.None?
    decreases |attempts|
  {
    if attempts != [] {
      var a := attempts[0];
      FollowUpIsSmaller(targets, p.installed, p.pending.value, a.order, a.budget);
      ChainEnds(targets, Next(targets, p, a), attempts[1..]);
    }
  }

  /** When the chain has ended, every device of the first task has all its target services. */
  lemma FinishedChainInstallsAll(targets: Targets, installed: set<Row>, devices: set<Device>, attempts: seq<Attempt>)
    requires IsChain(targets, Progress(installed, Some(devices), 0), attempts)
    requires Chain(targets, Progress(installed, Some(devices), 0), attempts).pending.None?
    ensures var end := Chain(targets, Progress(installed, Some(devices), 0), attempts);
            (forall d :: d in devices ==> Done(targets, end.installed, d)) && end.total == |end.installed| - |installed|
  {
    ChainLeavesNobodyOut(targets, Progress(installed, Some(devices), 0), devices, attempts);
    ChainTotals(targets, Progress(installed, Some(devices), 0), attempts);
  }
}
