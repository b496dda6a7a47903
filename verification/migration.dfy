/** The migration driver (migrate/migrate.go): building the status tree of
    every target server from the cloud API's answers, running the pipeline
    on each server, the set of servers being worked on, and the list of
    servers that ended with an error.

    A `*ServerStatus` pointer is modelled by its position in `status`. */
module Migration {
  import opened Basics
  import opened Decimal
  import opened Steps
  import opened Iaas
  import opened Status
  import opened Pipeline

  /** `Options`; `hasLogger` says whether a logger was given. */
  datatype Options = Options(disableBoot: bool, deleteDisks: bool, maxWorkerCount: int, hasLogger: bool)

  /** The zero value that replaces nil options. */
  const DefaultOptions: Options := Options(false, false, 0, false)

  datatype Migration = Migration(status: seq<ServerStatus>, working: seq<nat>, maxWorkerCount: int)

  // ---------------------------------------------------------------------------
  // Building the status tree

  /** The status of one disk before anything happened: cloning is always
      needed, deleting the original only when asked for. */
  function NewDisk(disk: Disk, o: Options): DiskStatus {
    DiskStatus(NewStep(true, o.hasLogger), NewStep(o.deleteDisks, o.hasLogger), disk.id, disk.sizeMB, 0, 0)
  }

  function NewDisks(disks: seq<Disk>, o: Options): (r: seq<DiskStatus>)
    ensures |r| == |disks|
    ensures forall i :: 0 <= i < |r| ==> r[i] == NewDisk(disks[i], o)
    decreases |disks|
  {
    if |disks| == 0 then [] else NewDisks(disks[..|disks| - 1], o) + [NewDisk(disks[|disks| - 1], o)]
  }

  /** The status of one server before anything happened. The disk
      connection steps exist only for a server with disks. */
  function NewServerStatus(id: int64, server: Server, plan: Plan, o: Options): ServerStatus {
    var diskStep := if |server.disks| > 0 then Some(NewStep(true, o.hasLogger)) else None;
    ServerStatus(
      NewDisks(server.disks, o),
      NewStep(server.up, o.hasLogger),
      diskStep,
      diskStep,
      NewStep(true, o.hasLogger),
      NewStep(!o.disableBoot, o.hasLogger),
      id,
      server.name,
      0,
      plan,
      None)
  }

  /** A fresh status shows, at any time, `(waiting)` for the work that will be
      done and `-` for the work that will not: shutdown only for a running
      server, boot unless disabled, deletion only when asked for; plan change
      and cloning always, and disconnecting and connecting whenever there are
      disks. It mirrors the server's disks one to one with nothing cloned or
      copied yet, carries the target ID, and can run the pipeline exactly
      when the server has disks. */
  lemma NewServerStatusShowsPlannedWork(id: int64, server: Server, plan: Plan, o: Options, now: int)
    ensures var s := NewServerStatus(id, server, plan, o);
      && ShutdownStatus(s, now) == (if server.up then StatusWaiting else StatusDisabled)
      && MigrationStatus(s, now) == StatusWaiting
      && BootStatus(s, now) == (if o.disableBoot then StatusDisabled else StatusWaiting)
      && |s.disks| == |server.disks|
      && (forall i :: 0 <= i < |s.disks| ==>
            && s.disks[i].originalID == server.disks[i].id
            && s.disks[i].sizeMB == server.disks[i].sizeMB
            && s.disks[i].clonedID == 0 && s.disks[i].migratedMB == 0
            && CloneStatus(s.disks[i], now) == StatusWaiting
            && DeleteStatus(s.disks[i], now) == (if o.deleteDisks then StatusWaiting else StatusDisabled))
      && (Ready(s) <==> |server.disks| > 0)
      && (|server.disks| > 0 ==>
            && Steps.Status(s.disconnect.value, now) == StatusWaiting
            && Steps.Status(s.connect.value, now) == StatusWaiting)
      && ParseInt64(ServerID(s)) == Some(id)
      && s.err.None?
  {
    var s := NewServerStatus(id, server, plan, o);
    forall i | 0 <= i < |s.disks|
      ensures s.disks[i].clonedID == 0 && s.disks[i].migratedMB == 0
      ensures CloneStatus(s.disks[i], now) == StatusWaiting
      ensures DeleteStatus(s.disks[i], now) == (if o.deleteDisks then StatusWaiting else StatusDisabled)
    {
      assert s.disks[i] == NewDisk(server.disks[i], o);
    }
  }

  /** The two lookups `NewMigration` makes for one server ID, and the status
      built from their answers. */
  function Lookup(c: Client, id: int64, o: Options): (r: Result<ServerStatus, Error>) {
    match c.serverByID(id)
    case Failure(e) => Failure(e)
    case Success(server) =>
      match c.findServerPlan(server.cpu, server.memoryGB)
      case Failure(e) => Failure(e)
      case Success(plan) => Success(NewServerStatus(id, server, plan, o))
  }

  /** A lookup fails exactly when the server read or the plan search fails,
      with that error, and otherwise builds the status from the server read
      and the plan matching its CPU and memory. */
  lemma LookupOutcome(c: Client, id: int64, o: Options)
    ensures var r := Lookup(c, id, o);
      && (c.serverByID(id).Failure? ==> r == Failure(c.serverByID(id).error))
      && (c.serverByID(id).Success? ==>
            var server := c.serverByID(id).value;
            var plan := c.findServerPlan(server.cpu, server.memoryGB);
            && (plan.Failure? ==> r == Failure(plan.error))
            && (plan.Success? ==> r == Success(NewServerStatus(id, server, plan.value, o))))
  {
  }

  /** The loop of `NewMigration` over the server IDs: one status per ID, in
      order, or the first lookup error. */
  function BuildAll(c: Client, ids: seq<int64>, o: Options): (r: Result<seq<ServerStatus>, Error>)
    ensures r.Success? ==> |r.value| == |ids|
    ensures r.Success? ==> forall i :: 0 <= i < |ids| ==> Lookup(c, ids[i], o) == Success(r.value[i])
    ensures r.Success? <==> forall i :: 0 <= i < |ids| ==> Lookup(c, ids[i], o).Success?
    decreases |ids|
  {
    if |ids| == 0 then Success([])
    else
      match Lookup(c, ids[0], o)
      case Failure(e) => Failure(e)
      case Success(s) =>
        match BuildAll(c, ids[1..], o)
        case Failure(e) => Failure(e)
        case Success(rest) => Success([s] + rest)
  }

  /** The error of a failed build is that of the first ID whose lookup fails. */
  lemma {:induction false} BuildAllFirstError(c: Client, ids: seq<int64>, o: Options, k: nat)
    requires k < |ids| && Lookup(c, ids[k], o).Failure?
    requires forall j :: 0 <= j < k ==> Lookup(c, ids[j], o).Success?
    ensures BuildAll(c, ids, o) == Failure(Lookup(c, ids[k], o).error)
    decreases k
  {
    if k > 0 {
      forall j | 0 <= j < k - 1
        ensures Lookup(c, ids[1..][j], o).Success?
      {
        assert ids[1..][j] == ids[j + 1];
      }
      BuildAllFirstError(c, ids[1..], o, k - 1);
    }
  }

  /** `NewMigration`: nil options mean the zero options. */
  function NewMigration(c: Client, ids: seq<int64>, options: Option<Options>): (r: Result<Migration, Error>)
    ensures r.Success? ==>
      && r.value.working == []
      && r.value.maxWorkerCount == (if options.Some? then options.value.maxWorkerCount else 0)
      && |r.value.status| == |ids|
      && forall i :: 0 <= i < |ids| ==> r.value.status[i].targetServerID == ids[i] && r.value.status[i].err.None?
  {
    var o := if options.Some? then options.value else DefaultOptions;
    match BuildAll(c, ids, o)
    case Failure(e) => Failure(e)
    case Success(status) =>
      assert forall i :: 0 <= i < |ids| ==> Lookup(c, ids[i], o) == Success(status[i]);
      Success(Migration(status, [], o.maxWorkerCount))
  }

  /** `NewMigration` succeeds exactly when both lookups succeed for every ID;
      each status is then the fresh status of the server read for its ID,
      and otherwise the error is that of the first failing ID. */
  lemma NewMigrationOutcome(c: Client, ids: seq<int64>, options: Option<Options>)
    ensures var o := if options.Some? then options.value else DefaultOptions;
      var r := NewMigration(c, ids, options);
      && (r.Success? <==> forall i :: 0 <= i < |ids| ==> Lookup(c, ids[i], o).Success?)
      && (r.Success? ==> forall i :: 0 <= i < |ids| ==>
            && c.serverByID(ids[i]).Success?
            && var server := c.serverByID(ids[i]).value;
            && c.findServerPlan(server.cpu, server.memoryGB).Success?
            && r.value.status[i] == NewServerStatus(ids[i], server, c.findServerPlan(server.cpu, server.memoryGB).value, o))
  {
    var o := if options.Some? then options.value else DefaultOptions;
    var b := BuildAll(c, ids, o);
    if b.Success? {
      forall i | 0 <= i < |ids|
        ensures c.serverByID(ids[i]).Success?
        ensures var server := c.serverByID(ids[i]).value;
          && c.findServerPlan(server.cpu, server.memoryGB).Success?
          && b.value[i] == NewServerStatus(ids[i], server, c.findServerPlan(server.cpu, server.memoryGB).value, o)
      {
        LookupOutcome(c, ids[i], o);
      }
    }
  }

  lemma NewMigrationFirstError(c: Client, ids: seq<int64>, options: Option<Options>, k: nat)
    requires var o := if options.Some? then options.value else DefaultOptions;
      && k < |ids| && Lookup(c, ids[k], o).Failure?
      && forall j :: 0 <= j < k ==> Lookup(c, ids[j], o).Success?
    ensures var o := if options.Some? then options.value else DefaultOptions;
      NewMigration(c, ids, options) == Failure(Lookup(c, ids[k], o).error)
  {
    var o := if options.Some? then options.value else DefaultOptions;
    BuildAllFirstError(c, ids, o, k);
  }

  // ---------------------------------------------------------------------------
  // Servers with errors

  /** The positions from `k` on whose server carries an error. */
  function ErrorsFrom(status: seq<ServerStatus>, k: nat): (r: seq<nat>)
    requires k <= |status|
    ensures forall i :: 0 <= i < |r| ==> k <= r[i] < |status| && status[r[i]].err.Some?
    ensures forall i, j :: 0 <= i < j < |r| ==> r[i] < r[j]
    ensures forall n :: k <= n < |status| && status[n].err.Some? ==> n in r
    decreases |status| - k
  {
    if k == |status| then []
    else if status[k].err.Some? then [k] + ErrorsFrom(status, k + 1)
    else ErrorsFrom(status, k + 1)
  }

  /** `HasErrors`: the servers with an error, in the original order, each once. */
  function HasErrors(m: Migration): (r: seq<nat>)
    ensures forall i, j :: 0 <= i < j < |r| ==> r[i] < r[j]
    ensures forall n: nat :: n in r <==> n < |m.status| && m.status[n].err.Some?
  {
    ErrorsFrom(m.status, 0)
  }

  // ---------------------------------------------------------------------------
  // The working set

  /** `Working`: the servers being worked on, in the order they were added. */
  function Working(m: Migration): seq<nat> {
    m.working
  }

  /** `addWorking`: appends the server. */
  function AddWorking(m: Migration, i: nat): (r: Migration)
    ensures r.status == m.status && r.maxWorkerCount == m.maxWorkerCount
    ensures |r.working| == |m.working| + 1 && r.working[..|m.working|] == m.working && r.working[|m.working|] == i
  {
    m.(working := m.working + [i])
  }

  /** `w` with every occurrence of `x` removed and the rest in order. */
  function Without(w: seq<nat>, x: nat): (r: seq<nat>)
    ensures x !in r
    ensures forall y :: y != x ==> multiset(r)[y] == multiset(w)[y]
    decreases |w|
  {
    if |w| == 0 then []
    else
      assert w == w[..|w| - 1] + [w[|w| - 1]];
      if w[|w| - 1] == x then Without(w[..|w| - 1], x)
    else Without(w[..|w| - 1], x) + [w[|w| - 1]]
  }

  /** Removal keeps the order of what remains: it distributes over concatenation. */
  lemma {:induction false} WithoutConcat(v: seq<nat>, w: seq<nat>, x: nat)
    ensures Without(v + w, x) == Without(v, x) + Without(w, x)
    decreases |w|
  {
    if |w| > 0 {
      var u := v + w;
      assert u[..|u| - 1] == v + w[..|w| - 1];
      WithoutConcat(v, w[..|w| - 1], x);
    } else {
      assert v + w == v;
    }
  }

  /** Removing an absent server changes nothing. */
  lemma {:induction false} WithoutAbsent(w: seq<nat>, x: nat)
    requires x !in w
    ensures Without(w, x) == w
    decreases |w|
  {
    if |w| > 0 {
      assert x !in w[..|w| - 1];
      WithoutAbsent(w[..|w| - 1], x);
    }
  }

  /** `removeWorking`: drops the server, keeping the others in order. */
  function RemoveWorking(m: Migration, i: nat): (r: Migration)
    ensures r.status == m.status && r.maxWorkerCount == m.maxWorkerCount
    ensures i !in r.working
    ensures forall y :: y != i ==> multiset(r.working)[y] == multiset(m.working)[y]
  {
    m.(working := Without(m.working, i))
  }

  /** `Working` sees every change of the working set: a server appears at
      the end once added, and is gone once removed while the others stay. */
  lemma WorkingTracksChanges(m: Migration, i: nat)
    ensures Working(AddWorking(m, i)) == Working(m) + [i]
    ensures i !in Working(RemoveWorking(m, i))
    ensures forall y :: y != i ==> multiset(Working(RemoveWorking(m, i)))[y] == multiset(Working(m))[y]
  {
    var r := AddWorking(m, i);
    assert r.working == r.working[..|m.working|] + [r.working[|m.working|]];
  }

  /** Removing a server right after adding it undoes the addition, and also
      drops any earlier entry for the same server. */
  lemma AddRemoveRoundTrip(m: Migration, i: nat)
    ensures RemoveWorking(AddWorking(m, i), i) == RemoveWorking(m, i)
    ensures i !in m.working ==> RemoveWorking(AddWorking(m, i), i) == m
  {
    WithoutConcat(m.working, [i], i);
    assert Without([i], i) == [];
    if i !in m.working {
      WithoutAbsent(m.working, i);
    }
  }

  // ---------------------------------------------------------------------------
  // Apply

  /** `Apply` with one worker: each server is added to the working set, run
      through the pipeline and removed again, in order. `clock(i)` gives the
      times at which server `i`'s stages start. Every server ends exactly as
      its own run leaves it, whatever the other servers do; the errors
      afterwards are those the servers had plus those of the failed runs, and
      the working set is empty again. */
  method Apply(m: Migration, c: Client, clock: nat -> Stage -> int) returns (r: Migration)
    requires m.maxWorkerCount >= 1
    requires m.working == []
    requires forall i :: 0 <= i < |m.status| ==> Ready(m.status[i])
    ensures r.working == [] && r.maxWorkerCount == m.maxWorkerCount
    ensures |r.status| == |m.status|
    ensures forall i :: 0 <= i < |m.status| ==> r.status[i] == ApplyServer(m.status[i], c, clock(i)).status
  {
    var cur := m;
    var k := 0;
    while k < |m.status|
      invariant 0 <= k <= |m.status|
      invariant cur.working == [] && cur.maxWorkerCount == m.maxWorkerCount
      invariant |cur.status| == |m.status|
      invariant forall i :: 0 <= i < k ==> cur.status[i] == ApplyServer(m.status[i], c, clock(i)).status
      invariant forall i :: k <= i < |m.status| ==> cur.status[i] == m.status[i]
    {
      cur := AddWorking(cur, k);
      assert |cur.working| == 1 <= m.maxWorkerCount;
      var run := ApplyServer(m.status[k], c, clock(k));
      var done := cur.status[k := run.status];
      AddRemoveRoundTrip(Migration(done, [], cur.maxWorkerCount), k);
      cur := RemoveWorking(cur.(status := done), k);
      k := k + 1;
    }
    r := cur;
  }

  /** After `Apply`, the servers with errors are those that had one before
      and those whose own run failed at some stage. */
  lemma ApplyErrors(m: Migration, r: Migration, c: Client, clock: nat -> Stage -> int)
    requires forall i :: 0 <= i < |m.status| ==> Ready(m.status[i])
    requires |r.status| == |m.status|
    requires forall i :: 0 <= i < |m.status| ==> r.status[i] == ApplyServer(m.status[i], c, clock(i)).status
    ensures forall n: nat :: n in HasErrors(r) <==>
      n < |m.status| && (m.status[n].err.Some? || ApplyServer(m.status[n], c, clock(n)).failedAt.Some?)
  {
  }
}
