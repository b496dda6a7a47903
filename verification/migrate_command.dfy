/** The `migrate` command (command/funcs/migrate_migrate.go): the pre-flight
    check of every target server, the options handed to the engine, the run
    itself, and the table rows that show a server's progress. Log-file
    creation and terminal rendering are not modelled. */
module MigrateCommand {
  import opened Basics
  import opened Decimal
  import opened Steps
  import opened Iaas
  import opened Status
  import opened Pipeline
  import opened Migration

  /** The command's parameters that reach the engine. */
  datatype MigrateParams = MigrateParams(ids: seq<int64>, disableReboot: bool, cleanupDisk: bool)

  /** Why the command gives up before migrating anything. `MigrateFailed`
      wraps an error of the cloud API (`Migrate is failed: ...`);
      `AlreadyGen2` is reported for every generation other than gen1. */
  datatype CommandError = MigrateFailed(error: Error) | NoDisks(serverID: int64) | AlreadyGen2(serverID: int64)

  // ---------------------------------------------------------------------------
  // Pre-flight check

  /** A server the engine can migrate: it can be read, has a disk and is on a gen1 plan. */
  predicate Eligible(c: Client, id: int64) {
    c.serverByID(id).Success? && |c.serverByID(id).value.disks| > 0 && c.serverByID(id).value.generation == PlanG1
  }

  /** The check of one target server. */
  function CheckServer(c: Client, id: int64): (r: Option<CommandError>)
    ensures r.None? <==> Eligible(c, id)
    ensures c.serverByID(id).Failure? ==> r == Some(MigrateFailed(c.serverByID(id).error))
    ensures c.serverByID(id).Success? && |c.serverByID(id).value.disks| == 0 ==> r == Some(NoDisks(id))
    ensures c.serverByID(id).Success? && |c.serverByID(id).value.disks| > 0 && c.serverByID(id).value.generation != PlanG1 ==>
      r == Some(AlreadyGen2(id))
  {
    match c.serverByID(id)
    case Failure(e) => Some(MigrateFailed(e))
    case Success(server) =>
      if |server.disks| == 0 then Some(NoDisks(id))
      else if server.generation != PlanG1 then Some(AlreadyGen2(id))
      else None
  }

  /** The pre-flight loop: the first target that fails its check stops the command. */
  function Preflight(c: Client, ids: seq<int64>): (r: Option<CommandError>)
    ensures r.None? <==> forall i :: 0 <= i < |ids| ==> Eligible(c, ids[i])
    decreases |ids|
  {
    if |ids| == 0 then None
    else
      match CheckServer(c, ids[0])
      case Some(e) => Some(e)
      case None =>
        var rest := Preflight(c, ids[1..]);
        assert forall i :: 1 <= i < |ids| ==> ids[i] == ids[1..][i - 1];
        rest
  }

  /** The reported error is that of the first target that fails its check. */
  lemma {:induction false} PreflightFirstFailure(c: Client, ids: seq<int64>, k: nat)
    requires k < |ids| && !Eligible(c, ids[k])
    requires forall j :: 0 <= j < k ==> Eligible(c, ids[j])
    ensures Preflight(c, ids) == CheckServer(c, ids[k])
    decreases k
  {
    if k > 0 {
      forall j | 0 <= j < k - 1
        ensures Eligible(c, ids[1..][j])
      {
        assert ids[1..][j] == ids[j + 1];
      }
      PreflightFirstFailure(c, ids[1..], k - 1);
    }
  }

  /** The options the command gives the engine: up to ten workers and a logger. */
  function MigrateOptions(p: MigrateParams): Options {
    Options(p.disableReboot, p.cleanupDisk, 10, true)
  }

  /** Everything before the run: the pre-flight check, then the engine's own
      build. A prepared migration can be run: every server has its disk
      connection steps, there are workers, and nobody is being worked on. */
  function Prepare(c: Client, p: MigrateParams): (r: Result<Migration, CommandError>)
    ensures r.Success? ==>
      && |r.value.status| == |p.ids|
      && r.value.working == []
      && r.value.maxWorkerCount == 10
      && forall i :: 0 <= i < |r.value.status| ==> Ready(r.value.status[i])
    ensures Preflight(c, p.ids).Some? ==> r == Failure(Preflight(c, p.ids).value)
    ensures Preflight(c, p.ids).None? && NewMigration(c, p.ids, Some(MigrateOptions(p))).Failure? ==>
      r == Failure(MigrateFailed(NewMigration(c, p.ids, Some(MigrateOptions(p))).error))
  {
    match Preflight(c, p.ids)
    case Some(e) => Failure(e)
    case None =>
      match NewMigration(c, p.ids, Some(MigrateOptions(p)))
      case Failure(e) => Failure(MigrateFailed(e))
      case Success(m) =>
        PreparedIsReady(c, p, m);
        Success(m)
  }

  /** Statuses built for eligible servers all carry both disk connection steps. */
  lemma PreparedIsReady(c: Client, p: MigrateParams, m: Migration)
    requires Preflight(c, p.ids).None?
    requires NewMigration(c, p.ids, Some(MigrateOptions(p))) == Success(m)
    ensures forall i :: 0 <= i < |m.status| ==> Ready(m.status[i])
  {
    NewMigrationOutcome(c, p.ids, Some(MigrateOptions(p)));
    forall i | 0 <= i < |m.status|
      ensures Ready(m.status[i])
    {
      assert Eligible(c, p.ids[i]);
      var server := c.serverByID(p.ids[i]).value;
      var plan := c.findServerPlan(server.cpu, server.memoryGB).value;
      NewServerStatusShowsPlannedWork(p.ids[i], server, plan, MigrateOptions(p), 0);
    }
  }

  /** The statuses of a prepared migration follow the command's flags: boot
      is skipped exactly when reboot is disabled, and the original disks are
      deleted exactly when cleanup is asked for. */
  lemma PrepareFollowsFlags(c: Client, p: MigrateParams, now: int)
    ensures var r := Prepare(c, p);
      r.Success? ==> forall i :: 0 <= i < |r.value.status| ==>
        && BootStatus(r.value.status[i], now) == (if p.disableReboot then StatusDisabled else StatusWaiting)
        && forall j :: 0 <= j < |r.value.status[i].disks| ==>
             DeleteStatus(r.value.status[i].disks[j], now) == (if p.cleanupDisk then StatusWaiting else StatusDisabled)
  {
    var r := Prepare(c, p);
    if r.Success? {
      NewMigrationOutcome(c, p.ids, Some(MigrateOptions(p)));
      forall i | 0 <= i < |r.value.status|
        ensures BootStatus(r.value.status[i], now) == (if p.disableReboot then StatusDisabled else StatusWaiting)
        ensures forall j :: 0 <= j < |r.value.status[i].disks| ==>
          DeleteStatus(r.value.status[i].disks[j], now) == (if p.cleanupDisk then StatusWaiting else StatusDisabled)
      {
        var server := c.serverByID(p.ids[i]).value;
        var plan := c.findServerPlan(server.cpu, server.memoryGB).value;
        NewServerStatusShowsPlannedWork(p.ids[i], server, plan, MigrateOptions(p), now);
      }
    }
  }

  /** `MigrateMigrate` without its output: prepare, then run every server
      through the pipeline. The preparation guarantees what the run needs. */
  method MigrateMigrate(c: Client, p: MigrateParams, clock: nat -> Stage -> int) returns (r: Result<Migration, CommandError>)
    ensures Prepare(c, p).Failure? ==> r == Prepare(c, p)
    ensures Prepare(c, p).Success? ==>
      && r.Success?
      && |r.value.status| == |p.ids|
      && r.value.working == []
      && forall i :: 0 <= i < |p.ids| ==>
           r.value.status[i] == ApplyServer(Prepare(c, p).value.status[i], c, clock(i)).status
  {
    var prepared := Prepare(c, p);
    if prepared.Failure? {
      return prepared;
    }
    var m := Apply(prepared.value, c, clock);
    return Success(m);
  }

  // ---------------------------------------------------------------------------
  // Table rows

  const Header: seq<string> := ["Server", "Shutdown", "Disk", "PlanChange", "Boot", "Cleanup"]

  /** The row of one disk: the server's cells around that disk's clone and delete cells. */
  function Row(s: ServerStatus, d: DiskStatus, now: int): seq<string> {
    [ServerID(s), ShutdownStatus(s, now), CloneStatus(d, now), MigrationStatus(s, now), BootStatus(s, now), DeleteStatus(d, now)]
  }

  function Rows(s: ServerStatus, disks: seq<DiskStatus>, now: int): (rows: seq<seq<string>>)
    ensures |rows| == |disks|
    ensures forall i :: 0 <= i < |rows| ==> rows[i] == Row(s, disks[i], now)
    decreases |disks|
  {
    if |disks| == 0 then [] else Rows(s, disks[..|disks| - 1], now) + [Row(s, disks[|disks| - 1], now)]
  }

  /** `buildOutputDataFromStatus`: one row per disk, in disk order, each
      with a cell per header column: the server's ID (which reads back as
      the target ID), its shutdown status, the disk's clone status, the plan
      change and boot statuses, and the disk's delete status. */
  function BuildOutputDataFromStatus(s: ServerStatus, now: int): (rows: seq<seq<string>>)
    ensures |rows| == |s.disks|
    ensures forall i :: 0 <= i < |rows| ==>
      && |rows[i]| == |Header|
      && ParseInt64(rows[i][0]) == Some(s.targetServerID)
      && rows[i][1] == Steps.Status(s.shutdown, now)
      && rows[i][2] == CloneStatus(s.disks[i], now)
      && rows[i][3] == Steps.Status(s.planMigrate, now)
      && rows[i][4] == Steps.Status(s.boot, now)
      && rows[i][5] == Steps.Status(s.disks[i].delete, now)
  {
    Rows(s, s.disks, now)
  }

  /** The server-level cells are the same on every row of a server; only
      the disk cells differ. */
  lemma ServerCellsAgree(s: ServerStatus, now: int, i: nat, j: nat)
    requires i < |s.disks| && j < |s.disks|
    ensures var rows := BuildOutputDataFromStatus(s, now);
      && rows[i][0] == rows[j][0]
      && rows[i][1] == rows[j][1]
      && rows[i][3] == rows[j][3]
      && rows[i][4] == rows[j][4]
  {
    var rows := BuildOutputDataFromStatus(s, now);
    assert rows[i] == Row(s, s.disks[i], now) && rows[j] == Row(s, s.disks[j], now);
  }
}
