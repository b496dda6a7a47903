/** The per-server pipeline of migrate/migrate.go: seven stages run in a fixed
    order, each wrapped by `handleSteps`, the first failure ending the run.
    The concurrent clone fan-out is modelled as a sequential drain of each
    disk's progress stream, in disk order. */
module Pipeline {
  import opened Basics
  import opened Steps
  import opened Iaas
  import opened Status

  datatype Stage =
    | ShutdownStage
    | DisconnectStage
    | CloneStage
    | PlanStage
    | ConnectStage
    | BootStage
    | DeleteStage

  /** The order in which `applyServer` runs the stages. */
  const Stages: seq<Stage> :=
    [ShutdownStage, DisconnectStage, CloneStage, PlanStage, ConnectStage, BootStage, DeleteStage]

  /** The stage at position `k` of `Stages`. */
  function StageAt(k: nat): (stage: Stage)
    requires k < |Stages|
    ensures stage == Stages[k] && StageIndex(stage) == k
  {
    match k
    case 0 => ShutdownStage
    case 1 => DisconnectStage
    case 2 => CloneStage
    case 3 => PlanStage
    case 4 => ConnectStage
    case 5 => BootStage
    case _ => DeleteStage
  }

  function StageIndex(stage: Stage): (k: nat)
    ensures k < |Stages|
  {
    match stage
    case ShutdownStage => 0
    case DisconnectStage => 1
    case CloneStage => 2
    case PlanStage => 3
    case ConnectStage => 4
    case BootStage => 5
    case DeleteStage => 6
  }

  /** The stage that issues a given kind of request. */
  function CallStage(call: Call): Stage {
    match call
    case CallShutdown(_) => ShutdownStage
    case CallDisconnectDisks(_) => DisconnectStage
    case CallCloneDisk(_) => CloneStage
    case CallChangePlan(_, _) => PlanStage
    case CallConnectDisks(_, _) => ConnectStage
    case CallBoot(_) => BootStage
    case CallDeleteDisk(_) => DeleteStage
  }

  predicate CallsOf(calls: seq<Call>, stage: Stage) {
    forall i :: 0 <= i < |calls| ==> CallStage(calls[i]) == stage
  }

  /** The connect and disconnect steps exist; they are nil for a server
      without disks, and `applyServer` would dereference them. */
  predicate Ready(s: ServerStatus) {
    s.disconnect.Some? && s.connect.Some?
  }

  /** The step group `applyServer` hands to `handleSteps` for a stage. */
  function StageSteps(s: ServerStatus, stage: Stage): seq<Step>
    requires Ready(s)
  {
    match stage
    case ShutdownStage => [s.shutdown]
    case DisconnectStage => [s.disconnect.value]
    case CloneStage => CloneDiskSteps(s)
    case PlanStage => [s.planMigrate]
    case ConnectStage => [s.connect.value]
    case BootStage => [s.boot]
    case DeleteStage => DeleteDiskSteps(s)
  }

  /** The step groups other than `stage` are the same in `s` and `r`. */
  predicate OtherGroupsUnchanged(s: ServerStatus, r: ServerStatus, stage: Stage)
    requires Ready(s) && Ready(r)
  {
    && (stage != ShutdownStage ==> r.shutdown == s.shutdown)
    && (stage != DisconnectStage ==> r.disconnect == s.disconnect)
    && (stage != CloneStage ==> CloneDiskSteps(r) == CloneDiskSteps(s))
    && (stage != PlanStage ==> r.planMigrate == s.planMigrate)
    && (stage != ConnectStage ==> r.connect == s.connect)
    && (stage != BootStage ==> r.boot == s.boot)
    && (stage != DeleteStage ==> DeleteDiskSteps(r) == DeleteDiskSteps(s))
  }

  lemma OtherGroupUnchanged(s: ServerStatus, r: ServerStatus, stage: Stage, other: Stage)
    requires Ready(s) && Ready(r) && OtherGroupsUnchanged(s, r, stage) && other != stage
    ensures StageSteps(r, other) == StageSteps(s, other)
  {
  }

  /** Two disks agree on everything but their clone step and clone progress. */
  predicate SameDiskIdentity(a: DiskStatus, b: DiskStatus) {
    a.originalID == b.originalID && a.sizeMB == b.sizeMB && a.delete == b.delete
  }

  // ---------------------------------------------------------------------------
  // Step groups

  function MapDiskClones(disks: seq<DiskStatus>, op: StepOp): (r: seq<DiskStatus>)
    ensures |r| == |disks|
    ensures forall i :: 0 <= i < |r| ==> r[i] == disks[i].(clone := ApplyOp(disks[i].clone, op))
    decreases |disks|
  {
    if |disks| == 0 then []
    else
      var d := disks[|disks| - 1];
      MapDiskClones(disks[..|disks| - 1], op) + [d.(clone := ApplyOp(d.clone, op))]
  }

  function MapDiskDeletes(disks: seq<DiskStatus>, op: StepOp): (r: seq<DiskStatus>)
    ensures |r| == |disks|
    ensures forall i :: 0 <= i < |r| ==> r[i] == disks[i].(delete := ApplyOp(disks[i].delete, op))
    decreases |disks|
  {
    if |disks| == 0 then []
    else
      var d := disks[|disks| - 1];
      MapDiskDeletes(disks[..|disks| - 1], op) + [d.(delete := ApplyOp(d.delete, op))]
  }

  /** One of the loops of `handleSteps`: the operation applied to every step
      of the stage's group (`UpdateStepsGroups` states that it touches
      nothing else). */
  function UpdateSteps(s: ServerStatus, stage: Stage, op: StepOp): (r: ServerStatus)
    requires Ready(s)
    ensures Ready(r)
    ensures r.err == s.err && r.migratedServerID == s.migratedServerID
    ensures r.targetServerID == s.targetServerID && r.newPlan == s.newPlan
    ensures |r.disks| == |s.disks|
    ensures forall i :: 0 <= i < |s.disks| ==>
      r.disks[i].originalID == s.disks[i].originalID && r.disks[i].clonedID == s.disks[i].clonedID
  {
    match stage
    case ShutdownStage => s.(shutdown := ApplyOp(s.shutdown, op))
    case DisconnectStage => s.(disconnect := Some(ApplyOp(s.disconnect.value, op)))
    case CloneStage => s.(disks := MapDiskClones(s.disks, op))
    case PlanStage => s.(planMigrate := ApplyOp(s.planMigrate, op))
    case ConnectStage => s.(connect := Some(ApplyOp(s.connect.value, op)))
    case BootStage => s.(boot := ApplyOp(s.boot, op))
    case DeleteStage => s.(disks := MapDiskDeletes(s.disks, op))
  }

  /** The operation reaches every step of the stage's group and no step of
      any other group. */
  lemma UpdateStepsGroups(s: ServerStatus, stage: Stage, op: StepOp)
    requires Ready(s)
    ensures var r := UpdateSteps(s, stage, op);
      && |StageSteps(r, stage)| == |StageSteps(s, stage)|
      && (forall i :: 0 <= i < |StageSteps(s, stage)| ==> StageSteps(r, stage)[i] == ApplyOp(StageSteps(s, stage)[i], op))
      && OtherGroupsUnchanged(s, r, stage)
  {
    match stage
    case CloneStage => UpdateClones(s, op);
    case DeleteStage => UpdateDeletes(s, op);
    case _ =>
  }

  lemma UpdateClones(s: ServerStatus, op: StepOp)
    requires Ready(s)
    ensures var r := s.(disks := MapDiskClones(s.disks, op));
      && DeleteDiskSteps(r) == DeleteDiskSteps(s)
      && forall i :: 0 <= i < |s.disks| ==> CloneDiskSteps(r)[i] == ApplyOp(CloneDiskSteps(s)[i], op)
  {
    var r := s.(disks := MapDiskClones(s.disks, op));
    assert forall i :: 0 <= i < |s.disks| ==> DeleteDiskSteps(r)[i] == DeleteDiskSteps(s)[i];
  }

  lemma UpdateDeletes(s: ServerStatus, op: StepOp)
    requires Ready(s)
    ensures var r := s.(disks := MapDiskDeletes(s.disks, op));
      && CloneDiskSteps(r) == CloneDiskSteps(s)
      && forall i :: 0 <= i < |s.disks| ==> DeleteDiskSteps(r)[i] == ApplyOp(DeleteDiskSteps(s)[i], op)
  {
    var r := s.(disks := MapDiskDeletes(s.disks, op));
    assert forall i :: 0 <= i < |s.disks| ==> CloneDiskSteps(r)[i] == CloneDiskSteps(s)[i];
  }

  // ---------------------------------------------------------------------------
  // Stage functions

  /** What a stage function did: the updated status, the requests it issued
      in order, and the error it returned (`None` for nil). */
  datatype StageRun = StageRun(status: ServerStatus, calls: seq<Call>, err: Option<Error>)

  /** `shutdownServer`. */
  function ShutdownServer(s: ServerStatus, c: Client): (run: StageRun)
    ensures run.status == s.(shutdown := run.status.shutdown)
    ensures !s.shutdown.needProcess ==> run == StageRun(s, [], None)
    ensures s.shutdown.needProcess ==>
      run.calls == [CallShutdown(s.targetServerID)] && run.err == c.shutdown(s.targetServerID)
    ensures run.err.Some? ==> run.status.shutdown == SetError(s.shutdown, run.err.value)
    ensures run.err.None? ==> run.status == s
  {
    if s.shutdown.needProcess then
      match c.shutdown(s.targetServerID)
      case Some(e) => StageRun(s.(shutdown := SetError(s.shutdown, e)), [CallShutdown(s.targetServerID)], Some(e))
      case None => StageRun(s, [CallShutdown(s.targetServerID)], None)
    else StageRun(s, [], None)
  }

  /** `disconnectDisks`. */
  function DisconnectDisks(s: ServerStatus, c: Client): (run: StageRun)
    requires Ready(s)
    ensures Ready(run.status)
    ensures run.status == s.(disconnect := run.status.disconnect)
    ensures !s.disconnect.value.needProcess ==> run == StageRun(s, [], None)
    ensures s.disconnect.value.needProcess ==>
      run.calls == [CallDisconnectDisks(s.targetServerID)] && run.err == c.disconnectDisks(s.targetServerID)
    ensures run.err.Some? ==> run.status.disconnect.value == SetError(s.disconnect.value, run.err.value)
    ensures run.err.None? ==> run.status == s
  {
    var step := s.disconnect.value;
    if step.needProcess then
      match c.disconnectDisks(s.targetServerID)
      case Some(e) => StageRun(s.(disconnect := Some(SetError(step, e))), [CallDisconnectDisks(s.targetServerID)], Some(e))
      case None => StageRun(s, [CallDisconnectDisks(s.targetServerID)], None)
    else StageRun(s, [], None)
  }

  /** What one disk's clone did. */
  datatype DiskRun = DiskRun(disk: DiskStatus, calls: seq<Call>, err: Option<Error>)

  /** The receive loop of one clone goroutine. A disk event overwrites the
      cloned ID and the migrated size; an error event records the error on
      the clone step and ends the loop; the channel closing after a disk
      event (`last`) stores that disk once more and finalizes the clone step. */
  function Drain(d: DiskStatus, events: seq<CloneEvent>, last: Option<CloneEvent>): (r: DiskRun)
    requires last.Some? ==> last.value.DiskEvent?
    requires last.Some? || |events| > 0
    ensures r.calls == []
    ensures SameDiskIdentity(d, r.disk)
    ensures r.disk.clone.needProcess == d.clone.needProcess && r.disk.clone.started == d.clone.started
    decreases |events|
  {
    if |events| == 0 then
      var newDisk := last.value;
      DiskRun(d.(clonedID := newDisk.id, migratedMB := newDisk.migratedMB, clone := Finalize(d.clone)), [], None)
    else
      match events[0]
      case DiskEvent(id, mb) =>
        Drain(d.(clonedID := id, migratedMB := mb), events[1..], Some(events[0]))
      case ErrorEvent(e) =>
        DiskRun(d.(clone := SetError(d.clone, e)), [], Some(e))
  }

  /** One disk of `cloneDisks`: request the copy, then drain its progress. */
  function CloneOneDisk(d: DiskStatus, c: Client): (r: DiskRun)
    ensures SameDiskIdentity(d, r.disk)
    ensures r.calls == if d.clone.needProcess then [CallCloneDisk(d.originalID)] else []
    ensures !d.clone.needProcess ==> r == DiskRun(d, [], None)
    ensures d.clone.needProcess && c.cloneDisk(d.originalID).Failure? ==>
      var e := c.cloneDisk(d.originalID).error;
      r == DiskRun(d.(clone := SetError(d.clone, e)), [CallCloneDisk(d.originalID)], Some(e))
    ensures d.clone.needProcess && c.cloneDisk(d.originalID).Success? ==>
      var drained := Drain(d, c.cloneDisk(d.originalID).value, None);
      r.disk == drained.disk && r.err == drained.err
    ensures r.disk.clone.started == d.clone.started
    ensures EnablementKept(d.clone, r.disk.clone)
  {
    if d.clone.needProcess then
      match c.cloneDisk(d.originalID)
      case Failure(e) => DiskRun(d.(clone := SetError(d.clone, e)), [CallCloneDisk(d.originalID)], Some(e))
      case Success(events) =>
        var drained := Drain(d, events, None);
        DiskRun(drained.disk, [CallCloneDisk(d.originalID)], drained.err)
    else DiskRun(d, [], None)
  }

  /** A progress stream of disk events only: the disk takes the ID and the
      migrated size of the last event and its clone step is finalized. */
  lemma {:induction false} DrainSucceeds(d: DiskStatus, events: seq<CloneEvent>, last: Option<CloneEvent>)
    requires last.Some? ==> last.value.DiskEvent?
    requires last.Some? || |events| > 0
    requires forall i :: 0 <= i < |events| ==> events[i].DiskEvent?
    ensures var final := if |events| > 0 then events[|events| - 1] else last.value;
      Drain(d, events, last) ==
        DiskRun(d.(clonedID := final.id, migratedMB := final.migratedMB, clone := Finalize(d.clone)), [], None)
    decreases |events|
  {
    if |events| > 0 {
      var next := d.(clonedID := events[0].id, migratedMB := events[0].migratedMB);
      assert forall i :: 0 <= i < |events[1..]| ==> events[1..][i] == events[i + 1];
      DrainSucceeds(next, events[1..], Some(events[0]));
    }
  }

  /** At the first error event of the stream the loop stops: the error is
      recorded on the clone step and returned, and the disk keeps the ID and
      size of the disk event just before it (or its own when there is none). */
  lemma {:induction false} DrainFails(d: DiskStatus, events: seq<CloneEvent>, last: Option<CloneEvent>, k: nat)
    requires last.Some? ==> last.value.DiskEvent?
    requires k < |events| && events[k].ErrorEvent?
    requires forall i :: 0 <= i < k ==> events[i].DiskEvent?
    ensures var seen := if k > 0 then d.(clonedID := events[k - 1].id, migratedMB := events[k - 1].migratedMB) else d;
      Drain(d, events, last) == DiskRun(seen.(clone := SetError(d.clone, events[k].error)), [], Some(events[k].error))
    decreases k
  {
    if k > 0 {
      var next := d.(clonedID := events[0].id, migratedMB := events[0].migratedMB);
      assert forall i :: 0 <= i < |events[1..]| ==> events[1..][i] == events[i + 1];
      DrainFails(next, events[1..], Some(events[0]), k - 1);
    }
  }

  /** The drain fails exactly when the stream holds an error event, and the
      error it returns is the one left on the clone step. */
  lemma {:induction false} DrainErrors(d: DiskStatus, events: seq<CloneEvent>, last: Option<CloneEvent>)
    requires last.Some? ==> last.value.DiskEvent?
    requires last.Some? || |events| > 0
    ensures var r := Drain(d, events, last);
      && (r.err.Some? <==> exists k :: 0 <= k < |events| && events[k].ErrorEvent?)
      && (r.err.Some? ==> r.disk.clone.err == r.err)
    decreases |events|
  {
    if |events| > 0 {
      if events[0].DiskEvent? {
        var next := d.(clonedID := events[0].id, migratedMB := events[0].migratedMB);
        DrainErrors(next, events[1..], Some(events[0]));
        assert forall k :: 1 <= k < |events| ==> events[k] == events[1..][k - 1];
      } else {
        assert events[0].ErrorEvent?;
      }
    }
  }

  /** Cloning one disk fails exactly when its clone step is enabled and
      either the request fails or the progress stream delivers an error; the
      error returned is then the one set on the clone step. */
  lemma CloneOneDiskFails(d: DiskStatus, c: Client)
    ensures var r := CloneOneDisk(d, c);
      && (r.err.Some? <==>
            d.clone.needProcess &&
            (c.cloneDisk(d.originalID).Failure? ||
             exists k :: 0 <= k < |c.cloneDisk(d.originalID).value| && c.cloneDisk(d.originalID).value[k].ErrorEvent?))
      && (r.err.Some? ==> r.disk.clone.err == r.err)
  {
    if d.clone.needProcess && c.cloneDisk(d.originalID).Success? {
      DrainErrors(d, c.cloneDisk(d.originalID).value, None);
    }
  }

  /** The clone requests for `disks`: one per clone-enabled disk, in disk order. */
  function CloneRequests(disks: seq<DiskStatus>): (r: seq<Call>)
    ensures CallsOf(r, CloneStage)
    decreases |disks|
  {
    if |disks| == 0 then []
    else
      var tail := CloneRequests(disks[1..]);
      (if disks[0].clone.needProcess then [CallCloneDisk(disks[0].originalID)] else []) + tail
  }

  /** No clone request is issued exactly when no disk has its clone step enabled. */
  lemma {:induction false} CloneRequestsEmpty(disks: seq<DiskStatus>)
    ensures CloneRequests(disks) == [] <==> forall i :: 0 <= i < |disks| ==> !disks[i].clone.needProcess
    decreases |disks|
  {
    if |disks| > 0 {
      CloneRequestsEmpty(disks[1..]);
      assert forall i :: 1 <= i < |disks| ==> disks[1..][i - 1] == disks[i];
    }
  }

  /** What a pass over the disks did. */
  datatype DisksRun = DisksRun(disks: seq<DiskStatus>, calls: seq<Call>, err: Option<Error>)

  /** The clone fan-out, taken one disk after another: every disk is cloned
      and drained, and the stage's error is that of the first failing disk
      in disk order. */
  function CloneAll(disks: seq<DiskStatus>, c: Client): (r: DisksRun)
    ensures |r.disks| == |disks|
    ensures forall i :: 0 <= i < |disks| ==> r.disks[i] == CloneOneDisk(disks[i], c).disk
    ensures r.calls == CloneRequests(disks)
    decreases |disks|
  {
    if |disks| == 0 then DisksRun([], [], None)
    else
      var head := CloneOneDisk(disks[0], c);
      var tail := CloneAll(disks[1..], c);
      var r := DisksRun([head.disk] + tail.disks, head.calls + tail.calls,
                        if head.err.Some? then head.err else tail.err);
      assert forall i :: 1 <= i < |disks| ==> r.disks[i] == tail.disks[i - 1] && disks[1..][i - 1] == disks[i];
      r
  }

  /** The clone stage succeeds exactly when every disk's clone does. */
  lemma {:induction false} CloneAllErrors(disks: seq<DiskStatus>, c: Client)
    ensures CloneAll(disks, c).err.None? <==> forall i :: 0 <= i < |disks| ==> CloneOneDisk(disks[i], c).err.None?
    decreases |disks|
  {
    if |disks| > 0 {
      var rest := disks[1..];
      assert forall j :: 0 <= j < |rest| ==> rest[j] == disks[j + 1];
      CloneAllErrors(rest, c);
      if CloneOneDisk(disks[0], c).err.None? {
        forall i | 0 <= i < |disks| && CloneAll(disks, c).err.None?
          ensures CloneOneDisk(disks[i], c).err.None?
        {
          if i > 0 {
            assert disks[i] == rest[i - 1];
          }
        }
      }
    }
  }

  /** When disk `k` is the first whose clone fails, the stage reports that
      disk's error (the other disks are still cloned and drained). */
  lemma {:induction false} CloneAllFirstError(disks: seq<DiskStatus>, c: Client, k: nat)
    requires k < |disks| && CloneOneDisk(disks[k], c).err.Some?
    requires forall j :: 0 <= j < k ==> CloneOneDisk(disks[j], c).err.None?
    ensures CloneAll(disks, c).err == CloneOneDisk(disks[k], c).err
    decreases k
  {
    if k > 0 {
      var rest := disks[1..];
      assert rest[k - 1] == disks[k];
      assert forall j :: 0 <= j < k - 1 ==> rest[j] == disks[j + 1];
      CloneAllFirstError(rest, c, k - 1);
    }
  }

  /** `cloneDisks`. */
  function CloneDisks(s: ServerStatus, c: Client): (run: StageRun)
    ensures run.status == s.(disks := run.status.disks)
    ensures |run.status.disks| == |s.disks|
    ensures forall i :: 0 <= i < |s.disks| ==> run.status.disks[i] == CloneOneDisk(s.disks[i], c).disk
    ensures run.calls == CloneRequests(s.disks)
    ensures run.err == CloneAll(s.disks, c).err
  {
    var r := CloneAll(s.disks, c);
    StageRun(s.(disks := r.disks), r.calls, r.err)
  }

  /** `migrateServerPlan`: on success the server's new identity is recorded. */
  function MigrateServerPlan(s: ServerStatus, c: Client): (run: StageRun)
    ensures run.status == s.(planMigrate := run.status.planMigrate, migratedServerID := run.status.migratedServerID)
    ensures !s.planMigrate.needProcess ==> run == StageRun(s, [], None)
    ensures s.planMigrate.needProcess ==> run.calls == [CallChangePlan(s.targetServerID, s.newPlan)]
    ensures s.planMigrate.needProcess && c.changePlan(s.targetServerID, s.newPlan).Success? ==>
      run == StageRun(s.(migratedServerID := c.changePlan(s.targetServerID, s.newPlan).value), run.calls, None)
    ensures s.planMigrate.needProcess && c.changePlan(s.targetServerID, s.newPlan).Failure? ==>
      var e := c.changePlan(s.targetServerID, s.newPlan).error;
      run.err == Some(e) && run.status == s.(planMigrate := SetError(s.planMigrate, e))
  {
    if s.planMigrate.needProcess then
      match c.changePlan(s.targetServerID, s.newPlan)
      case Failure(e) =>
        StageRun(s.(planMigrate := SetError(s.planMigrate, e)), [CallChangePlan(s.targetServerID, s.newPlan)], Some(e))
      case Success(newServerID) =>
        StageRun(s.(migratedServerID := newServerID), [CallChangePlan(s.targetServerID, s.newPlan)], None)
    else StageRun(s, [], None)
  }

  /** `connectDisks`: the clones, not the originals, go to the migrated server. */
  function ConnectDisks(s: ServerStatus, c: Client): (run: StageRun)
    requires Ready(s)
    ensures Ready(run.status)
    ensures run.status == s.(connect := run.status.connect)
    ensures !s.connect.value.needProcess ==> run == StageRun(s, [], None)
    ensures s.connect.value.needProcess ==>
      && run.calls == [CallConnectDisks(s.migratedServerID, ClonedDiskIDs(s))]
      && run.err == c.connectDisks(s.migratedServerID, ClonedDiskIDs(s))
    ensures run.err.Some? ==> run.status.connect.value == SetError(s.connect.value, run.err.value)
    ensures run.err.None? ==> run.status == s
  {
    var step := s.connect.value;
    var ids := ClonedDiskIDs(s);
    if step.needProcess then
      match c.connectDisks(s.migratedServerID, ids)
      case Some(e) => StageRun(s.(connect := Some(SetError(step, e))), [CallConnectDisks(s.migratedServerID, ids)], Some(e))
      case None => StageRun(s, [CallConnectDisks(s.migratedServerID, ids)], None)
    else StageRun(s, [], None)
  }

  /** `bootServer`: boots the migrated server. */
  function BootServer(s: ServerStatus, c: Client): (run: StageRun)
    ensures run.status == s.(boot := run.status.boot)
    ensures !s.boot.needProcess ==> run == StageRun(s, [], None)
    ensures s.boot.needProcess ==>
      run.calls == [CallBoot(s.migratedServerID)] && run.err == c.boot(s.migratedServerID)
    ensures run.err.Some? ==> run.status.boot == SetError(s.boot, run.err.value)
    ensures run.err.None? ==> run.status == s
  {
    if s.boot.needProcess then
      match c.boot(s.migratedServerID)
      case Some(e) => StageRun(s.(boot := SetError(s.boot, e)), [CallBoot(s.migratedServerID)], Some(e))
      case None => StageRun(s, [CallBoot(s.migratedServerID)], None)
    else StageRun(s, [], None)
  }

  /** The delete requests a pass over `disks` issues when none fails: the
      original IDs of the delete-enabled disks, in disk order. */
  function DeleteRequests(disks: seq<DiskStatus>): (r: seq<Call>)
    ensures CallsOf(r, DeleteStage)
    decreases |disks|
  {
    if |disks| == 0 then []
    else
      var tail := DeleteRequests(disks[1..]);
      (if disks[0].delete.needProcess then [CallDeleteDisk(disks[0].originalID)] else []) + tail
  }

  /** No delete request is issued exactly when no disk has its delete step enabled. */
  lemma {:induction false} DeleteRequestsEmpty(disks: seq<DiskStatus>)
    ensures DeleteRequests(disks) == [] <==> forall i :: 0 <= i < |disks| ==> !disks[i].delete.needProcess
    decreases |disks|
  {
    if |disks| > 0 {
      DeleteRequestsEmpty(disks[1..]);
      assert forall i :: 1 <= i < |disks| ==> disks[1..][i - 1] == disks[i];
    }
  }

  /** Whether deleting this disk fails. */
  predicate DeleteFails(d: DiskStatus, c: Client) {
    d.delete.needProcess && c.deleteDisk(d.originalID).Some?
  }

  /** The loop of `deleteDisks`: originals of delete-enabled disks are deleted
      in disk order, and the first failure ends the loop. */
  function DeleteAll(disks: seq<DiskStatus>, c: Client): (r: DisksRun)
    ensures |r.disks| == |disks|
    ensures CallsOf(r.calls, DeleteStage)
    ensures forall i :: 0 <= i < |disks| ==>
      r.disks[i] == disks[i].(delete := r.disks[i].delete) && r.disks[i].delete.started == disks[i].delete.started
    decreases |disks|
  {
    if |disks| == 0 then DisksRun([], [], None)
    else
      var d := disks[0];
      if d.delete.needProcess && c.deleteDisk(d.originalID).Some? then
        var e := c.deleteDisk(d.originalID).value;
        DisksRun(disks[0 := d.(delete := SetError(d.delete, e))], [CallDeleteDisk(d.originalID)], Some(e))
      else
        var tail := DeleteAll(disks[1..], c);
        var calls := if d.delete.needProcess then [CallDeleteDisk(d.originalID)] else [];
        var r := DisksRun([d] + tail.disks, calls + tail.calls, tail.err);
        assert forall i :: 1 <= i < |disks| ==> r.disks[i] == tail.disks[i - 1] && disks[1..][i - 1] == disks[i];
        r
  }

  /** `deleteDisks`. */
  function DeleteDisks(s: ServerStatus, c: Client): (run: StageRun)
    ensures run.status == s.(disks := run.status.disks)
    ensures |run.status.disks| == |s.disks|
    ensures forall i :: 0 <= i < |s.disks| ==>
      run.status.disks[i] == s.disks[i].(delete := run.status.disks[i].delete)
      && run.status.disks[i].delete.started == s.disks[i].delete.started
    ensures forall i :: 0 <= i < |s.disks| ==> EnablementKept(s.disks[i].delete, run.status.disks[i].delete)
    ensures CallsOf(run.calls, DeleteStage)
    ensures var loop := DeleteAll(s.disks, c);
      run.status.disks == loop.disks && run.calls == loop.calls && run.err == loop.err
  {
    var r := DeleteAll(s.disks, c);
    DeleteAllKeepsEnablement(s.disks, c);
    StageRun(s.(disks := r.disks), r.calls, r.err)
  }

  /** The loop of `deleteDisks` sets an error only on a delete-enabled disk. */
  lemma {:induction false} DeleteAllKeepsEnablement(disks: seq<DiskStatus>, c: Client)
    ensures forall i :: 0 <= i < |disks| ==> EnablementKept(disks[i].delete, DeleteAll(disks, c).disks[i].delete)
    decreases |disks|
  {
    if |disks| > 0 && !DeleteFails(disks[0], c) {
      var rest := disks[1..];
      DeleteAllKeepsEnablement(rest, c);
      DeleteAllCons(disks, c);
      forall i | 1 <= i < |disks|
        ensures EnablementKept(disks[i].delete, DeleteAll(disks, c).disks[i].delete)
      {
        assert disks[i] == rest[i - 1];
        assert DeleteAll(disks, c).disks[i] == DeleteAll(rest, c).disks[i - 1];
      }
    }
  }

  /** The stage function `applyServer` passes to `handleSteps` for a stage. */
  function RunStage(s: ServerStatus, stage: Stage, c: Client): (run: StageRun)
    requires Ready(s)
    ensures Ready(run.status)
    ensures run.status.err == s.err
    ensures |run.status.disks| == |s.disks|
    ensures CallsOf(run.calls, stage)
  {
    match stage
    case ShutdownStage => ShutdownServer(s, c)
    case DisconnectStage => DisconnectDisks(s, c)
    case CloneStage => CloneDisks(s, c)
    case PlanStage => MigrateServerPlan(s, c)
    case ConnectStage => ConnectDisks(s, c)
    case BootStage => BootServer(s, c)
    case DeleteStage => DeleteDisks(s, c)
  }

  /** A stage function changes the steps of its own group only, and none of
      their started flags. */
  lemma RunStageGroups(s: ServerStatus, stage: Stage, c: Client)
    requires Ready(s)
    ensures var r := RunStage(s, stage, c).status;
      && OtherGroupsUnchanged(s, r, stage)
      && |StageSteps(r, stage)| == |StageSteps(s, stage)|
      && forall i :: 0 <= i < |StageSteps(s, stage)| ==> StageSteps(r, stage)[i].started == StageSteps(s, stage)[i].started
  {
    match stage
    case CloneStage => CloneStageFrame(s, c);
    case DeleteStage => DeleteStageFrame(s, c);
    case _ =>
      var r := RunStage(s, stage, c).status;
      assert r.disks == s.disks;
  }

  lemma CloneStageFrame(s: ServerStatus, c: Client)
    requires Ready(s)
    ensures var r := CloneDisks(s, c).status;
      && Ready(r)
      && OtherGroupsUnchanged(s, r, CloneStage)
      && |CloneDiskSteps(r)| == |CloneDiskSteps(s)|
      && forall i :: 0 <= i < |CloneDiskSteps(s)| ==> CloneDiskSteps(r)[i].started == CloneDiskSteps(s)[i].started
  {
    var r := CloneDisks(s, c).status;
    assert forall i :: 0 <= i < |s.disks| ==> SameDiskIdentity(s.disks[i], r.disks[i]);
    assert DeleteDiskSteps(r) == DeleteDiskSteps(s);
  }

  lemma DeleteStageFrame(s: ServerStatus, c: Client)
    requires Ready(s)
    ensures var r := DeleteDisks(s, c).status;
      && Ready(r)
      && OtherGroupsUnchanged(s, r, DeleteStage)
      && |DeleteDiskSteps(r)| == |DeleteDiskSteps(s)|
      && forall i :: 0 <= i < |DeleteDiskSteps(s)| ==> DeleteDiskSteps(r)[i].started == DeleteDiskSteps(s)[i].started
  {
    var r := DeleteDisks(s, c).status;
    assert CloneDiskSteps(r) == CloneDiskSteps(s);
  }

  /** `handleSteps`: start every step of the group, run the stage; on failure
      record the error on the server and return it with no step finalized;
      on success finalize every step of the group. */
  function HandleSteps(s: ServerStatus, stage: Stage, c: Client, now: int): (run: StageRun)
    requires Ready(s)
    ensures Ready(run.status)
    ensures |run.status.disks| == |s.disks|
    ensures CallsOf(run.calls, stage)
    ensures run.err.Some? ==> run.status.err == run.err
    ensures run.err.None? ==> run.status.err == s.err
  {
    FinishStage(RunStage(UpdateSteps(s, stage, OpStart(now)), stage, c), stage)
  }

  /** The end of `handleSteps`, once the stage function returned. */
  function FinishStage(run: StageRun, stage: Stage): (r: StageRun)
    requires Ready(run.status)
    ensures Ready(r.status) && r.calls == run.calls && r.err == run.err
    ensures |r.status.disks| == |run.status.disks|
    ensures run.err.Some? ==> r.status == run.status.(err := run.err)
    ensures run.err.None? ==> r.status == UpdateSteps(run.status, stage, OpFinalize)
  {
    if run.err.Some? then
      StageRun(run.status.(err := run.err), run.calls, run.err)
    else
      StageRun(UpdateSteps(run.status, stage, OpFinalize), run.calls, None)
  }

  /** Ending a stage marks its group done when it succeeded, keeps every
      started flag, and touches no other group. */
  lemma FinishStageGroups(run: StageRun, stage: Stage)
    requires Ready(run.status)
    ensures var r := FinishStage(run, stage).status;
      && OtherGroupsUnchanged(run.status, r, stage)
      && |StageSteps(r, stage)| == |StageSteps(run.status, stage)|
      && (forall i :: 0 <= i < |StageSteps(r, stage)| ==> StageSteps(r, stage)[i].started == StageSteps(run.status, stage)[i].started)
      && (run.err.None? ==> forall i :: 0 <= i < |StageSteps(r, stage)| ==> StageSteps(r, stage)[i].done)
  {
    if run.err.Some? {
      GroupsIgnoreError(run.status, run.err, stage);
      GroupsIgnoreError(run.status, run.err, CloneStage);
      GroupsIgnoreError(run.status, run.err, DeleteStage);
    } else {
      FinalizeMarksGroup(run.status, stage);
      UpdateStepsGroups(run.status, stage, OpFinalize);
    }
  }

  /** `handleSteps` touches the steps of its own stage only. */
  lemma HandleStepsFrame(s: ServerStatus, stage: Stage, c: Client, now: int)
    requires Ready(s)
    ensures OtherGroupsUnchanged(s, HandleSteps(s, stage, c, now).status, stage)
  {
    var started := UpdateSteps(s, stage, OpStart(now));
    UpdateStepsGroups(s, stage, OpStart(now));
    var run := RunStage(started, stage, c);
    RunStageGroups(started, stage, c);
    FinishStageGroups(run, stage);
    OtherGroupsTransitive(s, started, run.status, stage);
    OtherGroupsTransitive(s, run.status, FinishStage(run, stage).status, stage);
  }

  lemma OtherGroupsTransitive(a: ServerStatus, b: ServerStatus, d: ServerStatus, stage: Stage)
    requires Ready(a) && Ready(b) && Ready(d)
    requires OtherGroupsUnchanged(a, b, stage) && OtherGroupsUnchanged(b, d, stage)
    ensures OtherGroupsUnchanged(a, d, stage)
  {
  }

  /** Every step of the stage's group has started, and when the stage
      succeeds every one of them is done. */
  lemma HandleStepsProgress(s: ServerStatus, stage: Stage, c: Client, now: int)
    requires Ready(s)
    ensures var run := HandleSteps(s, stage, c, now);
      && |StageSteps(run.status, stage)| == |StageSteps(s, stage)|
      && (forall i :: 0 <= i < |StageSteps(s, stage)| ==> StageSteps(run.status, stage)[i].started)
      && (run.err.None? ==> forall i :: 0 <= i < |StageSteps(s, stage)| ==> StageSteps(run.status, stage)[i].done)
  {
    var started := UpdateSteps(s, stage, OpStart(now));
    StartMarksGroup(s, stage, now);
    var run := RunStage(started, stage, c);
    RunStageGroups(started, stage, c);
    FinishStageGroups(run, stage);
  }

  /** The start loop of `handleSteps` marks every step of the group started. */
  lemma StartMarksGroup(s: ServerStatus, stage: Stage, now: int)
    requires Ready(s)
    ensures var r := UpdateSteps(s, stage, OpStart(now));
      && |StageSteps(r, stage)| == |StageSteps(s, stage)|
      && forall i :: 0 <= i < |StageSteps(s, stage)| ==> StageSteps(r, stage)[i].started
  {
    UpdateStepsGroups(s, stage, OpStart(now));
  }

  /** The finalize loop of `handleSteps` marks every step of the group done
      and leaves the started flags alone. */
  lemma FinalizeMarksGroup(s: ServerStatus, stage: Stage)
    requires Ready(s)
    ensures var r := UpdateSteps(s, stage, OpFinalize);
      && |StageSteps(r, stage)| == |StageSteps(s, stage)|
      && forall i :: 0 <= i < |StageSteps(s, stage)| ==>
           StageSteps(r, stage)[i].done && StageSteps(r, stage)[i].started == StageSteps(s, stage)[i].started
  {
    UpdateStepsGroups(s, stage, OpFinalize);
  }

  /** The server's error field is not part of any step group. */
  lemma GroupsIgnoreError(s: ServerStatus, e: Option<Error>, stage: Stage)
    requires Ready(s)
    ensures StageSteps(s.(err := e), stage) == StageSteps(s, stage)
  {
    var t := s.(err := e);
    assert CloneDiskSteps(t) == CloneDiskSteps(s);
    assert DeleteDiskSteps(t) == DeleteDiskSteps(s);
  }

  /** When no delete fails, every delete-enabled original is deleted, in
      disk order, and the disks are left as they were. */
  lemma {:induction false} DeleteAllSucceeds(disks: seq<DiskStatus>, c: Client)
    requires forall j :: 0 <= j < |disks| ==> !DeleteFails(disks[j], c)
    ensures DeleteAll(disks, c) == DisksRun(disks, DeleteRequests(disks), None)
    decreases |disks|
  {
    if |disks| > 0 {
      assert forall j :: 1 <= j < |disks| ==> disks[1..][j - 1] == disks[j];
      DeleteAllSucceeds(disks[1..], c);
      assert [disks[0]] + disks[1..] == disks;
    }
  }

  /** The pass over `disks` stopped at disk `k`, the first whose delete fails. */
  predicate DeleteStopsAt(disks: seq<DiskStatus>, c: Client, k: nat, r: DisksRun)
    requires k < |disks|
  {
    && r.err.Some? && r.err == c.deleteDisk(disks[k].originalID)
    && r.calls == DeleteRequests(disks[..k]) + [CallDeleteDisk(disks[k].originalID)]
    && r.disks == disks[k := disks[k].(delete := SetError(disks[k].delete, r.err.value))]
  }

  /** When disk `k` is the first whose delete fails, the pass issues the
      requests for the disks before it plus its own, records the error on
      its delete step, and leaves the disks after it untouched. */
  lemma {:induction false} DeleteAllFails(disks: seq<DiskStatus>, c: Client, k: nat)
    requires k < |disks| && DeleteFails(disks[k], c)
    requires forall j :: 0 <= j < k ==> !DeleteFails(disks[j], c)
    ensures DeleteStopsAt(disks, c, k, DeleteAll(disks, c))
    decreases k
  {
    if k == 0 {
      DeleteAllFailsFirst(disks, c);
    } else {
      var rest := disks[1..];
      assert rest[k - 1] == disks[k];
      assert forall j :: 0 <= j < k - 1 ==> rest[j] == disks[j + 1];
      DeleteAllFails(rest, c, k - 1);
      DeleteAllCons(disks, c);
      DeleteStopsAtCons(disks, c, k - 1, DeleteAll(rest, c));
    }
  }

  /** The loop of `deleteDisks` when the first delete fails. */
  lemma DeleteAllFailsFirst(disks: seq<DiskStatus>, c: Client)
    requires |disks| > 0 && DeleteFails(disks[0], c)
    ensures DeleteStopsAt(disks, c, 0, DeleteAll(disks, c))
  {
    assert disks[..0] == [];
  }

  /** One round of the loop of `deleteDisks` when the first delete succeeds. */
  lemma DeleteAllCons(disks: seq<DiskStatus>, c: Client)
    requires |disks| > 0 && !DeleteFails(disks[0], c)
    ensures var d := disks[0];
      var tail := DeleteAll(disks[1..], c);
      var own := if d.delete.needProcess then [CallDeleteDisk(d.originalID)] else [];
      DeleteAll(disks, c) == DisksRun([d] + tail.disks, own + tail.calls, tail.err)
  {
  }

  /** Stopping at disk `k` of the tail is stopping at disk `k + 1` when the
      first disk's delete succeeds. */
  lemma DeleteStopsAtCons(disks: seq<DiskStatus>, c: Client, k: nat, tail: DisksRun)
    requires k + 1 < |disks| && DeleteStopsAt(disks[1..], c, k, tail)
    ensures var d := disks[0];
      var own := if d.delete.needProcess then [CallDeleteDisk(d.originalID)] else [];
      DeleteStopsAt(disks, c, k + 1, DisksRun([d] + tail.disks, own + tail.calls, tail.err))
  {
    var d := disks[0];
    var rest := disks[1..];
    assert disks[..k + 1] == [d] + rest[..k];
    assert disks[k + 1] == rest[k];
    assert [d] + rest[k := rest[k].(delete := SetError(rest[k].delete, tail.err.value))]
      == disks[k + 1 := disks[k + 1].(delete := SetError(disks[k + 1].delete, tail.err.value))];
  }

  /** The loop of `deleteDisks` fails exactly when some delete fails. */
  lemma DeleteAllErrors(disks: seq<DiskStatus>, c: Client)
    ensures DeleteAll(disks, c).err.None? <==> forall j :: 0 <= j < |disks| ==> !DeleteFails(disks[j], c)
  {
    if exists j :: 0 <= j < |disks| && DeleteFails(disks[j], c) {
      var k := FirstDeleteFailure(disks, c, 0);
      DeleteAllFails(disks, c, k);
    } else {
      DeleteAllSucceeds(disks, c);
    }
  }

  /** The first disk from position `k` on whose delete fails. */
  function FirstDeleteFailure(disks: seq<DiskStatus>, c: Client, k: nat): (r: nat)
    requires k <= |disks|
    requires forall j :: 0 <= j < k ==> !DeleteFails(disks[j], c)
    requires exists j :: k <= j < |disks| && DeleteFails(disks[j], c)
    ensures k <= r < |disks| && DeleteFails(disks[r], c)
    ensures forall j :: 0 <= j < r ==> !DeleteFails(disks[j], c)
    decreases |disks| - k
  {
    if DeleteFails(disks[k], c) then k else FirstDeleteFailure(disks, c, k + 1)
  }

  /** A stage whose steps are all disabled issues no request, changes
      nothing and succeeds. */
  lemma DisabledStageIsSilent(s: ServerStatus, stage: Stage, c: Client)
    requires Ready(s)
    requires forall i :: 0 <= i < |StageSteps(s, stage)| ==> !StageSteps(s, stage)[i].needProcess
    ensures RunStage(s, stage, c) == StageRun(s, [], None)
  {
    var steps := StageSteps(s, stage);
    match stage
    case ShutdownStage => assert !steps[0].needProcess;
    case DisconnectStage => assert !steps[0].needProcess;
    case PlanStage => assert !steps[0].needProcess;
    case ConnectStage => assert !steps[0].needProcess;
    case BootStage => assert !steps[0].needProcess;
    case CloneStage =>
      forall i | 0 <= i < |s.disks|
        ensures !s.disks[i].clone.needProcess
      {
        assert steps[i] == s.disks[i].clone;
      }
      assert CloneDisks(s, c).status.disks == s.disks;
      CloneAllErrors(s.disks, c);
      CloneRequestsEmpty(s.disks);
    case DeleteStage =>
      forall i | 0 <= i < |s.disks|
        ensures !s.disks[i].delete.needProcess
      {
        assert steps[i] == s.disks[i].delete;
      }
      DeleteAllSucceeds(s.disks, c);
      DeleteRequestsEmpty(s.disks);
  }

  // ---------------------------------------------------------------------------
  // applyServer

  /** What `applyServer` did: the final status, every request issued, in
      order, the position in `Stages` of the stage that failed, if any, and
      the error that stage returned. */
  datatype ServerRun = ServerRun(status: ServerStatus, calls: seq<Call>, failedAt: Option<nat>, err: Option<Error>)

  /** The stages from position `k` on; `clock` gives the second at which each
      stage starts. */
  function ApplyFrom(s: ServerStatus, k: nat, c: Client, clock: Stage -> int): (r: ServerRun)
    requires Ready(s) && k <= |Stages|
    ensures Ready(r.status)
    ensures |r.status.disks| == |s.disks|
    ensures r.failedAt.Some? <==> r.err.Some?
    ensures r.failedAt.Some? ==> k <= r.failedAt.value < |Stages| && r.status.err == r.err
    ensures r.failedAt.None? ==> r.status.err == s.err
    ensures CallsFrom(r.calls, k)
    decreases |Stages| - k
  {
    if k == |Stages| then ServerRun(s, [], None, None)
    else
      var stage := StageAt(k);
      var h := HandleSteps(s, stage, c, clock(stage));
      if h.err.Some? then ServerRun(h.status, h.calls, Some(k), h.err)
      else
        var rest := ApplyFrom(h.status, k + 1, c, clock);
        ServerRun(rest.status, h.calls + rest.calls, rest.failedAt, rest.err)
  }

  /** `applyServer`. */
  function ApplyServer(s: ServerStatus, c: Client, clock: Stage -> int): (r: ServerRun)
    requires Ready(s)
    ensures Ready(r.status)
    ensures r.failedAt.Some? <==> r.err.Some?
    ensures r.err.Some? ==> r.status.err == r.err
    ensures r.failedAt.None? ==> r.status.err == s.err
  {
    ApplyFrom(s, 0, c, clock)
  }

  /** Requests are issued stage by stage, in the order of `Stages`. */
  predicate InStageOrder(calls: seq<Call>) {
    forall i, j :: 0 <= i < j < |calls| ==> StageIndex(CallStage(calls[i])) <= StageIndex(CallStage(calls[j]))
  }

  /** Every request belongs to stage `k` or a later one. */
  predicate CallsFrom(calls: seq<Call>, k: nat) {
    forall i :: 0 <= i < |calls| ==> k <= StageIndex(CallStage(calls[i]))
  }

  /** The requests of stage `k` followed by ordered requests of later stages are ordered. */
  lemma OrderedConcat(a: seq<Call>, b: seq<Call>, k: nat)
    requires k < |Stages| && CallsOf(a, StageAt(k))
    requires CallsFrom(b, k + 1) && InStageOrder(b)
    ensures CallsFrom(a + b, k) && InStageOrder(a + b)
  {
    var calls := a + b;
    forall i, j | 0 <= i < j < |calls|
      ensures StageIndex(CallStage(calls[i])) <= StageIndex(CallStage(calls[j]))
    {
      if j < |a| {
        assert CallStage(calls[i]) == StageAt(k) && CallStage(calls[j]) == StageAt(k);
      } else if i < |a| {
        assert CallStage(calls[i]) == StageAt(k);
        assert calls[j] == b[j - |a|];
      } else {
        assert calls[i] == b[i - |a|];
        assert calls[j] == b[j - |a|];
      }
    }
    forall i | 0 <= i < |calls|
      ensures k <= StageIndex(CallStage(calls[i]))
    {
      if i < |a| {
        assert CallStage(calls[i]) == StageAt(k);
      } else {
        assert calls[i] == b[i - |a|];
      }
    }
  }

  lemma {:induction false} ApplyFromCallOrder(s: ServerStatus, k: nat, c: Client, clock: Stage -> int)
    requires Ready(s) && k <= |Stages|
    ensures InStageOrder(ApplyFrom(s, k, c, clock).calls)
    decreases |Stages| - k
  {
    if k < |Stages| {
      var stage := StageAt(k);
      var h := HandleSteps(s, stage, c, clock(stage));
      if h.err.None? {
        ApplyFromCallOrder(h.status, k + 1, c, clock);
        var rest := ApplyFrom(h.status, k + 1, c, clock);
        OrderedConcat(h.calls, rest.calls, k);
        assert ApplyFrom(s, k, c, clock).calls == h.calls + rest.calls;
      }
    }
  }

  lemma ApplyServerCallOrder(s: ServerStatus, c: Client, clock: Stage -> int)
    requires Ready(s)
    ensures InStageOrder(ApplyServer(s, c, clock).calls)
  {
    ApplyFromCallOrder(s, 0, c, clock);
    assert ApplyServer(s, c, clock) == ApplyFrom(s, 0, c, clock);
  }

  /** The stages before `k` are not touched by running the stages from `k` on. */
  lemma {:induction false} ApplyFromKeepsEarlierGroups(s: ServerStatus, k: nat, c: Client, clock: Stage -> int)
    requires Ready(s) && k <= |Stages|
    ensures var r := ApplyFrom(s, k, c, clock);
      forall j :: 0 <= j < k ==> StageSteps(r.status, StageAt(j)) == StageSteps(s, StageAt(j))
    decreases |Stages| - k
  {
    if k < |Stages| {
      var stage := StageAt(k);
      var h := HandleSteps(s, stage, c, clock(stage));
      HandleStepsFrame(s, stage, c, clock(stage));
      forall j | 0 <= j < k
        ensures StageSteps(h.status, StageAt(j)) == StageSteps(s, StageAt(j))
      {
        OtherGroupUnchanged(s, h.status, stage, StageAt(j));
      }
      if h.err.None? {
        ApplyFromKeepsEarlierGroups(h.status, k + 1, c, clock);
      }
    }
  }

  /** Every request belongs to stage `m` or an earlier one. */
  predicate CallsUpTo(calls: seq<Call>, m: nat) {
    forall i :: 0 <= i < |calls| ==> StageIndex(CallStage(calls[i])) <= m
  }

  lemma CallsUpToConcat(a: seq<Call>, b: seq<Call>, k: nat, m: nat)
    requires k <= m < |Stages| && CallsOf(a, StageAt(k)) && CallsUpTo(b, m)
    ensures CallsUpTo(a + b, m)
  {
    forall i | 0 <= i < |a + b|
      ensures StageIndex(CallStage((a + b)[i])) <= m
    {
      if i < |a| {
        assert CallStage((a + b)[i]) == StageAt(k);
      } else {
        assert (a + b)[i] == b[i - |a|];
      }
    }
  }

  /** Every step of the groups of stages `lo` up to (not including) `hi` is done. */
  predicate GroupsDone(s: ServerStatus, lo: nat, hi: nat)
    requires Ready(s) && hi <= |Stages|
  {
    forall j, i :: lo <= j < hi && 0 <= i < |StageSteps(s, StageAt(j))| ==> StageSteps(s, StageAt(j))[i].done
  }

  /** The groups of the stages after `m` are the same in `s` and `r`. */
  predicate LaterGroupsUnchanged(s: ServerStatus, r: ServerStatus, m: nat)
    requires Ready(s) && Ready(r)
  {
    forall j :: m < j < |Stages| ==> StageSteps(r, StageAt(j)) == StageSteps(s, StageAt(j))
  }

  /** No request of a stage after the failing one is issued. */
  lemma {:induction false} ApplyFromFailureCalls(s: ServerStatus, k: nat, c: Client, clock: Stage -> int)
    requires Ready(s) && k <= |Stages|
    ensures var r := ApplyFrom(s, k, c, clock);
      r.failedAt.Some? ==> CallsUpTo(r.calls, r.failedAt.value)
    decreases |Stages| - k
  {
    if k < |Stages| {
      var stage := StageAt(k);
      var h := HandleSteps(s, stage, c, clock(stage));
      if h.err.Some? {
        assert CallsUpTo(h.calls, k);
      } else {
        ApplyFromFailureCalls(h.status, k + 1, c, clock);
        var rest := ApplyFrom(h.status, k + 1, c, clock);
        assert ApplyFrom(s, k, c, clock) == ServerRun(rest.status, h.calls + rest.calls, rest.failedAt, rest.err);
        if rest.failedAt.Some? {
          CallsUpToConcat(h.calls, rest.calls, k, rest.failedAt.value);
        }
      }
    }
  }

  /** The step groups of the stages after the failing one are exactly as
      they were before the run: never started. */
  lemma {:induction false} ApplyFromFailureLaterGroups(s: ServerStatus, k: nat, c: Client, clock: Stage -> int)
    requires Ready(s) && k <= |Stages|
    ensures var r := ApplyFrom(s, k, c, clock);
      r.failedAt.Some? ==> LaterGroupsUnchanged(s, r.status, r.failedAt.value)
    decreases |Stages| - k
  {
    if k < |Stages| {
      var stage := StageAt(k);
      var h := HandleSteps(s, stage, c, clock(stage));
      HandleStepsFrame(s, stage, c, clock(stage));
      forall j | k < j < |Stages|
        ensures StageSteps(h.status, StageAt(j)) == StageSteps(s, StageAt(j))
      {
        OtherGroupUnchanged(s, h.status, stage, StageAt(j));
      }
      if h.err.None? {
        ApplyFromFailureLaterGroups(h.status, k + 1, c, clock);
        var rest := ApplyFrom(h.status, k + 1, c, clock);
        assert ApplyFrom(s, k, c, clock) == ServerRun(rest.status, h.calls + rest.calls, rest.failedAt, rest.err);
      }
    }
  }

  /** Every stage before the failing one finished: all its steps are done. */
  lemma {:induction false} ApplyFromFailureEarlierDone(s: ServerStatus, k: nat, c: Client, clock: Stage -> int)
    requires Ready(s) && k <= |Stages|
    ensures var r := ApplyFrom(s, k, c, clock);
      r.failedAt.Some? ==> GroupsDone(r.status, k, r.failedAt.value)
    decreases |Stages| - k
  {
    if k < |Stages| {
      var stage := StageAt(k);
      var h := HandleSteps(s, stage, c, clock(stage));
      if h.err.None? {
        ApplyFromFailureEarlierDone(h.status, k + 1, c, clock);
        var rest := ApplyFrom(h.status, k + 1, c, clock);
        assert ApplyFrom(s, k, c, clock) == ServerRun(rest.status, h.calls + rest.calls, rest.failedAt, rest.err);
        if rest.failedAt.Some? {
          ApplyFromKeepsEarlierGroups(h.status, k + 1, c, clock);
          HandleStepsProgress(s, stage, c, clock(stage));
          assert StageSteps(rest.status, stage) == StageSteps(h.status, stage);
          forall j, i | k <= j < rest.failedAt.value && 0 <= i < |StageSteps(rest.status, StageAt(j))|
            ensures StageSteps(rest.status, StageAt(j))[i].done
          {
            if j == k {
              assert StageSteps(rest.status, StageAt(j))[i] == StageSteps(h.status, stage)[i];
            }
          }
        }
      }
    }
  }

  /** After the first failing stage nothing more happens: every later
      stage's steps are exactly as they were before the run (never started),
      no request of a later stage is issued, the failure is recorded on the
      server, and every earlier stage finished. */
  lemma ApplyServerStopsAtFirstFailure(s: ServerStatus, c: Client, clock: Stage -> int)
    requires Ready(s)
    ensures var r := ApplyServer(s, c, clock);
      r.failedAt.Some? ==>
        && r.status.err.Some?
        && LaterGroupsUnchanged(s, r.status, r.failedAt.value)
        && CallsUpTo(r.calls, r.failedAt.value)
        && GroupsDone(r.status, 0, r.failedAt.value)
  {
    ApplyFromFailureCalls(s, 0, c, clock);
    ApplyFromFailureLaterGroups(s, 0, c, clock);
    ApplyFromFailureEarlierDone(s, 0, c, clock);
    assert ApplyServer(s, c, clock) == ApplyFrom(s, 0, c, clock);
  }

  /** Every step of the groups of stages `lo` up to (not including) `hi` has
      started and is done. */
  predicate GroupsFinished(s: ServerStatus, lo: nat, hi: nat)
    requires Ready(s) && hi <= |Stages|
  {
    forall j, i :: lo <= j < hi && 0 <= i < |StageSteps(s, StageAt(j))| ==>
      StageSteps(s, StageAt(j))[i].started && StageSteps(s, StageAt(j))[i].done
  }

  /** When no stage fails, every step of every stage ends up started and done
      and the server carries no new error. */
  lemma {:induction false} ApplyFromSuccess(s: ServerStatus, k: nat, c: Client, clock: Stage -> int)
    requires Ready(s) && k <= |Stages|
    ensures var r := ApplyFrom(s, k, c, clock);
      r.failedAt.None? ==> r.status.err == s.err && GroupsFinished(r.status, k, |Stages|)
    decreases |Stages| - k
  {
    if k < |Stages| {
      var stage := StageAt(k);
      var h := HandleSteps(s, stage, c, clock(stage));
      if h.err.None? {
        ApplyFromSuccess(h.status, k + 1, c, clock);
        ApplyFromKeepsEarlierGroups(h.status, k + 1, c, clock);
        HandleStepsProgress(s, stage, c, clock(stage));
        var rest := ApplyFrom(h.status, k + 1, c, clock);
        assert ApplyFrom(s, k, c, clock) == ServerRun(rest.status, h.calls + rest.calls, rest.failedAt, rest.err);
        if rest.failedAt.None? {
          assert StageSteps(rest.status, stage) == StageSteps(h.status, stage);
          forall j, i | k <= j < |Stages| && 0 <= i < |StageSteps(rest.status, StageAt(j))|
            ensures StageSteps(rest.status, StageAt(j))[i].started && StageSteps(rest.status, StageAt(j))[i].done
          {
            if j == k {
              assert StageSteps(rest.status, StageAt(j))[i] == StageSteps(h.status, stage)[i];
            }
          }
        }
      }
    }
  }

  lemma ApplyServerSuccess(s: ServerStatus, c: Client, clock: Stage -> int)
    requires Ready(s)
    ensures var r := ApplyServer(s, c, clock);
      r.failedAt.None? ==> r.status.err == s.err && GroupsFinished(r.status, 0, |Stages|)
  {
    ApplyFromSuccess(s, 0, c, clock);
    assert ApplyServer(s, c, clock) == ApplyFrom(s, 0, c, clock);
  }

  // ---------------------------------------------------------------------------
  // Enablement

  /** Every step of the stage's group kept its enablement from `s` to `r`. */
  predicate GroupEnablementKept(s: ServerStatus, r: ServerStatus, stage: Stage)
    requires Ready(s) && Ready(r)
  {
    && |StageSteps(r, stage)| == |StageSteps(s, stage)|
    && forall i :: 0 <= i < |StageSteps(s, stage)| ==> EnablementKept(StageSteps(s, stage)[i], StageSteps(r, stage)[i])
  }

  /** Every step of every group kept its enablement from `s` to `r`. */
  predicate AllEnablementKept(s: ServerStatus, r: ServerStatus)
    requires Ready(s) && Ready(r)
  {
    forall j :: 0 <= j < |Stages| ==> GroupEnablementKept(s, r, StageAt(j))
  }

  lemma AllEnablementKeptTransitive(a: ServerStatus, b: ServerStatus, d: ServerStatus)
    requires Ready(a) && Ready(b) && Ready(d)
    requires AllEnablementKept(a, b) && AllEnablementKept(b, d)
    ensures AllEnablementKept(a, d)
  {
    forall j | 0 <= j < |Stages|
      ensures GroupEnablementKept(a, d, StageAt(j))
    {
      assert GroupEnablementKept(a, b, StageAt(j)) && GroupEnablementKept(b, d, StageAt(j));
    }
  }

  /** A start or finalize loop of `handleSteps` keeps every step's enablement. */
  lemma UpdateStepsKeepsEnablement(s: ServerStatus, stage: Stage, op: StepOp)
    requires Ready(s) && !op.OpSetError?
    ensures AllEnablementKept(s, UpdateSteps(s, stage, op))
  {
    var r := UpdateSteps(s, stage, op);
    UpdateStepsGroups(s, stage, op);
    forall j | 0 <= j < |Stages|
      ensures GroupEnablementKept(s, r, StageAt(j))
    {
      if StageAt(j) != stage {
        OtherGroupUnchanged(s, r, stage, StageAt(j));
      } else {
        forall i | 0 <= i < |StageSteps(s, stage)|
          ensures EnablementKept(StageSteps(s, stage)[i], StageSteps(r, stage)[i])
        {
          ApplyOpKeepsEnablement(StageSteps(s, stage)[i], op);
        }
      }
    }
  }

  /** A stage function sets an error only on an enabled step, so it keeps
      every step's enablement. */
  lemma RunStageKeepsEnablement(s: ServerStatus, stage: Stage, c: Client)
    requires Ready(s)
    ensures AllEnablementKept(s, RunStage(s, stage, c).status)
  {
    var r := RunStage(s, stage, c).status;
    RunStageGroups(s, stage, c);
    RunStageKeepsOwnGroup(s, stage, c);
    forall j | 0 <= j < |Stages| && StageAt(j) != stage
      ensures GroupEnablementKept(s, r, StageAt(j))
    {
      OtherGroupUnchanged(s, r, stage, StageAt(j));
    }
  }

  lemma RunStageKeepsOwnGroup(s: ServerStatus, stage: Stage, c: Client)
    requires Ready(s)
    ensures GroupEnablementKept(s, RunStage(s, stage, c).status, stage)
  {
    var r := RunStage(s, stage, c).status;
    match stage
    case CloneStage =>
      forall i | 0 <= i < |s.disks|
        ensures EnablementKept(StageSteps(s, stage)[i], StageSteps(r, stage)[i])
      {
        assert StageSteps(r, stage)[i] == CloneOneDisk(s.disks[i], c).disk.clone;
      }
    case DeleteStage =>
    case _ =>
  }

  /** The end of `handleSteps` keeps every step's enablement: on failure only
      the server's error changes, on success the group is finalized. */
  lemma FinishStageKeepsEnablement(run: StageRun, stage: Stage)
    requires Ready(run.status)
    ensures AllEnablementKept(run.status, FinishStage(run, stage).status)
  {
    if run.err.Some? {
      forall j | 0 <= j < |Stages|
        ensures GroupEnablementKept(run.status, FinishStage(run, stage).status, StageAt(j))
      {
        GroupsIgnoreError(run.status, run.err, StageAt(j));
      }
    } else {
      UpdateStepsKeepsEnablement(run.status, stage, OpFinalize);
    }
  }

  /** `handleSteps` keeps every step's enablement. */
  lemma HandleStepsKeepsEnablement(s: ServerStatus, stage: Stage, c: Client, now: int)
    requires Ready(s)
    ensures AllEnablementKept(s, HandleSteps(s, stage, c, now).status)
  {
    var started := UpdateSteps(s, stage, OpStart(now));
    UpdateStepsKeepsEnablement(s, stage, OpStart(now));
    var run := RunStage(started, stage, c);
    RunStageKeepsEnablement(started, stage, c);
    FinishStageKeepsEnablement(run, stage);
    AllEnablementKeptTransitive(s, started, run.status);
    AllEnablementKeptTransitive(s, run.status, FinishStage(run, stage).status);
  }

  lemma AllEnablementKeptRefl(s: ServerStatus)
    requires Ready(s)
    ensures AllEnablementKept(s, s)
  {
    forall j | 0 <= j < |Stages|
      ensures GroupEnablementKept(s, s, StageAt(j))
    {
    }
  }

  lemma {:induction false} ApplyFromKeepsEnablement(s: ServerStatus, k: nat, c: Client, clock: Stage -> int)
    requires Ready(s) && k <= |Stages|
    ensures AllEnablementKept(s, ApplyFrom(s, k, c, clock).status)
    decreases |Stages| - k
  {
    if k == |Stages| {
      AllEnablementKeptRefl(s);
    } else {
      var stage := StageAt(k);
      var h := HandleSteps(s, stage, c, clock(stage));
      HandleStepsKeepsEnablement(s, stage, c, clock(stage));
      if h.err.None? {
        ApplyFromKeepsEnablement(h.status, k + 1, c, clock);
        AllEnablementKeptTransitive(s, h.status, ApplyFrom(h.status, k + 1, c, clock).status);
      }
    }
  }

  /** Enablement is fixed when the status is built and never changes during
      the run: every step keeps its `needProcess`, and a step that was
      disabled and error-free receives no error, logs nothing and still
      shows `-` after `applyServer`, whichever stage fails. */
  lemma ApplyServerKeepsEnablement(s: ServerStatus, c: Client, clock: Stage -> int, now: int)
    requires Ready(s)
    ensures var r := ApplyServer(s, c, clock).status;
      forall j, i :: 0 <= j < |Stages| && 0 <= i < |StageSteps(s, StageAt(j))| ==>
        && i < |StageSteps(r, StageAt(j))|
        && StageSteps(r, StageAt(j))[i].needProcess == StageSteps(s, StageAt(j))[i].needProcess
        && (!StageSteps(s, StageAt(j))[i].needProcess && StageSteps(s, StageAt(j))[i].err.None? ==>
              && StageSteps(r, StageAt(j))[i].err.None?
              && StageSteps(r, StageAt(j))[i].log == StageSteps(s, StageAt(j))[i].log
              && Steps.Status(StageSteps(r, StageAt(j))[i], now) == StatusDisabled)
  {
    ApplyFromKeepsEnablement(s, 0, c, clock);
    var r := ApplyServer(s, c, clock).status;
    assert r == ApplyFrom(s, 0, c, clock).status;
    forall j, i | 0 <= j < |Stages| && 0 <= i < |StageSteps(s, StageAt(j))|
      ensures i < |StageSteps(r, StageAt(j))|
      ensures EnablementKept(StageSteps(s, StageAt(j))[i], StageSteps(r, StageAt(j))[i])
    {
      assert GroupEnablementKept(s, r, StageAt(j));
    }
  }
}
