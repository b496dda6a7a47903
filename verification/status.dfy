/** The per-server status tree (migrate/status.go): a server's five named
    steps, one clone step and one delete step per disk, the identities the
    pipeline discovers, and the server's terminal error. */
module Status {
  import opened Basics
  import opened Decimal
  import opened Steps
  import opened Iaas

  datatype DiskStatus = DiskStatus(
    clone: Step,
    delete: Step,
    originalID: int64,
    sizeMB: int,
    migratedMB: int,
    clonedID: int64)

  /** `disconnect` and `connect` are nil (`None`) for a server without disks. */
  datatype ServerStatus = ServerStatus(
    disks: seq<DiskStatus>,
    shutdown: Step,
    disconnect: Option<Step>,
    connect: Option<Step>,
    planMigrate: Step,
    boot: Step,
    targetServerID: int64,
    serverName: string,
    migratedServerID: int64,
    newPlan: Plan,
    err: Option<Error>)

  /** `ServerID()`: the decimal rendering of the target server's ID, which
      reads back as that very ID. */
  function ServerID(s: ServerStatus): (r: string)
    ensures ParseInt64(r) == Some(s.targetServerID)
  {
    ParseInt64RoundTrip(s.targetServerID);
    IntToString(s.targetServerID)
  }

  /** `ShutdownStatus()`: the shutdown step's status text, the label of its phase. */
  function ShutdownStatus(s: ServerStatus, now: int): (r: string)
    ensures r == Label(PhaseOf(s.shutdown, now))
  {
    StatusIsPhaseLabel(s.shutdown, now);
    Status(s.shutdown, now)
  }

  /** `MigrationStatus()`: the plan-change step's status text, the label of its phase. */
  function MigrationStatus(s: ServerStatus, now: int): (r: string)
    ensures r == Label(PhaseOf(s.planMigrate, now))
  {
    StatusIsPhaseLabel(s.planMigrate, now);
    Status(s.planMigrate, now)
  }

  /** `BootStatus()`: the boot step's status text, the label of its phase. */
  function BootStatus(s: ServerStatus, now: int): (r: string)
    ensures r == Label(PhaseOf(s.boot, now))
  {
    StatusIsPhaseLabel(s.boot, now);
    Status(s.boot, now)
  }

  /** `DeleteStatus()`: the disk's delete step's status text, the label of its phase. */
  function DeleteStatus(d: DiskStatus, now: int): (r: string)
    ensures r == Label(PhaseOf(d.delete, now))
  {
    StatusIsPhaseLabel(d.delete, now);
    Status(d.delete, now)
  }

  /** `clonedDiskIDs()`: the cloned IDs, in disk order. */
  function ClonedIDs(disks: seq<DiskStatus>): (ids: seq<int64>)
    ensures |ids| == |disks|
    ensures forall i :: 0 <= i < |ids| ==> ids[i] == disks[i].clonedID
    decreases |disks|
  {
    if |disks| == 0 then [] else ClonedIDs(disks[..|disks| - 1]) + [disks[|disks| - 1].clonedID]
  }

  function ClonedDiskIDs(s: ServerStatus): (ids: seq<int64>)
    ensures |ids| == |s.disks|
    ensures forall i :: 0 <= i < |ids| ==> ids[i] == s.disks[i].clonedID
  {
    ClonedIDs(s.disks)
  }

  /** `cloneDiskSteps()`: every disk's clone step, in disk order. */
  function CloneSteps(disks: seq<DiskStatus>): (steps: seq<Step>)
    ensures |steps| == |disks|
    ensures forall i :: 0 <= i < |steps| ==> steps[i] == disks[i].clone
    decreases |disks|
  {
    if |disks| == 0 then [] else CloneSteps(disks[..|disks| - 1]) + [disks[|disks| - 1].clone]
  }

  function CloneDiskSteps(s: ServerStatus): (steps: seq<Step>)
    ensures |steps| == |s.disks|
    ensures forall i :: 0 <= i < |steps| ==> steps[i] == s.disks[i].clone
  {
    CloneSteps(s.disks)
  }

  /** `deleteDiskSteps()`: every disk's delete step, in disk order. */
  function DeleteSteps(disks: seq<DiskStatus>): (steps: seq<Step>)
    ensures |steps| == |disks|
    ensures forall i :: 0 <= i < |steps| ==> steps[i] == disks[i].delete
    decreases |disks|
  {
    if |disks| == 0 then [] else DeleteSteps(disks[..|disks| - 1]) + [disks[|disks| - 1].delete]
  }

  function DeleteDiskSteps(s: ServerStatus): (steps: seq<Step>)
    ensures |steps| == |s.disks|
    ensures forall i :: 0 <= i < |steps| ==> steps[i] == s.disks[i].delete
  {
    DeleteSteps(s.disks)
  }

  /** The scan of `findDiskStatus` from position `k`, the earlier disks being known not to match. */
  function FindFrom(disks: seq<DiskStatus>, id: int64, k: nat): (r: Option<nat>)
    requires k <= |disks|
    requires forall j :: 0 <= j < k ==> disks[j].originalID != id
    ensures r.Some? ==> k <= r.value < |disks| && disks[r.value].originalID == id
    ensures r.Some? ==> forall j :: 0 <= j < r.value ==> disks[j].originalID != id
    ensures r.None? ==> forall j :: 0 <= j < |disks| ==> disks[j].originalID != id
    decreases |disks| - k
  {
    if k == |disks| then None
    else if disks[k].originalID == id then Some(k)
    else FindFrom(disks, id, k + 1)
  }

  /** `findDiskStatus(id)`: the position of the first disk whose original ID
      is `id`, or none when no disk has it. */
  function FindDiskStatus(s: ServerStatus, id: int64): (r: Option<nat>)
    ensures r.Some? ==> r.value < |s.disks| && s.disks[r.value].originalID == id
    ensures r.Some? ==> forall j :: 0 <= j < r.value ==> s.disks[j].originalID != id
    ensures r.None? ==> forall j :: 0 <= j < |s.disks| ==> s.disks[j].originalID != id
  {
    FindFrom(s.disks, id, 0)
  }

  /** `setNewDiskID(old, new)`: records `newID` as the cloned ID of the first
      disk whose original ID is `oldID`; nothing else changes, and nothing at
      all when no disk matches. */
  function SetNewDiskID(s: ServerStatus, oldID: int64, newID: int64): (r: ServerStatus)
    ensures r == s.(disks := r.disks)
    ensures |r.disks| == |s.disks|
    ensures FindDiskStatus(s, oldID).None? ==> r == s
    ensures FindDiskStatus(s, oldID).Some? ==>
      var i := FindDiskStatus(s, oldID).value;
      && r.disks[i] == s.disks[i].(clonedID := newID)
      && forall j :: 0 <= j < |s.disks| && j != i ==> r.disks[j] == s.disks[j]
  {
    match FindDiskStatus(s, oldID)
    case None => s
    case Some(i) => s.(disks := s.disks[i := s.disks[i].(clonedID := newID)])
  }

  /** `cloning()`: the clone step is enabled, started and not yet done. */
  predicate Cloning(d: DiskStatus) {
    d.clone.needProcess && d.clone.started && !d.clone.done
  }

  /** `%7dMB/%7dMB` of the migrated and total sizes. */
  function MigratedStatus(d: DiskStatus): string {
    PadLeft(IntToString(d.migratedMB), 7) + "MB/" + PadLeft(IntToString(d.sizeMB), 7) + "MB"
  }

  /** The progress line puts each number right-aligned in at least seven
      columns, each followed by `MB`, the two separated by `/`. */
  lemma MigratedStatusLayout(d: DiskStatus)
    ensures
      var r := MigratedStatus(d);
      var a := IntToString(d.migratedMB);
      var b := IntToString(d.sizeMB);
      var wa := if |a| >= 7 then |a| else 7;
      var wb := if |b| >= 7 then |b| else 7;
      && |r| == wa + 3 + wb + 2
      && (forall i :: 0 <= i < wa - |a| ==> r[i] == ' ')
      && r[wa - |a|..wa] == a
      && r[wa..wa + 3] == "MB/"
      && (forall i :: wa + 3 <= i < wa + 3 + wb - |b| ==> r[i] == ' ')
      && r[wa + 3 + wb - |b|..wa + 3 + wb] == b
      && r[wa + 3 + wb..] == "MB"
  {
    PaddedPairLayout(IntToString(d.migratedMB), IntToString(d.sizeMB));
  }

  lemma PaddedPairLayout(a: string, b: string)
    ensures
      var r := PadLeft(a, 7) + "MB/" + PadLeft(b, 7) + "MB";
      var wa := if |a| >= 7 then |a| else 7;
      var wb := if |b| >= 7 then |b| else 7;
      && |r| == wa + 3 + wb + 2
      && (forall i :: 0 <= i < wa - |a| ==> r[i] == ' ')
      && r[wa - |a|..wa] == a
      && r[wa..wa + 3] == "MB/"
      && (forall i :: wa + 3 <= i < wa + 3 + wb - |b| ==> r[i] == ' ')
      && r[wa + 3 + wb - |b|..wa + 3 + wb] == b
      && r[wa + 3 + wb..] == "MB"
  {
    var left := PadLeft(a, 7);
    var right := PadLeft(b, 7);
    var head := left + "MB/";
    var r := head + (right + "MB");
    assert r == left + "MB/" + right + "MB";
    var wa := |left|;
    var wb := |right|;
    PrefixOfConcat(head, right + "MB");
    PrefixOfConcat(left, "MB/");
    PrefixOfConcat(right, "MB");
    assert r[wa - |a|..wa] == left[wa - |a|..];
    assert r[wa + 3..wa + 3 + wb] == right;
    assert r[wa + 3 + wb - |b|..wa + 3 + wb] == right[wb - |b|..];
  }

  /** Positions of the two halves of a concatenation. */
  lemma PrefixOfConcat(x: string, y: string)
    ensures (x + y)[..|x|] == x && (x + y)[|x|..] == y
    ensures forall i :: 0 <= i < |x| ==> (x + y)[i] == x[i]
    ensures forall i, j :: 0 <= i <= j <= |x| ==> (x + y)[i..j] == x[i..j]
    ensures forall i, j :: 0 <= i <= j <= |y| ==> (x + y)[|x| + i..|x| + j] == y[i..j]
  {
  }

  /** `CloneStatus()`: the clone step's own status until it starts; then the
      original ID, or the cloned ID marked `(cloned)` once done; while
      cloning, also the elapsed seconds and a second line with the progress. */
  function CloneStatus(d: DiskStatus, now: int): (r: string)
    ensures !d.clone.started ==> r == Status(d.clone, now)
    ensures d.clone.started && d.clone.done ==> r == "ID:" + (IntToString(d.clonedID) + "(cloned)")
    ensures d.clone.started && !Cloning(d) && !d.clone.done ==> r == "ID:" + IntToString(d.originalID)
    ensures Cloning(d) ==>
      r == "ID:" + (IntToString(d.originalID) + "(" + IntToString(now - d.clone.startTime) + "s)\n" + MigratedStatus(d))
  {
    if !d.clone.started then Status(d.clone, now)
    else
      var id := if d.clone.done then IntToString(d.clonedID) + "(cloned)" else IntToString(d.originalID);
      "ID:" + (if Cloning(d) then id + "(" + IntToString(now - d.clone.startTime) + "s)\n" + MigratedStatus(d) else id)
  }

  /** A clone that failed after starting still renders as in progress: the
      clone status reads the started and done flags only, never the error. */
  lemma FailedCloneShowsProgress(d: DiskStatus, now: int)
    requires d.clone.needProcess && d.clone.started && !d.clone.done && d.clone.err.Some?
    ensures Status(d.clone, now) == StatusError
    ensures CloneStatus(d, now) != StatusError
    ensures CloneStatus(d, now)[..3] == "ID:"
  {
    var tail := IntToString(d.originalID) + "(" + IntToString(now - d.clone.startTime) + "s)\n" + MigratedStatus(d);
    PrefixOfConcat("ID:", tail);
    assert CloneStatus(d, now)[0] == 'I' && StatusError[0] == 'e';
  }
}
