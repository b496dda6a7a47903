/** The cloud API as the migration engine sees it (the `Client` interface of
    iaas/client.go): an oracle that answers each request with success, an
    error, or a new identity. The transport behind it is not modelled. */
module Iaas {
  import opened Basics

  /** The plan generation a server currently uses. */
  datatype Generation = PlanG1 | PlanG2 | OtherGeneration

  datatype Disk = Disk(id: int64, sizeMB: int)

  /** The observed live state of a server. */
  datatype Server = Server(
    id: int64,
    name: string,
    cpu: int,
    memoryGB: int,
    up: bool,
    disks: seq<Disk>,
    generation: Generation)

  /** A target-generation server plan; only its identity matters here. */
  datatype Plan = Plan(id: int64)

  /** What the progress channel of `CloneDisk` delivers: the copy as it
      stands (its ID and how many MB are migrated so far), or an error. */
  datatype CloneEvent = DiskEvent(id: int64, migratedMB: int) | ErrorEvent(error: Error)

  /** A progress channel as the client produces it: it delivers at least one
      event before it closes (the last one being the finished disk or an error). */
  type CloneStream = s: seq<CloneEvent> | |s| > 0 witness [ErrorEvent(Error(""))]

  /** The answers of the cloud API, one function per request used by the
      engine. `None` in an `Option<Error>` is a nil error. */
  datatype Client = Client(
    serverByID: int64 -> Result<Server, Error>,
    findServerPlan: (int, int) -> Result<Plan, Error>,
    shutdown: int64 -> Option<Error>,
    disconnectDisks: int64 -> Option<Error>,
    cloneDisk: int64 -> Result<CloneStream, Error>,
    changePlan: (int64, Plan) -> Result<int64, Error>,
    connectDisks: (int64, seq<int64>) -> Option<Error>,
    boot: int64 -> Option<Error>,
    deleteDisk: int64 -> Option<Error>)

  /** A state-changing request issued to the cloud API, with its arguments. */
  datatype Call =
    | CallShutdown(serverID: int64)
    | CallDisconnectDisks(serverID: int64)
    | CallCloneDisk(diskID: int64)
    | CallChangePlan(serverID: int64, plan: Plan)
    | CallConnectDisks(serverID: int64, diskIDs: seq<int64>)
    | CallBoot(serverID: int64)
    | CallDeleteDisk(diskID: int64)
}
