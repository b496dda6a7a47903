# cloud-plan-migrate, modelled in Dafny

cloud-plan-migrate moves servers of a cloud provider from a first-generation
("gen1") server plan to a second-generation ("gen2") plan. For every target
server the engine runs seven stages in order:

1. shut the server down;
2. disconnect its disks;
3. clone every disk;
4. change the plan, which yields a new server;
5. connect the clones to the new server;
6. boot it;
7. optionally delete the original disks.

Each stage works through a group of steps. A step is enabled or disabled. It
has started or not, and finished or not. It may carry an error, and it logs
what happens. The command line shows one table row per disk with the status
of every step. This project models that core:

- the steps;
- the per-server status tree;
- the stage functions and `handleSteps`/`applyServer`;
- building the migration from the cloud API's answers;
- the working set and the error list;
- the `migrate` command's pre-flight check, options and table rows;
- the field validators, the global option check, and the CLI's ID parsing
  and tag matching.

Modules, one per source file:

| module | file | models |
|---|---|---|
| `Basics` | basics.dfy | `Option`, `Result`, `Error`, the int64 range |
| `Decimal` | decimal.dfy | `%d`, `%7d` and `strconv.ParseInt(s, 10, 64)` |
| `Steps` | step.dfy | `step` (migrate/step.go) and the five-phase machine it refines |
| `Status` | status.dfy | `ServerStatus` and `DiskStatus` (migrate/status.go) |
| `Iaas` | client.dfy | the `iaas.Client` interface, as an oracle |
| `Pipeline` | pipeline.dfy | the stage functions, `handleSteps` and `applyServer` (migrate/migrate.go) |
| `Migration` | migration.dfy | `NewMigration`, the working set, `HasErrors` and `Apply` (migrate/migrate.go) |
| `MigrateCommand` | migrate_command.dfy | `MigrateMigrate` and `buildOutputDataFromStatus` |
| `Validators` | validators.dfy | command/validators.go |
| `GlobalOptions` | global_option.dfy | `Option.Validate` |
| `CliFunctions` | cli_functions.dfy | `toSakuraID` and `hasTags` |

Modelling choices:

- The cloud API is a record of total functions, one per request. A run
  returns, next to the new status, the trace of state-changing requests it
  issued (`Call`).
- Go's `error` is `Option<Error>`, with `None` for nil.
- A `*ServerStatus` in the working set and in the error list is its position
  in the migration's status list.
- Time is a parameter in whole seconds:
  - `Status` and `CloneStatus` take `now`;
  - `ApplyServer` takes `clock`, the second at which each stage starts;
  - `Apply` takes one such clock per server.
- A logger's output is modelled only as the list of entries a step emitted.

## Model

| member | source | states |
|---|---|---|
| `Steps.Emit` | migrate/step.go:62-70 | a step logs a line exactly when it is enabled and has a logger; otherwise its log is unchanged |
| `Steps.Start` | migrate/step.go:56-60 | start marks the step started at `now`, even when disabled, and changes nothing else but the log |
| `Steps.Finalize` | migrate/step.go:72-81 | finalize marks the step done; a second call changes nothing; only the first call logs |
| `Steps.SetError` | migrate/step.go:92-95 | setError stores the error, replacing any earlier one, and keeps the flags |
| `Steps.Status` | migrate/step.go:32-49 | an error wins; a disabled step shows `-`; `done` beats `running(Ns)`, which beats `(waiting)` |
| `Steps.StatusIsPhaseLabel` | migrate/step.go:32-49 | the status string is the label of the step's phase: Disabled, Waiting, Running, Done or Failed |
| `Steps.LabelInjective` | migrate/step.go:9-15 | different phases, including different elapsed seconds, render as different strings |
| `Steps.PhaseSimulation` | migrate/step.go:56-95 | start, finalize and setError move the phase exactly as the five-state machine says |
| `Steps.PhaseMonotone` | migrate/step.go:56-95 | phases never go backwards; Failed is never left; Done is left only towards Failed |
| `Steps.ErrorIsPermanent` | migrate/step.go:32-35 | once a step has an error, it reports `error` after any sequence of operations |
| `Steps.DoneIsPermanent` | migrate/step.go:72-81 | a done, error-free, enabled step reports `done` until an error is set |
| `Steps.DisabledIsPermanent` | migrate/step.go:37-42 | a disabled step shows `-` and logs nothing through any starts and finalizes |
| `Steps.FinalizeIdempotent` | migrate/step.go:77-80 | finalizing twice is finalizing once, and finalizing logs at most one line |
| `Steps.SetErrorOverwrites` | migrate/step.go:92-95 | the later of two errors is the one kept |
| `Steps.ApplyOpKeepsEnablement` | migrate/step.go:56-101 | start and finalize, and setError on an enabled step, keep needProcess; on a disabled step start and finalize add no error and no log line |
| `Steps.EnablementKeptShowsDisabled` | migrate/step.go:32-49 | a step that kept its enablement from a disabled, error-free state shows `-` |
| `Steps.RunningSecondsMonotone` | migrate/step.go:43-45 | the running seconds never decrease as time passes |
| `Decimal.NatToString` | migrate/status.go:26-28 | `%d` of a natural number is a non-empty digit string without leading zeros |
| `Decimal.IntToStringInjective` | migrate/status.go:26-28 | distinct numbers print differently |
| `Decimal.NatToStringLength` | command/validators.go:57-59 | a positive number prints with k digits exactly when it lies in [10^(k-1), 10^k) |
| `Decimal.ParseInt64RoundTrip` | command/cli/functions.go:17-23 | every int64 parses back from its decimal rendering |
| `Decimal.ParseInt64RejectsOverflow` | command/cli/functions.go:18-21 | the rendering of a number outside the int64 range does not parse |
| `Decimal.ParseInt64` | command/cli/functions.go:18-21 | a parse succeeds only on a sign or digit first, a negative value needs `-`, and a bare sign is rejected |
| `Decimal.ParseInt64RejectsNonDigit` | command/cli/functions.go:18-21 | a non-digit after the optional sign makes the parse fail |
| `Decimal.PadLeft` | migrate/status.go:120-122 | `%7d` right-aligns: the text ends the field and spaces fill the rest up to width seven |
| `Status.ServerID` | migrate/status.go:26-28 | the server ID string reads back as the target server's ID |
| `Status.ShutdownStatus` | migrate/status.go:34-36 | the shutdown cell is the label of the shutdown step's phase |
| `Status.MigrationStatus` | migrate/status.go:38-40 | the plan-change cell is the label of the plan-change step's phase |
| `Status.BootStatus` | migrate/status.go:42-44 | the boot cell is the label of the boot step's phase |
| `Status.DeleteStatus` | migrate/status.go:116-118 | the delete cell is the label of the delete step's phase |
| `Status.ClonedDiskIDs` | migrate/status.go:62-68 | one cloned ID per disk, in disk order |
| `Status.CloneDiskSteps` | migrate/status.go:70-76 | one clone step per disk, in disk order |
| `Status.DeleteDiskSteps` | migrate/status.go:78-84 | one delete step per disk, in disk order |
| `Status.FindDiskStatus` | migrate/status.go:53-60 | finds the first disk with the original ID, or reports that no disk has it |
| `Status.SetNewDiskID` | migrate/status.go:46-51 | sets the cloned ID of the first matching disk only; with no match, nothing changes |
| `Status.CloneStatus` | migrate/status.go:96-110 | before the start, the step's status; then `ID:` with the original ID, or with the cloned ID and `(cloned)` once done; while cloning, also the seconds and the progress line |
| `Status.MigratedStatusLayout` | migrate/status.go:120-122 | the progress line is two right-aligned numbers of width seven or more, each followed by `MB`, separated by `/` |
| `Status.FailedCloneShowsProgress` | migrate/status.go:96-114 | a clone that failed after starting still renders as `ID:...`, never as `error` |
| `Pipeline.StageAt` | migrate/migrate.go:166-201 | the seven stages run in a fixed order, and each stage's position is unique |
| `Pipeline.UpdateStepsGroups` | migrate/migrate.go:203-215 | a loop of handleSteps applies its operation to every step of the stage's group and to no other step |
| `Pipeline.StartMarksGroup` | migrate/migrate.go:204-206 | the start loop leaves every step of the group started |
| `Pipeline.FinalizeMarksGroup` | migrate/migrate.go:213-215 | the finalize loop leaves every step of the group done and keeps the started flags |
| `Pipeline.ShutdownServer` | migrate/migrate.go:220-229 | an enabled shutdown sends one request for the target server and records its error on the step; a disabled one does nothing |
| `Pipeline.DisconnectDisks` | migrate/migrate.go:231-239 | the same for disconnecting the target server's disks |
| `Pipeline.CloneOneDisk` | migrate/migrate.go:248-279 | an enabled disk gets exactly one clone request for its original ID; a failed request sets that error on the clone step and returns it; an accepted request leaves the disk and error its stream's drain gives; a disabled disk is left alone; the clone step keeps its enablement |
| `Pipeline.CloneOneDiskFails` | migrate/migrate.go:248-279 | cloning a disk fails exactly when it is enabled and the request fails or the stream delivers an error, and that error is on the clone step |
| `Pipeline.DrainSucceeds` | migrate/migrate.go:257-270 | a stream of disk events leaves the disk with the last event's ID and size, and its clone step done |
| `Pipeline.DrainErrors` | migrate/migrate.go:257-276 | the drain fails exactly when the stream holds an error event, and its error is the one on the clone step |
| `Pipeline.DrainFails` | migrate/migrate.go:266-275 | at the first error event the loop stops and records that error; the disk keeps the data of the event before it |
| `Pipeline.CloneRequestsEmpty` | migrate/migrate.go:247-250 | no clone request is sent exactly when no disk's clone step is enabled |
| `Pipeline.CloneAll` | migrate/migrate.go:241-296 | every disk is cloned on its own; the requests are one per enabled disk, in disk order |
| `Pipeline.CloneAllErrors` | migrate/migrate.go:287-294 | the clone stage succeeds exactly when every disk's clone does |
| `Pipeline.CloneAllFirstError` | migrate/migrate.go:287-294 | the stage reports the error of the first failing disk |
| `Pipeline.CloneDisks` | migrate/migrate.go:241-296 | cloneDisks changes only the disks, each as its own clone leaves it, and returns the error of the clone loop |
| `Pipeline.MigrateServerPlan` | migrate/migrate.go:298-308 | one plan-change request with the new plan; success records the new server's ID, failure records the error on the step |
| `Pipeline.ConnectDisks` | migrate/migrate.go:310-318 | connects the cloned disks, not the originals, to the migrated server, not the old one |
| `Pipeline.BootServer` | migrate/migrate.go:320-329 | boots the migrated server; the error goes on the boot step |
| `Pipeline.DeleteRequestsEmpty` | migrate/migrate.go:331-333 | no delete request is sent exactly when no delete step is enabled |
| `Pipeline.DeleteAllSucceeds` | migrate/migrate.go:331-341 | with no failure, every enabled original is deleted in disk order and the disks are left as they were |
| `Pipeline.DeleteAllFails` | migrate/migrate.go:331-341 | at the first failing disk the loop stops: earlier requests plus its own are sent, the error goes on its step, later disks are untouched |
| `Pipeline.DeleteAllErrors` | migrate/migrate.go:331-341 | the delete stage fails exactly when some enabled delete fails |
| `Pipeline.DeleteDisks` | migrate/migrate.go:331-341 | deleteDisks changes only the disks' delete steps, never their started flags, and sets an error only on an enabled delete step; its disks, requests and error are those of the delete loop |
| `Pipeline.DeleteAllKeepsEnablement` | migrate/migrate.go:331-341 | the delete loop sets an error only on a delete-enabled disk, so every delete step keeps its enablement |
| `Pipeline.RunStage` | migrate/migrate.go:166-201 | each stage function issues only its own kind of request and leaves the server's error alone |
| `Pipeline.RunStageGroups` | migrate/migrate.go:220-341 | a stage function touches only its own step group, and none of its started flags |
| `Pipeline.DisabledStageIsSilent` | migrate/migrate.go:220-341 | a stage whose steps are all disabled sends nothing, changes nothing and succeeds |
| `Pipeline.HandleSteps` | migrate/migrate.go:203-218 | a failed stage records its error on the server; a successful stage leaves the server's error as it was |
| `Pipeline.FinishStage` | migrate/migrate.go:208-217 | on failure, only the server's error is set and no step is finalized; on success, the group is finalized |
| `Pipeline.HandleStepsFrame` | migrate/migrate.go:203-218 | handleSteps touches the steps of its own stage only |
| `Pipeline.HandleStepsProgress` | migrate/migrate.go:203-218 | afterwards every step of the group has started, and after a success every one is done |
| `Pipeline.ApplyFrom` | migrate/migrate.go:166-201 | a failing stage position is reported exactly when an error is; it lies in range and its error is the one stored on the server; without one, the server's error is unchanged |
| `Pipeline.ApplyServer` | migrate/migrate.go:166-201 | a run fails exactly when it reports an error; the server then carries exactly that stage's error, and otherwise the error it had |
| `Pipeline.ApplyServerCallOrder` | migrate/migrate.go:166-201 | requests go out stage by stage, in stage order |
| `Pipeline.ApplyFromKeepsEarlierGroups` | migrate/migrate.go:166-201 | running the stages from position k on never touches the groups of earlier stages |
| `Pipeline.ApplyServerStopsAtFirstFailure` | migrate/migrate.go:166-201 | after the first failing stage no later stage starts or sends anything, and every earlier stage is done |
| `Pipeline.ApplyServerSuccess` | migrate/migrate.go:166-201 | without a failure, every step of every stage ends up started and done |
| `Pipeline.UpdateStepsKeepsEnablement` | migrate/migrate.go:203-216 | the start and finalize loops of handleSteps keep every step's enablement |
| `Pipeline.RunStageKeepsOwnGroup` | migrate/migrate.go:220-341 | a stage function sets an error only on an enabled step of its own group |
| `Pipeline.RunStageKeepsEnablement` | migrate/migrate.go:220-341 | every stage function keeps the enablement of every step of the server |
| `Pipeline.HandleStepsKeepsEnablement` | migrate/migrate.go:203-218 | handleSteps keeps the enablement of every step, on success and on failure |
| `Pipeline.ApplyFromKeepsEnablement` | migrate/migrate.go:166-201 | running the stages from any position keeps the enablement of every step |
| `Pipeline.ApplyServerKeepsEnablement` | migrate/migrate.go:166-341 | after applyServer every step has the needProcess it was built with, and a step built disabled and error-free has no error, logged nothing and still shows `-` |
| `Migration.NewServerStatusShowsPlannedWork` | migrate/migrate.go:51-98 | a fresh status shows `(waiting)` for work to do and `-` for the rest, with disconnect and connect waiting whenever there are disks; it mirrors the disks with nothing cloned or copied yet; it can run exactly when the server has disks |
| `Migration.LookupOutcome` | migrate/migrate.go:37-49 | reads the server and then finds the plan for its CPU and memory; either error is returned as is |
| `Migration.BuildAll` | migrate/migrate.go:34-102 | one status per ID, in order, exactly when every lookup succeeds |
| `Migration.BuildAllFirstError` | migrate/migrate.go:34-49 | the error is that of the first ID whose lookup fails |
| `Migration.NewMigration` | migrate/migrate.go:26-108 | nil options act as zero options; the migration starts with nobody working and no errors, one status per ID |
| `Migration.NewMigrationOutcome` | migrate/migrate.go:26-108 | NewMigration succeeds exactly when every lookup does; each status is then the fresh status of that server |
| `Migration.NewMigrationFirstError` | migrate/migrate.go:34-49 | a failed NewMigration returns the first failing lookup's error |
| `Migration.HasErrors` | migrate/migrate.go:137-145 | exactly the servers with an error, in order, each once |
| `Migration.AddWorking` | migrate/migrate.go:147-152 | appends the server and keeps the rest |
| `Migration.RemoveWorking` | migrate/migrate.go:154-164 | drops every occurrence of the server and keeps every other entry with its multiplicity |
| `Migration.WorkingTracksChanges` | migrate/migrate.go:131-164 | `Working` shows an added server at the end, and after a removal shows the others but not that server |
| `Migration.WithoutConcat` | migrate/migrate.go:154-164 | removal keeps the order of the remaining entries |
| `Migration.AddRemoveRoundTrip` | migrate/migrate.go:147-164 | removing right after adding undoes the addition |
| `Migration.Apply` | migrate/migrate.go:110-129 | every server ends exactly as its own pipeline run leaves it, and the working set is empty again |
| `Migration.ApplyErrors` | migrate/migrate.go:110-145 | after Apply, the servers with errors are those that had one and those whose run failed |
| `MigrateCommand.CheckServer` | command/funcs/migrate_migrate.go:26-39 | a target is rejected when it cannot be read, has no disks or is not on gen1, with the matching error |
| `MigrateCommand.Preflight` | command/funcs/migrate_migrate.go:26-39 | the check passes exactly when every target is eligible |
| `MigrateCommand.PreflightFirstFailure` | command/funcs/migrate_migrate.go:26-39 | the reported error is that of the first ineligible target |
| `MigrateCommand.Prepare` | command/funcs/migrate_migrate.go:26-60 | a prepared migration has ten workers, nobody working, and every server has its disk connection steps |
| `MigrateCommand.PrepareFollowsFlags` | command/funcs/migrate_migrate.go:49-54 | boot is skipped exactly when reboot is disabled; originals are deleted exactly when cleanup is asked for |
| `MigrateCommand.MigrateMigrate` | command/funcs/migrate_migrate.go:20-90 | when preparation fails its error is returned; otherwise every server ends as its own pipeline run leaves it |
| `MigrateCommand.BuildOutputDataFromStatus` | command/funcs/migrate_migrate.go:108-146 | one six-cell row per disk, in disk order: server ID, shutdown, that disk's clone, plan change, boot, that disk's delete |
| `MigrateCommand.ServerCellsAgree` | command/funcs/migrate_migrate.go:134-142 | the server-level cells are the same on every row of a server |
| `Validators.ValidateInStrValues` | command/validators.go:9-35 | nil, the empty string and non-strings pass; a non-empty string gets exactly one error when it is not allowed |
| `Validators.ValidateRequired` | command/validators.go:37-42 | exactly one error when the value is empty, none otherwise |
| `Validators.ValidateSakuraID` | command/validators.go:44-65 | nil, zero and non-int64 values pass; at most one error |
| `Validators.SakuraIDRange` | command/validators.go:53-61 | a non-zero int64 passes exactly when it lies between 100000000000 and 999999999999 |
| `GlobalOptions.AuthErrors` | command/global_option.go:58-63 | token, secret and zone are required, and a non-empty zone other than `is1a` is refused |
| `GlobalOptions.AuthErrorsInOrder` | command/global_option.go:58-63 | errors come in check order: token, secret, zone, zone value |
| `GlobalOptions.Validate` | command/global_option.go:53-70 | validated is set; valid exactly when no error; the results are the returned list; skipping auth gives no errors |
| `CliFunctions.ToSakuraID` | command/cli/functions.go:17-23 | `(n, true)` exactly when the string parses as the int64 n; otherwise `(0, false)` |
| `CliFunctions.ToSakuraIDRoundTrip` | command/cli/functions.go:17-23 | every int64 reads back from its decimal rendering |
| `CliFunctions.ToSakuraIDRejects` | command/cli/functions.go:18-21 | the empty string, a non-digit and an out-of-range number give `(0, false)` |
| `CliFunctions.HasTags` | command/cli/functions.go:25-43 | a value without tags never matches; a tagged resource matches exactly when it holds every requested tag |
| `CliFunctions.HasTagsNarrows` | command/cli/functions.go:37-42 | requesting one tag more can turn a match into a mismatch, never the reverse |
| `CliFunctions.HasTagsOrderFree` | command/cli/functions.go:37-42 | the order of the requested tags does not matter |

## Behaviour worth noting

The model reproduces these behaviours of the code.

- **`setError` (migrate/step.go:92-95)** assigns the step's error, so a later error replaces an earlier one. See `Steps.SetErrorOverwrites`.
- **A finished clone (migrate/status.go:96-110)** shows `ID:<cloned id>(cloned)`: the `ID:` prefix, followed by the clone's ID rather than the original's. See `Status.CloneStatus`.
- **Enablement is fixed when the status is built (migrate/migrate.go:51-98).** Every `setError` of a stage function sits under a `needProcess` test (migrate/migrate.go:220-341), and `start` and `finalize` never change `needProcess` or the error. A step built disabled therefore still shows `-` after the run, whichever stage fails. See `Pipeline.ApplyServerKeepsEnablement`.

## Left out

- Concurrency in `Apply` (migrate/migrate.go:110-129) is not modelled: the goroutines, the wait group, the worker-limit channel and the mutex.
  - The model runs the servers one after another.
  - It requires `maxWorkerCount >= 1`: with nil options the count is 0, and sending on the unbuffered limit channel would block forever.
  - `Working` is only the list accessor.
- Concurrency in `cloneDisks` (migrate/migrate.go:241-296) is not modelled either.
  - The model clones and drains every disk in disk order, and the stage reports the first failing disk's error.
  - The program returns whichever error reaches its channel first, without waiting for the other disks (migrate/migrate.go:287-294). The other goroutines go on updating their disks' statuses afterwards; the model applies those updates before the stage returns. The goroutines of the other failing disks stay blocked on the send and never call `wg.Done`.
- The capture of the loop variable `disk` inside the clone goroutines (migrate/migrate.go:249, 252) is not reproduced. Each goroutine in the model uses its own disk.
- A progress stream always delivers at least one event (`CloneStream` is non-empty). A stream closed with no disk event would spin the receive loop forever (migrate/migrate.go:259-266).
- `Pipeline.ApplyServer` requires the disk connection steps to exist (`Ready`). For a server without disks they are nil and the program dereferences them. `MigrateCommand.Prepare` shows that the pre-flight check guarantees them.
- Wall-clock time is whole seconds passed in as parameters. `time.Now`, `time.Since` and the truncation of fractional seconds are not modelled.
- The function-local mutex in `finalize` (migrate/step.go:73-75) is not modelled, because it protects nothing.
- Log text and prefixes are not modelled; only the kind of each entry is kept.
- Error message texts are not modelled, including the `%q` of an integer ID in the pre-flight errors. Errors are values that say which check failed.
- Terminal output is not modelled: the ANSI codes, the table writer, colours, the error listing and the one-second ticker. The log file is not modelled either.
- `MigrateCommand.MigrateMigrate` assumes that the server reads of the pre-flight check and of `NewMigration` get the same answer, since the client is a fixed oracle. The program reads each server twice, and the server could change in between.
- `Iaas` models only the interface of iaas/client.go (lines 8-22). The implementation over the provider's SDK, `FindAll` and `DiskByID` are not part of this model.
- `IsEmpty` is a parameter of `Validators.ValidateRequired` and `GlobalOptions.Validate`, because it is not part of this model. `UniqIDs` is not part of this model either.
- `CliFunctions.HasTags` assumes that a resource's `HasTag` is exact membership in its tag list.
- Not modelled: command/params/params_migrate.go, the flag wiring and name/tag lookup of command/cli/cli_migrate.go, `isTerminal`, command/context.go, and main.go.
- Not modelled: the other `Option` fields of command/global_option.go, and the `init` that discards progress output off a terminal.
