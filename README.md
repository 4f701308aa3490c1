# Cold backup of neo4j under fleet — a Dafny model of its orchestration

This project models the control logic of the neo4j backup tool. The tool runs inside a CoCo cluster that the fleet scheduler manages. The model covers:

- `runInner`, the stage sequencer, in this order: a hot rsync retried once and never fatal, `shutDownNeo` (fatal), a cold rsync (fatal), `startNeo`, `createBackup` of the target folder, then `uploadToS3`;
- `runOuter`, which builds the fleet client, names the archive and opens the S3 bucket writer before it calls `runInner`;
- `uploadToS3` and the way it closes its two handles;
- the unit-state safety logic of fleet.go: `isServiceActive`, `shutDownNeo`, `setTargetState` and `startNeo`;
- the archive name `neo4j_backup_<YYYY-MM-DDTHH-MM-SS>_<env>.tar.gz`.

Every external effect is recorded in one shared `Effects.EventLog`. That includes each fleet API call, each rsync, `createBackup`, the copy, each `Close` and `validateEnvironment`. Each collaborator's answer comes from an oracle fixed when the mock is built. The `fleetAPI` interface is the class `Fleet.FleetClient`. It holds the roster it reports, the error `UnitStates()` fails with (if any), and a map from each rejected `(name, target)` request to its error; every other request is acknowledged. The methods of `Backup.Collaborators` stand for the functions whose code the model does not cover. `newFleetClient` (fleet.go:21-53) and `newBucketWriter` (main.go:208-215) become constructors that either succeed or fail. `rsync`, `createBackup` and `validateEnvironment` are defined outside main.go and fleet.go. `io.Copy` and the two `Close` calls are library calls. The rsync answers are a sequence indexed by call number, so the hot attempt, the retry and the cold sync can each answer differently; calls past its end succeed.

A Go `error` is `Option<Error>`, with `None` standing for nil. Each imperative method is tied by its postcondition to a pure function of the oracles: `Fleet.Activity`, `Fleet.ShutDown`, `Backup.Upload`, `Backup.InnerRun` and `Backup.OuterRun`. The properties the source promises are proved as lemmas about those functions. `Fleet.IsServiceActive` keeps the source's loop with its `break`. It is proved against `Fleet.FirstMatch`, which in turn is proved equal to a quantified reference definition of "the first entry with that name" (`Fleet.IsFirstIndex`).

`runInner` is one function in main.go. The model writes two of its blocks as methods of their own, which `Backup.RunInner` calls in the same order: `Backup.HotRsync` is the hot phase (main.go:147-165), and `Backup.RestartAndUpload` is everything after the cold rsync (main.go:185-205). The events, the rsync counter and the returned error are the same as for the inline code.

Files: `effects.dfy` holds shared values and the event log. `fleet.dfy` covers fleet.go. `archive_name.dfy` covers main.go:13 and 125, plus a parser that is their inverse. `backup.dfy` covers the orchestration in main.go. `backup_properties.dfy` holds the orchestration properties.

Points where the code's behaviour is easy to misread, which the model follows exactly:

- `isServiceActive` decides by the first roster entry with the name and ignores every later one (`break`, fleet.go:119).
- `startNeo` discards the request's error and always returns nil (fleet.go:132-134), so the error branch at main.go:186-190 is dead. `Backup.RestartAndUpload` asserts this at that point.
- `uploadToS3` closes `pipeReader` only after a successful copy (main.go:221-226). Only the deferred `bucketWriter.Close()` runs on both paths.
- The stop request goes ahead when `deployer.service` is missing from the roster, and also when its first entry's state is anything other than exactly `"active"`, such as `"activating"` or `"failed"` (fleet.go:116, 122-126). `Fleet.DeployerShownInactive` captures this.
- The bucket writer opened in `runOuter` is closed only inside `uploadToS3` (main.go:218). When `runInner` stops earlier, after a failed shutdown, cold rsync or `createBackup`, the writer is never closed (`BackupProperties.WriterClosedIffUploadReached`).

## Model

| member | source | states |
|---|---|---|
| `Fleet.FleetClient.UnitStates` | fleet.go:17 | One recorded roster query. It returns the whole roster, or the configured error with no units. |
| `Fleet.FleetClient.SetUnitTargetState` | fleet.go:18 | One recorded request with exactly the given name and target. It returns the configured answer for that pair. |
| `Fleet.IsServiceActive` | fleet.go:98-127 | It makes exactly one `UnitStates()` call and no target-state request. If the query fails it returns `(false, err)` with that error. Otherwise it returns whether the first roster entry with the name is active, with a nil error. |
| `Fleet.FirstMatchIsFirstIndex` | fleet.go:107-121 | The linear search finds index `i` iff `i` holds the name and no earlier entry does. It finds nothing iff no entry holds the name. |
| `Fleet.IsActiveInIffFirstActive` | fleet.go:107-121 | On a fetched roster the answer is true iff the first entry named `serviceName` has `SystemdActiveState == "active"`. |
| `Fleet.LaterEntriesIgnored` | fleet.go:116-119 | Once some entry matches, appending any entries to the roster, including later duplicates with other states, leaves the answer unchanged. |
| `Fleet.MissingUnitIsInactive` | fleet.go:122-126 | A name absent from a fetched roster of any length gives `(false, nil)`: missing counts as inactive and is not an error. |
| `Fleet.QueryErrorPassedThrough` | fleet.go:99-105 | A failing roster query gives `(false, e)` with that same error `e`. |
| `Fleet.ShutDownNeo` | fleet.go:55-78 | It appends exactly the events of `Fleet.ShutDown` and returns its error: one roster query for `deployer.service`, then the stop request only if the deployer is inactive and nothing failed. |
| `Fleet.ShutDownFailsClosed` | fleet.go:56-76 | The `SetUnitTargetState("neo4j-red@1.service", "inactive")` request is issued iff the query succeeded and the deployer's first entry is not active. If the query failed, no request is made and the query error is returned. If the deployer is active, no request is made and the fresh error `DeployerCheckFailed` is returned. If the deployer is inactive, exactly one stop request is made and its error is returned. |
| `Fleet.FreshErrorIffDeployerActive` | fleet.go:58-70 | When the roster query and the stop request can only fail with the scheduler's own errors, `shutDownNeo` returns its fresh `errors.New` value iff the query succeeded and the deployer is not shown inactive. |
| `Fleet.ShutDownOnlyStopsNeo` | fleet.go:74-75 | Whatever the fleet answers, the only target-state request `shutDownNeo` can make is "inactive" for `neo4j-red@1.service`. |
| `Fleet.SetTargetState` | fleet.go:80-96 | It forwards the name and target unchanged as one request and returns the client's error unchanged. |
| `Fleet.StartNeo` | fleet.go:129-135 | It makes exactly one `SetUnitTargetState("neo4j-red@1.service", "launched")` request and returns nil even when that request fails. |
| `ArchiveNaming.FormatTimestamp` | main.go:13 | The formatted UTC time has the layout `YYYY-MM-DDTHH-MM-SS`: 19 characters, `-` at positions 4, 7, 13 and 16, `T` at 10, and digits everywhere else. |
| `ArchiveNaming.ArchiveName` | main.go:125 | The name is exactly `neo4j_backup_`, then the 19-character timestamp, then `_`, the environment tag and `.tar.gz`. It has length 40 + the tag's length. |
| `ArchiveNaming.LayoutIsReferenceTime` | main.go:13 | The layout constant is Go's reference time 2006-01-02 15:04:05 printed in that layout, so `FormatTimestamp` is the layout it names. |
| `ArchiveNaming.TimestampRoundTrip` | main.go:13 | Reading back a formatted time gives the same year, month, day, hour, minute and second. |
| `ArchiveNaming.TimestampParsedIsFormatted` | main.go:13 | Any string that reads as a valid time is exactly that time's formatting, so the layout is a bijection. |
| `ArchiveNaming.ArchiveNameRoundTrip` | main.go:125 | The time and the environment tag can be read back from the archive name. |
| `ArchiveNaming.ParsedArchiveNameIsBuilt` | main.go:125 | Any string that reads as an archive name is exactly the name built from what it reads as. |
| `ArchiveNaming.ArchiveNameInjective` | main.go:125 | Runs started in different seconds, or with different environment tags, get different archive names. |
| `Backup.Collaborators.NewFleetClient` | main.go:116 | One recorded client construction. On success it returns the configured client, on failure the error and no client. |
| `Backup.Collaborators.NewBucketWriter` | main.go:127 | One recorded bucket-writer construction, keyed by bucket and archive name, with its configured error. |
| `Backup.Collaborators.Rsync` | main.go:148 | One recorded rsync of source to destination. It answers with the result for that call's number and advances the call counter. |
| `Backup.Collaborators.CreateBackup` | main.go:192 | One recorded archive creation. It returns the reader for that folder and name, and the configured error. |
| `Backup.Collaborators.Copy` | main.go:221 | One recorded copy from the pipe reader into the bucket writer, with the configured error. |
| `Backup.Collaborators.CloseWriter` | main.go:218 | One recorded close of the bucket writer. |
| `Backup.Collaborators.CloseReader` | main.go:226 | One recorded close of the pipe reader. |
| `Backup.Collaborators.ValidateEnvironment` | main.go:203 | One recorded `validateEnvironment` call. |
| `Backup.UploadToS3` | main.go:217-228 | It appends exactly the events of `Backup.Upload` and returns the copy error unchanged. |
| `Backup.UploadCloseDiscipline` | main.go:217-228 | The bucket writer is closed exactly once on every path, and that close is the last event. The pipe reader is closed once after a successful copy and never after a failed one. The result is the copy error. |
| `Backup.HotRsync` | main.go:147-165 | It appends one rsync of `dataFolder` to `targetFolder`, plus a second one exactly when the first answer was an error, and advances the counter by the same number. It returns nothing, because neither failure is fatal. |
| `Backup.RestartAndUpload` | main.go:185-205 | It appends exactly the events of `Backup.AfterColdSync` and returns its error: the launch request, then `createBackup`, the upload and `validateEnvironment`. Each stage runs only if the one before it succeeded, and `startNeo`'s error is proved to be nil. |
| `BackupProperties.NoRsyncAfterColdSync` | main.go:185-205 | The stages after the cold rsync never call rsync. |
| `Backup.RunInner` | main.go:136-206 | It appends exactly the events of `Backup.InnerRun`, advances the rsync counter by that run's rsync calls, and returns its error. |
| `Backup.RunOuter` | main.go:114-134 | It appends exactly the events of `Backup.OuterRun` and returns its error. |
| `BackupProperties.HotSyncRetriedOnceThenShutDown` | main.go:148-167 | rsync runs once, and exactly once more if the first attempt failed. Whatever the retry returns, the next event is `shutDownNeo`'s roster query. |
| `BackupProperties.SucceedsIffFatalStagesSucceed` | main.go:148-205 | `runInner` returns nil iff shutdown, the cold rsync, `createBackup` and the upload all succeed. The hot attempts' results do not enter into it. |
| `BackupProperties.ShutDownErrorHalts` | main.go:167-171 | A shutdown error is returned unchanged. The trace ends with the shutdown's own events: no cold rsync, start request, archive or upload follows. |
| `BackupProperties.ColdSyncErrorHalts` | main.go:176-184 | A cold rsync error is returned unchanged, with the cold rsync as the last event. Neither the start request nor `createBackup` happens. |
| `BackupProperties.SuccessOrder` | main.go:148-205 | A successful run's trace is: 1 or 2 hot rsyncs, the roster query, the stop request, the cold rsync, the launch request, `createBackup(targetFolder, archiveName)`, the copy, the reader close, the writer close and `validateEnvironment`. |
| `BackupProperties.ArchiveBuiltFromTargetFolder` | main.go:192 | Every archive creation in any run uses `targetFolder` and the run's archive name, never `dataFolder`. |
| `BackupProperties.StartErrorNeverHalts` | main.go:185-192 | Whenever the launch request was issued, `createBackup(targetFolder, archiveName)` comes later in the trace, even if the fleet rejected the launch. The error branch after `startNeo` is dead. |
| `BackupProperties.StopOnlyWhenDeployerShownInactive` | main.go:167 | Over a whole run, the stop request appears iff the roster query succeeded and the deployer is shown inactive. Otherwise no target-state request of any kind is issued. |
| `BackupProperties.FreshErrorOnlyFromDeployerCheck` | main.go:167-171 | When every collaborator fails only with its own errors, `runInner` returns `shutDownNeo`'s fresh error iff the roster query succeeded and did not show the deployer inactive. |
| `BackupProperties.WriterClosedIffUploadReached` | main.go:167-205 | The bucket writer is closed in a run iff shutdown, the cold rsync and `createBackup` all succeeded, so that the upload was reached. |
| `BackupProperties.RsyncCallsMatchTrace` | main.go:148-184 | The rsync counter equals the number of rsync events in the trace, which is between 1 and 3. |
| `Backup.OuterEarlyExits` | main.go:116-131 | If the fleet client fails, only its construction is recorded and no bucket writer is created. If the bucket writer fails, nothing of `runInner` runs. Each returns its own error. |
| `BackupProperties.OuterArchiveNameShared` | main.go:125-133 | When both constructors succeed, the bucket writer is keyed by the archive name built from the current time and tag, and `runInner` runs, and returns its result, under that same name. |

## Left out

- `main` and the command-line and environment flag parsing (main.go:29-112) are configuration with no logic. The model takes a `Backup.Config` value instead.
- The body of `newFleetClient` (fleet.go:21-53) is not modelled. It covers URL parsing, HTTP transport and SOCKS5 proxy set-up, and the `log.Fatalf` on a proxy error. The model treats it as a constructor that either hands out the mock client or fails.
- `newBucketWriter` and the S3 writer provider (main.go:208-215) are a constructor that either succeeds or fails. The provider's code is not part of this model.
- `rsync`, `createBackup` and `validateEnvironment` are not defined in the modelled files. They are recorded oracle steps. Their effects on disk, and the contents of the tar/gzip stream, are not modelled.
- The concurrent producer and consumer over `io.Pipe`, and the byte streaming of `io.Copy`, are one copy step that succeeds or fails. Bounded buffering and byte-for-byte equality of archive and upload are outside the model.
- The results of `bucketWriter.Close()` and `pipeReader.Close()` are discarded by the source. The model's close steps therefore return nothing.
- `time.Now()` is the parameter `now` of `Backup.RunOuter`. Go's general time formatting is replaced by the one layout the tool uses.
- ArchiveNaming.FormatTimestamp: covers years 0 to 9999 only (four digits, as Go prints them), and takes any day from 1 to 31 as valid without checking the calendar.
- Logging is left out, and the structured fields logged at each stage are not recorded.
- Go error identity is modelled as equality of values. A collaborator's error is `Error(message)`. The error that `shutDownNeo` creates with `errors.New` is a fresh value, so it is the separate constructor `DeployerCheckFailed`. The constructors of `Fleet.FleetClient` and `Backup.Collaborators` accept only `Error(_)` answers (`Effects.FromCollaborator`), so no collaborator can answer with that fresh value.
- The text of `shutDownNeo`'s fresh error (fleet.go:68-69) is not modelled. Only its identity matters to the control flow; the text is read only by the logs.
- ArchiveNaming.ArchiveName: its length counts characters, while Go's `len` counts UTF-8 bytes. The two differ when the environment tag has non-ASCII characters.
- The roster is `[]*schema.UnitState` (fleet.go:17), a slice of pointers. A nil entry would make `isServiceActive` panic at `each.Name` (fleet.go:108). The model's roster is a `seq<UnitState>` of values, so nil entries and that panic are not modelled.
- The check-then-act race between the roster query and the stop request is not modelled: the mock's roster is fixed for a run, so it cannot change in that window.
