/** What `runInner` and `runOuter` promise, stated over the traces of `Backup.InnerRun`
    and `Backup.OuterRun` for every answer the collaborators can give. */
module BackupProperties {
  import opened Effects
  import opened Fleet
  import opened ArchiveNaming
  import opened Backup

  /** The hot phase runs rsync once, and exactly once more when the first attempt fails;
      whatever the second attempt answers, the shutdown step (its roster query) comes next. */
  lemma HotSyncRetriedOnceThenShutDown(fleet: FleetClient, c: Collaborators, k: nat, w: BucketWriter,
                                       dataFolder: string, targetFolder: string, archiveName: string)
    ensures var run := InnerRun(fleet, c, k, w, dataFolder, targetFolder, archiveName);
            var sync := RsyncCalled(dataFolder, targetFolder);
            var hot := if c.RsyncAnswer(k).Some? then [sync, sync] else [sync];
            && |run.events| > |hot|
            && run.events[..|hot|] == hot
            && run.events[|hot|] == UnitStatesCalled
  {
  }

  /** `runInner` returns nil exactly when shutdown, the cold rsync, `createBackup` and the
      upload all succeed; the answers of the hot rsync play no part in it. */
  lemma SucceedsIffFatalStagesSucceed(fleet: FleetClient, c: Collaborators, k: nat, w: BucketWriter,
                                      dataFolder: string, targetFolder: string, archiveName: string)
    ensures var run := InnerRun(fleet, c, k, w, dataFolder, targetFolder, archiveName);
            var hotCalls := if c.RsyncAnswer(k).Some? then 2 else 1;
            run.err.None? <==>
              && ShutDownOf(fleet).err.None?
              && c.RsyncAnswer(k + hotCalls).None?
              && c.createBackupResult.None?
              && c.copyResult.None?
  {
  }

  /** A failed shutdown is returned as it is, and nothing after it happens: no cold rsync,
      no start request, no archive, no upload. */
  lemma ShutDownErrorHalts(fleet: FleetClient, c: Collaborators, k: nat, w: BucketWriter,
                           dataFolder: string, targetFolder: string, archiveName: string)
    requires ShutDownOf(fleet).err.Some?
    ensures var run := InnerRun(fleet, c, k, w, dataFolder, targetFolder, archiveName);
            && run.err == ShutDownOf(fleet).err
            && run.events == HotSync(c.RsyncAnswer(k), dataFolder, targetFolder) + ShutDownOf(fleet).events
            && SetUnitTargetStateCalled(NeoServiceName, LaunchedTarget) !in run.events
            && CreateBackupCalled(targetFolder, archiveName) !in run.events
  {
  }

  /** A failed cold rsync is returned as it is, before neo4j is started, the archive
      created or anything uploaded. */
  lemma ColdSyncErrorHalts(fleet: FleetClient, c: Collaborators, k: nat, w: BucketWriter,
                           dataFolder: string, targetFolder: string, archiveName: string)
    requires ShutDownOf(fleet).err.None?
    requires c.RsyncAnswer(k + |HotSync(c.RsyncAnswer(k), dataFolder, targetFolder)|).Some?
    ensures var run := InnerRun(fleet, c, k, w, dataFolder, targetFolder, archiveName);
            var hot := HotSync(c.RsyncAnswer(k), dataFolder, targetFolder);
            && run.err == c.RsyncAnswer(k + |hot|)
            && run.events == hot + ShutDownOf(fleet).events + [RsyncCalled(dataFolder, targetFolder)]
            && SetUnitTargetStateCalled(NeoServiceName, LaunchedTarget) !in run.events
            && CreateBackupCalled(targetFolder, archiveName) !in run.events
  {
  }

  /** On success the events are: rsync once or twice, the roster query, the stop request,
      the cold rsync, the start request, `createBackup(targetFolder, archiveName)`, the
      upload with its closes, and `validateEnvironment`. */
  lemma SuccessOrder(fleet: FleetClient, c: Collaborators, k: nat, w: BucketWriter,
                     dataFolder: string, targetFolder: string, archiveName: string)
    requires InnerRun(fleet, c, k, w, dataFolder, targetFolder, archiveName).err.None?
    ensures var run := InnerRun(fleet, c, k, w, dataFolder, targetFolder, archiveName);
            var sync := RsyncCalled(dataFolder, targetFolder);
            var reader := PipeReader(targetFolder, archiveName);
            run.events == HotSync(c.RsyncAnswer(k), dataFolder, targetFolder) +
                          [UnitStatesCalled, SetUnitTargetStateCalled(NeoServiceName, InactiveTarget),
                           sync, SetUnitTargetStateCalled(NeoServiceName, LaunchedTarget),
                           CreateBackupCalled(targetFolder, archiveName),
                           CopyCalled(w, reader), ReaderClosed(reader), WriterClosed(w),
                           ValidateEnvironmentCalled]
  {
  }

  /** The archive is only ever built from the target folder (the copy made by the cold
      rsync), under the run's archive name; never from the live data folder. */
  lemma ArchiveBuiltFromTargetFolder(fleet: FleetClient, c: Collaborators, k: nat, w: BucketWriter,
                                     dataFolder: string, targetFolder: string, archiveName: string)
    ensures var run := InnerRun(fleet, c, k, w, dataFolder, targetFolder, archiveName);
            forall i :: 0 <= i < |run.events| && run.events[i].CreateBackupCalled? ==>
              run.events[i] == CreateBackupCalled(targetFolder, archiveName)
  {
  }

  /** Because `startNeo` swallows the launch request's error, a run that reaches the start
      request always goes on to `createBackup`, even when the fleet rejects the launch. */
  lemma StartErrorNeverHalts(fleet: FleetClient, c: Collaborators, k: nat, w: BucketWriter,
                             dataFolder: string, targetFolder: string, archiveName: string)
    requires SetUnitTargetStateCalled(NeoServiceName, LaunchedTarget)
               in InnerRun(fleet, c, k, w, dataFolder, targetFolder, archiveName).events
    ensures var events := InnerRun(fleet, c, k, w, dataFolder, targetFolder, archiveName).events;
            exists i, j :: 0 <= i < j < |events| &&
              events[i] == SetUnitTargetStateCalled(NeoServiceName, LaunchedTarget) &&
              events[j] == CreateBackupCalled(targetFolder, archiveName)
  {
    var sync := RsyncCalled(dataFolder, targetFolder);
    var hot := HotSync(c.RsyncAnswer(k), dataFolder, targetFolder);
    var shut := ShutDownOf(fleet);
    var launch := SetUnitTargetStateCalled(NeoServiceName, LaunchedTarget);
    assert launch !in hot;
    if launch in shut.events {
      ShutDownOnlyStopsNeo(fleet.roster, fleet.unitStatesError,
                           fleet.SetTargetAnswer(NeoServiceName, InactiveTarget),
                           NeoServiceName, LaunchedTarget);
      assert false;
    }
    var stopped := hot + shut.events + [sync];
    var events := InnerRun(fleet, c, k, w, dataFolder, targetFolder, archiveName).events;
    assert events == stopped + AfterColdSync(c, w, targetFolder, archiveName).events;
    assert events[|stopped|] == launch;
    assert events[|stopped| + 1] == CreateBackupCalled(targetFolder, archiveName);
  }

  /** The dependent-service safety invariant over a whole run: the database is asked to
      stop exactly when the roster query succeeded and showed the deployer inactive, and
      when it did not, no target-state request of any kind is ever issued. */
  lemma StopOnlyWhenDeployerShownInactive(fleet: FleetClient, c: Collaborators, k: nat, w: BucketWriter,
                                          dataFolder: string, targetFolder: string, archiveName: string)
    ensures var run := InnerRun(fleet, c, k, w, dataFolder, targetFolder, archiveName);
            var safe := fleet.unitStatesError.None? && DeployerShownInactive(fleet.roster);
            && (SetUnitTargetStateCalled(NeoServiceName, InactiveTarget) in run.events <==> safe)
            && (!safe ==> forall i :: 0 <= i < |run.events| ==> !run.events[i].SetUnitTargetStateCalled?)
  {
    var stopResult := fleet.SetTargetAnswer(NeoServiceName, InactiveTarget);
    ShutDownFailsClosed(fleet.roster, fleet.unitStatesError, stopResult);
    var run := InnerRun(fleet, c, k, w, dataFolder, targetFolder, archiveName);
    var hot := HotSync(c.RsyncAnswer(k), dataFolder, targetFolder);
    var shut := ShutDownOf(fleet);
    if ShutDownOf(fleet).err.Some? {
      assert run.events == hot + shut.events;
    }
  }

  /** The fresh error of `shutDownNeo` is what a run returns exactly when the roster query
      succeeded and did not show the deployer inactive: no other stage, and no collaborator
      error, can produce it. */
  lemma FreshErrorOnlyFromDeployerCheck(fleet: FleetClient, c: Collaborators, k: nat, w: BucketWriter,
                                        dataFolder: string, targetFolder: string, archiveName: string)
    requires fleet.Valid() && c.Valid()
    ensures var run := InnerRun(fleet, c, k, w, dataFolder, targetFolder, archiveName);
            (run.err == Some(DeployerCheckFailed)) <==>
            (fleet.unitStatesError.None? && !DeployerShownInactive(fleet.roster))
  {
    var stopResult := fleet.SetTargetAnswer(NeoServiceName, InactiveTarget);
    FreshErrorIffDeployerActive(fleet.roster, fleet.unitStatesError, stopResult);
    var hot := HotSync(c.RsyncAnswer(k), dataFolder, targetFolder);
    var n := k + |hot|;
    assert FromCollaborator(c.RsyncAnswer(n)) by {
      if n < |c.rsyncResults| {
        assert FromCollaborator(c.rsyncResults[n]);
      }
    }
  }

  /** The bucket writer opened by `runOuter` is closed exactly when the upload is reached:
      a failed shutdown, cold rsync or `createBackup` leaves it open. */
  lemma WriterClosedIffUploadReached(fleet: FleetClient, c: Collaborators, k: nat, w: BucketWriter,
                                     dataFolder: string, targetFolder: string, archiveName: string)
    ensures var run := InnerRun(fleet, c, k, w, dataFolder, targetFolder, archiveName);
            var hot := HotSync(c.RsyncAnswer(k), dataFolder, targetFolder);
            (WriterClosed(w) in run.events) <==>
            (ShutDownOf(fleet).err.None? && c.RsyncAnswer(k + |hot|).None? && c.createBackupResult.None?)
  {
    var hot := HotSync(c.RsyncAnswer(k), dataFolder, targetFolder);
    var shut := ShutDownOf(fleet);
    assert WriterClosed(w) !in hot + shut.events;
  }

  /** The retry bookkeeping agrees with the trace: the run calls rsync as many times as its
      trace shows, between one and three times. */
  lemma RsyncCallsMatchTrace(fleet: FleetClient, c: Collaborators, k: nat, w: BucketWriter,
                             dataFolder: string, targetFolder: string, archiveName: string)
    ensures var run := InnerRun(fleet, c, k, w, dataFolder, targetFolder, archiveName);
            && Count(run.events, RsyncCalled(dataFolder, targetFolder)) == run.rsyncCalls
            && 1 <= run.rsyncCalls <= 3
  {
    var run := InnerRun(fleet, c, k, w, dataFolder, targetFolder, archiveName);
    var sync := RsyncCalled(dataFolder, targetFolder);
    var hot := HotSync(c.RsyncAnswer(k), dataFolder, targetFolder);
    var shut := ShutDownOf(fleet);
    assert Count(hot, sync) == |hot| by {
      if |hot| == 2 {
        assert hot == [sync] + [sync];
        CountConcat([sync], [sync], sync);
      }
    }
    assert sync !in shut.events;
    CountConcat(hot, shut.events, sync);
    if shut.err.Some? {
      assert run.events == hot + shut.events;
      return;
    }
    var stopped := hot + shut.events + [sync];
    CountConcat(hot + shut.events, [sync], sync);
    if c.RsyncAnswer(k + |hot|).Some? {
      assert run.events == stopped;
      return;
    }
    var rest := AfterColdSync(c, w, targetFolder, archiveName).events;
    NoRsyncAfterColdSync(c, w, targetFolder, archiveName, sync);
    CountConcat(stopped, rest, sync);
  }

  /** The stages after the cold rsync never run rsync again. */
  lemma NoRsyncAfterColdSync(c: Collaborators, w: BucketWriter, targetFolder: string, archiveName: string, e: Event)
    requires e.RsyncCalled?
    ensures e !in AfterColdSync(c, w, targetFolder, archiveName).events
  {
  }

  /** When both constructors succeed, the writer is keyed by the archive name built from
      `now` and the environment tag, and `runInner` archives under that same name. */
  lemma OuterArchiveNameShared(c: Collaborators, cfg: Config, now: UtcTime, k: nat)
    requires ValidTime(now)
    requires c.newFleetClientResult.None? && c.newBucketWriterResult.None?
    ensures var run := OuterRun(c, cfg, now, k);
            var name := ArchiveName(now, cfg.env);
            && run.events[1] == NewBucketWriterCalled(cfg.awsAccessKey, cfg.awsSecretKey, cfg.s3Domain, cfg.bucketName, name)
            && run.events[2..] == InnerRun(c.fleetClient, c, k, BucketWriter(cfg.bucketName, name),
                                           cfg.dataFolder, cfg.targetFolder, name).events
            && run.err == InnerRun(c.fleetClient, c, k, BucketWriter(cfg.bucketName, name),
                                   cfg.dataFolder, cfg.targetFolder, name).err
  {
  }
}
