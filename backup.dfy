/** The backup orchestration of main.go: `runOuter`, the stage sequencer `runInner`
    and `uploadToS3`, over collaborators whose every effect is recorded. */
module Backup {
  import opened Effects
  import opened Fleet
  import opened ArchiveNaming

  /** The process configuration handed to `runOuter`. */
  datatype Config = Config(
    fleetEndpoint: string, socksProxy: string,
    awsAccessKey: string, awsSecretKey: string,
    dataFolder: string, targetFolder: string,
    s3Domain: string, bucketName: string, env: string)

  /** The functions whose code the model does not cover, each an oracle-driven step that
      records itself in `log`: `newFleetClient` (fleet.go) and `newBucketWriter` (main.go) as
      constructors that succeed or fail; `rsync`, `createBackup` and `validateEnvironment`,
      defined outside main.go and fleet.go; and the library calls `io.Copy` and `Close`. */
  class Collaborators {
    const log: EventLog
    /** The client `newFleetClient` hands out when it succeeds. */
    const fleetClient: FleetClient
    const newFleetClientResult: Option<Error>
    const newBucketWriterResult: Option<Error>
    /** The answers of the successive calls to `rsync`; calls past the end succeed. */
    const rsyncResults: seq<Option<Error>>
    var rsyncCount: nat
    const createBackupResult: Option<Error>
    /** The error `io.Copy` stops with, from the archive producer or from the upload. */
    const copyResult: Option<Error>

    constructor (log: EventLog, fleetClient: FleetClient,
                 newFleetClientResult: Option<Error>, newBucketWriterResult: Option<Error>,
                 rsyncResults: seq<Option<Error>>,
                 createBackupResult: Option<Error>, copyResult: Option<Error>)
      requires fleetClient.Valid()
      requires FromCollaborator(newFleetClientResult) && FromCollaborator(newBucketWriterResult)
      requires forall i :: 0 <= i < |rsyncResults| ==> FromCollaborator(rsyncResults[i])
      requires FromCollaborator(createBackupResult) && FromCollaborator(copyResult)
      ensures Valid()
      ensures this.log == log && this.fleetClient == fleetClient
      ensures this.newFleetClientResult == newFleetClientResult
      ensures this.newBucketWriterResult == newBucketWriterResult
      ensures this.rsyncResults == rsyncResults && rsyncCount == 0
      ensures this.createBackupResult == createBackupResult && this.copyResult == copyResult
    {
      this.log := log;
      this.fleetClient := fleetClient;
      this.newFleetClientResult := newFleetClientResult;
      this.newBucketWriterResult := newBucketWriterResult;
      this.rsyncResults := rsyncResults;
      this.rsyncCount := 0;
      this.createBackupResult := createBackupResult;
      this.copyResult := copyResult;
    }

    /** Every error these collaborators answer with is their own, never the value
        `shutDownNeo` creates. */
    predicate Valid()
    {
      fleetClient.Valid() &&
      FromCollaborator(newFleetClientResult) && FromCollaborator(newBucketWriterResult) &&
      (forall i :: 0 <= i < |rsyncResults| ==> FromCollaborator(rsyncResults[i])) &&
      FromCollaborator(createBackupResult) && FromCollaborator(copyResult)
    }

    /** The answer of the n-th call to `rsync`, counting from 0. */
    function RsyncAnswer(n: nat): Option<Error>
    {
      if n < |rsyncResults| then rsyncResults[n] else None
    }

    method NewFleetClient(fleetEndpoint: string, socksProxy: string) returns (client: FleetClient?, err: Option<Error>)
      modifies log
      ensures log.events == old(log.events) + [NewFleetClientCalled(fleetEndpoint, socksProxy)]
      ensures err == newFleetClientResult
      ensures client == if err.None? then fleetClient else null
    {
      log.Record(NewFleetClientCalled(fleetEndpoint, socksProxy));
      err := newFleetClientResult;
      client := if err.None? then fleetClient else null;
    }

    method NewBucketWriter(awsAccessKey: string, awsSecretKey: string, s3Domain: string,
                           bucketName: string, archiveName: string) returns (w: BucketWriter, err: Option<Error>)
      modifies log
      ensures log.events == old(log.events) +
                [NewBucketWriterCalled(awsAccessKey, awsSecretKey, s3Domain, bucketName, archiveName)]
      ensures w == BucketWriter(bucketName, archiveName) && err == newBucketWriterResult
    {
      log.Record(NewBucketWriterCalled(awsAccessKey, awsSecretKey, s3Domain, bucketName, archiveName));
      w, err := BucketWriter(bucketName, archiveName), newBucketWriterResult;
    }

    method Rsync(source: string, destination: string) returns (err: Option<Error>)
      modifies this`rsyncCount, log
      ensures log.events == old(log.events) + [RsyncCalled(source, destination)]
      ensures err == RsyncAnswer(old(rsyncCount)) && rsyncCount == old(rsyncCount) + 1
    {
      log.Record(RsyncCalled(source, destination));
      err := RsyncAnswer(rsyncCount);
      rsyncCount := rsyncCount + 1;
    }

    method CreateBackup(folder: string, archiveName: string) returns (reader: PipeReader, err: Option<Error>)
      modifies log
      ensures log.events == old(log.events) + [CreateBackupCalled(folder, archiveName)]
      ensures reader == PipeReader(folder, archiveName) && err == createBackupResult
    {
      log.Record(CreateBackupCalled(folder, archiveName));
      reader, err := PipeReader(folder, archiveName), createBackupResult;
    }

    method Copy(w: BucketWriter, r: PipeReader) returns (err: Option<Error>)
      modifies log
      ensures log.events == old(log.events) + [CopyCalled(w, r)]
      ensures err == copyResult
    {
      log.Record(CopyCalled(w, r));
      err := copyResult;
    }

    method CloseWriter(w: BucketWriter)
      modifies log
      ensures log.events == old(log.events) + [WriterClosed(w)]
    {
      log.Record(WriterClosed(w));
    }

    method CloseReader(r: PipeReader)
      modifies log
      ensures log.events == old(log.events) + [ReaderClosed(r)]
    {
      log.Record(ReaderClosed(r));
    }

    method ValidateEnvironment()
      modifies log
      ensures log.events == old(log.events) + [ValidateEnvironmentCalled]
    {
      log.Record(ValidateEnvironmentCalled);
    }
  }

  /** What a stage sequence did: its events, how many times it ran rsync, and its error. */
  datatype Run = Run(events: seq<Event>, rsyncCalls: nat, err: Option<Error>)

  // ---------------------------------------------------------------------------
  // uploadToS3

  /** The effect of `uploadToS3`: copy, then close the reader only after a successful
      copy, and close the writer (deferred) last on both paths. */
  function Upload(w: BucketWriter, r: PipeReader, copyResult: Option<Error>): Effect
  {
    if copyResult.Some? then Effect([CopyCalled(w, r), WriterClosed(w)], copyResult)
    else Effect([CopyCalled(w, r), ReaderClosed(r), WriterClosed(w)], None)
  }

  method UploadToS3(c: Collaborators, bucketWriter: BucketWriter, pipeReader: PipeReader) returns (err: Option<Error>)
    modifies c.log
    ensures c.log.events == old(c.log.events) + Upload(bucketWriter, pipeReader, c.copyResult).events
    ensures err == Upload(bucketWriter, pipeReader, c.copyResult).err
  {
    // `defer bucketWriter.Close()`: the close runs on each return path below
    err := c.Copy(bucketWriter, pipeReader);
    if err.Some? {
      c.CloseWriter(bucketWriter);
      return err;
    }
    c.CloseReader(pipeReader);
    c.CloseWriter(bucketWriter);
    return None;
  }

  /** The writer is closed exactly once on every path, the reader once after a successful
      copy and never after a failed one, and the copy error is returned unchanged. */
  lemma UploadCloseDiscipline(w: BucketWriter, r: PipeReader, copyResult: Option<Error>)
    ensures var e := Upload(w, r, copyResult);
            && Count(e.events, WriterClosed(w)) == 1
            && Count(e.events, ReaderClosed(r)) == (if copyResult.None? then 1 else 0)
            && e.err == copyResult
            && e.events[|e.events| - 1] == WriterClosed(w)
  {
    var e := Upload(w, r, copyResult);
    if copyResult.Some? {
      CountConcat([CopyCalled(w, r)], [WriterClosed(w)], WriterClosed(w));
      CountConcat([CopyCalled(w, r)], [WriterClosed(w)], ReaderClosed(r));
      assert e.events == [CopyCalled(w, r)] + [WriterClosed(w)];
    } else {
      var ev := [CopyCalled(w, r)] + [ReaderClosed(r)] + [WriterClosed(w)];
      CountConcat([CopyCalled(w, r)], [ReaderClosed(r)], WriterClosed(w));
      CountConcat([CopyCalled(w, r)] + [ReaderClosed(r)], [WriterClosed(w)], WriterClosed(w));
      CountConcat([CopyCalled(w, r)], [ReaderClosed(r)], ReaderClosed(r));
      CountConcat([CopyCalled(w, r)] + [ReaderClosed(r)], [WriterClosed(w)], ReaderClosed(r));
      assert e.events == ev;
    }
  }

  // ---------------------------------------------------------------------------
  // runInner

  /** The events of the hot phase: one rsync, and a second one when the first failed. */
  function HotSync(firstResult: Option<Error>, dataFolder: string, targetFolder: string): seq<Event>
  {
    if firstResult.Some? then [RsyncCalled(dataFolder, targetFolder), RsyncCalled(dataFolder, targetFolder)]
    else [RsyncCalled(dataFolder, targetFolder)]
  }

  /** The shutdown step as the fleet mock `fleet` answers it. */
  function ShutDownOf(fleet: FleetClient): Effect
  {
    ShutDown(fleet.roster, fleet.unitStatesError, fleet.SetTargetAnswer(NeoServiceName, InactiveTarget))
  }

  /** The part of `runInner` after a successful cold rsync: start neo4j, archive the
      target folder, upload, validate. */
  function AfterColdSync(c: Collaborators, bucketWriter: BucketWriter, targetFolder: string, archiveName: string): Effect
  {
    var start := StartNeoEffect();
    if start.err.Some? then start
    else
      var archived := start.events + [CreateBackupCalled(targetFolder, archiveName)];
      var archiveErr := c.createBackupResult;
      if archiveErr.Some? then Effect(archived, archiveErr)
      else
        var up := Upload(bucketWriter, PipeReader(targetFolder, archiveName), c.copyResult);
        if up.err.Some? then Effect(archived + up.events, up.err)
        else Effect(archived + up.events + [ValidateEnvironmentCalled], None)
  }

  /** The whole of `runInner` when rsync has already been called `k` times. */
  function InnerRun(fleet: FleetClient, c: Collaborators, k: nat, bucketWriter: BucketWriter,
                    dataFolder: string, targetFolder: string, archiveName: string): Run
  {
    var hot := HotSync(c.RsyncAnswer(k), dataFolder, targetFolder);
    var shut := ShutDownOf(fleet);
    if shut.err.Some? then Run(hot + shut.events, |hot|, shut.err)
    else
      var cold := c.RsyncAnswer(k + |hot|);
      var stopped := hot + shut.events + [RsyncCalled(dataFolder, targetFolder)];
      if cold.Some? then Run(stopped, |hot| + 1, cold)
      else
        var rest := AfterColdSync(c, bucketWriter, targetFolder, archiveName);
        Run(stopped + rest.events, |hot| + 1, rest.err)
  }

  /** The hot phase of `runInner`: rsync while the database runs, re-tried once when it
      fails; the outcome of the second attempt is only logged, so nothing is returned. */
  method HotRsync(c: Collaborators, dataFolder: string, targetFolder: string)
    modifies c`rsyncCount, c.log
    ensures var hot := HotSync(c.RsyncAnswer(old(c.rsyncCount)), dataFolder, targetFolder);
            c.log.events == old(c.log.events) + hot && c.rsyncCount == old(c.rsyncCount) + |hot|
  {
    var err := c.Rsync(dataFolder, targetFolder);
    if err.Some? {
      err := c.Rsync(dataFolder, targetFolder);
    }
  }

  /** The stages of `runInner` after a successful cold rsync, each fatal in turn:
      start neo4j, `createBackup` on the target folder, upload, validate. */
  method RestartAndUpload(fleetClient: FleetClient, c: Collaborators, bucketWriter: BucketWriter,
                          targetFolder: string, archiveName: string) returns (err: Option<Error>)
    requires fleetClient.log == c.log
    modifies c.log
    ensures var rest := AfterColdSync(c, bucketWriter, targetFolder, archiveName);
            c.log.events == old(c.log.events) + rest.events && err == rest.err
  {
    ghost var before := c.log.events;
    ghost var rest := AfterColdSync(c, bucketWriter, targetFolder, archiveName);
    err := StartNeo(fleetClient);
    // startNeo returns nil on every path, so the error branch that follows it in
    // main.go can never be taken
    assert err.None?;
    var pipeReader;
    pipeReader, err := c.CreateBackup(targetFolder, archiveName);
    ghost var archived := StartNeoEffect().events + [CreateBackupCalled(targetFolder, archiveName)];
    assert c.log.events == before + archived;
    if err.Some? {
      assert rest == Effect(archived, err);
      return err;
    }
    ghost var up := Upload(bucketWriter, pipeReader, c.copyResult);
    err := UploadToS3(c, bucketWriter, pipeReader);
    assert c.log.events == before + (archived + up.events);
    if err.Some? {
      assert rest == Effect(archived + up.events, up.err);
      return err;
    }
    c.ValidateEnvironment();
    assert rest == Effect(archived + up.events + [ValidateEnvironmentCalled], None);
    return None;
  }

  /** `runInner`: hot rsync (retried once, never fatal), shut down neo4j (fatal), cold
      rsync (fatal), then the restart, archive and upload stages. */
  method RunInner(fleetClient: FleetClient, c: Collaborators, bucketWriter: BucketWriter,
                  dataFolder: string, targetFolder: string, archiveName: string) returns (err: Option<Error>)
    requires fleetClient.log == c.log
    modifies c`rsyncCount, c.log
    ensures var run := InnerRun(fleetClient, c, old(c.rsyncCount), bucketWriter, dataFolder, targetFolder, archiveName);
            && c.log.events == old(c.log.events) + run.events
            && c.rsyncCount == old(c.rsyncCount) + run.rsyncCalls
            && err == run.err
  {
    ghost var k := c.rsyncCount;
    ghost var before := c.log.events;
    ghost var hot := HotSync(c.RsyncAnswer(k), dataFolder, targetFolder);
    HotRsync(c, dataFolder, targetFolder);
    ghost var shut := ShutDownOf(fleetClient);
    err := ShutDownNeo(fleetClient);
    if err.Some? {
      return err;
    }
    ghost var stopped := hot + shut.events + [RsyncCalled(dataFolder, targetFolder)];
    err := c.Rsync(dataFolder, targetFolder);
    assert c.log.events == before + stopped && c.rsyncCount == k + |hot| + 1;
    if err.Some? {
      return err;
    }
    err := RestartAndUpload(fleetClient, c, bucketWriter, targetFolder, archiveName);
  }

  // ---------------------------------------------------------------------------
  // runOuter

  /** The whole of `runOuter` when rsync has already been called `k` times. */
  function OuterRun(c: Collaborators, cfg: Config, now: UtcTime, k: nat): Run
    requires ValidTime(now)
  {
    var built := [NewFleetClientCalled(cfg.fleetEndpoint, cfg.socksProxy)];
    if c.newFleetClientResult.Some? then Run(built, 0, c.newFleetClientResult)
    else
      var archiveName := ArchiveName(now, cfg.env);
      var withWriter := built + [NewBucketWriterCalled(cfg.awsAccessKey, cfg.awsSecretKey, cfg.s3Domain, cfg.bucketName, archiveName)];
      if c.newBucketWriterResult.Some? then Run(withWriter, 0, c.newBucketWriterResult)
      else
        var inner := InnerRun(c.fleetClient, c, k, BucketWriter(cfg.bucketName, archiveName),
                              cfg.dataFolder, cfg.targetFolder, archiveName);
        Run(withWriter + inner.events, inner.rsyncCalls, inner.err)
  }

  /** `runOuter` stops at a fleet-client failure before any bucket writer exists, and at a
      bucket-writer failure before any stage of `runInner` runs. */
  lemma OuterEarlyExits(c: Collaborators, cfg: Config, now: UtcTime, k: nat)
    requires ValidTime(now)
    ensures var run := OuterRun(c, cfg, now, k);
            && (c.newFleetClientResult.Some? ==>
                  run == Run([NewFleetClientCalled(cfg.fleetEndpoint, cfg.socksProxy)], 0, c.newFleetClientResult))
            && (c.newFleetClientResult.None? && c.newBucketWriterResult.Some? ==>
                  run == Run([NewFleetClientCalled(cfg.fleetEndpoint, cfg.socksProxy),
                              NewBucketWriterCalled(cfg.awsAccessKey, cfg.awsSecretKey, cfg.s3Domain,
                                                    cfg.bucketName, ArchiveName(now, cfg.env))],
                             0, c.newBucketWriterResult))
  {
  }

  /** The success path of `runOuter`: the two constructions, then the whole of `runInner`. */
  lemma OuterRunReachesInner(c: Collaborators, cfg: Config, now: UtcTime, k: nat)
    requires ValidTime(now)
    requires c.newFleetClientResult.None? && c.newBucketWriterResult.None?
    ensures var name := ArchiveName(now, cfg.env);
            var inner := InnerRun(c.fleetClient, c, k, BucketWriter(cfg.bucketName, name),
                                  cfg.dataFolder, cfg.targetFolder, name);
            OuterRun(c, cfg, now, k) ==
              Run([NewFleetClientCalled(cfg.fleetEndpoint, cfg.socksProxy),
                   NewBucketWriterCalled(cfg.awsAccessKey, cfg.awsSecretKey, cfg.s3Domain, cfg.bucketName, name)]
                  + inner.events, inner.rsyncCalls, inner.err)
  {
  }

  /** `runOuter`: build the fleet client, name the archive after the current UTC time
      `now` and the environment tag, open the bucket writer, then run the stages. */
  method RunOuter(c: Collaborators, cfg: Config, now: UtcTime) returns (err: Option<Error>)
    requires ValidTime(now)
    requires c.fleetClient.log == c.log
    modifies c`rsyncCount, c.log
    ensures var run := OuterRun(c, cfg, now, old(c.rsyncCount));
            && c.log.events == old(c.log.events) + run.events
            && c.rsyncCount == old(c.rsyncCount) + run.rsyncCalls
            && err == run.err
  {
    ghost var k := c.rsyncCount;
    var fleetClient;
    fleetClient, err := c.NewFleetClient(cfg.fleetEndpoint, cfg.socksProxy);
    if err.Some? {
      return err;
    }
    var archiveName := ArchiveName(now, cfg.env);
    var bucketWriter;
    bucketWriter, err := c.NewBucketWriter(cfg.awsAccessKey, cfg.awsSecretKey, cfg.s3Domain, cfg.bucketName, archiveName);
    if err.Some? {
      OuterEarlyExits(c, cfg, now, k);
      return err;
    }
    err := RunInner(fleetClient, c, bucketWriter, cfg.dataFolder, cfg.targetFolder, archiveName);
    OuterRunReachesInner(c, cfg, now, k);
  }
}
