/** Values shared by the whole model: Go's nil-able `error`, the record of every
    external action the backup performs, and the log object that collects it. */
module Effects {

  datatype Option<+T> = None | Some(value: T)

  /** A Go `error` value: one a collaborator returned, or the error `shutDownNeo` creates
      itself with `errors.New`, which is fresh and so equal to no other error. */
  datatype Error = Error(message: string) | DeployerCheckFailed

  /** An answer a collaborator can give: nil, or an error of its own, never the value
      that `shutDownNeo` creates. */
  predicate FromCollaborator(e: Option<Error>)
  {
    e.None? || e.value.Error?
  }

  /** The bucket writer handed out by the S3 writer provider, keyed by the archive name. */
  datatype BucketWriter = BucketWriter(bucketName: string, archiveName: string)

  /** The reading end of the pipe that `createBackup` fills with the tar/gzip stream. */
  datatype PipeReader = PipeReader(folder: string, archiveName: string)

  /** Every action with an effect outside the process, in the order it happens. */
  datatype Event =
    | UnitStatesCalled
    | SetUnitTargetStateCalled(name: string, target: string)
    | NewFleetClientCalled(endpoint: string, socksProxy: string)
    | NewBucketWriterCalled(accessKey: string, secretKey: string, domain: string, bucket: string, archiveName: string)
    | RsyncCalled(source: string, destination: string)
    | CreateBackupCalled(folder: string, archiveName: string)
    | CopyCalled(writer: BucketWriter, reader: PipeReader)
    | WriterClosed(writer: BucketWriter)
    | ReaderClosed(reader: PipeReader)
    | ValidateEnvironmentCalled

  /** What one step did: the events it produced and the error it returned. */
  datatype Effect = Effect(events: seq<Event>, err: Option<Error>)

  /** The recorder that stands in for the outside world. */
  class EventLog {
    var events: seq<Event>

    constructor ()
      ensures events == []
    {
      events := [];
    }

    method Record(e: Event)
      modifies this
      ensures events == old(events) + [e]
    {
      events := events + [e];
    }
  }

  /** Number of occurrences of `e` in `s`. */
  function Count(s: seq<Event>, e: Event): (n: nat)
    ensures n <= |s|
    ensures n == 0 <==> e !in s
  {
    if s == [] then 0 else (if s[0] == e then 1 else 0) + Count(s[1..], e)
  }

  lemma {:induction false} CountConcat(a: seq<Event>, b: seq<Event>, e: Event)
    ensures Count(a + b, e) == Count(a, e) + Count(b, e)
  {
    if a == [] {
      assert a + b == b;
    } else {
      assert (a + b)[1..] == a[1..] + b;
      CountConcat(a[1..], b, e);
    }
  }
}
