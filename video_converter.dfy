/**
 * The video conversion service of internal/application/service/video_converter.go.
 *
 * The service hands `ConversionJob`s to a worker pool whose processing function
 * is `processJob`. The repository and the ffmpeg service it calls are given as
 * `Collaborators`: the answer each call gets, as a function of the call's
 * arguments (as the tests' mocks give them). `processJob` returns, besides its
 * result, the calls it made, in order.
 */
module Converter {
  import opened Wrappers
  import opened Errors
  import opened Paths
  import Entity
  import opened FFmpeg
  import WorkerPool

  /** `ConversionJob`. */
  datatype ConversionJob = ConversionJob(videoID: string, inputPath: string, outputDir: string)

  /** `ConversionResult`; the processing duration is not modelled. */
  datatype ConversionResult = ConversionResult(videoID: string, success: bool, error: Option<Error>, outputFiles: seq<OutputFile>)

  /** The error message column written with a status: empty, or the text of an error. */
  datatype Message = NoMessage | TextOf(err: Error)

  /** A call to a collaborator. */
  datatype Call =
    | UpdateStatus(id: string, status: string, message: Message)
    | UpdateHLSPath(id: string, hlsPath: string, manifestPath: string)
    | ConvertToHLS(input: string, outputDir: string)

  /** What the repository's `UpdateStatus` and the ffmpeg service's `ConvertToHLS` answer. */
  datatype Collaborators = Collaborators(
    updateStatus: (string, string, Message) -> Outcome<Error>,
    convertToHLS: (string, string) -> Result<seq<OutputFile>, Error>)

  /** `prepareOutputDirectory`: the job's own directory, or by default the video's directory under "uploads/converted". */
  function PrepareOutputDirectory(job: ConversionJob): (dir: string)
    ensures dir != ""
    ensures job.outputDir != "" ==> dir == job.outputDir
    ensures job.outputDir == "" && job.videoID != "" ==> dir == "uploads/converted/" + job.videoID
    ensures job.outputDir == "" && job.videoID == "" ==> dir == "uploads/converted"
  {
    if job.outputDir != "" then job.outputDir
    else Join(Join("uploads", "converted"), job.videoID)
  }

  function Identity(path: string): string
  {
    path
  }

  /**
   * The first non-empty `pick` of the path of a file of type `fileType`, or ""
   * when there is none.
   */
  function FirstPicked(files: seq<OutputFile>, fileType: string, pick: string -> string): string
    decreases |files|
  {
    if files == [] then ""
    else if files[0].fileType == fileType && pick(files[0].path) != "" then pick(files[0].path)
    else FirstPicked(files[1..], fileType, pick)
  }

  /** The manifest `findManifestAndHLSPaths` finds: the path of the first manifest (with a non-empty path). */
  function FirstManifest(files: seq<OutputFile>): string
  {
    FirstPicked(files, Entity.FileTypeManifest, Identity)
  }

  /** The HLS directory `findManifestAndHLSPaths` finds: the directory of the first segment. */
  function FirstSegmentDir(files: seq<OutputFile>): string
  {
    FirstPicked(files, Entity.FileTypeSegment, Dir)
  }

  /** The first match in `a + b` is the first in `a`, or else the first in `b`. */
  lemma {:induction false} FirstPickedAppend(a: seq<OutputFile>, b: seq<OutputFile>, fileType: string, pick: string -> string)
    ensures FirstPicked(a + b, fileType, pick)
         == if FirstPicked(a, fileType, pick) != "" then FirstPicked(a, fileType, pick) else FirstPicked(b, fileType, pick)
    decreases |a|
  {
    if a == [] {
      assert a + b == b;
    } else {
      assert (a + b)[0] == a[0] && (a + b)[1..] == a[1..] + b;
      FirstPickedAppend(a[1..], b, fileType, pick);
    }
  }

  /**
   * `FirstPicked` is a first-match search: it is "" exactly when no file of the
   * type has a non-empty pick, and otherwise it is the pick of such a file
   * before which no file of the type has one.
   */
  lemma {:induction false} FirstPickedIsFirstMatch(files: seq<OutputFile>, fileType: string, pick: string -> string)
    ensures FirstPicked(files, fileType, pick) == "" <==>
      forall i :: 0 <= i < |files| && files[i].fileType == fileType ==> pick(files[i].path) == ""
    ensures FirstPicked(files, fileType, pick) != "" ==>
      exists k :: 0 <= k < |files| && files[k].fileType == fileType && pick(files[k].path) == FirstPicked(files, fileType, pick) &&
        forall i :: 0 <= i < k && files[i].fileType == fileType ==> pick(files[i].path) == ""
    decreases |files|
  {
    if files != [] {
      FirstPickedIsFirstMatch(files[1..], fileType, pick);
      var r := FirstPicked(files, fileType, pick);
      if files[0].fileType == fileType && pick(files[0].path) != "" {
        assert files[0].fileType == fileType && pick(files[0].path) == r;
      } else if r != "" {
        var k :| 0 <= k < |files[1..]| && files[1..][k].fileType == fileType && pick(files[1..][k].path) == r &&
          forall i :: 0 <= i < k && files[1..][i].fileType == fileType ==> pick(files[1..][i].path) == "";
        assert files[k + 1] == files[1..][k];
        assert forall i :: 0 <= i < k + 1 && files[i].fileType == fileType ==> pick(files[i].path) == "" by {
          forall i | 0 < i < k + 1 ensures files[i] == files[1..][i - 1] {}
        }
      } else {
        assert forall i :: 0 < i < |files| ==> files[i] == files[1..][i - 1];
      }
    }
  }

  /**
   * `findManifestAndHLSPaths`: one pass that keeps the first manifest's path
   * and the first segment's directory, and stops once it has both.
   */
  method FindManifestAndHLSPaths(outputFiles: seq<OutputFile>) returns (manifestPath: string, hlsPath: string)
    ensures manifestPath == FirstManifest(outputFiles)
    ensures hlsPath == FirstSegmentDir(outputFiles)
  {
    manifestPath, hlsPath := "", "";
    var i := 0;
    while i < |outputFiles|
      invariant 0 <= i <= |outputFiles|
      invariant manifestPath == FirstManifest(outputFiles[..i])
      invariant hlsPath == FirstSegmentDir(outputFiles[..i])
    {
      var file := outputFiles[i];
      if manifestPath == "" && file.fileType == Entity.FileTypeManifest {
        manifestPath := file.path;
      }
      if hlsPath == "" && file.fileType == Entity.FileTypeSegment {
        hlsPath := Dir(file.path);
      }
      assert outputFiles[..i + 1] == outputFiles[..i] + [file];
      assert [file][1..] == [];
      FirstPickedAppend(outputFiles[..i], [file], Entity.FileTypeManifest, Identity);
      FirstPickedAppend(outputFiles[..i], [file], Entity.FileTypeSegment, Dir);
      i := i + 1;
      if manifestPath != "" && hlsPath != "" {
        assert outputFiles == outputFiles[..i] + outputFiles[i..];
        FirstPickedAppend(outputFiles[..i], outputFiles[i..], Entity.FileTypeManifest, Identity);
        FirstPickedAppend(outputFiles[..i], outputFiles[i..], Entity.FileTypeSegment, Dir);
        break;
      }
    }
    assert i == |outputFiles| ==> outputFiles[..i] == outputFiles;
  }

  /** The first match in a list that starts with `file`. */
  lemma FirstPickedCons(file: OutputFile, rest: seq<OutputFile>, fileType: string, pick: string -> string)
    ensures FirstPicked([file] + rest, fileType, pick)
         == if file.fileType == fileType && pick(file.path) != "" then pick(file.path) else FirstPicked(rest, fileType, pick)
  {
    assert ([file] + rest)[1..] == rest;
  }

  /**
   * Over the files collected from an output directory, the manifest found is
   * the first playlist entry joined to that directory.
   */
  lemma {:induction false} FirstManifestOfCollected(dir: string, names: seq<string>, k: nat)
    requires dir != ""
    requires k < |names| && FileTypeOf(names[k]) == Entity.FileTypeManifest
    requires forall i :: 0 <= i < k ==> FileTypeOf(names[i]) == Entity.FileTypeSegment
    ensures FirstManifest(Collected(dir, names)) == Join(dir, names[k])
    decreases k
  {
    var head := OutputFile(Join(dir, names[0]), FileTypeOf(names[0]));
    assert Collected(dir, names) == [head] + Collected(dir, names[1..]);
    FirstPickedCons(head, Collected(dir, names[1..]), Entity.FileTypeManifest, Identity);
    if k == 0 {
      assert |Join(dir, names[0])| >= |dir| > 0;
      assert Identity(head.path) == Join(dir, names[0]);
    } else {
      assert head.fileType == Entity.FileTypeSegment;
      assert names[1..][k - 1] == names[k];
      FirstManifestOfCollected(dir, names[1..], k - 1);
    }
  }

  /**
   * Over the files collected from an output directory, the HLS directory found
   * is that directory itself as soon as one entry is not a playlist (entries
   * being plain file names).
   */
  lemma {:induction false} FirstSegmentDirOfCollected(dir: string, names: seq<string>, k: nat)
    requires dir != "" && dir[|dir| - 1] != '/'
    requires k < |names| && FileTypeOf(names[k]) == Entity.FileTypeSegment && names[k] != "" && '/' !in names[k]
    requires forall i :: 0 <= i < k ==> FileTypeOf(names[i]) == Entity.FileTypeManifest
    ensures FirstSegmentDir(Collected(dir, names)) == dir
    decreases k
  {
    var head := OutputFile(Join(dir, names[0]), FileTypeOf(names[0]));
    assert Collected(dir, names) == [head] + Collected(dir, names[1..]);
    FirstPickedCons(head, Collected(dir, names[1..]), Entity.FileTypeSegment, Dir);
    if k == 0 {
      DirOfJoin(dir, names[0]);
    } else {
      FirstSegmentDirOfCollected(dir, names[1..], k - 1);
    }
  }

  /** What one job does: its result and the calls it made, in order. */
  datatype JobRun = JobRun(result: ConversionResult, calls: seq<Call>)

  /**
   * The specification of `processJob`: the result is about the job's video and
   * succeeds exactly when it carries no error; the first call marks the video
   * processing and the last one records the outcome, completed or failed with
   * the error's text; every call is about the job's video or its input.
   */
  function Pipeline(env: Collaborators, job: ConversionJob): (r: JobRun)
    ensures r.result.videoID == job.videoID
    ensures r.result.success <==> r.result.error.None?
    ensures !r.result.success ==> r.result.outputFiles == []
    ensures 2 <= |r.calls| <= 4
    ensures r.calls[0] == UpdateStatus(job.videoID, Entity.StatusProcessing, NoMessage)
    ensures r.calls[|r.calls| - 1]
         == if r.result.success then UpdateStatus(job.videoID, Entity.StatusCompleted, NoMessage)
            else UpdateStatus(job.videoID, Entity.StatusError, TextOf(r.result.error.value))
    ensures forall c :: c in r.calls ==> (c.ConvertToHLS? ==> c.input == job.inputPath) && (!c.ConvertToHLS? ==> c.id == job.videoID)
  {
    var id := job.videoID;
    var processing := env.updateStatus(id, Entity.StatusProcessing, NoMessage);
    if processing.Fail? then
      var err := UpdateProcessingFailed(processing.error);
      JobRun(ConversionResult(id, false, Some(err), []),
             [UpdateStatus(id, Entity.StatusProcessing, NoMessage), UpdateStatus(id, Entity.StatusError, TextOf(err))])
    else
      var outputDir := PrepareOutputDirectory(job);
      var converted := env.convertToHLS(job.inputPath, outputDir);
      if converted.Failure? then
        var err := ConversionFailed(converted.error);
        JobRun(ConversionResult(id, false, Some(err), []),
               [UpdateStatus(id, Entity.StatusProcessing, NoMessage), ConvertToHLS(job.inputPath, outputDir),
                UpdateStatus(id, Entity.StatusError, TextOf(err))])
      else
        var files := converted.value;
        var manifestPath, hlsPath := FirstManifest(files), FirstSegmentDir(files);
        JobRun(ConversionResult(id, true, None, files),
               [UpdateStatus(id, Entity.StatusProcessing, NoMessage), ConvertToHLS(job.inputPath, outputDir)]
               + (if manifestPath != "" && hlsPath != "" then [UpdateHLSPath(id, hlsPath, manifestPath)] else [])
               + [UpdateStatus(id, Entity.StatusCompleted, NoMessage)])
  }

  /** `updateVideoStatusToProcessing`: on failure the video is marked failed with the wrapped error. */
  method UpdateVideoStatusToProcessing(env: Collaborators, videoID: string) returns (err: Option<Error>, calls: seq<Call>)
    ensures var o := env.updateStatus(videoID, Entity.StatusProcessing, NoMessage);
      && (o.Pass? ==> err == None && calls == [UpdateStatus(videoID, Entity.StatusProcessing, NoMessage)])
      && (o.Fail? ==>
            err == Some(UpdateProcessingFailed(o.error)) &&
            calls == [UpdateStatus(videoID, Entity.StatusProcessing, NoMessage),
                      UpdateStatus(videoID, Entity.StatusError, TextOf(UpdateProcessingFailed(o.error)))])
  {
    calls := [UpdateStatus(videoID, Entity.StatusProcessing, NoMessage)];
    var o := env.updateStatus(videoID, Entity.StatusProcessing, NoMessage);
    if o.Fail? {
      var errWithContext := UpdateProcessingFailed(o.error);
      // the outcome of this second update is only logged
      calls := calls + [UpdateStatus(videoID, Entity.StatusError, TextOf(errWithContext))];
      return Some(errWithContext), calls;
    }
    err := None;
  }

  /** `convertVideoToHLS`: on failure the video is marked failed with the wrapped error. */
  method ConvertVideoToHLS(env: Collaborators, videoID: string, inputPath: string, outputDir: string)
    returns (r: Result<seq<OutputFile>, Error>, calls: seq<Call>)
    ensures var c := env.convertToHLS(inputPath, outputDir);
      && (c.Success? ==> r == c && calls == [ConvertToHLS(inputPath, outputDir)])
      && (c.Failure? ==>
            r == Failure(ConversionFailed(c.error)) &&
            calls == [ConvertToHLS(inputPath, outputDir), UpdateStatus(videoID, Entity.StatusError, TextOf(ConversionFailed(c.error)))])
  {
    calls := [ConvertToHLS(inputPath, outputDir)];
    var c := env.convertToHLS(inputPath, outputDir);
    if c.Failure? {
      var errWithContext := ConversionFailed(c.error);
      calls := calls + [UpdateStatus(videoID, Entity.StatusError, TextOf(errWithContext))];
      return Failure(errWithContext), calls;
    }
    r := c;
  }

  /**
   * `processOutputFiles`: records the HLS paths only when both a manifest and a
   * segment were found, then marks the video completed; the outcomes of both
   * updates are only logged.
   */
  method ProcessOutputFiles(videoID: string, outputFiles: seq<OutputFile>) returns (calls: seq<Call>)
    ensures var m, h := FirstManifest(outputFiles), FirstSegmentDir(outputFiles);
      calls == (if m != "" && h != "" then [UpdateHLSPath(videoID, h, m)] else []) + [UpdateStatus(videoID, Entity.StatusCompleted, NoMessage)]
  {
    var manifestPath, hlsPath := FindManifestAndHLSPaths(outputFiles);
    calls := [];
    if manifestPath != "" && hlsPath != "" {
      calls := calls + [UpdateHLSPath(videoID, hlsPath, manifestPath)];
    }
    calls := calls + [UpdateStatus(videoID, Entity.StatusCompleted, NoMessage)];
  }

  /** `processJob`: the result starts as a failure and is filled in step by step. */
  method ProcessJob(env: Collaborators, job: ConversionJob) returns (result: ConversionResult, calls: seq<Call>)
    ensures JobRun(result, calls) == Pipeline(env, job)
  {
    result := ConversionResult(job.videoID, false, None, []);
    var err, made := UpdateVideoStatusToProcessing(env, job.videoID);
    calls := made;
    if err.Some? {
      result := result.(error := err);
      return;
    }
    var outputDir := PrepareOutputDirectory(job);
    var converted;
    converted, made := ConvertVideoToHLS(env, job.videoID, job.inputPath, outputDir);
    calls := calls + made;
    if converted.Failure? {
      result := result.(error := Some(converted.error));
      return;
    }
    result := result.(success := true, outputFiles := converted.value);
    made := ProcessOutputFiles(job.videoID, converted.value);
    calls := calls + made;
  }

  /**
   * Every result carries the job's video id, and it is a success exactly when
   * the video was marked processing and converted, in which case it has no
   * error and lists the converted files.
   */
  lemma ResultOfJob(env: Collaborators, job: ConversionJob)
    ensures var run := Pipeline(env, job);
      && run.result.videoID == job.videoID
      && (run.result.success <==>
            env.updateStatus(job.videoID, Entity.StatusProcessing, NoMessage).Pass? &&
            env.convertToHLS(job.inputPath, PrepareOutputDirectory(job)).Success?)
      && (run.result.success <==> run.result.error.None?)
      && (run.result.success ==> run.result.outputFiles == env.convertToHLS(job.inputPath, PrepareOutputDirectory(job)).value)
  {
  }

  /**
   * When the video cannot be marked processing, it is marked failed with the
   * wrapped error, ffmpeg is never called, and the result's error wraps the cause.
   */
  lemma ProcessingUpdateFailure(env: Collaborators, job: ConversionJob)
    requires env.updateStatus(job.videoID, Entity.StatusProcessing, NoMessage).Fail?
    ensures var cause := env.updateStatus(job.videoID, Entity.StatusProcessing, NoMessage).error;
      var run := Pipeline(env, job);
      && run.result.error.Some? && Wraps(run.result.error.value, cause)
      && (forall c :: c in run.calls ==> !c.ConvertToHLS? && !c.UpdateHLSPath?)
      && run.calls[|run.calls| - 1] == UpdateStatus(job.videoID, Entity.StatusError, TextOf(run.result.error.value))
  {
  }

  /**
   * When the conversion fails, the video is marked failed with the wrapped
   * error, its HLS paths are not recorded, it is never marked completed, and
   * the result's error wraps the cause.
   */
  lemma ConversionFailure(env: Collaborators, job: ConversionJob)
    requires env.updateStatus(job.videoID, Entity.StatusProcessing, NoMessage).Pass?
    requires env.convertToHLS(job.inputPath, PrepareOutputDirectory(job)).Failure?
    ensures var cause := env.convertToHLS(job.inputPath, PrepareOutputDirectory(job)).error;
      var run := Pipeline(env, job);
      && run.result.error.Some? && Wraps(run.result.error.value, cause)
      && (forall c :: c in run.calls ==> !c.UpdateHLSPath? && c != UpdateStatus(job.videoID, Entity.StatusCompleted, NoMessage))
      && run.calls[|run.calls| - 1] == UpdateStatus(job.videoID, Entity.StatusError, TextOf(run.result.error.value))
  {
  }

  /**
   * After a successful conversion, the HLS paths are recorded exactly when a
   * manifest and a segment were found, and the video is then marked completed.
   */
  lemma SuccessfulConversion(env: Collaborators, job: ConversionJob)
    requires env.updateStatus(job.videoID, Entity.StatusProcessing, NoMessage).Pass?
    requires env.convertToHLS(job.inputPath, PrepareOutputDirectory(job)).Success?
    ensures var files := env.convertToHLS(job.inputPath, PrepareOutputDirectory(job)).value;
      var run := Pipeline(env, job);
      && run.result.success
      && ((exists c :: c in run.calls && c.UpdateHLSPath?) <==> FirstManifest(files) != "" && FirstSegmentDir(files) != "")
      && run.calls[|run.calls| - 1] == UpdateStatus(job.videoID, Entity.StatusCompleted, NoMessage)
  {
    var files := env.convertToHLS(job.inputPath, PrepareOutputDirectory(job)).value;
    var run := Pipeline(env, job);
    if FirstManifest(files) != "" && FirstSegmentDir(files) != "" {
      assert run.calls[2].UpdateHLSPath?;
    }
  }

  /**
   * The outcome of processing depends on the repository only through its
   * answer to the "processing" update: what the later updates (the failed or
   * completed status, the HLS paths) answer cannot change the result.
   */
  lemma LaterUpdatesDoNotMatter(env: Collaborators, other: Collaborators, job: ConversionJob)
    requires env.updateStatus(job.videoID, Entity.StatusProcessing, NoMessage)
          == other.updateStatus(job.videoID, Entity.StatusProcessing, NoMessage)
    requires env.convertToHLS(job.inputPath, PrepareOutputDirectory(job))
          == other.convertToHLS(job.inputPath, PrepareOutputDirectory(job))
    ensures Pipeline(env, job) == Pipeline(other, job)
  {
  }

  /** `VideoConverterConfig`; `None` stands for a nil logger. */
  datatype VideoConverterConfig = VideoConverterConfig(workerCount: int, logger: Option<WorkerPool.Logger>)

  /** `DefaultVideoConverterConfig`: three workers and a JSON logger on standard output. */
  function DefaultVideoConverterConfig(): (c: VideoConverterConfig)
    ensures c.workerCount >= 1 && c.logger.Some?
  {
    VideoConverterConfig(3, Some(WorkerPool.JsonStdout))
  }

  /** `VideoConverterService`. */
  class VideoConverterService {
    const env: Collaborators
    const logger: WorkerPool.Logger
    const workerPool: WorkerPool.Pool<ConversionJob, ConversionResult>

    ghost predicate Valid()
      reads this, workerPool
    {
      workerPool.Valid()
    }

    /**
     * `NewVideoConverter`: a non-positive worker count becomes 1 and a nil logger
     * a JSON logger; both go to a new idle pool whose processing function is `processJob`.
     */
    constructor NewVideoConverter(env: Collaborators, config: VideoConverterConfig)
      ensures Valid() && fresh(workerPool)
      ensures workerPool.workerCount == (if config.workerCount <= 0 then 1 else config.workerCount)
      ensures logger == config.logger.GetOr(WorkerPool.JsonStdout) && workerPool.logger == logger
      ensures workerPool.state == WorkerPool.Idle && !IsRunning()
      ensures forall job :: workerPool.process(job) == Pipeline(env, job).result
    {
      var c := config;
      if c.workerCount <= 0 {
        c := c.(workerCount := 1);
      }
      if c.logger.None? {
        c := c.(logger := Some(WorkerPool.JsonStdout));
      }
      this.env := env;
      logger := c.logger.value;
      var processFunc := (job: ConversionJob) => Pipeline(env, job).result;
      workerPool := new WorkerPool.Pool.New(processFunc, WorkerPool.Config(c.workerCount, c.logger));
    }

    /** `IsRunning`: the pool is running. */
    function IsRunning(): (b: bool)
      reads this, workerPool
      ensures b <==> workerPool.state == WorkerPool.Running
    {
      workerPool.IsRunning()
    }

    /**
     * `StartConversion`: refused while running, with the pool left as it is;
     * otherwise starts the pool and returns its new run's result stream.
     */
    method StartConversion() returns (r: Result<nat, Error>)
      requires Valid()
      modifies workerPool
      ensures Valid()
      ensures old(workerPool.state) == WorkerPool.Running ==> r == Failure(AlreadyRunning) && unchanged(workerPool)
      ensures old(workerPool.state) != WorkerPool.Running ==>
        && r == Success(workerPool.run) && IsRunning()
        && workerPool.run !in old(workerPool.signals) && workerPool.live == workerPool.workerCount
    {
      if workerPool.IsRunning() {
        return Failure(AlreadyRunning);
      }
      var started := workerPool.Start();
      match started {
        case Failure(e) =>
          r := Failure(StartPoolFailed(e));
        case Success(run) =>
          r := Success(run);
      }
    }

    /** `StopConversion`: refused when not running; otherwise stops the pool, which ends idle. */
    method StopConversion() returns (o: Outcome<Error>)
      requires Valid()
      modifies workerPool
      ensures Valid()
      ensures old(workerPool.state) != WorkerPool.Running ==> o == Fail(NotRunning) && unchanged(workerPool)
      ensures old(workerPool.state) == WorkerPool.Running ==>
        o == Pass && !IsRunning() && workerPool.stopClosed && workerPool.live == 0 && !workerPool.resultsOpen
    {
      if !workerPool.IsRunning() {
        return Fail(NotRunning);
      }
      o := workerPool.Stop();
    }
  }

  /**
   * The service's lifecycle as its tests drive it, with one worker: not running
   * at first; a second start while running is refused; the worker, given one
   * job and then a closed input, delivers exactly that job's result and
   * returns, after which the service is no longer running and a stop is
   * refused (hence the tests' `IsRunning` guard before stopping). Started
   * again, a worker that has taken a job without returning is stopped: the
   * service is then not running, and a second stop is refused.
   */
  method ServiceScenario(env: Collaborators, config: VideoConverterConfig, job: ConversionJob)
    returns (initially: bool, started: Result<nat, Error>, again: Result<nat, Error>,
             delivered: seq<ConversionResult>, dones: nat, afterJob: bool, stopIdle: Outcome<Error>,
             restarted: Result<nat, Error>, inLoop: bool, stopped: Outcome<Error>, afterStop: bool, stopAgain: Outcome<Error>)
    ensures !initially && started.Success? && again == Failure(AlreadyRunning)
    ensures delivered == [Pipeline(env, job).result] && delivered[0].videoID == job.videoID
    ensures dones == 1 && !afterJob && stopIdle == Fail(NotRunning)
    ensures restarted.Success? && inLoop && stopped == Pass && !afterStop && stopAgain == Fail(NotRunning)
  {
    var service := new VideoConverterService.NewVideoConverter(env, config.(workerCount := 1));
    initially := service.IsRunning();
    started := service.StartConversion();
    again := service.StartConversion();
    // the single worker drains its input and returns, calling the deferred `Done`
    var script := WorkerPool.Deliveries([job]) + [WorkerPool.InputClosed];
    var trace := WorkerPool.RunWorker(WorkerPool.DeferredDone, service.workerPool.process, script);
    WorkerPool.DrainDeliversEveryResult(WorkerPool.DeferredDone, service.workerPool.process, [job], []);
    assert script + [] == script;
    delivered, dones := trace.delivered, trace.dones;
    service.workerPool.WorkerReturned();
    afterJob := service.IsRunning();
    stopIdle := service.StopConversion();
    // a new run whose worker takes a job and is still in its loop when stopped
    restarted := service.StartConversion();
    var busy := WorkerPool.RunWorker(WorkerPool.DeferredDone, service.workerPool.process, WorkerPool.Deliveries([job]));
    inLoop := !busy.exited;
    stopped := service.StopConversion();
    afterStop := service.IsRunning();
    stopAgain := service.StopConversion();
  }
}
