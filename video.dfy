/**
 * The `Video` entity of internal/domain/entity/video.go: a record whose
 * transitions update its fields in place. The clock and the UUID generator
 * are parameters: `now` is the time the source would read from `time.Now`.
 */
module Entity {

  /** Seconds (or any unit) on a clock; only their order matters. */
  type Time = int

  const StatusPending: string := "pending"
  const StatusProcessing: string := "processing"
  const StatusCompleted: string := "completed"
  const StatusError: string := "failed"

  const UploadStatusNone: string := "none"
  const UploadStatusPendingS3: string := "pending_s3"
  const UploadStatusUploadingS3: string := "uploading_s3"
  const UploadStatusCompletedS3: string := "completed_s3"
  const UploadStatusFailedS3: string := "failed_s3"

  const FileTypeManifest: string := "manifest"
  const FileTypeSegment: string := "segment"

  class Video {
    var id: string
    var title: string
    var filePath: string
    var hlsPath: string
    var manifestPath: string
    var s3ManifestURL: string
    var s3URL: string
    var status: string
    var uploadStatus: string
    var errorMessage: string
    var createdAt: Time
    var updatedAt: Time

    /** The zero value `entity.Video{}` that a database scan fills in. */
    constructor Zero()
      ensures id == "" && title == "" && filePath == "" && hlsPath == "" && manifestPath == ""
      ensures s3ManifestURL == "" && s3URL == "" && status == "" && uploadStatus == ""
      ensures errorMessage == "" && createdAt == 0 && updatedAt == 0
    {
      id, title, filePath, hlsPath, manifestPath := "", "", "", "", "";
      s3ManifestURL, s3URL, status, uploadStatus, errorMessage := "", "", "", "", "";
      createdAt, updatedAt := 0, 0;
    }

    /**
     * `NewVideo(title, filePath)` with the fresh UUID `id` and the current time
     * `now`: pending, not uploaded, no paths, URLs or error, created and updated at `now`.
     */
    constructor NewVideo(title: string, filePath: string, id: string, now: Time)
      ensures this.id == id && this.title == title && this.filePath == filePath
      ensures status == StatusPending && uploadStatus == UploadStatusNone
      ensures hlsPath == "" && manifestPath == "" && s3ManifestURL == "" && s3URL == "" && errorMessage == ""
      ensures createdAt == now && updatedAt == createdAt
      ensures !IsCompleted()
    {
      this.id, this.title, this.filePath := id, title, filePath;
      hlsPath, manifestPath, s3ManifestURL, s3URL, errorMessage := "", "", "", "", "";
      status := StatusPending;
      uploadStatus := UploadStatusNone;
      createdAt, updatedAt := now, now;
    }

    /** `MarkAsProcessing`, from any status. */
    method MarkAsProcessing(now: Time)
      modifies this
      ensures status == StatusProcessing && updatedAt == now
      ensures id == old(id) && title == old(title) && filePath == old(filePath)
      ensures hlsPath == old(hlsPath) && manifestPath == old(manifestPath)
      ensures s3ManifestURL == old(s3ManifestURL) && s3URL == old(s3URL)
      ensures uploadStatus == old(uploadStatus) && errorMessage == old(errorMessage) && createdAt == old(createdAt)
    {
      status := StatusProcessing;
      updatedAt := now;
    }

    /** `MarkAsCompleted(hlsPath, manifestPath)`, from any status. */
    method MarkAsCompleted(hlsPath: string, manifestPath: string, now: Time)
      modifies this
      ensures status == StatusCompleted && IsCompleted()
      ensures GetHLSDirectory() == hlsPath && GetManifestPath() == manifestPath && updatedAt == now
      ensures id == old(id) && title == old(title) && filePath == old(filePath)
      ensures s3ManifestURL == old(s3ManifestURL) && s3URL == old(s3URL)
      ensures uploadStatus == old(uploadStatus) && errorMessage == old(errorMessage) && createdAt == old(createdAt)
    {
      status := StatusCompleted;
      this.hlsPath := hlsPath;
      this.manifestPath := manifestPath;
      updatedAt := now;
    }

    /** `MarkAsFailed(errorMessage)`, from any status: status `StatusError`, i.e. "failed". */
    method MarkAsFailed(errorMessage: string, now: Time)
      modifies this
      ensures status == StatusError && !IsCompleted()
      ensures this.errorMessage == errorMessage && updatedAt == now
      ensures id == old(id) && title == old(title) && filePath == old(filePath)
      ensures hlsPath == old(hlsPath) && manifestPath == old(manifestPath)
      ensures s3ManifestURL == old(s3ManifestURL) && s3URL == old(s3URL)
      ensures uploadStatus == old(uploadStatus) && createdAt == old(createdAt)
    {
      status := StatusError;
      this.errorMessage := errorMessage;
      updatedAt := now;
    }

    /** `SetS3URL`: only the URL and the update time change. */
    method SetS3URL(url: string, now: Time)
      modifies this
      ensures s3URL == url && updatedAt == now
      ensures id == old(id) && title == old(title) && filePath == old(filePath)
      ensures hlsPath == old(hlsPath) && manifestPath == old(manifestPath) && s3ManifestURL == old(s3ManifestURL)
      ensures status == old(status) && uploadStatus == old(uploadStatus)
      ensures errorMessage == old(errorMessage) && createdAt == old(createdAt)
    {
      s3URL := url;
      updatedAt := now;
    }

    /** `SetS3ManifestURL`: only the manifest URL and the update time change. */
    method SetS3ManifestURL(url: string, now: Time)
      modifies this
      ensures s3ManifestURL == url && updatedAt == now
      ensures id == old(id) && title == old(title) && filePath == old(filePath)
      ensures hlsPath == old(hlsPath) && manifestPath == old(manifestPath) && s3URL == old(s3URL)
      ensures status == old(status) && uploadStatus == old(uploadStatus)
      ensures errorMessage == old(errorMessage) && createdAt == old(createdAt)
    {
      s3ManifestURL := url;
      updatedAt := now;
    }

    /** `IsCompleted`: the video was converted successfully. */
    function IsCompleted(): (b: bool)
      reads this
      ensures b <==> status == StatusCompleted
    {
      status == StatusCompleted
    }

    /** `GetHLSDirectory`: the directory of the converted files. */
    function GetHLSDirectory(): (d: string)
      reads this
      ensures d == hlsPath
    {
      hlsPath
    }

    /** `GetManifestPath`: the path of the playlist file. */
    function GetManifestPath(): (p: string)
      reads this
      ensures p == manifestPath
    {
      manifestPath
    }

    /**
     * `GenerateOutputPath(baseDir)`: the video's own directory under
     * `baseDir + "/converted"`; reading it changes nothing.
     */
    function GenerateOutputPath(baseDir: string): (p: string)
      reads this
      ensures |p| == |baseDir| + |"/converted/"| + |id|
      ensures p[..|baseDir|] == baseDir
      ensures p[|baseDir|..|baseDir| + |"/converted/"|] == "/converted/"
      ensures p[|baseDir| + |"/converted/"|..] == id
    {
      baseDir + "/converted/" + id
    }
  }

  /**
   * The life of a video as the entity's tests follow it: new and pending,
   * processing, completed with its paths, then failed; every step refreshes
   * the update time from a clock that moves forward, and the output path
   * depends only on the base directory and the id.
   */
  method VideoLifecycleScenario(title: string, filePath: string, id: string, t0: Time, t1: Time, t2: Time, t3: Time)
    returns (completedAtFirst: bool, afterProcessing: string, completedAfterMark: bool,
             hls: string, manifest: string, afterFailure: string, message: string, outputPath: string)
    requires t0 < t1 < t2 < t3
    ensures !completedAtFirst && afterProcessing == StatusProcessing
    ensures completedAfterMark && hls == "out/dir" && manifest == "out/dir/playlist.m3u8"
    ensures afterFailure == StatusError && message == "boom"
    ensures outputPath == "base/converted/" + id
  {
    var v := new Video.NewVideo(title, filePath, id, t0);
    completedAtFirst := v.IsCompleted();
    v.MarkAsProcessing(t1);
    afterProcessing := v.status;
    assert v.updatedAt > v.createdAt;
    v.MarkAsCompleted("out/dir", "out/dir/playlist.m3u8", t2);
    completedAfterMark := v.IsCompleted();
    hls, manifest := v.GetHLSDirectory(), v.GetManifestPath();
    v.MarkAsFailed("boom", t3);
    afterFailure, message := v.status, v.errorMessage;
    outputPath := v.GenerateOutputPath("base");
  }
}
