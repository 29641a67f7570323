# Video-to-HLS conversion core, modelled in Dafny

This project models the core of a small video service that converts uploaded
videos to HLS (HTTP Live Streaming, RFC 8216), and proves properties of that
model. The model covers five parts:

- **Worker pool** (`workerpool.dfy`, module `WorkerPool`).
  - A pool has three states: idle, running and stopped.
  - Each run makes its own stop signal and result stream, numbered by a run generation.
  - A `sync.WaitGroup` is modelled as a counter.
  - A worker's `for { select }` loop is a loop over a script of the events it could select.
  - The worker loop method is proved against a specification function, `Run`. Both take the worker's body as written, which never calls `Done`, or corrected with a deferred `Done`; each trace counts the `Done` calls.
- **Video entity** (`video.dfy`, module `Entity`).
  - `Video` is a class whose transitions update its fields in place.
  - The status, upload-status and file-type constants are included.
- **ffmpeg service** (`ffmpeg_service.dfy`, module `FFmpeg`).
  - Directory entries are classified as the HLS manifest or as segments.
  - `ConvertToHLS` is a guard followed by I/O. The outcomes of that I/O are parameters, and the I/O calls made are returned as a list of effects.
- **Video converter** (`video_converter.dfy`, module `Converter`).
  - `processJob` runs a fixed pipeline. It is modelled as a specification function `Pipeline`, which yields the result and the calls made to the repository and to ffmpeg. A method `ProcessJob` builds the same thing step by step.
  - What the collaborators answer is given as functions of each call's arguments.
  - The first-match scan that finds the manifest and the HLS directory is a loop with an early exit, proved against a recursive first-match definition.
  - The service class wraps a worker pool whose processing function is the pipeline.
- **PostgreSQL repository** (`video_repository.dfy`, module `Repository`).
  - The `videos` table is a map from id to row.
  - Deletes are soft: they set `deletedAt` and keep the row.
  - Every query and update only sees rows whose `deletedAt` is unset.
  - `List` clamps its inputs, orders the live rows newest first, and takes the LIMIT/OFFSET window.

Shared helpers:
- `wrappers.dfy`: `Option`, `Result` and `Outcome` (success, or failure with an error).
- `errors.dfy`: the errors the code returns. A wrapped error keeps its cause, and `Wraps` is `errors.Is`.
- `paths.dfy`: `HasSuffix`, `filepath.Join` and `filepath.Dir`, restricted to what the code relies on.

The clock, the UUID generator, the database, the file system and the ffmpeg
process are all parameters:
- `now` is the time the code would read.
- `id` is the UUID the code would generate.
- I/O outcomes are given as `Result`/`Outcome` values.

## Model

| member | source | states |
|---|---|---|
| WorkerPool.Normalize | pkg/wokerpool/workerpool.go:61-67 | a worker count of 0 or less becomes 1 and a nil logger becomes the process default; any other count or logger is kept |
| WorkerPool.DefaultConfig | pkg/wokerpool/workerpool.go:41-46 | the default configuration is one worker and the process-wide logger, and `New` leaves it unchanged |
| WorkerPool.Add | pkg/wokerpool/workerpool.go:90 | `Add` raises the counter by its argument, and a positive count keeps `Wait` from returning |
| WorkerPool.Done | pkg/wokerpool/workerpool.go:57 | `sync.WaitGroup.Done` on the pool's `stopWg`, the call the corrected worker defers: it lowers the counter by one, and only the last outstanding `Done` releases `Wait` |
| WorkerPool.WaitReturns | pkg/wokerpool/workerpool.go:122 | `Wait` returns exactly on a wait group with no outstanding count |
| WorkerPool.AsWrittenWorkerNeverCallsDone | pkg/wokerpool/workerpool.go:136-166 | as written, the worker calls `Done` on no path, for every script, whether it returns on the stop signal, the context, a closed input or a lost publication |
| WorkerPool.DeferredDoneCalledOnceOnReturn | pkg/wokerpool/workerpool.go:136-166 | with a deferred `Done`, the worker calls it exactly once when it returns, and not at all while it keeps looping |
| WorkerPool.StopWaitNeverReturnsAsWritten | pkg/wokerpool/workerpool.go:119-125 | as written, after `Start` adds one count per worker, the `Done` calls of the workers' loops (none, by the lemma above) leave the counter at the worker count for all scripts, including those where every worker returns, so the wait in `Stop` (and the supervisor's) never returns |
| WorkerPool.AfterReturns | pkg/wokerpool/workerpool.go:90-99 | after n calls to `Done`, the counter is n lower |
| WorkerPool.StopWaitReturnsWhenAllReturned | pkg/wokerpool/workerpool.go:98-105 | with the deferred `Done`, after `Start` adds one count per worker, the wait returns exactly when every worker's loop has returned, in both directions |
| WorkerPool.Pool.New | pkg/wokerpool/workerpool.go:61-75 | the configuration is defaulted; the pool is idle and not running; it has its first stop signal, no workers and no result stream |
| WorkerPool.Pool.IsRunning | pkg/wokerpool/workerpool.go:129-133 | true exactly in the running state |
| WorkerPool.Pool.Start | pkg/wokerpool/workerpool.go:78-108 | from a non-idle state: an error and nothing changes. From idle: running, with a stop signal distinct from every earlier run's, exactly `WorkerCount` workers added to the wait group, and an open result stream for the new run |
| WorkerPool.Pool.CloseStopSignal | pkg/wokerpool/workerpool.go:120 | the stop signal, open before, is closed |
| WorkerPool.Pool.Stop | pkg/wokerpool/workerpool.go:111-126 | with the deferred `Done` of ## Findings, from a non-running state: an error and nothing changes. From running: the run's stop signal, which was open, is closed; the wait returns with no live workers; the result stream is closed and the pool is idle, with the same run and signals |
| WorkerPool.Pool.WorkerReturned | pkg/wokerpool/workerpool.go:98-105 | with the deferred `Done` of ## Findings, a returning worker calls `Done`; after the last one, the result stream is closed and the state is back to idle |
| WorkerPool.LifecycleScenario | pkg/wokerpool/workerpool.go:78-133 | with the deferred `Done` of ## Findings, not running at first; running after `Start`; a second `Start` is refused; not running after `Stop`; a second `Stop` is refused; a later `Start` succeeds with a new run |
| WorkerPool.Step | pkg/wokerpool/workerpool.go:140-163 | one iteration applies the function once to a received job and nothing else; the result is delivered when the publication went through and dropped otherwise; the worker returns on the stop signal, the context, a closed input, or a publication lost to the stop signal, and calls `Done` only then, and only with the deferred `Done` |
| WorkerPool.Run | pkg/wokerpool/workerpool.go:139-165 | a worker takes at most one iteration per event, as many results are delivered or dropped as were computed, and `Done` is called at most once |
| WorkerPool.RunKeepsEveryResult | pkg/wokerpool/workerpool.go:152-163 | the delivered and the dropped results together are exactly the computed ones, as a multiset |
| WorkerPool.RunPublishesByOutcome | pkg/wokerpool/workerpool.go:152-163 | the delivered results are, in order, those of the taken jobs whose publication went through, and the dropped ones those of the taken jobs whose publication lost to the stop signal or the context |
| WorkerPool.RunWorker | pkg/wokerpool/workerpool.go:139-165 | the `for { select }` loop computes exactly the trace `Run` specifies |
| WorkerPool.Select | pkg/wokerpool/workerpool.go:140-163 | one pass through the loop body computes the result, publishes it or not, and returns or not, exactly as `Step` specifies |
| WorkerPool.RunExitsAtShutdown | pkg/wokerpool/workerpool.go:141-159 | a closed stop signal, a cancelled context, a closed input, or a publication lost to the stop signal makes the worker return, no later than that event |
| WorkerPool.CancelDuringPublishExitsNextIteration | pkg/wokerpool/workerpool.go:155-163 | a cancellation that wins while a result is being published drops that result without returning; the worker returns at the next iteration's cancellation |
| WorkerPool.RunProcessesEachJobOnce | pkg/wokerpool/workerpool.go:147-154 | the processing function is applied exactly once to every job taken, in order |
| WorkerPool.DrainDeliversEveryResult | pkg/wokerpool/workerpool.go:147-156 | when every publish succeeds and the input is then closed, each job's result is delivered in order, nothing is dropped, and the worker returns |
| Entity.Video.Zero | internal/infra/database/repository/video_repository.go:72 | the zero `Video` has every field empty or zero |
| Entity.Video.NewVideo | internal/domain/entity/video.go:53-65 | the new video is pending and not uploaded; it has its title, file path and id; it has no paths, URLs or error; it was created and updated at the same time; it is not completed |
| Entity.Video.MarkAsProcessing | internal/domain/entity/video.go:68-71 | the status becomes processing and the update time moves; no other field changes |
| Entity.Video.MarkAsCompleted | internal/domain/entity/video.go:74-79 | the status becomes completed; the HLS directory and the manifest path are recorded; no other field but the update time changes |
| Entity.Video.MarkAsFailed | internal/domain/entity/video.go:82-86 | the status becomes "failed" with the message; the video is not completed; no other field but the update time changes |
| Entity.Video.SetS3URL | internal/domain/entity/video.go:89-92 | only the S3 URL and the update time change |
| Entity.Video.SetS3ManifestURL | internal/domain/entity/video.go:95-98 | only the S3 manifest URL and the update time change |
| Entity.Video.IsCompleted | internal/domain/entity/video.go:101-103 | true exactly when the status is completed |
| Entity.Video.GetHLSDirectory | internal/domain/entity/video.go:106-108 | the recorded HLS directory |
| Entity.Video.GetManifestPath | internal/domain/entity/video.go:111-113 | the recorded manifest path |
| Entity.Video.GenerateOutputPath | internal/domain/entity/video.go:116-118 | the path is the base directory, then "/converted/", then the id, and nothing else |
| Entity.VideoLifecycleScenario | internal/domain/entity/video.go:53-118 | a video goes from new, to processing, to completed with its paths, to failed with its message; its output path depends only on the base directory and the id |
| Paths.HasSuffix | internal/application/service/ffmpeg_service.go:172 | the suffix is no longer than the string, and its characters are the string's last ones, one by one |
| Paths.Join | internal/application/service/ffmpeg_service.go:168 | joining to an empty part gives the other part; otherwise the directory, then one "/" unless the directory already ends in one, then the name |
| Paths.Dir | internal/application/service/video_converter.go:278 | never empty: "." with no "/", "/" when the only "/" is the first character, otherwise everything before the last "/", after which none follows |
| Paths.DirOfJoin | internal/application/service/video_converter.go:276-279 | the directory of a plain file name joined to a directory is that directory |
| FFmpeg.FileTypeOf | internal/application/service/ffmpeg_service.go:171-178 | an entry is the manifest exactly when its name ends in ".m3u8", and a segment exactly when it does not |
| FFmpeg.PlaylistIsTheManifest | internal/application/service/ffmpeg_service.go:172-178 | the playlist that ffmpeg writes is classified as the manifest, and a ".ts" file as a segment |
| FFmpeg.CollectOutputFiles | internal/application/service/ffmpeg_service.go:155-188 | a listing error is returned wrapped. Otherwise there is one output file per entry, in listing order, whose path is the entry joined to the output directory and whose type follows the entry's name; the whole list is `Collected` of the listing, about which the manifest and directory lemmas are proved |
| FFmpeg.CollectedEntries | internal/application/service/ffmpeg_service.go:163-184 | entry i of a collected listing is listing entry i joined to the directory, with the type its suffix gives |
| FFmpeg.ExecuteFFmpegConversion | internal/application/service/ffmpeg_service.go:139-149 | a context cancelled by the end of the run reports the cancellation, whatever ffmpeg returned; otherwise the result is ffmpeg's outcome |
| FFmpeg.ConvertToHLS | internal/application/service/ffmpeg_service.go:93-111 | a cancelled context fails before any I/O. Otherwise: make the directory, run ffmpeg into the playlist, list the directory, in that order; each failure stops the sequence and is returned wrapped |
| Converter.PrepareOutputDirectory | internal/application/service/video_converter.go:228-234 | the job's output directory if one is given; otherwise "uploads/converted/" followed by the video id; never empty |
| Converter.FirstPickedAppend | internal/application/service/video_converter.go:264-288 | the first match in a concatenation is the first match in its first part, or else the first match in its second part |
| Converter.FirstPickedIsFirstMatch | internal/application/service/video_converter.go:264-288 | the search is empty exactly when no file of the type qualifies; otherwise it comes from a qualifying file with no qualifying file before it |
| Converter.FindManifestAndHLSPaths | internal/application/service/video_converter.go:264-288 | the loop with its early exit returns the first manifest's path and the directory of the first segment |
| Converter.FirstManifestOfCollected | internal/application/service/video_converter.go:269-273 | over the collected files of a directory, the manifest found is the first playlist entry joined to that directory |
| Converter.FirstSegmentDirOfCollected | internal/application/service/video_converter.go:275-279 | over the collected files of a directory, the HLS directory found is that directory as soon as one entry is not a playlist |
| Converter.UpdateVideoStatusToProcessing | internal/application/service/video_converter.go:216-225 | the "processing" update is made. On failure, the video is marked failed with the wrapped error, and that error is returned |
| Converter.ConvertVideoToHLS | internal/application/service/video_converter.go:237-246 | the conversion is requested. On failure, the video is marked failed with the wrapped error, and that error is returned; otherwise the files are returned |
| Converter.ProcessOutputFiles | internal/application/service/video_converter.go:249-260 | the HLS paths are recorded only when both a manifest and a segment were found; then the video is marked completed |
| Converter.Pipeline | internal/application/service/video_converter.go:172-213 | the result is about the job's video and succeeds exactly when it has no error, a failure lists no files; two to four calls are made, the first marks the video processing and the last marks it completed or failed with the error's text; every call is about the job's video or its input |
| Converter.ProcessJob | internal/application/service/video_converter.go:172-213 | the step-by-step job gives the result and the call sequence that `Pipeline` specifies |
| Converter.ResultOfJob | internal/application/service/video_converter.go:177-201 | the result carries the video id. It succeeds exactly when the processing update passed and the conversion succeeded; a success has no error and lists the converted files |
| Converter.ProcessingUpdateFailure | internal/application/service/video_converter.go:184-187 | a failed processing update: ffmpeg is never called, no HLS paths are recorded, the video is last marked failed, and the result's error wraps the cause |
| Converter.ConversionFailure | internal/application/service/video_converter.go:193-197 | a failed conversion: no HLS paths are recorded, the video is never marked completed but is marked failed last, and the result's error wraps the cause |
| Converter.SuccessfulConversion | internal/application/service/video_converter.go:199-205 | a successful conversion: the HLS paths are recorded exactly when a manifest and a segment were found, and the video is marked completed last |
| Converter.LaterUpdatesDoNotMatter | internal/application/service/video_converter.go:290-306 | the result and calls depend on the repository only through its answer to the processing update; failures of the later updates change nothing |
| Converter.DefaultVideoConverterConfig | internal/application/service/video_converter.go:47-54 | the default has a positive worker count and a logger, so the constructor needs to coerce neither |
| Converter.VideoConverterService.NewVideoConverter | internal/application/service/video_converter.go:57-98 | a worker count of 0 or less becomes 1 and a nil logger becomes the JSON logger; the new pool is idle and its processing function is the job pipeline |
| Converter.VideoConverterService.IsRunning | internal/application/service/video_converter.go:167-169 | true exactly when the pool is running |
| Converter.VideoConverterService.StartConversion | internal/application/service/video_converter.go:101-153 | refused while running, leaving the pool untouched; otherwise the pool runs with all its workers and a new result stream |
| Converter.VideoConverterService.StopConversion | internal/application/service/video_converter.go:156-164 | with the deferred `Done` of ## Findings, refused when not running, leaving the pool untouched; otherwise the pool is stopped and idle with its stream closed |
| Converter.ServiceScenario | internal/application/service/video_converter.go:101-169 | with the deferred `Done` of ## Findings and one worker, as in the tests: not running at first; a second start is refused; given one job and a closed input, the worker delivers exactly that job's pipeline result, calls `Done` once and returns, after which the service is not running and a stop is refused; started again, with its worker still in the loop, a stop succeeds, the service is not running, and a second stop is refused |
| Repository.RowOf | internal/infra/database/repository/video_repository.go:29-54 | `Create` inserts a live row with the video's twelve columns and no S3 keys |
| Repository.Scan | internal/infra/database/repository/video_repository.go:72-99 | a new video holding the twelve selected columns of the row |
| Repository.ScanAll | internal/infra/database/repository/video_repository.go:131-157 | one new video per selected row, in order, holding that row's columns |
| Repository.InsertNewestFirstMembers | internal/infra/database/repository/video_repository.go:119 | insertion adds exactly the inserted row |
| Repository.InsertNewestFirstKeepsOrder | internal/infra/database/repository/video_repository.go:119 | insertion keeps the rows ordered by creation time, newest first |
| Repository.InsertNewestFirstKeepsDistinct | internal/infra/database/repository/video_repository.go:119 | inserting a row with a new id keeps the ids distinct |
| Repository.OrderNewestFirst | internal/infra/database/repository/video_repository.go:117-119 | every live row exactly once, and no deleted row, ordered by creation time, newest first |
| Repository.ClampPage | internal/infra/database/repository/video_repository.go:104-109 | a page below 1 becomes 1 and a page size below 1 becomes 10; other values are kept |
| Repository.WrapInt64 | internal/infra/database/repository/video_repository.go:111 | Go's 64-bit `int` arithmetic: the result is in range, congruent to the exact value modulo 2^64, and equal to it when it fits |
| Repository.Offset | internal/infra/database/repository/video_repository.go:111 | the offset is a 64-bit `int`, and it is exactly (page - 1) × size when that product fits |
| Repository.HugePageWrapsToFirstPage | internal/infra/database/repository/video_repository.go:111 | page 2^62 + 1 with size 4 wraps the offset round to 0, the first page's |
| Repository.HugePageWrapsToNegativeOffset | internal/infra/database/repository/video_repository.go:111 | page 2^61 + 1 with size 4 wraps the offset to -2^63 |
| Repository.NextPageOffset | internal/infra/database/repository/video_repository.go:111 | while page × size fits in 64 bits, the next page's offset is one page size further on |
| Repository.Window | internal/infra/database/repository/video_repository.go:111-120 | at most `limit` rows, being the rows from `offset` on, in order |
| Repository.PagesTile | internal/infra/database/repository/video_repository.go:111-120 | consecutive pages neither skip nor repeat a row: the first n pages are the first n × size rows |
| Repository.EarlierPagesAreNewer | internal/infra/database/repository/video_repository.go:119-120 | while the offsets fit in 64 bits, every row on a page is at least as new as every row on the next page |
| Repository.FifteenRowsInPagesOfTen | internal/infra/database/repository/video_repository.go:104-120 | with 15 rows and pages of 10, page 1 has 10 rows, page 2 has 5, and together they are all the rows |
| Repository.VideoRepository.NewVideoRepository | internal/infra/database/repository/video_repository.go:22-26 | an empty table |
| Repository.VideoRepository.Create | internal/infra/database/repository/video_repository.go:29-60 | a new id inserts the video's row; an existing id, deleted or not, fails with the duplicate-key error wrapped, and nothing changes |
| Repository.VideoRepository.FindByID | internal/infra/database/repository/video_repository.go:63-100 | an unknown or deleted id is not found; otherwise the result is a new video scanned from the row |
| Repository.VideoRepository.List | internal/infra/database/repository/video_repository.go:103-164 | the live rows ordered newest first, each exactly once; when the 64-bit offset of the clamped page wrapped round to a negative number, the database's refusal is returned wrapped; otherwise that page of the rows is scanned into new videos, at most a page size of them |
| Repository.VideoRepository.UpdateStatus | internal/infra/database/repository/video_repository.go:167-189 | on a live row, only the status, the error message and the update time change; otherwise not found and nothing changes |
| Repository.VideoRepository.UpdateHLSPath | internal/infra/database/repository/video_repository.go:192-214 | on a live row, only the HLS path, the manifest path and the update time change; otherwise not found and nothing changes |
| Repository.VideoRepository.UpdateS3Status | internal/infra/database/repository/video_repository.go:217-239 | on a live row, only the upload status and the update time change; otherwise not found and nothing changes |
| Repository.VideoRepository.UpdateS3URLs | internal/infra/database/repository/video_repository.go:242-264 | on a live row, only the two S3 URLs and the update time change; otherwise not found and nothing changes |
| Repository.VideoRepository.UpdateS3Keys | internal/infra/database/repository/video_repository.go:267-289 | on a live row, only the two S3 keys and the update time change; otherwise not found and nothing changes |
| Repository.VideoRepository.Delete | internal/infra/database/repository/video_repository.go:292-314 | on a live row, only the deletion time is set, and the row is kept but is no longer live; otherwise not found and nothing changes |
| Repository.RepositoryScenario | internal/infra/database/repository/video_repository.go:29-314 | a created video is found with the same id, title, path and status; a duplicate create fails; after a delete the row is kept but not found, and a second delete or any update is not found |

## Left out

- Goroutines, channels, the mutex and `select` fairness are not modelled.
  - The pool is sequential: `Stop` runs atomically, and the source holds the mutex across its wait anyway.
  - Which ready `select` case wins is a choice made in the worker's event script.
  - The adapter goroutines of `StartConversion` that copy jobs and results between typed and untyped channels are not modelled; the result stream is named by its run number.
- WorkerPool.Pool.Stop, `WorkerReturned`, `LifecycleScenario` and the service's `StopConversion` and `ServiceScenario` model the pool with the deferred `Done` of ## Findings. As written, `Stop` never returns (`StopWaitNeverReturnsAsWritten`).
- WorkerPool.Pool.WorkerReturned: the supervising goroutine of an earlier run may set the state to idle after a new `Start` has begun. This interleaving race is not captured.
- The type-assertion failure branches (an invalid job in `processFunc`, an invalid result in the output adapter) are not modelled. Jobs and results are typed here, so these branches cannot occur.
- Logging is not modelled, and neither are `ConversionResult.Duration` nor the text of error messages. Errors are tags that keep their wrapped cause.
- Time and UUIDs are parameters.
- `os.MkdirAll`, the ffmpeg run and `os.ReadDir` are not modelled as I/O. Their outcomes are parameters, and the ffmpeg arguments are not modelled.
- Paths.Join and Paths.Dir do not model `filepath.Clean`. They skip the removal of ".", ".." and repeated separators.
- Repository.VideoRepository.Create assumes that `id` is the primary key of `videos`, because the table schema is not part of this model.
  - A duplicate id is the only insert failure modelled.
  - Other driver errors are not modelled: connection failures, scan errors, a failing `RowsAffected`.
- Repository.VideoRepository.List: rows with equal creation times may come out in any order. The contract fixes only the newest-first order, not the database's tie order.
- A manifest entry whose path is empty is skipped and a later manifest is taken. This follows the code's guard on the empty manifest path; it is not a gap.
- The domain `VideoRepository` interface and the command entry points are not part of this model.

## Findings

| source | as written | input that shows it | evidently intended | confidence | as-written member | corrected member |
|---|---|---|---|---|---|---|
| pkg/wokerpool/workerpool.go:136-166 | `worker` returns on every path without calling `stopWg.Done()`, although `Start` calls `stopWg.Add(WorkerCount)`. As a result, `Stop`'s `stopWg.Wait()` (line 122) blocks forever while holding the state mutex. The supervisor's wait (line 99) never closes the result stream or resets the state. `AsWrittenWorkerNeverCallsDone` derives the missing `Done` from the loop itself. | `WorkerCount` = 1: `Start`, then `Stop`. The stop signal makes the worker return, but the counter stays at 1, so `Stop` never returns. | each worker runs `defer wp.stopWg.Done()`, so `Stop` returns once all workers have returned, and the pool is idle with its results closed | high, not executed | WorkerPool.StopWaitNeverReturnsAsWritten | WorkerPool.StopWaitReturnsWhenAllReturned |
