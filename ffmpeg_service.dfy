/**
 * The HLS conversion service of internal/application/service/ffmpeg_service.go.
 * Running ffmpeg, creating the output directory and listing it are I/O: their
 * outcomes are parameters, and the calls made are returned as a list of effects.
 */
module FFmpeg {
  import opened Wrappers
  import opened Errors
  import opened Paths
  import Entity

  /** `OutputFile`: a produced file and its type (`FileTypeManifest` or `FileTypeSegment`). */
  datatype OutputFile = OutputFile(path: string, fileType: string)

  /** The I/O `ConvertToHLS` performs, in order. */
  datatype Effect = MakeDir(dir: string) | RunFFmpeg(input: string, manifestPath: string) | ReadDir(dir: string)

  /** The playlist ffmpeg is asked to write into the output directory. */
  const PlaylistName: string := "playlist.m3u8"

  /**
   * The type of a directory entry: a playlist, whose name ends in ".m3u8" (the
   * file name extension of section 4 of RFC 8216), is the manifest; any other
   * entry is a segment.
   */
  function FileTypeOf(name: string): (t: string)
    ensures t == Entity.FileTypeManifest <==> HasSuffix(name, ".m3u8")
    ensures t == Entity.FileTypeSegment <==> !HasSuffix(name, ".m3u8")
  {
    if HasSuffix(name, ".m3u8") then Entity.FileTypeManifest else Entity.FileTypeSegment
  }

  /** The playlist ffmpeg writes is classified as the manifest, a ".ts" segment as a segment. */
  lemma PlaylistIsTheManifest(segment: string)
    requires HasSuffix(segment, ".ts")
    ensures FileTypeOf(PlaylistName) == Entity.FileTypeManifest
    ensures FileTypeOf(segment) == Entity.FileTypeSegment
  {
    assert PlaylistName[|PlaylistName| - 5..] == ".m3u8";
    var n := |segment|;
    assert segment[n - 3..][2] == segment[n - 1] == 's';
  }

  /** The files collected from `dir` whose entries are `names`; entry by entry, the joined path and the type its suffix gives. */
  function Collected(dir: string, names: seq<string>): (files: seq<OutputFile>)
    ensures |files| == |names|
    decreases |names|
  {
    if names == [] then []
    else [OutputFile(Join(dir, names[0]), FileTypeOf(names[0]))] + Collected(dir, names[1..])
  }

  /** Entry `i` of a collected listing is entry `i` of the names, joined and classified. */
  lemma {:induction false} CollectedEntries(dir: string, names: seq<string>)
    ensures forall i :: 0 <= i < |names| ==>
      Collected(dir, names)[i] == OutputFile(Join(dir, names[i]), FileTypeOf(names[i]))
    decreases |names|
  {
    if names != [] {
      CollectedEntries(dir, names[1..]);
      assert forall i :: 1 <= i < |names| ==> names[i] == names[1..][i - 1];
    }
  }

  /**
   * `collectOutputFiles` over the directory listing `listing` (the result of
   * `os.ReadDir`): one output file per entry, in the listing's order, whose
   * path is the entry joined to `outputDir` and whose type follows its name.
   */
  method CollectOutputFiles(outputDir: string, listing: Result<seq<string>, Error>)
    returns (r: Result<seq<OutputFile>, Error>)
    ensures listing.Failure? ==> r == Failure(ListFilesFailed(listing.error))
    ensures listing.Success? ==> r.Success? && |r.value| == |listing.value|
    ensures listing.Success? ==> forall i :: 0 <= i < |listing.value| ==>
      r.value[i] == OutputFile(Join(outputDir, listing.value[i]), FileTypeOf(listing.value[i]))
    ensures listing.Success? ==> r.value == Collected(outputDir, listing.value)
  {
    if listing.Failure? {
      return Failure(ListFilesFailed(listing.error));
    }
    var names := listing.value;
    var outputFiles: seq<OutputFile> := [];
    for i := 0 to |names|
      invariant |outputFiles| == i
      invariant forall j :: 0 <= j < i ==> outputFiles[j] == OutputFile(Join(outputDir, names[j]), FileTypeOf(names[j]))
    {
      var fileName := names[i];
      var filePath := Join(outputDir, fileName);
      var fileType;
      if HasSuffix(fileName, ".m3u8") {
        fileType := Entity.FileTypeManifest;
      } else {
        fileType := Entity.FileTypeSegment;
      }
      outputFiles := outputFiles + [OutputFile(filePath, fileType)];
    }
    CollectedEntries(outputDir, names);
    r := Success(outputFiles);
  }

  /**
   * `executeFFmpegConversion`: the outcome of the ffmpeg run `run`, except that
   * a context cancelled by the time the run ends reports the cancellation.
   */
  function ExecuteFFmpegConversion(run: Outcome<Error>, cancelledAfterRun: bool): (o: Outcome<Error>)
    ensures cancelledAfterRun ==> o == Fail(Cancelled)
    ensures !cancelledAfterRun ==> o == run
  {
    if cancelledAfterRun then Fail(Cancelled) else run
  }

  /**
   * `ConvertToHLS`. A context already cancelled fails before any I/O; then the
   * output directory is made, ffmpeg writes the playlist there, and the
   * directory's entries are collected. Each failure stops the sequence and is
   * returned wrapped.
   */
  method ConvertToHLS(input: string, outputDir: string, cancelled: bool, mkdir: Outcome<Error>,
                      run: Outcome<Error>, cancelledAfterRun: bool, listing: Result<seq<string>, Error>)
    returns (r: Result<seq<OutputFile>, Error>, effects: seq<Effect>)
    ensures cancelled ==> r == Failure(OperationCancelled(Cancelled)) && effects == []
    ensures !cancelled && mkdir.Fail? ==>
      r == Failure(CreateDirFailed(mkdir.error)) && effects == [MakeDir(outputDir)]
    ensures !cancelled && mkdir.Pass? ==>
      (|effects| >= 2 && effects[..2] == [MakeDir(outputDir), RunFFmpeg(input, Join(outputDir, PlaylistName))])
    ensures !cancelled && mkdir.Pass? && ExecuteFFmpegConversion(run, cancelledAfterRun).Fail? ==>
      r == Failure(FFmpegFailed(ExecuteFFmpegConversion(run, cancelledAfterRun).error)) && |effects| == 2
    ensures !cancelled && mkdir.Pass? && ExecuteFFmpegConversion(run, cancelledAfterRun).Pass? ==>
      effects == [MakeDir(outputDir), RunFFmpeg(input, Join(outputDir, PlaylistName)), ReadDir(outputDir)] &&
      (listing.Failure? ==> r == Failure(ListFilesFailed(listing.error))) &&
      (listing.Success? ==>
        (r.Success? && |r.value| == |listing.value| &&
         forall i :: 0 <= i < |listing.value| ==>
           r.value[i] == OutputFile(Join(outputDir, listing.value[i]), FileTypeOf(listing.value[i]))))
  {
    effects := [];
    if cancelled {
      return Failure(OperationCancelled(Cancelled)), effects;
    }
    effects := effects + [MakeDir(outputDir)];
    if mkdir.Fail? {
      return Failure(CreateDirFailed(mkdir.error)), effects;
    }
    effects := effects + [RunFFmpeg(input, Join(outputDir, PlaylistName))];
    var converted := ExecuteFFmpegConversion(run, cancelledAfterRun);
    if converted.Fail? {
      return Failure(FFmpegFailed(converted.error)), effects;
    }
    effects := effects + [ReadDir(outputDir)];
    r := CollectOutputFiles(outputDir, listing);
  }
}
