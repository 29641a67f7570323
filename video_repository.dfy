/**
 * The PostgreSQL video repository of
 * internal/infra/database/repository/video_repository.go, with the `videos`
 * table held as a map from id to row. Rows are deleted softly: `deletedAt` is
 * set and the row stays, and every query and update only sees rows whose
 * `deletedAt` is unset. The clock is a parameter `now`.
 */
module Repository {
  import opened Wrappers
  import opened Errors
  import Entity

  type Time = Entity.Time

  /** A row of the `videos` table. */
  datatype VideoRow = VideoRow(
    id: string, title: string, filePath: string, status: string, uploadStatus: string,
    hlsPath: string, manifestPath: string, s3URL: string, s3ManifestURL: string, errorMessage: string,
    createdAt: Time, updatedAt: Time,
    segmentKey: Option<string>, manifestKey: Option<string>, deletedAt: Option<Time>)

  /** The `deleted_at IS NULL` filter. */
  predicate Live(row: VideoRow)
  {
    row.deletedAt.None?
  }

  /** The row `Create` inserts for a video: its twelve columns, no S3 keys, not deleted. */
  function RowOf(video: Entity.Video): (row: VideoRow)
    reads video
    ensures Live(row) && row.segmentKey.None? && row.manifestKey.None?
    ensures Scanned(video, row)
  {
    VideoRow(video.id, video.title, video.filePath, video.status, video.uploadStatus,
             video.hlsPath, video.manifestPath, video.s3URL, video.s3ManifestURL, video.errorMessage,
             video.createdAt, video.updatedAt, None, None, None)
  }

  /** `video` holds the twelve columns the queries select from `row`. */
  ghost predicate Scanned(video: Entity.Video, row: VideoRow)
    reads video
  {
    && video.id == row.id && video.title == row.title && video.filePath == row.filePath
    && video.status == row.status && video.uploadStatus == row.uploadStatus
    && video.hlsPath == row.hlsPath && video.manifestPath == row.manifestPath
    && video.s3URL == row.s3URL && video.s3ManifestURL == row.s3ManifestURL
    && video.errorMessage == row.errorMessage
    && video.createdAt == row.createdAt && video.updatedAt == row.updatedAt
  }

  /** Scans a selected row into a new `entity.Video`. */
  method Scan(row: VideoRow) returns (video: Entity.Video)
    ensures fresh(video) && Scanned(video, row)
  {
    video := new Entity.Video.Zero();
    video.id, video.title, video.filePath := row.id, row.title, row.filePath;
    video.status, video.uploadStatus := row.status, row.uploadStatus;
    video.hlsPath, video.manifestPath := row.hlsPath, row.manifestPath;
    video.s3URL, video.s3ManifestURL := row.s3URL, row.s3ManifestURL;
    video.errorMessage := row.errorMessage;
    video.createdAt, video.updatedAt := row.createdAt, row.updatedAt;
  }

  /** The `for rows.Next()` loop of `List`: each selected row, in order, scanned into a new video. */
  method ScanAll(selected: seq<VideoRow>) returns (videos: seq<Entity.Video>)
    ensures |videos| == |selected|
    ensures forall i :: 0 <= i < |selected| ==> fresh(videos[i]) && Scanned(videos[i], selected[i])
  {
    videos := [];
    var i := 0;
    while i < |selected|
      invariant 0 <= i <= |selected| && |videos| == i
      invariant forall j :: 0 <= j < i ==> fresh(videos[j]) && Scanned(videos[j], selected[j])
    {
      var video := Scan(selected[i]);
      videos := videos + [video];
      i := i + 1;
    }
  }

  /** `ORDER BY created_at DESC`. */
  ghost predicate NewestFirst(s: seq<VideoRow>)
  {
    forall i, j :: 0 <= i < j < |s| ==> s[i].createdAt >= s[j].createdAt
  }

  /** No two rows of `s` share an id. */
  ghost predicate DistinctIds(s: seq<VideoRow>)
  {
    forall i, j :: 0 <= i < j < |s| ==> s[i].id != s[j].id
  }

  /** Inserts `row` into a newest-first sequence, ahead of the rows created no later than it. */
  function InsertNewestFirst(s: seq<VideoRow>, row: VideoRow): seq<VideoRow>
    decreases |s|
  {
    if s == [] || row.createdAt >= s[0].createdAt then [row] + s
    else [s[0]] + InsertNewestFirst(s[1..], row)
  }

  /** Insertion adds exactly the inserted row. */
  lemma {:induction false} InsertNewestFirstMembers(s: seq<VideoRow>, row: VideoRow)
    ensures |InsertNewestFirst(s, row)| == |s| + 1
    ensures forall r :: r in InsertNewestFirst(s, row) <==> r in s || r == row
    decreases |s|
  {
    if s != [] && row.createdAt < s[0].createdAt {
      InsertNewestFirstMembers(s[1..], row);
      assert s == [s[0]] + s[1..];
    }
  }

  /** Insertion keeps a sequence newest first. */
  lemma {:induction false} InsertNewestFirstKeepsOrder(s: seq<VideoRow>, row: VideoRow)
    requires NewestFirst(s)
    ensures NewestFirst(InsertNewestFirst(s, row))
    decreases |s|
  {
    if s != [] && row.createdAt < s[0].createdAt {
      var rest := InsertNewestFirst(s[1..], row);
      InsertNewestFirstKeepsOrder(s[1..], row);
      InsertNewestFirstMembers(s[1..], row);
      var t := [s[0]] + rest;
      forall i, j | 0 <= i < j < |t| ensures t[i].createdAt >= t[j].createdAt {
        if i == 0 {
          assert t[j] in rest;
        } else {
          assert t[i] == rest[i - 1] && t[j] == rest[j - 1];
        }
      }
    }
  }

  /** Inserting a row with a new id keeps the ids distinct. */
  lemma {:induction false} InsertNewestFirstKeepsDistinct(s: seq<VideoRow>, row: VideoRow)
    requires DistinctIds(s)
    requires forall r :: r in s ==> r.id != row.id
    ensures DistinctIds(InsertNewestFirst(s, row))
    decreases |s|
  {
    if s != [] && row.createdAt < s[0].createdAt {
      var rest := InsertNewestFirst(s[1..], row);
      InsertNewestFirstKeepsDistinct(s[1..], row);
      InsertNewestFirstMembers(s[1..], row);
      var t := [s[0]] + rest;
      forall i, j | 0 <= i < j < |t| ensures t[i].id != t[j].id {
        if i == 0 {
          assert t[j] in rest;
          if t[j] != row {
            var k :| 1 <= k < |s| && s[k] == t[j];
          }
        } else {
          assert t[i] == rest[i - 1] && t[j] == rest[j - 1];
        }
      }
    }
  }

  /**
   * The live rows of a table, ordered newest first, each exactly once: the
   * `WHERE deleted_at IS NULL ORDER BY created_at DESC` part of `List`.
   */
  method OrderNewestFirst(rows: map<string, VideoRow>) returns (sorted: seq<VideoRow>)
    requires forall id :: id in rows ==> rows[id].id == id
    ensures NewestFirst(sorted) && DistinctIds(sorted)
    ensures forall row :: row in sorted <==> row in rows.Values && Live(row)
  {
    sorted := [];
    var keys := rows.Keys;
    ghost var done: set<string> := {};
    while keys != {}
      invariant keys + done == rows.Keys && keys !! done
      invariant NewestFirst(sorted) && DistinctIds(sorted)
      invariant forall row :: row in sorted <==> row.id in done && row in rows.Values && Live(row)
      decreases keys
    {
      var k :| k in keys;
      var row := rows[k];
      if Live(row) {
        InsertNewestFirstKeepsOrder(sorted, row);
        InsertNewestFirstKeepsDistinct(sorted, row);
        InsertNewestFirstMembers(sorted, row);
        sorted := InsertNewestFirst(sorted, row);
      }
      keys := keys - {k};
      done := done + {k};
    }
  }

  /** The page `List` asks for once its inputs are clamped. */
  datatype PageRequest = PageRequest(page: nat, size: nat)

  /** `List`'s clamping: a page below 1 is the first page, a page size below 1 is 10. */
  function ClampPage(page: int, pageSize: int): (r: PageRequest)
    ensures r.page >= 1 && r.size >= 1
    ensures r.page == (if page < 1 then 1 else page)
    ensures r.size == (if pageSize < 1 then 10 else pageSize)
  {
    PageRequest(if page < 1 then 1 else page, if pageSize < 1 then 10 else pageSize)
  }

  const Int64Min: int := -0x8000_0000_0000_0000
  const Int64Modulus: int := 0x1_0000_0000_0000_0000

  /** Go's `int`, which is 64 bits wide here. */
  predicate IsInt64(x: int)
  {
    Int64Min <= x < -Int64Min
  }

  /** The two's-complement wrap-around of a 64-bit `int` result. */
  function WrapInt64(x: int): (v: int)
    ensures IsInt64(v)
    ensures (x - v) % Int64Modulus == 0
    ensures IsInt64(x) ==> v == x
  {
    var m := x % Int64Modulus;
    if m >= -Int64Min then m - Int64Modulus else m
  }

  /**
   * `offset := (page - 1) * pageSize`, computed in 64-bit `int`: the rows of
   * the earlier pages are skipped, unless the product wraps around.
   */
  function Offset(r: PageRequest): (offset: int)
    requires r.page >= 1
    ensures IsInt64(offset)
    ensures (r.page - 1) * r.size < -Int64Min ==> offset == (r.page - 1) * r.size
  {
    WrapInt64((r.page - 1) * r.size)
  }

  /** A page far enough out wraps the offset round to 0: the source serves the first page again. */
  lemma HugePageWrapsToFirstPage()
    ensures ClampPage(0x4000_0000_0000_0001, 4) == PageRequest(0x4000_0000_0000_0001, 4)
    ensures Offset(ClampPage(0x4000_0000_0000_0001, 4)) == 0
  {
    assert (0x4000_0000_0000_0001 - 1) * 4 == Int64Modulus;
  }

  /** Another page wraps the offset to a negative number, which the database refuses. */
  lemma HugePageWrapsToNegativeOffset()
    ensures Offset(ClampPage(0x2000_0000_0000_0001, 4)) == Int64Min
  {
    assert (0x2000_0000_0000_0001 - 1) * 4 == -Int64Min;
  }

  function Min(a: int, b: int): int
  {
    if a <= b then a else b
  }

  /** `LIMIT limit OFFSET offset` over the ordered rows `s`. */
  function Window<T>(s: seq<T>, offset: nat, limit: nat): (w: seq<T>)
    ensures |w| <= limit
    ensures |w| == if offset >= |s| then 0 else Min(limit, |s| - offset)
    ensures forall i :: 0 <= i < |w| ==> w[i] == s[offset + i]
  {
    if offset >= |s| then [] else s[offset..Min(offset + limit, |s|)]
  }

  /** The first `n` pages of size `size`, one after the other. */
  function Pages<T>(s: seq<T>, size: nat, n: nat): seq<T>
  {
    if n == 0 then [] else Pages(s, size, n - 1) + Window(s, (n - 1) * size, size)
  }

  /**
   * Paging by LIMIT and OFFSET neither skips nor repeats a row: the first `n`
   * pages are the first `n * size` rows.
   */
  lemma {:induction false} PagesTile<T>(s: seq<T>, size: nat, n: nat)
    ensures Pages(s, size, n) == s[..Min(n * size, |s|)]
  {
    if n > 0 {
      PagesTile(s, size, n - 1);
      var lo := (n - 1) * size;
      var hi := n * size;
      assert hi == lo + size by {
        assert n * size == (n - 1) * size + 1 * size;
      }
      var w := Window(s, lo, size);
      assert Pages(s, size, n) == s[..Min(lo, |s|)] + w;
      if lo >= |s| {
        assert w == [];
        assert Min(hi, |s|) == |s| == Min(lo, |s|);
      } else {
        assert w == s[lo..Min(hi, |s|)];
        assert s[..Min(hi, |s|)] == s[..lo] + s[lo..Min(hi, |s|)];
      }
    }
  }

  /** While the product fits in 64 bits, the next page starts one page size further on. */
  lemma NextPageOffset(r: PageRequest)
    requires r.page >= 1 && r.page * r.size < -Int64Min
    ensures Offset(r) == (r.page - 1) * r.size >= 0
    ensures Offset(PageRequest(r.page + 1, r.size)) == Offset(r) + r.size
  {
    assert r.page * r.size == (r.page - 1) * r.size + r.size;
  }

  /** Over rows ordered newest first, every row of a page is at least as new as every row of the next page. */
  lemma EarlierPagesAreNewer(s: seq<VideoRow>, r: PageRequest)
    requires NewestFirst(s) && r.page >= 1 && r.page * r.size < -Int64Min
    ensures Offset(r) >= 0 && Offset(PageRequest(r.page + 1, r.size)) >= 0
    ensures var here := Window(s, Offset(r), r.size);
      var next := Window(s, Offset(PageRequest(r.page + 1, r.size)), r.size);
      forall a, b :: a in here && b in next ==> a.createdAt >= b.createdAt
  {
    NextPageOffset(r);
    AdjacentWindowsNewestFirst(s, Offset(r), r.size);
  }

  lemma AdjacentWindowsNewestFirst(s: seq<VideoRow>, lo: nat, size: nat)
    requires NewestFirst(s)
    ensures var here := Window(s, lo, size);
      var next := Window(s, lo + size, size);
      forall a, b :: a in here && b in next ==> a.createdAt >= b.createdAt
  {
    var here := Window(s, lo, size);
    var next := Window(s, lo + size, size);
    forall a, b | a in here && b in next ensures a.createdAt >= b.createdAt {
      var i :| 0 <= i < |here| && here[i] == a;
      var j :| 0 <= j < |next| && next[j] == b;
      assert here[i] == s[lo + i] && next[j] == s[lo + size + j];
    }
  }

  /** With fifteen rows and pages of ten, the first page has ten rows and the second five. */
  lemma FifteenRowsInPagesOfTen(s: seq<VideoRow>)
    requires |s| == 15
    ensures |Window(s, Offset(ClampPage(1, 10)), ClampPage(1, 10).size)| == 10
    ensures |Window(s, Offset(ClampPage(2, 10)), ClampPage(2, 10).size)| == 5
    ensures Window(s, Offset(ClampPage(1, 10)), 10) + Window(s, Offset(ClampPage(2, 10)), 10) == s
  {
    assert ClampPage(1, 10) == PageRequest(1, 10) && Offset(PageRequest(1, 10)) == 0;
    assert ClampPage(2, 10) == PageRequest(2, 10) && Offset(PageRequest(2, 10)) == 10;
    PagesTile(s, 10, 2);
    assert Pages(s, 10, 2) == Pages(s, 10, 1) + Window(s, 10, 10);
    assert Pages(s, 10, 1) == [] + Window(s, 0, 10);
  }

  /** `VideoRepositoryPostgres`, over an in-memory `videos` table. */
  class VideoRepository {
    var rows: map<string, VideoRow>

    /** `id` is the primary key: every row is stored under its own id. */
    ghost predicate Valid()
      reads this
    {
      forall id :: id in rows ==> rows[id].id == id
    }

    /** `NewVideoRepositoryPostgres`, over an empty table. */
    constructor NewVideoRepository()
      ensures Valid() && rows == map[]
    {
      rows := map[];
    }

    /** A row with this id exists and is not deleted. */
    predicate LiveRow(id: string)
      reads this
    {
      id in rows && Live(rows[id])
    }

    /**
     * `Create`: inserts the video's columns; an id already in the table,
     * deleted or not, violates the primary key and nothing changes.
     */
    method Create(video: Entity.Video) returns (o: Outcome<Error>)
      requires Valid()
      modifies this
      ensures Valid()
      ensures video.id in old(rows) ==> o == Fail(CreateFailed(DuplicateKey)) && rows == old(rows)
      ensures video.id !in old(rows) ==> o == Pass && rows == old(rows)[video.id := RowOf(video)]
    {
      if video.id in rows {
        return Fail(CreateFailed(DuplicateKey));
      }
      rows := rows[video.id := RowOf(video)];
      o := Pass;
    }

    /** `FindByID`: a new video scanned from the live row, or `ErrVideoNotFound`. */
    method FindByID(id: string) returns (r: Result<Entity.Video, Error>)
      ensures !LiveRow(id) ==> r == Failure(VideoNotFound)
      ensures LiveRow(id) ==> r.Success? && fresh(r.value) && Scanned(r.value, rows[id])
    {
      if !LiveRow(id) {
        return Failure(VideoNotFound);
      }
      var video := Scan(rows[id]);
      r := Success(video);
    }

    /**
     * `List`: the live rows ordered newest first (`ordered`, each live row
     * exactly once), of which the clamped page is scanned into new videos; an
     * offset that wrapped round to a negative number is refused by the
     * database, and the refusal is returned wrapped.
     */
    method List(page: int, pageSize: int) returns (r: Result<seq<Entity.Video>, Error>, ghost ordered: seq<VideoRow>)
      requires Valid()
      requires IsInt64(page) && IsInt64(pageSize)
      ensures NewestFirst(ordered) && DistinctIds(ordered)
      ensures forall row :: row in ordered <==> row in rows.Values && Live(row)
      ensures var q := ClampPage(page, pageSize);
        Offset(q) < 0 ==> r == Failure(ListFailed(NegativeOffset))
      ensures var q := ClampPage(page, pageSize);
        Offset(q) >= 0 ==>
          var w := Window(ordered, Offset(q), q.size);
          && r.Success? && |r.value| == |w| <= q.size
          && forall i :: 0 <= i < |w| ==> fresh(r.value[i]) && Scanned(r.value[i], w[i])
    {
      var q := ClampPage(page, pageSize);
      var offset := Offset(q);
      var sorted := OrderNewestFirst(rows);
      ordered := sorted;
      if offset < 0 {
        return Failure(ListFailed(NegativeOffset)), ordered;
      }
      var selected := Window(sorted, offset, q.size);
      var videos := ScanAll(selected);
      r := Success(videos);
    }

    /** `UpdateStatus`: sets the status, the error message and `updated_at` of the live row, or `ErrVideoNotFound`. */
    method UpdateStatus(id: string, status: string, errorMessage: string, now: Time) returns (o: Outcome<Error>)
      requires Valid()
      modifies this
      ensures Valid()
      ensures !old(LiveRow(id)) ==> o == Fail(VideoNotFound) && rows == old(rows)
      ensures old(LiveRow(id)) ==>
        o == Pass &&
        rows == old(rows)[id := old(rows[id]).(status := status, errorMessage := errorMessage, updatedAt := now)]
    {
      if !LiveRow(id) {
        return Fail(VideoNotFound);
      }
      rows := rows[id := rows[id].(status := status, errorMessage := errorMessage, updatedAt := now)];
      o := Pass;
    }

    /** `UpdateHLSPath`: sets the HLS directory, the manifest path and `updated_at` of the live row, or `ErrVideoNotFound`. */
    method UpdateHLSPath(id: string, hlsPath: string, manifestPath: string, now: Time) returns (o: Outcome<Error>)
      requires Valid()
      modifies this
      ensures Valid()
      ensures !old(LiveRow(id)) ==> o == Fail(VideoNotFound) && rows == old(rows)
      ensures old(LiveRow(id)) ==>
        o == Pass &&
        rows == old(rows)[id := old(rows[id]).(hlsPath := hlsPath, manifestPath := manifestPath, updatedAt := now)]
    {
      if !LiveRow(id) {
        return Fail(VideoNotFound);
      }
      rows := rows[id := rows[id].(hlsPath := hlsPath, manifestPath := manifestPath, updatedAt := now)];
      o := Pass;
    }

    /** `UpdateS3Status`: sets the upload status and `updated_at` of the live row, or `ErrVideoNotFound`. */
    method UpdateS3Status(id: string, uploadStatus: string, now: Time) returns (o: Outcome<Error>)
      requires Valid()
      modifies this
      ensures Valid()
      ensures !old(LiveRow(id)) ==> o == Fail(VideoNotFound) && rows == old(rows)
      ensures old(LiveRow(id)) ==>
        o == Pass &&
        rows == old(rows)[id := old(rows[id]).(uploadStatus := uploadStatus, updatedAt := now)]
    {
      if !LiveRow(id) {
        return Fail(VideoNotFound);
      }
      rows := rows[id := rows[id].(uploadStatus := uploadStatus, updatedAt := now)];
      o := Pass;
    }

    /** `UpdateS3URLs`: sets both S3 URLs and `updated_at` of the live row, or `ErrVideoNotFound`. */
    method UpdateS3URLs(id: string, s3URL: string, s3ManifestURL: string, now: Time) returns (o: Outcome<Error>)
      requires Valid()
      modifies this
      ensures Valid()
      ensures !old(LiveRow(id)) ==> o == Fail(VideoNotFound) && rows == old(rows)
      ensures old(LiveRow(id)) ==>
        o == Pass &&
        rows == old(rows)[id := old(rows[id]).(s3URL := s3URL, s3ManifestURL := s3ManifestURL, updatedAt := now)]
    {
      if !LiveRow(id) {
        return Fail(VideoNotFound);
      }
      rows := rows[id := rows[id].(s3URL := s3URL, s3ManifestURL := s3ManifestURL, updatedAt := now)];
      o := Pass;
    }

    /** `UpdateS3Keys`: sets both S3 keys and `updated_at` of the live row, or `ErrVideoNotFound`. */
    method UpdateS3Keys(id: string, segmentKey: string, manifestKey: string, now: Time) returns (o: Outcome<Error>)
      requires Valid()
      modifies this
      ensures Valid()
      ensures !old(LiveRow(id)) ==> o == Fail(VideoNotFound) && rows == old(rows)
      ensures old(LiveRow(id)) ==>
        o == Pass &&
        rows == old(rows)[id := old(rows[id]).(segmentKey := Some(segmentKey), manifestKey := Some(manifestKey), updatedAt := now)]
    {
      if !LiveRow(id) {
        return Fail(VideoNotFound);
      }
      rows := rows[id := rows[id].(segmentKey := Some(segmentKey), manifestKey := Some(manifestKey), updatedAt := now)];
      o := Pass;
    }

    /** `Delete`: a soft delete that stamps `deleted_at` on the live row and keeps it, or `ErrVideoNotFound`. */
    method Delete(id: string, now: Time) returns (o: Outcome<Error>)
      requires Valid()
      modifies this
      ensures Valid()
      ensures !old(LiveRow(id)) ==> o == Fail(VideoNotFound) && rows == old(rows)
      ensures old(LiveRow(id)) ==>
        o == Pass && id in rows && !LiveRow(id) &&
        rows == old(rows)[id := old(rows[id]).(deletedAt := Some(now))]
    {
      if !LiveRow(id) {
        return Fail(VideoNotFound);
      }
      rows := rows[id := rows[id].(deletedAt := Some(now))];
      o := Pass;
    }
  }

  /**
   * The repository's life as its tests follow it: a created video is found
   * again with the same columns, a second create of the same id fails, and once
   * deleted the video is kept but not found, and a second delete or any update
   * is refused.
   */
  method RepositoryScenario(video: Entity.Video, now: Time)
    returns (created: Outcome<Error>, found: Result<Entity.Video, Error>, duplicate: Outcome<Error>,
             deleted: Outcome<Error>, foundAfter: Result<Entity.Video, Error>, deletedAgain: Outcome<Error>,
             updatedAfter: Outcome<Error>, uploadAfter: Outcome<Error>, kept: bool)
    ensures created == Pass && duplicate == Fail(CreateFailed(DuplicateKey))
    ensures found.Success? && found.value.id == video.id && found.value.title == video.title
    ensures found.Success? && found.value.filePath == video.filePath && found.value.status == video.status
    ensures deleted == Pass && foundAfter == Failure(VideoNotFound) && deletedAgain == Fail(VideoNotFound)
    ensures updatedAfter == Fail(VideoNotFound) && uploadAfter == Fail(VideoNotFound) && kept
  {
    var repo := new VideoRepository.NewVideoRepository();
    created := repo.Create(video);
    found := repo.FindByID(video.id);
    duplicate := repo.Create(video);
    deleted := repo.Delete(video.id, now);
    foundAfter := repo.FindByID(video.id);
    deletedAgain := repo.Delete(video.id, now);
    updatedAfter := repo.UpdateStatus(video.id, Entity.StatusCompleted, "", now);
    uploadAfter := repo.UpdateS3Status(video.id, Entity.UploadStatusCompletedS3, now);
    kept := video.id in repo.rows;
  }
}
