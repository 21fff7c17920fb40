/**
 * The video table behind the course catalogue (repositories/video.repository.js).
 *
 * Each course owns a list of videos kept in a playback position, the integer
 * column `order`. Videos are never removed: deleting one sets `is_deleted`.
 * Creating a video appends it after the course's last live video; reordering
 * moves one video and shifts the band of siblings between its old and new
 * position by one slot.
 *
 * This table is written through its own store client, so none of the audit
 * stamping of the AuditInterceptor module applies to it.
 */
module VideoStore {
  import opened Wrappers
  import opened Query

  type VideoId = string
  type CourseId = string

  /** One row of the video table; `attrs` holds the remaining columns (title, url, size, status, ...). */
  datatype Video = Video(id: VideoId, courseId: CourseId, order: int, isDeleted: bool, attrs: map<string, string>)

  /** The data passed to `updateVideo`: a column given as `None` keeps its value. */
  datatype VideoPatch = VideoPatch(
    id: Option<VideoId>,
    courseId: Option<CourseId>,
    order: Option<int>,
    isDeleted: Option<bool>,
    attrs: map<string, string>)

  datatype VideoError =
    | VideoNotFound   // "Video not found", and the store's failure to find the row to update
    | DuplicateId     // the store's unique-constraint failure on `id`
    | InvalidPaging   // a negative skip (refused by the store) or take (refused by this model)

  /** The key the video listings are sorted by. */
  function OrderKey(v: Video): int { v.order }

  /** No two rows share an id (the table's primary key). */
  predicate UniqueIds(rows: seq<Video>) {
    forall i, j :: 0 <= i < j < |rows| ==> rows[i].id != rows[j].id
  }

  /** A video of course `c`; with `liveOnly`, only one that is not soft-deleted. */
  predicate InScope(v: Video, c: CourseId, liveOnly: bool) {
    v.courseId == c && (!liveOnly || !v.isDeleted)
  }

  /** The primary key of a row. */
  function VideoIdOf(v: Video): VideoId { v.id }

  /** `findUnique({ where: { id } })`: the row with this id, soft-deleted or not. */
  function Find(rows: seq<Video>, id: VideoId): (r: Option<Video>)
    ensures r.Some? ==> r.value in rows && r.value.id == id
    ensures r.None? ==> forall v :: v in rows ==> v.id != id
  {
    match IndexOfKey(rows, VideoIdOf, id)
    case None => None
    case Some(k) => Some(rows[k])
  }

  /** `getVideoById`: the first row with this id that is not soft-deleted. */
  function GetVideoById(rows: seq<Video>, id: VideoId): (r: Option<Video>)
    ensures r.Some? ==> r.value in rows && r.value.id == id && !r.value.isDeleted
    ensures r.None? ==> forall v :: v in rows && v.id == id ==> v.isDeleted
  {
    if rows == [] then None
    else if rows[0].id == id && !rows[0].isDeleted then Some(rows[0])
    else GetVideoById(rows[1..], id)
  }

  /** The live videos of course `c`, in table order (`where: { course_id, is_deleted: false }`). */
  function LiveOfCourse(rows: seq<Video>, c: CourseId): (r: seq<Video>)
    ensures |r| <= |rows|
    ensures forall v :: v in r <==> v in rows && InScope(v, c, true)
    ensures forall v {:trigger multiset(r)[v]} :: multiset(r)[v] == if InScope(v, c, true) then multiset(rows)[v] else 0
  {
    if rows == [] then []
    else
      assert rows == [rows[0]] + rows[1..];
      (if InScope(rows[0], c, true) then [rows[0]] else []) + LiveOfCourse(rows[1..], c)
  }

  /** The live videos of course `c`, ascending by `order` (`orderBy: { order: 'asc' }`). */
  function ByOrder(rows: seq<Video>, c: CourseId): (r: seq<Video>)
    ensures multiset(r) == multiset(LiveOfCourse(rows, c))
    ensures |r| == |LiveOfCourse(rows, c)|
    ensures SortedBy(r, OrderKey)
  {
    SortByMembers(LiveOfCourse(rows, c), OrderKey);
    SortBy(LiveOfCourse(rows, c), OrderKey)
  }

  /** The highest `order` among the live videos of course `c` (`findFirst` ordered by `order` descending). */
  function MaxLiveOrder(rows: seq<Video>, c: CourseId): (r: Option<int>)
    ensures r.None? <==> forall v :: v in rows ==> !InScope(v, c, true)
    ensures r.Some? ==> exists v :: v in rows && InScope(v, c, true) && v.order == r.value
    ensures r.Some? ==> forall v :: v in rows && InScope(v, c, true) ==> v.order <= r.value
  {
    if rows == [] then None
    else
      var rest := MaxLiveOrder(rows[1..], c);
      assert forall v :: v in rows <==> v == rows[0] || v in rows[1..];
      if !InScope(rows[0], c, true) then rest
      else if rest.Some? && rest.value >= rows[0].order then rest
      else Some(rows[0].order)
  }

  /** The position `createVideo` gives a new video of course `c`. */
  function NextOrder(rows: seq<Video>, c: CourseId): (r: int)
    ensures forall v :: v in rows && InScope(v, c, true) ==> v.order < r
    ensures (forall v :: v in rows ==> !InScope(v, c, true)) ==> r == 0
    ensures (exists v :: v in rows && InScope(v, c, true)) ==>
              exists v :: v in rows && InScope(v, c, true) && v.order == r - 1
  {
    match MaxLiveOrder(rows, c)
    case Some(m) => m + 1
    case None => 0
  }

  /** A page of `ByOrder`: live videos of the course, still ascending by position. */
  lemma VideoPageShows(rows: seq<Video>, c: CourseId, skip: nat, take: nat)
    ensures var p := Window(ByOrder(rows, c), skip, take);
            && (forall v :: v in p ==> v in rows && InScope(v, c, true))
            && SortedBy(p, OrderKey)
  {
    var all := ByOrder(rows, c);
    SortByMembers(LiveOfCourse(rows, c), OrderKey);
    WindowKeepsOrder(all, OrderKey, skip, take);
  }

  /** One page of a course's videos, with the number of all matching videos. */
  datatype VideoPage = VideoPage(videos: seq<Video>, page: int, limit: int, total: nat)

  /** `getVideosByCourseId`: the live videos of a course, ascending by `order`, one page of them. */
  function GetVideosByCourseId(rows: seq<Video>, c: CourseId, page: int, limit: int): (r: Result<VideoPage, VideoError>)
    ensures r.Err? <==> !PagingAccepted(page, limit)
    ensures r.Err? ==> r.error == InvalidPaging
    ensures r.Ok? ==> r.value.page == page && r.value.limit == limit
    ensures r.Ok? ==> r.value.total == |LiveOfCourse(rows, c)|
    ensures r.Ok? ==> forall v :: v in r.value.videos ==> v in rows && InScope(v, c, true)
    ensures r.Ok? ==> SortedBy(r.value.videos, OrderKey)
    ensures r.Ok? ==> |r.value.videos| == Min(limit, Max(0, r.value.total - SkipFor(page, limit)))
    ensures r.Ok? ==> forall i :: 0 <= i < |r.value.videos| ==>
              && 0 <= SkipFor(page, limit) + i < |ByOrder(rows, c)|
              && r.value.videos[i] == ByOrder(rows, c)[SkipFor(page, limit) + i]
  {
    if !PagingAccepted(page, limit) then Err(InvalidPaging)
    else
      var shown := Window(ByOrder(rows, c), SkipFor(page, limit), limit);
      VideoPageShows(rows, c, SkipFor(page, limit), limit);
      Ok(VideoPage(shown, page, limit, |LiveOfCourse(rows, c)|))
  }

  /** A band shift of `updateMany`: siblings between the old and new position move one slot towards the old one. */
  function ShiftedOrder(o: int, from: int, to: int): int {
    if to > from then (if from < o <= to then o - 1 else o)
    else (if to <= o < from then o + 1 else o)
  }

  /** The `updateMany` of `reorderVideo`: every video of course `c` (deleted or not) in the band is shifted. */
  function ShiftSiblings(rows: seq<Video>, c: CourseId, from: int, to: int): (r: seq<Video>)
    ensures |r| == |rows|
  {
    seq(|rows|, i requires 0 <= i < |rows| =>
      if rows[i].courseId == c then rows[i].(order := ShiftedOrder(rows[i].order, from, to)) else rows[i])
  }

  /** The final `update` of `reorderVideo`: the row with this id gets `order := to`. */
  function SetOrder(rows: seq<Video>, id: VideoId, to: int): (r: seq<Video>)
    ensures |r| == |rows|
  {
    seq(|rows|, i requires 0 <= i < |rows| => if rows[i].id == id then rows[i].(order := to) else rows[i])
  }

  /**
   * The table after `reorderVideo(id, to)`; unchanged when no row has that
   * id. Only positions change, and only within the target's course.
   */
  function Reorder(rows: seq<Video>, id: VideoId, to: int): (r: seq<Video>)
    ensures Find(rows, id).None? ==> r == rows
    ensures |r| == |rows|
    ensures forall i :: 0 <= i < |rows| ==> r[i] == rows[i].(order := r[i].order)
    ensures Find(rows, id).Some? ==>
              forall i :: 0 <= i < |rows| && rows[i].courseId != Find(rows, id).value.courseId && rows[i].id != id ==>
                r[i] == rows[i]
    ensures forall i :: 0 <= i < |rows| && rows[i].id == id ==> r[i].order == to
  {
    match Find(rows, id)
    case None => rows
    case Some(t) => SetOrder(ShiftSiblings(rows, t.courseId, t.order, to), id, to)
  }

  /** A row after `updateVideo`: each column the patch gives is overwritten, the others are kept. */
  function ApplyPatch(v: Video, p: VideoPatch): (r: Video)
    ensures p.id.Some? ==> r.id == p.id.value
    ensures p.id.None? ==> r.id == v.id
    ensures p.courseId.Some? ==> r.courseId == p.courseId.value
    ensures p.courseId.None? ==> r.courseId == v.courseId
    ensures p.order.Some? ==> r.order == p.order.value
    ensures p.order.None? ==> r.order == v.order
    ensures p.isDeleted.Some? ==> r.isDeleted == p.isDeleted.value
    ensures p.isDeleted.None? ==> r.isDeleted == v.isDeleted
    ensures r.attrs.Keys == v.attrs.Keys + p.attrs.Keys
    ensures forall k :: k in p.attrs ==> r.attrs[k] == p.attrs[k]
    ensures forall k :: k in v.attrs && k !in p.attrs ==> r.attrs[k] == v.attrs[k]
  {
    Video(
      match p.id case Some(i) => i case None => v.id,
      match p.courseId case Some(c) => c case None => v.courseId,
      match p.order case Some(o) => o case None => v.order,
      match p.isDeleted case Some(d) => d case None => v.isDeleted,
      v.attrs + p.attrs)
  }

  /** Some row other than the one at `k` has the id `id`. */
  predicate VideoIdTakenByOther(rows: seq<Video>, k: int, id: VideoId) {
    exists j :: 0 <= j < |rows| && j != k && rows[j].id == id
  }

  /** The video table, as the three write paths of the repository change it. */
  class VideoTable {
    var rows: seq<Video>

    ghost predicate Valid()
      reads this
    {
      UniqueIds(rows)
    }

    constructor ()
      ensures Valid() && rows == []
    {
      rows := [];
    }

    /**
     * `createVideo`: appends the caller's video at the position after the
     * course's last live video. `is_deleted` is stored as the caller gives
     * it, and defaults to false when the caller leaves it out.
     */
    method CreateVideo(id: VideoId, courseId: CourseId, isDeleted: Option<bool>, attrs: map<string, string>)
      returns (r: Result<Video, VideoError>)
      requires Valid()
      modifies this
      ensures Valid()
      ensures Find(old(rows), id).Some? ==> r == Err(DuplicateId) && rows == old(rows)
      ensures Find(old(rows), id).None? ==>
                r == Ok(Video(id, courseId, NextOrder(old(rows), courseId), OrDefault(isDeleted, false), attrs))
                && rows == old(rows) + [r.value]
    {
      var next := NextOrder(rows, courseId);
      if IndexOfKey(rows, VideoIdOf, id).Some? {
        return Err(DuplicateId);
      }
      var v := Video(id, courseId, next, OrDefault(isDeleted, false), attrs);
      rows := rows + [v];
      r := Ok(v);
    }

    /**
     * `updateVideo`: overwrites the given columns of the row with this id,
     * deleted or not. The data may rename the row; a new id that another row
     * holds fails on the table's primary key and changes nothing.
     */
    method UpdateVideo(id: VideoId, patch: VideoPatch) returns (r: Result<Video, VideoError>)
      requires Valid()
      modifies this
      ensures Valid()
      ensures IndexOfKey(old(rows), VideoIdOf, id).None? ==> r == Err(VideoNotFound) && rows == old(rows)
      ensures IndexOfKey(old(rows), VideoIdOf, id).Some? ==>
                var k := IndexOfKey(old(rows), VideoIdOf, id).value;
                var v := ApplyPatch(old(rows)[k], patch);
                && (VideoIdTakenByOther(old(rows), k, v.id) ==> r == Err(DuplicateId) && rows == old(rows))
                && (!VideoIdTakenByOther(old(rows), k, v.id) ==> r == Ok(v) && rows == old(rows)[k := v])
    {
      var found := IndexOfKey(rows, VideoIdOf, id);
      if found.None? {
        return Err(VideoNotFound);
      }
      var k := found.value;
      var v := ApplyPatch(rows[k], patch);
      if VideoIdTakenByOther(rows, k, v.id) {
        return Err(DuplicateId);
      }
      rows := rows[k := v];
      r := Ok(v);
    }

    /** `deleteVideo`: sets `is_deleted` on the row with this id and changes nothing else. */
    method DeleteVideo(id: VideoId) returns (r: Result<Video, VideoError>)
      requires Valid()
      modifies this
      ensures Valid()
      ensures IndexOfKey(old(rows), VideoIdOf, id).None? ==> r == Err(VideoNotFound) && rows == old(rows)
      ensures IndexOfKey(old(rows), VideoIdOf, id).Some? ==>
                var k := IndexOfKey(old(rows), VideoIdOf, id).value;
                r == Ok(old(rows)[k].(isDeleted := true)) && rows == old(rows)[k := r.value]
    {
      var found := IndexOfKey(rows, VideoIdOf, id);
      if found.None? {
        return Err(VideoNotFound);
      }
      var v := rows[found.value].(isDeleted := true);
      rows := rows[found.value := v];
      r := Ok(v);
    }

    /**
     * `reorderVideo`: looks the video up (deleted or not), shifts the band of
     * its course's videos between the old and the new position, then writes
     * the new position. `newOrder >= 0` is the controller's guard.
     */
    method ReorderVideo(id: VideoId, newOrder: int) returns (r: Result<Video, VideoError>)
      requires Valid()
      requires newOrder >= 0
      modifies this
      ensures Valid()
      ensures Find(old(rows), id).None? ==> r == Err(VideoNotFound) && rows == old(rows)
      ensures Find(old(rows), id).Some? ==>
                r == Ok(Find(old(rows), id).value.(order := newOrder))
                && rows == Reorder(old(rows), id, newOrder)
    {
      var found := IndexOfKey(rows, VideoIdOf, id);
      if found.None? {
        return Err(VideoNotFound);
      }
      var k := found.value;
      var target := rows[k];
      rows := ShiftSiblings(rows, target.courseId, target.order, newOrder);
      rows := SetOrder(rows, id, newOrder);
      r := Ok(rows[k]);
    }
  }
}
