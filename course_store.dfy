/**
 * The course table (repositories/course.repository.js): plain create and
 * update, soft delete, lookup with the course's live videos in playback
 * order, and the paged, filtered catalogue listing.
 *
 * Like the video table it is written through its own store client, without
 * the audit stamping of the AuditInterceptor module.
 */
module CourseStore {
  import opened Wrappers
  import opened Query
  import opened VideoStore

  /** One row of the course table; `attrs` holds the remaining columns (description, author, ...). */
  datatype Course = Course(
    id: CourseId,
    title: string,
    status: int,
    createdAt: int,
    isDeleted: bool,
    attrs: map<string, string>)

  /** The data passed to `updateCourse`: a column given as `None` keeps its value. */
  datatype CoursePatch = CoursePatch(
    id: Option<CourseId>,
    title: Option<string>,
    status: Option<int>,
    createdAt: Option<int>,
    isDeleted: Option<bool>,
    attrs: map<string, string>)

  datatype CourseError =
    | CourseNotFound      // the store's failure to find the row to update
    | DuplicateCourseId   // the store's unique-constraint failure on `id`
    | InvalidPaging       // a negative skip (refused by the store) or take (refused by this model)

  predicate UniqueCourseIds(rows: seq<Course>) {
    forall i, j :: 0 <= i < j < |rows| ==> rows[i].id != rows[j].id
  }

  /** Some row other than the one at `k` has the id `id`. */
  predicate CourseIdTakenByOther(rows: seq<Course>, k: int, id: CourseId) {
    exists j :: 0 <= j < |rows| && j != k && rows[j].id == id
  }

  /** The primary key of a row. */
  function CourseIdOf(c: Course): CourseId { c.id }

  /** A course row after `updateCourse`: each column the patch gives is overwritten, the others are kept. */
  function ApplyCoursePatch(c: Course, p: CoursePatch): (r: Course)
    ensures p.id.Some? ==> r.id == p.id.value
    ensures p.id.None? ==> r.id == c.id
    ensures p.title.Some? ==> r.title == p.title.value
    ensures p.title.None? ==> r.title == c.title
    ensures p.status.Some? ==> r.status == p.status.value
    ensures p.status.None? ==> r.status == c.status
    ensures p.createdAt.Some? ==> r.createdAt == p.createdAt.value
    ensures p.createdAt.None? ==> r.createdAt == c.createdAt
    ensures p.isDeleted.Some? ==> r.isDeleted == p.isDeleted.value
    ensures p.isDeleted.None? ==> r.isDeleted == c.isDeleted
    ensures r.attrs.Keys == c.attrs.Keys + p.attrs.Keys
    ensures forall k :: k in p.attrs ==> r.attrs[k] == p.attrs[k]
    ensures forall k :: k in c.attrs && k !in p.attrs ==> r.attrs[k] == c.attrs[k]
  {
    Course(
      match p.id case Some(i) => i case None => c.id,
      match p.title case Some(t) => t case None => c.title,
      match p.status case Some(s) => s case None => c.status,
      match p.createdAt case Some(t) => t case None => c.createdAt,
      match p.isDeleted case Some(d) => d case None => c.isDeleted,
      c.attrs + p.attrs)
  }

  /** A course with the live videos that `getCourseById` includes. */
  datatype CourseDetail = CourseDetail(course: Course, videos: seq<Video>)

  /** `getCourseById`: the live course with this id, with its live videos ascending by position. */
  function GetCourseById(courses: seq<Course>, videos: seq<Video>, id: CourseId): (r: Option<CourseDetail>)
    ensures r.Some? ==> r.value.course in courses && r.value.course.id == id && !r.value.course.isDeleted
    ensures r.None? ==> forall c :: c in courses && c.id == id ==> c.isDeleted
    ensures r.Some? ==> multiset(r.value.videos) == multiset(LiveOfCourse(videos, id))
    ensures r.Some? ==> forall v :: v in r.value.videos <==> v in videos && InScope(v, id, true)
    ensures r.Some? ==> SortedBy(r.value.videos, OrderKey)
  {
    if courses == [] then None
    else if courses[0].id == id && !courses[0].isDeleted then
      var vs := ByOrder(videos, id);
      assert forall v :: v in vs <==> v in LiveOfCourse(videos, id) by {
        forall v ensures v in vs <==> v in LiveOfCourse(videos, id) {
          assert v in vs <==> v in multiset(vs);
        }
      }
      Some(CourseDetail(courses[0], vs))
    else GetCourseById(courses[1..], videos, id)
  }

  /** The filter of `getAllCourses`: live, title contains `search`, and the given status if one is given. */
  predicate MatchesCourse(c: Course, search: string, status: Option<int>) {
    !c.isDeleted && Contains(c.title, search) && (status.None? || c.status == status.value)
  }

  function MatchingCourses(rows: seq<Course>, search: string, status: Option<int>): (r: seq<Course>)
    ensures |r| <= |rows|
    ensures forall c :: c in r <==> c in rows && MatchesCourse(c, search, status)
    ensures forall c {:trigger multiset(r)[c]} :: multiset(r)[c] == if MatchesCourse(c, search, status) then multiset(rows)[c] else 0
  {
    if rows == [] then []
    else
      assert rows == [rows[0]] + rows[1..];
      (if MatchesCourse(rows[0], search, status) then [rows[0]] else []) + MatchingCourses(rows[1..], search, status)
  }

  /** Sorting key for `orderBy: { created_at: 'desc' }`. */
  function NewestFirst(c: Course): int { -c.createdAt }

  /** The matching courses, newest first. */
  function ByNewest(rows: seq<Course>, search: string, status: Option<int>): (r: seq<Course>)
    ensures multiset(r) == multiset(MatchingCourses(rows, search, status))
    ensures |r| == |MatchingCourses(rows, search, status)|
    ensures forall c :: c in r <==> c in rows && MatchesCourse(c, search, status)
    ensures forall i, j :: 0 <= i < j < |r| ==> r[i].createdAt >= r[j].createdAt
  {
    var matching := MatchingCourses(rows, search, status);
    var s := SortBy(matching, NewestFirst);
    SortByMembers(matching, NewestFirst);
    assert forall i, j :: 0 <= i < j < |s| ==> NewestFirst(s[i]) <= NewestFirst(s[j]);
    s
  }

  /** A listed course with the ids of its live videos. */
  datatype CourseSummary = CourseSummary(course: Course, videoIds: seq<VideoId>)

  /** The ids of the live videos of course `c` (`videos: { where: { is_deleted: false }, select: { id: true } }`). */
  function LiveVideoIds(videos: seq<Video>, c: CourseId): (r: seq<VideoId>)
    ensures |r| == |LiveOfCourse(videos, c)|
    ensures forall i :: 0 <= i < |r| ==> r[i] == LiveOfCourse(videos, c)[i].id
    ensures forall id :: id in r <==> exists v :: v in videos && InScope(v, c, true) && v.id == id
  {
    var live := LiveOfCourse(videos, c);
    var r := seq(|live|, i requires 0 <= i < |live| => live[i].id);
    assert forall id :: id in r <==> exists v :: v in live && v.id == id by {
      forall id ensures id in r <==> exists v :: v in live && v.id == id {
        if exists v :: v in live && v.id == id {
          var v :| v in live && v.id == id;
          var p :| 0 <= p < |live| && live[p] == v;
          assert r[p] == id;
        }
      }
    }
    r
  }

  function Summaries(cs: seq<Course>, videos: seq<Video>): (r: seq<CourseSummary>)
    ensures |r| == |cs|
    ensures forall i :: 0 <= i < |cs| ==> r[i].course == cs[i]
    ensures forall s :: s in r ==> s.course in cs && s.videoIds == LiveVideoIds(videos, s.course.id)
  {
    seq(|cs|, i requires 0 <= i < |cs| => CourseSummary(cs[i], LiveVideoIds(videos, cs[i].id)))
  }

  /** The courses a page shows: matching courses only, newest first. */
  lemma CoursePageShows(courses: seq<Course>, search: string, status: Option<int>, skip: nat, take: nat)
    ensures var p := Window(ByNewest(courses, search, status), skip, take);
            && (forall c :: c in p ==> c in courses && MatchesCourse(c, search, status))
            && (forall i, j :: 0 <= i < j < |p| ==> p[i].createdAt >= p[j].createdAt)
  {
    var all := ByNewest(courses, search, status);
    var p := Window(all, skip, take);
    forall c | c in p ensures c in courses && MatchesCourse(c, search, status) {
      var k :| 0 <= k < |p| && p[k] == c;
      assert all[skip + k] == c;
    }
    forall i, j | 0 <= i < j < |p| ensures p[i].createdAt >= p[j].createdAt {
      assert p[i] == all[skip + i] && p[j] == all[skip + j];
    }
  }

  /**
   * One page of the newest-first listing, summarised: its size (the listing
   * holds every match, see `ByNewest`), entries that match with their live
   * video ids, newest first, taken in listing order from position `skip`.
   */
  lemma SummaryPage(courses: seq<Course>, videos: seq<Video>, search: string, status: Option<int>, skip: nat, take: nat)
    ensures var all := ByNewest(courses, search, status);
            var sums := Summaries(Window(all, skip, take), videos);
            && |sums| == Min(take, Max(0, |all| - skip))
            && (forall s :: s in sums ==>
                  s.course in courses && MatchesCourse(s.course, search, status)
                  && s.videoIds == LiveVideoIds(videos, s.course.id))
            && (forall i, j :: 0 <= i < j < |sums| ==> sums[i].course.createdAt >= sums[j].course.createdAt)
            && (forall i :: 0 <= i < |sums| ==> skip + i < |all| && sums[i].course == all[skip + i])
  {
    var all := ByNewest(courses, search, status);
    var p := Window(all, skip, take);
    CoursePageShows(courses, search, status, skip, take);
    var sums := Summaries(p, videos);
    forall i | 0 <= i < |sums| ensures skip + i < |all| && sums[i].course == all[skip + i] {
      assert sums[i].course == p[i];
    }
    forall i, j | 0 <= i < j < |sums| ensures sums[i].course.createdAt >= sums[j].course.createdAt {
      assert sums[i].course == p[i] && sums[j].course == p[j];
    }
  }

  datatype CoursePage = CoursePage(courses: seq<CourseSummary>, page: int, limit: int, total: nat)

  /**
   * `getAllCourses`: refuses a negative skip or take; otherwise the page of
   * the newest-first listing at `skip = (page - 1) * limit` with `take =
   * limit`, each course with its live video ids, and the number of all
   * matches.
   */
  function GetAllCourses(courses: seq<Course>, videos: seq<Video>, page: int, limit: int, search: string, status: Option<int>)
    : (r: Result<CoursePage, CourseError>)
    ensures r.Err? <==> !PagingAccepted(page, limit)
    ensures r.Err? ==> r.error == CourseError.InvalidPaging
    ensures r.Ok? ==> r.value.page == page && r.value.limit == limit
    ensures r.Ok? ==> r.value.total == |MatchingCourses(courses, search, status)|
    ensures r.Ok? ==> |r.value.courses| == Min(limit, Max(0, r.value.total - SkipFor(page, limit)))
    ensures r.Ok? ==> forall i :: 0 <= i < |r.value.courses| ==>
              && 0 <= SkipFor(page, limit) + i < |ByNewest(courses, search, status)|
              && r.value.courses[i].course == ByNewest(courses, search, status)[SkipFor(page, limit) + i]
    ensures r.Ok? ==> forall s :: s in r.value.courses ==>
              && s.course in courses && MatchesCourse(s.course, search, status)
              && s.videoIds == LiveVideoIds(videos, s.course.id)
    ensures r.Ok? ==> forall i, j :: 0 <= i < j < |r.value.courses| ==>
              r.value.courses[i].course.createdAt >= r.value.courses[j].course.createdAt
  {
    if !PagingAccepted(page, limit) then Err(CourseError.InvalidPaging)
    else
      var all := ByNewest(courses, search, status);
      var skip := SkipFor(page, limit);
      SummaryPage(courses, videos, search, status, skip, limit);
      assert |all| == |MatchingCourses(courses, search, status)|;
      Ok(CoursePage(Summaries(Window(all, skip, limit), videos), page, limit, |all|))
  }

  /** The course table, as the repository's three write paths change it. */
  class CourseTable {
    var rows: seq<Course>

    ghost predicate Valid()
      reads this
    {
      UniqueCourseIds(rows)
    }

    constructor ()
      ensures Valid() && rows == []
    {
      rows := [];
    }

    /**
     * `createCourse`: stores the course as the caller gives it. A
     * `created_at` or `is_deleted` the caller leaves out takes the table's
     * default: `now` and false.
     */
    method CreateCourse(
      id: CourseId, title: string, status: int, createdAt: Option<int>, isDeleted: Option<bool>,
      attrs: map<string, string>, now: int)
      returns (r: Result<Course, CourseError>)
      requires Valid()
      modifies this
      ensures Valid()
      ensures IndexOfKey(old(rows), CourseIdOf, id).Some? ==> r == Err(DuplicateCourseId) && rows == old(rows)
      ensures IndexOfKey(old(rows), CourseIdOf, id).None? ==>
                r == Ok(Course(id, title, status, OrDefault(createdAt, now), OrDefault(isDeleted, false), attrs))
                && rows == old(rows) + [r.value]
    {
      if IndexOfKey(rows, CourseIdOf, id).Some? {
        return Err(DuplicateCourseId);
      }
      var c := Course(id, title, status, OrDefault(createdAt, now), OrDefault(isDeleted, false), attrs);
      rows := rows + [c];
      r := Ok(c);
    }

    /**
     * `updateCourse`: overwrites the given columns of the course with this id
     * and of no other. The data may rename the row; a new id that another
     * course holds fails on the table's primary key and changes nothing.
     */
    method UpdateCourse(id: CourseId, patch: CoursePatch) returns (r: Result<Course, CourseError>)
      requires Valid()
      modifies this
      ensures Valid()
      ensures IndexOfKey(old(rows), CourseIdOf, id).None? ==> r == Err(CourseNotFound) && rows == old(rows)
      ensures IndexOfKey(old(rows), CourseIdOf, id).Some? ==>
                var k := IndexOfKey(old(rows), CourseIdOf, id).value;
                var c := ApplyCoursePatch(old(rows)[k], patch);
                && (CourseIdTakenByOther(old(rows), k, c.id) ==> r == Err(DuplicateCourseId) && rows == old(rows))
                && (!CourseIdTakenByOther(old(rows), k, c.id) ==> r == Ok(c) && rows == old(rows)[k := c])
    {
      var found := IndexOfKey(rows, CourseIdOf, id);
      if found.None? {
        return Err(CourseNotFound);
      }
      var k := found.value;
      var c := ApplyCoursePatch(rows[k], patch);
      if CourseIdTakenByOther(rows, k, c.id) {
        return Err(DuplicateCourseId);
      }
      rows := rows[k := c];
      r := Ok(c);
    }

    /**
     * `deleteCourse`: sets `is_deleted` on the course with this id and
     * changes nothing else; the course's videos (another table) are untouched.
     */
    method DeleteCourse(id: CourseId) returns (r: Result<Course, CourseError>)
      requires Valid()
      modifies this
      ensures Valid()
      ensures IndexOfKey(old(rows), CourseIdOf, id).None? ==> r == Err(CourseNotFound) && rows == old(rows)
      ensures IndexOfKey(old(rows), CourseIdOf, id).Some? ==>
                var k := IndexOfKey(old(rows), CourseIdOf, id).value;
                r == Ok(old(rows)[k].(isDeleted := true)) && rows == old(rows)[k := r.value]
    {
      var found := IndexOfKey(rows, CourseIdOf, id);
      if found.None? {
        return Err(CourseNotFound);
      }
      var c := rows[found.value].(isDeleted := true);
      rows := rows[found.value := c];
      r := Ok(c);
    }
  }
}
