# E-learning back end: data layer, audit interceptor and server helpers

This project is a Dafny model of the data-access core of an e-learning REST
back end (Express on Node.js, with Prisma as the database client). It covers:

- **Videos** (`VideoStore`, `VideoOrdering`). Each course has a list of
  videos, and each video has a playback position in the integer column
  `order`. Deleting a video only sets `is_deleted`. A new video goes after the
  course's last live video. Reordering moves one video to a new position and
  shifts every sibling between the old and the new position by one slot.
  `VideoOrdering` proves what this does to a course's positions:
  - they stay a permutation of 0..N-1 when the target stays in range;
  - a gap appears when the target is sent past the end;
  - moving a video to its own position changes nothing;
  - creation extends 0..N-1 to 0..N.
- **Courses** (`CourseStore`): create, update, soft delete, lookup with the
  course's live videos in playback order, and the paged catalogue filtered by
  title and status, newest first.
- **Majors and faculties** (`MajorStore`, `FacultyStore`): paged search by
  name or code, highest id first, with a total page count. Create, update and
  delete each sit behind a fixed sequence of checks: duplicate code, missing
  department, remaining students/lecturers/classes. The table's own unique
  constraint on `code` also applies.
- **The current user** (`CurrentUser`): the caller's id, read from an
  `Authorization: Bearer <token>` header.
- **The audit interceptor** (`AuditInterceptor`): the store middleware that
  stamps ids, creation and update times and the acting user. It also turns
  deletions by a known user into soft-delete data.
- **Server helpers** (`ServerHelpers`): the ANSI colouring of the request
  log's method and status columns, and the mapping from a store error code to
  an HTTP status.

Stores are classes holding their rows as a sequence. Each write path is a
method whose contract states the new rows in terms of the old ones, including
the result of every error case. Reads are functions over the rows whose
contracts characterise their results: membership, order, page bounds and
totals. Paging follows the repositories: `skip = (page - 1) * limit` and
`take = limit`. A negative skip is an error, as the store makes it; a negative
take is an error too, which simplifies the store (see "Left out").

Nothing external is modelled. The clock, the ISO formatting of an instant,
the UUID generator, JWT verification and the database's id assignment are
all explicit parameters or state.

## Model

| member | source | states |
|---|---|---|
| Query.IndexOfKey | repositories/video.repository.js:136-143 | the lookup by primary key: the first row with that key, or none exactly when no row has it |
| Query.ContainsAt | repositories/course.repository.js:82 | the `contains` filter holds exactly when the search text occurs at some position of the column |
| Query.EmptySearchMatchesAll | repositories/course.repository.js:77 | the default empty search matches every row |
| Query.SortBy | repositories/video.repository.js:120 | the listing is a permutation of its input, ascending by the sort key |
| Query.Window | repositories/video.repository.js:118-119 | a page holds min(take, max(0, n - skip)) rows, the ones starting at position `skip`, in order |
| Query.WindowKeepsOrder | repositories/major.repository.js:28-32 | a page of a sorted listing is still sorted and holds only listed rows |
| Query.SortedPage | repositories/major.repository.js:28-32 | a page of a listing sorted by a key has min(take, max(0, n - skip)) entries, all from the input, in key order; entry i is the listing's entry skip + i |
| Query.TimesIsProduct | repositories/video.repository.js:94 | repeated addition computes the product |
| Query.SkipForIsProduct | repositories/video.repository.js:94 | the skip of every paged query is exactly `(page - 1) * limit` |
| Query.FirstPageAccepted | repositories/video.repository.js:93-94 | the default first page is accepted for any non-negative limit and starts at the top of the listing |
| Query.TotalPages | repositories/major.repository.js:39 | `Math.ceil(total / limit)`: the least page count whose pages cover all items |
| VideoStore.Find | repositories/video.repository.js:136-143 | the lookup of `reorderVideo` finds the row with that id, deleted or not, and fails only when no row has it |
| VideoStore.GetVideoById | repositories/video.repository.js:69-90 | returns a live row with that id, or nothing exactly when every row with that id is deleted |
| VideoStore.LiveOfCourse | repositories/video.repository.js:96-99 | exactly the rows of the course that are not soft-deleted, each as often as the table holds it, so `total` counts every live video once |
| VideoStore.ByOrder | repositories/video.repository.js:102-121 | the course's live videos, a permutation of them (so as many), ascending by `order` |
| VideoStore.MaxLiveOrder | repositories/video.repository.js:6-17 | the largest `order` among the course's live videos, present exactly when there is one |
| VideoStore.NextOrder | repositories/video.repository.js:22 | above every live position of the course; 0 for a course with no live video, else one past the highest |
| VideoStore.VideoPageShows | repositories/video.repository.js:101-121 | a page of the playback-order listing holds only the course's live videos, still ascending by `order` |
| VideoStore.GetVideosByCourseId | repositories/video.repository.js:92-133 | one page of the course's live videos in playback order: entry i is the listing's entry skip + i. With it, the total count. A negative skip or take is refused |
| VideoStore.ShiftSiblings | repositories/video.repository.js:146-176 | the band shift keeps the number of rows; its effect on each row is stated by VideoOrdering.RowAfterReorder and VideoOrdering.ReorderShiftsExactlyTheBand |
| VideoStore.Reorder | repositories/video.repository.js:135-183 | the table after `reorderVideo`: same rows in the same places, only positions change. The target gets `newOrder`; rows of other courses keep theirs; an unknown id changes nothing |
| VideoStore.ApplyPatch | repositories/video.repository.js:41-60 | each column the update data gives is overwritten, the id included; every column it leaves out is kept |
| VideoStore.VideoTable.CreateVideo | repositories/video.repository.js:4-39 | appends one video at `NextOrder`, with the caller's `is_deleted` (false when left out); a taken id leaves the table unchanged |
| VideoStore.VideoTable.UpdateVideo | repositories/video.repository.js:41-60 | an unknown id is not found; a new id that another row holds is refused by the primary key, table unchanged; otherwise only that row becomes its patched self |
| VideoStore.VideoTable.DeleteVideo | repositories/video.repository.js:62-67 | sets only `is_deleted` of that row; an unknown id is not found |
| VideoStore.VideoTable.ReorderVideo | repositories/video.repository.js:135-183 | unknown id: not found, table unchanged; otherwise the table becomes `Reorder` of the old one and the target is returned at `newOrder` |
| VideoOrdering.ReorderShiftsExactlyTheBand | repositories/video.repository.js:145-182 | only `order` changes. Moving up, same-course videos in (old, new] move down one; moving down, those in [new, old) move up one. Other courses are untouched and the target ends at `newOrder` |
| VideoOrdering.RowAfterReorder | repositories/video.repository.js:145-182 | each row after the reorder: the target takes `newOrder`; other rows of its course get the band shift; other courses keep their rows |
| VideoOrdering.ReorderKeepsDensity | repositories/video.repository.js:135-183 | if a course's positions are 0..N-1 and 0 <= newOrder < N, they are still 0..N-1 after the reorder |
| VideoOrdering.ReorderPastEndLeavesGap | repositories/video.repository.js:146-182 | with newOrder >= N, the positions stay distinct, but N-1 is left empty, so they are no longer 0..N-1 |
| VideoOrdering.ReorderToSamePositionIsNoOp | repositories/video.repository.js:161-182 | moving a video to its own position leaves the table unchanged |
| VideoOrdering.NextOrderOfDense | repositories/video.repository.js:5-22 | when a course's live positions are 0..N-1, a new video gets position N |
| VideoOrdering.CreateKeepsDensity | repositories/video.repository.js:5-22 | if the live positions are 0..N-1, the new video gets N and they become 0..N |
| VideoOrdering.ReorderEarlierScenario | repositories/video.repository.js:135-183 | with a,b,c,d at 0..3, moving d to 1 gives a,d,b,c |
| VideoOrdering.ReorderLaterScenario | repositories/video.repository.js:135-183 | with a,b,c,d at 0..3, moving a to 3 gives b,c,d,a |
| CourseStore.GetCourseById | repositories/course.repository.js:50-74 | a live course with that id, or nothing exactly when every such course is deleted; with it, all of its live videos (and only those) ascending by `order` |
| CourseStore.MatchingCourses | repositories/course.repository.js:80-84 | exactly the live courses whose title contains the search text, with the given status when one is given, each as often as the table holds it, so `total` counts every match once |
| CourseStore.ByNewest | repositories/course.repository.js:108 | exactly the matching courses, a permutation of them, newest `created_at` first |
| CourseStore.LiveVideoIds | repositories/course.repository.js:101-104 | one id per live video of the course, in table order: entry i is the id of the course's i-th live row |
| CourseStore.CoursePageShows | repositories/course.repository.js:106-108 | a page of the newest-first listing holds only matching courses, newest first |
| CourseStore.SummaryPage | repositories/course.repository.js:86-109 | a page of the newest-first listing has min(take, max(0, N - skip)) entries. Each one matches and carries its live video ids. They are newest first and are the listing's entries from position `skip` on |
| CourseStore.GetAllCourses | repositories/course.repository.js:76-121 | a negative skip or take is refused. Otherwise entry i of the page is entry skip + i of the newest-first listing; every entry matches and carries its live video ids; they are newest first; the size is min(limit, max(0, total - skip)); total is the number of matches |
| CourseStore.ApplyCoursePatch | repositories/course.repository.js:23-41 | each column the update data gives is overwritten, the id and `created_at` included; every column it leaves out is kept |
| CourseStore.CourseTable.CreateCourse | repositories/course.repository.js:4-21 | appends the course as given; `created_at` and `is_deleted` take the caller's values, else `now` and false; a taken id leaves the table unchanged |
| CourseStore.CourseTable.UpdateCourse | repositories/course.repository.js:23-41 | an unknown id is not found; a new id that another course holds is refused by the primary key, table unchanged; otherwise only that course becomes its patched self |
| CourseStore.CourseTable.DeleteCourse | repositories/course.repository.js:43-48 | sets only `is_deleted` of that course; an unknown id is not found |
| MajorStore.ApplyMajorPatch | repositories/major.repository.js:195-202 | writes each given name, code and description and keeps each one not given; writes the department only when a truthy one is given; keeps id and dependants |
| MajorStore.MatchingMajors | repositories/major.repository.js:8-14 | exactly the majors whose name or code contains the search text, in the department when a filter names one, each as often as the table holds it, so `totalItems` counts every match once |
| MajorStore.ByHighestId | repositories/major.repository.js:28-32 | exactly the matching majors, a permutation of them, highest id first |
| MajorStore.MajorPageShows | repositories/major.repository.js:28-32 | a page of that listing holds only matching majors, highest id first |
| MajorStore.GetAll | repositories/major.repository.js:4-53 | every given department filters, `0` included; entry i of the page is entry skip + i of the highest-id-first listing of the matches; size min(limit, max(0, total - skip)); totalItems and totalPages = ceil(total / limit) (none for limit 0); a negative skip or take is refused |
| MajorStore.GetByDepartment | repositories/major.repository.js:80-90 | the `getAll` query for that department, which it always filters on; every major it shows belongs to that department |
| MajorStore.GetById | repositories/major.repository.js:55-78 | the major with that id, or nothing exactly when no major has it |
| MajorStore.MajorTable.Create | repositories/major.repository.js:130-163 | checks in order: code already used, then department missing, each leaving the table unchanged. Otherwise appends exactly name, code, description and department with no dependants, under the next counter id |
| MajorStore.MajorTable.Update | repositories/major.repository.js:165-210 | checks in order: not found, changed code already used, given department missing, the store's unique code. Otherwise only that major becomes the patched row |
| MajorStore.MajorTable.Delete | repositories/major.repository.js:212-237 | not found; then a major with students or classes is refused; otherwise exactly that major is removed |
| FacultyStore.ApplyFacultyPatch | repositories/faculty.repository.js:125-131 | writes each given name and code and keeps each one not given; keeps id and dependants |
| FacultyStore.MatchingFaculties | repositories/faculty.repository.js:10-12 | exactly the faculties whose name or code contains the search text, each as often as the table holds it, so `total` counts every match once |
| FacultyStore.FacultiesByHighestId | repositories/faculty.repository.js:22-26 | exactly the matching faculties, a permutation of them, highest id first |
| FacultyStore.FacultyPageShows | repositories/faculty.repository.js:22-26 | a page of that listing holds only matching faculties, highest id first |
| FacultyStore.GetAll | repositories/faculty.repository.js:4-49 | entry i of the page is entry skip + i of the highest-id-first listing of the matches; size min(pageSize, max(0, total - skip)); totalItems and totalPages (none for page size 0); a negative skip or take is refused |
| FacultyStore.GetById | repositories/faculty.repository.js:51-79 | the faculty with that id, or nothing exactly when no faculty has it |
| FacultyStore.FacultyTable.Create | repositories/faculty.repository.js:81-103 | same code and name: already exists. Same code only: the store's unique constraint. Otherwise appends exactly name and code, under the next counter id |
| FacultyStore.FacultyTable.Update | repositories/faculty.repository.js:105-135 | checks in order: not found, changed code already used, the store's unique code. Otherwise only that faculty becomes the patched row |
| FacultyStore.FacultyTable.Delete | repositories/faculty.repository.js:137-163 | not found; then a faculty with students, lecturers or classes is refused; otherwise exactly that faculty is removed |
| CurrentUser.Split | services/getCurrentUser.js:8 | `split(' ')` gives at least one piece, no piece contains a space, there are two or more exactly when the text has a space, and the first piece runs up to the first space |
| CurrentUser.Token | services/getCurrentUser.js:8 | `split(' ')[1]`: none exactly when the header has no space; otherwise the space-free text right after the first space, up to the next space or the end |
| CurrentUser.JoinSplit | services/getCurrentUser.js:8 | joining the pieces with spaces gives back the header |
| CurrentUser.SplitJoin | services/getCurrentUser.js:8 | splitting space-free pieces joined by spaces gives back the pieces |
| CurrentUser.BearerToken | services/getCurrentUser.js:8 | "Bearer t" yields the token t |
| CurrentUser.BearerWithoutSpace | services/getCurrentUser.js:4-8 | "Bearerabc" passes the prefix test and then has no token |
| CurrentUser.GetCurrentUser | services/getCurrentUser.js:3-12 | no-token error exactly when the header is missing or lacks the "Bearer" prefix; otherwise the verifier's id on success and its failure otherwise |
| AuditInterceptor.ActorValue | middleware/prisma.intercepter.js:34 | `userId \|\| null`: the id when truthy, else null |
| AuditInterceptor.StampCreated | middleware/prisma.intercepter.js:29-41 | the data's own fields plus exactly the eight audit columns: new id, creation time, creator, the rest null and `is_deleted` false |
| AuditInterceptor.StampCreatedAll | middleware/prisma.intercepter.js:43-57 | each item of a list stamped like a single creation, item i with the i-th generated id |
| AuditInterceptor.CreateManyIdsDistinct | middleware/prisma.intercepter.js:45-47 | with a generator that never repeats, the items of a bulk creation get pairwise different ids |
| AuditInterceptor.SoftDeleteData | middleware/prisma.intercepter.js:71-75 | the data of a soft delete: exactly `is_deleted` true, `deleted_by` the actor and `deleted_at` the time |
| AuditInterceptor.StampUpdated | middleware/prisma.intercepter.js:59-67 | falsy data becomes exactly {updated_by, updated_at}; a record gets those two set and keeps its other fields; any other truthy value makes the assignment fail |
| AuditInterceptor.Intercept | middleware/prisma.intercepter.js:9-83 | model, action and the other arguments never change. No args or another action: unchanged. Creation and bulk creation are always stamped. Updates and deletes are stamped only with a known user. A delete's data becomes the soft-delete triple |
| AuditInterceptor.ResolveActor | middleware/prisma.intercepter.js:17-27 | no request: no user; a `getCurrentUser` failure is swallowed into no user; otherwise its id |
| ServerHelpers.Colorize | index.js:52-77 | the text sits between the colour switch `ESC[<code>m` and the reset `ESC[0m` |
| ServerHelpers.Uncolor | index.js:53-78 | a string read as coloured is exactly a two-digit colour code and a text, wrapped in the escape sequences |
| ServerHelpers.UncolorColorize | index.js:53-78 | colouring with a two-digit code can always be read back into code and text |
| ServerHelpers.MethodColor | index.js:53-66 | exactly GET, POST, PUT and DELETE are coloured: GET green (32), POST blue (34), PUT yellow (33), DELETE red (31) |
| ServerHelpers.ColorizeMethod | index.js:53-66 | a coloured method reads back as its colour and itself; any other method is printed as it is |
| ServerHelpers.MethodColorsDistinct | index.js:53-66 | the four coloured methods have four different colours |
| ServerHelpers.DecimalString | index.js:73-76 | a status prints as decimal digits without a leading zero |
| ServerHelpers.ParseDecimalString | index.js:73-76 | the printed status reads back as the same number |
| ServerHelpers.DecimalStringInjective | index.js:73-76 | two different statuses never print alike |
| ServerHelpers.StatusColor | index.js:72-78 | 5xx red, 4xx yellow, 3xx cyan, 2xx green, no colour below 200 |
| ServerHelpers.ColorizeStatus | index.js:72-78 | below 200 the bare number; from 200 on, a cell that reads back as its band's colour and `String(status)`, which parses back to the status |
| ServerHelpers.HandleError | index.js:168-197 | 409 exactly for P2002, 404 exactly for P2025, 500 for any other code or none; message by status; error text only in development |

## Left out

- HTTP routing, controllers, request validation, Socket.IO, Swagger, rate limiting and the morgan log streams are not modelled. Only the pure helpers of index.js are.
- ISO formatting of an instant, UUID generation, JWT verification and the request-context store are not modelled. They are parameters.
- `include` and `select` of related rows are not modelled (course creator, department, students, lecturers, classes). Dependants appear only as counts, where delete checks them.
- The interceptor is not composed with the major and faculty repositories, which write through it. So the model of those tables does not show that a created major or faculty gets a generated UUID id and the audit columns (creation time, creator, null update and delete fields, `is_deleted` false); its ids come from a counter instead. Nor does it show that a delete by a known user also carries the soft-delete `data`. The video and course repositories use a client of their own, so the interceptor never applies to them.
- A soft-delete rewrite keeps the action `delete` and only replaces `data`. What the store then does with such a call is not modelled.
- AuditInterceptor.Spread: spreading a string or an array into a record is treated as adding no fields. JavaScript would copy their indices.
- AuditInterceptor.StampUpdated: update data that is an array is treated as leaving the call unchanged. JavaScript would set the two properties on the array object.
- VideoStore.VideoTable.ReorderVideo: a non-integer `newOrder` is not modelled. `newOrder >= 0` is the controller's guard.
- Transactions and concurrency are not modelled. The steps of `reorderVideo` run one after another with no interleaving.
- Integer widths of the database columns are not modelled; positions and ids are unbounded integers.
- `parseInt` of query strings is not modelled: page, limit, status and the department filter arrive as integers.
- MajorStore.GetAll: a department given in the query string is text, so any given value filters, `"0"` included; the model's `Some(0)` filters too, and an absent or empty value is `None`.
- VideoStore.GetVideosByCourseId, CourseStore.GetAllCourses, MajorStore.GetAll, MajorStore.GetByDepartment and FacultyStore.GetAll: the default query arguments are not modelled; every argument is passed explicitly. A caller who leaves them out gets the same result as one passing page 1 and limit 10 (`page_number` and `page_size` for faculties) and, except for videos, search `''`. Query.FirstPageAccepted states that this default page is accepted and starts at the top of the listing.
- The caller's data is spread into the created row. The model lets the caller set `is_deleted` (videos and courses) and `created_at` (courses); the other columns are the opaque `attrs` map. The table's defaults are false and the creation time `now`, a parameter.
- VideoStore.GetVideosByCourseId, CourseStore.GetAllCourses, MajorStore.GetAll (and so MajorStore.GetByDepartment) and FacultyStore.GetAll: a negative take is refused with `InvalidPaging`, a deliberate simplification. The store would instead read it as counting back from the end of the listing. A negative skip is refused by the store itself. A fractional page or limit is not modelled.
- Query.SortBy: rows with equal sort keys are kept in table order. The database does not promise any order for them, so the exact entries of a page are pinned only up to that choice. The size, membership and key order of a page do not depend on it.
- Query.Contains: the `contains` filter compares characters exactly. Whether the database ignores case depends on its collation, which is not modelled.
- repositories/user.repository.js and the authentication controller are not part of this model.
- The Vietnamese message texts are not reproduced. Each error case is a named constructor, and the message of an error response is named by its meaning.
