/**
 * The faculty table (repositories/faculty.repository.js): paged search and
 * guarded create/update/delete. `code` is a unique column of the table. The
 * repository writes through the audit-stamping client of the
 * AuditInterceptor module; this module states the repository's own logic,
 * with ids drawn from a counter (`nextId`) instead of the interceptor's
 * generated ids, and without the audit columns.
 */
module FacultyStore {
  import opened Wrappers
  import opened Query

  /** One faculty, with the numbers of student, lecturer and class records that refer to it. */
  datatype Faculty = Faculty(id: int, name: string, code: string, students: nat, lecturers: nat, classes: nat)

  /** The fields `update` reads from its input; `None` is an absent field. */
  datatype FacultyPatch = FacultyPatch(name: Option<string>, code: Option<string>)

  datatype FacultyError =
    | FacultyNotFound   // "Không tìm thấy khoa"
    | AlreadyExists     // "Khoa đã tồn tại"
    | DuplicateCode     // "Mã khoa đã tồn tại"
    | HasDependents     // "Không thể xóa khoa đang có sinh viên, giảng viên hoặc lớp học"
    | UniqueConflict    // the store's own unique-constraint failure on `code`
    | InvalidPaging     // a negative skip (refused by the store) or take (refused by this model)

  predicate FacultyCodeTaken(faculties: seq<Faculty>, code: string) {
    exists f :: f in faculties && f.code == code
  }

  /** The `findFirst` of `create`: a faculty with both this code and this name. */
  predicate SameCodeAndName(faculties: seq<Faculty>, name: string, code: string) {
    exists f :: f in faculties && f.code == code && f.name == name
  }

  /** The primary key of a row. */
  function FacultyIdOf(f: Faculty): int { f.id }

  /** A supplied code that the duplicate check of `update` looks at: truthy and different from the current one. */
  predicate FacultyCodeChanges(p: FacultyPatch, current: string) {
    p.code.Some? && p.code.value != "" && p.code.value != current
  }

  /** The row `update` writes: the given name and code; the dependants are kept. */
  function ApplyFacultyPatch(f: Faculty, p: FacultyPatch): (r: Faculty)
    ensures r.id == f.id && r.students == f.students && r.lecturers == f.lecturers && r.classes == f.classes
    ensures p.name.Some? ==> r.name == p.name.value
    ensures p.name.None? ==> r.name == f.name
    ensures p.code.Some? ==> r.code == p.code.value
    ensures p.code.None? ==> r.code == f.code
  {
    f.(name := match p.name case Some(n) => n case None => f.name,
       code := match p.code case Some(c) => c case None => f.code)
  }

  /** The search filter of `getAll`, used for the page and for `total` alike. */
  predicate MatchesFaculty(f: Faculty, search: string) {
    Contains(f.name, search) || Contains(f.code, search)
  }

  function MatchingFaculties(faculties: seq<Faculty>, search: string): (r: seq<Faculty>)
    ensures |r| <= |faculties|
    ensures forall f :: f in r <==> f in faculties && MatchesFaculty(f, search)
    ensures forall f {:trigger multiset(r)[f]} :: multiset(r)[f] == if MatchesFaculty(f, search) then multiset(faculties)[f] else 0
  {
    if faculties == [] then []
    else
      assert faculties == [faculties[0]] + faculties[1..];
      (if MatchesFaculty(faculties[0], search) then [faculties[0]] else []) + MatchingFaculties(faculties[1..], search)
  }

  /** Sorting key for `orderBy: { id: 'desc' }`. */
  function FacultyHighestIdFirst(f: Faculty): int { -f.id }

  /** The matching faculties, highest id first (`orderBy: { id: 'desc' }`). */
  function FacultiesByHighestId(faculties: seq<Faculty>, search: string): (r: seq<Faculty>)
    ensures multiset(r) == multiset(MatchingFaculties(faculties, search))
    ensures |r| == |MatchingFaculties(faculties, search)|
    ensures forall f :: f in r <==> f in faculties && MatchesFaculty(f, search)
    ensures forall i, j :: 0 <= i < j < |r| ==> r[i].id >= r[j].id
  {
    var matching := MatchingFaculties(faculties, search);
    var s := SortBy(matching, FacultyHighestIdFirst);
    SortByMembers(matching, FacultyHighestIdFirst);
    assert forall i, j :: 0 <= i < j < |s| ==> FacultyHighestIdFirst(s[i]) <= FacultyHighestIdFirst(s[j]);
    s
  }

  /** The faculties a page shows: the listing's entries from position `skip` on, at most `take` of them. */
  lemma FacultyPageShows(faculties: seq<Faculty>, search: string, skip: nat, take: nat)
    ensures var all := FacultiesByHighestId(faculties, search);
            var p := Window(all, skip, take);
            && (forall f :: f in p ==> f in faculties && MatchesFaculty(f, search))
            && (forall i, j :: 0 <= i < j < |p| ==> p[i].id >= p[j].id)
  {
    var all := FacultiesByHighestId(faculties, search);
    var p := Window(all, skip, take);
    forall f | f in p ensures f in all {
      var k :| 0 <= k < |p| && p[k] == f;
      assert all[skip + k] == f;
    }
    forall i, j | 0 <= i < j < |p| ensures p[i].id >= p[j].id {
      assert p[i] == all[skip + i] && p[j] == all[skip + j];
    }
  }

  /**
   * A page of faculties with its pagination block. `totalPages` is `None`
   * when `pageSize` is 0, where `Math.ceil(total / page_size)` is not a number.
   */
  datatype FacultyPage = FacultyPage(
    faculties: seq<Faculty>,
    pageNumber: int,
    pageSize: int,
    totalItems: nat,
    totalPages: Option<nat>)

  /** `getAll`: the faculties whose name or code contains `search`, highest id first, one page of them. */
  function GetAll(faculties: seq<Faculty>, pageNumber: int, pageSize: int, search: string)
    : (r: Result<FacultyPage, FacultyError>)
    ensures r.Err? <==> !PagingAccepted(pageNumber, pageSize)
    ensures r.Err? ==> r.error == FacultyError.InvalidPaging
    ensures r.Ok? ==> r.value.pageNumber == pageNumber && r.value.pageSize == pageSize
    ensures r.Ok? ==> r.value.totalItems == |MatchingFaculties(faculties, search)|
    ensures r.Ok? ==> |r.value.faculties| == Min(pageSize, Max(0, r.value.totalItems - SkipFor(pageNumber, pageSize)))
    ensures r.Ok? ==> forall f :: f in r.value.faculties ==> f in faculties && MatchesFaculty(f, search)
    ensures r.Ok? ==> forall i, j :: 0 <= i < j < |r.value.faculties| ==> r.value.faculties[i].id >= r.value.faculties[j].id
    ensures r.Ok? ==> forall i :: 0 <= i < |r.value.faculties| ==>
              && 0 <= SkipFor(pageNumber, pageSize) + i < |FacultiesByHighestId(faculties, search)|
              && r.value.faculties[i] == FacultiesByHighestId(faculties, search)[SkipFor(pageNumber, pageSize) + i]
    ensures r.Ok? && pageSize == 0 ==> r.value.totalPages.None?
    ensures r.Ok? && pageSize > 0 ==> r.value.totalPages == Some(TotalPages(r.value.totalItems, pageSize))
  {
    if !PagingAccepted(pageNumber, pageSize) then Err(FacultyError.InvalidPaging)
    else
      var matching := MatchingFaculties(faculties, search);
      var skip := SkipFor(pageNumber, pageSize);
      var shown := Window(FacultiesByHighestId(faculties, search), skip, pageSize);
      FacultyPageShows(faculties, search, skip, pageSize);
      var pages := if pageSize > 0 then Some(TotalPages(|matching|, pageSize)) else None;
      Ok(FacultyPage(shown, pageNumber, pageSize, |matching|, pages))
  }

  /** `getById`: the faculty with that id, if any (faculties are removed outright, so there is no deletion filter). */
  function GetById(faculties: seq<Faculty>, id: int): (r: Option<Faculty>)
    ensures r.Some? ==> r.value in faculties && r.value.id == id
    ensures r.None? <==> forall f :: f in faculties ==> f.id != id
  {
    match IndexOfKey(faculties, FacultyIdOf, id)
    case Some(i) => Some(faculties[i])
    case None => None
  }

  /** Removing one faculty keeps the ids and the codes of the others pairwise distinct. */
  lemma RemoveKeepsFacultiesDistinct(faculties: seq<Faculty>, k: nat)
    requires k < |faculties|
    requires forall i, j :: 0 <= i < j < |faculties| ==> faculties[i].id != faculties[j].id
    requires forall i, j :: 0 <= i < j < |faculties| ==> faculties[i].code != faculties[j].code
    ensures var rest := RemoveAt(faculties, k);
            && (forall i, j :: 0 <= i < j < |rest| ==> rest[i].id != rest[j].id)
            && (forall i, j :: 0 <= i < j < |rest| ==> rest[i].code != rest[j].code)
  {
    var rest := RemoveAt(faculties, k);
    forall i, j | 0 <= i < j < |rest| ensures rest[i].id != rest[j].id && rest[i].code != rest[j].code {
      var a, b := if i < k then i else i + 1, if j < k then j else j + 1;
      assert rest[i] == faculties[a] && rest[j] == faculties[b] && a < b;
    }
  }

  /** The faculty table. */
  class FacultyTable {
    var faculties: seq<Faculty>
    var nextId: int

    /** Ids and codes are unique, and every id was handed out before `nextId`. */
    ghost predicate Valid()
      reads this
    {
      && (forall i, j :: 0 <= i < j < |faculties| ==> faculties[i].id != faculties[j].id)
      && (forall i, j :: 0 <= i < j < |faculties| ==> faculties[i].code != faculties[j].code)
      && (forall i :: 0 <= i < |faculties| ==> faculties[i].id < nextId)
    }

    constructor ()
      ensures Valid() && faculties == []
    {
      faculties := [];
      nextId := 1;
    }

    /**
     * `create`: refuses only a faculty with both the same code and the same
     * name; otherwise stores exactly the name and code under a new id, which
     * the store itself refuses when another faculty already has that code.
     */
    method Create(name: string, code: string) returns (r: Result<Faculty, FacultyError>)
      requires Valid()
      modifies this
      ensures Valid()
      ensures SameCodeAndName(old(faculties), name, code) ==>
                r == Err(AlreadyExists) && faculties == old(faculties) && nextId == old(nextId)
      ensures !SameCodeAndName(old(faculties), name, code) && FacultyCodeTaken(old(faculties), code) ==>
                r == Err(UniqueConflict) && faculties == old(faculties) && nextId == old(nextId)
      ensures !FacultyCodeTaken(old(faculties), code) ==>
                r == Ok(Faculty(old(nextId), name, code, 0, 0, 0)) && faculties == old(faculties) + [r.value]
                && nextId == old(nextId) + 1
    {
      if SameCodeAndName(faculties, name, code) {
        return Err(AlreadyExists);
      }
      if FacultyCodeTaken(faculties, code) {
        return Err(UniqueConflict);
      }
      var f := Faculty(nextId, name, code, 0, 0, 0);
      faculties := faculties + [f];
      nextId := nextId + 1;
      r := Ok(f);
    }

    /**
     * `update`: refuses an unknown id, then a supplied code that differs
     * from the current one and is already in use; the write itself still
     * fails on the store's unique constraint when the new code is taken.
     */
    method Update(id: int, patch: FacultyPatch) returns (r: Result<Faculty, FacultyError>)
      requires Valid()
      modifies this`faculties
      ensures Valid()
      ensures IndexOfKey(old(faculties), FacultyIdOf, id).None? ==> r == Err(FacultyNotFound) && faculties == old(faculties)
      ensures IndexOfKey(old(faculties), FacultyIdOf, id).Some? ==>
                var k := IndexOfKey(old(faculties), FacultyIdOf, id).value;
                var f := old(faculties)[k];
                var f' := ApplyFacultyPatch(f, patch);
                && (FacultyCodeChanges(patch, f.code) && FacultyCodeTaken(old(faculties), patch.code.value) ==>
                      r == Err(DuplicateCode) && faculties == old(faculties))
                && (!(FacultyCodeChanges(patch, f.code) && FacultyCodeTaken(old(faculties), patch.code.value)) ==>
                      if exists j :: 0 <= j < |old(faculties)| && j != k && old(faculties)[j].code == f'.code
                      then r == Err(UniqueConflict) && faculties == old(faculties)
                      else r == Ok(f') && faculties == old(faculties)[k := f'])
    {
      var found := IndexOfKey(faculties, FacultyIdOf, id);
      if found.None? {
        return Err(FacultyNotFound);
      }
      var k := found.value;
      var existing := faculties[k];
      if FacultyCodeChanges(patch, existing.code) && FacultyCodeTaken(faculties, patch.code.value) {
        return Err(DuplicateCode);
      }
      var f := ApplyFacultyPatch(existing, patch);
      if exists j :: 0 <= j < |faculties| && j != k && faculties[j].code == f.code {
        return Err(UniqueConflict);
      }
      faculties := faculties[k := f];
      r := Ok(f);
    }

    /**
     * `delete`: refuses an unknown id, then a faculty that still has
     * students, lecturers or classes; otherwise removes exactly that faculty.
     */
    method Delete(id: int) returns (r: Result<Faculty, FacultyError>)
      requires Valid()
      modifies this`faculties
      ensures Valid()
      ensures IndexOfKey(old(faculties), FacultyIdOf, id).None? ==> r == Err(FacultyNotFound) && faculties == old(faculties)
      ensures IndexOfKey(old(faculties), FacultyIdOf, id).Some? ==>
                var k := IndexOfKey(old(faculties), FacultyIdOf, id).value;
                var f := old(faculties)[k];
                && (f.students > 0 || f.lecturers > 0 || f.classes > 0 ==>
                      r == Err(HasDependents) && faculties == old(faculties))
                && (f.students == 0 && f.lecturers == 0 && f.classes == 0 ==>
                      r == Ok(f) && faculties == old(faculties)[..k] + old(faculties)[k + 1..])
    {
      var found := IndexOfKey(faculties, FacultyIdOf, id);
      if found.None? {
        return Err(FacultyNotFound);
      }
      var k := found.value;
      var f := faculties[k];
      if f.students > 0 || f.lecturers > 0 || f.classes > 0 {
        return Err(HasDependents);
      }
      RemoveKeepsFacultiesDistinct(faculties, k);
      faculties := RemoveAt(faculties, k);
      r := Ok(f);
    }
  }
}
