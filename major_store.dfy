/**
 * The major (degree programme) table (repositories/major.repository.js):
 * paged search, and create/update/delete each behind an ordered ladder of
 * checks. `code` is a unique column of the table. The repository writes
 * through the audit-stamping client of the AuditInterceptor module; this
 * module states the repository's own logic, with ids drawn from a counter
 * (`nextId`) instead of the interceptor's generated ids, and without the
 * audit columns.
 *
 * In `update`, optional inputs of the request body follow JavaScript
 * truthiness: a code given as `Some("")` skips the duplicate check, and a
 * department given as `Some(0)` is neither checked nor written. The
 * department filter of `getAll` comes from the query string instead, where
 * any given value, `"0"` included, is truthy.
 */
module MajorStore {
  import opened Wrappers
  import opened Query

  /**
   * One major. `students` and `classes` are the numbers of student and
   * class records that refer to it (rows of other tables).
   */
  datatype Major = Major(
    id: int,
    name: string,
    code: string,
    description: string,
    departmentId: int,
    students: nat,
    classes: nat)

  /** The fields `create` reads from its input. */
  datatype MajorInput = MajorInput(name: string, code: string, description: string, departmentId: int)

  /** The fields `update` reads from its input; `None` is an absent field. */
  datatype MajorPatch = MajorPatch(
    name: Option<string>,
    code: Option<string>,
    description: Option<string>,
    departmentId: Option<int>)

  datatype MajorError =
    | MajorNotFound       // "Không tìm thấy ngành"
    | DuplicateCode       // "Mã ngành đã tồn tại"
    | DepartmentNotFound  // "Không tìm thấy khoa"
    | HasDependents       // "Không thể xóa ngành đang có sinh viên hoặc lớp học"
    | UniqueConflict      // the store's own unique-constraint failure on `code`
    | InvalidPaging       // a negative skip (refused by the store) or take (refused by this model)

  predicate CodeTaken(majors: seq<Major>, code: string) {
    exists m :: m in majors && m.code == code
  }

  /** The primary key of a row. */
  function MajorIdOf(m: Major): int { m.id }

  /** A supplied code that the duplicate check of `update` looks at: truthy and different from the current one. */
  predicate CodeChanges(p: MajorPatch, current: string) {
    p.code.Some? && p.code.value != "" && p.code.value != current
  }

  /** A supplied (truthy) department. */
  predicate DepartmentGiven(p: MajorPatch) {
    p.departmentId.Some? && p.departmentId.value != 0
  }

  /** The row `update` writes: the given name, code and description, and the department only when one is given. */
  function ApplyMajorPatch(m: Major, p: MajorPatch): (r: Major)
    ensures r.id == m.id && r.students == m.students && r.classes == m.classes
    ensures !DepartmentGiven(p) ==> r.departmentId == m.departmentId
    ensures DepartmentGiven(p) ==> r.departmentId == p.departmentId.value
    ensures p.name.Some? ==> r.name == p.name.value
    ensures p.name.None? ==> r.name == m.name
    ensures p.code.Some? ==> r.code == p.code.value
    ensures p.code.None? ==> r.code == m.code
    ensures p.description.Some? ==> r.description == p.description.value
    ensures p.description.None? ==> r.description == m.description
  {
    Major(
      m.id,
      match p.name case Some(n) => n case None => m.name,
      match p.code case Some(c) => c case None => m.code,
      match p.description case Some(d) => d case None => m.description,
      if DepartmentGiven(p) then p.departmentId.value else m.departmentId,
      m.students,
      m.classes)
  }

  /** The search filter: name or code contains `search`, in the given department when one is given. */
  predicate MatchesMajor(m: Major, search: string, departmentId: Option<int>) {
    (Contains(m.name, search) || Contains(m.code, search))
    && (departmentId.None? || m.departmentId == departmentId.value)
  }

  function MatchingMajors(majors: seq<Major>, search: string, departmentId: Option<int>): (r: seq<Major>)
    ensures |r| <= |majors|
    ensures forall m :: m in r <==> m in majors && MatchesMajor(m, search, departmentId)
    ensures forall m {:trigger multiset(r)[m]} :: multiset(r)[m] == if MatchesMajor(m, search, departmentId) then multiset(majors)[m] else 0
  {
    if majors == [] then []
    else
      assert majors == [majors[0]] + majors[1..];
      (if MatchesMajor(majors[0], search, departmentId) then [majors[0]] else [])
         + MatchingMajors(majors[1..], search, departmentId)
  }

  /** Sorting key for `orderBy: { id: 'desc' }`. */
  function HighestIdFirst(m: Major): int { -m.id }

  /** The matching majors, highest id first (`orderBy: { id: 'desc' }`). */
  function ByHighestId(majors: seq<Major>, search: string, departmentId: Option<int>): (r: seq<Major>)
    ensures multiset(r) == multiset(MatchingMajors(majors, search, departmentId))
    ensures |r| == |MatchingMajors(majors, search, departmentId)|
    ensures forall m :: m in r <==> m in majors && MatchesMajor(m, search, departmentId)
    ensures forall i, j :: 0 <= i < j < |r| ==> r[i].id >= r[j].id
  {
    var matching := MatchingMajors(majors, search, departmentId);
    var s := SortBy(matching, HighestIdFirst);
    SortByMembers(matching, HighestIdFirst);
    assert forall i, j :: 0 <= i < j < |s| ==> HighestIdFirst(s[i]) <= HighestIdFirst(s[j]);
    s
  }

  /** The majors a page shows: the listing's entries from position `skip` on, at most `take` of them. */
  lemma MajorPageShows(majors: seq<Major>, search: string, departmentId: Option<int>, skip: nat, take: nat)
    ensures var all := ByHighestId(majors, search, departmentId);
            var p := Window(all, skip, take);
            && (forall m :: m in p ==> m in majors && MatchesMajor(m, search, departmentId))
            && (forall i, j :: 0 <= i < j < |p| ==> p[i].id >= p[j].id)
  {
    var all := ByHighestId(majors, search, departmentId);
    var p := Window(all, skip, take);
    forall m | m in p ensures m in all {
      var k :| 0 <= k < |p| && p[k] == m;
      assert all[skip + k] == m;
    }
    forall i, j | 0 <= i < j < |p| ensures p[i].id >= p[j].id {
      assert p[i] == all[skip + i] && p[j] == all[skip + j];
    }
  }

  /**
   * A page of majors with its pagination block. `totalPages` is `None` when
   * `limit` is 0, where `Math.ceil(total / limit)` is not a number.
   */
  datatype MajorPage = MajorPage(majors: seq<Major>, page: int, limit: int, totalItems: nat, totalPages: Option<nat>)

  /**
   * `getAll`: the majors whose name or code contains `search` (in department
   * `departmentId` when one is given), highest id first, one page of them.
   * A department that arrives in the query string is text, so every given
   * department filters, `"0"` included; only an absent one does not.
   */
  function GetAll(majors: seq<Major>, page: int, limit: int, search: string, departmentId: Option<int>)
    : (r: Result<MajorPage, MajorError>)
    ensures r.Err? <==> !PagingAccepted(page, limit)
    ensures r.Err? ==> r.error == MajorError.InvalidPaging
    ensures r.Ok? ==> r.value.page == page && r.value.limit == limit
    ensures r.Ok? ==> r.value.totalItems == |MatchingMajors(majors, search, departmentId)|
    ensures r.Ok? ==> |r.value.majors| == Min(limit, Max(0, r.value.totalItems - SkipFor(page, limit)))
    ensures r.Ok? ==> forall m :: m in r.value.majors ==> m in majors && MatchesMajor(m, search, departmentId)
    ensures r.Ok? ==> forall i, j :: 0 <= i < j < |r.value.majors| ==> r.value.majors[i].id >= r.value.majors[j].id
    ensures r.Ok? ==> forall i :: 0 <= i < |r.value.majors| ==>
              && 0 <= SkipFor(page, limit) + i < |ByHighestId(majors, search, departmentId)|
              && r.value.majors[i] == ByHighestId(majors, search, departmentId)[SkipFor(page, limit) + i]
    ensures r.Ok? && limit == 0 ==> r.value.totalPages.None?
    ensures r.Ok? && limit > 0 ==> r.value.totalPages == Some(TotalPages(r.value.totalItems, limit))
  {
    if !PagingAccepted(page, limit) then Err(MajorError.InvalidPaging)
    else
      var matching := MatchingMajors(majors, search, departmentId);
      var shown := Window(ByHighestId(majors, search, departmentId), SkipFor(page, limit), limit);
      MajorPageShows(majors, search, departmentId, SkipFor(page, limit), limit);
      var pages := if limit > 0 then Some(TotalPages(|matching|, limit)) else None;
      Ok(MajorPage(shown, page, limit, |matching|, pages))
  }

  /**
   * `getByDepartment`: the same query with the department filter always
   * applied.
   */
  function GetByDepartment(majors: seq<Major>, departmentId: int, page: int, limit: int, search: string)
    : (r: Result<MajorPage, MajorError>)
    ensures r == GetAll(majors, page, limit, search, Some(departmentId))
    ensures r.Ok? ==> forall m :: m in r.value.majors ==> m.departmentId == departmentId
  {
    GetAll(majors, page, limit, search, Some(departmentId))
  }

  /** `getById`: the major with that id, if any (majors are removed outright, so there is no deletion filter). */
  function GetById(majors: seq<Major>, id: int): (r: Option<Major>)
    ensures r.Some? ==> r.value in majors && r.value.id == id
    ensures r.None? <==> forall m :: m in majors ==> m.id != id
  {
    match IndexOfKey(majors, MajorIdOf, id)
    case Some(i) => Some(majors[i])
    case None => None
  }

  /** Removing one major keeps the ids and the codes of the others pairwise distinct. */
  lemma RemoveKeepsMajorsDistinct(majors: seq<Major>, k: nat)
    requires k < |majors|
    requires forall i, j :: 0 <= i < j < |majors| ==> majors[i].id != majors[j].id
    requires forall i, j :: 0 <= i < j < |majors| ==> majors[i].code != majors[j].code
    ensures var rest := RemoveAt(majors, k);
            && (forall i, j :: 0 <= i < j < |rest| ==> rest[i].id != rest[j].id)
            && (forall i, j :: 0 <= i < j < |rest| ==> rest[i].code != rest[j].code)
  {
    var rest := RemoveAt(majors, k);
    forall i, j | 0 <= i < j < |rest| ensures rest[i].id != rest[j].id && rest[i].code != rest[j].code {
      var a, b := if i < k then i else i + 1, if j < k then j else j + 1;
      assert rest[i] == majors[a] && rest[j] == majors[b] && a < b;
    }
  }

  /** The major table with the department ids it may refer to. */
  class MajorTable {
    var majors: seq<Major>
    var departments: set<int>
    var nextId: int

    /** Ids and codes are unique, and every id was handed out before `nextId`. */
    ghost predicate Valid()
      reads this
    {
      && (forall i, j :: 0 <= i < j < |majors| ==> majors[i].id != majors[j].id)
      && (forall i, j :: 0 <= i < j < |majors| ==> majors[i].code != majors[j].code)
      && (forall i :: 0 <= i < |majors| ==> majors[i].id < nextId)
    }

    constructor (departments: set<int>)
      ensures Valid() && majors == [] && this.departments == departments
    {
      majors := [];
      this.departments := departments;
      nextId := 1;
    }

    /**
     * `create`: refuses a code already in use, then a department that does
     * not exist; otherwise stores exactly the name, code, description and
     * department of the input under a new id.
     */
    method Create(data: MajorInput) returns (r: Result<Major, MajorError>)
      requires Valid()
      modifies this`majors, this`nextId
      ensures Valid()
      ensures CodeTaken(old(majors), data.code) ==>
                r == Err(DuplicateCode) && majors == old(majors) && nextId == old(nextId)
      ensures !CodeTaken(old(majors), data.code) && data.departmentId !in departments ==>
                r == Err(DepartmentNotFound) && majors == old(majors) && nextId == old(nextId)
      ensures !CodeTaken(old(majors), data.code) && data.departmentId in departments ==>
                r == Ok(Major(old(nextId), data.name, data.code, data.description, data.departmentId, 0, 0))
                && majors == old(majors) + [r.value] && nextId == old(nextId) + 1
    {
      if CodeTaken(majors, data.code) {
        return Err(DuplicateCode);
      }
      if data.departmentId !in departments {
        return Err(DepartmentNotFound);
      }
      var m := Major(nextId, data.name, data.code, data.description, data.departmentId, 0, 0);
      majors := majors + [m];
      nextId := nextId + 1;
      r := Ok(m);
    }

    /**
     * `update`: refuses an unknown id; then a supplied code that differs
     * from the current one and is already in use; then a supplied department
     * that does not exist. The write itself still fails on the store's
     * unique constraint when the new code is taken by another major (the
     * empty code is never looked up above).
     */
    method Update(id: int, patch: MajorPatch) returns (r: Result<Major, MajorError>)
      requires Valid()
      modifies this`majors
      ensures Valid()
      ensures IndexOfKey(old(majors), MajorIdOf, id).None? ==> r == Err(MajorNotFound) && majors == old(majors)
      ensures IndexOfKey(old(majors), MajorIdOf, id).Some? ==>
                var k := IndexOfKey(old(majors), MajorIdOf, id).value;
                var m := old(majors)[k];
                var m' := ApplyMajorPatch(m, patch);
                && (CodeChanges(patch, m.code) && CodeTaken(old(majors), patch.code.value) ==>
                      r == Err(DuplicateCode) && majors == old(majors))
                && (!(CodeChanges(patch, m.code) && CodeTaken(old(majors), patch.code.value))
                    && DepartmentGiven(patch) && patch.departmentId.value !in departments ==>
                      r == Err(DepartmentNotFound) && majors == old(majors))
                && (!(CodeChanges(patch, m.code) && CodeTaken(old(majors), patch.code.value))
                    && !(DepartmentGiven(patch) && patch.departmentId.value !in departments) ==>
                      if exists j :: 0 <= j < |old(majors)| && j != k && old(majors)[j].code == m'.code
                      then r == Err(UniqueConflict) && majors == old(majors)
                      else r == Ok(m') && majors == old(majors)[k := m'])
    {
      var found := IndexOfKey(majors, MajorIdOf, id);
      if found.None? {
        return Err(MajorNotFound);
      }
      var k := found.value;
      var existing := majors[k];
      if CodeChanges(patch, existing.code) && CodeTaken(majors, patch.code.value) {
        return Err(DuplicateCode);
      }
      if DepartmentGiven(patch) && patch.departmentId.value !in departments {
        return Err(DepartmentNotFound);
      }
      var m := ApplyMajorPatch(existing, patch);
      if exists j :: 0 <= j < |majors| && j != k && majors[j].code == m.code {
        return Err(UniqueConflict);
      }
      majors := majors[k := m];
      r := Ok(m);
    }

    /**
     * `delete`: refuses an unknown id, then a major that still has students
     * or classes; otherwise removes exactly that major.
     */
    method Delete(id: int) returns (r: Result<Major, MajorError>)
      requires Valid()
      modifies this`majors
      ensures Valid()
      ensures IndexOfKey(old(majors), MajorIdOf, id).None? ==> r == Err(MajorNotFound) && majors == old(majors)
      ensures IndexOfKey(old(majors), MajorIdOf, id).Some? ==>
                var k := IndexOfKey(old(majors), MajorIdOf, id).value;
                var m := old(majors)[k];
                && (m.students > 0 || m.classes > 0 ==> r == Err(HasDependents) && majors == old(majors))
                && (m.students == 0 && m.classes == 0 ==>
                      r == Ok(m) && majors == old(majors)[..k] + old(majors)[k + 1..])
    {
      var found := IndexOfKey(majors, MajorIdOf, id);
      if found.None? {
        return Err(MajorNotFound);
      }
      var k := found.value;
      var m := majors[k];
      if m.students > 0 || m.classes > 0 {
        return Err(HasDependents);
      }
      RemoveKeepsMajorsDistinct(majors, k);
      majors := RemoveAt(majors, k);
      r := Ok(m);
    }
  }
}
