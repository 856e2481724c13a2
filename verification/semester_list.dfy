/**
 * The semester list: adding a course to a semester, adding a semester and
 * editing one field of a course. Each change is first sent to the hosted
 * backend; the backend's answer is an explicit input here (success with
 * the stored row, or failure), and local state changes only on success.
 */
module SemesterList {
  import opened Wrappers
  import opened Gpa
  import opened Courses

  /** The backend's answer to an insert or update. */
  datatype BackendResult<T> = Failed | Stored(row: T)

  /** The course row sent to the backend by "Add Course". */
  datatype CourseInsert = CourseInsert(semesterId: string, name: string, credits: int, grade: Grade)

  /** The semester row sent to the backend by "Add Semester". */
  datatype SemesterInsert = SemesterInsert(name: string, userId: string)

  /** The insert request of "Add Course": empty name, 3 credits, grade A. */
  function NewCourseRequest(semesterId: string): (req: CourseInsert)
    ensures req.semesterId == semesterId
    ensures NewCourse("").name == req.name && NewCourse("").credits == req.credits && NewCourse("").grade == req.grade
  {
    CourseInsert(semesterId, "", 3, A)
  }

  /** Decimal text of a natural number. */
  function NatToString(n: nat): (s: string)
    ensures |s| >= 1
    ensures forall k :: 0 <= k < |s| ==> '0' <= s[k] <= '9'
  {
    var digit := ['0' + (n % 10) as char];
    if n < 10 then digit else NatToString(n / 10) + digit
  }

  /** The name given to the (n+1)-th semester. */
  function SemesterName(n: nat): string
  {
    "Semester " + NatToString(n + 1)
  }

  /** After a successful course insert: the stored course is appended to the semester with that id. */
  function AddCourse(sems: seq<Semester>, semesterId: string, result: BackendResult<Course>): (r: seq<Semester>)
    ensures result.Failed? ==> r == sems
    ensures |r| == |sems|
    ensures forall k :: 0 <= k < |sems| && sems[k].id != semesterId ==> r[k] == sems[k]
    ensures result.Stored? ==> forall k :: 0 <= k < |sems| && sems[k].id == semesterId ==>
      r[k] == sems[k].(courses := sems[k].courses + [result.row])
  {
    match result
    case Failed => sems
    case Stored(course) =>
      seq(|sems|, k requires 0 <= k < |sems| =>
        if sems[k].id == semesterId then sems[k].(courses := sems[k].courses + [course]) else sems[k])
  }

  /** The insert request of "Add Semester"; nothing is sent without a signed-in user. */
  function NewSemesterRequest(sems: seq<Semester>, user: Option<string>): (req: Option<SemesterInsert>)
    ensures user.None? <==> req.None?
    ensures user.Some? ==> req.value.userId == user.value && req.value.name == SemesterName(|sems|)
  {
    match user
    case None => None
    case Some(uid) => Some(SemesterInsert(SemesterName(|sems|), uid))
  }

  /**
   * The list after "Add Semester". The backend answers with the id of the
   * stored row, whose name is the requested one; the new semester has no courses.
   */
  function AddSemester(sems: seq<Semester>, user: Option<string>, result: BackendResult<string>): (r: seq<Semester>)
    ensures user.None? || result.Failed? ==> r == sems
    ensures user.Some? && result.Stored? ==>
      r == sems + [Semester(result.row, SemesterName(|sems|), [])]
  {
    match NewSemesterRequest(sems, user)
    case None => sems
    case Some(req) =>
      match result
      case Failed => sems
      case Stored(id) => sems + [Semester(id, req.name, [])]
  }

  /** After a successful update: one field of the matching course in the matching semester changes. */
  function UpdateCourse(sems: seq<Semester>, semesterId: string, courseId: string, edit: CourseEdit,
                        result: BackendResult<()>): (r: seq<Semester>)
    ensures result.Failed? ==> r == sems
    ensures |r| == |sems|
    ensures forall k :: 0 <= k < |sems| ==> r[k].id == sems[k].id && r[k].name == sems[k].name
    ensures forall k :: 0 <= k < |sems| && sems[k].id != semesterId ==> r[k] == sems[k]
    ensures result.Stored? ==> forall k :: 0 <= k < |sems| && sems[k].id == semesterId ==>
      r[k].courses == UpdateById(sems[k].courses, courseId, edit)
  {
    match result
    case Failed => sems
    case Stored(_) =>
      seq(|sems|, k requires 0 <= k < |sems| =>
        if sems[k].id == semesterId
        then sems[k].(courses := UpdateById(sems[k].courses, courseId, edit))
        else sems[k])
  }

  /** The GPA shown next to each semester's name. */
  function DisplayedGpa(s: Semester): real
  {
    CalculateGPA(s.courses)
  }

  // ---------------------------------------------------------------------
  // Lemmas
  // ---------------------------------------------------------------------

  /** The first semester added to an empty list is called "Semester 1"; the tenth, "Semester 10". */
  lemma SemesterNames()
    ensures SemesterName(0) == "Semester 1"
    ensures SemesterName(9) == "Semester 10"
  {
    assert NatToString(1) == "1";
    assert NatToString(10) == NatToString(1) + "0";
  }

  /** Decimal text is injective, so distinct counts give distinct semester names. */
  lemma {:induction false} NatToStringInjective(a: nat, b: nat)
    requires NatToString(a) == NatToString(b)
    ensures a == b
  {
    var sa, sb := NatToString(a), NatToString(b);
    assert sa[|sa| - 1] == '0' + (a % 10) as char;
    assert sb[|sb| - 1] == '0' + (b % 10) as char;
    assert a % 10 == b % 10;
    if a >= 10 && b >= 10 {
      assert NatToString(a / 10) == sa[..|sa| - 1];
      assert NatToString(b / 10) == sb[..|sb| - 1];
      NatToStringInjective(a / 10, b / 10);
    }
  }

  /** An added course lands at the end of its semester and changes no other semester's GPA. */
  lemma AddCourseLocality(sems: seq<Semester>, semesterId: string, course: Course, k: nat)
    requires k < |sems|
    ensures sems[k].id != semesterId ==>
      DisplayedGpa(AddCourse(sems, semesterId, Stored(course))[k]) == DisplayedGpa(sems[k])
    ensures sems[k].id == semesterId ==>
      TotalUnits(AddCourse(sems, semesterId, Stored(course))[k].courses) == TotalUnits(sems[k].courses) + course.credits
  {
    if sems[k].id == semesterId {
      TotalUnitsAppend(sems[k].courses, [course]);
    }
  }

  /** A successful semester insert adds no course, so the CGPA stays the same. */
  lemma AddSemesterKeepsCgpa(sems: seq<Semester>, user: Option<string>, result: BackendResult<string>)
    ensures CalculateCGPA(AddSemester(sems, user, result)) == CalculateCGPA(sems)
  {
    if user.Some? && result.Stored? {
      var extra := Semester(result.row, SemesterName(|sems|), []);
      FlattenAppend(sems, [extra]);
      assert [extra][1..] == [];
      assert Flatten([extra]) == [] + [];
      assert Flatten(sems) + [] == Flatten(sems);
    }
  }

  /** Renaming a course changes no displayed GPA. */
  lemma RenameKeepsDisplayedGpas(sems: seq<Semester>, semesterId: string, courseId: string, name: string,
                                 result: BackendResult<()>, k: nat)
    requires k < |sems|
    ensures DisplayedGpa(UpdateCourse(sems, semesterId, courseId, SetName(name), result)[k]) == DisplayedGpa(sems[k])
  {
    RenameKeepsTotals(sems[k].courses, courseId, name);
  }
}
