/**
 * The course-issue detector. Every course of every semester is classified
 * by its grade text: a missing or empty grade is an incomplete course, "F"
 * is a carry-over, "E" is a low grade, anything else is no issue. The
 * alert is not shown at all when no course has an issue.
 *
 * Grades are raw text here because the rows come from the backend: the
 * static type promises a letter, but the detector itself tests for a
 * missing grade, so that case is modelled.
 */
module Issues {
  import opened Wrappers
  import opened Gpa

  /** A course as received: `None` stands for a missing (null or undefined) grade. */
  datatype RawCourse = RawCourse(id: string, name: string, grade: Option<string>)

  datatype RawSemester = RawSemester(id: string, name: string, courses: seq<RawCourse>)

  datatype IssueKind = Carryover | Incomplete | LowGrade

  datatype Issue = Issue(courseId: string, courseName: string, semester: string, grade: string, kind: IssueKind)

  /** The badge text: the kind's tag with its first underscore replaced by a space. */
  function KindLabel(k: IssueKind): (s: string)
    ensures k == Carryover ==> s == "carryover"
    ensures k == Incomplete ==> s == "incomplete"
    ensures k == LowGrade ==> s == "low grade"
  {
    match k
    case Carryover => "carryover"
    case Incomplete => "incomplete"
    case LowGrade => "low grade"
  }

  /** A grade is falsy when it is missing or the empty text. */
  predicate Missing(grade: Option<string>)
  {
    grade.None? || grade.value == ""
  }

  /** The issue, if any, that one course of semester `semester` raises. */
  function IssueOf(semester: string, c: RawCourse): (r: Option<Issue>)
    ensures r.Some? <==> Missing(c.grade) || c.grade == Some("F") || c.grade == Some("E")
    ensures r.Some? ==> r.value.courseId == c.id && r.value.courseName == c.name && r.value.semester == semester
    ensures r.Some? ==> (r.value.kind == Incomplete <==> Missing(c.grade))
    ensures r.Some? && r.value.kind == Incomplete ==> r.value.grade == "N/A"
    ensures r.Some? ==> (r.value.kind == Carryover <==> c.grade == Some("F"))
    ensures r.Some? ==> (r.value.kind == LowGrade <==> c.grade == Some("E"))
    ensures r.Some? && r.value.kind != Incomplete ==> r.value.grade == c.grade.value
  {
    if Missing(c.grade) then Some(Issue(c.id, c.name, semester, "N/A", Incomplete))
    else if c.grade.value == "F" then Some(Issue(c.id, c.name, semester, "F", Carryover))
    else if c.grade.value == "E" then Some(Issue(c.id, c.name, semester, "E", LowGrade))
    else None
  }

  /** The grade an issue displays agrees with its kind: "N/A" when incomplete, "F" for a carry-over, "E" for a low grade. */
  predicate GradeMatchesKind(x: Issue)
  {
    && (x.kind == Incomplete ==> x.grade == "N/A")
    && (x.kind == Carryover ==> x.grade == "F")
    && (x.kind == LowGrade ==> x.grade == "E")
  }

  /** The issues of a course list, in list order. */
  function CourseIssues(semester: string, cs: seq<RawCourse>): (r: seq<Issue>)
    ensures |r| <= |cs|
    ensures forall x :: x in r ==> GradeMatchesKind(x) && x.semester == semester
  {
    if |cs| == 0 then []
    else
      var last := IssueOf(semester, cs[|cs| - 1]);
      CourseIssues(semester, cs[..|cs| - 1]) + (if last.Some? then [last.value] else [])
  }

  /** The issues of all semesters, semester by semester. */
  function IssuesOf(sems: seq<RawSemester>): (r: seq<Issue>)
    ensures forall x :: x in r ==> GradeMatchesKind(x)
  {
    if |sems| == 0 then []
    else IssuesOf(sems[..|sems| - 1]) + CourseIssues(sems[|sems| - 1].name, sems[|sems| - 1].courses)
  }

  /** `detectIssues`: two nested passes that push one entry per course with an issue. */
  method DetectIssues(sems: seq<RawSemester>) returns (issues: seq<Issue>)
    ensures issues == IssuesOf(sems)
    ensures forall x :: x in issues <==>
      exists i, j :: 0 <= i < |sems| && 0 <= j < |sems[i].courses| && IssueOf(sems[i].name, sems[i].courses[j]) == Some(x)
  {
    issues := [];
    var i := 0;
    while i < |sems|
      invariant 0 <= i <= |sems|
      invariant issues == IssuesOf(sems[..i])
    {
      var row := ScanSemester(sems[i].name, sems[i].courses);
      issues := issues + row;
      assert sems[..i + 1][..i] == sems[..i];
      i := i + 1;
    }
    assert sems[..i] == sems;
    IssuesOfMembers(sems);
  }

  /** The inner scan over one semester's courses, in course order. */
  method ScanSemester(semester: string, cs: seq<RawCourse>) returns (found: seq<Issue>)
    ensures found == CourseIssues(semester, cs)
  {
    found := [];
    var j := 0;
    while j < |cs|
      invariant 0 <= j <= |cs|
      invariant found == CourseIssues(semester, cs[..j])
    {
      assert cs[..j + 1][..j] == cs[..j];
      var x := IssueOf(semester, cs[j]);
      if x.Some? {
        found := found + [x.value];
      }
      j := j + 1;
    }
    assert cs[..j] == cs;
  }

  /** What the alert renders: nothing when there is no issue, otherwise the list. */
  function AlertContents(sems: seq<RawSemester>): (r: Option<seq<Issue>>)
    ensures r.None? <==> forall i, j :: 0 <= i < |sems| && 0 <= j < |sems[i].courses| ==>
      IssueOf(sems[i].name, sems[i].courses[j]).None?
    ensures r.Some? ==> r.value == IssuesOf(sems) && |r.value| > 0
  {
    IssuesOfMembers(sems);
    var issues := IssuesOf(sems);
    if |issues| == 0 then None
    else
      assert issues[0] in issues;
      Some(issues)
  }

  /** The stored course seen as a raw row: its grade is always present. */
  function Raw(c: Course): (r: RawCourse)
    ensures r.id == c.id && r.name == c.name && r.grade == Some(Letter(c.grade))
  {
    RawCourse(c.id, c.name, Some(Letter(c.grade)))
  }

  function RawCourses(cs: seq<Course>): (r: seq<RawCourse>)
    ensures |r| == |cs| && forall k :: 0 <= k < |cs| ==> r[k] == Raw(cs[k])
  {
    seq(|cs|, k requires 0 <= k < |cs| => Raw(cs[k]))
  }

  /** The number of courses graded E or F. */
  function FailingCount(cs: seq<Course>): (n: nat)
    ensures n <= |cs|
  {
    if |cs| == 0 then 0
    else FailingCount(cs[..|cs| - 1]) + (if cs[|cs| - 1].grade in {E, F} then 1 else 0)
  }

  // ---------------------------------------------------------------------
  // Lemmas
  // ---------------------------------------------------------------------

  /** An issue is in a course list's issues iff some course of the list raises it. */
  lemma {:induction false} CourseIssuesMembers(semester: string, cs: seq<RawCourse>)
    ensures forall x :: x in CourseIssues(semester, cs) <==>
      exists j :: 0 <= j < |cs| && IssueOf(semester, cs[j]) == Some(x)
  {
    if |cs| > 0 {
      var front := cs[..|cs| - 1];
      CourseIssuesMembers(semester, front);
      forall x | x in CourseIssues(semester, cs)
        ensures exists j :: 0 <= j < |cs| && IssueOf(semester, cs[j]) == Some(x)
      {
        if x in CourseIssues(semester, front) {
          var j :| 0 <= j < |front| && IssueOf(semester, front[j]) == Some(x);
          assert cs[j] == front[j];
        } else {
          assert IssueOf(semester, cs[|cs| - 1]) == Some(x);
        }
      }
      forall x, j | 0 <= j < |cs| && IssueOf(semester, cs[j]) == Some(x)
        ensures x in CourseIssues(semester, cs)
      {
        if j < |front| {
          assert front[j] == cs[j];
        }
      }
    }
  }

  /** An issue is detected iff some course of some semester raises it. */
  lemma {:induction false} IssuesOfMembers(sems: seq<RawSemester>)
    ensures forall x :: x in IssuesOf(sems) <==>
      exists i, j :: 0 <= i < |sems| && 0 <= j < |sems[i].courses| && IssueOf(sems[i].name, sems[i].courses[j]) == Some(x)
  {
    if |sems| > 0 {
      var front := sems[..|sems| - 1];
      var last := sems[|sems| - 1];
      IssuesOfMembers(front);
      CourseIssuesMembers(last.name, last.courses);
      forall x | x in IssuesOf(sems)
        ensures exists i, j :: 0 <= i < |sems| && 0 <= j < |sems[i].courses| && IssueOf(sems[i].name, sems[i].courses[j]) == Some(x)
      {
        if x in IssuesOf(front) {
          var i, j :| 0 <= i < |front| && 0 <= j < |front[i].courses| && IssueOf(front[i].name, front[i].courses[j]) == Some(x);
          assert sems[i] == front[i];
        } else {
          var j :| 0 <= j < |last.courses| && IssueOf(last.name, last.courses[j]) == Some(x);
          assert sems[|sems| - 1] == last;
        }
      }
      forall x, i, j | 0 <= i < |sems| && 0 <= j < |sems[i].courses| && IssueOf(sems[i].name, sems[i].courses[j]) == Some(x)
        ensures x in IssuesOf(sems)
      {
        if i < |front| {
          assert front[i] == sems[i];
        }
      }
    }
  }

  /** Detection distributes over concatenation of semester lists. */
  lemma {:induction false} IssuesOfAppend(a: seq<RawSemester>, b: seq<RawSemester>)
    ensures IssuesOf(a + b) == IssuesOf(a) + IssuesOf(b)
  {
    if |b| == 0 {
      assert a + b == a;
    } else {
      var front := b[..|b| - 1];
      var last := b[|b| - 1];
      assert (a + b)[..|a + b| - 1] == a + front;
      assert (a + b)[|a + b| - 1] == last;
      IssuesOfAppend(a, front);
      var tail := CourseIssues(last.name, last.courses);
      assert IssuesOf(a + b) == IssuesOf(a + front) + tail;
      assert IssuesOf(b) == IssuesOf(front) + tail;
    }
  }

  /**
   * For rows that carry one of the six letters, no course is incomplete and
   * there is exactly one issue per course graded E or F.
   */
  lemma {:induction false} TypedCourseIssues(semester: string, cs: seq<Course>)
    ensures |CourseIssues(semester, RawCourses(cs))| == FailingCount(cs)
    ensures forall x :: x in CourseIssues(semester, RawCourses(cs)) ==> x.kind != Incomplete
  {
    if |cs| > 0 {
      var front := cs[..|cs| - 1];
      assert RawCourses(cs)[..|cs| - 1] == RawCourses(front);
      TypedCourseIssues(semester, front);
      var c := cs[|cs| - 1];
      assert Letter(c.grade) != "";
      assert Letter(c.grade) == "F" <==> c.grade == F;
      assert Letter(c.grade) == "E" <==> c.grade == E;
    }
  }

  /** A record whose every course is graded A to D raises no alert. */
  lemma NoAlertWhenAllPass(sems: seq<RawSemester>)
    requires forall i, j :: 0 <= i < |sems| && 0 <= j < |sems[i].courses| ==>
      sems[i].courses[j].grade in {Some("A"), Some("B"), Some("C"), Some("D")}
    ensures AlertContents(sems).None?
  {
  }

  /** A course with no grade in semester "Semester 1" gives one incomplete issue shown as "N/A". */
  lemma IncompleteExample()
    ensures IssuesOf([RawSemester("s", "Semester 1", [RawCourse("c", "Maths", None), RawCourse("d", "Art", Some("B"))])])
      == [Issue("c", "Maths", "Semester 1", "N/A", Incomplete)]
  {
    var sem := RawSemester("s", "Semester 1", [RawCourse("c", "Maths", None), RawCourse("d", "Art", Some("B"))]);
    var cs := sem.courses;
    assert cs[..1] == [cs[0]];
    assert cs[..1][..0] == [];
    assert CourseIssues(sem.name, cs[..1]) == [Issue("c", "Maths", "Semester 1", "N/A", Incomplete)];
    assert cs[..|cs| - 1] == cs[..1];
    assert IssueOf(sem.name, cs[1]).None?;
    assert CourseIssues(sem.name, cs) == [Issue("c", "Maths", "Semester 1", "N/A", Incomplete)];
    assert [sem][..0] == [];
  }
}
