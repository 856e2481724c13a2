/**
 * Course-list edits shared by the future-course simulator and the
 * semester list: the default new course, a one-field edit, update by id,
 * removal by id, the credits input rule and the grade choices.
 */
module Courses {
  import opened Wrappers
  import opened Gpa

  /** The course that the "Add Course" buttons create: empty name, 3 credits, grade A. */
  function NewCourse(id: string): (c: Course)
    ensures c.id == id && c.name == "" && c.credits == 3 && c.grade == A
    ensures CoursePoints(c) == 15.0
  {
    Course(id, "", 3, A)
  }

  /** The four fields of a course record. */
  datatype Field = IdField | NameField | CreditsField | GradeField

  /** A new value for exactly one field. */
  datatype CourseEdit =
    | SetId(id: string)
    | SetName(name: string)
    | SetCredits(credits: int)
    | SetGrade(grade: Grade)

  function FieldOf(e: CourseEdit): Field
  {
    match e
    case SetId(_) => IdField
    case SetName(_) => NameField
    case SetCredits(_) => CreditsField
    case SetGrade(_) => GradeField
  }

  /** `a` and `b` agree on field `f`. */
  predicate SameField(a: Course, b: Course, f: Field)
  {
    match f
    case IdField => a.id == b.id
    case NameField => a.name == b.name
    case CreditsField => a.credits == b.credits
    case GradeField => a.grade == b.grade
  }

  /** Field `FieldOf(e)` of `c` holds the value `e` carries. */
  predicate Holds(c: Course, e: CourseEdit)
  {
    match e
    case SetId(v) => c.id == v
    case SetName(v) => c.name == v
    case SetCredits(v) => c.credits == v
    case SetGrade(v) => c.grade == v
  }

  /** `{ ...course, [field]: value }`: one field replaced, the others kept. */
  function ApplyEdit(c: Course, e: CourseEdit): (r: Course)
    ensures Holds(r, e)
    ensures forall f :: f != FieldOf(e) ==> SameField(r, c, f)
  {
    match e
    case SetId(v) => c.(id := v)
    case SetName(v) => c.(name := v)
    case SetCredits(v) => c.(credits := v)
    case SetGrade(v) => c.(grade := v)
  }

  /** Append one new default course at the end. */
  function AppendCourse(cs: seq<Course>, id: string): (r: seq<Course>)
    ensures |r| == |cs| + 1
    ensures r[..|cs|] == cs
    ensures r[|cs|] == NewCourse(id)
  {
    cs + [NewCourse(id)]
  }

  /** Apply `e` to every course whose id is `id`; leave the others alone. */
  function UpdateById(cs: seq<Course>, id: string, e: CourseEdit): (r: seq<Course>)
    ensures |r| == |cs|
    ensures forall k :: 0 <= k < |cs| && cs[k].id != id ==> r[k] == cs[k]
    ensures forall k :: 0 <= k < |cs| && cs[k].id == id ==>
      Holds(r[k], e) && forall f :: f != FieldOf(e) ==> SameField(r[k], cs[k], f)
  {
    seq(|cs|, k requires 0 <= k < |cs| => if cs[k].id == id then ApplyEdit(cs[k], e) else cs[k])
  }

  /** Keep the courses whose id is not `id`, in their order. */
  function RemoveById(cs: seq<Course>, id: string): (r: seq<Course>)
    ensures |r| <= |cs|
    ensures forall c :: c in r <==> c in cs && c.id != id
  {
    if |cs| == 0 then []
    else RemoveById(cs[..|cs| - 1], id) + (if cs[|cs| - 1].id != id then [cs[|cs| - 1]] else [])
  }

  /**
   * The credits input rule `parseInt(text) || 0`: `parsed` is the result of
   * `parseInt`, `None` when the text is not numeric.
   */
  function ParseCredits(parsed: Option<int>): (r: int)
    ensures parsed.None? ==> r == 0
    ensures parsed.Some? ==> r == parsed.value
  {
    match parsed
    case None => 0
    case Some(n) => if n == 0 then 0 else n
  }

  /**
   * The stored credits are 0 exactly when the text was not numeric or read
   * as 0, and reading a stored value back as text stores it again unchanged.
   */
  lemma ParseCreditsFallback(parsed: Option<int>)
    ensures ParseCredits(parsed) == 0 <==> parsed.None? || parsed == Some(0)
    ensures ParseCredits(Some(ParseCredits(parsed))) == ParseCredits(parsed)
  {
  }

  /** The grade choices offered by the selects: the letters of the points table, in order. */
  function GradeOptions(): (r: seq<string>)
    ensures |r| == |AllGrades|
    ensures forall k :: 0 <= k < |r| ==> r[k] == Letter(AllGrades[k])
  {
    seq(|AllGrades|, k requires 0 <= k < |AllGrades| => Letter(AllGrades[k]))
  }

  // ---------------------------------------------------------------------
  // Lemmas
  // ---------------------------------------------------------------------

  /** Removal distributes over concatenation, so relative order is kept. */
  lemma {:induction false} RemoveByIdAppend(a: seq<Course>, b: seq<Course>, id: string)
    ensures RemoveById(a + b, id) == RemoveById(a, id) + RemoveById(b, id)
  {
    if |b| == 0 {
      assert a + b == a;
    } else {
      var front := b[..|b| - 1];
      assert (a + b)[..|a + b| - 1] == a + front;
      RemoveByIdAppend(a, front, id);
    }
  }

  /** Removing an id nobody carries changes nothing. */
  lemma {:induction false} RemoveAbsentId(cs: seq<Course>, id: string)
    requires forall k :: 0 <= k < |cs| ==> cs[k].id != id
    ensures RemoveById(cs, id) == cs
  {
    if |cs| > 0 {
      var front := cs[..|cs| - 1];
      var last := cs[|cs| - 1];
      assert forall k :: 0 <= k < |front| ==> front[k] == cs[k];
      RemoveAbsentId(front, id);
      assert last.id != id;
      assert RemoveById(cs, id) == front + [last];
      assert cs == front + [last];
    }
  }

  /** Removing the same id twice is the same as removing it once. */
  lemma RemoveByIdIdempotent(cs: seq<Course>, id: string)
    ensures RemoveById(RemoveById(cs, id), id) == RemoveById(cs, id)
  {
    var r := RemoveById(cs, id);
    forall k | 0 <= k < |r|
      ensures r[k].id != id
    {
      assert r[k] in r;
    }
    RemoveAbsentId(r, id);
  }

  /** Renaming courses never changes a GPA: names carry no points or units. */
  lemma {:induction false} RenameKeepsTotals(cs: seq<Course>, id: string, name: string)
    ensures TotalGradePoints(UpdateById(cs, id, SetName(name))) == TotalGradePoints(cs)
    ensures TotalUnits(UpdateById(cs, id, SetName(name))) == TotalUnits(cs)
    ensures CalculateGPA(UpdateById(cs, id, SetName(name))) == CalculateGPA(cs)
  {
    var u := UpdateById(cs, id, SetName(name));
    forall k | 0 <= k < |cs|
      ensures u[k].credits == cs[k].credits && u[k].grade == cs[k].grade
    {
      if cs[k].id == id {
        assert u[k] == cs[k].(name := name);
      }
    }
    SameGradingSameTotals(u, cs);
  }

  /** Lists that agree course by course on credits and grade have the same totals. */
  lemma {:induction false} SameGradingSameTotals(a: seq<Course>, b: seq<Course>)
    requires |a| == |b|
    requires forall k :: 0 <= k < |a| ==> a[k].credits == b[k].credits && a[k].grade == b[k].grade
    ensures TotalGradePoints(a) == TotalGradePoints(b)
    ensures TotalUnits(a) == TotalUnits(b)
  {
    if |a| > 0 {
      var a', b' := a[1..], b[1..];
      forall k | 0 <= k < |a'|
        ensures a'[k].credits == b'[k].credits && a'[k].grade == b'[k].grade
      {
        assert a'[k] == a[k + 1] && b'[k] == b[k + 1];
      }
      SameGradingSameTotals(a', b');
      SameGradingSamePoints(a[0], b[0]);
    }
  }

  lemma SameGradingSamePoints(x: Course, y: Course)
    requires x.credits == y.credits && x.grade == y.grade
    ensures CoursePoints(x) == CoursePoints(y)
  {
    assert x.(id := y.id, name := y.name) == y;
  }

  /** The options are exactly the six letters A to F, one per grade. */
  lemma GradeOptionsAreLetters()
    ensures GradeOptions() == ["A", "B", "C", "D", "E", "F"]
    ensures forall g: Grade :: Letter(g) in GradeOptions()
  {
    GradePointsTable();
    var r := GradeOptions();
    assert r[0] == "A" && r[1] == "B" && r[2] == "C" && r[3] == "D" && r[4] == "E" && r[5] == "F";
    forall g: Grade
      ensures Letter(g) in GradeOptions()
    {
      var k :| 0 <= k < |AllGrades| && AllGrades[k] == g;
      assert r[k] == Letter(g);
    }
  }
}
