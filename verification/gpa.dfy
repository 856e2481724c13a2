/**
 * The GPA/CGPA engine: letter grades, their point values, quality points,
 * credit totals, a semester GPA rounded to hundredths and a CGPA computed
 * over the flattened course list of all semesters.
 *
 * Numbers are exact `real`s. The source rounds with `toFixed(2)` and turns
 * the string back into a number; `Round2` is that rounding on exact values
 * (nearest hundredth, ties away from zero).
 */
module Gpa {

  /** The six letter grades of the application. */
  datatype Grade = A | B | C | D | E | F

  /** The grade letters in the order the points table declares them. */
  const AllGrades: seq<Grade> := [A, B, C, D, E, F]

  /** The single-character text of a grade. */
  function Letter(g: Grade): (s: string)
    ensures |s| == 1
  {
    match g
    case A => "A"
    case B => "B"
    case C => "C"
    case D => "D"
    case E => "E"
    case F => "F"
  }

  /** The points table: A..F map to 5..0. */
  function GradePoints(g: Grade): (p: real)
    ensures 0.0 <= p <= 5.0
    ensures p == 5.0 <==> g == A
    ensures p == 0.0 <==> g == F
  {
    match g
    case A => 5.0
    case B => 4.0
    case C => 3.0
    case D => 2.0
    case E => 1.0
    case F => 0.0
  }

  datatype Course = Course(id: string, name: string, credits: int, grade: Grade)

  datatype Semester = Semester(id: string, name: string, courses: seq<Course>)

  /** Quality points of one course. */
  function CoursePoints(c: Course): (p: real)
    ensures c.credits >= 0 ==> 0.0 <= p <= 5.0 * c.credits as real
    ensures c.credits == 0 || c.grade == F ==> p == 0.0
  {
    c.credits as real * GradePoints(c.grade)
  }

  /** Total grade points: the sum of quality points. */
  function TotalGradePoints(cs: seq<Course>): (r: real)
    ensures NonNegativeCredits(cs) ==> r >= 0.0
  {
    if |cs| == 0 then 0.0 else CoursePoints(cs[0]) + TotalGradePoints(cs[1..])
  }

  /** Total units: the sum of credits. */
  function TotalUnits(cs: seq<Course>): (r: int)
    ensures NonNegativeCredits(cs) ==> r >= 0
  {
    if |cs| == 0 then 0 else cs[0].credits + TotalUnits(cs[1..])
  }

  /** Every course in `cs` has a non-negative credit count. */
  predicate NonNegativeCredits(cs: seq<Course>)
  {
    forall i :: 0 <= i < |cs| ==> cs[i].credits >= 0
  }

  /** `x` is a whole number of hundredths. */
  predicate IsHundredths(x: real)
  {
    (x * 100.0).Floor as real == x * 100.0
  }

  /**
   * Rounding to two decimals: the nearest multiple of 0.01, with a tie
   * going away from zero.
   */
  function Round2(x: real): (r: real)
    ensures IsHundredths(r)
    ensures -0.005 <= r - x <= 0.005
    ensures x >= 0.0 ==> r >= 0.0 && r - x > -0.005
    ensures x < 0.0 ==> r <= 0.0 && r - x < 0.005
  {
    var n := if x >= 0.0 then (x * 100.0 + 0.5).Floor else -((-x * 100.0 + 0.5).Floor);
    HundredthsOfInt(n);
    n as real / 100.0
  }

  /** Any whole number divided by 100 is a whole number of hundredths. */
  lemma HundredthsOfInt(n: int)
    ensures IsHundredths(n as real / 100.0)
  {
    var r := n as real / 100.0;
    assert r * 100.0 == n as real;
  }

  /** A quotient of a bounded numerator by a positive denominator is bounded. */
  lemma QuotientBounds(a: real, u: real, m: real)
    requires u > 0.0
    requires 0.0 <= a <= m * u
    ensures 0.0 <= a / u <= m
  {
    var q := a / u;
    assert q * u == a;
    assert (m - q) * u == m * u - a;
  }

  /** The semester GPA of a course list. */
  function CalculateGPA(cs: seq<Course>): (r: real)
    ensures |cs| == 0 ==> r == 0.0
    ensures TotalUnits(cs) == 0 ==> r == 0.0
    ensures TotalUnits(cs) != 0 ==>
      IsHundredths(r) && -0.005 <= r - TotalGradePoints(cs) / TotalUnits(cs) as real <= 0.005
  {
    if |cs| == 0 then 0.0
    else
      var totalPoints := TotalGradePoints(cs);
      var totalUnits := TotalUnits(cs);
      if totalUnits == 0 then 0.0 else Round2(totalPoints / totalUnits as real)
  }

  /** All courses of all semesters, semester by semester. */
  function Flatten(sems: seq<Semester>): seq<Course>
  {
    if |sems| == 0 then [] else sems[0].courses + Flatten(sems[1..])
  }

  /** The cumulative GPA: totals taken over the flattened course list. */
  function CalculateCGPA(sems: seq<Semester>): (r: real)
    ensures r == CalculateGPA(Flatten(sems))
  {
    var allCourses := Flatten(sems);
    var totalPoints := TotalGradePoints(allCourses);
    var totalUnits := TotalUnits(allCourses);
    if totalUnits == 0 then 0.0 else Round2(totalPoints / totalUnits as real)
  }

  // ---------------------------------------------------------------------
  // Lemmas
  // ---------------------------------------------------------------------

  /** The points table, letter by letter. */
  lemma GradePointsTable()
    ensures GradePoints(A) == 5.0 && GradePoints(B) == 4.0 && GradePoints(C) == 3.0
    ensures GradePoints(D) == 2.0 && GradePoints(E) == 1.0 && GradePoints(F) == 0.0
    ensures forall g: Grade :: g in AllGrades
    ensures forall i, j :: 0 <= i < j < |AllGrades| ==> AllGrades[i] != AllGrades[j]
  {
    forall g: Grade
      ensures g in AllGrades
    {
      match g
      case A => assert AllGrades[0] == g;
      case B => assert AllGrades[1] == g;
      case C => assert AllGrades[2] == g;
      case D => assert AllGrades[3] == g;
      case E => assert AllGrades[4] == g;
      case F => assert AllGrades[5] == g;
    }
  }

  /** Total grade points are additive over concatenation. */
  lemma {:induction false} TotalGradePointsAppend(a: seq<Course>, b: seq<Course>)
    ensures TotalGradePoints(a + b) == TotalGradePoints(a) + TotalGradePoints(b)
  {
    if |a| == 0 {
      assert a + b == b;
    } else {
      assert (a + b)[1..] == a[1..] + b;
      TotalGradePointsAppend(a[1..], b);
    }
  }

  /** Total units are additive over concatenation. */
  lemma {:induction false} TotalUnitsAppend(a: seq<Course>, b: seq<Course>)
    ensures TotalUnits(a + b) == TotalUnits(a) + TotalUnits(b)
  {
    if |a| == 0 {
      assert a + b == b;
    } else {
      assert (a + b)[1..] == a[1..] + b;
      TotalUnitsAppend(a[1..], b);
    }
  }

  /** Flattening distributes over concatenation of semester lists. */
  lemma {:induction false} FlattenAppend(a: seq<Semester>, b: seq<Semester>)
    ensures Flatten(a + b) == Flatten(a) + Flatten(b)
  {
    if |a| == 0 {
      assert a + b == b;
    } else {
      assert (a + b)[1..] == a[1..] + b;
      FlattenAppend(a[1..], b);
    }
  }

  /** With non-negative credits the total points lie between 0 and 5 per unit. */
  lemma {:induction false} TotalsBounded(cs: seq<Course>)
    requires NonNegativeCredits(cs)
    ensures TotalUnits(cs) >= 0
    ensures 0.0 <= TotalGradePoints(cs) <= 5.0 * TotalUnits(cs) as real
  {
    if |cs| > 0 {
      TotalsBounded(cs[1..]);
    }
  }

  /** With non-negative credits, the total units are 0 exactly when every course carries 0 credits. */
  lemma {:induction false} ZeroUnitsIff(cs: seq<Course>)
    requires NonNegativeCredits(cs)
    ensures TotalUnits(cs) == 0 <==> forall i :: 0 <= i < |cs| ==> cs[i].credits == 0
  {
    if |cs| > 0 {
      var tail := cs[1..];
      assert forall i :: 0 <= i < |tail| ==> tail[i] == cs[i + 1];
      ZeroUnitsIff(tail);
    }
  }

  /** A course list failed throughout earns no grade points, whatever its credits. */
  lemma {:induction false} AllFailedZeroPoints(cs: seq<Course>)
    requires forall i :: 0 <= i < |cs| ==> cs[i].grade == F
    ensures TotalGradePoints(cs) == 0.0
  {
    if |cs| > 0 {
      var tail := cs[1..];
      assert forall i :: 0 <= i < |tail| ==> tail[i] == cs[i + 1];
      AllFailedZeroPoints(tail);
    }
  }

  /** Rounding to hundredths is monotone. */
  lemma Round2Monotone(x: real, y: real)
    requires x <= y
    ensures Round2(x) <= Round2(y)
  {
    if x >= 0.0 {
      assert (x * 100.0 + 0.5).Floor <= (y * 100.0 + 0.5).Floor;
    } else if y < 0.0 {
      assert (-y * 100.0 + 0.5).Floor <= (-x * 100.0 + 0.5).Floor;
    }
  }

  /** A whole number of hundredths is left unchanged by rounding. */
  lemma Round2Exact(n: int)
    ensures Round2(n as real / 100.0) == n as real / 100.0
  {
    var x := n as real / 100.0;
    if n >= 0 {
      assert x * 100.0 + 0.5 == n as real + 0.5;
      assert (n as real + 0.5).Floor == n;
    } else {
      assert -x * 100.0 + 0.5 == (-n) as real + 0.5;
      assert ((-n) as real + 0.5).Floor == -n;
    }
  }

  /** With non-negative credits and some credit, the GPA lies in [0, 5]. */
  lemma GpaInRange(cs: seq<Course>)
    requires NonNegativeCredits(cs)
    requires TotalUnits(cs) > 0
    ensures 0.0 <= CalculateGPA(cs) <= 5.0
  {
    TotalsBounded(cs);
    var q := TotalGradePoints(cs) / TotalUnits(cs) as real;
    QuotientBounds(TotalGradePoints(cs), TotalUnits(cs) as real, 5.0);
    Round2Monotone(0.0, q);
    Round2Monotone(q, 5.0);
    Round2Exact(0);
    Round2Exact(500);
  }

  /**
   * The CGPA only depends on the flattened course list, so it does not
   * change when the same courses are regrouped into other semesters.
   */
  lemma CgpaRegroupingInvariant(s1: seq<Semester>, s2: seq<Semester>)
    requires Flatten(s1) == Flatten(s2)
    ensures CalculateCGPA(s1) == CalculateCGPA(s2)
  {
  }

  /** The CGPA of two semester lists is the GPA of their joined courses. */
  lemma CgpaOfAppend(a: seq<Semester>, b: seq<Semester>)
    ensures CalculateCGPA(a + b) == CalculateGPA(Flatten(a) + Flatten(b))
  {
    FlattenAppend(a, b);
  }

  /** Worked example: 3 credits of A and 4 credits of B give 31/7, shown as 4.43. */
  lemma GpaExample()
    ensures CalculateGPA([Course("1", "x", 3, A), Course("2", "y", 4, B)]) == 4.43
  {
    var cs := [Course("1", "x", 3, A), Course("2", "y", 4, B)];
    assert TotalGradePoints(cs) == 31.0;
    assert TotalUnits(cs) == 7;
    assert (31.0 / 7.0 * 100.0 + 0.5).Floor == 443;
  }

  /**
   * The CGPA is not the mean of the semester GPAs: 3 credits of A (15
   * points) and 10 credits of D (20 points) give 35/13 = 2.69, while the
   * semester GPAs 5.00 and 2.00 average to 3.50.
   */
  lemma CgpaIsNotMeanOfGpas()
    ensures var s1 := Semester("s1", "Semester 1", [Course("1", "x", 3, A)]);
            var s2 := Semester("s2", "Semester 2", [Course("2", "y", 10, D)]);
            && CalculateGPA(s1.courses) == 5.0
            && CalculateGPA(s2.courses) == 2.0
            && CalculateCGPA([s1, s2]) == 2.69
            && CalculateCGPA([s1, s2]) != (CalculateGPA(s1.courses) + CalculateGPA(s2.courses)) / 2.0
  {
    var s1 := Semester("s1", "Semester 1", [Course("1", "x", 3, A)]);
    var s2 := Semester("s2", "Semester 2", [Course("2", "y", 10, D)]);
    Round2Exact(500);
    Round2Exact(200);
    assert TotalGradePoints(s1.courses) == 15.0;
    assert TotalGradePoints(s2.courses) == 20.0;
    assert 15.0 / 3.0 == 500.0 / 100.0;
    assert 20.0 / 10.0 == 200.0 / 100.0;
    assert [s1, s2][1..] == [s2];
    assert [s2][1..] == [];
    assert Flatten([s2]) == s2.courses + [];
    assert Flatten([s1, s2]) == s1.courses + s2.courses;
    var all := s1.courses + s2.courses;
    TotalGradePointsAppend(s1.courses, s2.courses);
    TotalUnitsAppend(s1.courses, s2.courses);
    assert (35.0 / 13.0 * 100.0 + 0.5).Floor == 269;
  }
}
