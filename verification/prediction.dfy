/**
 * The grade-prediction screen: the future-course editor, the target
 * input, the projection of the CGPA over actual plus hypothetical courses,
 * and the comparison of the projection with the target.
 */

/** The future-course editor: a list of hypothetical courses edited in place. */
module FutureCourses {
  import opened Gpa
  import opened Courses

  /** Edits the editor offers; ids of new rows are supplied by the caller. */
  datatype EditorEvent =
    | AddRow(newId: string)
    | UpdateRow(id: string, edit: CourseEdit)
    | RemoveRow(id: string)

  /** The editor list after one event. */
  function Step(list: seq<Course>, ev: EditorEvent): (r: seq<Course>)
    ensures ev.AddRow? ==> |r| == |list| + 1 && r[..|list|] == list && r[|list|] == NewCourse(ev.newId)
    ensures ev.UpdateRow? ==> |r| == |list|
    ensures ev.UpdateRow? ==> forall k :: 0 <= k < |list| && list[k].id != ev.id ==> r[k] == list[k]
    ensures ev.UpdateRow? ==> forall k :: 0 <= k < |list| && list[k].id == ev.id ==>
      Holds(r[k], ev.edit) && forall f :: f != FieldOf(ev.edit) ==> SameField(r[k], list[k], f)
    ensures ev.RemoveRow? ==> forall c :: c in r <==> c in list && c.id != ev.id
  {
    match ev
    case AddRow(newId) => AppendCourse(list, newId)
    case UpdateRow(id, edit) => UpdateById(list, id, edit)
    case RemoveRow(id) => RemoveById(list, id)
  }

  /** "Simulate" hands the current list over as it is. */
  function Simulate(list: seq<Course>): (emitted: seq<Course>)
    ensures emitted == list
  {
    list
  }
}

/** The target input: a typed target is accepted only within [0, 4.0]. */
module TargetInput {

  /**
   * The calls made to `onTargetSet` for a typed target: none when the
   * target is below 0 or above 4.0, otherwise exactly one with the target.
   */
  function HandleTargetChange(target: real): (calls: seq<real>)
    ensures |calls| <= 1
    ensures calls == [] <==> target < 0.0 || target > 4.0
    ensures calls != [] ==> calls[0] == target
  {
    if target < 0.0 || target > 4.0 then [] else [target]
  }

  /** The stored target after a typed target: the last accepted value. */
  function ApplyTarget(current: real, typed: real): (r: real)
    ensures 0.0 <= typed <= 4.0 ==> r == typed
    ensures typed < 0.0 || typed > 4.0 ==> r == current
  {
    var calls := HandleTargetChange(typed);
    if calls == [] then current else calls[0]
  }

  /** The bounds are inclusive; 5.1 and -0.1 are rejected. */
  lemma TargetBoundaries()
    ensures HandleTargetChange(0.0) == [0.0]
    ensures HandleTargetChange(4.0) == [4.0]
    ensures HandleTargetChange(5.1) == []
    ensures HandleTargetChange(-0.1) == []
  {
  }
}

/** The results panel: progress towards the target and whether it is reached. */
module SimulationResults {

  /** A JavaScript division result: finite, an infinity, or not-a-number. */
  datatype Quotient = Finite(value: real) | PlusInfinity | MinusInfinity | NotANumber

  /** `a / b` with JavaScript's results for a zero divisor. */
  function Divide(a: real, b: real): (q: Quotient)
    ensures b != 0.0 ==> q.Finite? && q.value * b == a
    ensures b == 0.0 ==> !q.Finite?
    ensures b == 0.0 ==> (q == NotANumber <==> a == 0.0)
  {
    if b != 0.0 then Finite(a / b)
    else if a > 0.0 then PlusInfinity
    else if a < 0.0 then MinusInfinity
    else NotANumber
  }

  /** Multiplication of a quotient by 100. */
  function Percent(q: Quotient): (r: Quotient)
    ensures q.Finite? ==> r == Finite(q.value * 100.0)
    ensures !q.Finite? ==> r == q
  {
    match q
    case Finite(v) => Finite(v * 100.0)
    case _ => q
  }

  datatype Results = Results(currentCGPA: real, targetCGPA: real, projectedCGPA: real,
                             progress: Quotient, isAchievable: bool)

  /** What the panel computes from its three inputs. */
  function ComputeResults(currentCGPA: real, targetCGPA: real, projectedCGPA: real): (r: Results)
    ensures r.isAchievable <==> projectedCGPA >= targetCGPA
    ensures targetCGPA != 0.0 ==> r.progress.Finite? && r.progress.value * targetCGPA == projectedCGPA * 100.0
    ensures r.currentCGPA == currentCGPA && r.targetCGPA == targetCGPA && r.projectedCGPA == projectedCGPA
  {
    var progress := Percent(Divide(projectedCGPA, targetCGPA));
    var isAchievable := projectedCGPA >= targetCGPA;
    Results(currentCGPA, targetCGPA, projectedCGPA, progress, isAchievable)
  }

  /** For a positive target, reaching it is the same as a progress of at least 100. */
  lemma AchievableIffFullProgress(currentCGPA: real, targetCGPA: real, projectedCGPA: real)
    requires targetCGPA > 0.0
    ensures var r := ComputeResults(currentCGPA, targetCGPA, projectedCGPA);
            r.isAchievable <==> r.progress.Finite? && r.progress.value >= 100.0
  {
    var r := ComputeResults(currentCGPA, targetCGPA, projectedCGPA);
    var v := r.progress.value;
    assert v * targetCGPA == projectedCGPA * 100.0;
    if v >= 100.0 {
      assert v * targetCGPA >= 100.0 * targetCGPA;
    } else {
      assert v * targetCGPA < 100.0 * targetCGPA;
    }
  }

  /** A target of 0 (which the input accepts) gives a non-finite progress. */
  lemma ZeroTargetProgress(currentCGPA: real, projectedCGPA: real)
    ensures var r := ComputeResults(currentCGPA, 0.0, projectedCGPA);
            !r.progress.Finite? && (r.progress == NotANumber <==> projectedCGPA == 0.0)
            && (r.isAchievable <==> projectedCGPA >= 0.0)
  {
  }

  /** The current CGPA only feeds the display, never progress or achievability. */
  lemma CurrentCgpaIrrelevant(c1: real, c2: real, targetCGPA: real, projectedCGPA: real)
    ensures ComputeResults(c1, targetCGPA, projectedCGPA).progress == ComputeResults(c2, targetCGPA, projectedCGPA).progress
    ensures ComputeResults(c1, targetCGPA, projectedCGPA).isAchievable == ComputeResults(c2, targetCGPA, projectedCGPA).isAchievable
  {
  }
}

/** The prediction container: state, projection and the wiring of its children. */
module Prediction {
  import opened Gpa
  import opened Grading
  import TargetInput

  /** The container's state: target, projection and the scale last saved by the manager. */
  datatype PredictionState = PredictionState(targetCGPA: real, projectedCGPA: real, gradingSystem: GradingSystem)

  /** The CGPA over all current courses followed by the hypothetical ones, as one synthetic semester. */
  function ProjectCGPA(current: seq<Semester>, future: seq<Course>): (r: real)
    ensures r == CalculateGPA(Flatten(current) + future)
  {
    var allCourses := Flatten(current) + future;
    FlattenSingle(Semester("future", "Future", allCourses));
    CalculateCGPA([Semester("future", "Future", allCourses)])
  }

  /** The state on first render: target 5.0, projection equal to the current CGPA, the built-in scale. */
  function InitialState(current: seq<Semester>): (st: PredictionState)
    ensures st.targetCGPA == 5.0
    ensures st.projectedCGPA == CalculateCGPA(current)
    ensures st.gradingSystem == DefaultGradingSystem
  {
    PredictionState(5.0, CalculateCGPA(current), DefaultGradingSystem)
  }

  /** A simulation run replaces the projection only. */
  function HandleSimulation(st: PredictionState, current: seq<Semester>, future: seq<Course>): (st': PredictionState)
    ensures st'.projectedCGPA == ProjectCGPA(current, future)
    ensures st'.targetCGPA == st.targetCGPA && st'.gradingSystem == st.gradingSystem
  {
    st.(projectedCGPA := ProjectCGPA(current, future))
  }

  /** A typed target reaches the state only through the range check. */
  function HandleTarget(st: PredictionState, typed: real): (st': PredictionState)
    ensures 0.0 <= typed <= 4.0 ==> st' == st.(targetCGPA := typed)
    ensures typed < 0.0 || typed > 4.0 ==> st' == st
  {
    st.(targetCGPA := TargetInput.ApplyTarget(st.targetCGPA, typed))
  }

  /** A one-semester list flattens to that semester's courses. */
  lemma FlattenSingle(s: Semester)
    ensures Flatten([s]) == s.courses
  {
    assert [s][1..] == [];
    assert Flatten([s]) == s.courses + [];
  }

  /** With no hypothetical courses the projection is the current CGPA. */
  lemma ProjectionWithoutFuture(current: seq<Semester>)
    ensures ProjectCGPA(current, []) == CalculateCGPA(current)
  {
    assert Flatten(current) + [] == Flatten(current);
  }

  /** The projection ignores how the current courses are split into semesters. */
  lemma ProjectionRegroupingInvariant(s1: seq<Semester>, s2: seq<Semester>, future: seq<Course>)
    requires Flatten(s1) == Flatten(s2)
    ensures ProjectCGPA(s1, future) == ProjectCGPA(s2, future)
  {
  }

  /** The projection is the CGPA of the current semesters plus one more holding the future courses. */
  lemma ProjectionIsCgpaWithExtraSemester(current: seq<Semester>, future: seq<Course>)
    ensures ProjectCGPA(current, future) == CalculateCGPA(current + [Semester("future", "Future", future)])
  {
    FlattenAppend(current, [Semester("future", "Future", future)]);
    FlattenSingle(Semester("future", "Future", future));
  }

  /**
   * The initial target 5.0 is outside what the input accepts: after a
   * typed target the stored target is 5.0 only if it already was and the
   * typed value was rejected.
   */
  lemma InitialTargetUnreachable(st: PredictionState, typed: real)
    ensures HandleTarget(st, typed).targetCGPA == 5.0 <==>
      st.targetCGPA == 5.0 && (typed < 0.0 || typed > 4.0)
  {
  }
}
