/**
 * The grading-system manager: a small state machine over the active scale
 * and an editing flag. "Customize" opens the editor, field edits change
 * the active scale in place, "Save" validates it and publishes it only
 * when the validator reports nothing, and "Cancel" closes the editor
 * without undoing edits.
 *
 * The validator sorts the ranges of the scale it is given in place, and
 * the manager hands it the active scale itself. So after "Save" the
 * active ranges are in descending order of lower bound, whether or not the
 * save succeeded.
 */
module GradingEditor {
  import opened Grading
  import opened Validation
  import opened Prediction

  datatype EditorState = EditorState(active: GradingSystem, editing: bool)

  /** A new value for one field of one range. */
  datatype RangeEdit =
    | SetLetter(letter: string)
    | SetMin(min: real)
    | SetMax(max: real)
    | SetPoints(points: real)

  datatype EditorEvent =
    | Customize
    | EditName(name: string)
    | EditMaxGPA(maxGPA: real)
    | EditRange(index: nat, edit: RangeEdit)
    | Save
    | Cancel

  /**
   * The result of one event: the new state, the scales handed to
   * `onSystemChange`, and the errors shown to the user.
   */
  datatype Outcome = Outcome(state: EditorState, published: seq<GradingSystem>, shown: seq<ValidationError>)

  /** The manager starts on the built-in scale, not editing. */
  const InitialEditor: EditorState := EditorState(DefaultGradingSystem, false)

  /**
   * The events whose controls are on screen: "Customize" outside the
   * editor; field edits (for a displayed range), "Save" and "Cancel" inside it.
   */
  predicate Enabled(st: EditorState, ev: EditorEvent)
  {
    match ev
    case Customize => !st.editing
    case EditRange(i, _) => st.editing && i < |st.active.grades|
    case _ => st.editing
  }

  /** `{ ...grade, [field]: value }` for one range. */
  function ApplyRangeEdit(g: GradeRange, e: RangeEdit): (r: GradeRange)
    ensures e.SetLetter? ==> r.letter == e.letter && r.min == g.min && r.max == g.max && r.points == g.points
    ensures e.SetMin? ==> r.min == e.min && r.letter == g.letter && r.max == g.max && r.points == g.points
    ensures e.SetMax? ==> r.max == e.max && r.letter == g.letter && r.min == g.min && r.points == g.points
    ensures e.SetPoints? ==> r.points == e.points && r.letter == g.letter && r.min == g.min && r.max == g.max
  {
    match e
    case SetLetter(v) => g.(letter := v)
    case SetMin(v) => g.(min := v)
    case SetMax(v) => g.(max := v)
    case SetPoints(v) => g.(points := v)
  }

  /** "Save": validate the active scale and publish it when there is no error. */
  function HandleSave(st: EditorState): (o: Outcome)
    ensures o.shown == ValidationErrors(st.active.grades)
    ensures o.state.active == st.active.(grades := SortByMinDesc(st.active.grades))
    ensures o.shown != [] ==> o.published == [] && o.state.editing == st.editing
    ensures o.shown == [] ==> o.published == [o.state.active] && !o.state.editing
  {
    var errors := ValidationErrors(st.active.grades);
    var validated := st.active.(grades := SortByMinDesc(st.active.grades));
    if |errors| > 0 then Outcome(st.(active := validated), [], errors)
    else Outcome(EditorState(validated, false), [validated], [])
  }

  /** One event. */
  function Step(st: EditorState, ev: EditorEvent): (o: Outcome)
    requires Enabled(st, ev)
    ensures !ev.Save? ==> o.published == [] && o.shown == []
    ensures ev.Customize? ==> o.state == st.(editing := true)
    ensures ev.Cancel? ==> o.state == st.(editing := false)
    ensures ev.EditName? ==> o.state == st.(active := st.active.(name := ev.name))
    ensures ev.EditMaxGPA? ==> o.state == st.(active := st.active.(maxGPA := ev.maxGPA))
    ensures ev.EditRange? ==>
      && o.state.editing == st.editing
      && o.state.active.name == st.active.name && o.state.active.maxGPA == st.active.maxGPA
      && |o.state.active.grades| == |st.active.grades|
      && o.state.active.grades[ev.index] == ApplyRangeEdit(st.active.grades[ev.index], ev.edit)
      && forall k :: 0 <= k < |st.active.grades| && k != ev.index ==>
           o.state.active.grades[k] == st.active.grades[k]
    ensures ev.Save? ==> o == HandleSave(st)
  {
    match ev
    case Customize => Outcome(st.(editing := true), [], [])
    case EditName(n) => Outcome(st.(active := st.active.(name := n)), [], [])
    case EditMaxGPA(x) => Outcome(st.(active := st.active.(maxGPA := x)), [], [])
    case EditRange(i, e) =>
      var grades := st.active.grades[i := ApplyRangeEdit(st.active.grades[i], e)];
      Outcome(st.(active := st.active.(grades := grades)), [], [])
    case Save => HandleSave(st)
    case Cancel => Outcome(st.(editing := false), [], [])
  }

  /**
   * The prediction container passes its state setter as `onSystemChange`:
   * each published scale becomes the container's scale, the last one winning.
   */
  function Deliver(pst: PredictionState, published: seq<GradingSystem>): (r: PredictionState)
    ensures r.targetCGPA == pst.targetCGPA && r.projectedCGPA == pst.projectedCGPA
    ensures published == [] ==> r == pst
    ensures published != [] ==> r.gradingSystem == published[|published| - 1]
  {
    if published == [] then pst else pst.(gradingSystem := published[|published| - 1])
  }

  /** The container holds the built-in scale or one the validator accepted. */
  predicate ContainerScaleOk(pst: PredictionState)
  {
    pst.gradingSystem == DefaultGradingSystem || ValidationErrors(pst.gradingSystem.grades) == []
  }

  // ---------------------------------------------------------------------
  // Lemmas
  // ---------------------------------------------------------------------

  /** The manager only ever publishes scales that the validator accepts. */
  lemma PublishedScalesAreValid(st: EditorState, ev: EditorEvent)
    requires Enabled(st, ev)
    ensures forall s :: s in Step(st, ev).published ==> ValidationErrors(s.grades) == []
  {
    if ev.Save? && ValidationErrors(st.active.grades) == [] {
      SortedScaleAccepted(st.active.grades);
    }
  }

  /** A scale the validator accepts is still accepted after the validator has sorted it. */
  lemma SortedScaleAccepted(grades: seq<GradeRange>)
    requires ValidationErrors(grades) == []
    ensures ValidationErrors(SortByMinDesc(grades)) == []
  {
    var t := SortByMinDesc(grades);
    ValidationErrorsEmptyIff(grades);
    ValidationErrorsEmptyIff(t);
    SortKeepsDescending(t);
    NoOverlapsPermutation(grades, t);
  }

  /**
   * Starting from the initial container state, no sequence of editor
   * events gives the container a scale other than the built-in one or a
   * scale the validator accepts.
   */
  lemma ContainerScaleStaysValid(st: EditorState, pst: PredictionState, ev: EditorEvent)
    requires Enabled(st, ev)
    requires ContainerScaleOk(pst)
    ensures ContainerScaleOk(Deliver(pst, Step(st, ev).published))
  {
    PublishedScalesAreValid(st, ev);
    var published := Step(st, ev).published;
    if published != [] {
      assert published[|published| - 1] in published;
    }
  }

  /** The container's first state satisfies the scale invariant. */
  lemma InitialContainerScaleOk(current: seq<Gpa.Semester>)
    ensures ContainerScaleOk(InitialState(current))
  {
  }

  /** Overlap-freedom does not depend on the order of the ranges. */
  lemma NoOverlapsPermutation(s: seq<GradeRange>, t: seq<GradeRange>)
    requires multiset(t) == multiset(s)
    requires NoOverlaps(s)
    ensures NoOverlaps(t)
  {
    forall a, b | 0 <= a < b < |t|
      ensures !Overlaps(t[a], t[b])
    {
      DistinctOrigins(s, t, a, b);
      var p, q :| 0 <= p < |s| && 0 <= q < |s| && p != q && s[p] == t[a] && s[q] == t[b];
      if p < q {
        assert !Overlaps(s[p], s[q]);
      } else {
        assert !Overlaps(s[q], s[p]);
      }
    }
  }

  /** A scale with two or more well-formed ranges can never be saved. */
  lemma SaveAlwaysFails(st: EditorState)
    requires st.editing
    requires |st.active.grades| >= 2
    requires forall i :: 0 <= i < |st.active.grades| ==> WellFormed(st.active.grades[i])
    ensures Step(st, Save).published == []
    ensures Step(st, Save).state.editing
    ensures Step(st, Save).shown != []
  {
    EveryScaleRejected(st.active.grades);
  }

  /** Customize then Save on the built-in scale is refused with its five gap errors. */
  lemma DefaultCannotBeSaved()
    ensures var open := Step(InitialEditor, Customize).state;
            var saved := Step(open, Save);
            && saved.published == []
            && saved.state.editing
            && saved.shown == [GapError("A", "B"), GapError("B", "C"), GapError("C", "D"),
                               GapError("D", "E"), GapError("E", "F")]
  {
    DefaultSystemErrors();
  }

  /** Saving keeps the same ranges, only re-ordered. */
  lemma SaveKeepsRanges(st: EditorState)
    requires st.editing
    ensures multiset(Step(st, Save).state.active.grades) == multiset(st.active.grades)
  {
  }

  /** Cancel after edits keeps the edits: nothing is reverted. */
  lemma CancelKeepsEdits(st: EditorState, name: string)
    requires st.editing
    ensures var edited := Step(st, EditName(name)).state;
            Step(edited, Cancel).state.active.name == name && !Step(edited, Cancel).state.editing
  {
  }
}
