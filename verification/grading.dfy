/**
 * Grading scales: percentage ranges mapped to a letter and a point value,
 * the built-in 5.0 scale, and the converter between the letter,
 * percentage and points representations of one grade.
 *
 * The converter normalises every input to a percentage first (a range
 * midpoint stands for a letter or a point value) and then projects that
 * percentage onto the requested format. Lookups take the first matching
 * range in array order and fall back to fixed defaults when nothing
 * matches.
 */
module Grading {
  import opened Wrappers

  /** One closed percentage interval [min, max] with its letter and points. */
  datatype GradeRange = GradeRange(min: real, max: real, letter: string, points: real)

  /** A named scale; the optional category weights of the record are never read and are not modelled. */
  datatype GradingSystem = GradingSystem(id: string, name: string, maxGPA: real, grades: seq<GradeRange>)

  datatype GradeFormat = LetterFormat | PercentageFormat | PointsFormat

  /** A grade value as handed to the converter: text or a number. */
  datatype GradeValue = Text(text: string) | Numeric(number: real)

  /**
   * A converted value: a letter, a finite number, or the not-a-number
   * value that JavaScript's `Number` produces from unparsable text.
   */
  datatype Converted = LetterOut(letter: string) | NumberOut(number: real) | NotANumber

  const DefaultGradingSystem: GradingSystem :=
    GradingSystem("default", "Standard 5.0 Scale", 5.0, [
      GradeRange(70.0, 100.0, "A", 5.0),
      GradeRange(60.0, 69.99, "B", 4.0),
      GradeRange(50.0, 59.99, "C", 3.0),
      GradeRange(45.0, 49.99, "D", 2.0),
      GradeRange(40.0, 44.99, "E", 1.0),
      GradeRange(0.0, 39.99, "F", 0.0)
    ])

  /** The closed interval of `g` contains the percentage `p`. */
  predicate InRange(g: GradeRange, p: real)
  {
    g.min <= p <= g.max
  }

  /** The representative percentage of a range: the middle of its interval. */
  function Midpoint(g: GradeRange): real
  {
    (g.max + g.min) / 2.0
  }

  /** Index of the first range carrying `letter`. */
  function FindByLetter(grades: seq<GradeRange>, letter: string): (r: Option<nat>)
    ensures r.Some? ==> r.value < |grades| && grades[r.value].letter == letter
    ensures r.Some? ==> forall k :: 0 <= k < r.value ==> grades[k].letter != letter
    ensures r.None? ==> forall k :: 0 <= k < |grades| ==> grades[k].letter != letter
  {
    if |grades| == 0 then None
    else if grades[0].letter == letter then Some(0)
    else
      match FindByLetter(grades[1..], letter)
      case None => None
      case Some(i) => Some(i + 1)
  }

  /** Index of the first range whose points equal `points`. */
  function FindByPoints(grades: seq<GradeRange>, points: real): (r: Option<nat>)
    ensures r.Some? ==> r.value < |grades| && grades[r.value].points == points
    ensures r.Some? ==> forall k :: 0 <= k < r.value ==> grades[k].points != points
    ensures r.None? ==> forall k :: 0 <= k < |grades| ==> grades[k].points != points
  {
    if |grades| == 0 then None
    else if grades[0].points == points then Some(0)
    else
      match FindByPoints(grades[1..], points)
      case None => None
      case Some(i) => Some(i + 1)
  }

  /** Index of the first range whose interval contains `p`. */
  function FindContaining(grades: seq<GradeRange>, p: real): (r: Option<nat>)
    ensures r.Some? ==> r.value < |grades| && InRange(grades[r.value], p)
    ensures r.Some? ==> forall k :: 0 <= k < r.value ==> !InRange(grades[k], p)
    ensures r.None? ==> forall k :: 0 <= k < |grades| ==> !InRange(grades[k], p)
  {
    if |grades| == 0 then None
    else if InRange(grades[0], p) then Some(0)
    else
      match FindContaining(grades[1..], p)
      case None => None
      case Some(i) => Some(i + 1)
  }

  /** The midpoint of the range at index `found`, or 0 when the lookup missed. */
  function MidpointOr0(grades: seq<GradeRange>, found: Option<nat>): real
    requires found.Some? ==> found.value < |grades|
  {
    if found.Some? then Midpoint(grades[found.value]) else 0.0
  }

  /**
   * Phase one: the percentage a value stands for. `parse` is JavaScript's
   * `Number` applied to text, `None` standing for not-a-number. `None` in
   * the result is a not-a-number percentage.
   */
  function ToPercentage(value: GradeValue, from: GradeFormat, grades: seq<GradeRange>,
                        parse: string -> Option<real>): (r: Option<real>)
    ensures from == PercentageFormat && value.Numeric? ==> r == Some(value.number)
    ensures from == LetterFormat && value.Text? ==>
      r == Some(MidpointOr0(grades, FindByLetter(grades, value.text)))
    ensures from == LetterFormat && value.Numeric? ==> r == Some(0.0)
    ensures from == PointsFormat && value.Numeric? ==>
      r == Some(MidpointOr0(grades, FindByPoints(grades, value.number)))
    ensures from == PercentageFormat && value.Text? ==> r == parse(value.text)
    ensures from == PointsFormat && value.Text? ==>
      r == Some(if parse(value.text).None? then 0.0
                else MidpointOr0(grades, FindByPoints(grades, parse(value.text).value)))
    ensures from != PercentageFormat ==> r.Some?
  {
    match from
    case PercentageFormat =>
      (match value
       case Numeric(x) => Some(x)
       case Text(t) => parse(t))
    case LetterFormat =>
      // A number never equals a letter under strict equality.
      (match value
       case Text(t) => Some(MidpointOr0(grades, FindByLetter(grades, t)))
       case Numeric(_) => Some(0.0))
    case PointsFormat =>
      var n := match value case Numeric(x) => Some(x) case Text(t) => parse(t);
      // Not-a-number equals no range's points, so the lookup misses.
      if n.None? then Some(0.0)
      else Some(MidpointOr0(grades, FindByPoints(grades, n.value)))
  }
  /**
   * Under the percentage and points formats, text is read as the number
   * `Number` gives for it: a numeric text converts like that number.
   */
  lemma TextReadsAsNumber(t: string, x: real, from: GradeFormat, grades: seq<GradeRange>,
                          parse: string -> Option<real>)
    requires from != LetterFormat
    requires parse(t) == Some(x)
    ensures ToPercentage(Text(t), from, grades, parse) == ToPercentage(Numeric(x), from, grades, parse)
  {
  }

  /** Under the points format, text that is not a number finds no range and converts to 0. */
  lemma NotANumberPointsIsZero(t: string, grades: seq<GradeRange>, parse: string -> Option<real>)
    requires parse(t).None?
    ensures ToPercentage(Text(t), PointsFormat, grades, parse) == Some(0.0)
  {
  }


  /**
   * Phase two: project a percentage onto the target format. A
   * not-a-number percentage lies in no range.
   */
  function FromPercentage(pct: Option<real>, to: GradeFormat, grades: seq<GradeRange>): (r: Converted)
    ensures to == PercentageFormat ==> (if pct.Some? then r == NumberOut(pct.value) else r == NotANumber)
    ensures to == LetterFormat ==> r.LetterOut?
    ensures to == PointsFormat ==> r.NumberOut?
    ensures to == LetterFormat && pct.Some? && FindContaining(grades, pct.value).Some? ==>
      r.letter == grades[FindContaining(grades, pct.value).value].letter
    ensures to == LetterFormat && (pct.None? || FindContaining(grades, pct.value).None?) ==>
      r.letter == "F"
    ensures to == PointsFormat && pct.Some? && FindContaining(grades, pct.value).Some? ==>
      r.number == grades[FindContaining(grades, pct.value).value].points
    ensures to == PointsFormat && (pct.None? || FindContaining(grades, pct.value).None?) ==>
      r.number == 0.0
  {
    match to
    case PercentageFormat =>
      if pct.Some? then NumberOut(pct.value) else NotANumber
    case LetterFormat =>
      var found := if pct.Some? then FindContaining(grades, pct.value) else None;
      if found.Some? then LetterOut(grades[found.value].letter) else LetterOut("F")
    case PointsFormat =>
      var found := if pct.Some? then FindContaining(grades, pct.value) else None;
      if found.Some? then NumberOut(grades[found.value].points) else NumberOut(0.0)
  }

  /** Convert one grade value between two formats under `system`. */
  function ConvertGrade(value: GradeValue, from: GradeFormat, to: GradeFormat, system: GradingSystem,
                        parse: string -> Option<real>): (r: Converted)
    ensures from == PercentageFormat && to == PercentageFormat && value.Numeric? ==>
      r == NumberOut(value.number)
    ensures to == LetterFormat ==> r.LetterOut?
    ensures to == PointsFormat ==> r.NumberOut?
    ensures from != PercentageFormat ==> r != NotANumber
  {
    FromPercentage(ToPercentage(value, from, system.grades, parse), to, system.grades)
  }

  // ---------------------------------------------------------------------
  // Lemmas
  // ---------------------------------------------------------------------

  /** A range is well formed when its lower bound does not exceed its upper bound. */
  predicate WellFormed(g: GradeRange)
  {
    g.min <= g.max
  }

  /** The closed intervals of `a` and `b` share a point. */
  predicate Intersect(a: GradeRange, b: GradeRange)
  {
    a.min <= b.max && a.max >= b.min
  }

  /** No two ranges at different positions share a point. */
  predicate PairwiseDisjoint(grades: seq<GradeRange>)
  {
    forall i, j :: 0 <= i < j < |grades| ==> !Intersect(grades[i], grades[j])
  }

  /** The built-in scale: maximum 5.0 and its six ranges. */
  lemma DefaultSystemShape()
    ensures DefaultGradingSystem.maxGPA == 5.0
    ensures |DefaultGradingSystem.grades| == 6
    ensures forall i :: 0 <= i < 6 ==> WellFormed(DefaultGradingSystem.grades[i])
    ensures PairwiseDisjoint(DefaultGradingSystem.grades)
    ensures forall i :: 0 <= i < 5 ==>
      DefaultGradingSystem.grades[i].min > DefaultGradingSystem.grades[i + 1].max
  {
  }

  /** Percentage to percentage is the identity. */
  lemma PercentageIdentity(x: real, system: GradingSystem, parse: string -> Option<real>)
    ensures ConvertGrade(Numeric(x), PercentageFormat, PercentageFormat, system, parse) == NumberOut(x)
  {
  }

  /**
   * Letter to percentage to letter gives the letter back whenever the
   * ranges are well formed and pairwise disjoint and the letter occurs.
   */
  lemma LetterRoundTrip(system: GradingSystem, letter: string, parse: string -> Option<real>)
    requires forall i :: 0 <= i < |system.grades| ==> WellFormed(system.grades[i])
    requires PairwiseDisjoint(system.grades)
    requires exists i :: 0 <= i < |system.grades| && system.grades[i].letter == letter
    ensures var pct := ConvertGrade(Text(letter), LetterFormat, PercentageFormat, system, parse);
            pct.NumberOut? &&
            ConvertGrade(Numeric(pct.number), PercentageFormat, LetterFormat, system, parse) == LetterOut(letter)
  {
    var grades := system.grades;
    var i := FindByLetter(grades, letter).value;
    var m := Midpoint(grades[i]);
    assert InRange(grades[i], m);
    var found := FindContaining(grades, m);
    assert found.Some?;
    if found.value < i {
      assert Intersect(grades[found.value], grades[i]);
      assert false;
    }
  }

  /**
   * Percentage to letter is stable: a percentage inside some range, turned
   * into its letter and back into a percentage, maps to the same letter again.
   */
  lemma PercentageLetterStable(system: GradingSystem, p: real, parse: string -> Option<real>)
    requires forall i :: 0 <= i < |system.grades| ==> WellFormed(system.grades[i])
    requires PairwiseDisjoint(system.grades)
    requires exists i :: 0 <= i < |system.grades| && InRange(system.grades[i], p)
    ensures var l := ConvertGrade(Numeric(p), PercentageFormat, LetterFormat, system, parse);
            var back := ConvertGrade(Text(l.letter), LetterFormat, PercentageFormat, system, parse);
            back.NumberOut? &&
            ConvertGrade(Numeric(back.number), PercentageFormat, LetterFormat, system, parse) == l
  {
    var k :| 0 <= k < |system.grades| && InRange(system.grades[k], p);
    var found := FindContaining(system.grades, p);
    assert found.Some?;
    LetterRoundTrip(system, system.grades[found.value].letter, parse);
  }

  /** Default letters convert to their range midpoints. */
  lemma DefaultLetterRoundTrip(parse: string -> Option<real>)
    ensures ConvertGrade(Text("A"), LetterFormat, PercentageFormat, DefaultGradingSystem, parse) == NumberOut(85.0)
    ensures ConvertGrade(Text("B"), LetterFormat, PercentageFormat, DefaultGradingSystem, parse) == NumberOut(64.995)
    ensures ConvertGrade(Text("F"), LetterFormat, PercentageFormat, DefaultGradingSystem, parse) == NumberOut(19.995)
  {
    var g := DefaultGradingSystem.grades;
    assert FindByLetter(g, "A") == Some(0);
    assert FindByLetter(g, "B") == Some(1);
    assert FindByLetter(g, "F") == Some(5);
  }

  /** Letter "B" converts to 4 points, and a letter the scale does not carry to percentage 0. */
  lemma DefaultLetterLookups(parse: string -> Option<real>)
    ensures ConvertGrade(Text("B"), LetterFormat, PointsFormat, DefaultGradingSystem, parse) == NumberOut(4.0)
    ensures ConvertGrade(Text("Z"), LetterFormat, PercentageFormat, DefaultGradingSystem, parse) == NumberOut(0.0)
  {
    var g := DefaultGradingSystem.grades;
    assert FindByLetter(g, "B") == Some(1);
    assert FindContaining(g, 64.995) == Some(1);
    assert FindByLetter(g, "Z") == None;
  }

  /**
   * The default scale leaves the sliver between 69.99 and 70 uncovered:
   * 69.995 percent lies in no range and falls back to letter "F" and 0 points.
   */
  lemma DefaultScaleSliver(parse: string -> Option<real>)
    ensures ConvertGrade(Numeric(69.995), PercentageFormat, LetterFormat, DefaultGradingSystem, parse) == LetterOut("F")
    ensures ConvertGrade(Numeric(69.995), PercentageFormat, PointsFormat, DefaultGradingSystem, parse) == NumberOut(0.0)
    ensures ConvertGrade(Numeric(70.0), PercentageFormat, LetterFormat, DefaultGradingSystem, parse) == LetterOut("A")
  {
  }
}
