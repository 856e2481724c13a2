/**
 * The grading-scale validator. It reports one overlap error per pair of
 * ranges (earlier, later) whose closed intervals share a point. It then
 * sorts the ranges by descending lower bound, in place and stably, and
 * reports one gap error per adjacent pair whose boundary is not shared
 * (upper range's min differs from the lower range's max).
 *
 * The two rules cannot both be met. If a boundary is shared, the two
 * ranges overlap. If it is not shared, there is a gap. So every scale with
 * two or more well-formed ranges is rejected, the built-in one included.
 */
module Validation {
  import opened Grading

  datatype ValidationError =
    | OverlapError(first: string, second: string)
    | GapError(upper: string, lower: string)

  const OverlapPrefix: string := "Overlapping grade ranges detected between "
  const GapPrefix: string := "Gap detected between grade ranges "

  /** The text shown to the user for one error: a fixed prefix, then the two letters joined by " and ". */
  function Message(e: ValidationError): (m: string)
    ensures e.OverlapError? ==> m == OverlapPrefix + e.first + " and " + e.second
    ensures e.GapError? ==> m == GapPrefix + e.upper + " and " + e.lower
    ensures m[0] == (if e.OverlapError? then 'O' else 'G')
  {
    assert OverlapPrefix[0] == 'O' && GapPrefix[0] == 'G';
    match e
    case OverlapError(a, b) => OverlapPrefix + a + " and " + b
    case GapError(a, b) => GapPrefix + a + " and " + b
  }

  /** The overlap test as written: either ordering of the two intervals intersects. */
  predicate Overlaps(a: GradeRange, b: GradeRange)
  {
    (a.min <= b.max && a.max >= b.min) || (b.min <= a.max && b.max >= a.min)
  }

  /**
   * The two disjuncts of the test are the same condition, so two ranges
   * overlap exactly when their closed intervals share a point, whichever
   * comes first.
   */
  lemma OverlapsIsIntersect(a: GradeRange, b: GradeRange)
    ensures Overlaps(a, b) <==> Intersect(a, b)
    ensures Overlaps(a, b) <==> Overlaps(b, a)
  {
  }

  /** No overlap message reads like a gap message. */
  lemma MessageKindsDiffer(a: string, b: string, c: string, d: string)
    ensures Message(OverlapError(a, b)) != Message(GapError(c, d))
  {
    assert Message(OverlapError(a, b))[0] != Message(GapError(c, d))[0];
  }

  // ---------------------------------------------------------------------
  // Stable sort by descending lower bound
  // ---------------------------------------------------------------------

  /** Every earlier range has a lower bound at least that of every later one. */
  predicate DescendingByMin(s: seq<GradeRange>)
  {
    forall i, j :: 0 <= i < j < |s| ==> s[i].min >= s[j].min
  }

  /** Insert `x` into a descending sequence after every range whose min is at least x's. */
  function InsertByMin(t: seq<GradeRange>, x: GradeRange): seq<GradeRange>
  {
    if |t| == 0 then [x]
    else if t[|t| - 1].min >= x.min then t + [x]
    else InsertByMin(t[..|t| - 1], x) + [t[|t| - 1]]
  }

  /** Insertion adds exactly `x`. */
  lemma {:induction false} InsertElements(t: seq<GradeRange>, x: GradeRange)
    ensures |InsertByMin(t, x)| == |t| + 1
    ensures multiset(InsertByMin(t, x)) == multiset(t) + multiset{x}
  {
    if |t| > 0 && t[|t| - 1].min < x.min {
      var front := t[..|t| - 1];
      assert t == front + [t[|t| - 1]];
      InsertElements(front, x);
    }
  }

  /** Insertion keeps a sequence descending by lower bound. */
  lemma {:induction false} InsertDescending(t: seq<GradeRange>, x: GradeRange)
    requires DescendingByMin(t)
    ensures DescendingByMin(InsertByMin(t, x))
  {
    if |t| > 0 && t[|t| - 1].min < x.min {
      var front := t[..|t| - 1];
      var last := t[|t| - 1];
      assert t == front + [last];
      assert DescendingByMin(front);
      InsertDescending(front, x);
      InsertElements(front, x);
      var ins := InsertByMin(front, x);
      forall k | 0 <= k < |ins|
        ensures ins[k].min >= last.min
      {
        assert ins[k] in multiset(ins);
        if ins[k] != x {
          assert ins[k] in multiset(front);
          var p :| 0 <= p < |front| && front[p] == ins[k];
          assert t[p] == front[p];
        }
      }
    }
  }

  /** Stable sort by descending `min`, the order the source's comparator produces. */
  function SortByMinDesc(s: seq<GradeRange>): (r: seq<GradeRange>)
    ensures DescendingByMin(r)
    ensures multiset(r) == multiset(s)
    ensures |r| == |s|
  {
    if |s| == 0 then []
    else
      var front := s[..|s| - 1];
      assert s == front + [s[|s| - 1]];
      var sortedFront := SortByMinDesc(front);
      InsertElements(sortedFront, s[|s| - 1]);
      InsertDescending(sortedFront, s[|s| - 1]);
      InsertByMin(sortedFront, s[|s| - 1])
  }

  /** The ranges of `s` whose lower bound is `m`, in order. */
  function WithMin(s: seq<GradeRange>, m: real): seq<GradeRange>
  {
    if |s| == 0 then []
    else WithMin(s[..|s| - 1], m) + (if s[|s| - 1].min == m then [s[|s| - 1]] else [])
  }

  // ---------------------------------------------------------------------
  // Overlap pairs
  // ---------------------------------------------------------------------

  /** The pairs (i, k) with i < k < j whose ranges overlap, by increasing k. */
  function RowPairs(s: seq<GradeRange>, i: nat, j: nat): seq<(nat, nat)>
    requires i < |s| && j <= |s|
  {
    if j <= i + 1 then []
    else RowPairs(s, i, j - 1) + (if Overlaps(s[i], s[j - 1]) then [(i, j - 1)] else [])
  }

  /** The overlapping pairs whose first index is below `i`, row by row. */
  function PairsBelow(s: seq<GradeRange>, i: nat): seq<(nat, nat)>
    requires i <= |s|
  {
    if i == 0 then [] else PairsBelow(s, i - 1) + RowPairs(s, i - 1, |s|)
  }

  /** All overlapping pairs in the order the nested loops visit them. */
  function OverlapPairs(s: seq<GradeRange>): seq<(nat, nat)>
  {
    PairsBelow(s, |s|)
  }

  /** The letter of the range at index `k`, if there is one. */
  function LetterAt(s: seq<GradeRange>, k: nat): string
  {
    if k < |s| then s[k].letter else ""
  }

  /** The error reported for each pair. */
  function PairErrors(s: seq<GradeRange>, p: seq<(nat, nat)>): (r: seq<ValidationError>)
    ensures |r| == |p|
    ensures forall k :: 0 <= k < |p| ==> r[k] == OverlapError(LetterAt(s, p[k].0), LetterAt(s, p[k].1))
  {
    if |p| == 0 then []
    else PairErrors(s, p[..|p| - 1]) + [OverlapError(LetterAt(s, p[|p| - 1].0), LetterAt(s, p[|p| - 1].1))]
  }

  // ---------------------------------------------------------------------
  // Gap errors
  // ---------------------------------------------------------------------

  /** Gap errors for the adjacent pairs (k, k+1) with k < n. */
  function GapsUpTo(t: seq<GradeRange>, n: nat): (r: seq<ValidationError>)
    requires n < |t|
    ensures |r| <= n
    ensures forall e :: e in r ==> e.GapError?
  {
    if n == 0 then []
    else GapsUpTo(t, n - 1) + (if t[n - 1].min != t[n].max then [GapError(t[n - 1].letter, t[n].letter)] else [])
  }

  /** Gap errors over all adjacent pairs of `t`. */
  function GapErrors(t: seq<GradeRange>): (r: seq<ValidationError>)
    ensures |r| <= if |t| == 0 then 0 else |t| - 1
    ensures forall e :: e in r ==> e.GapError?
  {
    if |t| < 2 then [] else GapsUpTo(t, |t| - 1)
  }

  /** The positions k < n whose adjacent pair (k, k+1) leaves a gap, in loop order. */
  function GapIndicesUpTo(t: seq<GradeRange>, n: nat): seq<nat>
    requires n < |t|
  {
    if n == 0 then []
    else GapIndicesUpTo(t, n - 1) + (if t[n - 1].min != t[n].max then [n - 1] else [])
  }

  /** The positions of all adjacent pairs that leave a gap. */
  function GapIndices(t: seq<GradeRange>): seq<nat>
  {
    if |t| < 2 then [] else GapIndicesUpTo(t, |t| - 1)
  }

  /** Adjacent ranges share their boundary all the way down. */
  predicate Contiguous(t: seq<GradeRange>)
  {
    forall k :: 0 <= k < |t| - 1 ==> t[k].min == t[k + 1].max
  }

  /** No two ranges at different positions overlap. */
  predicate NoOverlaps(s: seq<GradeRange>)
  {
    forall i, j :: 0 <= i < j < |s| ==> !Overlaps(s[i], s[j])
  }

  /** The complete error list for a range list. */
  function ValidationErrors(s: seq<GradeRange>): (r: seq<ValidationError>)
    ensures |r| == |OverlapPairs(s)| + |GapErrors(SortByMinDesc(s))|
    ensures forall k :: 0 <= k < |r| ==> (r[k].OverlapError? <==> k < |OverlapPairs(s)|)
  {
    var overlaps := PairErrors(s, OverlapPairs(s));
    var gaps := GapErrors(SortByMinDesc(s));
    assert forall k :: 0 <= k < |gaps| ==> gaps[k] in gaps;
    overlaps + gaps
  }

  // ---------------------------------------------------------------------
  // The validator
  // ---------------------------------------------------------------------

  /** The nested overlap loops: one error per overlapping pair, row by row. */
  method CollectOverlaps(g: seq<GradeRange>) returns (errors: seq<ValidationError>)
    ensures errors == PairErrors(g, OverlapPairs(g))
  {
    errors := [];
    var i := 0;
    while i < |g|
      invariant 0 <= i <= |g|
      invariant errors == PairErrors(g, PairsBelow(g, i))
    {
      var row := CollectRow(g, i);
      PairsBelowStep(g, i);
      errors := errors + row;
      i := i + 1;
    }
  }

  /** One more row of the outer loop appends that row's errors. */
  lemma PairsBelowStep(g: seq<GradeRange>, i: nat)
    requires i < |g|
    ensures PairErrors(g, PairsBelow(g, i + 1)) == PairErrors(g, PairsBelow(g, i)) + PairErrors(g, RowPairs(g, i, |g|))
  {
    PairErrorsAppend(g, PairsBelow(g, i), RowPairs(g, i, |g|));
  }

  /** The inner loop for row `i`: one error per later range that overlaps range `i`. */
  method CollectRow(g: seq<GradeRange>, i: nat) returns (row: seq<ValidationError>)
    requires i < |g|
    ensures row == PairErrors(g, RowPairs(g, i, |g|))
  {
    row := [];
    var j: nat := i + 1;
    while j < |g|
      invariant i + 1 <= j <= |g|
      invariant row == PairErrors(g, RowPairs(g, i, j))
    {
      if Overlaps(g[i], g[j]) {
        assert RowPairs(g, i, j + 1) == RowPairs(g, i, j) + [(i, j)];
        PairErrorsSnoc(g, RowPairs(g, i, j), (i, j));
        row := row + [OverlapError(g[i].letter, g[j].letter)];
      } else {
        assert RowPairs(g, i, j + 1) == RowPairs(g, i, j) + [];
        assert RowPairs(g, i, j) + [] == RowPairs(g, i, j);
      }
      j := j + 1;
    }
  }

  /** The gap loop over adjacent pairs of the sorted ranges. */
  method CollectGaps(t: seq<GradeRange>) returns (errors: seq<ValidationError>)
    ensures errors == GapErrors(t)
  {
    errors := [];
    var k := 0;
    while k < |t| - 1
      invariant 0 <= k <= if |t| == 0 then 0 else |t| - 1
      invariant errors == if k == 0 then [] else GapsUpTo(t, k)
    {
      if t[k].min != t[k + 1].max {
        errors := errors + [GapError(t[k].letter, t[k + 1].letter)];
      }
      k := k + 1;
    }
  }

  /**
   * Validate a grading system. Besides the errors, the result carries the
   * system with its ranges re-ordered, as the in-place sort leaves it.
   */
  method ValidateGradingSystem(system: GradingSystem) returns (errors: seq<ValidationError>, sorted: GradingSystem)
    ensures errors == ValidationErrors(system.grades)
    ensures sorted == system.(grades := SortByMinDesc(system.grades))
    ensures multiset(sorted.grades) == multiset(system.grades)
    ensures errors == [] <==> NoOverlaps(system.grades) && Contiguous(sorted.grades)
    ensures |system.grades| >= 2 && (forall i :: 0 <= i < |system.grades| ==> WellFormed(system.grades[i]))
      ==> errors != []
  {
    var g := system.grades;
    var overlaps := CollectOverlaps(g);
    var t := SortByMinDesc(g);
    var gaps := CollectGaps(t);
    errors := overlaps + gaps;
    sorted := system.(grades := t);
    ValidationErrorsEmptyIff(g);
    if |g| >= 2 && (forall i :: 0 <= i < |g| ==> WellFormed(g[i])) {
      EveryScaleRejected(g);
    }
  }

  // ---------------------------------------------------------------------
  // Lemmas about the pair enumeration
  // ---------------------------------------------------------------------

  /** Appending one pair appends its error. */
  lemma PairErrorsSnoc(s: seq<GradeRange>, p: seq<(nat, nat)>, q: (nat, nat))
    requires q.0 < |s| && q.1 < |s|
    ensures PairErrors(s, p + [q]) == PairErrors(s, p) + [OverlapError(s[q.0].letter, s[q.1].letter)]
  {
    assert (p + [q])[..|p|] == p;
  }

  /** The errors of two pair lists in a row are the errors of each, in order. */
  lemma {:induction false} PairErrorsAppend(s: seq<GradeRange>, a: seq<(nat, nat)>, b: seq<(nat, nat)>)
    ensures PairErrors(s, a + b) == PairErrors(s, a) + PairErrors(s, b)
  {
    if |b| == 0 {
      assert a + b == a;
    } else {
      var front := b[..|b| - 1];
      var q := b[|b| - 1];
      var e := [OverlapError(LetterAt(s, q.0), LetterAt(s, q.1))];
      PairErrorsAppend(s, a, front);
      assert (a + b)[..|a + b| - 1] == a + front && (a + b)[|a + b| - 1] == q;
      assert PairErrors(s, a + b) == PairErrors(s, a + front) + e;
      assert PairErrors(s, b) == PairErrors(s, front) + e;
    }
  }

  /** The shape of a row: pairs (i, k) with i < k < j, by strictly increasing k. */
  lemma {:induction false} RowPairsShape(s: seq<GradeRange>, i: nat, j: nat)
    requires i < |s| && j <= |s|
    ensures forall k :: 0 <= k < |RowPairs(s, i, j)| ==>
      RowPairs(s, i, j)[k].0 == i && i < RowPairs(s, i, j)[k].1 < j
    ensures forall k :: 0 <= k < |RowPairs(s, i, j)| - 1 ==>
      RowPairs(s, i, j)[k].1 < RowPairs(s, i, j)[k + 1].1
  {
    if j > i + 1 {
      RowPairsShape(s, i, j - 1);
    }
  }

  /** Which pairs a row holds: exactly the overlapping ones. */
  lemma {:induction false} RowPairsMembers(s: seq<GradeRange>, i: nat, j: nat)
    requires i < |s| && j <= |s|
    ensures forall m :: i < m < j && Overlaps(s[i], s[m]) ==> (i, m) in RowPairs(s, i, j)
    ensures forall q :: q in RowPairs(s, i, j) ==> q.0 == i && i < q.1 < j && Overlaps(s[q.0], s[q.1])
  {
    if j > i + 1 {
      RowPairsMembers(s, i, j - 1);
    }
  }

  /** The shape of the rows below `i`: first index below i, second above it, strictly increasing. */
  lemma {:induction false} PairsBelowShape(s: seq<GradeRange>, i: nat)
    requires i <= |s|
    ensures forall k :: 0 <= k < |PairsBelow(s, i)| ==>
      PairsBelow(s, i)[k].0 < i && PairsBelow(s, i)[k].0 < PairsBelow(s, i)[k].1 < |s|
    ensures forall k :: 0 <= k < |PairsBelow(s, i)| - 1 ==> LexLess(PairsBelow(s, i)[k], PairsBelow(s, i)[k + 1])
  {
    if i > 0 {
      PairsBelowShape(s, i - 1);
      RowPairsShape(s, i - 1, |s|);
      var p: seq<(nat, nat)> := PairsBelow(s, i - 1);
      var r: seq<(nat, nat)> := RowPairs(s, i - 1, |s|);
      assert PairsBelow(s, i) == p + r;
      forall k | 0 <= k < |p + r|
        ensures (p + r)[k].0 < i && (p + r)[k].0 < (p + r)[k].1 < |s|
      {
        if k < |p| {
          assert (p + r)[k] == p[k];
        } else {
          assert (p + r)[k] == r[k - |p|];
        }
      }
      forall k | 0 <= k < |p + r| - 1
        ensures LexLess((p + r)[k], (p + r)[k + 1])
      {
        if k + 1 < |p| {
          assert (p + r)[k] == p[k] && (p + r)[k + 1] == p[k + 1];
        } else if k + 1 == |p| {
          assert (p + r)[k] == p[k] && (p + r)[k + 1] == r[0];
        } else {
          assert (p + r)[k] == r[k - |p|] && (p + r)[k + 1] == r[k - |p| + 1];
        }
      }
    }
  }

  /** Which pairs the rows below `i` hold: exactly the overlapping ones with first index below i. */
  lemma {:induction false} PairsBelowMembers(s: seq<GradeRange>, i: nat)
    requires i <= |s|
    ensures forall a, b :: 0 <= a < i && a < b < |s| && Overlaps(s[a], s[b]) ==> (a, b) in PairsBelow(s, i)
    ensures forall q :: q in PairsBelow(s, i) ==> q.0 < q.1 < |s| && Overlaps(s[q.0], s[q.1])
  {
    if i > 0 {
      PairsBelowMembers(s, i - 1);
      RowPairsMembers(s, i - 1, |s|);
      var p: seq<(nat, nat)> := PairsBelow(s, i - 1);
      var r: seq<(nat, nat)> := RowPairs(s, i - 1, |s|);
      assert PairsBelow(s, i) == p + r;
      forall a, b | 0 <= a < i && a < b < |s| && Overlaps(s[a], s[b])
        ensures (a, b) in p + r
      {
        if a < i - 1 {
          assert (a, b) in p;
        } else {
          assert (a, b) in r;
        }
      }
      forall q | q in p + r
        ensures q.0 < q.1 < |s| && Overlaps(s[q.0], s[q.1])
      {
        if q !in p {
          assert q in r;
        }
      }
    }
  }

  /** Strict lexicographic order on index pairs. */
  predicate LexLess(a: (nat, nat), b: (nat, nat))
  {
    a.0 < b.0 || (a.0 == b.0 && a.1 < b.1)
  }

  /**
   * One entry per unordered pair: (i, j) is listed exactly when i < j and
   * the two ranges overlap, and the list is strictly increasing, so no
   * pair appears twice.
   */
  lemma OverlapPairsExact(s: seq<GradeRange>)
    ensures forall i, j :: (i, j) in OverlapPairs(s) <==> 0 <= i < j < |s| && Overlaps(s[i], s[j])
    ensures forall k :: 0 <= k < |OverlapPairs(s)| - 1 ==> LexLess(OverlapPairs(s)[k], OverlapPairs(s)[k + 1])
  {
    PairsBelowMembers(s, |s|);
    PairsBelowShape(s, |s|);
  }

  /** A system with fewer than two ranges gets no error at all. */
  lemma SmallSystemsPass(s: seq<GradeRange>)
    requires |s| <= 1
    ensures ValidationErrors(s) == []
  {
    OverlapPairsExact(s);
    if OverlapPairs(s) != [] {
      assert OverlapPairs(s)[0] in OverlapPairs(s);
    }
  }

  /** No overlap errors exactly when no two ranges overlap. */
  lemma OverlapErrorsEmptyIff(s: seq<GradeRange>)
    ensures OverlapPairs(s) == [] <==> NoOverlaps(s)
  {
    OverlapPairsExact(s);
    if OverlapPairs(s) != [] {
      var q := OverlapPairs(s)[0];
      assert (q.0, q.1) in OverlapPairs(s);
      assert !NoOverlaps(s);
    }
    if !NoOverlaps(s) {
      var i, j :| 0 <= i < j < |s| && Overlaps(s[i], s[j]);
      assert (i, j) in OverlapPairs(s);
    }
  }

  /** No gap errors exactly when the ranges are contiguous. */
  lemma {:induction false} GapsUpToEmptyIff(t: seq<GradeRange>, n: nat)
    requires n < |t|
    ensures GapsUpTo(t, n) == [] <==> forall k :: 0 <= k < n ==> t[k].min == t[k + 1].max
  {
    if n > 0 {
      GapsUpToEmptyIff(t, n - 1);
    }
  }

  /** The gap positions below `n` are increasing and are exactly the k < n with a gap after range k. */
  lemma {:induction false} GapIndicesUpToExact(t: seq<GradeRange>, n: nat)
    requires n < |t|
    ensures forall i :: 0 <= i < |GapIndicesUpTo(t, n)| ==> GapIndicesUpTo(t, n)[i] < n
    ensures forall i, j :: 0 <= i < j < |GapIndicesUpTo(t, n)| ==> GapIndicesUpTo(t, n)[i] < GapIndicesUpTo(t, n)[j]
    ensures forall k: nat :: k in GapIndicesUpTo(t, n) <==> k < n && t[k].min != t[k + 1].max
  {
    if n > 0 {
      GapIndicesUpToExact(t, n - 1);
      var ix := GapIndicesUpTo(t, n - 1);
      var step: seq<nat> := if t[n - 1].min != t[n].max then [n - 1] else [];
      assert GapIndicesUpTo(t, n) == ix + step;
      forall k: nat
        ensures k in ix + step <==> k < n && t[k].min != t[k + 1].max
      {
        assert k in ix + step <==> k in ix || k in step;
      }
    }
  }

  /** Error i of the gap scan names the ranges at gap position i and the one after it. */
  lemma {:induction false} GapsUpToExact(t: seq<GradeRange>, n: nat)
    requires n < |t|
    ensures |GapsUpTo(t, n)| == |GapIndicesUpTo(t, n)|
    ensures forall i :: 0 <= i < |GapsUpTo(t, n)| ==>
      GapIndicesUpTo(t, n)[i] < n &&
      GapsUpTo(t, n)[i] == GapError(t[GapIndicesUpTo(t, n)[i]].letter, t[GapIndicesUpTo(t, n)[i] + 1].letter)
  {
    if n > 0 {
      GapsUpToExact(t, n - 1);
      var g := GapsUpTo(t, n - 1);
      var ix := GapIndicesUpTo(t, n - 1);
      var r := GapsUpTo(t, n);
      var rx := GapIndicesUpTo(t, n);
      if t[n - 1].min != t[n].max {
        assert r == g + [GapError(t[n - 1].letter, t[n].letter)];
        assert rx == ix + [n - 1];
        forall i | 0 <= i < |r|
          ensures rx[i] < n && r[i] == GapError(t[rx[i]].letter, t[rx[i] + 1].letter)
        {
          if i < |g| {
            assert r[i] == g[i] && rx[i] == ix[i];
          }
        }
      } else {
        assert r == g && rx == ix;
      }
    }
  }

  /**
   * The gap errors, one per gap position in increasing order: error i names
   * the range at gap position i and the range after it.
   */
  lemma GapErrorsExact(t: seq<GradeRange>)
    ensures |GapErrors(t)| == |GapIndices(t)|
    ensures forall i :: 0 <= i < |GapErrors(t)| ==>
      GapIndices(t)[i] + 1 < |t| &&
      GapErrors(t)[i] == GapError(t[GapIndices(t)[i]].letter, t[GapIndices(t)[i] + 1].letter)
    ensures forall i, j :: 0 <= i < j < |GapIndices(t)| ==> GapIndices(t)[i] < GapIndices(t)[j]
    ensures forall k: nat :: k in GapIndices(t) <==> k + 1 < |t| && t[k].min != t[k + 1].max
  {
    if |t| >= 2 {
      GapsUpToExact(t, |t| - 1);
      GapIndicesUpToExact(t, |t| - 1);
    }
  }

  /** A gap error is reported exactly for each adjacent pair whose boundaries differ, naming its two letters. */
  lemma GapErrorsMembers(t: seq<GradeRange>)
    ensures forall e :: e in GapErrors(t) <==>
      exists k :: 0 <= k < |t| - 1 && t[k].min != t[k + 1].max && e == GapError(t[k].letter, t[k + 1].letter)
  {
    GapErrorsExact(t);
    var r := GapErrors(t);
    var ix := GapIndices(t);
    forall e | e in r
      ensures exists k :: 0 <= k < |t| - 1 && t[k].min != t[k + 1].max && e == GapError(t[k].letter, t[k + 1].letter)
    {
      var i :| 0 <= i < |r| && r[i] == e;
      var k: nat := ix[i];
      assert k in ix;
    }
    forall e, k | 0 <= k < |t| - 1 && t[k].min != t[k + 1].max && e == GapError(t[k].letter, t[k + 1].letter)
      ensures e in r
    {
      var kn: nat := k;
      assert kn in ix;
      var i :| 0 <= i < |ix| && ix[i] == kn;
      assert r[i] == e;
    }
  }

  /** Gap errors vanish exactly on contiguous sequences. */
  lemma GapErrorsEmptyIff(t: seq<GradeRange>)
    ensures GapErrors(t) == [] <==> Contiguous(t)
  {
    if |t| >= 2 {
      GapsUpToEmptyIff(t, |t| - 1);
    }
  }

  /** The validator accepts exactly the overlap-free scales that are contiguous once sorted. */
  lemma ValidationErrorsEmptyIff(s: seq<GradeRange>)
    ensures ValidationErrors(s) == [] <==> NoOverlaps(s) && Contiguous(SortByMinDesc(s))
  {
    OverlapErrorsEmptyIff(s);
    GapErrorsEmptyIff(SortByMinDesc(s));
  }

  // ---------------------------------------------------------------------
  // Lemmas about the sort
  // ---------------------------------------------------------------------

  /** A value occurring twice in the multiset occurs at two distinct positions. */
  lemma {:induction false} TwoOccurrences(s: seq<GradeRange>, x: GradeRange)
    requires multiset(s)[x] >= 2
    ensures exists p, q :: 0 <= p < q < |s| && s[p] == x && s[q] == x
  {
    assert s == [s[0]] + s[1..];
    if s[0] == x {
      assert multiset(s[1..])[x] >= 1;
      assert x in s[1..];
      var q :| 0 <= q < |s[1..]| && s[1..][q] == x;
      assert s[q + 1] == x;
    } else {
      TwoOccurrences(s[1..], x);
      var p, q :| 0 <= p < q < |s[1..]| && s[1..][p] == x && s[1..][q] == x;
      assert s[p + 1] == x && s[q + 1] == x;
    }
  }

  /** Two positions of a permutation of `s` come from two positions of `s`. */
  lemma DistinctOrigins(s: seq<GradeRange>, t: seq<GradeRange>, a: nat, b: nat)
    requires multiset(t) == multiset(s)
    requires a < b < |t|
    ensures exists p, q :: 0 <= p < |s| && 0 <= q < |s| && p != q && s[p] == t[a] && s[q] == t[b]
  {
    assert t[a] in multiset(s) && t[b] in multiset(s);
    if t[a] == t[b] {
      assert multiset(t) == multiset(t[..a]) + multiset{t[a]} + multiset(t[a + 1..]) by {
        assert t == t[..a] + [t[a]] + t[a + 1..];
      }
      assert t[b] in multiset(t[a + 1..]) by {
        assert t[a + 1..][b - a - 1] == t[b];
      }
      assert multiset(s)[t[a]] >= 2;
      TwoOccurrences(s, t[a]);
    } else {
      var p :| 0 <= p < |s| && s[p] == t[a];
      var q :| 0 <= q < |s| && s[q] == t[b];
    }
  }

  /**
   * The contradiction between the two rules: any scale with at least two
   * well-formed ranges gets at least one error.
   */
  lemma EveryScaleRejected(s: seq<GradeRange>)
    requires |s| >= 2
    requires forall i :: 0 <= i < |s| ==> WellFormed(s[i])
    ensures ValidationErrors(s) != []
  {
    var t := SortByMinDesc(s);
    ValidationErrorsEmptyIff(s);
    if t[0].min == t[1].max {
      DistinctOrigins(s, t, 0, 1);
      var p, q :| 0 <= p < |s| && 0 <= q < |s| && p != q && s[p] == t[0] && s[q] == t[1];
      assert WellFormed(s[p]) && WellFormed(s[q]);
      assert Overlaps(t[0], t[1]);
      if p < q {
        assert !NoOverlaps(s);
      } else {
        assert Overlaps(s[q], s[p]);
        assert !NoOverlaps(s);
      }
    } else {
      assert !Contiguous(t);
    }
  }

  /** An already descending sequence is left as it is by the sort. */
  lemma {:induction false} SortKeepsDescending(s: seq<GradeRange>)
    requires DescendingByMin(s)
    ensures SortByMinDesc(s) == s
  {
    if |s| > 0 {
      var front := s[..|s| - 1];
      assert s == front + [s[|s| - 1]];
      assert DescendingByMin(front);
      SortKeepsDescending(front);
    }
  }

  /** Appending one range extends its equal-min group only. */
  lemma WithMinSnoc(s: seq<GradeRange>, y: GradeRange, m: real)
    ensures WithMin(s + [y], m) == WithMin(s, m) + (if y.min == m then [y] else [])
  {
    assert (s + [y])[..|s|] == s;
  }

  /** Inserting one range adds it to the end of its equal-min group only. */
  lemma {:induction false} WithMinInsert(t: seq<GradeRange>, x: GradeRange, m: real)
    requires DescendingByMin(t)
    ensures WithMin(InsertByMin(t, x), m) == WithMin(t, m) + (if x.min == m then [x] else [])
  {
    if |t| == 0 {
      assert InsertByMin(t, x) == t + [x];
      WithMinSnoc(t, x, m);
    } else if t[|t| - 1].min >= x.min {
      WithMinSnoc(t, x, m);
    } else {
      var front := t[..|t| - 1];
      var last := t[|t| - 1];
      DescendingPrefix(t);
      WithMinInsert(front, x, m);
      assert InsertByMin(t, x) == InsertByMin(front, x) + [last];
      WithMinPassLast(front, last, x, m);
      assert front + [last] == t;
    }
  }

  /** The front of a descending sequence is descending. */
  lemma DescendingPrefix(t: seq<GradeRange>)
    requires DescendingByMin(t) && |t| > 0
    ensures DescendingByMin(t[..|t| - 1])
  {
  }

  /** The step of WithMinInsert where `x` moves past a last range with a smaller lower bound. */
  lemma WithMinPassLast(front: seq<GradeRange>, last: GradeRange, x: GradeRange, m: real)
    requires last.min < x.min
    requires WithMin(InsertByMin(front, x), m) == WithMin(front, m) + (if x.min == m then [x] else [])
    ensures WithMin(InsertByMin(front, x) + [last], m) == WithMin(front + [last], m) + (if x.min == m then [x] else [])
  {
    var xs: seq<GradeRange> := if x.min == m then [x] else [];
    var ls: seq<GradeRange> := if last.min == m then [last] else [];
    WithMinSnoc(InsertByMin(front, x), last, m);
    WithMinSnoc(front, last, m);
    assert xs == [] || ls == [];
    assert WithMin(front, m) + xs + ls == WithMin(front, m) + ls + xs;
  }

  /** The sort is stable: ranges with the same lower bound keep their relative order. */
  lemma {:induction false} SortIsStable(s: seq<GradeRange>, m: real)
    ensures WithMin(SortByMinDesc(s), m) == WithMin(s, m)
  {
    if |s| > 0 {
      var front := s[..|s| - 1];
      SortIsStable(front, m);
      WithMinInsert(SortByMinDesc(front), s[|s| - 1], m);
    }
  }

  // ---------------------------------------------------------------------
  // The built-in scale
  // ---------------------------------------------------------------------

  /** The built-in scale has no overlapping pair. */
  lemma DefaultHasNoOverlaps()
    ensures NoOverlaps(DefaultGradingSystem.grades)
  {
    var g := DefaultGradingSystem.grades;
    forall i, j | 0 <= i < j < |g|
      ensures !Overlaps(g[i], g[j])
    {
      assert g[i].min > g[j].max;
    }
  }

  /** The built-in scale is already in descending order of lower bound. */
  lemma DefaultIsDescending()
    ensures DescendingByMin(DefaultGradingSystem.grades)
  {
  }

  /** The five adjacent pairs of the built-in scale each leave a gap. */
  lemma DefaultGaps()
    ensures GapErrors(DefaultGradingSystem.grades) ==
      [GapError("A", "B"), GapError("B", "C"), GapError("C", "D"), GapError("D", "E"), GapError("E", "F")]
  {
    var g := DefaultGradingSystem.grades;
    assert GapsUpTo(g, 1) == [GapError("A", "B")];
    assert GapsUpTo(g, 2) == [GapError("A", "B"), GapError("B", "C")];
    assert GapsUpTo(g, 3) == [GapError("A", "B"), GapError("B", "C"), GapError("C", "D")];
    assert GapsUpTo(g, 4) == [GapError("A", "B"), GapError("B", "C"), GapError("C", "D"), GapError("D", "E")];
  }

  /** The built-in scale is rejected with exactly five gap errors and no overlap error. */
  lemma DefaultSystemErrors()
    ensures ValidationErrors(DefaultGradingSystem.grades) ==
      [GapError("A", "B"), GapError("B", "C"), GapError("C", "D"), GapError("D", "E"), GapError("E", "F")]
  {
    var g := DefaultGradingSystem.grades;
    DefaultHasNoOverlaps();
    OverlapErrorsEmptyIff(g);
    DefaultIsDescending();
    SortKeepsDescending(g);
    DefaultGaps();
  }

  /** The scale A [80, 100], B [50, 79] has a gap between B and A and no overlap. */
  lemma TwoRangeGapExample()
    ensures ValidationErrors([GradeRange(80.0, 100.0, "A", 5.0), GradeRange(50.0, 79.0, "B", 4.0)]) ==
      [GapError("A", "B")]
  {
    var g := [GradeRange(80.0, 100.0, "A", 5.0), GradeRange(50.0, 79.0, "B", 4.0)];
    assert !Overlaps(g[0], g[1]);
    OverlapErrorsEmptyIff(g);
    SortKeepsDescending(g);
  }

  /** A scale whose ranges share boundaries is rejected for overlapping instead. */
  lemma SharedBoundaryExample()
    ensures ValidationErrors([GradeRange(50.0, 100.0, "P", 1.0), GradeRange(0.0, 50.0, "F", 0.0)]) ==
      [OverlapError("P", "F")]
  {
    var g := [GradeRange(50.0, 100.0, "P", 1.0), GradeRange(0.0, 50.0, "F", 0.0)];
    OverlapPairsExact(g);
    assert (0, 1) in OverlapPairs(g);
    assert OverlapPairs(g) == [(0, 1)] by {
      assert RowPairs(g, 0, 2) == [(0, 1)];
      assert RowPairs(g, 1, 2) == [];
      assert PairsBelow(g, 2) == PairsBelow(g, 1) + RowPairs(g, 1, 2);
      assert PairsBelow(g, 1) == [] + RowPairs(g, 0, 2);
    }
    SortKeepsDescending(g);
  }
}
