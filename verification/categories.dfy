/**
 * Performance by category: courses are grouped by the first word of their
 * name ("Other" when that word is empty), groups appear in the order
 * their category first occurs, and each group reports its GPA and size.
 */
module Categories {
  import opened Wrappers
  import opened Gpa

  /** The text before the first space of `name` (all of it when there is no space). */
  function FirstWord(name: string): (w: string)
    ensures |w| <= |name| && w == name[..|w|]
    ensures forall k :: 0 <= k < |w| ==> w[k] != ' '
    ensures |w| < |name| ==> name[|w|] == ' '
  {
    if |name| == 0 || name[0] == ' ' then "" else [name[0]] + FirstWord(name[1..])
  }

  /** The category of a course name: its first word, or "Other" when that word is empty. */
  function CategoryKey(name: string): (k: string)
    ensures k != ""
    ensures FirstWord(name) != "" ==> k == FirstWord(name)
    ensures FirstWord(name) == "" <==> k == "Other" && (|name| == 0 || name[0] == ' ')
  {
    var w := FirstWord(name);
    if w == "" then "Other" else w
  }

  datatype Group = Group(category: string, courses: seq<Course>)

  /** The index of the group for `key`, if there is one. */
  function FindGroup(gs: seq<Group>, key: string): (r: Option<nat>)
    ensures r.Some? ==> r.value < |gs| && gs[r.value].category == key
    ensures r.None? <==> forall i :: 0 <= i < |gs| ==> gs[i].category != key
  {
    if |gs| == 0 then None
    else if gs[0].category == key then Some(0)
    else match FindGroup(gs[1..], key)
      case None => None
      case Some(i) => Some(i + 1)
  }

  /** One reduction step: push the course onto its category's group, creating the group if needed. */
  function AddToGroups(gs: seq<Group>, c: Course): (r: seq<Group>)
    ensures |gs| <= |r| <= |gs| + 1 && |r| > 0
  {
    var key := CategoryKey(c.name);
    match FindGroup(gs, key)
    case Some(i) => gs[i := Group(key, gs[i].courses + [c])]
    case None => gs + [Group(key, [c])]
  }

  /** `categoryGroups`: the reduction over the course list, from the left. */
  function GroupCourses(cs: seq<Course>): (r: seq<Group>)
    ensures |r| <= |cs|
    ensures |cs| > 0 ==> |r| > 0
  {
    if |cs| == 0 then [] else AddToGroups(GroupCourses(cs[..|cs| - 1]), cs[|cs| - 1])
  }

  /** The courses of category `key`, in list order: the independent reference for a group. */
  function Filter(cs: seq<Course>, key: string): (r: seq<Course>)
    ensures |r| <= |cs|
    ensures forall c :: c in r ==> c in cs && CategoryKey(c.name) == key
  {
    if |cs| == 0 then []
    else Filter(cs[..|cs| - 1], key) + (if CategoryKey(cs[|cs| - 1].name) == key then [cs[|cs| - 1]] else [])
  }

  function Keys(gs: seq<Group>): (r: seq<string>)
    ensures |r| == |gs| && forall i :: 0 <= i < |gs| ==> r[i] == gs[i].category
  {
    seq(|gs|, i requires 0 <= i < |gs| => gs[i].category)
  }

  /** The categories of a course list, one per course. */
  function KeyList(cs: seq<Course>): (r: seq<string>)
    ensures |r| == |cs| && forall i :: 0 <= i < |cs| ==> r[i] == CategoryKey(cs[i].name)
  {
    seq(|cs|, i requires 0 <= i < |cs| => CategoryKey(cs[i].name))
  }

  /** The elements of `s` in order of first occurrence, without repeats. */
  function FirstOccurrences(s: seq<string>): (r: seq<string>)
    ensures forall x :: x in r <==> x in s
  {
    if |s| == 0 then []
    else
      var front := FirstOccurrences(s[..|s| - 1]);
      assert forall x :: x in s <==> x in s[..|s| - 1] || x == s[|s| - 1] by {
        assert s == s[..|s| - 1] + [s[|s| - 1]];
      }
      if s[|s| - 1] in front then front else front + [s[|s| - 1]]
  }

  predicate DistinctKeys(gs: seq<Group>)
  {
    forall i, j :: 0 <= i < j < |gs| ==> gs[i].category != gs[j].category
  }

  /** The number of courses held by all groups. */
  function Size(gs: seq<Group>): nat
  {
    if |gs| == 0 then 0 else |gs[0].courses| + Size(gs[1..])
  }

  /** One bar of the chart. */
  datatype CategoryRow = CategoryRow(category: string, gpa: real, courses: nat)

  function Rows(gs: seq<Group>): (r: seq<CategoryRow>)
    ensures |r| == |gs|
    ensures forall i :: 0 <= i < |gs| ==> r[i] == CategoryRow(gs[i].category, CalculateGPA(gs[i].courses), |gs[i].courses|)
  {
    seq(|gs|, i requires 0 <= i < |gs| => CategoryRow(gs[i].category, CalculateGPA(gs[i].courses), |gs[i].courses|))
  }

  /** The chart data: one row per category, with the GPA and the number of that category's courses. */
  function CategoryData(cs: seq<Course>): (r: seq<CategoryRow>)
    ensures forall i :: 0 <= i < |r| ==>
      r[i].gpa == CalculateGPA(Filter(cs, r[i].category)) && r[i].courses == |Filter(cs, r[i].category)|
    ensures forall i, j :: 0 <= i < j < |r| ==> r[i].category != r[j].category
    ensures forall c :: c in cs ==> exists i :: 0 <= i < |r| && r[i].category == CategoryKey(c.name)
    ensures forall i :: 0 <= i < |r| ==> r[i].courses > 0
  {
    var gs := GroupCourses(cs);
    GroupsAreFilters(cs);
    forall c | c in cs
      ensures exists i :: 0 <= i < |gs| && gs[i].category == CategoryKey(c.name)
    {
      EveryCourseGrouped(cs, c);
    }
    Rows(gs)
  }

  // ---------------------------------------------------------------------
  // Lemmas
  // ---------------------------------------------------------------------

  /** What the reduction keeps true after each course. */
  predicate GroupsOf(gs: seq<Group>, cs: seq<Course>)
  {
    && DistinctKeys(gs)
    && (forall i :: 0 <= i < |gs| ==> gs[i].courses == Filter(cs, gs[i].category))
    && (forall i :: 0 <= i < |gs| ==> |gs[i].courses| > 0)
    && Keys(gs) == FirstOccurrences(KeyList(cs))
  }

  lemma FilterSnoc(cs: seq<Course>, c: Course, key: string)
    ensures Filter(cs + [c], key) == Filter(cs, key) + (if CategoryKey(c.name) == key then [c] else [])
  {
    assert (cs + [c])[..|cs|] == cs;
  }

  lemma FirstOccurrencesSnoc(cs: seq<Course>, c: Course)
    ensures var key := CategoryKey(c.name);
            FirstOccurrences(KeyList(cs + [c])) ==
              if key in KeyList(cs) then FirstOccurrences(KeyList(cs)) else FirstOccurrences(KeyList(cs)) + [key]
  {
    var s := KeyList(cs + [c]);
    assert s[..|s| - 1] == KeyList(cs);
  }

  /** A category no course carries has an empty filter. */
  lemma {:induction false} FilterOfAbsentKey(cs: seq<Course>, key: string)
    requires key !in KeyList(cs)
    ensures Filter(cs, key) == []
  {
    if |cs| > 0 {
      assert KeyList(cs)[..|cs| - 1] == KeyList(cs[..|cs| - 1]);
      FilterOfAbsentKey(cs[..|cs| - 1], key);
      assert KeyList(cs)[|cs| - 1] == CategoryKey(cs[|cs| - 1].name);
    }
  }

  /** Appending a course to its own group keeps every group equal to its filter. */
  lemma ExistingFilters(gs: seq<Group>, cs: seq<Course>, c: Course, i: nat)
    requires forall j :: 0 <= j < |gs| ==> gs[j].courses == Filter(cs, gs[j].category)
    requires DistinctKeys(gs)
    requires i < |gs| && gs[i].category == CategoryKey(c.name)
    ensures var gs' := gs[i := Group(CategoryKey(c.name), gs[i].courses + [c])];
            forall j :: 0 <= j < |gs'| ==> gs'[j].courses == Filter(cs + [c], gs'[j].category)
  {
    var gs' := gs[i := Group(CategoryKey(c.name), gs[i].courses + [c])];
    forall j | 0 <= j < |gs'|
      ensures gs'[j].courses == Filter(cs + [c], gs'[j].category)
    {
      FilterSnoc(cs, c, gs'[j].category);
      if j != i {
        assert gs'[j] == gs[j];
        if i < j {
          assert gs[i].category != gs[j].category;
        } else {
          assert gs[j].category != gs[i].category;
        }
      }
    }
  }

  /** Replacing a group's courses keeps the list of categories. */
  lemma ExistingKeys(gs: seq<Group>, i: nat, courses: seq<Course>)
    requires i < |gs|
    ensures Keys(gs[i := Group(gs[i].category, courses)]) == Keys(gs)
    ensures DistinctKeys(gs) ==> DistinctKeys(gs[i := Group(gs[i].category, courses)])
  {
    var gs' := gs[i := Group(gs[i].category, courses)];
    assert forall j :: 0 <= j < |gs| ==> gs'[j].category == gs[j].category;
  }

  /** Replacing a group's courses by a non-empty list keeps every group non-empty. */
  lemma ExistingNonEmpty(gs: seq<Group>, gs': seq<Group>, i: nat, courses: seq<Course>)
    requires i < |gs| && gs' == gs[i := Group(gs[i].category, courses)]
    requires forall j :: 0 <= j < |gs| ==> |gs[j].courses| > 0
    requires |courses| > 0
    ensures forall j :: 0 <= j < |gs'| ==> |gs'[j].courses| > 0
  {
  }

  /** The step for a course whose category already has group `i`. */
  lemma AddToExisting(gs: seq<Group>, cs: seq<Course>, c: Course, i: nat)
    requires GroupsOf(gs, cs)
    requires i < |gs| && gs[i].category == CategoryKey(c.name)
    ensures GroupsOf(gs[i := Group(CategoryKey(c.name), gs[i].courses + [c])], cs + [c])
  {
    var gs' := gs[i := Group(gs[i].category, gs[i].courses + [c])];
    assert gs' == gs[i := Group(CategoryKey(c.name), gs[i].courses + [c])];
    ExistingFilters(gs, cs, c, i);
    ExistingKeys(gs, i, gs[i].courses + [c]);
    KnownKeyStep(gs, cs, c, i);
    ExistingNonEmpty(gs, gs', i, gs[i].courses + [c]);
  }

  /** A course of an already-seen category leaves the first-occurrence order unchanged. */
  lemma KnownKeyStep(gs: seq<Group>, cs: seq<Course>, c: Course, i: nat)
    requires Keys(gs) == FirstOccurrences(KeyList(cs))
    requires i < |gs| && gs[i].category == CategoryKey(c.name)
    ensures FirstOccurrences(KeyList(cs + [c])) == FirstOccurrences(KeyList(cs))
  {
    assert Keys(gs)[i] == CategoryKey(c.name);
    assert CategoryKey(c.name) in FirstOccurrences(KeyList(cs));
    FirstOccurrencesSnoc(cs, c);
  }

  /** Opening a new group for an unseen category keeps every group equal to its filter. */
  lemma NewFilters(gs: seq<Group>, cs: seq<Course>, c: Course)
    requires forall j :: 0 <= j < |gs| ==> gs[j].courses == Filter(cs, gs[j].category)
    requires forall j :: 0 <= j < |gs| ==> gs[j].category != CategoryKey(c.name)
    requires CategoryKey(c.name) !in KeyList(cs)
    ensures var gs' := gs + [Group(CategoryKey(c.name), [c])];
            forall j :: 0 <= j < |gs'| ==> gs'[j].courses == Filter(cs + [c], gs'[j].category)
  {
    var key := CategoryKey(c.name);
    var gs' := gs + [Group(key, [c])];
    forall j | 0 <= j < |gs'|
      ensures gs'[j].courses == Filter(cs + [c], gs'[j].category)
    {
      FilterSnoc(cs, c, gs'[j].category);
      if j == |gs| {
        FilterOfAbsentKey(cs, key);
      } else {
        assert gs'[j] == gs[j];
      }
    }
  }

  /** Appending a group with a new category extends the key list and keeps the keys distinct. */
  lemma NewKeys(gs: seq<Group>, key: string, courses: seq<Course>)
    requires DistinctKeys(gs) && key !in Keys(gs)
    ensures Keys(gs + [Group(key, courses)]) == Keys(gs) + [key]
    ensures DistinctKeys(gs + [Group(key, courses)])
    ensures forall j :: 0 <= j < |gs| ==> (gs + [Group(key, courses)])[j] == gs[j]
  {
    var gs' := gs + [Group(key, courses)];
    forall i, j | 0 <= i < j < |gs'|
      ensures gs'[i].category != gs'[j].category
    {
      assert gs'[i] == gs[i];
      if j == |gs| {
        assert Keys(gs)[i] == gs[i].category;
      } else {
        assert gs'[j] == gs[j];
      }
    }
  }

  /** A category with no group is carried by no course seen so far. */
  lemma AbsentKey(gs: seq<Group>, cs: seq<Course>, key: string)
    requires Keys(gs) == FirstOccurrences(KeyList(cs))
    requires forall i :: 0 <= i < |gs| ==> gs[i].category != key
    ensures key !in Keys(gs) && key !in KeyList(cs)
  {
    assert key !in Keys(gs);
  }

  /** The step for a course whose category has no group yet. */
  lemma AddAsNew(gs: seq<Group>, cs: seq<Course>, c: Course)
    requires GroupsOf(gs, cs)
    requires forall i :: 0 <= i < |gs| ==> gs[i].category != CategoryKey(c.name)
    ensures GroupsOf(gs + [Group(CategoryKey(c.name), [c])], cs + [c])
  {
    var key := CategoryKey(c.name);
    AbsentKey(gs, cs, key);
    NewFilters(gs, cs, c);
    NewKeys(gs, key, [c]);
    FirstOccurrencesSnoc(cs, c);
  }

  /** One reduction step keeps the groups equal to the filters, distinct and in first-occurrence order. */
  lemma AddStep(gs: seq<Group>, cs: seq<Course>, c: Course)
    requires GroupsOf(gs, cs)
    ensures GroupsOf(AddToGroups(gs, c), cs + [c])
  {
    match FindGroup(gs, CategoryKey(c.name))
    case Some(i) => AddToExisting(gs, cs, c, i);
    case None => AddAsNew(gs, cs, c);
  }

  /** The reduction's result satisfies `GroupsOf` for the whole list. */
  lemma {:induction false} GroupsAreFilters(cs: seq<Course>)
    ensures GroupsOf(GroupCourses(cs), cs)
  {
    if |cs| > 0 {
      var front := cs[..|cs| - 1];
      var last := cs[|cs| - 1];
      assert front + [last] == cs;
      assert GroupCourses(cs) == AddToGroups(GroupCourses(front), last);
      GroupsAreFilters(front);
      AddStep(GroupCourses(front), front, last);
    }
  }

  /** Every course's category has a group. */
  lemma EveryCourseGrouped(cs: seq<Course>, c: Course)
    requires c in cs
    ensures exists i :: 0 <= i < |GroupCourses(cs)| && GroupCourses(cs)[i].category == CategoryKey(c.name)
  {
    GroupsAreFilters(cs);
    var j :| 0 <= j < |cs| && cs[j] == c;
    assert KeyList(cs)[j] == CategoryKey(c.name);
    var ks := Keys(GroupCourses(cs));
    assert CategoryKey(c.name) in ks;
    var i :| 0 <= i < |ks| && ks[i] == CategoryKey(c.name);
  }

  /** Removing the last course's contribution: sizes add up across an update or an append. */
  lemma {:induction false} SizeUpdate(gs: seq<Group>, i: nat, g: Group)
    requires i < |gs|
    ensures Size(gs[i := g]) + |gs[i].courses| == Size(gs) + |g.courses|
  {
    if i > 0 {
      assert gs[i := g][1..] == gs[1..][i - 1 := g];
      SizeUpdate(gs[1..], i - 1, g);
    } else {
      assert gs[i := g][1..] == gs[1..];
    }
  }

  lemma {:induction false} SizeAppend(gs: seq<Group>, g: Group)
    ensures Size(gs + [g]) == Size(gs) + |g.courses|
  {
    if |gs| == 0 {
      assert (gs + [g])[1..] == [];
    } else {
      assert (gs + [g])[1..] == gs[1..] + [g];
      SizeAppend(gs[1..], g);
    }
  }

  /** Grouping loses and duplicates nothing: the group sizes add up to the number of courses. */
  lemma {:induction false} GroupSizesSum(cs: seq<Course>)
    ensures Size(GroupCourses(cs)) == |cs|
  {
    if |cs| > 0 {
      var front := cs[..|cs| - 1];
      var c := cs[|cs| - 1];
      var gs := GroupCourses(front);
      GroupSizesSum(front);
      match FindGroup(gs, CategoryKey(c.name))
      case Some(i) => SizeUpdate(gs, i, Group(CategoryKey(c.name), gs[i].courses + [c]));
      case None => SizeAppend(gs, Group(CategoryKey(c.name), [c]));
    }
  }

  /** The first word is the prefix up to the first space, or the whole name when there is none. */
  lemma {:induction false} FirstWordUpTo(name: string, n: nat)
    requires n <= |name| && (n == |name| || name[n] == ' ')
    requires forall k :: 0 <= k < n ==> name[k] != ' '
    ensures FirstWord(name) == name[..n]
  {
    if n > 0 {
      FirstWordUpTo(name[1..], n - 1);
      assert name[..n] == [name[0]] + name[1..][..n - 1];
    }
  }

  /** The category is the first word: "Math 101" is in "Math", " Lab" and "" in "Other". */
  lemma CategoryExamples()
    ensures CategoryKey("Math 101") == "Math"
    ensures CategoryKey("Physics") == "Physics"
    ensures CategoryKey(" Lab") == "Other"
    ensures CategoryKey("") == "Other"
  {
    FirstWordUpTo("Math 101", 4);
    assert "Math 101"[..4] == "Math";
    FirstWordUpTo("Physics", 7);
    assert "Physics"[..7] == "Physics";
  }
}
