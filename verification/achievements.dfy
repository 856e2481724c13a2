/**
 * The achievements panel: three fixed achievements whose unlock flag and
 * progress follow from the current CGPA and, for the improvement badge,
 * the CGPA of the previous semester. Progress is not clamped here.
 */
module Achievements {
  import opened Wrappers
  import opened Gpa

  datatype AchievementType = GpaType | ImprovementType | CustomType
  datatype Tier = Bronze | Silver | Gold

  datatype Achievement = Achievement(
    id: string, name: string, description: string,
    kind: AchievementType, tier: Tier, icon: string,
    threshold: real, isUnlocked: bool, progress: real)

  /** JavaScript truthiness of an optional number: present and not zero. */
  predicate Truthy(x: Option<real>)
  {
    x.Some? && x.value != 0.0
  }

  /** The three achievements, in display order. */
  function CalculateAchievements(cgpa: real, previous: Option<real>): (r: seq<Achievement>)
    ensures |r| == 3
    ensures r[0].id == "deans-list" && r[1].id == "improvement" && r[2].id == "excellence"
    ensures r[0].threshold == 4.5 && r[2].threshold == 5.0
    ensures r[1].threshold == (if Truthy(previous) then previous.value else 0.0)
    ensures r[0].isUnlocked <==> cgpa >= 4.5
    ensures r[1].isUnlocked <==> Truthy(previous) && cgpa > previous.value
    ensures r[2].isUnlocked <==> cgpa == 5.0
    ensures r[0].progress * 4.5 == cgpa * 100.0
    ensures r[2].progress * 5.0 == cgpa * 100.0
    ensures Truthy(previous) ==> r[1].progress * 0.5 == (cgpa - previous.value) * 100.0
    ensures !Truthy(previous) ==> r[1].progress == 0.0
  {
    var deansList := Achievement(
      "deans-list", "Dean's List", "Maintain a GPA of 4.5 or higher",
      GpaType, Gold, "trophy", 4.5, cgpa >= 4.5, (cgpa / 4.5) * 100.0);
    var improvement := Achievement(
      "improvement", "Rising Star", "Show improvement from previous semester",
      ImprovementType, Silver, "star",
      if Truthy(previous) then previous.value else 0.0,
      Truthy(previous) && cgpa > previous.value,
      if Truthy(previous) then ((cgpa - previous.value) / 0.5) * 100.0 else 0.0);
    var excellence := Achievement(
      "excellence", "Academic Excellence", "Achieve a perfect 5.0 GPA",
      GpaType, Gold, "award", 5.0, cgpa == 5.0, (cgpa / 5.0) * 100.0);
    [deansList, improvement, excellence]
  }

  /** Every unlock toast title starts with this text, followed by the achievement's name. */
  const UnlockPrefix: string := "Achievement Unlocked: "

  /** The toast titles raised for the unlocked achievements, in display order. */
  function UnlockedToasts(achievements: seq<Achievement>): (r: seq<string>)
    ensures |r| <= |achievements|
    ensures forall t :: t in r <==> exists a :: a in achievements && a.isUnlocked && t == UnlockPrefix + a.name
  {
    if |achievements| == 0 then []
    else
      var rest := UnlockedToasts(achievements[1..]);
      var a := achievements[0];
      assert forall b :: b in achievements <==> b == a || b in achievements[1..];
      if a.isUnlocked then [UnlockPrefix + a.name] + rest else rest
  }

  /** The previous CGPA the dashboard passes: the CGPA of the second-to-last semester alone, if there is one. */
  function PreviousCgpa(sems: seq<Semester>): (r: Option<real>)
    ensures r.Some? <==> |sems| >= 2
    ensures r.Some? ==> r.value == CalculateGPA(sems[|sems| - 2].courses)
  {
    if |sems| >= 2 then
      var prev := sems[|sems| - 2];
      assert [prev][1..] == [];
      assert Flatten([prev]) == prev.courses + [];
      assert prev.courses + [] == prev.courses;
      Some(CalculateCGPA([prev]))
    else None
  }

  // ---------------------------------------------------------------------
  // Lemmas
  // ---------------------------------------------------------------------

  /** A perfect CGPA unlocks the Dean's List too. */
  lemma ExcellenceImpliesDeansList(cgpa: real, previous: Option<real>)
    ensures CalculateAchievements(cgpa, previous)[2].isUnlocked ==> CalculateAchievements(cgpa, previous)[0].isUnlocked
  {
  }

  /** The Dean's List is unlocked exactly when its progress reaches 100. */
  lemma DeansListProgress(cgpa: real, previous: Option<real>)
    ensures var r := CalculateAchievements(cgpa, previous);
            r[0].isUnlocked <==> r[0].progress >= 100.0
  {
    var p := CalculateAchievements(cgpa, previous)[0].progress;
    assert p * 4.5 == cgpa * 100.0;
    if p >= 100.0 {
      assert p * 4.5 >= 450.0;
    }
  }

  /** With a previous CGPA, the improvement badge is unlocked exactly when its progress is positive. */
  lemma ImprovementProgress(cgpa: real, previous: Option<real>)
    requires Truthy(previous)
    ensures var r := CalculateAchievements(cgpa, previous);
            r[1].isUnlocked <==> r[1].progress > 0.0
  {
    var p := CalculateAchievements(cgpa, previous)[1].progress;
    assert p * 0.5 == (cgpa - previous.value) * 100.0;
  }

  /** A previous CGPA of exactly 0 counts as no previous CGPA: no improvement, whatever the current CGPA. */
  lemma ZeroPreviousNeverImproves(cgpa: real)
    ensures CalculateAchievements(cgpa, Some(0.0)) == CalculateAchievements(cgpa, None)
    ensures !CalculateAchievements(cgpa, Some(0.0))[1].isUnlocked
  {
  }

  /**
   * For a CGPA computed from a record with non-negative credits, the
   * excellence badge is unlocked exactly when its progress is 100, and its
   * progress never exceeds 100.
   */
  lemma ExcellenceProgressOfRecord(sems: seq<Semester>, previous: Option<real>)
    requires NonNegativeCredits(Flatten(sems))
    ensures var r := CalculateAchievements(CalculateCGPA(sems), previous);
            0.0 <= r[2].progress <= 100.0 && (r[2].isUnlocked <==> r[2].progress == 100.0)
  {
    var cs := Flatten(sems);
    TotalsBounded(cs);
    if TotalUnits(cs) > 0 {
      GpaInRange(cs);
    }
  }

  /** Toasts are announced per achievement, so the list of a concatenation is the concatenation of the lists. */
  lemma {:induction false} UnlockedToastsAppend(a: seq<Achievement>, b: seq<Achievement>)
    ensures UnlockedToasts(a + b) == UnlockedToasts(a) + UnlockedToasts(b)
  {
    if |a| > 0 {
      assert (a + b)[1..] == a[1..] + b;
      assert (a + b)[0] == a[0];
      UnlockedToastsAppend(a[1..], b);
    } else {
      assert a + b == b;
    }
  }

  /** The toast raised by one achievement alone: its title when unlocked, nothing otherwise. */
  lemma UnlockedToastsSingle(a: Achievement)
    ensures UnlockedToasts([a]) == if a.isUnlocked then [UnlockPrefix + a.name] else []
  {
    assert [a][1..] == [];
  }

  /**
   * The toasts for a CGPA, exactly: Dean's List from 4.5, Rising Star above
   * a truthy previous CGPA, Academic Excellence at 5.0, in that order.
   */
  lemma ToastsOfAchievements(cgpa: real, previous: Option<real>)
    ensures UnlockedToasts(CalculateAchievements(cgpa, previous)) ==
      (if cgpa >= 4.5 then [UnlockPrefix + "Dean's List"] else [])
      + (if Truthy(previous) && cgpa > previous.value then [UnlockPrefix + "Rising Star"] else [])
      + (if cgpa == 5.0 then [UnlockPrefix + "Academic Excellence"] else [])
  {
    var r := CalculateAchievements(cgpa, previous);
    assert r == [r[0]] + [r[1]] + [r[2]];
    UnlockedToastsAppend([r[0]] + [r[1]], [r[2]]);
    UnlockedToastsAppend([r[0]], [r[1]]);
    UnlockedToastsSingle(r[0]);
    UnlockedToastsSingle(r[1]);
    UnlockedToastsSingle(r[2]);
    assert r[0].name == "Dean's List" && r[1].name == "Rising Star" && r[2].name == "Academic Excellence";
  }

  /** Only Dean's List is announced for a CGPA of 4.6 with no previous semester. */
  lemma ToastExample()
    ensures UnlockedToasts(CalculateAchievements(4.6, None)) == ["Achievement Unlocked: Dean's List"]
  {
    var r := CalculateAchievements(4.6, None);
    assert r[1..][1..][1..] == [];
    assert UnlockedToasts(r[1..][1..]) == [];
    assert UnlockedToasts(r[1..]) == [];
    assert r[0].isUnlocked && r[0].name == "Dean's List";
    assert UnlockedToasts(r) == [UnlockPrefix + "Dean's List"] + [];
    assert UnlockPrefix + "Dean's List" == "Achievement Unlocked: Dean's List";
  }
}
