# Enhanced CGPA calculator — a Dafny model of its core

This project models the logic of a web CGPA calculator, in Dafny.
It covers three parts:

- **The GPA engine.** Letter grades map to points; quality points, total points and total units are sums. The semester GPA is rounded to two decimals, and the CGPA is taken over all courses of all semesters.
- **The grading-scale subsystem.** The built-in 5.0 scale, the converter between letter, percentage and points, and the validator. The validator checks overlaps between pairs of ranges, sorts the ranges in place, then checks for gaps.
- **The decision rules inside the screens:**
  - the CGPA projection over actual plus hypothetical courses;
  - the target-GPA range check;
  - the progress and "achievable" computation;
  - the list edits of the future-course simulator and of the semester list;
  - the save/cancel state machine of the grading-system editor;
  - the course-issue detector;
  - the three achievements;
  - the grouping of courses into categories by the first word of their name.

Numbers are Dafny `real`, which is exact. Rounding to two decimals is written out as `Gpa.Round2`: the nearest hundredth, with ties going away from zero. Backend calls become an explicit `BackendResult` input, either `Failed` or `Stored(row)`. Random ids become parameters. JavaScript's `Number` applied to text is a parameter of the converter.

The main result is about the validator, which contradicts itself. Two ranges that share a boundary overlap as closed intervals. Two ranges that do not share a boundary leave a gap. So every scale with two or more well-formed ranges is rejected, the built-in one included. This is `Validation.EveryScaleRejected`. As a consequence, the grading-system editor can never publish such a scale (`GradingEditor.SaveAlwaysFails`).

Each module follows the source file it models. Most files hold one module; prediction.dfy holds the four modules of the grade-prediction screen:

| file | module | source |
|---|---|---|
| wrappers.dfy | Wrappers | an `Option` type |
| gpa.dfy | Gpa | src/lib/utils.ts |
| grading.dfy | Grading | src/lib/gradingUtils.ts (scale and converter) |
| validation.dfy | Validation | src/lib/gradingUtils.ts (validator) |
| courses.dfy | Courses | course-list edits shared by the simulator and the semester list |
| prediction.dfy | FutureCourses, TargetInput, SimulationResults, Prediction | the grade-prediction components |
| grading_editor.dfy | GradingEditor | src/components/GradePrediction/GradingSystemManager.tsx |
| semester_list.dfy | SemesterList | src/components/Semesters/SemesterList.tsx |
| issues.dfy | Issues | src/components/Issues/CourseIssuesAlert.tsx |
| achievements.dfy | Achievements | src/components/Achievements/AchievementsContainer.tsx |
| categories.dfy | Categories | src/components/Analytics/CategoryPerformance.tsx |

## Model

| member | source | states |
|---|---|---|
| Gpa.GradePoints | src/lib/utils.ts:10-17 | points lie in [0, 5]; 5 exactly for A and 0 exactly for F |
| Gpa.GradePointsTable | src/lib/utils.ts:10-17 | A, B, C, D, E, F map to 5, 4, 3, 2, 1, 0; the six letters are distinct and cover every grade |
| Gpa.CoursePoints | src/lib/utils.ts:33-35 | quality points are between 0 and 5 × credits for non-negative credits, and 0 for zero credits or an F |
| Gpa.TotalGradePoints | src/lib/utils.ts:38-40 | with non-negative credits the total grade points are non-negative |
| Gpa.TotalUnits | src/lib/utils.ts:43-45 | with non-negative credits the total units are non-negative |
| Gpa.ZeroUnitsIff | src/lib/utils.ts:43-45 | with non-negative credits the total units are 0 exactly when every course has 0 credits |
| Gpa.AllFailedZeroPoints | src/lib/utils.ts:33-40 | a list graded F throughout totals 0 grade points, whatever its credits |
| Gpa.TotalGradePointsAppend | src/lib/utils.ts:38-40 | total grade points are additive over concatenation of course lists |
| Gpa.TotalUnitsAppend | src/lib/utils.ts:43-45 | total units are additive over concatenation of course lists |
| Gpa.TotalsBounded | src/lib/utils.ts:38-45 | with non-negative credits, units are non-negative and total points are at most 5 × units |
| Gpa.Round2 | src/lib/utils.ts:54 | the result is a whole number of hundredths within 0.005 of the input, and a tie goes away from zero |
| Gpa.Round2Monotone | src/lib/utils.ts:54 | rounding to hundredths preserves order |
| Gpa.Round2Exact | src/lib/utils.ts:54 | a value that is already a whole number of hundredths is unchanged by rounding |
| Gpa.CalculateGPA | src/lib/utils.ts:48-55 | 0 for the empty list and for zero total units; otherwise a whole number of hundredths within 0.005 of points / units |
| Gpa.GpaInRange | src/lib/utils.ts:10-17 | with non-negative credits and positive total units the GPA lies in [0, 5] |
| Gpa.GpaExample | src/lib/utils.ts:48-55 | 3 credits of A and 4 of B give 4.43 |
| Gpa.CalculateCGPA | src/lib/utils.ts:58-64 | the CGPA is the GPA of the flattened course list |
| Gpa.FlattenAppend | src/lib/utils.ts:59 | flattening distributes over concatenation of semester lists |
| Gpa.CgpaRegroupingInvariant | src/lib/utils.ts:58-64 | two semester lists with the same flattened courses have the same CGPA |
| Gpa.CgpaOfAppend | src/lib/utils.ts:58-64 | the CGPA of two joined semester lists is the GPA of both course lists joined |
| Gpa.CgpaIsNotMeanOfGpas | src/lib/utils.ts:58-64 | 3 credits of A and 10 credits of D give a CGPA of 2.69, while the mean of the two semester GPAs is 3.5 |
| Grading.FindByLetter | src/lib/gradingUtils.ts:28 | the index of the first range with that letter, or none when no range has it |
| Grading.FindByPoints | src/lib/gradingUtils.ts:32 | the index of the first range with those points, or none when no range has them |
| Grading.FindContaining | src/lib/gradingUtils.ts:40-42 | the index of the first range whose closed interval contains the percentage, or none |
| Grading.ToPercentage | src/lib/gradingUtils.ts:17-34 | a percentage number passes through and a percentage text becomes `Number(text)`; a letter becomes the midpoint of the first range with that letter, or 0 when none has it or the value is a number; a points value, number or text read by `Number`, becomes the midpoint of the first range with those points, or 0 when none has them or the text is not a number |
| Grading.TextReadsAsNumber | src/lib/gradingUtils.ts:25-33 | under the percentage and points formats, a text converts exactly like the number `Number` reads from it |
| Grading.NotANumberPointsIsZero | src/lib/gradingUtils.ts:32-33 | under the points format, a text that is not a number matches no range and converts to 0 |
| Grading.FromPercentage | src/lib/gradingUtils.ts:36-50 | to a letter: the first containing range's letter, else "F"; to points: its points, else 0; to a percentage: the value itself |
| Grading.ConvertGrade | src/lib/gradingUtils.ts:17-51 | percentage to percentage is the identity; letter targets give letters and points targets give numbers; only a percentage source can give not-a-number |
| Grading.DefaultSystemShape | src/lib/gradingUtils.ts:3-15 | the built-in scale has maximum 5.0 and six well-formed, pairwise disjoint ranges in strictly descending order |
| Grading.PercentageIdentity | src/lib/gradingUtils.ts:25-26 | converting a number from percentage to percentage returns it unchanged |
| Grading.LetterRoundTrip | src/lib/gradingUtils.ts:27-29 | on a scale of well-formed, pairwise disjoint ranges, letter → percentage → letter returns any letter that occurs |
| Grading.PercentageLetterStable | src/lib/gradingUtils.ts:39-43 | on such a scale, a covered percentage → letter → percentage → letter gives the same letter again |
| Grading.DefaultLetterRoundTrip | src/lib/gradingUtils.ts:27-29 | on the built-in scale A → 85, B → 64.995 and F → 19.995 percent |
| Grading.DefaultLetterLookups | src/lib/gradingUtils.ts:27-46 | on the built-in scale B → 4 points, and a letter the scale does not carry → 0 percent |
| Grading.DefaultScaleSliver | src/lib/gradingUtils.ts:39-50 | on the built-in scale 69.995 percent lies in no range and converts to "F" and to 0 points, while 70 converts to "A" |
| Validation.SortByMinDesc | src/lib/gradingUtils.ts:71 | the sorted ranges are a permutation of the input in descending order of lower bound |
| Validation.SortIsStable | src/lib/gradingUtils.ts:71 | ranges with equal lower bounds keep their relative order |
| Validation.SortKeepsDescending | src/lib/gradingUtils.ts:71 | sorting an already descending list leaves it unchanged |
| Validation.Message | src/lib/gradingUtils.ts:65-74 | an overlap error reads "Overlapping grade ranges detected between X and Y" and a gap error "Gap detected between grade ranges X and Y", with the two letters in order |
| Validation.MessageKindsDiffer | src/lib/gradingUtils.ts:65-74 | no overlap message equals a gap message |
| Validation.OverlapsIsIntersect | src/lib/gradingUtils.ts:59-63 | the two-disjunct test holds exactly when the closed intervals share a point, and it is symmetric |
| Validation.PairErrors | src/lib/gradingUtils.ts:65 | one error per listed pair; error k is the overlap error naming the letters of pair k, first then second |
| Validation.GapErrors | src/lib/gradingUtils.ts:72-76 | at most one error per adjacent pair, and only gap errors; the exact contents are GapErrorsExact |
| Validation.GapIndicesUpToExact | src/lib/gradingUtils.ts:72-73 | the gap positions scanned below n are increasing and are exactly the k < n with t[k].min ≠ t[k+1].max |
| Validation.GapsUpToExact | src/lib/gradingUtils.ts:72-76 | the scan below n reports one error per gap position, error i naming the letters of ranges k and k+1 for the i-th gap position k |
| Validation.GapErrorsExact | src/lib/gradingUtils.ts:72-76 | one gap error per adjacent pair whose boundaries differ, in increasing position order, error i naming the upper then the lower range's letter |
| Validation.GapErrorsMembers | src/lib/gradingUtils.ts:72-76 | an error is reported exactly when it is the gap error of the two letters of some adjacent pair whose boundaries differ |
| Validation.ValidationErrors | src/lib/gradingUtils.ts:53-79 | one overlap error per overlapping pair, then the gap errors of the sorted list, and nothing else |
| Validation.OverlapPairsExact | src/lib/gradingUtils.ts:56-68 | a pair (i, j) is reported exactly when i < j and the ranges overlap, in loop order and without repetition |
| Validation.CollectOverlaps | src/lib/gradingUtils.ts:56-68 | the nested loops produce the overlap error for each overlapping pair, in loop order |
| Validation.CollectRow | src/lib/gradingUtils.ts:57-67 | the inner loop for one range produces the overlap error for each later range that overlaps it, in order |
| Validation.PairsBelowStep | src/lib/gradingUtils.ts:57-67 | one more pass of the outer loop appends exactly that row's overlap errors |
| Validation.CollectGaps | src/lib/gradingUtils.ts:72-76 | the gap loop produces one error per adjacent pair whose upper range's min differs from the lower range's max |
| Validation.ValidateGradingSystem | src/lib/gradingUtils.ts:53-79 | the errors are the overlap errors followed by the gap errors; the system comes back with its ranges permuted into descending order; there are no errors exactly when nothing overlaps and the sorted ranges are contiguous; two or more well-formed ranges always give an error |
| Validation.SmallSystemsPass | src/lib/gradingUtils.ts:56-76 | a system with zero or one range gets no error |
| Validation.OverlapErrorsEmptyIff | src/lib/gradingUtils.ts:56-68 | no overlap error exactly when no two ranges overlap |
| Validation.GapErrorsEmptyIff | src/lib/gradingUtils.ts:72-76 | no gap error exactly when each adjacent pair shares its boundary |
| Validation.ValidationErrorsEmptyIff | src/lib/gradingUtils.ts:53-79 | the validator accepts exactly the overlap-free scales that are contiguous once sorted |
| Validation.DistinctOrigins | src/lib/gradingUtils.ts:71 | two positions of the sorted list come from two distinct positions of the input |
| Validation.EveryScaleRejected | src/lib/gradingUtils.ts:56-76 | any scale with two or more ranges whose min does not exceed its max gets at least one error |
| Validation.DefaultSystemErrors | src/lib/gradingUtils.ts:3-15 | the built-in scale gets exactly five gap errors (A/B, B/C, C/D, D/E, E/F) and no overlap error |
| Validation.TwoRangeGapExample | src/lib/gradingUtils.ts:70-76 | A [80, 100] with B [50, 79] is rejected with one gap error |
| Validation.SharedBoundaryExample | src/lib/gradingUtils.ts:56-68 | P [50, 100] with F [0, 50] shares a boundary and is rejected with one overlap error |
| Courses.NewCourse | src/components/GradePrediction/FutureCoursesSimulator.tsx:24-29 | a new course has an empty name, 3 credits and grade A, worth 15 quality points |
| Courses.ApplyEdit | src/components/GradePrediction/FutureCoursesSimulator.tsx:40 | the edited field holds the new value and every other field is unchanged |
| Courses.AppendCourse | src/components/GradePrediction/FutureCoursesSimulator.tsx:21-31 | exactly one default course is added at the end, and the existing entries are unchanged |
| Courses.UpdateById | src/components/GradePrediction/FutureCoursesSimulator.tsx:33-43 | length and order are kept; courses with another id are unchanged; matching courses change only the edited field |
| Courses.RemoveById | src/components/GradePrediction/FutureCoursesSimulator.tsx:45-47 | a course remains exactly when it was present and its id differs |
| Courses.RemoveByIdAppend | src/components/GradePrediction/FutureCoursesSimulator.tsx:46 | removal distributes over concatenation, so the survivors keep their relative order |
| Courses.RemoveAbsentId | src/components/GradePrediction/FutureCoursesSimulator.tsx:46 | removing an id no course carries changes nothing |
| Courses.RemoveByIdIdempotent | src/components/GradePrediction/FutureCoursesSimulator.tsx:46 | removing the same id twice equals removing it once |
| Courses.SameGradingSameTotals | src/lib/utils.ts:38-45 | two lists that agree course by course on credits and grade have the same total points and units |
| Courses.RenameKeepsTotals | src/components/Semesters/SemesterList.tsx:112-117 | renaming courses changes neither totals nor GPA |
| Courses.ParseCredits | src/components/GradePrediction/FutureCoursesSimulator.tsx:69 | non-numeric credits text is stored as 0; parsed numbers are kept |
| Courses.ParseCreditsFallback | src/components/GradePrediction/FutureCoursesSimulator.tsx:69 | the stored credits are 0 exactly when the text is not numeric or reads as 0, and storing is stable when the stored value is read back |
| Courses.GradeOptions | src/components/GradePrediction/FutureCoursesSimulator.tsx:85 | the grade choices are the letters of the points table, in order |
| Courses.GradeOptionsAreLetters | src/components/Semesters/SemesterList.tsx:198 | the choices are exactly "A" to "F", and every grade's letter is offered |
| FutureCourses.Step | src/components/GradePrediction/FutureCoursesSimulator.tsx:21-47 | add appends one default course; update changes only the edited field of matching courses; remove keeps exactly the other ids |
| FutureCourses.Simulate | src/components/GradePrediction/FutureCoursesSimulator.tsx:112 | the list is handed over unchanged |
| TargetInput.HandleTargetChange | src/components/GradePrediction/TargetGPAInput.tsx:13-24 | no call for a target below 0 or above 4.0; otherwise exactly one call with the target |
| TargetInput.ApplyTarget | src/components/GradePrediction/TargetGPAInput.tsx:15-23 | an accepted target replaces the stored one; a rejected one leaves it |
| TargetInput.TargetBoundaries | src/components/GradePrediction/TargetGPAInput.tsx:15 | 0 and 4.0 are accepted; 5.1 and -0.1 are rejected |
| SimulationResults.Divide | src/components/GradePrediction/SimulationResults.tsx:14 | a non-zero divisor gives the exact quotient; zero gives an infinity, or not-a-number for 0/0 |
| SimulationResults.ComputeResults | src/components/GradePrediction/SimulationResults.tsx:13-15 | achievable exactly when projected ≥ target; for a non-zero target, progress × target = projected × 100 |
| SimulationResults.AchievableIffFullProgress | src/components/GradePrediction/SimulationResults.tsx:14-15 | for a positive target, achievable exactly when progress is at least 100 |
| SimulationResults.ZeroTargetProgress | src/components/GradePrediction/SimulationResults.tsx:14-15 | a target of 0 gives a non-finite progress, and any non-negative projection counts as achievable |
| SimulationResults.CurrentCgpaIrrelevant | src/components/GradePrediction/SimulationResults.tsx:13-15 | the current CGPA changes neither progress nor achievability |
| Prediction.ProjectCGPA | src/components/GradePrediction/GradePredictionContainer.tsx:24-30 | the projection is the GPA of all current courses followed by the future ones |
| Prediction.InitialState | src/components/GradePrediction/GradePredictionContainer.tsx:19-22 | target 5.0, projection equal to the current CGPA, and the built-in scale |
| Prediction.HandleSimulation | src/components/GradePrediction/GradePredictionContainer.tsx:24-31 | a simulation replaces only the projection |
| Prediction.HandleTarget | src/components/GradePrediction/GradePredictionContainer.tsx:37 | the stored target changes only for a typed value in [0, 4.0] |
| Prediction.ProjectionWithoutFuture | src/components/GradePrediction/GradePredictionContainer.tsx:19-30 | with no future courses the projection equals the current CGPA |
| Prediction.ProjectionRegroupingInvariant | src/components/GradePrediction/GradePredictionContainer.tsx:25-29 | the projection does not depend on how the current courses are split into semesters |
| Prediction.ProjectionIsCgpaWithExtraSemester | src/components/GradePrediction/GradePredictionContainer.tsx:24-30 | the projection is the CGPA with one more semester holding the future courses |
| Prediction.InitialTargetUnreachable | src/components/GradePrediction/GradePredictionContainer.tsx:20 | after a typed target the stored target is 5.0 only if it already was and the typed value was rejected |
| GradingEditor.ApplyRangeEdit | src/components/GradePrediction/GradingSystemManager.tsx:99-147 | one field of a range takes the new value and the other three are unchanged |
| GradingEditor.HandleSave | src/components/GradePrediction/GradingSystemManager.tsx:25-39 | the active ranges end up sorted either way; with errors nothing is published and editing continues; without errors the scale is published once and editing ends |
| GradingEditor.Step | src/components/GradePrediction/GradingSystemManager.tsx:21-163 | Customize enters editing; name, maximum and range edits change only their field (a range edit only entry i); Cancel leaves editing without reverting edits; only Save can publish |
| GradingEditor.Deliver | src/components/GradePrediction/GradePredictionContainer.tsx:36 | a published scale becomes the container's scale; target and projection are untouched |
| GradingEditor.SortedScaleAccepted | src/lib/gradingUtils.ts:53-79 | the in-place sort never turns an accepted scale into a rejected one |
| GradingEditor.PublishedScalesAreValid | src/components/GradePrediction/GradingSystemManager.tsx:25-39 | every published scale is one the validator accepts |
| GradingEditor.ContainerScaleStaysValid | src/components/GradePrediction/GradePredictionContainer.tsx:22 | the container's scale is always the built-in one or a scale the validator accepts |
| GradingEditor.InitialContainerScaleOk | src/components/GradePrediction/GradePredictionContainer.tsx:22 | the container starts with the built-in scale |
| GradingEditor.NoOverlapsPermutation | src/lib/gradingUtils.ts:56-71 | re-ordering the ranges cannot create an overlap |
| GradingEditor.SaveAlwaysFails | src/components/GradePrediction/GradingSystemManager.tsx:25-34 | saving two or more well-formed ranges always fails, publishes nothing and stays in the editor |
| GradingEditor.DefaultCannotBeSaved | src/components/GradePrediction/GradingSystemManager.tsx:21-47 | Customize then Save on the built-in scale is refused with its five gap errors |
| GradingEditor.SaveKeepsRanges | src/components/GradePrediction/GradingSystemManager.tsx:155 | saving only re-orders the active ranges |
| GradingEditor.CancelKeepsEdits | src/components/GradePrediction/GradingSystemManager.tsx:160-163 | after an edit, Cancel leaves editing and keeps the edited name |
| SemesterList.NewCourseRequest | src/components/Semesters/SemesterList.tsx:25-30 | the inserted row has the semester id, an empty name, 3 credits and grade A |
| SemesterList.AddCourse | src/components/Semesters/SemesterList.tsx:32-53 | a failure changes nothing; on success the stored course is appended to each matching semester and the others are untouched |
| SemesterList.NewSemesterRequest | src/components/Semesters/SemesterList.tsx:65-77 | nothing is sent without a user; otherwise the name is "Semester n+1" for n existing semesters |
| SemesterList.AddSemester | src/components/Semesters/SemesterList.tsx:64-91 | no user or a failure changes nothing; on success one empty semester with the new name is appended |
| SemesterList.UpdateCourse | src/components/Semesters/SemesterList.tsx:93-127 | a failure changes nothing; on success only the matching semester's matching courses change, and only in the edited field |
| SemesterList.SemesterNames | src/components/Semesters/SemesterList.tsx:75 | the first semester is "Semester 1" and the tenth is "Semester 10" |
| SemesterList.NatToStringInjective | src/components/Semesters/SemesterList.tsx:75 | different semester counts give different names |
| SemesterList.AddCourseLocality | src/components/Semesters/SemesterList.tsx:40-53 | adding a course changes no other semester's GPA and adds its credits to its own semester |
| SemesterList.AddSemesterKeepsCgpa | src/components/Semesters/SemesterList.tsx:83 | adding a semester never changes the CGPA |
| SemesterList.RenameKeepsDisplayedGpas | src/components/Semesters/SemesterList.tsx:107-122 | renaming a course changes no displayed semester GPA |
| Issues.KindLabel | src/components/Issues/CourseIssuesAlert.tsx:146 | the badge reads "carryover", "incomplete" or "low grade" |
| Issues.IssueOf | src/components/Issues/CourseIssuesAlert.tsx:80-105 | an issue arises exactly for a missing or empty grade ("incomplete", shown as "N/A"), "F" ("carryover") or "E" ("low_grade"); it carries the course id, name and semester name |
| Issues.CourseIssues | src/components/Issues/CourseIssuesAlert.tsx:81-106 | at most one issue per course; each carries the semester's name and the grade its kind shows: "N/A", "F" or "E" |
| Issues.ScanSemester | src/components/Issues/CourseIssuesAlert.tsx:81-106 | the inner loop lists one semester's issues in course order |
| Issues.IssuesOf | src/components/Issues/CourseIssuesAlert.tsx:76-110 | every detected issue shows the grade of its kind |
| Issues.DetectIssues | src/components/Issues/CourseIssuesAlert.tsx:76-110 | the nested loops list the issues semester by semester, then course by course; an issue is listed exactly when some course raises it |
| Issues.AlertContents | src/components/Issues/CourseIssuesAlert.tsx:112-116 | nothing is rendered exactly when no course raises an issue |
| Issues.CourseIssuesMembers | src/components/Issues/CourseIssuesAlert.tsx:80-106 | a semester's issues are exactly those its courses raise |
| Issues.IssuesOfMembers | src/components/Issues/CourseIssuesAlert.tsx:79-107 | all issues are exactly those some course of some semester raises |
| Issues.IssuesOfAppend | src/components/Issues/CourseIssuesAlert.tsx:79-107 | detection distributes over concatenation, so semester order is kept |
| Issues.TypedCourseIssues | src/components/Issues/CourseIssuesAlert.tsx:81-105 | for courses with one of the six letters, nothing is incomplete and there is one issue per E or F |
| Issues.NoAlertWhenAllPass | src/components/Issues/CourseIssuesAlert.tsx:112-116 | grades A to D everywhere mean no alert; the `passingGrade` prop is never read by the detector |
| Issues.IncompleteExample | src/components/Issues/CourseIssuesAlert.tsx:81-88 | a course without a grade next to a B gives one incomplete issue with grade "N/A" |
| Achievements.CalculateAchievements | src/components/Achievements/AchievementsContainer.tsx:12-50 | three achievements in the order deans-list, improvement, excellence, with their unlock conditions and unclamped progress formulas |
| Achievements.UnlockedToasts | src/components/Achievements/AchievementsContainer.tsx:56-61 | at most one toast per achievement; a title is raised exactly when some unlocked achievement has that name |
| Achievements.UnlockedToastsAppend | src/components/Achievements/AchievementsContainer.tsx:56-61 | the toasts of a joined list are those of the first part followed by those of the second, so display order is kept |
| Achievements.ToastsOfAchievements | src/components/Achievements/AchievementsContainer.tsx:12-61 | exactly "Achievement Unlocked: Dean's List" from 4.5, then "…: Rising Star" above a non-zero previous CGPA, then "…: Academic Excellence" at 5.0, in that order and nothing else |
| Achievements.PreviousCgpa | src/pages/Index.tsx:97-99 | the previous CGPA exists exactly with two or more semesters, and is the GPA of the second-to-last one |
| Achievements.ExcellenceImpliesDeansList | src/components/Achievements/AchievementsContainer.tsx:22-45 | a perfect 5.0 also unlocks the Dean's List |
| Achievements.DeansListProgress | src/components/Achievements/AchievementsContainer.tsx:22-23 | the Dean's List is unlocked exactly when its progress reaches 100 |
| Achievements.ImprovementProgress | src/components/Achievements/AchievementsContainer.tsx:33-34 | with a previous CGPA, improvement is unlocked exactly when its progress is positive |
| Achievements.ZeroPreviousNeverImproves | src/components/Achievements/AchievementsContainer.tsx:32-34 | a previous CGPA of 0 counts as absent |
| Achievements.ExcellenceProgressOfRecord | src/components/Achievements/AchievementsContainer.tsx:44-45 | for a CGPA of a record with non-negative credits, excellence progress lies in [0, 100] and reaches 100 exactly when unlocked |
| Achievements.ToastExample | src/components/Achievements/AchievementsContainer.tsx:56-61 | a CGPA of 4.6 with no previous semester announces only the Dean's List |
| Categories.FirstWord | src/components/Analytics/CategoryPerformance.tsx:12 | the longest space-free prefix of the name |
| Categories.FirstWordUpTo | src/components/Analytics/CategoryPerformance.tsx:12 | the first word is exactly the prefix up to the first space, or the whole name when it has none |
| Categories.CategoryKey | src/components/Analytics/CategoryPerformance.tsx:12 | the first word of the name, or "Other" when the name is empty or starts with a space |
| Categories.FindGroup | src/components/Analytics/CategoryPerformance.tsx:13 | finds a group with the key, or reports that none exists |
| Categories.AddToGroups | src/components/Analytics/CategoryPerformance.tsx:12-17 | one step adds at most one group and never leaves the list empty |
| Categories.GroupCourses | src/components/Analytics/CategoryPerformance.tsx:11-18 | at most one group per course, and at least one for a non-empty list |
| Categories.GroupsAreFilters | src/components/Analytics/CategoryPerformance.tsx:11-18 | each group holds exactly the courses of its category in input order; categories are distinct and appear in first-occurrence order |
| Categories.AddStep | src/components/Analytics/CategoryPerformance.tsx:12-17 | one reduction step preserves those properties |
| Categories.EveryCourseGrouped | src/components/Analytics/CategoryPerformance.tsx:11-18 | every course's category has a group |
| Categories.GroupSizesSum | src/components/Analytics/CategoryPerformance.tsx:11-18 | the group sizes add up to the number of courses |
| Categories.CategoryData | src/components/Analytics/CategoryPerformance.tsx:20-24 | one row per category, distinct and non-empty, each with the GPA and count of exactly that category's courses |
| Categories.CategoryExamples | src/components/Analytics/CategoryPerformance.tsx:12 | "Math 101" is in "Math", "Physics" in "Physics", and " Lab" and "" in "Other" |

## Left out

- Backend I/O is left out: fetches, realtime subscriptions, inserts and updates. Each write's outcome is an input (`Failed` or `Stored(row)`).
- Auth is left out: the signed-in user is an optional input. Routing and the loading timer are also left out.
- Toasts, error logging and the loading flag are not modelled. The only exceptions are the validator's error list (`GradingEditor.Outcome.shown`) and the achievement toast titles.
- The `passingGrade` prop of the issues alert (default 'D', CourseIssuesAlert.tsx line 32) is left out: detection only tests for a missing grade, "F" and "E", and never reads it.
- The meeting-scheduling dialog, its time slots and the meeting-link generator are left out. They are UI and randomness, with no bearing on the issue list.
- Chart rendering, card icons and styling are left out.
- `crypto.randomUUID` is left out: new ids are parameters.
- Binary floating point is left out. Sums, divisions and `toFixed(2)` are exact on `real`. So a binary tie such as 1.005, which `toFixed` may round down, is rounded up here.
- NaN from `parseFloat`/`parseInt` in the form fields is left out. A NaN target would pass the range check, and NaN bounds or points could reach the grading editor. Credits use `ParseCredits`, where "not numeric" is `None`.
- The string form of `convertGrade`'s input is modelled through the `parse` parameter: `Number(text)`, or none for NaN. The parsing of numeric text itself is left out.
- Categories.CategoryData: rows are ordered by the first occurrence of each category. JavaScript lists array-index-like keys (a name starting with "101 ") first, in ascending numeric order. Keys that collide with object prototype members (such as "constructor") are also left out.
- SemesterList.AddSemester: the stored row is assumed to carry the requested name. The semester count is read when the click is handled, as the source does. Any concurrent addition is not modelled.
- SemesterList.AddCourse: the stored row is taken as the appended course, with no check that it matches the request.
- GradingEditor.Step: the weights field of a scale is neither edited nor read, so it is not modelled. After a failed save, the rows are assumed to show the re-sorted ranges, so a later edit at index i changes the i-th sorted range.
- The 4.0 limit of the target input and the 5.0 grade scale disagree. Both are modelled as written, and nothing converts between them.
- Display formatting of GPAs (`toFixed(2)` on a value already rounded) is left out.
