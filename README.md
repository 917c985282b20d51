# Weekly schedule: the timetable allocator and the roster editor

This project models the logic of the school timetable page in
`src/App.js` and proves properties of it. The page has two parts.

- **The allocator** (`generateSchedule`) fills a weekly grid in one
  deterministic pass. The grid is 16 classes (S1A..S4C, then S5A, S5B,
  S6A, S6B) × 6 days × 6 periods. For every slot it does the following:
  - filters the staff by level, stream, load cap, daily cap, availability
    and "not this class today yet";
  - ranks the survivors by `periodsAssigned + dailyAssignments[day]`,
    with a stable sort;
  - takes the first survivor and chooses its subject;
  - updates that teacher's counters and writes the cell;
  - applies the three mirror rules: simultaneous subjects, General Paper
    and SubMath/ICT;
  - at the end, writes each teacher's period total back into the roster.
- **The roster editor** holds a form of subject rows, a day toggle, and
  the add, merge and remove operations on the stored roster.

Modules:

- `Wrappers` and `Sequences` (sequences.dfy): `Option`/`Result`, and the
  list operations the page uses: `findIndex`, `splice` and
  `[...new Set(xs)]`.
- `Grid` (grid.dfy): days, the six periods, levels, streams, the class
  enumeration and the sibling-stream rule.
- `Subjects` (subjects.dfy): the subject catalogue, the category lists,
  the simultaneous-subject table, and which arm of the category chain
  claims a subject.
- `Allocation` (allocation.dfy): the per-teacher counters, the schedule
  (a map from (class, day, period) to cell), eligibility, ranking, subject
  choice, the commit, the mirrors and one slot's step, all as functions.
- `Passes` (passes.dfy): the period, day and class passes, the whole run
  and the write-back, as functions of the run's state.
- `RunInvariants` (invariants.dfy): what holds of every run. This covers
  the counter invariant, the shape of the final grid, the only way a run
  can fail, and the reported totals.
- `Scheduler` (scheduler.dfy): the allocator in the source's own form. A
  class holds the mutable counter list and the schedule, and nested loops
  write cell by cell. Each method is proved to compute the corresponding
  function of `Allocation`/`Passes`. `GenerateSchedule` is proved equal
  to `Passes.Generate`.
- `Roster` (roster.dfy): the editor operations as pure functions over
  the editor's state.

What the proofs show about the allocator as written:

- **Every slot meets a blank cell.** A class's cells are set to
  `Unassigned`/`-` just before its days are filled. So the compulsory and
  optional arms of the subject choice never succeed. The chosen subject is
  therefore General Paper, SubMath, a name outside the catalogue, or none
  at all. Islam and ENT are never chosen, so the simultaneous path never
  fires during a run.
- **The category test never rejects.** The filter's category callback
  ends in an unconditional `return true`. A teacher past the first six
  tests is therefore kept exactly when it lists any subject.
- **The counters stay within their caps.** Every counter entry satisfies
  all of the following throughout a run:
  - at most 4 slots a day;
  - one list entry per slot, with no class twice on the same day;
  - only available days, and only classes the teacher teaches;
  - total = sum of the daily counts, and quadrals ≤ doubles ≤ total;
  - the load cap `periodsAssigned < 1.2 × target`, stated exactly as
    `5 × total < 6 × target` before each pick.
- **Some runs stop with a TypeError.** A General Paper or SubMath/ICT
  pick in an A-stream class mirrors into its B sibling. That sibling has
  not been set up yet, so the write throws and the run stops without
  writing anything back. The model returns this as
  `Failure(UndefinedClass(...))`. Every failure names a B-stream class. A
  completed run has exactly the 16 × 6 × 6 slots. A one-teacher roster
  that teaches SubMath to S1 on Monday already fails on the first slot of
  S1A (`RunInvariants.SubsidiaryMirrorAborts`).
- **The SubMath/ICT mirror has no level guard.** The General Paper
  mirror (line 370) applies only in S5 and S6, but the SubMath/ICT mirror
  (line 381) applies at every level. A mirror into a class that is not
  set up yet throws in the middle of the run, after earlier classes have
  been filled; the model returns that error in place of the partial grid.

## Model

| member | source | states |
|---|---|---|
| Sequences.FirstIndex | src/App.js:292 | `findIndex`: the first position satisfying the predicate, or -1 when none does |
| Sequences.RemoveAt | src/App.js:34 | `splice(index, 1)`: removes exactly the element at `index` and shifts the rest down; no change past the end |
| Sequences.DedupeMembers | src/App.js:140 | `[...new Set(xs)]` has no repeats and the same members as `xs` |
| Sequences.DedupeOrder | src/App.js:140 | `[...new Set(xs)]` lists the distinct elements in the order of their first occurrence in `xs` |
| Sequences.DedupeKeepsPrefix | src/App.js:140 | deduplicating `a + b` keeps a repeat-free `a` first and in order |
| Grid.DayPosition | src/App.js:82 | `days.indexOf(d)` is the day's position in the week |
| Grid.PeriodNumbering | src/App.js:73-80 | six periods, numbered 1 to 6 in order |
| Grid.Sibling | src/App.js:371-372 | the other class has the same level; stream A pairs with B and every other stream pairs with A |
| Grid.ClassesEnumeration | src/App.js:84-88 | the 16 classes in the order the allocator visits them |
| Grid.ClassesDistinct | src/App.js:84-88 | the enumeration has 16 distinct classes |
| Grid.PositionOfClasses | src/App.js:84-88 | each class's position in the enumeration |
| Grid.SiblingPlacement | src/App.js:84-88 | a class's sibling is enumerated, and it comes earlier exactly when the class is not in stream A |
| Subjects.CanonicalNamesDistinct | src/App.js:55-59 | with `Unlisted` never carrying a catalogue name, two subjects are equal iff the strings the source holds for them are equal |
| Subjects.DashCanonical | src/App.js:218 | the '-' placeholder is not a catalogue name |
| Subjects.SimultaneousOf | src/App.js:202-205 | the parallel-subject table has entries for Islam and ENT only |
| Subjects.BranchClassification | src/App.js:188-192 | with these category lists, the P.E, science, history and simultaneous arms of the chain can never run; the rest are decided by compulsory, optional, General Paper in S5/S6, SubMath, or nothing |
| Allocation.StartAssignments | src/App.js:179-186 | every counter starts at zero, whatever the roster stored, and each entry keeps its roster record |
| Allocation.WithEmptyPeriodsEffect | src/App.js:215-221 | one day's initialisation writes the empty cell into each period's slot and leaves every other slot alone |
| Allocation.WithEmptyDaysEffect | src/App.js:213-222 | initialising the given days gives each of their 6 slots the empty cell and leaves everything else alone |
| Allocation.InitClassEffect | src/App.js:212-222 | a class's set-up gives all 36 of its slots the empty cell and changes no other slot |
| Allocation.TargetVanishes | src/App.js:209-210 | the per-teacher target is 0 exactly when the roster has more than 36 teachers |
| Allocation.CategoryFilterNeverRejects | src/App.js:236-283 | past the tests of lines 230-235, a teacher is kept iff its subject list is non-empty |
| Allocation.CandidatesUpTo | src/App.js:229-283 | the filtered list holds exactly the eligible teachers, in roster order |
| Allocation.InsertByLoad | src/App.js:284-288 | insertion step of the stable sort by load: a permutation of the input plus the new element |
| Allocation.InsertByLoadSorted | src/App.js:284-288 | inserting into a list ascending by load keeps it ascending |
| Allocation.InsertByLoadStable | src/App.js:284-288 | the inserted element lands after every element of its own load: each load class of the result is that class of the input, followed by the element when it belongs there |
| Allocation.SortByLoad | src/App.js:284-288 | the sort by load is a permutation of the candidates |
| Allocation.SortByLoadSorted | src/App.js:284-288 | the sort's output is ascending by load |
| Allocation.SortByLoadStable | src/App.js:284-288 | the sort is stable: the elements of each load keep their input order (with the permutation and the ascending order, this fixes the output) |
| Allocation.FirstLeast | src/App.js:284-291 | the earliest candidate of least load: no candidate is lighter, and every earlier one is strictly heavier |
| Allocation.SortedHeadIsFirstLeast | src/App.js:284-291 | the head of the stable sort is the earliest least-loaded candidate |
| Allocation.Pick | src/App.js:290-291 | the picked teacher is an index into the counter list |
| Allocation.PickIsEligible | src/App.js:229-235 | a picked teacher has the level, the stream in S5/S6, load under the cap, fewer than 4 slots that day, the day available, not this class today, and some subject; nobody is picked iff nobody meets all of these |
| Allocation.PickIsLeastLoaded | src/App.js:284-291 | the picked teacher is eligible, no eligible teacher has less load, and every eligible teacher before it has strictly more |
| Allocation.ZeroTargetPicksNobody | src/App.js:232 | with a target of 0 nobody is ever picked |
| Allocation.FindSubject | src/App.js:294-314 | `subjects.find`: a returned subject is listed and passes its arm's test; none is returned iff no listed subject passes |
| Allocation.FindSubjectFirst | src/App.js:294-314 | the subject returned is the first listed one that passes: no subject listed before it passes |
| Allocation.SubjectOnEmptyCell | src/App.js:294-314 | on a fresh cell the chosen subject is General Paper (with its quadral test in S5/S6), SubMath (with its test), or an uncatalogued name, and never Islam or ENT |
| Allocation.Commit | src/App.js:316-329 | total +1, today's count +1, the class appended to today's list, quadrals +1 iff the period is odd and below 6, doubles +1 iff it is odd; other days and the staff record unchanged |
| Allocation.IndexOfId | src/App.js:292 | the first counter entry with the given id, or -1 |
| Allocation.IndexOfOwnId | src/App.js:292 | with distinct ids, looking up an entry's own id finds that entry |
| Allocation.CommitById | src/App.js:344-358 | committing through the id lookup keeps the list's length and ids |
| Allocation.CommitByIdAt | src/App.js:292-329 | with distinct ids, the commit through the id lookup replaces exactly the picked entry with its committed copy |
| Allocation.ParallelTeacher | src/App.js:342 | the parallel-subject teacher search returns the first entry that lists the subject, the level and the stream, and -1 iff no entry does |
| Allocation.TeachSimultaneous | src/App.js:338-367 | the parallel-subject loop keeps the slot set and the ids, and writes no slot other than the current one |
| Allocation.MirrorInto | src/App.js:373-389 | a mirror write fails iff the target slot does not exist; otherwise it replaces exactly that cell |
| Allocation.PrimaryStep | src/App.js:290-367 | the pick's commit and cell write keep the slot set and ids, change only the current slot, and put the teacher's name, the chosen subject and the time there |
| Allocation.MirrorStep | src/App.js:369-390 | the two mirrors never touch the counters or add a slot |
| Allocation.MirrorStepEffect | src/App.js:369-390 | the mirrors fail iff a rule fires and the partner class has no cell there, naming the partner; otherwise the partner's cell gets the other subsidiary subject, or the General Paper copy, or stays unchanged |
| Allocation.SlotStep | src/App.js:228-391 | a completed slot step keeps the slot set and the ids |
| Allocation.SlotStepOutcome | src/App.js:290-390 | with no candidate nothing changes; the step fails iff a mirror rule fires and the sibling's slot is missing, and the error names the sibling |
| Allocation.SlotStepFrame | src/App.js:331-390 | a slot step changes at most the current slot and the sibling's slot |
| Allocation.SlotStepCells | src/App.js:331-390 | after a pick, the cell holds the teacher, subject and time. After General Paper in S5/S6 the sibling cell holds the same; after SubMath/ICT it holds the same teacher with the other subject of the pair. Otherwise the sibling cell is unchanged |
| Allocation.SlotStepCounters | src/App.js:316-329 | with distinct ids, only the picked teacher's entry changes, and it changes by exactly one commit |
| Passes.PeriodsPass | src/App.js:228-392 | a completed day keeps the slot set and the ids |
| Passes.DaysPass | src/App.js:227-393 | a completed class keeps the slot set and the ids |
| Passes.Prepare | src/App.js:212-222 | after set-up all of the class's slots exist and the counters are untouched |
| Passes.ClassesPass | src/App.js:207-394 | a completed pass keeps the ids |
| Passes.Run | src/App.js:176-394 | a completed run has one counter entry per roster entry, with the same ids in the same order |
| Passes.WriteBack | src/App.js:396-402 | same length and order; every field except `periodsAssigned` unchanged; each total comes from a counter entry with the same id |
| Passes.Generate | src/App.js:396-403 | the page gets the run's schedule and an updated roster of the same length; nothing when the run fails |
| RunInvariants.DaySumCommit | src/App.js:319-322 | a commit adds one to the sum of the daily counts over the week |
| RunInvariants.StartIsOk | src/App.js:179-186 | the zeroed counters satisfy the counter invariant |
| RunInvariants.CommitKeepsLoadOk | src/App.js:229-329 | committing an eligible teacher keeps the daily cap of 4, one class per day, available days only, the taught classes only, total = sum of daily counts, quadrals ≤ doubles ≤ total, and the load cap |
| RunInvariants.UpdateKeepsCounters | src/App.js:316 | replacing one entry with a valid copy of itself keeps the invariant, the distinct ids and the staff records |
| RunInvariants.StepKeepsCounters | src/App.js:229-391 | a slot step on a blank cell keeps the counter invariant |
| RunInvariants.PeriodsPassFrame | src/App.js:228-392 | a day's pass leaves the cells of every other day alone |
| RunInvariants.PeriodsPassKeepsCounters | src/App.js:228-392 | a day's pass over blank cells keeps the counter invariant |
| RunInvariants.DaysPassKeepsCounters | src/App.js:227-393 | a class's pass over its blank cells keeps the counter invariant |
| RunInvariants.ClassesPassKeepsCounters | src/App.js:207-394 | the pass over the classes keeps the counter invariant |
| RunInvariants.RunKeepsCounters | src/App.js:176-394 | with distinct ids, the counters of a completed run satisfy the daily cap, the class-once-a-day rule, availability, the taught classes, and the load cap |
| RunInvariants.PeriodsPassFailure | src/App.js:370-390 | a day's pass fails only on a mirror into a sibling that is not set up, and the error names it |
| RunInvariants.DaysPassFailure | src/App.js:227-393 | a class's pass fails only on a mirror into a sibling that is not set up |
| RunInvariants.UnreadyPartnerIsB | src/App.js:371-373 | the only sibling that can be missing when a class is filled is the B class after an A class |
| RunInvariants.PrepareKeys | src/App.js:212-222 | setting up one more class adds exactly its 36 slots |
| RunInvariants.ClassesPassKeys | src/App.js:207-394 | a completed pass over the classes has all their slots and no others |
| RunInvariants.ClassesPassFailure | src/App.js:207-394 | a failed pass over the classes names a B-stream class |
| RunInvariants.RunShape | src/App.js:207-394 | a completed run has exactly the 16 × 6 × 6 slots; a failed run names a B-stream class |
| RunInvariants.SubsidiaryMirrorAborts | src/App.js:207-390 | a one-teacher roster teaching SubMath to S1 on Monday fails on the first slot, naming S1B |
| RunInvariants.FirstSlotChoosesSubMath | src/App.js:229-314 | on the first slot of S1A, that teacher is picked and given SubMath |
| RunInvariants.WriteBackOwnTotals | src/App.js:396-402 | with distinct ids, each roster entry gets its own counter entry's total |
| RunInvariants.GenerateReportsTotals | src/App.js:396-402 | each reported entry is the roster entry with its run total, the total is the sum of its daily counts, and it was under the cap before its last pick |
| Scheduler.Timetabler.constructor | src/App.js:178-186 | the object starts with the zeroed counters, an empty schedule and the target |
| Scheduler.Timetabler.SetUpClass | src/App.js:212-222 | the loops over days and periods produce exactly the class set-up |
| Scheduler.Timetabler.TeachParallel | src/App.js:341-365 | the loop over the parallel subjects computes the parallel-subject step |
| Scheduler.Timetabler.TeachPrimary | src/App.js:290-367 | the in-place commit by id, the cell write and the parallel subjects leave exactly the state of `Allocation.PrimaryStep`, and report the teacher's name and the subject found |
| Scheduler.Timetabler.MirrorPartner | src/App.js:369-390 | the in-place mirror writes end in the state `Allocation.MirrorStep` gives, or report its error |
| Scheduler.Timetabler.AssignSlot | src/App.js:229-391 | the reported error and final state are exactly the outcome of `Allocation.SlotStep` on the starting state |
| Scheduler.Timetabler.ScheduleDay | src/App.js:228-392 | the loop over the periods ends with exactly the outcome of the day's pass, stopping at the first failure |
| Scheduler.Timetabler.ScheduleDays | src/App.js:228-393 | the loop over the days of a set-up class ends with exactly the outcome of the days pass |
| Scheduler.Timetabler.ScheduleClass | src/App.js:207-393 | one class's set-up followed by its days ends with exactly the outcome of the class's pass |
| Scheduler.Timetabler.ScheduleAll | src/App.js:207-394 | the loop over the classes ends with exactly the outcome of the pass over them |
| Scheduler.GenerateSchedule | src/App.js:176-406 | the imperative run returns exactly `Passes.Generate(roster)` |
| Roster.AddSubject | src/App.js:21-29 | one blank row appended; earlier rows and the name kept |
| Roster.RemoveSubject | src/App.js:31-37 | the row at `index` removed, the others kept in order |
| Roster.RemoveAddedSubject | src/App.js:21-37 | removing the row just added restores the form |
| Roster.ChangeSubject | src/App.js:39-49 | only the chosen field of the chosen row changes |
| Roster.ChangeOverrides | src/App.js:39-49 | changing the same field of a row twice keeps the second value |
| Roster.ChangesCommute | src/App.js:39-49 | changes to different rows commute |
| Roster.InsertByWeek | src/App.js:99 | inserting a day adds exactly one occurrence of that day and keeps every other one |
| Roster.InsertKeepsOrder | src/App.js:99 | inserting into a week-ordered list keeps it week-ordered |
| Roster.InsertKeepsSelection | src/App.js:99 | inserting a day not yet selected keeps the selection in week order without repeats |
| Roster.InsertThenRemove | src/App.js:94-102 | removing a day just inserted gives the list back |
| Roster.RemoveThenInsert | src/App.js:94-102 | inserting a selected day just removed gives the selection back |
| Roster.SortByWeek | src/App.js:99 | the sort by week position is an ordered permutation |
| Roster.Without | src/App.js:97 | `filter(d => d !== day)` keeps every other day and drops that one |
| Roster.SortOfOrdered | src/App.js:99 | sorting an already ordered selection changes nothing |
| Roster.ToggleMembership | src/App.js:94-102 | a toggled day is added if absent and removed if present; other days stay |
| Roster.ToggleKeepsSelection | src/App.js:94-102 | the selection stays in week order without repeats |
| Roster.ToggleTwice | src/App.js:94-102 | toggling the same day twice restores the selection |
| Roster.NewEntries | src/App.js:139 | the appended rows are exactly the form rows whose subject the teacher lacks |
| Roster.NewEntriesAppend | src/App.js:139 | the filter of a concatenation is the concatenation of the filters, so the form's order is kept |
| Roster.NewEntriesSingle | src/App.js:139 | a single row is kept iff the teacher has no row with its subject |
| Roster.AddTeacher | src/App.js:146-154 | a new name is appended with id = old length + 1 |
| Roster.AdmitRejects | src/App.js:105-120 | the form is refused iff the name is empty, a row has no subject, no day is selected, or an S5/S6 row has no stream; the first alert that applies, in that order, is the one reported |
| Roster.AdmitNewName | src/App.js:146-168 | a new name appends one entry with the form's rows, the selected days, 0 periods and the new id; the form and days reset |
| Roster.RemoveAdmitted | src/App.js:146-174 | removing the entry just added restores the roster |
| Roster.AdmitExistingName | src/App.js:122-144 | for a known name, every entry with that name is merged in place and all others are kept; ids, names and totals are unchanged |
| Roster.MergeEffect | src/App.js:124-141 | stored rows keep their subject and gain the classes and streams of the first form row with that subject (no earlier row has it); the form rows with a subject the teacher lacks are appended; days are the union without repeats, stored days first |
| Roster.RemoveTeacher | src/App.js:171-174 | the entry at `index` removed, the rest kept in order |
| Roster.IdCollisionAfterRemoval | src/App.js:152 | removing a teacher and then adding a new name can reuse an id still in use |
| Roster.NextId | src/App.js:152 | an id larger than every id on the roster |
| Roster.AddTeacherFreshId | src/App.js:146-154 | with a fresh id, adding a teacher keeps the ids distinct |
| Roster.FreshIdKeepsIdsDistinct | src/App.js:146-154 | the fresh-id add keeps the ids distinct in both the new-name and the merge case |
| Roster.RemoveKeepsIdsDistinct | src/App.js:171-174 | removal keeps the ids distinct |
| Roster.ReplayKeepsIdsDistinct | src/App.js:104-174 | any sequence of fresh-id adds and removals keeps the ids distinct |
| Roster.IdsDistinctFromStart | src/App.js:8-13 | from the page's initial empty roster, every sequence of fresh-id adds and removals leaves the ids distinct |

## Findings

| source | as written | input that shows it | evidently intended | confidence | as-written member | corrected member |
|---|---|---|---|---|---|---|
| src/App.js:152 | a new teacher gets `id: teachers.length + 1` | roster with ids 1 and 2; remove the first; add a new name, which gets id 2 again | ids stay unique: the allocator finds teachers by id with `findIndex` (lines 292, 344, 397) | high; not executed | Roster.IdCollisionAfterRemoval | Roster.AddTeacherFreshId |

## Left out

- Rendering, the class selector, the `loading` flag, `alert` and `window.confirm` (lines 8, 51-54, 177, 404-405, 495-719) are left out because they are presentation. A refused form returns a `Rejection` value instead of an alert.
- `localStorage` persistence (lines 62-71) is left out because it is I/O.
- `exportToPDF` (lines 408-493) is left out because it calls a foreign PDF library and the clock.
- The quota constants of lines 194-198 are left out because nothing reads them.
- Period times are carried as opaque labels. The model never interprets them.
- The editor stores subjects as `{subject, classes, streams}` rows, while the allocator reads flat `classes`/`streams` fields and a list of subject names. The source converts neither into the other, so the allocator is modelled over the flat shape it reads (`Allocation.StaffRecord`). On the page, a teacher built by the editor has no top-level `classes`, so `teacher.classes.includes(classLevel)` (line 230) throws on the first slot of any run over such a roster. The model's runs therefore describe only rosters that are already in the flat shape.
- Subject names are modelled as a datatype: the 23 catalogue names plus `Unlisted(name)` for any other string. The test `subject in simultaneousSubjects` is JavaScript's `in`, which is also true of inherited property names such as `toString`. The model treats only Islam and ENT as keys.
- JavaScript numbers are modelled as unbounded integers. The counters never exceed 36. The caps `target*1.2` and `target*0.7` are compared exactly as rationals.
- Allocation.TeachSimultaneous: states the slot set, the ids and the frame, not the counter increments of lines 345-358, because a run never reaches this path (Allocation.SubjectOnEmptyCell).
- Allocation.SlotStepCounters: stated only when the simultaneous path does not fire, which covers every step of a run.
- Scheduler.Timetabler.AssignSlot: like the other `Scheduler` methods, it does not state the partly written state left behind by a failure. The source throws there, before `setTeachers` and `setSchedule` (lines 396-403), so that state never reaches the page; `GenerateSchedule` returns only the error.
- Roster.AddTeacher: its own contract states only the new id. Its other effects are stated, for any id, by `Roster.AdmitRejects`, `Roster.AdmitNewName` and `Roster.AdmitExistingName`.
- Roster.RemoveSubject: takes a non-negative index. The page only passes positions of existing rows, so `splice`'s counting from the end for a negative index is not modelled. `Roster.RemoveTeacher`'s `filter` leaves the roster unchanged for any index outside it, as the model does.
- The form's `availableDays` field is not carried. It is always empty, and it is overwritten when a teacher is stored.
