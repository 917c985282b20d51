/** One step of the greedy timetable allocator, `generateSchedule`
    (src/App.js:176-406), as functions of the run's state: the eligibility
    filter, the load ranking, the subject choice, the counter update and
    the three mirror rules. The imperative driver is in module Scheduler;
    the passes over periods, days and classes are in module Passes. */
module Allocation {
  import opened Wrappers
  import opened Sequences
  import opened Grid
  import opened Subjects

  /** A roster entry as `generateSchedule` reads it: FLAT `subjects`,
      `classes` and `streams` lists (App.js:230-231, 236-237, 342). The
      roster form builds a different shape (a list of
      `{subject, classes, streams}` entries, module Roster), which has no
      top-level `classes` or `streams`; the allocator is modelled on the
      shape it actually reads. */
  datatype StaffRecord = StaffRecord(
    id: int,
    name: string,
    subjects: seq<Subject>,
    classes: seq<Level>,
    streams: seq<Stream>,
    availableDays: seq<Day>,
    periodsAssigned: int)

  /** A roster entry plus the run's counters (`teacherAssignments`).
      `dailyAssignments` and `dailyClassAssignments` are sparse: a missing
      day reads as 0 and as no classes. */
  datatype Assignment = Assignment(
    staff: StaffRecord,
    periodsAssigned: nat,
    dailyAssignments: map<Day, nat>,
    dailyClassAssignments: map<Day, seq<ClassName>>,
    quadralsAssigned: nat,
    doublesAssigned: nat)

  /** `dailyAssignments[day] || 0` */
  function DailyCount(a: Assignment, d: Day): nat {
    if d in a.dailyAssignments then a.dailyAssignments[d] else 0
  }

  /** `dailyClassAssignments[day] || []` */
  function ClassesOn(a: Assignment, d: Day): seq<ClassName> {
    if d in a.dailyClassAssignments then a.dailyClassAssignments[d] else []
  }

  /** The counters every run starts from (App.js:179-186). */
  function StartAssignments(roster: seq<StaffRecord>): (ts: seq<Assignment>)
    ensures |ts| == |roster|
    ensures forall i :: 0 <= i < |roster| ==>
      && ts[i].staff == roster[i]
      && ts[i].periodsAssigned == 0 && ts[i].quadralsAssigned == 0 && ts[i].doublesAssigned == 0
      && forall d :: DailyCount(ts[i], d) == 0 && ClassesOn(ts[i], d) == []
  {
    seq(|roster|, i requires 0 <= i < |roster| => Assignment(roster[i], 0, map[], map[], 0, 0))
  }

  /** Where a cell lives: `newSchedule[className][day][period.id]`. The
      nested objects are flattened into one map; a class "has been
      initialised" exactly when its slots are keys. */
  datatype Slot = Slot(cls: ClassName, day: Day, period: nat)

  /** A cell. `subject` is `None` where the source stores `undefined` (a
      subject `find` that matched nothing). */
  datatype Cell = Cell(teacher: string, subject: Option<Subject>, time: string)

  type Schedule = map<Slot, Cell>

  /** The value every cell of a class gets before its periods are filled. */
  function EmptyCell(p: Period): Cell {
    Cell("Unassigned", Some(Dash), p.time)
  }

  /** A run aborts with a TypeError when a mirror writes into
      `newSchedule[otherClassName]` before that class has been set up. */
  datatype RunError = UndefinedClass(cls: ClassName)

  datatype State = State(assignments: seq<Assignment>, schedule: Schedule)

  predicate SameIds(ts: seq<Assignment>, bs: seq<Assignment>) {
    |ts| == |bs| && forall i :: 0 <= i < |ts| ==> ts[i].staff.id == bs[i].staff.id
  }

  predicate DistinctIds(ts: seq<Assignment>) {
    forall i, j :: 0 <= i < |ts| && 0 <= j < |ts| && i != j ==> ts[i].staff.id != ts[j].staff.id
  }

  // ---------------------------------------------------------------------
  // Initialising a class's cells (App.js:212-222)
  // ---------------------------------------------------------------------

  function WithEmptyPeriods(s: Schedule, c: ClassName, d: Day, ps: seq<Period>): Schedule
    decreases |ps|
  {
    if ps == [] then s
    else WithEmptyPeriods(s[Slot(c, d, ps[0].id) := EmptyCell(ps[0])], c, d, ps[1..])
  }

  function WithEmptyDays(s: Schedule, c: ClassName, ds: seq<Day>): Schedule
    decreases |ds|
  {
    if ds == [] then s
    else WithEmptyDays(WithEmptyPeriods(s, c, ds[0], RegularTimePeriods), c, ds[1..])
  }

  function InitClass(s: Schedule, c: ClassName): Schedule {
    WithEmptyDays(s, c, Days)
  }

  /** The slots a class owns. */
  predicate IsSlotOf(slot: Slot, c: ClassName) {
    slot.cls == c && 1 <= slot.period <= 6
  }

  /** The slot is present and holds the empty cell of its period. */
  predicate HasEmptyCell(s: Schedule, slot: Slot) {
    1 <= slot.period <= 6 && slot in s && s[slot] == EmptyCell(RegularTimePeriods[slot.period - 1])
  }

  /** The two schedules agree at `slot`: both lack it, or both hold the
      same cell there. */
  predicate Agrees(r: Schedule, s: Schedule, slot: Slot) {
    (slot in r <==> slot in s) && (slot in s ==> r[slot] == s[slot])
  }

  lemma {:induction false} WithEmptyPeriodsEffect(s: Schedule, c: ClassName, d: Day, ps: seq<Period>, k0: nat)
    requires forall k :: 0 <= k < |ps| ==> ps[k].id == k0 + k + 1
    ensures forall k :: 0 <= k < |ps| ==>
      Slot(c, d, ps[k].id) in WithEmptyPeriods(s, c, d, ps) &&
      WithEmptyPeriods(s, c, d, ps)[Slot(c, d, ps[k].id)] == EmptyCell(ps[k])
    ensures forall slot: Slot :: !(slot.cls == c && slot.day == d && k0 < slot.period <= k0 + |ps|) ==>
      Agrees(WithEmptyPeriods(s, c, d, ps), s, slot)
    decreases |ps|
  {
    if ps != [] {
      var s' := s[Slot(c, d, ps[0].id) := EmptyCell(ps[0])];
      WithEmptyPeriodsEffect(s', c, d, ps[1..], k0 + 1);
      assert Agrees(WithEmptyPeriods(s, c, d, ps), s', Slot(c, d, ps[0].id));
      forall k | 1 <= k < |ps|
        ensures WithEmptyPeriods(s, c, d, ps)[Slot(c, d, ps[k].id)] == EmptyCell(ps[k])
      {
        assert ps[k] == ps[1..][k - 1];
      }
    }
  }

  lemma {:induction false} WithEmptyDaysEffect(s: Schedule, c: ClassName, ds: seq<Day>)
    ensures forall d, n :: d in ds && 1 <= n <= 6 ==> HasEmptyCell(WithEmptyDays(s, c, ds), Slot(c, d, n))
    ensures forall slot: Slot :: !(IsSlotOf(slot, c) && slot.day in ds) ==> Agrees(WithEmptyDays(s, c, ds), s, slot)
    decreases |ds|
  {
    if ds != [] {
      var s' := WithEmptyPeriods(s, c, ds[0], RegularTimePeriods);
      PeriodNumbering();
      WithEmptyPeriodsEffect(s, c, ds[0], RegularTimePeriods, 0);
      forall n | 1 <= n <= 6 ensures HasEmptyCell(s', Slot(c, ds[0], n)) {
        assert RegularTimePeriods[n - 1].id == n;
      }
      WithEmptyDaysEffect(s', c, ds[1..]);
      forall n | 1 <= n <= 6 ensures HasEmptyCell(WithEmptyDays(s, c, ds), Slot(c, ds[0], n)) {
        if ds[0] !in ds[1..] {
          assert Agrees(WithEmptyDays(s, c, ds), s', Slot(c, ds[0], n));
        }
      }
    }
  }

  /** Setting up a class gives each of its 36 slots the empty cell of its
      period and leaves every other slot as it was. */
  lemma InitClassEffect(s: Schedule, c: ClassName)
    ensures forall slot: Slot :: IsSlotOf(slot, c) ==> HasEmptyCell(InitClass(s, c), slot)
    ensures forall slot: Slot :: !IsSlotOf(slot, c) ==> Agrees(InitClass(s, c), s, slot)
  {
    WithEmptyDaysEffect(s, c, Days);
    forall slot: Slot | IsSlotOf(slot, c) ensures HasEmptyCell(InitClass(s, c), slot) {
      DayPosition(slot.day);
      assert slot == Slot(c, slot.day, slot.period);
    }
  }

  // ---------------------------------------------------------------------
  // Eligibility (App.js:229-283)
  // ---------------------------------------------------------------------

  /** `Math.floor(totalPeriodsPerWeek / teachers.length)`, with 6 days of 6
      periods. The run is only offered for a non-empty roster (the
      generate button is rendered only then, App.js:642). */
  function Target(staffCount: nat): nat
    requires staffCount > 0
  {
    (|Days| * |RegularTimePeriods|) / staffCount
  }

  /** With more than 36 staff the target is 0, so the load cap below shuts
      everybody out. */
  lemma TargetVanishes(staffCount: nat)
    requires staffCount > 0
    ensures Target(staffCount) == 0 <==> staffCount > 36
  {}

  /** `teacher.periodsAssigned < targetPeriodsPerTeacher * 1.2`, compared
      exactly (`x < 6t/5` iff `5x < 6t`). */
  predicate UnderLoadCap(a: Assignment, target: nat) {
    5 * a.periodsAssigned < 6 * target
  }

  /** The class and stream test of line 230-231. */
  predicate TeachesClass(t: StaffRecord, c: ClassName) {
    c.level in t.classes && (!IsUpper(c.level) || c.stream in t.streams)
  }

  /** The conjunction at lines 230-235. */
  predicate BaseEligible(a: Assignment, c: ClassName, d: Day, target: nat) {
    && TeachesClass(a.staff, c)
    && UnderLoadCap(a, target)
    && DailyCount(a, d) < 4
    && d in a.staff.availableDays
    && c !in ClassesOn(a, d)
  }

  /** JavaScript falsiness of a cell's subject: `undefined` or ''. */
  predicate Falsy(v: Option<Subject>) {
    v.None? || v.value == Unlisted("")
  }

  predicate SubjectIn(v: Option<Subject>, list: set<Subject>) {
    v.Some? && v.value in list
  }

  /** The tests that the arms of the category chain share between the
      filter (lines 247-278) and the subject choice (lines 299-311). */
  predicate TimingGate(b: Branch, a: Assignment, p: Period, target: nat) {
    match b
    case PEBranch => p.id >= 5
    case ScienceBranch => p.id % 2 == 1
    case HistoryBranch => p.id >= 3
    case GeneralPaperBranch => a.quadralsAssigned < 1 && p.id % 2 == 1 && p.id < 6
    case SubsidiaryBranch =>
      (a.quadralsAssigned < SubsidiaryQuadralsPerWeek && p.id % 2 == 1 && p.id < 6)
      || (a.periodsAssigned < SubsidiaryPeriodsPerWeek && p.id % 2 == 1)
    // `periodsAssigned < targetPeriodsPerTeacher * 0.7`, compared exactly
    case SimultaneousBranch => 10 * a.periodsAssigned < 7 * target
    case _ => true
  }

  /** The condition under which an arm of the filter callback executes its
      own `return true` (lines 237-279). */
  predicate FilterGate(s: Subject, a: Assignment, c: ClassName, p: Period, target: nat, cellSubject: Option<Subject>) {
    match BranchOf(s, c.level)
    case CompulsoryBranch => Falsy(cellSubject) || SubjectIn(cellSubject, Compulsory)
    case OptionalBranch => Falsy(cellSubject) || SubjectIn(cellSubject, Optional)
    case Unclaimed => false
    case b => TimingGate(b, a, p, target)
  }

  /** The `some` callback (lines 236-281): whichever arm runs, control
      reaches the unconditional `return true` at line 280. */
  predicate CategoryCallback(s: Subject, a: Assignment, c: ClassName, p: Period, target: nat, cellSubject: Option<Subject>) {
    FilterGate(s, a, c, p, target, cellSubject) || true
  }

  /** `teacher.subjects.some(callback)` */
  predicate AnyAccepted(a: Assignment, c: ClassName, p: Period, target: nat, cellSubject: Option<Subject>) {
    exists i :: 0 <= i < |a.staff.subjects| && CategoryCallback(a.staff.subjects[i], a, c, p, target, cellSubject)
  }

  /** The whole filter predicate (lines 229-283). */
  predicate Eligible(a: Assignment, c: ClassName, d: Day, p: Period, target: nat, cellSubject: Option<Subject>) {
    BaseEligible(a, c, d, target) && AnyAccepted(a, c, p, target, cellSubject)
  }

  /** The category filter never rejects on its own: past the conditions of
      lines 230-235, a teacher is kept exactly when it lists any subject. */
  lemma CategoryFilterNeverRejects(a: Assignment, c: ClassName, d: Day, p: Period, target: nat, cellSubject: Option<Subject>)
    ensures Eligible(a, c, d, p, target, cellSubject) <==> BaseEligible(a, c, d, target) && |a.staff.subjects| > 0
  {
    if |a.staff.subjects| > 0 {
      assert CategoryCallback(a.staff.subjects[0], a, c, p, target, cellSubject);
    }
  }

  /** The filtered list, as indices into `ts[..n]`, in roster order. */
  function CandidatesUpTo(ts: seq<Assignment>, n: nat, c: ClassName, d: Day, p: Period, target: nat, cellSubject: Option<Subject>): (r: seq<nat>)
    requires n <= |ts|
    ensures forall x: nat :: x in r <==> x < n && Eligible(ts[x], c, d, p, target, cellSubject)
    ensures Increasing(r)
  {
    if n == 0 then []
    else
      var r := CandidatesUpTo(ts, n - 1, c, d, p, target, cellSubject);
      assert forall i :: 0 <= i < |r| ==> r[i] in r;
      if Eligible(ts[n - 1], c, d, p, target, cellSubject) then r + [n - 1] else r
  }

  function Candidates(ts: seq<Assignment>, c: ClassName, d: Day, p: Period, target: nat, cellSubject: Option<Subject>): seq<nat>
  {
    CandidatesUpTo(ts, |ts|, c, d, p, target, cellSubject)
  }

  // ---------------------------------------------------------------------
  // Ranking (App.js:284-291)
  // ---------------------------------------------------------------------

  /** `periodsAssigned + (dailyAssignments[day] || 0)` */
  function Load(a: Assignment, d: Day): nat {
    a.periodsAssigned + DailyCount(a, d)
  }

  /** The load of the entry at index `x` (0 past the end, which the
      candidate lists never reach). */
  function LoadOf(ts: seq<Assignment>, d: Day, x: nat): nat {
    if x < |ts| then Load(ts[x], d) else 0
  }

  /** Inserts `x` just before the first element of strictly larger load,
      so that it lands after every element of equal load. */
  function InsertByLoad(ts: seq<Assignment>, d: Day, x: nat, sorted: seq<nat>): (r: seq<nat>)
    ensures |r| == |sorted| + 1
    ensures multiset(r) == multiset(sorted) + multiset{x}
  {
    if sorted == [] then [x]
    else if LoadOf(ts, d, x) < LoadOf(ts, d, sorted[0]) then [x] + sorted
    else
      assert sorted == [sorted[0]] + sorted[1..];
      [sorted[0]] + InsertByLoad(ts, d, x, sorted[1..])
  }

  /** The candidates after the stable ascending sort by load
      (`Array.prototype.sort` is stable). */
  function SortByLoad(ts: seq<Assignment>, d: Day, s: seq<nat>): (r: seq<nat>)
    ensures |r| == |s|
    ensures multiset(r) == multiset(s)
  {
    if s == [] then []
    else
      assert s == s[..|s| - 1] + [s[|s| - 1]];
      InsertByLoad(ts, d, s[|s| - 1], SortByLoad(ts, d, s[..|s| - 1]))
  }

  /** The position of the first least-loaded element. */
  function FirstLeast(ts: seq<Assignment>, d: Day, s: seq<nat>): (i: nat)
    requires |s| > 0
    ensures i < |s|
    ensures forall j :: 0 <= j < |s| ==> LoadOf(ts, d, s[i]) <= LoadOf(ts, d, s[j])
    ensures forall j :: 0 <= j < i ==> LoadOf(ts, d, s[i]) < LoadOf(ts, d, s[j])
  {
    if |s| == 1 then 0
    else
      var i := FirstLeast(ts, d, s[..|s| - 1]);
      if LoadOf(ts, d, s[|s| - 1]) < LoadOf(ts, d, s[i]) then |s| - 1 else i
  }

  /** The head of the stable sort is the first element whose load is
      least. */
  lemma {:induction false} SortedHeadIsFirstLeast(ts: seq<Assignment>, d: Day, s: seq<nat>)
    requires |s| > 0
    ensures |SortByLoad(ts, d, s)| == |s|
    ensures SortByLoad(ts, d, s)[0] == s[FirstLeast(ts, d, s)]
  {
    if |s| > 1 {
      var init := s[..|s| - 1];
      SortedHeadIsFirstLeast(ts, d, init);
      SortByLoadStep(ts, d, s);
      InsertByLoadHead(ts, d, s[|s| - 1], SortByLoad(ts, d, init));
      FirstLeastStep(ts, d, s);
      assert init[FirstLeast(ts, d, init)] == s[FirstLeast(ts, d, init)];
    }
  }

  lemma SortByLoadStep(ts: seq<Assignment>, d: Day, s: seq<nat>)
    requires s != []
    ensures SortByLoad(ts, d, s) == InsertByLoad(ts, d, s[|s| - 1], SortByLoad(ts, d, s[..|s| - 1]))
  {
  }

  lemma FirstLeastStep(ts: seq<Assignment>, d: Day, s: seq<nat>)
    requires |s| > 1
    ensures var i := FirstLeast(ts, d, s[..|s| - 1]);
      FirstLeast(ts, d, s) == if LoadOf(ts, d, s[|s| - 1]) < LoadOf(ts, d, s[i]) then |s| - 1 else i
  {
  }

  lemma InsertByLoadHead(ts: seq<Assignment>, d: Day, x: nat, sorted: seq<nat>)
    requires sorted != []
    ensures InsertByLoad(ts, d, x, sorted)[0] ==
      if LoadOf(ts, d, x) < LoadOf(ts, d, sorted[0]) then x else sorted[0]
  {
  }

  /** Ascending by load. */
  predicate LoadSorted(ts: seq<Assignment>, d: Day, s: seq<nat>) {
    forall i, j :: 0 <= i < j < |s| ==> LoadOf(ts, d, s[i]) <= LoadOf(ts, d, s[j])
  }

  /** The elements of `s` whose load is `n`, in their order in `s`. */
  function WithLoad(ts: seq<Assignment>, d: Day, s: seq<nat>, n: nat): seq<nat> {
    if s == [] then []
    else OfLoad(ts, d, s[0], n) + WithLoad(ts, d, s[1..], n)
  }

  lemma {:induction false} WithLoadAppend(ts: seq<Assignment>, d: Day, a: seq<nat>, b: seq<nat>, n: nat)
    ensures WithLoad(ts, d, a + b, n) == WithLoad(ts, d, a, n) + WithLoad(ts, d, b, n)
  {
    if a != [] {
      WithLoadAppend(ts, d, a[1..], b, n);
      assert (a + b)[0] == a[0] && (a + b)[1..] == a[1..] + b;
    } else {
      assert a + b == b;
    }
  }

  lemma {:induction false} WithLoadNone(ts: seq<Assignment>, d: Day, s: seq<nat>, n: nat)
    requires forall i :: 0 <= i < |s| ==> LoadOf(ts, d, s[i]) != n
    ensures WithLoad(ts, d, s, n) == []
  {
    if s != [] {
      WithLoadNone(ts, d, s[1..], n);
    }
  }

  lemma LoadSortedTail(ts: seq<Assignment>, d: Day, s: seq<nat>)
    requires s != [] && LoadSorted(ts, d, s)
    ensures LoadSorted(ts, d, s[1..])
    ensures forall i :: 0 <= i < |s| ==> LoadOf(ts, d, s[0]) <= LoadOf(ts, d, s[i])
  {
    forall i, j | 0 <= i < j < |s[1..]| ensures LoadOf(ts, d, s[1..][i]) <= LoadOf(ts, d, s[1..][j]) {
      assert s[1..][i] == s[i + 1] && s[1..][j] == s[j + 1];
    }
  }

  lemma LoadSortedCons(ts: seq<Assignment>, d: Day, x: nat, s: seq<nat>)
    requires LoadSorted(ts, d, s)
    requires forall i :: 0 <= i < |s| ==> LoadOf(ts, d, x) <= LoadOf(ts, d, s[i])
    ensures LoadSorted(ts, d, [x] + s)
  {
    var r := [x] + s;
    forall i, j | 0 <= i < j < |r| ensures LoadOf(ts, d, r[i]) <= LoadOf(ts, d, r[j]) {
      assert r[j] == s[j - 1];
      if i > 0 {
        assert r[i] == s[i - 1];
      }
    }
  }

  /** Inserting into a load-sorted list keeps it load-sorted. */
  lemma {:induction false} InsertByLoadSorted(ts: seq<Assignment>, d: Day, x: nat, sorted: seq<nat>)
    requires LoadSorted(ts, d, sorted)
    ensures LoadSorted(ts, d, InsertByLoad(ts, d, x, sorted))
  {
    if sorted == [] {
    } else if LoadOf(ts, d, x) < LoadOf(ts, d, sorted[0]) {
      LoadSortedTail(ts, d, sorted);
      LoadSortedCons(ts, d, x, sorted);
    } else {
      var rest := InsertByLoad(ts, d, x, sorted[1..]);
      LoadSortedTail(ts, d, sorted);
      InsertByLoadSorted(ts, d, x, sorted[1..]);
      forall i | 0 <= i < |rest| ensures LoadOf(ts, d, sorted[0]) <= LoadOf(ts, d, rest[i]) {
        assert rest[i] in multiset(rest);
        if rest[i] != x {
          assert rest[i] in multiset(sorted[1..]);
          var m :| 0 <= m < |sorted[1..]| && sorted[1..][m] == rest[i];
          assert sorted[m + 1] == rest[i];
        }
      }
      LoadSortedCons(ts, d, sorted[0], rest);
    }
  }

  /** `x` lands after every element of its own load, so each load class
      of the result is that class of `sorted` followed, when `x` belongs
      to it, by `x`. */
  lemma {:induction false} InsertByLoadStable(ts: seq<Assignment>, d: Day, x: nat, sorted: seq<nat>, n: nat)
    requires LoadSorted(ts, d, sorted)
    ensures WithLoad(ts, d, InsertByLoad(ts, d, x, sorted), n) ==
      WithLoad(ts, d, sorted, n) + OfLoad(ts, d, x, n)
  {
    if sorted == [] {
      WithLoadCons(ts, d, x, [], n);
    } else if LoadOf(ts, d, x) < LoadOf(ts, d, sorted[0]) {
      InsertFrontStable(ts, d, x, sorted, n);
    } else {
      LoadSortedTail(ts, d, sorted);
      InsertByLoadStable(ts, d, x, sorted[1..], n);
      InsertPastStable(ts, d, x, sorted, n);
    }
  }

  lemma InsertFrontStable(ts: seq<Assignment>, d: Day, x: nat, sorted: seq<nat>, n: nat)
    requires LoadSorted(ts, d, sorted) && sorted != [] && LoadOf(ts, d, x) < LoadOf(ts, d, sorted[0])
    ensures WithLoad(ts, d, InsertByLoad(ts, d, x, sorted), n) ==
      WithLoad(ts, d, sorted, n) + OfLoad(ts, d, x, n)
  {
    assert InsertByLoad(ts, d, x, sorted) == [x] + sorted;
    WithLoadCons(ts, d, x, sorted, n);
    if LoadOf(ts, d, x) == n {
      LoadSortedTail(ts, d, sorted);
      WithLoadNone(ts, d, sorted, n);
    }
  }

  lemma InsertPastStable(ts: seq<Assignment>, d: Day, x: nat, sorted: seq<nat>, n: nat)
    requires sorted != [] && LoadOf(ts, d, sorted[0]) <= LoadOf(ts, d, x)
    requires WithLoad(ts, d, InsertByLoad(ts, d, x, sorted[1..]), n) ==
      WithLoad(ts, d, sorted[1..], n) + OfLoad(ts, d, x, n)
    ensures WithLoad(ts, d, InsertByLoad(ts, d, x, sorted), n) ==
      WithLoad(ts, d, sorted, n) + OfLoad(ts, d, x, n)
  {
    var rest := InsertByLoad(ts, d, x, sorted[1..]);
    var head := OfLoad(ts, d, sorted[0], n);
    var tail := WithLoad(ts, d, sorted[1..], n);
    var mine := OfLoad(ts, d, x, n);
    calc {
      WithLoad(ts, d, InsertByLoad(ts, d, x, sorted), n);
      { InsertByLoadPast(ts, d, x, sorted); }
      WithLoad(ts, d, [sorted[0]] + rest, n);
      { WithLoadCons(ts, d, sorted[0], rest, n); }
      head + WithLoad(ts, d, rest, n);
      head + (tail + mine);
      { Assoc(head, tail, mine); }
      (head + tail) + mine;
      { WithLoadHead(ts, d, sorted, n); }
      WithLoad(ts, d, sorted, n) + mine;
    }
  }

  lemma InsertByLoadPast(ts: seq<Assignment>, d: Day, x: nat, sorted: seq<nat>)
    requires sorted != [] && LoadOf(ts, d, sorted[0]) <= LoadOf(ts, d, x)
    ensures InsertByLoad(ts, d, x, sorted) == [sorted[0]] + InsertByLoad(ts, d, x, sorted[1..])
  {
  }

  lemma WithLoadHead(ts: seq<Assignment>, d: Day, s: seq<nat>, n: nat)
    requires s != []
    ensures WithLoad(ts, d, s, n) == OfLoad(ts, d, s[0], n) + WithLoad(ts, d, s[1..], n)
  {
  }

  lemma WithLoadSingle(ts: seq<Assignment>, d: Day, y: nat, n: nat)
    ensures WithLoad(ts, d, [y], n) == OfLoad(ts, d, y, n)
  {
    WithLoadCons(ts, d, y, [], n);
    assert [y] + [] == [y];
  }

  /** `[y]` when `y` has load `n`, else nothing. */
  function OfLoad(ts: seq<Assignment>, d: Day, y: nat, n: nat): seq<nat> {
    if LoadOf(ts, d, y) == n then [y] else []
  }

  lemma WithLoadCons(ts: seq<Assignment>, d: Day, y: nat, s: seq<nat>, n: nat)
    ensures WithLoad(ts, d, [y] + s, n) == OfLoad(ts, d, y, n) + WithLoad(ts, d, s, n)
  {
    assert ([y] + s)[0] == y && ([y] + s)[1..] == s;
  }

  /** The stable sort's output is ascending by load ... */
  lemma {:induction false} SortByLoadSorted(ts: seq<Assignment>, d: Day, s: seq<nat>)
    ensures LoadSorted(ts, d, SortByLoad(ts, d, s))
  {
    if s != [] {
      SortByLoadSorted(ts, d, s[..|s| - 1]);
      SortByLoadStep(ts, d, s);
      InsertByLoadSorted(ts, d, s[|s| - 1], SortByLoad(ts, d, s[..|s| - 1]));
    }
  }

  /** ... and keeps the elements of each load in their input order
      (`Array.prototype.sort` is stable). With the multiset clause of
      `SortByLoad` this fixes the output completely. */
  lemma {:induction false} SortByLoadStable(ts: seq<Assignment>, d: Day, s: seq<nat>, n: nat)
    ensures WithLoad(ts, d, SortByLoad(ts, d, s), n) == WithLoad(ts, d, s, n)
  {
    if s != [] {
      var init := s[..|s| - 1];
      var last := s[|s| - 1];
      var sortedInit := SortByLoad(ts, d, init);
      SortByLoadSorted(ts, d, init);
      calc {
        WithLoad(ts, d, SortByLoad(ts, d, s), n);
        { SortByLoadStep(ts, d, s); }
        WithLoad(ts, d, InsertByLoad(ts, d, last, sortedInit), n);
        { InsertByLoadStable(ts, d, last, sortedInit, n); }
        WithLoad(ts, d, sortedInit, n) + OfLoad(ts, d, last, n);
        { SortByLoadStable(ts, d, init, n); }
        WithLoad(ts, d, init, n) + OfLoad(ts, d, last, n);
        { WithLoadSingle(ts, d, last, n); }
        WithLoad(ts, d, init, n) + WithLoad(ts, d, [last], n);
        { WithLoadAppend(ts, d, init, [last], n); }
        WithLoad(ts, d, init + [last], n);
        { InitLast(s); }
        WithLoad(ts, d, s, n);
      }
    }
  }

  /** The teacher the slot goes to: the head of the sorted candidate list,
      or nobody. */
  function Pick(ts: seq<Assignment>, c: ClassName, d: Day, p: Period, target: nat, cellSubject: Option<Subject>): (r: Option<nat>)
    ensures r.Some? ==> r.value < |ts|
  {
    var cands := Candidates(ts, c, d, p, target, cellSubject);
    if cands == [] then None
    else
      SortedHeadIsFirstLeast(ts, d, cands);
      var sorted := SortByLoad(ts, d, cands);
      assert sorted[0] in cands;
      Some(sorted[0])
  }

  /** The picked teacher passes every test of lines 230-235, and a slot
      goes unpicked only when nobody passes them with a subject listed. */
  lemma PickIsEligible(ts: seq<Assignment>, c: ClassName, d: Day, p: Period, target: nat, cellSubject: Option<Subject>)
    ensures Pick(ts, c, d, p, target, cellSubject).Some? ==>
      var t := ts[Pick(ts, c, d, p, target, cellSubject).value];
      && c.level in t.staff.classes
      && (IsUpper(c.level) ==> c.stream in t.staff.streams)
      && 5 * t.periodsAssigned < 6 * target
      && DailyCount(t, d) < 4
      && d in t.staff.availableDays
      && c !in ClassesOn(t, d)
      && |t.staff.subjects| > 0
    ensures Pick(ts, c, d, p, target, cellSubject).None? <==>
      forall i :: 0 <= i < |ts| ==> !(BaseEligible(ts[i], c, d, target) && |ts[i].staff.subjects| > 0)
  {
    var cands := Candidates(ts, c, d, p, target, cellSubject);
    forall i | 0 <= i < |ts| ensures i in cands <==> BaseEligible(ts[i], c, d, target) && |ts[i].staff.subjects| > 0 {
      CategoryFilterNeverRejects(ts[i], c, d, p, target, cellSubject);
    }
    if cands != [] {
      SortedHeadIsFirstLeast(ts, d, cands);
      var k := SortByLoad(ts, d, cands)[0];
      assert k in cands;
      CategoryFilterNeverRejects(ts[k], c, d, p, target, cellSubject);
    } else {
      forall i | 0 <= i < |ts| ensures !(BaseEligible(ts[i], c, d, target) && |ts[i].staff.subjects| > 0) {
        assert i !in cands;
      }
    }
  }

  predicate Increasing(s: seq<nat>) {
    forall i, j :: 0 <= i < j < |s| ==> s[i] < s[j]
  }

  /** In an increasing index list, the first least-loaded element is
      strictly lighter than every element before it. */
  lemma FirstLeastOfIncreasing(ts: seq<Assignment>, d: Day, s: seq<nat>, m: nat)
    requires |s| > 0 && Increasing(s) && m < |s|
    ensures LoadOf(ts, d, s[FirstLeast(ts, d, s)]) <= LoadOf(ts, d, s[m])
    ensures s[m] < s[FirstLeast(ts, d, s)] ==> LoadOf(ts, d, s[FirstLeast(ts, d, s)]) < LoadOf(ts, d, s[m])
  {
    var i := FirstLeast(ts, d, s);
    if s[m] < s[i] {
      assert m < i;
    }
  }

  /** The picked teacher has the least load among all eligible teachers,
      and every eligible teacher before it in the roster has a larger one. */
  lemma PickIsLeastLoaded(ts: seq<Assignment>, c: ClassName, d: Day, p: Period, target: nat, cellSubject: Option<Subject>)
    ensures Pick(ts, c, d, p, target, cellSubject).Some? ==>
      var k := Pick(ts, c, d, p, target, cellSubject).value;
      && Eligible(ts[k], c, d, p, target, cellSubject)
      && (forall j :: 0 <= j < |ts| && Eligible(ts[j], c, d, p, target, cellSubject) ==> Load(ts[k], d) <= Load(ts[j], d))
      && (forall j :: 0 <= j < k && Eligible(ts[j], c, d, p, target, cellSubject) ==> Load(ts[k], d) < Load(ts[j], d))
  {
    var cands := Candidates(ts, c, d, p, target, cellSubject);
    if cands != [] {
      SortedHeadIsFirstLeast(ts, d, cands);
      var k := cands[FirstLeast(ts, d, cands)];
      assert k in cands;
      forall j | 0 <= j < |ts| && Eligible(ts[j], c, d, p, target, cellSubject)
        ensures Load(ts[k], d) <= Load(ts[j], d)
        ensures j < k ==> Load(ts[k], d) < Load(ts[j], d)
      {
        assert j in cands;
        var m :| 0 <= m < |cands| && cands[m] == j;
        FirstLeastOfIncreasing(ts, d, cands, m);
      }
    }
  }

  /** With a zero target (more than 36 staff) no slot is ever filled. */
  lemma ZeroTargetPicksNobody(ts: seq<Assignment>, c: ClassName, d: Day, p: Period, cellSubject: Option<Subject>)
    ensures Pick(ts, c, d, p, 0, cellSubject).None?
  {
    PickIsEligible(ts, c, d, p, 0, cellSubject);
  }

  // ---------------------------------------------------------------------
  // Subject choice (App.js:294-314)
  // ---------------------------------------------------------------------

  /** The `find` callback of lines 294-314. */
  predicate SelectGate(s: Subject, a: Assignment, c: ClassName, p: Period, target: nat, cellSubject: Option<Subject>) {
    match BranchOf(s, c.level)
    case CompulsoryBranch => SubjectIn(cellSubject, Compulsory)
    case OptionalBranch => SubjectIn(cellSubject, Optional)
    case Unclaimed => true
    case b => TimingGate(b, a, p, target)
  }

  /** No subject listed before position i passes the gate. */
  predicate FirstPassing(subjects: seq<Subject>, i: nat, a: Assignment, c: ClassName, p: Period, target: nat, cellSubject: Option<Subject>)
    requires i <= |subjects|
  {
    forall j :: 0 <= j < i ==> !SelectGate(subjects[j], a, c, p, target, cellSubject)
  }

  /** `selectedTeacher.subjects.find(callback)`: the first listed subject
      that passes the gate. */
  function FindSubject(subjects: seq<Subject>, a: Assignment, c: ClassName, p: Period, target: nat, cellSubject: Option<Subject>): (r: Option<Subject>)
    ensures r.Some? ==> r.value in subjects && SelectGate(r.value, a, c, p, target, cellSubject)
    ensures r.None? <==> forall s :: s in subjects ==> !SelectGate(s, a, c, p, target, cellSubject)
  {
    if subjects == [] then None
    else if SelectGate(subjects[0], a, c, p, target, cellSubject) then Some(subjects[0])
    else FindSubject(subjects[1..], a, c, p, target, cellSubject)
  }

  /** `find` returns the FIRST passing subject: it sits at some position
      i, and no subject listed before i passes the gate. */
  lemma {:induction false} FindSubjectFirst(subjects: seq<Subject>, a: Assignment, c: ClassName, p: Period, target: nat, cellSubject: Option<Subject>)
    ensures var r := FindSubject(subjects, a, c, p, target, cellSubject);
      r.Some? ==> exists i :: 0 <= i < |subjects| && subjects[i] == r.value && FirstPassing(subjects, i, a, c, p, target, cellSubject)
  {
    var r := FindSubject(subjects, a, c, p, target, cellSubject);
    if subjects != [] && r.Some? {
      if SelectGate(subjects[0], a, c, p, target, cellSubject) {
        assert subjects[0] == r.value && FirstPassing(subjects, 0, a, c, p, target, cellSubject);
      } else {
        FindSubjectFirst(subjects[1..], a, c, p, target, cellSubject);
        var k :| 0 <= k < |subjects[1..]| && subjects[1..][k] == r.value && FirstPassing(subjects[1..], k, a, c, p, target, cellSubject);
        assert subjects[k + 1] == r.value;
        assert FirstPassing(subjects, k + 1, a, c, p, target, cellSubject) by {
          forall j | 0 <= j < k + 1 ensures !SelectGate(subjects[j], a, c, p, target, cellSubject) {
            if j > 0 {
              assert subjects[j] == subjects[1..][j - 1];
            }
          }
        }
      }
    }
  }

  /** On a cell still holding '-', the compulsory and optional arms cannot
      match, so the subject written is General Paper (gated by the
      one-quadral rule in S5/S6, ungated below), SubMath (gated by the
      subsidiary rule), a name outside the catalogue, or `undefined`. In
      particular it is never Islam or ENT. */
  lemma {:induction false} SubjectOnEmptyCell(subjects: seq<Subject>, a: Assignment, c: ClassName, p: Period, target: nat)
    ensures var r := FindSubject(subjects, a, c, p, target, Some(Dash));
      r.Some? ==>
        || (r.value == GeneralPaper && (IsUpper(c.level) ==> a.quadralsAssigned < 1 && p.id % 2 == 1 && p.id < 6))
        || (r.value == SubMath && p.id % 2 == 1 &&
            ((a.quadralsAssigned < SubsidiaryQuadralsPerWeek && p.id < 6) || a.periodsAssigned < SubsidiaryPeriodsPerWeek))
        || r.value.Unlisted?
    ensures var r := FindSubject(subjects, a, c, p, target, Some(Dash));
      r.Some? ==> SimultaneousOf(r.value).None?
  {
    var r := FindSubject(subjects, a, c, p, target, Some(Dash));
    if r.Some? {
      BranchClassification(r.value, c.level);
    }
  }

  // ---------------------------------------------------------------------
  // Committing an assignment (App.js:316-329, 345-358)
  // ---------------------------------------------------------------------

  /** Whether period `p` is a quadral (odd and before 6) or a double (odd). */
  predicate IsQuadral(p: nat) { p % 2 == 1 && p < 6 }
  predicate IsDouble(p: nat) { p % 2 == 1 }

  function Commit(a: Assignment, c: ClassName, d: Day, p: nat): (r: Assignment)
    ensures r.staff == a.staff
    ensures r.periodsAssigned == a.periodsAssigned + 1
    ensures DailyCount(r, d) == DailyCount(a, d) + 1 && ClassesOn(r, d) == ClassesOn(a, d) + [c]
    ensures forall e :: e != d ==> DailyCount(r, e) == DailyCount(a, e) && ClassesOn(r, e) == ClassesOn(a, e)
    ensures r.quadralsAssigned == a.quadralsAssigned + (if IsQuadral(p) then 1 else 0)
    ensures r.doublesAssigned == a.doublesAssigned + (if IsDouble(p) then 1 else 0)
  {
    a.(periodsAssigned := a.periodsAssigned + 1,
       dailyAssignments := a.dailyAssignments[d := DailyCount(a, d) + 1],
       dailyClassAssignments := a.dailyClassAssignments[d := ClassesOn(a, d) + [c]],
       quadralsAssigned := if IsQuadral(p) then a.quadralsAssigned + 1 else a.quadralsAssigned,
       doublesAssigned := if IsDouble(p) then a.doublesAssigned + 1 else a.doublesAssigned)
  }

  /** `teacherAssignments.findIndex(t => t.id === id)` */
  function IndexOfId(ts: seq<Assignment>, id: int): (i: int)
    ensures -1 <= i < |ts|
    ensures 0 <= i ==> ts[i].staff.id == id && forall j :: 0 <= j < i ==> ts[j].staff.id != id
    ensures i == -1 ==> forall j :: 0 <= j < |ts| ==> ts[j].staff.id != id
  {
    FirstIndex(ts, (a: Assignment) => a.staff.id == id)
  }

  /** With distinct ids, looking an entry up by its own id finds it. */
  lemma IndexOfOwnId(ts: seq<Assignment>, k: nat)
    requires k < |ts| && DistinctIds(ts)
    ensures IndexOfId(ts, ts[k].staff.id) == k
  {}

  /** The entry update of line 316 (and 345): the new counters are stored
      at the index found by id. */
  function CommitById(ts: seq<Assignment>, k: nat, c: ClassName, d: Day, p: nat): (r: seq<Assignment>)
    requires k < |ts|
    ensures SameIds(ts, r)
  {
    var i := IndexOfId(ts, ts[k].staff.id);
    ts[i := Commit(ts[k], c, d, p)]
  }

  /** With distinct ids the lookup by id finds entry k itself, so the
      update lands on the entry that was picked. */
  lemma CommitByIdAt(ts: seq<Assignment>, k: nat, c: ClassName, d: Day, p: nat)
    requires k < |ts| && DistinctIds(ts)
    ensures CommitById(ts, k, c, d, p) == ts[k := Commit(ts[k], c, d, p)]
  {
    IndexOfOwnId(ts, k);
  }

  // ---------------------------------------------------------------------
  // Mirrors (App.js:337-390)
  // ---------------------------------------------------------------------

  /** The staff member `find` returns for a parallel subject (line 342):
      the first that lists the subject, the level and the stream. */
  function ParallelTeacher(ts: seq<Assignment>, s: Subject, c: ClassName): (j: int)
    ensures -1 <= j < |ts|
    ensures 0 <= j ==> CanTeachParallel(ts[j], s, c) && forall i :: 0 <= i < j ==> !CanTeachParallel(ts[i], s, c)
    ensures j == -1 <==> forall i :: 0 <= i < |ts| ==> !CanTeachParallel(ts[i], s, c)
  {
    FirstIndex(ts, (a: Assignment) => CanTeachParallel(a, s, c))
  }

  /** The test of line 342: the entry lists the subject, the class's level
      and its stream. */
  predicate CanTeachParallel(a: Assignment, s: Subject, c: ClassName) {
    s in a.staff.subjects && c.level in a.staff.classes && c.stream in a.staff.streams
  }

  /** The `simultaneous.forEach` of lines 341-365: each parallel subject
      with a teacher found for it commits that teacher and overwrites the
      current cell, with no eligibility check. */
  function TeachSimultaneous(st: State, subjects: seq<Subject>, c: ClassName, d: Day, p: Period): (r: State)
    requires Slot(c, d, p.id) in st.schedule
    ensures r.schedule.Keys == st.schedule.Keys && SameIds(st.assignments, r.assignments)
    ensures forall slot: Slot :: slot in st.schedule && slot != Slot(c, d, p.id) ==> r.schedule[slot] == st.schedule[slot]
    decreases |subjects|
  {
    if subjects == [] then st
    else
      var j := ParallelTeacher(st.assignments, subjects[0], c);
      if j < 0 then TeachSimultaneous(st, subjects[1..], c, d, p)
      else
        var t := st.assignments[j];
        var next := State(CommitById(st.assignments, j, c, d, p.id),
                          st.schedule[Slot(c, d, p.id) := Cell(t.staff.name, Some(subjects[0]), p.time)]);
        TeachSimultaneous(next, subjects[1..], c, d, p)
  }
  /** The `i`-th parallel subject's step, and what the loop continues
      with. */
  lemma TeachSimultaneousAt(st: State, subjects: seq<Subject>, i: nat, c: ClassName, d: Day, p: Period)
    requires i < |subjects| && Slot(c, d, p.id) in st.schedule
    ensures var j := ParallelTeacher(st.assignments, subjects[i], c);
      TeachSimultaneous(st, subjects[i..], c, d, p) ==
        if j < 0 then TeachSimultaneous(st, subjects[i + 1..], c, d, p)
        else
          var t := st.assignments[j];
          TeachSimultaneous(State(CommitById(st.assignments, j, c, d, p.id),
                                  st.schedule[Slot(c, d, p.id) := Cell(t.staff.name, Some(subjects[i]), p.time)]),
                            subjects[i + 1..], c, d, p)
  {
    assert subjects[i..][0] == subjects[i] && subjects[i..][1..] == subjects[i + 1..];
  }


  /** `newSchedule[otherClassName][day][period.id] = cell`, which throws
      when the other class has not been set up yet. */
  function MirrorInto(st: State, slot: Slot, cell: Cell): (r: Result<State, RunError>)
    ensures r.Failure? <==> slot !in st.schedule
    ensures r.Success? ==> r.value == st.(schedule := st.schedule[slot := cell])
  {
    if slot in st.schedule then Success(st.(schedule := st.schedule[slot := cell]))
    else Failure(UndefinedClass(slot.cls))
  }

  /** The partner of a subsidiary subject (line 382). */
  function OtherSubsidiary(s: Subject): Subject {
    if s == SubMath then ICT else SubMath
  }

  /** Whether a chosen subject triggers the General Paper mirror
      (line 370) or the SubMath/ICT mirror (line 381, no level guard). */
  predicate PaperMirrors(subject: Option<Subject>, c: ClassName) {
    subject == Some(GeneralPaper) && IsUpper(c.level)
  }
  predicate SubsidiaryMirrors(subject: Option<Subject>) {
    subject == Some(SubMath) || subject == Some(ICT)
  }

  // ---------------------------------------------------------------------
  // One slot (App.js:228-391)
  // ---------------------------------------------------------------------

  /** The subject the picked teacher is given, or `None` for no pick. */
  function ChosenSubject(st: State, c: ClassName, d: Day, p: Period, target: nat): Option<Subject>
    requires Slot(c, d, p.id) in st.schedule
  {
    var cellSubject := st.schedule[Slot(c, d, p.id)].subject;
    match Pick(st.assignments, c, d, p, target, cellSubject)
    case None => None
    case Some(k) =>
      var t := st.assignments[k];
      FindSubject(t.staff.subjects, t, c, p, target, cellSubject)
  }

  /** The state after the primary pick, its cell write and the parallel
      subjects, before the two mirrors. */
  function PrimaryStep(st: State, c: ClassName, d: Day, p: Period, target: nat, k: nat): (r: State)
    requires Slot(c, d, p.id) in st.schedule && k < |st.assignments|
    ensures r.schedule.Keys == st.schedule.Keys && SameIds(st.assignments, r.assignments)
    ensures forall slot: Slot :: slot in st.schedule && slot != Slot(c, d, p.id) ==> r.schedule[slot] == st.schedule[slot]
    ensures var t := st.assignments[k];
      var subject := FindSubject(t.staff.subjects, t, c, p, target, st.schedule[Slot(c, d, p.id)].subject);
      !(IsUpper(c.level) && subject.Some? && SimultaneousOf(subject.value).Some?) ==>
        r.schedule[Slot(c, d, p.id)] == Cell(t.staff.name, subject, p.time)
  {
    var here := Slot(c, d, p.id);
    var t := st.assignments[k];
    var subject := FindSubject(t.staff.subjects, t, c, p, target, st.schedule[here].subject);
    var committed := State(CommitById(st.assignments, k, c, d, p.id),
                           st.schedule[here := Cell(t.staff.name, subject, p.time)]);
    if IsUpper(c.level) && subject.Some? && SimultaneousOf(subject.value).Some? then
      TeachSimultaneous(committed, SimultaneousOf(subject.value).value, c, d, p)
    else committed
  }

  /** Lines 369-390: the General Paper mirror, then the SubMath/ICT
      mirror, both into the partner class's cell at the same day and
      period. */
  function MirrorStep(st: State, c: ClassName, d: Day, p: Period, name: string, subject: Option<Subject>): (r: Result<State, RunError>)
    ensures r.Success? ==> r.value.assignments == st.assignments && r.value.schedule.Keys == st.schedule.Keys
  {
    var mirror := Slot(Sibling(c), d, p.id);
    var afterPaper :=
      if PaperMirrors(subject, c) then MirrorInto(st, mirror, Cell(name, subject, p.time))
      else Success(st);
    match afterPaper
    case Failure(e) => Failure(e)
    case Success(st2) =>
      if SubsidiaryMirrors(subject) then
        MirrorInto(st2, mirror, Cell(name, Some(OtherSubsidiary(subject.value)), p.time))
      else Success(st2)
  }

  /** The mirrors fail exactly when one of them fires and the partner
      class has no cell there; otherwise the partner's cell receives the
      General Paper copy or the other subsidiary subject (the two rules
      never fire together), or nothing changes. */
  lemma MirrorStepEffect(st: State, c: ClassName, d: Day, p: Period, name: string, subject: Option<Subject>)
    ensures var r := MirrorStep(st, c, d, p, name, subject);
      var mirror := Slot(Sibling(c), d, p.id);
      && (r.Failure? <==> (PaperMirrors(subject, c) || SubsidiaryMirrors(subject)) && mirror !in st.schedule)
      && (r.Failure? ==> r.error == UndefinedClass(Sibling(c)))
      && (r.Success? ==>
            r.value.schedule ==
              (if SubsidiaryMirrors(subject) then st.schedule[mirror := Cell(name, Some(OtherSubsidiary(subject.value)), p.time)]
               else if PaperMirrors(subject, c) then st.schedule[mirror := Cell(name, subject, p.time)]
               else st.schedule))
  {
  }

  function SlotStep(st: State, c: ClassName, d: Day, p: Period, target: nat): (r: Result<State, RunError>)
    requires Slot(c, d, p.id) in st.schedule
    ensures r.Success? ==> r.value.schedule.Keys == st.schedule.Keys && SameIds(st.assignments, r.value.assignments)
  {
    match Pick(st.assignments, c, d, p, target, st.schedule[Slot(c, d, p.id)].subject)
    case None => Success(st)
    case Some(k) =>
      MirrorStep(PrimaryStep(st, c, d, p, target, k), c, d, p, st.assignments[k].staff.name, ChosenSubject(st, c, d, p, target))
  }

  /** The outcome of one slot: a slot nobody can take leaves the state
      as it was, and a step fails exactly when a mirror rule fires towards
      a partner class whose cells do not exist yet. */
  lemma SlotStepOutcome(st: State, c: ClassName, d: Day, p: Period, target: nat)
    requires Slot(c, d, p.id) in st.schedule
    ensures Pick(st.assignments, c, d, p, target, st.schedule[Slot(c, d, p.id)].subject).None? ==>
      SlotStep(st, c, d, p, target) == Success(st)
    ensures var subject := ChosenSubject(st, c, d, p, target);
      SlotStep(st, c, d, p, target).Failure? <==>
        (PaperMirrors(subject, c) || SubsidiaryMirrors(subject)) && Slot(Sibling(c), d, p.id) !in st.schedule
    ensures SlotStep(st, c, d, p, target).Failure? ==>
      SlotStep(st, c, d, p, target).error == UndefinedClass(Sibling(c))
  {
    var pick := Pick(st.assignments, c, d, p, target, st.schedule[Slot(c, d, p.id)].subject);
    if pick.Some? {
      var primary := PrimaryStep(st, c, d, p, target, pick.value);
      MirrorStepEffect(primary, c, d, p, st.assignments[pick.value].staff.name, ChosenSubject(st, c, d, p, target));
    }
  }

  /** A successful step changes no cell other than the current one and
      the partner class's cell at the same day and period. */
  lemma SlotStepFrame(st: State, c: ClassName, d: Day, p: Period, target: nat)
    requires Slot(c, d, p.id) in st.schedule
    ensures var r := SlotStep(st, c, d, p, target);
      r.Success? ==>
        forall slot: Slot :: slot in st.schedule && slot != Slot(c, d, p.id) && slot != Slot(Sibling(c), d, p.id) ==>
          r.value.schedule[slot] == st.schedule[slot]
  {
    var pick := Pick(st.assignments, c, d, p, target, st.schedule[Slot(c, d, p.id)].subject);
    if pick.Some? {
      var primary := PrimaryStep(st, c, d, p, target, pick.value);
      MirrorStepEffect(primary, c, d, p, st.assignments[pick.value].staff.name, ChosenSubject(st, c, d, p, target));
    }
  }

  /** The cells a successful step writes: the current cell gets the picked
      teacher and subject (unless a parallel subject took it over), and
      the partner class's cell at the same day and period gets the General
      Paper copy or the other subsidiary subject, or stays as it was. */
  lemma SlotStepCells(st: State, c: ClassName, d: Day, p: Period, target: nat)
    requires Slot(c, d, p.id) in st.schedule
    ensures var r := SlotStep(st, c, d, p, target);
      var pick := Pick(st.assignments, c, d, p, target, st.schedule[Slot(c, d, p.id)].subject);
      var subject := ChosenSubject(st, c, d, p, target);
      var mirror := Slot(Sibling(c), d, p.id);
      r.Success? && pick.Some? ==>
        var name := st.assignments[pick.value].staff.name;
        && (!(IsUpper(c.level) && subject.Some? && SimultaneousOf(subject.value).Some?) ==>
              r.value.schedule[Slot(c, d, p.id)] == Cell(name, subject, p.time))
        && (PaperMirrors(subject, c) ==> r.value.schedule[mirror] == Cell(name, subject, p.time))
        && (SubsidiaryMirrors(subject) ==>
              r.value.schedule[mirror] == Cell(name, Some(OtherSubsidiary(subject.value)), p.time))
        && (!PaperMirrors(subject, c) && !SubsidiaryMirrors(subject) && mirror in st.schedule ==>
              r.value.schedule[mirror] == st.schedule[mirror])
  {
    var here := Slot(c, d, p.id);
    var pick := Pick(st.assignments, c, d, p, target, st.schedule[here].subject);
    if pick.Some? {
      var primary := PrimaryStep(st, c, d, p, target, pick.value);
      var name := st.assignments[pick.value].staff.name;
      var subject := ChosenSubject(st, c, d, p, target);
      MirrorStepEffect(primary, c, d, p, name, subject);
      var mirror := Slot(Sibling(c), d, p.id);
      assert mirror != here;
      assert mirror in st.schedule ==> primary.schedule[mirror] == st.schedule[mirror];
    }
  }

  /** When the chosen subject has no parallel list, the step's only
      counter change is one commit of the picked teacher's own entry;
      every other entry stays as it was. */
  lemma SlotStepCounters(st: State, c: ClassName, d: Day, p: Period, target: nat)
    requires Slot(c, d, p.id) in st.schedule
    requires DistinctIds(st.assignments)
    ensures var r := SlotStep(st, c, d, p, target);
      var pick := Pick(st.assignments, c, d, p, target, st.schedule[Slot(c, d, p.id)].subject);
      var subject := ChosenSubject(st, c, d, p, target);
      r.Success? && !(IsUpper(c.level) && subject.Some? && SimultaneousOf(subject.value).Some?) ==>
        r.value.assignments ==
          if pick.None? then st.assignments
          else st.assignments[pick.value := Commit(st.assignments[pick.value], c, d, p.id)]
  {
    var pick := Pick(st.assignments, c, d, p, target, st.schedule[Slot(c, d, p.id)].subject);
    if pick.Some? {
      IndexOfOwnId(st.assignments, pick.value);
      var primary := PrimaryStep(st, c, d, p, target, pick.value);
      MirrorStepEffect(primary, c, d, p, st.assignments[pick.value].staff.name, ChosenSubject(st, c, d, p, target));
    }
  }
}
