/** What a whole allocator run guarantees. Every slot is visited while
    its cell still holds the '-' placeholder it was set up with, so the
    subject choice can never pick a subject with a parallel list and every
    counter change is a primary commit that passed the eligibility tests.
    Hence, for every staff member at every point of the run:
    - at most 4 slots a day, and no class twice on a day;
    - only days it is available, and only classes it teaches;
    - a weekly total within the 1.2 load cap, equal to the sum of its
      daily counts;
    - no more quadrals than doubles.
    A run that aborts does so on a mirror out of an A-stream class into
    its B partner, which is set up later; a run that completes has set up
    all 16 classes. */
module RunInvariants {
  import opened Wrappers
  import opened Sequences
  import opened Grid
  import opened Subjects
  import opened Allocation
  import opened Passes

  // ---------------------------------------------------------------------
  // The counter invariant
  // ---------------------------------------------------------------------

  /** The number of slots over the days `ds`. */
  function DaySum(a: Assignment, ds: seq<Day>): nat
    decreases |ds|
  {
    if ds == [] then 0 else DailyCount(a, ds[0]) + DaySum(a, ds[1..])
  }

  /** What one day's counters of an entry keep throughout a run. */
  ghost predicate DayOk(a: Assignment, d: Day) {
    && DailyCount(a, d) <= 4
    && DailyCount(a, d) == |ClassesOn(a, d)|
    && NoDuplicates(ClassesOn(a, d))
    && (DailyCount(a, d) > 0 ==> d in a.staff.availableDays)
    && (forall cl :: cl in ClassesOn(a, d) ==> TeachesClass(a.staff, cl))
  }

  /** The invariant one counter entry keeps throughout a run. */
  ghost predicate LoadOk(a: Assignment, target: nat) {
    && (a.periodsAssigned == 0 || 5 * (a.periodsAssigned - 1) < 6 * target)
    && a.periodsAssigned == DaySum(a, Days)
    && a.quadralsAssigned <= a.doublesAssigned <= a.periodsAssigned
    && forall d: Day :: DayOk(a, d)
  }

  ghost predicate CountersOk(ts: seq<Assignment>, target: nat) {
    forall i :: 0 <= i < |ts| ==> LoadOk(ts[i], target)
  }

  /** The counter entries still describe the roster's own staff records,
      in roster order. */
  predicate Staffed(ts: seq<Assignment>, roster: seq<StaffRecord>) {
    |ts| == |roster| && forall i :: 0 <= i < |ts| ==> ts[i].staff == roster[i]
  }

  lemma {:induction false} DaySumOfZero(a: Assignment, ds: seq<Day>)
    requires forall d :: DailyCount(a, d) == 0
    ensures DaySum(a, ds) == 0
    decreases |ds|
  {
    if ds != [] {
      DaySumOfZero(a, ds[1..]);
    }
  }

  lemma {:induction false} DaySumCommit(a: Assignment, c: ClassName, d: Day, p: nat, ds: seq<Day>)
    requires NoDuplicates(ds)
    ensures DaySum(Commit(a, c, d, p), ds) == DaySum(a, ds) + (if d in ds then 1 else 0)
    decreases |ds|
  {
    if ds != [] {
      assert NoDuplicates(ds[1..]) by {
        forall i, j | 0 <= i < j < |ds[1..]| ensures ds[1..][i] != ds[1..][j] {
          assert ds[1..][i] == ds[i + 1] && ds[1..][j] == ds[j + 1];
        }
      }
      DaySumCommit(a, c, d, p, ds[1..]);
      if d == ds[0] {
        assert d !in ds[1..] by {
          forall j | 0 <= j < |ds[1..]| ensures ds[1..][j] != d { assert ds[1..][j] == ds[j + 1]; }
        }
      } else {
        assert d in ds <==> d in ds[1..];
      }
    }
  }

  /** Every counter starts from zero, whatever the roster held. */
  lemma StartIsOk(roster: seq<StaffRecord>, target: nat)
    ensures CountersOk(StartAssignments(roster), target)
    ensures Staffed(StartAssignments(roster), roster)
  {
    var ts := StartAssignments(roster);
    forall i | 0 <= i < |ts| ensures LoadOk(ts[i], target) {
      DaySumOfZero(ts[i], Days);
    }
  }

  lemma DaysDistinct()
    ensures NoDuplicates(Days)
  {
  }

  /** A commit that passed the eligibility tests keeps the invariant. */
  lemma CommitKeepsLoadOk(a: Assignment, c: ClassName, d: Day, p: nat, target: nat)
    requires LoadOk(a, target) && BaseEligible(a, c, d, target)
    ensures LoadOk(Commit(a, c, d, p), target)
  {
    var r := Commit(a, c, d, p);
    DaysDistinct();
    DayPosition(d);
    DaySumCommit(a, c, d, p, Days);
    forall e: Day ensures DayOk(r, e) {
      if e == d {
        CommitKeepsDayOk(a, c, d, p);
      } else {
        CommitKeepsOtherDay(a, c, d, p, e);
      }
    }
  }

  /** A commit leaves the counters of every other day as they were. */
  lemma CommitKeepsOtherDay(a: Assignment, c: ClassName, d: Day, p: nat, e: Day)
    requires DayOk(a, e) && e != d
    ensures DayOk(Commit(a, c, d, p), e)
  {
    var r := Commit(a, c, d, p);
    assert DailyCount(r, e) == DailyCount(a, e) && ClassesOn(r, e) == ClassesOn(a, e);
  }

  /** The day of a commit keeps its counters consistent: one more class,
      not seen that day before, taught by the entry's teacher. */
  lemma CommitKeepsDayOk(a: Assignment, c: ClassName, d: Day, p: nat)
    requires DayOk(a, d) && DailyCount(a, d) < 4 && d in a.staff.availableDays
    requires c !in ClassesOn(a, d) && TeachesClass(a.staff, c)
    ensures DayOk(Commit(a, c, d, p), d)
  {
    AppendFresh(ClassesOn(a, d), c);
  }

  // ---------------------------------------------------------------------
  // One slot on a blank cell
  // ---------------------------------------------------------------------

  /** The slot is present and its cell still holds the '-' placeholder. */
  ghost predicate Blank(s: Schedule, slot: Slot) {
    slot in s && s[slot].subject == Some(Dash)
  }

  /** Replacing one entry by a committed copy of itself keeps the
      invariant of the whole list. */
  lemma UpdateKeepsCounters(ts: seq<Assignment>, k: nat, a: Assignment, target: nat, roster: seq<StaffRecord>)
    requires k < |ts| && a.staff == ts[k].staff && LoadOk(a, target)
    requires CountersOk(ts, target) && DistinctIds(ts) && Staffed(ts, roster)
    ensures CountersOk(ts[k := a], target) && DistinctIds(ts[k := a]) && Staffed(ts[k := a], roster)
  {}

  /** A step at a blank cell commits exactly the picked teacher, and that
      commit keeps the invariant. */
  lemma StepKeepsCounters(st: State, c: ClassName, d: Day, p: Period, target: nat, roster: seq<StaffRecord>)
    requires Blank(st.schedule, Slot(c, d, p.id))
    requires CountersOk(st.assignments, target) && DistinctIds(st.assignments) && Staffed(st.assignments, roster)
    ensures var r := SlotStep(st, c, d, p, target);
      r.Success? ==>
        CountersOk(r.value.assignments, target) && DistinctIds(r.value.assignments) && Staffed(r.value.assignments, roster)
  {
    var here := Slot(c, d, p.id);
    var r := SlotStep(st, c, d, p, target);
    var pick := Pick(st.assignments, c, d, p, target, Some(Dash));
    SlotStepCounters(st, c, d, p, target);
    if r.Success? && pick.Some? {
      var k := pick.value;
      var t := st.assignments[k];
      SubjectOnEmptyCell(t.staff.subjects, t, c, p, target);
      assert ChosenSubject(st, c, d, p, target) == FindSubject(t.staff.subjects, t, c, p, target, Some(Dash));
      PickIsEligible(st.assignments, c, d, p, target, Some(Dash));
      assert BaseEligible(t, c, d, target);
      CommitKeepsLoadOk(t, c, d, p.id, target);
      UpdateKeepsCounters(st.assignments, k, Commit(t, c, d, p.id), target, roster);
    }
  }

  // ---------------------------------------------------------------------
  // The passes
  // ---------------------------------------------------------------------

  predicate IdsIncreasing(ps: seq<Period>) {
    forall i, j :: 0 <= i < j < |ps| ==> ps[i].id < ps[j].id
  }

  /** A pass over one day's periods only touches that day's cells. */
  lemma {:induction false} PeriodsPassFrame(st: State, c: ClassName, d: Day, ps: seq<Period>, target: nat)
    requires PeriodsReady(st.schedule, c, d, ps)
    ensures var r := PeriodsPass(st, c, d, ps, target);
      r.Success? ==>
        forall slot: Slot :: slot in st.schedule && slot.day != d ==> r.value.schedule[slot] == st.schedule[slot]
    decreases |ps|
  {
    if ps != [] {
      var r1 := SlotStep(st, c, d, ps[0], target);
      SlotStepFrame(st, c, d, ps[0], target);
      if r1.Success? {
        PeriodsPassFrame(r1.value, c, d, ps[1..], target);
      }
    }
  }

  /** After the step at a day's first remaining period, the cells of the
      later periods of that day are still blank. */
  lemma BlankAfterStep(st: State, c: ClassName, d: Day, ps: seq<Period>, target: nat)
    requires ps != [] && PeriodsReady(st.schedule, c, d, ps) && IdsIncreasing(ps)
    requires forall q :: q in ps ==> Blank(st.schedule, Slot(c, d, q.id))
    requires SlotStep(st, c, d, ps[0], target).Success?
    ensures var next := SlotStep(st, c, d, ps[0], target).value;
      && PeriodsReady(next.schedule, c, d, ps[1..]) && IdsIncreasing(ps[1..])
      && forall q :: q in ps[1..] ==> Blank(next.schedule, Slot(c, d, q.id))
  {
    var next := SlotStep(st, c, d, ps[0], target).value;
    SlotStepFrame(st, c, d, ps[0], target);
    forall q | q in ps[1..] ensures Blank(next.schedule, Slot(c, d, q.id)) {
      var j :| 0 <= j < |ps[1..]| && ps[1..][j] == q;
      assert ps[j + 1] == q;
    }
  }

  lemma {:induction false} PeriodsPassKeepsCounters(st: State, c: ClassName, d: Day, ps: seq<Period>, target: nat, roster: seq<StaffRecord>)
    requires PeriodsReady(st.schedule, c, d, ps) && IdsIncreasing(ps)
    requires forall q :: q in ps ==> Blank(st.schedule, Slot(c, d, q.id))
    requires CountersOk(st.assignments, target) && DistinctIds(st.assignments) && Staffed(st.assignments, roster)
    ensures var r := PeriodsPass(st, c, d, ps, target);
      r.Success? ==>
        CountersOk(r.value.assignments, target) && DistinctIds(r.value.assignments) && Staffed(r.value.assignments, roster)
    decreases |ps|
  {
    if ps != [] {
      var r1 := SlotStep(st, c, d, ps[0], target);
      StepKeepsCounters(st, c, d, ps[0], target, roster);
      if r1.Success? {
        BlankAfterStep(st, c, d, ps, target);
        PeriodsPassKeepsCounters(r1.value, c, d, ps[1..], target, roster);
        assert PeriodsPass(st, c, d, ps, target) == PeriodsPass(r1.value, c, d, ps[1..], target);
      }
    }
  }

  lemma PeriodsIncreasing()
    ensures IdsIncreasing(RegularTimePeriods)
  {
    PeriodNumbering();
  }

  /** After the pass over a class's first remaining day, the cells of its
      later days are still blank. */
  lemma BlankAfterDay(st: State, c: ClassName, ds: seq<Day>, target: nat)
    requires ds != [] && ClassReady(st.schedule, c) && NoDuplicates(ds)
    requires forall d, n :: d in ds && 1 <= n <= 6 ==> Blank(st.schedule, Slot(c, d, n))
    requires PeriodsReady(st.schedule, c, ds[0], RegularTimePeriods)
    requires PeriodsPass(st, c, ds[0], RegularTimePeriods, target).Success?
    ensures var next := PeriodsPass(st, c, ds[0], RegularTimePeriods, target).value;
      && ClassReady(next.schedule, c) && NoDuplicates(ds[1..])
      && forall d, n :: d in ds[1..] && 1 <= n <= 6 ==> Blank(next.schedule, Slot(c, d, n))
  {
    var next := PeriodsPass(st, c, ds[0], RegularTimePeriods, target).value;
    PeriodsPassFrame(st, c, ds[0], RegularTimePeriods, target);
    LaterDays(ds);
    assert next.schedule.Keys == st.schedule.Keys;
    forall d, n | d in ds[1..] && 1 <= n <= 6 ensures Blank(next.schedule, Slot(c, d, n)) {
      assert Blank(st.schedule, Slot(c, d, n));
    }
  }

  /** The days after the first of a list without repeats differ from it
      and repeat nothing. */
  lemma LaterDays(ds: seq<Day>)
    requires ds != [] && NoDuplicates(ds)
    ensures NoDuplicates(ds[1..])
    ensures forall d :: d in ds[1..] ==> d in ds && d != ds[0]
  {
    var rest := ds[1..];
    assert forall i :: 0 <= i < |rest| ==> rest[i] == ds[i + 1];
    forall d | d in rest ensures d in ds && d != ds[0] {
      var j :| 0 <= j < |rest| && rest[j] == d;
      assert ds[j + 1] == d;
    }
  }

  lemma {:induction false} DaysPassKeepsCounters(st: State, c: ClassName, ds: seq<Day>, target: nat, roster: seq<StaffRecord>)
    requires ClassReady(st.schedule, c) && NoDuplicates(ds)
    requires forall d, n :: d in ds && 1 <= n <= 6 ==> Blank(st.schedule, Slot(c, d, n))
    requires CountersOk(st.assignments, target) && DistinctIds(st.assignments) && Staffed(st.assignments, roster)
    ensures var r := DaysPass(st, c, ds, target);
      r.Success? ==>
        CountersOk(r.value.assignments, target) && DistinctIds(r.value.assignments) && Staffed(r.value.assignments, roster)
    decreases |ds|
  {
    if ds != [] {
      PeriodIds();
      PeriodsIncreasing();
      var r1 := PeriodsPass(st, c, ds[0], RegularTimePeriods, target);
      PeriodsPassKeepsCounters(st, c, ds[0], RegularTimePeriods, target, roster);
      if r1.Success? {
        BlankAfterDay(st, c, ds, target);
        DaysPassKeepsCounters(r1.value, c, ds[1..], target, roster);
        assert DaysPass(st, c, ds, target) == DaysPass(r1.value, c, ds[1..], target);
      }
    }
  }

  lemma {:induction false} ClassesPassKeepsCounters(st: State, cs: seq<ClassName>, target: nat, roster: seq<StaffRecord>)
    requires CountersOk(st.assignments, target) && DistinctIds(st.assignments) && Staffed(st.assignments, roster)
    ensures var r := ClassesPass(st, cs, target);
      r.Success? ==>
        CountersOk(r.value.assignments, target) && DistinctIds(r.value.assignments) && Staffed(r.value.assignments, roster)
    decreases |cs|
  {
    if cs != [] {
      var c := cs[0];
      var ready := Prepare(st, c);
      PreparedIsBlank(st, c);
      DaysDistinct();
      DaysPassKeepsCounters(ready, c, Days, target, roster);
      var r1 := DaysPass(ready, c, Days, target);
      if r1.Success? {
        ClassesPassKeepsCounters(r1.value, cs[1..], target, roster);
      }
    }
  }

  /** Right after set-up, every cell of the class holds the placeholder. */
  lemma PreparedIsBlank(st: State, c: ClassName)
    ensures forall d, n :: d in Days && 1 <= n <= 6 ==> Blank(Prepare(st, c).schedule, Slot(c, d, n))
  {
    InitClassEffect(st.schedule, c);
    forall d, n | d in Days && 1 <= n <= 6 ensures Blank(Prepare(st, c).schedule, Slot(c, d, n)) {
      assert IsSlotOf(Slot(c, d, n), c);
    }
  }

  /** Over a whole run (roster ids distinct, as `findIndex` by id
      presumes): each entry still carries its roster record, and its
      counters keep the invariant. */
  lemma RunKeepsCounters(roster: seq<StaffRecord>)
    requires |roster| > 0
    requires forall i, j :: 0 <= i < |roster| && 0 <= j < |roster| && i != j ==> roster[i].id != roster[j].id
    ensures Run(roster).Success? ==>
      Staffed(Run(roster).value.assignments, roster) &&
      CountersOk(Run(roster).value.assignments, Target(|roster|))
  {
    StartIsOk(roster, Target(|roster|));
    ClassesPassKeepsCounters(State(StartAssignments(roster), map[]), Classes(), Target(|roster|), roster);
  }

  // ---------------------------------------------------------------------
  // Which classes exist, and where a run can abort
  // ---------------------------------------------------------------------

  /** Every key of the schedule is a slot of a class in `done`. */
  ghost predicate Within(s: Schedule, done: seq<ClassName>) {
    forall slot: Slot :: slot in s ==> slot.cls in done && 1 <= slot.period <= 6
  }

  /** Every class in `done` has all its slots. */
  ghost predicate AllReady(s: Schedule, done: seq<ClassName>) {
    forall c :: c in done ==> ClassReady(s, c)
  }

  /** A pass over one day fails only on a mirror into a partner class that
      is not set up. */
  lemma {:induction false} PeriodsPassFailure(st: State, c: ClassName, d: Day, ps: seq<Period>, target: nat)
    requires PeriodsReady(st.schedule, c, d, ps)
    requires forall q :: q in ps ==> 1 <= q.id <= 6
    ensures var r := PeriodsPass(st, c, d, ps, target);
      r.Failure? ==> r.error == UndefinedClass(Sibling(c)) && !ClassReady(st.schedule, Sibling(c))
    decreases |ps|
  {
    if ps != [] {
      var r1 := SlotStep(st, c, d, ps[0], target);
      SlotStepOutcome(st, c, d, ps[0], target);
      if r1.Failure? {
        assert IsSlotOf(Slot(Sibling(c), d, ps[0].id), Sibling(c));
      } else {
        PeriodsPassFailure(r1.value, c, d, ps[1..], target);
      }
    }
  }

  lemma {:induction false} DaysPassFailure(st: State, c: ClassName, ds: seq<Day>, target: nat)
    requires ClassReady(st.schedule, c)
    ensures var r := DaysPass(st, c, ds, target);
      r.Failure? ==> r.error == UndefinedClass(Sibling(c)) && !ClassReady(st.schedule, Sibling(c))
    decreases |ds|
  {
    if ds != [] {
      PeriodIds();
      var r1 := PeriodsPass(st, c, ds[0], RegularTimePeriods, target);
      PeriodsPassFailure(st, c, ds[0], RegularTimePeriods, target);
      if r1.Success? {
        DaysPassFailure(r1.value, c, ds[1..], target);
      }
    }
  }

  /** While the classes run in order, a partner class that is not set up
      is the B stream of an A-stream class. */
  lemma UnreadyPartnerIsB(s: Schedule, done: seq<ClassName>, c: ClassName)
    requires |done| < |Classes()| && Classes()[..|done|] == done && Classes()[|done|] == c
    requires AllReady(s, done + [c]) && !ClassReady(s, Sibling(c))
    ensures c.stream == A && Sibling(c).stream == B
  {
    assert Sibling(c) !in done;
    SiblingPlacement(|done|);
  }

  /** Setting up class `c` adds exactly its slots. */
  lemma PrepareKeys(st: State, done: seq<ClassName>, c: ClassName)
    requires Within(st.schedule, done) && AllReady(st.schedule, done)
    ensures Within(Prepare(st, c).schedule, done + [c]) && AllReady(Prepare(st, c).schedule, done + [c])
  {
    var s := InitClass(st.schedule, c);
    assert Prepare(st, c).schedule == s;
    InitClassEffect(st.schedule, c);
    InitWithin(st.schedule, done, c);
    InitReady(st.schedule, done, c);
  }

  lemma InitWithin(s: Schedule, done: seq<ClassName>, c: ClassName)
    requires Within(s, done)
    requires forall slot: Slot :: !IsSlotOf(slot, c) ==> Agrees(InitClass(s, c), s, slot)
    ensures Within(InitClass(s, c), done + [c])
  {
    forall slot: Slot | slot in InitClass(s, c) ensures slot.cls in done + [c] && 1 <= slot.period <= 6 {
      if !IsSlotOf(slot, c) {
        assert Agrees(InitClass(s, c), s, slot);
      }
    }
  }

  lemma InitReady(s: Schedule, done: seq<ClassName>, c: ClassName)
    requires AllReady(s, done)
    requires forall slot: Slot :: IsSlotOf(slot, c) ==> HasEmptyCell(InitClass(s, c), slot)
    requires forall slot: Slot :: !IsSlotOf(slot, c) ==> Agrees(InitClass(s, c), s, slot)
    ensures AllReady(InitClass(s, c), done + [c])
  {
    forall c' | c' in done + [c] ensures ClassReady(InitClass(s, c), c') {
      if c' != c {
        assert c' in done;
        forall slot: Slot | IsSlotOf(slot, c') ensures slot in InitClass(s, c) {
          assert Agrees(InitClass(s, c), s, slot);
        }
      }
    }
  }

  lemma {:induction false} ClassesPassKeys(st: State, done: seq<ClassName>, cs: seq<ClassName>, target: nat)
    requires Within(st.schedule, done) && AllReady(st.schedule, done)
    ensures var r := ClassesPass(st, cs, target);
      r.Success? ==> Within(r.value.schedule, done + cs) && AllReady(r.value.schedule, done + cs)
    decreases |cs|
  {
    if cs == [] {
      assert done + cs == done;
    } else {
      var c := cs[0];
      var ready := Prepare(st, c);
      PrepareKeys(st, done, c);
      ClassesPassStep(st, cs, target);
      var r1 := DaysPass(ready, c, Days, target);
      if r1.Success? {
        assert r1.value.schedule.Keys == ready.schedule.Keys;
        ShiftFirst(done, cs);
        ClassesPassKeys(r1.value, done + [c], cs[1..], target);
      }
    }
  }

  lemma {:induction false} ClassesPassFailure(st: State, done: seq<ClassName>, cs: seq<ClassName>, target: nat)
    requires Within(st.schedule, done) && AllReady(st.schedule, done) && done + cs == Classes()
    ensures var r := ClassesPass(st, cs, target);
      r.Failure? ==> r.error.cls.stream == B
    decreases |cs|
  {
    if cs != [] {
      var c := cs[0];
      assert Classes()[|done|] == c && Classes()[..|done|] == done;
      var ready := Prepare(st, c);
      PrepareKeys(st, done, c);
      ClassesPassStep(st, cs, target);
      var r1 := DaysPass(ready, c, Days, target);
      DaysPassFailure(ready, c, Days, target);
      if r1.Failure? {
        UnreadyPartnerIsB(ready.schedule, done, c);
      } else {
        ClassesPassKeys(ready, done + [c], [], target);
        assert r1.value.schedule.Keys == ready.schedule.Keys;
        ShiftFirst(done, cs);
        ClassesPassFailure(r1.value, done + [c], cs[1..], target);
      }
    }
  }

  /** A completed run has set up every one of the 16 classes (and nothing
      else); an aborted run was stopped by a mirror into a B-stream class,
      from its A partner which comes first in the enumeration. */
  lemma RunShape(roster: seq<StaffRecord>)
    requires |roster| > 0
    ensures Run(roster).Success? ==>
      forall slot: Slot :: slot in Run(roster).value.schedule <==> slot.cls in Classes() && 1 <= slot.period <= 6
    ensures Run(roster).Failure? ==> Run(roster).error.cls.stream == B
  {
    var start := State(StartAssignments(roster), map[]);
    assert [] + Classes() == Classes();
    ClassesPassKeys(start, [], Classes(), Target(|roster|));
    ClassesPassFailure(start, [], Classes(), Target(|roster|));
  }

  /** A one-teacher roster that teaches SubMath to S1 aborts on the very
      first slot: S1A, Monday, period 1 goes to that teacher with SubMath,
      and the SubMath/ICT mirror writes into S1B, which is not set up. */
  lemma SubsidiaryMirrorAborts()
    ensures Run([StaffRecord(1, "T", [SubMath], [S1], [], [Monday], 0)]) == Failure(UndefinedClass(ClassName(S1, B)))
  {
    var roster := [StaffRecord(1, "T", [SubMath], [S1], [], [Monday], 0)];
    var c, p, target := ClassName(S1, A), RegularTimePeriods[0], Target(1);
    var st := State(StartAssignments(roster), map[]);
    var prep := Prepare(st, c);
    var here := Slot(c, Monday, 1);
    ClassesEnumeration();
    InitClassEffect(map[], c);
    assert HasEmptyCell(prep.schedule, here);
    assert Slot(ClassName(S1, B), Monday, 1) !in prep.schedule by {
      assert !IsSlotOf(Slot(ClassName(S1, B), Monday, 1), c);
    }
    FirstSlotChoosesSubMath(prep, target);
    SlotStepOutcome(prep, c, Monday, p, target);
    DaysPassAt(prep, c, Days, 0, target);
    assert RegularTimePeriods[0..] == RegularTimePeriods;
    PeriodsPassAt(prep, c, Monday, RegularTimePeriods, 0, target);
    assert Days[0..] == Days;
    ClassesPassStep(st, Classes(), target);
  }

  lemma FirstSlotChoosesSubMath(st: State, target: nat)
    requires target == 36
    requires |st.assignments| == 1
    requires st.assignments[0] == Assignment(StaffRecord(1, "T", [SubMath], [S1], [], [Monday], 0), 0, map[], map[], 0, 0)
    requires HasEmptyCell(st.schedule, Slot(ClassName(S1, A), Monday, 1))
    ensures ChosenSubject(st, ClassName(S1, A), Monday, RegularTimePeriods[0], target) == Some(SubMath)
  {
    var c, p := ClassName(S1, A), RegularTimePeriods[0];
    var t := st.assignments[0];
    var cellSubject := st.schedule[Slot(c, Monday, 1)].subject;
    assert BaseEligible(t, c, Monday, target) && |t.staff.subjects| > 0;
    PickIsEligible(st.assignments, c, Monday, p, target, cellSubject);
    assert Pick(st.assignments, c, Monday, p, target, cellSubject) == Some(0);
    SubMathOnFirstPeriod(t, c, p, target, cellSubject);
  }

  lemma SubMathOnFirstPeriod(a: Assignment, c: ClassName, p: Period, target: nat, cellSubject: Option<Subject>)
    requires a.staff.subjects == [SubMath] && a.quadralsAssigned == 0 && p.id == 1 && c.level == S1
    ensures FindSubject(a.staff.subjects, a, c, p, target, cellSubject) == Some(SubMath)
  {
    assert BranchOf(SubMath, S1) == SubsidiaryBranch;
    assert SelectGate(SubMath, a, c, p, target, cellSubject);
  }

  // ---------------------------------------------------------------------
  // The write-back
  // ---------------------------------------------------------------------

  /** With distinct ids, the write-back gives each roster entry the total
      of its own counter entry. */
  lemma WriteBackOwnTotals(roster: seq<StaffRecord>, ts: seq<Assignment>)
    requires Staffed(ts, roster)
    requires forall i, j :: 0 <= i < |roster| && 0 <= j < |roster| && i != j ==> roster[i].id != roster[j].id
    ensures forall i :: 0 <= i < |roster| ==>
      WriteBack(roster, ts)[i] == roster[i].(periodsAssigned := ts[i].periodsAssigned)
  {
    forall i | 0 <= i < |roster| ensures IndexOfId(ts, roster[i].id) == i {
      assert ts[i].staff.id == roster[i].id;
    }
  }

  /** A completed run hands back the roster in its own order with every
      field but `periodsAssigned` unchanged, and each `periodsAssigned` is
      that teacher's run total: the sum of its daily counts, within the
      1.2 load cap. */
  lemma GenerateReportsTotals(roster: seq<StaffRecord>)
    requires |roster| > 0
    requires forall i, j :: 0 <= i < |roster| && 0 <= j < |roster| && i != j ==> roster[i].id != roster[j].id
    ensures Generate(roster).Success? ==>
      var out := Generate(roster).value.roster;
      var ts := Run(roster).value.assignments;
      && |out| == |roster| && |ts| == |roster|
      && forall i :: 0 <= i < |roster| ==>
        && out[i] == roster[i].(periodsAssigned := ts[i].periodsAssigned)
        && ts[i].periodsAssigned == DaySum(ts[i], Days)
        && (ts[i].periodsAssigned == 0 || 5 * (ts[i].periodsAssigned - 1) < 6 * Target(|roster|))
  {
    RunKeepsCounters(roster);
    if Run(roster).Success? {
      var ts := Run(roster).value.assignments;
      assert Generate(roster).value.roster == WriteBack(roster, ts);
      WriteBackOwnTotals(roster, ts);
      forall i | 0 <= i < |roster|
        ensures ts[i].periodsAssigned == DaySum(ts[i], Days)
        ensures ts[i].periodsAssigned == 0 || 5 * (ts[i].periodsAssigned - 1) < 6 * Target(|roster|)
      {
        assert LoadOk(ts[i], Target(|roster|));
      }
    }
  }
}
