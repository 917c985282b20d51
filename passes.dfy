/** The allocator's three nested passes (periods within a day, days within
    a class, classes in enumeration order), the whole run and the final
    write-back of `periodsAssigned` (src/App.js:176-406), as functions of
    the run's state. A run either completes or aborts with the TypeError
    of a mirror into a class that has not been set up yet; an aborted run
    writes nothing back. */
module Passes {
  import opened Wrappers
  import opened Grid
  import opened Allocation

  lemma PeriodIds()
    ensures forall q :: q in RegularTimePeriods ==> 1 <= q.id <= 6
  {
    PeriodNumbering();
  }

  lemma ReadyForDay(s: Schedule, c: ClassName, d: Day)
    requires ClassReady(s, c)
    ensures PeriodsReady(s, c, d, RegularTimePeriods)
  {
    PeriodIds();
  }

  lemma ReadyAfterInit(s: Schedule, c: ClassName)
    ensures ClassReady(InitClass(s, c), c)
  {
    InitClassEffect(s, c);
  }

  /** All 36 slots of the class are keys of the schedule. */
  ghost predicate ClassReady(s: Schedule, c: ClassName) {
    forall slot: Slot :: IsSlotOf(slot, c) ==> slot in s
  }

  predicate PeriodsReady(s: Schedule, c: ClassName, d: Day, ps: seq<Period>) {
    forall q :: q in ps ==> Slot(c, d, q.id) in s
  }

  /** `timePeriods.forEach(period => ...)` for one class and day. */
  function PeriodsPass(st: State, c: ClassName, d: Day, ps: seq<Period>, target: nat): (r: Result<State, RunError>)
    requires PeriodsReady(st.schedule, c, d, ps)
    ensures r.Success? ==> r.value.schedule.Keys == st.schedule.Keys && SameIds(st.assignments, r.value.assignments)
    decreases |ps|
  {
    if ps == [] then Success(st)
    else
      match SlotStep(st, c, d, ps[0], target)
      case Failure(e) => Failure(e)
      case Success(next) => PeriodsPass(next, c, d, ps[1..], target)
  }

  /** `days.forEach(day => ...)` for one class. */
  function DaysPass(st: State, c: ClassName, ds: seq<Day>, target: nat): (r: Result<State, RunError>)
    requires ClassReady(st.schedule, c)
    ensures r.Success? ==> r.value.schedule.Keys == st.schedule.Keys && SameIds(st.assignments, r.value.assignments)
    decreases |ds|
  {
    if ds == [] then Success(st)
    else
      ReadyForDay(st.schedule, c, ds[0]);
      match PeriodsPass(st, c, ds[0], RegularTimePeriods, target)
      case Failure(e) => Failure(e)
      case Success(next) => DaysPass(next, c, ds[1..], target)
  }

  /** The step at the `i`-th period of a periods pass, and what the pass
      continues with. */
  lemma PeriodsPassAt(st: State, c: ClassName, d: Day, ps: seq<Period>, i: nat, target: nat)
    requires i < |ps| && PeriodsReady(st.schedule, c, d, ps[i..])
    ensures Slot(c, d, ps[i].id) in st.schedule
    ensures var r1 := SlotStep(st, c, d, ps[i], target);
      && (r1.Failure? ==> PeriodsPass(st, c, d, ps[i..], target) == Failure(r1.error))
      && (r1.Success? ==> PeriodsReady(r1.value.schedule, c, d, ps[i + 1..]))
      && (r1.Success? ==> PeriodsPass(st, c, d, ps[i..], target) == PeriodsPass(r1.value, c, d, ps[i + 1..], target))
  {
    assert ps[i..][0] == ps[i] && ps[i..][1..] == ps[i + 1..];
    assert ps[i] in ps[i..];
  }

  /** The pass over the `i`-th day of a days pass, and what the pass
      continues with. */
  lemma DaysPassAt(st: State, c: ClassName, ds: seq<Day>, i: nat, target: nat)
    requires i < |ds| && ClassReady(st.schedule, c)
    ensures PeriodsReady(st.schedule, c, ds[i], RegularTimePeriods)
    ensures var r1 := PeriodsPass(st, c, ds[i], RegularTimePeriods, target);
      && (r1.Failure? ==> DaysPass(st, c, ds[i..], target) == Failure(r1.error))
      && (r1.Success? ==> ClassReady(r1.value.schedule, c))
      && (r1.Success? ==> DaysPass(st, c, ds[i..], target) == DaysPass(r1.value, c, ds[i + 1..], target))
  {
    assert ds[i..][0] == ds[i] && ds[i..][1..] == ds[i + 1..];
    ReadyForDay(st.schedule, c, ds[i]);
  }

  /** Sets up a class's cells before its days are filled. */
  function Prepare(st: State, c: ClassName): (r: State)
    ensures ClassReady(r.schedule, c) && r.assignments == st.assignments
  {
    ReadyAfterInit(st.schedule, c);
    st.(schedule := InitClass(st.schedule, c))
  }

  /** `classes.forEach(className => ...)` */
  function ClassesPass(st: State, cs: seq<ClassName>, target: nat): (r: Result<State, RunError>)
    ensures r.Success? ==> SameIds(st.assignments, r.value.assignments)
    decreases |cs|
  {
    if cs == [] then Success(st)
    else
      match DaysPass(Prepare(st, cs[0]), cs[0], Days, target)
      case Failure(e) => Failure(e)
      case Success(next) => ClassesPass(next, cs[1..], target)
  }

  /** The first class of a pass over classes, and what the pass continues
      with. */
  lemma ClassesPassStep(st: State, cs: seq<ClassName>, target: nat)
    requires cs != []
    ensures var r1 := DaysPass(Prepare(st, cs[0]), cs[0], Days, target);
      ClassesPass(st, cs, target) == if r1.Failure? then Failure(r1.error) else ClassesPass(r1.value, cs[1..], target)
  {}

  /** The `i`-th class of a pass over classes, and what the pass continues
      with. */
  lemma ClassesPassAt(st: State, cs: seq<ClassName>, i: nat, target: nat)
    requires i < |cs|
    ensures var r1 := DaysPass(Prepare(st, cs[i]), cs[i], Days, target);
      && (r1.Failure? ==> ClassesPass(st, cs[i..], target) == Failure(r1.error))
      && (r1.Success? ==> ClassesPass(st, cs[i..], target) == ClassesPass(r1.value, cs[i + 1..], target))
  {
    assert cs[i..][0] == cs[i] && cs[i..][1..] == cs[i + 1..];
    ClassesPassStep(st, cs[i..], target);
  }

  /** The run from zeroed counters and an empty schedule. */
  function Run(roster: seq<StaffRecord>): (r: Result<State, RunError>)
    requires |roster| > 0
    ensures r.Success? ==>
      |r.value.assignments| == |roster| &&
      forall i :: 0 <= i < |roster| ==> r.value.assignments[i].staff.id == roster[i].id
  {
    ClassesPass(State(StartAssignments(roster), map[]), Classes(), Target(|roster|))
  }

  /** `teachers.map(...)` at the end of the run: every roster entry, in
      roster order, with its `periodsAssigned` replaced by that of the
      first counter entry carrying its id. */
  function WriteBack(roster: seq<StaffRecord>, ts: seq<Assignment>): (r: seq<StaffRecord>)
    requires |ts| == |roster| && forall i :: 0 <= i < |roster| ==> ts[i].staff.id == roster[i].id
    ensures |r| == |roster|
    ensures forall i :: 0 <= i < |roster| ==> r[i] == roster[i].(periodsAssigned := r[i].periodsAssigned)
    ensures forall i :: 0 <= i < |roster| ==>
      exists j :: 0 <= j < |ts| && ts[j].staff.id == roster[i].id && r[i].periodsAssigned == ts[j].periodsAssigned
  {
    seq(|roster|, i requires 0 <= i < |roster| =>
      var j := IndexOfId(ts, roster[i].id);
      assert ts[i].staff.id == roster[i].id;
      roster[i].(periodsAssigned := ts[j].periodsAssigned))
  }

  /** What a completed run hands to the page: the updated roster and the
      new schedule. */
  datatype Generated = Generated(roster: seq<StaffRecord>, schedule: Schedule)

  function Generate(roster: seq<StaffRecord>): (r: Result<Generated, RunError>)
    requires |roster| > 0
    ensures r.Failure? <==> Run(roster).Failure?
    ensures r.Success? ==> r.value.schedule == Run(roster).value.schedule && |r.value.roster| == |roster|
  {
    match Run(roster)
    case Failure(e) => Failure(e)
    case Success(st) => Success(Generated(WriteBack(roster, st.assignments), st.schedule))
  }
}
