/** The allocator as the source runs it: one object holding the mutable
    counter list (`teacherAssignments`) and the schedule being built
    (`newSchedule`), filled by nested loops over classes, days and
    periods (src/App.js:176-406). Each method is proved to compute the
    corresponding function of modules Allocation and Passes, whose
    properties are proved in module RunInvariants. */
module Scheduler {
  import opened Wrappers
  import opened Grid
  import opened Subjects
  import opened Allocation
  import opened Passes

  class Timetabler {
    var assignments: seq<Assignment>
    var schedule: Schedule
    const target: nat

    /** The counters of lines 179-186 and the empty `newSchedule`. */
    constructor (roster: seq<StaffRecord>)
      requires |roster| > 0
      ensures assignments == StartAssignments(roster) && schedule == map[]
      ensures target == Target(|roster|)
    {
      assignments := StartAssignments(roster);
      schedule := map[];
      target := Target(|roster|);
    }

    function Current(): State
      reads this
    {
      State(assignments, schedule)
    }

    /** Lines 212-222: every period of every day of the class gets the
        empty cell. */
    method SetUpClass(c: ClassName)
      modifies this
      ensures schedule == InitClass(old(schedule), c)
      ensures assignments == old(assignments)
    {
      var i := 0;
      while i < |Days|
        invariant 0 <= i <= |Days|
        invariant assignments == old(assignments)
        invariant WithEmptyDays(schedule, c, Days[i..]) == InitClass(old(schedule), c)
      {
        var d := Days[i];
        ghost var dayStart := schedule;
        var j := 0;
        while j < |RegularTimePeriods|
          invariant 0 <= j <= |RegularTimePeriods|
          invariant assignments == old(assignments)
          invariant WithEmptyPeriods(schedule, c, d, RegularTimePeriods[j..]) ==
                    WithEmptyPeriods(dayStart, c, d, RegularTimePeriods)
        {
          var p := RegularTimePeriods[j];
          assert RegularTimePeriods[j..][1..] == RegularTimePeriods[j + 1..];
          schedule := schedule[Slot(c, d, p.id) := EmptyCell(p)];
          j := j + 1;
        }
        assert Days[i..][1..] == Days[i + 1..];
        i := i + 1;
      }
    }

    /** Lines 341-365: each parallel subject with a teacher found for it
        commits that teacher and overwrites the current cell. */
    method TeachParallel(parallel: seq<Subject>, c: ClassName, d: Day, p: Period)
      requires Slot(c, d, p.id) in schedule
      modifies this
      ensures Current() == TeachSimultaneous(old(Current()), parallel, c, d, p)
    {
      var i := 0;
      while i < |parallel|
        invariant 0 <= i <= |parallel|
        invariant Slot(c, d, p.id) in schedule
        invariant TeachSimultaneous(Current(), parallel[i..], c, d, p) ==
                  TeachSimultaneous(old(Current()), parallel, c, d, p)
      {
        TeachSimultaneousAt(Current(), parallel, i, c, d, p);
        var subject := parallel[i];
        var j := ParallelTeacher(assignments, subject, c);
        if j >= 0 {
          var t := assignments[j];
          var k := IndexOfId(assignments, t.staff.id);
          assignments := assignments[k := Commit(t, c, d, p.id)];
          schedule := schedule[Slot(c, d, p.id) := Cell(t.staff.name, Some(subject), p.time)];
        }
        i := i + 1;
      }
    }

    /** Lines 236-365: commit the picked teacher, write the cell with the
        subject found for it, then teach the parallel subjects. */
    method TeachPrimary(c: ClassName, d: Day, p: Period, k: nat) returns (name: string, subject: Option<Subject>)
      requires Slot(c, d, p.id) in schedule && k < |assignments|
      modifies this
      ensures Current() == PrimaryStep(old(Current()), c, d, p, target, k)
      ensures name == old(assignments)[k].staff.name
      ensures var t := old(assignments)[k];
        subject == FindSubject(t.staff.subjects, t, c, p, target, old(schedule)[Slot(c, d, p.id)].subject)
    {
      var here := Slot(c, d, p.id);
      var t := assignments[k];
      var teacherIndex := IndexOfId(assignments, t.staff.id);
      name := t.staff.name;
      subject := FindSubject(t.staff.subjects, t, c, p, target, schedule[here].subject);
      assignments := assignments[teacherIndex := Commit(t, c, d, p.id)];
      schedule := schedule[here := Cell(t.staff.name, subject, p.time)];
      if IsUpper(c.level) && subject.Some? && SimultaneousOf(subject.value).Some? {
        TeachParallel(SimultaneousOf(subject.value).value, c, d, p);
      }
    }

    /** Lines 369-390: the General Paper mirror, then the SubMath/ICT
        mirror. A mirror into a class that is not set up yet is reported as
        the error. */
    method MirrorPartner(c: ClassName, d: Day, p: Period, name: string, subject: Option<Subject>) returns (err: Option<RunError>)
      modifies this
      ensures Outcome(err, Current()) == MirrorStep(old(Current()), c, d, p, name, subject)
    {
      var mirror := Slot(Sibling(c), d, p.id);
      if PaperMirrors(subject, c) {
        if mirror !in schedule {
          return Some(UndefinedClass(Sibling(c)));
        }
        schedule := schedule[mirror := Cell(name, subject, p.time)];
      }
      if SubsidiaryMirrors(subject) {
        if mirror !in schedule {
          return Some(UndefinedClass(Sibling(c)));
        }
        schedule := schedule[mirror := Cell(name, Some(OtherSubsidiary(subject.value)), p.time)];
      }
      return None;
    }

    /** Lines 229-391 for one slot: pick a teacher; when there is one,
        teach the slot and mirror it into the partner class. */
    method AssignSlot(c: ClassName, d: Day, p: Period) returns (err: Option<RunError>)
      requires Slot(c, d, p.id) in schedule
      modifies this
      ensures Outcome(err, Current()) == SlotStep(old(Current()), c, d, p, target)
    {
      var pick := Pick(assignments, c, d, p, target, schedule[Slot(c, d, p.id)].subject);
      if pick.None? {
        return None;
      }
      var name, subject := TeachPrimary(c, d, p, pick.value);
      err := MirrorPartner(c, d, p, name, subject);
    }

    /** `timePeriods.forEach(...)` for one class and day. */
    method ScheduleDay(c: ClassName, d: Day) returns (err: Option<RunError>)
      requires PeriodsReady(schedule, c, d, RegularTimePeriods)
      modifies this
      ensures Outcome(err, Current()) == PeriodsPass(old(Current()), c, d, RegularTimePeriods, target)
    {
      var ps := RegularTimePeriods;
      ghost var goal := PeriodsPass(Current(), c, d, ps, target);
      var i := 0;
      while i < |ps|
        invariant 0 <= i <= |ps|
        invariant PeriodsReady(schedule, c, d, ps[i..])
        invariant PeriodsPass(Current(), c, d, ps[i..], target) == goal
      {
        PeriodsPassAt(Current(), c, d, ps, i, target);
        err := AssignSlot(c, d, ps[i]);
        if err.Some? {
          return;
        }
        i := i + 1;
      }
      err := None;
    }

    /** `days.forEach(...)` for one class whose cells are set up. */
    method ScheduleDays(c: ClassName) returns (err: Option<RunError>)
      requires ClassReady(schedule, c)
      modifies this
      ensures Outcome(err, Current()) == DaysPass(old(Current()), c, Days, target)
    {
      ghost var goal := DaysPass(Current(), c, Days, target);
      var i := 0;
      while i < |Days|
        invariant 0 <= i <= |Days|
        invariant ClassReady(schedule, c)
        invariant DaysPass(Current(), c, Days[i..], target) == goal
      {
        DaysPassAt(Current(), c, Days, i, target);
        err := ScheduleDay(c, Days[i]);
        if err.Some? {
          return;
        }
        i := i + 1;
      }
      err := None;
    }

    /** One iteration of `classes.forEach`: set the class up, then fill
        its days in order. */
    method ScheduleClass(c: ClassName) returns (err: Option<RunError>)
      modifies this
      ensures Outcome(err, Current()) == DaysPass(Prepare(old(Current()), c), c, Days, target)
    {
      SetUpClass(c);
      ReadyAfterInit(old(schedule), c);
      assert Current() == Prepare(old(Current()), c);
      err := ScheduleDays(c);
    }

    /** `classes.forEach(...)` over the given classes. */
    method ScheduleAll(cs: seq<ClassName>) returns (err: Option<RunError>)
      modifies this
      ensures Outcome(err, Current()) == ClassesPass(old(Current()), cs, target)
    {
      ghost var goal := ClassesPass(Current(), cs, target);
      var i := 0;
      while i < |cs|
        invariant 0 <= i <= |cs|
        invariant ClassesPass(Current(), cs[i..], target) == goal
      {
        ClassesPassAt(Current(), cs, i, target);
        err := ScheduleClass(cs[i]);
        if err.Some? {
          return;
        }
        i := i + 1;
      }
      err := None;
    }
  }

  /** A method's error report and final state, read as the result of the
      function it computes. */
  function Outcome(err: Option<RunError>, st: State): (r: Result<State, RunError>)
    ensures r.Failure? <==> err.Some?
  {
    if err.Some? then Failure(err.value) else Success(st)
  }

  /** `generateSchedule`: run the allocator over a fresh state, then write
      the totals back into the roster. */
  method GenerateSchedule(roster: seq<StaffRecord>) returns (r: Result<Generated, RunError>)
    requires |roster| > 0
    ensures r == Generate(roster)
  {
    var run := new Timetabler(roster);
    var err := run.ScheduleAll(Classes());
    if err.Some? {
      return Failure(err.value);
    }
    r := Success(Generated(WriteBack(roster, run.assignments), run.schedule));
  }
}
