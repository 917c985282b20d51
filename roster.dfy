/** The roster editor (src/App.js:8-49, 94-174): the form for a new
    teacher, the day toggle, and the add/remove operations on the stored
    roster, each as a function from the old editor state to the new one.

    The editor stores each teacher's subjects as entries
    `{subject, classes, streams}`, with the classes and streams kept per
    subject. The allocator (module Allocation) instead reads `classes` and
    `streams` directly off the teacher and treats `subjects` as a list of
    names. Nothing in the source converts one shape into the other, so
    the two are modelled as separate types: `Teacher` here and
    `Allocation.StaffRecord` there. */
module Roster {
  import opened Wrappers
  import opened Sequences
  import opened Grid

  /** One row of the form: a subject name (empty until one is selected),
      the levels it is taught to, and the streams for S5/S6. */
  datatype SubjectEntry = SubjectEntry(subject: string, classes: seq<Level>, streams: seq<Stream>)

  const BlankEntry: SubjectEntry := SubjectEntry("", [], [])

  /** The `newTeacher` form. Its `availableDays` field is always empty and
      is overwritten when a teacher is stored, so it is not carried. */
  datatype Form = Form(name: string, subjects: seq<SubjectEntry>)

  const BlankForm: Form := Form("", [BlankEntry])

  /** A stored roster entry. */
  datatype Teacher = Teacher(name: string, subjects: seq<SubjectEntry>, availableDays: seq<Day>, periodsAssigned: int, id: int)

  /** The editor's state: the stored roster, the form and the toggled days. */
  datatype Editor = Editor(teachers: seq<Teacher>, form: Form, selectedDays: seq<Day>)

  const StartEditor: Editor := Editor([], BlankForm, [])

  // ---------------------------------------------------------------------
  // Subject rows of the form (src/App.js:21-49)
  // ---------------------------------------------------------------------

  /** `addSubject`: one more blank row at the end. */
  function AddSubject(f: Form): (r: Form)
    ensures r.name == f.name && |r.subjects| == |f.subjects| + 1
    ensures r.subjects[..|f.subjects|] == f.subjects && r.subjects[|f.subjects|] == BlankEntry
  {
    f.(subjects := f.subjects + [BlankEntry])
  }

  /** `removeSubject(index)`: `splice(index, 1)` on the rows. */
  function RemoveSubject(f: Form, index: nat): (r: Form)
    ensures r.name == f.name
    ensures index < |f.subjects| ==> |r.subjects| == |f.subjects| - 1
    ensures index < |f.subjects| ==>
      forall j :: 0 <= j < |r.subjects| ==> r.subjects[j] == if j < index then f.subjects[j] else f.subjects[j + 1]
    ensures index >= |f.subjects| ==> r == f
  {
    f.(subjects := RemoveAt(f.subjects, index))
  }

  lemma RemoveAddedSubject(f: Form)
    ensures RemoveSubject(AddSubject(f), |f.subjects|) == f
  {
    assert AddSubject(f).subjects[..|f.subjects|] == f.subjects;
  }

  /** The three fields `handleSubjectChange` is called with, each with its
      new value. */
  datatype Change =
    | SetSubject(subject: string)
    | SetClasses(classes: seq<Level>)
    | SetStreams(streams: seq<Stream>)

  function Apply(e: SubjectEntry, ch: Change): SubjectEntry {
    match ch
    case SetSubject(s) => e.(subject := s)
    case SetClasses(cs) => e.(classes := cs)
    case SetStreams(ss) => e.(streams := ss)
  }

  /** `handleSubjectChange(index, field, value)`: the row at `index` gets
      the new value in that one field; every other row, and every other
      field of that row, is kept. */
  function ChangeSubject(f: Form, index: int, ch: Change): (r: Form)
    ensures r.name == f.name && |r.subjects| == |f.subjects|
    ensures forall i :: 0 <= i < |f.subjects| && i != index ==> r.subjects[i] == f.subjects[i]
    ensures 0 <= index < |f.subjects| ==>
      var e, e' := f.subjects[index], r.subjects[index];
      match ch
      case SetSubject(s) => e'.subject == s && e'.classes == e.classes && e'.streams == e.streams
      case SetClasses(cs) => e'.classes == cs && e'.subject == e.subject && e'.streams == e.streams
      case SetStreams(ss) => e'.streams == ss && e'.subject == e.subject && e'.classes == e.classes
  {
    f.(subjects := seq(|f.subjects|, i requires 0 <= i < |f.subjects| =>
      if i == index then Apply(f.subjects[i], ch) else f.subjects[i]))
  }

  predicate SameField(a: Change, b: Change) {
    (a.SetSubject? && b.SetSubject?) || (a.SetClasses? && b.SetClasses?) || (a.SetStreams? && b.SetStreams?)
  }

  /** A second change of the same field of the same row overrides the
      first. */
  lemma ChangeOverrides(f: Form, index: int, a: Change, b: Change)
    requires SameField(a, b)
    ensures ChangeSubject(ChangeSubject(f, index, a), index, b) == ChangeSubject(f, index, b)
  {
    var l, r := ChangeSubject(ChangeSubject(f, index, a), index, b), ChangeSubject(f, index, b);
    assert l.subjects == r.subjects by {
      forall i | 0 <= i < |f.subjects|
        ensures l.subjects[i] == r.subjects[i]
      {
      }
    }
  }

  /** Changes of two different rows do not interfere. */
  lemma ChangesCommute(f: Form, i: int, j: int, a: Change, b: Change)
    requires i != j
    ensures ChangeSubject(ChangeSubject(f, i, a), j, b) == ChangeSubject(ChangeSubject(f, j, b), i, a)
  {
    var l, r := ChangeSubject(ChangeSubject(f, i, a), j, b), ChangeSubject(ChangeSubject(f, j, b), i, a);
    assert l.subjects == r.subjects by {
      forall k | 0 <= k < |f.subjects|
        ensures l.subjects[k] == r.subjects[k]
      {
      }
    }
  }

  // ---------------------------------------------------------------------
  // Day toggle (src/App.js:94-102)
  // ---------------------------------------------------------------------

  predicate WeekOrdered(s: seq<Day>) {
    forall i, j :: 0 <= i < j < |s| ==> DayIndex(s[i]) <= DayIndex(s[j])
  }

  /** In week order with no day twice: the shape every selection the
      toggle produces from the empty one has. */
  predicate Selection(s: seq<Day>) {
    forall i, j :: 0 <= i < j < |s| ==> DayIndex(s[i]) < DayIndex(s[j])
  }

  /** Places `d` after the leading days that are not later than it. */
  function InsertByWeek(s: seq<Day>, d: Day): (r: seq<Day>)
    ensures |r| == |s| + 1
    ensures forall x :: x in r <==> x in s || x == d
    ensures multiset(r) == multiset(s) + multiset{d}
  {
    if s == [] then [d]
    else if DayIndex(d) < DayIndex(s[0]) then [d] + s
    else
      assert s == [s[0]] + s[1..];
      [s[0]] + InsertByWeek(s[1..], d)
  }

  /** `sort((a, b) => days.indexOf(a) - days.indexOf(b))`. Two days with
      the same index are the same day, so every sort by that key, stable
      or not, gives this result. */
  function SortByWeek(s: seq<Day>): (r: seq<Day>)
    ensures |r| == |s| && multiset(r) == multiset(s)
    ensures forall x :: x in r <==> x in s
    ensures WeekOrdered(r)
  {
    if s == [] then []
    else
      var init := s[..|s| - 1];
      assert s == init + [s[|s| - 1]];
      InsertKeepsOrder(SortByWeek(init), s[|s| - 1]);
      InsertByWeek(SortByWeek(init), s[|s| - 1])
  }

  /** `filter(d => d !== day)`. */
  function Without(s: seq<Day>, day: Day): (r: seq<Day>)
    ensures forall x :: x in r <==> x in s && x != day
  {
    if s == [] then []
    else if s[0] == day then Without(s[1..], day)
    else [s[0]] + Without(s[1..], day)
  }

  /** `handleDayToggle(day)`. */
  function ToggleDay(selected: seq<Day>, day: Day): seq<Day>
  {
    if day in selected then Without(selected, day) else SortByWeek(selected + [day])
  }

  lemma OrderedTail(s: seq<Day>)
    requires s != [] && WeekOrdered(s)
    ensures WeekOrdered(s[1..])
    ensures forall y :: y in s[1..] ==> DayIndex(s[0]) <= DayIndex(y)
  {
    forall y | y in s[1..] ensures DayIndex(s[0]) <= DayIndex(y) {
      var k :| 0 <= k < |s[1..]| && s[1..][k] == y;
      assert s[k + 1] == y;
    }
  }

  lemma SelectionTail(s: seq<Day>)
    requires s != [] && Selection(s)
    ensures Selection(s[1..])
    ensures forall y :: y in s[1..] ==> DayIndex(s[0]) < DayIndex(y)
  {
    forall y | y in s[1..] ensures DayIndex(s[0]) < DayIndex(y) {
      var k :| 0 <= k < |s[1..]| && s[1..][k] == y;
      assert s[k + 1] == y;
    }
  }

  lemma OrderedCons(x: Day, s: seq<Day>)
    requires WeekOrdered(s) && forall y :: y in s ==> DayIndex(x) <= DayIndex(y)
    ensures WeekOrdered([x] + s)
  {
    var r := [x] + s;
    forall i, j | 0 <= i < j < |r| ensures DayIndex(r[i]) <= DayIndex(r[j]) {
      assert r[j] == s[j - 1];
      if i == 0 {
        assert s[j - 1] in s;
      } else {
        assert r[i] == s[i - 1];
      }
    }
  }

  lemma SelectionCons(x: Day, s: seq<Day>)
    requires Selection(s) && forall y :: y in s ==> DayIndex(x) < DayIndex(y)
    ensures Selection([x] + s)
  {
    var r := [x] + s;
    forall i, j | 0 <= i < j < |r| ensures DayIndex(r[i]) < DayIndex(r[j]) {
      assert r[j] == s[j - 1];
      if i == 0 {
        assert s[j - 1] in s;
      } else {
        assert r[i] == s[i - 1];
      }
    }
  }

  lemma {:induction false} InsertKeepsOrder(s: seq<Day>, d: Day)
    requires WeekOrdered(s)
    ensures WeekOrdered(InsertByWeek(s, d))
  {
    if s != [] {
      OrderedTail(s);
      HeadTail(s);
      if DayIndex(d) < DayIndex(s[0]) {
        OrderedCons(d, s);
      } else {
        InsertKeepsOrder(s[1..], d);
        OrderedCons(s[0], InsertByWeek(s[1..], d));
      }
    }
  }

  lemma {:induction false} InsertKeepsSelection(s: seq<Day>, d: Day)
    requires Selection(s) && d !in s
    ensures Selection(InsertByWeek(s, d))
  {
    if s != [] {
      SelectionTail(s);
      HeadTail(s);
      if DayIndex(d) < DayIndex(s[0]) {
        SelectionCons(d, s);
      } else {
        DayIndexInjective(s[0], d);
        InsertKeepsSelection(s[1..], d);
        SelectionCons(s[0], InsertByWeek(s[1..], d));
      }
    }
  }

  /** A day not earlier than any selected day goes to the end. */
  lemma {:induction false} InsertAtEnd(s: seq<Day>, d: Day)
    requires forall k :: 0 <= k < |s| ==> DayIndex(s[k]) <= DayIndex(d)
    ensures InsertByWeek(s, d) == s + [d]
  {
    if s != [] {
      var rest := s[1..];
      assert forall k :: 0 <= k < |rest| ==> rest[k] == s[k + 1];
      InsertAtEnd(rest, d);
      InsertPastHead(s, d);
      HeadThenAppend(s, d);
    }
  }

  lemma InsertPastHead(s: seq<Day>, d: Day)
    requires s != [] && DayIndex(s[0]) <= DayIndex(d)
    ensures InsertByWeek(s, d) == [s[0]] + InsertByWeek(s[1..], d)
  {
  }

  lemma {:induction false} SortOfOrdered(s: seq<Day>)
    requires WeekOrdered(s)
    ensures SortByWeek(s) == s
  {
    if s != [] {
      var init, last := s[..|s| - 1], s[|s| - 1];
      assert init + [last] == s;
      OrderedInit(init, last);
      SortOfOrdered(init);
      InsertAtEnd(init, last);
      SortStep(s);
    }
  }

  lemma OrderedInit(init: seq<Day>, last: Day)
    requires WeekOrdered(init + [last])
    ensures WeekOrdered(init)
    ensures forall k :: 0 <= k < |init| ==> DayIndex(init[k]) <= DayIndex(last)
  {
    var s := init + [last];
    assert forall k :: 0 <= k < |init| ==> s[k] == init[k];
    assert s[|init|] == last;
  }

  lemma SortStep(s: seq<Day>)
    requires s != []
    ensures SortByWeek(s) == InsertByWeek(SortByWeek(s[..|s| - 1]), s[|s| - 1])
  {
  }

  lemma {:induction false} WithoutAbsent(s: seq<Day>, d: Day)
    requires d !in s
    ensures Without(s, d) == s
  {
    if s != [] {
      WithoutAbsent(s[1..], d);
      assert s == [s[0]] + s[1..];
    }
  }

  lemma {:induction false} WithoutKeepsSelection(s: seq<Day>, day: Day)
    requires Selection(s)
    ensures Selection(Without(s, day))
  {
    if s != [] {
      SelectionTail(s);
      WithoutKeepsSelection(s[1..], day);
      if s[0] != day {
        SelectionCons(s[0], Without(s[1..], day));
      }
    }
  }

  /** On an ordered selection without the day, the toggle is a single
      insertion. */
  lemma ToggleByInsert(selected: seq<Day>, day: Day)
    requires WeekOrdered(selected) && day !in selected
    ensures ToggleDay(selected, day) == InsertByWeek(selected, day)
  {
    var s := selected + [day];
    assert s[..|s| - 1] == selected && s[|s| - 1] == day;
    SortOfOrdered(selected);
  }

  lemma InsertCons(x: Day, s: seq<Day>, d: Day)
    requires DayIndex(x) <= DayIndex(d)
    ensures InsertByWeek([x] + s, d) == [x] + InsertByWeek(s, d)
  {
    var t := [x] + s;
    assert t[0] == x && t[1..] == s;
  }

  lemma InsertBeforeHead(s: seq<Day>, d: Day)
    requires s == [] || DayIndex(d) < DayIndex(s[0])
    ensures InsertByWeek(s, d) == [d] + s
  {
  }

  lemma WithoutCons(x: Day, s: seq<Day>, d: Day)
    ensures Without([x] + s, d) == if x == d then Without(s, d) else [x] + Without(s, d)
  {
    var t := [x] + s;
    assert t[0] == x && t[1..] == s;
  }

  lemma {:induction false} InsertThenRemove(s: seq<Day>, d: Day)
    requires d !in s
    ensures Without(InsertByWeek(s, d), d) == s
  {
    if s == [] {
      WithoutCons(d, [], d);
    } else {
      var x, rest := s[0], s[1..];
      HeadTail(s);
      if DayIndex(d) < DayIndex(x) {
        WithoutCons(d, s, d);
        WithoutAbsent(s, d);
      } else {
        InsertPastHead(s, d);
        InsertThenRemove(rest, d);
        WithoutCons(x, InsertByWeek(rest, d), d);
      }
    }
  }

  lemma {:induction false} RemoveThenInsert(s: seq<Day>, d: Day)
    requires Selection(s) && d in s
    ensures InsertByWeek(Without(s, d), d) == s
  {
    var x, rest := s[0], s[1..];
    SelectionTail(s);
    HeadTail(s);
    WithoutCons(x, rest, d);
    if x == d {
      WithoutAbsent(rest, d);
      if rest != [] {
        assert rest[0] in rest;
      }
      InsertBeforeHead(rest, d);
    } else {
      RemoveThenInsert(rest, d);
      InsertCons(x, Without(rest, d), d);
    }
  }

  /** Toggling adds a day that is not selected and removes one that is. */
  lemma ToggleMembership(selected: seq<Day>, day: Day)
    ensures forall x :: x in ToggleDay(selected, day) <==> (x in selected) != (x == day)
  {
  }

  /** Toggling keeps a selection in week order without repeats. */
  lemma ToggleKeepsSelection(selected: seq<Day>, day: Day)
    requires Selection(selected)
    ensures Selection(ToggleDay(selected, day))
  {
    if day in selected {
      WithoutKeepsSelection(selected, day);
    } else {
      ToggleByInsert(selected, day);
      InsertKeepsSelection(selected, day);
    }
  }

  /** Toggling the same day twice restores the selection. */
  lemma ToggleTwice(selected: seq<Day>, day: Day)
    requires Selection(selected)
    ensures ToggleDay(ToggleDay(selected, day), day) == selected
  {
    if day in selected {
      var w := Without(selected, day);
      WithoutKeepsSelection(selected, day);
      ToggleByInsert(w, day);
      RemoveThenInsert(selected, day);
    } else {
      ToggleByInsert(selected, day);
      InsertThenRemove(selected, day);
    }
  }

  // ---------------------------------------------------------------------
  // Adding and removing teachers (src/App.js:104-174)
  // ---------------------------------------------------------------------

  /** Why `addTeacher` refuses the form: the four alerts, in the order
      they are checked. */
  datatype Rejection = MissingName | MissingSubject | NoDaySelected | MissingStream

  /** An S5/S6 row with no stream selected. */
  predicate NeedsStream(e: SubjectEntry) {
    (exists c :: c in e.classes && IsUpper(c)) && |e.streams| == 0
  }

  function Check(f: Form, selected: seq<Day>): Option<Rejection> {
    if f.name == "" then Some(MissingName)
    else if exists e :: e in f.subjects && e.subject == "" then Some(MissingSubject)
    else if selected == [] then Some(NoDaySelected)
    else if exists e :: e in f.subjects && NeedsStream(e) then Some(MissingStream)
    else None
  }

  /** A stored row extended by the first form row with the same subject
      name, if there is one. */
  function MergedEntry(existing: SubjectEntry, incoming: seq<SubjectEntry>): SubjectEntry {
    var j := FirstIndex(incoming, (n: SubjectEntry) => n.subject == existing.subject);
    if j < 0 then existing
    else existing.(classes := existing.classes + incoming[j].classes, streams := existing.streams + incoming[j].streams)
  }

  predicate Names(entries: seq<SubjectEntry>, name: string) {
    exists e :: e in entries && e.subject == name
  }

  /** Row j is the first row naming `name`. */
  predicate FirstNamed(entries: seq<SubjectEntry>, j: nat, name: string)
    requires j < |entries|
  {
    entries[j].subject == name && forall q :: 0 <= q < j ==> entries[q].subject != name
  }

  /** The form rows whose subject the stored teacher does not have yet. */
  function NewEntries(stored: seq<SubjectEntry>, incoming: seq<SubjectEntry>): (r: seq<SubjectEntry>)
    ensures forall e :: e in r <==> e in incoming && !Names(stored, e.subject)
  {
    if incoming == [] then []
    else if Names(stored, incoming[0].subject) then NewEntries(stored, incoming[1..])
    else [incoming[0]] + NewEntries(stored, incoming[1..])
  }

  /** `incoming.filter(...)` keeps the form's order: filtering a
      concatenation is the concatenation of the filtered parts, ... */
  lemma {:induction false} NewEntriesAppend(stored: seq<SubjectEntry>, a: seq<SubjectEntry>, b: seq<SubjectEntry>)
    ensures NewEntries(stored, a + b) == NewEntries(stored, a) + NewEntries(stored, b)
  {
    if a == [] {
      assert a + b == b;
    } else {
      var keep := NewEntries(stored, [a[0]]);
      calc {
        NewEntries(stored, a + b);
        { HeadTail(a + b); assert (a + b)[0] == a[0] && (a + b)[1..] == a[1..] + b; NewEntriesHead(stored, a + b); }
        keep + NewEntries(stored, a[1..] + b);
        { NewEntriesAppend(stored, a[1..], b); }
        keep + (NewEntries(stored, a[1..]) + NewEntries(stored, b));
        { Assoc(keep, NewEntries(stored, a[1..]), NewEntries(stored, b)); }
        (keep + NewEntries(stored, a[1..])) + NewEntries(stored, b);
        { NewEntriesHead(stored, a); }
        NewEntries(stored, a) + NewEntries(stored, b);
      }
    }
  }

  lemma NewEntriesHead(stored: seq<SubjectEntry>, s: seq<SubjectEntry>)
    requires s != []
    ensures NewEntries(stored, s) == NewEntries(stored, [s[0]]) + NewEntries(stored, s[1..])
  {
    NewEntriesSingle(stored, s[0]);
  }

  /** ... and a single row is kept exactly when the stored teacher has no
      row with its subject. */
  lemma NewEntriesSingle(stored: seq<SubjectEntry>, e: SubjectEntry)
    ensures NewEntries(stored, [e]) == if Names(stored, e.subject) then [] else [e]
  {
    assert [e][1..] == [];
  }

  /** The merge applied to a stored teacher with the form's name. */
  function Merge(t: Teacher, f: Form, selected: seq<Day>): Teacher {
    t.(subjects := seq(|t.subjects|, i requires 0 <= i < |t.subjects| => MergedEntry(t.subjects[i], f.subjects))
                   + NewEntries(t.subjects, f.subjects),
       availableDays := Dedupe(t.availableDays + selected))
  }

  predicate OnRoster(teachers: seq<Teacher>, name: string) {
    exists t :: t in teachers && t.name == name
  }

  /** `addTeacher`, with the id a new teacher receives as a parameter.
      After a change the form and the day selection are reset. */
  function Admit(ed: Editor, newId: int): Result<Editor, Rejection> {
    match Check(ed.form, ed.selectedDays)
    case Some(why) => Failure(why)
    case None =>
      var f := ed.form;
      var teachers :=
        if OnRoster(ed.teachers, f.name) then
          seq(|ed.teachers|, i requires 0 <= i < |ed.teachers| =>
            if ed.teachers[i].name == f.name then Merge(ed.teachers[i], f, ed.selectedDays) else ed.teachers[i])
        else
          ed.teachers + [Teacher(f.name, f.subjects, ed.selectedDays, 0, newId)];
      Success(Editor(teachers, BlankForm, []))
  }

  /** `addTeacher` as written: a new name gets `id = teachers.length + 1`. */
  function AddTeacher(ed: Editor): (r: Result<Editor, Rejection>)
    ensures r.Success? && !OnRoster(ed.teachers, ed.form.name) ==>
      |r.value.teachers| == |ed.teachers| + 1 && r.value.teachers[|ed.teachers|].id == |ed.teachers| + 1
  {
    Admit(ed, |ed.teachers| + 1)
  }

  /** `removeTeacher(index)`: the entry at `index` goes, the rest keep
      their order. */
  function RemoveTeacher(teachers: seq<Teacher>, index: nat): (r: seq<Teacher>)
    ensures index < |teachers| ==> |r| == |teachers| - 1
    ensures index < |teachers| ==>
      forall j :: 0 <= j < |r| ==> r[j] == if j < index then teachers[j] else teachers[j + 1]
    ensures index >= |teachers| ==> r == teachers
  {
    RemoveAt(teachers, index)
  }

  /** The form is refused exactly when one of the four alerts applies,
      and the first alert that applies is the one reported. */
  lemma AdmitRejects(ed: Editor, newId: int)
    ensures var r := Admit(ed, newId); var f := ed.form;
      && (r.Failure? <==>
           f.name == "" || Names(f.subjects, "") || ed.selectedDays == [] ||
           exists e :: e in f.subjects && NeedsStream(e))
      && (r.Failure? && f.name == "" ==> r.error == MissingName)
      && (r.Failure? && f.name != "" && Names(f.subjects, "") ==> r.error == MissingSubject)
      && (r.Failure? && r.error == MissingStream ==> ed.selectedDays != [] && !Names(f.subjects, ""))
      && (r.Failure? && f.name != "" && !Names(f.subjects, "") && ed.selectedDays == [] ==> r.error == NoDaySelected)
      && (r.Failure? && f.name != "" && !Names(f.subjects, "") && ed.selectedDays != [] ==> r.error == MissingStream)
  {
  }

  /** A new name is appended as one entry with the form's rows, the
      selected days, no periods and the given id; nothing else changes. */
  lemma AdmitNewName(ed: Editor, newId: int)
    requires Check(ed.form, ed.selectedDays).None? && !OnRoster(ed.teachers, ed.form.name)
    ensures var r := Admit(ed, newId);
      && r.Success?
      && r.value.teachers == ed.teachers + [Teacher(ed.form.name, ed.form.subjects, ed.selectedDays, 0, newId)]
      && r.value.form == BlankForm && r.value.selectedDays == []
  {
  }

  /** Removing the entry just appended gives the roster back. */
  lemma RemoveAdmitted(ed: Editor, newId: int)
    requires Check(ed.form, ed.selectedDays).None? && !OnRoster(ed.teachers, ed.form.name)
    ensures RemoveTeacher(Admit(ed, newId).value.teachers, |ed.teachers|) == ed.teachers
  {
    AdmitNewName(ed, newId);
    var ts := Admit(ed, newId).value.teachers;
    assert ts[..|ed.teachers|] == ed.teachers;
  }

  /** For a name already on the roster, every entry with that name is
      merged in place and every other entry is kept; ids, names and
      period totals never change. */
  lemma AdmitExistingName(ed: Editor, newId: int)
    requires Check(ed.form, ed.selectedDays).None? && OnRoster(ed.teachers, ed.form.name)
    ensures var r := Admit(ed, newId);
      && r.Success? && |r.value.teachers| == |ed.teachers|
      && r.value.form == BlankForm && r.value.selectedDays == []
      && forall i :: 0 <= i < |ed.teachers| ==>
        var t, t' := ed.teachers[i], r.value.teachers[i];
        && (t.name != ed.form.name ==> t' == t)
        && (t.name == ed.form.name ==> t' == Merge(t, ed.form, ed.selectedDays))
        && t'.name == t.name && t'.id == t.id && t'.periodsAssigned == t.periodsAssigned
  {
  }

  /** The merge: each stored row keeps its subject and gets the classes
      and streams of the first form row with that subject appended; the
      form rows with a subject the teacher lacks follow; the days are the
      union of both, the stored days first and in their own order. */
  lemma MergeEffect(t: Teacher, f: Form, selected: seq<Day>)
    ensures var m := Merge(t, f, selected);
      && |m.subjects| >= |t.subjects|
      && (forall k :: 0 <= k < |t.subjects| ==>
            var e, e' := t.subjects[k], m.subjects[k];
            && e'.subject == e.subject
            && (!Names(f.subjects, e.subject) ==> e' == e)
            && (Names(f.subjects, e.subject) ==>
                  exists j :: 0 <= j < |f.subjects| && FirstNamed(f.subjects, j, e.subject) &&
                    e'.classes == e.classes + f.subjects[j].classes && e'.streams == e.streams + f.subjects[j].streams))
      && (forall e :: e in m.subjects[|t.subjects|..] <==> e in f.subjects && !Names(t.subjects, e.subject))
      && (forall d :: d in m.availableDays <==> d in t.availableDays || d in selected)
      && NoDuplicates(m.availableDays)
      && (NoDuplicates(t.availableDays) ==>
            |m.availableDays| >= |t.availableDays| && m.availableDays[..|t.availableDays|] == t.availableDays)
  {
    var m := Merge(t, f, selected);
    forall k | 0 <= k < |t.subjects|
      ensures Names(f.subjects, t.subjects[k].subject) ==>
        exists j :: 0 <= j < |f.subjects| && FirstNamed(f.subjects, j, t.subjects[k].subject) &&
          m.subjects[k].classes == t.subjects[k].classes + f.subjects[j].classes &&
          m.subjects[k].streams == t.subjects[k].streams + f.subjects[j].streams
    {
      var e := t.subjects[k];
      var j := FirstIndex(f.subjects, (n: SubjectEntry) => n.subject == e.subject);
      if Names(f.subjects, e.subject) {
        var n :| n in f.subjects && n.subject == e.subject;
        var q :| 0 <= q < |f.subjects| && f.subjects[q] == n;
        assert j >= 0;
        assert FirstNamed(f.subjects, j, e.subject);
      }
    }
    DedupeMembers(t.availableDays + selected);
    if NoDuplicates(t.availableDays) {
      DedupeKeepsPrefix(t.availableDays, selected);
    }
  }

  // ---------------------------------------------------------------------
  // Ids
  // ---------------------------------------------------------------------

  predicate IdsDistinct(teachers: seq<Teacher>) {
    forall i, j :: 0 <= i < j < |teachers| ==> teachers[i].id != teachers[j].id
  }

  /** Removing a teacher and then adding one under a new name hands out
      an id that is still in use: two stored teachers, ids 1 and 2; the
      first is removed; the newcomer receives `length + 1 = 2`. */
  lemma IdCollisionAfterRemoval()
    ensures var row := SubjectEntry("ICT", [S1], []);
      var ed := Editor([Teacher("Amina", [row], [Monday], 0, 1), Teacher("Brian", [row], [Monday], 0, 2)],
                       Form("Cato", [row]), [Monday]);
      var ed' := ed.(teachers := RemoveTeacher(ed.teachers, 0));
      && IdsDistinct(ed.teachers)
      && AddTeacher(ed').Success?
      && !IdsDistinct(AddTeacher(ed').value.teachers)
  {
    var row := SubjectEntry("ICT", [S1], []);
    var a, b := Teacher("Amina", [row], [Monday], 0, 1), Teacher("Brian", [row], [Monday], 0, 2);
    var f := Form("Cato", [row]);
    var ed' := Editor(RemoveTeacher([a, b], 0), f, [Monday]);
    assert ed'.teachers == [b];
    assert "Cato" != "Brian" by {
      assert "Cato"[0] != "Brian"[0];
    }
    assert !OnRoster(ed'.teachers, "Cato");
    assert Check(f, [Monday]).None? by {
      assert "Cato" != "" by {
        assert |"Cato"| == 4;
      }
      assert "ICT" != "" by {
        assert |"ICT"| == 3;
      }
      assert !NeedsStream(row);
    }
    AdmitNewName(ed', 2);
    var ts := AddTeacher(ed').value.teachers;
    assert ts[0].id == 2 && ts[1].id == 2;
  }

  /** One more than the largest id on the roster (1 for an empty one). */
  function NextId(teachers: seq<Teacher>): (r: int)
    ensures forall t :: t in teachers ==> t.id < r
  {
    if teachers == [] then 1
    else
      var rest := NextId(teachers[1..]);
      assert forall t :: t in teachers[1..] ==> t.id < rest;
      if teachers[0].id < rest then rest else teachers[0].id + 1
  }

  /** `addTeacher` with ids that stay unique: a new name receives
      `NextId` instead of `length + 1`. */
  function AddTeacherFreshId(ed: Editor): (r: Result<Editor, Rejection>)
    ensures r.Success? && IdsDistinct(ed.teachers) ==> IdsDistinct(r.value.teachers)
  {
    FreshIdKeepsIdsDistinct(ed);
    Admit(ed, NextId(ed.teachers))
  }

  lemma FreshIdKeepsIdsDistinct(ed: Editor)
    ensures var r := Admit(ed, NextId(ed.teachers));
      r.Success? && IdsDistinct(ed.teachers) ==> IdsDistinct(r.value.teachers)
  {
    var id := NextId(ed.teachers);
    var r := Admit(ed, id);
    if r.Success? && IdsDistinct(ed.teachers) {
      if OnRoster(ed.teachers, ed.form.name) {
        AdmitExistingName(ed, id);
        SameIdsKeepDistinct(ed.teachers, r.value.teachers);
      } else {
        AdmitNewName(ed, id);
        AppendFreshId(ed.teachers, Teacher(ed.form.name, ed.form.subjects, ed.selectedDays, 0, id));
      }
    }
  }

  lemma SameIdsKeepDistinct(ts: seq<Teacher>, us: seq<Teacher>)
    requires IdsDistinct(ts) && |us| == |ts|
    requires forall i :: 0 <= i < |ts| ==> us[i].id == ts[i].id
    ensures IdsDistinct(us)
  {
  }

  lemma AppendFreshId(ts: seq<Teacher>, t: Teacher)
    requires IdsDistinct(ts) && forall u :: u in ts ==> u.id < t.id
    ensures IdsDistinct(ts + [t])
  {
    var r := ts + [t];
    forall i, j | 0 <= i < j < |r| ensures r[i].id != r[j].id {
      assert r[i] == ts[i] && ts[i] in ts;
      if j < |ts| {
        assert r[j] == ts[j];
      }
    }
  }

  lemma RemoveKeepsIdsDistinct(teachers: seq<Teacher>, index: nat)
    requires IdsDistinct(teachers)
    ensures IdsDistinct(RemoveTeacher(teachers, index))
  {
    var r := RemoveTeacher(teachers, index);
    if index < |teachers| {
      forall i, j | 0 <= i < j < |r| ensures r[i].id != r[j].id {
        var i' := if i < index then i else i + 1;
        var j' := if j < index then j else j + 1;
        assert r[i] == teachers[i'] && r[j] == teachers[j'];
      }
    }
  }

  /** Every roster the editor reaches from the empty one with the fresh-id
      add and with removals has unique ids, the requirement the allocator
      places on its input. */
  datatype Edit = Add(form: Form, days: seq<Day>) | Remove(index: nat)

  function Replay(teachers: seq<Teacher>, edits: seq<Edit>): (r: seq<Teacher>)
    decreases |edits|
  {
    if edits == [] then teachers
    else
      var next :=
        match edits[0]
        case Add(f, days) =>
          (match AddTeacherFreshId(Editor(teachers, f, days))
           case Success(ed) => ed.teachers
           case Failure(_) => teachers)
        case Remove(i) => RemoveTeacher(teachers, i);
      Replay(next, edits[1..])
  }

  lemma {:induction false} ReplayKeepsIdsDistinct(teachers: seq<Teacher>, edits: seq<Edit>)
    requires IdsDistinct(teachers)
    ensures IdsDistinct(Replay(teachers, edits))
    decreases |edits|
  {
    if edits != [] {
      match edits[0]
      case Add(f, days) =>
        var r := AddTeacherFreshId(Editor(teachers, f, days));
        var next := if r.Success? then r.value.teachers else teachers;
        ReplayKeepsIdsDistinct(next, edits[1..]);
      case Remove(i) =>
        RemoveKeepsIdsDistinct(teachers, i);
        ReplayKeepsIdsDistinct(RemoveTeacher(teachers, i), edits[1..]);
    }
  }
  /** From the initial state (no teachers, lines 8-13 and 53) every
      sequence of adds and removals leaves the ids distinct. */
  lemma IdsDistinctFromStart(edits: seq<Edit>)
    ensures IdsDistinct(Replay(StartEditor.teachers, edits))
  {
    ReplayKeepsIdsDistinct(StartEditor.teachers, edits);
  }

}
