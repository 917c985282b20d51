/** The fixed coordinate space of a timetable: the school week, the six
    daily periods and the sixteen classes (src/App.js:73-92). */
module Grid {

  datatype Day = Monday | Tuesday | Wednesday | Thursday | Friday | Saturday

  /** The week in display order. */
  const Days: seq<Day> := [Monday, Tuesday, Wednesday, Thursday, Friday, Saturday]

  /** `days.indexOf(d)`: the position of a day in the week. */
  function DayIndex(d: Day): (i: nat)
    ensures i < 6
  {
    match d
    case Monday => 0
    case Tuesday => 1
    case Wednesday => 2
    case Thursday => 3
    case Friday => 4
    case Saturday => 5
  }

  lemma DayPosition(d: Day)
    ensures DayIndex(d) < |Days| && Days[DayIndex(d)] == d
  {
  }

  /** Different days have different positions. */
  lemma DayIndexInjective(a: Day, b: Day)
    ensures DayIndex(a) == DayIndex(b) <==> a == b
  {
  }

  /** A teaching period: its number (1..6) and its display time, which
      the allocator only copies into cells. */
  datatype Period = Period(id: nat, time: string)

  /** The six daily periods. `getTimePeriodsForClass` hands this same list
      to every class. */
  const RegularTimePeriods: seq<Period> := [
    Period(1, "7:20 AM - 8:40 AM"),
    Period(2, "8:40 AM - 10:00 AM"),
    Period(3, "10:20 AM - 11:40 AM"),
    Period(4, "11:40 AM - 1:00 PM"),
    Period(5, "2:00 PM - 3:20 PM"),
    Period(6, "3:20 PM - 4:40 PM")
  ]

  lemma PeriodNumbering()
    ensures |RegularTimePeriods| == 6
    ensures forall k :: 0 <= k < 6 ==> RegularTimePeriods[k].id == k + 1
  {}

  /** The six levels and three stream letters that class names are made
      of. The source keeps levels and streams as strings ("S5", "A"); a
      string outside these lists can never equal a class's level or stream,
      so a staff list holding one behaves as if it did not. */
  datatype Level = S1 | S2 | S3 | S4 | S5 | S6
  datatype Stream = A | B | C

  /** A class such as "S5A". The source keeps the name as one string and
      recovers `classLevel` and `stream` with `substring(0, 2)` and
      `substring(2)`; every enumerated level has two characters, so the
      pair below carries exactly the same information. */
  datatype ClassName = ClassName(level: Level, stream: Stream)

  /** S5 and S6 are the levels whose staff must match the stream too. */
  predicate IsUpper(level: Level) {
    level == S5 || level == S6
  }

  /** `otherClassName`: stream A pairs with B, and every other stream
      (B, and also C) pairs with A — the expression has no level guard. */
  function Sibling(c: ClassName): (s: ClassName)
    ensures s.level == c.level && s != c
    ensures s.stream == A <==> c.stream != A
    ensures c.stream == A ==> s.stream == B
  {
    ClassName(c.level, if c.stream == A then B else A)
  }

  /** `levels.flatMap(level => streams.map(stream => level + stream))`. */
  function FlatMapLevels(levels: seq<Level>, streams: seq<Stream>): (cs: seq<ClassName>)
    ensures |cs| == |levels| * |streams|
  {
    if levels == [] then []
    else
      var row := seq(|streams|, k requires 0 <= k < |streams| => ClassName(levels[0], streams[k]));
      row + FlatMapLevels(levels[1..], streams)
  }

  /** The enumeration order of the allocator's outer loop. */
  function Classes(): seq<ClassName>
  {
    FlatMapLevels([S1, S2], [A, B, C])
    + FlatMapLevels([S3, S4], [A, B, C])
    + FlatMapLevels([S5, S6], [A, B])
  }

  /** The sixteen classes, in order. */
  lemma ClassesEnumeration()
    ensures Classes() == [
      ClassName(S1, A), ClassName(S1, B), ClassName(S1, C),
      ClassName(S2, A), ClassName(S2, B), ClassName(S2, C),
      ClassName(S3, A), ClassName(S3, B), ClassName(S3, C),
      ClassName(S4, A), ClassName(S4, B), ClassName(S4, C),
      ClassName(S5, A), ClassName(S5, B),
      ClassName(S6, A), ClassName(S6, B)]
  {
    assert FlatMapLevels([S1, S2], [A, B, C])
        == [ClassName(S1, A), ClassName(S1, B), ClassName(S1, C),
            ClassName(S2, A), ClassName(S2, B), ClassName(S2, C)] by {
      assert [S1, S2][1..] == [S2];
      assert [S2][1..] == [];
    }
    assert FlatMapLevels([S3, S4], [A, B, C])
        == [ClassName(S3, A), ClassName(S3, B), ClassName(S3, C),
            ClassName(S4, A), ClassName(S4, B), ClassName(S4, C)] by {
      assert [S3, S4][1..] == [S4];
      assert [S4][1..] == [];
    }
    assert FlatMapLevels([S5, S6], [A, B])
        == [ClassName(S5, A), ClassName(S5, B),
            ClassName(S6, A), ClassName(S6, B)] by {
      assert [S5, S6][1..] == [S6];
      assert [S6][1..] == [];
    }
  }

  /** The position of a class in `Classes()` (meaningful for the sixteen
      enumerated classes only). */
  function Position(c: ClassName): nat
  {
    var row := match c.level
      case S1 => 0 case S2 => 3 case S3 => 6 case S4 => 9 case S5 => 12 case S6 => 14;
    row + match c.stream case A => 0 case B => 1 case C => 2
  }

  /** The classes the enumeration produces: every level with streams A
      and B, and stream C below S5. */
  predicate Enumerated(c: ClassName) {
    !IsUpper(c.level) || c.stream != C
  }

  lemma PositionOfClasses(i: nat)
    requires i < |Classes()|
    ensures Position(Classes()[i]) == i && Enumerated(Classes()[i])
  {
    ClassesEnumeration();
    if i < 8 {
      if i < 4 {
        if i < 2 { if i == 0 {} else {} } else { if i == 2 {} else {} }
      } else {
        if i < 6 { if i == 4 {} else {} } else { if i == 6 {} else {} }
      }
    } else {
      if i < 12 {
        if i < 10 { if i == 8 {} else {} } else { if i == 10 {} else {} }
      } else {
        if i < 14 { if i == 12 {} else {} } else { if i == 14 {} else {} }
      }
    }
  }

  lemma AtPosition(c: ClassName)
    requires Enumerated(c)
    ensures Position(c) < |Classes()| && Classes()[Position(c)] == c
  {
    ClassesEnumeration();
    match c.level
    case S1 => {} case S2 => {} case S3 => {} case S4 => {} case S5 => {} case S6 => {}
  }

  lemma ClassesDistinct()
    ensures |Classes()| == 16
    ensures forall i, j :: 0 <= i < j < |Classes()| ==> Classes()[i] != Classes()[j]
  {
    ClassesEnumeration();
    forall i, j | 0 <= i < j < |Classes()|
      ensures Classes()[i] != Classes()[j]
    {
      PositionOfClasses(i);
      PositionOfClasses(j);
    }
  }

  /** Every class's partner class also takes part in the run; it comes
      LATER in the enumeration exactly when the class is an A stream. So a
      mirror out of an A-stream class targets a class the run has not
      reached yet, and one out of any other stream targets a finished one. */
  lemma SiblingPlacement(i: nat)
    requires i < |Classes()|
    ensures Sibling(Classes()[i]) in Classes()
    ensures Sibling(Classes()[i]) in Classes()[..i] <==> Classes()[i].stream != A
  {
    var cs := Classes();
    var sib := Sibling(cs[i]);
    PositionOfClasses(i);
    AtPosition(sib);
    var j := Position(sib);
    assert j < i <==> cs[i].stream != A;
    if j < i {
      assert cs[..i][j] == sib;
    }
    if sib in cs[..i] {
      var k :| 0 <= k < i && cs[..i][k] == sib;
      PositionOfClasses(k);
    }
  }
}
