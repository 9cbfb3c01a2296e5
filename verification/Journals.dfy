/**
 The journals of a course, the lesson dates they hold, and the rows a synchronous copy
 of a course creates: `generate_journals`, `LessonDateCalculator`, `EnrollmentLessonPlan`,
 `CourseCopyPlan`, `create_course` and `copy_course`.
 */
module Journals {
  import opened Arithmetic
  import opened Wrappers
  import opened Calendar
  import Schedule

  datatype ExamType = Weekly | Monthly

  /** A journal holds the days of one period, both ends included. */
  datatype Journal = Journal(start: int, end: int)

  // ---------------------------------------------------------------------------
  // The periods of a course
  // ---------------------------------------------------------------------------

  function JournalCount(start: Date, end: Date, exam: ExamType): int {
    match exam
    case Weekly => (DayNumber(end) - DayNumber(start) + 1 + 6) / 7
    case Monthly => end.month - start.month + 1
  }

  function WeekJournal(from: int, to: int, i: nat): Journal {
    Journal(from + 7 * i, Min(to, from + 7 * i + 6))
  }

  function MonthJournal(from: int, to: int, month: nat): Journal {
    Journal(Max(from, MonthStart(month)), Min(to, MonthStart(month) + MonthDays(month) - 1))
  }

  function JournalsOf(start: Date, end: Date, exam: ExamType): seq<Journal> {
    var from, to := DayNumber(start), DayNumber(end);
    seq(Max(0, JournalCount(start, end, exam)), i requires 0 <= i =>
      if exam == Weekly then WeekJournal(from, to, i) else MonthJournal(from, to, start.month + i))
  }

  predicate CourseDates(start: Date, end: Date) {
    ValidDate(start) && ValidDate(end) && DayNumber(start) <= DayNumber(end)
  }

  lemma MonthsAreOrdered(start: Date, end: Date)
    requires CourseDates(start, end)
    ensures start.month <= end.month
    ensures MonthStart(start.month) <= DayNumber(start) && DayNumber(end) < MonthStart(end.month) + MonthDays(end.month)
  {
    hide MonthStart, MonthDays;
    if end.month < start.month { DayOrder(end, start); }
  }

  /** `generate_journals`: the weekly loop walks seven days at a time, the monthly loop
      calendar month by calendar month. */
  method GenerateJournals(start: Date, end: Date, exam: ExamType) returns (journals: seq<Journal>)
    requires CourseDates(start, end)
    ensures journals == JournalsOf(start, end, exam)
  {
    hide MonthStart, MonthDays, DayNumber;
    journals := [];
    MonthsAreOrdered(start, end);
    var from, to := DayNumber(start), DayNumber(end);
    if exam == Weekly {
      var current := from;
      while current <= to
        invariant current <= to ==> current == from + 7 * |journals|
        invariant to < current ==> 7 * (|journals| - 1) < to + 1 - from <= 7 * |journals|
        invariant forall i :: 0 <= i < |journals| ==> journals[i] == WeekJournal(from, to, i)
        decreases 1 + to - current
      {
        var last := Min(to, current + 6);
        journals := journals + [Journal(current, last)];
        current := last + 1;
      }
    } else {
      var year, month := start.month / 12, start.month % 12 + 1;
      var more := true;
      while more
        invariant 1 <= month <= 12
        invariant more ==> 12 * year + month - 1 == start.month + |journals| <= end.month
        invariant !more ==> start.month + |journals| == end.month + 1
        invariant forall i :: 0 <= i < |journals| ==> journals[i] == MonthJournal(from, to, start.month + i)
        decreases more, end.month - start.month - |journals|
      {
        var number: nat := 12 * year + month - 1;
        var periodEnd := Min(to, MonthStart(number) + MonthDays(number) - 1);
        journals := journals + [Journal(Max(from, MonthStart(number)), periodEnd)];
        LastMonth(end, number);
        if periodEnd >= to {
          more := false;
        } else if month == 12 {
          year, month := year + 1, 1;
        } else {
          month := month + 1;
        }
      }
    }
  }

  /** The month that reaches the end of the course is the month of its last day. */
  lemma {:induction false} LastMonth(end: Date, month: nat)
    requires ValidDate(end) && month <= end.month
    ensures MonthStart(month) + MonthDays(month) - 1 >= DayNumber(end) ==> month == end.month
    ensures month == end.month ==> MonthStart(month) + MonthDays(month) - 1 >= DayNumber(end)
  {
    hide MonthDays;
    if month < end.month { MonthStartIncreases(month, end.month); }
  }

  // ---------------------------------------------------------------------------
  // A partition of the days
  // ---------------------------------------------------------------------------

  /** The journals follow each other without gap or overlap from `from` to `to`. */
  ghost predicate Tile(journals: seq<Journal>, from: int, to: int) {
    if journals == [] then from == to + 1
    else
      var last := journals[|journals| - 1];
      last.start <= last.end && last.end == to && Tile(journals[..|journals| - 1], from, last.start - 1)
  }

  lemma {:induction false} TileForward(journals: seq<Journal>, from: int, to: int)
    requires Tile(journals, from, to)
    ensures from <= to + 1
  {
    if journals != [] { TileForward(journals[..|journals| - 1], from, journals[|journals| - 1].start - 1); }
  }

  lemma {:induction false} WeeksTile(from: int, to: int, k: nat)
    requires from <= to && k <= (to - from + 1 + 6) / 7
    ensures Tile(seq(k, i requires 0 <= i => WeekJournal(from, to, i)), from, Min(to, from + 7 * k - 1))
  {
    if 0 < k {
      WeeksTile(from, to, k - 1);
      var all := seq(k, i requires 0 <= i => WeekJournal(from, to, i));
      assert all[..k - 1] == seq(k - 1, i requires 0 <= i => WeekJournal(from, to, i));
    }
  }

  /** The days of the course up to the end of month `month`. */
  function UpToMonth(start: Date, end: Date, month: nat): int {
    Min(DayNumber(end), MonthStart(month) + MonthDays(month) - 1)
  }

  function MonthJournals(start: Date, end: Date, k: nat): seq<Journal> {
    seq(k, i requires 0 <= i => MonthJournal(DayNumber(start), DayNumber(end), start.month + i))
  }

  /** A month of the course, from its first day of the course to its last. */
  lemma MonthJournalFits(start: Date, end: Date, month: nat)
    requires CourseDates(start, end) && start.month <= month <= end.month
    ensures var j := MonthJournal(DayNumber(start), DayNumber(end), month);
      && j.start <= j.end && j.end == UpToMonth(start, end, month)
      && j.start == (if month == start.month then DayNumber(start) else UpToMonth(start, end, month - 1) + 1)
  {
    hide MonthDays;
    MonthsAreOrdered(start, end);
    if start.month < month { MonthStartIncreases(start.month, month); }
    if month < end.month { MonthStartIncreases(month, end.month); }
    if start.month < month {
      LastMonth(end, month - 1);
      assert MonthStart(month) == MonthStart(month - 1) + MonthDays(month - 1);
    }
    LastMonth(end, month);
  }

  lemma {:induction false} MonthsTile(start: Date, end: Date, k: nat)
    requires CourseDates(start, end) && 0 < k <= end.month - start.month + 1
    ensures Tile(MonthJournals(start, end, k), DayNumber(start), UpToMonth(start, end, start.month + k - 1))
  {
    hide DayNumber, UpToMonth, MonthJournal, CourseDates;
    MonthJournalFits(start, end, start.month + k - 1);
    var all := MonthJournals(start, end, k);
    if 1 < k {
      MonthsTile(start, end, k - 1);
      assert all[..k - 1] == MonthJournals(start, end, k - 1);
    } else {
      assert all[..0] == [];
    }
  }

  /** The generated journals tile the course: no day is left out, none is in two. */
  lemma JournalsTile(start: Date, end: Date, exam: ExamType)
    requires CourseDates(start, end)
    ensures Tile(JournalsOf(start, end, exam), DayNumber(start), DayNumber(end))
  {
    MonthsAreOrdered(start, end);
    var from, to, n := DayNumber(start), DayNumber(end), JournalCount(start, end, exam);
    if exam == Weekly {
      WeeksTile(from, to, n);
      assert JournalsOf(start, end, exam) == seq(n, i requires 0 <= i => WeekJournal(from, to, i));
    } else {
      MonthsTile(start, end, n);
      LastMonth(end, end.month);
      assert JournalsOf(start, end, exam) == MonthJournals(start, end, n);
    }
  }

  /** Every weekly journal but the last has seven days; every day of a monthly journal is
      in the same calendar month, one month after the journal before it. */
  lemma JournalPeriods(start: Date, end: Date, exam: ExamType, i: nat, d: nat)
    requires CourseDates(start, end) && i < |JournalsOf(start, end, exam)|
    ensures var j := JournalsOf(start, end, exam)[i];
      && (exam == Weekly && i + 1 < |JournalsOf(start, end, exam)| ==> j.end - j.start + 1 == 7)
      && (exam == Weekly ==> j.end - j.start + 1 <= 7)
      && (exam == Monthly && j.start <= d <= j.end ==> MonthOf(d) == start.month + i)
  {
    hide MonthDays;
    MonthsAreOrdered(start, end);
    MonthOfUnique(d, start.month + i);
    if exam == Monthly {
      assert JournalsOf(start, end, exam)[i] == MonthJournal(DayNumber(start), DayNumber(end), start.month + i);
    } else {
      assert JournalsOf(start, end, exam)[i] == WeekJournal(DayNumber(start), DayNumber(end), i);
    }
  }

  // ---------------------------------------------------------------------------
  // Lesson dates
  // ---------------------------------------------------------------------------

  /** Monday is 0. */
  function Weekday(day: int): int { (day + 5) % 7 }

  /** The first day of year 1 is a Monday, which fixes the weekday of every day. */
  lemma YearOneStartsOnMonday(day: int)
    ensures Weekday(DayNumber(Date(12, 1))) == 0
    ensures Weekday(day + 1) == (Weekday(day) + 1) % 7
  {
    assert MonthStart(1) == 31 && MonthStart(2) == 60 && MonthStart(3) == 91;
    assert MonthStart(4) == 121 && MonthStart(5) == 152 && MonthStart(6) == 182;
    assert MonthStart(7) == 213 && MonthStart(8) == 244 && MonthStart(9) == 274;
    assert MonthStart(10) == 305 && MonthStart(11) == 335 && MonthStart(12) == 366;
  }

  /** `LessonDateCalculator.calculate`. */
  function LessonDates(from: int, to: int, weekdays: set<int>): seq<int>
    decreases 1 + to - from
  {
    if to < from then [] else LessonDates(from, to - 1, weekdays) + (if Weekday(to) in weekdays then [to] else [])
  }

  ghost predicate AscendingDays(days: seq<int>) {
    forall i, j :: 0 <= i < j < |days| ==> days[i] < days[j]
  }

  /** Every selected weekday of the range, once, in order. */
  lemma {:induction false} LessonDatesAreTheDays(from: int, to: int, weekdays: set<int>)
    ensures AscendingDays(LessonDates(from, to, weekdays))
    ensures forall d :: d in LessonDates(from, to, weekdays) <==> from <= d <= to && Weekday(d) in weekdays
    decreases 1 + to - from
  {
    if from <= to {
      var front := LessonDates(from, to - 1, weekdays);
      LessonDatesAreTheDays(from, to - 1, weekdays);
      forall i | 0 <= i < |front| ensures front[i] < to { assert front[i] in front; }
    }
  }

  predicate Holds(j: Journal, d: int) { j.start <= d <= j.end }

  /** The dates of one journal. */
  function DatesIn(days: seq<int>, j: Journal): seq<int> {
    if days == [] then []
    else
      var last := days[|days| - 1];
      DatesIn(days[..|days| - 1], j) + (if Holds(j, last) then [last] else [])
  }

  /** `EnrollmentLessonPlan.build`. */
  function LessonPlan(journals: seq<Journal>, days: seq<int>): seq<seq<int>> {
    seq(|journals|, i requires 0 <= i < |journals| => DatesIn(days, journals[i]))
  }

  function Flatten(plan: seq<seq<int>>): seq<int> {
    if plan == [] then [] else Flatten(plan[..|plan| - 1]) + plan[|plan| - 1]
  }

  lemma {:induction false} DatesInAll(days: seq<int>, j: Journal)
    requires forall d :: d in days ==> Holds(j, d)
    ensures DatesIn(days, j) == days
  {
    if days != [] {
      assert days[|days| - 1] in days;
      DatesInAll(days[..|days| - 1], j);
    }
  }

  lemma {:induction false} DatesInNone(days: seq<int>, j: Journal)
    requires forall d :: d in days ==> !Holds(j, d)
    ensures DatesIn(days, j) == []
  {
    if days != [] {
      assert days[|days| - 1] in days;
      DatesInNone(days[..|days| - 1], j);
    }
  }

  lemma {:induction false} DatesInConcat(days: seq<int>, more: seq<int>, j: Journal)
    ensures DatesIn(days + more, j) == DatesIn(days, j) + DatesIn(more, j)
  {
    if more == [] {
      assert days + more == days;
    } else {
      var n := |more| - 1;
      DatesInConcat(days, more[..n], j);
      assert (days + more)[..|days| + n] == days + more[..n];
    }
  }

  /** Ascending days split at any point of the calendar. */
  lemma SplitDays(days: seq<int>, cut: int) returns (k: nat)
    requires AscendingDays(days)
    ensures k <= |days|
    ensures forall d :: d in days[..k] ==> d < cut
    ensures forall d :: d in days[k..] ==> cut <= d
  {
    k := 0;
    while k < |days| && days[k] < cut
      invariant k <= |days|
      invariant forall i :: 0 <= i < k ==> days[i] < cut
    {
      k := k + 1;
    }
  }

  lemma {:induction false} TileBefore(journals: seq<Journal>, from: int, to: int, i: nat)
    requires Tile(journals, from, to) && i < |journals|
    ensures from <= journals[i].start <= journals[i].end <= to
  {
    var n := |journals| - 1;
    TileForward(journals[..n], from, journals[n].start - 1);
    if i < n { TileBefore(journals[..n], from, journals[n].start - 1, i); }
  }

  lemma EmptyPlan(days: seq<int>)
    ensures Flatten(LessonPlan([], days)) == []
  {
  }

  lemma EarlyDays(days: seq<int>, k: nat, from: int, last: Journal)
    requires k <= |days| && AscendingDays(days)
    requires forall d :: d in days ==> from <= d
    requires forall d :: d in days[..k] ==> d < last.start
    ensures AscendingDays(days[..k]) && forall d :: d in days[..k] ==> from <= d <= last.start - 1
  {
    forall d | d in days[..k] ensures from <= d <= last.start - 1 { assert d in days; }
  }

  lemma LateDaysHeld(days: seq<int>, k: nat, last: Journal, to: int)
    requires k <= |days| && last.end == to
    requires forall d :: d in days ==> d <= to
    requires forall d :: d in days[k..] ==> last.start <= d
    ensures forall d :: d in days[k..] ==> Holds(last, d)
  {
    forall d | d in days[k..] ensures Holds(last, d) { assert d in days; }
  }

  /** Every day of the course is in one journal, and in no other. */
  lemma {:induction false} OneJournal(journals: seq<Journal>, from: int, to: int, d: int) returns (i: nat)
    requires Tile(journals, from, to) && from <= d <= to
    ensures i < |journals| && Holds(journals[i], d)
    ensures forall j :: 0 <= j < |journals| && Holds(journals[j], d) ==> j == i
  {
    var n := |journals| - 1;
    var last := journals[n];
    if Holds(last, d) {
      i := n;
      forall j | 0 <= j < n ensures !Holds(journals[j], d) { TileBefore(journals[..n], from, last.start - 1, j); }
    } else {
      i := OneJournal(journals[..n], from, last.start - 1, d);
    }
  }

  /** The journals of a plan share the lesson dates out among them: read one after the
      other they are all the lesson dates, each once, in order. */
  lemma {:induction false} PlanIsPartition(journals: seq<Journal>, days: seq<int>, from: int, to: int)
    requires Tile(journals, from, to) && AscendingDays(days) && forall d :: d in days ==> from <= d <= to
    ensures Flatten(LessonPlan(journals, days)) == days
  {
    hide Flatten, LessonPlan, DatesIn, Holds, AscendingDays;
    assert days != [] ==> days[0] in days;
    EmptyPlan(days);
    if journals != [] {
      var n := |journals| - 1;
      var front, last := journals[..n], journals[n];
      var k := SplitDays(days, last.start);
      var early, late := days[..k], days[k..];
      assert days == early + late;
      EarlyDays(days, k, from, last);
      LateDaysHeld(days, k, last, to);
      PlanIsPartition(front, early, from, last.start - 1);
      PlanSplits(front, last, early, late, from);
      assert front + [last] == journals;
      assert Flatten(LessonPlan(journals, days)) == early + late;
    } else {
      assert days == [] && journals == [];
    }
  }

  /** The last journal takes the late dates, the others the early ones. */
  lemma PlanSplits(front: seq<Journal>, last: Journal, early: seq<int>, late: seq<int>, from: int)
    requires Tile(front, from, last.start - 1)
    requires forall d :: d in early ==> d < last.start
    requires forall d :: d in late ==> Holds(last, d)
    ensures Flatten(LessonPlan(front + [last], early + late)) == Flatten(LessonPlan(front, early)) + late
  {
    hide Tile, DatesIn;
    var days, n := early + late, |front|;
    forall i | 0 <= i < n ensures DatesIn(days, front[i]) == DatesIn(early, front[i]) {
      TileBefore(front, from, last.start - 1, i);
      DatesInConcat(early, late, front[i]);
      DatesInNone(late, front[i]);
    }
    DatesInConcat(early, late, last);
    DatesInNone(early, last);
    DatesInAll(late, last);
    assert LessonPlan(front + [last], days)[..n] == LessonPlan(front, early);
  }

  /** Every lesson date of a course is in the plan of exactly one of its journals. */
  lemma EveryLessonOnce(start: Date, end: Date, exam: ExamType, weekdays: set<int>)
    requires CourseDates(start, end)
    ensures var days := LessonDates(DayNumber(start), DayNumber(end), weekdays);
      Flatten(LessonPlan(JournalsOf(start, end, exam), days)) == days
  {
    hide DayNumber, MonthStart, MonthDays, JournalsOf;
    var from, to := DayNumber(start), DayNumber(end);
    JournalsTile(start, end, exam);
    LessonDatesAreTheDays(from, to, weekdays);
    PlanIsPartition(JournalsOf(start, end, exam), LessonDates(from, to, weekdays), from, to);
  }

  // ---------------------------------------------------------------------------
  // Copying a course
  // ---------------------------------------------------------------------------

  /** `CourseCreate`, as far as rows depend on it. */
  datatype CourseData = CourseData(start: Date, end: Date, exam: ExamType, weekdays: seq<int>, price: int)

  predicate Creatable(data: CourseData) {
    ValidDate(data.start) && ValidDate(data.end) && DayNumber(data.start) < DayNumber(data.end)
  }

  /** A student of the course that is copied. */
  datatype Pupil = Pupil(id: int, eligible: bool, paymentDay: nat)

  datatype CopyError = BudgetExceeded | CourseAlreadyEnded

  datatype CopyPlan = CopyPlan(lessonDates: seq<int>, estimatedRows: int)

  const MAXIMUM_ENROLLMENTS := 100
  const MAXIMUM_DAYS := 366
  const MAXIMUM_ROWS := 20000

  function WeekdaySet(weekdays: seq<int>): set<int> { set d | d in weekdays }

  function RowsPerPupil(lessons: int, journals: int, installments: int): int { 1 + lessons + journals + installments }

  function Estimate(schedules: int, lessons: int, journals: int, installments: int, pupils: int): int {
    2 + schedules + journals + pupils * RowsPerPupil(lessons, journals, installments)
  }

  /** `CourseCopyPlan.build`. */
  function BuildCopyPlan(data: CourseData, pupils: nat): Result<CopyPlan, CopyError> {
    var from, to := DayNumber(data.start), DayNumber(data.end);
    var duration := to - from + 1;
    if pupils > MAXIMUM_ENROLLMENTS || duration > MAXIMUM_DAYS then Failure(BudgetExceeded)
    else
      var lessons := LessonDates(from, to, WeekdaySet(data.weekdays));
      var installments := data.end.month - data.start.month + 1;
      var journals := if data.exam == Weekly then (duration + 6) / 7 else installments;
      var estimate := Estimate(|data.weekdays|, |lessons|, journals, installments, pupils);
      if estimate > MAXIMUM_ROWS then Failure(BudgetExceeded) else Success(CopyPlan(lessons, estimate))
  }

  datatype Row =
    | CourseRow | HistoryRow
    | ScheduleRow(weekday: int)
    | JournalRow(journal: Journal)
    | EnrollmentRow(student: int)
    | EntryRow(student: int, period: nat, day: int)
    | SummaryRow(student: int, period: nat, lessons: nat)
    | ChargeRow(student: int, charge: Schedule.PlannedCharge)

  function ScheduleRows(weekdays: seq<int>): seq<Row> {
    seq(|weekdays|, i requires 0 <= i < |weekdays| => ScheduleRow(weekdays[i]))
  }

  function JournalRows(journals: seq<Journal>): seq<Row> {
    seq(|journals|, i requires 0 <= i < |journals| => JournalRow(journals[i]))
  }

  /** `create_course`: the course, its schedules, its journals, its first mentor. */
  method CreateCourse(data: CourseData) returns (rows: seq<Row>, journals: seq<Journal>)
    requires Creatable(data)
    ensures journals == JournalsOf(data.start, data.end, data.exam)
    ensures rows == [CourseRow] + ScheduleRows(data.weekdays) + JournalRows(journals) + [HistoryRow]
  {
    hide JournalsOf, DayNumber;
    rows := [CourseRow];
    for i := 0 to |data.weekdays|
      invariant rows == [CourseRow] + ScheduleRows(data.weekdays[..i])
    {
      rows := rows + [ScheduleRow(data.weekdays[i])];
    }
    assert data.weekdays[..|data.weekdays|] == data.weekdays;
    journals := GenerateJournals(data.start, data.end, data.exam);
    for i := 0 to |journals|
      invariant rows == [CourseRow] + ScheduleRows(data.weekdays) + JournalRows(journals[..i])
    {
      rows := rows + [JournalRow(journals[i])];
    }
    assert journals[..|journals|] == journals;
    rows := rows + [HistoryRow];
  }

  /** The lesson entries of a student: one for every date of every journal. */
  function EntryRows(student: int, plan: seq<seq<int>>): seq<Row> {
    if plan == [] then []
    else
      var n := |plan| - 1;
      EntryRows(student, plan[..n]) + seq(|plan[n]|, i requires 0 <= i < |plan[n]| => EntryRow(student, n, plan[n][i]))
  }

  function SummaryRows(student: int, plan: seq<seq<int>>): seq<Row> {
    seq(|plan|, i requires 0 <= i < |plan| => SummaryRow(student, i, |plan[i]|))
  }

  function ChargeRows(student: int, planned: seq<Schedule.PlannedCharge>): seq<Row> {
    seq(|planned|, i requires 0 <= i < |planned| => ChargeRow(student, planned[i]))
  }

  lemma {:induction false} EntryRowCount(student: int, plan: seq<seq<int>>)
    ensures |EntryRows(student, plan)| == |Flatten(plan)|
  {
    if plan != [] { EntryRowCount(student, plan[..|plan| - 1]); }
  }

  function ChargePlan(data: CourseData, pupil: Pupil, today: int): seq<Schedule.PlannedCharge>
    requires Creatable(data)
  {
    Schedule.Plan(data.start, DayNumber(data.end), today, pupil.paymentDay, data.price)
  }

  function PupilRows(data: CourseData, plan: seq<seq<int>>, pupil: Pupil, today: int): seq<Row>
    requires Creatable(data)
  {
    if !pupil.eligible then []
    else
      [EnrollmentRow(pupil.id)] + EntryRows(pupil.id, plan) + SummaryRows(pupil.id, plan)
        + ChargeRows(pupil.id, ChargePlan(data, pupil, today))
  }

  function CopiedRows(data: CourseData, plan: seq<seq<int>>, pupils: seq<Pupil>, today: int): seq<Row>
    requires Creatable(data)
  {
    if pupils == [] then []
    else CopiedRows(data, plan, pupils[..|pupils| - 1], today) + PupilRows(data, plan, pupils[|pupils| - 1], today)
  }

  /** There are never more installments than calendar months. */
  lemma {:induction false} InstallmentsFit(data: CourseData, pupil: Pupil, today: int)
    requires Creatable(data)
    ensures |ChargePlan(data, pupil, today)| <= data.end.month - data.start.month + 1
  {
    hide MonthDays;
    MonthsAreOrdered(data.start, data.end);
    var end, k := DayNumber(data.end), data.end.month + 1 - data.start.month;
    MonthsBeforeEnd(data.start, end, k, data.end.month);
  }

  lemma MonthsBeforeEnd(start: Date, end: int, k: nat, month: nat)
    requires ValidDate(start) && start.month + k == month + 1 && end < MonthStart(month + 1)
    ensures Schedule.MonthCount(start, end) <= k
  {
    hide MonthDays;
    assert end <= Schedule.MonthDay(start, k);
  }

  /** What one student adds is at most what the estimate allows per student. */
  lemma {:induction false} PupilRowsFit(data: CourseData, pupil: Pupil, today: int)
    requires Creatable(data)
    ensures var days, js := LessonDates(DayNumber(data.start), DayNumber(data.end), WeekdaySet(data.weekdays)),
      JournalsOf(data.start, data.end, data.exam);
      |PupilRows(data, LessonPlan(js, days), pupil, today)|
        <= RowsPerPupil(|days|, |js|, data.end.month - data.start.month + 1)
  {
    hide JournalsOf, DayNumber, MonthDays, ChargePlan, LessonDates;
    var days := LessonDates(DayNumber(data.start), DayNumber(data.end), WeekdaySet(data.weekdays));
    var js := JournalsOf(data.start, data.end, data.exam);
    MonthsAreOrdered(data.start, data.end);
    EveryLessonOnce(data.start, data.end, data.exam, WeekdaySet(data.weekdays));
    EntryRowCount(pupil.id, LessonPlan(js, days));
    InstallmentsFit(data, pupil, today);
  }

  lemma {:induction false} CopiedRowsFit(data: CourseData, pupils: seq<Pupil>, today: int)
    requires Creatable(data)
    ensures var days, js := LessonDates(DayNumber(data.start), DayNumber(data.end), WeekdaySet(data.weekdays)),
      JournalsOf(data.start, data.end, data.exam);
      |CopiedRows(data, LessonPlan(js, days), pupils, today)|
        <= |pupils| * RowsPerPupil(|days|, |js|, data.end.month - data.start.month + 1)
  {
    hide JournalsOf, DayNumber, LessonDates, RowsPerPupil, PupilRows;
    if pupils != [] {
      var n := |pupils| - 1;
      CopiedRowsFit(data, pupils[..n], today);
      PupilRowsFit(data, pupils[n], today);
      var days, js := LessonDates(DayNumber(data.start), DayNumber(data.end), WeekdaySet(data.weekdays)),
        JournalsOf(data.start, data.end, data.exam);
      var each := RowsPerPupil(|days|, |js|, data.end.month - data.start.month + 1);
      assert |pupils| * each == n * each + each;
    }
  }

  /** `enroll_student`, as far as it adds rows. */
  method EnrollPupil(data: CourseData, plan: seq<seq<int>>, pupil: Pupil, today: int) returns (rows: seq<Row>)
    requires Creatable(data) && pupil.eligible
    ensures rows == PupilRows(data, plan, pupil, today)
  {
    hide Schedule.Plan, DayNumber;
    rows := [EnrollmentRow(pupil.id)];
    var entries, summaries: seq<Row> := [], [];
    for n := 0 to |plan|
      invariant entries == EntryRows(pupil.id, plan[..n])
      invariant summaries == SummaryRows(pupil.id, plan[..n])
    {
      ghost var before := entries;
      for i := 0 to |plan[n]|
        invariant entries == before + seq(i, k requires 0 <= k < i => EntryRow(pupil.id, n, plan[n][k]))
      {
        entries := entries + [EntryRow(pupil.id, n, plan[n][i])];
      }
      assert plan[..n + 1][..n] == plan[..n];
      summaries := summaries + [SummaryRow(pupil.id, n, |plan[n]|)];
    }
    assert plan[..|plan|] == plan;
    var planned := Schedule.PlanSchedule(data.start, DayNumber(data.end), today, pupil.paymentDay, data.price);
    rows := rows + entries + summaries + ChargeRows(pupil.id, planned);
  }

  predicate AnyEligible(pupils: seq<Pupil>) {
    exists i :: 0 <= i < |pupils| && pupils[i].eligible
  }

  /** The lessons of a course by journal. */
  function CourseLessons(data: CourseData): seq<seq<int>>
    requires Creatable(data)
  {
    LessonPlan(JournalsOf(data.start, data.end, data.exam),
      LessonDates(DayNumber(data.start), DayNumber(data.end), WeekdaySet(data.weekdays)))
  }

  /** The rows of a copy: those of the course, then those of its students. */
  function CopyOf(data: CourseData, pupils: seq<Pupil>, today: int): seq<Row>
    requires Creatable(data)
  {
    [CourseRow] + ScheduleRows(data.weekdays) + JournalRows(JournalsOf(data.start, data.end, data.exam)) + [HistoryRow]
      + CopiedRows(data, CourseLessons(data), pupils, today)
  }

  /** The course, its first mentor, its schedules and journals, and for each student an
      enrollment, the lessons, a summary of each journal and a charge for each month. */
  function EstimatedRows(data: CourseData, pupils: nat): int
    requires Creatable(data)
  {
    var days := LessonDates(DayNumber(data.start), DayNumber(data.end), WeekdaySet(data.weekdays));
    var journals, months := JournalsOf(data.start, data.end, data.exam), data.end.month - data.start.month + 1;
    2 + |data.weekdays| + |journals| + pupils * (1 + |days| + |journals| + months)
  }

  /** More than a hundred students, more than 366 days, or more than 20000 rows. */
  predicate OverBudget(data: CourseData, pupils: nat)
    requires Creatable(data)
  {
    || pupils > 100 || DayNumber(data.end) - DayNumber(data.start) + 1 > 366
    || EstimatedRows(data, pupils) > 20000
  }

  /** `copy_course`: a copy the budget lets through never creates more rows than were
      estimated. */
  method CopyCourse(data: CourseData, pupils: seq<Pupil>, today: int) returns (r: Result<seq<Row>, CopyError>)
    requires Creatable(data)
    ensures r == Failure(BudgetExceeded) <==> OverBudget(data, |pupils|)
    ensures r == Failure(CourseAlreadyEnded) <==>
      !OverBudget(data, |pupils|) && AnyEligible(pupils) && DayNumber(data.end) <= today
    ensures r.Success? ==> r.value == CopyOf(data, pupils, today)
    ensures r.Success? ==> |r.value| <= EstimatedRows(data, |pupils|) <= 20000
    ensures r.Success? ==> forall i :: 0 <= i < |pupils| && pupils[i].eligible ==>
      forall d :: DayNumber(data.start) <= d <= DayNumber(data.end) && Weekday(d) in data.weekdays ==>
        exists n: nat :: EntryRow(pupils[i].id, n, d) in r.value
  {
    hide JournalsOf, DayNumber, LessonDates, LessonPlan, PupilRows, CopiedRows, BuildCopyPlan, OverBudget, CopyOf;
    hide EstimatedRows, ScheduleRows, JournalRows, Weekday;
    var built := BuildCopyPlan(data, |pupils|);
    EstimateIsExact(data, |pupils|);
    if built.Failure? {
      return Failure(BudgetExceeded);
    }
    var rows, journals := CreateCourse(data);
    ghost var created := rows;
    var plan := LessonPlan(journals, built.value.lessonDates);
    ghost var added: seq<Row> := [];
    NoCopiedRows(data, plan, today);
    for i := 0 to |pupils|
      invariant rows == created + added
      invariant added == CopiedRows(data, plan, pupils[..i], today)
      invariant DayNumber(data.end) <= today ==> !AnyEligible(pupils[..i])
    {
      CopiedRowsStep(data, plan, pupils, i, today);
      if pupils[i].eligible {
        if DayNumber(data.end) <= today {
          return Failure(CourseAlreadyEnded);
        }
        var more := EnrollPupil(data, plan, pupils[i], today);
        rows := rows + more;
        added := added + more;
      }
    }
    assert pupils[..|pupils|] == pupils;
    assert rows == CopyOf(data, pupils, today) by { CopyIsBoth(data, pupils, today); }
    CopyFits(data, pupils, today);
    assert EstimatedRows(data, |pupils|) <= 20000 by { WithinBudget(data, |pupils|); }
    EveryoneGetsEveryLesson(data, pupils, today);
    return Success(rows);
  }

  lemma CopyIsBoth(data: CourseData, pupils: seq<Pupil>, today: int)
    requires Creatable(data)
    ensures CopyOf(data, pupils, today)
      == [CourseRow] + ScheduleRows(data.weekdays) + JournalRows(JournalsOf(data.start, data.end, data.exam))
         + [HistoryRow] + CopiedRows(data, CourseLessons(data), pupils, today)
  {
  }

  lemma WithinBudget(data: CourseData, pupils: nat)
    requires Creatable(data) && !OverBudget(data, pupils)
    ensures EstimatedRows(data, pupils) <= 20000
  {
  }

  /** A copy has at most the estimated rows. */
  lemma CopyFits(data: CourseData, pupils: seq<Pupil>, today: int)
    requires Creatable(data)
    ensures |CopyOf(data, pupils, today)| <= EstimatedRows(data, |pupils|)
  {
    hide JournalsOf, DayNumber, LessonDates, LessonPlan, CopiedRows;
    CopiedRowsFit(data, pupils, today);
  }

  lemma NoCopiedRows(data: CourseData, plan: seq<seq<int>>, today: int)
    requires Creatable(data)
    ensures CopiedRows(data, plan, [], today) == []
  {
  }

  lemma CopiedRowsStep(data: CourseData, plan: seq<seq<int>>, pupils: seq<Pupil>, i: nat, today: int)
    requires Creatable(data) && i < |pupils|
    ensures CopiedRows(data, plan, pupils[..i + 1], today)
      == CopiedRows(data, plan, pupils[..i], today) + PupilRows(data, plan, pupils[i], today)
    ensures !pupils[i].eligible ==> PupilRows(data, plan, pupils[i], today) == []
    ensures AnyEligible(pupils[..i + 1]) <==> AnyEligible(pupils[..i]) || pupils[i].eligible
  {
    assert pupils[..i + 1][..i] == pupils[..i];
    if AnyEligible(pupils[..i]) {
      var k :| 0 <= k < i && pupils[..i][k].eligible;
      assert pupils[..i + 1][k].eligible;
    }
    if pupils[i].eligible { assert pupils[..i + 1][i].eligible; }
  }

  /** The budget is that of the journals that are generated, and the estimate counts them. */
  lemma {:induction false} EstimateIsExact(data: CourseData, pupils: nat)
    requires Creatable(data)
    ensures match BuildCopyPlan(data, pupils)
      case Failure(e) => e == BudgetExceeded && OverBudget(data, pupils)
      case Success(built) =>
        && !OverBudget(data, pupils) && built.estimatedRows == EstimatedRows(data, pupils)
        && built.lessonDates == LessonDates(DayNumber(data.start), DayNumber(data.end), WeekdaySet(data.weekdays))
  {
    hide LessonDates, WeekdaySet, DayNumber, WeekJournal, MonthJournal;
    MonthsAreOrdered(data.start, data.end);
  }

  // ---------------------------------------------------------------------------
  // What a copied student gets
  // ---------------------------------------------------------------------------

  /** The lessons of one journal. */
  function LessonsIn(data: CourseData, j: Journal): set<int> {
    set d | j.start <= d <= j.end && Weekday(d) in data.weekdays
  }

  /** A student of the copy gets the enrollment, every lesson of every journal, a summary of
      each journal with the number of its lessons, and the charges of the plan. */
  ghost predicate Gets(data: CourseData, pupil: Pupil, today: int, row: Row)
    requires Creatable(data)
  {
    var journals := JournalsOf(data.start, data.end, data.exam);
    match row
    case EnrollmentRow(student) => student == pupil.id
    case EntryRow(student, n, d) => student == pupil.id && n < |journals| && d in LessonsIn(data, journals[n])
    case SummaryRow(student, n, lessons) =>
      student == pupil.id && n < |journals| && lessons == |LessonsIn(data, journals[n])|
    case ChargeRow(student, charge) => student == pupil.id &&
      charge in Schedule.Plan(data.start, DayNumber(data.end), today, pupil.paymentDay, data.price)
    case _ => false
  }

  lemma {:induction false} DatesInMembers(days: seq<int>, j: Journal)
    requires AscendingDays(days)
    ensures forall d :: d in DatesIn(days, j) <==> d in days && Holds(j, d)
    ensures AscendingDays(DatesIn(days, j))
  {
    if days != [] {
      var n := |days| - 1;
      DatesInMembers(days[..n], j);
      assert days == days[..n] + [days[n]];
      forall d | d in days[..n] ensures d < days[n] { }
      var front := DatesIn(days[..n], j);
      forall i | 0 <= i < |front| ensures front[i] < days[n] { assert front[i] in front; }
    }
  }

  lemma {:induction false} AscendingCount(days: seq<int>)
    requires AscendingDays(days)
    ensures |set d | d in days| == |days|
  {
    if days != [] {
      var n := |days| - 1;
      AscendingCount(days[..n]);
      assert (set d | d in days) == (set d | d in days[..n]) + {days[n]};
      assert days[n] !in days[..n];
    }
  }

  /** Journal `n` of the plan holds exactly the lessons of its period. */
  lemma {:induction false} LessonsOfJournal(data: CourseData, n: nat)
    requires Creatable(data) && n < |JournalsOf(data.start, data.end, data.exam)|
    ensures var j := JournalsOf(data.start, data.end, data.exam)[n];
      && |CourseLessons(data)| == |JournalsOf(data.start, data.end, data.exam)|
      && (forall d :: d in CourseLessons(data)[n] <==> d in LessonsIn(data, j))
      && |CourseLessons(data)[n]| == |LessonsIn(data, j)|
  {
    hide JournalsOf, DayNumber, LessonDates, DatesIn, AscendingDays;
    var journals, from, to := JournalsOf(data.start, data.end, data.exam), DayNumber(data.start), DayNumber(data.end);
    var days, j := LessonDates(from, to, WeekdaySet(data.weekdays)), journals[n];
    LessonDatesAreTheDays(from, to, WeekdaySet(data.weekdays));
    JournalsTile(data.start, data.end, data.exam);
    TileBefore(journals, from, to, n);
    DatesInMembers(days, j);
    AscendingCount(DatesIn(days, j));
    assert (set d | d in DatesIn(days, j)) == LessonsIn(data, j);
  }

  lemma {:induction false} EntryRowMembers(student: int, plan: seq<seq<int>>, row: Row)
    ensures row in EntryRows(student, plan) <==>
      row.EntryRow? && row.student == student && row.period < |plan| && row.day in plan[row.period]
  {
    if plan != [] {
      var k := |plan| - 1;
      var last := seq(|plan[k]|, i requires 0 <= i < |plan[k]| => EntryRow(student, k, plan[k][i]));
      EntryRowMembers(student, plan[..k], row);
      if row.EntryRow? && row.student == student && row.period == k && row.day in plan[k] {
        var i :| 0 <= i < |plan[k]| && plan[k][i] == row.day;
        assert last[i] == row;
      }
    }
  }

  lemma PlanLength(data: CourseData)
    requires Creatable(data)
    ensures |CourseLessons(data)| == |JournalsOf(data.start, data.end, data.exam)|
  {
    hide JournalsOf;
  }

  lemma SummaryRowMembers(student: int, plan: seq<seq<int>>, row: Row)
    ensures row in SummaryRows(student, plan) <==>
      row.SummaryRow? && row.student == student && row.period < |plan| && row.lessons == |plan[row.period]|
  {
    if row.SummaryRow? && row.period < |plan| {
      assert SummaryRows(student, plan)[row.period] == SummaryRow(student, row.period, |plan[row.period]|);
    }
  }

  lemma ChargeRowMembers(student: int, planned: seq<Schedule.PlannedCharge>, row: Row)
    ensures row in ChargeRows(student, planned) <==> row.ChargeRow? && row.student == student && row.charge in planned
  {
    if row.ChargeRow? && row.charge in planned {
      var i :| 0 <= i < |planned| && planned[i] == row.charge;
      assert ChargeRows(student, planned)[i] == ChargeRow(student, row.charge);
    }
  }

  lemma {:induction false} PupilRowMembers(data: CourseData, pupil: Pupil, today: int, row: Row)
    requires Creatable(data)
    ensures row in PupilRows(data, CourseLessons(data), pupil, today) <==>
      pupil.eligible && Gets(data, pupil, today, row)
  {
    hide JournalsOf, DayNumber, LessonPlan, LessonsIn, EntryRows, Schedule.Plan, CourseLessons;
    var plan, planned := CourseLessons(data), ChargePlan(data, pupil, today);
    var journals := JournalsOf(data.start, data.end, data.exam);
    EntryRowMembers(pupil.id, plan, row);
    PlanLength(data);
    forall n: nat | n < |journals| ensures |plan[n]| == |LessonsIn(data, journals[n])|
      ensures forall d :: d in plan[n] <==> d in LessonsIn(data, journals[n])
    {
      LessonsOfJournal(data, n);
    }
    SummaryRowMembers(pupil.id, plan, row);
    ChargeRowMembers(pupil.id, planned, row);
  }

  /** A copy creates exactly those rows for exactly the students that are eligible. */
  lemma {:induction false} CopiedRowMembers(data: CourseData, pupils: seq<Pupil>, today: int, row: Row)
    requires Creatable(data)
    ensures row in CopiedRows(data, CourseLessons(data), pupils, today) <==>
      exists i :: 0 <= i < |pupils| && pupils[i].eligible && Gets(data, pupils[i], today, row)
  {
    hide PupilRows, Gets, CourseLessons;
    if pupils != [] {
      var n := |pupils| - 1;
      CopiedRowMembers(data, pupils[..n], today, row);
      PupilRowMembers(data, pupils[n], today, row);
    }
  }

  /** So every student of the copy has every lesson of the course. */
  lemma EveryoneGetsEveryLesson(data: CourseData, pupils: seq<Pupil>, today: int)
    requires Creatable(data)
    ensures forall i :: 0 <= i < |pupils| && pupils[i].eligible ==>
      forall d :: DayNumber(data.start) <= d <= DayNumber(data.end) && Weekday(d) in data.weekdays ==>
        exists n: nat :: EntryRow(pupils[i].id, n, d) in CopyOf(data, pupils, today)
  {
    hide JournalsOf, DayNumber, CourseLessons, CopiedRows, Weekday;
    JournalsTile(data.start, data.end, data.exam);
    forall i, d | 0 <= i < |pupils| && pupils[i].eligible
        && DayNumber(data.start) <= d <= DayNumber(data.end) && Weekday(d) in data.weekdays
      ensures exists n: nat :: EntryRow(pupils[i].id, n, d) in CopyOf(data, pupils, today)
    {
      var journals := JournalsOf(data.start, data.end, data.exam);
      var n := OneJournal(journals, DayNumber(data.start), DayNumber(data.end), d);
      var row := EntryRow(pupils[i].id, n, d);
      assert d in LessonsIn(data, journals[n]);
      assert Gets(data, pupils[i], today, row);
      CopiedRowMembers(data, pupils, today, row);
    }
  }
}
