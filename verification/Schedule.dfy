/**
 Course months and the tuition plan of an enrollment: `CourseMonthCalendar` and
 `plan_schedule`.
 */
module Schedule {
  import opened Arithmetic
  import opened Calendar

  /** The start of course month `k`: the same day of a later month, clamped to it. */
  function CourseMonth(start: Date, k: nat): Date {
    var month := start.month + k;
    Date(month, Min(start.day, MonthDays(month)))
  }

  function MonthDay(start: Date, k: nat): int {
    DayNumber(CourseMonth(start, k))
  }

  /** Course month `k` starts `k` months later, on the same day, or on the last day of a
      month that is too short. */
  lemma CourseMonthMeaning(start: Date, k: nat)
    requires ValidDate(start)
    ensures var d := CourseMonth(start, k);
      && ValidDate(d) && d.month == start.month + k
      && (d.day == start.day || (d.day < start.day && d.day == MonthDays(d.month)))
  {
  }

  /** Course months strictly increase. */
  lemma {:induction false} CourseMonthsIncrease(start: Date, j: nat, k: nat)
    requires ValidDate(start) && j < k
    ensures ValidDate(CourseMonth(start, j)) && ValidDate(CourseMonth(start, k))
    ensures MonthDay(start, j) + (k - j) <= MonthDay(start, k)
  {
    hide MonthDays, MonthStart;
    if j < k - 1 {
      CourseMonthsIncrease(start, j, k - 1);
    }
    MonthStartIncreases(start.month + k - 1, start.month + k);
  }

  /** The first course month, from `k` on, that starts on or after `day`. */
  function MonthsUntil(start: Date, day: int, k: nat): (r: nat)
    requires ValidDate(start)
    ensures k <= r && day <= MonthDay(start, r)
    ensures forall i :: k <= i < r ==> MonthDay(start, i) < day
    decreases day - MonthDay(start, k)
  {
    if day <= MonthDay(start, k) then k
    else
      CourseMonthsIncrease(start, k, k + 1);
      MonthsUntil(start, day, k + 1)
  }

  /** The number of course months that start before the course ends. */
  function MonthCount(start: Date, end: int): nat
    requires ValidDate(start)
  {
    MonthsUntil(start, end, 0)
  }

  /** The first course month not already over at enrollment. */
  function FirstBilled(start: Date, enrolled: int): (k: nat)
    requires ValidDate(start)
  {
    MonthsUntil(start, enrolled + 1, 1) - 1
  }

  /** The billed months are a run of consecutive course months. */
  function BilledStarts(start: Date, end: int, enrolled: int): seq<Date>
    requires ValidDate(start)
  {
    var first := FirstBilled(start, enrolled);
    seq(Max(0, MonthCount(start, end) - first), i requires 0 <= i => CourseMonth(start, first + i))
  }

  /** Something is billed exactly when the student enrolls before the end of the last
      course month, hence whenever they enroll before the course ends. */
  lemma SomeMonthIsBilled(start: Date, end: int, enrolled: int)
    requires ValidDate(start) && DayNumber(start) < end
    ensures BilledStarts(start, end, enrolled) != [] <==> enrolled < MonthDay(start, MonthCount(start, end))
    ensures enrolled < end ==> BilledStarts(start, end, enrolled) != []
  {
    var first, count := FirstBilled(start, enrolled), MonthCount(start, end);
    assert CourseMonth(start, 0) == start;
    if first < count {
      if first + 1 < count { CourseMonthsIncrease(start, first + 1, count); }
    } else if count < first {
      CourseMonthsIncrease(start, count, first);
    }
  }

  /** Month `i` of the billed run starts before the course ends and is not over at
      enrollment. */
  lemma BilledMonth(start: Date, end: int, enrolled: int, i: nat)
    requires ValidDate(start) && i < |BilledStarts(start, end, enrolled)|
    ensures var k := FirstBilled(start, enrolled) + i;
      && BilledStarts(start, end, enrolled)[i] == CourseMonth(start, k)
      && MonthDay(start, k) < end && enrolled < MonthDay(start, k + 1)
  {
    hide MonthStart, MonthDays, CourseMonth;
    var first := FirstBilled(start, enrolled);
    if 0 < i { CourseMonthsIncrease(start, first + 1, first + i + 1); }
  }

  /** Course month `k` starts before the course ends and is not over at enrollment. */
  predicate BillsCourseMonth(start: Date, end: int, enrolled: int, k: nat)
    requires ValidDate(start)
  {
    MonthDay(start, k) < end && enrolled < MonthDay(start, k + 1)
  }

  lemma BilledIsListed(start: Date, end: int, enrolled: int, k: nat)
    requires ValidDate(start) && BillsCourseMonth(start, end, enrolled, k)
    ensures CourseMonth(start, k) in BilledStarts(start, end, enrolled)
  {
    hide MonthStart, MonthDays, CourseMonth, DayNumber;
    var days, first := BilledStarts(start, end, enrolled), FirstBilled(start, enrolled);
    if MonthCount(start, end) < k { CourseMonthsIncrease(start, MonthCount(start, end), k); }
    assert k < MonthCount(start, end) && first <= k;
    assert days[k - first] == CourseMonth(start, k);
  }

  /** The billed months are exactly the course months that start before the course ends and
      are not over at enrollment, in order. */
  lemma {:induction false} BilledExactly(start: Date, end: int, enrolled: int, d: Date)
    requires ValidDate(start)
    ensures d in BilledStarts(start, end, enrolled) <==>
      exists k: nat :: d == CourseMonth(start, k) && BillsCourseMonth(start, end, enrolled, k)
    ensures var days := BilledStarts(start, end, enrolled);
      forall i, j :: 0 <= i < j < |days| ==> DayNumber(days[i]) < DayNumber(days[j])
  {
    hide CourseMonth, DayNumber, FirstBilled, MonthCount, MonthDay;
    var days, first := BilledStarts(start, end, enrolled), FirstBilled(start, enrolled);
    if d in days {
      var i :| 0 <= i < |days| && days[i] == d;
      BilledMonth(start, end, enrolled, i);
      assert BillsCourseMonth(start, end, enrolled, first + i);
    }
    if k: nat :| d == CourseMonth(start, k) && BillsCourseMonth(start, end, enrolled, k) {
      BilledIsListed(start, end, enrolled, k);
    }
    forall i, j | 0 <= i < j < |days| ensures DayNumber(days[i]) < DayNumber(days[j]) {
      BilledMonthsAscend(start, end, enrolled, i, j);
    }
  }

  lemma BilledMonthsAscend(start: Date, end: int, enrolled: int, i: nat, j: nat)
    requires ValidDate(start) && i < j < |BilledStarts(start, end, enrolled)|
    ensures DayNumber(BilledStarts(start, end, enrolled)[i]) < DayNumber(BilledStarts(start, end, enrolled)[j])
  {
    hide MonthStart, MonthDays, CourseMonth, DayNumber;
    var first := FirstBilled(start, enrolled);
    CourseMonthsIncrease(start, first + i, first + j);
  }

  /** A course that ends inside its only month: the month is listed even for a student
      who enrolls once the course is over, as long as the month is not. */
  lemma {:induction false} MonthListedAfterCourseEnd(month: nat, end: int, enrolled: int)
    requires MonthStart(month) < end <= enrolled < MonthStart(month + 1)
    ensures BilledStarts(Date(month, 1), end, enrolled) == [Date(month, 1)]
  {
    hide MonthDays;
    var start := Date(month, 1);
    assert CourseMonth(start, 0) == start && CourseMonth(start, 1) == Date(month + 1, 1);
    assert MonthDay(start, 0) == MonthStart(month) && MonthDay(start, 1) == MonthStart(month + 1);
    assert FirstBilled(start, enrolled) == 0 && MonthCount(start, end) == 1;
  }

  // ---------------------------------------------------------------------------
  // The scan
  // ---------------------------------------------------------------------------

  /** `billed_starts`: one pass over the course months. */
  method ScanBilledStarts(start: Date, end: int, enrolled: int) returns (starts: seq<Date>)
    requires ValidDate(start)
    ensures starts == BilledStarts(start, end, enrolled)
  {
    hide MonthStart, MonthDays;
    starts := [];
    var k := 0;
    ghost var first := FirstBilled(start, enrolled);
    while MonthDay(start, k) < end
      invariant k <= MonthCount(start, end)
      invariant |starts| == Max(0, k - first)
      invariant forall i :: 0 <= i < |starts| ==> starts[i] == CourseMonth(start, first + i)
      decreases end - MonthDay(start, k)
    {
      if MonthDay(start, k + 1) > enrolled {
        assert first <= k;
        starts := starts + [CourseMonth(start, k)];
      } else if first < k {
        CourseMonthsIncrease(start, first + 1, k + 1);
        assert false;
      }
      CourseMonthsIncrease(start, k, k + 1);
      k := k + 1;
    }
    assert k == MonthCount(start, end);
  }

  // ---------------------------------------------------------------------------
  // Due dates
  // ---------------------------------------------------------------------------

  datatype PlannedCharge = PlannedCharge(sequenceNo: nat, periodStart: Date, dueDay: int, amount: int)

  /** Day `day` of a month, clamped to it. */
  function DayOfMonth(month: nat, day: nat): Date {
    Date(month, Min(day, MonthDays(month)))
  }

  /** The due day of course month `k`, before enrollment is considered. */
  function DueDay(start: Date, k: nat, paymentDay: nat): int {
    var here, next := CourseMonth(start, k), CourseMonth(start, k + 1);
    var first := DayNumber(DayOfMonth(here.month, paymentDay));
    var due := if first < DayNumber(here) then DayNumber(DayOfMonth(next.month, paymentDay)) else first;
    if due >= DayNumber(next) then DayNumber(next) - 1 else due
  }

  /** Payment days are 1..28, so every month has one. */
  predicate PaymentDay(day: nat) { 1 <= day <= 28 }

  /** A due day lies in its own course month. */
  lemma DueDayInMonth(start: Date, k: nat, paymentDay: nat)
    requires ValidDate(start) && PaymentDay(paymentDay)
    ensures MonthDay(start, k) <= DueDay(start, k, paymentDay) < MonthDay(start, k + 1)
  {
    var here, next := CourseMonth(start, k), CourseMonth(start, k + 1);
    CourseMonthsIncrease(start, k, k + 1);
  }

  predicate IsPaymentDate(d: Date, paymentDay: nat) {
    ValidDate(d) && d.day == paymentDay
  }

  predicate InCourseMonth(start: Date, k: nat, d: Date) {
    MonthDay(start, k) <= DayNumber(d) < MonthDay(start, k + 1)
  }

  /** No payment day of the course month comes before the due day. */
  lemma DueDayIsFirst(start: Date, k: nat, paymentDay: nat, d: Date)
    requires ValidDate(start) && PaymentDay(paymentDay) && IsPaymentDate(d, paymentDay)
    requires InCourseMonth(start, k, d)
    ensures DueDay(start, k, paymentDay) <= DayNumber(d)
  {
    var here, next := CourseMonth(start, k), CourseMonth(start, k + 1);
    DayOrder(d, here);
    DayOrder(next, d);
    if d.month == here.month {
      assert d == DayOfMonth(here.month, paymentDay);
    } else {
      assert d == DayOfMonth(next.month, paymentDay);
    }
  }

  /** `due` is a date with the student's payment day. */
  ghost predicate OnPaymentDay(due: int, paymentDay: nat) {
    exists d: Date :: IsPaymentDate(d, paymentDay) && DayNumber(d) == due
  }

  /** The due day is the first payment day of the course month, or, when the course
      month has none, its last day. */
  lemma DueDayMeaning(start: Date, k: nat, paymentDay: nat)
    requires ValidDate(start) && PaymentDay(paymentDay)
    ensures MonthDay(start, k) <= DueDay(start, k, paymentDay) < MonthDay(start, k + 1)
    ensures forall d: Date | IsPaymentDate(d, paymentDay) && InCourseMonth(start, k, d) ::
      DueDay(start, k, paymentDay) <= DayNumber(d)
    ensures OnPaymentDay(DueDay(start, k, paymentDay), paymentDay)
         || DueDay(start, k, paymentDay) == MonthDay(start, k + 1) - 1
  {
    DueDayInMonth(start, k, paymentDay);
    forall d: Date | IsPaymentDate(d, paymentDay) && InCourseMonth(start, k, d)
      ensures DueDay(start, k, paymentDay) <= DayNumber(d)
    {
      DueDayIsFirst(start, k, paymentDay, d);
    }
    var here, next := CourseMonth(start, k), CourseMonth(start, k + 1);
    assert IsPaymentDate(DayOfMonth(here.month, paymentDay), paymentDay);
    assert IsPaymentDate(DayOfMonth(next.month, paymentDay), paymentDay);
  }

  /** A course that starts on the 31st of January of a common year, with payments due on
      the 28th: its first month has no payment day and is due on its last day, its second
      month has two. */
  lemma {:induction false} NoPaymentDayThenTwo(january: nat)
    requires january % 12 == 0 && !Leap(january / 12)
    ensures var start := Date(january, 31);
      && ValidDate(start)
      && (forall d: Date | IsPaymentDate(d, 28) :: !InCourseMonth(start, 0, d))
      && DueDay(start, 0, 28) == MonthDay(start, 1) - 1
      && IsPaymentDate(Date(january + 1, 28), 28) && InCourseMonth(start, 1, Date(january + 1, 28))
      && IsPaymentDate(Date(january + 2, 28), 28) && InCourseMonth(start, 1, Date(january + 2, 28))
  {
    var start := Date(january, 31);
    assert (january + 1) % 12 == 1 && (january + 1) / 12 == january / 12 && (january + 2) % 12 == 2;
    assert CourseMonth(start, 0) == start && CourseMonth(start, 1) == Date(january + 1, 28) &&
      CourseMonth(start, 2) == Date(january + 2, 31);
    DayOrder(Date(january + 1, 28), Date(january + 2, 28));
    DayOrder(Date(january + 2, 28), Date(january + 2, 31));
    forall d: Date | IsPaymentDate(d, 28) ensures !InCourseMonth(start, 0, d) {
      DayOrder(d, start);
      DayOrder(d, Date(january + 1, 28));
    }
  }

  // ---------------------------------------------------------------------------
  // The plan
  // ---------------------------------------------------------------------------

  function DefaultPaymentDay(start: Date): nat { Min(28, start.day) }

  /** A student without a payment day of their own pays on the day the course starts, the
      28th at the latest. */
  lemma DefaultDayMeaning(start: Date)
    requires ValidDate(start)
    ensures PaymentDay(DefaultPaymentDay(start))
    ensures DefaultPaymentDay(start) == start.day || (DefaultPaymentDay(start) == 28 && 28 < start.day)
  {
  }

  /** Installment `i` of the plan: month `i` of the billed run; the first is never due
      before the enrollment. */
  function Installment(start: Date, enrolled: int, paymentDay: nat, price: int, i: nat): PlannedCharge
    requires ValidDate(start)
  {
    var k := FirstBilled(start, enrolled) + i;
    var due := DueDay(start, k, paymentDay);
    PlannedCharge(i + 1, CourseMonth(start, k), if i == 0 then Max(due, enrolled) else due, price)
  }

  function Plan(start: Date, end: int, enrolled: int, paymentDay: nat, price: int): seq<PlannedCharge>
    requires ValidDate(start)
  {
    if enrolled >= end then []
    else
      seq(|BilledStarts(start, end, enrolled)|, i requires 0 <= i => Installment(start, enrolled, paymentDay, price, i))
  }

  /** `due` is the first payment day of course month `k`, or the last day of a month that
      has none. */
  ghost predicate FirstPaymentDay(start: Date, k: nat, paymentDay: nat, due: int)
    requires ValidDate(start)
  {
    && MonthDay(start, k) <= due < MonthDay(start, k + 1)
    && (forall d: Date | IsPaymentDate(d, paymentDay) && InCourseMonth(start, k, d) :: due <= DayNumber(d))
    && (OnPaymentDay(due, paymentDay) || due == MonthDay(start, k + 1) - 1)
  }

  /** The plan has one charge of the price for each billed month, numbered from one, due on
      the first payment day of its month; the first one is never due before the enrollment. */
  lemma PlanMeaning(start: Date, end: int, enrolled: int, paymentDay: nat, price: int, i: nat)
    requires ValidDate(start) && PaymentDay(paymentDay)
    ensures |Plan(start, end, enrolled, paymentDay, price)|
      == if enrolled >= end then 0 else |BilledStarts(start, end, enrolled)|
    ensures i < |Plan(start, end, enrolled, paymentDay, price)| ==>
      var p := Plan(start, end, enrolled, paymentDay, price)[i];
      && p.sequenceNo == i + 1 && p.amount == price && p.periodStart == BilledStarts(start, end, enrolled)[i]
      && exists k: nat, due :: p.periodStart == CourseMonth(start, k) && FirstPaymentDay(start, k, paymentDay, due)
           && p.dueDay == if i == 0 then Max(due, enrolled) else due
  {
    hide MonthStart, MonthDays, DueDay, FirstBilled, MonthCount, CourseMonth, OnPaymentDay, IsPaymentDate, DayNumber;
    var k := FirstBilled(start, enrolled) + i;
    DueDayMeaning(start, k, paymentDay);
    assert FirstPaymentDay(start, k, paymentDay, DueDay(start, k, paymentDay));
  }

  /** `plan_schedule`. */
  method PlanSchedule(start: Date, end: int, enrolled: int, paymentDay: nat, price: int)
    returns (planned: seq<PlannedCharge>)
    requires ValidDate(start) && DayNumber(start) < end
    ensures planned == Plan(start, end, enrolled, paymentDay, price)
  {
    hide MonthStart, MonthDays, MonthCount, FirstBilled, DayNumber, DayOfMonth;
    if enrolled >= end {
      return [];
    }
    planned := [];
    var starts := ScanBilledStarts(start, end, enrolled);
    ghost var first := FirstBilled(start, enrolled);
    for n := 0 to |starts|
      invariant |planned| == n
      invariant forall i :: 0 <= i < n ==> planned[i] == Installment(start, enrolled, paymentDay, price, i)
    {
      var here := starts[n];
      assert here == CourseMonth(start, first + n);
      var monthIndex: nat := here.month - start.month;
      var next := CourseMonth(start, monthIndex + 1);
      var due := DayNumber(DayOfMonth(here.month, paymentDay));
      if due < DayNumber(here) {
        due := DayNumber(DayOfMonth(next.month, paymentDay));
      }
      if due >= DayNumber(next) {
        due := DayNumber(next) - 1;
      }
      assert due == DueDay(start, first + n, paymentDay);
      if planned == [] {
        due := Max(due, enrolled);
      }
      planned := planned + [PlannedCharge(|planned| + 1, here, due, price)];
    }
  }

  /** The due day of month `k` of a run starting at `first`, where the first is moved
      to the enrollment date. */
  lemma RunDueDay(start: Date, enrolled: int, paymentDay: nat, i: nat)
    requires ValidDate(start) && PaymentDay(paymentDay)
    ensures var p := Installment(start, enrolled, paymentDay, 0, i);
      var k := FirstBilled(start, enrolled) + i;
      DayNumber(p.periodStart) <= p.dueDay < MonthDay(start, k + 1) && enrolled <= p.dueDay
  {
    hide MonthStart, MonthDays, DueDay;
    var first := FirstBilled(start, enrolled);
    DueDayInMonth(start, first + i, paymentDay);
    if 1 < i { CourseMonthsIncrease(start, first + 1, first + i); }
  }

  /** Every planned charge is due inside its own month, not before the enrollment, and
      its sequence number finds that month among the billed starts. */
  lemma {:induction false} DueInsideItsMonth(start: Date, end: int, enrolled: int, paymentDay: nat, price: int, i: nat)
    requires ValidDate(start) && PaymentDay(paymentDay)
    requires i < |Plan(start, end, enrolled, paymentDay, price)|
    ensures var p := Plan(start, end, enrolled, paymentDay, price)[i];
      && 1 <= p.sequenceNo <= |BilledStarts(start, end, enrolled)|
      && p.periodStart == BilledStarts(start, end, enrolled)[p.sequenceNo - 1]
      && DayNumber(p.periodStart) <= p.dueDay < MonthDay(start, FirstBilled(start, enrolled) + i + 1)
      && enrolled <= p.dueDay
  {
    hide MonthStart, MonthDays, DueDay, FirstBilled, MonthCount;
    RunDueDay(start, enrolled, paymentDay, i);
  }

  lemma {:induction false} RunDueDaysIncrease(start: Date, enrolled: int, paymentDay: nat, price: int, i: nat, j: nat)
    requires ValidDate(start) && PaymentDay(paymentDay) && i < j
    ensures Installment(start, enrolled, paymentDay, price, i).dueDay
      < Installment(start, enrolled, paymentDay, price, j).dueDay
    ensures DayNumber(Installment(start, enrolled, paymentDay, price, i).periodStart)
          < DayNumber(Installment(start, enrolled, paymentDay, price, j).periodStart)
  {
    hide MonthDays, MonthStart, DueDay;
    RunDueDay(start, enrolled, paymentDay, i);
    RunDueDay(start, enrolled, paymentDay, j);
    var first := FirstBilled(start, enrolled);
    CourseMonthsIncrease(start, first + i, first + j);
    if i + 1 < j { CourseMonthsIncrease(start, first + i + 1, first + j); }
  }

  /** Due dates strictly increase along the plan, even after the first is moved. */
  lemma {:induction false} DueDatesIncrease(start: Date, end: int, enrolled: int, paymentDay: nat, price: int)
    requires ValidDate(start) && PaymentDay(paymentDay)
    ensures var plan := Plan(start, end, enrolled, paymentDay, price);
      forall i, j :: 0 <= i < j < |plan| ==>
        plan[i].dueDay < plan[j].dueDay && DayNumber(plan[i].periodStart) < DayNumber(plan[j].periodStart)
  {
    var plan := Plan(start, end, enrolled, paymentDay, price);
    forall i, j | 0 <= i < j < |plan|
      ensures plan[i].dueDay < plan[j].dueDay && DayNumber(plan[i].periodStart) < DayNumber(plan[j].periodStart)
    {
      RunDueDaysIncrease(start, enrolled, paymentDay, price, i, j);
    }
  }
}
