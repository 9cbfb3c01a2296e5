/**
 The due dates of every charge ever raised: whatever happened since, a charge is due in
 the course month its sequence number stands for.
 */
module Dues {
  import opened Wrappers
  import opened Calendar
  import opened Schedule
  import opened Tables
  import opened Posting
  import opened Payments
  import opened Reversals
  import opened Withdrawals
  import opened Billing
  import opened Grants
  import opened Operations
  import opened Runs
  import opened History
  import Crediting

  /** The course month of installment `n` of an enrollment. */
  function MonthOfInstallment(db: Db, enrollment: nat, n: nat): int
    requires EnrollmentReady(db, enrollment)
  {
    var e := db.enrollments[enrollment];
    FirstBilled(db.courses[e.course].start, LocalDay(e.enrolledAt)) + n - 1
  }

  /** A tuition charge of its enrollment's price, for a course month that starts before the
      course ends, due inside that month and not before the enrollment. */
  predicate IsDue(db: Db, c: Charge) {
    && EnrollmentReady(db, c.enrollment)
    && c.kind == Tuition && c.amount == db.enrollments[c.enrollment].price
    && 1 <= c.sequenceNo <= |Starts(db, c.enrollment)|
    && var e, k := db.enrollments[c.enrollment], MonthOfInstallment(db, c.enrollment, c.sequenceNo);
       var start := db.courses[e.course].start;
       && 0 <= k && Starts(db, c.enrollment)[c.sequenceNo - 1] == CourseMonth(start, k)
       && MonthDay(start, k) < DayNumber(db.courses[e.course].end)
       && MonthDay(start, k) <= c.due < MonthDay(start, k + 1)
       && LocalDay(e.enrolledAt) <= c.due
  }

  ghost predicate AllDue(db: Db) {
    forall c :: 0 <= c < |db.charges| ==> IsDue(db, db.charges[c])
  }

  /** A student's payment day is 1..28, or not set. */
  predicate DayOk(paymentDay: Option<nat>) { paymentDay.None? || paymentDay.value <= 28 }

  predicate DaysOk(op: Operation) {
    match op
    case Enroll(_, _, _, _, _, paymentDay, _, _, _) => DayOk(paymentDay)
    case Generate(_, paymentDay) => DayOk(paymentDay)
    case ChangeMode(_, _, paymentDay, _, _, _) => DayOk(paymentDay)
    case _ => true
  }

  // ---------------------------------------------------------------------------
  // New charges
  // ---------------------------------------------------------------------------

  lemma {:induction false} PlannedIsDue(db: Db, enrollment: nat, paymentDay: Option<nat>, i: nat, id: nat)
    requires EnrollmentReady(db, enrollment) && DayOk(paymentDay) && i < |PlanOf(db, enrollment, paymentDay)|
    ensures IsDue(db, ChargeFromPlan(id, enrollment, db.enrollments[enrollment].student,
      PlanOf(db, enrollment, paymentDay)[i]))
  {
    hide MonthStart, MonthDays, DueDay, FirstBilled, MonthCount, LocalDay;
    var e := db.enrollments[enrollment];
    var course := db.courses[e.course];
    BilledMonth(course.start, DayNumber(course.end), LocalDay(e.enrolledAt), i);
    DueInsideItsMonth(course.start, DayNumber(course.end), LocalDay(e.enrolledAt),
      StudentPaymentDay(course.start, paymentDay), e.price, i);
  }

  /** Charges for months of the plan are due. */
  lemma {:induction false} NewChargesAreDue(db: Db, enrollment: nat, paymentDay: Option<nat>, plan: seq<PlannedCharge>)
    requires AllDue(db) && EnrollmentReady(db, enrollment) && DayOk(paymentDay)
    requires forall k :: 0 <= k < |plan| ==> plan[k] in PlanOf(db, enrollment, paymentDay)
    ensures AllDue(AddCharges(db, ChargesFromPlan(db, enrollment, db.enrollments[enrollment].student, plan)))
  {
    hide PlanOf, Starts, CourseOk, MonthOfInstallment, MonthDay, LocalDay;
    var rows := ChargesFromPlan(db, enrollment, db.enrollments[enrollment].student, plan);
    var next, n := AddCharges(db, rows), |db.charges|;
    forall c | 0 <= c < |next.charges| ensures IsDue(next, next.charges[c]) {
      if c < n {
        TermsCarry(db, next, db.charges[c], next.charges[c]);
      } else {
        assert plan[c - n] in PlanOf(db, enrollment, paymentDay);
        var i :| 0 <= i < |PlanOf(db, enrollment, paymentDay)| && PlanOf(db, enrollment, paymentDay)[i] == plan[c - n];
        PlannedIsDue(db, enrollment, paymentDay, i, c);
        TermsCarry(db, next, next.charges[c], next.charges[c]);
      }
    }
  }

  // ---------------------------------------------------------------------------
  // The terms of an enrollment
  // ---------------------------------------------------------------------------

  /** Courses are fixed and an enrollment changes its status and mode only. */
  ghost predicate TermsKept(db: Db, next: Db) {
    && db.courses <= next.courses && |db.enrollments| <= |next.enrollments|
    && forall i :: 0 <= i < |db.enrollments| ==>
         next.enrollments[i] == db.enrollments[i].(status := next.enrollments[i].status,
           mode := next.enrollments[i].mode)
  }

  lemma {:induction false} TermsCarry(db: Db, next: Db, before: Charge, after: Charge)
    requires TermsKept(db, next) && IsDue(db, before) && after == before.(id := after.id, status := after.status)
    ensures IsDue(next, after)
  {
    hide CourseOk, BilledStarts, FirstBilled, MonthDay, LocalDay, CourseMonth;
    var e := db.enrollments[before.enrollment];
    assert EnrollmentRowOk(next, before.enrollment);
    assert next.courses[e.course] == db.courses[e.course];
  }

  lemma DueIsKept(db: Db, next: Db)
    requires AllDue(db) && TermsKept(db, next) && |next.charges| == |db.charges|
    requires forall c :: 0 <= c < |db.charges| ==> next.charges[c] == db.charges[c].(status := next.charges[c].status)
    ensures AllDue(next)
  {
    hide IsDue;
    forall c | 0 <= c < |next.charges| ensures IsDue(next, next.charges[c]) {
      TermsCarry(db, next, db.charges[c], next.charges[c]);
    }
  }

  /** The steps that raise no charge. */
  lemma {:induction false} QuietStepKeepsTerms(db: Db, op: Operation)
    requires Good(db) && ErrorOf(db, op).None?
    requires !op.Enroll? && !op.Generate? && !(op.ChangeMode? && op.target == Paid)
    ensures TermsKept(db, Effect(db, op)) && |Effect(db, op).charges| == |db.charges|
  {
    hide RowsForPayment, Crediting.CreditRows, PlanOf, Starts, Stamped, Survivors, Integrity, Good, AfterConvert;
    hide FutureCharges, StatusFor, OpenBalance, Wallet;
    if op.ChangeMode? {
      ConvertKeepsEnrollments(db, op.enrollment, op.today, op.now, op.recorder);
      var cs := FutureCharges(db, op.enrollment, op.today);
      ConvertKeepsCharges(db, op.enrollment, op.today, op.now, op.recorder);
    }
  }

  lemma ConvertKeepsCharges(db: Db, enrollment: nat, today: int, now: nat, actor: int)
    ensures |AfterConvert(db, enrollment, today, now, actor).charges| == |db.charges|
  {
    var cs := FutureCharges(db, enrollment, today);
    StepsKeepCharges(db, cs, |cs|, now, actor);
  }

  lemma {:induction false} StepsKeepCharges(db: Db, charges: seq<nat>, k: nat, now: nat, actor: int)
    requires k <= |charges|
    ensures |GrantSteps(db, charges, k, now, actor).charges| == |db.charges|
  {
    hide Crediting.CreditRows, ActiveOn;
    if 0 < k { StepsKeepCharges(db, charges, k - 1, now, actor); }
  }

  lemma {:induction false} BillingStepIsDue(db: Db, op: Operation)
    requires Good(db) && AllDue(db) && DaysOk(op) && ErrorOf(db, op).None?
    requires op.Enroll? || op.Generate? || (op.ChangeMode? && op.target == Paid)
    ensures AllDue(Effect(db, op))
  {
    hide IsDue, PlanOf, Starts, CourseOk, Missing, Integrity, Scheduled, DayNumber;
    match op {
      case Enroll(student, course, price, enrolledAt, mode, paymentDay, _, _, _) =>
        var e := Enrollment(student, course, price, enrolledAt, Active, mode);
        var added := AddEnrollment(db, e);
        AddEnrollmentEffect(db, e, student);
        DueIsKept(db, added);
        GenerateIsDue(added, |db.enrollments|, paymentDay);
      case Generate(enrollment, paymentDay) => GenerateIsDue(db, enrollment, paymentDay);
      case ChangeMode(enrollment, _, paymentDay, today, _, _) =>
        var paid := WithMode(db, enrollment, Paid);
        DueIsKept(db, paid);
        StartsKept(db, paid, enrollment);
        ResumeIsDue(paid, enrollment, paymentDay, today);
    }
  }

  lemma {:induction false} GenerateIsDue(db: Db, enrollment: nat, paymentDay: Option<nat>)
    requires AllDue(db) && DayOk(paymentDay)
    ensures AllDue(AfterGenerate(db, enrollment, paymentDay))
  {
    hide IsDue, PlanOf, Starts, CourseOk;
    if EnrollmentReady(db, enrollment) {
      NewChargesAreDue(db, enrollment, paymentDay, PlanOf(db, enrollment, paymentDay));
    }
  }

  lemma {:induction false} ResumeIsDue(db: Db, enrollment: nat, paymentDay: Option<nat>, today: int)
    requires AllDue(db) && DayOk(paymentDay)
    ensures AllDue(AfterResume(db, enrollment, paymentDay, today))
  {
    hide IsDue, PlanOf, Starts, CourseOk, Missing;
    if EnrollmentReady(db, enrollment) {
      var plan := PlanOf(db, enrollment, paymentDay);
      var missing := Missing(db, enrollment, today, plan);
      forall k | 0 <= k < |missing| ensures missing[k] in plan { MissingRow(db, enrollment, today, plan, k); }
      NewChargesAreDue(db, enrollment, paymentDay, missing);
    }
  }

  /** Every charge of every reachable state is due in its own course month. */
  lemma {:induction false} ReachableChargesAreDue(ops: seq<Operation>)
    requires forall k :: 0 <= k < |ops| ==> DaysOk(ops[k])
    ensures AllDue(Run(EMPTY, ops))
  {
    hide IsDue, Effect, ErrorOf, Good, DaysOk;
    if ops != [] {
      var front, op := ops[..|ops| - 1], ops[|ops| - 1];
      var before := Run(EMPTY, front);
      ReachableChargesAreDue(front);
      RunConserves(front, 0);
      GoodIsSound(before);
      StepGrows(before, op);
      if ErrorOf(before, op).None? {
        if op.Enroll? || op.Generate? || (op.ChangeMode? && op.target == Paid) {
          BillingStepIsDue(before, op);
        } else {
          QuietStepKeepsTerms(before, op);
          DueIsKept(before, Run(EMPTY, ops));
        }
      }
    }
  }

  lemma {:induction false} InstallmentsInOrder(db: Db, c: Charge, d: Charge)
    requires IsDue(db, c) && IsDue(db, d) && c.enrollment == d.enrollment && c.sequenceNo < d.sequenceNo
    ensures c.due < d.due
  {
    hide MonthDay, FirstBilled, Starts, LocalDay, DayNumber;
    var start := db.courses[db.enrollments[c.enrollment].course].start;
    var j, k := MonthOfInstallment(db, c.enrollment, c.sequenceNo), MonthOfInstallment(db, c.enrollment, d.sequenceNo);
    assert k == j + (d.sequenceNo - c.sequenceNo);
    if j + 1 < k { CourseMonthsIncrease(start, j + 1, k); }
  }

  /** Some sequence of requests with proper payment days leads to these tables. */
  ghost predicate ReachableWithDays(db: Db) {
    exists ops :: Run(EMPTY, ops) == db && forall k :: 0 <= k < |ops| ==> DaysOk(ops[k])
  }

  /** So a later installment of an enrollment is due later, whatever payment day its
      student had when it was raised. */
  lemma {:induction false} LaterInstallmentsAreDueLater(db: Db, c: nat, d: nat)
    requires ReachableWithDays(db) && c < |db.charges| && d < |db.charges|
    requires db.charges[c].enrollment == db.charges[d].enrollment && db.charges[c].sequenceNo < db.charges[d].sequenceNo
    ensures db.charges[c].due < db.charges[d].due
  {
    hide Run, DaysOk, IsDue;
    var ops :| Run(EMPTY, ops) == db && forall k :: 0 <= k < |ops| ==> DaysOk(ops[k]);
    ReachableChargesAreDue(ops);
    InstallmentsInOrder(db, db.charges[c], db.charges[d]);
  }

  // ---------------------------------------------------------------------------
  // Months that start from a day on
  // ---------------------------------------------------------------------------

  /** The course month a day lies in starts on `from` or later. */
  ghost predicate InMonthFrom(start: Date, day: int, from: int)
    requires ValidDate(start)
  {
    exists k: nat :: from <= MonthDay(start, k) <= day < MonthDay(start, k + 1)
  }

  /** A withdrawal and a grant conversion on a day take a live charge exactly when the
      course month it is due in starts on that day or later. */
  lemma {:induction false} TakenByDueDate(db: Db, enrollment: nat, day: int, c: nat)
    requires AllDue(db) && RowsOk(db) && enrollment < |db.enrollments| && LiveTuition(db, enrollment, c)
    ensures EnrollmentReady(db, enrollment)
    ensures c in FutureCharges(db, enrollment, day) <==>
      InMonthFrom(db.courses[db.enrollments[enrollment].course].start, db.charges[c].due, day)
  {
    hide MonthStart, MonthDays, FirstBilled, CourseOk, LocalDay, CourseMonth, FutureCharges;
    FutureChargesSelected(db, enrollment, day);
    assert IsDue(db, db.charges[c]);
    var start := db.courses[db.enrollments[enrollment].course].start;
    var k := MonthOfInstallment(db, enrollment, db.charges[c].sequenceNo);
    StartIsValid(db, enrollment);
    assert c in FutureCharges(db, enrollment, day) <==> day <= MonthDay(start, k);
    if j: nat :| day <= MonthDay(start, j) <= db.charges[c].due < MonthDay(start, j + 1) {
      if j < k { MonthsApart(start, j, k); }
      if k < j { MonthsApart(start, k, j); }
    }
  }

  lemma StartIsValid(db: Db, enrollment: nat)
    requires EnrollmentReady(db, enrollment)
    ensures ValidDate(db.courses[db.enrollments[enrollment].course].start)
  {
  }

  lemma MonthsApart(start: Date, j: nat, k: nat)
    requires ValidDate(start) && j < k
    ensures MonthDay(start, j + 1) <= MonthDay(start, k)
  {
    if j + 1 < k { CourseMonthsIncrease(start, j + 1, k); }
  }
}
