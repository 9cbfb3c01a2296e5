/**
 Raising tuition: `generate_schedule_for_enrollment`, `enroll_student` and
 `resume_billing_after_grant`.
 */
module Billing {
  import opened Wrappers
  import opened Sums
  import opened Calendar
  import opened Schedule
  import opened Tables
  import opened Balances
  import opened Withdrawals

  // ---------------------------------------------------------------------------
  // New charges
  // ---------------------------------------------------------------------------

  function AddCharges(db: Db, rows: seq<Charge>): Db {
    db.(charges := db.charges + rows)
  }

  /** `_charge_from_plan`. */
  function ChargeFromPlan(id: nat, enrollment: nat, student: int, p: PlannedCharge): Charge {
    Charge(id, enrollment, student, p.sequenceNo, p.amount, p.dueDay, Tuition, Open)
  }

  function ChargesFromPlan(db: Db, enrollment: nat, student: int, plan: seq<PlannedCharge>): seq<Charge> {
    seq(|plan|, i requires 0 <= i < |plan| => ChargeFromPlan(|db.charges| + i, enrollment, student, plan[i]))
  }

  function PriceOf(): Charge -> int { (c: Charge) => c.amount }

  predicate NewChargeOk(db: Db, rows: seq<Charge>, student: int, i: nat)
    requires i < |rows|
  {
    var c := rows[i];
    && c.id == |db.charges| + i && 0 < c.amount <= MAX_CENTS && 1 <= c.sequenceNo && c.status == Open
    && c.student == student
    && c.enrollment < |db.enrollments| && db.enrollments[c.enrollment].student == student
  }

  lemma NothingOn(db: Db, c: nat)
    requires RowsOk(db) && |db.charges| <= c
    ensures ActiveOn(db, c) == 0
  {
    forall i | 0 <= i < |db.allocations| ensures OnCharge(c)(db.allocations[i]) == 0 { assert AllocationRowOk(db, i); }
    SumZero(db.allocations, OnCharge(c));
  }

  lemma AddChargesKeepsIntegrity(db: Db, rows: seq<Charge>, student: int)
    requires Integrity(db) && forall i :: 0 <= i < |rows| ==> NewChargeOk(db, rows, student, i)
    ensures Integrity(AddCharges(db, rows))
  {
    var next := AddCharges(db, rows);
    forall i | 0 <= i < |next.charges| ensures ChargeRowOk(next, i) && ChargeBalanced(next, i) {
      if i < |db.charges| { assert ChargeRowOk(db, i) && ChargeBalanced(db, i); }
      else { assert NewChargeOk(db, rows, student, i - |db.charges|); NothingOn(db, i); }
      assert ActiveOn(next, i) == ActiveOn(db, i);
    }
    forall i | 0 <= i < |next.entries|
      ensures EntryRowOk(next, i) && EntryCovered(next, i)
    {
      assert EntryRowOk(db, i) && EntryCovered(db, i);
    }
    forall i | 0 <= i < |next.allocations| ensures AllocationRowOk(next, i) { assert AllocationRowOk(db, i); }
    forall i | 0 <= i < |next.enrollments| ensures EnrollmentRowOk(next, i) { assert EnrollmentRowOk(db, i); }
  }

  /** New charges raise the debt by their amounts and change nothing else. */
  lemma {:induction false} AddChargesEffect(db: Db, rows: seq<Charge>, student: int, other: int)
    requires Integrity(db) && forall i :: 0 <= i < |rows| ==> NewChargeOk(db, rows, student, i)
    ensures Integrity(AddCharges(db, rows))
    ensures Outstanding(AddCharges(db, rows), other)
      == Outstanding(db, other) + (if other == student then Sum(rows, PriceOf()) else 0)
    ensures Wallet(AddCharges(db, rows), other) == Wallet(db, other)
  {
    var next := AddCharges(db, rows);
    AddChargesKeepsIntegrity(db, rows, student);
    forall i | 0 <= i < |db.allocations|
      ensures SettledFor(next.charges, other)(db.allocations[i]) == SettledFor(db.charges, other)(db.allocations[i])
    {
      assert AllocationRowOk(db, i);
    }
    SumAgree(db.allocations, SettledFor(next.charges, other), SettledFor(db.charges, other));
    SumConcat(db.charges, rows, BilledFor(other));
    forall i | 0 <= i < |rows| ensures BilledFor(other)(rows[i]) == if other == student then PriceOf()(rows[i]) else 0 {
      assert NewChargeOk(db, rows, student, i);
    }
    if other == student { SumAgree(rows, BilledFor(other), PriceOf()); } else { SumZero(rows, BilledFor(other)); }
  }

  // ---------------------------------------------------------------------------
  // Generating and resuming the tuition plan
  // ---------------------------------------------------------------------------

  /** `payment_day_of_month or min(28, start.day)`. */
  function StudentPaymentDay(start: Date, paymentDay: Option<nat>): nat {
    if paymentDay.Some? && paymentDay.value != 0 then paymentDay.value else DefaultPaymentDay(start)
  }

  function PlanOf(db: Db, enrollment: nat, paymentDay: Option<nat>): seq<PlannedCharge>
    requires EnrollmentReady(db, enrollment)
  {
    var e := db.enrollments[enrollment];
    var course := db.courses[e.course];
    Plan(course.start, DayNumber(course.end), LocalDay(e.enrolledAt), StudentPaymentDay(course.start, paymentDay),
      e.price)
  }

  predicate HasCharges(db: Db, enrollment: nat) {
    exists c :: 0 <= c < |db.charges| && db.charges[c].enrollment == enrollment
  }

  /** `generate_schedule_for_enrollment`: only for a paying enrollment without charges. */
  function AfterGenerate(db: Db, enrollment: nat, paymentDay: Option<nat>): Db {
    if !EnrollmentReady(db, enrollment) || db.enrollments[enrollment].mode == Grant || HasCharges(db, enrollment)
      then db
    else
      AddCharges(db, ChargesFromPlan(db, enrollment, db.enrollments[enrollment].student,
        PlanOf(db, enrollment, paymentDay)))
  }

  /** The enrollment already has a live charge for the month. */
  predicate Billed(db: Db, enrollment: nat, sequenceNo: nat) {
    exists c :: 0 <= c < |db.charges| && LiveTuition(db, enrollment, c) && db.charges[c].sequenceNo == sequenceNo
  }

  /** The planned months after `today` that have no live charge. */
  function Missing(db: Db, enrollment: nat, today: int, plan: seq<PlannedCharge>): seq<PlannedCharge> {
    if plan == [] then []
    else
      var front, last := Missing(db, enrollment, today, plan[..|plan| - 1]), plan[|plan| - 1];
      if DayNumber(last.periodStart) > today && !Billed(db, enrollment, last.sequenceNo) then front + [last] else front
  }

  /** `resume_billing_after_grant`. */
  function AfterResume(db: Db, enrollment: nat, paymentDay: Option<nat>, today: int): Db {
    if !EnrollmentReady(db, enrollment) then db
    else AddCharges(db, ChargesFromPlan(db, enrollment, db.enrollments[enrollment].student,
           Missing(db, enrollment, today, PlanOf(db, enrollment, paymentDay))))
  }

  lemma PlanRow(db: Db, enrollment: nat, paymentDay: Option<nat>, i: nat)
    requires RowsOk(db) && EnrollmentReady(db, enrollment) && i < |PlanOf(db, enrollment, paymentDay)|
    ensures var p := PlanOf(db, enrollment, paymentDay)[i];
      && p.sequenceNo == i + 1 && p.amount == db.enrollments[enrollment].price
      && p.sequenceNo <= |Starts(db, enrollment)| && p.periodStart == Starts(db, enrollment)[i]
      && InTime(db, enrollment)
  {
    hide MonthDays, MonthStart, DayNumber, FirstBilled, MonthCount, DueDay;
  }

  lemma {:induction false} MissingRow(db: Db, enrollment: nat, today: int, plan: seq<PlannedCharge>, k: nat)
    requires k < |Missing(db, enrollment, today, plan)|
    ensures var p := Missing(db, enrollment, today, plan)[k];
      && p in plan && DayNumber(p.periodStart) > today && !Billed(db, enrollment, p.sequenceNo)
  {
    var front := Missing(db, enrollment, today, plan[..|plan| - 1]);
    if k < |front| { MissingRow(db, enrollment, today, plan[..|plan| - 1], k); }
  }

  lemma {:induction false} MissingComplete(db: Db, enrollment: nat, today: int, plan: seq<PlannedCharge>, i: nat)
    requires i < |plan| && DayNumber(plan[i].periodStart) > today && !Billed(db, enrollment, plan[i].sequenceNo)
    ensures plan[i] in Missing(db, enrollment, today, plan)
  {
    if i < |plan| - 1 { MissingComplete(db, enrollment, today, plan[..|plan| - 1], i); }
  }

  lemma {:induction false} MissingDistinct(db: Db, enrollment: nat, today: int, plan: seq<PlannedCharge>)
    requires forall i, j :: 0 <= i < j < |plan| ==> plan[i].sequenceNo != plan[j].sequenceNo
    ensures forall i, j :: 0 <= i < j < |Missing(db, enrollment, today, plan)| ==>
      Missing(db, enrollment, today, plan)[i].sequenceNo != Missing(db, enrollment, today, plan)[j].sequenceNo
  {
    if plan != [] {
      var front := plan[..|plan| - 1];
      MissingDistinct(db, enrollment, today, front);
      forall k | 0 <= k < |Missing(db, enrollment, today, front)|
        ensures Missing(db, enrollment, today, front)[k].sequenceNo != plan[|plan| - 1].sequenceNo
      {
        MissingRow(db, enrollment, today, front, k);
      }
    }
  }

  /** Months to bill: billed months of the enrollment, each once, none already billed. */
  ghost predicate Billable(db: Db, enrollment: nat, plan: seq<PlannedCharge>) {
    && (forall i :: 0 <= i < |plan| ==>
          1 <= plan[i].sequenceNo <= |Starts(db, enrollment)| && InTime(db, enrollment)
          && enrollment < |db.enrollments| && plan[i].amount == db.enrollments[enrollment].price
          && !Billed(db, enrollment, plan[i].sequenceNo))
    && (forall i, j :: 0 <= i < j < |plan| ==> plan[i].sequenceNo != plan[j].sequenceNo)
  }

  lemma NewTuitionDistinct(db: Db, enrollment: nat, plan: seq<PlannedCharge>, c: nat, d: nat)
    requires RowsOk(db) && Scheduled(db) && Billable(db, enrollment, plan)
    requires enrollment < |db.enrollments| && c < d
    ensures var next := AddCharges(db, ChargesFromPlan(db, enrollment, db.enrollments[enrollment].student, plan));
      d < |next.charges| ==>
        LiveTuition(next, next.charges[c].enrollment, c) && LiveTuition(next, next.charges[c].enrollment, d) ==>
          next.charges[c].sequenceNo != next.charges[d].sequenceNo
  {
    hide Starts;
    var next, n := AddCharges(db, ChargesFromPlan(db, enrollment, db.enrollments[enrollment].student, plan)),
      |db.charges|;
    if d < |next.charges| && LiveTuition(next, next.charges[c].enrollment, c) &&
      LiveTuition(next, next.charges[c].enrollment, d) {
      var e := next.charges[c].enrollment;
      if d < n {
        assert LiveTuition(db, e, c) && LiveTuition(db, e, d);
      } else {
        assert next.charges[d] == ChargeFromPlan(d, enrollment, db.enrollments[enrollment].student, plan[d - n]);
        if c < n {
          assert LiveTuition(db, enrollment, c);
          assert !Billed(db, enrollment, plan[d - n].sequenceNo);
        } else {
          assert next.charges[c] == ChargeFromPlan(c, enrollment, db.enrollments[enrollment].student, plan[c - n]);
        }
      }
    }
  }

  /** Billing months that are not billed yet keeps one live charge per month. */
  lemma TuitionKeepsSchedule(db: Db, enrollment: nat, plan: seq<PlannedCharge>)
    requires RowsOk(db) && Scheduled(db) && EnrollmentReady(db, enrollment) && Billable(db, enrollment, plan)
    ensures Scheduled(AddCharges(db, ChargesFromPlan(db, enrollment, db.enrollments[enrollment].student, plan)))
  {
    hide Starts, CourseOk, Billed;
    var rows := ChargesFromPlan(db, enrollment, db.enrollments[enrollment].student, plan);
    var next, n := AddCharges(db, rows), |db.charges|;
    forall e, c | 0 <= e < |next.enrollments| && 0 <= c < |next.charges| && LiveTuition(next, e, c)
      ensures BillsMonth(next, e, c)
    {
      StartsKept(db, next, e);
      if c < n { assert LiveTuition(db, e, c) && BillsMonth(db, e, c); }
      else { assert next.charges[c] == ChargeFromPlan(c, enrollment, db.enrollments[enrollment].student, plan[c - n]); }
    }
    forall e: nat, c, d | 0 <= c < d < |next.charges| && LiveTuition(next, e, c) && LiveTuition(next, e, d)
      ensures next.charges[c].sequenceNo != next.charges[d].sequenceNo
    {
      NewTuitionDistinct(db, enrollment, plan, c, d);
    }
  }

  lemma GenerateBillable(db: Db, enrollment: nat, paymentDay: Option<nat>)
    requires RowsOk(db) && EnrollmentReady(db, enrollment) && !HasCharges(db, enrollment)
    ensures Billable(db, enrollment, PlanOf(db, enrollment, paymentDay))
  {
    var plan := PlanOf(db, enrollment, paymentDay);
    forall i | 0 <= i < |plan|
      ensures plan[i].sequenceNo == i + 1 <= |Starts(db, enrollment)|
      ensures plan[i].amount == db.enrollments[enrollment].price
      ensures InTime(db, enrollment)
    {
      PlanRow(db, enrollment, paymentDay, i);
    }
  }

  lemma {:induction false} ResumeBillable(db: Db, enrollment: nat, paymentDay: Option<nat>, today: int)
    requires RowsOk(db) && EnrollmentReady(db, enrollment)
    ensures Billable(db, enrollment, Missing(db, enrollment, today, PlanOf(db, enrollment, paymentDay)))
  {
    var plan := PlanOf(db, enrollment, paymentDay);
    var missing := Missing(db, enrollment, today, plan);
    forall i | 0 <= i < |plan|
      ensures plan[i].sequenceNo == i + 1 <= |Starts(db, enrollment)|
      ensures plan[i].amount == db.enrollments[enrollment].price
      ensures InTime(db, enrollment)
    {
      PlanRow(db, enrollment, paymentDay, i);
    }
    MissingDistinct(db, enrollment, today, plan);
    forall k | 0 <= k < |missing|
      ensures 1 <= missing[k].sequenceNo <= |Starts(db, enrollment)|
      ensures missing[k].amount == db.enrollments[enrollment].price
      ensures !Billed(db, enrollment, missing[k].sequenceNo)
    {
      MissingRow(db, enrollment, today, plan, k);
      var i :| 0 <= i < |plan| && plan[i] == missing[k];
    }
  }

  /** New charges bill exactly their own months. */
  lemma BilledAfterAdding(db: Db, enrollment: nat, plan: seq<PlannedCharge>, month: nat)
    requires enrollment < |db.enrollments|
    ensures Billed(AddCharges(db, ChargesFromPlan(db, enrollment, db.enrollments[enrollment].student, plan)),
      enrollment, month)
      <==> Billed(db, enrollment, month) || exists k :: 0 <= k < |plan| && plan[k].sequenceNo == month
  {
    var next, n := AddCharges(db, ChargesFromPlan(db, enrollment, db.enrollments[enrollment].student, plan)),
      |db.charges|;
    if Billed(next, enrollment, month) {
      var c :| 0 <= c < |next.charges| && LiveTuition(next, enrollment, c) && next.charges[c].sequenceNo == month;
      if c < n { assert LiveTuition(db, enrollment, c); } else { assert plan[c - n].sequenceNo == month; }
    }
    if Billed(db, enrollment, month) {
      var c :| 0 <= c < n && LiveTuition(db, enrollment, c) && db.charges[c].sequenceNo == month;
      assert LiveTuition(next, enrollment, c);
    }
    if k :| 0 <= k < |plan| && plan[k].sequenceNo == month {
      assert LiveTuition(next, enrollment, n + k);
    }
  }

  /** After a resume every planned month that starts after today has exactly one live
      charge, and no earlier month gained one. */
  lemma {:induction false} ResumeCovers(db: Db, enrollment: nat, paymentDay: Option<nat>, today: int, i: nat)
    requires RowsOk(db) && Scheduled(db) && EnrollmentReady(db, enrollment)
    requires i < |PlanOf(db, enrollment, paymentDay)|
    ensures var next := AfterResume(db, enrollment, paymentDay, today);
      var p := PlanOf(db, enrollment, paymentDay)[i];
      && Scheduled(next)
      && (Billed(next, enrollment, p.sequenceNo) <==>
        DayNumber(p.periodStart) > today || Billed(db, enrollment, p.sequenceNo))
  {
    hide PlanOf, Missing, Starts, CourseOk, DayNumber, Billed, Scheduled, RowsOk, Billable;
    var plan := PlanOf(db, enrollment, paymentDay);
    var missing := Missing(db, enrollment, today, plan);
    ResumeBillable(db, enrollment, paymentDay, today);
    TuitionKeepsSchedule(db, enrollment, missing);
    PlanRow(db, enrollment, paymentDay, i);
    BilledAfterAdding(db, enrollment, missing, i + 1);
    if DayNumber(plan[i].periodStart) > today && !Billed(db, enrollment, i + 1) {
      MissingComplete(db, enrollment, today, plan, i);
    }
    if k :| 0 <= k < |missing| && missing[k].sequenceNo == i + 1 {
      MissingRow(db, enrollment, today, plan, k);
      var j :| 0 <= j < |plan| && plan[j] == missing[k];
      PlanRow(db, enrollment, paymentDay, j);
    }
  }

  // ---------------------------------------------------------------------------
  // Enrolling
  // ---------------------------------------------------------------------------

  predicate EnrolledIn(db: Db, student: int, course: nat) {
    exists i :: 0 <= i < |db.enrollments| && db.enrollments[i].student == student && db.enrollments[i].course == course
  }

  function EnrollError(db: Db, student: int, course: nat, price: int, today: int, courseActive: bool,
                       studentActive: bool): Option<LedgerError> {
    if course >= |db.courses| || !courseActive then Some(CourseInactive)
    else if DayNumber(db.courses[course].end) <= today then Some(CourseEnded)
    else if !(0 < price <= MAX_CENTS) then Some(InvalidAmount)
    else if !studentActive then Some(StudentInactive)
    else if EnrolledIn(db, student, course) then Some(AlreadyEnrolled)
    else None
  }

  function AddEnrollment(db: Db, e: Enrollment): Db {
    db.(enrollments := db.enrollments + [e])
  }

  /** `enroll_student`: the enrollment row and its tuition plan. */
  function AfterEnroll(db: Db, student: int, course: nat, price: Money, enrolledAt: nat, mode: BillingMode,
                       paymentDay: Option<nat>): Db {
    AfterGenerate(AddEnrollment(db, Enrollment(student, course, price, enrolledAt, Active, mode)), |db.enrollments|,
      paymentDay)
  }

  lemma AddEnrollmentEffect(db: Db, e: Enrollment, student: int)
    requires Integrity(db) && Scheduled(db)
    requires e.course < |db.courses| && 0 < e.price <= MAX_CENTS
    ensures var next := AddEnrollment(db, e);
      && Integrity(next) && Scheduled(next)
      && EnrollmentReady(next, |db.enrollments|) && !HasCharges(next, |db.enrollments|)
      && Outstanding(next, student) == Outstanding(db, student) && Wallet(next, student) == Wallet(db, student)
  {
    hide CourseOk, BilledStarts;
    var next := AddEnrollment(db, e);
    forall i | 0 <= i < |db.charges|
      ensures ChargeRowOk(next, i) && ChargeBalanced(next, i)
    {
      assert ChargeRowOk(db, i) && ChargeBalanced(db, i);
    }
    forall i | 0 <= i < |db.entries|
      ensures EntryRowOk(next, i) && EntryCovered(next, i)
    {
      assert EntryRowOk(db, i) && EntryCovered(db, i);
    }
    forall i | 0 <= i < |db.allocations| ensures AllocationRowOk(next, i) { assert AllocationRowOk(db, i); }
    forall i | 0 <= i < |next.enrollments|
      ensures EnrollmentRowOk(next, i)
    {
      if i < |db.enrollments| { assert EnrollmentRowOk(db, i); }
    }
    forall n, c | 0 <= n < |next.enrollments| && 0 <= c < |next.charges| && LiveTuition(next, n, c)
      ensures BillsMonth(next, n, c)
    {
      assert ChargeRowOk(db, c);
      assert LiveTuition(db, n, c) && BillsMonth(db, n, c) && EnrollmentRowOk(db, n) && EnrollmentRowOk(next, n);
    }
    forall n: nat, c, d | 0 <= c < d < |next.charges| && LiveTuition(next, n, c) && LiveTuition(next, n, d)
      ensures next.charges[c].sequenceNo != next.charges[d].sequenceNo
    {
      assert LiveTuition(db, n, c) && LiveTuition(db, n, d);
    }
    assert EnrollmentRowOk(next, |db.enrollments|);
    forall c | 0 <= c < |db.charges|
      ensures next.charges[c].enrollment != |db.enrollments|
    {
      assert ChargeRowOk(db, c);
    }
  }

  /** What a batch of months costs. */
  function PlanTotal(plan: seq<PlannedCharge>, price: int): int { |plan| * price }

  lemma {:induction false} PlanCost(db: Db, enrollment: nat, plan: seq<PlannedCharge>, student: int, price: int)
    requires forall i :: 0 <= i < |plan| ==> plan[i].amount == price
    ensures Sum(ChargesFromPlan(db, enrollment, student, plan), PriceOf()) == PlanTotal(plan, price)
  {
    if plan != [] {
      var front, last := plan[..|plan| - 1], plan[|plan| - 1];
      PlanCost(db, enrollment, front, student, price);
      var rows := ChargesFromPlan(db, enrollment, student, plan);
      assert rows[..|plan| - 1] == ChargesFromPlan(db, enrollment, student, front);
    }
  }

  /** Billing months of an enrollment raises its student's debt by price times months. */
  lemma {:induction false} BillMonths(db: Db, enrollment: nat, plan: seq<PlannedCharge>, other: int)
    requires Integrity(db) && Scheduled(db) && EnrollmentReady(db, enrollment) && Billable(db, enrollment, plan)
    ensures var e := db.enrollments[enrollment];
      var next := AddCharges(db, ChargesFromPlan(db, enrollment, e.student, plan));
      && Integrity(next) && Scheduled(next)
      && Outstanding(next, other)
        == Outstanding(db, other) + (if other == e.student then PlanTotal(plan, e.price) else 0)
      && Wallet(next, other) == Wallet(db, other)
  {
    hide Starts, CourseOk;
    var e := db.enrollments[enrollment];
    AddChargesEffect(db, ChargesFromPlan(db, enrollment, e.student, plan), e.student, other);
    TuitionKeepsSchedule(db, enrollment, plan);
    PlanCost(db, enrollment, plan, e.student, e.price);
  }

  /** The months a new enrollment is billed for. */
  function EnrollmentPlan(db: Db, student: int, course: nat, price: Money, enrolledAt: nat, mode: BillingMode,
                          paymentDay: Option<nat>): seq<PlannedCharge> {
    var added := AddEnrollment(db, Enrollment(student, course, price, enrolledAt, Active, mode));
    if mode == Grant || !EnrollmentReady(added, |db.enrollments|) then []
      else PlanOf(added, |db.enrollments|, paymentDay)
  }

  /** Enrolling bills every planned month once, and nothing to a student on a grant. */
  lemma EnrollEffect(db: Db, student: int, course: nat, price: Money, enrolledAt: nat, mode: BillingMode,
                     paymentDay: Option<nat>, other: int)
    requires Integrity(db) && Scheduled(db) && course < |db.courses|
    ensures var next := AfterEnroll(db, student, course, price, enrolledAt, mode, paymentDay);
      var plan := EnrollmentPlan(db, student, course, price, enrolledAt, mode, paymentDay);
      && Integrity(next) && Scheduled(next)
      && Outstanding(next, other) == Outstanding(db, other) + (if other == student then PlanTotal(plan, price) else 0)
      && Wallet(next, other) == Wallet(db, other)
  {
    hide PlanOf, Starts, CourseOk, Integrity, Scheduled;
    var e := Enrollment(student, course, price, enrolledAt, Active, mode);
    var added, n := AddEnrollment(db, e), |db.enrollments|;
    AddEnrollmentEffect(db, e, other);
    if mode != Grant {
      IntegrityHasRows(added);
      GenerateBillable(added, n, paymentDay);
      BillMonths(added, n, PlanOf(added, n, paymentDay), other);
    }
  }

  lemma ResumeEffect(db: Db, enrollment: nat, paymentDay: Option<nat>, today: int, other: int)
    requires Integrity(db) && Scheduled(db) && EnrollmentReady(db, enrollment)
    ensures var next := AfterResume(db, enrollment, paymentDay, today);
      var e, plan := db.enrollments[enrollment], Missing(db, enrollment, today, PlanOf(db, enrollment, paymentDay));
      && Integrity(next) && Scheduled(next)
      && Outstanding(next, other)
        == Outstanding(db, other) + (if other == e.student then PlanTotal(plan, e.price) else 0)
      && Wallet(next, other) == Wallet(db, other)
  {
    hide PlanOf, Starts, CourseOk, Missing;
    ResumeBillable(db, enrollment, paymentDay, today);
    BillMonths(db, enrollment, Missing(db, enrollment, today, PlanOf(db, enrollment, paymentDay)), other);
  }

  // ---------------------------------------------------------------------------
  // The months already billed
  // ---------------------------------------------------------------------------

  lemma ExistingIsBilled(db: Db, enrollment: nat, existing: set<nat>)
    requires existing == set c | 0 <= c < |db.charges| && LiveTuition(db, enrollment, c) :: db.charges[c].sequenceNo
    ensures forall n: nat :: n in existing <==> Billed(db, enrollment, n)
  {
  }
}
