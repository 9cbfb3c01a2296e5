/**
 Every mutation of the ledger as one step on the tables.  A request that is turned down
 is rolled back, so it leaves the tables as they are.
 */
module Operations {
  import opened Wrappers
  import opened Sums
  import opened Tables
  import opened Payments
  import opened Reversals
  import opened Concessions
  import opened Withdrawals
  import opened Billing
  import opened Grants

  datatype Operation =
    | CreateCourse(newCourse: Course)
    | Enroll(student: int, course: nat, price: int, enrolledAt: nat, mode: BillingMode, paymentDay: Option<nat>,
      today: int,
             courseActive: bool, studentActive: bool)
    | Generate(enrollment: nat, paymentDay: Option<nat>)
    | Pay(student: int, course: nat, targets: Option<seq<Portion>>, paid: int, at: nat, recorder: int)
    | GiveDiscount(student: int, charge: nat, amount: Money, at: nat, recorder: int)
    | Adjust(student: int, amount: Money, at: nat, recorder: int, superAdmin: bool)
    | VoidPayment(payment: nat, now: nat, recorder: int)
    | RefundPayment(payment: nat, amount: Money, toWallet: bool, now: nat, recorder: int, financeStaff: bool)
    | Allocate(student: int, charge: nat, requested: Option<Money>)
    | AllocateCourse(student: int, enrollment: nat, requested: Option<Money>)
    | AutoAllocate(student: int, preferred: Option<nat>)
    | Withdraw(enrollment: nat, actor: Option<int>, today: int, now: nat)
    | ChangeMode(enrollment: nat, target: BillingMode, paymentDay: Option<nat>, today: int, now: nat, recorder: int)
    | ClosePeriod(period: nat, superAdmin: bool)
    | ReopenPeriod(period: nat, superAdmin: bool)

  function ErrorOf(db: Db, op: Operation): Option<LedgerError> {
    match op
    case CreateCourse(course) => if CourseOk(course) then None else Some(InvalidTarget)
    case Enroll(student, course, price, _, _, _, today, courseActive, studentActive) =>
      EnrollError(db, student, course, price, today, courseActive, studentActive)
    case Generate(enrollment, _) => if EnrollmentReady(db, enrollment) then None else Some(NotFound)
    case Pay(student, course, targets, paid, at, _) =>
      (match PaymentCheck(db, student, course, targets, paid, at) case Success(_) => None case Failure(e) => Some(e))
    case GiveDiscount(student, charge, amount, at, _) => DiscountError(db, student, charge, amount, at)
    case Adjust(_, _, at, _, superAdmin) => AdjustmentError(db, at, superAdmin)
    case VoidPayment(payment, now, _) => VoidError(db, payment, now)
    case RefundPayment(payment, amount, _, now, _, financeStaff) => RefundError(db, payment, amount, now, financeStaff)
    case Allocate(student, charge, requested) => AllocateError(db, student, charge, requested)
    case AllocateCourse(student, enrollment, requested) => CourseCreditError(db, student, enrollment, requested)
    case AutoAllocate(_, _) => None
    case Withdraw(enrollment, actor, today, _) => WithdrawError(db, enrollment, actor, today)
    case ChangeMode(enrollment, target, _, today, now, _) => ModeError(db, enrollment, target, today, now)
    case ClosePeriod(_, superAdmin) => if superAdmin then None else Some(Forbidden)
    case ReopenPeriod(period, superAdmin) =>
      if !superAdmin then Some(Forbidden) else if period !in db.periods then Some(NotFound) else None
  }

  function Effect(db: Db, op: Operation): Db
    requires ErrorOf(db, op).None?
  {
    match op
    case CreateCourse(course) => db.(courses := db.courses + [course])
    case Enroll(student, course, price, enrolledAt, mode, paymentDay, _, _, _) =>
      AfterEnroll(db, student, course, price, enrolledAt, mode, paymentDay)
    case Generate(enrollment, paymentDay) => AfterGenerate(db, enrollment, paymentDay)
    case Pay(student, course, targets, paid, at, recorder) =>
      AfterPayment(db, student, PaymentCheck(db, student, course, targets, paid, at).value, paid, at, recorder)
    case GiveDiscount(student, charge, amount, at, recorder) => AfterDiscount(db, student, charge, amount, at, recorder)
    case Adjust(student, amount, at, recorder, _) => AfterAdjustment(db, student, amount, at, recorder)
    case VoidPayment(payment, now, recorder) => AfterVoid(db, payment, now, recorder)
    case RefundPayment(payment, amount, toWallet, now, recorder, _) =>
      AfterRefund(db, payment, amount, toWallet, now, recorder)
    case Allocate(student, charge, requested) =>
      AfterAllocate(db, student, charge, CreditAmount(db, student, Remaining(db, charge), requested))
    case AllocateCourse(student, enrollment, requested) =>
      AfterCourseCredit(db, student, enrollment, CourseCreditAmount(db, student, enrollment, requested))
    case AutoAllocate(student, preferred) => AfterAutoAllocate(db, student, preferred)
    case Withdraw(enrollment, actor, today, now) => AfterWithdraw(db, enrollment, actor, today, now)
    case ChangeMode(enrollment, target, paymentDay, today, now, recorder) =>
      AfterModeChange(db, enrollment, target, paymentDay, today, now, recorder)
    case ClosePeriod(period, _) => db.(periods := db.periods[period := PeriodClosed])
    case ReopenPeriod(period, _) => db.(periods := db.periods[period := PeriodOpen])
  }

  function Next(db: Db, op: Operation): Db {
    if ErrorOf(db, op).None? then Effect(db, op) else db
  }

  /** The tables after a sequence of requests, one after the other. */
  function Run(db: Db, ops: seq<Operation>): Db {
    if ops == [] then db else Next(Run(db, ops[..|ops| - 1]), ops[|ops| - 1])
  }

  ghost predicate Good(db: Db) { Integrity(db) && Scheduled(db) }

  /** What an accepted request adds to what a student owes less what the student holds. */
  function Value(db: Db, op: Operation, student: int): int
    requires ErrorOf(db, op).None?
  {
    match op
    case Enroll(s, course, price, enrolledAt, mode, paymentDay, _, _, _) =>
      if student == s then PlanTotal(EnrollmentPlan(db, s, course, price, enrolledAt, mode, paymentDay), price) else 0
    case Generate(enrollment, paymentDay) =>
      if student == db.enrollments[enrollment].student && db.enrollments[enrollment].mode != Grant &&
        !HasCharges(db, enrollment)
      then PlanTotal(PlanOf(db, enrollment, paymentDay), db.enrollments[enrollment].price) else 0
    case Pay(s, _, _, paid, _, _) => if student == s then 0 - paid else 0
    case GiveDiscount(s, _, amount, _, _) => if student == s then 0 - amount else 0
    case Adjust(s, amount, _, _, _) => if student == s then 0 - amount else 0
    case VoidPayment(payment, _, _) => if student == db.entries[payment].student then db.entries[payment].amount else 0
    case RefundPayment(payment, amount, toWallet, _, _, _) =>
      if student == db.entries[payment].student && !toWallet then amount else 0
    case Withdraw(enrollment, _, today, _) =>
      if student == db.enrollments[enrollment].student && db.enrollments[enrollment].status != Withdrawn
      then Sum(db.allocations, ConcessionBack(db.entries, FutureCharges(db, enrollment, today)))
         - Sum(db.charges, AmountIn(FutureCharges(db, enrollment, today)))
      else 0
    case ChangeMode(enrollment, target, paymentDay, today, _, _) =>
      if student != db.enrollments[enrollment].student then 0
      else if target == Grant then
        var cs := FutureCharges(db, enrollment, today);
        -(Sum(cs, CancelledIn(db)) + Sum(cs, WrittenOffIn(db)))
      else
        var billed := WithMode(db, enrollment, Paid);
        PlanTotal(Missing(billed, enrollment, today, PlanOf(billed, enrollment, paymentDay)),
          db.enrollments[enrollment].price)
    case _ => 0
  }

  // ---------------------------------------------------------------------------
  // What every request starts from
  // ---------------------------------------------------------------------------

  lemma GoodIsSound(db: Db)
    requires Good(db)
    ensures Integrity(db) && RowsOk(db) && Scheduled(db)
  {
  }

  lemma SoundIsGood(db: Db)
    requires Integrity(db) && Scheduled(db)
    ensures Good(db)
  {
  }

  lemma GoodIsReady(db: Db, enrollment: nat)
    requires Good(db) && enrollment < |db.enrollments|
    ensures EnrollmentReady(db, enrollment)
  {
    assert EnrollmentRowOk(db, enrollment);
  }

  lemma EnrolledIsGood(db: Db, e: Enrollment)
    requires Good(db) && e.course < |db.courses| && 0 < e.price <= MAX_CENTS
    ensures Good(AddEnrollment(db, e))
  {
    AddEnrollmentEffect(db, e, e.student);
  }

  /** Generating is never refused for an enrollment that exists. */
  lemma GenerateStep(db: Db, enrollment: nat, paymentDay: Option<nat>)
    requires Good(db) && enrollment < |db.enrollments|
    ensures Next(db, Generate(enrollment, paymentDay)) == AfterGenerate(db, enrollment, paymentDay)
  {
    GoodIsReady(db, enrollment);
  }
}
