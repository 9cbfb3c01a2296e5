/**
 Why a request is turned down: for every request and every error the condition under
 which exactly that error is reported, in terms of the rows of the tables.
 */
module Refusals {
  import opened Wrappers
  import opened Sums
  import opened Calendar
  import opened Tables
  import opened Payments
  import opened Concessions
  import opened Withdrawals
  import opened Billing
  import opened Grants
  import opened Operations
  import opened Rules

  // ---------------------------------------------------------------------------
  // Payments
  // ---------------------------------------------------------------------------

  /** The first enrollment of the student in the course. */
  ghost predicate FirstIn(db: Db, student: int, course: nat, enrollment: nat) {
    && enrollment < |db.enrollments|
    && db.enrollments[enrollment].student == student && db.enrollments[enrollment].course == course
    && forall i :: 0 <= i < enrollment ==> db.enrollments[i].student != student || db.enrollments[i].course != course
  }

  /** The student has that enrollment, and it is not completed. */
  predicate CanBePaid(db: Db, student: int, p: Portion) {
    && p.enrollment < |db.enrollments| && db.enrollments[p.enrollment].student == student
    && db.enrollments[p.enrollment].status != Completed
  }

  predicate IsOwed(db: Db, p: Portion) { p.amount <= EnrollmentDebt(db, p.enrollment) }

  /** The first portion that cannot be paid or is not owed in full. */
  ghost predicate FirstBad(db: Db, student: int, portions: seq<Portion>, k: nat) {
    && k < |portions| && !(CanBePaid(db, student, portions[k]) && IsOwed(db, portions[k]))
    && forall i :: 0 <= i < k ==> CanBePaid(db, student, portions[i]) && IsOwed(db, portions[i])
  }

  /** The first bad portion is bad for this reason. */
  ghost predicate BadPortion(db: Db, student: int, portions: seq<Portion>, e: LedgerError) {
    exists k: nat :: FirstBad(db, student, portions, k) &&
      e == if CanBePaid(db, student, portions[k]) then ExceedsBalance(EnrollmentDebt(db, portions[k].enrollment))
      else InvalidTarget
  }

  /** Error `e` is reported for a payment of `paid` split into these portions. */
  ghost predicate PaymentRefused(db: Db, student: int, portions: seq<Portion>, paid: int, at: nat, e: LedgerError) {
    var proper := 0 < paid <= MAX_CENTS;
    var timely := proper && !IsClosed(db, PeriodKey(at));
    var summed := timely && Sum(portions, PortionAmount()) == paid;
    var repeated := exists i, j :: 0 <= i < j < |portions| && portions[i].enrollment == portions[j].enrollment;
    match e
    case InvalidAmount => !proper
    case ClosedPeriod => proper && !timely
    case SumMismatch => timely && !summed
    case DuplicateTarget => summed && repeated
    case InvalidTarget => summed && !repeated && BadPortion(db, student, portions, e)
    case ExceedsBalance(_) => summed && !repeated && BadPortion(db, student, portions, e)
    case _ => false
  }

  lemma {:induction false} FindsFirst(db: Db, student: int, course: nat, from: nat)
    requires forall i :: 0 <= i < from && i < |db.enrollments| ==>
      db.enrollments[i].student != student || db.enrollments[i].course != course
    ensures match FindEnrollment(db, student, course, from)
      case Some(n) => FirstIn(db, student, course, n)
      case None => !EnrolledIn(db, student, course)
    decreases |db.enrollments| - from
  {
    if from < |db.enrollments| && !(db.enrollments[from].student == student && db.enrollments[from].course == course) {
      FindsFirst(db, student, course, from + 1);
    }
  }

  /** What the open charges of an enrollment need is what it owes. */
  lemma OpenIsOwed(db: Db, enrollment: nat)
    requires Integrity(db)
    ensures OpenBalance(db, enrollment) == EnrollmentDebt(db, enrollment)
  {
    forall i | 0 <= i < |db.charges|
      ensures OpenNeed(db, enrollment)(db.charges[i]) == DebtOf(db, enrollment)(db.charges[i])
    {
      assert ChargeRowOk(db, i) && ChargeBalanced(db, i);
    }
    SumAgree(db.charges, OpenNeed(db, enrollment), DebtOf(db, enrollment));
  }

  /** The first portion with an error, and its error. */
  lemma {:induction false} FirstBadPortion(db: Db, student: int, portions: seq<Portion>) returns (k: nat)
    requires Integrity(db)
    ensures k <= |portions|
    ensures forall i :: 0 <= i < k ==> CanBePaid(db, student, portions[i]) && IsOwed(db, portions[i])
    ensures FirstTargetError(db, student, portions) ==
      if k == |portions| then None
      else if !CanBePaid(db, student, portions[k]) then Some(InvalidTarget)
      else Some(ExceedsBalance(EnrollmentDebt(db, portions[k].enrollment)))
    ensures k < |portions| ==> !CanBePaid(db, student, portions[k]) || !IsOwed(db, portions[k])
  {
    hide OpenBalance, EnrollmentDebt, Integrity;
    k := 0;
    if portions != [] {
      OpenIsOwed(db, portions[0].enrollment);
      if TargetError(db, student, portions[0]).None? {
        var rest := FirstBadPortion(db, student, portions[1..]);
        k := rest + 1;
        assert portions[1..][..rest] == portions[1..k];
      }
    }
  }

  lemma BadPortionReported(db: Db, student: int, portions: seq<Portion>, e: LedgerError)
    requires Integrity(db)
    ensures FirstTargetError(db, student, portions) == Some(e) <==> BadPortion(db, student, portions, e)
    ensures BadPortion(db, student, portions, e) ==> e.InvalidTarget? || e.ExceedsBalance?
  {
    hide EnrollmentDebt, Integrity, CanBePaid, IsOwed;
    var k := FirstBadPortion(db, student, portions);
    if k < |portions| { assert FirstBad(db, student, portions, k); }
  }

  /** A payment split into portions is turned down with an error exactly when that error's
      condition holds. */
  lemma {:induction false} PaymentRefusals(db: Db, op: Operation, e: LedgerError)
    requires Good(db) && op.Pay? && op.targets.Some?
    ensures ErrorOf(db, op) == Some(e) <==> PaymentRefused(db, op.student, op.targets.value, op.paid, op.at, e)
  {
    hide Integrity, Scheduled, PeriodKey, EnrollmentsOf, FirstTargetError, BadPortion, Sum;
    var portions := op.targets.value;
    DistinctByCount(portions);
    BadPortionReported(db, op.student, portions, e);
  }

  /** A payment that names a course is the payment of one portion for the student's first
      enrollment in it, and refused when there is none. */
  lemma PaymentForCourse(db: Db, op: Operation, enrollment: nat)
    requires op.Pay? && op.targets.None? && 0 < op.paid <= MAX_CENTS
    ensures FirstIn(db, op.student, op.course, enrollment) ==>
      var named := op.(targets := Some([Portion(enrollment, op.paid)]));
      ErrorOf(db, op) == ErrorOf(db, named) && Next(db, op) == Next(db, named)
    ensures !EnrolledIn(db, op.student, op.course) ==>
      ErrorOf(db, op) == Some(if IsClosed(db, PeriodKey(op.at)) then ClosedPeriod else InvalidTarget)
  {
    hide EnrollmentDebt, OpenBalance, FirstTargetError, HasDuplicate, PeriodKey, AfterPayment, Sum;
    FindsFirst(db, op.student, op.course, 0);
  }

  // ---------------------------------------------------------------------------
  // Every other request
  // ---------------------------------------------------------------------------

  /** Something is applied to a month of the enrollment that starts on `day` or later. */
  ghost predicate PaidAhead(db: Db, enrollment: nat, day: int) {
    exists i :: 0 <= i < |db.allocations| && db.allocations[i].reversedBy.None? &&
      StartsFrom(db, enrollment, day, db.allocations[i].charge)
  }

  /** Such a month is paid in part. */
  ghost predicate PartlyPaidAhead(db: Db, enrollment: nat, day: int) {
    exists c: nat :: PartlyPaid(db, enrollment, day, c)
  }

  ghost predicate EnrollRefused(db: Db, op: Operation, e: LedgerError)
    requires op.Enroll?
  {
    var given := op.course < |db.courses| && op.courseActive;
    var running := given && op.today < DayNumber(db.courses[op.course].end);
    var priced := running && 0 < op.price <= MAX_CENTS;
    match e
    case CourseInactive => !given
    case CourseEnded => given && !running
    case InvalidAmount => running && !priced
    case StudentInactive => priced && !op.studentActive
    case AlreadyEnrolled => priced && op.studentActive && EnrolledIn(db, op.student, op.course)
    case _ => false
  }

  ghost predicate DiscountRefused(db: Db, op: Operation, e: LedgerError)
    requires op.GiveDiscount?
  {
    var timely := !IsClosed(db, PeriodKey(op.at));
    var own := timely && op.charge < |db.charges| && db.charges[op.charge].student == op.student;
    match e
    case ClosedPeriod => !timely
    case NotFound => timely && !own
    case ChargeNotOpen => own && db.charges[op.charge].status != Open
    case ExceedsRemaining(most) =>
      own && db.charges[op.charge].status == Open && most == Remaining(db, op.charge) < op.amount
    case _ => false
  }

  predicate BothMonthsOpen(db: Db, p: nat, now: nat)
    requires p < |db.entries|
  {
    !IsClosed(db, PeriodKey(db.entries[p].at)) && !IsClosed(db, PeriodKey(now))
  }

  ghost predicate VoidRefused(db: Db, op: Operation, e: LedgerError)
    requires op.VoidPayment?
  {
    var p := op.payment;
    var refunded := NamedBy(db, p, Refund);
    match e
    case NotFound => p >= |db.entries| || db.entries[p].kind != Payment
    case AlreadyVoided => p < |db.entries| && db.entries[p].kind == Payment && !Standing(db, p)
    case AlreadyRefunded => Standing(db, p) && refunded
    case ClosedPeriod => Standing(db, p) && !refunded && !BothMonthsOpen(db, p, op.now)
    case _ => false
  }

  ghost predicate RefundRefused(db: Db, op: Operation, e: LedgerError)
    requires op.RefundPayment?
  {
    var p := op.payment;
    match e
    case Forbidden => !op.financeStaff
    case NotFound => op.financeStaff && (p >= |db.entries| || db.entries[p].kind != Payment)
    case AlreadyVoided => op.financeStaff && p < |db.entries| && db.entries[p].kind == Payment && !Standing(db, p)
    case ClosedPeriod => op.financeStaff && Standing(db, p) && !BothMonthsOpen(db, p, op.now)
    case ExceedsRefundable(most) => op.financeStaff && Standing(db, p) && BothMonthsOpen(db, p, op.now)
      && most == db.entries[p].amount - Refunded(db, p) < op.amount
    case _ => false
  }

  ghost predicate AllocateRefused(db: Db, op: Operation, e: LedgerError)
    requires op.Allocate?
  {
    var own := op.charge < |db.charges| && db.charges[op.charge].student == op.student;
    var open := own && db.charges[op.charge].status == Open;
    match e
    case NotFound => !own
    case ChargeIsCancelled => own && db.charges[op.charge].status == Cancelled
    case AlreadySettled => own && db.charges[op.charge].status == Settled
    case NoCredit => open && op.requested.None? && Wallet(db, op.student) == 0
    case ExceedsWallet(most) => open && op.requested.Some? && most == Wallet(db, op.student) < op.requested.value
    case ExceedsRemaining(most) =>
      open && op.requested.Some? && op.requested.value <= Wallet(db, op.student)
      && most == Remaining(db, op.charge) < op.requested.value
    case _ => false
  }

  ghost predicate CourseCreditRefused(db: Db, op: Operation, e: LedgerError)
    requires op.AllocateCourse?
  {
    var own := op.enrollment < |db.enrollments| && db.enrollments[op.enrollment].student == op.student;
    var funded := own && 0 < Wallet(db, op.student);
    var owed := funded && 0 < EnrollmentDebt(db, op.enrollment);
    match e
    case InvalidTarget => !own
    case NoCredit => own && !funded
    case NothingToAllocate => funded && !owed
    case ExceedsWallet(most) => owed && op.requested.Some? && most == Wallet(db, op.student) < op.requested.value
    case ExceedsBalance(most) =>
      owed && op.requested.Some? && op.requested.value <= Wallet(db, op.student)
      && most == EnrollmentDebt(db, op.enrollment) < op.requested.value
    case _ => false
  }

  ghost predicate ModeRefused(db: Db, op: Operation, e: LedgerError)
    requires op.ChangeMode?
  {
    var known := op.enrollment < |db.enrollments|;
    var active := known && db.enrollments[op.enrollment].status == Active;
    var change := active && db.enrollments[op.enrollment].mode != op.target;
    match e
    case NotFound => !known
    case EnrollmentNotActive => known && !active
    case ModeUnchanged => active && !change
    case ClosedPeriod =>
      change && op.target == Grant && IsClosed(db, PeriodKey(op.now)) && PartlyPaidAhead(db, op.enrollment, op.today)
    case _ => false
  }

  /** Error `e` is reported for a request other than a payment. */
  ghost predicate Refused(db: Db, op: Operation, e: LedgerError)
    requires !op.Pay?
  {
    match op
    case CreateCourse(course) =>
      e.InvalidTarget? &&
        !(ValidDate(course.start) && ValidDate(course.end) && DayNumber(course.start) < DayNumber(course.end))
    case Enroll(_, _, _, _, _, _, _, _, _) => EnrollRefused(db, op, e)
    case Generate(enrollment, _) => e.NotFound? && enrollment >= |db.enrollments|
    case GiveDiscount(_, _, _, _, _) => DiscountRefused(db, op, e)
    case Adjust(_, _, at, _, superAdmin) =>
      if superAdmin then e.ClosedPeriod? && IsClosed(db, PeriodKey(at)) else e.Forbidden?
    case VoidPayment(_, _, _) => VoidRefused(db, op, e)
    case RefundPayment(_, _, _, _, _, _) => RefundRefused(db, op, e)
    case Allocate(_, _, _) => AllocateRefused(db, op, e)
    case AllocateCourse(_, _, _) => CourseCreditRefused(db, op, e)
    case AutoAllocate(_, _) => false
    case Withdraw(enrollment, actor, today, _) =>
      if enrollment >= |db.enrollments| then e.NotFound?
      else
        e.ActorRequired? && db.enrollments[enrollment].status != Withdrawn && actor.None? &&
        PaidAhead(db, enrollment, today)
    case ChangeMode(_, _, _, _, _, _) => ModeRefused(db, op, e)
    case ClosePeriod(_, superAdmin) => e.Forbidden? && !superAdmin
    case ReopenPeriod(period, superAdmin) =>
      if superAdmin then e.NotFound? && period !in db.periods else e.Forbidden?
  }

  lemma PaidAheadMeaning(db: Db, enrollment: nat, day: int)
    requires Integrity(db) && EnrollmentReady(db, enrollment)
    ensures AnyReleased(db, FutureCharges(db, enrollment, day)) <==> PaidAhead(db, enrollment, day)
    ensures AnyWriteOff(db, FutureCharges(db, enrollment, day)) <==> PartlyPaidAhead(db, enrollment, day)
  {
    hide EnrollmentReady, FutureCharges, Starts, ActiveOn, Integrity, DayNumber;
    var cs := FutureCharges(db, enrollment, day);
    FutureChargesSelected(db, enrollment, day);
    if c: nat :| PartlyPaid(db, enrollment, day, c) {
      assert c in cs;
      var j :| 0 <= j < |cs| && cs[j] == c;
      assert WritesOff(db, cs[j]);
    }
    if j :| 0 <= j < |cs| && WritesOff(db, cs[j]) {
      assert cs[j] in cs;
      assert PartlyPaid(db, enrollment, day, cs[j]);
    }
  }

  lemma {:induction false} ChargeRefusals(db: Db, op: Operation, e: LedgerError)
    requires Integrity(db) && (op.GiveDiscount? || op.Allocate?)
    ensures ErrorOf(db, op) == Some(e) <==> Refused(db, op, e)
  {
    hide ActiveOn, Wallet, PeriodKey, Integrity;
    WalletNonNegative(db, op.student);
    ChargeStates(db, op.charge);
  }

  lemma {:induction false} CourseRefusals(db: Db, op: Operation, e: LedgerError)
    requires Integrity(db) && op.AllocateCourse?
    ensures ErrorOf(db, op) == Some(e) <==> Refused(db, op, e)
  {
    hide Wallet, ListBalance, EnrollmentDebt, Integrity;
    WalletNonNegative(db, op.student);
    if op.enrollment < |db.enrollments| && db.enrollments[op.enrollment].student == op.student {
      CourseBalance(db, op.student, op.enrollment);
    }
  }

  lemma {:induction false} PaymentReversalRefusals(db: Db, op: Operation, e: LedgerError)
    requires op.VoidPayment? || op.RefundPayment?
    ensures ErrorOf(db, op) == Some(e) <==> Refused(db, op, e)
  {
    hide PeriodKey, Refunded;
  }

  lemma NewRowRefusals(db: Db, op: Operation, e: LedgerError)
    requires op.CreateCourse? || op.Enroll?
    ensures ErrorOf(db, op) == Some(e) <==> Refused(db, op, e)
  {
    hide DayNumber, EnrolledIn, ValidDate;
  }

  lemma {:induction false} WithdrawalRefusals(db: Db, op: Operation, e: LedgerError)
    requires Good(db) && op.Withdraw?
    ensures ErrorOf(db, op) == Some(e) <==> Refused(db, op, e)
  {
    hide FutureCharges, Good, AnyReleased, PaidAhead, AnyUnmatched, EnrollmentReady;
    Ready(db, op.enrollment);
    if op.enrollment < |db.enrollments| { PaidAheadMeaning(db, op.enrollment, op.today); }
  }

  lemma {:induction false} ModeRefusals(db: Db, op: Operation, e: LedgerError)
    requires Good(db) && op.ChangeMode?
    ensures ErrorOf(db, op) == Some(e) <==> Refused(db, op, e)
  {
    hide FutureCharges, PeriodKey, Good, AnyWriteOff, PartlyPaidAhead, AnyUnmatched, EnrollmentReady;
    Ready(db, op.enrollment);
    if op.enrollment < |db.enrollments| { PaidAheadMeaning(db, op.enrollment, op.today); }
  }

  /** A request is turned down with an error exactly when that error's condition holds. */
  lemma {:induction false} RefusalsAreExact(db: Db, op: Operation, e: LedgerError)
    requires Good(db) && !op.Pay?
    ensures ErrorOf(db, op) == Some(e) <==> Refused(db, op, e)
  {
    hide Good, PeriodKey, EnrollmentReady;
    GoodIsSound(db);
    if op.GiveDiscount? || op.Allocate? { ChargeRefusals(db, op, e); }
    else if op.AllocateCourse? { CourseRefusals(db, op, e); }
    else if op.VoidPayment? || op.RefundPayment? { PaymentReversalRefusals(db, op, e); }
    else if op.CreateCourse? || op.Enroll? { NewRowRefusals(db, op, e); }
    else if op.Generate? { Ready(db, op.enrollment); }
    else if op.Withdraw? { WithdrawalRefusals(db, op, e); }
    else if op.ChangeMode? { ModeRefusals(db, op, e); }
  }
}
