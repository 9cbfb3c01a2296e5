/** What every run of the ledger keeps, and what it conserves. */
module Runs {
  import opened Wrappers
  import opened Sums
  import opened Tables
  import opened Balances
  import opened Posting
  import opened Payments
  import opened Reversals
  import opened Concessions
  import opened Withdrawals
  import opened Billing
  import opened Grants
  import opened Operations
  import Crediting
  import Queries

  // ---------------------------------------------------------------------------
  // One step
  // ---------------------------------------------------------------------------

  /** `next` has the same charges as `db`, but for their status. */
  ghost predicate SameCharges(db: Db, next: Db) {
    && SameTerms(db, next) && |next.charges| == |db.charges|
    && forall c :: 0 <= c < |db.charges| ==>
         && next.charges[c] == db.charges[c].(status := next.charges[c].status)
         && (next.charges[c].status != Cancelled ==> db.charges[c].status != Cancelled)
  }

  lemma SameChargesKeepSchedule(db: Db, next: Db)
    requires Scheduled(db) && SameCharges(db, next)
    ensures Scheduled(next)
  {
    ScheduleKept(db, next);
  }

  lemma CreditKeepsCharges(db: Db, entries: seq<nat>, charges: seq<nat>, limit: Option<int>)
    ensures SameCharges(db, Crediting.ApplyCredit(db, entries, charges, limit))
  {
    hide Crediting.CreditRows;
  }

  lemma PaymentKeepsCharges(db: Db, student: int, portions: seq<Portion>, amount: int, at: nat, recorder: int)
    ensures SameCharges(db, AfterPayment(db, student, portions, amount, at, recorder))
  {
    hide RowsForPayment, TargetRows;
    var paid := AddEntry(db, PaymentEntry(db, student, amount, at, recorder));
  }

  lemma DiscountKeepsCharges(db: Db, student: int, charge: nat, amount: Money, at: nat, recorder: int)
    ensures SameCharges(db, AfterDiscount(db, student, charge, amount, at, recorder))
  {
    CreditKeepsCharges(AddEntry(db, DiscountEntry(db, student, amount, at, recorder)), [|db.entries|], [charge], None);
  }

  lemma ReversalKeepsCharges(db: Db, reversal: Entry, payment: nat, amount: int)
    ensures SameCharges(db, AfterReversal(db, reversal, payment, amount))
  {
  }

  lemma AutoKeepsCharges(db: Db, student: int, preferred: Option<nat>)
    ensures SameCharges(db, AfterAutoAllocate(db, student, preferred))
  {
    hide Crediting.ApplyCredit;
    var first := AfterPreferred(db, student, preferred);
    if preferred.Some? {
      CreditKeepsCharges(db, Queries.CreditEntries(db, student), Queries.OpenCharges(db, student, preferred), None);
    }
    CreditKeepsCharges(first, Queries.CreditEntries(first, student), Queries.OpenCharges(first, student, None), None);
  }

  /** A step on the money keeps the books and moves the position by its value. */
  lemma MoneyStep(db: Db, op: Operation, student: int)
    requires Good(db) && ErrorOf(db, op).None?
    requires op.Pay? || op.GiveDiscount? || op.Adjust? || op.VoidPayment? || op.RefundPayment?
    ensures Good(Effect(db, op)) && Position(Effect(db, op), student) == Position(db, student) + Value(db, op, student)
  {
    hide Scheduled, Balanced, RowsOk, Outstanding, Wallet, AfterPayment, AfterDiscount, AfterReversal, SameCharges;
    match op {
      case Pay(s, course, targets, paid, at, recorder) =>
        var portions := PaymentCheck(db, s, course, targets, paid, at).value;
        CheckedIsAccepted(db, s, course, targets, paid, at);
        PaymentEffect(db, s, portions, paid, at, recorder, student);
        PaymentKeepsCharges(db, s, portions, paid, at, recorder);
      case GiveDiscount(s, charge, amount, at, recorder) =>
        DiscountEffect(db, s, charge, amount, at, recorder, student);
        DiscountKeepsCharges(db, s, charge, amount, at, recorder);
      case Adjust(s, amount, at, recorder, _) =>
        AdjustmentEffect(db, s, amount, at, recorder, student);
        AdjustmentKeepsCharges(db, s, amount, at, recorder);
      case VoidPayment(payment, now, recorder) =>
        VoidEffect(db, payment, now, recorder, student);
        ReversalKeepsCharges(db, VoidEntry(db, payment, now, recorder), payment, db.entries[payment].amount);
      case RefundPayment(payment, amount, toWallet, now, recorder, _) =>
        RefundEffect(db, payment, amount, toWallet, now, recorder, student);
        ReversalKeepsCharges(db, RefundEntry(db, payment, amount, toWallet, now, recorder), payment, amount);
    }
    SameChargesKeepSchedule(db, Effect(db, op));
  }

  lemma AdjustmentKeepsCharges(db: Db, student: int, amount: Money, at: nat, recorder: int)
    ensures SameCharges(db, AfterAdjustment(db, student, amount, at, recorder))
  {
  }

  lemma {:induction false} AllocationStep(db: Db, op: Operation, student: int)
    requires Good(db) && ErrorOf(db, op).None?
    requires op.Allocate? || op.AllocateCourse? || op.AutoAllocate?
    ensures Good(Effect(db, op)) && Position(Effect(db, op), student) == Position(db, student)
  {
    hide Scheduled, Balanced, RowsOk, Outstanding, Wallet, Crediting.ApplyCredit, SameCharges, AfterAutoAllocate;
    match op {
      case Allocate(s, charge, requested) =>
        AllocateEffect(db, s, charge, requested, student);
        CreditKeepsCharges(db, Queries.CreditEntries(db, s), [charge],
          Some(CreditAmount(db, s, Remaining(db, charge), requested)));
      case AllocateCourse(s, enrollment, requested) =>
        CourseCreditEffect(db, s, enrollment, requested, student);
        CreditKeepsCharges(db, Queries.CreditEntries(db, s), Queries.CourseCharges(db, s, enrollment),
          Some(CourseCreditAmount(db, s, enrollment, requested)));
      case AutoAllocate(s, preferred) =>
        AutoAllocateEffect(db, s, preferred, student);
        AutoKeepsCharges(db, s, preferred);
    }
    SameChargesKeepSchedule(db, Effect(db, op));
  }

  lemma {:induction false} TuitionStep(db: Db, op: Operation, student: int)
    requires Good(db) && ErrorOf(db, op).None?
    requires op.Enroll? || op.Generate? || op.ChangeMode?
    ensures Good(Effect(db, op)) && Position(Effect(db, op), student) == Position(db, student) + Value(db, op, student)
  {
    hide Starts, CourseOk, PlanOf, Missing, AfterConvert;
    match op {
      case Enroll(s, course, price, enrolledAt, mode, paymentDay, _, _, _) =>
        EnrollEffect(db, s, course, price, enrolledAt, mode, paymentDay, student);
      case Generate(enrollment, paymentDay) =>
        if db.enrollments[enrollment].mode != Grant && !HasCharges(db, enrollment) {
          GenerateBillable(db, enrollment, paymentDay);
          BillMonths(db, enrollment, PlanOf(db, enrollment, paymentDay), student);
        }
      case ChangeMode(enrollment, target, paymentDay, today, now, recorder) =>
        ModeChangeEffect(db, enrollment, target, paymentDay, today, now, recorder, student);
    }
  }

  lemma CourseStep(db: Db, course: Course, student: int)
    requires Good(db) && CourseOk(course)
    ensures var next := db.(courses := db.courses + [course]);
      Good(next) && Position(next, student) == Position(db, student)
  {
    hide CourseOk;
    var next := db.(courses := db.courses + [course]);
    forall i | 0 <= i < |db.charges|
      ensures ChargeRowOk(next, i) && ChargeBalanced(next, i)
    {
      assert ChargeRowOk(db, i) && ChargeBalanced(db, i);
    }
    forall i | 0 <= i < |db.entries|
      ensures EntryRowOk(next, i) && EntryCovered(next, i)
    {
      assert EntryRowOk(db, i) && EntryCovered(db, i);
    }
    forall i | 0 <= i < |db.allocations| ensures AllocationRowOk(next, i) { assert AllocationRowOk(db, i); }
    forall i | 0 <= i < |db.enrollments|
      ensures EnrollmentRowOk(next, i) && Starts(next, i) == Starts(db, i)
    {
      assert EnrollmentRowOk(db, i);
    }
    forall n, c | 0 <= n < |next.enrollments| && 0 <= c < |next.charges| && LiveTuition(next, n, c)
      ensures BillsMonth(next, n, c)
    {
      assert LiveTuition(db, n, c) && BillsMonth(db, n, c);
    }
    forall n: nat, c, d | 0 <= c < d < |next.charges| && LiveTuition(next, n, c) && LiveTuition(next, n, d)
      ensures next.charges[c].sequenceNo != next.charges[d].sequenceNo
    {
      assert LiveTuition(db, n, c) && LiveTuition(db, n, d);
    }
  }

  lemma PeriodsAreApart(db: Db, periods: map<nat, PeriodStatus>, student: int)
    requires Good(db)
    ensures var next := db.(periods := periods); Good(next) && Position(next, student) == Position(db, student)
  {
    var next := db.(periods := periods);
    forall i | 0 <= i < |db.charges|
      ensures ChargeRowOk(next, i) && ChargeBalanced(next, i)
    {
      assert ChargeRowOk(db, i) && ChargeBalanced(db, i);
    }
    forall i | 0 <= i < |db.entries|
      ensures EntryRowOk(next, i) && EntryCovered(next, i)
    {
      assert EntryRowOk(db, i) && EntryCovered(db, i);
    }
    forall i | 0 <= i < |db.allocations| ensures AllocationRowOk(next, i) { assert AllocationRowOk(db, i); }
    forall i | 0 <= i < |db.enrollments| ensures EnrollmentRowOk(next, i) { assert EnrollmentRowOk(db, i); }
    SameChargesKeepSchedule(db, next);
  }

  lemma WithdrawStep(db: Db, enrollment: nat, actor: Option<int>, today: int, now: nat, student: int)
    requires Good(db) && WithdrawError(db, enrollment, actor, today).None?
    ensures var op := Operation.Withdraw(enrollment, actor, today, now);
      Good(Effect(db, op)) && Position(Effect(db, op), student) == Position(db, student) + Value(db, op, student)
  {
    hide Starts, CourseOk, Balanced, RowsOk, Outstanding, Wallet;
    if db.enrollments[enrollment].status != Withdrawn {
      WithdrawEffect(db, enrollment, actor, today, now, student);
      SameChargesKeepSchedule(db, AfterWithdraw(db, enrollment, actor, today, now));
    }
  }

  /** Every request, accepted or not, keeps the books, and an accepted one moves each
      student's position by exactly its value. */
  lemma StepKeepsBooks(db: Db, op: Operation, student: int)
    requires Good(db)
    ensures Good(Next(db, op))
    ensures Position(Next(db, op), student)
      == Position(db, student) + (if ErrorOf(db, op).None? then Value(db, op, student) else 0)
  {
    hide Good;
    if ErrorOf(db, op).None? {
      match op {
        case CreateCourse(course) => CourseStep(db, course, student);
        case Enroll(_, _, _, _, _, _, _, _, _) => TuitionStep(db, op, student);
        case Generate(_, _) => TuitionStep(db, op, student);
        case ChangeMode(_, _, _, _, _, _) => TuitionStep(db, op, student);
        case Allocate(_, _, _) => AllocationStep(db, op, student);
        case AllocateCourse(_, _, _) => AllocationStep(db, op, student);
        case AutoAllocate(_, _) => AllocationStep(db, op, student);
        case Withdraw(enrollment, actor, today, now) => WithdrawStep(db, enrollment, actor, today, now, student);
        case ClosePeriod(period, _) => PeriodsAreApart(db, db.periods[period := PeriodClosed], student);
        case ReopenPeriod(period, _) => PeriodsAreApart(db, db.periods[period := PeriodOpen], student);
        case Pay(_, _, _, _, _, _) => MoneyStep(db, op, student);
        case GiveDiscount(_, _, _, _, _) => MoneyStep(db, op, student);
        case Adjust(_, _, _, _, _) => MoneyStep(db, op, student);
        case VoidPayment(_, _, _) => MoneyStep(db, op, student);
        case RefundPayment(_, _, _, _, _, _) => MoneyStep(db, op, student);
      }
    }
  }

  // ---------------------------------------------------------------------------
  // Whole runs
  // ---------------------------------------------------------------------------

  function RunValue(db: Db, ops: seq<Operation>, student: int): int {
    if ops == [] then 0
    else
      var front, last := ops[..|ops| - 1], ops[|ops| - 1];
      RunValue(db, front, student)
      + (if ErrorOf(Run(db, front), last).None? then Value(Run(db, front), last, student) else 0)
  }

  lemma EmptyIsGood()
    ensures Good(EMPTY) && forall s :: Position(EMPTY, s) == 0
  {
  }

  lemma {:induction false} RunFromGood(db: Db, ops: seq<Operation>)
    requires Good(db)
    ensures Good(Run(db, ops))
  {
    if ops != [] {
      RunFromGood(db, ops[..|ops| - 1]);
      StepKeepsBooks(Run(db, ops[..|ops| - 1]), ops[|ops| - 1], 0);
    }
  }

  /** Conservation: over any run a student's debt less wallet is the sum of the values of
      the accepted requests, and the books hold throughout. */
  lemma {:induction false} RunConserves(ops: seq<Operation>, student: int)
    ensures Good(Run(EMPTY, ops))
    ensures Position(Run(EMPTY, ops), student) == RunValue(EMPTY, ops, student)
  {
    hide Good, Next;
    if ops == [] {
      EmptyIsGood();
    } else {
      RunConserves(ops[..|ops| - 1], student);
      StepKeepsBooks(Run(EMPTY, ops[..|ops| - 1]), ops[|ops| - 1], student);
    }
  }

  /** Some sequence of requests leads from empty tables to these. */
  ghost predicate Reachable(db: Db) { exists ops :: Run(EMPTY, ops) == db }

  lemma ReachableIsGood(db: Db)
    requires Reachable(db)
    ensures Good(db)
  {
    hide Good, Run;
    var ops :| Run(EMPTY, ops) == db;
    RunConserves(ops, 0);
  }

  /** In every reachable state: no charge is over-settled and its status says whether it
      is settled, no credit is over-spent, a payment is not both voided and refunded nor
      refunded beyond its amount, and the wallet's clamp changes nothing. */
  lemma {:induction false} ReachableStateIsSound(db: Db, student: int, c: nat, e: nat)
    requires Reachable(db)
    ensures c < |db.charges| ==>
      && 0 <= ActiveOn(db, c) <= db.charges[c].amount
      && (db.charges[c].status == Cancelled ==> ActiveOn(db, c) == 0)
      && (db.charges[c].status != Cancelled ==>
        (db.charges[c].status == Settled <==> ActiveOn(db, c) == db.charges[c].amount))
    ensures e < |db.entries| ==>
      && 0 <= Available(db, e)
      && Refunded(db, e) <= db.entries[e].amount
      && !(Voided(db.entries, e) && (HasRefund(db.entries, e) || Applied(db, e) != 0))
    ensures Wallet(db, student) == NetCredit(db, student) == Sum(db.entries, AvailableFor(db, student))
    ensures Outstanding(db, student) == Sum(db.charges, RemainingFor(db, student))
  {
    hide Reachable;
    ReachableIsGood(db);
    if c < |db.charges| { assert ChargeBalanced(db, c); }
    if e < |db.entries| {
      assert EntryCovered(db, e);
      if HasRefund(db.entries, e) {
        var k :| 0 <= k < |db.entries| && db.entries[k].kind == Refund && db.entries[k].reverses == Some(e);
        RefundedIsNotVoided(db, k);
      }
    }
    WalletIsSumOfAvailable(db, student);
    OutstandingIsSumOfRemaining(db, student);
  }

  /** In every reachable state each live tuition charge finds its course month, and no
      month of an enrollment has two. */
  lemma {:induction false} ReachableScheduleIsSound(db: Db, enrollment: nat, c: nat, d: nat)
    requires Reachable(db)
    ensures enrollment < |db.enrollments| ==> !AnyUnmatched(db, enrollment)
    ensures c < d < |db.charges| ==> LiveTuition(db, enrollment, c) ==> LiveTuition(db, enrollment, d) ==>
      db.charges[c].sequenceNo != db.charges[d].sequenceNo
  {
    hide Reachable, Starts;
    ReachableIsGood(db);
    if enrollment < |db.enrollments| { EveryMonthMatches(db, enrollment); }
  }
}
