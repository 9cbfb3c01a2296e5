/**
 Runs from empty tables in which the ledger does what one might not expect, one for every
 month of the calendar, every price and every part of it.
 */
module Witnesses {
  import opened Wrappers
  import opened Sums
  import opened Calendar
  import opened Schedule
  import opened Tables
  import opened Withdrawals
  import opened Billing
  import opened Grants
  import opened Operations
  import opened Runs
  import opened RoundTrips
  import History
  import Payments

  const STUDENT := 0
  const STAFF := 1

  /** Five in the morning of a day, local time. */
  function Morning(day: nat): nat { day * DAY_SECONDS }

  lemma MorningIsThere(day: nat, month: nat)
    ensures LocalDay(Morning(day)) == day
    ensures day == MonthStart(month) ==> PeriodKey(Morning(day)) == month
    ensures MonthStart(month) < MonthStart(month + 1)
  {
    MonthOfUnique(MonthStart(month), month);
  }

  /** A course of one calendar month. */
  function MonthCourse(month: nat): Course { Course(Date(month, 1), Date(month + 1, 1)) }

  /** A student joins it on `day`. */
  function Joining(month: nat, day: nat, price: Money): seq<Operation> {
    [CreateCourse(MonthCourse(month)), Enroll(STUDENT, 0, price, Morning(day), Paid, None, day, true, true)]
  }

  lemma {:induction false} OneMonthBilled(month: nat, day: nat)
    requires day <= MonthStart(month)
    ensures BilledStarts(Date(month, 1), MonthStart(month + 1), day) == [Date(month, 1)]
  {
    hide MonthDays;
    var start := Date(month, 1);
    assert CourseMonth(start, 0) == start && CourseMonth(start, 1) == Date(month + 1, 1);
    assert MonthDay(start, 0) == MonthStart(month) && MonthDay(start, 1) == MonthStart(month + 1);
    MorningIsThere(day, month);
    assert FirstBilled(start, day) == 0;
    assert MonthCount(start, MonthStart(month + 1)) == 1;
  }

  /** The student has one open charge, for the month, and nothing else happened. */
  predicate Joined(db: Db, month: nat, day: nat, price: Money) {
    && db.courses == [MonthCourse(month)]
    && db.enrollments == [Enrollment(STUDENT, 0, price, Morning(day), Active, Paid)]
    && |db.charges| == 1 && db.charges[0].(due := 0) == Charge(0, 0, STUDENT, 1, price, 0, Tuition, Open)
    && Starts(db, 0) == [Date(month, 1)]
  }

  lemma MonthCourseOk(month: nat)
    ensures CourseOk(MonthCourse(month))
  {
  }

  function WithCourse(month: nat): Db { EMPTY.(courses := [MonthCourse(month)]) }

  function WithStudent(month: nat, day: nat, price: Money): Db {
    AddEnrollment(WithCourse(month), Enrollment(STUDENT, 0, price, Morning(day), Active, Paid))
  }

  lemma CourseCreated(month: nat)
    ensures Next(EMPTY, CreateCourse(MonthCourse(month))) == WithCourse(month)
  {
    MonthCourseOk(month);
  }

  lemma StudentStarts(month: nat, day: nat, price: Money)
    requires day <= MonthStart(month)
    ensures var db := WithStudent(month, day, price);
      EnrollmentReady(db, 0) && Starts(db, 0) == [Date(month, 1)] && InTime(db, 0) && RowsOk(db)
  {
    hide MonthStart, MonthDays, BilledStarts;
    MonthCourseOk(month);
    MorningIsThere(day, month);
    OneMonthBilled(month, day);
    assert EnrollmentRowOk(WithStudent(month, day, price), 0);
  }

  lemma StudentBilled(month: nat, day: nat, price: Money)
    requires day <= MonthStart(month)
    ensures var next := AfterGenerate(WithStudent(month, day, price), 0, None);
      Joined(next, month, day, price) && next.entries == [] && next.allocations == [] && next.periods == map[]
  {
    hide Starts, Morning, CourseOk, InTime, PlanOf, EnrollmentReady;
    var db := WithStudent(month, day, price);
    StudentStarts(month, day, price);
    PlanLength(db, 0, None);
    PlanRow(db, 0, None, 0);
    StartsKept(db, AfterGenerate(db, 0, None), 0);
  }

  lemma StudentEnrolled(month: nat, day: nat, price: Money)
    requires day <= MonthStart(month)
    ensures Next(WithCourse(month), Joining(month, day, price)[1])
      == AfterGenerate(WithStudent(month, day, price), 0, None)
  {
    hide AfterGenerate, Morning, MonthStart, MonthDays;
    MorningIsThere(day, month);
  }

  lemma {:induction false} AfterJoining(month: nat, day: nat, price: Money)
    requires day <= MonthStart(month)
    ensures var db := Run(EMPTY, Joining(month, day, price));
      Good(db) && Joined(db, month, day, price) && db.entries == [] && db.allocations == [] && db.periods == map[]
  {
    hide Joined, Good, Next, AfterGenerate, WithCourse, WithStudent, MonthCourse, Morning;
    var ops := Joining(month, day, price);
    RunConserves(ops, STUDENT);
    CourseCreated(month);
    StudentEnrolled(month, day, price);
    StudentBilled(month, day, price);
    assert ops[..1] == [ops[0]] && ops[..1][..0] == [];
  }

  /** What the one charge of `Joined` tables needs is all its enrollment owes. */
  lemma OneChargeOwed(db: Db, month: nat, day: nat, price: Money)
    requires Joined(db, month, day, price)
    ensures EnrollmentDebt(db, 0) == price - ActiveOn(db, 0)
  {
    hide ActiveOn;
    assert db.charges == [] + [db.charges[0]];
    SumAppend([], db.charges[0], DebtOf(db, 0));
  }

  // ---------------------------------------------------------------------------
  // The unpaid month that starts on the day of a round trip
  // ---------------------------------------------------------------------------

  lemma JoinedCharge(db: Db, month: nat, day: nat, price: Money, first: int)
    requires Joined(db, month, day, price)
    ensures EnrollmentReady(db, 0) && !AnyUnmatched(db, 0) && LiveTuition(db, 0, 0)
    ensures StartsFrom(db, 0, first, 0) <==> first <= MonthStart(month)
  {
    hide MonthStart, MonthDays, BilledStarts;
    MonthCourseOk(month);
    assert EnrollmentRowOk(db, 0);
  }

  /** What a round trip on `day` does to what the enrollment owes. */
  lemma JoinedChange(db: Db, month: nat, day: nat, price: Money)
    requires Good(db) && Joined(db, month, day, price) && day <= MonthStart(month)
    ensures Sum(Months(|Starts(db, 0)|), MonthChangeAt(db, 0, day))
         == if day == MonthStart(month) || 0 < ActiveOn(db, 0) then ActiveOn(db, 0) - price else 0
  {
    hide MonthStart, Good, StartsFrom, ActiveOn, MonthFromDay, Starts, EnrollmentReady, MonthDebt, Billed;
    JoinedCharge(db, month, day, price, day);
    JoinedCharge(db, month, day, price, day + 1);
    MonthOfCharge(db, 0, 0, day);
    MonthOfCharge(db, 0, 0, day + 1);
    assert Months(1) == [] + [1];
    SumAppend<nat>([], 1, MonthChangeAt(db, 0, day));
  }

  /** A student who pays nothing, whose enrollment becomes a grant on the first day of the
      month and is billed again that very day, owes nothing for that month any more. */
  lemma {:induction false} UnpaidMonthIsLost(month: nat, price: Money)
    ensures var day := MonthStart(month);
      var db, now := Run(EMPTY, Joining(month, day, price)), Morning(day);
      && Good(db) && ErrorOf(db, Converting(0, None, day, now, STAFF)).None?
      && EnrollmentDebt(db, 0) == price
      && EnrollmentDebt(AfterBoth(db, 0, None, day, now, STAFF), 0) == 0
  {
    hide MonthStart, Run, Joining, Good, Joined, AfterBoth, EnrollmentDebt, StartsFrom, ActiveOn, Starts, FutureCharges,
      PlanOf;
    var day := MonthStart(month);
    var db, now := Run(EMPTY, Joining(month, day, price)), Morning(day);
    AfterJoining(month, day, price);
    JoinedCharge(db, month, day, price, day);
    OneChargeOwed(db, month, day, price);
    NothingActive(db);
    GrantAccepted(db, month, day, price, now);
    RoundTripDebt(db, 0, None, day, now, STAFF, STUDENT);
    JoinedChange(db, month, day, price);
  }

  lemma GrantAccepted(db: Db, month: nat, day: nat, price: Money, now: nat)
    requires Joined(db, month, day, price) && !AnyUnmatched(db, 0) && EnrollmentReady(db, 0)
    requires !IsClosed(db, PeriodKey(now))
    ensures ErrorOf(db, Converting(0, None, day, now, STAFF)).None?
  {
    hide FutureCharges, AnyUnmatched, AnyWriteOff, PeriodKey, Starts;
  }

  lemma NothingActive(db: Db)
    requires db.allocations == []
    ensures ActiveOn(db, 0) == 0
  {
  }

  // ---------------------------------------------------------------------------
  // The partly paid month that starts after it
  // ---------------------------------------------------------------------------

  /** The student then pays a part of the price. */
  function Paying(day: nat, paid: Money): Operation {
    Pay(STUDENT, 0, None, paid, Morning(day), STAFF)
  }

  lemma OpenBalanceOfOne(db: Db, month: nat, day: nat, price: Money)
    requires Joined(db, month, day, price)
    ensures Payments.OpenBalance(db, 0) == price - ActiveOn(db, 0)
  {
    hide ActiveOn;
    assert db.charges == [] + [db.charges[0]];
    SumAppend([], db.charges[0], Payments.OpenNeed(db, 0));
  }

  lemma PaymentAccepted(db: Db, month: nat, day: nat, price: Money, paid: Money)
    requires Joined(db, month, day, price) && db.allocations == [] && db.periods == map[] && paid <= price
    ensures Payments.PaymentCheck(db, STUDENT, 0, None, paid, Morning(day)) == Success([Payments.Portion(0, paid)])
    ensures ErrorOf(db, Paying(day, paid)).None?
  {
    hide Payments.OpenBalance, ActiveOn, Starts;
    var portions := [Payments.Portion(0, paid)];
    OpenBalanceOfOne(db, month, day, price);
    NothingActive(db);
    Payments.DistinctByCount(portions);
    assert portions == [] + [portions[0]];
    SumAppend([], portions[0], Payments.PortionAmount());
    assert Payments.FindEnrollment(db, STUDENT, 0, 0) == Some(0);
    assert portions[1..] == [] && Payments.FirstTargetError(db, STUDENT, []) == None;
    assert Payments.TargetError(db, STUDENT, portions[0]) == None;
  }

  /** With one charge and one entry, what is applied of the entry is on the charge. */
  lemma OneOfEach(db: Db)
    requires RowsOk(db) && |db.charges| == 1 && |db.entries| == 1
    ensures ActiveOn(db, 0) == Applied(db, 0)
  {
    forall i | 0 <= i < |db.allocations| ensures OnCharge(0)(db.allocations[i]) == OfEntry(0)(db.allocations[i]) {
      assert AllocationRowOk(db, i);
    }
    SumAgree(db.allocations, OnCharge(0), OfEntry(0));
  }

  lemma {:induction false} AfterPaying(month: nat, day: nat, price: Money, paid: Money)
    requires day <= MonthStart(month) && paid < price
    ensures var db := Run(EMPTY, Joining(month, day, price) + [Paying(day, paid)]);
      && Good(db) && Joined(db, month, day, price) && ActiveOn(db, 0) == paid && db.periods == map[]
  {
    hide MonthStart, Joining, Good, ActiveOn, Morning, BilledStarts, Payments.OpenBalance, Payments.RowsForPayment;
    var before, ops := Run(EMPTY, Joining(month, day, price)), Joining(month, day, price) + [Paying(day, paid)];
    AfterJoining(month, day, price);
    assert ops[..|ops| - 1] == Joining(month, day, price);
    PaymentAccepted(before, month, day, price, paid);
    var portions := [Payments.Portion(0, paid)];
    Payments.CheckedIsAccepted(before, STUDENT, 0, None, paid, Morning(day));
    GoodIsSound(before);
    Payments.PaymentEffect(before, STUDENT, portions, paid, Morning(day), STAFF, STUDENT);
    RunConserves(ops, STUDENT);
    var db := Run(EMPTY, ops);
    PaymentKeepsCharges(before, STUDENT, portions, paid, Morning(day), STAFF);
    assert db == Payments.AfterPayment(before, STUDENT, portions, paid, Morning(day), STAFF);
    assert |db.entries| == 1;
    OneOfEach(db);
    StartsKept(before, db, 0);
    StillOpen(db, paid);
  }

  lemma StillOpen(db: Db, paid: Money)
    requires Integrity(db) && |db.charges| == 1 && ActiveOn(db, 0) == paid < db.charges[0].amount
    requires db.charges[0].status != Cancelled
    ensures db.charges[0].status == Open
  {
    assert ChargeBalanced(db, 0);
  }

  /** A student who paid a part of the month, whose enrollment becomes a grant on a day
      before it and is billed again that very day, owes the rest no more. */
  lemma {:induction false} WrittenOffMonthIsNotBilled(month: nat, day: nat, price: Money, paid: Money)
    requires day < MonthStart(month) && paid < price
    ensures var db, now := Run(EMPTY, Joining(month, day, price) + [Paying(day, paid)]), Morning(day);
      && Good(db) && ErrorOf(db, Converting(0, None, day, now, STAFF)).None?
      && EnrollmentDebt(db, 0) == price - paid
      && EnrollmentDebt(AfterBoth(db, 0, None, day, now, STAFF), 0) == 0
  {
    hide MonthStart, Run, Joining, Good, Joined, AfterBoth, EnrollmentDebt, StartsFrom, ActiveOn, Starts, FutureCharges,
      PlanOf;
    var db, now := Run(EMPTY, Joining(month, day, price) + [Paying(day, paid)]), Morning(day);
    AfterPaying(month, day, price, paid);
    JoinedCharge(db, month, day, price, day);
    OneChargeOwed(db, month, day, price);
    GrantAccepted(db, month, day, price, now);
    RoundTripDebt(db, 0, None, day, now, STAFF, STUDENT);
    JoinedChange(db, month, day, price);
  }

  // ---------------------------------------------------------------------------
  // The reversing entry in a closed month
  // ---------------------------------------------------------------------------

  /** Then the month is closed, and the student withdraws on its first day. */
  function Closing(month: nat): Operation { ClosePeriod(month, true) }

  function Leaving(month: nat): Operation {
    Withdraw(0, Some(STAFF), MonthStart(month), Morning(MonthStart(month)))
  }

  function BeforeLeaving(month: nat, day: nat, price: Money, paid: Money): Db {
    Next(Run(EMPTY, Joining(month, day, price) + [Paying(day, paid)]), Closing(month))
  }

  lemma SomethingReleased(db: Db, charges: seq<nat>)
    requires 0 < ActiveOn(db, 0) && 0 in charges
    ensures AnyReleased(db, charges)
  {
    if !AnyReleased(db, charges) { SumZero(db.allocations, OnCharge(0)); }
  }

  lemma LeavingReleases(db: Db, month: nat, day: nat, price: Money)
    requires Joined(db, month, day, price) && 0 < ActiveOn(db, 0)
    ensures History.Backdates(db, Leaving(month), month)
  {
    hide MonthStart, ActiveOn, StartsFrom, Starts, EnrollmentReady, FutureCharges, AnyReleased, AnyUnmatched, PeriodKey,
      Morning;
    JoinedCharge(db, month, day, price, MonthStart(month));
    FutureChargesSelected(db, 0, MonthStart(month));
    SomethingReleased(db, FutureCharges(db, 0, MonthStart(month)));
    MorningIsThere(MonthStart(month), month);
  }

  lemma ClosedNow(db: Db, month: nat, day: nat, price: Money)
    requires Joined(db, month, day, price)
    ensures var next := Next(db, Closing(month));
      IsClosed(next, month) && Joined(next, month, day, price) && ActiveOn(next, 0) == ActiveOn(db, 0)
  {
    hide BilledStarts, MonthStart, CourseOk;
    StartsKept(db, Next(db, Closing(month)), 0);
  }

  /** A reachable state with the month closed, in which the withdrawal of a student dates
      its reversing entry in that month. */
  lemma {:induction false} WithdrawalEntersClosedMonth(month: nat, day: nat, price: Money, paid: Money)
    requires day <= MonthStart(month) && paid < price
    ensures var db := BeforeLeaving(month, day, price, paid);
      var next := Next(db, Leaving(month));
      && Reachable(db) && IsClosed(db, month) && ErrorOf(db, Leaving(month)).None?
      && |next.entries| == |db.entries| + 1
      && next.entries[|db.entries|].kind == WithdrawalReversal && PeriodKey(next.entries[|db.entries|].at) == month
  {
    hide MonthStart, Run, Joining, Good, Joined, ActiveOn, Next, PeriodKey, Morning, ErrorOf;
    var front := Joining(month, day, price) + [Paying(day, paid)];
    var ops := front + [Closing(month)];
    var db := BeforeLeaving(month, day, price, paid);
    AfterPaying(month, day, price, paid);
    ClosedNow(Run(EMPTY, front), month, day, price);
    LeavingReleases(db, month, day, price);
    RunOneMore(front, Closing(month));
    History.WithdrawalBackdates(db, Leaving(month), month);
  }

  lemma RunOneMore(front: seq<Operation>, last: Operation)
    ensures Reachable(Next(Run(EMPTY, front), last))
  {
    hide Next;
    var ops := front + [last];
    assert ops[..|ops| - 1] == front;
    assert Run(EMPTY, ops) == Next(Run(EMPTY, front), last);
  }
}
