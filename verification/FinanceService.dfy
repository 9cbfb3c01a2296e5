/**
 `FinanceService` with its tables as fields.  Every public method is one transaction:
 it ends with the tables `Operations.Next` describes, or rolls back and reports why.
 */
module FinanceService {
  import opened Arithmetic
  import opened Wrappers
  import opened Sums
  import opened Calendar
  import opened Tables
  import opened Balances
  import opened Posting
  import opened Queries
  import opened Crediting
  import opened Placement
  import opened Payments
  import opened Reversals
  import opened Concessions
  import opened Withdrawals
  import opened Billing
  import opened Grants
  import opened Operations
  import opened Runs
  import opened Priority
  import opened Rules
  import Schedule
  import Waterfall
  import Ordering

  /** What a request answers: why it was turned down, or `value`. */
  function Answer(db: Db, op: Operation, value: nat): Result<nat, LedgerError> {
    match ErrorOf(db, op)
    case Some(e) => Failure(e)
    case None => Success(value)
  }

  /** What `allocate_course_credit` answers: the amount it moved. */
  function CourseAnswer(db: Db, student: int, enrollment: nat, requested: Option<Money>): Result<int, LedgerError> {
    match CourseCreditError(db, student, enrollment, requested)
    case Some(e) => Failure(e)
    case None => Success(CourseCreditAmount(db, student, enrollment, requested))
  }

  /** The amount answered is the one that left the wallet. */
  lemma CourseAnswerIsMoved(db: Db, student: int, enrollment: nat, requested: Option<Money>)
    requires Good(db)
    ensures var r, next := CourseAnswer(db, student, enrollment, requested),
      Next(db, AllocateCourse(student, enrollment, requested));
      r.Success? ==>
        && r.value == Wallet(db, student) - Wallet(next, student)
        && (requested.Some? ==> r.value == requested.value)
        && (requested.None? ==> Wallet(next, student) == 0 || EnrollmentDebt(next, enrollment) == 0)
  {
    hide CourseCreditError, CourseCreditAmount, Wallet, EnrollmentDebt, OnlyApplied, AfterCourseCredit, Outstanding;
    CourseCreditRule(db, student, enrollment, requested);
    if CourseAnswer(db, student, enrollment, requested).Success? {
      CourseCreditEffect(db, student, enrollment, requested, student);
    }
  }

  /** What a successful `allocate_credit` moves. */
  lemma CreditIsMoved(db: Db, student: int, charge: nat, requested: Option<Money>)
    requires Good(db)
    ensures var op, next := Allocate(student, charge, requested), Next(db, Allocate(student, charge, requested));
      ErrorOf(db, op).None? ==>
        && charge < |next.charges|
        && (requested.Some? ==> Wallet(next, student) == Wallet(db, student) - requested.value)
        && (requested.None? ==> Wallet(next, student) == 0 || InFull(next, charge))
  {
    hide AllocateError, Wallet, AfterAllocate, Outstanding, Good;
    AllocationRule(db, student, charge, requested);
  }

  class FinanceService {
    var courses: seq<Course>
    var enrollments: seq<Enrollment>
    var charges: seq<Charge>
    var entries: seq<Entry>
    var allocations: seq<Allocation>
    var targets: seq<Target>
    var periods: map<nat, PeriodStatus>

    /** The tables as one value. */
    function Books(): Db
      reads this
    {
      Db(courses, enrollments, charges, entries, allocations, targets, periods)
    }

    ghost predicate Valid()
      reads this
    {
      Good(Books())
    }

    constructor ()
      ensures Valid() && Books() == EMPTY
    {
      courses, enrollments, charges, entries, allocations, targets, periods := [], [], [], [], [], [], map[];
      new;
      EmptyIsGood();
    }

    /** What the database does when a transaction raises. */
    method Rollback(saved: Db)
      modifies this
      ensures Books() == saved
    {
      courses, enrollments, charges, entries := saved.courses, saved.enrollments, saved.charges, saved.entries;
      allocations, targets, periods := saved.allocations, saved.targets, saved.periods;
    }

    /** `_recompute_charge_status`. */
    method RecomputeChargeStatus(ids: seq<nat>)
      modifies this`charges
      ensures Books() == RestatedAt(old(Books()), ids)
    {
      ghost var before := Books();
      var n := |charges|;
      for k := 0 to n
        invariant |charges| == n
        invariant forall i :: 0 <= i < k ==> charges[i] == RestatedAt(before, ids).charges[i]
        invariant forall i :: k <= i < n ==> charges[i] == before.charges[i]
        invariant Books() == before.(charges := charges)
      {
        if k in ids && charges[k].status != Cancelled {
          var applied := ActiveOn(Books(), charges[k].id);
          charges := charges[k := charges[k].(status := if applied >= charges[k].amount then Settled else Open)];
        }
      }
    }

    /** `_apply_credit`. */
    method ApplyCredit(payers: seq<nat>, payees: seq<nat>, limit: Option<int>) returns (created: seq<Allocation>)
      requires Integrity(Books()) && Distinct(payees)
      requires forall i :: 0 <= i < |payers| ==> payers[i] < |entries|
      requires forall j :: 0 <= j < |payees| ==> payees[j] < |charges|
      modifies this`allocations, this`charges
      ensures Books() == Crediting.ApplyCredit(old(Books()), payers, payees, limit)
      ensures created == CreditRows(old(Books()), payers, payees, limit)
    {
      hide CreditRows, Integrity;
      ghost var before := Books();
      var touched: seq<nat>;
      created, touched := PlaceCredit(Books(), payers, payees, limit);
      allocations := allocations + created;
      UnnamedCharges(before, created, touched);
      TouchedIsEnough(before, Books(), touched);
      RecomputeChargeStatus(touched);
    }

    /** `_reverse_allocations`: newest first, until `amount` is taken back. */
    method ReverseAllocations(source: nat, amount: nat, reversing: nat) returns (affected: seq<nat>)
      requires RowsOk(Books())
      modifies this`allocations
      ensures Books() == Unapplied(old(Books()), source, amount, reversing)
      ensures forall c: nat :: c !in affected ==> ActiveOn(Books(), c) == ActiveOn(old(Books()), c)
    {
      hide HalfDone, Left, Undone, Noted, OfEntry, RowsOk, Survivors, Stamped, SurvivorsFrom, ActiveOn, Good, Sum;
      hide Integrity, AllocationRowOk, EntryRowOk, ChargeRowOk, RestatedAt;
      ghost var db := Books();
      AmountsPositive(db);
      var rows := allocations;
      var remaining := amount;
      affected := [];
      var i := |rows|;
      NothingDone(rows, source, amount, reversing);
      NothingNoted(rows, source, amount);
      while i > 0 && remaining > 0
        invariant 0 <= i <= |rows|
        invariant remaining == Left(rows, source, amount, i)
        invariant HalfDone(allocations, rows, source, amount, reversing, i)
        invariant Noted(rows, source, amount, affected, i)
        invariant Books() == db.(allocations := allocations)
      {
        i := i - 1;
        var a := rows[i];
        DoOneRow(allocations, rows, source, amount, reversing, i);
        NoteOneRow(rows, source, amount, affected, i);
        if a.entry == source && a.reversedBy.None? {
          affected := affected + [a.charge];
          allocations := allocations[i := a.(reversedBy := Some(reversing))];
          if a.amount > remaining {
            allocations := allocations + [Allocation(|allocations|, source, a.charge, a.amount - remaining, None)];
            remaining := 0;
          } else {
            remaining := remaining - a.amount;
          }
        }
      }
      AllDone(allocations, rows, source, amount, reversing, i);
      AllNoted(rows, source, amount, affected, i);
      UnaffectedCharges(db, source, amount, reversing, affected);
    }

    // -------------------------------------------------------------------------
    // Mutations
    // -------------------------------------------------------------------------

    /** `create_payment`. */
    method CreatePayment(student: int, course: nat, wanted: Option<seq<Portion>>, paid: int, at: nat, recorder: int)
      returns (r: Result<nat, LedgerError>)
      requires Valid()
      modifies this
      ensures Valid()
      ensures Books() == Next(old(Books()), Pay(student, course, wanted, paid, at, recorder))
      ensures r == Answer(old(Books()), Pay(student, course, wanted, paid, at, recorder), |old(entries)|)
    {
      hide Good, OpenBalance, PaymentRows, TargetCharges, Integrity, FindEnrollment, Restated, Available, Applied;
      hide PortionsFit, EnrollmentsOf, Spend, Sum, ActiveOn;
      var db := Books();
      StepKeepsBooks(db, Pay(student, course, wanted, paid, at, recorder), student);
      if !(0 < paid <= MAX_CENTS) {
        return Failure(InvalidAmount);
      }
      if IsClosed(db, PeriodKey(at)) {
        return Failure(ClosedPeriod);
      }
      var portions: seq<Portion>;
      if wanted.None? {
        var found := FindEnrollment(db, student, course, 0);
        if found.None? {
          return Failure(InvalidTarget);
        }
        portions := [Portion(found.value, paid)];
      } else {
        portions := wanted.value;
      }
      if Sum(portions, PortionAmount()) != paid {
        return Failure(SumMismatch);
      }
      if HasDuplicate(portions) {
        return Failure(DuplicateTarget);
      }
      for i := 0 to |portions|
        invariant Books() == db
        invariant FirstTargetError(db, student, portions) == FirstTargetError(db, student, portions[i..])
      {
        if !Payable(db, student, portions[i].enrollment) {
          return Failure(InvalidTarget);
        }
        var maximum := OpenBalance(db, portions[i].enrollment);
        if portions[i].amount > maximum {
          return Failure(ExceedsBalance(maximum));
        }
      }
      GoodIsSound(db);
      CheckedIsAccepted(db, student, course, wanted, paid, at);
      PaymentRecorded(db, student, portions, paid, at, recorder);
      entries := entries + [Entry(|entries|, student, Payment, paid, at, recorder, None, false)];
      var left := SettleTargets(|db.entries|, portions);
      targets := targets + TargetRows(|db.entries|, portions);
      return Success(|db.entries|);
    }

    /** Allocates a payment to the open charges of the enrollments it names; nothing is
        left of any portion. */
    method SettleTargets(entry: nat, portions: seq<Portion>) returns (remaining: map<nat, int>)
      requires Integrity(Books()) && DistinctTargets(portions)
      requires PortionsFit(Books(), portions, TargetCharges(Books(), EnrollmentsOf(portions)))
      modifies this`allocations, this`charges
      ensures Books() == Spend(old(Books()), RowsForPayment(old(Books()), entry, portions))
      ensures remaining.Keys == EnrollmentsOf(portions) && forall e :: e in remaining ==> remaining[e] == 0
    {
      hide Integrity, NeededBefore, PortionLeft, Share, Need, PortionsFit, DistinctTargets, Restated, ActiveOn;
      hide Targeted;
      hide EnrollmentsOf, EnrollmentOf, TargetCharges, RestatedAt, Good, Sum;
      var db := Books();
      var due := TargetCharges(db, EnrollmentsOf(portions));
      OpenTargets(db, portions);
      remaining := map e | e in EnrollmentsOf(portions) :: Targeted(portions, e);
      PortionsWhole(db, portions, due);
      var touched: seq<nat> := [];
      ghost var rows: seq<Allocation> := [];
      for k := 0 to |due|
        invariant rows == PaymentRows(db, entry, portions, due, k)
        invariant Books() == db.(allocations := db.allocations + rows)
        invariant remaining.Keys == EnrollmentsOf(portions)
        invariant forall e :: e in remaining ==> remaining[e] == PortionLeft(db, portions, due, k, e)
        invariant forall i :: 0 <= i < |rows| ==> rows[i].charge in touched
      {
        var charge := charges[due[k]];
        var applied := Min(remaining[charge.enrollment], charge.amount - ActiveOn(db, charge.id));
        forall e | e in remaining
          ensures PortionLeft(db, portions, due, k + 1, e)
               == PortionLeft(db, portions, due, k, e)
                 - (if charge.enrollment == e then Share(db, portions, due, k) else 0)
        {
          ServeOneCharge(db, entry, portions, due, k, e);
        }
        ServeOneCharge(db, entry, portions, due, k, charge.enrollment);
        if applied > 0 {
          ghost var row := Allocation(|allocations|, entry, charge.id, applied, None);
          rows := rows + [row];
          allocations := allocations + [Allocation(|allocations|, entry, charge.id, applied, None)];
          remaining := remaining[charge.enrollment := remaining[charge.enrollment] - applied];
          touched := touched + [charge.id];
        }
      }
      forall e | e in remaining ensures remaining[e] == 0 { PortionsUsedUp(db, portions, due, e); }
      UnnamedCharges(db, rows, touched);
      TouchedIsEnough(db, Books(), touched);
      RecomputeChargeStatus(touched);
    }

    /** `create_discount`. */
    method CreateDiscount(student: int, charge: nat, amount: Money, at: nat, recorder: int)
      returns (r: Result<nat, LedgerError>)
      requires Valid()
      modifies this
      ensures Valid()
      ensures Books() == Next(old(Books()), GiveDiscount(student, charge, amount, at, recorder))
      ensures r == Answer(old(Books()), GiveDiscount(student, charge, amount, at, recorder), |old(entries)|)
    {
      hide Good, Crediting.ApplyCredit, CreditRows, ActiveOn;
      var db := Books();
      ghost var op := GiveDiscount(student, charge, amount, at, recorder);
      StepKeepsBooks(db, op, student);
      if IsClosed(db, PeriodKey(at)) {
        return Failure(ClosedPeriod);
      }
      var entry := Entry(|entries|, student, Discount, amount, at, recorder, None, false);
      entries := entries + [entry];
      if !ChargeOf(Books(), student, charge) {
        Rollback(db);
        return Failure(NotFound);
      }
      SameRemaining(db, entry, charge);
      var remaining := Remaining(Books(), charge);
      if charges[charge].status != Open || remaining <= 0 {
        Rollback(db);
        return Failure(ChargeNotOpen);
      }
      if amount > remaining {
        Rollback(db);
        return Failure(ExceedsRemaining(remaining));
      }
      GoodIsSound(db);
      FundingEntryKeepsIntegrity(db, entry);
      DiscountEffect(db, student, charge, amount, at, recorder, student);
      var created := ApplyCredit([entry.id], [charge], None);
      var applied := Consumed(Books(), entry.id);
      if applied < amount {
        assert false;
      }
      return Success(entry.id);
    }

    /** `create_adjustment`. */
    method CreateAdjustment(student: int, amount: Money, at: nat, recorder: int, superAdmin: bool)
      returns (r: Result<nat, LedgerError>)
      requires Valid()
      modifies this
      ensures Valid()
      ensures Books() == Next(old(Books()), Adjust(student, amount, at, recorder, superAdmin))
      ensures r == Answer(old(Books()), Adjust(student, amount, at, recorder, superAdmin), |old(entries)|)
    {
      StepKeepsBooks(Books(), Adjust(student, amount, at, recorder, superAdmin), student);
      hide Good;
      if !superAdmin {
        return Failure(Forbidden);
      }
      if IsClosed(Books(), PeriodKey(at)) {
        return Failure(ClosedPeriod);
      }
      entries := entries + [Entry(|entries|, student, Adjustment, amount, at, recorder, None, false)];
      return Success(|entries| - 1);
    }

    /** `void_payment`. */
    method VoidPaymentEntry(payment: nat, now: nat, recorder: int) returns (r: Result<nat, LedgerError>)
      requires Valid()
      modifies this
      ensures Valid()
      ensures Books() == Next(old(Books()), VoidPayment(payment, now, recorder))
      ensures r == Answer(old(Books()), VoidPayment(payment, now, recorder), |old(entries)|)
    {
      hide Good, Unapplied;
      var db := Books();
      StepKeepsBooks(db, VoidPayment(payment, now, recorder), 0);
      if !IsPayment(db, payment) {
        return Failure(NotFound);
      }
      if Voided(entries, payment) {
        return Failure(AlreadyVoided);
      }
      if HasRefund(entries, payment) {
        return Failure(AlreadyRefunded);
      }
      var target := entries[payment];
      if IsClosed(db, PeriodKey(target.at)) || IsClosed(db, PeriodKey(now)) {
        return Failure(ClosedPeriod);
      }
      var entry := Entry(|entries|, target.student, Void, target.amount, now, recorder, Some(payment), false);
      GoodIsSound(db);
      VoidIsReversible(db, payment, now, recorder);
      Reverse(entry, payment, target.amount);
      return Success(entry.id);
    }

    /** `refund_payment`. */
    method RefundPaymentEntry(payment: nat, amount: Money, toWallet: bool, now: nat, recorder: int, financeStaff: bool)
      returns (r: Result<nat, LedgerError>)
      requires Valid()
      modifies this
      ensures Valid()
      ensures Books() == Next(old(Books()), RefundPayment(payment, amount, toWallet, now, recorder, financeStaff))
      ensures r == Answer(old(Books()), RefundPayment(payment, amount, toWallet, now, recorder, financeStaff),
        |old(entries)|)
    {
      hide Good, Unapplied;
      var db := Books();
      StepKeepsBooks(db, RefundPayment(payment, amount, toWallet, now, recorder, financeStaff), 0);
      if !financeStaff {
        return Failure(Forbidden);
      }
      if !IsPayment(db, payment) {
        return Failure(NotFound);
      }
      if Voided(entries, payment) {
        return Failure(AlreadyVoided);
      }
      var target := entries[payment];
      if IsClosed(db, PeriodKey(target.at)) || IsClosed(db, PeriodKey(now)) {
        return Failure(ClosedPeriod);
      }
      var refundable := target.amount - Refunded(db, payment);
      if amount > refundable {
        return Failure(ExceedsRefundable(refundable));
      }
      var cashOut := !toWallet;
      var entry := Entry(|entries|, target.student, Refund, amount, now, recorder, Some(payment), cashOut);
      GoodIsSound(db);
      Reverse(entry, payment, amount);
      return Success(entry.id);
    }

    /** What voids and refunds share: the entry, the reversal, the statuses. */
    method Reverse(entry: Entry, payment: nat, amount: nat)
      requires Integrity(Books()) && Reversible(Books(), entry, payment, amount) && entry.id == |entries|
      modifies this
      ensures Books() == AfterReversal(old(Books()), entry, payment, amount)
    {
      hide Unapplied, Integrity;
      ghost var db := Books();
      IntegrityHasRows(db);
      AddEntryRows(db, entry);
      entries := entries + [entry];
      var affected := ReverseAllocations(payment, amount, entry.id);
      TouchedIsEnough(db, Books(), affected);
      RecomputeChargeStatus(affected);
    }

    /** `allocate_credit`. */
    method AllocateCredit(student: int, charge: nat, requested: Option<Money>) returns (r: Result<nat, LedgerError>)
      requires Valid()
      modifies this
      ensures Valid()
      ensures Books() == Next(old(Books()), Allocate(student, charge, requested))
      ensures r.Success? <==> ErrorOf(old(Books()), Allocate(student, charge, requested)).None?
      ensures r.Failure? ==> ErrorOf(old(Books()), Allocate(student, charge, requested)) == Some(r.error)
      ensures r.Success? ==> |old(allocations)| < |allocations| && r.value == allocations[|allocations| - 1].entry
      ensures r.Success? && requested.Some? ==>
        Wallet(Books(), student) == Wallet(old(Books()), student) - requested.value
      ensures r.Success? && requested.None? ==>
        charge < |charges| && (Wallet(Books(), student) == 0 || InFull(Books(), charge))
    {
      hide Good, CreditRows, Crediting.ApplyCredit, Wallet, CreditEntries, Integrity, Placed, ActiveOn;
      var db := Books();
      CreditIsMoved(db, student, charge, requested);
      StepKeepsBooks(db, Allocate(student, charge, requested), student);
      if !ChargeOf(db, student, charge) {
        return Failure(NotFound);
      }
      if charges[charge].status == Cancelled {
        return Failure(ChargeIsCancelled);
      }
      var remaining := Remaining(db, charge);
      if remaining <= 0 {
        return Failure(AlreadySettled);
      }
      var wallet := Wallet(db, student);
      var amount := if requested.Some? then requested.value else Min(wallet, remaining);
      if amount <= 0 {
        return Failure(NoCredit);
      }
      if amount > wallet {
        return Failure(ExceedsWallet(wallet));
      }
      if amount > remaining {
        return Failure(ExceedsRemaining(remaining));
      }
      GoodIsSound(db);
      AllocatePlaces(db, student, charge, requested);
      IntegrityHasRows(db);
      CreditEntriesPay(db, student);
      var last := PayCharge(CreditEntries(db, student), charge, amount, student);
      return Success(last);
    }

    /** The loop of `allocate_credit`: nothing is outstanding at its end. */
    method PayCharge(payers: seq<nat>, charge: nat, amount: int, ghost student: int) returns (last: nat)
      requires Integrity(Books()) && Payers(Books(), payers, student) && Distinct(payers)
      requires charge < |charges| && 0 < amount && Placed(Books(), payers, [charge], Some(amount)) == amount
      modifies this`allocations, this`charges
      ensures Books() == Crediting.ApplyCredit(old(Books()), payers, [charge], Some(amount))
      ensures |old(allocations)| < |allocations| && last == allocations[|allocations| - 1].entry
    {
      hide Integrity, Placed, PaidSoFar, CreditRows, Available, Need, UsableOf, NeedsOf, Restated, RestatedAt;
      ghost var db := Books();
      ghost var slices: seq<Waterfall.Slice> := [];
      AmountIsNeeded(db, payers, charge, amount);
      NothingPaid(db, payers, charge, amount);
      var outstanding, i := amount, 0;
      last := 0;
      while i < |payers| && outstanding > 0
        invariant i <= |payers|
        invariant Books() == AddAllocations(db, RowsOf(|db.allocations|, payers, [charge], slices))
        invariant PaidSoFar(db, payers, charge, amount, i, outstanding, slices)
        invariant slices != [] ==> |db.allocations| < |allocations| && last == allocations[|allocations| - 1].entry
      {
        PayFromEntry(db, payers, charge, amount, i, outstanding, slices);
        EntryNotUsedYet(db, payers, charge, amount, i, outstanding, slices);
        var available := Available(Books(), payers[i]);
        if available > 0 {
          var portion := Min(available, outstanding);
          allocations := allocations + [Allocation(|allocations|, payers[i], charge, portion, None)];
          outstanding := outstanding - portion;
          last := payers[i];
          slices := slices + [Waterfall.Slice(i, 0, portion)];
        }
        i := i + 1;
      }
      PaidInFull(db, payers, charge, amount, i, outstanding, slices);
      RowsNameCharge(db, payers, charge, amount);
      UnnamedCharges(db, CreditRows(db, payers, [charge], Some(amount)), [charge]);
      TouchedIsEnough(db, Books(), [charge]);
      RecomputeChargeStatus([charge]);
    }

    /** `allocate_course_credit`. */
    method AllocateCourseCredit(student: int, enrollment: nat, requested: Option<Money>)
      returns (r: Result<int, LedgerError>)
      requires Valid()
      modifies this
      ensures Valid()
      ensures Books() == Next(old(Books()), AllocateCourse(student, enrollment, requested))
      ensures r == CourseAnswer(old(Books()), student, enrollment, requested)
      ensures r.Success? ==> r.value == Wallet(old(Books()), student) - Wallet(Books(), student)
      ensures r.Success? && requested.Some? ==> r.value == requested.value
      ensures r.Success? && requested.None? ==>
        Wallet(Books(), student) == 0 || EnrollmentDebt(Books(), enrollment) == 0
    {
      hide Good, Crediting.ApplyCredit, CreditRows, Wallet, ListBalance, EnrollmentDebt;
      var db := Books();
      CourseAnswerIsMoved(db, student, enrollment, requested);
      StepKeepsBooks(db, AllocateCourse(student, enrollment, requested), student);
      if !(enrollment < |enrollments| && enrollments[enrollment].student == student) {
        return Failure(InvalidTarget);
      }
      var wallet := Wallet(db, student);
      if wallet <= 0 {
        return Failure(NoCredit);
      }
      var payees := CourseCharges(db, student, enrollment);
      var balance := ListBalance(db, payees);
      if balance <= 0 {
        return Failure(NothingToAllocate);
      }
      var amount := if requested.Some? then requested.value else Min(wallet, balance);
      if amount > wallet {
        return Failure(ExceedsWallet(wallet));
      }
      if amount > balance {
        return Failure(ExceedsBalance(balance));
      }
      GoodIsSound(db);
      OrderedLists(db, student, enrollment);
      CourseCreditPlaces(db, student, enrollment, requested);
      var payers := CreditEntries(db, student);
      var created := ApplyCredit(payers, payees, Some(amount));
      assert created != [];
      return Success(amount);
    }

    /** `auto_allocate_student_credit`. */
    method AutoAllocateStudentCredit(student: int, preferred: Option<nat>)
      requires Valid()
      modifies this
      ensures Valid()
      ensures Books() == Next(old(Books()), AutoAllocate(student, preferred))
    {
      hide Good, Crediting.ApplyCredit, CreditRows, CreditEntries, OpenCharges, Integrity, ActiveOn, Sum;
      ghost var db := Books();
      StepKeepsBooks(db, AutoAllocate(student, preferred), student);
      GoodIsSound(db);
      CreditEntriesPay(db, student);
      var payers := CreditEntries(Books(), student);
      if payers == [] {
        NoPayers(db, student, preferred);
        return;
      }
      if preferred.Some? {
        OpenChargesTake(db, student, preferred);
        CreditApplied(db, student, OpenCharges(db, student, preferred), None, student);
        CreditOnEmpty(db, payers);
        var payees := OpenCharges(Books(), student, preferred);
        if payees != [] {
          var created := ApplyCredit(payers, payees, None);
        }
      }
      ghost var first := Books();
      SamePayers(db, student, preferred);
      OpenChargesTake(first, student, None);
      CreditOnEmpty(first, payers);
      var payees := OpenCharges(Books(), student, None);
      if payees != [] {
        var created := ApplyCredit(payers, payees, None);
      }
    }

    /** `withdrawal_calculation`. */
    method WithdrawalCalculation(enrollment: nat, day: int) returns (r: Result<Calculation, LedgerError>)
      requires EnrollmentReady(Books(), enrollment)
      ensures r.Failure? <==> AnyUnmatched(Books(), enrollment)
      ensures r.Failure? ==> r.error == MonthNotFound
      ensures r.Success? ==> r.value == CalculationOf(Books(), enrollment, day)
    {
      hide Ordering.Selects, Schedule.BilledStarts, FutureCharges, DayNumber;
      var db := Books();
      var course := courses[enrollments[enrollment].course];
      var starts := Schedule.ScanBilledStarts(course.start, DayNumber(course.end),
        LocalDay(enrollments[enrollment].enrolledAt));
      var cancelled: seq<nat> := [];
      FutureStarts(db, enrollment, day);
      for c := 0 to |charges|
        invariant Ordering.Selects(cancelled, c, IsFuture(db, enrollment, day), IdKey())
        invariant forall d :: 0 <= d < c ==> !Unmatched(db, enrollment, d)
      {
        ghost var before := cancelled;
        var charge := charges[c];
        if charge.enrollment == enrollment && charge.status != Cancelled && charge.kind == Tuition {
          if charge.sequenceNo < 1 || charge.sequenceNo > |starts| {
            assert Unmatched(db, enrollment, c);
            return Failure(MonthNotFound);
          }
          if DayNumber(starts[charge.sequenceNo - 1]) >= day {
            cancelled := cancelled + [c];
          }
        }
        VisitCharge(db, enrollment, day, before, c);
      }
      AllVisited(db, enrollment, day, cancelled);
      var owed := Sum(charges, KeptDebtOf(db, enrollment, cancelled));
      var amount := Sum(charges, AmountIn(cancelled));
      return Success(Calculation(cancelled, AppliedTo(allocations, cancelled), owed, amount));
    }

    /** `preview_withdrawal`: what is announced is what the enrollment owes afterwards. */
    method PreviewWithdrawal(enrollment: nat, today: int) returns (r: Result<Calculation, LedgerError>)
      requires Valid()
      ensures r.Failure? <==> enrollment >= |enrollments|
      ensures r.Success? ==> r.value == CalculationOf(Books(), enrollment, today)
      ensures r.Success? ==> enrollments[enrollment].status != Withdrawn ==> forall actor: int, now: nat ::
        r.value.owed == EnrollmentDebt(AfterWithdraw(Books(), enrollment, Some(actor), today, now), enrollment)
    {
      hide Good, FutureCharges, AfterWithdraw, EnrollmentDebt, StillOwed, WithdrawError;
      if enrollment >= |enrollments| {
        return Failure(NotFound);
      }
      GoodIsSound(Books());
      EveryMonthMatches(Books(), enrollment);
      r := WithdrawalCalculation(enrollment, today);
      if enrollments[enrollment].status != Withdrawn {
        forall actor: int, now: nat
          ensures r.value.owed
            == EnrollmentDebt(AfterWithdraw(Books(), enrollment, Some(actor), today, now), enrollment)
        {
          WithdrawAccepted(Books(), enrollment, actor, today);
          PreviewIsExact(Books(), enrollment, Some(actor), today, now);
        }
      }
    }

    /** `reverse_withdrawal_allocations`. */
    method ReverseWithdrawalAllocations(student: int, actor: int, released: seq<nat>, now: nat,
                                        ghost cancelled: seq<nat>)
      requires RowsOk(Books()) && released == AppliedTo(allocations, cancelled)
      modifies this`entries, this`allocations
      ensures Books() == AfterRelease(old(Books()), student, cancelled, now, actor)
    {
      hide AppliedTo, Released, AnyReleased, RowsOk;
      ghost var db := Books();
      ReleasedAmount(db, cancelled);
      AppliedToMembers(db.allocations, cancelled);
      if released == [] {
        return;
      }
      var amount := Sum(allocations, AmountListed(released));
      var id := |entries|;
      entries := entries + [Entry(id, student, WithdrawalReversal, amount, now, actor, None, false)];
      for k := 0 to |released|
        invariant |allocations| == |db.allocations|
        invariant Books() == db.(entries := db.entries + [WithdrawalEntry(db, student, amount, now, actor)],
          allocations := allocations)
        invariant forall i :: 0 <= i < |allocations| ==>
          allocations[i] == if i in released[..k] then db.allocations[i].(reversedBy := Some(id)) else db.allocations[i]
      {
        assert released[k] in released;
        allocations := allocations[released[k] := allocations[released[k]].(reversedBy := Some(id))];
      }
      assert released[..|released|] == released;
      assert allocations == ReleasedRows(db.allocations, cancelled, id);
    }

    /** The loops of the source that set the status of a list of charges to cancelled. */
    method CancelCharges(cancelled: seq<nat>)
      requires RowsOk(Books()) && forall j :: 0 <= j < |cancelled| ==> cancelled[j] < |charges|
      modifies this`charges
      ensures Books() == AfterCancel(old(Books()), cancelled)
    {
      ghost var db := Books();
      for k := 0 to |cancelled|
        invariant |charges| == |db.charges|
        invariant forall i :: 0 <= i < |charges| ==>
          charges[i] == if i in cancelled[..k] then db.charges[i].(status := Cancelled) else db.charges[i]
      {
        charges := charges[cancelled[k] := charges[cancelled[k]].(status := Cancelled)];
      }
      assert cancelled[..|cancelled|] == cancelled;
      forall i | 0 <= i < |charges| ensures charges[i] == CancelledRow(db.charges[i], cancelled) {
        assert ChargeRowOk(db, i);
      }
    }

    /** `withdraw_student`. */
    method WithdrawStudent(enrollment: nat, actor: Option<int>, today: int, now: nat)
      returns (r: Result<nat, LedgerError>)
      requires Valid()
      modifies this
      ensures Valid()
      ensures Books() == Next(old(Books()), Withdraw(enrollment, actor, today, now))
      ensures r == Answer(old(Books()), Withdraw(enrollment, actor, today, now), enrollment)
    {
      hide Good, FutureCharges, RowsOk, StillOwed, Starts, AppliedTo, AnyReleased, AnyUnmatched, AfterCancel;
      hide CourseOk, Droppable, ReleasedRows, Released, Voided, ActiveOn, Integrity;
      var db := Books();
      StepKeepsBooks(db, Withdraw(enrollment, actor, today, now), 0);
      if enrollment >= |enrollments| {
        return Failure(NotFound);
      }
      GoodIsSound(db);
      EveryMonthMatches(db, enrollment);
      var e := enrollments[enrollment];
      if e.status == Withdrawn {
        return Success(enrollment);
      }
      var found := WithdrawalCalculation(enrollment, today);
      var calculation := found.value;
      ReleasedAmount(db, calculation.cancelled);
      FutureChargesDrop(db, enrollment, today);
      if calculation.released != [] && actor.None? {
        return Failure(ActorRequired);
      }
      var who := if actor.Some? then actor.value else 0;
      if calculation.released != [] {
        ReverseWithdrawalAllocations(e.student, who, calculation.released, now, calculation.cancelled);
      }
      ReleaseRows(db, e.student, calculation.cancelled, now, who);
      CancelCharges(calculation.cancelled);
      enrollments := enrollments[enrollment := e.(status := Withdrawn)];
      return Success(enrollment);
    }

    /** The write-off of one partly paid month: only a closed period refuses it. */
    method WriteOff(student: int, charge: nat, remainder: Money, now: nat, actor: int)
      returns (refused: Option<LedgerError>)
      requires Valid() && charge < |charges| && charges[charge].student == student && charges[charge].status == Open
      requires remainder == Remaining(Books(), charge)
      modifies this
      ensures Valid()
      ensures refused == if IsClosed(old(Books()), PeriodKey(now)) then Some(ClosedPeriod) else None
      ensures refused.None? ==> Books() == AfterDiscount(old(Books()), student, charge, remainder, now, actor)
    {
      hide Good, ActiveOn, DiscountError, AfterDiscount;
      WriteOffRefused(Books(), student, charge, remainder, now);
      var discounted := CreateDiscount(student, charge, remainder, now, actor);
      return if discounted.Failure? then Some(discounted.error) else None;
    }

    /** `convert_future_charges_to_grant`. */
    method ConvertFutureChargesToGrant(enrollment: nat, today: int, now: nat, actor: int)
      returns (r: Result<Outcome, LedgerError>)
      requires Valid() && enrollment < |enrollments|
      modifies this
      ensures Valid()
      ensures r.Failure? <==> ConvertError(old(Books()), enrollment, today, now).Some?
      ensures r.Failure? ==>
        ConvertError(old(Books()), enrollment, today, now) == Some(r.error) && Books() == old(Books())
      ensures r.Success? ==> Books() == AfterConvert(old(Books()), enrollment, today, now, actor)
      ensures r.Success? ==> var db, cs := old(Books()), FutureCharges(old(Books()), enrollment, today);
        && r.value.cancelledMonths == Sum(cs, MonthIn(db)) && r.value.generatedMonths == 0
        && r.value.cancelledAmount == Sum(cs, CancelledIn(db)) && r.value.writtenOff == Sum(cs, WrittenOffIn(db))
    {
      hide Good, FutureCharges, ActiveOn, Starts, ConvertError, GrantStep, GrantSteps, StillOwed, AfterDiscount;
      hide DiscountError, Wallet, Outstanding;
      hide AppliedTo, AppliedOf, Integrity, RowsOk, Droppable, Distinct, WritesOff, WrittenOffIn, CancelledIn;
      hide MonthIn, Sum, EnrollmentReady;
      var db := Books();
      GoodIsSound(db);
      EveryMonthMatches(db, enrollment);
      FutureChargesDrop(db, enrollment, today);
      FutureChargesSelected(db, enrollment, today);
      var found := WithdrawalCalculation(enrollment, today);
      var due, released := found.value.cancelled, found.value.released;
      var student := enrollments[enrollment].student;
      var months, cancelled, writtenOff := 0, 0, 0;
      NoSteps(db, due, now, actor);
      for k := 0 to |due|
        invariant Books() == GrantSteps(db, due, k, now, actor)
        invariant IsClosed(db, PeriodKey(now)) ==> forall j :: 0 <= j < k ==> !WritesOff(db, due[j])
        invariant 0 <= months == Sum(due[..k], MonthIn(db))
        invariant cancelled == Sum(due[..k], CancelledIn(db)) && writtenOff == Sum(due[..k], WrittenOffIn(db))
      {
        var c := due[k];
        HalfConverted(db, student, due, k, now, actor);
        CoveredIsActive(db, due, c);
        SoundIsGood(Books());
        GrantBranch(Books(), c, now, actor);
        ConvertSumsStep(db, due, k);
        var covered := AppliedOf(db.allocations, released, c);
        if covered <= 0 {
          charges := charges[c := charges[c].(status := Cancelled)];
          months := months + 1;
          cancelled := cancelled + charges[c].amount;
        } else {
          var remainder := charges[c].amount - covered;
          if remainder > 0 {
            var refused := WriteOff(student, c, remainder, now, actor);
            if refused.Some? {
              FirstWriteOffRefused(db, enrollment, today, now, k);
              Rollback(db);
              return Failure(refused.value);
            }
            writtenOff := writtenOff + remainder;
          }
        }
      }
      assert due[..|due|] == due;
      ConversionAccepted(db, enrollment, today, now);
      ConvertEffect(db, enrollment, today, now, actor, student);
      SoundIsGood(Books());
      return Success(Outcome(months, cancelled, writtenOff, 0));
    }

    /** `create_course`, as far as the ledger depends on it. */
    method CreateCourse(course: Course) returns (r: Result<nat, LedgerError>)
      requires Valid()
      modifies this
      ensures Valid()
      ensures Books() == Next(old(Books()), Operation.CreateCourse(course))
      ensures r == Answer(old(Books()), Operation.CreateCourse(course), |old(courses)|)
    {
      StepKeepsBooks(Books(), Operation.CreateCourse(course), 0);
      hide Good, CourseOk;
      if !CourseOk(course) {
        return Failure(InvalidTarget);
      }
      courses := courses + [course];
      return Success(|courses| - 1);
    }

    /** Plans the tuition of an enrollment. */
    method PlannedCharges(enrollment: nat, paymentDay: Option<nat>) returns (planned: seq<Schedule.PlannedCharge>)
      requires EnrollmentReady(Books(), enrollment)
      ensures planned == PlanOf(Books(), enrollment, paymentDay)
    {
      hide Schedule.Plan, Schedule.BilledStarts;
      var e := enrollments[enrollment];
      var course := courses[e.course];
      var day := if paymentDay.Some? && paymentDay.value != 0 then paymentDay.value
        else Schedule.DefaultPaymentDay(course.start);
      planned := Schedule.PlanSchedule(course.start, DayNumber(course.end), LocalDay(e.enrolledAt), day, e.price);
    }

    /** Adds a charge for every planned month. */
    method AddPlanned(enrollment: nat, student: int, planned: seq<Schedule.PlannedCharge>)
      modifies this`charges
      ensures Books() == AddCharges(old(Books()), ChargesFromPlan(old(Books()), enrollment, student, planned))
    {
      ghost var db := Books();
      for i := 0 to |planned|
        invariant charges == db.charges + ChargesFromPlan(db, enrollment, student, planned[..i])
      {
        var p := planned[i];
        charges := charges + [Charge(|charges|, enrollment, student, p.sequenceNo, p.amount, p.dueDay, Tuition, Open)];
      }
      assert planned[..|planned|] == planned;
    }

    /** `generate_schedule_for_enrollment`. */
    method GenerateSchedule(enrollment: nat, paymentDay: Option<nat>) returns (r: Result<nat, LedgerError>)
      requires Valid()
      modifies this
      ensures Valid()
      ensures Books() == Next(old(Books()), Generate(enrollment, paymentDay))
      ensures r == Answer(old(Books()), Generate(enrollment, paymentDay), enrollment)
    {
      hide Good, PlanOf, CourseOk, Starts;
      var db := Books();
      StepKeepsBooks(db, Generate(enrollment, paymentDay), 0);
      if enrollment >= |enrollments| {
        return Failure(NotFound);
      }
      GoodIsReady(db, enrollment);
      if enrollments[enrollment].mode == Grant {
        return Success(enrollment);
      }
      if HasCharges(db, enrollment) {
        return Success(enrollment);
      }
      var planned := PlannedCharges(enrollment, paymentDay);
      AddPlanned(enrollment, enrollments[enrollment].student, planned);
      return Success(enrollment);
    }

    /** `enroll_student`, as far as the ledger depends on it. */
    method EnrollStudent(student: int, course: nat, price: int, enrolledAt: nat, mode: BillingMode,
                         paymentDay: Option<nat>,
                         today: int, courseActive: bool, studentActive: bool) returns (r: Result<nat, LedgerError>)
      requires Valid()
      modifies this
      ensures Valid()
      ensures Books() == Next(old(Books()),
        Enroll(student, course, price, enrolledAt, mode, paymentDay, today, courseActive, studentActive))
      ensures r == Answer(old(Books()),
        Enroll(student, course, price, enrolledAt, mode, paymentDay, today, courseActive, studentActive),
        |old(enrollments)|)
    {
      hide Good, AfterGenerate, CourseOk, Starts, DayNumber;
      var db := Books();
      StepKeepsBooks(db, Enroll(student, course, price, enrolledAt, mode, paymentDay, today, courseActive,
        studentActive), 0);
      if course >= |courses| || !courseActive {
        return Failure(CourseInactive);
      }
      if DayNumber(courses[course].end) <= today {
        return Failure(CourseEnded);
      }
      if !(0 < price <= MAX_CENTS) {
        return Failure(InvalidAmount);
      }
      if !studentActive {
        return Failure(StudentInactive);
      }
      if EnrolledIn(db, student, course) {
        return Failure(AlreadyEnrolled);
      }
      var e := Enrollment(student, course, price, enrolledAt, Active, mode);
      EnrolledIsGood(db, e);
      enrollments := enrollments + [e];
      GenerateStep(Books(), |db.enrollments|, paymentDay);
      var generated := GenerateSchedule(|db.enrollments|, paymentDay);
      return Success(|db.enrollments|);
    }

    /** `resume_billing_after_grant`. */
    method ResumeBillingAfterGrant(enrollment: nat, paymentDay: Option<nat>, today: int) returns (outcome: Outcome)
      requires EnrollmentReady(Books(), enrollment)
      modifies this`charges
      ensures Books() == AfterResume(old(Books()), enrollment, paymentDay, today)
      ensures outcome == Outcome(0, 0, 0, |charges| - |old(charges)|)
    {
      hide PlanOf, CourseOk, Starts, DayNumber, Billed;
      var db := Books();
      var existing := set c | 0 <= c < |charges| && LiveTuition(db, enrollment, c) :: charges[c].sequenceNo;
      ExistingIsBilled(db, enrollment, existing);
      var planned := PlannedCharges(enrollment, paymentDay);
      var missing: seq<Schedule.PlannedCharge> := [];
      for i := 0 to |planned|
        invariant missing == Missing(db, enrollment, today, planned[..i])
      {
        assert planned[..i + 1][..i] == planned[..i];
        if DayNumber(planned[i].periodStart) > today && planned[i].sequenceNo !in existing {
          missing := missing + [planned[i]];
        }
      }
      assert planned[..|planned|] == planned;
      AddPlanned(enrollment, enrollments[enrollment].student, missing);
      return Outcome(0, 0, 0, |missing|);
    }

    /** `change_billing_mode`. */
    method ChangeBillingMode(enrollment: nat, target: BillingMode, paymentDay: Option<nat>, today: int, now: nat,
                             recorder: int)
      returns (r: Result<Outcome, LedgerError>)
      requires Valid()
      modifies this
      ensures Valid()
      ensures Books() == Next(old(Books()), ChangeMode(enrollment, target, paymentDay, today, now, recorder))
      ensures r.Failure? ==>
        ErrorOf(old(Books()), ChangeMode(enrollment, target, paymentDay, today, now, recorder)) == Some(r.error)
      ensures r.Success? ==>
        ErrorOf(old(Books()), ChangeMode(enrollment, target, paymentDay, today, now, recorder)) == None
      ensures r.Success? && target == Grant ==> forall student | student == old(enrollments[enrollment]).student ::
        Outstanding(Books(), student)
          == Outstanding(old(Books()), student) - r.value.cancelledAmount - r.value.writtenOff
      ensures r.Success? && target == Grant ==>
        var db, cs := old(Books()), FutureCharges(old(Books()), enrollment, today);
        && r.value.cancelledMonths == Sum(cs, MonthIn(db)) && r.value.generatedMonths == 0
        && r.value.cancelledAmount == Sum(cs, CancelledIn(db)) && r.value.writtenOff == Sum(cs, WrittenOffIn(db))
      ensures r.Success? && target == Paid ==> r.value == Outcome(0, 0, 0, |charges| - |old(charges)|)
    {
      hide Good, CourseOk, Starts, AfterConvert, AfterResume, ConvertError, FutureCharges, Outstanding, Wallet;
      var db := Books();
      StepKeepsBooks(db, ChangeMode(enrollment, target, paymentDay, today, now, recorder), 0);
      if enrollment >= |enrollments| {
        return Failure(NotFound);
      }
      GoodIsReady(db, enrollment);
      var e := enrollments[enrollment];
      if e.status != Active {
        return Failure(EnrollmentNotActive);
      }
      if e.mode == target {
        return Failure(ModeUnchanged);
      }
      if target == Grant {
        r := ConvertFutureChargesToGrant(enrollment, today, now, recorder);
        if r.Failure? {
          return;
        }
        ConvertKeepsEnrollments(db, enrollment, today, now, recorder);
        GoodIsSound(db);
        ModeChangeEffect(db, enrollment, target, paymentDay, today, now, recorder, e.student);
        enrollments := enrollments[enrollment := enrollments[enrollment].(mode := Grant)];
      } else {
        enrollments := enrollments[enrollment := e.(mode := Paid)];
        var outcome := ResumeBillingAfterGrant(enrollment, paymentDay, today);
        r := Success(outcome);
      }
    }

    /** `close_period`. */
    method CloseAccountingPeriod(period: nat, superAdmin: bool) returns (r: Result<nat, LedgerError>)
      requires Valid()
      modifies this
      ensures Valid()
      ensures Books() == Next(old(Books()), ClosePeriod(period, superAdmin))
      ensures r == Answer(old(Books()), ClosePeriod(period, superAdmin), period)
    {
      StepKeepsBooks(Books(), ClosePeriod(period, superAdmin), 0);
      hide Good;
      if !superAdmin {
        return Failure(Forbidden);
      }
      periods := periods[period := PeriodClosed];
      return Success(period);
    }

    /** `reopen_period`. */
    method ReopenAccountingPeriod(period: nat, superAdmin: bool) returns (r: Result<nat, LedgerError>)
      requires Valid()
      modifies this
      ensures Valid()
      ensures Books() == Next(old(Books()), ReopenPeriod(period, superAdmin))
      ensures r == Answer(old(Books()), ReopenPeriod(period, superAdmin), period)
    {
      StepKeepsBooks(Books(), ReopenPeriod(period, superAdmin), 0);
      hide Good;
      if !superAdmin {
        return Failure(Forbidden);
      }
      if period !in periods {
        return Failure(NotFound);
      }
      periods := periods[period := PeriodOpen];
      return Success(period);
    }
  }
}
