/**
 What each request may ask for and what it writes, read off the tables: when it is turned
 down and why, which ledger entries an accepted one adds, and what it moves.
 */
module Rules {
  import opened Arithmetic
  import opened Wrappers
  import opened Sums
  import opened Calendar
  import opened Tables
  import opened Balances
  import opened Posting
  import opened Queries
  import opened Crediting
  import opened Payments
  import opened Reversals
  import opened Concessions
  import opened Withdrawals
  import opened Billing
  import opened Grants
  import opened Operations
  import opened Runs
  import opened History
  import opened Priority

  predicate IsAccepted(db: Db, op: Operation) { ErrorOf(db, op).None? }

  // ---------------------------------------------------------------------------
  // Wallet credit
  // ---------------------------------------------------------------------------

  /** `next` differs from `db` in allocations and in the status of charges only, and the
      balances of other students are as they were. */
  ghost predicate OnlyApplied(db: Db, next: Db, student: int) {
    && next == db.(allocations := next.allocations, charges := next.charges)
    && db.allocations <= next.allocations && |next.charges| == |db.charges|
    && (forall c :: 0 <= c < |db.charges| ==> next.charges[c] == db.charges[c].(status := next.charges[c].status))
    && forall other :: other != student ==>
         Wallet(next, other) == Wallet(db, other) && Outstanding(next, other) == Outstanding(db, other)
  }

  lemma PassOnlyApplies(db: Db, next: Db, student: int, charges: seq<nat>, limit: Option<int>)
    requires WalletPass(db, next, student, charges, limit)
    ensures OnlyApplied(db, next, student)
  {
    hide CreditRows, CreditEntries, Outstanding, Wallet, Integrity, StatusFor, Payees;
    forall other: int | other != student
      ensures Wallet(next, other) == Wallet(db, other) && Outstanding(next, other) == Outstanding(db, other)
    {
      CreditApplied(db, student, charges, limit, other);
    }
  }

  /** Wallet credit goes to a charge of the student that is neither cancelled nor settled,
      when there is any and what is asked for is there and still owed; nothing else is
      refused.  Exactly what was asked for moves, and without a wish as much as the wallet
      holds or the charge needs. */
  lemma {:induction false} AllocationRule(db: Db, student: int, charge: nat, requested: Option<Money>)
    requires Good(db)
    ensures var op, next := Allocate(student, charge, requested), Next(db, Allocate(student, charge, requested));
      && (IsAccepted(db, op) <==>
            && charge < |db.charges| && db.charges[charge].student == student
            && db.charges[charge].status == Open && 0 < Wallet(db, student)
            && (requested.Some? ==>
              requested.value <= Wallet(db, student) && requested.value <= Remaining(db, charge)))
      && (IsAccepted(db, op) ==>
            var moved := Wallet(db, student) - Wallet(next, student);
            && OnlyApplied(db, next, student) && 0 < moved
            && (requested.Some? ==> moved == requested.value)
            && (requested.None? ==> Wallet(next, student) == 0 || InFull(next, charge))
            && Outstanding(next, student) == Outstanding(db, student) - moved
            && forall c: nat :: ActiveOn(next, c) == ActiveOn(db, c) + if c == charge then moved else 0)
  {
    hide CreditEntries, ApplyCredit, Outstanding, Wallet, OnlyApplied, Integrity, RowsOk, ActiveOn;
    var op := Allocate(student, charge, requested);
    var next := Next(db, op);
    GoodIsSound(db);
    WalletNonNegative(db, student);
    ChargeStates(db, charge);
    if IsAccepted(db, op) {
      var limit := ChargePass(db, op);
      PassOnlyApplies(db, next, student, [charge], limit);
      PassKeeps(db, next, student, [charge], limit);
      AllocateEffect(db, student, charge, requested, student);
      WalletNonNegative(next, student);
      forall c: nat | c != charge ensures ActiveOn(next, c) == ActiveOn(db, c) {
        CreditEntriesPay(db, student);
        OthersGainNothing(db, student, CreditEntries(db, student), [charge], limit, c);
      }
    }
  }

  lemma WalletNonNegative(db: Db, student: int)
    ensures 0 <= Wallet(db, student)
  {
  }

  lemma ChargeStates(db: Db, c: nat)
    requires Integrity(db)
    ensures c < |db.charges| ==> db.charges[c].status != Cancelled ==>
      (db.charges[c].status == Open <==> 0 < Remaining(db, c))
  {
    if c < |db.charges| { assert ChargeBalanced(db, c); }
  }

  function DebtAt(db: Db, enrollment: nat): nat -> int {
    (c: nat) => if c < |db.charges| then DebtOf(db, enrollment)(db.charges[c]) else 0
  }

  /** The balance course credit is checked against is what the enrollment owes. */
  lemma CourseBalance(db: Db, student: int, enrollment: nat)
    requires Integrity(db) && enrollment < |db.enrollments| && db.enrollments[enrollment].student == student
    ensures ListBalance(db, CourseCharges(db, student, enrollment)) == EnrollmentDebt(db, enrollment)
  {
    var cs, n := CourseCharges(db, student, enrollment), |db.charges|;
    CourseChargesTake(db, student, enrollment);
    CourseChargesSelected(db, student, enrollment);
    ListBalanceIsNeed(db, cs);
    forall c: nat | c < n ensures DebtAt(db, enrollment)(c) == if c in cs then NeedIn(db)(c) else 0 {
      assert ChargeRowOk(db, c) && ChargeBalanced(db, c);
      assert IsLiveFor(db, student, enrollment)(c) <==> c in cs;
      assert NeedIn(db)(c) == Need(db, c) == Remaining(db, c);
      assert DebtOf(db, enrollment)(db.charges[c])
        == if db.charges[c].enrollment == enrollment && db.charges[c].status != Cancelled
           then db.charges[c].amount - ActiveOn(db, c) else 0;
    }
    WholeIsTableSum(cs, NeedsOf(db, cs), n, NeedIn(db), DebtAt(db, enrollment));
    SumMapped(Range(n), db.charges, DebtAt(db, enrollment), DebtOf(db, enrollment));
  }

  /** When only charges of one enrollment change, its debt falls as its student's does. */
  lemma DebtFollows(db: Db, next: Db, enrollment: nat)
    requires Integrity(db) && Integrity(next) && enrollment < |db.enrollments| && |next.charges| == |db.charges|
    requires forall c :: 0 <= c < |db.charges| ==>
      && next.charges[c] == db.charges[c].(status := next.charges[c].status)
      && (next.charges[c].status == Cancelled <==> db.charges[c].status == Cancelled)
    requires forall c :: 0 <= c < |db.charges| && db.charges[c].enrollment != enrollment ==>
      ActiveOn(next, c) == ActiveOn(db, c)
    ensures var student := db.enrollments[enrollment].student;
      EnrollmentDebt(db, enrollment) - EnrollmentDebt(next, enrollment)
        == Outstanding(db, student) - Outstanding(next, student)
  {
    hide ActiveOn, Outstanding, Balanced;
    var student := db.enrollments[enrollment].student;
    var gain := (c: Charge) =>
      if c.enrollment == enrollment && c.status != Cancelled then ActiveOn(next, c.id) - ActiveOn(db, c.id) else 0;
    forall i | 0 <= i < |db.charges|
      ensures RemainingFor(next, student)(next.charges[i])
        == RemainingFor(db, student)(db.charges[i]) - gain(db.charges[i])
      ensures DebtOf(next, enrollment)(next.charges[i]) == DebtOf(db, enrollment)(db.charges[i]) - gain(db.charges[i])
    {
      assert ChargeRowOk(db, i);
    }
    SumLowered(db.charges, next.charges, RemainingFor(db, student), RemainingFor(next, student), gain);
    SumLowered(db.charges, next.charges, DebtOf(db, enrollment), DebtOf(next, enrollment), gain);
    OutstandingIsSumOfRemaining(db, student);
    OutstandingIsSumOfRemaining(next, student);
  }

  /** Course credit goes to an enrollment of the student that owes something, when the
      wallet holds any and what is asked for is there and still owed; nothing else is
      refused.  Exactly what was asked for moves, and without a wish as much as the wallet
      holds or the enrollment owes. */
  lemma {:induction false} CourseCreditRule(db: Db, student: int, enrollment: nat, requested: Option<Money>)
    requires Good(db)
    ensures var op, next := AllocateCourse(student, enrollment, requested),
      Next(db, AllocateCourse(student, enrollment, requested));
      && (IsAccepted(db, op) <==>
            && enrollment < |db.enrollments| && db.enrollments[enrollment].student == student
            && 0 < Wallet(db, student) && 0 < EnrollmentDebt(db, enrollment)
            && (requested.Some? ==>
              requested.value <= Wallet(db, student) && requested.value <= EnrollmentDebt(db, enrollment)))
      && (IsAccepted(db, op) ==>
            var moved := Wallet(db, student) - Wallet(next, student);
            && OnlyApplied(db, next, student) && 0 < moved
            && (requested.Some? ==> moved == requested.value)
            && (requested.None? ==> Wallet(next, student) == 0 || EnrollmentDebt(next, enrollment) == 0)
            && Outstanding(next, student) == Outstanding(db, student) - moved
            && EnrollmentDebt(next, enrollment) == EnrollmentDebt(db, enrollment) - moved
            && forall c :: 0 <= c < |db.charges| && db.charges[c].enrollment != enrollment ==>
                 ActiveOn(next, c) == ActiveOn(db, c))
  {
    hide CreditEntries, ApplyCredit, Outstanding, Wallet, OnlyApplied, Integrity, RowsOk, ActiveOn, CourseCharges;
    hide EnrollmentDebt, ListBalance, Payees;
    var op := AllocateCourse(student, enrollment, requested);
    var next := Next(db, op);
    GoodIsSound(db);
    WalletNonNegative(db, student);
    if enrollment < |db.enrollments| && db.enrollments[enrollment].student == student {
      CourseBalance(db, student, enrollment);
    }
    if IsAccepted(db, op) {
      var charges, limit := CourseCharges(db, student, enrollment),
        Some(CourseCreditAmount(db, student, enrollment, requested));
      CoursePass(db, op);
      PassOnlyApplies(db, next, student, charges, limit);
      PassKeeps(db, next, student, charges, limit);
      CourseCreditEffect(db, student, enrollment, requested, student);
      WalletNonNegative(next, student);
      CourseCreditPlaces(db, student, enrollment, requested);
      forall c | 0 <= c < |db.charges| && db.charges[c].enrollment != enrollment
        ensures ActiveOn(next, c) == ActiveOn(db, c)
      {
        CreditEntriesPay(db, student);
        OthersGainNothing(db, student, CreditEntries(db, student), charges, limit, c);
        if c in charges { ListedAreLive(db, student, enrollment, c); }
      }
      DebtFollows(db, next, enrollment);
    }
  }

  // ---------------------------------------------------------------------------
  // Voids and refunds
  // ---------------------------------------------------------------------------

  lemma {:induction false} SurvivorOf(rows: seq<Allocation>, e: nat, amount: int, i: nat, k: nat) returns (j: nat)
    requires i <= |rows| && k < |SurvivorsFrom(rows, e, amount, i)|
    ensures i <= j < |rows| && Splits(rows, e, amount, j)
    ensures SurvivorsFrom(rows, e, amount, i)[k] == Survivor(rows, e, amount, j)
    decreases |rows| - i
  {
    if Splits(rows, e, amount, i) && k == 0 {
      j := i;
    } else {
      j := SurvivorOf(rows, e, amount, i + 1, if Splits(rows, e, amount, i) then k - 1 else k);
    }
  }

  /** Row `j` was reversed, row `s` holds the part of it that stays, and no older row was
      touched. */
  ghost predicate Remainder(db: Db, next: Db, j: nat, s: Allocation)
    requires j < |db.allocations| <= |next.allocations|
  {
    && next.allocations[j] != db.allocations[j]
    && s.entry == db.allocations[j].entry && s.charge == db.allocations[j].charge && s.reversedBy.None?
    && 0 < s.amount < db.allocations[j].amount
    && forall i :: 0 <= i < j ==> next.allocations[i] == db.allocations[i]
  }

  /** Active allocations of payment `p` were reversed by the newest entry, and of the
      oldest of them a part may have been put back. */
  ghost predicate TakenBackFrom(db: Db, next: Db, p: nat) {
    var n := |db.allocations|;
    && n <= |next.allocations| <= n + 1
    && (forall i :: 0 <= i < n && next.allocations[i] != db.allocations[i] ==>
          && db.allocations[i].entry == p && db.allocations[i].reversedBy.None?
          && next.allocations[i] == db.allocations[i].(reversedBy := Some(|db.entries|)))
    && (n < |next.allocations| ==> exists j: nat :: j < n && Remainder(db, next, j, next.allocations[n]))
  }

  lemma {:induction false} ReversalTakesBack(db: Db, reversal: Entry, p: nat, amount: nat)
    requires RowsOk(db) && reversal.id == |db.entries|
    ensures TakenBackFrom(db, AfterReversal(db, reversal, p, amount), p)
  {
    hide RowsOk, NewerApplied, SurvivorsFrom, StatusFor;
    var rows, next := db.allocations, AfterReversal(db, reversal, p, amount);
    var survivors := Survivors(rows, p, amount);
    AmountsPositive(db);
    OneSurvivor(rows, p, amount, 0);
    assert next.allocations == Stamped(rows, p, amount, |db.entries|) + survivors;
    if survivors != [] {
      var j := SurvivorOf(rows, p, amount, 0, 0);
      forall i | 0 <= i < j ensures !Undone(rows, p, amount, i) { OlderIsKept(rows, p, amount, i, j); }
      assert Remainder(db, next, j, next.allocations[|rows|]);
    }
  }

  lemma OlderIsKept(rows: seq<Allocation>, e: nat, amount: nat, i: nat, j: nat)
    requires i < j < |rows| && forall k :: 0 <= k < |rows| ==> 0 < rows[k].amount
    requires Splits(rows, e, amount, j)
    ensures !Undone(rows, e, amount, i)
  {
    assert rows[i + 1..] == rows[i + 1..j] + rows[j..];
    SumConcat(rows[i + 1..j], rows[j..], OfEntry(e));
    SuffixStep(rows, j, OfEntry(e));
    SumNonNegative(rows[i + 1..j], OfEntry(e));
  }

  /** An entry of that kind reverses `p`. */
  predicate NamedBy(db: Db, p: nat, kind: EntryKind) {
    exists k :: 0 <= k < |db.entries| && db.entries[k].kind == kind && db.entries[k].reverses == Some(p)
  }

  /** A payment that no void names. */
  predicate Standing(db: Db, p: nat) {
    p < |db.entries| && db.entries[p].kind == Payment && !NamedBy(db, p, Void)
  }

  /** A payment can be voided while no void and no refund names it and both its own month
      and the current one are open. */
  lemma {:induction false} VoidRule(db: Db, p: nat, now: nat, recorder: int)
    requires Good(db)
    ensures var op, next := VoidPayment(p, now, recorder), Next(db, VoidPayment(p, now, recorder));
      && (IsAccepted(db, op) <==>
            && Standing(db, p) && !NamedBy(db, p, Refund)
            && !IsClosed(db, PeriodKey(db.entries[p].at)) && !IsClosed(db, PeriodKey(now)))
      && (IsAccepted(db, op) ==> TakenBackFrom(db, next, p) && Applied(next, p) == 0)
  {
    hide PeriodKey, Stamped, Survivors, TakenBackFrom, RowsOk, Balanced, Scheduled, Applied;
    var op := VoidPayment(p, now, recorder);
    if IsAccepted(db, op) {
      assert EntryRowOk(db, p) by { GoodEntry(db, p); }
      ReversalTakesBack(db, VoidEntry(db, p, now, recorder), p, db.entries[p].amount);
      VoidEffect(db, p, now, recorder, 0);
    }
  }

  lemma GoodEntry(db: Db, p: nat)
    requires Good(db) && p < |db.entries|
    ensures EntryRowOk(db, p)
  {
  }

  lemma RefundAccepted(db: Db, p: nat, amount: Money, now: nat, financeStaff: bool)
    ensures RefundError(db, p, amount, now, financeStaff).None? <==>
      && financeStaff && Standing(db, p)
      && !IsClosed(db, PeriodKey(db.entries[p].at)) && !IsClosed(db, PeriodKey(now))
      && Refunded(db, p) + amount <= db.entries[p].amount
  {
    hide PeriodKey, Refunded;
  }

  /** A refund needs the role, a payment no void names, both months open, and no more than
      the payment less the refunds already given. */
  lemma {:induction false} RefundRule(db: Db, p: nat, amount: Money, toWallet: bool, now: nat, recorder: int,
                                      financeStaff: bool)
    requires Good(db)
    ensures var op := RefundPayment(p, amount, toWallet, now, recorder, financeStaff);
      var next := Next(db, op);
      && (IsAccepted(db, op) <==>
            && financeStaff && Standing(db, p)
            && !IsClosed(db, PeriodKey(db.entries[p].at)) && !IsClosed(db, PeriodKey(now))
            && Refunded(db, p) + amount <= db.entries[p].amount)
      && (IsAccepted(db, op) ==>
            && TakenBackFrom(db, next, p) && Refunded(next, p) == Refunded(db, p) + amount
            && Applied(next, p) == Max(0, Applied(db, p) - amount))
  {
    hide PeriodKey, AfterReversal, TakenBackFrom, RowsOk, Balanced, Scheduled, Refunded, Applied, RefundError, Voided;
    var op := RefundPayment(p, amount, toWallet, now, recorder, financeStaff);
    RefundAccepted(db, p, amount, now, financeStaff);
    if IsAccepted(db, op) {
      assert EntryRowOk(db, p) by { GoodEntry(db, p); }
      var reversal := RefundEntry(db, p, amount, toWallet, now, recorder);
      RefundIsReversible(db, p, amount, toWallet, now, recorder);
      ReversalTakesBack(db, reversal, p, amount);
      RefundEffect(db, p, amount, toWallet, now, recorder, 0);
      ReversalEntry(db, reversal, p, amount, p);
      PaymentConsumption(db, p);
    }
  }

  lemma RefundIsReversible(db: Db, p: nat, amount: Money, toWallet: bool, now: nat, recorder: int)
    requires RefundError(db, p, amount, now, true).None?
    ensures p < |db.entries| && Reversible(db, RefundEntry(db, p, amount, toWallet, now, recorder), p, amount)
  {
    hide PeriodKey, Refunded;
  }

  // ---------------------------------------------------------------------------
  // The entries a request writes
  // ---------------------------------------------------------------------------

  /** The ledger entries an accepted request adds. */
  function Written(db: Db, op: Operation): seq<Entry>
    requires IsAccepted(db, op)
  {
    var n := |db.entries|;
    match op
    case Pay(student, _, _, paid, at, recorder) => [Entry(n, student, Payment, paid, at, recorder, None, false)]
    case GiveDiscount(student, _, amount, at, recorder) =>
      [Entry(n, student, Discount, amount, at, recorder, None, false)]
    case Adjust(student, amount, at, recorder, _) => [Entry(n, student, Adjustment, amount, at, recorder, None, false)]
    case VoidPayment(p, now, recorder) =>
      [Entry(n, db.entries[p].student, Void, db.entries[p].amount, now, recorder, Some(p), false)]
    case RefundPayment(p, amount, toWallet, now, recorder, _) =>
      [Entry(n, db.entries[p].student, Refund, amount, now, recorder, Some(p), !toWallet)]
    case Withdraw(enrollment, actor, today, now) =>
      var months := FutureCharges(db, enrollment, today);
      if db.enrollments[enrollment].status == Withdrawn || !AnyReleased(db, months) then []
      else [Entry(n, db.enrollments[enrollment].student, WithdrawalReversal, Sum(db.allocations, OnAnyOf(months)), now,
        actor.value, None, false)]
    case ChangeMode(enrollment, target, _, today, now, recorder) =>
      if target == Grant then WriteOffEntries(db, WrittenOff(db, FutureCharges(db, enrollment, today)), now, recorder)
      else []
    case _ => []
  }

  lemma {:induction false} CreditWritesNothing(db: Db, op: Operation)
    requires IsAccepted(db, op) && (op.Allocate? || op.AllocateCourse? || op.AutoAllocate?)
    ensures Effect(db, op).entries == db.entries
  {
    hide Crediting.ApplyCredit, Wallet, ListBalance, ActiveOn, AfterAutoAllocate;
    match op {
      case AutoAllocate(student, preferred) => AutoGrows(db, student, preferred);
      case Allocate(student, charge, requested) =>
        CreditGrows(db, CreditEntries(db, student), [charge],
          Some(CreditAmount(db, student, Remaining(db, charge), requested)));
      case AllocateCourse(student, enrollment, requested) =>
        CreditGrows(db, CreditEntries(db, student), CourseCharges(db, student, enrollment),
          Some(CourseCreditAmount(db, student, enrollment, requested)));
    }
  }

  lemma {:induction false} MoneyWritten(db: Db, op: Operation)
    requires IsAccepted(db, op)
    requires op.Pay? || op.GiveDiscount? || op.Adjust? || op.VoidPayment? || op.RefundPayment?
    ensures Effect(db, op).entries == db.entries + Written(db, op)
  {
    hide Crediting.ApplyCredit, RowsForPayment, Stamped, Survivors, Refunded, HasRefund, ActiveOn, PeriodKey;
    hide PaymentCheck;
    if op.GiveDiscount? {
      var e := DiscountEntry(db, op.student, op.amount, op.at, op.recorder);
      CreditGrows(AddEntry(db, e), [e.id], [op.charge], None);
    }
  }

  lemma {:induction false} EnrollmentWritten(db: Db, op: Operation)
    requires Good(db) && IsAccepted(db, op) && (op.Withdraw? || op.ChangeMode?)
    ensures Effect(db, op).entries == db.entries + Written(db, op)
  {
    hide FutureCharges, AfterConvert, PlanOf, Missing, Starts, Good, AnyReleased, AnyUnmatched, OnAnyOf, AnyWriteOff;
    hide PeriodKey;
    GoodIsSound(db);
    assert db.entries + [] == db.entries;
    if op.Withdraw? {
      DropGrows(db, db.enrollments[op.enrollment].student, FutureCharges(db, op.enrollment, op.today), op.now,
        match op.actor case Some(a) => a case None => 0);
    } else if op.target == Grant {
      ConvertEffect(db, op.enrollment, op.today, op.now, op.recorder, 0);
    }
  }

  /** A request adds exactly those entries: the only ones that name another entry are voids
      and refunds, and they name their payment. */
  lemma {:induction false} EntriesWritten(db: Db, op: Operation)
    requires Good(db) && IsAccepted(db, op)
    ensures Next(db, op).entries == db.entries + Written(db, op)
    ensures forall i :: 0 <= i < |Written(db, op)| ==>
      Written(db, op)[i].reverses
        == if op.VoidPayment? || op.RefundPayment? then Some(op.payment) else None
  {
    hide FutureCharges, PlanOf, Starts, Good, AnyReleased, OnAnyOf, ErrorOf;
    assert db.entries + [] == db.entries;
    if op.Allocate? || op.AllocateCourse? || op.AutoAllocate? { CreditWritesNothing(db, op); }
    else if op.Withdraw? || op.ChangeMode? { EnrollmentWritten(db, op); }
    else if op.Pay? || op.GiveDiscount? || op.Adjust? || op.VoidPayment? || op.RefundPayment? {
      hide Effect;
      MoneyWritten(db, op);
    }
  }

  lemma {:induction false} WrittenOffListed(db: Db, charges: seq<nat>, j: nat)
    requires j < |WrittenOff(db, charges)|
    ensures WrittenOff(db, charges)[j] in charges && WritesOff(db, WrittenOff(db, charges)[j])
  {
    var n := |charges| - 1;
    if j < |WrittenOff(db, charges[..n])| { WrittenOffListed(db, charges[..n], j); }
  }

  /** Charge `c` is a month of the enrollment from `day` on that is paid in part. */
  predicate PartlyPaid(db: Db, enrollment: nat, day: int, c: nat) {
    StartsFrom(db, enrollment, day, c) && 0 < ActiveOn(db, c) < db.charges[c].amount
  }

  /** Each entry of a conversion is a discount of its own date and recorder, of exactly what
      a partly paid month still needs. */
  lemma {:induction false} ConversionWritesDiscounts(db: Db, op: Operation, i: nat)
    requires Good(db) && op.ChangeMode? && IsAccepted(db, op) && i < |Written(db, op)|
    ensures exists c: nat ::
      && PartlyPaid(db, op.enrollment, op.today, c)
      && Written(db, op)[i]
        == Entry(|db.entries| + i, db.enrollments[op.enrollment].student, Discount, Remaining(db, c), op.now,
             op.recorder, None, false)
  {
    hide FutureCharges, Starts, Good, AnyUnmatched, AnyWriteOff, PeriodKey, EnrollmentReady, ActiveOn, WrittenOff;
    var charges := FutureCharges(db, op.enrollment, op.today);
    Ready(db, op.enrollment);
    IntegrityHasRows(db);
    FutureChargesSelected(db, op.enrollment, op.today);
    WrittenOffListed(db, charges, i);
    var c := WrittenOff(db, charges)[i];
    assert ChargeRowOk(db, c);
    assert PartlyPaid(db, op.enrollment, op.today, c);
  }

  /** The payment of a closed month stands: no request adds an entry that voids or refunds
      it, whenever the request is made. */
  lemma {:induction false} ClosedPaymentStands(db: Db, op: Operation, p: nat)
    requires Good(db) && p < |db.entries| && IsClosed(db, PeriodKey(db.entries[p].at))
    ensures var next := Next(db, op);
      && db.entries <= next.entries
      && forall i :: |db.entries| <= i < |next.entries| ==> next.entries[i].reverses != Some(p)
  {
    hide PeriodKey, Good, Written, Effect, Refunded, HasRefund, Voided;
    if IsAccepted(db, op) { EntriesWritten(db, op); }
  }

  /** So while its month stays closed, no run voids or refunds it. */
  lemma {:induction false} ClosedPaymentsStand(db: Db, ops: seq<Operation>, p: nat)
    requires Good(db) && p < |db.entries| && StaysClosed(db, ops, PeriodKey(db.entries[p].at))
    ensures var next := Run(db, ops);
      && db.entries <= next.entries
      && forall i :: |db.entries| <= i < |next.entries| ==> next.entries[i].reverses != Some(p)
  {
    hide PeriodKey, Good, Next, StaysClosed;
    if ops != [] {
      var front := ops[..|ops| - 1];
      StaysClosedPrefix(db, ops, PeriodKey(db.entries[p].at));
      ClosedPaymentsStand(db, front, p);
      RunFromGood(db, front);
      ClosedPaymentStands(Run(db, front), ops[|ops| - 1], p);
    }
  }

  // ---------------------------------------------------------------------------
  // The other tables
  // ---------------------------------------------------------------------------

  /** The enrollments after an accepted request. */
  function EnrollmentsAfter(db: Db, op: Operation): seq<Enrollment>
    requires IsAccepted(db, op)
  {
    match op
    case Enroll(student, course, price, enrolledAt, mode, _, _, _, _) =>
      db.enrollments + [Enrollment(student, course, price, enrolledAt, Active, mode)]
    case Withdraw(n, _, _, _) => db.enrollments[n := db.enrollments[n].(status := Withdrawn)]
    case ChangeMode(n, target, _, _, _, _) => db.enrollments[n := db.enrollments[n].(mode := target)]
    case _ => db.enrollments
  }

  /** The accounting months after an accepted request. */
  function PeriodsAfter(db: Db, op: Operation): map<nat, PeriodStatus> {
    match op
    case ClosePeriod(period, _) => db.periods[period := PeriodClosed]
    case ReopenPeriod(period, _) => db.periods[period := PeriodOpen]
    case _ => db.periods
  }

  lemma CreditKeepsTables(db: Db, entries: seq<nat>, charges: seq<nat>, limit: Option<int>)
    ensures var next := ApplyCredit(db, entries, charges, limit);
      next == db.(allocations := next.allocations, charges := next.charges)
  {
    hide CreditRows, StatusFor;
  }

  lemma {:induction false} CreditKeepsOthers(db: Db, op: Operation)
    requires IsAccepted(db, op) && (op.Allocate? || op.AllocateCourse? || op.AutoAllocate?)
    ensures var next := Effect(db, op); next == db.(allocations := next.allocations, charges := next.charges)
  {
    hide ApplyCredit, Wallet, ListBalance, ActiveOn, AfterPreferred;
    match op {
      case AutoAllocate(student, preferred) =>
        var first := AfterPreferred(db, student, preferred);
        PreferredKeepsTables(db, student, preferred);
        CreditKeepsTables(first, CreditEntries(first, student), OpenCharges(first, student, None), None);
      case Allocate(student, charge, requested) =>
        CreditKeepsTables(db, CreditEntries(db, student), [charge],
          Some(CreditAmount(db, student, Remaining(db, charge), requested)));
      case AllocateCourse(student, enrollment, requested) =>
        CreditKeepsTables(db, CreditEntries(db, student), CourseCharges(db, student, enrollment),
          Some(CourseCreditAmount(db, student, enrollment, requested)));
    }
  }

  lemma PreferredKeepsTables(db: Db, student: int, preferred: Option<nat>)
    ensures var next := AfterPreferred(db, student, preferred);
      next == db.(allocations := next.allocations, charges := next.charges)
  {
    hide ApplyCredit;
    CreditKeepsTables(db, CreditEntries(db, student), OpenCharges(db, student, preferred), None);
  }

  lemma {:induction false} MoneyKeepsOthers(db: Db, op: Operation)
    requires IsAccepted(db, op)
    requires op.Pay? || op.GiveDiscount? || op.Adjust? || op.VoidPayment? || op.RefundPayment?
    ensures var next := Effect(db, op);
      && next.courses == db.courses && next.enrollments == db.enrollments && next.periods == db.periods
      && (!op.Pay? ==> next.targets == db.targets)
  {
    hide ApplyCredit, RowsForPayment, Stamped, Survivors, Refunded, HasRefund, ActiveOn, PeriodKey, StatusFor;
    hide PaymentCheck;
    if op.GiveDiscount? {
      var e := DiscountEntry(db, op.student, op.amount, op.at, op.recorder);
      CreditKeepsTables(AddEntry(db, e), [e.id], [op.charge], None);
    }
  }

  lemma {:induction false} EnrollmentKeepsOthers(db: Db, op: Operation)
    requires Good(db) && IsAccepted(db, op) && (op.Enroll? || op.Generate? || op.Withdraw? || op.ChangeMode?)
    ensures var next := Effect(db, op);
      && next.courses == db.courses && next.enrollments == EnrollmentsAfter(db, op) && next.periods == db.periods
      && next.targets == db.targets
  {
    hide FutureCharges, AfterConvert, PlanOf, Missing, Starts, Good, AnyReleased, AnyUnmatched, OnAnyOf, AnyWriteOff;
    hide PeriodKey, EnrollmentReady, HasCharges, ChargesFromPlan;
    if op.ChangeMode? && op.target == Grant {
      ConvertKeepsEnrollments(db, op.enrollment, op.today, op.now, op.recorder);
    }
    if op.Withdraw? || op.ChangeMode? || op.Generate? { Ready(db, op.enrollment); }
  }

  lemma Ready(db: Db, enrollment: nat)
    requires Good(db)
    ensures Integrity(db) && (EnrollmentReady(db, enrollment) <==> enrollment < |db.enrollments|)
    ensures EnrollmentReady(db, enrollment) ==> !AnyUnmatched(db, enrollment)
  {
    if enrollment < |db.enrollments| { EveryMonthMatches(db, enrollment); }
  }

  /** Courses are added, enrollments are added or change in one column, months are closed
      and opened, and payments name their targets, by the requests for that only. */
  lemma {:induction false} TablesFollowRequests(db: Db, op: Operation)
    requires Good(db) && IsAccepted(db, op)
    ensures var next := Next(db, op);
      && next.courses == (if op.CreateCourse? then db.courses + [op.newCourse] else db.courses)
      && next.enrollments == EnrollmentsAfter(db, op) && next.periods == PeriodsAfter(db, op)
      && (!op.Pay? ==> next.targets == db.targets)
  {
    hide Good, ErrorOf;
    if op.Allocate? || op.AllocateCourse? || op.AutoAllocate? {
      hide Effect;
      CreditKeepsOthers(db, op);
    } else if op.Pay? || op.GiveDiscount? || op.Adjust? || op.VoidPayment? || op.RefundPayment? {
      hide Effect;
      MoneyKeepsOthers(db, op);
    } else if op.Enroll? || op.Generate? || op.Withdraw? || op.ChangeMode? {
      hide Effect;
      EnrollmentKeepsOthers(db, op);
    }
  }
}
