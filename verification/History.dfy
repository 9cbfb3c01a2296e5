/** The ledger is append-only, closed months stay as they are, and credit that a
    withdrawal took from an adjustment never comes back. */
module History {
  import opened Wrappers
  import opened Sums
  import opened Calendar
  import opened Tables
  import opened Posting
  import opened Payments
  import opened Reversals
  import opened Concessions
  import opened Withdrawals
  import opened Billing
  import opened Grants
  import opened Operations
  import opened Runs
  import Crediting
  import Queries

  /** An allocation is never re-priced or moved, and is reversed at most once. */
  predicate RowKept(before: Allocation, after: Allocation) {
    || after == before
    || (before.reversedBy.None? && after.reversedBy.Some? && after == before.(reversedBy := after.reversedBy))
  }

  ghost predicate Grows(db: Db, next: Db) {
    && db.entries <= next.entries && db.targets <= next.targets
    && |db.allocations| <= |next.allocations|
    && (forall i :: 0 <= i < |db.allocations| ==> RowKept(db.allocations[i], next.allocations[i]))
    && |db.charges| <= |next.charges|
    && (forall c :: 0 <= c < |db.charges| ==>
          && next.charges[c] == db.charges[c].(status := next.charges[c].status)
          && (db.charges[c].status == Cancelled ==> next.charges[c].status == Cancelled))
  }

  lemma GrowsTransitive(a: Db, b: Db, c: Db)
    requires Grows(a, b) && Grows(b, c)
    ensures Grows(a, c)
  {
    forall i | 0 <= i < |a.allocations| ensures RowKept(a.allocations[i], c.allocations[i]) {
      assert RowKept(a.allocations[i], b.allocations[i]) && RowKept(b.allocations[i], c.allocations[i]);
    }
  }

  /** Entries added by a step are dated in a month that was open. */
  ghost predicate EntriesInOpenMonths(db: Db, next: Db) {
    forall i :: |db.entries| <= i < |next.entries| ==> !IsClosed(db, PeriodKey(next.entries[i].at))
  }

  // ---------------------------------------------------------------------------
  // Each step
  // ---------------------------------------------------------------------------

  lemma SpendGrows(db: Db, rows: seq<Allocation>)
    ensures Grows(db, Spend(db, rows)) && Spend(db, rows).entries == db.entries && Spend(db, rows).periods == db.periods
  {
  }

  lemma CreditGrows(db: Db, entries: seq<nat>, charges: seq<nat>, limit: Option<int>)
    ensures var next := Crediting.ApplyCredit(db, entries, charges, limit);
      Grows(db, next) && next.entries == db.entries && next.periods == db.periods
  {
    hide Crediting.CreditRows;
    SpendGrows(db, Crediting.CreditRows(db, entries, charges, limit));
  }

  lemma PaymentGrows(db: Db, student: int, portions: seq<Portion>, amount: int, at: nat, recorder: int)
    ensures var next := AfterPayment(db, student, portions, amount, at, recorder);
      Grows(db, next) && (!IsClosed(db, PeriodKey(at)) ==> EntriesInOpenMonths(db, next))
  {
    hide RowsForPayment, Spend;
    var e := PaymentEntry(db, student, amount, at, recorder);
    var paid := AddEntry(db, e);
    var rows := RowsForPayment(paid, |db.entries|, portions);
    SpendGrows(paid, rows);
    GrowsTransitive(db, paid, Spend(paid, rows));
  }

  lemma DiscountGrows(db: Db, student: int, charge: nat, amount: Money, at: nat, recorder: int)
    ensures var next := AfterDiscount(db, student, charge, amount, at, recorder);
      Grows(db, next) && (!IsClosed(db, PeriodKey(at)) ==> EntriesInOpenMonths(db, next))
  {
    hide Crediting.ApplyCredit;
    var e := DiscountEntry(db, student, amount, at, recorder);
    CreditGrows(AddEntry(db, e), [e.id], [charge], None);
    GrowsTransitive(db, AddEntry(db, e), AfterDiscount(db, student, charge, amount, at, recorder));
  }

  lemma ReversalGrows(db: Db, reversal: Entry, payment: nat, amount: int)
    ensures var next := AfterReversal(db, reversal, payment, amount);
      Grows(db, next) && (!IsClosed(db, PeriodKey(reversal.at)) ==> EntriesInOpenMonths(db, next))
  {
    var next := AfterReversal(db, reversal, payment, amount);
    forall i | 0 <= i < |db.allocations| ensures RowKept(db.allocations[i], next.allocations[i]) {
      assert next.allocations[i] == StampedRow(db.allocations, payment, amount, reversal.id, i);
    }
  }

  lemma AutoGrows(db: Db, student: int, preferred: Option<nat>)
    ensures var next := AfterAutoAllocate(db, student, preferred); Grows(db, next) && next.entries == db.entries
  {
    hide Crediting.ApplyCredit, Grows;
    var first := AfterPreferred(db, student, preferred);
    if preferred.Some? {
      CreditGrows(db, Queries.CreditEntries(db, student), Queries.OpenCharges(db, student, preferred), None);
    }
    else { SameGrows(db); }
    CreditGrows(first, Queries.CreditEntries(first, student), Queries.OpenCharges(first, student, None), None);
    GrowsTransitive(db, first, AfterAutoAllocate(db, student, preferred));
  }

  lemma SameGrows(db: Db)
    ensures Grows(db, db)
  {
  }

  lemma DropGrows(db: Db, student: int, charges: seq<nat>, now: nat, actor: int)
    ensures var next := AfterDrop(db, student, charges, now, actor);
      && Grows(db, next)
      && next.entries == if AnyReleased(db, charges)
        then db.entries + [WithdrawalEntry(db, student, Released(db, charges), now, actor)] else db.entries
  {
    var next := AfterDrop(db, student, charges, now, actor);
    forall i | 0 <= i < |db.allocations| ensures RowKept(db.allocations[i], next.allocations[i]) {
      assert next.allocations[i] == db.allocations[i] ||
        next.allocations[i] == ReleasedRow(db.allocations[i], charges, |db.entries|);
    }
  }

  lemma CancelGrows(db: Db, charges: seq<nat>)
    ensures var next := AfterCancel(db, charges);
      Grows(db, next) && next.entries == db.entries && next.allocations == db.allocations && next.periods == db.periods
  {
  }

  lemma {:induction false} StepsGrow(db: Db, charges: seq<nat>, k: nat, now: nat, actor: int)
    requires k <= |charges| && !IsClosed(db, PeriodKey(now))
    ensures var next := GrantSteps(db, charges, k, now, actor);
      Grows(db, next) && EntriesInOpenMonths(db, next) && next.periods == db.periods
  {
    hide GrantStep, RowKept, PeriodKey;
    if k == 0 {
      SameGrows(db);
    } else {
      var before, c := GrantSteps(db, charges, k - 1, now, actor), charges[k - 1];
      var next := GrantSteps(db, charges, k, now, actor);
      StepsGrow(db, charges, k - 1, now, actor);
      GrantStepGrows(before, c, now, actor);
      GrowsTransitive(db, before, next);
    }
  }

  lemma GrantStepGrows(db: Db, c: nat, now: nat, actor: int)
    requires !IsClosed(db, PeriodKey(now))
    ensures var next := GrantStep(db, c, now, actor);
      Grows(db, next) && EntriesInOpenMonths(db, next) && next.periods == db.periods
  {
    hide AfterDiscount, AfterCancel;
    if c < |db.charges| && ActiveOn(db, c) <= 0 { CancelGrows(db, [c]); }
    else if c < |db.charges| && 0 < Remaining(db, c) <= MAX_CENTS {
      DiscountGrows(db, db.charges[c].student, c, Remaining(db, c), now, actor);
      DiscountFrame(db, db.charges[c].student, c, Remaining(db, c), now, actor);
    }
  }

  lemma QuietStepGrows(db: Db, c: nat, now: nat, actor: int)
    requires !WritesOff(db, c)
    ensures var next := GrantStep(db, c, now, actor);
      Grows(db, next) && next.entries == db.entries && next.periods == db.periods
  {
    hide AfterDiscount, AfterCancel, ActiveOn;
    SameGrows(db);
    if c < |db.charges| && ActiveOn(db, c) <= 0 { CancelGrows(db, [c]); }
  }

  /** A step finds its month as it was before the conversion. */
  lemma StepFindsMonth(db: Db, student: int, charges: seq<nat>, k: nat, now: nat, actor: int)
    requires Integrity(db) && Queries.Distinct(charges) && Droppable(db, student, charges) && k < |charges|
    requires !AnyWriteOff(db, charges)
    ensures !WritesOff(GrantSteps(db, charges, k, now, actor), charges[k])
  {
    hide GrantStep, Integrity, Wallet, Outstanding;
    GrantStepsEffect(db, student, charges, k, now, actor, student);
    assert charges[k] !in charges[..k];
    assert !WritesOff(db, charges[k]);
  }

  /** Without a write-off the conversion writes no entry, whatever the period. */
  lemma {:induction false} StepsWithoutWriteOff(db: Db, student: int, charges: seq<nat>, k: nat, now: nat, actor: int)
    requires Integrity(db) && Queries.Distinct(charges) && Droppable(db, student, charges) && k <= |charges|
    requires !AnyWriteOff(db, charges)
    ensures var next := GrantSteps(db, charges, k, now, actor);
      Grows(db, next) && next.entries == db.entries && next.periods == db.periods
  {
    hide GrantStep, Grows, Integrity, Droppable, AnyWriteOff, Queries.Distinct;
    if k == 0 {
      SameGrows(db);
    } else {
      var before := GrantSteps(db, charges, k - 1, now, actor);
      StepsWithoutWriteOff(db, student, charges, k - 1, now, actor);
      StepFindsMonth(db, student, charges, k - 1, now, actor);
      QuietStepGrows(before, charges[k - 1], now, actor);
      GrowsTransitive(db, before, GrantSteps(db, charges, k, now, actor));
    }
  }

  lemma ConvertGrows(db: Db, enrollment: nat, today: int, now: nat, actor: int)
    requires Integrity(db) && enrollment < |db.enrollments| && ConvertError(db, enrollment, today, now).None?
    ensures var next := AfterConvert(db, enrollment, today, now, actor);
      Grows(db, next) && EntriesInOpenMonths(db, next)
  {
    hide GrantSteps, Grows, Starts;
    var cs := FutureCharges(db, enrollment, today);
    FutureChargesSelected(db, enrollment, today);
    FutureChargesDrop(db, enrollment, today);
    if AnyWriteOff(db, cs) { StepsGrow(db, cs, |cs|, now, actor); }
    else { StepsWithoutWriteOff(db, db.enrollments[enrollment].student, cs, |cs|, now, actor); }
  }

  lemma AddChargesGrows(db: Db, rows: seq<Charge>)
    ensures Grows(db, AddCharges(db, rows)) && AddCharges(db, rows).entries == db.entries
  {
  }

  lemma ModeGrows(db: Db, enrollment: nat, target: BillingMode, paymentDay: Option<nat>, today: int, now: nat,
                  actor: int)
    requires Integrity(db) && ModeError(db, enrollment, target, today, now).None?
    ensures var next := AfterModeChange(db, enrollment, target, paymentDay, today, now, actor);
      Grows(db, next) && EntriesInOpenMonths(db, next)
  {
    hide AfterConvert, PlanOf, Missing, Starts;
    if target == Grant { ConvertGrows(db, enrollment, today, now, actor); }
    else {
      var billed := WithMode(db, enrollment, Paid);
      AddChargesGrows(billed, ChargesFromPlan(billed, enrollment, billed.enrollments[enrollment].student,
        Missing(billed, enrollment, today, PlanOf(billed, enrollment, paymentDay))));
    }
  }

  lemma MoneyStepGrows(db: Db, op: Operation)
    requires ErrorOf(db, op).None?
    requires op.Pay? || op.GiveDiscount? || op.Adjust? || op.VoidPayment? || op.RefundPayment?
    ensures Grows(db, Effect(db, op)) && EntriesInOpenMonths(db, Effect(db, op))
  {
    hide AfterPayment, AfterDiscount, AfterReversal, OpenBalance, Refunded, HasRefund, FirstTargetError, ActiveOn;
    hide PeriodKey;
    match op {
      case Pay(s, course, targets, paid, at, recorder) =>
        PaymentGrows(db, s, PaymentCheck(db, s, course, targets, paid, at).value, paid, at, recorder);
      case GiveDiscount(s, charge, amount, at, recorder) => DiscountGrows(db, s, charge, amount, at, recorder);
      case Adjust(_, _, _, _, _) =>
      case VoidPayment(payment, now, recorder) =>
        ReversalGrows(db, VoidEntry(db, payment, now, recorder), payment, db.entries[payment].amount);
      case RefundPayment(payment, amount, toWallet, now, recorder, _) =>
        ReversalGrows(db, RefundEntry(db, payment, amount, toWallet, now, recorder), payment, amount);
    }
  }

  lemma {:induction false} OtherStepGrows(db: Db, op: Operation)
    requires Integrity(db) && ErrorOf(db, op).None?
    requires !(op.Pay? || op.GiveDiscount? || op.Adjust? || op.VoidPayment? || op.RefundPayment?)
    ensures Grows(db, Effect(db, op)) && (!op.Withdraw? ==> EntriesInOpenMonths(db, Effect(db, op)))
  {
    hide AfterAutoAllocate, AfterDrop, AfterModeChange, Crediting.ApplyCredit, PlanOf, Starts, Integrity, Wallet;
    hide ListBalance, ActiveOn;
    match op {
      case Allocate(s, charge, requested) =>
        CreditGrows(db, Queries.CreditEntries(db, s), [charge],
          Some(CreditAmount(db, s, Remaining(db, charge), requested)));
      case AllocateCourse(s, enrollment, requested) =>
        CreditGrows(db, Queries.CreditEntries(db, s), Queries.CourseCharges(db, s, enrollment),
          Some(CourseCreditAmount(db, s, enrollment, requested)));
      case AutoAllocate(s, preferred) => AutoGrows(db, s, preferred);
      case Withdraw(enrollment, actor, today, now) =>
        DropGrows(db, db.enrollments[enrollment].student, FutureCharges(db, enrollment, today), now,
          match actor case Some(a) => a case None => 0);
      case ChangeMode(enrollment, target, paymentDay, today, now, recorder) =>
        ModeGrows(db, enrollment, target, paymentDay, today, now, recorder);
      case _ =>
    }
  }

  /** Every step is append-only, and only a withdrawal may date an entry in a closed month. */
  lemma {:induction false} StepGrows(db: Db, op: Operation)
    requires Integrity(db)
    ensures Grows(db, Next(db, op)) && (!op.Withdraw? ==> EntriesInOpenMonths(db, Next(db, op)))
  {
    hide Effect, Integrity;
    SameGrows(db);
    if ErrorOf(db, op).None? {
      if op.Pay? || op.GiveDiscount? || op.Adjust? || op.VoidPayment? || op.RefundPayment? { MoneyStepGrows(db, op); }
      else { OtherStepGrows(db, op); }
    }
  }

  // ---------------------------------------------------------------------------
  // Closed months
  // ---------------------------------------------------------------------------

  /** An accepted withdrawal of an enrollment not withdrawn yet that has something to
      release, made in `month`. */
  predicate Backdates(db: Db, op: Operation, month: nat) {
    && op.Withdraw? && ErrorOf(db, op).None? && db.enrollments[op.enrollment].status != Withdrawn
    && AnyReleased(db, FutureCharges(db, op.enrollment, op.today)) && PeriodKey(op.now) == month
  }

  /** An entry dated in `month` was added. */
  ghost predicate DatedIn(db: Db, next: Db, month: nat) {
    exists i :: |db.entries| <= i < |next.entries| && PeriodKey(next.entries[i].at) == month
  }

  lemma {:induction false} WithdrawalBackdates(db: Db, op: Operation, month: nat)
    requires op.Withdraw?
    ensures DatedIn(db, Next(db, op), month) <==> Backdates(db, op, month)
    ensures Next(db, op).entries == db.entries
         || (|Next(db, op).entries| == |db.entries| + 1 &&
           Next(db, op).entries[|db.entries|].kind == WithdrawalReversal)
  {
    hide PeriodKey, FutureCharges, AnyReleased, AfterDrop, Released, AnyUnmatched, CourseOk, Grows;
    if ErrorOf(db, op).None? {
      DropGrows(db, db.enrollments[op.enrollment].student, FutureCharges(db, op.enrollment, op.today), op.now,
        match op.actor case Some(a) => a case None => 0);
      if Backdates(db, op, month) { assert PeriodKey(Next(db, op).entries[|db.entries|].at) == month; }
    }
  }

  // ---------------------------------------------------------------------------
  // Whole runs
  // ---------------------------------------------------------------------------

  /** Nothing that was ever written is deleted, moved or re-priced. */
  lemma {:induction false} RunIsAppendOnly(db: Db, ops: seq<Operation>)
    requires Good(db)
    ensures Grows(db, Run(db, ops))
  {
    hide Grows, Next;
    if ops == [] {
      SameGrows(db);
    } else {
      var before := Run(db, ops[..|ops| - 1]);
      RunIsAppendOnly(db, ops[..|ops| - 1]);
      RunFromGood(db, ops[..|ops| - 1]);
      StepGrows(before, ops[|ops| - 1]);
      GrowsTransitive(db, before, Run(db, ops));
    }
  }

  lemma CreditKeepsPeriods(db: Db, entries: seq<nat>, charges: seq<nat>, limit: Option<int>)
    ensures Crediting.ApplyCredit(db, entries, charges, limit).periods == db.periods
  {
    hide Crediting.CreditRows, StatusFor;
  }

  lemma MoneyKeepsPeriods(db: Db, op: Operation)
    requires ErrorOf(db, op).None?
    requires op.Pay? || op.GiveDiscount? || op.Adjust? || op.VoidPayment? || op.RefundPayment?
    ensures Effect(db, op).periods == db.periods
  {
    hide RowsForPayment, Crediting.ApplyCredit, Stamped, Survivors, OpenBalance, FirstTargetError, Refunded;
    hide HasRefund, ActiveOn, StatusFor, Voided, PeriodKey;
    match op {
      case GiveDiscount(student, charge, amount, at, recorder) =>
        var e := DiscountEntry(db, student, amount, at, recorder);
        CreditKeepsPeriods(AddEntry(db, e), [e.id], [charge], None);
      case _ =>
    }
  }

  lemma OtherStepKeepsPeriods(db: Db, op: Operation)
    requires ErrorOf(db, op).None? && !op.ClosePeriod? && !op.ReopenPeriod?
    requires !(op.Pay? || op.GiveDiscount? || op.Adjust? || op.VoidPayment? || op.RefundPayment?)
    ensures Effect(db, op).periods == db.periods
  {
    hide Crediting.ApplyCredit, PlanOf, Missing, AfterConvert, Starts, Wallet, ListBalance, ActiveOn;
    hide FutureCharges, Queries.CreditEntries, Queries.OpenCharges;
    match op {
      case Allocate(s, charge, requested) =>
        CreditKeepsPeriods(db, Queries.CreditEntries(db, s), [charge],
          Some(CreditAmount(db, s, Remaining(db, charge), requested)));
      case AllocateCourse(s, enrollment, requested) =>
        CreditKeepsPeriods(db, Queries.CreditEntries(db, s), Queries.CourseCharges(db, s, enrollment),
          Some(CourseCreditAmount(db, s, enrollment, requested)));
      case AutoAllocate(s, preferred) =>
        CreditKeepsPeriods(db, Queries.CreditEntries(db, s), Queries.OpenCharges(db, s, preferred), None);
        var first := AfterPreferred(db, s, preferred);
        CreditKeepsPeriods(first, Queries.CreditEntries(first, s), Queries.OpenCharges(first, s, None), None);
      case ChangeMode(enrollment, _, _, today, now, recorder) =>
        ConvertKeepsEnrollments(db, enrollment, today, now, recorder);
      case _ =>
    }
  }

  /** A month is closed or open as the last accepted request for it says; nothing else
      touches it. */
  lemma {:induction false} PeriodsFollowRequests(db: Db, op: Operation, month: nat)
    ensures IsClosed(Next(db, op), month) <==>
      if ErrorOf(db, op).None? && op.ClosePeriod? && op.period == month then true
      else if ErrorOf(db, op).None? && op.ReopenPeriod? && op.period == month then false
      else IsClosed(db, month)
  {
    if ErrorOf(db, op).None? && !op.ClosePeriod? && !op.ReopenPeriod? {
      hide Effect, ErrorOf;
      if op.Pay? || op.GiveDiscount? || op.Adjust? || op.VoidPayment? || op.RefundPayment? {
        MoneyKeepsPeriods(db, op);
      }
      else { OtherStepKeepsPeriods(db, op); }
    }
  }

  /** A request dates an entry in a closed month exactly when it is a withdrawal made in
      that month that releases something; the entry is the withdrawal's reversing one. */
  lemma {:induction false} OnlyWithdrawalsBackdate(db: Db, op: Operation, month: nat)
    requires Good(db) && IsClosed(db, month)
    ensures DatedIn(db, Next(db, op), month) <==> Backdates(db, op, month)
    ensures forall i :: |db.entries| <= i < |Next(db, op).entries| && PeriodKey(Next(db, op).entries[i].at) == month ==>
      Next(db, op).entries[i].kind == WithdrawalReversal
  {
    hide Next, Good, PeriodKey, Grows;
    GoodIsSound(db);
    if op.Withdraw? { WithdrawalBackdates(db, op, month); } else { StepGrows(db, op); }
  }

  /** The month is closed before each request of the run. */
  ghost predicate StaysClosed(db: Db, ops: seq<Operation>, month: nat) {
    forall k :: 0 <= k < |ops| ==> IsClosed(Run(db, ops[..k]), month)
  }

  /** Some request of the run dates an entry in `month`. */
  ghost predicate SomeBackdates(db: Db, ops: seq<Operation>, month: nat) {
    exists k :: 0 <= k < |ops| && Backdates(Run(db, ops[..k]), ops[k], month)
  }

  lemma SomeBackdatesStep(db: Db, ops: seq<Operation>, month: nat)
    requires ops != []
    ensures var front := ops[..|ops| - 1];
      SomeBackdates(db, ops, month) <==>
        SomeBackdates(db, front, month) || Backdates(Run(db, front), ops[|ops| - 1], month)
  {
    hide Run, Backdates;
    var front := ops[..|ops| - 1];
    forall k | 0 <= k <= |front| ensures front[..k] == ops[..k] {}
    if k :| 0 <= k < |ops| && Backdates(Run(db, ops[..k]), ops[k], month) {
      assert k < |front| ==> Backdates(Run(db, front[..k]), front[k], month);
    }
    if k :| 0 <= k < |front| && Backdates(Run(db, front[..k]), front[k], month) {
      assert Backdates(Run(db, ops[..k]), ops[k], month);
    }
  }

  lemma StaysClosedPrefix(db: Db, ops: seq<Operation>, month: nat)
    requires ops != [] && StaysClosed(db, ops, month)
    ensures StaysClosed(db, ops[..|ops| - 1], month) && IsClosed(Run(db, ops[..|ops| - 1]), month)
  {
    hide Run, IsClosed;
    var front := ops[..|ops| - 1];
    forall k | 0 <= k < |front| ensures IsClosed(Run(db, front[..k]), month) { assert front[..k] == ops[..k]; }
  }

  /** Over a run during which a month stays closed, an entry dated in it appears if and
      only if some withdrawal of the run backdates one. */
  lemma {:induction false} ClosedMonthGrowsByWithdrawals(db: Db, ops: seq<Operation>, month: nat)
    requires Good(db) && StaysClosed(db, ops, month)
    ensures DatedIn(db, Run(db, ops), month) <==> SomeBackdates(db, ops, month)
  {
    hide Next, Good, PeriodKey, Backdates, DatedIn, SomeBackdates, StaysClosed;
    if ops == [] {
      assert !DatedIn(db, db, month) by { NothingDated(db, month); }
      assert !SomeBackdates(db, ops, month) by { NothingBackdated(db, month); }
    } else {
      var front, last := ops[..|ops| - 1], ops[|ops| - 1];
      StaysClosedPrefix(db, ops, month);
      ClosedMonthGrowsByWithdrawals(db, front, month);
      RunFromGood(db, front);
      OnlyWithdrawalsBackdate(Run(db, front), last, month);
      RunExtends(db, front, last);
      DatedInTwice(db, Run(db, front), Run(db, ops), month);
      SomeBackdatesStep(db, ops, month);
    }
  }

  lemma NothingDated(db: Db, month: nat)
    ensures !DatedIn(db, db, month)
  {
  }

  lemma NothingBackdated(db: Db, month: nat)
    ensures !SomeBackdates(db, [], month)
  {
  }

  lemma RunExtends(db: Db, front: seq<Operation>, last: Operation)
    requires Good(db)
    ensures db.entries <= Run(db, front).entries <= Next(Run(db, front), last).entries
  {
    hide Next, Good, Run;
    RunIsAppendOnly(db, front);
    RunFromGood(db, front);
    GoodIsSound(Run(db, front));
    StepGrows(Run(db, front), last);
  }

  lemma DatedInTwice(db: Db, before: Db, next: Db, month: nat)
    requires db.entries <= before.entries <= next.entries
    ensures DatedIn(db, next, month) <==> DatedIn(db, before, month) || DatedIn(before, next, month)
  {
    hide PeriodKey;
    if i :| |db.entries| <= i < |next.entries| && PeriodKey(next.entries[i].at) == month {
      if i < |before.entries| { assert before.entries[i] == next.entries[i]; }
    }
    if i :| |db.entries| <= i < |before.entries| && PeriodKey(before.entries[i].at) == month {
      assert next.entries[i] == before.entries[i];
    }
  }

  /** While a month stays closed no payment, discount, adjustment, void or refund dated
      in it is added. */
  lemma {:induction false} ClosedMonthIsFrozen(db: Db, ops: seq<Operation>, month: nat)
    requires Good(db) && IsClosed(db, month)
    requires forall k :: 0 <= k < |ops| ==> !(ops[k].ReopenPeriod? && ops[k].period == month)
    ensures var next := Run(db, ops);
      && IsClosed(next, month) && StaysClosed(db, ops, month) && db.entries <= next.entries
      && forall i :: |db.entries| <= i < |next.entries| ==>
           next.entries[i].kind == WithdrawalReversal || PeriodKey(next.entries[i].at) != month
  {
    hide Next, Good, PeriodKey;
    if ops != [] {
      var n := |ops| - 1;
      var front := ops[..n];
      ClosedMonthIsFrozen(db, front, month);
      forall k | 0 <= k < |ops|
        ensures IsClosed(Run(db, ops[..k]), month)
      {
        if k < n { assert front[..k] == ops[..k]; }
      }
      RunFromGood(db, front);
      RunExtends(db, front, ops[n]);
      OnlyWithdrawalsBackdate(Run(db, front), ops[n], month);
      PeriodsFollowRequests(Run(db, front), ops[n], month);
    }
  }

  // ---------------------------------------------------------------------------
  // Adjustments
  // ---------------------------------------------------------------------------

  function EverOf(e: nat): Allocation -> int {
    (a: Allocation) => if a.entry == e then a.amount else 0
  }

  /** An adjustment is charged with everything ever allocated from it. */
  lemma AdjustmentUse(db: Db, e: nat)
    requires Integrity(db) && KindIs(db.entries, e, Adjustment)
    ensures Available(db, e) == db.entries[e].amount - Sum(db.allocations, EverOf(e))
  {
    forall i | 0 <= i < |db.allocations|
      ensures ConsumedOf(db.entries, e)(db.allocations[i]) == EverOf(e)(db.allocations[i])
    {
      var a := db.allocations[i];
      assert AllocationRowOk(db, i);
      if a.entry == e && a.reversedBy.Some? { assert EntryRowOk(db, a.reversedBy.value); }
      assert a.entry == e ==> Consumes(db.entries, a);
    }
    SumAgree(db.allocations, ConsumedOf(db.entries, e), EverOf(e));
    forall i | 0 <= i < |db.entries| ensures CashOutOf(e)(db.entries[i]) == 0 { assert EntryRowOk(db, i); }
    SumZero(db.entries, CashOutOf(e));
  }

  /** What was ever allocated from an entry only grows. */
  lemma EverGrows(db: Db, next: Db, e: nat)
    requires Grows(db, next) && RowsOk(next)
    ensures Sum(db.allocations, EverOf(e)) <= Sum(next.allocations, EverOf(e))
  {
    var n := |db.allocations|;
    var kept, added := next.allocations[..n], next.allocations[n..];
    assert next.allocations == kept + added;
    SumConcat(kept, added, EverOf(e));
    forall i | 0 <= i < n ensures EverOf(e)(db.allocations[i]) == EverOf(e)(kept[i]) {
      assert RowKept(db.allocations[i], next.allocations[i]);
    }
    SumMapped(db.allocations, kept, EverOf(e), EverOf(e));
    forall i | 0 <= i < |added| ensures 0 <= EverOf(e)(added[i]) { assert AllocationRowOk(next, n + i); }
    SumNonNegative(added, EverOf(e));
  }

  /** Over any run the credit of an adjustment only shrinks: what a withdrawal releases
      of it can never be spent again. */
  lemma {:induction false} AdjustmentCreditNeverReturns(db: Db, ops: seq<Operation>, e: nat)
    requires Good(db) && KindIs(db.entries, e, Adjustment)
    ensures var next := Run(db, ops); e < |next.entries| && Available(next, e) <= Available(db, e)
  {
    hide Balanced, Scheduled, Run, RowsOk;
    RunIsAppendOnly(db, ops);
    RunFromGood(db, ops);
    AdjustmentUse(db, e);
    AdjustmentUse(Run(db, ops), e);
    EverGrows(db, Run(db, ops), e);
  }

  // ---------------------------------------------------------------------------
  // Discounts
  // ---------------------------------------------------------------------------

  /** No allocation was added of a discount that was already there. */
  ghost predicate DiscountsRest(db: Db, next: Db) {
    && Grows(db, next)
    && forall i ::
      |db.allocations| <= i < |next.allocations| ==> !KindIs(db.entries, next.allocations[i].entry, Discount)
  }

  lemma RestsTransitive(a: Db, b: Db, c: Db)
    requires DiscountsRest(a, b) && DiscountsRest(b, c)
    ensures DiscountsRest(a, c)
  {
    GrowsTransitive(a, b, c);
    forall i | |a.allocations| <= i < |c.allocations| ensures !KindIs(a.entries, c.allocations[i].entry, Discount) {
      if i < |b.allocations| { assert RowKept(b.allocations[i], c.allocations[i]); }
      else { assert !KindIs(b.entries, c.allocations[i].entry, Discount); }
    }
  }

  lemma CreditRests(db: Db, entries: seq<nat>, charges: seq<nat>, limit: Option<int>)
    requires forall i :: 0 <= i < |entries| ==> !KindIs(db.entries, entries[i], Discount)
    ensures DiscountsRest(db, Crediting.ApplyCredit(db, entries, charges, limit))
  {
    hide Crediting.CreditRows, Grows;
    var rows := Crediting.CreditRows(db, entries, charges, limit);
    CreditGrows(db, entries, charges, limit);
    forall k | 0 <= k < |rows| ensures !KindIs(db.entries, rows[k].entry, Discount) {
      Crediting.CreditRowFrom(db, entries, charges, limit, k);
    }
  }

  lemma WalletRests(db: Db, student: int, charges: seq<nat>, limit: Option<int>)
    ensures DiscountsRest(db, Crediting.ApplyCredit(db, Queries.CreditEntries(db, student), charges, limit))
  {
    hide Crediting.ApplyCredit, Queries.CreditEntries, DiscountsRest;
    Queries.CreditEntriesSelected(db, student);
    var entries := Queries.CreditEntries(db, student);
    forall i | 0 <= i < |entries| ensures !KindIs(db.entries, entries[i], Discount) { assert entries[i] in entries; }
    CreditRests(db, entries, charges, limit);
  }

  lemma PaymentRests(db: Db, student: int, portions: seq<Portion>, amount: int, at: nat, recorder: int)
    ensures DiscountsRest(db, AfterPayment(db, student, portions, amount, at, recorder))
  {
    hide PaymentRows, Grows;
    var paid := AddEntry(db, PaymentEntry(db, student, amount, at, recorder));
    var cs, rows := Queries.TargetCharges(paid, EnrollmentsOf(portions)), RowsForPayment(paid, |db.entries|, portions);
    PaymentGrows(db, student, portions, amount, at, recorder);
    forall k | 0 <= k < |rows| ensures rows[k].entry == |db.entries| {
      PaymentRowShape(paid, |db.entries|, portions, cs, |cs|, k);
    }
  }

  lemma DiscountRests(db: Db, student: int, charge: nat, amount: Money, at: nat, recorder: int)
    ensures DiscountsRest(db, AfterDiscount(db, student, charge, amount, at, recorder))
  {
    hide Crediting.CreditRows, Grows;
    var e := DiscountEntry(db, student, amount, at, recorder);
    var entered := AddEntry(db, e);
    var rows := Crediting.CreditRows(entered, [e.id], [charge], None);
    DiscountGrows(db, student, charge, amount, at, recorder);
    forall k | 0 <= k < |rows| ensures rows[k].entry == |db.entries| {
      Crediting.CreditRowFrom(entered, [e.id], [charge], None, k);
    }
  }

  lemma {:induction false} StepsRest(db: Db, charges: seq<nat>, k: nat, now: nat, actor: int)
    requires k <= |charges|
    ensures DiscountsRest(db, GrantSteps(db, charges, k, now, actor))
  {
    hide AfterDiscount, AfterCancel, DiscountsRest, ActiveOn;
    if k == 0 {
      NothingAdded(db, db);
    } else {
      var before, c := GrantSteps(db, charges, k - 1, now, actor), charges[k - 1];
      var next := GrantSteps(db, charges, k, now, actor);
      StepsRest(db, charges, k - 1, now, actor);
      NothingAdded(before, before);
      CancelGrows(before, [c]);
      NothingAdded(before, AfterCancel(before, [c]));
      if c < |before.charges| && 0 < Remaining(before, c) <= MAX_CENTS {
        DiscountRests(before, before.charges[c].student, c, Remaining(before, c), now, actor);
      }
      RestsTransitive(db, before, next);
    }
  }

  lemma NothingAdded(db: Db, next: Db)
    requires Grows(db, next) && |next.allocations| == |db.allocations|
    ensures DiscountsRest(db, next)
  {
  }

  lemma ReversalRests(db: Db, reversal: Entry, payment: nat, amount: int)
    requires IsPayment(db, payment)
    ensures DiscountsRest(db, AfterReversal(db, reversal, payment, amount))
  {
    hide Grows, StampedRow, SurvivorsFrom;
    ReversalGrows(db, reversal, payment, amount);
    var survivors, next := Survivors(db.allocations, payment, amount), AfterReversal(db, reversal, payment, amount);
    assert next.allocations == Stamped(db.allocations, payment, amount, reversal.id) + survivors;
    forall k | 0 <= k < |survivors| ensures survivors[k].entry == payment {
      SurvivorRow(db.allocations, payment, amount, 0, k);
    }
  }

  lemma ModeRests(db: Db, enrollment: nat, target: BillingMode, paymentDay: Option<nat>, today: int, now: nat,
                  actor: int)
    requires ModeError(db, enrollment, target, today, now).None?
    ensures DiscountsRest(db, AfterModeChange(db, enrollment, target, paymentDay, today, now, actor))
  {
    hide GrantSteps, PlanOf, Missing, Starts, ConvertError, RowKept, ChargesFromPlan, FutureCharges;
    if target == Grant {
      var cs := FutureCharges(db, enrollment, today);
      StepsRest(db, cs, |cs|, now, actor);
    } else {
      SameGrows(db);
    }
  }

  lemma {:induction false} StepRests(db: Db, op: Operation)
    ensures DiscountsRest(db, Next(db, op))
  {
    hide Crediting.ApplyCredit, AfterPayment, AfterDiscount, AfterReversal, AfterModeChange, AfterGenerate, AfterDrop,
      OpenBalance, Refunded,
         HasRefund, FirstTargetError, ActiveOn, PeriodKey, FutureCharges, Starts, Wallet, ListBalance, DiscountsRest;
    SameGrows(db);
    NothingAdded(db, db);
    if ErrorOf(db, op).None? {
      match op {
        case Pay(s, course, targets, paid, at, recorder) =>
          PaymentRests(db, s, PaymentCheck(db, s, course, targets, paid, at).value, paid, at, recorder);
        case GiveDiscount(s, charge, amount, at, recorder) => DiscountRests(db, s, charge, amount, at, recorder);
        case VoidPayment(payment, now, recorder) =>
          ReversalRests(db, VoidEntry(db, payment, now, recorder), payment, db.entries[payment].amount);
        case RefundPayment(payment, amount, toWallet, now, recorder, _) =>
          ReversalRests(db, RefundEntry(db, payment, amount, toWallet, now, recorder), payment, amount);
        case Allocate(s, charge, requested) =>
          WalletRests(db, s, [charge], Some(CreditAmount(db, s, Remaining(db, charge), requested)));
        case AllocateCourse(s, enrollment, requested) =>
          WalletRests(db, s, Queries.CourseCharges(db, s, enrollment),
            Some(CourseCreditAmount(db, s, enrollment, requested)));
        case AutoAllocate(s, preferred) =>
          var first := AfterPreferred(db, s, preferred);
          if preferred.Some? { WalletRests(db, s, Queries.OpenCharges(db, s, preferred), None); }
          WalletRests(first, s, Queries.OpenCharges(first, s, None), None);
          RestsTransitive(db, first, AfterAutoAllocate(db, s, preferred));
        case Withdraw(enrollment, actor, today, now) => WithdrawRests(db, enrollment, actor, today, now);
        case ChangeMode(enrollment, target, paymentDay, today, now, recorder) =>
          ModeRests(db, enrollment, target, paymentDay, today, now, recorder);
        case Enroll(_, _, _, _, _, _, _, _, _) => OthersRest(db, op);
        case Generate(_, _) => OthersRest(db, op);
        case _ => OthersRest(db, op);
      }
    }
  }

  lemma WithdrawRests(db: Db, enrollment: nat, actor: Option<int>, today: int, now: nat)
    requires enrollment < |db.enrollments|
    ensures DiscountsRest(db, AfterWithdraw(db, enrollment, actor, today, now))
  {
    hide FutureCharges, RowKept, ReleasedRow, CancelledRow, Released;
    SameGrows(db);
    DropGrows(db, db.enrollments[enrollment].student, FutureCharges(db, enrollment, today), now,
      match actor case Some(a) => a case None => 0);
  }

  /** Courses, enrollments, months and adjustments allocate nothing. */
  lemma OthersRest(db: Db, op: Operation)
    requires ErrorOf(db, op).None?
    requires op.CreateCourse? || op.Enroll? || op.Generate? || op.Adjust? || op.ClosePeriod? || op.ReopenPeriod?
    ensures DiscountsRest(db, Effect(db, op))
  {
    hide PlanOf, ChargesFromPlan, CourseOk, PeriodKey;
  }

  lemma {:induction false} RunRests(db: Db, ops: seq<Operation>)
    ensures DiscountsRest(db, Run(db, ops))
  {
    hide DiscountsRest, Next;
    if ops == [] {
      SameGrows(db);
      NothingAdded(db, db);
    } else {
      var before := Run(db, ops[..|ops| - 1]);
      RunRests(db, ops[..|ops| - 1]);
      StepRests(before, ops[|ops| - 1]);
      RestsTransitive(db, before, Run(db, ops));
    }
  }

  /** A discount is applied once, when it is given: over any run no later allocation
      draws on it, so what a withdrawal releases of it is gone. */
  lemma {:induction false} DiscountIsNeverAppliedAgain(db: Db, ops: seq<Operation>, e: nat)
    requires Good(db) && KindIs(db.entries, e, Discount)
    ensures var next := Run(db, ops);
      && KindIs(next.entries, e, Discount)
      && (forall i :: |db.allocations| <= i < |next.allocations| ==> next.allocations[i].entry != e)
      && Applied(next, e) <= Applied(db, e)
  {
    hide Run, Good;
    var next, n := Run(db, ops), |db.allocations|;
    RunRests(db, ops);
    GoodIsSound(db);
    var kept, added := next.allocations[..n], next.allocations[n..];
    assert next.allocations == kept + added;
    SumConcat(kept, added, OfEntry(e));
    forall i | 0 <= i < |added|
      ensures OfEntry(e)(added[i]) == 0
    {
      assert !KindIs(db.entries, next.allocations[n + i].entry, Discount);
    }
    SumZero(added, OfEntry(e));
    forall i | 0 <= i < n ensures 0 <= OfEntry(e)(db.allocations[i]) - OfEntry(e)(kept[i]) {
      assert RowKept(db.allocations[i], next.allocations[i]) && AllocationRowOk(db, i);
    }
    SumBelow(db.allocations, kept, OfEntry(e));
  }

  lemma {:induction false} SumBelow(xs: seq<Allocation>, ys: seq<Allocation>, f: Allocation -> int)
    requires |xs| == |ys| && forall i :: 0 <= i < |xs| ==> f(ys[i]) <= f(xs[i])
    ensures Sum(ys, f) <= Sum(xs, f)
  {
    if xs != [] { SumBelow(xs[..|xs| - 1], ys[..|ys| - 1], f); }
  }
}
