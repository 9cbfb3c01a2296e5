/**
 `convert_future_charges_to_grant` and `change_billing_mode`: an enrollment goes from
 paid to grant and back.
 */
module Grants {
  import opened Wrappers
  import opened Sums
  import opened Calendar
  import opened Tables
  import opened Posting
  import opened Queries
  import opened Concessions
  import opened Reversals
  import opened Withdrawals
  import opened Billing
  import Crediting

  /** One future month: cancelled when nothing is applied to it, otherwise its remainder
      is written off with a discount. */
  function GrantStep(db: Db, c: nat, now: nat, actor: int): Db {
    if c >= |db.charges| then db
    else if ActiveOn(db, c) <= 0 then AfterCancel(db, [c])
    else if 0 < Remaining(db, c) <= MAX_CENTS
      then AfterDiscount(db, db.charges[c].student, c, Remaining(db, c), now, actor)
    else db
  }

  function GrantSteps(db: Db, charges: seq<nat>, k: nat, now: nat, actor: int): Db
    requires k <= |charges|
  {
    if k == 0 then db else GrantStep(GrantSteps(db, charges, k - 1, now, actor), charges[k - 1], now, actor)
  }

  /** `next` differs from `db` in charge `c` only. */
  ghost predicate OnlyCharge(db: Db, next: Db, c: nat) {
    && |next.charges| == |db.charges|
    && next.courses == db.courses && next.enrollments == db.enrollments && next.periods == db.periods
    && forall d :: 0 <= d < |db.charges| ==>
         && next.charges[d] == db.charges[d].(status := next.charges[d].status)
         && (next.charges[d].status != Cancelled ==> db.charges[d].status != Cancelled)
         && (d != c ==> next.charges[d] == db.charges[d] && ActiveOn(next, d) == ActiveOn(db, d))
  }

  /** Month `c` was cancelled when nothing was applied to it, and settled otherwise. */
  predicate Granted(db: Db, next: Db, c: nat) {
    && c < |db.charges| == |next.charges|
    && if ActiveOn(db, c) <= 0
       then next.charges[c] == db.charges[c].(status := Cancelled) && ActiveOn(next, c) == 0
       else next.charges[c] == db.charges[c].(status := Settled) && ActiveOn(next, c) == db.charges[c].amount
  }

  predicate WritesOff(db: Db, c: nat) {
    c < |db.charges| && 0 < ActiveOn(db, c) && 0 < Remaining(db, c)
  }

  /** The months of a list that are written off. */
  function WrittenOff(db: Db, charges: seq<nat>): seq<nat> {
    if charges == [] then []
    else
      var n := |charges| - 1;
      WrittenOff(db, charges[..n]) + (if WritesOff(db, charges[n]) then [charges[n]] else [])
  }

  /** One discount entry for each month of a list, of what it still needs. */
  function WriteOffEntries(db: Db, charges: seq<nat>, now: nat, actor: int): seq<Entry> {
    seq(|charges|, i requires 0 <= i < |charges| =>
      var c := charges[i];
      if c < |db.charges| then Entry(|db.entries| + i, db.charges[c].student, Discount, Remaining(db, c), now, actor,
        None, false)
      else Entry(|db.entries| + i, 0, Discount, 0, now, actor, None, false))
  }

  /** The allocation of each such discount to its month. */
  function WriteOffRows(db: Db, charges: seq<nat>): seq<Allocation> {
    seq(|charges|, i requires 0 <= i < |charges| =>
      var c := charges[i];
      Allocation(|db.allocations| + i, |db.entries| + i, c, if c < |db.charges| then Remaining(db, c) else 0, None))
  }

  /** The entries and allocations a conversion writes. */
  ghost predicate WritesExactly(db: Db, next: Db, written: seq<nat>, now: nat, actor: int) {
    && next.entries == db.entries + WriteOffEntries(db, written, now, actor)
    && next.allocations == db.allocations + WriteOffRows(db, written)
  }

  lemma CancelStep(db: Db, c: nat, other: int)
    requires Integrity(db) && c < |db.charges| && db.charges[c].status != Cancelled && ActiveOn(db, c) <= 0
    ensures var next := AfterCancel(db, [c]);
      && Integrity(next) && OnlyCharge(db, next, c) && Granted(db, next, c) && next.entries == db.entries
      && next.allocations == db.allocations
      && Wallet(next, other) == Wallet(db, other)
      && Outstanding(next, other)
        == Outstanding(db, other) - (if other == db.charges[c].student then Remaining(db, c) else 0)
  {
    var s, next := db.charges[c].student, AfterCancel(db, [c]);
    assert ChargeBalanced(db, c) && ChargeRowOk(db, c);
    SumAgree(db.allocations, OnAnyOf([c]), OnCharge(c));
    ReleasedPositive(db, [c]);
    assert next == AfterDrop(db, s, [c], 0, 0);
    DropKeepsIntegrity(db, s, [c], 0, 0);
    DropOutstanding(db, s, [c], 0, 0, other);
    forall i | 0 <= i < |db.charges| && i != c ensures AmountIn([c])(db.charges[i]) == 0 { assert ChargeRowOk(db, i); }
    SumSingle(db.charges, c, AmountIn([c]));
    DropWallet(db, s, [c], 0, 0, other);
    forall i | 0 <= i < |db.allocations| ensures PaidBack(db.entries, [c])(db.allocations[i]) == 0 {
      var any := AnyReleased(db, [c]);
    }
    SumZero(db.allocations, PaidBack(db.entries, [c]));
    forall d | 0 <= d < |db.charges| ensures d != c ==> next.charges[d] == db.charges[d] { assert ChargeRowOk(db, d); }
  }

  /** A discount within what its charge needs is applied in one row. */
  lemma DiscountRow(db: Db, student: int, c: nat, amount: Money, now: nat, actor: int)
    requires Integrity(db) && DiscountError(db, student, c, amount, now).None?
    ensures var next := AfterDiscount(db, student, c, amount, now, actor);
      && next.entries == db.entries + [DiscountEntry(db, student, amount, now, actor)]
      && next.allocations == db.allocations + [Allocation(|db.allocations|, |db.entries|, c, amount, None)]
  {
    hide Crediting.CreditRows, Crediting.Placed;
    var entered := AddEntry(db, DiscountEntry(db, student, amount, now, actor));
    var rows := Crediting.CreditRows(entered, [|db.entries|], [c], None);
    DiscountRows(db, student, c, amount, now, actor);
    Crediting.CreditPlaced(entered, [|db.entries|], [c], None);
    Crediting.CreditRowFrom(entered, [|db.entries|], [c], None, 0);
    assert rows == [rows[0]];
    assert Sum(rows, Crediting.AmountOf()) == rows[0].amount by { SumAppend([], rows[0], Crediting.AmountOf()); }
  }

  lemma WriteOffStep(db: Db, c: nat, now: nat, actor: int, other: int)
    requires Integrity(db) && c < |db.charges| && db.charges[c].status != Cancelled
    requires 0 < ActiveOn(db, c) && 0 < Remaining(db, c) <= MAX_CENTS && !IsClosed(db, PeriodKey(now))
    ensures DiscountError(db, db.charges[c].student, c, Remaining(db, c), now).None?
    ensures var next := AfterDiscount(db, db.charges[c].student, c, Remaining(db, c), now, actor);
      && Integrity(next) && OnlyCharge(db, next, c) && Granted(db, next, c)
      && next.entries == db.entries + [DiscountEntry(db, db.charges[c].student, Remaining(db, c), now, actor)]
      && next.allocations == db.allocations + [Allocation(|db.allocations|, |db.entries|, c, Remaining(db, c), None)]
      && Wallet(next, other) == Wallet(db, other)
      && Outstanding(next, other)
        == Outstanding(db, other) - (if other == db.charges[c].student then Remaining(db, c) else 0)
  {
    hide Crediting.ApplyCredit, Crediting.CreditRows, OnCharge;
    assert ChargeBalanced(db, c) && ChargeRowOk(db, c);
    DiscountEffect(db, db.charges[c].student, c, Remaining(db, c), now, actor, other);
    DiscountRow(db, db.charges[c].student, c, Remaining(db, c), now, actor);
    var next := AfterDiscount(db, db.charges[c].student, c, Remaining(db, c), now, actor);
    DiscountFrame(db, db.charges[c].student, c, Remaining(db, c), now, actor);
    assert ChargeBalanced(next, c);
    forall d | 0 <= d < |db.charges| && d != c ensures next.charges[d] == db.charges[d] {
      StatusDetermined(db, next, d);
    }
  }

  /** A discount changes no charge but its status, and no other table than its own. */
  lemma DiscountFrame(db: Db, student: int, c: nat, amount: Money, now: nat, actor: int)
    ensures var next := AfterDiscount(db, student, c, amount, now, actor);
      && |next.charges| == |db.charges|
      && next.courses == db.courses && next.enrollments == db.enrollments && next.periods == db.periods
      && forall d :: 0 <= d < |db.charges| ==>
           && next.charges[d] == db.charges[d].(status := next.charges[d].status)
           && (next.charges[d].status == Cancelled <==> db.charges[d].status == Cancelled)
  {
  }

  /** `next` has exactly the entry and the row of a write-off of `c` more than `db`. */
  predicate OneWriteOff(db: Db, next: Db, c: nat, now: nat, actor: int)
    requires c < |db.charges|
  {
    && next.entries == db.entries + [DiscountEntry(db, db.charges[c].student, Remaining(db, c), now, actor)]
    && next.allocations == db.allocations + [Allocation(|db.allocations|, |db.entries|, c, Remaining(db, c), None)]
  }

  lemma OneIsWritten(db: Db, next: Db, c: nat, now: nat, actor: int)
    requires c < |db.charges|
    ensures WritesExactly(db, next, [c], now, actor) <==> OneWriteOff(db, next, c, now, actor)
    ensures WritesExactly(db, next, [], now, actor) <==>
      next.entries == db.entries && next.allocations == db.allocations
  {
    hide Remaining;
    assert WriteOffEntries(db, [c], now, actor)
      == [DiscountEntry(db, db.charges[c].student, Remaining(db, c), now, actor)];
    assert WriteOffRows(db, [c]) == [Allocation(|db.allocations|, |db.entries|, c, Remaining(db, c), None)];
    assert db.entries + [] == db.entries && db.allocations + [] == db.allocations;
  }

  lemma OneMoreWritten(db: Db, before: Db, next: Db, written: seq<nat>, c: nat, now: nat, actor: int)
    requires c < |db.charges| == |before.charges| && before.charges[c] == db.charges[c]
    requires Remaining(before, c) == Remaining(db, c)
    requires WritesExactly(db, before, written, now, actor) && OneWriteOff(before, next, c, now, actor)
    ensures WritesExactly(db, next, written + [c], now, actor)
  {
    hide Remaining;
    assert WriteOffEntries(db, written + [c], now, actor) == WriteOffEntries(db, written, now, actor)
      + [Entry(|before.entries|, db.charges[c].student, Discount, Remaining(db, c), now, actor, None, false)];
    assert WriteOffRows(db, written + [c]) == WriteOffRows(db, written)
      + [Allocation(|before.allocations|, |before.entries|, c, Remaining(db, c), None)];
  }

  /** One step clears its month, takes what was owed on it off the debt, and leaves every
      wallet and every other charge alone. */
  lemma GrantStepEffect(db: Db, c: nat, now: nat, actor: int, other: int)
    requires Integrity(db) && c < |db.charges| && db.charges[c].status != Cancelled
    requires WritesOff(db, c) ==> !IsClosed(db, PeriodKey(now))
    ensures var next := GrantStep(db, c, now, actor);
      && Integrity(next) && OnlyCharge(db, next, c) && Granted(db, next, c)
      && WritesExactly(db, next, if WritesOff(db, c) then [c] else [], now, actor)
      && Wallet(next, other) == Wallet(db, other)
      && Outstanding(next, other)
        == Outstanding(db, other) - (if other == db.charges[c].student then Remaining(db, c) else 0)
  {
    hide AfterCancel, AfterDiscount, OnCharge, Wallet, Outstanding, ActiveOn, WritesExactly;
    assert ChargeBalanced(db, c) && ChargeRowOk(db, c);
    OneIsWritten(db, GrantStep(db, c, now, actor), c, now, actor);
    if ActiveOn(db, c) <= 0 { CancelStep(db, c, other); }
    else if 0 < Remaining(db, c) { WriteOffStep(db, c, now, actor, other); }
  }

  function RemainingIn(db: Db): nat -> int {
    (c: nat) => if c < |db.charges| then Remaining(db, c) else 0
  }

  predicate AnyWriteOff(db: Db, charges: seq<nat>) {
    exists j :: 0 <= j < |charges| && WritesOff(db, charges[j])
  }

  /** After `k` steps. */
  ghost predicate Progress(db: Db, next: Db, charges: seq<nat>, k: nat)
    requires k <= |charges|
  {
    && |next.charges| == |db.charges|
    && next.courses == db.courses && next.enrollments == db.enrollments && next.periods == db.periods
    && (forall d :: 0 <= d < |db.charges| ==>
         && next.charges[d] == db.charges[d].(status := next.charges[d].status)
         && (next.charges[d].status != Cancelled ==> db.charges[d].status != Cancelled)
         && (d !in charges[..k] ==> next.charges[d] == db.charges[d] && ActiveOn(next, d) == ActiveOn(db, d)))
    && (forall j :: 0 <= j < k ==> Granted(db, next, charges[j]))
  }

  lemma ProgressStep(db: Db, before: Db, next: Db, charges: seq<nat>, k: nat)
    requires 0 < k <= |charges| && Distinct(charges) && charges[k - 1] < |db.charges|
    requires Progress(db, before, charges, k - 1)
    requires OnlyCharge(before, next, charges[k - 1]) && Granted(before, next, charges[k - 1])
    ensures Progress(db, next, charges, k)
  {
    hide ActiveOn;
    assert charges[..k] == charges[..k - 1] + [charges[k - 1]];
    assert charges[k - 1] !in charges[..k - 1];
    forall j | 0 <= j < k ensures Granted(db, next, charges[j]) {
      if j < k - 1 { assert Granted(db, before, charges[j]) && charges[j] != charges[k - 1]; }
    }
  }

  /** What is written grows by one entry and one row with each month written off. */
  lemma WritesStep(db: Db, before: Db, next: Db, charges: seq<nat>, k: nat, now: nat, actor: int)
    requires 0 < k <= |charges| && charges[k - 1] < |db.charges| && |before.charges| == |db.charges|
    requires var c := charges[k - 1]; before.charges[c] == db.charges[c] && ActiveOn(before, c) == ActiveOn(db, c)
    requires WritesExactly(db, before, WrittenOff(db, charges[..k - 1]), now, actor)
    requires WritesExactly(before, next, if WritesOff(before, charges[k - 1]) then [charges[k - 1]] else [], now, actor)
    ensures WritesExactly(db, next, WrittenOff(db, charges[..k]), now, actor)
  {
    hide ActiveOn, WritesExactly;
    var c, written := charges[k - 1], WrittenOff(db, charges[..k - 1]);
    assert charges[..k][..k - 1] == charges[..k - 1] && written + [] == written;
    OneIsWritten(before, next, c, now, actor);
    if WritesOff(before, c) { OneMoreWritten(db, before, next, written, c, now, actor); }
    else { SameWritten(db, before, next, written, now, actor); }
  }

  lemma SameWritten(db: Db, before: Db, next: Db, written: seq<nat>, now: nat, actor: int)
    requires WritesExactly(db, before, written, now, actor)
    requires next.entries == before.entries && next.allocations == before.allocations
    ensures WritesExactly(db, next, written, now, actor)
  {
  }

  /** The months still ahead are as they were. */
  lemma AheadUnchanged(db: Db, before: Db, charges: seq<nat>, k: nat)
    requires 0 < k <= |charges| && Distinct(charges) && charges[k - 1] < |db.charges|
    requires Progress(db, before, charges, k - 1)
    ensures var c := charges[k - 1];
      && |before.charges| == |db.charges| && before.periods == db.periods
      && before.charges[c] == db.charges[c] && ActiveOn(before, c) == ActiveOn(db, c)
      && WritesOff(before, c) == WritesOff(db, c)
  {
    hide ActiveOn, Granted;
    assert charges[k - 1] !in charges[..k - 1];
  }

  lemma NothingWritten(db: Db, charges: seq<nat>, now: nat, actor: int)
    ensures WritesExactly(db, db, WrittenOff(db, charges[..0]), now, actor)
  {
    assert db.entries + [] == db.entries && db.allocations + [] == db.allocations;
  }

  lemma {:induction false} GrantStepsEffect(db: Db, student: int, charges: seq<nat>, k: nat, now: nat, actor: int,
                                            other: int)
    requires Integrity(db) && Distinct(charges) && Droppable(db, student, charges) && k <= |charges|
    requires AnyWriteOff(db, charges) ==> !IsClosed(db, PeriodKey(now))
    ensures var next := GrantSteps(db, charges, k, now, actor);
      && Integrity(next) && Progress(db, next, charges, k)
      && WritesExactly(db, next, WrittenOff(db, charges[..k]), now, actor)
      && Wallet(next, other) == Wallet(db, other)
      && Outstanding(next, other)
        == Outstanding(db, other) - (if other == student then Sum(charges[..k], RemainingIn(db)) else 0)
  {
    hide GrantStep, Integrity, Wallet, Outstanding, ActiveOn, OnlyCharge, Granted, WritesExactly, WritesOff, WrittenOff,
      PeriodKey;
    if k == 0 {
      NothingWritten(db, charges, now, actor);
    } else {
      var before, c := GrantSteps(db, charges, k - 1, now, actor), charges[k - 1];
      var next := GrantSteps(db, charges, k, now, actor);
      GrantStepsEffect(db, student, charges, k - 1, now, actor, other);
      AheadUnchanged(db, before, charges, k);
      GrantStepEffect(before, c, now, actor, other);
      ProgressStep(db, before, next, charges, k);
      WritesStep(db, before, next, charges, k, now, actor);
      assert charges[..k] == charges[..k - 1] + [c];
      SumAppend<nat>(charges[..k - 1], c, RemainingIn(db));
    }
  }

  // ---------------------------------------------------------------------------
  // Changing the billing mode
  // ---------------------------------------------------------------------------

  function ConvertError(db: Db, enrollment: nat, today: int, now: nat): Option<LedgerError> {
    if AnyUnmatched(db, enrollment) then Some(MonthNotFound)
    else if AnyWriteOff(db, FutureCharges(db, enrollment, today)) && IsClosed(db, PeriodKey(now))
      then Some(ClosedPeriod)
    else None
  }

  function ModeError(db: Db, enrollment: nat, target: BillingMode, today: int, now: nat): Option<LedgerError> {
    if !EnrollmentReady(db, enrollment) then Some(NotFound)
    else if db.enrollments[enrollment].status != Active then Some(EnrollmentNotActive)
    else if db.enrollments[enrollment].mode == target then Some(ModeUnchanged)
    else if target == Grant then ConvertError(db, enrollment, today, now)
    else None
  }

  function AfterConvert(db: Db, enrollment: nat, today: int, now: nat, actor: int): Db {
    var cs := FutureCharges(db, enrollment, today);
    GrantSteps(db, cs, |cs|, now, actor)
  }

  function WithMode(db: Db, enrollment: nat, mode: BillingMode): Db {
    if enrollment < |db.enrollments| then WithEnrollment(db, enrollment, db.enrollments[enrollment].(mode := mode))
      else db
  }

  function AfterModeChange(db: Db, enrollment: nat, target: BillingMode, paymentDay: Option<nat>, today: int, now: nat,
                           actor: int): Db {
    if target == Grant then WithMode(AfterConvert(db, enrollment, today, now, actor), enrollment, Grant)
    else AfterResume(WithMode(db, enrollment, Paid), enrollment, paymentDay, today)
  }

  /** What conversion cancels, and what it writes off. */
  function CancelledIn(db: Db): nat -> int {
    (c: nat) => if c < |db.charges| && ActiveOn(db, c) <= 0 then db.charges[c].amount else 0
  }

  function WrittenOffIn(db: Db): nat -> int {
    (c: nat) => if WritesOff(db, c) then Remaining(db, c) else 0
  }

  /** Conversion to a grant, month by month: of the months that start from today on, one
      that nothing was applied to is cancelled, and every other one ends settled in full by
      one discount of what it still needed.  No other charge changes, no wallet does, and
      what is cancelled and written off is exactly what was owed on those months. */
  lemma ConvertEffect(db: Db, enrollment: nat, today: int, now: nat, actor: int, other: int)
    requires Integrity(db) && Scheduled(db) && enrollment < |db.enrollments|
    requires ConvertError(db, enrollment, today, now).None?
    ensures var next, cs := AfterConvert(db, enrollment, today, now, actor), FutureCharges(db, enrollment, today);
      && Integrity(next) && Scheduled(next)
      && |next.charges| == |db.charges|
      && (forall c :: 0 <= c < |db.charges| ==>
            if StartsFrom(db, enrollment, today, c) then Granted(db, next, c)
            else next.charges[c] == db.charges[c] && ActiveOn(next, c) == ActiveOn(db, c))
      && WritesExactly(db, next, WrittenOff(db, cs), now, actor)
      && Wallet(next, other) == Wallet(db, other)
      && Outstanding(next, other) == Outstanding(db, other)
           - (if other == db.enrollments[enrollment].student then Sum(cs, CancelledIn(db)) + Sum(cs, WrittenOffIn(db))
             else 0)
  {
    hide Starts, CourseOk, StartsFrom, ActiveOn, WritesExactly, Granted, Wallet, Outstanding, GrantSteps;
    var cs, student := FutureCharges(db, enrollment, today), db.enrollments[enrollment].student;
    EveryMonthMatches(db, enrollment);
    FutureChargesSelected(db, enrollment, today);
    FutureChargesDrop(db, enrollment, today);
    GrantStepsEffect(db, student, cs, |cs|, now, actor, other);
    assert cs[..|cs|] == cs;
    var next := AfterConvert(db, enrollment, today, now, actor);
    forall c | 0 <= c < |db.charges| && StartsFrom(db, enrollment, today, c) ensures Granted(db, next, c) {
      var j :| 0 <= j < |cs| && cs[j] == c;
    }
    ScheduleKept(db, next);
    ConvertAmounts(db, student, cs);
  }

  lemma ConvertAmounts(db: Db, student: int, charges: seq<nat>)
    requires Integrity(db) && Droppable(db, student, charges)
    ensures Sum(charges, RemainingIn(db)) == Sum(charges, CancelledIn(db)) + Sum(charges, WrittenOffIn(db))
  {
    forall j | 0 <= j < |charges|
      ensures RemainingIn(db)(charges[j]) == CancelledIn(db)(charges[j]) + WrittenOffIn(db)(charges[j])
    {
      assert ChargeBalanced(db, charges[j]);
      assert RemainingIn(db)(charges[j]) == Remaining(db, charges[j]);
      var off := WritesOff(db, charges[j]);
    }
    SumPlus(charges, CancelledIn(db), WrittenOffIn(db), RemainingIn(db));
  }

  /** A write-off inside the conversion can be refused for a closed period only. */
  lemma WriteOffFailsOnlyOnClosedPeriod(db: Db, student: int, charges: seq<nat>, k: nat, now: nat, actor: int)
    requires Integrity(db) && Distinct(charges) && Droppable(db, student, charges) && k < |charges|
    requires WritesOff(db, charges[k])
    requires !IsClosed(db, PeriodKey(now))
    ensures var before := GrantSteps(db, charges, k, now, actor);
      && WritesOff(before, charges[k]) && Remaining(before, charges[k]) <= MAX_CENTS
      && DiscountError(before, student, charges[k], Remaining(before, charges[k]), now).None?
  {
    var before, c := GrantSteps(db, charges, k, now, actor), charges[k];
    GrantStepsEffect(db, student, charges, k, now, actor, student);
    assert c !in charges[..k];
    assert ChargeRowOk(before, c) && ChargeBalanced(before, c);
    assert WritesOff(before, c) == WritesOff(db, c);
    WriteOffStep(before, c, now, actor, student);
  }

  /** Every change of mode keeps the books and the schedule in order. */
  lemma {:induction false} ModeChangeEffect(db: Db, enrollment: nat, target: BillingMode, paymentDay: Option<nat>,
                                            today: int, now: nat, actor: int, other: int)
    requires Integrity(db) && Scheduled(db) && ModeError(db, enrollment, target, today, now).None?
    ensures var next := AfterModeChange(db, enrollment, target, paymentDay, today, now, actor);
      var cs := FutureCharges(db, enrollment, today);
      var own := other == db.enrollments[enrollment].student;
      && Integrity(next) && Scheduled(next)
      && next.enrollments == db.enrollments[enrollment := db.enrollments[enrollment].(mode := target)]
      && Wallet(next, other) == Wallet(db, other)
      && Outstanding(next, other) == Outstanding(db, other) + (
           if !own then 0
           else if target == Grant then -(Sum(cs, CancelledIn(db)) + Sum(cs, WrittenOffIn(db)))
           else
             PlanTotal(Missing(WithMode(db, enrollment, Paid), enrollment, today,
               PlanOf(WithMode(db, enrollment, Paid), enrollment, paymentDay)),
                          db.enrollments[enrollment].price))
  {
    hide Starts, CourseOk, PlanOf, Missing, AfterConvert;
    if target == Grant {
      var converted := AfterConvert(db, enrollment, today, now, actor);
      ConvertEffect(db, enrollment, today, now, actor, other);
      ConvertKeepsEnrollments(db, enrollment, today, now, actor);
      StatusIsApart(converted, enrollment, converted.enrollments[enrollment].status, Grant, other);
      ScheduleKept(converted, WithMode(converted, enrollment, Grant));
    } else {
      var paid := WithMode(db, enrollment, Paid);
      StatusIsApart(db, enrollment, db.enrollments[enrollment].status, Paid, other);
      ScheduleKept(db, paid);
      StartsKept(db, paid, enrollment);
      ResumeEffect(paid, enrollment, paymentDay, today, other);
    }
  }

  lemma ConvertKeepsEnrollments(db: Db, enrollment: nat, today: int, now: nat, actor: int)
    ensures var next := AfterConvert(db, enrollment, today, now, actor);
      next.enrollments == db.enrollments && next.courses == db.courses && next.periods == db.periods &&
        next.targets == db.targets
  {
    var cs := FutureCharges(db, enrollment, today);
    StepsKeepEnrollments(db, cs, |cs|, now, actor);
  }

  lemma {:induction false} StepsKeepEnrollments(db: Db, charges: seq<nat>, k: nat, now: nat, actor: int)
    requires k <= |charges|
    ensures var next := GrantSteps(db, charges, k, now, actor);
      next.enrollments == db.enrollments && next.courses == db.courses && next.periods == db.periods &&
        next.targets == db.targets
  {
    if 0 < k { StepsKeepEnrollments(db, charges, k - 1, now, actor); }
  }

  // ---------------------------------------------------------------------------
  // The conversion loop
  // ---------------------------------------------------------------------------

  /** `BillingModeChangeOutcome`. */
  datatype Outcome = Outcome(cancelledMonths: nat, cancelledAmount: int, writtenOff: int, generatedMonths: nat)

  /** `allocated_by_charge`: the active allocations of a list, totalled by charge. */
  function AppliedOf(rows: seq<Allocation>, ids: seq<nat>, c: nat): int {
    if ids == [] then 0
    else
      var n := |ids| - 1;
      AppliedOf(rows, ids[..n], c) + (if ids[n] < |rows| && rows[ids[n]].charge == c then rows[ids[n]].amount else 0)
  }

  lemma {:induction false} AppliedOfPrefix(rows: seq<Allocation>, more: seq<Allocation>, ids: seq<nat>, c: nat)
    requires forall k :: 0 <= k < |ids| ==> ids[k] < |rows|
    ensures AppliedOf(rows + more, ids, c) == AppliedOf(rows, ids, c)
  {
    if ids != [] { AppliedOfPrefix(rows, more, ids[..|ids| - 1], c); }
  }

  /** What the calculation lists for a cancelled charge is all that is applied to it. */
  lemma {:induction false} AppliedIsActive(rows: seq<Allocation>, charges: seq<nat>, c: nat)
    requires c in charges
    ensures AppliedOf(rows, AppliedTo(rows, charges), c) == Sum(rows, OnCharge(c))
  {
    if rows != [] {
      var n := |rows| - 1;
      AppliedIsActive(rows[..n], charges, c);
      var front := AppliedTo(rows[..n], charges);
      AppliedToMembers(rows[..n], charges);
      forall k | 0 <= k < |front| ensures front[k] < n { assert front[k] in front; }
      AppliedOfPrefix(rows[..n], [rows[n]], front, c);
      assert rows == rows[..n] + [rows[n]];
      assert AppliedOf(rows, front, c) == AppliedOf(rows[..n], front, c);
      if rows[n].reversedBy.None? && rows[n].charge in charges { assert (front + [n])[..|front|] == front; }
      else { assert AppliedTo(rows, charges) == front; }
      SumAppend(rows[..n], rows[n], OnCharge(c));
    }
  }

  lemma {:induction false} StepsPrefix(db: Db, charges: seq<nat>, k: nat, n: nat, now: nat, actor: int)
    requires k <= n <= |charges|
    ensures GrantSteps(db, charges[..n], k, now, actor) == GrantSteps(db, charges, k, now, actor)
  {
    hide GrantStep;
    if 0 < k { StepsPrefix(db, charges, k - 1, n, now, actor); }
  }

  /** Half way through a conversion the books are in order, and the months still ahead
      are as they were. */
  lemma HalfConverted(db: Db, student: int, charges: seq<nat>, k: nat, now: nat, actor: int)
    requires Integrity(db) && Scheduled(db) && Distinct(charges) && Droppable(db, student, charges) && k < |charges|
    requires IsClosed(db, PeriodKey(now)) ==> forall j :: 0 <= j < k ==> !WritesOff(db, charges[j])
    ensures var next, c := GrantSteps(db, charges, k, now, actor), charges[k];
      && Integrity(next) && RowsOk(next) && Scheduled(next) && |next.charges| == |db.charges| && c < |db.charges|
      && next.charges[c] == db.charges[c] && ActiveOn(next, c) == ActiveOn(db, c) && next.periods == db.periods
      && db.charges[c].student == student && 0 < db.charges[c].amount <= MAX_CENTS && db.charges[c].id == c
      && 0 <= ActiveOn(db, c) && db.charges[c].status != Cancelled
      && (db.charges[c].status == Open <==> 0 < Remaining(db, c))
      && GrantSteps(db, charges, k + 1, now, actor) == GrantStep(next, c, now, actor)
  {
    hide GrantStep, Starts, Wallet, Outstanding, ActiveOn, Granted, WritesExactly;
    var c := charges[k];
    assert ChargeRowOk(db, c) && ChargeBalanced(db, c);
    StepsPrefix(db, charges, k, k, now, actor);
    GrantStepsEffect(db, student, charges[..k], k, now, actor, student);
    var next := GrantSteps(db, charges, k, now, actor);
    assert charges[..k][..k] == charges[..k];
    assert c !in charges[..k];
    ScheduleKept(db, next);
  }

  /** One step of the conversion, as the branch of the loop that takes it. */
  lemma GrantBranch(db: Db, c: nat, now: nat, actor: int)
    requires RowsOk(db) && c < |db.charges|
    ensures ActiveOn(db, c) <= 0 ==> GrantStep(db, c, now, actor) == AfterCancel(db, [c])
    ensures ActiveOn(db, c) <= 0 ==>
      AfterCancel(db, [c]) == db.(charges := db.charges[c := db.charges[c].(status := Cancelled)])
    ensures ActiveOn(db, c) > 0 && 0 < Remaining(db, c) <= MAX_CENTS ==>
      GrantStep(db, c, now, actor) == AfterDiscount(db, db.charges[c].student, c, Remaining(db, c), now, actor)
    ensures ActiveOn(db, c) > 0 && Remaining(db, c) <= 0 ==> GrantStep(db, c, now, actor) == db
  {
    hide AfterDiscount, ActiveOn;
    forall i | 0 <= i < |db.charges|
      ensures CancelledRow(db.charges[i], [c]) == if i == c then db.charges[c].(status := Cancelled) else db.charges[i]
    {
      assert ChargeRowOk(db, i);
    }
  }

  /** Counts the months conversion cancels. */
  function MonthIn(db: Db): nat -> int {
    (c: nat) => if c < |db.charges| && ActiveOn(db, c) <= 0 then 1 else 0
  }

  lemma ConvertSumsStep(db: Db, charges: seq<nat>, k: nat)
    requires k < |charges|
    ensures Sum(charges[..k + 1], CancelledIn(db)) == Sum(charges[..k], CancelledIn(db)) + CancelledIn(db)(charges[k])
    ensures Sum(charges[..k + 1], WrittenOffIn(db))
      == Sum(charges[..k], WrittenOffIn(db)) + WrittenOffIn(db)(charges[k])
    ensures Sum(charges[..k + 1], MonthIn(db)) == Sum(charges[..k], MonthIn(db)) + MonthIn(db)(charges[k])
  {
    assert charges[..k + 1] == charges[..k] + [charges[k]];
    SumAppend<nat>(charges[..k], charges[k], CancelledIn(db));
    SumAppend<nat>(charges[..k], charges[k], WrittenOffIn(db));
    SumAppend<nat>(charges[..k], charges[k], MonthIn(db));
  }

  /** Why a write-off inside a conversion can be turned down. */
  lemma WriteOffRefused(db: Db, student: int, c: nat, amount: Money, now: nat)
    requires c < |db.charges| && db.charges[c].student == student
    requires db.charges[c].status == Open && amount == Remaining(db, c)
    ensures DiscountError(db, student, c, amount, now)
      == if IsClosed(db, PeriodKey(now)) then Some(ClosedPeriod) else None
  {
  }

  lemma FirstWriteOffRefused(db: Db, enrollment: nat, today: int, now: nat, k: nat)
    requires !AnyUnmatched(db, enrollment) && IsClosed(db, PeriodKey(now))
    requires k < |FutureCharges(db, enrollment, today)| && WritesOff(db, FutureCharges(db, enrollment, today)[k])
    ensures ConvertError(db, enrollment, today, now) == Some(ClosedPeriod)
  {
  }

  lemma ConversionAccepted(db: Db, enrollment: nat, today: int, now: nat)
    requires !AnyUnmatched(db, enrollment)
    requires IsClosed(db, PeriodKey(now)) ==>
      forall j ::
        0 <= j < |FutureCharges(db, enrollment, today)| ==> !WritesOff(db, FutureCharges(db, enrollment, today)[j])
    ensures ConvertError(db, enrollment, today, now) == None
  {
  }

  lemma NoSteps(db: Db, charges: seq<nat>, now: nat, actor: int)
    ensures GrantSteps(db, charges, 0, now, actor) == db
    ensures Sum(charges[..0], MonthIn(db)) == Sum(charges[..0], CancelledIn(db)) == Sum(charges[..0], WrittenOffIn(db))
      == 0
  {
  }

  lemma CoveredIsActive(db: Db, charges: seq<nat>, c: nat)
    requires c in charges && c < |db.charges|
    ensures AppliedOf(db.allocations, AppliedTo(db.allocations, charges), c) == ActiveOn(db, c)
    ensures ActiveOn(db, c) > 0 ==> (WritesOff(db, c) <==> db.charges[c].amount > ActiveOn(db, c))
    ensures WritesOff(db, c) ==> 0 < ActiveOn(db, c)
    ensures WrittenOffIn(db)(c) == if WritesOff(db, c) then Remaining(db, c) else 0
    ensures CancelledIn(db)(c) == if ActiveOn(db, c) <= 0 then db.charges[c].amount else 0
    ensures MonthIn(db)(c) == if ActiveOn(db, c) <= 0 then 1 else 0
  {
    AppliedIsActive(db.allocations, charges, c);
  }
}
