/**
 `withdrawal_calculation`, `reverse_withdrawal_allocations` and `withdraw_student`: the
 course months that start on or after a day are cancelled, and what was applied to
 them is released.
 */
module Withdrawals {
  import opened Arithmetic
  import opened Wrappers
  import opened Sums
  import opened Calendar
  import opened Schedule
  import opened Tables
  import opened Balances
  import opened Posting
  import opened Queries
  import opened Concessions
  import Ordering

  predicate EnrollmentReady(db: Db, enrollment: nat) {
    && enrollment < |db.enrollments| && EnrollmentRowOk(db, enrollment)
    && CourseOk(db.courses[db.enrollments[enrollment].course])
  }

  /** The billed course months of an enrollment. */
  function Starts(db: Db, enrollment: nat): seq<Date> {
    if EnrollmentReady(db, enrollment) then
      var course := db.courses[db.enrollments[enrollment].course];
      BilledStarts(course.start, DayNumber(course.end), LocalDay(db.enrollments[enrollment].enrolledAt))
    else []
  }

  predicate LiveTuition(db: Db, enrollment: nat, c: nat) {
    c < |db.charges| && db.charges[c].enrollment == enrollment
    && db.charges[c].kind == Tuition && db.charges[c].status != Cancelled
  }

  /** The student enrolled before the course ends, so there is a plan. */
  predicate InTime(db: Db, enrollment: nat) {
    && EnrollmentReady(db, enrollment)
    && LocalDay(db.enrollments[enrollment].enrolledAt) < DayNumber(db.courses[db.enrollments[enrollment].course].end)
  }

  /** Charge `c` bills a course month of the enrollment at its price. */
  predicate BillsMonth(db: Db, enrollment: nat, c: nat)
    requires enrollment < |db.enrollments| && c < |db.charges|
  {
    && 1 <= db.charges[c].sequenceNo <= |Starts(db, enrollment)|
    && db.charges[c].amount == db.enrollments[enrollment].price && InTime(db, enrollment)
  }

  /** Every live tuition charge bills a month of its enrollment, and no month has two. */
  ghost predicate Scheduled(db: Db) {
    && (forall enrollment, c | 0 <= enrollment < |db.enrollments| && 0 <= c < |db.charges| &&
      LiveTuition(db, enrollment, c) ::
          BillsMonth(db, enrollment, c))
    && (forall enrollment: nat, c, d | 0 <= c < d < |db.charges| && LiveTuition(db, enrollment, c) &&
      LiveTuition(db, enrollment, d) ::
          db.charges[c].sequenceNo != db.charges[d].sequenceNo)
  }

  /** Nothing a billed month depends on has changed. */
  ghost predicate SameTerms(db: Db, next: Db) {
    && next.courses == db.courses && |next.enrollments| == |db.enrollments|
    && forall i :: 0 <= i < |db.enrollments| ==>
         next.enrollments[i] == db.enrollments[i].(status := next.enrollments[i].status,
           mode := next.enrollments[i].mode)
  }

  lemma StartsKept(db: Db, next: Db, enrollment: nat)
    requires SameTerms(db, next)
    ensures Starts(next, enrollment) == Starts(db, enrollment)
    ensures EnrollmentReady(next, enrollment) == EnrollmentReady(db, enrollment)
    ensures InTime(next, enrollment) == InTime(db, enrollment)
  {
    hide CourseOk, BilledStarts;
    if enrollment < |db.enrollments| { assert EnrollmentRowOk(next, enrollment) == EnrollmentRowOk(db, enrollment); }
  }

  /** Changing the status of charges, without reviving one, keeps the schedule. */
  lemma {:induction false} ScheduleKept(db: Db, next: Db)
    requires Scheduled(db) && SameTerms(db, next) && |next.charges| == |db.charges|
    requires forall c :: 0 <= c < |db.charges| ==>
      && next.charges[c] == db.charges[c].(status := next.charges[c].status)
      && (next.charges[c].status != Cancelled ==> db.charges[c].status != Cancelled)
    ensures Scheduled(next)
  {
    hide Starts;
    forall e, c | 0 <= e < |next.enrollments| && 0 <= c < |next.charges| && LiveTuition(next, e, c)
      ensures BillsMonth(next, e, c)
    {
      assert LiveTuition(db, e, c) && BillsMonth(db, e, c);
      StartsKept(db, next, e);
    }
    forall e: nat, c, d | 0 <= c < d < |next.charges| && LiveTuition(next, e, c) && LiveTuition(next, e, d)
      ensures next.charges[c].sequenceNo != next.charges[d].sequenceNo
    {
      assert LiveTuition(db, e, c) && LiveTuition(db, e, d);
    }
  }

  /** A tuition charge whose sequence number is no course month: the source raises. */
  predicate Unmatched(db: Db, enrollment: nat, c: nat)
  {
    LiveTuition(db, enrollment, c) && !(1 <= db.charges[c].sequenceNo <= |Starts(db, enrollment)|)
  }

  /** The charge's own course month starts on or after `day`. */
  predicate StartsFrom(db: Db, enrollment: nat, day: int, c: nat)
  {
    LiveTuition(db, enrollment, c) && 1 <= db.charges[c].sequenceNo <= |Starts(db, enrollment)|
    && DayNumber(Starts(db, enrollment)[db.charges[c].sequenceNo - 1]) >= day
  }

  function IsFuture(db: Db, enrollment: nat, day: int): nat -> bool {
    (c: nat) => EnrollmentReady(db, enrollment) && StartsFrom(db, enrollment, day, c)
  }

  function IdKey(): nat -> Ordering.Key { (c: nat) => Ordering.Key(0, 0, c) }

  /** The charges a withdrawal on `day` cancels. */
  function FutureCharges(db: Db, enrollment: nat, day: int): seq<nat> {
    Ordering.OrderBy(|db.charges|, IsFuture(db, enrollment, day), IdKey())
  }

  lemma FutureChargesSelected(db: Db, enrollment: nat, day: int)
    ensures Distinct(FutureCharges(db, enrollment, day))
    ensures forall c: nat :: c in FutureCharges(db, enrollment, day) <==>
      EnrollmentReady(db, enrollment) && StartsFrom(db, enrollment, day, c)
  {
    Ordering.OrderBySelects(|db.charges|, IsFuture(db, enrollment, day), IdKey());
    forall c: nat ensures IsFuture(db, enrollment, day)(c) <==>
      EnrollmentReady(db, enrollment) && StartsFrom(db, enrollment, day, c) {}
  }

  // ---------------------------------------------------------------------------
  // Releasing and cancelling
  // ---------------------------------------------------------------------------

  /** What is applied to the charges of a list. */
  function Released(db: Db, charges: seq<nat>): int {
    Sum(db.allocations, OnAnyOf(charges))
  }

  function ReleasedRow(a: Allocation, charges: seq<nat>, reversing: nat): Allocation {
    if a.reversedBy.None? && a.charge in charges then a.(reversedBy := Some(reversing)) else a
  }

  function ReleasedRows(rows: seq<Allocation>, charges: seq<nat>, reversing: nat): seq<Allocation> {
    seq(|rows|, i requires 0 <= i < |rows| => ReleasedRow(rows[i], charges, reversing))
  }

  function WithdrawalEntry(db: Db, student: int, amount: int, now: nat, actor: int): Entry {
    Entry(|db.entries|, student, WithdrawalReversal, amount, now, actor, None, false)
  }

  predicate AnyReleased(db: Db, charges: seq<nat>) {
    exists i :: 0 <= i < |db.allocations| && db.allocations[i].reversedBy.None? && db.allocations[i].charge in charges
  }

  /** `reverse_withdrawal_allocations`: one reversing entry for all of them, if there are any. */
  function AfterRelease(db: Db, student: int, charges: seq<nat>, now: nat, actor: int): Db {
    if !AnyReleased(db, charges) then db
    else db.(
      entries := db.entries + [WithdrawalEntry(db, student, Released(db, charges), now, actor)],
      allocations := ReleasedRows(db.allocations, charges, |db.entries|))
  }

  function CancelledRow(c: Charge, charges: seq<nat>): Charge {
    if c.id in charges then c.(status := Cancelled) else c
  }

  function AfterCancel(db: Db, charges: seq<nat>): Db {
    db.(charges := seq(|db.charges|, i requires 0 <= i < |db.charges| => CancelledRow(db.charges[i], charges)))
  }

  function AfterDrop(db: Db, student: int, charges: seq<nat>, now: nat, actor: int): Db {
    AfterCancel(AfterRelease(db, student, charges, now, actor), charges)
  }

  /** The charges of a list belong to one student and are not cancelled. */
  ghost predicate Droppable(db: Db, student: int, charges: seq<nat>) {
    forall j :: 0 <= j < |charges| ==>
      charges[j] < |db.charges| && db.charges[charges[j]].student == student &&
        db.charges[charges[j]].status != Cancelled
  }

  lemma ReleasedPositive(db: Db, charges: seq<nat>)
    requires RowsOk(db)
    ensures AnyReleased(db, charges) <==> 0 < Released(db, charges)
    ensures 0 <= Released(db, charges)
  {
    forall i | 0 <= i < |db.allocations|
      ensures 0 <= OnAnyOf(charges)(db.allocations[i])
    {
      assert AllocationRowOk(db, i);
    }
    SumNonNegative(db.allocations, OnAnyOf(charges));
    if AnyReleased(db, charges) {
      var i :| 0 <= i < |db.allocations| && db.allocations[i].reversedBy.None? && db.allocations[i].charge in charges;
      assert AllocationRowOk(db, i);
      SumMember(db.allocations, i, OnAnyOf(charges));
    } else {
      SumZero(db.allocations, OnAnyOf(charges));
    }
  }

  lemma DropRows(db: Db, student: int, charges: seq<nat>, now: nat, actor: int)
    requires Integrity(db)
    ensures RowsOk(AfterDrop(db, student, charges, now, actor))
  {
    var next := AfterDrop(db, student, charges, now, actor);
    ReleasedPositive(db, charges);
    forall i | 0 <= i < |next.charges| ensures ChargeRowOk(next, i) { assert ChargeRowOk(db, i); }
    forall i | 0 <= i < |next.entries| ensures EntryRowOk(next, i) { if i < |db.entries| { assert EntryRowOk(db, i); } }
    forall i | 0 <= i < |next.enrollments| ensures EnrollmentRowOk(next, i) { assert EnrollmentRowOk(db, i); }
    forall i | 0 <= i < |next.allocations| ensures AllocationRowOk(next, i) { assert AllocationRowOk(db, i); }
  }

  /** A dropped charge keeps nothing, every other charge keeps what it had. */
  lemma DropCharge(db: Db, student: int, charges: seq<nat>, now: nat, actor: int, c: nat)
    requires Integrity(db)
    ensures ActiveOn(AfterDrop(db, student, charges, now, actor), c) == if c in charges then 0 else ActiveOn(db, c)
  {
    var next := AfterDrop(db, student, charges, now, actor);
    if c in charges { SumZero(next.allocations, OnCharge(c)); }
    else { SumMapped(db.allocations, next.allocations, OnCharge(c), OnCharge(c)); }
  }

  /** What the release gives back to entry `k`: nothing, when `k` is an adjustment. */
  function GivenBack(entries: seq<Entry>, charges: seq<nat>, k: nat): Allocation -> int {
    (a: Allocation) => if a.entry == k && a.reversedBy.None? && a.charge in charges &&
      !KindIs(entries, k, Adjustment) then a.amount else 0
  }

  lemma DropEntry(db: Db, student: int, charges: seq<nat>, now: nat, actor: int, k: nat)
    requires Integrity(db) && k < |db.entries|
    ensures var next := AfterDrop(db, student, charges, now, actor);
      && Consumed(next, k) == Consumed(db, k) - Sum(db.allocations, GivenBack(db.entries, charges, k))
      && 0 <= Sum(db.allocations, GivenBack(db.entries, charges, k))
      && Applied(next, k) <= Applied(db, k) && 0 <= Applied(next, k)
      && Refunded(next, k) == Refunded(db, k) && CashedOut(next, k) == CashedOut(db, k)
      && (Voided(next.entries, k) <==> Voided(db.entries, k))
  {
    hide Sum, Released, CancelledRow;
    var next := AfterDrop(db, student, charges, now, actor);
    var lost := (a: Allocation) => if a.entry == k && a.reversedBy.None? && a.charge in charges then a.amount else 0;
    forall i | 0 <= i < |db.allocations|
      ensures ConsumedOf(next.entries, k)(next.allocations[i])
        == ConsumedOf(db.entries, k)(db.allocations[i]) - GivenBack(db.entries, charges, k)(db.allocations[i])
      ensures 0 <= GivenBack(db.entries, charges, k)(db.allocations[i])
      ensures OfEntry(k)(next.allocations[i]) == OfEntry(k)(db.allocations[i]) - lost(db.allocations[i])
      ensures 0 <= lost(db.allocations[i])
      ensures 0 <= OfEntry(k)(next.allocations[i])
    {
      var a, b := db.allocations[i], next.allocations[i];
      assert AllocationRowOk(db, i);
      assert AnyReleased(db, charges) || !(a.reversedBy.None? && a.charge in charges);
      var before, after := Consumes(db.entries, a), Consumes(next.entries, b);
      assert KindIs(db.entries, k, Adjustment) <==> db.entries[k].kind == Adjustment;
    }
    SumLowered(db.allocations, next.allocations, ConsumedOf(db.entries, k), ConsumedOf(next.entries, k),
      GivenBack(db.entries, charges, k));
    SumNonNegative(db.allocations, GivenBack(db.entries, charges, k));
    SumLowered(db.allocations, next.allocations, OfEntry(k), OfEntry(k), lost);
    SumNonNegative(db.allocations, lost);
    SumNonNegative(next.allocations, OfEntry(k));
    if AnyReleased(db, charges) {
      var e := WithdrawalEntry(db, student, Released(db, charges), now, actor);
      SumAppend(db.entries, e, RefundOf(k));
      SumAppend(db.entries, e, CashOutOf(k));
      VoidedAppend(db.entries, e, k);
    }
  }

  lemma DropKeepsIntegrity(db: Db, student: int, charges: seq<nat>, now: nat, actor: int)
    requires Integrity(db)
    ensures Integrity(AfterDrop(db, student, charges, now, actor))
  {
    var next := AfterDrop(db, student, charges, now, actor);
    DropRows(db, student, charges, now, actor);
    forall c | 0 <= c < |next.charges| ensures ChargeBalanced(next, c) {
      assert ChargeBalanced(db, c) && ChargeRowOk(db, c);
      DropCharge(db, student, charges, now, actor, c);
    }
    forall k | 0 <= k < |next.entries| ensures EntryCovered(next, k) {
      if k < |db.entries| {
        assert EntryCovered(db, k);
        DropEntry(db, student, charges, now, actor, k);
      } else {
        NewReversalUnused(db, student, charges, now, actor);
      }
    }
  }

  lemma NewReversalUnused(db: Db, student: int, charges: seq<nat>, now: nat, actor: int)
    requires Integrity(db) && AnyReleased(db, charges)
    ensures EntryCovered(AfterDrop(db, student, charges, now, actor), |db.entries|)
  {
    var next, k := AfterDrop(db, student, charges, now, actor), |db.entries|;
    var e := WithdrawalEntry(db, student, Released(db, charges), now, actor);
    ReleasedPositive(db, charges);
    Untouched(db, k);
    VoidedAppend(db.entries, e, k);
    SumAppend(db.entries, e, RefundOf(k));
    SumAppend(db.entries, e, CashOutOf(k));
    forall i | 0 <= i < |next.allocations|
      ensures ConsumedOf(next.entries, k)(next.allocations[i]) == OfEntry(k)(next.allocations[i]) == 0
    {
      assert AllocationRowOk(db, i);
    }
    SumZero(next.allocations, ConsumedOf(next.entries, k));
    SumZero(next.allocations, OfEntry(k));
  }

  // ---------------------------------------------------------------------------
  // Balances
  // ---------------------------------------------------------------------------

  /** The released part that payments had funded. */
  function PaidBack(entries: seq<Entry>, charges: seq<nat>): Allocation -> int {
    (a: Allocation) => if KindIs(entries, a.entry, Payment) && a.reversedBy.None? && a.charge in charges then a.amount
      else 0
  }

  function AmountIn(charges: seq<nat>): Charge -> int {
    (c: Charge) => if c.id in charges then c.amount else 0
  }

  /** The debt falls by what the dropped months still needed. */
  lemma DropOutstanding(db: Db, student: int, charges: seq<nat>, now: nat, actor: int, other: int)
    requires Integrity(db) && Droppable(db, student, charges)
    ensures Outstanding(AfterDrop(db, student, charges, now, actor), other)
         == Outstanding(db, other)
           - (if other == student then Sum(db.charges, AmountIn(charges)) - Released(db, charges) else 0)
  {
    hide Sum, Balanced;
    var next := AfterDrop(db, student, charges, now, actor);
    var dropped := (c: Charge) => if other == student && c.id in charges then c.amount else 0;
    forall i | 0 <= i < |db.charges|
      ensures BilledFor(other)(next.charges[i]) == BilledFor(other)(db.charges[i]) - dropped(db.charges[i])
    {
      assert ChargeRowOk(db, i);
      if i in charges { var j :| 0 <= j < |charges| && charges[j] == i; }
    }
    SumLowered(db.charges, next.charges, BilledFor(other), BilledFor(other), dropped);
    var released := (a: Allocation) =>
      if other == student && a.reversedBy.None? && a.charge in charges then a.amount else 0;
    forall i | 0 <= i < |db.allocations|
      ensures SettledFor(next.charges, other)(next.allocations[i])
        == SettledFor(db.charges, other)(db.allocations[i]) - released(db.allocations[i])
    {
      assert AllocationRowOk(db, i) && ChargeRowOk(db, db.allocations[i].charge);
      if db.allocations[i].charge in charges { var j :| 0 <= j < |charges| && charges[j] == db.allocations[i].charge; }
    }
    SumLowered(db.allocations, next.allocations, SettledFor(db.charges, other), SettledFor(next.charges, other),
      released);
    if other == student {
      SumAgree(db.charges, dropped, AmountIn(charges));
      SumAgree(db.allocations, released, OnAnyOf(charges));
    } else {
      SumZero(db.charges, dropped);
      SumZero(db.allocations, released);
    }
  }

  /** The credit a student has received is not touched. */
  lemma DropCredit(db: Db, student: int, charges: seq<nat>, now: nat, actor: int, other: int)
    requires Integrity(db)
    ensures var next := AfterDrop(db, student, charges, now, actor);
      && Sum(next.entries, CreditFor(next.entries, other)) == Sum(db.entries, CreditFor(db.entries, other))
      && Sum(next.entries, CashOutFor(other)) == Sum(db.entries, CashOutFor(other))
  {
    var next := AfterDrop(db, student, charges, now, actor);
    DropVoided(db, student, charges, now, actor);
    forall i | 0 <= i < |db.entries|
      ensures CreditFor(next.entries, other)(db.entries[i]) == CreditFor(db.entries, other)(db.entries[i])
    {
      assert Voided(next.entries, db.entries[i].id) <==> Voided(db.entries, db.entries[i].id);
    }
    SumAgree(db.entries, CreditFor(next.entries, other), CreditFor(db.entries, other));
    if AnyReleased(db, charges) {
      var e := WithdrawalEntry(db, student, Released(db, charges), now, actor);
      SumAppend(db.entries, e, CreditFor(next.entries, other));
      SumAppend(db.entries, e, CashOutFor(other));
      assert !IsCredit(e);
    }
  }

  /** `PaidBack`, counted for the student the charges belong to. */
  function PaidBackFor(entries: seq<Entry>, charges: seq<nat>, mine: bool): Allocation -> int {
    (a: Allocation) => if mine && KindIs(entries, a.entry, Payment) && a.reversedBy.None? &&
      a.charge in charges then a.amount else 0
  }

  lemma DropSpentTotal(db: Db, student: int, charges: seq<nat>, now: nat, actor: int, other: int)
    requires Integrity(db) && Droppable(db, student, charges)
    ensures var next := AfterDrop(db, student, charges, now, actor);
      Sum(next.allocations, SpentFor(next.entries, other)) == Sum(db.allocations, SpentFor(db.entries, other))
        - (if other == student then Sum(db.allocations, PaidBack(db.entries, charges)) else 0)
  {
    var next := AfterDrop(db, student, charges, now, actor);
    var mine := other == student;
    var back := PaidBackFor(db.entries, charges, mine);
    forall i | 0 <= i < |db.allocations|
      ensures SpentFor(next.entries, other)(next.allocations[i])
        == SpentFor(db.entries, other)(db.allocations[i]) - back(db.allocations[i])
      ensures back(db.allocations[i]) == if mine then PaidBack(db.entries, charges)(db.allocations[i]) else 0
    {
      DropSpent(db, student, charges, now, actor, other, i);
      var paid := KindIs(db.entries, db.allocations[i].entry, Payment);
    }
    SumLowered(db.allocations, next.allocations, SpentFor(db.entries, other), SpentFor(next.entries, other), back);
    if mine { SumAgree(db.allocations, back, PaidBack(db.entries, charges)); } else { SumZero(db.allocations, back); }
  }

  /** The wallet grows by exactly the payment-funded part; what discounts and
      adjustments had funded is not given back. */
  lemma DropWallet(db: Db, student: int, charges: seq<nat>, now: nat, actor: int, other: int)
    requires Integrity(db) && Droppable(db, student, charges)
    ensures Wallet(AfterDrop(db, student, charges, now, actor), other)
         == Wallet(db, other) + (if other == student then Sum(db.allocations, PaidBack(db.entries, charges)) else 0)
  {
    DropKeepsIntegrity(db, student, charges, now, actor);
    WalletIsSumOfAvailable(db, other);
    WalletIsSumOfAvailable(AfterDrop(db, student, charges, now, actor), other);
    DropCredit(db, student, charges, now, actor, other);
    DropSpentTotal(db, student, charges, now, actor, other);
  }

  lemma DropVoided(db: Db, student: int, charges: seq<nat>, now: nat, actor: int)
    ensures forall k: nat :: Voided(AfterDrop(db, student, charges, now, actor).entries, k) <==> Voided(db.entries, k)
  {
    forall k: nat ensures Voided(AfterDrop(db, student, charges, now, actor).entries, k) <==> Voided(db.entries, k) {
      if AnyReleased(db, charges) {
        VoidedAppend(db.entries, WithdrawalEntry(db, student, Released(db, charges), now, actor), k);
      }
    }
  }

  /** How one allocation's use of the wallet changes. */
  lemma DropSpent(db: Db, student: int, charges: seq<nat>, now: nat, actor: int, other: int, i: nat)
    requires Integrity(db) && Droppable(db, student, charges) && i < |db.allocations|
    ensures var next := AfterDrop(db, student, charges, now, actor);
      var a := db.allocations[i];
      SpentFor(next.entries, other)(next.allocations[i]) == SpentFor(db.entries, other)(a)
        - (if other == student && KindIs(db.entries, a.entry, Payment) && a.reversedBy.None? &&
          a.charge in charges then a.amount else 0)
  {
    var next := AfterDrop(db, student, charges, now, actor);
    var a, b := db.allocations[i], next.allocations[i];
    assert AllocationRowOk(db, i);
    DropVoided(db, student, charges, now, actor);
    if a.reversedBy.None? {
      ActiveIsFunded(db, i);
      if a.charge in charges { assert AnyReleased(db, charges); var j :| 0 <= j < |charges| && charges[j] == a.charge; }
    }
    assert LiveCredit(next.entries, other, a.entry) <==> LiveCredit(db.entries, other, a.entry);
    var before, after := Consumes(db.entries, a), Consumes(next.entries, b);
  }

  /** An active allocation is of an entry that is not voided. */
  lemma ActiveIsFunded(db: Db, i: nat)
    requires Integrity(db) && i < |db.allocations| && db.allocations[i].reversedBy.None?
    ensures db.allocations[i].entry < |db.entries| && !Voided(db.entries, db.allocations[i].entry)
  {
    var e := db.allocations[i].entry;
    assert AllocationRowOk(db, i);
    forall k | 0 <= k < |db.allocations| ensures 0 <= OfEntry(e)(db.allocations[k]) { assert AllocationRowOk(db, k); }
    SumMember(db.allocations, i, OfEntry(e));
    assert EntryCovered(db, e);
  }

  // ---------------------------------------------------------------------------
  // Withdrawing a student
  // ---------------------------------------------------------------------------

  function WithEnrollment(db: Db, enrollment: nat, e: Enrollment): Db
    requires enrollment < |db.enrollments|
  {
    db.(enrollments := db.enrollments[enrollment := e])
  }

  /** The status and the billing mode of an enrollment take no part in any balance. */
  lemma StatusIsApart(db: Db, enrollment: nat, status: EnrollmentStatus, mode: BillingMode, student: int)
    requires enrollment < |db.enrollments|
    ensures var next := WithEnrollment(db, enrollment, db.enrollments[enrollment].(status := status, mode := mode));
      && (Integrity(db) ==> Integrity(next))
      && Outstanding(next, student) == Outstanding(db, student) && Wallet(next, student) == Wallet(db, student)
  {
    var next := WithEnrollment(db, enrollment, db.enrollments[enrollment].(status := status, mode := mode));
    if Integrity(db) {
      forall i | 0 <= i < |db.charges|
        ensures ChargeRowOk(next, i) && ChargeBalanced(next, i)
      {
        assert ChargeRowOk(db, i) && ChargeBalanced(db, i);
      }
      forall i | 0 <= i < |db.entries|
        ensures EntryRowOk(next, i) && EntryCovered(next, i)
      {
        assert EntryRowOk(db, i) && EntryCovered(db, i);
      }
      forall i | 0 <= i < |db.allocations| ensures AllocationRowOk(next, i) { assert AllocationRowOk(db, i); }
      forall i | 0 <= i < |db.enrollments| ensures EnrollmentRowOk(next, i) { assert EnrollmentRowOk(db, i); }
    }
  }

  predicate AnyUnmatched(db: Db, enrollment: nat) {
    exists c :: 0 <= c < |db.charges| && Unmatched(db, enrollment, c)
  }

  function WithdrawError(db: Db, enrollment: nat, actor: Option<int>, today: int): Option<LedgerError> {
    if !EnrollmentReady(db, enrollment) then Some(NotFound)
    else if db.enrollments[enrollment].status == Withdrawn then None
    else if AnyUnmatched(db, enrollment) then Some(MonthNotFound)
    else if AnyReleased(db, FutureCharges(db, enrollment, today)) && actor.None? then Some(ActorRequired)
    else None
  }

  function AfterWithdraw(db: Db, enrollment: nat, actor: Option<int>, today: int, now: nat): Db
    requires enrollment < |db.enrollments|
  {
    var e := db.enrollments[enrollment];
    if e.status == Withdrawn then db
    else WithEnrollment(
      AfterDrop(db, e.student, FutureCharges(db, enrollment, today), now, match actor case Some(a) => a case None => 0),
      enrollment, e.(status := Withdrawn))
  }

  lemma FutureChargesDrop(db: Db, enrollment: nat, day: int)
    requires RowsOk(db) && enrollment < |db.enrollments|
    ensures Droppable(db, db.enrollments[enrollment].student, FutureCharges(db, enrollment, day))
  {
    var cs := FutureCharges(db, enrollment, day);
    FutureChargesSelected(db, enrollment, day);
    forall j | 0 <= j < |cs|
      ensures cs[j] < |db.charges| && db.charges[cs[j]].student == db.enrollments[enrollment].student
      ensures db.charges[cs[j]].status != Cancelled
    {
      assert cs[j] in cs;
      assert ChargeRowOk(db, cs[j]);
    }
  }

  /** With a consistent schedule every live tuition charge finds its course month. */
  lemma EveryMonthMatches(db: Db, enrollment: nat)
    requires RowsOk(db) && Scheduled(db) && enrollment < |db.enrollments|
    ensures EnrollmentReady(db, enrollment) && !AnyUnmatched(db, enrollment)
  {
    assert EnrollmentRowOk(db, enrollment);
  }

  /** The part of the release that concessions had funded: it stays spent. */
  function ConcessionBack(entries: seq<Entry>, charges: seq<nat>): Allocation -> int {
    (a: Allocation) => if !KindIs(entries, a.entry, Payment) && a.reversedBy.None? && a.charge in charges then a.amount
      else 0
  }

  /** Only the listed charges are cancelled. */
  lemma CancelledExactly(db: Db, released: Db, charges: seq<nat>)
    requires RowsOk(db) && released.charges == db.charges
    ensures forall c :: 0 <= c < |db.charges| ==>
      AfterCancel(released, charges).charges[c]
        == if c in charges then db.charges[c].(status := Cancelled) else db.charges[c]
  {
    forall c | 0 <= c < |db.charges|
      ensures AfterCancel(released, charges).charges[c]
        == if c in charges then db.charges[c].(status := Cancelled) else db.charges[c]
    {
      assert ChargeRowOk(db, c);
    }
  }

  /** What entry `e` reversed. */
  function ReversedBy(e: nat): Allocation -> int {
    (a: Allocation) => if a.reversedBy == Some(e) then a.amount else 0
  }

  /** The reversing entry of a withdrawal carries exactly the total it reversed, all of it
      from the cancelled charges. */
  lemma ReversalEntryIsExact(db: Db, student: int, charges: seq<nat>, now: nat, actor: int)
    requires RowsOk(db) && AnyReleased(db, charges)
    ensures var next := AfterRelease(db, student, charges, now, actor);
      && |next.entries| == |db.entries| + 1 && next.entries[|db.entries|].student == student
      && next.entries[|db.entries|].kind == WithdrawalReversal
      && next.entries[|db.entries|].amount == Sum(next.allocations, ReversedBy(|db.entries|))
        == Sum(db.allocations, OnAnyOf(charges))
      && forall i ::
        0 <= i < |db.allocations| && next.allocations[i] != db.allocations[i] ==> db.allocations[i].charge in charges
  {
    var next := AfterRelease(db, student, charges, now, actor);
    forall i | 0 <= i < |db.allocations|
      ensures OnAnyOf(charges)(db.allocations[i]) == ReversedBy(|db.entries|)(next.allocations[i])
    {
      assert AllocationRowOk(db, i);
    }
    SumMapped(db.allocations, next.allocations, OnAnyOf(charges), ReversedBy(|db.entries|));
  }

  /** A withdrawal lowers the student's position by what it cancels, less the part of
      that which discounts and adjustments had already covered. */
  lemma WithdrawEffect(db: Db, enrollment: nat, actor: Option<int>, today: int, now: nat, other: int)
    requires Integrity(db) && WithdrawError(db, enrollment, actor, today).None?
    requires db.enrollments[enrollment].status != Withdrawn
    ensures var next, cs := AfterWithdraw(db, enrollment, actor, today, now), FutureCharges(db, enrollment, today);
      var own := other == db.enrollments[enrollment].student;
      && Integrity(next)
      && next.enrollments[enrollment].status == Withdrawn
      && (forall c ::
        0 <= c < |db.charges| ==>
          next.charges[c] == if c in cs then db.charges[c].(status := Cancelled) else db.charges[c])
      && (forall c: nat :: ActiveOn(next, c) == if c in cs then 0 else ActiveOn(db, c))
      && Wallet(next, other) == Wallet(db, other) + (if own then Sum(db.allocations, PaidBack(db.entries, cs)) else 0)
      && Position(next, other) == Position(db, other)
           - (if own then Sum(db.charges, AmountIn(cs)) - Sum(db.allocations, ConcessionBack(db.entries, cs)) else 0)
  {
    var e, cs := db.enrollments[enrollment], FutureCharges(db, enrollment, today);
    var who := match actor case Some(a) => a case None => 0;
    var dropped := AfterDrop(db, e.student, cs, now, who);
    FutureChargesDrop(db, enrollment, today);
    DropKeepsIntegrity(db, e.student, cs, now, who);
    DropOutstanding(db, e.student, cs, now, who, other);
    DropWallet(db, e.student, cs, now, who, other);
    StatusIsApart(dropped, enrollment, Withdrawn, e.mode, other);
    CancelledExactly(db, AfterRelease(db, e.student, cs, now, who), cs);
    forall c: nat
      ensures ActiveOn(AfterWithdraw(db, enrollment, actor, today, now), c) == if c in cs then 0 else ActiveOn(db, c)
    {
      DropCharge(db, e.student, cs, now, who, c);
    }
    forall i | 0 <= i < |db.allocations|
      ensures OnAnyOf(cs)(db.allocations[i])
        == PaidBack(db.entries, cs)(db.allocations[i]) + ConcessionBack(db.entries, cs)(db.allocations[i])
    {
      var paid := KindIs(db.entries, db.allocations[i].entry, Payment);
    }
    SumPlus(db.allocations, PaidBack(db.entries, cs), ConcessionBack(db.entries, cs), OnAnyOf(cs));
  }

  // ---------------------------------------------------------------------------
  // The calculation
  // ---------------------------------------------------------------------------

  /** The active allocations to the charges of a list. */
  function AppliedTo(rows: seq<Allocation>, charges: seq<nat>): seq<nat> {
    if rows == [] then []
    else
      var n := |rows| - 1;
      AppliedTo(rows[..n], charges) + (if rows[n].reversedBy.None? && rows[n].charge in charges then [n] else [])
  }

  lemma {:induction false} AppliedToMembers(rows: seq<Allocation>, charges: seq<nat>)
    ensures forall i: nat :: i in AppliedTo(rows, charges) <==>
      i < |rows| && rows[i].reversedBy.None? && rows[i].charge in charges
  {
    if rows != [] { AppliedToMembers(rows[..|rows| - 1], charges); }
  }

  // ---------------------------------------------------------------------------
  // The preview
  // ---------------------------------------------------------------------------

  function DebtOf(db: Db, enrollment: nat): Charge -> int {
    (c: Charge) => if c.enrollment == enrollment && c.status != Cancelled then c.amount - ActiveOn(db, c.id) else 0
  }

  /** What an enrollment owes on its live charges. */
  function EnrollmentDebt(db: Db, enrollment: nat): int {
    Sum(db.charges, DebtOf(db, enrollment))
  }

  function KeptDebtOf(db: Db, enrollment: nat, cancelled: seq<nat>): Charge -> int {
    (c: Charge) =>
      if c.enrollment == enrollment && c.status != Cancelled && c.id !in cancelled
        then Max(c.amount - ActiveOn(db, c.id), 0) else 0
  }

  /** `still_owed` of `preview_withdrawal`. */
  function StillOwed(db: Db, enrollment: nat, today: int): int {
    Sum(db.charges, KeptDebtOf(db, enrollment, FutureCharges(db, enrollment, today)))
  }

  lemma WithdrawKeepsCount(db: Db, enrollment: nat, actor: Option<int>, today: int, now: nat)
    requires enrollment < |db.enrollments|
    ensures |AfterWithdraw(db, enrollment, actor, today, now).charges| == |db.charges|
  {
  }

  /** What the preview announces is what the enrollment owes after the withdrawal. */
  lemma PreviewIsExact(db: Db, enrollment: nat, actor: Option<int>, today: int, now: nat)
    requires Integrity(db) && WithdrawError(db, enrollment, actor, today).None?
    requires db.enrollments[enrollment].status != Withdrawn
    ensures StillOwed(db, enrollment, today)
      == EnrollmentDebt(AfterWithdraw(db, enrollment, actor, today, now), enrollment)
  {
    hide AfterWithdraw, FutureCharges, ActiveOn, Starts, Wallet, Outstanding;
    var next, cs := AfterWithdraw(db, enrollment, actor, today, now), FutureCharges(db, enrollment, today);
    WithdrawEffect(db, enrollment, actor, today, now, 0);
    WithdrawKeepsCount(db, enrollment, actor, today, now);
    forall i | 0 <= i < |db.charges|
      ensures KeptDebtOf(db, enrollment, cs)(db.charges[i]) == DebtOf(next, enrollment)(next.charges[i])
    {
      assert ChargeRowOk(db, i) && ChargeBalanced(db, i);
      assert ActiveOn(next, i) == if i in cs then 0 else ActiveOn(db, i);
    }
    SumMapped(db.charges, next.charges, KeptDebtOf(db, enrollment, cs), DebtOf(next, enrollment));
  }

  // ---------------------------------------------------------------------------
  // The loops
  // ---------------------------------------------------------------------------

  /** What `withdrawal_calculation` returns. */
  datatype Calculation = Calculation(cancelled: seq<nat>, released: seq<nat>, owed: int, cancelledAmount: int)

  function CalculationOf(db: Db, enrollment: nat, day: int): Calculation {
    var cs := FutureCharges(db, enrollment, day);
    Calculation(cs, AppliedTo(db.allocations, cs), StillOwed(db, enrollment, day), Sum(db.charges, AmountIn(cs)))
  }

  function AmountListed(ids: seq<nat>): Allocation -> int {
    (a: Allocation) => if a.id in ids then a.amount else 0
  }

  lemma FutureStarts(db: Db, enrollment: nat, day: int)
    ensures Ordering.Selects([], 0, IsFuture(db, enrollment, day), IdKey())
  {
  }

  lemma {:induction false} VisitCharge(db: Db, enrollment: nat, day: int, cancelled: seq<nat>, c: nat)
    requires EnrollmentReady(db, enrollment) && c < |db.charges| && !Unmatched(db, enrollment, c)
    requires Ordering.Selects(cancelled, c, IsFuture(db, enrollment, day), IdKey())
    ensures Ordering.Selects(if StartsFrom(db, enrollment, day, c) then cancelled + [c]
      else cancelled, c + 1, IsFuture(db, enrollment, day), IdKey())
  {
    hide EnrollmentReady, StartsFrom;
    Ordering.SelectsNext(cancelled, c, IsFuture(db, enrollment, day), IdKey());
  }

  lemma AllVisited(db: Db, enrollment: nat, day: int, cancelled: seq<nat>)
    requires Ordering.Selects(cancelled, |db.charges|, IsFuture(db, enrollment, day), IdKey())
    ensures cancelled == FutureCharges(db, enrollment, day)
  {
    Ordering.OrderBySelects(|db.charges|, IsFuture(db, enrollment, day), IdKey());
    Ordering.SelectsUnique(cancelled, FutureCharges(db, enrollment, day), |db.charges|, IsFuture(db, enrollment, day),
      IdKey());
  }

  /** The reversal's amount is what was applied to the cancelled charges. */
  lemma ReleasedAmount(db: Db, charges: seq<nat>)
    requires RowsOk(db)
    ensures Sum(db.allocations, AmountListed(AppliedTo(db.allocations, charges))) == Released(db, charges)
    ensures AppliedTo(db.allocations, charges) == [] <==> !AnyReleased(db, charges)
  {
    var ids := AppliedTo(db.allocations, charges);
    AppliedToMembers(db.allocations, charges);
    forall i | 0 <= i < |db.allocations|
      ensures AmountListed(ids)(db.allocations[i]) == OnAnyOf(charges)(db.allocations[i])
    {
      assert AllocationRowOk(db, i);
    }
    SumAgree(db.allocations, AmountListed(ids), OnAnyOf(charges));
    if ids != [] { assert ids[0] in ids; }
  }

  lemma WithdrawAccepted(db: Db, enrollment: nat, actor: int, today: int)
    requires EnrollmentReady(db, enrollment) && !AnyUnmatched(db, enrollment)
    ensures WithdrawError(db, enrollment, Some(actor), today).None?
  {
  }

  lemma ReleaseRows(db: Db, student: int, charges: seq<nat>, now: nat, actor: int)
    requires Integrity(db)
    ensures RowsOk(AfterRelease(db, student, charges, now, actor))
  {
    ReleasedPositive(db, charges);
    var next := AfterRelease(db, student, charges, now, actor);
    forall i | 0 <= i < |next.charges| ensures ChargeRowOk(next, i) { assert ChargeRowOk(db, i); }
    forall i | 0 <= i < |next.entries| ensures EntryRowOk(next, i) { if i < |db.entries| { assert EntryRowOk(db, i); } }
    forall i | 0 <= i < |next.enrollments| ensures EnrollmentRowOk(next, i) { assert EnrollmentRowOk(db, i); }
    forall i | 0 <= i < |next.allocations| ensures AllocationRowOk(next, i) { assert AllocationRowOk(db, i); }
  }
}
