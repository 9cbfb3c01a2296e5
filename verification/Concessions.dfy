/**
 Discounts, adjustments, and the three ways to apply wallet credit: to one charge, to
 one course, and automatically.
 */
module Concessions {
  import opened Arithmetic
  import opened Wrappers
  import opened Sums
  import opened Waterfall
  import opened Tables
  import opened Balances
  import opened Posting
  import opened Queries
  import opened Crediting
  import Calendar
  import Ordering

  // ---------------------------------------------------------------------------
  // Applying a student's own credit
  // ---------------------------------------------------------------------------

  /** Applying wallet credit moves what is placed from the wallet to the debt, and
      touches nobody else. */
  lemma CreditApplied(db: Db, student: int, charges: seq<nat>, limit: Option<int>, other: int)
    requires Integrity(db) && Distinct(charges) && Payees(db, charges, student)
    ensures var next := ApplyCredit(db, CreditEntries(db, student), charges, limit);
      var moved := if other == student then Placed(db, CreditEntries(db, student), charges, limit) else 0;
      && Integrity(next)
      && Outstanding(next, other) == Outstanding(db, other) - moved
      && Wallet(next, other) == Wallet(db, other) - moved
  {
    hide Placed, CreditSlices, Balanced;
    var entries := CreditEntries(db, student);
    var rows := CreditRows(db, entries, charges, limit);
    CreditEntriesPay(db, student);
    CreditEntriesSelected(db, student);
    CreditRowsSpendable(db, entries, charges, limit, student);
    SpendKeepsIntegrity(db, rows);
    SpendPosition(db, rows, other);
    CreditPlaced(db, entries, charges, limit);
    forall k | 0 <= k < |rows|
      ensures SpentFor(db.entries, other)(rows[k]) == if other == student then AmountOf()(rows[k]) else 0
      ensures DiscountFunded(db.entries, other)(rows[k]) == 0
    {
      CreditRowFrom(db, entries, charges, limit, k);
      assert Consumes(db.entries, rows[k]);
      assert LiveCredit(db.entries, student, rows[k].entry);
      assert LiveCredit(db.entries, other, rows[k].entry) <==> other == student;
      assert !KindIs(db.entries, rows[k].entry, Discount);
    }
    SumZero(rows, DiscountFunded(db.entries, other));
    if other == student { SumAgree(rows, SpentFor(db.entries, other), AmountOf()); }
    else { SumZero(rows, SpentFor(db.entries, other)); }
  }

  // ---------------------------------------------------------------------------
  // Discounts
  // ---------------------------------------------------------------------------

  predicate ChargeOf(db: Db, student: int, charge: nat) {
    charge < |db.charges| && db.charges[charge].student == student
  }

  function DiscountError(db: Db, student: int, charge: nat, amount: Money, at: nat): Option<LedgerError> {
    if IsClosed(db, Calendar.PeriodKey(at)) then Some(ClosedPeriod)
    else if !ChargeOf(db, student, charge) then Some(NotFound)
    else if db.charges[charge].status != Open || Remaining(db, charge) <= 0 then Some(ChargeNotOpen)
    else if amount > Remaining(db, charge) then Some(ExceedsRemaining(Remaining(db, charge)))
    else None
  }

  function DiscountEntry(db: Db, student: int, amount: int, at: nat, recorder: int): Entry {
    Entry(|db.entries|, student, Discount, amount, at, recorder, None, false)
  }

  function AfterDiscount(db: Db, student: int, charge: nat, amount: Money, at: nat, recorder: int): Db {
    ApplyCredit(AddEntry(db, DiscountEntry(db, student, amount, at, recorder)), [|db.entries|], [charge], None)
  }

  /** One entry pouring into one charge. */
  lemma PlacedOneToOne(db: Db, e: nat, c: nat, limit: Option<int>)
    ensures Placed(db, [e], [c], limit) == Capped(Min(Usable(db, e), Need(db, c)), limit)
  {
    assert Whole(UsableOf(db, [e])) == Before(UsableOf(db, [e]), 0) + Usable(db, e);
    assert Whole(NeedsOf(db, [c])) == Before(NeedsOf(db, [c]), 0) + Need(db, c);
  }

  lemma DiscountRows(db: Db, student: int, charge: nat, amount: Money, at: nat, recorder: int)
    requires Integrity(db) && DiscountError(db, student, charge, amount, at).None?
    ensures var entered := AddEntry(db, DiscountEntry(db, student, amount, at, recorder));
      var rows := CreditRows(entered, [|db.entries|], [charge], None);
      && Integrity(entered) && Spendable(entered, rows)
      && Sum(rows, AmountOf()) == amount
      && (forall k :: 0 <= k < |rows| ==> rows[k].entry == |db.entries| && rows[k].charge == charge)
  {
    var e := DiscountEntry(db, student, amount, at, recorder);
    var entered := AddEntry(db, e);
    FundingEntryKeepsIntegrity(db, e);
    PlacedOneToOne(entered, e.id, charge, None);
    CreditPlaced(entered, [e.id], [charge], None);
    CreditRowsSpendable(entered, [e.id], [charge], None, student);
    var rows := CreditRows(entered, [e.id], [charge], None);
    forall k | 0 <= k < |rows| ensures rows[k].entry == e.id && rows[k].charge == charge {
      CreditRowFrom(entered, [e.id], [charge], None, k);
    }
  }

  lemma NewEntryUnused(db: Db, e: Entry)
    requires RowsOk(db) && e.id == |db.entries|
    ensures Consumed(AddEntry(db, e), e.id) == 0
  {
    var entries := db.entries + [e];
    forall i | 0 <= i < |db.allocations|
      ensures ConsumedOf(entries, e.id)(db.allocations[i]) == 0
    {
      assert AllocationRowOk(db, i);
    }
    SumZero(db.allocations, ConsumedOf(entries, e.id));
  }

  /** A discount is applied in full to its charge, so the check after `_apply_credit`
      never fails; it lowers the debt and leaves the wallet alone. */
  lemma DiscountEffect(db: Db, student: int, charge: nat, amount: Money, at: nat, recorder: int, other: int)
    requires Integrity(db) && DiscountError(db, student, charge, amount, at).None?
    ensures var next := AfterDiscount(db, student, charge, amount, at, recorder);
      && Integrity(next)
      && Applied(next, |db.entries|) == Consumed(next, |db.entries|) == amount
      && (forall c: nat :: ActiveOn(next, c) == ActiveOn(db, c) + if c == charge then amount else 0)
      && Outstanding(next, other) == Outstanding(db, other) - (if other == student then amount else 0)
      && Wallet(next, other) == Wallet(db, other)
  {
    hide CreditRows;
    var e := DiscountEntry(db, student, amount, at, recorder);
    var entered := AddEntry(db, e);
    var rows := CreditRows(entered, [e.id], [charge], None);
    DiscountRows(db, student, charge, amount, at, recorder);
    SpendKeepsIntegrity(entered, rows);
    SpendSums(entered, rows);
    SpendPosition(entered, rows, other);
    FundingEntryPosition(db, e, other);
    Untouched(db, |db.entries|);
    NewEntryUnused(db, e);
    forall k | 0 <= k < |rows|
      ensures SpentFor(entered.entries, other)(rows[k]) == 0
      ensures DiscountFunded(entered.entries, other)(rows[k]) == if other == student then AmountOf()(rows[k]) else 0
    {
      assert !LiveCredit(entered.entries, other, e.id);
      assert KindIs(entered.entries, e.id, Discount);
    }
    SumZero(rows, SpentFor(entered.entries, other));
    SumAgree(rows, OfEntry(e.id), AmountOf()) by { RowsActive(entered, rows); }
    if other == student { SumAgree(rows, DiscountFunded(entered.entries, other), AmountOf()); }
    else { SumZero(rows, DiscountFunded(entered.entries, other)); }
    forall c: nat ensures Sum(rows, OnCharge(c)) == if c == charge then amount else 0 {
      RowsActive(entered, rows);
      if c == charge { SumAgree(rows, OnCharge(c), AmountOf()); } else { SumZero(rows, OnCharge(c)); }
    }
  }

  lemma RowsActive(db: Db, rows: seq<Allocation>)
    requires Spendable(db, rows)
    ensures forall k :: 0 <= k < |rows| ==> rows[k].reversedBy.None?
  {
    forall k | 0 <= k < |rows| ensures rows[k].reversedBy.None? { assert NewRowOk(db, rows, k); }
  }

  // ---------------------------------------------------------------------------
  // Adjustments
  // ---------------------------------------------------------------------------

  function AdjustmentError(db: Db, at: nat, superAdmin: bool): Option<LedgerError> {
    if !superAdmin then Some(Forbidden)
    else if IsClosed(db, Calendar.PeriodKey(at)) then Some(ClosedPeriod)
    else None
  }

  function AdjustmentEntry(db: Db, student: int, amount: int, at: nat, recorder: int): Entry {
    Entry(|db.entries|, student, Adjustment, amount, at, recorder, None, false)
  }

  function AfterAdjustment(db: Db, student: int, amount: Money, at: nat, recorder: int): Db {
    AddEntry(db, AdjustmentEntry(db, student, amount, at, recorder))
  }

  lemma AdjustmentEffect(db: Db, student: int, amount: Money, at: nat, recorder: int, other: int)
    requires Integrity(db)
    ensures var next := AfterAdjustment(db, student, amount, at, recorder);
      && Integrity(next)
      && Outstanding(next, other) == Outstanding(db, other)
      && Wallet(next, other) == Wallet(db, other) + (if other == student then amount else 0)
  {
    var e := AdjustmentEntry(db, student, amount, at, recorder);
    FundingEntryKeepsIntegrity(db, e);
    FundingEntryPosition(db, e, other);
  }

  // ---------------------------------------------------------------------------
  // Wallet credit to one charge
  // ---------------------------------------------------------------------------

  function CreditAmount(db: Db, student: int, owed: int, requested: Option<Money>): int {
    match requested case Some(amount) => amount case None => Min(Wallet(db, student), owed)
  }

  function AllocateError(db: Db, student: int, charge: nat, requested: Option<Money>): Option<LedgerError> {
    if !ChargeOf(db, student, charge) then Some(NotFound)
    else if db.charges[charge].status == Cancelled then Some(ChargeIsCancelled)
    else if Remaining(db, charge) <= 0 then Some(AlreadySettled)
    else
      var amount := CreditAmount(db, student, Remaining(db, charge), requested);
      if amount <= 0 then Some(NoCredit)
      else if amount > Wallet(db, student) then Some(ExceedsWallet(Wallet(db, student)))
      else if amount > Remaining(db, charge) then Some(ExceedsRemaining(Remaining(db, charge)))
      else None
  }

  function AfterAllocate(db: Db, student: int, charge: nat, amount: int): Db {
    ApplyCredit(db, CreditEntries(db, student), [charge], Some(amount))
  }

  /** The accepted amount is placed in full: the loop ends with nothing outstanding. */
  lemma AllocatePlaces(db: Db, student: int, charge: nat, requested: Option<Money>)
    requires Integrity(db) && AllocateError(db, student, charge, requested).None?
    ensures var amount := CreditAmount(db, student, Remaining(db, charge), requested);
      && 0 < amount && Placed(db, CreditEntries(db, student), [charge], Some(amount)) == amount
  {
    WalletIsUsable(db, student);
    assert Whole(NeedsOf(db, [charge])) == Before(NeedsOf(db, [charge]), 0) + Need(db, charge);
  }

  lemma AllocateEffect(db: Db, student: int, charge: nat, requested: Option<Money>, other: int)
    requires Integrity(db) && AllocateError(db, student, charge, requested).None?
    ensures var amount := CreditAmount(db, student, Remaining(db, charge), requested);
      var next := AfterAllocate(db, student, charge, amount);
      && Integrity(next)
      && ActiveOn(next, charge) == ActiveOn(db, charge) + amount
      && Outstanding(next, other) == Outstanding(db, other) - (if other == student then amount else 0)
      && Wallet(next, other) == Wallet(db, other) - (if other == student then amount else 0)
  {
    hide Placed, CreditSlices, CreditRows, RowsOk, Wallet, OnCharge;
    var amount := CreditAmount(db, student, Remaining(db, charge), requested);
    AllocatePlaces(db, student, charge, requested);
    CreditApplied(db, student, [charge], Some(amount), other);
    CreditEntriesPay(db, student);
    var entries := CreditEntries(db, student);
    CreditRowsSpendable(db, entries, [charge], Some(amount), student);
    SpendSums(db, CreditRows(db, entries, [charge], Some(amount)));
    CreditReceivedOldestFirst(db, entries, [charge], Some(amount), 0);
    assert Need(db, charge) == Remaining(db, charge);
  }

  // ---------------------------------------------------------------------------
  // Wallet credit to one course
  // ---------------------------------------------------------------------------

  function OnAnyOf(charges: seq<nat>): Allocation -> int {
    (a: Allocation) => if a.charge in charges && a.reversedBy.None? then a.amount else 0
  }

  function PriceIn(db: Db): nat -> int {
    (c: nat) => if c < |db.charges| then db.charges[c].amount else 0
  }

  /** `balance` in `allocate_course_credit`: all the amounts less all the allocations. */
  function ListBalance(db: Db, charges: seq<nat>): int {
    Sum(charges, PriceIn(db)) - Sum(db.allocations, OnAnyOf(charges))
  }

  function CourseCreditError(db: Db, student: int, enrollment: nat, requested: Option<Money>): Option<LedgerError> {
    if !(enrollment < |db.enrollments| && db.enrollments[enrollment].student == student) then Some(InvalidTarget)
    else if Wallet(db, student) <= 0 then Some(NoCredit)
    else
      var balance := ListBalance(db, CourseCharges(db, student, enrollment));
      if balance <= 0 then Some(NothingToAllocate)
      else
        var amount := CreditAmount(db, student, balance, requested);
        if amount > Wallet(db, student) then Some(ExceedsWallet(Wallet(db, student)))
        else if amount > balance then Some(ExceedsBalance(balance))
        else None
  }

  function CourseCreditAmount(db: Db, student: int, enrollment: nat, requested: Option<Money>): int {
    CreditAmount(db, student, ListBalance(db, CourseCharges(db, student, enrollment)), requested)
  }

  function AfterCourseCredit(db: Db, student: int, enrollment: nat, amount: int): Db {
    ApplyCredit(db, CreditEntries(db, student), CourseCharges(db, student, enrollment), Some(amount))
  }

  lemma CourseChargesTake(db: Db, student: int, enrollment: nat)
    ensures Payees(db, CourseCharges(db, student, enrollment), student)
    ensures Distinct(CourseCharges(db, student, enrollment))
  {
    var cs := CourseCharges(db, student, enrollment);
    CourseChargesSelected(db, student, enrollment);
    forall j | 0 <= j < |cs|
      ensures cs[j] < |db.charges| && db.charges[cs[j]].student == student && db.charges[cs[j]].status != Cancelled
    {
      assert cs[j] in cs && IsLiveFor(db, student, enrollment)(cs[j]);
    }
  }

  function ChargeShare(): (nat, Allocation) -> int {
    (c: nat, a: Allocation) => if a.charge == c && a.reversedBy.None? then a.amount else 0
  }

  function ActiveAt(db: Db): nat -> int { (c: nat) => ActiveOn(db, c) }

  lemma AllocatedOnList(db: Db, charges: seq<nat>)
    requires Distinct(charges)
    ensures Sum(charges, ActiveAt(db)) == Sum(db.allocations, OnAnyOf(charges))
  {
    forall k | 0 <= k < |db.allocations|
      ensures Sum(charges, Column(ChargeShare(), db.allocations[k])) == OnAnyOf(charges)(db.allocations[k])
    {
      var a := db.allocations[k];
      if a.charge in charges {
        var j :| 0 <= j < |charges| && charges[j] == a.charge;
        SumSingle(charges, j, Column(ChargeShare(), a));
      } else {
        SumZero(charges, Column(ChargeShare(), a));
      }
    }
    SumGrouped(charges, db.allocations, ChargeShare(), OnAnyOf(charges));
    forall j | 0 <= j < |charges|
      ensures RowTotals(ChargeShare(), db.allocations)(charges[j]) == ActiveAt(db)(charges[j])
    {
      SumAgree(db.allocations, Row(ChargeShare(), charges[j]), OnCharge(charges[j]));
      assert ActiveAt(db)(charges[j]) == ActiveOn(db, charges[j]);
    }
    SumAgree(charges, RowTotals(ChargeShare(), db.allocations), ActiveAt(db));
  }

  /** The aggregate balance is the sum of what each charge needs. */
  lemma ListBalanceIsNeed(db: Db, charges: seq<nat>)
    requires Integrity(db) && Distinct(charges) && forall j :: 0 <= j < |charges| ==> charges[j] < |db.charges|
    ensures ListBalance(db, charges) == Whole(NeedsOf(db, charges))
  {
    AllocatedOnList(db, charges);
    BeforeIsSum(charges, NeedsOf(db, charges), NeedIn(db), |charges|);
    assert charges[..|charges|] == charges;
    forall j | 0 <= j < |charges| ensures PriceIn(db)(charges[j]) == NeedIn(db)(charges[j]) + ActiveAt(db)(charges[j]) {
      assert ChargeBalanced(db, charges[j]);
      assert NeedIn(db)(charges[j]) == Need(db, charges[j]) == Remaining(db, charges[j]);
      assert ActiveAt(db)(charges[j]) == ActiveOn(db, charges[j]);
    }
    SumPlus(charges, NeedIn(db), ActiveAt(db), PriceIn(db));
  }

  /** Exactly the accepted amount is placed, in at least one row. */
  lemma CourseCreditPlaces(db: Db, student: int, enrollment: nat, requested: Option<Money>)
    requires Integrity(db) && CourseCreditError(db, student, enrollment, requested).None?
    ensures var amount := CourseCreditAmount(db, student, enrollment, requested);
      var entries, charges := CreditEntries(db, student), CourseCharges(db, student, enrollment);
      && 0 < amount && Placed(db, entries, charges, Some(amount)) == amount
      && CreditRows(db, entries, charges, Some(amount)) != []
  {
    var amount := CourseCreditAmount(db, student, enrollment, requested);
    var cs := CourseCharges(db, student, enrollment);
    CourseChargesTake(db, student, enrollment);
    ListBalanceIsNeed(db, cs);
    WalletIsUsable(db, student);
    CreditPlaced(db, CreditEntries(db, student), cs, Some(amount));
  }

  lemma CourseCreditEffect(db: Db, student: int, enrollment: nat, requested: Option<Money>, other: int)
    requires Integrity(db) && CourseCreditError(db, student, enrollment, requested).None?
    ensures var amount := CourseCreditAmount(db, student, enrollment, requested);
      var next := AfterCourseCredit(db, student, enrollment, amount);
      && Integrity(next)
      && Outstanding(next, other) == Outstanding(db, other) - (if other == student then amount else 0)
      && Wallet(next, other) == Wallet(db, other) - (if other == student then amount else 0)
  {
    CourseCreditPlaces(db, student, enrollment, requested);
    CourseChargesTake(db, student, enrollment);
    CreditApplied(db, student, CourseCharges(db, student, enrollment),
      Some(CourseCreditAmount(db, student, enrollment, requested)), other);
  }

  // ---------------------------------------------------------------------------
  // Automatic allocation
  // ---------------------------------------------------------------------------

  function AfterPreferred(db: Db, student: int, preferred: Option<nat>): Db {
    if preferred.None? then db
    else ApplyCredit(db, CreditEntries(db, student), OpenCharges(db, student, preferred), None)
  }

  function AfterAutoAllocate(db: Db, student: int, preferred: Option<nat>): Db {
    var first := AfterPreferred(db, student, preferred);
    ApplyCredit(first, CreditEntries(first, student), OpenCharges(first, student, None), None)
  }

  lemma OpenChargesTake(db: Db, student: int, enrollment: Option<nat>)
    ensures Payees(db, OpenCharges(db, student, enrollment), student) && Distinct(OpenCharges(db, student, enrollment))
  {
    var cs := OpenCharges(db, student, enrollment);
    OpenChargesSelected(db, student, enrollment);
    forall j | 0 <= j < |cs|
      ensures cs[j] < |db.charges| && db.charges[cs[j]].student == student && db.charges[cs[j]].status != Cancelled
    {
      assert cs[j] in cs && IsOpenFor(db, student, enrollment)(cs[j]);
    }
  }

  function RemainingAt(db: Db, student: int): nat -> int {
    (c: nat) => if c < |db.charges| then RemainingFor(db, student)(db.charges[c]) else 0
  }

  /** The open charges need exactly what the student owes. */
  lemma OpenNeedIsOutstanding(db: Db, student: int)
    requires Integrity(db)
    ensures Whole(NeedsOf(db, OpenCharges(db, student, None))) == Outstanding(db, student)
  {
    var cs, n := OpenCharges(db, student, None), |db.charges|;
    OpenChargesSelected(db, student, None);
    OpenChargesTake(db, student, None);
    forall c: nat | c < n ensures RemainingAt(db, student)(c) == if c in cs then NeedIn(db)(c) else 0 {
      assert ChargeRowOk(db, c) && ChargeBalanced(db, c);
      assert IsOpenFor(db, student, None)(c) <==> c in cs;
      assert RemainingFor(db, student)(db.charges[c])
          == if db.charges[c].student == student &&
            db.charges[c].status != Cancelled then db.charges[c].amount - ActiveOn(db, c) else 0;
      assert NeedIn(db)(c) == Need(db, c) == Remaining(db, c);
    }
    WholeIsTableSum(cs, NeedsOf(db, cs), n, NeedIn(db), RemainingAt(db, student));
    SumMapped(Range(n), db.charges, RemainingAt(db, student), RemainingFor(db, student));
    OutstandingIsSumOfRemaining(db, student);
  }

  /** Automatic allocation moves no position, and afterwards the student has no credit
      left or owes nothing. */
  lemma AutoAllocateEffect(db: Db, student: int, preferred: Option<nat>, other: int)
    requires Integrity(db)
    ensures var next := AfterAutoAllocate(db, student, preferred);
      && Integrity(next)
      && Outstanding(next, other) - Wallet(next, other) == Outstanding(db, other) - Wallet(db, other)
      && (other != student ==> Outstanding(next, other) == Outstanding(db, other))
      && (Outstanding(next, student) == 0 || Wallet(next, student) == 0)
  {
    var first := AfterPreferred(db, student, preferred);
    if preferred.Some? {
      OpenChargesTake(db, student, preferred);
      CreditApplied(db, student, OpenCharges(db, student, preferred), None, other);
    }
    OpenChargesTake(first, student, None);
    CreditApplied(first, student, OpenCharges(first, student, None), None, other);
    CreditApplied(first, student, OpenCharges(first, student, None), None, student);
    OpenNeedIsOutstanding(first, student);
    WalletIsUsable(first, student);
  }

  /** Once a list of charges takes less than there is, it is settled to the end. */
  lemma ListSettled(db: Db, student: int, charges: seq<nat>, j: nat)
    requires Integrity(db) && Distinct(charges) && Payees(db, charges, student) && j < |charges|
    requires Whole(NeedsOf(db, charges)) <= Whole(UsableOf(db, CreditEntries(db, student)))
    ensures ActiveOn(ApplyCredit(db, CreditEntries(db, student), charges, None), charges[j])
      == db.charges[charges[j]].amount
  {
    hide CreditSlices, CreditRows, Sum, Usable, UsableOf, Before, StatusFor;
    var entries, n := CreditEntries(db, student), NeedsOf(db, charges);
    CreditEntriesPay(db, student);
    CreditRowsSpendable(db, entries, charges, None, student);
    SpendSums(db, CreditRows(db, entries, charges, None));
    CreditReceivedOldestFirst(db, entries, charges, None, j);
    BeforeMonotone(n, j + 1, |n|);
    BeforeStep(n, j);
    assert n[j] == Need(db, charges[j]);
    assert ChargeBalanced(db, charges[j]);
  }

  /** Pouring an empty wallet changes nothing. */
  lemma NothingToPour(db: Db, student: int, charges: seq<nat>)
    requires Integrity(db) && Whole(UsableOf(db, CreditEntries(db, student))) == 0
    ensures forall c: nat :: ActiveOn(ApplyCredit(db, CreditEntries(db, student), charges, None), c) == ActiveOn(db, c)
  {
    PlacedFits(db, CreditEntries(db, student), charges, None);
    CreditPlaced(db, CreditEntries(db, student), charges, None);
    assert CreditRows(db, CreditEntries(db, student), charges, None) == [];
    assert db.allocations + [] == db.allocations;
  }

  lemma PouringAdds(db: Db, student: int, charges: seq<nat>)
    requires Integrity(db) && Distinct(charges) && Payees(db, charges, student)
    ensures forall c: nat :: ActiveOn(db, c) <= ActiveOn(ApplyCredit(db, CreditEntries(db, student), charges, None), c)
    ensures forall c: nat ::
      c !in charges ==> ActiveOn(ApplyCredit(db, CreditEntries(db, student), charges, None), c) == ActiveOn(db, c)
  {
    hide CreditRows;
    var entries := CreditEntries(db, student);
    var rows := CreditRows(db, entries, charges, None);
    CreditEntriesPay(db, student);
    CreditRowsSpendable(db, entries, charges, None, student);
    SpendSums(db, rows);
    forall c: nat | c !in charges ensures Sum(rows, OnCharge(c)) == 0 {
      forall k | 0 <= k < |rows| ensures OnCharge(c)(rows[k]) == 0 { CreditRowFrom(db, entries, charges, None, k); }
      SumZero(rows, OnCharge(c));
    }
  }

  /** Automatic allocation serves the preferred enrollment first: another charge gains
      something only once every live charge of the preferred one is settled. */
  lemma PreferredFirst(db: Db, student: int, enrollment: nat, c: nat, d: nat)
    requires Integrity(db) && c < |db.charges| && d < |db.charges|
    requires db.charges[c].enrollment != enrollment
    requires db.charges[d].enrollment == enrollment && db.charges[d].student == student
    requires db.charges[d].status != Cancelled
    requires ActiveOn(AfterAutoAllocate(db, student, Some(enrollment)), c) != ActiveOn(db, c)
    ensures ActiveOn(AfterAutoAllocate(db, student, Some(enrollment)), d) == db.charges[d].amount
  {
    hide CreditRows, CreditEntries, OpenCharges, ApplyCredit, ActiveOn, Integrity, Whole, UsableOf, NeedsOf;
    var first := AfterPreferred(db, student, Some(enrollment));
    var cs := OpenCharges(db, student, Some(enrollment));
    OpenChargesTake(db, student, Some(enrollment));
    CreditApplied(db, student, cs, None, student);
    PouringAdds(db, student, cs);
    OpenChargesTake(first, student, None);
    PouringAdds(first, student, OpenCharges(first, student, None));
    PreferredOpen(db, student, enrollment, c, d);
    if Whole(UsableOf(db, CreditEntries(db, student))) <= Whole(NeedsOf(db, cs)) {
      WalletSpent(db, student, cs);
      NothingToPour(first, student, OpenCharges(first, student, None));
      assert false;
    }
    AutoAllocateEffect(db, student, Some(enrollment), student);
    if d in cs {
      var j :| 0 <= j < |cs| && cs[j] == d;
      ListSettled(db, student, cs, j);
    }
    AutoKeepsAmounts(db, student, Some(enrollment));
    SettledStays(db, AfterAutoAllocate(db, student, Some(enrollment)), first, d);
  }

  lemma AutoKeepsAmounts(db: Db, student: int, preferred: Option<nat>)
    ensures var next := AfterAutoAllocate(db, student, preferred);
      |next.charges| == |db.charges| && forall d ::
        0 <= d < |db.charges| ==> next.charges[d].amount == db.charges[d].amount
  {
    hide CreditRows, CreditEntries, OpenCharges, StatusFor;
  }

  lemma PreferredOpen(db: Db, student: int, enrollment: nat, c: nat, d: nat)
    requires Integrity(db) && c < |db.charges| && d < |db.charges| && db.charges[c].enrollment != enrollment
    requires db.charges[d].enrollment == enrollment && db.charges[d].student == student
    requires db.charges[d].status != Cancelled
    ensures c !in OpenCharges(db, student, Some(enrollment))
    ensures d !in OpenCharges(db, student, Some(enrollment)) ==> ActiveOn(db, d) == db.charges[d].amount
  {
    OpenChargesSelected(db, student, Some(enrollment));
    assert IsOpenFor(db, student, Some(enrollment))(c) <==> c in OpenCharges(db, student, Some(enrollment));
    assert IsOpenFor(db, student, Some(enrollment))(d) <==> d in OpenCharges(db, student, Some(enrollment));
    assert ChargeBalanced(db, d);
  }

  /** Charges that need more than the wallet take all of it. */
  lemma WalletSpent(db: Db, student: int, charges: seq<nat>)
    requires Integrity(db) && Distinct(charges) && Payees(db, charges, student)
    requires Whole(UsableOf(db, CreditEntries(db, student))) <= Whole(NeedsOf(db, charges))
    ensures var next := ApplyCredit(db, CreditEntries(db, student), charges, None);
      Whole(UsableOf(next, CreditEntries(next, student))) == 0
  {
    hide CreditEntries, ApplyCredit, Integrity, Whole, UsableOf, NeedsOf, Wallet;
    CreditApplied(db, student, charges, None, student);
    WalletIsUsable(db, student);
    WalletIsUsable(ApplyCredit(db, CreditEntries(db, student), charges, None), student);
  }

  lemma SettledStays(db: Db, next: Db, first: Db, d: nat)
    requires Integrity(next) && d < |db.charges| && |next.charges| == |db.charges|
    requires next.charges[d].amount == db.charges[d].amount
    requires ActiveOn(first, d) == db.charges[d].amount && ActiveOn(first, d) <= ActiveOn(next, d)
    ensures ActiveOn(next, d) == db.charges[d].amount
  {
    assert ChargeBalanced(next, d);
  }

  // ---------------------------------------------------------------------------
  // The lists the requests pour from and into
  // ---------------------------------------------------------------------------

  lemma OrderedLists(db: Db, student: int, enrollment: nat)
    requires Integrity(db)
    ensures forall i :: 0 <= i < |CreditEntries(db, student)| ==> CreditEntries(db, student)[i] < |db.entries|
    ensures forall j ::
      0 <= j < |CourseCharges(db, student, enrollment)| ==> CourseCharges(db, student, enrollment)[j] < |db.charges|
    ensures Distinct(CourseCharges(db, student, enrollment))
  {
    CreditEntriesPay(db, student);
    CourseChargesTake(db, student, enrollment);
  }

  lemma SamePayers(db: Db, student: int, preferred: Option<nat>)
    ensures CreditEntries(AfterPreferred(db, student, preferred), student) == CreditEntries(db, student)
  {
    hide CreditRows;
    var first := AfterPreferred(db, student, preferred);
    forall e: nat ensures IsLiveCredit(first, student)(e) == IsLiveCredit(db, student)(e) {
      assert LiveCredit(first.entries, student, e) == LiveCredit(db.entries, student, e);
    }
    Ordering.MatchingSame(|db.entries|, IsLiveCredit(db, student), EntryKey(db), |db.entries|,
      IsLiveCredit(first, student), EntryKey(first));
  }

  lemma NoPayers(db: Db, student: int, preferred: Option<nat>)
    requires Integrity(db) && CreditEntries(db, student) == []
    ensures AfterAutoAllocate(db, student, preferred) == db
  {
    CreditOnEmpty(db, []);
  }

  // ---------------------------------------------------------------------------
  // The loop of `allocate_credit`
  // ---------------------------------------------------------------------------

  /** The rows so far: `slices` of the first `i` entries, filling `amount` up to what is
      still outstanding. */
  ghost predicate PaidSoFar(db: Db, payers: seq<nat>, charge: nat, amount: int, i: nat, outstanding: int,
                            slices: seq<Slice>)
    requires i <= |payers|
  {
    && 0 <= outstanding <= amount
    && Fill(slices, UsableOf(db, payers), NeedsOf(db, [charge]), amount, 0, amount - outstanding)
    && (0 < outstanding ==> amount - outstanding == Before(UsableOf(db, payers), i))
    && (forall k :: 0 <= k < |slices| ==> slices[k].source < i)
  }

  lemma PayFromEntry(db: Db, payers: seq<nat>, charge: nat, amount: int, i: nat, outstanding: int, slices: seq<Slice>)
    requires i < |payers| && payers[i] < |db.entries| && 0 < outstanding
    requires amount <= Need(db, charge)
    requires PaidSoFar(db, payers, charge, amount, i, outstanding, slices)
    ensures var available := Available(db, payers[i]);
      var portion := Min(available, outstanding);
      if available <= 0 then PaidSoFar(db, payers, charge, amount, i + 1, outstanding, slices)
      else PaidSoFar(db, payers, charge, amount, i + 1, outstanding - portion, slices + [Slice(i, 0, portion)])
  {
    hide Available, Remaining, Fill, Before;
    var a, n, at := UsableOf(db, payers), NeedsOf(db, [charge]), amount - outstanding;
    BeforeStep(a, i);
    BeforeNonNegative(a, i);
    BeforeStep(n, 0);
    BeforeEmpty(n);
    assert n[0] == Need(db, charge);
    var available := Available(db, payers[i]);
    if 0 < available {
      var s := Slice(i, 0, Min(available, outstanding));
      FillAppend(slices, s, a, n, amount, 0, at);
    }
  }

  /** An accepted amount is fully placed when the loop ends. */
  lemma PaidInFull(db: Db, payers: seq<nat>, charge: nat, amount: int, i: nat, outstanding: int, slices: seq<Slice>)
    requires i <= |payers| && 0 < amount && Placed(db, payers, [charge], Some(amount)) == amount
    requires PaidSoFar(db, payers, charge, amount, i, outstanding, slices)
    requires outstanding <= 0 || i == |payers|
    ensures outstanding == 0 && slices != []
    ensures RowsOf(|db.allocations|, payers, [charge], slices) == CreditRows(db, payers, [charge], Some(amount))
  {
    PlacedFits(db, payers, [charge], Some(amount));
    PourIsTheOnlyTiling(slices, UsableOf(db, payers), NeedsOf(db, [charge]), amount);
    FillForward(slices, UsableOf(db, payers), NeedsOf(db, [charge]), amount, 0, amount);
  }

  lemma AmountIsNeeded(db: Db, payers: seq<nat>, charge: nat, amount: int)
    requires Placed(db, payers, [charge], Some(amount)) == amount
    ensures amount <= Need(db, charge)
  {
    PlacedFits(db, payers, [charge], Some(amount));
    var n := NeedsOf(db, [charge]);
    assert Before(n, 1) == Before(n, 0) + n[0];
  }

  lemma NothingPaid(db: Db, payers: seq<nat>, charge: nat, amount: int)
    requires 0 < amount
    ensures PaidSoFar(db, payers, charge, amount, 0, amount, [])
    ensures AddAllocations(db, RowsOf(|db.allocations|, payers, [charge], [])) == db
  {
    assert db.allocations + [] == db.allocations;
  }

  lemma EntryNotUsedYet(db: Db, payers: seq<nat>, charge: nat, amount: int, i: nat, outstanding: int,
                        slices: seq<Slice>)
    requires i < |payers| && payers[i] < |db.entries| && Distinct(payers)
    requires PaidSoFar(db, payers, charge, amount, i, outstanding, slices)
    ensures Available(AddAllocations(db, RowsOf(|db.allocations|, payers, [charge], slices)), payers[i])
      == Available(db, payers[i])
  {
    SameAvailable(db, RowsOf(|db.allocations|, payers, [charge], slices), payers[i]);
  }

  /** Every row of the loop is for the one charge. */
  lemma RowsNameCharge(db: Db, payers: seq<nat>, charge: nat, amount: int)
    ensures forall k :: 0 <= k < |CreditRows(db, payers, [charge], Some(amount))| ==>
      CreditRows(db, payers, [charge], Some(amount))[k].charge in [charge]
  {
    forall k | 0 <= k < |CreditRows(db, payers, [charge], Some(amount))|
      ensures CreditRows(db, payers, [charge], Some(amount))[k].charge in [charge]
    {
      CreditRowFrom(db, payers, [charge], Some(amount), k);
    }
  }
}
